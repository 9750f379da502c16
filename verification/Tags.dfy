/** The comma-separated tag column: the hand-written splitter, the two picker loops that remove
    duplicates, and the join that fills the column.
 */
module Tags {
  import opened Text

  /** What both pickers promise to extract: the non-empty trimmed pieces, in order. */
  function CleanPieces(pieces: seq<string>): seq<string> {
    if pieces == [] then [] else
      var before, t := CleanPieces(pieces[..|pieces| - 1]), TrimSpace(pieces[|pieces| - 1]);
      if t == "" then before else before + [t]
  }

  function TagsOf(blob: string): seq<string> {
    CleanPieces(Split(blob, ','))
  }

  /** First occurrences, in order. */
  function Distinct(tags: seq<string>): seq<string> {
    if tags == [] then [] else
      var before, t := Distinct(tags[..|tags| - 1]), tags[|tags| - 1];
      if t in before then before else before + [t]
  }

  datatype Blob = Null | Text(value: string)

  /** Every tag of every non-null blob, in reading order. */
  function AllTags(blobs: seq<Blob>): seq<string> {
    if blobs == [] then [] else
      var b := blobs[|blobs| - 1];
      var before := AllTags(blobs[..|blobs| - 1]);
      if b.Null? then before else before + TagsOf(b.value)
  }

  /** bytesSplitCommaTrim: one pass with a buffer that is flushed at every comma and at the end. */
  method SplitCommaTrim(s: string) returns (out: seq<string>)
    ensures out == TagsOf(s)
  {
    hide Split, CleanPieces;
    out := [];
    var cur := "";
    ghost var done: seq<string> := [];
    NothingSplit();
    assert cur + s[0..] == s;
    for i := 0 to |s|
      invariant ',' !in cur && out == CleanPieces(done)
      invariant Split(s, ',') == done + Split(cur + s[i..], ',')
    {
      NextChar(s, cur, done, i);
      if s[i] == ',' {
        out := Flush(out, cur, done);
        done, cur := done + [cur], "";
      } else {
        cur := cur + [s[i]];
      }
    }
    assert cur + s[|s|..] == cur;
    SplitWithoutSeparator(cur, ',');
    out := Flush(out, cur, done);
  }

  lemma NothingSplit()
    ensures CleanPieces([]) == []
  {
  }

  lemma NextChar(s: string, cur: string, done: seq<string>, i: nat)
    requires i < |s| && ',' !in cur
    ensures done + Split(cur + s[i..], ',') ==
            if s[i] == ',' then done + [cur] + Split("" + s[i + 1..], ',')
            else done + Split(cur + [s[i]] + s[i + 1..], ',')
  {
    assert cur + s[i..] == cur + [s[i]] + s[i + 1..] && "" + s[i + 1..] == s[i + 1..];
    if s[i] == ',' {
      SplitAtSeparator(cur, s[i + 1..], ',');
    }
  }

  method Flush(out: seq<string>, cur: string, ghost done: seq<string>) returns (out': seq<string>)
    requires out == CleanPieces(done)
    ensures out' == CleanPieces(done + [cur])
  {
    assert (done + [cur])[..|done|] == done;
    var t := TrimSpace(cur);
    out' := if t != "" then out + [t] else out;
  }

  /** handleSKProjectSelectTag: the picker built on the byte splitter. */
  method SelectTags(blobs: seq<Blob>) returns (out: seq<string>)
    ensures out == Distinct(AllTags(blobs))
  {
    var seen: set<string> := {};
    out := [];
    for i := 0 to |blobs|
      invariant out == Distinct(AllTags(blobs[..i])) && Same(seen, out)
    {
      AllTagsSnoc(blobs, i);
      if blobs[i].Text? {
        var tags := SplitCommaTrim(blobs[i].value);
        seen, out := AddSplit(tags, seen, out, AllTags(blobs[..i]));
      }
    }
    assert blobs[..|blobs|] == blobs;
  }

  /** The inner loop of the first picker. */
  method AddSplit(tags: seq<string>, seen: set<string>, out: seq<string>, ghost all: seq<string>)
    returns (seen': set<string>, out': seq<string>)
    requires out == Distinct(all) && Same(seen, out)
    ensures out' == Distinct(all + tags) && Same(seen', out')
  {
    hide Distinct;
    seen', out' := seen, out;
    assert all + tags[..0] == all;
    for j := 0 to |tags|
      invariant out' == Distinct(all + tags[..j]) && Same(seen', out')
    {
      assert all + tags[..j + 1] == all + tags[..j] + [tags[j]];
      DistinctSnoc(all + tags[..j], tags[j]);
      if tags[j] in seen' {
        continue;
      }
      seen' := seen' + {tags[j]};
      out' := out' + [tags[j]];
    }
    assert tags[..|tags|] == tags;
  }

  /** handleSKTemplateListTag: the picker built on strings.Split. */
  method ListTags(blobs: seq<Blob>) returns (out: seq<string>)
    ensures out == Distinct(AllTags(blobs))
  {
    var seen: set<string> := {};
    out := [];
    for i := 0 to |blobs|
      invariant out == Distinct(AllTags(blobs[..i])) && Same(seen, out)
    {
      AllTagsSnoc(blobs, i);
      if blobs[i].Text? {
        seen, out := AddTrimmed(Split(blobs[i].value, ','), seen, out, AllTags(blobs[..i]));
      }
    }
    assert blobs[..|blobs|] == blobs;
  }

  /** The inner loop of the second picker: it trims and filters while it removes duplicates. */
  method AddTrimmed(pieces: seq<string>, seen: set<string>, out: seq<string>, ghost all: seq<string>)
    returns (seen': set<string>, out': seq<string>)
    requires out == Distinct(all) && Same(seen, out)
    ensures out' == Distinct(all + CleanPieces(pieces)) && Same(seen', out')
  {
    hide Distinct;
    seen', out' := seen, out;
    assert all + CleanPieces(pieces[..0]) == all;
    for j := 0 to |pieces|
      invariant out' == Distinct(all + CleanPieces(pieces[..j])) && Same(seen', out')
    {
      assert pieces[..j + 1][..j] == pieces[..j];
      var tag := TrimSpace(pieces[j]);
      if tag == "" {
        continue;
      }
      assert all + CleanPieces(pieces[..j + 1]) == all + CleanPieces(pieces[..j]) + [tag];
      DistinctSnoc(all + CleanPieces(pieces[..j]), tag);
      if tag !in seen' {
        seen' := seen' + {tag};
        out' := out' + [tag];
      }
    }
    assert pieces[..|pieces|] == pieces;
  }

  ghost predicate Same(seen: set<string>, out: seq<string>) {
    forall t :: t in seen <==> t in out
  }

  lemma DistinctSnoc(all: seq<string>, t: string)
    ensures Distinct(all + [t]) == if t in Distinct(all) then Distinct(all) else Distinct(all) + [t]
  {
    assert (all + [t])[..|all|] == all;
  }

  lemma AllTagsSnoc(blobs: seq<Blob>, i: nat)
    requires i < |blobs|
    ensures AllTags(blobs[..i + 1]) ==
            if blobs[i].Null? then AllTags(blobs[..i]) else AllTags(blobs[..i]) + TagsOf(blobs[i].value)
  {
    assert blobs[..i + 1][..i] == blobs[..i];
  }

  // ---------------------------------------------------------------- what the pickers return

  predicate CleanTag(t: string) {
    t != "" && Trimmed(t) && ',' !in t
  }

  /** Every extracted tag is trimmed, non-empty and comma-free. */
  lemma {:induction false} PiecesAreClean(pieces: seq<string>)
    requires forall p | p in pieces :: ',' !in p
    ensures forall t | t in CleanPieces(pieces) :: CleanTag(t)
  {
    if pieces != [] {
      PiecesAreClean(pieces[..|pieces| - 1]);
      TrimSpaceSpec(pieces[|pieces| - 1]);
    }
  }

  lemma {:induction false} CleanPiecesStay(pieces: seq<string>)
    requires forall p | p in pieces :: CleanTag(p)
    ensures CleanPieces(pieces) == pieces
  {
    if pieces != [] {
      var front, last := pieces[..|pieces| - 1], pieces[|pieces| - 1];
      CleanPiecesStay(front);
      assert CleanTag(last);
      TrimSpaceSpec(last);
      assert pieces == front + [last];
    }
  }

  /** Theorem: reading back a joined tag column gives the original list exactly when every tag
      was trimmed, non-empty and comma-free. */
  lemma JoinedTagsReadBack(tags: seq<string>)
    ensures TagsOf(Join(tags, ',')) == tags <==> forall t | t in tags :: CleanTag(t)
  {
    JoinSplit(Join(tags, ','), ',');
    PiecesAreClean(Split(Join(tags, ','), ','));
    if forall t | t in tags :: CleanTag(t) {
      if tags == [] {
        assert Split("", ',') == [""] && CleanPieces([""]) == [];
      } else {
        SplitJoin(tags, ',');
        CleanPiecesStay(tags);
      }
    }
  }

  /** Theorem: the picker lists exactly the tags there are, each once, ordered by first occurrence. */
  lemma {:induction false} DistinctSpec(tags: seq<string>)
    ensures forall t :: t in Distinct(tags) <==> t in tags
    ensures forall i, j | 0 <= i < j < |Distinct(tags)| :: Distinct(tags)[i] != Distinct(tags)[j]
    ensures forall i, j | 0 <= i < j < |Distinct(tags)| ::
              exists k :: 0 <= k < |tags| && tags[k] == Distinct(tags)[i] && Distinct(tags)[j] !in tags[..k + 1]
  {
    if tags != [] {
      var front, t := tags[..|tags| - 1], tags[|tags| - 1];
      DistinctSpec(front);
      assert tags == front + [t] && forall x :: x in tags <==> x in front || x == t;
      var d, d' := Distinct(front), Distinct(tags);
      forall i, j | 0 <= i < j < |d'|
        ensures exists k :: 0 <= k < |tags| && tags[k] == d'[i] && d'[j] !in tags[..k + 1]
      {
        assert d'[i] == d[i] && d[i] in d;
        if j < |d| {
          var k :| 0 <= k < |front| && front[k] == d[i] && d[j] !in front[..k + 1];
          assert tags[..k + 1] == front[..k + 1] && tags[k] == front[k];
        } else {
          assert d[i] in front && d'[j] == t && t !in front;
          var k :| 0 <= k < |front| && front[k] == d[i];
          assert tags[..k + 1] == front[..k + 1] && tags[k] == front[k];
        }
      }
    }
  }

  // ---------------------------------------------------------------- every tag is found

  lemma {:induction false} CleanPiecesConcat(a: seq<string>, b: seq<string>)
    ensures CleanPieces(a + b) == CleanPieces(a) + CleanPieces(b)
  {
    if b == [] {
      assert a + b == a;
    } else {
      assert (a + b)[..|a + b| - 1] == a + b[..|b| - 1];
      CleanPiecesConcat(a, b[..|b| - 1]);
    }
  }

  lemma {:induction false} PaddedPieces(pieces: seq<string>, tags: seq<string>)
    requires |pieces| == |tags| && forall i | 0 <= i < |tags| :: Padded(pieces[i], tags[i]) && Trimmed(tags[i])
    ensures CleanPieces(pieces) == NonEmpty(tags)
  {
    if pieces != [] {
      var n := |pieces| - 1;
      PaddedPieces(pieces[..n], tags[..n]);
      var pre, post :| pieces[n] == pre + tags[n] + post && AllSpace(pre) && AllSpace(post);
      TrimPadded(pre, tags[n], post);
    }
  }

  function NonEmpty(tags: seq<string>): seq<string> {
    if tags == [] then [] else
      var before := NonEmpty(tags[..|tags| - 1]);
      if tags[|tags| - 1] == "" then before else before + [tags[|tags| - 1]]
  }

  /** Theorem: a column of comma-separated pieces, each a tag or nothing with any white space around it, gives
      exactly those tags, in order. */
  lemma PaddedTagsReadBack(pieces: seq<string>, tags: seq<string>)
    requires pieces != [] && |pieces| == |tags| && forall p | p in pieces :: ',' !in p
    requires forall i | 0 <= i < |tags| :: Padded(pieces[i], tags[i]) && Trimmed(tags[i])
    ensures TagsOf(Join(pieces, ',')) == NonEmpty(tags)
  {
    SplitJoin(pieces, ',');
    PaddedPieces(pieces, tags);
  }

  lemma {:induction false} NonEmptyAll(tags: seq<string>)
    requires "" !in tags
    ensures NonEmpty(tags) == tags
  {
    if tags != [] {
      var front := tags[..|tags| - 1];
      assert tags == front + [tags[|tags| - 1]];
      NonEmptyAll(front);
    }
  }

  /** Theorem: the tags of several columns are those of the first ones followed by those of the others. */
  lemma {:induction false} AllTagsConcat(a: seq<Blob>, b: seq<Blob>)
    ensures AllTags(a + b) == AllTags(a) + AllTags(b)
  {
    if b == [] {
      assert a + b == a;
    } else {
      var front, last := b[..|b| - 1], b[|b| - 1];
      AllTagsConcat(a, front);
      assert (a + b)[..|a + b| - 1] == a + front && (a + b)[|a + b| - 1] == last;
      hide TagsOf;
      if last.Text? {
        Regroup(AllTags(a), AllTags(front), TagsOf(last.value));
      }
    }
  }

  lemma Regroup(a: seq<string>, b: seq<string>, c: seq<string>)
    ensures (a + b) + c == a + (b + c)
  {
  }

  /** Theorem: likewise for the parts of one column on either side of a comma. */
  lemma TagsOfParts(s: string, rest: string)
    ensures TagsOf(s + [','] + rest) == TagsOf(s) + TagsOf(rest)
  {
    SplitConcat(s, rest, ',');
    CleanPiecesConcat(Split(s, ','), Split(rest, ','));
  }

  /** Theorem: a picker lists a tag exactly if some column that is not NULL has it. */
  lemma {:induction false} PickedTags(blobs: seq<Blob>)
    ensures forall t :: t in Distinct(AllTags(blobs)) <==> exists b :: b in blobs && b.Text? && t in TagsOf(b.value)
  {
    DistinctSpec(AllTags(blobs));
    if blobs != [] {
      var front, last := blobs[..|blobs| - 1], blobs[|blobs| - 1];
      PickedTags(front);
      DistinctSpec(AllTags(front));
      assert blobs == front + [last] && forall b :: b in blobs <==> b in front || b == last;
    }
  }
}
