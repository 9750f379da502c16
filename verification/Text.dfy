/** Strings as the services handle them: splitting, joining and trimming. A string is a sequence
    of code points; byte limits go through `ByteLen`.
 */
module Text {

  /** strings.Split for a one-character separator: always at least one piece. */
  function Split(s: string, sep: char): (pieces: seq<string>)
    ensures pieces != []
  {
    if s == "" then [""]
    else if s[0] == sep then [""] + Split(s[1..], sep)
    else var rest := Split(s[1..], sep); [[s[0]] + rest[0]] + rest[1..]
  }

  /** strings.Join for a one-character separator. */
  function Join(pieces: seq<string>, sep: char): string {
    if pieces == [] then "" else
      pieces[0] + if |pieces| == 1 then "" else [sep] + Join(pieces[1..], sep)
  }

  /** The white space of unicode.IsSpace. */
  predicate IsSpace(c: char) {
    || '\t' <= c <= '\r' || c == ' ' || c == '\U{85}' || c == '\U{A0}' || c == '\U{1680}'
    || '\U{2000}' <= c <= '\U{200A}' || c == '\U{2028}' || c == '\U{2029}' || c == '\U{202F}'
    || c == '\U{205F}' || c == '\U{3000}'
  }

  function TrimLeft(s: string): string {
    if s != "" && IsSpace(s[0]) then TrimLeft(s[1..]) else s
  }

  function TrimRight(s: string): string {
    if s != "" && IsSpace(s[|s| - 1]) then TrimRight(s[..|s| - 1]) else s
  }

  function TrimSpace(s: string): string {
    TrimRight(TrimLeft(s))
  }

  /** Neither end is white space. */
  predicate Trimmed(s: string) {
    s == "" || (!IsSpace(s[0]) && !IsSpace(s[|s| - 1]))
  }

  function Utf8Len(c: char): nat {
    if c < '\U{80}' then 1 else if c < '\U{800}' then 2 else if c < '\U{10000}' then 3 else 4
  }

  function ByteLen(s: string): nat {
    if s == "" then 0 else Utf8Len(s[0]) + ByteLen(s[1..])
  }

  /** The UTF-8 encoding of one code point (section 3 of RFC 3629). */
  function Utf8(c: char): seq<nat> {
    var n := c as int;
    if n < 0x80 then [n]
    else if n < 0x800 then [0xC0 + n / 64, 0x80 + n % 64]
    else if n < 0x10000 then [0xE0 + n / 4096, 0x80 + n / 64 % 64, 0x80 + n % 64]
    else [0xF0 + n / 262144, 0x80 + n / 4096 % 64, 0x80 + n / 64 % 64, 0x80 + n % 64]
  }

  function Encoded(s: string): seq<nat> {
    if s == "" then [] else Utf8(s[0]) + Encoded(s[1..])
  }

  /** A byte length is the length of the encoding. */
  lemma {:induction false} ByteLenIsEncoded(s: string)
    ensures ByteLen(s) == |Encoded(s)|
  {
    if s != "" {
      ByteLenIsEncoded(s[1..]);
    }
  }

  lemma {:induction false} ByteLenConcat(s: string, t: string)
    ensures ByteLen(s + t) == ByteLen(s) + ByteLen(t)
  {
    if s == "" {
      assert s + t == t;
    } else {
      assert (s + t)[1..] == s[1..] + t;
      ByteLenConcat(s[1..], t);
    }
  }

  // ---------------------------------------------------------------- splitting undoes joining

  /** The first piece ends at the first separator. */
  lemma {:induction false} SplitAtSeparator(p: string, rest: string, sep: char)
    requires sep !in p
    ensures Split(p + [sep] + rest, sep) == [p] + Split(rest, sep)
  {
    var s := p + [sep] + rest;
    if p == "" {
      assert s[1..] == rest;
    } else {
      assert s[1..] == p[1..] + [sep] + rest;
      SplitAtSeparator(p[1..], rest, sep);
      assert [s[0]] + p[1..] == p;
    }
  }

  lemma {:induction false} SplitWithoutSeparator(p: string, sep: char)
    requires sep !in p
    ensures Split(p, sep) == [p]
  {
    if p != "" {
      SplitWithoutSeparator(p[1..], sep);
      assert [p[0]] + p[1..] == p;
    }
  }

  lemma {:induction false} SplitJoin(pieces: seq<string>, sep: char)
    requires pieces != [] && forall p | p in pieces :: sep !in p
    ensures Split(Join(pieces, sep), sep) == pieces
  {
    var p := pieces[0];
    if |pieces| == 1 {
      assert Join(pieces, sep) == p;
      SplitWithoutSeparator(p, sep);
    } else {
      SplitJoin(pieces[1..], sep);
      assert Join(pieces, sep) == p + [sep] + Join(pieces[1..], sep);
      SplitAtSeparator(p, Join(pieces[1..], sep), sep);
    }
  }

  lemma {:induction false} PiecesHaveNoSeparator(s: string, sep: char)
    ensures forall p | p in Split(s, sep) :: sep !in p
  {
    if s != "" {
      PiecesHaveNoSeparator(s[1..], sep);
      var rest := Split(s[1..], sep);
      if s[0] != sep {
        assert rest[0] in rest;
        assert forall p | p in rest[1..] :: p in rest;
      }
    }
  }

  /** A first character in front of the first piece, or an empty piece in front, joins as it should. */
  lemma JoinCons(c: char, rest: seq<string>, sep: char)
    requires rest != []
    ensures Join([[c] + rest[0]] + rest[1..], sep) == [c] + Join(rest, sep)
    ensures Join([""] + rest, sep) == [sep] + Join(rest, sep)
  {
    assert ([[c] + rest[0]] + rest[1..])[1..] == rest[1..] && ([""] + rest)[1..] == rest;
  }

  lemma {:induction false} JoinSplit(s: string, sep: char)
    ensures Join(Split(s, sep), sep) == s
    ensures forall p | p in Split(s, sep) :: sep !in p
  {
    PiecesHaveNoSeparator(s, sep);
    if s != "" {
      hide Join;
      JoinSplit(s[1..], sep);
      JoinCons(s[0], Split(s[1..], sep), sep);
      assert [s[0]] + s[1..] == s;
    }
  }

  // ---------------------------------------------------------------- trimming

  predicate AllSpace(s: string) {
    forall c | c in s :: IsSpace(c)
  }

  lemma {:induction false} TrimLeftShape(s: string)
    ensures |TrimLeft(s)| <= |s| && TrimLeft(s) == s[|s| - |TrimLeft(s)|..]
    ensures forall k | 0 <= k < |s| - |TrimLeft(s)| :: IsSpace(s[k])
    ensures TrimLeft(s) == "" || !IsSpace(TrimLeft(s)[0])
  {
    if s != "" && IsSpace(s[0]) {
      TrimLeftShape(s[1..]);
      assert forall k | 0 < k < |s| :: s[k] == s[1..][k - 1];
    }
  }

  lemma {:induction false} TrimRightShape(s: string)
    ensures TrimRight(s) <= s
    ensures forall k | |TrimRight(s)| <= k < |s| :: IsSpace(s[k])
    ensures TrimRight(s) == "" || !IsSpace(TrimRight(s)[|TrimRight(s)| - 1])
  {
    if s != "" && IsSpace(s[|s| - 1]) {
      TrimRightShape(s[..|s| - 1]);
    }
  }

  /** `s` is `t` with white space around it. */
  ghost predicate Padded(s: string, t: string) {
    exists pre, post :: s == pre + t + post && AllSpace(pre) && AllSpace(post)
  }

  lemma MakePadded(pre: string, t: string, post: string)
    requires AllSpace(pre) && AllSpace(post)
    ensures Padded(pre + t + post, t)
  {
  }

  /** The result is a trimmed substring with nothing but white space on either side, and trimmed strings are exactly
      those it leaves alone. */
  lemma TrimSpaceSpec(s: string)
    ensures Trimmed(TrimSpace(s)) && Padded(s, TrimSpace(s))
    ensures TrimSpace(s) == s <==> Trimmed(s)
    ensures forall c | c in TrimSpace(s) :: c in s
  {
    hide Padded;
    TrimSpaceParts(s);
    TrimLeftShape(s);
    TrimRightShape(TrimLeft(s));
    var left, t := TrimLeft(s), TrimSpace(s);
    assert t != "" ==> t[0] == left[0];
    forall c | c in t ensures c in s {
      var k :| 0 <= k < |t| && t[k] == c;
      assert left[k] == c && s[|s| - |left| + k] == c;
    }
    if Trimmed(s) {
      assert left == s && t == s;
    }
  }

  lemma TrimSpaceParts(s: string)
    ensures Padded(s, TrimSpace(s))
  {
    hide TrimLeft, TrimRight, IsSpace, Padded;
    TrimLeftShape(s);
    TrimRightShape(TrimLeft(s));
    var left, t := TrimLeft(s), TrimSpace(s);
    var pre, post := s[..|s| - |left|], left[|t|..];
    SliceAllSpace(s, 0, |s| - |left|);
    SliceAllSpace(left, |t|, |left|);
    assert s[0..|s| - |left|] == pre && left[|t|..|left|] == post;
    assert s == pre + left && left == t + post;
    MakePadded(pre, t, post);
    assert s == pre + t + post;
  }

  lemma SliceAllSpace(s: string, i: nat, j: nat)
    requires i <= j <= |s| && forall k | i <= k < j :: IsSpace(s[k])
    ensures AllSpace(s[i..j])
  {
    hide IsSpace;
    forall c | c in s[i..j] ensures IsSpace(c) {
      var k :| 0 <= k < j - i && s[i..j][k] == c;
      assert s[i + k] == c;
    }
  }

  /** White space around a trimmed text goes. */
  lemma {:induction false} TrimPadded(pre: string, t: string, post: string)
    requires AllSpace(pre) && AllSpace(post) && Trimmed(t)
    ensures TrimSpace(pre + t + post) == t
  {
    if pre != "" {
      var rest := pre[1..] + t + post;
      assert pre + t + post == [pre[0]] + rest && forall c | c in pre[1..] :: c in pre;
      TrimPadded(pre[1..], t, post);
      TrimSpaceIgnores(rest, pre[0]);
    } else if post != "" {
      var rest := pre + t + post[..|post| - 1];
      assert pre + t + post == rest + [post[|post| - 1]] && forall c | c in post[..|post| - 1] :: c in post;
      TrimPadded(pre, t, post[..|post| - 1]);
      TrimSpaceIgnores(rest, post[|post| - 1]);
    } else {
      assert pre + t + post == t;
      TrimSpaceSpec(t);
    }
  }

  lemma {:induction false} TrimLeftSnoc(s: string, c: char)
    ensures TrimLeft(s + [c]) == if TrimLeft(s) == "" then TrimLeft([c]) else TrimLeft(s) + [c]
  {
    if s == "" {
      assert s + [c] == [c];
    } else if IsSpace(s[0]) {
      assert (s + [c])[1..] == s[1..] + [c];
      TrimLeftSnoc(s[1..], c);
    }
  }

  /** White space at either end makes no difference. */
  lemma TrimSpaceIgnores(s: string, c: char)
    requires IsSpace(c)
    ensures TrimSpace(s + [c]) == TrimSpace(s) == TrimSpace([c] + s)
  {
    TrimLeftSnoc(s, c);
    assert [c][1..] == "" && ([c] + s)[1..] == s;
    assert (TrimLeft(s) + [c])[..|TrimLeft(s)|] == TrimLeft(s);
  }

  // ---------------------------------------------------------------- splitting in the middle

  /** A separator in the middle of a text splits it into the pieces of either side. */
  lemma {:induction false} SplitConcat(s: string, rest: string, sep: char)
    ensures Split(s + [sep] + rest, sep) == Split(s, sep) + Split(rest, sep)
  {
    var all := s + [sep] + rest;
    if s == "" {
      assert all[1..] == rest;
    } else {
      assert all[1..] == s[1..] + [sep] + rest;
      SplitConcat(s[1..], rest, sep);
      assert all[0] == s[0];
      FirstPiece(s[0], Split(s[1..], sep), Split(rest, sep));
      assert [""] + (Split(s[1..], sep) + Split(rest, sep)) == [""] + Split(s[1..], sep) + Split(rest, sep);
    }
  }

  lemma FirstPiece(c: char, a: seq<string>, b: seq<string>)
    requires a != []
    ensures [[c] + (a + b)[0]] + (a + b)[1..] == [[c] + a[0]] + a[1..] + b
  {
  }
}
