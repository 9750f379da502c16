/** Object keys and the paths they resolve to: the lexical normalisation of the local backend, the
    keys that uploads are given, and the temporary names next to them.
 */
module Storage {
  import opened Options
  import opened Text

  // ---------------------------------------------------------------- resolve

  /** filepath.Clean on a rooted path, as a list of segments: `..` at the root goes nowhere. */
  function Normal(segs: seq<string>): seq<string> {
    if segs == [] then [] else
      var before, seg := Normal(segs[..|segs| - 1]), segs[|segs| - 1];
      if seg == "" || seg == "." then before
      else if seg == ".." then if before == [] then [] else before[..|before| - 1]
      else before + [seg]
  }

  function CleanKey(key: string): string {
    Join(Normal(Split("/" + key, '/')), '/')
  }

  predicate HasDotDot(s: string) {
    exists i :: 0 <= i < |s| - 1 && s[i] == '.' && s[i + 1] == '.'
  }

  /** filepath.Join of the clean absolute root and a clean relative path. */
  function Under(root: string, rel: string): string {
    if root == "/" then "/" + rel else root + "/" + rel
  }

  function Resolve(root: string, key: string): Option<string> {
    var clean := CleanKey(key);
    if clean == "" || HasDotDot(clean) then None else Some(Under(root, clean))
  }

  /** Two dots in a row. */
  predicate Dotted(s: string) {
    exists i :: 0 < i < |s| && s[i - 1] == s[i] == '.'
  }

  /** A path segment that means itself and climbs nowhere. */
  predicate Plain(seg: string) {
    seg != "" && seg != "." && '/' !in seg && !Dotted(seg)
  }

  /** What every path below the root starts with. */
  predicate Below(root: string, path: string, rel: string) {
    if root == "/" then path == "/" + rel else path == root + "/" + rel
  }

  lemma DotDotIsDotted(s: string)
    ensures HasDotDot(s) <==> Dotted(s)
  {
    if HasDotDot(s) {
      var i :| 0 <= i < |s| - 1 && s[i] == '.' && s[i + 1] == '.';
      assert s[(i + 1) - 1] == s[i + 1] == '.';
    }
    if i :| 0 < i < |s| && s[i - 1] == s[i] == '.' {
      assert s[i - 1] == '.' && s[(i - 1) + 1] == '.';
    }
  }

  predicate Sound(segs: seq<string>) {
    forall seg | seg in segs :: seg != "" && seg != "." && seg != ".." && '/' !in seg
  }

  lemma {:induction false} NormalIsSound(segs: seq<string>)
    requires forall seg | seg in segs :: '/' !in seg
    ensures Sound(Normal(segs))
  {
    if segs != [] {
      NormalIsSound(segs[..|segs| - 1]);
    }
  }

  lemma {:induction false} SoundIsNormal(segs: seq<string>)
    requires Sound(segs)
    ensures Normal(segs) == segs
  {
    if segs != [] {
      var front := segs[..|segs| - 1];
      assert segs[|segs| - 1] in segs;
      forall seg | seg in front ensures seg in segs {
        var i :| 0 <= i < |front| && front[i] == seg;
        assert segs[i] == seg;
      }
      SoundIsNormal(front);
      assert segs == front + [segs[|segs| - 1]];
    }
  }

  /** A leading empty segment, from the root slash, changes nothing. */
  lemma {:induction false} NormalSkipsRoot(segs: seq<string>)
    ensures Normal([""] + segs) == Normal(segs)
  {
    if segs == [] {
      assert [""] + segs == [""];
      assert Normal([""]) == Normal([""][..0]);
    } else {
      assert ([""] + segs)[..|segs|] == [""] + segs[..|segs| - 1];
      NormalSkipsRoot(segs[..|segs| - 1]);
    }
  }

  lemma HasDotDotConcat(a: string, b: string)
    requires b == "" || b[0] == '/'
    ensures HasDotDot(a + b) <==> HasDotDot(a) || HasDotDot(b)
  {
    var s := a + b;
    if HasDotDot(a) {
      var i :| 0 <= i < |a| - 1 && a[i] == '.' && a[i + 1] == '.';
      assert s[i] == '.' && s[i + 1] == '.';
    }
    if HasDotDot(b) {
      var i :| 0 <= i < |b| - 1 && b[i] == '.' && b[i + 1] == '.';
      assert s[|a| + i] == '.' && s[|a| + i + 1] == '.';
    }
    if HasDotDot(s) {
      var i :| 0 <= i < |s| - 1 && s[i] == '.' && s[i + 1] == '.';
      if i < |a| - 1 {
        assert a[i] == '.' && a[i + 1] == '.';
      } else {
        assert i >= |a| && b[i - |a|] == '.' && b[i - |a| + 1] == '.';
      }
    }
  }

  lemma {:induction false} JoinDotDot(segs: seq<string>)
    ensures HasDotDot(Join(segs, '/')) <==> exists seg :: seg in segs && HasDotDot(seg)
  {
    if segs != [] {
      var tail := if |segs| == 1 then "" else ['/'] + Join(segs[1..], '/');
      HasDotDotConcat(segs[0], tail);
      JoinDotDot(segs[1..]);
      if |segs| > 1 {
        SlashDotDot(Join(segs[1..], '/'));
      }
      assert segs == [segs[0]] + segs[1..];
    }
  }

  lemma SlashDotDot(s: string)
    ensures HasDotDot(['/'] + s) <==> HasDotDot(s)
  {
    var t := ['/'] + s;
    if HasDotDot(t) {
      var i :| 0 <= i < |t| - 1 && t[i] == '.' && t[i + 1] == '.';
      assert s[i - 1] == '.' && s[i] == '.';
    }
    if HasDotDot(s) {
      var i :| 0 <= i < |s| - 1 && s[i] == '.' && s[i + 1] == '.';
      assert t[i + 1] == '.' && t[i + 2] == '.';
    }
  }

  /** A key made of sound segments is its own normal form. */
  lemma SoundKey(segs: seq<string>)
    requires segs != [] && Sound(segs)
    ensures CleanKey(Join(segs, '/')) == Join(segs, '/') != ""
  {
    var key := Join(segs, '/');
    SplitAtSeparator("", key, '/');
    assert "" + ['/'] + key == "/" + key;
    SplitJoin(segs, '/');
    NormalSkipsRoot(segs);
    SoundIsNormal(segs);
    assert segs[0] in segs;
  }

  /** Theorem: resolving fails exactly when nothing is left of the key or a segment has two dots in
      a row; otherwise the path is the root, a slash, and a non-empty list of plain segments joined by slashes, and
      resolving that relative path again gives the same file. */
  lemma KeyNormalForm(root: string, key: string)
    ensures var segs := Normal(Split("/" + key, '/'));
            && (Resolve(root, key).None? <==> segs == [] || exists seg :: seg in segs && Dotted(seg))
            && (Resolve(root, key).Some? ==>
                  && segs != [] && (forall seg | seg in segs :: Plain(seg))
                  && Below(root, Resolve(root, key).value, Join(segs, '/'))
                  && Resolve(root, Join(segs, '/')) == Resolve(root, key))
  {
    var segs := Normal(Split("/" + key, '/'));
    JoinSplit("/" + key, '/');
    NormalIsSound(Split("/" + key, '/'));
    JoinDotDot(segs);
    forall seg | seg in segs ensures HasDotDot(seg) <==> Dotted(seg) {
      DotDotIsDotted(seg);
    }
    if segs != [] {
      SoundKey(segs);
    }
  }

  // ---------------------------------------------------------------- what normalising removes

  lemma {:induction false} NormalConcat(a: seq<string>, b: seq<string>)
    ensures Normal(a + b) == Normal(Normal(a) + b)
  {
    if b == [] {
      assert a + b == a && Normal(a) + b == Normal(a);
      NormalTwice(a);
    } else {
      var front, last := b[..|b| - 1], b[|b| - 1];
      NormalConcat(a, front);
      assert (a + b)[..|a + b| - 1] == a + front && (a + b)[|a + b| - 1] == last;
      var all := Normal(a) + b;
      assert all[..|all| - 1] == Normal(a) + front && all[|all| - 1] == last;
    }
  }

  lemma {:induction false} NormalTwice(segs: seq<string>)
    ensures Normal(Normal(segs)) == Normal(segs)
  {
    if segs != [] {
      var before, seg := Normal(segs[..|segs| - 1]), segs[|segs| - 1];
      NormalTwice(segs[..|segs| - 1]);
      if seg == ".." && before != [] {
        NormalPrefix(before);
      } else if seg != "" && seg != "." && seg != ".." {
        assert (before + [seg])[..|before|] == before;
      }
    }
  }

  /** Without its last segment a normal list is normal. */
  lemma NormalPrefix(segs: seq<string>)
    requires segs != [] && Normal(segs) == segs
    ensures Normal(segs[..|segs| - 1]) == segs[..|segs| - 1]
  {
    NormalLength(segs[..|segs| - 1]);
  }

  lemma {:induction false} NormalLength(segs: seq<string>)
    ensures |Normal(segs)| <= |segs|
  {
    if segs != [] {
      NormalLength(segs[..|segs| - 1]);
    }
  }

  /** Theorem: anywhere in a path, an empty segment and "." mean nothing, ".." takes back the segment before it, and
      at the root it means nothing; a list of other segments is left alone. These laws determine the normal form. */
  lemma ClimbLaws(a: seq<string>, x: string, b: seq<string>)
    ensures Normal(a + [""] + b) == Normal(a + ["."] + b) == Normal(a + b)
    ensures x !in {"", ".", ".."} ==> Normal(a + [x, ".."] + b) == Normal(a + b)
    ensures Normal([".."] + b) == Normal(b)
    ensures (forall seg | seg in b :: seg !in {"", ".", ".."} && '/' !in seg) ==> Normal(b) == b
  {
    OneMore(a, "");
    OneMore(a, ".");
    SameFront(a + [""], a, b);
    SameFront(a + ["."], a, b);
    OneMore([], "..");
    SameFront([] + [".."], [], b);
    assert [] + [".."] + b == [".."] + b && [] + b == b;
    if x !in {"", ".", ".."} {
      OneMore(a, x);
      OneMore(a + [x], "..");
      assert a + [x] + [".."] == a + [x, ".."];
      assert (Normal(a) + [x])[..|Normal(a)|] == Normal(a);
      SameFront(a + [x, ".."], a, b);
    }
    if forall seg | seg in b :: seg !in {"", ".", ".."} && '/' !in seg {
      SoundIsNormal(b);
    }
  }

  lemma OneMore(a: seq<string>, seg: string)
    ensures Normal(a + [seg]) ==
            if seg == "" || seg == "." then Normal(a)
            else if seg == ".." then if Normal(a) == [] then [] else Normal(a)[..|Normal(a)| - 1]
            else Normal(a) + [seg]
  {
    assert (a + [seg])[..|a|] == a;
  }

  lemma SameFront(a: seq<string>, a': seq<string>, b: seq<string>)
    requires Normal(a) == Normal(a')
    ensures Normal(a + b) == Normal(a' + b)
  {
    NormalConcat(a, b);
    NormalConcat(a', b);
  }

  /** Theorem: in a key, a segment and the ".." after it mean nothing. */
  lemma ResolveClimbs(root: string, a: string, x: string, b: string)
    requires x !in {"", ".", ".."} && '/' !in x
    ensures Resolve(root, a + "/" + x + "/../" + b) == Resolve(root, a + "/" + b)
  {
    hide Split, Normal, Join, HasDotDot, Under;
    var left, up := Split("/" + a, '/'), Split(b, '/');
    PlainParts(a, b);
    ClimbParts(a, x, b);
    ClimbLaws(left, x, up);
  }

  lemma PlainParts(a: string, b: string)
    ensures Split("/" + (a + "/" + b), '/') == Split("/" + a, '/') + Split(b, '/')
  {
    hide Split;
    SplitConcat("/" + a, b, '/');
    assert "/" + a + ['/'] + b == "/" + (a + "/" + b);
  }

  lemma ClimbParts(a: string, x: string, b: string)
    requires '/' !in x
    ensures Split("/" + (a + "/" + x + "/../" + b), '/') == Split("/" + a, '/') + [x, ".."] + Split(b, '/')
  {
    hide Split;
    var rest := ".." + ['/'] + b;
    SplitAtSeparator("..", b, '/');
    SplitAtSeparator(x, rest, '/');
    SplitConcat("/" + a, x + ['/'] + rest, '/');
    assert "/" + a + ['/'] + (x + ['/'] + rest) == "/" + (a + "/" + x + "/../" + b);
    var left, up := Split("/" + a, '/'), Split(b, '/');
    assert left + ([x] + ([".."] + up)) == left + [x, ".."] + up;
  }

  // ---------------------------------------------------------------- upload keys

  /** A generated id: 26 characters, none of them a dot or a slash. */
  predicate ValidId(id: string) {
    |id| == 26 && '.' !in id && '/' !in id
  }

  /** filepath.Ext: from the last dot of the last path element, or nothing. */
  function FileExt(name: string): (ext: string)
    ensures |ext| <= |name| && ext == name[|name| - |ext|..]
    ensures ext != "" ==> ext[0] == '.'
    ensures '/' !in ext && forall i | 0 < i < |ext| :: ext[i] != '.'
  {
    ExtFrom(name, |name|)
  }

  function ExtFrom(name: string, i: nat): (ext: string)
    requires i <= |name| && forall k | i <= k < |name| :: name[k] != '.' && name[k] != '/'
    ensures |ext| <= |name| && ext == name[|name| - |ext|..]
    ensures ext != "" ==> ext[0] == '.'
    ensures '/' !in ext && forall k | 0 < k < |ext| :: ext[k] != '.'
  {
    if i == 0 || name[i - 1] == '/' then ""
    else if name[i - 1] == '.' then name[i - 1..]
    else ExtFrom(name, i - 1)
  }

  function LowerChar(c: char): char {
    if 'A' <= c <= 'Z' then (c as int + 32) as char else c
  }

  function ToLower(s: string): (r: string)
    ensures |r| == |s|
    ensures forall i | 0 <= i < |s| ::
              if 'A' <= s[i] <= 'Z' then 'a' <= r[i] <= 'z' && r[i] as int - 'a' as int == s[i] as int - 'A' as int
              else r[i] == s[i]
  {
    seq(|s|, i requires 0 <= i < |s| => LowerChar(s[i]))
  }

  /** `ext` is the name from its last dot on, in its last path element. */
  predicate IsExtensionOf(name: string, ext: string) {
    && 0 < |ext| <= |name| && name[|name| - |ext|..] == ext
    && ext[0] == '.' && '/' !in ext && forall i | 0 < i < |ext| :: ext[i] != '.'
  }

  lemma {:induction false} ExtFromFinds(name: string, i: nat, dot: nat)
    requires dot < i <= |name| && name[dot] == '.' && forall k | dot < k < |name| :: name[k] != '/'
    requires forall k | i <= k < |name| :: name[k] != '.' && name[k] != '/'
    ensures ExtFrom(name, i) != ""
  {
    if name[i - 1] != '.' {
      ExtFromFinds(name, i - 1, dot);
    }
  }

  /** Theorem: a name has an extension exactly if some dot has no slash after it, and then it is the part from the
      last such dot on. */
  lemma ExtensionFound(name: string, ext: string)
    ensures IsExtensionOf(name, ext) <==> ext != "" && FileExt(name) == ext
    ensures (exists d :: 0 <= d < |name| && name[d] == '.' && forall k | d < k < |name| :: name[k] != '/')
            <==> FileExt(name) != ""
  {
    var found := FileExt(name);
    if d :| 0 <= d < |name| && name[d] == '.' && forall k | d < k < |name| :: name[k] != '/' {
      ExtFromFinds(name, |name|, d);
    }
    if found != "" {
      LastDot(name, found);
    }
    if IsExtensionOf(name, ext) {
      LastDot(name, ext);
      ExtFromFinds(name, |name|, |name| - |ext|);
      SameExtension(name, found, ext);
    }
  }

  lemma LastDot(name: string, ext: string)
    requires IsExtensionOf(name, ext)
    ensures var d := |name| - |ext|; name[d] == '.' && forall k | d < k < |name| :: name[k] != '/'
  {
    var d := |name| - |ext|;
    forall k | d <= k < |name| ensures name[k] == ext[k - d] {
      assert name[d..][k - d] == name[k];
    }
  }

  lemma SameExtension(name: string, a: string, b: string)
    requires IsExtensionOf(name, a) && IsExtensionOf(name, b)
    ensures a == b
  {
    assert forall k | 0 <= k < |a| :: a[k] == name[|name| - |a| + k];
    assert forall k | 0 <= k < |b| :: b[k] == name[|name| - |b| + k];
    assert |a| == |b|;
  }

  const DANGEROUS_EXTENSIONS: set<string> := {
    ".exe", ".bat", ".cmd", ".com", ".msi", ".sh", ".bash", ".zsh", ".ps1", ".psm1", ".php", ".phtml", ".php3",
    ".php4", ".php5", ".php7", ".asp", ".aspx", ".jsp", ".jspx", ".pl", ".cgi", ".scr", ".vbs", ".wsf", ".dll",
    ".so", ".dylib", ".jar", ".war", ".elf", ".app", ".html", ".htm", ".xhtml", ".svg", ".svgz", ".xml", ".xsl",
    ".xslt", ".swf", ".class"
  }

  /** The name has an extension that is denied in whatever case it is written. */
  ghost predicate Denied(name: string) {
    exists ext :: IsExtensionOf(name, ext) && ToLower(ext) in DANGEROUS_EXTENSIONS
  }

  /** What is kept of the extension: all of it in lower case, or nothing if there is none or it is longer than
      16 bytes. */
  ghost predicate KeptExtension(name: string, kept: string) {
    && (forall ext | IsExtensionOf(name, ext) :: kept == if ByteLen(ToLower(ext)) <= 16 then ToLower(ext) else "")
    && ((forall ext :: !IsExtensionOf(name, ext)) ==> kept == "")
  }

  /** Uploads with an empty name or a denied extension are refused before anything is stored. */
  predicate Uploadable(name: string) {
    name != "" && ToLower(FileExt(name)) !in DANGEROUS_EXTENSIONS
  }

  /** The extension kept in the stored name: lower-cased, and dropped when longer than 16 bytes. */
  function StoredExt(name: string): string {
    var ext := ToLower(FileExt(name));
    if ext != "" && ByteLen(ext) <= 16 then ext else ""
  }

  function UploadKey(id: string, name: string): string
    requires |id| >= 2
  {
    Join(["upload", id[..2], id + StoredExt(name)], '/')
  }

  function FinalPath(root: string, id: string, name: string): string
    requires |id| >= 2
  {
    Under(root, UploadKey(id, name))
  }

  /** os.CreateTemp next to the object: its name, the marker and a random suffix. */
  function TempPath(final: string, rnd: string): string {
    final + ".tmp." + rnd
  }

  /** Theorem: an upload is refused exactly for an empty name or a denied extension. */
  lemma UploadableExactly(name: string)
    ensures Uploadable(name) <==> name != "" && !Denied(name)
  {
    hide IsExtensionOf, FileExt, ToLower;
    var found := FileExt(name);
    ExtensionFound(name, found);
    LowerEmpty();
    forall ext | IsExtensionOf(name, ext) ensures ext == found {
      ExtensionFound(name, ext);
    }
  }

  lemma LowerEmpty()
    ensures ToLower("") == "" && "" !in DANGEROUS_EXTENSIONS
  {
  }

  lemma StoredExtIsKept(name: string)
    ensures KeptExtension(name, StoredExt(name))
  {
    var found := FileExt(name);
    ExtensionFound(name, found);
    forall ext | IsExtensionOf(name, ext) ensures ext == found {
      ExtensionFound(name, ext);
    }
  }

  /** The key of an upload and the path it is stored at. */
  ghost predicate StoredAt(root: string, id: string, name: string, key: string, path: string)
    requires |id| >= 2
  {
    && Below(root, path, key)
    && exists kept :: KeptExtension(name, kept) && key == "upload/" + id[..2] + "/" + id + kept
  }

  /** Theorem: where an upload is stored: below the root, in a directory named by the start of the id, under the id and
      what is kept of the extension. */
  lemma UploadPath(root: string, id: string, name: string)
    requires |id| >= 2
    ensures StoredAt(root, id, name, UploadKey(id, name), FinalPath(root, id, name))
  {
    hide StoredExt, KeptExtension, Under, Below, UploadKey;
    StoredExtIsKept(name);
    KeyText(id, StoredExt(name));
    assert UploadKey(id, name) == Join(["upload", id[..2], id + StoredExt(name)], '/') by {
      UploadKeyIs(id, name);
    }
    UnderIsBelow(root, UploadKey(id, name));
  }

  lemma UploadKeyIs(id: string, name: string)
    requires |id| >= 2
    ensures UploadKey(id, name) == Join(["upload", id[..2], id + StoredExt(name)], '/')
  {
  }

  lemma KeyText(id: string, ext: string)
    requires |id| >= 2
    ensures Join(["upload", id[..2], id + ext], '/') == "upload/" + id[..2] + "/" + id + ext
  {
    hide Join;
    var dir, file := id[..2], id + ext;
    JoinThree("upload", dir, file);
    assert "upload" + ['/'] == "upload/";
    assert "upload" + (['/'] + (dir + (['/'] + file))) == ("upload" + ['/']) + dir + "/" + id + ext;
  }

  lemma UnderIsBelow(root: string, rel: string)
    ensures Below(root, Under(root, rel), rel)
  {
  }

  lemma StoredExtShape(name: string)
    ensures var ext := StoredExt(name);
            (ext != "" ==> ext[0] == '.') && '/' !in ext && forall i | 0 < i < |ext| :: ext[i] != '.'
  {
    var ext, low := FileExt(name), ToLower(FileExt(name));
    forall i | 0 <= i < |ext| ensures (low[i] == '.' <==> ext[i] == '.') && (low[i] == '/' <==> ext[i] == '/') {
    }
  }

  lemma PlainStoredName(id: string, name: string)
    requires ValidId(id)
    ensures Plain(id[..2]) && Plain(id + StoredExt(name))
    ensures id + StoredExt(name) != ".." && id[..2] != ".."
  {
    StoredExtShape(name);
    assert id[0] in id && id[1] in id;
    var s := id + StoredExt(name);
    forall i | 0 <= i < |s| - 1 ensures s[i] != '.' || s[i + 1] != '.' {
      if i < 26 {
        assert id[i] in id;
      }
    }
    assert forall c | c in id[..2] :: c in id;
  }

  /** Theorem: the key of an upload always resolves, to itself below the root. */
  lemma UploadKeyResolves(root: string, id: string, name: string)
    requires ValidId(id)
    ensures Resolve(root, UploadKey(id, name)) == Some(FinalPath(root, id, name))
  {
    PlainStoredName(id, name);
    var segs := ["upload", id[..2], id + StoredExt(name)];
    SoundKey(segs);
    JoinDotDot(segs);
  }

  lemma JoinThree(a: string, b: string, c: string)
    ensures Join([a, b, c], '/') == a + (['/'] + (b + (['/'] + c)))
  {
    assert [a, b, c][1..] == [b, c] && [b, c][1..] == [c];
    assert Join([c], '/') == c + "" == c;
    assert Join([b, c], '/') == b + (['/'] + c);
  }

  lemma Slices(p: string, head: string, id: string, tail: string)
    requires p == head + id + tail
    ensures p[|head|..|head| + |id|] == id && p[|head| + |id|..] == tail
  {
  }

  /** Where the id sits in the path of an upload. */
  lemma FinalPathShape(root: string, id: string, name: string, tail: string)
    requires ValidId(id)
    ensures var p, n := FinalPath(root, id, name) + tail, |Under(root, "")| + 10;
            |p| >= n + 26 && p[n..n + 26] == id && p[n + 26..] == StoredExt(name) + tail
  {
    hide Join, StoredExt, Under;
    var mid := "upload" + (['/'] + (id[..2] + ['/']));
    var key := UploadKey(id, name);
    JoinThree("upload", id[..2], id + StoredExt(name));
    assert key == mid + id + StoredExt(name);
    UnderPrefix(root, key);
    var p := FinalPath(root, id, name) + tail;
    assert p == (Under(root, "") + mid) + id + (StoredExt(name) + tail);
    Slices(p, Under(root, "") + mid, id, StoredExt(name) + tail);
  }

  lemma UnderPrefix(root: string, rel: string)
    ensures Under(root, rel) == Under(root, "") + rel
  {
  }

  /** Theorem: uploads with different ids never meet, neither at their final paths nor at their
      temporary ones, and no temporary name is the final name of any upload. */
  lemma PathsAreDisjoint(root: string, id: string, name: string, rnd: string, id': string, name': string, rnd': string)
    requires ValidId(id) && ValidId(id')
    ensures FinalPath(root, id, name) == FinalPath(root, id', name') ==> id == id'
    ensures TempPath(FinalPath(root, id, name), rnd) == TempPath(FinalPath(root, id', name'), rnd') ==> id == id'
    ensures TempPath(FinalPath(root, id, name), rnd) != FinalPath(root, id', name')
  {
    hide Under, StoredExt, UploadKey, FinalPath;
    var p, p' := FinalPath(root, id, name), FinalPath(root, id', name');
    FinalPathShape(root, id, name, "");
    FinalPathShape(root, id', name', "");
    assert p + "" == p && p' + "" == p';
    FinalPathShape(root, id, name, ".tmp." + rnd);
    FinalPathShape(root, id', name', ".tmp." + rnd');
    assert TempPath(p, rnd) == p + (".tmp." + rnd) && TempPath(p', rnd') == p' + (".tmp." + rnd');
    StoredExtShape(name);
    StoredExtShape(name');
    TwoDots(StoredExt(name), rnd, StoredExt(name'));
  }

  lemma TwoDots(ext: string, rnd: string, ext': string)
    requires forall i | 0 < i < |ext'| :: ext'[i] != '.'
    ensures ext + (".tmp." + rnd) != ext' + ""
  {
    var marked := ext + (".tmp." + rnd);
    assert marked[|ext| + 4] == '.';
  }
}
