/** Object keys: splitting at slashes, joining, validation and byte order. */
module Keys {
  import opened Wrappers
  import opened Text

  const SLASH: char := '/'

  /** `strings.Split` at slashes. */
  function Split(s: string): (r: seq<string>)
    ensures r != []
    decreases |s|
  {
    match Cut(s, SLASH)
    case None => [s]
    case Some((before, after)) =>
      CutIs(s, SLASH);
      [before] + Split(after)
  }

  function Join(segments: seq<string>): string
    requires segments != []
  {
    if |segments| == 1 then segments[0] else segments[0] + [SLASH] + Join(segments[1..])
  }

  ghost predicate SlashFree(segments: seq<string>) {
    forall s | s in segments :: SLASH !in s
  }

  lemma {:induction false} JoinSplit(s: string)
    ensures Join(Split(s)) == s && SlashFree(Split(s))
    decreases |s|
  {
    CutIs(s, SLASH);
    match Cut(s, SLASH)
    case None =>
    case Some((before, after)) =>
      JoinSplit(after);
      assert Split(s)[1..] == Split(after);
  }

  lemma {:induction false} SplitJoin(segments: seq<string>)
    requires segments != [] && SlashFree(segments)
    ensures Split(Join(segments)) == segments
    decreases |segments|
  {
    var s := segments[0];
    assert s in segments;
    if |segments| == 1 {
      CutIs(s, SLASH);
      assert segments == [s];
    } else {
      assert forall x | x in segments[1..] :: x in segments;
      SplitJoin(segments[1..]);
      CutAt(s, SLASH, Join(segments[1..]));
      assert segments == [s] + segments[1..];
    }
  }

  /** A slash splits a key into the segments on both sides of it. */
  lemma {:induction false} SplitCat(a: string, b: string)
    ensures Split(a + [SLASH] + b) == Split(a) + Split(b)
    decreases |a|
  {
    CutIs(a, SLASH);
    match Cut(a, SLASH)
    case None =>
      CutAt(a, SLASH, b);
    case Some((before, after)) =>
      SplitCat(after, b);
      assert a + [SLASH] + b == before + [SLASH] + (after + [SLASH] + b);
      CutAt(before, SLASH, after + [SLASH] + b);
      assert [before] + (Split(after) + Split(b)) == ([before] + Split(after)) + Split(b);
  }

  lemma {:induction false} JoinCat(p: seq<string>, q: seq<string>)
    requires p != [] && q != []
    ensures Join(p + q) == Join(p) + [SLASH] + Join(q)
    decreases |p|
  {
    if |p| == 1 {
      assert (p + q)[1..] == q;
    } else {
      JoinCat(p[1..], q);
      assert (p + q)[1..] == p[1..] + q;
      assert p[0] + [SLASH] + (Join(p[1..]) + [SLASH] + Join(q)) == p[0] + [SLASH] + Join(p[1..]) + [SLASH] + Join(q);
    }
  }

  // ---- the helpers of the gateway ----

  /** `strings.LastIndex` of the slash, as the text before and after it. */
  function CutLast(s: string): Option<(string, string)> {
    if s == "" then None
    else if s[|s| - 1] == SLASH then Some((s[..|s| - 1], ""))
    else
      match CutLast(s[..|s| - 1])
      case None => None
      case Some((before, after)) => Some((before, after + [s[|s| - 1]]))
  }

  lemma {:induction false} CutLastIs(s: string)
    ensures CutLast(s).None? <==> SLASH !in s
    ensures CutLast(s).Some? ==> s == CutLast(s).value.0 + [SLASH] + CutLast(s).value.1 && SLASH !in CutLast(s).value.1
    decreases |s|
  {
    if s != "" {
      var init := s[..|s| - 1];
      assert s == init + [s[|s| - 1]];
      CutLastIs(init);
    }
  }

  /** `splitKey`: folder path and file name. */
  function SplitKey(key: string): (string, string) {
    match CutLast(key) case None => ("", key) case Some((folder, name)) => (folder, name)
  }

  function SplitSegments(path: string): seq<string> {
    if path == "" then [] else Split(path)
  }

  function JoinKey(folder: string, name: string): string {
    if folder == "" then name else folder + [SLASH] + name
  }

  /** `splitPrefix`, the folder a list prefix points at. */
  function PrefixFolder(prefix: string): string {
    if prefix == "" then ""
    else if prefix[|prefix| - 1] == SLASH then prefix[..|prefix| - 1]
    else match CutLast(prefix) case None => "" case Some((folder, _)) => folder
  }

  lemma PrefixFolderIs(prefix: string)
    ensures PrefixFolder(prefix) != "" ==> PrefixFolder(prefix) + [SLASH] <= prefix
  {
    CutLastIs(prefix);
  }

  /** The segments of a key are those of its folder and its name, unless the folder
      part is there but empty. */
  lemma KeySegments(key: string)
    ensures var (folder, name) := SplitKey(key);
      (folder != "" || SLASH !in key) ==> Split(key) == SplitSegments(folder) + [name]
  {
    CutLastIs(key);
    var (folder, name) := SplitKey(key);
    CutIs(key, SLASH);
    if folder != "" {
      SplitCat(folder, name);
      CutIs(name, SLASH);
    }
  }

  /** Bytes of a code point in UTF-8. */
  function Utf8Size(c: char): nat {
    if c as int < 0x80 then 1 else if c as int < 0x800 then 2 else if c as int < 0x1_0000 then 3 else 4
  }

  function Utf8Length(s: string): nat {
    if s == "" then 0 else Utf8Length(s[..|s| - 1]) + Utf8Size(s[|s| - 1])
  }

  const MAX_KEY: nat := 1024

  /** `validateObjectKey`. */
  predicate ValidKey(key: string) {
    && key != "" && Utf8Length(key) <= MAX_KEY
    && var segments := Split(key);
       forall i | 0 <= i < |segments| :: (segments[i] == "" && i == |segments| - 1) || ValidName(segments[i])
  }

  // ---- byte order ----

  /** UTF-8 keeps the order of code points, so this is the order of Go's strings. */
  predicate Less(a: string, b: string) {
    b != "" && (a == "" || a[0] < b[0] || (a[0] == b[0] && Less(a[1..], b[1..])))
  }

  /** `a` ends, or has the smaller character, where the two first differ. */
  ghost predicate FirstDiffers(a: string, b: string, i: nat) {
    i <= |a| && i < |b| && a[..i] == b[..i] && (i == |a| || a[i] < b[i])
  }

  lemma {:induction false} LessMeans(a: string, b: string)
    ensures Less(a, b) <==> exists i: nat :: FirstDiffers(a, b, i)
    decreases |a|
  {
    if Less(a, b) {
      if a == "" || a[0] < b[0] {
        assert FirstDiffers(a, b, 0);
      } else {
        LessMeans(a[1..], b[1..]);
        var i: nat :| FirstDiffers(a[1..], b[1..], i);
        assert a[..i + 1] == [a[0]] + a[1..][..i] && b[..i + 1] == [b[0]] + b[1..][..i];
        assert FirstDiffers(a, b, i + 1);
      }
    }
    if i: nat :| FirstDiffers(a, b, i) {
      if i > 0 {
        assert a[..i][0] == b[..i][0];
        assert a[1..][..i - 1] == a[..i][1..] && b[1..][..i - 1] == b[..i][1..];
        assert FirstDiffers(a[1..], b[1..], i - 1);
        LessMeans(a[1..], b[1..]);
      }
    }
  }

  lemma {:induction false} LessTotal(a: string, b: string)
    ensures Less(a, b) || a == b || Less(b, a)
    ensures !(Less(a, b) && Less(b, a)) && !Less(a, a)
    decreases |a|
  {
    if a != "" {
      LessIrreflexive(a);
      if b != "" && a[0] == b[0] {
        LessTotal(a[1..], b[1..]);
        assert a == [a[0]] + a[1..] && b == [b[0]] + b[1..];
      }
    }
  }

  lemma {:induction false} LessIrreflexive(a: string)
    ensures !Less(a, a)
    decreases |a|
  {
    if a != "" { LessIrreflexive(a[1..]); }
  }

  lemma {:induction false} LessTrans(a: string, b: string, c: string)
    requires Less(a, b) && Less(b, c)
    ensures Less(a, c)
    decreases |a|
  {
    if a != "" && a[0] == b[0] && b[0] == c[0] {
      LessTrans(a[1..], b[1..], c[1..]);
    }
  }
}
