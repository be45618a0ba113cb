/** Strings as sequences of code points: trimming and the name rules. */
module Text {
  import opened Wrappers

  /** `unicode.IsSpace`. */
  predicate IsSpace(c: char) {
    c in ['\t', '\n', '\U{0B}', '\U{0C}', '\r', ' ', '\U{85}', '\U{A0}', '\U{1680}',
          '\U{2028}', '\U{2029}', '\U{202F}', '\U{205F}', '\U{3000}'] || '\U{2000}' <= c <= '\U{200A}'
  }

  function TrimLeft(s: string): string {
    if s != [] && IsSpace(s[0]) then TrimLeft(s[1..]) else s
  }

  function TrimRight(s: string): string {
    if s != [] && IsSpace(s[|s| - 1]) then TrimRight(s[..|s| - 1]) else s
  }

  /** `strings.TrimSpace`. */
  function TrimSpace(s: string): string {
    TrimRight(TrimLeft(s))
  }

  const MAX_NAME_LEN: nat := 255

  /** `ValidateNodeName`. */
  predicate ValidName(name: string) {
    var n := TrimSpace(name);
    n != "" && |n| <= MAX_NAME_LEN && '/' !in n && '\\' !in n && n != "." && n != ".."
  }

  predicate Trimmed(s: string) {
    s != [] ==> !IsSpace(s[0]) && !IsSpace(s[|s| - 1])
  }

  lemma TrimmedFixed(s: string)
    requires Trimmed(s)
    ensures TrimSpace(s) == s
  {}

  ghost predicate Spaces(s: string) {
    forall i | 0 <= i < |s| :: IsSpace(s[i])
  }

  lemma {:induction false} TrimLeftSpaces(l: string, s: string)
    requires Spaces(l)
    ensures TrimLeft(l + s) == TrimLeft(s)
    decreases |l|
  {
    if l == "" {
      assert l + s == s;
    } else {
      assert (l + s)[0] == l[0] && (l + s)[1..] == l[1..] + s;
      TrimLeftSpaces(l[1..], s);
    }
  }

  lemma {:induction false} TrimRightSpaces(s: string, r: string)
    requires Spaces(r)
    ensures TrimRight(s + r) == TrimRight(s)
    decreases |r|
  {
    if r == "" {
      assert s + r == s;
    } else {
      var n := |r| - 1;
      assert (s + r)[|s + r| - 1] == r[n] && (s + r)[..|s + r| - 1] == s + r[..n];
      TrimRightSpaces(s, r[..n]);
    }
  }

  /** Trimming removes the spaces at both ends and nothing else. */
  lemma TrimSpaceIs(l: string, s: string, r: string)
    requires Spaces(l) && Spaces(r) && Trimmed(s)
    ensures TrimSpace(l + s + r) == s
  {
    if s == "" {
      assert l + s + r == l + (r + "");
      TrimLeftSpaces(l, r + "");
      TrimLeftSpaces(r, "");
    } else {
      assert l + s + r == l + (s + r);
      TrimLeftSpaces(l, s + r);
      assert (s + r)[0] == s[0];
      TrimRightSpaces(s, r);
    }
  }

  /** A name is valid if what is between its outer spaces has 1 to 255 characters, no
      slash or backslash among them, and is not one or two dots. */
  lemma ValidNameMeans(l: string, s: string, r: string)
    requires Spaces(l) && Spaces(r) && Trimmed(s)
    ensures ValidName(l + s + r) <==>
      1 <= |s| <= 255 && (forall i | 0 <= i < |s| :: s[i] != '/' && s[i] != '\\') && s != "." && s != ".."
  {
    hide TrimSpace;
    TrimSpaceIs(l, s, r);
  }

  /** `strings.Cut` at the first `c`. */
  function Cut(s: string, c: char): Option<(string, string)> {
    if s == "" then None
    else if s[0] == c then Some(("", s[1..]))
    else
      match Cut(s[1..], c)
      case None => None
      case Some((before, after)) => Some(([s[0]] + before, after))
  }

  lemma {:induction false} CutIs(s: string, c: char)
    ensures Cut(s, c).None? <==> c !in s
    ensures Cut(s, c).Some? ==> s == Cut(s, c).value.0 + [c] + Cut(s, c).value.1 && c !in Cut(s, c).value.0
    decreases |s|
  {
    if s != "" && s[0] != c {
      CutIs(s[1..], c);
      assert s == [s[0]] + s[1..];
    }
  }

  lemma {:induction false} CutAt(before: string, c: char, after: string)
    requires c !in before
    ensures Cut(before + [c] + after, c) == Some((before, after))
    decreases |before|
  {
    var s := before + [c] + after;
    if before != "" {
      CutAt(before[1..], c, after);
      assert s[1..] == before[1..] + [c] + after;
      assert before == [before[0]] + before[1..] && s[0] == before[0];
    } else {
      assert s[1..] == after;
    }
  }

  predicate HasPrefix(s: string, prefix: string) {
    prefix <= s
  }

  /** `strings.Index`. */
  function IndexOfText(s: string, sub: string): Option<nat>
    decreases |s|
  {
    if sub <= s then Some(0)
    else if s == "" then None
    else match IndexOfText(s[1..], sub) case None => None case Some(i) => Some(i + 1)
  }

  lemma {:induction false} IndexOfTextIs(s: string, sub: string)
    ensures IndexOfText(s, sub).Some? ==>
              var i := IndexOfText(s, sub).value; i + |sub| <= |s| && s[i..i + |sub|] == sub && sub <= s[i..]
    ensures IndexOfText(s, sub).None? ==> forall i | 0 <= i <= |s| :: !(sub <= s[i..])
    decreases |s|
  {
    if sub <= s {
      assert s[0..|sub|] == sub && s[0..] == s;
    } else if s != "" {
      IndexOfTextIs(s[1..], sub);
      forall i | 0 < i <= |s| ensures s[i..] == s[1..][i - 1..] {}
      assert s[0..] == s;
      if IndexOfText(s[1..], sub).Some? {
        var i := IndexOfText(s[1..], sub).value;
        assert s[1..][i..i + |sub|] == s[i + 1..i + 1 + |sub|];
        assert s[1..][i..] == s[i + 1..];
      }
    } else {
      assert s[0..] == s;
    }
  }

  /** It is the first one. */
  lemma {:induction false} IndexOfTextFirst(s: string, sub: string)
    requires IndexOfText(s, sub).Some?
    ensures forall j | 0 <= j < IndexOfText(s, sub).value :: j <= |s| && !(sub <= s[j..])
    decreases |s|
  {
    IndexOfTextIs(s, sub);
    if !(sub <= s) && s != "" {
      IndexOfTextFirst(s[1..], sub);
      assert s[0..] == s;
      forall j | 0 < j <= |s| ensures s[j..] == s[1..][j - 1..] {}
    }
  }

  /** `strings.Split` at a separator that is not empty. */
  function SplitText(s: string, sep: string): (r: seq<string>)
    requires sep != ""
    ensures r != []
    decreases |s|
  {
    match IndexOfText(s, sep)
    case None => [s]
    case Some(i) =>
      IndexOfTextIs(s, sep);
      [s[..i]] + SplitText(s[i + |sep|..], sep)
  }

  /** No occurrence of `sep` begins inside `a` when `sep` follows it. */
  ghost predicate StartsFirst(a: string, sep: string, rest: string) {
    forall i | 0 <= i < |a| :: !(sep <= (a + sep + rest)[i..])
  }

  lemma {:induction false} IndexFirst(s: string, sep: string, n: nat)
    requires n <= |s| && sep <= s[n..] && forall i | 0 <= i < n :: !(sep <= s[i..])
    ensures IndexOfText(s, sep) == Some(n)
    decreases n
  {
    assert s[0..] == s;
    if n > 0 {
      assert !(sep <= s[0..]);
      forall i | 0 <= i < n - 1 ensures !(sep <= s[1..][i..]) {
        assert s[1..][i..] == s[i + 1..];
      }
      assert s[1..][n - 1..] == s[n..];
      IndexFirst(s[1..], sep, n - 1);
    }
  }

  lemma SplitTextAt(a: string, sep: string, rest: string)
    requires sep != "" && StartsFirst(a, sep, rest)
    ensures SplitText(a + sep + rest, sep) == [a] + SplitText(rest, sep)
  {
    var s := a + sep + rest;
    assert s[|a|..] == sep + rest;
    IndexFirst(s, sep, |a|);
    assert s[..|a|] == a && s[|a| + |sep|..] == rest;
  }

  lemma SplitTextNone(s: string, sep: string)
    requires sep != "" && forall i | 0 <= i <= |s| :: !(sep <= s[i..])
    ensures SplitText(s, sep) == [s]
  {
    IndexOfTextIs(s, sep);
  }
}
