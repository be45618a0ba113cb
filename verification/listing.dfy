/** The pages of `listObjects`: collapsing at a delimiter, sorting, cutting, and
    following the markers. */
module Listing {
  import opened Wrappers
  import opened Keys
  import opened Text

  /** A line of a listing: a key, or a common prefix. */
  datatype Line = Line(key: string, common: bool)

  // ---- collapsing ----

  /** The line a key with the prefix stands for: itself, or its text up to the first
      delimiter after the prefix. */
  function Collapse(prefix: string, delimiter: string, key: string): Line {
    if delimiter == "" || !(prefix <= key) then Line(key, false)
    else
      match IndexOfText(key[|prefix|..], delimiter)
      case None => Line(key, false)
      case Some(i) =>
        IndexOfTextIs(key[|prefix|..], delimiter);
        Line(key[..|prefix| + i + |delimiter|], true)
  }

  ghost predicate DelimiterAt(rest: string, delimiter: string, i: nat) {
    i <= |rest| && delimiter <= rest[i..]
  }

  /** A key without the delimiter after the prefix is listed as it is; any other stands
      for the common prefix that ends with the first delimiter after the prefix. */
  lemma CollapseMeans(prefix: string, delimiter: string, key: string)
    requires prefix <= key
    ensures var line := Collapse(prefix, delimiter, key); var rest := key[|prefix|..];
      && (line.common <==> delimiter != "" && exists i: nat :: DelimiterAt(rest, delimiter, i))
      && (!line.common ==> line.key == key)
      && (line.common ==> exists i: nat ::
            && DelimiterAt(rest, delimiter, i) && (forall j: nat | j < i :: !DelimiterAt(rest, delimiter, j))
            && line.key == prefix + rest[..i] + delimiter)
  {
    var rest := key[|prefix|..];
    IndexOfTextIs(rest, delimiter);
    if delimiter != "" && IndexOfText(rest, delimiter).Some? {
      var i := IndexOfText(rest, delimiter).value;
      IndexOfTextFirst(rest, delimiter);
      assert DelimiterAt(rest, delimiter, i);
      assert key[..|prefix| + i + |delimiter|] == prefix + rest[..i] + delimiter;
    }
  }

  ghost predicate AllHave(keys: set<string>, prefix: string) {
    forall k | k in keys :: prefix <= k
  }

  function KeySet(keys: seq<string>): set<string> {
    set k | k in keys
  }

  /** Every line of the whole listing. */
  ghost function Lines(keys: set<string>, prefix: string, delimiter: string): set<Line> {
    set k | k in keys :: Collapse(prefix, delimiter, k)
  }

  /** No text is listed both as a key and as a common prefix. */
  lemma KindsDoNotOverlap(keys: set<string>, prefix: string, delimiter: string, x: Line, y: Line)
    requires AllHave(keys, prefix) && x in Lines(keys, prefix, delimiter) && y in Lines(keys, prefix, delimiter) &&
      x.key == y.key
    ensures x == y
  {
    var j :| j in keys && x == Collapse(prefix, delimiter, j);
    var k :| k in keys && y == Collapse(prefix, delimiter, k);
    if x.common && !y.common {
      PrefixIsNotKey(prefix, delimiter, j, k);
    } else if y.common && !x.common {
      PrefixIsNotKey(prefix, delimiter, k, j);
    }
  }

  /** A common prefix ends in the delimiter, where a plain key has none. */
  lemma PrefixIsNotKey(prefix: string, delimiter: string, j: string, k: string)
    requires prefix <= j && prefix <= k && Collapse(prefix, delimiter, j).common &&
      !Collapse(prefix, delimiter, k).common
    ensures Collapse(prefix, delimiter, j).key != Collapse(prefix, delimiter, k).key
  {
    hide Collapse;
    var i := CommonEnds(prefix, delimiter, j);
    PlainHasNone(prefix, delimiter, k);
  }

  lemma CommonEnds(prefix: string, delimiter: string, j: string) returns (i: nat)
    requires prefix <= j && Collapse(prefix, delimiter, j).common
    ensures var c := Collapse(prefix, delimiter, j).key;
      delimiter != "" && prefix <= c && i <= |c[|prefix|..]| && delimiter <= c[|prefix|..][i..]
  {
    var n := |prefix|;
    IndexOfTextIs(j[n..], delimiter);
    i := IndexOfText(j[n..], delimiter).value;
    var c := j[..n + i + |delimiter|];
    assert c[n..][i..] == j[n..][i..i + |delimiter|];
  }

  lemma PlainHasNone(prefix: string, delimiter: string, k: string)
    requires prefix <= k && !Collapse(prefix, delimiter, k).common
    ensures Collapse(prefix, delimiter, k).key == k
    ensures delimiter != "" ==> forall i | 0 <= i <= |k[|prefix|..]| :: !(delimiter <= k[|prefix|..][i..])
  {
    IndexOfTextIs(k[|prefix|..], delimiter);
  }

  // ---- one page ----

  ghost predicate Sorted(lines: seq<Line>) {
    forall i, j | 0 <= i < j < |lines| :: Less(lines[i].key, lines[j].key)
  }

  ghost predicate IsPage(all: set<Line>, marker: string, maxKeys: nat, lines: seq<Line>, truncated: bool) {
    && Sorted(lines) && (forall x | x in lines :: x in all && Less(marker, x.key))
    && (truncated ==> lines != [] && |lines| == maxKeys)
    && (!truncated && maxKeys > 0 ==> |lines| <= maxKeys && forall x | x in all && Less(marker, x.key) :: x in lines)
    && (truncated ==> forall x | x in all && Less(marker, x.key) && x !in lines :: Less(lines[|lines| - 1].key, x.key))
    && (truncated ==> exists x :: x in all && Less(marker, x.key) && x !in lines)
    && (maxKeys == 0 ==> lines == [] && !truncated)
  }

  /** Where a sorted list takes one more line. */
  method InsertLine(lines: seq<Line>, x: Line) returns (out: seq<Line>)
    requires Sorted(lines) && forall y | y in lines :: y.key != x.key
    ensures Sorted(out) && forall y :: y in out <==> y in lines || y == x
    ensures |out| == |lines| + 1
  {
    var i := |lines|;
    while i > 0 && Less(x.key, lines[i - 1].key)
      invariant 0 <= i <= |lines|
      invariant forall k | i <= k < |lines| :: Less(x.key, lines[k].key)
    {
      i := i - 1;
    }
    out := lines[..i] + [x] + lines[i..];
    InsertSorted(lines, x, i);
    assert lines == lines[..i] + lines[i..];
  }

  lemma InsertSorted(lines: seq<Line>, x: Line, i: nat)
    requires Sorted(lines) && i <= |lines| && forall y | y in lines :: y.key != x.key
    requires i > 0 ==> !Less(x.key, lines[i - 1].key)
    requires forall k | i <= k < |lines| :: Less(x.key, lines[k].key)
    ensures Sorted(lines[..i] + [x] + lines[i..])
  {
    hide Less;
    var out := lines[..i] + [x] + lines[i..];
    forall j | 0 <= j < i ensures Less(lines[j].key, x.key) {
      assert lines[i - 1] in lines;
      LessTotal(lines[i - 1].key, x.key);
      if j < i - 1 {
        LessTrans(lines[j].key, lines[i - 1].key, x.key);
      }
    }
    forall a, b | 0 <= a < b < |out| ensures Less(out[a].key, out[b].key) {
      if b < i {
        assert out[a] == lines[a] && out[b] == lines[b];
      } else if b == i {
        assert out[a] == lines[a];
      } else {
        assert out[b] == lines[b - 1];
        if a < i { assert out[a] == lines[a]; } else if a > i { assert out[a] == lines[a - 1]; }
      }
    }
  }

  /** What was gathered from the keys visited so far. */
  ghost predicate Gathered(keys: seq<string>, n: nat, prefix: string, delimiter: string, marker: string,
      entries: seq<Line>, prefixes: set<string>)
    requires n <= |keys|
  {
    && (forall x :: x in entries <==>
          exists i :: 0 <= i < n && x == Collapse(prefix, delimiter, keys[i]) && Less(marker, x.key))
    && (forall p :: p in prefixes <==> exists i :: 0 <= i < n && Line(p, true) == Collapse(prefix, delimiter, keys[i]))
  }

  /** One page of `listObjects`, from the keys below the prefix in any order. */
  method ListPage(keys: seq<string>, prefix: string, delimiter: string, marker: string, maxKeys: nat)
    returns (lines: seq<Line>, truncated: bool, next: string)
    requires forall i, j | 0 <= i < j < |keys| :: keys[i] != keys[j]
    requires AllHave(KeySet(keys), prefix)
    ensures IsPage(Lines(KeySet(keys), prefix, delimiter), marker, maxKeys, lines, truncated)
    ensures truncated ==> lines != [] && next == lines[|lines| - 1].key
    ensures var all := Lines(KeySet(keys), prefix, delimiter);
      marker == "" && |all| <= maxKeys ==> !truncated && forall x | x in all && x.key != "" :: x in lines
  {
    hide Less, Collapse, IsPage, AllHave;
    ghost var ks := KeySet(keys);
    assert forall k | k in keys :: prefix <= k by { HavePrefix(keys, prefix); }
    var prefixes: set<string> := {};
    lines := [];
    truncated, next := false, "";
    var i := 0;
    while i < |keys|
      invariant 0 <= i <= |keys| && Sorted(lines)
      invariant Gathered(keys, i, prefix, delimiter, marker, lines, prefixes)
    {
      var key := keys[i];
      assert key in keys;
      var x := Collapse(prefix, delimiter, key);
      if x.common && x.key in prefixes {
        SeenAgain(keys, i, prefix, delimiter, marker, lines, prefixes);
      } else {
        NewLine(keys, i, prefix, delimiter, marker, lines, prefixes);
        ghost var before, seen := lines, prefixes;
        if x.common {
          prefixes := prefixes + {x.key};
        }
        if Less(marker, x.key) {
          lines := InsertLine(lines, x);
        }
        GatheredMore(keys, i, prefix, delimiter, marker, before, seen, lines, prefixes);
      }
      i := i + 1;
    }
    AllGathered(keys, prefix, delimiter, marker, lines, prefixes);
    if maxKeys > 0 && |lines| > maxKeys {
      CutPage(Lines(ks, prefix, delimiter), marker, maxKeys, lines);
      truncated := true;
      lines := lines[..maxKeys];
      next := lines[|lines| - 1].key;
    } else if maxKeys == 0 {
      lines := [];
      NoPage(Lines(ks, prefix, delimiter), marker);
    } else {
      WholePage(Lines(ks, prefix, delimiter), marker, maxKeys, lines);
    }
    if marker == "" && |Lines(ks, prefix, delimiter)| <= maxKeys {
      FirstPageWhole(Lines(ks, prefix, delimiter), maxKeys, lines, truncated);
    }
  }

  /** The listing from the start is whole if it fits a page. */
  lemma FirstPageWhole(all: set<Line>, maxKeys: nat, lines: seq<Line>, truncated: bool)
    requires IsPage(all, "", maxKeys, lines, truncated) && |all| <= maxKeys
    ensures !truncated && forall x | x in all && x.key != "" :: x in lines
  {
    if truncated {
      var x :| x in all && Less("", x.key) && x !in lines;
      var page := set y | y in lines;
      SortedSize(lines);
      assert page + {x} <= all;
      SubsetSize(page + {x}, all);
    }
    if maxKeys == 0 {
      assert all == {};
    }
  }

  lemma {:induction false} SubsetSize<T>(a: set<T>, b: set<T>)
    requires a <= b
    ensures |a| <= |b|
    decreases |a|
  {
    if x :| x in a {
      SubsetSize(a - {x}, b - {x});
    }
  }

  lemma {:induction false} SortedSize(lines: seq<Line>)
    requires Sorted(lines)
    ensures |set y | y in lines| == |lines|
    decreases |lines|
  {
    hide Less;
    if lines != [] {
      var front, last := lines[..|lines| - 1], lines[|lines| - 1];
      SortedSize(front);
      assert lines == front + [last];
      assert (set y | y in lines) == (set y | y in front) + {last};
      if last in front {
        var i :| 0 <= i < |front| && front[i] == last;
        LessIrreflexive(last.key);
      }
    }
  }

  lemma HavePrefix(keys: seq<string>, prefix: string)
    requires AllHave(KeySet(keys), prefix)
    ensures forall k | k in keys :: prefix <= k
  {
    forall k | k in keys ensures prefix <= k {
      assert k in KeySet(keys);
    }
  }

  /** A common prefix met before adds nothing. */
  lemma SeenAgain(keys: seq<string>, n: nat, prefix: string, delimiter: string, marker: string, entries: seq<Line>,
      prefixes: set<string>)
    requires n < |keys| && (forall k | k in keys :: prefix <= k) && keys[n] in keys
    requires Gathered(keys, n, prefix, delimiter, marker, entries, prefixes)
    requires Collapse(prefix, delimiter, keys[n]).common && Collapse(prefix, delimiter, keys[n]).key in prefixes
    ensures Gathered(keys, n + 1, prefix, delimiter, marker, entries, prefixes)
  {
    hide Collapse, Less;
    var x := Collapse(prefix, delimiter, keys[n]);
    var m :| 0 <= m < n && Line(x.key, true) == Collapse(prefix, delimiter, keys[m]);
    assert x == Collapse(prefix, delimiter, keys[m]);
    forall y ensures y in entries <==> exists i ::
      0 <= i < n + 1 && y == Collapse(prefix, delimiter, keys[i]) && Less(marker, y.key)
    {
      if i :| 0 <= i < n + 1 && y == Collapse(prefix, delimiter, keys[i]) && Less(marker, y.key) {
        var w := if i == n then m else i;
        assert 0 <= w < n && y == Collapse(prefix, delimiter, keys[w]);
      }
    }
    forall p ensures p in prefixes <==> exists i ::
      0 <= i < n + 1 && Line(p, true) == Collapse(prefix, delimiter, keys[i])
    {
      if i :| 0 <= i < n + 1 && Line(p, true) == Collapse(prefix, delimiter, keys[i]) {
        var w := if i == n then m else i;
        assert 0 <= w < n && Line(p, true) == Collapse(prefix, delimiter, keys[w]);
      }
    }
  }

  /** A line not met before clashes with no entry. */
  lemma NewLine(keys: seq<string>, n: nat, prefix: string, delimiter: string, marker: string, entries: seq<Line>,
      prefixes: set<string>)
    requires n < |keys| && (forall k | k in keys :: prefix <= k) && keys[n] in keys
    requires forall i, j | 0 <= i < j < |keys| :: keys[i] != keys[j]
    requires Gathered(keys, n, prefix, delimiter, marker, entries, prefixes)
    requires var x := Collapse(prefix, delimiter, keys[n]); !(x.common && x.key in prefixes)
    ensures forall y | y in entries :: y.key != Collapse(prefix, delimiter, keys[n]).key
  {
    hide Collapse, Less;
    var x := Collapse(prefix, delimiter, keys[n]);
    forall y | y in entries ensures y.key != x.key {
      var i :| 0 <= i < n && y == Collapse(prefix, delimiter, keys[i]) && Less(marker, y.key);
      assert keys[i] in keys;
      assert y.common ==> Line(y.key, true) == Collapse(prefix, delimiter, keys[i]);
      assert y.common ==> y.key in prefixes;
      if y.common && !x.common {
        PrefixIsNotKey(prefix, delimiter, keys[i], keys[n]);
      } else if x.common && !y.common {
        PrefixIsNotKey(prefix, delimiter, keys[n], keys[i]);
      } else if !x.common {
        PlainKey(prefix, delimiter, keys[i]);
        PlainKey(prefix, delimiter, keys[n]);
      }
    }
  }

  lemma PlainKey(prefix: string, delimiter: string, key: string)
    requires prefix <= key && !Collapse(prefix, delimiter, key).common
    ensures Collapse(prefix, delimiter, key).key == key
  {}

  lemma GatheredMore(
      keys: seq<string>, n: nat, prefix: string, delimiter: string, marker: string,
      before: seq<Line>, seen: set<string>, entries: seq<Line>, prefixes: set<string>)
    requires n < |keys| && (forall k | k in keys :: prefix <= k) && keys[n] in keys
    requires Gathered(keys, n, prefix, delimiter, marker, before, seen)
    requires var x := Collapse(prefix, delimiter, keys[n]);
      && (forall y :: y in entries <==> y in before || (y == x && Less(marker, x.key)))
      && prefixes == if x.common then seen + {x.key} else seen
    ensures Gathered(keys, n + 1, prefix, delimiter, marker, entries, prefixes)
  {
    hide Collapse, Less;
    var x := Collapse(prefix, delimiter, keys[n]);
    forall y ensures y in entries <==> exists i ::
      0 <= i < n + 1 && y == Collapse(prefix, delimiter, keys[i]) && Less(marker, y.key)
    {
      if i :| 0 <= i < n + 1 && y == Collapse(prefix, delimiter, keys[i]) && Less(marker, y.key) {
        if i < n { assert y in before; }
      }
      if y in before {
        var i :| 0 <= i < n && y == Collapse(prefix, delimiter, keys[i]) && Less(marker, y.key);
        assert 0 <= i < n + 1;
      }
    }
    forall p ensures p in prefixes <==> exists i ::
      0 <= i < n + 1 && Line(p, true) == Collapse(prefix, delimiter, keys[i])
    {
      if i :| 0 <= i < n + 1 && Line(p, true) == Collapse(prefix, delimiter, keys[i]) {
        if i < n { assert p in seen; } else { assert x == Line(p, true); }
      }
      if p in seen {
        var i :| 0 <= i < n && Line(p, true) == Collapse(prefix, delimiter, keys[i]);
        assert 0 <= i < n + 1;
      }
      if x.common && p == x.key {
        assert Line(p, true) == x;
      }
    }
  }

  lemma AllGathered(keys: seq<string>, prefix: string, delimiter: string, marker: string, entries: seq<Line>,
      prefixes: set<string>)
    requires AllHave(KeySet(keys), prefix) && (forall k | k in keys :: prefix <= k)
    requires Gathered(keys, |keys|, prefix, delimiter, marker, entries, prefixes)
    ensures forall x :: x in entries <==> x in Lines(KeySet(keys), prefix, delimiter) && Less(marker, x.key)
  {
    hide Collapse, Less;
    var ks := KeySet(keys);
    forall x ensures x in entries <==> x in Lines(ks, prefix, delimiter) && Less(marker, x.key) {
      if x in entries {
        var i :| 0 <= i < |keys| && x == Collapse(prefix, delimiter, keys[i]) && Less(marker, x.key);
        assert keys[i] in ks;
      }
      if x in Lines(ks, prefix, delimiter) && Less(marker, x.key) {
        var k :| k in ks && x == Collapse(prefix, delimiter, k);
        var i :| 0 <= i < |keys| && keys[i] == k;
        assert x == Collapse(prefix, delimiter, keys[i]);
      }
    }
  }

  lemma CutPage(all: set<Line>, marker: string, maxKeys: nat, lines: seq<Line>)
    requires Sorted(lines) && 0 < maxKeys < |lines|
    requires forall x :: x in lines <==> x in all && Less(marker, x.key)
    ensures IsPage(all, marker, maxKeys, lines[..maxKeys], true)
  {
    hide Less;
    var page := lines[..maxKeys];
    forall k | 0 <= k < maxKeys ensures lines[k] in page {
      assert page[k] == lines[k];
    }
    forall x | x in all && Less(marker, x.key) && x !in page ensures Less(page[maxKeys - 1].key, x.key) {
      var i :| 0 <= i < |lines| && lines[i] == x;
    }
    var beyond := lines[maxKeys];
    assert beyond in lines;
    if beyond in page {
      var i :| 0 <= i < maxKeys && page[i] == beyond;
      LessIrreflexive(beyond.key);
    }
  }

  lemma NoPage(all: set<Line>, marker: string)
    ensures IsPage(all, marker, 0, [], false)
  {}

  lemma WholePage(all: set<Line>, marker: string, maxKeys: nat, lines: seq<Line>)
    requires Sorted(lines) && |lines| <= maxKeys && maxKeys > 0
    requires forall x :: x in lines <==> x in all && Less(marker, x.key)
    ensures IsPage(all, marker, maxKeys, lines, false)
  {}

  // ---- following the markers ----

  /** The pages a client gets when each request carries the last key of the page before. */
  ghost predicate Followed(all: set<Line>, marker: string, maxKeys: nat, pages: seq<seq<Line>>)
    decreases |pages|
  {
    pages != [] &&
    if |pages| == 1 then IsPage(all, marker, maxKeys, pages[0], false)
    else
      IsPage(all, marker, maxKeys, pages[0], true) &&
      Followed(all, pages[0][|pages[0]| - 1].key, maxKeys, pages[1..])
  }

  function Together(pages: seq<seq<Line>>): seq<Line> {
    if pages == [] then [] else pages[0] + Together(pages[1..])
  }

  /** Following the markers visits every line after the first marker exactly once,
      in byte order, and nothing else. */
  lemma {:induction false} PagesVisitOnce(all: set<Line>, marker: string, maxKeys: nat, pages: seq<seq<Line>>)
    requires maxKeys >= 1 && Followed(all, marker, maxKeys, pages)
    ensures Sorted(Together(pages))
    ensures forall x :: x in Together(pages) <==> x in all && Less(marker, x.key)
    decreases |pages|
  {
    hide Less;
    var first := pages[0];
    if |pages| == 1 {
      assert Together(pages[1..]) == [];
      assert Together(pages) == first;
    } else {
      var last := first[|first| - 1];
      var rest := Together(pages[1..]);
      PagesVisitOnce(all, last.key, maxKeys, pages[1..]);
      JoinPages(all, marker, maxKeys, first, rest);
    }
  }

  lemma JoinPages(all: set<Line>, marker: string, maxKeys: nat, first: seq<Line>, rest: seq<Line>)
    requires IsPage(all, marker, maxKeys, first, true) && Sorted(rest)
    requires forall x :: x in rest <==> x in all && Less(first[|first| - 1].key, x.key)
    ensures Sorted(first + rest)
    ensures forall x :: x in first + rest <==> x in all && Less(marker, x.key)
  {
    hide Less;
    var last := first[|first| - 1];
    assert last in first;
    var both := first + rest;
    forall i, j | 0 <= i < j < |both| ensures Less(both[i].key, both[j].key) {
      if j < |first| {
        assert both[i] == first[i] && both[j] == first[j];
      } else if i >= |first| {
        assert both[i] == rest[i - |first|] && both[j] == rest[j - |first|];
      } else {
        assert both[i] == first[i] && both[j] in rest;
        if i < |first| - 1 { LessTrans(first[i].key, last.key, both[j].key); }
      }
    }
    forall x | x in rest ensures Less(marker, x.key) {
      LessTrans(marker, last.key, x.key);
    }
  }

  ghost function Left(all: set<Line>, marker: string): set<Line> {
    set x | x in all && Less(marker, x.key)
  }

  /** Each page that is not the last leaves strictly fewer lines to list, so the pages end. */
  lemma PagesEnd(all: set<Line>, marker: string, maxKeys: nat, lines: seq<Line>)
    requires IsPage(all, marker, maxKeys, lines, true)
    ensures Left(all, lines[|lines| - 1].key) < Left(all, marker)
  {
    hide Less;
    var last := lines[|lines| - 1];
    assert last in lines && last in Left(all, marker);
    LessTotal(last.key, last.key);
    forall x | x in Left(all, last.key) ensures x in Left(all, marker) {
      LessTrans(marker, last.key, x.key);
    }
    assert last !in Left(all, last.key);
  }
}
