/** The bytes of strings, and the order of Go's strings: byte by byte. */
module Utf8 {
  import opened Wrappers
  import opened Keys
  import opened Text

  /** The UTF-8 form of one code point. */
  function Encoded(c: char): (bytes: seq<int>)
    ensures |bytes| == Utf8Size(c) && forall b | b in bytes :: 0 <= b < 256
  {
    var n := c as int;
    if n < 0x80 then [n]
    else if n < 0x800 then [0xC0 + n / 0x40, 0x80 + n % 0x40]
    else if n < 0x1_0000 then [0xE0 + n / 0x1000, 0x80 + n / 0x40 % 0x40, 0x80 + n % 0x40]
    else [0xF0 + n / 0x4_0000, 0x80 + n / 0x1000 % 0x40, 0x80 + n / 0x40 % 0x40, 0x80 + n % 0x40]
  }

  function Bytes(s: string): seq<int> {
    if s == "" then [] else Encoded(s[0]) + Bytes(s[1..])
  }

  /** Lexicographic order: at the first difference, or the end of `x`, `x` is behind. */
  ghost predicate Precedes(x: seq<int>, y: seq<int>) {
    exists i: nat :: DiffersAt(x, y, i)
  }

  ghost predicate DiffersAt(x: seq<int>, y: seq<int>, i: nat) {
    i <= |x| && i < |y| && x[..i] == y[..i] && (i == |x| || x[i] < y[i])
  }

  lemma Asymmetric(x: seq<int>, y: seq<int>)
    requires Precedes(x, y)
    ensures !Precedes(y, x) && x != y
  {
    var i: nat :| DiffersAt(x, y, i);
    forall j: nat ensures !DiffersAt(y, x, j) {
      if j < i {
        assert x[..i][j] == y[..i][j];
      } else if i < j <= |x| && j <= |y| {
        assert y[..j] == x[..j] ==> y[..j][i] == x[..j][i];
      }
    }
  }

  /** The same text in front changes nothing. */
  lemma SameFront(p: seq<int>, x: seq<int>, y: seq<int>)
    requires Precedes(x, y)
    ensures Precedes(p + x, p + y)
  {
    var i: nat :| DiffersAt(x, y, i);
    assert (p + x)[..|p| + i] == p + x[..i] && (p + y)[..|p| + i] == p + y[..i];
    assert DiffersAt(p + x, p + y, |p| + i);
  }

  lemma Digits(m: nat, n: nat)
    requires m < n
    ensures m / 0x40 < n / 0x40 || (m / 0x40 == n / 0x40 && m % 0x40 < n % 0x40)
  {}

  lemma Thousands(m: nat)
    ensures m / 0x1000 == m / 0x40 / 0x40 && m / 0x4_0000 == m / 0x1000 / 0x40
  {}

  lemma LongerIsLarger(c: char, d: char)
    requires c < d && |Encoded(c)| != |Encoded(d)|
    ensures Encoded(c)[0] < Encoded(d)[0]
  {}

  lemma TwoBytes(c: char, d: char) returns (i: nat)
    requires c < d && Utf8Size(c) == 2 && Utf8Size(d) == 2
    ensures i < 2 && Encoded(c)[..i] == Encoded(d)[..i] && Encoded(c)[i] < Encoded(d)[i]
  {
    var m, n := c as int, d as int;
    Digits(m, n);
    i := if m / 0x40 < n / 0x40 then 0 else 1;
  }

  lemma ThreeBytes(c: char, d: char) returns (i: nat)
    requires c < d && Utf8Size(c) == 3 && Utf8Size(d) == 3
    ensures i < 3 && Encoded(c)[..i] == Encoded(d)[..i] && Encoded(c)[i] < Encoded(d)[i]
  {
    var m, n := c as int, d as int;
    Thousands(m);
    Thousands(n);
    Digits(m, n);
    if m / 0x40 < n / 0x40 { Digits(m / 0x40, n / 0x40); }
    i := if m / 0x1000 < n / 0x1000 then 0 else if m / 0x40 < n / 0x40 then 1 else 2;
  }

  lemma FourBytes(c: char, d: char) returns (i: nat)
    requires c < d && Utf8Size(c) == 4 && Utf8Size(d) == 4
    ensures i < 4 && Encoded(c)[..i] == Encoded(d)[..i] && Encoded(c)[i] < Encoded(d)[i]
  {
    var m, n := c as int, d as int;
    Thousands(m);
    Thousands(n);
    Digits(m, n);
    if m / 0x40 < n / 0x40 {
      Digits(m / 0x40, n / 0x40);
      if m / 0x1000 < n / 0x1000 { Digits(m / 0x1000, n / 0x1000); }
    }
    i := if m / 0x4_0000 < n / 0x4_0000 then 0
         else if m / 0x1000 < n / 0x1000 then 1 else if m / 0x40 < n / 0x40 then 2 else 3;
  }

  /** Two code points differ within the shorter of their two forms. */
  lemma CharOrder(c: char, d: char) returns (i: nat)
    requires c < d
    ensures i < |Encoded(c)| && i < |Encoded(d)|
    ensures Encoded(c)[..i] == Encoded(d)[..i] && Encoded(c)[i] < Encoded(d)[i]
  {
    i := 0;
    if |Encoded(c)| != |Encoded(d)| {
      LongerIsLarger(c, d);
    } else if Utf8Size(c) == 2 {
      i := TwoBytes(c, d);
    } else if Utf8Size(c) == 3 {
      i := ThreeBytes(c, d);
    } else if Utf8Size(c) == 4 {
      i := FourBytes(c, d);
    }
  }

  lemma FirstByte(c: char, d: char, x: seq<int>, y: seq<int>)
    requires c < d
    ensures Precedes(Encoded(c) + x, Encoded(d) + y)
  {
    var i := CharOrder(c, d);
    var a, b := Encoded(c) + x, Encoded(d) + y;
    assert a[..i] == Encoded(c)[..i] && b[..i] == Encoded(d)[..i];
    assert DiffersAt(a, b, i);
  }

  lemma {:induction false} LessPrecedes(a: string, b: string)
    requires Less(a, b)
    ensures Precedes(Bytes(a), Bytes(b))
    decreases |a|
  {
    if a == "" {
      assert DiffersAt(Bytes(a), Bytes(b), 0);
    } else if a[0] < b[0] {
      FirstByte(a[0], b[0], Bytes(a[1..]), Bytes(b[1..]));
    } else {
      LessPrecedes(a[1..], b[1..]);
      SameFront(Encoded(a[0]), Bytes(a[1..]), Bytes(b[1..]));
    }
  }

  /** The order of the keys is that of their bytes. */
  lemma LessIsByteOrder(a: string, b: string)
    ensures Less(a, b) <==> Precedes(Bytes(a), Bytes(b))
  {
    LessTotal(a, b);
    if Less(a, b) {
      LessPrecedes(a, b);
    } else if a == b {
      if Precedes(Bytes(a), Bytes(b)) { Asymmetric(Bytes(a), Bytes(b)); }
    } else {
      LessPrecedes(b, a);
      Asymmetric(Bytes(b), Bytes(a));
    }
  }

  lemma {:induction false} BytesCat(a: string, b: string)
    ensures Bytes(a + b) == Bytes(a) + Bytes(b)
    decreases |a|
  {
    hide Encoded;
    if a == "" {
      assert a + b == b;
    } else {
      BytesCat(a[1..], b);
      assert (a + b)[1..] == a[1..] + b;
    }
  }

  /** `len` of a string. */
  lemma {:induction false} LengthIsBytes(s: string)
    ensures Utf8Length(s) == |Bytes(s)|
    decreases |s|
  {
    hide Encoded;
    if s != "" {
      var front, last := s[..|s| - 1], s[|s| - 1];
      LengthIsBytes(front);
      BytesCat(front, [last]);
      assert s == front + [last];
      assert Bytes([last]) == Encoded(last) + [];
    }
  }

  /** A key is valid if it has 1 to 1024 bytes and each segment between slashes is a valid
      name, or the last one empty. */
  lemma ValidKeyMeans(segments: seq<string>)
    requires segments != [] && SlashFree(segments)
    ensures var key := Join(segments);
      ValidKey(key) <==>
        1 <= |Bytes(key)| <= 1024 &&
        forall i | 0 <= i < |segments| :: ValidName(segments[i]) || (segments[i] == "" && i == |segments| - 1)
  {
    hide ValidName, Encoded;
    SplitJoin(segments);
    LengthIsBytes(Join(segments));
  }
}
