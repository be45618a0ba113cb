/** The aws-chunked decoder: `awsChunkReader.Read` and `nextChunk`. */
module AwsChunked {
  import opened Wrappers
  import opened Bytes
  import opened Numerals
  import opened Text

  // ---- the chunk header ----

  /** Bytes as the code units of a Go string. */
  function Units(b: ByteString): string {
    seq(|b|, i requires 0 <= i < |b| => b[i] as int as char)
  }

  function TrimLineEnd(s: string): string {
    if s != "" && (s[|s| - 1] == '\r' || s[|s| - 1] == '\n') then TrimLineEnd(s[..|s| - 1]) else s
  }

  /** The UTF-8 forms of the spaces outside ASCII. */
  predicate WideSpace(s: string) {
    || s == ['\U{C2}', '\U{85}'] || s == ['\U{C2}', '\U{A0}'] || s == ['\U{E1}', '\U{9A}', '\U{80}']
    || (|s| == 3 && s[0] == '\U{E2}' && s[1] == '\U{80}' &&
      ('\U{80}' <= s[2] <= '\U{8A}' || s[2] == '\U{A8}' || s[2] == '\U{A9}' || s[2] == '\U{AF}'))
    || s == ['\U{E2}', '\U{81}', '\U{9F}'] || s == ['\U{E3}', '\U{80}', '\U{80}']
  }

  predicate AsciiSpace(c: char) {
    c in ['\t', '\n', '\U{0B}', '\U{0C}', '\r', ' ']
  }

  function TrimFront(s: string): string {
    if s != "" && AsciiSpace(s[0]) then TrimFront(s[1..])
    else if |s| >= 2 && WideSpace(s[..2]) then TrimFront(s[2..])
    else if |s| >= 3 && WideSpace(s[..3]) then TrimFront(s[3..])
    else s
  }

  function TrimBack(s: string): string {
    if s != "" && AsciiSpace(s[|s| - 1]) then TrimBack(s[..|s| - 1])
    else if |s| >= 2 && WideSpace(s[|s| - 2..]) then TrimBack(s[..|s| - 2])
    else if |s| >= 3 && WideSpace(s[|s| - 3..]) then TrimBack(s[..|s| - 3])
    else s
  }

  /** The text before the semicolon. */
  function SizeField(text: string): string {
    match Cut(text, ';') case None => text case Some((before, _)) => before
  }

  /** The size a header line announces, with its line end still on. */
  function SizeOf(line: ByteString): Option<int> {
    ParseInt(TrimBack(TrimFront(SizeField(TrimLineEnd(Units(line))))), 16)
  }

  const NEWLINE: Byte := 10

  /** `ReadString('\n')`: the line with its newline, and what follows. */
  function Line(s: ByteString): Option<(ByteString, ByteString)> {
    if s == [] then None
    else if s[0] == NEWLINE then Some(([s[0]], s[1..]))
    else
      match Line(s[1..])
      case None => None
      case Some((line, rest)) => Some(([s[0]] + line, rest))
  }

  lemma {:induction false} LineSplits(s: ByteString)
    ensures Line(s).None? <==> NEWLINE !in s
    ensures Line(s).Some? ==> s == Line(s).value.0 + Line(s).value.1 && Line(s).value.0 != []
    decreases |s|
  {
    if s != [] && s[0] != NEWLINE {
      LineSplits(s[1..]);
      assert s == [s[0]] + s[1..];
    }
  }

  lemma {:induction false} LineIs(h: ByteString, rest: ByteString)
    requires NEWLINE !in h
    ensures Line(h + [NEWLINE] + rest) == Some((h + [NEWLINE], rest))
    decreases |h|
  {
    var s := h + [NEWLINE] + rest;
    if h == [] {
      assert s == [NEWLINE] + rest;
      assert s[1..] == rest && h + [NEWLINE] == [s[0]];
    } else {
      LineIs(h[1..], rest);
      assert s[1..] == h[1..] + [NEWLINE] + rest;
      assert h == [h[0]] + h[1..];
      assert [h[0]] + (h[1..] + [NEWLINE]) == h + [NEWLINE];
    }
  }

  // ---- what a body decodes to ----

  /** How the stream ends: cleanly, in an error, or in the panic of an allocation whose
      size is negative or beyond what the runtime can allocate. */
  datatype End = Clean | Error | Panic

  /** `Discard(2)`. */
  function Discard2(s: ByteString): ByteString {
    if |s| < 2 then [] else s[2..]
  }

  /** `limit` is the largest buffer the runtime can allocate. */
  function Decode(s: ByteString, limit: nat): (ByteString, End)
    decreases |s|
  {
    match Line(s)
    case None => ([], Error)
    case Some((line, rest)) =>
      LineSplits(s);
      match SizeOf(line)
      case None => ([], Error)
      case Some(n) =>
        if n == 0 then ([], Clean)
        else if n < 0 || n > limit then ([], Panic)
        else if |rest| < n then ([], Error)
        else
          var (payload, end) := Decode(Discard2(rest[n..]), limit);
          (rest[..n] + payload, end)
  }

  datatype Outcome = Data(bytes: ByteString) | Eof | Failed | Panicked

  class AwsChunkReader {
    const limit: nat
    var rest: ByteString
    var buf: ByteString
    var eof: bool

    constructor (body: ByteString, limit: nat)
      ensures Remaining() == Decode(body, limit).0 && Ending() == Decode(body, limit).1
    {
      hide Decode;
      this.limit := limit;
      rest, buf, eof := body, [], false;
      new;
      assert [] + Decode(body, limit).0 == Decode(body, limit).0;
    }

    /** The payload still to be delivered. */
    ghost function Remaining(): ByteString
      reads this
    {
      if eof then [] else buf + Decode(rest, limit).0
    }

    ghost function Ending(): End
      reads this
    {
      if eof then Clean else Decode(rest, limit).1
    }

    /** One `Read` into a buffer of `n` bytes: it delivers the next stretch of the
        payload, something whenever there is room; it reports the end only when
        everything was delivered, and a clean end only for a clean body. */
    method Read(n: nat) returns (r: Outcome)
      modifies this
      ensures r.Data? ==>
        && old(Remaining()) == r.bytes + Remaining() && Ending() == old(Ending())
        && |r.bytes| <= n && (n > 0 ==> r.bytes != [])
      ensures r.Eof? ==> old(Remaining()) == [] == Remaining() && old(Ending()) == Clean == Ending()
      ensures r.Failed? ==> old(Remaining()) == [] && old(Ending()) == Error
      ensures r.Panicked? ==> old(Remaining()) == [] && old(Ending()) == Panic
    {
      hide Decode;
      if eof {
        return Eof;
      }
      if |buf| == 0 {
        var next := NextChunk();
        if next == Failed || next == Panicked {
          return next;
        }
        if eof {
          return Eof;
        }
      }
      var k := if n < |buf| then n else |buf|;
      r := Data(buf[..k]);
      TakeDrop(buf, k, Decode(rest, limit).0);
      buf := buf[k..];
    }

    /** `nextChunk`: a data chunk in the buffer, the end, or an error. */
    method NextChunk() returns (r: Outcome)
      requires !eof && buf == []
      modifies this
      ensures r == Data([]) || r == Failed || r == Panicked
      ensures r == Data([]) ==> Remaining() == old(Remaining()) && Ending() == old(Ending()) && (eof || buf != [])
      ensures r == Failed ==> old(Remaining()) == [] && old(Ending()) == Error
      ensures r == Panicked ==> old(Remaining()) == [] && old(Ending()) == Panic
    {
      LineSplits(rest);
      var line := Line(rest);
      if line.None? {
        rest := [];
        return Failed;
      }
      rest := line.value.1;
      var size := SizeOf(line.value.0);
      if size.None? {
        return Failed;
      }
      if size.value == 0 {
        rest := Discard2(rest);
        eof := true;
        return Data([]);
      }
      if size.value < 0 || size.value > limit {
        return Panicked;
      }
      if |rest| < size.value {
        rest := [];
        return Failed;
      }
      buf := rest[..size.value];
      rest := Discard2(rest[size.value..]);
      r := Data([]);
    }
  }

  lemma Nothing(a: ByteString)
    ensures [] + a == a
  {}

  lemma NothingLeft(a: ByteString, b: ByteString)
    ensures b == [] ==> a + b == a
  {}

  lemma Regroup(a: ByteString, b: ByteString, c: ByteString)
    ensures a + (b + c) == a + b + c
  {}

  lemma TakeDrop(a: ByteString, k: nat, b: ByteString)
    requires k <= |a|
    ensures a[..k] + (a[k..] + b) == a + b
  {}

  /** Reading with any buffers, each with some room: what comes out before the end of
      file is the decoded payload, all of it, and an end of file means a clean body. */
  method ReadWith(c: AwsChunkReader, sizes: seq<nat>) returns (got: ByteString, last: Outcome)
    requires forall i | 0 <= i < |sizes| :: sizes[i] > 0
    modifies c
    ensures last.Data? ==> old(c.Remaining()) == got + c.Remaining() && |got| >= |sizes|
    ensures last.Eof? ==> got == old(c.Remaining()) && old(c.Ending()) == Clean
    ensures last.Failed? ==> got == old(c.Remaining()) && old(c.Ending()) == Error
    ensures last.Panicked? ==> got == old(c.Remaining()) && old(c.Ending()) == Panic
    ensures |sizes| > |old(c.Remaining())| ==> !last.Data?
  {
    hide Decode;
    got := [];
    last := Data([]);
    var i := 0;
    ghost var all := c.Remaining();
    Nothing(all);
    while i < |sizes|
      invariant 0 <= i <= |sizes| && last.Data?
      invariant old(c.Remaining()) == got + c.Remaining() && c.Ending() == old(c.Ending()) && |got| >= i
    {
      ghost var left := c.Remaining();
      last := c.Read(sizes[i]);
      if !last.Data? {
        NothingLeft(got, left);
        return;
      }
      Regroup(got, last.bytes, c.Remaining());
      got := got + last.bytes;
      i := i + 1;
    }
  }

  // ---- framing ----

  /** A data chunk: its header line without the newline, its data, and the two bytes after it. */
  datatype Frame = Frame(header: ByteString, data: ByteString, tail: ByteString)

  /** A frame that the runtime has room for. */
  ghost predicate Framed(f: Frame, limit: nat) {
    NEWLINE !in f.header && f.data != [] && |f.data| <= limit && SizeOf(f.header + [NEWLINE]) == Some(|f.data|) &&
      |f.tail| == 2
  }

  ghost predicate Closing(header: ByteString) {
    NEWLINE !in header && SizeOf(header + [NEWLINE]) == Some(0)
  }

  function Encode(frames: seq<Frame>, closing: ByteString): ByteString {
    if frames == [] then closing + [NEWLINE]
    else frames[0].header + [NEWLINE] + (frames[0].data + frames[0].tail + Encode(frames[1..], closing))
  }

  function Payload(frames: seq<Frame>): ByteString {
    if frames == [] then [] else frames[0].data + Payload(frames[1..])
  }

  /** Whatever the framing and whatever follows the closing header, the body decodes
      to the concatenation of the data. */
  lemma {:induction false} DecodeEncode(frames: seq<Frame>, closing: ByteString, trailer: ByteString, limit: nat)
    requires (forall f | f in frames :: Framed(f, limit)) && Closing(closing)
    ensures Decode(Encode(frames, closing) + trailer, limit) == (Payload(frames), Clean)
    decreases |frames|
  {
    hide SizeOf;
    if frames == [] {
      LineIs(closing, trailer);
    } else {
      hide Decode;
      var f := frames[0];
      assert Framed(f, limit);
      var after := Encode(frames[1..], closing) + trailer;
      assert Encode(frames, closing) + trailer == f.header + [NEWLINE] + (f.data + f.tail + after);
      DecodeFrame(f, after, limit);
      DecodeEncode(frames[1..], closing, trailer, limit);
    }
  }

  lemma DecodeFrame(f: Frame, after: ByteString, limit: nat)
    requires Framed(f, limit)
    ensures Decode(f.header + [NEWLINE] + (f.data + f.tail + after), limit) ==
            (f.data + Decode(after, limit).0, Decode(after, limit).1)
  {
    hide SizeOf, Line;
    var rest := f.data + f.tail + after;
    LineIs(f.header, rest);
    assert rest[..|f.data|] == f.data;
    assert rest[|f.data|..] == f.tail + after;
    assert Discard2(f.tail + after) == after;
  }

  /** A body cut anywhere before the end of its closing header ends in an error. */
  lemma {:induction false} CutIsError(frames: seq<Frame>, closing: ByteString, k: nat, limit: nat)
    requires (forall f | f in frames :: Framed(f, limit)) && Closing(closing)
    requires k < |Encode(frames, closing)|
    ensures Decode(Encode(frames, closing)[..k], limit).1 == Error
    decreases |frames|
  {
    hide SizeOf;
    var body := Encode(frames, closing);
    var s := body[..k];
    if frames == [] {
      NoLine(closing, k, limit);
    } else {
      var f := frames[0];
      assert Framed(f, limit);
      var more := Encode(frames[1..], closing);
      var after := f.data + f.tail + more;
      var h := |f.header| + 1;
      if k < h {
        assert s == (f.header + [NEWLINE])[..k];
        NoLine(f.header, k, limit);
      } else {
        var rest := after[..k - h];
        assert s == f.header + [NEWLINE] + rest;
        LineIs(f.header, rest);
        if |f.data| <= k - h {
          var m := k - h - |f.data|;
          if m < 2 {
            assert Discard2(rest[|f.data|..]) == [];
          } else {
            assert Discard2(rest[|f.data|..]) == more[..m - 2];
            CutIsError(frames[1..], closing, m - 2, limit);
          }
        }
      }
    }
  }

  lemma NoLine(h: ByteString, k: nat, limit: nat)
    requires NEWLINE !in h && k <= |h|
    ensures Decode((h + [NEWLINE])[..k], limit) == ([], Error)
  {
    var s := (h + [NEWLINE])[..k];
    assert s == h[..k];
    LineSplits(s);
  }

  // ---- the framing clients use ----

  /** `<hex size>;<extension>\r`. */
  function StandardHeader(n: nat, extension: ByteString): ByteString {
    Octets(Format(n, 16)) + [59] + extension + [13]
  }

  function Octets(s: string): ByteString {
    seq(|s|, i requires 0 <= i < |s| => if s[i] as int < 256 then s[i] as int as Byte else 0)
  }

  lemma OctetsUnits(s: string)
    requires forall i | 0 <= i < |s| :: s[i] as int < 256
    ensures Units(Octets(s)) == s
  {}

  lemma HexChars(s: string, i: nat)
    requires i < |s| && DigitValue(s[i]) < 16
    ensures s[i] as int < 128 && s[i] != ';' && s[i] != '\n' && s[i] != '\r' && !AsciiSpace(s[i])
  {
    var c := s[i];
    assert DigitValue(';') == 36 && DigitValue('\n') == 36 && DigitValue('\r') == 36 && DigitValue('\t') == 36 &&
      DigitValue(' ') == 36;
    assert DigitValue('\U{0B}') == 36 && DigitValue('\U{0C}') == 36;
    assert '0' <= c <= '9' || 'a' <= c <= 'z' || 'A' <= c <= 'Z';
  }

  /** Hexadecimal digits of either case. */
  predicate Hex(s: string) {
    s != "" && AllDigits(s, 16)
  }

  lemma HexPlain(hex: string)
    requires Hex(hex)
    ensures forall i | 0 <= i < |hex| ::
      hex[i] as int < 128 && hex[i] != ';' && hex[i] != '\n' && hex[i] != '\r' && !AsciiSpace(hex[i])
    ensures Units(Octets(hex)) == hex && NEWLINE !in Octets(hex) && hex[0] != '+' && hex[0] != '-'
  {
    forall i | 0 <= i < |hex|
      ensures hex[i] as int < 128 && hex[i] != ';' && hex[i] != '\n' && hex[i] != '\r' && !AsciiSpace(hex[i])
    {
      HexChars(hex, i);
    }
    OctetsUnits(hex);
    assert DigitValue('+') == 36 && DigitValue('-') == 36;
    forall i | 0 <= i < |hex| ensures Octets(hex)[i] != NEWLINE {
      assert Octets(hex)[i] == hex[i] as int as Byte;
    }
  }

  lemma HexParses(hex: string)
    requires Hex(hex) && Value(hex, 16) <= MAX_INT64
    ensures ParseInt(hex, 16) == Some(Value(hex, 16))
  {
    HexPlain(hex);
  }

  /** A line of hexadecimal digits, and any extension after a semicolon, announces their
      value: with CRLF or LF at its end, with the extension or without. */
  lemma HexHeader(hex: string, extension: ByteString)
    requires Hex(hex) && Value(hex, 16) <= MAX_INT64
    ensures SizeOf(Octets(hex) + [59] + extension + [13] + [NEWLINE]) == Some(Value(hex, 16))
    ensures SizeOf(Octets(hex) + [13] + [NEWLINE]) == Some(Value(hex, 16))
    ensures SizeOf(Octets(hex) + [NEWLINE]) == Some(Value(hex, 16))
  {
    hide ParseInt, Value, Hex;
    HexPlain(hex);
    HexParses(hex);
    HexTrims(hex);
    ExtendedLine(hex, extension);
    PlainLine(hex, []);
    PlainLine(hex, [13]);
    assert Octets(hex) + [] + [NEWLINE] == Octets(hex) + [NEWLINE];
  }

  lemma HexTrims(hex: string)
    requires Hex(hex)
    ensures TrimBack(TrimFront(hex)) == hex
  {
    HexPlain(hex);
    TrimNothing(hex);
  }

  lemma ExtendedLine(hex: string, extension: ByteString)
    requires Hex(hex)
    ensures SizeField(TrimLineEnd(Units(Octets(hex) + [59] + extension + [13] + [NEWLINE]))) == hex
  {
    HexPlain(hex);
    var line := Octets(hex) + [59] + extension + [13] + [NEWLINE];
    var ext := Units(extension);
    assert Units(line) == hex + [';'] + (ext + ['\r', '\n']);
    TrimEndKeeps(hex + [';'], ext + ['\r', '\n']);
    var rest :| TrimLineEnd(Units(line)) == hex + [';'] + rest;
    CutAt(hex, ';', rest);
  }

  lemma PlainLine(hex: string, end: ByteString)
    requires Hex(hex) && (end == [] || end == [13])
    ensures SizeField(TrimLineEnd(Units(Octets(hex) + end + [NEWLINE]))) == hex
  {
    HexPlain(hex);
    var text := Units(Octets(hex) + end + [NEWLINE]);
    assert text == hex + Units(end) + ['\n'];
    assert text[..|text| - 1] == hex + Units(end);
    if end == [13] {
      assert hex + Units(end) == hex + ['\r'];
      assert (hex + ['\r'])[..|hex|] == hex;
    } else {
      assert hex + Units(end) == hex;
    }
    assert TrimLineEnd(hex) == hex;
    assert TrimLineEnd(text) == hex;
    NotIn(hex, ';');
    CutIs(hex, ';');
  }

  lemma NotIn(s: string, c: char)
    requires forall i | 0 <= i < |s| :: s[i] != c
    ensures c !in s
  {}

  /** Upper and lower case digits stand for the same number. */
  lemma {:induction false} SameDigits(a: string, b: string)
    requires |a| == |b| && forall i | 0 <= i < |a| :: DigitValue(a[i]) == DigitValue(b[i])
    ensures Value(a, 16) == Value(b, 16) && (AllDigits(a, 16) <==> AllDigits(b, 16))
    decreases |a|
  {
    hide DigitValue;
    if a != "" {
      SameDigits(a[..|a| - 1], b[..|b| - 1]);
    }
  }

  /** The number `n` in hexadecimal, each letter in either case. */
  predicate WritesHex(hex: string, n: nat) {
    && |hex| == |Format(n, 16)|
    && forall i | 0 <= i < |hex| :: DigitValue(hex[i]) == DigitValue(Format(n, 16)[i])
  }

  /** The header a client sends for `n` bytes announces `n`: digits in either case, with any
      extension on one line or with none. */
  lemma StandardHeaderFrames(n: nat, hex: string, extension: ByteString)
    requires n <= MAX_INT64 && WritesHex(hex, n) && NEWLINE !in extension
    ensures NEWLINE !in Octets(hex) + [59] + extension + [13]
    ensures SizeOf(Octets(hex) + [59] + extension + [13] + [NEWLINE]) == Some(n)
    ensures SizeOf(Octets(hex) + [13] + [NEWLINE]) == Some(n)
    ensures SizeOf(StandardHeader(n, extension) + [NEWLINE]) == Some(n)
  {
    hide ParseInt, Value, DigitValue, SizeOf;
    FormatDigits(n, 16);
    SameDigits(hex, Format(n, 16));
    HexHeader(hex, extension);
    HexHeader(Format(n, 16), extension);
    HexPlain(hex);
    var line := Octets(hex) + [59] + extension + [13];
    forall i | 0 <= i < |line| ensures line[i] != NEWLINE {
      if i < |hex| {
        assert line[i] == Octets(hex)[i] && Octets(hex)[i] in Octets(hex);
      } else if i > |hex| && i <= |hex| + |extension| {
        assert line[i] == extension[i - |hex| - 1];
      }
    }
  }

  lemma {:induction false} TrimEndKeeps(a: string, b: string)
    requires a != "" && a[|a| - 1] != '\r' && a[|a| - 1] != '\n'
    ensures exists rest :: TrimLineEnd(a + b) == a + rest
    decreases |b|
  {
    var s := a + b;
    if b == "" {
      assert s == a;
      assert TrimLineEnd(s) == a + "";
    } else if s[|s| - 1] == '\r' || s[|s| - 1] == '\n' {
      assert s[..|s| - 1] == a + b[..|b| - 1];
      TrimEndKeeps(a, b[..|b| - 1]);
    } else {
      assert TrimLineEnd(s) == a + b;
    }
  }

  lemma TrimNothing(s: string)
    requires s != "" && forall i | 0 <= i < |s| :: s[i] as int < 128 && !AsciiSpace(s[i])
    ensures TrimBack(TrimFront(s)) == s
  {
    hide TrimFront, TrimBack, AsciiSpace;
    TrimFrontNothing(s);
    TrimBackNothing(s);
  }

  lemma TrimFrontNothing(s: string)
    requires s != "" && s[0] as int < 128 && !AsciiSpace(s[0])
    ensures TrimFront(s) == s
  {
    hide AsciiSpace, WideSpace, TrimBack;
    if |s| >= 2 {
      WideIsWide(s[..2]);
    }
    if |s| >= 3 {
      WideIsWide(s[..3]);
    }
  }

  lemma TrimBackNothing(s: string)
    requires s != "" && s[|s| - 1] as int < 128 && !AsciiSpace(s[|s| - 1])
    ensures TrimBack(s) == s
  {
    hide AsciiSpace, WideSpace, TrimFront;
    if |s| >= 2 {
      WideIsWide(s[|s| - 2..]);
    }
    if |s| >= 3 {
      WideIsWide(s[|s| - 3..]);
    }
  }

  lemma WideIsWide(w: string)
    ensures WideSpace(w) ==> w != "" && w[0] as int >= 128 && w[|w| - 1] as int >= 128
  {}
}
