/** SRT captions: `ParseSRT` and `GenerateSRT`, with times in whole milliseconds. */
module Captions {
  import opened Wrappers
  import opened Numerals
  import opened Text

  datatype Caption = Caption(index: int, start: int, end: int, text: string)

  // ---- times ----

  function Zeros(n: nat): string {
    seq(n, _ => '0')
  }

  /** `%0<width>d`. */
  function Padded(n: nat, width: nat): string {
    var s := Format(n, 10);
    if |s| >= width then s else Zeros(width - |s|) + s
  }

  function FormatTime(t: int): string {
    var ms := if t < 0 then 0 else t;
    var sec := ms / 1000;
    var min := sec / 60;
    Padded(min / 60, 2) + ":" + Padded(min % 60, 2) + ":" + Padded(sec % 60, 2) + "," + Padded(ms % 1000, 3)
  }

  function PadRight(s: string, n: nat): string {
    if |s| >= n then s[..n] else s + Zeros(n - |s|)
  }

  function Clock(h: int, m: int, s: int, ms: int): int {
    (h * 3600 + m * 60 + s) * 1000 + ms
  }

  function ParseTime(text: string): Option<int> {
    var s := SplitText(TrimSpace(text), " ")[0];
    var main := SplitText(s, ",");
    if |main| != 2 then None
    else
      var hms := SplitText(main[0], ":");
      if |hms| != 3 then None
      else
        match (ParseInt(hms[0], 10), ParseInt(hms[1], 10), ParseInt(hms[2], 10), ParseInt(PadRight(main[1], 3), 10))
        case (Some(h), Some(m), Some(sec), Some(ms)) => Some(Clock(h, m, sec, ms))
        case (_, _, _, _) => None
  }

  // ---- parsing ----

  /** The two replacements that make every line end a newline. */
  function NormalizeEnds(s: string): string {
    if s == "" then ""
    else if s[0] == '\r' then "\n" + NormalizeEnds(if |s| > 1 && s[1] == '\n' then s[2..] else s[1..])
    else [s[0]] + NormalizeEnds(s[1..])
  }

  function Compact(lines: seq<string>): seq<string> {
    if lines == [] then []
    else
      var line := TrimSpace(lines[|lines| - 1]);
      Compact(lines[..|lines| - 1]) + (if line == "" then [] else [line])
  }

  function Unlines(lines: seq<string>): string {
    if lines == [] then "" else if |lines| == 1 then lines[0] else lines[0] + "\n" + Unlines(lines[1..])
  }

  datatype Block = Nothing | Bad | One(caption: Caption)

  function LinesOf(block: string): seq<string> {
    Compact(SplitText(TrimSpace(block), "\n"))
  }

  /** One block of the file; `count` captions came before it. */
  function ParseLines(lines: seq<string>, count: nat): Block {
    if lines == [] then Nothing
    else
      var index := ParseInt(lines[0], 10);
      var at := if index.Some? then 1 else 0;
      if |lines| <= at then Nothing
      else
        var parts := SplitText(lines[at], "-->");
        if |parts| != 2 then Bad
        else
          match (ParseTime(parts[0]), ParseTime(parts[1]))
          case (Some(start), Some(end)) =>
            var text := TrimSpace(Unlines(lines[at + 1..]));
            if end <= start then Bad
            else if text == "" then Nothing
            else One(Caption(if index.Some? then index.value else count + 1, start, end, text))
          case (_, _) => Bad
  }

  function ParseBlocks(blocks: seq<string>): Option<seq<Caption>> {
    if blocks == [] then Some([])
    else
      match ParseBlocks(blocks[..|blocks| - 1])
      case None => None
      case Some(before) =>
        match ParseLines(LinesOf(blocks[|blocks| - 1]), |before|)
        case Nothing => Some(before)
        case Bad => None
        case One(c) => Some(before + [c])
  }

  function Parsed(data: string): Option<seq<Caption>> {
    ParseBlocks(SplitText(NormalizeEnds(data), "\n\n"))
  }

  method CompactLines(lines: seq<string>) returns (out: seq<string>)
    ensures out == Compact(lines)
  {
    out := [];
    var i := 0;
    while i < |lines|
      invariant 0 <= i <= |lines| && out == Compact(lines[..i])
    {
      assert lines[..i + 1][..i] == lines[..i];
      var line := TrimSpace(lines[i]);
      if line != "" {
        out := out + [line];
      }
      i := i + 1;
    }
    assert lines[..i] == lines;
  }

  /** One round of the loop over the blocks. */
  method ParseBlock(lines: seq<string>, count: nat) returns (r: Block)
    ensures r == ParseLines(lines, count)
  {
    hide ParseTime, SplitText, ParseInt, TrimSpace, Unlines;
    if |lines| == 0 {
      return Nothing;
    }
    var index: int := count + 1;
    var timeLineAt := 0;
    var n := ParseInt(lines[0], 10);
    if n.Some? {
      index := n.value;
      timeLineAt := 1;
    }
    if |lines| <= timeLineAt {
      return Nothing;
    }
    var parts := SplitText(lines[timeLineAt], "-->");
    if |parts| != 2 {
      return Bad;
    }
    var start := ParseTime(parts[0]);
    if start.None? {
      return Bad;
    }
    var end := ParseTime(parts[1]);
    if end.None? || end.value <= start.value {
      return Bad;
    }
    var text := TrimSpace(Unlines(lines[timeLineAt + 1..]));
    if text == "" {
      return Nothing;
    }
    r := One(Caption(index, start.value, end.value, text));
  }

  method ParseSRT(data: string) returns (r: Option<seq<Caption>>)
    ensures r == Parsed(data)
  {
    hide ParseTime, LinesOf, ParseBlocks, ParseLines, NormalizeEnds, SplitText, TrimSpace, Compact;
    var blocks := SplitText(NormalizeEnds(data), "\n\n");
    var captions: seq<Caption> := [];
    var i := 0;
    NoBlocks(blocks);
    while i < |blocks|
      invariant 0 <= i <= |blocks| && ParseBlocks(blocks[..i]) == Some(captions)
    {
      BlocksStep(blocks, i);
      LinesAre(blocks[i]);
      var lines := CompactLines(SplitText(TrimSpace(blocks[i]), "\n"));
      var block := ParseBlock(lines, |captions|);
      match block {
        case Nothing =>
        case Bad =>
          StaysBad(blocks, i + 1);
          return None;
        case One(c) =>
          captions := captions + [c];
      }
      i := i + 1;
    }
    assert blocks[..i] == blocks;
    r := Some(captions);
  }

  lemma NoBlocks(blocks: seq<string>)
    ensures ParseBlocks(blocks[..0]) == Some([])
  {}

  lemma LinesAre(block: string)
    ensures LinesOf(block) == Compact(SplitText(TrimSpace(block), "\n"))
  {}

  lemma BlocksStep(blocks: seq<string>, i: nat)
    requires i < |blocks|
    ensures ParseBlocks(blocks[..i + 1]) ==
            match ParseBlocks(blocks[..i])
            case None => None
            case Some(before) =>
              (match ParseLines(LinesOf(blocks[i]), |before|)
               case Nothing => Some(before)
               case Bad => None
               case One(c) => Some(before + [c]))
  {
    assert blocks[..i + 1][..i] == blocks[..i];
  }

  lemma {:induction false} StaysBad(blocks: seq<string>, i: nat)
    requires i <= |blocks| && ParseBlocks(blocks[..i]) == None
    ensures ParseBlocks(blocks) == None
    decreases |blocks| - i
  {
    if i < |blocks| {
      BlocksStep(blocks, i);
      StaysBad(blocks, i + 1);
    } else {
      assert blocks[..i] == blocks;
    }
  }

  // ---- printing ----

  function IndexAt(c: Caption, i: nat): nat {
    if c.index <= 0 then i + 1 else c.index
  }

  /** A caption without its last newline. */
  function Printed(c: Caption, i: nat): string {
    Format(IndexAt(c, i), 10) + "\n" + FormatTime(c.start) + " --> " + FormatTime(c.end) + "\n" + TrimSpace(c.text)
  }

  function Generated(cs: seq<Caption>): string {
    if cs == [] then ""
    else
      var i := |cs| - 1;
      Generated(cs[..i]) + (if i > 0 then "\n" else "") + Printed(cs[i], i) + "\n"
  }

  method GenerateSRT(cs: seq<Caption>) returns (b: string)
    ensures b == Generated(cs)
  {
    hide Printed, Generated;
    b := "";
    var i := 0;
    assert b == Generated(cs[..i]) by { NothingGenerated(cs); }
    while i < |cs|
      invariant 0 <= i <= |cs| && b == Generated(cs[..i])
    {
      GeneratedStep(cs, i);
      if i > 0 {
        b := b + "\n";
      } else {
        assert b + "" == b;
      }
      b := WriteCaption(b, cs[i], i);
      i := i + 1;
    }
    assert cs[..i] == cs;
  }

  method WriteCaption(b0: string, c: Caption, i: nat) returns (b: string)
    ensures b == b0 + Printed(c, i) + "\n"
  {
    hide Format, FormatTime, TrimSpace;
    var index := c.index;
    if index <= 0 {
      index := i + 1;
    }
    b := Format(index, 10);
    b := b + "\n";
    b := b + FormatTime(c.start);
    b := b + " --> ";
    b := b + FormatTime(c.end);
    b := b + "\n";
    b := b + TrimSpace(c.text);
    assert b == Printed(c, i);
    b := b0 + b + "\n";
  }

  lemma NothingGenerated(cs: seq<Caption>)
    ensures Generated(cs[..0]) == ""
  {}

  lemma GeneratedStep(cs: seq<Caption>, i: nat)
    requires i < |cs|
    ensures Generated(cs[..i + 1]) == Generated(cs[..i]) + (if i > 0 then "\n" else "") + Printed(cs[i], i) + "\n"
  {
    assert cs[..i + 1][..i] == cs[..i];
  }

  // ---- digits ----

  predicate Digit(c: char) {
    '0' <= c <= '9'
  }

  predicate Digits(s: string) {
    s != "" && forall i | 0 <= i < |s| :: Digit(s[i])
  }

  lemma {:induction false} FormatIsDigits(n: nat)
    ensures Digits(Format(n, 10))
    decreases n
  {
    if n < 10 {
      assert DIGITS[n] == '0' + n as char;
    } else {
      FormatIsDigits(n / 10);
      assert DIGITS[n % 10] == '0' + (n % 10) as char;
    }
  }

  lemma PaddedIsDigits(n: nat, width: nat)
    ensures Digits(Padded(n, width))
  {
    FormatIsDigits(n);
  }

  lemma {:induction false} ZeroValue(k: nat, s: string)
    requires AllDigits(s, 10)
    ensures AllDigits(Zeros(k) + s, 10) && Value(Zeros(k) + s, 10) == Value(s, 10)
    decreases |s| + k
  {
    var z := Zeros(k) + s;
    assert DigitValue('0') == 0;
    if s != "" {
      assert z[..|z| - 1] == Zeros(k) + s[..|s| - 1];
      ZeroValue(k, s[..|s| - 1]);
    } else if k > 0 {
      assert z[..|z| - 1] == Zeros(k - 1) + s;
      ZeroValue(k - 1, s);
    } else {
      assert z == s;
    }
  }

  /** Leading zeros are read back. */
  lemma PaddedParses(n: nat, width: nat)
    requires n <= MAX_INT64
    ensures ParseInt(Padded(n, width), 10) == Some(n)
  {
    FormatDigits(n, 10);
    PaddedIsDigits(n, width);
    if |Format(n, 10)| < width {
      ZeroValue(width - |Format(n, 10)|, Format(n, 10));
    }
    var s := Padded(n, width);
    assert Digit(s[0]);
    assert AllDigits(s, 10) && Value(s, 10) == n;
  }

  lemma ThreeDigits(n: nat)
    requires n < 1000
    ensures |Padded(n, 3)| == 3
  {
    if n >= 10 {
      assert Format(n, 10) == Format(n / 10, 10) + [DigitChar(n % 10)];
      if n >= 100 {
        assert n / 10 / 10 < 10;
        assert Format(n / 10, 10) == Format(n / 10 / 10, 10) + [DigitChar(n / 10 % 10)];
      }
    }
  }

  // ---- times read back ----

  predicate TimeChar(c: char) {
    Digit(c) || c == ':' || c == ','
  }

  lemma NoSep(a: string, c: char, rest: string)
    requires c !in a
    ensures StartsFirst(a, [c], rest)
  {
    forall i | 0 <= i < |a| ensures !([c] <= (a + [c] + rest)[i..]) {
      assert (a + [c] + rest)[i] == a[i];
      assert a[i] in a;
    }
  }

  lemma SplitAtChar(a: string, c: char, rest: string)
    requires c !in a
    ensures SplitText(a + [c] + rest, [c]) == [a] + SplitText(rest, [c])
  {
    NoSep(a, c, rest);
    SplitTextAt(a, [c], rest);
  }

  lemma SplitNoChar(a: string, c: char)
    requires c !in a
    ensures SplitText(a, [c]) == [a]
  {
    forall i | 0 <= i <= |a| ensures !([c] <= a[i..]) {
      assert i < |a| ==> a[i] in a;
    }
    SplitTextNone(a, [c]);
  }

  lemma DigitsHaveNo(s: string, c: char)
    requires Digits(s) && !Digit(c)
    ensures c !in s
  {}

  lemma TimeOf(t: nat)
    ensures var sec := t / 1000; var min := sec / 60;
      Clock(min / 60, min % 60, sec % 60, t % 1000) == t
  {
    var sec := t / 1000;
    var min := sec / 60;
    assert min == min / 60 * 60 + min % 60;
    assert sec == min * 60 + sec % 60;
    assert t == sec * 1000 + t % 1000;
  }

  /** A printed time, with or without spaces around it, is read back. */
  lemma TimeParses(t: nat, text: string)
    requires t <= MAX_INT64 && TrimSpace(text) == FormatTime(t)
    ensures ParseTime(text) == Some(t)
  {
    hide Padded, SplitText, ParseInt, TrimSpace, Digits, Clock;
    var sec := t / 1000;
    var min := sec / 60;
    var h, m, s, ms := Padded(min / 60, 2), Padded(min % 60, 2), Padded(sec % 60, 2), Padded(t % 1000, 3);
    PaddedIsDigits(min / 60, 2);
    PaddedIsDigits(min % 60, 2);
    PaddedIsDigits(sec % 60, 2);
    PaddedIsDigits(t % 1000, 3);
    TimeFields(h, m, s, ms);
    assert FormatTime(t) == h + ":" + m + ":" + s + "," + ms;
    ThreeDigits(t % 1000);
    assert PadRight(ms, 3) == ms;
    PaddedParses(min / 60, 2);
    PaddedParses(min % 60, 2);
    PaddedParses(sec % 60, 2);
    PaddedParses(t % 1000, 3);
    TimeOf(t);
  }

  lemma TimeFields(h: string, m: string, s: string, ms: string)
    requires Digits(h) && Digits(m) && Digits(s) && Digits(ms)
    ensures var t := h + ":" + m + ":" + s + "," + ms;
      && SplitText(t, " ") == [t] && SplitText(t, ",") == [h + ":" + m + ":" + s, ms]
      && SplitText(h + ":" + m + ":" + s, ":") == [h, m, s]
  {
    hide SplitText, Digits;
    var hms := h + ":" + m + ":" + s;
    var t := hms + "," + ms;
    forall c | !Digit(c) ensures c !in h && c !in m && c !in s && c !in ms {
      DigitsHaveNo(h, c);
      DigitsHaveNo(m, c);
      DigitsHaveNo(s, c);
      DigitsHaveNo(ms, c);
    }
    assert !Digit(' ') && !Digit(',') && !Digit(':');
    SplitNoChar(t, ' ');
    SplitAtChar(hms, ',', ms);
    SplitNoChar(ms, ',');
    assert hms == h + [':'] + (m + ":" + s);
    SplitAtChar(h, ':', m + ":" + s);
    SplitAtChar(m, ':', s);
    SplitNoChar(s, ':');
    assert [h] + ([m] + [s]) == [h, m, s];
  }

  lemma TimeChars(t: int)
    ensures FormatTime(t) != "" && forall i | 0 <= i < |FormatTime(t)| :: TimeChar(FormatTime(t)[i])
    ensures Digit(FormatTime(t)[0]) && Digit(FormatTime(t)[|FormatTime(t)| - 1])
  {
    hide Padded;
    var ms := if t < 0 then 0 else t;
    var sec := ms / 1000;
    var min := sec / 60;
    PaddedIsDigits(min / 60, 2);
    PaddedIsDigits(min % 60, 2);
    PaddedIsDigits(sec % 60, 2);
    PaddedIsDigits(ms % 1000, 3);
  }

  // ---- the round trip ----

  /** A line of caption text. */
  ghost predicate TextLine(line: string) {
    line != "" && Trimmed(line) && '\n' !in line && '\r' !in line
  }

  ghost predicate TextLines(lines: seq<string>) {
    lines != [] && forall l | l in lines :: TextLine(l)
  }

  /** A caption a file can carry: a positive index, 0 <= start < end, trimmed lines. */
  ghost predicate Writable(c: Caption) {
    && 0 < c.index <= MAX_INT64 && 0 <= c.start < c.end <= MAX_INT64
    && exists lines :: TextLines(lines) && c.text == Unlines(lines)
  }

  /** No empty line inside, no newline at either end. */
  ghost predicate Solid(s: string) {
    && s != "" && !IsSpace(s[0]) && !IsSpace(s[|s| - 1])
    && (forall i | 0 <= i < |s| - 1 :: !(s[i] == '\n' && s[i + 1] == '\n'))
    && '\r' !in s
  }

  lemma LineIsSolid(line: string)
    requires TextLine(line)
    ensures Solid(line)
  {
    forall i | 0 <= i < |line| ensures line[i] != '\n' { assert line[i] in line; }
  }

  lemma SolidLines(a: string, b: string)
    requires Solid(a) && Solid(b)
    ensures Solid(a + "\n" + b)
  {
    var s := a + "\n" + b;
    assert IsSpace('\n');
    forall i | 0 <= i < |s| - 1 ensures !(s[i] == '\n' && s[i + 1] == '\n') {
      if i + 1 < |a| {
        assert s[i] == a[i] && s[i + 1] == a[i + 1];
      } else if i < |a| {
        assert s[i] == a[|a| - 1];
      } else if i == |a| {
        assert s[i + 1] == b[0];
      } else {
        assert s[i] == b[i - |a| - 1] && s[i + 1] == b[i - |a|];
      }
    }
  }

  lemma {:induction false} UnlinesSolid(lines: seq<string>)
    requires TextLines(lines)
    ensures Solid(Unlines(lines))
    decreases |lines|
  {
    assert lines[0] in lines;
    LineIsSolid(lines[0]);
    if |lines| > 1 {
      assert forall l | l in lines[1..] :: l in lines;
      UnlinesSolid(lines[1..]);
      SolidLines(lines[0], Unlines(lines[1..]));
    }
  }

  lemma {:induction false} UnlinesSplit(lines: seq<string>)
    requires TextLines(lines)
    ensures SplitText(Unlines(lines), "\n") == lines
    decreases |lines|
  {
    hide SplitText;
    assert lines[0] in lines;
    if |lines| == 1 {
      SplitNoChar(lines[0], '\n');
      assert lines == [lines[0]];
    } else {
      assert forall l | l in lines[1..] :: l in lines;
      UnlinesSplit(lines[1..]);
      SplitAtChar(lines[0], '\n', Unlines(lines[1..]));
      assert lines == [lines[0]] + lines[1..];
      assert lines[0] + "\n" + Unlines(lines[1..]) == Unlines(lines);
    }
  }

  lemma {:induction false} CompactKeeps(lines: seq<string>)
    requires forall l | l in lines :: l != "" && Trimmed(l)
    ensures Compact(lines) == lines
    decreases |lines|
  {
    hide TrimSpace, Trimmed;
    if lines != [] {
      var n := |lines| - 1;
      assert lines[n] in lines;
      TrimmedFixed(lines[n]);
      assert forall l | l in lines[..n] :: l in lines;
      CompactKeeps(lines[..n]);
      assert lines == lines[..n] + [lines[n]];
    }
  }

  function TimeLine(c: Caption): string {
    FormatTime(c.start) + " --> " + FormatTime(c.end)
  }

  /** The lines of a printed caption. */
  function BlockLines(c: Caption, lines: seq<string>): seq<string>
    requires c.index > 0
  {
    [Format(c.index, 10), TimeLine(c)] + lines
  }

  lemma IndexLine(n: nat)
    ensures TextLine(Format(n, 10))
  {
    FormatIsDigits(n);
    DigitsHaveNo(Format(n, 10), '\n');
    DigitsHaveNo(Format(n, 10), '\r');
    DigitNotSpace(Format(n, 10)[0]);
    DigitNotSpace(Format(n, 10)[|Format(n, 10)| - 1]);
  }

  lemma DigitNotSpace(c: char)
    requires Digit(c)
    ensures !IsSpace(c)
  {}

  lemma TimeHasNo(t: int, c: char)
    requires !TimeChar(c)
    ensures c !in FormatTime(t)
  {
    TimeChars(t);
  }

  lemma TimeLineIsLine(c: Caption)
    ensures TextLine(TimeLine(c))
  {
    hide FormatTime;
    TimeChars(c.start);
    TimeChars(c.end);
    TimeHasNo(c.start, '\n');
    TimeHasNo(c.start, '\r');
    TimeHasNo(c.end, '\n');
    TimeHasNo(c.end, '\r');
    var s := TimeLine(c);
    assert s[0] == FormatTime(c.start)[0];
    assert s[|s| - 1] == FormatTime(c.end)[|FormatTime(c.end)| - 1];
    DigitNotSpace(s[0]);
    DigitNotSpace(s[|s| - 1]);
  }

  lemma TimeLineSplits(c: Caption)
    ensures SplitText(TimeLine(c), "-->") == [FormatTime(c.start) + " ", " " + FormatTime(c.end)]
  {
    hide FormatTime, SplitText;
    var a, b := FormatTime(c.start) + " ", " " + FormatTime(c.end);
    TimeHasNo(c.start, '-');
    TimeHasNo(c.end, '-');
    assert TimeLine(c) == a + "-->" + b;
    forall i | 0 <= i < |a| ensures !("-->" <= (a + "-->" + b)[i..]) {
      assert (a + "-->" + b)[i] == a[i] && a[i] in a;
    }
    SplitTextAt(a, "-->", b);
    forall i | 0 <= i <= |b| ensures !("-->" <= b[i..]) {
      assert i < |b| ==> b[i] in b;
    }
    SplitTextNone(b, "-->");
  }

  lemma TimeTrims(t: int)
    ensures TrimSpace(FormatTime(t) + " ") == FormatTime(t) && TrimSpace(" " + FormatTime(t)) == FormatTime(t)
  {
    hide FormatTime;
    var s := FormatTime(t);
    TimeChars(t);
    DigitNotSpace(s[0]);
    DigitNotSpace(s[|s| - 1]);
    assert IsSpace(' ');
    assert (" " + s)[1..] == s;
    assert (s + " ")[..|s|] == s;
    assert TrimLeft(s + " ") == s + " ";
    assert TrimRight(s + " ") == TrimRight(s) == s;
    assert TrimLeft(" " + s) == TrimLeft(s) == s;
  }

  /** The lines of a printed caption parse to it. */
  lemma LinesParse(c: Caption, lines: seq<string>, count: nat)
    requires 0 < c.index <= MAX_INT64 && 0 <= c.start < c.end <= MAX_INT64
    requires TextLines(lines) && c.text == Unlines(lines)
    ensures ParseLines(BlockLines(c, lines), count) == One(c)
  {
    hide FormatTime, SplitText, ParseTime, ParseInt, TrimSpace, Unlines;
    var all := BlockLines(c, lines);
    FormatParses(c.index, 10);
    TimeLineSplits(c);
    TimeTrims(c.start);
    TimeTrims(c.end);
    TimeParses(c.start, FormatTime(c.start) + " ");
    TimeParses(c.end, " " + FormatTime(c.end));
    assert all[2..] == lines;
    UnlinesSolid(lines);
    TrimmedFixed(c.text);
  }

  lemma PrintedLines(c: Caption, lines: seq<string>, i: nat)
    requires 0 < c.index && TextLines(lines) && c.text == Unlines(lines)
    ensures TextLines(BlockLines(c, lines)) && Printed(c, i) == Unlines(BlockLines(c, lines))
  {
    hide FormatTime, Format, TrimSpace;
    IndexLine(c.index);
    TimeLineIsLine(c);
    UnlinesSolid(lines);
    TrimmedFixed(c.text);
    var all := BlockLines(c, lines);
    assert all[1..] == [TimeLine(c)] + lines;
    assert all[1..][1..] == lines;
    assert Unlines(all[1..]) == TimeLine(c) + "\n" + Unlines(lines);
  }

  /** A printed caption, with or without a newline after it, is a block that parses to it. */
  lemma BlockParses(c: Caption, i: nat, count: nat)
    requires Writable(c)
    ensures Solid(Printed(c, i))
    ensures ParseLines(LinesOf(Printed(c, i)), count) == One(c)
    ensures ParseLines(LinesOf(Printed(c, i) + "\n"), count) == One(c)
  {
    hide FormatTime, Format, TrimSpace, SplitText, Printed, ParseLines, Compact;
    var lines :| TextLines(lines) && c.text == Unlines(lines);
    var all := BlockLines(c, lines);
    PrintedLines(c, lines, i);
    UnlinesSolid(all);
    UnlinesSplit(all);
    CompactKeeps(all);
    TrimmedFixed(Printed(c, i));
    TrimsNewline(Printed(c, i));
    LinesParse(c, lines, count);
  }

  lemma TrimsNewline(s: string)
    requires Solid(s)
    ensures TrimSpace(s + "\n") == s
  {
    assert IsSpace('\n');
    assert (s + "\n")[..|s|] == s;
    assert TrimRight(s + "\n") == TrimRight(s);
  }

  lemma {:induction false} NothingToNormalize(s: string)
    requires '\r' !in s
    ensures NormalizeEnds(s) == s
    decreases |s|
  {
    if s != "" {
      NothingToNormalize(s[1..]);
      assert s == [s[0]] + s[1..];
    }
  }

  /** The printed captions from `i` on, as one text. */
  function From(cs: seq<Caption>, i: nat): string
    requires i <= |cs|
    decreases |cs| - i
  {
    if i == |cs| then "" else Printed(cs[i], i) + "\n" + (if i + 1 < |cs| then "\n" else "") + From(cs, i + 1)
  }

  lemma {:induction false} GeneratedFrom(cs: seq<Caption>, i: nat)
    requires i <= |cs|
    ensures Generated(cs) == Generated(cs[..i]) + (if 0 < i < |cs| then "\n" else "") + From(cs, i)
    decreases |cs| - i
  {
    hide Printed;
    if i < |cs| {
      GeneratedFrom(cs, i + 1);
      GeneratedStep(cs, i);
    } else {
      assert cs[..i] == cs;
    }
  }

  /** The blocks of the text: one for each caption, the last with its newline. */
  function BlocksFrom(cs: seq<Caption>, i: nat): seq<string>
    requires i < |cs|
    decreases |cs| - i
  {
    if i + 1 == |cs| then [Printed(cs[i], i) + "\n"] else [Printed(cs[i], i)] + BlocksFrom(cs, i + 1)
  }

  lemma {:induction false} FromSplits(cs: seq<Caption>, i: nat)
    requires i < |cs| && forall c | c in cs :: Writable(c)
    ensures SplitText(From(cs, i), "\n\n") == BlocksFrom(cs, i) && '\r' !in From(cs, i)
    decreases |cs| - i
  {
    hide Printed, SplitText, Writable, Solid, From;
    assert cs[i] in cs;
    BlockParses(cs[i], i, 0);
    FromStep(cs, i);
    if i + 1 == |cs| {
      LastBlock(Printed(cs[i], i));
    } else {
      FromSplits(cs, i + 1);
      NextBlock(Printed(cs[i], i), From(cs, i + 1));
    }
  }

  lemma FromStep(cs: seq<Caption>, i: nat)
    requires i < |cs|
    ensures i + 1 == |cs| ==> From(cs, i) == Printed(cs[i], i) + "\n"
    ensures i + 1 < |cs| ==> From(cs, i) == Printed(cs[i], i) + "\n\n" + From(cs, i + 1)
  {
    hide Printed;
    var a := Printed(cs[i], i);
    if i + 1 == |cs| {
      assert From(cs, i + 1) == "";
      assert a + "\n" + "" + "" == a + "\n";
    } else {
      assert a + "\n" + "\n" == a + "\n\n";
    }
  }

  lemma LastBlock(a: string)
    requires Solid(a)
    ensures SplitText(a + "\n", "\n\n") == [a + "\n"] && '\r' !in a + "\n"
  {
    hide Solid, SplitText;
    NoReturn(a);
    forall k | 0 <= k <= |a + "\n"| ensures !("\n\n" <= (a + "\n")[k..]) {
      SolidNoGap(a, "", k);
      assert a + "\n" + "" == a + "\n";
    }
    SplitTextNone(a + "\n", "\n\n");
  }

  lemma NoReturn(a: string)
    requires Solid(a)
    ensures '\r' !in a
  {}

  lemma NextBlock(a: string, rest: string)
    requires Solid(a) && '\r' !in rest
    ensures SplitText(a + "\n\n" + rest, "\n\n") == [a] + SplitText(rest, "\n\n") && '\r' !in a + "\n\n" + rest
  {
    hide Solid, SplitText;
    NoReturn(a);
    assert a + "\n" + ("\n" + rest) == a + "\n\n" + rest;
    forall k | 0 <= k < |a| ensures !("\n\n" <= (a + "\n\n" + rest)[k..]) {
      SolidNoGap(a, "\n" + rest, k);
    }
    SplitTextAt(a, "\n\n", rest);
  }

  lemma SolidNoGap(a: string, rest: string, k: nat)
    requires Solid(a) && k <= |a| + 1 && (k < |a| || rest == "")
    ensures k <= |a + "\n" + rest| && !("\n\n" <= (a + "\n" + rest)[k..])
  {
    var s := a + "\n" + rest;
    assert IsSpace('\n');
    assert k < |a| ==> s[k] == a[k];
    assert k + 1 < |a| ==> s[k + 1] == a[k + 1];
  }

  lemma {:induction false} BlocksParse(cs: seq<Caption>, blocks: seq<string>, i: nat)
    requires i <= |cs| == |blocks| && forall c | c in cs :: Writable(c)
    requires forall k | 0 <= k < |cs| :: blocks[k] == Printed(cs[k], k) || blocks[k] == Printed(cs[k], k) + "\n"
    ensures ParseBlocks(blocks[..i]) == Some(cs[..i])
    decreases i
  {
    hide Printed, Writable, ParseLines, LinesOf;
    if i > 0 {
      BlocksParse(cs, blocks, i - 1);
      BlocksStep(blocks, i - 1);
      assert cs[i - 1] in cs;
      BlockParses(cs[i - 1], i - 1, i - 1);
      assert cs[..i] == cs[..i - 1] + [cs[i - 1]];
    }
  }

  lemma {:induction false} BlocksAre(cs: seq<Caption>, i: nat)
    requires i < |cs|
    ensures |BlocksFrom(cs, i)| == |cs| - i
    ensures forall k | i <= k < |cs| ::
      BlocksFrom(cs, i)[k - i] == Printed(cs[k], k) || BlocksFrom(cs, i)[k - i] == Printed(cs[k], k) + "\n"
    decreases |cs| - i
  {
    hide Printed;
    if i + 1 < |cs| {
      BlocksAre(cs, i + 1);
      forall k | i <= k < |cs|
        ensures BlocksFrom(cs, i)[k - i] == Printed(cs[k], k) || BlocksFrom(cs, i)[k - i] == Printed(cs[k], k) + "\n"
      {
        assert k > i ==> BlocksFrom(cs, i)[k - i] == BlocksFrom(cs, i + 1)[k - (i + 1)];
      }
    }
  }

  /** What `GenerateSRT` prints, `ParseSRT` reads back. */
  lemma RoundTrip(cs: seq<Caption>)
    requires forall c | c in cs :: Writable(c)
    ensures Parsed(Generated(cs)) == Some(cs)
  {
    hide Printed, Writable, ParseLines, LinesOf, SplitText;
    if cs == [] {
      EmptyFile();
    } else {
      GeneratedFrom(cs, 0);
      assert Generated(cs) == From(cs, 0) by { NothingGenerated(cs); }
      FromSplits(cs, 0);
      NothingToNormalize(From(cs, 0));
      BlocksAre(cs, 0);
      var blocks := BlocksFrom(cs, 0);
      forall k | 0 <= k < |cs| ensures blocks[k] == Printed(cs[k], k) || blocks[k] == Printed(cs[k], k) + "\n" {
        assert blocks[k - 0] == blocks[k];
      }
      BlocksParse(cs, blocks, |cs|);
      assert blocks[..|cs|] == blocks && cs[..|cs|] == cs;
    }
  }

  lemma EmptyFile()
    ensures Parsed(Generated([])) == Some([])
  {
    assert SplitText("", "\n\n") == [""];
    assert SplitText("", "\n") == [""];
    assert [""][..0] == [];
    assert LinesOf("") == [];
    assert ParseBlocks([]) == Some([]);
  }

  // ---- files of other programs ----

  /** The text with every newline written as `end`. */
  function WithEnds(s: string, end: string): string {
    if s == "" then "" else (if s[0] == '\n' then end else [s[0]]) + WithEnds(s[1..], end)
  }

  lemma {:induction false} EndsNormalize(s: string, end: string)
    requires '\r' !in s && (end == "\n" || end == "\r\n" || end == "\r")
    ensures NormalizeEnds(WithEnds(s, end)) == s
    ensures s != "" && s[0] != '\n' ==> WithEnds(s, end) != "" && WithEnds(s, end)[0] == s[0]
    ensures WithEnds(s, "\r") != "" ==> WithEnds(s, "\r")[0] != '\n'
    decreases |s|
  {
    if s != "" {
      EndsNormalize(s[1..], end);
      EndsNormalize(s[1..], "\r");
      var rest := WithEnds(s[1..], end);
      var t := WithEnds(s, end);
      assert s == [s[0]] + s[1..];
      if s[0] != '\n' {
        assert t == [s[0]] + rest && t[1..] == rest;
        NormalizeOther(s[0], rest);
      } else if end == "\r\n" {
        assert t == "\r\n" + rest && t[2..] == rest;
      } else if end == "\r" {
        assert t == "\r" + rest && t[1..] == rest;
      } else {
        assert t == "\n" + rest && t[1..] == rest;
      }
    }
  }

  lemma NormalizeOther(c: char, rest: string)
    requires c != '\r'
    ensures NormalizeEnds([c] + rest) == [c] + NormalizeEnds(rest)
  {
    assert ([c] + rest)[1..] == rest;
  }

  /** A file with CRLF or CR line ends parses like the same file with LF. */
  lemma LineEndsParse(s: string, end: string)
    requires '\r' !in s && (end == "\n" || end == "\r\n" || end == "\r")
    ensures Parsed(WithEnds(s, end)) == Parsed(s)
  {
    EndsNormalize(s, end);
    NothingToNormalize(s);
  }

  /** So the printed captions are read back with any line ends. */
  lemma RoundTripWithEnds(cs: seq<Caption>, end: string)
    requires (forall c | c in cs :: Writable(c)) && (end == "\n" || end == "\r\n" || end == "\r")
    ensures Parsed(WithEnds(Generated(cs), end)) == Some(cs)
  {
    hide Printed, Writable, ParseLines, LinesOf, SplitText, From;
    RoundTrip(cs);
    if cs != [] {
      GeneratedFrom(cs, 0);
      assert Generated(cs) == From(cs, 0) by { NothingGenerated(cs); }
      FromSplits(cs, 0);
    }
    LineEndsParse(Generated(cs), end);
  }

  /** A block without an index line gets the number after the captions before it. */
  lemma UnnumberedLines(c: Caption, lines: seq<string>, count: nat)
    requires 0 <= c.start < c.end <= MAX_INT64 && TextLines(lines) && c.text == Unlines(lines)
    ensures ParseLines([TimeLine(c)] + lines, count) == One(c.(index := count + 1))
  {
    hide FormatTime, SplitText, ParseTime, ParseInt, TrimSpace, Unlines;
    var all := [TimeLine(c)] + lines;
    NotAnIndex(c);
    TimeLineSplits(c);
    TimeTrims(c.start);
    TimeTrims(c.end);
    TimeParses(c.start, FormatTime(c.start) + " ");
    TimeParses(c.end, " " + FormatTime(c.end));
    assert all[1..] == lines;
    UnlinesSolid(lines);
    TrimmedFixed(c.text);
  }

  lemma NotAnIndex(c: Caption)
    ensures ParseInt(TimeLine(c), 10) == None
  {
    hide FormatTime;
    TimeChars(c.start);
    var s := TimeLine(c);
    var k := |FormatTime(c.start)|;
    assert s[k] == ' ' && DigitValue(' ') == 36;
    assert s[0] == FormatTime(c.start)[0];
    assert !AllDigits(s, 10);
  }

  /** A caption that has no positive index is printed with its position. */
  lemma PrintedIndex(c: Caption, i: nat)
    ensures Format(if c.index > 0 then c.index else i + 1, 10) + "\n" + TimeLine(c) + "\n" <= Printed(c, i)
  {
    hide Format, FormatTime, TrimSpace;
    var n := Format(IndexAt(c, i), 10);
    assert Printed(c, i) == n + "\n" + TimeLine(c) + "\n" + TrimSpace(c.text);
  }

  /** One digit after the comma is tenths of a second, two are hundredths, and from the
      fourth on digits are dropped. */
  function Fraction(f: string): nat {
    if |f| == 1 then Value(f, 10) * 100 else if |f| == 2 then Value(f, 10) * 10 else Value(f[..Min(3, |f|)], 10)
  }

  function Min(a: nat, b: nat): nat {
    if a < b then a else b
  }

  lemma FractionValue(f: string)
    requires Digits(f)
    ensures ParseInt(PadRight(f, 3), 10) == Some(Fraction(f))
  {
    var p := PadRight(f, 3);
    assert DigitValue('0') == 0;
    if |f| == 1 {
      assert p == f + ['0'] + ['0'];
      DigitsAll(f);
      ValueStep(f, '0', 10);
      ValueStep(f + ['0'], '0', 10);
    } else if |f| == 2 {
      assert p == f + ['0'];
      DigitsAll(f);
      ValueStep(f, '0', 10);
    } else {
      assert p == f[..3];
      DigitsAll(f[..3]);
    }
    ThreeFit(p);
  }

  lemma DigitsAll(s: string)
    requires Digits(s)
    ensures AllDigits(s, 10)
  {}

  lemma ThreeFit(p: string)
    requires |p| == 3 && AllDigits(p, 10) && Digit(p[0])
    ensures Value(p, 10) < 1000 && ParseInt(p, 10) == Some(Value(p, 10))
  {
    assert p[..2][..1] == p[..1] && p[..1][..0] == "";
    assert Value(p[..1], 10) == Value(p[..1][..0], 10) * 10 + DigitValue(p[0]);
    assert Value(p[..2], 10) == Value(p[..2][..1], 10) * 10 + DigitValue(p[1]);
  }

  /** A time reads as hours, minutes, seconds and a fraction, with any number of digits. */
  lemma TimeReads(h: string, m: string, s: string, f: string)
    requires Digits(h) && Digits(m) && Digits(s) && Digits(f)
    requires Value(h, 10) <= MAX_INT64 && Value(m, 10) <= MAX_INT64 && Value(s, 10) <= MAX_INT64
    ensures ParseTime(h + ":" + m + ":" + s + "," + f) ==
      Some((Value(h, 10) * 3600 + Value(m, 10) * 60 + Value(s, 10)) * 1000 + Fraction(f))
  {
    hide SplitText, ParseInt, TrimSpace, Digits, Value, PadRight, Fraction;
    var t := h + ":" + m + ":" + s + "," + f;
    TimeFields(h, m, s, f);
    TimeTextFixed(h, m, s, f);
    FractionValue(f);
    DigitsParse(h);
    DigitsParse(m);
    DigitsParse(s);
  }

  lemma DigitsParse(s: string)
    requires Digits(s) && Value(s, 10) <= MAX_INT64
    ensures ParseInt(s, 10) == Some(Value(s, 10))
  {
    DigitsAll(s);
    assert Digit(s[0]);
  }

  lemma TimeTextFixed(h: string, m: string, s: string, f: string)
    requires Digits(h) && Digits(f)
    ensures TrimSpace(h + ":" + m + ":" + s + "," + f) == h + ":" + m + ":" + s + "," + f
  {
    hide TrimSpace;
    var t := h + ":" + m + ":" + s + "," + f;
    assert t[0] == h[0] && t[|t| - 1] == f[|f| - 1];
    DigitNotSpace(t[0]);
    DigitNotSpace(t[|t| - 1]);
    TrimmedFixed(t);
  }

  /** A caption that does not end after it starts spoils the file; one without text is left out. */
  lemma RefusedLines(c: Caption, lines: seq<string>, count: nat)
    requires 0 <= c.start <= MAX_INT64 && 0 <= c.end <= MAX_INT64
    ensures c.end <= c.start ==> ParseLines([TimeLine(c)] + lines, count) == Bad
    ensures c.start < c.end ==> ParseLines([TimeLine(c)], count) == Nothing
  {
    hide FormatTime, SplitText, ParseTime, ParseInt, TrimSpace, Unlines;
    NotAnIndex(c);
    TimeLineSplits(c);
    TimeTrims(c.start);
    TimeTrims(c.end);
    TimeParses(c.start, FormatTime(c.start) + " ");
    TimeParses(c.end, " " + FormatTime(c.end));
    assert [TimeLine(c)][1..] == [];
    NoText();
  }

  lemma NoText()
    ensures TrimSpace(Unlines([])) == ""
  {}
}
