/** `strings.TrimSpace` on the octets of a header against the same on its characters. */
module OctetTrims {
  import opened Wrappers
  import opened Text
  import opened AwsChunked
  import U = Utf8
  import K = Keys

  /** The code units of a text: its UTF-8 bytes. */
  function CodeUnits(s: string): string {
    if s == "" then "" else Form(s[0]) + CodeUnits(s[1..])
  }

  function Form(c: char): string {
    seq(|U.Encoded(c)|, i requires 0 <= i < |U.Encoded(c)| => U.Encoded(c)[i] as char)
  }

  /** The spaces of one table are the forms of the spaces of the other. */
  lemma SpaceForms(c: char)
    ensures IsSpace(c) <==> (|Form(c)| == 1 && AsciiSpace(Form(c)[0])) || WideSpace(Form(c))
  {
    var n := c as int;
    if n >= 0x80 && n < 0x800 {
      TwoForm(c);
    } else if n >= 0x800 && n < 0x1_0000 {
      ThreeForm(c);
    }
  }

  lemma TwoForm(c: char)
    requires 0x80 <= c as int < 0x800
    ensures IsSpace(c) <==> WideSpace(Form(c))
    ensures |Form(c)| == 2
  {
    var n := c as int;
    assert Form(c) == [(0xC0 + n / 0x40) as char, (0x80 + n % 0x40) as char];
  }

  lemma ThreeForm(c: char)
    requires 0x800 <= c as int < 0x1_0000
    ensures IsSpace(c) <==> WideSpace(Form(c))
    ensures |Form(c)| == 3
  {
    var n := c as int;
    assert Form(c) == [(0xE0 + n / 0x1000) as char, (0x80 + n / 0x40 % 0x40) as char, (0x80 + n % 0x40) as char];
  }

  /** The first byte of a form tells its length, and later bytes are no first bytes. */
  lemma FormShape(c: char)
    ensures 1 <= |Form(c)| <= 4
    ensures |Form(c)| == 1 <==> Form(c)[0] as int < 0x80
    ensures |Form(c)| == 2 <==> 0xC0 <= Form(c)[0] as int < 0xE0
    ensures |Form(c)| == 3 <==> 0xE0 <= Form(c)[0] as int < 0xF0
    ensures |Form(c)| >= 2 ==> Form(c)[0] as int >= 0xC0
    ensures forall i | 1 <= i < |Form(c)| :: 0x80 <= Form(c)[i] as int < 0xC0
  {}

  lemma WideShape(w: string)
    requires WideSpace(w)
    ensures |w| == 2 || |w| == 3
    ensures |w| == 2 ==> 0xC0 <= w[0] as int < 0xE0
    ensures |w| == 3 ==> 0xE0 <= w[0] as int < 0xF0
    ensures forall i | 1 <= i < |w| :: 0x80 <= w[i] as int < 0xC0
  {}

  lemma {:induction false} FrontTrims(s: string)
    ensures TrimFront(CodeUnits(s)) == CodeUnits(TrimLeft(s))
    decreases |s|
  {
    if s != "" {
      FrontTrims(s[1..]);
      FrontStep(s[0], CodeUnits(s[1..]));
    }
  }

  lemma FrontStep(c: char, rest: string)
    ensures TrimFront(Form(c) + rest) == if IsSpace(c) then TrimFront(rest) else Form(c) + rest
  {
    hide Form, WideSpace, IsSpace, AsciiSpace;
    var f := Form(c);
    var t := f + rest;
    FormShape(c);
    SpaceForms(c);
    AsciiIsSmall(t[0]);
    assert |f| == 1 ==> t[1..] == rest;
    assert |f| == 2 ==> t[..2] == f && t[2..] == rest;
    assert |f| == 3 ==> t[..3] == f && t[3..] == rest;
    if WideSpace(f) { WideShape(f); }
    if |t| >= 2 && WideSpace(t[..2]) { WideShape(t[..2]); }
    if |t| >= 3 && WideSpace(t[..3]) { WideShape(t[..3]); }
  }

  lemma AsciiIsSmall(c: char)
    ensures AsciiSpace(c) ==> c as int < 0x80
  {}

  /** The same from the end. */
  lemma {:induction false} CodeUnitsEnd(s: string, c: char)
    ensures CodeUnits(s + [c]) == CodeUnits(s) + Form(c)
    decreases |s|
  {
    if s == "" {
      assert s + [c] == [c];
      assert [c][1..] == "";
      assert CodeUnits("") == "";
      assert Form(c) + "" == Form(c) && "" + Form(c) == Form(c);
    } else {
      CodeUnitsEnd(s[1..], c);
      assert (s + [c])[1..] == s[1..] + [c];
      assert Form(s[0]) + (CodeUnits(s[1..]) + Form(c)) == Form(s[0]) + CodeUnits(s[1..]) + Form(c);
    }
  }

  lemma {:induction false} BackTrims(s: string)
    ensures TrimBack(CodeUnits(s)) == CodeUnits(TrimRight(s))
    decreases |s|
  {
    hide TrimBack, Form, IsSpace;
    if s != "" {
      var front, c := s[..|s| - 1], s[|s| - 1];
      BackTrims(front);
      assert s == front + [c];
      CodeUnitsEnd(front, c);
      BackStep(CodeUnits(front), c);
    } else {
      NothingBack();
    }
  }

  lemma NothingBack()
    ensures TrimBack("") == ""
  {}

  lemma BackStep(front: string, c: char)
    ensures TrimBack(front + Form(c)) == if IsSpace(c) then TrimBack(front) else front + Form(c)
  {
    hide Form, WideSpace, IsSpace, AsciiSpace;
    var f := Form(c);
    var t := front + f;
    FormShape(c);
    SpaceForms(c);
    AsciiIsSmall(t[|t| - 1]);
    assert |f| == 1 ==> t[..|t| - 1] == front;
    assert |f| == 2 ==> t[|t| - 2..] == f && t[..|t| - 2] == front;
    assert |f| == 3 ==> t[|t| - 3..] == f && t[..|t| - 3] == front;
    assert t[|t| - 1] == f[|f| - 1] && (|f| >= 2 ==> t[|t| - 2] == f[|f| - 2]) &&
      (|f| >= 3 ==> t[|t| - 3] == f[|f| - 3]);
    if WideSpace(f) { WideShape(f); }
    if |t| >= 2 && WideSpace(t[|t| - 2..]) { WideShape(t[|t| - 2..]); }
    if |t| >= 3 && WideSpace(t[|t| - 3..]) { WideShape(t[|t| - 3..]); }
  }

  /** Trimming the octets is trimming the text. */
  lemma OctetsTrim(s: string)
    ensures TrimBack(TrimFront(CodeUnits(s))) == CodeUnits(TrimSpace(s))
  {
    FrontTrims(s);
    BackTrims(TrimLeft(s));
  }
}
