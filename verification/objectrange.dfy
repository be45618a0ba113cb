/** `parseObjectRange`: the Range header of an object request (section 14.1.2 of RFC 9110). */
module ObjectRanges {
  import opened Wrappers
  import opened Numerals
  import opened Text
  import opened Chunks

  datatype RangeRequest = Whole | Part(start: int, end: int) | Refused

  const UNIT: string := "bytes="

  /** The bytes a range of a non-empty object stands for: from the front, or the last
      `last` bytes when `first` is absent. */
  function Selected(first: Option<int>, last: Option<int>, size: int): (r: RangeRequest)
    requires size > 0
    ensures r.Part? ==> 0 <= r.start <= r.end < size
  {
    match (first, last)
    case (None, None) => Refused
    case (None, Some(n)) => if n <= 0 then Refused else Part(size - Min(n, size), size - 1)
    case (Some(a), None) => if 0 <= a < size then Part(a, size - 1) else Refused
    case (Some(a), Some(b)) => if 0 <= a <= Min(b, size - 1) then Part(a, Min(b, size - 1)) else Refused
  }

  /** The range a header asks for: everything without a header, and otherwise what its
      specification after the unit selects. */
  function ObjectRange(header: string, size: int): (r: RangeRequest)
    ensures r.Part? ==> 0 <= r.start <= r.end < size
  {
    if header == "" then Whole
    else if size <= 0 || !HasPrefix(header, UNIT) then Refused
    else ParseSpec(header[|UNIT|..], size)
  }

  method ParseObjectRange(header: string, size: int) returns (r: RangeRequest)
    ensures r == ObjectRange(header, size)
    ensures r.Part? ==> 0 <= r.start <= r.end < size
  {
    if header == "" {
      return Whole;
    }
    if size <= 0 {
      return Refused;
    }
    if !HasPrefix(header, UNIT) {
      return Refused;
    }
    var spec := header[|UNIT|..];
    if ',' in spec {
      return Refused;
    }
    var parts := Cut(spec, '-');
    if parts.None? {
      return Refused;
    }
    if parts.value.0 == "" {
      var suffix := ParseInt(parts.value.1, 10);
      if suffix.None? || suffix.value <= 0 {
        return Refused;
      }
      var n := suffix.value;
      if n > size {
        n := size;
      }
      return Part(size - n, size - 1);
    }
    var start := ParseInt(parts.value.0, 10);
    if start.None? || start.value < 0 {
      return Refused;
    }
    var end: int;
    if parts.value.1 == "" {
      end := size - 1;
    } else {
      var last := ParseInt(parts.value.1, 10);
      if last.None? {
        return Refused;
      }
      end := last.value;
    }
    if end >= size {
      end := size - 1;
    }
    if start.value > end {
      return Refused;
    }
    r := Part(start.value, end);
  }

  /** One bound as written: absent, a number, or neither. */
  function Bound(s: string): Option<Option<int>> {
    if s == "" then Some(None)
    else
      match ParseInt(s, 10)
      case None => None
      case Some(n) => Some(Some(n))
  }

  function ParseSpec(spec: string, size: int): RangeRequest
    requires size > 0
  {
    if ',' in spec then Refused
    else
      match Cut(spec, '-')
      case None => Refused
      case Some((a, b)) =>
        match (Bound(a), Bound(b))
        case (Some(first), Some(last)) => Selected(first, last, size)
        case (_, _) => Refused
  }

  lemma DigitsOnly(n: nat)
    ensures '-' !in Format(n, 10) && ',' !in Format(n, 10)
  {
    FormatDigits(n, 10);
    var s := Format(n, 10);
    assert forall i | 0 <= i < |s| :: DigitValue(s[i]) < 10;
    assert DigitValue('-') == 36 && DigitValue(',') == 36;
  }

  lemma BoundOf(n: nat)
    requires n <= MAX_INT64
    ensures Bound(Format(n, 10)) == Some(Some(n))
  {
    FormatParses(n, 10);
  }

  function Printed(bound: Option<nat>): string {
    match bound
    case None => ""
    case Some(n) => Format(n, 10)
  }

  /** A header written in the form of the standard selects what the standard says:
      both ends, an open end, or a suffix. */
  lemma StandardForm(first: Option<nat>, last: Option<nat>, size: int)
    requires size > 0 && (first.Some? ==> first.value <= MAX_INT64) && (last.Some? ==> last.value <= MAX_INT64)
    ensures ParseSpec(Printed(first) + "-" + Printed(last), size) == Selected(first, last, size)
  {
    var a, b := Printed(first), Printed(last);
    if first.Some? { DigitsOnly(first.value); BoundOf(first.value); }
    if last.Some? { DigitsOnly(last.value); BoundOf(last.value); }
    CutAt(a, '-', b);
    assert ',' !in a + "-" + b;
    assert a + ['-'] + b == a + "-" + b;
  }

  /** The three forms of a range: the last `n` bytes, from `a` on, from `a` to `b`. */
  lemma SuffixForm(n: nat, size: int)
    requires size > 0 && n <= MAX_INT64
    ensures ObjectRange(UNIT + "-" + Format(n, 10), size) ==
      if n == 0 then Refused else Part(if n < size then size - n else 0, size - 1)
  {
    hide Format;
    StandardForm(None, Some(n), size);
    SpecOf("", "-" + Format(n, 10), size);
    assert UNIT + "" + ("-" + Format(n, 10)) == UNIT + "-" + Format(n, 10);
    assert "" + "-" + Format(n, 10) == "-" + Format(n, 10);
  }

  lemma OpenForm(a: nat, size: int)
    requires size > 0 && a <= MAX_INT64
    ensures ObjectRange(UNIT + Format(a, 10) + "-", size) == if a < size then Part(a, size - 1) else Refused
  {
    hide Format;
    StandardForm(Some(a), None, size);
    SpecOf(Format(a, 10), "-", size);
    assert Format(a, 10) + "-" + "" == Format(a, 10) + "-";
  }

  lemma ClosedForm(a: nat, b: nat, size: int)
    requires size > 0 && a <= MAX_INT64 && b <= MAX_INT64
    ensures ObjectRange(UNIT + Format(a, 10) + ("-" + Format(b, 10)), size) ==
      if a < size && a <= b then Part(a, if b < size then b else size - 1) else Refused
  {
    hide Format;
    StandardForm(Some(a), Some(b), size);
    SpecOf(Format(a, 10), "-" + Format(b, 10), size);
    assert Format(a, 10) + "-" + Format(b, 10) == Format(a, 10) + ("-" + Format(b, 10));
  }

  lemma SpecOf(first: string, rest: string, size: int)
    requires size > 0
    ensures ObjectRange(UNIT + first + rest, size) == ParseSpec(first + rest, size)
  {
    assert UNIT + first + rest == UNIT + (first + rest);
    assert (UNIT + (first + rest))[|UNIT|..] == first + rest;
  }
}
