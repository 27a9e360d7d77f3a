// The closed byte ranges a payload request may ask for, and their one textual form.
module PayloadRange {
  import opened Common

  datatype Refusal =
    | InvalidRange
    | Overflow
    | RangeUnsatisfiable
    | MethodMismatch
    | TargetMismatch
    | RangeMismatch
    | NotYetValid
    | Expired
    | NonceReplayed
    | InvalidTime
    | OtherRefusal

  // ---- Decimal numbers ----

  predicate IsDigit(c: char) { '0' <= c <= '9' }

  predicate AllDigits(t: string) { forall i | 0 <= i < |t| :: IsDigit(t[i]) }

  function DigitOf(d: nat): char
    requires d < 10
  {
    ('0' as int + d) as char
  }

  function ValueOf(c: char): nat
    requires IsDigit(c)
  {
    c as int - '0' as int
  }

  function Decimal(n: nat): string {
    if n < 10 then [DigitOf(n)] else Decimal(n / 10) + [DigitOf(n % 10)]
  }

  function Number(t: string): nat
    requires AllDigits(t)
    decreases |t|
  {
    if t == "" then 0 else Number(t[..|t| - 1]) * 10 + ValueOf(t[|t| - 1])
  }

  // Digits without a leading zero.
  predicate Plain(t: string) { t != "" && AllDigits(t) && (|t| > 1 ==> t[0] != '0') }

  lemma {:induction false} NumberOfDecimal(n: nat)
    ensures Plain(Decimal(n)) && Number(Decimal(n)) == n && (n > 0 ==> Decimal(n)[0] != '0')
  {
    if n >= 10 {
      NumberOfDecimal(n / 10);
      var t := Decimal(n);
      assert t[..|t| - 1] == Decimal(n / 10);
    }
  }

  lemma {:induction false} DecimalOfNumber(t: string)
    requires Plain(t)
    ensures Decimal(Number(t)) == t && (t[0] != '0' ==> Number(t) > 0)
    decreases |t|
  {
    var front := t[..|t| - 1];
    assert t == front + [t[|t| - 1]];
    assert front == "" ==> Number(front) == 0;
    if front != "" {
      DecimalOfNumber(front);
      var n := Number(t);
      assert n / 10 == Number(front) && n % 10 == ValueOf(t[|t| - 1]);
    }
  }

  // Accepts the decimal print of a 64-bit number and nothing else.
  function CanonicalU64(text: string): (r: Option<nat>) {
    if text == "" || !AllDigits(text) || (|text| > 1 && text[0] == '0') then None
    else if Number(text) <= U64_MAX then Some(Number(text))
    else None
  }

  lemma CanonicalIsDecimal(text: string, n: nat)
    ensures CanonicalU64(text) == Some(n) <==> n <= U64_MAX && text == Decimal(n)
  {
    if Plain(text) { DecimalOfNumber(text); }
    NumberOfDecimal(n);
  }

  lemma DecimalHasNo(n: nat, c: char)
    requires !IsDigit(c)
    ensures c !in Decimal(n)
  {
    NumberOfDecimal(n);
  }

  // ---- Ranges ----

  datatype Range = Whole | Bytes(start: nat, endInclusive: nat)

  // Both ends are 64-bit numbers.
  predicate Fits(r: Range) { r.Bytes? ==> r.start <= U64_MAX && r.endInclusive <= U64_MAX }

  function Validate(r: Range): Option<Refusal> {
    if r.Whole? then None
    else if r.start > r.endInclusive then Some(InvalidRange)
    else if r.endInclusive - r.start + 1 > U64_MAX then Some(Overflow)
    else if r.endInclusive > MAX_SAFE_INTEGER then Some(InvalidRange)
    else None
  }

  // The position of the first `c`.
  function Find(t: string, c: char): (r: Option<nat>)
    ensures r.None? ==> c !in t
    ensures r.Some? ==> r.value < |t| && t[r.value] == c && c !in t[..r.value]
  {
    if t == "" then None
    else if t[0] == c then Some(0)
    else
      var r := Find(t[1..], c);
      if r.None? then assert t == [t[0]] + t[1..]; None
      else
        assert t[..r.value + 1] == [t[0]] + t[1..][..r.value];
        Some(r.value + 1)
  }

  lemma {:induction false} FindJoined(a: string, c: char, b: string)
    requires c !in a
    ensures Find(a + [c] + b, c) == Some(|a|)
  {
    if a != "" {
      FindJoined(a[1..], c, b);
      assert (a + [c] + b)[1..] == a[1..] + [c] + b;
    }
  }

  const PREFIX: string := "bytes="

  function FromHeader(header: Option<string>): Result<Range, Refusal> {
    if header.None? then Ok(Whole)
    else
      var h := header.value;
      if !(PREFIX <= h) then Err(InvalidRange)
      else
        var rest := h[|PREFIX|..];
        match Find(rest, '-')
        case None => Err(InvalidRange)
        case Some(dash) =>
          match (CanonicalU64(rest[..dash]), CanonicalU64(rest[dash + 1..]))
          case (Some(start), Some(end)) =>
            (match Validate(Bytes(start, end))
             case None => Ok(Bytes(start, end))
             case Some(e) => Err(e))
          case _ => Err(InvalidRange)
  }

  // The header the client sends for a range.
  function Header(r: Range): Option<string> {
    if r.Whole? then None else Some(PREFIX + (Decimal(r.start) + "-" + Decimal(r.endInclusive)))
  }

  lemma Taken(h: string)
    requires PREFIX <= h
    ensures h == PREFIX + h[|PREFIX|..]
  {
  }

  lemma SplitAt(rest: string, dash: nat)
    requires dash < |rest| && rest[dash] == '-'
    ensures rest == rest[..dash] + "-" + rest[dash + 1..]
  {
  }

  // What a printed range looks like to the parser.
  lemma HeaderParts(r: Range)
    requires r.Bytes?
    ensures var h := Header(r).value;
            && PREFIX <= h
            && var rest := h[|PREFIX|..];
               && Find(rest, '-') == Some(|Decimal(r.start)|)
               && rest[..|Decimal(r.start)|] == Decimal(r.start)
               && rest[|Decimal(r.start)| + 1..] == Decimal(r.endInclusive)
  {
    hide Decimal, Find;
    var (a, b) := (Decimal(r.start), Decimal(r.endInclusive));
    var rest := a + "-" + b;
    assert (PREFIX + rest)[|PREFIX|..] == rest;
    DecimalHasNo(r.start, '-');
    FindJoined(a, '-', b);
    assert rest[..|a|] == a && rest[|a| + 1..] == b;
  }

  // Parsing a printed range gives the range back, or the reason it is not valid.
  lemma HeaderRoundTrip(r: Range)
    requires Fits(r)
    ensures FromHeader(Header(r)) == match Validate(r) case None => Ok(r) case Some(e) => Err(e)
  {
    hide Decimal, Find, CanonicalU64, Validate;
    if r.Bytes? {
      HeaderParts(r);
      CanonicalIsDecimal(Decimal(r.start), r.start);
      CanonicalIsDecimal(Decimal(r.endInclusive), r.endInclusive);
    } else {
      assert Validate(r).None? by { WholeIsValid(); }
    }
  }

  lemma WholeIsValid()
    ensures Validate(Whole).None?
  {
  }

  // A header is accepted exactly when it is the print of a valid range, and as that range.
  lemma AcceptedIsCanonical(header: Option<string>, r: Range)
    ensures FromHeader(header) == Ok(r) <==> Fits(r) && Validate(r).None? && header == Header(r)
  {
    hide Decimal, Find, CanonicalU64, Validate;
    if Fits(r) { HeaderRoundTrip(r); }
    if FromHeader(header) == Ok(r) {
      if r.Whole? {
        WholeIsValid();
      } else {
        var h := header.value;
        var rest := h[|PREFIX|..];
        var dash := Find(rest, '-').value;
        Taken(h);
        SplitAt(rest, dash);
        CanonicalIsDecimal(rest[..dash], r.start);
        CanonicalIsDecimal(rest[dash + 1..], r.endInclusive);
      }
    }
  }

  // ---- Selecting from an object ----

  datatype Selection = Selection(offset: nat, length: nat)

  function Select(r: Range, size: nat): Result<Selection, Refusal> {
    match Validate(r)
    case Some(e) => Err(e)
    case None =>
      if size == 0 || size > MAX_SAFE_INTEGER then Err(RangeUnsatisfiable)
      else if r.Whole? then Ok(Selection(0, size))
      else if r.endInclusive < size then Ok(Selection(r.start, r.endInclusive - r.start + 1))
      else Err(RangeUnsatisfiable)
  }

  // The bytes of an object that a range names: its positions from start to end inclusive.
  predicate Names(r: Range, size: nat, i: nat) {
    i < size && (r.Bytes? ==> r.start <= i <= r.endInclusive)
  }

  // A selection exists exactly when the range is valid and names something no further than the
  // end of the object, and it then covers exactly what the range names.
  lemma SelectedExactly(r: Range, size: nat)
    ensures Select(r, size).Ok? <==>
              && Validate(r).None? && 0 < size <= MAX_SAFE_INTEGER
              && (r.Bytes? ==> r.endInclusive < size)
    ensures Select(r, size).Ok? ==>
              var s := Select(r, size).value;
              && 0 < s.length && s.offset + s.length <= size
              && forall i: nat :: Names(r, size, i) <==> s.offset <= i < s.offset + s.length
  {
  }

  // The range a client resumes with names exactly the missing suffix.
  function Missing(offset: nat, size: nat): Range
    requires offset == 0 || size > 0
  {
    if offset == 0 then Whole else Bytes(offset, size - 1)
  }

  lemma MissingIsSuffix(offset: nat, size: nat, i: nat)
    requires offset < size <= MAX_SAFE_INTEGER
    ensures Select(Missing(offset, size), size) == Ok(Selection(offset, size - offset))
    ensures Names(Missing(offset, size), size, i) <==> offset <= i < size
  {
  }

  // The content-range text of an answer, which names both ends and the size.
  function ContentRange(start: nat, end: nat, size: nat): string {
    "bytes " + (Decimal(start) + ("-" + (Decimal(end) + ("/" + Decimal(size)))))
  }

  lemma JoinedOnce(a: string, b: string, a': string, b': string, c: char)
    requires c !in a && c !in a' && a + ([c] + b) == a' + ([c] + b')
    ensures a == a' && b == b'
  {
    var t := a + ([c] + b);
    assert t == a + [c] + b == a' + [c] + b';
    FindJoined(a, c, b);
    FindJoined(a', c, b');
    assert a == t[..|a|] && a' == t[..|a|];
    assert b == t[|a| + 1..] && b' == t[|a| + 1..];
  }

  lemma DecimalOnce(n: nat, n': nat)
    requires Decimal(n) == Decimal(n')
    ensures n == n'
  {
    NumberOfDecimal(n);
    NumberOfDecimal(n');
  }

  // Two answers with the same content-range text speak of the same bytes of the same size.
  lemma ContentRangeOnce(start: nat, end: nat, size: nat, start': nat, end': nat, size': nat)
    requires ContentRange(start, end, size) == ContentRange(start', end', size')
    ensures start == start' && end == end' && size == size'
  {
    hide Decimal;
    var (t, t') := (Decimal(end) + ("/" + Decimal(size)), Decimal(end') + ("/" + Decimal(size')));
    var (u, u') := (Decimal(start) + ("-" + t), Decimal(start') + ("-" + t'));
    assert u == ContentRange(start, end, size)[6..] && u' == ContentRange(start', end', size')[6..];
    DecimalHasNo(start, '-');
    DecimalHasNo(start', '-');
    JoinedOnce(Decimal(start), t, Decimal(start'), t', '-');
    DecimalHasNo(end, '/');
    DecimalHasNo(end', '/');
    JoinedOnce(Decimal(end), Decimal(size), Decimal(end'), Decimal(size'), '/');
    DecimalOnce(start, start');
    DecimalOnce(end, end');
    DecimalOnce(size, size');
  }
}
