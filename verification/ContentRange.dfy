/** The Content-Range header of an upload chunk: printed by the client, parsed by the server. */
module ContentRange {
  import opened Basics

  const MAX_INT64 := 0x7fff_ffff_ffff_ffff

  datatype RangeError = BadForm | BadStart | BadEnd | BadTotal | BadSpan

  datatype Span = Span(start: nat, end: nat, total: nat)

  predicate IsDigit(c: char) {
    '0' <= c <= '9'
  }

  predicate Digits(s: string) {
    forall c <- s :: IsDigit(c)
  }

  /** unicode.IsSpace. */
  predicate IsSpace(c: char) {
    c in " \t\n\U{0b}\U{0c}\r\U{85}\U{a0}\U{1680}\U{2028}\U{2029}\U{202f}\U{205f}\U{3000}" || '\U{2000}' <= c <= '\U{200a}'
  }

  function TrimLeft(s: string): string {
    if s != "" && IsSpace(s[0]) then TrimLeft(s[1..]) else s
  }

  function TrimRight(s: string): string {
    if s != "" && IsSpace(s[|s| - 1]) then TrimRight(s[..|s| - 1]) else s
  }

  function TrimSpace(s: string): string {
    TrimRight(TrimLeft(s))
  }

  // ----- decimal numbers -----

  function Value(s: string): nat
    requires Digits(s)
  {
    if s == "" then 0
    else
      assert IsDigit(s[|s| - 1]);
      Value(s[..|s| - 1]) * 10 + (s[|s| - 1] as nat - '0' as nat)
  }

  function Decimal(n: nat): (s: string)
    ensures s != "" && Digits(s)
  {
    (if n < 10 then "" else Decimal(n / 10)) + [('0' as nat + n % 10) as char]
  }

  lemma {:induction false} DecimalValue(n: nat)
    ensures Value(Decimal(n)) == n
  {
    var s := Decimal(n);
    var init := if n < 10 then "" else Decimal(n / 10);
    assert s[..|s| - 1] == init;
    if n >= 10 {
      DecimalValue(n / 10);
    }
  }

  // ----- the pattern bytes a-b/total -----

  function DigitsAt(s: string): (d: string)
    ensures d <= s && Digits(d)
    ensures |d| < |s| ==> !IsDigit(s[|d|])
  {
    if s != "" && IsDigit(s[0]) then [s[0]] + DigitsAt(s[1..]) else ""
  }

  /** A number, then `sep`, then the rest. */
  function NumberThen(s: string, sep: char): Option<(string, string)> {
    var d := DigitsAt(s);
    if d == "" || |d| == |s| || s[|d|] != sep then None else Some((d, s[|d| + 1..]))
  }

  function ParseInt(d: string): Option<nat>
    requires Digits(d)
  {
    if Value(d) <= MAX_INT64 then Some(Value(d)) else None
  }

  const UNIT := "bytes "

  /** The three numbers of `a-b/total`, as digits. */
  function Fields(s: string): (r: Option<(string, string, string)>)
    ensures r.Some? ==> Digits(r.value.0) && Digits(r.value.1) && Digits(r.value.2)
  {
    match NumberThen(s, '-')
    case None => None
    case Some((a, afterA)) =>
      match NumberThen(afterA, '/')
      case None => None
      case Some((b, c)) => if c == "" || DigitsAt(c) != c then None else Some((a, b, c))
  }

  /** Each number in turn, then the span they make. */
  function CheckSpan(a: string, b: string, c: string): (r: Result<Span, RangeError>)
    requires Digits(a) && Digits(b) && Digits(c)
    ensures r.Ok? ==> r.value.start <= r.value.end < r.value.total <= MAX_INT64
  {
    if ParseInt(a).None? then Err(BadStart)
    else if ParseInt(b).None? then Err(BadEnd)
    else if ParseInt(c).None? then Err(BadTotal)
    else if Value(b) < Value(a) || Value(b) >= Value(c) then Err(BadSpan)
    else Ok(Span(Value(a), Value(b), Value(c)))
  }

  function ParseTrimmed(t: string): (r: Result<Span, RangeError>)
    ensures r.Ok? ==> r.value.start <= r.value.end < r.value.total <= MAX_INT64
  {
    if !(UNIT <= t) then Err(BadForm)
    else
      match Fields(t[|UNIT|..])
      case None => Err(BadForm)
      case Some((a, b, c)) => CheckSpan(a, b, c)
  }

  /** parseUploadContentRange. */
  function Parse(v: string): (r: Result<Span, RangeError>)
    ensures r.Ok? ==> r.value.start <= r.value.end < r.value.total <= MAX_INT64
  {
    ParseTrimmed(TrimSpace(v))
  }

  function Header(a: string, b: string, c: string): string {
    UNIT + (a + ("-" + (b + ("/" + c))))
  }

  /** The header the client sends for `n` bytes from `start`. */
  function Format(start: nat, n: nat, total: nat): string
    requires n > 0
  {
    Header(Decimal(start), Decimal(start + n - 1), Decimal(total))
  }

  lemma {:induction false} DigitsThenOther(d: string, rest: string)
    requires Digits(d) && (rest != "" ==> !IsDigit(rest[0]))
    ensures DigitsAt(d + rest) == d
    decreases |d|
  {
    if d == "" {
      assert d + rest == rest;
    } else {
      assert (d + rest)[0] == d[0] && (d + rest)[1..] == d[1..] + rest;
      DigitsThenOther(d[1..], rest);
    }
  }

  /** A non-empty string of digits. */
  predicate Number(d: string) {
    d != "" && Digits(d)
  }

  lemma NumberThenPrinted(d: string, sep: char, rest: string)
    requires Number(d) && !IsDigit(sep)
    ensures NumberThen(d + ([sep] + rest), sep) == Some((d, rest))
  {
    var s := d + ([sep] + rest);
    DigitsThenOther(d, [sep] + rest);
    assert s[|d| + 1..] == rest;
  }

  lemma FieldsPrinted(a: string, b: string, c: string)
    requires Number(a) && Number(b) && Number(c)
    ensures Fields(a + ("-" + (b + ("/" + c)))) == Some((a, b, c))
  {
    var rest := b + (['/'] + c);
    NumberThenPrinted(a, '-', rest);
    NumberThenPrinted(b, '/', c);
    assert c + "" == c;
    DigitsThenOther(c, "");
  }

  lemma TrimmedAlready(s: string)
    requires s != "" && !IsSpace(s[0]) && !IsSpace(s[|s| - 1])
    ensures TrimSpace(s) == s
  {
  }

  lemma HeaderEnds(a: string, b: string, c: string)
    requires Number(c)
    ensures TrimSpace(Header(a, b, c)) == Header(a, b, c)
  {
    var s := Header(a, b, c);
    assert s[0] == 'b';
    assert s[|s| - 1] == c[|c| - 1];
    assert IsDigit(c[|c| - 1]);
    TrimmedAlready(s);
  }

  lemma ParsesHeader(a: string, b: string, c: string)
    requires Number(a) && Number(b) && Number(c)
    ensures Parse(Header(a, b, c)) == CheckSpan(a, b, c)
  {
    HeaderEnds(a, b, c);
    TrimmedParses(a, b, c);
  }

  lemma ParsesDigits(a: string, b: string, c: string)
    requires Number(a) && Number(b) && Number(c) && Value(a) <= Value(b) < Value(c) <= MAX_INT64
    ensures Parse(Header(a, b, c)) == Ok(Span(Value(a), Value(b), Value(c)))
  {
    ParsesHeader(a, b, c);
  }

  /** The server reads from every chunk the client sends exactly the span the client meant. */
  lemma ParsePrinted(start: nat, n: nat, total: nat)
    requires n > 0 && start + n <= total <= MAX_INT64
    ensures Parse(Format(start, n, total)) == Ok(Span(start, start + n - 1, total))
  {
    DecimalValue(start);
    DecimalValue(start + n - 1);
    DecimalValue(total);
    ParsesDigits(Decimal(start), Decimal(start + n - 1), Decimal(total));
  }

  lemma NumberThenSplits(s: string, sep: char)
    requires NumberThen(s, sep).Some?
    ensures var (d, rest) := NumberThen(s, sep).value; Number(d) && s == d + ([sep] + rest)
  {
    var d := DigitsAt(s);
    assert s == s[..|d|] + ([sep] + s[|d| + 1..]);
  }

  lemma FieldsSplit(s: string)
    requires Fields(s).Some?
    ensures var (a, b, c) := Fields(s).value;
      Number(a) && Number(b) && Number(c) && s == a + ("-" + (b + ("/" + c)))
  {
    NumberThenSplits(s, '-');
    var (a, afterA) := NumberThen(s, '-').value;
    NumberThenSplits(afterA, '/');
  }

  lemma TrimmedParses(a: string, b: string, c: string)
    requires Number(a) && Number(b) && Number(c)
    ensures ParseTrimmed(Header(a, b, c)) == CheckSpan(a, b, c)
  {
    var fields := a + ("-" + (b + ("/" + c)));
    FieldsPrinted(a, b, c);
    assert (UNIT + fields)[|UNIT|..] == fields;
  }

  lemma TrimmedSplits(t: string) returns (a: string, b: string, c: string)
    requires ParseTrimmed(t) != Err(BadForm)
    ensures Number(a) && Number(b) && Number(c) && t == Header(a, b, c)
  {
    var fields := t[|UNIT|..];
    FieldsSplit(fields);
    var (x, y, z) := Fields(fields).value;
    a, b, c := x, y, z;
    assert t == UNIT + fields;
  }

  /** The three numbers, in digits, are those of the span. */
  predicate Spells(a: string, b: string, c: string, span: Span) {
    && Number(a) && Number(b) && Number(c)
    && Value(a) == span.start && Value(b) == span.end && Value(c) == span.total
  }

  lemma SpelledIsChecked(a: string, b: string, c: string, span: Span)
    requires Number(a) && Number(b) && Number(c)
    ensures CheckSpan(a, b, c) == Ok(span) <==>
      Spells(a, b, c, span) && span.start <= span.end < span.total <= MAX_INT64
  {
  }

  lemma TrimmedIff(t: string, span: Span)
    ensures ParseTrimmed(t) == Ok(span) <==>
      span.start <= span.end < span.total <= MAX_INT64
      && exists a, b, c :: Spells(a, b, c, span) && t == Header(a, b, c)
  {
    if ParseTrimmed(t) == Ok(span) {
      var a, b, c := TrimmedSplits(t);
      TrimmedParses(a, b, c);
      SpelledIsChecked(a, b, c, span);
    }
    if a, b, c :| Spells(a, b, c, span) && t == Header(a, b, c) {
      TrimmedParses(a, b, c);
      SpelledIsChecked(a, b, c, span);
    }
  }

  /** A header is accepted as a span exactly when, up to spaces around it, it spells that span and the span is a valid one. */
  lemma ParsesIff(v: string, span: Span)
    ensures Parse(v) == Ok(span) <==>
      span.start <= span.end < span.total <= MAX_INT64
      && exists a, b, c :: Spells(a, b, c, span) && TrimSpace(v) == Header(a, b, c)
  {
    TrimmedIff(TrimSpace(v), span);
  }

  /** The header as it is written. */
  lemma HeaderText(a: string, b: string, c: string)
    ensures Header(a, b, c) == "bytes " + a + "-" + b + "/" + c
    ensures MAX_INT64 == 9223372036854775807
  {
  }

  predicate AllSpaces(s: string) {
    forall c <- s :: IsSpace(c)
  }

  lemma {:induction false} TrimsLeft(pad: string, s: string)
    requires AllSpaces(pad) && (s != "" ==> !IsSpace(s[0]))
    ensures TrimLeft(pad + s) == s
    decreases |pad|
  {
    if pad != "" {
      assert pad[0] in pad && (pad + s)[1..] == pad[1..] + s;
      TrimsLeft(pad[1..], s);
    } else {
      assert pad + s == s;
    }
  }

  lemma {:induction false} TrimsRight(s: string, pad: string)
    requires AllSpaces(pad) && (s != "" ==> !IsSpace(s[|s| - 1]))
    ensures TrimRight(s + pad) == s
    decreases |pad|
  {
    if pad != "" {
      assert pad[|pad| - 1] in pad && (s + pad)[..|s + pad| - 1] == s + pad[..|pad| - 1];
      TrimsRight(s, pad[..|pad| - 1]);
    } else {
      assert s + pad == s;
    }
  }

  /** Spaces around a text are dropped, and nothing inside it. */
  lemma TrimsBothSides(before: string, s: string, behind: string)
    requires AllSpaces(before) && AllSpaces(behind) && s != "" && !IsSpace(s[0]) && !IsSpace(s[|s| - 1])
    ensures TrimSpace(before + s + behind) == s
  {
    assert before + s + behind == before + (s + behind);
    TrimsLeft(before, s + behind);
    TrimsRight(s, behind);
  }

  /** The spaces of Unicode, by their code points. */
  lemma Spaces(c: char)
    ensures IsSpace(c) <==>
      var n := c as int;
      || 9 <= n <= 13 || n == 32 || n == 0x85 || n == 0xa0 || n == 0x1680
      || 0x2000 <= n <= 0x200a || n == 0x2028 || n == 0x2029 || n == 0x202f || n == 0x205f || n == 0x3000
  {
  }

  /** Of a header that has the form, the first thing that is wrong is named: a number too large, or the span. */
  lemma RangeErrors(v: string, a: string, b: string, c: string)
    requires Number(a) && Number(b) && Number(c) && TrimSpace(v) == Header(a, b, c)
    ensures Parse(v) == Err(BadStart) <==> Value(a) > MAX_INT64
    ensures Parse(v) == Err(BadEnd) <==> Value(a) <= MAX_INT64 < Value(b)
    ensures Parse(v) == Err(BadTotal) <==> Value(a) <= MAX_INT64 && Value(b) <= MAX_INT64 < Value(c)
    ensures Parse(v) == Err(BadSpan) <==>
      Value(a) <= MAX_INT64 && Value(b) <= MAX_INT64 && Value(c) <= MAX_INT64 && (Value(b) < Value(a) || Value(b) >= Value(c))
  {
    TrimmedParses(a, b, c);
  }

  lemma CheckedIsNotForm(a: string, b: string, c: string)
    requires Number(a) && Number(b) && Number(c)
    ensures ParseTrimmed(Header(a, b, c)) != Err(BadForm)
  {
    TrimmedParses(a, b, c);
  }

  /** What does not have the form is refused as such. */
  lemma FormIff(v: string)
    ensures Parse(v) == Err(BadForm) <==>
      forall a, b, c | Number(a) && Number(b) && Number(c) :: TrimSpace(v) != Header(a, b, c)
  {
    var t := TrimSpace(v);
    if ParseTrimmed(t) == Err(BadForm) {
      forall a, b, c | Number(a) && Number(b) && Number(c) ensures t != Header(a, b, c) {
        CheckedIsNotForm(a, b, c);
      }
    } else {
      var a, b, c := TrimmedSplits(t);
    }
  }
}
