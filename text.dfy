/** The pieces of the Java string library that the service relies on, restricted
    to ASCII: `toUpperCase`, the case folding of a `(?i)` pattern, `String.valueOf`
    and `Integer.parseInt` / `Long.parseLong`. */
module Text {
  import opened Outcomes

  const MinInt: int := -0x8000_0000
  const MaxInt: int := 0x7FFF_FFFF
  const MinLong: int := -0x8000_0000_0000_0000
  const MaxLong: int := 0x7FFF_FFFF_FFFF_FFFF

  predicate IsAsciiLower(c: char) { 'a' <= c <= 'z' }

  predicate IsAsciiUpper(c: char) { 'A' <= c <= 'Z' }

  /** `Character.toUpperCase` on the ASCII range; every other character is kept. */
  function UpperChar(c: char): (u: char)
    ensures !IsAsciiLower(u)
    ensures IsAsciiLower(c) ==> IsAsciiUpper(u) && u as int == c as int - 32
    ensures !IsAsciiLower(c) ==> u == c
  {
    if IsAsciiLower(c) then (c as int - 32) as char else c
  }

  /** `String.toUpperCase`, ASCII only. */
  function ToUpper(s: string): (r: string)
    ensures |r| == |s|
    ensures forall i :: 0 <= i < |s| ==> r[i] == UpperChar(s[i])
  {
    seq(|s|, i requires 0 <= i < |s| => UpperChar(s[i]))
  }

  /** The folding a case-insensitive pattern applies without UNICODE_CASE:
      ASCII upper-case letters become lower case, nothing else changes. */
  function FoldChar(c: char): (f: char)
    ensures !IsAsciiUpper(f)
    ensures IsAsciiUpper(c) ==> IsAsciiLower(f) && f as int == c as int + 32
    ensures !IsAsciiUpper(c) ==> f == c
  {
    if IsAsciiUpper(c) then (c as int + 32) as char else c
  }

  /** Two strings are equal up to ASCII case. */
  predicate SameIgnoringCase(a: string, b: string) {
    |a| == |b| && forall i :: 0 <= i < |a| ==> FoldChar(a[i]) == FoldChar(b[i])
  }

  /** Comparing `s.toUpperCase()` with an upper-case constant `t` is exactly a
      case-insensitive comparison of `s` with `t`. */
  lemma {:induction false} UpperEqualsIffSameIgnoringCase(s: string, t: string)
    requires ToUpper(t) == t
    ensures ToUpper(s) == t <==> SameIgnoringCase(s, t)
  {
    if |s| == |t| {
      forall i | 0 <= i < |s|
        ensures UpperChar(s[i]) == t[i] <==> FoldChar(s[i]) == FoldChar(t[i])
      {
        assert UpperChar(t[i]) == t[i];
      }
      if SameIgnoringCase(s, t) {
        assert ToUpper(s) == t;
      }
    }
  }

  // ----- decimal numbers -----

  predicate IsDigit(c: char) { '0' <= c <= '9' }

  function DigitValue(c: char): nat
    requires IsDigit(c)
  {
    c as int - '0' as int
  }

  function DigitChar(d: nat): (c: char)
    requires d < 10
    ensures IsDigit(c) && DigitValue(c) == d
  {
    ('0' as int + d) as char
  }

  predicate AllDigits(s: string) {
    forall i :: 0 <= i < |s| ==> IsDigit(s[i])
  }

  /** The value of a run of decimal digits, most significant first. */
  function DigitsValue(s: string): nat
    requires AllDigits(s)
  {
    if s == [] then 0 else DigitsValue(s[..|s| - 1]) * 10 + DigitValue(s[|s| - 1])
  }

  /** The shortest decimal rendering of a natural number. */
  function NatToDecimal(n: nat): (s: string)
    ensures |s| > 0 && AllDigits(s)
    ensures n > 0 ==> s[0] != '0'
  {
    if n < 10 then [DigitChar(n)] else NatToDecimal(n / 10) + [DigitChar(n % 10)]
  }

  /** `String.valueOf` of an integer: a minus sign for negatives, then the digits. */
  function IntToDecimal(n: int): string {
    if n < 0 then "-" + NatToDecimal(-n) else NatToDecimal(n)
  }

  /** The text `Integer.parseInt` accepts: an optional sign, then one or more
      ASCII digits. */
  predicate IsDecimalText(s: string) {
    if |s| > 0 && (s[0] == '-' || s[0] == '+') then |s| > 1 && AllDigits(s[1..])
    else |s| > 0 && AllDigits(s)
  }

  /** The value a decimal text denotes. */
  function DecimalValue(s: string): int
    requires IsDecimalText(s)
  {
    if s[0] == '-' then -(DigitsValue(s[1..]) as int)
    else if s[0] == '+' then DigitsValue(s[1..])
    else DigitsValue(s)
  }

  /** The decimal parse of `Integer.parseInt` (range MinInt..MaxInt) and
      `Long.parseLong` (range MinLong..MaxLong): an optional sign, then one or
      more digits whose value must lie within [lo, hi]; anything else throws
      NumberFormatException carrying the input text. */
  function ParseInteger(s: string, lo: int, hi: int): (r: Result<int>)
    ensures r.Ok? <==> IsDecimalText(s) && lo <= DecimalValue(s) <= hi
    ensures r.Ok? ==> r.value == DecimalValue(s) && lo <= r.value <= hi
    ensures r.Ok? ==> IsDigit(s[0]) || (|s| > 1 && (s[0] == '-' || s[0] == '+'))
    ensures r.Err? ==> r.error == NumberFormat(s)
    ensures s == [] ==> r.Err?
  {
    var signed := |s| > 0 && (s[0] == '-' || s[0] == '+');
    var digits := if signed then s[1..] else s;
    if digits == [] || !AllDigits(digits) then Err(NumberFormat(s))
    else
      var v: int := if |s| > 0 && s[0] == '-' then -(DigitsValue(digits) as int) else DigitsValue(digits);
      if lo <= v <= hi then Ok(v) else Err(NumberFormat(s))
  }

  function ParseInt(s: string): Result<int> { ParseInteger(s, MinInt, MaxInt) }

  function ParseLong(s: string): Result<int> { ParseInteger(s, MinLong, MaxLong) }

  /** Reading back the digits of a rendered natural number gives the number. */
  lemma {:induction false} NatToDecimalValue(n: nat)
    ensures DigitsValue(NatToDecimal(n)) == n
  {
    if n >= 10 {
      var s := NatToDecimal(n);
      NatToDecimalValue(n / 10);
      assert s[..|s| - 1] == NatToDecimal(n / 10);
    }
  }

  /** Parsing is the inverse of rendering: the decimal text of `n` parses back
      to `n` exactly when `n` lies in the parser's range. */
  lemma ParseIntegerOfDecimal(n: int, lo: int, hi: int)
    ensures ParseInteger(IntToDecimal(n), lo, hi)
            == if lo <= n <= hi then Ok(n) else Err(NumberFormat(IntToDecimal(n)))
  {
    var text := IntToDecimal(n);
    if n < 0 {
      var digits := NatToDecimal(-n);
      NatToDecimalValue(-n);
      assert text[0] == '-' && text[1..] == digits;
      assert DigitsValue(text[1..]) == -n;
    } else {
      var digits := NatToDecimal(n);
      NatToDecimalValue(n);
      assert text == digits && IsDigit(text[0]);
    }
  }

  /** A digit run with its leading zeros dropped, keeping at least one digit. */
  function StripLeadingZeros(d: string): (r: string)
    ensures |r| <= |d|
  {
    if |d| > 1 && d[0] == '0' then StripLeadingZeros(d[1..]) else d
  }

  /** The text a parsed value renders back to: the input without a '+' sign,
      without leading zeros, and "0" for a negative zero. */
  function CanonicalDecimal(s: string): string
    requires IsDecimalText(s)
  {
    var digits := StripLeadingZeros(if s[0] == '-' || s[0] == '+' then s[1..] else s);
    if s[0] == '-' && digits != "0" then "-" + digits else digits
  }

  /** A leading zero adds nothing to the value of a digit run. */
  lemma {:induction false} LeadingZeroValue(d: string)
    requires AllDigits(d)
    ensures AllDigits(['0'] + d) && DigitsValue(['0'] + d) == DigitsValue(d)
    decreases |d|
  {
    var z := ['0'] + d;
    if d != [] {
      assert z[..|z| - 1] == ['0'] + d[..|d| - 1];
      LeadingZeroValue(d[..|d| - 1]);
    } else {
      assert z[..|z| - 1] == [];
    }
  }

  lemma {:induction false} StripLeadingZerosValue(d: string)
    requires AllDigits(d) && d != []
    ensures var t := StripLeadingZeros(d);
            && t != [] && AllDigits(t) && DigitsValue(t) == DigitsValue(d)
            && (|t| == 1 || t[0] != '0')
    decreases |d|
  {
    if |d| > 1 && d[0] == '0' {
      StripLeadingZerosValue(d[1..]);
      LeadingZeroValue(d[1..]);
      assert ['0'] + d[1..] == d;
    }
  }

  /** A digit run is worth at least its leading digit. */
  lemma {:induction false} LeadingDigitBound(d: string)
    requires AllDigits(d) && d != []
    ensures DigitsValue(d) >= DigitValue(d[0])
    decreases |d|
  {
    if |d| > 1 {
      LeadingDigitBound(d[..|d| - 1]);
    }
  }

  /** A digit run without leading zeros is the rendering of its own value. */
  lemma {:induction false} DecimalOfDigits(d: string)
    requires AllDigits(d) && d != [] && (|d| == 1 || d[0] != '0')
    ensures NatToDecimal(DigitsValue(d)) == d
    decreases |d|
  {
    var p := d[..|d| - 1];
    var c := d[|d| - 1];
    assert DigitChar(DigitValue(c)) == c;
    if |d| > 1 {
      assert p[0] == d[0];
      LeadingDigitBound(p);
      DecimalOfDigits(p);
      assert d == p + [c];
    }
  }

  /** The other half of the round trip: a successful parse, rendered back,
      gives the input without its '+' sign and leading zeros. */
  lemma ParseIntegerRendersBack(s: string, lo: int, hi: int)
    requires ParseInteger(s, lo, hi).Ok?
    ensures IntToDecimal(ParseInteger(s, lo, hi).value) == CanonicalDecimal(s)
  {
    var d := if s[0] == '-' || s[0] == '+' then s[1..] else s;
    var t := StripLeadingZeros(d);
    StripLeadingZerosValue(d);
    DecimalOfDigits(t);
    if t != "0" {
      LeadingDigitBound(t);
    }
  }

  /** `String.valueOf(Object)`: the text of a map value, "null" for null. */
  function ValueOf(v: Value): (r: string)
    ensures v.Null? ==> r == "null"
    ensures v.Str? ==> r == v.s
    ensures v.Int? ==> r == IntToDecimal(v.n)
    ensures v.Bool? ==> r == if v.b then "true" else "false"
  {
    match v
    case Null => "null"
    case Str(s) => s
    case Int(n) => IntToDecimal(n)
    case Bool(b) => if b then "true" else "false"
  }

  /** The text of an integer value parses back to it when it fits an `int`;
      null and boolean values never parse. */
  lemma ValueOfParses(v: Value)
    ensures v.Int? ==> ParseInt(ValueOf(v)) == if MinInt <= v.n <= MaxInt then Ok(v.n) else Err(NumberFormat(ValueOf(v)))
    ensures v.Null? || v.Bool? ==> ParseInt(ValueOf(v)) == Err(NumberFormat(ValueOf(v)))
  {
    if v.Int? {
      ParseIntegerOfDecimal(v.n, MinInt, MaxInt);
    } else if v.Null? || v.Bool? {
      assert !IsDigit(ValueOf(v)[0]);
    }
  }
}
