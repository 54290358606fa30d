// Go's fixed-width integers and the decimal conversions of package strconv.
module GoNumbers {
  import opened Wrappers

  const TWO_TO_16: int := 0x1_0000
  const TWO_TO_32: int := 0x1_0000_0000
  const TWO_TO_63: int := 0x8000_0000_0000_0000
  const TWO_TO_64: int := 0x1_0000_0000_0000_0000

  type uint8 = x: int | 0 <= x < 256
  type uint16 = x: int | 0 <= x < TWO_TO_16
  type uint32 = x: int | 0 <= x < TWO_TO_32

  predicate IsInt64(x: int) {
    -TWO_TO_63 <= x < TWO_TO_63
  }

  /** The int64 that two's-complement arithmetic leaves of an exact result `x`. */
  function Wrap64(x: int): (r: int)
    ensures IsInt64(r)
    ensures IsInt64(x) <==> r == x
    ensures (r - x) % TWO_TO_64 == 0
  {
    var low := x % TWO_TO_64;
    if low < TWO_TO_63 then low else low - TWO_TO_64
  }

  /** Go's `/` truncates toward zero. */
  function TruncDiv(a: int, b: int): (q: int)
    requires b > 0
    ensures a >= 0 ==> q * b <= a < q * b + b
    ensures a < 0 ==> q * b - b < a <= q * b
  {
    if a >= 0 then a / b else -((-a) / b)
  }

  /** Go's `%` takes the sign of the dividend. */
  function TruncMod(a: int, b: int): (r: int)
    requires b > 0
    ensures a == TruncDiv(a, b) * b + r
    ensures if a >= 0 then 0 <= r < b else -b < r <= 0
  {
    a - TruncDiv(a, b) * b
  }

  predicate IsDigit(c: char) {
    '0' <= c <= '9'
  }

  predicate AllDigits(s: string) {
    forall i :: 0 <= i < |s| ==> IsDigit(s[i])
  }

  function DecimalValue(s: string): (n: nat)
    requires AllDigits(s)
  {
    if s == "" then 0
    else 10 * DecimalValue(s[..|s| - 1]) + (s[|s| - 1] as int - '0' as int)
  }

  /** strconv.ParseUint with base 10: digits only, at least one, value at most `max`. */
  function ParseUint(s: string, max: nat): (r: Option<nat>)
    ensures r.Some? ==> r.value <= max
  {
    if s == "" || !AllDigits(s) || DecimalValue(s) > max then None else Some(DecimalValue(s))
  }

  /** strconv.ParseInt with base 10 and 64 bits: an optional sign before the digits. */
  function ParseInt64(s: string): (r: Option<int>)
    ensures r.Some? ==> IsInt64(r.value)
  {
    if s != "" && s[0] == '-' then
      var magnitude := ParseUint(s[1..], TWO_TO_63);
      if magnitude.Some? then Some(0 - magnitude.value) else None
    else
      var magnitude := if s != "" && s[0] == '+' then s[1..] else s;
      match ParseUint(magnitude, TWO_TO_63 - 1)
      case Some(n) => Some(n)
      case None => None
  }

  /** strconv.Itoa on a non-negative value. */
  function DecimalText(n: nat): (s: string)
    ensures s != "" && AllDigits(s)
  {
    var digit := ('0' as int + n % 10) as char;
    if n < 10 then [digit] else DecimalText(n / 10) + [digit]
  }

  /** strconv.Itoa. */
  function Itoa(n: int): (s: string)
    ensures s != "" && (IsDigit(s[0]) || s[0] == '-')
  {
    if n < 0 then "-" + DecimalText(-n) else DecimalText(n)
  }

  lemma {:induction false} DecimalTextValue(n: nat)
    ensures DecimalValue(DecimalText(n)) == n
  {
    if n >= 10 {
      var s := DecimalText(n);
      assert s[..|s| - 1] == DecimalText(n / 10);
      DecimalTextValue(n / 10);
    }
  }

  /** Printing then parsing gives the number back, or a range error when it does not fit. */
  lemma ItoaParseUint(n: nat, max: nat)
    ensures ParseUint(Itoa(n), max) == if n <= max then Some(n) else None
  {
    DecimalTextValue(n);
  }

  /** ParseInt undoes Itoa on every int64, the most negative one included. */
  lemma ItoaParseInt64(n: int)
    requires IsInt64(n)
    ensures ParseInt64(Itoa(n)) == Some(n)
  {
    if n < 0 {
      assert Itoa(n)[1..] == DecimalText(-n);
      ItoaParseUint(-n, TWO_TO_63);
    } else {
      ItoaParseUint(n, TWO_TO_63 - 1);
    }
  }

  /** Base ten, most significant digit first. */
  lemma PrintedTen()
    ensures Itoa(10) == "10" && Itoa(-10) == "-10" && Itoa(0) == "0"
  {
    assert DecimalText(1) == "1";
  }

  /** A plus sign is read although it is never printed. */
  lemma PlusIsRead(n: nat)
    requires IsInt64(n)
    ensures ParseInt64("+" + Itoa(n)) == Some(n)
  {
    assert ("+" + Itoa(n))[1..] == DecimalText(n);
    DecimalTextValue(n);
  }

  /** Any character that is neither a digit nor a leading sign makes a number unreadable. */
  lemma OtherTextIsUnreadable(s: string, i: nat)
    requires i < |s| && !IsDigit(s[i]) && (i == 0 ==> s[0] != '-' && s[0] != '+')
    ensures ParseInt64(s).None?
  {
    if i > 0 {
      assert s[1..][i - 1] == s[i];
    }
  }
}
