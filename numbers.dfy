/** The number conversions the parser applies to values of the chart file:
    Double.parseDouble, Math.round followed by an `(int)` cast, and
    Integer.parseInt. Decimal text is read exactly, as a `real`. */
module Numbers {
  import opened Base

  const IntMin: int := -0x8000_0000
  const IntMax: int := 0x7fff_ffff
  const LongMin: int := -0x8000_0000_0000_0000
  const LongMax: int := 0x7fff_ffff_ffff_ffff

  predicate IsDigit(c: char) { '0' <= c <= '9' }

  predicate AllDigits(s: string) { forall i :: 0 <= i < |s| ==> IsDigit(s[i]) }

  function DigitsValue(s: string): nat
    requires AllDigits(s)
  {
    if s == [] then 0 else DigitsValue(s[..|s| - 1]) * 10 + (s[|s| - 1] as int - '0' as int)
  }

  function Pow10(n: nat): (r: nat)
    ensures r > 0
  {
    if n == 0 then 1 else 10 * Pow10(n - 1)
  }

  /** String.trim: strips the characters up to U+0020 at both ends. */
  function Trim(s: string): (r: string)
    ensures |r| <= |s|
  {
    if s != [] && s[0] <= ' ' then Trim(s[1..])
    else if s != [] && s[|s| - 1] <= ' ' then Trim(s[..|s| - 1])
    else s
  }

  function IndexOf(s: string, c: char): (k: nat)
    ensures k <= |s|
    ensures k < |s| ==> s[k] == c
  {
    if s == [] then 0 else if s[0] == c then 0 else 1 + IndexOf(s[1..], c)
  }

  /** Double.parseDouble on trimmed text of the form [+-]digits[.digits]
      (at least one digit), read exactly. */
  function ParseDouble(s: string): (r: Result<real, Fault>)
    ensures r.Failure? ==> r.error == NumberFormat(Some(s))
  {
    var t := Trim(s);
    var negative := |t| > 0 && t[0] == '-';
    var body := if |t| > 0 && (t[0] == '-' || t[0] == '+') then t[1..] else t;
    var dot := IndexOf(body, '.');
    var whole := body[..dot];
    var fraction := if dot < |body| then body[dot + 1..] else [];
    if AllDigits(whole) && AllDigits(fraction) && |whole| + |fraction| > 0 then
      var magnitude := DigitsValue(whole) as real + DigitsValue(fraction) as real / Pow10(|fraction|) as real;
      Success(if negative then -magnitude else magnitude)
    else Failure(NumberFormat(Some(s)))
  }

  /** The `(int)` cast of a `long`: keeps the low 32 bits, as a signed value. */
  function Wrap32(n: int): (r: int)
    ensures IntMin <= r <= IntMax
    ensures IntMin <= n <= IntMax ==> r == n
    ensures (r - n) % 0x1_0000_0000 == 0
  {
    var m := n % 0x1_0000_0000;
    if m > IntMax then m - 0x1_0000_0000 else m
  }

  /** Math.round(double): the closest long, ties towards positive infinity,
      saturated to the range of `long`. */
  function Round(x: real): (r: int)
    ensures LongMin <= r <= LongMax
    ensures LongMin <= (x + 0.5).Floor <= LongMax ==> r as real <= x + 0.5 < r as real + 1.0
  {
    var f := (x + 0.5).Floor;
    if f < LongMin then LongMin else if f > LongMax then LongMax else f
  }

  /** Integer.parseInt on ASCII digits with an optional sign; a null
      argument, an empty or malformed text and a value outside the range of
      `int` raise NumberFormatException. */
  function ParseInt(s: Option<string>): (r: Result<int, Fault>)
    ensures r.Success? ==> IntMin <= r.value <= IntMax
    ensures r.Failure? ==> r.error == NumberFormat(s)
  {
    match s
    case None => Failure(NumberFormat(None))
    case Some(t) =>
      var negative := |t| > 0 && t[0] == '-';
      var digits := if |t| > 0 && (t[0] == '-' || t[0] == '+') then t[1..] else t;
      if digits == [] || !AllDigits(digits) then Failure(NumberFormat(s))
      else
        var magnitude: int := DigitsValue(digits);
        var v := if negative then -magnitude else magnitude;
        if IntMin <= v <= IntMax then Success(v) else Failure(NumberFormat(s))
  }
}
