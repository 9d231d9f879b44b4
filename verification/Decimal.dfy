/** Signed 64-bit integers and their decimal text, as Go's strconv prints and parses them. */
module Decimal {

  datatype Option<+T> = None | Some(value: T)

  const INT64_MIN: int := -0x8000_0000_0000_0000
  const INT64_MAX: int := 0x7FFF_FFFF_FFFF_FFFF
  const TWO_64: int := 0x1_0000_0000_0000_0000

  predicate IsInt64(n: int) { INT64_MIN <= n <= INT64_MAX }

  type Int64 = n: int | IsInt64(n)

  /** Two's-complement wrap-around: the int64 congruent to `n` modulo 2^64. */
  function Wrap(n: int): (r: Int64)
    ensures IsInt64(n) ==> r == n
    ensures (r - n) % TWO_64 == 0
  {
    var m := (n - INT64_MIN) % TWO_64;
    assert (m + INT64_MIN - n) % TWO_64 == 0 by {
      var q := (n - INT64_MIN) / TWO_64;
      assert m + INT64_MIN - n == TWO_64 * -q;
    }
    m + INT64_MIN
  }

  /** Wrapping early or late makes no difference: the law that lets a run of wrapped sums be one sum. */
  lemma WrapSum(a: int, b: int)
    ensures Wrap(Wrap(a) + b) == Wrap(a + b)
  {
    var x := Wrap(a) + b - INT64_MIN;
    var y := a + b - INT64_MIN;
    var k := (Wrap(a) - a) / TWO_64;
    assert x == y + TWO_64 * k;
    ModShift(y, k);
  }

  lemma ModShift(y: int, k: int)
    ensures (y + TWO_64 * k) % TWO_64 == y % TWO_64
  {
    var q, r := y / TWO_64, y % TWO_64;
    assert y + TWO_64 * k == TWO_64 * (q + k) + r;
  }

  predicate IsDigit(c: char) { '0' <= c <= '9' }

  predicate AllDigits(s: string) { forall i :: 0 <= i < |s| ==> IsDigit(s[i]) }

  function DigitChar(d: nat): (c: char)
    requires d < 10
    ensures IsDigit(c)
  {
    ('0' as int + d) as char
  }

  function DigitValue(c: char): nat
    requires IsDigit(c)
  {
    c as int - '0' as int
  }

  /** The value of a run of decimal digits, most significant first. */
  function Value(s: string): nat
    requires AllDigits(s)
  {
    if s == [] then 0 else 10 * Value(s[..|s| - 1]) + DigitValue(s[|s| - 1])
  }

  /** The shortest decimal text of a natural number. */
  function Digits(n: nat): (s: string)
    ensures s != [] && AllDigits(s) && Value(s) == n
    ensures s[0] == '0' ==> n == 0 && s == "0"
  {
    if n < 10 then [DigitChar(n)]
    else
      var s := Digits(n / 10) + [DigitChar(n % 10)];
      assert s[..|s| - 1] == Digits(n / 10);
      s
  }

  /** strconv.FormatInt(n, 10) and fmt's %d. */
  function FormatInt(n: int): (s: string)
    ensures s != []
  {
    if n < 0 then "-" + Digits(-n) else Digits(n)
  }

  /** strconv.ParseInt(s, 10, 64), and strconv.Atoi on a 64-bit machine. */
  function ParseInt(s: string): (r: Option<Int64>)
    ensures |s| == 0 ==> r == None
  {
    if s == [] then None
    else
      var body := if s[0] == '-' || s[0] == '+' then s[1..] else s;
      if body == [] || !AllDigits(body) then None
      else
        var v: int := if s[0] == '-' then 0 - Value(body) else Value(body);
        if IsInt64(v) then Some(v) else None
  }

  /** Parsing undoes printing on all of int64, so printing is injective and needs no escaping. */
  lemma ParseFormat(n: int)
    requires IsInt64(n)
    ensures ParseInt(FormatInt(n)) == Some(n)
    ensures forall i :: 0 <= i < |FormatInt(n)| ==> FormatInt(n)[i] == '-' || IsDigit(FormatInt(n)[i])
  {
    if n < 0 {
      assert FormatInt(n)[1..] == Digits(-n);
    }
  }

  function Pow10(k: nat): nat {
    if k == 0 then 1 else 10 * Pow10(k - 1)
  }

  lemma {:induction false} DigitsAreFew(n: nat, k: nat)
    requires n < Pow10(k) && k > 0
    ensures |Digits(n)| <= k
  {
    if n >= 10 {
      assert k > 1 by { assert Pow10(1) == 10; }
      DigitsAreFew(n / 10, k - 1);
    }
  }

  /** The text of an int64 has at most 20 characters. */
  lemma FormatIsShort(n: int)
    requires IsInt64(n)
    ensures |FormatInt(n)| <= 20
  {
    assert Pow10(10) == 1_00000_00000;
    assert Pow10(19) == 1_0000_00000_00000_00000;
    DigitsAreFew(if n < 0 then -n else n, 19);
  }

  const DIGITS := "0123456789"

  /** The digits are the ten that they should be, each worth its place among them. */
  lemma DigitTable(d: nat, c: char)
    requires d < 10
    ensures DigitChar(d) == DIGITS[d] && DigitValue(DIGITS[d]) == d
    ensures IsDigit(c) <==> c in DIGITS
  {
    assert DIGITS[0] == '0' && DIGITS[1] == '1' && DIGITS[2] == '2' && DIGITS[3] == '3' && DIGITS[4] == '4';
    assert DIGITS[5] == '5' && DIGITS[6] == '6' && DIGITS[7] == '7' && DIGITS[8] == '8' && DIGITS[9] == '9';
    if IsDigit(c) {
      assert DIGITS[c as int - '0' as int] == c;
    }
  }

  /** An optional sign and decimal digits, worth `v`. */
  predicate Denotes(s: string, sign: string, body: string, v: int) {
    && s == sign + body && body != "" && AllDigits(body)
    && (((sign == "" || sign == "+") && v == Value(body)) || (sign == "-" && v == 0 - Value(body)))
  }

  /** Parsing accepts exactly the texts of int64 numbers, with a sign or without and with leading zeros. */
  lemma ParsesExactly(s: string, v: int)
    ensures ParseInt(s).Some? && ParseInt(s).value == v
       <==> IsInt64(v) && exists sign, body :: Denotes(s, sign, body, v)
  {
    if ParseInt(s).Some? && ParseInt(s).value == v {
      var sign, body := if s[0] == '-' || s[0] == '+' then s[..1] else "", if s[0] == '-' || s[0] == '+' then s[1..] else s;
      assert s == sign + body;
      assert Denotes(s, sign, body, v);
    }
    if sign, body :| IsInt64(v) && Denotes(s, sign, body, v) {
      assert IsDigit(body[0]);
      assert sign == "" ==> s == body;
      assert sign != "" ==> s[1..] == body;
    }
  }

  /** A number is read from the left, each digit worth ten times those after it; -120 is written so. */
  lemma PlacesCount(s: string, c: char)
    requires AllDigits(s) && IsDigit(c)
    ensures AllDigits(s + [c]) && Value(s + [c]) == 10 * Value(s) + DigitValue(c) && Value("") == 0
    ensures FormatInt(-120) == "-120"
  {
    assert (s + [c])[..|s|] == s;
    assert Digits(1) == "1" && Digits(12) == "12" && Digits(120) == "120";
    assert "-" + "120" == "-120";
  }
}
