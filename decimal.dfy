/** Decimal text of numbers: `std::to_string`, `std::stoul` (base 10) and Python's `str`/`int` on integers. */
module Decimal {
  import opened Wrappers
  import opened Words
  import opened Exceptions

  predicate IsDigit(c: char) {
    '0' <= c <= '9'
  }

  predicate AllDigits(s: string) {
    forall i | 0 <= i < |s| :: IsDigit(s[i])
  }

  /** The white-space characters of the C locale (`std::isspace`), which Python's `strip` also removes. */
  predicate IsSpace(c: char) {
    c == ' ' || c == '\t' || c == '\n' || c == '\r' || c == '\U{b}' || c == '\U{c}'
  }

  function DigitChar(d: nat): (c: char)
    requires d < 10
    ensures IsDigit(c)
  {
    ('0' as int + d) as char
  }

  function DigitValue(c: char): (d: nat)
    requires IsDigit(c)
    ensures d < 10
  {
    c as int - '0' as int
  }

  /** The shortest decimal text of `n`, as `std::to_string` writes it. */
  function NatToString(n: nat): (s: string)
    ensures |s| > 0 && AllDigits(s)
    ensures |s| > 1 ==> s[0] != '0'
  {
    if n < 10 then [DigitChar(n)] else NatToString(n / 10) + [DigitChar(n % 10)]
  }

  /** `std::to_string` of an `int`, and Python's `str` of an integer: a `-` before the digits of a negative value. */
  function IntToString(i: int): (s: string)
    ensures |s| > 0
    ensures i < 0 <==> s[0] == '-'
    ensures i >= 0 ==> AllDigits(s)
    ensures i < 0 ==> AllDigits(s[1..]) && |s| > 1
  {
    if i < 0 then "-" + NatToString(-i) else NatToString(i)
  }

  /** The number a string of digits denotes. */
  function DigitsValue(s: string): nat
    requires AllDigits(s)
  {
    if s == [] then 0 else 10 * DigitsValue(s[..|s| - 1]) + DigitValue(s[|s| - 1])
  }

  /** Reading back the text of `n` gives `n`. */
  lemma {:induction false} NatToStringRoundTrip(n: nat)
    ensures DigitsValue(NatToString(n)) == n
  {
    var s := NatToString(n);
    if n >= 10 {
      NatToStringRoundTrip(n / 10);
      assert s[..|s| - 1] == NatToString(n / 10);
    }
  }

  /** The number of leading white-space characters of `s`. */
  function SpacePrefix(s: string): (k: nat)
    ensures k <= |s|
    ensures forall i | 0 <= i < k :: IsSpace(s[i])
    ensures k < |s| ==> !IsSpace(s[k])
  {
    if |s| > 0 && IsSpace(s[0]) then 1 + SpacePrefix(s[1..]) else 0
  }

  function DigitPrefix(s: string): (k: nat)
    ensures k <= |s|
    ensures AllDigits(s[..k])
    ensures k < |s| ==> !IsDigit(s[k])
  {
    if |s| > 0 && IsDigit(s[0]) then
      var k := 1 + DigitPrefix(s[1..]);
      assert s[..k] == [s[0]] + s[1..][..k - 1];
      k
    else 0
  }

  /** `std::stoul(s)`: skip leading white space, read an optional sign and the longest run of digits
      (anything after it is ignored); no digits throws `std::invalid_argument`, a value beyond `unsigned long`
      throws `std::out_of_range`, and a `-` sign negates modulo 2^64. */
  function Stoul(s: string): (r: Result<Word, Exception>)
    ensures r.Failure? ==> r.error == InvalidArgument || r.error == OutOfRange
  {
    var t := s[SpacePrefix(s)..];
    var negative := |t| > 0 && t[0] == '-';
    var body := if |t| > 0 && (t[0] == '-' || t[0] == '+') then t[1..] else t;
    var k := DigitPrefix(body);
    if k == 0 then Failure(InvalidArgument)
    else
      var v: int := DigitsValue(body[..k]);
      if v >= WORD_MODULUS then Failure(OutOfRange)
      else if negative then Success(Wrap(-v))
      else Success(v)
  }

  /** `std::stoul` reads back the text `std::to_string` writes for every `size_t` value. */
  lemma StoulOfNatToString(n: nat)
    requires n < WORD_MODULUS
    ensures Stoul(NatToString(n)) == Success(n)
  {
    var s := NatToString(n);
    assert SpacePrefix(s) == 0;
    assert s[0..] == s;
    var k := DigitPrefix(s);
    assert k == |s|;
    assert s[..k] == s;
    NatToStringRoundTrip(n);
  }

  /** A negative literal is read by `std::stoul` as its value modulo 2^64, so the `int` it is
      stored in receives the literal itself. */
  lemma StoulOfNegative(i: Int32)
    requires i < 0
    ensures Stoul(IntToString(i)).Success?
    ensures ToInt(Stoul(IntToString(i)).value) == i
  {
    StoulOfNegativeWord(i);
    ToIntOfWrap(i);
  }

  /** The word `std::stoul` reads from a negative literal. */
  lemma StoulOfNegativeWord(i: Int32)
    requires i < 0
    ensures Stoul(IntToString(i)) == Success(Wrap(i))
  {
    var d := NatToString(-(i as int));
    assert IntToString(i) == "-" + d;
    NatToStringRoundTrip(-(i as int));
    StoulOfMinus(d);
  }

  /** `std::stoul` of a `-` followed by digits denoting a `size_t` value negates it modulo 2^64. */
  lemma StoulOfMinus(d: string)
    requires |d| > 0 && AllDigits(d) && DigitsValue(d) < WORD_MODULUS
    ensures Stoul("-" + d) == Success(Wrap(-(DigitsValue(d) as int)))
  {
    var s := "-" + d;
    assert SpacePrefix(s) == 0;
    assert s[0..] == s;
    assert s[1..] == d;
    assert DigitPrefix(d) == |d|;
    assert d[..|d|] == d;
  }

  /** Python's `int(s)` on a decimal string: white space around an optional sign and at least one digit. */
  function PyInt(s: string): (r: Option<int>)
    ensures r.Some? ==> exists k | 0 <= k <= |s| :: k < |s| && IsDigit(s[k])
  {
    var lead := SpacePrefix(s);
    var t := s[lead..];
    var negative := |t| > 0 && t[0] == '-';
    var body := if |t| > 0 && (t[0] == '-' || t[0] == '+') then t[1..] else t;
    var k := DigitPrefix(body);
    var rest := body[k..];
    if k == 0 || SpacePrefix(rest) != |rest| then None
    else
      var v: int := DigitsValue(body[..k]);
      assert IsDigit(body[0]);
      assert body[0] == s[lead + |t| - |body|];
      Some(if negative then -v else v)
  }

  /** Python's `int` reads back every integer's `str`. */
  lemma PyIntOfIntToString(i: int)
    ensures PyInt(IntToString(i)) == Some(i)
  {
    var s := IntToString(i);
    var d := if i < 0 then NatToString(-i) else NatToString(i);
    assert SpacePrefix(s) == 0;
    assert s[0..] == s;
    var body := if i < 0 then s[1..] else s;
    assert body == d;
    var k := DigitPrefix(d);
    assert k == |d|;
    assert d[..k] == d;
    assert d[k..] == [];
    NatToStringRoundTrip(if i < 0 then -i else i);
  }
}
