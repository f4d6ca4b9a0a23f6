/**
  JavaScript's conversion of a string to a Number (ECMAScript 2023,
  section 7.1.4.1.1, StringToNumber, with the StringNumericLiteral grammar
  of section 7.1.4.1) and the relational comparison of the result with a
  number (section 7.2.13). The form's age rule compares a string with 1 and
  150, which is exactly this conversion followed by these comparisons.

  Finite values are kept as exact reals: rounding to the nearest IEEE-754
  double is not modelled.
 */
module JsNumber {
  import opened Wrappers
  import opened JsText

  datatype Number = Finite(value: real) | PosInfinity | NegInfinity | NaN

  function Pow(base: nat, n: nat): (r: nat)
    requires base >= 1
    ensures r >= 1
  {
    if n == 0 then 1 else base * Pow(base, n - 1)
  }

  predicate IsHexDigit(c: char) {
    ('0' <= c <= '9') || ('a' <= c <= 'f') || ('A' <= c <= 'F')
  }

  function DigitValue(c: char): (d: nat)
    requires IsHexDigit(c)
    ensures d < 16
    ensures '0' <= c <= '9' ==> d == c as int - '0' as int
  {
    if '0' <= c <= '9' then c as int - '0' as int
    else if 'a' <= c <= 'f' then c as int - 'a' as int + 10
    else c as int - 'A' as int + 10
  }

  /** `c` is a digit of the given base (2, 8, 10 or 16). */
  predicate IsDigitIn(c: char, base: nat) {
    IsHexDigit(c) && DigitValue(c) < base
  }

  predicate AllDigits(s: string, base: nat) {
    forall i :: 0 <= i < |s| ==> IsDigitIn(s[i], base)
  }

  /** The value of a digit string read most significant digit first. */
  function DigitsValue(s: string, base: nat): (v: nat)
    requires AllDigits(s, base)
  {
    if s == [] then 0
    else
      var p := s[..|s| - 1];
      assert AllDigits(p, base) by {
        forall i | 0 <= i < |p| ensures IsDigitIn(p[i], base) { assert p[i] == s[i]; }
      }
      DigitsValue(p, base) * base + DigitValue(s[|s| - 1])
  }

  /** The first position of `s` holding one of `cs`, or |s| if there is none. */
  function IndexOfAny(s: string, cs: set<char>): (k: nat)
    ensures k <= |s|
    ensures k < |s| ==> s[k] in cs
    ensures forall i :: 0 <= i < k ==> s[i] !in cs
  {
    if s == [] then 0
    else if s[0] in cs then 0
    else
      var k := IndexOfAny(s[1..], cs);
      assert forall i :: 1 <= i < k + 1 ==> s[i] == s[1..][i - 1];
      1 + k
  }

  /** StringToNumber: the whitespace around the literal is ignored, a blank
      string is 0, and a string that is not a StringNumericLiteral is NaN. */
  function StringToNumber(s: string): (n: Number)
    ensures Trim(s) == [] ==> n == Finite(0.0)
    ensures n.NaN? ==> Trim(s) != []
  {
    var t := Trim(s);
    if t == [] then Finite(0.0) else NumericLiteral(t)
  }

  /** StrNumericLiteral: a NonDecimalIntegerLiteral (0b, 0o or 0x prefix,
      no sign) or a StrDecimalLiteral (optional sign). */
  function NumericLiteral(t: string): (n: Number)
    requires t != []
  {
    var radix := Radix(t);
    if radix.Some? then
      NonDecimal(t[2..], radix.value)
    else
      var signed := t[0] == '+' || t[0] == '-';
      var n := UnsignedDecimal(if signed then t[1..] else t);
      if t[0] == '-' then Negate(n) else n
  }

  /** The base a NonDecimalIntegerLiteral prefix announces. */
  function Radix(t: string): (b: Option<nat>)
    ensures b.Some? ==> b.value >= 2 && |t| >= 2
  {
    if |t| < 2 || t[0] != '0' then None
    else if t[1] == 'x' || t[1] == 'X' then Some(16)
    else if t[1] == 'o' || t[1] == 'O' then Some(8)
    else if t[1] == 'b' || t[1] == 'B' then Some(2)
    else None
  }

  function NonDecimal(d: string, base: nat): (n: Number)
    requires base >= 2
  {
    if d != [] && AllDigits(d, base) then Finite(DigitsValue(d, base) as real) else NaN
  }

  function Negate(n: Number): (r: Number) {
    match n
    case Finite(v) => Finite(-v)
    case PosInfinity => NegInfinity
    case NegInfinity => PosInfinity
    case NaN => NaN
  }

  /** StrUnsignedDecimalLiteral: `Infinity`, or a mantissa with an optional
      exponent part introduced by `e` or `E`. */
  function UnsignedDecimal(u: string): (n: Number) {
    if u == "Infinity" then PosInfinity
    else
      var e := IndexOfAny(u, {'e', 'E'});
      var m := Mantissa(u[..e]);
      if m.None? then NaN
      else if e == |u| then Finite(m.value)
      else
        match SignedInteger(u[e + 1..])
        case Some(x) => Finite(Scale(m.value, x))
        case None => NaN
  }

  /** DecimalDigits, optionally with a `.` and a fraction; at least one digit
      on one side of the point. */
  function Mantissa(m: string): (v: Option<real>) {
    var p := IndexOfAny(m, {'.'});
    var whole := m[..p];
    var fraction := if p < |m| then m[p + 1..] else [];
    if AllDigits(whole, 10) && AllDigits(fraction, 10) && |whole| + |fraction| > 0 then
      Some(DigitsValue(whole, 10) as real + DigitsValue(fraction, 10) as real / Pow(10, |fraction|) as real)
    else
      None
  }

  /** SignedInteger of an exponent part: optional sign, then at least one
      decimal digit. */
  function SignedInteger(x: string): (e: Option<int>) {
    if x != [] && (x[0] == '+' || x[0] == '-') then
      var d := x[1..];
      if d != [] && AllDigits(d, 10) then
        var n: int := DigitsValue(d, 10);
        Some(if x[0] == '-' then -n else n)
      else None
    else if x != [] && AllDigits(x, 10) then Some(DigitsValue(x, 10))
    else None
  }

  function Scale(m: real, x: int): (r: real) {
    if x >= 0 then m * Pow(10, x) as real else m / Pow(10, -x) as real
  }

  /** `n < bound` for a finite bound: false when n is NaN. */
  predicate LessThan(n: Number, bound: real)
    ensures n.NaN? || n.PosInfinity? ==> !LessThan(n, bound)
    ensures n.NegInfinity? ==> LessThan(n, bound)
  {
    match n
    case Finite(v) => v < bound
    case NegInfinity => true
    case PosInfinity => false
    case NaN => false
  }

  /** `n > bound` for a finite bound: false when n is NaN. */
  predicate GreaterThan(n: Number, bound: real)
    ensures n.NaN? || n.NegInfinity? ==> !GreaterThan(n, bound)
    ensures n.PosInfinity? ==> GreaterThan(n, bound)
  {
    match n
    case Finite(v) => v > bound
    case PosInfinity => true
    case NegInfinity => false
    case NaN => false
  }

  /** NaN is ordered with nothing: both comparisons are false. */
  lemma NaNIsUnordered(bound: real)
    ensures !LessThan(NaN, bound) && !GreaterThan(NaN, bound)
  {
  }

  /** A non-empty string of decimal digits converts to its decimal value. */
  lemma DecimalDigitsToNumber(s: string)
    requires s != [] && AllDigits(s, 10)
    ensures StringToNumber(s) == Finite(DigitsValue(s, 10) as real)
  {
    assert IsDigitIn(s[0], 10) && IsDigitIn(s[|s| - 1], 10);
    TrimOfTrimmed(s);
    assert NumericLiteral(s) == UnsignedDecimal(s) by {
      assert s[0] != '+' && s[0] != '-';
      if |s| >= 2 {
        assert IsDigitIn(s[1], 10);
        assert s[1] !in {'x', 'X', 'o', 'O', 'b', 'B'};
      }
      assert Radix(s) == None;
    }
    UnsignedDecimalOfDigits(s);
  }

  lemma UnsignedDecimalOfDigits(s: string)
    requires s != [] && AllDigits(s, 10)
    ensures UnsignedDecimal(s) == Finite(DigitsValue(s, 10) as real)
  {
    assert s != "Infinity" by { assert IsDigitIn(s[0], 10); }
    NoMarkInDigits(s, {'e', 'E'});
    assert s[..|s|] == s;
    MantissaOfDigits(s);
  }

  /** A decimal digit string holds no exponent mark and no point. */
  lemma NoMarkInDigits(s: string, marks: set<char>)
    requires AllDigits(s, 10)
    requires marks <= {'e', 'E', '.'}
    ensures IndexOfAny(s, marks) == |s|
  {
    forall i | 0 <= i < |s| ensures s[i] !in marks {
      assert IsDigitIn(s[i], 10);
    }
  }

  lemma MantissaOfDigits(s: string)
    requires s != [] && AllDigits(s, 10)
    ensures Mantissa(s) == Some(DigitsValue(s, 10) as real)
  {
    NoMarkInDigits(s, {'.'});
    var p := IndexOfAny(s, {'.'});
    assert s[..p] == s;
  }

  /** Whitespace around a literal does not change its value. */
  lemma SurroundingWhitespaceIgnored(s: string)
    ensures StringToNumber(s) == StringToNumber(Trim(s))
  {
    TrimIdempotent(s);
  }

  /** A blank string converts to 0, not to NaN. */
  lemma BlankIsZero(s: string)
    requires IsBlank(s)
    ensures StringToNumber(s) == Finite(0.0)
  {
    TrimShape(s);
  }
}
