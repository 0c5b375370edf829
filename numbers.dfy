/**
  * JavaScript numbers as the core uses them: `Number(s)` to read a string and
  * the default `toString` to write one back. A number is `NaN` or an exact
  * decimal value; IEEE-754 rounding and the infinities are not modelled.
  */
module Numbers {
  import opened Strings

  datatype Num = NaN | Fin(value: real)

  /** Unary minus; `-NaN` is `NaN`. */
  function Neg(n: Num): (r: Num)
    ensures r.NaN? <==> n.NaN?
    ensures n.Fin? ==> r.value == -n.value
  {
    match n
    case NaN => NaN
    case Fin(v) => Fin(-v)
  }

  /** `a - b`; `NaN` if either side is. */
  function Sub(a: Num, b: Num): (r: Num)
    ensures r.NaN? <==> a.NaN? || b.NaN?
    ensures r.Fin? ==> r.value == a.value - b.value
  {
    if a.Fin? && b.Fin? then Fin(a.value - b.value) else NaN
  }

  /** `n >= 0`: false for `NaN`, as every comparison with it is. */
  predicate NonNegative(n: Num) {
    n.Fin? && n.value >= 0.0
  }

  /**
    * `Number(s)` for the plain decimal forms: surrounding white space is
    * ignored, an empty string is 0, an optional sign, digits with at most one
    * decimal point and at least one digit. Anything else is `NaN`.
    */
  function ParseNumber(s: string): (n: Num)
    ensures Trim(s) == "" ==> n == Fin(0.0)
  {
    var t := Trim(s);
    if t == "" then Fin(0.0)
    else if t[0] == '-' then Neg(ParseUnsigned(t[1..]))
    else if t[0] == '+' then ParseUnsigned(t[1..])
    else ParseUnsigned(t)
  }

  /** The unsigned decimal `ddd`, `ddd.ddd`, `ddd.` or `.ddd`. */
  function ParseUnsigned(u: string): (n: Num)
    ensures n.Fin? ==> n.value >= 0.0
  {
    var parts := Split(u, {'.'});
    if |parts| == 1 && u != "" && AllDigits(u) then
      Fin(DigitsValue(u) as real)
    else if |parts| == 2 && AllDigits(parts[0]) && AllDigits(parts[1]) && |parts[0]| + |parts[1]| > 0 then
      Fin(DigitsValue(parts[0]) as real + DigitsValue(parts[1]) as real / Pow10(|parts[1]|) as real)
    else
      NaN
  }

  /**
    * The default `toString` of a number: `"NaN"`, or an optional minus sign,
    * the integer digits and, when there is a fraction, a point and its
    * digits (up to 20 of them).
    */
  function NumberString(n: Num): (s: string)
    ensures |s| >= 1
  {
    match n
    case NaN => "NaN"
    case Fin(r) => if r < 0.0 then "-" + UnsignedString(-r) else UnsignedString(r)
  }

  function UnsignedString(r: real): (s: string)
    requires r >= 0.0
    ensures |s| >= 1
  {
    var whole := r.Floor;
    var frac := r - whole as real;
    NatToString(whole) + (if frac == 0.0 then "" else "." + FractionDigits(frac, 20))
  }

  function FractionDigits(f: real, fuel: nat): (s: string)
    requires 0.0 <= f < 1.0
    ensures AllDigits(s)
    decreases fuel
  {
    if fuel == 0 || f == 0.0 then ""
    else
      var x := f * 10.0;
      var d := x.Floor;
      [DigitChar(d)] + FractionDigits(x - d as real, fuel - 1)
  }

  /** A non-empty digit string reads as its value. */
  lemma ParseDigits(digits: string)
    requires digits != [] && AllDigits(digits)
    ensures ParseUnsigned(digits) == Fin(DigitsValue(digits) as real)
  {
    SplitNone(digits, {'.'});
  }

  /** An integer is written without a fraction. */
  lemma IntString(i: int)
    ensures NumberString(Fin(i as real)) == IntToString(i)
  {
    if i < 0 {
      var r := -(i as real);
      assert r.Floor == -i;
      assert r - r.Floor as real == 0.0;
    } else {
      var r := i as real;
      assert r.Floor == i;
    }
  }

  /** The string of an integer is read back as that integer. */
  lemma IntRoundTrip(i: int)
    ensures ParseNumber(NumberString(Fin(i as real))) == Fin(i as real)
  {
    IntString(i);
    var n: nat := if i < 0 then -i else i;
    var digits := NatToString(n);
    NatToStringValue(n);
    ParseDigits(digits);
    var s := IntToString(i);
    assert Trim(s) == s by {
      assert !IsSpace(s[0]) && !IsSpace(s[|s| - 1]);
      TrimUnchanged(s);
    }
    if i < 0 {
      assert s[1..] == digits;
      assert s[0] == '-';
    } else {
      assert s == digits;
    }
  }

  /** The characters a number's string can contain: digits, the sign, the point, and those of `NaN`. */
  predicate NumberChar(c: char) {
    IsDigit(c) || c == '-' || c == '.' || c == 'N' || c == 'a'
  }

  lemma NumberStringAlphabet(n: Num)
    ensures forall i | 0 <= i < |NumberString(n)| :: NumberChar(NumberString(n)[i])
  {
    if n.Fin? {
      var r := if n.value < 0.0 then -n.value else n.value;
      var whole := r.Floor;
      var frac := r - whole as real;
      var u := UnsignedString(r);
      var digits := NatToString(whole);
      if frac != 0.0 {
        var fd := FractionDigits(frac, 20);
        assert u == digits + ("." + fd);
        forall i | 0 <= i < |u| ensures NumberChar(u[i]) {
          if i > |digits| {
            assert u[i] == fd[i - |digits| - 1];
          }
        }
      }
      if n.value < 0.0 {
        assert NumberString(n) == "-" + u;
        forall i | 0 <= i < |NumberString(n)| ensures NumberChar(NumberString(n)[i]) {
          if i > 0 {
            assert NumberString(n)[i] == u[i - 1];
          }
        }
      }
    }
  }

  /** A number's string has no white space and none of the characters `$ , ( ) |`. */
  lemma NumberStringPlain(n: Num)
    ensures forall i | 0 <= i < |NumberString(n)| ::
      !IsSpace(NumberString(n)[i]) && NumberString(n)[i] !in {'$', ',', '(', ')', '|'}
  {
    NumberStringAlphabet(n);
  }

  /** A non-empty string of decimal digits reads as the number it denotes. */
  lemma ParseDigitString(s: string)
    requires s != [] && AllDigits(s)
    ensures ParseNumber(s) == Fin(DigitsValue(s) as real)
  {
    assert IsDigit(s[0]) && IsDigit(s[|s| - 1]);
    TrimUnchanged(s);
    ParseDigits(s);
  }
}
