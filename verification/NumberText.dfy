/**
 * Number::toString of ECMA-262 (section 6.1.6.1.20), the printer behind `String(value)` in writeNumber.
 *
 * A finite non-zero double is represented by what that algorithm chooses for it: the sign, the
 * shortest digit string that identifies the double (no leading and no trailing zero) and the
 * position of the decimal point, so that the value is 0.d1 d2 ... dk times ten to the power `point`.
 */
module NumberText {
  import opened Prelude

  /** A UTF-16 code unit, the element of a JavaScript string. */
  type Unit = u: nat | u < 0x10000
  type Text = seq<Unit>

  const ZERO: Unit := 0x30
  const PLUS: Unit := 0x2b
  const MINUS: Unit := 0x2d
  const DOT: Unit := 0x2e
  const EXP: Unit := 0x65

  /** Points above MAX_POINT, or at most MIN_POINT, are written with an exponent. */
  const MAX_POINT := 21
  const MIN_POINT := -6

  predicate IsDigit(u: Unit) {
    ZERO <= u <= ZERO + 9
  }

  predicate AllDigits(t: Text) {
    forall i :: 0 <= i < |t| ==> IsDigit(t[i])
  }

  /** A digit string without leading or trailing zero. */
  predicate Significant(ds: Text) {
    ds != [] && AllDigits(ds) && ds[0] != ZERO && ds[|ds| - 1] != ZERO
  }

  datatype Double = NaN | Infinity(negative: bool) | Zero(negative: bool) | Finite(negative: bool, digits: Text, point: int)
  {
    predicate Valid() {
      Finite? ==> Significant(digits)
    }
  }

  type Number = n: Double | n.Valid() witness Zero(false)

  /** Decimal digits of a natural number, most significant first. */
  function Decimal(n: nat): (t: Text)
    ensures t != [] && AllDigits(t)
  {
    if n < 10 then [ZERO + n] else Decimal(n / 10) + [ZERO + n % 10]
  }

  function MagnitudeText(ds: Text, point: int): Text
    requires ds != []
  {
    if |ds| <= point <= MAX_POINT then ds + Copies(ZERO, point - |ds|)
    else if 0 < point <= MAX_POINT then ds[..point] + [DOT] + ds[point..]
    else if MIN_POINT < point <= 0 then [ZERO] + [DOT] + (Copies(ZERO, -point) + ds)
    else Mantissa(ds) + ExponentText(point - 1)
  }

  function Mantissa(ds: Text): Text
    requires ds != []
  {
    if |ds| == 1 then ds else ds[..1] + [DOT] + ds[1..]
  }

  function ExponentText(e: int): Text {
    [EXP] + (if e < 0 then [MINUS] + Decimal(-e) else [PLUS] + Decimal(e))
  }

  /** `String(value)` for a finite number; -0 prints as 0. */
  function NumberToString(n: Number): Text
    requires n.Zero? || n.Finite?
  {
    if n.Zero? then [ZERO]
    else (if n.negative then [MINUS] else []) + MagnitudeText(n.digits, n.point)
  }

  // ----- a reader for decimal notation, which knows nothing of the printer's five layouts

  /** The longest prefix made of digits. */
  function DigitRun(t: Text): (ds: Text)
    ensures ds <= t
  {
    if t == [] || !IsDigit(t[0]) then [] else [t[0]] + DigitRun(t[1..])
  }

  function DecimalValue(ds: Text): int {
    if ds == [] then 0 else DecimalValue(ds[..|ds| - 1]) * 10 + (ds[|ds| - 1] - ZERO)
  }

  function DropTrailingZeros(ds: Text): Text {
    if ds == [] || ds[|ds| - 1] != ZERO then ds else DropTrailingZeros(ds[..|ds| - 1])
  }

  /** Scientific normal form: no leading zero (each one dropped moves the point), no trailing zero. */
  function Normalised(negative: bool, ds: Text, point: int): Double {
    if ds == [] then Zero(false)
    else if ds[0] == ZERO then Normalised(negative, ds[1..], point - 1)
    else Finite(negative, DropTrailingZeros(ds), point)
  }

  function ReadExponent(t: Text): int {
    if |t| < 2 || t[0] != EXP then 0
    else if t[1] == MINUS then -DecimalValue(DigitRun(t[2..]))
    else DecimalValue(DigitRun(t[2..]))
  }

  function ReadMagnitude(negative: bool, t: Text): Double {
    var whole := DigitRun(t);
    var rest := t[|whole|..];
    if rest != [] && rest[0] == DOT then
      var fraction := DigitRun(rest[1..]);
      Normalised(negative, whole + fraction, |whole| + ReadExponent(rest[1 + |fraction|..]))
    else
      Normalised(negative, whole, |whole| + ReadExponent(rest))
  }

  function ReadNumber(t: Text): Double {
    if t != [] && t[0] == MINUS then ReadMagnitude(true, t[1..]) else ReadMagnitude(false, t)
  }

  // ----- the reader inverts the printer

  lemma {:induction false} DigitRunStops(ds: Text, rest: Text)
    requires AllDigits(ds)
    requires rest != [] ==> !IsDigit(rest[0])
    ensures DigitRun(ds + rest) == ds
    ensures (ds + rest)[|ds|..] == rest
  {
    if ds == [] {
      assert ds + rest == rest;
    } else {
      assert (ds + rest)[1..] == ds[1..] + rest;
      DigitRunStops(ds[1..], rest);
    }
  }

  lemma {:induction false} DecimalRoundTrip(n: nat)
    ensures DecimalValue(Decimal(n)) == n
  {
    var ds := Decimal(n);
    if n < 10 {
      assert ds[..0] == [];
    } else {
      assert ds[..|ds| - 1] == Decimal(n / 10);
      DecimalRoundTrip(n / 10);
    }
  }

  lemma ExponentRoundTrip(e: int)
    ensures ReadExponent(ExponentText(e)) == e
  {
    var ds := Decimal(if e < 0 then -e else e);
    assert ExponentText(e)[2..] == ds + [];
    DigitRunStops(ds, []);
    DecimalRoundTrip(if e < 0 then -e else e);
  }

  /** Padding with zeros on either side changes nothing but the count of leading places. */
  lemma {:induction false} NormalisedPadding(negative: bool, j: nat, ds: Text, k: nat, point: int)
    requires Significant(ds)
    ensures Normalised(negative, Copies(ZERO, j) + ds + Copies(ZERO, k), point) == Finite(negative, ds, point - j)
  {
    var s := Copies(ZERO, j) + ds + Copies(ZERO, k);
    if j == 0 {
      assert s == ds + Copies(ZERO, k);
      DropsPadding(ds, k);
    } else {
      assert s[1..] == Copies(ZERO, j - 1) + ds + Copies(ZERO, k);
      NormalisedPadding(negative, j - 1, ds, k, point - 1);
    }
  }

  lemma {:induction false} DropsPadding(ds: Text, k: nat)
    requires Significant(ds)
    ensures DropTrailingZeros(ds + Copies(ZERO, k)) == ds
  {
    var s := ds + Copies(ZERO, k);
    if k == 0 {
      assert s == ds;
    } else {
      assert s[..|s| - 1] == ds + Copies(ZERO, k - 1);
      DropsPadding(ds, k - 1);
    }
  }

  lemma ReadsWhole(negative: bool, whole: Text, tail: Text)
    requires AllDigits(whole)
    requires tail != [] ==> tail[0] == EXP
    ensures ReadMagnitude(negative, whole + tail) == Normalised(negative, whole, |whole| + ReadExponent(tail))
  {
    DigitRunStops(whole, tail);
  }

  lemma ReadsSplit(negative: bool, whole: Text, fraction: Text, tail: Text)
    requires AllDigits(whole) && AllDigits(fraction)
    requires tail != [] ==> tail[0] == EXP
    ensures ReadMagnitude(negative, whole + [DOT] + fraction + tail)
         == Normalised(negative, whole + fraction, |whole| + ReadExponent(tail))
  {
    hide Normalised, ReadExponent, DigitRun;
    var rest := [DOT] + (fraction + tail);
    assert whole + [DOT] + fraction + tail == whole + rest;
    DigitRunStops(whole, rest);
    assert rest[1..] == fraction + tail;
    DigitRunStops(fraction, tail);
    assert rest[1 + |fraction|..] == (fraction + tail)[|fraction|..];
  }

  lemma ReadsScientific(negative: bool, ds: Text, tail: Text)
    requires Significant(ds)
    requires tail != [] && tail[0] == EXP
    ensures ReadMagnitude(negative, Mantissa(ds) + tail) == Finite(negative, ds, 1 + ReadExponent(tail))
  {
    hide ReadMagnitude;
    NormalisedPadding(negative, 0, ds, 0, 1 + ReadExponent(tail));
    assert Copies(ZERO, 0) + ds + Copies(ZERO, 0) == ds;
    if |ds| == 1 {
      ReadsWhole(negative, ds, tail);
    } else {
      ReadsSplit(negative, ds[..1], ds[1..], tail);
      assert ds[..1] + ds[1..] == ds;
    }
  }

  lemma ReadsPlain(negative: bool, ds: Text, point: int)
    requires Significant(ds) && 0 < point <= MAX_POINT
    ensures ReadMagnitude(negative, MagnitudeText(ds, point)) == Finite(negative, ds, point)
  {
    hide ReadMagnitude, Normalised;
    var t := MagnitudeText(ds, point);
    assert t + [] == t;
    if |ds| <= point {
      assert t == Copies(ZERO, 0) + ds + Copies(ZERO, point - |ds|);
      ReadsWhole(negative, t, []);
      NormalisedPadding(negative, 0, ds, point - |ds|, point);
    } else {
      assert ds[..point] + ds[point..] == ds == Copies(ZERO, 0) + ds + Copies(ZERO, 0);
      ReadsSplit(negative, ds[..point], ds[point..], []);
      NormalisedPadding(negative, 0, ds, 0, point);
    }
  }

  lemma ReadsSmall(negative: bool, ds: Text, zeros: nat)
    requires Significant(ds)
    ensures ReadMagnitude(negative, [ZERO] + [DOT] + (Copies(ZERO, zeros) + ds)) == Finite(negative, ds, 0 - zeros)
  {
    hide ReadMagnitude, Normalised;
    var fraction := Copies(ZERO, zeros) + ds;
    assert [ZERO] + [DOT] + fraction + [] == [ZERO] + [DOT] + fraction;
    assert [ZERO] + fraction == Copies(ZERO, 1 + zeros) + ds + Copies(ZERO, 0);
    ReadsSplit(negative, [ZERO], fraction, []);
    NormalisedPadding(negative, 1 + zeros, ds, 0, 1);
  }

  lemma MagnitudeRoundTrip(negative: bool, ds: Text, point: int)
    requires Significant(ds)
    ensures ReadMagnitude(negative, MagnitudeText(ds, point)) == Finite(negative, ds, point)
  {
    hide ReadMagnitude, Mantissa, ReadExponent;
    if 0 < point <= MAX_POINT {
      ReadsPlain(negative, ds, point);
    } else if MIN_POINT < point <= 0 {
      ReadsSmall(negative, ds, -point);
    } else {
      ReadsScientific(negative, ds, ExponentText(point - 1));
      ExponentRoundTrip(point - 1);
    }
  }

  /** The units a number can be written with: digits, sign, point and exponent mark. */
  predicate NumberUnit(u: Unit) {
    IsDigit(u) || u == PLUS || u == MINUS || u == DOT || u == EXP
  }

  lemma MagnitudeUnits(ds: Text, point: int)
    requires ds != [] && AllDigits(ds)
    ensures forall i :: 0 <= i < |MagnitudeText(ds, point)| ==> NumberUnit(MagnitudeText(ds, point)[i])
    ensures MagnitudeText(ds, point) != [] && IsDigit(MagnitudeText(ds, point)[0])
  {
  }

  lemma NumberUnits(n: Number)
    requires n.Zero? || n.Finite?
    ensures forall i :: 0 <= i < |NumberToString(n)| ==> NumberUnit(NumberToString(n)[i])
    ensures NumberToString(n) != [] && (IsDigit(NumberToString(n)[0]) || NumberToString(n)[0] == MINUS)
  {
    if n.Finite? {
      MagnitudeUnits(n.digits, n.point);
    }
  }

  /** Printing loses nothing but the sign of zero: the decimal reader gets every finite number back. */
  lemma NumberRoundTrip(n: Number)
    requires n.Zero? || n.Finite?
    ensures ReadNumber(NumberToString(n)) == (if n.Zero? then Zero(false) else n)
  {
    if n.Zero? {
      assert [ZERO] + [] == [ZERO];
      ReadsWhole(false, [ZERO], []);
    } else {
      var m := MagnitudeText(n.digits, n.point);
      MagnitudeRoundTrip(n.negative, n.digits, n.point);
      MagnitudeUnits(n.digits, n.point);
      assert NumberToString(n) == if n.negative then [MINUS] + m else m;
    }
  }

  /** Which layout a number gets: an exponent from 1e21 on and below 1e-6, and a point only where there is a fraction. */
  lemma NumberLayout(n: Number)
    requires n.Finite?
    ensures var t := NumberToString(n);
            && (0x65 in t <==> n.point > 21 || n.point < -5)
            && (-5 <= n.point <= 21 ==> (0x2e in t <==> n.point < |n.digits|))
            && (!(-5 <= n.point <= 21) ==> (0x2e in t <==> |n.digits| > 1))
  {
    var m := MagnitudeText(n.digits, n.point);
    MagnitudeLayout(n.digits, n.point);
    assert NumberToString(n) == if n.negative then [MINUS] + m else m;
    hide MagnitudeText;
  }

  lemma NoMark(t: Text)
    requires AllDigits(t)
    ensures EXP !in t && DOT !in t
  {
  }

  lemma MagnitudeLayout(ds: Text, point: int)
    requires Significant(ds)
    ensures var t := MagnitudeText(ds, point);
            && (EXP in t <==> point > 21 || point < -5)
            && (-5 <= point <= 21 ==> (DOT in t <==> point < |ds|))
            && (!(-5 <= point <= 21) ==> (DOT in t <==> |ds| > 1))
  {
    NoMark(ds);
    if |ds| <= point <= 21 {
      NoMark(ds + Copies(ZERO, point - |ds|));
    } else if 0 < point <= 21 {
      NoMark(ds[..point]);
      NoMark(ds[point..]);
      assert MagnitudeText(ds, point)[point] == DOT;
    } else if -6 < point <= 0 {
      NoMark(Copies(ZERO, -point) + ds);
      assert MagnitudeText(ds, point)[1] == DOT;
    } else {
      ScientificLayout(ds, point);
    }
  }

  lemma ScientificLayout(ds: Text, point: int)
    requires Significant(ds)
    ensures var t := Mantissa(ds) + ExponentText(point - 1);
            EXP in t && (DOT in t <==> |ds| > 1)
  {
    var e := point - 1;
    NoMark(ds);
    NoMark(Decimal(if e < 0 then -e else e));
    assert (Mantissa(ds) + ExponentText(e))[|Mantissa(ds)|] == EXP;
    if |ds| > 1 {
      NoMark(ds[..1]);
      NoMark(ds[1..]);
      assert (Mantissa(ds) + ExponentText(e))[1] == DOT;
    }
  }
}
