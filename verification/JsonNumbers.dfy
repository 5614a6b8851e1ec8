// Text as UTF-16 code units, and the numbers of section 6 of RFC 8259 in it.
module JsonNumbers {

  type Unit = x: int | 0 <= x < 0x10000
  type Text = seq<Unit>

  const PLUS: Unit := 43
  const MINUS: Unit := 45
  const POINT: Unit := 46
  const ZERO: Unit := 48
  const UPPER_E: Unit := 69
  const LOWER_E: Unit := 101

  // The constants that Python's reader and writer use beyond RFC 8259.
  const NAN: Text := [78, 97, 78]
  const INFINITY: Text := [73, 110, 102, 105, 110, 105, 116, 121]
  const MINUS_INFINITY: Text := [MINUS] + INFINITY

  predicate StartsWith(t: Text, p: Text) {
    |p| <= |t| && t[..|p|] == p
  }

  predicate IsDigit(c: Unit) {
    ZERO <= c < ZERO + 10
  }

  // How many digits the text begins with.
  function DigitRun(t: Text): nat {
    if t == [] || !IsDigit(t[0]) then 0 else 1 + DigitRun(t[1..])
  }

  // The length of the integer, fraction and exponent the text begins with; zero without one.
  function IntegerLength(t: Text): nat {
    var sign := if t != [] && t[0] == MINUS then 1 else 0;
    if |t| <= sign || !IsDigit(t[sign]) then 0
    else if t[sign] == ZERO then sign + 1
    else sign + DigitRun(t[sign..])
  }

  function FractionLength(t: Text): nat {
    if t == [] || t[0] != POINT || DigitRun(t[1..]) == 0 then 0 else 1 + DigitRun(t[1..])
  }

  predicate SignFirst(t: Text) {
    t != [] && (t[0] == PLUS || t[0] == MINUS)
  }

  function ExponentLength(t: Text): nat {
    if t == [] || (t[0] != UPPER_E && t[0] != LOWER_E) then 0 else
    var sign := if SignFirst(t[1..]) then 1 else 0;
    if DigitRun(t[1 + sign..]) == 0 then 0 else 1 + sign + DigitRun(t[1 + sign..])
  }

  lemma {:induction false} DigitRunWithin(t: Text)
    ensures DigitRun(t) <= |t|
    ensures forall i :: 0 <= i < DigitRun(t) ==> IsDigit(t[i])
    ensures DigitRun(t) < |t| ==> !IsDigit(t[DigitRun(t)])
  {
    if t != [] && IsDigit(t[0]) { DigitRunWithin(t[1..]); }
  }

  lemma LengthsWithin(t: Text)
    ensures IntegerLength(t) <= |t| && FractionLength(t) <= |t| && ExponentLength(t) <= |t|
  {
    DigitRunWithin(t);
    if t != [] {
      DigitRunWithin(t[1..]);
      if |t| > 1 { DigitRunWithin(t[2..]); }
    }
  }

  // The whole number the text begins with, when it begins with an integer.
  function NumberLength(t: Text): (n: nat)
    ensures IntegerLength(t) <= n <= |t|
  {
    LengthsWithin(t);
    var i := IntegerLength(t);
    LengthsWithin(t[i..]);
    var f := FractionLength(t[i..]);
    LengthsWithin(t[i + f..]);
    i + f + ExponentLength(t[i + f..])
  }

  // A number with a fraction or an exponent, or one of the constants.
  predicate RealLexeme(t: Text) {
    || (0 < IntegerLength(t) < |t| && NumberLength(t) == |t|)
    || t == NAN || t == INFINITY || t == MINUS_INFINITY
  }

  type RealText = t: Text | RealLexeme(t) witness INFINITY

  // ----- Decimal integers -----

  function Digits(n: nat): Text {
    if n < 10 then [ZERO + n] else Digits(n / 10) + [ZERO + n % 10]
  }

  function Number(n: int): Text {
    if n < 0 then [MINUS] + Digits(-n) else Digits(n)
  }

  function DigitsValue(t: Text): int {
    if t == [] then 0 else DigitsValue(t[..|t| - 1]) * 10 + (t[|t| - 1] - ZERO)
  }

  function IntegerValue(t: Text): int {
    if t != [] && t[0] == MINUS then -DigitsValue(t[1..]) else DigitsValue(t)
  }

  lemma {:induction false} DigitsReadBack(n: nat)
    ensures DigitsValue(Digits(n)) == n && Digits(n) != []
    ensures forall i :: 0 <= i < |Digits(n)| ==> IsDigit(Digits(n)[i])
    ensures n > 0 ==> Digits(n)[0] != ZERO
  {
    if n < 10 {
      assert [ZERO + n][..0] == [];
      assert DigitsValue([]) == 0;
    } else {
      DigitsReadBack(n / 10);
      var d := Digits(n);
      assert d[..|d| - 1] == Digits(n / 10);
    }
  }

  lemma {:induction false} AllDigitsRun(t: Text)
    requires forall i :: 0 <= i < |t| ==> IsDigit(t[i])
    ensures DigitRun(t) == |t|
  {
    if t != [] { AllDigitsRun(t[1..]); }
  }

  // ----- What follows a number does not change it -----

  // Nothing a number could continue with.
  predicate EndsNumber(x: Text) {
    x == [] || (!IsDigit(x[0]) && x[0] !in {POINT, PLUS, MINUS, UPPER_E, LOWER_E})
  }

  lemma {:induction false} DigitRunOfAppend(a: Text, x: Text)
    requires EndsNumber(x)
    ensures DigitRun(a + x) == DigitRun(a)
  {
    if a == [] {
      assert a + x == x;
    } else {
      assert (a + x)[1..] == a[1..] + x;
      DigitRunOfAppend(a[1..], x);
    }
  }

  lemma IntegerLengthOfAppend(a: Text, x: Text)
    requires EndsNumber(x)
    ensures IntegerLength(a + x) == IntegerLength(a)
  {
    var sign := if a != [] && a[0] == MINUS then 1 else 0;
    assert a == [] ==> a + x == x;
    if sign < |a| {
      assert (a + x)[sign..] == a[sign..] + x;
      DigitRunOfAppend(a[sign..], x);
    } else {
      assert |a| == sign && (a + x)[sign..] == x;
    }
  }

  lemma FractionLengthOfAppend(a: Text, x: Text)
    requires EndsNumber(x)
    ensures FractionLength(a + x) == FractionLength(a)
  {
    if a == [] {
      assert a + x == x;
    } else {
      assert (a + x)[1..] == a[1..] + x;
      DigitRunOfAppend(a[1..], x);
    }
  }

  lemma ExponentLengthOfAppend(a: Text, x: Text)
    requires EndsNumber(x)
    ensures ExponentLength(a + x) == ExponentLength(a)
  {
    if a == [] {
      assert a + x == x;
    } else {
      assert (a + x)[1..] == a[1..] + x;
      assert SignFirst(a[1..] + x) == SignFirst(a[1..]);
      DigitRunOfAppend(a[1..], x);
      if |a| > 1 {
        assert (a + x)[2..] == a[2..] + x;
        DigitRunOfAppend(a[2..], x);
      }
    }
  }

  lemma NumberLengthOfAppend(a: Text, x: Text)
    requires EndsNumber(x)
    ensures NumberLength(a + x) == NumberLength(a)
  {
    hide IntegerLength, FractionLength, ExponentLength, DigitRun, EndsNumber;
    LengthsWithin(a);
    IntegerLengthOfAppend(a, x);
    var i := IntegerLength(a);
    assert (a + x)[i..] == a[i..] + x;
    LengthsWithin(a[i..]);
    FractionLengthOfAppend(a[i..], x);
    var f := FractionLength(a[i..]);
    assert (a + x)[i + f..] == a[i + f..] + x;
    ExponentLengthOfAppend(a[i + f..], x);
  }

  // ----- What a number is cut from does not change it -----

  lemma {:induction false} DigitRunOfPrefix(t: Text, k: nat)
    requires DigitRun(t) <= k <= |t|
    ensures DigitRun(t[..k]) == DigitRun(t)
  {
    if t != [] && IsDigit(t[0]) {
      assert t[..k][1..] == t[1..][..k - 1];
      DigitRunOfPrefix(t[1..], k - 1);
    }
  }

  lemma IntegerLengthOfPrefix(t: Text, k: nat)
    requires 0 < IntegerLength(t) <= k <= |t|
    ensures IntegerLength(t[..k]) == IntegerLength(t)
  {
    var sign := if t[0] == MINUS then 1 else 0;
    assert t[..k][sign..] == t[sign..][..k - sign];
    if t[sign] != ZERO { DigitRunOfPrefix(t[sign..], k - sign); }
  }

  lemma FractionLengthOfPrefix(t: Text, k: nat)
    requires FractionLength(t) <= k <= |t|
    ensures FractionLength(t[..k]) == FractionLength(t)
  {
    if t != [] && t[0] == POINT && k > 0 {
      assert t[..k][1..] == t[1..][..k - 1];
      DigitRunWithin(t[1..]);
      if DigitRun(t[1..]) <= k - 1 { DigitRunOfPrefix(t[1..], k - 1); }
    }
  }

  lemma ExponentLengthOfPrefix(t: Text)
    ensures ExponentLength(t) <= |t| && ExponentLength(t[..ExponentLength(t)]) == ExponentLength(t)
  {
    LengthsWithin(t);
    var k := ExponentLength(t);
    if k > 0 {
      var sign := if SignFirst(t[1..]) then 1 else 0;
      assert t[..k][1..] == t[1..][..k - 1];
      assert t[..k][1 + sign..] == t[1 + sign..][..k - 1 - sign];
      DigitRunOfPrefix(t[1 + sign..], k - 1 - sign);
    }
  }

  lemma NumberLengthOfPrefix(t: Text)
    requires IntegerLength(t) > 0
    ensures var n := NumberLength(t);
            IntegerLength(t[..n]) == IntegerLength(t) && NumberLength(t[..n]) == n
  {
    hide IntegerLength, FractionLength, ExponentLength, DigitRun;
    var n, i := NumberLength(t), IntegerLength(t);
    LengthsWithin(t);
    IntegerLengthOfPrefix(t, n);
    LengthsWithin(t[i..]);
    var f := FractionLength(t[i..]);
    assert t[..n][i..] == t[i..][..n - i];
    FractionLengthOfPrefix(t[i..], n - i);
    ExponentLengthOfPrefix(t[i + f..]);
    assert t[..n][i + f..] == t[i + f..][..n - i - f];
  }

  // ----- The numbers of documents -----

  lemma IntegerReadsBack(n: int, x: Text)
    requires EndsNumber(x)
    ensures IntegerLength(Number(n) + x) == NumberLength(Number(n) + x) == |Number(n)|
    ensures IntegerValue(Number(n)) == n
  {
    var magnitude := if n < 0 then -n else n;
    DigitsReadBack(magnitude);
    AllDigitsRun(Digits(magnitude));
    var t := Number(n);
    if n < 0 { assert t[1..] == Digits(-n); }
    assert IntegerLength(t) == |t|;
    assert t[|t|..] == [];
    assert NumberLength(t) == |t|;
    IntegerLengthOfAppend(t, x);
    NumberLengthOfAppend(t, x);
  }
}
