// The grammar of sections 2 to 7 of RFC 8259, character by character, with the three constants that
// Python adds; and that the parser reads exactly the texts of this grammar.
module JsonGrammar {
  import opened CanonicalJson
  import opened JsonNumbers
  import opened JsonParser
  import opened JsonRoundTrip
  import opened Wrappers

  // ----- Numbers -----

  predicate Digit(c: Unit) {
    '0' as int <= c <= '9' as int
  }

  predicate DigitsText(t: Text) {
    t != [] && forall i :: 0 <= i < |t| ==> Digit(t[i])
  }

  // A single zero, or digits that begin with another.
  predicate Magnitude(t: Text) {
    DigitsText(t) && (t[0] == '0' as int ==> |t| == 1)
  }

  predicate IntegerText(t: Text) {
    Magnitude(t) || (t != [] && t[0] == '-' as int && Magnitude(t[1..]))
  }

  predicate FractionText(t: Text) {
    t != [] && t[0] == '.' as int && DigitsText(t[1..])
  }

  predicate ExponentText(t: Text) {
    && t != [] && (t[0] == 'e' as int || t[0] == 'E' as int)
    && (DigitsText(t[1..]) || (|t| > 1 && (t[1] == '+' as int || t[1] == '-' as int) && DigitsText(t[2..])))
  }

  // An integer part up to i, a fraction up to f and an exponent, not both of these missing.
  predicate RealParts(t: Text, i: int, f: int) {
    && 0 < i <= f <= |t| && i < |t|
    && IntegerText(t[..i])
    && (i == f || FractionText(t[i..f]))
    && (f == |t| || ExponentText(t[f..]))
  }

  predicate Spells(t: Text, word: string) {
    |t| == |word| && forall k :: 0 <= k < |word| ==> t[k] == word[k] as int
  }

  predicate RealForm(t: Text) {
    || (exists i, f :: 0 < i <= f <= |t| && RealParts(t, i, f))
    || Spells(t, "NaN") || Spells(t, "Infinity") || Spells(t, "-Infinity")
  }

  // ----- Strings -----

  // The character a letter stands for after a backslash.
  predicate Escape(letter: Unit, c: Unit) {
    || (letter == c && (c == '\"' as int || c == '\\' as int || c == '/' as int))
    || (letter == 'b' as int && c == 0x08)
    || (letter == 't' as int && c == 0x09)
    || (letter == 'n' as int && c == 0x0A)
    || (letter == 'f' as int && c == 0x0C)
    || (letter == 'r' as int && c == 0x0D)
  }

  // A hexadecimal digit, in either case, and its value.
  predicate HexText(c: Unit, d: int) {
    || ('0' as int <= c <= '9' as int && d == c - '0' as int)
    || ('a' as int <= c <= 'f' as int && d == 10 + c - 'a' as int)
    || ('A' as int <= c <= 'F' as int && d == 10 + c - 'A' as int)
  }

  // The text from i to k is the character c, as itself or escaped.
  predicate CharAt(t: Text, i: int, k: int, c: Unit) {
    && 0 <= i < k <= |t|
    && (if t[i] != '\\' as int then k == i + 1 && c == t[i] >= 0x20 && c != '\"' as int
        else if k == i + 2 then Escape(t[i + 1], c)
        else
          && k == i + 6 && t[i + 1] == 'u' as int
          && HexText(t[i + 2], c / 4096) && HexText(t[i + 3], c / 256 % 16)
          && HexText(t[i + 4], c / 16 % 16) && HexText(t[i + 5], c % 16))
  }

  predicate CharsAt(t: Text, i: int, j: int, s: Text)
    decreases |s|
  {
    if s == [] then i == j
    else exists k :: i < k <= j && CharAt(t, i, k, s[0]) && CharsAt(t, k, j, s[1..])
  }

  predicate StringAt(t: Text, i: int, j: int, s: Text) {
    && 0 <= i < j - 1 < |t| && t[i] == '\"' as int && t[j - 1] == '\"' as int
    && CharsAt(t, i + 1, j - 1, s)
  }

  // ----- Documents -----

  predicate BlankAt(t: Text, i: int, j: int) {
    && 0 <= i <= j <= |t|
    && forall k :: i <= k < j ==> t[k] == ' ' as int || t[k] == '\t' as int || t[k] == '\n' as int || t[k] == '\r' as int
  }

  // The text from i to j is the document v.
  predicate ValueAt(t: Text, i: int, j: int, v: Raw)
    requires 0 <= i <= j <= |t|
    decreases j - i, 0
  {
    match v
    case Null => Spells(t[i..j], "null")
    case Bool(b) => Spells(t[i..j], if b then "true" else "false")
    case Int(n) => IntegerText(t[i..j]) && IntegerValue(t[i..j]) == n
    case Real(lexeme) => t[i..j] == lexeme && RealForm(lexeme)
    case Str(s) => StringAt(t, i, j, s)
    case Arr(items) =>
      && i < j - 1 && t[i] == '[' as int && t[j - 1] == ']' as int
      && if items == [] then BlankAt(t, i + 1, j - 1) else ItemsAt(t, i + 1, j - 1, items)
    case Obj(members) =>
      && i < j - 1 && t[i] == '{' as int && t[j - 1] == '}' as int
      && if members == [] then BlankAt(t, i + 1, j - 1) else MembersAt(t, i + 1, j - 1, members)
  }

  // White space around a document.
  predicate PaddedAt(t: Text, i: int, j: int, v: Raw)
    requires 0 <= i <= j <= |t|
    decreases j - i, 1
  {
    exists a, b :: i <= a <= b <= j && BlankAt(t, i, a) && ValueAt(t, a, b, v) && BlankAt(t, b, j)
  }

  predicate KeyAt(t: Text, i: int, j: int, key: Text)
    requires 0 <= i <= j <= |t|
  {
    exists a, b :: i <= a <= b <= j && BlankAt(t, i, a) && StringAt(t, a, b, key) && BlankAt(t, b, j)
  }

  predicate MemberAt(t: Text, i: int, j: int, m: Member)
    requires 0 <= i <= j <= |t|
    decreases j - i, 2
  {
    exists k :: i <= k < j && t[k] == ':' as int && KeyAt(t, i, k, m.key) && PaddedAt(t, k + 1, j, m.value)
  }

  predicate ItemsAt(t: Text, i: int, j: int, items: seq<Raw>)
    requires 0 <= i <= j <= |t| && items != []
    decreases j - i, 3
  {
    if |items| == 1 then PaddedAt(t, i, j, items[0])
    else exists k :: i <= k < j && t[k] == ',' as int && PaddedAt(t, i, k, items[0]) && ItemsAt(t, k + 1, j, items[1..])
  }

  predicate MembersAt(t: Text, i: int, j: int, members: seq<Member>)
    requires 0 <= i <= j <= |t| && members != []
    decreases j - i, 3
  {
    if |members| == 1 then MemberAt(t, i, j, members[0])
    else exists k :: i <= k < j && t[k] == ',' as int && MemberAt(t, i, k, members[0]) && MembersAt(t, k + 1, j, members[1..])
  }

  // ----- White space -----

  lemma SpaceIsBlank(c: Unit)
    ensures IsSpace(c) <==> c == ' ' as int || c == '\t' as int || c == '\n' as int || c == '\r' as int
  {
  }

  // White space is skipped up to the first other character.
  lemma {:induction false} Skips(t: Text, i: nat) returns (a: nat)
    requires i <= |t|
    ensures i <= a <= |t| && BlankAt(t, i, a) && SkipSpace(t[i..]) == t[a..]
    decreases |t| - i
  {
    a := i;
    if i < |t| && IsSpace(t[i]) {
      SpaceIsBlank(t[i]);
      assert t[i..][1..] == t[i + 1..];
      a := Skips(t, i + 1);
    }
  }

  lemma {:induction false} SkipsBlank(t: Text, i: nat, a: nat)
    requires BlankAt(t, i, a)
    requires a < |t| ==> !IsSpace(t[a])
    ensures i <= a <= |t| && SkipSpace(t[i..]) == t[a..]
    decreases a - i
  {
    if i < a {
      SpaceIsBlank(t[i]);
      assert t[i..][1..] == t[i + 1..];
      SkipsBlank(t, i + 1, a);
    }
  }

  // ----- Strings are read exactly -----

  lemma HexReads(c: Unit, d: int)
    ensures HexText(c, d) <==> HexValue(c) == Some(d)
  {
  }

  // Four digits spell a unit, and a unit has one spelling by digit values.
  lemma FourDigits(a: nat, b: nat, c: nat, d: nat)
    requires a < 16 && b < 16 && c < 16 && d < 16
    ensures var v := ((a * 16 + b) * 16 + c) * 16 + d;
            v < 0x10000 && v / 4096 == a && v / 256 % 16 == b && v / 16 % 16 == c && v % 16 == d
  {
    var v := ((a * 16 + b) * 16 + c) * 16 + d;
    assert v / 16 == (a * 16 + b) * 16 + c;
    assert v / 256 == v / 16 / 16 == a * 16 + b;
    assert v / 4096 == v / 256 / 16 == a;
  }

  lemma UnitDigits(c: Unit)
    ensures c == ((c / 4096 * 16 + c / 256 % 16) * 16 + c / 16 % 16) * 16 + c % 16
    ensures 0 <= c / 4096 < 16
  {
    assert c / 256 / 16 == c / 4096 && c / 16 / 16 == c / 256;
    assert c / 256 == c / 256 / 16 * 16 + c / 256 % 16;
    assert c / 16 == c / 16 / 16 * 16 + c / 16 % 16;
    assert c == c / 16 * 16 + c % 16;
  }

  // The escape from i to k is the character c.
  predicate EscapedAt(t: Text, i: int, k: int, c: Unit) {
    && 0 <= i && i + 2 <= k <= |t|
    && if k == i + 2 then Escape(t[i + 1], c)
       else
         && k == i + 6 && t[i + 1] == 'u' as int
         && HexText(t[i + 2], c / 4096) && HexText(t[i + 3], c / 256 % 16)
         && HexText(t[i + 4], c / 16 % 16) && HexText(t[i + 5], c % 16)
  }

  lemma HexSound(t: Text, i: nat)
    requires i + 2 <= |t| && t[i + 1] == 'u' as int && ParseHex4(t[i + 2..]).Read?
    ensures ParseHex4(t[i + 2..]).rest == t[i + 6..] && EscapedAt(t, i, i + 6, ParseHex4(t[i + 2..]).value)
  {
    var a, b, c, d := HexValue(t[i + 2]), HexValue(t[i + 3]), HexValue(t[i + 4]), HexValue(t[i + 5]);
    FourDigits(a.value, b.value, c.value, d.value);
    HexReads(t[i + 2], a.value);
    HexReads(t[i + 3], b.value);
    HexReads(t[i + 4], c.value);
    HexReads(t[i + 5], d.value);
    hide HexValue, HexText;
    assert t[i + 2..][4..] == t[i + 6..];
  }

  lemma HexComplete(t: Text, i: nat, c: Unit)
    requires i + 6 <= |t| && EscapedAt(t, i, i + 6, c)
    ensures ParseHex4(t[i + 2..]) == Read(c, t[i + 6..])
  {
    UnitDigits(c);
    HexReads(t[i + 2], c / 4096);
    HexReads(t[i + 3], c / 256 % 16);
    HexReads(t[i + 4], c / 16 % 16);
    HexReads(t[i + 5], c % 16);
    hide HexValue, HexText;
    assert t[i + 2..][4..] == t[i + 6..];
  }

  lemma EscapeSound(t: Text, i: nat) returns (k: nat)
    requires i < |t| && ParseEscape(t[i + 1..]).Read?
    ensures EscapedAt(t, i, k, ParseEscape(t[i + 1..]).value) && ParseEscape(t[i + 1..]).rest == t[k..]
  {
    var u := t[i + 1..];
    assert u[0] == t[i + 1] && u[1..] == t[i + 2..];
    if u[0] == LOWER_U {
      k := i + 6;
      HexSound(t, i);
      hide ParseHex4, EscapedAt;
    } else {
      k := i + 2;
    }
  }

  lemma EscapeComplete(t: Text, i: nat, k: nat, c: Unit)
    requires i < |t| && EscapedAt(t, i, k, c)
    ensures ParseEscape(t[i + 1..]) == Read(c, t[k..])
  {
    var u := t[i + 1..];
    assert u[0] == t[i + 1] && u[1..] == t[i + 2..];
    if k == i + 6 {
      HexComplete(t, i, c);
      hide ParseHex4, HexText;
    }
  }

  lemma CharSound(t: Text, i: nat) returns (k: nat)
    requires i < |t| && t[i] != QUOTE && ParseUnit(t[i..]).Read?
    ensures i < k <= |t| && CharAt(t, i, k, ParseUnit(t[i..]).value) && ParseUnit(t[i..]).rest == t[k..]
  {
    assert t[i..][1..] == t[i + 1..];
    hide ParseEscape, HexText, Escape;
    if t[i] == BACKSLASH { k := EscapeSound(t, i); } else { k := i + 1; }
  }

  lemma CharComplete(t: Text, i: nat, k: nat, c: Unit)
    requires CharAt(t, i, k, c)
    ensures i < |t| && t[i] != QUOTE && k <= |t| && ParseUnit(t[i..]) == Read(c, t[k..])
  {
    assert t[i..][1..] == t[i + 1..];
    hide ParseEscape, HexText, Escape;
    if t[i] == BACKSLASH { EscapeComplete(t, i, k, c); }
  }

  lemma {:induction false} CharsSound(t: Text, i: nat) returns (j: nat)
    requires i <= |t| && ParseString(t[i..]).Read?
    ensures i <= j < |t| && t[j] == '\"' as int && CharsAt(t, i, j, ParseString(t[i..]).value) && ParseString(t[i..]).rest == t[j + 1..]
    decreases |t| - i
  {
    var u := t[i..];
    hide ParseUnit, CharAt;
    if u[0] == QUOTE {
      j := i;
      assert u[1..] == t[j + 1..];
    } else {
      var k := CharSound(t, i);
      j := CharsSound(t, k);
      var s := ParseString(u).value;
      assert s[1..] == ParseString(t[k..]).value;
    }
  }

  lemma {:induction false} CharsComplete(t: Text, i: nat, j: nat, s: Text)
    requires i <= j < |t| && t[j] == '\"' as int && CharsAt(t, i, j, s)
    ensures ParseString(t[i..]) == Read(s, t[j + 1..])
    decreases |s|
  {
    hide ParseUnit, CharAt;
    if s == [] {
      assert t[i..][1..] == t[j + 1..];
    } else {
      var k: int :| i < k <= j && CharAt(t, i, k, s[0]) && CharsAt(t, k, j, s[1..]);
      CharComplete(t, i, k, s[0]);
      CharsComplete(t, k, j, s[1..]);
      assert s == [s[0]] + s[1..];
    }
  }

  // ----- Numbers are read exactly -----

  lemma {:induction false} RunStops(t: Text, k: nat)
    requires k <= |t| && (forall i :: 0 <= i < k ==> Digit(t[i])) && (k < |t| ==> !Digit(t[k]))
    ensures DigitRun(t) == k
  {
    if k > 0 { RunStops(t[1..], k - 1); }
  }

  lemma DigitsExactly(t: Text)
    ensures DigitsText(t) <==> t != [] && DigitRun(t) == |t|
    ensures DigitRun(t) <= |t| && DigitsText(t[..DigitRun(t)]) == (DigitRun(t) > 0)
  {
    DigitRunWithin(t);
    if DigitsText(t) { RunStops(t, |t|); }
  }

  lemma IntegerEnds(t: Text, i: nat)
    requires 0 < i <= |t| && IntegerText(t[..i]) && (i < |t| ==> !Digit(t[i]))
    ensures IntegerLength(t) == i
  {
    var sign := if t[0] == '-' as int then 1 else 0;
    assert t[..i][0] == t[0];
    assert t[..i][sign..] == t[sign..i];
    assert Magnitude(t[sign..i]) by { assert sign == 0 ==> t[sign..i] == t[..i]; }
    assert t[sign..i][0] == t[sign] && forall k :: sign <= k < i ==> t[k] == t[sign..i][k - sign];
    if t[sign] != '0' as int { RunStops(t[sign..], i - sign); }
  }

  lemma IntegerBegins(t: Text)
    requires IntegerLength(t) > 0
    ensures IntegerLength(t) <= |t| && IntegerText(t[..IntegerLength(t)])
  {
    var sign := if t[0] == MINUS then 1 else 0;
    var i := IntegerLength(t);
    DigitRunWithin(t[sign..]);
    assert forall k :: sign <= k < i ==> t[k] == t[sign..][k - sign];
    assert t[..i][sign..] == t[sign..i];
    assert Magnitude(t[sign..i]);
    assert sign == 0 ==> t[sign..i] == t[..i];
  }

  lemma IntegerExactly(t: Text)
    ensures IntegerText(t) <==> t != [] && IntegerLength(t) == |t|
  {
    assert t[..|t|] == t;
    if IntegerText(t) { IntegerEnds(t, |t|); }
    if t != [] && IntegerLength(t) == |t| { IntegerBegins(t); }
  }

  lemma FractionEnds(t: Text, n: nat)
    requires n <= |t| && (n < |t| ==> !Digit(t[n]) && t[n] != '.' as int)
    requires n == 0 || FractionText(t[..n])
    ensures FractionLength(t) == n
  {
    if n > 0 {
      assert t[..n][0] == t[0] && t[..n][1..] == t[1..n];
      assert forall k :: 1 <= k < n ==> t[k] == t[1..n][k - 1];
      RunStops(t[1..], n - 1);
    }
  }

  lemma FractionBegins(t: Text)
    requires FractionLength(t) > 0
    ensures FractionLength(t) <= |t| && FractionText(t[..FractionLength(t)])
  {
    var n := FractionLength(t);
    DigitRunWithin(t[1..]);
    assert t[..n][0] == t[0] && t[..n][1..] == t[1..n];
    assert forall k :: 0 <= k < n - 1 ==> t[1..n][k] == t[1..][k];
  }

  lemma ExponentExactly(t: Text)
    requires t != []
    ensures ExponentLength(t) == |t| <==> ExponentText(t)
  {
    assert |t| > 1 ==> t[1..][0] == t[1] && t[1..][1..] == t[2..];
    DigitsExactly(t[1..]);
    if |t| > 1 { DigitsExactly(t[2..]); }
    if ExponentText(t) && SignFirst(t[1..]) { assert !Digit(t[1]); }
  }

  lemma RealPartsAreRead(t: Text, i: nat, f: nat)
    requires RealParts(t, i, f)
    ensures 0 < IntegerLength(t) == i < |t| && NumberLength(t) == |t|
  {
    hide Magnitude, DigitsText, ExponentLength, IntegerLength, FractionLength;
    assert i == f ==> t[f..][0] == t[i];
    assert i < f ==> t[i..f][0] == t[i];
    IntegerEnds(t, i);
    assert t[i..][..f - i] == t[i..f];
    assert f < |t| ==> t[i..][f - i] == t[f] == t[f..][0];
    FractionEnds(t[i..], f - i);
    if f < |t| { ExponentExactly(t[f..]); } else { LengthsWithin(t[f..]); }
  }

  lemma ReadRealHasParts(t: Text) returns (i: nat, f: nat)
    requires 0 < IntegerLength(t) < |t| && NumberLength(t) == |t|
    ensures RealParts(t, i, f)
  {
    hide Magnitude, DigitsText, IntegerText, FractionText, ExponentText, ExponentLength, IntegerLength, FractionLength;
    LengthsWithin(t);
    i := IntegerLength(t);
    LengthsWithin(t[i..]);
    f := i + FractionLength(t[i..]);
    LengthsWithin(t[f..]);
    IntegerBegins(t);
    if f > i {
      FractionBegins(t[i..]);
      assert t[i..][..f - i] == t[i..f];
    }
    if f < |t| { ExponentExactly(t[f..]); }
  }

  // The texts of real numbers are exactly those of the grammar.
  lemma RealExactly(t: Text)
    ensures RealLexeme(t) <==> RealForm(t)
  {
    hide RealParts, IntegerLength, NumberLength;
    forall i, f | 0 < i <= f <= |t| && RealParts(t, i, f)
      ensures 0 < IntegerLength(t) < |t| && NumberLength(t) == |t|
    {
      RealPartsAreRead(t, i, f);
    }
    if 0 < IntegerLength(t) < |t| && NumberLength(t) == |t| {
      var i, f := ReadRealHasParts(t);
      PartsInside(t, i, f);
    }
    ConstantsAreSpelled(t);
  }

  lemma PartsInside(t: Text, i: int, f: int)
    requires RealParts(t, i, f)
    ensures 0 < i <= f <= |t|
  {
  }

  lemma ConstantsAreSpelled(t: Text)
    ensures t == NAN <==> Spells(t, "NaN")
    ensures t == INFINITY <==> Spells(t, "Infinity")
    ensures t == MINUS_INFINITY <==> Spells(t, "-Infinity")
  {
  }

  // ----- What the parser reads is in the grammar -----

  lemma SpellsSlice(t: Text, i: nat, w: Text)
    requires i <= |t| && StartsWith(t[i..], w)
    ensures i + |w| <= |t| && t[i..i + |w|] == w && t[i..][|w|..] == t[i + |w|..]
  {
    assert t[i..][..|w|] == t[i..i + |w|];
  }

  lemma WordsAreSpelled()
    ensures Spells(NULL_TEXT, "null") && Spells(TRUE_TEXT, "true") && Spells(FALSE_TEXT, "false")
    ensures Spells(NAN, "NaN") && Spells(INFINITY, "Infinity") && Spells(MINUS_INFINITY, "-Infinity")
  {
  }

  lemma ConstantSound(t: Text, i: nat) returns (j: nat)
    requires i <= |t| && ParseConstant(t[i..]).Read?
    ensures i < j <= |t| && ValueAt(t, i, j, ParseConstant(t[i..]).value) && ParseConstant(t[i..]).rest == t[j..]
  {
    WordsAreSpelled();
    hide Spells, StartsWith;
    var u := t[i..];
    var w := if StartsWith(u, NULL_TEXT) then NULL_TEXT else if StartsWith(u, TRUE_TEXT) then TRUE_TEXT
             else if StartsWith(u, FALSE_TEXT) then FALSE_TEXT else if StartsWith(u, NAN) then NAN
             else if StartsWith(u, INFINITY) then INFINITY else MINUS_INFINITY;
    j := i + |w|;
    SpellsSlice(t, i, w);
  }

  lemma NumberSound(t: Text, i: nat) returns (j: nat)
    requires i <= |t| && IntegerLength(t[i..]) > 0
    ensures ParseNumber(t[i..]).Read? && i < j <= |t|
    ensures ValueAt(t, i, j, ParseNumber(t[i..]).value) && ParseNumber(t[i..]).rest == t[j..]
  {
    hide IntegerLength, NumberLength, IntegerValue, IntegerText, RealForm;
    var u := t[i..];
    j := i + NumberLength(u);
    assert u[..j - i] == t[i..j] && u[j - i..] == t[j..];
    if NumberLength(u) == IntegerLength(u) {
      IntegerBegins(u);
    } else {
      RealExactly(u[..j - i]);
    }
  }

  lemma {:induction false} ValueSound(t: Text, i: nat) returns (j: nat)
    requires i <= |t| && ParseValue(t[i..]).Read?
    ensures i < j <= |t| && ValueAt(t, i, j, ParseValue(t[i..]).value) && ParseValue(t[i..]).rest == t[j..]
    decreases |t| - i, 0
  {
    hide ParseString, ParseNumber, ParseConstant, ParseMoreItems, ParseMoreMembers, CharsAt, IntegerLength, BlankAt,
         PaddedAt, MemberAt, ItemsAt, MembersAt;
    var u := t[i..];
    assert u[1..] == t[i + 1..];
    if u[0] == QUOTE {
      j := CharsSound(t, i + 1);
      j := j + 1;
    } else if u[0] == OPEN_BRACKET {
      var a := Skips(t, i + 1);
      j := ItemsSound(t, i + 1, a);
    } else if u[0] == OPEN_BRACE {
      var a := Skips(t, i + 1);
      j := MembersSound(t, i + 1, a);
    } else if IntegerLength(u) > 0 {
      j := NumberSound(t, i);
    } else {
      j := ConstantSound(t, i);
    }
  }

  lemma {:induction false} ItemsSound(t: Text, i: nat, a: nat) returns (j: nat)
    requires BlankAt(t, i, a) && ParseItems(t[a..]).Read?
    ensures i < j <= |t| && t[j - 1] == ']' as int && ParseItems(t[a..]).rest == t[j..]
    ensures var items := ParseItems(t[a..]).value;
            if items == [] then BlankAt(t, i, j - 1) else ItemsAt(t, i, j - 1, items)
    decreases |t| - a, 3
  {
    hide ParseMoreItems, ItemsAt;
    var u := t[a..];
    if u != [] && u[0] == CLOSE_BRACKET {
      j := a + 1;
      assert u[1..] == t[j..];
    } else {
      j := MoreItemsSound(t, i, a);
    }
  }

  lemma {:induction false} PaddedSound(t: Text, i: nat, a: nat) returns (k: nat)
    requires BlankAt(t, i, a) && ParseValue(t[a..]).Read?
    ensures 0 <= i <= a < k <= |t| && PaddedAt(t, i, k, ParseValue(t[a..]).value) && SkipSpace(ParseValue(t[a..]).rest) == t[k..]
    decreases |t| - a, 1
  {
    BlankInside(t, i, a);
    hide ParseValue, ValueAt, BlankAt;
    var b := ValueSound(t, a);
    k := Skips(t, b);
  }

  lemma ConsItemAt(t: Text, i: nat, k: nat, j: nat, v: Raw, others: seq<Raw>)
    requires i <= k < j <= |t| && t[k] == ',' as int && PaddedAt(t, i, k, v)
    requires others != [] && ItemsAt(t, k + 1, j, others)
    ensures ItemsAt(t, i, j, [v] + others)
  {
    hide PaddedAt;
    assert ([v] + others)[0] == v && ([v] + others)[1..] == others;
  }

  lemma OneItemAt(t: Text, i: nat, k: nat, v: Raw)
    requires i <= k <= |t| && PaddedAt(t, i, k, v)
    ensures ItemsAt(t, i, k, [v])
  {
    hide PaddedAt;
  }

  lemma MoreItemsUnfold(u: Text)
    requires ParseMoreItems(u).Read?
    ensures var first := ParseValue(u);
            && first.Read?
            && var after := SkipSpace(first.rest);
               && after != []
               && if after[0] == CLOSE_BRACKET then ParseMoreItems(u) == Read([first.value], after[1..])
                  else
                    && after[0] == COMMA
                    && var others := ParseMoreItems(SkipSpace(after[1..]));
                       others.Read? && ParseMoreItems(u) == Read([first.value] + others.value, others.rest)
  {
    hide ParseValue, SkipSpace;
  }

  lemma {:induction false} MoreItemsSound(t: Text, i: nat, a: nat) returns (j: nat)
    requires BlankAt(t, i, a) && ParseMoreItems(t[a..]).Read?
    ensures ParseMoreItems(t[a..]).value != []
    ensures i < j <= |t| && t[j - 1] == ']' as int && ParseMoreItems(t[a..]).rest == t[j..]
    ensures ItemsAt(t, i, j - 1, ParseMoreItems(t[a..]).value)
    decreases |t| - a, 2
  {
    hide ParseValue, BlankAt, PaddedAt, ItemsAt, SkipSpace, ParseMoreItems;
    BlankInside(t, i, a);
    MoreItemsUnfold(t[a..]);
    var k := PaddedSound(t, i, a);
    var v := ParseValue(t[a..]).value;
    assert t[k..][0] == t[k] && t[k..][1..] == t[k + 1..];
    if t[k] == CLOSE_BRACKET {
      j := k + 1;
      OneItemAt(t, i, k, v);
    } else {
      var next := Skips(t, k + 1);
      j := MoreItemsSound(t, k + 1, next);
      ConsItemAt(t, i, k, j - 1, v, ParseMoreItems(t[next..]).value);
    }
  }

  lemma {:induction false} MemberSound(t: Text, i: nat, a: nat) returns (j: nat)
    requires BlankAt(t, i, a) && ParseMember(t[a..]).Read?
    ensures a < j <= |t| && ParseMember(t[a..]).rest == t[j..]
    ensures forall k :: BlankAt(t, j, k) ==> 0 <= i <= k <= |t| && MemberAt(t, i, k, ParseMember(t[a..]).value)
    decreases |t| - a, 1
  {
    hide ParseValue, ParseString, ValueAt, CharsAt;
    assert t[a..][1..] == t[a + 1..];
    var b := CharsSound(t, a + 1);
    var colon := Skips(t, b + 1);
    assert t[colon..][1..] == t[colon + 1..];
    assert StringAt(t, a, b + 1, ParseMember(t[a..]).value.key);
    assert KeyAt(t, i, colon, ParseMember(t[a..]).value.key);
    var c := Skips(t, colon + 1);
    j := ValueSound(t, c);
    hide KeyAt;
    forall k | BlankAt(t, j, k)
      ensures 0 <= i <= k <= |t| && MemberAt(t, i, k, ParseMember(t[a..]).value)
    {
      BlankInside(t, j, k);
      hide BlankAt;
      assert PaddedAt(t, colon + 1, k, ParseMember(t[a..]).value.value);
    }
  }

  lemma BlankInside(t: Text, i: int, j: int)
    requires BlankAt(t, i, j)
    ensures 0 <= i <= j <= |t|
  {
  }

  lemma ConsMemberAt(t: Text, i: nat, k: nat, j: nat, m: Member, others: seq<Member>)
    requires i <= k < j <= |t| && t[k] == ',' as int && MemberAt(t, i, k, m)
    requires others != [] && MembersAt(t, k + 1, j, others)
    ensures MembersAt(t, i, j, [m] + others)
  {
    hide MemberAt;
    assert ([m] + others)[0] == m && ([m] + others)[1..] == others;
  }

  lemma OneMemberAt(t: Text, i: nat, k: nat, m: Member)
    requires i <= k <= |t| && MemberAt(t, i, k, m)
    ensures MembersAt(t, i, k, [m])
  {
    hide MemberAt;
  }

  lemma {:induction false} MembersSound(t: Text, i: nat, a: nat) returns (j: nat)
    requires BlankAt(t, i, a) && ParseMembers(t[a..]).Read?
    ensures i < j <= |t| && t[j - 1] == '}' as int && ParseMembers(t[a..]).rest == t[j..]
    ensures var members := ParseMembers(t[a..]).value;
            if members == [] then BlankAt(t, i, j - 1) else MembersAt(t, i, j - 1, members)
    decreases |t| - a, 3
  {
    hide ParseMoreMembers, MembersAt;
    var u := t[a..];
    if u != [] && u[0] == CLOSE_BRACE {
      j := a + 1;
      assert u[1..] == t[j..];
    } else {
      j := MoreMembersSound(t, i, a);
    }
  }

  lemma MoreMembersUnfold(u: Text)
    requires ParseMoreMembers(u).Read?
    ensures var first := ParseMember(u);
            && first.Read?
            && var after := SkipSpace(first.rest);
               && after != []
               && if after[0] == CLOSE_BRACE then ParseMoreMembers(u) == Read([first.value], after[1..])
                  else
                    && after[0] == COMMA
                    && var others := ParseMoreMembers(SkipSpace(after[1..]));
                       others.Read? && ParseMoreMembers(u) == Read([first.value] + others.value, others.rest)
  {
    hide ParseMember, SkipSpace;
  }

  lemma {:induction false} MoreMembersSound(t: Text, i: nat, a: nat) returns (j: nat)
    requires BlankAt(t, i, a) && ParseMoreMembers(t[a..]).Read?
    ensures ParseMoreMembers(t[a..]).value != []
    ensures i < j <= |t| && t[j - 1] == '}' as int && ParseMoreMembers(t[a..]).rest == t[j..]
    ensures MembersAt(t, i, j - 1, ParseMoreMembers(t[a..]).value)
    decreases |t| - a, 2
  {
    hide ParseMember, BlankAt, MemberAt, MembersAt, SkipSpace, ParseMoreMembers;
    BlankInside(t, i, a);
    MoreMembersUnfold(t[a..]);
    var b := MemberSound(t, i, a);
    var k := Skips(t, b);
    var m := ParseMember(t[a..]).value;
    assert MemberAt(t, i, k, m);
    assert t[k..][0] == t[k] && t[k..][1..] == t[k + 1..];
    if t[k] == CLOSE_BRACE {
      j := k + 1;
      OneMemberAt(t, i, k, m);
    } else {
      var next := Skips(t, k + 1);
      j := MoreMembersSound(t, k + 1, next);
      ConsMemberAt(t, i, k, j - 1, m, ParseMoreMembers(t[next..]).value);
    }
  }

  // ----- What is in the grammar is read -----

  // What may follow a value inside a document, or its end.
  predicate EndsAt(t: Text, j: int) {
    0 <= j <= |t| && (j == |t| || IsSpace(t[j]) || t[j] == COMMA || t[j] == CLOSE_BRACKET || t[j] == CLOSE_BRACE)
  }

  lemma IntegerComplete(t: Text, i: nat, j: nat)
    requires i <= j <= |t| && EndsAt(t, j) && IntegerText(t[i..j])
    ensures ParseValue(t[i..]) == Read(Int(IntegerValue(t[i..j])), t[j..])
  {
    var u, x := t[i..j], t[j..];
    assert t[i..] == u + x;
    assert EndsNumber(x);
    IntegerExactly(u);
    LengthsWithin(u);
    assert u[|u|..] == [];
    assert NumberLength(u) == |u|;
    hide IntegerText, IntegerValue, EndsNumber, IntegerLength, NumberLength;
    IntegerLengthOfAppend(u, x);
    NumberLengthOfAppend(u, x);
    NumberFirst(u + x);
    assert (u + x)[..|u|] == u && (u + x)[|u|..] == x;
  }

  lemma LexemeIsNumber(l: RealText)
    requires l != NAN && l != INFINITY && l != MINUS_INFINITY
    ensures 0 < IntegerLength(l) < |l| && NumberLength(l) == |l|
  {
    hide IntegerLength, NumberLength;
  }

  lemma NumberRead(l: Text, x: Text)
    requires EndsNumber(x) && 0 < IntegerLength(l) < |l| && NumberLength(l) == |l| && RealLexeme(l)
    ensures ParseValue(l + x) == Read(Real(l), x)
  {
    hide EndsNumber, IntegerLength, NumberLength, RealLexeme, ParseValue;
    IntegerLengthOfAppend(l, x);
    NumberLengthOfAppend(l, x);
    NumberFirst(l + x);
    assert (l + x)[..|l|] == l && (l + x)[|l|..] == x;
  }

  lemma RealComplete(t: Text, i: nat, j: nat, lexeme: RealText)
    requires i <= j <= |t| && EndsAt(t, j) && t[i..j] == lexeme
    ensures ParseValue(t[i..]) == Read(Real(lexeme), t[j..])
  {
    assert t[i..] == lexeme + t[j..];
    assert EndsNumber(t[j..]);
    hide EndsNumber, IntegerLength, NumberLength, RealLexeme, ParseValue;
    if lexeme == NAN || lexeme == INFINITY || lexeme == MINUS_INFINITY {
      ConstantReads(lexeme, t[j..]);
    } else {
      LexemeIsNumber(lexeme);
      NumberRead(lexeme, t[j..]);
    }
  }

  lemma WordComplete(t: Text, i: nat, j: nat, v: Raw)
    requires i <= j <= |t| && (v.Null? || v.Bool?) && ValueAt(t, i, j, v)
    ensures ParseValue(t[i..]) == Read(v, t[j..])
  {
    var u, x := t[i..j], t[j..];
    assert t[i..] == u + x;
    WordsAreSpelled();
    assert u == Print(v, Host);
    WordReads(v, Host, x);
  }

  lemma StrComplete(t: Text, i: nat, j: nat, s: Text)
    requires StringAt(t, i, j, s)
    ensures i < j <= |t| && ParseValue(t[i..]) == Read(Str(s), t[j..])
  {
    hide StringAt, ParseString;
    StringComplete(t, i, j, s);
  }

  lemma ArrComplete(t: Text, i: nat, items: seq<Raw>, x: Text)
    requires i < |t| && t[i] == '[' as int && ParseItems(SkipSpace(t[i + 1..])) == Read(items, x)
    ensures ParseValue(t[i..]) == Read(Arr(items), x)
  {
    hide ParseItems, SkipSpace;
    assert t[i..][1..] == t[i + 1..];
  }

  lemma ObjComplete(t: Text, i: nat, members: seq<Member>, x: Text)
    requires i < |t| && t[i] == '{' as int && ParseMembers(SkipSpace(t[i + 1..])) == Read(members, x)
    ensures ParseValue(t[i..]) == Read(Obj(members), x)
  {
    hide ParseMembers, SkipSpace;
    assert t[i..][1..] == t[i + 1..];
  }

  lemma {:induction false} ValueComplete(t: Text, i: nat, j: nat, v: Raw)
    requires i <= j <= |t| && ValueAt(t, i, j, v) && EndsAt(t, j)
    ensures ParseValue(t[i..]) == Read(v, t[j..])
    decreases j - i, 0
  {
    hide ParseValue, StringAt, ItemsAt, MembersAt, ParseItems, ParseMembers, SkipSpace, IntegerText, RealForm, EndsAt;
    match v
    case Int(n) => IntegerComplete(t, i, j);
    case Real(lexeme) => RealComplete(t, i, j, lexeme);
    case Str(s) => StrComplete(t, i, j, s);
    case Arr(items) =>
      ItemsComplete(t, i + 1, j - 1, items);
      ArrComplete(t, i, items, t[j..]);
    case Obj(members) =>
      MembersComplete(t, i + 1, j - 1, members);
      ObjComplete(t, i, members, t[j..]);
    case _ => WordComplete(t, i, j, v);
  }

  lemma {:induction false} ItemsComplete(t: Text, i: nat, j: nat, items: seq<Raw>)
    requires i <= j < |t| && t[j] == ']' as int
    requires if items == [] then BlankAt(t, i, j) else ItemsAt(t, i, j, items)
    ensures ParseItems(SkipSpace(t[i..])) == Read(items, t[j + 1..])
    decreases j - i, 4
  {
    hide ItemsAt, ParseMoreItems;
    if items == [] {
      SkipsBlank(t, i, j);
      assert t[j..][1..] == t[j + 1..];
    } else {
      MoreItemsComplete(t, i, j, items);
    }
  }

  // A padded value, up to the mark that follows it.
  lemma {:induction false} PaddedComplete(t: Text, i: nat, k: nat, v: Raw)
    requires i <= k < |t| && PaddedAt(t, i, k, v) && !IsSpace(t[k]) && EndsAt(t, k)
    ensures var u := SkipSpace(t[i..]);
            && u != [] && u[0] != CLOSE_BRACKET
            && ParseValue(u).Read? && ParseValue(u).value == v && SkipSpace(ParseValue(u).rest) == t[k..]
    decreases k - i, 1
  {
    var a: int, b: int :| i <= a <= b <= k && BlankAt(t, i, a) && ValueAt(t, a, b, v) && BlankAt(t, b, k);
    BlankEnds(t, b, k);
    hide ValueAt, BlankAt, ParseValue;
    ValueComplete(t, a, b, v);
    ValueFirst(t[a..]);
    SkipsBlank(t, i, a);
    SkipsBlank(t, b, k);
  }

  lemma BlankEnds(t: Text, b: nat, k: nat)
    requires b <= k <= |t| && BlankAt(t, b, k) && EndsAt(t, k)
    ensures EndsAt(t, b)
  {
    if b < k { SpaceIsBlank(t[b]); }
  }

  lemma LastItemRead(u: Text, v: Raw, rest: Text)
    requires ParseValue(u).Read? && ParseValue(u).value == v
    requires SkipSpace(ParseValue(u).rest) == [CLOSE_BRACKET] + rest
    ensures ParseMoreItems(u) == Read([v], rest)
  {
    hide ParseValue, SkipSpace;
    assert ([CLOSE_BRACKET] + rest)[1..] == rest;
  }

  lemma NextItemRead(u: Text, v: Raw, rest: Text, others: seq<Raw>, x: Text)
    requires ParseValue(u).Read? && ParseValue(u).value == v
    requires SkipSpace(ParseValue(u).rest) == [COMMA] + rest && ParseMoreItems(SkipSpace(rest)) == Read(others, x)
    ensures ParseMoreItems(u) == Read([v] + others, x)
  {
    hide ParseValue, SkipSpace;
    assert ([COMMA] + rest)[1..] == rest;
  }

  lemma FirstItem(t: Text, i: nat, j: nat, items: seq<Raw>) returns (k: nat)
    requires items != [] && i <= j <= |t| && ItemsAt(t, i, j, items)
    ensures |items| == 1 ==> PaddedAt(t, i, j, items[0])
    ensures |items| > 1 ==>
              i <= k < j && t[k] == ',' as int && PaddedAt(t, i, k, items[0]) && ItemsAt(t, k + 1, j, items[1..])
  {
    hide PaddedAt;
    k := 0;
    if |items| > 1 {
      k :| i <= k < j && t[k] == ',' as int && PaddedAt(t, i, k, items[0]) && ItemsAt(t, k + 1, j, items[1..]);
    }
  }

  lemma {:induction false} MoreItemsComplete(t: Text, i: nat, j: nat, items: seq<Raw>)
    requires items != [] && i <= j < |t| && t[j] == ']' as int && ItemsAt(t, i, j, items)
    ensures var u := SkipSpace(t[i..]);
            u != [] && u[0] != CLOSE_BRACKET && ParseMoreItems(u) == Read(items, t[j + 1..])
    decreases j - i, 3
  {
    hide PaddedAt, ItemsAt, ParseValue, ParseMoreItems, SkipSpace;
    var u := SkipSpace(t[i..]);
    var k := FirstItem(t, i, j, items);
    if |items| == 1 {
      PaddedComplete(t, i, j, items[0]);
      assert t[j..] == [CLOSE_BRACKET] + t[j + 1..];
      LastItemRead(u, items[0], t[j + 1..]);
      assert items == [items[0]];
    } else {
      PaddedComplete(t, i, k, items[0]);
      MoreItemsComplete(t, k + 1, j, items[1..]);
      assert t[k..] == [COMMA] + t[k + 1..];
      NextItemRead(u, items[0], t[k + 1..], items[1..], t[j + 1..]);
      assert items == [items[0]] + items[1..];
    }
  }

  lemma {:induction false} MembersComplete(t: Text, i: nat, j: nat, members: seq<Member>)
    requires i <= j < |t| && t[j] == '}' as int
    requires if members == [] then BlankAt(t, i, j) else MembersAt(t, i, j, members)
    ensures ParseMembers(SkipSpace(t[i..])) == Read(members, t[j + 1..])
    decreases j - i, 4
  {
    hide MembersAt, ParseMoreMembers;
    if members == [] {
      SkipsBlank(t, i, j);
      assert t[j..][1..] == t[j + 1..];
    } else {
      MoreMembersComplete(t, i, j, members);
    }
  }

  lemma StringComplete(t: Text, a: nat, b: nat, key: Text)
    requires StringAt(t, a, b, key)
    ensures a < b <= |t| && t[a] == QUOTE && t[a..][1..] == t[a + 1..] && ParseString(t[a + 1..]) == Read(key, t[b..])
  {
    hide CharsAt, ParseString;
    CharsComplete(t, a + 1, b - 1, key);
  }

  lemma KeyComplete(t: Text, i: nat, k: nat, key: Text)
    requires i <= k < |t| && KeyAt(t, i, k, key) && t[k] == ':' as int
    ensures var u := SkipSpace(t[i..]);
            && u != [] && u[0] == QUOTE
            && ParseString(u[1..]).Read? && ParseString(u[1..]).value == key && SkipSpace(ParseString(u[1..]).rest) == t[k..]
  {
    var a: int, b: int :| i <= a <= b <= k && BlankAt(t, i, a) && StringAt(t, a, b, key) && BlankAt(t, b, k);
    hide BlankAt, StringAt, ParseString, KeyAt;
    StringComplete(t, a, b, key);
    SkipsBlank(t, i, a);
    SkipsBlank(t, b, k);
  }

  lemma MemberRead(u: Text, rest: Text, m: Member)
    requires u != [] && u[0] == QUOTE && ParseString(u[1..]).Read? && ParseString(u[1..]).value == m.key
    requires SkipSpace(ParseString(u[1..]).rest) == [COLON] + rest
    requires ParseValue(SkipSpace(rest)).Read? && ParseValue(SkipSpace(rest)).value == m.value
    ensures ParseMember(u) == Read(m, ParseValue(SkipSpace(rest)).rest)
  {
    hide ParseString, ParseValue, SkipSpace;
    assert ([COLON] + rest)[1..] == rest;
  }

  lemma {:induction false} MemberComplete(t: Text, i: nat, k: nat, m: Member)
    requires i <= k < |t| && MemberAt(t, i, k, m) && !IsSpace(t[k]) && EndsAt(t, k)
    ensures var u := SkipSpace(t[i..]);
            && u != [] && u[0] == QUOTE
            && ParseMember(u).Read? && ParseMember(u).value == m && SkipSpace(ParseMember(u).rest) == t[k..]
    decreases k - i, 2
  {
    hide PaddedAt, KeyAt, ParseString, ParseValue, ParseMember, SkipSpace, EndsAt, IsSpace;
    var colon: int :| i <= colon < k && t[colon] == ':' as int && KeyAt(t, i, colon, m.key) && PaddedAt(t, colon + 1, k, m.value);
    KeyComplete(t, i, colon, m.key);
    PaddedComplete(t, colon + 1, k, m.value);
    assert t[colon..] == [COLON] + t[colon + 1..];
    MemberRead(SkipSpace(t[i..]), t[colon + 1..], m);
  }

  lemma LastMemberRead(u: Text, m: Member, rest: Text)
    requires ParseMember(u).Read? && ParseMember(u).value == m
    requires SkipSpace(ParseMember(u).rest) == [CLOSE_BRACE] + rest
    ensures ParseMoreMembers(u) == Read([m], rest)
  {
    hide ParseMember, SkipSpace;
    assert ([CLOSE_BRACE] + rest)[1..] == rest;
  }

  lemma NextMemberRead(u: Text, m: Member, rest: Text, others: seq<Member>, x: Text)
    requires ParseMember(u).Read? && ParseMember(u).value == m
    requires SkipSpace(ParseMember(u).rest) == [COMMA] + rest && ParseMoreMembers(SkipSpace(rest)) == Read(others, x)
    ensures ParseMoreMembers(u) == Read([m] + others, x)
  {
    hide ParseMember, SkipSpace;
    assert ([COMMA] + rest)[1..] == rest;
  }

  lemma {:induction false} MoreMembersComplete(t: Text, i: nat, j: nat, members: seq<Member>)
    requires members != [] && i <= j < |t| && t[j] == '}' as int && MembersAt(t, i, j, members)
    ensures var u := SkipSpace(t[i..]);
            u != [] && u[0] != CLOSE_BRACE && ParseMoreMembers(u) == Read(members, t[j + 1..])
    decreases j - i, 3
  {
    hide MemberAt, ParseMember, ParseMoreMembers, SkipSpace;
    var u := SkipSpace(t[i..]);
    if |members| == 1 {
      MemberComplete(t, i, j, members[0]);
      assert t[j..] == [CLOSE_BRACE] + t[j + 1..];
      LastMemberRead(u, members[0], t[j + 1..]);
      assert members == [members[0]];
    } else {
      var k: int :| i <= k < j && t[k] == ',' as int && MemberAt(t, i, k, members[0]) && MembersAt(t, k + 1, j, members[1..]);
      hide MembersAt;
      MemberComplete(t, i, k, members[0]);
      MoreMembersComplete(t, k + 1, j, members[1..]);
      assert t[k..] == [COMMA] + t[k + 1..];
      NextMemberRead(u, members[0], t[k + 1..], members[1..], t[j + 1..]);
      assert members == [members[0]] + members[1..];
    }
  }

  lemma PaddedParses(t: Text, v: Raw)
    requires PaddedAt(t, 0, |t|, v)
    ensures Parse(t) == Some(v)
  {
    var a: int, b: int :| 0 <= a <= b <= |t| && BlankAt(t, 0, a) && ValueAt(t, a, b, v) && BlankAt(t, b, |t|);
    BlankEnds(t, b, |t|);
    hide ValueAt, BlankAt, ParseValue;
    ValueComplete(t, a, b, v);
    if a < |t| { ValueFirst(t[a..]); }
    assert t[0..] == t && t[|t|..] == [];
    SkipsBlank(t, 0, a);
    SkipsBlank(t, b, |t|);
  }

  lemma ParsedIsPadded(t: Text)
    requires Parse(t).Some?
    ensures PaddedAt(t, 0, |t|, Parse(t).value)
  {
    hide ParseValue, ValueAt, PaddedAt, SkipSpace, BlankAt;
    assert t[0..] == t;
    var a := Skips(t, 0);
    var end := PaddedSound(t, 0, a);
    assert |t[end..]| == 0;
  }

  // A text is read as a document exactly when it is one, with white space around it, by the grammar.
  lemma ParsesExactly(t: Text, v: Raw)
    ensures Parse(t) == Some(v) <==> PaddedAt(t, 0, |t|, v)
  {
    hide Parse, PaddedAt;
    if Parse(t).Some? { ParsedIsPadded(t); }
    if PaddedAt(t, 0, |t|, v) { PaddedParses(t, v); }
  }

  // No text is two documents.
  lemma GrammarIsUnambiguous(t: Text, v: Raw, w: Raw)
    requires PaddedAt(t, 0, |t|, v) && PaddedAt(t, 0, |t|, w)
    ensures v == w
  {
    hide PaddedAt, Parse;
    ParsesExactly(t, v);
    ParsesExactly(t, w);
  }
}
