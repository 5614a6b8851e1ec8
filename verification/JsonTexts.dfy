// What the two serialisers write: the shortest texts of a document there are in the characters each
// of them allows, the host in printable ASCII and the Worker in well-formed UTF-16.
module JsonTexts {
  import opened CanonicalJson
  import opened JsonGrammar
  import opened JsonNumbers
  import opened JsonParser
  import opened JsonRoundTrip
  import opened Wrappers

  // ----- Characters -----

  predicate Printable(c: Unit) {
    ' ' as int <= c <= '~' as int
  }

  predicate Blank(c: Unit) {
    c == ' ' as int || c == '\t' as int || c == '\n' as int || c == '\r' as int
  }

  predicate Surrogate(c: Unit) {
    0xD800 <= c <= 0xDFFF
  }

  predicate CapitalLetter(c: Unit) {
    'A' as int <= c <= 'Z' as int
  }

  // High surrogates are followed by low ones, and low ones follow high ones.
  predicate WellFormed(t: Text) {
    if t == [] then true
    else if Surrogate(t[0]) then t[0] <= 0xDBFF && |t| > 1 && 0xDC00 <= t[1] <= 0xDFFF && WellFormed(t[2..])
    else WellFormed(t[1..])
  }

  predicate Allowed(t: Text, style: Style) {
    if style == Host then forall k :: 0 <= k < |t| ==> Printable(t[k]) || Blank(t[k]) else WellFormed(t)
  }

  lemma {:induction false} WellFormedParts(t: Text, k: nat)
    requires k < |t| && WellFormed(t) && !Surrogate(t[k])
    ensures WellFormed(t[..k]) && WellFormed(t[k..]) && WellFormed(t[k + 1..])
  {
    assert t[..0] == [] && t[0..] == t;
    if k > 0 {
      var n := if Surrogate(t[0]) then 2 else 1;
      assert t[..k][n..] == t[n..][..k - n] && t[k..] == t[n..][k - n..] && t[k + 1..] == t[n..][k - n + 1..];
      WellFormedParts(t[n..], k - n);
    }
  }

  lemma {:induction false} WellFormedSum(a: Text, b: Text)
    requires WellFormed(a) && WellFormed(b)
    ensures WellFormed(a + b)
  {
    if a == [] {
      assert a + b == b;
    } else {
      var n := if Surrogate(a[0]) then 2 else 1;
      assert (a + b)[n..] == a[n..] + b;
      WellFormedSum(a[n..], b);
    }
  }

  lemma AllowedSum(a: Text, b: Text, style: Style)
    requires Allowed(a, style) && Allowed(b, style)
    ensures Allowed(a + b, style)
  {
    if style == Worker { WellFormedSum(a, b); }
  }

  // What is allowed stays so when it is parted at a character that is no surrogate.
  lemma AllowedParts(t: Text, i: nat, k: nat, j: nat, style: Style)
    requires i <= k < j <= |t| && Allowed(t[i..j], style) && !Surrogate(t[k])
    ensures Allowed(t[i..k], style) && Allowed(t[k..j], style) && Allowed(t[k + 1..j], style)
  {
    var u := t[i..j];
    assert u[..k - i] == t[i..k] && u[k - i..] == t[k..j] && u[k - i + 1..] == t[k + 1..j];
    if style == Worker { WellFormedParts(u, k - i); }
  }

  lemma {:induction false} FreeOfSurrogates(t: Text)
    requires forall k :: 0 <= k < |t| ==> !Surrogate(t[k])
    ensures WellFormed(t)
  {
    if t != [] { FreeOfSurrogates(t[1..]); }
  }

  // Plain characters are allowed in both styles.
  lemma PlainIsAllowed(t: Text, style: Style)
    requires forall k :: 0 <= k < |t| ==> Printable(t[k])
    ensures Allowed(t, style)
  {
    if style == Worker { FreeOfSurrogates(t); }
  }

  // ----- Units -----

  lemma HexDigitsAreSmall(d: nat)
    requires d < 16
    ensures HexText(HexDigit(d), d) && Printable(HexDigit(d)) && !CapitalLetter(HexDigit(d))
  {
  }

  lemma Hex4IsEscape(c: Unit)
    ensures |Hex4(c)| == 6 && CharAt(Hex4(c), 0, 6, c)
    ensures forall i :: 0 <= i < 6 ==> Printable(Hex4(c)[i]) && !CapitalLetter(Hex4(c)[i])
  {
    UnitDigits(c);
    HexDigitsAreSmall(c / 4096);
    HexDigitsAreSmall(c / 256 % 16);
    HexDigitsAreSmall(c / 16 % 16);
    HexDigitsAreSmall(c % 16);
    hide HexDigit, HexText;
  }

  predicate UnitAllowed(c: Unit, style: Style) {
    if style == Host then Printable(c) else !Surrogate(c)
  }

  // Every unit is written as one character of the grammar, in the shortest way that the style allows
  // and, where that is an escape by number, in small letters.
  lemma UnitsAreShortest(c: Unit, style: Style, u: Text)
    ensures var w := UnitText(c, style);
            && CharAt(w, 0, |w|, c) && (forall i :: 0 <= i < |w| ==> UnitAllowed(w[i], style))
            && (|w| == 6 ==> forall i :: 0 <= i < 6 ==> !CapitalLetter(w[i]))
            && (CharAt(u, 0, |u|, c) && (forall i :: 0 <= i < |u| ==> UnitAllowed(u[i], style)) ==> |w| <= |u|)
  {
    Hex4IsEscape(c);
    hide Hex4;
  }

  lemma UnitTextAllowed(c: Unit, style: Style)
    ensures Allowed(UnitText(c, style), style)
  {
    UnitsAreShortest(c, style, []);
    hide UnitText, CharAt;
    if style == Worker { FreeOfSurrogates(UnitText(c, style)); }
  }

  // ----- Strings -----

  lemma {:induction false} EscapedAllowed(s: Text, style: Style)
    ensures Allowed(Escaped(s, style), style)
  {
    hide UnitText;
    if s == [] {
    } else if style == Worker && PairFirst(s) {
      EscapedAllowed(s[2..], style);
      assert s[..2][2..] == [];
      WellFormedSum(s[..2], Escaped(s[2..], style));
    } else {
      EscapedAllowed(s[1..], style);
      UnitTextAllowed(s[0], style);
      AllowedSum(UnitText(s[0], style), Escaped(s[1..], style), style);
    }
  }

  lemma CharMoves(t: Text, i: nat, k: nat, c: Unit)
    requires CharAt(t, i, k, c)
    ensures i < k <= |t| && CharAt(t[i..k], 0, |t[i..k]|, c)
  {
    assert k - i > 1 ==> t[i..k][1] == t[i + 1];
    hide Escape, HexText;
  }

  // A character of the grammar is written in printable ones, unless it stands for itself.
  lemma CharForm(t: Text, i: nat, k: nat, c: Unit)
    requires CharAt(t, i, k, c)
    ensures i < k <= |t| && (t[i] == '\\' as int || (k == i + 1 && c == t[i] >= 0x20))
    ensures t[i] == '\\' as int ==> forall n :: i <= n < k ==> Printable(t[n])
  {
  }

  // In any text of the string within the style's characters the first unit takes no less.
  lemma FirstIsShortest(t: Text, i: nat, k: nat, c: Unit, style: Style)
    requires CharAt(t, i, k, c) && i < k <= |t|
    requires if style == Host then Printable(t[i]) || Blank(t[i]) else !Surrogate(t[i])
    ensures |UnitText(c, style)| <= k - i
    ensures forall n :: i <= n < k ==> !Surrogate(t[n])
  {
    CharForm(t, i, k, c);
    CharMoves(t, i, k, c);
    UnitsAreShortest(c, style, t[i..k]);
    hide CharAt, UnitText;
    assert forall n :: 0 <= n < k - i ==> t[i..k][n] == t[i + n];
  }

  lemma {:induction false} CharsAreShortest(t: Text, i: nat, j: nat, s: Text, style: Style)
    requires i <= j <= |t| && CharsAt(t, i, j, s) && Allowed(t[i..j], style)
    ensures |Escaped(s, style)| <= j - i
    decreases |s|, 1
  {
    if s != [] {
      var k: int :| i < k <= j && CharAt(t, i, k, s[0]) && CharsAt(t, k, j, s[1..]);
      assert t[i..j][0] == t[i];
      if style == Worker && Surrogate(t[i]) {
        PairIsShortest(t, i, k, j, s);
      } else {
        FirstIsShortest(t, i, k, s[0], style);
        hide CharAt, UnitText;
        AllowedParts(t, i, k - 1, j, style);
        CharsAreShortest(t, k, j, s[1..], style);
        if style == Worker && PairFirst(s) { LoneLow(s[1..]); }
      }
    }
  }

  lemma LoneLow(s: Text)
    requires s != [] && IsLow(s[0])
    ensures |Escaped(s, Worker)| == 6 + |Escaped(s[1..], Worker)|
  {
  }

  lemma PairIsShortest(t: Text, i: nat, k: nat, j: nat, s: Text)
    requires s != [] && i < k <= j <= |t| && CharAt(t, i, k, s[0]) && CharsAt(t, k, j, s[1..])
    requires Surrogate(t[i]) && WellFormed(t[i..j])
    ensures |Escaped(s, Worker)| <= j - i
    decreases |s|, 0
  {
    CharForm(t, i, k, s[0]);
    hide CharAt;
    var u := t[i..j];
    assert u[0] == t[i] && u[1] == t[i + 1] && u[2..] == t[i + 2..j];
    var n: int :| k < n <= j && CharAt(t, k, n, s[1..][0]) && CharsAt(t, n, j, s[1..][1..]);
    CharForm(t, k, n, s[1]);
    assert s[1..][1..] == s[2..];
    CharsAreShortest(t, i + 2, j, s[2..], Worker);
  }

  // ----- Numbers -----

  lemma {:induction false} MagnitudeIsDigits(m: Text)
    requires Magnitude(m)
    ensures DigitsValue(m) >= 0 && Digits(DigitsValue(m)) == m
    ensures m[0] != '0' as int ==> DigitsValue(m) > 0
  {
    var n := |m| - 1;
    if n == 0 {
      assert m[..0] == [] && DigitsValue([]) == 0;
    } else {
      assert Magnitude(m[..n]);
      MagnitudeIsDigits(m[..n]);
      assert m == m[..n] + [m[n]];
      assert DigitsValue(m) == DigitsValue(m[..n]) * 10 + (m[n] - ZERO);
    }
  }

  // A number is written in its only form, or its form without the sign of a negative zero.
  lemma IntegersAreShortest(u: Text)
    requires IntegerText(u)
    ensures u == Number(IntegerValue(u)) || (u == ['-' as int, '0' as int] && Number(IntegerValue(u)) == ['0' as int])
  {
    var m := if u[0] == '-' as int then u[1..] else u;
    assert u[0] == '-' as int ==> !Digit(u[0]);
    MagnitudeIsDigits(m);
    if u[0] == '-' as int { assert u == ['-' as int] + m; }
    if m[0] == '0' as int { assert m == ['0' as int]; }
  }

  // ----- Documents -----

  lemma {:induction false} ValueIsShortest(t: Text, i: nat, j: nat, v: Raw, style: Style)
    requires i <= j <= |t| && ValueAt(t, i, j, v) && Allowed(t[i..j], style)
    ensures |Print(v, style)| <= j - i
    decreases j - i, 0
  {
    hide CharsAt, ItemsAt, MembersAt, Allowed, PrintItems, PrintMembers, Escaped, IntegerText, IntegerValue, Number, RealForm;
    if v.Str? || v.Arr? || v.Obj? {
      AllowedParts(t, i, i, j, style);
      AllowedParts(t, i + 1, j - 1, j, style);
    }
    match v
    case Int(n) => IntegersAreShortest(t[i..j]);
    case Str(s) => CharsAreShortest(t, i + 1, j - 1, s, style);
    case Arr(items) => ItemsAreShortest(t, i + 1, j - 1, items, style);
    case Obj(members) => MembersAreShortest(t, i + 1, j - 1, members, style);
    case _ =>
  }

  // Blanks around something allowed can be taken away.
  lemma InsideAllowed(t: Text, i: nat, a: nat, b: nat, j: nat, style: Style)
    requires i <= a <= b <= j <= |t| && BlankAt(t, i, a) && BlankAt(t, b, j) && Allowed(t[i..j], style)
    ensures Allowed(t[a..b], style)
  {
    hide Allowed;
    if i < a { AllowedParts(t, i, a - 1, j, style); }
    if b < j { AllowedParts(t, a, b, j, style); }
  }

  lemma {:induction false} PaddedIsShortest(t: Text, i: nat, j: nat, v: Raw, style: Style)
    requires i <= j <= |t| && PaddedAt(t, i, j, v) && Allowed(t[i..j], style)
    ensures |Print(v, style)| <= j - i
    decreases j - i, 1
  {
    hide ValueAt, BlankAt, Allowed, Print;
    var a: int, b: int :| i <= a <= b <= j && BlankAt(t, i, a) && ValueAt(t, a, b, v) && BlankAt(t, b, j);
    InsideAllowed(t, i, a, b, j, style);
    ValueIsShortest(t, a, b, v, style);
  }

  lemma {:induction false} ItemsAreShortest(t: Text, i: nat, j: nat, items: seq<Raw>, style: Style)
    requires i <= j <= |t| && Allowed(t[i..j], style) && (items != [] ==> ItemsAt(t, i, j, items))
    ensures |PrintItems(items, style)| <= j - i
    decreases j - i, 2
  {
    hide PaddedAt, Allowed, Print;
    if |items| == 1 {
      PaddedIsShortest(t, i, j, items[0], style);
    } else if |items| > 1 {
      var k: int :| i <= k < j && t[k] == ',' as int && PaddedAt(t, i, k, items[0]) && ItemsAt(t, k + 1, j, items[1..]);
      AllowedParts(t, i, k, j, style);
      PaddedIsShortest(t, i, k, items[0], style);
      ItemsAreShortest(t, k + 1, j, items[1..], style);
    }
  }

  lemma KeyIsShortest(t: Text, i: nat, j: nat, key: Text, style: Style)
    requires i <= j <= |t| && KeyAt(t, i, j, key) && Allowed(t[i..j], style)
    ensures |Quoted(key, style)| <= j - i
  {
    hide CharsAt, BlankAt, Allowed, Escaped;
    var a: int, b: int :| i <= a <= b <= j && BlankAt(t, i, a) && StringAt(t, a, b, key) && BlankAt(t, b, j);
    InsideAllowed(t, i, a, b, j, style);
    AllowedParts(t, a, a, b, style);
    AllowedParts(t, a + 1, b - 1, b, style);
    CharsAreShortest(t, a + 1, b - 1, key, style);
  }

  lemma {:induction false} MemberIsShortest(t: Text, i: nat, j: nat, m: Member, style: Style)
    requires i <= j <= |t| && MemberAt(t, i, j, m) && Allowed(t[i..j], style)
    ensures |PrintMember(m, style)| <= j - i
    decreases j - i, 2
  {
    hide PaddedAt, KeyAt, Allowed, Print, Quoted;
    var k: int :| i <= k < j && t[k] == ':' as int && KeyAt(t, i, k, m.key) && PaddedAt(t, k + 1, j, m.value);
    AllowedParts(t, i, k, j, style);
    KeyIsShortest(t, i, k, m.key, style);
    PaddedIsShortest(t, k + 1, j, m.value, style);
  }

  lemma {:induction false} MembersAreShortest(t: Text, i: nat, j: nat, members: seq<Member>, style: Style)
    requires i <= j <= |t| && Allowed(t[i..j], style) && (members != [] ==> MembersAt(t, i, j, members))
    ensures |PrintMembers(members, style)| <= j - i
    decreases j - i, 3
  {
    hide MemberAt, Allowed, PrintMember;
    if |members| == 1 {
      MemberIsShortest(t, i, j, members[0], style);
    } else if |members| > 1 {
      var k: int :| i <= k < j && t[k] == ',' as int && MemberAt(t, i, k, members[0]) && MembersAt(t, k + 1, j, members[1..]);
      AllowedParts(t, i, k, j, style);
      MemberIsShortest(t, i, k, members[0], style);
      MembersAreShortest(t, k + 1, j, members[1..], style);
    }
  }

  // ----- What is printed is allowed -----

  predicate Plain(t: Text) {
    forall k :: 0 <= k < |t| ==> Printable(t[k])
  }

  lemma TailPlain(t: Text, k: nat)
    requires k <= |t| && Plain(t[k..]) && Plain(t[..k])
    ensures Plain(t)
  {
    assert forall n :: k <= n < |t| ==> t[n] == t[k..][n - k];
  }

  lemma PartsArePlain(t: Text)
    ensures IntegerText(t) || FractionText(t) || ExponentText(t) ==> Plain(t)
  {
    if IntegerText(t) && !Magnitude(t) { TailPlain(t, 1); }
    if FractionText(t) { TailPlain(t, 1); }
    if ExponentText(t) {
      if DigitsText(t[1..]) { TailPlain(t, 1); } else { TailPlain(t, 2); }
    }
  }

  lemma RealIsPlain(l: RealText)
    ensures Plain(l)
  {
    RealExactly(l);
    hide IntegerText, FractionText, ExponentText, RealLexeme;
    if i, f :| 0 < i <= f <= |l| && RealParts(l, i, f) {
      hide Plain, RealForm;
      PartsArePlain(l[..i]);
      PartsArePlain(l[i..f]);
      PartsArePlain(l[f..]);
      assert l[..f][..i] == l[..i] && l[..f][i..] == l[i..f];
      EmptyIsPlain();
      TailPlain(l[..f], i);
      TailPlain(l, f);
    }
  }

  lemma EmptyIsPlain()
    ensures Plain([])
  {
  }

  lemma NumberIsPlain(n: int)
    ensures forall k :: 0 <= k < |Number(n)| ==> Printable(Number(n)[k])
  {
    DigitsReadBack(if n < 0 then -n else n);
  }

  lemma QuotedAllowed(s: Text, style: Style)
    ensures Allowed(Quoted(s, style), style)
  {
    EscapedAllowed(s, style);
    hide Escaped;
    PlainIsAllowed([QUOTE], style);
    AllowedSum([QUOTE], Escaped(s, style), style);
    AllowedSum([QUOTE] + Escaped(s, style), [QUOTE], style);
  }

  lemma BracketedAllowed(open: Unit, inner: Text, close: Unit, style: Style)
    requires Allowed(inner, style) && Printable(open) && Printable(close)
    ensures Allowed([open] + inner + [close], style)
  {
    PlainIsAllowed([open], style);
    PlainIsAllowed([close], style);
    AllowedSum([open], inner, style);
    AllowedSum([open] + inner, [close], style);
  }

  lemma JoinedAllowed(a: Text, c: Unit, b: Text, style: Style)
    requires Allowed(a, style) && Allowed(b, style) && Printable(c)
    ensures Allowed(a + [c] + b, style)
  {
    PlainIsAllowed([c], style);
    AllowedSum(a, [c], style);
    AllowedSum(a + [c], b, style);
  }

  lemma {:induction false} PrintedAllowed(v: Raw, style: Style)
    ensures Allowed(Print(v, style), style)
    decreases v, 1
  {
    match v
    case Int(n) =>
      NumberIsPlain(n);
      PlainIsAllowed(Number(n), style);
    case Real(lexeme) =>
      RealIsPlain(lexeme);
      PlainIsAllowed(lexeme, style);
    case Str(s) => QuotedAllowed(s, style);
    case Arr(items) =>
      ItemsAllowed(items, style);
      BracketedAllowed(OPEN_BRACKET, PrintItems(items, style), CLOSE_BRACKET, style);
    case Obj(members) =>
      MembersAllowed(members, style);
      BracketedAllowed(OPEN_BRACE, PrintMembers(members, style), CLOSE_BRACE, style);
    case _ => PlainIsAllowed(Print(v, style), style);
  }

  lemma {:induction false} ItemsAllowed(items: seq<Raw>, style: Style)
    ensures Allowed(PrintItems(items, style), style)
    decreases items, 0
  {
    hide Print, Allowed;
    if items == [] {
      PlainIsAllowed([], style);
    } else {
      PrintedAllowed(items[0], style);
      ItemsAllowed(items[1..], style);
      if |items| > 1 { JoinedAllowed(Print(items[0], style), COMMA, PrintItems(items[1..], style), style); }
    }
  }

  lemma MemberAllowed(m: Member, style: Style)
    ensures Allowed(PrintMember(m, style), style)
    decreases m, 0
  {
    QuotedAllowed(m.key, style);
    PrintedAllowed(m.value, style);
    hide Print, Allowed, Quoted;
    JoinedAllowed(Quoted(m.key, style), COLON, Print(m.value, style), style);
  }

  lemma {:induction false} MembersAllowed(members: seq<Member>, style: Style)
    ensures Allowed(PrintMembers(members, style), style)
    decreases members, 0
  {
    hide PrintMember, Allowed;
    if members == [] {
      PlainIsAllowed([], style);
    } else {
      MemberAllowed(members[0], style);
      MembersAllowed(members[1..], style);
      if |members| > 1 { JoinedAllowed(PrintMember(members[0], style), COMMA, PrintMembers(members[1..], style), style); }
    }
  }

  // Either serialiser prints a text of the document in its characters, and of all texts of the
  // document in those characters a shortest one.
  lemma PrintsShortest(v: Raw, style: Style, t: Text)
    ensures PaddedAt(Print(v, style), 0, |Print(v, style)|, v) && Allowed(Print(v, style), style)
    ensures PaddedAt(t, 0, |t|, v) && Allowed(t, style) ==> |Print(v, style)| <= |t|
  {
    hide PaddedAt, Allowed, Print, Parse;
    ParseAfterPrint(v, style);
    ParsesExactly(Print(v, style), v);
    PrintedAllowed(v, style);
    assert t[0..|t|] == t;
    if PaddedAt(t, 0, |t|, v) && Allowed(t, style) { PaddedIsShortest(t, 0, |t|, v, style); }
  }

  // ----- Code points -----

  predicate Scalar(p: int) {
    0 <= p <= 0x10FFFF && !(0xD800 <= p <= 0xDFFF)
  }

  // Section 2.1 of RFC 2781.
  function Utf16(p: int): Text
    requires Scalar(p)
  {
    if p < 0x10000 then [p] else [0xD800 + (p - 0x10000) / 0x400, 0xDC00 + (p - 0x10000) % 0x400]
  }

  function Utf16Text(points: seq<int>): Text
    requires forall k :: 0 <= k < |points| ==> Scalar(points[k])
  {
    if points == [] then [] else Utf16(points[0]) + Utf16Text(points[1..])
  }

  // The code points by which the host orders keys are those that UTF-16 encodes.
  lemma {:induction false} CodePointsAreDecoded(points: seq<int>)
    requires forall k :: 0 <= k < |points| ==> Scalar(points[k])
    ensures CodePoints(Utf16Text(points)) == points
  {
    if points != [] {
      CodePointsAreDecoded(points[1..]);
      var s, first, rest := Utf16Text(points), Utf16(points[0]), Utf16Text(points[1..]);
      assert s[|first|..] == rest;
      assert points == [points[0]] + points[1..];
    }
  }
}
