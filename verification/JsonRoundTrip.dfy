// What either serialiser prints, the parser reads back: hence no two documents print alike.
module JsonRoundTrip {
  import opened CanonicalJson
  import opened JsonNumbers
  import opened JsonParser
  import opened Wrappers

  // ----- Strings -----

  lemma HexDigitReads(d: nat)
    requires d < 16
    ensures HexValue(HexDigit(d)) == Some(d)
  {
  }

  // A unit is the number its four hexadecimal digits spell.
  lemma Nibbles(c: Unit)
    ensures ((c / 4096 * 16 + c / 256 % 16) * 16 + c / 16 % 16) * 16 + c % 16 == c
    ensures c / 4096 < 16
  {
    assert c / 256 / 16 == c / 4096 && c / 16 / 16 == c / 256;
    assert c / 256 == c / 256 / 16 * 16 + c / 256 % 16;
    assert c / 16 == c / 16 / 16 * 16 + c / 16 % 16;
    assert c == c / 16 * 16 + c % 16;
  }

  lemma Hex4Reads(c: Unit, x: Text)
    ensures ParseUnit(Hex4(c) + x) == Read(c, x)
  {
    Nibbles(c);
    HexDigitReads(c / 4096);
    HexDigitReads(c / 256 % 16);
    HexDigitReads(c / 16 % 16);
    HexDigitReads(c % 16);
    hide HexDigit, HexValue;
    var t := Hex4(c) + x;
    assert t[1..][1..] == t[2..];
    assert t[2..][4..] == x;
  }

  lemma ShortEscapeReads(c: Unit, x: Text)
    requires HasShortEscape(c)
    ensures ParseUnit(ShortEscape(c) + x) == Read(c, x)
  {
    var t := ShortEscape(c) + x;
    assert t[1..][1..] == x;
  }

  lemma UnitReads(c: Unit, style: Style, x: Text)
    ensures UnitText(c, style) != [] && UnitText(c, style)[0] != QUOTE
    ensures ParseUnit(UnitText(c, style) + x) == Read(c, x)
  {
    if HasShortEscape(c) {
      ShortEscapeReads(c, x);
    } else if UnitText(c, style) == Hex4(c) {
      Hex4Reads(c, x);
    } else {
      assert UnitText(c, style) == [c] && ([c] + x)[1..] == x;
    }
  }

  // One unit more in front of a string.
  lemma StringStep(u: Text, c: Unit, x: Text)
    requires u != [] && u[0] != QUOTE && ParseUnit(u + x) == Read(c, x)
    ensures ParseString(x).Read? ==>
              ParseString(u + x) == Read([c] + ParseString(x).value, ParseString(x).rest)
  {
    hide ParseUnit;
  }

  lemma Regroup(a: Text, b: Text, c: Text)
    ensures a + b + c == a + (b + c)
  {
  }

  // Both halves of a character are printed as they are.
  lemma PairStep(s: Text, style: Style, x: Text)
    requires PairFirst(s)
    requires ParseString(x).Read? && ParseString(x).value == s[2..]
    ensures ParseString(s[..2] + x) == Read(s, ParseString(x).rest)
  {
    assert [s[1]] + x == ([s[1]] + x) && ([s[1]] + x)[1..] == x;
    StringStep([s[1]], s[1], x);
    var y := [s[1]] + x;
    assert ([s[0]] + y)[1..] == y;
    hide ParseString;
    StringStep([s[0]], s[0], y);
    assert s[..2] + x == [s[0]] + y;
    assert s == [s[0]] + ([s[1]] + s[2..]);
  }

  lemma {:induction false} StringReads(s: Text, style: Style, x: Text)
    ensures ParseString(Escaped(s, style) + ([QUOTE] + x)) == Read(s, x)
  {
    var tail := [QUOTE] + x;
    if s == [] {
      assert Escaped(s, style) + tail == tail && tail[1..] == x;
    } else if style == Worker && PairFirst(s) {
      var y := Escaped(s[2..], style) + tail;
      StringReads(s[2..], style, x);
      Regroup(s[..2], Escaped(s[2..], style), tail);
      hide ParseString;
      PairStep(s, style, y);
    } else {
      var u, y := UnitText(s[0], style), Escaped(s[1..], style) + tail;
      StringReads(s[1..], style, x);
      Regroup(u, Escaped(s[1..], style), tail);
      hide ParseString, ParseUnit, UnitText;
      UnitReads(s[0], style, y);
      StringStep(u, s[0], y);
      assert [s[0]] + s[1..] == s;
    }
  }

  lemma QuotedReads(s: Text, style: Style, x: Text)
    ensures var t := Quoted(s, style) + x; t[0] == QUOTE && ParseString(t[1..]) == Read(s, x)
  {
    StringReads(s, style, x);
    hide Escaped, ParseString;
    Regroup([QUOTE] + Escaped(s, style), [QUOTE], x);
    Regroup([QUOTE], Escaped(s, style), [QUOTE] + x);
    var t := [QUOTE] + (Escaped(s, style) + ([QUOTE] + x));
    assert t[1..] == Escaped(s, style) + ([QUOTE] + x);
  }

  // ----- Numbers and constants -----

  // What may follow a value inside a document, or its end.
  predicate Delimited(x: Text) {
    x == [] || x[0] == COMMA || x[0] == CLOSE_BRACKET || x[0] == CLOSE_BRACE
  }

  // A text that begins with a number is none of the other values.
  lemma NumberFirst(t: Text)
    requires IntegerLength(t) > 0
    ensures ParseValue(t) == ParseNumber(t)
  {
    hide ParseNumber, ParseString, ParseItems, ParseMembers, ParseConstant;
  }

  lemma IntReads(n: int, x: Text)
    requires Delimited(x)
    ensures ParseValue(Number(n) + x) == Read(Int(n), x)
  {
    IntegerReadsBack(n, x);
    hide Number, IntegerLength, NumberLength, IntegerValue, ParseValue;
    var t := Number(n) + x;
    assert |Number(n)| > 0 by { NumberIsNotEmpty(n); }
    assert t[..|Number(n)|] == Number(n) && t[|Number(n)|..] == x;
    NumberFirst(t);
  }

  lemma NumberIsNotEmpty(n: int)
    ensures Number(n) != []
  {
    if n >= 0 { DigitsReadBack(n); }
  }

  lemma RealReads(l: RealText, x: Text)
    requires Delimited(x)
    ensures ParseValue(l + x) == Read(Real(l), x)
  {
    if l == NAN || l == INFINITY || l == MINUS_INFINITY {
      ConstantReads(l, x);
    } else {
      IntegerLengthOfAppend(l, x);
      NumberLengthOfAppend(l, x);
      hide IntegerLength, NumberLength, ParseValue;
      var t := l + x;
      assert t[..|l|] == l && t[|l|..] == x;
      NumberFirst(t);
    }
  }

  lemma ConstantReads(l: RealText, x: Text)
    requires l == NAN || l == INFINITY || l == MINUS_INFINITY
    ensures ParseValue(l + x) == Read(Real(l), x)
  {
    var t := l + x;
    assert t[..|l|] == l && t[|l|..] == x && t[0] == l[0];
    assert IntegerLength(t) == 0;
    assert t[..3][0] == t[0];
    assert |t| >= 4 ==> t[..4][0] == t[0];
    hide ParseString, ParseItems, ParseMembers, ParseNumber, IntegerLength;
    assert ParseValue(t) == ParseConstant(t);
    assert |t| >= 5 ==> t[..5][0] == t[0];
    assert |t| >= 8 ==> t[..8][0] == t[0];
  }

  lemma WordReads(v: Raw, style: Style, x: Text)
    requires v.Null? || v.Bool?
    ensures ParseValue(Print(v, style) + x) == Read(v, x)
  {
    var w := Print(v, style);
    var t := w + x;
    assert t[..|w|] == w && t[|w|..] == x && t[0] == w[0];
    assert t[..4][0] == t[0];
    assert |t| >= 5 ==> t[..5][0] == t[0];
    assert IntegerLength(t) == 0;
    hide ParseString, ParseItems, ParseMembers, ParseNumber, IntegerLength;
  }

  // ----- Documents -----

  // No value begins with white space or a closing bracket.
  lemma ValueFirst(t: Text)
    requires ParseValue(t).Read?
    ensures t != [] && !IsSpace(t[0]) && t[0] != CLOSE_BRACKET
  {
    if t != [] && (IsSpace(t[0]) || t[0] == CLOSE_BRACKET) {
      assert IntegerLength(t) == 0;
      ConstantFirst(t);
      hide ParseString, ParseItems, ParseMembers, ParseNumber, ParseConstant, IntegerLength;
    }
  }

  lemma ConstantFirst(t: Text)
    requires t != [] && (IsSpace(t[0]) || t[0] == CLOSE_BRACKET)
    ensures ParseConstant(t).Failed?
  {
    assert |t| >= 3 ==> t[..3][0] == t[0];
    assert |t| >= 4 ==> t[..4][0] == t[0];
    assert |t| >= 5 ==> t[..5][0] == t[0];
    assert |t| >= 8 ==> t[..8][0] == t[0];
    assert |t| >= 9 ==> t[..9][0] == t[0];
  }

  lemma NoSpace(t: Text)
    requires t == [] || !IsSpace(t[0])
    ensures SkipSpace(t) == t
  {
  }

  // What follows the opening bracket or brace.
  function ItemsRest(items: seq<Raw>, style: Style, x: Text): Text {
    PrintItems(items, style) + ([CLOSE_BRACKET] + x)
  }

  function MembersRest(members: seq<Member>, style: Style, x: Text): Text {
    PrintMembers(members, style) + ([CLOSE_BRACE] + x)
  }

  lemma ContainerForm(v: Raw, style: Style, x: Text)
    ensures v.Arr? ==> Print(v, style) + x == [OPEN_BRACKET] + ItemsRest(v.items, style, x)
    ensures v.Obj? ==> Print(v, style) + x == [OPEN_BRACE] + MembersRest(v.members, style, x)
  {
    match v
    case Arr(items) =>
      Regroup([OPEN_BRACKET] + PrintItems(items, style), [CLOSE_BRACKET], x);
      Regroup([OPEN_BRACKET], PrintItems(items, style), [CLOSE_BRACKET] + x);
    case Obj(members) =>
      Regroup([OPEN_BRACE] + PrintMembers(members, style), [CLOSE_BRACE], x);
      Regroup([OPEN_BRACE], PrintMembers(members, style), [CLOSE_BRACE] + x);
    case _ =>
  }

  // After an element comes the end of its container, or a comma and the rest.
  function AfterItem(items: seq<Raw>, style: Style, x: Text): Text
    requires items != []
  {
    if |items| == 1 then [CLOSE_BRACKET] + x else [COMMA] + ItemsRest(items[1..], style, x)
  }

  function AfterMember(members: seq<Member>, style: Style, x: Text): Text
    requires members != []
  {
    if |members| == 1 then [CLOSE_BRACE] + x else [COMMA] + MembersRest(members[1..], style, x)
  }

  lemma ItemsStep(items: seq<Raw>, style: Style, x: Text)
    requires items != []
    ensures ItemsRest(items, style, x) == Print(items[0], style) + AfterItem(items, style, x)
    ensures Delimited(AfterItem(items, style, x))
  {
    hide Print;
    if |items| > 1 {
      Regroup(Print(items[0], style) + [COMMA], PrintItems(items[1..], style), [CLOSE_BRACKET] + x);
      Regroup(Print(items[0], style), [COMMA], ItemsRest(items[1..], style, x));
    }
  }

  lemma MembersStep(members: seq<Member>, style: Style, x: Text)
    requires members != []
    ensures MembersRest(members, style, x) == PrintMember(members[0], style) + AfterMember(members, style, x)
    ensures Delimited(AfterMember(members, style, x))
  {
    hide PrintMember;
    if |members| > 1 {
      Regroup(PrintMember(members[0], style) + [COMMA], PrintMembers(members[1..], style), [CLOSE_BRACE] + x);
      Regroup(PrintMember(members[0], style), [COMMA], MembersRest(members[1..], style, x));
    }
  }

  // Parsing any printed value stops exactly where the value ends.
  lemma {:induction false} PrintReads(v: Raw, style: Style, x: Text)
    requires Delimited(x)
    ensures ParseValue(Print(v, style) + x) == Read(v, x)
    decreases v, 2
  {
    match v
    case Int(n) => IntReads(n, x);
    case Real(lexeme) => RealReads(lexeme, x);
    case Str(s) => StrReads(s, style, x);
    case Arr(items) => ArrReads(items, style, x);
    case Obj(members) => ObjReads(members, style, x);
    case _ => WordReads(v, style, x);
  }

  lemma StrReads(s: Text, style: Style, x: Text)
    ensures ParseValue(Print(Str(s), style) + x) == Read(Str(s), x)
  {
    QuotedReads(s, style, x);
    assert Quoted(s, style) != [];
    hide Quoted, ParseString;
  }

  lemma {:induction false} ArrReads(items: seq<Raw>, style: Style, x: Text)
    ensures ParseValue(Print(Arr(items), style) + x) == Read(Arr(items), x)
    decreases items, 1
  {
    ContainerForm(Arr(items), style, x);
    var t, inner := Print(Arr(items), style) + x, ItemsRest(items, style, x);
    assert t[0] == OPEN_BRACKET && t[1..] == inner;
    assert SkipSpace(inner) == inner && ParseItems(inner) == Read(items, x) by {
      if items == [] {
        EmptyItems(style, x);
      } else {
        ItemsRead(items, style, x);
        hide ItemsRest, ParseMoreItems;
        NoSpace(inner);
      }
    }
    hide Print, ItemsRest, ParseItems;
  }

  lemma EmptyItems(style: Style, x: Text)
    ensures var inner := ItemsRest([], style, x); SkipSpace(inner) == inner && ParseItems(inner) == Read([], x)
  {
    var inner := ItemsRest([], style, x);
    assert inner == [CLOSE_BRACKET] + x && inner[1..] == x;
    NoSpace(inner);
  }

  lemma LastItem(t: Text, v: Raw, x: Text)
    requires ParseValue(t) == Read(v, [CLOSE_BRACKET] + x)
    ensures ParseMoreItems(t) == Read([v], x)
  {
    hide ParseValue;
    NoSpace([CLOSE_BRACKET] + x);
    assert ([CLOSE_BRACKET] + x)[1..] == x;
  }

  lemma NextItem(t: Text, v: Raw, rest: Text, others: seq<Raw>, x: Text)
    requires ParseValue(t) == Read(v, [COMMA] + rest) && ParseMoreItems(rest) == Read(others, x)
    requires rest == [] || !IsSpace(rest[0])
    ensures ParseMoreItems(t) == Read([v] + others, x)
  {
    hide ParseValue;
    NoSpace([COMMA] + rest);
    NoSpace(rest);
    assert ([COMMA] + rest)[1..] == rest;
  }

  lemma {:induction false} ItemsRead(items: seq<Raw>, style: Style, x: Text)
    requires items != []
    ensures ParseMoreItems(ItemsRest(items, style, x)) == Read(items, x)
    ensures var t := ItemsRest(items, style, x); t != [] && !IsSpace(t[0]) && t[0] != CLOSE_BRACKET
    decreases items, 0
  {
    hide Print, ItemsRest, ParseValue, ParseMoreItems;
    var t := ItemsRest(items, style, x);
    ItemsStep(items, style, x);
    PrintReads(items[0], style, AfterItem(items, style, x));
    ValueFirst(t);
    if |items| == 1 {
      LastItem(t, items[0], x);
      assert items == [items[0]];
    } else {
      ItemsRead(items[1..], style, x);
      NextItem(t, items[0], ItemsRest(items[1..], style, x), items[1..], x);
      assert items == [items[0]] + items[1..];
    }
  }

  lemma {:induction false} ObjReads(members: seq<Member>, style: Style, x: Text)
    ensures ParseValue(Print(Obj(members), style) + x) == Read(Obj(members), x)
    decreases members, 1
  {
    ContainerForm(Obj(members), style, x);
    var t, inner := Print(Obj(members), style) + x, MembersRest(members, style, x);
    assert t[0] == OPEN_BRACE && t[1..] == inner;
    assert SkipSpace(inner) == inner && ParseMembers(inner) == Read(members, x) by {
      if members == [] {
        EmptyMembers(style, x);
      } else {
        MembersRead(members, style, x);
        hide MembersRest, ParseMoreMembers;
        NoSpace(inner);
      }
    }
    hide Print, MembersRest, ParseMembers;
  }

  lemma EmptyMembers(style: Style, x: Text)
    ensures var inner := MembersRest([], style, x); SkipSpace(inner) == inner && ParseMembers(inner) == Read([], x)
  {
    var inner := MembersRest([], style, x);
    assert inner == [CLOSE_BRACE] + x && inner[1..] == x;
    NoSpace(inner);
  }

  lemma LastMember(t: Text, m: Member, x: Text)
    requires ParseMember(t) == Read(m, [CLOSE_BRACE] + x)
    ensures ParseMoreMembers(t) == Read([m], x)
  {
    hide ParseMember;
    NoSpace([CLOSE_BRACE] + x);
    assert ([CLOSE_BRACE] + x)[1..] == x;
  }

  lemma NextMember(t: Text, m: Member, rest: Text, others: seq<Member>, x: Text)
    requires ParseMember(t) == Read(m, [COMMA] + rest) && ParseMoreMembers(rest) == Read(others, x)
    requires rest == [] || !IsSpace(rest[0])
    ensures ParseMoreMembers(t) == Read([m] + others, x)
  {
    hide ParseMember;
    NoSpace([COMMA] + rest);
    NoSpace(rest);
    assert ([COMMA] + rest)[1..] == rest;
  }

  lemma {:induction false} MembersRead(members: seq<Member>, style: Style, x: Text)
    requires members != []
    ensures ParseMoreMembers(MembersRest(members, style, x)) == Read(members, x)
    ensures var t := MembersRest(members, style, x); t != [] && t[0] == QUOTE
    decreases members, 0
  {
    hide PrintMember, MembersRest, ParseMember, ParseMoreMembers;
    var t := MembersRest(members, style, x);
    MembersStep(members, style, x);
    MemberReads(members[0], style, AfterMember(members, style, x));
    if |members| == 1 {
      LastMember(t, members[0], x);
      assert members == [members[0]];
    } else {
      MembersRead(members[1..], style, x);
      NextMember(t, members[0], MembersRest(members[1..], style, x), members[1..], x);
      assert members == [members[0]] + members[1..];
    }
  }

  lemma MemberForm(m: Member, style: Style, x: Text)
    ensures PrintMember(m, style) + x == Quoted(m.key, style) + ([COLON] + (Print(m.value, style) + x))
  {
    hide Quoted, Print;
    Regroup(Quoted(m.key, style) + [COLON], Print(m.value, style), x);
    Regroup(Quoted(m.key, style), [COLON], Print(m.value, style) + x);
  }

  lemma {:induction false} MemberReads(m: Member, style: Style, x: Text)
    requires Delimited(x)
    ensures var t := PrintMember(m, style) + x; t[0] == QUOTE && ParseMember(t) == Read(m, x)
    decreases m, 0
  {
    var value := Print(m.value, style) + x;
    var after := [COLON] + value;
    MemberForm(m, style, x);
    QuotedReads(m.key, style, after);
    PrintReads(m.value, style, x);
    ValueFirst(value);
    NoSpace(after);
    NoSpace(value);
    assert after[1..] == value;
    hide Quoted, Print, PrintMember, ParseString, ParseValue;
  }

  // Either serialiser's text parses back to the document it was printed from.
  lemma ParseAfterPrint(v: Raw, style: Style)
    ensures Parse(Print(v, style)) == Some(v)
  {
    var t := Print(v, style);
    PrintReads(v, style, []);
    assert t + [] == t;
    ValueFirst(t);
    NoSpace(t);
    NoSpace([]);
  }

  // No two documents print alike.
  lemma PrintIsInjective(a: Raw, b: Raw, style: Style)
    requires Print(a, style) == Print(b, style)
    ensures a == b
  {
    ParseAfterPrint(a, style);
    ParseAfterPrint(b, style);
  }
}
