// json.loads on a text: sections 2 to 7 of RFC 8259, and the three constants Python adds to them.
module JsonParser {
  import opened CanonicalJson
  import opened JsonNumbers
  import opened Wrappers

  datatype Parsed<T> = Failed | Read(value: T, rest: Text)

  predicate IsSpace(c: Unit) {
    c in {9, 10, 13, 32}
  }

  function SkipSpace(t: Text): (r: Text)
    ensures |r| <= |t|
    ensures r == [] || !IsSpace(r[0])
  {
    if t != [] && IsSpace(t[0]) then SkipSpace(t[1..]) else t
  }

  // ----- Strings -----

  function HexValue(c: Unit): (r: Option<nat>)
    ensures r.Some? ==> r.value < 16
  {
    if IsDigit(c) then Some(c - ZERO)
    else if 97 <= c <= 102 then Some(c - 87)
    else if 65 <= c <= 70 then Some(c - 55)
    else None
  }

  function ParseHex4(t: Text): Parsed<Unit> {
    if |t| < 4 then Failed else
    var a, b, c, d := HexValue(t[0]), HexValue(t[1]), HexValue(t[2]), HexValue(t[3]);
    if a == None || b == None || c == None || d == None then Failed
    else Read(((a.value * 16 + b.value) * 16 + c.value) * 16 + d.value, t[4..])
  }

  // After the backslash.
  function ParseEscape(t: Text): (r: Parsed<Unit>)
    ensures r.Read? ==> |r.rest| < |t|
  {
    if t == [] then Failed
    else if t[0] == LOWER_U then ParseHex4(t[1..])
    else if t[0] in {QUOTE, BACKSLASH, 47} then Read(t[0], t[1..])
    else if t[0] == 98 then Read(8, t[1..])
    else if t[0] == 102 then Read(12, t[1..])
    else if t[0] == 110 then Read(10, t[1..])
    else if t[0] == 114 then Read(13, t[1..])
    else if t[0] == 116 then Read(9, t[1..])
    else Failed
  }

  function ParseUnit(t: Text): (r: Parsed<Unit>)
    requires t != []
    ensures r.Read? ==> |r.rest| < |t|
  {
    if t[0] == BACKSLASH then ParseEscape(t[1..]) else if t[0] < 32 then Failed else Read(t[0], t[1..])
  }

  // After the opening quote, up to and including the closing one.
  function ParseString(t: Text): (r: Parsed<Text>)
    ensures r.Read? ==> |r.rest| < |t|
  {
    if t == [] then Failed
    else if t[0] == QUOTE then Read([], t[1..])
    else
      var first := ParseUnit(t);
      if first.Failed? then Failed else
      var others := ParseString(first.rest);
      if others.Failed? then Failed else Read([first.value] + others.value, others.rest)
  }

  // ----- Numbers and constants -----

  function ParseConstant(t: Text): (r: Parsed<Raw>)
    ensures r.Read? ==> |r.rest| < |t|
  {
    if StartsWith(t, NULL_TEXT) then Read(Null, t[|NULL_TEXT|..])
    else if StartsWith(t, TRUE_TEXT) then Read(Bool(true), t[|TRUE_TEXT|..])
    else if StartsWith(t, FALSE_TEXT) then Read(Bool(false), t[|FALSE_TEXT|..])
    else if StartsWith(t, NAN) then Read(Real(NAN), t[|NAN|..])
    else if StartsWith(t, INFINITY) then Read(Real(INFINITY), t[|INFINITY|..])
    else if StartsWith(t, MINUS_INFINITY) then Read(Real(MINUS_INFINITY), t[|MINUS_INFINITY|..])
    else Failed
  }

  function ParseNumber(t: Text): (r: Parsed<Raw>)
    requires IntegerLength(t) > 0
    ensures r.Read? ==> |r.rest| < |t|
  {
    NumberLengthOfPrefix(t);
    var i, n := IntegerLength(t), NumberLength(t);
    if n == i then Read(Int(IntegerValue(t[..i])), t[i..]) else Read(Real(t[..n]), t[n..])
  }

  // ----- Values -----

  function ParseValue(t: Text): (r: Parsed<Raw>)
    ensures r.Read? ==> |r.rest| < |t|
    decreases |t|, 0
  {
    if t == [] then Failed
    else if t[0] == QUOTE then
      var s := ParseString(t[1..]);
      if s.Failed? then Failed else Read(Str(s.value), s.rest)
    else if t[0] == OPEN_BRACKET then
      var items := ParseItems(SkipSpace(t[1..]));
      if items.Failed? then Failed else Read(Arr(items.value), items.rest)
    else if t[0] == OPEN_BRACE then
      var members := ParseMembers(SkipSpace(t[1..]));
      if members.Failed? then Failed else Read(Obj(members.value), members.rest)
    else if IntegerLength(t) > 0 then ParseNumber(t)
    else ParseConstant(t)
  }

  // After the opening bracket, up to and including the closing one.
  function ParseItems(t: Text): (r: Parsed<seq<Raw>>)
    ensures r.Read? ==> |r.rest| < |t|
    decreases |t|, 2
  {
    if t != [] && t[0] == CLOSE_BRACKET then Read([], t[1..]) else ParseMoreItems(t)
  }

  function ParseMoreItems(t: Text): (r: Parsed<seq<Raw>>)
    ensures r.Read? ==> |r.rest| < |t|
    decreases |t|, 1
  {
    var first := ParseValue(t);
    if first.Failed? then Failed else
    var after := SkipSpace(first.rest);
    if after == [] then Failed
    else if after[0] == CLOSE_BRACKET then Read([first.value], after[1..])
    else if after[0] != COMMA then Failed
    else
      var others := ParseMoreItems(SkipSpace(after[1..]));
      if others.Failed? then Failed else Read([first.value] + others.value, others.rest)
  }

  function ParseMember(t: Text): (r: Parsed<Member>)
    ensures r.Read? ==> |r.rest| < |t|
    decreases |t|, 1
  {
    if t == [] || t[0] != QUOTE then Failed else
    var key := ParseString(t[1..]);
    if key.Failed? then Failed else
    var after := SkipSpace(key.rest);
    if after == [] || after[0] != COLON then Failed else
    var value := ParseValue(SkipSpace(after[1..]));
    if value.Failed? then Failed else Read(Member(key.value, value.value), value.rest)
  }

  function ParseMembers(t: Text): (r: Parsed<seq<Member>>)
    ensures r.Read? ==> |r.rest| < |t|
    decreases |t|, 3
  {
    if t != [] && t[0] == CLOSE_BRACE then Read([], t[1..]) else ParseMoreMembers(t)
  }

  function ParseMoreMembers(t: Text): (r: Parsed<seq<Member>>)
    ensures r.Read? ==> |r.rest| < |t|
    decreases |t|, 2
  {
    var first := ParseMember(t);
    if first.Failed? then Failed else
    var after := SkipSpace(first.rest);
    if after == [] then Failed
    else if after[0] == CLOSE_BRACE then Read([first.value], after[1..])
    else if after[0] != COMMA then Failed
    else
      var others := ParseMoreMembers(SkipSpace(after[1..]));
      if others.Failed? then Failed else Read([first.value] + others.value, others.rest)
  }

  // A whole text holds one value and white space.
  function Parse(t: Text): Option<Raw> {
    var v := ParseValue(SkipSpace(t));
    if v.Read? && SkipSpace(v.rest) == [] then Some(v.value) else None
  }
}
