// The two canonical serialisers: the host's sorted, compact, ASCII-only dump and the Worker's
// recursive printer; and what json.loads makes of a document it has parsed.
module CanonicalJson {
  import opened JsonNumbers

  // A document in the order its members are written, duplicates included.
  datatype Raw =
    | Null
    | Bool(b: bool)
    | Int(n: int)
    | Real(lexeme: RealText)
    | Str(s: Text)
    | Arr(items: seq<Raw>)
    | Obj(members: seq<Member>)

  datatype Member = Member(key: Text, value: Raw)

  const QUOTE: Unit := 34
  const COMMA: Unit := 44
  const COLON: Unit := 58
  const OPEN_BRACKET: Unit := 91
  const BACKSLASH: Unit := 92
  const CLOSE_BRACKET: Unit := 93
  const LOWER_U: Unit := 117
  const OPEN_BRACE: Unit := 123
  const CLOSE_BRACE: Unit := 125

  const NULL_TEXT: Text := [110, 117, 108, 108]
  const TRUE_TEXT: Text := [116, 114, 117, 101]
  const FALSE_TEXT: Text := [102, 97, 108, 115, 101]

  // ----- Strings -----

  predicate IsHigh(c: Unit) {
    0xD800 <= c < 0xDC00
  }

  predicate IsLow(c: Unit) {
    0xDC00 <= c < 0xE000
  }

  // The text begins with the two halves of one character.
  predicate PairFirst(s: Text) {
    |s| > 1 && IsHigh(s[0]) && IsLow(s[1])
  }

  function HexDigit(d: nat): Unit
    requires d < 16
  {
    if d < 10 then 48 + d else 87 + d
  }

  function Hex4(c: Unit): Text {
    [BACKSLASH, LOWER_U, HexDigit(c / 4096), HexDigit(c / 256 % 16), HexDigit(c / 16 % 16), HexDigit(c % 16)]
  }

  predicate HasShortEscape(c: Unit) {
    c in {8, 9, 10, 12, 13, QUOTE, BACKSLASH}
  }

  function ShortEscape(c: Unit): Text
    requires HasShortEscape(c)
  {
    [BACKSLASH, if c == 8 then 98 else if c == 9 then 116 else if c == 10 then 110 else if c == 12 then 102
                else if c == 13 then 114 else c]
  }

  // json.dumps with ensure_ascii: everything outside the printable ASCII range is escaped.
  function HostUnit(c: Unit): Text {
    if HasShortEscape(c) then ShortEscape(c) else if 32 <= c <= 126 then [c] else Hex4(c)
  }

  // JSON.stringify: control characters and unpaired surrogates are escaped.
  function WorkerUnit(c: Unit): Text {
    if HasShortEscape(c) then ShortEscape(c) else if c < 32 || IsHigh(c) || IsLow(c) then Hex4(c) else [c]
  }

  datatype Style = Host | Worker

  function UnitText(c: Unit, style: Style): Text {
    if style == Host then HostUnit(c) else WorkerUnit(c)
  }

  function Escaped(s: Text, style: Style): Text {
    if s == [] then []
    else if style == Worker && PairFirst(s) then s[..2] + Escaped(s[2..], style)
    else UnitText(s[0], style) + Escaped(s[1..], style)
  }

  function Quoted(s: Text, style: Style): Text {
    [QUOTE] + Escaped(s, style) + [QUOTE]
  }

  // ----- Documents, members in the order given -----

  function Print(v: Raw, style: Style): Text
    decreases v, 1
  {
    match v
    case Null => NULL_TEXT
    case Bool(b) => if b then TRUE_TEXT else FALSE_TEXT
    case Int(n) => Number(n)
    case Real(lexeme) => lexeme
    case Str(s) => Quoted(s, style)
    case Arr(items) => [OPEN_BRACKET] + PrintItems(items, style) + [CLOSE_BRACKET]
    case Obj(members) => [OPEN_BRACE] + PrintMembers(members, style) + [CLOSE_BRACE]
  }

  function PrintItems(items: seq<Raw>, style: Style): Text
    decreases items, 0
  {
    if items == [] then []
    else if |items| == 1 then Print(items[0], style)
    else Print(items[0], style) + [COMMA] + PrintItems(items[1..], style)
  }

  function PrintMember(m: Member, style: Style): Text
    decreases m, 0
  {
    Quoted(m.key, style) + [COLON] + Print(m.value, style)
  }

  function PrintMembers(members: seq<Member>, style: Style): Text
    decreases members, 0
  {
    if members == [] then []
    else if |members| == 1 then PrintMember(members[0], style)
    else PrintMember(members[0], style) + [COMMA] + PrintMembers(members[1..], style)
  }

  // ----- Sorting keys -----

  // The first difference decides, and a proper beginning comes first.
  predicate Less(a: seq<int>, b: seq<int>) {
    if b == [] then false
    else if a == [] then true
    else if a[0] != b[0] then a[0] < b[0]
    else Less(a[1..], b[1..])
  }

  function PairPoint(high: int, low: int): int {
    0x10000 + (high - 0xD800) * 0x400 + (low - 0xDC00)
  }

  function CodePoints(s: Text): seq<int> {
    if s == [] then []
    else if PairFirst(s) then [PairPoint(s[0], s[1])] + CodePoints(s[2..])
    else [s[0]] + CodePoints(s[1..])
  }

  // Python orders strings by code points, JavaScript by units.
  predicate KeyLess(a: Text, b: Text, style: Style) {
    if style == Host then Less(CodePoints(a), CodePoints(b)) else Less(a, b)
  }

  function Insert(m: Member, sorted: seq<Member>, style: Style): seq<Member> {
    if sorted == [] then [m]
    else if KeyLess(sorted[0].key, m.key, style) then [sorted[0]] + Insert(m, sorted[1..], style)
    else [m] + sorted
  }

  function Sort(members: seq<Member>, style: Style): seq<Member> {
    if members == [] then [] else Insert(members[0], Sort(members[1..], style), style)
  }

  // The document with the members of every object in key order.
  function Normal(v: Raw, style: Style): Raw
    decreases v, 1
  {
    match v
    case Arr(items) => Arr(NormalItems(items, style))
    case Obj(members) => Obj(Sort(NormalMembers(members, style), style))
    case _ => v
  }

  function NormalItems(items: seq<Raw>, style: Style): (r: seq<Raw>)
    ensures |r| == |items|
    decreases items, 0
  {
    if items == [] then [] else [Normal(items[0], style)] + NormalItems(items[1..], style)
  }

  function NormalMembers(members: seq<Member>, style: Style): (r: seq<Member>)
    ensures |r| == |members|
    decreases members, 0
  {
    if members == [] then []
    else [Member(members[0].key, Normal(members[0].value, style))] + NormalMembers(members[1..], style)
  }

  function HostCanonical(v: Raw): Text {
    Print(Normal(v, Host), Host)
  }

  function WorkerCanonical(v: Raw): Text {
    Print(Normal(v, Worker), Worker)
  }

  // ----- Loading -----

  // A later member replaces the value of an earlier one with the same key.
  function PutMember(members: seq<Member>, m: Member): seq<Member> {
    if members == [] then [m]
    else if members[0].key == m.key then [m] + members[1..]
    else [members[0]] + PutMember(members[1..], m)
  }

  // What a parsed document becomes in memory; a float is known by its shortest text.
  function Loaded(v: Raw, shortest: RealText -> RealText): Raw
    decreases v, 1
  {
    match v
    case Real(lexeme) => Real(shortest(lexeme))
    case Arr(items) => Arr(LoadedItems(items, shortest))
    case Obj(members) => Obj(LoadedMembers(members, shortest))
    case _ => v
  }

  function LoadedItems(items: seq<Raw>, shortest: RealText -> RealText): seq<Raw>
    decreases items, 0
  {
    if items == [] then [] else [Loaded(items[0], shortest)] + LoadedItems(items[1..], shortest)
  }

  function LoadedMembers(members: seq<Member>, shortest: RealText -> RealText): seq<Member>
    decreases members, 0
  {
    if members == [] then [] else
    var last := members[|members| - 1];
    PutMember(LoadedMembers(members[..|members| - 1], shortest), Member(last.key, Loaded(last.value, shortest)))
  }
}
