// Host and Worker digest the same document to the same value only when their texts agree: exactly
// when every unit of every string prints alike on both sides.
module CanonicalAgreement {
  import opened CanonicalJson
  import opened CanonicalLaws
  import opened JsonNumbers

  // Units both sides print alike: ASCII without the delete character, and unpaired surrogates.
  predicate PlainText(s: Text) {
    s == [] || (!PairFirst(s) && (s[0] <= 126 || IsHigh(s[0]) || IsLow(s[0])) && PlainText(s[1..]))
  }

  predicate Plain(v: Raw)
    decreases v, 1
  {
    match v
    case Str(s) => PlainText(s)
    case Arr(items) => PlainItems(items)
    case Obj(members) => PlainMembers(members)
    case _ => true
  }

  predicate PlainItems(items: seq<Raw>)
    decreases items, 0
  {
    items == [] || (Plain(items[0]) && PlainItems(items[1..]))
  }

  predicate PlainMembers(members: seq<Member>)
    decreases members, 0
  {
    members == [] || (PlainText(members[0].key) && Plain(members[0].value) && PlainMembers(members[1..]))
  }

  const MAX_SAFE: int := 0x1F_FFFF_FFFF_FFFF

  // The numbers for which JavaScript prints the decimal digits Python prints.
  predicate SafeNumbers(v: Raw)
    decreases v, 1
  {
    match v
    case Int(n) => -MAX_SAFE <= n <= MAX_SAFE
    case Real(_) => false
    case Arr(items) => forall i :: 0 <= i < |items| ==> SafeNumbers(items[i])
    case Obj(members) => forall i :: 0 <= i < |members| ==> SafeNumbers(members[i].value)
    case _ => true
  }

  // ----- The host's text is never shorter -----

  lemma UnitLengths(c: Unit)
    ensures 1 <= |WorkerUnit(c)| <= |HostUnit(c)|
    ensures |WorkerUnit(c)| == |HostUnit(c)| <==> c <= 126 || IsHigh(c) || IsLow(c)
    ensures IsHigh(c) || IsLow(c) ==> |HostUnit(c)| == 6
    ensures c <= 126 || IsHigh(c) || IsLow(c) ==> WorkerUnit(c) == HostUnit(c)
  {
  }

  lemma {:induction false} EscapedLengths(s: Text)
    ensures |Escaped(s, Worker)| <= |Escaped(s, Host)|
    ensures |Escaped(s, Worker)| == |Escaped(s, Host)| <==> PlainText(s)
    ensures PlainText(s) ==> Escaped(s, Worker) == Escaped(s, Host)
  {
    if s != [] {
      UnitLengths(s[0]);
      if PairFirst(s) {
        UnitLengths(s[1]);
        assert s[1..][1..] == s[2..];
        EscapedLengths(s[2..]);
        assert Escaped(s[1..], Host) == HostUnit(s[1]) + Escaped(s[2..], Host);
      } else {
        EscapedLengths(s[1..]);
      }
      hide HostUnit, WorkerUnit;
    }
  }

  lemma {:induction false} PrintLengths(v: Raw)
    ensures |Print(v, Worker)| <= |Print(v, Host)|
    ensures |Print(v, Worker)| == |Print(v, Host)| <==> Plain(v)
    ensures Plain(v) ==> Print(v, Worker) == Print(v, Host)
    decreases v, 1
  {
    match v
    case Str(s) => EscapedLengths(s);
    case Arr(items) => ItemsLengths(items);
    case Obj(members) => MembersLengths(members);
    case _ =>
  }

  lemma {:induction false} ItemsLengths(items: seq<Raw>)
    ensures |PrintItems(items, Worker)| <= |PrintItems(items, Host)|
    ensures |PrintItems(items, Worker)| == |PrintItems(items, Host)| <==> PlainItems(items)
    ensures PlainItems(items) ==> PrintItems(items, Worker) == PrintItems(items, Host)
    decreases items, 0
  {
    if items != [] {
      PrintLengths(items[0]);
      ItemsLengths(items[1..]);
      hide Print, Plain;
    }
  }

  lemma MemberLengths(m: Member)
    ensures |PrintMember(m, Worker)| <= |PrintMember(m, Host)|
    ensures |PrintMember(m, Worker)| == |PrintMember(m, Host)| <==> PlainText(m.key) && Plain(m.value)
    ensures PlainText(m.key) && Plain(m.value) ==> PrintMember(m, Worker) == PrintMember(m, Host)
    decreases m, 0
  {
    EscapedLengths(m.key);
    PrintLengths(m.value);
    hide Print, Plain, PlainText, Escaped;
  }

  lemma {:induction false} MembersLengths(members: seq<Member>)
    ensures |PrintMembers(members, Worker)| <= |PrintMembers(members, Host)|
    ensures |PrintMembers(members, Worker)| == |PrintMembers(members, Host)| <==> PlainMembers(members)
    ensures PlainMembers(members) ==> PrintMembers(members, Worker) == PrintMembers(members, Host)
    decreases members, 0
  {
    if members != [] {
      MemberLengths(members[0]);
      MembersLengths(members[1..]);
      hide PrintMember, Plain, PlainText;
    }
  }

  // ----- Sorting keeps the length of the text -----

  lemma MembersCons(m: Member, rest: seq<Member>, style: Style)
    ensures |PrintMembers([m] + rest, style)| ==
            |PrintMember(m, style)| + if rest == [] then 0 else 1 + |PrintMembers(rest, style)|
  {
    hide PrintMember;
    assert ([m] + rest)[1..] == rest;
  }

  lemma {:induction false} InsertLength(m: Member, sorted: seq<Member>, order: Style, style: Style)
    ensures |PrintMembers(Insert(m, sorted, order), style)| == |PrintMembers([m] + sorted, style)|
  {
    if sorted == [] {
      assert [m] + sorted == [m];
    } else {
      var first, tail := sorted[0], sorted[1..];
      assert sorted == [first] + tail;
      InsertLength(m, tail, order, style);
      InsertHolds(m, tail, order);
      MembersCons(m, tail, style);
      MembersCons(first, tail, style);
      MembersCons(m, sorted, style);
      MembersCons(first, Insert(m, tail, order), style);
      hide PrintMembers, PrintMember, KeyLess;
    }
  }

  lemma {:induction false} SortLength(members: seq<Member>, order: Style, style: Style)
    ensures |PrintMembers(Sort(members, order), style)| == |PrintMembers(members, style)|
  {
    if members != [] {
      SortLength(members[1..], order, style);
      SortHolds(members[1..], order);
      InsertLength(members[0], Sort(members[1..], order), order, style);
      MembersCons(members[0], members[1..], style);
      MembersCons(members[0], Sort(members[1..], order), style);
      assert members == [members[0]] + members[1..];
      assert |Sort(members[1..], order)| == |multiset(members[1..])| == |members| - 1;
      hide PrintMembers, PrintMember;
    }
  }

  lemma {:induction false} NormalLength(v: Raw, order: Style, style: Style)
    ensures |Print(Normal(v, order), style)| == |Print(v, style)|
    decreases v, 1
  {
    match v
    case Arr(items) => NormalItemsLength(items, order, style);
    case Obj(members) =>
      NormalMembersLength(members, order, style);
      SortLength(NormalMembers(members, order), order, style);
    case _ =>
  }

  lemma {:induction false} NormalItemsLength(items: seq<Raw>, order: Style, style: Style)
    ensures |PrintItems(NormalItems(items, order), style)| == |PrintItems(items, style)|
    decreases items, 0
  {
    if items != [] {
      NormalLength(items[0], order, style);
      NormalItemsLength(items[1..], order, style);
      hide Print, Normal;
      assert NormalItems(items, order)[1..] == NormalItems(items[1..], order);
    }
  }

  lemma {:induction false} NormalMembersLength(members: seq<Member>, order: Style, style: Style)
    ensures |PrintMembers(NormalMembers(members, order), style)| == |PrintMembers(members, style)|
    decreases members, 0
  {
    if members != [] {
      NormalLength(members[0].value, order, style);
      NormalMembersLength(members[1..], order, style);
      MembersCons(members[0], members[1..], style);
      var first := Member(members[0].key, Normal(members[0].value, order));
      MembersCons(first, NormalMembers(members[1..], order), style);
      assert members == [members[0]] + members[1..];
      assert NormalMembers(members, order) == [first] + NormalMembers(members[1..], order);
      hide Print, Normal, PrintMembers, Quoted;
    }
  }

  // ----- On plain documents the two key orders agree -----

  lemma {:induction false} PlainCodePoints(s: Text)
    requires PlainText(s)
    ensures CodePoints(s) == s
  {
    if s != [] { PlainCodePoints(s[1..]); }
  }

  predicate PlainKeys(members: seq<Member>) {
    forall x :: x in members ==> PlainText(x.key)
  }

  lemma {:induction false} InsertAgrees(m: Member, sorted: seq<Member>)
    requires PlainText(m.key) && PlainKeys(sorted)
    ensures Insert(m, sorted, Host) == Insert(m, sorted, Worker)
  {
    if sorted != [] {
      hide Less, PlainText;
      PlainCodePoints(m.key);
      PlainCodePoints(sorted[0].key);
      InsertAgrees(m, sorted[1..]);
    }
  }

  lemma {:induction false} SortAgrees(members: seq<Member>)
    requires PlainKeys(members)
    ensures Sort(members, Host) == Sort(members, Worker)
  {
    if members != [] {
      SortAgrees(members[1..]);
      SortHolds(members[1..], Worker);
      InsertAgrees(members[0], Sort(members[1..], Worker));
    }
  }

  lemma {:induction false} NormalAgrees(v: Raw)
    requires Plain(v)
    ensures Normal(v, Host) == Normal(v, Worker)
    decreases v, 1
  {
    match v
    case Arr(items) => NormalItemsAgree(items);
    case Obj(members) =>
      NormalMembersAgree(members);
      SortAgrees(NormalMembers(members, Host));
    case _ =>
  }

  lemma {:induction false} NormalItemsAgree(items: seq<Raw>)
    requires PlainItems(items)
    ensures NormalItems(items, Host) == NormalItems(items, Worker)
    decreases items, 0
  {
    if items != [] {
      NormalAgrees(items[0]);
      NormalItemsAgree(items[1..]);
    }
  }

  lemma {:induction false} NormalMembersAgree(members: seq<Member>)
    requires PlainMembers(members)
    ensures NormalMembers(members, Host) == NormalMembers(members, Worker)
    ensures PlainKeys(NormalMembers(members, Host))
    decreases members, 0
  {
    if members != [] {
      NormalAgrees(members[0].value);
      NormalMembersAgree(members[1..]);
      hide PlainText;
    }
  }

  // Host and Worker print a tree alike exactly when every string in it is plain.
  lemma SerialisersAgreeExactly(v: Raw)
    requires SafeNumbers(v)
    ensures HostCanonical(v) == WorkerCanonical(v) <==> Plain(v)
  {
    PrintLengths(v);
    NormalLength(v, Host, Host);
    NormalLength(v, Worker, Worker);
    NormalLength(v, Worker, Host);
    PrintLengths(Normal(v, Worker));
    if Plain(v) { NormalAgrees(v); }
    hide Print, Normal, Plain;
  }
}
