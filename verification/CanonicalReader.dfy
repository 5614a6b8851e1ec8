// A reader that parses a text, dumps the value again and compares: which texts it accepts.
module CanonicalReader {
  import opened CanonicalJson
  import opened CanonicalLaws
  import opened JsonNumbers
  import opened JsonParser
  import opened JsonRoundTrip
  import opened Wrappers

  datatype ReadError = InvalidJson | NotAnObject | NotCanonical

  // QuarantineStore.get on the bytes of an object whose digest has been checked.
  function ReadObject(t: Text, shortest: RealText -> RealText): Result<Raw, ReadError> {
    match Parse(t)
    case None => Err(InvalidJson)
    case Some(w) =>
      var v := Loaded(w, shortest);
      if !v.Obj? then Err(NotAnObject)
      else if HostCanonical(v) != t then Err(NotCanonical)
      else Ok(v)
  }

  // The shortest text of a float stands for that float.
  ghost predicate Settles(shortest: RealText -> RealText) {
    forall l: RealText :: shortest(shortest(l)) == shortest(l)
  }

  // Every float has its shortest text.
  predicate Short(v: Raw, shortest: RealText -> RealText)
    decreases v, 1
  {
    match v
    case Real(lexeme) => shortest(lexeme) == lexeme
    case Arr(items) => forall i :: 0 <= i < |items| ==> Short(items[i], shortest)
    case Obj(members) => forall i :: 0 <= i < |members| ==> Short(members[i].value, shortest)
    case _ => true
  }

  // Distinct keys in every object.
  predicate Distinct(v: Raw)
    decreases v, 1
  {
    match v
    case Arr(items) => forall i :: 0 <= i < |items| ==> Distinct(items[i])
    case Obj(members) => DistinctKeys(members) && forall i :: 0 <= i < |members| ==> Distinct(members[i].value)
    case _ => true
  }

  // Sorted, hence distinct, keys in every object.
  predicate Sorted(v: Raw)
    decreases v, 1
  {
    match v
    case Arr(items) => forall i :: 0 <= i < |items| ==> Sorted(items[i])
    case Obj(members) => Ascending(members, Host) && forall i :: 0 <= i < |members| ==> Sorted(members[i].value)
    case _ => true
  }

  // ----- Loading makes keys distinct and floats short -----

  lemma {:induction false} PutKeepsDistinct(members: seq<Member>, m: Member)
    requires DistinctKeys(members)
    ensures DistinctKeys(PutMember(members, m))
    ensures forall x :: x in PutMember(members, m) ==> x == m || x in members
    ensures NewKey(m.key, members) ==> PutMember(members, m) == members + [m]
  {
    hide DistinctKeys;
    if members == [] {
      DistinctCons(m, []);
      assert [m] + [] == [m];
    } else {
      var first, tail := members[0], members[1..];
      assert members == [first] + tail;
      DistinctCons(first, tail);
      DistinctCons(m, tail);
      if first.key != m.key {
        PutKeepsDistinct(tail, m);
        DistinctCons(first, PutMember(tail, m));
      }
    }
  }

  lemma {:induction false} LoadedIsHeld(v: Raw, shortest: RealText -> RealText)
    requires Settles(shortest)
    ensures Distinct(Loaded(v, shortest)) && Short(Loaded(v, shortest), shortest)
    decreases v, 1
  {
    match v
    case Arr(items) => LoadedItemsHeld(items, shortest);
    case Obj(members) => LoadedMembersHeld(members, shortest);
    case _ =>
  }

  lemma {:induction false} LoadedItemsHeld(items: seq<Raw>, shortest: RealText -> RealText)
    requires Settles(shortest)
    ensures forall x :: x in LoadedItems(items, shortest) ==> Distinct(x) && Short(x, shortest)
    decreases items, 0
  {
    hide Distinct, Short, Settles;
    if items != [] {
      LoadedIsHeld(items[0], shortest);
      LoadedItemsHeld(items[1..], shortest);
    }
  }

  lemma {:induction false} LoadedMembersHeld(members: seq<Member>, shortest: RealText -> RealText)
    requires Settles(shortest)
    ensures DistinctKeys(LoadedMembers(members, shortest))
    ensures forall x :: x in LoadedMembers(members, shortest) ==> Distinct(x.value) && Short(x.value, shortest)
    decreases members, 0
  {
    if members != [] {
      var n := |members| - 1;
      LoadedMembersHeld(members[..n], shortest);
      LoadedIsHeld(members[n].value, shortest);
      hide Distinct, Short, DistinctKeys, Settles;
      var m := Member(members[n].key, Loaded(members[n].value, shortest));
      PutKeepsDistinct(LoadedMembers(members[..n], shortest), m);
    }
  }

  // ----- Dumping sorts keys and keeps floats short -----

  lemma {:induction false} NormalIsSorted(v: Raw, shortest: RealText -> RealText)
    requires Distinct(v) && Short(v, shortest)
    ensures Sorted(Normal(v, Host)) && Short(Normal(v, Host), shortest)
    decreases v, 1
  {
    match v
    case Arr(items) => NormalItemsSorted(items, shortest);
    case Obj(members) =>
      var n := NormalMembers(members, Host);
      NormalMembersSorted(members, shortest);
      assert DistinctKeys(n);
      hide DistinctKeys, Ascending;
      SortSorts(n, Host);
      SortHolds(n, Host);
    case _ =>
  }

  lemma {:induction false} NormalItemsSorted(items: seq<Raw>, shortest: RealText -> RealText)
    requires forall i :: 0 <= i < |items| ==> Distinct(items[i]) && Short(items[i], shortest)
    ensures forall x :: x in NormalItems(items, Host) ==> Sorted(x) && Short(x, shortest)
    decreases items, 0
  {
    hide Distinct, Sorted, Short;
    if items != [] {
      NormalIsSorted(items[0], shortest);
      NormalItemsSorted(items[1..], shortest);
    }
  }

  lemma {:induction false} NormalMembersSorted(members: seq<Member>, shortest: RealText -> RealText)
    requires forall i :: 0 <= i < |members| ==> Distinct(members[i].value) && Short(members[i].value, shortest)
    ensures forall i :: 0 <= i < |members| ==> NormalMembers(members, Host)[i].key == members[i].key
    ensures forall x :: x in NormalMembers(members, Host) ==> Sorted(x.value) && Short(x.value, shortest)
    decreases members, 0
  {
    hide Distinct, Sorted, Short;
    if members != [] {
      NormalIsSorted(members[0].value, shortest);
      NormalMembersSorted(members[1..], shortest);
    }
  }

  // ----- A sorted document is loaded and dumped unchanged -----

  lemma {:induction false} SortedIsUnchanged(v: Raw, shortest: RealText -> RealText)
    requires Sorted(v) && Short(v, shortest)
    ensures Loaded(v, shortest) == v && Normal(v, Host) == v
    decreases v, 1
  {
    match v
    case Arr(items) => SortedItemsUnchanged(items, shortest);
    case Obj(members) =>
      SortedMembersLoaded(members, shortest);
      SortedMembersNormal(members, shortest);
      SortOfAscending(members, Host);
    case _ =>
  }

  lemma {:induction false} SortedItemsUnchanged(items: seq<Raw>, shortest: RealText -> RealText)
    requires forall i :: 0 <= i < |items| ==> Sorted(items[i]) && Short(items[i], shortest)
    ensures LoadedItems(items, shortest) == items && NormalItems(items, Host) == items
    decreases items, 0
  {
    hide Sorted, Short;
    if items != [] {
      SortedIsUnchanged(items[0], shortest);
      SortedItemsUnchanged(items[1..], shortest);
      assert items == [items[0]] + items[1..];
    }
  }

  lemma {:induction false} SortedMembersNormal(members: seq<Member>, shortest: RealText -> RealText)
    requires forall i :: 0 <= i < |members| ==> Sorted(members[i].value) && Short(members[i].value, shortest)
    ensures NormalMembers(members, Host) == members
    decreases members, 0
  {
    hide Sorted, Short;
    if members != [] {
      SortedIsUnchanged(members[0].value, shortest);
      SortedMembersNormal(members[1..], shortest);
      assert members == [members[0]] + members[1..];
    }
  }

  lemma {:induction false} SortedMembersLoaded(members: seq<Member>, shortest: RealText -> RealText)
    requires Ascending(members, Host)
    requires forall i :: 0 <= i < |members| ==> Sorted(members[i].value) && Short(members[i].value, shortest)
    ensures LoadedMembers(members, shortest) == members
    decreases members, 0
  {
    hide Sorted, Short, KeyLess;
    if members != [] {
      var n := |members| - 1;
      var before := members[..n];
      SortedMembersLoaded(before, shortest);
      SortedIsUnchanged(members[n].value, shortest);
      AscendingIsDistinct(members, Host);
      PutKeepsDistinct(before, members[n]);
      assert members == before + [members[n]];
    }
  }

  // ----- What the reader accepts -----

  // What is written is read: the canonical text of an object comes back as that object.
  lemma WrittenIsRead(v: Raw, shortest: RealText -> RealText)
    requires v.Obj? && Distinct(v) && Short(v, shortest)
    ensures ReadObject(HostCanonical(v), shortest) == Ok(Normal(v, Host))
    ensures Sorted(Normal(v, Host))
  {
    NormalIsSorted(v, shortest);
    SortedIsUnchanged(Normal(v, Host), shortest);
    ParseAfterPrint(Normal(v, Host), Host);
    assert Normal(v, Host).Obj?;
    hide Print, Normal, Loaded, Parse, Sorted, Short, Distinct;
  }

  // The text is the canonical text of an object as Python holds it.
  ghost predicate IsCanonicalText(t: Text, shortest: RealText -> RealText) {
    exists v: Raw :: v.Obj? && Distinct(v) && Short(v, shortest) && t == HostCanonical(v)
  }

  // Among all texts the reader accepts exactly the canonical texts of objects.
  lemma ReaderAcceptsExactlyCanonical(t: Text, shortest: RealText -> RealText)
    requires Settles(shortest)
    ensures ReadObject(t, shortest).Ok? <==> IsCanonicalText(t, shortest)
  {
    hide Print, Normal, Loaded, Parse, Sorted, Short, Distinct, HostCanonical, Settles;
    if ReadObject(t, shortest).Ok? {
      LoadedIsHeld(Parse(t).value, shortest);
    }
    if IsCanonicalText(t, shortest) {
      var v: Raw :| v.Obj? && Distinct(v) && Short(v, shortest) && t == HostCanonical(v);
      WrittenIsRead(v, shortest);
    }
  }

  // Seen from the text: it holds one object, its keys sorted and distinct and its floats short,
  // without white space and with the host's escapes. Then nothing changes on the way in.
  lemma AcceptedTextExactly(t: Text, shortest: RealText -> RealText)
    requires Settles(shortest)
    ensures ReadObject(t, shortest).Ok? <==>
            exists w: Raw :: Parse(t) == Some(w) && w.Obj? && Sorted(w) && Short(w, shortest) && t == Print(w, Host)
    ensures ReadObject(t, shortest).Ok? ==> Parse(t) == Some(ReadObject(t, shortest).value)
  {
    hide Print, Normal, Loaded, Parse, Sorted, Short, Distinct, Settles;
    if ReadObject(t, shortest).Ok? {
      var v := Loaded(Parse(t).value, shortest);
      LoadedIsHeld(Parse(t).value, shortest);
      WrittenIsRead(v, shortest);
      NormalIsSorted(v, shortest);
      ParseAfterPrint(Normal(v, Host), Host);
    }
    if w: Raw :| Parse(t) == Some(w) && w.Obj? && Sorted(w) && Short(w, shortest) && t == Print(w, Host) {
      SortedIsUnchanged(w, shortest);
    }
  }

  // Any text with unsorted or repeated keys somewhere in it is refused.
  lemma UnsortedTextIsRefused(t: Text, w: Raw, shortest: RealText -> RealText)
    requires Settles(shortest) && Parse(t) == Some(w) && !Sorted(w)
    ensures ReadObject(t, shortest).Err?
  {
    AcceptedTextExactly(t, shortest);
    hide ReadObject, Sorted, Parse, Settles;
  }
}
