// The laws of canonical JSON: when the two serialisers agree, what canonical text determines,
// and which texts a reader that dumps again accepts.
module CanonicalLaws {
  import opened CanonicalJson
  import opened JsonNumbers
  import opened JsonParser
  import opened JsonRoundTrip
  import opened Wrappers

  // ----- Key order -----

  lemma {:induction false} LessTrichotomy(a: seq<int>, b: seq<int>)
    ensures Less(a, b) || Less(b, a) || a == b
    ensures !(Less(a, b) && Less(b, a))
  {
    if a != [] && b != [] {
      LessTrichotomy(a[1..], b[1..]);
      assert a == [a[0]] + a[1..] && b == [b[0]] + b[1..];
    }
  }

  lemma {:induction false} LessTransitive(a: seq<int>, b: seq<int>, c: seq<int>)
    requires Less(a, b) && Less(b, c)
    ensures Less(a, c)
  {
    if a != [] && a[0] == b[0] && b[0] == c[0] { LessTransitive(a[1..], b[1..], c[1..]); }
  }

  // The first code point tells how many units it took.
  lemma FirstPoint(s: Text)
    requires s != []
    ensures CodePoints(s) != []
    ensures PairFirst(s) <==> CodePoints(s)[0] >= 0x10000
    ensures PairFirst(s) ==> CodePoints(s)[1..] == CodePoints(s[2..]) && s == s[..2] + s[2..]
    ensures PairFirst(s) ==> CodePoints(s)[0] == PairPoint(s[0], s[1])
    ensures !PairFirst(s) ==> CodePoints(s)[1..] == CodePoints(s[1..]) && s == [s[0]] + s[1..]
    ensures !PairFirst(s) ==> CodePoints(s)[0] == s[0]
  {
  }

  lemma {:induction false} CodePointsDetermine(a: Text, b: Text)
    requires CodePoints(a) == CodePoints(b)
    ensures a == b
  {
    if a == [] {
      if b != [] { FirstPoint(b); }
    } else {
      FirstPoint(a);
      assert b != [];
      FirstPoint(b);
      hide CodePoints;
      if PairFirst(a) {
        CodePointsDetermine(a[2..], b[2..]);
        assert a[..2] == b[..2];
      } else {
        CodePointsDetermine(a[1..], b[1..]);
      }
    }
  }

  lemma KeyTrichotomy(a: Text, b: Text, style: Style)
    ensures KeyLess(a, b, style) || KeyLess(b, a, style) || a == b
    ensures !(KeyLess(a, b, style) && KeyLess(b, a, style)) && !KeyLess(a, a, style)
  {
    hide Less, CodePoints;
    LessTrichotomy(a, b);
    LessTrichotomy(a, a);
    LessTrichotomy(CodePoints(a), CodePoints(b));
    LessTrichotomy(CodePoints(a), CodePoints(a));
    if CodePoints(a) == CodePoints(b) { CodePointsDetermine(a, b); }
  }

  lemma KeyTransitive(a: Text, b: Text, c: Text, style: Style)
    requires KeyLess(a, b, style) && KeyLess(b, c, style)
    ensures KeyLess(a, c, style)
  {
    hide Less, CodePoints;
    if style == Host { LessTransitive(CodePoints(a), CodePoints(b), CodePoints(c)); } else { LessTransitive(a, b, c); }
  }

  predicate Ascending(members: seq<Member>, style: Style) {
    forall i, j :: 0 <= i < j < |members| ==> KeyLess(members[i].key, members[j].key, style)
  }

  predicate DistinctKeys(members: seq<Member>) {
    forall i, j :: 0 <= i < j < |members| ==> members[i].key != members[j].key
  }

  // The key comes before every key of the members.
  predicate Before(key: Text, members: seq<Member>, style: Style) {
    forall x :: x in members ==> KeyLess(key, x.key, style)
  }

  predicate NewKey(key: Text, members: seq<Member>) {
    forall x :: x in members ==> x.key != key
  }

  lemma AscendingCons(m: Member, rest: seq<Member>, style: Style)
    ensures Ascending([m] + rest, style) <==> Ascending(rest, style) && Before(m.key, rest, style)
  {
    hide KeyLess;
    var all := [m] + rest;
    if Ascending(all, style) {
      forall i, j | 0 <= i < j < |rest|
        ensures KeyLess(rest[i].key, rest[j].key, style)
      {
        assert all[i + 1] == rest[i] && all[j + 1] == rest[j];
      }
      forall x | x in rest
        ensures KeyLess(m.key, x.key, style)
      {
        var k :| 0 <= k < |rest| && rest[k] == x;
        assert all[k + 1] == x && all[0] == m;
      }
    }
  }

  lemma DistinctCons(m: Member, rest: seq<Member>)
    ensures DistinctKeys([m] + rest) <==> DistinctKeys(rest) && NewKey(m.key, rest)
  {
    var all := [m] + rest;
    if DistinctKeys(all) {
      forall i, j | 0 <= i < j < |rest|
        ensures rest[i].key != rest[j].key
      {
        assert all[i + 1] == rest[i] && all[j + 1] == rest[j];
      }
      forall x | x in rest
        ensures x.key != m.key
      {
        var k :| 0 <= k < |rest| && rest[k] == x;
        assert all[k + 1] == x && all[0] == m;
      }
    }
  }

  // ----- Sorting -----

  lemma {:induction false} InsertHolds(m: Member, sorted: seq<Member>, style: Style)
    ensures multiset(Insert(m, sorted, style)) == multiset(sorted) + multiset{m}
    ensures forall x :: x in Insert(m, sorted, style) <==> x == m || x in sorted
  {
    if sorted != [] {
      hide KeyLess;
      InsertHolds(m, sorted[1..], style);
      assert sorted == [sorted[0]] + sorted[1..];
    }
  }

  lemma {:induction false} InsertKeeps(m: Member, sorted: seq<Member>, style: Style)
    requires Ascending(sorted, style) && NewKey(m.key, sorted)
    ensures Ascending(Insert(m, sorted, style), style)
  {
    hide Ascending, KeyLess;
    AscendingCons(m, sorted, style);
    if sorted != [] {
      var first, tail := sorted[0], sorted[1..];
      assert sorted == [first] + tail;
      AscendingCons(first, tail, style);
      KeyTrichotomy(first.key, m.key, style);
      if KeyLess(first.key, m.key, style) {
        InsertKeeps(m, tail, style);
        InsertHolds(m, tail, style);
        AscendingCons(first, Insert(m, tail, style), style);
      } else {
        forall x | x in tail
          ensures KeyLess(m.key, x.key, style)
        {
          KeyTransitive(m.key, first.key, x.key, style);
        }
      }
    } else {
      assert Insert(m, sorted, style) == [m] + sorted;
    }
  }

  lemma {:induction false} SortHolds(members: seq<Member>, style: Style)
    ensures multiset(Sort(members, style)) == multiset(members)
    ensures forall x :: x in Sort(members, style) <==> x in members
  {
    if members != [] {
      SortHolds(members[1..], style);
      InsertHolds(members[0], Sort(members[1..], style), style);
      assert members == [members[0]] + members[1..];
    }
  }

  lemma {:induction false} SortSorts(members: seq<Member>, style: Style)
    requires DistinctKeys(members)
    ensures Ascending(Sort(members, style), style)
  {
    if members != [] {
      assert members == [members[0]] + members[1..];
      DistinctCons(members[0], members[1..]);
      hide DistinctKeys, Ascending;
      SortSorts(members[1..], style);
      SortHolds(members[1..], style);
      InsertKeeps(members[0], Sort(members[1..], style), style);
    }
  }

  lemma FirstIsLeast(a: seq<Member>, x: Member, style: Style)
    requires Ascending(a, style) && x in multiset(a)
    ensures x == a[0] || KeyLess(a[0].key, x.key, style)
  {
    hide KeyLess;
    var i :| 0 <= i < |a| && a[i] == x;
  }

  lemma RestOf(a: seq<Member>)
    requires a != []
    ensures a[0] in multiset(a) && multiset(a[1..]) == multiset(a) - multiset{a[0]}
  {
    assert a == [a[0]] + a[1..];
  }

  lemma SameFirst(a: seq<Member>, b: seq<Member>, style: Style)
    requires Ascending(a, style) && Ascending(b, style) && multiset(a) == multiset(b) && a != [] && b != []
    ensures a[0] == b[0] && multiset(a[1..]) == multiset(b[1..])
    ensures Ascending(a[1..], style) && Ascending(b[1..], style)
  {
    hide Ascending, KeyLess;
    RestOf(a);
    RestOf(b);
    FirstIsLeast(b, a[0], style);
    FirstIsLeast(a, b[0], style);
    KeyTrichotomy(a[0].key, b[0].key, style);
    AscendingCons(a[0], a[1..], style);
    AscendingCons(b[0], b[1..], style);
    assert a == [a[0]] + a[1..] && b == [b[0]] + b[1..];
  }

  lemma {:induction false} AscendingIsUnique(a: seq<Member>, b: seq<Member>, style: Style)
    requires Ascending(a, style) && Ascending(b, style) && multiset(a) == multiset(b)
    ensures a == b
  {
    hide Ascending;
    assert |a| == |multiset(a)| == |multiset(b)| == |b|;
    if a != [] {
      SameFirst(a, b, style);
      AscendingIsUnique(a[1..], b[1..], style);
      assert a == [a[0]] + a[1..] && b == [b[0]] + b[1..];
    }
  }

  // Sorting forgets the order in which an object's members were inserted.
  lemma InsertionOrderIsIrrelevant(a: seq<Member>, b: seq<Member>, style: Style)
    requires DistinctKeys(a) && DistinctKeys(b) && multiset(a) == multiset(b)
    ensures Sort(a, style) == Sort(b, style)
  {
    hide Ascending;
    SortSorts(a, style);
    SortSorts(b, style);
    SortHolds(a, style);
    SortHolds(b, style);
    AscendingIsUnique(Sort(a, style), Sort(b, style), style);
  }

  lemma AscendingIsDistinct(members: seq<Member>, style: Style)
    requires Ascending(members, style)
    ensures DistinctKeys(members)
  {
    hide KeyLess;
    forall i, j | 0 <= i < j < |members|
      ensures members[i].key != members[j].key
    {
      KeyTrichotomy(members[i].key, members[j].key, style);
    }
  }

  lemma SortOfAscending(members: seq<Member>, style: Style)
    requires Ascending(members, style)
    ensures Sort(members, style) == members
  {
    AscendingIsDistinct(members, style);
    hide Ascending;
    SortSorts(members, style);
    SortHolds(members, style);
    AscendingIsUnique(Sort(members, style), members, style);
  }

  // ----- What canonical text determines -----

  // Two trees have the same canonical text exactly when they are the same up to key order.
  lemma CanonicalTextDetermines(a: Raw, b: Raw)
    ensures HostCanonical(a) == HostCanonical(b) <==> Normal(a, Host) == Normal(b, Host)
    ensures WorkerCanonical(a) == WorkerCanonical(b) <==> Normal(a, Worker) == Normal(b, Worker)
  {
    if HostCanonical(a) == HostCanonical(b) { PrintIsInjective(Normal(a, Host), Normal(b, Host), Host); }
    if WorkerCanonical(a) == WorkerCanonical(b) { PrintIsInjective(Normal(a, Worker), Normal(b, Worker), Worker); }
  }
}
