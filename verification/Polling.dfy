// Polling of the relay's decision sequence: fetch one page after the stored cursor, put every
// decision into the content-addressed inbox, and only then advance the cursor.
module Polling {
  import opened Wrappers

  const PAGE_LIMIT := 100
  const CURSOR_LIMIT := 1_000_000_000_000_000_000

  // A signed decision stands for its canonical bytes, and so for its file name.
  datatype Signed = Signed(event: string, payload: string)

  datatype Page = Page(data: seq<Signed>, next: nat)

  datatype PollError =
    | InvalidPage | CursorRegressed | NotAdvancing | CursorSkipped | AdvancedPastEmpty
    | InboxItemDiffers | CheckpointUnreadable

  // The relay's answer: at most one hundred decisions of sequence above the cursor, in order.
  function PageAfter(published: seq<Signed>, after: nat): Page {
    var data := if after >= |published| then [] else
                if |published| - after <= PAGE_LIMIT then published[after..] else published[after..after + PAGE_LIMIT];
    Page(data, after + |data|)
  }

  predicate Distinct(data: seq<Signed>) {
    forall i, j :: 0 <= i < j < |data| ==> data[i] != data[j]
  }

  // What parsing a page enforces.
  predicate PageParses(page: Page) {
    |page.data| <= PAGE_LIMIT && Distinct(page.data) && page.next < CURSOR_LIMIT
  }

  // The client's checks on a page, whoever sent it.
  function CheckPage(current: nat, page: Page): Result<Page, PollError> {
    if !PageParses(page) then Err(InvalidPage)
    else if page.next < current then Err(CursorRegressed)
    else if page.data != [] && page.next <= current then Err(NotAdvancing)
    else if page.data != [] && page.next != current + |page.data| then Err(CursorSkipped)
    else if page.data == [] && page.next != current then Err(AdvancedPastEmpty)
    else Ok(page)
  }

  // The relay's pages are never torn apart: a page holds the next hundred decisions, or all that are
  // left, in their order.
  lemma PagesAreWindows(published: seq<Signed>, after: nat)
    ensures var page := PageAfter(published, after);
            && |page.data| <= 100 && page.next == after + |page.data|
            && (|page.data| < 100 ==> |published| <= page.next)
            && (page.data != [] ==> page.next <= |published|)
            && forall k :: 0 <= k < |page.data| ==> page.data[k] == published[after + k]
  {
  }

  // The checks together accept exactly the pages of at most a hundred different decisions whose
  // cursor moves by their number, and the pages of a relay that publishes no decision twice pass.
  lemma CheckedPagesAreGapless(published: seq<Signed>, current: nat, page: Page)
    ensures CheckPage(current, page).Ok? <==>
              && |page.data| <= 100
              && (forall i, j :: 0 <= i < j < |page.data| ==> page.data[i] != page.data[j])
              && page.next == current + |page.data| < 1_000_000_000_000_000_000
    ensures CheckPage(current, page).Ok? ==> CheckPage(current, page).value == page
    ensures Distinct(published) && |published| < 1_000_000_000_000_000_000 && current <= |published| ==>
              CheckPage(current, PageAfter(published, current)) == Ok(PageAfter(published, current))
  {
  }

  // The largest checkpoint, or zero without any.
  function Highest(checkpoints: seq<nat>): nat {
    if checkpoints == [] then 0 else
    var rest := Highest(checkpoints[..|checkpoints| - 1]);
    var last := checkpoints[|checkpoints| - 1];
    if last > rest then last else rest
  }

  lemma {:induction false} HighestIsMaximum(checkpoints: seq<nat>)
    ensures forall c :: c in checkpoints ==> c <= Highest(checkpoints)
    ensures checkpoints != [] ==> Highest(checkpoints) in checkpoints
  {
    if checkpoints != [] {
      var n := |checkpoints| - 1;
      var rest := checkpoints[..n];
      HighestIsMaximum(rest);
      forall c | c in checkpoints
        ensures c in rest || c == checkpoints[n]
      {
        var k :| 0 <= k < |checkpoints| && checkpoints[k] == c;
        if k < n { assert rest[k] == c; }
      }
    }
  }

  lemma HighestOfAppend(checkpoints: seq<nat>, next: nat)
    ensures Highest(checkpoints + [next]) == if next > Highest(checkpoints) then next else Highest(checkpoints)
  {
    assert (checkpoints + [next])[..|checkpoints|] == checkpoints;
  }

  function Items(data: seq<Signed>): set<Signed> {
    set s | s in data
  }

  lemma ItemsOfPrefix(data: seq<Signed>, i: nat)
    requires i < |data|
    ensures Items(data[..i + 1]) == Items(data[..i]) + {data[i]} && data[i] in Items(data)
    ensures Items(data[..i + 1]) <= Items(data)
  {
    assert data[..i + 1] == data[..i] + [data[i]];
  }

  lemma CardinalityOfAdd<T>(s: set<T>, x: T)
    ensures |s + {x}| == |s| + if x in s then 0 else 1
  {
    if x in s { assert s + {x} == s; }
  }

  // The notifier's files. A crash while a file is being written leaves it torn: present, with
  // the wrong bytes.
  class NotifierStore {
    var inbox: set<Signed>
    var torn: set<Signed>
    var checkpoints: seq<nat>
    var checkpointTorn: bool

    predicate Valid()
      reads this
    {
      inbox !! torn
    }

    constructor ()
      ensures Valid() && inbox == {} && torn == {} && checkpoints == [] && !checkpointTorn
    {
      inbox, torn, checkpoints, checkpointTorn := {}, {}, [], false;
    }

    method Put(signed: Signed) returns (r: Result<bool, PollError>)
      requires Valid()
      modifies this`inbox
      ensures Valid()
      ensures r == if signed in torn then Err(InboxItemDiffers) else Ok(signed !in old(inbox))
      ensures inbox == if signed in torn then old(inbox) else old(inbox) + {signed}
    {
      if signed in torn { return Err(InboxItemDiffers); }
      r := Ok(signed !in inbox);
      inbox := inbox + {signed};
    }

    method Current() returns (r: Result<nat, PollError>)
      ensures r == if checkpointTorn then Err(CheckpointUnreadable) else Ok(Highest(checkpoints))
    {
      if checkpointTorn { return Err(CheckpointUnreadable); }
      var highest, i := 0, 0;
      while i < |checkpoints|
        invariant 0 <= i <= |checkpoints|
        invariant highest == Highest(checkpoints[..i])
      {
        HighestOfAppend(checkpoints[..i], checkpoints[i]);
        assert checkpoints[..i + 1] == checkpoints[..i] + [checkpoints[i]];
        if checkpoints[i] > highest { highest := checkpoints[i]; }
        i := i + 1;
      }
      assert checkpoints[..i] == checkpoints;
      r := Ok(highest);
    }

    method Advance(next: nat) returns (r: Result<(), PollError>)
      modifies this`checkpoints
      ensures checkpointTorn ==> r == Err(CheckpointUnreadable) && checkpoints == old(checkpoints)
      ensures !checkpointTorn ==> r.Ok? == (next >= Highest(old(checkpoints)))
      ensures !checkpointTorn && r.Err? ==> r.error == CursorRegressed && checkpoints == old(checkpoints)
      ensures r.Ok? ==> Highest(checkpoints) == next && old(checkpoints) <= checkpoints
    {
      var current := Current();
      if current.Err? { return Err(current.error); }
      if next < current.value { return Err(CursorRegressed); }
      if next != current.value {
        HighestOfAppend(checkpoints, next);
        checkpoints := checkpoints + [next];
      }
      r := Ok(());
    }

    // Store a page's decisions in order, stopping at the first that cannot be stored.
    method StoreAll(data: seq<Signed>) returns (r: Result<nat, PollError>)
      requires Valid()
      modifies this`inbox
      ensures Valid() && old(inbox) <= inbox <= old(inbox) + Items(data)
      ensures r.Ok? <==> Items(data) !! torn
      ensures r.Ok? ==> inbox == old(inbox) + Items(data) && r.value == |inbox| - |old(inbox)|
    {
      var stored, i := 0, 0;
      assert Items(data[..0]) == {};
      hide Items;
      while i < |data|
        invariant 0 <= i <= |data| && Valid()
        invariant Items(data[..i]) <= Items(data)
        invariant inbox == old(inbox) + Items(data[..i])
        invariant stored == |inbox| - |old(inbox)|
        invariant Items(data[..i]) !! torn
      {
        ItemsOfPrefix(data, i);
        CardinalityOfAdd(inbox, data[i]);
        var put := Put(data[i]);
        if put.Err? { return Err(put.error); }
        stored := stored + if put.value then 1 else 0;
        i := i + 1;
      }
      assert data[..i] == data;
      r := Ok(stored);
    }

    // One uninterrupted poll of a relay that answers with the given page. The cursor moves only
    // when every decision of the page is stored; a failed poll keeps what it stored.
    method PollDecisions(page: Page) returns (r: Result<(nat, nat, nat), PollError>)
      requires Valid()
      modifies this`inbox, this`checkpoints
      ensures Valid() && old(inbox) <= inbox <= old(inbox) + Items(page.data) && old(checkpoints) <= checkpoints
      ensures r.Ok? <==>
                && !checkpointTorn
                && |page.data| <= 100
                && (forall i, j :: 0 <= i < j < |page.data| ==> page.data[i] != page.data[j])
                && page.next == Highest(old(checkpoints)) + |page.data| < 1_000_000_000_000_000_000
                && Items(page.data) !! torn
      ensures r.Ok? ==>
                && inbox == old(inbox) + Items(page.data)
                && Highest(checkpoints) == page.next
                && r.value == (|page.data|, |inbox| - |old(inbox)|, page.next)
      ensures r.Err? ==> checkpoints == old(checkpoints)
    {
      var current := Current();
      if current.Err? { return Err(current.error); }
      CheckedPagesAreGapless([], current.value, page);
      var checked := CheckPage(current.value, page);
      if checked.Err? { return Err(checked.error); }
      hide CheckPage, PageParses, Highest, Items;
      var stored := StoreAll(page.data);
      if stored.Err? { return Err(stored.error); }
      var advanced := Advance(page.next);
      if advanced.Err? { return Err(advanced.error); }
      r := Ok((|page.data|, stored.value, page.next));
    }
  }
}
