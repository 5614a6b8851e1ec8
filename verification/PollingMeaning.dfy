// What one poll comes to when nothing disturbs it, and what a crash or another poll can change.
module PollingMeaning {
  import opened Polling
  import opened PollingRuns
  import opened Wrappers

  // ----- An undisturbed poll -----

  // The poll at p takes n steps.
  function Onward(w: World, p: nat, n: nat): World
    decreases n
  {
    if n == 0 then w else Onward(Step(w, Advance(p)), p, n - 1)
  }

  function Repeat(a: Action, n: nat): seq<Action> {
    if n == 0 then [] else Repeat(a, n - 1) + [a]
  }

  lemma {:induction false} OnwardLast(w: World, p: nat, n: nat)
    requires n > 0
    ensures Onward(w, p, n) == Step(Onward(w, p, n - 1), Advance(p))
    decreases n
  {
    hide Step;
    if n > 1 { OnwardLast(Step(w, Advance(p)), p, n - 1); }
  }

  lemma {:induction false} RunIsOnward(actions: seq<Action>, p: nat, n: nat)
    ensures Run(Empty, actions + Repeat(Advance(p), n)) == Onward(Run(Empty, actions), p, n)
  {
    hide Step;
    if n == 0 {
      assert actions + [] == actions;
    } else {
      var all := actions + Repeat(Advance(p), n);
      RunIsOnward(actions, p, n - 1);
      OnwardLast(Run(Empty, actions), p, n);
      assert all[..|all| - 1] == actions + Repeat(Advance(p), n - 1);
    }
  }

  lemma {:induction false} EndedStays(w: World, p: nat, n: nat)
    requires p < |w.polls| && (w.polls[p].Completed? || w.polls[p].Stopped?)
    ensures Onward(w, p, n) == w
    decreases n
  {
    if n > 0 { EndedStays(w, p, n - 1); }
  }

  lemma ItemsOfFirst(data: seq<Signed>, at: nat, k: nat)
    requires at < k <= |data|
    ensures Items(data[at..k]) == {data[at]} + Items(data[at + 1..k])
  {
    assert data[at..k] == [data[at]] + data[at + 1..k];
  }

  // The poll at p, at the decision k of its page, with these files in the inbox.
  function StoringIn(w: World, p: nat, inbox: set<Signed>, page: Page, k: nat, stored: nat): World
    requires p < |w.polls|
  {
    w.(inbox := inbox, polls := w.polls[p := Storing(page, k, stored)])
  }

  lemma StoreOne(w: World, p: nat, page: Page, at: nat, stored: nat)
    requires p < |w.polls| && w.polls[p] == Storing(page, at, stored) && at < |page.data| && page.data[at] !in w.torn
    ensures var inbox := w.inbox + {page.data[at]};
            |inbox| >= |w.inbox| && Step(w, Advance(p)) == StoringIn(w, p, inbox, page, at + 1, stored + |inbox| - |w.inbox|)
  {
    CardinalityOfAdd(w.inbox, page.data[at]);
  }

  lemma StoringIs(w: World, p: nat, inbox: set<Signed>, page: Page, k: nat, stored: nat)
    requires p < |w.polls|
    ensures var next := StoringIn(w, p, inbox, page, k, stored);
            |next.polls| == |w.polls| && next.polls[p] == Storing(page, k, stored) && next.inbox == inbox && next.torn == w.torn
  {
  }

  lemma StoringTwice(w: World, p: nat, a: set<Signed>, b: set<Signed>, page: Page, i: nat, j: nat, s: nat, t: nat)
    requires p < |w.polls|
    ensures StoringIn(StoringIn(w, p, a, page, i, s), p, b, page, j, t) == StoringIn(w, p, b, page, j, t)
  {
    assert w.polls[p := Storing(page, i, s)][p := Storing(page, j, t)] == w.polls[p := Storing(page, j, t)];
  }

  lemma StoresNothing(w: World, p: nat, page: Page, at: nat, stored: nat)
    requires p < |w.polls| && w.polls[p] == Storing(page, at, stored) && at <= |page.data|
    ensures w.inbox + Items(page.data[at..at]) == w.inbox && StoringIn(w, p, w.inbox, page, at, stored) == w
  {
    assert Items(page.data[at..at]) == {};
    assert w.polls[p := w.polls[p]] == w.polls;
  }

  // From one decision to another the poll stores what lies between them.
  lemma {:induction false} StoresUpTo(w: World, p: nat, page: Page, at: nat, k: nat, stored: nat)
    requires p < |w.polls| && w.polls[p] == Storing(page, at, stored) && at <= k <= |page.data|
    requires forall i :: at <= i < k ==> page.data[i] !in w.torn
    ensures var inbox := w.inbox + Items(page.data[at..k]);
            |inbox| >= |w.inbox| && Onward(w, p, k - at) == StoringIn(w, p, inbox, page, k, stored + |inbox| - |w.inbox|)
    decreases k - at, 1
  {
    hide Step, Items;
    if at == k {
      StoresNothing(w, p, page, at, stored);
    } else {
      StoreOne(w, p, page, at, stored);
      OneStep(w, p, k - at - 1);
      hide Onward;
      StoresOneMore(w, p, page, at, k, stored);
    }
  }

  lemma {:induction false} StoresOneMore(w: World, p: nat, page: Page, at: nat, k: nat, stored: nat)
    requires p < |w.polls| && at < k <= |page.data|
    requires forall i :: at <= i < k ==> page.data[i] !in w.torn
    ensures var one, all := w.inbox + {page.data[at]}, w.inbox + Items(page.data[at..k]);
            && |w.inbox| <= |one| <= |all|
            && Onward(StoringIn(w, p, one, page, at + 1, stored + |one| - |w.inbox|), p, k - at - 1) ==
               StoringIn(w, p, all, page, k, stored + |all| - |w.inbox|)
    decreases k - at, 0
  {
    hide Step, Items, Onward, StoringIn;
    CardinalityOfAdd(w.inbox, page.data[at]);
    ItemsOfFirst(page.data, at, k);
    StoringIs(w, p, w.inbox + {page.data[at]}, page, at + 1, stored + |w.inbox + {page.data[at]}| - |w.inbox|);
    var one, all := w.inbox + {page.data[at]}, w.inbox + Items(page.data[at..k]);
    var counted := stored + |one| - |w.inbox|;
    var next := StoringIn(w, p, one, page, at + 1, counted);
    StoresUpTo(next, p, page, at + 1, k, counted);
    assert one + Items(page.data[at + 1..k]) == all;
    StoringTwice(w, p, one, all, page, at + 1, k, counted, stored + |all| - |w.inbox|);
  }

  lemma {:induction false} OnwardTwice(w: World, p: nat, m: nat, n: nat)
    ensures Onward(w, p, m + n) == Onward(Onward(w, p, m), p, n)
    decreases m
  {
    hide Step;
    if m > 0 { OnwardTwice(Step(w, Advance(p)), p, m - 1, n); }
  }

  // What the poll comes to at the first torn file, or at the end of the page.
  function PollEnds(w: World, p: nat, inbox: set<Signed>, page: Page, k: nat, stored: nat): World
    requires p < |w.polls|
  {
    if k < |page.data| then w.(inbox := inbox, polls := w.polls[p := Stopped(stored)])
    else w.(inbox := inbox, checkpoints := if page.data == [] then w.checkpoints else w.checkpoints + [page.next],
            polls := w.polls[p := Completed(page, stored)])
  }

  lemma LastStep(w: World, p: nat, inbox: set<Signed>, page: Page, k: nat, stored: nat)
    requires p < |w.polls| && k <= |page.data| && !w.checkpointTorn
    requires page.next == Highest(w.checkpoints) + |page.data| && (k < |page.data| ==> page.data[k] in w.torn)
    ensures Step(StoringIn(w, p, inbox, page, k, stored), Advance(p)) == PollEnds(w, p, inbox, page, k, stored)
  {
    hide Highest;
  }

  // What a page is answered with is stored in order, up to the first torn file; without one the
  // cursor moves to the end of the page, when that is further on.
  lemma FromStoring(w: World, p: nat, page: Page, k: nat)
    requires p < |w.polls| && w.polls[p] == Storing(page, 0, 0) && k <= |page.data| && !w.checkpointTorn
    requires page.next == Highest(w.checkpoints) + |page.data|
    requires (forall i :: 0 <= i < k ==> page.data[i] !in w.torn) && (k < |page.data| ==> page.data[k] in w.torn)
    ensures var inbox := w.inbox + Items(page.data[..k]);
            |inbox| >= |w.inbox| && Onward(w, p, |page.data| + 1) == PollEnds(w, p, inbox, page, k, |inbox| - |w.inbox|)
  {
    hide Highest, Items, Step;
    StoresUpTo(w, p, page, 0, k, 0);
    assert page.data[0..k] == page.data[..k];
    OnwardTwice(w, p, k, |page.data| - k + 1);
    var inbox := w.inbox + Items(page.data[..k]);
    var stored := |inbox| - |w.inbox|;
    var full := StoringIn(w, p, inbox, page, k, stored);
    LastStep(w, p, inbox, page, k, stored);
    OneStep(full, p, |page.data| - k);
    EndedStays(PollEnds(w, p, inbox, page, k, stored), p, |page.data| - k);
  }

  lemma OneStep(w: World, p: nat, n: nat)
    ensures Onward(w, p, n + 1) == Onward(Step(w, Advance(p)), p, n)
  {
  }

  // ----- What the relay answers with -----

  // The next hundred decisions after the cursor, or all that are left.
  predicate IsNext(published: seq<Signed>, cursor: nat, data: seq<Signed>) {
    && |data| <= 100 && cursor + |data| <= |published|
    && (|data| < 100 ==> cursor + |data| == |published|)
    && forall i :: 0 <= i < |data| ==> data[i] == published[cursor + i]
  }

  lemma NextIsPage(published: seq<Signed>, cursor: nat, data: seq<Signed>)
    requires IsNext(published, cursor, data)
    ensures PageAfter(published, cursor) == Page(data, cursor + |data|)
  {
    PagesAreWindows(published, cursor);
    assert PageAfter(published, cursor).data == data;
  }

  // A poll with the files of this world, as one transition. It stops at once when the checkpoint is
  // torn; otherwise it stores the next decisions in their order up to the first whose file is torn,
  // at k, and when there is none it completes and the cursor moves to their end.
  function PolledAlone(w: World, data: seq<Signed>, k: nat): World
    requires k <= |data| && |w.inbox + Items(data[..k])| >= |w.inbox|
  {
    var inbox, next := w.inbox + Items(data[..k]), Highest(w.checkpoints) + |data|;
    var stored := |inbox| - |w.inbox|;
    if w.checkpointTorn then w.(polls := w.polls + [Stopped(0)])
    else if k < |data| then w.(inbox := inbox, polls := w.polls + [Stopped(stored)])
    else w.(inbox := inbox, checkpoints := if data == [] then w.checkpoints else w.checkpoints + [next],
            polls := w.polls + [Completed(Page(data, next), stored)])
  }

  predicate FirstTorn(w: World, data: seq<Signed>, k: nat) {
    k <= |data| && (forall i :: 0 <= i < k ==> data[i] !in w.torn) && (k < |data| ==> data[k] in w.torn)
  }

  // In every run a poll that nothing disturbs is that transition, as long as the relay's next
  // decisions differ and its sequence has not reached the cursor's limit.
  lemma UndisturbedPoll(actions: seq<Action>, data: seq<Signed>, k: nat)
    requires var w := Run(Empty, actions);
             && IsNext(w.published, Highest(w.checkpoints), data) && FirstTorn(w, data, k)
             && (forall i, j :: 0 <= i < j < |data| ==> data[i] != data[j])
             && Highest(w.checkpoints) + |data| < 1_000_000_000_000_000_000
    ensures
      var w := Run(Empty, actions);
      && |w.inbox + Items(data[..k])| >= |w.inbox|
      && Run(Empty, actions + [Start] + Repeat(Advance(|w.polls|), |data| + 2)) == PolledAlone(w, data, k)
  {
    var w := Run(Empty, actions);
    var p := |w.polls|;
    SubsetIsSmaller(w.inbox, w.inbox + Items(data[..k]));
    RunIsOnward(actions + [Start], p, |data| + 2);
    RunStarted(actions);
    hide Run, Repeat, Onward, Items;
    if w.checkpointTorn {
      TornStart(w, data, k);
    } else {
      FromFetching(w, data, k);
    }
  }

  lemma RunStarted(actions: seq<Action>)
    ensures Run(Empty, actions + [Start]) == StartStep(Run(Empty, actions))
  {
    assert (actions + [Start])[..|actions|] == actions;
  }

  lemma TornStart(w: World, data: seq<Signed>, k: nat)
    requires w.checkpointTorn && k <= |data| && |w.inbox + Items(data[..k])| >= |w.inbox|
    ensures Onward(StartStep(w), |w.polls|, |data| + 2) == PolledAlone(w, data, k)
  {
    hide Onward, Items, Highest, Step;
    EndedStays(StartStep(w), |w.polls|, |data| + 2);
  }

  lemma FetchedPage(w: World, data: seq<Signed>)
    requires !w.checkpointTorn && IsNext(w.published, Highest(w.checkpoints), data)
    requires forall i, j :: 0 <= i < j < |data| ==> data[i] != data[j]
    requires Highest(w.checkpoints) + |data| < 1_000_000_000_000_000_000
    ensures Step(StartStep(w), Advance(|w.polls|)) ==
            w.(polls := w.polls + [Storing(Page(data, Highest(w.checkpoints) + |data|), 0, 0)])
  {
    var cursor := Highest(w.checkpoints);
    NextIsPage(w.published, cursor, data);
    CheckedPagesAreGapless([], cursor, Page(data, cursor + |data|));
    hide PageAfter, CheckPage, Highest;
    var started := StartStep(w);
    assert started.polls[|w.polls| := Storing(Page(data, cursor + |data|), 0, 0)]
           == w.polls + [Storing(Page(data, cursor + |data|), 0, 0)];
  }

  lemma FromFetching(w: World, data: seq<Signed>, k: nat)
    requires !w.checkpointTorn && FirstTorn(w, data, k) && |w.inbox + Items(data[..k])| >= |w.inbox|
    requires IsNext(w.published, Highest(w.checkpoints), data)
    requires forall i, j :: 0 <= i < j < |data| ==> data[i] != data[j]
    requires Highest(w.checkpoints) + |data| < 1_000_000_000_000_000_000
    ensures Onward(StartStep(w), |w.polls|, |data| + 2) == PolledAlone(w, data, k)
  {
    hide Highest, Items, Step, IsNext, Onward, StartStep, PollEnds, PolledAlone;
    FetchedPage(w, data);
    var p, page := |w.polls|, Page(data, Highest(w.checkpoints) + |data|);
    var fetched := w.(polls := w.polls + [Storing(page, 0, 0)]);
    OneStep(StartStep(w), p, |data| + 1);
    FromStoring(fetched, p, page, k);
    EndsAlone(w, data, k);
  }

  lemma EndsAlone(w: World, data: seq<Signed>, k: nat)
    requires !w.checkpointTorn && k <= |data| && |w.inbox + Items(data[..k])| >= |w.inbox|
    ensures var page := Page(data, Highest(w.checkpoints) + |data|);
            PollEnds(w.(polls := w.polls + [Storing(page, 0, 0)]), |w.polls|, w.inbox + Items(data[..k]), page, k,
                     |w.inbox + Items(data[..k])| - |w.inbox|) == PolledAlone(w, data, k)
  {
    hide Highest, Items;
    var page := Page(data, Highest(w.checkpoints) + |data|);
    assert forall poll: Poll :: (w.polls + [Storing(page, 0, 0)])[|w.polls| := poll] == w.polls + [poll];
  }

  // ----- Crashes, and other polls in between -----

  // A crash between writes changes no file and no other poll, and a completed poll not at all.
  lemma CrashOutsideWrite(w: World, p: nat)
    requires p < |w.polls|
    ensures var next := Step(w, Crash(p, false));
            && next == w.(polls := next.polls) && |next.polls| == |w.polls|
            && (forall q :: 0 <= q < |w.polls| && q != p ==> next.polls[q] == w.polls[q])
            && next.polls[p] == if w.polls[p].Completed? then w.polls[p] else Stopped(Created(w.polls[p]))
  {
  }

  // A crash inside a write tears exactly the file being created: the inbox item, unless it was there
  // already, or after the last item the checkpoint, unless it would not move.
  lemma CrashInsideWrite(w: World, p: nat)
    requires p < |w.polls| && w.polls[p].Storing? && w.polls[p].at <= |w.polls[p].page.data|
    ensures var next, poll := Step(w, Crash(p, true)), w.polls[p];
            && next.polls == w.polls[p := Stopped(poll.stored)]
            && (next.inbox, next.published, next.checkpoints) == (w.inbox, w.published, w.checkpoints)
            && (poll.at < |poll.page.data| ==>
                  && next.checkpointTorn == w.checkpointTorn
                  && next.torn == w.torn + (if poll.page.data[poll.at] in w.inbox then {} else {poll.page.data[poll.at]}))
            && (poll.at == |poll.page.data| ==>
                  && next.torn == w.torn
                  && next.checkpointTorn == (w.checkpointTorn || Highest(w.checkpoints) < poll.page.next))
  {
  }

  // A poll that has stored its page stops, with the cursor where it is, when another poll has torn
  // the checkpoint or moved it further on; it completes without a new file when the cursor is already
  // at the end of its page.
  lemma OvertakenPolls(w: World, p: nat)
    requires p < |w.polls| && w.polls[p].Storing? && w.polls[p].at == |w.polls[p].page.data|
    ensures var next, poll := Step(w, Advance(p)), w.polls[p];
            && (w.checkpointTorn || poll.page.next < Highest(w.checkpoints) ==>
                  next == w.(polls := w.polls[p := Stopped(poll.stored)]))
            && (!w.checkpointTorn && poll.page.next == Highest(w.checkpoints) ==>
                  next == w.(polls := w.polls[p := Completed(poll.page, poll.stored)]))
            && (!w.checkpointTorn && poll.page.next > Highest(w.checkpoints) ==>
                  next == w.(checkpoints := w.checkpoints + [poll.page.next], polls := w.polls[p := Completed(poll.page, poll.stored)]))
  {
  }
}
