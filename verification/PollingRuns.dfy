// Polling under interleaving and crashes: the relay appends decisions, any number of polls run
// at once, one file operation a step, and each may crash at any point, also inside a write.
module PollingRuns {
  import opened Wrappers
  import opened Polling

  // Where a poll stands; `stored` counts the inbox files it created.
  datatype Poll =
    | Fetching(cursor: nat)
    | Storing(page: Page, at: nat, stored: nat)
    | Completed(page: Page, stored: nat)
    | Stopped(stored: nat)

  datatype World = World(
    published: seq<Signed>, inbox: set<Signed>, torn: set<Signed>, checkpoints: seq<nat>, checkpointTorn: bool,
    polls: seq<Poll>)

  datatype Action = Publish(signed: Signed) | Start | Advance(poll: nat) | Crash(poll: nat, inWrite: bool)

  const Empty := World([], {}, {}, [], false, [])

  function Created(poll: Poll): nat {
    match poll
    case Fetching(_) => 0
    case Storing(_, _, stored) => stored
    case Completed(_, stored) => stored
    case Stopped(stored) => stored
  }

  function SetPoll(w: World, p: nat, poll: Poll): World
    requires p < |w.polls|
  {
    w.(polls := w.polls[p := poll])
  }

  function StartStep(w: World): World {
    w.(polls := w.polls + [if w.checkpointTorn then Stopped(0) else Fetching(Highest(w.checkpoints))])
  }

  function FetchStep(w: World, p: nat, cursor: nat): World
    requires p < |w.polls|
  {
    var checked := CheckPage(cursor, PageAfter(w.published, cursor));
    SetPoll(w, p, if checked.Ok? then Storing(checked.value, 0, 0) else Stopped(0))
  }

  function StoreStep(w: World, p: nat, page: Page, at: nat, stored: nat): World
    requires p < |w.polls| && at < |page.data|
  {
    var item := page.data[at];
    if item in w.torn then SetPoll(w, p, Stopped(stored))
    else SetPoll(w.(inbox := w.inbox + {item}), p, Storing(page, at + 1, stored + if item in w.inbox then 0 else 1))
  }

  function CheckpointStep(w: World, p: nat, page: Page, stored: nat): World
    requires p < |w.polls|
  {
    if w.checkpointTorn || page.next < Highest(w.checkpoints) then SetPoll(w, p, Stopped(stored))
    else if page.next == Highest(w.checkpoints) then SetPoll(w, p, Completed(page, stored))
    else SetPoll(w.(checkpoints := w.checkpoints + [page.next]), p, Completed(page, stored))
  }

  function AdvanceStep(w: World, p: nat): World
    requires p < |w.polls|
  {
    match w.polls[p]
    case Fetching(cursor) => FetchStep(w, p, cursor)
    case Storing(page, at, stored) =>
      if at < |page.data| then StoreStep(w, p, page, at, stored) else CheckpointStep(w, p, page, stored)
    case Completed(_, _) => w
    case Stopped(_) => w
  }

  // A crash leaves a torn file when it falls inside the write of a new one.
  function CrashStep(w: World, p: nat, inWrite: bool): World
    requires p < |w.polls|
  {
    var stopped := SetPoll(w, p, if w.polls[p].Completed? then w.polls[p] else Stopped(Created(w.polls[p])));
    match w.polls[p]
    case Storing(page, at, _) =>
      if !inWrite then stopped
      else if at >= |page.data| then
        (if page.next > Highest(w.checkpoints) then stopped.(checkpointTorn := true) else stopped)
      else if page.data[at] in w.inbox then stopped
      else stopped.(torn := w.torn + {page.data[at]})
    case _ => stopped
  }

  function Step(w: World, a: Action): World {
    match a
    case Publish(signed) => w.(published := w.published + [signed])
    case Start => StartStep(w)
    case Advance(p) => if p < |w.polls| then AdvanceStep(w, p) else w
    case Crash(p, inWrite) => if p < |w.polls| then CrashStep(w, p, inWrite) else w
  }

  function Run(w: World, actions: seq<Action>): World {
    if actions == [] then w else Step(Run(w, actions[..|actions| - 1]), actions[|actions| - 1])
  }

  // The first n decisions of the relay are all stored.
  predicate StoredUpTo(w: World, n: nat) {
    n <= |w.published| && forall i :: 0 <= i < n ==> w.published[i] in w.inbox
  }

  predicate PollOk(w: World, poll: Poll) {
    match poll
    case Fetching(cursor) => StoredUpTo(w, cursor)
    case Storing(page, at, _) =>
      && |page.data| <= page.next <= |w.published| && at <= |page.data|
      && page.data == w.published[page.next - |page.data|..page.next]
      && StoredUpTo(w, page.next - |page.data| + at)
    case Completed(page, _) => StoredUpTo(w, page.next)
    case Stopped(_) => true
  }

  function TotalCreated(polls: seq<Poll>): nat {
    if polls == [] then 0 else TotalCreated(polls[..|polls| - 1]) + Created(polls[|polls| - 1])
  }

  predicate Sound(w: World) {
    && w.inbox !! w.torn
    && (forall c :: c in w.checkpoints ==> StoredUpTo(w, c))
    && (forall p :: 0 <= p < |w.polls| ==> PollOk(w, w.polls[p]))
    && TotalCreated(w.polls) == |w.inbox|
  }

  lemma {:induction false} TotalAfterUpdate(polls: seq<Poll>, p: nat, poll: Poll)
    requires p < |polls|
    ensures TotalCreated(polls[p := poll]) == TotalCreated(polls) - Created(polls[p]) + Created(poll)
  {
    var n := |polls| - 1;
    if p == n {
      assert polls[p := poll][..n] == polls[..n];
    } else {
      TotalAfterUpdate(polls[..n], p, poll);
      assert polls[p := poll][..n] == polls[..n][p := poll];
    }
  }

  lemma PollKept(w: World, next: World, poll: Poll)
    requires PollOk(w, poll) && w.inbox <= next.inbox && w.published <= next.published
    ensures PollOk(next, poll)
  {
    if poll.Storing? {
      var page := poll.page;
      assert next.published[page.next - |page.data|..page.next] == w.published[page.next - |page.data|..page.next];
    }
  }

  lemma OnePollMoves(w: World, next: World, p: nat, poll: Poll)
    requires Sound(w) && p < |w.polls| && next.polls == w.polls[p := poll] && PollOk(next, poll)
    requires w.inbox <= next.inbox && next.published == w.published && next.inbox !! next.torn
    requires forall c :: c in next.checkpoints ==> c in w.checkpoints || StoredUpTo(next, c)
    requires Created(poll) - Created(w.polls[p]) == |next.inbox| - |w.inbox|
    ensures Sound(next)
  {
    TotalAfterUpdate(w.polls, p, poll);
    forall i | 0 <= i < |next.polls| ensures PollOk(next, next.polls[i]) {
      if i != p { PollKept(w, next, w.polls[i]); }
    }
  }

  lemma FetchSound(w: World, p: nat, cursor: nat)
    requires Sound(w) && p < |w.polls| && w.polls[p] == Fetching(cursor)
    ensures Sound(FetchStep(w, p, cursor))
  {
    CheckedPagesAreGapless(w.published, cursor, PageAfter(w.published, cursor));
    var next := FetchStep(w, p, cursor);
    assert PollOk(w, w.polls[p]);
    OnePollMoves(w, next, p, next.polls[p]);
  }

  lemma StoreSound(w: World, p: nat, page: Page, at: nat, stored: nat)
    requires Sound(w) && p < |w.polls| && w.polls[p] == Storing(page, at, stored) && at < |page.data|
    ensures Sound(StoreStep(w, p, page, at, stored))
  {
    var next := StoreStep(w, p, page, at, stored);
    assert PollOk(w, w.polls[p]);
    var start := page.next - |page.data|;
    var item := page.data[at];
    assert item == w.published[start + at];
    CardinalityOfAdd(w.inbox, item);
    assert next.inbox !! next.torn;
    assert item !in w.torn ==> StoredUpTo(next, start + at + 1);
    assert PollOk(next, next.polls[p]);
    hide PollOk, StoredUpTo;
    OnePollMoves(w, next, p, next.polls[p]);
  }

  lemma CheckpointSound(w: World, p: nat, page: Page, stored: nat)
    requires Sound(w) && p < |w.polls| && w.polls[p] == Storing(page, |page.data|, stored)
    ensures Sound(CheckpointStep(w, p, page, stored))
  {
    var next := CheckpointStep(w, p, page, stored);
    assert PollOk(w, w.polls[p]);
    OnePollMoves(w, next, p, next.polls[p]);
  }

  lemma StartSound(w: World)
    requires Sound(w)
    ensures Sound(StartStep(w))
  {
    var next := StartStep(w);
    assert next.polls[..|w.polls|] == w.polls;
    HighestIsMaximum(w.checkpoints);
    forall i | 0 <= i < |next.polls| ensures PollOk(next, next.polls[i]) {
      if i < |w.polls| { PollKept(w, next, w.polls[i]); }
    }
  }

  lemma StepSound(w: World, a: Action)
    requires Sound(w)
    ensures Sound(Step(w, a))
  {
    hide FetchStep, StoreStep, CheckpointStep, StartStep;
    var next := Step(w, a);
    match a
    case Publish(signed) =>
      forall i | 0 <= i < |next.polls| ensures PollOk(next, next.polls[i]) { PollKept(w, next, w.polls[i]); }
    case Start => StartSound(w);
    case Advance(p) =>
      if p < |w.polls| {
        assert PollOk(w, w.polls[p]);
        match w.polls[p]
        case Fetching(cursor) => FetchSound(w, p, cursor);
        case Storing(page, at, stored) =>
          if at < |page.data| { StoreSound(w, p, page, at, stored); } else { CheckpointSound(w, p, page, stored); }
        case _ =>
      }
    case Crash(p, inWrite) =>
      if p < |w.polls| { OnePollMoves(w, next, p, next.polls[p]); }
  }

  lemma {:induction false} EveryRunIsSound(actions: seq<Action>)
    ensures Sound(Run(Empty, actions))
  {
    if actions != [] {
      hide Sound, Step;
      EveryRunIsSound(actions[..|actions| - 1]);
      StepSound(Run(Empty, actions[..|actions| - 1]), actions[|actions| - 1]);
    }
  }

  // Nothing is lost: every decision below the cursor is in the inbox, and the cursor never
  // passes the end of the sequence.
  lemma PollingLosesNothing(actions: seq<Action>, i: nat)
    requires i < Highest(Run(Empty, actions).checkpoints)
    ensures var w := Run(Empty, actions);
            Highest(w.checkpoints) <= |w.published| && w.published[i] in w.inbox
  {
    var w := Run(Empty, actions);
    EveryRunIsSound(actions);
    HighestIsMaximum(w.checkpoints);
    assert StoredUpTo(w, Highest(w.checkpoints));
  }

  // Every inbox file was created by exactly one poll, however often its decision was delivered.
  lemma EachFileIsCreatedOnce(actions: seq<Action>)
    ensures TotalCreated(Run(Empty, actions).polls) == |Run(Empty, actions).inbox|
  {
    EveryRunIsSound(actions);
  }

  // No step moves the cursor back, drops a file or repairs a torn one.
  lemma StepsOnlyAdd(w: World, a: Action)
    ensures var next := Step(w, a);
            && Highest(w.checkpoints) <= Highest(next.checkpoints)
            && w.inbox <= next.inbox && w.torn <= next.torn && w.published <= next.published
  {
    hide CheckPage, PageAfter, Highest;
    match a
    case Advance(p) =>
      if p < |w.polls| && w.polls[p].Storing? { HighestOfAppend(w.checkpoints, w.polls[p].page.next); }
    case _ =>
  }

  // A poll that completes with decisions has moved the cursor past the one it started from, so
  // fewer decisions remain.
  lemma CompletedPollsProgress(w: World, p: nat)
    requires Sound(w) && p < |w.polls| && w.polls[p].Storing? && w.polls[p].page.data != []
    requires Step(w, Advance(p)).polls[p].Completed?
    ensures var next := Step(w, Advance(p));
            var start := w.polls[p].page.next - |w.polls[p].page.data|;
            && Highest(next.checkpoints) == w.polls[p].page.next
            && 0 <= |next.published| - Highest(next.checkpoints) < |next.published| - start
  {
    assert PollOk(w, w.polls[p]);
    HighestOfAppend(w.checkpoints, w.polls[p].page.next);
  }

  // The price of create-only files: a decision whose write was torn by a crash stops the cursor
  // at its place in the sequence for the rest of time.
  lemma {:induction false} TornItemStopsTheCursor(before: seq<Action>, after: seq<Action>, k: nat)
    requires k < |Run(Empty, before).published| && Run(Empty, before).published[k] in Run(Empty, before).torn
    ensures var w := Run(Empty, before + after);
            && k < |w.published| && w.published[k] in w.torn && Highest(w.checkpoints) <= k
    decreases |after|
  {
    if after == [] {
      assert before + after == before;
    } else {
      var last := |after| - 1;
      TornItemStopsTheCursor(before, after[..last], k);
      assert (before + after)[..|before + after| - 1] == before + after[..last];
      StepsOnlyAdd(Run(Empty, before + after[..last]), after[last]);
    }
    var w := Run(Empty, before + after);
    hide Run, Step;
    EveryRunIsSound(before + after);
    TornBoundsCursor(w, k);
  }

  lemma TornBoundsCursor(w: World, k: nat)
    requires Sound(w) && k < |w.published| && w.published[k] in w.torn
    ensures Highest(w.checkpoints) <= k
  {
    HighestIsMaximum(w.checkpoints);
    assert StoredUpTo(w, Highest(w.checkpoints));
  }

  // Such a crash needs one decision and one poll.
  function TearingRun(signed: Signed): seq<Action> {
    [Publish(signed), Start, Advance(0), Crash(0, true)]
  }

  lemma TearingHappens(signed: Signed)
    ensures var w := Run(Empty, TearingRun(signed)); w.published == [signed] && signed in w.torn
  {
    var run := TearingRun(signed);
    var page := Page([signed], 1);
    assert run[..3][..2][..1][..0] == [] && run[..3][..2][..1] == [Publish(signed)];
    assert run[..3][..2] == run[..2] && run[..2][..1] == run[..1];
    assert Run(Empty, run[..1]) == Empty.(published := [signed]);
    assert Run(Empty, run[..2]) == Empty.(published := [signed], polls := [Fetching(0)]);
    assert PageAfter([signed], 0) == page && CheckPage(0, page) == Ok(page);
    assert Run(Empty, run[..3]) == Empty.(published := [signed], polls := [Storing(page, 0, 0)]);
    assert Run(Empty, run) == Step(Run(Empty, run[..3]), Crash(0, true));
  }

  // After it no continuation ever moves the cursor.
  lemma TearingStopsPolling(signed: Signed, after: seq<Action>)
    ensures Highest(Run(Empty, TearingRun(signed) + after).checkpoints) == 0
  {
    TearingHappens(signed);
    TornItemStopsTheCursor(TearingRun(signed), after, 0);
  }
}
