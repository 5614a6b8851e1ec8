// How often trigger runs attempt work, over any sequence of runs.
module TriggerPacing {
  import opened Triggers
  import opened Wrappers

  function Run(cycles: seq<Cycle>, p: Intervals): State {
    if cycles == [] then Fresh else AfterCycle(Run(cycles[..|cycles| - 1], p), cycles[|cycles| - 1], p)
  }

  // An attempt as it was marked.
  datatype Mark = Mark(at: int, digest: string)

  function Attempts(cycles: seq<Cycle>, p: Intervals): seq<Mark> {
    if cycles == [] then [] else
    var before := cycles[..|cycles| - 1];
    var last := cycles[|cycles| - 1];
    Attempts(before, p) +
    if Assess(Run(before, p), last.digest, last.assessedAt, p).shouldRun then [Mark(last.attemptedAt, last.digest)] else []
  }

  // The clock never goes back, within a run or between runs.
  predicate ClockOk(cycles: seq<Cycle>) {
    && (forall i :: 0 <= i < |cycles| ==> cycles[i].assessedAt <= cycles[i].attemptedAt <= cycles[i].endedAt)
    && (forall i, j :: 0 <= i < j < |cycles| ==> cycles[i].endedAt <= cycles[j].assessedAt)
  }

  predicate OneMaterial(cycles: seq<Cycle>, digest: string) {
    forall c :: c in cycles ==> c.digest == digest
  }

  function Shorter(p: Intervals): int {
    if p.refresh <= p.retry then p.refresh else p.retry
  }

  function Longer(p: Intervals): int {
    if p.refresh >= p.retry then p.refresh else p.retry
  }

  // The last recorded event is the attempt's; no success is later, and a completed attempt is the
  // last success.
  predicate Recorded(s: State, latest: int) {
    && (s.attempt.Some? ==> s.attempt.value.at <= latest)
    && (s.success.Some? ==> s.attempt.Some? && s.success.value.at <= s.attempt.value.at)
    && (s.attempt.Some? && s.attempt.value.status == Completed ==>
          s.success == Some(Success(s.attempt.value.at, s.attempt.value.digest)))
  }

  lemma CycleRecorded(s: State, c: Cycle, p: Intervals, latest: int)
    requires Recorded(s, latest)
    requires s.attempt.Some? ==> latest <= c.assessedAt
    requires c.assessedAt <= c.attemptedAt <= c.endedAt
    ensures Recorded(AfterCycle(s, c, p), c.endedAt)
    ensures var next := AfterCycle(s, c, p);
            if Assess(s, c.digest, c.assessedAt, p).shouldRun
            then next.attempt.Some? && c.attemptedAt <= next.attempt.value.at && next.attempt.value.digest == c.digest
            else next == s
  {
  }

  // The last cycle of a run, and what came before it.
  lemma LastCycle(cycles: seq<Cycle>, p: Intervals)
    requires cycles != [] && ClockOk(cycles)
    ensures var n := |cycles| - 1;
            var before, last := cycles[..n], cycles[n];
            && ClockOk(before)
            && last.assessedAt <= last.attemptedAt <= last.endedAt
            && (before != [] ==> before[n - 1].endedAt <= last.assessedAt)
            && Run(cycles, p) == AfterCycle(Run(before, p), last, p)
            && Attempts(cycles, p) == Attempts(before, p) +
                 if Assess(Run(before, p), last.digest, last.assessedAt, p).shouldRun then [Mark(last.attemptedAt, last.digest)] else []
  {
    hide AfterCycle, Assess;
  }

  predicate LastAttemptRecorded(attempts: seq<Mark>, s: State) {
    if attempts == [] then s.attempt.None?
    else
      var last := attempts[|attempts| - 1];
      s.attempt.Some? && last.at <= s.attempt.value.at && last.digest == s.attempt.value.digest
  }

  function Latest(cycles: seq<Cycle>): int {
    if cycles == [] then 0 else cycles[|cycles| - 1].endedAt
  }

  lemma {:induction false} RunIsRecorded(cycles: seq<Cycle>, p: Intervals)
    requires ClockOk(cycles)
    ensures Recorded(Run(cycles, p), Latest(cycles))
    ensures cycles == [] ==> Run(cycles, p) == Fresh
    ensures LastAttemptRecorded(Attempts(cycles, p), Run(cycles, p))
  {
    if cycles != [] {
      hide Run, Attempts, AfterCycle, Assess, ClockOk, Recorded;
      var n := |cycles| - 1;
      LastCycle(cycles, p);
      RunIsRecorded(cycles[..n], p);
      CycleRecorded(Run(cycles[..n], p), cycles[n], p, Latest(cycles[..n]));
    }
  }

  // On the material of the last attempt a run is only ever due after the shorter interval since
  // the last recorded event; on any material it is due after the longer one.
  lemma DueBetweenTheIntervals(s: State, digest: string, latest: int, now: int, p: Intervals)
    requires Recorded(s, latest) && s.attempt.Some?
    ensures digest == s.attempt.value.digest && Assess(s, digest, now, p).shouldRun ==> now - s.attempt.value.at >= Shorter(p)
    ensures now - s.attempt.value.at >= Longer(p) ==> Assess(s, digest, now, p).shouldRun
  {
  }

  predicate Gaps(a: seq<Mark>, gap: int) {
    forall k :: 0 < k < |a| && a[k].digest == a[k - 1].digest ==> a[k].at - a[k - 1].at >= gap
  }

  lemma {:induction false} GapsAtLeast(cycles: seq<Cycle>, p: Intervals)
    requires ClockOk(cycles)
    ensures Gaps(Attempts(cycles, p), Shorter(p))
  {
    if cycles != [] {
      hide Run, Attempts, AfterCycle, Assess, ClockOk, Recorded, Shorter;
      var n := |cycles| - 1;
      LastCycle(cycles, p);
      GapsAtLeast(cycles[..n], p);
      RunIsRecorded(cycles[..n], p);
      var s := Run(cycles[..n], p);
      if s.attempt.Some? { DueBetweenTheIntervals(s, cycles[n].digest, Latest(cycles[..n]), cycles[n].assessedAt, p); }
    } else {
      assert Attempts(cycles, p) == [];
    }
  }

  // Consecutive attempts on the same material are at least the shorter interval apart in any run,
  // whatever other material is assessed between them, and even when every process dies right after
  // marking its attempt.
  lemma AttemptsArePaced(cycles: seq<Cycle>, p: Intervals, k: nat)
    requires IntervalsOk(p) && ClockOk(cycles) && 0 < k < |Attempts(cycles, p)|
    requires Attempts(cycles, p)[k].digest == Attempts(cycles, p)[k - 1].digest
    ensures Attempts(cycles, p)[k].at - Attempts(cycles, p)[k - 1].at >= Shorter(p)
  {
    GapsAtLeast(cycles, p);
  }

  // A stretch of attempts on one material.
  predicate SameMaterial(a: seq<Mark>, i: nat, j: nat)
    requires i <= j < |a|
  {
    forall k :: i <= k <= j ==> a[k].digest == a[i].digest
  }

  lemma {:induction false} GapsAddUp(a: seq<Mark>, gap: int, i: nat, j: nat)
    requires i <= j < |a| && Gaps(a, gap) && SameMaterial(a, i, j)
    ensures a[j].at - a[i].at >= (j - i) * gap
    decreases j
  {
    if i < j {
      GapsAddUp(a, gap, i, j - 1);
      assert (j - i) * gap == (j - 1 - i) * gap + gap;
    }
  }

  // So a span of length w holds at most 1 + w / shorter attempts in a row on one material.
  lemma AttemptsInASpan(cycles: seq<Cycle>, p: Intervals, i: nat, j: nat, w: nat)
    requires IntervalsOk(p) && ClockOk(cycles)
    requires i <= j < |Attempts(cycles, p)| && SameMaterial(Attempts(cycles, p), i, j)
    requires Attempts(cycles, p)[j].at - Attempts(cycles, p)[i].at <= w
    ensures j - i + 1 <= 1 + w / Shorter(p)
  {
    var gap := Shorter(p);
    GapsAtLeast(cycles, p);
    GapsAddUp(Attempts(cycles, p), gap, i, j);
    hide Attempts, ClockOk, Gaps, SameMaterial;
    DivideSpan(j - i, gap, w);
  }

  lemma DivideSpan(n: nat, gap: int, w: nat)
    requires gap > 0 && n * gap <= w
    ensures n <= w / gap
  {
    var q := w / gap;
    assert w < (q + 1) * gap;
    SmallerFactor(n, q + 1, gap);
  }

  lemma SmallerFactor(a: int, b: int, gap: int)
    requires gap > 0 && a * gap < b * gap
    ensures a < b
  {
    assert (b - a) * gap == b * gap - a * gap;
  }

  // A run is due at the latest when the longer interval has passed since the last recorded event,
  // whatever the material.
  lemma NeverStarves(cycles: seq<Cycle>, p: Intervals, digest: string, now: int)
    requires IntervalsOk(p) && ClockOk(cycles)
    requires Run(cycles, p).attempt.Some? ==> now - Run(cycles, p).attempt.value.at >= Longer(p)
    ensures Assess(Run(cycles, p), digest, now, p).shouldRun
  {
    RunIsRecorded(cycles, p);
  }

  // ----- When a run is due -----

  lemma RunAppended(cycles: seq<Cycle>, c: Cycle, p: Intervals)
    ensures Run(cycles + [c], p) == AfterCycle(Run(cycles, p), c, p)
  {
    hide AfterCycle;
    assert (cycles + [c])[..|cycles|] == cycles;
  }

  // The same material is due again exactly one refresh interval after its run completed, and one
  // retry interval after its run failed, or after the attempt of a process that died.
  lemma SameMaterialDueExactly(cycles: seq<Cycle>, c: Cycle, p: Intervals, now: int)
    requires ClockOk(cycles + [c]) && c.endedAt <= now
    requires Assess(Run(cycles, p), c.digest, c.assessedAt, p).shouldRun
    ensures
      var next := Assess(Run(cycles + [c], p), c.digest, now, p);
      && (c.ending == Completes ==>
            next == (if now - c.endedAt >= p.refresh then Decision(true, PeriodicRefresh) else Decision(false, Unchanged)))
      && (c.ending == Fails ==>
            if now - c.endedAt >= p.retry then next.shouldRun else next == Decision(false, RetryCooldown))
      && (c.ending == Dies ==>
            if now - c.attemptedAt >= p.retry then next.shouldRun else next == Decision(false, RetryCooldown))
  {
    LastCycle(cycles + [c], p);
    assert (cycles + [c])[..|cycles|] == cycles;
    RunIsRecorded(cycles, p);
    hide Run, ClockOk;
  }

  // The last run that completed.
  function LastCompleted(cycles: seq<Cycle>, p: Intervals): Option<Mark> {
    if cycles == [] then None
    else
      var before, last := cycles[..|cycles| - 1], cycles[|cycles| - 1];
      if last.ending == Completes && Assess(Run(before, p), last.digest, last.assessedAt, p).shouldRun
      then Some(Mark(last.endedAt, last.digest)) else LastCompleted(before, p)
  }

  lemma {:induction false} SuccessIsLastCompleted(cycles: seq<Cycle>, p: Intervals)
    ensures Run(cycles, p).success ==
            match LastCompleted(cycles, p) case None => None case Some(mark) => Some(Success(mark.at, mark.digest))
  {
    hide Assess;
    if cycles != [] { SuccessIsLastCompleted(cycles[..|cycles| - 1], p); }
  }

  // Any other material than the last attempted is due at once, unless it is what completed last:
  // then it is due from one refresh interval after that on.
  lemma OtherMaterialDueExactly(cycles: seq<Cycle>, p: Intervals, digest: string, now: int)
    requires var attempts := Attempts(cycles, p); attempts != [] ==> attempts[|attempts| - 1].digest != digest
    requires ClockOk(cycles)
    ensures
      var done := LastCompleted(cycles, p);
      Assess(Run(cycles, p), digest, now, p) ==
      if done.None? then Decision(true, if Attempts(cycles, p) == [] then Initial else MaterialChanged)
      else if done.value.digest != digest then Decision(true, MaterialChanged)
      else if now - done.value.at >= p.refresh then Decision(true, PeriodicRefresh)
      else Decision(false, Unchanged)
  {
    RunIsRecorded(cycles, p);
    SuccessIsLastCompleted(cycles, p);
    hide Run, Attempts, LastCompleted, ClockOk;
  }

  // When the material never changes, all attempts are on it, so all of them are paced.
  lemma {:induction false} AttemptsOnOneMaterial(cycles: seq<Cycle>, p: Intervals, digest: string)
    requires OneMaterial(cycles, digest)
    ensures forall k :: 0 <= k < |Attempts(cycles, p)| ==> Attempts(cycles, p)[k].digest == digest
  {
    if cycles != [] {
      var n := |cycles| - 1;
      assert forall c :: c in cycles[..n] ==> c in cycles;
      assert cycles[n] in cycles;
      hide Assess, Run;
      AttemptsOnOneMaterial(cycles[..n], p, digest);
    }
  }

  // So with constant material the bound holds for all attempts within any span.
  lemma ConstantMaterialIsPaced(cycles: seq<Cycle>, p: Intervals, digest: string, i: nat, j: nat, w: nat)
    requires IntervalsOk(p) && ClockOk(cycles) && OneMaterial(cycles, digest)
    requires i <= j < |Attempts(cycles, p)| && Attempts(cycles, p)[j].at - Attempts(cycles, p)[i].at <= w
    ensures j - i + 1 <= 1 + w / Shorter(p)
  {
    AttemptsOnOneMaterial(cycles, p, digest);
    hide Attempts, ClockOk, OneMaterial;
    AttemptsInASpan(cycles, p, i, j, w);
  }

  // Pacing is per material: two digests that alternate are attempted as often as they are
  // assessed, whatever the intervals, while no attempt completes.
  function Alternating(first: string, second: string, n: nat, at: int): seq<Cycle> {
    if n == 0 then [] else
    Alternating(first, second, n - 1, at) + [Cycle(if n % 2 == 0 then second else first, at, at, at, Fails)]
  }

  lemma {:induction false} AlternatingMaterialIsNotPaced(first: string, second: string, n: nat, at: int, p: Intervals)
    requires first != second
    ensures |Attempts(Alternating(first, second, n, at), p)| == n
    ensures Run(Alternating(first, second, n, at), p) ==
            if n == 0 then Fresh else State(Some(Attempt(at, if n % 2 == 0 then second else first, Failed)), None)
  {
    hide Alternating, Assess, AfterCycle, Run, Attempts;
    if n > 0 {
      AlternatingMaterialIsNotPaced(first, second, n - 1, at, p);
      AlternatingStep(first, second, n, at, p);
      OtherMaterialIsDue(if n % 2 == 0 then first else second, if n % 2 == 0 then second else first, n - 1, at, p);
    } else {
      assert Alternating(first, second, n, at) == [] by { NothingAlternates(first, second, at); }
      NothingRuns(p);
    }
  }

  lemma NothingAlternates(first: string, second: string, at: int)
    ensures Alternating(first, second, 0, at) == []
  {
  }

  lemma NothingRuns(p: Intervals)
    ensures Run([], p) == Fresh && Attempts([], p) == []
  {
  }

  // Nothing done yet, or the last attempt failed on other material: due at once.
  lemma OtherMaterialIsDue(before: string, digest: string, done: nat, at: int, p: Intervals)
    requires before != digest
    ensures var s := if done == 0 then Fresh else State(Some(Attempt(at, before, Failed)), None);
            && Assess(s, digest, at, p).shouldRun
            && AfterCycle(s, Cycle(digest, at, at, at, Fails), p) == State(Some(Attempt(at, digest, Failed)), None)
  {
  }

  lemma AlternatingStep(first: string, second: string, n: nat, at: int, p: Intervals)
    requires n > 0 && first != second
    ensures var before, cycles := Alternating(first, second, n - 1, at), Alternating(first, second, n, at);
            var last := Cycle(if n % 2 == 0 then second else first, at, at, at, Fails);
            && Run(cycles, p) == AfterCycle(Run(before, p), last, p)
            && |Attempts(cycles, p)| == |Attempts(before, p)| + if Assess(Run(before, p), last.digest, at, p).shouldRun then 1 else 0
  {
    hide AfterCycle, Assess;
    var cycles := Alternating(first, second, n, at);
    assert cycles[..|cycles| - 1] == Alternating(first, second, n - 1, at);
  }
}
