// The scheduling state of trigger runs. Times are microseconds; a run holds the lease, so runs
// are serial, and a process may die right after it has marked its attempt.
module Triggers {
  import opened Wrappers

  datatype Status = Running | Failed | Completed
  datatype Attempt = Attempt(at: int, digest: string, status: Status)
  datatype Success = Success(at: int, digest: string)

  datatype State = State(attempt: Option<Attempt>, success: Option<Success>)

  datatype Reason = RetryCooldown | Initial | RetryDue | MaterialChanged | PeriodicRefresh | Unchanged
  datatype Decision = Decision(shouldRun: bool, reason: Reason)

  datatype Intervals = Intervals(refresh: int, retry: int)

  const SECOND := 1_000_000

  predicate IntervalsOk(p: Intervals) {
    p.refresh >= 3600 * SECOND && p.retry >= 900 * SECOND
  }

  const Fresh := State(None, None)

  // An unfinished or failed attempt on the same material, no older than the last success.
  predicate InCooldown(s: State, digest: string, now: int, p: Intervals) {
    && s.attempt.Some?
    && s.attempt.value.digest == digest
    && s.attempt.value.status != Completed
    && now - s.attempt.value.at < p.retry
    && (s.success.Some? ==> s.attempt.value.at >= s.success.value.at)
  }

  function Assess(s: State, digest: string, now: int, p: Intervals): Decision {
    if InCooldown(s, digest, now, p) then Decision(false, RetryCooldown)
    else if s.success.None? then
      Decision(true, if s.attempt.None? then Initial else if s.attempt.value.digest == digest then RetryDue else MaterialChanged)
    else if s.success.value.digest != digest then Decision(true, MaterialChanged)
    else if now - s.success.value.at >= p.refresh then Decision(true, PeriodicRefresh)
    else Decision(false, Unchanged)
  }

  function Marked(s: State, digest: string, now: int, status: Status): State {
    State(Some(Attempt(now, digest, status)), if status == Completed then Some(Success(now, digest)) else s.success)
  }

  // How a run that was due ends: the process dies after marking, or marks a failure or success.
  datatype Ending = Dies | Fails | Completes

  datatype Cycle = Cycle(digest: string, assessedAt: int, attemptedAt: int, endedAt: int, ending: Ending)

  function AfterCycle(s: State, c: Cycle, p: Intervals): State {
    if !Assess(s, c.digest, c.assessedAt, p).shouldRun then s
    else
      var running := Marked(s, c.digest, c.attemptedAt, Running);
      match c.ending
      case Dies => running
      case Fails => Marked(running, c.digest, c.endedAt, Failed)
      case Completes => Marked(running, c.digest, c.endedAt, Completed)
  }

  class TriggerStateStore {
    const intervals: Intervals
    var state: State
    var leased: bool

    constructor (refreshSeconds: int, retrySeconds: int)
      requires refreshSeconds >= 3600 && retrySeconds >= 900
      ensures intervals == Intervals(refreshSeconds * 1_000_000, retrySeconds * 1_000_000) && IntervalsOk(intervals)
      ensures state == Fresh && !leased
    {
      intervals := Intervals(refreshSeconds * SECOND, retrySeconds * SECOND);
      state := Fresh;
      leased := false;
    }

    // Without the lease nothing is assessed or marked.
    method AssessMaterial(digest: string, now: int) returns (r: Option<Decision>)
      ensures r == if leased then Some(Assess(state, digest, now, intervals)) else None
    {
      if !leased { return None; }
      var s := state;
      if s.attempt.Some? && s.attempt.value.digest == digest && s.attempt.value.status != Completed
         && now - s.attempt.value.at < intervals.retry
         && (s.success.None? || s.attempt.value.at >= s.success.value.at) {
        return Some(Decision(false, RetryCooldown));
      }
      if s.success.None? {
        var reason := MaterialChanged;
        if s.attempt.None? { reason := Initial; } else if s.attempt.value.digest == digest { reason := RetryDue; }
        return Some(Decision(true, reason));
      }
      if s.success.value.digest != digest { return Some(Decision(true, MaterialChanged)); }
      if now - s.success.value.at >= intervals.refresh { return Some(Decision(true, PeriodicRefresh)); }
      r := Some(Decision(false, Unchanged));
    }

    method Mark(digest: string, now: int, status: Status) returns (ok: bool)
      modifies this`state
      ensures ok == leased
      ensures state == if leased then Marked(old(state), digest, now, status) else old(state)
    {
      if !leased { return false; }
      var attempt := Attempt(now, digest, status);
      if status == Completed {
        state := state.(attempt := Some(attempt), success := Some(Success(now, digest)));
      } else {
        state := state.(attempt := Some(attempt));
      }
      ok := true;
    }

    // One scheduled run: lease, assess, mark, work, mark again.
    method RunOnce(c: Cycle) returns (ran: bool)
      requires !leased
      modifies this`state, this`leased
      ensures !leased
      ensures ran == Assess(old(state), c.digest, c.assessedAt, intervals).shouldRun
      ensures state == AfterCycle(old(state), c, intervals)
    {
      leased := true;
      var decision := AssessMaterial(c.digest, c.assessedAt);
      ran := decision.value.shouldRun;
      if ran {
        var _ := Mark(c.digest, c.attemptedAt, Running);
        if c.ending == Fails {
          var _ := Mark(c.digest, c.endedAt, Failed);
        } else if c.ending == Completes {
          var _ := Mark(c.digest, c.endedAt, Completed);
        }
      }
      leased := false;
    }
  }
}
