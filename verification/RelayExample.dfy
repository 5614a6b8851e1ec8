// A run in which the delivery report overtakes the storing of its message id.
module RelayExample {
  import opened Relay
  import opened RelaySafety
  import opened Wrappers

  const FINE := Environment(Healthy, false, MONTH, 0, None)

  function Answering(message: string): Environment {
    FINE.(answer := Some(SentAccepted(message)))
  }

  const MONTH: MonthKey := "2026-07"

  // Select, insert and claim; then count and send, up to the statement that stores the message id.
  function ClaimedBy(event: Event): seq<Action> {
    [Submit(event), Advance(0, FINE), Advance(0, FINE), Advance(0, FINE)]
  }

  function Sent(event: Event, message: string): seq<Action> {
    ClaimedBy(event) + [Advance(0, FINE), Advance(0, Answering(message))]
  }

  function Overtaken(event: Event, message: string, webhook: string, delivered: bool): seq<Action> {
    Sent(event, message) + [Finalise(webhook, ProviderMessage(message), delivered), Advance(0, FINE)]
  }

  lemma RunStep(actions: seq<Action>, a: Action)
    ensures Run(Empty, actions + [a]) == Step(Run(Empty, actions), a)
  {
    assert (actions + [a])[..|actions|] == actions;
  }

  function WorldAt(event: Event, delivery: DeliveryState, q: Request): World {
    Empty.(events := map[event := NewRow.(delivery := delivery)], requests := [q])
  }

  lemma ReachesInserted(event: Event)
    ensures Run(Empty, ClaimedBy(event)[..3]) == WorldAt(event, Pending, Claiming(event, false))
  {
    var run := ClaimedBy(event);
    assert run[..1] == [] + [run[0]] && run[..2] == run[..1] + [run[1]] && run[..3] == run[..2] + [run[2]];
    RunStep([], run[0]);
    RunStep(run[..1], run[1]);
    RunStep(run[..2], run[2]);
    assert Run(Empty, []) == Empty;
    hide Run;
    assert Run(Empty, run[..1]) == Empty.(requests := [Selecting(event)]);
    assert Run(Empty, run[..2]) == Empty.(requests := [Inserting(event)]);
  }

  lemma ReachesClaimed(event: Event)
    ensures Run(Empty, ClaimedBy(event)) == WorldAt(event, Claimed, Counting(event, false, MONTH))
  {
    var run := ClaimedBy(event);
    ReachesInserted(event);
    RunStep(run[..3], run[3]);
    assert run[..3] + [run[3]] == run;
    hide Run;
  }

  lemma ReachesStoring(event: Event, message: string)
    ensures var w := Run(Empty, Sent(event, message));
            w.requests == [Storing(event, false, message)] && w.webhooks == {}
  {
    var run := ClaimedBy(event);
    ReachesClaimed(event);
    RunStep(run, Advance(0, FINE));
    RunStep(run + [Advance(0, FINE)], Advance(0, Answering(message)));
    assert Sent(event, message) == run + [Advance(0, FINE)] + [Advance(0, Answering(message))];
    hide Run;
    assert Run(Empty, run + [Advance(0, FINE)]).requests == [Sending(event, false, MONTH)];
    assert Run(Empty, run + [Advance(0, FINE)]).webhooks == {};
  }

  // The event ends accepted with its message id stored, its webhook is used up, and the report
  // has left no trace, however often it is repeated.
  lemma ReportIsLost(event: Event, message: string, webhook: string, delivered: bool)
    ensures var w := Run(Empty, Overtaken(event, message, webhook, delivered));
            && event in w.events && w.events[event].delivery == Accepted && w.events[event].finalStatus == NoStatus
            && w.events[event].messageId == Some(ProviderMessage(message))
            && FinaliseStep(w, webhook, ProviderMessage(message), delivered) == w
  {
    ReachesStoring(event, message);
    EveryRunIsSafe(Sent(event, message));
    var run := Sent(event, message);
    var report, store := Finalise(webhook, ProviderMessage(message), delivered), Advance(0, FINE);
    RunStep(run, report);
    RunStep(run + [report], store);
    assert run + [report] + [store] == Overtaken(event, message, webhook, delivered);
    var w := Run(Empty, run);
    hide Run;
    assert HolderOk(w, w.requests[0]) && RowOk(w, event);
    EarlyReportIsLost(w, 0, event, false, message, webhook, delivered, FINE);
  }
}
