// Publication over any run of lock-protected promotions, each of which may die at any point.
module PromotionRuns {
  import opened Approval
  import ApprovalRuns
  import opened Authority
  import opened Bits
  import opened Promotion
  import opened PromotionChain
  import opened Wrappers

  datatype Attempt = Attempt(inputs: Inputs, candidateDigest: Digest, targetsUnderLock: Targets, death: Death)

  const Empty := Files([], map[], false)

  function Run(runs: seq<Attempt>): Files
    ensures ReceiptsParse(Run(runs).receipts)
  {
    if runs == [] then Empty else
    var last := runs[|runs| - 1];
    Promoted(Run(runs[..|runs| - 1]), last.inputs, last.candidateDigest, last.targetsUnderLock, last.death).0
  }

  predicate ReceiptOk(f: Files, r: Receipt) {
    && r.bound.BoundCandidate?
    && r.candidateDigest == r.bound.candidateDigest
    && r.candidateDigest.OfCandidate? && r.bound == BoundOf(r.candidateDigest.candidate)
    && r.destination == r.bound.scope.destination
    && (r.destination, r.bound.artifactDigest) in f.seeds
  }

  // One receipt per candidate and per published artifact, every receipt's seed visible, and every
  // seed's bytes hash to its name and decode strictly.
  predicate Sound(f: Files) {
    && (forall i, j :: 0 <= i < j < |f.receipts| ==> f.receipts[i].candidateDigest != f.receipts[j].candidateDigest)
    && (forall i, j :: 0 <= i < j < |f.receipts| && f.receipts[i].destination == f.receipts[j].destination
                       && f.receipts[i].bound.BoundCandidate? && f.receipts[j].bound.BoundCandidate? ==>
          f.receipts[i].bound.artifactDigest != f.receipts[j].bound.artifactDigest)
    && (forall r :: r in f.receipts ==> ReceiptOk(f, r))
    && (forall name :: name in f.seeds ==> OfPayload(f.seeds[name]) == name.1)
  }

  lemma {:induction false} SettledExact(receipts: seq<Receipt>, cleared: Cleared)
    requires ReceiptsParse(receipts)
    ensures Settled(receipts, cleared).None? <==>
              forall r :: r in receipts ==> r.candidateDigest != cleared.candidateDigest && !SameArtifact(r, cleared)
    ensures Settled(receipts, cleared).Some? && Settled(receipts, cleared).value.Ok? ==>
              && Settled(receipts, cleared).value.value in receipts
              && Settled(receipts, cleared).value.value.candidateDigest == cleared.candidateDigest
  {
    if receipts != [] {
      SettledExact(receipts[1..], cleared);
      assert receipts == [receipts[0]] + receipts[1..];
    }
  }

  // Cleared bytes hash to the candidate's artifact digest, and the digest names the candidate.
  predicate Genuine(cleared: Cleared) {
    cleared.candidate.artifactDigest == OfPayload(cleared.payload) && OfCandidate(cleared.candidate) == cleared.candidateDigest
  }

  lemma ClearedIsGenuine(inputs: Inputs, candidateDigest: Digest)
    requires Clear(inputs, candidateDigest).Ok?
    ensures Genuine(Clear(inputs, candidateDigest).value)
  {
    hide Clear, AllVerify, OnlyDecision;
    var d, i := ClearingIsSound(inputs, candidateDigest);
  }

  lemma SeedLinked(f: Files, cleared: Cleared)
    requires Sound(f) && Genuine(cleared)
    ensures Sound(f.(seeds := f.seeds[SeedKey(cleared) := cleared.payload]))
  {
    var next := f.(seeds := f.seeds[SeedKey(cleared) := cleared.payload]);
    forall r | r in next.receipts ensures ReceiptOk(next, r) { assert ReceiptOk(f, r); }
  }

  lemma ReceiptAdded(f: Files, cleared: Cleared, now: int)
    requires Sound(f) && ReceiptsParse(f.receipts) && Genuine(cleared)
    requires Settled(f.receipts, cleared).None? && SeedKey(cleared) in f.seeds
    ensures Sound(f.(receipts := f.receipts + [ReceiptOf(cleared, now)]))
  {
    SettledExact(f.receipts, cleared);
    hide Settled;
    var receipt := ReceiptOf(cleared, now);
    var next := f.(receipts := f.receipts + [receipt]);
    assert ReceiptOk(next, receipt);
    forall r | r in next.receipts ensures ReceiptOk(next, r) { assert r in f.receipts ==> ReceiptOk(f, r); }
    hide ReceiptOk;
    forall i | 0 <= i < |f.receipts|
      ensures next.receipts[i].candidateDigest != receipt.candidateDigest && !SameArtifact(next.receipts[i], cleared)
    {
      assert f.receipts[i] in f.receipts;
    }
  }

  lemma LockedSound(f: Files, cleared: Cleared, targets: Targets, now: int, death: Death)
    requires Sound(f) && ReceiptsParse(f.receipts) && Genuine(cleared)
    ensures Sound(AfterLocked(f, cleared, targets, now, death).0)
  {
    var linked := f.(seeds := f.seeds[SeedKey(cleared) := cleared.payload]);
    SeedLinked(f, cleared);
    if Settled(f.receipts, cleared).None? { ReceiptAdded(linked, cleared, now); }
    TearingKeepsSound(linked);
    hide Sound, Settled, ReceiptOf, SeedFits;
  }

  lemma TearingKeepsSound(f: Files)
    requires Sound(f)
    ensures Sound(f.(receiptTorn := true))
  {
    forall r | r in f.receipts ensures ReceiptOk(f.(receiptTorn := true), r) { assert ReceiptOk(f, r); }
  }

  lemma {:induction false} EveryRunIsSound(runs: seq<Attempt>)
    ensures Sound(Run(runs))
  {
    if runs != [] {
      hide Sound, Clear;
      var before, last := Run(runs[..|runs| - 1]), runs[|runs| - 1];
      EveryRunIsSound(runs[..|runs| - 1]);
      var cleared := Clear(last.inputs, last.candidateDigest);
      if cleared.Ok? {
        ClearedIsGenuine(last.inputs, last.candidateDigest);
        LockedSound(before, cleared.value, last.targetsUnderLock, last.inputs.now, last.death);
      }
    } else {
      assert Sound(Empty);
    }
  }

  // Over every run: one receipt per candidate and per artifact and destination, and only bytes
  // that hash to their name are ever visible.
  lemma PublicationIsUnique(runs: seq<Attempt>, i: nat, j: nat)
    requires i < j < |Run(runs).receipts|
    ensures var f := Run(runs);
            && f.receipts[i].candidateDigest != f.receipts[j].candidateDigest
            && (f.receipts[i].destination != f.receipts[j].destination
                || f.receipts[i].bound.artifactDigest != f.receipts[j].bound.artifactDigest)
  {
    EveryRunIsSound(runs);
    assert Run(runs).receipts[i] in Run(runs).receipts && Run(runs).receipts[j] in Run(runs).receipts;
  }

  lemma ReceiptsPointAtTheirBytes(runs: seq<Attempt>, r: Receipt)
    requires r in Run(runs).receipts
    ensures var f := Run(runs);
            && r.candidateDigest == r.bound.candidateDigest
            && (r.destination, r.bound.artifactDigest) in f.seeds
            && OfPayload(f.seeds[(r.destination, r.bound.artifactDigest)]) == r.bound.artifactDigest
  {
    EveryRunIsSound(runs);
    assert ReceiptOk(Run(runs), r);
  }

  lemma OwnReceiptSettles(f: Files, cleared: Cleared, r: Receipt)
    requires Sound(f) && ReceiptsParse(f.receipts) && Genuine(cleared)
    requires r in f.receipts && r.candidateDigest == cleared.candidateDigest
    ensures Settled(f.receipts, cleared) == Some(Ok(r))
  {
    assert ReceiptOk(f, r);
    var i :| 0 <= i < |f.receipts| && f.receipts[i] == r;
    forall j | 0 <= j < |f.receipts| && j != i
      ensures f.receipts[j].candidateDigest != cleared.candidateDigest && !SameArtifact(f.receipts[j], cleared)
    {
      assert ReceiptOk(f, f.receipts[j]);
    }
    FirstSettles(f.receipts, cleared, i);
  }

  lemma {:induction false} FirstSettles(receipts: seq<Receipt>, cleared: Cleared, i: nat)
    requires ReceiptsParse(receipts) && i < |receipts| && receipts[i].candidateDigest == cleared.candidateDigest
    requires forall j :: 0 <= j < |receipts| && j != i ==>
               receipts[j].candidateDigest != cleared.candidateDigest && !SameArtifact(receipts[j], cleared)
    ensures Settled(receipts, cleared) == Some(Ok(receipts[i]))
  {
    if i != 0 {
      assert forall j :: 0 <= j < |receipts| - 1 ==> receipts[1..][j] == receipts[j + 1];
      FirstSettles(receipts[1..], cleared, i - 1);
    }
  }

  // The name of a seed fixes its bytes, so no seed is ever in the way of genuine bytes.
  lemma GenuineBytesFit(f: Files, cleared: Cleared)
    requires Sound(f) && Genuine(cleared)
    ensures SeedFits(f.seeds, cleared)
  {
  }

  lemma LockedSucceedsExactly(f: Files, cleared: Cleared, targets: Targets, now: int)
    requires Sound(f) && ReceiptsParse(f.receipts) && Genuine(cleared)
    ensures AfterLocked(f, cleared, targets, now, Survives).1.result.Ok? <==>
              && !f.receiptTorn
              && ((exists r :: r in f.receipts && r.candidateDigest == cleared.candidateDigest)
                  || (targets == cleared.candidate.targets && forall r :: r in f.receipts ==> !SameArtifact(r, cleared)))
  {
    GenuineBytesFit(f, cleared);
    SettledExact(f.receipts, cleared);
    if exists r :: r in f.receipts && r.candidateDigest == cleared.candidateDigest {
      var r :| r in f.receipts && r.candidateDigest == cleared.candidateDigest;
      OwnReceiptSettles(f, cleared, r);
    }
    hide Sound, Settled, SeedFits, ReceiptOf;
  }

  // A promotion of a cleared candidate succeeds exactly when no receipt is torn and either its
  // receipt exists already, or its artifact is not published for another candidate and the
  // targets still hold.
  lemma PromotionSucceedsExactly(runs: seq<Attempt>, inputs: Inputs, candidateDigest: Digest, targets: Targets)
    requires Clear(inputs, candidateDigest).Ok?
    ensures var f := Run(runs);
            var cleared := Clear(inputs, candidateDigest).value;
            Promoted(f, inputs, candidateDigest, targets, Survives).1.result.Ok? <==>
              && !f.receiptTorn
              && ((exists r :: r in f.receipts && r.candidateDigest == candidateDigest)
                  || (targets == cleared.candidate.targets && forall r :: r in f.receipts ==> !SameArtifact(r, cleared)))
  {
    EveryRunIsSound(runs);
    ClearedIsGenuine(inputs, candidateDigest);
    ClearedNames(inputs, candidateDigest);
    hide Clear, Run, Sound, AfterLocked, Genuine;
    LockedSucceedsExactly(Run(runs), Clear(inputs, candidateDigest).value, targets, inputs.now);
  }

  // From end to end: a candidate built honestly and approved exactly once in any run of projector
  // and importer is published, after any run of promotions and at any time, unless a receipt is
  // torn, its artifact has a receipt already or its targets have drifted.
  lemma HonestCandidateIsPublished(
    key: string, actions: seq<ApprovalRuns.Action>, i: nat, runs: seq<Attempt>, inputs: Inputs, c: Candidate, d: Documents)
    requires var w := ApprovalRuns.Run(ApprovalRuns.Empty, key, actions);
             && inputs.archive == w.archive && inputs.outbox == w.outbox && inputs.key == key
             && OnlyDecision(w.archive, OfCandidate(c), i)
             && w.archive[i].decision.bound == BoundOf(c) && w.archive[i].decision.action == ApproveLive
    requires ScopeAllowed(inputs.specs, c.scope) && inputs.targets == c.targets
    requires HonestlyBuilt(inputs.stores, c, d, inputs.specs[c.scope.destination].allowedRunners)
    requires !Run(runs).receiptTorn
    requires forall r :: r in Run(runs).receipts ==>
               !(r.destination == c.scope.destination && r.bound.artifactDigest == c.artifactDigest)
    ensures
      var f := Run(runs);
      var cleared := Cleared(OfCandidate(c), c, inputs.archive[i], d.payload);
      Promoted(f, inputs, OfCandidate(c), c.targets, Survives) ==
      (f.(seeds := f.seeds[(c.scope.destination, OfPayload(d.payload)) := d.payload],
          receipts := f.receipts + [ReceiptOf(cleared, inputs.now)]),
       Returned(Ok(ReceiptOf(cleared, inputs.now))))
  {
    var f := Run(runs);
    var cleared := Cleared(OfCandidate(c), c, inputs.archive[i], d.payload);
    HonestRunIsCleared(key, actions, i, inputs, c, d);
    ClearedIsGenuine(inputs, OfCandidate(c));
    EveryRunIsSound(runs);
    hide Clear, HonestlyBuilt, OnlyDecision, Run, ApprovalRuns.Run;
    UnsettledPublishes(f, cleared, inputs.now);
  }

  lemma UnsettledPublishes(f: Files, cleared: Cleared, now: int)
    requires Sound(f) && ReceiptsParse(f.receipts) && Genuine(cleared) && !f.receiptTorn
    requires forall r :: r in f.receipts ==> !SameArtifact(r, cleared)
    ensures AfterLocked(f, cleared, cleared.candidate.targets, now, Survives) ==
            (f.(seeds := f.seeds[SeedKey(cleared) := cleared.payload], receipts := f.receipts + [ReceiptOf(cleared, now)]),
             Returned(Ok(ReceiptOf(cleared, now))))
  {
    GenuineBytesFit(f, cleared);
    SettledExact(f.receipts, cleared);
    forall r | r in f.receipts
      ensures r.candidateDigest != cleared.candidateDigest
    {
      assert ReceiptOk(f, r);
    }
    hide Sound, Genuine, Settled, SeedFits, ReceiptOf;
  }

  lemma ClearedNames(inputs: Inputs, candidateDigest: Digest)
    requires Clear(inputs, candidateDigest).Ok?
    ensures Clear(inputs, candidateDigest).value.candidateDigest == candidateDigest
    ensures Clear(inputs, candidateDigest).value.candidate.targets == inputs.targets
  {
    hide CheckDecision, CheckEvidence;
  }

  // A locked part that dies after the link has settled nothing, and the same bytes link again.
  lemma RelinkCompletes(f: Files, first: Cleared, second: Cleared, firstTargets: Targets, targets: Targets, firstNow: int, now: int)
    requires ReceiptsParse(f.receipts)
    requires first.candidateDigest == second.candidateDigest && first.candidate == second.candidate && first.payload == second.payload
    requires AfterLocked(f, first, firstTargets, firstNow, AfterLink).1.Died? && targets == second.candidate.targets
    ensures var left := AfterLocked(f, first, firstTargets, firstNow, AfterLink).0;
            AfterLocked(left, second, targets, now, Survives) ==
            (left.(receipts := left.receipts + [ReceiptOf(second, now)]), Returned(Ok(ReceiptOf(second, now))))
  {
    SettledExact(f.receipts, first);
    SettledExact(f.receipts, second);
    hide Settled, ReceiptOf;
    var left := AfterLocked(f, first, firstTargets, firstNow, AfterLink).0;
    assert left.seeds[SeedKey(second) := second.payload] == left.seeds;
  }

  // A promotion that died between the link and its receipt is completed by the next one, which
  // leaves the visible bytes as they are.
  lemma RepeatCompletesTheDeadOne(runs: seq<Attempt>, dead: Attempt, inputs: Inputs, targets: Targets)
    requires dead.death == AfterLink
    requires Promoted(Run(runs), dead.inputs, dead.candidateDigest, dead.targetsUnderLock, AfterLink).1.Died?
    requires Clear(inputs, dead.candidateDigest).Ok? && targets == Clear(inputs, dead.candidateDigest).value.candidate.targets
    ensures var f := Run(runs + [dead]);
            var (g, outcome) := Promoted(f, inputs, dead.candidateDigest, targets, Survives);
            && outcome == Returned(Ok(ReceiptOf(Clear(inputs, dead.candidateDigest).value, inputs.now)))
            && g.seeds == f.seeds
            && g.receipts == f.receipts + [outcome.result.value]
  {
    assert (runs + [dead])[..|runs|] == runs;
    assert Clear(dead.inputs, dead.candidateDigest).Ok?;
    SameClearing(dead.inputs, inputs, dead.candidateDigest);
    hide Clear, AfterLocked, ReceiptOf;
    RelinkCompletes(Run(runs), Clear(dead.inputs, dead.candidateDigest).value, Clear(inputs, dead.candidateDigest).value,
                    dead.targetsUnderLock, targets, dead.inputs.now, inputs.now);
  }

  // Digests fix the candidate and its bytes, whatever else the two clearings read.
  lemma SameClearing(a: Inputs, b: Inputs, candidateDigest: Digest)
    requires Clear(a, candidateDigest).Ok? && Clear(b, candidateDigest).Ok?
    ensures var x, y := Clear(a, candidateDigest).value, Clear(b, candidateDigest).value;
            x.candidateDigest == y.candidateDigest == candidateDigest && x.candidate == y.candidate && x.payload == y.payload
  {
    ClearedIsGenuine(a, candidateDigest);
    ClearedIsGenuine(b, candidateDigest);
    ClearedNames(a, candidateDigest);
    ClearedNames(b, candidateDigest);
    hide Clear;
  }

  // A promotion that dies inside its receipt's write blocks every later promotion for good.
  lemma {:induction false} TornReceiptBlocksEverything(runs: seq<Attempt>, more: seq<Attempt>)
    requires Run(runs).receiptTorn
    ensures Run(runs + more) == Run(runs)
    decreases |more|
  {
    hide Clear;
    if more == [] {
      assert runs + more == runs;
    } else {
      var n := |more| - 1;
      TornReceiptBlocksEverything(runs, more[..n]);
      assert (runs + more)[..|runs + more| - 1] == runs + more[..n];
    }
  }
}
