// The validator's native rules, restated on the dispatched submission stream alone, and proved
// to be equivalent to that restatement for every typed program; and what the rules about buffer
// groups are worth after the harness has replaced the group of every entry.
module StreamSafety {
  import opened Bits
  import opened Wrappers
  import opened HarnessCodec
  import opened NativeHarness
  import opened Contract
  import opened Proposal
  import opened Compiler
  import opened Validator
  import opened FlagControl
  import opened NativeChain

  // ----- Rules on a stream of entries, with no mention of the program -----

  // The i-th operand read, zero past the last.
  function Operand(sqe: Sqe, i: nat): nat {
    if i < |sqe.operands| then sqe.operands[i] else 0
  }

  predicate LinkedEntry(sqe: Sqe) {
    Bit(sqe.flags, 2) || Bit(sqe.flags, 3)
  }

  predicate NamesEarlier(sqes: seq<Sqe>, k: nat, reference: nat, producer: nat)
    requires k <= |sqes|
  {
    exists j :: 0 <= j < k && sqes[j].userData == reference && sqes[j].selector == producer
  }

  predicate NamesAnyEarlier(sqes: seq<Sqe>, k: nat, reference: nat)
    requires k <= |sqes|
  {
    exists j :: 0 <= j < k && sqes[j].userData == reference
  }

  // An earlier provide_buffers operation read the group as its operand. Its dispatched entry does
  // not carry that operand as its group, so this names a group and provides nothing.
  predicate GroupNamed(sqes: seq<Sqe>, k: nat, group: nat)
    requires k <= |sqes|
  {
    exists j :: 0 <= j < k && sqes[j].selector == 18 && Operand(sqes[j], 0) == group
  }

  // 7, 9 and 38 name a request in their only operand, poll_update (39) in its last.
  predicate ReferencesEarlier(sqes: seq<Sqe>, k: nat)
    requires k < |sqes|
  {
    var sqe := sqes[k];
    && (sqe.selector == 7 ==> NamesEarlier(sqes, k, Operand(sqe, 0), 6))
    && (sqe.selector == 9 ==> NamesEarlier(sqes, k, Operand(sqe, 0), 8))
    && (sqe.selector == 38 ==> NamesEarlier(sqes, k, Operand(sqe, 0), 8))
    && (sqe.selector == 39 ==> NamesEarlier(sqes, k, Operand(sqe, 2), 6))
    && (sqe.selector == 35 ==> NamesAnyEarlier(sqes, k, Operand(sqe, 0)))
  }

  predicate GroupsNamed(sqes: seq<Sqe>, k: nat)
    requires k < |sqes|
  {
    && (Bit(sqes[k].flags, 5) ==> GroupNamed(sqes, k, sqes[k].bufGroup))
    && (sqes[k].selector == 19 ==> GroupNamed(sqes, k, Operand(sqes[k], 0)))
  }

  predicate WellPlaced(sqes: seq<Sqe>, k: nat)
    requires k < |sqes|
  {
    && (LinkedEntry(sqes[k]) ==> k + 1 < |sqes|)
    && (Bit(sqes[k].flags, 1) ==> k > 0)
    && (sqes[k].selector == 37 ==> k > 0 && LinkedEntry(sqes[k - 1]))
  }

  predicate EnablesDisabledRing(ring: nat, sqes: seq<Sqe>) {
    ring == 7 ==> sqes != [] && sqes[0].selector == 60 && Operand(sqes[0], 0) % 34 == 12
  }

  predicate StreamRulesHold(ring: nat, sqes: seq<Sqe>) {
    && (forall k :: 0 <= k < |sqes| ==> !Bit(sqes[k].flags, 0))
    && (forall k :: 0 <= k < |sqes| ==>
          WellPlaced(sqes, k) && ReferencesEarlier(sqes, k) && GroupsNamed(sqes, k))
    && EnablesDisabledRing(ring, sqes)
  }

  // ----- Steps and entries correspond -----

  lemma SingledOutTable()
    ensures SymbolAt(6) == PollAdd
    ensures SymbolAt(7) == PollRemove
    ensures SymbolAt(8) == Timeout
    ensures SymbolAt(9) == TimeoutRemove
    ensures SymbolAt(18) == ProvideBuffers
    ensures SymbolAt(19) == RemoveBuffers
    ensures SymbolAt(35) == Cancel
    ensures SymbolAt(37) == LinkTimeout
    ensures SymbolAt(38) == TimeoutUpdate
    ensures SymbolAt(39) == PollUpdate
    ensures SymbolAt(60) == RegisterRaw
  {
  }

  // The operations the rules single out, by selector.
  lemma SingledOut(operation: OperationSymbol, selector: nat)
    requires SelectorOf(operation) == Some(selector)
    ensures operation == PollAdd <==> selector == 6
    ensures operation == PollRemove <==> selector == 7
    ensures operation == Timeout <==> selector == 8
    ensures operation == TimeoutRemove <==> selector == 9
    ensures operation == ProvideBuffers <==> selector == 18
    ensures operation == RemoveBuffers <==> selector == 19
    ensures operation == Cancel <==> selector == 35
    ensures operation == LinkTimeout <==> selector == 37
    ensures operation == TimeoutUpdate <==> selector == 38
    ensures operation == PollUpdate <==> selector == 39
    ensures operation == RegisterRaw <==> selector == 60
  {
    hide SelectorOf, SymbolAt;
    SingledOutTable();
    SelectorsAreInverse(operation);
    SymbolsAreDistinct(6); SymbolsAreDistinct(7); SymbolsAreDistinct(8); SymbolsAreDistinct(9);
    SymbolsAreDistinct(18); SymbolsAreDistinct(19); SymbolsAreDistinct(35); SymbolsAreDistinct(37);
    SymbolsAreDistinct(38); SymbolsAreDistinct(39); SymbolsAreDistinct(60);
  }

  lemma OperandLayouts()
    ensures EncoderOperandNames(7) == EncoderOperandNames(9) == EncoderOperandNames(35) == EncoderOperandNames(38) == [UserData]
    ensures EncoderOperandNames(18) == EncoderOperandNames(19) == [BufferGroup]
    ensures EncoderOperandNames(39) == [Flags, NewUserData, OldUserData]
    ensures EncoderOperandNames(60) == [RegisterOpcode, RegisterCount]
  {
  }

  lemma FlagIsBit(step: SymbolicStep, sqe: Sqe, flag: FlagSymbol)
    requires DispatchesStep(step, sqe) && FlagBit(flag).Some?
    ensures Bit(sqe.flags, FlagBit(flag).value) <==> flag in step.flags
  {
    hide EncoderOperandNames, SelectorOf, IntegerArgument, ShiftRight, Bit;
    var k := FlagBit(flag).value;
    assert Bit(sqe.flags, k) <==> HasBit(step.flags, k);
    if HasBit(step.flags, k) {
      var i :| 0 <= i < |step.flags| && FlagBit(step.flags[i]) == Some(k);
      FlagBitsAreDistinct(flag, step.flags[i]);
    }
    if flag in step.flags {
      var i :| 0 <= i < |step.flags| && step.flags[i] == flag;
      assert FlagBit(step.flags[i]) == Some(k);
    }
  }

  // The link mode is the entry's link and drain bits.
  lemma LinkModeIsBits(step: SymbolicStep, sqe: Sqe)
    requires DispatchesStep(step, sqe) && LinkModeAccepted(step)
    ensures Linked(step) <==> LinkedEntry(sqe)
    ensures step.linkMode == Drain <==> Bit(sqe.flags, 1)
  {
    hide DispatchesStep, Bit;
    FlagIsBit(step, sqe, IoLink);
    FlagIsBit(step, sqe, IoHardlink);
    FlagIsBit(step, sqe, IoDrain);
    var selected := SelectedLinkFlags(step);
    assert IoLink in selected <==> IoLink in step.flags;
    assert IoHardlink in selected <==> IoHardlink in step.flags;
    assert IoDrain in selected <==> IoDrain in step.flags;
  }

  // The facts about a step and its entry that the rules read.
  ghost predicate Corresponds(step: SymbolicStep, sqe: Sqe) {
    && SelectorOf(step.operation) == Some(sqe.selector)
    && sqe.userData == sqe.selector
    && (Linked(step) <==> LinkedEntry(sqe))
    && (step.linkMode == Drain <==> Bit(sqe.flags, 1))
    && (FixedFile in step.flags <==> Bit(sqe.flags, 0))
    && (BufferSelect in step.flags <==> Bit(sqe.flags, 5))
    && (sqe.selector in {7, 9, 35, 38} ==>
          |sqe.operands| == 1 && IntegerArgument(step.arguments, UserData) == Some(sqe.operands[0]))
    && (sqe.selector in {18, 19} ==>
          |sqe.operands| == 1 && IntegerArgument(step.arguments, BufferGroup) == Some(sqe.operands[0]))
    && (sqe.selector == 39 ==>
          |sqe.operands| == 3 && IntegerArgument(step.arguments, OldUserData) == Some(sqe.operands[2]))
    && (sqe.selector == 60 ==>
          |sqe.operands| == 2 && IntegerArgument(step.arguments, RegisterOpcode) == Some(sqe.operands[0]))
    && sqe.bufGroup == ShiftRight(SumFlags(step.flags, FlagTable(PRODUCTION_FLAGS)), 4)
  }

  lemma DispatchedCorresponds(step: SymbolicStep, sqe: Sqe)
    requires DispatchesStep(step, sqe) && LinkModeAccepted(step) && KnownFlags(step.flags) && Distinct(step.flags)
    ensures Corresponds(step, sqe)
  {
    hide Bit, SelectorOf, IntegerArgument, ShiftRight, SumFlags, FlagTable, LinkModeAccepted, LinkedEntry, Linked;
    LinkModeIsBits(step, sqe);
    FlagIsBit(step, sqe, FixedFile);
    FlagIsBit(step, sqe, BufferSelect);
    OperandLayouts();
    ControlByteOfFlags(step.flags);
    BitsDetermine(sqe.flags, FoldFlags(step.flags, FlagTable(PRODUCTION_FLAGS), 0).value);
  }

  ghost predicate CorrespondsAll(steps: seq<SymbolicStep>, sqes: seq<Sqe>) {
    |steps| == |sqes| && forall k :: 0 <= k < |sqes| ==> Corresponds(steps[k], sqes[k])
  }

  // ----- Rule by rule -----

  lemma ReferenceRule(steps: seq<SymbolicStep>, sqes: seq<Sqe>, k: nat, name: OperandName,
                      producer: OperationSymbol, selector: nat, reference: nat)
    requires CorrespondsAll(steps, sqes) && k < |steps|
    requires IntegerArgument(steps[k].arguments, name) == Some(reference)
    requires forall j :: 0 <= j < k ==> (steps[j].operation == producer <==> sqes[j].selector == selector)
    ensures
      (exists j :: 0 <= j < |steps[..k]| && steps[..k][j].operation == producer)
      && IntegerArgument(steps[k].arguments, name) == Some(selector)
      <==> NamesEarlier(sqes, k, reference, selector)
  {
    hide IntegerArgument, Corresponds;
    if reference == selector {
      if j :| 0 <= j < |steps[..k]| && steps[..k][j].operation == producer {
        assert steps[j].operation == producer && Corresponds(steps[j], sqes[j]);
        UserDataIsSelector(steps[j], sqes[j]);
      }
      if j :| 0 <= j < k && sqes[j].userData == reference && sqes[j].selector == selector {
        assert steps[..k][j].operation == producer;
      }
    } else {
      forall j | 0 <= j < k
        ensures sqes[j].userData == sqes[j].selector
      {
        assert Corresponds(steps[j], sqes[j]);
        UserDataIsSelector(steps[j], sqes[j]);
      }
    }
  }

  lemma UserDataIsSelector(step: SymbolicStep, sqe: Sqe)
    requires Corresponds(step, sqe)
    ensures sqe.userData == sqe.selector
  {
  }

  lemma ProducersMatch(steps: seq<SymbolicStep>, sqes: seq<Sqe>, n: nat)
    requires CorrespondsAll(steps, sqes) && n <= |steps|
    ensures forall j :: 0 <= j < n ==> (steps[j].operation == Timeout <==> sqes[j].selector == 8)
    ensures forall j :: 0 <= j < n ==> (steps[j].operation == PollAdd <==> sqes[j].selector == 6)
    ensures forall j :: 0 <= j < n ==> (steps[j].operation == ProvideBuffers <==> sqes[j].selector == 18)
  {
    hide SelectorOf, IntegerArgument, ShiftRight, SumFlags, FlagTable, Bit, LinkedEntry, Linked;
    forall j | 0 <= j < n
      ensures steps[j].operation == Timeout <==> sqes[j].selector == 8
      ensures steps[j].operation == PollAdd <==> sqes[j].selector == 6
      ensures steps[j].operation == ProvideBuffers <==> sqes[j].selector == 18
    {
      assert Corresponds(steps[j], sqes[j]);
      SingledOut(steps[j].operation, sqes[j].selector);
    }
  }

  lemma ReferencesAgree(steps: seq<SymbolicStep>, sqes: seq<Sqe>, k: nat, contract: HarnessContract)
    requires CorrespondsAll(steps, sqes) && k < |steps| && contract.operations == ProductionOperations()
    ensures
      ReferenceAccepted(steps[k], steps[..k]) && (steps[k].operation == Cancel ==> NamesPriorSelector(steps[k], steps[..k], contract))
      <==> ReferencesEarlier(sqes, k)
  {
    hide SelectorOf, IntegerArgument, ShiftRight, SumFlags, FlagTable, Bit, LinkedEntry, Linked, NamesEarlier,
      ProductionOperations, NamesPriorSelector, NamesAnyEarlier;
    var step, sqe := steps[k], sqes[k];
    assert Corresponds(step, sqe);
    SingledOut(step.operation, sqe.selector);
    ProducersMatch(steps, sqes, k);
    if sqe.selector == 9 || sqe.selector == 38 {
      ReferenceRule(steps, sqes, k, UserData, Timeout, 8, sqe.operands[0]);
    } else if sqe.selector == 7 {
      ReferenceRule(steps, sqes, k, UserData, PollAdd, 6, sqe.operands[0]);
    } else if sqe.selector == 39 {
      ReferenceRule(steps, sqes, k, OldUserData, PollAdd, 6, sqe.operands[2]);
    } else if sqe.selector == 35 {
      CancelRule(steps, sqes, k, contract);
    }
  }

  lemma CancelRule(steps: seq<SymbolicStep>, sqes: seq<Sqe>, k: nat, contract: HarnessContract)
    requires CorrespondsAll(steps, sqes) && k < |steps| && contract.operations == ProductionOperations()
    requires sqes[k].selector == 35
    ensures |sqes[k].operands| == 1
    ensures NamesPriorSelector(steps[k], steps[..k], contract) <==> NamesAnyEarlier(sqes, k, sqes[k].operands[0])
  {
    hide SelectorOf, IntegerArgument, ShiftRight, SumFlags, FlagTable, Bit, LinkedEntry, Linked, OperationTable,
      ProductionOperations, SymbolAt, EncoderOperandNames;
    assert Corresponds(steps[k], sqes[k]);
    var operations := OperationTable(contract.operations);
    forall j | 0 <= j < k
      ensures steps[j].operation in operations && operations[steps[j].operation].selector == sqes[j].userData
    {
      assert Corresponds(steps[j], sqes[j]);
      OperationLookup(steps[j].operation);
    }
    if j :| (0 <= j < |steps[..k]| && steps[..k][j].operation in operations
             && IntegerArgument(steps[k].arguments, UserData) == Some(operations[steps[..k][j].operation].selector)) {
      assert sqes[j].userData == sqes[k].operands[0];
    }
    if j :| 0 <= j < k && sqes[j].userData == sqes[k].operands[0] {
      assert steps[..k][j].operation in operations;
    }
  }

  lemma GroupRule(steps: seq<SymbolicStep>, sqes: seq<Sqe>, k: nat, group: nat)
    requires CorrespondsAll(steps, sqes) && k <= |steps|
    ensures ProvidesGroup(steps[..k], Some(group)) <==> GroupNamed(sqes, k, group)
  {
    hide SelectorOf, IntegerArgument, ShiftRight, SumFlags, FlagTable, Bit, LinkedEntry, Linked;
    ProducersMatch(steps, sqes, k);
    if j :| (0 <= j < |steps[..k]| && steps[..k][j].operation == ProvideBuffers
             && IntegerArgument(steps[..k][j].arguments, BufferGroup) == Some(group)) {
      assert steps[j] == steps[..k][j] && Corresponds(steps[j], sqes[j]);
      assert Operand(sqes[j], 0) == group;
    }
    if j :| 0 <= j < k && sqes[j].selector == 18 && Operand(sqes[j], 0) == group {
      assert steps[..k][j] == steps[j] && Corresponds(steps[j], sqes[j]);
    }
  }

  lemma GroupsAgree(steps: seq<SymbolicStep>, sqes: seq<Sqe>, k: nat, contract: HarnessContract)
    requires CorrespondsAll(steps, sqes) && k < |steps| && contract.flags == PRODUCTION_FLAGS
    ensures
      && (BufferSelect in steps[k].flags ==> ProvidesGroup(steps[..k], Some(SelectedGroup(steps[k], contract))))
      && (steps[k].operation == RemoveBuffers ==>
            ProvidesGroup(steps[..k], IntegerArgument(steps[k].arguments, BufferGroup)))
      <==> GroupsNamed(sqes, k)
  {
    hide SelectorOf, IntegerArgument, ShiftRight, SumFlags, FlagTable, Bit, LinkedEntry, Linked, ProvidesGroup,
      GroupNamed;
    assert Corresponds(steps[k], sqes[k]);
    SingledOut(steps[k].operation, sqes[k].selector);
    GroupRule(steps, sqes, k, sqes[k].bufGroup);
    if sqes[k].selector == 19 {
      GroupRule(steps, sqes, k, sqes[k].operands[0]);
    }
  }

  lemma PlacementAgrees(steps: seq<SymbolicStep>, sqes: seq<Sqe>, k: nat)
    requires CorrespondsAll(steps, sqes) && k < |steps|
    ensures
      && (Linked(steps[k]) ==> k + 1 < |steps|)
      && (steps[k].linkMode == Drain ==> k > 0)
      && (steps[k].operation == LinkTimeout ==> k > 0 && Linked(steps[k - 1]))
      <==> WellPlaced(sqes, k)
  {
    hide SelectorOf, IntegerArgument, ShiftRight, SumFlags, FlagTable, Bit, LinkedEntry, Linked;
    assert Corresponds(steps[k], sqes[k]);
    SingledOut(steps[k].operation, sqes[k].selector);
    if k > 0 {
      assert Corresponds(steps[k - 1], sqes[k - 1]);
    }
  }

  lemma DisabledRingIsSeven(ring: nat)
    requires ring < RING_COUNT
    ensures ProfileAt(ring) == DisabledUntilRegister <==> ring == 7
  {
  }

  lemma EnableAgrees(program: PlannerProgram, ring: nat, sqes: seq<Sqe>)
    requires CorrespondsAll(program.steps, sqes) && program.steps != []
    requires ring < RING_COUNT && ProfileAt(ring) == program.ringProfileId
    ensures EnablesRing(program) <==> EnablesDisabledRing(ring, sqes)
  {
    hide SelectorOf, IntegerArgument, ShiftRight, SumFlags, FlagTable, Bit, LinkedEntry, Linked, ProfileAt;
    DisabledRingIsSeven(ring);
    assert Corresponds(program.steps[0], sqes[0]);
    SingledOut(program.steps[0].operation, sqes[0].selector);
  }

  lemma RulesAgree(program: PlannerProgram, contract: HarnessContract, ring: nat, sqes: seq<Sqe>)
    requires CorrespondsAll(program.steps, sqes) && program.steps != []
    requires ring < RING_COUNT && ProfileAt(ring) == program.ringProfileId
    requires contract.operations == ProductionOperations() && contract.flags == PRODUCTION_FLAGS
    ensures NativeRulesHold(program, contract) <==> StreamRulesHold(ring, sqes)
  {
    hide ReferenceAccepted, NamesPriorSelector, ReferencesEarlier, GroupsNamed, WellPlaced, ProvidesGroup,
      SelectedGroup, EnablesRing, EnablesDisabledRing, ProductionOperations, IntegerArgument, SelectorOf, ShiftRight,
      SumFlags, FlagTable, Bit, Linked, LinkedEntry, ProfileAt;
    EnableAgrees(program, ring, sqes);
    forall k | 0 <= k < |sqes|
      ensures FixedFile in program.steps[k].flags <==> Bit(sqes[k].flags, 0)
      ensures NativeStepAccepted(program.steps, k, contract) <==>
              WellPlaced(sqes, k) && ReferencesEarlier(sqes, k) && GroupsNamed(sqes, k)
    {
      assert Corresponds(program.steps[k], sqes[k]);
      PlacementAgrees(program.steps, sqes, k);
      ReferencesAgree(program.steps, sqes, k, contract);
      GroupsAgree(program.steps, sqes, k, contract);
    }
  }

  // ----- The equivalence, end to end -----

  lemma DispatchedProgramCorresponds(program: PlannerProgram, contract: HarnessContract, ring: nat, sqes: seq<Sqe>)
    requires WellFormedProgram(program) && TypedRulesHold(program, contract)
    requires contract.operations == ProductionOperations() && contract.flags == PRODUCTION_FLAGS
    requires DispatchesProgram(program, ring, sqes)
    ensures CorrespondsAll(program.steps, sqes)
  {
    hide ProductionOperations, DispatchesStep, Corresponds, OperationTable, ProfileTable, ResourceTable, ProfileAt,
      ResourcesAccepted, LinkModeAccepted, OutcomesAccepted, FlagsAccepted, ArgumentsAccepted, KnownFlags;
    forall k | 0 <= k < |sqes|
      ensures Corresponds(program.steps[k], sqes[k])
    {
      var step := program.steps[k];
      assert StepAccepted(step, program, contract) && WellFormedStep(step);
      AcceptedFlagsAreKnown(step, OperationTable(contract.operations)[step.operation], contract);
      DispatchedCorresponds(step, sqes[k]);
    }
  }

  // For every typed program, the native rules hold exactly when the rules hold of the stream that
  // its bytes dispatch.
  lemma NativeRulesAreStreamRules(program: PlannerProgram, compilerHash: string, opTableHash: string, fleetHash: string)
    requires WellFormedProgram(program)
    requires TypedRulesHold(program, ProductionContract(compilerHash, opTableHash, fleetHash))
    ensures
      var contract := ProductionContract(compilerHash, opTableHash, fleetHash);
      var compiled := CompileProgramSpec(program, contract, compilerHash);
      && compiled.Ok?
      && (NativeRulesHold(program, contract) <==>
          StreamRulesHold(RingOf(compiled.value.payload), DispatchedSqes(compiled.value.payload)))
  {
    hide TypedRulesHold, CompileProgramSpec, NativeRulesHold, StreamRulesHold, DispatchedSqes, ProductionOperations,
      ProductionProfiles, CorrespondsAll;
    var contract := ProductionContract(compilerHash, opTableHash, fleetHash);
    ValidatedProgramRuns(program, compilerHash, opTableHash, fleetHash);
    var payload := CompileProgramSpec(program, contract, compilerHash).value.payload;
    DispatchedProgramCorresponds(program, contract, RingOf(payload), DispatchedSqes(payload));
    RulesAgree(program, contract, RingOf(payload), DispatchedSqes(payload));
  }

  // ----- Links and submission batches -----

  predicate LinksStayInBatch(batches: seq<seq<Sqe>>) {
    forall b, i :: 0 <= b < |batches| && 0 <= i < |batches[b]| && LinkedEntry(batches[b][i]) ==> i + 1 < |batches[b]|
  }

  // Every linked entry of a validated program has its successor in the same submission.
  lemma LinkedSuccessorsShareTheBatch(
    program: PlannerProgram, compilerHash: string, opTableHash: string, fleetHash: string)
    requires WellFormedProgram(program)
    requires ProgramAccepted(program, ProductionContract(compilerHash, opTableHash, fleetHash))
    ensures
      var contract := ProductionContract(compilerHash, opTableHash, fleetHash);
      var compiled := CompileProgramSpec(program, contract, compilerHash);
      && compiled.Ok?
      && StreamRulesHold(RingOf(compiled.value.payload), DispatchedSqes(compiled.value.payload))
      && LinksStayInBatch(Batches(DispatchedSqes(compiled.value.payload)))
  {
    hide TypedRulesHold, CompileProgramSpec, NativeRulesHold, DispatchedSqes, ProductionOperations, ProductionProfiles,
      StreamRulesHold;
    var contract := ProductionContract(compilerHash, opTableHash, fleetHash);
    NativeRulesAreStreamRules(program, compilerHash, opTableHash, fleetHash);
    ValidatedProgramRuns(program, compilerHash, opTableHash, fleetHash);
    var payload := CompileProgramSpec(program, contract, compilerHash).value.payload;
    StreamRulesKeepLinks(RingOf(payload), DispatchedSqes(payload));
  }

  // So every program of an accepted proposal compiles; the harness run on its bytes dispatches one
  // entry per step, in a stream that obeys the rules and whose links stay in their batch.
  lemma AcceptedProposalRuns(
    telemetry: TelemetryPacket, proposal: PlannerProposal, mode: RuntimeMode, k: nat,
    compilerHash: string, opTableHash: string, fleetHash: string)
    requires WellFormedProposal(proposal) && k < |proposal.programs|
    requires ProposalAccepted(telemetry, proposal, ProductionContract(compilerHash, opTableHash, fleetHash), mode, compilerHash)
    ensures
      var program := proposal.programs[k];
      var compiled := CompileProgramSpec(program, ProductionContract(compilerHash, opTableHash, fleetHash), compilerHash);
      && compiled.Ok?
      && |compiled.value.payload| <= 481
      && (var ring, sqes := RingOf(compiled.value.payload), DispatchedSqes(compiled.value.payload);
          && DispatchesProgram(program, ring, sqes)
          && StreamRulesHold(ring, sqes)
          && LinksStayInBatch(Batches(sqes)))
  {
    var program := proposal.programs[k];
    assert WellFormedProgram(program);
    hide TypedRulesHold, CompileProgramSpec, NativeRulesHold, DispatchedSqes, ProductionOperations, ProductionProfiles,
      StreamRulesHold, LinksStayInBatch, DispatchesProgram, WellFormedStep, DistinctStepIds, WellFormedResources,
      ResourcesDeclared;
    assert ProgramAccepted(program, ProductionContract(compilerHash, opTableHash, fleetHash));
    ValidatedProgramRuns(program, compilerHash, opTableHash, fleetHash);
    LinkedSuccessorsShareTheBatch(program, compilerHash, opTableHash, fleetHash);
  }

  lemma StreamRulesKeepLinks(ring: nat, sqes: seq<Sqe>)
    requires StreamRulesHold(ring, sqes) && |sqes| <= RING_ENTRIES
    ensures LinksStayInBatch(Batches(sqes))
  {
    hide Bit, ReferencesEarlier, GroupsNamed, LinkedEntry, EnablesDisabledRing;
    var batches := Batches(sqes);
    if |sqes| == RING_ENTRIES {
      assert sqes[..RING_ENTRIES] == sqes && sqes[RING_ENTRIES..] == [];
      LastBatch([]);
      assert batches == [sqes, []];
    }
    forall b, i | 0 <= b < |batches| && 0 <= i < |batches[b]| && LinkedEntry(batches[b][i])
      ensures i + 1 < |batches[b]|
    {
      assert batches[b] == sqes && WellPlaced(sqes, i);
    }
  }

  // ----- Provision: the groups the dispatched entries carry -----

  // An earlier provide_buffers entry carries the group of this entry. The group field is where
  // provide_buffers and remove_buffers keep their group as well, and the harness replaces it in
  // every entry.
  predicate GroupProvided(sqes: seq<Sqe>, k: nat)
    requires k < |sqes|
  {
    exists j :: 0 <= j < k && sqes[j].selector == PROVIDE_BUFFERS && sqes[j].bufGroup == sqes[k].bufGroup
  }

  predicate NeedsGroup(sqe: Sqe) {
    Bit(sqe.flags, 5) || sqe.selector == REMOVE_BUFFERS
  }

  predicate GroupsProvided(sqes: seq<Sqe>) {
    forall k :: 0 <= k < |sqes| && NeedsGroup(sqes[k]) ==> GroupProvided(sqes, k)
  }

  // The dispatched entries of a program's steps, whose flags are known.
  ghost predicate Dispatched(steps: seq<SymbolicStep>, sqes: seq<Sqe>) {
    && |steps| == |sqes|
    && forall j :: 0 <= j < |sqes| ==> DispatchesStep(steps[j], sqes[j]) && KnownFlags(steps[j].flags)
  }

  // Only these two flags survive in the group field.
  predicate SameGroupFlags(a: SymbolicStep, b: SymbolicStep) {
    && (BufferSelect in a.flags <==> BufferSelect in b.flags)
    && (Async in a.flags <==> Async in b.flags)
  }

  predicate ProviderBefore(steps: seq<SymbolicStep>, k: nat)
    requires k < |steps|
  {
    exists j :: 0 <= j < k && steps[j].operation == ProvideBuffers && SameGroupFlags(steps[j], steps[k])
  }

  // An entry finds its group in an earlier provider's entry exactly when that provider has the
  // same two flags, whatever group either of them names.
  lemma ProviderFieldExactly(steps: seq<SymbolicStep>, sqes: seq<Sqe>, k: nat)
    requires Dispatched(steps, sqes) && k < |sqes|
    ensures GroupProvided(sqes, k) <==> ProviderBefore(steps, k)
  {
    hide Bit, SelectorOf, IntegerArgument, ShiftRight, EncoderOperandNames, ControlOf, KnownFlags, SameGroupFlags;
    forall j | 0 <= j < k
      ensures sqes[j].selector == PROVIDE_BUFFERS <==> steps[j].operation == ProvideBuffers
      ensures sqes[j].bufGroup == sqes[k].bufGroup <==> SameGroupFlags(steps[j], steps[k])
    {
      assert DispatchesStep(steps[j], sqes[j]);
      SingledOut(steps[j].operation, sqes[j].selector);
      SameGroup(steps[j], sqes[j], steps[k], sqes[k]);
    }
  }

  lemma SameGroup(a: SymbolicStep, x: Sqe, b: SymbolicStep, y: Sqe)
    requires DispatchesStep(a, x) && DispatchesStep(b, y) && KnownFlags(a.flags) && KnownFlags(b.flags)
    ensures x.bufGroup == y.bufGroup <==> SameGroupFlags(a, b)
  {
    hide Bit, SelectorOf, IntegerArgument, ShiftRight, EncoderOperandNames;
    FlagIsBit(a, x, Async);
    FlagIsBit(b, y, Async);
    FlagIsBit(a, x, BufferSelect);
    FlagIsBit(b, y, BufferSelect);
    ShiftBit(x.flags, 4, 0);
    ShiftBit(y.flags, 4, 0);
    ShiftBit(x.flags, 4, 1);
    ShiftBit(y.flags, 4, 1);
    if SameGroupFlags(a, b) {
      forall k: nat
        ensures Bit(x.bufGroup, k) <==> Bit(y.bufGroup, k)
      {
        ShiftBit(x.flags, 4, k);
        ShiftBit(y.flags, 4, k);
        if k > 1 {
          NoBitsBeyondFlags(a.flags, k + 4);
          NoBitsBeyondFlags(b.flags, k + 4);
        }
      }
      BitsDetermine(x.bufGroup, y.bufGroup);
    }
  }

  lemma NoBitsBeyondFlags(flags: seq<FlagSymbol>, k: nat)
    requires k >= 6
    ensures !HasBit(flags, k)
  {
  }

  lemma NeedsGroupExactly(steps: seq<SymbolicStep>, sqes: seq<Sqe>, k: nat)
    requires Dispatched(steps, sqes) && k < |sqes|
    ensures NeedsGroup(sqes[k]) <==> BufferSelect in steps[k].flags || steps[k].operation == RemoveBuffers
  {
    hide Bit, SelectorOf, IntegerArgument, ShiftRight, EncoderOperandNames;
    assert DispatchesStep(steps[k], sqes[k]);
    FlagIsBit(steps[k], sqes[k], BufferSelect);
    SingledOut(steps[k].operation, sqes[k].selector);
  }

  predicate NoneSelects(steps: seq<SymbolicStep>) {
    forall k :: 0 <= k < |steps| ==> BufferSelect !in steps[k].flags
  }

  // The first step that selects a buffer.
  lemma {:induction false} FirstSelection(steps: seq<SymbolicStep>) returns (k: nat)
    requires !NoneSelects(steps)
    ensures k < |steps| && BufferSelect in steps[k].flags
    ensures forall j :: 0 <= j < k ==> BufferSelect !in steps[j].flags
  {
    k := 0;
    while BufferSelect !in steps[k].flags
      invariant k < |steps|
      invariant forall j :: 0 <= j < k ==> BufferSelect !in steps[j].flags
      decreases |steps| - k
    {
      k := k + 1;
    }
  }

  // The first selection finds only the groups of entries that select nothing, and never its own.
  lemma FirstSelectionUnresolved(steps: seq<SymbolicStep>, sqes: seq<Sqe>, k: nat)
    requires Dispatched(steps, sqes) && k < |sqes|
    requires BufferSelect in steps[k].flags
    requires forall j :: 0 <= j < k ==> BufferSelect !in steps[j].flags
    ensures !GroupProvided(sqes, k)
  {
    ProviderFieldExactly(steps, sqes, k);
  }

  // So every entry that needs a group finds it provided exactly when no step selects a buffer and
  // every remove_buffers step has an earlier provider with the same ASYNC flag.
  predicate ProvisionWorks(steps: seq<SymbolicStep>) {
    && NoneSelects(steps)
    && forall k :: 0 <= k < |steps| && steps[k].operation == RemoveBuffers ==>
         exists j :: 0 <= j < k && steps[j].operation == ProvideBuffers && (Async in steps[j].flags <==> Async in steps[k].flags)
  }

  lemma ProvisionExactly(steps: seq<SymbolicStep>, sqes: seq<Sqe>)
    requires Dispatched(steps, sqes)
    ensures GroupsProvided(sqes) <==> ProvisionWorks(steps)
  {
    hide DispatchesStep, GroupProvided, NeedsGroup, KnownFlags;
    forall k | 0 <= k < |sqes|
      ensures NeedsGroup(sqes[k]) <==> BufferSelect in steps[k].flags || steps[k].operation == RemoveBuffers
      ensures GroupProvided(sqes, k) <==> ProviderBefore(steps, k)
    {
      NeedsGroupExactly(steps, sqes, k);
      ProviderFieldExactly(steps, sqes, k);
    }
    if !NoneSelects(steps) {
      var k := FirstSelection(steps);
      FirstSelectionUnresolved(steps, sqes, k);
    } else {
      forall k | 0 <= k < |steps|
        ensures ProviderBefore(steps, k) <==>
                exists j :: 0 <= j < k && steps[j].operation == ProvideBuffers && (Async in steps[j].flags <==> Async in steps[k].flags)
      {
        NoSelectionLeavesAsync(steps, k);
      }
    }
  }

  lemma NoSelectionLeavesAsync(steps: seq<SymbolicStep>, k: nat)
    requires NoneSelects(steps) && k < |steps|
    ensures ProviderBefore(steps, k) <==>
            exists j :: 0 <= j < k && steps[j].operation == ProvideBuffers && (Async in steps[j].flags <==> Async in steps[k].flags)
  {
  }

  // For every accepted program: the validator has checked that each selected or removed group is
  // named by an earlier provider, and in the dispatched stream each selecting entry finds its group
  // exactly when there is none.
  lemma AcceptedProvisionExactly(program: PlannerProgram, compilerHash: string, opTableHash: string, fleetHash: string)
    requires WellFormedProgram(program)
    requires ProgramAccepted(program, ProductionContract(compilerHash, opTableHash, fleetHash))
    ensures
      var compiled := CompileProgramSpec(program, ProductionContract(compilerHash, opTableHash, fleetHash), compilerHash);
      && compiled.Ok?
      && (var sqes := DispatchedSqes(compiled.value.payload);
          && (GroupsProvided(sqes) <==> ProvisionWorks(program.steps))
          && ((forall k :: 0 <= k < |sqes| && Bit(sqes[k].flags, 5) ==> GroupProvided(sqes, k)) <==> NoneSelects(program.steps))
          && |sqes| == |program.steps|
          && forall k :: 0 <= k < |sqes| && sqes[k].selector == REMOVE_BUFFERS ==>
               (GroupProvided(sqes, k) <==> ProviderBefore(program.steps, k)))
  {
    hide TypedRulesHold, CompileProgramSpec, NativeRulesHold, DispatchedSqes, ProductionOperations, ProductionProfiles,
      DispatchesStep, Bit, GroupProvided, ProviderBefore, KnownFlags, WellFormedStep, GroupsProvided, ProvisionWorks;
    var contract := ProductionContract(compilerHash, opTableHash, fleetHash);
    ValidatedProgramRuns(program, compilerHash, opTableHash, fleetHash);
    var sqes := DispatchedSqes(CompileProgramSpec(program, contract, compilerHash).value.payload);
    AcceptedStepsAreKnown(program, contract);
    assert Dispatched(program.steps, sqes);
    ProvisionExactly(program.steps, sqes);
    SelectionsResolveExactly(program.steps, sqes);
    forall k | 0 <= k < |sqes| ensures GroupProvided(sqes, k) <==> ProviderBefore(program.steps, k) {
      ProviderFieldExactly(program.steps, sqes, k);
    }
  }

  lemma AcceptedStepsAreKnown(program: PlannerProgram, contract: HarnessContract)
    requires TypedRulesHold(program, contract) && contract.flags == PRODUCTION_FLAGS
    ensures forall k :: 0 <= k < |program.steps| ==> KnownFlags(program.steps[k].flags)
  {
    hide OperationTable, ProfileTable, ResourceTable, ResourcesAccepted, LinkModeAccepted, OutcomesAccepted, FlagsAccepted,
      ArgumentsAccepted, KnownFlags;
    forall k | 0 <= k < |program.steps|
      ensures KnownFlags(program.steps[k].flags)
    {
      var step := program.steps[k];
      assert StepAccepted(step, program, contract);
      AcceptedFlagsAreKnown(step, OperationTable(contract.operations)[step.operation], contract);
    }
  }

  lemma SelectionsResolveExactly(steps: seq<SymbolicStep>, sqes: seq<Sqe>)
    requires Dispatched(steps, sqes)
    ensures (forall k :: 0 <= k < |sqes| && Bit(sqes[k].flags, 5) ==> GroupProvided(sqes, k)) <==> NoneSelects(steps)
  {
    hide Bit, SelectorOf, IntegerArgument, ShiftRight, EncoderOperandNames, GroupProvided;
    forall k | 0 <= k < |sqes|
      ensures Bit(sqes[k].flags, 5) <==> BufferSelect in steps[k].flags
    {
      assert DispatchesStep(steps[k], sqes[k]);
      FlagIsBit(steps[k], sqes[k], BufferSelect);
    }
    if !NoneSelects(steps) {
      var k := FirstSelection(steps);
      FirstSelectionUnresolved(steps, sqes, k);
    }
  }
}
