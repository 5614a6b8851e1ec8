// The semantic gate between model output and quarantine.
module Validator {
  import opened Bits
  import opened Wrappers
  import opened HarnessCodec
  import opened Contract
  import opened Proposal
  import opened Compiler

  datatype RuntimeMode = MockMode | ShadowMode | OtherMode

  // ----- What the checks promise, stated declaratively -----

  predicate ModeAllowed(mode: RuntimeMode, contract: HarnessContract) {
    || (mode == MockMode && contract.environment != Production)
    || (mode == ShadowMode && contract.environment == Production && !contract.testOnly)
  }

  predicate EvidenceCited(telemetry: TelemetryPacket, proposal: PlannerProposal) {
    && (forall e :: e in proposal.hypothesisEvidence ==> e in telemetry.evidenceRefs)
    && (forall k :: 0 <= k < |proposal.researchPriorities| ==>
          forall e :: e in proposal.researchPriorities[k].evidenceRefs ==> e in telemetry.evidenceRefs)
  }

  predicate BindingsHold(telemetry: TelemetryPacket, proposal: PlannerProposal, contract: HarnessContract, mode: RuntimeMode) {
    && proposal.packetId == telemetry.packetId
    && proposal.targetHashes == telemetry.targetHashes == contract.targetHashes
    && ModeAllowed(mode, contract)
    && contract.verified
    && EvidenceCited(telemetry, proposal)
  }

  predicate PriorityAccepted(priority: ResearchPriority, contract: HarnessContract) {
    var profiles := ProfileTable(contract.profiles);
    && (forall o :: o in priority.operationFamilies ==> o in OperationTable(contract.operations))
    && (forall id :: id in priority.ringProfileIds ==> id in profiles && id !in contract.forbiddenProfiles)
    && (forall id, lane :: id in priority.ringProfileIds && lane in priority.preferredLanes ==>
          id in profiles && lane in profiles[id].allowedLanes)
  }

  function TotalQuantity(bindings: seq<ResourceBinding>, kind: string): nat {
    if bindings == [] then 0
    else
      var last := bindings[|bindings| - 1];
      TotalQuantity(bindings[..|bindings| - 1], kind) + if last.kind == kind then last.quantity else 0
  }

  // Every declared kind is known and its total stays within the contract's maximum.
  predicate ResourcesAccepted(bindings: seq<ResourceBinding>, specs: map<string, nat>) {
    forall k :: 0 <= k < |bindings| ==>
      bindings[k].kind in specs && TotalQuantity(bindings, bindings[k].kind) <= specs[bindings[k].kind]
  }

  function SpecificationTable(specs: seq<ArgumentSpec>): map<OperandName, ArgumentSpec> {
    if specs == [] then map[]
    else SpecificationTable(specs[..|specs| - 1])[specs[|specs| - 1].name := specs[|specs| - 1]]
  }

  function BindingTable(bindings: seq<ResourceBinding>): map<string, ResourceBinding> {
    if bindings == [] then map[]
    else BindingTable(bindings[..|bindings| - 1])[bindings[|bindings| - 1].ref := bindings[|bindings| - 1]]
  }

  predicate ArgumentAccepted(value: ArgumentValue, spec: ArgumentSpec, bindings: map<string, ResourceBinding>) {
    match spec.kind
    case IntegerKind => value.IntegerValue? && spec.minimum <= value.i <= spec.maximum
    case BooleanKind => value.BooleanValue?
    case EnumKind => value.SymbolValue? && value.s in spec.enumSymbols
    case ResourceKind =>
      value.ResourceValue? && value.ref in bindings && bindings[value.ref].kind == spec.resourceKind
  }

  predicate ArgumentsAccepted(step: SymbolicStep, operation: Operation, bindings: map<string, ResourceBinding>) {
    var proposed, expected := ArgumentTable(step.arguments), SpecificationTable(operation.arguments);
    && proposed.Keys == expected.Keys
    && forall name :: name in proposed ==> ArgumentAccepted(proposed[name], expected[name], bindings)
  }

  function LinkFlags(mode: LinkMode): set<FlagSymbol> {
    match mode
    case NoLink => {}
    case Link => {IoLink}
    case HardLink => {IoHardlink}
    case Drain => {IoDrain}
  }

  function SelectedLinkFlags(step: SymbolicStep): set<FlagSymbol> {
    (set f | f in step.flags) * {IoLink, IoHardlink, IoDrain}
  }

  predicate FlagsAccepted(step: SymbolicStep, operation: Operation, contract: HarnessContract) {
    forall f :: f in step.flags ==> f in operation.allowedFlags && f in FlagTable(contract.flags)
  }

  predicate LinkModeAccepted(step: SymbolicStep) {
    SelectedLinkFlags(step) == LinkFlags(step.linkMode)
  }

  predicate OutcomesAccepted(step: SymbolicStep, operation: Operation) {
    forall c :: c in step.expectedResultClasses ==> c in operation.resultClasses
  }

  predicate StepAccepted(step: SymbolicStep, program: PlannerProgram, contract: HarnessContract) {
    var operations := OperationTable(contract.operations);
    && step.ringRef == program.ringProfileId
    && step.operation in operations
    && var operation := operations[step.operation];
       && program.ringProfileId in operation.allowedProfiles
       && program.lane in operation.allowedLanes
       && FlagsAccepted(step, operation, contract)
       && LinkModeAccepted(step)
       && OutcomesAccepted(step, operation)
       && ArgumentsAccepted(step, operation, BindingTable(program.resources))
  }

  predicate Linked(step: SymbolicStep) {
    step.linkMode == Link || step.linkMode == HardLink
  }

  function SumFlags(flags: seq<FlagSymbol>, table: map<FlagSymbol, nat>): nat {
    if flags == [] then 0
    else (if flags[0] in table then table[flags[0]] else 0) + SumFlags(flags[1..], table)
  }

  predicate ProvidesGroup(steps: seq<SymbolicStep>, group: Option<int>) {
    exists j :: 0 <= j < |steps| && steps[j].operation == ProvideBuffers
             && IntegerArgument(steps[j].arguments, BufferGroup) == group
  }

  // The producer a reference must follow, and the argument that names it.
  function ReferenceRequirement(operation: OperationSymbol): Option<(OperandName, OperationSymbol, int)> {
    match operation
    case TimeoutRemove => Some((UserData, Timeout, 8))
    case TimeoutUpdate => Some((UserData, Timeout, 8))
    case PollRemove => Some((UserData, PollAdd, 6))
    case PollUpdate => Some((OldUserData, PollAdd, 6))
    case _ => None
  }

  predicate ReferenceAccepted(step: SymbolicStep, prior: seq<SymbolicStep>) {
    match ReferenceRequirement(step.operation)
    case None => true
    case Some(requirement) =>
      && (exists j :: 0 <= j < |prior| && prior[j].operation == requirement.1)
      && IntegerArgument(step.arguments, requirement.0) == Some(requirement.2)
  }

  // Some prior step's selector is the request's user_data argument.
  predicate NamesPriorSelector(step: SymbolicStep, prior: seq<SymbolicStep>, contract: HarnessContract) {
    var operations := OperationTable(contract.operations);
    exists j :: 0 <= j < |prior| && prior[j].operation in operations
             && IntegerArgument(step.arguments, UserData) == Some(operations[prior[j].operation].selector)
  }

  // The group the selecting step's control byte will name, computed from the sum of its flags.
  function SelectedGroup(step: SymbolicStep, contract: HarnessContract): int {
    ShiftRight(SumFlags(step.flags, FlagTable(contract.flags)), 4)
  }

  predicate NativeStepAccepted(steps: seq<SymbolicStep>, k: nat, contract: HarnessContract)
    requires k < |steps|
  {
    && (Linked(steps[k]) ==> k + 1 < |steps|)
    && (steps[k].linkMode == Drain ==> k > 0)
    && (steps[k].operation == LinkTimeout ==> k > 0 && Linked(steps[k - 1]))
    && ReferenceAccepted(steps[k], steps[..k])
    && (steps[k].operation == Cancel ==> NamesPriorSelector(steps[k], steps[..k], contract))
    && (BufferSelect in steps[k].flags ==> ProvidesGroup(steps[..k], Some(SelectedGroup(steps[k], contract))))
    && (steps[k].operation == RemoveBuffers ==>
          ProvidesGroup(steps[..k], IntegerArgument(steps[k].arguments, BufferGroup)))
  }

  predicate EnablesRing(program: PlannerProgram)
    requires program.steps != []
  {
    program.ringProfileId == DisabledUntilRegister ==>
      var opcode := IntegerArgument(program.steps[0].arguments, RegisterOpcode);
      program.steps[0].operation == RegisterRaw && opcode.Some? && opcode.value % 34 == 12
  }

  // The rules about the submission stream the program will become.
  predicate NativeRulesHold(program: PlannerProgram, contract: HarnessContract)
    requires program.steps != []
  {
    && (forall k :: 0 <= k < |program.steps| ==> FixedFile !in program.steps[k].flags)
    && (forall k :: 0 <= k < |program.steps| ==> NativeStepAccepted(program.steps, k, contract))
    && EnablesRing(program)
  }

  // The typed rules: everything about a program except the native stream rules.
  predicate TypedRulesHold(program: PlannerProgram, contract: HarnessContract) {
    var profiles := ProfileTable(contract.profiles);
    && program.ringProfileId in profiles && program.ringProfileId !in contract.forbiddenProfiles
    && program.lane in profiles[program.ringProfileId].allowedLanes
    && ResourcesAccepted(program.resources, ResourceTable(contract.resources))
    && |program.steps| <= contract.operationMaxCount
    && (forall k :: 0 <= k < |program.steps| ==> StepAccepted(program.steps[k], program, contract))
    && (contract.environment == Production ==> program.requestedLocalVariants == 1 && program.perturbations == 0)
  }

  predicate ProgramAccepted(program: PlannerProgram, contract: HarnessContract)
    requires program.steps != []
  {
    && TypedRulesHold(program, contract)
    && (contract.environment == Production ==> NativeRulesHold(program, contract))
  }

  function TotalVariants(programs: seq<PlannerProgram>): nat {
    if programs == [] then 0
    else TotalVariants(programs[..|programs| - 1]) + programs[|programs| - 1].requestedLocalVariants
  }

  predicate AnalysisAccepted(proposal: PlannerProposal, contract: HarnessContract) {
    && proposal.researchPriorities != [] && proposal.programs == []
    && forall k :: 0 <= k < |proposal.researchPriorities| ==> PriorityAccepted(proposal.researchPriorities[k], contract)
  }

  predicate ProgramsAccepted(proposal: PlannerProposal, contract: HarnessContract, compilerHash: string)
    requires WellFormedProposal(proposal)
  {
    && contract.deterministicCompiler && contract.roundTripVerified
    && (contract.environment == Production ==> CompilerEnabled(contract, compilerHash))
    && TotalVariants(proposal.programs) <= 64
    && forall k :: 0 <= k < |proposal.programs| ==> ProgramAccepted(proposal.programs[k], contract)
  }

  predicate ProposalAccepted(
    telemetry: TelemetryPacket, proposal: PlannerProposal, contract: HarnessContract, mode: RuntimeMode,
    compilerHash: string)
    requires WellFormedProposal(proposal)
  {
    && BindingsHold(telemetry, proposal, contract, mode)
    && if proposal.abstain then
         !proposal.analysisOnly && proposal.researchPriorities == [] && proposal.programs == []
       else if proposal.analysisOnly then AnalysisAccepted(proposal, contract)
       else ProgramsAccepted(proposal, contract, compilerHash)
  }

  // ----- The validator -----

  datatype Scope = WholeProposal | OfPriority(id: string) | OfProgram(id: string) | OfStep(program: string, step: string)
  datatype Rule =
    | RingRefRule | OperationRule | ProfileRule | LaneRule | FlagsRule
    | LinkModeRule | OutcomesRule | ArgumentsRule | NativeLinkSuccessorRule | NativeDrainPredecessorRule
    | NativeLinkTimeoutPredecessorRule | NativeReferenceRule | NativeCancelReferenceRule | NativeBufferProviderRule | NativeBufferRemoveRule
    | ProfileLaneRule | ResourcesRule | StepCountRule | NativeBaseOnlyRule | NativeNoFixedFileRule
    | NativeEnableRingRule | BindingPacketIdRule | BindingTargetHashesRule | ContractModeRule | ContractPlannerViewRule
    | EvidenceReferencesRule | ProposalAbstentionRule | AnalysisPriorityCountRule | ContractProgramGateRule | ProposalVariantBoundRule
    | OperationsRule | ProfilesRule | LanesRule
  datatype CheckId = CheckId(scope: Scope, rule: Rule)

  function PassedAfter(passed: seq<CheckId>, checkId: CheckId, condition: bool): seq<CheckId> {
    if condition && checkId !in passed then passed + [checkId] else passed
  }

  function IssuesAfter(issues: seq<CheckId>, checkId: CheckId, condition: bool): seq<CheckId> {
    if condition then issues else issues + [checkId]
  }

  class Checks {
    var passed: seq<CheckId>
    var issues: seq<CheckId>

    constructor ()
      ensures passed == [] && issues == []
    {
      passed, issues := [], [];
    }

    predicate Clean()
      reads this
    {
      issues == []
    }

    // Records a passed check once, and every failed check.
    method Require(scope: Scope, rule: Rule, condition: bool)
      modifies this
      ensures passed == PassedAfter(old(passed), CheckId(scope, rule), condition)
      ensures issues == IssuesAfter(old(issues), CheckId(scope, rule), condition)
      ensures Clean() <==> old(Clean()) && condition
    {
      var checkId := CheckId(scope, rule);
      if condition {
        if checkId !in passed {
          passed := passed + [checkId];
        }
      } else {
        issues := issues + [checkId];
      }
    }
  }

  predicate EachWithinLimit(bindings: seq<ResourceBinding>, specs: map<string, nat>) {
    forall j :: 0 <= j < |bindings| ==> bindings[j].kind in specs && bindings[j].quantity <= specs[bindings[j].kind]
  }

  // The totals by kind, of exactly the declared kinds.
  predicate TotalsOf(bindings: seq<ResourceBinding>, totals: map<string, nat>) {
    && (forall kind :: kind in totals ==>
          totals[kind] == TotalQuantity(bindings, kind) && exists j :: 0 <= j < |bindings| && bindings[j].kind == kind)
    && (forall j :: 0 <= j < |bindings| ==> bindings[j].kind in totals)
  }

  lemma TotalsStep(bindings: seq<ResourceBinding>, totals: map<string, nat>, binding: ResourceBinding)
    requires TotalsOf(bindings, totals)
    ensures
      var before := if binding.kind in totals then totals[binding.kind] else 0;
      TotalsOf(bindings + [binding], totals[binding.kind := before + binding.quantity])
  {
    var all := bindings + [binding];
    assert all[..|bindings|] == bindings;
    UndeclaredTotal(bindings, binding.kind);
    forall kind | kind in totals
      ensures exists j :: 0 <= j < |all| && all[j].kind == kind
    {
      var j :| 0 <= j < |bindings| && bindings[j].kind == kind;
      assert all[j].kind == kind;
    }
    assert all[|bindings|].kind == binding.kind;
  }

  lemma {:induction false} UndeclaredTotal(bindings: seq<ResourceBinding>, kind: string)
    ensures (forall j :: 0 <= j < |bindings| ==> bindings[j].kind != kind) ==> TotalQuantity(bindings, kind) == 0
  {
    if bindings != [] {
      UndeclaredTotal(bindings[..|bindings| - 1], kind);
    }
  }

  method ResourceTotals(bindings: seq<ResourceBinding>, specs: map<string, nat>)
    returns (totals: map<string, nat>, valid: bool)
    ensures TotalsOf(bindings, totals)
    ensures valid <==> EachWithinLimit(bindings, specs)
  {
    hide TotalsOf;
    valid, totals := true, map[];
    assert TotalsOf(bindings[..0], totals) by { assert bindings[..0] == []; TotalsOfNothing(); }
    for i := 0 to |bindings|
      invariant TotalsOf(bindings[..i], totals)
      invariant valid <==> EachWithinLimit(bindings[..i], specs)
    {
      var binding := bindings[i];
      TotalsStep(bindings[..i], totals, binding);
      assert bindings[..i + 1] == bindings[..i] + [binding];
      if binding.kind !in specs || binding.quantity > specs[binding.kind] {
        valid := false;
      }
      totals := totals[binding.kind := (if binding.kind in totals then totals[binding.kind] else 0) + binding.quantity];
    }
    assert bindings[..|bindings|] == bindings;
  }

  lemma TotalsOfNothing()
    ensures TotalsOf([], map[])
  {
  }

  method CheckResources(bindings: seq<ResourceBinding>, specs: map<string, nat>) returns (valid: bool)
    ensures valid <==> ResourcesAccepted(bindings, specs)
  {
    var totals;
    totals, valid := ResourceTotals(bindings, specs);
    ghost var individually := valid;
    var kinds := totals.Keys;
    while kinds != {}
      invariant kinds <= totals.Keys
      invariant valid <==> individually && forall kind :: kind in totals.Keys - kinds ==>
                  kind in specs && totals[kind] <= specs[kind]
    {
      var kind :| kind in kinds;
      if kind !in specs || totals[kind] > specs[kind] {
        valid := false;
      }
      kinds := kinds - {kind};
    }
    TotalsBoundEach(bindings);
  }

  // No single binding exceeds the total of its kind.
  lemma {:induction false} TotalsBoundEach(bindings: seq<ResourceBinding>)
    ensures forall j :: 0 <= j < |bindings| ==> bindings[j].quantity <= TotalQuantity(bindings, bindings[j].kind)
  {
    if bindings != [] {
      var n := |bindings| - 1;
      TotalsBoundEach(bindings[..n]);
      assert forall j :: 0 <= j < n ==> bindings[..n][j] == bindings[j];
    }
  }

  method CheckArguments(step: SymbolicStep, operation: Operation, bindings: map<string, ResourceBinding>)
    returns (valid: bool)
    ensures valid <==> ArgumentsAccepted(step, operation, bindings)
  {
    var proposed, expected := ArgumentTable(step.arguments), SpecificationTable(operation.arguments);
    valid := proposed.Keys == expected.Keys;
    var names := proposed.Keys;
    while names != {}
      invariant names <= proposed.Keys
      invariant valid <==> proposed.Keys == expected.Keys && forall name :: name in proposed.Keys - names ==>
                  name in expected && ArgumentAccepted(proposed[name], expected[name], bindings)
    {
      var name :| name in names;
      names := names - {name};
      if name !in expected {
        valid := false;
      } else {
        valid := valid && ArgumentAccepted(proposed[name], expected[name], bindings);
      }
    }
  }

  method CheckStep(checks: Checks, scope: Scope, step: SymbolicStep, program: PlannerProgram, contract: HarnessContract)
    modifies checks
    ensures checks.Clean() <==> old(checks.Clean()) && StepAccepted(step, program, contract)
  {
    hide PassedAfter, IssuesAfter, OperationTable, FlagsAccepted, LinkModeAccepted, OutcomesAccepted, ArgumentsAccepted,
      BindingTable;
    var operations := OperationTable(contract.operations);
    checks.Require(scope, RingRefRule, step.ringRef == program.ringProfileId);
    checks.Require(scope, OperationRule, step.operation in operations);
    if step.operation !in operations { return; }
    var operation := operations[step.operation];
    checks.Require(scope, ProfileRule, program.ringProfileId in operation.allowedProfiles);
    checks.Require(scope, LaneRule, program.lane in operation.allowedLanes);
    checks.Require(scope, FlagsRule, FlagsAccepted(step, operation, contract));
    checks.Require(scope, LinkModeRule, LinkModeAccepted(step));
    checks.Require(scope, OutcomesRule, OutcomesAccepted(step, operation));
    var argumentsValid := CheckArguments(step, operation, BindingTable(program.resources));
    checks.Require(scope, ArgumentsRule, argumentsValid);
  }

  // The operations before a step, and the selectors of those the contract lists.
  method PriorSets(prior: seq<SymbolicStep>, operations: map<OperationSymbol, Operation>)
    returns (priorOperations: set<OperationSymbol>, priorSelectors: set<int>)
    ensures forall o :: o in priorOperations <==> exists j :: 0 <= j < |prior| && prior[j].operation == o
    ensures forall s :: s in priorSelectors <==>
              exists j :: 0 <= j < |prior| && prior[j].operation in operations && operations[prior[j].operation].selector == s
  {
    priorOperations, priorSelectors := {}, {};
    for i := 0 to |prior|
      invariant forall o :: o in priorOperations <==> exists j :: 0 <= j < i && prior[j].operation == o
      invariant forall s :: s in priorSelectors <==>
                  exists j :: 0 <= j < i && prior[j].operation in operations && operations[prior[j].operation].selector == s
    {
      priorOperations := priorOperations + {prior[i].operation};
      if prior[i].operation in operations {
        priorSelectors := priorSelectors + {operations[prior[i].operation].selector};
      }
    }
  }

  method AnyProvider(prior: seq<SymbolicStep>, group: Option<int>) returns (found: bool)
    ensures found <==> ProvidesGroup(prior, group)
  {
    hide IntegerArgument;
    for i := 0 to |prior|
      invariant forall j :: 0 <= j < i ==>
                  !(prior[j].operation == ProvideBuffers && IntegerArgument(prior[j].arguments, BufferGroup) == group)
    {
      if prior[i].operation == ProvideBuffers && IntegerArgument(prior[i].arguments, BufferGroup) == group { return true; }
    }
    found := false;
  }

  // The control byte the selecting step will have, as a sum of known flag values.
  method SummedControl(flags: seq<FlagSymbol>, table: map<FlagSymbol, nat>) returns (control: nat)
    ensures control == SumFlags(flags, table)
  {
    control := 0;
    assert flags[0..] == flags;
    for i := 0 to |flags|
      invariant control + SumFlags(flags[i..], table) == SumFlags(flags, table)
    {
      assert flags[i..][1..] == flags[i + 1..];
      control := control + if flags[i] in table then table[flags[i]] else 0;
    }
  }

  lemma CancelNames(step: SymbolicStep, prior: seq<SymbolicStep>, contract: HarnessContract, priorSelectors: set<int>)
    requires forall s :: s in priorSelectors <==>
               exists j :: (0 <= j < |prior| && prior[j].operation in OperationTable(contract.operations)
                            && OperationTable(contract.operations)[prior[j].operation].selector == s)
    ensures NamesPriorSelector(step, prior, contract) <==>
            var named := IntegerArgument(step.arguments, UserData); named.Some? && named.value in priorSelectors
  {
    hide IntegerArgument, OperationTable;
    var named := IntegerArgument(step.arguments, UserData);
    var operations := OperationTable(contract.operations);
    if named.Some? && named.value in priorSelectors {
      var j :| (0 <= j < |prior| && prior[j].operation in operations && operations[prior[j].operation].selector == named.value);
    }
    if NamesPriorSelector(step, prior, contract) {
      var j :| (0 <= j < |prior| && prior[j].operation in operations && named == Some(operations[prior[j].operation].selector));
      assert operations[prior[j].operation].selector in priorSelectors;
    }
  }

  method CheckReferences(checks: Checks, scope: Scope, step: SymbolicStep, prior: seq<SymbolicStep>, contract: HarnessContract)
    modifies checks
    ensures checks.Clean() <==>
            && old(checks.Clean()) && ReferenceAccepted(step, prior)
            && (step.operation == Cancel ==> NamesPriorSelector(step, prior, contract))
  {
    hide PassedAfter, IssuesAfter, IntegerArgument, OperationTable;
    var priorOperations, priorSelectors := PriorSets(prior, OperationTable(contract.operations));
    var requirement := ReferenceRequirement(step.operation);
    if requirement.Some? {
      checks.Require(scope, NativeReferenceRule,
                     && requirement.value.1 in priorOperations
                     && IntegerArgument(step.arguments, requirement.value.0) == Some(requirement.value.2));
    }
    if step.operation == Cancel {
      var named := IntegerArgument(step.arguments, UserData);
      CancelNames(step, prior, contract, priorSelectors);
      hide NamesPriorSelector;
      checks.Require(scope, NativeCancelReferenceRule, priorSelectors != {} && named.Some? && named.value in priorSelectors);
    }
  }

  method CheckBufferGroups(checks: Checks, scope: Scope, step: SymbolicStep, prior: seq<SymbolicStep>, contract: HarnessContract)
    modifies checks
    ensures checks.Clean() <==>
            && old(checks.Clean())
            && (BufferSelect in step.flags ==> ProvidesGroup(prior, Some(SelectedGroup(step, contract))))
            && (step.operation == RemoveBuffers ==> ProvidesGroup(prior, IntegerArgument(step.arguments, BufferGroup)))
  {
    hide PassedAfter, IssuesAfter, IntegerArgument, FlagTable, SumFlags, ShiftRight, ProvidesGroup;
    if BufferSelect in step.flags {
      var control := SummedControl(step.flags, FlagTable(contract.flags));
      var provided := AnyProvider(prior, Some(ShiftRight(control, 4)));
      checks.Require(scope, NativeBufferProviderRule, provided);
    }
    if step.operation == RemoveBuffers {
      var provided := AnyProvider(prior, IntegerArgument(step.arguments, BufferGroup));
      checks.Require(scope, NativeBufferRemoveRule, provided);
    }
  }

  method CheckNativeStep(checks: Checks, scope: Scope, steps: seq<SymbolicStep>, k: nat, contract: HarnessContract)
    requires k < |steps|
    modifies checks
    ensures checks.Clean() <==> old(checks.Clean()) && NativeStepAccepted(steps, k, contract)
  {
    hide PassedAfter, IssuesAfter, ProvidesGroup, SelectedGroup, IntegerArgument, NamesPriorSelector, ReferenceAccepted;
    var step, prior := steps[k], steps[..k];
    if Linked(step) {
      checks.Require(scope, NativeLinkSuccessorRule, k + 1 < |steps|);
    }
    if step.linkMode == Drain {
      checks.Require(scope, NativeDrainPredecessorRule, k > 0);
    }
    if step.operation == LinkTimeout {
      checks.Require(scope, NativeLinkTimeoutPredecessorRule, k > 0 && Linked(steps[k - 1]));
    }
    CheckReferences(checks, scope, step, prior, contract);
    CheckBufferGroups(checks, scope, step, prior, contract);
  }

  method CheckNativeSteps(checks: Checks, program: PlannerProgram, contract: HarnessContract)
    modifies checks
    ensures checks.Clean() <==>
            old(checks.Clean()) && forall k :: 0 <= k < |program.steps| ==> NativeStepAccepted(program.steps, k, contract)
  {
    hide NativeStepAccepted;
    for i := 0 to |program.steps|
      invariant checks.Clean() <==>
                old(checks.Clean()) && forall k :: 0 <= k < i ==> NativeStepAccepted(program.steps, k, contract)
    {
      CheckNativeStep(checks, OfStep(program.programId, program.steps[i].stepId), program.steps, i, contract);
    }
  }

  method CheckNativeRules(checks: Checks, program: PlannerProgram, contract: HarnessContract)
    requires program.steps != []
    modifies checks
    ensures checks.Clean() <==> old(checks.Clean()) && NativeRulesHold(program, contract)
  {
    assert program.ringProfileId != DisabledUntilRegister ==> EnablesRing(program);
    hide PassedAfter, IssuesAfter, NativeStepAccepted, EnablesRing;
    var scope := OfProgram(program.programId);
    checks.Require(scope, NativeNoFixedFileRule,
                   forall k :: 0 <= k < |program.steps| ==> FixedFile !in program.steps[k].flags);
    CheckNativeSteps(checks, program, contract);
    if program.ringProfileId == DisabledUntilRegister {
      checks.Require(scope, NativeEnableRingRule, EnablesRing(program));
    }
  }

  method CheckProgram(checks: Checks, program: PlannerProgram, contract: HarnessContract)
    requires program.steps != []
    modifies checks
    ensures checks.Clean() <==> old(checks.Clean()) && ProgramAccepted(program, contract)
  {
    hide PassedAfter, IssuesAfter, StepAccepted, NativeRulesHold, ResourcesAccepted, ProfileTable, ResourceTable;
    var scope := OfProgram(program.programId);
    var profiles := ProfileTable(contract.profiles);
    checks.Require(scope, ProfileRule,
                   program.ringProfileId in profiles && program.ringProfileId !in contract.forbiddenProfiles);
    if program.ringProfileId in profiles {
      checks.Require(scope, ProfileLaneRule, program.lane in profiles[program.ringProfileId].allowedLanes);
    }
    var resourcesValid := CheckResources(program.resources, ResourceTable(contract.resources));
    checks.Require(scope, ResourcesRule, resourcesValid);
    checks.Require(scope, StepCountRule, |program.steps| <= contract.operationMaxCount);
    ghost var before := checks.Clean();
    for i := 0 to |program.steps|
      invariant checks.Clean() <==> before && forall k :: 0 <= k < i ==> StepAccepted(program.steps[k], program, contract)
    {
      CheckStep(checks, OfStep(program.programId, program.steps[i].stepId), program.steps[i], program, contract);
    }
    if contract.environment == Production {
      checks.Require(scope, NativeBaseOnlyRule, program.requestedLocalVariants == 1 && program.perturbations == 0);
      CheckNativeRules(checks, program, contract);
    }
  }

  method CheckBindings(
    checks: Checks, telemetry: TelemetryPacket, proposal: PlannerProposal, contract: HarnessContract, mode: RuntimeMode)
    modifies checks
    ensures checks.Clean() <==> old(checks.Clean()) && BindingsHold(telemetry, proposal, contract, mode)
  {
    hide PassedAfter, IssuesAfter, EvidenceCited;
    checks.Require(WholeProposal, BindingPacketIdRule, proposal.packetId == telemetry.packetId);
    checks.Require(WholeProposal, BindingTargetHashesRule,
                   proposal.targetHashes == telemetry.targetHashes == contract.targetHashes);
    checks.Require(WholeProposal, ContractModeRule, ModeAllowed(mode, contract));
    checks.Require(WholeProposal, ContractPlannerViewRule, contract.verified);
    var citedRefs := CitedRefs(proposal);
    checks.Require(WholeProposal, EvidenceReferencesRule, forall e :: e in citedRefs ==> e in telemetry.evidenceRefs);
    assert EvidenceCited(telemetry, proposal) <==> forall e :: e in citedRefs ==> e in telemetry.evidenceRefs by {
      CitedMeans(telemetry, proposal, citedRefs);
    }
  }

  // The evidence the hypothesis and the priorities rest on.
  method CitedRefs(proposal: PlannerProposal) returns (refs: set<string>)
    ensures forall e :: e in refs <==>
              e in proposal.hypothesisEvidence || exists p :: p in proposal.researchPriorities && e in p.evidenceRefs
  {
    refs := set e | e in proposal.hypothesisEvidence;
    for i := 0 to |proposal.researchPriorities|
      invariant forall e :: e in refs <==>
                  e in proposal.hypothesisEvidence || exists p :: p in proposal.researchPriorities[..i] && e in p.evidenceRefs
    {
      var priority := proposal.researchPriorities[i];
      refs := refs + set e | e in priority.evidenceRefs;
      assert proposal.researchPriorities[..i + 1] == proposal.researchPriorities[..i] + [priority];
    }
    assert proposal.researchPriorities[..|proposal.researchPriorities|] == proposal.researchPriorities;
  }

  lemma CitedMeans(telemetry: TelemetryPacket, proposal: PlannerProposal, refs: set<string>)
    requires forall e :: e in refs <==>
               e in proposal.hypothesisEvidence || exists p :: p in proposal.researchPriorities && e in p.evidenceRefs
    ensures EvidenceCited(telemetry, proposal) <==> forall e :: e in refs ==> e in telemetry.evidenceRefs
  {
    forall k, e | 0 <= k < |proposal.researchPriorities| && e in proposal.researchPriorities[k].evidenceRefs
      ensures e in refs
    {
      assert proposal.researchPriorities[k] in proposal.researchPriorities;
    }
  }

  method CheckPriorities(checks: Checks, proposal: PlannerProposal, contract: HarnessContract)
    modifies checks
    ensures checks.Clean() <==> old(checks.Clean()) && AnalysisAccepted(proposal, contract)
  {
    hide PassedAfter, IssuesAfter, PriorityAccepted;
    checks.Require(WholeProposal, AnalysisPriorityCountRule,
                   proposal.researchPriorities != [] && proposal.programs == []);
    ghost var counted := checks.Clean();
    for i := 0 to |proposal.researchPriorities|
      invariant checks.Clean() <==> counted && forall k :: 0 <= k < i ==>
                  PriorityAccepted(proposal.researchPriorities[k], contract)
    {
      CheckPriority(checks, proposal.researchPriorities[i], contract);
    }
  }

  method CheckPrograms(checks: Checks, proposal: PlannerProposal, contract: HarnessContract, compilerHash: string)
    requires WellFormedProposal(proposal)
    modifies checks
    ensures checks.Clean() <==> old(checks.Clean()) && ProgramsAccepted(proposal, contract, compilerHash)
  {
    hide PassedAfter, IssuesAfter, ProgramAccepted, CompilerEnabled, TotalVariants;
    checks.Require(
      WholeProposal, ContractProgramGateRule,
      && contract.deterministicCompiler && contract.roundTripVerified
      && (contract.environment != Production || CompilerEnabled(contract, compilerHash)));
    var totalVariants := SumVariants(proposal.programs);
    checks.Require(WholeProposal, ProposalVariantBoundRule, totalVariants <= 64);
    ghost var gated := checks.Clean();
    for i := 0 to |proposal.programs|
      invariant checks.Clean() <==> gated && forall k :: 0 <= k < i ==> ProgramAccepted(proposal.programs[k], contract)
    {
      CheckProgram(checks, proposal.programs[i], contract);
    }
  }

  method SumVariants(programs: seq<PlannerProgram>) returns (total: nat)
    ensures total == TotalVariants(programs)
  {
    total := 0;
    for i := 0 to |programs|
      invariant total == TotalVariants(programs[..i])
    {
      total := total + programs[i].requestedLocalVariants;
      assert programs[..i + 1][..i] == programs[..i];
    }
    assert programs[..|programs|] == programs;
  }

  // The proposal is valid, with no issue, exactly when every rule holds.
  method ValidateProposal(
    telemetry: TelemetryPacket, proposal: PlannerProposal, contract: HarnessContract, mode: RuntimeMode,
    compilerHash: string) returns (valid: bool)
    requires WellFormedProposal(proposal)
    ensures valid <==> ProposalAccepted(telemetry, proposal, contract, mode, compilerHash)
    ensures valid ==> forall e :: e in proposal.hypothesisEvidence ==> e in telemetry.evidenceRefs
    ensures valid ==> forall p, e :: p in proposal.researchPriorities && e in p.evidenceRefs ==> e in telemetry.evidenceRefs
    ensures valid ==> proposal.packetId == telemetry.packetId
    ensures valid ==> proposal.targetHashes == telemetry.targetHashes == contract.targetHashes
    ensures valid ==> contract.verified && (mode == ShadowMode <==> contract.environment == Production)
    ensures valid ==> mode != OtherMode && (mode == ShadowMode ==> !contract.testOnly)
  {
    assert ProposalAccepted(telemetry, proposal, contract, mode, compilerHash) ==> BindingsHold(telemetry, proposal, contract, mode);
    hide BindingsHold, AnalysisAccepted, ProgramsAccepted;
    var checks := new Checks();
    CheckBindings(checks, telemetry, proposal, contract, mode);
    if proposal.abstain {
      checks.Require(WholeProposal, ProposalAbstentionRule,
                     !proposal.analysisOnly && proposal.researchPriorities == [] && proposal.programs == []);
    } else if proposal.analysisOnly {
      CheckPriorities(checks, proposal, contract);
    } else {
      CheckPrograms(checks, proposal, contract, compilerHash);
    }
    valid := checks.Clean();
    if valid { BindingsMean(telemetry, proposal, contract, mode); }
  }

  lemma BindingsMean(telemetry: TelemetryPacket, proposal: PlannerProposal, contract: HarnessContract, mode: RuntimeMode)
    requires BindingsHold(telemetry, proposal, contract, mode)
    ensures proposal.packetId == telemetry.packetId
    ensures proposal.targetHashes == telemetry.targetHashes == contract.targetHashes
    ensures contract.verified && (mode == ShadowMode <==> contract.environment == Production)
    ensures mode != OtherMode && (mode == ShadowMode ==> !contract.testOnly)
    ensures forall e :: e in proposal.hypothesisEvidence ==> e in telemetry.evidenceRefs
    ensures forall p, e :: p in proposal.researchPriorities && e in p.evidenceRefs ==> e in telemetry.evidenceRefs
  {
  }

  method CheckPriority(checks: Checks, priority: ResearchPriority, contract: HarnessContract)
    modifies checks
    ensures checks.Clean() <==> old(checks.Clean()) && PriorityAccepted(priority, contract)
  {
    var profiles, scope := ProfileTable(contract.profiles), OfPriority(priority.priorityId);
    checks.Require(scope, OperationsRule,
                   forall o :: o in priority.operationFamilies ==> o in OperationTable(contract.operations));
    checks.Require(scope, ProfilesRule,
                   forall id :: id in priority.ringProfileIds ==> id in profiles && id !in contract.forbiddenProfiles);
    checks.Require(scope, LanesRule,
                   forall id | id in priority.ringProfileIds ::
                     id in profiles && forall lane :: lane in priority.preferredLanes ==> lane in profiles[id].allowedLanes);
  }
}
