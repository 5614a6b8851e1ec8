// What the validator accepts, in terms of the lists of the proposal, the packet and the contract: no
// look-up tables, no sets and no running totals.
module ValidatorMeaning {
  import opened Compiler
  import opened Contract
  import opened HarnessCodec
  import opened Proposal
  import opened Validator
  import opened Wrappers

  // ----- Look-ups -----

  // The entry of a list that counts for a name: the last.
  predicate LastProfile(items: seq<Profile>, k: int, name: ProfileId) {
    0 <= k < |items| && items[k].id == name && forall j :: k < j < |items| ==> items[j].id != name
  }

  lemma {:induction false} ProfileAt(items: seq<Profile>, name: ProfileId) returns (k: nat)
    requires name in ProfileTable(items)
    ensures LastProfile(items, k, name) && ProfileTable(items)[name] == items[k]
  {
    var n := |items| - 1;
    if items[n].id == name { k := n; } else { k := ProfileAt(items[..n], name); }
  }

  lemma {:induction false} ProfileCounts(items: seq<Profile>, k: int, name: ProfileId)
    requires LastProfile(items, k, name)
    ensures 0 <= k < |items| && name in ProfileTable(items) && ProfileTable(items)[name] == items[k]
  {
    var n := |items| - 1;
    if k < n { ProfileCounts(items[..n], k, name); }
  }

  predicate LastResourceKind(items: seq<ResourceSpec>, k: int, name: string) {
    0 <= k < |items| && items[k].kind == name && forall j :: k < j < |items| ==> items[j].kind != name
  }

  lemma {:induction false} ResourceKindAt(items: seq<ResourceSpec>, name: string) returns (k: nat)
    requires name in ResourceTable(items)
    ensures LastResourceKind(items, k, name) && ResourceTable(items)[name] == items[k].maxInstances
  {
    var n := |items| - 1;
    if items[n].kind == name { k := n; } else { k := ResourceKindAt(items[..n], name); }
  }

  lemma {:induction false} ResourceKindCounts(items: seq<ResourceSpec>, k: int, name: string)
    requires LastResourceKind(items, k, name)
    ensures 0 <= k < |items| && name in ResourceTable(items) && ResourceTable(items)[name] == items[k].maxInstances
  {
    var n := |items| - 1;
    if k < n { ResourceKindCounts(items[..n], k, name); }
  }

  lemma ResourceKindMeans(items: seq<ResourceSpec>, name: string)
    ensures name in ResourceTable(items) <==> exists k :: LastResourceKind(items, k, name)
    ensures forall k :: LastResourceKind(items, k, name) ==>
              0 <= k < |items| && name in ResourceTable(items) && ResourceTable(items)[name] == items[k].maxInstances
  {
    hide ResourceTable, LastResourceKind;
    if name in ResourceTable(items) { var k := ResourceKindAt(items, name); }
    forall k | LastResourceKind(items, k, name)
      ensures 0 <= k < |items| && name in ResourceTable(items) && ResourceTable(items)[name] == items[k].maxInstances
    {
      ResourceKindCounts(items, k, name);
    }
  }

  predicate LastOperationEntry(items: seq<Operation>, k: int, name: OperationSymbol) {
    0 <= k < |items| && items[k].symbol == name && forall j :: k < j < |items| ==> items[j].symbol != name
  }

  lemma {:induction false} OperationEntryAt(items: seq<Operation>, name: OperationSymbol) returns (k: nat)
    requires name in OperationTable(items)
    ensures LastOperationEntry(items, k, name) && OperationTable(items)[name] == items[k]
  {
    var n := |items| - 1;
    if items[n].symbol == name { k := n; } else { k := OperationEntryAt(items[..n], name); }
  }

  lemma {:induction false} OperationEntryCounts(items: seq<Operation>, k: int, name: OperationSymbol)
    requires LastOperationEntry(items, k, name)
    ensures 0 <= k < |items| && name in OperationTable(items) && OperationTable(items)[name] == items[k]
  {
    var n := |items| - 1;
    if k < n { OperationEntryCounts(items[..n], k, name); }
  }

  lemma OperationEntryMeans(items: seq<Operation>, name: OperationSymbol)
    ensures name in OperationTable(items) <==> exists k :: LastOperationEntry(items, k, name)
    ensures forall k :: LastOperationEntry(items, k, name) ==>
              0 <= k < |items| && name in OperationTable(items) && OperationTable(items)[name] == items[k]
  {
    hide OperationTable, LastOperationEntry;
    if name in OperationTable(items) { var k := OperationEntryAt(items, name); }
    forall k | LastOperationEntry(items, k, name)
      ensures 0 <= k < |items| && name in OperationTable(items) && OperationTable(items)[name] == items[k]
    {
      OperationEntryCounts(items, k, name);
    }
  }

  predicate LastSpecification(items: seq<ArgumentSpec>, k: int, name: OperandName) {
    0 <= k < |items| && items[k].name == name && forall j :: k < j < |items| ==> items[j].name != name
  }

  lemma {:induction false} SpecificationAt(items: seq<ArgumentSpec>, name: OperandName) returns (k: nat)
    requires name in SpecificationTable(items)
    ensures LastSpecification(items, k, name) && SpecificationTable(items)[name] == items[k]
  {
    var n := |items| - 1;
    if items[n].name == name { k := n; } else { k := SpecificationAt(items[..n], name); }
  }

  lemma {:induction false} SpecificationCounts(items: seq<ArgumentSpec>, k: int, name: OperandName)
    requires LastSpecification(items, k, name)
    ensures 0 <= k < |items| && name in SpecificationTable(items) && SpecificationTable(items)[name] == items[k]
  {
    var n := |items| - 1;
    if k < n { SpecificationCounts(items[..n], k, name); }
  }

  predicate LastBinding(items: seq<ResourceBinding>, k: int, name: string) {
    0 <= k < |items| && items[k].ref == name && forall j :: k < j < |items| ==> items[j].ref != name
  }

  lemma {:induction false} BindingAt(items: seq<ResourceBinding>, name: string) returns (k: nat)
    requires name in BindingTable(items)
    ensures LastBinding(items, k, name) && BindingTable(items)[name] == items[k]
  {
    var n := |items| - 1;
    if items[n].ref == name { k := n; } else { k := BindingAt(items[..n], name); }
  }

  lemma {:induction false} BindingCounts(items: seq<ResourceBinding>, k: int, name: string)
    requires LastBinding(items, k, name)
    ensures 0 <= k < |items| && name in BindingTable(items) && BindingTable(items)[name] == items[k]
  {
    var n := |items| - 1;
    if k < n { BindingCounts(items[..n], k, name); }
  }

  lemma BindingMeans(items: seq<ResourceBinding>, name: string)
    ensures name in BindingTable(items) <==> exists k :: LastBinding(items, k, name)
    ensures forall k :: LastBinding(items, k, name) ==>
              0 <= k < |items| && name in BindingTable(items) && BindingTable(items)[name] == items[k]
  {
    hide BindingTable, LastBinding;
    if name in BindingTable(items) { var k := BindingAt(items, name); }
    forall k | LastBinding(items, k, name)
      ensures 0 <= k < |items| && name in BindingTable(items) && BindingTable(items)[name] == items[k]
    {
      BindingCounts(items, k, name);
    }
  }

  // ----- One step -----

  ghost predicate ArgumentFits(value: ArgumentValue, spec: ArgumentSpec, resources: seq<ResourceBinding>) {
    match spec.kind
    case IntegerKind => value.IntegerValue? && spec.minimum <= value.i && value.i <= spec.maximum
    case BooleanKind => value == BooleanValue(true) || value == BooleanValue(false)
    case EnumKind => exists k :: 0 <= k < |spec.enumSymbols| && value == SymbolValue(spec.enumSymbols[k])
    case ResourceKind =>
      exists k :: 0 <= k < |resources| && value == ResourceValue(resources[k].ref) && resources[k].kind == spec.resourceKind
  }

  ghost predicate ArgumentGiven(step: SymbolicStep, name: OperandName) {
    exists i :: 0 <= i < |step.arguments| && step.arguments[i].name == name
  }

  ghost predicate ArgumentListed(argument: SymbolicArgument, operation: Operation, resources: seq<ResourceBinding>) {
    exists k :: LastSpecification(operation.arguments, k, argument.name)
                && ArgumentFits(argument.value, operation.arguments[k], resources)
  }

  // Every argument fits its specification, and every specification has its argument.
  ghost predicate ArgumentsFit(step: SymbolicStep, operation: Operation, resources: seq<ResourceBinding>) {
    && (forall i :: 0 <= i < |step.arguments| ==> ArgumentListed(step.arguments[i], operation, resources))
    && (forall k :: 0 <= k < |operation.arguments| ==> ArgumentGiven(step, operation.arguments[k].name))
  }

  // The link mode is what the three linking flags say.
  predicate LinksFit(step: SymbolicStep) {
    && (step.linkMode == Link <==> IoLink in step.flags)
    && (step.linkMode == HardLink <==> IoHardlink in step.flags)
    && (step.linkMode == Drain <==> IoDrain in step.flags)
  }

  ghost predicate OperationFits(step: SymbolicStep, program: PlannerProgram, contract: HarnessContract, operation: Operation) {
    && program.ringProfileId in operation.allowedProfiles
    && program.lane in operation.allowedLanes
    && (forall f :: f in step.flags ==> f in operation.allowedFlags && exists s :: s in contract.flags && s.symbol == f)
    && LinksFit(step)
    && (forall c :: c in step.expectedResultClasses ==> c in operation.resultClasses)
    && ArgumentsFit(step, operation, program.resources)
  }

  ghost predicate StepFits(step: SymbolicStep, program: PlannerProgram, contract: HarnessContract) {
    && step.ringRef == program.ringProfileId
    && exists k :: LastOperationEntry(contract.operations, k, step.operation)
                   && OperationFits(step, program, contract, contract.operations[k])
  }

  lemma LinksMean(step: SymbolicStep)
    ensures LinkModeAccepted(step) <==> LinksFit(step)
  {
    var selected, expected := SelectedLinkFlags(step), LinkFlags(step.linkMode);
    assert forall f :: f in selected <==> f in step.flags && (f == IoLink || f == IoHardlink || f == IoDrain);
    assert IoLink in expected <==> step.linkMode == Link;
    assert IoHardlink in expected <==> step.linkMode == HardLink;
    assert IoDrain in expected <==> step.linkMode == Drain;
    assert forall f :: f in expected ==> f == IoLink || f == IoHardlink || f == IoDrain;
    if LinksFit(step) { assert selected == expected; }
    hide SelectedLinkFlags, LinkFlags;
  }

  lemma BindingsAreListed(resources: seq<ResourceBinding>, ref: string, kind: string)
    requires WellFormedResources(resources)
    ensures ref in BindingTable(resources) && BindingTable(resources)[ref].kind == kind <==>
            exists k :: 0 <= k < |resources| && resources[k].ref == ref && resources[k].kind == kind
  {
    BindingMeans(resources, ref);
    hide BindingTable;
    if k :| 0 <= k < |resources| && resources[k].ref == ref && resources[k].kind == kind {
      assert LastBinding(resources, k, ref);
    }
  }

  lemma ArgumentMeans(value: ArgumentValue, spec: ArgumentSpec, resources: seq<ResourceBinding>)
    requires WellFormedResources(resources)
    ensures ArgumentAccepted(value, spec, BindingTable(resources)) <==> ArgumentFits(value, spec, resources)
  {
    hide BindingTable, WellFormedResources;
    if value.ResourceValue? {
      BindingsAreListed(resources, value.ref, spec.resourceKind);
    }
  }

  lemma ArgumentListedMeans(argument: SymbolicArgument, operation: Operation, resources: seq<ResourceBinding>)
    requires WellFormedResources(resources)
    ensures
      var expected := SpecificationTable(operation.arguments);
      ArgumentListed(argument, operation, resources) <==>
      argument.name in expected && ArgumentAccepted(argument.value, expected[argument.name], BindingTable(resources))
  {
    hide WellFormedResources, SpecificationTable, BindingTable, ArgumentAccepted, ArgumentFits;
    if argument.name in SpecificationTable(operation.arguments) {
      var k := SpecificationAt(operation.arguments, argument.name);
      ArgumentMeans(argument.value, operation.arguments[k], resources);
    }
    if k :| LastSpecification(operation.arguments, k, argument.name)
            && ArgumentFits(argument.value, operation.arguments[k], resources) {
      SpecificationCounts(operation.arguments, k, argument.name);
      ArgumentMeans(argument.value, operation.arguments[k], resources);
    }
  }

  lemma AcceptedArgumentsFit(step: SymbolicStep, operation: Operation, resources: seq<ResourceBinding>)
    requires WellFormedStep(step) && WellFormedResources(resources)
    requires ArgumentsAccepted(step, operation, BindingTable(resources))
    ensures ArgumentsFit(step, operation, resources)
  {
    hide WellFormedResources, ArgumentAccepted, ArgumentListed, ArgumentTable, SpecificationTable, BindingTable;
    var proposed, expected := ArgumentTable(step.arguments), SpecificationTable(operation.arguments);
    forall i | 0 <= i < |step.arguments|
      ensures ArgumentListed(step.arguments[i], operation, resources)
    {
      ProposedMeans(step.arguments, step.arguments[i].name);
      assert step.arguments[i].name in proposed && step.arguments[i].name in expected.Keys;
      ArgumentListedMeans(step.arguments[i], operation, resources);
    }
    forall k | 0 <= k < |operation.arguments|
      ensures ArgumentGiven(step, operation.arguments[k].name)
    {
      SpecificationListed(operation.arguments, operation.arguments[k].name);
      assert operation.arguments[k].name in expected.Keys;
      ProposedMeans(step.arguments, operation.arguments[k].name);
    }
  }

  lemma FittingArgumentsAccepted(step: SymbolicStep, operation: Operation, resources: seq<ResourceBinding>)
    requires WellFormedStep(step) && WellFormedResources(resources)
    requires ArgumentsFit(step, operation, resources)
    ensures ArgumentsAccepted(step, operation, BindingTable(resources))
  {
    hide WellFormedResources, ArgumentAccepted, ArgumentListed, ArgumentTable, SpecificationTable, BindingTable;
    var proposed, expected := ArgumentTable(step.arguments), SpecificationTable(operation.arguments);
    forall name | name in proposed
      ensures name in expected && ArgumentAccepted(proposed[name], expected[name], BindingTable(resources))
    {
      ProposedMeans(step.arguments, name);
      var i :| 0 <= i < |step.arguments| && step.arguments[i].name == name;
      assert ArgumentListed(step.arguments[i], operation, resources);
      ArgumentListedMeans(step.arguments[i], operation, resources);
    }
    forall name | name in expected
      ensures name in proposed
    {
      SpecificationListed(operation.arguments, name);
      var k :| 0 <= k < |operation.arguments| && operation.arguments[k].name == name;
      assert ArgumentGiven(step, operation.arguments[k].name);
      ProposedMeans(step.arguments, name);
    }
    assert proposed.Keys == expected.Keys;
  }

  lemma ArgumentsMean(step: SymbolicStep, operation: Operation, resources: seq<ResourceBinding>)
    requires WellFormedStep(step) && WellFormedResources(resources)
    ensures ArgumentsAccepted(step, operation, BindingTable(resources)) <==> ArgumentsFit(step, operation, resources)
  {
    if ArgumentsAccepted(step, operation, BindingTable(resources)) { AcceptedArgumentsFit(step, operation, resources); }
    if ArgumentsFit(step, operation, resources) { FittingArgumentsAccepted(step, operation, resources); }
    hide ArgumentsAccepted, ArgumentsFit;
  }

  lemma ProposedMeans(arguments: seq<SymbolicArgument>, name: OperandName)
    requires DistinctArgumentNames(arguments)
    ensures name in ArgumentTable(arguments) <==> exists i :: 0 <= i < |arguments| && arguments[i].name == name
    ensures forall i :: 0 <= i < |arguments| && arguments[i].name == name ==>
              name in ArgumentTable(arguments) && ArgumentTable(arguments)[name] == arguments[i].value
  {
    ArgumentTableEntry(arguments, name);
    hide ArgumentTable;
  }

  lemma {:induction false} SpecificationListed(specs: seq<ArgumentSpec>, name: OperandName)
    ensures name in SpecificationTable(specs) <==> exists k :: 0 <= k < |specs| && specs[k].name == name
  {
    if specs != [] {
      var n := |specs| - 1;
      SpecificationListed(specs[..n], name);
      assert forall k :: 0 <= k < n ==> specs[..n][k] == specs[k];
    }
  }

  lemma {:induction false} FlagListed(specs: seq<FlagSpec>, flag: FlagSymbol)
    ensures flag in FlagTable(specs) <==> exists s :: s in specs && s.symbol == flag
  {
    if specs != [] {
      var n := |specs| - 1;
      FlagListed(specs[..n], flag);
      assert specs == specs[..n] + [specs[n]];
    }
  }

  lemma OperationMeans(step: SymbolicStep, program: PlannerProgram, contract: HarnessContract, operation: Operation)
    requires WellFormedStep(step) && WellFormedResources(program.resources)
    ensures && program.ringProfileId in operation.allowedProfiles
            && program.lane in operation.allowedLanes
            && FlagsAccepted(step, operation, contract)
            && LinkModeAccepted(step)
            && OutcomesAccepted(step, operation)
            && ArgumentsAccepted(step, operation, BindingTable(program.resources))
       <==> OperationFits(step, program, contract, operation)
  {
    hide WellFormedStep, WellFormedResources, LinksFit, LinkModeAccepted, ArgumentsAccepted, ArgumentsFit, BindingTable, FlagTable;
    LinksMean(step);
    ArgumentsMean(step, operation, program.resources);
    forall f | f in step.flags ensures f in FlagTable(contract.flags) <==> exists s :: s in contract.flags && s.symbol == f {
      FlagListed(contract.flags, f);
    }
  }

  // A step is accepted exactly when it fits the entry of its operation.
  lemma StepAcceptedExactly(step: SymbolicStep, program: PlannerProgram, contract: HarnessContract)
    requires WellFormedStep(step) && WellFormedResources(program.resources)
    ensures StepAccepted(step, program, contract) <==> StepFits(step, program, contract)
  {
    hide WellFormedStep, WellFormedResources, OperationFits, OperationTable, FlagsAccepted, LinkModeAccepted, OutcomesAccepted,
      ArgumentsAccepted, BindingTable, LastOperationEntry;
    OperationEntryMeans(contract.operations, step.operation);
    if step.operation in OperationTable(contract.operations) {
      OperationMeans(step, program, contract, OperationTable(contract.operations)[step.operation]);
    }
    forall k | LastOperationEntry(contract.operations, k, step.operation)
      ensures contract.operations[k] == OperationTable(contract.operations)[step.operation]
    {
    }
  }

  // ----- One program -----

  ghost predicate ProfileFits(contract: HarnessContract, id: ProfileId, lanes: set<Lane>) {
    && id !in contract.forbiddenProfiles
    && exists k :: LastProfile(contract.profiles, k, id) && (forall lane :: lane in lanes ==> lane in contract.profiles[k].allowedLanes)
  }

  ghost predicate KindFits(contract: HarnessContract, kind: string, total: nat) {
    exists k :: LastResourceKind(contract.resources, k, kind) && total <= contract.resources[k].maxInstances
  }

  // All instances of a kind together stay within the kind's maximum.
  ghost predicate ResourcesFit(resources: seq<ResourceBinding>, contract: HarnessContract) {
    forall i :: 0 <= i < |resources| ==> KindFits(contract, resources[i].kind, TotalQuantity(resources, resources[i].kind))
  }

  // In production also: one variant, no perturbation, and the rules of the submission stream.
  ghost predicate ProgramFits(program: PlannerProgram, contract: HarnessContract)
    requires program.steps != []
  {
    && ProfileFits(contract, program.ringProfileId, {program.lane})
    && ResourcesFit(program.resources, contract)
    && |program.steps| <= contract.operationMaxCount
    && (forall k :: 0 <= k < |program.steps| ==> StepFits(program.steps[k], program, contract))
    && (contract.environment == Production ==>
          program.requestedLocalVariants == 1 && program.perturbations == 0 && NativeRulesHold(program, contract))
  }

  ghost predicate ProfileAllows(contract: HarnessContract, id: ProfileId, lanes: set<Lane>) {
    var table := ProfileTable(contract.profiles);
    id in table && id !in contract.forbiddenProfiles && forall lane :: lane in lanes ==> lane in table[id].allowedLanes
  }

  lemma ProfileListed(contract: HarnessContract, id: ProfileId, lanes: set<Lane>)
    ensures ProfileAllows(contract, id, lanes) <==> ProfileFits(contract, id, lanes)
  {
    hide ProfileTable;
    if ProfileAllows(contract, id, lanes) { var k := ProfileAt(contract.profiles, id); }
    if ProfileFits(contract, id, lanes) {
      var k :| LastProfile(contract.profiles, k, id) && (forall lane :: lane in lanes ==> lane in contract.profiles[k].allowedLanes);
      ProfileCounts(contract.profiles, k, id);
    }
  }

  lemma ResourcesListed(resources: seq<ResourceBinding>, contract: HarnessContract)
    ensures ResourcesAccepted(resources, ResourceTable(contract.resources)) <==> ResourcesFit(resources, contract)
  {
    hide ResourceTable, LastResourceKind, TotalQuantity;
    forall i | 0 <= i < |resources|
      ensures (resources[i].kind in ResourceTable(contract.resources)
               && TotalQuantity(resources, resources[i].kind) <= ResourceTable(contract.resources)[resources[i].kind]) <==>
              KindFits(contract, resources[i].kind, TotalQuantity(resources, resources[i].kind))
    {
      KindListed(contract, resources[i].kind, TotalQuantity(resources, resources[i].kind));
    }
  }

  lemma KindListed(contract: HarnessContract, kind: string, total: nat)
    ensures (kind in ResourceTable(contract.resources) && total <= ResourceTable(contract.resources)[kind])
       <==> KindFits(contract, kind, total)
  {
    hide ResourceTable, LastResourceKind;
    ResourceKindMeans(contract.resources, kind);
    if k :| LastResourceKind(contract.resources, k, kind) && total <= contract.resources[k].maxInstances {
      ResourceKindCounts(contract.resources, k, kind);
    }
  }

  lemma ProgramAcceptedExactly(program: PlannerProgram, contract: HarnessContract)
    requires WellFormedProgram(program)
    ensures ProgramAccepted(program, contract) <==> ProgramFits(program, contract)
  {
    hide ProfileTable, ResourceTable, StepAccepted, StepFits, NativeRulesHold, ResourcesAccepted, ResourcesFit, ProfileFits,
      WellFormedStep, WellFormedResources, DistinctStepIds, ResourcesDeclared;
    ProfileListed(contract, program.ringProfileId, {program.lane});
    ResourcesListed(program.resources, contract);
    forall k | 0 <= k < |program.steps|
      ensures StepAccepted(program.steps[k], program, contract) <==> StepFits(program.steps[k], program, contract)
    {
      StepAcceptedExactly(program.steps[k], program, contract);
    }
  }

  // ----- The proposal -----

  // Some part of the proposal rests on the evidence.
  ghost predicate Cites(proposal: PlannerProposal, evidence: string) {
    || evidence in proposal.hypothesisEvidence
    || exists k :: 0 <= k < |proposal.researchPriorities| && evidence in proposal.researchPriorities[k].evidenceRefs
  }

  ghost predicate PriorityFits(priority: ResearchPriority, contract: HarnessContract) {
    && (forall o :: o in priority.operationFamilies ==> exists k :: LastOperationEntry(contract.operations, k, o))
    && (forall id :: id in priority.ringProfileIds ==>
          ProfileFits(contract, id, set lane | lane in priority.preferredLanes))
  }

  // Programs need a deterministic compiler whose round trip is verified; in production also the
  // audited harness and this very compiler, under a verified contract that is not for tests.
  ghost predicate CompilerFits(contract: HarnessContract, compilerHash: string) {
    && contract.deterministicCompiler && contract.roundTripVerified
    && (contract.environment == Production ==>
          && contract.verified && !contract.testOnly
          && contract.targetHashes.harness == AUDITED_HARNESS_HASH && contract.targetHashes.compiler == compilerHash)
  }

  ghost predicate Acceptable(
    telemetry: TelemetryPacket, proposal: PlannerProposal, contract: HarnessContract, mode: RuntimeMode, compilerHash: string)
    requires WellFormedProposal(proposal)
  {
    && proposal.packetId == telemetry.packetId
    && proposal.targetHashes == telemetry.targetHashes && telemetry.targetHashes == contract.targetHashes
    && contract.verified
    && (match mode
        case MockMode => contract.environment == Mock || contract.environment == Testing
        case ShadowMode => contract.environment == Production && !contract.testOnly
        case OtherMode => false)
    && (forall evidence :: Cites(proposal, evidence) ==> evidence in telemetry.evidenceRefs)
    && (if proposal.abstain then
          !proposal.analysisOnly && |proposal.researchPriorities| == 0 && |proposal.programs| == 0
        else if proposal.analysisOnly then
          && |proposal.researchPriorities| > 0 && |proposal.programs| == 0
          && forall k :: 0 <= k < |proposal.researchPriorities| ==> PriorityFits(proposal.researchPriorities[k], contract)
        else
          && CompilerFits(contract, compilerHash)
          && TotalVariants(proposal.programs) <= 64
          && forall k :: 0 <= k < |proposal.programs| ==> ProgramFits(proposal.programs[k], contract))
  }

  lemma OperationListed(items: seq<Operation>, o: OperationSymbol)
    ensures o in OperationTable(items) <==> exists k :: LastOperationEntry(items, k, o)
  {
    OperationEntryMeans(items, o);
  }

  lemma PriorityAcceptedExactly(priority: ResearchPriority, contract: HarnessContract)
    ensures PriorityAccepted(priority, contract) <==> PriorityFits(priority, contract)
  {
    hide ProfileTable, OperationTable, LastOperationEntry, ProfileFits;
    var lanes := set lane | lane in priority.preferredLanes;
    forall o | o in priority.operationFamilies
      ensures o in OperationTable(contract.operations) <==> exists k :: LastOperationEntry(contract.operations, k, o)
    {
      OperationListed(contract.operations, o);
    }
    var table := ProfileTable(contract.profiles);
    forall id | id in priority.ringProfileIds
      ensures ProfileAllows(contract, id, lanes) <==> ProfileFits(contract, id, lanes)
    {
      ProfileListed(contract, id, lanes);
    }
  }

  lemma GatesMean(contract: HarnessContract, compilerHash: string)
    ensures && contract.deterministicCompiler && contract.roundTripVerified
            && (contract.environment == Production ==> CompilerEnabled(contract, compilerHash))
       <==> CompilerFits(contract, compilerHash)
  {
    AuditedCodecAlwaysVerifies();
    hide AuditedCodecVerified;
  }

  lemma EvidenceMeans(telemetry: TelemetryPacket, proposal: PlannerProposal)
    ensures EvidenceCited(telemetry, proposal) <==>
            forall evidence :: Cites(proposal, evidence) ==> evidence in telemetry.evidenceRefs
  {
    forall evidence | evidence in proposal.hypothesisEvidence ensures Cites(proposal, evidence) {
    }
    forall k, evidence | 0 <= k < |proposal.researchPriorities| && evidence in proposal.researchPriorities[k].evidenceRefs
      ensures Cites(proposal, evidence)
    {
    }
  }

  // The validator accepts exactly the acceptable proposals.
  lemma ProposalAcceptedExactly(
    telemetry: TelemetryPacket, proposal: PlannerProposal, contract: HarnessContract, mode: RuntimeMode, compilerHash: string)
    requires WellFormedProposal(proposal)
    ensures ProposalAccepted(telemetry, proposal, contract, mode, compilerHash) <==>
            Acceptable(telemetry, proposal, contract, mode, compilerHash)
  {
    EvidenceMeans(telemetry, proposal);
    GatesMean(contract, compilerHash);
    hide EvidenceCited, Cites, CompilerEnabled, CompilerFits, PriorityAccepted, PriorityFits, ProgramAccepted, ProgramFits,
      TotalVariants;
    forall k | 0 <= k < |proposal.researchPriorities|
      ensures PriorityAccepted(proposal.researchPriorities[k], contract) <==> PriorityFits(proposal.researchPriorities[k], contract)
    {
      PriorityAcceptedExactly(proposal.researchPriorities[k], contract);
    }
    forall k | 0 <= k < |proposal.programs|
      ensures WellFormedProgram(proposal.programs[k])
      ensures ProgramAccepted(proposal.programs[k], contract) <==> ProgramFits(proposal.programs[k], contract)
    {
      ProgramAcceptedExactly(proposal.programs[k], contract);
    }
    hide WellFormedProgram;
  }

  // More evidence in the packet never makes a valid proposal invalid.
  lemma MoreEvidenceNeverInvalidates(
    telemetry: TelemetryPacket, more: seq<string>, proposal: PlannerProposal, contract: HarnessContract, mode: RuntimeMode,
    compilerHash: string)
    requires WellFormedProposal(proposal) && ProposalAccepted(telemetry, proposal, contract, mode, compilerHash)
    ensures ProposalAccepted(telemetry.(evidenceRefs := telemetry.evidenceRefs + more), proposal, contract, mode, compilerHash)
  {
    var richer := telemetry.(evidenceRefs := telemetry.evidenceRefs + more);
    ProposalAcceptedExactly(telemetry, proposal, contract, mode, compilerHash);
    ProposalAcceptedExactly(richer, proposal, contract, mode, compilerHash);
    hide ProposalAccepted, Cites, CompilerFits, PriorityFits, ProgramFits, TotalVariants, WellFormedProgram;
  }
}
