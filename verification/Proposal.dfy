// The planner's typed program and the invariants its data model enforces on construction.
module Proposal {
  import opened Wrappers
  import opened HarnessCodec
  import opened Contract

  // Exactly one value is active, according to the kind.
  datatype ArgumentValue = IntegerValue(i: int) | BooleanValue(b: bool) | SymbolValue(s: string) | ResourceValue(ref: string)
  datatype SymbolicArgument = SymbolicArgument(name: OperandName, value: ArgumentValue)
  datatype LinkMode = NoLink | Link | HardLink | Drain

  datatype SymbolicStep = SymbolicStep(
    stepId: string, operation: OperationSymbol, ringRef: ProfileId, arguments: seq<SymbolicArgument>,
    flags: seq<FlagSymbol>, linkMode: LinkMode, expectedResultClasses: seq<string>)

  datatype ResourceBinding = ResourceBinding(ref: string, kind: string, quantity: nat)

  datatype PlannerProgram = PlannerProgram(
    programId: string, lane: Lane, ringProfileId: ProfileId, resources: seq<ResourceBinding>,
    steps: seq<SymbolicStep>, perturbations: nat, requestedLocalVariants: nat)

  datatype ResearchPriority = ResearchPriority(
    priorityId: string, evidenceRefs: seq<string>, operationFamilies: seq<OperationSymbol>,
    ringProfileIds: seq<ProfileId>, preferredLanes: seq<Lane>)

  datatype PlannerProposal = PlannerProposal(
    packetId: string, targetHashes: TargetHashes, hypothesisEvidence: seq<string>, abstain: bool,
    analysisOnly: bool, researchPriorities: seq<ResearchPriority>, programs: seq<PlannerProgram>)

  datatype TelemetryPacket = TelemetryPacket(packetId: string, targetHashes: TargetHashes, evidenceRefs: seq<string>)

  predicate Distinct<T(==)>(items: seq<T>) {
    forall i, j :: 0 <= i < j < |items| ==> items[i] != items[j]
  }

  predicate DistinctArgumentNames(arguments: seq<SymbolicArgument>) {
    forall i, j :: 0 <= i < j < |arguments| ==> arguments[i].name != arguments[j].name
  }

  predicate WellFormedStep(step: SymbolicStep) {
    && |step.arguments| <= 16 && DistinctArgumentNames(step.arguments)
    && |step.flags| <= 16 && Distinct(step.flags)
    && 1 <= |step.expectedResultClasses| <= 8
  }

  predicate DistinctStepIds(steps: seq<SymbolicStep>) {
    forall i, j :: 0 <= i < j < |steps| ==> steps[i].stepId != steps[j].stepId
  }

  // Distinct names, each for 1 to 64 instances.
  predicate WellFormedResources(resources: seq<ResourceBinding>) {
    && |resources| <= 16
    && (forall i, j :: 0 <= i < j < |resources| ==> resources[i].ref != resources[j].ref)
    && (forall r :: r in resources ==> 1 <= r.quantity <= 64)
  }

  // Every resource an argument names is declared.
  predicate ResourcesDeclared(p: PlannerProgram) {
    forall step, argument :: step in p.steps && argument in step.arguments && argument.value.ResourceValue? ==>
      exists r :: r in p.resources && r.ref == argument.value.ref
  }

  predicate WellFormedProgram(p: PlannerProgram) {
    && 1 <= |p.steps| <= 64
    && (forall k :: 0 <= k < |p.steps| ==> WellFormedStep(p.steps[k]))
    && DistinctStepIds(p.steps)
    && WellFormedResources(p.resources)
    && ResourcesDeclared(p)
    && p.perturbations <= 8
    && 1 <= p.requestedLocalVariants <= 32
  }

  predicate WellFormedProposal(p: PlannerProposal) {
    forall k :: 0 <= k < |p.programs| ==> WellFormedProgram(p.programs[k])
  }

  // A dictionary of the arguments by name; the last of a name wins.
  function ArgumentTable(arguments: seq<SymbolicArgument>): map<OperandName, ArgumentValue> {
    if arguments == [] then map[]
    else
      var last := arguments[|arguments| - 1];
      ArgumentTable(arguments[..|arguments| - 1])[last.name := last.value]
  }

  // The first integer argument of that name.
  function IntegerArgument(arguments: seq<SymbolicArgument>, name: OperandName): Option<int> {
    if arguments == [] then None
    else if arguments[0].name == name && arguments[0].value.IntegerValue? then Some(arguments[0].value.i)
    else IntegerArgument(arguments[1..], name)
  }

  lemma {:induction false} ArgumentTableEntry(arguments: seq<SymbolicArgument>, name: OperandName)
    ensures name in ArgumentTable(arguments) ==>
            exists k :: 0 <= k < |arguments| && arguments[k] == SymbolicArgument(name, ArgumentTable(arguments)[name])
    ensures (exists k :: 0 <= k < |arguments| && arguments[k].name == name) ==> name in ArgumentTable(arguments)
  {
    if arguments != [] {
      var n := |arguments| - 1;
      ArgumentTableEntry(arguments[..n], name);
      if name in ArgumentTable(arguments[..n]) && name != arguments[n].name {
        var k :| 0 <= k < n && arguments[..n][k] == SymbolicArgument(name, ArgumentTable(arguments[..n])[name]);
        assert arguments[k] == SymbolicArgument(name, ArgumentTable(arguments)[name]);
      } else if name == arguments[n].name {
        assert arguments[n] == SymbolicArgument(name, ArgumentTable(arguments)[name]);
      }
      if k :| 0 <= k < |arguments| && arguments[k].name == name {
        assert k < n ==> arguments[..n][k].name == name;
      }
    }
  }

  lemma {:induction false} IntegerArgumentFound(arguments: seq<SymbolicArgument>, k: nat)
    requires k < |arguments| && DistinctArgumentNames(arguments) && arguments[k].value.IntegerValue?
    ensures IntegerArgument(arguments, arguments[k].name) == Some(arguments[k].value.i)
  {
    if k > 0 {
      assert arguments[1..][k - 1] == arguments[k];
      IntegerArgumentFound(arguments[1..], k - 1);
    }
  }

  // With distinct names, both look-ups of an integer argument agree.
  lemma IntegerArgumentIsTableEntry(arguments: seq<SymbolicArgument>, name: OperandName)
    requires DistinctArgumentNames(arguments)
    requires name in ArgumentTable(arguments) && ArgumentTable(arguments)[name].IntegerValue?
    ensures IntegerArgument(arguments, name) == Some(ArgumentTable(arguments)[name].i)
  {
    ArgumentTableEntry(arguments, name);
    var k :| 0 <= k < |arguments| && arguments[k] == SymbolicArgument(name, ArgumentTable(arguments)[name]);
    IntegerArgumentFound(arguments, k);
  }
}
