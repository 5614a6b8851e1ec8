// From a validated program to the submission stream: the compiler never blocks, the harness
// dispatches each step faithfully, and the validator's static rules are exactly what makes the
// dispatched stream safe.
module NativeChain {
  import opened Bits
  import opened Wrappers
  import opened HarnessCodec
  import opened Repro
  import opened NativeHarness
  import opened ThreeParsers
  import opened Contract
  import opened Proposal
  import opened Compiler
  import opened Validator
  import opened FlagControl

  // ----- One step -----

  lemma {:induction false} ByteSpecificationTable(names: seq<OperandName>)
    ensures
      var table := SpecificationTable(ByteArguments(names));
      && (forall name :: name in table <==> name in names)
      && (forall name :: name in table ==> table[name] == ByteArgument(name))
  {
    if names != [] {
      var n := |names| - 1;
      assert ByteArguments(names)[..n] == ByteArguments(names[..n]);
      ByteSpecificationTable(names[..n]);
      assert names == names[..n] + [names[n]];
    }
  }

  lemma {:induction false} ByteOperandsOfIntegers(names: seq<OperandName>, provided: map<OperandName, ArgumentValue>)
    requires forall i :: 0 <= i < |names| ==>
               names[i] in provided && provided[names[i]].IntegerValue? && IsByte(provided[names[i]].i)
    ensures
      var operands := ByteOperands(names, provided);
      && operands.Ok? && |operands.value| == |names| && AllBytes(operands.value)
      && forall i :: 0 <= i < |names| ==> operands.value[i] == provided[names[i]].i
  {
    if names != [] {
      ByteOperandsOfIntegers(names[1..], provided);
    }
  }

  // What compiling one step promises, in the step's own terms.
  ghost predicate CompiledStep(step: SymbolicStep, op: NativeOperation) {
    && SelectorOf(step.operation) == Some(op.selector)
    && CanonicalOperation(op)
    && (var names := EncoderOperandNames(op.selector);
        |op.operands| == |names|
        && forall i :: 0 <= i < |names| ==> IntegerArgument(step.arguments, names[i]) == Some(op.operands[i]))
    && ControlOf(op.sqeControl, step.flags)
    && op.sqeControl == BitAnd(op.sqeControl, SQE_FLAG_MASK) == SumFlags(step.flags, FlagTable(PRODUCTION_FLAGS))
  }

  lemma AcceptedFlagsAreKnown(step: SymbolicStep, operation: Operation, contract: HarnessContract)
    requires contract.flags == PRODUCTION_FLAGS && FlagsAccepted(step, operation, contract)
    ensures KnownFlags(step.flags)
  {
    forall f | f in step.flags
      ensures FlagBit(f).Some?
    {
      FlagLookup(f);
    }
  }

  lemma AcceptedArgumentsAreBytes(step: SymbolicStep, names: seq<OperandName>, operation: Operation,
                                  bindings: map<string, ResourceBinding>)
    requires operation.arguments == ByteArguments(names) && ArgumentsAccepted(step, operation, bindings)
    ensures
      var provided := ArgumentTable(step.arguments);
      && provided.Keys == (set n | n in names)
      && forall name :: name in provided ==> provided[name].IntegerValue? && IsByte(provided[name].i)
  {
    ByteSpecificationTable(names);
    var provided, expected := ArgumentTable(step.arguments), SpecificationTable(operation.arguments);
    assert forall name :: name in provided ==> ArgumentAccepted(provided[name], expected[name], bindings);
    assert forall name :: name in provided ==> expected[name] == ByteArgument(name);
  }

  predicate OperandsOf(step: SymbolicStep, names: seq<OperandName>, operands: seq<int>) {
    && |operands| == |names| && AllBytes(operands)
    && forall i :: 0 <= i < |names| ==> IntegerArgument(step.arguments, names[i]) == Some(operands[i])
  }

  lemma AcceptedOperandsCompile(step: SymbolicStep, names: seq<OperandName>, operation: Operation,
                                bindings: map<string, ResourceBinding>)
    requires operation.arguments == ByteArguments(names) && ArgumentsAccepted(step, operation, bindings)
    requires DistinctArgumentNames(step.arguments)
    ensures ArgumentTable(step.arguments).Keys == (set n | n in names)
    ensures ByteOperands(names, ArgumentTable(step.arguments)).Ok?
    ensures OperandsOf(step, names, ByteOperands(names, ArgumentTable(step.arguments)).value)
  {
    hide ArgumentTable, ByteOperands, IntegerArgument, SpecificationTable, ArgumentsAccepted, DistinctArgumentNames;
    var provided := ArgumentTable(step.arguments);
    AcceptedArgumentsAreBytes(step, names, operation, bindings);
    ByteOperandsOfIntegers(names, provided);
    forall i | 0 <= i < |names|
      ensures IntegerArgument(step.arguments, names[i]) == Some(provided[names[i]].i)
    {
      IntegerArgumentIsTableEntry(step.arguments, names[i]);
    }
  }

  lemma ProductionSpecifications(names: seq<OperandName>)
    ensures SpecificationNames(ByteArguments(names)) == names
    ensures forall i :: 0 <= i < |ByteArguments(names)| ==> CanonicalSpecification(ByteArguments(names)[i])
  {
  }

  lemma AcceptedStepCompiles(step: SymbolicStep, program: PlannerProgram, contract: HarnessContract)
    requires contract.operations == ProductionOperations() && contract.flags == PRODUCTION_FLAGS
    requires contract.selectorModulus == OPERATION_COUNT
    requires WellFormedStep(step) && StepAccepted(step, program, contract)
    ensures CompileStep(step, contract).Ok? && CompiledStep(step, CompileStep(step, contract).value)
  {
    hide EncoderOperandNames, DecoderOperandCount, SymbolAt, SelectorOf, ArgumentTable, FlagTable, FoldFlags, SumFlags,
      ByteOperands, OperationTable, LinkModeAccepted, OutcomesAccepted, FlagsAccepted, ByteArguments,
      ArgumentsAccepted, IntegerArgument, ControlOf, BitAnd, ProductionOperations, SpecificationNames,
      CanonicalSpecification, DistinctArgumentNames, AllBytes, BindingTable, ProfileIds;
    OperationLookup(step.operation);
    var selector := SelectorOf(step.operation).value;
    var names, operation := EncoderOperandNames(selector), ProductionOperation(selector);
    TablesAgree(selector);
    ProductionSpecifications(names);
    AcceptedOperandsCompile(step, names, operation, BindingTable(program.resources));
    AcceptedFlagsAreKnown(step, operation, contract);
    ControlByteOfFlags(step.flags);
    assert OperandNames(selector) == Ok(names);
    var operands := ByteOperands(names, ArgumentTable(step.arguments)).value;
    var control := FoldFlags(step.flags, FlagTable(contract.flags), 0).value;
    assert CompileStep(step, contract) == Ok(NativeOperation(selector, operands, control));
  }

  // ----- The whole program -----

  lemma {:induction false} AcceptedStepsCompile(steps: seq<SymbolicStep>, program: PlannerProgram, contract: HarnessContract)
    requires contract.operations == ProductionOperations() && contract.flags == PRODUCTION_FLAGS
    requires contract.selectorModulus == OPERATION_COUNT
    requires forall k :: 0 <= k < |steps| ==> WellFormedStep(steps[k]) && StepAccepted(steps[k], program, contract)
    ensures CompileSteps(steps, contract).Ok? && |CompileSteps(steps, contract).value| == |steps|
    ensures forall k :: 0 <= k < |steps| ==> CompiledStep(steps[k], CompileSteps(steps, contract).value[k])
  {
    hide StepAccepted, CompileStep, CompiledStep, WellFormedStep, ProductionOperations;
    if steps != [] {
      AcceptedStepCompiles(steps[0], program, contract);
      AcceptedStepsCompile(steps[1..], program, contract);
      var first, rest := CompileStep(steps[0], contract).value, CompileSteps(steps[1..], contract).value;
      assert CompileSteps(steps, contract).value == [first] + rest;
      assert forall k :: 0 < k < |steps| ==> steps[k] == steps[1..][k - 1];
    }
  }

  // What the dispatched entry says about the step it came from.
  ghost predicate DispatchesStep(step: SymbolicStep, sqe: Sqe) {
    && SelectorOf(step.operation) == Some(sqe.selector)
    && sqe.selector < OPERATION_COUNT
    && sqe.userData == sqe.selector
    && (var names := EncoderOperandNames(sqe.selector);
        |sqe.operands| == |names|
        && forall i :: 0 <= i < |names| ==> IntegerArgument(step.arguments, names[i]) == Some(sqe.operands[i]))
    && ControlOf(sqe.flags, step.flags)
    && sqe.bufGroup == ShiftRight(sqe.flags, 4)
  }

  ghost predicate DispatchesProgram(program: PlannerProgram, ring: nat, sqes: seq<Sqe>) {
    && ring < RING_COUNT && ProfileAt(ring) == program.ringProfileId
    && |sqes| == |program.steps|
    && forall k :: 0 <= k < |sqes| ==> sqes[k].ring == ring && DispatchesStep(program.steps[k], sqes[k])
  }

  lemma CompiledStepDispatches(step: SymbolicStep, op: NativeOperation, ring: nat)
    requires CompiledStep(step, op)
    ensures CanonicalOperation(op) && DispatchesStep(step, PreparedEntry(ring, op))
  {
    hide EncoderOperandNames, DecoderOperandCount, IntegerArgument, SelectorOf, ControlOf, SumFlags, FlagTable, BitAnd,
      ShiftRight;
  }

  // Every accepted program compiles, and the harness run on its bytes dispatches one entry per
  // step, in step order, on the profile's ring.
  lemma ValidatedProgramRuns(program: PlannerProgram, compilerHash: string, opTableHash: string, fleetHash: string)
    requires WellFormedProgram(program)
    requires TypedRulesHold(program, ProductionContract(compilerHash, opTableHash, fleetHash))
    ensures
      var contract := ProductionContract(compilerHash, opTableHash, fleetHash);
      var compiled := CompileProgramSpec(program, contract, compilerHash);
      && compiled.Ok?
      && compiled.value.operationCount == |program.steps|
      && |compiled.value.payload| <= 481
      && DispatchesProgram(program, RingOf(compiled.value.payload), DispatchedSqes(compiled.value.payload))
  {
    var contract := ProductionContract(compilerHash, opTableHash, fleetHash);
    hide EncoderOperandNames, DecoderOperandCount, ProductionOperations, ProductionProfiles, StepAccepted, CompiledStep,
      CanonicalOperation, DispatchesStep, CompileSteps, DispatchedSqes, ProfileAt, ProfileTable, ResourcesAccepted,
      AuditedCodecVerified, DecodeProgramSpec, EncodeProgram, PreparedEntry, WellFormedStep;
    AuditedCodecAlwaysVerifies();
    ProfileLookup(program.ringProfileId);
    AcceptedStepsCompile(program.steps, program, contract);
    var native := CompileNativeSpec(program, contract).value;
    forall k | 0 <= k < |native.operations|
      ensures CanonicalOperation(native.operations[k])
      ensures DispatchesStep(program.steps[k], PreparedEntry(native.ringSelector, native.operations[k]))
    {
      CompiledStepDispatches(program.steps[k], native.operations[k], native.ringSelector);
    }
    DecodeAfterEncode(native);
    EncoderAcceptsExactlyCanonical(native);
    var payload := EncodeProgram(native, true).value;
    HarnessRunsStrictPayload(payload);
    EntriesKeepTheirRing(native.ringSelector, native.operations);
  }

  lemma EntriesKeepTheirRing(ring: nat, ops: seq<NativeOperation>)
    requires forall i :: 0 <= i < |ops| ==> CanonicalOperation(ops[i])
    ensures forall i :: 0 <= i < |ops| ==> PreparedEntry(ring, ops[i]).ring == ring
  {
    hide CanonicalOperation, BitAnd, ShiftRight;
  }
}
