// The deterministic compiler from a typed program to canonical native bytes.
module Compiler {
  import opened Bits
  import opened Wrappers
  import opened HarnessCodec
  import opened Contract
  import opened Proposal

  datatype Blocked =
    | CompilerDisabled | UnknownProfile | UnknownOperation | SelectorBeyondModulus | OperandOrderDrift
    | OperandMismatch | OperandSpecification | NotAByteInteger | NonCanonicalFlag
    | RoundTripChanged | PayloadTooLong | CodecRejected(error: CodecError)

  datatype CompiledProgram = CompiledProgram(programId: string, payload: seq<Byte>, operationCount: nat)

  predicate CompilerEnabled(contract: HarnessContract, compilerHash: string) {
    && contract.environment == Production
    && contract.verified
    && !contract.testOnly
    && contract.deterministicCompiler
    && contract.roundTripVerified
    && contract.targetHashes.harness == AUDITED_HARNESS_HASH
    && contract.targetHashes.compiler == compilerHash
    && AuditedCodecVerified()
  }

  function SpecificationNames(specs: seq<ArgumentSpec>): seq<OperandName> {
    seq(|specs|, i requires 0 <= i < |specs| => specs[i].name)
  }

  predicate CanonicalSpecification(spec: ArgumentSpec) {
    spec.kind == IntegerKind && spec.byteWidth == 1 && spec.minimum == 0 && spec.maximum == 255
  }

  function ByteOperand(value: ArgumentValue): Result<int, Blocked> {
    if value.IntegerValue? && IsByte(value.i) then Ok(value.i) else Err(NotAByteInteger)
  }

  function ByteOperands(names: seq<OperandName>, provided: map<OperandName, ArgumentValue>): Result<seq<int>, Blocked>
    requires forall i :: 0 <= i < |names| ==> names[i] in provided
  {
    if names == [] then Ok([])
    else
      var first :- ByteOperand(provided[names[0]]);
      var rest :- ByteOperands(names[1..], provided);
      Ok([first] + rest)
  }

  // The bitwise or of the flags' values, from an initial control byte.
  function FoldFlags(flags: seq<FlagSymbol>, table: map<FlagSymbol, nat>, control: nat): Result<nat, Blocked> {
    if flags == [] then Ok(control)
    else if flags[0] !in table || table[flags[0]] / 64 != 0 then Err(NonCanonicalFlag)  // value & ~0x3F
    else FoldFlags(flags[1..], table, BitOr(control, table[flags[0]]))
  }

  function CompileStep(step: SymbolicStep, contract: HarnessContract): Result<NativeOperation, Blocked> {
    var operations := OperationTable(contract.operations);
    if step.operation !in operations then Err(UnknownOperation)
    else
      var operation := operations[step.operation];
      if operation.selector >= contract.selectorModulus then Err(SelectorBeyondModulus)
      else
        var expected := OperandNames(operation.selector);
        if expected.Err? then Err(CodecRejected(expected.error))
        else
          var names, provided := expected.value, ArgumentTable(step.arguments);
          if SpecificationNames(operation.arguments) != names then Err(OperandOrderDrift)
          else if provided.Keys != (set n | n in names) then Err(OperandMismatch)
          else if exists i :: 0 <= i < |operation.arguments| && !CanonicalSpecification(operation.arguments[i]) then
            Err(OperandSpecification)
          else
            var operands :- ByteOperands(names, provided);
            var control :- FoldFlags(step.flags, FlagTable(contract.flags), 0);
            Ok(NativeOperation(operation.selector, operands, control))
  }

  function CompileSteps(steps: seq<SymbolicStep>, contract: HarnessContract): Result<seq<NativeOperation>, Blocked> {
    if steps == [] then Ok([])
    else
      var first :- CompileStep(steps[0], contract);
      var rest :- CompileSteps(steps[1..], contract);
      Ok([first] + rest)
  }

  function CompileNativeSpec(program: PlannerProgram, contract: HarnessContract): Result<NativeProgram, Blocked> {
    var profiles := ProfileTable(contract.profiles);
    if program.ringProfileId !in profiles || profiles[program.ringProfileId].selectorValue >= 8 then Err(UnknownProfile)
    else
      var operations :- CompileSteps(program.steps, contract);
      Ok(NativeProgram(profiles[program.ringProfileId].selectorValue, operations))
  }

  function CompileProgramSpec(program: PlannerProgram, contract: HarnessContract, compilerHash: string)
    : Result<CompiledProgram, Blocked>
  {
    if !CompilerEnabled(contract, compilerHash) then Err(CompilerDisabled)
    else
      var native :- CompileNativeSpec(program, contract);
      var hashMatches := contract.targetHashes.harness == AUDITED_HARNESS_HASH;
      var encoded := EncodeProgram(native, hashMatches);
      if encoded.Err? then Err(CodecRejected(encoded.error))
      else
        var decoded := DecodeProgramSpec(encoded.value, hashMatches);
        if decoded.Err? then Err(CodecRejected(decoded.error))
        else if decoded.value != native || EncodeProgram(decoded.value, hashMatches) != encoded then Err(RoundTripChanged)
        else if |encoded.value| > contract.inputMaxBytes then Err(PayloadTooLong)
        else Ok(CompiledProgram(program.programId, encoded.value, |native.operations|))
  }

  // ----- The loops of the lowering -----

  method ControlByte(flags: seq<FlagSymbol>, table: map<FlagSymbol, nat>) returns (r: Result<nat, Blocked>)
    ensures r == FoldFlags(flags, table, 0)
  {
    var control: nat := 0;
    for i := 0 to |flags|
      invariant FoldFlags(flags, table, 0) == FoldFlags(flags[i..], table, control)
    {
      assert flags[i..][1..] == flags[i + 1..];
      if flags[i] !in table { return Err(NonCanonicalFlag); }
      var value := table[flags[i]];
      if value / 64 != 0 { return Err(NonCanonicalFlag); }
      control := BitOr(control, value);
    }
    return Ok(control);
  }

  method CompileOneStep(step: SymbolicStep, contract: HarnessContract) returns (r: Result<NativeOperation, Blocked>)
    ensures r == CompileStep(step, contract)
  {
    hide OperationTable, EncoderOperandNames, ArgumentTable, FlagTable, FoldFlags, ByteOperands;
    var operations := OperationTable(contract.operations);
    if step.operation !in operations { return Err(UnknownOperation); }
    var operation := operations[step.operation];
    if operation.selector >= contract.selectorModulus { return Err(SelectorBeyondModulus); }
    var expected := OperandNames(operation.selector);
    if expected.Err? { return Err(CodecRejected(expected.error)); }
    var names, provided := expected.value, ArgumentTable(step.arguments);
    if SpecificationNames(operation.arguments) != names { return Err(OperandOrderDrift); }
    if provided.Keys != set n | n in names { return Err(OperandMismatch); }
    for i := 0 to |operation.arguments|
      invariant forall j :: 0 <= j < i ==> CanonicalSpecification(operation.arguments[j])
    {
      if !CanonicalSpecification(operation.arguments[i]) { return Err(OperandSpecification); }
    }
    var operands := ByteOperands(names, provided);
    if operands.Err? { return Err(operands.error); }
    var control := ControlByte(step.flags, FlagTable(contract.flags));
    if control.Err? { return Err(control.error); }
    return Ok(NativeOperation(operation.selector, operands.value, control.value));
  }

  method CompileNative(program: PlannerProgram, contract: HarnessContract) returns (r: Result<NativeProgram, Blocked>)
    ensures r == CompileNativeSpec(program, contract)
  {
    hide ProfileTable, CompileStep, CompileSteps;
    var profiles := ProfileTable(contract.profiles);
    if program.ringProfileId !in profiles { return Err(UnknownProfile); }
    var profile := profiles[program.ringProfileId];
    if profile.selectorValue >= 8 { return Err(UnknownProfile); }
    var native: seq<NativeOperation> := [];
    ghost var all := CompileSteps(program.steps, contract);
    assert program.steps[0..] == program.steps && (all.Ok? ==> [] + all.value == all.value);
    for k := 0 to |program.steps|
      invariant all == Prepend(native, CompileSteps(program.steps[k..], contract))
    {
      CompileStepsUnfold(program.steps, k, contract);
      var op := CompileOneStep(program.steps[k], contract);
      if op.Err? { return Err(op.error); }
      PrependOne(native, op.value, CompileSteps(program.steps[k + 1..], contract));
      native := native + [op.value];
    }
    CompileStepsUnfold(program.steps, |program.steps|, contract);
    assert native + [] == native;
    return Ok(NativeProgram(profile.selectorValue, native));
  }

  lemma CompileStepsUnfold(steps: seq<SymbolicStep>, k: nat, contract: HarnessContract)
    requires k <= |steps|
    ensures CompileSteps(steps[k..], contract) ==
            if k == |steps| then Ok([])
            else if CompileStep(steps[k], contract).Err? then Err(CompileStep(steps[k], contract).error)
            else Prepend([CompileStep(steps[k], contract).value], CompileSteps(steps[k + 1..], contract))
  {
    hide CompileStep;
    if k < |steps| {
      assert steps[k..][1..] == steps[k + 1..];
    }
  }

  function Prepend(done: seq<NativeOperation>, rest: Result<seq<NativeOperation>, Blocked>)
    : Result<seq<NativeOperation>, Blocked>
  {
    var tail :- rest;
    Ok(done + tail)
  }

  lemma PrependOne(done: seq<NativeOperation>, op: NativeOperation, rest: Result<seq<NativeOperation>, Blocked>)
    ensures Prepend(done, Prepend([op], rest)) == Prepend(done + [op], rest)
  {
    if rest.Ok? {
      assert done + ([op] + rest.value) == (done + [op]) + rest.value;
    }
  }
}
