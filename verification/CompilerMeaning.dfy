// What the compiler emits for any program under any contract, in terms of their lists: which
// entries count, which operands and bits an operation gets, and exactly when there is a payload.
module CompilerMeaning {
  import opened Bits
  import opened Compiler
  import opened Contract
  import opened HarnessCodec
  import opened Proposal
  import opened ValidatorMeaning
  import opened Wrappers

  // ----- Flags -----

  // The entry that counts for a flag: the last.
  predicate LastFlag(items: seq<FlagSpec>, k: int, flag: FlagSymbol) {
    0 <= k < |items| && items[k].symbol == flag && forall j :: k < j < |items| ==> items[j].symbol != flag
  }

  lemma {:induction false} FlagAt(items: seq<FlagSpec>, flag: FlagSymbol) returns (k: nat)
    requires flag in FlagTable(items)
    ensures LastFlag(items, k, flag) && FlagTable(items)[flag] == items[k].bitValue
  {
    var n := |items| - 1;
    if items[n].symbol == flag { k := n; } else { k := FlagAt(items[..n], flag); }
  }

  lemma {:induction false} FlagCounts(items: seq<FlagSpec>, k: int, flag: FlagSymbol)
    requires LastFlag(items, k, flag)
    ensures 0 <= k < |items| && flag in FlagTable(items) && FlagTable(items)[flag] == items[k].bitValue
  {
    var n := |items| - 1;
    if k < n { FlagCounts(items[..n], k, flag); }
  }

  // The flag's value has the bit.
  predicate Sets(items: seq<FlagSpec>, flag: FlagSymbol, bit: nat) {
    exists k :: 0 <= k < |items| && LastFlag(items, k, flag) && Bit(items[k].bitValue, bit)
  }

  predicate SixBits(items: seq<FlagSpec>, flag: FlagSymbol) {
    exists k :: 0 <= k < |items| && LastFlag(items, k, flag) && items[k].bitValue < 64
  }

  // Every flag is listed with a value of six bits, and the control byte has their bits and no other.
  ghost predicate FlagsLowered(flags: seq<FlagSymbol>, items: seq<FlagSpec>, control: int) {
    && 0 <= control
    && (forall i :: 0 <= i < |flags| ==> SixBits(items, flags[i]))
    && forall bit: nat :: Bit(control, bit) <==> exists i :: 0 <= i < |flags| && Sets(items, flags[i], bit)
  }

  lemma FlagMeans(items: seq<FlagSpec>, flag: FlagSymbol)
    ensures SixBits(items, flag) <==> flag in FlagTable(items) && FlagTable(items)[flag] / 64 == 0
    ensures forall bit: nat :: Sets(items, flag, bit) <==> flag in FlagTable(items) && Bit(FlagTable(items)[flag], bit)
  {
    hide FlagTable, LastFlag, Bit;
    if flag in FlagTable(items) { var k := FlagAt(items, flag); }
    forall k | LastFlag(items, k, flag)
      ensures 0 <= k < |items| && flag in FlagTable(items) && FlagTable(items)[flag] == items[k].bitValue
    {
      FlagCounts(items, k, flag);
    }
  }

  predicate SomeSets(items: seq<FlagSpec>, flags: seq<FlagSymbol>, bit: nat) {
    exists i :: 0 <= i < |flags| && Sets(items, flags[i], bit)
  }

  lemma {:induction false} FoldMeans(flags: seq<FlagSymbol>, items: seq<FlagSpec>, control: nat)
    ensures FoldFlags(flags, FlagTable(items), control).Ok? <==> forall i :: 0 <= i < |flags| ==> SixBits(items, flags[i])
    ensures FoldFlags(flags, FlagTable(items), control).Ok? ==> forall bit: nat ::
              Bit(FoldFlags(flags, FlagTable(items), control).value, bit) <==> Bit(control, bit) || SomeSets(items, flags, bit)
  {
    hide FlagTable, Bit, BitOr, Sets, SixBits;
    if flags != [] {
      FlagMeans(items, flags[0]);
      if SixBits(items, flags[0]) {
        var value := FlagTable(items)[flags[0]];
        FoldMeans(flags[1..], items, BitOr(control, value));
        forall bit: nat
          ensures Bit(BitOr(control, value), bit) <==> Bit(control, bit) || Sets(items, flags[0], bit)
          ensures SomeSets(items, flags, bit) <==> Sets(items, flags[0], bit) || SomeSets(items, flags[1..], bit)
        {
          BitOrBit(control, value, bit);
          assert forall i :: 1 <= i < |flags| ==> flags[1..][i - 1] == flags[i];
        }
        assert forall i :: 1 <= i < |flags| ==> flags[1..][i - 1] == flags[i];
      }
    }
  }

  lemma FlagsLoweredExactly(flags: seq<FlagSymbol>, items: seq<FlagSpec>, control: int)
    ensures FlagsLowered(flags, items, control) <==>
              0 <= control && FoldFlags(flags, FlagTable(items), 0) == Ok(control)
  {
    hide FlagTable, FoldFlags, Bit, Sets, SixBits;
    FoldMeans(flags, items, 0);
    forall bit: nat
      ensures !Bit(0, bit)
    {
      ZeroHasNoBits(bit);
    }
    assert forall bit: nat :: SomeSets(items, flags, bit) <==> exists i :: 0 <= i < |flags| && Sets(items, flags[i], bit);
    hide SomeSets;
    if FlagsLowered(flags, items, control) {
      BitsDetermine(FoldFlags(flags, FlagTable(items), 0).value, control);
    }
  }

  // ----- Operands -----

  predicate LastArgument(items: seq<SymbolicArgument>, k: int, name: OperandName) {
    0 <= k < |items| && items[k].name == name && forall j :: k < j < |items| ==> items[j].name != name
  }

  lemma {:induction false} ArgumentAt(items: seq<SymbolicArgument>, name: OperandName) returns (k: nat)
    requires name in ArgumentTable(items)
    ensures LastArgument(items, k, name) && ArgumentTable(items)[name] == items[k].value
  {
    var n := |items| - 1;
    if items[n].name == name { k := n; } else { k := ArgumentAt(items[..n], name); }
  }

  lemma {:induction false} ArgumentCounts(items: seq<SymbolicArgument>, k: int, name: OperandName)
    requires LastArgument(items, k, name)
    ensures 0 <= k < |items| && name in ArgumentTable(items) && ArgumentTable(items)[name] == items[k].value
  {
    var n := |items| - 1;
    if k < n { ArgumentCounts(items[..n], k, name); }
  }

  // The argument that counts for the name is this byte.
  predicate GivenByte(items: seq<SymbolicArgument>, name: OperandName, value: int) {
    0 <= value <= 255 && exists k :: 0 <= k < |items| && LastArgument(items, k, name) && items[k].value == IntegerValue(value)
  }

  lemma GivenByteMeans(items: seq<SymbolicArgument>, name: OperandName, value: int)
    ensures GivenByte(items, name, value) <==>
              name in ArgumentTable(items) && ByteOperand(ArgumentTable(items)[name]) == Ok(value)
  {
    hide ArgumentTable, LastArgument;
    if name in ArgumentTable(items) { var k := ArgumentAt(items, name); }
    forall k | LastArgument(items, k, name)
      ensures 0 <= k < |items| && name in ArgumentTable(items) && ArgumentTable(items)[name] == items[k].value
    {
      ArgumentCounts(items, k, name);
    }
  }

  lemma {:induction false} OperandsMean(names: seq<OperandName>, provided: map<OperandName, ArgumentValue>, operands: seq<int>)
    requires forall i :: 0 <= i < |names| ==> names[i] in provided
    ensures ByteOperands(names, provided) == Ok(operands) <==>
              |operands| == |names| && forall i :: 0 <= i < |names| ==> ByteOperand(provided[names[i]]) == Ok(operands[i])
  {
    hide ByteOperand;
    if names != [] {
      if operands != [] {
        OperandsMean(names[1..], provided, operands[1..]);
        assert operands == [operands[0]] + operands[1..];
        assert forall i :: 1 <= i < |names| ==> names[1..][i - 1] == names[i];
        assert forall i :: 1 <= i < |operands| ==> operands[1..][i - 1] == operands[i];
      }
    }
  }

  lemma {:induction false} ArgumentNames(items: seq<SymbolicArgument>)
    ensures ArgumentTable(items).Keys == set k | 0 <= k < |items| :: items[k].name
  {
    if items != [] {
      var n := |items| - 1;
      ArgumentNames(items[..n]);
      assert forall k :: 0 <= k < n ==> items[..n][k] == items[k];
    }
  }

  // ----- One step -----

  predicate ByteSpecification(spec: ArgumentSpec, name: OperandName) {
    spec.name == name && spec.kind == IntegerKind && spec.byteWidth == 1 && spec.minimum == 0 && spec.maximum == 255
  }

  // The operands are the step's bytes in the parser's order, one for every name and no others.
  ghost predicate OperandsLowered(step: SymbolicStep, names: seq<OperandName>, operands: seq<int>) {
    && |operands| == |names|
    && (forall i :: 0 <= i < |names| ==> GivenByte(step.arguments, names[i], operands[i]))
    && forall k :: 0 <= k < |step.arguments| ==> step.arguments[k].name in names
  }

  ghost predicate LoweredAs(step: SymbolicStep, operation: Operation, contract: HarnessContract, op: NativeOperation) {
    && 0 <= op.selector == operation.selector < 61 && op.selector < contract.selectorModulus
    && (var names := EncoderOperandNames(op.selector);
        && |operation.arguments| == |names|
        && (forall i :: 0 <= i < |names| ==> ByteSpecification(operation.arguments[i], names[i]))
        && OperandsLowered(step, names, op.operands))
    && FlagsLowered(step.flags, contract.flags, op.sqeControl)
  }

  ghost predicate Lowered(step: SymbolicStep, contract: HarnessContract, op: NativeOperation) {
    exists k :: 0 <= k < |contract.operations| && LastOperationEntry(contract.operations, k, step.operation)
                && LoweredAs(step, contract.operations[k], contract, op)
  }

  lemma OperandsLoweredExactly(step: SymbolicStep, names: seq<OperandName>, operands: seq<int>)
    ensures OperandsLowered(step, names, operands) <==>
              && ArgumentTable(step.arguments).Keys == (set n | n in names)
              && ByteOperands(names, ArgumentTable(step.arguments)) == Ok(operands)
  {
    hide ArgumentTable, ByteOperands, GivenByte, ByteOperand;
    var provided := ArgumentTable(step.arguments);
    ArgumentNames(step.arguments);
    forall i | 0 <= i < |names| && |operands| == |names|
      ensures GivenByte(step.arguments, names[i], operands[i]) <==>
                names[i] in provided && ByteOperand(provided[names[i]]) == Ok(operands[i])
    {
      GivenByteMeans(step.arguments, names[i], operands[i]);
    }
    if forall i :: 0 <= i < |names| ==> names[i] in provided {
      OperandsMean(names, provided, operands);
      assert (forall k :: 0 <= k < |step.arguments| ==> step.arguments[k].name in names) <==>
             provided.Keys == (set n | n in names) by {
        assert forall k :: 0 <= k < |step.arguments| ==> step.arguments[k].name in provided.Keys;
      }
    }
  }

  lemma SpecificationsMean(specs: seq<ArgumentSpec>, names: seq<OperandName>)
    ensures SpecificationNames(specs) == names && (forall i :: 0 <= i < |specs| ==> CanonicalSpecification(specs[i])) <==>
              |specs| == |names| && forall i :: 0 <= i < |names| ==> ByteSpecification(specs[i], names[i])
  {
    assert |SpecificationNames(specs)| == |specs|;
    assert forall i :: 0 <= i < |specs| ==> SpecificationNames(specs)[i] == specs[i].name;
  }

  // What one listed operation compiles a step to.
  lemma LoweredAsExactly(step: SymbolicStep, operation: Operation, contract: HarnessContract, op: NativeOperation)
    requires step.operation in OperationTable(contract.operations)
    requires OperationTable(contract.operations)[step.operation] == operation
    ensures CompileStep(step, contract) == Ok(op) <==> LoweredAs(step, operation, contract, op)
  {
    hide OperationTable, EncoderOperandNames, ArgumentTable, FlagTable, FoldFlags, ByteOperands, OperandsLowered, FlagsLowered,
         SpecificationNames, CanonicalSpecification, ByteSpecification;
    if operation.selector < 61 {
      var names := EncoderOperandNames(operation.selector);
      SpecificationsMean(operation.arguments, names);
      OperandsLoweredExactly(step, names, op.operands);
      FlagsLoweredExactly(step.flags, contract.flags, op.sqeControl);
    }
  }

  lemma LoweredExactly(step: SymbolicStep, contract: HarnessContract, op: NativeOperation)
    ensures CompileStep(step, contract) == Ok(op) <==> Lowered(step, contract, op)
  {
    OperationEntryMeans(contract.operations, step.operation);
    var table := OperationTable(contract.operations);
    if step.operation in table {
      LoweredAsExactly(step, table[step.operation], contract, op);
    } else {
      assert CompileStep(step, contract) == Err(UnknownOperation);
    }
    hide OperationTable, LoweredAs, LastOperationEntry, CompileStep;
  }

  // ----- The program -----

  lemma {:induction false} StepsLowered(steps: seq<SymbolicStep>, contract: HarnessContract, ops: seq<NativeOperation>)
    ensures CompileSteps(steps, contract) == Ok(ops) <==>
              |ops| == |steps| && forall i :: 0 <= i < |steps| ==> Lowered(steps[i], contract, ops[i])
  {
    hide CompileStep, Lowered;
    if steps != [] && ops != [] {
      LoweredExactly(steps[0], contract, ops[0]);
      StepsLowered(steps[1..], contract, ops[1..]);
      assert ops == [ops[0]] + ops[1..];
      assert forall i :: 1 <= i < |steps| ==> steps[1..][i - 1] == steps[i];
      assert forall i :: 1 <= i < |ops| ==> ops[1..][i - 1] == ops[i];
    }
  }

  ghost predicate LoweredProgram(program: PlannerProgram, contract: HarnessContract, native: NativeProgram) {
    && (exists k :: 0 <= k < |contract.profiles| && LastProfile(contract.profiles, k, program.ringProfileId)
                    && native.ringSelector == contract.profiles[k].selectorValue < 8)
    && |native.operations| == |program.steps|
    && forall i :: 0 <= i < |program.steps| ==> Lowered(program.steps[i], contract, native.operations[i])
  }

  lemma ProgramLoweredExactly(program: PlannerProgram, contract: HarnessContract, native: NativeProgram)
    ensures CompileNativeSpec(program, contract) == Ok(native) <==> LoweredProgram(program, contract, native)
  {
    hide CompileSteps, Lowered, ProfileTable, LastProfile;
    StepsLowered(program.steps, contract, native.operations);
    var table := ProfileTable(contract.profiles);
    if program.ringProfileId in table { var k := ValidatorMeaning.ProfileAt(contract.profiles, program.ringProfileId); }
    forall k | LastProfile(contract.profiles, k, program.ringProfileId)
      ensures 0 <= k < |contract.profiles| && program.ringProfileId in table
              && table[program.ringProfileId] == contract.profiles[k]
    {
      ProfileCounts(contract.profiles, k, program.ringProfileId);
    }
  }

  // A program compiles exactly under a verified production contract of this compiler and the
  // audited harness, when every step is lowered and the bytes fit the contract; the payload is
  // then the encoding of the lowered steps.
  lemma CompiledExactly(program: PlannerProgram, contract: HarnessContract, compilerHash: string, compiled: CompiledProgram)
    ensures CompileProgramSpec(program, contract, compilerHash) == Ok(compiled) <==>
              && contract.environment == Production && contract.verified && !contract.testOnly
              && contract.deterministicCompiler && contract.roundTripVerified
              && contract.targetHashes.harness == AUDITED_HARNESS_HASH && contract.targetHashes.compiler == compilerHash
              && compiled.programId == program.programId && compiled.operationCount == |program.steps|
              && |compiled.payload| <= contract.inputMaxBytes
              && exists native :: LoweredProgram(program, contract, native) && EncodeProgram(native, true) == Ok(compiled.payload)
  {
    AuditedCodecAlwaysVerifies();
    hide AuditedCodecVerified, CompileNativeSpec, LoweredProgram, EncodeProgram, DecodeProgramSpec;
    forall native
      ensures CompileNativeSpec(program, contract) == Ok(native) <==> LoweredProgram(program, contract, native)
      ensures LoweredProgram(program, contract, native) ==> |native.operations| == |program.steps|
    {
      ProgramLoweredExactly(program, contract, native);
      LoweredLength(program, contract, native);
    }
    var native := CompileNativeSpec(program, contract);
    if native.Ok? && EncodeProgram(native.value, true).Ok? {
      RoundTrips(native.value);
    }
  }

  lemma LoweredLength(program: PlannerProgram, contract: HarnessContract, native: NativeProgram)
    ensures LoweredProgram(program, contract, native) ==> |native.operations| == |program.steps|
  {
  }

  lemma RoundTrips(native: NativeProgram)
    requires EncodeProgram(native, true).Ok?
    ensures DecodeProgramSpec(EncodeProgram(native, true).value, true) == Ok(native)
  {
    EncoderAcceptsExactlyCanonical(native);
    DecodeAfterEncode(native);
  }
}
