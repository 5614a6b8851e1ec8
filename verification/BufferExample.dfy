// An accepted program whose buffer selection finds no provided group.
module BufferExample {
  import opened Bits
  import opened Compiler
  import opened Contract
  import opened HarnessCodec
  import opened NativeChain
  import opened NativeExample
  import opened NativeHarness
  import opened Proposal
  import opened StreamSafety
  import opened Validator
  import opened Wrappers

  const PROVIDE := SymbolicStep("a", ProvideBuffers, Plain, [SymbolicArgument(BufferGroup, IntegerValue(2))], [], NoLink, ["success"])
  const RECEIVE := SymbolicStep("b", Recv, Plain, [SymbolicArgument(Fd, IntegerValue(0))], [BufferSelect], NoLink, ["success"])
  const SELECTING := PlannerProgram("p", StableCoverage, Plain, [], [PROVIDE, RECEIVE], 0, 1)

  // An operation of one byte operand, as the contract lists it.
  lemma OneOperandTable(operation: OperationSymbol, selector: nat, name: OperandName)
    requires selector < OPERATION_COUNT && SymbolAt(selector) == operation && EncoderOperandNames(selector) == [name]
    ensures var table := OperationTable(ProductionOperations());
            operation in table && table[operation] == ProductionOperation(selector)
    ensures ProductionOperation(selector).arguments == [ByteArgument(name)]
  {
    OperationLookup(operation);
    SymbolsAreDistinct(selector);
  }

  lemma OneByteAccepted(step: SymbolicStep, operation: Operation, name: OperandName, value: int,
                        bindings: map<string, ResourceBinding>)
    requires step.arguments == [SymbolicArgument(name, IntegerValue(value))] && 0 <= value <= 255
    requires operation.arguments == [ByteArgument(name)]
    ensures ArgumentsAccepted(step, operation, bindings)
  {
    assert step.arguments[..0] == [] && operation.arguments[..0] == [];
    assert ArgumentTable(step.arguments) == map[name := IntegerValue(value)];
    assert SpecificationTable(operation.arguments) == map[name := ByteArgument(name)];
  }

  lemma StepsAreAccepted(contract: HarnessContract)
    requires contract.operations == ProductionOperations() && contract.flags == PRODUCTION_FLAGS
    ensures StepAccepted(PROVIDE, SELECTING, contract) && StepAccepted(RECEIVE, SELECTING, contract)
  {
    assert SymbolAt(18) == ProvideBuffers && EncoderOperandNames(18) == [BufferGroup];
    assert SymbolAt(10) == Recv && EncoderOperandNames(10) == [Fd];
    OneOperandTable(ProvideBuffers, 18, BufferGroup);
    OneOperandTable(Recv, 10, Fd);
    PlainIsListed();
    FlagLookup(BufferSelect);
    OneByteAccepted(PROVIDE, ProductionOperation(18), BufferGroup, 2, BindingTable([]));
    OneByteAccepted(RECEIVE, ProductionOperation(10), Fd, 0, BindingTable([]));
    hide ProductionOperations, ProductionProfiles, ProfileIds, OperationTable, ProfileTable, FlagTable, SymbolAt,
      EncoderOperandNames, ArgumentsAccepted;
    assert SelectedLinkFlags(PROVIDE) == {};
    assert SelectedLinkFlags(RECEIVE) == {};
    assert BufferSelect in ALL_FLAGS && StableCoverage in ALL_LANES;
  }

  lemma ProgramIsTyped(contract: HarnessContract)
    requires contract.operations == ProductionOperations() && contract.flags == PRODUCTION_FLAGS
    requires contract.profiles == ProductionProfiles() && contract.forbiddenProfiles == [Sqpoll] && contract.operationMaxCount == 96
    ensures TypedRulesHold(SELECTING, contract)
  {
    StepsAreAccepted(contract);
    PlainIsListed();
    hide StepAccepted, ProductionOperations, ProductionProfiles, ProfileIds, ProfileTable, OperationTable, FlagTable;
    assert forall k :: 0 <= k < 2 ==> SELECTING.steps[k] == if k == 0 then PROVIDE else RECEIVE;
  }

  // The selected group is two: the flag's value 32, shifted right by four.
  lemma SelectedGroupIsTwo(contract: HarnessContract)
    requires contract.flags == PRODUCTION_FLAGS
    ensures SelectedGroup(RECEIVE, contract) == 2
  {
    FlagLookup(BufferSelect);
    assert Pow2(5) == 32 && RECEIVE.flags[1..] == [];
    hide FlagTable;
    assert SumFlags(RECEIVE.flags, FlagTable(contract.flags)) == 32;
    assert ShiftRight(32, 4) == ShiftRight(16, 3) == ShiftRight(8, 2) == ShiftRight(4, 1) == ShiftRight(2, 0) == 2;
  }

  lemma ProvideIsAccepted(contract: HarnessContract)
    ensures NativeStepAccepted(SELECTING.steps, 0, contract)
  {
    hide OperationTable, FlagTable, SelectedGroup, ProvidesGroup, IntegerArgument, NamesPriorSelector;
    assert SELECTING.steps[0] == PROVIDE;
  }

  lemma ReceiveIsAccepted(contract: HarnessContract)
    requires contract.flags == PRODUCTION_FLAGS
    ensures NativeStepAccepted(SELECTING.steps, 1, contract)
  {
    SelectedGroupIsTwo(contract);
    GroupTwoIsNamed();
    hide OperationTable, FlagTable, SelectedGroup, ProvidesGroup, IntegerArgument, NamesPriorSelector;
    assert SELECTING.steps[1] == RECEIVE;
  }

  lemma GroupTwoIsNamed()
    ensures ProvidesGroup(SELECTING.steps[..1], Some(2))
  {
    assert SELECTING.steps[..1][0] == PROVIDE;
  }

  lemma ProgramKeepsNativeRules(contract: HarnessContract)
    requires contract.flags == PRODUCTION_FLAGS
    ensures NativeRulesHold(SELECTING, contract)
  {
    ProvideIsAccepted(contract);
    ReceiveIsAccepted(contract);
    hide NativeStepAccepted;
    assert forall k :: 0 <= k < 2 ==> SELECTING.steps[k] == if k == 0 then PROVIDE else RECEIVE;
  }

  // The program provides group two and selects group two; the validator accepts it, and no entry
  // of its stream carries the group that the selecting entry looks for.
  lemma SelectionWithoutProvision(compilerHash: string, opTableHash: string, fleetHash: string)
    ensures WellFormedProgram(SELECTING)
    ensures ProgramAccepted(SELECTING, ProductionContract(compilerHash, opTableHash, fleetHash))
    ensures var compiled := CompileProgramSpec(SELECTING, ProductionContract(compilerHash, opTableHash, fleetHash), compilerHash);
            compiled.Ok? && !GroupsProvided(DispatchedSqes(compiled.value.payload))
  {
    hide TypedRulesHold, NativeRulesHold, ProductionOperations, ProductionProfiles, CompileProgramSpec, DispatchedSqes, GroupsProvided;
    var contract := ProductionContract(compilerHash, opTableHash, fleetHash);
    ProgramIsTyped(contract);
    ProgramKeepsNativeRules(contract);
    AcceptedProvisionExactly(SELECTING, compilerHash, opTableHash, fleetHash);
    assert BufferSelect in SELECTING.steps[1].flags;
  }
}
