// A small accepted program: the chain's conditions can all hold at once.
module NativeExample {
  import opened Compiler
  import opened Contract
  import opened HarnessCodec
  import opened NativeChain
  import opened NativeHarness
  import opened Proposal
  import opened StreamSafety
  import opened Validator
  import opened Wrappers

  const FIRST := SymbolicStep("a", Nop, Plain, [], [IoLink], Link, ["success"])
  const SECOND := SymbolicStep("b", Nop, Plain, [], [], NoLink, ["success"])
  const LINKED_PAIR := PlannerProgram("p", StableCoverage, Plain, [], [FIRST, SECOND], 0, 1)

  lemma NopTable()
    ensures var table := OperationTable(ProductionOperations()); Nop in table && table[Nop] == ProductionOperation(0)
    ensures ProductionOperation(0).arguments == []
  {
    OperationLookup(Nop);
    assert SymbolAt(0) == Nop;
    SymbolsAreDistinct(0);
    assert EncoderOperandNames(0) == [];
  }

  lemma PlainIsListed()
    ensures var table := ProfileTable(ProductionProfiles()); Plain in table && StableCoverage in table[Plain].allowedLanes
    ensures Plain in ProfileIds()
  {
    assert ProductionProfiles()[..RING_COUNT] == ProductionProfiles();
    ProfileLookupPrefix(RING_COUNT);
    assert ProfileAt(1) == Plain;
    assert ProfileIds()[1] == Plain;
  }

  lemma StepsAreAccepted(contract: HarnessContract)
    requires contract.operations == ProductionOperations() && contract.flags == PRODUCTION_FLAGS
    ensures StepAccepted(FIRST, LINKED_PAIR, contract) && StepAccepted(SECOND, LINKED_PAIR, contract)
  {
    NopTable();
    PlainIsListed();
    FlagLookup(IoLink);
    hide ProductionOperations, ProductionProfiles, ProfileIds, OperationTable, ProfileTable, FlagTable;
    assert SelectedLinkFlags(FIRST) == {IoLink};
    assert SelectedLinkFlags(SECOND) == {};
    assert IoLink in ALL_FLAGS && StableCoverage in ALL_LANES;
  }

  lemma PairIsTyped(contract: HarnessContract)
    requires contract.operations == ProductionOperations() && contract.flags == PRODUCTION_FLAGS
    requires contract.profiles == ProductionProfiles() && contract.forbiddenProfiles == [Sqpoll] && contract.operationMaxCount == 96
    ensures TypedRulesHold(LINKED_PAIR, contract)
  {
    StepsAreAccepted(contract);
    PlainIsListed();
    hide StepAccepted, ProductionOperations, ProductionProfiles, ProfileIds, ProfileTable, OperationTable, FlagTable;
    assert forall k :: 0 <= k < 2 ==> LINKED_PAIR.steps[k] == if k == 0 then FIRST else SECOND;
  }

  lemma PairKeepsNativeRules(contract: HarnessContract)
    ensures NativeRulesHold(LINKED_PAIR, contract)
  {
    hide OperationTable, FlagTable;
    assert forall k :: 0 <= k < 2 ==> LINKED_PAIR.steps[k] == if k == 0 then FIRST else SECOND;
  }

  lemma PairIsAccepted(compilerHash: string, opTableHash: string, fleetHash: string)
    ensures WellFormedProgram(LINKED_PAIR)
    ensures ProgramAccepted(LINKED_PAIR, ProductionContract(compilerHash, opTableHash, fleetHash))
  {
    var contract := ProductionContract(compilerHash, opTableHash, fleetHash);
    hide TypedRulesHold, NativeRulesHold, ProductionOperations, ProductionProfiles;
    PairIsTyped(contract);
    PairKeepsNativeRules(contract);
  }

  // The linked pair compiles, and its two entries reach the ring in one batch.
  lemma PairRuns(compilerHash: string, opTableHash: string, fleetHash: string)
    ensures var compiled := CompileProgramSpec(LINKED_PAIR, ProductionContract(compilerHash, opTableHash, fleetHash), compilerHash);
            && compiled.Ok?
            && |DispatchedSqes(compiled.value.payload)| == 2
            && LinksStayInBatch(Batches(DispatchedSqes(compiled.value.payload)))
  {
    PairIsAccepted(compilerHash, opTableHash, fleetHash);
    hide ProgramAccepted, WellFormedProgram, CompileProgramSpec, DispatchedSqes, Batches, LinksStayInBatch;
    LinkedSuccessorsShareTheBatch(LINKED_PAIR, compilerHash, opTableHash, fleetHash);
    assert TypedRulesHold(LINKED_PAIR, ProductionContract(compilerHash, opTableHash, fleetHash)) by {
      AcceptedIsTyped(LINKED_PAIR, compilerHash, opTableHash, fleetHash);
    }
    hide TypedRulesHold, StreamRulesHold;
    ValidatedProgramRuns(LINKED_PAIR, compilerHash, opTableHash, fleetHash);
  }

  lemma AcceptedIsTyped(program: PlannerProgram, compilerHash: string, opTableHash: string, fleetHash: string)
    requires program.steps != [] && ProgramAccepted(program, ProductionContract(compilerHash, opTableHash, fleetHash))
    ensures TypedRulesHold(program, ProductionContract(compilerHash, opTableHash, fleetHash))
  {
    hide TypedRulesHold;
  }
}
