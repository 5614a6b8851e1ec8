// The typed harness contract and the production contract built from the audited tables.
// Identifiers the control plane knows are constructors; every other identifier is an Other value.
module Contract {
  import opened Bits
  import opened Wrappers
  import opened HarnessCodec

  datatype OperationSymbol =
    | Nop | Readv | Writev | Read | Write | Fsync | PollAdd | PollRemove
    | Timeout | TimeoutRemove | Recv | Send | Fadvise | Fallocate | Openat | Splice
    | Tee | EpollCtl | ProvideBuffers | RemoveBuffers | SyncFileRange | Statx | Accept | MultishotAccept
    | Connect | Bind | Listen | Socket | Shutdown | Sendmsg | Recvmsg | RecvmsgMultishot
    | RecvMultishot | SendZc | SendmsgZc | Cancel | CancelFd | LinkTimeout | TimeoutUpdate | PollUpdate
    | PollMultishot | ReadFixed | WriteFixed | FilesUpdate | FixedFdInstall | CloseDirect | Close | MsgRing
    | MsgRingFd | FutexWake | FutexWait | FutexWaitv | Waitid | Renameat | Unlinkat | Mkdirat
    | Linkat | Fsetxattr | Ftruncate | EpollWait | RegisterRaw
    | OtherOperation(name: string)

  datatype FlagSymbol = FixedFile | IoDrain | IoLink | IoHardlink | Async | BufferSelect | OtherFlag(name: string)

  datatype ProfileId =
    | SingleIssuerDeferCoop | Plain | SingleIssuerDeferCqsize | Iopoll
    | WideSqeCqe | ClampSubmitAllTaskrun | NoSqarrayCoop | DisabledUntilRegister
    | Sqpoll | OtherProfile(name: string)

  datatype Lane = StableCoverage | ProbabilisticRace
  datatype Environment = Production | Mock | Testing
  datatype TargetHashes = TargetHashes(harness: string, compiler: string, opTable: string, fleetConfig: string)

  datatype ArgumentKind = IntegerKind | BooleanKind | EnumKind | ResourceKind
  datatype ArgumentSpec = ArgumentSpec(
    name: OperandName, kind: ArgumentKind, byteWidth: nat, minimum: int, maximum: int,
    enumSymbols: seq<string>, resourceKind: string)

  datatype Profile = Profile(id: ProfileId, selectorValue: nat, allowedLanes: seq<Lane>)
  datatype FlagSpec = FlagSpec(symbol: FlagSymbol, bitValue: nat)
  datatype ResourceSpec = ResourceSpec(kind: string, maxInstances: nat)
  datatype Operation = Operation(
    symbol: OperationSymbol, selector: nat, arguments: seq<ArgumentSpec>, allowedFlags: seq<FlagSymbol>,
    allowedProfiles: seq<ProfileId>, allowedLanes: seq<Lane>, resultClasses: seq<string>)

  datatype HarnessContract = HarnessContract(
    environment: Environment, verified: bool, testOnly: bool, targetHashes: TargetHashes,
    inputMaxBytes: nat, operationMaxCount: nat, selectorModulus: nat,
    deterministicCompiler: bool, roundTripVerified: bool,
    profiles: seq<Profile>, resources: seq<ResourceSpec>, flags: seq<FlagSpec>, operations: seq<Operation>,
    forbiddenProfiles: seq<ProfileId>)

  // ----- Look-up tables: the last entry of a name wins -----

  function ProfileTable(items: seq<Profile>): map<ProfileId, Profile> {
    if items == [] then map[]
    else ProfileTable(items[..|items| - 1])[items[|items| - 1].id := items[|items| - 1]]
  }

  function FlagTable(items: seq<FlagSpec>): map<FlagSymbol, nat> {
    if items == [] then map[]
    else FlagTable(items[..|items| - 1])[items[|items| - 1].symbol := items[|items| - 1].bitValue]
  }

  function ResourceTable(items: seq<ResourceSpec>): map<string, nat> {
    if items == [] then map[]
    else ResourceTable(items[..|items| - 1])[items[|items| - 1].kind := items[|items| - 1].maxInstances]
  }

  function OperationTable(items: seq<Operation>): map<OperationSymbol, Operation> {
    if items == [] then map[]
    else OperationTable(items[..|items| - 1])[items[|items| - 1].symbol := items[|items| - 1]]
  }

  // ----- The audited tables -----

  // The operations by selector, and back; each table in two halves.
  function EarlySymbolAt(selector: nat): OperationSymbol
    requires selector < 30
  {
    match selector
    case 0 => Nop case 1 => Readv case 2 => Writev case 3 => Read case 4 => Write
    case 5 => Fsync case 6 => PollAdd case 7 => PollRemove case 8 => Timeout case 9 => TimeoutRemove
    case 10 => Recv case 11 => Send case 12 => Fadvise case 13 => Fallocate case 14 => Openat
    case 15 => Splice case 16 => Tee case 17 => EpollCtl case 18 => ProvideBuffers case 19 => RemoveBuffers
    case 20 => SyncFileRange case 21 => Statx case 22 => Accept case 23 => MultishotAccept case 24 => Connect
    case 25 => Bind case 26 => Listen case 27 => Socket case 28 => Shutdown case 29 => Sendmsg
  }

  function LateSymbolAt(selector: nat): OperationSymbol
    requires 30 <= selector < OPERATION_COUNT
  {
    match selector
    case 30 => Recvmsg case 31 => RecvmsgMultishot case 32 => RecvMultishot case 33 => SendZc case 34 => SendmsgZc
    case 35 => Cancel case 36 => CancelFd case 37 => LinkTimeout case 38 => TimeoutUpdate case 39 => PollUpdate
    case 40 => PollMultishot case 41 => ReadFixed case 42 => WriteFixed case 43 => FilesUpdate case 44 => FixedFdInstall
    case 45 => CloseDirect case 46 => Close case 47 => MsgRing case 48 => MsgRingFd case 49 => FutexWake
    case 50 => FutexWait case 51 => FutexWaitv case 52 => Waitid case 53 => Renameat case 54 => Unlinkat
    case 55 => Mkdirat case 56 => Linkat case 57 => Fsetxattr case 58 => Ftruncate case 59 => EpollWait
    case 60 => RegisterRaw
  }

  function SymbolAt(selector: nat): OperationSymbol
    requires selector < OPERATION_COUNT
  {
    if selector < 30 then EarlySymbolAt(selector) else LateSymbolAt(selector)
  }

  function EarlySelectorOf(symbol: OperationSymbol): Option<nat> {
    match symbol
    case Nop => Some(0) case Readv => Some(1) case Writev => Some(2) case Read => Some(3)
    case Write => Some(4) case Fsync => Some(5) case PollAdd => Some(6) case PollRemove => Some(7)
    case Timeout => Some(8) case TimeoutRemove => Some(9) case Recv => Some(10) case Send => Some(11)
    case Fadvise => Some(12) case Fallocate => Some(13) case Openat => Some(14) case Splice => Some(15)
    case Tee => Some(16) case EpollCtl => Some(17) case ProvideBuffers => Some(18) case RemoveBuffers => Some(19)
    case SyncFileRange => Some(20) case Statx => Some(21) case Accept => Some(22) case MultishotAccept => Some(23)
    case Connect => Some(24) case Bind => Some(25) case Listen => Some(26) case Socket => Some(27)
    case Shutdown => Some(28) case Sendmsg => Some(29)
    case _ => None
  }

  function LateSelectorOf(symbol: OperationSymbol): Option<nat> {
    match symbol
    case Recvmsg => Some(30) case RecvmsgMultishot => Some(31)
    case RecvMultishot => Some(32) case SendZc => Some(33) case SendmsgZc => Some(34) case Cancel => Some(35)
    case CancelFd => Some(36) case LinkTimeout => Some(37) case TimeoutUpdate => Some(38) case PollUpdate => Some(39)
    case PollMultishot => Some(40) case ReadFixed => Some(41) case WriteFixed => Some(42) case FilesUpdate => Some(43)
    case FixedFdInstall => Some(44) case CloseDirect => Some(45) case Close => Some(46) case MsgRing => Some(47)
    case MsgRingFd => Some(48) case FutexWake => Some(49) case FutexWait => Some(50) case FutexWaitv => Some(51)
    case Waitid => Some(52) case Renameat => Some(53) case Unlinkat => Some(54) case Mkdirat => Some(55)
    case Linkat => Some(56) case Fsetxattr => Some(57) case Ftruncate => Some(58) case EpollWait => Some(59)
    case RegisterRaw => Some(60)
    case _ => None
  }

  function SelectorOf(symbol: OperationSymbol): Option<nat> {
    var early := EarlySelectorOf(symbol);
    if early.Some? then early else LateSelectorOf(symbol)
  }

  function ProfileAt(selector: nat): ProfileId
    requires selector < RING_COUNT
  {
    match selector
    case 0 => SingleIssuerDeferCoop case 1 => Plain
    case 2 => SingleIssuerDeferCqsize case 3 => Iopoll
    case 4 => WideSqeCqe case 5 => ClampSubmitAllTaskrun
    case 6 => NoSqarrayCoop case 7 => DisabledUntilRegister
  }

  const ALL_LANES := [StableCoverage, ProbabilisticRace]
  const ALL_FLAGS := [FixedFile, IoDrain, IoLink, IoHardlink, Async, BufferSelect]
  const EXPECTED_RESULTS :=
    ["success", "invalid", "retry", "short_io", "cancelled", "timeout", "not_supported", "resource_busy", "kernel_error"]
  const AUDITED_HARNESS_HASH :=
    "sha256:cbdebc2ae149cde0f9b0482a980d539031c7ea493c3ec8c7ff46832a5c09c180"

  // The bit a known flag occupies.
  function FlagBit(flag: FlagSymbol): Option<nat> {
    match flag
    case FixedFile => Some(0)
    case IoDrain => Some(1)
    case IoLink => Some(2)
    case IoHardlink => Some(3)
    case Async => Some(4)
    case BufferSelect => Some(5)
    case OtherFlag(_) => None
  }

  function ProductionProfiles(): seq<Profile> {
    seq(RING_COUNT, i requires 0 <= i < RING_COUNT => Profile(ProfileAt(i), i, ALL_LANES))
  }

  const PRODUCTION_FLAGS := [
    FlagSpec(FixedFile, 1), FlagSpec(IoDrain, 2), FlagSpec(IoLink, 4),
    FlagSpec(IoHardlink, 8), FlagSpec(Async, 16), FlagSpec(BufferSelect, 32)]

  function ByteArgument(name: OperandName): ArgumentSpec {
    ArgumentSpec(name, IntegerKind, 1, 0, 255, [], "")
  }

  function ByteArguments(names: seq<OperandName>): seq<ArgumentSpec> {
    seq(|names|, i requires 0 <= i < |names| => ByteArgument(names[i]))
  }

  function ProfileIds(): seq<ProfileId> {
    seq(RING_COUNT, i requires 0 <= i < RING_COUNT => ProfileAt(i))
  }

  function ProductionOperation(selector: nat): Operation
    requires selector < OPERATION_COUNT
  {
    Operation(SymbolAt(selector), selector, ByteArguments(EncoderOperandNames(selector)), ALL_FLAGS, ProfileIds(),
              ALL_LANES, EXPECTED_RESULTS)
  }

  function ProductionOperations(): seq<Operation> {
    seq(OPERATION_COUNT, i requires 0 <= i < OPERATION_COUNT => ProductionOperation(i))
  }

  // The contract the builder emits for the audited snapshot, whatever its two free digests.
  function ProductionContract(compilerHash: string, opTableHash: string, fleetHash: string): HarnessContract {
    HarnessContract(
      Production, true, false, TargetHashes(AUDITED_HARNESS_HASH, compilerHash, opTableHash, fleetHash),
      2048, 96, 61, true, true,
      ProductionProfiles(), [], PRODUCTION_FLAGS, ProductionOperations(), [Sqpoll])
  }

  // ----- Look-ups in the audited tables -----

  lemma EarlyDistinct(selector: nat)
    requires selector < 30
    ensures EarlySelectorOf(EarlySymbolAt(selector)) == Some(selector)
  {
  }

  lemma LateDistinct(selector: nat)
    requires 30 <= selector < OPERATION_COUNT
    ensures LateSelectorOf(LateSymbolAt(selector)) == Some(selector)
  {
  }

  lemma LateIsNotEarly(symbol: OperationSymbol)
    requires LateSelectorOf(symbol).Some?
    ensures EarlySelectorOf(symbol) == None
  {
  }

  lemma SymbolsAreDistinct(selector: nat)
    requires selector < OPERATION_COUNT
    ensures SelectorOf(SymbolAt(selector)) == Some(selector)
  {
    hide EarlySymbolAt, LateSymbolAt, EarlySelectorOf, LateSelectorOf;
    if selector < 30 {
      EarlyDistinct(selector);
    } else {
      LateDistinct(selector);
      LateIsNotEarly(LateSymbolAt(selector));
    }
  }

  lemma EarlyInverse(symbol: OperationSymbol)
    requires EarlySelectorOf(symbol).Some?
    ensures EarlySelectorOf(symbol).value < 30 && EarlySymbolAt(EarlySelectorOf(symbol).value) == symbol
  {
  }

  lemma LateInverse(symbol: OperationSymbol)
    requires LateSelectorOf(symbol).Some?
    ensures 30 <= LateSelectorOf(symbol).value < OPERATION_COUNT && LateSymbolAt(LateSelectorOf(symbol).value) == symbol
  {
  }

  lemma EverySymbolListed(symbol: OperationSymbol)
    requires EarlySelectorOf(symbol) == None && LateSelectorOf(symbol) == None
    ensures symbol.OtherOperation?
  {
  }

  lemma SelectorsAreInverse(symbol: OperationSymbol)
    ensures
      match SelectorOf(symbol)
      case Some(selector) => selector < OPERATION_COUNT && SymbolAt(selector) == symbol
      case None => symbol.OtherOperation?
  {
    hide EarlySymbolAt, LateSymbolAt, EarlySelectorOf, LateSelectorOf;
    if EarlySelectorOf(symbol).Some? {
      EarlyInverse(symbol);
    } else if LateSelectorOf(symbol).Some? {
      LateInverse(symbol);
    } else {
      EverySymbolListed(symbol);
    }
  }

  lemma {:induction false} OperationLookupPrefix(n: nat)
    requires n <= OPERATION_COUNT
    ensures
      var table := OperationTable(ProductionOperations()[..n]);
      && (forall symbol :: symbol in table <==> SelectorOf(symbol).Some? && SelectorOf(symbol).value < n)
      && (forall symbol :: symbol in table ==>
            SelectorOf(symbol).value < OPERATION_COUNT && table[symbol] == ProductionOperation(SelectorOf(symbol).value))
  {
    hide SymbolAt, SelectorOf, EncoderOperandNames;
    if n > 0 {
      OperationLookupPrefix(n - 1);
      var items := ProductionOperations()[..n];
      assert items[..n - 1] == ProductionOperations()[..n - 1];
      SymbolsAreDistinct(n - 1);
      forall symbol: OperationSymbol
        ensures SelectorOf(symbol) == Some(n - 1) ==> symbol == SymbolAt(n - 1)
      {
        SelectorsAreInverse(symbol);
      }
    }
  }

  // The production look-up table holds exactly the 61 audited operations.
  lemma OperationLookup(symbol: OperationSymbol)
    ensures
      var table := OperationTable(ProductionOperations());
      match SelectorOf(symbol)
      case Some(selector) =>
        selector < OPERATION_COUNT && symbol in table && table[symbol] == ProductionOperation(selector)
      case None => symbol !in table
  {
    hide SymbolAt, SelectorOf, EncoderOperandNames, ProductionOperation;
    OperationLookupPrefix(OPERATION_COUNT);
    assert ProductionOperations()[..OPERATION_COUNT] == ProductionOperations();
    SelectorsAreInverse(symbol);
  }

  // A flag's production value is the power of two of its bit.
  lemma FlagLookup(flag: FlagSymbol)
    ensures
      var table := FlagTable(PRODUCTION_FLAGS);
      match FlagBit(flag)
      case Some(bit) => bit < 6 && flag in table && table[flag] == Pow2(bit)
      case None => flag !in table
  {
    var all := PRODUCTION_FLAGS;
    assert all[..6] == all;
    assert all[..6][..5] == all[..5] && all[..5][..4] == all[..4] && all[..4][..3] == all[..3];
    assert all[..3][..2] == all[..2] && all[..2][..1] == all[..1] && all[..1][..0] == [];
    assert FlagTable(all[..1]) == map[FixedFile := 1];
    assert FlagTable(all[..2]) == FlagTable(all[..1])[IoDrain := 2];
    assert FlagTable(all[..3]) == FlagTable(all[..2])[IoLink := 4];
    assert FlagTable(all[..4]) == FlagTable(all[..3])[IoHardlink := 8];
    assert FlagTable(all[..5]) == FlagTable(all[..4])[Async := 16];
    assert FlagTable(all[..6]) == FlagTable(all[..5])[BufferSelect := 32];
    assert Pow2(0) == 1 && Pow2(1) == 2 && Pow2(2) == 4 && Pow2(3) == 8 && Pow2(4) == 16 && Pow2(5) == 32;
  }

  lemma {:induction false} ProfileLookupPrefix(n: nat)
    requires n <= RING_COUNT
    ensures
      var table := ProfileTable(ProductionProfiles()[..n]);
      && (forall id :: id in table ==>
            table[id].id == id && table[id].selectorValue < n && table[id] == ProductionProfiles()[table[id].selectorValue])
      && (forall j :: 0 <= j < n ==> ProfileAt(j) in table)
  {
    hide ProfileAt;
    if n > 0 {
      ProfileLookupPrefix(n - 1);
      var items := ProductionProfiles()[..n];
      assert items[..n - 1] == ProductionProfiles()[..n - 1];
      assert items[n - 1] == ProductionProfiles()[n - 1] == Profile(ProfileAt(n - 1), n - 1, ALL_LANES);
      assert ProfileTable(items) == ProfileTable(items[..n - 1])[ProfileAt(n - 1) := items[n - 1]];
    }
  }

  lemma ProfileLookup(id: ProfileId)
    requires id in ProfileTable(ProductionProfiles())
    ensures
      var profile := ProfileTable(ProductionProfiles())[id];
      profile.selectorValue < RING_COUNT && ProfileAt(profile.selectorValue) == id == profile.id
  {
    hide ProfileAt;
    ProfileLookupPrefix(RING_COUNT);
    assert ProductionProfiles()[..RING_COUNT] == ProductionProfiles();
  }

  // The ring setups by profile.
  function RingSetupOf(id: ProfileId): Option<nat> {
    match id
    case SingleIssuerDeferCoop => Some(0)
    case Plain => Some(1)
    case SingleIssuerDeferCqsize => Some(2)
    case Iopoll => Some(3)
    case WideSqeCqe => Some(4)
    case ClampSubmitAllTaskrun => Some(5)
    case NoSqarrayCoop => Some(6)
    case DisabledUntilRegister => Some(7)
    case Sqpoll => None
    case OtherProfile(_) => None
  }

  // The production profiles are the eight audited ring setups, for both lanes; polling by a kernel
  // thread is not among them.
  lemma RingSetups(id: ProfileId)
    ensures var table := ProfileTable(ProductionProfiles());
            match RingSetupOf(id)
            case Some(setup) => id in table && table[id] == Profile(id, setup, [StableCoverage, ProbabilisticRace])
            case None => id !in table
  {
    ProfileLookupPrefix(RING_COUNT);
    assert ProductionProfiles()[..RING_COUNT] == ProductionProfiles();
    hide ProfileTable;
    if RingSetupOf(id).Some? {
      assert ProfileAt(RingSetupOf(id).value) == id;
    }
  }

  // Every operation of the production contract may be used with each of the six flags, on each of
  // the eight ring setups and in both lanes, and may end in nine ways.
  lemma ProductionAllows(selector: nat, compilerHash: string, opTableHash: string, fleetHash: string)
    requires selector < 61
    ensures var c := ProductionContract(compilerHash, opTableHash, fleetHash);
            && c.inputMaxBytes == 2048 && c.operationMaxCount == 96 && c.selectorModulus == 61 == |c.operations|
            && c.forbiddenProfiles == [Sqpoll] && c.resources == []
            && var operation := c.operations[selector];
               && (forall flag :: flag in operation.allowedFlags <==> !flag.OtherFlag?)
               && (forall id :: id in operation.allowedProfiles <==> RingSetupOf(id).Some?)
               && (forall lane :: lane in operation.allowedLanes)
               && operation.resultClasses == ["success", "invalid", "retry", "short_io", "cancelled", "timeout",
                                              "not_supported", "resource_busy", "kernel_error"]
  {
    hide SymbolAt, EncoderOperandNames;
    var operation := ProductionContract(compilerHash, opTableHash, fleetHash).operations[selector];
    assert operation == ProductionOperation(selector);
    forall flag: FlagSymbol | !flag.OtherFlag?
      ensures flag in ALL_FLAGS
    {
      assert ALL_FLAGS[0] == FixedFile && ALL_FLAGS[1] == IoDrain && ALL_FLAGS[2] == IoLink && ALL_FLAGS[3] == IoHardlink
             && ALL_FLAGS[4] == Async && ALL_FLAGS[5] == BufferSelect;
    }
    forall id | RingSetupOf(id).Some?
      ensures id in ProfileIds()
    {
      assert ProfileIds()[RingSetupOf(id).value] == id;
    }
    forall lane: Lane
      ensures lane in ALL_LANES
    {
      assert ALL_LANES[if lane == StableCoverage then 0 else 1] == lane;
    }
  }
}
