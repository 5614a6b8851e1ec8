// How the strict decoder, the lenient triage parse and the harness loop relate on arbitrary bytes.
module ThreeParsers {
  import opened Bits
  import opened Wrappers
  import opened HarnessCodec
  import opened Repro
  import opened NativeHarness

  // A triage entry describes exactly one dispatched entry.
  predicate Describes(op: DecodedOp, sqe: Sqe) {
    && sqe.selector == op.selector == sqe.userData % OPERATION_COUNT
    && |sqe.operands| == |op.operands|
    && (forall i :: 0 <= i < |op.operands| ==> sqe.operands[i] == op.operands[i].1)
    && sqe.flags == BitAnd(op.control, SQE_FLAG_MASK)
    && sqe.bufGroup == op.bufferGroup
  }

  predicate DescribesPrefix(ops: seq<DecodedOp>, sqes: seq<Sqe>, n: nat)
    requires n <= |ops| && n <= |sqes|
  {
    forall i :: 0 <= i < n ==> Describes(ops[i], sqes[i])
  }

  // The bytes after the last complete operation.
  function LeftOver(s: seq<Byte>): seq<Byte>
    decreases |s|
  {
    if s == [] then []
    else
      var k := |EncoderOperandNames(s[0] % OPERATION_COUNT)|;
      if |s| < k + 2 then s else LeftOver(s[k + 2..])
  }

  // A complete operation at the front of s is read alike by triage and harness.
  lemma CompleteOperationAgrees(ring: nat, s: seq<Byte>, index: nat)
    requires s != [] && |s| >= |EncoderOperandNames(s[0] % OPERATION_COUNT)| + 2
    ensures
      var k := |EncoderOperandNames(s[0] % OPERATION_COUNT)|;
      && AfterOperation(s) == s[k + 2..]
      && LenientOperations(s, index) != []
      && LenientOperations(s, index)[0].index == index
      && LenientOperations(s, index)[1..] == LenientOperations(s[k + 2..], index + 1)
      && Describes(LenientOperations(s, index)[0], FirstSqe(ring, s))
  {
    hide EncoderOperandNames, DecoderOperandCount, ShiftRight, BitAnd;
    TablesAgree(s[0] % OPERATION_COUNT);
  }

  // With room for some operations, the harness stream follows the triage listing: at the cap it
  // is exactly the first operations; below it, all of them, plus one more if extra is given.
  predicate Follows(ops: seq<DecodedOp>, sqes: seq<Sqe>, room: nat, extra: seq<Sqe>) {
    if |ops| >= room then |sqes| == room && DescribesPrefix(ops, sqes, room)
    else |sqes| == |ops| + |extra| && DescribesPrefix(ops, sqes, |ops|) && sqes[|ops|..] == extra
  }

  function TruncatedEntry(ring: nat, s: seq<Byte>): seq<Sqe> {
    if LeftOver(s) == [] then [] else [FirstSqe(ring, LeftOver(s))]
  }

  lemma FollowsCons(op: DecodedOp, ops: seq<DecodedOp>, sqe: Sqe, sqes: seq<Sqe>, room: nat, extra: seq<Sqe>)
    requires Describes(op, sqe) && Follows(ops, sqes, room, extra)
    ensures Follows([op] + ops, [sqe] + sqes, room + 1, extra)
  {
    hide Describes;
    var all, stream := [op] + ops, [sqe] + sqes;
    if |ops| < room {
      assert stream[|all|..] == sqes[|ops|..];
    }
  }

  lemma {:induction false} HarnessVersusLenient(ring: nat, s: seq<Byte>, nops: nat, index: nat)
    requires nops <= MAX_OPERATIONS
    ensures Follows(LenientOperations(s, index), HarnessSqes(ring, s, nops), MAX_OPERATIONS - nops,
                    TruncatedEntry(ring, s))
    decreases |s|
  {
    hide EncoderOperandNames, LenientOperations, HarnessSqes, Follows, TruncatedEntry;
    if s == [] || nops == MAX_OPERATIONS {
      NothingDispatched(ring, s, nops, index);
    } else {
      var k := |EncoderOperandNames(s[0] % OPERATION_COUNT)|;
      if |s| >= k + 2 {
        HarnessVersusLenient(ring, s[k + 2..], nops + 1, index + 1);
        CompleteOperationFollows(ring, s, nops, index);
      } else {
        TruncatedOperationIsLast(ring, s, nops, index);
      }
    }
  }

  lemma NothingDispatched(ring: nat, s: seq<Byte>, nops: nat, index: nat)
    requires nops <= MAX_OPERATIONS && (s == [] || nops == MAX_OPERATIONS)
    ensures Follows(LenientOperations(s, index), HarnessSqes(ring, s, nops), MAX_OPERATIONS - nops,
                    TruncatedEntry(ring, s))
  {
    hide EncoderOperandNames, DecoderOperandCount, FirstSqe, Describes;
  }

  lemma CompleteOperationFollows(ring: nat, s: seq<Byte>, nops: nat, index: nat)
    requires s != [] && nops < MAX_OPERATIONS && |s| >= |EncoderOperandNames(s[0] % OPERATION_COUNT)| + 2
    requires
      var rest := s[|EncoderOperandNames(s[0] % OPERATION_COUNT)| + 2..];
      Follows(LenientOperations(rest, index + 1), HarnessSqes(ring, rest, nops + 1), MAX_OPERATIONS - nops - 1,
              TruncatedEntry(ring, rest))
    ensures Follows(LenientOperations(s, index), HarnessSqes(ring, s, nops), MAX_OPERATIONS - nops,
                    TruncatedEntry(ring, s))
  {
    hide EncoderOperandNames, DecoderOperandCount, FirstSqe, Describes, LenientOperations, HarnessSqes, Follows,
      AfterOperation;
    var rest := s[|EncoderOperandNames(s[0] % OPERATION_COUNT)| + 2..];
    CompleteOperationAgrees(ring, s, index);
    HarnessStep(ring, s, nops);
    assert TruncatedEntry(ring, s) == TruncatedEntry(ring, rest);
    var ops := LenientOperations(s, index);
    assert ops == [ops[0]] + ops[1..];
    FollowsCons(ops[0], ops[1..], FirstSqe(ring, s), HarnessSqes(ring, rest, nops + 1),
                MAX_OPERATIONS - nops - 1, TruncatedEntry(ring, rest));
  }

  lemma TruncatedOperationIsLast(ring: nat, s: seq<Byte>, nops: nat, index: nat)
    requires s != [] && nops < MAX_OPERATIONS && |s| < |EncoderOperandNames(s[0] % OPERATION_COUNT)| + 2
    ensures HarnessSqes(ring, s, nops) == [FirstSqe(ring, s)]
    ensures Follows(LenientOperations(s, index), HarnessSqes(ring, s, nops), MAX_OPERATIONS - nops,
                    TruncatedEntry(ring, s))
  {
    hide EncoderOperandNames, DecoderOperandCount, FirstSqe, HarnessSqes;
    TablesAgree(s[0] % OPERATION_COUNT);
    assert AfterOperation(s) == [];
    HarnessStep(ring, s, nops);
    HarnessStep(ring, [], nops + 1);
  }

  // The truncated operation: missing operands are zero, and so is the control byte unless
  // poll_update has read its flags operand, which then doubles as the control byte.
  lemma TruncatedOperation(ring: nat, s: seq<Byte>)
    requires s != [] && |s| < |EncoderOperandNames(s[0] % OPERATION_COUNT)| + 2
    ensures
      var sqe, selector := FirstSqe(ring, s), s[0] % OPERATION_COUNT;
      && |sqe.operands| == |EncoderOperandNames(selector)|
      && (forall i :: 0 <= i < |sqe.operands| ==> sqe.operands[i] == if i + 1 < |s| then s[i + 1] else 0)
      && sqe.flags == (if selector == POLL_UPDATE && |s| > 1 then BitAnd(s[1], SQE_FLAG_MASK) else 0)
      && sqe.bufGroup == (if selector == POLL_UPDATE && |s| > 1 then ShiftRight(s[1], 4) else 0)
  {
    TablesAgree(s[0] % OPERATION_COUNT);
    assert s[0] % OPERATION_COUNT == POLL_UPDATE ==> DecoderOperandCount(s[0] % OPERATION_COUNT) == 3;
    hide EncoderOperandNames, DecoderOperandCount;
    assert BitAnd(0, SQE_FLAG_MASK) == 0;
  }

  // Every input, capped at 2048 bytes, against the triage listing of the same bytes.
  lemma HarnessExtendsTriage(input: seq<Byte>)
    ensures
      var payload := CapInput(input);
      var ops, sqes := LenientOperations(Body(payload), 0), DispatchedSqes(input);
      && Follows(ops, sqes, MAX_OPERATIONS, TruncatedEntry(RingOf(payload), Body(payload)))
  {
    var payload := CapInput(input);
    HarnessVersusLenient(RingOf(payload), Body(payload), 0, 0);
  }

  // ----- Strictly decodable payloads -----

  predicate SelectorsUnwrapped(s: seq<Byte>)
    decreases |s|
  {
    if s == [] then true
    else
      var k := |EncoderOperandNames(s[0] % OPERATION_COUNT)|;
      s[0] < OPERATION_COUNT && (|s| >= k + 2 ==> SelectorsUnwrapped(s[k + 2..]))
  }

  predicate SameOperation(native: NativeOperation, op: DecodedOp) {
    && native.selector == op.selector
    && native.sqeControl == op.control
    && |native.operands| == |op.operands|
    && forall i :: 0 <= i < |op.operands| ==> native.operands[i] == op.operands[i].1
  }

  predicate SameOperations(native: seq<NativeOperation>, ops: seq<DecodedOp>) {
    && |native| == |ops|
    && forall i :: 0 <= i < |ops| ==> SameOperation(native[i], ops[i])
  }

  // Strict decoding succeeds exactly when the lenient parse wraps no selector, drops no byte
  // and stays within the budget; it then lists the very same operations.
  lemma {:induction false} StrictVersusLenient(s: seq<Byte>, budget: nat, index: nat)
    ensures DecodeOperations(s, budget).Ok? <==>
            SelectorsUnwrapped(s) && LeftOver(s) == [] && |LenientOperations(s, index)| <= budget
    ensures DecodeOperations(s, budget).Ok? ==>
            SameOperations(DecodeOperations(s, budget).value, LenientOperations(s, index))
    decreases |s|
  {
    hide EncoderOperandNames, DecoderOperandCount, FirstOperation, DecodeOperations, LenientOperations,
      SelectorsUnwrapped, LeftOver, SameOperation;
    LenientScanStep(s, index);
    DecodeStep(s, budget);
    if s != [] && s[0] < OPERATION_COUNT {
      TablesAgree(s[0]);
      var k := |EncoderOperandNames(s[0])|;
      if |s| >= k + 2 && budget > 0 {
        StrictVersusLenient(s[k + 2..], budget - 1, index + 1);
        StrictFront(s, budget, index);
      }
    }
  }

  // One step of the three lenient scans together.
  lemma LenientScanStep(s: seq<Byte>, index: nat)
    ensures s == [] ==> SelectorsUnwrapped(s) && LeftOver(s) == [] && LenientOperations(s, index) == []
    ensures s != [] ==>
              var k := |EncoderOperandNames(s[0] % OPERATION_COUNT)|;
              if |s| >= k + 2 then
                && LeftOver(s) == LeftOver(s[k + 2..])
                && (SelectorsUnwrapped(s) <==> s[0] < OPERATION_COUNT && SelectorsUnwrapped(s[k + 2..]))
                && |LenientOperations(s, index)| == 1 + |LenientOperations(s[k + 2..], index + 1)|
              else LeftOver(s) == s && LenientOperations(s, index) == []
    ensures s != [] && s[0] >= OPERATION_COUNT ==> !SelectorsUnwrapped(s)
  {
    hide EncoderOperandNames, ShiftRight;
  }

  lemma FrontAgrees(s: seq<Byte>, index: nat)
    requires s != [] && s[0] < OPERATION_COUNT && 1 + DecoderOperandCount(s[0]) < |s|
    ensures |LenientOperations(s, index)| == 1 + |LenientOperations(s[DecoderOperandCount(s[0]) + 2..], index + 1)|
    ensures LenientOperations(s, index)[1..] == LenientOperations(s[DecoderOperandCount(s[0]) + 2..], index + 1)
    ensures SameOperation(FirstOperation(s), LenientOperations(s, index)[0])
  {
    hide EncoderOperandNames, DecoderOperandCount, ShiftRight;
    TablesAgree(s[0]);
  }

  lemma StrictFront(s: seq<Byte>, budget: nat, index: nat)
    requires s != [] && budget > 0 && s[0] < OPERATION_COUNT && 1 + DecoderOperandCount(s[0]) < |s|
    requires
      var rest, k := DecodeOperations(s[DecoderOperandCount(s[0]) + 2..], budget - 1), DecoderOperandCount(s[0]);
      rest.Ok? ==> SameOperations(rest.value, LenientOperations(s[k + 2..], index + 1))
    ensures DecodeOperations(s, budget).Ok? ==>
            SameOperations(DecodeOperations(s, budget).value, LenientOperations(s, index))
  {
    hide EncoderOperandNames, DecoderOperandCount, SameOperation, FirstOperation;
    DecodeStep(s, budget);
    FrontAgrees(s, index);
    if DecodeOperations(s, budget).Ok? {
      hide DecodeOperations, LenientOperations;
      var native, ops := DecodeOperations(s, budget).value, LenientOperations(s, index);
      assert native[1..] == DecodeOperations(s[DecoderOperandCount(s[0]) + 2..], budget - 1).value;
      assert forall i :: 0 < i < |ops| ==> ops[i] == ops[1..][i - 1] && native[i] == native[1..][i - 1];
    }
  }

  // The strict decoder accepts a payload exactly when its ring is canonical and the lenient
  // parse of the rest wraps no selector, drops no byte and lists at most 96 operations; it then
  // decodes the operations triage lists.
  lemma StrictAcceptance(payload: seq<Byte>)
    ensures
      var ops, strict := LenientOperations(Body(payload), 0), DecodeProgramSpec(payload, true);
      && (strict.Ok? <==>
            && payload != [] && |payload| <= MAX_INPUT_BYTES && payload[0] < RING_COUNT
            && SelectorsUnwrapped(Body(payload)) && LeftOver(Body(payload)) == [] && |ops| <= MAX_OPERATIONS)
      && (strict.Ok? ==> SameOperations(strict.value.operations, ops))
  {
    hide EncoderOperandNames, DecoderOperandCount, DecodeOperations, LenientOperations, SelectorsUnwrapped, LeftOver,
      SameOperations;
    StrictVersusLenient(Body(payload), MAX_OPERATIONS, 0);
  }

  // The entry the harness prepares for one canonical operation.
  function PreparedEntry(ring: nat, op: NativeOperation): Sqe
    requires CanonicalOperation(op)
  {
    var operands: seq<nat> := op.operands;
    PrepareSqe(ring, op.selector, operands, op.sqeControl)
  }

  function PreparedEntries(ring: nat, ops: seq<NativeOperation>): seq<Sqe>
    requires forall i :: 0 <= i < |ops| ==> CanonicalOperation(ops[i])
  {
    seq(|ops|, i requires 0 <= i < |ops| => PreparedEntry(ring, ops[i]))
  }

  lemma FrontIsPrepared(ring: nat, s: seq<Byte>)
    requires s != [] && s[0] < OPERATION_COUNT && 1 + DecoderOperandCount(s[0]) < |s|
    ensures CanonicalOperation(FirstOperation(s))
    ensures FirstSqe(ring, s) == PreparedEntry(ring, FirstOperation(s))
    ensures AfterOperation(s) == s[DecoderOperandCount(s[0]) + 2..]
  {
    hide DecoderOperandCount, ShiftRight, BitAnd;
    var k := DecoderOperandCount(s[0]);
    assert ReadOperands(s, k) == s[1..k + 1];
  }

  lemma {:induction false} StrictOperationsRun(ring: nat, s: seq<Byte>, nops: nat)
    requires nops <= MAX_OPERATIONS
    requires DecodeOperations(s, MAX_OPERATIONS - nops).Ok?
    ensures
      var ops := DecodeOperations(s, MAX_OPERATIONS - nops).value;
      && (forall i :: 0 <= i < |ops| ==> CanonicalOperation(ops[i]))
      && HarnessSqes(ring, s, nops) == PreparedEntries(ring, ops)
    decreases |s|
  {
    hide DecoderOperandCount, FirstSqe, AfterOperation, FirstOperation, HarnessSqes, DecodeOperations,
      CanonicalOperation, PreparedEntry;
    DecodeStep(s, MAX_OPERATIONS - nops);
    HarnessStep(ring, s, nops);
    if s != [] {
      FrontIsPrepared(ring, s);
      var rest := s[DecoderOperandCount(s[0]) + 2..];
      StrictOperationsRun(ring, rest, nops + 1);
      var tail := DecodeOperations(rest, MAX_OPERATIONS - nops - 1).value;
      var ops := DecodeOperations(s, MAX_OPERATIONS - nops).value;
      assert ops == [FirstOperation(s)] + tail;
      assert forall i :: 0 < i < |ops| ==> ops[i] == tail[i - 1];
    }
  }

  // On every strictly decodable payload the harness dispatches exactly the decoded operations,
  // on the selected ring, each with its own control byte.
  lemma HarnessRunsStrictPayload(payload: seq<Byte>)
    requires DecodeProgramSpec(payload, true).Ok?
    ensures
      var p := DecodeProgramSpec(payload, true).value;
      && CanonicalProgram(p)
      && RingOf(payload) == p.ringSelector
      && DispatchedSqes(payload) == PreparedEntries(p.ringSelector, p.operations)
  {
    hide CanonicalOperation, HarnessSqes, DecodeOperations;
    EncodeAfterDecode(payload);
    StrictOperationsRun(RingOf(payload), payload[1..], 0);
  }
}
