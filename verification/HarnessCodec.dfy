// The strict codec for the native harness byte grammar: a ring selector followed by
// operations, each one a selector, its operands in read order and one SQE control byte.
module HarnessCodec {
  import opened Bits
  import opened Wrappers

  const RING_COUNT := 8
  const OPERATION_COUNT := 61
  const MAX_OPERATIONS := 96
  const MAX_INPUT_BYTES := 2048

  // Documented operand names; every other identifier is OtherName.
  datatype OperandName =
    | Fd | Length | Datasync | UserData | Flags | Count | InputFd | OutputFd | BufferGroup | AcceptFlags | Backlog
    | SocketType | How | ZcFlags | CancelFlags | TimeoutFlags | NewUserData | OldUserData | BufferIndex | Offset
    | FileIndex | Data | ExpectedValue | UnlinkFlags | LengthUnits | RegisterOpcode | RegisterCount
    | OtherName(name: string)

  // The encoder accepts arbitrary integers and rejects those that are not bytes.
  datatype NativeOperation = NativeOperation(selector: int, operands: seq<int>, sqeControl: int)
  datatype NativeProgram = NativeProgram(ringSelector: int, operations: seq<NativeOperation>)

  datatype CodecError =
    | HarnessHashDrift | NotAByte | RingNotCanonical | SelectorNotCanonical | OperandCountMismatch
    | TooManyOperations | TooManyBytes | EmptyPayload | Truncated

  // Encoder authority: operand names in the audited read order.
  function EncoderOperandNames(selector: nat): seq<OperandName>
    requires selector < OPERATION_COUNT
  {
    match selector
    case 0 => [] case 1 => [Fd]
    case 2 => [Fd] case 3 => [Fd, Length]
    case 4 => [Fd] case 5 => [Fd, Datasync]
    case 6 => [Fd] case 7 => [UserData]
    case 8 => [Flags, Count] case 9 => [UserData]
    case 10 => [Fd] case 11 => [Fd]
    case 12 => [Fd] case 13 => [Fd]
    case 14 => [] case 15 => [InputFd, OutputFd]
    case 16 => [InputFd, OutputFd] case 17 => [Fd]
    case 18 => [BufferGroup] case 19 => [BufferGroup]
    case 20 => [Fd] case 21 => [Fd]
    case 22 => [AcceptFlags] case 23 => []
    case 24 => [Fd] case 25 => [Fd]
    case 26 => [Fd, Backlog] case 27 => [SocketType]
    case 28 => [Fd, How] case 29 => [Fd]
    case 30 => [Fd] case 31 => [Fd]
    case 32 => [Fd] case 33 => [Fd, ZcFlags]
    case 34 => [Fd] case 35 => [UserData]
    case 36 => [Fd, CancelFlags] case 37 => [TimeoutFlags]
    case 38 => [UserData] case 39 => [Flags, NewUserData, OldUserData]
    case 40 => [Fd] case 41 => [Fd, BufferIndex]
    case 42 => [Fd, BufferIndex] case 43 => [Offset, Count]
    case 44 => [Fd] case 45 => [FileIndex]
    case 46 => [Fd] case 47 => [Data, Length]
    case 48 => [Fd, FileIndex] case 49 => []
    case 50 => [ExpectedValue] case 51 => []
    case 52 => [] case 53 => []
    case 54 => [UnlinkFlags] case 55 => []
    case 56 => [] case 57 => [Fd]
    case 58 => [Fd, LengthUnits] case 59 => []
    case 60 => [RegisterOpcode, RegisterCount]
  }

  // Decoder authority: stated independently of the encoder's names.
  function DecoderOperandCount(selector: nat): nat
    requires selector < OPERATION_COUNT
  {
    match selector
    case 0 => 0 case 1 => 1 case 2 => 1 case 3 => 2 case 4 => 1
    case 5 => 2 case 6 => 1 case 7 => 1 case 8 => 2 case 9 => 1
    case 10 => 1 case 11 => 1 case 12 => 1 case 13 => 1 case 14 => 0
    case 15 => 2 case 16 => 2 case 17 => 1 case 18 => 1 case 19 => 1
    case 20 => 1 case 21 => 1 case 22 => 1 case 23 => 0 case 24 => 1
    case 25 => 1 case 26 => 2 case 27 => 1 case 28 => 2 case 29 => 1
    case 30 => 1 case 31 => 1 case 32 => 1 case 33 => 2 case 34 => 1
    case 35 => 1 case 36 => 2 case 37 => 1 case 38 => 1 case 39 => 3
    case 40 => 1 case 41 => 2 case 42 => 2 case 43 => 2 case 44 => 1
    case 45 => 1 case 46 => 1 case 47 => 2 case 48 => 2 case 49 => 0
    case 50 => 1 case 51 => 0 case 52 => 0 case 53 => 0 case 54 => 1
    case 55 => 0 case 56 => 0 case 57 => 1 case 58 => 2 case 59 => 0
    case 60 => 2
  }

  // The two authorities describe one grammar.
  lemma TablesAgree(selector: nat)
    requires selector < OPERATION_COUNT
    ensures |EncoderOperandNames(selector)| == DecoderOperandCount(selector) <= 3
    ensures forall i, j :: 0 <= i < j < |EncoderOperandNames(selector)| ==>
              EncoderOperandNames(selector)[i] != EncoderOperandNames(selector)[j]
  {
  }

  function OperandNames(selector: int): Result<seq<OperandName>, CodecError> {
    if !(0 <= selector <= 255) then Err(NotAByte)
    else if selector >= OPERATION_COUNT then Err(SelectorNotCanonical)
    else Ok(EncoderOperandNames(selector))
  }

  predicate IsByte(value: int) {
    0 <= value <= 255
  }

  predicate AllBytes(values: seq<int>) {
    forall i :: 0 <= i < |values| ==> IsByte(values[i])
  }

  predicate CanonicalOperation(op: NativeOperation) {
    && 0 <= op.selector < OPERATION_COUNT
    && |op.operands| == DecoderOperandCount(op.selector)
    && AllBytes(op.operands)
    && IsByte(op.sqeControl)
  }

  predicate CanonicalProgram(p: NativeProgram) {
    && 0 <= p.ringSelector < RING_COUNT
    && |p.operations| <= MAX_OPERATIONS
    && forall i :: 0 <= i < |p.operations| ==> CanonicalOperation(p.operations[i])
  }

  function EncodeOperation(op: NativeOperation): Result<seq<Byte>, CodecError> {
    if !IsByte(op.selector) then Err(NotAByte)
    else if op.selector >= OPERATION_COUNT then Err(SelectorNotCanonical)
    else if |op.operands| != |EncoderOperandNames(op.selector)| then Err(OperandCountMismatch)
    else if !AllBytes(op.operands) then Err(NotAByte)
    else if !IsByte(op.sqeControl) then Err(NotAByte)
    else
      var operands: seq<Byte> := op.operands;
      var selector: Byte := op.selector;
      var control: Byte := op.sqeControl;
      Ok([selector] + operands + [control])
  }

  // The concatenation of the operations' encodings, or the first operation's error.
  function EncodeOperations(ops: seq<NativeOperation>): Result<seq<Byte>, CodecError> {
    if ops == [] then Ok([])
    else
      var head :- EncodeOperation(ops[0]);
      var tail :- EncodeOperations(ops[1..]);
      Ok(head + tail)
  }

  function EncodeProgram(p: NativeProgram, hashMatches: bool): Result<seq<Byte>, CodecError> {
    if !hashMatches then Err(HarnessHashDrift)
    else if !IsByte(p.ringSelector) then Err(NotAByte)
    else if p.ringSelector >= RING_COUNT then Err(RingNotCanonical)
    else if |p.operations| > MAX_OPERATIONS then Err(TooManyOperations)
    else
      var body :- EncodeOperations(p.operations);
      var ring: Byte := p.ringSelector;
      if 1 + |body| > MAX_INPUT_BYTES then Err(TooManyBytes) else Ok([ring] + body)
  }

  // Decodes the operations in s, of which at most budget are allowed.
  function DecodeOperations(s: seq<Byte>, budget: nat): Result<seq<NativeOperation>, CodecError>
    decreases |s|
  {
    if s == [] then Ok([])
    else if budget == 0 then Err(TooManyOperations)
    else if s[0] >= OPERATION_COUNT then Err(SelectorNotCanonical)
    else
      var k := DecoderOperandCount(s[0]);
      if 1 + k >= |s| then Err(Truncated)
      else
        var rest :- DecodeOperations(s[k + 2..], budget - 1);
        Ok([FirstOperation(s)] + rest)
  }

  function DecodeProgramSpec(payload: seq<Byte>, hashMatches: bool): Result<NativeProgram, CodecError> {
    if !hashMatches then Err(HarnessHashDrift)
    else if payload == [] then Err(EmptyPayload)
    else if |payload| > MAX_INPUT_BYTES then Err(TooManyBytes)
    else if payload[0] >= RING_COUNT then Err(RingNotCanonical)
    else
      var ops :- DecodeOperations(payload[1..], MAX_OPERATIONS);
      Ok(NativeProgram(payload[0], ops))
  }

  function PrependOperations(done: seq<NativeOperation>, rest: Result<seq<NativeOperation>, CodecError>)
    : Result<seq<NativeOperation>, CodecError>
  {
    var tail :- rest;
    Ok(done + tail)
  }

  function FirstOperation(s: seq<Byte>): NativeOperation
    requires s != [] && s[0] < OPERATION_COUNT && 1 + DecoderOperandCount(s[0]) < |s|
  {
    var k := DecoderOperandCount(s[0]);
    NativeOperation(s[0], s[1..k + 1], s[k + 1])
  }

  lemma DecodeStep(s: seq<Byte>, budget: nat)
    ensures DecodeOperations(s, budget) ==
            if s == [] then Ok([])
            else if budget == 0 then Err(TooManyOperations)
            else if s[0] >= OPERATION_COUNT then Err(SelectorNotCanonical)
            else if 1 + DecoderOperandCount(s[0]) >= |s| then Err(Truncated)
            else PrependOperations([FirstOperation(s)], DecodeOperations(s[DecoderOperandCount(s[0]) + 2..], budget - 1))
  {
    hide DecoderOperandCount;
  }

  lemma PrependAssociates(
    done: seq<NativeOperation>, more: seq<NativeOperation>, rest: Result<seq<NativeOperation>, CodecError>)
    ensures PrependOperations(done, PrependOperations(more, rest)) == PrependOperations(done + more, rest)
  {
    if rest.Ok? {
      assert done + (more + rest.value) == (done + more) + rest.value;
    }
  }

  // The cursor is the position of the next unread selector byte; each turn of the loop checks one
  // operation, moves the cursor past its control byte and appends it.
  method DecodeProgram(payload: seq<Byte>, hashMatches: bool) returns (r: Result<NativeProgram, CodecError>)
    ensures r == DecodeProgramSpec(payload, hashMatches)
  {
    hide DecoderOperandCount, DecodeOperations;
    if !hashMatches { return Err(HarnessHashDrift); }
    if payload == [] { return Err(EmptyPayload); }
    if |payload| > MAX_INPUT_BYTES { return Err(TooManyBytes); }
    var ringSelector := payload[0];
    if ringSelector >= RING_COUNT { return Err(RingNotCanonical); }
    var cursor := 1;
    var operations: seq<NativeOperation> := [];
    ghost var all := DecodeOperations(payload[1..], MAX_OPERATIONS);
    assert all.Ok? ==> [] + all.value == all.value;
    while cursor < |payload|
      invariant 1 <= cursor <= |payload|
      invariant |operations| <= MAX_OPERATIONS
      invariant DecodeOperations(payload[1..], MAX_OPERATIONS)
             == PrependOperations(operations, DecodeOperations(payload[cursor..], MAX_OPERATIONS - |operations|))
    {
      ghost var rest := payload[cursor..];
      DecodeStep(rest, MAX_OPERATIONS - |operations|);
      if |operations| >= MAX_OPERATIONS { return Err(TooManyOperations); }
      var selector := payload[cursor];
      cursor := cursor + 1;
      if selector >= OPERATION_COUNT { return Err(SelectorNotCanonical); }
      var end := cursor + DecoderOperandCount(selector);
      if end >= |payload| { return Err(Truncated); }
      var op := NativeOperation(selector, payload[cursor..end], payload[end]);
      assert op == FirstOperation(rest) by { assert rest[1..end - cursor + 1] == payload[cursor..end]; }
      assert rest[end - cursor + 2..] == payload[end + 1..];
      PrependAssociates(operations, [op], DecodeOperations(payload[end + 1..], MAX_OPERATIONS - |operations| - 1));
      cursor := end + 1;
      operations := operations + [op];
    }
    DecodeStep(payload[cursor..], MAX_OPERATIONS - |operations|);
    assert payload[cursor..] == [] && operations + [] == operations;
    return Ok(NativeProgram(ringSelector, operations));
  }

  // One of the 61 single-operation vectors checked before the compiler is enabled.
  function AuditedVector(selector: nat): NativeProgram
    requires selector < OPERATION_COUNT
  {
    NativeProgram(
      selector % RING_COUNT,
      [NativeOperation(
         selector,
         seq(|EncoderOperandNames(selector)|, index => (selector * 17 + index * 29) % 256),
         (selector * 7) % 256)])
  }

  predicate AuditedCodecVerified() {
    forall selector | 0 <= selector < OPERATION_COUNT ::
      var encoded := EncodeProgram(AuditedVector(selector), true);
      encoded.Ok? && DecodeProgramSpec(encoded.value, true) == Ok(AuditedVector(selector))
  }

  // The self-test that gates the compiler cannot fail.
  lemma AuditedCodecAlwaysVerifies()
    ensures AuditedCodecVerified()
  {
    hide EncoderOperandNames, DecoderOperandCount;
    forall selector | 0 <= selector < OPERATION_COUNT
      ensures EncodeProgram(AuditedVector(selector), true).Ok?
      ensures DecodeProgramSpec(EncodeProgram(AuditedVector(selector), true).value, true) == Ok(AuditedVector(selector))
    {
      TablesAgree(selector);
      assert CanonicalOperation(AuditedVector(selector).operations[0]);
      DecodeAfterEncode(AuditedVector(selector));
    }
  }

  // ----- Bijection between canonical programs and accepted payloads -----

  lemma EncodeOperationExact(op: NativeOperation)
    ensures EncodeOperation(op).Ok? <==> CanonicalOperation(op)
    ensures EncodeOperation(op).Ok? ==> 2 <= |EncodeOperation(op).value| <= 5
  {
    hide EncoderOperandNames, DecoderOperandCount;
    if 0 <= op.selector < OPERATION_COUNT {
      TablesAgree(op.selector);
    }
  }

  lemma {:induction false} EncodeOperationsExact(ops: seq<NativeOperation>)
    ensures EncodeOperations(ops).Ok? <==> forall i :: 0 <= i < |ops| ==> CanonicalOperation(ops[i])
    ensures EncodeOperations(ops).Ok? ==> |EncodeOperations(ops).value| <= 5 * |ops|
  {
    hide EncoderOperandNames, DecoderOperandCount;
    if ops != [] {
      EncodeOperationExact(ops[0]);
      EncodeOperationsExact(ops[1..]);
      assert forall i :: 0 < i < |ops| ==> ops[i] == ops[1..][i - 1];
    }
  }

  // Encoding accepts exactly the canonical programs. Its 2048-byte check never fires:
  // 96 operations occupy at most 481 bytes.
  lemma EncoderAcceptsExactlyCanonical(p: NativeProgram)
    ensures EncodeProgram(p, true).Ok? <==> CanonicalProgram(p)
    ensures EncodeProgram(p, true).Ok? ==> |EncodeProgram(p, true).value| <= 481
    ensures EncodeProgram(p, true) != Err(TooManyBytes)
    ensures EncodeProgram(p, false) == Err(HarnessHashDrift)
  {
    EncodeOperationsExact(p.operations);
    NoByteErrorFromOperations(p.operations);
  }

  lemma {:induction false} NoByteErrorFromOperations(ops: seq<NativeOperation>)
    ensures EncodeOperations(ops) != Err(TooManyBytes)
  {
    if ops != [] {
      NoByteErrorFromOperations(ops[1..]);
    }
  }

  lemma FirstOfEncoded(op: NativeOperation, tail: seq<Byte>)
    requires CanonicalOperation(op) && EncodeOperation(op).Ok?
    ensures
      var s, k := EncodeOperation(op).value + tail, DecoderOperandCount(op.selector);
      && s[0] == op.selector
      && 1 + k < |s|
      && FirstOperation(s) == op
      && s[k + 2..] == tail
  {
    hide EncoderOperandNames, DecoderOperandCount;
    TablesAgree(op.selector);
    var s, k := EncodeOperation(op).value + tail, DecoderOperandCount(op.selector);
    assert s[1..k + 1] == op.operands;
  }

  lemma EncodingOfFirst(s: seq<Byte>)
    requires s != [] && s[0] < OPERATION_COUNT && 1 + DecoderOperandCount(s[0]) < |s|
    ensures EncodeOperation(FirstOperation(s)) == Ok(s[..DecoderOperandCount(s[0]) + 2])
  {
    hide EncoderOperandNames, DecoderOperandCount;
    TablesAgree(s[0]);
    var k := DecoderOperandCount(s[0]);
    assert s[..k + 2] == [s[0]] + s[1..k + 1] + [s[k + 1]];
  }

  lemma {:induction false} DecodeInvertsEncode(ops: seq<NativeOperation>, budget: nat)
    requires |ops| <= budget
    requires EncodeOperations(ops).Ok?
    ensures DecodeOperations(EncodeOperations(ops).value, budget) == Ok(ops)
  {
    hide EncoderOperandNames, DecoderOperandCount, EncodeOperation, FirstOperation;
    if ops != [] {
      EncodeOperationExact(ops[0]);
      var head, tail := EncodeOperation(ops[0]).value, EncodeOperations(ops[1..]).value;
      FirstOfEncoded(ops[0], tail);
      DecodeInvertsEncode(ops[1..], budget - 1);
      assert EncodeOperations(ops).value == head + tail;
      assert DecodeOperations(head + tail, budget) == Ok(ops) by {
        hide DecodeOperations, EncodeOperations;
        DecodeStep(head + tail, budget);
        assert [ops[0]] + ops[1..] == ops;
      }
    }
  }

  lemma {:induction false} EncodeInvertsDecode(s: seq<Byte>, budget: nat)
    requires DecodeOperations(s, budget).Ok?
    ensures |DecodeOperations(s, budget).value| <= budget
    ensures EncodeOperations(DecodeOperations(s, budget).value) == Ok(s)
    decreases |s|
  {
    hide EncoderOperandNames, DecoderOperandCount, EncodeOperation, FirstOperation;
    if s != [] {
      var k := DecoderOperandCount(s[0]);
      EncodingOfFirst(s);
      EncodeInvertsDecode(s[k + 2..], budget - 1);
      DecodeStep(s, budget);
      var op, rest := FirstOperation(s), DecodeOperations(s[k + 2..], budget - 1).value;
      var ops := DecodeOperations(s, budget).value;
      assert ops == [op] + rest;
      assert ops[0] == op && ops[1..] == rest;
      assert s == s[..k + 2] + s[k + 2..];
    }
  }

  // decode(encode(p)) == p for every canonical program.
  lemma DecodeAfterEncode(p: NativeProgram)
    requires CanonicalProgram(p)
    ensures EncodeProgram(p, true).Ok?
    ensures DecodeProgramSpec(EncodeProgram(p, true).value, true) == Ok(p)
  {
    EncoderAcceptsExactlyCanonical(p);
    DecodeInvertsEncode(p.operations, MAX_OPERATIONS);
    var payload := EncodeProgram(p, true).value;
    assert payload[1..] == EncodeOperations(p.operations).value;
  }

  // encode(decode(b)) == b for every accepted byte string, which is at most 481 bytes long.
  lemma EncodeAfterDecode(payload: seq<Byte>)
    requires DecodeProgramSpec(payload, true).Ok?
    ensures CanonicalProgram(DecodeProgramSpec(payload, true).value)
    ensures EncodeProgram(DecodeProgramSpec(payload, true).value, true) == Ok(payload)
    ensures |payload| <= 481
  {
    var p := DecodeProgramSpec(payload, true).value;
    EncodeInvertsDecode(payload[1..], MAX_OPERATIONS);
    EncodeOperationsExact(p.operations);
    hide DecodeOperations, EncodeOperations, CanonicalOperation;
    assert payload == [payload[0]] + payload[1..];
  }

  // The decoder accepts exactly the encoder's range.
  lemma DecoderAcceptsExactlyEncoderRange(payload: seq<Byte>)
    ensures DecodeProgramSpec(payload, true).Ok? <==> exists p :: EncodeProgram(p, true) == Ok(payload)
  {
    if DecodeProgramSpec(payload, true).Ok? {
      EncodeAfterDecode(payload);
    }
    if p :| EncodeProgram(p, true) == Ok(payload) {
      EncoderAcceptsExactlyCanonical(p);
      DecodeAfterEncode(p);
    }
  }

  // ----- Where the decoder stops -----

  // What is left when decoding stops is no further operation.
  predicate StopsAt(rest: seq<Byte>, room: bool, error: CodecError) {
    && rest != []
    && (if !room then error == TooManyOperations
        else if rest[0] >= 61 then error == SelectorNotCanonical
        else error == Truncated && |rest| < |EncoderOperandNames(rest[0])| + 2)
  }

  // Decoding s reads these operations and stops before the rest.
  predicate Stopped(s: seq<Byte>, budget: nat, ops: seq<NativeOperation>, rest: seq<Byte>) {
    && |ops| <= budget && EncodeOperations(ops).Ok? && s == EncodeOperations(ops).value + rest
    && var decoded := DecodeOperations(s, budget);
       if rest == [] then decoded == Ok(ops) else decoded.Err? && StopsAt(rest, |ops| < budget, decoded.error)
  }

  lemma StoppedHere(s: seq<Byte>, budget: nat)
    requires s == [] || budget == 0 || s[0] >= OPERATION_COUNT || 1 + DecoderOperandCount(s[0]) >= |s|
    ensures Stopped(s, budget, [], s)
  {
    hide EncoderOperandNames, DecoderOperandCount, DecodeOperations;
    DecodeStep(s, budget);
    if s != [] && s[0] < OPERATION_COUNT { TablesAgree(s[0]); }
    assert s == [] + s;
  }

  lemma StoppedLater(s: seq<Byte>, budget: nat, ops: seq<NativeOperation>, rest: seq<Byte>)
    requires budget > 0 && s != [] && s[0] < OPERATION_COUNT && 1 + DecoderOperandCount(s[0]) < |s|
    requires Stopped(s[DecoderOperandCount(s[0]) + 2..], budget - 1, ops, rest)
    ensures Stopped(s, budget, [FirstOperation(s)] + ops, rest)
  {
    hide EncoderOperandNames, DecoderOperandCount, EncodeOperation, FirstOperation, DecodeOperations, StopsAt;
    DecodeStep(s, budget);
    EncodingOfFirst(s);
    var k, op, tail := DecoderOperandCount(s[0]), FirstOperation(s), EncodeOperations(ops).value;
    assert ([op] + ops)[0] == op && ([op] + ops)[1..] == ops;
    assert EncodeOperations([op] + ops) == Ok(s[..k + 2] + tail);
    hide EncodeOperations;
    assert s == s[..k + 2] + s[k + 2..] == s[..k + 2] + (tail + rest) == (s[..k + 2] + tail) + rest;
  }

  lemma {:induction false} DecodeStops(s: seq<Byte>, budget: nat) returns (ops: seq<NativeOperation>, rest: seq<Byte>)
    ensures Stopped(s, budget, ops, rest)
    decreases |s|
  {
    hide DecoderOperandCount, FirstOperation, Stopped;
    if s == [] || budget == 0 || s[0] >= OPERATION_COUNT || 1 + DecoderOperandCount(s[0]) >= |s| {
      StoppedHere(s, budget);
      ops, rest := [], s;
    } else {
      ops, rest := DecodeStops(s[DecoderOperandCount(s[0]) + 2..], budget - 1);
      StoppedLater(s, budget, ops, rest);
      ops := [FirstOperation(s)] + ops;
    }
  }

  // The decoder reads canonical operations as long as there are any, at most 96, and says what is
  // wrong with the rest.
  lemma DecoderStopsAtFirstFault(payload: seq<Byte>) returns (ops: seq<NativeOperation>, rest: seq<Byte>)
    ensures DecodeProgramSpec(payload, false) == Err(HarnessHashDrift)
    ensures payload == [] ==> DecodeProgramSpec(payload, true) == Err(EmptyPayload)
    ensures |payload| > 2048 ==> DecodeProgramSpec(payload, true) == Err(TooManyBytes)
    ensures 1 <= |payload| <= 2048 && payload[0] >= 8 ==> DecodeProgramSpec(payload, true) == Err(RingNotCanonical)
    ensures 1 <= |payload| <= 2048 && payload[0] < 8 ==>
              && |ops| <= 96 && EncodeOperations(ops).Ok? && payload == [payload[0]] + EncodeOperations(ops).value + rest
              && var decoded := DecodeProgramSpec(payload, true);
                 if rest == [] then decoded == Ok(NativeProgram(payload[0], ops))
                 else decoded.Err? && StopsAt(rest, |ops| < 96, decoded.error)
  {
    ops, rest := [], [];
    if payload != [] {
      ops, rest := DecodeStops(payload[1..], MAX_OPERATIONS);
      assert payload == [payload[0]] + payload[1..];
    }
    hide DecodeOperations, EncodeOperations, StopsAt;
  }
}
