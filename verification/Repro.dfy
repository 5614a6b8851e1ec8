// Crash triage: the lenient parse of arbitrary fuzzer bytes.
module Repro {
  import opened Bits
  import opened HarnessCodec

  datatype DecodedOp = DecodedOp(
    index: nat, selector: nat, operands: seq<(OperandName, Byte)>, control: Byte, bufferGroup: nat, flagNibble: nat)
  datatype DecodedInput = DecodedInput(ring: nat, ops: seq<DecodedOp>, totalBytes: nat, consumedBytes: nat)

  function NameOperands(names: seq<OperandName>, values: seq<Byte>): seq<(OperandName, Byte)>
    requires |names| == |values|
  {
    seq(|names|, i requires 0 <= i < |names| => (names[i], values[i]))
  }

  // The complete operations at the front of s; a final incomplete operation is dropped.
  function LenientOperations(s: seq<Byte>, index: nat): seq<DecodedOp>
    decreases |s|
  {
    if s == [] then []
    else
      var selector := s[0] % OPERATION_COUNT;
      var k := |EncoderOperandNames(selector)|;
      if |s| < k + 2 then []
      else
        var control := s[k + 1];
        [DecodedOp(index, selector, NameOperands(EncoderOperandNames(selector), s[1..k + 1]), control,
                   ShiftRight(control, 4), control % 16)]
        + LenientOperations(s[k + 2..], index + 1)
  }

  function Body(payload: seq<Byte>): seq<Byte> {
    if payload == [] then [] else payload[1..]
  }

  // Where the operation at the cursor ends, if it is complete.
  function OperationEnd(payload: seq<Byte>, cursor: nat): nat
    requires cursor < |payload|
  {
    cursor + |EncoderOperandNames(payload[cursor] % OPERATION_COUNT)| + 2
  }

  lemma LenientStep(payload: seq<Byte>, cursor: nat, index: nat)
    requires cursor < |payload|
    ensures
      var end := OperationEnd(payload, cursor);
      LenientOperations(payload[cursor..], index) ==
      if end > |payload| then []
      else [OperationAt(payload, cursor, index)] + LenientOperations(payload[end..], index + 1)
  {
    hide EncoderOperandNames;
    var s, end := payload[cursor..], OperationEnd(payload, cursor);
    if end <= |payload| {
      assert s[1..end - cursor - 1] == payload[cursor + 1..end - 1];
      assert s[end - cursor..] == payload[end..];
    }
  }

  lemma LenientEnd(payload: seq<Byte>, index: nat)
    ensures LenientOperations(payload[|payload|..], index) == []
  {
  }

  function OperationAt(payload: seq<Byte>, cursor: nat, index: nat): DecodedOp
    requires cursor < |payload| && OperationEnd(payload, cursor) <= |payload|
  {
    var selector, end := payload[cursor] % OPERATION_COUNT, OperationEnd(payload, cursor);
    var control := payload[end - 1];
    DecodedOp(index, selector, NameOperands(EncoderOperandNames(selector), payload[cursor + 1..end - 1]),
              control, ShiftRight(control, 4), control % 16)
  }

  method NamedOperands(payload: seq<Byte>, start: nat, names: seq<OperandName>)
    returns (operands: seq<(OperandName, Byte)>, cursor: nat, truncated: bool)
    requires start <= |payload|
    ensures truncated <==> start + |names| > |payload|
    ensures truncated ==> cursor == |payload|
    ensures !truncated ==> cursor == start + |names| && operands == NameOperands(names, payload[start..cursor])
  {
    operands, cursor, truncated := [], start, false;
    var next := 0;
    while next < |names|
      invariant next == |operands| <= |names|
      invariant cursor == start + next <= |payload|
      invariant operands == NameOperands(names[..next], payload[start..cursor])
    {
      if cursor >= |payload| {
        truncated := true;
        break;
      }
      operands := operands + [(names[next], payload[cursor])];
      cursor := cursor + 1;
      next := next + 1;
    }
    assert names[..|names|] == names;
  }

  // Every byte is consumed, whatever the input: nothing trails the last operation.
  method DecodeExecuted(payload: seq<Byte>) returns (decoded: DecodedInput)
    ensures decoded.ring == if payload == [] then 0 else payload[0] % RING_COUNT
    ensures decoded.ops == LenientOperations(Body(payload), 0)
    ensures decoded.totalBytes == decoded.consumedBytes == |payload|
  {
    hide EncoderOperandNames, ShiftRight, LenientOperations;
    if payload == [] {
      assert payload == payload[|payload|..];
      LenientEnd(payload, 0);
      return DecodedInput(0, [], 0, 0);
    }
    var ring := payload[0] % RING_COUNT;
    var ops: seq<DecodedOp> := [];
    var cursor, n := 1, |payload|;
    assert [] + LenientOperations(payload[1..], 0) == LenientOperations(payload[1..], 0);
    while cursor < n
      invariant 1 <= cursor <= n
      invariant LenientOperations(payload[1..], 0) == ops + LenientOperations(payload[cursor..], |ops|)
    {
      LenientStep(payload, cursor, |ops|);
      ghost var start := cursor;
      var selector := payload[cursor] % OPERATION_COUNT;
      var operands, truncated;
      operands, cursor, truncated := NamedOperands(payload, cursor + 1, EncoderOperandNames(selector));
      if truncated || cursor >= n {
        assert ops + [] == ops;
        LenientEnd(payload, |ops|);
        break;
      }
      var control := payload[cursor];
      cursor := cursor + 1;
      var op := DecodedOp(|ops|, selector, operands, control, ShiftRight(control, 4), control % 16);
      assert op == OperationAt(payload, start, |ops|);
      ghost var rest := LenientOperations(payload[cursor..], |ops| + 1);
      assert LenientOperations(payload[start..], |ops|) == [op] + rest;
      assert ops + ([op] + rest) == (ops + [op]) + rest;
      ops := ops + [op];
    }
    LenientEnd(payload, |ops|);
    assert ops + [] == ops;
    return DecodedInput(ring, ops, n, cursor);
  }
}
