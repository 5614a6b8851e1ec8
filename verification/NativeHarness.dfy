// The persistent decode-and-submit loop of the guest harness, which gives bytes their meaning.
module NativeHarness {
  import opened Bits
  import opened HarnessCodec
  import opened Repro

  const RING_ENTRIES := 64

  // All six submission flags.
  const SQE_FLAG_MASK := 63

  const POLL_UPDATE := 39
  const PROVIDE_BUFFERS := 18
  const REMOVE_BUFFERS := 19

  // A prepared submission entry. Operands are the raw bytes in read order.
  datatype Sqe = Sqe(ring: nat, selector: nat, operands: seq<nat>, flags: nat, bufGroup: nat, userData: nat)

  function PrepareSqe(ring: nat, op: nat, operands: seq<nat>, control: nat): Sqe {
    Sqe(ring, op % OPERATION_COUNT, operands, BitAnd(control, SQE_FLAG_MASK), ShiftRight(control, 4), op)
  }

  // Exhausted reads leave a variable unchanged, so missing operands are zero. A missing
  // control byte is zero too, except that poll_update shares its first-read operand's variable.
  function ReadOperands(s: seq<Byte>, count: nat): seq<nat> {
    seq(count, i requires 0 <= i < count => if 1 + i < |s| then s[1 + i] else 0)
  }

  function ReadControl(s: seq<Byte>, selector: nat, count: nat): nat
    requires selector == POLL_UPDATE ==> count > 0
  {
    if 1 + count < |s| then s[1 + count]
    else if selector == POLL_UPDATE then ReadOperands(s, count)[0]
    else 0
  }

  function AfterOperation(s: seq<Byte>): seq<Byte>
    requires s != []
  {
    var k := DecoderOperandCount(s[0] % OPERATION_COUNT);
    if k + 2 <= |s| then s[k + 2..] else []
  }

  function FirstSqe(ring: nat, s: seq<Byte>): Sqe
    requires s != []
  {
    var selector := s[0] % OPERATION_COUNT;
    var k := DecoderOperandCount(selector);
    PrepareSqe(ring, s[0], ReadOperands(s, k), ReadControl(s, selector, k))
  }

  // The entries dispatched for the bytes in s after nops operations.
  function HarnessSqes(ring: nat, s: seq<Byte>, nops: nat): seq<Sqe>
    decreases |s|
  {
    if s == [] || nops >= MAX_OPERATIONS then []
    else [FirstSqe(ring, s)] + HarnessSqes(ring, AfterOperation(s), nops + 1)
  }

  lemma HarnessStep(ring: nat, s: seq<Byte>, nops: nat)
    ensures HarnessSqes(ring, s, nops) ==
            if s == [] || nops >= MAX_OPERATIONS then []
            else [FirstSqe(ring, s)] + HarnessSqes(ring, AfterOperation(s), nops + 1)
  {
  }

  function CapInput(input: seq<Byte>): seq<Byte> {
    if |input| > MAX_INPUT_BYTES then input[..MAX_INPUT_BYTES] else input
  }

  function RingOf(payload: seq<Byte>): nat {
    if payload == [] then 0 else payload[0] % RING_COUNT
  }

  // One submission whenever the ring is full, and a last one with what is left.
  function Batches(sqes: seq<Sqe>): seq<seq<Sqe>> {
    if |sqes| < RING_ENTRIES then [sqes]
    else [sqes[..RING_ENTRIES]] + Batches(sqes[RING_ENTRIES..])
  }

  lemma LastBatch(sqes: seq<Sqe>)
    requires |sqes| < RING_ENTRIES
    ensures Batches(sqes) == [sqes]
  {
  }

  lemma FullBatch(batch: seq<Sqe>, rest: seq<Sqe>)
    requires |batch| == RING_ENTRIES
    ensures Batches(batch + rest) == [batch] + Batches(rest)
  {
    assert (batch + rest)[..RING_ENTRIES] == batch && (batch + rest)[RING_ENTRIES..] == rest;
  }

  function Flattened(batches: seq<seq<Sqe>>): seq<Sqe> {
    if batches == [] then [] else batches[0] + Flattened(batches[1..])
  }

  // Every batch but the last has exactly 64 entries and the last fewer, and together they are the
  // stream in order.
  lemma {:induction false} BatchesExactly(sqes: seq<Sqe>)
    ensures |Batches(sqes)| == |sqes| / 64 + 1
    ensures forall i :: 0 <= i < |sqes| / 64 ==> |Batches(sqes)[i]| == 64
    ensures |Batches(sqes)[|sqes| / 64]| == |sqes| % 64
    ensures Flattened(Batches(sqes)) == sqes
  {
    if |sqes| < RING_ENTRIES {
      assert [sqes][1..] == [] && sqes + [] == sqes;
    } else {
      var first, rest := sqes[..RING_ENTRIES], sqes[RING_ENTRIES..];
      BatchesExactly(rest);
      assert ([first] + Batches(rest))[1..] == Batches(rest);
      assert sqes == first + rest;
    }
  }

  // The stream one input makes the harness dispatch, in order.
  function DispatchedSqes(input: seq<Byte>): seq<Sqe> {
    var payload := CapInput(input);
    HarnessSqes(RingOf(payload), Body(payload), 0)
  }

  class Harness {
    var payload: seq<Byte>
    var position: nat
    var queue: seq<Sqe>
    var submitted: seq<seq<Sqe>>

    // Reads one byte, or leaves the variable at its present value at the end of the input.
    method Rd8(present: nat) returns (ok: bool, value: nat)
      modifies `position
      ensures ok == (old(position) < |payload|)
      ensures ok ==> value == payload[old(position)] && position == old(position) + 1
      ensures !ok ==> value == present && position == old(position)
    {
      if position >= |payload| { return false, present; }
      ok, value := true, payload[position];
      position := position + 1;
    }

    method Submit()
      modifies `queue, `submitted
      ensures queue == [] && submitted == old(submitted) + [old(queue)]
    {
      submitted := submitted + [queue];
      queue := [];
    }

    // The switch over the operation: its operands, then the control byte. The ghost start is
    // where the operation's selector was read.
    method PrepareOperation(ring: nat, op: nat, ghost start: nat) returns (sqe: Sqe)
      requires start < position == start + 1 <= |payload| && op == payload[start]
      modifies `position
      ensures position <= |payload| && start < position
      ensures sqe == FirstSqe(ring, payload[start..])
      ensures payload[position..] == AfterOperation(payload[start..])
    {
      assert op % OPERATION_COUNT == POLL_UPDATE ==> DecoderOperandCount(op % OPERATION_COUNT) == 3;
      hide DecoderOperandCount;
      ghost var rest := payload[start..];
      var selector := op % OPERATION_COUNT;
      var count := DecoderOperandCount(selector);
      var c: nat, ok := 0, true;
      var operands: seq<nat> := [];
      while |operands| < count
        invariant |operands| <= count
        invariant position == if start + 1 + |operands| <= |payload| then start + 1 + |operands| else |payload|
        invariant operands == ReadOperands(rest, |operands|)
        modifies `position
      {
        var operand;
        ok, operand := Rd8(0);
        operands := operands + [operand];
      }
      var bufGroup := 0;
      if selector == POLL_UPDATE {
        c := operands[0];
      } else if selector == PROVIDE_BUFFERS || selector == REMOVE_BUFFERS {
        bufGroup := if operands != [] then operands[0] else 0;
      }
      ok, c := Rd8(c);
      bufGroup := ShiftRight(c, 4);  // whatever group the operation prepared is replaced
      sqe := Sqe(ring, selector, operands, BitAnd(c, SQE_FLAG_MASK), bufGroup, op);
    }

    // Queues an entry and submits a full ring. The ghost tail is what is still to come.
    method Enqueue(sqe: Sqe, ghost tail: seq<Sqe>)
      requires |queue| < RING_ENTRIES
      modifies `queue, `submitted
      ensures |queue| < RING_ENTRIES
      ensures submitted + Batches(queue + tail) == old(submitted) + Batches(old(queue) + ([sqe] + tail))
    {
      assert queue + ([sqe] + tail) == (queue + [sqe]) + tail;
      queue := queue + [sqe];
      if |queue| >= RING_ENTRIES {
        FullBatch(queue, tail);
        assert [] + tail == tail;
        Submit();
      }
    }

    // One fuzz iteration, from a fresh payload to the final submission.
    method RunIteration(input: seq<Byte>)
      modifies this
      ensures submitted == Batches(DispatchedSqes(input))
    {
      hide DecoderOperandCount, HarnessSqes, Batches, FirstSqe, AfterOperation;
      payload := CapInput(input);
      position, queue, submitted := 0, [], [];
      var ok, ringByte := Rd8(0);
      var ring := ringByte % RING_COUNT;
      var op: nat, nops: nat := 0, 0;
      ghost var all := DispatchedSqes(input);
      assert [] + all == all;
      assert payload[position..] == Body(payload);
      while true
        invariant payload == CapInput(input) && position <= |payload| && nops <= MAX_OPERATIONS
        invariant |queue| < RING_ENTRIES
        invariant Batches(all) == submitted + Batches(queue + HarnessSqes(ring, payload[position..], nops))
        decreases |payload| - position
      {
        ghost var rest, start := payload[position..], position;
        HarnessStep(ring, rest, nops);
        ok, op := Rd8(op);
        if !ok {
          assert queue + HarnessSqes(ring, rest, nops) == queue;
          break;
        }
        nops := nops + 1;
        if nops > MAX_OPERATIONS {
          assert queue + HarnessSqes(ring, rest, nops - 1) == queue;
          break;
        }
        var sqe := PrepareOperation(ring, op, start);
        Enqueue(sqe, HarnessSqes(ring, payload[position..], nops));
      }
      LastBatch(queue);
      Submit();
    }
  }
}
