/** The functions of circ_queue.c run without interruption, on an array of cells updated in place. */
module CircQueue {
  import opened Arith
  import opened QueueFifo
  import opened QueueModel
  import opened QueueWrap

  class Queue {
    var writeIndex: nat
    var readIndex: nat
    var vals: array<Msg>
    ghost var pushed: seq<Msg>
    ghost var popped: seq<Msg>

    ghost predicate Valid()
      reads this
    {
      vals.Length > 0 && writeIndex < TWO32 && readIndex < TWO32
    }

    /** The queue as a state of the step system with one consumer, between two calls. */
    ghost function View(): State
      reads this, vals
    {
      State(writeIndex, readIndex, vals[..], Resting, [Idle], pushed, popped)
    }

    constructor (len: nat)
      requires len > 0
      ensures Valid() && fresh(vals) && View() == Init(len, 1)
    {
      writeIndex, readIndex := 0, 0;
      vals := new Msg[len](_ => Msg(0, 0));
      pushed, popped := [], [];
      new;
      assert vals[..] == Init(len, 1).cells;
    }

    /** push_circ_queue: 1 when full, else 0. */
    method Push(val1: nat, val2: nat) returns (rc: int)
      requires Valid()
      modifies this`writeIndex, this`pushed, vals
      ensures Valid()
      ensures (View(), if rc == 0 then PushOk else PushFull) == PushCall(old(View()), Msg(val1, val2))
      ensures rc == 0 || rc == 1
      ensures rc == 0 <==> pushed == old(pushed) + [Msg(val1, val2)]
      ensures rc == 1 <==> View() == old(View())
      ensures RingInv(old(View())) && InRange(old(|pushed|) + 1, vals.Length) ==>
                RingInv(View()) && (rc == 0 <==> old(|pushed| - |popped|) < vals.Length - 1)
    {
      ghost var was := View();
      if RingInv(was) && InRange(|pushed| + 1, vals.Length) { PushOutcome(was, Msg(val1, val2)); }
      var currWriteIndex := writeIndex;
      var currReadIndex := readIndex;
      if (currWriteIndex + 1) % TWO32 % vals.Length == currReadIndex % vals.Length {
        return 1;
      }
      var i := currWriteIndex % vals.Length;
      vals[i] := vals[i].(kind := val1);
      vals[i] := vals[i].(arg := val2);
      assert vals[..] == old(vals[..])[i := Msg(val1, val2)];
      writeIndex := (writeIndex + 1) % TWO32;
      pushed := pushed + [Msg(val1, val2)];
      rc := 0;
    }

    /** atomic_cmpxchg on readIndex. */
    method SwapReadIndex(expected: nat, desired: nat) returns (previous: nat)
      modifies this`readIndex
      ensures previous == old(readIndex)
      ensures readIndex == if old(readIndex) == expected then desired else old(readIndex)
    {
      previous := readIndex;
      if previous == expected { readIndex := desired; }
    }

    /** pop_circ_queue: 1 when empty, else 0 and the two words. */
    method Pop() returns (rc: int, val1: nat, val2: nat)
      requires Valid()
      modifies this`readIndex, this`popped
      ensures Valid()
      ensures (View(), if rc == 0 then PopOk else PopEmpty) == PopCall(old(View()))
      ensures rc == 0 <==> popped == old(popped) + [Msg(val1, val2)]
      ensures rc == 1 <==> View() == old(View())
      ensures rc == 0 || rc == 1
      ensures RingInv(old(View())) && InRange(old(|pushed|), vals.Length) ==>
                && RingInv(View()) && (rc == 0 <==> old(|pushed| - |popped|) > 0)
                && (rc == 0 ==> Msg(val1, val2) == pushed[old(|popped|)])
    {
      ghost var was := View();
      if RingInv(was) && InRange(|pushed|, vals.Length) { PopOutcome(was); }
      val1, val2 := 0, 0;
      var taken := false;
      while !taken
        invariant Valid()
        invariant !taken ==> readIndex == old(readIndex) && popped == old(popped)
        invariant taken ==>
            View() == PopCall(old(View())).0 && PopCall(old(View())).1 == PopOk
            && popped == old(popped) + [Msg(val1, val2)]
        decreases !taken
      {
        var currReadIndex := readIndex;
        var currMaxReadIndex := writeIndex;
        if currReadIndex % vals.Length == currMaxReadIndex % vals.Length {
          return 1, val1, val2;
        }
        val1 := vals[currReadIndex % vals.Length].kind;
        val2 := vals[currReadIndex % vals.Length].arg;
        var previous := SwapReadIndex(currReadIndex, (currReadIndex + 1) % TWO32);
        taken := previous == currReadIndex;
        popped := popped + [Msg(val1, val2)];
      }
      rc := 0;
    }

    /** circ_queue_empty. */
    method Empty() returns (rc: int)
      requires Valid()
      ensures rc == 1 <==> PopCall(View()).1 == PopEmpty
      ensures rc == 0 || rc == 1
      ensures RingInv(View()) && InRange(|pushed|, vals.Length) ==> (rc == 1 <==> |pushed| - |popped| == 0)
    {
      if RingInv(View()) && InRange(|pushed|, vals.Length) { PopOutcome(View()); }
      rc := if readIndex % vals.Length == writeIndex % vals.Length then 1 else 0;
    }

    /** circ_queue_full. */
    method Full() returns (rc: int)
      requires Valid()
      ensures rc == 1 <==> PushCall(View(), Msg(0, 0)).1 == PushFull
      ensures rc == 0 || rc == 1
      ensures RingInv(View()) && InRange(|pushed| + 1, vals.Length) ==>
                (rc == 1 <==> |pushed| - |popped| == vals.Length - 1)
    {
      if RingInv(View()) && InRange(|pushed| + 1, vals.Length) { PushOutcome(View(), Msg(0, 0)); }
      rc := if (writeIndex + 1) % TWO32 % vals.Length == readIndex % vals.Length then 1 else 0;
    }
  }
}
