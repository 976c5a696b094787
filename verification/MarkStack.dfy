/**
  The collector's mark stack (module/msgc/msgc.c:519-572): a buffer with a masked
  index that is meant for a ring but, with `cur` fixed at 0, is a stack that
  doubles when it is full and is handed from one collection to the next.
 */
module MarkStacks {
  import opened Options
  import opened ObjectHeap
  import opened Powers

  /** The bitwise `&` of two natural numbers. */
  function BitAnd(x: nat, y: nat): nat {
    if x == 0 || y == 0 then 0
    else 2 * BitAnd(x / 2, y / 2) + (if x % 2 == 1 && y % 2 == 1 then 1 else 0)
  }

  /** Masking with 2^k - 1 keeps what is below 2^k. */
  lemma {:induction false} MaskKeeps(x: nat, k: nat)
    requires x < Pow2(k)
    ensures BitAnd(x, Pow2(k) - 1) == x
  {
    if k > 0 {
      MaskKeeps(x / 2, k - 1);
    }
  }

  lemma {:induction false} MaskWraps(k: nat)
    ensures BitAnd(Pow2(k), Pow2(k) - 1) == 0
  {
    if k > 0 {
      MaskWraps(k - 1);
    }
  }

  /** knh_ostack_t */
  class OStack {
    var stack: array<Addr>
    var cur: nat
    var tail: nat
    var capacity: nat
    var capacityLog2: nat

    /** All that was ever pushed, in order. */
    ghost var pushed: seq<Addr>

    ghost predicate Valid()
      reads this
    {
      && cur == 0
      && capacity == Pow2(capacityLog2) - 1
      && stack.Length == capacity + 1
      && tail <= capacity
    }

    /** The entries, oldest first. */
    ghost function Contents(): seq<Addr>
      reads this, stack
      requires Valid()
    {
      stack[..tail]
    }

    /** ostack_init: continues with the buffer of the last collection, if there is one. */
    constructor (queue: array<Addr>, queueCapacity: nat, queueLog2: nat)
      requires queueCapacity > 0 ==> queueCapacity == Pow2(queueLog2) - 1 && queue.Length == queueCapacity + 1
      ensures Valid() && Contents() == [] && pushed == []
      ensures if queueCapacity > 0 then stack == queue && capacity == queueCapacity
              else fresh(stack) && capacity == 4095
    {
      capacity, stack, capacityLog2 := queueCapacity, queue, queueLog2;
      if queueCapacity == 0 {
        capacityLog2 := 12;
        capacity := 4095;
        stack := new Addr[4096];
      }
      cur, tail := 0, 0;
      pushed := [];
      new;
      assert Pow2(4) == 16 && Pow2(8) == 256 && Pow2(12) == 4096;
    }

    /** The index after `x - 1` in the ring: it wraps only at the end of the buffer. */
    method Masked(x: nat) returns (i: nat)
      requires capacity == Pow2(capacityLog2) - 1 && x <= capacity + 1
      ensures i == if x <= capacity then x else 0
    {
      if x <= capacity {
        MaskKeeps(x, capacityLog2);
      } else {
        MaskWraps(capacityLog2);
      }
      i := BitAnd(x, capacity);
    }

    /** ostack_push */
    method Push(ref: Addr)
      requires Valid()
      modifies this, stack
      ensures Valid() && Contents() == old(Contents()) + [ref] && pushed == old(pushed) + [ref]
      ensures stack == old(stack) || fresh(stack)
      ensures capacity == if old(tail) < old(capacity) then old(capacity) else 2 * old(capacity) + 1
    {
      var ntail := Masked(tail + 1);
      if ntail == cur {
        assert tail == capacity;
        var size := Pow2(capacityLog2);
        var bigger := new Addr[2 * size];
        forall i | 0 <= i < size {
          bigger[i] := stack[i];
        }
        stack := bigger;
        capacityLog2 := capacityLog2 + 1;
        capacity := Pow2(capacityLog2) - 1;
        ntail := Masked(tail + 1);
      }
      stack[tail] := ref;
      tail := ntail;
      pushed := pushed + [ref];
    }

    /** ostack_next: None is its NULL. */
    method Next() returns (ref: Option<Addr>)
      requires Valid()
      modifies this`tail
      ensures Valid()
      ensures old(Contents()) == [] ==> ref == None && Contents() == []
      ensures old(Contents()) != [] ==> ref.Some? && old(Contents()) == Contents() + [ref.value]
    {
      ref := None;
      if cur != tail {
        tail := tail - 1;
        ref := Some(stack[tail]);
      }
    }
  }
}
