/** Wrapping 32-bit sequence numbers; zero means unset and is skipped. */
module Sequence {
  import opened Words

  const WORDS := 0x1_0000_0000

  /** The values in use. */
  const CYCLE := 0xFFFF_FFFF

  function Next(value: u32): u32 {
    var next := (value + 1) % WORDS;
    if next == 0 then 1 else next
  }

  predicate IsAfter(value: u32, baseline: u32) {
    var distance := (value - baseline) % WORDS;
    distance != 0 && distance < 0x8000_0000
  }

  function Successor(value: u32, count: nat): u32
    decreases count
  {
    if count == 0 then value else Successor(Next(value), count - 1)
  }

  lemma NextSkipsZero(value: u32)
    ensures Next(value) != 0
    ensures value != 0 ==> Next(value) == 1 + value % CYCLE
  {
  }

  lemma CyclicStep(value: u32, count: nat)
    requires value != 0 && count > 0
    ensures (Next(value) - 1 + (count - 1)) % CYCLE == (value - 1 + count) % CYCLE
  {
    if value == CYCLE {
      AddCycle(count - 1);
    }
  }

  /** From any value in use, successors walk round the cycle of nonzero words. */
  lemma {:induction false} SuccessorIsCyclic(value: u32, count: nat)
    requires value != 0
    ensures Successor(value, count) == 1 + (value - 1 + count) % CYCLE
    decreases count
  {
    if count == 0 {
    } else {
      NextSkipsZero(value);
      SuccessorIsCyclic(Next(value), count - 1);
      CyclicStep(value, count);
    }
  }

  lemma AddCycle(count: nat)
    ensures (count + CYCLE) % CYCLE == count % CYCLE
  {
    var quotient := count / CYCLE;
    assert count == quotient * CYCLE + count % CYCLE;
    assert count + CYCLE == (quotient + 1) * CYCLE + count % CYCLE;
  }

  /** One step past the end of the count is one more step. */
  lemma {:induction false} SuccessorOfLast(value: u32, count: nat)
    ensures Successor(value, count + 1) == Next(Successor(value, count))
    decreases count
  {
    if count > 0 {
      SuccessorOfLast(Next(value), count - 1);
    }
  }

  lemma {:induction false} SuccessorAdds(value: u32, first: nat, second: nat)
    ensures Successor(value, first + second) == Successor(Successor(value, first), second)
    decreases first
  {
    if first > 0 {
      SuccessorAdds(Next(value), first - 1, second);
    }
  }

  /** Within one round, a later value compares as later exactly while it is less than
      half the word space ahead; crossing zero costs one. */
  lemma SuccessorIsAfter(value: u32, count: nat)
    requires value != 0 && count < CYCLE
    ensures IsAfter(Successor(value, count), value)
            <==> 0 < count && (if value + count <= CYCLE then count else count + 1) < 0x8000_0000
  {
    SuccessorIsCyclic(value, count);
    var later := Successor(value, count);
    if value + count <= CYCLE {
      assert later == value + count;
    } else {
      assert later == value + count - CYCLE;
      assert (later - value) % WORDS == count + 1;
    }
  }

  /** So every successor in reach is after its origin, across the wrap too. */
  lemma ReachableIsAfter(value: u32, count: nat)
    requires value != 0 && 1 <= count <= 0x7FFF_FFFE
    ensures IsAfter(Successor(value, count), value)
  {
    SuccessorIsAfter(value, count);
  }

  /** Of two different values exactly one is after the other, unless they are exactly
      half the word space apart, and then neither is. */
  lemma OrderIsAntisymmetric(a: u32, b: u32)
    ensures !(IsAfter(a, b) && IsAfter(b, a))
    ensures IsAfter(a, b) || IsAfter(b, a) <==> a != b && a - b != 0x8000_0000 && b - a != 0x8000_0000
  {
    if a > b {
      assert (a - b) % WORDS == a - b && (b - a) % WORDS == WORDS - (a - b);
    } else if a < b {
      assert (b - a) % WORDS == b - a && (a - b) % WORDS == WORDS - (b - a);
    }
  }

  /** A number comes round again only after a whole cycle. */
  lemma SuccessorsAreDistinct(value: u32, first: nat, second: nat)
    requires value != 0 && first < second < first + CYCLE
    ensures Successor(value, first) != Successor(value, second)
  {
    SuccessorIsCyclic(value, first);
    SuccessorIsCyclic(value, second);
    DistinctWithinCycle(value - 1 + first, value - 1 + second);
  }

  lemma DistinctWithinCycle(a: nat, b: nat)
    requires a < b < a + CYCLE
    ensures a % CYCLE != b % CYCLE
  {
    var quotients := b / CYCLE - a / CYCLE;
    assert b - a == quotients * CYCLE + (b % CYCLE - a % CYCLE);
  }
}
