/** Ranges of the client's memory, and what it means to have patched them. */
module PatchPlan {
  import opened Words
  import opened Wrappers
  import opened CodeEmission

  datatype Range = Range(address: int, length: nat) {
    predicate Has(a: int) {
      address <= a < address + length
    }

    predicate Apart(other: Range) {
      address + length <= other.address || other.address + other.length <= address
    }
  }

  /** Bytes that belong at an address. */
  datatype Patch = Patch(address: int, bytes: seq<byte>) {
    function Extent(): Range {
      Range(address, |bytes|)
    }
  }

  function Ranges(patches: seq<Patch>): seq<Range> {
    seq(|patches|, i requires 0 <= i < |patches| => patches[i].Extent())
  }

  /** `a` lies in one of the ranges from `low` up to `high`. */
  ghost predicate Among(ranges: seq<Range>, low: nat, high: nat, a: int)
    requires high <= |ranges|
  {
    exists i :: low <= i < high && ranges[i].Has(a)
  }

  ghost predicate Inside(ranges: seq<Range>, a: int) {
    Among(ranges, 0, |ranges|, a)
  }

  ghost predicate Disjoint(ranges: seq<Range>) {
    forall i, j :: 0 <= i < j < |ranges| ==> ranges[i].Apart(ranges[j])
  }

  ghost predicate AllApart(left: seq<Range>, right: seq<Range>) {
    forall i, j :: 0 <= i < |left| && 0 <= j < |right| ==> left[i].Apart(right[j])
  }

  ghost predicate Present(m: Memory, patches: seq<Patch>) {
    forall i :: 0 <= i < |patches| ==> Holds(m, patches[i].address, patches[i].bytes)
  }

  /** Of the addresses in `committed`, only those in the ranges may differ. */
  ghost predicate SameOutside(committed: set<int>, before: Memory, after: Memory, ranges: seq<Range>) {
    forall a :: a in committed && !Inside(ranges, a) ==> after(a) == before(a)
  }

  ghost predicate Within(range: Range, committed: set<int>) {
    forall a :: range.Has(a) ==> a in committed
  }

  ghost predicate AllWithin(ranges: seq<Range>, committed: set<int>) {
    forall i :: 0 <= i < |ranges| ==> Within(ranges[i], committed)
  }

  lemma InsideEither(left: seq<Range>, right: seq<Range>, a: int)
    ensures Inside(left + right, a) <==> Inside(left, a) || Inside(right, a)
  {
    var both := left + right;
    if Inside(left, a) {
      var i :| 0 <= i < |left| && left[i].Has(a);
      assert both[i].Has(a);
    }
    if Inside(right, a) {
      var i :| 0 <= i < |right| && right[i].Has(a);
      assert both[|left| + i].Has(a);
    }
  }

  lemma DisjointParts(left: seq<Range>, right: seq<Range>)
    requires Disjoint(left + right)
    ensures Disjoint(left) && Disjoint(right) && AllApart(left, right) && AllApart(right, left)
  {
    var both := left + right;
    assert forall i :: 0 <= i < |left| ==> left[i] == both[i];
    assert forall i :: 0 <= i < |right| ==> right[i] == both[|left| + i];
  }

  lemma LargerStillWithin(ranges: seq<Range>, smaller: set<int>, larger: set<int>)
    requires AllWithin(ranges, smaller) && smaller <= larger
    ensures AllWithin(ranges, larger)
  {
    forall i, a | 0 <= i < |ranges| && ranges[i].Has(a)
      ensures a in larger
    {
      assert a in smaller;
    }
  }

  /** A change in one set of ranges and then in another. */
  lemma SameOutsideBoth(committed: set<int>, first: Memory, second: Memory, third: Memory, left: seq<Range>, right: seq<Range>)
    requires SameOutside(committed, first, second, left) && SameOutside(committed, second, third, right)
    ensures SameOutside(committed, first, third, left + right)
  {
    forall a | a in committed && !Inside(left + right, a)
      ensures third(a) == first(a)
    {
      InsideEither(left, right, a);
    }
  }

  /** Bytes in place survive changes in ranges apart from them. */
  lemma PresentSurvives(committed: set<int>, before: Memory, after: Memory, patches: seq<Patch>, ranges: seq<Range>)
    requires Present(before, patches) && SameOutside(committed, before, after, ranges)
    requires AllWithin(Ranges(patches), committed) && AllApart(Ranges(patches), ranges)
    ensures Present(after, patches)
  {
    forall i, k | 0 <= i < |patches| && 0 <= k < |patches[i].bytes|
      ensures after(patches[i].address + k) == patches[i].bytes[k]
    {
      var a := patches[i].address + k;
      assert Ranges(patches)[i].Has(a);
      forall j | 0 <= j < |ranges|
        ensures !ranges[j].Has(a)
      {
        assert Ranges(patches)[i].Apart(ranges[j]);
      }
    }
  }
}

/** The suspended client's memory as the loader reaches it: any operation may fail, and
    a write may leave anything in its range, whatever it reports. Of a reliable target
    no operation on committed memory fails; allocations may still be refused. */
module LaunchTarget {
  import opened Words
  import opened Wrappers
  import opened CodeEmission
  import opened PatchPlan

  type Outcome = Result<(), ErrorKind>

  function Addresses(range: Range): (r: set<int>)
    ensures forall a :: a in r <==> range.Has(a)
  {
    set a | range.address <= a < range.address + range.length && range.Has(a)
  }

  function Overlay(m: Memory, address: int, bytes: seq<byte>): Memory {
    a => if address <= a < address + |bytes| then bytes[a - address] else m(a)
  }

  class Target {
    var memory: Memory
    var committed: set<int>
    const reliable: bool

    /** The end of the addresses that the system hands out. */
    const ceiling: nat

    /** Whether an allocation has been refused. */
    ghost var refused: bool

    constructor (initial: Memory, mapped: set<int>, working: bool, end: nat)
      ensures memory == initial && committed == mapped && reliable == working && ceiling == end && !refused
    {
      memory, committed, reliable, ceiling, refused := initial, mapped, working, end, false;
    }

    method Attempt() returns (r: Outcome)
      ensures reliable ==> r.Ok?
    {
      var works: bool := *;
      r := if works || reliable then Ok(()) else Err(RemoteOperationFailed);
    }

    method ReadMemory(address: int, size: nat) returns (r: Result<seq<byte>, ErrorKind>)
      ensures size == 0 ==> r == Err(Internal)
      ensures r.Ok? ==> |r.value| == size && Holds(memory, address, r.value) && Within(Range(address, size), committed)
      ensures reliable && size > 0 && Within(Range(address, size), committed) ==> r.Ok?
    {
      if size == 0 {
        return Err(Internal);
      }
      var attempt := Attempt();
      if attempt.Err? || exists a :: address <= a < address + size && a !in committed {
        return Err(RemoteOperationFailed);
      }
      var m := memory;
      return Ok(seq(size, i => m(address + i)));
    }

    method WriteMemory(address: int, bytes: seq<byte>) returns (r: Outcome)
      modifies this`memory
      ensures bytes == [] ==> r == Err(Internal)
      ensures forall a :: !(address <= a < address + |bytes|) ==> memory(a) == old(memory)(a)
      ensures reliable && bytes != [] ==> r.Ok? && Holds(memory, address, bytes)
    {
      if bytes == [] {
        return Err(Internal);
      }
      var landed: seq<byte> := *;
      if |landed| <= |bytes| && !reliable {
        memory := Overlay(memory, address, landed);
      } else {
        memory := Overlay(memory, address, bytes);
      }
      r := Attempt();
    }

    method ValidateBytes(address: int, expected: seq<byte>) returns (r: Outcome)
      ensures r.Ok? ==> expected != [] && Holds(memory, address, expected) && Within(Range(address, |expected|), committed)
      ensures reliable && expected != [] && Holds(memory, address, expected) && Within(Range(address, |expected|), committed) ==>
                r.Ok?
    {
      var actual :- ReadMemory(address, |expected|);
      if actual != expected {
        return Err(RemoteOperationFailed);
      }
      return Ok(());
    }

    method WriteAndReadBack(address: int, replacement: seq<byte>) returns (r: Outcome)
      modifies this`memory
      ensures forall a :: !(address <= a < address + |replacement|) ==> memory(a) == old(memory)(a)
      ensures r.Ok? ==> Holds(memory, address, replacement) && Within(Range(address, |replacement|), committed)
      ensures reliable && replacement != [] && Within(Range(address, |replacement|), committed) ==> r.Ok?
    {
      var _ :- WriteMemory(address, replacement);
      var _ :- Attempt();
      var actual :- ReadMemory(address, |replacement|);
      if actual != replacement {
        return Err(RemoteOperationFailed);
      }
      return Ok(());
    }

    /** Success means the bytes were read back; failure, that only this range may
        have changed, and it may even hold the replacement. */
    method WriteCode(address: int, replacement: seq<byte>) returns (r: Outcome)
      modifies this`memory
      ensures forall a :: !(address <= a < address + |replacement|) ==> memory(a) == old(memory)(a)
      ensures r.Ok? ==> Holds(memory, address, replacement) && Within(Range(address, |replacement|), committed)
      ensures reliable && replacement != [] && Within(Range(address, |replacement|), committed) ==> r.Ok?
    {
      var _ :- Attempt();
      var operation := WriteAndReadBack(address, replacement);
      var restore := Attempt();
      if operation.Err? {
        return operation;
      }
      return restore;
    }

    /** Fresh memory, away from everything committed so far. */
    method Allocate(size: nat) returns (r: Result<Address, ErrorKind>)
      modifies this
      ensures r.Err? ==> memory == old(memory) && committed == old(committed) && (size > 0 ==> refused)
      ensures old(refused) ==> refused
      ensures r.Ok? ==>
                && refused == old(refused)
                && size > 0 && r.value + size < ADDRESS_LIMIT && r.value + size <= ceiling
                && (forall a :: Range(r.value, size).Has(a) ==> a !in old(committed))
                && committed == old(committed) + Addresses(Range(r.value, size))
                && (forall a :: a in old(committed) ==> memory(a) == old(memory)(a))
    {
      if size == 0 {
        return Err(Internal);
      }
      var base: int := *;
      if base <= 0 || base + size >= ADDRESS_LIMIT || base + size > ceiling
         || exists a :: base <= a < base + size && a in committed {
        refused := true;
        return Err(RemoteOperationFailed);
      }
      memory := Overlay(memory, base, seq(size, _ => 0));
      committed := committed + Addresses(Range(base, size));
      return Ok(base);
    }

    /** Dropping an allocation; the system may refuse. */
    method Release(block: Range)
      modifies this`committed
      ensures committed <= old(committed)
      ensures forall a :: a in old(committed) && !block.Has(a) ==> a in committed
    {
      var released: bool := *;
      if released {
        committed := committed - Addresses(block);
      }
    }

    method PrepareStub(block: Range, stub: seq<byte>) returns (r: Outcome)
      modifies this`memory
      ensures forall a :: !block.Has(a) ==> memory(a) == old(memory)(a)
      ensures r.Ok? ==> 0 < |stub| <= block.length && Holds(memory, block.address, stub)
      ensures reliable && 0 < |stub| <= block.length && Within(block, committed) ==> r.Ok?
    {
      if |stub| > block.length {
        return Err(Internal);
      }
      var _ :- WriteMemory(block.address, stub);
      var _ :- ValidateBytes(block.address, stub);
      var _ :- Attempt();
      r := Attempt();
    }

    /** Write patches in order until one fails. */
    method WriteAll(patches: seq<Patch>) returns (r: Outcome)
      modifies this`memory
      ensures forall a :: !Inside(Ranges(patches), a) ==> memory(a) == old(memory)(a)
      ensures r.Ok? ==> AllWithin(Ranges(patches), committed)
      ensures r.Ok? && Disjoint(Ranges(patches)) ==> Present(memory, patches)
      ensures reliable && AllWithin(Ranges(patches), committed) && (forall i :: 0 <= i < |patches| ==> patches[i].bytes != []) ==>
                r.Ok?
    {
      for i := 0 to |patches|
        invariant forall a :: !Inside(Ranges(patches), a) ==> memory(a) == old(memory)(a)
        invariant forall k :: 0 <= k < i ==> Within(Ranges(patches)[k], committed)
        invariant Disjoint(Ranges(patches)) ==>
                    forall k :: 0 <= k < i ==> Holds(memory, patches[k].address, patches[k].bytes)
      {
        ghost var before := memory;
        r := WriteCode(patches[i].address, patches[i].bytes);
        assert Ranges(patches)[i] == patches[i].Extent();
        assert forall a :: patches[i].Extent().Has(a) ==> Inside(Ranges(patches), a);
        if r.Err? {
          return;
        }
        if Disjoint(Ranges(patches)) {
          forall k | 0 <= k < i
            ensures Holds(memory, patches[k].address, patches[k].bytes)
          {
            assert Ranges(patches)[k].Apart(Ranges(patches)[i]);
          }
        }
      }
      return Ok(());
    }
  }
}
