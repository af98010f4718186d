/** Redirecting the two packet encryption calls through the bootstrap stub. There is no
    rollback: a failure part-way leaves the client unfit to run. */
module BootstrapPatch {
  import opened Words
  import opened Wrappers
  import opened CodeEmission
  import opened PatchPlan
  import opened LaunchTarget

  datatype CallSite = CallSite(rva: u32, expected: seq<byte>)

  datatype Definition = Definition(
    binaryCall: CallSite, textCall: CallSite, lateReset: CallSite, resetSequenceRva: u32, encryptPacketRva: u32)

  /** A definition at an image base. */
  datatype Resolved = Resolved(
    binaryCall: Address, textCall: Address, lateReset: Address, resetSequence: Address, encryptPacket: Address)
  {
    function RoutingTo(stub: Address): Routing {
      Routing(stub, resetSequence, encryptPacket)
    }

    /** What is written over. */
    function Sites(): seq<Range> {
      [Range(binaryCall, CALL_SIZE), Range(textCall, CALL_SIZE), Range(lateReset, CALL_SIZE)]
    }
  }

  const CALL_SIZE := 5

  /** What the client must contain at the three call sites. */
  function Checks(definition: Definition, image: Address): seq<Patch> {
    [Patch(image + definition.binaryCall.rva, definition.binaryCall.expected),
     Patch(image + definition.textCall.rva, definition.textCall.expected),
     Patch(image + definition.lateReset.rva, definition.lateReset.expected)]
  }

  function SitesAt(definition: Definition, image: Address): seq<Range> {
    [Range(image + definition.binaryCall.rva, CALL_SIZE), Range(image + definition.textCall.rva, CALL_SIZE),
     Range(image + definition.lateReset.rva, CALL_SIZE)]
  }

  /** The bytes checked are the bytes written over. */
  predicate CoversCalls(definition: Definition) {
    && |definition.binaryCall.expected| == CALL_SIZE && |definition.textCall.expected| == CALL_SIZE
    && |definition.lateReset.expected| == CALL_SIZE
  }

  predicate InReach(definition: Definition, image: Address) {
    && image + definition.binaryCall.rva < ADDRESS_LIMIT && image + definition.textCall.rva < ADDRESS_LIMIT
    && image + definition.lateReset.rva < ADDRESS_LIMIT
    && image + definition.resetSequenceRva < ADDRESS_LIMIT && image + definition.encryptPacketRva < ADDRESS_LIMIT
  }

  function At(definition: Definition, image: Address): Resolved
    requires InReach(definition, image)
  {
    Resolved(image + definition.binaryCall.rva, image + definition.textCall.rva, image + definition.lateReset.rva,
             image + definition.resetSequenceRva, image + definition.encryptPacketRva)
  }

  ghost predicate Checked(check: Patch, m: Memory, committed: set<int>) {
    check.bytes != [] && Holds(m, check.address, check.bytes) && Within(check.Extent(), committed)
  }

  /** What the definition expects of the client, all of it committed. */
  ghost predicate Expected(definition: Definition, image: Address, m: Memory, committed: set<int>) {
    && InReach(definition, image)
    && Checked(Patch(image + definition.binaryCall.rva, definition.binaryCall.expected), m, committed)
    && Checked(Patch(image + definition.textCall.rva, definition.textCall.expected), m, committed)
    && Checked(Patch(image + definition.lateReset.rva, definition.lateReset.expected), m, committed)
  }

  lemma ExpectedIsPresent(definition: Definition, image: Address, m: Memory, committed: set<int>)
    requires Expected(definition, image, m, committed)
    ensures Present(m, Checks(definition, image)) && AllWithin(Ranges(Checks(definition, image)), committed)
  {
    var checks := Checks(definition, image);
    assert Ranges(checks) == [checks[0].Extent(), checks[1].Extent(), checks[2].Extent()];
  }

  method Validate(target: Target, check: Patch) returns (r: Outcome)
    ensures r.Ok? ==> Checked(check, target.memory, target.committed)
    ensures target.reliable && Checked(check, target.memory, target.committed) ==> r.Ok?
  {
    r := target.ValidateBytes(check.address, check.bytes);
  }

  method Resolve(target: Target, definition: Definition, image: Address) returns (r: Result<Resolved, ErrorKind>)
    ensures r.Ok? ==> InReach(definition, image) && r.value == At(definition, image)
    ensures r.Ok? ==> Expected(definition, image, target.memory, target.committed)
    ensures target.reliable && Expected(definition, image, target.memory, target.committed) ==> r.Ok?
  {
    var binaryCall :- CheckedOffset(image, definition.binaryCall.rva);
    var textCall :- CheckedOffset(image, definition.textCall.rva);
    var lateReset :- CheckedOffset(image, definition.lateReset.rva);
    var _ :- Validate(target, Patch(binaryCall, definition.binaryCall.expected));
    var _ :- Validate(target, Patch(textCall, definition.textCall.expected));
    var _ :- Validate(target, Patch(lateReset, definition.lateReset.expected));
    var resetSequence :- CheckedOffset(image, definition.resetSequenceRva);
    var encryptPacket :- CheckedOffset(image, definition.encryptPacketRva);
    return Ok(Resolved(binaryCall, textCall, lateReset, resetSequence, encryptPacket));
  }

  /** The calls and the stub's branches can be written for this stub. */
  predicate Emittable(patch: Resolved, stub: Address) {
    && patch.binaryCall + CALL_SIZE < ADDRESS_LIMIT && Reaches(patch.binaryCall + CALL_SIZE, stub)
    && patch.textCall + CALL_SIZE < ADDRESS_LIMIT && Reaches(patch.textCall + CALL_SIZE, stub)
    && Reaches(stub + 15, patch.resetSequence) && Reaches(stub + 21, patch.encryptPacket)
  }

  /** Everything lies below two gibibytes. */
  predicate Low(patch: Resolved, ceiling: nat) {
    && patch.binaryCall + CALL_SIZE <= 0x8000_0000 && patch.textCall + CALL_SIZE <= 0x8000_0000
    && patch.resetSequence < 0x8000_0000 && patch.encryptPacket < 0x8000_0000 && ceiling <= 0x8000_0000
  }

  lemma LowIsEmittable(patch: Resolved, stub: Address, ceiling: nat)
    requires Low(patch, ceiling) && stub + BOOTSTRAP_STUB_SIZE <= ceiling
    ensures Emittable(patch, stub)
  {
    LowAddressesReach(patch.binaryCall + CALL_SIZE, stub);
    LowAddressesReach(patch.textCall + CALL_SIZE, stub);
    LowAddressesReach(stub + 15, patch.resetSequence);
    LowAddressesReach(stub + 21, patch.encryptPacket);
  }

  function NoOperations(): seq<byte> {
    [NO_OPERATION, NO_OPERATION, NO_OPERATION, NO_OPERATION, NO_OPERATION]
  }

  /** Both calls go to the stub, and the late reset is gone. */
  ghost predicate CallsRedirected(patch: Resolved, stub: Address, m: Memory) {
    && CallsAt(m, patch.binaryCall, stub)
    && CallsAt(m, patch.textCall, stub)
    && Holds(m, patch.lateReset, NoOperations())
  }

  /** Both calls go to a loaded, committed stub. */
  ghost predicate Redirected(patch: Resolved, stub: Address, m: Memory, committed: set<int>) {
    && CallsRedirected(patch, stub, m)
    && StubLoaded(m, patch.RoutingTo(stub))
    && Within(Range(stub, BOOTSTRAP_STUB_SIZE), committed)
  }

  method PrepareStub(target: Target, patch: Resolved, stub: Address) returns (r: Outcome)
    requires stub + BOOTSTRAP_STUB_SIZE < ADDRESS_LIMIT
    modifies target`memory
    ensures forall a :: !Range(stub, BOOTSTRAP_STUB_SIZE).Has(a) ==> target.memory(a) == old(target.memory)(a)
    ensures r.Ok? ==> StubLoaded(target.memory, patch.RoutingTo(stub))
    ensures target.reliable && Within(Range(stub, BOOTSTRAP_STUB_SIZE), target.committed) ==>
              (r.Ok? <==> Reaches(stub + 15, patch.resetSequence) && Reaches(stub + 21, patch.encryptPacket))
  {
    BootstrapStubExactly(stub, patch.resetSequence, patch.encryptPacket);
    var code :- BootstrapStub(stub, patch.resetSequence, patch.encryptPacket);
    r := target.PrepareStub(Range(stub, BOOTSTRAP_STUB_SIZE), code);
  }

  method Redirect(target: Target, site: Address, stub: Address) returns (r: Outcome)
    modifies target`memory
    ensures forall a :: !Range(site, CALL_SIZE).Has(a) ==> target.memory(a) == old(target.memory)(a)
    ensures r.Ok? ==> CallsAt(target.memory, site, stub)
    ensures target.reliable && Within(Range(site, CALL_SIZE), target.committed) ==>
              (r.Ok? <==> site + CALL_SIZE < ADDRESS_LIMIT && Reaches(site + CALL_SIZE, stub))
  {
    NearCallExactly(site, stub);
    var call :- NearCall(site, stub);
    r := target.WriteCode(site, call);
  }

  /** Calls in place survive a write apart from them. */
  lemma CallSurvives(before: Memory, after: Memory, site: Address, stub: Address, range: Range)
    requires CallsAt(before, site, stub) && Range(site, CALL_SIZE).Apart(range)
    requires forall a :: !range.Has(a) ==> after(a) == before(a)
    ensures CallsAt(after, site, stub)
  {
  }

  lemma LoadedSurvives(before: Memory, after: Memory, routing: Routing)
    requires StubLoaded(before, routing)
    requires forall a :: Range(routing.stub, BOOTSTRAP_STUB_SIZE).Has(a) ==> after(a) == before(a)
    ensures StubLoaded(after, routing)
  {
  }

  lemma RedirectionsStand(patch: Resolved, stub: Address, first: Memory, second: Memory, third: Memory)
    requires Disjoint(patch.Sites())
    requires CallsAt(first, patch.binaryCall, stub) && CallsAt(second, patch.textCall, stub)
    requires forall a :: !Range(patch.textCall, CALL_SIZE).Has(a) ==> second(a) == first(a)
    requires forall a :: !Range(patch.lateReset, CALL_SIZE).Has(a) ==> third(a) == second(a)
    requires Holds(third, patch.lateReset, NoOperations())
    ensures CallsRedirected(patch, stub, third)
  {
    var sites := patch.Sites();
    assert sites[0].Apart(sites[1]) && sites[0].Apart(sites[2]) && sites[1].Apart(sites[2]);
    CallSurvives(first, second, patch.binaryCall, stub, sites[1]);
    CallSurvives(second, third, patch.binaryCall, stub, sites[2]);
    CallSurvives(second, third, patch.textCall, stub, sites[2]);
  }

  lemma SitesAreInside(patch: Resolved)
    ensures forall a :: Range(patch.binaryCall, CALL_SIZE).Has(a) ==> Inside(patch.Sites(), a)
    ensures forall a :: Range(patch.textCall, CALL_SIZE).Has(a) ==> Inside(patch.Sites(), a)
    ensures forall a :: Range(patch.lateReset, CALL_SIZE).Has(a) ==> Inside(patch.Sites(), a)
  {
    var sites := patch.Sites();
    assert forall a :: sites[0].Has(a) || sites[1].Has(a) || sites[2].Has(a) ==> Inside(sites, a);
  }

  /** The three writes. */
  method RedirectAll(target: Target, patch: Resolved, stub: Address) returns (r: Outcome)
    modifies target`memory
    ensures forall a :: !Inside(patch.Sites(), a) ==> target.memory(a) == old(target.memory)(a)
    ensures r.Ok? && Disjoint(patch.Sites()) ==> CallsRedirected(patch, stub, target.memory)
    ensures target.reliable && AllWithin(patch.Sites(), target.committed)
            && Reaches(stub + 15, patch.resetSequence) && Reaches(stub + 21, patch.encryptPacket) ==>
              (r.Ok? <==> Emittable(patch, stub))
  {
    SitesAreInside(patch);
    if AllWithin(patch.Sites(), target.committed) {
      ghost var sites := patch.Sites();
      assert Within(sites[0], target.committed) && Within(sites[1], target.committed) && Within(sites[2], target.committed);
    }
    var _ :- Redirect(target, patch.binaryCall, stub);
    ghost var first := target.memory;
    var _ :- Redirect(target, patch.textCall, stub);
    ghost var second := target.memory;
    r := target.WriteCode(patch.lateReset, NoOperations());
    if r.Ok? && Disjoint(patch.Sites()) {
      RedirectionsStand(patch, stub, first, second, target.memory);
    }
  }

  lemma StubApart(sites: seq<Range>, block: Range, committed: set<int>)
    requires AllWithin(sites, committed)
    requires forall a :: block.Has(a) ==> a !in committed
    ensures forall a :: block.Has(a) ==> !Inside(sites, a)
  {
  }

  /** Success redirects both calls; a failure keeps to the three sites. */
  method Install(target: Target, patch: Resolved) returns (r: Outcome, ghost stub: Address)
    modifies target
    ensures old(target.committed) <= target.committed
    ensures SameOutside(old(target.committed), old(target.memory), target.memory, patch.Sites())
    ensures r.Ok? && Disjoint(patch.Sites()) && AllWithin(patch.Sites(), old(target.committed)) ==>
              Redirected(patch, stub, target.memory, target.committed)
    ensures target.reliable && !target.refused && AllWithin(patch.Sites(), old(target.committed)) ==>
              (r.Ok? <==> Emittable(patch, stub))
    ensures (target.reliable && !target.refused && AllWithin(patch.Sites(), old(target.committed))
             && Low(patch, target.ceiling)) ==> r.Ok?
    ensures old(target.refused) ==> target.refused
  {
    stub := 0;
    var allocation := target.Allocate(BOOTSTRAP_STUB_SIZE);
    if allocation.Err? {
      return Err(allocation.error), stub;
    }
    stub := allocation.value;
    var block := Range(allocation.value, BOOTSTRAP_STUB_SIZE);
    if AllWithin(patch.Sites(), old(target.committed)) {
      LargerStillWithin(patch.Sites(), old(target.committed), target.committed);
    }
    if Low(patch, target.ceiling) {
      LowIsEmittable(patch, stub, target.ceiling);
    }
    r := PrepareStub(target, patch, allocation.value);
    if r.Ok? {
      ghost var prepared := target.memory;
      r := RedirectAll(target, patch, allocation.value);
      if AllWithin(patch.Sites(), old(target.committed)) {
        StubApart(patch.Sites(), block, old(target.committed));
        if r.Ok? {
          LoadedSurvives(prepared, target.memory, patch.RoutingTo(stub));
        }
      }
    }
    if r.Err? {
      assert old(target.committed) <= target.committed - Addresses(block);
      target.Release(block);
    }
  }

  /** After a successful installation, a packet going through either call enters the
      encryption as it did in the memory before, the sequence having been reset first
      if and only if it is a bootstrap packet. */
  lemma InstalledCallIsTransparent(patch: Resolved, stub: Address, cpu: Cpu, committed: set<int>, before: Memory, reset: Routine)
    returns (end: Cpu, direct: Cpu)
    requires Redirected(patch, stub, cpu.memory, committed)
    requires cpu.eip == patch.binaryCall || cpu.eip == patch.textCall
    requires cpu.stack != [] && cpu.eip != patch.resetSequence && cpu.eip != patch.encryptPacket
    requires patch.RoutingTo(stub).Outside(patch.resetSequence) && patch.RoutingTo(stub).Outside(patch.encryptPacket)
    requires patch.resetSequence != patch.encryptPacket
    requires CallsAt(before, cpu.eip, patch.encryptPacket) && StackBalanced(reset, stub)
    ensures Leads(reset, patch.RoutingTo(stub), cpu, 1 + StubSteps(CarriesBootstrap(cpu)), end)
    ensures Execute(cpu.(memory := before)) == Some(direct)
    ensures Entry(end) == Entry(direct.(resets := direct.resets + (if CarriesBootstrap(cpu) then 1 else 0)))
  {
    StubDecodes(cpu.memory, patch.RoutingTo(stub));
    end, direct := RedirectedCallIsTransparent(cpu, before, patch.RoutingTo(stub), reset);
  }
}
