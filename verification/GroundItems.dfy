/** Replacing client functions by jumps into allocated stubs, all or nothing. */
module GroundItems {
  import opened Words
  import opened Wrappers
  import opened CodeEmission
  import opened PatchPlan
  import opened LaunchTarget

  /** A hook, its original bytes, and the stub it is to jump to; `build` fills in the
      stub's template for an image base, a stub address and a state address. */
  datatype HookDefinition = HookDefinition(
    rva: u32, expected: seq<byte>, templateLength: nat,
    build: (Address, Address, Address) -> Result<seq<byte>, ErrorKind>)

  datatype Definition = Definition(
    stateSize: nat, collector: HookDefinition, frame: HookDefinition, keyDown: HookDefinition, keyUp: HookDefinition,
    selectorRva: u32, selectorExpected: seq<byte>, targetRvas: seq<u32>)
  {
    function Hooks(): (hooks: seq<HookDefinition>)
      ensures |hooks| == 4
    {
      [collector, frame, keyDown, keyUp]
    }
  }

  predicate ValidDefinition(definition: Definition) {
    && (forall i :: 0 <= i < 4 ==> |definition.Hooks()[i].expected| >= 5)
    && definition.selectorExpected != []
    && definition.collector.templateLength >= 0x9D && definition.frame.templateLength >= 0xBA
    && definition.keyDown.templateLength >= 0x54 && definition.keyUp.templateLength >= 0x54
  }

  /** A hook ready to be written: the jump, and the prepared stub behind it. */
  datatype Hook = Hook(address: Address, expected: seq<byte>, jump: seq<byte>, stub: Address, code: seq<byte>) {
    function Original(): Patch {
      Patch(address, expected)
    }

    function Jump(): Patch {
      Patch(address, jump)
    }

    function Stub(): Patch {
      Patch(stub, code)
    }

    ghost predicate JumpsToStub() {
      JumpHook(address, stub, |expected|) == Ok(jump) && |jump| == |expected|
    }
  }

  function Originals(hooks: seq<Hook>): seq<Patch> {
    seq(|hooks|, i requires 0 <= i < |hooks| => hooks[i].Original())
  }

  function Jumps(hooks: seq<Hook>): seq<Patch> {
    seq(|hooks|, i requires 0 <= i < |hooks| => hooks[i].Jump())
  }

  function Stubs(hooks: seq<Hook>): seq<Patch> {
    seq(|hooks|, i requires 0 <= i < |hooks| => hooks[i].Stub())
  }

  function HookRanges(hooks: seq<Hook>): seq<Range> {
    Ranges(Originals(hooks))
  }

  /** Every hook byte is what it was in `was`. */
  ghost predicate Restored(hooks: seq<Hook>, was: Memory, m: Memory) {
    forall a :: Inside(HookRanges(hooks), a) ==> m(a) == was(a)
  }

  method RollBack(target: Target, hooks: seq<Hook>, installed: nat, ghost was: Memory) returns (r: Outcome)
    requires installed < |hooks|
    modifies target`memory
    ensures forall a :: !Among(HookRanges(hooks), 0, installed + 1, a) ==> target.memory(a) == old(target.memory)(a)
    ensures r.Ok? && Present(was, Originals(hooks)) ==>
              forall a :: Among(HookRanges(hooks), 0, installed + 1, a) ==> target.memory(a) == was(a)
  {
    r := Ok(());
    for i := installed + 1 downto 0
      invariant forall a :: !Among(HookRanges(hooks), 0, installed + 1, a) ==> target.memory(a) == old(target.memory)(a)
      invariant r.Ok? && Present(was, Originals(hooks)) ==>
                  forall a :: Among(HookRanges(hooks), i, installed + 1, a) ==> target.memory(a) == was(a)
    {
      var restored := target.WriteCode(hooks[i].address, hooks[i].expected);
      if restored.Err? && r.Ok? {
        r := restored;
      }
      assert HookRanges(hooks)[i] == hooks[i].Original().Extent();
      if restored.Ok? && Present(was, Originals(hooks)) {
        assert Holds(was, Originals(hooks)[i].address, Originals(hooks)[i].bytes);
        RestoredRange(target.memory, was, hooks[i].Original());
      }
    }
  }

  lemma RestoredRange(m: Memory, was: Memory, patch: Patch)
    requires Holds(m, patch.address, patch.bytes) && Holds(was, patch.address, patch.bytes)
    ensures forall a :: patch.Extent().Has(a) ==> m(a) == was(a)
  {
    forall a | patch.Extent().Has(a)
      ensures m(a) == was(a)
    {
      var k := a - patch.address;
      assert m(patch.address + k) == patch.bytes[k] == was(patch.address + k);
    }
  }

  /** Write the hooks in order. A failure restores every hook written so far, the
      failed one included; `keep` says that some hook may still be in place. */
  method InstallHooks(target: Target, hooks: seq<Hook>) returns (r: Outcome, keep: bool)
    requires forall i :: 0 <= i < |hooks| ==> hooks[i].JumpsToStub()
    modifies target`memory
    ensures forall a :: !Inside(HookRanges(hooks), a) ==> target.memory(a) == old(target.memory)(a)
    ensures r.Ok? ==> keep
    ensures r.Ok? && Disjoint(HookRanges(hooks)) ==> Present(target.memory, Jumps(hooks))
    ensures !keep && Present(old(target.memory), Originals(hooks)) ==> Restored(hooks, old(target.memory), target.memory)
    ensures target.reliable && AllWithin(HookRanges(hooks), target.committed) ==> r.Ok?
  {
    for i := 0 to |hooks|
      invariant forall a :: !Among(HookRanges(hooks), 0, i, a) ==> target.memory(a) == old(target.memory)(a)
      invariant Disjoint(HookRanges(hooks)) ==>
                  forall k :: 0 <= k < i ==> Holds(target.memory, hooks[k].address, hooks[k].jump)
    {
      ghost var before := target.memory;
      var written := target.WriteCode(hooks[i].address, hooks[i].jump);
      assert HookRanges(hooks)[i] == hooks[i].Original().Extent();
      if written.Err? {
        var cleanup := RollBack(target, hooks, i, old(target.memory));
        return Err(if cleanup.Err? then RemoteOperationFailed else written.error), cleanup.Err?;
      }
      EarlierJumpsStay(hooks, i, before, target.memory);
    }
    return Ok(()), true;
  }

  lemma EarlierJumpsStay(hooks: seq<Hook>, i: nat, before: Memory, after: Memory)
    requires i < |hooks| && forall k :: 0 <= k < |hooks| ==> |hooks[k].jump| == |hooks[k].expected|
    requires forall a :: !hooks[i].Original().Extent().Has(a) ==> after(a) == before(a)
    requires Disjoint(HookRanges(hooks)) ==> forall k :: 0 <= k < i ==> Holds(before, hooks[k].address, hooks[k].jump)
    ensures Disjoint(HookRanges(hooks)) ==> forall k :: 0 <= k < i ==> Holds(after, hooks[k].address, hooks[k].jump)
  {
    if Disjoint(HookRanges(hooks)) {
      forall k | 0 <= k < i
        ensures Holds(after, hooks[k].address, hooks[k].jump)
      {
        assert HookRanges(hooks)[k].Apart(HookRanges(hooks)[i]);
      }
    }
  }

  // ----- the whole installation -----

  /** Where the hooks go, with the bytes expected there. */
  function Sites(definition: Definition, image: Address): (sites: seq<Patch>)
    ensures |sites| == 4
  {
    seq(4, i requires 0 <= i < 4 => Patch(image + definition.Hooks()[i].rva, definition.Hooks()[i].expected))
  }

  /** What the definition expects of the client, all of it committed. */
  ghost predicate Expected(definition: Definition, image: Address, m: Memory, committed: set<int>) {
    && ValidDefinition(definition)
    && (forall i :: 0 <= i < 4 ==> image + definition.Hooks()[i].rva < ADDRESS_LIMIT)
    && image + definition.selectorRva < ADDRESS_LIMIT
    && (forall i :: 0 <= i < |definition.targetRvas| ==> image + definition.targetRvas[i] < ADDRESS_LIMIT)
    && Present(m, Sites(definition, image)) && AllWithin(Ranges(Sites(definition, image)), committed)
    && Holds(m, image + definition.selectorRva, definition.selectorExpected)
    && Within(Range(image + definition.selectorRva, |definition.selectorExpected|), committed)
  }

  /** The hooks' original bytes are all there. */
  method ValidateSites(target: Target, definition: Definition, image: Address) returns (r: Outcome)
    requires ValidDefinition(definition)
    ensures r.Ok? ==> Present(target.memory, Sites(definition, image))
    ensures r.Ok? ==> AllWithin(Ranges(Sites(definition, image)), target.committed)
    ensures (target.reliable && Present(target.memory, Sites(definition, image))
             && AllWithin(Ranges(Sites(definition, image)), target.committed)) ==> r.Ok?
  {
    ghost var sites := Sites(definition, image);
    for i := 0 to 4
      invariant forall k :: 0 <= k < i ==>
                  && Holds(target.memory, sites[k].address, sites[k].bytes)
                  && Within(sites[k].Extent(), target.committed)
    {
      assert Ranges(sites)[i] == sites[i].Extent();
      assert sites[i] == Patch(image + definition.Hooks()[i].rva, definition.Hooks()[i].expected);
      var _ :- target.ValidateBytes(image + definition.Hooks()[i].rva, definition.Hooks()[i].expected);
    }
    return Ok(());
  }

  method Resolve(target: Target, definition: Definition, image: Address) returns (r: Outcome)
    ensures r.Ok? ==> ValidDefinition(definition)
    ensures r.Ok? ==> Present(target.memory, Sites(definition, image))
    ensures r.Ok? ==> AllWithin(Ranges(Sites(definition, image)), target.committed)
    ensures r.Ok? ==> Holds(target.memory, image + definition.selectorRva, definition.selectorExpected)
    ensures r.Ok? ==> forall i :: 0 <= i < 4 ==> image + definition.Hooks()[i].rva < ADDRESS_LIMIT
    ensures r.Ok? ==> Expected(definition, image, target.memory, target.committed)
    ensures target.reliable && Expected(definition, image, target.memory, target.committed) ==> r.Ok?
  {
    if !ValidDefinition(definition) {
      return Err(Internal);
    }
    for i := 0 to 4
      invariant forall k :: 0 <= k < i ==> image + definition.Hooks()[k].rva < ADDRESS_LIMIT
    {
      var _ :- CheckedOffset(image, definition.Hooks()[i].rva);
    }
    var selector :- CheckedOffset(image, definition.selectorRva);
    var _ :- ValidateSites(target, definition, image);
    var _ :- target.ValidateBytes(selector, definition.selectorExpected);
    for i := 0 to |definition.targetRvas|
      invariant forall k :: 0 <= k < i ==> image + definition.targetRvas[k] < ADDRESS_LIMIT
    {
      var _ :- CheckedOffset(image, definition.targetRvas[i]);
    }
    return Ok(());
  }

  /** The allocations, in order, each fresh; on failure, those made so far. */
  method AllocateBlocks(target: Target, sizes: seq<nat>) returns (r: Outcome, blocks: seq<Range>)
    modifies target
    ensures |blocks| <= |sizes| && (r.Ok? ==> |blocks| == |sizes|)
    ensures forall i :: 0 <= i < |blocks| ==>
              blocks[i].length == sizes[i] && 0 <= blocks[i].address && blocks[i].address + sizes[i] < ADDRESS_LIMIT
    ensures Disjoint(blocks) && forall i :: 0 <= i < |blocks| ==> blocks[i].length > 0
    ensures forall a :: Inside(blocks, a) ==> a !in old(target.committed)
    ensures old(target.committed) <= target.committed
    ensures forall a :: Inside(blocks, a) ==> a in target.committed
    ensures forall a :: a in old(target.committed) ==> target.memory(a) == old(target.memory)(a)
    ensures forall i :: 0 <= i < |blocks| ==> blocks[i].address + blocks[i].length <= target.ceiling
    ensures r.Err? && (forall i :: 0 <= i < |sizes| ==> sizes[i] > 0) ==> target.refused
    ensures old(target.refused) ==> target.refused
  {
    blocks := [];
    for i := 0 to |sizes|
      invariant |blocks| == i
      invariant forall k :: 0 <= k < i ==>
                  blocks[k].length == sizes[k] && 0 <= blocks[k].address && blocks[k].address + sizes[k] < ADDRESS_LIMIT
      invariant Disjoint(blocks) && forall k :: 0 <= k < i ==> blocks[k].length > 0
      invariant forall a :: Inside(blocks, a) ==> a !in old(target.committed)
      invariant old(target.committed) <= target.committed
      invariant forall a :: Inside(blocks, a) ==> a in target.committed
      invariant forall a :: a in old(target.committed) ==> target.memory(a) == old(target.memory)(a)
      invariant forall k :: 0 <= k < i ==> blocks[k].address + blocks[k].length <= target.ceiling
      invariant old(target.refused) ==> target.refused
    {
      ghost var committed := target.committed;
      var allocation := target.Allocate(sizes[i]);
      if allocation.Err? {
        return Err(allocation.error), blocks;
      }
      var block := Range(allocation.value, sizes[i]);
      FreshBlock(blocks, block, committed);
      forall a
        ensures Inside(blocks + [block], a) <==> Inside(blocks, a) || block.Has(a)
      {
        InsideEither(blocks, [block], a);
        assert [block][0] == block;
      }
      blocks := blocks + [block];
    }
    return Ok(()), blocks;
  }

  lemma FreshBlock(blocks: seq<Range>, block: Range, committed: set<int>)
    requires Disjoint(blocks) && block.length > 0
    requires forall a :: Inside(blocks, a) ==> a in committed
    requires forall a :: block.Has(a) ==> a !in committed
    requires forall i :: 0 <= i < |blocks| ==> blocks[i].length > 0
    ensures Disjoint(blocks + [block])
  {
    forall i | 0 <= i < |blocks|
      ensures blocks[i].Apart(block)
    {
      if !blocks[i].Apart(block) {
        var a := if blocks[i].address < block.address then block.address else blocks[i].address;
        assert blocks[i].Has(a) && block.Has(a);
      }
    }
  }

  method ReleaseBlocks(target: Target, blocks: seq<Range>, ghost others: set<int>)
    requires others <= target.committed && forall a :: Inside(blocks, a) ==> a !in others
    modifies target`committed
    ensures others <= target.committed
  {
    for i := 0 to |blocks|
      invariant others <= target.committed
    {
      assert forall a :: blocks[i].Has(a) ==> Inside(blocks, a);
      assert others <= target.committed - Addresses(blocks[i]);
      target.Release(blocks[i]);
    }
  }

  ghost predicate BlocksFit(blocks: seq<Range>) {
    && |blocks| == 5 && Disjoint(blocks)
    && forall i :: 0 <= i < 5 ==> 0 <= blocks[i].address && blocks[i].address + blocks[i].length < ADDRESS_LIMIT
  }

  /** The builders fill in their templates for any stub and state below the ceiling. */
  ghost predicate Buildable(definition: Definition, image: Address, ceiling: nat) {
    forall i, stub: Address, state: Address :: 0 <= i < 4 && stub < ceiling && state < ceiling ==>
      var code := definition.Hooks()[i].build(image, stub, state);
      code.Ok? && 0 < |code.value| <= definition.Hooks()[i].templateLength
  }

  method BuildStubs(definition: Definition, image: Address, blocks: seq<Range>) returns (r: Result<seq<seq<byte>>, ErrorKind>)
    requires BlocksFit(blocks)
    ensures r.Ok? ==> |r.value| == 4
    ensures r.Ok? ==> forall i :: 0 <= i < 4 ==>
              definition.Hooks()[i].build(image, blocks[i + 1].address, blocks[0].address) == Ok(r.value[i])
    ensures r.Ok? <==> forall i :: 0 <= i < 4 ==>
              definition.Hooks()[i].build(image, blocks[i + 1].address, blocks[0].address).Ok?
  {
    var codes: seq<seq<byte>> := [];
    for i := 0 to 4
      invariant |codes| == i
      invariant forall k :: 0 <= k < i ==>
                  definition.Hooks()[k].build(image, blocks[k + 1].address, blocks[0].address) == Ok(codes[k])
    {
      var code :- definition.Hooks()[i].build(image, blocks[i + 1].address, blocks[0].address);
      codes := codes + [code];
    }
    return Ok(codes);
  }

  ghost predicate CodesFit(blocks: seq<Range>, codes: seq<seq<byte>>)
    requires |blocks| == 5 && |codes| == 4
  {
    forall k :: 0 <= k < 4 ==> 0 < |codes[k]| <= blocks[k + 1].length
  }

  /** Every stub is in its block, read back; nothing outside the blocks is written. */
  method PrepareStubs(target: Target, blocks: seq<Range>, codes: seq<seq<byte>>) returns (r: Outcome)
    requires BlocksFit(blocks) && |codes| == 4
    modifies target`memory
    ensures forall a :: !Inside(blocks, a) ==> target.memory(a) == old(target.memory)(a)
    ensures r.Ok? ==> forall k :: 0 <= k < 4 ==>
              |codes[k]| <= blocks[k + 1].length && Holds(target.memory, blocks[k + 1].address, codes[k])
    ensures r.Ok? ==> CodesFit(blocks, codes)
    ensures target.reliable && AllWithin(blocks, target.committed) && CodesFit(blocks, codes) ==> r.Ok?
  {
    for i := 0 to 4
      invariant forall a :: !Inside(blocks, a) ==> target.memory(a) == old(target.memory)(a)
      invariant forall k :: 0 <= k < i ==>
                  0 < |codes[k]| <= blocks[k + 1].length && Holds(target.memory, blocks[k + 1].address, codes[k])
    {
      var prepared := target.PrepareStub(blocks[i + 1], codes[i]);
      assert forall a :: blocks[i + 1].Has(a) ==> Inside(blocks, a);
      if prepared.Err? {
        return prepared;
      }
      forall k | 0 <= k < i
        ensures Holds(target.memory, blocks[k + 1].address, codes[k])
      {
        assert blocks[k + 1].Apart(blocks[i + 1]);
      }
    }
    return Ok(());
  }

  /** The stub of each hook is in the block after the state block, and its code was
      built for that place and for the state block's address. */
  ghost predicate StubsBuilt(definition: Definition, image: Address, hooks: seq<Hook>, blocks: seq<Range>) {
    && |hooks| == 4 && BlocksFit(blocks)
    && forall i :: 0 <= i < 4 ==>
         && hooks[i].stub == blocks[i + 1].address && |hooks[i].code| <= blocks[i + 1].length
         && definition.Hooks()[i].build(image, hooks[i].stub, blocks[0].address) == Ok(hooks[i].code)
  }

  /** Each stub can be built for its place and the state block's, and fits there. */
  ghost predicate StubsFit(definition: Definition, image: Address, blocks: seq<Range>)
    requires BlocksFit(blocks)
  {
    forall i :: 0 <= i < 4 ==>
      var code := definition.Hooks()[i].build(image, blocks[i + 1].address, blocks[0].address);
      code.Ok? && 0 < |code.value| <= blocks[i + 1].length
  }

  /** Every hook has room for a near jump, and its stub is in reach behind it. */
  ghost predicate StubsInReach(definition: Definition, image: Address, blocks: seq<Range>)
    requires |blocks| == 5
  {
    forall i :: 0 <= i < 4 ==>
      var site := image + definition.Hooks()[i].rva;
      |definition.Hooks()[i].expected| >= 5 && site + 5 < ADDRESS_LIMIT && Reaches(site + 5, blocks[i + 1].address)
  }

  method ComputeJumps(definition: Definition, image: Address, blocks: seq<Range>, codes: seq<seq<byte>>)
    returns (r: Result<seq<Hook>, ErrorKind>)
    requires BlocksFit(blocks) && |codes| == 4
    requires forall i :: 0 <= i < 4 ==> image + definition.Hooks()[i].rva < ADDRESS_LIMIT
    requires forall i :: 0 <= i < 4 ==>
               && |codes[i]| <= blocks[i + 1].length
               && definition.Hooks()[i].build(image, blocks[i + 1].address, blocks[0].address) == Ok(codes[i])
    ensures r.Ok? ==> StubsBuilt(definition, image, r.value, blocks)
    ensures r.Ok? ==> forall i :: 0 <= i < 4 ==> r.value[i].code == codes[i]
    ensures r.Ok? ==> Originals(r.value) == Sites(definition, image)
    ensures r.Ok? ==> forall i :: 0 <= i < 4 ==> r.value[i].JumpsToStub()
    ensures r.Ok? <==> StubsInReach(definition, image, blocks)
  {
    var hooks: seq<Hook> := [];
    for i := 0 to 4
      invariant |hooks| == i
      invariant forall k :: 0 <= k < i ==> hooks[k].JumpsToStub()
      invariant forall k :: 0 <= k < i ==> hooks[k].Original() == Sites(definition, image)[k]
      invariant forall k :: 0 <= k < i ==> hooks[k].stub == blocks[k + 1].address && hooks[k].code == codes[k]
      invariant forall k :: 0 <= k < i ==>
                  var site := image + definition.Hooks()[k].rva;
                  |definition.Hooks()[k].expected| >= 5 && site + 5 < ADDRESS_LIMIT && Reaches(site + 5, blocks[k + 1].address)
    {
      var site := Sites(definition, image)[i];
      JumpHookExactly(site.address, blocks[i + 1].address, |site.bytes|);
      var jump :- JumpHook(site.address, blocks[i + 1].address, |site.bytes|);
      hooks := hooks + [Hook(site.address, site.bytes, jump, blocks[i + 1].address, codes[i])];
    }
    return Ok(hooks);
  }

  /** What an installation leaves in the client: the hooks, and the blocks behind them,
      the state block first. */
  datatype Installation = Installation(hooks: seq<Hook>, blocks: seq<Range>)

  const NOTHING_INSTALLED := Installation([], [])

  function Sizes(definition: Definition): seq<nat> {
    [definition.stateSize, definition.collector.templateLength, definition.frame.templateLength,
     definition.keyDown.templateLength, definition.keyUp.templateLength]
  }

  ghost predicate BlocksSized(definition: Definition, blocks: seq<Range>) {
    |blocks| == 5 && forall i :: 0 <= i < 5 ==> blocks[i].length == Sizes(definition)[i]
  }

  /** Everything the hooks of this definition need is alive: all five blocks are
      committed in their full size, and each stub holds the code built for it and for
      the state block. */
  ghost predicate Live(definition: Definition, image: Address, installed: Installation, m: Memory, committed: set<int>) {
    && Originals(installed.hooks) == Sites(definition, image)
    && StubsBuilt(definition, image, installed.hooks, installed.blocks)
    && BlocksSized(definition, installed.blocks)
    && (forall i :: 0 <= i < 4 ==> installed.hooks[i].JumpsToStub())
    && Present(m, Stubs(installed.hooks))
    && AllWithin(installed.blocks, committed)
  }

  lemma BuiltCodesFit(definition: Definition, image: Address, blocks: seq<Range>, codes: seq<seq<byte>>)
    requires BlocksFit(blocks) && |codes| == 4
    requires forall i :: 0 <= i < 4 ==>
               definition.Hooks()[i].build(image, blocks[i + 1].address, blocks[0].address) == Ok(codes[i])
    ensures StubsFit(definition, image, blocks) <==> CodesFit(blocks, codes)
  {
  }

  /** The part of the installation that owns the blocks: they outlive it exactly when
      `keep` is set. */
  method InstallInto(target: Target, definition: Definition, image: Address, blocks: seq<Range>)
    returns (r: Outcome, keep: bool, ghost hooks: seq<Hook>)
    requires BlocksFit(blocks) && BlocksSized(definition, blocks) && AllWithin(blocks, target.committed)
    requires forall i :: 0 <= i < 4 ==> image + definition.Hooks()[i].rva < ADDRESS_LIMIT
    requires AllApart(blocks, Ranges(Sites(definition, image)))
    modifies target`memory
    ensures forall a :: !Inside(blocks, a) && !Inside(Ranges(Sites(definition, image)), a) ==>
              target.memory(a) == old(target.memory)(a)
    ensures r.Ok? ==> keep
    ensures keep ==> Live(definition, image, Installation(hooks, blocks), target.memory, target.committed)
    ensures r.Ok? && Disjoint(Ranges(Sites(definition, image))) ==> Present(target.memory, Jumps(hooks))
    ensures !keep && Present(old(target.memory), Sites(definition, image)) ==>
              forall a :: !Inside(blocks, a) ==> target.memory(a) == old(target.memory)(a)
    ensures target.reliable && AllWithin(Ranges(Sites(definition, image)), target.committed) ==>
              (r.Ok? <==> StubsFit(definition, image, blocks) && StubsInReach(definition, image, blocks))
  {
    hooks := [];
    var codes := BuildStubs(definition, image, blocks);
    if codes.Err? {
      return Err(codes.error), false, hooks;
    }
    BuiltCodesFit(definition, image, blocks, codes.value);
    var prepared := PrepareStubs(target, blocks, codes.value);
    if prepared.Err? {
      return prepared, false, hooks;
    }
    var plan := ComputeJumps(definition, image, blocks, codes.value);
    if plan.Err? {
      return Err(plan.error), false, hooks;
    }
    hooks := plan.value;
    assert HookRanges(hooks) == Ranges(Sites(definition, image));
    ghost var ready := target.memory;
    r, keep := InstallHooks(target, plan.value);
    StubsSurvive(definition, image, hooks, blocks, ready, target.memory);
    SitesUntouched(blocks, Sites(definition, image), old(target.memory), ready);
  }

  /** A stub in a block apart from the written ranges stays as it is. */
  lemma StubSurvives(hook: Hook, block: Range, ranges: seq<Range>, before: Memory, after: Memory)
    requires hook.stub == block.address && |hook.code| <= block.length && Holds(before, hook.stub, hook.code)
    requires forall j :: 0 <= j < |ranges| ==> block.Apart(ranges[j])
    requires forall a :: !Inside(ranges, a) ==> after(a) == before(a)
    ensures Holds(after, hook.stub, hook.code)
  {
    assert forall a :: block.Has(a) ==> !Inside(ranges, a);
  }

  /** Hooks lie outside the blocks, so writing them leaves the stubs alone. */
  lemma StubsSurvive(definition: Definition, image: Address, hooks: seq<Hook>, blocks: seq<Range>, before: Memory, after: Memory)
    requires StubsBuilt(definition, image, hooks, blocks)
    requires forall k :: 0 <= k < 4 ==> Holds(before, hooks[k].stub, hooks[k].code)
    requires AllApart(blocks, HookRanges(hooks))
    requires forall a :: !Inside(HookRanges(hooks), a) ==> after(a) == before(a)
    ensures Present(after, Stubs(hooks))
  {
    var ranges := HookRanges(hooks);
    forall i | 0 <= i < 4
      ensures Holds(after, hooks[i].stub, hooks[i].code)
    {
      StubSurvives(hooks[i], blocks[i + 1], ranges, before, after);
    }
  }

  lemma SitesUntouched(blocks: seq<Range>, sites: seq<Patch>, before: Memory, after: Memory)
    requires AllApart(blocks, Ranges(sites))
    requires forall a :: !Inside(blocks, a) ==> after(a) == before(a)
    ensures forall a :: Inside(Ranges(sites), a) ==> !Inside(blocks, a)
    ensures Present(before, sites) ==> Present(after, sites)
  {
    forall i, j, a | 0 <= i < |blocks| && 0 <= j < |sites| && sites[j].Extent().Has(a)
      ensures !blocks[i].Has(a)
    {
      assert blocks[i].Apart(Ranges(sites)[j]);
    }
    if Present(before, sites) {
      forall i, k | 0 <= i < |sites| && 0 <= k < |sites[i].bytes|
        ensures after(sites[i].address + k) == sites[i].bytes[k]
      {
        assert Holds(before, sites[i].address, sites[i].bytes);
        assert sites[i].Extent().Has(sites[i].address + k);
      }
    }
  }

  /** For every pattern of failures: afterwards the hooks are all in place with all
      five blocks alive behind them, or the client's bytes are what they were, or some
      hook could not be restored and every block was left alive for it. */
  method Install(target: Target, definition: Definition, image: Address) returns (r: Outcome, ghost installed: Installation)
    requires ValidDefinition(definition)
    requires forall i :: 0 <= i < 4 ==> image + definition.Hooks()[i].rva < ADDRESS_LIMIT
    requires AllWithin(Ranges(Sites(definition, image)), target.committed)
    modifies target
    ensures old(target.committed) <= target.committed
    ensures SameOutside(old(target.committed), old(target.memory), target.memory, Ranges(Sites(definition, image)))
    ensures r.Ok? ==> Live(definition, image, installed, target.memory, target.committed)
    ensures forall a :: Inside(installed.blocks, a) ==> a !in old(target.committed)
    ensures r.Ok? && Disjoint(Ranges(Sites(definition, image))) ==> Present(target.memory, Jumps(installed.hooks))
    ensures r.Err? && Present(old(target.memory), Sites(definition, image)) ==>
              || SameOutside(old(target.committed), old(target.memory), target.memory, [])
              || Live(definition, image, installed, target.memory, target.committed)
    ensures target.reliable && !target.refused && definition.stateSize > 0 ==>
              && BlocksFit(installed.blocks)
              && (r.Ok? <==> StubsFit(definition, image, installed.blocks) && StubsInReach(definition, image, installed.blocks))
    ensures target.reliable && !target.refused && LowAndBuildable(definition, image, target.ceiling) ==> r.Ok?
    ensures old(target.refused) ==> target.refused
  {
    installed := NOTHING_INSTALLED;
    var outcome, blocks := AllocateBlocks(target, Sizes(definition));
    if outcome.Err? {
      ReleaseBlocks(target, blocks, old(target.committed));
      return outcome, installed;
    }
    BlocksApart(blocks, Ranges(Sites(definition, image)), old(target.committed));
    BlocksCommitted(blocks, target.committed);
    if Present(old(target.memory), Sites(definition, image)) {
      PresentSurvives(old(target.committed), old(target.memory), target.memory, Sites(definition, image), []);
    }
    if LowAndBuildable(definition, image, target.ceiling) {
      LowStubsFit(definition, image, blocks, target.ceiling);
    }
    assert target.reliable ==> AllWithin(Ranges(Sites(definition, image)), target.committed);
    var keep: bool;
    ghost var hooks: seq<Hook>;
    r, keep, hooks := InstallInto(target, definition, image, blocks);
    installed := Installation(hooks, blocks);
    if !keep {
      ReleaseBlocks(target, blocks, old(target.committed));
    }
  }

  /** Everything lies below two gibibytes, and the builders fill in their templates for
      any stub and state there. */
  ghost predicate LowAndBuildable(definition: Definition, image: Address, ceiling: nat) {
    && Buildable(definition, image, ceiling) && definition.stateSize > 0 && ceiling <= 0x8000_0000
    && forall i :: 0 <= i < 4 ==> image + definition.Hooks()[i].rva + 5 <= 0x8000_0000
  }

  lemma LowStubsFit(definition: Definition, image: Address, blocks: seq<Range>, ceiling: nat)
    requires ValidDefinition(definition) && LowAndBuildable(definition, image, ceiling)
    requires BlocksFit(blocks) && BlocksSized(definition, blocks)
    requires forall i :: 0 <= i < 5 ==> blocks[i].address + blocks[i].length <= ceiling
    ensures StubsFit(definition, image, blocks) && StubsInReach(definition, image, blocks)
  {
    forall i | 0 <= i < 4
      ensures Reaches(image + definition.Hooks()[i].rva + 5, blocks[i + 1].address)
    {
      LowAddressesReach(image + definition.Hooks()[i].rva + 5, blocks[i + 1].address);
    }
  }

  lemma BlocksCommitted(blocks: seq<Range>, committed: set<int>)
    requires forall a :: Inside(blocks, a) ==> a in committed
    ensures AllWithin(blocks, committed)
  {
    forall i, a | 0 <= i < |blocks| && blocks[i].Has(a)
      ensures a in committed
    {
      assert Inside(blocks, a);
    }
  }

  lemma BlocksApart(blocks: seq<Range>, ranges: seq<Range>, committed: set<int>)
    requires forall i :: 0 <= i < |blocks| ==> blocks[i].length > 0
    requires forall j :: 0 <= j < |ranges| ==> ranges[j].length > 0
    requires forall a :: Inside(blocks, a) ==> a !in committed
    requires AllWithin(ranges, committed)
    ensures AllApart(blocks, ranges)
  {
    forall i, j | 0 <= i < |blocks| && 0 <= j < |ranges|
      ensures blocks[i].Apart(ranges[j])
    {
      if !blocks[i].Apart(ranges[j]) {
        var a := if blocks[i].address < ranges[j].address then ranges[j].address else blocks[i].address;
        assert blocks[i].Has(a) && ranges[j].Has(a);
      }
    }
  }

  /** A processor that reaches an installed hook goes to its stub, with nothing else
      changed, and finds there the code built for the state block, which is committed. */
  lemma InstalledHookRuns(definition: Definition, image: Address, installed: Installation, i: nat, cpu: Cpu, committed: set<int>)
    requires i < 4 && Live(definition, image, installed, cpu.memory, committed)
    requires Present(cpu.memory, Jumps(installed.hooks)) && cpu.eip == installed.hooks[i].address
    ensures var hook, state := installed.hooks[i], installed.blocks[0];
            && Execute(cpu) == Some(cpu.(eip := hook.stub))
            && Holds(cpu.memory, hook.stub, hook.code) && Within(hook.Stub().Extent(), committed)
            && definition.Hooks()[i].build(image, hook.stub, state.address) == Ok(hook.code)
            && state.length == definition.stateSize && Within(state, committed)
  {
    var hook := installed.hooks[i];
    assert Holds(cpu.memory, Jumps(installed.hooks)[i].address, Jumps(installed.hooks)[i].bytes);
    assert Holds(cpu.memory, Stubs(installed.hooks)[i].address, Stubs(installed.hooks)[i].bytes);
    assert Within(installed.blocks[i + 1], committed);
    StubInItsBlock(hook, installed.blocks[i + 1], committed);
    JumpHookLands(cpu, hook.stub, |hook.expected|);
  }

  lemma StubInItsBlock(hook: Hook, block: Range, committed: set<int>)
    requires hook.stub == block.address && |hook.code| <= block.length && Within(block, committed)
    ensures Within(hook.Stub().Extent(), committed)
  {
    assert forall a :: hook.Stub().Extent().Has(a) ==> block.Has(a);
  }
}
