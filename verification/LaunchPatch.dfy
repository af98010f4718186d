/** The whole patch transaction on a suspended client. */
module LaunchPatch {
  import opened Words
  import opened Wrappers
  import opened CodeEmission
  import opened PatchPlan
  import opened LaunchTarget
  import GroundItems
  import BootstrapPatch

  datatype Definition = Definition(rva: u32, expected: seq<byte>, replacement: seq<byte>)

  predicate ValidDefinition(definition: Definition) {
    definition.expected != [] && |definition.expected| == |definition.replacement|
  }

  datatype Selection = Selection(
    allowMultiple: bool, commandLineEndpoint: bool, showItemsWithAlt: bool, skipExchangeAlerts: bool,
    skipIntro: bool, skipNotice: bool)
  {
    predicate IsEmpty() {
      !allowMultiple && !commandLineEndpoint && !showItemsWithAlt && !skipExchangeAlerts && !skipIntro && !skipNotice
    }
  }

  /** The client's patches, by the option that selects them. */
  datatype Catalog = Catalog(
    defaults: seq<Definition>, allowMultiple: seq<Definition>, commandLineEndpoint: seq<Definition>,
    disableFallback: seq<Definition>, skipExchangeAlerts: seq<Definition>, skipIntro: seq<Definition>,
    skipNotice: seq<Definition>, groundItems: GroundItems.Definition, bootstrap: BootstrapPatch.Definition)

  function Selected(catalog: Catalog, selection: Selection, defaults: bool): seq<Definition> {
    (if defaults then catalog.defaults else [])
    + (if selection.allowMultiple then catalog.allowMultiple else [])
    + (if selection.commandLineEndpoint then catalog.commandLineEndpoint + catalog.disableFallback else [])
    + (if selection.skipExchangeAlerts then catalog.skipExchangeAlerts else [])
    + (if selection.skipIntro then catalog.skipIntro else [])
    + (if selection.skipNotice then catalog.skipNotice else [])
  }

  function Originals(definitions: seq<Definition>, image: Address): seq<Patch> {
    seq(|definitions|, i requires 0 <= i < |definitions| => Patch(image + definitions[i].rva, definitions[i].expected))
  }

  function Replacements(definitions: seq<Definition>, image: Address): seq<Patch> {
    seq(|definitions|, i requires 0 <= i < |definitions| => Patch(image + definitions[i].rva, definitions[i].replacement))
  }

  /** The plain patches are valid, and what they expect is there and committed. */
  ghost predicate PatchesExpected(definitions: seq<Definition>, image: Address, m: Memory, committed: set<int>) {
    && (forall i :: 0 <= i < |definitions| ==>
          ValidDefinition(definitions[i]) && image + definitions[i].rva < ADDRESS_LIMIT)
    && Present(m, Originals(definitions, image))
    && AllWithin(Ranges(Originals(definitions, image)), committed)
  }

  method ResolveAll(target: Target, definitions: seq<Definition>, image: Address) returns (r: Outcome)
    ensures r.Ok? ==> PatchesExpected(definitions, image, target.memory, target.committed)
    ensures target.reliable && PatchesExpected(definitions, image, target.memory, target.committed) ==> r.Ok?
  {
    ghost var originals := Originals(definitions, image);
    for i := 0 to |definitions|
      invariant forall k :: 0 <= k < i ==>
                  ValidDefinition(definitions[k]) && image + definitions[k].rva < ADDRESS_LIMIT
      invariant forall k :: 0 <= k < i ==>
                  && Holds(target.memory, originals[k].address, originals[k].bytes)
                  && Within(originals[k].Extent(), target.committed)
    {
      assert originals[i] == Patch(image + definitions[i].rva, definitions[i].expected);
      assert Ranges(originals)[i] == originals[i].Extent();
      if !ValidDefinition(definitions[i]) {
        return Err(Internal);
      }
      var address :- CheckedOffset(image, definitions[i].rva);
      var _ :- target.ValidateBytes(address, definitions[i].expected);
    }
    return Ok(());
  }

  /** Everything the plan expects of an image is there. */
  ghost predicate Validated(catalog: Catalog, selection: Selection, defaults: bool, image: Address, m: Memory) {
    var definitions := Selected(catalog, selection, defaults);
    && (forall i :: 0 <= i < |definitions| ==>
          ValidDefinition(definitions[i]) && image + definitions[i].rva < ADDRESS_LIMIT)
    && Present(m, Originals(definitions, image))
    && (defaults ==>
          && BootstrapPatch.InReach(catalog.bootstrap, image)
          && Present(m, BootstrapPatch.Checks(catalog.bootstrap, image)))
    && (selection.showItemsWithAlt ==>
          && GroundItems.ValidDefinition(catalog.groundItems)
          && Present(m, GroundItems.Sites(catalog.groundItems, image))
          && Holds(m, image + catalog.groundItems.selectorRva, catalog.groundItems.selectorExpected))
  }

  /** That, and all of it committed, with every address the plan computes representable. */
  ghost predicate Acceptable(catalog: Catalog, selection: Selection, defaults: bool, image: Address, m: Memory,
                             committed: set<int>) {
    && PatchesExpected(Selected(catalog, selection, defaults), image, m, committed)
    && (defaults ==> BootstrapPatch.Expected(catalog.bootstrap, image, m, committed))
    && (selection.showItemsWithAlt ==> GroundItems.Expected(catalog.groundItems, image, m, committed))
  }

  lemma AcceptableIsValidated(catalog: Catalog, selection: Selection, defaults: bool, image: Address, m: Memory,
                              committed: set<int>)
    requires Acceptable(catalog, selection, defaults, image, m, committed)
    ensures Validated(catalog, selection, defaults, image, m)
  {
    if defaults {
      BootstrapPatch.ExpectedIsPresent(catalog.bootstrap, image, m, committed);
    }
  }

  /** Everything the plan touches lies below two gibibytes, and so does what the system
      allocates; the stub builders fill in their templates there. */
  ghost predicate Emittable(catalog: Catalog, selection: Selection, defaults: bool, image: Address, ceiling: nat) {
    && (defaults ==>
          && BootstrapPatch.InReach(catalog.bootstrap, image)
          && BootstrapPatch.Low(BootstrapPatch.At(catalog.bootstrap, image), ceiling))
    && (selection.showItemsWithAlt ==> GroundItems.LowAndBuildable(catalog.groundItems, image, ceiling))
  }

  function GroundRanges(catalog: Catalog, selection: Selection, image: Address): seq<Range> {
    if selection.showItemsWithAlt then Ranges(GroundItems.Sites(catalog.groundItems, image)) else []
  }

  function BootstrapRanges(catalog: Catalog, defaults: bool, image: Address): seq<Range> {
    if defaults then BootstrapPatch.SitesAt(catalog.bootstrap, image) else []
  }

  /** Every range the plan writes, in order. */
  function PlanRanges(catalog: Catalog, selection: Selection, defaults: bool, image: Address): seq<Range> {
    Ranges(Replacements(Selected(catalog, selection, defaults), image))
    + GroundRanges(catalog, selection, image)
    + BootstrapRanges(catalog, defaults, image)
  }

  /** The hooks have live blocks behind them, or the client's bytes are what they were. */
  ghost predicate NoDanglingHook(catalog: Catalog, image: Address, installed: GroundItems.Installation,
                                 was: Memory, m: Memory, committed: set<int>) {
    || (forall a :: Inside(Ranges(GroundItems.Sites(catalog.groundItems, image)), a) ==> m(a) == was(a))
    || GroundItems.Live(catalog.groundItems, image, installed, m, committed)
  }

  ghost predicate HooksInstalled(catalog: Catalog, image: Address, installed: GroundItems.Installation,
                                 m: Memory, committed: set<int>) {
    && GroundItems.Live(catalog.groundItems, image, installed, m, committed)
    && Present(m, GroundItems.Jumps(installed.hooks))
  }

  /** Changes in ranges of the original image leave the blocks behind the hooks alone. */
  lemma BlocksSurvive(definition: GroundItems.Definition, image: Address, installed: GroundItems.Installation, original: set<int>,
                      committed: set<int>, later: set<int>, before: Memory, after: Memory, sites: seq<Range>)
    requires GroundItems.Live(definition, image, installed, before, committed) && committed <= later
    requires forall a :: Inside(installed.blocks, a) ==> a !in original
    requires SameOutside(committed, before, after, sites) && AllWithin(sites, original)
    ensures GroundItems.Live(definition, image, installed, after, later)
  {
    var hooks, stubs := installed.hooks, GroundItems.Stubs(installed.hooks);
    forall i, k | 0 <= i < 4 && 0 <= k < |hooks[i].code|
      ensures after(hooks[i].stub + k) == hooks[i].code[k]
    {
      var a := hooks[i].stub + k;
      assert Holds(before, stubs[i].address, stubs[i].bytes);
      assert installed.blocks[i + 1].Has(a) && Inside(installed.blocks, a) && a in committed;
      assert !Inside(sites, a);
    }
    LargerStillWithin(installed.blocks, committed, later);
  }

  lemma JumpsSurvive(hooks: seq<GroundItems.Hook>, committed: set<int>, before: Memory, after: Memory, sites: seq<Range>)
    requires forall i :: 0 <= i < |hooks| ==> hooks[i].JumpsToStub()
    requires Present(before, GroundItems.Jumps(hooks)) && SameOutside(committed, before, after, sites)
    requires AllWithin(GroundItems.HookRanges(hooks), committed) && AllApart(GroundItems.HookRanges(hooks), sites)
    ensures Present(after, GroundItems.Jumps(hooks))
  {
    assert Ranges(GroundItems.Jumps(hooks)) == GroundItems.HookRanges(hooks);
    PresentSurvives(committed, before, after, GroundItems.Jumps(hooks), sites);
  }

  /** The second stage, on the image's hooks. */
  method ApplyGroundItems(target: Target, catalog: Catalog, selection: Selection, image: Address)
    returns (r: Outcome, ghost installed: GroundItems.Installation)
    requires selection.showItemsWithAlt ==> GroundItems.ValidDefinition(catalog.groundItems)
    requires selection.showItemsWithAlt ==>
               forall i :: 0 <= i < 4 ==> image + catalog.groundItems.Hooks()[i].rva < ADDRESS_LIMIT
    requires AllWithin(GroundRanges(catalog, selection, image), target.committed)
    modifies target
    ensures old(target.committed) <= target.committed
    ensures SameOutside(old(target.committed), old(target.memory), target.memory, GroundRanges(catalog, selection, image))
    ensures forall a :: Inside(installed.blocks, a) ==> a !in old(target.committed)
    ensures r.Ok? && selection.showItemsWithAlt && Disjoint(GroundRanges(catalog, selection, image)) ==>
              HooksInstalled(catalog, image, installed, target.memory, target.committed)
    ensures selection.showItemsWithAlt && Present(old(target.memory), GroundItems.Sites(catalog.groundItems, image)) ==>
              NoDanglingHook(catalog, image, installed, old(target.memory), target.memory, target.committed)
    ensures old(target.refused) ==> target.refused
    ensures target.reliable && !target.refused
            && (selection.showItemsWithAlt ==> GroundItems.LowAndBuildable(catalog.groundItems, image, target.ceiling)) ==>
              r.Ok?
  {
    if selection.showItemsWithAlt {
      r, installed := GroundItems.Install(target, catalog.groundItems, image);
      assert forall a :: Inside(Ranges(GroundItems.Sites(catalog.groundItems, image)), a) ==> a in old(target.committed);
    } else {
      r, installed := Ok(()), GroundItems.NOTHING_INSTALLED;
    }
  }

  /** The third stage. */
  method ApplyBootstrap(target: Target, bootstrap: Option<BootstrapPatch.Resolved>) returns (r: Outcome, ghost stub: Address)
    modifies target
    ensures old(target.committed) <= target.committed
    ensures SameOutside(old(target.committed), old(target.memory), target.memory,
                        if bootstrap.Some? then bootstrap.value.Sites() else [])
    ensures r.Ok? && bootstrap.Some? && Disjoint(bootstrap.value.Sites())
            && AllWithin(bootstrap.value.Sites(), old(target.committed)) ==>
              BootstrapPatch.Redirected(bootstrap.value, stub, target.memory, target.committed)
    ensures old(target.refused) ==> target.refused
    ensures target.reliable && !target.refused
            && (bootstrap.Some? ==>
                  && AllWithin(bootstrap.value.Sites(), old(target.committed))
                  && BootstrapPatch.Low(bootstrap.value, target.ceiling)) ==>
              r.Ok?
  {
    if bootstrap.Some? {
      r, stub := BootstrapPatch.Install(target, bootstrap.value);
    } else {
      r, stub := Ok(()), 0;
    }
  }

  /** Read-only: everything the plan expects is compared before anything is written. */
  method ResolvePlan(target: Target, catalog: Catalog, selection: Selection, defaults: bool, image: Address)
    returns (r: Result<Option<BootstrapPatch.Resolved>, ErrorKind>)
    ensures r.Ok? ==> Validated(catalog, selection, defaults, image, target.memory)
    ensures r.Ok? ==> r.value == if defaults then Some(BootstrapPatch.At(catalog.bootstrap, image)) else None
    ensures r.Ok? ==> AllWithin(Ranges(Originals(Selected(catalog, selection, defaults), image)), target.committed)
    ensures r.Ok? ==> AllWithin(GroundRanges(catalog, selection, image), target.committed)
    ensures r.Ok? && defaults ==> AllWithin(Ranges(BootstrapPatch.Checks(catalog.bootstrap, image)), target.committed)
    ensures r.Ok? && selection.showItemsWithAlt ==>
              forall i :: 0 <= i < 4 ==> image + catalog.groundItems.Hooks()[i].rva < ADDRESS_LIMIT
    ensures r.Ok? ==> Acceptable(catalog, selection, defaults, image, target.memory, target.committed)
    ensures target.reliable && Acceptable(catalog, selection, defaults, image, target.memory, target.committed) ==> r.Ok?
  {
    var _ :- ResolveAll(target, Selected(catalog, selection, defaults), image);
    var bootstrap: Option<BootstrapPatch.Resolved> := None;
    if defaults {
      var resolved :- BootstrapPatch.Resolve(target, catalog.bootstrap, image);
      BootstrapPatch.ExpectedIsPresent(catalog.bootstrap, image, target.memory, target.committed);
      bootstrap := Some(resolved);
    }
    if selection.showItemsWithAlt {
      var _ :- GroundItems.Resolve(target, catalog.groundItems, image);
    }
    return Ok(bootstrap);
  }

  // ----- the three stages together -----

  /** No two ranges of the plan overlap, and the bootstrap checks cover the calls. */
  ghost predicate WellSeparated(catalog: Catalog, selection: Selection, defaults: bool, image: Address) {
    && Disjoint(PlanRanges(catalog, selection, defaults, image))
    && (defaults ==> BootstrapPatch.CoversCalls(catalog.bootstrap))
  }

  lemma StagesApart(catalog: Catalog, selection: Selection, defaults: bool, image: Address)
    requires Disjoint(PlanRanges(catalog, selection, defaults, image))
    ensures var first := Ranges(Replacements(Selected(catalog, selection, defaults), image));
            var second := GroundRanges(catalog, selection, image);
            var third := BootstrapRanges(catalog, defaults, image);
            && Disjoint(first) && Disjoint(second) && Disjoint(third)
            && AllApart(first, second) && AllApart(first, third) && AllApart(second, third)
            && AllApart(second, first)
  {
    var first := Ranges(Replacements(Selected(catalog, selection, defaults), image));
    var second := GroundRanges(catalog, selection, image);
    var third := BootstrapRanges(catalog, defaults, image);
    DisjointParts(first + second, third);
    DisjointParts(first, second);
    assert forall i :: 0 <= i < |first| ==> (first + second)[i] == first[i];
    assert forall i :: 0 <= i < |second| ==> (first + second)[|first| + i] == second[i];
  }

  lemma ApartIsOutside(left: seq<Range>, right: seq<Range>)
    requires AllApart(left, right)
    ensures forall a :: Inside(left, a) ==> !Inside(right, a)
  {
  }

  /** What success means: every replacement in place, the hooks in place with their
      stubs, both encryption calls redirected. */
  ghost predicate Applied(catalog: Catalog, selection: Selection, defaults: bool, image: Address,
                          installed: GroundItems.Installation, stub: Address, m: Memory, committed: set<int>) {
    && Present(m, Replacements(Selected(catalog, selection, defaults), image))
    && (selection.showItemsWithAlt ==> HooksInstalled(catalog, image, installed, m, committed))
    && (defaults ==>
          && BootstrapPatch.InReach(catalog.bootstrap, image)
          && BootstrapPatch.Redirected(BootstrapPatch.At(catalog.bootstrap, image), stub, m, committed))
  }

  lemma ReplacementRanges(definitions: seq<Definition>, image: Address)
    requires forall i :: 0 <= i < |definitions| ==> ValidDefinition(definitions[i])
    ensures Ranges(Replacements(definitions, image)) == Ranges(Originals(definitions, image))
  {
  }

  lemma CallsWithin(definition: BootstrapPatch.Definition, image: Address, committed: set<int>)
    requires BootstrapPatch.CoversCalls(definition)
    requires AllWithin(Ranges(BootstrapPatch.Checks(definition, image)), committed)
    ensures AllWithin(BootstrapPatch.SitesAt(definition, image), committed)
  {
    assert Ranges(BootstrapPatch.Checks(definition, image)) == BootstrapPatch.SitesAt(definition, image);
  }

  /** Hooks and bootstrap, behind the plain patches. */
  method ApplyCode(target: Target, catalog: Catalog, selection: Selection, image: Address,
                   bootstrap: Option<BootstrapPatch.Resolved>, ghost calls: seq<Range>)
    returns (r: Outcome, ghost installed: GroundItems.Installation, ghost stub: Address)
    requires selection.showItemsWithAlt ==> GroundItems.ValidDefinition(catalog.groundItems)
    requires selection.showItemsWithAlt ==>
               forall i :: 0 <= i < 4 ==> image + catalog.groundItems.Hooks()[i].rva < ADDRESS_LIMIT
    requires AllWithin(GroundRanges(catalog, selection, image), target.committed)
    requires calls == if bootstrap.Some? then bootstrap.value.Sites() else []
    modifies target
    ensures old(target.committed) <= target.committed
    ensures SameOutside(old(target.committed), old(target.memory), target.memory,
                        GroundRanges(catalog, selection, image) + calls)
    ensures r.Ok? && selection.showItemsWithAlt && Disjoint(GroundRanges(catalog, selection, image))
            && AllApart(GroundRanges(catalog, selection, image), calls) && AllWithin(calls, old(target.committed)) ==>
              HooksInstalled(catalog, image, installed, target.memory, target.committed)
    ensures r.Ok? && bootstrap.Some? && Disjoint(calls) && AllWithin(calls, old(target.committed)) ==>
              BootstrapPatch.Redirected(bootstrap.value, stub, target.memory, target.committed)
    ensures selection.showItemsWithAlt && Present(old(target.memory), GroundItems.Sites(catalog.groundItems, image))
            && AllApart(GroundRanges(catalog, selection, image), calls) && AllWithin(calls, old(target.committed)) ==>
              NoDanglingHook(catalog, image, installed, old(target.memory), target.memory, target.committed)
    ensures old(target.refused) ==> target.refused
    ensures target.reliable && !target.refused && AllWithin(calls, old(target.committed))
            && (selection.showItemsWithAlt ==> GroundItems.LowAndBuildable(catalog.groundItems, image, target.ceiling))
            && (bootstrap.Some? ==> BootstrapPatch.Low(bootstrap.value, target.ceiling)) ==>
              r.Ok?
  {
    stub := 0;
    ghost var ground := GroundRanges(catalog, selection, image);
    ghost var original, before := target.committed, target.memory;
    r, installed := ApplyGroundItems(target, catalog, selection, image);
    ghost var committed, hooked := target.committed, target.memory;
    LargerStillWithin(ground, original, committed);
    if r.Ok? {
      r, stub := ApplyBootstrap(target, bootstrap);
      if AllWithin(calls, original) {
        LargerStillWithin(calls, original, committed);
      }
    } else {
      assert SameOutside(committed, hooked, target.memory, calls);
    }
    SameOutsideBoth(original, before, hooked, target.memory, ground, calls);
    if AllApart(ground, calls) && AllWithin(calls, original) && selection.showItemsWithAlt {
      CallsLeaveHooks(catalog, selection, image, installed, original, committed, target.committed,
                      before, hooked, target.memory, calls);
    }
  }

  /** Redirecting the calls keeps whatever the hooks were left as. */
  lemma CallsLeaveHooks(catalog: Catalog, selection: Selection, image: Address, installed: GroundItems.Installation,
                        original: set<int>, committed: set<int>, later: set<int>,
                        was: Memory, before: Memory, after: Memory, calls: seq<Range>)
    requires selection.showItemsWithAlt && committed <= later
    requires SameOutside(committed, before, after, calls) && AllWithin(calls, original)
    requires AllWithin(GroundRanges(catalog, selection, image), committed)
    requires AllApart(GroundRanges(catalog, selection, image), calls)
    requires forall a :: Inside(installed.blocks, a) ==> a !in original
    ensures NoDanglingHook(catalog, image, installed, was, before, committed) ==>
              NoDanglingHook(catalog, image, installed, was, after, later)
    ensures HooksInstalled(catalog, image, installed, before, committed) ==>
              HooksInstalled(catalog, image, installed, after, later)
  {
    var sites := GroundItems.Sites(catalog.groundItems, image);
    var ground := Ranges(sites);
    if GroundItems.Live(catalog.groundItems, image, installed, before, committed) {
      BlocksSurvive(catalog.groundItems, image, installed, original, committed, later, before, after, calls);
      if Present(before, GroundItems.Jumps(installed.hooks)) {
        JumpsSurvive(installed.hooks, committed, before, after, calls);
      }
    }
    if forall a :: Inside(ground, a) ==> before(a) == was(a) {
      ApartIsOutside(ground, calls);
      assert forall a :: Inside(ground, a) ==> a in committed;
    }
  }

  ghost predicate CodeInstalled(catalog: Catalog, selection: Selection, image: Address,
                                bootstrap: Option<BootstrapPatch.Resolved>, installed: GroundItems.Installation,
                                stub: Address, m: Memory, committed: set<int>) {
    && (selection.showItemsWithAlt ==> HooksInstalled(catalog, image, installed, m, committed))
    && (bootstrap.Some? ==> BootstrapPatch.Redirected(bootstrap.value, stub, m, committed))
  }

  /** The hooks and calls are written apart from the plain patches. */
  lemma PatchesSurvive(catalog: Catalog, selection: Selection, defaults: bool, image: Address,
                       original: set<int>, patched: Memory, after: Memory)
    requires WellSeparated(catalog, selection, defaults, image)
    requires Present(patched, Replacements(Selected(catalog, selection, defaults), image))
    requires AllWithin(Ranges(Replacements(Selected(catalog, selection, defaults), image)), original)
    requires SameOutside(original, patched, after,
                         GroundRanges(catalog, selection, image) + BootstrapRanges(catalog, defaults, image))
    ensures Present(after, Replacements(Selected(catalog, selection, defaults), image))
  {
    var patches := Replacements(Selected(catalog, selection, defaults), image);
    var code := GroundRanges(catalog, selection, image) + BootstrapRanges(catalog, defaults, image);
    assert Ranges(patches) + code == PlanRanges(catalog, selection, defaults, image);
    DisjointParts(Ranges(patches), code);
    PresentSurvives(original, patched, after, patches, code);
  }

  /** Plain patches leave the hook sites as they were. */
  lemma PatchesLeaveHooks(catalog: Catalog, selection: Selection, defaults: bool, image: Address,
                          original: set<int>, before: Memory, patched: Memory)
    requires WellSeparated(catalog, selection, defaults, image) && selection.showItemsWithAlt
    requires AllWithin(GroundRanges(catalog, selection, image), original)
    requires SameOutside(original, before, patched, Ranges(Replacements(Selected(catalog, selection, defaults), image)))
    requires Present(before, GroundItems.Sites(catalog.groundItems, image))
    ensures Present(patched, GroundItems.Sites(catalog.groundItems, image))
    ensures forall a :: Inside(Ranges(GroundItems.Sites(catalog.groundItems, image)), a) ==> patched(a) == before(a)
  {
    var sites := GroundItems.Sites(catalog.groundItems, image);
    var patches := Replacements(Selected(catalog, selection, defaults), image);
    StagesApart(catalog, selection, defaults, image);
    PresentSurvives(original, before, patched, sites, Ranges(patches));
    ApartIsOutside(Ranges(sites), Ranges(patches));
    assert forall a :: Inside(Ranges(sites), a) ==> a in original;
  }

  /** What validation has established about the image. */
  ghost predicate Ready(catalog: Catalog, selection: Selection, defaults: bool, image: Address,
                        bootstrap: Option<BootstrapPatch.Resolved>, m: Memory, committed: set<int>) {
    && Validated(catalog, selection, defaults, image, m)
    && bootstrap == (if defaults then Some(BootstrapPatch.At(catalog.bootstrap, image)) else None)
    && AllWithin(Ranges(Originals(Selected(catalog, selection, defaults), image)), committed)
    && AllWithin(GroundRanges(catalog, selection, image), committed)
    && (defaults ==> AllWithin(Ranges(BootstrapPatch.Checks(catalog.bootstrap, image)), committed))
    && (selection.showItemsWithAlt ==>
          forall i :: 0 <= i < 4 ==> image + catalog.groundItems.Hooks()[i].rva < ADDRESS_LIMIT)
  }

  /** The conditions under which the later stages keep their promises. */
  lemma ReadyAndSeparated(catalog: Catalog, selection: Selection, defaults: bool, image: Address,
                          bootstrap: Option<BootstrapPatch.Resolved>, m: Memory, committed: set<int>)
    requires Ready(catalog, selection, defaults, image, bootstrap, m, committed)
    ensures BootstrapRanges(catalog, defaults, image) == if bootstrap.Some? then bootstrap.value.Sites() else []
    ensures AllWithin(Ranges(Replacements(Selected(catalog, selection, defaults), image)), committed)
    ensures var patches := Replacements(Selected(catalog, selection, defaults), image);
            forall i :: 0 <= i < |patches| ==> patches[i].bytes != []
    ensures WellSeparated(catalog, selection, defaults, image) ==>
              && AllWithin(BootstrapRanges(catalog, defaults, image), committed)
              && Disjoint(Ranges(Replacements(Selected(catalog, selection, defaults), image)))
              && Disjoint(GroundRanges(catalog, selection, image)) && Disjoint(BootstrapRanges(catalog, defaults, image))
              && AllApart(GroundRanges(catalog, selection, image), BootstrapRanges(catalog, defaults, image))
  {
    ReplacementRanges(Selected(catalog, selection, defaults), image);
    if WellSeparated(catalog, selection, defaults, image) {
      StagesApart(catalog, selection, defaults, image);
      if defaults {
        CallsWithin(catalog.bootstrap, image, committed);
      }
    }
  }

  /** The stages after validation. */
  method ApplyResolved(target: Target, catalog: Catalog, selection: Selection, defaults: bool, image: Address,
                       bootstrap: Option<BootstrapPatch.Resolved>)
    returns (r: Outcome, ghost installed: GroundItems.Installation, ghost stub: Address)
    requires Ready(catalog, selection, defaults, image, bootstrap, target.memory, target.committed)
    modifies target
    ensures old(target.committed) <= target.committed
    ensures SameOutside(old(target.committed), old(target.memory), target.memory,
                        PlanRanges(catalog, selection, defaults, image))
    ensures r.Ok? && WellSeparated(catalog, selection, defaults, image) ==>
              && Present(target.memory, Replacements(Selected(catalog, selection, defaults), image))
              && CodeInstalled(catalog, selection, image, bootstrap, installed, stub, target.memory, target.committed)
    ensures selection.showItemsWithAlt && WellSeparated(catalog, selection, defaults, image) ==>
              NoDanglingHook(catalog, image, installed, old(target.memory), target.memory, target.committed)
    ensures old(target.refused) ==> target.refused
    ensures target.reliable && !target.refused && WellSeparated(catalog, selection, defaults, image)
            && Emittable(catalog, selection, defaults, image, target.ceiling) ==>
              r.Ok?
  {
    var patches := Replacements(Selected(catalog, selection, defaults), image);
    ghost var ground := GroundRanges(catalog, selection, image);
    ghost var calls := BootstrapRanges(catalog, defaults, image);
    ghost var original, before := target.committed, target.memory;
    ReadyAndSeparated(catalog, selection, defaults, image, bootstrap, before, original);
    installed, stub := GroundItems.NOTHING_INSTALLED, 0;
    r := target.WriteAll(patches);
    ghost var patched := target.memory;
    if WellSeparated(catalog, selection, defaults, image) && selection.showItemsWithAlt {
      PatchesLeaveHooks(catalog, selection, defaults, image, original, before, patched);
    }
    if r.Ok? {
      r, installed, stub := ApplyCode(target, catalog, selection, image, bootstrap, calls);
      if WellSeparated(catalog, selection, defaults, image) && r.Ok? {
        PatchesSurvive(catalog, selection, defaults, image, original, patched, target.memory);
      }
    }
    assert Ranges(patches) + (ground + calls) == PlanRanges(catalog, selection, defaults, image);
    SameOutsideBoth(original, before, patched, target.memory, Ranges(patches), ground + calls);
  }

  predicate Selects(selection: Selection, defaults: bool) {
    !selection.IsEmpty() || defaults
  }

  /** Patch a suspended client, whose image base is what `located` says.
      - nothing selected: success, and nothing is touched;
      - any byte of any range not as expected: an error, and nothing is touched;
      - at every exit only the plan's ranges of the client may have changed, and no
        hook is left jumping into freed memory;
      - success puts everything the plan asks for in place;
      - a target that works, and whose branches are all in reach, is patched exactly
        when everything expected of it is there. */
  method Apply(target: Target, located: Result<Address, ErrorKind>, catalog: Catalog, selection: Selection, defaults: bool)
    returns (r: Outcome, ghost installed: GroundItems.Installation, ghost stub: Address)
    modifies target
    ensures !Selects(selection, defaults) ==> r == Ok(()) && unchanged(target)
    ensures Selects(selection, defaults)
            && (located.Err?
                || !Acceptable(catalog, selection, defaults, located.value, old(target.memory), old(target.committed))) ==>
              r.Err? && unchanged(target)
    ensures located.Ok? ==>
              SameOutside(old(target.committed), old(target.memory), target.memory,
                          PlanRanges(catalog, selection, defaults, located.value))
    ensures located.Ok? && selection.showItemsWithAlt && WellSeparated(catalog, selection, defaults, located.value) ==>
              NoDanglingHook(catalog, located.value, installed, old(target.memory), target.memory, target.committed)
    ensures Selects(selection, defaults) && r.Ok? && WellSeparated(catalog, selection, defaults, located.value) ==>
              Applied(catalog, selection, defaults, located.value, installed, stub, target.memory, target.committed)
    ensures target.reliable && !target.refused && Selects(selection, defaults) && located.Ok?
            && WellSeparated(catalog, selection, defaults, located.value)
            && Emittable(catalog, selection, defaults, located.value, target.ceiling) ==>
              (r.Ok? <==>
               Acceptable(catalog, selection, defaults, located.value, old(target.memory), old(target.committed)))
  {
    installed, stub := GroundItems.NOTHING_INSTALLED, 0;
    if selection.IsEmpty() && !defaults {
      return Ok(()), installed, stub;
    }
    if located.Err? {
      return Err(located.error), installed, stub;
    }
    var bootstrap := ResolvePlan(target, catalog, selection, defaults, located.value);
    if bootstrap.Err? {
      return Err(bootstrap.error), installed, stub;
    }
    r, installed, stub := ApplyResolved(target, catalog, selection, defaults, located.value, bootstrap.value);
  }
}
