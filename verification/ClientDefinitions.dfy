/** The patches of the supported client, and what the launch transaction promises for
    them without further conditions. */
module ClientDefinitions {
  import opened Words
  import opened Wrappers
  import opened CodeEmission
  import opened PatchPlan
  import opened LaunchTarget
  import opened LaunchPatch
  import GroundItems
  import BootstrapPatch

  type Build = (Address, Address, Address) -> Result<seq<byte>, ErrorKind>

  /** How the four stub templates are filled in. */
  datatype Builders = Builders(collector: Build, frame: Build, keyDown: Build, keyUp: Build)

  const BOOTSTRAP := BootstrapPatch.Definition(
    BootstrapPatch.CallSite(0x16_495D, [0xE8, 0x4E, 0x36, 0x00, 0x00]),
    BootstrapPatch.CallSite(0x16_4B29, [0xE8, 0x82, 0x34, 0x00, 0x00]),
    BootstrapPatch.CallSite(0x17_993A, [0xE8, 0xA1, 0xA4, 0xFE, 0xFF]),
    0x16_3DE0, 0x16_7FB0)

  const DEFAULTS := [Definition(0x1F_36F1, [0x75, 0x1E], [0x75, 0x2A])]

  const ALLOW_MULTIPLE := [Definition(0x17_A7D9, [0x75, 0x07], [0xEB, 0x07])]

  const COMMAND_LINE_ENDPOINT := [
    Definition(0x03_2253, [0xE8, 0x28, 0x11, 0x00, 0x00], [0xE8, 0xB8, 0x0D, 0x00, 0x00])]

  const DISABLE_FALLBACK := [
    Definition(0x16_55F4,
               [0xC7, 0x85, 0x94, 0xFB, 0xFF, 0xFF, 0x00, 0x00, 0x00, 0x00],
               [0xE9, 0x06, 0x13, 0x00, 0x00, 0x90, 0x90, 0x90, 0x90, 0x90])]

  const SKIP_INTRO := [Definition(0x0A_CA85, [0x6A, 0x01], [0x6A, 0x02])]

  const SKIP_NOTICE := [
    Definition(0x0B_897C, [0x75, 0x6C], [0xEB, 0x6C]),
    Definition(0x0B_8ACF, [0x75, 0x6D], [0xEB, 0x6D]),
    Definition(0x0B_7BED, [0x74, 0x07], [0xEB, 0x07]),
    Definition(0x16_4855, [0x68, 0xE8, 0x03, 0x00, 0x00], [0x68, 0x00, 0x00, 0x00, 0x00])]

  const NO_ALERT: seq<byte> := [0x31, 0xC0, 0x90, 0x90, 0x90, 0x90, 0x90, 0x90, 0x90, 0x90, 0x90, 0x90]

  const SKIP_EXCHANGE_ALERTS := [
    Definition(0x06_AA81, [0x6A, 0x00, 0x68, 0x34, 0x06, 0x00, 0x00, 0xE8, 0x43, 0x9A, 0x04, 0x00], NO_ALERT),
    Definition(0x06_AC57, [0x6A, 0x00, 0x68, 0x34, 0x06, 0x00, 0x00, 0xE8, 0x6D, 0x98, 0x04, 0x00], NO_ALERT)]

  const SELECTOR: seq<byte> := [
    0x8B, 0x55, 0xD0, 0x0F, 0xB6, 0x82, 0xB9, 0x00, 0x00, 0x00, 0x25, 0x80, 0x00, 0x00, 0x00,
    0x74, 0x09, 0xC7, 0x45, 0xE8, 0x6D, 0x00, 0x00, 0x00, 0xEB, 0x16, 0x8B, 0x4D, 0xD0, 0x0F,
    0xB6, 0x91, 0xB9, 0x00, 0x00, 0x00, 0x83, 0xE2, 0x40, 0x74, 0x07, 0xC7, 0x45, 0xE8, 0x03,
    0x00, 0x00, 0x00]

  function GroundItemReveal(builders: Builders): GroundItems.Definition {
    GroundItems.Definition(
      0x100 + 255 * 12,
      GroundItems.HookDefinition(0x1D_3740, [0x55, 0x8B, 0xEC, 0x6A, 0xFF], 157, builders.collector),
      GroundItems.HookDefinition(0x1C_E280, [0x55, 0x8B, 0xEC, 0x83, 0xEC, 0x1C], 186, builders.frame),
      GroundItems.HookDefinition(0x06_7C10, [0x55, 0x8B, 0xEC, 0x6A, 0xFF], 84, builders.keyDown),
      GroundItems.HookDefinition(0x06_7E30, [0x55, 0x8B, 0xEC, 0x6A, 0xFF], 84, builders.keyUp),
      0x1E_487D, SELECTOR, [0x02_7380, 0x1D_3190, 0x14_9F60, 0x28_B1AC])
  }

  function Client(builders: Builders): Catalog {
    Catalog(DEFAULTS, ALLOW_MULTIPLE, COMMAND_LINE_ENDPOINT, DISABLE_FALLBACK, SKIP_EXCHANGE_ALERTS, SKIP_INTRO,
            SKIP_NOTICE, GroundItemReveal(builders), BOOTSTRAP)
  }

  /** Every definition is one that resolving accepts. */
  lemma ClientIsValid(builders: Builders, selection: Selection, defaults: bool)
    ensures forall definition :: definition in Selected(Client(builders), selection, defaults) ==> ValidDefinition(definition)
    ensures GroundItems.ValidDefinition(GroundItemReveal(builders))
    ensures BootstrapPatch.CoversCalls(BOOTSTRAP)
  {
    PlainPatchesAreValid();
    AlertsAreValid();
  }

  lemma PlainPatchesAreValid()
    ensures forall definition ::
              || definition in DEFAULTS || definition in ALLOW_MULTIPLE || definition in COMMAND_LINE_ENDPOINT
              || definition in DISABLE_FALLBACK || definition in SKIP_INTRO ==>
                ValidDefinition(definition)
  {
  }

  lemma AlertsAreValid()
    ensures forall definition :: definition in SKIP_NOTICE || definition in SKIP_EXCHANGE_ALERTS ==> ValidDefinition(definition)
  {
  }

  // ----- no two ranges of a plan overlap -----

  /** What each option of a plan writes, in the plan's order. */
  function Group(image: Address, option: nat): seq<Range> {
    match option
    case 0 => [Range(image + 0x1F_36F1, 2)]
    case 1 => [Range(image + 0x17_A7D9, 2)]
    case 2 => [Range(image + 0x03_2253, 5), Range(image + 0x16_55F4, 10)]
    case 3 => [Range(image + 0x06_AA81, 12), Range(image + 0x06_AC57, 12)]
    case 4 => [Range(image + 0x0A_CA85, 2)]
    case 5 => [Range(image + 0x0B_897C, 2), Range(image + 0x0B_8ACF, 2), Range(image + 0x0B_7BED, 2), Range(image + 0x16_4855, 5)]
    case 6 => [Range(image + 0x1D_3740, 5), Range(image + 0x1C_E280, 6), Range(image + 0x06_7C10, 5), Range(image + 0x06_7E30, 5)]
    case 7 => [Range(image + 0x16_495D, 5), Range(image + 0x16_4B29, 5), Range(image + 0x17_993A, 5)]
    case _ => []
  }

  lemma GroupIsDisjoint(image: Address, option: nat)
    ensures Disjoint(Group(image, option))
  {
  }

  lemma GroupsApart(image: Address, first: nat, second: nat)
    requires first < second
    ensures AllApart(Group(image, first), Group(image, second))
  {
  }

  /** The ranges of the chosen options among the first `n`. */
  function Chosen(image: Address, options: seq<bool>, n: nat): seq<Range>
    requires n <= |options|
  {
    if n == 0 then [] else Chosen(image, options, n - 1) + (if options[n - 1] then Group(image, n - 1) else [])
  }

  lemma JoinDisjoint(left: seq<Range>, right: seq<Range>)
    requires Disjoint(left) && Disjoint(right) && AllApart(left, right)
    ensures Disjoint(left + right)
  {
    var both := left + right;
    forall i, j | 0 <= i < j < |both|
      ensures both[i].Apart(both[j])
    {
      if i < |left| && j >= |left| {
        assert left[i].Apart(right[j - |left|]);
      } else if i >= |left| {
        assert right[i - |left|].Apart(right[j - |left|]);
      } else {
        assert left[i].Apart(left[j]);
      }
    }
  }

  lemma JoinApart(left: seq<Range>, right: seq<Range>, other: seq<Range>)
    requires AllApart(left, other) && AllApart(right, other)
    ensures AllApart(left + right, other)
  {
  }

  lemma {:induction false} ChosenApart(image: Address, options: seq<bool>, n: nat, other: nat)
    requires n <= |options| && n <= other
    ensures AllApart(Chosen(image, options, n), Group(image, other))
    decreases n
  {
    if n > 0 {
      ChosenApart(image, options, n - 1, other);
      GroupsApart(image, n - 1, other);
      JoinApart(Chosen(image, options, n - 1), if options[n - 1] then Group(image, n - 1) else [], Group(image, other));
    }
  }

  lemma {:induction false} ChosenDisjoint(image: Address, options: seq<bool>, n: nat)
    requires n <= |options|
    ensures Disjoint(Chosen(image, options, n))
    decreases n
  {
    if n > 0 {
      ChosenDisjoint(image, options, n - 1);
      ChosenApart(image, options, n - 1, n - 1);
      GroupIsDisjoint(image, n - 1);
      JoinDisjoint(Chosen(image, options, n - 1), if options[n - 1] then Group(image, n - 1) else []);
    }
  }

  function Written(definitions: seq<Definition>, image: Address): (ranges: seq<Range>)
    ensures |ranges| == |definitions|
    ensures forall i :: 0 <= i < |ranges| ==>
              ranges[i] == Range(image + definitions[i].rva, |definitions[i].replacement|)
  {
    Ranges(Replacements(definitions, image))
  }

  lemma WrittenJoins(left: seq<Definition>, right: seq<Definition>, image: Address)
    ensures Written(left + right, image) == Written(left, image) + Written(right, image)
  {
  }

  lemma GroupsAreWritten(image: Address)
    ensures Written(DEFAULTS, image) == Group(image, 0) && Written(ALLOW_MULTIPLE, image) == Group(image, 1)
    ensures Written(COMMAND_LINE_ENDPOINT + DISABLE_FALLBACK, image) == Group(image, 2)
    ensures Written(SKIP_EXCHANGE_ALERTS, image) == Group(image, 3)
    ensures Written(SKIP_INTRO, image) == Group(image, 4) && Written(SKIP_NOTICE, image) == Group(image, 5)
    ensures BootstrapPatch.SitesAt(BOOTSTRAP, image) == Group(image, 7)
  {
  }

  lemma HooksAreWritten(builders: Builders, image: Address)
    ensures Ranges(GroundItems.Sites(GroundItemReveal(builders), image)) == Group(image, 6)
  {
  }

  function Options(selection: Selection, defaults: bool): seq<bool> {
    [defaults, selection.allowMultiple, selection.commandLineEndpoint, selection.skipExchangeAlerts, selection.skipIntro,
     selection.skipNotice, selection.showItemsWithAlt, defaults]
  }

  function If(condition: bool, definitions: seq<Definition>): seq<Definition> {
    if condition then definitions else []
  }

  /** The plain patches of a plan, joined option by option. */
  lemma PlainPlan(builders: Builders, selection: Selection, defaults: bool, image: Address)
    ensures Written(Selected(Client(builders), selection, defaults), image) ==
            Chosen(image, Options(selection, defaults), 6)
  {
    var options := Options(selection, defaults);
    GroupsAreWritten(image);
    var d0 := If(defaults, DEFAULTS);
    var d1 := If(selection.allowMultiple, ALLOW_MULTIPLE);
    var d2 := If(selection.commandLineEndpoint, COMMAND_LINE_ENDPOINT + DISABLE_FALLBACK);
    var d3 := If(selection.skipExchangeAlerts, SKIP_EXCHANGE_ALERTS);
    var d4 := If(selection.skipIntro, SKIP_INTRO);
    var d5 := If(selection.skipNotice, SKIP_NOTICE);
    assert Selected(Client(builders), selection, defaults) == d0 + d1 + d2 + d3 + d4 + d5;
    WrittenStarts(d0, image, options);
    WrittenGrows(d0, d1, image, options, 1);
    WrittenGrows(d0 + d1, d2, image, options, 2);
    WrittenGrows(d0 + d1 + d2, d3, image, options, 3);
    WrittenGrows(d0 + d1 + d2 + d3, d4, image, options, 4);
    WrittenGrows(d0 + d1 + d2 + d3 + d4, d5, image, options, 5);
  }

  lemma WrittenStarts(definitions: seq<Definition>, image: Address, options: seq<bool>)
    requires |options| == 8 && Written(definitions, image) == if options[0] then Group(image, 0) else []
    ensures Written(definitions, image) == Chosen(image, options, 1)
  {
    assert Chosen(image, options, 0) == [];
  }

  lemma WrittenGrows(before: seq<Definition>, more: seq<Definition>, image: Address, options: seq<bool>, n: nat)
    requires n < 8 == |options| && Written(before, image) == Chosen(image, options, n)
    requires Written(more, image) == if options[n] then Group(image, n) else []
    ensures Written(before + more, image) == Chosen(image, options, n + 1)
  {
    WrittenJoins(before, more, image);
  }

  /** For every selection and every image base, the plan is well separated. */
  lemma ClientIsWellSeparated(builders: Builders, selection: Selection, defaults: bool, image: Address)
    ensures WellSeparated(Client(builders), selection, defaults, image)
  {
    var options := Options(selection, defaults);
    PlainPlan(builders, selection, defaults, image);
    HooksAreWritten(builders, image);
    GroupsAreWritten(image);
    var ground, calls := GroundRanges(Client(builders), selection, image), BootstrapRanges(Client(builders), defaults, image);
    assert Chosen(image, options, 7) == Chosen(image, options, 6) + ground;
    assert Chosen(image, options, 8) == Chosen(image, options, 7) + calls;
    assert PlanRanges(Client(builders), selection, defaults, image) == Chosen(image, options, 8);
    ChosenDisjoint(image, options, 8);
    ClientIsValid(builders, selection, defaults);
  }

  // ----- the calls that are redirected -----

  /** The bytes expected at a call site are the call to `target`. */
  lemma ExpectedCall(m: Memory, image: Address, site: BootstrapPatch.CallSite, target: u32)
    requires image + site.rva + 5 < ADDRESS_LIMIT && image + target < ADDRESS_LIMIT
    requires -0x8000_0000 <= target - (site.rva + 5) <= 0x7FFF_FFFF
    requires site.expected == [NEAR_CALL] + Bytes32((target - (site.rva + 5)) % ADDRESS_LIMIT)
    requires Holds(m, image + site.rva, site.expected)
    ensures CallsAt(m, image + site.rva, image + target)
  {
    assert image + target - (image + site.rva + 5) == target - (site.rva + 5);
  }

  /** What the client holds at the three sites before patching: the two calls enter the
      encryption, and the late one the reset. */
  lemma ClientCallsDecode(m: Memory, image: Address)
    requires BootstrapPatch.InReach(BOOTSTRAP, image) && image + 0x17_993F < ADDRESS_LIMIT
    requires Present(m, BootstrapPatch.Checks(BOOTSTRAP, image))
    ensures var patch := BootstrapPatch.At(BOOTSTRAP, image);
            && CallsAt(m, patch.binaryCall, patch.encryptPacket) && CallsAt(m, patch.textCall, patch.encryptPacket)
            && CallsAt(m, patch.lateReset, patch.resetSequence)
  {
    var checks := BootstrapPatch.Checks(BOOTSTRAP, image);
    assert Holds(m, checks[0].address, checks[0].bytes) && Holds(m, checks[1].address, checks[1].bytes)
        && Holds(m, checks[2].address, checks[2].bytes);
    assert Bytes32(0x364E) == [0x4E, 0x36, 0x00, 0x00];
    assert Bytes32(0x3482) == [0x82, 0x34, 0x00, 0x00];
    assert (0x16_3DE0 - 0x17_993F) % ADDRESS_LIMIT == 0xFFFE_A4A1;
    assert Bytes32(0xFFFE_A4A1) == [0xA1, 0xA4, 0xFE, 0xFF];
    ExpectedCall(m, image, BOOTSTRAP.binaryCall, BOOTSTRAP.encryptPacketRva);
    ExpectedCall(m, image, BOOTSTRAP.textCall, BOOTSTRAP.encryptPacketRva);
    ExpectedCall(m, image, BOOTSTRAP.lateReset, BOOTSTRAP.resetSequenceRva);
  }

  // ----- the transaction on this client -----

  /** For any stub and state below the ceiling, the builder's code fills at most the
      template's length. */
  ghost predicate FillsIn(build: Build, length: nat, image: Address, ceiling: nat) {
    forall stub: Address, state: Address :: stub < ceiling && state < ceiling ==>
      build(image, stub, state).Ok? && 0 < |build(image, stub, state).value| <= length
  }

  /** A client that lies below two gibibytes, as does all that the system allocates. */
  ghost predicate LowClient(builders: Builders, image: Address, ceiling: nat) {
    && image + 0x28_B1AC < 0x8000_0000 && ceiling <= 0x8000_0000
    && FillsIn(builders.collector, 157, image, ceiling) && FillsIn(builders.frame, 186, image, ceiling)
    && FillsIn(builders.keyDown, 84, image, ceiling) && FillsIn(builders.keyUp, 84, image, ceiling)
  }

  lemma LowClientIsEmittable(builders: Builders, selection: Selection, defaults: bool, image: Address, ceiling: nat)
    requires LowClient(builders, image, ceiling)
    ensures Emittable(Client(builders), selection, defaults, image, ceiling)
  {
    var hooked := GroundItemReveal(builders);
    forall i, stub: Address, state: Address | 0 <= i < 4 && stub < ceiling && state < ceiling
      ensures var code := hooked.Hooks()[i].build(image, stub, state);
              code.Ok? && 0 < |code.value| <= hooked.Hooks()[i].templateLength
    {
    }
  }

  /** Patching the supported client: no condition on the definitions is left. */
  method PatchClient(target: Target, located: Result<Address, ErrorKind>, builders: Builders, selection: Selection, defaults: bool)
    returns (r: Outcome, ghost installed: GroundItems.Installation, ghost stub: Address)
    modifies target
    ensures !Selects(selection, defaults) ==> r == Ok(()) && unchanged(target)
    ensures Selects(selection, defaults)
            && (located.Err?
                || !Acceptable(Client(builders), selection, defaults, located.value, old(target.memory), old(target.committed))) ==>
              r.Err? && unchanged(target)
    ensures located.Ok? ==>
              SameOutside(old(target.committed), old(target.memory), target.memory,
                          PlanRanges(Client(builders), selection, defaults, located.value))
    ensures located.Ok? && selection.showItemsWithAlt ==>
              NoDanglingHook(Client(builders), located.value, installed, old(target.memory), target.memory, target.committed)
    ensures Selects(selection, defaults) && r.Ok? ==>
              Applied(Client(builders), selection, defaults, located.value, installed, stub, target.memory, target.committed)
    ensures target.reliable && !target.refused && Selects(selection, defaults) && located.Ok?
            && LowClient(builders, located.value, target.ceiling) ==>
              (r.Ok? <==>
               Acceptable(Client(builders), selection, defaults, located.value, old(target.memory), old(target.committed)))
  {
    if located.Ok? {
      if LowClient(builders, located.value, target.ceiling) {
        LowClientIsEmittable(builders, selection, defaults, located.value, target.ceiling);
      }
      ClientIsWellSeparated(builders, selection, defaults, located.value);
    }
    r, installed, stub := Apply(target, located, Client(builders), selection, defaults);
  }

  /** After a successful patch with the defaults, a packet going through either
      encryption call reaches the encryption as it did in the client before, the
      sequence having been reset first if and only if it is a bootstrap packet. */
  lemma PatchedClientIsTransparent(builders: Builders, selection: Selection, image: Address, before: Memory,
                                   installed: GroundItems.Installation, stub: Address, committed: set<int>,
                                   cpu: Cpu, reset: Routine)
    returns (end: Cpu, direct: Cpu)
    requires Validated(Client(builders), selection, true, image, before) && image + 0x17_993F < ADDRESS_LIMIT
    requires Applied(Client(builders), selection, true, image, installed, stub, cpu.memory, committed)
    requires cpu.eip == image + 0x16_495D || cpu.eip == image + 0x16_4B29
    requires cpu.stack != [] && StackBalanced(reset, stub)
    requires Routing(stub, image + 0x16_3DE0, image + 0x16_7FB0).Outside(image + 0x16_3DE0)
    requires Routing(stub, image + 0x16_3DE0, image + 0x16_7FB0).Outside(image + 0x16_7FB0)
    ensures Leads(reset, Routing(stub, image + 0x16_3DE0, image + 0x16_7FB0), cpu, 1 + StubSteps(CarriesBootstrap(cpu)), end)
    ensures Execute(cpu.(memory := before)) == Some(direct)
    ensures Entry(end) == Entry(direct.(resets := direct.resets + (if CarriesBootstrap(cpu) then 1 else 0)))
  {
    ClientCallsDecode(before, image);
    end, direct := BootstrapPatch.InstalledCallIsTransparent(BootstrapPatch.At(BOOTSTRAP, image), stub, cpu, committed, before, reset);
  }
}
