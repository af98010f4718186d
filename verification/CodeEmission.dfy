/** The machine code the loader writes into the client, and what the processor makes
    of it. Addresses are the 32-bit client's. */
module CodeEmission {
  import opened Words
  import opened Wrappers

  datatype ErrorKind = Internal | RemoteOperationFailed | LaunchFailed | AttachFailed

  const ADDRESS_LIMIT := 0x1_0000_0000
  const NEAR_CALL: byte := 0xE8
  const NEAR_JUMP: byte := 0xE9
  const NO_OPERATION: byte := 0x90
  const BOOTSTRAP_STUB_SIZE := 21

  type Address = u32
  type Memory = int -> byte

  /** `memory` has `bytes` at `address`. */
  ghost predicate Holds(memory: Memory, address: int, bytes: seq<byte>) {
    forall i :: 0 <= i < |bytes| ==> memory(address + i) == bytes[i]
  }

  function CheckedOffset(address: Address, offset: nat): Result<Address, ErrorKind> {
    if address + offset < ADDRESS_LIMIT then Ok(address + offset) else Err(Internal)
  }

  function Rel32(next: int, target: int): Result<seq<byte>, ErrorKind> {
    var displacement := target - next;
    if !(-0x8000_0000 <= displacement <= 0x7FFF_FFFF) then Err(RemoteOperationFailed)
    else Ok(Bytes32(displacement % ADDRESS_LIMIT))
  }

  function Word(memory: Memory, address: int): u32 {
    LittleEndian32(memory(address), memory(address + 1), memory(address + 2), memory(address + 3))
  }

  /** Where a relative branch goes: the processor adds modulo the word size. */
  function Landing(next: int, displacement: u32): Address {
    (next + displacement) % ADDRESS_LIMIT
  }

  /** A branch is emitted exactly when the target is in signed reach, and then the
      processor lands on the target. */
  lemma Rel32Lands(memory: Memory, next: int, target: Address)
    ensures Rel32(next, target).Ok? <==> -0x8000_0000 <= target - next < 0x8000_0000
    ensures Rel32(next, target).Ok? ==> |Rel32(next, target).value| == 4
    ensures Rel32(next, target).Ok? && Holds(memory, next - 4, Rel32(next, target).value) ==>
              Landing(next, Word(memory, next - 4)) == target
  {
    var r := Rel32(next, target);
    if r.Ok? {
      var displacement := (target - next) % ADDRESS_LIMIT;
      Bytes32RoundTrip(displacement);
      if Holds(memory, next - 4, r.value) {
        assert memory(next - 4 + 0) == r.value[0] && memory(next - 4 + 1) == r.value[1];
        assert memory(next - 4 + 2) == r.value[2] && memory(next - 4 + 3) == r.value[3];
        assert Word(memory, next - 4) == displacement;
        WrapsBack(next, target);
      }
    }
  }

  lemma WrapsBack(next: int, target: Address)
    ensures (next + (target - next) % ADDRESS_LIMIT) % ADDRESS_LIMIT == target
  {
    var difference := target - next;
    var quotient := difference / ADDRESS_LIMIT;
    assert difference == quotient * ADDRESS_LIMIT + difference % ADDRESS_LIMIT;
    assert next + difference % ADDRESS_LIMIT == target - quotient * ADDRESS_LIMIT;
  }

  /** A jump that fills out the `length` bytes it replaces. */
  function JumpHook(address: Address, stub: Address, length: nat): Result<seq<byte>, ErrorKind> {
    if length < 5 then Err(Internal)
    else
      var next :- CheckedOffset(address, 5);
      var displacement :- Rel32(next, stub);
      Ok([NEAR_JUMP] + displacement + seq(length - 5, _ => NO_OPERATION))
  }

  /** The near call the loader redirects. */
  function NearCall(address: Address, stub: Address): Result<seq<byte>, ErrorKind> {
    var next :- CheckedOffset(address, 5);
    var displacement :- Rel32(next, stub);
    Ok([NEAR_CALL] + displacement)
  }

  /** Reset the sequence before a bootstrap packet, then go on to the encryption. */
  function BootstrapStub(stub: Address, resetSequence: Address, encryptPacket: Address): Result<seq<byte>, ErrorKind> {
    var toReset :- Rel32(stub + 15, resetSequence);
    var toEncrypt :- Rel32(stub + 21, encryptPacket);
    Ok([0x8B, 0x44, 0x24, 0x04, 0x80, 0x38, 0x62, 0x75, 0x07, 0x51, NEAR_CALL]
       + toReset + [0x59, NEAR_JUMP] + toEncrypt)
  }

  /** A relative branch behind `next` gets there. */
  predicate Reaches(next: int, target: int) {
    -0x8000_0000 <= target - next <= 0x7FFF_FFFF
  }

  /** A jump hook is emitted exactly for a place at least as long as a near jump, whose
      stub is in reach behind it. */
  lemma JumpHookExactly(address: Address, stub: Address, length: nat)
    ensures JumpHook(address, stub, length).Ok? <==>
              length >= 5 && address + 5 < ADDRESS_LIMIT && Reaches(address + 5, stub)
  {
  }

  lemma NearCallExactly(address: Address, stub: Address)
    ensures NearCall(address, stub).Ok? <==> address + 5 < ADDRESS_LIMIT && Reaches(address + 5, stub)
  {
  }

  /** The bootstrap stub exactly for a place that both its targets can be reached from. */
  lemma BootstrapStubExactly(stub: Address, resetSequence: Address, encryptPacket: Address)
    ensures BootstrapStub(stub, resetSequence, encryptPacket).Ok? <==>
              Reaches(stub + 15, resetSequence) && Reaches(stub + 21, encryptPacket)
    ensures BootstrapStub(stub, resetSequence, encryptPacket).Ok? ==>
              |BootstrapStub(stub, resetSequence, encryptPacket).value| == BOOTSTRAP_STUB_SIZE
  {
  }

  /** Below two gibibytes everything is in reach of everything. */
  lemma LowAddressesReach(next: int, target: int)
    requires 0 <= next <= 0x8000_0000 && 0 <= target < 0x8000_0000
    ensures Reaches(next, target)
  {
  }

  // ----- the processor -----

  const BOOTSTRAP_COMMAND: byte := 0x62

  /** The registers the stub uses, the stack as words with its top first, and how
      often the reset routine was entered. */
  datatype Cpu = Cpu(eip: Address, eax: u32, ecx: u32, equal: bool, stack: seq<u32>, memory: Memory, resets: nat)

  datatype Instruction =
    | LoadArgument
    | ComparePacket(value: byte)
    | JumpUnlessEqual(distance: byte)
    | PushCounter
    | PopCounter
    | Call(displacement: u32)
    | Jump(displacement: u32)
    | Nothing
    | Unknown
  {
    function Length(): nat {
      if LoadArgument? then 4
      else if ComparePacket? then 3
      else if JumpUnlessEqual? then 2
      else if Call? || Jump? then 5
      else 1
    }
  }

  function Decode(m: Memory, a: Address): Instruction {
    if m(a) == 0x8B && m(a + 1) == 0x44 && m(a + 2) == 0x24 && m(a + 3) == 0x04 then LoadArgument
    else if m(a) == 0x80 && m(a + 1) == 0x38 then ComparePacket(m(a + 2))
    else if m(a) == 0x75 && m(a + 1) < 0x80 then JumpUnlessEqual(m(a + 1))
    else if m(a) == 0x51 then PushCounter
    else if m(a) == 0x59 then PopCounter
    else if m(a) == NEAR_CALL then Call(Word(m, a + 1))
    else if m(a) == NEAR_JUMP then Jump(Word(m, a + 1))
    else if m(a) == NO_OPERATION then Nothing
    else Unknown
  }

  /** One instruction; None is a fault or an instruction outside this fragment. */
  function Execute(cpu: Cpu): Option<Cpu> {
    var instruction := Decode(cpu.memory, cpu.eip);
    var next := cpu.eip + instruction.Length();
    if next >= ADDRESS_LIMIT then None
    else
      var after := cpu.(eip := next);
      match instruction
      case LoadArgument => if |cpu.stack| < 2 then None else Some(after.(eax := cpu.stack[1]))
      case ComparePacket(value) => Some(after.(equal := cpu.memory(cpu.eax) == value))
      case JumpUnlessEqual(distance) =>
        if cpu.equal then Some(after)
        else if next + distance >= ADDRESS_LIMIT then None else Some(after.(eip := next + distance))
      case PushCounter => Some(after.(stack := [cpu.ecx] + cpu.stack))
      case PopCounter =>
        if cpu.stack == [] then None else Some(after.(ecx := cpu.stack[0], stack := cpu.stack[1..]))
      case Call(displacement) => Some(after.(eip := Landing(next, displacement), stack := [next] + cpu.stack))
      case Jump(displacement) => Some(after.(eip := Landing(next, displacement)))
      case Nothing => Some(after)
      case Unknown => None
  }

  type Routine = Cpu -> Cpu

  /** What the client's reset routine may do: anything to the registers and to memory
      outside the stub, but it returns and leaves the stack as it found it. */
  ghost predicate StackBalanced(reset: Routine, stub: Address) {
    forall cpu: Cpu :: cpu.stack != [] ==>
      var after := reset(cpu);
      && after.eip == cpu.stack[0]
      && after.stack == cpu.stack[1..]
      && after.resets == cpu.resets
      && forall a :: stub <= a < stub + BOOTSTRAP_STUB_SIZE ==> after.memory(a) == cpu.memory(a)
  }

  /** A routine that only returns is one such. */
  lemma ReturningIsStackBalanced(stub: Address)
    ensures StackBalanced((cpu: Cpu) => if cpu.stack == [] then cpu else cpu.(eip := cpu.stack[0], stack := cpu.stack[1..]), stub)
  {
  }

  /** Where the stub lies and what it branches to. */
  datatype Routing = Routing(stub: Address, resetSequence: Address, encryptPacket: Address) {
    ghost predicate Outside(a: Address) {
      !(stub <= a < stub + BOOTSTRAP_STUB_SIZE)
    }
  }

  /** One instruction, or the whole reset routine when that is what comes next. */
  function Step(reset: Routine, routing: Routing, cpu: Cpu): Option<Cpu> {
    if cpu.eip == routing.resetSequence then Some(reset(cpu.(resets := cpu.resets + 1)))
    else Execute(cpu)
  }

  /** `count` steps short of the encryption routine, none of which may fault. */
  function StepsTo(reset: Routine, routing: Routing, cpu: Cpu, count: nat): Option<Cpu>
    decreases count
  {
    if count == 0 then Some(cpu)
    else if cpu.eip == routing.encryptPacket then None
    else
      match Step(reset, routing, cpu)
      case None => None
      case Some(after) => StepsTo(reset, routing, after, count - 1)
  }

  /** `count` steps take the processor from one state to another. */
  ghost predicate Leads(reset: Routine, routing: Routing, from: Cpu, count: nat, to: Cpu) {
    forall n: nat :: StepsTo(reset, routing, from, n + count) == StepsTo(reset, routing, to, n)
  }

  lemma StepLeads(reset: Routine, routing: Routing, from: Cpu, to: Cpu)
    requires from.eip != routing.encryptPacket && Step(reset, routing, from) == Some(to)
    ensures Leads(reset, routing, from, 1, to)
  {
  }

  lemma LeadsOn(reset: Routine, routing: Routing, from: Cpu, first: nat, middle: Cpu, second: nat, to: Cpu)
    requires Leads(reset, routing, from, first, middle) && Leads(reset, routing, middle, second, to)
    ensures Leads(reset, routing, from, first + second, to)
  {
    forall n: nat
      ensures StepsTo(reset, routing, from, n + (first + second)) == StepsTo(reset, routing, to, n)
    {
      assert StepsTo(reset, routing, from, (n + second) + first) == StepsTo(reset, routing, middle, n + second);
    }
  }

  // ----- hooks -----

  lemma NextWord(m: Memory, address: int, bytes: seq<byte>, offset: nat, word: seq<byte>)
    requires Holds(m, address, bytes) && |word| == 4 && offset + 4 <= |bytes| && bytes[offset..offset + 4] == word
    ensures Holds(m, address + offset, word)
  {
    forall i | 0 <= i < 4
      ensures m(address + offset + i) == word[i]
    {
      assert m(address + (offset + i)) == bytes[offset + i] == bytes[offset..offset + 4][i];
    }
  }

  /** A written hook keeps the length it replaces, takes the processor to the stub
      with nothing else changed, and leaves only no-operations behind it. */
  lemma JumpHookLands(cpu: Cpu, stub: Address, length: nat)
    requires JumpHook(cpu.eip, stub, length).Ok? && Holds(cpu.memory, cpu.eip, JumpHook(cpu.eip, stub, length).value)
    ensures |JumpHook(cpu.eip, stub, length).value| == length
    ensures Execute(cpu) == Some(cpu.(eip := stub))
    ensures forall a :: cpu.eip + 5 <= a < cpu.eip + length ==> cpu.memory(a) == NO_OPERATION
  {
    var hook := JumpHook(cpu.eip, stub, length).value;
    var word := Rel32(cpu.eip + 5, stub).value;
    Rel32Lands(cpu.memory, cpu.eip + 5, stub);
    assert hook[1..5] == word;
    NextWord(cpu.memory, cpu.eip, hook, 1, word);
    assert cpu.memory(cpu.eip + 0) == hook[0];
    forall a | cpu.eip + 5 <= a < cpu.eip + length
      ensures cpu.memory(a) == NO_OPERATION
    {
      assert cpu.memory(cpu.eip + (a - cpu.eip)) == hook[a - cpu.eip];
    }
  }

  /** The loader's call instruction to `target` stands at `site`. */
  ghost predicate CallsAt(m: Memory, site: Address, target: Address) {
    NearCall(site, target).Ok? && Holds(m, site, NearCall(site, target).value)
  }

  lemma NearCallLands(cpu: Cpu, stub: Address)
    requires CallsAt(cpu.memory, cpu.eip, stub)
    ensures |NearCall(cpu.eip, stub).value| == 5
    ensures cpu.eip + 5 < ADDRESS_LIMIT
    ensures Execute(cpu) == Some(cpu.(eip := stub, stack := [cpu.eip + 5] + cpu.stack))
  {
    var call := NearCall(cpu.eip, stub).value;
    var word := Rel32(cpu.eip + 5, stub).value;
    Rel32Lands(cpu.memory, cpu.eip + 5, stub);
    assert call[1..5] == word;
    NextWord(cpu.memory, cpu.eip, call, 1, word);
    assert cpu.memory(cpu.eip + 0) == call[0];
  }

  // ----- the bootstrap stub -----

  /** The stub is loaded and its two branches are in reach. */
  ghost predicate StubLoaded(m: Memory, routing: Routing) {
    && routing.stub + BOOTSTRAP_STUB_SIZE < ADDRESS_LIMIT
    && var code := BootstrapStub(routing.stub, routing.resetSequence, routing.encryptPacket);
       code.Ok? && Holds(m, routing.stub, code.value)
  }

  /** The instructions the stub holds. */
  ghost predicate StubReads(m: Memory, routing: Routing) {
    && routing.stub + BOOTSTRAP_STUB_SIZE < ADDRESS_LIMIT
    && Decode(m, routing.stub) == LoadArgument
    && Decode(m, routing.stub + 4) == ComparePacket(BOOTSTRAP_COMMAND)
    && Decode(m, routing.stub + 7) == JumpUnlessEqual(7)
    && Decode(m, routing.stub + 9) == PushCounter
    && Decode(m, routing.stub + 10).Call?
    && Landing(routing.stub + 15, Decode(m, routing.stub + 10).displacement) == routing.resetSequence
    && Decode(m, routing.stub + 15) == PopCounter
    && Decode(m, routing.stub + 16).Jump?
    && Landing(routing.stub + 21, Decode(m, routing.stub + 16).displacement) == routing.encryptPacket
  }

  lemma StubDecodes(m: Memory, routing: Routing)
    requires StubLoaded(m, routing)
    ensures |BootstrapStub(routing.stub, routing.resetSequence, routing.encryptPacket).value| == BOOTSTRAP_STUB_SIZE
    ensures StubReads(m, routing)
  {
    var stub := routing.stub;
    var bytes := BootstrapStub(stub, routing.resetSequence, routing.encryptPacket).value;
    Rel32Lands(m, stub + 15, routing.resetSequence);
    Rel32Lands(m, stub + 21, routing.encryptPacket);
    StubHeadDecodes(m, stub, bytes);
    StubTailDecodes(m, stub, bytes, Rel32(stub + 15, routing.resetSequence).value, Rel32(stub + 21, routing.encryptPacket).value);
  }

  lemma StubTailDecodes(m: Memory, stub: Address, bytes: seq<byte>, toReset: seq<byte>, toEncrypt: seq<byte>)
    requires Holds(m, stub, bytes) && |bytes| == BOOTSTRAP_STUB_SIZE && stub + BOOTSTRAP_STUB_SIZE < ADDRESS_LIMIT
    requires |toReset| == 4 && |toEncrypt| == 4 && bytes[11..] == toReset + [0x59, NEAR_JUMP] + toEncrypt
    ensures Holds(m, stub + 11, toReset) && Holds(m, stub + 17, toEncrypt)
    ensures Decode(m, stub + 15) == PopCounter && Decode(m, stub + 16) == Jump(Word(m, stub + 17))
  {
    var tail := bytes[11..];
    assert bytes[11..15] == tail[..4] == toReset;
    assert bytes[17..21] == tail[6..] == toEncrypt;
    NextWord(m, stub, bytes, 11, toReset);
    NextWord(m, stub, bytes, 17, toEncrypt);
    assert m(stub + 15) == bytes[15] == tail[4];
    assert m(stub + 16) == bytes[16] == tail[5];
  }

  lemma StubHeadDecodes(m: Memory, stub: Address, bytes: seq<byte>)
    requires Holds(m, stub, bytes) && |bytes| >= 11 && stub + BOOTSTRAP_STUB_SIZE < ADDRESS_LIMIT
    requires bytes[..11] == [0x8B, 0x44, 0x24, 0x04, 0x80, 0x38, 0x62, 0x75, 0x07, 0x51, NEAR_CALL]
    ensures Decode(m, stub) == LoadArgument
    ensures Decode(m, stub + 4) == ComparePacket(BOOTSTRAP_COMMAND)
    ensures Decode(m, stub + 7) == JumpUnlessEqual(7)
    ensures Decode(m, stub + 9) == PushCounter
    ensures Decode(m, stub + 10) == Call(Word(m, stub + 11))
  {
    var head := bytes[..11];
    assert m(stub + 0) == head[0] && m(stub + 1) == head[1] && m(stub + 2) == head[2] && m(stub + 3) == head[3];
    assert m(stub + 4) == head[4] && m(stub + 5) == head[5] && m(stub + 6) == head[6] && m(stub + 7) == head[7];
    assert m(stub + 8) == head[8] && m(stub + 9) == head[9] && m(stub + 10) == head[10];
  }

  lemma ReadsStay(m: Memory, after: Memory, routing: Routing)
    requires StubReads(m, routing)
    requires forall a :: routing.stub <= a < routing.stub + BOOTSTRAP_STUB_SIZE ==> after(a) == m(a)
    ensures StubReads(after, routing)
  {
  }

  /** A processor in the stub, whose two targets lie elsewhere. */
  ghost predicate InStub(cpu: Cpu, routing: Routing) {
    && StubReads(cpu.memory, routing)
    && !routing.Outside(cpu.eip) && RoutesOut(routing)
  }

  ghost predicate IsBootstrap(cpu: Cpu)
    requires |cpu.stack| >= 2
  {
    cpu.memory(cpu.stack[1]) == BOOTSTRAP_COMMAND
  }

  /** The argument is loaded and compared. */
  lemma StubCompares(cpu: Cpu, routing: Routing, reset: Routine) returns (compared: Cpu)
    requires InStub(cpu, routing) && cpu.eip == routing.stub && |cpu.stack| >= 2
    ensures Leads(reset, routing, cpu, 2, compared)
    ensures compared == cpu.(eip := routing.stub + 7, eax := cpu.stack[1], equal := IsBootstrap(cpu))
  {
    var loaded := cpu.(eip := routing.stub + 4, eax := cpu.stack[1]);
    compared := loaded.(eip := routing.stub + 7, equal := IsBootstrap(cpu));
    StepLeads(reset, routing, cpu, loaded);
    StepLeads(reset, routing, loaded, compared);
    LeadsOn(reset, routing, cpu, 1, loaded, 1, compared);
  }

  /** After the test: the processor is at the push for a bootstrap packet, and at the
      final jump for any other. */
  lemma StubTests(cpu: Cpu, routing: Routing, reset: Routine) returns (tested: Cpu)
    requires InStub(cpu, routing) && cpu.eip == routing.stub && |cpu.stack| >= 2
    ensures Leads(reset, routing, cpu, 3, tested)
    ensures tested == cpu.(eip := routing.stub + (if IsBootstrap(cpu) then 9 else 16),
                           eax := cpu.stack[1], equal := IsBootstrap(cpu))
  {
    var compared := StubCompares(cpu, routing, reset);
    tested := compared.(eip := routing.stub + (if IsBootstrap(cpu) then 9 else 16));
    StepLeads(reset, routing, compared, tested);
    LeadsOn(reset, routing, cpu, 2, compared, 1, tested);
  }

  /** The counter register is saved and the reset routine entered. */
  lemma StubCallsReset(cpu: Cpu, routing: Routing, reset: Routine) returns (called: Cpu)
    requires InStub(cpu, routing) && cpu.eip == routing.stub + 9
    ensures Leads(reset, routing, cpu, 2, called)
    ensures called == cpu.(eip := routing.resetSequence, stack := [routing.stub + 15, cpu.ecx] + cpu.stack)
  {
    var pushed := cpu.(eip := routing.stub + 10, stack := [cpu.ecx] + cpu.stack);
    called := cpu.(eip := routing.resetSequence, stack := [routing.stub + 15, cpu.ecx] + cpu.stack);
    assert [routing.stub + 15] + pushed.stack == called.stack;
    StepLeads(reset, routing, cpu, pushed);
    StepLeads(reset, routing, pushed, called);
    LeadsOn(reset, routing, cpu, 1, pushed, 1, called);
  }

  /** The stub's two targets lie outside it and apart. */
  ghost predicate RoutesOut(routing: Routing) {
    && routing.Outside(routing.resetSequence) && routing.Outside(routing.encryptPacket)
    && routing.resetSequence != routing.encryptPacket
  }

  /** The routine returns into the stub, which it has left alone. */
  lemma ResetReturns(called: Cpu, routing: Routing, reset: Routine, counter: u32, stack: seq<u32>) returns (returned: Cpu)
    requires called.eip == routing.resetSequence != routing.encryptPacket
    requires routing.stub + BOOTSTRAP_STUB_SIZE < ADDRESS_LIMIT && called.stack == [routing.stub + 15, counter] + stack
    requires StackBalanced(reset, routing.stub)
    ensures Leads(reset, routing, called, 1, returned)
    ensures returned.eip == routing.stub + 15 && returned.stack == [counter] + stack
    ensures returned.resets == called.resets + 1
    ensures forall a :: routing.stub <= a < routing.stub + BOOTSTRAP_STUB_SIZE ==> returned.memory(a) == called.memory(a)
  {
    returned := reset(called.(resets := called.resets + 1));
    assert called.stack[0] == routing.stub + 15 && called.stack[1..] == [counter] + stack;
    StepLeads(reset, routing, called, returned);
  }

  lemma BackInStub(called: Cpu, returned: Cpu, routing: Routing)
    requires StubReads(called.memory, routing) && RoutesOut(routing) && returned.eip == routing.stub + 15
    requires forall a :: routing.stub <= a < routing.stub + BOOTSTRAP_STUB_SIZE ==> returned.memory(a) == called.memory(a)
    ensures InStub(returned, routing)
  {
    ReadsStay(called.memory, returned.memory, routing);
  }

  lemma StubRestores(cpu: Cpu, routing: Routing, reset: Routine) returns (done: Cpu)
    requires InStub(cpu, routing) && cpu.eip == routing.stub + 15 && cpu.stack != []
    ensures Leads(reset, routing, cpu, 1, done)
    ensures done == cpu.(eip := routing.stub + 16, ecx := cpu.stack[0], stack := cpu.stack[1..])
  {
    done := cpu.(eip := routing.stub + 16, ecx := cpu.stack[0], stack := cpu.stack[1..]);
    StepLeads(reset, routing, cpu, done);
  }

  /** The guarded part of the stub. */
  lemma StubResets(cpu: Cpu, routing: Routing, reset: Routine) returns (done: Cpu)
    requires InStub(cpu, routing) && cpu.eip == routing.stub + 9 && StackBalanced(reset, routing.stub)
    ensures Leads(reset, routing, cpu, 4, done)
    ensures InStub(done, routing) && done.eip == routing.stub + 16
    ensures done.ecx == cpu.ecx && done.stack == cpu.stack && done.resets == cpu.resets + 1
  {
    var called := StubCallsReset(cpu, routing, reset);
    var returned := ResetReturns(called, routing, reset, cpu.ecx, cpu.stack);
    BackInStub(called, returned, routing);
    done := StubRestores(returned, routing, reset);
    LeadsOn(reset, routing, cpu, 2, called, 1, returned);
    LeadsOn(reset, routing, cpu, 3, returned, 1, done);
  }

  lemma StubLeaves(cpu: Cpu, routing: Routing, reset: Routine)
    requires InStub(cpu, routing) && cpu.eip == routing.stub + 16
    ensures Leads(reset, routing, cpu, 1, cpu.(eip := routing.encryptPacket))
  {
    StepLeads(reset, routing, cpu, cpu.(eip := routing.encryptPacket));
  }

  function StubSteps(bootstrap: bool): nat {
    if bootstrap then 8 else 4
  }

  /** The stub always reaches the encryption with the object register, the return
      address and the packet as they were, and enters the reset routine once if the
      packet starts with the bootstrap command and otherwise not at all. */
  lemma StubReachesEncryption(cpu: Cpu, routing: Routing, reset: Routine) returns (end: Cpu)
    requires InStub(cpu, routing) && cpu.eip == routing.stub && |cpu.stack| >= 2
    requires StackBalanced(reset, routing.stub)
    ensures Leads(reset, routing, cpu, StubSteps(IsBootstrap(cpu)), end)
    ensures end.eip == routing.encryptPacket && end.ecx == cpu.ecx && end.stack == cpu.stack
    ensures end.resets == cpu.resets + (if IsBootstrap(cpu) then 1 else 0)
    ensures !IsBootstrap(cpu) ==> end.memory == cpu.memory
  {
    var tested := StubTests(cpu, routing, reset);
    var leaving := tested;
    if IsBootstrap(cpu) {
      leaving := StubResets(tested, routing, reset);
      LeadsOn(reset, routing, cpu, 3, tested, 4, leaving);
    }
    end := leaving.(eip := routing.encryptPacket);
    StubLeaves(leaving, routing, reset);
    LeadsOn(reset, routing, cpu, StubSteps(IsBootstrap(cpu)) - 1, leaving, 1, end);
  }

  /** A processor about to run the call at a redirected site. */
  ghost predicate AtRedirectedCall(cpu: Cpu, routing: Routing) {
    && CallsAt(cpu.memory, cpu.eip, routing.stub)
    && InStub(cpu.(eip := routing.stub), routing)
    && cpu.eip != routing.resetSequence && cpu.eip != routing.encryptPacket
    && cpu.stack != []
  }

  lemma RedirectedCallEnters(cpu: Cpu, routing: Routing, reset: Routine) returns (entered: Cpu)
    requires AtRedirectedCall(cpu, routing)
    ensures cpu.eip + 5 < ADDRESS_LIMIT
    ensures entered == cpu.(eip := routing.stub, stack := [cpu.eip + 5] + cpu.stack)
    ensures InStub(entered, routing) && Leads(reset, routing, cpu, 1, entered)
  {
    NearCallLands(cpu, routing.stub);
    entered := cpu.(eip := routing.stub, stack := [cpu.eip + 5] + cpu.stack);
    StepLeads(reset, routing, cpu, entered);
  }

  ghost predicate CarriesBootstrap(cpu: Cpu)
    requires cpu.stack != []
  {
    cpu.memory(cpu.stack[0]) == BOOTSTRAP_COMMAND
  }

  lemma RedirectedCallReaches(cpu: Cpu, routing: Routing, reset: Routine) returns (end: Cpu)
    requires AtRedirectedCall(cpu, routing) && StackBalanced(reset, routing.stub)
    ensures cpu.eip + 5 < ADDRESS_LIMIT
    ensures Leads(reset, routing, cpu, 1 + StubSteps(CarriesBootstrap(cpu)), end)
    ensures end.eip == routing.encryptPacket && end.ecx == cpu.ecx && end.stack == [cpu.eip + 5] + cpu.stack
    ensures end.resets == cpu.resets + (if CarriesBootstrap(cpu) then 1 else 0)
  {
    var entered := RedirectedCallEnters(cpu, routing, reset);
    assert entered.stack[1] == cpu.stack[0];
    end := StubReachesEncryption(entered, routing, reset);
    LeadsOn(reset, routing, cpu, 1, entered, StubSteps(IsBootstrap(entered)), end);
  }

  lemma OriginalCall(cpu: Cpu, before: Memory, target: Address) returns (direct: Cpu)
    requires CallsAt(before, cpu.eip, target)
    ensures Execute(cpu.(memory := before)) == Some(direct)
    ensures cpu.eip + 5 < ADDRESS_LIMIT
    ensures direct.eip == target && direct.ecx == cpu.ecx && direct.stack == [cpu.eip + 5] + cpu.stack
    ensures direct.resets == cpu.resets
  {
    var original := cpu.(memory := before);
    NearCallLands(original, target);
    direct := original.(eip := target, stack := [cpu.eip + 5] + cpu.stack);
  }

  /** What the encryption routine can see of the processor, and the resets so far. */
  function Entry(cpu: Cpu): (Address, u32, seq<u32>, nat) {
    (cpu.eip, cpu.ecx, cpu.stack, cpu.resets)
  }

  /** A redirected call site: the encryption is entered as the call would have
      entered it in the memory before the patch, the reset routine having run once
      if and only if the packet is a bootstrap packet. */
  lemma RedirectedCallIsTransparent(cpu: Cpu, before: Memory, routing: Routing, reset: Routine)
    returns (end: Cpu, direct: Cpu)
    requires AtRedirectedCall(cpu, routing) && StackBalanced(reset, routing.stub)
    requires CallsAt(before, cpu.eip, routing.encryptPacket)
    ensures Leads(reset, routing, cpu, 1 + StubSteps(CarriesBootstrap(cpu)), end)
    ensures Execute(cpu.(memory := before)) == Some(direct)
    ensures Entry(end) == Entry(direct.(resets := direct.resets + (if CarriesBootstrap(cpu) then 1 else 0)))
  {
    end := RedirectedCallReaches(cpu, routing, reset);
    direct := OriginalCall(cpu, before, routing.encryptPacket);
  }
}
