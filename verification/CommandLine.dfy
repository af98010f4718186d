/** The Windows command line the loader prints for a child, and the standard rules
    by which the child takes it apart again. */
module CommandLine {
  import opened Words
  import opened Wrappers

  type Units = seq<u16>

  const BACKSLASH: u16 := 0x5C
  const QUOTE: u16 := 0x22
  const SPACE: u16 := 0x20
  const TAB: u16 := 0x09
  const NUL: u16 := 0

  predicate IsBlank(unit: u16) {
    unit == SPACE || unit == TAB
  }

  function Repeat(unit: u16, count: nat): (r: Units)
    ensures |r| == count
    ensures forall k :: 0 <= k < count ==> r[k] == unit
  {
    seq(count, _ => unit)
  }

  // ----- printing -----

  predicate RequiresQuotes(argument: Units) {
    argument == [] || SPACE in argument || TAB in argument || QUOTE in argument
  }

  /** What follows the opening quote, with `backslashes` of them still held back. */
  function Escaped(argument: Units, backslashes: nat): Units {
    if argument == [] then Repeat(BACKSLASH, backslashes * 2) + [QUOTE]
    else if argument[0] == BACKSLASH then Escaped(argument[1..], backslashes + 1)
    else if argument[0] == QUOTE then Repeat(BACKSLASH, backslashes * 2 + 1) + [QUOTE] + Escaped(argument[1..], 0)
    else Repeat(BACKSLASH, backslashes) + [argument[0]] + Escaped(argument[1..], 0)
  }

  function Printed(argument: Units): Units {
    if RequiresQuotes(argument) then [QUOTE] + Escaped(argument, 0) else argument
  }

  /** The arguments after the program name, each behind a space. */
  function PrintedTail(arguments: seq<Units>): Units {
    if arguments == [] then [] else [SPACE] + Printed(arguments[0]) + PrintedTail(arguments[1..])
  }

  datatype Refusal = ContainsNul

  /** The buffer the printer appends to. */
  class Line {
    var units: Units

    constructor ()
      ensures units == []
    {
      units := [];
    }

    method AppendArgument(argument: Units) returns (r: Result<(), Refusal>)
      modifies this
      ensures r.Ok? <==> NUL !in argument
      ensures units == if r.Ok? then old(units) + Printed(argument) else old(units)
    {
      if NUL in argument {
        return Err(ContainsNul);
      }
      if !RequiresQuotes(argument) {
        units := units + argument;
        return Ok(());
      }
      units := units + [QUOTE];
      var backslashes: nat := 0;
      assert old(units) + ([QUOTE] + Escaped(argument, 0)) == units + Escaped(argument, 0);
      for index := 0 to |argument|
        invariant old(units) + Printed(argument) == units + Escaped(argument[index..], backslashes)
      {
        ghost var rest := argument[index..];
        assert rest[1..] == argument[index + 1..];
        if argument[index] == BACKSLASH {
          backslashes := backslashes + 1;
          continue;
        }
        ghost var before := units;
        if argument[index] == QUOTE {
          units := units + Repeat(BACKSLASH, backslashes * 2 + 1);
        } else {
          units := units + Repeat(BACKSLASH, backslashes);
        }
        ghost var run := backslashes;
        backslashes := 0;
        units := units + [argument[index]];
        assert before + Escaped(rest, run) == units + Escaped(rest[1..], 0);
      }
      assert argument[|argument|..] == [];
      ghost var before := units;
      units := units + Repeat(BACKSLASH, backslashes * 2);
      units := units + [QUOTE];
      assert before + Escaped([], backslashes) == units;
      return Ok(());
    }
  }

  ghost predicate NoNul(executable: Units, arguments: seq<Units>) {
    NUL !in executable && forall i :: 0 <= i < |arguments| ==> NUL !in arguments[i]
  }

  /** The whole line, its final NUL included. */
  function PrintedLine(executable: Units, arguments: seq<Units>): Units {
    Printed(executable) + PrintedTail(arguments) + [NUL]
  }

  lemma TailContinues(before: Units, rest: seq<Units>)
    requires rest != []
    ensures before + PrintedTail(rest) == before + [SPACE] + Printed(rest[0]) + PrintedTail(rest[1..])
  {
    TailOpens(rest);
    JoinFour(before, [SPACE], Printed(rest[0]), PrintedTail(rest[1..]));
  }

  lemma TailOpens(rest: seq<Units>)
    requires rest != []
    ensures PrintedTail(rest) == [SPACE] + Printed(rest[0]) + PrintedTail(rest[1..])
  {
  }

  lemma JoinFour(a: Units, b: Units, c: Units, d: Units)
    ensures a + (b + c + d) == a + b + c + d
  {
  }

  method BuildCommandLine(executable: Units, arguments: seq<Units>) returns (r: Result<Units, Refusal>)
    ensures r.Ok? <==> NoNul(executable, arguments)
    ensures r.Ok? ==> r.value == PrintedLine(executable, arguments)
  {
    var line := new Line();
    var _ :- line.AppendArgument(executable);
    for index := 0 to |arguments|
      invariant forall i :: 0 <= i < index ==> NUL !in arguments[i]
      invariant line.units + PrintedTail(arguments[index..]) == Printed(executable) + PrintedTail(arguments)
    {
      TailContinues(line.units, arguments[index..]);
      assert arguments[index..][1..] == arguments[index + 1..];
      line.units := line.units + [SPACE];
      var _ :- line.AppendArgument(arguments[index]);
    }
    line.units := line.units + [NUL];
    return Ok(line.units);
  }

  // ----- the standard parser -----

  /** Readers differ on two quotes in a row inside a quoted part: close and reopen,
      or one literal quote, staying quoted or not. */
  datatype Dialect = Toggles | LiteralStays | LiteralLeaves

  function Run(s: Units): (n: nat)
    ensures n <= |s|
    ensures forall k :: 0 <= k < n ==> s[k] == BACKSLASH
    ensures n < |s| ==> s[n] != BACKSLASH
  {
    if s == [] || s[0] != BACKSLASH then 0 else 1 + Run(s[1..])
  }

  datatype Split = Split(argument: Units, rest: Units)

  function Behind(prefix: Units, split: Split): Split {
    Split(prefix + split.argument, split.rest)
  }

  /** What the parser does next: stop, or consume `length` units for `prefix`. */
  datatype Token = Stop | Take(prefix: Units, length: nat, quoted: bool)

  /** 2n backslashes and a quote are n backslashes and a delimiter, 2n+1 and a quote
      are n backslashes and a literal quote, and backslashes before anything else
      are themselves. */
  function NextToken(dialect: Dialect, s: Units, quoted: bool): (t: Token)
    ensures t.Take? ==> 0 < t.length <= |s|
    ensures t.Stop? <==> s == [] || (!quoted && IsBlank(s[0]))
  {
    if s == [] || (!quoted && IsBlank(s[0])) then Stop
    else if s[0] == BACKSLASH then
      var n := Run(s);
      if n < |s| && s[n] == QUOTE then
        if n % 2 == 0 then Take(Repeat(BACKSLASH, n / 2), n, quoted)
        else Take(Repeat(BACKSLASH, n / 2) + [QUOTE], n + 1, quoted)
      else Take(Repeat(BACKSLASH, n), n, quoted)
    else if s[0] == QUOTE then
      if quoted && |s| > 1 && s[1] == QUOTE && !dialect.Toggles?
      then Take([QUOTE], 2, dialect.LiteralStays?)
      else Take([], 1, !quoted)
    else Take([s[0]], 1, quoted)
  }

  /** One argument, and what is left. */
  function Argument(dialect: Dialect, s: Units, quoted: bool): (r: Split)
    ensures |r.rest| <= |s|
    ensures s != [] && (quoted || !IsBlank(s[0])) ==> |r.rest| < |s|
    decreases |s|
  {
    match NextToken(dialect, s, quoted)
    case Stop => Split([], s)
    case Take(prefix, length, next) => Behind(prefix, Argument(dialect, s[length..], next))
  }

  /** The arguments after the program name. */
  function Arguments(dialect: Dialect, s: Units): seq<Units>
    decreases |s|
  {
    if s == [] then []
    else if IsBlank(s[0]) then Arguments(dialect, s[1..])
    else
      var split := Argument(dialect, s, false);
      [split.argument] + Arguments(dialect, split.rest)
  }

  function UpTo(s: Units, stop: u16): (n: nat)
    ensures n <= |s|
    ensures forall k :: 0 <= k < n ==> s[k] != stop
    ensures n < |s| ==> s[n] == stop
  {
    if s == [] || s[0] == stop then 0 else 1 + UpTo(s[1..], stop)
  }

  function UpToBlank(s: Units): (n: nat)
    ensures n <= |s|
    ensures forall k :: 0 <= k < n ==> !IsBlank(s[k])
    ensures n < |s| ==> IsBlank(s[n])
  {
    if s == [] || IsBlank(s[0]) then 0 else 1 + UpToBlank(s[1..])
  }

  /** The program name has rules of its own: no escapes, just the text up to the
      next quote or, unquoted, up to the next blank. */
  function ProgramName(s: Units): Split {
    if s != [] && s[0] == QUOTE then
      var n := UpTo(s[1..], QUOTE);
      Split(s[1..][..n], if 1 + n < |s| then s[n + 2..] else [])
    else Split(s[..UpToBlank(s)], s[UpToBlank(s)..])
  }

  /** A NUL-terminated line, as the child sees it. */
  function ParsedLine(dialect: Dialect, line: Units): seq<Units> {
    var text := line[..UpTo(line, NUL)];
    var program := ProgramName(text);
    [program.argument] + Arguments(dialect, program.rest)
  }

  // ----- one argument survives -----

  predicate EndsArgument(tail: Units) {
    tail == [] || IsBlank(tail[0])
  }

  lemma RunIs(s: Units, n: nat)
    requires n <= |s| && (forall k :: 0 <= k < n ==> s[k] == BACKSLASH) && (n < |s| ==> s[n] != BACKSLASH)
    ensures Run(s) == n
  {
  }

  lemma RunOf(count: nat, s: Units)
    requires s == [] || s[0] != BACKSLASH
    ensures Run(Repeat(BACKSLASH, count) + s) == count
  {
    RunIs(Repeat(BACKSLASH, count) + s, count);
  }

  /** An even run of backslashes before a quote. */
  lemma ReadEvenRun(dialect: Dialect, half: nat, s: Units, quoted: bool)
    requires half > 0
    ensures Argument(dialect, Repeat(BACKSLASH, half * 2) + ([QUOTE] + s), quoted) ==
            Behind(Repeat(BACKSLASH, half), Argument(dialect, [QUOTE] + s, quoted))
  {
    RunOf(half * 2, [QUOTE] + s);
    var whole := Repeat(BACKSLASH, half * 2) + ([QUOTE] + s);
    assert whole[half * 2..] == [QUOTE] + s;
    assert NextToken(dialect, whole, quoted) == Take(Repeat(BACKSLASH, half), half * 2, quoted);
  }

  lemma OddRunToken(dialect: Dialect, half: nat, s: Units, quoted: bool)
    ensures var whole := Repeat(BACKSLASH, half * 2 + 1) + ([QUOTE] + s);
            && NextToken(dialect, whole, quoted) == Take(Repeat(BACKSLASH, half) + [QUOTE], half * 2 + 2, quoted)
            && whole[half * 2 + 2..] == s
  {
    RunOf(half * 2 + 1, [QUOTE] + s);
  }

  /** An odd run of backslashes and a quote. */
  lemma ReadOddRun(dialect: Dialect, half: nat, s: Units, quoted: bool)
    ensures Argument(dialect, Repeat(BACKSLASH, half * 2 + 1) + ([QUOTE] + s), quoted) ==
            Behind(Repeat(BACKSLASH, half) + [QUOTE], Argument(dialect, s, quoted))
  {
    OddRunToken(dialect, half, s, quoted);
    TakeToken(dialect, Repeat(BACKSLASH, half * 2 + 1) + ([QUOTE] + s), quoted,
              Repeat(BACKSLASH, half) + [QUOTE], half * 2 + 2, quoted, s);
  }

  lemma TakeToken(dialect: Dialect, whole: Units, quoted: bool, prefix: Units, length: nat, next: bool, s: Units)
    requires NextToken(dialect, whole, quoted) == Take(prefix, length, next) && whole[length..] == s
    ensures Argument(dialect, whole, quoted) == Behind(prefix, Argument(dialect, s, next))
  {
  }

  /** A run of backslashes before anything else. */
  lemma ReadBackslashes(dialect: Dialect, count: nat, s: Units, quoted: bool)
    requires s == [] || (s[0] != QUOTE && s[0] != BACKSLASH)
    ensures Argument(dialect, Repeat(BACKSLASH, count) + s, quoted) ==
            Behind(Repeat(BACKSLASH, count), Argument(dialect, s, quoted))
  {
    var whole := Repeat(BACKSLASH, count) + s;
    if count == 0 {
      assert whole == s;
    } else {
      RunOf(count, s);
      assert whole[count..] == s;
    }
  }

  lemma OpenQuote(dialect: Dialect, s: Units)
    ensures Argument(dialect, [QUOTE] + s, false) == Argument(dialect, s, true)
  {
    assert ([QUOTE] + s)[1..] == s;
  }

  lemma ReadLiteral(dialect: Dialect, unit: u16, s: Units)
    requires unit != QUOTE && unit != BACKSLASH
    ensures Argument(dialect, [unit] + s, true) == Behind([unit], Argument(dialect, s, true))
  {
    assert ([unit] + s)[1..] == s;
  }

  /** The closing quote, behind the doubled trailing backslashes. */
  lemma CloseQuote(dialect: Dialect, backslashes: nat, tail: Units)
    requires EndsArgument(tail)
    ensures Argument(dialect, Repeat(BACKSLASH, backslashes * 2) + ([QUOTE] + tail), true) ==
            Split(Repeat(BACKSLASH, backslashes), tail)
  {
    var close := [QUOTE] + tail;
    assert close[1..] == tail;
    assert Argument(dialect, close, true) == Split([], tail);
    if backslashes > 0 {
      ReadEvenRun(dialect, backslashes, tail, true);
    } else {
      assert Repeat(BACKSLASH, 0) + close == close;
      assert Repeat(BACKSLASH, 0) == [];
    }
  }

  /** Plain backslashes and another unit in front of something. */
  lemma ReadEscapedUnit(dialect: Dialect, backslashes: nat, unit: u16, s: Units)
    requires unit != QUOTE && unit != BACKSLASH
    ensures Argument(dialect, Repeat(BACKSLASH, backslashes) + ([unit] + s), true) ==
            Behind(Repeat(BACKSLASH, backslashes) + [unit], Argument(dialect, s, true))
  {
    ReadBackslashes(dialect, backslashes, [unit] + s, true);
    ReadLiteral(dialect, unit, s);
    var rest := Argument(dialect, s, true).argument;
    assert Repeat(BACKSLASH, backslashes) + ([unit] + rest) == Repeat(BACKSLASH, backslashes) + [unit] + rest;
  }

  /** The step of the proof below: `unit` behind held-back backslashes. */
  lemma EscapedStep(read: Units -> Split, argument: Units, backslashes: nat, tail: Units, whole: Units, s: Units)
    requires argument != [] && read(s) == Split(argument[1..], tail)
    requires read(whole) == Behind(Repeat(BACKSLASH, backslashes) + [argument[0]], read(s))
    ensures read(whole) == Split(Repeat(BACKSLASH, backslashes) + argument, tail)
  {
    assert Repeat(BACKSLASH, backslashes) + [argument[0]] + argument[1..] == Repeat(BACKSLASH, backslashes) + argument;
  }

  lemma EscapedOpens(argument: Units, backslashes: nat, tail: Units)
    requires argument != [] && argument[0] != BACKSLASH
    ensures Escaped(argument, backslashes) + tail ==
            Repeat(BACKSLASH, if argument[0] == QUOTE then backslashes * 2 + 1 else backslashes)
            + ([argument[0]] + (Escaped(argument[1..], 0) + tail))
  {
  }

  lemma EscapedCloses(backslashes: nat, tail: Units)
    ensures Escaped([], backslashes) + tail == Repeat(BACKSLASH, backslashes * 2) + ([QUOTE] + tail)
    ensures Repeat(BACKSLASH, backslashes) + [] == Repeat(BACKSLASH, backslashes)
    ensures Repeat(BACKSLASH, 0) == []
  {
  }

  lemma EscapedHoldsBack(argument: Units, backslashes: nat)
    requires argument != [] && argument[0] == BACKSLASH
    ensures Escaped(argument, backslashes) == Escaped(argument[1..], backslashes + 1)
    ensures Repeat(BACKSLASH, backslashes + 1) + argument[1..] == Repeat(BACKSLASH, backslashes) + argument
  {
  }

  lemma ReadUnit(dialect: Dialect, backslashes: nat, unit: u16, s: Units)
    requires unit != BACKSLASH
    ensures Argument(dialect, Repeat(BACKSLASH, if unit == QUOTE then backslashes * 2 + 1 else backslashes) + ([unit] + s), true)
            == Behind(Repeat(BACKSLASH, backslashes) + [unit], Argument(dialect, s, true))
  {
    if unit == QUOTE {
      ReadOddRun(dialect, backslashes, s, true);
    } else {
      ReadEscapedUnit(dialect, backslashes, unit, s);
    }
  }

  ghost predicate Closes(read: Units -> Split, tail: Units, n: nat) {
    read(Repeat(BACKSLASH, n * 2) + ([QUOTE] + tail)) == Split(Repeat(BACKSLASH, n), tail)
  }

  ghost predicate TakesUnit(read: Units -> Split, n: nat, unit: u16, s: Units) {
    unit != BACKSLASH ==>
      read(Repeat(BACKSLASH, if unit == QUOTE then n * 2 + 1 else n) + ([unit] + s))
      == Behind(Repeat(BACKSLASH, n) + [unit], read(s))
  }

  lemma EscapedUnitIsReadBack(read: Units -> Split, argument: Units, backslashes: nat, tail: Units)
    requires argument != [] && argument[0] != BACKSLASH
    requires TakesUnit(read, backslashes, argument[0], Escaped(argument[1..], 0) + tail)
    requires read(Escaped(argument[1..], 0) + tail) == Split(Repeat(BACKSLASH, 0) + argument[1..], tail)
    ensures read(Escaped(argument, backslashes) + tail) == Split(Repeat(BACKSLASH, backslashes) + argument, tail)
  {
    EscapedOpens(argument, backslashes, tail);
    assert Repeat(BACKSLASH, 0) + argument[1..] == argument[1..];
    EscapedStep(read, argument, backslashes, tail, Escaped(argument, backslashes) + tail, Escaped(argument[1..], 0) + tail);
  }

  lemma EscapedEndIsReadBack(read: Units -> Split, backslashes: nat, tail: Units)
    requires Closes(read, tail, backslashes)
    ensures read(Escaped([], backslashes) + tail) == Split(Repeat(BACKSLASH, backslashes) + [], tail)
  {
    EscapedCloses(backslashes, tail);
  }

  /** Reading back an escaped argument inside its quotes: the induction, for any
      reader that closes on the even run and takes each escaped unit. */
  lemma {:induction false} EscapedIsReadBackBy(read: Units -> Split, argument: Units, backslashes: nat, tail: Units)
    requires forall n :: Closes(read, tail, n)
    requires forall n, unit, s :: TakesUnit(read, n, unit, s)
    ensures read(Escaped(argument, backslashes) + tail) == Split(Repeat(BACKSLASH, backslashes) + argument, tail)
    decreases |argument|
  {
    if argument == [] {
      EscapedEndIsReadBack(read, backslashes, tail);
    } else if argument[0] == BACKSLASH {
      EscapedHoldsBack(argument, backslashes);
      EscapedIsReadBackBy(read, argument[1..], backslashes + 1, tail);
    } else {
      EscapedIsReadBackBy(read, argument[1..], 0, tail);
      EscapedUnitIsReadBack(read, argument, backslashes, tail);
    }
  }

  function QuotedReader(dialect: Dialect): Units -> Split {
    (s: Units) => Argument(dialect, s, true)
  }

  lemma QuotedReaderIsSound(dialect: Dialect, tail: Units)
    requires EndsArgument(tail)
    ensures forall n :: Closes(QuotedReader(dialect), tail, n)
    ensures forall n, unit, s :: TakesUnit(QuotedReader(dialect), n, unit, s)
  {
    forall n
      ensures Closes(QuotedReader(dialect), tail, n)
    {
      CloseQuote(dialect, n, tail);
    }
    forall n, unit, s
      ensures TakesUnit(QuotedReader(dialect), n, unit, s)
    {
      if unit != BACKSLASH {
        ReadUnit(dialect, n, unit, s);
      }
    }
  }

  lemma EscapedIsReadBack(dialect: Dialect, argument: Units, tail: Units)
    requires EndsArgument(tail)
    ensures Argument(dialect, [QUOTE] + (Escaped(argument, 0) + tail), false) == Split(argument, tail)
  {
    QuotedReaderIsSound(dialect, tail);
    var s := Escaped(argument, 0) + tail;
    EscapedIsReadBackBy(QuotedReader(dialect), argument, 0, tail);
    OpenQuote(dialect, s);
    assert Repeat(BACKSLASH, 0) + argument == argument;
  }

  /** The first `m` units of `s` are an argument that needed no quotes. */
  ghost predicate PlainUpTo(s: Units, m: nat) {
    && m <= |s|
    && (forall k :: 0 <= k < m ==> !IsBlank(s[k]) && s[k] != QUOTE)
    && (m < |s| ==> IsBlank(s[m]))
  }

  lemma PlainToken(dialect: Dialect, s: Units, m: nat) returns (n: nat)
    requires PlainUpTo(s, m) && m > 0
    ensures 0 < n <= m
    ensures NextToken(dialect, s, false) == Take(s[..n], n, false)
  {
    assert !IsBlank(s[0]) && s[0] != QUOTE;
    if s[0] == BACKSLASH {
      n := Run(s);
      assert s[..n] == Repeat(BACKSLASH, n);
    } else {
      n := 1;
      assert s[..1] == [s[0]];
    }
  }

  lemma ReadToken(dialect: Dialect, s: Units, quoted: bool, prefix: Units, length: nat, argument: Units, tail: Units)
    requires NextToken(dialect, s, quoted) == Take(prefix, length, quoted)
    requires Argument(dialect, s[length..], quoted) == Split(argument, tail)
    ensures Argument(dialect, s, quoted) == Split(prefix + argument, tail)
  {
  }

  lemma PlainRest(s: Units, m: nat, n: nat)
    requires PlainUpTo(s, m) && n <= m
    ensures PlainUpTo(s[n..], m - n)
    ensures s[..n] + s[n..][..m - n] == s[..m] && s[n..][m - n..] == s[m..]
  {
  }

  /** Reading back an argument that needed no quotes. */
  lemma {:induction false} PlainIsReadBack(dialect: Dialect, s: Units, m: nat)
    requires PlainUpTo(s, m)
    ensures Argument(dialect, s, false) == Split(s[..m], s[m..])
    decreases m
  {
    if m == 0 {
      assert NextToken(dialect, s, false) == Stop;
      assert s[..0] == [] && s[0..] == s;
    } else {
      var n := PlainToken(dialect, s, m);
      PlainRest(s, m, n);
      PlainIsReadBack(dialect, s[n..], m - n);
      ReadToken(dialect, s, false, s[..n], n, s[n..][..m - n], s[m..]);
    }
  }

  lemma PrintedPlain(argument: Units, tail: Units)
    requires !RequiresQuotes(argument) && EndsArgument(tail)
    ensures PlainUpTo(argument + tail, |argument|)
    ensures (argument + tail)[..|argument|] == argument && (argument + tail)[|argument|..] == tail
  {
    forall k | 0 <= k < |argument|
      ensures !IsBlank(argument[k]) && argument[k] != QUOTE
    {
      assert argument[k] in argument;
    }
  }

  lemma PrintedQuoted(argument: Units, tail: Units)
    requires RequiresQuotes(argument)
    ensures Printed(argument) + tail == [QUOTE] + (Escaped(argument, 0) + tail)
  {
  }

  lemma PrintedIsReadBack(dialect: Dialect, argument: Units, tail: Units)
    requires EndsArgument(tail)
    ensures Argument(dialect, Printed(argument) + tail, false) == Split(argument, tail)
  {
    if RequiresQuotes(argument) {
      EscapedIsReadBack(dialect, argument, tail);
      PrintedQuoted(argument, tail);
    } else {
      PrintedPlain(argument, tail);
      PlainIsReadBack(dialect, argument + tail, |argument|);
    }
  }

  lemma PrintedStarts(argument: Units, tail: Units)
    ensures Printed(argument) + tail != [] && !IsBlank((Printed(argument) + tail)[0])
    ensures EndsArgument([SPACE] + Printed(argument) + tail)
    ensures [SPACE] + Printed(argument) + tail == [SPACE] + (Printed(argument) + tail)
  {
  }

  // ----- the list survives -----

  lemma NextArgument(dialect: Dialect, s: Units, argument: Units, rest: Units)
    requires s != [] && !IsBlank(s[0]) && Argument(dialect, s, false) == Split(argument, rest)
    ensures Arguments(dialect, [SPACE] + s) == [argument] + Arguments(dialect, rest)
  {
    assert ([SPACE] + s)[1..] == s;
    assert Arguments(dialect, [SPACE] + s) == Arguments(dialect, s);
  }

  lemma ListStep(dialect: Dialect, argument: Units, tail: Units)
    requires EndsArgument(tail)
    ensures Arguments(dialect, [SPACE] + Printed(argument) + tail) == [argument] + Arguments(dialect, tail)
    ensures EndsArgument([SPACE] + Printed(argument) + tail)
  {
    PrintedIsReadBack(dialect, argument, tail);
    PrintedStarts(argument, tail);
    NextArgument(dialect, Printed(argument) + tail, argument, tail);
  }

  /** The part of the line after the program name parses to exactly the arguments,
      in every dialect. */
  lemma {:induction false} TailRoundTrip(dialect: Dialect, arguments: seq<Units>)
    ensures Arguments(dialect, PrintedTail(arguments)) == arguments
    ensures EndsArgument(PrintedTail(arguments))
    decreases |arguments|
  {
    if arguments == [] {
    } else {
      TailRoundTrip(dialect, arguments[1..]);
      ListStep(dialect, arguments[0], PrintedTail(arguments[1..]));
    }
  }

  // ----- no quotes without need -----

  lemma TokenLength(dialect: Dialect, s: Units, quoted: bool)
    requires NextToken(dialect, s, quoted).Take?
    ensures var token := NextToken(dialect, s, quoted);
            |token.prefix| <= token.length && (|token.prefix| == token.length ==> QUOTE !in s[..token.length])
  {
  }

  /** Reading adds nothing, and loses something wherever there was a quote. */
  lemma {:induction false} ArgumentLength(dialect: Dialect, s: Units, quoted: bool)
    ensures var split := Argument(dialect, s, quoted);
            && |split.argument| + |split.rest| <= |s|
            && (|split.argument| + |split.rest| == |s| ==> QUOTE !in s[..|s| - |split.rest|])
    decreases |s|
  {
    var token := NextToken(dialect, s, quoted);
    if token.Take? {
      TokenLength(dialect, s, quoted);
      ArgumentLength(dialect, s[token.length..], token.quoted);
      var n := |s| - |Argument(dialect, s, quoted).rest|;
      assert s[..n] == s[..token.length] + s[token.length..][..n - token.length];
    }
  }

  lemma {:induction false} FirstArgumentLength(dialect: Dialect, s: Units)
    ensures Arguments(dialect, s) != [] ==> |Arguments(dialect, s)[0]| <= |s|
    decreases |s|
  {
    if s != [] && IsBlank(s[0]) {
      FirstArgumentLength(dialect, s[1..]);
    } else if s != [] {
      ArgumentLength(dialect, s, false);
    }
  }

  lemma BlankSplits(dialect: Dialect, s: Units)
    requires s != [] && !IsBlank(s[0]) && QUOTE !in s && (SPACE in s || TAB in s)
    ensures Argument(dialect, s, false).argument != s
  {
    var m := UpToBlank(s);
    assert m < |s|;
    PlainIsReadBack(dialect, s, m);
  }

  /** An argument that has to be quoted does not survive as it is. */
  lemma BareIsNotReadBack(dialect: Dialect, argument: Units)
    requires RequiresQuotes(argument)
    ensures Arguments(dialect, argument) != [argument]
  {
    if argument != [] && IsBlank(argument[0]) {
      FirstArgumentLength(dialect, argument[1..]);
    } else if argument != [] {
      var split := Argument(dialect, argument, false);
      ArgumentLength(dialect, argument, false);
      assert argument[..|argument|] == argument;
      if QUOTE !in argument {
        BlankSplits(dialect, argument);
      }
      assert split.argument != argument && Arguments(dialect, argument)[0] == split.argument;
    }
  }

  lemma {:induction false} EscapedIsLonger(argument: Units, backslashes: nat)
    ensures |Escaped(argument, backslashes)| > |argument| + backslashes
    decreases |argument|
  {
    if argument != [] {
      EscapedIsLonger(argument[1..], if argument[0] == BACKSLASH then backslashes + 1 else 0);
    }
  }

  /** An argument is printed as it is exactly when it is read back from that. */
  lemma QuotedOnlyWhenRequired(dialect: Dialect, argument: Units)
    ensures Printed(argument) == argument <==> Arguments(dialect, argument) == [argument]
  {
    if RequiresQuotes(argument) {
      EscapedIsLonger(argument, 0);
      BareIsNotReadBack(dialect, argument);
    } else {
      PrintedIsReadBack(dialect, argument, []);
      assert Printed(argument) + [] == argument;
      assert Arguments(dialect, []) == [];
      assert !IsBlank(argument[0]) by {
        assert argument[0] in argument;
      }
    }
  }

  // ----- the program name -----

  /** No quote to escape and no backslash against the closing quote. */
  predicate PlainProgram(executable: Units) {
    && QUOTE !in executable
    && !(RequiresQuotes(executable) && executable != [] && executable[|executable| - 1] == BACKSLASH)
  }

  lemma HeldBackSlash(argument: Units, backslashes: nat)
    requires argument != [] && argument[0] == BACKSLASH
    ensures Repeat(BACKSLASH, backslashes + 1) + argument[1..] == Repeat(BACKSLASH, backslashes) + argument
  {
  }

  /** Without quotes inside, the printer only doubles the trailing backslashes. */
  lemma {:induction false} EscapedWithoutQuotes(argument: Units, backslashes: nat) returns (body: Units)
    requires QUOTE !in argument
    ensures Escaped(argument, backslashes) == body + [QUOTE] && QUOTE !in body
    ensures if argument == [] then |body| == 2 * backslashes
            else if argument[|argument| - 1] == BACKSLASH then |body| > backslashes + |argument|
            else body == Repeat(BACKSLASH, backslashes) + argument
    decreases |argument|
  {
    if argument == [] {
      body := Repeat(BACKSLASH, backslashes * 2);
    } else if argument[0] == BACKSLASH {
      body := EscapedWithoutQuotes(argument[1..], backslashes + 1);
      HeldBackSlash(argument, backslashes);
    } else {
      var rest := EscapedWithoutQuotes(argument[1..], 0);
      body := Repeat(BACKSLASH, backslashes) + [argument[0]] + rest;
      assert Repeat(BACKSLASH, 0) + argument[1..] == argument[1..];
      assert rest == argument[1..] ==> body == Repeat(BACKSLASH, backslashes) + argument;
      assert Escaped(argument, backslashes) == body + [QUOTE];
    }
  }

  lemma UpToIs(s: Units, stop: u16, n: nat)
    requires n <= |s| && stop !in s[..n] && (n < |s| ==> s[n] == stop)
    ensures UpTo(s, stop) == n
  {
    assert forall k :: 0 <= k < n ==> s[k] in s[..n];
  }

  /** A path with a quote in it is cut at some quote. */
  lemma NameStopsAtQuotes(s: Units)
    requires s != [] && s[0] == QUOTE
    ensures QUOTE !in ProgramName(s).argument
  {
  }

  lemma PrintedAround(executable: Units, tail: Units, body: Units)
    requires RequiresQuotes(executable) && Escaped(executable, 0) == body + [QUOTE]
    ensures Printed(executable) + tail == [QUOTE] + body + [QUOTE] + tail
  {
  }

  /** Between its quotes a path without quotes is itself, unless it ends in a
      backslash: that one is doubled. */
  lemma QuotedBody(executable: Units) returns (body: Units)
    requires executable != [] && QUOTE !in executable
    ensures Escaped(executable, 0) == body + [QUOTE] && QUOTE !in body
    ensures body == executable <==> executable[|executable| - 1] != BACKSLASH
  {
    body := EscapedWithoutQuotes(executable, 0);
    assert Repeat(BACKSLASH, 0) + executable == executable;
  }

  lemma TrimmedNameDiffers(executable: Units, tail: Units)
    requires RequiresQuotes(executable) && QUOTE !in executable
    ensures ProgramName(Printed(executable) + tail).argument == executable <==> PlainProgram(executable)
    ensures ProgramName(Printed(executable) + tail).rest == tail
  {
    if executable == [] {
      PrintedAround([], tail, []);
      QuotedNameIsReadBack([], tail);
    } else {
      var body := QuotedBody(executable);
      PrintedAround(executable, tail, body);
      QuotedNameIsReadBack(body, tail);
    }
  }

  /** The program name comes back, with the arguments behind it, exactly when the
      path has no quote in it and no backslash against a closing quote. */
  lemma ProgramNameRoundTrip(executable: Units, tail: Units)
    requires EndsArgument(tail)
    ensures ProgramName(Printed(executable) + tail).argument == executable <==> PlainProgram(executable)
    ensures PlainProgram(executable) ==> ProgramName(Printed(executable) + tail).rest == tail
  {
    if !RequiresQuotes(executable) {
      PlainNameIsReadBack(executable, tail);
    } else if QUOTE in executable {
      PrintedQuoted(executable, tail);
      NameStopsAtQuotes(Printed(executable) + tail);
    } else {
      TrimmedNameDiffers(executable, tail);
    }
  }

  lemma UpToBlankIs(s: Units, n: nat)
    requires n <= |s| && (forall k :: 0 <= k < n ==> !IsBlank(s[k])) && (n < |s| ==> IsBlank(s[n]))
    ensures UpToBlank(s) == n
  {
  }

  lemma PlainNameIsReadBack(executable: Units, tail: Units)
    requires !RequiresQuotes(executable) && EndsArgument(tail)
    ensures ProgramName(executable + tail) == Split(executable, tail)
  {
    var line := executable + tail;
    forall k | 0 <= k < |executable|
      ensures !IsBlank(line[k])
    {
      assert line[k] in executable;
    }
    UpToBlankIs(line, |executable|);
    assert line[0] == executable[0];
    assert line[..|executable|] == executable && line[|executable|..] == tail;
  }

  lemma QuotedNameIsReadBack(body: Units, tail: Units)
    requires QUOTE !in body
    ensures ProgramName([QUOTE] + body + [QUOTE] + tail) == Split(body, tail)
  {
    var line := [QUOTE] + body + [QUOTE] + tail;
    assert line[1..] == body + [QUOTE] + tail;
    assert line[1..][..|body|] == body;
    UpToIs(line[1..], QUOTE, |body|);
    assert line[|body| + 2..] == tail;
  }

  // ----- the whole line -----

  lemma {:induction false} EscapedHasNoNul(argument: Units, backslashes: nat)
    requires NUL !in argument
    ensures NUL !in Escaped(argument, backslashes)
    decreases |argument|
  {
    if argument != [] {
      EscapedHasNoNul(argument[1..], if argument[0] == BACKSLASH then backslashes + 1 else 0);
    }
  }

  lemma PrintedHasNoNul(argument: Units)
    requires NUL !in argument
    ensures NUL !in Printed(argument)
  {
    EscapedHasNoNul(argument, 0);
  }

  lemma {:induction false} TailHasNoNul(arguments: seq<Units>)
    requires forall i :: 0 <= i < |arguments| ==> NUL !in arguments[i]
    ensures NUL !in PrintedTail(arguments)
  {
    if arguments != [] {
      PrintedHasNoNul(arguments[0]);
      TailHasNoNul(arguments[1..]);
    }
  }

  /** For every executable and argument list without NULs: the child's arguments
      are the given ones whenever its program name is, and that is exactly when
      the path is plain. */
  lemma CommandLineRoundTrip(dialect: Dialect, executable: Units, arguments: seq<Units>)
    requires NoNul(executable, arguments)
    ensures ParsedLine(dialect, PrintedLine(executable, arguments)) == [executable] + arguments
            <==> PlainProgram(executable)
  {
    var tail := PrintedTail(arguments);
    var text := Printed(executable) + tail;
    PrintedHasNoNul(executable);
    TailHasNoNul(arguments);
    var line := PrintedLine(executable, arguments);
    assert line[..|text|] == text && line[|text|] == NUL;
    UpToIs(line, NUL, |text|);
    TailRoundTrip(dialect, arguments);
    ProgramNameRoundTrip(executable, tail);
    var parsed := ParsedLine(dialect, line);
    assert parsed[0] == ProgramName(text).argument;
    if !PlainProgram(executable) {
      assert parsed[0] != ([executable] + arguments)[0];
    }
  }

  // ----- launch paths -----

  const COLON: u16 := 0x3A
  const QUESTION: u16 := 0x3F
  const VERBATIM_PREFIX: Units := [BACKSLASH, BACKSLASH, QUESTION, BACKSLASH]
  const UNC_PREFIX: Units := [0x55, 0x4E, 0x43, BACKSLASH]

  predicate IsDrivePath(path: Units) {
    && |path| >= 3 && path[1] == COLON && path[2] == BACKSLASH
    && (0x41 <= path[0] <= 0x5A || 0x61 <= path[0] <= 0x7A)
  }

  function NormalizeLaunchPath(path: Units): Units {
    if !(VERBATIM_PREFIX <= path) then path
    else
      var remainder := path[4..];
      if UNC_PREFIX <= remainder then [BACKSLASH, BACKSLASH] + remainder[4..]
      else if IsDrivePath(remainder) then remainder
      else path
  }

  /** The verbatim marker is dropped, before a drive path altogether and before a share
      in favour of the two backslashes a share starts with; nothing else changes. */
  lemma NormalizationDropsTheMarker(path: Units)
    ensures IsDrivePath(path) ==> NormalizeLaunchPath(VERBATIM_PREFIX + path) == path
    ensures NormalizeLaunchPath(VERBATIM_PREFIX + UNC_PREFIX + path) == [BACKSLASH, BACKSLASH] + path
    ensures NormalizeLaunchPath(path) == path
            || (exists drive :: IsDrivePath(drive) && path == VERBATIM_PREFIX + drive)
            || (exists share: Units :: path == VERBATIM_PREFIX + UNC_PREFIX + share)
    ensures !IsDrivePath(path) && !(UNC_PREFIX <= path) ==>
              NormalizeLaunchPath(VERBATIM_PREFIX + path) == VERBATIM_PREFIX + path
  {
    var verbatim, share := VERBATIM_PREFIX + path, VERBATIM_PREFIX + UNC_PREFIX + path;
    assert verbatim[4..] == path;
    assert share[4..] == UNC_PREFIX + path && share[4..][4..] == path;
    if NormalizeLaunchPath(path) != path {
      assert path == VERBATIM_PREFIX + path[4..];
      if UNC_PREFIX <= path[4..] {
        assert path == VERBATIM_PREFIX + UNC_PREFIX + path[8..];
      }
    }
  }

  /** A share path whose server part is itself a verbatim marker. */
  predicate HidesVerbatimPath(path: Units) {
    && VERBATIM_PREFIX + UNC_PREFIX + [QUESTION, BACKSLASH] <= path
    && (UNC_PREFIX <= path[10..] || IsDrivePath(path[10..]))
  }

  /** Normalizing twice is normalizing once, except for those paths. */
  lemma NormalizationIsIdempotentUnlessHidden(path: Units)
    ensures NormalizeLaunchPath(NormalizeLaunchPath(path)) == NormalizeLaunchPath(path) <==> !HidesVerbatimPath(path)
  {
    var marker := VERBATIM_PREFIX + UNC_PREFIX + [QUESTION, BACKSLASH];
    if VERBATIM_PREFIX <= path && UNC_PREFIX <= path[4..] {
      var once := NormalizeLaunchPath(path);
      assert path == VERBATIM_PREFIX + UNC_PREFIX + path[8..];
      assert once == [BACKSLASH, BACKSLASH] + path[8..];
      if VERBATIM_PREFIX <= once {
        assert path[8] == once[2] == QUESTION && path[9] == once[3] == BACKSLASH;
        assert once[4..] == path[10..];
        assert marker <= path;
      }
    }
  }

  /** Such a path: two rounds of normalizing take a share's verbatim path to a drive. */
  lemma HiddenPathTakesTwoRounds()
    ensures var drive: Units := [0x43, COLON, BACKSLASH];
            var path := VERBATIM_PREFIX + UNC_PREFIX + [QUESTION, BACKSLASH] + drive;
            && HidesVerbatimPath(path)
            && NormalizeLaunchPath(path) == VERBATIM_PREFIX + drive
            && NormalizeLaunchPath(NormalizeLaunchPath(path)) == drive
  {
    var drive: Units := [0x43, COLON, BACKSLASH];
    var path := VERBATIM_PREFIX + UNC_PREFIX + [QUESTION, BACKSLASH] + drive;
    assert path[4..] == UNC_PREFIX + [QUESTION, BACKSLASH] + drive;
    assert path[4..][4..] == [QUESTION, BACKSLASH] + drive;
    assert path[10..] == drive;
    assert NormalizeLaunchPath(path) == VERBATIM_PREFIX + drive;
    assert (VERBATIM_PREFIX + drive)[4..] == drive;
  }
}
