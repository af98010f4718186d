/** The message dialogs the client shows, under names that last as long as the dialogs
    do: what one observation makes of the one before. */
module DialogSpec {
  import opened Words
  import opened Wrappers
  import opened Sequence

  const MAX_DIALOGS := 8
  const EVENT_SLOTS := 4

  /** A dialog's text as read from the client: the filled buffer and its flags. */
  datatype Text = Text(available: bool, truncated: bool, bytes: seq<byte>)

  const NO_TEXT := Text(false, false, [])

  datatype Dialog = Dialog(id: u32, text: Text)

  /** What is published of an observation. */
  datatype Published = Published(revision: u32, dialogs: seq<Dialog>)

  /** The panes last seen and the dialogs shown for them, position by position, with the
      counters that name dialogs and revisions. */
  datatype Current = Current(revision: u32, dialogs: seq<Dialog>, panes: seq<u32>, nextId: u32)

  /** One look at the client: the visible panes and how the text of a pane reads. */
  datatype Scan = Scan(panes: seq<u32>, texts: u32 -> Text)

  function Empty(): Current {
    Current(0, [], [], 0)
  }

  function Position(panes: seq<u32>, pane: u32): (i: nat)
    ensures i <= |panes| && (i < |panes| ==> panes[i] == pane)
    ensures forall k :: 0 <= k < i ==> panes[k] != pane
    ensures i == |panes| <==> pane !in panes
  {
    if panes == [] || panes[0] == pane then 0 else 1 + Position(panes[1..], pane)
  }

  predicate Known(previous: Current, pane: u32) {
    Position(previous.panes, pane) < |previous.dialogs|
  }

  /** How many of the first `n` panes are new. */
  function NewOnes(previous: Current, panes: seq<u32>, n: nat): nat
    requires n <= |panes|
  {
    if n == 0 then 0 else NewOnes(previous, panes, n - 1) + (if Known(previous, panes[n - 1]) then 0 else 1)
  }

  /** A pane seen before keeps its dialog's name, a new one gets the next. */
  function NameAt(previous: Current, panes: seq<u32>, i: nat): u32
    requires i < |panes|
  {
    if Known(previous, panes[i]) then previous.dialogs[Position(previous.panes, panes[i])].id
    else Successor(previous.nextId, NewOnes(previous, panes, i + 1))
  }

  function Named(previous: Current, scan: Scan): seq<Dialog> {
    seq(|scan.panes|, i requires 0 <= i < |scan.panes| => Dialog(NameAt(previous, scan.panes, i), scan.texts(scan.panes[i])))
  }

  function NextIdAfter(previous: Current, scan: Scan): u32 {
    Successor(previous.nextId, NewOnes(previous, scan.panes, |scan.panes|))
  }

  /** Nothing is stored when the dialogs come out the same. */
  function Refreshed(previous: Current, scan: Scan): Current {
    var dialogs := Named(previous, scan);
    if dialogs == previous.dialogs then previous.(nextId := NextIdAfter(previous, scan))
    else Current(Next(previous.revision), dialogs, scan.panes, NextIdAfter(previous, scan))
  }

  /** The pane a dismissal acts on. */
  function PaneFor(current: Current, revision: u32, id: u32): Option<u32>
    requires |current.panes| == |current.dialogs|
  {
    if current.revision != revision then None
    else
      var i := PositionOf(current.dialogs, id);
      if i < |current.dialogs| then Some(current.panes[i]) else None
  }

  function PositionOf(dialogs: seq<Dialog>, id: u32): (i: nat)
    ensures i <= |dialogs| && (i < |dialogs| ==> dialogs[i].id == id)
    ensures forall k :: 0 <= k < i ==> dialogs[k].id != id
  {
    if dialogs == [] || dialogs[0].id == id then 0 else 1 + PositionOf(dialogs[1..], id)
  }
}

module DialogTheorems {
  import opened Words
  import opened Wrappers
  import opened Sequence
  import opened DialogSpec

  ghost predicate DistinctPanes(panes: seq<u32>) {
    && (forall i :: 0 <= i < |panes| ==> panes[i] != 0)
    && (forall i, j :: 0 <= i < j < |panes| ==> panes[i] != panes[j])
  }

  ghost predicate DistinctIds(dialogs: seq<Dialog>) {
    forall i, j :: 0 <= i < j < |dialogs| ==> dialogs[i].id != dialogs[j].id
  }

  /** A run of observations, and how many names it has given out. */
  function Run(scans: seq<Scan>): Current {
    if scans == [] then Empty() else Refreshed(Run(scans[..|scans| - 1]), scans[|scans| - 1])
  }

  function NamesGiven(scans: seq<Scan>): nat {
    if scans == [] then 0
    else
      var before := scans[..|scans| - 1];
      var last := scans[|scans| - 1];
      NamesGiven(before) + NewOnes(Run(before), last.panes, |last.panes|)
  }

  ghost predicate WellFormed(scans: seq<Scan>) {
    forall i :: 0 <= i < |scans| ==> DistinctPanes(scans[i].panes)
  }

  /** Each dialog's name was given at its own place in the order of names. */
  ghost predicate NamedAt(dialogs: seq<Dialog>, places: seq<nat>, given: nat) {
    && |places| == |dialogs|
    && (forall i :: 0 <= i < |places| ==> 1 <= places[i] <= given && dialogs[i].id == Successor(0, places[i]))
    && (forall i, j :: 0 <= i < j < |places| ==> places[i] != places[j])
  }

  ghost predicate Sound(c: Current, places: seq<nat>, given: nat) {
    && |c.panes| == |c.dialogs|
    && DistinctPanes(c.panes)
    && NamedAt(c.dialogs, places, given)
    && c.nextId == Successor(0, given)
  }

  /** The place of the name a pane gets. */
  function PlaceAt(previous: Current, places: seq<nat>, given: nat, panes: seq<u32>, i: nat): nat
    requires i < |panes| && |places| == |previous.dialogs|
  {
    if Known(previous, panes[i]) then places[Position(previous.panes, panes[i])]
    else given + NewOnes(previous, panes, i + 1)
  }

  lemma {:induction false} NewOnesGrow(previous: Current, panes: seq<u32>, n: nat, m: nat)
    requires n <= m <= |panes|
    ensures NewOnes(previous, panes, n) <= NewOnes(previous, panes, m)
    ensures n < m && !Known(previous, panes[m - 1]) ==> NewOnes(previous, panes, n) < NewOnes(previous, panes, m)
    decreases m
  {
    if n < m {
      NewOnesGrow(previous, panes, n, m - 1);
    }
  }

  lemma PlaceIsItsOwn(c: Current, places: seq<nat>, given: nat, panes: seq<u32>, i: nat, j: nat)
    requires Sound(c, places, given) && DistinctPanes(panes) && i < j < |panes|
    ensures PlaceAt(c, places, given, panes, i) != PlaceAt(c, places, given, panes, j)
  {
    if Known(c, panes[i]) && Known(c, panes[j]) {
      assert c.panes[Position(c.panes, panes[i])] != c.panes[Position(c.panes, panes[j])];
    } else if Known(c, panes[i]) {
      NewPlaceIsLate(c, places, given, panes, j);
    } else {
      NewPlaceIsLate(c, places, given, panes, i);
      NewOnesGrow(c, panes, i + 1, j + 1);
    }
  }

  lemma NewPlaceIsLate(c: Current, places: seq<nat>, given: nat, panes: seq<u32>, i: nat)
    requires Sound(c, places, given) && i < |panes| && !Known(c, panes[i])
    ensures PlaceAt(c, places, given, panes, i) > given
  {
    NewOnesGrow(c, panes, 0, i + 1);
    NewOnesGrow(c, panes, i, i + 1);
  }

  lemma PlaceNames(c: Current, places: seq<nat>, given: nat, panes: seq<u32>, i: nat)
    requires Sound(c, places, given) && i < |panes|
    ensures NameAt(c, panes, i) == Successor(0, PlaceAt(c, places, given, panes, i))
    ensures 1 <= PlaceAt(c, places, given, panes, i) <= given + NewOnes(c, panes, |panes|)
  {
    if Known(c, panes[i]) {
      var p := Position(c.panes, panes[i]);
      assert 1 <= places[p] <= given && c.dialogs[p].id == Successor(0, places[p]);
    } else {
      NewOnesGrow(c, panes, i + 1, |panes|);
      SuccessorAdds(0, given, NewOnes(c, panes, i + 1));
    }
  }

  function PlacesAfter(c: Current, places: seq<nat>, given: nat, panes: seq<u32>): seq<nat>
    requires |places| == |c.dialogs|
  {
    seq(|panes|, i requires 0 <= i < |panes| => PlaceAt(c, places, given, panes, i))
  }

  lemma NamedSoundly(c: Current, places: seq<nat>, given: nat, scan: Scan)
    requires Sound(c, places, given) && DistinctPanes(scan.panes)
    ensures NamedAt(Named(c, scan), PlacesAfter(c, places, given, scan.panes),
                    given + NewOnes(c, scan.panes, |scan.panes|))
  {
    forall i | 0 <= i < |scan.panes|
      ensures var place := PlaceAt(c, places, given, scan.panes, i);
              && 1 <= place <= given + NewOnes(c, scan.panes, |scan.panes|)
              && Named(c, scan)[i].id == Successor(0, place)
    {
      PlaceNames(c, places, given, scan.panes, i);
    }
    forall i, j | 0 <= i < j < |scan.panes|
      ensures PlaceAt(c, places, given, scan.panes, i) != PlaceAt(c, places, given, scan.panes, j)
    {
      PlaceIsItsOwn(c, places, given, scan.panes, i, j);
    }
  }

  /** Names from different places differ, short of a whole round of names. */
  lemma PlacesTell(a: nat, b: nat)
    requires 1 <= a && 1 <= b && a != b && a <= CYCLE && b <= CYCLE
    ensures Successor(0, a) != Successor(0, b)
  {
    assert Successor(0, a) == Successor(1, a - 1) && Successor(0, b) == Successor(1, b - 1);
    if a < b {
      SuccessorsAreDistinct(1, a - 1, b - 1);
    } else {
      SuccessorsAreDistinct(1, b - 1, a - 1);
    }
  }

  lemma NamedAreDistinct(dialogs: seq<Dialog>, places: seq<nat>, given: nat)
    requires NamedAt(dialogs, places, given) && given <= CYCLE
    ensures DistinctIds(dialogs)
  {
    forall i, j | 0 <= i < j < |dialogs|
      ensures dialogs[i].id != dialogs[j].id
    {
      PlacesTell(places[i], places[j]);
    }
  }

  /** When the dialogs come out the same, so do the panes: every one was known, and its
      name leads back to it. */
  lemma SameDialogsSamePanes(c: Current, places: seq<nat>, given: nat, scan: Scan)
    requires Sound(c, places, given) && DistinctPanes(scan.panes)
    requires given + NewOnes(c, scan.panes, |scan.panes|) <= CYCLE
    requires Named(c, scan) == c.dialogs
    ensures scan.panes == c.panes && NewOnes(c, scan.panes, |scan.panes|) == 0
  {
    NamedAreDistinct(c.dialogs, places, given);
    forall i | 0 <= i < |scan.panes|
      ensures scan.panes[i] == c.panes[i]
    {
      assert Named(c, scan)[i].id == c.dialogs[i].id;
      if Known(c, scan.panes[i]) {
        var p := Position(c.panes, scan.panes[i]);
        assert c.dialogs[p].id == c.dialogs[i].id;
        assert p == i;
      } else {
        NewOnesGrow(c, scan.panes, 0, i);
        NewOnesGrow(c, scan.panes, i, i + 1);
        NewOnesGrow(c, scan.panes, i + 1, |scan.panes|);
        PlaceNames(c, places, given, scan.panes, i);
        PlacesTell(given + NewOnes(c, scan.panes, i + 1), places[i]);
      }
    }
    NoneNew(c, scan.panes, |scan.panes|);
  }

  lemma {:induction false} NoneNew(c: Current, panes: seq<u32>, n: nat)
    requires n <= |panes| && panes == c.panes && |c.panes| == |c.dialogs|
    ensures NewOnes(c, panes, n) == 0
    decreases n
  {
    if n > 0 {
      assert panes[n - 1] in c.panes;
      NoneNew(c, panes, n - 1);
    }
  }

  /** One more observation. */
  lemma RefreshedSoundly(c: Current, places: seq<nat>, given: nat, scan: Scan)
    requires Sound(c, places, given) && DistinctPanes(scan.panes)
    requires given + NewOnes(c, scan.panes, |scan.panes|) <= CYCLE
    ensures Sound(Refreshed(c, scan), PlacesAfter(c, places, given, scan.panes), given + NewOnes(c, scan.panes, |scan.panes|))
    ensures Refreshed(c, scan).panes == scan.panes && Refreshed(c, scan).dialogs == Named(c, scan)
  {
    NamedSoundly(c, places, given, scan);
    SuccessorAdds(0, given, NewOnes(c, scan.panes, |scan.panes|));
    if Named(c, scan) == c.dialogs {
      SameDialogsSamePanes(c, places, given, scan);
    }
  }

  /** What every run keeps: names in use are distinct, and the stored panes are those of
      the last observation, stored again or not. */
  lemma {:induction false} RunIsSound(scans: seq<Scan>) returns (places: seq<nat>)
    requires WellFormed(scans) && NamesGiven(scans) <= CYCLE
    ensures Sound(Run(scans), places, NamesGiven(scans))
    ensures scans != [] ==> Run(scans).panes == scans[|scans| - 1].panes
    ensures scans != [] ==> Run(scans).dialogs == Named(Run(scans[..|scans| - 1]), scans[|scans| - 1])
    decreases |scans|
  {
    if scans == [] {
      places := [];
    } else {
      var before, last := scans[..|scans| - 1], scans[|scans| - 1];
      assert WellFormed(before) && DistinctPanes(last.panes);
      var c, given := Run(before), NamesGiven(before);
      var earlier := RunIsSound(before);
      places := PlacesAfter(c, earlier, given, last.panes);
      RefreshedSoundly(c, earlier, given, last);
    }
  }

  // ----- the promises -----

  /** The names in use after any run are distinct. */
  lemma IdsStayDistinct(scans: seq<Scan>)
    requires WellFormed(scans) && NamesGiven(scans) <= CYCLE
    ensures DistinctIds(Run(scans).dialogs)
  {
    var places := RunIsSound(scans);
    NamedAreDistinct(Run(scans).dialogs, places, NamesGiven(scans));
  }

  lemma {:induction false} PositionInPanes(panes: seq<u32>, i: nat)
    requires DistinctPanes(panes) && i < |panes|
    ensures Position(panes, panes[i]) == i
  {
    assert panes[Position(panes, panes[i])] == panes[i];
  }

  lemma SurvivorKeepsItsName(c: Current, scan: Scan, i: nat, j: nat)
    requires |c.panes| == |c.dialogs| && DistinctPanes(c.panes)
    requires i < |c.panes| && j < |scan.panes| && c.panes[i] == scan.panes[j]
    ensures Named(c, scan)[j] == Dialog(c.dialogs[i].id, scan.texts(scan.panes[j]))
  {
    PositionInPanes(c.panes, i);
  }

  /** A pane in two observations running keeps its name, and shows its latest text. */
  lemma SurvivorsKeepTheirNames(scans: seq<Scan>, i: nat, j: nat)
    requires |scans| >= 2 && WellFormed(scans) && NamesGiven(scans) <= CYCLE
    requires i < |scans[|scans| - 2].panes| && j < |scans[|scans| - 1].panes|
    requires scans[|scans| - 2].panes[i] == scans[|scans| - 1].panes[j]
    ensures i < |Run(scans[..|scans| - 1]).dialogs| && j < |Run(scans).dialogs|
    ensures Run(scans).dialogs[j].id == Run(scans[..|scans| - 1]).dialogs[i].id
    ensures Run(scans).dialogs[j].text == scans[|scans| - 1].texts(scans[|scans| - 1].panes[j])
  {
    var before, last := scans[..|scans| - 1], scans[|scans| - 1];
    assert WellFormed(before);
    var earlier := RunIsSound(before);
    var places := RunIsSound(scans);
    assert before[|before| - 1] == scans[|scans| - 2];
    SurvivorKeepsItsName(Run(before), last, i, j);
  }

  /** What an observation sees, names aside. */
  datatype Seen = Seen(pane: u32, text: Text)

  function Observed(scan: Scan): seq<Seen> {
    seq(|scan.panes|, i requires 0 <= i < |scan.panes| => Seen(scan.panes[i], scan.texts(scan.panes[i])))
  }

  function LastSeen(scans: seq<Scan>): seq<Seen> {
    if scans == [] then [] else Observed(scans[|scans| - 1])
  }

  /** How often an observation saw something else than the one before it. */
  function Differences(scans: seq<Scan>): nat {
    if scans == [] then 0
    else
      var before := scans[..|scans| - 1];
      Differences(before) + (if LastSeen(scans) != LastSeen(before) then 1 else 0)
  }

  /** Seeing the same panes with the same texts again leaves every dialog as it was. */
  lemma SameSightSameDialogs(c: Current, scan: Scan)
    requires |c.panes| == |c.dialogs| && DistinctPanes(c.panes) && scan.panes == c.panes
    requires forall i :: 0 <= i < |c.panes| ==> scan.texts(c.panes[i]) == c.dialogs[i].text
    ensures Named(c, scan) == c.dialogs
  {
    forall i | 0 <= i < |c.panes|
      ensures Named(c, scan)[i] == c.dialogs[i]
    {
      PositionInPanes(c.panes, i);
    }
  }

  /** The same dialogs again were seen as the same panes with the same texts. */
  lemma SameDialogsSameSight(c: Current, places: seq<nat>, given: nat, scan: Scan, seen: seq<Seen>)
    requires Sound(c, places, given) && DistinctPanes(scan.panes)
    requires given + NewOnes(c, scan.panes, |scan.panes|) <= CYCLE
    requires |seen| == |c.panes| && forall i :: 0 <= i < |seen| ==> seen[i] == Seen(c.panes[i], c.dialogs[i].text)
    requires Named(c, scan) == c.dialogs
    ensures Observed(scan) == seen
  {
    SameDialogsSamePanes(c, places, given, scan);
    forall i | 0 <= i < |seen|
      ensures Observed(scan)[i] == seen[i]
    {
      assert Named(c, scan)[i].text == c.dialogs[i].text;
    }
  }

  lemma SameSightAsShown(c: Current, scan: Scan, seen: seq<Seen>)
    requires |c.panes| == |c.dialogs| && DistinctPanes(c.panes)
    requires |seen| == |c.panes| && forall i :: 0 <= i < |seen| ==> seen[i] == Seen(c.panes[i], c.dialogs[i].text)
    requires Observed(scan) == seen
    ensures Named(c, scan) == c.dialogs
  {
    forall i | 0 <= i < |c.panes|
      ensures scan.panes[i] == c.panes[i] && scan.texts(c.panes[i]) == c.dialogs[i].text
    {
      assert Observed(scan)[i] == seen[i];
    }
    SameSightSameDialogs(c, scan);
  }

  lemma ListFollowsSight(c: Current, places: seq<nat>, given: nat, scan: Scan, seen: seq<Seen>)
    requires Sound(c, places, given) && DistinctPanes(scan.panes)
    requires given + NewOnes(c, scan.panes, |scan.panes|) <= CYCLE
    requires |seen| == |c.panes| && forall i :: 0 <= i < |seen| ==> seen[i] == Seen(c.panes[i], c.dialogs[i].text)
    ensures Named(c, scan) == c.dialogs <==> Observed(scan) == seen
  {
    if Named(c, scan) == c.dialogs {
      SameDialogsSameSight(c, places, given, scan, seen);
    } else if Observed(scan) == seen {
      SameSightAsShown(c, scan, seen);
    }
  }

  /** What was last seen is what is shown, name for name. */
  lemma LastSeenIsShown(scans: seq<Scan>)
    requires WellFormed(scans) && NamesGiven(scans) <= CYCLE
    ensures var c, seen := Run(scans), LastSeen(scans);
            && |seen| == |c.panes| == |c.dialogs|
            && forall i :: 0 <= i < |seen| ==> seen[i] == Seen(c.panes[i], c.dialogs[i].text)
  {
    var places := RunIsSound(scans);
    if scans != [] {
      var before, last := scans[..|scans| - 1], scans[|scans| - 1];
      assert Run(scans).panes == last.panes && Run(scans).dialogs == Named(Run(before), last);
    }
  }

  /** The visible list comes out the same exactly when the same was seen. */
  lemma ListsFollowSight(scans: seq<Scan>)
    requires scans != [] && WellFormed(scans) && NamesGiven(scans) <= CYCLE
    ensures var before, last := scans[..|scans| - 1], scans[|scans| - 1];
            Named(Run(before), last) == Run(before).dialogs <==> Observed(last) == LastSeen(before)
  {
    var before, last := scans[..|scans| - 1], scans[|scans| - 1];
    assert WellFormed(before) && DistinctPanes(last.panes);
    var places := RunIsSound(before);
    LastSeenIsShown(before);
    ListFollowsSight(Run(before), places, NamesGiven(before), last, LastSeen(before));
  }

  lemma RevisionSteps(scans: seq<Scan>)
    requires scans != [] && WellFormed(scans) && NamesGiven(scans) <= CYCLE
    ensures var before := scans[..|scans| - 1];
            && Run(scans).revision == (if LastSeen(scans) != LastSeen(before) then Next(Run(before).revision) else Run(before).revision)
            && (Run(scans).dialogs == Run(before).dialogs <==> LastSeen(scans) == LastSeen(before))
  {
    ListsFollowSight(scans);
  }

  lemma NextDiffers(value: u32)
    ensures Next(value) != value
  {
  }

  lemma {:induction false} RevisionCounts(scans: seq<Scan>)
    requires WellFormed(scans) && NamesGiven(scans) <= CYCLE
    ensures Run(scans).revision == Successor(0, Differences(scans))
    decreases |scans|
  {
    if scans != [] {
      var before := scans[..|scans| - 1];
      assert WellFormed(before);
      RevisionCounts(before);
      RevisionSteps(scans);
      SuccessorOfLast(0, Differences(before));
    }
  }

  /** In any run an observation brings a new revision exactly when the visible list
      differs, and that is exactly when it sees other panes or texts than the one
      before; so the revision counts those differences. */
  lemma RevisionMarksChange(scans: seq<Scan>)
    requires scans != [] && WellFormed(scans) && NamesGiven(scans) <= CYCLE
    ensures Run(scans).revision == Successor(0, Differences(scans))
    ensures var before := scans[..|scans| - 1];
            && (Run(scans).revision != Run(before).revision <==> Run(scans).dialogs != Run(before).dialogs)
            && (Run(scans).revision != Run(before).revision <==> LastSeen(scans) != LastSeen(before))
  {
    RevisionCounts(scans);
    RevisionSteps(scans);
    NextDiffers(Run(scans[..|scans| - 1]).revision);
  }

  /** Dismissing names a dialog of the current revision, and acts on the one pane of the
      latest observation that shows it; any other request acts on nothing. */
  lemma DismissalActsOnTheNamedPane(scans: seq<Scan>, revision: u32, id: u32, i: nat)
    requires scans != [] && WellFormed(scans) && NamesGiven(scans) <= CYCLE
    requires i < |Run(scans).dialogs|
    ensures |Run(scans).panes| == |Run(scans).dialogs| == |scans[|scans| - 1].panes|
    ensures PaneFor(Run(scans), revision, id) == Some(scans[|scans| - 1].panes[i])
            <==> revision == Run(scans).revision && id == Run(scans).dialogs[i].id
    ensures PaneFor(Run(scans), revision, id).Some? ==> PaneFor(Run(scans), revision, id).value in scans[|scans| - 1].panes
  {
    var places := RunIsSound(scans);
    var c := Run(scans);
    NamedAreDistinct(c.dialogs, places, NamesGiven(scans));
    var p := PositionOf(c.dialogs, id);
    if p < |c.dialogs| && p != i {
      assert c.panes[p] != c.panes[i];
    }
  }
}

/** The observer itself: its arrays are rebuilt at each look and replaced when they
    differ. */
module MessageDialogs {
  import opened Words
  import opened Wrappers
  import opened Sequence
  import opened DialogSpec
  import TransferSlot

  type Slot = TransferSlot.TransferSlot<Published>

  /** What offering an observation does: the first free slot takes it, and all stays as
      it was if there is none. */
  ghost predicate Offered(before: seq<Option<Published>>, after: seq<Option<Published>>, state: Published, slot: Option<nat>) {
    if slot.None? then after == before && None !in before
    else
      && slot.value < |before| && before[slot.value] == None && None !in before[..slot.value]
      && after == before[slot.value := Some(state)]
  }

  /** Published observations waiting for the other thread. */
  class Events {
    const slots: seq<Slot>

    ghost predicate Valid()
      reads this, slots
    {
      && |slots| == EVENT_SLOTS
      && (forall i, j :: 0 <= i < j < EVENT_SLOTS ==> slots[i] != slots[j])
      && (forall i :: 0 <= i < EVENT_SLOTS ==> slots[i].Valid())
    }

    ghost function Contents(i: nat): Option<Published>
      requires i < |slots|
      reads this, slots
    {
      slots[i].Contents()
    }

    ghost function All(): seq<Option<Published>>
      requires |slots| == EVENT_SLOTS
      reads this, slots
    {
      [Contents(0), Contents(1), Contents(2), Contents(3)]
    }

    constructor ()
      ensures Valid() && fresh(slots)
      ensures forall i :: 0 <= i < EVENT_SLOTS ==> Contents(i) == None
    {
      var a := new TransferSlot.TransferSlot<Published>();
      var b := new TransferSlot.TransferSlot<Published>();
      var c := new TransferSlot.TransferSlot<Published>();
      var d := new TransferSlot.TransferSlot<Published>();
      slots := [a, b, c, d];
    }

    /** The first free slot takes the observation; with none free it is dropped. */
    method Push(state: Published) returns (r: Option<nat>)
      requires Valid()
      modifies slots
      ensures Valid()
      ensures Offered(old(All()), All(), state, r)
    {
      for index := 0 to EVENT_SLOTS
        invariant Valid()
        invariant forall i :: 0 <= i < EVENT_SLOTS ==> Contents(i) == old(Contents(i))
        invariant forall i :: 0 <= i < index ==> old(Contents(i)).Some?
      {
        var written := slots[index].TryWrite(state);
        if written {
          assert None !in old(All())[..index];
          return Some(index);
        }
      }
      return None;
    }

    /** Taking empties the slot; a number that is no slot's takes nothing. */
    method Take(queued: nat) returns (r: Option<Published>)
      requires Valid()
      modifies slots
      ensures Valid()
      ensures r == if queued < EVENT_SLOTS then old(Contents(queued)) else None
      ensures forall i :: 0 <= i < EVENT_SLOTS ==> Contents(i) == if i == queued then None else old(Contents(i))
    {
      if queued >= EVENT_SLOTS {
        return None;
      }
      r := slots[queued].TryTake();
    }

    method Release(queued: nat)
      requires Valid()
      modifies slots
      ensures Valid()
      ensures forall i :: 0 <= i < EVENT_SLOTS ==> Contents(i) == if i == queued then None else old(Contents(i))
    {
      if queued < EVENT_SLOTS {
        slots[queued].Discard();
      }
    }
  }

  datatype Failure = InvalidState | InvalidArguments

  method FindPane(panes: array<u32>, pane: u32) returns (i: nat)
    ensures i == Position(panes[..], pane)
  {
    i := 0;
    while i < panes.Length && panes[i] != pane
      invariant i <= panes.Length
      invariant forall k :: 0 <= k < i ==> panes[k] != pane
    {
      i := i + 1;
    }
    PositionIs(panes[..], pane, i);
  }

  lemma PositionIs(panes: seq<u32>, pane: u32, i: nat)
    requires i <= |panes| && (i < |panes| ==> panes[i] == pane)
    requires forall k :: 0 <= k < i ==> panes[k] != pane
    ensures Position(panes, pane) == i
  {
  }

  /** The slots past the count are zero, so searching them all is searching the rest. */
  lemma PositionInUse(panes: seq<u32>, count: nat, pane: u32)
    requires count <= |panes| && pane != 0
    requires forall i :: count <= i < |panes| ==> panes[i] == 0
    ensures Position(panes, pane) < |panes| <==> Position(panes[..count], pane) < count
    ensures Position(panes, pane) < |panes| ==> Position(panes, pane) == Position(panes[..count], pane)
  {
    var i := Position(panes[..count], pane);
    if i < count {
      PositionIs(panes, pane, i);
    } else {
      PositionIs(panes, pane, |panes|);
    }
  }

  class Observer {
    var dialogs: array<Dialog>
    var panes: array<u32>
    var count: nat
    var revision: u32
    var revisions: u32
    var nextId: u32
    const events: Events

    ghost predicate Valid()
      reads this, dialogs, panes
    {
      && dialogs.Length == MAX_DIALOGS && panes.Length == MAX_DIALOGS && count <= MAX_DIALOGS
      && revisions == revision
      && (forall i :: count <= i < MAX_DIALOGS ==> panes[i] == 0)
    }

    ghost function State(): Current
      requires Valid()
      reads this, dialogs, panes
    {
      Current(revision, dialogs[..count], panes[..count], nextId)
    }

    constructor ()
      ensures Valid() && State() == Empty()
      ensures events.Valid() && fresh(events) && fresh(events.slots)
    {
      dialogs := new Dialog[MAX_DIALOGS](_ => Dialog(0, NO_TEXT));
      panes := new u32[MAX_DIALOGS](_ => 0);
      count, revision, revisions, nextId := 0, 0, 0, 0;
      events := new Events();
    }

    /** The name of a pane's dialog, new if the pane is. */
    method NameFor(pane: u32, ghost previous: Current) returns (id: u32)
      requires Valid() && pane != 0
      requires previous.dialogs == dialogs[..count] && previous.panes == panes[..count]
      modifies this`nextId
      ensures id == if Known(previous, pane) then previous.dialogs[Position(previous.panes, pane)].id else Next(old(nextId))
      ensures nextId == if Known(previous, pane) then old(nextId) else Next(old(nextId))
    {
      var found := FindPane(panes, pane);
      PositionInUse(panes[..], count, pane);
      assert panes[..][..count] == panes[..count];
      if found < MAX_DIALOGS {
        return dialogs[found].id;
      }
      nextId := Next(nextId);
      return nextId;
    }

    /** The entry for the pane at `index`. */
    method NextEntry(scan: Scan, index: nat, ghost previous: Current) returns (dialog: Dialog)
      requires Valid() && index < |scan.panes| && scan.panes[index] != 0
      requires previous.dialogs == dialogs[..count] && previous.panes == panes[..count]
      requires nextId == Successor(previous.nextId, NewOnes(previous, scan.panes, index))
      modifies this`nextId
      ensures dialog == Dialog(NameAt(previous, scan.panes, index), scan.texts(scan.panes[index]))
      ensures nextId == Successor(previous.nextId, NewOnes(previous, scan.panes, index + 1))
    {
      var id := NameFor(scan.panes[index], previous);
      SuccessorOfLast(previous.nextId, NewOnes(previous, scan.panes, index));
      return Dialog(id, scan.texts(scan.panes[index]));
    }

    method BuildNext(scan: Scan) returns (nextDialogs: array<Dialog>, nextPanes: array<u32>)
      requires Valid() && |scan.panes| <= MAX_DIALOGS && forall i :: 0 <= i < |scan.panes| ==> scan.panes[i] != 0
      modifies this`nextId
      ensures fresh(nextDialogs) && fresh(nextPanes)
      ensures nextDialogs.Length == MAX_DIALOGS && nextPanes.Length == MAX_DIALOGS
      ensures nextDialogs[..|scan.panes|] == Named(old(State()), scan)
      ensures nextPanes[..|scan.panes|] == scan.panes && forall i :: |scan.panes| <= i < MAX_DIALOGS ==> nextPanes[i] == 0
      ensures nextId == NextIdAfter(old(State()), scan)
    {
      ghost var previous := State();
      nextDialogs := new Dialog[MAX_DIALOGS](_ => Dialog(0, NO_TEXT));
      nextPanes := new u32[MAX_DIALOGS](_ => 0);
      FillNext(scan, nextDialogs, nextPanes, previous);
    }

    method FillNext(scan: Scan, nextDialogs: array<Dialog>, nextPanes: array<u32>, ghost previous: Current)
      requires Valid() && |scan.panes| <= MAX_DIALOGS && forall i :: 0 <= i < |scan.panes| ==> scan.panes[i] != 0
      requires previous == State() && {nextDialogs as object, nextPanes} !! {dialogs, panes}
      requires nextDialogs.Length == MAX_DIALOGS && nextPanes.Length == MAX_DIALOGS
      requires forall i :: 0 <= i < MAX_DIALOGS ==> nextPanes[i] == 0
      modifies this`nextId, nextDialogs, nextPanes
      ensures nextDialogs[..|scan.panes|] == Named(previous, scan)
      ensures nextPanes[..|scan.panes|] == scan.panes && forall i :: |scan.panes| <= i < MAX_DIALOGS ==> nextPanes[i] == 0
      ensures nextId == NextIdAfter(previous, scan)
    {
      for index := 0 to |scan.panes|
        invariant dialogs[..count] == previous.dialogs && panes[..count] == previous.panes
        invariant forall i :: count <= i < MAX_DIALOGS ==> panes[i] == 0
        invariant nextId == Successor(previous.nextId, NewOnes(previous, scan.panes, index))
        invariant nextDialogs[..index] == Named(previous, scan)[..index]
        invariant nextPanes[..index] == scan.panes[..index]
        invariant forall k :: index <= k < MAX_DIALOGS ==> nextPanes[k] == 0
      {
        var dialog := NextEntry(scan, index, previous);
        assert dialog == Named(previous, scan)[index];
        StoreNext(nextDialogs, nextPanes, index, dialog, scan.panes[index]);
      }
      assert Named(previous, scan)[..|scan.panes|] == Named(previous, scan);
      assert scan.panes[..|scan.panes|] == scan.panes;
    }

    static method StoreNext(nextDialogs: array<Dialog>, nextPanes: array<u32>, index: nat, dialog: Dialog, pane: u32)
      requires index < nextDialogs.Length && index < nextPanes.Length
      modifies nextDialogs, nextPanes
      ensures nextDialogs[..index + 1] == old(nextDialogs[..index]) + [dialog]
      ensures nextPanes[..index + 1] == old(nextPanes[..index]) + [pane]
      ensures forall k :: index < k < nextPanes.Length ==> nextPanes[k] == old(nextPanes[k])
    {
      nextPanes[index] := pane;
      nextDialogs[index] := dialog;
    }

    /** Replace what is stored, under the next revision. */
    method Adopt(nextDialogs: array<Dialog>, nextPanes: array<u32>, n: nat)
      requires Valid() && n <= MAX_DIALOGS
      requires nextDialogs.Length == MAX_DIALOGS && nextPanes.Length == MAX_DIALOGS
      requires forall i :: n <= i < MAX_DIALOGS ==> nextPanes[i] == 0
      modifies this
      ensures Valid() && dialogs == nextDialogs && panes == nextPanes
      ensures State() == Current(Next(old(revision)), nextDialogs[..n], nextPanes[..n], old(nextId))
    {
      revisions := Next(revisions);
      dialogs, panes, count, revision := nextDialogs, nextPanes, n, revisions;
    }

    /** Adopt the new list and offer it to the other thread. */
    method Replace(nextDialogs: array<Dialog>, nextPanes: array<u32>, n: nat) returns (r: Option<nat>)
      requires Valid() && events.Valid() && n <= MAX_DIALOGS
      requires nextDialogs.Length == MAX_DIALOGS && nextPanes.Length == MAX_DIALOGS
      requires forall i :: n <= i < MAX_DIALOGS ==> nextPanes[i] == 0
      modifies this, events.slots
      ensures Valid() && events.Valid()
      ensures State() == Current(Next(old(revision)), old(nextDialogs[..n]), old(nextPanes[..n]), old(nextId))
      ensures Offered(old(events.All()), events.All(), Published(State().revision, State().dialogs), r)
    {
      Adopt(nextDialogs, nextPanes, n);
      assert events.All() == old(events.All());
      r := events.Push(Published(revision, dialogs[..count]));
    }

    /** One look: nothing if the client could not be scanned, or the list is as it was;
        otherwise the new list is stored under a new revision and offered to the other
        thread. */
    method Refresh(scan: Option<Scan>) returns (r: Option<nat>)
      requires Valid() && events.Valid()
      requires scan.Some? ==> |scan.value.panes| <= MAX_DIALOGS
                              && forall i :: 0 <= i < |scan.value.panes| ==> scan.value.panes[i] != 0
      modifies this, events.slots
      ensures Valid() && events.Valid()
      ensures State() == if scan.Some? then Refreshed(old(State()), scan.value) else old(State())
      ensures if State().dialogs == old(State()).dialogs then r == None && events.All() == old(events.All())
              else Offered(old(events.All()), events.All(), Published(State().revision, State().dialogs), r)
    {
      if scan.None? {
        return None;
      }
      var n := |scan.value.panes|;
      var nextDialogs, nextPanes := BuildNext(scan.value);
      if n == count && nextDialogs[..n] == dialogs[..n] {
        return None;
      }
      r := Replace(nextDialogs, nextPanes, n);
    }

    /** Close the pane a dialog stands for. `live` is whether the client still shows it
        there, `scan` what it shows afterwards; the answer is the slot that offers it, if
        it is news and there is one. */
    method Dismiss(wanted: u32, id: u32, live: u32 -> bool, scan: Option<Scan>)
      returns (r: Result<Option<nat>, Failure>, closed: Option<u32>)
      requires Valid() && events.Valid()
      requires scan.Some? ==> |scan.value.panes| <= MAX_DIALOGS
                              && forall i :: 0 <= i < |scan.value.panes| ==> scan.value.panes[i] != 0
      modifies this, events.slots
      ensures Valid() && events.Valid()
      ensures var pane := PaneFor(old(State()), wanted, id);
              && closed == (if pane.Some? && live(pane.value) then pane else None)
              && (closed.Some? <==> r.Ok?)
              && (r.Err? ==> State() == old(State()))
              && (r == Err(InvalidArguments) <==> wanted == old(State()).revision && pane.None?)
              && (r.Ok? ==> State() == if scan.Some? then Refreshed(old(State()), scan.value) else old(State()))
      ensures if r.Err? then events.All() == old(events.All())
              else if State().dialogs == old(State()).dialogs then r.value == None && events.All() == old(events.All())
              else Offered(old(events.All()), events.All(), Published(State().revision, State().dialogs), r.value)
    {
      closed := None;
      if revision != wanted {
        return Err(InvalidState), closed;
      }
      var index := 0;
      while index < count && dialogs[index].id != id
        invariant index <= count
        invariant forall k :: 0 <= k < index ==> dialogs[k].id != id
      {
        index := index + 1;
      }
      PositionOfIs(dialogs[..count], id, index);
      if index == count {
        return Err(InvalidArguments), closed;
      }
      var pane := panes[index];
      if !live(pane) {
        return Err(InvalidState), closed;
      }
      closed := Some(pane);
      var update := Refresh(scan);
      return Ok(update), closed;
    }
  }

  lemma PositionOfIs(dialogs: seq<Dialog>, id: u32, i: nat)
    requires i <= |dialogs| && (i < |dialogs| ==> dialogs[i].id == id)
    requires forall k :: 0 <= k < i ==> dialogs[k].id != id
    ensures PositionOf(dialogs, id) == i
  {
  }
}
