/** The up/down edge detector of `broadcastState`. Calls may overlap; what counts is the order
    in which they swap `lastTunState` under the lock, so a run is the sequence of the swapped
    snapshots, however stale each of them is. */
module Notify {
  import opened Text

  datatype TunState = TunState(id: string, state: string)

  datatype Note = Down(id: string) | Up(id: string)

  predicate UniqueIds(snap: seq<TunState>) {
    forall i, j :: 0 <= i < j < |snap| ==> snap[i].id != snap[j].id
  }

  function StateMap(snap: seq<TunState>): map<string, string> {
    if snap == [] then map[]
    else
      var t := snap[|snap| - 1];
      StateMap(snap[..|snap| - 1])[t.id := t.state]
  }

  function NoteFor(prev: map<string, string>, t: TunState): seq<Note> {
    if t.id !in prev || prev[t.id] == t.state then []
    else if prev[t.id] == "on" && t.state != "on" then [Down(t.id)]
    else if prev[t.id] != "on" && t.state == "on" then [Up(t.id)]
    else []
  }

  function NotesOf(prev: map<string, string>, snap: seq<TunState>): seq<Note> {
    if snap == [] then []
    else NotesOf(prev, snap[..|snap| - 1]) + NoteFor(prev, snap[|snap| - 1])
  }

  /** What one call sends, given the state it swapped out. */
  function Sent(prev: Option<map<string, string>>, snap: seq<TunState>): seq<Note> {
    if prev.None? then [] else NotesOf(prev.value, snap)
  }

  class EdgeDetector {
    var lastTunState: Option<map<string, string>>

    constructor ()
      ensures lastTunState == None
    {
      lastTunState := None;
    }

    method BroadcastState(snap: seq<TunState>) returns (notes: seq<Note>)
      modifies this
      ensures lastTunState == Some(StateMap(snap))
      ensures notes == Sent(old(lastTunState), snap)
    {
      var prev := lastTunState;
      var cur: map<string, string> := map[];
      for i := 0 to |snap|
        invariant cur == StateMap(snap[..i])
        invariant lastTunState == prev
      {
        assert snap[..i + 1][..i] == snap[..i];
        cur := cur[snap[i].id := snap[i].state];
      }
      assert snap[..|snap|] == snap;
      lastTunState := Some(cur);
      notes := [];
      if prev.None? {
        return;
      }
      for i := 0 to |snap|
        invariant notes == NotesOf(prev.value, snap[..i])
        invariant lastTunState == Some(cur)
      {
        assert snap[..i + 1][..i] == snap[..i];
        notes := notes + NoteFor(prev.value, snap[i]);
      }
    }
  }

  // ------------------------------------------------------------ runs

  function About(notes: seq<Note>, id: string): seq<Note> {
    if notes == [] then []
    else About(notes[..|notes| - 1], id) + (if notes[|notes| - 1].id == id then [notes[|notes| - 1]] else [])
  }

  function Before(snaps: seq<seq<TunState>>): Option<map<string, string>> {
    if snaps == [] then None else Some(StateMap(snaps[|snaps| - 1]))
  }

  /** Everything sent about `id` by the calls whose snapshots were swapped in, in that order. */
  function Trail(snaps: seq<seq<TunState>>, id: string): seq<Note> {
    if snaps == [] then []
    else
      var front := snaps[..|snaps| - 1];
      Trail(front, id) + About(Sent(Before(front), snaps[|snaps| - 1]), id)
  }

  predicate On(snap: seq<TunState>, id: string) {
    var m := StateMap(snap);
    id in m && m[id] == "on"
  }

  predicate PresentThroughout(snaps: seq<seq<TunState>>, id: string) {
    forall k :: 0 <= k < |snaps| ==> UniqueIds(snaps[k]) && id in StateMap(snaps[k])
  }

  function Ups(notes: seq<Note>): int {
    if notes == [] then 0
    else Ups(notes[..|notes| - 1]) + (if notes[|notes| - 1].Up? then 1 else 0)
  }

  function Downs(notes: seq<Note>): int {
    if notes == [] then 0
    else Downs(notes[..|notes| - 1]) + (if notes[|notes| - 1].Down? then 1 else 0)
  }

  /** Down, up, down, … (or up, down, up, …), starting with what the first state allows. */
  predicate Alternating(notes: seq<Note>, id: string, startsOn: bool) {
    forall i :: 0 <= i < |notes| ==> notes[i] == if (i % 2 == 0) == startsOn then Down(id) else Up(id)
  }

  function Bit(b: bool): int { if b then 1 else 0 }

  // ------------------------------------------------------------ one call

  lemma {:induction false} AboutConcat(a: seq<Note>, b: seq<Note>, id: string)
    ensures About(a + b, id) == About(a, id) + About(b, id)
  {
    if b == [] {
      assert a + b == a;
    } else {
      assert (a + b)[..|a + b| - 1] == a + b[..|b| - 1];
      AboutConcat(a, b[..|b| - 1], id);
    }
  }

  lemma AboutNoteFor(prev: map<string, string>, t: TunState, id: string)
    ensures About(NoteFor(prev, t), id) == if t.id == id then NoteFor(prev, t) else []
  {
    var notes := NoteFor(prev, t);
    if notes != [] {
      assert notes[..0] == [];
    }
  }

  lemma {:induction false} MapHas(snap: seq<TunState>, id: string)
    ensures id in StateMap(snap) <==> exists i :: 0 <= i < |snap| && snap[i].id == id
  {
    if snap != [] {
      var n := |snap| - 1;
      MapHas(snap[..n], id);
      assert forall i :: 0 <= i < n ==> snap[..n][i] == snap[i];
    }
  }

  /** What a call swaps in: every tunnel of its snapshot under the state it has there. */
  lemma {:induction false} MapHolds(snap: seq<TunState>, i: nat)
    requires UniqueIds(snap) && i < |snap|
    ensures snap[i].id in StateMap(snap) && StateMap(snap)[snap[i].id] == snap[i].state
  {
    var n := |snap| - 1;
    if i < n {
      MapHolds(snap[..n], i);
    }
  }

  /** About one tunnel, a call sends exactly the note its own two states call for. */
  lemma {:induction false} NotesAboutOne(prev: map<string, string>, snap: seq<TunState>, id: string)
    requires UniqueIds(snap)
    ensures About(NotesOf(prev, snap), id)
         == if id in StateMap(snap) then NoteFor(prev, TunState(id, StateMap(snap)[id])) else []
  {
    if snap != [] {
      var n := |snap| - 1;
      var t := snap[n];
      NotesAboutOne(prev, snap[..n], id);
      AboutConcat(NotesOf(prev, snap[..n]), NoteFor(prev, t), id);
      AboutNoteFor(prev, t, id);
      if t.id == id {
        MapHas(snap[..n], id);
        assert id !in StateMap(snap[..n]);
      }
    }
  }

  lemma {:induction false} CountsConcat(a: seq<Note>, b: seq<Note>)
    ensures Ups(a + b) == Ups(a) + Ups(b) && Downs(a + b) == Downs(a) + Downs(b)
  {
    if b == [] {
      assert a + b == a;
    } else {
      assert (a + b)[..|a + b| - 1] == a + b[..|b| - 1];
      CountsConcat(a, b[..|b| - 1]);
    }
  }

  lemma CountsOne(note: Note)
    ensures Ups([note]) == Bit(note.Up?) && Downs([note]) == Bit(note.Down?)
  {
    assert [note][..0] == [];
  }

  // ------------------------------------------------------------ conservation

  /** A trail that leads from `startsOn` to `endsOn`: balanced and strictly alternating. */
  predicate Conserved(trail: seq<Note>, id: string, startsOn: bool, endsOn: bool) {
    && Ups(trail) - Downs(trail) == Bit(endsOn) - Bit(startsOn)
    && Alternating(trail, id, startsOn)
    && (endsOn <==> (|trail| % 2 == 0) == startsOn)
  }

  function Edge(id: string, was: bool, now: bool): seq<Note> {
    if was && !now then [Down(id)] else if !was && now then [Up(id)] else []
  }

  // ------------------------------------------------------------ snapshots that miss the tunnel

  predicate Present(snap: seq<TunState>, id: string) { id in StateMap(snap) }

  predicate AllUnique(snaps: seq<seq<TunState>>) {
    forall k :: 0 <= k < |snaps| ==> UniqueIds(snaps[k])
  }

  /** The state in the latest snapshot that has the tunnel. */
  predicate LastKnown(snaps: seq<seq<TunState>>, id: string) {
    snaps != [] &&
    var last := snaps[|snaps| - 1];
    if Present(last, id) then On(last, id) else LastKnown(snaps[..|snaps| - 1], id)
  }

  /** The changes over all gaps: state on return minus state before the gap. */
  function Lost(snaps: seq<seq<TunState>>, id: string): int {
    if |snaps| < 2 then 0
    else
      var front, last := snaps[..|snaps| - 1], snaps[|snaps| - 1];
      Lost(front, id) +
      if Present(last, id) && !Present(snaps[|snaps| - 2], id) then Bit(On(last, id)) - Bit(LastKnown(front, id)) else 0
  }

  /** The note that the last snapshot of a run adds. */
  function LastNote(snaps: seq<seq<TunState>>, id: string): seq<Note> {
    if |snaps| < 2 || !Present(snaps[|snaps| - 2], id) || !Present(snaps[|snaps| - 1], id) then []
    else Edge(id, On(snaps[|snaps| - 2], id), On(snaps[|snaps| - 1], id))
  }

  /** Whenever a note is sent, the changes lost so far cancel out. */
  predicate LostCancelsAtNotes(snaps: seq<seq<TunState>>, id: string) {
    snaps == [] ||
    var front := snaps[..|snaps| - 1];
    LostCancelsAtNotes(front, id) && (LastNote(snaps, id) != [] ==> Lost(front, id) == 0)
  }

  /** What one call sends about a tunnel, given the snapshot swapped in before it. */
  lemma SentIsEdge(before: seq<TunState>, snap: seq<TunState>, id: string)
    requires UniqueIds(snap)
    ensures About(Sent(Some(StateMap(before)), snap), id)
         == if Present(before, id) && Present(snap, id) then Edge(id, On(before, id), On(snap, id)) else []
  {
    NotesAboutOne(StateMap(before), snap, id);
  }

  lemma TrailUnfolds(front: seq<seq<TunState>>, last: seq<TunState>, id: string)
    ensures Trail(front + [last], id) == Trail(front, id) + About(Sent(Before(front), last), id)
  {
    var snaps := front + [last];
    assert snaps[..|snaps| - 1] == front;
  }

  lemma TrailSnoc(snaps: seq<seq<TunState>>, id: string)
    requires snaps != [] && AllUnique(snaps)
    ensures Trail(snaps, id) == Trail(snaps[..|snaps| - 1], id) + LastNote(snaps, id)
  {
    var n := |snaps| - 1;
    var front := snaps[..n];
    assert snaps == front + [snaps[n]];
    TrailUnfolds(front, snaps[n], id);
    if n > 0 {
      assert front[n - 1] == snaps[n - 1];
      SentIsEdge(snaps[n - 1], snaps[n], id);
    }
  }

  lemma EdgeCounts(id: string, was: bool, now: bool)
    ensures Ups(Edge(id, was, now)) - Downs(Edge(id, was, now)) == Bit(now) - Bit(was)
  {
    var e := Edge(id, was, now);
    if e != [] {
      CountsOne(e[0]);
      assert e == [e[0]];
    }
  }

  lemma FrontFacts(snaps: seq<seq<TunState>>, id: string)
    requires |snaps| >= 2 && AllUnique(snaps) && Present(snaps[0], id)
    ensures var front := snaps[..|snaps| - 1];
            && front != [] && AllUnique(front) && front[0] == snaps[0]
            && (Present(snaps[|snaps| - 2], id) ==> LastKnown(front, id) == On(snaps[|snaps| - 2], id))
  {
    var front := snaps[..|snaps| - 1];
    assert front[|front| - 1] == snaps[|snaps| - 2];
  }

  /** What a snapshot adds to the notes it either adds to the known state or takes as lost. */
  lemma LostStep(snaps: seq<seq<TunState>>, id: string)
    requires |snaps| >= 2 && AllUnique(snaps) && Present(snaps[0], id)
    ensures var front, note := snaps[..|snaps| - 1], LastNote(snaps, id);
            Bit(LastKnown(snaps, id)) - Lost(snaps, id)
            == Bit(LastKnown(front, id)) - Lost(front, id) + Ups(note) - Downs(note)
  {
    FrontFacts(snaps, id);
    EdgeCounts(id, On(snaps[|snaps| - 2], id), On(snaps[|snaps| - 1], id));
  }

  lemma {:induction false} TrailBalance(snaps: seq<seq<TunState>>, id: string)
    requires snaps != [] && AllUnique(snaps) && Present(snaps[0], id)
    ensures var t := Trail(snaps, id);
            Ups(t) - Downs(t) == Bit(LastKnown(snaps, id)) - Bit(On(snaps[0], id)) - Lost(snaps, id)
  {
    var front := snaps[..|snaps| - 1];
    TrailSnoc(snaps, id);
    if |snaps| == 1 {
      assert Trail(snaps, id) == [];
    } else {
      FrontFacts(snaps, id);
      TrailBalance(front, id);
      CountsConcat(Trail(front, id), LastNote(snaps, id));
      LostStep(snaps, id);
    }
  }

  /** The on state that an alternating trail has led to. */
  predicate LeadsTo(trail: seq<Note>, startsOn: bool) { (|trail| % 2 == 0) == startsOn }

  lemma {:induction false} AlternatingCounts(trail: seq<Note>, id: string, startsOn: bool)
    requires Alternating(trail, id, startsOn)
    ensures Bit(LeadsTo(trail, startsOn)) == Bit(startsOn) + Ups(trail) - Downs(trail)
  {
    if trail != [] {
      var n := |trail| - 1;
      AlternatingCounts(trail[..n], id, startsOn);
      assert trail[n] == if LeadsTo(trail[..n], startsOn) then Down(id) else Up(id);
    }
  }

  lemma AlternatingSnoc(trail: seq<Note>, id: string, startsOn: bool, was: bool)
    ensures var note := if was then Down(id) else Up(id);
            Alternating(trail + [note], id, startsOn)
            <==> Alternating(trail, id, startsOn) && LeadsTo(trail, startsOn) == was
  {
    var note := if was then Down(id) else Up(id);
    var more := trail + [note];
    assert more[|trail|] == note;
    assert forall i :: 0 <= i < |trail| ==> more[i] == trail[i];
  }

  /** After a trail that has lost `lost`, a note alternates exactly when that is nothing. */
  lemma EdgeFits(trail: seq<Note>, id: string, startsOn: bool, was: bool, now: bool, lost: int)
    requires Ups(trail) - Downs(trail) == Bit(was) - Bit(startsOn) - lost
    ensures Alternating(trail + Edge(id, was, now), id, startsOn)
       <==> Alternating(trail, id, startsOn) && (was != now ==> lost == 0)
  {
    if was == now {
      assert trail + [] == trail;
    } else {
      AlternatingSnoc(trail, id, startsOn, was);
      if Alternating(trail, id, startsOn) {
        AlternatingCounts(trail, id, startsOn);
      }
    }
  }

  lemma NoteFits(snaps: seq<seq<TunState>>, id: string)
    requires |snaps| >= 2 && AllUnique(snaps) && Present(snaps[0], id)
    ensures var front := snaps[..|snaps| - 1];
            var t, on := Trail(front, id), On(snaps[0], id);
            Alternating(t + LastNote(snaps, id), id, on)
            <==> Alternating(t, id, on) && (LastNote(snaps, id) != [] ==> Lost(front, id) == 0)
  {
    var front := snaps[..|snaps| - 1];
    var t, on := Trail(front, id), On(snaps[0], id);
    FrontFacts(snaps, id);
    TrailBalance(front, id);
    var was, now := On(snaps[|snaps| - 2], id), On(snaps[|snaps| - 1], id);
    if Present(snaps[|snaps| - 2], id) && Present(snaps[|snaps| - 1], id) {
      EdgeFits(t, id, on, was, now, Lost(front, id));
    } else {
      assert LastNote(snaps, id) == [] && t + [] == t;
    }
  }

  lemma {:induction false} AlternatesIff(snaps: seq<seq<TunState>>, id: string)
    requires snaps != [] && AllUnique(snaps) && Present(snaps[0], id)
    ensures Alternating(Trail(snaps, id), id, On(snaps[0], id)) <==> LostCancelsAtNotes(snaps, id)
  {
    TrailSnoc(snaps, id);
    if |snaps| == 1 {
      assert Trail(snaps, id) == [];
      assert LostCancelsAtNotes(snaps[..0], id);
    } else {
      FrontFacts(snaps, id);
      AlternatesIff(snaps[..|snaps| - 1], id);
      NoteFits(snaps, id);
    }
  }

  /** For a tunnel in the first and the last snapshot, whatever is in between: ups minus downs
      is the change of its on state less what was lost over gaps, so they balance exactly
      when that is nothing; and the trail alternates exactly when whatever has been lost
      cancels out each time a note is sent. */
  lemma ConservedIff(snaps: seq<seq<TunState>>, id: string)
    requires snaps != [] && AllUnique(snaps) && Present(snaps[0], id) && Present(snaps[|snaps| - 1], id)
    ensures var t, first, last := Trail(snaps, id), On(snaps[0], id), On(snaps[|snaps| - 1], id);
            && Ups(t) - Downs(t) == Bit(last) - Bit(first) - Lost(snaps, id)
            && (Ups(t) - Downs(t) == Bit(last) - Bit(first) <==> Lost(snaps, id) == 0)
            && (Alternating(t, id, first) <==> LostCancelsAtNotes(snaps, id))
            && (Conserved(t, id, first, last) <==> Lost(snaps, id) == 0 && LostCancelsAtNotes(snaps, id))
  {
    TrailBalance(snaps, id);
    AlternatesIff(snaps, id);
    if Alternating(Trail(snaps, id), id, On(snaps[0], id)) {
      AlternatingCounts(Trail(snaps, id), id, On(snaps[0], id));
    }
  }

  lemma {:induction false} NothingLost(snaps: seq<seq<TunState>>, id: string)
    requires snaps != [] && PresentThroughout(snaps, id)
    ensures Lost(snaps, id) == 0 && LostCancelsAtNotes(snaps, id)
  {
    var n := |snaps| - 1;
    if n == 0 {
      assert LostCancelsAtNotes(snaps[..0], id);
    } else {
      assert snaps[..n][n - 1] == snaps[n - 1];
      NothingLost(snaps[..n], id);
    }
  }

  /** So for a tunnel present in every snapshot, ups minus downs is the change of its on state,
      and the two kinds of note strictly alternate. */
  lemma NotesAreConserved(snaps: seq<seq<TunState>>, id: string)
    requires snaps != [] && PresentThroughout(snaps, id)
    ensures Conserved(Trail(snaps, id), id, On(snaps[0], id), On(snaps[|snaps| - 1], id))
  {
    NothingLost(snaps, id);
    ConservedIff(snaps, id);
  }

  /** A concrete gap: the tunnel goes off while a snapshot misses it, and no note is sent. */
  lemma GapLosesAnEdge()
    ensures var snaps := [[TunState("a", "on")], [], [TunState("a", "off")]];
            Trail(snaps, "a") == [] && On(snaps[0], "a") && !On(snaps[2], "a")
  {
    var x, z := [TunState("a", "on")], [TunState("a", "off")];
    var snaps := [x, [], z];
    assert x[..0] == [] && z[..0] == [];
    var none: seq<TunState> := [];
    assert snaps[..2] == [x, none] && [x, none][..1] == [x] && [x][..0] == [];
    assert Trail([x], "a") == Trail([], "a") + About(Sent(None, x), "a");
    assert Trail([x, none], "a") == Trail([x], "a") + About([], "a");
    assert NotesOf(map[], z) == NotesOf(map[], []) + NoteFor(map[], z[0]);
  }
}
