/** The SSE hub's delivery paths: a coalesce-latest slot for state frames and a bounded lossy
    queue, as a state machine over the single channel operations of `pushState`, of the
    fan-out in `Broadcast`, and of the two selects in `ServeHTTP`. */
module StateSlot {
  import opened Text

  const LOSSY_CAP: nat := 64

  /** Which select of `ServeHTTP` comes next. */
  datatype At = First | Second | Gone

  /** A registered client. State frames are named by their position in `sent`: `since` is the
      number sent before it registered, `slot` the pending one, `taken` those dequeued.
      `overtakes` counts lossy frames dequeued since the slot last became occupied. */
  datatype Client<F> = Client(
    since: nat, slot: Option<nat>, lossy: seq<F>, at: At, taken: seq<nat>, overtakes: nat)

  /** `pushState` on one client: about to send for the n-th time, or about to drain. */
  datatype Turn = Idle | Sending(id: nat, attempt: nat) | Draining(id: nat, attempt: nat)

  /** `todo` are the clients the fan-out of the newest state frame has still to serve; the
      hub lock is held while `busy`. */
  datatype Hub<F> = Hub(sent: seq<F>, clients: map<nat, Client<F>>, busy: bool, todo: set<nat>, turn: Turn)

  datatype Action<F> =
    | Register(id: nat) | Unregister(id: nat)
    | StartFanout(frame: F) | PickClient(id: nat) | TrySend | Drain | EndFanout
    | OfferLossy(id: nat, frame: F)
    | Poll(id: nat) | TakeState(id: nat) | TakeLossy(id: nat) | Leave(id: nat)

  predicate Enabled<F>(h: Hub<F>, a: Action<F>) {
    match a
    case Register(id) => !h.busy && id !in h.clients
    case Unregister(id) => !h.busy && id in h.clients
    case StartFanout(_) => !h.busy
    case PickClient(id) => h.busy && h.turn.Idle? && id in h.todo
    case TrySend => h.busy && h.turn.Sending? && h.turn.id in h.clients
    case Drain => h.busy && h.turn.Draining? && h.turn.id in h.clients
    case EndFanout => h.busy && h.turn.Idle? && h.todo == {}
    case OfferLossy(id, _) => id in h.clients
    case Poll(id) => id in h.clients && h.clients[id].at.First?
    case TakeState(id) => id in h.clients && h.clients[id].at.Second? && h.clients[id].slot.Some?
    case TakeLossy(id) => id in h.clients && h.clients[id].at.Second? && h.clients[id].lossy != []
    case Leave(id) => id in h.clients
  }

  function Take<F>(c: Client<F>): Client<F>
    requires c.slot.Some?
  {
    c.(slot := None, taken := c.taken + [c.slot.value], at := First, overtakes := 0)
  }

  /** A full queue drops the frame. */
  function Offered<F>(c: Client<F>, frame: F): Client<F> {
    if |c.lossy| < LOSSY_CAP then c.(lossy := c.lossy + [frame]) else c
  }

  /** The first select: a pending state frame, else on to the second select. */
  function Polled<F>(c: Client<F>): Client<F> {
    if c.slot.Some? then Take(c) else c.(at := Second)
  }

  function LossyTaken<F>(c: Client<F>): Client<F>
    requires c.lossy != []
  {
    c.(lossy := c.lossy[1..], at := First, overtakes := if c.slot.Some? then c.overtakes + 1 else 0)
  }

  function Newest<F>(h: Hub<F>): nat {
    if h.sent == [] then 0 else |h.sent| - 1
  }

  function Do<F>(h: Hub<F>, a: Action<F>): Hub<F>
    requires Enabled(h, a)
  {
    match a
    case Register(id) => h.(clients := h.clients[id := Client(|h.sent|, None, [], First, [], 0)])
    case Unregister(id) => h.(clients := h.clients - {id})
    case StartFanout(frame) => h.(sent := h.sent + [frame], busy := true, todo := h.clients.Keys, turn := Idle)
    case PickClient(id) => h.(turn := Sending(id, 1))
    case TrySend =>
      var c := h.clients[h.turn.id];
      if c.slot.None? then
        h.(clients := h.clients[h.turn.id := c.(slot := Some(Newest(h)), overtakes := 0)],
           todo := h.todo - {h.turn.id}, turn := Idle)
      else h.(turn := Draining(h.turn.id, h.turn.attempt))
    case Drain =>
      h.(clients := h.clients[h.turn.id := h.clients[h.turn.id].(slot := None, overtakes := 0)],
         turn := Sending(h.turn.id, h.turn.attempt + 1))
    case EndFanout => h.(busy := false)
    case OfferLossy(id, frame) => h.(clients := h.clients[id := Offered(h.clients[id], frame)])
    case Poll(id) => h.(clients := h.clients[id := Polled(h.clients[id])])
    case TakeState(id) => h.(clients := h.clients[id := Take(h.clients[id])])
    case TakeLossy(id) => h.(clients := h.clients[id := LossyTaken(h.clients[id])])
    case Leave(id) => h.(clients := h.clients[id := h.clients[id].(at := Gone)])
  }

  // ------------------------------------------------------------ invariant

  /** The fan-out only ever serves registered clients, one at a time, under the lock. */
  predicate TurnOk<F>(h: Hub<F>) {
    && h.todo <= h.clients.Keys
    && (!h.busy ==> h.todo == {} && h.turn.Idle?)
    && (h.busy ==> h.sent != [])
    && (!h.turn.Idle? ==> h.turn.id in h.todo && 1 <= h.turn.attempt <= 2)
    && (h.turn.Draining? ==> h.turn.attempt == 1)
    && (h.turn.Sending? && h.turn.attempt == 2 ==> h.clients[h.turn.id].slot.None?)
  }

  /** State frames pushed to a client so far: the newest is missing while it is still to do. */
  function Pushed<F>(h: Hub<F>, id: nat): nat {
    if id in h.todo && h.sent != [] then |h.sent| - 1 else |h.sent|
  }

  predicate InOrder(taken: seq<nat>, since: nat, bound: nat) {
    && (forall i, j :: 0 <= i < j < |taken| ==> taken[i] < taken[j])
    && (forall i :: 0 <= i < |taken| ==> since <= taken[i] < bound)
  }

  /** The newest of the first `n` frames is pending, or was the last one dequeued. */
  predicate Latest<F>(c: Client<F>, n: nat) {
    n > c.since ==>
      || c.slot == Some(n - 1)
      || (c.slot.None? && c.taken != [] && c.taken[|c.taken| - 1] == n - 1)
  }

  predicate ClientOk<F>(c: Client<F>, pushed: nat, served: bool) {
    && c.since <= pushed
    && InOrder(c.taken, c.since, pushed)
    && (c.slot.Some? ==> c.since <= c.slot.value < pushed && InOrder(c.taken, c.since, c.slot.value))
    && (!served ==> Latest(c, pushed))
    && (c.slot.Some? ==> c.overtakes <= 1 && (c.at.Second? ==> c.overtakes == 0))
    && |c.lossy| <= LOSSY_CAP
  }

  /** The client `pushState` is working on. */
  predicate Served<F>(h: Hub<F>, id: nat) {
    !h.turn.Idle? && h.turn.id == id
  }

  predicate Inv<F>(h: Hub<F>) {
    && TurnOk(h)
    && forall id :: id in h.clients ==> ClientOk(h.clients[id], Pushed(h, id), Served(h, id))
  }

  lemma TurnStep<F>(h: Hub<F>, a: Action<F>)
    requires Inv(h) && Enabled(h, a)
    ensures TurnOk(Do(h, a))
  {
  }

  lemma TakeKeeps<F>(c: Client<F>, pushed: nat, served: bool)
    requires ClientOk(c, pushed, served) && c.slot.Some?
    ensures ClientOk(Take(c), pushed, served)
  {
  }

  /** A step that leaves the client alone, and cannot make it newer or less served. */
  lemma Untouched<F>(h: Hub<F>, t: Hub<F>, id: nat)
    requires Inv(h) && id in h.clients && id in t.clients && t.clients[id] == h.clients[id]
    requires Pushed(t, id) == Pushed(h, id) && (Served(h, id) ==> Served(t, id))
    ensures ClientOk(t.clients[id], Pushed(t, id), Served(t, id))
  {
    assert ClientOk(h.clients[id], Pushed(h, id), Served(h, id));
  }

  predicate OwnAction<F>(a: Action<F>) {
    a.OfferLossy? || a.Poll? || a.TakeState? || a.TakeLossy? || a.Leave?
  }

  /** What an own action makes of its client. */
  function Acted<F>(c: Client<F>, a: Action<F>): Client<F>
    requires OwnAction(a)
    requires (a.TakeState? ==> c.slot.Some?) && (a.TakeLossy? ==> c.lossy != [])
  {
    match a
    case OfferLossy(_, frame) => Offered(c, frame)
    case Poll(_) => Polled(c)
    case TakeState(_) => Take(c)
    case TakeLossy(_) => LossyTaken(c)
    case _ => c.(at := Gone)
  }

  lemma ActedOk<F>(c: Client<F>, a: Action<F>, pushed: nat, served: bool)
    requires ClientOk(c, pushed, served) && OwnAction(a)
    requires (a.TakeState? ==> c.slot.Some?) && (a.TakeLossy? ==> c.at.Second? && c.lossy != [])
    ensures ClientOk(Acted(c, a), pushed, served)
  {
    if c.slot.Some? {
      TakeKeeps(c, pushed, served);
    }
  }

  lemma ActedIs<F>(h: Hub<F>, a: Action<F>)
    requires Enabled(h, a) && OwnAction(a)
    ensures a.id in h.clients && Do(h, a).clients == h.clients[a.id := Acted(h.clients[a.id], a)]
    ensures Do(h, a).sent == h.sent && Do(h, a).todo == h.todo && Do(h, a).turn == h.turn
  {
    if a.OfferLossy? && |h.clients[a.id].lossy| >= LOSSY_CAP {
      assert h.clients[a.id := h.clients[a.id]] == h.clients;
    }
  }

  lemma OwnStep<F>(h: Hub<F>, a: Action<F>, id: nat)
    requires Inv(h) && Enabled(h, a) && OwnAction(a) && id in h.clients
    ensures ClientOk(Do(h, a).clients[id], Pushed(Do(h, a), id), Served(Do(h, a), id))
  {
    ActedIs(h, a);
    if a.id != id {
      Untouched(h, Do(h, a), id);
    } else {
      ActedOk(h.clients[id], a, Pushed(h, id), Served(h, id));
    }
  }

  lemma SendStep<F>(h: Hub<F>, id: nat)
    requires Inv(h) && Enabled(h, TrySend) && id in h.clients
    ensures ClientOk(Do(h, TrySend).clients[id], Pushed(Do(h, TrySend), id), Served(Do(h, TrySend), id))
  {
    assert ClientOk(h.clients[id], Pushed(h, id), Served(h, id));
  }

  lemma FanoutStep<F>(h: Hub<F>, a: Action<F>, id: nat)
    requires Inv(h) && Enabled(h, a) && id in h.clients
    requires a.StartFanout? || a.PickClient? || a.Drain? || a.EndFanout?
    ensures ClientOk(Do(h, a).clients[id], Pushed(Do(h, a), id), Served(Do(h, a), id))
  {
    if a.Drain? && h.turn.id == id {
      assert ClientOk(h.clients[id], Pushed(h, id), Served(h, id));
    } else {
      Untouched(h, Do(h, a), id);
    }
  }

  lemma MembershipStep<F>(h: Hub<F>, a: Action<F>, id: nat)
    requires Inv(h) && Enabled(h, a) && (a.Register? || a.Unregister?) && id in Do(h, a).clients
    ensures ClientOk(Do(h, a).clients[id], Pushed(Do(h, a), id), Served(Do(h, a), id))
  {
    if id in h.clients {
      Untouched(h, Do(h, a), id);
    }
  }

  lemma ClientStep<F>(h: Hub<F>, a: Action<F>, id: nat)
    requires Inv(h) && Enabled(h, a) && id in Do(h, a).clients
    ensures ClientOk(Do(h, a).clients[id], Pushed(Do(h, a), id), Served(Do(h, a), id))
  {
    if OwnAction(a) {
      OwnStep(h, a, id);
    } else if a.TrySend? {
      SendStep(h, id);
    } else if a.Register? || a.Unregister? {
      MembershipStep(h, a, id);
    } else {
      FanoutStep(h, a, id);
    }
  }

  lemma Step<F>(h: Hub<F>, a: Action<F>)
    requires Inv(h) && Enabled(h, a)
    ensures Inv(Do(h, a))
  {
    TurnStep(h, a);
    forall id | id in Do(h, a).clients
      ensures ClientOk(Do(h, a).clients[id], Pushed(Do(h, a), id), Served(Do(h, a), id))
    {
      ClientStep(h, a, id);
    }
  }

  // ------------------------------------------------------------ runs

  predicate Runs<F>(h: Hub<F>, run: seq<Action<F>>)
    decreases |run|
  {
    run == [] || (Enabled(h, run[0]) && Runs(Do(h, run[0]), run[1..]))
  }

  function After<F>(h: Hub<F>, run: seq<Action<F>>): Hub<F>
    requires Runs(h, run)
    decreases |run|
  {
    if run == [] then h else After(Do(h, run[0]), run[1..])
  }

  function NewHub<F>(): Hub<F> { Hub([], map[], false, {}, Idle) }

  lemma {:induction false} InvRun<F>(h: Hub<F>, run: seq<Action<F>>)
    requires Inv(h) && Runs(h, run)
    ensures Inv(After(h, run))
    decreases |run|
  {
    if run != [] {
      Step(h, run[0]);
      InvRun(Do(h, run[0]), run[1..]);
    }
  }

  /** For every client at every reachable state: the state frames it dequeued are an in-order
      selection of those sent since it registered; unless a push to it is under way or still
      to come, the newest is in the slot or was its last one; while a frame is pending at most
      one lossy frame was dequeued; and a push never needs a third send. */
  lemma CoalesceLatest<F>(run: seq<Action<F>>, id: nat)
    requires Runs(NewHub<F>(), run) && id in After(NewHub<F>(), run).clients
    ensures var h := After(NewHub<F>(), run);
            var c := h.clients[id];
            && InOrder(c.taken, c.since, |h.sent|)
            && (id !in h.todo ==> Latest(c, |h.sent|))
            && (c.slot.Some? ==> c.overtakes <= 1)
            && (!h.turn.Idle? ==> h.turn.attempt <= 2)
            && (h.turn.Sending? && h.turn.attempt == 2 ==> Enabled(h, TrySend) && Do(h, TrySend).turn.Idle?)
  {
    InvRun(NewHub<F>(), run);
  }

  /** The invariant is never in the way of a step: a hub step is possible whenever its own
      guard holds, so a fan-out with clients left can always go on (Broadcast never blocks). */
  lemma FanoutNeverBlocks<F>(run: seq<Action<F>>)
    requires Runs(NewHub<F>(), run) && After(NewHub<F>(), run).busy
    ensures var h := After(NewHub<F>(), run);
            || Enabled(h, TrySend) || Enabled(h, Drain) || Enabled(h, EndFanout)
            || exists id :: id in h.todo && Enabled(h, PickClient(id))
  {
    InvRun(NewHub<F>(), run);
    var h := After(NewHub<F>(), run);
    if h.turn.Idle? && h.todo != {} {
      var id :| id in h.todo;
      assert Enabled(h, PickClient(id));
    }
  }

  // ------------------------------------------------------------ the lossy queue

  /** The lossy frames offered to a client while its queue had room, in the run's order. */
  function Admitted<F>(h: Hub<F>, run: seq<Action<F>>, id: nat): seq<F>
    requires Runs(h, run)
    decreases |run|
  {
    if run == [] then []
    else
      var a := run[0];
      (if a.OfferLossy? && a.id == id && |h.clients[id].lossy| < 64 then [a.frame] else [])
      + Admitted(Do(h, a), run[1..], id)
  }

  /** The lossy frames the client dequeued. */
  function Dequeued<F>(h: Hub<F>, run: seq<Action<F>>, id: nat): seq<F>
    requires Runs(h, run)
    decreases |run|
  {
    if run == [] then []
    else
      var a := run[0];
      (if a.TakeLossy? && a.id == id then [h.clients[id].lossy[0]] else []) + Dequeued(Do(h, a), run[1..], id)
  }

  predicate Stays<F>(run: seq<Action<F>>, id: nat) {
    forall i :: 0 <= i < |run| ==> run[i] != Unregister(id)
  }

  lemma LossyStep<F>(h: Hub<F>, a: Action<F>, id: nat)
    requires Enabled(h, a) && id in h.clients && a != Unregister(id)
    ensures id in Do(h, a).clients
    ensures h.clients[id].lossy
            + (if a.OfferLossy? && a.id == id && |h.clients[id].lossy| < 64 then [a.frame] else [])
         == (if a.TakeLossy? && a.id == id then [h.clients[id].lossy[0]] else []) + Do(h, a).clients[id].lossy
  {
    var q := h.clients[id].lossy;
    assert q != [] ==> q == [q[0]] + q[1..];
  }

  /** Of the lossy frames, a client gets all those offered while fewer than 64 were queued, in
      order, each once: what was queued and admitted is what was dequeued and is still queued. */
  lemma {:induction false} LossyIsFifo<F>(h: Hub<F>, run: seq<Action<F>>, id: nat)
    requires Runs(h, run) && id in h.clients && Stays(run, id)
    ensures id in After(h, run).clients
    ensures h.clients[id].lossy + Admitted(h, run, id) == Dequeued(h, run, id) + After(h, run).clients[id].lossy
    decreases |run|
  {
    if run != [] {
      var a, t := run[0], Do(h, run[0]);
      LossyStep(h, a, id);
      LossyIsFifo(t, run[1..], id);
      var offered := if a.OfferLossy? && a.id == id && |h.clients[id].lossy| < 64 then [a.frame] else [];
      var taken := if a.TakeLossy? && a.id == id then [h.clients[id].lossy[0]] else [];
      Regroup(h.clients[id].lossy, offered, Admitted(t, run[1..], id));
      Regroup(taken, t.clients[id].lossy, Admitted(t, run[1..], id));
      Regroup(taken, Dequeued(t, run[1..], id), After(h, run).clients[id].lossy);
    }
  }

  lemma Regroup<F>(a: seq<F>, b: seq<F>, c: seq<F>)
    ensures (a + b) + c == a + (b + c)
  {
  }

  // ------------------------------------------------------------ what is pending gets out

  /** A client that has neither left nor been unregistered is reading. */
  lemma {:induction false} StaysReading<F>(h: Hub<F>, run: seq<Action<F>>, id: nat)
    requires Runs(h, run) && id in h.clients && !h.clients[id].at.Gone? && Stays(run, id)
    requires forall i :: 0 <= i < |run| ==> run[i] != Leave(id)
    ensures id in After(h, run).clients && !After(h, run).clients[id].at.Gone?
    decreases |run|
  {
    if run != [] {
      StaysReading(Do(h, run[0]), run[1..], id);
    }
  }

  /** Registration needs only a free hub, and a new client starts reading with nothing pending. */
  lemma NewClientReads<F>(h: Hub<F>, id: nat)
    requires !h.busy && id !in h.clients
    ensures Enabled(h, Register(id))
    ensures var c := Do(h, Register(id)).clients[id];
            c.at.First? && c.slot.None? && c.lossy == [] && c.taken == [] && c.since == |h.sent|
  {
  }

  /** A broadcast of a state frame needs only a free hub and is then owed to every client; a
      lossy frame can be offered to any client at any time. */
  lemma BroadcastsStart<F>(h: Hub<F>, frame: F, id: nat)
    ensures !h.busy ==>
              && Enabled(h, StartFanout(frame))
              && var g := Do(h, StartFanout(frame)); g.sent == h.sent + [frame] && g.todo == h.clients.Keys && g.busy
    ensures id in h.clients ==> Enabled(h, OfferLossy(id, frame))
  {
  }

  /** A reading client with a state frame pending can dequeue it in one step, from either
      select; with only lossy frames queued, it can dequeue the oldest in at most two. */
  lemma PendingGetsOut<F>(h: Hub<F>, id: nat)
    requires id in h.clients && !h.clients[id].at.Gone?
    ensures var c := h.clients[id];
            c.slot.Some? ==>
              var a := if c.at.First? then Poll(id) else TakeState(id);
              Enabled(h, a) && Do(h, a).clients[id].slot.None? && Do(h, a).clients[id].taken == c.taken + [c.slot.value]
    ensures var c := h.clients[id];
            c.slot.None? && c.lossy != [] ==>
              && (c.at.First? ==> Enabled(h, Poll(id)))
              && var g := if c.at.First? then Do(h, Poll(id)) else h;
                 Enabled(g, TakeLossy(id)) && Do(g, TakeLossy(id)).clients[id].lossy == c.lossy[1..]
  {
  }
}
