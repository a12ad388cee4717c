/** The hub's event ring and the polling cursor of `/evlog`. */
module EventRing {
  import opened Text

  const CAP: nat := 250

  /** An event payload; a map payload gets its sequence number stamped in. */
  datatype Payload = Fields(text: string, stamp: Option<nat>) | Opaque(text: string)

  datatype Entry = Entry(num: nat, ev: Payload)

  function Stamped(p: Payload, num: nat): Payload {
    if p.Fields? then p.(stamp := Some(num)) else p
  }

  /** The k-th event ever recorded, counting from 1. */
  function Recorded(history: seq<Payload>, k: nat): Entry
    requires 1 <= k <= |history|
  {
    Entry(k, Stamped(history[k - 1], k))
  }

  /** Number of the last event that has fallen off. */
  function Lost(n: nat): nat {
    if n <= 250 then 0 else n - 250
  }

  /** The ring after `history`: its last CAP events with contiguous numbers. */
  function RingOf(history: seq<Payload>): seq<Entry> {
    var lost := Lost(|history|);
    seq(|history| - lost, i requires 0 <= i < |history| - lost => Recorded(history, lost + i + 1))
  }

  function Newer(entries: seq<Entry>, since: int): seq<Entry> {
    if entries == [] then []
    else
      var last := entries[|entries| - 1];
      Newer(entries[..|entries| - 1], since) + (if last.num > since then [last] else [])
  }

  lemma RingSnoc(history: seq<Payload>, payload: Payload)
    ensures var grown := RingOf(history) + [Entry(|history| + 1, Stamped(payload, |history| + 1))];
            RingOf(history + [payload]) == if |grown| > CAP then grown[|grown| - CAP..] else grown
  {
    var next := history + [payload];
    assert forall k :: 1 <= k <= |history| ==> Recorded(next, k) == Recorded(history, k);
    assert Recorded(next, |next|) == Entry(|next|, Stamped(payload, |next|));
    var grown := RingOf(history) + [Entry(|next|, Stamped(payload, |next|))];
    var kept := if |grown| > CAP then grown[|grown| - CAP..] else grown;
    assert |kept| == |RingOf(next)|;
    forall i | 0 <= i < |kept| ensures kept[i] == RingOf(next)[i] {
      assert RingOf(next)[i] == Recorded(next, Lost(|next|) + i + 1);
      if i < |kept| - 1 {
        var j := i + Lost(|next|) - Lost(|history|);
        assert kept[i] == RingOf(history)[j] == Recorded(history, Lost(|history|) + j + 1);
      }
    }
  }

  class Hub {
    var evSeq: nat
    var evRing: seq<Entry>
    // every event ever recorded
    ghost var history: seq<Payload>

    ghost predicate Valid()
      reads this
    {
      evSeq == |history| && evRing == RingOf(history)
    }

    constructor ()
      ensures Valid() && history == []
    {
      evSeq, evRing, history := 0, [], [];
    }

    /** The recording half of `Broadcast("event", …)`, under `evMu`. */
    method Record(payload: Payload)
      requires Valid()
      modifies this
      ensures Valid() && history == old(history) + [payload]
    {
      evSeq := evSeq + 1;
      evRing := evRing + [Entry(evSeq, Stamped(payload, evSeq))];
      if |evRing| > CAP {
        evRing := evRing[|evRing| - CAP..];
      }
      RingSnoc(history, payload);
      history := history + [payload];
    }

    method ServeEvLog(since: int) returns (num: nat, events: seq<Entry>)
      requires Valid()
      ensures num == |history| && events == Newer(RingOf(history), since)
    {
      events := [];
      for i := 0 to |evRing|
        invariant events == Newer(evRing[..i], since)
      {
        assert evRing[..i + 1][..i] == evRing[..i];
        if evRing[i].num > since {
          events := events + [evRing[i]];
        }
      }
      assert evRing[..|evRing|] == evRing;
      num := evSeq;
    }
  }

  // ------------------------------------------------------------ one poll

  predicate Increasing(entries: seq<Entry>) {
    forall i, j :: 0 <= i < j < |entries| ==> entries[i].num < entries[j].num
  }

  lemma {:induction false} NewerHas(entries: seq<Entry>, since: int, e: Entry)
    ensures e in Newer(entries, since) <==> e in entries && e.num > since
  {
    if entries != [] {
      var n := |entries| - 1;
      NewerHas(entries[..n], since, e);
      assert entries == entries[..n] + [entries[n]];
    }
  }

  lemma {:induction false} NewerIncreasing(entries: seq<Entry>, since: int)
    requires Increasing(entries)
    ensures Increasing(Newer(entries, since))
  {
    if entries != [] {
      var n := |entries| - 1;
      NewerIncreasing(entries[..n], since);
      var rest := Newer(entries[..n], since);
      forall i | 0 <= i < |rest| ensures rest[i].num < entries[n].num {
        NewerHas(entries[..n], since, rest[i]);
      }
    }
  }

  lemma RingIs(history: seq<Payload>)
    ensures Increasing(RingOf(history))
    ensures forall e: Entry :: e in RingOf(history)
              <==> Lost(|history|) < e.num <= |history| && e == Recorded(history, e.num)
  {
    var ring, lost := RingOf(history), Lost(|history|);
    assert forall i :: 0 <= i < |ring| ==> ring[i] == Recorded(history, lost + i + 1);
    assert forall i :: 0 <= i < |ring| ==> ring[i].num == lost + i + 1;
    forall e: Entry | lost < e.num <= |history| && e == Recorded(history, e.num) ensures e in ring {
      assert ring[e.num - lost - 1] == e;
    }
  }

  /** A poll returns, in order, exactly the recorded events after `since` still in the ring. */
  lemma PollReturns(history: seq<Payload>, since: int)
    ensures Increasing(Newer(RingOf(history), since))
    ensures forall e: Entry :: e in Newer(RingOf(history), since)
              <==> since < e.num && Lost(|history|) < e.num <= |history| && e == Recorded(history, e.num)
  {
    RingIs(history);
    NewerIncreasing(RingOf(history), since);
    forall e: Entry ensures e in Newer(RingOf(history), since) <==> e in RingOf(history) && e.num > since {
      NewerHas(RingOf(history), since, e);
    }
  }

  /** An event is returned with its text unaltered, and a map payload with its own number in
      it, as it went out live. */
  lemma ReturnedAsBroadcast(history: seq<Payload>, since: int, e: Entry)
    requires e in Newer(RingOf(history), since)
    ensures 1 <= e.num <= |history| && e.ev.text == history[e.num - 1].text
    ensures e.ev.Fields? <==> history[e.num - 1].Fields?
    ensures e.ev.Fields? ==> e.ev.stamp == Some(e.num)
  {
    PollReturns(history, since);
  }

  // ------------------------------------------------------------ a poller's whole run

  datatype Op = Event(payload: Payload) | Poll

  /** A poller that feeds back the returned number. */
  datatype Poller = Poller(history: seq<Payload>, cursor: nat, received: seq<Entry>)

  function PollRun(ops: seq<Op>): Poller {
    if ops == [] then Poller([], 0, [])
    else
      var p := PollRun(ops[..|ops| - 1]);
      match ops[|ops| - 1]
      case Event(payload) => p.(history := p.history + [payload])
      case Poll => p.(cursor := |p.history|, received := p.received + Newer(RingOf(p.history), p.cursor))
  }

  /** Some poll came more than CAP events after the previous one, and k was among the lost. */
  predicate Overrun(ops: seq<Op>, k: nat) {
    if ops == [] then false
    else
      var front := ops[..|ops| - 1];
      var p := PollRun(front);
      Overrun(front, k) || (ops[|ops| - 1].Poll? && p.cursor < k && k + 250 <= |p.history|)
  }

  ghost predicate Holds(ops: seq<Op>) {
    var p := PollRun(ops);
    && p.cursor <= |p.history|
    && Increasing(p.received)
    && (forall e: Entry :: e in p.received ==> 1 <= e.num <= p.cursor && e == Recorded(p.history, e.num))
    && (forall k :: 1 <= k <= p.cursor ==> (Recorded(p.history, k) in p.received <==> !Overrun(ops, k)))
    && (forall k: nat :: k > p.cursor ==> !Overrun(ops, k))
  }

  lemma EventKeeps(ops: seq<Op>)
    requires ops != [] && ops[|ops| - 1].Event? && Holds(ops[..|ops| - 1])
    ensures Holds(ops)
  {
    var front := ops[..|ops| - 1];
    var p, q := PollRun(front), PollRun(ops);
    assert forall k :: 1 <= k <= |p.history| ==> Recorded(q.history, k) == Recorded(p.history, k);
    assert forall k: nat :: Overrun(ops, k) <==> Overrun(front, k);
  }

  lemma ReceiveMore(p: Poller)
    requires p.cursor <= |p.history| && Increasing(p.received)
    requires forall e: Entry :: e in p.received ==> 1 <= e.num <= p.cursor && e == Recorded(p.history, e.num)
    ensures var more := Newer(RingOf(p.history), p.cursor);
            && Increasing(p.received + more)
            && forall e: Entry :: e in p.received + more ==>
                 1 <= e.num <= |p.history| && e == Recorded(p.history, e.num)
  {
    PollReturns(p.history, p.cursor);
    var more := Newer(RingOf(p.history), p.cursor);
    assert forall i :: 0 <= i < |p.received| ==> p.received[i] in p.received;
    assert forall i :: 0 <= i < |more| ==> more[i] in more;
  }

  lemma PollKeeps(ops: seq<Op>)
    requires ops != [] && ops[|ops| - 1].Poll? && Holds(ops[..|ops| - 1])
    ensures Holds(ops)
  {
    var front := ops[..|ops| - 1];
    var p := PollRun(front);
    var n := |p.history|;
    ReceiveMore(p);
    PollReturns(p.history, p.cursor);
    var more := Newer(RingOf(p.history), p.cursor);
    assert PollRun(ops) == Poller(p.history, n, p.received + more);
    forall k | 1 <= k <= n ensures Recorded(p.history, k) in p.received + more <==> !Overrun(ops, k) {
      var e := Recorded(p.history, k);
      assert e.num == k;
      assert e in p.received + more <==> e in p.received || e in more;
      assert Overrun(ops, k) <==> Overrun(front, k) || (p.cursor < k && k + CAP <= n);
      if k <= p.cursor {
        assert e in p.received <==> !Overrun(front, k);
        assert e !in more;
      } else {
        assert e !in p.received;
        assert e in more <==> Lost(n) < k;
        assert !Overrun(front, k);
      }
    }
    forall k: nat | k > n ensures !Overrun(ops, k) {
      assert !Overrun(front, k);
    }
  }

  /** Over any interleaving of events and polls the poller receives events in order, each at
      most once and unaltered, and of those its cursor has passed it missed exactly the ones
      that an overrun of more than CAP events between two polls pushed out. */
  lemma {:induction false} PollerIsExact(ops: seq<Op>)
    ensures Holds(ops)
  {
    if ops != [] {
      PollerIsExact(ops[..|ops| - 1]);
      if ops[|ops| - 1].Event? {
        EventKeeps(ops);
      } else {
        PollKeeps(ops);
      }
    }
  }
}
