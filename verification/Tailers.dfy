/** The log-tailer registry. Each method is one critical section (or one channel operation) of
    `startTailer`, of its goroutine, or of `stopTailer`; any interleaving is a sequence of them. */
module Tailers {
  import opened Text

  /** A tailer: its context is cancelled, its done channel is closed. */
  class Tailer {
    const container: string
    var cancelled: bool
    var closed: bool

    constructor (container: string)
      ensures this.container == container && !cancelled && !closed
    {
      this.container := container;
      cancelled, closed := false, false;
    }
  }

  /** Still following its container's log. */
  ghost predicate Live(t: Tailer)
    reads t
  {
    !t.cancelled && !t.closed
  }

  class Registry {
    var tailers: map<string, Tailer>
    // every tailer ever started
    ghost var started: set<Tailer>

    ghost predicate Valid()
      reads this, started
    {
      && (forall name :: name in tailers ==> tailers[name] in started && tailers[name].container == name)
      && (forall t :: t in started && Live(t) ==> t.container in tailers && tailers[t.container] == t)
    }

    constructor ()
      ensures Valid() && tailers == map[] && started == {}
    {
      tailers, started := map[], {};
    }

    /** A registered tailer that has not closed suppresses a new one; a closed one is replaced. */
    method StartTailer(name: string) returns (t: Option<Tailer>)
      requires Valid()
      modifies this
      ensures Valid()
      ensures t.None? <==> name in old(tailers) && !old(tailers[name].closed)
      ensures t.None? ==> tailers == old(tailers) && started == old(started)
      ensures t.Some? ==> fresh(t.value) && Live(t.value) && t.value.container == name
                          && tailers == old(tailers)[name := t.value] && started == old(started) + {t.value}
    {
      if name in tailers {
        if !tailers[name].closed {
          return None;
        }
        tailers := tailers - {name};
      }
      var tailer := new Tailer(name);
      tailers := tailers[name := tailer];
      started := started + {tailer};
      return Some(tailer);
    }

    /** The follower's child has exited: `close(t.done)`, before the map is touched. */
    method CloseDone(t: Tailer)
      requires Valid() && t in started && !t.closed
      modifies t`closed
      ensures Valid() && t.closed
    {
      t.closed := true;
    }

    /** The goroutine's clean-up removes its own registration and never a replacement. */
    method CleanUp(t: Tailer)
      requires Valid() && t in started && t.closed
      modifies this`tailers
      ensures Valid()
      ensures tailers == if t.container in old(tailers) && old(tailers)[t.container] == t
                         then old(tailers) - {t.container} else old(tailers)
      ensures forall u :: u in started && Live(u) ==> u.container in tailers && tailers[u.container] == u
    {
      if t.container in tailers && tailers[t.container] == t {
        tailers := tailers - {t.container};
      }
    }

    /** `cancel()` after the clean-up, or the parent context ending. */
    method Cancel(t: Tailer)
      requires Valid() && t in started
      modifies t`cancelled
      ensures Valid() && t.cancelled
    {
      t.cancelled := true;
    }

    method StopTailer(name: string)
      requires Valid()
      modifies this`tailers, started`cancelled
      ensures Valid()
      ensures name !in tailers && tailers == old(tailers) - {name}
      ensures forall u :: u in started ==>
                u.cancelled == (old(u.cancelled) || (name in old(tailers) && old(tailers)[name] == u))
      ensures forall u :: u in started && u.container == name ==> !Live(u)
    {
      if name in tailers {
        tailers[name].cancelled := true;
        tailers := tailers - {name};
      }
    }
  }

  /** A container has at most one live follower, the registered one. */
  ghost predicate AtMostOneLive(r: Registry)
    reads r, r.started
  {
    forall t, u :: t in r.started && u in r.started && Live(t) && Live(u) && t.container == u.container ==>
      t == u && t.container in r.tailers && r.tailers[t.container] == t
  }

  lemma OneLiveFollower(r: Registry)
    requires r.Valid()
    ensures AtMostOneLive(r)
  {
  }

  /** One critical section, or one channel operation, of any goroutine; tailers are named by
      the order in which they were started. */
  datatype Op = Start(name: string) | Close(nth: nat) | CleanUp(nth: nat) | Cancel(nth: nat) | Stop(name: string)

  /** Any interleaving of any number of starts, stops, exits and clean-ups: whatever sequence
      of operations is tried, each where its goroutine has got that far, at every point the
      registry it leads to has at most one live follower per container. */
  method Reach(ops: seq<Op>) returns (r: Registry)
    ensures fresh(r) && r.Valid() && AtMostOneLive(r)
  {
    r := new Registry();
    var all: seq<Tailer> := [];
    for k := 0 to |ops|
      invariant fresh(r) && r.Valid() && AtMostOneLive(r)
      invariant forall t :: t in r.started ==> fresh(t)
      invariant forall i :: 0 <= i < |all| ==> all[i] in r.started
    {
      match ops[k]
      case Start(name) =>
        var t := r.StartTailer(name);
        if t.Some? {
          all := all + [t.value];
        }
      case Close(n) =>
        if n < |all| && !all[n].closed {
          r.CloseDone(all[n]);
        }
      case CleanUp(n) =>
        if n < |all| && all[n].closed {
          r.CleanUp(all[n]);
        }
      case Cancel(n) =>
        if n < |all| {
          r.Cancel(all[n]);
        }
      case Stop(name) =>
        r.StopTailer(name);
      OneLiveFollower(r);
    }
  }

  /** The race the comments describe: a follower ends, is replaced before its goroutine gets
      the lock, and cleans up late. The replacement stays registered and live. */
  method LateCleanUp(r: Registry, t: Tailer) returns (next: Tailer)
    requires r.Valid() && t in r.started && t.container in r.tailers && r.tailers[t.container] == t && !t.closed
    modifies r, t
    ensures r.Valid() && fresh(next) && Live(next) && next.container == t.container
    ensures r.tailers == old(r.tailers)[t.container := next]
  {
    r.CloseDone(t);
    var started := r.StartTailer(t.container);
    next := started.value;
    r.CleanUp(t);
    r.Cancel(t);
  }
}
