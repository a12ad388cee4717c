/** The daemon's parsed-config cache. `tunnelFromConf` stats the file, looks the stamp up under
    the lock, and on a miss reads the file and stores the parse under the stamp it saw before.
    Writers and any number of calls interleave between these steps. */
module ConfCache {
  import opened Text

  /** The (mtime, size) pair of a file version. */
  datatype Stamp = Stamp(mtime: int, size: int)

  /** What a path can hold; an unreadable config parses to None. */
  datatype Version<T> = Missing | Present(stamp: Stamp, parse: Option<T>)

  datatype Entry<T> = Entry(stamp: Stamp, tun: T)

  /** A call in progress; `since` is the version that was current when it began. */
  datatype Call<T> =
    | Called(name: string, since: nat)
    | Looking(name: string, since: nat, stamp: Stamp)
    | Reading(name: string, since: nat, seen: Option<Stamp>)
    | Storing(name: string, since: nat, seen: Option<Stamp>, tun: T)
    | Returned(name: string, since: nat, until: nat, result: Option<T>)

  /** `files` holds every version each path ever had, the last one being current. */
  datatype State<T> = State(
    files: map<string, seq<Version<T>>>, cache: map<string, Entry<T>>, calls: map<nat, Call<T>>)

  datatype Action<T> =
    | Write(path: string, version: Version<T>)
    | Begin(id: nat, path: string)
    | Stat(id: nat)
    | Lookup(id: nat)
    | Read(id: nat)
    | Store(id: nat)

  function History<T>(s: State<T>, name: string): (h: seq<Version<T>>)
    ensures h != []
  {
    if name in s.files && s.files[name] != [] then s.files[name] else [Missing]
  }

  function Current<T>(s: State<T>, name: string): nat {
    |History(s, name)| - 1
  }

  /** Distinct versions of a file have distinct stamps. */
  predicate NewStamp<T>(h: seq<Version<T>>, v: Version<T>) {
    v.Present? ==> forall k :: 0 <= k < |h| && h[k].Present? ==> h[k].stamp != v.stamp
  }

  ghost predicate Enabled<T(!new)>(s: State<T>, a: Action<T>) {
    match a
    case Write(name, v) => NewStamp(History(s, name), v)
    case Begin(id, name) => id !in s.calls
    case Stat(id) => id in s.calls && s.calls[id].Called?
    case Lookup(id) => id in s.calls && s.calls[id].Looking?
    case Read(id) => id in s.calls && s.calls[id].Reading?
    case Store(id) => id in s.calls && s.calls[id].Storing?
  }

  function AfterStat<T>(c: Call<T>, v: Version<T>): Call<T>
    requires c.Called?
  {
    if v.Present? then Looking(c.name, c.since, v.stamp) else Reading(c.name, c.since, None)
  }

  function AfterLookup<T>(c: Call<T>, cache: map<string, Entry<T>>, now: nat): Call<T>
    requires c.Looking?
  {
    if c.name in cache && cache[c.name].stamp == c.stamp then Returned(c.name, c.since, now, Some(cache[c.name].tun))
    else Reading(c.name, c.since, Some(c.stamp))
  }

  function AfterRead<T>(c: Call<T>, v: Version<T>, now: nat): Call<T>
    requires c.Reading?
  {
    if v.Present? && v.parse.Some? then Storing(c.name, c.since, c.seen, v.parse.value)
    else Returned(c.name, c.since, now, None)
  }

  ghost function Do<T(!new)>(s: State<T>, a: Action<T>): State<T>
    requires Enabled(s, a)
  {
    match a
    case Write(name, v) => s.(files := s.files[name := History(s, name) + [v]])
    case Begin(id, name) => s.(calls := s.calls[id := Called(name, Current(s, name))])
    case Stat(id) =>
      var c := s.calls[id];
      s.(calls := s.calls[id := AfterStat(c, History(s, c.name)[Current(s, c.name)])])
    case Lookup(id) =>
      var c := s.calls[id];
      s.(calls := s.calls[id := AfterLookup(c, s.cache, Current(s, c.name))])
    case Read(id) =>
      var c := s.calls[id];
      s.(calls := s.calls[id := AfterRead(c, History(s, c.name)[Current(s, c.name)], Current(s, c.name))])
    case Store(id) =>
      var c := s.calls[id];
      s.(cache := if c.seen.Some? then s.cache[c.name := Entry(c.seen.value, c.tun)] else s.cache,
         calls := s.calls[id := Returned(c.name, c.since, Current(s, c.name), Some(c.tun))])
  }

  // ------------------------------------------------------------ invariant

  predicate Stamped<T>(h: seq<Version<T>>, k: nat, stamp: Stamp) {
    k < |h| && h[k].Present? && h[k].stamp == stamp
  }

  ghost predicate Parsed<T>(h: seq<Version<T>>, k: nat, tun: T) {
    k < |h| && h[k].Present? && h[k].parse == Some(tun)
  }

  predicate Distinct<T>(h: seq<Version<T>>) {
    forall i, j :: 0 <= i < j < |h| && h[i].Present? && h[j].Present? ==> h[i].stamp != h[j].stamp
  }

  /** An entry pairs the stamp of one version with the parse of that or a later version. */
  ghost predicate EntryOk<T(!new)>(h: seq<Version<T>>, stamp: Stamp, tun: T) {
    exists a: nat, b: nat :: a <= b && Stamped(h, a, stamp) && Parsed(h, b, tun)
  }

  /** The version with this stamp was current at some instant since `since`. */
  ghost predicate SeenSince<T(!new)>(h: seq<Version<T>>, since: nat, stamp: Stamp) {
    exists a: nat :: since <= a && Stamped(h, a, stamp)
  }

  /** `tun` parses a version that was current at some instant from `since` to `until`. */
  ghost predicate ParsedWithin<T(!new)>(h: seq<Version<T>>, since: nat, until: nat, tun: T) {
    exists k: nat :: since <= k <= until && Parsed(h, k, tun)
  }

  /** A missing or unparseable version was current at some instant from `since` to `until`. */
  ghost predicate BadWithin<T>(h: seq<Version<T>>, since: nat, until: nat) {
    exists k: nat :: since <= k <= until && Bad(h, k)
  }

  predicate Bad<T>(h: seq<Version<T>>, k: nat) {
    k < |h| && (h[k].Missing? || h[k].parse.None?)
  }

  ghost predicate CallOk<T(!new)>(h: seq<Version<T>>, c: Call<T>) {
    c.since < |h| &&
    match c
    case Called(_, _) => true
    case Looking(_, since, stamp) => SeenSince(h, since, stamp)
    case Reading(_, since, seen) => seen.Some? ==> SeenSince(h, since, seen.value)
    case Storing(_, since, seen, tun) =>
      && ParsedWithin(h, since, |h| - 1, tun)
      && (seen.Some? ==> EntryOk(h, seen.value, tun))
    case Returned(_, since, until, result) =>
      && until < |h|
      && (if result.Some? then ParsedWithin(h, since, until, result.value) else BadWithin(h, since, until))
  }

  ghost predicate Inv<T(!new)>(s: State<T>) {
    && (forall name :: name in s.files ==> Distinct(s.files[name]))
    && (forall name :: name in s.cache ==> EntryOk(History(s, name), s.cache[name].stamp, s.cache[name].tun))
    && (forall id :: id in s.calls ==> CallOk(History(s, s.calls[id].name), s.calls[id]))
  }

  // ------------------------------------------------------------ preservation

  lemma DistinctStamp<T>(h: seq<Version<T>>, a: nat, b: nat, stamp: Stamp)
    requires Distinct(h) && Stamped(h, a, stamp) && Stamped(h, b, stamp)
    ensures a == b
  {
  }

  /** A hit: the entry's parse was current between the call's stat and its lookup. */
  lemma HitIsWithin<T(!new)>(h: seq<Version<T>>, since: nat, stamp: Stamp, tun: T)
    requires Distinct(h) && SeenSince(h, since, stamp) && EntryOk(h, stamp, tun)
    ensures ParsedWithin(h, since, |h| - 1, tun)
  {
    var a: nat :| since <= a && Stamped(h, a, stamp);
    var x: nat, b: nat :| x <= b && Stamped(h, x, stamp) && Parsed(h, b, tun);
    DistinctStamp(h, a, x, stamp);
    assert since <= b <= |h| - 1 && Parsed(h, b, tun);
  }

  lemma MissIsEntry<T(!new)>(h: seq<Version<T>>, since: nat, stamp: Stamp, tun: T)
    requires SeenSince(h, since, stamp) && |h| > 0 && Parsed(h, |h| - 1, tun)
    ensures EntryOk(h, stamp, tun)
  {
    var a: nat :| since <= a && Stamped(h, a, stamp);
    assert a <= |h| - 1;
  }

  lemma EntryGrows<T(!new)>(h: seq<Version<T>>, v: Version<T>, stamp: Stamp, tun: T)
    requires EntryOk(h, stamp, tun)
    ensures EntryOk(h + [v], stamp, tun)
  {
    var a: nat, b: nat :| a <= b && Stamped(h, a, stamp) && Parsed(h, b, tun);
    assert Stamped(h + [v], a, stamp) && Parsed(h + [v], b, tun);
  }

  lemma SeenGrows<T(!new)>(h: seq<Version<T>>, v: Version<T>, since: nat, stamp: Stamp)
    requires SeenSince(h, since, stamp)
    ensures SeenSince(h + [v], since, stamp)
  {
    var a: nat :| since <= a && Stamped(h, a, stamp);
    assert Stamped(h + [v], a, stamp);
  }

  lemma WithinGrows<T(!new)>(h: seq<Version<T>>, v: Version<T>, since: nat, until: nat, more: nat, tun: T)
    requires ParsedWithin(h, since, until, tun) && until <= more
    ensures ParsedWithin(h + [v], since, more, tun)
  {
    var k: nat :| since <= k <= until && Parsed(h, k, tun);
    assert since <= k <= more && Parsed(h + [v], k, tun);
  }

  lemma BadGrows<T>(h: seq<Version<T>>, v: Version<T>, since: nat, until: nat)
    requires BadWithin(h, since, until)
    ensures BadWithin(h + [v], since, until)
  {
    var k: nat :| since <= k <= until && Bad(h, k);
    assert Bad(h + [v], k);
  }

  lemma CallGrows<T(!new)>(h: seq<Version<T>>, v: Version<T>, c: Call<T>)
    requires CallOk(h, c)
    ensures CallOk(h + [v], c)
  {
    match c
    case Called(_, _) =>
    case Looking(_, since, stamp) => SeenGrows(h, v, since, stamp);
    case Reading(_, since, seen) =>
      if seen.Some? { SeenGrows(h, v, since, seen.value); }
    case Storing(_, since, seen, tun) =>
      WithinGrows(h, v, since, |h| - 1, |h|, tun);
      if seen.Some? { EntryGrows(h, v, seen.value, tun); }
    case Returned(_, since, until, result) =>
      if result.Some? {
        WithinGrows(h, v, since, until, until, result.value);
      } else {
        BadGrows(h, v, since, until);
      }
  }

  lemma WriteStep<T(!new)>(s: State<T>, name: string, v: Version<T>)
    requires Inv(s) && Enabled(s, Write(name, v))
    ensures Inv(Do(s, Write(name, v)))
  {
    var t := Do(s, Write(name, v));
    var h := History(s, name);
    assert History(t, name) == h + [v];
    assert forall n :: n != name ==> History(t, n) == History(s, n);
    forall n | n in t.cache ensures EntryOk(History(t, n), t.cache[n].stamp, t.cache[n].tun) {
      if n == name { EntryGrows(h, v, s.cache[n].stamp, s.cache[n].tun); }
    }
    forall id | id in t.calls ensures CallOk(History(t, t.calls[id].name), t.calls[id]) {
      if s.calls[id].name == name { CallGrows(h, v, s.calls[id]); }
    }
  }

  /** The call's own step keeps it right. */
  lemma CallStep<T(!new)>(s: State<T>, a: Action<T>, id: nat)
    requires Inv(s) && Enabled(s, a) && id in s.calls
    requires a == Stat(id) || a == Lookup(id) || a == Read(id) || a == Store(id)
    ensures CallOk(History(s, s.calls[id].name), Do(s, a).calls[id])
    ensures a.Store? && s.calls[id].seen.Some? ==>
              EntryOk(History(s, s.calls[id].name), s.calls[id].seen.value, s.calls[id].tun)
  {
    var c := s.calls[id];
    var h := History(s, c.name);
    var last := |h| - 1;
    assert CallOk(h, c) && Distinct(h);
    if a.Stat? {
      if h[last].Present? {
        assert Stamped(h, last, h[last].stamp);
      }
    } else if a.Lookup? {
      if c.name in s.cache && s.cache[c.name].stamp == c.stamp {
        HitIsWithin(h, c.since, c.stamp, s.cache[c.name].tun);
      }
    } else if a.Read? {
      if h[last].Present? && h[last].parse.Some? {
        assert Parsed(h, last, h[last].parse.value);
        if c.seen.Some? {
          MissIsEntry(h, c.since, c.seen.value, h[last].parse.value);
        }
      } else {
        assert Bad(h, last);
      }
    }
  }

  lemma OwnStep<T(!new)>(s: State<T>, a: Action<T>, id: nat)
    requires Inv(s) && Enabled(s, a) && id in s.calls
    requires a == Stat(id) || a == Lookup(id) || a == Read(id)
    ensures Inv(Do(s, a))
  {
    CallStep(s, a, id);
    var t := Do(s, a);
    assert t.files == s.files && t.cache == s.cache && t.calls[id].name == s.calls[id].name;
    assert forall n :: History(t, n) == History(s, n);
    forall i | i in t.calls ensures CallOk(History(t, t.calls[i].name), t.calls[i]) {
      if i != id {
        assert CallOk(History(s, s.calls[i].name), s.calls[i]);
      }
    }
  }

  lemma StoreStep<T(!new)>(s: State<T>, id: nat)
    requires Inv(s) && Enabled(s, Store(id))
    ensures Inv(Do(s, Store(id)))
  {
    CallStep(s, Store(id), id);
    var t := Do(s, Store(id));
    assert t.files == s.files && t.calls[id].name == s.calls[id].name;
    assert forall n :: History(t, n) == History(s, n);
    forall n | n in t.cache ensures EntryOk(History(t, n), t.cache[n].stamp, t.cache[n].tun) {
      if n != s.calls[id].name || s.calls[id].seen.None? {
        assert EntryOk(History(s, n), s.cache[n].stamp, s.cache[n].tun);
      }
    }
    forall i | i in t.calls ensures CallOk(History(t, t.calls[i].name), t.calls[i]) {
      if i != id {
        assert CallOk(History(s, s.calls[i].name), s.calls[i]);
      }
    }
  }

  lemma BeginStep<T(!new)>(s: State<T>, id: nat, name: string)
    requires Inv(s) && Enabled(s, Begin(id, name))
    ensures Inv(Do(s, Begin(id, name)))
  {
    var t := Do(s, Begin(id, name));
    assert forall n :: History(t, n) == History(s, n);
    forall i | i in t.calls ensures CallOk(History(t, t.calls[i].name), t.calls[i]) {
      if i != id {
        assert CallOk(History(s, s.calls[i].name), s.calls[i]);
      }
    }
  }

  lemma Step<T(!new)>(s: State<T>, a: Action<T>)
    requires Inv(s) && Enabled(s, a)
    ensures Inv(Do(s, a))
  {
    match a
    case Write(path, version) => WriteStep(s, path, version);
    case Begin(id, path) => BeginStep(s, id, path);
    case Stat(id) => OwnStep(s, a, id);
    case Lookup(id) => OwnStep(s, a, id);
    case Read(id) => OwnStep(s, a, id);
    case Store(id) => StoreStep(s, id);
  }

  // ------------------------------------------------------------ runs

  ghost predicate Runs<T(!new)>(s: State<T>, run: seq<Action<T>>)
    decreases |run|
  {
    run == [] || (Enabled(s, run[0]) && Runs(Do(s, run[0]), run[1..]))
  }

  ghost function After<T(!new)>(s: State<T>, run: seq<Action<T>>): State<T>
    requires Runs(s, run)
    decreases |run|
  {
    if run == [] then s else After(Do(s, run[0]), run[1..])
  }

  lemma {:induction false} InvRun<T(!new)>(s: State<T>, run: seq<Action<T>>)
    requires Inv(s) && Runs(s, run)
    ensures Inv(After(s, run))
    decreases |run|
  {
    if run != [] {
      Step(s, run[0]);
      InvRun(Do(s, run[0]), run[1..]);
    }
  }

  function Initial<T>(): State<T> { State(map[], map[], map[]) }

  /** Linearizability: under any interleaving of writes and calls, every successful call
      returns the parse of a version its file had at some instant between the call's first
      and last step. In particular, if the file did not change meanwhile, of that version. */
  lemma CallsAreLinearizable<T(!new)>(run: seq<Action<T>>, id: nat)
    requires Runs(Initial(), run)
    requires var s := After<T>(Initial(), run);
             id in s.calls && s.calls[id].Returned? && s.calls[id].result.Some?
    ensures var s := After<T>(Initial(), run);
            var c, h := s.calls[id], History(s, s.calls[id].name);
            && c.since <= c.until < |h|
            && ParsedWithin(h, c.since, c.until, c.result.value)
            && (c.since == c.until ==> Parsed(h, c.since, c.result.value))
  {
    InvRun<T>(Initial(), run);
    var s := After<T>(Initial(), run);
    var c, h := s.calls[id], History(s, s.calls[id].name);
    assert CallOk(h, c);
    var k: nat :| c.since <= k <= c.until && Parsed(h, k, c.result.value);
  }

  /** And a call fails only if its file was missing or unparseable at some such instant: while
      every version is readable, every call succeeds. */
  lemma FailuresAreLinearizable<T(!new)>(run: seq<Action<T>>, id: nat)
    requires Runs(Initial(), run)
    requires var s := After<T>(Initial(), run);
             id in s.calls && s.calls[id].Returned? && s.calls[id].result.None?
    ensures var s := After<T>(Initial(), run);
            var c, h := s.calls[id], History(s, s.calls[id].name);
            c.since <= c.until < |h| && BadWithin(h, c.since, c.until)
  {
    InvRun<T>(Initial(), run);
    var s := After<T>(Initial(), run);
    assert CallOk(History(s, s.calls[id].name), s.calls[id]);
  }

  /** A cached version is not read again: with an entry under the file's current stamp, a call
      that nothing interleaves with returns the parse of the current version after its stat
      and its lookup, without a read or a store. */
  lemma CachedIsNotReadAgain<T(!new)>(s: State<T>, id: nat, name: string)
    requires Inv(s) && id !in s.calls && name in s.cache && name in s.files && s.files[name] != []
    requires var v := s.files[name][|s.files[name]| - 1]; v.Present? && v.stamp == s.cache[name].stamp
    ensures var s1 := Do(s, Begin(id, name));
            && Enabled(s1, Stat(id)) && Enabled(Do(s1, Stat(id)), Lookup(id))
            && var t := Do(Do(s1, Stat(id)), Lookup(id));
               && t.cache == s.cache && t.files == s.files
               && t.calls[id].Returned? && t.calls[id].result == s.files[name][|s.files[name]| - 1].parse
  {
    var h := s.files[name];
    var e := s.cache[name];
    assert EntryOk(History(s, name), e.stamp, e.tun);
    var a: nat, b: nat :| a <= b && Stamped(h, a, e.stamp) && Parsed(h, b, e.tun);
    DistinctStamp(h, a, |h| - 1, e.stamp);
    assert b == |h| - 1;
  }

  /** Writing a file reaches neither the cache nor a call under way. */
  lemma WritesAreForeign<T(!new)>(s: State<T>, name: string, v: Version<T>)
    requires Enabled(s, Write(name, v))
    ensures var t := Do(s, Write(name, v)); t.cache == s.cache && t.calls == s.calls
    ensures History(Do(s, Write(name, v)), name) == History(s, name) + [v]
  {
  }

  /** The other way round, a call that nothing interleaves with, on a readable file that is not
      cached as it stands, reads it, returns its parse and leaves it cached. */
  lemma MissIsCached<T(!new)>(s: State<T>, id: nat, name: string)
    requires id !in s.calls && name in s.files && s.files[name] != []
    requires var v := s.files[name][|s.files[name]| - 1];
             && v.Present? && v.parse.Some?
             && (name in s.cache ==> s.cache[name].stamp != v.stamp)
    ensures Runs(s, [Begin(id, name), Stat(id), Lookup(id), Read(id), Store(id)])
    ensures var t := After(s, [Begin(id, name), Stat(id), Lookup(id), Read(id), Store(id)]);
            var v := s.files[name][|s.files[name]| - 1];
            && id in t.calls && t.calls[id].Returned? && t.calls[id].result == v.parse
            && t.cache == s.cache[name := Entry(v.stamp, v.parse.value)] && t.files == s.files
  {
    var run := [Begin(id, name), Stat(id), Lookup(id), Read(id), Store(id)];
    var s1 := Do(s, run[0]);
    var s2 := Do(s1, run[1]);
    var s3 := Do(s2, run[2]);
    var s4 := Do(s3, run[3]);
    var s5 := Do(s4, run[4]);
    RunsFrom(s4, run[4], run[5..], s5);
    assert run[4..] == [run[4]] + run[5..];
    RunsFrom(s3, run[3], run[4..], s5);
    assert run[3..] == [run[3]] + run[4..];
    RunsFrom(s2, run[2], run[3..], s5);
    assert run[2..] == [run[2]] + run[3..];
    RunsFrom(s1, run[1], run[2..], s5);
    assert run[1..] == [run[1]] + run[2..];
    RunsFrom(s, run[0], run[1..], s5);
    assert run == [run[0]] + run[1..];
  }

  lemma RunsFrom<T(!new)>(s: State<T>, a: Action<T>, rest: seq<Action<T>>, t: State<T>)
    requires Enabled(s, a) && Runs(Do(s, a), rest) && After(Do(s, a), rest) == t
    ensures Runs(s, [a] + rest) && After(s, [a] + rest) == t
  {
    assert ([a] + rest)[1..] == rest;
  }
}
