/** The aliasing discipline of the config cache: `tunnelFromConf` hands out a copy of the
    Forwards slice, so `State` may overwrite what it got without touching a cached entry. */
module ConfAliasing {
  import opened Text
  import opened Forwards
  import opened ConfCache

  /** A tunnel as returned: its Forwards are a mutable slice. */
  datatype Tunnel = Tunnel(id: string, forwards: array<Forward>)

  datatype CacheEntry = CacheEntry(stamp: Stamp, tun: Tunnel)

  /** Calls interleave between the critical sections `Lookup` and `Store`; a slice taken out of
      the cache, or parsed and perhaps stored, is then still to be cloned. `parsed` holds every
      slice a config was ever parsed into, with what it was parsed into. */
  class Docker {
    var confCache: map<string, CacheEntry>
    ghost var parsed: map<array<Forward>, seq<Forward>>
    // every slice ever returned to a caller
    ghost var handedOut: set<array<Forward>>

    /** No parsed slice was handed out or has changed, and the cache holds only such slices. */
    ghost predicate Valid()
      reads this, parsed.Keys
    {
      && parsed.Keys !! handedOut
      && (forall a :: a in parsed ==> a[..] == parsed[a])
      && (forall name :: name in confCache ==> confCache[name].tun.forwards in parsed && confCache[name].tun.id == name)
    }

    /** The cache by value: what a later hit would return. */
    ghost function Cached(): map<string, (Stamp, seq<Forward>)>
      requires Valid()
      reads this, parsed.Keys
    {
      map name | name in confCache :: (confCache[name].stamp, parsed[confCache[name].tun.forwards])
    }

    constructor ()
      ensures Valid() && confCache == map[] && handedOut == {} && parsed == map[]
    {
      confCache, handedOut, parsed := map[], {}, map[];
    }

    static method CloneForwards(t: Tunnel) returns (r: Tunnel)
      ensures fresh(r.forwards) && r.id == t.id && r.forwards[..] == t.forwards[..]
    {
      var cp := new Forward[t.forwards.Length](i requires 0 <= i < t.forwards.Length reads t.forwards => t.forwards[i]);
      r := Tunnel(t.id, cp);
    }

    /** The lookup under the lock: what it returns still belongs to the cache. */
    method Lookup(name: string, stamp: Stamp) returns (t: Option<Tunnel>)
      requires Valid()
      ensures t.Some? <==> name in confCache && confCache[name].stamp == stamp
      ensures t.Some? ==> t.value == confCache[name].tun && t.value.forwards in parsed
    {
      if name in confCache && confCache[name].stamp == stamp {
        return Some(confCache[name].tun);
      }
      return None;
    }

    /** Outside the lock: the file's forwards in a slice of their own. */
    method Parse(name: string, fs: seq<Forward>) returns (t: Tunnel)
      requires Valid()
      modifies this`parsed
      ensures Valid() && fresh(t.forwards) && t.id == name
      ensures parsed == old(parsed)[t.forwards := fs] && Cached() == old(Cached())
    {
      var a := new Forward[|fs|](i requires 0 <= i < |fs| => fs[i]);
      t := Tunnel(name, a);
      parsed := parsed[a := fs];
    }

    /** The store under the lock. */
    method Store(name: string, stamp: Stamp, t: Tunnel)
      requires Valid() && t.forwards in parsed && t.id == name
      modifies this`confCache
      ensures Valid() && Cached() == old(Cached())[name := (stamp, parsed[t.forwards])]
    {
      confCache := confCache[name := CacheEntry(stamp, t)];
    }

    /** The clone on the way out, after the unlock. Whatever other calls stored, parsed or
        overwrote since `t` was looked up or parsed, the caller gets what `t` was parsed into. */
    method HandOut(t: Tunnel) returns (r: Tunnel)
      requires Valid() && t.forwards in parsed
      modifies this`handedOut
      ensures Valid() && fresh(r.forwards) && r.id == t.id && r.forwards[..] == parsed[t.forwards]
      ensures handedOut == old(handedOut) + {r.forwards} && Cached() == old(Cached())
    {
      r := CloneForwards(t);
      handedOut := handedOut + {r.forwards};
    }

    /** A missing or unreadable config: an empty slice that nothing else holds. */
    method HandEmpty(name: string) returns (r: Tunnel)
      requires Valid()
      modifies this`handedOut
      ensures Valid() && fresh(r.forwards) && r.forwards[..] == [] && r.id == name
      ensures handedOut == old(handedOut) + {r.forwards} && Cached() == old(Cached())
    {
      var a := new Forward[0];
      r := Tunnel(name, a);
      handedOut := handedOut + {a};
    }

    /** One call that nothing interleaves with; `stat` and `parse` are what the file yields
        (None: missing, unreadable). Only a miss that parses changes the cache. */
    method TunnelFromConf(name: string, stat: Option<Stamp>, parse: Option<seq<Forward>>) returns (t: Tunnel)
      requires Valid()
      modifies this
      ensures Valid() && fresh(t.forwards) && t.id == name
      ensures handedOut == old(handedOut) + {t.forwards}
      ensures var hit := stat.Some? && name in old(confCache) && old(confCache)[name].stamp == stat.value;
              && t.forwards[..] == (if hit then old(Cached())[name].1 else if parse.Some? then parse.value else [])
              && Cached() == (if hit || parse.None? || stat.None? then old(Cached())
                              else old(Cached())[name := (stat.value, parse.value)])
    {
      if stat.Some? {
        var e := Lookup(name, stat.value);
        if e.Some? {
          t := HandOut(e.value);
          return;
        }
      }
      if parse.None? {
        t := HandEmpty(name);
        return;
      }
      var c := Parse(name, parse.value);
      if stat.Some? {
        Store(name, stat.value, c);
      }
      t := HandOut(c);
    }

    /** A hit that is cloned late: another call has replaced the entry meanwhile, and a third
        caller has overwritten what it was given. The hit still returns what it found. */
    method LateClone(name: string, stamp: Stamp, later: Stamp, fs: seq<Forward>, other: Tunnel,
                     pub: map<string, string>)
      returns (t: Tunnel)
      requires Valid() && name in confCache && confCache[name].stamp == stamp && other.forwards in handedOut
      modifies this, other.forwards
      ensures Valid() && fresh(t.forwards) && t.forwards[..] == old(Cached())[name].1
      ensures Cached() == old(Cached())[name := (later, fs)]
    {
      var e := Lookup(name, stamp);
      var c := Parse(name, fs);
      Store(name, later, c);
      Overlay(other, pub);
      t := HandOut(e.value);
    }

    /** Overwriting any slice that was ever returned leaves every cached entry as it was. */
    method Overlay(t: Tunnel, pub: map<string, string>)
      requires Valid() && t.forwards in handedOut
      modifies t.forwards
      ensures Valid() && Cached() == old(Cached())
      ensures t.forwards[..] == Shown(old(t.forwards[..]), pub)
    {
      ResolvePublished(t.forwards, pub);
    }

    /** `State` for one tunnel: read the config, then resolve the published ports in place. */
    method StateOf(name: string, stat: Option<Stamp>, parse: Option<seq<Forward>>, pub: map<string, string>)
      returns (t: Tunnel)
      requires Valid()
      modifies this
      ensures Valid() && fresh(t.forwards)
      ensures var hit := stat.Some? && name in old(confCache) && old(confCache)[name].stamp == stat.value;
              var read := if hit then old(Cached())[name].1 else if parse.Some? then parse.value else [];
              && t.forwards[..] == Shown(read, pub)
              && Cached() == (if hit || parse.None? || stat.None? then old(Cached())
                              else old(Cached())[name := (stat.value, parse.value)])
    {
      t := TunnelFromConf(name, stat, parse);
      Overlay(t, pub);
    }
  }
}
