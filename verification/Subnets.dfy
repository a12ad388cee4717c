/** The most specific network around an address (`subnetOf`). Addresses and masks are bit
    strings of 32 or 128 bits, ANDed bit by bit as `net.IPNet.Contains` ANDs its bytes. */
module Subnets {

  import opened Text

  type Bits = seq<bool>

  /** What `net.ParseCIDR` returns: the base address, already masked, and the mask length. */
  datatype Net = Net(base: Bits, ones: nat) {
    predicate Valid() {
      && (|base| == 32 || |base| == 128)
      && ones <= |base|
      && base == And(base, ones)
    }

    predicate Contains(ip: Bits) {
      |ip| == |base| && And(ip, ones) == And(base, ones)
    }
  }

  /** `ip & mask` for the mask of `ones` leading one bits. */
  function And(ip: Bits, ones: nat): Bits {
    seq(|ip|, i requires 0 <= i < |ip| => ip[i] && i < ones)
  }

  predicate ValidNets(nets: seq<Net>) {
    forall i :: 0 <= i < |nets| ==> nets[i].Valid()
  }

  /** `best` is a longest-prefix network of `nets` around `ip`, and absent only when there
      is none; an address that does not parse is in no network. */
  predicate IsBest(ip: Option<Bits>, nets: seq<Net>, best: Option<Net>) {
    match best
    case None => ip.Some? ==> forall i :: 0 <= i < |nets| ==> !nets[i].Contains(ip.value)
    case Some(n) =>
      && ip.Some?
      && n in nets && n.Contains(ip.value)
      && forall i :: 0 <= i < |nets| && nets[i].Contains(ip.value) ==> nets[i].ones <= n.ones
  }

  method SubnetOf(ip: Option<Bits>, nets: seq<Net>) returns (best: Option<Net>)
    ensures IsBest(ip, nets, best)
  {
    best := None;
    if ip.None? {
      return;
    }
    var bestOnes: int := -1;
    for k := 0 to |nets|
      invariant IsBest(ip, nets[..k], best)
      invariant bestOnes == if best.Some? then best.value.ones else -1
    {
      var n := nets[k];
      assert nets[..k + 1] == nets[..k] + [n];
      if n.Contains(ip.value) && n.ones > bestOnes {
        bestOnes, best := n.ones, Some(n);
      }
    }
    assert nets[..|nets|] == nets;
  }

  /** Two masked networks of equal length around one address are the same network. */
  lemma EqualLengthIsEqual(ip: Bits, m: Net, n: Net)
    requires m.Valid() && n.Valid() && m.ones == n.ones
    requires m.Contains(ip) && n.Contains(ip)
    ensures m == n
  {
    assert m.base == And(ip, m.ones) == n.base;
  }

  /** The list is a map's or a set's worth of routes: its order, and repetitions in it,
      do not show in the result. */
  lemma OrderDoesNotMatter(ip: Option<Bits>, nets: seq<Net>, other: seq<Net>, a: Option<Net>, b: Option<Net>)
    requires ValidNets(nets) && ValidNets(other)
    requires forall n :: n in nets <==> n in other
    requires IsBest(ip, nets, a) && IsBest(ip, other, b)
    ensures a == b
  {
    if a.Some? {
      assert a.value in other;
    }
    if b.Some? {
      assert b.value in nets;
    }
    if a.Some? && b.Some? {
      EqualLengthIsEqual(ip.value, a.value, b.value);
    }
  }

  /** Longest prefix means smallest network: every listed network around the address
      contains the whole of the answer. */
  lemma BestIsInsideTheOthers(ip: Bits, nets: seq<Net>, best: Net, n: Net, y: Bits)
    requires ValidNets(nets) && IsBest(Some(ip), nets, Some(best))
    requires n in nets && n.Contains(ip) && best.Contains(y)
    ensures n.Contains(y)
  {
    assert n.ones <= best.ones;
    forall i | 0 <= i < |y| && i < n.ones
      ensures y[i] == n.base[i]
    {
      assert And(y, best.ones)[i] == And(best.base, best.ones)[i] == And(ip, best.ones)[i];
      assert And(ip, n.ones)[i] == And(n.base, n.ones)[i];
    }
    assert And(y, n.ones) == And(n.base, n.ones);
  }

  /** A network contains exactly the addresses of its length that begin with its prefix. */
  lemma ContainsIff(n: Net, ip: Bits)
    requires n.Valid()
    ensures n.Contains(ip) <==> |ip| == |n.base| && ip[..n.ones] == n.base[..n.ones]
    ensures forall i :: n.ones <= i < |n.base| ==> !n.base[i]
  {
    if n.Contains(ip) {
      forall i | 0 <= i < n.ones
        ensures ip[i] == n.base[i]
      {
        assert And(ip, n.ones)[i] == And(n.base, n.ones)[i];
      }
    }
    if |ip| == |n.base| && ip[..n.ones] == n.base[..n.ones] {
      forall i | 0 <= i < n.ones
        ensures ip[i] == n.base[i]
      {
        assert ip[..n.ones][i] == n.base[..n.ones][i];
      }
      assert And(ip, n.ones) == And(n.base, n.ones);
    }
    forall i | n.ones <= i < |n.base|
      ensures !n.base[i]
    {
      assert n.base[i] == And(n.base, n.ones)[i];
    }
  }
}
