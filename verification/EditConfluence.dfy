/** When the order in which a batch's maps are walked matters: exactly when two keys that can
    reach one host or forward set a field of it to different values. */
module EditConfluence {

  import opened Glob
  import opened Text
  import opened ConfDocument
  import opened EditOrder

  // ------------------------------------------------------------ the condition

  /** Both set a field, to different values. */
  predicate Differ<V(==)>(v: Option<V>, w: Option<V>) {
    v.Some? && w.Some? && v != w
  }

  /** Two entries of `hosts` that can reach one host. */
  predicate HostPair(edits: map<string, Patch>, a: string, b: string) {
    && a in edits && b in edits && Overlap(a, b)
    && (Differ(edits[a].note, edits[b].note) || Differ(edits[a].tags, edits[b].tags))
  }

  predicate HostsClash(edits: map<string, Patch>) {
    exists a, b {:trigger HostPair(edits, a, b)} :: a in edits && b in edits && HostPair(edits, a, b)
  }

  /** Two entries of `forwards` that can reach one forward. */
  predicate NotePair(notes: map<string, string>, k: string, l: string) {
    && k in notes && l in notes && notes[k] != notes[l]
    && KeyPort(k) == KeyPort(l) && Overlap(KeyIp(k), KeyIp(l))
  }

  predicate NotesClash(notes: map<string, string>) {
    exists k, l {:trigger NotePair(notes, k, l)} :: k in notes && l in notes && NotePair(notes, k, l)
  }

  /** What a caller could check on the batch alone. */
  predicate Clash(e: Edit) {
    HostsClash(e.hosts) || NotesClash(e.forwards)
  }

  // ------------------------------------------------------------ no clash, one document

  /** Every two keys that have a value agree on it. */
  ghost predicate OneValue<V>(val: string -> Option<V>, keys: set<string>) {
    forall a, b :: a in keys && b in keys && val(a).Some? && val(b).Some? ==> val(a) == val(b)
  }

  lemma {:induction false} LastIs<V>(val: string -> Option<V>, order: seq<string>)
    ensures Last(val, order).Some? ==> exists k :: k in order && val(k) == Last(val, order)
    ensures Last(val, order).None? ==> forall k :: k in order ==> val(k).None?
  {
    if order != [] {
      var n := |order| - 1;
      assert order == order[..n] + [order[n]];
      LastIs(val, order[..n]);
    }
  }

  lemma LastAgrees<V>(val: string -> Option<V>, keys: set<string>, a: seq<string>, b: seq<string>)
    requires Enumerates(a, keys) && Enumerates(b, keys) && OneValue(val, keys)
    ensures Last(val, a) == Last(val, b)
  {
    LastIs(val, a);
    LastIs(val, b);
  }

  lemma PatchesAgree(edits: map<string, Patch>, ip: string, a: string, b: string)
    requires !HostPair(edits, a, b) && a in edits && b in edits && Matches(ip, a) && Matches(ip, b)
    ensures !Differ(edits[a].note, edits[b].note) && !Differ(edits[a].tags, edits[b].tags)
  {
    WitnessOverlaps(ip, a, b);
  }

  lemma NamesAgree(edits: map<string, Patch>, ip: string)
    requires !HostsClash(edits)
    ensures OneValue(NameBy(edits, ip), edits.Keys) && OneValue(TagsBy(edits, ip), edits.Keys)
  {
    forall a, b | a in edits && b in edits && Matches(ip, a) && Matches(ip, b)
      ensures !Differ(edits[a].note, edits[b].note) && !Differ(edits[a].tags, edits[b].tags)
    {
      assert !HostPair(edits, a, b);
      PatchesAgree(edits, ip, a, b);
    }
  }

  lemma NotesOfPair(notes: map<string, string>, ip: string, remote: Option<string>, k: string, l: string)
    requires !NotePair(notes, k, l) && k in notes && l in notes
    requires NoteBy(notes, ip, remote)(k).Some? && NoteBy(notes, ip, remote)(l).Some?
    ensures NoteBy(notes, ip, remote)(k) == NoteBy(notes, ip, remote)(l)
  {
    WitnessOverlaps(ip, KeyIp(k), KeyIp(l));
    ItoaInjective(KeyPort(k), KeyPort(l));
  }

  lemma NotesAgree(notes: map<string, string>, ip: string, remote: Option<string>)
    requires !NotesClash(notes)
    ensures OneValue(NoteBy(notes, ip, remote), notes.Keys)
  {
    var val := NoteBy(notes, ip, remote);
    forall k, l | k in notes.Keys && l in notes.Keys && val(k).Some? && val(l).Some?
      ensures val(k) == val(l)
    {
      assert !NotePair(notes, k, l);
      NotesOfPair(notes, ip, remote, k, l);
    }
  }

  lemma HostAgrees(h: Host, e: Edit, w: Walk, w': Walk)
    requires Walks(w, e) && Walks(w', e) && !Clash(e)
    ensures EditedHost(h, e, w) == EditedHost(h, e, w')
  {
    NamesAgree(e.hosts, h.ip);
    LastAgrees(NameBy(e.hosts, h.ip), e.hosts.Keys, w.hosts, w'.hosts);
    LastAgrees(TagsBy(e.hosts, h.ip), e.hosts.Keys, w.hosts, w'.hosts);
    forall j | 0 <= j < |h.forwards|
      ensures Noted(h.ip, h.forwards[j], e.forwards, w.forwards) == Noted(h.ip, h.forwards[j], e.forwards, w'.forwards)
    {
      NotesAgree(e.forwards, h.ip, h.forwards[j].remote);
      LastAgrees(NoteBy(e.forwards, h.ip, h.forwards[j].remote), e.forwards.Keys, w.forwards, w'.forwards);
    }
    assert NotedAll(h.ip, h.forwards, e.forwards, w.forwards) == NotedAll(h.ip, h.forwards, e.forwards, w'.forwards);
  }

  lemma HostsAgree(hs: seq<Host>, e: Edit, w: Walk, w': Walk)
    requires Walks(w, e) && Walks(w', e) && !Clash(e)
    ensures EditedHosts(hs, e, w) == EditedHosts(hs, e, w')
  {
    forall i | 0 <= i < |hs|
      ensures EditedHost(hs[i], e, w) == EditedHost(hs[i], e, w')
    {
      HostAgrees(hs[i], e, w, w');
    }
  }

  /** Equal but for the order of the subnets list. */
  predicate SameButSubnetOrder(r: Document, r': Document) {
    r == r'.(subnets := r.subnets) && multiset(r.subnets) == multiset(r'.subnets)
  }

  /** Two runs of a batch without clashes over one document differ at most in the order of
      the subnets list, and there only among the touched entries at its end. */
  lemma EditsAreConfluent(d: Document, e: Edit, w: Walk, w': Walk)
    requires CidrKeys(e.subnets) && Walks(w, e) && Walks(w', e) && !Clash(e)
    ensures SameButSubnetOrder(Applied(d, e, w), Applied(d, e, w'))
    ensures Without(d.subnets, Touched(e.subnets, w.subnets)) <= Applied(d, e, w).subnets
    ensures Without(d.subnets, Touched(e.subnets, w.subnets)) <= Applied(d, e, w').subnets
  {
    AppliedIsEdited(d, e, w);
    AppliedIsEdited(d, e, w');
    HostsAgree(d.hosts, e, w, w');
    SubnetsConfluent(d.subnets, e.subnets, w.subnets, w'.subnets);
    assert Touched(e.subnets, w.subnets) == Touched(e.subnets, w'.subnets) by {
      assert forall c :: c in w.subnets <==> c in w'.subnets;
    }
  }

  // ------------------------------------------------------------ a clash, two documents

  /** Every set of keys can be walked, … */
  lemma {:induction false} SomeWalk(keys: set<string>) returns (order: seq<string>)
    ensures Enumerates(order, keys)
    decreases |keys|
  {
    order := [];
    if k :| k in keys {
      order := WalkEndingIn(keys, k);
    }
  }

  /** … with any key last. */
  lemma {:induction false} WalkEndingIn(keys: set<string>, k: string) returns (order: seq<string>)
    requires k in keys
    ensures Enumerates(order, keys) && order != [] && order[|order| - 1] == k
    decreases |keys|, 0
  {
    var front := SomeWalk(keys - {k});
    order := front + [k];
    assert forall x :: x in order <==> x in front || x == k;
  }

  /** A document with one host and one forward. */
  function OneHost(ip: string, remote: string): Document {
    Document(None, None, [Host(ip, None, None, [Forward(None, Some(remote), None, map[])], map[])], [], map[])
  }

  lemma OneHostEdited(ip: string, remote: string, e: Edit, w: Walk)
    requires CidrKeys(e.subnets) && Walks(w, e)
    ensures var r := Applied(OneHost(ip, remote), e, w);
            && |r.hosts| == 1 && |r.hosts[0].forwards| == 1
            && r.hosts[0].name == Last(NameBy(e.hosts, ip), w.hosts)
            && r.hosts[0].tags == Last(TagsBy(e.hosts, ip), w.hosts)
            && r.hosts[0].forwards[0].note == Last(NoteBy(e.forwards, ip, Some(remote)), w.forwards)
  {
    AppliedIsEdited(OneHost(ip, remote), e, w);
  }

  lemma HostClashShows(e: Edit, a: string, b: string) returns (d: Document, w: Walk, w': Walk)
    requires CidrKeys(e.subnets) && HostPair(e.hosts, a, b)
    ensures Walks(w, e) && Walks(w', e) && Applied(d, e, w).hosts != Applied(d, e, w').hosts
  {
    var ip := OverlapHasWitness(a, b);
    d := OneHost(ip, "");
    var forwards := SomeWalk(e.forwards.Keys);
    var subnets := SomeWalk(e.subnets.Keys);
    var lastA := WalkEndingIn(e.hosts.Keys, a);
    var lastB := WalkEndingIn(e.hosts.Keys, b);
    w, w' := Walk(lastA, forwards, subnets), Walk(lastB, forwards, subnets);
    OneHostEdited(ip, "", e, w);
    OneHostEdited(ip, "", e, w');
    if Differ(e.hosts[a].note, e.hosts[b].note) {
      assert Applied(d, e, w).hosts[0].name != Applied(d, e, w').hosts[0].name;
    } else {
      assert Applied(d, e, w).hosts[0].tags != Applied(d, e, w').hosts[0].tags;
    }
  }

  lemma NoteClashShows(e: Edit, k: string, l: string) returns (d: Document, w: Walk, w': Walk)
    requires CidrKeys(e.subnets) && NotePair(e.forwards, k, l)
    ensures Walks(w, e) && Walks(w', e) && Applied(d, e, w).hosts != Applied(d, e, w').hosts
  {
    var ip := OverlapHasWitness(KeyIp(k), KeyIp(l));
    var remote := Itoa(KeyPort(k));
    d := OneHost(ip, remote);
    var hosts := SomeWalk(e.hosts.Keys);
    var subnets := SomeWalk(e.subnets.Keys);
    var lastK := WalkEndingIn(e.forwards.Keys, k);
    var lastL := WalkEndingIn(e.forwards.Keys, l);
    w, w' := Walk(hosts, lastK, subnets), Walk(hosts, lastL, subnets);
    OneHostEdited(ip, remote, e, w);
    OneHostEdited(ip, remote, e, w');
    assert Applied(d, e, w).hosts[0].forwards[0].note != Applied(d, e, w').hosts[0].forwards[0].note;
  }

  /** All walks of the batch agree on every document. */
  ghost predicate Confluent(e: Edit) {
    forall d, w, w' :: Walks(w, e) && Walks(w', e) ==> SameButSubnetOrder(Applied(d, e, w), Applied(d, e, w'))
  }

  /** The order of the walks never shows, on any document, if and only if no two keys of the
      batch that can reach one host or forward set a field of it to different values. */
  lemma ConfluentIff(e: Edit)
    requires CidrKeys(e.subnets)
    ensures Confluent(e) <==> !Clash(e)
  {
    if HostsClash(e.hosts) {
      var a, b :| HostPair(e.hosts, a, b);
      var d, w, w' := HostClashShows(e, a, b);
      assert !SameButSubnetOrder(Applied(d, e, w), Applied(d, e, w'));
    } else if NotesClash(e.forwards) {
      var k, l :| NotePair(e.forwards, k, l);
      var d, w, w' := NoteClashShows(e, k, l);
      assert !SameButSubnetOrder(Applied(d, e, w), Applied(d, e, w'));
    } else {
      forall d, w, w' | Walks(w, e) && Walks(w', e)
        ensures SameButSubnetOrder(Applied(d, e, w), Applied(d, e, w'))
      {
        EditsAreConfluent(d, e, w, w');
      }
    }
  }

  // ------------------------------------------------------------ keys without wildcards

  predicate PlainKeys(e: Edit) {
    && (forall ip :: ip in e.hosts ==> Plain(ip))
    && (forall k :: k in e.forwards ==> Plain(KeyIp(k)))
  }

  /** An accepted batch whose host keys and forward addresses hold neither `*` nor `?` never
      clashes: this rests on distinct keys denoting distinct (ip, port) pairs. */
  lemma PlainNeverClashes(e: Edit)
    requires ForwardsOk(e.forwards) && PlainKeys(e)
    ensures !Clash(e)
  {
    forall a, b | a in e.hosts && b in e.hosts
      ensures !HostPair(e.hosts, a, b)
    {
      PlainOverlap(a, b);
    }
    forall k, l | k in e.forwards && l in e.forwards
      ensures !NotePair(e.forwards, k, l)
    {
      PlainOverlap(KeyIp(k), KeyIp(l));
      if k != l {
        DistinctKeysDistinctPairs(k, l);
      }
    }
  }

  lemma {:induction false} LastOnly<V>(val: string -> Option<V>, order: seq<string>, k: string)
    requires forall x :: x in order && val(x).Some? ==> x == k
    ensures Last(val, order) == if k in order then val(k) else None
  {
    if order != [] {
      var n := |order| - 1;
      assert order == order[..n] + [order[n]];
      LastOnly(val, order[..n], k);
    }
  }

  /** Where nothing clashes because nothing is a pattern, a host is edited by the entry under
      its own address and a forward by the entry under its own `ip:port`, whatever the walk. */
  lemma PlainBatchIsLookup(h: Host, e: Edit, w: Walk, j: nat)
    requires Walks(w, e) && ForwardsOk(e.forwards) && PlainKeys(e)
    ensures Last(NameBy(e.hosts, h.ip), w.hosts) == PatchOf(e.hosts, h.ip).note
    ensures Last(TagsBy(e.hosts, h.ip), w.hosts) == PatchOf(e.hosts, h.ip).tags
    ensures j < |h.forwards| && h.forwards[j].remote.Some? ==>
              var key := h.ip + ":" + h.forwards[j].remote.value;
              Last(NoteBy(e.forwards, h.ip, h.forwards[j].remote), w.forwards)
              == if ':' !in h.ip && key in e.forwards then Some(e.forwards[key]) else None
  {
    HostLookup(e.hosts, h.ip, w.hosts);
    if j < |h.forwards| && h.forwards[j].remote.Some? {
      ForwardLookup(e.forwards, h.ip, h.forwards[j].remote.value, w.forwards);
    }
  }

  /** The document after such a batch, field by field. */
  lemma PlainBatchEdits(d: Document, e: Edit, w: Walk, i: nat, j: nat)
    requires Walks(w, e) && CidrKeys(e.subnets) && ForwardsOk(e.forwards) && PlainKeys(e)
    ensures var r := Applied(d, e, w);
            && r.name == (if e.name.Some? then e.name else d.name)
            && r.tags == (if e.tags.Some? then e.tags else d.tags)
            && |r.hosts| == |d.hosts|
            && (i < |d.hosts| ==> |r.hosts[i].forwards| == |d.hosts[i].forwards|)
    ensures i < |d.hosts| ==>
              var h, n := d.hosts[i], Applied(d, e, w).hosts[i];
              && (h.ip in e.hosts && e.hosts[h.ip].note.Some? ==> n.name == e.hosts[h.ip].note)
              && (h.ip !in e.hosts || e.hosts[h.ip].note.None? ==> n.name == h.name)
              && (h.ip in e.hosts && e.hosts[h.ip].tags.Some? ==> n.tags == e.hosts[h.ip].tags)
              && (h.ip !in e.hosts || e.hosts[h.ip].tags.None? ==> n.tags == h.tags)
    ensures i < |d.hosts| && j < |d.hosts[i].forwards| && d.hosts[i].forwards[j].remote.Some? ==>
              var h, f := d.hosts[i], d.hosts[i].forwards[j];
              var key := h.ip + ":" + f.remote.value;
              Applied(d, e, w).hosts[i].forwards[j]
              == if ':' !in h.ip && key in e.forwards then f.(note := Some(e.forwards[key])) else f
  {
    AppliedIsEdited(d, e, w);
    if i < |d.hosts| {
      PlainBatchIsLookup(d.hosts[i], e, w, j);
    }
  }

  lemma HostLookup(edits: map<string, Patch>, ip: string, order: seq<string>)
    requires Enumerates(order, edits.Keys) && forall k :: k in edits ==> Plain(k)
    ensures Last(NameBy(edits, ip), order) == PatchOf(edits, ip).note
    ensures Last(TagsBy(edits, ip), order) == PatchOf(edits, ip).tags
  {
    forall k | k in order
      ensures Matches(ip, k) <==> ip == k
    {
      PlainIsEquality(ip, k);
    }
    LastOnly(NameBy(edits, ip), order, ip);
    LastOnly(TagsBy(edits, ip), order, ip);
  }

  lemma ForwardLookup(notes: map<string, string>, ip: string, remote: string, order: seq<string>)
    requires Enumerates(order, notes.Keys) && ForwardsOk(notes) && forall k :: k in notes ==> Plain(KeyIp(k))
    ensures var key := ip + ":" + remote;
            Last(NoteBy(notes, ip, Some(remote)), order)
            == if ':' !in ip && key in notes then Some(notes[key]) else None
  {
    var key := ip + ":" + remote;
    var val := NoteBy(notes, ip, Some(remote));
    forall k | k in order
      ensures val(k).Some? <==> ':' !in ip && k == key
    {
      PlainKeyAddresses(k, ip, remote);
    }
    LastOnly(val, order, key);
  }

  // ------------------------------------------------------------ accepted batches that clash

  /** A batch with two host keys and two forward keys that disagree on everything. */
  function Quarrel(a: string, b: string): Edit {
    Edit(None, None, map[a := Patch(Some("a"), None), b := Patch(Some("b"), None)],
         map[a + ":80" := "x", b + ":80" := "y"], map[])
  }

  function TwoKeys(a: string, b: string): Walk {
    Walk([a, b], [a + ":80", b + ":80"], [])
  }

  /** The one host and its one forward. */
  predicate Shows(r: Document, name: string, note: string) {
    && |r.hosts| == 1 && r.hosts[0].name == Some(name)
    && |r.hosts[0].forwards| == 1 && r.hosts[0].forwards[0].note == Some(note)
  }

  /** `ip:80` is an accepted key for any non-empty ip pattern without a colon. */
  lemma KeyAtEighty(ip: string)
    requires ip != "" && ':' !in ip
    ensures KeyOk(ip + ":80") && KeyIp(ip + ":80") == ip && Itoa(KeyPort(ip + ":80")) == "80"
  {
    EightyReads();
    CutAtFirst(ip, ':', "80");
    assert (ip + ":80")[|ip|] == ':' && ip + ":80" == ip + ":" + "80";
    ItoaAtoi("80");
  }

  lemma LastOfTwo<V>(val: string -> Option<V>, a: string, b: string)
    requires val(b).Some?
    ensures Last(val, [a, b]) == val(b)
  {
    assert [a, b] == [a] + [b];
    LastSnoc(val, [a], b);
  }

  lemma DistinctKeys(a: string, b: string)
    requires a != b
    ensures a + ":80" != b + ":80"
  {
    assert (a + ":80")[..|a + ":80"| - 3] == a && (b + ":80")[..|b + ":80"| - 3] == b;
  }

  lemma QuarrelWalks(a: string, b: string)
    requires a != b
    ensures Walks(TwoKeys(a, b), Quarrel(a, b)) && Walks(TwoKeys(b, a), Quarrel(a, b))
  {
    DistinctKeys(a, b);
  }

  lemma TwoNotesOk(k: string, l: string, x: string, y: string)
    requires KeyOk(k) && KeyOk(l) && OneLine(x) && OneLine(y)
    ensures ForwardsOk(map[k := x, l := y]) && NotesOk(map[k := x, l := y])
  {
  }

  lemma TwoPatchesOk(a: string, b: string, p: Patch, q: Patch)
    requires PatchOk(p) && PatchOk(q)
    ensures PatchesOk(map[a := p, b := q])
  {
  }

  lemma QuarrelAccepted(a: string, b: string, parses: string -> bool)
    requires a != "" && b != "" && ':' !in a && ':' !in b
    ensures Acceptable(Quarrel(a, b), parses)
  {
    KeysAtEighty(a, b);
    TwoNotesOk(a + ":80", b + ":80", "x", "y");
    TwoPatchesOk(a, b, Patch(Some("a"), None), Patch(Some("b"), None));
  }

  lemma KeysAtEighty(a: string, b: string)
    requires a != "" && b != "" && ':' !in a && ':' !in b
    ensures KeyOk(a + ":80") && KeyOk(b + ":80")
  {
    KeyAtEighty(a);
    KeyAtEighty(b);
  }

  lemma QuarrelClashes(a: string, b: string, ip: string)
    requires a != b && Matches(ip, a) && Matches(ip, b)
    ensures Clash(Quarrel(a, b))
  {
    WitnessOverlaps(ip, a, b);
    assert HostPair(Quarrel(a, b).hosts, a, b);
  }

  /** What the last of two keys sets, when it reaches the host and its port 80. */
  lemma LastDecides(edits: map<string, Patch>, notes: map<string, string>, a: string, b: string, ip: string)
    requires b in edits && edits[b].note.Some? && b + ":80" in notes
    requires Matches(ip, b) && b != "" && ':' !in b
    ensures Last(NameBy(edits, ip), [a, b]) == edits[b].note
    ensures Last(NoteBy(notes, ip, Some("80")), [a + ":80", b + ":80"]) == Some(notes[b + ":80"])
  {
    LastOfTwo(NameBy(edits, ip), a, b);
    assert NoteBy(notes, ip, Some("80"))(b + ":80") == Some(notes[b + ":80"]) by {
      KeyAtEighty(b);
    }
    LastOfTwo(NoteBy(notes, ip, Some("80")), a + ":80", b + ":80");
  }

  /** A walk over two keys that ends in `b` leaves what `b` sets on the one host. */
  lemma EndsIn(e: Edit, a: string, b: string, ip: string)
    requires CidrKeys(e.subnets) && Walks(TwoKeys(a, b), e)
    requires b in e.hosts && e.hosts[b].note.Some? && b + ":80" in e.forwards
    requires Matches(ip, b) && b != "" && ':' !in b
    ensures Shows(Applied(OneHost(ip, "80"), e, TwoKeys(a, b)), e.hosts[b].note.value, e.forwards[b + ":80"])
  {
    OneHostEdited(ip, "80", e, TwoKeys(a, b));
    LastDecides(e.hosts, e.forwards, a, b, ip);
  }

  /** Two different keys that match one address: the batch is accepted, and the host's name
      and the forward's note are whatever the walk came to last. */
  lemma QuarrelIsOrderDependent(a: string, b: string, ip: string, parses: string -> bool)
    requires a != b && a != "" && b != "" && ':' !in a && ':' !in b && Matches(ip, a) && Matches(ip, b)
    ensures Acceptable(Quarrel(a, b), parses) && Clash(Quarrel(a, b))
    ensures Walks(TwoKeys(a, b), Quarrel(a, b)) && Walks(TwoKeys(b, a), Quarrel(a, b))
    ensures Shows(Applied(OneHost(ip, "80"), Quarrel(a, b), TwoKeys(a, b)), "b", "y")
    ensures Shows(Applied(OneHost(ip, "80"), Quarrel(a, b), TwoKeys(b, a)), "a", "x")
  {
    QuarrelAccepted(a, b, parses);
    QuarrelClashes(a, b, ip);
    QuarrelWalks(a, b);
    QuarrelEnds(a, b, ip);
  }

  lemma QuarrelEnds(a: string, b: string, ip: string)
    requires a != b && a != "" && b != "" && ':' !in a && ':' !in b && Matches(ip, a) && Matches(ip, b)
    ensures Shows(Applied(OneHost(ip, "80"), Quarrel(a, b), TwoKeys(a, b)), "b", "y")
    ensures Shows(Applied(OneHost(ip, "80"), Quarrel(a, b), TwoKeys(b, a)), "a", "x")
  {
    QuarrelWalks(a, b);
    DistinctKeys(a, b);
    EndsIn(Quarrel(a, b), a, b, ip);
    EndsIn(Quarrel(a, b), b, a, ip);
  }

  /** Such keys are a wildcard and any address: the batch
      `{"hosts":{"*":{"note":"a"},"10.0.0.1":{"note":"b"}},"forwards":{"*:80":"x","10.0.0.1:80":"y"}}`. */
  lemma WildcardKeyIsOrderDependent(any: string, one: string, parses: string -> bool)
    requires any == "*" && one == "10.0.0.1"
    ensures Acceptable(Quarrel(any, one), parses) && Clash(Quarrel(any, one))
    ensures Walks(TwoKeys(any, one), Quarrel(any, one)) && Walks(TwoKeys(one, any), Quarrel(any, one))
    ensures Shows(Applied(OneHost(one, "80"), Quarrel(any, one), TwoKeys(any, one)), "b", "y")
    ensures Shows(Applied(OneHost(one, "80"), Quarrel(any, one), TwoKeys(one, any)), "a", "x")
  {
    StarMatchesAll(one);
    PlainIsEquality(one, one);
    QuarrelIsOrderDependent(any, one, one, parses);
  }
}
