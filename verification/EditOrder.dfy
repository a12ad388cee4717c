/** What a batch of conf edits does to a document when its three maps are walked in a given
    order, in closed form: per host and per forward the last entry that reaches it wins, and
    the subnets are the untouched entries followed by the touched ones. */
module EditOrder {

  import opened Glob
  import opened Text
  import opened ConfDocument

  // ------------------------------------------------------------ the last one wins

  /** The value of the last key of the walk that has one. */
  function Last<V>(val: string -> Option<V>, order: seq<string>): Option<V> {
    if order == [] then None
    else
      var k := order[|order| - 1];
      if val(k).Some? then val(k) else Last(val, order[..|order| - 1])
  }

  lemma LastSnoc<V>(val: string -> Option<V>, front: seq<string>, k: string)
    ensures Last(val, front + [k]) == if val(k).Some? then val(k) else Last(val, front)
  {
    assert (front + [k])[..|front|] == front;
  }

  function Or<V>(v: Option<V>, before: Option<V>): Option<V> {
    if v.Some? then v else before
  }

  /** What the entry under a key of `hosts` sets on a host with this address. */
  function NameBy(edits: map<string, Patch>, ip: string): string -> Option<string> {
    k => if Matches(ip, k) then PatchOf(edits, k).note else None
  }

  function TagsBy(edits: map<string, Patch>, ip: string): string -> Option<seq<string>> {
    k => if Matches(ip, k) then PatchOf(edits, k).tags else None
  }

  /** What the entry under a key of `forwards` sets on a forward of this host. */
  function NoteBy(notes: map<string, string>, ip: string, remote: Option<string>): string -> Option<string> {
    k => if Matches(ip, KeyIp(k)) && remote == Some(Itoa(KeyPort(k))) then Some(NoteOf(notes, k)) else None
  }

  // ------------------------------------------------------------ hosts

  function PatchedHost(h: Host, edits: map<string, Patch>, order: seq<string>): Host {
    h.(name := Or(Last(NameBy(edits, h.ip), order), h.name), tags := Or(Last(TagsBy(edits, h.ip), order), h.tags))
  }

  function Patched(h: Host, p: Patch): Host {
    h.(name := Or(p.note, h.name), tags := Or(p.tags, h.tags))
  }

  function PatchedHosts(hs: seq<Host>, edits: map<string, Patch>, order: seq<string>): seq<Host> {
    seq(|hs|, i requires 0 <= i < |hs| => PatchedHost(hs[i], edits, order))
  }

  lemma HostCallsPatch(ip: string, p: Patch, d: Document)
    ensures var r := Run(HostCalls(ip, p), d);
            && r == d.(hosts := r.hosts) && |r.hosts| == |d.hosts|
            && forall i :: 0 <= i < |d.hosts| ==>
                 r.hosts[i] == if Matches(d.hosts[i].ip, ip) then Patched(d.hosts[i], p) else d.hosts[i]
  {
    var a := if p.note.Some? then [SetHostName(ip, p.note.value)] else [];
    var b := if p.tags.Some? then [SetHostTags(ip, p.tags.value)] else [];
    RunAppend(a, b, d);
    if p.note.Some? {
      RunOne(a[0], d);
    }
    if p.tags.Some? {
      RunOne(b[0], Run(a, d));
    }
  }

  lemma {:induction false} HostsPatched(edits: map<string, Patch>, order: seq<string>, d: Document)
    ensures Run(HostsProgram(edits, order), d) == d.(hosts := PatchedHosts(d.hosts, edits, order))
  {
    if order == [] {
      assert PatchedHosts(d.hosts, edits, order) == d.hosts;
    } else {
      var n := |order| - 1;
      var ip, front := order[n], order[..n];
      assert order == front + [ip];
      HostsPatched(edits, front, d);
      HostsStep(edits, front, ip, d);
      HostCallsPatch(ip, PatchOf(edits, ip), Run(HostsProgram(edits, front), d));
      PatchedHostsSnoc(d.hosts, edits, front, ip);
    }
  }

  /** One more entry of the batch patches the hosts it matches. */
  lemma PatchedSnoc(h: Host, edits: map<string, Patch>, front: seq<string>, ip: string)
    ensures PatchedHost(h, edits, front + [ip])
         == if Matches(h.ip, ip) then Patched(PatchedHost(h, edits, front), PatchOf(edits, ip))
            else PatchedHost(h, edits, front)
  {
    LastSnoc(NameBy(edits, h.ip), front, ip);
    LastSnoc(TagsBy(edits, h.ip), front, ip);
  }

  lemma PatchedHostsSnoc(hs: seq<Host>, edits: map<string, Patch>, front: seq<string>, ip: string)
    ensures var before, after := PatchedHosts(hs, edits, front), PatchedHosts(hs, edits, front + [ip]);
            && |before| == |after| == |hs|
            && forall i :: 0 <= i < |hs| ==>
                 after[i] == if Matches(before[i].ip, ip) then Patched(before[i], PatchOf(edits, ip)) else before[i]
  {
    forall i | 0 <= i < |hs|
      ensures PatchedHost(hs[i], edits, front + [ip])
           == if Matches(hs[i].ip, ip) then Patched(PatchedHost(hs[i], edits, front), PatchOf(edits, ip))
              else PatchedHost(hs[i], edits, front)
    {
      PatchedSnoc(hs[i], edits, front, ip);
    }
  }

  // ------------------------------------------------------------ forwards

  function Noted(ip: string, f: Forward, notes: map<string, string>, order: seq<string>): Forward {
    f.(note := Or(Last(NoteBy(notes, ip, f.remote), order), f.note))
  }

  function NotedAll(ip: string, fs: seq<Forward>, notes: map<string, string>, order: seq<string>): seq<Forward> {
    seq(|fs|, j requires 0 <= j < |fs| => Noted(ip, fs[j], notes, order))
  }

  function NotedHost(h: Host, notes: map<string, string>, order: seq<string>): Host {
    h.(forwards := NotedAll(h.ip, h.forwards, notes, order))
  }

  function NotedHosts(hs: seq<Host>, notes: map<string, string>, order: seq<string>): seq<Host> {
    seq(|hs|, i requires 0 <= i < |hs| => NotedHost(hs[i], notes, order))
  }

  lemma NotedSnoc(ip: string, f: Forward, notes: map<string, string>, front: seq<string>, key: string)
    ensures Noted(ip, f, notes, front + [key])
         == if Matches(ip, KeyIp(key)) then SetNote(Noted(ip, f, notes, front), KeyPort(key), NoteOf(notes, key))
            else Noted(ip, f, notes, front)
  {
    LastSnoc(NoteBy(notes, ip, f.remote), front, key);
  }

  lemma NotedHostSnoc(h: Host, notes: map<string, string>, front: seq<string>, key: string)
    ensures NotedHost(h, notes, front + [key])
         == EvalHost(ForwardCall(key, NoteOf(notes, key)), NotedHost(h, notes, front))
  {
    var before := NotedAll(h.ip, h.forwards, notes, front);
    var after := NotedAll(h.ip, h.forwards, notes, front + [key]);
    var hit := Matches(h.ip, KeyIp(key));
    forall j | 0 <= j < |h.forwards|
      ensures after[j] == if hit then SetNote(before[j], KeyPort(key), NoteOf(notes, key)) else before[j]
    {
      NotedSnoc(h.ip, h.forwards[j], notes, front, key);
    }
    if hit {
      assert after == SetNotes(before, KeyPort(key), NoteOf(notes, key));
    } else {
      assert after == before;
    }
  }

  lemma {:induction false} HostsNoted(notes: map<string, string>, order: seq<string>, d: Document)
    ensures Run(ForwardsProgram(notes, order), d) == d.(hosts := NotedHosts(d.hosts, notes, order))
  {
    if order == [] {
      NothingNoted(d.hosts, notes);
    } else {
      var n := |order| - 1;
      var key, front := order[n], order[..n];
      assert order == front + [key];
      HostsNoted(notes, front, d);
      ForwardsStep(notes, front, key, d);
      RunOne(ForwardCall(key, NoteOf(notes, key)), Run(ForwardsProgram(notes, front), d));
      NotedHostsSnoc(d.hosts, notes, front, key);
    }
  }

  lemma NothingNoted(hs: seq<Host>, notes: map<string, string>)
    ensures NotedHosts(hs, notes, []) == hs
  {
    forall i | 0 <= i < |hs|
      ensures NotedHost(hs[i], notes, []) == hs[i]
    {
      assert NotedAll(hs[i].ip, hs[i].forwards, notes, []) == hs[i].forwards;
    }
  }

  lemma NotedHostsSnoc(hs: seq<Host>, notes: map<string, string>, front: seq<string>, key: string)
    ensures NotedHosts(hs, notes, front + [key])
         == EvalHosts(ForwardCall(key, NoteOf(notes, key)), NotedHosts(hs, notes, front))
  {
    forall i | 0 <= i < |hs|
      ensures NotedHosts(hs, notes, front + [key])[i]
           == EvalHosts(ForwardCall(key, NoteOf(notes, key)), NotedHosts(hs, notes, front))[i]
    {
      NotedHostSnoc(hs[i], notes, front, key);
    }
  }

  // ------------------------------------------------------------ subnets

  /** A CIDR key holds no wildcard, so upserts select by equality. */
  lemma CidrIsPlain(c: string)
    requires CidrShape(c)
    ensures Plain(c)
  {
    assert forall i :: 0 <= i < |c| ==> CidrChar(c[i]);
  }

  function First(ss: seq<Subnet>, c: string): Option<Subnet> {
    if ss == [] then None
    else if ss[0].cidr == c then Some(ss[0])
    else First(ss[1..], c)
  }

  /** The entries with none of these CIDRs. */
  function Without(ss: seq<Subnet>, cs: set<string>): seq<Subnet> {
    if ss == [] then []
    else if ss[0].cidr in cs then Without(ss[1..], cs)
    else [ss[0]] + Without(ss[1..], cs)
  }

  function Upsert(ss: seq<Subnet>, c: string, p: Patch): seq<Subnet> {
    Without(ss, {c}) + [Merged(First(ss, c), c, p)]
  }

  lemma {:induction false} PlainSelects(ss: seq<Subnet>, c: string)
    requires Plain(c)
    ensures FirstMatching(ss, c) == First(ss, c) && NotMatching(ss, c) == Without(ss, {c})
  {
    if ss != [] {
      PlainSelects(ss[1..], c);
      PlainIsEquality(ss[0].cidr, c);
    }
  }

  lemma EvalUpsert(c: string, p: Patch, d: Document)
    requires Plain(c)
    ensures Eval(UpsertSubnet(c, p), d) == d.(subnets := Upsert(d.subnets, c, p))
  {
    PlainSelects(d.subnets, c);
  }

  /** The CIDRs of `order` that the batch says something about. */
  function Touched(edits: map<string, Patch>, order: seq<string>): set<string> {
    set c | c in order && PatchOf(edits, c).Effective()
  }

  /** One merged entry per touched CIDR, in the order of the walk. */
  function MergedList(ss: seq<Subnet>, edits: map<string, Patch>, order: seq<string>): seq<Subnet> {
    if order == [] then []
    else
      var c := order[|order| - 1];
      var p := PatchOf(edits, c);
      MergedList(ss, edits, order[..|order| - 1]) + if p.Effective() then [Merged(First(ss, c), c, p)] else []
  }

  /** Untouched entries where they were, then the touched ones. */
  function Upserted(ss: seq<Subnet>, edits: map<string, Patch>, order: seq<string>): seq<Subnet> {
    Without(ss, Touched(edits, order)) + MergedList(ss, edits, order)
  }

  lemma {:induction false} WithoutAppend(a: seq<Subnet>, b: seq<Subnet>, cs: set<string>)
    ensures Without(a + b, cs) == Without(a, cs) + Without(b, cs)
  {
    if a == [] {
      assert a + b == b;
    } else {
      var kept := if a[0].cidr in cs then [] else [a[0]];
      WithoutAppend(a[1..], b, cs);
      assert (a + b)[1..] == a[1..] + b;
      assert Without(a + b, cs) == kept + (Without(a[1..], cs) + Without(b, cs));
      assert Without(a, cs) == kept + Without(a[1..], cs);
    }
  }

  lemma {:induction false} WithoutTwice(ss: seq<Subnet>, a: set<string>, b: set<string>)
    ensures Without(Without(ss, a), b) == Without(ss, a + b)
  {
    if ss != [] {
      WithoutTwice(ss[1..], a, b);
      if ss[0].cidr !in a {
        assert Without(ss, a)[1..] == Without(ss[1..], a);
      }
    }
  }

  predicate HasNone(ss: seq<Subnet>, cs: set<string>) {
    forall i :: 0 <= i < |ss| ==> ss[i].cidr !in cs
  }

  lemma {:induction false} WithoutNone(ss: seq<Subnet>, cs: set<string>)
    requires HasNone(ss, cs)
    ensures Without(ss, cs) == ss
  {
    if ss != [] {
      WithoutNone(ss[1..], cs);
    }
  }

  lemma {:induction false} WithoutHasNone(ss: seq<Subnet>, cs: set<string>)
    ensures HasNone(Without(ss, cs), cs)
  {
    if ss != [] {
      WithoutHasNone(ss[1..], cs);
    }
  }

  lemma {:induction false} FirstAppend(a: seq<Subnet>, b: seq<Subnet>, c: string)
    ensures First(a + b, c) == if First(a, c).Some? then First(a, c) else First(b, c)
  {
    if a == [] {
      assert a + b == b;
    } else {
      FirstAppend(a[1..], b, c);
      assert (a + b)[1..] == a[1..] + b;
    }
  }

  lemma {:induction false} FirstWithout(ss: seq<Subnet>, cs: set<string>, c: string)
    ensures First(Without(ss, cs), c) == if c in cs then None else First(ss, c)
  {
    if ss != [] {
      FirstWithout(ss[1..], cs, c);
    }
  }

  lemma {:induction false} FirstOfNone(ss: seq<Subnet>, c: string)
    requires HasNone(ss, {c})
    ensures First(ss, c) == None
  {
    if ss != [] {
      FirstOfNone(ss[1..], c);
    }
  }

  /** Setting both fields is one replacement: the second call finds the first one's entry. */
  lemma SubnetCallsUpsert(c: string, p: Patch, d: Document)
    requires Plain(c)
    ensures Run(SubnetCalls(c, p), d)
         == d.(subnets := if p.Effective() then Upsert(d.subnets, c, p) else d.subnets)
  {
    var a := if p.note.Some? then [UpsertSubnet(c, Patch(p.note, None))] else [];
    var b := if p.tags.Some? then [UpsertSubnet(c, Patch(None, p.tags))] else [];
    RunAppend(a, b, d);
    if p.note.Some? {
      RunOne(a[0], d);
      EvalUpsert(c, Patch(p.note, None), d);
    }
    if p.tags.Some? {
      RunOne(b[0], Run(a, d));
      EvalUpsert(c, Patch(None, p.tags), Run(a, d));
    }
    if p.note.Some? && p.tags.Some? {
      UpsertUpsert(d.subnets, c, Patch(p.note, None), Patch(None, p.tags));
    }
  }

  lemma UpsertUpsert(ss: seq<Subnet>, c: string, p: Patch, q: Patch)
    ensures Upsert(Upsert(ss, c, p), c, q)
         == Without(ss, {c}) + [Merged(Some(Merged(First(ss, c), c, p)), c, q)]
  {
    var m := Merged(First(ss, c), c, p);
    var kept := Without(ss, {c});
    WithoutAppend(kept, [m], {c});
    WithoutHasNone(ss, {c});
    WithoutNone(kept, {c});
    FirstAppend(kept, [m], c);
    FirstOfNone(kept, c);
  }

  lemma TouchedSnoc(edits: map<string, Patch>, front: seq<string>, c: string)
    ensures Touched(edits, front + [c])
         == Touched(edits, front) + if PatchOf(edits, c).Effective() then {c} else {}
  {
    assert forall x :: x in front + [c] <==> x in front || x == c;
  }

  lemma {:induction false} MergedListKeys(ss: seq<Subnet>, edits: map<string, Patch>, order: seq<string>)
    ensures forall i :: 0 <= i < |MergedList(ss, edits, order)| ==>
              MergedList(ss, edits, order)[i].cidr in Touched(edits, order)
  {
    if order != [] {
      var n := |order| - 1;
      MergedListKeys(ss, edits, order[..n]);
      assert order == order[..n] + [order[n]];
      TouchedSnoc(edits, order[..n], order[n]);
    }
  }

  /** The next CIDR of the walk, met for the first time. */
  lemma UpsertNext(ss: seq<Subnet>, edits: map<string, Patch>, front: seq<string>, c: string)
    requires c !in front && PatchOf(edits, c).Effective()
    ensures Upsert(Upserted(ss, edits, front), c, PatchOf(edits, c))
         == Without(ss, Touched(edits, front) + {c})
          + (MergedList(ss, edits, front) + [Merged(First(ss, c), c, PatchOf(edits, c))])
  {
    var cs := Touched(edits, front);
    var kept, merged := Without(ss, cs), MergedList(ss, edits, front);
    MergedListKeys(ss, edits, front);
    assert HasNone(merged, {c});
    WithoutAppend(kept, merged, {c});
    WithoutTwice(ss, cs, {c});
    WithoutNone(merged, {c});
    FirstAppend(kept, merged, c);
    FirstWithout(ss, cs, c);
    FirstOfNone(merged, c);
  }

  lemma {:induction false} SubnetsUpserted(edits: map<string, Patch>, order: seq<string>, d: Document)
    requires NoDup(order) && forall i :: 0 <= i < |order| ==> CidrShape(order[i])
    ensures Run(SubnetsProgram(edits, order), d) == d.(subnets := Upserted(d.subnets, edits, order))
  {
    if order == [] {
      WithoutNone(d.subnets, {});
      assert Touched(edits, order) == {};
    } else {
      var n := |order| - 1;
      var c, front := order[n], order[..n];
      assert order == front + [c];
      SubnetsUpserted(edits, front, d);
      SubnetsStep(edits, front, c, d);
      CidrIsPlain(c);
      SubnetCallsUpsert(c, PatchOf(edits, c), Run(SubnetsProgram(edits, front), d));
      UpsertedSnoc(d.subnets, edits, front, c);
    }
  }

  lemma UpsertedSnoc(ss: seq<Subnet>, edits: map<string, Patch>, front: seq<string>, c: string)
    requires c !in front
    ensures Upserted(ss, edits, front + [c])
         == if PatchOf(edits, c).Effective() then Upsert(Upserted(ss, edits, front), c, PatchOf(edits, c))
            else Upserted(ss, edits, front)
  {
    assert (front + [c])[..|front|] == front;
    TouchedSnoc(edits, front, c);
    if PatchOf(edits, c).Effective() {
      UpsertNext(ss, edits, front, c);
    } else {
      assert Touched(edits, front + [c]) == Touched(edits, front);
    }
  }

  // ------------------------------------------------------------ the whole batch

  function EditedHost(h: Host, e: Edit, w: Walk): Host {
    NotedHost(PatchedHost(h, e.hosts, w.hosts), e.forwards, w.forwards)
  }

  function EditedHosts(hs: seq<Host>, e: Edit, w: Walk): seq<Host> {
    seq(|hs|, i requires 0 <= i < |hs| => EditedHost(hs[i], e, w))
  }

  /** The document after the batch, for any keys and any walk. */
  function Edited(d: Document, e: Edit, w: Walk): Document {
    Document(Or(e.name, d.name), Or(e.tags, d.tags), EditedHosts(d.hosts, e, w),
             Upserted(d.subnets, e.subnets, w.subnets), d.others)
  }

  lemma TunnelEdited(e: Edit, d: Document)
    ensures Run(TunnelCalls(e), d) == d.(name := Or(e.name, d.name),
                                         tags := Or(e.tags, d.tags))
  {
    var a := if e.name.Some? then [SetName(e.name.value)] else [];
    var b := if e.tags.Some? then [SetTags(e.tags.value)] else [];
    RunAppend(a, b, d);
    if e.name.Some? {
      RunOne(a[0], d);
    }
    if e.tags.Some? {
      RunOne(b[0], Run(a, d));
    }
  }

  /** All the calls together: the last entry of the walk that reaches a host or a forward and
      sets a field decides that field; subnets as `Upserted` says; nothing else changes. */
  lemma AppliedIsEdited(d: Document, e: Edit, w: Walk)
    requires Walks(w, e) && CidrKeys(e.subnets)
    ensures Applied(d, e, w) == Edited(d, e, w)
  {
    var d1 := Run(TunnelCalls(e), d);
    var d2 := Run(HostsProgram(e.hosts, w.hosts), d1);
    var d3 := Run(ForwardsProgram(e.forwards, w.forwards), d2);
    TunnelEdited(e, d);
    HostsPatched(e.hosts, w.hosts, d1);
    HostsNoted(e.forwards, w.forwards, d2);
    assert d3.hosts == EditedHosts(d.hosts, e, w);
    assert forall i :: 0 <= i < |w.subnets| ==> w.subnets[i] in e.subnets;
    SubnetsUpserted(e.subnets, w.subnets, d3);
  }

  // ------------------------------------------------------------ the subnets, whatever the walk

  lemma {:induction false} WithoutCount(ss: seq<Subnet>, cs: set<string>, x: Subnet)
    ensures multiset(Without(ss, cs))[x] == if x.cidr in cs then 0 else multiset(ss)[x]
  {
    if ss != [] {
      WithoutCount(ss[1..], cs, x);
      assert multiset(ss) == multiset([ss[0]] + ss[1..]) by {
        assert ss == [ss[0]] + ss[1..];
      }
      assert multiset(ss)[x] == multiset([ss[0]])[x] + multiset(ss[1..])[x];
    }
  }

  /** What a touched CIDR's entry becomes. */
  function NewEntry(ss: seq<Subnet>, edits: map<string, Patch>, c: string): Subnet {
    Merged(First(ss, c), c, PatchOf(edits, c))
  }

  lemma {:induction false} MergedCount(ss: seq<Subnet>, edits: map<string, Patch>, order: seq<string>, x: Subnet)
    requires NoDup(order)
    ensures multiset(MergedList(ss, edits, order))[x]
         == if x.cidr in Touched(edits, order) && x == NewEntry(ss, edits, x.cidr) then 1 else 0
  {
    if order != [] {
      var n := |order| - 1;
      var c, front := order[n], order[..n];
      assert order == front + [c] && c !in front;
      MergedCount(ss, edits, front, x);
      TouchedSnoc(edits, front, c);
    }
  }

  /** How often each entry occurs after the batch, with no mention of the walk: an entry of
      an untouched CIDR as often as before, of a touched one only the merged entry, once. */
  lemma SubnetsMeaning(ss: seq<Subnet>, edits: map<string, Patch>, order: seq<string>, x: Subnet)
    requires Enumerates(order, edits.Keys)
    ensures multiset(Upserted(ss, edits, order))[x]
         == if x.cidr in edits && edits[x.cidr].Effective()
            then if x == NewEntry(ss, edits, x.cidr) then 1 else 0
            else multiset(ss)[x]
  {
    WithoutCount(ss, Touched(edits, order), x);
    MergedCount(ss, edits, order, x);
    assert x.cidr in Touched(edits, order) <==> x.cidr in edits && edits[x.cidr].Effective();
  }

  lemma SubnetsConfluent(ss: seq<Subnet>, edits: map<string, Patch>, a: seq<string>, b: seq<string>)
    requires Enumerates(a, edits.Keys) && Enumerates(b, edits.Keys)
    ensures multiset(Upserted(ss, edits, a)) == multiset(Upserted(ss, edits, b))
  {
    forall x: Subnet
      ensures multiset(Upserted(ss, edits, a))[x] == multiset(Upserted(ss, edits, b))[x]
    {
      SubnetsMeaning(ss, edits, a, x);
      SubnetsMeaning(ss, edits, b, x);
    }
  }

  // ------------------------------------------------------------ once each, and twice is once

  /** How many entries carry a CIDR. */
  function Occurrences(ss: seq<Subnet>, c: string): nat {
    if ss == [] then 0 else (if ss[0].cidr == c then 1 else 0) + Occurrences(ss[1..], c)
  }

  lemma {:induction false} OccurrencesAppend(a: seq<Subnet>, b: seq<Subnet>, c: string)
    ensures Occurrences(a + b, c) == Occurrences(a, c) + Occurrences(b, c)
  {
    if a == [] {
      assert a + b == b;
    } else {
      OccurrencesAppend(a[1..], b, c);
      assert (a + b)[1..] == a[1..] + b;
    }
  }

  lemma {:induction false} OccurrencesNone(ss: seq<Subnet>, cs: set<string>, c: string)
    requires HasNone(ss, cs) && c in cs
    ensures Occurrences(ss, c) == 0
  {
    if ss != [] {
      OccurrencesNone(ss[1..], cs, c);
    }
  }

  lemma {:induction false} MergedOnce(ss: seq<Subnet>, edits: map<string, Patch>, order: seq<string>, c: string)
    requires NoDup(order) && c in Touched(edits, order)
    ensures Occurrences(MergedList(ss, edits, order), c) == 1
    ensures First(MergedList(ss, edits, order), c) == Some(NewEntry(ss, edits, c))
  {
    var n := |order| - 1;
    var last, front := order[n], order[..n];
    assert order == front + [last] && last !in front;
    TouchedSnoc(edits, front, last);
    var before := MergedList(ss, edits, front);
    if c == last {
      MergedListKeys(ss, edits, front);
      assert HasNone(before, {c});
      OccurrencesNone(before, {c}, c);
      FirstOfNone(before, c);
    } else {
      MergedOnce(ss, edits, front, c);
    }
    var added := if PatchOf(edits, last).Effective() then [NewEntry(ss, edits, last)] else [];
    assert MergedList(ss, edits, order) == before + added;
    OccurrencesAppend(before, added, c);
    FirstAppend(before, added, c);
  }

  /** After the batch, each CIDR it says something about has exactly one entry. */
  lemma EachEditedCidrOnce(d: Document, e: Edit, w: Walk, c: string)
    requires Walks(w, e) && CidrKeys(e.subnets)
    requires c in e.subnets && e.subnets[c].Effective()
    ensures var ss := Applied(d, e, w).subnets;
            Occurrences(ss, c) == 1 && First(ss, c) == Some(NewEntry(d.subnets, e.subnets, c))
  {
    AppliedIsEdited(d, e, w);
    var cs := Touched(e.subnets, w.subnets);
    var kept, merged := Without(d.subnets, cs), MergedList(d.subnets, e.subnets, w.subnets);
    assert c in cs;
    WithoutHasNone(d.subnets, cs);
    MergedOnce(d.subnets, e.subnets, w.subnets, c);
    OccurrencesNone(kept, cs, c);
    OccurrencesAppend(kept, merged, c);
    FirstWithout(d.subnets, cs, c);
    FirstAppend(kept, merged, c);
  }

  /** The k-th entry is the first one with this CIDR. */
  predicate FirstAt(ss: seq<Subnet>, c: string, k: nat) {
    k < |ss| && ss[k].cidr == c && forall j :: 0 <= j < k ==> ss[j].cidr != c
  }

  predicate Absent(ss: seq<Subnet>, c: string) {
    forall k :: 0 <= k < |ss| ==> ss[k].cidr != c
  }

  lemma {:induction false} FirstIs(ss: seq<Subnet>, c: string, k: nat)
    ensures FirstAt(ss, c, k) ==> First(ss, c) == Some(ss[k])
    ensures Absent(ss, c) ==> First(ss, c) == None
  {
    if ss != [] && ss[0].cidr != c {
      if k > 0 {
        FirstIs(ss[1..], c, k - 1);
      } else {
        FirstIs(ss[1..], c, |ss|);
      }
    }
  }

  /** One occurrence: whichever position has the CIDR holds the first entry with it. */
  lemma {:induction false} OccursOnce(ss: seq<Subnet>, c: string, i: nat)
    requires i < |ss| && ss[i].cidr == c && Occurrences(ss, c) == 1
    ensures First(ss, c) == Some(ss[i])
  {
    if ss[0].cidr == c {
      if i > 0 {
        OccursSomewhere(ss[1..], c, i - 1);
      }
    } else {
      OccursOnce(ss[1..], c, i - 1);
    }
  }

  lemma {:induction false} OccursSomewhere(ss: seq<Subnet>, c: string, i: nat)
    requires i < |ss| && ss[i].cidr == c
    ensures Occurrences(ss, c) > 0
  {
    if i > 0 {
      OccursSomewhere(ss[1..], c, i - 1);
    }
  }

  /** The entry of a touched CIDR: the batch's label and tags win, whatever it does not set
      comes from the first old entry with that CIDR, and so do all other keys; where there
      was none, whatever it does not set is absent. */
  predicate Decided(x: Subnet, p: Patch, were: seq<Subnet>, c: string, k: nat) {
    && (p.note.Some? ==> x.title == p.note)
    && (p.tags.Some? ==> x.tags == p.tags)
    && (FirstAt(were, c, k) ==>
        && (p.note.None? ==> x.title == were[k].title)
        && (p.tags.None? ==> x.tags == were[k].tags)
        && x.rest == were[k].rest)
    && (Absent(were, c) ==>
        && (p.note.None? ==> x.title == None)
        && (p.tags.None? ==> x.tags == None)
        && x.rest == map[])
  }

  /** So after the batch a touched CIDR has exactly one entry, and that is what it shows. */
  lemma EditedCidrShows(d: Document, e: Edit, w: Walk, c: string, i: nat, k: nat)
    requires Walks(w, e) && CidrKeys(e.subnets) && c in e.subnets && e.subnets[c].Effective()
    ensures var ss := Applied(d, e, w).subnets;
            && Occurrences(ss, c) == 1
            && (i < |ss| && ss[i].cidr == c ==> Decided(ss[i], e.subnets[c], d.subnets, c, k))
  {
    var ss := Applied(d, e, w).subnets;
    EachEditedCidrOnce(d, e, w, c);
    FirstIs(d.subnets, c, k);
    if i < |ss| && ss[i].cidr == c {
      OccursOnce(ss, c, i);
    }
  }

  lemma {:induction false} MergedAgain(ss: seq<Subnet>, ss': seq<Subnet>, edits: map<string, Patch>, order: seq<string>)
    requires forall c :: c in Touched(edits, order) ==> First(ss', c) == Some(NewEntry(ss, edits, c))
    ensures MergedList(ss', edits, order) == MergedList(ss, edits, order)
  {
    if order != [] {
      var n := |order| - 1;
      var c, front := order[n], order[..n];
      assert order == front + [c];
      TouchedSnoc(edits, front, c);
      MergedAgain(ss, ss', edits, front);
      assert PatchOf(edits, c).Effective() ==> NewEntry(ss', edits, c) == NewEntry(ss, edits, c);
    }
  }

  lemma UpsertedTwice(ss: seq<Subnet>, edits: map<string, Patch>, order: seq<string>)
    requires NoDup(order)
    ensures Upserted(Upserted(ss, edits, order), edits, order) == Upserted(ss, edits, order)
  {
    var cs := Touched(edits, order);
    var kept, merged := Without(ss, cs), MergedList(ss, edits, order);
    forall c | c in cs
      ensures First(kept + merged, c) == Some(NewEntry(ss, edits, c))
    {
      MergedOnce(ss, edits, order, c);
      FirstWithout(ss, cs, c);
      FirstAppend(kept, merged, c);
    }
    MergedAgain(ss, kept + merged, edits, order);
    WithoutAppend(kept, merged, cs);
    WithoutTwice(ss, cs, cs);
    assert cs + cs == cs;
    WithoutAll(ss, edits, order);
  }

  lemma WithoutAll(ss: seq<Subnet>, edits: map<string, Patch>, order: seq<string>)
    ensures Without(MergedList(ss, edits, order), Touched(edits, order)) == []
  {
    MergedListKeys(ss, edits, order);
    AllGone(MergedList(ss, edits, order), Touched(edits, order));
  }

  lemma {:induction false} AllGone(ss: seq<Subnet>, cs: set<string>)
    requires forall i :: 0 <= i < |ss| ==> ss[i].cidr in cs
    ensures Without(ss, cs) == []
  {
    if ss != [] {
      AllGone(ss[1..], cs);
    }
  }

  lemma HostsTwice(hs: seq<Host>, e: Edit, w: Walk)
    ensures EditedHosts(EditedHosts(hs, e, w), e, w) == EditedHosts(hs, e, w)
  {
    forall i | 0 <= i < |hs|
      ensures EditedHost(EditedHost(hs[i], e, w), e, w) == EditedHost(hs[i], e, w)
    {
      var h := EditedHost(hs[i], e, w);
      assert NotedAll(h.ip, h.forwards, e.forwards, w.forwards) == h.forwards;
    }
  }

  /** Sending a batch a second time, walked as before, changes nothing. */
  lemma TwiceIsOnce(d: Document, e: Edit, w: Walk)
    requires Walks(w, e) && CidrKeys(e.subnets)
    ensures var r := Applied(d, e, w); Applied(r, e, w) == r
  {
    AppliedIsEdited(d, e, w);
    AppliedIsEdited(Edited(d, e, w), e, w);
    HostsTwice(d.hosts, e, w);
    UpsertedTwice(d.subnets, e.subnets, w.subnets);
  }

  // ------------------------------------------------------------ what no edit touches

  predicate SameForwards(fs: seq<Forward>, fs': seq<Forward>) {
    && |fs| == |fs'|
    && forall j :: 0 <= j < |fs| ==>
         fs[j].local == fs'[j].local && fs[j].remote == fs'[j].remote && fs[j].rest == fs'[j].rest
  }

  predicate SameHost(h: Host, h': Host) {
    h.ip == h'.ip && h.rest == h'.rest && SameForwards(h.forwards, h'.forwards)
  }

  /** Credentials and every other key, and the whole sequence of (ip, local, remote). */
  predicate SameSkeleton(d: Document, d': Document) {
    && d.others == d'.others
    && |d.hosts| == |d'.hosts|
    && forall i :: 0 <= i < |d.hosts| ==> SameHost(d.hosts[i], d'.hosts[i])
  }

  /** No sequence of the constant expressions reaches them: not a batch that was never
      validated, and not one that stopped half way. */
  lemma {:induction false} SkeletonIsKept(es: seq<Yq>, d: Document)
    ensures SameSkeleton(d, Run(es, d))
  {
    if es != [] {
      var front, last := es[..|es| - 1], es[|es| - 1];
      SkeletonIsKept(front, d);
      EvalKeepsSkeleton(last, Run(front, d));
    }
  }

  lemma EvalKeepsSkeleton(e: Yq, d: Document)
    ensures SameSkeleton(d, Eval(e, d))
  {
    forall i | 0 <= i < |d.hosts|
      ensures SameHost(d.hosts[i], EvalHost(e, d.hosts[i]))
    {
    }
  }
}
