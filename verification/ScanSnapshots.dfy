/** The scanner's copy-before-mutate discipline. Device slices are heap objects shared between
    snapshots, a scan in progress and readers; `frozen` records every slice that was ever
    stored or broadcast (or belongs to a scan's results) with its contents at that time. */
module ScanSnapshots {
  import opened Text

  datatype Device = Device(ip: string, mac: string, name: string, tags: seq<string>, ports: seq<nat>)

  datatype Anno = Anno(name: string, tags: seq<string>)

  /** A Go slice of devices: nil, or the first `len` elements of an array. */
  datatype Devices = Nil | Slice(arr: array<Device>, len: nat)

  datatype IfaceResult = IfaceResult(name: string, ip: string, cidr: string, devices: Devices)

  datatype Snapshot = Snapshot(at: int, scanning: bool, interfaces: seq<IfaceResult>)

  // ------------------------------------------------------------ values

  function LowerChar(c: char): char {
    if 'A' <= c <= 'Z' then (c as int + 32) as char else c
  }

  function ToLower(s: string): (r: string)
    ensures |r| == |s|
  {
    seq(|s|, i requires 0 <= i < |s| => LowerChar(s[i]))
  }

  function DeviceID(mac: string, ip: string): string {
    if mac != "" then ToLower(mac) else "ip:" + ip
  }

  /** A device with its stored label, by MAC first and then by IP. */
  function Labelled(d: Device, annos: map<string, Anno>): Device {
    var id, byIp := DeviceID(d.mac, d.ip), "ip:" + d.ip;
    if id in annos then d.(name := annos[id].name, tags := annos[id].tags)
    else if byIp in annos then d.(name := annos[byIp].name, tags := annos[byIp].tags)
    else d
  }

  function AllLabelled(ds: seq<Device>, annos: map<string, Anno>): (r: seq<Device>)
    ensures |r| == |ds|
  {
    seq(|ds|, i requires 0 <= i < |ds| => Labelled(ds[i], annos))
  }

  /** `d` is the device `was` with its stored label: the one under its lower-cased MAC, else
      the one under its address, else the one it carried. */
  predicate HasLabel(d: Device, was: Device, annos: map<string, Anno>) {
    && d.ip == was.ip && d.mac == was.mac && d.ports == was.ports
    && (if was.mac != "" && ToLower(was.mac) in annos then
          d.name == annos[ToLower(was.mac)].name && d.tags == annos[ToLower(was.mac)].tags
        else if "ip:" + was.ip in annos then
          d.name == annos["ip:" + was.ip].name && d.tags == annos["ip:" + was.ip].tags
        else d.name == was.name && d.tags == was.tags)
  }

  predicate AllHaveLabels(ds: seq<Device>, was: seq<Device>, annos: map<string, Anno>) {
    |ds| == |was| && forall k :: 0 <= k < |ds| ==> HasLabel(ds[k], was[k], annos)
  }

  lemma LabelledHas(d: Device, annos: map<string, Anno>)
    ensures HasLabel(Labelled(d, annos), d, annos)
  {
  }

  lemma AllLabelledHave(ds: seq<Device>, annos: map<string, Anno>)
    ensures AllHaveLabels(AllLabelled(ds, annos), ds, annos)
  {
    forall k | 0 <= k < |ds|
      ensures HasLabel(AllLabelled(ds, annos)[k], ds[k], annos)
    {
      LabelledHas(ds[k], annos);
    }
  }

  /** Letter by letter, and nothing else changes. */
  lemma ToLowerIs(s: string, i: nat)
    requires i < |s|
    ensures forall k :: 0 <= k < 26 && s[i] == UPPER[k] ==> ToLower(s)[i] == LOWER[k]
    ensures s[i] !in UPPER ==> ToLower(s)[i] == s[i]
  {
    forall k | 0 <= k < 26
      ensures LowerChar(UPPER[k]) == LOWER[k]
    {
      Alphabet(k);
    }
    if 'A' <= s[i] <= 'Z' {
      Alphabet(s[i] as int - 'A' as int);
      assert s[i] == UPPER[s[i] as int - 'A' as int];
    }
  }

  function NotSelf(ds: seq<Device>, ip: string): seq<Device> {
    if ds == [] then []
    else NotSelf(ds[..|ds| - 1], ip) + (if ds[|ds| - 1].ip != ip then [ds[|ds| - 1]] else [])
  }

  lemma {:induction false} NotSelfConcat(a: seq<Device>, b: seq<Device>, ip: string)
    ensures NotSelf(a + b, ip) == NotSelf(a, ip) + NotSelf(b, ip)
  {
    if b == [] {
      assert a + b == a;
    } else {
      assert (a + b)[..|a + b| - 1] == a + b[..|b| - 1];
      NotSelfConcat(a, b[..|b| - 1], ip);
    }
  }

  lemma NotSelfSplit(ds: seq<Device>, ip: string, k: nat)
    requires k <= |ds|
    ensures NotSelf(ds, ip) == NotSelf(ds[..k], ip) + NotSelf(ds[k..], ip)
  {
    var a, b := ds[..k], ds[k..];
    assert ds == a + b;
    NotSelfConcat(a, b, ip);
  }

  /** Exactly the host's own entries go: an entry of another address stays as often as it
      occurred, and, splitting the list anywhere, on its side of the split. */
  lemma NotSelfKeeps(ds: seq<Device>, ip: string, d: Device, k: nat)
    requires k <= |ds|
    ensures multiset(NotSelf(ds, ip))[d] == if d.ip == ip then 0 else multiset(ds)[d]
    ensures NotSelf(ds, ip) == NotSelf(ds[..k], ip) + NotSelf(ds[k..], ip)
  {
    NotSelfCount(ds, ip, d);
    NotSelfSplit(ds, ip, k);
  }

  lemma CountSnoc(front: seq<Device>, last: Device, d: Device)
    ensures multiset(front + [last])[d] == multiset(front)[d] + if last == d then 1 else 0
  {
  }

  lemma NotSelfSnoc(front: seq<Device>, last: Device, ip: string)
    ensures NotSelf(front + [last], ip) == if last.ip != ip then NotSelf(front, ip) + [last] else NotSelf(front, ip)
  {
    assert (front + [last])[..|front|] == front;
  }

  lemma {:induction false} NotSelfCount(ds: seq<Device>, ip: string, d: Device)
    ensures multiset(NotSelf(ds, ip))[d] == if d.ip == ip then 0 else multiset(ds)[d]
  {
    if ds != [] {
      var front, last := ds[..|ds| - 1], ds[|ds| - 1];
      assert ds == front + [last];
      NotSelfCount(front, ip, d);
      NotSelfSnoc(front, last, ip);
      CountSnoc(front, last, d);
      CountSnoc(NotSelf(front, ip), last, d);
    }
  }

  /** `filtered := devices[:0]` and the appends: the kept devices move to the front, in order. */
  method FilterSelf(devices: array<Device>, ip: string) returns (n: nat)
    modifies devices
    ensures n <= devices.Length && devices[..n] == NotSelf(old(devices[..]), ip)
  {
    n := 0;
    ghost var was := devices[..];
    for k := 0 to devices.Length
      invariant n <= k
      invariant devices[..n] == NotSelf(was[..k], ip)
      invariant devices[k..] == was[k..]
    {
      var d := devices[k];
      assert d == devices[k..][0] == was[k];
      assert was[..k + 1][..k] == was[..k];
      assert devices[k + 1..] == devices[k..][1..];
      if d.ip != ip {
        devices[n] := d;
        n := n + 1;
        assert devices[..n] == devices[..n - 1] + [d];
      }
    }
    assert was[..devices.Length] == was;
  }

  // ------------------------------------------------------------ copying and annotating

  ghost predicate Readable(d: Devices) {
    d.Slice? ==> d.len <= d.arr.Length
  }

  ghost function Contents(d: Devices): seq<Device>
    requires Readable(d)
    reads if d.Slice? then {d.arr} else {}
  {
    if d.Nil? then [] else d.arr[..d.len]
  }

  /** `append([]scanDevice(nil), devices...)`: nothing to copy leaves nil. */
  method CloneDevices(d: Devices) returns (r: Devices)
    requires Readable(d)
    ensures Readable(r) && Contents(r) == Contents(d)
    ensures r.Slice? ==> fresh(r.arr) && r.len == r.arr.Length
  {
    if d.Nil? || d.len == 0 {
      return Nil;
    }
    var arr := new Device[d.len](i requires 0 <= i < d.len reads d.arr => d.arr[i]);
    r := Slice(arr, d.len);
    assert arr[..d.len] == d.arr[..d.len];
  }

  /** The pointer loop of `annotate` over one device slice. */
  method AnnotateDevices(d: Devices, annos: map<string, Anno>)
    requires Readable(d) && (d.Slice? ==> d.len == d.arr.Length)
    modifies if d.Slice? then {d.arr} else {}
    ensures Contents(d) == AllLabelled(old(Contents(d)), annos)
  {
    if d.Nil? {
      return;
    }
    ghost var was := d.arr[..];
    for j := 0 to d.len
      invariant forall k :: 0 <= k < j ==> d.arr[k] == Labelled(was[k], annos)
      invariant forall k :: j <= k < d.len ==> d.arr[k] == was[k]
    {
      d.arr[j] := Labelled(d.arr[j], annos);
    }
    assert d.arr[..d.len] == AllLabelled(was, annos);
  }

  // ------------------------------------------------------------ the scanner

  /** What an adapter shows, by value. */
  datatype View = View(name: string, ip: string, cidr: string, devices: seq<Device>)

  /** `v` is the adapter `was` with its devices' stored labels. */
  predicate LabelledView(v: View, was: View, annos: map<string, Anno>) {
    v.name == was.name && v.ip == was.ip && v.cidr == was.cidr && AllHaveLabels(v.devices, was.devices, annos)
  }

  /** A scan in progress: what it has seeded and refreshed so far, and for the claims the
      seeds' contents and the outcome of every adapter already rescanned. */
  class Job {
    const annos: map<string, Anno>
    var results: seq<IfaceResult>
    ghost var seeds: seq<View>
    ghost var outcome: map<nat, View>

    constructor (annos: map<string, Anno>, results: seq<IfaceResult>, ghost seeds: seq<View>)
      ensures this.annos == annos && this.results == results && this.seeds == seeds && outcome == map[]
    {
      this.annos := annos;
      this.results := results;
      this.seeds := seeds;
      outcome := map[];
    }

    /** What adapter `i` should hold: its rescan, or else what it held when the scan began. */
    ghost function Expected(i: nat): View
      reads this
      requires i < |seeds|
    {
      if i in outcome then outcome[i] else seeds[i]
    }
  }

  class Scanner {
    var latest: Snapshot
    var scanning: bool
    ghost var frozen: map<array<Device>, seq<Device>>

    /** No frozen slice has changed, and everything in `latest` is frozen. */
    ghost predicate Valid()
      reads this, frozen.Keys
    {
      && (forall a :: a in frozen ==> a[..] == frozen[a])
      && (forall k :: 0 <= k < |latest.interfaces| ==> Held(latest.interfaces[k].devices))
    }

    ghost predicate Held(d: Devices)
      reads this
    {
      d.Slice? ==> d.arr in frozen && d.len <= |frozen[d.arr]|
    }

    /** The contents a held slice was frozen with. */
    ghost function Frozen(d: Devices): seq<Device>
      requires Held(d)
      reads this
    {
      if d.Nil? then [] else frozen[d.arr][..d.len]
    }

    ghost function ViewOf(r: IfaceResult): View
      requires Held(r.devices)
      reads this
    {
      View(r.name, r.ip, r.cidr, Frozen(r.devices))
    }

    ghost predicate JobValid(job: Job)
      reads this, job
    {
      && |job.results| == |job.seeds|
      && forall i :: 0 <= i < |job.results| ==>
           Held(job.results[i].devices) && ViewOf(job.results[i]) == job.Expected(i)
    }

    constructor ()
      ensures Valid() && !scanning && latest.interfaces == []
    {
      latest, scanning, frozen := Snapshot(0, false, []), false, map[];
    }

    /** `cloneSnapshot` followed by `annotate`, on a private copy of the given interfaces. */
    method LabelledCopy(from: seq<IfaceResult>, annos: map<string, Anno>) returns (out: seq<IfaceResult>)
      requires Valid() && forall k :: 0 <= k < |from| ==> Held(from[k].devices)
      modifies this`frozen
      ensures Valid() && old(frozen).Keys <= frozen.Keys && forall a :: a in old(frozen) ==> frozen[a] == old(frozen)[a]
      ensures |out| == |from|
      ensures forall k :: 0 <= k < |from| ==>
                Held(out[k].devices) && Held(from[k].devices) && LabelledView(ViewOf(out[k]), ViewOf(from[k]), annos)
    {
      out := [];
      for k := 0 to |from|
        invariant Valid() && old(frozen).Keys <= frozen.Keys
        invariant forall a :: a in old(frozen) ==> frozen[a] == old(frozen)[a]
        invariant |out| == k
        invariant forall j :: 0 <= j < |from| ==> Held(from[j].devices)
        invariant forall j :: 0 <= j < k ==>
                    Held(out[j].devices) && LabelledView(ViewOf(out[j]), ViewOf(from[j]), annos)
      {
        var copy := LabelledSlice(from[k].devices, annos);
        out := out + [from[k].(devices := copy)];
      }
    }

    /** One device slice of such a copy. */
    method LabelledSlice(from: Devices, annos: map<string, Anno>) returns (copy: Devices)
      requires Valid() && Held(from)
      modifies this`frozen
      ensures Valid() && Extends() && Held(copy)
      ensures AllHaveLabels(Frozen(copy), old(Frozen(from)), annos)
    {
      AllLabelledHave(Frozen(from), annos);
      copy := CloneDevices(from);
      AnnotateDevices(copy, annos);
      if copy.Slice? {
        frozen := frozen[copy.arr := copy.arr[..]];
      }
    }

    /** `publish`: store and broadcast a labelled private copy of the results. */
    method Publish(job: Job, at: int, on: bool)
      requires Valid() && JobValid(job)
      modifies this`latest, this`frozen
      ensures Valid() && JobValid(job)
      ensures old(frozen).Keys <= frozen.Keys && forall a :: a in old(frozen) ==> frozen[a] == old(frozen)[a]
      ensures latest.at == at && latest.scanning == on
      ensures Shows(job)
    {
      var copy := LabelledCopy(job.results, job.annos);
      latest := Snapshot(at, on, copy);
    }

    /** The stored snapshot shows what every adapter of the scan should hold, labelled. */
    ghost predicate Shows(job: Job)
      reads this, job
    {
      && |latest.interfaces| == |job.results| == |job.seeds|
      && forall i :: 0 <= i < |job.results| ==>
           && Held(latest.interfaces[i].devices)
           && LabelledView(ViewOf(latest.interfaces[i]), job.Expected(i), job.annos)
    }

    /** Every slice frozen before is still frozen with the same contents. */
    twostate predicate Extends()
      reads this
    {
      old(frozen).Keys <= frozen.Keys && forall a :: a in old(frozen) ==> frozen[a] == old(frozen)[a]
    }

    /** The start of `scan`: nothing happens while another scan runs; otherwise every adapter
        is seeded with the devices the latest snapshot has for its name. */
    method Begin(targets: seq<Target>, annos: map<string, Anno>, at: int) returns (job: Option<Job>)
      requires Valid() && DistinctNames(targets)
      modifies this
      ensures Valid() && Extends()
      ensures job.Some? <==> !old(scanning)
      ensures job.None? ==> latest == old(latest) && scanning
      ensures job.Some? ==> fresh(job.value) && scanning && latest.scanning
                            && JobValid(job.value) && Shows(job.value) && job.value.outcome == map[]
      ensures job.Some? ==>
                && |job.value.results| == |targets| && job.value.annos == annos
                && forall i :: 0 <= i < |targets| ==> job.value.seeds[i] == old(Showing(targets[i].name))
    {
      if scanning {
        return None;
      }
      scanning := true;
      var results: seq<IfaceResult> := [];
      ghost var seeds: seq<View> := [];
      for k := 0 to |targets|
        invariant |results| == |seeds| == k
        invariant forall i :: 0 <= i < k ==>
                    Held(results[i].devices) && seeds[i] == ViewOf(results[i]) == Showing(targets[i].name)
      {
        var at := LastNamed(latest.interfaces, targets[k].name);
        var r := if at < 0 then IfaceResult("", "", "", Nil) else latest.interfaces[at];
        results := results + [r.(name := targets[k].name)];
        seeds := seeds + [Showing(targets[k].name)];
      }
      var j := new Job(annos, results, seeds);
      Publish(j, at, true);
      return Some(j);
    }

    /** What the latest snapshot shows for an adapter name. */
    ghost function Showing(name: string): View
      requires Valid()
      reads this, frozen.Keys
    {
      var at := LastNamed(latest.interfaces, name);
      if at < 0 then View(name, "", "", []) else ViewOf(latest.interfaces[at])
    }

    /** That is the last result of the name, with its address, network and devices, or nothing. */
    lemma ShowingIs(name: string, k: int)
      requires Valid()
      ensures LastAt(latest.interfaces, name, k) ==>
                var r := latest.interfaces[k];
                Showing(name)
                == View(name, r.ip, r.cidr, if r.devices.Nil? then [] else frozen[r.devices.arr][..r.devices.len])
      ensures Unknown(latest.interfaces, name) ==> Showing(name) == View(name, "", "", [])
    {
    }

    /** One adapter refreshed: `found` is the slice nmap's parser built, owned by this scan. */
    method Rescan(job: Job, i: nat, ip: string, cidr: string, found: Devices, at: int)
      requires Valid() && JobValid(job) && i < |job.results|
      requires found.Slice? ==> found.arr !in frozen && found.len == found.arr.Length
      modifies this`latest, this`frozen, job`results, job`outcome, if found.Slice? then {found.arr} else {}
      ensures Valid() && Extends() && JobValid(job) && Shows(job)
      ensures |job.results| == |old(job.results)|
      ensures job.outcome
           == old(job.outcome)[i := Rescanned(old(job.Expected(i)).name, ip, cidr, old(Contents(found)))]
      ensures latest.scanning
    {
      ghost var was := Contents(found);
      var kept := KeepOthers(ip, cidr, found);
      Record(job, i, IfaceResult(job.results[i].name, ip, cidr, kept), Rescanned(job.results[i].name, ip, cidr, was));
      Publish(job, at, true);
    }

    /** The scan's own copy of an adapter's devices, from here on a frozen slice. */
    method KeepOthers(ip: string, cidr: string, found: Devices) returns (kept: Devices)
      requires Valid() && (found.Slice? ==> found.arr !in frozen && found.len == found.arr.Length)
      modifies this`frozen, if found.Slice? then {found.arr} else {}
      ensures Valid() && Extends() && Held(kept)
      ensures Frozen(kept) == if cidr == "" then [] else NotSelf(old(Contents(found)), ip)
    {
      kept := Nil;
      if cidr != "" && found.Slice? {
        assert Contents(found) == found.arr[..];
        var n := FilterSelf(found.arr, ip);
        kept := Slice(found.arr, n);
        frozen := frozen[found.arr := found.arr[..]];
        assert found.arr[..][..n] == found.arr[..n];
      }
    }

    /** `results[i] = …` */
    method Record(job: Job, i: nat, r: IfaceResult, ghost outcome: View)
      requires JobValid(job) && i < |job.results|
      requires Held(r.devices) && ViewOf(r) == outcome
      modifies job`results, job`outcome
      ensures JobValid(job)
      ensures job.results == old(job.results)[i := r] && job.outcome == old(job.outcome)[i := outcome]
    {
      job.results := job.results[i := r];
      job.outcome := job.outcome[i := outcome];
    }

    /** The end of `scan`: a last publish, and the scanning flag goes down. */
    method Finish(job: Job, at: int)
      requires Valid() && JobValid(job) && scanning
      modifies this
      ensures Valid() && Extends() && JobValid(job) && Shows(job)
      ensures !scanning && !latest.scanning
    {
      Publish(job, at, false);
      scanning := false;
      BroadcastScanning(false);
    }

    /** The loop of `scan` over the adapters. */
    method RescanAll(job: Job, targets: seq<Target>, only: string, probes: seq<Probe>, at: int)
      requires Valid() && JobValid(job) && Shows(job) && job.outcome == map[]
      requires |job.results| == |targets| == |probes|
      requires forall i :: 0 <= i < |targets| ==> job.seeds[i].name == targets[i].name
      modifies this`latest, this`frozen, job`results, job`outcome
      ensures Valid() && Extends() && JobValid(job) && Shows(job)
      ensures |job.results| == |targets|
      ensures forall i :: 0 <= i < |targets| ==>
                job.Expected(i) == Wanted(job.seeds[i], targets[i], only, probes[i])
    {
      for k := 0 to |targets|
        invariant Valid() && Extends() && JobValid(job) && Shows(job)
        invariant |job.results| == |targets|
        invariant forall i :: 0 <= i < k ==> job.Expected(i) == Wanted(job.seeds[i], targets[i], only, probes[i])
        invariant forall i :: k <= i < |targets| ==> i !in job.outcome
      {
        if only == "" || targets[k].name == only {
          RescanProbe(job, k, probes[k], at);
        }
      }
    }

    method RescanProbe(job: Job, k: nat, p: Probe, at: int)
      requires Valid() && JobValid(job) && k < |job.results|
      modifies this`latest, this`frozen, job`results, job`outcome
      ensures Valid() && Extends() && JobValid(job) && Shows(job)
      ensures |job.results| == |old(job.results)|
      ensures job.outcome == old(job.outcome)[k := Rescanned(old(job.Expected(k)).name, p.ip, p.cidr, p.hosts)]
    {
      var found := NmapScan(p.hosts);
      Rescan(job, k, p.ip, p.cidr, found, at);
    }

    /** A whole `scan` that nothing interleaves with. */
    method Scan(targets: seq<Target>, only: string, annos: map<string, Anno>, probes: seq<Probe>, at: int)
      requires Valid() && DistinctNames(targets) && |probes| == |targets|
      modifies this
      ensures Valid() && Extends()
      ensures old(scanning) ==> scanning && latest == old(latest)
      ensures !old(scanning) ==> !scanning && !latest.scanning && |latest.interfaces| == |targets|
      ensures !old(scanning) ==> forall i :: 0 <= i < |targets| ==>
                LabelledView(ViewOf(latest.interfaces[i]),
                             Wanted(old(Showing(targets[i].name)), targets[i], only, probes[i]), annos)
    {
      var job := Begin(targets, annos, at);
      if job.Some? {
        RescanAll(job.value, targets, only, probes, at);
        Finish(job.value, at);
      }
    }

    /** What nmap's parser returns: a slice nobody else holds. */
    method NmapScan(hosts: seq<Device>) returns (found: Devices)
      ensures found.Slice? && fresh(found.arr) && found.len == found.arr.Length && Contents(found) == hosts
    {
      var arr := new Device[|hosts|](i requires 0 <= i < |hosts| => hosts[i]);
      found := Slice(arr, |hosts|);
      assert arr[..|hosts|] == hosts;
    }

    method BroadcastScanning(on: bool)
      requires Valid()
      modifies this`latest
      ensures Valid() && latest == old(latest).(scanning := on)
    {
      latest := latest.(scanning := on);
    }

    /** `reannotate`, possibly in the middle of a scan: neither a snapshot already out nor the
        scan's own results change, only the labels of the stored snapshot. */
    method Reannotate(annos: map<string, Anno>, ghost running: set<Job>)
      requires Valid() && forall job :: job in running ==> JobValid(job)
      modifies this`latest, this`frozen
      ensures Valid() && Extends() && forall job :: job in running ==> JobValid(job)
      ensures latest.at == old(latest.at) && latest.scanning == old(latest.scanning)
      ensures |latest.interfaces| == |old(latest.interfaces)|
      ensures forall k :: 0 <= k < |latest.interfaces| ==>
                LabelledView(ViewOf(latest.interfaces[k]), old(ViewOf(latest.interfaces[k])), annos)
    {
      var copy := LabelledCopy(latest.interfaces, annos);
      latest := latest.(interfaces := copy);
    }
  }

  /** A configured adapter; entries without name and CIDR are already dropped. */
  datatype Target = Target(name: string, cidr: string)

  /** What the system and nmap answer for an adapter: its address, its valid CIDR or "", and
      the hosts found in it. */
  datatype Probe = Probe(ip: string, cidr: string, hosts: seq<Device>)

  /** A rescanned adapter: nothing without a CIDR, else nmap's hosts but this one, in order. */
  function Rescanned(name: string, ip: string, cidr: string, hosts: seq<Device>): View {
    View(name, ip, cidr, if cidr == "" then [] else NotSelf(hosts, ip))
  }

  /** What an adapter should hold after a scan: what it showed before when it is not targeted. */
  function Wanted(shown: View, t: Target, only: string, p: Probe): View {
    if only != "" && t.name != only then shown else Rescanned(t.name, p.ip, p.cidr, p.hosts)
  }

  predicate DistinctNames(targets: seq<Target>) {
    forall i, j :: 0 <= i < j < |targets| ==> targets[i].name != targets[j].name
  }

  /** Field by field: an adapter that is not targeted is wanted as it was, a targeted one has
      the address and network just read, and nmap's hosts but this one if there is a network. */
  lemma WantedIs(shown: View, t: Target, only: string, p: Probe)
    ensures var w := Wanted(shown, t, only, p);
            && (only != "" && t.name != only ==> w == shown)
            && (only == "" || t.name == only ==>
                && w.name == t.name && w.ip == p.ip && w.cidr == p.cidr
                && w.devices == if p.cidr == "" then [] else NotSelf(p.hosts, p.ip))
  {
  }

  /** The k-th result is the last one with this name. */
  predicate LastAt(interfaces: seq<IfaceResult>, name: string, k: int) {
    0 <= k < |interfaces| && interfaces[k].name == name
    && forall i :: k < i < |interfaces| ==> interfaces[i].name != name
  }

  predicate Unknown(interfaces: seq<IfaceResult>, name: string) {
    forall i :: 0 <= i < |interfaces| ==> interfaces[i].name != name
  }

  /** The `prev` map: the last result with the name, or -1. */
  function LastNamed(interfaces: seq<IfaceResult>, name: string): (k: int)
    ensures -1 <= k < |interfaces|
    ensures k >= 0 ==> interfaces[k].name == name
    ensures forall i :: k < i < |interfaces| ==> interfaces[i].name != name
  {
    if interfaces == [] then -1
    else if interfaces[|interfaces| - 1].name == name then |interfaces| - 1
    else LastNamed(interfaces[..|interfaces| - 1], name)
  }
}
