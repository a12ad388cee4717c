/** A batch of edits from the web UI applied to a tunnel's conf file. The batch holds three
    maps, which are walked in whatever order the runtime picks; every step is one constant
    yq expression, modelled as a function from document to document. */
module ConfDocument {

  import opened Glob
  import opened Text

  // ------------------------------------------------------------ documents

  /** Scalars are their text, whatever their YAML type: `80` and `"80"` are the same remote.
      `rest` and `others` stand for all the keys that no edit addresses: credentials,
      gateway, and whatever else the file holds. */
  datatype Forward = Forward(
    local: Option<string>, remote: Option<string>, note: Option<string>, rest: map<string, string>)

  datatype Host = Host(
    ip: string, name: Option<string>, tags: Option<seq<string>>, forwards: seq<Forward>, rest: map<string, string>)

  /** `title` is the YAML key `label`. */
  datatype Subnet = Subnet(cidr: string, title: Option<string>, tags: Option<seq<string>>, rest: map<string, string>)

  datatype Document = Document(name: Option<string>, tags: Option<seq<string>>, hosts: seq<Host>,
                               subnets: seq<Subnet>, others: map<string, string>)

  /** `hostEdit`: nil pointers are None. */
  datatype Patch = Patch(note: Option<string>, tags: Option<seq<string>>) {
    predicate Effective() { note.Some? || tags.Some? }
  }

  /** `confEdit` */
  datatype Edit = Edit(name: Option<string>, tags: Option<seq<string>>, hosts: map<string, Patch>,
                       forwards: map<string, string>, subnets: map<string, Patch>)

  // ------------------------------------------------------------ validation

  predicate OneLine(s: string) { Free(s, {'\n', '\r'}) }

  predicate TagOk(t: string) { OneLine(t) && Free(t, {' ', '\t'}) }

  predicate TagsOk(tags: Option<seq<string>>) {
    tags.Some? ==> forall i :: 0 <= i < |tags.value| ==> TagOk(tags.value[i])
  }

  predicate PatchOk(p: Patch) {
    (p.note.Some? ==> OneLine(p.note.value)) && TagsOk(p.tags)
  }

  const MAX_INT := 0x7FFF_FFFF_FFFF_FFFF

  /** A port as `Itoa` writes it. */
  predicate PortNumeral(s: string) {
    Numeral(s) && s[0] != '0' && 1 <= Atoi(s) <= 65535
  }

  /** `isNumeric`: digits only, and `strconv.Atoi` can hold the value. */
  method IsNumeric(s: string) returns (ok: bool)
    ensures ok <==> Numeral(s) && Atoi(s) <= 9_223_372_036_854_775_807
  {
    if s == "" {
      return false;
    }
    for i := 0 to |s|
      invariant forall k :: 0 <= k < i ==> Digit(s[k])
    {
      if s[i] < '0' || s[i] > '9' {
        return false;
      }
    }
    return Atoi(s) <= MAX_INT;
  }

  /** `validPort` */
  method ValidPort(s: string) returns (ok: bool)
    ensures ok <==> PortNumeral(s)
  {
    var numeric := IsNumeric(s);
    if !numeric || s[0] == '0' {
      return false;
    }
    var n := Atoi(s);
    return n >= 1 && n <= 65535;
  }

  /** A port key is accepted exactly when it is the one way to write a port number. */
  lemma PortNumeralIsItoa(s: string)
    ensures PortNumeral(s) <==> exists p: nat :: 1 <= p <= 65535 && s == Itoa(p)
  {
    if PortNumeral(s) {
      ItoaAtoi(s);
    }
    forall p: nat | 1 <= p <= 65535 && s == Itoa(p)
      ensures PortNumeral(s)
    {
      ItoaNumeral(p);
    }
  }

  predicate KeyOk(key: string) {
    ':' in key && BeforeFirst(key, ':') != "" && PortNumeral(AfterFirst(key, ':'))
  }

  predicate ForwardsOk(notes: map<string, string>) {
    forall k :: k in notes ==> KeyOk(k)
  }

  predicate PatchesOk(edits: map<string, Patch>) {
    forall k :: k in edits ==> PatchOk(edits[k])
  }

  predicate NotesOk(notes: map<string, string>) {
    forall k :: k in notes ==> OneLine(notes[k])
  }

  predicate CidrChar(c: char) { Digit(c) || c == '.' || c == '/' }

  function CountOf(s: string, c: char): nat {
    if s == "" then 0 else CountOf(s[..|s| - 1], c) + if s[|s| - 1] == c then 1 else 0
  }

  /** The characters and the one slash that `validCIDRKey` asks for. */
  predicate CidrShape(s: string) {
    s != "" && CountOf(s, '/') == 1 && forall i :: 0 <= i < |s| ==> CidrChar(s[i])
  }

  predicate CidrKeys(edits: map<string, Patch>) {
    forall c :: c in edits ==> CidrShape(c)
  }

  /** `validCIDRKey`; `parses` is the verdict of `net.ParseCIDR` (IPv4) on each key. */
  method ValidCidrKey(s: string, parses: string -> bool) returns (ok: bool)
    ensures ok <==> CidrShape(s) && parses(s)
  {
    if s == "" || CountOf(s, '/') != 1 {
      return false;
    }
    for i := 0 to |s|
      invariant forall k :: 0 <= k < i ==> CidrChar(s[k])
    {
      if !Digit(s[i]) && s[i] != '.' && s[i] != '/' {
        return false;
      }
    }
    return parses(s);
  }

  predicate Parse(edits: map<string, Patch>, parses: string -> bool) {
    forall c :: c in edits ==> parses(c)
  }

  predicate Acceptable(e: Edit, parses: string -> bool) {
    && (e.name.Some? ==> OneLine(e.name.value))
    && TagsOk(e.tags)
    && PatchesOk(e.hosts)
    && ForwardsOk(e.forwards) && NotesOk(e.forwards)
    && CidrKeys(e.subnets) && Parse(e.subnets, parses) && PatchesOk(e.subnets)
  }

  /** `validateEdit`: accepted exactly when every part is. */
  method ValidateEdit(e: Edit, parses: string -> bool) returns (ok: bool)
    ensures ok <==> Acceptable(e, parses)
  {
    if e.name.Some? && !OneLine(e.name.value) {
      return false;
    }
    if !TagsOk(e.tags) {
      return false;
    }
    var hosts := ValidPatches(e.hosts);
    if !hosts {
      return false;
    }
    var forwards := ValidForwards(e.forwards);
    if !forwards {
      return false;
    }
    ok := ValidSubnets(e.subnets, parses);
  }

  method ValidPatches(edits: map<string, Patch>) returns (ok: bool)
    ensures ok <==> PatchesOk(edits)
  {
    var todo := edits.Keys;
    while todo != {}
      invariant todo <= edits.Keys
      invariant forall k :: k in edits && k !in todo ==> PatchOk(edits[k])
      decreases |todo|
    {
      var k :| k in todo;
      if !PatchOk(edits[k]) {
        return false;
      }
      todo := todo - {k};
    }
    return true;
  }

  method ValidForwards(notes: map<string, string>) returns (ok: bool)
    ensures ok <==> ForwardsOk(notes) && NotesOk(notes)
  {
    var todo := notes.Keys;
    while todo != {}
      invariant todo <= notes.Keys
      invariant forall k :: k in notes && k !in todo ==> KeyOk(k) && OneLine(notes[k])
      decreases |todo|
    {
      var k :| k in todo;
      var portOk := ValidPort(AfterFirst(k, ':'));
      if ':' !in k || BeforeFirst(k, ':') == "" || !portOk {
        assert !KeyOk(k);
        return false;
      }
      if !OneLine(notes[k]) {
        return false;
      }
      todo := todo - {k};
    }
    return true;
  }

  method ValidSubnets(edits: map<string, Patch>, parses: string -> bool) returns (ok: bool)
    ensures ok <==> CidrKeys(edits) && Parse(edits, parses) && PatchesOk(edits)
  {
    var todo := edits.Keys;
    while todo != {}
      invariant todo <= edits.Keys
      invariant forall c :: c in edits && c !in todo ==> CidrShape(c) && parses(c) && PatchOk(edits[c])
      decreases |todo|
    {
      var c :| c in todo;
      var keyOk := ValidCidrKey(c, parses);
      if !keyOk || !PatchOk(edits[c]) {
        return false;
      }
      todo := todo - {c};
    }
    return true;
  }

  // ------------------------------------------------------------ forward keys

  /** The address pattern and the port number that a forward key is looked up by. */
  function KeyIp(key: string): string { BeforeFirst(key, ':') }

  function KeyPort(key: string): nat {
    var r := AfterFirst(key, ':');
    if Numeral(r) then Atoi(r) else 0
  }

  function KeyOf(ip: string, port: nat): string { ip + ":" + Itoa(port) }

  /** An accepted key denotes a pair exactly when it is the pair's canonical key. */
  lemma KeyDenotes(key: string, ip: string, port: nat)
    requires KeyOk(key)
    ensures KeyIp(key) == ip && KeyPort(key) == port <==> ':' !in ip && key == KeyOf(ip, port)
  {
    FirstIndexIs(key, ':');
    var k := FirstIndex(key, ':');
    assert key == key[..k] + ":" + key[k + 1..];
    ItoaAtoi(AfterFirst(key, ':'));
    if ':' !in ip && key == KeyOf(ip, port) {
      CutAtFirst(ip, ':', Itoa(port));
      ItoaNumeral(port);
    }
  }

  lemma DistinctKeysDistinctPairs(a: string, b: string)
    requires KeyOk(a) && KeyOk(b) && a != b
    ensures KeyIp(a) != KeyIp(b) || KeyPort(a) != KeyPort(b)
  {
    KeyDenotes(a, KeyIp(a), KeyPort(a));
    KeyDenotes(b, KeyIp(b), KeyPort(b));
  }

  /** A key without wildcards reaches the forwards of exactly one address and one port text. */
  lemma PlainKeyAddresses(key: string, ip: string, remote: string)
    requires KeyOk(key) && Plain(KeyIp(key))
    ensures Matches(ip, KeyIp(key)) && remote == Itoa(KeyPort(key)) <==> ':' !in ip && key == ip + ":" + remote
  {
    PlainIsEquality(ip, KeyIp(key));
    ItoaAtoi(AfterFirst(key, ':'));
    KeyDenotes(key, ip, KeyPort(key));
    if ':' !in ip && key == ip + ":" + remote {
      CutAtFirst(ip, ':', remote);
    }
  }

  /** An accepted forward key is an address pattern without a colon, a colon, and a port. */
  lemma KeyOkIff(key: string)
    ensures KeyOk(key)
       <==> exists ip: string, p: nat :: ip != "" && ':' !in ip && 1 <= p <= 65535 && key == KeyOf(ip, p)
  {
    if KeyOk(key) {
      KeyDenotes(key, KeyIp(key), KeyPort(key));
      PortNumeralIsItoa(AfterFirst(key, ':'));
      assert key == KeyOf(KeyIp(key), KeyPort(key)) && 1 <= KeyPort(key) <= 65535;
    }
    forall ip: string, p: nat | ip != "" && ':' !in ip && 1 <= p <= 65535 && key == KeyOf(ip, p)
      ensures KeyOk(key)
    {
      CutAtFirst(ip, ':', Itoa(p));
      ItoaNumeral(p);
      assert ip + [':'] + Itoa(p) == key && key[|ip|] == ':';
    }
  }

  /** Both sides of the slash are digits and dots. */
  predicate DottedDigits(s: string) {
    forall i :: 0 <= i < |s| ==> s[i] in "0123456789."
  }

  lemma CidrCharIs(c: char)
    ensures CidrChar(c) <==> c in "0123456789." || c == '/'
  {
    var chars := "0123456789.";
    if Digit(c) {
      assert chars[c as int - '0' as int] == c;
    }
    assert chars[10] == '.';
  }

  lemma {:induction false} CountNone(s: string, c: char)
    ensures CountOf(s, c) == 0 <==> c !in s
  {
    if s != "" {
      CountNone(s[..|s| - 1], c);
      assert s == s[..|s| - 1] + [s[|s| - 1]];
    }
  }

  lemma {:induction false} CountConcat(a: string, b: string, c: char)
    ensures CountOf(a + b, c) == CountOf(a, c) + CountOf(b, c)
  {
    if b == "" {
      assert a + b == a;
    } else {
      assert (a + b)[..|a + b| - 1] == a + b[..|b| - 1];
      CountConcat(a, b[..|b| - 1], c);
    }
  }

  lemma CidrShapeOf(a: string, b: string)
    requires DottedDigits(a) && DottedDigits(b)
    ensures CidrShape(a + "/" + b)
  {
    var s := a + "/" + b;
    CountConcat(a + "/", b, '/');
    CountConcat(a, "/", '/');
    CountNone(a, '/');
    CountNone(b, '/');
    assert CountOf("/", '/') == 1 by {
      assert "/"[..0] == "";
    }
    forall i | 0 <= i < |s|
      ensures CidrChar(s[i])
    {
      CidrCharIs(s[i]);
      if i < |a| {
        assert s[i] == a[i];
      } else if i > |a| {
        assert s[i] == b[i - |a| - 1];
      }
    }
  }

  predicate SlashParts(s: string, a: string, b: string) {
    DottedDigits(a) && DottedDigits(b) && s == a + "/" + b
  }

  /** The scan of `validCIDRKey` accepts exactly digits and dots around one slash. */
  lemma CidrShapeIff(s: string)
    ensures CidrShape(s) <==> exists a, b :: SlashParts(s, a, b)
  {
    if CidrShape(s) {
      var a, b := CidrParts(s);
    } else if a, b :| SlashParts(s, a, b) {
      CidrShapeOf(a, b);
    }
  }

  lemma CidrParts(s: string) returns (a: string, b: string)
    requires CidrShape(s)
    ensures SlashParts(s, a, b)
  {
    CountNone(s, '/');
    FirstIndexIs(s, '/');
    var k := FirstIndex(s, '/');
    a, b := s[..k], s[k + 1..];
    assert s == a + "/" + b;
    OneSlash(a, b);
    SideOfSlash(s, a, 0);
    SideOfSlash(s, b, k + 1);
  }

  lemma OneSlash(a: string, b: string)
    requires CountOf(a + "/" + b, '/') == 1
    ensures '/' !in b
  {
    CountConcat(a + "/", b, '/');
    CountConcat(a, "/", '/');
    assert CountOf("/", '/') == 1 by {
      assert "/"[..0] == "";
    }
    CountNone(b, '/');
  }

  lemma SideOfSlash(s: string, side: string, at: nat)
    requires at + |side| <= |s| && side == s[at..at + |side|] && '/' !in side
    requires forall i :: 0 <= i < |s| ==> CidrChar(s[i])
    ensures DottedDigits(side)
  {
    forall i | 0 <= i < |side|
      ensures side[i] in "0123456789."
    {
      assert side[i] == s[at + i];
      CidrCharIs(s[at + i]);
    }
  }

  /** An accepted batch, character by character. */
  lemma AcceptedScalars(e: Edit, parses: string -> bool, k: string)
    requires Acceptable(e, parses)
    ensures e.name.Some? ==> NoBreak(e.name.value)
    ensures e.tags.Some? ==> forall i :: 0 <= i < |e.tags.value| ==> NoBlank(e.tags.value[i])
    ensures k in e.forwards ==> NoBreak(e.forwards[k])
    ensures k in e.hosts ==> ScalarsOk(e.hosts[k])
    ensures k in e.subnets ==> ScalarsOk(e.subnets[k]) && parses(k)
  {
    forall t | TagOk(t)
      ensures NoBlank(t)
    {
    }
  }

  predicate NoBreak(s: string) { '\n' !in s && '\r' !in s }

  predicate NoBlank(s: string) { NoBreak(s) && ' ' !in s && '\t' !in s }

  predicate ScalarsOk(p: Patch) {
    && (p.note.Some? ==> NoBreak(p.note.value))
    && (p.tags.Some? ==> forall i :: 0 <= i < |p.tags.value| ==> NoBlank(p.tags.value[i]))
  }

  /** And nothing else is refused. */
  lemma ScalarsAreAccepted(p: Patch)
    ensures PatchOk(p) <==> ScalarsOk(p)
  {
    forall t: string
      ensures TagOk(t) <==> NoBlank(t)
      ensures OneLine(t) <==> NoBreak(t)
    {
    }
  }

  /** Without the leading-zero check two keys would address one forward. */
  lemma LeadingZeroWouldCollide()
    ensures var a, b := "h:80", "h:080";
            KeyIp(a) == KeyIp(b) && KeyPort(a) == KeyPort(b) && KeyOk(a) && !KeyOk(b)
  {
    CutAtFirst("h", ':', "80");
    CutAtFirst("h", ':', "080");
    assert "h" + ":" + "80" == "h:80" && "h" + ":" + "080" == "h:080";
    EightyReads();
    assert "h:80"[1] == ':';
  }

  lemma EightyReads()
    ensures Atoi("80") == Atoi("080") == 80
  {
    assert "80"[..1] == "8" && "8"[..0] == "";
    assert Atoi("8") == 8;
    assert "080"[..2] == "08" && "08"[..1] == "0" && "0"[..0] == "";
    assert Atoi("0") == 0 && Atoi("08") == 8;
  }

  // ------------------------------------------------------------ yq expressions

  datatype Yq =
    | SetName(name: string)
    | SetTags(tags: seq<string>)
    | SetHostName(ip: string, name: string)
    | SetHostTags(ip: string, tags: seq<string>)
    | SetForwardNote(ip: string, port: nat, note: string)
    | UpsertSubnet(cidr: string, fields: Patch)

  /** `select(.remote == …)`: the text of the remote against the text of the number. */
  function SetNote(f: Forward, port: nat, note: string): Forward {
    if f.remote == Some(Itoa(port)) then f.(note := Some(note)) else f
  }

  function SetNotes(fs: seq<Forward>, port: nat, note: string): seq<Forward> {
    seq(|fs|, j requires 0 <= j < |fs| => SetNote(fs[j], port, note))
  }

  /** What `.hosts[] | select(.ip == …)` assignments do to one host. */
  function EvalHost(e: Yq, h: Host): Host {
    match e
    case SetHostName(ip, name) => if Matches(h.ip, ip) then h.(name := Some(name)) else h
    case SetHostTags(ip, tags) => if Matches(h.ip, ip) then h.(tags := Some(tags)) else h
    case SetForwardNote(ip, port, note) =>
      if Matches(h.ip, ip) then h.(forwards := SetNotes(h.forwards, port, note)) else h
    case _ => h
  }

  function EvalHosts(e: Yq, hs: seq<Host>): seq<Host> {
    seq(|hs|, i requires 0 <= i < |hs| => EvalHost(e, hs[i]))
  }

  /** `map(select(.cidr == …)) | .[0]` */
  function FirstMatching(ss: seq<Subnet>, pattern: string): Option<Subnet> {
    if ss == [] then None
    else if Matches(ss[0].cidr, pattern) then Some(ss[0])
    else FirstMatching(ss[1..], pattern)
  }

  /** `map(select(.cidr != …))` */
  function NotMatching(ss: seq<Subnet>, pattern: string): seq<Subnet> {
    if ss == [] then []
    else if Matches(ss[0].cidr, pattern) then NotMatching(ss[1..], pattern)
    else [ss[0]] + NotMatching(ss[1..], pattern)
  }

  /** `$cur * $new`, where an absent `$cur` is `{}`: the new fields win. */
  function Merged(cur: Option<Subnet>, c: string, p: Patch): Subnet {
    var base := if cur.Some? then cur.value else Subnet(c, None, None, map[]);
    Subnet(c, if p.note.Some? then p.note else base.title, if p.tags.Some? then p.tags else base.tags, base.rest)
  }

  function Eval(e: Yq, d: Document): Document {
    match e
    case SetName(name) => d.(name := Some(name))
    case SetTags(tags) => d.(tags := Some(tags))
    case UpsertSubnet(c, p) =>
      d.(subnets := NotMatching(d.subnets, c) + [Merged(FirstMatching(d.subnets, c), c, p)])
    case _ => d.(hosts := EvalHosts(e, d.hosts))
  }

  /** One yq call after the other. */
  function Run(es: seq<Yq>, d: Document): Document {
    if es == [] then d else Eval(es[|es| - 1], Run(es[..|es| - 1], d))
  }

  lemma {:induction false} RunAppend(a: seq<Yq>, b: seq<Yq>, d: Document)
    ensures Run(a + b, d) == Run(b, Run(a, d))
  {
    if b == [] {
      assert a + b == a;
    } else {
      assert (a + b)[..|a + b| - 1] == a + b[..|b| - 1];
      RunAppend(a, b[..|b| - 1], d);
    }
  }

  lemma RunOne(e: Yq, d: Document)
    ensures Run([e], d) == Eval(e, d)
  {
    assert [e][..0] == [];
  }

  // ------------------------------------------------------------ applyEdits

  function PatchOf(edits: map<string, Patch>, k: string): Patch {
    if k in edits then edits[k] else Patch(None, None)
  }

  function NoteOf(notes: map<string, string>, k: string): string {
    if k in notes then notes[k] else ""
  }

  function TunnelCalls(e: Edit): seq<Yq> {
    (if e.name.Some? then [SetName(e.name.value)] else [])
    + (if e.tags.Some? then [SetTags(e.tags.value)] else [])
  }

  function HostCalls(ip: string, p: Patch): seq<Yq> {
    (if p.note.Some? then [SetHostName(ip, p.note.value)] else [])
    + (if p.tags.Some? then [SetHostTags(ip, p.tags.value)] else [])
  }

  function ForwardCall(key: string, note: string): Yq {
    SetForwardNote(KeyIp(key), KeyPort(key), note)
  }

  function SubnetCalls(c: string, p: Patch): seq<Yq> {
    (if p.note.Some? then [UpsertSubnet(c, Patch(p.note, None))] else [])
    + (if p.tags.Some? then [UpsertSubnet(c, Patch(None, p.tags))] else [])
  }

  /** The calls for the three maps, each walked in a given order. */
  function HostsProgram(edits: map<string, Patch>, order: seq<string>): seq<Yq> {
    if order == [] then []
    else
      var ip := order[|order| - 1];
      HostsProgram(edits, order[..|order| - 1]) + HostCalls(ip, PatchOf(edits, ip))
  }

  function ForwardsProgram(notes: map<string, string>, order: seq<string>): seq<Yq> {
    if order == [] then []
    else
      var k := order[|order| - 1];
      ForwardsProgram(notes, order[..|order| - 1]) + [ForwardCall(k, NoteOf(notes, k))]
  }

  function SubnetsProgram(edits: map<string, Patch>, order: seq<string>): seq<Yq> {
    if order == [] then []
    else
      var c := order[|order| - 1];
      SubnetsProgram(edits, order[..|order| - 1]) + SubnetCalls(c, PatchOf(edits, c))
  }

  /** The orders in which the three maps of a batch are walked. */
  datatype Walk = Walk(hosts: seq<string>, forwards: seq<string>, subnets: seq<string>)

  /** Everything `applyEdits` does to `d` on this walk. */
  function Applied(d: Document, e: Edit, w: Walk): Document {
    Run(SubnetsProgram(e.subnets, w.subnets),
        Run(ForwardsProgram(e.forwards, w.forwards),
            Run(HostsProgram(e.hosts, w.hosts),
                Run(TunnelCalls(e), d))))
  }

  lemma HostsProgramSnoc(edits: map<string, Patch>, order: seq<string>, ip: string)
    ensures HostsProgram(edits, order + [ip]) == HostsProgram(edits, order) + HostCalls(ip, PatchOf(edits, ip))
  {
    var next := order + [ip];
    assert next[..|next| - 1] == order && next[|next| - 1] == ip;
  }

  lemma HostsStep(edits: map<string, Patch>, order: seq<string>, ip: string, d: Document)
    ensures Run(HostsProgram(edits, order + [ip]), d)
         == Run(HostCalls(ip, PatchOf(edits, ip)), Run(HostsProgram(edits, order), d))
  {
    HostsProgramSnoc(edits, order, ip);
    RunAppend(HostsProgram(edits, order), HostCalls(ip, PatchOf(edits, ip)), d);
  }

  lemma ForwardsProgramSnoc(notes: map<string, string>, order: seq<string>, k: string)
    ensures ForwardsProgram(notes, order + [k]) == ForwardsProgram(notes, order) + [ForwardCall(k, NoteOf(notes, k))]
  {
    var next := order + [k];
    assert next[..|next| - 1] == order && next[|next| - 1] == k;
  }

  lemma ForwardsStep(notes: map<string, string>, order: seq<string>, k: string, d: Document)
    ensures Run(ForwardsProgram(notes, order + [k]), d)
         == Run([ForwardCall(k, NoteOf(notes, k))], Run(ForwardsProgram(notes, order), d))
  {
    ForwardsProgramSnoc(notes, order, k);
    RunAppend(ForwardsProgram(notes, order), [ForwardCall(k, NoteOf(notes, k))], d);
  }

  lemma SubnetsProgramSnoc(edits: map<string, Patch>, order: seq<string>, c: string)
    ensures SubnetsProgram(edits, order + [c]) == SubnetsProgram(edits, order) + SubnetCalls(c, PatchOf(edits, c))
  {
    var next := order + [c];
    assert next[..|next| - 1] == order && next[|next| - 1] == c;
  }

  lemma SubnetsStep(edits: map<string, Patch>, order: seq<string>, c: string, d: Document)
    ensures Run(SubnetsProgram(edits, order + [c]), d)
         == Run(SubnetCalls(c, PatchOf(edits, c)), Run(SubnetsProgram(edits, order), d))
  {
    SubnetsProgramSnoc(edits, order, c);
    RunAppend(SubnetsProgram(edits, order), SubnetCalls(c, PatchOf(edits, c)), d);
  }

  predicate NoDup(order: seq<string>) {
    forall i, j :: 0 <= i < j < |order| ==> order[i] != order[j]
  }

  /** One possible walk over a map with these keys. */
  ghost predicate Enumerates(order: seq<string>, keys: set<string>) {
    NoDup(order) && forall k :: k in order <==> k in keys
  }

  ghost predicate Walks(w: Walk, e: Edit) {
    && Enumerates(w.hosts, e.hosts.Keys)
    && Enumerates(w.forwards, e.forwards.Keys)
    && Enumerates(w.subnets, e.subnets.Keys)
  }
}
