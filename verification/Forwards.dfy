/** The forward pipeline: the CLI flattens the config into tokens, parses and numbers them
    and prints FORWARDS; the entrypoint parses that string into relays; the daemon flattens
    the same config with its own code and assumes the CLI's numbering. */
module Forwards {
  import opened Text

  /** One `forwards[]` item: `None` is a missing or null field, scalars keep their text. */
  datatype ForwardConf = ForwardConf(remote: Option<string>, local: Option<string>)

  datatype HostConf = HostConf(ip: string, forwards: seq<ForwardConf>)

  // ------------------------------------------------------------ CLI: flattening

  function LocalText(f: ForwardConf): string {
    if f.local.Some? then f.local.value else "any"
  }

  function Token(local: string, ip: string, remote: string): string {
    local + [':'] + (ip + [':'] + remote)
  }

  function HostTokens(ip: string, forwards: seq<ForwardConf>): seq<string> {
    if forwards == [] then []
    else
      (if forwards[0].remote.None? then [] else [Token(LocalText(forwards[0]), ip, forwards[0].remote.value)])
      + HostTokens(ip, forwards[1..])
  }

  /** The lines printed by the yq program of `yaml_load`. */
  function CliTokens(hosts: seq<HostConf>): seq<string> {
    if hosts == [] then []
    else HostTokens(hosts[0].ip, hosts[0].forwards) + CliTokens(hosts[1..])
  }

  /** The FORWARDS global `yaml_load` leaves behind. */
  function CliForwards(hosts: seq<HostConf>): string {
    DropLeading(Prefixed(CliTokens(hosts), ' '), ' ')
  }

  method YamlLoadForwards(hosts: seq<HostConf>) returns (forwards: string)
    ensures forwards == CliForwards(hosts)
  {
    var lines := CliTokens(hosts);
    forwards := "";
    for k := 0 to |lines|
      invariant forwards == Prefixed(lines[..k], ' ')
    {
      TokensNonEmpty(hosts, k);
      if lines[k] != "" {
        PrefixedSnoc(lines[..k], lines[k], ' ');
        assert lines[..k] + [lines[k]] == lines[..k + 1];
        forwards := forwards + [' '] + lines[k];
      }
    }
    assert lines[..|lines|] == lines;
    if forwards != "" && forwards[0] == ' ' {
      forwards := forwards[1..];
    }
  }

  lemma {:induction false} HostTokensNonEmpty(ip: string, forwards: seq<ForwardConf>, k: nat)
    requires k < |HostTokens(ip, forwards)|
    ensures HostTokens(ip, forwards)[k] != ""
  {
    var skipped := if forwards[0].remote.None? then 0 else 1;
    if k >= skipped {
      HostTokensNonEmpty(ip, forwards[1..], k - skipped);
    }
  }

  lemma {:induction false} TokensNonEmpty(hosts: seq<HostConf>, k: nat)
    requires k < |CliTokens(hosts)|
    ensures CliTokens(hosts)[k] != ""
  {
    var first := HostTokens(hosts[0].ip, hosts[0].forwards);
    if k < |first| {
      HostTokensNonEmpty(hosts[0].ip, hosts[0].forwards, k);
    } else {
      TokensNonEmpty(hosts[1..], k - |first|);
    }
  }

  // ------------------------------------------------------------ CLI: parse_forward

  datatype Parsed = Parsed(bind: string, port: string, host: string, rport: string)

  predicate ShortNumeral(s: string) { Numeral(s) && |s| <= 3 }

  predicate DottedQuad(s: string, a: string, b: string, c: string, d: string) {
    && s == a + "." + b + "." + c + "." + d
    && ShortNumeral(a) && ShortNumeral(b) && ShortNumeral(c) && ShortNumeral(d)
  }

  lemma OctetHead(s: string, dots: nat) returns (head: string, rest: string)
    requires dots > 0 && Octets(s, dots)
    ensures s == head + "." + rest && ShortNumeral(head) && Octets(rest, dots - 1)
  {
    FirstIndexIs(s, '.');
    var k := FirstIndex(s, '.');
    head, rest := BeforeFirst(s, '.'), AfterFirst(s, '.');
    assert s == s[..k] + "." + s[k + 1..];
  }

  lemma OctetsOf(head: string, rest: string, dots: nat)
    requires ShortNumeral(head) && (dots > 0 ==> Octets(rest, dots - 1))
    ensures Octets(if dots == 0 then head else head + "." + rest, dots)
  {
    assert '.' !in head by {
      assert forall i :: 0 <= i < |head| ==> Digit(head[i]);
    }
    if dots == 0 {
      NoCut(head, '.');
    } else {
      CutAtFirst(head, '.', rest);
      assert |head| < |head + "." + rest|;
    }
  }

  /** `^[0-9]{1,3}(\.[0-9]{1,3}){3}$` */
  predicate Ipv4Shape(s: string) {
    Octets(s, 3)
  }

  predicate Octets(s: string, dots: nat) {
    var head := BeforeFirst(s, '.');
    && Numeral(head) && |head| <= 3
    && (if dots == 0 then head == s else head != s && Octets(AfterFirst(s, '.'), dots - 1))
  }

  /** The checks of `parse_forward` once the item is cut into its three fields. */
  function CheckForward(lspec: string, host: string, rport: string, publishBind: string): Result<Parsed> {
    if host == "" || !Numeral(rport) then Err("invalid forward")
    else if !HostName(host) then Err("invalid forward remote host")
    else if lspec == "any" then Ok(Parsed(publishBind, "", host, rport))
    else if ':' in lspec then
      var bind := BeforeLast(lspec, ':');
      var port := if AfterLast(lspec, ':') == "any" then "" else AfterLast(lspec, ':');
      if !Ipv4Shape(bind) then Err("invalid forward bind")
      else if port != "" && !Numeral(port) then Err("invalid forward local part")
      else Ok(Parsed(bind, port, host, rport))
    else if lspec != "" && !Numeral(lspec) then Err("invalid forward local part")
    else Ok(Parsed(publishBind, lspec, host, rport))
  }

  function ParseForward(word: string, publishBind: string): Result<Parsed> {
    var item := BeforeLast(word, '@');
    var rport := AfterLast(item, ':');
    var tmp := BeforeLast(item, ':');
    var host := AfterLast(tmp, ':');
    var lspec := BeforeLast(tmp, ':');
    if lspec == tmp then Err("invalid forward") else CheckForward(lspec, host, rport, publishBind)
  }

  // ------------------------------------------------------------ CLI: numbering in up_one

  const INTERNAL_BASE: nat := 10000

  /** A `-p BIND:PORT:CONTAINER` argument. */
  datatype Publish = Publish(bind: string, port: string, container: string)

  datatype UpPlan = UpPlan(publish: seq<Publish>, forwards: string)

  function Internal(i: nat): string { Itoa(INTERNAL_BASE + 1 + i) }

  /** The local port of the i-th publication; `--restart` fixes a free one up front. */
  function PublishPort(p: Parsed, i: nat, restart: bool, free: nat -> nat): string {
    if p.port == "" && restart then Itoa(free(i)) else p.port
  }

  function PublishArg(p: Parsed, i: nat, restart: bool, free: nat -> nat): Publish {
    Publish(p.bind, PublishPort(p, i, restart, free), Internal(i))
  }

  function SpecItem(p: Parsed, i: nat): string {
    Internal(i) + ['|'] + (p.host + ['|'] + p.rport)
  }

  predicate AllParse(words: seq<string>, publishBind: string) {
    forall i :: 0 <= i < |words| ==> ParseForward(words[i], publishBind).Ok?
  }

  /** `ps` is what `parse_forward` makes of the words, one by one. */
  predicate ParseList(words: seq<string>, ps: seq<Parsed>, publishBind: string) {
    && |ps| == |words|
    && forall k :: 0 <= k < |ps| ==> ParseForward(words[k], publishBind) == Ok(ps[k])
  }

  function SpecItems(ps: seq<Parsed>): seq<string> {
    seq(|ps|, i requires 0 <= i < |ps| => SpecItem(ps[i], i))
  }

  function Publications(ps: seq<Parsed>, restart: bool, free: nat -> nat): seq<Publish> {
    seq(|ps|, i requires 0 <= i < |ps| => PublishArg(ps[i], i, restart, free))
  }

  function PlanOf(ps: seq<Parsed>, restart: bool, free: nat -> nat): UpPlan {
    UpPlan(Publications(ps, restart, free), Terminated(SpecItems(ps), ';'))
  }

  /** The numbering loop of `up_one`: it dies on the first token that does not parse. */
  method UpForwards(forwards: string, publishBind: string, restart: bool, free: nat -> nat)
    returns (r: Result<UpPlan>, ghost ps: seq<Parsed>)
    ensures r.Ok? <==> AllParse(Pieces(forwards, BLANKS), publishBind)
    ensures r.Ok? ==> ParseList(Pieces(forwards, BLANKS), ps, publishBind) && r.value == PlanOf(ps, restart, free)
  {
    var words := Pieces(forwards, BLANKS);
    var publish: seq<Publish>, spec := [], "";
    ghost var items: seq<string> := [];
    ps := [];
    var i := 0;
    while i < |words|
      invariant 0 <= i <= |words|
      invariant ParseList(words[..i], ps, publishBind)
      invariant PlanPrefix(ps, publish, items, restart, free)
      invariant spec == Terminated(items, ';')
    {
      var parsed := ParseForward(words[i], publishBind);
      if parsed.Err? {
        return Err(parsed.message), ps;
      }
      var p := parsed.value;
      var arg, item := PublishArg(p, i, restart, free), SpecItem(p, i);
      ParseListSnoc(words, i, ps, p, publishBind);
      PlanPrefixSnoc(ps, publish, items, p, restart, free);
      TerminatedSnoc(items, item, ';');
      ps, items := ps + [p], items + [item];
      publish := publish + [arg];
      spec := spec + item + [';'];
      i := i + 1;
    }
    assert words[..i] == words;
    ParseListParses(words, ps, publishBind);
    PlanComplete(ps, publish, items, restart, free);
    r := Ok(UpPlan(publish, spec));
  }

  predicate PlanPrefix(ps: seq<Parsed>, publish: seq<Publish>, items: seq<string>, restart: bool, free: nat -> nat) {
    && |publish| == |items| == |ps|
    && forall k :: 0 <= k < |ps| ==> publish[k] == PublishArg(ps[k], k, restart, free) && items[k] == SpecItem(ps[k], k)
  }

  lemma ParseListSnoc(words: seq<string>, i: nat, ps: seq<Parsed>, p: Parsed, publishBind: string)
    requires i < |words| && ParseList(words[..i], ps, publishBind) && ParseForward(words[i], publishBind) == Ok(p)
    ensures ParseList(words[..i + 1], ps + [p], publishBind)
  {
    assert words[..i + 1] == words[..i] + [words[i]];
  }

  lemma PlanPrefixSnoc(ps: seq<Parsed>, publish: seq<Publish>, items: seq<string>, p: Parsed,
                       restart: bool, free: nat -> nat)
    requires PlanPrefix(ps, publish, items, restart, free)
    ensures PlanPrefix(ps + [p], publish + [PublishArg(p, |ps|, restart, free)], items + [SpecItem(p, |ps|)],
                       restart, free)
  {
  }

  lemma PlanComplete(ps: seq<Parsed>, publish: seq<Publish>, items: seq<string>, restart: bool, free: nat -> nat)
    requires PlanPrefix(ps, publish, items, restart, free)
    ensures UpPlan(publish, Terminated(items, ';')) == PlanOf(ps, restart, free)
  {
    assert publish == Publications(ps, restart, free);
    assert items == SpecItems(ps);
  }

  // ------------------------------------------------------------ entrypoint

  datatype Relay = Relay(lport: string, host: string, port: string)

  function Field(s: string, sep: char): (string, string) {
    if sep in s then (BeforeFirst(s, sep), AfterFirst(s, sep)) else (s, "")
  }

  /** `IFS='|' read -r lport rhost rport` */
  function ReadRelay(spec: string): Relay {
    var (lport, rest) := Field(spec, '|');
    var (host, port) := Field(rest, '|');
    Relay(lport, host, port)
  }

  /** The relays of a FORWARDS value; `read` stops at the end of the first line. */
  function Relays(env: string): seq<Relay> {
    var specs := Pieces(BeforeFirst(env, '\n'), {';'});
    seq(|specs|, i requires 0 <= i < |specs| => ReadRelay(specs[i]))
  }

  /** The loop of `start_socat_forwards`, and of `run_ssh` for the `-L` arguments. */
  method StartForwards(env: string) returns (relays: seq<Relay>)
    ensures relays == Relays(env)
  {
    relays := [];
    var specs := Pieces(BeforeFirst(env, '\n'), {';'});
    for k := 0 to |specs|
      invariant relays == Relays(env)[..k]
    {
      relays := relays + [ReadRelay(specs[k])];
    }
  }

  // ------------------------------------------------------------ daemon

  datatype Forward = Forward(local: string, remote: string)

  /** The characters `strings.TrimSpace` removes. */
  predicate Space(c: char) {
    var u := c as int;
    || 0x09 <= u <= 0x0d || u == 0x20 || u == 0x85 || u == 0xa0 || u == 0x1680
    || 0x2000 <= u <= 0x200a || u == 0x2028 || u == 0x2029 || u == 0x202f || u == 0x205f || u == 0x3000
  }

  function TrimLeft(s: string): string {
    if s != "" && Space(s[0]) then TrimLeft(s[1..]) else s
  }

  function TrimRight(s: string): string {
    if s != "" && Space(s[|s| - 1]) then TrimRight(s[..|s| - 1]) else s
  }

  function TrimSpace(s: string): string { TrimRight(TrimLeft(s)) }

  function ScalarText(v: Option<string>): string {
    if v.Some? then v.value else ""
  }

  function LocalSpec(lspec: string, publishBind: string): string {
    if lspec == "any" || lspec == "" then publishBind + ":auto"
    else if ':' in lspec then lspec
    else publishBind + ":" + lspec
  }

  function HostForwards(ip: string, forwards: seq<ForwardConf>, publishBind: string): seq<Forward> {
    if forwards == [] then []
    else
      ForwardOf(ip, forwards[0], publishBind) + HostForwards(ip, forwards[1..], publishBind)
  }

  function HostPart(h: HostConf, publishBind: string): seq<Forward> {
    var ip := TrimSpace(h.ip);
    if ip == "" then [] else HostForwards(ip, h.forwards, publishBind)
  }

  function DaemonForwards(hosts: seq<HostConf>, publishBind: string): seq<Forward> {
    if hosts == [] then [] else HostPart(hosts[0], publishBind) + DaemonForwards(hosts[1..], publishBind)
  }

  /** The forward of one entry; an entry without a remote has none. */
  function ForwardOf(ip: string, f: ForwardConf, publishBind: string): seq<Forward> {
    if ScalarText(f.remote) == "" then []
    else [Forward(LocalSpec(ScalarText(f.local), publishBind), ip + ":" + ScalarText(f.remote))]
  }

  lemma {:induction false} HostSnoc(ip: string, items: seq<ForwardConf>, f: ForwardConf, publishBind: string)
    ensures HostForwards(ip, items + [f], publishBind)
         == HostForwards(ip, items, publishBind) + ForwardOf(ip, f, publishBind)
  {
    if items == [] {
      assert HostForwards(ip, [f], publishBind) == ForwardOf(ip, f, publishBind) + HostForwards(ip, [], publishBind);
    } else {
      assert (items + [f])[1..] == items[1..] + [f];
      HostSnoc(ip, items[1..], f, publishBind);
    }
  }

  lemma HostPrefix(ip: string, items: seq<ForwardConf>, j: nat, publishBind: string)
    requires j < |items|
    ensures HostForwards(ip, items[..j + 1], publishBind)
         == HostForwards(ip, items[..j], publishBind) + ForwardOf(ip, items[j], publishBind)
  {
    var front, f := items[..j], items[j];
    assert items[..j + 1] == front + [f];
    HostSnoc(ip, front, f, publishBind);
  }

  method FlattenHost(ip: string, items: seq<ForwardConf>, publishBind: string) returns (forwards: seq<Forward>)
    ensures forwards == HostForwards(ip, items, publishBind)
  {
    forwards := [];
    for j := 0 to |items|
      invariant forwards == HostForwards(ip, items[..j], publishBind)
    {
      HostPrefix(ip, items, j, publishBind);
      var f := items[j];
      if ScalarText(f.remote) == "" {
        continue;
      }
      forwards := forwards + [Forward(LocalSpec(ScalarText(f.local), publishBind), ip + ":" + ScalarText(f.remote))];
    }
    assert items[..|items|] == items;
  }

  lemma {:induction false} DaemonSnoc(hosts: seq<HostConf>, h: HostConf, publishBind: string)
    ensures DaemonForwards(hosts + [h], publishBind) == DaemonForwards(hosts, publishBind) + HostPart(h, publishBind)
  {
    if hosts == [] {
      assert DaemonForwards([h], publishBind) == HostPart(h, publishBind) + DaemonForwards([], publishBind);
    } else {
      assert (hosts + [h])[1..] == hosts[1..] + [h];
      DaemonSnoc(hosts[1..], h, publishBind);
    }
  }

  lemma DaemonPrefix(hosts: seq<HostConf>, k: nat, publishBind: string)
    requires k < |hosts|
    ensures DaemonForwards(hosts[..k + 1], publishBind)
         == DaemonForwards(hosts[..k], publishBind) + HostPart(hosts[k], publishBind)
  {
    var front, h := hosts[..k], hosts[k];
    assert hosts[..k + 1] == front + [h];
    DaemonSnoc(front, h, publishBind);
  }

  /** The nested loops of `tunnelFromConf`. */
  method FlattenConf(hosts: seq<HostConf>, publishBind: string) returns (forwards: seq<Forward>)
    ensures forwards == DaemonForwards(hosts, publishBind)
  {
    forwards := [];
    for k := 0 to |hosts|
      invariant forwards == DaemonForwards(hosts[..k], publishBind)
    {
      DaemonPrefix(hosts, k, publishBind);
      var ip := TrimSpace(hosts[k].ip);
      if ip == "" {
        continue;
      }
      var mine := FlattenHost(ip, hosts[k].forwards, publishBind);
      forwards := forwards + mine;
    }
    assert hosts[..|hosts|] == hosts;
  }

  /** What `State` shows: a published address replaces the configured local side. */
  function Shown(forwards: seq<Forward>, pub: map<string, string>): (v: seq<Forward>)
    ensures |v| == |forwards|
  {
    seq(|forwards|, i requires 0 <= i < |forwards| =>
      if Internal(i) in pub && pub[Internal(i)] != "" then forwards[i].(local := pub[Internal(i)]) else forwards[i])
  }

  /** The port-resolution loop of `State`, overwriting the slice it was handed. */
  method ResolvePublished(forwards: array<Forward>, pub: map<string, string>)
    modifies forwards
    ensures forwards[..] == Shown(old(forwards[..]), pub)
  {
    for i := 0 to forwards.Length
      invariant forall k :: 0 <= k < i ==> forwards[k] == Shown(old(forwards[..]), pub)[k]
      invariant forall k :: i <= k < forwards.Length ==> forwards[k] == old(forwards[..])[k]
    {
      if Internal(i) in pub && pub[Internal(i)] != "" {
        forwards[i] := forwards[i].(local := pub[Internal(i)]);
      }
    }
  }

  // ------------------------------------------------------------ well-formed configs

  /** No blank, and none of the delimiters `:` and `@`. */
  predicate PlainField(s: string) {
    forall i :: 0 <= i < |s| ==> !Space(s[i]) && s[i] != ':' && s[i] != '@'
  }

  predicate LocalField(s: string) {
    forall i :: 0 <= i < |s| ==> !Space(s[i]) && s[i] != '@'
  }

  predicate WellFormedForward(f: ForwardConf) {
    && (f.remote.Some? ==> PlainField(f.remote.value))
    && (f.local.Some? ==> LocalField(f.local.value))
  }

  predicate WellFormedForwards(forwards: seq<ForwardConf>) {
    forall k :: 0 <= k < |forwards| ==> WellFormedForward(forwards[k])
  }

  predicate WellFormed(hosts: seq<HostConf>) {
    forall k :: 0 <= k < |hosts| ==> PlainField(hosts[k].ip) && WellFormedForwards(hosts[k].forwards)
  }

  // ------------------------------------------------------------ parse inverts print

  /** `parse_forward` takes a printed token apart into exactly the fields it was printed from. */
  lemma ParseInvertsToken(local: string, ip: string, remote: string, publishBind: string)
    requires LocalField(local) && PlainField(ip) && PlainField(remote)
    ensures ParseForward(Token(local, ip, remote), publishBind) == CheckForward(local, ip, remote, publishBind)
  {
    var t := Token(local, ip, remote);
    NoCut(t, '@');
    var tmp := local + [':'] + ip;
    assert t == tmp + [':'] + remote;
    CutAtLast(tmp, ':', remote);
    CutAtLast(local, ':', ip);
  }

  lemma TokenIsWord(local: string, ip: string, remote: string)
    requires LocalField(local) && PlainField(ip) && PlainField(remote)
    ensures Token(local, ip, remote) != "" && Free(Token(local, ip, remote), BLANKS)
  {
    assert forall c :: c in BLANKS ==> Space(c);
  }

  lemma {:induction false} HostTokensAreWords(ip: string, forwards: seq<ForwardConf>)
    requires PlainField(ip) && WellFormedForwards(forwards)
    ensures AllPieces(HostTokens(ip, forwards), BLANKS)
  {
    if forwards != [] {
      HostTokensAreWords(ip, forwards[1..]);
      if forwards[0].remote.Some? {
        assert WellFormedForward(forwards[0]);
        TokenIsWord(LocalText(forwards[0]), ip, forwards[0].remote.value);
      }
    }
  }

  lemma {:induction false} TokensAreWords(hosts: seq<HostConf>)
    requires WellFormed(hosts)
    ensures AllPieces(CliTokens(hosts), BLANKS)
  {
    if hosts != [] {
      HostTokensAreWords(hosts[0].ip, hosts[0].forwards);
      TokensAreWords(hosts[1..]);
    }
  }

  /** Word splitting gives `up_one` back exactly the tokens yq printed. */
  lemma WordsOfForwards(hosts: seq<HostConf>)
    requires WellFormed(hosts)
    ensures Pieces(CliForwards(hosts), BLANKS) == CliTokens(hosts)
  {
    TokensAreWords(hosts);
    PiecesOfPrefixed(CliTokens(hosts), ' ', BLANKS);
  }

  // ------------------------------------------------------------ which configs are accepted

  predicate LocalAccepted(lspec: string) {
    || lspec == "any" || lspec == "" || Numeral(lspec)
    || (':' in lspec && Ipv4Shape(BeforeLast(lspec, ':'))
        && (AfterLast(lspec, ':') in ["", "any"] || Numeral(AfterLast(lspec, ':'))))
  }

  predicate ForwardAccepted(ip: string, f: ForwardConf) {
    f.remote.Some? ==> HostName(ip) && Numeral(f.remote.value) && LocalAccepted(LocalText(f))
  }

  predicate AllAccepted(ip: string, forwards: seq<ForwardConf>) {
    forall k :: 0 <= k < |forwards| ==> ForwardAccepted(ip, forwards[k])
  }

  lemma AllAcceptedCons(ip: string, forwards: seq<ForwardConf>)
    requires forwards != []
    ensures AllAccepted(ip, forwards) <==> ForwardAccepted(ip, forwards[0]) && AllAccepted(ip, forwards[1..])
  {
    assert forall k :: 1 <= k < |forwards| ==> forwards[k] == forwards[1..][k - 1];
  }

  lemma CheckAcceptsIff(lspec: string, host: string, rport: string, publishBind: string)
    ensures CheckForward(lspec, host, rport, publishBind).Ok?
       <==> HostName(host) && Numeral(rport) && LocalAccepted(lspec)
  {
    assert Numeral(lspec) ==> forall c :: c in lspec ==> Digit(c);
  }

  lemma {:induction false} HostAcceptsIff(ip: string, forwards: seq<ForwardConf>, publishBind: string)
    requires PlainField(ip) && WellFormedForwards(forwards)
    ensures AllParse(HostTokens(ip, forwards), publishBind) <==> AllAccepted(ip, forwards)
  {
    if forwards != [] {
      var f, rest := forwards[0], HostTokens(ip, forwards[1..]);
      HostAcceptsIff(ip, forwards[1..], publishBind);
      var tokens := HostTokens(ip, forwards);
      assert WellFormedForward(f);
      AllAcceptedCons(ip, forwards);
      if f.remote.Some? {
        ParseInvertsToken(LocalText(f), ip, f.remote.value, publishBind);
        CheckAcceptsIff(LocalText(f), ip, f.remote.value, publishBind);
        assert tokens[1..] == rest;
        AllParseCons(tokens, publishBind);
      } else {
        assert tokens == rest;
      }
    }
  }

  lemma AllParseCons(words: seq<string>, publishBind: string)
    requires words != []
    ensures AllParse(words, publishBind)
       <==> ParseForward(words[0], publishBind).Ok? && AllParse(words[1..], publishBind)
  {
    assert forall i :: 1 <= i < |words| ==> words[i] == words[1..][i - 1];
  }

  lemma AllParseConcat(a: seq<string>, b: seq<string>, publishBind: string)
    ensures AllParse(a + b, publishBind) <==> AllParse(a, publishBind) && AllParse(b, publishBind)
  {
    var s := a + b;
    assert forall i :: 0 <= i < |a| ==> a[i] == s[i];
    assert forall i :: 0 <= i < |b| ==> b[i] == s[|a| + i];
    assert forall i :: |a| <= i < |s| ==> s[i] == b[i - |a|];
  }

  predicate HostsAccepted(hosts: seq<HostConf>) {
    forall k :: 0 <= k < |hosts| ==> AllAccepted(hosts[k].ip, hosts[k].forwards)
  }

  lemma HostsAcceptedCons(hosts: seq<HostConf>)
    requires hosts != []
    ensures HostsAccepted(hosts) <==> AllAccepted(hosts[0].ip, hosts[0].forwards) && HostsAccepted(hosts[1..])
  {
    assert forall k :: 1 <= k < |hosts| ==> hosts[k] == hosts[1..][k - 1];
  }

  lemma {:induction false} TokensAcceptedIff(hosts: seq<HostConf>, publishBind: string)
    requires WellFormed(hosts)
    ensures AllParse(CliTokens(hosts), publishBind) <==> HostsAccepted(hosts)
    decreases |hosts|
  {
    if hosts != [] {
      var h := hosts[0];
      HostAcceptsIff(h.ip, h.forwards, publishBind);
      TokensAcceptedIff(hosts[1..], publishBind);
      AllParseConcat(HostTokens(h.ip, h.forwards), CliTokens(hosts[1..]), publishBind);
      HostsAcceptedCons(hosts);
    }
  }

  /** `up_one` accepts a well-formed config exactly when every forward with a remote has an
      IP/DNS host, a numeric remote port and a PORT, any or IPV4:PORT local side. */
  lemma UpAcceptsIff(hosts: seq<HostConf>, publishBind: string)
    requires WellFormed(hosts)
    ensures AllParse(Pieces(CliForwards(hosts), BLANKS), publishBind)
       <==> forall k :: 0 <= k < |hosts| ==> AllAccepted(hosts[k].ip, hosts[k].forwards)
  {
    WordsOfForwards(hosts);
    TokensAcceptedIff(hosts, publishBind);
  }

  // ------------------------------------------------------------ the two flattenings agree

  /** The daemon's forward describes what the CLI parsed from its token. */
  predicate Describes(f: Forward, p: Parsed) {
    && f.remote == p.host + ":" + p.rport
    && (p.port != "" ==> f.local == p.bind + ":" + p.port)
  }

  predicate Agree(ps: seq<Parsed>, forwards: seq<Forward>) {
    && |ps| == |forwards|
    && forall i :: 0 <= i < |ps| ==> Describes(forwards[i], ps[i])
  }

  lemma ParseListSplit(a: seq<string>, b: seq<string>, ps: seq<Parsed>, publishBind: string)
    requires ParseList(a + b, ps, publishBind)
    ensures ParseList(a, ps[..|a|], publishBind) && ParseList(b, ps[|a|..], publishBind)
  {
    assert forall k :: 0 <= k < |a| ==> a[k] == (a + b)[k];
    assert forall k :: 0 <= k < |b| ==> b[k] == (a + b)[|a| + k];
  }

  lemma ParseListParses(words: seq<string>, ps: seq<Parsed>, publishBind: string)
    requires ParseList(words, ps, publishBind)
    ensures AllParse(words, publishBind)
  {
  }

  lemma LocalDescribed(f: ForwardConf, ip: string, publishBind: string)
    requires f.remote.Some? && CheckForward(LocalText(f), ip, f.remote.value, publishBind).Ok?
    ensures Describes(Forward(LocalSpec(ScalarText(f.local), publishBind), ip + ":" + f.remote.value),
                      CheckForward(LocalText(f), ip, f.remote.value, publishBind).value)
  {
    var lspec := LocalText(f);
    if ':' in lspec {
      LastCut(lspec, ':');
    }
  }

  lemma TokenDescribed(f: ForwardConf, ip: string, p: Parsed, publishBind: string)
    requires f.remote.Some? && CheckForward(LocalText(f), ip, f.remote.value, publishBind) == Ok(p)
    ensures f.remote.value != ""
    ensures Describes(Forward(LocalSpec(ScalarText(f.local), publishBind), ip + ":" + f.remote.value), p)
  {
    CheckKeepsHost(LocalText(f), ip, f.remote.value, publishBind);
    LocalDescribed(f, ip, publishBind);
  }

  lemma LocalTextIsField(f: ForwardConf)
    requires WellFormedForward(f)
    ensures LocalField(LocalText(f))
  {
  }

  /** The head token and the daemon's head forward, when the entry has a remote. */
  lemma HeadAgrees(ip: string, f: ForwardConf, p: Parsed, publishBind: string)
    requires PlainField(ip) && WellFormedForward(f) && f.remote.Some?
    requires ParseForward(Token(LocalText(f), ip, f.remote.value), publishBind) == Ok(p)
    ensures ScalarText(f.remote) != ""
    ensures Describes(Forward(LocalSpec(ScalarText(f.local), publishBind), ip + ":" + ScalarText(f.remote)), p)
  {
    assert CheckForward(LocalText(f), ip, f.remote.value, publishBind) == Ok(p) by {
      LocalTextIsField(f);
      ParseInvertsToken(LocalText(f), ip, f.remote.value, publishBind);
    }
    TokenDescribed(f, ip, p, publishBind);
  }

  lemma AgreeCons(p: Parsed, ps: seq<Parsed>, f: Forward, fs: seq<Forward>)
    requires Describes(f, p) && Agree(ps, fs)
    ensures Agree([p] + ps, [f] + fs)
  {
  }

  lemma HeadTail<T>(s: seq<T>)
    requires s != []
    ensures s == [s[0]] + s[1..]
  {
  }

  lemma Shifted(word: string, rest: seq<string>, k: nat)
    requires k < |rest|
    ensures ([word] + rest)[k + 1] == rest[k]
  {
  }

  lemma ParseListHead(word: string, rest: seq<string>, ps: seq<Parsed>, publishBind: string)
    requires ParseList([word] + rest, ps, publishBind)
    ensures |ps| > 0
    ensures ParseForward(word, publishBind) == Ok(ps[0]) && ParseList(rest, ps[1..], publishBind)
  {
    assert ([word] + rest)[0] == word;
    forall k | 0 <= k < |rest|
      ensures ParseForward(rest[k], publishBind) == Ok(ps[1..][k])
    {
      Shifted(word, rest, k);
    }
  }

  /** Where the head entry has a remote, agreement of the tails is agreement of the wholes. */
  lemma FlattenHead(ip: string, forwards: seq<ForwardConf>, ps: seq<Parsed>, publishBind: string)
    requires forwards != [] && forwards[0].remote.Some? && PlainField(ip) && WellFormedForward(forwards[0])
    requires ParseList(HostTokens(ip, forwards), ps, publishBind)
    ensures |ps| > 0 && ParseList(HostTokens(ip, forwards[1..]), ps[1..], publishBind)
    ensures Agree(ps[1..], HostForwards(ip, forwards[1..], publishBind))
        ==> Agree(ps, HostForwards(ip, forwards, publishBind))
  {
    var f, rest := forwards[0], HostForwards(ip, forwards[1..], publishBind);
    ParseListHead(Token(LocalText(f), ip, f.remote.value), HostTokens(ip, forwards[1..]), ps, publishBind);
    HeadAgrees(ip, f, ps[0], publishBind);
    HeadTail(ps);
    if Agree(ps[1..], rest) {
      AgreeCons(ps[0], ps[1..],
                Forward(LocalSpec(ScalarText(f.local), publishBind), ip + ":" + ScalarText(f.remote)), rest);
    }
  }

  lemma {:induction false} HostFlattenAgree(ip: string, forwards: seq<ForwardConf>, ps: seq<Parsed>,
                                            publishBind: string)
    requires PlainField(ip) && WellFormedForwards(forwards)
    requires ParseList(HostTokens(ip, forwards), ps, publishBind)
    ensures Agree(ps, HostForwards(ip, forwards, publishBind))
  {
    if forwards != [] {
      if forwards[0].remote.Some? {
        FlattenHead(ip, forwards, ps, publishBind);
        HostFlattenAgree(ip, forwards[1..], ps[1..], publishBind);
      } else {
        assert HostTokens(ip, forwards) == HostTokens(ip, forwards[1..]);
        HostFlattenAgree(ip, forwards[1..], ps, publishBind);
      }
    }
  }

  lemma {:induction false} TrimKeeps(s: string)
    requires PlainField(s)
    ensures TrimSpace(s) == s
  {
  }

  lemma NoTokensWithoutHost(forwards: seq<ForwardConf>, publishBind: string)
    requires WellFormedForwards(forwards)
    requires AllParse(HostTokens("", forwards), publishBind)
    ensures HostTokens("", forwards) == []
  {
    HostAcceptsIff("", forwards, publishBind);
    AllSkipped("", forwards);
  }

  lemma {:induction false} AllSkipped(ip: string, forwards: seq<ForwardConf>)
    requires AllAccepted(ip, forwards) && !HostName(ip)
    ensures HostTokens(ip, forwards) == []
  {
    if forwards != [] {
      AllAcceptedCons(ip, forwards);
      AllSkipped(ip, forwards[1..]);
    }
  }

  /** The daemon's list and the CLI's list have the same length and describe, position by
      position, the same remote and (when a port is fixed) the same local address. */
  lemma {:induction false} FlattenAgree(hosts: seq<HostConf>, ps: seq<Parsed>, publishBind: string)
    requires WellFormed(hosts) && ParseList(CliTokens(hosts), ps, publishBind)
    ensures Agree(ps, DaemonForwards(hosts, publishBind))
    decreases |hosts|
  {
    if hosts != [] {
      var h := hosts[0];
      var tokens, rest := HostTokens(h.ip, h.forwards), CliTokens(hosts[1..]);
      ParseListSplit(tokens, rest, ps, publishBind);
      FlattenAgree(hosts[1..], ps[|tokens|..], publishBind);
      TrimKeeps(h.ip);
      if h.ip == "" {
        ParseListParses(tokens, ps[..|tokens|], publishBind);
        NoTokensWithoutHost(h.forwards, publishBind);
      } else {
        HostFlattenAgree(h.ip, h.forwards, ps[..|tokens|], publishBind);
      }
    }
  }

  // ------------------------------------------------------------ the printed spec parses back

  lemma FieldCut(a: string, sep: char, b: string)
    requires sep !in a
    ensures Field(a + [sep] + b, sep) == (a, b)
  {
    CutAtFirst(a, sep, b);
    assert (a + [sep] + b)[|a|] == sep;
  }

  lemma NumeralChars(s: string)
    requires Numeral(s)
    ensures '|' !in s && Free(s, {';', '\n'})
  {
  }

  lemma HostNameChars(s: string)
    requires HostName(s)
    ensures '|' !in s && Free(s, {';', '\n'})
  {
    assert forall i :: 0 <= i < |s| ==> HostChar(s[i]);
  }

  lemma InternalChars(i: nat)
    ensures '|' !in Internal(i) && Free(Internal(i), {';', '\n'})
  {
    ItoaNumeral(INTERNAL_BASE + 1 + i);
    NumeralChars(Internal(i));
  }

  lemma FreeAppend(a: string, b: string, bad: set<char>)
    requires Free(a, bad) && Free(b, bad)
    ensures Free(a + b, bad)
  {
  }

  lemma SpecItemIsPiece(p: Parsed, i: nat)
    requires HostName(p.host) && Numeral(p.rport)
    ensures SpecItem(p, i) != "" && Free(SpecItem(p, i), {';', '\n'})
  {
    InternalChars(i);
    HostNameChars(p.host);
    NumeralChars(p.rport);
    FreeAppend(p.host, ['|'], {';', '\n'});
    FreeAppend(p.host + ['|'], p.rport, {';', '\n'});
    FreeAppend(Internal(i), ['|'], {';', '\n'});
    FreeAppend(Internal(i) + ['|'], p.host + ['|'] + p.rport, {';', '\n'});
  }

  lemma ReadSpecItem(p: Parsed, i: nat)
    requires HostName(p.host) && Numeral(p.rport)
    ensures ReadRelay(SpecItem(p, i)) == Relay(Internal(i), p.host, p.rport)
    ensures SpecItem(p, i) != "" && Free(SpecItem(p, i), {';', '\n'})
  {
    SpecItemIsPiece(p, i);
    InternalChars(i);
    HostNameChars(p.host);
    FieldCut(Internal(i), '|', p.host + ['|'] + p.rport);
    FieldCut(p.host, '|', p.rport);
  }

  lemma {:induction false} TerminatedOneLine(pieces: seq<string>, sep: char, c: char)
    requires sep != c && forall i :: 0 <= i < |pieces| ==> c !in pieces[i]
    ensures c !in Terminated(pieces, sep)
  {
    if pieces != [] {
      TerminatedOneLine(pieces[1..], sep, c);
    }
  }

  /** The entrypoint reads back from the printed spec one relay per parsed forward. */
  lemma RelaysOfSpec(ps: seq<Parsed>)
    requires Checked(ps)
    ensures var relays := Relays(Terminated(SpecItems(ps), ';'));
            && |relays| == |ps|
            && forall i :: 0 <= i < |ps| ==> relays[i] == Relay(Internal(i), ps[i].host, ps[i].rport)
  {
    var items := SpecItems(ps);
    forall i | 0 <= i < |ps|
      ensures ReadRelay(items[i]) == Relay(Internal(i), ps[i].host, ps[i].rport)
      ensures items[i] != "" && Free(items[i], {';', '\n'})
    {
      ReadSpecItem(ps[i], i);
    }
    TerminatedOneLine(items, ';', '\n');
    NoCut(Terminated(items, ';'), '\n');
    assert AllPieces(items, {';'}) by {
      forall i | 0 <= i < |items| ensures items[i] != "" && Free(items[i], {';'}) {
        assert Free(items[i], {';', '\n'});
      }
    }
    PiecesOfTerminated(items, ';', {';'});
  }

  // ------------------------------------------------------------ end to end

  /** Docker publishes every `-p` argument: a fixed port as asked, an empty one as it likes. */
  predicate Publishes(args: seq<Publish>, pub: map<string, string>) {
    forall k :: 0 <= k < |args| ==>
      && args[k].container in pub && pub[args[k].container] != ""
      && (args[k].port != "" ==> pub[args[k].container] == args[k].bind + ":" + args[k].port)
  }

  predicate Checked(ps: seq<Parsed>) {
    forall i :: 0 <= i < |ps| ==> HostName(ps[i].host) && Numeral(ps[i].rport)
  }

  lemma ParsesAreChecked(words: seq<string>, ps: seq<Parsed>, publishBind: string)
    requires ParseList(words, ps, publishBind)
    ensures Checked(ps)
  {
    forall i | 0 <= i < |words| ensures HostName(ps[i].host) && Numeral(ps[i].rport) {
      ParseIsChecked(words[i], publishBind);
    }
  }

  lemma ParseIsChecked(word: string, publishBind: string)
    requires ParseForward(word, publishBind).Ok?
    ensures var p := ParseForward(word, publishBind).value; HostName(p.host) && Numeral(p.rport)
  {
    var item := BeforeLast(word, '@');
    var tmp := BeforeLast(item, ':');
    CheckKeepsHost(BeforeLast(tmp, ':'), AfterLast(tmp, ':'), AfterLast(item, ':'), publishBind);
  }

  lemma CheckKeepsHost(lspec: string, host: string, rport: string, publishBind: string)
    requires CheckForward(lspec, host, rport, publishBind).Ok?
    ensures var p := CheckForward(lspec, host, rport, publishBind).value;
            p.host == host && p.rport == rport && HostName(host) && Numeral(rport)
  {
  }

  /** The i-th shown forward, relay and publication belong together. */
  predicate Faithful(shown: Forward, down: Forward, relay: Relay, arg: Publish, i: nat, fixedPort: bool,
                     pub: map<string, string>)
  {
    && relay.lport == Itoa(10001 + i) == arg.container
    && relay.lport in pub
    && shown == Forward(pub[relay.lport], relay.host + ":" + relay.port)
    && (fixedPort ==> shown == down)
  }

  /** Every shown forward is faithful to its relay, and no two relays share a port. */
  predicate AllFaithful(ps: seq<Parsed>, down: seq<Forward>, restart: bool, free: nat -> nat,
                        pub: map<string, string>)
  {
    var plan := PlanOf(ps, restart, free);
    var relays, shown := Relays(plan.forwards), Shown(down, pub);
    && |relays| == |plan.publish| == |shown| == |ps|
    && (forall i :: 0 <= i < |ps| ==> Faithful(shown[i], down[i], relays[i], plan.publish[i], i, ps[i].port != "", pub))
    && (forall i, j :: 0 <= i < j < |relays| ==> relays[i].lport != relays[j].lport)
  }

  lemma FaithfulAt(ps: seq<Parsed>, down: seq<Forward>, relays: seq<Relay>, i: nat, restart: bool, free: nat -> nat,
                   pub: map<string, string>)
    requires i < |ps| == |relays| && Agree(ps, down)
    requires relays[i] == Relay(Internal(i), ps[i].host, ps[i].rport)
    requires Publishes(Publications(ps, restart, free), pub)
    ensures Faithful(Shown(down, pub)[i], down[i], relays[i], Publications(ps, restart, free)[i], i,
                     ps[i].port != "", pub)
  {
    var arg := Publications(ps, restart, free)[i];
    assert arg == PublishArg(ps[i], i, restart, free);
    assert Describes(down[i], ps[i]);
  }

  lemma DistinctPorts(relays: seq<Relay>)
    requires forall i :: 0 <= i < |relays| ==> relays[i].lport == Internal(i)
    ensures forall i, j :: 0 <= i < j < |relays| ==> relays[i].lport != relays[j].lport
  {
    forall i, j | 0 <= i < j < |relays| ensures Internal(i) != Internal(j) {
      if Internal(i) == Internal(j) {
        ItoaInjective(INTERNAL_BASE + 1 + i, INTERNAL_BASE + 1 + j);
      }
    }
  }

  lemma EndToEndParsed(ps: seq<Parsed>, down: seq<Forward>, restart: bool, free: nat -> nat, pub: map<string, string>)
    requires Checked(ps) && Agree(ps, down)
    requires Publishes(Publications(ps, restart, free), pub)
    ensures AllFaithful(ps, down, restart, free, pub)
  {
    RelaysOfSpec(ps);
    var relays := Relays(PlanOf(ps, restart, free).forwards);
    forall i | 0 <= i < |ps|
      ensures Faithful(Shown(down, pub)[i], down[i], relays[i], Publications(ps, restart, free)[i], i,
                       ps[i].port != "", pub)
    {
      FaithfulAt(ps, down, relays, i, restart, free, pub);
    }
    DistinctPorts(relays);
  }

  /** End-to-end fidelity. For every config `up_one` accepts, the i-th forward the daemon
      shows names the remote that the entrypoint connects container port 10001+i to, and its
      local side is the address Docker publishes for that container port; a fixed local port
      is already shown while the tunnel is down. No two relays share a container port. */
  lemma EndToEnd(hosts: seq<HostConf>, ps: seq<Parsed>, publishBind: string, restart: bool, free: nat -> nat,
                 pub: map<string, string>)
    requires WellFormed(hosts)
    requires ParseList(Pieces(CliForwards(hosts), BLANKS), ps, publishBind)
    requires Publishes(Publications(ps, restart, free), pub)
    ensures AllFaithful(ps, DaemonForwards(hosts, publishBind), restart, free, pub)
  {
    WordsOfForwards(hosts);
    FlattenAgree(hosts, ps, publishBind);
    ParsesAreChecked(CliTokens(hosts), ps, publishBind);
    EndToEndParsed(ps, DaemonForwards(hosts, publishBind), restart, free, pub);
  }
}
