/** Where each forward is published: the `-p` arguments read off the config's own local texts. */
module Publication {

  import opened Text
  import opened Forwards

  // ------------------------------------------------------------ what a local text asks for

  /** `bind` and `rest` are what the last colon separates. */
  predicate CutsLast(local: string, bind: string, rest: string) {
    ':' !in rest && local == bind + ":" + rest
  }

  /** The bind that a local text asks for: its own before the last colon, else the default. */
  ghost predicate BindOf(local: string, publishBind: string, bind: string) {
    if ':' in local then exists rest :: CutsLast(local, bind, rest) else bind == publishBind
  }

  /** The port that a local text asks for: `any` and nothing ask for none. */
  ghost predicate PortOf(local: string, port: string) {
    if local == "" || local == "any" then port == ""
    else if ':' !in local then port == local && Numeral(local)
    else exists bind, rest ::
      && CutsLast(local, bind, rest)
      && (if rest == "" || rest == "any" then port == "" else port == rest && Numeral(rest))
  }

  lemma CutsAtLast(local: string)
    requires ':' in local
    ensures CutsLast(local, BeforeLast(local, ':'), AfterLast(local, ':'))
  {
    LastIndexIs(local, ':');
    var k := LastIndex(local, ':');
    assert local == local[..k] + ":" + local[k + 1..];
  }

  lemma LastCutIs(local: string, bind: string)
    requires exists rest :: CutsLast(local, bind, rest)
    ensures bind == BeforeLast(local, ':')
  {
    var rest :| CutsLast(local, bind, rest);
    CutAtLast(bind, ':', rest);
  }

  lemma PortIs(local: string, port: string)
    requires ':' in local && PortOf(local, port)
    ensures port == if AfterLast(local, ':') in {"", "any"} then "" else AfterLast(local, ':')
  {
    var bind, rest :|
      && CutsLast(local, bind, rest)
      && (if rest == "" || rest == "any" then port == "" else port == rest && Numeral(rest));
    CutAtLast(bind, ':', rest);
  }

  /** A local text asks for one bind and one port. */
  lemma PlacesAreUnique(local: string, publishBind: string, a: string, b: string, x: string, y: string)
    requires BindOf(local, publishBind, a) && BindOf(local, publishBind, b) && PortOf(local, x) && PortOf(local, y)
    ensures a == b && x == y
  {
    if ':' in local {
      LastCutIs(local, a);
      LastCutIs(local, b);
      PortIs(local, x);
      PortIs(local, y);
    }
  }

  // ------------------------------------------------------------ one forward

  lemma BindIs(local: string, publishBind: string, p: Parsed, host: string, rport: string)
    requires CheckForward(local, host, rport, publishBind) == Ok(p)
    ensures p.bind == if ':' in local then BeforeLast(local, ':') else publishBind
  {
  }

  lemma PortTextIs(local: string, publishBind: string, p: Parsed, host: string, rport: string)
    requires CheckForward(local, host, rport, publishBind) == Ok(p)
    ensures ':' in local ==> p.port == if AfterLast(local, ':') == "any" then "" else AfterLast(local, ':')
    ensures ':' !in local ==> p.port == if local == "any" then "" else local
    ensures p.port == "" || Numeral(p.port)
  {
  }

  lemma CheckPlaces(local: string, publishBind: string, p: Parsed, host: string, rport: string)
    requires CheckForward(local, host, rport, publishBind) == Ok(p)
    ensures BindOf(local, publishBind, p.bind) && PortOf(local, p.port)
  {
    BindIs(local, publishBind, p, host, rport);
    PortTextIs(local, publishBind, p, host, rport);
    if ':' in local {
      CutsAtLast(local);
    }
  }

  lemma HeadPlaced(ip: string, f: ForwardConf, p: Parsed, publishBind: string)
    requires PlainField(ip) && WellFormedForward(f) && f.remote.Some?
    requires ParseForward(Token(LocalText(f), ip, f.remote.value), publishBind) == Ok(p)
    ensures BindOf(LocalText(f), publishBind, p.bind) && PortOf(LocalText(f), p.port)
  {
    assert CheckForward(LocalText(f), ip, f.remote.value, publishBind) == Ok(p) by {
      LocalTextIsField(f);
      ParseInvertsToken(LocalText(f), ip, f.remote.value, publishBind);
    }
    CheckPlaces(LocalText(f), publishBind, p, ip, f.remote.value);
  }

  // ------------------------------------------------------------ all of them

  /** The local texts of the forwards that are not skipped, in config order. */
  function LocalTexts(forwards: seq<ForwardConf>): seq<string> {
    if forwards == [] then []
    else
      (if forwards[0].remote.None? then []
       else [if forwards[0].local.None? then "any" else forwards[0].local.value])
      + LocalTexts(forwards[1..])
  }

  function AllLocalTexts(hosts: seq<HostConf>): seq<string> {
    if hosts == [] then [] else LocalTexts(hosts[0].forwards) + AllLocalTexts(hosts[1..])
  }

  /** Parsed forwards sit where the local texts say. */
  ghost predicate Placed(ps: seq<Parsed>, locals: seq<string>, publishBind: string) {
    && |ps| == |locals|
    && forall i :: 0 <= i < |ps| ==> BindOf(locals[i], publishBind, ps[i].bind) && PortOf(locals[i], ps[i].port)
  }

  lemma PlacedConcat(a: seq<Parsed>, b: seq<Parsed>, x: seq<string>, y: seq<string>, publishBind: string)
    requires Placed(a, x, publishBind) && Placed(b, y, publishBind)
    ensures Placed(a + b, x + y, publishBind)
  {
  }

  lemma PlacedCons(p: Parsed, ps: seq<Parsed>, local: string, locals: seq<string>, publishBind: string)
    requires BindOf(local, publishBind, p.bind) && PortOf(local, p.port) && Placed(ps, locals, publishBind)
    ensures Placed([p] + ps, [local] + locals, publishBind)
  {
  }

  /** Where the head entry has a remote, placement of the tail is placement of the whole. */
  lemma PlacedHead(ip: string, forwards: seq<ForwardConf>, ps: seq<Parsed>, publishBind: string)
    requires forwards != [] && forwards[0].remote.Some? && PlainField(ip) && WellFormedForward(forwards[0])
    requires ParseList(HostTokens(ip, forwards), ps, publishBind)
    ensures |ps| > 0 && ParseList(HostTokens(ip, forwards[1..]), ps[1..], publishBind)
    ensures Placed(ps[1..], LocalTexts(forwards[1..]), publishBind) ==> Placed(ps, LocalTexts(forwards), publishBind)
  {
    var f := forwards[0];
    ParseListHead(Token(LocalText(f), ip, f.remote.value), HostTokens(ip, forwards[1..]), ps, publishBind);
    HeadPlaced(ip, f, ps[0], publishBind);
    HeadTail(ps);
    if Placed(ps[1..], LocalTexts(forwards[1..]), publishBind) {
      PlacedCons(ps[0], ps[1..], LocalText(f), LocalTexts(forwards[1..]), publishBind);
    }
  }

  lemma {:induction false} HostPlaced(ip: string, forwards: seq<ForwardConf>, ps: seq<Parsed>, publishBind: string)
    requires PlainField(ip) && WellFormedForwards(forwards)
    requires ParseList(HostTokens(ip, forwards), ps, publishBind)
    ensures Placed(ps, LocalTexts(forwards), publishBind)
  {
    if forwards != [] {
      if forwards[0].remote.Some? {
        PlacedHead(ip, forwards, ps, publishBind);
        HostPlaced(ip, forwards[1..], ps[1..], publishBind);
      } else {
        assert HostTokens(ip, forwards) == HostTokens(ip, forwards[1..]);
        HostPlaced(ip, forwards[1..], ps, publishBind);
      }
    }
  }

  lemma {:induction false} AllPlaced(hosts: seq<HostConf>, ps: seq<Parsed>, publishBind: string)
    requires WellFormed(hosts) && ParseList(CliTokens(hosts), ps, publishBind)
    ensures Placed(ps, AllLocalTexts(hosts), publishBind)
    decreases |hosts|
  {
    if hosts != [] {
      var tokens := HostTokens(hosts[0].ip, hosts[0].forwards);
      var front, back := ps[..|tokens|], ps[|tokens|..];
      ParseListSplit(tokens, CliTokens(hosts[1..]), ps, publishBind);
      HostPlaced(hosts[0].ip, hosts[0].forwards, front, publishBind);
      AllPlaced(hosts[1..], back, publishBind);
      PlacedConcat(front, back, LocalTexts(hosts[0].forwards), AllLocalTexts(hosts[1..]), publishBind);
      assert ps == front + back;
    }
  }

  /** Container port, bind and port of the i-th `-p` argument, for this local text. */
  ghost predicate AskedFor(arg: Publish, i: nat, local: string, publishBind: string, restart: bool, free: nat -> nat) {
    && arg.container == Itoa(10001 + i)
    && BindOf(local, publishBind, arg.bind)
    && exists port :: PortOf(local, port)
         && arg.port == if port != "" then port else if restart then Itoa(free(i)) else ""
  }

  lemma PublishedAt(ps: seq<Parsed>, i: nat, local: string, publishBind: string, restart: bool, free: nat -> nat)
    requires i < |ps| && BindOf(local, publishBind, ps[i].bind) && PortOf(local, ps[i].port)
    ensures AskedFor(PlanOf(ps, restart, free).publish[i], i, local, publishBind, restart, free)
  {
    assert PortOf(local, ps[i].port);
  }

  /** For every config `up_one` accepts, the i-th `-p` argument publishes container port
      10001+i on the bind that the i-th local text asks for, which is the default bind unless
      the text has its own, and on the port it asks for, which is a free one fixed up front
      under `--restart` and Docker's choice otherwise when it asks for none. */
  lemma PublishedWhereAsked(hosts: seq<HostConf>, ps: seq<Parsed>, publishBind: string, restart: bool, free: nat -> nat)
    requires WellFormed(hosts)
    requires ParseList(Pieces(CliForwards(hosts), BLANKS), ps, publishBind)
    ensures var args, locals := PlanOf(ps, restart, free).publish, AllLocalTexts(hosts);
            && |args| == |locals|
            && forall i :: 0 <= i < |args| ==> AskedFor(args[i], i, locals[i], publishBind, restart, free)
  {
    WordsOfForwards(hosts);
    AllPlaced(hosts, ps, publishBind);
    var args, locals := PlanOf(ps, restart, free).publish, AllLocalTexts(hosts);
    forall i | 0 <= i < |args|
      ensures AskedFor(args[i], i, locals[i], publishBind, restart, free)
    {
      PublishedAt(ps, i, locals[i], publishBind, restart, free);
    }
  }

  // ------------------------------------------------------------ what the panel shows

  /** What the panel shows for a forward while its tunnel is down. */
  lemma ShownWhileDown(local: string, publishBind: string)
    ensures local == "" || local == "any" ==> LocalSpec(local, publishBind) == publishBind + ":auto"
    ensures ':' in local ==> LocalSpec(local, publishBind) == local
    ensures Numeral(local) ==> LocalSpec(local, publishBind) == publishBind + ":" + local
  {
    if Numeral(local) {
      assert Digit(local[0]);
      NumeralChars(local);
      assert forall i :: 0 <= i < |local| ==> Digit(local[i]);
    }
  }

  /** The white space of Unicode's property of that name, spelled out. */
  lemma SpaceIs(c: char)
    ensures Space(c)
       <==> c in "\t\n\U{B}\U{C}\r \U{85}\U{A0}\U{1680}\U{2000}\U{2001}\U{2002}\U{2003}\U{2004}\U{2005}\U{2006}"
            || c in "\U{2007}\U{2008}\U{2009}\U{200A}\U{2028}\U{2029}\U{202F}\U{205F}\U{3000}"
  {
    var some := "\t\n\U{B}\U{C}\r \U{85}\U{A0}\U{1680}\U{2000}\U{2001}\U{2002}\U{2003}\U{2004}\U{2005}\U{2006}";
    var more := "\U{2007}\U{2008}\U{2009}\U{200A}\U{2028}\U{2029}\U{202F}\U{205F}\U{3000}";
    assert some[0] == '\t' && some[1] == '\n' && some[4] == '\r' && some[5] == ' ';
    assert forall k :: 0 <= k < |some| ==> Space(some[k]);
    assert forall k :: 0 <= k < |more| ==> Space(more[k]);
    if 0x09 <= c as int <= 0x0d {
      assert some[c as int - 9] == c;
    } else if 0x2000 <= c as int <= 0x2006 {
      assert some[c as int - 0x2000 + 9] == c;
    } else if 0x2007 <= c as int <= 0x200a {
      assert more[c as int - 0x2007] == c;
    } else {
      assert some[6] == '\U{85}' && some[7] == '\U{A0}' && some[8] == '\U{1680}';
      assert more[4] == '\U{2028}' && more[5] == '\U{2029}' && more[6] == '\U{202F}';
      assert more[7] == '\U{205F}' && more[8] == '\U{3000}';
    }
  }

  predicate Blank(s: string) { forall i :: 0 <= i < |s| ==> Space(s[i]) }

  lemma {:induction false} TrimLeftIs(s: string) returns (a: string)
    ensures Blank(a) && s == a + TrimLeft(s) && (TrimLeft(s) != "" ==> !Space(TrimLeft(s)[0]))
  {
    if s != "" && Space(s[0]) {
      var b := TrimLeftIs(s[1..]);
      a := [s[0]] + b;
      assert s == [s[0]] + s[1..];
    } else {
      a := "";
    }
  }

  lemma {:induction false} TrimRightIs(s: string) returns (b: string)
    ensures Blank(b) && s == TrimRight(s) + b
    ensures var t := TrimRight(s); t != "" ==> !Space(t[|t| - 1]) && t[0] == s[0]
  {
    if s != "" && Space(s[|s| - 1]) {
      var n := |s| - 1;
      var c := TrimRightIs(s[..n]);
      b := c + [s[n]];
      assert s == s[..n] + [s[n]];
    } else {
      b := "";
    }
  }

  /** The daemon reads a host's address without the blanks around it, and without only those. */
  lemma TrimSpaceIs(s: string) returns (a: string, b: string)
    ensures Blank(a) && Blank(b) && s == a + TrimSpace(s) + b
    ensures var t := TrimSpace(s); t != "" ==> !Space(t[0]) && !Space(t[|t| - 1])
  {
    a := TrimLeftIs(s);
    b := TrimRightIs(TrimLeft(s));
  }

  /** `f` comes from the k-th entry of host `h`: an address and a remote that are not blank. */
  predicate ShownFor(f: Forward, h: HostConf, k: nat, publishBind: string) {
    && k < |h.forwards| && TrimSpace(h.ip) != ""
    && h.forwards[k].remote.Some? && h.forwards[k].remote.value != ""
    && f.remote == TrimSpace(h.ip) + ":" + h.forwards[k].remote.value
    && f.local == LocalSpec(if h.forwards[k].local.Some? then h.forwards[k].local.value else "", publishBind)
  }

  lemma {:induction false} HostShows(ip: string, forwards: seq<ForwardConf>, publishBind: string, f: Forward)
    ensures f in HostForwards(ip, forwards, publishBind)
       <==> exists k :: 0 <= k < |forwards| && f in ForwardOf(ip, forwards[k], publishBind)
  {
    if forwards != [] {
      HostShows(ip, forwards[1..], publishBind, f);
      assert forall k :: 0 <= k < |forwards| - 1 ==> forwards[1..][k] == forwards[k + 1];
      assert forall k :: 1 <= k < |forwards| ==> forwards[k] == forwards[1..][k - 1];
    }
  }

  lemma PartShows(h: HostConf, publishBind: string, f: Forward)
    ensures f in HostPart(h, publishBind) <==> exists k: nat :: ShownFor(f, h, k, publishBind)
  {
    var ip := TrimSpace(h.ip);
    HostShows(ip, h.forwards, publishBind, f);
    forall k: nat | k < |h.forwards|
      ensures ip != "" && f in ForwardOf(ip, h.forwards[k], publishBind) <==> ShownFor(f, h, k, publishBind)
    {
    }
  }

  /** For any config, accepted by `up` or not, the daemon lists a forward exactly when some
      entry with a remote, of a host with an address, says so. */
  lemma DaemonShowsIff(hosts: seq<HostConf>, publishBind: string, f: Forward)
    ensures f in DaemonForwards(hosts, publishBind)
       <==> exists i :: 0 <= i < |hosts| && f in HostPart(hosts[i], publishBind)
    ensures forall h: HostConf :: f in HostPart(h, publishBind) <==> exists k: nat :: ShownFor(f, h, k, publishBind)
  {
    forall h: HostConf
      ensures f in HostPart(h, publishBind) <==> exists k: nat :: ShownFor(f, h, k, publishBind)
    {
      PartShows(h, publishBind, f);
    }
    DaemonHas(hosts, publishBind, f);
  }

  lemma {:induction false} DaemonHas(hosts: seq<HostConf>, publishBind: string, f: Forward)
    ensures f in DaemonForwards(hosts, publishBind)
       <==> exists i :: 0 <= i < |hosts| && f in HostPart(hosts[i], publishBind)
  {
    if hosts != [] {
      DaemonHas(hosts[1..], publishBind, f);
      assert forall k :: 0 <= k < |hosts| - 1 ==> hosts[1..][k] == hosts[k + 1];
      assert forall k :: 1 <= k < |hosts| ==> hosts[k] == hosts[1..][k - 1];
    }
  }

  // ------------------------------------------------------------ IPv4 binds

  predicate ShortNumeral(s: string) { Numeral(s) && |s| <= 3 }

  predicate DottedQuad(s: string, a: string, b: string, c: string, d: string) {
    && s == a + "." + (b + "." + (c + "." + d))
    && ShortNumeral(a) && ShortNumeral(b) && ShortNumeral(c) && ShortNumeral(d)
  }

  lemma OctetHead(s: string, dots: nat) returns (head: string, rest: string)
    requires dots > 0 && Octets(s, dots)
    ensures s == head + "." + rest && ShortNumeral(head) && Octets(rest, dots - 1)
  {
    FirstIndexIs(s, '.');
    var k := FirstIndex(s, '.');
    head, rest := BeforeFirst(s, '.'), AfterFirst(s, '.');
    assert s == s[..k] + "." + s[k + 1..];
  }

  lemma OctetsOf(head: string, rest: string, dots: nat)
    requires ShortNumeral(head) && (dots > 0 ==> Octets(rest, dots - 1))
    ensures Octets(if dots == 0 then head else head + "." + rest, dots)
  {
    assert '.' !in head by {
      assert forall i :: 0 <= i < |head| ==> Digit(head[i]);
    }
    if dots == 0 {
      NoCut(head, '.');
    } else {
      CutAtFirst(head, '.', rest);
      assert |head| < |head + "." + rest|;
    }
  }

  lemma QuadOfShape(s: string) returns (a: string, b: string, c: string, d: string)
    requires Ipv4Shape(s)
    ensures DottedQuad(s, a, b, c, d)
  {
    var t, u;
    a, t := OctetHead(s, 3);
    b, u := OctetHead(t, 2);
    c, d := OctetHead(u, 1);
  }

  lemma ShapeOfQuad(s: string, a: string, b: string, c: string, d: string)
    requires DottedQuad(s, a, b, c, d)
    ensures Ipv4Shape(s)
  {
    OctetsOf(d, "", 0);
    OctetsOf(c, d, 1);
    OctetsOf(b, c + "." + d, 2);
    OctetsOf(a, b + "." + (c + "." + d), 3);
  }

  /** `^[0-9]{1,3}(\.[0-9]{1,3}){3}$` spelled out: four runs of one to three digits. */
  lemma Ipv4ShapeIff(s: string)
    ensures Ipv4Shape(s) <==> exists a, b, c, d :: DottedQuad(s, a, b, c, d)
  {
    if Ipv4Shape(s) {
      var a, b, c, d := QuadOfShape(s);
    } else if a, b, c, d :| DottedQuad(s, a, b, c, d) {
      ShapeOfQuad(s, a, b, c, d);
    }
  }
}
