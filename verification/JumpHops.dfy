/** SSH jump hops: the CLI and the daemon each print the config's hops as
    `[user@]host[:port]` tokens; the entrypoint parses the joined tokens back. */
module JumpHops {
  import opened Text

  /** A `ssh.jump[]` entry: a bare string, or an object (user "" and port None when absent). */
  datatype HopConf =
    | Bare(text: string)
    | Obj(host: string, user: string, port: Option<nat>)

  datatype Hop = Hop(user: string, host: string, port: string)

  // ------------------------------------------------------------ printing

  /** One iteration of the `yaml_load` loop. */
  function CliToken(h: HopConf): string {
    match h
    case Bare(text) => text
    case Obj(host, user, port) =>
      var portText := if port.Some? then Itoa(port.value) else "";
      var tok := if user != "" && user != "null" then user + ['@'] + host else host;
      if portText != "" && portText != "22" then tok + [':'] + portText else tok
  }

  /** `jumpHop.token`, with the decoder's zero port for a missing one. */
  function GoToken(h: HopConf): string {
    match h
    case Bare(text) => text
    case Obj(host, user, port) =>
      var p := if port.Some? then port.value else 0;
      var s := if user != "" then user + ['@'] + host else host;
      if p != 0 && p != 22 then s + [':'] + Itoa(p) else s
  }

  function CliTokens(hops: seq<HopConf>): seq<string> {
    seq(|hops|, i requires 0 <= i < |hops| => CliToken(hops[i]))
  }

  /** SSH_JUMP as `yaml_load` leaves it. */
  function SshJump(hops: seq<HopConf>): string {
    DropLeading(Prefixed(CliTokens(hops), ' '), ' ')
  }

  method YamlLoadJump(hops: seq<HopConf>) returns (jump: string)
    ensures jump == SshJump(hops)
  {
    jump := "";
    ghost var tokens: seq<string> := [];
    for i := 0 to |hops|
      invariant tokens == CliTokens(hops)[..i]
      invariant jump == Prefixed(tokens, ' ')
    {
      PrefixedSnoc(tokens, CliToken(hops[i]), ' ');
      tokens := tokens + [CliToken(hops[i])];
      jump := jump + [' '] + CliToken(hops[i]);
    }
    assert tokens == CliTokens(hops);
    if jump != "" && jump[0] == ' ' {
      jump := jump[1..];
    }
  }

  /** The daemon's SSHJump list: empty tokens are dropped. */
  function GoTokens(hops: seq<HopConf>): seq<string> {
    if hops == [] then []
    else (if GoToken(hops[0]) == "" then [] else [GoToken(hops[0])]) + GoTokens(hops[1..])
  }

  method CollectJump(hops: seq<HopConf>) returns (tokens: seq<string>)
    ensures tokens == GoTokens(hops)
  {
    tokens := [];
    for i := 0 to |hops|
      invariant tokens == GoTokens(hops[..i])
    {
      GoTokensSnoc(hops[..i], hops[i]);
      assert hops[..i + 1] == hops[..i] + [hops[i]];
      var tok := GoToken(hops[i]);
      if tok != "" {
        tokens := tokens + [tok];
      }
    }
    assert hops[..|hops|] == hops;
  }

  lemma {:induction false} GoTokensSnoc(hops: seq<HopConf>, h: HopConf)
    ensures GoTokens(hops + [h]) == GoTokens(hops) + (if GoToken(h) == "" then [] else [GoToken(h)])
  {
    if hops == [] {
      assert hops + [h] == [h] && [h][1..] == [];
    } else {
      GoTokensSnoc(hops[1..], h);
      assert (hops + [h])[0] == hops[0] && (hops + [h])[1..] == hops[1..] + [h];
    }
  }

  // ------------------------------------------------------------ parsing in run_ssh

  const LIST_SEPS: set<char> := {' ', '\t', '\n', ','}

  function ParseHop(word: string, sshUser: string): Hop {
    var user := if '@' in word then BeforeFirst(word, '@') else sshUser;
    var rest := if '@' in word then AfterFirst(word, '@') else word;
    if ':' in rest then Hop(user, BeforeLast(rest, ':'), AfterLast(rest, ':'))
    else Hop(user, rest, "22")
  }

  function ParseHops(words: seq<string>, sshUser: string): seq<Hop> {
    seq(|words|, i requires 0 <= i < |words| => ParseHop(words[i], sshUser))
  }

  /** The hops of a jump value: commas become blanks, then word splitting. */
  function HopsOf(jump: string, sshUser: string): seq<Hop> {
    ParseHops(Pieces(jump, LIST_SEPS), sshUser)
  }

  method RunSshHops(jump: string, sshUser: string) returns (hops: seq<Hop>)
    ensures hops == HopsOf(jump, sshUser)
  {
    hops := [];
    var words := Pieces(jump, LIST_SEPS);
    for i := 0 to |words|
      invariant hops == ParseHops(words, sshUser)[..i]
    {
      var hu, hh, hp := sshUser, words[i], "22";
      if '@' in hh {
        hu, hh := BeforeFirst(hh, '@'), AfterFirst(hh, '@');
      }
      if ':' in hh {
        hp, hh := AfterLast(hh, ':'), BeforeLast(hh, ':');
      }
      hops := hops + [Hop(hu, hh, hp)];
    }
  }

  // ------------------------------------------------------------ round trip

  /** What a hop says, however it is written in the config. */
  datatype HopSpec = HopSpec(user: string, host: string, port: Option<nat>)

  predicate WellFormedSpec(s: HopSpec) {
    && s.host != "" && Free(s.host, LIST_SEPS + {'@', ':'})
    && Free(s.user, LIST_SEPS + {'@'})
  }

  /** The bare spelling, printing every part that is given. */
  function FullText(s: HopSpec): string {
    var base := if s.user != "" then s.user + ['@'] + s.host else s.host;
    if s.port.Some? then base + [':'] + Itoa(s.port.value) else base
  }

  predicate Writes(h: HopConf, s: HopSpec) {
    || h == Bare(FullText(s))
    || (h == Obj(s.host, s.user, s.port) && s.user != "null")
  }

  function Meaning(s: HopSpec, sshUser: string): Hop {
    Hop(if s.user != "" then s.user else sshUser, s.host, if s.port.Some? then Itoa(s.port.value) else "22")
  }

  function Spell(user: string, host: string, port: string): string {
    var base := if user != "" then user + ['@'] + host else host;
    if port != "" then base + [':'] + port else base
  }

  lemma NumeralFree(s: string)
    requires s == "" || Numeral(s)
    ensures Free(s, LIST_SEPS + {'@', ':'})
  {
  }

  lemma HostPort(host: string, port: string)
    requires host != "" && Free(host, LIST_SEPS + {'@', ':'}) && (port == "" || Numeral(port))
    ensures var rest := if port != "" then host + [':'] + port else host;
            && (':' in rest <==> port != "") && '@' !in rest
            && (port != "" ==> BeforeLast(rest, ':') == host && AfterLast(rest, ':') == port)
            && rest != "" && Free(rest, LIST_SEPS)
  {
    NumeralFree(port);
    if port != "" {
      CutAtLast(host, ':', port);
      assert (host + [':'] + port)[|host|] == ':';
    }
  }

  function HostOf(rest: string): (string, string) {
    if ':' in rest then (BeforeLast(rest, ':'), AfterLast(rest, ':')) else (rest, "22")
  }

  lemma ParseSplits(user: string, rest: string, sshUser: string)
    requires '@' !in user && '@' !in rest
    ensures ParseHop(rest, sshUser) == Hop(sshUser, HostOf(rest).0, HostOf(rest).1)
    ensures ParseHop(user + ['@'] + rest, sshUser) == Hop(user, HostOf(rest).0, HostOf(rest).1)
  {
    CutAtFirst(user, '@', rest);
    assert (user + ['@'] + rest)[|user|] == '@';
  }

  lemma ParseInvertsSpell(user: string, host: string, port: string, sshUser: string)
    requires host != "" && Free(host, LIST_SEPS + {'@', ':'}) && Free(user, LIST_SEPS + {'@'})
    requires port == "" || Numeral(port)
    ensures ParseHop(Spell(user, host, port), sshUser)
         == Hop(if user != "" then user else sshUser, host, if port != "" then port else "22")
  {
    var rest := if port != "" then host + [':'] + port else host;
    SpellIs(user, host, port);
    assert '@' !in user;
    assert '@' !in rest && HostOf(rest) == (host, if port != "" then port else "22") by {
      HostPort(host, port);
    }
    ParseSplits(user, rest, sshUser);
  }

  lemma SpellIsWord(user: string, host: string, port: string)
    requires host != "" && Free(host, LIST_SEPS + {'@', ':'}) && Free(user, LIST_SEPS + {'@'})
    requires port == "" || Numeral(port)
    ensures Spell(user, host, port) != "" && Free(Spell(user, host, port), LIST_SEPS)
  {
    var rest := if port != "" then host + [':'] + port else host;
    SpellIs(user, host, port);
    assert rest != "" && Free(rest, LIST_SEPS) by {
      HostPort(host, port);
    }
    assert Free(user, LIST_SEPS);
  }

  lemma SpellIs(user: string, host: string, port: string)
    ensures var rest := if port != "" then host + [':'] + port else host;
            Spell(user, host, port) == if user != "" then user + ['@'] + rest else rest
  {
    if user != "" && port != "" {
      assert user + ['@'] + host + [':'] + port == user + ['@'] + (host + [':'] + port);
    }
  }

  lemma TokenSpelled(h: HopConf, s: HopSpec, sshUser: string)
    requires WellFormedSpec(s) && Writes(h, s)
    ensures ParseHop(CliToken(h), sshUser) == Meaning(s, sshUser)
    ensures CliToken(h) != "" && Free(CliToken(h), LIST_SEPS)
  {
    var portText := if s.port.Some? then Itoa(s.port.value) else "";
    if s.port.Some? {
      ItoaNumeral(s.port.value);
    }
    if h.Bare? {
      assert FullText(s) == Spell(s.user, s.host, portText);
      ParseInvertsSpell(s.user, s.host, portText, sshUser);
      SpellIsWord(s.user, s.host, portText);
    } else {
      var printed := if portText == "22" then "" else portText;
      assert CliToken(h) == Spell(s.user, s.host, printed);
      ParseInvertsSpell(s.user, s.host, printed, sshUser);
      SpellIsWord(s.user, s.host, printed);
    }
  }

  /** Whatever mix of spellings the config uses, the entrypoint recovers the same hops in the
      same order, with the tunnel's user and port 22 where the config gives none. */
  lemma JumpRoundTrip(confs: seq<HopConf>, specs: seq<HopSpec>, sshUser: string)
    requires |confs| == |specs|
    requires forall i :: 0 <= i < |specs| ==> WellFormedSpec(specs[i]) && Writes(confs[i], specs[i])
    ensures |HopsOf(SshJump(confs), sshUser)| == |specs|
    ensures forall i :: 0 <= i < |specs| ==> HopsOf(SshJump(confs), sshUser)[i] == Meaning(specs[i], sshUser)
  {
    forall i | 0 <= i < |specs|
      ensures ParseHop(CliToken(confs[i]), sshUser) == Meaning(specs[i], sshUser)
      ensures CliToken(confs[i]) != "" && Free(CliToken(confs[i]), LIST_SEPS)
    {
      TokenSpelled(confs[i], specs[i], sshUser);
    }
    PiecesOfPrefixed(CliTokens(confs), ' ', LIST_SEPS);
  }

  // ------------------------------------------------------------ CLI against daemon

  /** The guards on which the two printers part: an explicit port 0, and the user "null". */
  predicate SamePrint(h: HopConf) {
    h.Obj? ==> h.port != Some(0) && h.user != "null"
  }

  lemma TokensAgreeIff(h: HopConf)
    ensures CliToken(h) == GoToken(h) <==> SamePrint(h)
  {
    match h
    case Bare(text) =>
    case Obj(host, user, port) =>
      ItoaNumeral(22);
      assert Itoa(22) == "22";
      if port.Some? {
        ItoaNumeral(port.value);
        if port.value != 22 && Itoa(port.value) == "22" {
          ItoaInjective(port.value, 22);
        }
      }
  }

  /** A token without blanks or commas, and an object always names its host. */
  predicate Printable(h: HopConf) {
    && Free(CliToken(h), LIST_SEPS) && Free(GoToken(h), LIST_SEPS)
    && NamesHost(h)
  }

  predicate NamesHost(h: HopConf) { h.Obj? ==> h.host != "" }

  /** The daemon's token is one word to the shell. */
  predicate OneWord(h: HopConf) { Free(GoToken(h), LIST_SEPS) }

  function NonEmpty(tokens: seq<string>): seq<string> {
    if tokens == [] then [] else (if tokens[0] == "" then [] else [tokens[0]]) + NonEmpty(tokens[1..])
  }

  lemma {:induction false} PiecesSkipEmpty(tokens: seq<string>, sep: char, seps: set<char>)
    requires sep in seps && forall i :: 0 <= i < |tokens| ==> Free(tokens[i], seps)
    ensures Pieces(Prefixed(tokens, sep), seps) == NonEmpty(tokens)
    ensures Pieces(DropLeading(Prefixed(tokens, sep), sep), seps) == NonEmpty(tokens)
  {
    if tokens != [] {
      var t, rest := tokens[0], tokens[1..];
      var tail := Prefixed(rest, sep);
      assert Pieces(tail, seps) == NonEmpty(rest) by {
        PiecesSkipEmpty(rest, sep, seps);
      }
      assert Pieces(t + tail, seps) == NonEmpty(tokens) by {
        if t == "" {
          assert t + tail == tail;
        } else {
          PiecesHead(t, tail, sep, seps);
        }
      }
      var s := Prefixed(tokens, sep);
      assert s[0] == sep && s[1..] == t + tail;
    }
  }

  predicate AllSame(hops: seq<HopConf>) {
    forall i :: 0 <= i < |hops| ==> SamePrint(hops[i])
  }

  lemma AllSameCons(hops: seq<HopConf>)
    requires hops != []
    ensures AllSame(hops) <==> SamePrint(hops[0]) && AllSame(hops[1..])
  {
    assert forall i :: 1 <= i < |hops| ==> hops[i] == hops[1..][i - 1];
  }

  lemma {:induction false} ListsAgreeIff(hops: seq<HopConf>)
    requires forall i :: 0 <= i < |hops| ==> Printable(hops[i])
    ensures NonEmpty(CliTokens(hops)) == GoTokens(hops) <==> AllSame(hops)
  {
    if hops != [] {
      ListsAgreeIff(hops[1..]);
      AllSameCons(hops);
      NonEmptyCons(hops);
      GoTokensCons(hops);
      HeadsAgree(hops[0], NonEmpty(CliTokens(hops[1..])), GoTokens(hops[1..]));
    }
  }

  function Kept(token: string): seq<string> {
    if token == "" then [] else [token]
  }

  lemma TokenEmptyTogether(h: HopConf)
    requires Printable(h)
    ensures CliToken(h) == "" <==> GoToken(h) == ""
  {
  }

  lemma HeadsAgree(h: HopConf, x: seq<string>, y: seq<string>)
    requires Printable(h)
    ensures Kept(CliToken(h)) + x == Kept(GoToken(h)) + y <==> SamePrint(h) && x == y
  {
    TokensAgreeIff(h);
    TokenEmptyTogether(h);
    HeadTail(CliToken(h), x, GoToken(h), y);
    assert [] + x == x && [] + y == y;
  }

  lemma GoTokensCons(hops: seq<HopConf>)
    requires hops != []
    ensures GoTokens(hops) == Kept(GoToken(hops[0])) + GoTokens(hops[1..])
  {
  }

  lemma NonEmptyCons(hops: seq<HopConf>)
    requires hops != []
    ensures NonEmpty(CliTokens(hops))
         == Kept(CliToken(hops[0])) + NonEmpty(CliTokens(hops[1..]))
  {
    assert CliTokens(hops)[1..] == CliTokens(hops[1..]);
  }

  lemma HeadTail(a: string, x: seq<string>, b: string, y: seq<string>)
    ensures [a] + x == [b] + y <==> a == b && x == y
  {
    assert ([a] + x)[0] == a && ([b] + y)[0] == b;
    assert ([a] + x)[1..] == x && ([b] + y)[1..] == y;
  }

  lemma FreeParts(a: string, b: string, bad: set<char>)
    ensures Free(a + b, bad) <==> Free(a, bad) && Free(b, bad)
  {
    assert forall i :: 0 <= i < |a| ==> (a + b)[i] == a[i];
    assert forall i :: 0 <= i < |b| ==> (a + b)[|a| + i] == b[i];
  }

  lemma SpellFree(user: string, host: string, port: string)
    ensures Free(Spell(user, host, port), LIST_SEPS)
       <==> Free(user, LIST_SEPS) && Free(host, LIST_SEPS) && Free(port, LIST_SEPS)
  {
    FreeParts(user, ['@'], LIST_SEPS);
    FreeParts(user + ['@'], host, LIST_SEPS);
    var base := if user != "" then user + ['@'] + host else host;
    FreeParts(base, [':'], LIST_SEPS);
    FreeParts(base + [':'], port, LIST_SEPS);
  }

  lemma PortTextFree(port: Option<nat>)
    ensures port.Some? ==> Free(Itoa(port.value), LIST_SEPS)
  {
    if port.Some? {
      ItoaNumeral(port.value);
      NumeralFree(Itoa(port.value));
    }
  }

  lemma GoSpells(h: HopConf) returns (port: string)
    requires h.Obj?
    ensures GoToken(h) == Spell(h.user, h.host, port) && (port == "" || (h.port.Some? && port == Itoa(h.port.value)))
  {
    port := if h.port.Some? && h.port.value != 0 && h.port.value != 22 then Itoa(h.port.value) else "";
    if h.port.Some? {
      ItoaNumeral(h.port.value);
    }
  }

  lemma CliSpells(h: HopConf) returns (user: string, port: string)
    requires h.Obj?
    ensures CliToken(h) == Spell(user, h.host, port) && user in {"", h.user}
    ensures port == "" || (h.port.Some? && port == Itoa(h.port.value))
  {
    var text := if h.port.Some? then Itoa(h.port.value) else "";
    user, port := if h.user == "null" then "" else h.user, if text == "22" then "" else text;
  }

  /** The two printers differ in no blank and no comma. */
  lemma OneWordBoth(h: HopConf)
    requires OneWord(h)
    ensures Free(CliToken(h), LIST_SEPS)
  {
    if h.Obj? {
      PortTextFree(h.port);
      var go := GoSpells(h);
      SpellFree(h.user, h.host, go);
      var user, port := CliSpells(h);
      SpellFree(user, h.host, port);
    }
  }

  lemma {:induction false} PiecesAreFree(s: string, seps: set<char>)
    ensures forall i :: 0 <= i < |Pieces(s, seps)| ==> Free(Pieces(s, seps)[i], seps)
    decreases |s|
  {
    if s != "" {
      if s[0] in seps {
        PiecesAreFree(s[1..], seps);
      } else {
        PiecesAreFree(s[Span(s, seps)..], seps);
      }
    }
  }

  lemma {:induction false} TokenIsListed(hops: seq<HopConf>, i: nat)
    requires i < |hops| && GoToken(hops[i]) != ""
    ensures GoToken(hops[i]) in GoTokens(hops)
  {
    if i > 0 {
      TokenIsListed(hops[1..], i - 1);
    }
  }

  /** Words never hold a blank or a comma, so neither does a token they agree with. */
  lemma AgreeingTokensAreWords(hops: seq<HopConf>, jump: string, i: nat)
    requires Pieces(jump, LIST_SEPS) == GoTokens(hops) && i < |hops|
    ensures OneWord(hops[i])
  {
    if GoToken(hops[i]) != "" {
      TokenIsListed(hops, i);
      PiecesAreFree(jump, LIST_SEPS);
    }
  }

  /** The words of the CLI's SSH_JUMP are the daemon's token list exactly when no hop object
      has an explicit port 0 or the user "null", and no token holds a blank or a comma. */
  lemma CliAndDaemonAgreeIff(hops: seq<HopConf>)
    requires forall i :: 0 <= i < |hops| ==> NamesHost(hops[i])
    ensures Pieces(SshJump(hops), LIST_SEPS) == GoTokens(hops)
       <==> AllSame(hops) && forall i :: 0 <= i < |hops| ==> OneWord(hops[i])
  {
    if Pieces(SshJump(hops), LIST_SEPS) == GoTokens(hops) {
      forall i | 0 <= i < |hops|
        ensures OneWord(hops[i])
      {
        AgreeingTokensAreWords(hops, SshJump(hops), i);
      }
    }
    if forall i :: 0 <= i < |hops| ==> OneWord(hops[i]) {
      WordsAgreeIff(hops);
    }
  }

  lemma WordsAgreeIff(hops: seq<HopConf>)
    requires forall i :: 0 <= i < |hops| ==> NamesHost(hops[i]) && OneWord(hops[i])
    ensures Pieces(SshJump(hops), LIST_SEPS) == GoTokens(hops) <==> AllSame(hops)
  {
    forall i | 0 <= i < |hops|
      ensures Printable(hops[i])
    {
      OneWordBoth(hops[i]);
    }
    PiecesSkipEmpty(CliTokens(hops), ' ', LIST_SEPS);
    ListsAgreeIff(hops);
  }

  /** A concrete disagreement: `{host: h, port: 0}`. */
  lemma PortZeroDiffers()
    ensures CliToken(Obj("h", "", Some(0))) == "h:0" && GoToken(Obj("h", "", Some(0))) == "h"
  {
    assert Itoa(0) == "0";
  }

  /** How any word is read, printed by us or not: the user stands before the first `@`, the
      port behind the last `:` of the rest, and what is missing is the tunnel's user and 22. */
  lemma HopTakesApart(word: string, sshUser: string, rest: string)
    requires rest == if '@' in word then AfterFirst(word, '@') else word
    ensures var hop := ParseHop(word, sshUser);
            && (if '@' in word then word == hop.user + "@" + rest && '@' !in hop.user else hop.user == sshUser)
            && (if ':' in rest then rest == hop.host + ":" + hop.port && ':' !in hop.port
                else hop.host == rest && hop.port == "22")
  {
    if '@' in word {
      FirstCut(word, '@');
    }
    if ':' in rest {
      LastCut(rest, ':');
    }
  }

  /** A jump list may be written with blanks, tabs, line ends or commas between its hops. */
  lemma HopsAcross(a: string, sep: char, b: string, sshUser: string)
    requires sep in " \t\n,"
    ensures HopsOf(a + [sep] + b, sshUser) == HopsOf(a, sshUser) + HopsOf(b, sshUser)
  {
    assert sep == ' ' || sep == '\t' || sep == '\n' || sep == ',';
    PiecesAcross(a, sep, b, LIST_SEPS);
  }
}
