/** What a request to `up` means for the container it starts: what is carried into it, which
    certificate pin it enforces, and that nothing but the outside world keeps it from
    connecting. */
module HandshakeUps {

  import opened Text
  import opened Handshake

  // ------------------------------------------------------------ the container of one up

  /** Container `g` runs in this environment, with these credentials given. */
  predicate Carries(s: State, g: nat, env: Env, given: Creds) {
    s.ups >= g && (s.ups == g && s.container.Some? ==> s.container.value.env == env && s.container.value.given == given)
  }

  lemma {:induction false} CarriedRun(s: State, run: seq<Action>, g: nat, env: Env, given: Creds)
    requires Runs(s, run) && Carries(s, g, env, given)
    ensures Carries(After(s, run), g, env, given)
    decreases |run|
  {
    if run != [] {
      CarriedRun(Do(s, run[0]), run[1..], g, env, given);
    }
  }

  /** `before`, then `up`, then `later`; the container of that `up` still lives. */
  predicate Lives(before: seq<Action>, r: Request, later: seq<Action>) {
    && Runs(INIT, before) && Enabled(After(INIT, before), Up(r))
    && Runs(Do(After(INIT, before), Up(r)), later)
    && var s := After(Do(After(INIT, before), Up(r)), later);
       s.ups == After(INIT, before).ups + 1 && s.container.Some?
  }

  function Now(before: seq<Action>, r: Request, later: seq<Action>): State
    requires Lives(before, r, later)
  {
    After(Do(After(INIT, before), Up(r)), later)
  }

  lemma LivesOn(before: seq<Action>, r: Request, later: seq<Action>)
    requires Lives(before, r, later)
    ensures var s, c := Now(before, r, later), Now(before, r, later).container.value;
            Inv(s) && c.env == EnvOf(r, After(INIT, before).pin) && c.given == Written(r)
  {
    var s0 := After(INIT, before);
    InvRun(INIT, before);
    InvStep(s0, Up(r));
    var s1 := Do(s0, Up(r));
    InvRun(s1, later);
    CarriedRun(s1, later, s0.ups + 1, EnvOf(r, s0.pin), Written(r));
  }

  function Given(text: string): Option<string> {
    if text == "" then None else Some(text)
  }

  /** At every point of its life the container has the mode and the credentials of the request,
      and the first line of a VPN process's input is the request's password. */
  lemma RequestIsCarried(before: seq<Action>, r: Request, later: seq<Action>)
    requires Lives(before, r, later)
    ensures var c := Now(before, r, later).container.value;
            && c.env.kind == r.kind && c.env.totp == r.totp && c.env.keep == r.restart
            && c.given.password == Given(r.password)
            && c.given.psk == Given(if r.kind.IPsec? then r.psk else "")
            && c.given.sshKey == Given(if r.kind.Ssh? then r.sshKey else "")
            && (c.given.totpSecret.None? <==> r.totpSecret == "" || r.kind.Ssh? || r.kind.Local?)
            && (c.given.totpSecret.Some? ==>
                c.given.totpSecret.value in {r.totpSecret, "base32:" + r.totpSecret}
                && ("base32:" <= c.given.totpSecret.value || "0x" <= c.given.totpSecret.value))
            && ((r.kind.OpenConnect? || r.kind.IPsec?) && c.stdin != [] ==> c.stdin[0] == Password(r.password))
  {
    LivesOn(before, r, later);
  }

  // ------------------------------------------------------------ which pin is enforced

  /** An explicit servercert is enforced at every point of the container's life, whatever is
      stored, and the container never asks the network for a pin. */
  lemma ExplicitPinIsEnforced(before: seq<Action>, r: Request, later: seq<Action>)
    requires Lives(before, r, later) && r.kind.OpenConnect? && r.servercert != ""
    ensures var s := Now(before, r, later);
            && s.container.value.enforced == r.servercert && !Live(s, Probing)
            && (s.auth.Some? ==> s.auth.value.learned.None?)
  {
    LivesOn(before, r, later);
  }

  /** Without one, a usable stored pin is, with or without trust on first use. */
  lemma StoredPinIsEnforced(before: seq<Action>, r: Request, later: seq<Action>, p: string)
    requires Lives(before, r, later) && r.kind.OpenConnect? && r.servercert == ""
    requires After(INIT, before).pin == Some(p) && IsPin(p)
    ensures var s := Now(before, r, later);
            && s.container.value.enforced == p && !Live(s, Probing)
            && (s.auth.Some? ==> s.auth.value.learned.None?)
  {
    LivesOn(before, r, later);
  }

  /** Without either, and without trust on first use, nothing is enforced and no probe happens. */
  lemma NothingIsEnforced(before: seq<Action>, r: Request, later: seq<Action>)
    requires Lives(before, r, later) && r.kind.OpenConnect? && r.servercert == "" && !r.tofu
    requires After(INIT, before).pin.None? || !IsPin(After(INIT, before).pin.value)
    ensures var s := Now(before, r, later);
            && s.container.value.enforced == "" && !Live(s, Probing)
            && (s.auth.Some? ==> s.auth.value.learned.None?)
  {
    LivesOn(before, r, later);
  }

  /** With trust on first use, a pin selection that finds no learned pin probes, and a pin the
      gateway prints is the one enforced and learned. */
  lemma FirstUseLearns(before: seq<Action>, r: Request, later: seq<Action>, p: string)
    requires Lives(before, r, later) && r.kind.OpenConnect? && r.servercert == "" && r.tofu && IsPin(p)
    requires After(INIT, before).pin.None? || !IsPin(After(INIT, before).pin.value)
    requires var s := Now(before, r, later);
             Live(s, SelectingPin) && s.auth.Some? && s.auth.value.learned.None?
    ensures var s := Now(before, r, later);
            && Enabled(s, SelectPin) && Enabled(Do(s, SelectPin), Probe(Some(p)))
            && var t := Do(Do(s, SelectPin), Probe(Some(p)));
               Live(t, Dialing) && t.container.value.enforced == p && t.auth.value.learned == Some(p)
  {
    LivesOn(before, r, later);
  }

  /** A restart-mode container never waits for a code that nobody could type. */
  lemma RestartNeverWaits(before: seq<Action>, r: Request, later: seq<Action>)
    requires Lives(before, r, later) && r.restart
    ensures var s := Now(before, r, later); !Live(s, Announcing) && !Live(s, Waiting) && !Live(s, Fed)
  {
    LivesOn(before, r, later);
  }

  // ------------------------------------------------------------ codes come from the host

  /** The codes that a run writes, with the marker their writer had seen. */
  function Writings(run: seq<Action>): set<(nat, string)> {
    set i | 0 <= i < |run| && run[i].WriteCode? :: (run[i].seen, run[i].text)
  }

  predicate From(code: Code, written: set<(nat, string)>) { (code.seenAt, code.text) in written }

  /** Every code on disk or already fed is one of these. */
  predicate CodesFrom(s: State, written: set<(nat, string)>) {
    && (s.auth.Some? && s.auth.value.code.Some? ==> From(s.auth.value.code.value, written))
    && (s.container.Some? ==>
        forall i :: 0 <= i < |s.container.value.stdin| && s.container.value.stdin[i].Verification? ==>
          From(s.container.value.stdin[i].code, written))
  }

  lemma CodesStep(s: State, a: Action, written: set<(nat, string)>)
    requires Enabled(s, a) && CodesFrom(s, written)
    ensures CodesFrom(Do(s, a), written + Writings([a]))
  {
    if a.WriteCode? {
      assert [a][0] == a;
      assert (a.seen, a.text) in Writings([a]);
    }
  }

  lemma WritingsCons(run: seq<Action>)
    requires run != []
    ensures Writings(run) == Writings([run[0]]) + Writings(run[1..])
  {
    forall w | w in Writings(run)
      ensures w in Writings([run[0]]) + Writings(run[1..])
    {
      var i :| 0 <= i < |run| && run[i].WriteCode? && w == (run[i].seen, run[i].text);
      if i == 0 {
        assert [run[0]][0] == run[i];
      } else {
        assert run[1..][i - 1] == run[i];
      }
    }
    forall w | w in Writings(run[1..])
      ensures w in Writings(run)
    {
      var i :| 0 <= i < |run[1..]| && run[1..][i].WriteCode? && w == (run[1..][i].seen, run[1..][i].text);
      assert run[i + 1] == run[1..][i];
    }
    forall w | w in Writings([run[0]])
      ensures w in Writings(run)
    {
      assert [run[0]][0] == run[0];
    }
  }

  lemma {:induction false} CodesRun(s: State, run: seq<Action>, written: set<(nat, string)>)
    requires Runs(s, run) && CodesFrom(s, written)
    ensures CodesFrom(After(s, run), written + Writings(run))
    decreases |run|
  {
    if run == [] {
      assert written + Writings(run) == written;
    } else {
      CodesStep(s, run[0], written);
      CodesRun(Do(s, run[0]), run[1..], written + Writings([run[0]]));
      WritingsCons(run);
      assert written + Writings([run[0]]) + Writings(run[1..]) == written + Writings(run);
    }
  }

  /** The code fed to a tunnel is, unaltered, one that some host command wrote. */
  lemma FedCodeWasWritten(run: seq<Action>, i: nat)
    requires Runs(INIT, run) && After(INIT, run).container.Some?
    requires i < |After(INIT, run).container.value.stdin|
    requires After(INIT, run).container.value.stdin[i].Verification?
    ensures var code := After(INIT, run).container.value.stdin[i].code;
            exists k :: 0 <= k < |run| && run[k] == WriteCode(code.seenAt, code.text)
  {
    CodesRun(INIT, run, {});
    var code := After(INIT, run).container.value.stdin[i].code;
    assert (code.seenAt, code.text) in Writings(run);
    var k :| 0 <= k < |run| && run[k].WriteCode? && (code.seenAt, code.text) == (run[k].seen, run[k].text);
  }

  // ------------------------------------------------------------ every accepted up can connect

  /** The requests that `up` does not refuse. */
  predicate Sound(r: Request) {
    match r.kind
    case OpenConnect => r.password != "" && (r.restart && r.totp ==> r.totpSecret != "")
    case IPsec => r.password != "" && r.psk != "" && (r.restart && r.totp ==> r.totpSecret != "")
    case Ssh => r.sshKey != "" || r.password != ""
    case Local => true
  }

  predicate NeedsCode(r: Request) {
    (r.kind.OpenConnect? || r.kind.IPsec?) && r.totp && r.totpSecret == ""
  }

  /** Under way: the request's mode, these files, this input, no marker and no ready. */
  predicate Going(t: State, r: Request, creds: Creds, phase: Phase, stdin: seq<Line>) {
    && t.auth.Some? && t.container.Some?
    && t.auth.value.creds == creds && t.auth.value.code.None? && t.auth.value.awaiting.None? && !t.auth.value.ready
    && t.container.value.env.kind == r.kind && t.container.value.env.totp == r.totp
    && t.container.value.env.keep == r.restart
    && t.container.value.phase == phase && t.container.value.stdin == stdin
    && t.container.value.start == t.starts
  }

  lemma Then(s: State, run: seq<Action>, a: Action)
    requires Runs(s, run) && Enabled(After(s, run), a)
    ensures Runs(s, run + [a]) && After(s, run + [a]) == Do(After(s, run), a)
  {
    OneStep(After(s, run), a, []);
    assert [a] + [] == [a];
    RunsConcat(s, run, [a]);
  }

  function FirstPhase(r: Request): Phase {
    match r.kind
    case OpenConnect => SelectingPin
    case IPsec => if NeedsCode(r) then Announcing else Secrets
    case Ssh => Connecting
    case Local => Purging
  }

  lemma BootsAndChecks(s: State, r: Request) returns (run: seq<Action>)
    requires Sound(r) && (s.container.None? || Live(s, Exited))
    ensures Runs(s, run)
    ensures Going(After(s, run), r, Written(r), FirstPhase(r), if r.kind.IPsec? then [Password(r.password)] else [])
  {
    run := [Up(r)];
    OneStep(s, Up(r), []);
    assert [Up(r)] + [] == [Up(r)];
    Then(s, run, Cleanup);
    run := run + [Cleanup];
    Then(s, run, CheckCreds);
    run := run + [CheckCreds];
  }

  lemma Dials(s: State, run: seq<Action>, r: Request) returns (more: seq<Action>)
    requires Runs(s, run) && Going(After(s, run), r, Written(r), SelectingPin, []) && r.kind.OpenConnect? && Sound(r)
    ensures Runs(s, more)
    ensures Going(After(s, more), r, if r.restart then Written(r) else Written(r).(password := None),
                  if NeedsCode(r) then Announcing else Connecting, [Password(r.password)])
  {
    more := run;
    Then(s, more, SelectPin);
    more := more + [SelectPin];
    if Live(After(s, more), Probing) {
      Then(s, more, Probe(None));
      more := more + [Probe(None)];
    }
    Then(s, more, SendPassword);
    more := more + [SendPassword];
  }

  /** The announcement, a host command that sees it and writes a code, and the code's feed. */
  lemma AsksAndFeeds(s: State, run: seq<Action>, r: Request, creds: Creds, stdin: seq<Line>, code: string)
    returns (more: seq<Action>, fed: Code)
    requires Runs(s, run) && Going(After(s, run), r, creds, Announcing, stdin) && NeedsCode(r) && code != ""
    ensures Runs(s, more) && fed.text == code
    ensures Going(After(s, more), r, creds, if r.kind.IPsec? then Secrets else Connecting, stdin + [Verification(fed)])
  {
    var n := After(s, run).container.value.start;
    Then(s, run, Announce);
    more := run + [Announce];
    Then(s, more, SeeMarker);
    more := more + [SeeMarker];
    Then(s, more, WriteCode(n, code));
    more := more + [WriteCode(n, code)];
    fed := After(s, more).auth.value.code.value;
    Then(s, more, FeedCode);
    more := more + [FeedCode];
    Then(s, more, RemoveCode);
    more := more + [RemoveCode];
  }

  lemma HidesSecrets(s: State, run: seq<Action>, r: Request, creds: Creds, stdin: seq<Line>) returns (more: seq<Action>)
    requires Runs(s, run) && Going(After(s, run), r, creds, Secrets, stdin)
    ensures Runs(s, more)
    ensures Going(After(s, more), r, if r.restart then creds else creds.(password := None, psk := None), Connecting,
                  stdin)
  {
    Then(s, run, WriteSecrets);
    more := run + [WriteSecrets];
  }

  lemma ComesUp(s: State, run: seq<Action>, r: Request, creds: Creds, phase: Phase, stdin: seq<Line>)
    returns (more: seq<Action>)
    requires Runs(s, run) && Going(After(s, run), r, creds, phase, stdin) && phase in {Connecting, Purging}
    ensures Runs(s, more) && Live(After(s, more), Running)
    ensures var t := After(s, more);
            && t.auth.Some? && t.auth.value.ready && t.container.value.stdin == stdin
            && t.auth.value.creds == if r.restart then creds else Creds(None, creds.psk, None, None)
  {
    more := run;
    if phase == Connecting {
      Then(s, more, Connected);
      more := more + [Connected];
    }
    Then(s, more, PurgeCreds);
    more := more + [PurgeCreds];
    Then(s, more, TouchReady);
    more := more + [TouchReady];
  }

  /** The files, marker and process input of a tunnel that has come up. */
  predicate CameUp(t: State, r: Request, code: string) {
    && Live(t, Running) && t.auth.Some? && t.auth.value.ready
    && t.auth.value.creds == (if r.restart then Written(r) else Creds(None, None, None, None))
    && var stdin := t.container.value.stdin;
       if NeedsCode(r) then
         |stdin| == 2 && stdin[0] == Password(r.password) && stdin[1].Verification? && stdin[1].code.text == code
       else stdin == if r.kind.OpenConnect? || r.kind.IPsec? then [Password(r.password)] else []
  }

  /** Where no tunnel of that name runs, `up` accepts exactly the sound requests, and each of
      them can bring its tunnel up: with the credentials kept in restart mode and gone
      otherwise, and with the password and the host's code as the process's whole input. */
  lemma EverySoundUpCanConnect(s: State, r: Request, code: string) returns (run: seq<Action>)
    requires (s.container.None? || Live(s, Exited)) && code != ""
    ensures Enabled(s, Up(r)) <==> Sound(r)
    ensures Sound(r) ==> Runs(s, run) && CameUp(After(s, run), r, code)
  {
    run := [];
    if Sound(r) {
      run := BootsAndChecks(s, r);
      run := ConnectsChecked(s, run, r, code);
    }
  }

  /** From the credential check on, whatever the kind. */
  lemma ConnectsChecked(s: State, run: seq<Action>, r: Request, code: string) returns (more: seq<Action>)
    requires Sound(r) && code != "" && Runs(s, run)
    requires Going(After(s, run), r, Written(r), FirstPhase(r), if r.kind.IPsec? then [Password(r.password)] else [])
    ensures Runs(s, more) && CameUp(After(s, more), r, code)
  {
    match r.kind
    case OpenConnect => more := ConnectsOpen(s, run, r, code);
    case IPsec => more := ConnectsIpsec(s, run, r, code);
    case Ssh => more := ComesUp(s, run, r, Written(r), Connecting, []);
    case Local => more := ComesUp(s, run, r, Written(r), Purging, []);
  }

  /** A tunnel that is up or coming up is left alone. */
  lemma LivingTunnelIsLeftAlone(s: State, r: Request)
    requires s.container.Some? && !Live(s, Exited)
    ensures !Enabled(s, Up(r))
  {
  }

  lemma ConnectsOpen(s: State, run: seq<Action>, r: Request, code: string) returns (more: seq<Action>)
    requires Sound(r) && r.kind.OpenConnect? && code != ""
    requires Runs(s, run) && Going(After(s, run), r, Written(r), SelectingPin, [])
    ensures Runs(s, more) && CameUp(After(s, more), r, code)
  {
    var creds := if r.restart then Written(r) else Written(r).(password := None);
    more := Dials(s, run, r);
    var stdin := [Password(r.password)];
    if NeedsCode(r) {
      var fed: Code;
      more, fed := AsksAndFeeds(s, more, r, creds, stdin, code);
      stdin := stdin + [Verification(fed)];
    }
    more := ComesUp(s, more, r, creds, Connecting, stdin);
  }

  lemma ConnectsIpsec(s: State, run: seq<Action>, r: Request, code: string) returns (more: seq<Action>)
    requires Sound(r) && r.kind.IPsec? && code != "" && Runs(s, run)
    requires Going(After(s, run), r, Written(r), FirstPhase(r), [Password(r.password)])
    ensures Runs(s, more) && CameUp(After(s, more), r, code)
  {
    more := run;
    var stdin := [Password(r.password)];
    if NeedsCode(r) {
      var fed: Code;
      more, fed := AsksAndFeeds(s, more, r, Written(r), stdin, code);
      stdin := stdin + [Verification(fed)];
    }
    more := HidesSecrets(s, more, r, Written(r), stdin);
    var creds := if r.restart then Written(r) else Written(r).(password := None, psk := None);
    more := ComesUp(s, more, r, creds, Connecting, stdin);
  }

  // ------------------------------------------------------------ pins as text

  predicate InBase64(c: char) { c in UPPER || c in LOWER || c in DIGITS || c in {'+', '/', '='} }

  predicate Base64(s: string) { forall i :: 0 <= i < |s| ==> InBase64(s[i]) }

  lemma Base64CharIs(c: char)
    ensures Base64Char(c) <==> InBase64(c)
  {
    CharClasses(c);
  }

  predicate PinWith(s: string, body: string) { body != "" && s == "pin-sha256:" + body && Base64(body) }

  lemma PinBody(s: string) returns (body: string)
    requires IsPin(s)
    ensures PinWith(s, body)
  {
    body := s[|PIN_PREFIX|..];
    assert s == "pin-sha256:" + body;
    forall i | 0 <= i < |body|
      ensures InBase64(body[i])
    {
      assert body[i] == s[|PIN_PREFIX| + i];
      Base64CharIs(body[i]);
    }
  }

  lemma PinOf(s: string, body: string)
    requires PinWith(s, body)
    ensures IsPin(s)
  {
    forall i | |PIN_PREFIX| <= i < |s|
      ensures Base64Char(s[i])
    {
      assert s[i] == body[i - |PIN_PREFIX|];
      Base64CharIs(s[i]);
    }
  }

  /** `pin-sha256:` and at least one base64 character. */
  lemma IsPinIff(s: string)
    ensures IsPin(s) <==> exists body :: PinWith(s, body)
  {
    if IsPin(s) {
      var body := PinBody(s);
    } else if body :| PinWith(s, body) {
      PinOf(s, body);
    }
  }

  // ------------------------------------------------------------ crashes, restarts, tear-down

  /** A container can crash at any point, and a start of the crashed one boots it afresh: same
      mode and credentials, nothing fed, the request's own pin, the auth directory as it was. */
  lemma CrashAndStart(s: State)
    requires s.container.Some? && !Live(s, Exited)
    ensures Enabled(s, Exit) && Live(Do(s, Exit), Exited) && Enabled(Do(s, Exit), Start)
    ensures var c, t := s.container.value, Do(Do(s, Exit), Start);
            && t.auth == s.auth && t.pin == s.pin && t.container.Some? && Live(t, Boot)
            && t.container.value.env == c.env && t.container.value.given == c.given
            && t.container.value.stdin == [] && t.container.value.enforced == c.env.servercert
            && t.container.value.start == s.starts + 1 == t.starts
  {
  }

  /** `down` is always possible where there is a container, and leaves neither it nor its auth
      directory; the stored pin stays. */
  lemma DownRemovesAll(s: State)
    requires s.container.Some?
    ensures Enabled(s, Down)
    ensures var t := Do(s, Down); t.container.None? && t.auth.None? && t.pin == s.pin
  {
  }

  /** What `mark_ready` removes before it touches `ready`: a left-over code too. */
  lemma PurgeRemovesAll(s: State)
    requires Enabled(s, PurgeCreds) && s.auth.Some? && !s.container.value.env.keep
    ensures var d := Do(s, PurgeCreds).auth.value;
            && d.code.None? && d.creds.password.None? && d.creds.totpSecret.None? && d.creds.sshKey.None?
            && d.ready == s.auth.value.ready && Enabled(Do(s, PurgeCreds), TouchReady)
  {
  }

  /** Anyone may replace or delete the stored pin at any time. */
  lemma PinFileIsEdited(s: State, pin: Option<string>)
    ensures Enabled(s, EditPin(pin)) && Do(s, EditPin(pin)) == s.(pin := pin)
  {
  }

  /** Once `ready` is there a host command can see it, then persist the learned pin, and, but
      for restart mode, drop the auth directory. */
  lemma ReadyIsPersisted(s: State)
    requires s.container.Some? && s.auth.Some? && s.auth.value.ready
    ensures Enabled(s, SeeReady) && Enabled(Do(s, SeeReady), PersistTrust)
    ensures var t := Do(Do(s, SeeReady), PersistTrust);
            && (s.auth.value.learned.Some? && IsPin(s.auth.value.learned.value) ==> t.pin == s.auth.value.learned)
            && (s.auth.value.learned.None? ==> t.pin == s.pin)
            && t.auth == s.auth && t.container == s.container
            && (!s.container.value.env.keep ==> Enabled(t, DropAuth) && Do(t, DropAuth).auth.None?)
  {
  }

  lemma StartsAndChecks(s: State, r: Request) returns (run: seq<Action>)
    requires Sound(r) && Live(s, Exited) && s.auth.Some? && s.auth.value.creds == Written(r)
    requires s.container.value.env.kind == r.kind && s.container.value.env.totp == r.totp
    requires s.container.value.env.keep == r.restart
    ensures Runs(s, run)
    ensures Going(After(s, run), r, Written(r), FirstPhase(r), if r.kind.IPsec? then [Password(r.password)] else [])
  {
    run := [Start];
    OneStep(s, Start, []);
    assert [Start] + [] == [Start];
    Then(s, run, Cleanup);
    run := run + [Cleanup];
    Then(s, run, CheckCreds);
    run := run + [CheckCreds];
  }

  /** In restart mode a crashed container can always come up again, however often it has
      crashed, with the password as the process's whole input and all credentials kept. */
  lemma CrashedCanReconnect(before: seq<Action>, r: Request, later: seq<Action>) returns (run: seq<Action>)
    requires Lives(before, r, later) && r.restart && Live(Now(before, r, later), Exited)
    ensures Runs(Now(before, r, later), run) && CameUp(After(Now(before, r, later), run), r, "none")
  {
    LivesOn(before, r, later);
    run := StartsAndChecks(Now(before, r, later), r);
    run := ConnectsChecked(Now(before, r, later), run, r, "none");
  }
}
