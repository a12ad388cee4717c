/** The host/container handshake through the shared auth directory, as a state machine whose
    runs contain any number of ups, downs, crashes, restarts, probes, codes and persists.
    Every action is one atomic step of the CLI (host) or of the entrypoint (container). */
module Handshake {
  import opened Text

  datatype Kind = OpenConnect | IPsec | Ssh | Local

  datatype Creds = Creds(
    password: Option<string>, psk: Option<string>, totpSecret: Option<string>, sshKey: Option<string>)

  /** The `code` file. Besides its text it remembers, for the claims only, which start's
      marker the writer had seen, during which start it was written, whether a marker was on
      disk at that instant, and whether the container had by then announced its wait. */
  datatype Code = Code(text: string, seenAt: nat, writtenAt: nat, marker: bool, announced: bool)

  /** The auth directory; `awaiting` remembers which start touched the marker. */
  datatype Auth = Auth(creds: Creds, code: Option<Code>, awaiting: Option<nat>, ready: bool, learned: Option<string>)

  /** One line handed to the tunnel process. */
  datatype Line = Password(text: string) | Verification(code: Code)

  datatype Env = Env(kind: Kind, servercert: string, tofu: bool, totp: bool, keep: bool)

  /** Where the entrypoint stands. */
  datatype Phase =
    | Exited | Boot | Check | SelectingPin | Probing | Dialing | Announcing | Waiting | Fed
    | Secrets | Connecting | Purging | Marking | Running

  /** A container: `given` are the credentials `up` wrote, `start` numbers its latest start. */
  datatype Container = Container(
    env: Env, given: Creds, start: nat, phase: Phase, enforced: string, stdin: seq<Line>)

  /** `starts` counts container starts, `ups` containers; `prompts` holds the starts whose
      marker some host command has seen, `sawReady` that some host command has seen ready. */
  datatype State = State(
    pin: Option<string>, auth: Option<Auth>, container: Option<Container>,
    starts: nat, ups: nat, prompts: set<nat>, sawReady: bool)

  const INIT: State := State(None, None, None, 0, 0, {}, false)

  /** What `up` is asked for; empty strings are absent values. */
  datatype Request = Request(
    kind: Kind, restart: bool, totp: bool, servercert: string, tofu: bool,
    password: string, psk: string, totpSecret: string, sshKey: string)

  datatype Action =
    | Up(r: Request) | Down | DropAuth | EditPin(pin: Option<string>)
    | SeeReady | PersistTrust | SeeMarker | WriteCode(seen: nat, text: string)
    | Start | Cleanup | CheckCreds | SelectPin | Probe(printed: Option<string>) | SendPassword
    | Announce | FeedCode | RemoveCode | WriteSecrets | Connected | PurgeCreds | TouchReady | Exit

  // ------------------------------------------------------------ pieces of the steps

  const PIN_PREFIX := "pin-sha256:"

  predicate Base64Char(c: char) {
    'A' <= c <= 'Z' || 'a' <= c <= 'z' || Digit(c) || c == '+' || c == '/' || c == '='
  }

  /** `^pin-sha256:[A-Za-z0-9+/=]+$` */
  predicate IsPin(s: string) {
    && PIN_PREFIX < s
    && forall i :: |PIN_PREFIX| <= i < |s| ==> Base64Char(s[i])
  }

  function File(content: string): Option<string> {
    if content == "" then None else Some(content)
  }

  predicate Vpn(kind: Kind) { kind.OpenConnect? || kind.IPsec? }

  /** `up_one` dies on unattended manual TOTP and on missing credentials. */
  predicate Refused(r: Request) {
    || (Vpn(r.kind) && r.restart && r.totp && r.totpSecret == "")
    || (Vpn(r.kind) && r.password == "")
    || (r.kind.IPsec? && r.psk == "")
    || (r.kind.Ssh? && r.sshKey == "" && r.password == "")
  }

  /** openconnect's spelling of a TOTP secret: base32 unless it says otherwise. */
  function TokenSecret(secret: string): string {
    if secret == "" || "base32:" <= secret || "0x" <= secret then secret else "base32:" + secret
  }

  /** The credential files `up_one` writes into the fresh auth directory. */
  function Written(r: Request): Creds {
    Creds(
      File(r.password),
      if r.kind.IPsec? then File(r.psk) else None,
      if Vpn(r.kind) then File(TokenSecret(r.totpSecret)) else None,
      if r.kind.Ssh? then File(r.sshKey) else None)
  }

  /** The environment of `docker run`: a stored pin beats trust-on-first-use. */
  function EnvOf(r: Request, pin: Option<string>): Env {
    var openPin := r.kind.OpenConnect? && r.servercert == "";
    var stored := openPin && pin.Some? && IsPin(pin.value);
    Env(r.kind, if stored then pin.value else r.servercert, openPin && !stored && r.tofu, r.totp, r.restart)
  }

  function Boots(env: Env, given: Creds, start: nat): Container {
    Container(env, given, start, Boot, env.servercert, [])
  }

  predicate Live(s: State, p: Phase) {
    s.container.Some? && s.container.value.phase == p
  }

  predicate CredsSuffice(kind: Kind, creds: Creds) {
    match kind
    case OpenConnect => creds.password.Some?
    case IPsec => creds.password.Some? && creds.psk.Some?
    case Ssh => creds.sshKey.Some? || creds.password.Some?
    case Local => true
  }

  /** A code must come from the host: TOTP is on and no usable secret file is there. */
  predicate Manual(env: Env, auth: Option<Auth>) {
    env.totp && (auth.None? || auth.value.creds.totpSecret.None?)
  }

  function AfterCheck(c: Container, auth: Option<Auth>): Phase {
    match c.env.kind
    case OpenConnect => SelectingPin
    case IPsec => if Manual(c.env, auth) then Announcing else Secrets
    case Ssh => Connecting
    case Local => Purging
  }

  function PasswordLine(auth: Option<Auth>): seq<Line> {
    if auth.Some? && auth.value.creds.password.Some? then [Password(auth.value.creds.password.value)] else []
  }

  predicate LearnedUsable(auth: Option<Auth>) {
    auth.Some? && auth.value.learned.Some? && IsPin(auth.value.learned.value)
  }

  function OrEmpty(pin: Option<string>): string {
    if pin.Some? then pin.value else ""
  }

  function PurgedCreds(c: Creds): Creds {
    c.(password := None, totpSecret := None, sshKey := None)
  }

  // ------------------------------------------------------------ the machine

  predicate Enabled(s: State, a: Action) {
    match a
    case Up(r) => !Refused(r) && (s.container.None? || Live(s, Exited))
    case Down => s.container.Some?
    case DropAuth => s.container.Some? && !s.container.value.env.keep
    case EditPin(_) => true
    case SeeReady => s.auth.Some? && s.auth.value.ready
    case PersistTrust => s.sawReady
    case SeeMarker => s.auth.Some? && s.auth.value.awaiting.Some?
    case WriteCode(seen, text) => seen in s.prompts && text != ""
    case Start => Live(s, Exited)
    case Cleanup => Live(s, Boot) && s.auth.Some?
    case CheckCreds => Live(s, Check) && s.auth.Some? && CredsSuffice(s.container.value.env.kind, s.auth.value.creds)
    case SelectPin => Live(s, SelectingPin)
    case Probe(printed) => Live(s, Probing) && (printed.Some? ==> IsPin(printed.value))
    case SendPassword => Live(s, Dialing)
    case Announce => Live(s, Announcing)
    case FeedCode => Live(s, Waiting) && s.auth.Some? && s.auth.value.code.Some?
    case RemoveCode => Live(s, Fed)
    case WriteSecrets => Live(s, Secrets)
    case Connected => Live(s, Connecting)
    case PurgeCreds => Live(s, Purging)
    case TouchReady => Live(s, Marking)
    case Exit => s.container.Some? && !Live(s, Exited)
  }

  /** The auth directory after the action; a missing directory stays missing. */
  function DoAuth(s: State, a: Action): Option<Auth>
    requires Enabled(s, a)
  {
    if a.Up? then Some(Auth(Written(a.r), None, None, false, None))
    else if a.Down? || a.DropAuth? || s.auth.None? then None
    else
      var d := s.auth.value;
      match a
      case WriteCode(seen, text) =>
        Some(d.(code := Some(Code(text, seen, s.starts, d.awaiting.Some?, Live(s, Waiting) || Live(s, Fed)))))
      case Cleanup => Some(d.(code := None, awaiting := None, ready := false))
      case Probe(printed) => Some(if printed.Some? then d.(learned := printed) else d)
      case SendPassword =>
        Some(if s.container.value.env.keep then d else d.(creds := d.creds.(password := None)))
      case Announce => Some(d.(awaiting := Some(s.container.value.start)))
      case RemoveCode => Some(d.(code := None, awaiting := None))
      case WriteSecrets =>
        Some(if s.container.value.env.keep then d else d.(creds := d.creds.(password := None, psk := None)))
      case PurgeCreds =>
        Some(if s.container.value.env.keep then d else d.(creds := PurgedCreds(d.creds), code := None))
      case TouchReady => Some(d.(ready := true))
      case _ => Some(d)
  }

  function DoContainer(s: State, a: Action): Option<Container>
    requires Enabled(s, a)
  {
    if a.Up? then Some(Boots(EnvOf(a.r, s.pin), Written(a.r), s.starts + 1))
    else if a.Down? || s.container.None? then None
    else
      var c := s.container.value;
      match a
      case Start => Some(Boots(c.env, c.given, s.starts + 1))
      case Cleanup => Some(c.(phase := Check))
      case CheckCreds =>
        Some(c.(phase := AfterCheck(c, s.auth), stdin := if c.env.kind.IPsec? then PasswordLine(s.auth) else []))
      case SelectPin =>
        if c.enforced != "" || !c.env.tofu then Some(c.(phase := Dialing))
        else if LearnedUsable(s.auth) then Some(c.(phase := Dialing, enforced := s.auth.value.learned.value))
        else Some(c.(phase := Probing))
      case Probe(printed) => Some(c.(phase := Dialing, enforced := OrEmpty(printed)))
      case SendPassword =>
        Some(c.(stdin := PasswordLine(s.auth), phase := if Manual(c.env, s.auth) then Announcing else Connecting))
      case Announce => Some(c.(phase := Waiting))
      case FeedCode => Some(c.(stdin := c.stdin + [Verification(s.auth.value.code.value)], phase := Fed))
      case RemoveCode => Some(c.(phase := if c.env.kind.IPsec? then Secrets else Connecting))
      case WriteSecrets => Some(c.(phase := Connecting))
      case Connected => Some(c.(phase := Purging))
      case PurgeCreds => Some(c.(phase := Marking))
      case TouchReady => Some(c.(phase := Running))
      case Exit => Some(c.(phase := Exited))
      case _ => Some(c)
  }

  function Do(s: State, a: Action): State
    requires Enabled(s, a)
  {
    State(
      if a.EditPin? then a.pin
      else if a.PersistTrust? && LearnedUsable(s.auth) then s.auth.value.learned
      else s.pin,
      DoAuth(s, a),
      DoContainer(s, a),
      if a.Up? || a.Start? then s.starts + 1 else s.starts,
      if a.Up? then s.ups + 1 else s.ups,
      if a.SeeMarker? then s.prompts + {s.auth.value.awaiting.value} else s.prompts,
      s.sawReady || a.SeeReady?)
  }

  /** `run` can be executed from `s`. */
  predicate Runs(s: State, run: seq<Action>)
    decreases |run|
  {
    run == [] || (Enabled(s, run[0]) && Runs(Do(s, run[0]), run[1..]))
  }

  function After(s: State, run: seq<Action>): State
    requires Runs(s, run)
    decreases |run|
  {
    if run == [] then s else After(Do(s, run[0]), run[1..])
  }

  // ------------------------------------------------------------ invariants

  /** After the start-up cleanup and before the exit. */
  predicate Active(p: Phase) { !p.Exited? && !p.Boot? }

  /** The marker of this start exists, or existed earlier in this start. */
  predicate Announced(p: Phase) {
    p.Waiting? || p.Fed? || p.Secrets? || p.Connecting? || p.Purging? || p.Marking? || p.Running? || p.Exited?
  }

  predicate MarkerOk(s: State) {
    && (s.container.None? ==> s.auth.None?)
    && (forall n :: n in s.prompts ==> n <= s.starts)
    && (s.container.Some? ==>
        var c := s.container.value;
        && c.start == s.starts
        && (c.start in s.prompts ==> Announced(c.phase))
        && (s.auth.Some? && s.auth.value.awaiting.Some? ==>
            s.auth.value.awaiting.value <= c.start
            && (s.auth.value.awaiting.value == c.start ==> Announced(c.phase)))
        && (s.auth.Some? && Active(c.phase) ==>
            s.auth.value.awaiting == if c.phase.Waiting? || c.phase.Fed? then Some(c.start) else None)
        && (s.auth.Some? && Active(c.phase) ==> (s.auth.value.ready <==> c.phase.Running?)))
  }

  /** A code that can still be consumed was written during this start. */
  predicate CodeOk(s: State) {
    s.container.Some? && s.auth.Some? && s.auth.value.code.Some? && Active(s.container.value.phase) ==>
      var c, code := s.container.value, s.auth.value.code.value;
      && code.writtenAt == c.start
      && code.seenAt <= c.start
      && (code.marker <==> code.announced)
      && (c.phase.Waiting? && code.seenAt == c.start ==> code.marker)
      && (!Announced(c.phase) ==> !code.marker && code.seenAt < c.start)
  }

  /** A consumed code was written during start `n`; after n's announcement exactly when the
      marker was on disk at the write, which is so whenever its writer saw n's marker. */
  predicate Fresh(code: Code, n: nat) {
    && code.writtenAt == n && code.seenAt <= n
    && (code.announced <==> code.marker)
    && (code.seenAt == n ==> code.marker)
  }

  predicate StdinShape(lines: seq<Line>, given: Creds, n: nat) {
    || lines == []
    || (|lines| == 1 && lines[0].Password? && given.password == Some(lines[0].text))
    || (|lines| == 2 && lines[0].Password? && given.password == Some(lines[0].text)
        && lines[1].Verification? && Fresh(lines[1].code, n))
  }

  predicate StdinOk(s: State) {
    s.container.Some? && Vpn(s.container.value.env.kind) ==>
      var c := s.container.value;
      && StdinShape(c.stdin, c.given, c.start)
      && (|c.stdin| == 2 ==> c.env.totp)
      && (c.phase.Boot? || c.phase.Check? || c.phase.SelectingPin? || c.phase.Probing? || c.phase.Dialing? ==>
          c.stdin == [])
      && (c.phase.Announcing? || c.phase.Waiting? ==> |c.stdin| <= 1 && (s.auth.Some? ==> |c.stdin| == 1))
  }

  predicate OneOf(file: Option<string>, given: Option<string>) { file == None || file == given }

  predicate NoCreds(c: Creds) { c == Creds(None, None, None, None) }

  predicate CredsOk(s: State) {
    s.container.Some? && s.auth.Some? ==>
      var c, f := s.container.value, s.auth.value.creds;
      && OneOf(f.password, c.given.password) && OneOf(f.psk, c.given.psk)
      && OneOf(f.totpSecret, c.given.totpSecret) && OneOf(f.sshKey, c.given.sshKey)
      && (c.given.psk.Some? ==> c.env.kind.IPsec?)
      && (c.env.keep ==> f == c.given)
      && (c.env.kind.OpenConnect? && (c.phase.SelectingPin? || c.phase.Probing? || c.phase.Dialing?) ==>
          f.password.Some?)
      && (!c.env.keep && (c.phase.Connecting? || c.phase.Purging?) ==> f.psk.None?)
      && (!c.env.keep && (c.phase.Marking? || c.phase.Running? || s.auth.value.ready) ==> NoCreds(f))
  }

  predicate PinChosen(p: Phase) {
    p.Dialing? || p.Announcing? || p.Waiting? || p.Fed? || p.Connecting? || p.Purging? || p.Marking? || p.Running?
  }

  /** Which phases a kind of tunnel goes through. */
  predicate PhaseOk(s: State) {
    s.container.Some? ==>
      var c := s.container.value;
      && (c.phase.SelectingPin? || c.phase.Probing? || c.phase.Dialing? ==> c.env.kind.OpenConnect?)
      && (c.phase.Announcing? || c.phase.Waiting? || c.phase.Fed? ==> Vpn(c.env.kind) && c.env.totp)
      && (c.env.keep ==> s.auth.Some?)
      && (c.env.keep && c.env.totp && Vpn(c.env.kind) ==> c.given.totpSecret.Some?)
      && (c.phase.Announcing? || c.phase.Waiting? || c.phase.Fed? ==> !c.env.keep)
      && CredsSuffice(c.env.kind, c.given)
      && (c.phase.Secrets? ==> c.env.kind.IPsec?)
      && (c.phase.Probing? ==> c.env.tofu)
      && (c.env.tofu ==> c.env.kind.OpenConnect? && c.env.servercert == "")
  }

  predicate PinOk(s: State) {
    s.container.Some? ==>
      var c := s.container.value;
      && (c.env.servercert != "" ==> c.enforced == c.env.servercert)
      && (s.auth.Some? && s.auth.value.learned.Some? ==>
          && c.env.tofu && IsPin(s.auth.value.learned.value)
          && !c.phase.Probing?
          && (PinChosen(c.phase) ==> c.enforced == s.auth.value.learned.value))
      && (c.phase.Boot? || c.phase.Check? || c.phase.SelectingPin? ==> c.enforced == c.env.servercert)
      && (!c.env.tofu ==> c.enforced == c.env.servercert)
  }

  predicate Inv(s: State) {
    PhaseOk(s) && MarkerOk(s) && CodeOk(s) && StdinOk(s) && CredsOk(s) && PinOk(s)
  }

  /** The steps of the CLI, and a container start, against those of the entrypoint. */
  predicate HostAction(a: Action) {
    || a.Up? || a.Down? || a.DropAuth? || a.EditPin? || a.SeeReady? || a.PersistTrust? || a.SeeMarker?
    || a.WriteCode? || a.Start?
  }

  predicate RemovesCreds(a: Action) { a.SendPassword? || a.WriteSecrets? || a.PurgeCreds? }

  lemma PhaseStep(s: State, a: Action)
    requires PhaseOk(s) && CredsOk(s) && Enabled(s, a)
    ensures PhaseOk(Do(s, a))
  {
  }

  lemma MarkerAfterHost(s: State, a: Action)
    requires PhaseOk(s) && MarkerOk(s) && Enabled(s, a) && HostAction(a)
    ensures MarkerOk(Do(s, a))
  {
  }

  lemma MarkerAfterContainer(s: State, a: Action)
    requires PhaseOk(s) && MarkerOk(s) && Enabled(s, a) && !HostAction(a)
    ensures MarkerOk(Do(s, a))
  {
  }

  lemma MarkerStep(s: State, a: Action)
    requires PhaseOk(s) && MarkerOk(s) && Enabled(s, a)
    ensures MarkerOk(Do(s, a))
  {
    if HostAction(a) {
      MarkerAfterHost(s, a);
    } else {
      MarkerAfterContainer(s, a);
    }
  }

  lemma CodeAfterHost(s: State, a: Action)
    requires PhaseOk(s) && MarkerOk(s) && CodeOk(s) && Enabled(s, a) && HostAction(a)
    ensures CodeOk(Do(s, a))
  {
  }

  lemma CodeAfterContainer(s: State, a: Action)
    requires PhaseOk(s) && MarkerOk(s) && CodeOk(s) && Enabled(s, a) && !HostAction(a)
    ensures CodeOk(Do(s, a))
  {
  }

  lemma CodeStep(s: State, a: Action)
    requires PhaseOk(s) && MarkerOk(s) && CodeOk(s) && Enabled(s, a)
    ensures CodeOk(Do(s, a))
  {
    if HostAction(a) {
      CodeAfterHost(s, a);
    } else {
      CodeAfterContainer(s, a);
    }
  }

  lemma StdinAfterHost(s: State, a: Action)
    requires PhaseOk(s) && StdinOk(s) && Enabled(s, a) && HostAction(a)
    ensures StdinOk(Do(s, a))
  {
  }

  lemma StdinAfterContainer(s: State, a: Action)
    requires PhaseOk(s) && CodeOk(s) && CredsOk(s) && StdinOk(s) && Enabled(s, a) && !HostAction(a)
    ensures StdinOk(Do(s, a))
  {
  }

  lemma StdinStep(s: State, a: Action)
    requires PhaseOk(s) && MarkerOk(s) && CodeOk(s) && CredsOk(s) && StdinOk(s) && Enabled(s, a)
    ensures StdinOk(Do(s, a))
  {
    if HostAction(a) {
      StdinAfterHost(s, a);
    } else {
      StdinAfterContainer(s, a);
    }
  }

  lemma CredsAfterHost(s: State, a: Action)
    requires PhaseOk(s) && MarkerOk(s) && CredsOk(s) && Enabled(s, a) && HostAction(a)
    ensures CredsOk(Do(s, a))
  {
  }

  lemma CredsAfterRemoval(s: State, a: Action)
    requires PhaseOk(s) && MarkerOk(s) && CredsOk(s) && Enabled(s, a) && RemovesCreds(a)
    ensures CredsOk(Do(s, a))
  {
  }

  lemma CredsAfterContainer(s: State, a: Action)
    requires PhaseOk(s) && MarkerOk(s) && CredsOk(s) && Enabled(s, a) && !HostAction(a) && !RemovesCreds(a)
    ensures CredsOk(Do(s, a))
  {
  }

  lemma CredsStep(s: State, a: Action)
    requires PhaseOk(s) && MarkerOk(s) && CredsOk(s) && Enabled(s, a)
    ensures CredsOk(Do(s, a))
  {
    if HostAction(a) {
      CredsAfterHost(s, a);
    } else if RemovesCreds(a) {
      CredsAfterRemoval(s, a);
    } else {
      CredsAfterContainer(s, a);
    }
  }

  lemma PinStep(s: State, a: Action)
    requires PhaseOk(s) && PinOk(s) && Enabled(s, a)
    ensures PinOk(Do(s, a))
  {
  }

  lemma InvStep(s: State, a: Action)
    requires Inv(s) && Enabled(s, a)
    ensures Inv(Do(s, a))
  {
    PhaseStep(s, a);
    MarkerStep(s, a);
    CodeStep(s, a);
    StdinStep(s, a);
    CredsStep(s, a);
    PinStep(s, a);
  }

  lemma {:induction false} InvRun(s: State, run: seq<Action>)
    requires Inv(s) && Runs(s, run)
    ensures Inv(After(s, run))
    decreases |run|
  {
    if run != [] {
      InvStep(s, run[0]);
      InvRun(Do(s, run[0]), run[1..]);
    }
  }

  // ------------------------------------------------------------ code and credentials

  /** In every run the tunnel's stdin is empty, the password `up` wrote, or that password and
      one code. The code was written during this very start, hence after its clean-up; it was
      written after the announcement if and only if the marker was on disk at the write. */
  lemma StdinInEveryRun(run: seq<Action>)
    requires Runs(INIT, run) && After(INIT, run).container.Some?
    requires After(INIT, run).container.value.env.kind.OpenConnect?
    ensures var c := After(INIT, run).container.value;
            StdinShape(c.stdin, c.given, c.start) && (|c.stdin| == 2 ==> c.env.totp)
  {
    InvRun(INIT, run);
  }

  /** The marker is on disk exactly while the running start has announced and not yet consumed
      a code: writing while it is there is the exact condition for writing after the
      announcement. */
  lemma MarkerIffAwaiting(run: seq<Action>)
    requires Runs(INIT, run)
    requires var s := After(INIT, run); s.container.Some? && s.auth.Some? && Active(s.container.value.phase)
    ensures var s := After(INIT, run); var c := s.container.value;
            && (s.auth.value.awaiting.Some? <==> c.phase.Waiting? || c.phase.Fed?)
            && (s.auth.value.awaiting.Some? ==> s.auth.value.awaiting.value == c.start)
            && (s.auth.value.ready <==> c.phase.Running?)
  {
    InvRun(INIT, run);
  }

  const MANUAL: Request := Request(OpenConnect, false, true, "", false, "pw", "", "", "")

  /** A command that looks at the marker, is overtaken by a down and a new up, and only then
      writes: its code is consumed although it was written before the new announcement. */
  const OVERTAKEN_1: seq<Action> := [Up(MANUAL), Cleanup, CheckCreds, SelectPin]
  const OVERTAKEN_2: seq<Action> := [SendPassword, Announce, SeeMarker, Down]
  const OVERTAKEN_3: seq<Action> := [Up(MANUAL), Cleanup, WriteCode(1, "1234"), CheckCreds]
  const OVERTAKEN_4: seq<Action> := [SelectPin, SendPassword, Announce, FeedCode]
  const OVERTAKEN: seq<Action> := OVERTAKEN_1 + OVERTAKEN_2 + OVERTAKEN_3 + OVERTAKEN_4

  lemma {:induction false} RunsConcat(s: State, a: seq<Action>, b: seq<Action>)
    requires Runs(s, a) && Runs(After(s, a), b)
    ensures Runs(s, a + b) && After(s, a + b) == After(After(s, a), b)
    decreases |a|
  {
    if a == [] {
      assert a + b == b;
    } else {
      RunsConcat(Do(s, a[0]), a[1..], b);
      assert (a + b)[1..] == a[1..] + b;
    }
  }

  lemma OneStep(s: State, a: Action, rest: seq<Action>)
    requires Enabled(s, a) && Runs(Do(s, a), rest)
    ensures Runs(s, [a] + rest) && After(s, [a] + rest) == After(Do(s, a), rest)
  {
    assert ([a] + rest)[1..] == rest;
  }

  predicate Leads(s: State, a: Action, t: State) { Enabled(s, a) && Do(s, a) == t }

  lemma FourSteps(s: State, run: seq<Action>, s1: State, s2: State, s3: State, s4: State)
    requires |run| == 4
    requires Leads(s, run[0], s1) && Leads(s1, run[1], s2) && Leads(s2, run[2], s3) && Leads(s3, run[3], s4)
    ensures Runs(s, run) && After(s, run) == s4
  {
    OneStep(s3, run[3], []);
    OneStep(s2, run[2], [run[3]]);
    OneStep(s1, run[1], [run[2]] + [run[3]]);
    OneStep(s, run[0], [run[1]] + ([run[2]] + [run[3]]));
    assert run == [run[0]] + ([run[1]] + ([run[2]] + [run[3]]));
  }

  /** A manual-code container with the given password file, code file and marker. */
  function Manually(password: Option<string>, code: Option<Code>, awaiting: Option<nat>,
                    start: nat, phase: Phase, stdin: seq<Line>, prompts: set<nat>): State {
    State(None,
          Some(Auth(Creds(password, None, None, None), code, awaiting, false, None)),
          Some(Container(Env(OpenConnect, "", false, true, false), Creds(Some("pw"), None, None, None),
                         start, phase, "", stdin)),
          start, start, prompts, false)
  }

  const GONE: State := State(None, None, None, 1, 1, {1}, false)
  const PLANTED: Code := Code("1234", 1, 2, false, false)

  lemma OvertakenStart()
    ensures Runs(INIT, OVERTAKEN_1)
    ensures After(INIT, OVERTAKEN_1) == Manually(Some("pw"), None, None, 1, Dialing, [], {})
  {
    FourSteps(INIT, OVERTAKEN_1,
      Manually(Some("pw"), None, None, 1, Boot, [], {}), Manually(Some("pw"), None, None, 1, Check, [], {}),
      Manually(Some("pw"), None, None, 1, SelectingPin, [], {}), Manually(Some("pw"), None, None, 1, Dialing, [], {}));
  }

  lemma OvertakenSeen()
    ensures Runs(Manually(Some("pw"), None, None, 1, Dialing, [], {}), OVERTAKEN_2)
    ensures After(Manually(Some("pw"), None, None, 1, Dialing, [], {}), OVERTAKEN_2) == GONE
  {
    FourSteps(Manually(Some("pw"), None, None, 1, Dialing, [], {}), OVERTAKEN_2,
      Manually(None, None, None, 1, Announcing, [Password("pw")], {}),
      Manually(None, None, Some(1), 1, Waiting, [Password("pw")], {}),
      Manually(None, None, Some(1), 1, Waiting, [Password("pw")], {1}), GONE);
  }

  lemma OvertakenWrite()
    ensures Runs(GONE, OVERTAKEN_3)
    ensures After(GONE, OVERTAKEN_3) == Manually(Some("pw"), Some(PLANTED), None, 2, SelectingPin, [], {1})
  {
    FourSteps(GONE, OVERTAKEN_3,
      Manually(Some("pw"), None, None, 2, Boot, [], {1}), Manually(Some("pw"), None, None, 2, Check, [], {1}),
      Manually(Some("pw"), Some(PLANTED), None, 2, Check, [], {1}),
      Manually(Some("pw"), Some(PLANTED), None, 2, SelectingPin, [], {1}));
  }

  lemma OvertakenFed()
    ensures Runs(Manually(Some("pw"), Some(PLANTED), None, 2, SelectingPin, [], {1}), OVERTAKEN_4)
    ensures After(Manually(Some("pw"), Some(PLANTED), None, 2, SelectingPin, [], {1}), OVERTAKEN_4)
         == Manually(None, Some(PLANTED), Some(2), 2, Fed, [Password("pw"), Verification(PLANTED)], {1})
  {
    assert [Password("pw")] + [Verification(PLANTED)] == [Password("pw"), Verification(PLANTED)];
    FourSteps(Manually(Some("pw"), Some(PLANTED), None, 2, SelectingPin, [], {1}), OVERTAKEN_4,
      Manually(Some("pw"), Some(PLANTED), None, 2, Dialing, [], {1}),
      Manually(None, Some(PLANTED), None, 2, Announcing, [Password("pw")], {1}),
      Manually(None, Some(PLANTED), Some(2), 2, Waiting, [Password("pw")], {1}),
      Manually(None, Some(PLANTED), Some(2), 2, Fed, [Password("pw"), Verification(PLANTED)], {1}));
  }

  lemma OvertakenCodeIsFed()
    ensures Runs(INIT, OVERTAKEN) && After(INIT, OVERTAKEN).container.Some?
    ensures After(INIT, OVERTAKEN).container.value.start == 2
    ensures After(INIT, OVERTAKEN).container.value.stdin
         == [Password("pw"), Verification(Code("1234", 1, 2, false, false))]
  {
    OvertakenStart();
    OvertakenSeen();
    RunsConcat(INIT, OVERTAKEN_1, OVERTAKEN_2);
    OvertakenWrite();
    RunsConcat(INIT, OVERTAKEN_1 + OVERTAKEN_2, OVERTAKEN_3);
    OvertakenFed();
    RunsConcat(INIT, OVERTAKEN_1 + OVERTAKEN_2 + OVERTAKEN_3, OVERTAKEN_4);
  }

  /** Every restart of a restart-mode container finds the credentials `up` wrote. */
  lemma RestartKeepsCredentials(run: seq<Action>)
    requires Runs(INIT, run)
    requires var s := After(INIT, run); s.container.Some? && s.container.value.env.keep
    ensures var s := After(INIT, run);
            && s.auth.Some? && s.auth.value.creds == s.container.value.given
            && (Live(s, Boot) ==> Enabled(s, Cleanup) && Enabled(Do(s, Cleanup), CheckCreds))
  {
    InvRun(INIT, run);
  }

  /** Without KEEP_AUTH, `ready` on disk means no credential is on disk. */
  lemma ReadyMeansNoCredentials(run: seq<Action>)
    requires Runs(INIT, run)
    requires var s := After(INIT, run); s.auth.Some? && s.auth.value.ready
    ensures var s := After(INIT, run);
            s.container.Some? && (s.container.value.env.keep || NoCreds(s.auth.value.creds))
  {
    InvRun(INIT, run);
  }

  // ------------------------------------------------------------ pins

  /** Container `g` has learned `p` and, as long as the auth directory exists, sticks to it. */
  predicate Sticks(s: State, g: nat, p: string) {
    s.ups >= g && (s.ups == g && s.container.Some? && s.auth.Some? ==>
      var c := s.container.value;
      && c.env.tofu && s.auth.value.learned == Some(p) && IsPin(p)
      && !c.phase.Probing?
      && (PinChosen(c.phase) ==> c.enforced == p))
  }

  lemma SticksStep(s: State, a: Action, g: nat, p: string)
    requires Inv(s) && Enabled(s, a) && Sticks(s, g, p)
    ensures Sticks(Do(s, a), g, p)
  {
  }

  lemma {:induction false} SticksRun(s: State, run: seq<Action>, g: nat, p: string)
    requires Inv(s) && Runs(s, run) && Sticks(s, g, p)
    ensures Sticks(After(s, run), g, p)
    decreases |run|
  {
    if run != [] {
      InvStep(s, run[0]);
      SticksStep(s, run[0], g, p);
      SticksRun(Do(s, run[0]), run[1..], g, p);
    }
  }

  /** Pin safety inside one container: once a trust-on-first-use start has learned a pin, every
      later pin selection of that container enforces it without probing, and the learned file
      keeps it, over any number of crashes and restarts. In restart mode the auth directory,
      and so the pin, is always there. */
  lemma LearnedPinIsKept(before: seq<Action>, p: string, later: seq<Action>)
    requires Runs(INIT, before)
    requires After(INIT, before).auth.Some? && Enabled(After(INIT, before), Probe(Some(p)))
    requires Runs(Do(After(INIT, before), Probe(Some(p))), later)
    ensures var s0 := After(INIT, before);
            var s := After(Do(s0, Probe(Some(p))), later);
            s.ups == s0.ups && s.container.Some? ==>
              && (s.container.value.env.keep ==> s.auth.Some?)
              && (s.auth.Some? ==>
                  && s.auth.value.learned == Some(p)
                  && !Live(s, Probing)
                  && (PinChosen(s.container.value.phase) ==> s.container.value.enforced == p)
                  && (Live(s, SelectingPin) ==>
                      Live(Do(s, SelectPin), Dialing) && Do(s, SelectPin).container.value.enforced == p))
  {
    InvRun(INIT, before);
    var s0 := After(INIT, before);
    var s1 := Do(s0, Probe(Some(p)));
    InvStep(s0, Probe(Some(p)));
    SticksRun(s1, later, s0.ups, p);
    InvRun(s1, later);
  }

  /** The host has stored `p`, and nothing in the auth directory contradicts it. */
  predicate Stored(s: State, p: string) {
    && s.pin == Some(p) && IsPin(p)
    && (s.auth.Some? && s.auth.value.learned.Some? ==> s.auth.value.learned == Some(p))
    && (s.container.Some? && s.auth.Some? && s.container.value.env.tofu ==> s.auth.value.learned == Some(p))
  }

  predicate NoPinEdit(run: seq<Action>) {
    forall i :: 0 <= i < |run| ==> !run[i].EditPin?
  }

  lemma StoredStep(s: State, a: Action, p: string)
    requires Inv(s) && Enabled(s, a) && Stored(s, p) && !a.EditPin?
    ensures Stored(Do(s, a), p)
  {
  }

  lemma {:induction false} StoredRun(s: State, run: seq<Action>, p: string)
    requires Inv(s) && Runs(s, run) && Stored(s, p) && NoPinEdit(run)
    ensures Stored(After(s, run), p)
    decreases |run|
  {
    if run != [] {
      InvStep(s, run[0]);
      StoredStep(s, run[0], p);
      StoredRun(Do(s, run[0]), run[1..], p);
    }
  }

  /** Container `g` was started with `p` as its certificate pin. */
  predicate StartedWith(s: State, g: nat, p: string) {
    s.ups >= g && (s.ups == g && s.container.Some? ==> s.container.value.env.servercert == p)
  }

  lemma {:induction false} StartedWithRun(s: State, run: seq<Action>, g: nat, p: string)
    requires Runs(s, run) && StartedWith(s, g, p)
    ensures StartedWith(After(s, run), g, p)
    decreases |run|
  {
    if run != [] {
      StartedWithRun(Do(s, run[0]), run[1..], g, p);
    }
  }

  /** Pin safety across containers: once the CLI has persisted a learned pin, every later `up`
      of an openconnect tunnel without an explicit servercert starts a container that enforces
      that pin at every point of its life and never learns another, and the stored pin stays,
      until somebody edits or deletes the pin file. */
  lemma PersistedPinIsEnforced(before: seq<Action>, between: seq<Action>, r: Request, later: seq<Action>)
    requires Runs(INIT, before)
    requires Enabled(After(INIT, before), PersistTrust) && LearnedUsable(After(INIT, before).auth)
    requires Runs(Do(After(INIT, before), PersistTrust), between) && NoPinEdit(between)
    requires r.kind.OpenConnect? && r.servercert == ""
    requires Enabled(After(Do(After(INIT, before), PersistTrust), between), Up(r))
    requires Runs(Do(After(Do(After(INIT, before), PersistTrust), between), Up(r)), later)
    ensures var s0 := After(INIT, before);
            var p := s0.auth.value.learned.value;
            var up := After(Do(s0, PersistTrust), between);
            var s := After(Do(up, Up(r)), later);
            && up.pin == Some(p)
            && (NoPinEdit(later) ==> s.pin == Some(p))
            && (s.ups == up.ups + 1 && s.container.Some? ==>
                && s.container.value.enforced == p && !s.container.value.env.tofu
                && (s.auth.Some? ==> s.auth.value.learned.None?))
  {
    var s0 := After(INIT, before);
    var p := s0.auth.value.learned.value;
    InvRun(INIT, before);
    InvStep(s0, PersistTrust);
    var s1 := Do(s0, PersistTrust);
    assert Stored(s1, p) by {
      assert s0.container.Some?;
    }
    StoredRun(s1, between, p);
    InvRun(s1, between);
    var up := After(s1, between);
    InvStep(up, Up(r));
    var s2 := Do(up, Up(r));
    StartedWithRun(s2, later, up.ups + 1, p);
    InvRun(s2, later);
    StoredStep(up, Up(r), p);
    if NoPinEdit(later) {
      StoredRun(s2, later, p);
    }
  }
}
