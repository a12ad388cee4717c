# t-forward, verified

t-forward manages VPN and SSH tunnels in three places that have to agree: a bash CLI on the
host (`t-forward`), a bash entrypoint in each tunnel's container (`entrypoint.sh`), and a Go
daemon with a web panel (`web/`) that reads the same YAML configs. This project models the
places where they meet, and the daemon's lock-protected state, and proves what the code
promises there.

`dafny verify dfyconfig.toml` checks everything.

## What is modelled

| file | part of the system |
|---|---|
| `Text.dfy` | decimal numerals, the four shell expansions around one separator, word splitting |
| `Forwards.dfy` | the forward pipeline: config, tokens, `parse_forward`, numbering, the FORWARDS string, relays, and the daemon's own flattening |
| `Publication.dfy` | where each forward is published and how the panel shows it, read off the config's own texts |
| `JumpHops.dfy` | SSH jump hops printed by CLI and daemon, parsed by the entrypoint |
| `Handshake.dfy` | the auth directory protocol as a state machine: up, start, clean-up, pin selection, probe, password, code, ready, persist, crash, restart, down |
| `HandshakeUps.dfy` | what a request to `up` carries into its container, which pin that enforces, and that every sound request can connect and reconnect |
| `HostWait.dfy` | the host's wait loop with its reset counter |
| `ConfCache.dfy`, `ConfAliasing.dfy` | the config cache: interleaved stat, lookup, read and store; and who owns which slice |
| `Tailers.dfy`, `Notify.dfy` | the log-tailer registry; the up/down edge detector |
| `StateSlot.dfy`, `EventRing.dfy` | the SSE hub: coalesce-latest slot and lossy queue; event ring and polling cursor |
| `Lockout.dfy`, `Sessions.dfy`, `AdminGate.dfy` | the admin gate: failed-PIN back-off, session map, and the class that holds both |
| `ScanSnapshots.dfy` | the scanner's copy-before-mutate snapshots |
| `Glob.dfy`, `ConfDocument.dfy`, `EditOrder.dfy`, `EditConfluence.dfy`, `ConfEdit.dfy` | the config editor: yq's pattern match, validation, yq expressions as document functions, their effect in closed form, and when the order of the map walks matters |
| `Slug.dfy` | the tunnel slug, computed over runes by the daemon and over bytes by the CLI |
| `MailedCode.dfy` | a mailed one-time code: helper pattern, daemon pattern, CLI check |
| `Subnets.dfy` | the most specific network around an address |

Code that updates variables or fields in place is a method or a class here, proved against a
specification function; the theorems are then about those functions. Protocols and anything
that interleaves are state machines whose runs are arbitrary sequences of atomic steps.

## Main results

- **Forward fidelity** (`Forwards.EndToEnd`). For every well-formed config that `up` accepts,
  the i-th forward the daemon shows names exactly the remote that the entrypoint connects
  container port 10001+i to, and its local side is the address Docker publishes for that port.
  `Forwards.UpAcceptsIff` says exactly which configs are accepted, and
  `Publication.PublishedWhereAsked` on which bind and port each forward is published.
- **Pins.** A pin learned on first use is enforced by every later start of that container and
  the learned file keeps it (`Handshake.LearnedPinIsKept`); once persisted it is enforced by
  every later `up` without an explicit servercert, until someone edits the pin file
  (`Handshake.PersistedPinIsEnforced`).
- **Pin choice.** An explicit servercert is enforced and nothing is probed; else a stored pin is;
  else, without trust on first use, nothing (`HandshakeUps.ExplicitPinIsEnforced`,
  `StoredPinIsEnforced`, `NothingIsEnforced`). Every request `up` accepts can bring its tunnel up,
  and a crashed one in restart mode can always come back (`EverySoundUpCanConnect`,
  `CrashedCanReconnect`).
- **Codes and credentials.** Standard input of an openconnect run is the password, then at
  most one code written during this start (`Handshake.StdinInEveryRun`); `ready` without
  KEEP_AUTH means that no credential is left (`Handshake.ReadyMeansNoCredentials`).
- **Config cache.** Calls are linearizable although stat and read are separate and a slow
  reader may overwrite a newer entry (`ConfCache.CallsAreLinearizable`).
- **Config edits.** All orders of the map walks give one document, up to the order of the subnets
  list, if and only if no two keys of the batch that can reach one host or forward set a field of
  it to different values (`EditConfluence.ConfluentIff`); keys without wildcards never do
  (`EditConfluence.PlainNeverClashes`). Every batch is idempotent and leaves credentials and the
  sequence of (ip, local, remote) alone (`EditOrder.TwiceIsOnce`, `EditOrder.SkeletonIsKept`).
- **Admin gate.** The N-th evaluated wrong PIN comes at least 1023 + 900(N-15) seconds after
  the 5th (`Lockout.LockoutBound`, and this is tight); sessions refine "the last 32 minted,
  for 8 h".
- **SSE.** Coalesce-latest under every interleaving (`StateSlot.CoalesceLatest`); the poller
  misses exactly what an overrun of more than 250 events pushed out (`EventRing.PollerIsExact`).

## Where the code does less than one might expect

- *Codes can be overtaken.* `t-forward code` looks for the marker and then writes. If a `down`
  and a new `up` fall in between, the new start may consume a code written before it announced
  that it is waiting (`Handshake.OvertakenCodeIsFed`). Exactly the codes written while the
  marker is on disk were written after the announcement (`Handshake.StdinInEveryRun`).
- *Wildcard edits depend on map order.* yq's `==` reads `*` and `?` in its right operand as
  wildcards, and validation looks neither at host keys nor, beyond being non-empty, at the address
  of a forward key. A batch with host keys `*` and `10.0.0.1`, or forward keys `*:80` and
  `10.0.0.1:80`, is accepted, and what the host or forward ends up with is whatever the walk came
  to last (`EditConfluence.WildcardKeyIsOrderDependent`). `EditConfluence.Clash` is the exact check
  on the batch.
- *Jump tokens.* The words of the CLI's token list are the daemon's list exactly when no hop object
  has an explicit port 0 or the user `null` and no token holds a blank or a comma
  (`JumpHops.CliAndDaemonAgreeIff`).
- *Notifications* about a tunnel that some snapshots miss: ups minus downs falls short of the
  change of its on state by what changed over the gaps, so it balances exactly when that sums to
  nothing (`Notify.ConservedIff`; `Notify.GapLosesAnEdge` is a gap where it does not).
- *Slugs.* CLI and daemon disagree exactly on names that hold U+0130 or U+212A, which lower-case
  into ASCII for Go but not for a byte-wise `tr` (`Slug.SlugsAgreeIff`).
- *Codes from a command.* The daemon cuts a number of more than 8 digits to its first 8, where
  the mail helper passes over it (`MailedCode.LongNumberIsCut`). They find the same code exactly
  when the first run of 4 or more digits, if any, has at most 8 or happens to start with the
  helper's find (`MailedCode.PatternsAgreeIff`).

## Assumptions

- The clock never goes backwards, and moves on between two session mints. Session tokens are
  fresh.
- Distinct versions of one config file have distinct (mtime, size).
- Replacing a file by rename and writing one line are atomic; so is the read-and-replace of
  `persist_trust`. A stored pin file is one line.
- Docker publishes every `-p` argument: a fixed port as asked, an empty one wherever it likes;
  its port map is a map from container port to host address.
- In the string theorems, host addresses and remote ports hold no blank, `:` or `@`, and local
  sides no blank or `@`. No other restriction is made: what `parse_forward` refuses is refused
  in the model too.
- One `up` at a time per tunnel.
- yq's `==` compares the texts of two scalars, whatever their YAML types, the right one read as a
  pattern with `*` and `?`; a null or missing `remote` or `cidr` matches nothing, and every host has
  an `ip`. Its assignments and `*` have their documented meaning; yq calls succeed. An absent
  `subnets` key is an empty list.
- Snapshots name each tunnel once (they are built from a map keyed by tunnel). A scan's
  adapters have distinct names.
- `tr` works on bytes, and a name is valid UTF-8.

## Model

| member | source | states |
|---|---|---|
| `Text.ItoaNumeral` | t-forward:507 | A printed number is a numeral without leading zero that reads back as the number |
| `Text.CutAtLast` | t-forward:399-402 | The shell expansions around the last separator take a concatenation apart exactly where it was joined |
| `Text.WordsAcross` | t-forward:505 | Unquoted words are split at every blank, tab and line end and nowhere else |
| `Text.HostCharIs` | t-forward:409 | The host character class, spelled out |
| `Text.PiecesOfPrefixed` | t-forward:225-235 | Word splitting undoes the loop that prefixes every token with a blank, with and without the leading blank |
| `Text.PiecesOfTerminated` | entrypoint.sh:118-120 | Splitting at `;` undoes the loop that ends every item with `;` |
| `Forwards.YamlLoadForwards` | t-forward:225-235 | The read loop leaves the tokens joined by single blanks, losing none |
| `Forwards.WordsOfForwards` | t-forward:505 | The unquoted expansion in `up_one` yields exactly the tokens that yq printed, in order |
| `Forwards.ParseInvertsToken` | t-forward:396-425 | `parse_forward` takes a printed token apart into exactly the local side, address and remote port it was printed from |
| `Forwards.CheckAcceptsIff` | t-forward:403-424 | The field checks accept exactly IP/DNS host characters, a numeric remote port, and a PORT, any, empty or IPV4:PORT local side |
| `Forwards.UpAcceptsIff` | t-forward:503-512 | `up` accepts a well-formed config if and only if every forward with a remote passes those checks |
| `Forwards.UpForwards` | t-forward:502-513 | The loop fails if and only if some token does not parse; otherwise the i-th parsed forward gets container port 10001+i in both the `-p` arguments and the FORWARDS string |
| `Publication.PublishedWhereAsked` | t-forward:503-512 | For every accepted config the i-th `-p` argument has the bind of the i-th local text, the default one unless the text has its own, and its port: the written one, else a free one under restart, else none |
| `Publication.PlacesAreUnique` | t-forward:411-420 | A local text asks for one bind and one port |
| `Publication.Ipv4ShapeIff` | t-forward:418 | The bind check accepts exactly four dot-separated runs of one to three digits |
| `Forwards.StartForwards` | entrypoint.sh:115-127 | The entrypoint's loop yields one relay per non-empty `;` item, cut at `\|` |
| `Forwards.RelaysOfSpec` | entrypoint.sh:115-127 | The printed FORWARDS string parses back to one relay per forward: port 10001+i, same host, same remote port |
| `Forwards.FlattenConf` | web/conf.go:179-205 | The daemon's nested loops skip blank addresses and forwards without a remote and keep all others in config order |
| `Publication.DaemonShowsIff` | web/conf.go:179-205 | For any config, accepted or not, the daemon lists a forward exactly when an entry with a remote of a host with an address says so |
| `Publication.TrimSpaceIs` | web/conf.go:180-183 | A host's address loses the white space around it and nothing else |
| `Forwards.LocalDescribed` | web/conf.go:281-304 | For an accepted forward with a fixed port, the daemon's local side spells the very bind and port that the CLI parsed |
| `Publication.ShownWhileDown` | web/conf.go:293-302 | While down: `any` and nothing show as an automatic port on the default bind, a port on the default bind, a bind and port as written |
| `Forwards.FlattenAgree` | web/conf.go:179-205 | The two independent flattenings have the same length and agree position by position on the remote and on fixed local addresses |
| `Forwards.ResolvePublished` | web/docker.go:286-297 | In place, the local side of forward i becomes the published address of container port 10001+i when there is one; nothing else changes |
| `Forwards.EndToEnd` | web/docker.go:286-297 | For every accepted config: shown remote = the relay's target for container port 10001+i, shown local = Docker's address for it, fixed local sides already right while down, no two relays on one port |
| `JumpHops.YamlLoadJump` | t-forward:207-223 | The loop leaves the hop tokens joined by blanks |
| `JumpHops.CollectJump` | web/conf.go:253-257 | The daemon keeps the non-empty hop tokens in order |
| `JumpHops.RunSshHops` | entrypoint.sh:492-506 | The entrypoint's loop parses every blank- or comma-separated word into user, host, port with the defaults |
| `JumpHops.ParseInvertsSpell` | entrypoint.sh:495-505 | Parsing a printed hop gives its user, host and port back, with the tunnel's user and 22 where they were left out |
| `JumpHops.HopTakesApart` | entrypoint.sh:495-502 | Any word is read with its user before the first `@`, its port behind the last `:`, and the tunnel's user and 22 where they are missing |
| `JumpHops.HopsAcross` | entrypoint.sh:494 | Hops may be separated by blanks, tabs, line ends or commas |
| `JumpHops.JumpRoundTrip` | entrypoint.sh:487-511 | For any mix of string and object hops, print, join and parse recover the same hops in the same order |
| `JumpHops.TokensAgreeIff` | web/conf.go:67-77 | CLI and daemon print the same token if and only if the hop is no object with port 0 or user `null` |
| `JumpHops.CliAndDaemonAgreeIff` | t-forward:207-223 | The words of SSH_JUMP are the daemon's token list if and only if that holds of every hop and no token holds a blank or a comma |
| `JumpHops.PortZeroDiffers` | web/conf.go:72-75 | A concrete hop on which the two printers differ |
| `Handshake.InvStep` | entrypoint.sh:107-283 | Every step of host or container keeps the protocol invariant: markers, codes, standard input, credential files, pins |
| `Handshake.InvRun` | entrypoint.sh:107-283 | Hence every run of any length does |
| `Handshake.StdinInEveryRun` | entrypoint.sh:240-267 | In every run openconnect's input is nothing, the password `up` wrote, or that and one code written during this start; the code was written after the announcement if and only if the marker was on disk at the write |
| `Handshake.MarkerIffAwaiting` | entrypoint.sh:249-266 | From clean-up to exit, the marker is on disk exactly while this start waits for or feeds a code, and `ready` exactly once it runs |
| `Handshake.OvertakenCodeIsFed` | t-forward:832-836 | A concrete run in which the check-then-write of `code` is overtaken by down and up, and a code from before the announcement is fed |
| `Handshake.RestartKeepsCredentials` | t-forward:530-561 | In restart mode every start finds all credentials `up` wrote and gets past the credential check |
| `Handshake.ReadyMeansNoCredentials` | entrypoint.sh:135-142 | Whenever `ready` exists and KEEP_AUTH is off, no password, psk, TOTP secret or ssh key is in the auth directory |
| `Handshake.LearnedPinIsKept` | entrypoint.sh:190-217 | Once a start has learned a pin, over any number of restarts every later pin selection of that container enforces it without probing, and the learned file keeps it |
| `Handshake.PersistedPinIsEnforced` | t-forward:566-578 | Once the CLI has persisted a learned pin, it stays stored and every later `up` without servercert starts a container that enforces it and never learns another, until the pin file is edited |
| `HandshakeUps.RequestIsCarried` | t-forward:530-561 | While its container lives it has the mode and exactly the credentials of the request, and the first input line is the request's password |
| `HandshakeUps.ExplicitPinIsEnforced` | t-forward:566-578 | With an explicit servercert, at every point of the container's life that one is enforced, whatever is stored, and no pin is probed or learned |
| `HandshakeUps.StoredPinIsEnforced` | t-forward:566-574 | Without one, a well-formed stored pin is enforced at every point, with or without trust on first use |
| `HandshakeUps.NothingIsEnforced` | t-forward:566-578 | With neither, and no trust on first use, nothing is enforced and nothing is probed |
| `HandshakeUps.FirstUseLearns` | entrypoint.sh:199-215 | With trust on first use and nothing learned, the next selection probes, and a printed pin is enforced and learned |
| `HandshakeUps.IsPinIff` | t-forward:356 | A pin is `pin-sha256:` and one or more base64 characters |
| `HandshakeUps.RestartNeverWaits` | t-forward:488-490 | A restart-mode container never waits for a code |
| `HandshakeUps.FedCodeWasWritten` | entrypoint.sh:264-266 | A code fed to a tunnel is, unaltered, one that some host command wrote |
| `HandshakeUps.EverySoundUpCanConnect` | t-forward:480-500 | Where no tunnel of the name runs, `up` accepts exactly the sound requests, and each can reach `ready` with the right input and the right files left |
| `HandshakeUps.LivingTunnelIsLeftAlone` | t-forward:480-483 | `up` does nothing to a tunnel whose container has not exited |
| `HandshakeUps.CrashAndStart` | entrypoint.sh:107-108 | A container may crash anywhere; its next start has the same mode and credentials, no input yet, and the request's own pin |
| `HandshakeUps.CrashedCanReconnect` | entrypoint.sh:190-197 | A crashed restart-mode container can always come up again by itself, with its credentials kept |
| `HandshakeUps.PurgeRemovesAll` | entrypoint.sh:135-142 | Before `ready`, a container without KEEP_AUTH drops password, TOTP secret, key and any left-over code |
| `HandshakeUps.ReadyIsPersisted` | t-forward:673-682 | Once `ready` is seen, a learned pin is stored, a missing one leaves the stored pin, and the auth directory can be dropped unless in restart mode |
| `HandshakeUps.DownRemovesAll` | t-forward:371-377 | Tear-down removes the container and the auth directory and keeps the stored pin |
| `HostWait.WaitForTunnel` | t-forward:670-717 | The loop ends although its counter is reset; the first poll that sees the marker prompts, and hands off without a prompt allowed or aborts on an empty code, always and only then; the outcome is justified by the last poll and by no earlier one; a timeout comes exactly timeout+31 polls after the prompt |
| `ConfCache.HitIsWithin` | web/conf.go:149-158 | A cache hit returns a parse that was current between the call's stat and its lookup, whatever was stored in between |
| `ConfCache.Step` | web/conf.go:148-165 | Every write, stat, lookup, read and store of any call keeps the invariant that entries pair the stamp of one version with the parse of that or a later one |
| `ConfCache.CallsAreLinearizable` | web/conf.go:148-165 | Under any interleaving each successful call returns the parse of a version its file had at some instant of the call |
| `ConfCache.FailuresAreLinearizable` | web/conf.go:160-163 | A call fails only if its file was missing or unparseable at some instant of the call |
| `ConfCache.CachedIsNotReadAgain` | web/conf.go:149-158 | An uninterrupted call on a file cached as it stands returns the current parse after its lookup, without reading |
| `ConfCache.MissIsCached` | web/conf.go:160-265 | An uninterrupted call on a readable file that is not reads it, returns its parse and leaves it cached |
| `ConfAliasing.Docker.Lookup` | web/conf.go:152-158 | Under the lock: a hit is the entry itself, whose slice still belongs to the cache |
| `ConfAliasing.Docker.Store` | web/conf.go:260-264 | Under the lock: the entry becomes this stamp and parse, all other entries stay |
| `ConfAliasing.Docker.HandOut` | web/conf.go:265-279 | The clone after the unlock gives what the slice was parsed into, whatever other calls stored, parsed or overwrote since; the cache is as before |
| `ConfAliasing.Docker.LateClone` | web/conf.go:152-158 | A hit cloned after its entry was replaced and another caller's slice was overwritten still returns what it found |
| `ConfAliasing.Docker.TunnelFromConf` | web/conf.go:148-265 | An uninterrupted call returns a new slice holding the cached or the freshly parsed forwards; only a parsed miss changes the cache |
| `ConfAliasing.Docker.CloneForwards` | web/conf.go:268-279 | The copy is fresh and equal |
| `ConfAliasing.Docker.Overlay` | web/docker.go:289-297 | Overwriting any slice that was ever handed out leaves every cached entry as it was |
| `ConfAliasing.Docker.StateOf` | web/docker.go:274-297 | `State`'s read and in-place overlay give the resolved forwards and leave the cache holding unresolved ones |
| `Tailers.Registry.StartTailer` | web/docker.go:734-754 | Refuses if and only if an unclosed tailer is registered; otherwise the new one is live and registered, and every live tailer still is |
| `Tailers.Registry.CleanUp` | web/docker.go:760-766 | A finished tailer removes its own registration and never that of a replacement |
| `Tailers.Registry.StopTailer` | web/docker.go:771-779 | Cancels exactly the registered tailer; afterwards no follower of that container is live |
| `Tailers.OneLiveFollower` | web/docker.go:734-779 | In every valid registry two live followers of one container are one and the same, the registered one |
| `Tailers.Reach` | web/docker.go:734-779 | Any sequence of starts, exits, clean-ups, cancels and stops of any goroutines leads to a registry with at most one live follower per container |
| `Tailers.LateCleanUp` | web/docker.go:755-768 | A follower that ends, is replaced and cleans up late leaves its replacement registered and live |
| `Notify.EdgeDetector.BroadcastState` | web/docker.go:408-436 | Swaps in the map of this snapshot and sends exactly the notes that the swapped-out map calls for |
| `Notify.NotesAboutOne` | web/docker.go:423-435 | About one tunnel a call sends exactly the note of its own two states |
| `Notify.MapHolds` | web/docker.go:414-418 | What is swapped in has every tunnel of the snapshot under its own state |
| `Notify.ConservedIff` | web/docker.go:408-436 | For a tunnel in the first and last snapshot: ups minus downs = on(last) - on(first) minus what was lost over gaps, hence conserved if and only if that is 0; the kinds alternate if and only if the loss cancels out at every note |
| `Notify.NotesAreConserved` | web/docker.go:408-436 | For a tunnel in every snapshot, ups minus downs = on(last) - on(first), and the two kinds strictly alternate |
| `Notify.GapLosesAnEdge` | web/docker.go:424-427 | A concrete change across a snapshot without the tunnel, which is not reported |
| `StateSlot.Step` | web/sse.go:66-137 | Every single channel operation, registration and fan-out step keeps the hub invariant |
| `StateSlot.CoalesceLatest` | web/sse.go:66-120 | For every client and interleaving: dequeued state frames are an in-order selection since registration; the newest is pending or was the last dequeued unless its push is not done; no third send; at most one lossy frame overtakes |
| `StateSlot.FanoutNeverBlocks` | web/sse.go:86-120 | A fan-out under way can always take a step, whatever the readers do |
| `StateSlot.BroadcastsStart` | web/sse.go:105-118 | A state frame is owed to every client registered at its broadcast; a lossy frame can be offered to any client at any time |
| `StateSlot.LossyIsFifo` | web/sse.go:113-117 | Of the lossy frames a client gets exactly those offered while fewer than 64 were queued, in order, each once |
| `StateSlot.PendingGetsOut` | web/sse.go:184-215 | A reading client can dequeue a pending state frame in one step and else the oldest lossy one in two |
| `StateSlot.StaysReading` | web/sse.go:184-215 | A client reads on until it leaves or is unregistered |
| `EventRing.Hub.Record` | web/sse.go:90-104 | After any number of events the ring is the last 250 of them with contiguous numbers |
| `EventRing.Hub.ServeEvLog` | web/sse.go:141-153 | Returns the newest number and the ring's entries after the cursor |
| `EventRing.PollReturns` | web/sse.go:141-153 | A poll returns, in order, exactly the recorded events after the cursor that are among the last 250 |
| `EventRing.ReturnedAsBroadcast` | web/sse.go:96-99 | An event is returned with its text unaltered and, if a map, with its own number stamped in |
| `EventRing.PollerIsExact` | web/sse.go:89-153 | A poller that feeds the number back receives events in order, each at most once, and misses exactly those that more than 250 events between two polls pushed out |
| `Lockout.WrongRun` | web/admin.go:164-209 | In a run without a right PIN, consecutive evaluated failures from the 5th on are at least the doubling wait apart, and the lock is what the last one set |
| `Lockout.BackoffClosed` | web/admin.go:171-180 | The sum of the waits up to failure N is 1023 + 900(N-15) seconds for N of at least 15 |
| `Lockout.LockoutBound` | web/admin.go:154-209 | The N-th evaluated wrong PIN comes at least that long after the 5th |
| `Lockout.LockoutBoundIsTight` | web/admin.go:154-209 | For every N an ordered run meets the bound with equality |
| `Lockout.RightPinForgets` | web/admin.go:183-204 | An evaluated right PIN wipes the slate: afterwards the lock is as on first use; a refused one changes nothing |
| `Lockout.FirstFiveAreEvaluated` | web/admin.go:168-170 | On first use five attempts are let through at any time |
| `Sessions.EvictOk` | web/admin.go:115-125 | Evicting the soonest to expire from a full map drops the oldest of the last 32 mints, so the rest is still known and complete |
| `Sessions.LookupExact` | web/admin.go:130-145 | Looking a token up decides exactly: among the last 32 minted since the last revocation and at most 8 h old |
| `Sessions.MintOk` | web/admin.go:106-127 | Purge, evict and add take a map that matches the mint history to one that matches the longer history |
| `AdminGate.Gate.Purge` | web/admin.go:110-114 | The purge loop removes exactly the expired entries |
| `AdminGate.Gate.Evict` | web/admin.go:115-125 | The eviction loop ends and removes only the soonest-to-expire entry of a full map |
| `AdminGate.Gate.NewSession` | web/admin.go:97-128 | The mint history grows by this token, the map keeps matching it and never exceeds 32 entries |
| `AdminGate.Gate.ValidSession` | web/admin.go:130-145 | Accepts a token exactly when the specification does, and dropping an expired entry changes no later answer |
| `AdminGate.Gate.RevokeAll` | web/admin.go:147-152 | Afterwards no token is accepted at any time |
| `AdminGate.Gate.CheckPIN` | web/admin.go:190-209 | One serialised attempt: refused with the remaining wait while locked, else counted or cleared, exactly as the lockout function says |
| `ScanSnapshots.FilterSelf` | web/scan.go:385-393 | The in-place filter leaves the devices other than the host itself, in order, at the front of the same array |
| `ScanSnapshots.NotSelfKeeps` | web/scan.go:385-393 | Exactly the host's own entries go, all others stay as often and on the same side of any split |
| `ScanSnapshots.LabelledHas` | web/scan.go:184-193 | A device gets the name and tags stored under its lower-cased MAC, else under its address, else keeps its own |
| `ScanSnapshots.ToLowerIs` | web/scan.go:186 | Lower-casing maps each letter to its own and nothing else |
| `ScanSnapshots.AnnotateDevices` | web/scan.go:179-195 | The pointer loop labels every device by MAC and then by IP and touches nothing else |
| `ScanSnapshots.Scanner.LabelledCopy` | web/scan.go:167-195 | A labelled deep copy; no slice that was ever stored or broadcast changes |
| `ScanSnapshots.Scanner.Publish` | web/scan.go:344-356 | The stored snapshot shows every adapter of the scan with the stored label of every device, and every earlier snapshot is frozen |
| `ScanSnapshots.Scanner.Begin` | web/scan.go:290-357 | Nothing while another scan runs; otherwise every adapter starts with what the latest snapshot showed for its name |
| `ScanSnapshots.Scanner.Rescan` | web/scan.go:367-396 | One adapter now has the address and network just read and nmap's hosts but this one, in order; the others are as they were; all is labelled; earlier snapshots stay frozen |
| `ScanSnapshots.Scanner.Scan` | web/scan.go:290-400 | After a whole scan every untargeted adapter is as it was shown before and every targeted one has its new address, network and filtered nmap result, each device with its stored label |
| `ScanSnapshots.WantedIs` | web/scan.go:362-396 | What a scan leaves on an adapter, field by field |
| `ScanSnapshots.Scanner.ShowingIs` | web/scan.go:325-340 | What an adapter was shown with: the last result of its name, or nothing |
| `ScanSnapshots.Scanner.Reannotate` | web/scan.go:197-209 | Even in the middle of a scan only the stored snapshot's labels change, not snapshots already out nor the scan's own results |
| `ConfDocument.IsNumeric` | web/confedit.go:207-220 | Accepts exactly digit strings whose value fits a 64-bit int |
| `ConfDocument.ValidPort` | web/confedit.go:222-230 | Accepts exactly numerals without leading zero from 1 to 65535 |
| `ConfDocument.PortNumeralIsItoa` | web/confedit.go:222-230 | So accepts exactly the decimal spellings of port numbers, one per number |
| `ConfDocument.ValidCidrKey` | web/confedit.go:232-246 | Accepts exactly digits, dots and one slash that `net.ParseCIDR` takes |
| `ConfDocument.CidrShapeIff` | web/confedit.go:232-243 | The scan accepts exactly digits and dots around one slash |
| `ConfDocument.KeyOkIff` | web/confedit.go:94-99 | An accepted forward key is a non-empty address without a colon, a colon, and a port from 1 to 65535 as it is printed |
| `ConfDocument.AcceptedScalars` | web/confedit.go:70-120 | In an accepted batch no name or note has a line break and no tag any white space |
| `ConfDocument.ScalarsAreAccepted` | web/confedit.go:71-72 | And no other note or tag is refused |
| `ConfDocument.ValidateEdit` | web/confedit.go:66-120 | The scanning loops accept a batch if and only if every name, tag, note, key and CIDR in it is acceptable |
| `ConfDocument.KeyDenotes` | web/confedit.go:94-103 | The address pattern and port of an accepted forward key determine the key |
| `ConfDocument.PlainKeyAddresses` | web/confedit.go:151-158 | An accepted key without wildcards selects the forwards of exactly the ip and the remote text it is spelled from, quoted in the YAML or not |
| `Glob.OverlapIff` | web/confedit.go:135-158 | Whether two keys can reach one address is decided exactly by a check on the two patterns |
| `Glob.MatchesConcat` | web/confedit.go:138 | A text matches two patterns in a row if and only if it splits into matches of them |
| `ConfDocument.DistinctKeysDistinctPairs` | web/confedit.go:94-103 | Distinct accepted keys denote distinct (ip, port number) pairs |
| `ConfDocument.LeadingZeroWouldCollide` | web/confedit.go:222-230 | Two keys that would address one forward, of which validation refuses the one with the leading zero |
| `EditOrder.SubnetCallsUpsert` | web/confedit.go:159-182 | Setting label and tags in two yq calls replaces the CIDR's entries by one merged entry at the end |
| `EditOrder.SubnetsUpserted` | web/confedit.go:159-182 | All upserts together leave the untouched entries in place, followed by one merged entry per touched CIDR |
| `EditOrder.SubnetsMeaning` | web/confedit.go:159-182 | How often each entry occurs afterwards, with no mention of the walk |
| `EditOrder.AppliedIsEdited` | web/confedit.go:124-172 | For any keys and any walk: the last entry that reaches a host or forward and sets a field decides that field, subnets are the untouched and then the touched ones, nothing else changes |
| `EditConfluence.EditsAreConfluent` | web/confedit.go:124-172 | Two runs of a batch without clashes differ at most in the order of the touched subnets at the end of the list |
| `EditConfluence.ConfluentIff` | web/confedit.go:124-172 | All walks agree on every document, up to that order, if and only if no two keys that can reach one host or forward set a field of it to different values |
| `EditConfluence.PlainNeverClashes` | web/confedit.go:94-103 | An accepted batch whose host keys and forward addresses hold no wildcard has no such two keys |
| `EditConfluence.PlainBatchIsLookup` | web/confedit.go:135-158 | In such a batch each host is edited by the entry under its own address and each forward by the entry under its own ip:port |
| `EditConfluence.PlainBatchEdits` | web/confedit.go:124-158 | The document after such a batch, field by field |
| `EditConfluence.WildcardKeyIsOrderDependent` | web/confedit.go:83-97 | An accepted batch with a wildcard key next to a plain one, a document, and two walks that leave different names and notes |
| `EditOrder.EachEditedCidrOnce` | web/confedit.go:174-182 | Each CIDR the batch says something about has exactly one entry, the merged one |
| `EditOrder.EditedCidrShows` | web/confedit.go:174-182 | That entry has the batch's label and tags where given, else those of the first old entry with the CIDR, and that entry's other keys, or none |
| `EditOrder.TwiceIsOnce` | web/confedit.go:124-172 | Applying any batch again on the same walk changes nothing, clashing or not |
| `EditOrder.SkeletonIsKept` | web/confedit.go:14-16 | No sequence of the constant expressions, validated or not, complete or not, changes credentials or the sequence of (ip, local, remote) |
| `ConfEdit.ConfFile.ApplyEdits` | web/confedit.go:124-172 | Walking the three maps in arbitrary orders leaves the document of the closed form for that walk, and for a batch without clashes the same as any other walk |
| `Slug.Slugify` | web/docker.go:389-403 | The one-pass loop with its flag yields the maximal letter and digit runs of the lower-cased name joined by single dashes |
| `Slug.CliSlugIs` | t-forward:67-70 | So does the byte pipeline, for the ASCII-lower-cased name, whatever its UTF-8 bytes |
| `Slug.SlugsAgreeIff` | web/docker.go:389-403 | The two slugs of a name agree if and only if it holds neither U+0130 nor U+212A |
| `Slug.AsciiSlugsAgree` | t-forward:67-70 | They agree on every ASCII name |
| `Slug.SlugKeepsLetters` | t-forward:67-70 | Both slugs hold every letter, in lower case, and every digit of an ASCII name, in order, and else only dashes |
| `Slug.SlugIsAFixedPoint` | web/docker.go:389-403 | A slug has no leading, trailing or doubled dash and is its own slug on both sides |
| `MailedCode.HelperFindsTheFirstFittingRun` | web/helpers/totp_imap.py:36-38 | The backtracking search finds the leftmost maximal digit run of length 4 to 8, or nothing |
| `MailedCode.DaemonFindsTheFirstLongRun` | web/docker.go:1026-1031 | The daemon's pattern finds the first run of 4 or more digits, cut to 8 |
| `MailedCode.ExtractCode` | web/helpers/totp_imap.py:24-39 | The first part that is text and no attachment and has a fitting run, in its content or in the stretches of text of its markup, decides; "" if and only if none has one |
| `MailedCode.MarkupRuns` | web/helpers/totp_imap.py:32-35 | In markup, codes are found in each stretch of text by itself |
| `MailedCode.CodePassesThrough` | t-forward:834-835 | A code the helper prints passes unchanged through the daemon's pattern and is accepted by the CLI |
| `MailedCode.CliAcceptsIff` | t-forward:834-835 | The CLI accepts exactly codes of at least 4 letters and digits |
| `MailedCode.PatternsAgreeIff` | web/docker.go:1026-1031 | On any text the two patterns find the same code if and only if the first run of 4 or more digits is absent, has at most 8, or starts with the first run that fits |
| `MailedCode.LongNumberIsCut` | web/docker.go:1026-1031 | A concrete output on which the daemon's pattern and the helper's differ |
| `Subnets.SubnetOf` | web/docker.go:1451-1466 | None if and only if no network contains the address; otherwise a listed network around it of greatest prefix length |
| `Subnets.ContainsIff` | web/docker.go:1457-1459 | A network contains exactly the addresses that begin with its prefix |
| `Subnets.OrderDoesNotMatter` | web/docker.go:1451-1466 | The answer depends on the set of networks only, not on their order or repetition |
| `Subnets.BestIsInsideTheOthers` | web/docker.go:1451-1466 | Every listed network around the address contains the whole of the answer |

## Left out

- Running processes, Docker, nmap, yq, sockets, HTTP, the SSE transport and the panel: their
  answers are parameters or nondeterministic steps.
- openconnect, strongSwan and ssh: their output is reduced to the step that follows (up, exit,
  a printed pin or none). The known_hosts half of `persist_trust` and the private key copy in
  PRIV_DIR are not modelled.
- The time limits inside the container (code and tunnel timeouts) are an exit that may happen at
  any moment.
- PIN hashing, random tokens, hash upgrades: a PIN is right or wrong.
- `ConfDocument.ValidateEdit`: the grammar of `net.ParseCIDR` is not part of this model, its
  verdict is a parameter; no other result depends on it.
- `ConfEdit.ConfFile.YqEdit`: a yq call succeeds. A failing call leaves the calls before it
  applied, and `EditOrder.SkeletonIsKept` covers that case.
- `Glob.Matches`: works on characters, where yq works on bytes, so `?` and a non-ASCII character
  are outside what is compared.
- `Handshake.LearnedPinIsKept`: speaks of a container while its auth directory exists, which in
  restart mode is always; without it the host has already persisted the pin or given up.
- `Slug.SlugsAgreeIff`: which non-ASCII rune a non-ASCII rune lower-cases to does not matter
  and is not modelled.
- `Subnets.SubnetOf`: IPv4-mapped IPv6 networks and the textual form of addresses.
- `JumpHops.CliAndDaemonAgreeIff`: asks for hop objects that name a host; yq would print a hop
  object without one as YAML text.
- `ScanSnapshots.Scanner.Scan`: one scan without interleaving; interleaved label edits are
  covered step by step by `Rescan` and `Reannotate`. A label edited during a scan is lost at the
  scan's next publish, since the labels are read once.
- `StateSlot.CoalesceLatest`: the snapshot a client is sent on connect is not part of the slot
  and may be followed by an older queued frame; event frames of concurrent broadcasts may be
  delivered out of number order.
- `AdminGate.Gate.RevokeAll`: nothing is claimed about a session minted concurrently with a PIN
  change.
- Mail parsing, IMAP, retry timing; `classify`, `parseLabels`, `parseBytes`, the service table,
  settings, host and token middleware: short or table-driven.
- The fields of a forward that only the panel shows (service, user, note) in `Forwards`.
- Integer width: sequence numbers, ports and durations are unbounded, except where
  `strconv.Atoi` decides.
