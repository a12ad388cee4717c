/** The wait loop of `up_one`: poll the auth directory and the container once a second until
    the tunnel is ready, has failed, asks for a code, or the time is up. */
module HostWait {
  import opened Text

  /** What one poll sees: the ready file, the container running, the awaiting_code file. */
  datatype Seen = Seen(ready: bool, running: bool, awaiting: bool)

  datatype Outcome = Connected | Failed | HandedOff | EmptyCode | TimedOut

  predicate Undecided(o: Seen) { !o.ready && o.running }

  /** What each outcome says about the poll that decided it. */
  predicate Justified(r: Outcome, o: Seen, noPrompt: bool, code: string) {
    match r
    case Connected => o.ready
    case Failed => !o.ready && !o.running
    case HandedOff => Undecided(o) && o.awaiting && noPrompt
    case EmptyCode => Undecided(o) && o.awaiting && !noPrompt && code == ""
    case TimedOut => Undecided(o)
  }

  /** The first poll that saw the marker, if any of the first `n` did. */
  predicate FirstPrompt(see: nat -> Seen, n: nat, prompt: Option<nat>) {
    match prompt
    case None => forall k: nat :: k < n ==> !see(k).awaiting
    case Some(f) => f < n && see(f).awaiting && forall k: nat :: k < f ==> !see(k).awaiting
  }

  /** The user is asked at most once, at the first marker seen, and that resets the counter.
      The loop still ends: the pair (not yet asked, time left) falls at every poll, and a
      timeout comes exactly CONNECT_TIMEOUT + 31 polls after the prompt (or the beginning). */
  method WaitForTunnel(see: nat -> Seen, code: string, noPrompt: bool, timeout: nat)
    returns (r: Outcome, polls: nat, prompt: Option<nat>)
    ensures 0 < polls <= 2 * timeout + 61
    ensures Justified(r, see(polls - 1), noPrompt, code)
    ensures forall k: nat :: k < polls - 1 ==> Undecided(see(k))
    ensures FirstPrompt(see, if r.Connected? || r.Failed? then polls - 1 else polls, prompt)
    ensures prompt.Some? && noPrompt ==> r.HandedOff?
    ensures prompt.Some? && !noPrompt && code == "" ==> r.EmptyCode?
    ensures r.HandedOff? || r.EmptyCode? ==> prompt == Some(polls - 1)
    ensures r.TimedOut? ==> polls == (if prompt.Some? then prompt.value else 0) + timeout + 31
  {
    polls, prompt := 0, None;
    var waited := 0;
    while true
      invariant 0 <= waited <= timeout + 30
      invariant polls == (if prompt.Some? then prompt.value else 0) + waited
      invariant forall k: nat :: k < polls ==> Undecided(see(k))
      invariant FirstPrompt(see, polls, prompt)
      invariant prompt.Some? ==> prompt.value <= timeout + 30 && !noPrompt && code != ""
      decreases if prompt.None? then 1 else 0, timeout + 31 - waited
    {
      var o := see(polls);
      polls := polls + 1;
      if o.ready { return Connected, polls, prompt; }
      if !o.running { return Failed, polls, prompt; }
      if o.awaiting && prompt.None? {
        prompt := Some(polls - 1);
        if noPrompt { return HandedOff, polls, prompt; }
        if code == "" { return EmptyCode, polls, prompt; }
        waited := 0;
      }
      waited := waited + 1;
      if waited > timeout + 30 { return TimedOut, polls, prompt; }
    }
  }
}
