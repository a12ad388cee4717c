/** The daemon's admin gate: sessions and the failed-PIN counter behind one mutex, so each
    method is atomic. `clock` remembers the latest clock reading, for the specification only. */
module AdminGate {
  import opened Text
  import opened Lockout
  import opened Sessions

  class Gate {
    var sessions: map<string, int>
    var fails: nat
    var lockedUntil: Option<int>
    // the tokens minted since the last revokeAll, oldest first
    ghost var minted: seq<Mint>
    ghost var clock: int

    ghost predicate Valid()
      reads this
    {
      GateOk(minted, sessions, clock)
    }

    function TheLock(): Lock
      reads this
    {
      Lock(fails, lockedUntil)
    }

    constructor (now: int)
      ensures Valid() && minted == [] && clock == now && TheLock() == OPEN
    {
      sessions, fails, lockedUntil := map[], 0, None;
      minted, clock := [], now;
    }

    // ---------------------------------------------------------- sessions

    method Purge(now: int)
      requires Valid() && clock <= now
      modifies this`sessions, this`clock
      ensures Valid() && clock == now
      ensures sessions == Purged(old(sessions), now)
    {
      var todo := sessions.Keys;
      ghost var before := sessions;
      while todo != {}
        invariant todo <= sessions.Keys <= before.Keys
        invariant forall t :: t in sessions ==> sessions[t] == before[t] && (t in todo || now <= before[t])
        invariant forall t :: t in before && now <= before[t] ==> t in sessions
        invariant minted == old(minted) && clock == old(clock)
        decreases todo
      {
        var t :| t in todo;
        todo := todo - {t};
        if now > sessions[t] {
          sessions := sessions - {t};
        }
      }
      PurgeOk(minted, before, clock, now);
      assert sessions == Purged(before, now);
      clock := now;
    }

    /** The inner scan of the eviction loop. */
    method SoonestToExpire() returns (oldest: string)
      requires |sessions| > 0 && "" !in sessions
      ensures Soonest(sessions, oldest)
    {
      oldest := "";
      var todo := sessions.Keys;
      while todo != {}
        invariant todo <= sessions.Keys
        invariant oldest == "" ==> todo == sessions.Keys
        invariant oldest != "" ==>
                    && oldest in sessions
                    && forall u :: u in sessions && u !in todo ==> sessions[oldest] <= sessions[u]
        decreases todo
      {
        var t :| t in todo;
        todo := todo - {t};
        if oldest == "" || sessions[t] < sessions[oldest] {
          oldest := t;
        }
      }
      assert sessions.Keys != {};
    }

    method Evict()
      requires |sessions| <= MAX_SESSIONS && "" !in sessions
      modifies this`sessions
      ensures Evicted(old(sessions), sessions)
    {
      ghost var before := sessions;
      while |sessions| >= MAX_SESSIONS
        invariant |sessions| <= MAX_SESSIONS && "" !in sessions
        invariant sessions == before || Evicted(before, sessions)
        invariant |sessions| == MAX_SESSIONS ==> sessions == before
        decreases |sessions|
      {
        var oldest := SoonestToExpire();
        RemoveOne(sessions, oldest);
        sessions := sessions - {oldest};
      }
    }

    /** The purge and the eviction loop. */
    method MakeRoom(now: int)
      requires Valid() && clock <= now
      modifies this`sessions, this`clock
      ensures Evicted(Purged(old(sessions), now), sessions)
    {
      Purge(now);
      NonEmptyTokens(minted, sessions, now);
      Evict();
    }

    /** After making room, the new token can simply be added. */
    method MakeRoomFor(tok: string, now: int)
      requires Valid() && clock < now
      requires NewToken(minted, tok)
      modifies this`sessions, this`clock
      ensures GateOk(minted + [Mint(tok, now)], sessions[tok := now + SESSION_TTL], now)
    {
      ghost var before, earlier := sessions, clock;
      MakeRoom(now);
      MintOk(minted, before, earlier, sessions, tok, now);
    }

    /** Mint a fresh token; the clock has moved on since it was last read. */
    method NewSession(tok: string, now: int)
      requires Valid() && clock < now
      requires NewToken(minted, tok)
      modifies this`sessions, this`clock, this`minted
      ensures Valid() && clock == now
      ensures minted == old(minted) + [Mint(tok, now)] && |sessions| <= 32
    {
      MakeRoomFor(tok, now);
      sessions := sessions[tok := now + SESSION_TTL];
      minted, clock := minted + [Mint(tok, now)], now;
    }

    /** Exactly the last 32 tokens minted since the last revocation, for 8 h each. */
    method ValidSession(tok: string, now: int) returns (ok: bool)
      requires Valid() && clock <= now
      modifies this`sessions, this`clock
      ensures Valid() && clock == now
      ensures ok == (tok != "" && Accepts(minted, tok, now))
    {
      LookupExact(minted, sessions, clock, tok, now);
      DropExpiredOk(minted, sessions, clock, tok, now);
      clock := now;
      if tok == "" || tok !in sessions {
        return false;
      }
      if now > sessions[tok] {
        sessions := sessions - {tok};
        return false;
      }
      return true;
    }

    method RevokeAll()
      modifies this`sessions, this`minted
      ensures Valid() && minted == [] && forall t, now :: !Accepts(minted, t, now)
    {
      sessions, minted := map[], [];
    }

    // ---------------------------------------------------------- lockout

    method RecordFailure(now: int)
      modifies this`fails, this`lockedUntil
      ensures TheLock() == Failed(old(TheLock()), now)
    {
      fails := fails + 1;
      if fails < LOCK_AFTER_FAIL {
        return;
      }
      lockedUntil := Some(now + Wait(fails));
    }

    method RecordSuccess()
      modifies this`fails, this`lockedUntil
      ensures TheLock() == OPEN
    {
      fails, lockedUntil := 0, None;
    }

    /** `checkPIN`, serialised by `verifyMu`; `right` is the verdict of the PIN hash. */
    method CheckPIN(right: bool, start: int, end: int) returns (ok: bool, retry: int)
      modifies this`fails, this`lockedUntil
      ensures TheLock() == Check(old(TheLock()), Attempt(start, end, right))
      ensures ok == (right && Evaluated(old(TheLock()), Attempt(start, end, right)))
      ensures retry == RetryAfter(old(TheLock()), start) && (retry > 0 ==> TheLock() == old(TheLock()))
    {
      retry := RetryAfter(TheLock(), start);
      if retry > 0 {
        return false, retry;
      }
      if !right {
        RecordFailure(end);
        return false, 0;
      }
      RecordSuccess();
      return true, 0;
    }
  }
}
