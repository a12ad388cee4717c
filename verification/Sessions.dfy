/** Admin sessions against a simple specification: the list of tokens minted since the last
    revocation. A token counts when it is among the last 32 of them and at most 8 h old. */
module Sessions {
  import opened Text
  import opened Lockout

  const SESSION_TTL: int := 8 * 3600 * SECOND
  const MAX_SESSIONS: nat := 32

  datatype Mint = Mint(tok: string, at: int)

  /** First position of the last 32. */
  function Low(n: nat): nat {
    if n <= 32 then 0 else n - 32
  }

  const EIGHT_HOURS: int := 28_800_000_000_000

  /** The specification. */
  predicate Accepts(minted: seq<Mint>, tok: string, now: int) {
    exists i :: Low(|minted|) <= i < |minted| && minted[i].tok == tok && now <= minted[i].at + EIGHT_HOURS
  }

  /** A strictly increasing clock and fresh non-empty tokens. */
  predicate WellMinted(minted: seq<Mint>, clock: int) {
    && (forall i :: 0 <= i < |minted| ==> minted[i].tok != "" && minted[i].at <= clock)
    && (forall i, j :: 0 <= i < j < |minted| ==> minted[i].at < minted[j].at)
    && DistinctTokens(minted)
  }

  /** `crypto/rand` does not repeat itself. */
  predicate NewToken(minted: seq<Mint>, tok: string) {
    tok != "" && forall i :: 0 <= i < |minted| ==> minted[i].tok != tok
  }

  /** Token `t` of the map is the i-th mint. */
  predicate IsMint(minted: seq<Mint>, i: nat, sessions: map<string, int>, t: string)
    requires t in sessions
  {
    i < |minted| && minted[i].tok == t && sessions[t] == minted[i].at + SESSION_TTL
  }

  /** The map only holds mints from position `low` on, … */
  ghost predicate Known(minted: seq<Mint>, low: nat, sessions: map<string, int>) {
    forall t :: t in sessions ==> exists i: nat :: low <= i && IsMint(minted, i, sessions, t)
  }

  /** … and all of those that have not expired at `clock`. */
  predicate Complete(minted: seq<Mint>, low: nat, sessions: map<string, int>, clock: int) {
    forall i :: low <= i < |minted| && clock <= minted[i].at + SESSION_TTL ==> minted[i].tok in sessions
  }

  ghost predicate GateOk(minted: seq<Mint>, sessions: map<string, int>, clock: int) {
    && WellMinted(minted, clock)
    && Known(minted, Low(|minted|), sessions)
    && Complete(minted, Low(|minted|), sessions, clock)
    && |sessions| <= MAX_SESSIONS
  }

  // ------------------------------------------------------------ the operations on values

  function Purged(sessions: map<string, int>, now: int): map<string, int> {
    map t | t in sessions && now <= sessions[t] :: sessions[t]
  }

  /** `t` expires no later than any other entry. */
  predicate Soonest(sessions: map<string, int>, t: string) {
    t in sessions && forall u :: u in sessions ==> sessions[t] <= sessions[u]
  }

  /** What the eviction loop may leave behind; ties would leave it a choice. */
  ghost predicate Evicted(before: map<string, int>, after: map<string, int>) {
    if |before| < MAX_SESSIONS then after == before
    else exists t :: Soonest(before, t) && after == before - {t}
  }

  lemma RemoveOne(m: map<string, int>, t: string)
    requires t in m
    ensures |m - {t}| == |m| - 1
  {
    assert (m - {t}).Keys == m.Keys - {t};
  }

  function Tokens(minted: seq<Mint>, low: nat): (s: set<string>)
    requires low <= |minted|
    decreases |minted| - low
  {
    if low == |minted| then {} else {minted[low].tok} + Tokens(minted, low + 1)
  }

  predicate DistinctTokens(minted: seq<Mint>) {
    forall i, j :: 0 <= i < j < |minted| ==> minted[i].tok != minted[j].tok
  }

  lemma {:induction false} TokenIn(minted: seq<Mint>, low: nat, t: string)
    requires low <= |minted|
    ensures t in Tokens(minted, low) <==> exists i :: low <= i < |minted| && minted[i].tok == t
    decreases |minted| - low
  {
    if low < |minted| {
      TokenIn(minted, low + 1, t);
    }
  }

  lemma {:induction false} TokenCount(minted: seq<Mint>, low: nat)
    requires low <= |minted| && DistinctTokens(minted)
    ensures |Tokens(minted, low)| == |minted| - low
    decreases |minted| - low
  {
    if low < |minted| {
      TokenCount(minted, low + 1);
      TokenIn(minted, low + 1, minted[low].tok);
    }
  }

  lemma SubsetSize(a: set<string>, b: set<string>)
    requires a <= b
    ensures |a| <= |b|
    ensures |a| == |b| ==> a == b
  {
    assert b == a + (b - a);
  }

  lemma KnownTokens(minted: seq<Mint>, low: nat, sessions: map<string, int>, clock: int)
    requires low <= |minted| && WellMinted(minted, clock) && Known(minted, low, sessions)
    ensures sessions.Keys <= Tokens(minted, low)
    ensures |sessions| <= |minted| - low
  {
    TokenCount(minted, low);
    forall t | t in sessions ensures t in Tokens(minted, low) {
      TokenIn(minted, low, t);
      var i: nat :| low <= i && IsMint(minted, i, sessions, t);
    }
    SubsetSize(sessions.Keys, Tokens(minted, low));
  }

  lemma PurgedTwice(sessions: map<string, int>, now: int)
    ensures Purged(Purged(sessions, now), now) == Purged(sessions, now)
  {
  }

  lemma NonEmptyTokens(minted: seq<Mint>, sessions: map<string, int>, clock: int)
    requires GateOk(minted, sessions, clock)
    ensures "" !in sessions
  {
    forall t | t in sessions ensures t != "" {
      var i: nat :| Low(|minted|) <= i && IsMint(minted, i, sessions, t);
    }
  }

  lemma PurgeOk(minted: seq<Mint>, sessions: map<string, int>, clock: int, now: int)
    requires GateOk(minted, sessions, clock) && clock <= now
    ensures GateOk(minted, Purged(sessions, now), now)
  {
    var after := Purged(sessions, now);
    SubsetSize(after.Keys, sessions.Keys);
    forall t | t in after ensures exists i: nat :: Low(|minted|) <= i && IsMint(minted, i, after, t) {
      var i: nat :| Low(|minted|) <= i && IsMint(minted, i, sessions, t);
      assert IsMint(minted, i, after, t);
    }
    forall i | Low(|minted|) <= i < |minted| && now <= minted[i].at + SESSION_TTL ensures minted[i].tok in after {
      MintEntry(minted, sessions, clock, i);
    }
  }

  lemma MintEntry(minted: seq<Mint>, sessions: map<string, int>, clock: int, i: nat)
    requires GateOk(minted, sessions, clock) && i < |minted| && minted[i].tok in sessions
    ensures sessions[minted[i].tok] == minted[i].at + SESSION_TTL && Low(|minted|) <= i
  {
    var k: nat :| Low(|minted|) <= k && IsMint(minted, k, sessions, minted[i].tok);
  }

  /** A purged map that still holds the window's oldest mint holds the whole window. */
  lemma WholeWindow(minted: seq<Mint>, sessions: map<string, int>, now: int)
    requires GateOk(minted, sessions, now) && sessions == Purged(sessions, now)
    requires |minted| >= MAX_SESSIONS && minted[Low(|minted|)].tok in sessions
    ensures forall i :: Low(|minted|) <= i < |minted| ==> minted[i].tok in sessions
    ensures |sessions| == MAX_SESSIONS
  {
    var low := Low(|minted|);
    MintEntry(minted, sessions, now, low);
    assert now <= sessions[minted[low].tok];
    forall i | low <= i < |minted| ensures minted[i].tok in sessions {
      assert minted[low].at <= minted[i].at;
    }
    WindowSize(minted, sessions, low);
  }

  lemma WindowSize(minted: seq<Mint>, sessions: map<string, int>, low: nat)
    requires low <= |minted| && DistinctTokens(minted)
    requires forall i :: low <= i < |minted| ==> minted[i].tok in sessions
    ensures |sessions| >= |minted| - low
  {
    TokenCount(minted, low);
    forall u | u in Tokens(minted, low) ensures u in sessions {
      TokenIn(minted, low, u);
    }
    SubsetSize(Tokens(minted, low), sessions.Keys);
  }

  /** Its soonest entry then is that oldest mint. */
  lemma SoonestIsOldest(minted: seq<Mint>, sessions: map<string, int>, now: int, t: string)
    requires GateOk(minted, sessions, now) && |minted| >= MAX_SESSIONS
    requires minted[Low(|minted|)].tok in sessions && Soonest(sessions, t)
    ensures t == minted[Low(|minted|)].tok
  {
    var low := Low(|minted|);
    MintEntry(minted, sessions, now, low);
    var i: nat :| low <= i && IsMint(minted, i, sessions, t);
    assert sessions[t] <= sessions[minted[low].tok];
  }

  lemma EvictOk(minted: seq<Mint>, sessions: map<string, int>, after: map<string, int>, now: int)
    requires GateOk(minted, sessions, now) && sessions == Purged(sessions, now) && Evicted(sessions, after)
    ensures |after| < MAX_SESSIONS && after.Keys <= sessions.Keys
    ensures forall t :: t in after ==> after[t] == sessions[t]
    ensures |minted| >= MAX_SESSIONS ==> minted[Low(|minted|)].tok !in after
    ensures forall t :: t in sessions && t !in after ==> |minted| >= MAX_SESSIONS && t == minted[Low(|minted|)].tok
  {
    if |sessions| < MAX_SESSIONS {
      if |minted| >= MAX_SESSIONS && minted[Low(|minted|)].tok in sessions {
        WholeWindow(minted, sessions, now);
        assert false;
      }
    } else {
      var t :| Soonest(sessions, t) && after == sessions - {t};
      RemoveOne(sessions, t);
      EvictFull(minted, sessions, now, t);
    }
  }

  /** A full map holds the whole window, and its soonest entry is the window's oldest mint. */
  lemma EvictFull(minted: seq<Mint>, sessions: map<string, int>, now: int, t: string)
    requires GateOk(minted, sessions, now) && |sessions| >= MAX_SESSIONS && Soonest(sessions, t)
    ensures |minted| >= MAX_SESSIONS && t == minted[Low(|minted|)].tok
  {
    var low := Low(|minted|);
    KnownTokens(minted, low, sessions, now);
    TokenCount(minted, low);
    SubsetSize(sessions.Keys, Tokens(minted, low));
    TokenIn(minted, low, minted[low].tok);
    SoonestIsOldest(minted, sessions, now, t);
  }

  lemma AddKnown(minted: seq<Mint>, purged: map<string, int>, evicted: map<string, int>, m: Mint)
    requires Known(minted, Low(|minted|), purged)
    requires evicted.Keys <= purged.Keys && forall t :: t in evicted ==> evicted[t] == purged[t]
    requires |minted| >= MAX_SESSIONS ==> minted[Low(|minted|)].tok !in evicted
    ensures Known(minted + [m], Low(|minted| + 1), evicted[m.tok := m.at + SESSION_TTL])
  {
    var more, sessions := minted + [m], evicted[m.tok := m.at + SESSION_TTL];
    forall t | t in sessions ensures exists i: nat :: Low(|minted| + 1) <= i && IsMint(more, i, sessions, t) {
      if t == m.tok {
        assert IsMint(more, |minted|, sessions, t);
      } else {
        var i: nat :| Low(|minted|) <= i && IsMint(minted, i, purged, t);
        assert IsMint(more, i, sessions, t);
      }
    }
  }

  lemma AddComplete(minted: seq<Mint>, purged: map<string, int>, evicted: map<string, int>, m: Mint)
    requires Complete(minted, Low(|minted|), purged, m.at) && DistinctTokens(minted)
    requires forall t :: t in purged && t !in evicted ==> |minted| >= MAX_SESSIONS && t == minted[Low(|minted|)].tok
    ensures Complete(minted + [m], Low(|minted| + 1), evicted[m.tok := m.at + SESSION_TTL], m.at)
  {
    var more, sessions := minted + [m], evicted[m.tok := m.at + SESSION_TTL];
    forall i | Low(|minted| + 1) <= i < |more| && m.at <= more[i].at + SESSION_TTL ensures more[i].tok in sessions {
      if i < |minted| {
        assert more[i] == minted[i] && minted[i].tok in purged;
        assert |minted| >= MAX_SESSIONS ==> Low(|minted|) < i && minted[i].tok != minted[Low(|minted|)].tok;
      }
    }
  }

  lemma AddMinted(minted: seq<Mint>, clock: int, m: Mint)
    requires WellMinted(minted, clock)
    requires m.tok != "" && forall i :: 0 <= i < |minted| ==> minted[i].tok != m.tok && minted[i].at < m.at
    ensures WellMinted(minted + [m], m.at)
  {
  }

  lemma AddSize(evicted: map<string, int>, tok: string, exp: int)
    requires |evicted| < MAX_SESSIONS
    ensures |evicted[tok := exp]| <= MAX_SESSIONS
  {
    assert evicted[tok := exp].Keys == evicted.Keys + {tok};
  }

  lemma AddOk(minted: seq<Mint>, purged: map<string, int>, evicted: map<string, int>, tok: string, now: int)
    requires GateOk(minted, purged, now) && purged == Purged(purged, now) && Evicted(purged, evicted)
    requires NewToken(minted, tok) && forall i :: 0 <= i < |minted| ==> minted[i].at < now
    ensures GateOk(minted + [Mint(tok, now)], evicted[tok := now + SESSION_TTL], now)
  {
    var m := Mint(tok, now);
    AddMinted(minted, now, m);
    assert |evicted| < MAX_SESSIONS && Known(minted + [m], Low(|minted| + 1), evicted[m.tok := m.at + SESSION_TTL])
      && Complete(minted + [m], Low(|minted| + 1), evicted[m.tok := m.at + SESSION_TTL], m.at) by {
      EvictOk(minted, purged, evicted, now);
      AddKnown(minted, purged, evicted, m);
      AddComplete(minted, purged, evicted, m);
    }
    AddSize(evicted, tok, now + SESSION_TTL);
  }

  /** Purge, evict, add: what minting does to the map. */
  lemma MintOk(minted: seq<Mint>, sessions: map<string, int>, clock: int, evicted: map<string, int>,
               tok: string, now: int)
    requires GateOk(minted, sessions, clock) && clock < now && Evicted(Purged(sessions, now), evicted)
    requires NewToken(minted, tok)
    ensures GateOk(minted + [Mint(tok, now)], evicted[tok := now + SESSION_TTL], now)
  {
    PurgeOk(minted, sessions, clock, now);
    PurgedTwice(sessions, now);
    AddOk(minted, Purged(sessions, now), evicted, tok, now);
  }

  /** Looking a token up decides the specification. */
  lemma LookupExact(minted: seq<Mint>, sessions: map<string, int>, clock: int, tok: string, now: int)
    requires GateOk(minted, sessions, clock) && clock <= now
    ensures Accepts(minted, tok, now) <==> tok in sessions && now <= sessions[tok]
  {
    if tok in sessions {
      var i: nat :| Low(|minted|) <= i && IsMint(minted, i, sessions, tok);
    }
    if Accepts(minted, tok, now) {
      var i :| Low(|minted|) <= i < |minted| && minted[i].tok == tok && now <= minted[i].at + SESSION_TTL;
      MintEntry(minted, sessions, clock, i);
    }
  }

  lemma DropExpiredOk(minted: seq<Mint>, sessions: map<string, int>, clock: int, tok: string, now: int)
    requires GateOk(minted, sessions, clock) && clock <= now
    ensures GateOk(minted, sessions, now)
    ensures tok in sessions && now > sessions[tok] ==> GateOk(minted, sessions - {tok}, now)
  {
    if tok in sessions && now > sessions[tok] {
      var after := sessions - {tok};
      RemoveOne(sessions, tok);
      forall t | t in after ensures exists i: nat :: Low(|minted|) <= i && IsMint(minted, i, after, t) {
        var i: nat :| Low(|minted|) <= i && IsMint(minted, i, sessions, t);
        assert IsMint(minted, i, after, t);
      }
      forall i | Low(|minted|) <= i < |minted| && now <= minted[i].at + SESSION_TTL ensures minted[i].tok in after {
        MintEntry(minted, sessions, clock, i);
      }
    }
  }
}
