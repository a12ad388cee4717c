/** How yq's `==` compares two scalars: the text on the left against the text on the right as
    a pattern, in which `*` stands for any text and `?` for any one character. */
module Glob {

  import opened Text

  const WILDCARDS: set<char> := {'*', '?'}

  /** A pattern that is nothing but text. */
  predicate Plain(pattern: string) { Free(pattern, WILDCARDS) }

  predicate Matches(name: string, pattern: string)
    decreases |name| + |pattern|
  {
    if pattern == "" then name == ""
    else if pattern[0] == '*' then
      Matches(name, pattern[1..]) || (name != "" && Matches(name[1..], pattern))
    else
      name != "" && (pattern[0] == '?' || pattern[0] == name[0]) && Matches(name[1..], pattern[1..])
  }

  /** Some text matches both patterns, decided without looking for it. */
  predicate Overlap(a: string, b: string)
    decreases |a| + |b|
  {
    if a == "" && b == "" then true
    else if a != "" && a[0] == '*' then
      Overlap(a[1..], b) || (b != "" && Overlap(a, b[1..]))
    else if b != "" && b[0] == '*' then
      Overlap(a, b[1..]) || (a != "" && Overlap(a[1..], b))
    else
      a != "" && b != "" && (a[0] == '?' || b[0] == '?' || a[0] == b[0]) && Overlap(a[1..], b[1..])
  }

  lemma {:induction false} PlainIsEquality(name: string, pattern: string)
    requires Plain(pattern)
    ensures Matches(name, pattern) <==> name == pattern
  {
    if pattern != "" && name != "" {
      PlainIsEquality(name[1..], pattern[1..]);
      assert name == [name[0]] + name[1..] && pattern == [pattern[0]] + pattern[1..];
    }
  }

  /** One more character in front, taken by a star or by the pattern's first character. */
  lemma MatchesCons(c: char, name: string, pattern: string)
    requires pattern != ""
    ensures pattern[0] == '*' && Matches(name, pattern) ==> Matches([c] + name, pattern)
    ensures pattern[0] != '*' && (pattern[0] == '?' || pattern[0] == c) && Matches(name, pattern[1..])
            ==> Matches([c] + name, pattern)
  {
    assert ([c] + name)[1..] == name;
  }

  lemma {:induction false} OverlapHasWitness(a: string, b: string) returns (s: string)
    requires Overlap(a, b)
    ensures Matches(s, a) && Matches(s, b)
    decreases |a| + |b|
  {
    if a == "" && b == "" {
      s := "";
    } else if a != "" && a[0] == '*' {
      s := StarHasWitness(a, b);
    } else if b != "" && b[0] == '*' {
      if Overlap(a, b[1..]) {
        s := OverlapHasWitness(a, b[1..]);
      } else {
        var t := OverlapHasWitness(a[1..], b);
        s := CharacterAndStar(a, b, t);
      }
    } else {
      var t := OverlapHasWitness(a[1..], b[1..]);
      var c := if a[0] == '?' then b[0] else a[0];
      MatchesCons(c, t, a);
      MatchesCons(c, t, b);
      s := [c] + t;
    }
  }

  lemma {:induction false} StarHasWitness(a: string, b: string) returns (s: string)
    requires a != "" && a[0] == '*' && Overlap(a, b)
    ensures Matches(s, a) && Matches(s, b)
    decreases |a| + |b|, 0
  {
    if Overlap(a[1..], b) {
      s := OverlapHasWitness(a[1..], b);
    } else {
      var t := OverlapHasWitness(a, b[1..]);
      if b[0] == '*' {
        s := t;
      } else {
        s := CharacterAndStar(b, a, t);
      }
    }
  }

  /** The star takes what stands for the other pattern's first character. */
  lemma CharacterAndStar(a: string, star: string, t: string) returns (s: string)
    requires a != "" && a[0] != '*' && star != "" && star[0] == '*'
    requires Matches(t, a[1..]) && Matches(t, star)
    ensures Matches(s, a) && Matches(s, star)
  {
    MatchesCons(a[0], t, a);
    MatchesCons(a[0], t, star);
    s := [a[0]] + t;
  }

  lemma {:induction false} WitnessOverlaps(s: string, a: string, b: string)
    requires Matches(s, a) && Matches(s, b)
    ensures Overlap(a, b)
    decreases |s| + |a| + |b|
  {
    if a == "" && b == "" {
    } else if a != "" && a[0] == '*' {
      StarOverlaps(s, a, b);
    } else if b != "" && b[0] == '*' {
      if Matches(s, b[1..]) {
        WitnessOverlaps(s, a, b[1..]);
      } else {
        WitnessOverlaps(s[1..], a[1..], b);
      }
    } else {
      WitnessOverlaps(s[1..], a[1..], b[1..]);
    }
  }

  lemma {:induction false} StarOverlaps(s: string, a: string, b: string)
    requires a != "" && a[0] == '*' && Matches(s, a) && Matches(s, b)
    ensures Overlap(a, b)
    decreases |s| + |a| + |b|, 0
  {
    if Matches(s, a[1..]) {
      WitnessOverlaps(s, a[1..], b);
    } else if b[0] != '*' {
      WitnessOverlaps(s[1..], a, b[1..]);
    } else if Matches(s, b[1..]) {
      WitnessOverlaps(s, a, b[1..]);
    } else {
      WitnessOverlaps(s[1..], a, b);
    }
  }

  predicate MatchesBoth(s: string, a: string, b: string) {
    Matches(s, a) && Matches(s, b)
  }

  /** The check is exact. */
  lemma OverlapIff(a: string, b: string)
    ensures Overlap(a, b) <==> exists s :: MatchesBoth(s, a, b)
  {
    if Overlap(a, b) {
      var s := OverlapHasWitness(a, b);
      assert MatchesBoth(s, a, b);
    } else if s :| MatchesBoth(s, a, b) {
      WitnessOverlaps(s, a, b);
    }
  }

  lemma PlainOverlap(a: string, b: string)
    requires Plain(a) && Plain(b)
    ensures Overlap(a, b) <==> a == b
  {
    PlainIsEquality(a, a);
    if a == b {
      WitnessOverlaps(a, a, b);
    }
    if Overlap(a, b) {
      var s := OverlapHasWitness(a, b);
      PlainIsEquality(s, a);
      PlainIsEquality(s, b);
    }
  }

  // ------------------------------------------------------------ what patterns match

  lemma {:induction false} StarMatchesAll(s: string)
    ensures Matches(s, "*")
  {
    if s != "" {
      StarMatchesAll(s[1..]);
    }
  }

  lemma OneCharacter(s: string, c: char)
    ensures c == '?' ==> (Matches(s, [c]) <==> |s| == 1)
    ensures c !in WILDCARDS ==> (Matches(s, [c]) <==> s == [c])
  {
    assert [c][1..] == "";
    assert |s| == 1 ==> s == [s[0]] && s[1..] == "";
  }

  /** `k` characters of the text go to the first pattern, the others to the second. */
  predicate SplitsAt(s: string, p: string, q: string, k: nat) {
    k <= |s| && Matches(s[..k], p) && Matches(s[k..], q)
  }

  /** Patterns in a row match what splits into matches, so `Matches` is fixed by single
      characters. */
  lemma {:induction false} MatchesConcat(s: string, p: string, q: string)
    ensures Matches(s, p + q) <==> exists k: nat :: SplitsAt(s, p, q, k)
    decreases |s| + |p|
  {
    if Matches(s, p + q) {
      var k := SplitOf(s, p, q);
      assert SplitsAt(s, p, q, k);
    }
    forall k: nat | SplitsAt(s, p, q, k)
      ensures Matches(s, p + q)
    {
      JoinOf(s, p, q, k);
    }
  }

  lemma {:induction false} SplitOf(s: string, p: string, q: string) returns (k: nat)
    requires Matches(s, p + q)
    ensures SplitsAt(s, p, q, k)
    decreases |s| + |p|
  {
    var r := p + q;
    if p == "" {
      k := 0;
      assert r == q && s[..0] == "" && s[0..] == s;
    } else {
      assert r[0] == p[0] && r[1..] == p[1..] + q;
      if p[0] == '*' && Matches(s, r[1..]) {
        k := SplitOf(s, p[1..], q);
      } else if p[0] == '*' {
        k := SplitOf(s[1..], p, q);
        k := AddFirst(s, p, q, k);
      } else {
        k := SplitOf(s[1..], p[1..], q);
        assert s[..k + 1][1..] == s[1..][..k] && s[k + 1..] == s[1..][k..];
        k := k + 1;
      }
    }
  }

  lemma AddFirst(s: string, p: string, q: string, j: nat) returns (k: nat)
    requires s != "" && p != "" && p[0] == '*' && SplitsAt(s[1..], p, q, j)
    ensures SplitsAt(s, p, q, k)
  {
    k := j + 1;
    assert s[..k][1..] == s[1..][..j] && s[k..] == s[1..][j..];
  }

  lemma {:induction false} JoinOf(s: string, p: string, q: string, k: nat)
    requires SplitsAt(s, p, q, k)
    ensures Matches(s, p + q)
    decreases |s| + |p|
  {
    var r, a := p + q, s[..k];
    if p == "" {
      assert r == q && s[0..] == s;
    } else {
      assert r[0] == p[0] && r[1..] == p[1..] + q;
      if p[0] == '*' && Matches(a, p[1..]) {
        JoinOf(s, p[1..], q, k);
      } else {
        assert a[1..] == s[1..][..k - 1] && s[k..] == s[1..][k - 1..];
        JoinOf(s[1..], if p[0] == '*' then p else p[1..], q, k - 1);
      }
    }
  }
}
