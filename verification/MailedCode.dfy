/** A one-time code on its way from a mail to the tunnel: the mail helper's pattern search,
    the daemon's `extractCode` over the helper's output, and the CLI's check of the code. */
module MailedCode {

  import opened Text

  /** Everything `[0-9]` does not match. */
  const NON_DIGITS: set<char> := set c: char | !Digit(c)

  /** The maximal digit runs of a text, from left to right. */
  function Runs(s: string): seq<string> {
    Pieces(s, NON_DIGITS)
  }

  // ------------------------------------------------------------ the two patterns

  /** How many digits `[0-9]{0,limit}` takes from position `i` on. */
  function Digits(s: string, i: nat, limit: nat): (n: nat)
    requires i <= |s|
    ensures n <= limit && i + n <= |s|
    decreases limit
  {
    if limit == 0 || i == |s| || !Digit(s[i]) then 0 else 1 + Digits(s, i + 1, limit - 1)
  }

  /** Backtracking over `{4,8}`: the longest of n, n-1, … 4 digits with no digit behind. */
  function Backtrack(s: string, i: nat, n: nat): (m: nat)
    requires i + n <= |s|
    ensures m <= n
  {
    if n < 4 then 0
    else if i + n == |s| || !Digit(s[i + n]) then n
    else Backtrack(s, i, n - 1)
  }

  /** `(?<![0-9])[0-9]{4,8}(?![0-9])` at position `i`: the length matched, or 0. */
  function MatchAt(s: string, i: nat): (n: nat)
    requires i <= |s|
    ensures i + n <= |s|
  {
    if i > 0 && Digit(s[i - 1]) then 0 else Backtrack(s, i, Digits(s, i, 8))
  }

  /** `re.search` of that pattern, from position `i` on. */
  function Search(s: string, i: nat): string
    requires i <= |s|
    decreases |s| - i
  {
    var n := MatchAt(s, i);
    if n > 0 then s[i..i + n]
    else if i == |s| then ""
    else Search(s, i + 1)
  }

  /** Go's `[0-9]{4,8}`, leftmost and greedy, from position `i` on: `extractCode`. */
  function FindString(s: string, i: nat): string
    requires i <= |s|
    decreases |s| - i
  {
    var n := Digits(s, i, 8);
    if n >= 4 then s[i..i + n]
    else if i == |s| then ""
    else FindString(s, i + 1)
  }

  // ------------------------------------------------------------ what they find

  /** The first run of 4 to 8 digits, or "". */
  function FirstFitting(runs: seq<string>): string {
    if runs == [] then ""
    else if 4 <= |runs[0]| <= 8 then runs[0]
    else FirstFitting(runs[1..])
  }

  /** The first run of at least 4 digits, cut to 8, or "". */
  function FirstLong(runs: seq<string>): string {
    if runs == [] then ""
    else if |runs[0]| >= 8 then runs[0][..8]
    else if |runs[0]| >= 4 then runs[0]
    else FirstLong(runs[1..])
  }

  /** `Digits` counts what is left of the run it starts in, up to its limit. */
  lemma {:induction false} DigitsIsSpan(s: string, i: nat, limit: nat)
    requires i <= |s|
    ensures var k := Span(s[i..], NON_DIGITS); Digits(s, i, limit) == if k < limit then k else limit
    decreases limit
  {
    if limit > 0 && i < |s| {
      assert s[i..][1..] == s[i + 1..];
      DigitsIsSpan(s, i + 1, limit - 1);
    }
  }

  /** Inside a run of `k` digits from `i`, all of it is digits and the next character is not. */
  lemma RunAt(s: string, i: nat, k: nat)
    requires i <= |s| && k == Span(s[i..], NON_DIGITS)
    ensures forall j :: i <= j < i + k ==> Digit(s[j])
    ensures i + k < |s| ==> !Digit(s[i + k])
  {
    assert forall j :: 0 <= j < k ==> s[i..][..k][j] == s[i + j];
    if i + k < |s| {
      assert s[i..][k] == s[i + k];
    }
  }

  lemma {:induction false} BacktrackInside(s: string, i: nat, n: nat)
    requires i + n < |s| && forall j :: i <= j <= i + n ==> Digit(s[j])
    ensures Backtrack(s, i, n) == 0
  {
    if n >= 4 {
      BacktrackInside(s, i, n - 1);
    }
  }

  /** At the start of a run of `k` digits the pattern matches all of it or nothing. */
  lemma MatchAtRun(s: string, i: nat, k: nat)
    requires i <= |s| && k == Span(s[i..], NON_DIGITS)
    requires i == 0 || !Digit(s[i - 1])
    ensures MatchAt(s, i) == if 4 <= k <= 8 then k else 0
  {
    RunAt(s, i, k);
    DigitsIsSpan(s, i, 8);
    if k > 8 {
      BacktrackInside(s, i, 8);
    }
  }

  /** The lookbehind passes over the rest of a run. */
  lemma {:induction false} SearchSkips(s: string, i: nat, j: nat)
    requires 0 < i <= j <= |s| && forall k :: i - 1 <= k < j - 1 ==> Digit(s[k])
    ensures Search(s, i) == Search(s, j)
    decreases j - i
  {
    if i < j {
      assert MatchAt(s, i) == 0;
      SearchSkips(s, i + 1, j);
    }
  }

  /** Position `i` does not cut a run in two. */
  predicate Boundary(s: string, i: nat)
    requires i <= |s|
  {
    i == 0 || i == |s| || !Digit(s[i - 1]) || !Digit(s[i])
  }

  function FittingFrom(s: string, i: nat): string
    requires i <= |s|
  {
    FirstFitting(Runs(s[i..]))
  }

  lemma SearchAtEnd(s: string)
    ensures Search(s, |s|) == FittingFrom(s, |s|)
  {
    assert Runs(s[|s|..]) == [];
  }

  /** From `i` on, the search and the first fitting run are alike, or both are those from `j` on. */
  predicate SameOrLater(s: string, i: nat, j: nat)
    requires i <= |s| && j <= |s|
  {
    || Search(s, i) == FittingFrom(s, i)
    || (Search(s, i) == Search(s, j) && FittingFrom(s, i) == FittingFrom(s, j))
  }

  lemma {:induction false} SearchIsFirstFitting(s: string, i: nat)
    requires i <= |s| && Boundary(s, i)
    ensures Search(s, i) == FittingFrom(s, i)
    decreases |s| - i
  {
    if i == |s| {
      SearchAtEnd(s);
    } else {
      var j := SearchAdvances(s, i);
      if Search(s, i) != FittingFrom(s, i) {
        SearchIsFirstFitting(s, j);
      }
    }
  }

  /** From one boundary to the next: both sides end here alike, or both go on from there. */
  lemma SearchAdvances(s: string, i: nat) returns (j: nat)
    requires i < |s| && Boundary(s, i)
    ensures i < j <= |s| && Boundary(s, j)
    ensures SameOrLater(s, i, j)
  {
    if Digit(s[i]) {
      j := SearchPastRun(s, i);
    } else {
      SearchPastOther(s, i);
      j := i + 1;
    }
  }

  lemma SearchPastOther(s: string, i: nat)
    requires i < |s| && !Digit(s[i])
    ensures SameOrLater(s, i, i + 1) && Boundary(s, i + 1)
  {
    OtherCharacter(s, i);
  }

  /** At a run: both sides take it, or both go on behind it. */
  lemma SearchPastRun(s: string, i: nat) returns (j: nat)
    requires i < |s| && Digit(s[i]) && Boundary(s, i)
    ensures i < j <= |s| && Boundary(s, j)
    ensures SameOrLater(s, i, j)
  {
    var k := RunLength(s, i);
    j := i + k;
    assert Boundary(s, j) by {
      FittingAtRun(s, i, k);
    }
    if 4 <= k <= 8 {
      TakenAtRun(s, i, k);
    } else {
      PassedAtRun(s, i, k);
    }
  }

  lemma TakenAtRun(s: string, i: nat, k: nat)
    requires i < |s| && k == Span(s[i..], NON_DIGITS) && 4 <= k <= 8
    requires i == 0 || !Digit(s[i - 1])
    ensures Search(s, i) == FittingFrom(s, i)
  {
    SearchAtRun(s, i, k);
    FittingAtRun(s, i, k);
  }

  lemma PassedAtRun(s: string, i: nat, k: nat)
    requires i < |s| && k == Span(s[i..], NON_DIGITS) && k > 0 && !(4 <= k <= 8)
    requires i == 0 || !Digit(s[i - 1])
    ensures Search(s, i) == Search(s, i + k) && FittingFrom(s, i) == FittingFrom(s, i + k)
  {
    SearchAtRun(s, i, k);
    FittingAtRun(s, i, k);
  }

  lemma RunLength(s: string, i: nat) returns (k: nat)
    requires i < |s| && Digit(s[i])
    ensures 0 < k && i + k <= |s| && k == Span(s[i..], NON_DIGITS)
  {
    k := Span(s[i..], NON_DIGITS);
    assert s[i..][0] == s[i];
  }

  lemma FittingAtRun(s: string, i: nat, k: nat)
    requires i < |s| && k == Span(s[i..], NON_DIGITS) && k > 0
    ensures FittingFrom(s, i) == if 4 <= k <= 8 then s[i..i + k] else FittingFrom(s, i + k)
    ensures Boundary(s, i + k)
  {
    RunAt(s, i, k);
    RunsFrom(s, i, k);
    FirstFittingCons(s[i..i + k], Runs(s[i + k..]));
  }

  lemma FirstFittingCons(run: string, rest: seq<string>)
    ensures FirstFitting([run] + rest) == if 4 <= |run| <= 8 then run else FirstFitting(rest)
  {
    assert ([run] + rest)[1..] == rest;
  }

  lemma OtherCharacter(s: string, i: nat)
    requires i < |s| && !Digit(s[i])
    ensures Search(s, i) == Search(s, i + 1) && FindString(s, i) == FindString(s, i + 1)
    ensures Runs(s[i..]) == Runs(s[i + 1..])
  {
    assert Digits(s, i, 8) == 0;
    assert s[i..][1..] == s[i + 1..] && s[i..][0] in NON_DIGITS;
  }

  lemma SearchStep(s: string, i: nat)
    requires i < |s|
    ensures Search(s, i) == if MatchAt(s, i) > 0 then s[i..i + MatchAt(s, i)] else Search(s, i + 1)
  {
  }

  lemma SearchAtRun(s: string, i: nat, k: nat)
    requires i < |s| && k == Span(s[i..], NON_DIGITS) && k > 0
    requires i == 0 || !Digit(s[i - 1])
    ensures Search(s, i) == if 4 <= k <= 8 then s[i..i + k] else Search(s, i + k)
  {
    MatchAtRun(s, i, k);
    SearchStep(s, i);
    PassOver(s, i, k);
  }

  /** From the second digit of a run, the search resumes behind it. */
  lemma PassOver(s: string, i: nat, k: nat)
    requires i < |s| && k == Span(s[i..], NON_DIGITS) && k > 0
    ensures Search(s, i + 1) == Search(s, i + k)
  {
    RunAt(s, i, k);
    SearchSkips(s, i + 1, i + k);
  }

  lemma RunsFrom(s: string, i: nat, k: nat)
    requires i < |s| && k == Span(s[i..], NON_DIGITS) && k > 0
    ensures Runs(s[i..]) == [s[i..i + k]] + Runs(s[i + k..])
    ensures Runs(s[i..])[1..] == Runs(s[i + k..])
  {
    assert s[i..][..k] == s[i..i + k] && s[i..][k..] == s[i + k..];
    assert Digit(s[i..][..k][0]);
  }

  /** The helper's pattern finds the leftmost maximal digit run of length 4 to 8. */
  lemma HelperFindsTheFirstFittingRun(s: string)
    ensures Search(s, 0) == FirstFitting(Runs(s))
  {
    SearchIsFirstFitting(s, 0);
    assert s[0..] == s;
  }

  /** A run of fewer than 4 digits is passed over. */
  lemma {:induction false} FindSkips(s: string, i: nat, j: nat)
    requires i <= j <= |s| && Span(s[i..], NON_DIGITS) == j - i < 4
    ensures FindString(s, i) == FindString(s, j)
    decreases j - i
  {
    if i < j {
      DigitsIsSpan(s, i, 8);
      assert s[i..][1..] == s[i + 1..];
      FindSkips(s, i + 1, j);
    }
  }

  lemma {:induction false} FindIsFirstLong(s: string, i: nat)
    requires i <= |s|
    ensures FindString(s, i) == FirstLong(Runs(s[i..]))
    decreases |s| - i
  {
    if i == |s| {
      assert Runs(s[i..]) == [];
    } else if !Digit(s[i]) {
      OtherCharacter(s, i);
      FindIsFirstLong(s, i + 1);
    } else {
      var k := Span(s[i..], NON_DIGITS);
      DigitsIsSpan(s, i, 8);
      RunsFrom(s, i, k);
      if k >= 8 {
        assert s[i..i + k][..8] == s[i..i + 8];
      } else if k < 4 {
        FindSkips(s, i, i + k);
        FindIsFirstLong(s, i + k);
      }
    }
  }

  /** On arbitrary output of a code command, the daemon takes the first run of 4 or more
      digits, and no more than 8 of them. */
  lemma DaemonFindsTheFirstLongRun(s: string)
    ensures FindString(s, 0) == FirstLong(Runs(s))
  {
    FindIsFirstLong(s, 0);
    assert s[0..] == s;
  }

  // ------------------------------------------------------------ the helper

  datatype Part = Part(disposition: Option<string>, contentType: string, content: string, chunks: seq<string>)

  /** `" ".join(parser.parts)` */
  function JoinSpace(chunks: seq<string>): string {
    if chunks == [] then ""
    else if |chunks| == 1 then chunks[0]
    else chunks[0] + " " + JoinSpace(chunks[1..])
  }

  function Body(p: Part): string {
    if p.contentType == "text/html" then JoinSpace(p.chunks) else p.content
  }

  /** The digit runs a part is searched for: those of its content, or, where that is markup, of
      each stretch of its text. */
  function RunsIn(p: Part): seq<string> {
    if p.contentType == "text/html" then RunsOfAll(p.chunks) else Runs(p.content)
  }

  /** Neither an attachment nor of any other type. */
  predicate Searched(p: Part) {
    !(p.disposition.Some? && p.disposition.value == "attachment")
    && (p.contentType == "text/plain" || p.contentType == "text/html")
  }

  /** `extract_code`: the first readable part with a code decides. */
  method ExtractCode(parts: seq<Part>) returns (code: string)
    ensures code == "" ==>
              forall k :: 0 <= k < |parts| && Searched(parts[k]) ==> FirstFitting(RunsIn(parts[k])) == ""
    ensures code != "" ==>
              exists k :: 0 <= k < |parts| && Searched(parts[k]) && code == FirstFitting(RunsIn(parts[k]))
                && forall j :: 0 <= j < k && Searched(parts[j]) ==> FirstFitting(RunsIn(parts[j])) == ""
  {
    for k := 0 to |parts|
      invariant forall j :: 0 <= j < k && Searched(parts[j]) ==> FirstFitting(RunsIn(parts[j])) == ""
    {
      var part := parts[k];
      if part.disposition == Some("attachment") {
        continue;
      }
      if part.contentType !in {"text/plain", "text/html"} {
        continue;
      }
      var body := Body(part);
      HelperFindsTheFirstFittingRun(body);
      MarkupRuns(part.chunks);
      var found := Search(body, 0);
      if found != "" {
        return found;
      }
    }
    return "";
  }

  lemma RunsAcross(a: string, sep: char, b: string)
    requires !Digit(sep)
    ensures Runs(a + [sep] + b) == Runs(a) + Runs(b)
  {
    PiecesAcross(a, sep, b, NON_DIGITS);
  }

  function RunsOfAll(chunks: seq<string>): seq<string> {
    if chunks == [] then [] else Runs(chunks[0]) + RunsOfAll(chunks[1..])
  }

  /** In a mail of markup, a code is looked for in each stretch of text by itself: the blank
      that joins two stretches neither joins nor breaks a run. */
  lemma {:induction false} MarkupRuns(chunks: seq<string>)
    ensures Runs(JoinSpace(chunks)) == RunsOfAll(chunks)
  {
    if |chunks| == 1 {
      assert RunsOfAll(chunks[1..]) == [];
    } else if chunks != [] {
      RunsAcross(chunks[0], ' ', JoinSpace(chunks[1..]));
      MarkupRuns(chunks[1..]);
    }
  }

  // ------------------------------------------------------------ from helper to tunnel

  predicate CodeChar(c: char) {
    Digit(c) || 'A' <= c <= 'Z' || 'a' <= c <= 'z'
  }

  predicate CodeLine(line: string) {
    |line| >= 4 && forall i :: 0 <= i < |line| ==> CodeChar(line[i])
  }

  /** `grep -q '^[0-9A-Za-z]\{4,\}$'`: some line of the argument is a code. */
  predicate CliAccepts(code: string) {
    exists i :: 0 <= i < |Pieces(code, {'\n'})| && CodeLine(Pieces(code, {'\n'})[i])
  }

  lemma {:induction false} FittingIsDigits(s: string)
    ensures var c := FirstFitting(Runs(s)); c != "" ==> 4 <= |c| <= 8 && Numeral(c)
    decreases |s|
  {
    var k := Span(s, NON_DIGITS);
    if s == "" {
    } else if k == 0 {
      FittingIsDigits(s[1..]);
    } else {
      assert s[0..] == s && s[0..k] == s[..k];
      RunsFrom(s, 0, k);
      RunAt(s, 0, k);
      if !(4 <= k <= 8) {
        FittingIsDigits(s[k..]);
      }
    }
  }

  lemma NumeralIsOneRun(c: string, seps: set<char>)
    requires Numeral(c) && forall x :: x in seps ==> !Digit(x)
    ensures Pieces(c, seps) == [c]
  {
    PiecesLast(c, seps);
  }

  /** A code that the helper prints reaches the CLI unchanged and is accepted by it. */
  lemma CodePassesThrough(body: string)
    requires Search(body, 0) != ""
    ensures var code := Search(body, 0); FindString(code + "\n", 0) == code && CliAccepts(code)
  {
    var code := Search(body, 0);
    HelperFindsTheFirstFittingRun(body);
    FittingIsDigits(body);
    DaemonFindsTheFirstLongRun(code + "\n");
    RunsAcross(code, '\n', "");
    assert code + ['\n'] + "" == code + "\n";
    NumeralIsOneRun(code, NON_DIGITS);
    assert Runs(code + "\n") == [code];
    assert FirstLong([code]) == code by {
      assert |code| == 8 ==> code[..8] == code;
    }
    NumeralIsOneRun(code, {'\n'});
    assert CodeLine(Pieces(code, {'\n'})[0]);
  }

  /** The first run of at least 4 digits, uncut, or "". */
  function FirstOfFour(runs: seq<string>): string {
    if runs == [] then "" else if |runs[0]| >= 4 then runs[0] else FirstOfFour(runs[1..])
  }

  lemma {:induction false} FirstsOf(runs: seq<string>)
    ensures var r := FirstOfFour(runs);
            && (r == "" ==> FirstLong(runs) == FirstFitting(runs) == "")
            && (r != "" ==> |r| >= 4 && FirstLong(runs) == if |r| <= 8 then r else r[..8])
            && (r != "" && |r| <= 8 ==> FirstFitting(runs) == r)
  {
    if runs != [] && |runs[0]| < 4 {
      FirstsOf(runs[1..]);
    } else if runs != [] && |runs[0]| == 8 {
      assert runs[0][..8] == runs[0];
    }
  }

  /** On any text the daemon's pattern and the helper's find the same code exactly when there
      is no run of 4 or more digits, or the first such run has at most 8, or its first 8
      happen to spell the first run that fits. */
  lemma PatternsAgreeIff(s: string)
    ensures var r := FirstOfFour(Runs(s));
            FindString(s, 0) == Search(s, 0) <==> |r| <= 8 || r[..8] == FirstFitting(Runs(s))
  {
    FirstsOf(Runs(s));
    DaemonFindsTheFirstLongRun(s);
    HelperFindsTheFirstFittingRun(s);
  }

  /** The CLI accepts exactly one-line codes of at least 4 letters and digits. */
  lemma CliAcceptsIff(code: string)
    requires '\n' !in code
    ensures CliAccepts(code)
       <==> |code| >= 4 && forall i :: 0 <= i < |code| ==> code[i] in UPPER || code[i] in LOWER || code[i] in DIGITS
  {
    forall c
      ensures CodeChar(c) <==> c in UPPER || c in LOWER || c in DIGITS
    {
      CharClasses(c);
    }
    if code == "" {
      assert Pieces(code, {'\n'}) == [];
    } else {
      PiecesLast(code, {'\n'});
      assert Pieces(code, {'\n'})[0] == code;
    }
  }

  /** A command that prints a longer number is cut to its first 8 digits, where the helper
      would have passed over it. */
  lemma LongNumberIsCut()
    ensures FindString("123456789", 0) == "12345678" && Search("123456789", 0) == ""
  {
    var s := "123456789";
    NumeralIsOneRun(s, NON_DIGITS);
    DaemonFindsTheFirstLongRun(s);
    HelperFindsTheFirstFittingRun(s);
    assert Runs(s)[1..] == [];
  }
}
