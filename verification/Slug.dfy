/** The name that a tunnel's container and auth directory are found by, computed twice:
    by the daemon's one-pass loop over runes and by the CLI's `tr | tr -cs | sed` pipeline
    over bytes. Byte strings are strings whose characters are below 256. */
module Slug {

  import opened Text

  predicate Alnum(c: char) { 'a' <= c <= 'z' || Digit(c) }

  /** Everything that a slug turns into a dash. */
  const OTHERS: set<char> := set c: char | !Alnum(c)

  // ------------------------------------------------------------ lower-casing

  function AsciiLower(c: char): char {
    if 'A' <= c <= 'Z' then 'a' + (c - 'A') else c
  }

  /** The two runes outside ASCII whose lower case is an ASCII letter. */
  const DOTTED_I: char := '\U{0130}'
  const KELVIN: char := '\U{212A}'

  predicate FoldsToAscii(c: char) { c == DOTTED_I || c == KELVIN }

  /** `unicode.ToLower`, as far as a slug can tell: which rune a non-ASCII rune becomes
      does not matter unless it becomes an ASCII letter. */
  function RuneLower(c: char): char {
    if c == DOTTED_I then 'i' else if c == KELVIN then 'k' else AsciiLower(c)
  }

  /** `strings.ToLower` */
  function GoLower(s: string): string {
    if s == "" then "" else [RuneLower(s[0])] + GoLower(s[1..])
  }

  /** `tr '[:upper:]' '[:lower:]'` */
  function TrLower(s: string): string {
    if s == "" then "" else [AsciiLower(s[0])] + TrLower(s[1..])
  }

  /** The UTF-8 encoding of one rune. */
  function Encode(c: char): string {
    var n := c as int;
    if n < 0x80 then [c]
    else if n < 0x800 then [Byte(0xC0, n / 0x40), Byte(0x80, n % 0x40)]
    else if n < 0x10000 then [Byte(0xE0, n / 0x1000), Byte(0x80, n / 0x40 % 0x40), Byte(0x80, n % 0x40)]
    else [Byte(0xF0, n / 0x40000), Byte(0x80, n / 0x1000 % 0x40), Byte(0x80, n / 0x40 % 0x40), Byte(0x80, n % 0x40)]
  }

  function Byte(marker: int, bits: int): (b: char)
    requires 0x80 <= marker && 0 <= bits < 0x40 && marker + bits < 0x100
    ensures !Alnum(b) && AsciiLower(b) == b
  {
    (marker + bits) as char
  }

  function Utf8(s: string): string {
    if s == "" then "" else Encode(s[0]) + Utf8(s[1..])
  }

  // ------------------------------------------------------------ the CLI

  /** What the complement `-c 'a-z0-9'` is translated to. */
  function Dashed(s: string): string {
    if s == "" then "" else [if Alnum(s[0]) then s[0] else '-'] + Dashed(s[1..])
  }

  /** `tr -s`: one dash for a run of dashes. */
  function Squeeze(s: string): string {
    if |s| >= 2 && s[0] == '-' && s[1] == '-' then Squeeze(s[1..])
    else if s == "" then ""
    else [s[0]] + Squeeze(s[1..])
  }

  /** `sed 's/^-//; s/-$//'` */
  function TrimOne(s: string): string {
    var t := if s != "" && s[0] == '-' then s[1..] else s;
    if t != "" && t[|t| - 1] == '-' then t[..|t| - 1] else t
  }

  /** `slugify` of the CLI on a byte string. */
  function CliSlug(s: string): string {
    TrimOne(Squeeze(Dashed(TrLower(s))))
  }

  // ------------------------------------------------------------ the daemon

  /** `strings.Trim(s, "-")` */
  function TrimAll(s: string): string
    decreases |s|
  {
    if s != "" && s[0] == '-' then TrimAll(s[1..])
    else if s != "" && s[|s| - 1] == '-' then TrimAll(s[..|s| - 1])
    else s
  }

  /** What is still to be written for `s` after a dash (`prevDash`) or not. */
  function Emit(s: string, prevDash: bool): string {
    if s == "" then ""
    else if Alnum(s[0]) then [s[0]] + Emit(s[1..], false)
    else if prevDash then Emit(s[1..], true)
    else "-" + Emit(s[1..], true)
  }

  lemma EmitFrom(s: string, i: nat, prevDash: bool)
    requires i < |s|
    ensures Emit(s[i..], prevDash)
         == if Alnum(s[i]) then [s[i]] + Emit(s[i + 1..], false)
            else if prevDash then Emit(s[i + 1..], true)
            else "-" + Emit(s[i + 1..], true)
  {
    assert s[i..][1..] == s[i + 1..];
  }

  lemma Regroup(a: string, b: string, c: string)
    ensures a + (b + c) == (a + b) + c
  {
  }

  /** `slugify` of the daemon. */
  method Slugify(s: string) returns (slug: string)
    ensures slug == Join(Words(GoLower(s)))
  {
    var lower := GoLower(s);
    var b, prevDash := "", false;
    for i := 0 to |lower|
      invariant b + Emit(lower[i..], prevDash) == Emit(lower, false)
    {
      var r := lower[i];
      EmitFrom(lower, i, prevDash);
      if Alnum(r) {
        Regroup(b, [r], Emit(lower[i + 1..], false));
        b, prevDash := b + [r], false;
      } else if !prevDash {
        Regroup(b, "-", Emit(lower[i + 1..], true));
        b, prevDash := b + "-", true;
      }
    }
    assert lower[|lower|..] == "" && b + "" == b;
    TrimmedEmit(lower);
    slug := TrimAll(b);
  }

  // ------------------------------------------------------------ what a slug is

  /** The maximal runs of letters and digits. */
  function Words(s: string): seq<string> {
    Pieces(s, OTHERS)
  }

  function Join(words: seq<string>): string {
    if words == [] then ""
    else if |words| == 1 then words[0]
    else words[0] + "-" + Join(words[1..])
  }

  predicate Word(w: string) {
    w != "" && forall i :: 0 <= i < |w| ==> Alnum(w[i])
  }

  predicate AllWords(words: seq<string>) {
    forall i :: 0 <= i < |words| ==> Word(words[i])
  }

  function Lead(s: string): string {
    if s != "" && !Alnum(s[0]) then "-" else ""
  }

  /** A dash is left behind the last word when something follows it. */
  function Trail(s: string): string {
    if Words(s) != [] && !Alnum(s[|s| - 1]) then "-" else ""
  }

  lemma {:induction false} WordsAreWords(s: string)
    ensures AllWords(Words(s))
    decreases |s|
  {
    if s != "" {
      if s[0] in OTHERS {
        WordsAreWords(s[1..]);
      } else {
        var k := Span(s, OTHERS);
        WordsAreWords(s[k..]);
        assert forall i :: 0 <= i < k ==> s[..k][i] !in OTHERS;
        assert Word(s[..k]);
      }
    }
  }

  /** A word is copied through. */
  lemma {:induction false} EmitWord(w: string, rest: string, prevDash: bool)
    requires Word(w)
    ensures Emit(w + rest, prevDash) == w + Emit(rest, false)
  {
    var s := w + rest;
    assert s[0] == w[0];
    if |w| == 1 {
      assert s[1..] == rest;
    } else {
      assert s[1..] == w[1..] + rest;
      EmitWord(w[1..], rest, false);
    }
  }

  lemma EmitLead(s: string)
    ensures Emit(s, false) == Lead(s) + Emit(s, true)
  {
  }

  lemma FreeIsWord(w: string)
    requires Free(w, OTHERS) && w != ""
    ensures Word(w)
  {
    assert forall i :: 0 <= i < |w| ==> w[i] !in OTHERS;
  }

  lemma FirstWord(s: string, k: nat)
    requires s != "" && Alnum(s[0]) && k == Span(s, OTHERS)
    ensures 0 < k <= |s| && (k < |s| ==> s[k] in OTHERS) && Word(s[..k])
    ensures Words(s) == [s[..k]] + Words(s[k..])
  {
    FreeIsWord(s[..k]);
  }

  /** The first word and what follows it. */
  lemma EmitFirstWord(s: string, k: nat)
    requires 0 < k <= |s| && Word(s[..k])
    ensures Emit(s, true) == s[..k] + Emit(s[k..], false)
  {
    assert s == s[..k] + s[k..];
    EmitWord(s[..k], s[k..], true);
  }

  /** After a dash: the words with one dash between them, and perhaps one behind. */
  lemma {:induction false} EmitAfterDash(s: string)
    ensures Emit(s, true) == Join(Words(s)) + Trail(s)
    decreases |s|
  {
    if s == "" {
    } else if !Alnum(s[0]) {
      EmitAfterDash(s[1..]);
      TrailTail(s);
    } else {
      var k := Span(s, OTHERS);
      FirstWord(s, k);
      EmitFirstWord(s, k);
      EmitLead(s[k..]);
      EmitAfterDash(s[k..]);
      TrailWord(s, k);
    }
  }

  /** Once the first word is through, the rest is its dash, its words and its trailing dash. */
  lemma TrailWord(s: string, k: nat)
    requires 0 < k <= |s| && (k < |s| ==> s[k] in OTHERS)
    requires Word(s[..k]) && Words(s) == [s[..k]] + Words(s[k..])
    ensures s[..k] + (Lead(s[k..]) + (Join(Words(s[k..])) + Trail(s[k..]))) == Join(Words(s)) + Trail(s)
  {
    var w, rest := s[..k], s[k..];
    assert Words(s)[1..] == Words(rest);
    if Words(rest) == [] {
      NoWords(rest);
      assert Join(Words(s)) == w;
      if rest == "" {
        assert s[|s| - 1] == w[|w| - 1];
      } else {
        assert s[|s| - 1] == rest[|rest| - 1];
      }
    } else {
      assert rest != "" && s[|s| - 1] == rest[|rest| - 1];
      assert Join(Words(s)) == w + "-" + Join(Words(rest));
    }
  }

  lemma {:induction false} NoWords(s: string)
    requires Words(s) == []
    ensures s != "" ==> !Alnum(s[|s| - 1])
  {
    if |s| >= 2 {
      assert s[0] in OTHERS;
      NoWords(s[1..]);
    } else if s != "" {
      assert s[0] in OTHERS;
    }
  }

  lemma TrailTail(s: string)
    requires s != "" && !Alnum(s[0])
    ensures Trail(s) == Trail(s[1..]) && Words(s) == Words(s[1..])
  {
    assert Words(s) == Words(s[1..]);
  }

  lemma EmitIsWords(s: string)
    ensures Emit(s, false) == Lead(s) + Join(Words(s)) + Trail(s)
  {
    EmitLead(s);
    EmitAfterDash(s);
  }

  lemma {:induction false} JoinEnds(words: seq<string>)
    requires AllWords(words) && words != []
    ensures var t := Join(words); t != "" && Alnum(t[0]) && Alnum(t[|t| - 1])
  {
    if |words| > 1 {
      JoinEnds(words[1..]);
      var t := Join(words[1..]);
      assert Join(words)[|Join(words)| - 1] == t[|t| - 1];
    }
    assert Join(words)[0] == words[0][0];
  }

  predicate NoEdgeDash(t: string) {
    t == "" || (t[0] != '-' && t[|t| - 1] != '-')
  }

  lemma TrimTrailing(t: string)
    requires t != "" && NoEdgeDash(t)
    ensures TrimAll(t) == t && TrimAll(t + "-") == t && TrimOne(t) == t && TrimOne(t + "-") == t
  {
    var u := t + "-";
    assert u[0] == t[0] && u[..|u| - 1] == t;
  }

  lemma TrimLeading(u: string)
    requires u != "" && u[0] != '-'
    ensures TrimAll("-" + u) == TrimAll(u) && TrimOne("-" + u) == TrimOne(u)
  {
    assert ("-" + u)[1..] == u;
  }

  /** Both trims take the dashes off and nothing else. */
  lemma TrimmedJoin(words: seq<string>, lead: string, trail: string)
    requires AllWords(words) && lead in {"", "-"} && trail in {"", "-"}
    requires words == [] ==> trail == ""
    ensures TrimOne(lead + Join(words) + trail) == Join(words)
    ensures TrimAll(lead + Join(words) + trail) == Join(words)
  {
    var t := Join(words);
    if words == [] {
      assert lead + t + trail == lead;
    } else {
      JoinEnds(words);
      TrimTrailing(t);
      var u := t + trail;
      assert trail == "" ==> u == t;
      assert lead + t + trail == lead + u;
      if lead == "" {
        assert lead + u == u;
      } else {
        TrimLeading(u);
      }
    }
  }

  lemma TrimmedEmit(s: string)
    ensures TrimAll(Emit(s, false)) == TrimOne(Emit(s, false)) == Join(Words(s))
  {
    EmitIsWords(s);
    WordsAreWords(s);
    TrimmedJoin(Words(s), Lead(s), Trail(s));
  }

  // ------------------------------------------------------------ the pipeline

  /** `tr -cs` writes what the daemon's loop writes. */
  lemma {:induction false} SqueezeIsEmit(s: string)
    ensures Squeeze(Dashed(s)) == Emit(s, false)
    ensures Squeeze("-" + Dashed(s)) == "-" + Emit(s, true)
  {
    if s != "" {
      var d := Dashed(s);
      var rest := Dashed(s[1..]);
      SqueezeIsEmit(s[1..]);
      assert ("-" + d)[1..] == d && d[1..] == rest;
      if Alnum(s[0]) {
        assert Squeeze(d) == [s[0]] + Squeeze(rest);
      } else {
        assert d == "-" + rest;
      }
    } else {
      assert Squeeze("-") == "-" + Squeeze("");
    }
  }

  /** The bytes of a rune outside ASCII make one dash, as the rune does. */
  lemma {:induction false} EmitBytes(s: string, prevDash: bool)
    ensures Emit(TrLower(Utf8(s)), prevDash) == Emit(TrLower(s), prevDash)
  {
    if s != "" {
      var c, rest := s[0], Utf8(s[1..]);
      EmitBytes(s[1..], false);
      EmitBytes(s[1..], true);
      if c as int < 0x80 {
        assert Utf8(s) == [c] + rest && Utf8(s)[1..] == rest;
      } else {
        TrLowerAppend(Encode(c), rest);
        EncodedIsOther(c);
        EmitOthers(Encode(c), TrLower(rest), prevDash);
        assert !Alnum(AsciiLower(c));
      }
    }
  }

  lemma {:induction false} TrLowerAppend(a: string, b: string)
    ensures TrLower(a + b) == TrLower(a) + TrLower(b)
  {
    if a == "" {
      assert a + b == b;
    } else {
      var c, rest := [AsciiLower(a[0])], a[1..];
      TrLowerAppend(rest, b);
      assert (a + b)[1..] == rest + b;
      assert TrLower(a + b) == c + (TrLower(rest) + TrLower(b));
      assert TrLower(a) == c + TrLower(rest);
    }
  }

  predicate AllOther(s: string) {
    forall i :: 0 <= i < |s| ==> !Alnum(s[i])
  }

  lemma EncodedIsOther(c: char)
    requires c as int >= 0x80
    ensures AllOther(Encode(c)) && |Encode(c)| > 0 && TrLower(Encode(c)) == Encode(c)
  {
    var e := Encode(c);
    assert forall i :: 0 <= i < |e| ==> !Alnum(e[i]) && AsciiLower(e[i]) == e[i];
    TrLowerSame(e);
  }

  lemma {:induction false} TrLowerSame(s: string)
    requires forall i :: 0 <= i < |s| ==> AsciiLower(s[i]) == s[i]
    ensures TrLower(s) == s
  {
    if s != "" {
      TrLowerSame(s[1..]);
    }
  }

  lemma {:induction false} EmitOthers(a: string, b: string, prevDash: bool)
    requires AllOther(a) && |a| > 0
    ensures Emit(a + b, prevDash) == (if prevDash then "" else "-") + Emit(b, true)
  {
    var s := a + b;
    if |a| == 1 {
      assert s[1..] == b;
    } else {
      assert s[1..] == a[1..] + b;
      EmitOthers(a[1..], b, true);
    }
  }

  /** The CLI's slug of a name's UTF-8 bytes: the words of its ASCII-lower-cased runes. */
  lemma CliSlugIs(s: string)
    ensures CliSlug(Utf8(s)) == Join(Words(TrLower(s)))
  {
    var t := TrLower(s);
    SqueezeIsEmit(TrLower(Utf8(s)));
    EmitBytes(s, false);
    TrimmedEmit(t);
  }

  // ------------------------------------------------------------ agreement

  predicate NoFold(s: string) {
    forall i :: 0 <= i < |s| ==> !FoldsToAscii(s[i])
  }

  /** How many letters and digits a string holds: no step of either slug changes it. */
  function Count(s: string): nat {
    if s == "" then 0 else (if Alnum(s[0]) then 1 else 0) + Count(s[1..])
  }

  lemma {:induction false} CountAppend(a: string, b: string)
    ensures Count(a + b) == Count(a) + Count(b)
  {
    if a == "" {
      assert a + b == b;
    } else {
      CountAppend(a[1..], b);
      assert (a + b)[1..] == a[1..] + b;
    }
  }

  lemma {:induction false} CountEmit(s: string, prevDash: bool)
    ensures Count(Emit(s, prevDash)) == Count(s)
  {
    if s != "" {
      CountEmit(s[1..], !Alnum(s[0]));
      var head := if Alnum(s[0]) then [s[0]] else if prevDash then "" else "-";
      CountAppend(head, Emit(s[1..], !Alnum(s[0])));
    }
  }

  lemma CountSlug(s: string)
    ensures Count(Join(Words(s))) == Count(s)
  {
    EmitIsWords(s);
    CountEmit(s, false);
    CountAppend(Lead(s) + Join(Words(s)), Trail(s));
    CountAppend(Lead(s), Join(Words(s)));
  }

  lemma {:induction false} CountLower(s: string)
    ensures NoFold(s) ==> GoLower(s) == TrLower(s)
    ensures Count(GoLower(s)) >= Count(TrLower(s))
    ensures !NoFold(s) ==> Count(GoLower(s)) > Count(TrLower(s))
  {
    if s != "" {
      CountLower(s[1..]);
      assert NoFold(s) <==> !FoldsToAscii(s[0]) && NoFold(s[1..]) by {
        assert s == [s[0]] + s[1..];
      }
    }
  }

  /** The daemon and the CLI find the same container and auth directory for a tunnel exactly
      when its name holds neither of the two runes that lower-case into ASCII. */
  lemma SlugsAgreeIff(s: string)
    ensures Join(Words(GoLower(s))) == CliSlug(Utf8(s)) <==> NoFold(s)
  {
    CliSlugIs(s);
    CountLower(s);
    CountSlug(GoLower(s));
    CountSlug(TrLower(s));
  }

  predicate Ascii(s: string) {
    forall i :: 0 <= i < |s| ==> s[i] as int < 0x80
  }

  lemma {:induction false} AsciiIsItsBytes(s: string)
    requires Ascii(s)
    ensures Utf8(s) == s
  {
    if s != "" {
      AsciiIsItsBytes(s[1..]);
    }
  }

  lemma AsciiSlugsAgree(s: string)
    requires Ascii(s)
    ensures Join(Words(GoLower(s))) == CliSlug(s)
  {
    AsciiIsItsBytes(s);
    SlugsAgreeIff(s);
  }

  // ------------------------------------------------------------ shape and idempotence

  /** Lower-case letters, digits and single inner dashes. */
  predicate SlugShaped(t: string) {
    && (forall i :: 0 <= i < |t| ==> Alnum(t[i]) || t[i] == '-')
    && (forall i :: 0 <= i < |t| - 1 ==> Alnum(t[i]) || Alnum(t[i + 1]))
    && (t != "" ==> Alnum(t[0]) && Alnum(t[|t| - 1]))
  }

  lemma {:induction false} JoinShape(words: seq<string>)
    requires AllWords(words)
    ensures SlugShaped(Join(words))
  {
    if |words| > 1 {
      var w, u := words[0], Join(words[1..]);
      JoinShape(words[1..]);
      JoinEnds(words[1..]);
      var t := Join(words);
      assert t == w + "-" + u;
      forall i | 0 <= i < |t|
        ensures Alnum(t[i]) || t[i] == '-'
        ensures i + 1 < |t| ==> Alnum(t[i]) || Alnum(t[i + 1])
      {
        if i > |w| {
          assert t[i] == u[i - |w| - 1];
        }
        assert i >= |w| && i + 1 < |t| ==> t[i + 1] == u[i - |w|];
      }
      assert t[|t| - 1] == u[|u| - 1];
    }
  }

  lemma {:induction false} WordsOfJoin(words: seq<string>)
    requires AllWords(words)
    ensures Words(Join(words)) == words
  {
    if words != [] {
      var w := words[0];
      assert Free(w, OTHERS) by {
        assert forall i :: 0 <= i < |w| ==> Alnum(w[i]);
      }
      if |words| == 1 {
        PiecesLast(w, OTHERS);
      } else {
        WordsOfJoin(words[1..]);
        PiecesCons(w, '-', Join(words[1..]), OTHERS);
      }
    }
  }

  lemma {:induction false} GoLowerSame(s: string)
    requires forall i :: 0 <= i < |s| ==> Alnum(s[i]) || s[i] == '-'
    ensures GoLower(s) == s
  {
    if s != "" {
      GoLowerSame(s[1..]);
    }
  }

  /** A slug has the shape of one, and is its own slug on both sides. */
  lemma SlugIsAFixedPoint(s: string)
    ensures var t := Join(Words(GoLower(s)));
            SlugShaped(t) && Join(Words(GoLower(t))) == t && CliSlug(t) == t
  {
    var words := Words(GoLower(s));
    WordsAreWords(GoLower(s));
    JoinShape(words);
    GoLowerSame(Join(words));
    WordsOfJoin(words);
    AsciiSlugsAgree(Join(words));
  }

  // ------------------------------------------------------------ which characters survive

  /** What one ASCII character leaves in a slug: its letter in lower case, its digit, or nothing. */
  predicate Leaves(c: char, left: string) {
    if c in UPPER then exists k :: 0 <= k < 26 && c == UPPER[k] && left == [LOWER[k]]
    else if c in LOWER || c in DIGITS then left == [c]
    else left == ""
  }

  /** The letters and digits of a string, one after the other. */
  function Letters(s: string): string {
    if s == "" then "" else (if Alnum(s[0]) then [s[0]] else "") + Letters(s[1..])
  }

  /** `left` is what all characters of `s` leave. */
  ghost predicate AllLeave(s: string, left: string)
    decreases |s|
  {
    if s == "" then left == ""
    else exists k: nat :: k <= |left| && Leaves(s[0], left[..k]) && AllLeave(s[1..], left[k..])
  }

  lemma LowerLeaves(c: char)
    ensures Leaves(c, if Alnum(AsciiLower(c)) then [AsciiLower(c)] else "")
  {
    CharClasses(c);
    if 'A' <= c <= 'Z' {
      var k := c as int - 'A' as int;
      Alphabet(k);
      assert c == UPPER[k] && AsciiLower(c) == LOWER[k];
    }
  }

  lemma {:induction false} LettersLeft(s: string)
    ensures AllLeave(s, Letters(TrLower(s)))
  {
    if s != "" {
      var c := AsciiLower(s[0]);
      var head := if Alnum(c) then [c] else "";
      var left := Letters(TrLower(s));
      assert TrLower(s)[0] == c && TrLower(s)[1..] == TrLower(s[1..]);
      assert left == head + Letters(TrLower(s[1..]));
      LowerLeaves(s[0]);
      LettersLeft(s[1..]);
      assert left[..|head|] == head && left[|head|..] == Letters(TrLower(s[1..]));
    }
  }

  lemma {:induction false} LettersAppend(a: string, b: string)
    ensures Letters(a + b) == Letters(a) + Letters(b)
  {
    if a == "" {
      assert a + b == b;
    } else {
      var head := if Alnum(a[0]) then [a[0]] else "";
      LettersAppend(a[1..], b);
      assert (a + b)[1..] == a[1..] + b;
      assert Letters(a + b) == head + (Letters(a[1..]) + Letters(b));
      assert Letters(a) == head + Letters(a[1..]);
    }
  }

  lemma {:induction false} LettersEmit(s: string, prevDash: bool)
    ensures Letters(Emit(s, prevDash)) == Letters(s)
  {
    if s != "" {
      LettersEmit(s[1..], !Alnum(s[0]));
      if Alnum(s[0]) {
        assert Emit(s, prevDash)[1..] == Emit(s[1..], false);
      } else if !prevDash {
        assert Emit(s, prevDash)[1..] == Emit(s[1..], true);
      }
    }
  }

  lemma LettersSlug(s: string)
    ensures Letters(Join(Words(s))) == Letters(s)
  {
    EmitIsWords(s);
    LettersEmit(s, false);
    LettersAppend(Lead(s) + Join(Words(s)), Trail(s));
    LettersAppend(Lead(s), Join(Words(s)));
    assert Letters(Lead(s)) == "" && Letters(Trail(s)) == "";
    assert "" + Letters(Join(Words(s))) + "" == Letters(Join(Words(s)));
  }

  /** Every letter and digit of an ASCII name is in both slugs, in order and in lower case, and
      nothing else is but the dashes. */
  lemma SlugKeepsLetters(s: string)
    requires Ascii(s)
    ensures AllLeave(s, Letters(Join(Words(GoLower(s))))) && AllLeave(s, Letters(CliSlug(s)))
  {
    AsciiSlugsAgree(s);
    AsciiIsItsBytes(s);
    CliSlugIs(s);
    LettersSlug(TrLower(s));
    LettersLeft(s);
  }
}
