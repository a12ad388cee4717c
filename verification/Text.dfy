/** Strings as the shell and the daemon take them apart: decimal numerals, the four
    `${s#…}` / `${s%…}` expansions around one separator character, and word splitting. */
module Text {

  datatype Option<+T> = None | Some(value: T)

  datatype Result<+T> = Ok(value: T) | Err(message: string)

  // ------------------------------------------------------------ characters

  predicate Digit(c: char) { '0' <= c <= '9' }

  /** What `grep '^[0-9][0-9]*$'` accepts. */
  predicate Numeral(s: string) {
    |s| > 0 && forall i :: 0 <= i < |s| ==> Digit(s[i])
  }

  /** IP / DNS-label characters, the class `[A-Za-z0-9._-]`. */
  predicate HostChar(c: char) {
    'a' <= c <= 'z' || 'A' <= c <= 'Z' || Digit(c) || c == '.' || c == '_' || c == '-'
  }

  predicate HostName(s: string) {
    |s| > 0 && forall i :: 0 <= i < |s| ==> HostChar(s[i])
  }

  const BLANKS: set<char> := {' ', '\t', '\n'}

  /** None of the characters of `bad` occurs in `s`. */
  predicate Free(s: string, bad: set<char>) {
    forall i :: 0 <= i < |s| ==> s[i] !in bad
  }

  const UPPER := "ABCDEFGHIJKLMNOPQRSTUVWXYZ"
  const LOWER := "abcdefghijklmnopqrstuvwxyz"
  const DIGITS := "0123456789"

  lemma Alphabet(k: nat)
    requires k < 26
    ensures UPPER[k] as int == 65 + k && LOWER[k] as int == 97 + k
  {
  }

  /** The ranges spelled out. */
  lemma CharClasses(c: char)
    ensures c in UPPER <==> 'A' <= c <= 'Z'
    ensures c in LOWER <==> 'a' <= c <= 'z'
    ensures c in DIGITS <==> Digit(c)
  {
    if 'A' <= c <= 'Z' {
      Alphabet(c as int - 'A' as int);
      assert UPPER[c as int - 'A' as int] == c;
    }
    if 'a' <= c <= 'z' {
      Alphabet(c as int - 'a' as int);
      assert LOWER[c as int - 'a' as int] == c;
    }
    forall k | 0 <= k < 26
      ensures 'A' <= UPPER[k] <= 'Z' && 'a' <= LOWER[k] <= 'z'
    {
      Alphabet(k);
    }
    DigitsAre(c);
  }

  lemma DigitsAre(c: char)
    ensures c in DIGITS <==> Digit(c)
  {
    if Digit(c) {
      assert DIGITS[c as int - '0' as int] == c;
    }
  }

  /** The characters of a host: `[A-Za-z0-9._-]`. */
  lemma HostCharIs(c: char)
    ensures HostChar(c) <==> c in UPPER || c in LOWER || c in DIGITS || c in {'.', '_', '-'}
  {
    CharClasses(c);
  }

  // ------------------------------------------------------------ numerals

  function DigitOf(d: nat): char
    requires d < 10
  {
    '0' + d as char
  }

  /** The decimal numeral of `n`: the shell's `$((…))` and Go's `strconv.Itoa`. */
  function Itoa(n: nat): string {
    if n < 10 then [DigitOf(n)] else Itoa(n / 10) + [DigitOf(n % 10)]
  }

  function Atoi(s: string): nat
    requires forall i :: 0 <= i < |s| ==> Digit(s[i])
  {
    if s == "" then 0
    else
      assert Digit(s[|s| - 1]);
      10 * Atoi(s[..|s| - 1]) + (s[|s| - 1] as nat - '0' as nat)
  }

  lemma {:induction false} ItoaNumeral(n: nat)
    ensures Numeral(Itoa(n)) && Atoi(Itoa(n)) == n
    ensures n > 0 ==> Itoa(n)[0] != '0'
  {
    if n >= 10 {
      ItoaNumeral(n / 10);
      var s := Itoa(n);
      assert s[..|s| - 1] == Itoa(n / 10);
    } else {
      assert Itoa(n)[..0] == "";
    }
  }

  lemma ItoaInjective(m: nat, n: nat)
    requires Itoa(m) == Itoa(n)
    ensures m == n
  {
    ItoaNumeral(m);
    ItoaNumeral(n);
  }

  /** A numeral without a leading zero is the numeral of its value. */
  lemma {:induction false} ItoaAtoi(s: string)
    requires Numeral(s) && s[0] != '0'
    ensures Atoi(s) > 0 && Itoa(Atoi(s)) == s
  {
    var front := s[..|s| - 1];
    if |s| == 1 {
      assert front == "";
    } else {
      assert front[0] == s[0];
      ItoaAtoi(front);
      assert s == front + [s[|s| - 1]];
    }
  }

  // ------------------------------------------------------------ separators

  /** Position of the first `c`, or -1. */
  function FirstIndex(s: string, c: char): (k: int)
    ensures -1 <= k < |s|
  {
    if s == "" then -1
    else if s[0] == c then 0
    else
      var k := FirstIndex(s[1..], c);
      if k < 0 then -1 else k + 1
  }

  /** Position of the last `c`, or -1. */
  function LastIndex(s: string, c: char): (k: int)
    ensures -1 <= k < |s|
  {
    if s == "" then -1
    else if s[|s| - 1] == c then |s| - 1
    else LastIndex(s[..|s| - 1], c)
  }

  lemma {:induction false} FirstIndexIs(s: string, c: char)
    ensures var k := FirstIndex(s, c);
            && (k >= 0 ==> s[k] == c && c !in s[..k])
            && (k < 0 ==> c !in s)
  {
    if s != "" && s[0] != c {
      FirstIndexIs(s[1..], c);
      var k := FirstIndex(s[1..], c);
      assert s == [s[0]] + s[1..];
      if k >= 0 {
        assert s[..k + 1] == [s[0]] + s[1..][..k];
      }
    }
  }

  lemma {:induction false} LastIndexIs(s: string, c: char)
    ensures var k := LastIndex(s, c);
            && (k >= 0 ==> s[k] == c && c !in s[k + 1..])
            && (k < 0 ==> c !in s)
  {
    if s != "" && s[|s| - 1] != c {
      var front := s[..|s| - 1];
      LastIndexIs(front, c);
      var k := LastIndex(front, c);
      assert s == front + [s[|s| - 1]];
      if k >= 0 {
        assert s[k + 1..] == front[k + 1..] + [s[|s| - 1]];
      }
    }
  }

  /** `${s%%c*}` */
  function BeforeFirst(s: string, c: char): string {
    var k := FirstIndex(s, c);
    if k < 0 then s else s[..k]
  }

  /** `${s#*c}` */
  function AfterFirst(s: string, c: char): string {
    var k := FirstIndex(s, c);
    if k < 0 then s else s[k + 1..]
  }

  /** `${s%c*}` */
  function BeforeLast(s: string, c: char): string {
    var k := LastIndex(s, c);
    if k < 0 then s else s[..k]
  }

  /** `${s##*c}` */
  function AfterLast(s: string, c: char): string {
    var k := LastIndex(s, c);
    if k < 0 then s else s[k + 1..]
  }

  /** A string that has the separator is what stands before, the separator, what stands after. */
  lemma FirstCut(s: string, c: char)
    requires c in s
    ensures s == BeforeFirst(s, c) + [c] + AfterFirst(s, c) && c !in BeforeFirst(s, c)
  {
    FirstIndexIs(s, c);
    var k := FirstIndex(s, c);
    assert s == s[..k] + [c] + s[k + 1..];
  }

  lemma LastCut(s: string, c: char)
    requires c in s
    ensures s == BeforeLast(s, c) + [c] + AfterLast(s, c) && c !in AfterLast(s, c)
  {
    LastIndexIs(s, c);
    var k := LastIndex(s, c);
    assert s == s[..k] + [c] + s[k + 1..];
  }

  lemma CutAtFirst(a: string, c: char, b: string)
    requires c !in a
    ensures BeforeFirst(a + [c] + b, c) == a && AfterFirst(a + [c] + b, c) == b
  {
    var s := a + [c] + b;
    FirstIndexIs(s, c);
    var k := FirstIndex(s, c);
    assert s[|a|] == c;
    assert k >= 0 && !(k < |a|) by {
      assert forall i :: 0 <= i < |a| ==> s[i] == a[i];
    }
    assert forall i :: 0 <= i < k ==> s[i] == s[..k][i];
  }

  lemma CutAtLast(a: string, c: char, b: string)
    requires c !in b
    ensures BeforeLast(a + [c] + b, c) == a && AfterLast(a + [c] + b, c) == b
  {
    var s := a + [c] + b;
    LastIndexIs(s, c);
    var k := LastIndex(s, c);
    assert s[|a|] == c;
    assert k >= 0 && !(|a| < k) by {
      assert forall i :: |a| < i < |s| ==> s[i] == b[i - |a| - 1];
    }
    assert forall i :: k < i < |s| ==> s[i] == s[k + 1..][i - k - 1];
  }

  lemma NoCut(s: string, c: char)
    requires c !in s
    ensures BeforeFirst(s, c) == AfterFirst(s, c) == BeforeLast(s, c) == AfterLast(s, c) == s
  {
    FirstIndexIs(s, c);
    LastIndexIs(s, c);
  }

  // ------------------------------------------------------------ splitting

  /** Length of the longest prefix without a separator. */
  function Span(s: string, seps: set<char>): (k: nat)
    ensures k <= |s| && Free(s[..k], seps)
    ensures k < |s| ==> s[k] in seps
  {
    if s == "" || s[0] in seps then 0
    else
      var k := Span(s[1..], seps);
      assert s[..k + 1] == [s[0]] + s[1..][..k];
      k + 1
  }

  /** The non-empty pieces between separators: unquoted word splitting, and also
      `read -ra` on a non-blank separator followed by `[ -n "$x" ] || continue`. */
  function Pieces(s: string, seps: set<char>): seq<string>
    decreases |s|
  {
    if s == "" then []
    else if s[0] in seps then Pieces(s[1..], seps)
    else
      var k := Span(s, seps);
      [s[..k]] + Pieces(s[k..], seps)
  }

  lemma {:induction false} SpanAcross(a: string, sep: char, b: string, seps: set<char>)
    requires sep in seps
    ensures Span(a + [sep] + b, seps) == Span(a, seps)
  {
    var s := a + [sep] + b;
    if a != "" && a[0] !in seps {
      assert s[1..] == a[1..] + [sep] + b;
      SpanAcross(a[1..], sep, b, seps);
    }
  }

  /** A separator neither joins nor breaks a piece. */
  lemma {:induction false} PiecesAcross(a: string, sep: char, b: string, seps: set<char>)
    requires sep in seps
    ensures Pieces(a + [sep] + b, seps) == Pieces(a, seps) + Pieces(b, seps)
    decreases |a|
  {
    var s := a + [sep] + b;
    if a == "" {
      assert s[1..] == b;
    } else if a[0] in seps {
      assert s[1..] == a[1..] + [sep] + b;
      PiecesAcross(a[1..], sep, b, seps);
    } else {
      var k := Span(a, seps);
      SpanAcross(a, sep, b, seps);
      assert s[..k] == a[..k] && s[k..] == a[k..] + [sep] + b;
      PiecesAcross(a[k..], sep, b, seps);
      assert Pieces(s, seps) == [a[..k]] + Pieces(s[k..], seps);
      assert Pieces(a, seps) == [a[..k]] + Pieces(a[k..], seps);
    }
  }

  /** The shell splits words at blanks, tabs and line ends. */
  lemma WordsAcross(a: string, sep: char, b: string)
    requires sep in " \t\n"
    ensures Pieces(a + [sep] + b, BLANKS) == Pieces(a, BLANKS) + Pieces(b, BLANKS)
  {
    assert sep == ' ' || sep == '\t' || sep == '\n';
    PiecesAcross(a, sep, b, BLANKS);
  }

  lemma PiecesCons(piece: string, sep: char, rest: string, seps: set<char>)
    requires sep in seps && piece != "" && Free(piece, seps)
    ensures Pieces(piece + [sep] + rest, seps) == [piece] + Pieces(rest, seps)
  {
    var s := piece + [sep] + rest;
    assert s[|piece|] == sep && forall i :: 0 <= i < |piece| ==> s[i] == piece[i];
    var k := Span(s, seps);
    assert forall i :: 0 <= i < k ==> s[i] == s[..k][i] && s[i] !in seps;
    assert k == |piece|;
    assert s[..k] == piece && s[k..][1..] == rest;
  }

  lemma PiecesLast(piece: string, seps: set<char>)
    requires piece != "" && Free(piece, seps)
    ensures Pieces(piece, seps) == [piece]
  {
    assert Span(piece, seps) == |piece|;
    assert piece[..|piece|] == piece && piece[|piece|..] == "";
  }

  /** Every string followed by the separator: `for x in …; do s="$s$x;"; done`. */
  function Terminated(pieces: seq<string>, sep: char): string {
    if pieces == [] then "" else pieces[0] + [sep] + Terminated(pieces[1..], sep)
  }

  /** Every string preceded by the separator: `s="$s $x"`. */
  function Prefixed(pieces: seq<string>, sep: char): string {
    if pieces == [] then "" else [sep] + pieces[0] + Prefixed(pieces[1..], sep)
  }

  predicate AllPieces(pieces: seq<string>, seps: set<char>) {
    forall i :: 0 <= i < |pieces| ==> pieces[i] != "" && Free(pieces[i], seps)
  }

  lemma {:induction false} PiecesOfTerminated(pieces: seq<string>, sep: char, seps: set<char>)
    requires sep in seps && AllPieces(pieces, seps)
    ensures Pieces(Terminated(pieces, sep), seps) == pieces
  {
    if pieces != [] {
      PiecesOfTerminated(pieces[1..], sep, seps);
      PiecesCons(pieces[0], sep, Terminated(pieces[1..], sep), seps);
    }
  }

  /** `${s#c}`: drop one leading `c`. */
  function DropLeading(s: string, c: char): string {
    if s != "" && s[0] == c then s[1..] else s
  }

  lemma {:induction false} PiecesOfPrefixed(pieces: seq<string>, sep: char, seps: set<char>)
    requires sep in seps && AllPieces(pieces, seps)
    ensures Pieces(Prefixed(pieces, sep), seps) == pieces
    ensures Pieces(DropLeading(Prefixed(pieces, sep), sep), seps) == pieces
  {
    if pieces != [] {
      PiecesOfPrefixed(pieces[1..], sep, seps);
      PrefixedHead(pieces, sep, seps);
    }
  }

  lemma PrefixedHead(pieces: seq<string>, sep: char, seps: set<char>)
    requires sep in seps && AllPieces(pieces, seps) && pieces != []
    ensures Pieces(Prefixed(pieces, sep), seps) == [pieces[0]] + Pieces(Prefixed(pieces[1..], sep), seps)
    ensures Pieces(DropLeading(Prefixed(pieces, sep), sep), seps) == Pieces(Prefixed(pieces, sep), seps)
  {
    var t, tail := pieces[0], Prefixed(pieces[1..], sep);
    PiecesHead(t, tail, sep, seps);
    SeparatorFirst(sep, t + tail, seps);
    assert Prefixed(pieces, sep) == [sep] + (t + tail);
  }

  lemma SeparatorFirst(sep: char, u: string, seps: set<char>)
    requires sep in seps
    ensures Pieces([sep] + u, seps) == Pieces(u, seps) && DropLeading([sep] + u, sep) == u
  {
    assert ([sep] + u)[1..] == u;
  }

  /** One piece in front of a string that is empty or starts with the separator. */
  lemma PiecesHead(piece: string, tail: string, sep: char, seps: set<char>)
    requires sep in seps && piece != "" && Free(piece, seps)
    requires tail == "" || tail[0] == sep
    ensures Pieces(piece + tail, seps) == [piece] + Pieces(tail, seps)
  {
    if tail == "" {
      assert piece + tail == piece;
      PiecesLast(piece, seps);
    } else {
      assert piece + tail == piece + [sep] + tail[1..];
      PiecesCons(piece, sep, tail[1..], seps);
    }
  }

  lemma {:induction false} PrefixedSnoc(pieces: seq<string>, x: string, sep: char)
    ensures Prefixed(pieces + [x], sep) == Prefixed(pieces, sep) + [sep] + x
  {
    if pieces == [] {
      assert Prefixed([x], sep) == [sep] + x + Prefixed([], sep);
    } else {
      assert (pieces + [x])[1..] == pieces[1..] + [x];
      PrefixedSnoc(pieces[1..], x, sep);
    }
  }

  lemma {:induction false} TerminatedSnoc(pieces: seq<string>, x: string, sep: char)
    ensures Terminated(pieces + [x], sep) == Terminated(pieces, sep) + x + [sep]
  {
    if pieces == [] {
      assert Terminated([x], sep) == x + [sep] + Terminated([], sep);
    } else {
      assert (pieces + [x])[1..] == pieces[1..] + [x];
      TerminatedSnoc(pieces[1..], x, sep);
    }
  }
}
