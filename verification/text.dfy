/**
 * The JavaScript string operations the core relies on: `trim`, `split('\n')`,
 * `includes`, `replace` with a string pattern, `toLowerCase`, `length` (in
 * UTF-16 code units) and the decimal rendering of a non-negative integer.
 */
module Text {
  import opened Wrappers

  // ---------------------------------------------------------------------------
  // Whitespace and trim

  /** The characters `String.prototype.trim` strips: WhiteSpace and LineTerminator. */
  predicate IsSpace(c: char) {
    || c == '\t' || c == '\n' || c == '\U{B}' || c == '\U{C}' || c == '\r' || c == ' '
    || c == '\U{A0}' || c == '\U{1680}' || ('\U{2000}' <= c <= '\U{200A}')
    || c == '\U{2028}' || c == '\U{2029}' || c == '\U{202F}' || c == '\U{205F}'
    || c == '\U{3000}' || c == '\U{FEFF}'
  }

  function TrimStart(s: string): (r: string)
    ensures |r| <= |s| && r == s[|s| - |r|..]
    ensures r == [] || !IsSpace(r[0])
    ensures forall i :: 0 <= i < |s| - |r| ==> IsSpace(s[i])
  {
    if s != [] && IsSpace(s[0]) then TrimStart(s[1..]) else s
  }

  function TrimEnd(s: string): (r: string)
    ensures |r| <= |s| && r == s[..|r|]
    ensures r == [] || !IsSpace(r[|r| - 1])
    ensures forall i :: |r| <= i < |s| ==> IsSpace(s[i])
  {
    if s != [] && IsSpace(s[|s| - 1]) then TrimEnd(s[..|s| - 1]) else s
  }

  /** `s.trim()` */
  function Trim(s: string): string {
    TrimEnd(TrimStart(s))
  }

  /** The JavaScript test `!s.trim()`: nothing is left after trimming. */
  predicate IsBlank(s: string) {
    Trim(s) == ""
  }

  /** A string is blank exactly when every character of it is whitespace. */
  lemma BlankIffAllSpace(s: string)
    ensures IsBlank(s) <==> forall i :: 0 <= i < |s| ==> IsSpace(s[i])
  {
  }

  // ---------------------------------------------------------------------------
  // split('\n') and filter(line => line.trim())

  /** `s.split('\n')`: always at least one piece; no piece holds a newline. */
  function Lines(s: string): (r: seq<string>)
    ensures |r| >= 1
    ensures forall k :: 0 <= k < |r| ==> '\n' !in r[k]
  {
    if s == [] then [[]]
    else
      var rest := Lines(s[1..]);
      if s[0] == '\n' then [[]] + rest
      else [[s[0]] + rest[0]] + rest[1..]
  }

  /** `ls.join('\n')`, the inverse of `Lines`. */
  function Join(ls: seq<string>): string
    requires |ls| >= 1
  {
    if |ls| == 1 then ls[0] else ls[0] + "\n" + Join(ls[1..])
  }

  /** Splitting on newlines loses nothing: joining the pieces gives the string back. */
  lemma {:induction false} JoinLines(s: string)
    ensures Join(Lines(s)) == s
  {
    if s != [] {
      var rest := Lines(s[1..]);
      JoinLines(s[1..]);
      if s[0] == '\n' {
        assert ([[]] + rest)[1..] == rest;
      } else if |rest| > 1 {
        var r := [[s[0]] + rest[0]] + rest[1..];
        assert r[1..] == rest[1..];
        assert Join(rest) == rest[0] + "\n" + Join(rest[1..]);
      }
    }
  }

  /** `lines.filter(line => line.trim())`, in the original order. */
  function NonBlank(ls: seq<string>): (r: seq<string>)
    ensures |r| <= |ls|
  {
    if ls == [] then []
    else (if IsBlank(ls[0]) then [] else [ls[0]]) + NonBlank(ls[1..])
  }

  /** The filter keeps exactly the lines that are not blank. */
  lemma {:induction false} NonBlankMembers(ls: seq<string>)
    ensures forall x :: x in NonBlank(ls) <==> x in ls && !IsBlank(x)
  {
    if ls != [] {
      NonBlankMembers(ls[1..]);
      assert ls == [ls[0]] + ls[1..];
    }
  }

  function NonBlankLines(s: string): seq<string> {
    NonBlank(Lines(s))
  }

  /** A string that is not blank has a line that is not blank. */
  lemma {:induction false} NonBlankHasLine(s: string)
    requires !IsBlank(s)
    ensures |NonBlankLines(s)| > 0
  {
    BlankIffAllSpace(s);
    var i :| 0 <= i < |s| && !IsSpace(s[i]);
    var k := LineHolding(s, i);
    BlankIffAllSpace(Lines(s)[k]);
    NonBlankMembers(Lines(s));
    assert Lines(s)[k] in NonBlankLines(s);
  }

  /** Some line of `s` keeps the character `s[i]` when that character is not a newline. */
  lemma {:induction false} LineHolding(s: string, i: nat) returns (k: nat)
    requires i < |s| && s[i] != '\n'
    ensures k < |Lines(s)| && s[i] in Lines(s)[k]
  {
    var rest := Lines(s[1..]);
    if i == 0 {
      k := 0;
      assert Lines(s)[0] == [s[0]] + rest[0];
    } else {
      var k' := LineHolding(s[1..], i - 1);
      assert s[1..][i - 1] == s[i];
      if s[0] == '\n' {
        k := k' + 1;
        assert Lines(s)[k] == rest[k'];
      } else if k' == 0 {
        k := 0;
        assert Lines(s)[0] == [s[0]] + rest[0];
      } else {
        k := k';
        assert Lines(s)[k] == rest[k'];
      }
    }
  }

  // ---------------------------------------------------------------------------
  // indexOf, includes, replace(string, string)

  /** `s` holds `pat` starting at index `i`. */
  predicate MatchAt(s: string, pat: string, i: nat) {
    i + |pat| <= |s| && s[i..i + |pat|] == pat
  }

  ghost predicate Occurs(pat: string, s: string) {
    exists i: nat :: MatchAt(s, pat, i)
  }

  /** `i` is where `pat` occurs first in `s`. */
  ghost predicate FirstMatch(s: string, pat: string, i: nat) {
    MatchAt(s, pat, i) && forall j: nat :: j < i ==> !MatchAt(s, pat, j)
  }

  /** `s.indexOf(pat, from)`, with `None` for -1. */
  function FindFrom(s: string, pat: string, from: nat): (r: Option<nat>)
    decreases |s| - from
    ensures r.Some? ==> from <= r.value && MatchAt(s, pat, r.value)
    ensures forall i: nat :: from <= i && (r.None? || i < r.value) ==> !MatchAt(s, pat, i)
  {
    if from + |pat| > |s| then None
    else if MatchAt(s, pat, from) then Some(from)
    else FindFrom(s, pat, from + 1)
  }

  function IndexOf(s: string, pat: string): (r: Option<nat>)
    ensures r.Some? <==> Occurs(pat, s)
    ensures r.Some? ==> FirstMatch(s, pat, r.value)
  {
    FindFrom(s, pat, 0)
  }

  /** `s.includes(pat)` */
  predicate Contains(s: string, pat: string) {
    IndexOf(s, pat).Some?
  }

  /**
   * `s.replace(pat, rep)` with a string pattern: the first occurrence of `pat`
   * is replaced, and `s` is returned unchanged when `pat` does not occur.
   */
  function ReplaceFirst(s: string, pat: string, rep: string): (r: string)
    ensures !Occurs(pat, s) ==> r == s
    ensures forall i: nat :: FirstMatch(s, pat, i) ==> r == s[..i] + rep + s[i + |pat|..]
  {
    match IndexOf(s, pat)
    case None => s
    case Some(i) => s[..i] + rep + s[i + |pat|..]
  }

  /** `s.endsWith(suffix)` */
  predicate EndsWith(s: string, suffix: string) {
    |suffix| <= |s| && s[|s| - |suffix|..] == suffix
  }

  lemma MatchInPrefix(s: string, t: string, pat: string, i: nat)
    requires MatchAt(s, pat, i)
    ensures MatchAt(s + t, pat, i)
  {
    assert (s + t)[i..i + |pat|] == s[i..i + |pat|];
  }

  lemma MatchInSuffix(p: string, s: string, pat: string, i: nat)
    requires MatchAt(s, pat, i)
    ensures MatchAt(p + s, pat, |p| + i)
  {
    assert (p + s)[|p| + i..|p| + i + |pat|] == s[i..i + |pat|];
  }

  /** Every piece of a joined list occurs in the joined string. */
  lemma {:induction false} PieceOccurs(ls: seq<string>, k: nat)
    requires k < |ls|
    ensures Occurs(ls[k], Join(ls))
  {
    if |ls| == 1 {
      assert ls[0][0..|ls[0]|] == ls[0];
      assert MatchAt(ls[0], ls[0], 0);
    } else {
      var head, tail := ls[0] + "\n", Join(ls[1..]);
      assert Join(ls) == head + tail;
      if k == 0 {
        assert head == ls[0] + "\n";
        assert ls[0][0..|ls[0]|] == ls[0];
        MatchInPrefix(ls[0], "\n", ls[0], 0);
        MatchInPrefix(head, tail, ls[0], 0);
      } else {
        PieceOccurs(ls[1..], k - 1);
        var i: nat :| MatchAt(tail, ls[k], i);
        MatchInSuffix(head, tail, ls[k], i);
      }
    }
  }

  /** Every non-blank line of `s` is a substring of `s`. */
  lemma NonBlankLineOccurs(s: string, line: string)
    requires line in NonBlankLines(s)
    ensures Occurs(line, s)
  {
    NonBlankMembers(Lines(s));
    var k :| 0 <= k < |Lines(s)| && Lines(s)[k] == line;
    PieceOccurs(Lines(s), k);
    JoinLines(s);
  }

  // ---------------------------------------------------------------------------
  // toLowerCase

  /**
   * `toLowerCase` on one character, for ASCII, Latin-1 and the letters of the
   * Vietnamese alphabet (Ă Đ Ĩ Ũ Ơ Ư and the block U+1EA0..U+1EF9); every
   * other character is returned unchanged.
   */
  function LowerChar(c: char): char {
    var n := c as int;
    if 'A' <= c <= 'Z' || (0xC0 <= n <= 0xDE && n != 0xD7) then (n + 32) as char
    else if n == 0x102 || n == 0x110 || n == 0x128 || n == 0x168 || n == 0x1A0 || n == 0x1AF then (n + 1) as char
    else if 0x1EA0 <= n <= 0x1EF8 && n % 2 == 0 then (n + 1) as char
    else c
  }

  /** `s.toLowerCase()`, character by character. */
  function Lower(s: string): (r: string)
    ensures |r| == |s| && forall i :: 0 <= i < |s| ==> r[i] == LowerChar(s[i])
  {
    if s == [] then [] else [LowerChar(s[0])] + Lower(s[1..])
  }

  // ---------------------------------------------------------------------------
  // length

  /** `s.length`: the number of UTF-16 code units, two for a character above U+FFFF. */
  function Utf16Length(s: string): (n: nat)
    ensures |s| <= n <= 2 * |s|
  {
    if s == [] then 0
    else Utf16Length(s[..|s| - 1]) + (if s[|s| - 1] as int >= 0x10000 then 2 else 1)
  }

  // ---------------------------------------------------------------------------
  // Decimal numerals

  predicate IsDigit(c: char) {
    '0' <= c <= '9'
  }

  function DigitChar(d: nat): (c: char)
    requires d < 10
    ensures IsDigit(c) && c as int - '0' as int == d
  {
    ('0' as int + d) as char
  }

  /** `String(n)` for a non-negative integer: decimal digits, no leading zero. */
  function Decimal(n: nat): (r: string)
    ensures 1 <= |r| && forall i :: 0 <= i < |r| ==> IsDigit(r[i])
    ensures (|r| == 1) == (n < 10)
    ensures n < 100 ==> |r| <= 2
    ensures |r| > 1 ==> r[0] != '0'
  {
    if n < 10 then [DigitChar(n)] else Decimal(n / 10) + [DigitChar(n % 10)]
  }

  /** Reads a string of decimal digits back as a number. */
  function DecimalValue(s: string): nat
    requires forall i :: 0 <= i < |s| ==> IsDigit(s[i])
  {
    if s == [] then 0
    else
      assert IsDigit(s[|s| - 1]);
      DecimalValue(s[..|s| - 1]) * 10 + (s[|s| - 1] as int - '0' as int)
  }

  /** Reading back what `Decimal` wrote gives the number. */
  lemma {:induction false} DecimalRoundTrip(n: nat)
    ensures DecimalValue(Decimal(n)) == n
  {
    if n >= 10 {
      var r := Decimal(n);
      assert r[..|r| - 1] == Decimal(n / 10);
      DecimalRoundTrip(n / 10);
    } else {
      assert Decimal(n)[..0] == [];
    }
  }
}
