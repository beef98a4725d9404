/** The JavaScript string operations the core relies on: the `\s`, `\w`, `\d` and `.` character
    classes of regular expressions, `trim()`, `split('\n')`, `toUpperCase()`, `includes()`, and
    the decimal rendering of a number that has at most one digit after the point. */
module Text {
  import opened Wrappers

  /** `\s` and the characters `trim()` strips: JavaScript's WhiteSpace and LineTerminator. */
  predicate IsSpace(c: char) {
    || ('\t' <= c <= '\r')   // tab, line feed, vertical tab, form feed, carriage return
    || c == ' ' || c == '\U{A0}' || c == '\U{1680}'
    || ('\U{2000}' <= c <= '\U{200A}')
    || c == '\U{2028}' || c == '\U{2029}' || c == '\U{202F}' || c == '\U{205F}'
    || c == '\U{3000}' || c == '\U{FEFF}'
  }

  /** The characters that `.` does not match. */
  predicate IsLineTerminator(c: char) {
    c == '\n' || c == '\r' || c == '\U{2028}' || c == '\U{2029}'
  }

  /** `\w`. */
  predicate IsWordChar(c: char) {
    ('a' <= c <= 'z') || ('A' <= c <= 'Z') || ('0' <= c <= '9') || c == '_'
  }

  /** `\d`. */
  predicate IsDigit(c: char) {
    '0' <= c <= '9'
  }

  predicate AllSpace(s: string) {
    forall i :: 0 <= i < |s| ==> IsSpace(s[i])
  }


  /** Every character is matched by `.`. */
  predicate NoLineTerminator(s: string) {
    forall i :: 0 <= i < |s| ==> !IsLineTerminator(s[i])
  }

  /** The length of the whitespace run that starts `s`. */
  function LeadingSpaces(s: string): (n: nat)
    ensures n <= |s|
  {
    if s != [] && IsSpace(s[0]) then 1 + LeadingSpaces(s[1..]) else 0
  }

  /** The leading run is whitespace and is followed by a character that is not. */
  lemma {:induction false} LeadingSpacesMeaning(s: string)
    ensures AllSpace(s[..LeadingSpaces(s)])
    ensures LeadingSpaces(s) < |s| ==> !IsSpace(s[LeadingSpaces(s)])
  {
    if s != [] && IsSpace(s[0]) {
      var m := LeadingSpaces(s[1..]);
      LeadingSpacesMeaning(s[1..]);
      assert forall k :: 1 <= k < m + 1 ==> s[k] == s[1..][..m][k - 1];
      assert s[1 + m..] == s[1..][m..];
    }
  }

  /** No whitespace prefix is longer than the leading run. */
  lemma {:induction false} LeadingSpacesMaximal(s: string, n: nat)
    requires n <= |s| && AllSpace(s[..n])
    ensures n <= LeadingSpaces(s)
  {
    if n > 0 {
      assert s[..n][0] == s[0];
      assert s[1..][..n - 1] == s[..n][1..];
      LeadingSpacesMaximal(s[1..], n - 1);
    }
  }

  /** The length of the whitespace run that ends `s`. */
  function TrailingSpaces(s: string): (n: nat)
    ensures n <= |s|
  {
    if s != [] && IsSpace(s[|s| - 1]) then 1 + TrailingSpaces(s[..|s| - 1]) else 0
  }

  /** The trailing run is whitespace and is preceded by a character that is not. */
  lemma {:induction false} TrailingSpacesMeaning(s: string)
    ensures AllSpace(s[|s| - TrailingSpaces(s)..])
    ensures TrailingSpaces(s) < |s| ==> !IsSpace(s[|s| - TrailingSpaces(s) - 1])
  {
    if s != [] && IsSpace(s[|s| - 1]) {
      var m := TrailingSpaces(s[..|s| - 1]);
      TrailingSpacesMeaning(s[..|s| - 1]);
      SpaceRunExtends(s, m);
    }
  }

  /** A trailing whitespace run of the text without its whitespace last character extends by one. */
  lemma SpaceRunExtends(s: string, m: nat)
    requires s != [] && IsSpace(s[|s| - 1])
    requires m <= |s| - 1 && AllSpace(s[..|s| - 1][|s| - 1 - m..])
    ensures AllSpace(s[|s| - (m + 1)..])
    ensures m + 1 < |s| ==> s[|s| - (m + 1) - 1] == s[..|s| - 1][|s| - 1 - m - 1]
  {
    var t := s[..|s| - 1];
    var u := s[|s| - (m + 1)..];
    forall k | 0 <= k < |u| ensures IsSpace(u[k]) {
      if k < m {
        assert u[k] == t[|t| - m..][k];
      }
    }
  }

  /** `s.trim()`: `s` without its leading and trailing whitespace. */
  function Trim(s: string): string {
    var i := LeadingSpaces(s);
    s[i..|s| - TrailingSpaces(s[i..])]
  }

  /** `Trim(s)` is a slice of `s` with whitespace outside it and non-whitespace at its ends, and
      it is empty exactly when `s` is all whitespace. */
  lemma TrimMeaning(s: string)
    ensures exists i, j :: OccursTrimmed(s, Trim(s), i, j)
    ensures Trim(s) == [] || (!IsSpace(Trim(s)[0]) && !IsSpace(Trim(s)[|Trim(s)| - 1]))
    ensures Trim(s) == [] <==> AllSpace(s)
  {
    var i := LeadingSpaces(s);
    var n := TrailingSpaces(s[i..]);
    LeadingSpacesMeaning(s);
    TrailingSpacesMeaning(s[i..]);
    SuffixOfSuffix(s, i, n);
    TrimBounds(s, i, |s| - n);
    assert Trim(s) == s[i..|s| - n];
  }

  /** Cutting a maximal whitespace run off each end leaves a slice with non-whitespace ends,
      empty exactly when the whole text is whitespace. */
  lemma TrimBounds(s: string, i: nat, j: nat)
    requires i <= j <= |s|
    requires AllSpace(s[..i]) && (i < |s| ==> !IsSpace(s[i]))
    requires AllSpace(s[j..]) && (i < j ==> !IsSpace(s[j - 1]))
    ensures OccursTrimmed(s, s[i..j], i, j)
    ensures s[i..j] == [] || (!IsSpace(s[i..j][0]) && !IsSpace(s[i..j][j - i - 1]))
    ensures s[i..j] == [] <==> AllSpace(s)
  {
    assert j < |s| ==> s[j..][0] == s[j];
    assert s[..|s|] == s;
  }

  lemma SuffixOfSuffix(s: string, i: nat, n: nat)
    requires i <= |s| && n <= |s| - i
    ensures s[i..][|s| - i - n..] == s[|s| - n..]
    ensures s[i..|s| - n] == s[i..][..|s| - i - n]
  {
  }

  /** `r` is `s[i..j]`, and everything outside is whitespace. */
  ghost predicate OccursTrimmed(s: string, r: string, i: int, j: int) {
    0 <= i <= j <= |s| && r == s[i..j] && AllSpace(s[..i]) && AllSpace(s[j..])
  }

  /** The pieces of `s` between line feeds. */
  function Split(s: string): (r: seq<string>)
    ensures |r| >= 1
    decreases |s|
  {
    if '\n' in s then
      var i := FirstIndexOf(s, '\n');
      [s[..i]] + Split(s[i + 1..])
    else [s]
  }

  /** No piece holds a line feed. */
  lemma {:induction false} SplitPieces(s: string)
    ensures forall p :: p in Split(s) ==> '\n' !in p
    decreases |s|
  {
    if '\n' in s {
      var i := FirstIndexOf(s, '\n');
      SplitPieces(s[i + 1..]);
    }
  }

  /** The first position of `c` in `s`. */
  function FirstIndexOf(s: string, c: char): (i: nat)
    requires c in s
    ensures i < |s| && s[i] == c && c !in s[..i]
  {
    if s[0] == c then 0 else 1 + FirstIndexOf(s[1..], c)
  }

  lemma {:induction false} FirstIndexOfAt(s: string, c: char, n: nat)
    requires n < |s| && s[n] == c && c !in s[..n]
    ensures FirstIndexOf(s, c) == n
  {
    if n > 0 {
      assert s[..n][0] == s[0];
      assert s[1..][..n - 1] == s[..n][1..];
      FirstIndexOfAt(s[1..], c, n - 1);
    }
  }

  /** `pieces.join('\n')`. */
  function Join(pieces: seq<string>): string
    requires |pieces| >= 1
  {
    if |pieces| == 1 then pieces[0] else pieces[0] + "\n" + Join(pieces[1..])
  }

  /** Splitting at line feeds and joining with line feeds gives back the text. */
  lemma {:induction false} JoinSplit(s: string)
    ensures Join(Split(s)) == s
    decreases |s|
  {
    if '\n' in s {
      var i := FirstIndexOf(s, '\n');
      JoinSplit(s[i + 1..]);
      var r := Split(s);
      assert r[1..] == Split(s[i + 1..]);
      assert s == s[..i] + "\n" + s[i + 1..];
    }
  }

  /** Splitting a line-feed-free piece, a line feed and a rest gives the piece and the rest's pieces. */
  lemma SplitAfter(p: string, rest: string)
    requires '\n' !in p
    ensures Split(p + "\n" + rest) == [p] + Split(rest)
  {
    var s := p + "\n" + rest;
    assert s[|p|] == '\n';
    assert s[..|p|] == p;
    FirstIndexOfAt(s, '\n', |p|);
    assert s[|p| + 1..] == rest;
  }

  /** Joining pieces free of line feeds and splitting again gives back the pieces. */
  lemma {:induction false} SplitJoin(pieces: seq<string>)
    requires |pieces| >= 1
    requires forall p :: p in pieces ==> '\n' !in p
    ensures Split(Join(pieces)) == pieces
  {
    if |pieces| > 1 {
      var rest := pieces[1..];
      assert pieces[0] in pieces;
      assert forall p :: p in rest ==> p in pieces;
      SplitJoin(rest);
      SplitAfter(pieces[0], Join(rest));
      assert Join(pieces) == pieces[0] + "\n" + Join(rest);
    } else {
      assert '\n' !in pieces[0];
    }
  }

  function UpperChar(c: char): char {
    if 'a' <= c <= 'z' then (c as int - 'a' as int + 'A' as int) as char else c
  }

  /** `s.toUpperCase()` on ASCII letters. */
  function Upper(s: string): string {
    seq(|s|, i requires 0 <= i < |s| => UpperChar(s[i]))
  }

  lemma UpperSlice(s: string, a: nat, b: nat)
    requires a <= b <= |s|
    ensures Upper(s)[a..b] == Upper(s[a..b])
  {
    assert forall i :: 0 <= i < b - a ==> Upper(s)[a..b][i] == UpperChar(s[a + i]);
  }

  /** `s` holds `pat` at position `i`. */
  predicate OccursAt(s: string, pat: string, i: int) {
    0 <= i && i + |pat| <= |s| && s[i..i + |pat|] == pat
  }

  /** `s.includes(pat)`. */
  function Contains(s: string, pat: string): bool {
    if |s| < |pat| then false
    else if s[..|pat|] == pat then true
    else Contains(s[1..], pat)
  }

  /** `includes` is true exactly when the pattern occurs somewhere. */
  lemma {:induction false} ContainsMeaning(s: string, pat: string)
    ensures Contains(s, pat) <==> exists i :: OccursAt(s, pat, i)
  {
    if |s| < |pat| {
      assert forall i :: !OccursAt(s, pat, i);
    } else if s[..|pat|] == pat {
      assert OccursAt(s, pat, 0);
    } else {
      ContainsStep(s, pat);
      ContainsMeaning(s[1..], pat);
    }
  }

  lemma ContainsStep(s: string, pat: string)
    requires |s| >= |pat| && s[..|pat|] != pat
    ensures |s| >= 1
    ensures (exists i :: OccursAt(s, pat, i)) <==> (exists i :: OccursAt(s[1..], pat, i))
  {
    if exists i :: OccursAt(s, pat, i) {
      var i :| OccursAt(s, pat, i);
      assert i != 0;
      assert s[1..][i - 1..i - 1 + |pat|] == s[i..i + |pat|];
      assert OccursAt(s[1..], pat, i - 1);
    }
    if exists i :: OccursAt(s[1..], pat, i) {
      var i :| OccursAt(s[1..], pat, i);
      assert s[1..][i..i + |pat|] == s[i + 1..i + 1 + |pat|];
      assert OccursAt(s, pat, i + 1);
    }
  }

  function DigitChar(d: nat): char
    requires d < 10
  {
    ('0' as int + d) as char
  }

  /** `String(n)` for a natural number: its decimal digits, without leading zeros. */
  function DigitString(n: nat): (r: string)
    ensures |r| >= 1 && forall i :: 0 <= i < |r| ==> IsDigit(r[i])
    ensures |r| > 1 ==> r[0] != '0'
  {
    if n < 10 then [DigitChar(n)] else DigitString(n / 10) + [DigitChar(n % 10)]
  }

  /** The number a string of decimal digits denotes. */
  function DigitsValue(s: string): nat
    requires forall i :: 0 <= i < |s| ==> IsDigit(s[i])
  {
    if s == [] then 0
    else
      assert IsDigit(s[|s| - 1]);
      10 * DigitsValue(s[..|s| - 1]) + (s[|s| - 1] as int - '0' as int)
  }

  lemma {:induction false} DigitStringValue(n: nat)
    ensures DigitsValue(DigitString(n)) == n
  {
    if n >= 10 {
      DigitStringValue(n / 10);
      var r := DigitString(n);
      assert r[..|r| - 1] == DigitString(n / 10);
    }
  }

  /** The text JavaScript prints for the number `t / 10` (`t` tenths): the whole part, then
      `.` and the tenths digit unless that digit is zero. */
  function FormatTenths(t: nat): string {
    DigitString(t / 10) + (if t % 10 == 0 then "" else "." + [DigitChar(t % 10)])
  }

  /** Reads a number with at most one decimal, as tenths. */
  function ParseTenths(s: string): Option<nat> {
    if |s| >= 3 && s[|s| - 2] == '.' && (forall i :: 0 <= i < |s| - 2 ==> IsDigit(s[i])) && IsDigit(s[|s| - 1]) then
      Some(10 * DigitsValue(s[..|s| - 2]) + (s[|s| - 1] as int - '0' as int))
    else if |s| >= 1 && forall i :: 0 <= i < |s| ==> IsDigit(s[i]) then
      Some(10 * DigitsValue(s))
    else None
  }

  /** The rendering is read back as the same number. */
  lemma FormatTenthsRoundTrip(t: nat)
    ensures ParseTenths(FormatTenths(t)) == Some(t)
  {
    var w := DigitString(t / 10);
    DigitStringValue(t / 10);
    var s := FormatTenths(t);
    if t % 10 == 0 {
      assert s == w;
    } else {
      assert s == w + ['.', DigitChar(t % 10)];
      assert s[..|s| - 2] == w;
    }
  }
}
