/** The log analyzer: classifies each non-blank line of an uploaded log as INFO, WARN or ERROR,
    counts the levels, and ranks the five most frequent error messages.

    A line is classified by four regular expressions, tried in order, and then by keyword
    sniffing. The regular expressions are modelled by hand-written matchers over the line:

      (a) `^\[(\w+)\]\s+(.+)$`
      (b) `^(\w+):\s+(.+)$`
      (c) `^\d{4}-\d{2}-\d{2}.*?\[(\w+)\]\s+(.+)$`
      (d) `^\d{4}-\d{2}-\d{2}.*?(\w+):\s+(.+)$`

    Without the `m` flag `$` is the end of the line, and `.` refuses line terminators, so a line
    still carrying the `\r` of a CRLF file is matched by none of them. */
module LogAnalyzer {
  import opened Wrappers
  import opened Text
  import opened Schema
  import opened OrderedMaps
  import opened StableSort
  import opened Filters

  /** The two capture groups of a successful match: the level word and the message. */
  datatype Capture = Capture(token: string, body: string)

  /** The level word is written `[LEVEL]` (patterns a and c) or `LEVEL:` (patterns b and d). */
  datatype Shape = Bracket | Colon

  // ---------------------------------------------------------------- the tail `\s+(.+)$`

  /** `\s+(.+)$` can match all of `t` with the whitespace run ending at `k`. */
  predicate TailSplit(t: string, k: int) {
    1 <= k < |t| && AllSpace(t[..k]) && NoLineTerminator(t[k..])
  }

  /** `\s+(.+)$` matched against all of `t`. */
  function MatchTail(t: string): Option<string> {
    var w := LeadingSpaces(t);
    var k := if w < |t| - 1 then w else |t| - 1;
    if 1 <= k && NoLineTerminator(t[k..]) then Some(t[k..]) else None
  }

  /** The tail matches exactly when some split exists, and the greedy `\s+` takes the longest
      run, so the message group is the shortest remainder. */
  lemma MatchTailMeaning(t: string)
    ensures MatchTail(t).Some? <==> exists k :: TailSplit(t, k)
    ensures MatchTail(t).Some? ==> exists k :: && TailSplit(t, k) && MatchTail(t).value == t[k..]
                                              && forall k' :: TailSplit(t, k') ==> k' <= k
  {
    var w := LeadingSpaces(t);
    var k := if w < |t| - 1 then w else |t| - 1;
    TailSplitBound(t, w, k);
    LeadingSpacesMeaning(t);
    if MatchTail(t).Some? {
      assert t[..k] == t[..w][..k];
      assert TailSplit(t, k);
    }
  }

  lemma TailSplitBound(t: string, w: nat, k: int)
    requires w == LeadingSpaces(t) && k == (if w < |t| - 1 then w else |t| - 1)
    ensures forall k' :: TailSplit(t, k') ==> k' <= k && 1 <= k && NoLineTerminator(t[k..])
  {
    forall k' | TailSplit(t, k') ensures k' <= k && 1 <= k && NoLineTerminator(t[k..]) {
      LeadingSpacesMaximal(t, k');
      forall i | 0 <= i < |t[k..]| ensures !IsLineTerminator(t[k..][i]) {
        assert t[k..][i] == t[k'..][i + k - k'];
      }
    }
  }

  // ---------------------------------------------------------------- the level word

  /** The end of the run of `\w` characters that starts at `p`. */
  function WordEnd(s: string, p: nat): (e: nat)
    requires p <= |s|
    ensures p <= e <= |s|
    ensures forall k :: p <= k < e ==> IsWordChar(s[k])
    ensures e < |s| ==> !IsWordChar(s[e])
    decreases |s| - p
  {
    if p < |s| && IsWordChar(s[p]) then WordEnd(s, p + 1) else p
  }

  /** Where the `(\w+)` group starts when the pattern's level word starts at `p`. */
  function TokenStart(shape: Shape, p: nat): nat {
    match shape
    case Bracket => p + 1
    case Colon => p
  }

  /** `s[p..e + 1]` is `[word]` or `word:`, the word non-empty and made of `\w`. */
  predicate ShapeAt(shape: Shape, s: string, p: nat, e: int) {
    && TokenStart(shape, p) < e < |s|
    && (shape.Bracket? ==> s[p] == '[')
    && (forall k :: TokenStart(shape, p) <= k < e ==> IsWordChar(s[k]))
    && s[e] == (if shape.Bracket? then ']' else ':')
  }

  /** The closing `]` or `:` is not a word character, so the word is the whole run. */
  lemma ShapeEnd(shape: Shape, s: string, p: nat, e: int)
    requires ShapeAt(shape, s, p, e)
    ensures e == WordEnd(s, TokenStart(shape, p))
  {
  }

  /** The rest of pattern (a) or (b), `\[(\w+)\]\s+(.+)$` or `(\w+):\s+(.+)$`, matched from
      position `p` to the end of `s`. */
  function At(shape: Shape, s: string, p: nat): Option<Capture>
    requires p <= |s|
  {
    var start := TokenStart(shape, p);
    if (shape.Bracket? && (p == |s| || s[p] != '[')) || start > |s| then None
    else
      var e := WordEnd(s, start);
      if e > start && e < |s| && s[e] == (if shape.Bracket? then ']' else ':') && MatchTail(s[e + 1..]).Some? then
        Some(Capture(s[start..e], MatchTail(s[e + 1..]).value))
      else None
  }

  /** When the matcher succeeds, the text from `p` is the level word with its brackets or
      colon followed by a tail that `\s+(.+)$` matches; the groups are the word and the tail's
      message. */
  lemma AtSome(shape: Shape, s: string, p: nat)
    requires p <= |s| && At(shape, s, p).Some?
    ensures exists e :: && ShapeAt(shape, s, p, e) && MatchTail(s[e + 1..]).Some?
                        && At(shape, s, p).value == Capture(s[TokenStart(shape, p)..e], MatchTail(s[e + 1..]).value)
  {
    var e := WordEnd(s, TokenStart(shape, p));
    assert ShapeAt(shape, s, p, e);
  }

  /** When the matcher fails, no split of the text into a level word and a matching tail exists. */
  lemma AtNone(shape: Shape, s: string, p: nat)
    requires p <= |s| && At(shape, s, p).None?
    ensures forall e :: ShapeAt(shape, s, p, e) ==> MatchTail(s[e + 1..]).None?
  {
    forall e | ShapeAt(shape, s, p, e) ensures MatchTail(s[e + 1..]).None? {
      ShapeEnd(shape, s, p, e);
    }
  }

  // ---------------------------------------------------------------- the timestamped patterns

  /** `^\d{4}-\d{2}-\d{2}`. */
  predicate DatePrefix(s: string) {
    && |s| >= 10
    && IsDigit(s[0]) && IsDigit(s[1]) && IsDigit(s[2]) && IsDigit(s[3]) && s[4] == '-'
    && IsDigit(s[5]) && IsDigit(s[6]) && s[7] == '-' && IsDigit(s[8]) && IsDigit(s[9])
  }

  /** The outcome of the rest of the pattern at every position `0..|s|` of `s`. */
  function Attempts(shape: Shape, s: string): (r: seq<Option<Capture>>)
    ensures |r| == |s| + 1
  {
    seq(|s| + 1, q requires 0 <= q <= |s| => At(shape, s, q))
  }

  /** The lazy `.*?` from position `p`: the rest of the pattern is tried at `p`, `p + 1`, ...
      for as long as `.` can step over the character skipped, and the first success is the
      match. `tries[q]` is the outcome of the rest of the pattern at `q`. */
  function Scan(tries: seq<Option<Capture>>, s: string, p: nat): Option<Capture>
    requires |tries| == |s| + 1 && p <= |s|
    decreases |s| - p
  {
    if tries[p].Some? then tries[p]
    else if p < |s| && !IsLineTerminator(s[p]) then Scan(tries, s, p + 1)
    else None
  }

  /** The scan finds the leftmost position reachable through `.` where the rest of the pattern
      matches, and fails only when there is none. */
  lemma {:induction false} ScanLeftmost(tries: seq<Option<Capture>>, s: string, p: nat)
    requires |tries| == |s| + 1 && p <= |s|
    ensures Scan(tries, s, p).Some? ==>
      exists q :: && p <= q <= |s| && NoLineTerminator(s[p..q])
                  && tries[q] == Scan(tries, s, p)
                  && forall q' :: p <= q' < q ==> tries[q'].None?
    ensures Scan(tries, s, p).None? ==>
      forall q :: p <= q <= |s| && NoLineTerminator(s[p..q]) ==> tries[q].None?
    decreases |s| - p
  {
    var r := Scan(tries, s, p);
    if tries[p].Some? {
      assert NoLineTerminator(s[p..p]);
    } else if p < |s| && !IsLineTerminator(s[p]) {
      ScanLeftmost(tries, s, p + 1);
      if r.Some? {
        var q :| && p + 1 <= q <= |s| && NoLineTerminator(s[p + 1..q])
                 && tries[q] == r
                 && forall q' :: p + 1 <= q' < q ==> tries[q'].None?;
        assert forall i :: 1 <= i < q - p ==> s[p..q][i] == s[p + 1..q][i - 1];
        assert NoLineTerminator(s[p..q]);
      } else {
        forall q | p + 1 <= q <= |s| && NoLineTerminator(s[p..q]) ensures tries[q].None? {
          var t := s[p + 1..q];
          forall i | 0 <= i < |t| ensures !IsLineTerminator(t[i]) {
            assert t[i] == s[p..q][i + 1];
          }
        }
      }
    } else {
      forall q | p < q <= |s| ensures !NoLineTerminator(s[p..q]) {
        assert s[p..q][0] == s[p];
      }
    }
  }

  /** Pattern (c) or (d): a date, then the lazy scan for the level word. */
  function Dated(shape: Shape, s: string): Option<Capture> {
    if DatePrefix(s) then Scan(Attempts(shape, s), s, 10) else None
  }

  /** The result of `line.match(pattern)` for the four patterns, in the order they are tried. */
  function Matches(line: string): seq<Option<Capture>> {
    [At(Bracket, line, 0), At(Colon, line, 0), Dated(Bracket, line), Dated(Colon, line)]
  }

  // ---------------------------------------------------------------- classification

  /** A match is accepted when its level word, upper-cased, is a level; the message is the
      second group, trimmed. */
  function Accept(m: Option<Capture>): Option<LogEntry> {
    if m.Some? then
      match ParseLogLevel(Upper(m.value.token))
      case Some(level) => Some(LogEntry(level, Trim(m.value.body)))
      case None => None
    else None
  }

  /** The first accepted match; a match whose word is not a level falls through to the next pattern. */
  function FirstAccepted(ms: seq<Option<Capture>>): Option<LogEntry> {
    if ms == [] then None
    else if Accept(ms[0]).Some? then Accept(ms[0])
    else FirstAccepted(ms[1..])
  }

  /** The matches are tried in order, and the first accepted one decides. */
  lemma {:induction false} FirstAcceptedMeaning(ms: seq<Option<Capture>>)
    ensures FirstAccepted(ms).Some? ==>
      exists i :: 0 <= i < |ms| && FirstAccepted(ms) == Accept(ms[i]) && forall j :: 0 <= j < i ==> Accept(ms[j]).None?
    ensures FirstAccepted(ms).None? ==> forall i :: 0 <= i < |ms| ==> Accept(ms[i]).None?
  {
    if ms != [] && Accept(ms[0]).None? {
      var r := FirstAccepted(ms[1..]);
      FirstAcceptedMeaning(ms[1..]);
      assert forall i :: 1 <= i < |ms| ==> ms[i] == ms[1..][i - 1];
      if r.Some? {
        var i :| 0 <= i < |ms[1..]| && r == Accept(ms[1..][i]) && forall j :: 0 <= j < i ==> Accept(ms[1..][j]).None?;
        assert r == Accept(ms[i + 1]);
      }
    }
  }

  /** Keyword sniffing on the upper-cased line: ERROR before WARN before INFO; the message is the
      whole line, untrimmed. */
  function Sniff(line: string): Option<LogEntry> {
    var u := Upper(line);
    if Contains(u, "ERROR") then Some(LogEntry(Error, line))
    else if Contains(u, "WARN") then Some(LogEntry(Warn, line))
    else if Contains(u, "INFO") then Some(LogEntry(LogLevel.Info, line))
    else None
  }

  /** `parseLine`: the first pattern whose level word is a level, otherwise sniffing; `None`
      stands for `null`, a line that is not counted. */
  function ParseLine(line: string): Option<LogEntry> {
    var structured := FirstAccepted(Matches(line));
    if structured.Some? then structured else Sniff(line)
  }

  /** The level word of every match is a piece of the line. */
  lemma TokenInLine(shape: Shape, s: string, q: nat)
    requires q <= |s| && At(shape, s, q).Some?
    ensures exists a :: OccursAt(Upper(s), Upper(At(shape, s, q).value.token), a)
  {
    var a := TokenStart(shape, q);
    var e := WordEnd(s, a);
    assert At(shape, s, q).value.token == s[a..e];
    UpperSlice(s, a, e);
    assert OccursAt(Upper(s), Upper(s[a..e]), a);
  }

  lemma MatchTokenInLine(line: string, i: nat)
    requires i < 4 && Matches(line)[i].Some?
    ensures exists a :: OccursAt(Upper(line), Upper(Matches(line)[i].value.token), a)
  {
    if i < 2 {
      TokenInLine(if i == 0 then Bracket else Colon, line, 0);
    } else {
      var shape := if i == 2 then Bracket else Colon;
      var tries := Attempts(shape, line);
      ScanLeftmost(tries, line, 10);
      var q :| 10 <= q <= |line| && tries[q] == Scan(tries, line, 10);
      TokenInLine(shape, line, q);
    }
  }

  /** A line is counted exactly when its upper-cased text names one of the levels: a pattern
      only accepts a level word taken from the line, and sniffing finds any level named. The
      level given is always one the line names. */
  /** The upper-cased line contains ERROR, WARN or INFO. */
  predicate NamesLevel(line: string) {
    Contains(Upper(line), "ERROR") || Contains(Upper(line), "WARN") || Contains(Upper(line), "INFO")
  }

  lemma ParseLineCounted(line: string)
    ensures ParseLine(line).Some? <==> NamesLevel(line)
    ensures ParseLine(line).Some? ==> Contains(Upper(line), LogLevelName(ParseLine(line).value.level))
  {
    var ms := Matches(line);
    var r := FirstAccepted(ms);
    FirstAcceptedMeaning(ms);
    if r.Some? {
      var i :| 0 <= i < |ms| && r == Accept(ms[i]);
      MatchTokenInLine(line, i);
      var name := LogLevelName(r.value.level);
      assert name == Upper(ms[i].value.token);
      ContainsMeaning(Upper(line), name);
    }
  }

  /** Each structured match is tried in order, and only a level word stops the search. */
  lemma ParseLineStructured(line: string, i: nat)
    requires i < 4 && Accept(Matches(line)[i]).Some?
    requires forall j :: 0 <= j < i ==> Accept(Matches(line)[j]).None?
    ensures ParseLine(line) == Accept(Matches(line)[i])
  {
    var ms := Matches(line);
    var r := FirstAccepted(ms);
    FirstAcceptedMeaning(ms);
    var k :| 0 <= k < |ms| && r == Accept(ms[k]) && forall j :: 0 <= j < k ==> Accept(ms[j]).None?;
    assert k == i;
  }

  /** When no pattern yields a level, the line is sniffed. */
  lemma ParseLineSniffed(line: string)
    requires forall i :: 0 <= i < 4 ==> Accept(Matches(line)[i]).None?
    ensures ParseLine(line) == Sniff(line)
  {
    FirstAcceptedMeaning(Matches(line));
  }

  // ---------------------------------------------------------------- analysis

  /** `line => line.trim()` as a test: the trimmed line is not empty. */
  predicate HasText(line: string) {
    Trim(line) != []
  }

  /** `split('\n').filter(line => line.trim())`. */
  function NonBlank(pieces: seq<string>): seq<string> {
    Filter(pieces, HasText)
  }

  /** A line is kept exactly when it has a character other than whitespace; the kept lines
      are those pieces at their positions in the text, in order, each position once, so
      their number is the number of such pieces. */
  lemma NonBlankMeaning(pieces: seq<string>)
    ensures forall l :: HasText(l) <==> !AllSpace(l)
    ensures forall l :: l in NonBlank(pieces) <==> l in pieces && !AllSpace(l)
    ensures exists idx :: SelectsPositions(pieces, HasText, NonBlank(pieces), idx)
    ensures |NonBlank(pieces)| <= |pieces|
  {
    forall l ensures HasText(l) <==> !AllSpace(l) {
      TrimMeaning(l);
    }
    FilterPositions(pieces, HasText);
    var idx :| SelectsPositions(pieces, HasText, Filter(pieces, HasText), idx);
    assert SelectsPositions(pieces, HasText, NonBlank(pieces), idx);
  }

  function Lines(text: string): seq<string> {
    NonBlank(Split(text))
  }

  /** `parseLine` applied to every line. */
  function Classify(lines: seq<string>): (r: seq<Option<LogEntry>>)
    ensures |r| == |lines|
  {
    if lines == [] then [] else Classify(lines[..|lines| - 1]) + [ParseLine(lines[|lines| - 1])]
  }

  lemma {:induction false} ClassifyAt(lines: seq<string>, i: nat)
    requires i < |lines|
    ensures Classify(lines)[i] == ParseLine(lines[i])
  {
    if i < |lines| - 1 {
      ClassifyAt(lines[..|lines| - 1], i);
    }
  }

  /** The number of entries at `level`. */
  function CountOf(es: seq<Option<LogEntry>>, level: LogLevel): nat {
    if es == [] then 0
    else
      var e := es[|es| - 1];
      CountOf(es[..|es| - 1], level) + (if e.Some? && e.value.level == level then 1 else 0)
  }

  /** The number of lines that are not classified. */
  function Skipped(es: seq<Option<LogEntry>>): nat {
    if es == [] then 0
    else Skipped(es[..|es| - 1]) + (if es[|es| - 1].None? then 1 else 0)
  }

  function Counts(es: seq<Option<LogEntry>>): LevelCounts {
    LevelCounts(CountOf(es, LogLevel.Info), CountOf(es, Warn), CountOf(es, Error))
  }

  /** `counts[level]++`. */
  function Increment(c: LevelCounts, level: LogLevel): LevelCounts {
    match level
    case Info => c.(info := c.info + 1)
    case Warn => c.(warn := c.warn + 1)
    case Error => c.(error := c.error + 1)
  }

  /** The messages of the ERROR entries, in order. */
  function ErrorMessages(es: seq<Option<LogEntry>>): seq<string> {
    if es == [] then []
    else
      var e := es[|es| - 1];
      ErrorMessages(es[..|es| - 1]) + (if e.Some? && e.value.level == Error then [e.value.message] else [])
  }

  /** Every non-blank line is counted at exactly one level or skipped; the error count is the
      number of error messages collected. */
  lemma {:induction false} CountsPartition(es: seq<Option<LogEntry>>)
    ensures CountOf(es, LogLevel.Info) + CountOf(es, Warn) + CountOf(es, Error) + Skipped(es) == |es|
    ensures CountOf(es, Error) == |ErrorMessages(es)|
    ensures Skipped(es) == 0 <==> forall i :: 0 <= i < |es| ==> es[i].Some?
  {
    if es != [] {
      var init := es[..|es| - 1];
      CountsPartition(init);
      assert forall i :: 0 <= i < |init| ==> init[i] == es[i];
    }
  }

  /** A line is skipped exactly when it names no level. */
  lemma SkippedLines(lines: seq<string>)
    ensures Skipped(Classify(lines)) == 0 <==> forall l :: l in lines ==> NamesLevel(l)
  {
    var es := Classify(lines);
    CountsPartition(es);
    forall i | 0 <= i < |lines| ensures es[i].Some? <==> NamesLevel(lines[i]) {
      ClassifyAt(lines, i);
      ParseLineCounted(lines[i]);
    }
  }

  lemma AnalysisStep(es: seq<Option<LogEntry>>, e: Option<LogEntry>)
    ensures Counts(es + [e]) == if e.Some? then Increment(Counts(es), e.value.level) else Counts(es)
    ensures ErrorMessages(es + [e]) == ErrorMessages(es) + (if e.Some? && e.value.level == Error then [e.value.message] else [])
  {
    assert (es + [e])[..|es|] == es;
  }

  /** The number of times `m` occurs in `msgs`. */
  function Occurrences(msgs: seq<string>, m: string): nat {
    if msgs == [] then 0
    else Occurrences(msgs[..|msgs| - 1], m) + (if msgs[|msgs| - 1] == m then 1 else 0)
  }

  lemma {:induction false} OccurrencesAbsent(msgs: seq<string>, m: string)
    requires m !in msgs
    ensures Occurrences(msgs, m) == 0
  {
    if msgs != [] {
      assert m !in msgs[..|msgs| - 1];
      OccurrencesAbsent(msgs[..|msgs| - 1], m);
    }
  }

  /** The position of the first occurrence of `m` in `msgs`, or `|msgs|` if there is none. */
  function FirstSeen(msgs: seq<string>, m: string): nat {
    if m in msgs then IndexOf(msgs, m) else |msgs|
  }

  lemma FirstSeenAppend(msgs: seq<string>, x: string, m: string)
    requires m in msgs
    ensures FirstSeen(msgs + [x], m) == FirstSeen(msgs, m) < |msgs|
  {
    var i := IndexOf(msgs, m);
    IndexOfFirst(msgs + [x], m, i);
  }

  lemma {:induction false} IndexOfFirst(s: seq<string>, k: string, i: nat)
    requires i < |s| && s[i] == k && forall j :: 0 <= j < i ==> s[j] != k
    ensures IndexOf(s, k) == i
  {
    if i > 0 {
      IndexOfFirst(s[1..], k, i - 1);
    }
  }

  /** `errorFrequency.set(m, (errorFrequency.get(m) || 0) + 1)`. */
  function Bump(f: OrderedMap<string, nat>, m: string): (r: OrderedMap<string, nat>)
    requires Valid(f)
    ensures Valid(r)
  {
    Set(f, m, Get(f, m).GetOr(0) + 1)
  }

  /** The frequency map after recording every message of `msgs` in order. */
  function Frequencies(msgs: seq<string>): (f: OrderedMap<string, nat>)
    ensures Valid(f)
  {
    if msgs == [] then Empty() else Bump(Frequencies(msgs[..|msgs| - 1]), msgs[|msgs| - 1])
  }

  lemma FrequenciesAppend(msgs: seq<string>, x: string)
    ensures Frequencies(msgs + [x]) == Bump(Frequencies(msgs), x)
  {
    assert (msgs + [x])[..|msgs|] == msgs;
  }

  lemma BumpIs(f: OrderedMap<string, nat>, m: string, count: nat, g: OrderedMap<string, nat>)
    requires Valid(f) && count == Get(f, m).GetOr(0) && g == Set(f, m, count + 1)
    ensures g == Bump(f, m)
  {
  }

  lemma BumpValues(f: OrderedMap<string, nat>, x: string)
    requires Valid(f)
    ensures x in f.vals ==> Bump(f, x).keys == f.keys && Bump(f, x).vals == f.vals[x := f.vals[x] + 1]
    ensures x !in f.vals ==> Bump(f, x).keys == f.keys + [x] && Bump(f, x).vals == f.vals[x := 1]
  {
  }

  /** The map holds each message seen, with its number of occurrences. */
  lemma {:induction false} FrequenciesCount(msgs: seq<string>)
    ensures forall m :: m in Frequencies(msgs).vals <==> m in msgs
    ensures forall m :: m in Frequencies(msgs).vals ==> Frequencies(msgs).vals[m] == Occurrences(msgs, m) >= 1
  {
    if msgs != [] {
      var init := msgs[..|msgs| - 1];
      var x := msgs[|msgs| - 1];
      assert msgs == init + [x];
      FrequenciesCount(init);
      var f := Frequencies(init);
      var g := Frequencies(msgs);
      assert g == Bump(f, x);
      BumpValues(f, x);
      forall m ensures (m in g.vals <==> m in msgs) && (m in g.vals ==> g.vals[m] == Occurrences(msgs, m) >= 1) {
        assert m in msgs <==> m in init || m == x;
        assert Occurrences(msgs, m) == Occurrences(init, m) + (if x == m then 1 else 0);
        if m !in init {
          OccurrencesAbsent(init, m);
        }
      }
    }
  }

  /** The map lists the messages in the order of their first occurrence. */
  lemma {:induction false} FrequenciesOrder(msgs: seq<string>)
    ensures forall i, j :: 0 <= i < j < |Frequencies(msgs).keys| ==>
      FirstSeen(msgs, Frequencies(msgs).keys[i]) < FirstSeen(msgs, Frequencies(msgs).keys[j])
  {
    if msgs != [] {
      var init := msgs[..|msgs| - 1];
      var x := msgs[|msgs| - 1];
      assert msgs == init + [x];
      FrequenciesOrder(init);
      FrequenciesCount(init);
      assert Frequencies(msgs) == Bump(Frequencies(init), x);
      BumpValues(Frequencies(init), x);
      var f := Frequencies(init);
      var g := Frequencies(msgs);
      forall i, j | 0 <= i < j < |g.keys| ensures FirstSeen(msgs, g.keys[i]) < FirstSeen(msgs, g.keys[j]) {
        assert g.keys[i] == f.keys[i];
        assert f.keys[i] in f.vals;
        FirstSeenAppend(init, x, g.keys[i]);
        if j < |f.keys| {
          assert g.keys[j] == f.keys[j];
          assert f.keys[j] in f.vals;
          FirstSeenAppend(init, x, g.keys[j]);
        } else {
          assert g.keys[j] == x && x !in init;
          IndexOfFirst(msgs, x, |init|);
        }
      }
    }
  }

  /** `[...errorFrequency.entries()].map(([message, count]) => ({ message, count }))`. */
  function Entries(f: OrderedMap<string, nat>): (r: seq<ErrorCount>)
    requires Valid(f)
    ensures |r| == |f.keys|
    ensures forall i :: 0 <= i < |r| ==> r[i] == ErrorCount(f.keys[i], f.vals[f.keys[i]])
  {
    seq(|f.keys|, i requires 0 <= i < |f.keys| => ErrorCount(f.keys[i], f.vals[f.keys[i]]))
  }

  function TotalCount(es: seq<ErrorCount>): nat {
    if es == [] then 0 else TotalCount(es[..|es| - 1]) + es[|es| - 1].count
  }

  lemma {:induction false} TotalCountUpdate(es: seq<ErrorCount>, i: nat, e: ErrorCount)
    requires i < |es|
    ensures TotalCount(es[i := e]) + es[i].count == TotalCount(es) + e.count
  {
    var n := |es| - 1;
    if i < n {
      TotalCountUpdate(es[..n], i, e);
      assert es[i := e][..n] == es[..n][i := e];
    } else {
      assert es[i := e][..n] == es[..n];
    }
  }

  /** Recording one message adds one to the total of the counts. */
  lemma TotalBump(f: OrderedMap<string, nat>, x: string)
    requires Valid(f)
    ensures TotalCount(Entries(Bump(f, x))) == TotalCount(Entries(f)) + 1
  {
    BumpValues(f, x);
    var g := Bump(f, x);
    var ef, eg := Entries(f), Entries(g);
    if x in f.vals {
      BumpExisting(f, x);
    } else {
      assert eg[..|ef|] == ef by {
        forall k | 0 <= k < |ef| ensures eg[k] == ef[k] { assert f.keys[k] != x; }
      }
    }
  }

  /** Recording a message already present changes its entry only. */
  lemma BumpExisting(f: OrderedMap<string, nat>, x: string)
    requires Valid(f) && x in f.vals
    ensures TotalCount(Entries(Bump(f, x))) == TotalCount(Entries(f)) + 1
  {
    BumpValues(f, x);
    var ef, eg := Entries(f), Entries(Bump(f, x));
    var i := IndexOf(f.keys, x);
    var e := ErrorCount(x, f.vals[x] + 1);
    assert eg == ef[i := e] by {
      forall k | 0 <= k < |eg| ensures eg[k] == ef[i := e][k] {
        if k != i { assert f.keys[k] != x; }
      }
    }
    TotalCountUpdate(ef, i, e);
  }

  /** The counts in the frequency map add up to the number of messages recorded. */
  lemma {:induction false} EntriesTotal(msgs: seq<string>)
    ensures TotalCount(Entries(Frequencies(msgs))) == |msgs|
  {
    if msgs != [] {
      var init := msgs[..|msgs| - 1];
      EntriesTotal(init);
      TotalBump(Frequencies(init), msgs[|msgs| - 1]);
    }
  }

  function CountKey(e: ErrorCount): int {
    e.count
  }

  /** The entries of the frequency map, sorted by `(a, b) => b.count - a.count` and cut with
      `slice(0, 5)`. */
  function Top5(f: OrderedMap<string, nat>): seq<ErrorCount>
    requires Valid(f)
  {
    Take(SortDesc(Entries(f), CountKey), 5)
  }

  /** The top errors of a list of error messages. */
  function TopErrors(msgs: seq<string>): seq<ErrorCount> {
    Top5(Frequencies(msgs))
  }

  /** The ranking of the messages of `msgs`, before the cut to five. */
  function Ranking(msgs: seq<string>): seq<ErrorCount> {
    SortDesc(Entries(Frequencies(msgs)), CountKey)
  }

  /** Every ranked entry is a message of the log with its exact number of occurrences. */
  lemma RankingEntries(msgs: seq<string>)
    ensures forall e :: e in Ranking(msgs) ==> e.message in msgs && e.count == Occurrences(msgs, e.message) >= 1
  {
    FrequenciesCount(msgs);
    var entries := Entries(Frequencies(msgs));
    forall e | e in Ranking(msgs) ensures e.message in msgs && e.count == Occurrences(msgs, e.message) >= 1 {
      assert e in multiset(Ranking(msgs));
      assert e in entries;
    }
  }

  /** The top errors are at most five messages of the log with their exact frequencies, and
      there are five unless the log has fewer distinct error messages. */
  lemma TopErrorsEntries(msgs: seq<string>)
    ensures |TopErrors(msgs)| == if 5 < |Frequencies(msgs).keys| then 5 else |Frequencies(msgs).keys|
    ensures forall e :: e in TopErrors(msgs) ==> e.message in msgs && e.count == Occurrences(msgs, e.message) >= 1
  {
    RankingEntries(msgs);
    assert TopErrors(msgs) == Take(Ranking(msgs), 5);
  }

  /** No message is listed twice. */
  lemma TopErrorsDistinct(msgs: seq<string>)
    ensures forall i, j :: 0 <= i < j < |TopErrors(msgs)| ==> TopErrors(msgs)[i].message != TopErrors(msgs)[j].message
  {
    var f := Frequencies(msgs);
    var entries := Entries(f);
    var sorted := Ranking(msgs);
    var top := TopErrors(msgs);
    assert Distinct(entries);
    PermutationDistinct(entries, sorted);
    forall i, j | 0 <= i < j < |top| ensures top[i].message != top[j].message {
      assert top[i] == sorted[i] && top[j] == sorted[j];
      assert sorted[i] in multiset(sorted) && sorted[j] in multiset(sorted);
      assert sorted[i] in entries && sorted[j] in entries;
    }
  }

  /** Most frequent first; equally frequent messages in the order they first occur. */
  lemma TopErrorsOrder(msgs: seq<string>)
    ensures forall i, j :: 0 <= i < j < |TopErrors(msgs)| ==> TopErrors(msgs)[i].count >= TopErrors(msgs)[j].count
    ensures forall i, j :: 0 <= i < j < |TopErrors(msgs)| && TopErrors(msgs)[i].count == TopErrors(msgs)[j].count ==>
      FirstSeen(msgs, TopErrors(msgs)[i].message) < FirstSeen(msgs, TopErrors(msgs)[j].message)
  {
    var entries := Entries(Frequencies(msgs));
    FrequenciesOrder(msgs);
    var rank := (e: ErrorCount) => FirstSeen(msgs, e.message);
    SortDescTies(entries, CountKey, rank);
    TakeKeepsOrder(Ranking(msgs), CountKey, rank, 5);
  }

  /** A message left out of the top errors is no more frequent than any listed one. */
  lemma TopErrorsComplete(msgs: seq<string>, m: string)
    requires m in msgs && forall d :: d in TopErrors(msgs) ==> d.message != m
    ensures forall e :: e in TopErrors(msgs) ==> Occurrences(msgs, m) <= e.count
  {
    var f := Frequencies(msgs);
    FrequenciesCount(msgs);
    var entries := Entries(f);
    var y := ErrorCount(m, f.vals[m]);
    var k := IndexOf(f.keys, m);
    assert entries[k] == y;
    assert y in multiset(Ranking(msgs));
    TakeOmitted(Ranking(msgs), CountKey, 5, y);
  }

  /** The result of analysing a whole log. */
  function Analysis(text: string): LogAnalysisResult {
    var es := Classify(Lines(text));
    LogAnalysisResult(|es|, Counts(es), TopErrors(ErrorMessages(es)))
  }

  /** The level counts never exceed the number of non-blank lines, and every top error occurs
      at least once and at most as often as there are errors. */
  lemma AnalysisBounds(text: string)
    ensures var r := Analysis(text);
            && r.totalLines == |Lines(text)|
            && r.counts.info + r.counts.warn + r.counts.error <= r.totalLines
            && |r.topErrors| <= 5
            && forall e :: e in r.topErrors ==> 1 <= e.count <= r.counts.error
  {
    var es := Classify(Lines(text));
    CountsPartition(es);
    var msgs := ErrorMessages(es);
    TopErrorsEntries(msgs);
    forall e | e in TopErrors(msgs) ensures e.count <= |msgs| {
      OccurrencesBound(msgs, e.message);
    }
  }

  /** The body of the pass for one parsed line: its level is counted and, for an ERROR
      line, its message recorded with `get` and `set` on the frequency map. */
  method Record(counts: LevelCounts, errorFrequency: OrderedMap<string, nat>, ghost es: seq<Option<LogEntry>>,
                entry: Option<LogEntry>)
    returns (counts': LevelCounts, errorFrequency': OrderedMap<string, nat>)
    requires counts == Counts(es) && errorFrequency == Frequencies(ErrorMessages(es))
    ensures counts' == Counts(es + [entry]) && errorFrequency' == Frequencies(ErrorMessages(es + [entry]))
  {
    AnalysisStep(es, entry);
    counts', errorFrequency' := counts, errorFrequency;
    if entry.Some? {
      counts' := Increment(counts, entry.value.level);
      if entry.value.level == Error {
        var message := entry.value.message;
        var count := Get(errorFrequency, message).GetOr(0);
        errorFrequency' := Set(errorFrequency, message, count + 1);
        BumpIs(errorFrequency, message, count, errorFrequency');
        FrequenciesAppend(ErrorMessages(es), message);
      }
    }
    assert entry.None? || entry.value.level != Error ==> ErrorMessages(es + [entry]) == ErrorMessages(es);
  }

  /** The pass of `analyze` over the non-blank lines: each line is parsed and recorded. */
  method Tally(lines: seq<string>) returns (counts: LevelCounts, errorFrequency: OrderedMap<string, nat>)
    ensures counts == Counts(Classify(lines))
    ensures errorFrequency == Frequencies(ErrorMessages(Classify(lines)))
  {
    counts := LevelCounts(0, 0, 0);
    errorFrequency := Empty();
    for i := 0 to |lines|
      invariant counts == Counts(Classify(lines[..i]))
      invariant errorFrequency == Frequencies(ErrorMessages(Classify(lines[..i])))
    {
      assert lines[..i + 1][..i] == lines[..i];
      var entry := ParseLine(lines[i]);
      counts, errorFrequency := Record(counts, errorFrequency, Classify(lines[..i]), entry);
    }
    assert lines[..|lines|] == lines;
  }

  /** `LogAnalyzer.analyze`: the non-blank lines, the pass over them, then the ranking of the
      recorded error messages. */
  method Analyze(text: string) returns (r: LogAnalysisResult)
    ensures r == Analysis(text)
  {
    var lines := Lines(text);
    var counts, errorFrequency := Tally(lines);
    r := LogAnalysisResult(|lines|, counts, Top5(errorFrequency));
  }

  lemma {:induction false} OccurrencesBound(msgs: seq<string>, m: string)
    ensures Occurrences(msgs, m) <= |msgs|
  {
    if msgs != [] {
      OccurrencesBound(msgs[..|msgs| - 1], m);
    }
  }
}
