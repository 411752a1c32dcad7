/**
 The journal (quantra/src/journald.rs): entries are appended as JSON lines and
 queried by substring search for the unit field.  The theorems say when that
 search finds exactly the entries of a unit.
 */
module Journal {
  import opened Optional
  import opened Text

  // ------------------------------------------------------------------ escaping

  /** `str::replace` of a character by a text. */
  function Replace(s: string, c: char, t: string): string {
    if s == [] then [] else (if s[0] == c then t else [s[0]]) + Replace(s[1..], c, t)
  }

  /** The four passes, in the source's order. */
  function EscapePasses(s: string): string {
    Replace(Replace(Replace(Replace(s, '\\', ['\\', '\\']), '"', ['\\', '"']), '\n', ['\\', 'n']), '\r', ['\\', 'r'])
  }

  function EscapeChar(c: char): string {
    if c == '\\' then ['\\', '\\']
    else if c == '"' then ['\\', '"']
    else if c == '\n' then ['\\', 'n']
    else if c == '\r' then ['\\', 'r']
    else [c]
  }

  /** One map over the characters. */
  function Escape(s: string): string {
    if s == [] then [] else EscapeChar(s[0]) + Escape(s[1..])
  }

  lemma {:induction false} ReplaceConcat(a: string, b: string, c: char, t: string)
    ensures Replace(a + b, c, t) == Replace(a, c, t) + Replace(b, c, t)
    decreases |a|
  {
    if a == [] {
      assert a + b == b;
    } else {
      ReplaceConcat(a[1..], b, c, t);
      assert (a + b)[0] == a[0] && (a + b)[1..] == a[1..] + b;
      var x := if a[0] == c then t else [a[0]];
      var rest, tail := Replace(a[1..], c, t), Replace(b, c, t);
      assert Replace(a + b, c, t) == x + (rest + tail);
      assert x + (rest + tail) == (x + rest) + tail;
    }
  }

  lemma ReplaceOne(x: char, c: char, t: string)
    ensures Replace([x], c, t) == if x == c then t else [x]
  {
    assert [x][1..] == [] && Replace([], c, t) == [];
    assert t + [] == t;
  }

  lemma ReplaceTwo(x: char, y: char, c: char, t: string)
    requires x != c && y != c
    ensures Replace([x, y], c, t) == [x, y]
  {
    assert [x, y] == [x] + [y];
    ReplaceConcat([x], [y], c, t);
    ReplaceOne(x, c, t);
    ReplaceOne(y, c, t);
  }

  lemma PassesOnOne(x: char)
    ensures EscapePasses([x]) == EscapeChar(x)
  {
    hide Replace;
    ReplaceOne(x, '\\', ['\\', '\\']);
    ReplaceOne(x, '"', ['\\', '"']);
    ReplaceOne(x, '\n', ['\\', 'n']);
    ReplaceOne(x, '\r', ['\\', 'r']);
    ReplaceTwo('\\', '\\', '"', ['\\', '"']);
    ReplaceTwo('\\', '\\', '\n', ['\\', 'n']);
    ReplaceTwo('\\', '\\', '\r', ['\\', 'r']);
    ReplaceTwo('\\', '"', '\n', ['\\', 'n']);
    ReplaceTwo('\\', '"', '\r', ['\\', 'r']);
    ReplaceTwo('\\', 'n', '\r', ['\\', 'r']);
  }

  lemma PassesConcat(a: string, b: string)
    ensures EscapePasses(a + b) == EscapePasses(a) + EscapePasses(b)
  {
    hide Replace;
    var a1, b1 := Replace(a, '\\', ['\\', '\\']), Replace(b, '\\', ['\\', '\\']);
    var a2, b2 := Replace(a1, '"', ['\\', '"']), Replace(b1, '"', ['\\', '"']);
    ReplaceConcat(a, b, '\\', ['\\', '\\']);
    ReplaceConcat(a1, b1, '"', ['\\', '"']);
    ReplaceConcat(a2, b2, '\n', ['\\', 'n']);
    ReplaceConcat(Replace(a2, '\n', ['\\', 'n']), Replace(b2, '\n', ['\\', 'n']), '\r', ['\\', 'r']);
  }

  /** Four passes are one map: no pass touches what an earlier one inserted. */
  lemma {:induction false} PassesAreOneMap(s: string)
    ensures EscapePasses(s) == Escape(s)
    decreases |s|
  {
    if s != [] {
      PassesAreOneMap(s[1..]);
      PassesConcat([s[0]], s[1..]);
      PassesOnOne(s[0]);
      assert [s[0]] + s[1..] == s;
    }
  }

  /** The JSON reading of the escapes that are used. */
  function Unescape(s: string): string
    decreases |s|
  {
    if s == [] then []
    else if s[0] == '\\' && |s| >= 2 then
      [if s[1] == 'n' then '\n' else if s[1] == 'r' then '\r' else s[1]] + Unescape(s[2..])
    else [s[0]] + Unescape(s[1..])
  }

  lemma UnescapeStep(c: char, rest: string)
    ensures Unescape(EscapeChar(c) + rest) == [c] + Unescape(rest)
  {
    var e := EscapeChar(c) + rest;
    if |EscapeChar(c)| == 2 {
      assert e[2..] == rest && e[0] == '\\' && e[1] == EscapeChar(c)[1];
    } else {
      assert e[1..] == rest && e[0] == c;
    }
  }

  lemma {:induction false} UnescapeInverts(s: string)
    ensures Unescape(Escape(s)) == s
    decreases |s|
  {
    if s != [] {
      UnescapeInverts(s[1..]);
      UnescapeStep(s[0], Escape(s[1..]));
      assert [s[0]] + s[1..] == s;
    }
  }

  /** Every quote stands behind a backslash. */
  predicate Protected(s: string) {
    forall i :: 0 <= i < |s| && s[i] == '"' ==> i > 0 && s[i - 1] == '\\'
  }

  lemma {:induction false} EscapedIsProtected(s: string)
    ensures Protected(Escape(s)) && '\n' !in Escape(s) && '\r' !in Escape(s)
    decreases |s|
  {
    if s != [] {
      EscapedIsProtected(s[1..]);
      var a, b := EscapeChar(s[0]), Escape(s[1..]);
      forall i | 0 <= i < |a + b| && (a + b)[i] == '"' ensures i > 0 && (a + b)[i - 1] == '\\' {
        if i >= |a| {
          assert b[i - |a|] == '"';
          assert (a + b)[i - 1] == b[i - |a| - 1];
        }
      }
    }
  }

  // ------------------------------------------------------------------- entries

  datatype Entry = Entry(timestampUs: nat, unit: string, pid: int, priority: nat, message: string)

  predicate ValidEntry(e: Entry) { e.priority <= 7 }

  type JournalEntry = e: Entry | ValidEntry(e) witness Entry(0, "", 0, 0, "")

  function LevelName(p: nat): string {
    if p == 0 then "EMERG" else if p == 1 then "ALERT" else if p == 2 then "CRIT" else if p == 3 then "ERR"
    else if p == 4 then "WARN" else if p == 5 then "NOTICE" else if p == 6 then "INFO" else "DEBUG"
  }

  function Integer(n: int): string { if n < 0 then "-" + Decimal(-n) else Decimal(n) }

  const TS := ['{', '"', 't', 's', '"', ':']
  const KEY := ['"', 'u', 'n', 'i', 't', '"', ':', '"']
  const PID := [',', '"', 'p', 'i', 'd', '"', ':']
  const PRIORITY := [',', '"', 'p', 'r', 'i', 'o', 'r', 'i', 't', 'y', '"', ':']
  const LEVEL := [',', '"', 'l', 'e', 'v', 'e', 'l', '"', ':', '"']
  const MSG := ['"', ',', '"', 'm', 's', 'g', '"', ':']

  /** The format string of `to_json_line`, in three parts: up to the unit key ... */
  function Head(e: JournalEntry): string { TS + Decimal(e.timestampUs / 1_000_000) + [','] }

  /** ... from the comma after the unit value to the colon before the message value ... */
  function Middle(e: JournalEntry): string {
    PID + Integer(e.pid) + PRIORITY + Decimal(e.priority) + (LEVEL + LevelName(e.priority) + MSG)
  }

  /** ... and the two quoted values around that. */
  function Tail(e: JournalEntry): string {
    ['"'] + e.unit + ['"'] + (Middle(e) + (['"'] + EscapePasses(e.message) + ['"', '}']))
  }

  /** `to_json_line` without its final newline. */
  function JsonLine(e: JournalEntry): string { Head(e) + (KEY[..7] + Tail(e)) }

  // ------------------------------------------------- where the unit field can be

  predicate At(s: string, pat: string, i: nat) { i + |pat| <= |s| && s[i..i + |pat|] == pat }

  predicate Contains(s: string, pat: string) { exists i: nat :: i <= |s| && At(s, pat, i) }

  predicate KeyAt(s: string, i: nat) { At(s, KEY, i) }

  /** No quote is followed by a u, and none is last. */
  predicate NoKeyStart(a: string) {
    forall i :: 0 <= i < |a| && a[i] == '"' ==> i + 1 < |a| && a[i + 1] != 'u'
  }

  lemma KeyChars(s: string, i: nat)
    requires KeyAt(s, i)
    ensures s[i] == '"' && s[i + 1] == 'u' && s[i + 2] == 'n' && s[i + 3] == 'i' && s[i + 4] == 't'
    ensures s[i + 5] == '"' && s[i + 6] == ':' && s[i + 7] == '"'
  {
    var t := s[i..i + 8];
    assert t[0] == s[i] && t[1] == s[i + 1] && t[2] == s[i + 2] && t[3] == s[i + 3];
    assert t[4] == s[i + 4] && t[5] == s[i + 5] && t[6] == s[i + 6] && t[7] == s[i + 7];
  }

  lemma NoKeyConcat(a: string, b: string)
    requires NoKeyStart(a) && NoKeyStart(b)
    ensures NoKeyStart(a + b)
  {
    forall i | 0 <= i < |a + b| && (a + b)[i] == '"' ensures i + 1 < |a + b| && (a + b)[i + 1] != 'u' {
      if i < |a| { assert a[i] == '"'; } else { assert b[i - |a|] == '"'; }
    }
  }

  lemma SkipSegment(a: string, b: string, i: nat)
    requires NoKeyStart(a) && i < |a|
    ensures !KeyAt(a + b, i)
  {
    if KeyAt(a + b, i) {
      KeyChars(a + b, i);
    }
  }

  /** A key cannot start in a protected value, at its quotes or inside, if neither colon nor u follows it. */
  lemma ValueHidesKeys(v: string, c: char, rest: string, i: nat)
    requires Protected(v) && c != ':' && c != 'u' && i < |v| + 2
    ensures !KeyAt(['"'] + v + ['"', c] + rest, i)
  {
    var s := ['"'] + v + ['"', c] + rest;
    assert s[|v| + 1] == '"' && s[|v| + 2] == c;
    if KeyAt(s, i) {
      KeyChars(s, i);
    }
  }

  // --------------------------------------------------------- the line's structure

  lemma QuoteFreeNoKey(s: string)
    requires QuoteFree(s)
    ensures NoKeyStart(s) && Protected(s)
  {
  }

  lemma IntegerQuoteFree(n: int)
    ensures QuoteFree(Integer(n))
  {
    if n < 0 { DecimalQuoteFree(-n); } else { DecimalQuoteFree(n); }
  }

  lemma LevelUpper(p: nat)
    ensures QuoteFree(LevelName(p)) && LevelName(p) != "" && LevelName(p)[0] != 'u'
  {
  }

  lemma HeadNoKey(e: JournalEntry)
    ensures NoKeyStart(Head(e))
  {
    DecimalQuoteFree(e.timestampUs / 1_000_000);
    QuoteFreeNoKey(Decimal(e.timestampUs / 1_000_000));
    NoKeyConcat(TS, Decimal(e.timestampUs / 1_000_000));
    NoKeyConcat(TS + Decimal(e.timestampUs / 1_000_000), [',']);
  }

  lemma LevelFieldNoKey(p: nat)
    ensures NoKeyStart(LEVEL + LevelName(p) + MSG)
  {
    LevelUpper(p);
    var s := LEVEL + LevelName(p) + MSG;
    forall i | 0 <= i < |s| && s[i] == '"' ensures i + 1 < |s| && s[i + 1] != 'u' {
      assert forall k :: 0 <= k < |LevelName(p)| ==> s[10 + k] == LevelName(p)[k];
    }
  }

  lemma MiddleNoKey(e: JournalEntry)
    ensures NoKeyStart(Middle(e)) && |Middle(e)| > 0 && Middle(e)[0] == ','
  {
    IntegerQuoteFree(e.pid);
    QuoteFreeNoKey(Integer(e.pid));
    DecimalQuoteFree(e.priority);
    QuoteFreeNoKey(Decimal(e.priority));
    LevelFieldNoKey(e.priority);
    NoKeyConcat(PID, Integer(e.pid));
    NoKeyConcat(PID + Integer(e.pid), PRIORITY);
    NoKeyConcat(PID + Integer(e.pid) + PRIORITY, Decimal(e.priority));
    NoKeyConcat(PID + Integer(e.pid) + PRIORITY + Decimal(e.priority), LEVEL + LevelName(e.priority) + MSG);
  }

  /** Past its key the line has no other unit key, if the unit has no quote. */
  lemma TailNoKey(e: JournalEntry, i: nat)
    requires QuoteFree(e.unit)
    ensures !KeyAt(Tail(e), i)
  {
    hide Escape, EscapePasses, Middle;
    var msg := EscapePasses(e.message);
    PassesAreOneMap(e.message);
    EscapedIsProtected(e.message);
    MiddleNoKey(e);
    QuoteFreeNoKey(e.unit);
    var value := ['"'] + msg + ['"', '}'];
    var rest := Middle(e) + value;
    var t := Tail(e);
    var u := |e.unit| + 2;
    if i < u {
      assert rest == [','] + rest[1..];
      assert t == ['"'] + e.unit + ['"', ','] + rest[1..];
      ValueHidesKeys(e.unit, ',', rest[1..], i);
    } else if KeyAt(t, i) {
      KeyAtTail(t, u, i);
      assert t[u..] == rest;
      var j := i - u;
      if j < |Middle(e)| {
        SkipSegment(Middle(e), value, j);
      } else {
        KeyAtTail(rest, |Middle(e)|, j);
        assert rest[|Middle(e)|..] == value;
        assert value == ['"'] + msg + ['"', '}'] + [];
        ValueHidesKeys(msg, '}', [], j - |Middle(e)|);
      }
    }
  }

  lemma KeyAtTail(s: string, k: nat, i: nat)
    requires k <= i && k <= |s| && KeyAt(s, i)
    ensures KeyAt(s[k..], i - k)
  {
    assert s[k..][i - k..i - k + 8] == s[i..i + 8];
  }

  /** The unit key of a line is at one place. */
  lemma KeyPlace(e: JournalEntry, i: nat)
    requires QuoteFree(e.unit) && KeyAt(JsonLine(e), i)
    ensures i == |Head(e)|
  {
    hide Head, Tail;
    HeadNoKey(e);
    var line, h := JsonLine(e), |Head(e)|;
    var after := KEY[..7] + Tail(e);
    if i < h {
      SkipSegment(Head(e), after, i);
    } else if i > h {
      KeyAtTail(line, h, i);
      assert line[h..] == after;
      var j := i - h;
      if j < 7 {
        KeyChars(after, j);
      } else {
        KeyAtTail(after, 7, j);
        assert after[7..] == Tail(e);
        TailNoKey(e, j - 7);
      }
    }
  }

  // ----------------------------------------------------------------- the query

  function UnitPattern(unit: string): string { KEY + unit + ['"'] }

  /** The search finds an entry of the unit, whatever its other fields hold. */
  lemma FindsOwn(e: JournalEntry)
    ensures Contains(JsonLine(e), UnitPattern(e.unit))
  {
    FindsPrefix(e, e.unit, Tail(e)[|e.unit| + 2..]);
  }

  /** It finds every line whose unit starts with the text and a quote. */
  lemma FindsPrefix(e: JournalEntry, unit: string, rest: string)
    requires Tail(e) == ['"'] + unit + ['"'] + rest
    ensures Contains(JsonLine(e), UnitPattern(unit))
  {
    hide Tail, Head;
    var line, h, pat := JsonLine(e), |Head(e)|, UnitPattern(unit);
    assert KEY == KEY[..7] + ['"'];
    assert line == Head(e) + (pat + rest);
    assert line[h..h + |pat|] == pat;
    assert At(line, pat, h);
  }

  /** For quote-free units the search finds nothing else. */
  lemma FindsOnlyOwn(e: JournalEntry, unit: string)
    requires QuoteFree(e.unit) && QuoteFree(unit) && Contains(JsonLine(e), UnitPattern(unit))
    ensures e.unit == unit
  {
    hide Tail, Head, SplitOnce, JsonLine;
    var line, pat := JsonLine(e), UnitPattern(unit);
    var i: nat :| i <= |line| && At(line, pat, i);
    PatternAt(line, unit, i);
    KeyPlace(e, i);
    TailAfterKey(e);
    SplitOnceAt(e.unit, '"', Tail(e)[|e.unit| + 2..]);
    SplitOnceAt(unit, '"', line[i + 9 + |unit|..]);
  }

  lemma PatternAt(line: string, unit: string, i: nat)
    requires At(line, UnitPattern(unit), i)
    ensures KeyAt(line, i) && i + 9 + |unit| <= |line|
    ensures line[i + 8..] == unit + ['"'] + line[i + 9 + |unit|..]
  {
    var pat := UnitPattern(unit);
    var part := line[i..i + |pat|];
    assert line[i..i + 8] == part[..8] == KEY;
    assert line[i + 8..i + |pat|] == part[8..] == unit + ['"'];
    assert line[i + 8..] == line[i + 8..i + |pat|] + line[i + |pat|..];
  }

  lemma TailAfterKey(e: JournalEntry)
    ensures |Tail(e)| >= |e.unit| + 2
    ensures JsonLine(e)[|Head(e)| + 8..] == e.unit + ['"'] + Tail(e)[|e.unit| + 2..]
  {
    hide Middle, EscapePasses, Head;
    var t := Tail(e);
    assert t == ['"'] + (e.unit + ['"'] + t[|e.unit| + 2..]);
    assert JsonLine(e)[|Head(e)|..] == KEY[..7] + t;
    assert JsonLine(e)[|Head(e)| + 8..] == JsonLine(e)[|Head(e)|..][8..];
  }

  // -------------------------------------------------------------- lines of the file

  function StripCr(s: string): string { if |s| > 0 && s[|s| - 1] == '\r' then s[..|s| - 1] else s }

  /** `str::lines`. */
  function Lines(s: string): seq<string>
    decreases |s|
  {
    if s == [] then []
    else
      var cut := SplitOnce(s, '\n');
      if cut.None? then [s] else [StripCr(cut.value.0)] + Lines(cut.value.1)
  }

  /** The journal file after appending the entries. */
  function Content(entries: seq<JournalEntry>): string {
    if entries == [] then [] else Content(entries[..|entries| - 1]) + (JsonLine(entries[|entries| - 1]) + ['\n'])
  }

  function JsonLines(entries: seq<JournalEntry>): (r: seq<string>)
    ensures |r| == |entries| && forall i :: 0 <= i < |r| ==> r[i] == JsonLine(entries[i])
  {
    seq(|entries|, i requires 0 <= i < |entries| => JsonLine(entries[i]))
  }

  predicate NewlineFree(s: string) { '\n' !in s }

  lemma DigitsNewlineFree(n: nat)
    ensures NewlineFree(Decimal(n))
  {
    forall i | 0 <= i < |Decimal(n)| ensures Decimal(n)[i] != '\n' { assert IsDigit(Decimal(n)[i]); }
  }

  /** A newline-free unit gives a one-line entry, whatever the message. */
  lemma OneLine(e: JournalEntry)
    requires NewlineFree(e.unit)
    ensures NewlineFree(JsonLine(e)) && StripCr(JsonLine(e)) == JsonLine(e)
  {
    hide Decimal, EscapePasses, Escape, LevelName;
    DigitsNewlineFree(e.timestampUs / 1_000_000);
    DigitsNewlineFree(e.priority);
    if e.pid < 0 { DigitsNewlineFree(-e.pid); } else { DigitsNewlineFree(e.pid); }
    LevelNewlineFree(e.priority);
    PassesAreOneMap(e.message);
    EscapedIsProtected(e.message);
    assert NewlineFree(Integer(e.pid)) && NewlineFree(Middle(e));
    assert NewlineFree(Head(e)) && NewlineFree(Tail(e));
    var line := JsonLine(e);
    assert line[|line| - 1] == '}';
  }

  lemma LevelNewlineFree(p: nat)
    ensures NewlineFree(LevelName(p))
  {
  }

  lemma LinesCut(a: string, b: string)
    requires NewlineFree(a)
    ensures Lines(a + ['\n'] + b) == [StripCr(a)] + Lines(b)
  {
    hide SplitOnce;
    SplitOnceAt(a, '\n', b);
  }

  lemma {:induction false} LinesAppend(content: string, line: string)
    requires content == [] || content[|content| - 1] == '\n'
    requires NewlineFree(line) && StripCr(line) == line
    ensures Lines(content + (line + ['\n'])) == Lines(content) + [line]
    decreases |content|
  {
    hide Lines, SplitOnce, StripCr;
    if content == [] {
      assert content + (line + ['\n']) == line + ['\n'] + [];
      LinesCut(line, []);
      LinesEmpty();
    } else {
      assert '\n' in content;
      var (a, b) := SplitOnce(content, '\n').value;
      assert b != [] ==> b[|b| - 1] == content[|content| - 1];
      LinesAppend(b, line);
      assert content + (line + ['\n']) == a + ['\n'] + (b + (line + ['\n']));
      LinesCut(a, b);
      LinesCut(a, b + (line + ['\n']));
      assert [StripCr(a)] + (Lines(b) + [line]) == [StripCr(a)] + Lines(b) + [line];
    }
  }

  /** The file splits into exactly the lines that were appended. */
  lemma {:induction false} LinesOfContent(entries: seq<JournalEntry>)
    requires forall i :: 0 <= i < |entries| ==> NewlineFree(entries[i].unit)
    ensures Lines(Content(entries)) == JsonLines(entries)
    ensures entries != [] ==> Content(entries) != [] && Content(entries)[|Content(entries)| - 1] == '\n'
    decreases |entries|
  {
    hide JsonLine, Lines;
    if entries == [] {
      LinesEmpty();
    } else {
      var front, last := entries[..|entries| - 1], entries[|entries| - 1];
      LinesOfContent(front);
      OneLine(last);
      LinesAppend(Content(front), JsonLine(last));
      assert JsonLines(entries) == JsonLines(front) + [JsonLine(last)];
    }
  }

  lemma LinesEmpty()
    ensures Lines([]) == []
  {
  }

  // ----------------------------------------------------------------- query

  function Matching(lines: seq<string>, pat: string): seq<string> {
    if lines == [] then []
    else
      var front, last := Matching(lines[..|lines| - 1], pat), lines[|lines| - 1];
      if Contains(last, pat) then front + [last] else front
  }

  function Reversed(s: seq<string>): (r: seq<string>)
    ensures |r| == |s|
  {
    if s == [] then [] else [s[|s| - 1]] + Reversed(s[..|s| - 1])
  }

  function Take(s: seq<string>, n: nat): seq<string> { if n < |s| then s[..n] else s }

  /** `query`: filter, reverse, take, reverse. */
  function Query(content: string, unit: string, maxLines: nat): seq<string> {
    Reversed(Take(Reversed(Matching(Lines(content), UnitPattern(unit))), maxLines))
  }

  /** The last n elements, in order. */
  function LastN(s: seq<string>, n: nat): seq<string> { if n < |s| then s[|s| - n..] else s }

  lemma {:induction false} ReversedAt(s: seq<string>, i: nat)
    requires i < |s|
    ensures Reversed(s)[i] == s[|s| - 1 - i]
    decreases |s|
  {
    if i > 0 { ReversedAt(s[..|s| - 1], i - 1); }
  }

  lemma TakeFromEnd(s: seq<string>, n: nat)
    ensures Reversed(Take(Reversed(s), n)) == LastN(s, n)
  {
    var r := Take(Reversed(s), n);
    assert |r| == |LastN(s, n)|;
    forall i | 0 <= i < |r| ensures Reversed(r)[i] == LastN(s, n)[i] {
      ReversedAt(r, i);
      ReversedAt(s, |r| - 1 - i);
    }
  }

  /** The lines of one unit's entries, in the order they were appended. */
  function LinesOfUnit(entries: seq<JournalEntry>, unit: string): seq<string> {
    if entries == [] then []
    else
      var front, last := LinesOfUnit(entries[..|entries| - 1], unit), entries[|entries| - 1];
      if last.unit == unit then front + [JsonLine(last)] else front
  }

  ghost predicate AllQuoteFree(entries: seq<JournalEntry>) {
    forall i :: 0 <= i < |entries| ==> QuoteFree(entries[i].unit)
  }

  ghost predicate AllNewlineFree(entries: seq<JournalEntry>) {
    forall i :: 0 <= i < |entries| ==> NewlineFree(entries[i].unit)
  }

  lemma {:induction false} MatchingIsUnit(entries: seq<JournalEntry>, unit: string)
    requires AllQuoteFree(entries) && QuoteFree(unit)
    ensures Matching(JsonLines(entries), UnitPattern(unit)) == LinesOfUnit(entries, unit)
    decreases |entries|
  {
    hide JsonLine, Contains;
    if entries != [] {
      var front, last := entries[..|entries| - 1], entries[|entries| - 1];
      MatchingIsUnit(front, unit);
      var lines := JsonLines(entries);
      assert lines[..|lines| - 1] == JsonLines(front);
      FindsOwn(last);
      if Contains(JsonLine(last), UnitPattern(unit)) { FindsOnlyOwn(last, unit); }
    }
  }

  predicate Occurs(entries: seq<JournalEntry>, unit: string) {
    exists i :: 0 <= i < |entries| && entries[i].unit == unit
  }

  /**
   "query(unit, n) is the last n entries of that unit, in order", for every unit that was logged and
   every other name without a quote.
   */
  ghost predicate QueryLaw(entries: seq<JournalEntry>) {
    forall unit: string, n: nat :: QuoteFree(unit) || Occurs(entries, unit) ==>
      Query(Content(entries), unit, n) == LastN(LinesOfUnit(entries, unit), n)
  }

  lemma QueryExact(entries: seq<JournalEntry>, unit: string, n: nat)
    requires AllNewlineFree(entries) && AllQuoteFree(entries) && QuoteFree(unit)
    ensures Query(Content(entries), unit, n) == LastN(LinesOfUnit(entries, unit), n)
  {
    hide Lines, Matching, LinesOfUnit, Content, Reversed;
    LinesOfContent(entries);
    MatchingIsUnit(entries, unit);
    TakeFromEnd(LinesOfUnit(entries, unit), n);
  }

  // ---------------------------------------------------- when the law fails

  /** The search is never short; it is longer wherever it also finds another unit's line. */
  lemma {:induction false} MatchingAtLeast(entries: seq<JournalEntry>, unit: string)
    ensures |Matching(JsonLines(entries), UnitPattern(unit))| >= |LinesOfUnit(entries, unit)|
    ensures (exists i ::
               && 0 <= i < |entries| && entries[i].unit != unit
               && Contains(JsonLine(entries[i]), UnitPattern(unit))) ==>
              |Matching(JsonLines(entries), UnitPattern(unit))| > |LinesOfUnit(entries, unit)|
    decreases |entries|
  {
    hide JsonLine, Contains;
    if entries != [] {
      var front, last := entries[..|entries| - 1], entries[|entries| - 1];
      MatchingAtLeast(front, unit);
      var lines := JsonLines(entries);
      assert lines[..|lines| - 1] == JsonLines(front);
      FindsOwn(last);
    }
  }

  /** A unit with a quote answers to the text before the quote. */
  lemma QuoteAnswersToPrefix(e: JournalEntry)
    requires !QuoteFree(e.unit)
    ensures QuoteFree(SplitOnce(e.unit, '"').value.0) && SplitOnce(e.unit, '"').value.0 != e.unit
    ensures Contains(JsonLine(e), UnitPattern(SplitOnce(e.unit, '"').value.0))
  {
    hide JsonLine, Contains, Middle, EscapePasses;
    var (a, b) := SplitOnce(e.unit, '"').value;
    var rest := b + ['"'] + (Middle(e) + (['"'] + EscapePasses(e.message) + ['"', '}']));
    assert Tail(e) == ['"'] + a + ['"'] + rest;
    FindsPrefix(e, a, rest);
  }

  lemma {:induction false} LinesHaveNoNewline(s: string)
    ensures forall i :: 0 <= i < |Lines(s)| ==> NewlineFree(Lines(s)[i])
    decreases |s|
  {
    hide SplitOnce;
    if s != [] {
      var cut := SplitOnce(s, '\n');
      if cut.Some? { LinesHaveNoNewline(cut.value.1); }
    }
  }

  lemma {:induction false} NoneMatch(lines: seq<string>, pat: string)
    requires (forall i :: 0 <= i < |lines| ==> NewlineFree(lines[i])) && '\n' in pat
    ensures Matching(lines, pat) == []
    decreases |lines|
  {
    if lines != [] {
      NoneMatch(lines[..|lines| - 1], pat);
      var line := lines[|lines| - 1];
      forall i: nat | i <= |line| ensures !At(line, pat, i) {
      }
    }
  }

  /** A unit with a newline is never found again, though it was logged. */
  lemma NewlineHidesUnit(entries: seq<JournalEntry>, unit: string, n: nat)
    requires '\n' in unit
    ensures Query(Content(entries), unit, n) == []
  {
    hide Lines, Matching, Content;
    var lines := Lines(Content(entries));
    LinesHaveNoNewline(Content(entries));
    assert UnitPattern(unit) == KEY + unit + ['"'];
    NoneMatch(lines, UnitPattern(unit));
  }

  lemma {:induction false} LoggedUnitHasLines(entries: seq<JournalEntry>, unit: string)
    requires Occurs(entries, unit)
    ensures |LinesOfUnit(entries, unit)| > 0
    decreases |entries|
  {
    hide JsonLine;
    var front := entries[..|entries| - 1];
    if entries[|entries| - 1].unit != unit {
      var i :| 0 <= i < |entries| && entries[i].unit == unit;
      assert front[i].unit == unit;
      LoggedUnitHasLines(front, unit);
    }
  }

  /** For every journal: the law holds exactly when no unit has a quote or a newline. */
  lemma QueryLawExactly(entries: seq<JournalEntry>)
    ensures QueryLaw(entries) <==> AllQuoteFree(entries) && AllNewlineFree(entries)
  {
    hide Lines, Matching, LinesOfUnit, Content, Reversed, Contains, JsonLine, Query, SplitOnce;
    if !AllNewlineFree(entries) {
      var i :| 0 <= i < |entries| && !NewlineFree(entries[i].unit);
      var unit := entries[i].unit;
      NewlineHidesUnit(entries, unit, 1);
      LoggedUnitHasLines(entries, unit);
      assert Query(Content(entries), unit, 1) != LastN(LinesOfUnit(entries, unit), 1);
    } else if AllQuoteFree(entries) {
      forall unit: string, n: nat | QuoteFree(unit) || Occurs(entries, unit)
        ensures Query(Content(entries), unit, n) == LastN(LinesOfUnit(entries, unit), n)
      {
        QueryExact(entries, unit, n);
      }
    } else {
      var i :| 0 <= i < |entries| && !QuoteFree(entries[i].unit);
      QuoteAnswersToPrefix(entries[i]);
      var unit := SplitOnce(entries[i].unit, '"').value.0;
      MatchingAtLeast(entries, unit);
      LongQuery(entries, unit);
    }
  }

  /** A query for as many lines as match returns all of them. */
  lemma LongQuery(entries: seq<JournalEntry>, unit: string)
    requires AllNewlineFree(entries)
    ensures var n := |Matching(JsonLines(entries), UnitPattern(unit))|; |Query(Content(entries), unit, n)| == n
  {
    hide Lines, Matching, Content, Reversed;
    LinesOfContent(entries);
  }

  // ---------------------------------------------------------------- the writer

  const MAX_JOURNAL_BYTES: nat := 50 * 1024 * 1024

  /** The size of a text in bytes, as UTF-8. */
  function Utf8Length(s: string): nat {
    if s == [] then 0
    else
      var c := s[|s| - 1] as int;
      Utf8Length(s[..|s| - 1]) + (if c < 0x80 then 1 else if c < 0x800 then 2 else if c < 0x1_0000 then 3 else 4)
  }

  /** What the file system allows one write: its size, the rename, the open, and how much of the line gets written. */
  datatype Disk = Disk(sizeKnown: bool, renames: bool, opens: bool, written: nat)

  /** The journal file and the entries in it; torn once a failed write has left part of a line. */
  class JournalWriter {
    var content: string
    ghost var entries: seq<JournalEntry>
    ghost var torn: bool

    ghost predicate Valid() reads this { !torn ==> content == Content(entries) }

    constructor ()
      ensures Valid() && entries == [] && !torn && content == []
    {
      content := [];
      entries := [];
      torn := false;
    }

    /** Rotation renames the file away, so a query sees the entries since then. */
    method Write(e: JournalEntry, disk: Disk) returns (ok: bool)
      requires Valid()
      modifies this
      ensures Valid()
      ensures var line := JsonLine(e) + ['\n'];
              var due := disk.sizeKnown && Utf8Length(old(content)) > 52_428_800;
              var rotated := due && disk.renames;
              var reached := (due ==> disk.renames) && disk.opens;
              && (ok <==> reached && disk.written >= |line|)
              && entries == (if rotated then [] else old(entries)) + (if ok then [e] else [])
              && torn == ((old(torn) && !rotated) || (reached && 0 < disk.written < |line|))
              && (!ok && !rotated && !(reached && disk.written > 0) ==> content == old(content))
    {
      if disk.sizeKnown && Utf8Length(content) > MAX_JOURNAL_BYTES {
        if !disk.renames { return false; }
        content := [];
        entries := [];
        torn := false;
      }
      if !disk.opens { return false; }
      var line := JsonLine(e) + ['\n'];
      if disk.written < |line| {
        content := content + line[..disk.written];
        torn := torn || disk.written > 0;
        return false;
      }
      ghost var before := entries;
      content := content + line;
      entries := entries + [e];
      assert entries[..|entries| - 1] == before;
      return true;
    }

    method QueryUnit(unit: string, maxLines: nat) returns (lines: seq<string>)
      requires Valid()
      ensures lines == Query(content, unit, maxLines)
      ensures !torn && AllNewlineFree(entries) && AllQuoteFree(entries) && QuoteFree(unit) ==>
                lines == LastN(LinesOfUnit(entries, unit), maxLines)
    {
      hide Lines, Matching, LinesOfUnit, Content, Reversed, Query;
      if !torn && AllNewlineFree(entries) && AllQuoteFree(entries) && QuoteFree(unit) {
        QueryExact(entries, unit, maxLines);
      }
      lines := Query(content, unit, maxLines);
    }
  }
}
