/**
 A reader of journal lines, apart from what prints them: the fields by their
 names in the order of the line, texts in quotes, escapes as in section 7 of
 RFC 8259.  Every entry whose unit has no quote reads back field by field.
 */
module JournalReader {
  import opened Optional
  import opened Text
  import opened Journal

  datatype Line = Line(seconds: nat, unit: string, pid: int, priority: nat, level: string, message: string)

  function Expect(s: string, prefix: string): Option<string> {
    if prefix <= s then Some(s[|prefix|..]) else None
  }

  function DigitsOf(s: string): (r: string)
    ensures AllDigits(r) && r <= s
  {
    if s == "" || !IsDigit(s[0]) then "" else [s[0]] + DigitsOf(s[1..])
  }

  function ReadNumber(s: string): Option<(nat, string)> {
    var digits := DigitsOf(s);
    if digits == "" then None else Some((DigitsValue(digits), s[|digits|..]))
  }

  function ReadInteger(s: string): Option<(int, string)> {
    if s != "" && s[0] == '-' then
      var (n, s) :- ReadNumber(s[1..]);
      var value := 0 - n;
      Some((value, s))
    else
      var (n, s) :- ReadNumber(s);
      Some((n, s))
  }

  /** Up to the closing quote, without escapes. */
  function ReadPlain(s: string): Option<(string, string)> {
    SplitOnce(s, '"')
  }

  /** Up to the closing quote, with escapes. */
  function ReadEscaped(s: string): Option<(string, string)>
    decreases |s|
  {
    if s == "" then None
    else if s[0] == '"' then Some(("", s[1..]))
    else if s[0] == '\\' then
      if |s| < 2 then None
      else
        var (text, rest) :- ReadEscaped(s[2..]);
        Some(([if s[1] == 'n' then '\n' else if s[1] == 'r' then '\r' else s[1]] + text, rest))
    else
      var (text, rest) :- ReadEscaped(s[1..]);
      Some(([s[0]] + text, rest))
  }

  function ReadLine(s: string): Option<Line> {
    var s :- Expect(s, "{\"ts\":");
    var (seconds, s) :- ReadNumber(s);
    var s :- Expect(s, ",\"unit\":\"");
    var (unit, s) :- ReadPlain(s);
    var s :- Expect(s, ",\"pid\":");
    var (pid, s) :- ReadInteger(s);
    var s :- Expect(s, ",\"priority\":");
    var (priority, s) :- ReadNumber(s);
    var s :- Expect(s, ",\"level\":\"");
    var (level, s) :- ReadPlain(s);
    var s :- Expect(s, ",\"msg\":\"");
    var (message, s) :- ReadEscaped(s);
    if s == "}" then Some(Line(seconds, unit, pid, priority, level, message)) else None
  }

  const LEVELS: seq<string> := ["EMERG", "ALERT", "CRIT", "ERR", "WARN", "NOTICE", "INFO", "DEBUG"]

  // --------------------------------------------------------------------- the parts

  lemma Expected(prefix: string, rest: string)
    ensures Expect(prefix + rest, prefix) == Some(rest)
  {
    assert (prefix + rest)[|prefix|..] == rest;
  }

  lemma {:induction false} DigitsStop(digits: string, rest: string)
    requires AllDigits(digits) && (rest == "" || !IsDigit(rest[0]))
    ensures DigitsOf(digits + rest) == digits
    decreases |digits|
  {
    if digits == "" {
      assert digits + rest == rest;
    } else {
      assert IsDigit(digits[0]);
      DigitsStop(digits[1..], rest);
      assert (digits + rest)[1..] == digits[1..] + rest;
    }
  }

  lemma NumberReads(n: nat, rest: string)
    requires rest != "" && !IsDigit(rest[0])
    ensures ReadNumber(Decimal(n) + rest) == Some((n, rest))
  {
    DigitsStop(Decimal(n), rest);
    DecimalReadsBack(n);
    assert (Decimal(n) + rest)[|Decimal(n)|..] == rest;
  }

  lemma IntegerReads(n: int, rest: string)
    requires rest != "" && !IsDigit(rest[0])
    ensures ReadInteger(Integer(n) + rest) == Some((n, rest))
  {
    hide Decimal, ReadNumber;
    if n < 0 {
      NumberReads(-n, rest);
      var digits := Decimal(-n);
      assert Integer(n) + rest == ['-'] + (digits + rest);
      assert (['-'] + (digits + rest))[1..] == digits + rest;
    } else {
      NumberReads(n, rest);
      assert IsDigit(Decimal(n)[0]);
      assert (Decimal(n) + rest)[0] == Decimal(n)[0];
    }
  }

  lemma PlainReads(text: string, rest: string)
    requires QuoteFree(text)
    ensures ReadPlain(text + ("\"" + rest)) == Some((text, rest))
  {
    SplitOnceAt(text, '"', rest);
    assert text + ("\"" + rest) == text + ['"'] + rest;
  }

  lemma CharReads(c: char, rest: string, more: string, after: string)
    requires ReadEscaped(rest) == Some((more, after))
    ensures ReadEscaped(EscapeChar(c) + rest) == Some(([c] + more, after))
  {
    var s := EscapeChar(c) + rest;
    if |EscapeChar(c)| == 2 {
      assert s[0] == '\\' && s[1] == EscapeChar(c)[1] && s[2..] == rest;
    } else {
      assert s[0] == c && s[1..] == rest;
    }
  }

  lemma {:induction false} EscapedReads(text: string, rest: string)
    ensures ReadEscaped(Escape(text) + ("\"" + rest)) == Some((text, rest))
    decreases |text|
  {
    if text == "" {
      assert Escape(text) + ("\"" + rest) == "\"" + rest;
      assert ("\"" + rest)[1..] == rest;
    } else {
      EscapedReads(text[1..], rest);
      EscapeStep(text);
      hide ReadEscaped, Escape, EscapeChar;
      CharReads(text[0], Escape(text[1..]) + ("\"" + rest), text[1..], rest);
      Nest3(EscapeChar(text[0]), Escape(text[1..]), "\"" + rest);
      assert text == [text[0]] + text[1..];
    }
  }

  lemma EscapeStep(text: string)
    requires text != ""
    ensures Escape(text) == EscapeChar(text[0]) + Escape(text[1..])
  {
  }

  // ---------------------------------------------------------------------- the line

  /** From the message on, from the level on, from the pid on, and the whole line, part by part. */
  function FromMessage(e: JournalEntry): string { ",\"msg\":\"" + (Escape(e.message) + ("\"" + "}")) }

  function FromLevel(e: JournalEntry): string {
    ",\"level\":\"" + (LevelName(e.priority) + ("\"" + FromMessage(e)))
  }

  function FromPid(e: JournalEntry): string {
    ",\"pid\":" + (Integer(e.pid) + (",\"priority\":" + (Decimal(e.priority) + FromLevel(e))))
  }

  function Parts(e: JournalEntry): string {
    "{\"ts\":" + (Decimal(e.timestampUs / 1_000_000) + (",\"unit\":\"" + (e.unit + ("\"" + FromPid(e)))))
  }

  lemma Nest3(a: string, b: string, c: string)
    ensures a + b + c == a + (b + c)
  {
  }

  lemma Nest4(a: string, b: string, c: string, d: string)
    ensures a + b + c + d == a + (b + (c + d))
  {
    Nest3(a + b, c, d);
    Nest3(a, b, c + d);
  }

  lemma Literals()
    ensures TS == "{\"ts\":" && [','] + KEY[..7] + ['"'] == ",\"unit\":\""
    ensures PID == ",\"pid\":" && PRIORITY == ",\"priority\":" && LEVEL == ",\"level\":\""
    ensures MSG + ['"'] == "\"" + ",\"msg\":\"" && ['"', '}'] == "\"" + "}"
  {
  }

  lemma MessagePart(name: string, msg: string)
    ensures LEVEL + name + MSG + (['"'] + msg + ['"', '}']) ==
            ",\"level\":\"" + (name + ("\"" + (",\"msg\":\"" + (msg + ("\"" + "}")))))
  {
    Literals();
    var end := msg + ['"', '}'];
    Nest4(LEVEL, name, MSG, ['"'] + end);
    assert ['"'] + msg + ['"', '}'] == ['"'] + end;
    Nest3(MSG, ['"'], end);
    Nest3("\"", ",\"msg\":\"", end);
  }

  lemma PidPart(pid: string, priority: string, tail: string, rest: string)
    ensures PID + pid + PRIORITY + priority + tail + rest ==
            ",\"pid\":" + (pid + (",\"priority\":" + (priority + (tail + rest))))
  {
    Literals();
    Nest3(PID + pid + PRIORITY + priority, tail, rest);
    Nest4(PID, pid, PRIORITY, priority + (tail + rest));
    Nest3(PID + pid + PRIORITY, priority, tail + rest);
  }

  lemma HeadPart(seconds: string, unit: string, rest: string)
    ensures (TS + seconds + [',']) + (KEY[..7] + (['"'] + unit + ['"'] + rest)) ==
            "{\"ts\":" + (seconds + (",\"unit\":\"" + (unit + ("\"" + rest))))
  {
    Literals();
    var end := unit + ("\"" + rest);
    assert ['"'] + unit + ['"'] + rest == ['"'] + end;
    Nest3(KEY[..7], ['"'], end);
    Nest3([','], KEY[..7] + ['"'], end);
    Nest3([','], KEY[..7], ['"']);
    Nest4(TS, seconds, [','], KEY[..7] + ['"'] + end);
  }

  lemma LineIsParts(e: JournalEntry)
    ensures JsonLine(e) == Parts(e)
  {
    hide Decimal, Integer, LevelName, EscapePasses, Escape;
    PassesAreOneMap(e.message);
    var msg, name := EscapePasses(e.message), LevelName(e.priority);
    MessagePart(name, msg);
    PidPart(Integer(e.pid), Decimal(e.priority), LEVEL + name + MSG, ['"'] + msg + ['"', '}']);
    HeadPart(Decimal(e.timestampUs / 1_000_000), e.unit, Middle(e) + (['"'] + msg + ['"', '}']));
  }

  lemma LevelIs(p: nat)
    requires p <= 7
    ensures LevelName(p) == LEVELS[p]
  {
  }

  /** Every entry of a quote-free unit reads back: time, unit, pid, priority, level and message. */
  lemma LineReadsBack(e: JournalEntry)
    requires QuoteFree(e.unit)
    ensures ReadLine(JsonLine(e)) ==
            Some(Line(e.timestampUs / 1_000_000, e.unit, e.pid, e.priority, LEVELS[e.priority], e.message))
  {
    hide Decimal, Integer, LevelName, Escape, ReadNumber, ReadInteger, ReadPlain, ReadEscaped, Expect, JsonLine;
    LineIsParts(e);
    LevelIs(e.priority);
    LevelUpper(e.priority);
    Expected("{\"ts\":", Decimal(e.timestampUs / 1_000_000) + (",\"unit\":\"" + (e.unit + ("\"" + FromPid(e)))));
    NumberReads(e.timestampUs / 1_000_000, ",\"unit\":\"" + (e.unit + ("\"" + FromPid(e))));
    Expected(",\"unit\":\"", e.unit + ("\"" + FromPid(e)));
    PlainReads(e.unit, FromPid(e));
    Expected(",\"pid\":", Integer(e.pid) + (",\"priority\":" + (Decimal(e.priority) + FromLevel(e))));
    IntegerReads(e.pid, ",\"priority\":" + (Decimal(e.priority) + FromLevel(e)));
    Expected(",\"priority\":", Decimal(e.priority) + FromLevel(e));
    NumberReads(e.priority, FromLevel(e));
    Expected(",\"level\":\"", LevelName(e.priority) + ("\"" + FromMessage(e)));
    PlainReads(LevelName(e.priority), FromMessage(e));
    Expected(",\"msg\":\"", Escape(e.message) + ("\"" + "}"));
    EscapedReads(e.message, "}");
  }
}
