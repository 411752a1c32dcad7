/**
 Core dumps (quantra/src/coredump.rs): the metadata text that is printed for a
 dump and read back by key search, the file names, and the retention policy.
 */
module Coredump {
  import opened Optional
  import opened Text
  import opened Bytes

  // ----------------------------------------------------------- searching by key

  /** `find(pat)` and the slice behind the match. */
  function After(s: string, pat: string): Option<string>
    decreases |s|
  {
    if pat <= s then Some(s[|pat|..]) else if s == [] then None else After(s[1..], pat)
  }

  function NumPattern(key: string): string { ['"'] + key + ['"', ':'] }
  function StrPattern(key: string): string { ['"'] + key + ['"', ':', '"'] }

  /** `extract_json_str`. */
  function ExtractStr(json: string, key: string): Option<string> {
    var rest := After(json, StrPattern(key));
    if rest.None? then None
    else
      var cut := SplitOnce(rest.value, '"');
      if cut.None? then None else Some(cut.value.0)
  }

  function TakeDigits(s: string): (r: string)
    ensures AllDigits(r)
  {
    if s == [] || !IsDigit(s[0]) then [] else [s[0]] + TakeDigits(s[1..])
  }

  const U64_MAX: nat := 0xFFFF_FFFF_FFFF_FFFF

  /** `extract_json_u64`. */
  function ExtractU64(json: string, key: string): (r: Option<nat>)
    ensures r.Some? ==> r.value <= U64_MAX
  {
    var rest := After(json, NumPattern(key));
    if rest.None? then None else ParseUnsigned(TakeDigits(rest.value), U64_MAX)
  }

  // ------------------------------------------------------------- printed fields

  datatype Value = Str(s: string) | Num(n: nat)
  datatype Field = Field(key: string, value: Value)

  function ValueText(v: Value): string { match v case Str(s) => ['"'] + s + ['"'] case Num(n) => Decimal(n) }
  function FieldText(f: Field): string { NumPattern(f.key) + ValueText(f.value) }

  /** Fields joined by commas, then the closing brace and newline. */
  function Body(fields: seq<Field>): string
    requires fields != []
  {
    if |fields| == 1 then FieldText(fields[0]) + ['}', '\n']
    else FieldText(fields[0]) + ([','] + Body(fields[1..]))
  }

  function Meta(fields: seq<Field>): string
    requires fields != []
  {
    ['{'] + Body(fields)
  }

  predicate CleanKey(k: string) { k != "" && QuoteFree(k) && k[0] != ':' && k[0] != ',' && k[0] != '}' }
  predicate CleanField(f: Field) { CleanKey(f.key) && (f.value.Str? ==> QuoteFree(f.value.s)) }
  predicate CleanFields(fields: seq<Field>) { forall i :: 0 <= i < |fields| ==> CleanField(fields[i]) }

  // ---------------------------------------------------- where a key can be found

  /** No match of the key's pattern starts inside a, when b follows. */
  ghost predicate NoStart(a: string, b: string, k: string) {
    forall i :: 0 <= i < |a| ==> !(NumPattern(k) <= (a + b)[i..])
  }

  lemma {:induction false} AfterSkip(a: string, b: string, k: string, pat: string)
    requires NumPattern(k) <= pat && NoStart(a, b, k)
    ensures After(a + b, pat) == After(b, pat)
    decreases |a|
  {
    if a == [] {
      assert a + b == b;
    } else {
      assert (a + b)[0..] == a + b;
      assert !(NumPattern(k) <= (a + b)[0..]);
      assert !(pat <= a + b);
      assert (a + b)[1..] == a[1..] + b;
      forall i | 0 <= i < |a[1..]| ensures !(NumPattern(k) <= (a[1..] + b)[i..]) {
        assert (a[1..] + b)[i..] == (a + b)[i + 1..];
      }
      AfterSkip(a[1..], b, k, pat);
    }
  }

  lemma NoStartConcat(a: string, b: string, c: string, k: string)
    requires NoStart(a, b + c, k) && NoStart(b, c, k)
    ensures NoStart(a + b, c, k)
  {
    forall i | 0 <= i < |a + b| ensures !(NumPattern(k) <= (a + b + c)[i..]) {
      if i < |a| {
        assert (a + b + c)[i..] == (a + (b + c))[i..];
      } else {
        assert (a + b + c)[i..] == (b + c)[i - |a|..];
      }
    }
  }

  lemma QuoteFreeNoStart(a: string, b: string, k: string)
    requires QuoteFree(a)
    ensures NoStart(a, b, k)
  {
    forall i | 0 <= i < |a| ensures !(NumPattern(k) <= (a + b)[i..]) {
      assert (a + b)[i..][0] == a[i];
      assert NumPattern(k)[0] == '"';
    }
  }

  /** A quoted text matches a key pattern only if it is the key and a colon follows. */
  lemma KeyMatch(k: string, x: string, c: char, rest: string)
    requires QuoteFree(k) && QuoteFree(x) && NumPattern(k) <= ['"'] + x + ['"', c] + rest
    ensures k == x && c == ':'
  {
    hide SplitOnce;
    var s := ['"'] + x + ['"', c] + rest;
    var w := s[|NumPattern(k)|..];
    assert s == NumPattern(k) + w;
    assert s[1..] == k + ['"'] + ([':'] + w);
    assert s[1..] == x + ['"'] + ([c] + rest);
    SplitOnceAt(k, '"', [':'] + w);
    SplitOnceAt(x, '"', [c] + rest);
    assert ([':'] + w)[0] == ([c] + rest)[0];
  }

  /** A closing quote starts no key that does not begin with the next character. */
  lemma ClosingNoStart(c: char, rest: string, k: string)
    requires k != "" && k[0] != c
    ensures NoStart(['"'], [c] + rest, k)
  {
    var s := ['"'] + ([c] + rest);
    assert s[0..] == s && s[1] == c && NumPattern(k)[1] == k[0];
  }

  lemma QuotedNoStart(x: string, c: char, rest: string, k: string)
    requires CleanKey(k) && QuoteFree(x) && c != k[0] && (c != ':' || x != k)
    ensures NoStart(['"'] + x + ['"'], [c] + rest, k)
  {
    var tail := [c] + rest;
    assert NoStart(['"'], x + (['"'] + tail), k) by {
      var s := ['"'] + (x + (['"'] + tail));
      assert s[0..] == s == ['"'] + x + ['"', c] + rest;
      if NumPattern(k) <= s { KeyMatch(k, x, c, rest); }
    }
    QuoteFreeNoStart(x, ['"'] + tail, k);
    ClosingNoStart(c, rest, k);
    NoStartConcat(x, ['"'], tail, k);
    assert x + ['"'] + tail == x + (['"'] + tail);
    NoStartConcat(['"'], x + ['"'], tail, k);
    assert ['"'] + x + ['"'] == ['"'] + (x + ['"']);
  }

  /** A field of another key is skipped. */
  lemma FieldNoStart(f: Field, c: char, rest: string, k: string)
    requires CleanField(f) && CleanKey(k) && f.key != k && (c == ',' || c == '}')
    ensures NoStart(FieldText(f), [c] + rest, k)
  {
    var tail := [c] + rest;
    var v := ValueText(f.value);
    assert NoStart(v, tail, k) by {
      match f.value
      case Str(s) => QuotedNoStart(s, c, rest, k);
      case Num(n) => DecimalQuoteFree(n); QuoteFreeNoStart(Decimal(n), tail, k);
    }
    QuoteFreeNoStart([':'], v + tail, k);
    QuotedNoStart(f.key, ':', v + tail, k);
    var key := ['"'] + f.key + ['"'];
    NoStartConcat(key, [':'], v + tail, k);
    assert key + [':'] == NumPattern(f.key);
    NoStartConcat(NumPattern(f.key), v, tail, k);
  }

  lemma AfterHere(a: string, b: string, pat: string)
    requires pat <= a
    ensures After(a + b, pat) == Some(a[|pat|..] + b)
  {
    assert (a + b)[|pat|..] == a[|pat|..] + b;
  }

  lemma CleanFieldKey(f: Field)
    requires CleanField(f)
    ensures CleanKey(f.key)
  {
  }

  /** The first field with the key is where the search stops. */
  lemma {:induction false} FindField(fields: seq<Field>, j: nat, pat: string) returns (c: char, rest: string)
    requires CleanFields(fields) && j < |fields| && NumPattern(fields[j].key) <= pat
    requires forall i :: 0 <= i < j ==> fields[i].key != fields[j].key
    requires pat <= FieldText(fields[j])
    ensures c == ',' || c == '}'
    ensures After(Body(fields), pat) == Some(FieldText(fields[j])[|pat|..] + [c] + rest)
    decreases j
  {
    hide NumPattern, FieldText, After, NoStart, CleanField;
    var f := fields[0];
    var text := FieldText(f);
    assert CleanField(f) && CleanField(fields[j]);
    if |fields| == 1 { c, rest := '}', ['\n']; } else { c, rest := ',', Body(fields[1..]); }
    assert Body(fields) == text + ([c] + rest);
    if j == 0 {
      AfterHere(text, [c] + rest, pat);
      assert text[|pat|..] + ([c] + rest) == text[|pat|..] + [c] + rest;
    } else {
      var k := fields[j].key;
      assert CleanKey(k) by { CleanFieldKey(fields[j]); }
      var fields' := fields[1..];
      assert fields'[j - 1] == fields[j];
      forall i | 0 <= i < j - 1 ensures fields'[i].key != k { assert fields'[i] == fields[i + 1]; }
      forall i | 0 <= i < |fields'| ensures CleanField(fields'[i]) { assert fields'[i] == fields[i + 1]; }
      FieldNoStart(f, c, rest, k);
      AfterSkip(text, [c] + rest, k, pat);
      QuoteFreeNoStart([c], rest, k);
      AfterSkip([c], rest, k, pat);
      c, rest := FindField(fields', j - 1, pat);
    }
  }

  lemma MetaAfter(fields: seq<Field>, k: string, pat: string)
    requires fields != [] && NumPattern(k) <= pat
    ensures After(Meta(fields), pat) == After(Body(fields), pat)
  {
    QuoteFreeNoStart(['{'], Body(fields), k);
    AfterSkip(['{'], Body(fields), k, pat);
  }

  /** A string field reads back. */
  lemma StrReadsBack(fields: seq<Field>, j: nat)
    requires CleanFields(fields) && j < |fields| && fields[j].value.Str?
    requires forall i :: 0 <= i < j ==> fields[i].key != fields[j].key
    ensures ExtractStr(Meta(fields), fields[j].key) == Some(fields[j].value.s)
  {
    hide After, SplitOnce, Body;
    var f := fields[j];
    assert CleanField(f);
    var pat := StrPattern(f.key);
    assert pat == NumPattern(f.key) + ['"'];
    assert FieldText(f) == pat + (f.value.s + ['"']);
    MetaAfter(fields, f.key, pat);
    var c, rest := FindField(fields, j, pat);
    assert FieldText(f)[|pat|..] + [c] + rest == f.value.s + ['"'] + ([c] + rest);
    SplitOnceAt(f.value.s, '"', [c] + rest);
  }

  lemma {:induction false} TakeAllDigits(d: string, c: char, rest: string)
    requires AllDigits(d) && !IsDigit(c)
    ensures TakeDigits(d + [c] + rest) == d
    decreases |d|
  {
    var s := d + [c] + rest;
    if d == [] {
      assert s[0] == c;
    } else {
      assert IsDigit(d[0]) && s[0] == d[0] && s[1..] == d[1..] + [c] + rest;
      TakeAllDigits(d[1..], c, rest);
    }
  }

  /** A number that fits 64 bits reads back. */
  lemma NumReadsBack(fields: seq<Field>, j: nat)
    requires CleanFields(fields) && j < |fields| && fields[j].value.Num? && fields[j].value.n <= U64_MAX
    requires forall i :: 0 <= i < j ==> fields[i].key != fields[j].key
    ensures ExtractU64(Meta(fields), fields[j].key) == Some(fields[j].value.n)
  {
    hide After, Body, TakeDigits, Decimal, ParseUnsigned;
    var f := fields[j];
    var pat := NumPattern(f.key);
    MetaAfter(fields, f.key, pat);
    var c, rest := FindField(fields, j, pat);
    assert FieldText(f)[|pat|..] == Decimal(f.value.n);
    TakeAllDigits(Decimal(f.value.n), c, rest);
    ParseDecimal(f.value.n, U64_MAX);
  }

  // ------------------------------------------------------------------ metadata

  datatype CoreInfo = CoreInfo(
    exe: string,
    pid: U32,
    signal: U32,
    signalName: string,
    timestamp: U64,
    sizeBytes: U64,
    corePath: string)

  /** `parse_core_meta`: search by key, one after another. */
  function ParseCoreMeta(json: string): Option<CoreInfo> {
    var exe, pid, signal := ExtractStr(json, "exe"), ExtractU64(json, "pid"), ExtractU64(json, "signal");
    var name := ExtractStr(json, "signal_name");
    var timestamp, size := ExtractU64(json, "timestamp"), ExtractU64(json, "size_bytes");
    var path := ExtractStr(json, "core_path");
    if exe.None? || pid.None? || signal.None? || timestamp.None? || size.None? || path.None? then None
    else Some(CoreInfo(exe.value, pid.value % 0x1_0000_0000, signal.value % 0x1_0000_0000,
                       if name.Some? then name.value else "", timestamp.value, size.value, path.value))
  }

  function SignalName(sig: nat): string {
    if sig == 1 then "SIGHUP" else if sig == 2 then "SIGINT" else if sig == 3 then "SIGQUIT"
    else if sig == 4 then "SIGILL" else if sig == 6 then "SIGABRT" else if sig == 7 then "SIGBUS"
    else if sig == 8 then "SIGFPE" else if sig == 9 then "SIGKILL" else if sig == 11 then "SIGSEGV"
    else if sig == 13 then "SIGPIPE" else if sig == 14 then "SIGALRM" else if sig == 15 then "SIGTERM"
    else if sig == 31 then "SIGSYS" else "SIG?"
  }

  const COREDUMP_DIR := "/overlayer" + ("/syshub" + ("/var/lib" + ("/quantra-system" + "/coredump")))

  datatype Crash = Crash(exe: string, pid: U32, uid: U32, gid: U32, signal: U32, timestamp: U64, total: U64)

  /** `is_alphanumeric` is a parameter; all that matters is that it excludes the dot and the quote. */
  type CharClass = p: char -> bool | !p('.') && !p('"') witness c => false

  /** Everything but letters, digits, dash and underscore becomes an underscore. */
  function Sanitised(alnum: CharClass, exe: string): (r: string)
    ensures |r| == |exe| && '.' !in r && QuoteFree(r)
    ensures forall i :: 0 <= i < |exe| ==>
              if exe[i] == '-' || exe[i] == '_' || alnum(exe[i]) then r[i] == exe[i] else r[i] == '_'
  {
    if exe == [] then []
    else
      var c := exe[0];
      [if alnum(c) || c == '-' || c == '_' then c else '_'] + Sanitised(alnum, exe[1..])
  }

  function BaseName(exe: string, pid: nat, timestamp: nat): string {
    "core" + ['.'] + (exe + ['.'] + (Decimal(pid) + ['.'] + Decimal(timestamp)))
  }

  function CorePath(alnum: CharClass, c: Crash): string {
    COREDUMP_DIR + "/" + BaseName(Sanitised(alnum, c.exe), c.pid, c.timestamp)
  }

  /** The metadata record, in print order. */
  function MetaFields(alnum: CharClass, c: Crash): (r: seq<Field>)
    ensures |r| == 9
  {
    [Field("exe", Str(Sanitised(alnum, c.exe))),
     Field("pid", Num(c.pid)), Field("uid", Num(c.uid)), Field("gid", Num(c.gid)),
     Field("signal", Num(c.signal)), Field("signal_name", Str(SignalName(c.signal))),
     Field("timestamp", Num(c.timestamp)),
     Field("size_bytes", Num(c.total)), Field("core_path", Str(CorePath(alnum, c)))]
  }

  lemma SignalNameQuoteFree(sig: nat)
    ensures QuoteFree(SignalName(sig))
  {
  }

  lemma PathQuoteFree(alnum: CharClass, c: Crash)
    ensures QuoteFree(CorePath(alnum, c))
  {
    hide Decimal, Sanitised;
    DecimalQuoteFree(c.pid);
    DecimalQuoteFree(c.timestamp);
    var exe, p, t := Sanitised(alnum, c.exe), Decimal(c.pid), Decimal(c.timestamp);
    QuoteFreeJoin(p, '.', t);
    QuoteFreeJoin(exe, '.', p + ['.'] + t);
    QuoteFreeJoin("core", '.', exe + ['.'] + (p + ['.'] + t));
    DirQuoteFree();
    QuoteFreeJoin(COREDUMP_DIR, '/', BaseName(exe, c.pid, c.timestamp));
    assert COREDUMP_DIR + "/" + BaseName(exe, c.pid, c.timestamp) ==
        COREDUMP_DIR + ['/'] + BaseName(exe, c.pid, c.timestamp);
  }

  lemma QuoteFreeJoin(a: string, c: char, b: string)
    requires QuoteFree(a) && QuoteFree(b) && c != '"'
    ensures QuoteFree(a + [c] + b)
  {
  }

  lemma DirQuoteFree()
    ensures QuoteFree(COREDUMP_DIR)
  {
    QuoteFreeConcat("/quantra-system", "/coredump");
    QuoteFreeConcat("/var/lib", "/quantra-system" + "/coredump");
    QuoteFreeConcat("/syshub", "/var/lib" + ("/quantra-system" + "/coredump"));
    QuoteFreeConcat("/overlayer", "/syshub" + ("/var/lib" + ("/quantra-system" + "/coredump")));
  }

  lemma QuoteFreeConcat(a: string, b: string)
    requires QuoteFree(a) && QuoteFree(b)
    ensures QuoteFree(a + b)
  {
  }

  lemma MetaClean(alnum: CharClass, c: Crash)
    ensures CleanFields(MetaFields(alnum, c))
  {
    hide SignalName, CorePath, Sanitised;
    SignalNameQuoteFree(c.signal);
    PathQuoteFree(alnum, c);
  }

  /** For every crash, whatever the program is called, the printed metadata parses back to it. */
  lemma MetadataReadsBack(alnum: CharClass, c: Crash)
    ensures ParseCoreMeta(Meta(MetaFields(alnum, c)))
            == Some(CoreInfo(Sanitised(alnum, c.exe), c.pid, c.signal, SignalName(c.signal), c.timestamp, c.total,
                CorePath(alnum, c)))
  {
    hide SignalName, CorePath, Sanitised, Meta, ExtractStr, ExtractU64, CleanFields;
    var fields := MetaFields(alnum, c);
    MetaClean(alnum, c);
    StrReadsBack(fields, 0);
    NumReadsBack(fields, 1);
    NumReadsBack(fields, 4);
    StrReadsBack(fields, 5);
    NumReadsBack(fields, 6);
    NumReadsBack(fields, 7);
    StrReadsBack(fields, 8);
  }

  /** The owner's ids are printed too, though the source's own parser skips them. */
  lemma OwnersReadBack(alnum: CharClass, c: Crash)
    ensures ExtractU64(Meta(MetaFields(alnum, c)), "uid") == Some(c.uid)
    ensures ExtractU64(Meta(MetaFields(alnum, c)), "gid") == Some(c.gid)
  {
    hide SignalName, CorePath, Sanitised, Meta, ExtractU64, CleanFields;
    MetaClean(alnum, c);
    NumReadsBack(MetaFields(alnum, c), 2);
    NumReadsBack(MetaFields(alnum, c), 3);
  }

  const SIGNALS: seq<(nat, string)> := [
    (1, "SIGHUP"), (2, "SIGINT"), (3, "SIGQUIT"), (4, "SIGILL"), (6, "SIGABRT"), (7, "SIGBUS"), (8, "SIGFPE"),
    (9, "SIGKILL"), (11, "SIGSEGV"), (13, "SIGPIPE"), (14, "SIGALRM"), (15, "SIGTERM"), (31, "SIGSYS")]

  /** The names of the listed signals; any other is "SIG?". */
  lemma SignalNames(sig: nat)
    ensures forall i :: 0 <= i < |SIGNALS| && SIGNALS[i].0 == sig ==> SignalName(sig) == SIGNALS[i].1
    ensures (forall i :: 0 <= i < |SIGNALS| ==> SIGNALS[i].0 != sig) ==> SignalName(sig) == "SIG?"
  {
    var numbers := [1, 2, 3, 4, 6, 7, 8, 9, 11, 13, 14, 15, 31];
    assert forall i :: 0 <= i < |SIGNALS| ==> SIGNALS[i].0 == numbers[i];
    if forall i :: 0 <= i < |SIGNALS| ==> SIGNALS[i].0 != sig {
      assert SIGNALS[0].0 == 1 && SIGNALS[1].0 == 2 && SIGNALS[2].0 == 3 && SIGNALS[3].0 == 4 && SIGNALS[4].0 == 6;
      assert SIGNALS[5].0 == 7 && SIGNALS[6].0 == 8 && SIGNALS[7].0 == 9 && SIGNALS[8].0 == 11 && SIGNALS[9].0 == 13;
      assert SIGNALS[10].0 == 14 && SIGNALS[11].0 == 15 && SIGNALS[12].0 == 31;
    }
  }

  lemma StrPart(key: string, value: string, rest: string)
    ensures FieldText(Field(key, Str(value))) + ([','] + rest) == "\"" + key + "\":\"" + (value + ("\"," + rest))
    ensures FieldText(Field(key, Str(value))) + ['}', '\n'] == "\"" + key + "\":\"" + (value + "\"}\n")
  {
    var open := ['"'] + key + ['"', ':'];
    assert open + (['"'] + value + ['"']) + ([','] + rest) == (open + ['"']) + (value + (['"', ','] + rest));
    assert "\"" + key + "\":\"" == open + ['"'];
    assert "\"," == ['"', ','] && "\"}\n" == ['"', '}', '\n'];
    assert open + (['"'] + value + ['"']) + ['}', '\n'] == (open + ['"']) + (value + ['"', '}', '\n']);
  }

  lemma NumPart(key: string, n: nat, rest: string)
    ensures FieldText(Field(key, Num(n))) + ([','] + rest) == "\"" + key + "\":" + (Decimal(n) + ("," + rest))
  {
    hide Decimal;
    assert "\"" + key + "\":" == NumPattern(key);
  }

  lemma BodyPart(fields: seq<Field>, i: nat)
    requires i + 1 < |fields|
    ensures Body(fields[i..]) == FieldText(fields[i]) + ([','] + Body(fields[i + 1..]))
  {
    assert fields[i..][1..] == fields[i + 1..];
  }

  /** The printed text, key by key. */
  lemma MetaText(alnum: CharClass, c: Crash)
    ensures Meta(MetaFields(alnum, c)) ==
      "{" + ("\"" + "exe" + "\":\"" + (Sanitised(alnum, c.exe) + ("\"," +
      ("\"" + "pid" + "\":" + (Decimal(c.pid) + ("," +
      ("\"" + "uid" + "\":" + (Decimal(c.uid) + ("," +
      ("\"" + "gid" + "\":" + (Decimal(c.gid) + ("," +
      ("\"" + "signal" + "\":" + (Decimal(c.signal) + ("," +
      ("\"" + "signal_name" + "\":\"" + (SignalName(c.signal) + ("\"," +
      ("\"" + "timestamp" + "\":" + (Decimal(c.timestamp) + ("," +
      ("\"" + "size_bytes" + "\":" + (Decimal(c.total) + ("," +
      ("\"" + "core_path" + "\":\"" + (CorePath(alnum, c) + "\"}\n"))))))))))))))))))))))))))
  {
    var fields := MetaFields(alnum, c);
    hide SignalName, CorePath, Sanitised, Decimal, FieldText;
    assert fields[0..] == fields;
    BodyPart(fields, 0);
    BodyPart(fields, 1);
    BodyPart(fields, 2);
    BodyPart(fields, 3);
    BodyPart(fields, 4);
    BodyPart(fields, 5);
    BodyPart(fields, 6);
    BodyPart(fields, 7);
    assert Body(fields[8..]) == FieldText(fields[8]) + ['}', '\n'];
    hide Body;
    StrPart("exe", Sanitised(alnum, c.exe), Body(fields[1..]));
    NumPart("pid", c.pid, Body(fields[2..]));
    NumPart("uid", c.uid, Body(fields[3..]));
    NumPart("gid", c.gid, Body(fields[4..]));
    NumPart("signal", c.signal, Body(fields[5..]));
    StrPart("signal_name", SignalName(c.signal), Body(fields[6..]));
    NumPart("timestamp", c.timestamp, Body(fields[7..]));
    NumPart("size_bytes", c.total, Body(fields[8..]));
    StrPart("core_path", CorePath(alnum, c), "");
  }

  /** The stored path: directory, program, pid and time. */
  lemma PathText(alnum: CharClass, c: Crash)
    ensures CorePath(alnum, c) ==
            "/overlayer/syshub/var/lib/quantra-system/coredump" + "/" + "core." +
            (Sanitised(alnum, c.exe) + ("." + (Decimal(c.pid) + ("." + Decimal(c.timestamp)))))
  {
    hide Sanitised, Decimal;
    assert COREDUMP_DIR == "/overlayer/syshub/var/lib/quantra-system/coredump";
    var exe, p, t := Sanitised(alnum, c.exe), Decimal(c.pid), Decimal(c.timestamp);
    assert p + ['.'] + t == p + ("." + t);
    assert exe + ['.'] + (p + ['.'] + t) == exe + ("." + (p + ("." + t)));
    assert BaseName(exe, c.pid, c.timestamp) == "core." + (exe + ("." + (p + ("." + t))));
    assert COREDUMP_DIR + "/" + ("core." + (exe + ("." + (p + ("." + t))))) ==
           COREDUMP_DIR + "/" + "core." + (exe + ("." + (p + ("." + t))));
  }

  // ----------------------------------------------------------------- file names

  predicate EndsWith(s: string, t: string) { |t| <= |s| && s[|s| - |t|..] == t }

  function NamePrefix(exe: string): string { "core" + ['.'] + exe + ['.'] }

  /** The time stamp of a dump of the program, by the rules of `cleanup_old_cores`. */
  function DumpTime(name: string, exe: string): Option<nat> {
    if !(NamePrefix(exe) <= name) || EndsWith(name, ".json") then None
    else
      var parts := Split(name, '.');
      if |parts| <= 3 then None else ParseUnsigned(parts[3], U64_MAX)
  }

  lemma NameSplits(exe: string, pid: nat, timestamp: nat)
    requires '.' !in exe
    ensures Split(BaseName(exe, pid, timestamp), '.') == ["core", exe, Decimal(pid), Decimal(timestamp)]
  {
    hide Decimal;
    DecimalQuoteFree(pid);
    DecimalQuoteFree(timestamp);
    var p, t := Decimal(pid), Decimal(timestamp);
    SplitHead("core", '.', exe + ['.'] + (p + ['.'] + t));
    SplitHead(exe, '.', p + ['.'] + t);
    SplitHead(p, '.', t);
    assert Split(t, '.') == [t];
  }

  /** The fourth dot field of a stored name is its time stamp, for every dot-free program name. */
  lemma TimeRecovered(exe: string, pid: nat, timestamp: nat)
    requires '.' !in exe && timestamp <= U64_MAX
    ensures DumpTime(BaseName(exe, pid, timestamp), exe) == Some(timestamp)
  {
    hide Split, Decimal, ParseUnsigned;
    var name := BaseName(exe, pid, timestamp);
    NameSplits(exe, pid, timestamp);
    ParseDecimal(timestamp, U64_MAX);
    assert name == NamePrefix(exe) + (Decimal(pid) + ['.'] + Decimal(timestamp));
    var t := Decimal(timestamp);
    assert name[|name| - 1] == t[|t| - 1];
    assert IsDigit(t[|t| - 1]);
    LastOfSuffix(name, ".json");
  }

  lemma LastOfSuffix(s: string, t: string)
    requires t != []
    ensures EndsWith(s, t) ==> s[|s| - 1] == t[|t| - 1]
  {
    if EndsWith(s, t) { assert s[|s| - |t|..][|t| - 1] == s[|s| - 1]; }
  }

  /** The dumps of one program are never taken for another's. */
  lemma OtherProgramsUntouched(exe: string, other: string, pid: nat, timestamp: nat)
    requires '.' !in exe && '.' !in other && exe != other
    ensures DumpTime(BaseName(other, pid, timestamp), exe) == None
  {
    hide SplitOnce, Split;
    var name := BaseName(other, pid, timestamp);
    var rest := Decimal(pid) + ['.'] + Decimal(timestamp);
    if NamePrefix(exe) <= name {
      var tail := name[|NamePrefix(exe)|..];
      assert name == NamePrefix(exe) + tail;
      assert name[5..] == exe + ['.'] + tail;
      assert name[5..] == other + ['.'] + rest;
      SplitOnceAt(exe, '.', tail);
      SplitOnceAt(other, '.', rest);
    }
  }

  // ------------------------------------------------------------------ retention

  const MAX_CORES_PER_UNIT: nat := 5

  type Dump = (nat, string)

  /** The matching entries of a directory listing. */
  function Dumps(entries: seq<string>, exe: string): seq<Dump> {
    if entries == [] then []
    else
      var front, name := Dumps(entries[..|entries| - 1], exe), entries[|entries| - 1];
      var t := DumpTime(name, exe);
      if t.Some? then front + [(t.value, name)] else front
  }

  ghost predicate Sorted(s: seq<Dump>) { forall i, j :: 0 <= i < j < |s| ==> s[i].0 <= s[j].0 }

  /** Stable insertion after equal keys. */
  function Insert(s: seq<Dump>, d: Dump): (r: seq<Dump>)
    ensures multiset(r) == multiset(s) + multiset{d}
    decreases |s|
  {
    if s == [] || s[|s| - 1].0 <= d.0 then s + [d]
    else
      assert s == s[..|s| - 1] + [s[|s| - 1]];
      Insert(s[..|s| - 1], d) + [s[|s| - 1]]
  }

  lemma {:induction false} InsertSorted(s: seq<Dump>, d: Dump)
    requires Sorted(s)
    ensures Sorted(Insert(s, d))
    ensures forall i :: 0 <= i < |Insert(s, d)| ==>
        Insert(s, d)[i].0 <= (if s == [] || s[|s| - 1].0 <= d.0 then d.0 else s[|s| - 1].0)
    decreases |s|
  {
    if s != [] && d.0 < s[|s| - 1].0 {
      InsertSorted(s[..|s| - 1], d);
    }
  }

  /** `sort_by_key` on the time stamp. */
  function SortByTime(s: seq<Dump>): (r: seq<Dump>)
    ensures multiset(r) == multiset(s) && Sorted(r)
  {
    if s == [] then []
    else
      assert s == s[..|s| - 1] + [s[|s| - 1]];
      InsertSorted(SortByTime(s[..|s| - 1]), s[|s| - 1]);
      Insert(SortByTime(s[..|s| - 1]), s[|s| - 1])
  }

  /** The files of removed dumps, in order. */
  function FilesOf(removed: seq<Dump>): seq<string> {
    if removed == [] then []
    else FilesOf(removed[..|removed| - 1]) + [removed[|removed| - 1].1, removed[|removed| - 1].1 + ".json"]
  }

  /** What may stay: at most five, all of them if there were no more, and none older than a removed one. */
  ghost predicate Retained(all: seq<Dump>, kept: seq<Dump>, removed: seq<Dump>) {
    && multiset(kept) + multiset(removed) == multiset(all)
    && |kept| <= MAX_CORES_PER_UNIT
    && (removed != [] ==> |kept| == MAX_CORES_PER_UNIT)
    && (forall i, j :: 0 <= i < |removed| && 0 <= j < |kept| ==> removed[i].0 <= kept[j].0)
  }

  method ListDumps(entries: seq<string>, exe: string) returns (cores: seq<Dump>)
    ensures cores == Dumps(entries, exe)
  {
    hide DumpTime;
    cores := [];
    for i := 0 to |entries|
      invariant cores == Dumps(entries[..i], exe)
    {
      assert entries[..i + 1][..i] == entries[..i];
      var t := DumpTime(entries[i], exe);
      if t.Some? { cores := cores + [(t.value, entries[i])]; }
    }
    assert entries[..|entries|] == entries;
  }

  /** The loop that drops the front of the sorted list. */
  method DropOldest(sorted: seq<Dump>) returns (deleted: seq<string>, kept: seq<Dump>, removed: seq<Dump>)
    ensures removed + kept == sorted && |kept| <= MAX_CORES_PER_UNIT && (removed != [] ==> |kept| == MAX_CORES_PER_UNIT)
    ensures deleted == FilesOf(removed)
  {
    kept := sorted;
    deleted := [];
    removed := [];
    while |kept| > MAX_CORES_PER_UNIT
      invariant removed + kept == sorted
      invariant removed != [] ==> |kept| >= MAX_CORES_PER_UNIT
      invariant deleted == FilesOf(removed)
    {
      var oldest := kept[0];
      assert removed + kept == (removed + [oldest]) + kept[1..];
      assert (removed + [oldest])[..|removed|] == removed;
      kept := kept[1..];
      deleted := deleted + [oldest.1, oldest.1 + ".json"];
      removed := removed + [oldest];
    }
  }

  /** The directory without the deleted names. */
  function Remaining(entries: seq<string>, deleted: seq<string>): seq<string> {
    if entries == [] then []
    else
      var front, name := Remaining(entries[..|entries| - 1], deleted), entries[|entries| - 1];
      if name in deleted then front else front + [name]
  }

  /** A directory names no file twice. */
  predicate IsListing(entries: seq<string>) { forall i, j :: 0 <= i < j < |entries| ==> entries[i] != entries[j] }

  lemma {:induction false} DumpCounts(entries: seq<string>, exe: string, d: Dump)
    ensures multiset(Dumps(entries, exe))[d] == if DumpTime(d.1, exe) == Some(d.0) then multiset(entries)[d.1] else 0
    decreases |entries|
  {
    hide DumpTime;
    if entries != [] {
      DumpCounts(entries[..|entries| - 1], exe, d);
      assert entries == entries[..|entries| - 1] + [entries[|entries| - 1]];
    }
  }

  lemma {:induction false} RemainingCounts(entries: seq<string>, deleted: seq<string>, name: string)
    ensures multiset(Remaining(entries, deleted))[name] == if name in deleted then 0 else multiset(entries)[name]
    decreases |entries|
  {
    if entries != [] {
      RemainingCounts(entries[..|entries| - 1], deleted, name);
      assert entries == entries[..|entries| - 1] + [entries[|entries| - 1]];
    }
  }

  lemma {:induction false} ListedOnce(entries: seq<string>, name: string)
    requires IsListing(entries)
    ensures multiset(entries)[name] <= 1
    decreases |entries|
  {
    if entries != [] {
      ListedOnce(entries[..|entries| - 1], name);
      assert entries == entries[..|entries| - 1] + [entries[|entries| - 1]];
      if entries[|entries| - 1] == name { assert name !in entries[..|entries| - 1]; }
    }
  }

  lemma {:induction false} FilesAre(removed: seq<Dump>, name: string)
    ensures name in FilesOf(removed) <==> exists d :: d in removed && (name == d.1 || name == d.1 + ".json")
    decreases |removed|
  {
    if removed != [] {
      FilesAre(removed[..|removed| - 1], name);
      assert removed == removed[..|removed| - 1] + [removed[|removed| - 1]];
    }
  }

  /** The names that unlinking takes away: all but those it fails on. */
  function Unlinked(deleted: seq<string>, stuck: set<string>): seq<string> {
    if deleted == [] then []
    else
      var front, name := Unlinked(deleted[..|deleted| - 1], stuck), deleted[|deleted| - 1];
      if name in stuck then front else front + [name]
  }

  lemma {:induction false} UnlinkedAre(deleted: seq<string>, stuck: set<string>, name: string)
    ensures name in Unlinked(deleted, stuck) <==> name in deleted && name !in stuck
    decreases |deleted|
  {
    if deleted != [] {
      UnlinkedAre(deleted[..|deleted| - 1], stuck, name);
      assert deleted == deleted[..|deleted| - 1] + [deleted[|deleted| - 1]];
    }
  }

  /** The removed dumps that could not be unlinked. */
  function Stuck(removed: seq<Dump>, stuck: set<string>): seq<Dump> {
    if removed == [] then []
    else
      var front, d := Stuck(removed[..|removed| - 1], stuck), removed[|removed| - 1];
      if d.1 in stuck then front + [d] else front
  }

  lemma {:induction false} StuckCounts(removed: seq<Dump>, stuck: set<string>, d: Dump)
    ensures multiset(Stuck(removed, stuck))[d] == if d.1 in stuck then multiset(removed)[d] else 0
    decreases |removed|
  {
    if removed != [] {
      StuckCounts(removed[..|removed| - 1], stuck, d);
      assert removed == removed[..|removed| - 1] + [removed[|removed| - 1]];
    }
  }

  /** A dump that is kept is no deleted file, and one that is removed is. */
  lemma KeptIsNotDeleted(entries: seq<string>, exe: string, kept: seq<Dump>, removed: seq<Dump>, d: Dump)
    requires IsListing(entries) && Retained(Dumps(entries, exe), kept, removed)
    ensures multiset(kept)[d] + multiset(removed)[d] == multiset(Dumps(entries, exe))[d]
    ensures if d.1 in FilesOf(removed) then multiset(kept)[d] == 0 else multiset(removed)[d] == 0
  {
    hide DumpTime, Dumps, FilesOf;
    FilesAre(removed, d.1);
    DumpCounts(entries, exe, d);
    ListedOnce(entries, d.1);
    if d in kept && d.1 in FilesOf(removed) {
      var r :| r in removed && (d.1 == r.1 || d.1 == r.1 + ".json");
      DumpCounts(entries, exe, r);
      if d.1 != r.1 { JsonIsNoDump(r.1, exe); }
    }
  }

  lemma JsonIsNoDump(name: string, exe: string)
    ensures DumpTime(name + ".json", exe) == None
  {
    hide Split;
    assert (name + ".json")[|name|..] == ".json";
  }

  /** What is left of the program in the directory is exactly what was kept or could not be unlinked. */
  lemma DirectoryAfter(entries: seq<string>, exe: string, kept: seq<Dump>, removed: seq<Dump>, stuck: set<string>)
    requires IsListing(entries) && Retained(Dumps(entries, exe), kept, removed)
    ensures multiset(Dumps(Remaining(entries, Unlinked(FilesOf(removed), stuck)), exe))
            == multiset(kept) + multiset(Stuck(removed, stuck))
  {
    hide DumpTime, Dumps, FilesOf, Retained, IsListing, Remaining, Unlinked, Stuck;
    var gone := Unlinked(FilesOf(removed), stuck);
    var rest := Remaining(entries, gone);
    forall d: Dump
      ensures multiset(Dumps(rest, exe))[d] == multiset(kept)[d] + multiset(Stuck(removed, stuck))[d]
    {
      DumpCounts(rest, exe, d);
      DumpCounts(entries, exe, d);
      RemainingCounts(entries, gone, d.1);
      UnlinkedAre(FilesOf(removed), stuck, d.1);
      StuckCounts(removed, stuck, d);
      KeptIsNotDeleted(entries, exe, kept, removed, d);
    }
  }

  /**
   `cleanup_old_cores` over one directory listing; `deleted` are the paths it unlinks, and `stuck` the
   names on which unlinking fails, which the source ignores.
   */
  method CleanupOldCores(entries: seq<string>, exe: string, stuck: set<string>)
    returns (deleted: seq<string>, kept: seq<Dump>, removed: seq<Dump>)
    ensures Retained(Dumps(entries, exe), kept, removed)
    ensures deleted == FilesOf(removed)
    ensures |kept| == if |Dumps(entries, exe)| < 5 then |Dumps(entries, exe)| else 5
    ensures IsListing(entries) ==>
              var left := Dumps(Remaining(entries, Unlinked(deleted, stuck)), exe);
              && multiset(left) == multiset(kept) + multiset(Stuck(removed, stuck))
              && |kept| <= MAX_CORES_PER_UNIT && |left| == |kept| + |Stuck(removed, stuck)|
  {
    hide DumpTime, IsListing, Sorted, Retained, Dumps, FilesOf, Remaining, Unlinked, Stuck;
    var cores := ListDumps(entries, exe);
    var sorted := SortByTime(cores);
    deleted, kept, removed := DropOldest(sorted);
    SplitIsRetained(cores, sorted, kept, removed);
    SameSizes(cores, kept, removed);
    if IsListing(entries) {
      DirectoryAfter(entries, exe, kept, removed, stuck);
      SameSizes(Dumps(Remaining(entries, Unlinked(deleted, stuck)), exe), kept, Stuck(removed, stuck));
    }
  }

  lemma SplitIsRetained(all: seq<Dump>, sorted: seq<Dump>, kept: seq<Dump>, removed: seq<Dump>)
    requires multiset(sorted) == multiset(all) && Sorted(sorted) && removed + kept == sorted
    requires |kept| <= MAX_CORES_PER_UNIT && (removed != [] ==> |kept| == MAX_CORES_PER_UNIT)
    ensures Retained(all, kept, removed) && multiset(all) == multiset(kept) + multiset(removed)
  {
    assert multiset(removed + kept) == multiset(removed) + multiset(kept);
    forall i, j | 0 <= i < |removed| && 0 <= j < |kept| ensures removed[i].0 <= kept[j].0 {
      assert sorted[i] == removed[i] && sorted[|removed| + j] == kept[j];
    }
  }

  lemma SameSizes(left: seq<Dump>, a: seq<Dump>, b: seq<Dump>)
    requires multiset(left) == multiset(a) + multiset(b)
    ensures |left| == |a| + |b|
  {
    assert |multiset(left)| == |multiset(a)| + |multiset(b)|;
  }
}
