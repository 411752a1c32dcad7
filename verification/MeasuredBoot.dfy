/**
 Measured boot (quantra-ramfs/src/measured_boot.rs): every phase transition, the
 kernel command line, the overlay mode and the init binary are turned into a
 measurement string, and PCR 8 becomes H(PCR 8 || H(measurement)).

 `BootRecorder` is the code; `PcrBindsLog` is what the design promises: the final
 register value fixes the whole log, up to a collision or a zero preimage among
 the very values that the two boots hashed.
 */
module MeasuredBoot {
  import opened Bytes
  import opened Optional
  import opened Text
  import opened Hex
  import opened Sha256

  datatype Event =
    | Phase(number: U32, name: seq<Byte>)
    | CommandLine(content: seq<Byte>)
    | InitBinary(content: seq<Byte>)
    | Overlay(enabled: bool)

  const MAX_CONTENT: nat := MAX_BYTES - 64

  predicate Sized(e: Event) {
    match e
    case Phase(_, name) => |name| < MAX_CONTENT
    case CommandLine(content) => |content| < MAX_CONTENT
    case InitBinary(content) => |content| < MAX_CONTENT
    case Overlay(_) => true
  }

  type Log = l: seq<Event> | forall i :: 0 <= i < |l| ==> Sized(l[i]) witness []

  // ----------------------------------------------------------- measurements

  function DecimalBytes(n: U32): (r: seq<Byte>)
    ensures |r| == |Decimal(n)|
  {
    Ascii(Decimal(n))
  }

  lemma {:induction false} DecimalLength(n: nat, k: nat)
    requires k >= 1 && n < Pow10(k)
    ensures |Decimal(n)| <= k
  {
    if n >= 10 {
      assert k > 1 by { assert Pow10(1) == 10 * Pow10(0); }
      DecimalLength(n / 10, k - 1);
    }
  }

  ghost function Pow10(k: nat): (r: nat) ensures r >= 1 { if k == 0 then 1 else 10 * Pow10(k - 1) }

  lemma U32Length(n: U32)
    ensures |Decimal(n)| <= 10
  {
    assert Pow10(1) == 10 && Pow10(2) == 100 && Pow10(3) == 1000;
    assert Pow10(4) == 10_000 && Pow10(5) == 100_000 && Pow10(6) == 1_000_000;
    assert Pow10(7) == 10_000_000 && Pow10(8) == 100_000_000;
    assert Pow10(9) == 1_000_000_000 && Pow10(10) == 10_000_000_000;
    DecimalLength(n, 10);
  }

  const PHASE: seq<Byte> := Ascii("zainium-phase:")
  const CMDLINE: seq<Byte> := Ascii("zainium-cmdline:")
  const INIT: seq<Byte> := Ascii("zainium-init:")
  const OVERLAY_ON: seq<Byte> := Ascii("zainium-overlay:enabled")
  const OVERLAY_OFF: seq<Byte> := Ascii("zainium-overlay:disabled")
  const COLON: Byte := 58

  function Measurement(e: Event): (m: seq<Byte>)
    requires Sized(e)
    ensures |m| < MAX_BYTES
  {
    match e
    case Phase(number, name) => U32Length(number); PHASE + DecimalBytes(number) + [COLON] + name
    case CommandLine(content) => CMDLINE + HexText(FipsSha256(content))
    case InitBinary(content) => INIT + HexText(FipsSha256(content))
    case Overlay(enabled) => if enabled then OVERLAY_ON else OVERLAY_OFF
  }

  /** The characters of an ASCII byte string. */
  function Chars(bytes: seq<Byte>): (r: string)
    ensures |r| == |bytes| && forall i :: 0 <= i < |r| ==> r[i] as int == bytes[i]
  {
    seq(|bytes|, i requires 0 <= i < |bytes| => bytes[i] as char)
  }

  lemma CharsConcat(a: seq<Byte>, b: seq<Byte>)
    ensures Chars(a + b) == Chars(a) + Chars(b)
  {
  }

  lemma CharsAscii(s: string)
    requires forall i :: 0 <= i < |s| ==> s[i] < 128 as char
    ensures Chars(Ascii(s)) == s
  {
    forall i | 0 <= i < |s| ensures Chars(Ascii(s))[i] == s[i] {
      assert Chars(Ascii(s))[i] as int == s[i] as int;
    }
  }

  lemma DecimalAscii(n: U32)
    ensures Chars(DecimalBytes(n)) == Decimal(n)
  {
    forall i | 0 <= i < |Decimal(n)| ensures Decimal(n)[i] < 128 as char { assert IsDigit(Decimal(n)[i]); }
    CharsAscii(Decimal(n));
  }

  /** The measurement texts. */
  lemma MeasurementTexts(number: U32, name: seq<Byte>, content: seq<Byte>)
    requires |name| < MAX_CONTENT && |content| < MAX_CONTENT
    ensures Chars(Measurement(Phase(number, name))) == "zainium-phase:" + Decimal(number) + ":" + Chars(name)
    ensures Chars(Measurement(CommandLine(content))) == "zainium-cmdline:" + Chars(HexText(FipsSha256(content)))
    ensures Chars(Measurement(InitBinary(content))) == "zainium-init:" + Chars(HexText(FipsSha256(content)))
    ensures Chars(Measurement(Overlay(true))) == "zainium-overlay:enabled"
    ensures Chars(Measurement(Overlay(false))) == "zainium-overlay:disabled"
  {
    hide FipsSha256, HexText, Chars, Decimal;
    CharsAscii("zainium-phase:");
    CharsAscii("zainium-cmdline:");
    CharsAscii("zainium-init:");
    CharsAscii("zainium-overlay:enabled");
    CharsAscii("zainium-overlay:disabled");
    CharsAscii(":");
    assert Ascii(":") == [COLON];
    DecimalAscii(number);
    hide Ascii;
    CharsConcat(PHASE, DecimalBytes(number));
    CharsConcat(PHASE + DecimalBytes(number), [COLON]);
    CharsConcat(PHASE + DecimalBytes(number) + [COLON], name);
    CharsConcat(CMDLINE, HexText(FipsSha256(content)));
    CharsConcat(INIT, HexText(FipsSha256(content)));
  }

  // ------------------------------------------------------------- extend chain

  function Extend(pcr: seq<Byte>, e: Event): (r: seq<Byte>)
    requires |pcr| == 32 && Sized(e)
    ensures |r| == 32
  {
    FipsSha256(pcr + FipsSha256(Measurement(e)))
  }

  function Replay(log: Log): (r: seq<Byte>)
    ensures |r| == 32
  {
    if log == [] then Zeros(32) else Extend(Replay(log[..|log| - 1]), log[|log| - 1])
  }

  /** Everything that recording one event hashes: file contents, the measurement, and the register input. */
  ghost function HashedBy(pcr: seq<Byte>, e: Event): (r: set<seq<Byte>>)
    requires |pcr| == 32 && Sized(e)
    ensures forall x :: x in r ==> |x| < MAX_BYTES
  {
    hide FipsSha256;
    {pcr + FipsSha256(Measurement(e)), Measurement(e)}
    + (if e.CommandLine? then {e.content} else if e.InitBinary? then {e.content} else {})
  }

  ghost function Hashed(log: Log): (r: set<seq<Byte>>)
    ensures forall x :: x in r ==> |x| < MAX_BYTES
  {
    hide FipsSha256, Replay;
    if log == [] then {}
    else Hashed(log[..|log| - 1]) + HashedBy(Replay(log[..|log| - 1]), log[|log| - 1])
  }

  ghost predicate Collide(x: seq<Byte>, y: seq<Byte>) {
    |x| < MAX_BYTES && |y| < MAX_BYTES && x != y && FipsSha256(x) == FipsSha256(y)
  }

  /** Two different inputs, one hashed by each boot, with one digest. */
  ghost predicate HasCollision(a: set<seq<Byte>>, b: set<seq<Byte>>) {
    exists x, y :: x in a && y in b && Collide(x, y)
  }

  ghost predicate HasZeroPreimage(a: set<seq<Byte>>) {
    exists x :: x in a && |x| < MAX_BYTES && FipsSha256(x) == Zeros(32)
  }

  // ---------------------------------------------------------------- injective

  /** A separator that neither prefix contains splits a text in one way. */
  lemma SplitsOneWay(a: seq<Byte>, s: seq<Byte>, b: seq<Byte>, t: seq<Byte>, sep: Byte)
    requires sep !in a && sep !in b && a + [sep] + s == b + [sep] + t
    ensures a == b && s == t
  {
    assert (a + [sep] + s)[|a|] == sep && (b + [sep] + t)[|b|] == sep;
    assert |a| == |b|;
    assert a == (a + [sep] + s)[..|a|] && b == (b + [sep] + t)[..|b|];
    assert s == (a + [sep] + s)[|a| + 1..] && t == (b + [sep] + t)[|b| + 1..];
  }

  lemma DecimalBytesInjective(m: U32, n: U32)
    requires DecimalBytes(m) == DecimalBytes(n)
    ensures m == n
  {
    forall i | 0 <= i < |Decimal(m)| ensures Decimal(m)[i] == Decimal(n)[i] {
      assert DecimalBytes(m)[i] == Decimal(m)[i] as int && DecimalBytes(n)[i] == Decimal(n)[i] as int;
    }
    assert Decimal(m) == Decimal(n);
    DecimalInjective(m, n);
  }

  lemma NoColon(n: U32)
    ensures COLON !in DecimalBytes(n)
  {
    forall i | 0 <= i < |DecimalBytes(n)| ensures DecimalBytes(n)[i] != COLON {
      assert IsDigit(Decimal(n)[i]);
    }
  }

  function Tag(e: Event): char {
    match e
    case Phase(_, _) => 'p'
    case CommandLine(_) => 'c'
    case InitBinary(_) => 'i'
    case Overlay(_) => 'o'
  }

  /** The ninth character tells the four kinds apart. */
  lemma KindShows(e: Event)
    requires Sized(e)
    ensures |Measurement(e)| > 8 && Measurement(e)[8] == Tag(e) as int
  {
    hide FipsSha256, HexText;
  }

  lemma SuffixEqual(p: seq<Byte>, s: seq<Byte>, t: seq<Byte>)
    requires p + s == p + t
    ensures s == t
  {
    assert s == (p + s)[|p|..] && t == (p + t)[|p|..];
  }

  /** One measurement string comes from one event, unless two file contents collide. */
  lemma MeasurementInjective(e: Event, f: Event)
    requires Sized(e) && Sized(f) && Measurement(e) == Measurement(f)
    ensures e == f || (e.CommandLine? && f.CommandLine? && Collide(e.content, f.content))
                   || (e.InitBinary? && f.InitBinary? && Collide(e.content, f.content))
  {
    hide FipsSha256;
    KindShows(e);
    KindShows(f);
    match e
    case Phase(m, s) =>
      var Phase(n, t) := f;
      PhaseInjective(m, s, n, t);
    case CommandLine(x) =>
      SuffixEqual(CMDLINE, HexText(FipsSha256(x)), HexText(FipsSha256(f.content)));
      HexDetermines(HexText(FipsSha256(x)), FipsSha256(x), FipsSha256(f.content));
    case InitBinary(x) =>
      SuffixEqual(INIT, HexText(FipsSha256(x)), HexText(FipsSha256(f.content)));
      HexDetermines(HexText(FipsSha256(x)), FipsSha256(x), FipsSha256(f.content));
    case Overlay(_) =>
      assert |OVERLAY_ON| != |OVERLAY_OFF|;
  }

  lemma PhaseInjective(m: U32, s: seq<Byte>, n: U32, t: seq<Byte>)
    requires PHASE + DecimalBytes(m) + [COLON] + s == PHASE + DecimalBytes(n) + [COLON] + t
    ensures m == n && s == t
  {
    var x, y := DecimalBytes(m) + [COLON] + s, DecimalBytes(n) + [COLON] + t;
    assert PHASE + DecimalBytes(m) + [COLON] + s == PHASE + x;
    assert PHASE + DecimalBytes(n) + [COLON] + t == PHASE + y;
    SuffixEqual(PHASE, x, y);
    NoColon(m);
    NoColon(n);
    SplitsOneWay(DecimalBytes(m), s, DecimalBytes(n), t, COLON);
    DecimalBytesInjective(m, n);
  }

  // ------------------------------------------------------------- main theorem

  ghost predicate Broken(a: set<seq<Byte>>, b: set<seq<Byte>>) {
    HasCollision(a, b) || HasZeroPreimage(a + b)
  }

  lemma BrokenGrows(a: set<seq<Byte>>, b: set<seq<Byte>>, a': set<seq<Byte>>, b': set<seq<Byte>>)
    requires a <= a' && b <= b' && Broken(a, b)
    ensures Broken(a', b')
  {
    hide FipsSha256;
    if HasCollision(a, b) {
      var x, y :| x in a && y in b && Collide(x, y);
      assert x in a' && y in b';
    } else {
      var x :| x in a + b && |x| < MAX_BYTES && FipsSha256(x) == Zeros(32);
      assert x in a' + b';
    }
  }

  /** Last events differ or the registers before them do, only if one of the four hashes collides. */
  lemma LastStep(pcr1: seq<Byte>, e1: Event, pcr2: seq<Byte>, e2: Event)
    requires |pcr1| == |pcr2| == 32 && Sized(e1) && Sized(e2)
    requires Extend(pcr1, e1) == Extend(pcr2, e2)
    ensures (pcr1 == pcr2 && e1 == e2) || HasCollision(HashedBy(pcr1, e1), HashedBy(pcr2, e2))
  {
    hide FipsSha256, Measurement;
    var d1, d2 := FipsSha256(Measurement(e1)), FipsSha256(Measurement(e2));
    var x1, x2 := pcr1 + d1, pcr2 + d2;
    if x1 != x2 {
      assert Collide(x1, x2);
    } else {
      assert pcr1 == x1[..32] && pcr2 == x2[..32] && d1 == x1[32..] && d2 == x2[32..];
      if Measurement(e1) != Measurement(e2) {
        assert Collide(Measurement(e1), Measurement(e2));
      } else {
        MeasurementInjective(e1, e2);
        if e1 != e2 { assert e1.content in HashedBy(pcr1, e1) && e2.content in HashedBy(pcr2, e2); }
      }
    }
  }

  /** Equal registers mean equal logs, or a break of the hash exhibited by these two boots. */
  lemma {:induction false} PcrBindsLog(log1: Log, log2: Log)
    requires Replay(log1) == Replay(log2)
    ensures log1 == log2 || HasCollision(Hashed(log1), Hashed(log2)) || HasZeroPreimage(Hashed(log1) + Hashed(log2))
    decreases |log1|
  {
    hide Extend, FipsSha256, HashedBy;
    if log1 == [] && log2 == [] {
    } else if log1 == [] {
      LastPreimage(log2);
    } else if log2 == [] {
      LastPreimage(log1);
    } else {
      var f1, f2 := log1[..|log1| - 1], log2[..|log2| - 1];
      var e1, e2 := log1[|log1| - 1], log2[|log2| - 1];
      LastStep(Replay(f1), e1, Replay(f2), e2);
      if Replay(f1) == Replay(f2) && e1 == e2 {
        PcrBindsLog(f1, f2);
        if f1 == f2 {
          assert log1 == f1 + [e1] && log2 == f2 + [e2];
        } else {
          BrokenGrows(Hashed(f1), Hashed(f2), Hashed(log1), Hashed(log2));
        }
      } else {
        assert Broken(HashedBy(Replay(f1), e1), HashedBy(Replay(f2), e2));
        BrokenGrows(HashedBy(Replay(f1), e1), HashedBy(Replay(f2), e2), Hashed(log1), Hashed(log2));
      }
    }
  }

  /** A log that ends at the all-zero register hashed a preimage of zero. */
  lemma LastPreimage(log: Log)
    requires log != [] && Replay(log) == Zeros(32)
    ensures HasZeroPreimage(Hashed(log))
  {
    hide FipsSha256, Measurement;
    var f, e := log[..|log| - 1], log[|log| - 1];
    var x := Replay(f) + FipsSha256(Measurement(e));
    assert x in HashedBy(Replay(f), e);
  }

  // --------------------------------------------------------------- the code

  /** What the device does with one extend: nothing, or the extend, with or without an answer that comes through. */
  datatype Tpm = Absent | Extends(answers: bool)

  /** PCR 8 and the functions that extend it. */
  class BootRecorder {
    var pcr8: seq<Byte>
    ghost var log: Log

    ghost predicate Valid() reads this { pcr8 == Replay(log) }

    constructor ()
      ensures Valid() && log == []
    {
      pcr8 := Zeros(32);
      log := [];
    }

    /** `extend_pcr`; the TPM does the outer hash.  An error does not mean that the register is unchanged. */
    method ExtendPcr(data: seq<Byte>, ghost e: Event, tpm: Tpm) returns (ok: bool)
      requires Valid() && Sized(e) && data == Measurement(e)
      modifies this
      ensures Valid() && log == if tpm.Extends? then old(log) + [e] else old(log)
      ensures ok <==> tpm == Extends(true)
      ensures |old(pcr8)| == 32
      ensures pcr8 == if tpm.Extends? then FipsSha256(old(pcr8) + FipsSha256(data)) else old(pcr8)
    {
      hide FipsSha256, Measurement;
      var digest := Sha256.Sha256(data);
      ok := tpm == Extends(true);
      if tpm.Extends? {
        pcr8 := Sha256.Sha256(pcr8 + digest);
        log := log + [e];
        assert log[..|log| - 1] == old(log);
      }
    }

    method MeasurePhase(phase: U32, name: seq<Byte>, tpm: Tpm)
      requires Valid() && |name| < MAX_CONTENT
      modifies this
      ensures Valid() && log == if tpm.Extends? then old(log) + [Phase(phase, name)] else old(log)
    {
      var measurement := PHASE + DecimalBytes(phase) + [COLON] + name;
      var _ := ExtendPcr(measurement, Phase(phase, name), tpm);
    }

    /** The content is absent when /proc/cmdline cannot be read. */
    method MeasureCmdline(content: Option<seq<Byte>>, tpm: Tpm)
      requires Valid() && (content.Some? ==> |content.value| < MAX_CONTENT)
      modifies this
      ensures Valid()
      ensures log == if content.Some? && tpm.Extends? then old(log) + [CommandLine(content.value)] else old(log)
    {
      hide FipsSha256;
      match content
      case None =>
      case Some(cmdline) =>
        var hash := Sha256.Sha256(cmdline);
        var text := EncodeHex(hash);
        HexTextUnique(text, HexText(hash), hash);
        var _ := ExtendPcr(CMDLINE + text, CommandLine(cmdline), tpm);
    }

    method MeasureInitBinary(content: Option<seq<Byte>>, tpm: Tpm)
      requires Valid() && (content.Some? ==> |content.value| < MAX_CONTENT)
      modifies this
      ensures Valid()
      ensures log == if content.Some? && tpm.Extends? then old(log) + [InitBinary(content.value)] else old(log)
    {
      hide FipsSha256;
      match content
      case None =>
      case Some(data) =>
        var hash := Sha256.Sha256(data);
        var text := EncodeHex(hash);
        HexTextUnique(text, HexText(hash), hash);
        var _ := ExtendPcr(INIT + text, InitBinary(data), tpm);
    }

    method MeasureOverlayMode(enabled: bool, tpm: Tpm)
      requires Valid()
      modifies this
      ensures Valid() && log == if tpm.Extends? then old(log) + [Overlay(enabled)] else old(log)
    {
      hide FipsSha256, Replay, Ascii;
      var s := if enabled then OVERLAY_ON else OVERLAY_OFF;
      assert s == Measurement(Overlay(enabled));
      var _ := ExtendPcr(s, Overlay(enabled), tpm);
    }
  }
}
