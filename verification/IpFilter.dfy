/**
 IP filters of a service (quantra/src/process.rs): CIDR ranges, their membership
 test, and the nftables rules printed for deny and allow lists.  Bit operations
 are defined on naturals, bit by bit; the rules are text, read back by a
 first-match interpreter.
 */
module IpFilter {
  import opened Bytes
  import opened Optional
  import opened Text

  // ---------------------------------------------------------------- bits

  function BitAnd(a: nat, b: nat): nat {
    if a == 0 || b == 0 then 0
    else 2 * BitAnd(a / 2, b / 2) + (if a % 2 == 1 && b % 2 == 1 then 1 else 0)
  }

  /** `trailing_zeros` of a word of the given width. */
  function TrailingZeros(x: nat, width: nat): nat {
    if width == 0 || x % 2 == 1 then 0 else 1 + TrailingZeros(x / 2, width - 1)
  }

  function CountOnes(x: nat): nat { if x == 0 then 0 else x % 2 + CountOnes(x / 2) }

  lemma TwoTo24()
    ensures Pow2(24) == 0x100_0000
  {
    assert Pow2(8) == 256;
    assert Pow2(16) == 0x1_0000 by { assert Pow2(12) == 4096; }
    assert Pow2(20) == 0x10_0000;
  }

  lemma Pow2Is32()
    ensures Pow2(32) == 0x1_0000_0000
  {
    TwoTo24();
    assert Pow2(28) == 0x1000_0000;
  }

  lemma {:induction false} Pow2Monotone(j: nat, k: nat)
    requires j <= k
    ensures Pow2(j) <= Pow2(k)
    decreases k
  {
    if j < k { Pow2Monotone(j, k - 1); }
  }

  /** The mask of n bits with the low k cleared. */
  ghost function HighBits(n: nat, k: nat): nat
    requires k <= n
  {
    Pow2Monotone(k, n);
    Pow2(n) - Pow2(k)
  }

  lemma HighBitsHalf(n: nat, k: nat)
    requires 0 < k <= n
    ensures HighBits(n, k) % 2 == 0 && HighBits(n, k) / 2 == HighBits(n - 1, k - 1)
  {
  }

  lemma HighBitsOdd(n: nat)
    requires 0 < n
    ensures HighBits(n, 0) % 2 == 1 && HighBits(n, 0) / 2 == HighBits(n - 1, 0)
  {
    assert Pow2(n) == 2 * Pow2(n - 1);
  }

  /** And with a prefix mask clears the low bits. */
  lemma {:induction false} AndPrefix(a: nat, n: nat, k: nat)
    requires k <= n && a < Pow2(n)
    ensures BitAnd(a, HighBits(n, k)) == a - a % Pow2(k)
    decreases n
  {
    if n > 0 {
      assert Pow2(n) == 2 * Pow2(n - 1);
      if k == 0 {
        HighBitsOdd(n);
        AndPrefix(a / 2, n - 1, 0);
      } else {
        HighBitsHalf(n, k);
        AndPrefix(a / 2, n - 1, k - 1);
        HalfMod(a, Pow2(k - 1));
      }
    }
  }

  lemma HalfMod(a: nat, m: nat)
    requires m >= 1
    ensures a % (2 * m) == 2 * (a / 2 % m) + a % 2
  {
    var q, r := a / 2 / m, a / 2 % m;
    assert a / 2 == q * m + r;
    assert a == (2 * m) * q + (2 * r + a % 2) by {
      assert a == 2 * (a / 2) + a % 2;
      assert 2 * (q * m + r) == (2 * m) * q + 2 * r;
    }
    DivUnique(a, 2 * m, q, 2 * r + a % 2);
  }

  lemma {:induction false} MulGrows(d: nat, j: nat, k: nat)
    requires j < k
    ensures d * j + d <= d * k
  {
    if j + 1 < k { MulGrows(d, j, k - 1); }
    assert d * k == d * (k - 1) + d;
  }

  lemma DivUnique(x: nat, d: nat, q: nat, r: nat)
    requires d > 0 && r < d && x == d * q + r
    ensures x % d == r && x / d == q
  {
    var q' := x / d;
    assert x == d * q' + x % d;
    if q < q' { MulGrows(d, q, q'); } else if q' < q { MulGrows(d, q', q); }
  }

  lemma {:induction false} TrailingOfPrefix(n: nat, k: nat)
    requires k <= n
    ensures TrailingZeros(HighBits(n, k), n) == k
    decreases n
  {
    if k == 0 {
      if n > 0 { HighBitsOdd(n); }
    } else {
      HighBitsHalf(n, k);
      TrailingOfPrefix(n - 1, k - 1);
    }
  }

  lemma {:induction false} OnesOfPrefix(n: nat, k: nat)
    requires k <= n
    ensures CountOnes(HighBits(n, k)) == n - k
    decreases n
  {
    if n > 0 {
      if k == 0 {
        HighBitsOdd(n);
        OnesOfPrefix(n - 1, 0);
      } else {
        HighBitsHalf(n, k);
        OnesOfPrefix(n - 1, k - 1);
      }
    }
  }

  // --------------------------------------------------------------- ranges

  datatype IpRange = IpRange(addr: U32, mask: U32, isV6: bool)

  /** `!0u32 << (32 - prefix)`, or zero for prefix zero. */
  function PrefixMask(prefix: nat): U32
    requires prefix <= 32
  {
    if prefix == 0 then 0 else (0xFFFF_FFFF * Pow2(32 - prefix)) % 0x1_0000_0000
  }

  /** `!0u32 << (32 - prefix)` without overflow checks: the subtraction wraps and the shift uses five bits. */
  function ShiftedMask(prefix: U32): U32 {
    if prefix == 0 then 0
    else
      var amount := (32 - prefix) % 0x1_0000_0000 % 32;
      (0xFFFF_FFFF * Pow2(amount)) % 0x1_0000_0000
  }

  /** The prefix length that a written one comes to. */
  function EffectivePrefix(prefix: U32): (p: nat)
    ensures p <= 32
  {
    if prefix <= 32 then prefix else if prefix % 32 == 0 then 32 else prefix % 32
  }

  lemma ShiftedIsPrefix(prefix: U32)
    ensures ShiftedMask(prefix) == PrefixMask(EffectivePrefix(prefix))
  {
    hide Pow2;
    if prefix > 32 {
      var wrapped := 0x1_0000_0000 + 32 - prefix;
      assert (32 - prefix) % 0x1_0000_0000 == wrapped;
      assert wrapped % 32 == if prefix % 32 == 0 then 0 else 32 - prefix % 32;
    }
  }

  lemma MaskIsHighBits(prefix: nat)
    requires prefix <= 32
    ensures PrefixMask(prefix) == HighBits(32, 32 - prefix)
  {
    Pow2Is32();
    if prefix > 0 {
      var p := Pow2(32 - prefix);
      Pow2Monotone(32 - prefix, 31);
      assert Pow2(32) == 2 * Pow2(31);
      assert 0xFFFF_FFFF * p == 0x1_0000_0000 * (p - 1) + (0x1_0000_0000 - p);
      DivUnique(0xFFFF_FFFF * p, 0x1_0000_0000, p - 1, 0x1_0000_0000 - p);
    }
  }

  /** `mask_to_prefix` of network boot: counting ones inverts the mask of any prefix. */
  lemma MaskToPrefix(prefix: nat)
    requires prefix <= 32
    ensures CountOnes(PrefixMask(prefix)) == prefix
  {
    MaskIsHighBits(prefix);
    OnesOfPrefix(32, 32 - prefix);
  }

  lemma AndBound(a: nat, b: nat)
    ensures BitAnd(a, b) <= a
  {
  }

  function And32(a: U32, b: U32): U32 { AndBound(a, b); BitAnd(a, b) }

  predicate ContainsIpv4(r: IpRange, ip: U32) {
    !r.isV6 && (r.mask == 0 || And32(ip, r.mask) == r.addr)
  }

  /** The range an IPv4 CIDR denotes. */
  function V4Range(ip: U32, prefix: nat): IpRange
    requires prefix <= 32
  {
    IpRange(And32(ip, PrefixMask(prefix)), PrefixMask(prefix), false)
  }

  const V6_RANGE := IpRange(0, 0, true)

  /** What `parse` can return. */
  ghost predicate WellFormed(r: IpRange) {
    r == V6_RANGE || exists p: nat :: p <= 32 && BaseOf(r, p)
  }

  /** r is a v4 range of prefix p whose address has no host bits. */
  ghost predicate BaseOf(r: IpRange, p: nat) {
    p <= 32 && !r.isV6 && r.mask == PrefixMask(p) && r.addr % Pow2(32 - p) == 0
  }

  lemma ModOfMultiple(a: nat, m: nat)
    requires m >= 1
    ensures (a - a % m) % m == 0 && (a - a % m) / m == a / m
  {
    assert a - a % m == m * (a / m);
    DivUnique(a - a % m, m, a / m, 0);
  }

  lemma MaskedIp(ip: U32, p: nat)
    requires p <= 32
    ensures And32(ip, PrefixMask(p)) == ip - ip % Pow2(32 - p)
  {
    Pow2Is32();
    MaskIsHighBits(p);
    AndPrefix(ip, 32, 32 - p);
  }

  lemma V4RangeWellFormed(ip: U32, prefix: nat)
    requires prefix <= 32
    ensures BaseOf(V4Range(ip, prefix), prefix)
  {
    MaskedIp(ip, prefix);
    ModOfMultiple(ip, Pow2(32 - prefix));
  }

  /** Two numbers in one block of m, the first at its start. */
  lemma SameBlock(base: nat, x: nat, m: nat)
    requires m >= 1 && base % m == 0
    ensures x - x % m == base <==> x / m == base / m
    ensures x - x % m == base <==> base <= x < base + m
  {
    assert base == m * (base / m) && x == m * (x / m) + x % m;
    if x / m == base / m {
    } else if base <= x < base + m {
      DivUnique(x, m, base / m, x - base);
    }
    if x - x % m == base { DivUnique(x, m, base / m, x % m); }
  }

  /** Membership is the block of 2^(32-p) addresses that starts at the base: as a prefix match and as an interval. */
  lemma ContainsIsBlock(r: IpRange, p: nat, ip: U32)
    requires BaseOf(r, p)
    ensures ContainsIpv4(r, ip) <==> ip / Pow2(32 - p) == r.addr / Pow2(32 - p)
    ensures ContainsIpv4(r, ip) <==> r.addr <= ip < r.addr + Pow2(32 - p)
  {
    var m := Pow2(32 - p);
    MaskedIp(ip, p);
    SameBlock(r.addr, ip, m);
    if p == 0 {
      Pow2Is32();
      assert r.addr % m == r.addr == 0;
    } else {
      MaskNonZero(p);
    }
  }

  lemma MaskNonZero(p: nat)
    requires 0 < p <= 32
    ensures PrefixMask(p) != 0
  {
    MaskIsHighBits(p);
    Pow2Monotone(32 - p, 31);
    Pow2Double(31);
  }

  lemma Pow2Double(k: nat)
    ensures Pow2(k + 1) == 2 * Pow2(k)
  {
  }

  // ------------------------------------------------------------------ text

  function Octet(ip: U32, i: nat): (b: Byte)
    requires i < 4
  {
    if i == 0 then ip / 0x100_0000
    else if i == 1 then ip / 0x1_0000 % 256
    else if i == 2 then ip / 256 % 256
    else ip % 256
  }

  /** `Display` of an Ipv4Addr. */
  function IpText(ip: U32): string {
    Decimal(Octet(ip, 0)) + "." + (Decimal(Octet(ip, 1)) + "." + (Decimal(Octet(ip, 2)) + "." + Decimal(Octet(ip, 3))))
  }

  /** One field of an address: one to three digits, no leading zero, at most 255. */
  function ParseOctet(s: string): Option<Byte> {
    if 1 <= |s| <= 3 && AllDigits(s) && (|s| == 1 || s[0] != '0') && DigitsValue(s) <= 255
    then Some(DigitsValue(s))
    else None
  }

  function ParseIpv4(s: string): Option<U32> {
    var parts := Split(s, '.');
    if |parts| != 4 then None
    else
      var a, b, c, d := ParseOctet(parts[0]), ParseOctet(parts[1]), ParseOctet(parts[2]), ParseOctet(parts[3]);
      if a.None? || b.None? || c.None? || d.None? then None
      else Some(a.value * 0x100_0000 + b.value * 0x1_0000 + c.value * 256 + d.value)
  }

  lemma OctetText(b: Byte)
    ensures ParseOctet(Decimal(b)) == Some(b) && '.' !in Decimal(b) && '/' !in Decimal(b)
  {
    DecimalReadsBack(b);
    if b >= 100 {
      assert Decimal(b) == Decimal(b / 10) + [DigitChar(b % 10)];
      assert Decimal(b / 10) == Decimal(b / 100) + [DigitChar(b / 10 % 10)];
      assert Decimal(b / 100) == [DigitChar(b / 100)];
    } else if b >= 10 {
      assert Decimal(b) == Decimal(b / 10) + [DigitChar(b % 10)];
      assert Decimal(b / 10) == [DigitChar(b / 10)];
    }
    NoPunctuation(Decimal(b));
  }

  lemma NoPunctuation(s: string)
    requires AllDigits(s)
    ensures '.' !in s && '/' !in s && ' ' !in s
  {
    forall i | 0 <= i < |s| ensures s[i] != '.' && s[i] != '/' && s[i] != ' ' { assert IsDigit(s[i]); }
  }

  lemma OctetSum(ip: U32)
    ensures Octet(ip, 0) * 0x100_0000 + Octet(ip, 1) * 0x1_0000 + Octet(ip, 2) * 256 + Octet(ip, 3) == ip
  {
    var x := ip / 256;
    var y := x / 256;
    assert y == ip / 0x1_0000 && y / 256 == ip / 0x100_0000;
    assert ip == 256 * x + ip % 256 && x == 256 * y + x % 256 && y == 256 * (y / 256) + y % 256;
  }

  lemma IpTextSplits(ip: U32)
    ensures Split(IpText(ip), '.') ==
        [Decimal(Octet(ip, 0)), Decimal(Octet(ip, 1)), Decimal(Octet(ip, 2)), Decimal(Octet(ip, 3))]
  {
    hide Octet, Decimal;
    var a, b, c, d := Decimal(Octet(ip, 0)), Decimal(Octet(ip, 1)), Decimal(Octet(ip, 2)), Decimal(Octet(ip, 3));
    NoPunctuation(a);
    NoPunctuation(b);
    NoPunctuation(c);
    NoPunctuation(d);
    SplitHead(c, '.', d);
    SplitHead(b, '.', c + "." + d);
    SplitHead(a, '.', b + "." + (c + "." + d));
    assert Split(d, '.') == [d];
  }

  lemma IpTextReadsBack(ip: U32)
    ensures ParseIpv4(IpText(ip)) == Some(ip)
  {
    hide Octet, Split, Decimal, ParseOctet;
    IpTextSplits(ip);
    OctetText(Octet(ip, 0));
    OctetText(Octet(ip, 1));
    OctetText(Octet(ip, 2));
    OctetText(Octet(ip, 3));
    OctetSum(ip);
  }

  lemma IpTextPlain(ip: U32)
    ensures '/' !in IpText(ip) && ' ' !in IpText(ip)
  {
    NoPunctuation(Decimal(Octet(ip, 0)));
    NoPunctuation(Decimal(Octet(ip, 1)));
    NoPunctuation(Decimal(Octet(ip, 2)));
    NoPunctuation(Decimal(Octet(ip, 3)));
  }

  function WrittenRange(ip: U32, prefix: U32): IpRange {
    IpRange(And32(ip, ShiftedMask(prefix)), ShiftedMask(prefix), false)
  }

  /** A prefix above 32 is taken modulo 32, and a multiple of 32 as 32. */
  lemma LongPrefixWraps(ip: U32, prefix: U32)
    ensures WrittenRange(ip, prefix) == V4Range(ip, EffectivePrefix(prefix))
    ensures BaseOf(WrittenRange(ip, prefix), EffectivePrefix(prefix))
  {
    hide Pow2, BitAnd;
    ShiftedIsPrefix(prefix);
    V4RangeWellFormed(ip, EffectivePrefix(prefix));
  }

  /** 10.0.0.0/40 is 10.0.0.0/8. */
  lemma SlashForty(ip: U32)
    ensures ContainsIpv4(WrittenRange(0x0A00_0000, 40), ip) <==> 0x0A00_0000 <= ip < 0x0B00_0000
  {
    LongPrefixWraps(0x0A00_0000, 40);
    TwoTo24();
    MaskedIp(0x0A00_0000, 8);
    ContainsIsBlock(WrittenRange(0x0A00_0000, 40), 8, ip);
  }

  /** `parse` on trimmed text.  A v4 prefix above 32 aborts if overflow checks are compiled in, and wraps if not. */
  datatype ParseResult = Parsed(range: IpRange) | Rejected | Aborted

  function ParseRange(cidr: string, checks: bool): ParseResult {
    if cidr == "any" || cidr == "0.0.0.0/0" then Parsed(IpRange(0, 0, false))
    else if cidr == "::/0" then Parsed(V6_RANGE)
    else
      var cut := SplitOnce(cidr, '/');
      if cut.None? then Rejected
      else
        var prefix := ParseUnsigned(cut.value.1, 0xFFFF_FFFF);
        if prefix.None? then Rejected
        else
          var ip := ParseIpv4(cut.value.0);
          if ip.None? then Parsed(V6_RANGE)
          else if checks && prefix.value > 32 then Aborted
          else Parsed(WrittenRange(ip.value, prefix.value))
  }

  /** Everything `parse` returns is well formed, in either build. */
  lemma ParseWellFormed(cidr: string, checks: bool)
    ensures ParseRange(cidr, checks).Parsed? ==> WellFormed(ParseRange(cidr, checks).range)
  {
    var r := ParseRange(cidr, checks);
    if r.Parsed? && r.range != V6_RANGE {
      if cidr == "any" || cidr == "0.0.0.0/0" {
        assert BaseOf(r.range, 0);
      } else {
        var cut := SplitOnce(cidr, '/').value;
        LongPrefixWraps(ParseIpv4(cut.0).value, ParseUnsigned(cut.1, 0xFFFF_FFFF).value);
      }
    }
  }

  /** The CIDR text that both filters of the source print for a v4 range. */
  function CidrText(r: IpRange): string {
    IpText(r.addr) + "/" + Decimal(PrintedPrefix(r))
  }

  function PrintedPrefix(r: IpRange): nat {
    TrailingAtMost(r.mask, 32);
    32 - TrailingZeros(r.mask, 32)
  }

  lemma TrailingAtMost(x: nat, width: nat)
    ensures TrailingZeros(x, width) <= width
  {
  }

  lemma PrefixPrinted(r: IpRange, p: nat)
    requires BaseOf(r, p)
    ensures PrintedPrefix(r) == p
  {
    MaskIsHighBits(p);
    TrailingOfPrefix(32, 32 - p);
  }

  lemma CidrSplits(r: IpRange, p: nat)
    requires BaseOf(r, p)
    ensures SplitOnce(CidrText(r), '/') == Some((IpText(r.addr), Decimal(p)))
    ensures ' ' !in CidrText(r)
  {
    PrefixPrinted(r, p);
    IpTextPlain(r.addr);
    NoPunctuation(Decimal(p));
    SplitOnceAt(IpText(r.addr), '/', Decimal(p));
  }

  lemma BaseUnchanged(r: IpRange, p: nat)
    requires BaseOf(r, p)
    ensures V4Range(r.addr, p) == r
  {
    MaskedIp(r.addr, p);
  }

  /** Printing a range and parsing it again returns the range. */
  lemma PrintThenParse(r: IpRange, p: nat, checks: bool)
    requires BaseOf(r, p)
    ensures ParseRange(CidrText(r), checks) == Parsed(r)
  {
    CidrSplits(r, p);
    IpTextReadsBack(r.addr);
    ParseDecimal(p, 0xFFFF_FFFF);
    BaseUnchanged(r, p);
    LongPrefixWraps(r.addr, p);
    var text := CidrText(r);
    assert IsDigit(text[0]) by {
      assert text[0] == Decimal(Octet(r.addr, 0))[0];
    }
    assert text != "::/0" && text != "any";
    if text == "0.0.0.0/0" { ZeroText(r, p); }
  }

  lemma ZeroText(r: IpRange, p: nat)
    requires BaseOf(r, p) && CidrText(r) == "0.0.0.0/0"
    ensures r == IpRange(0, 0, false)
  {
    hide IpText, Decimal, SplitOnce, TrailingZeros, Pow2;
    var text := CidrText(r);
    CidrSplits(r, p);
    assert text == IpText(r.addr) + ['/'] + Decimal(p);
    NoPunctuation(Decimal(p));
    assert text[|IpText(r.addr)|] == '/';
    assert text[7] == '/' && |text| == 9;
    assert |IpText(r.addr)| == 7;
    assert Decimal(p) == text[8..] == ['0'];
    DecimalReadsBack(p);
    assert DigitsValue(['0']) == 0 by { assert ['0'][..0] == []; }
    Pow2Is32();
  }

  // ------------------------------------------------------- what a text denotes

  /** Four numbers and three dots. */
  function Dotted(a: Byte, b: Byte, c: Byte, d: Byte): string {
    Decimal(a) + "." + (Decimal(b) + "." + (Decimal(c) + "." + Decimal(d)))
  }

  lemma OctetsOf(a: Byte, b: Byte, c: Byte, d: Byte)
    ensures var ip := a * 0x100_0000 + b * 0x1_0000 + c * 256 + d;
            Octet(ip, 0) == a && Octet(ip, 1) == b && Octet(ip, 2) == c && Octet(ip, 3) == d
  {
    var y := a * 256 + b;
    var x := y * 256 + c;
    var ip := x * 256 + d;
    assert ip == a * 0x100_0000 + b * 0x1_0000 + c * 256 + d;
    assert ip / 256 == x && ip % 256 == d;
    assert x / 256 == y && x % 256 == c;
    assert y / 256 == a && y % 256 == b;
    assert ip / 0x1_0000 == y && ip / 0x100_0000 == a;
  }

  lemma DottedIsText(a: Byte, b: Byte, c: Byte, d: Byte)
    ensures IpText(a * 0x100_0000 + b * 0x1_0000 + c * 256 + d) == Dotted(a, b, c, d)
  {
    hide Decimal, Octet;
    OctetsOf(a, b, c, d);
  }

  lemma {:induction false} Rejoined(s: string, c: char)
    ensures |Split(s, c)| == 4 ==>
              var p := Split(s, c); s == p[0] + [c] + (p[1] + [c] + (p[2] + [c] + p[3]))
    ensures |Split(s, c)| == 3 ==> var p := Split(s, c); s == p[0] + [c] + (p[1] + [c] + p[2])
    ensures |Split(s, c)| == 2 ==> var p := Split(s, c); s == p[0] + [c] + p[1]
    ensures |Split(s, c)| == 1 ==> s == Split(s, c)[0]
    decreases |s|
  {
    hide SplitOnce;
    var cut := SplitOnce(s, c);
    if cut.Some? {
      Rejoined(cut.value.1, c);
      var rest := Split(cut.value.1, c);
      assert Split(s, c) == [cut.value.0] + rest;
    }
  }

  lemma OctetIsDecimal(s: string)
    requires ParseOctet(s).Some?
    ensures s == Decimal(ParseOctet(s).value)
  {
    DecimalCanonical(s);
  }

  /** Exactly the dotted texts are IPv4 addresses. */
  lemma Ipv4Texts(s: string)
    ensures ParseIpv4(s).Some? <==> exists a: Byte, b: Byte, c: Byte, d: Byte :: s == Dotted(a, b, c, d)
    ensures ParseIpv4(s).Some? ==> s == IpText(ParseIpv4(s).value)
  {
    hide Decimal, Split, ParseOctet, Octet;
    if ParseIpv4(s).Some? {
      var p := Split(s, '.');
      Rejoined(s, '.');
      OctetIsDecimal(p[0]);
      OctetIsDecimal(p[1]);
      OctetIsDecimal(p[2]);
      OctetIsDecimal(p[3]);
      var a, b, c, d := ParseOctet(p[0]).value, ParseOctet(p[1]).value, ParseOctet(p[2]).value, ParseOctet(p[3]).value;
      assert s == Dotted(a, b, c, d);
      DottedIsText(a, b, c, d);
    }
    if exists a: Byte, b: Byte, c: Byte, d: Byte :: s == Dotted(a, b, c, d) {
      var a: Byte, b: Byte, c: Byte, d: Byte :| s == Dotted(a, b, c, d);
      DottedIsText(a, b, c, d);
      IpTextReadsBack(a * 0x100_0000 + b * 0x1_0000 + c * 256 + d);
    }
  }

  function AfterPlus(s: string): string { if |s| > 0 && s[0] == '+' then s[1..] else s }

  /** Digits, after a plus sign or not. */
  predicate Numeric(s: string) {
    AfterPlus(s) != "" && AllDigits(AfterPlus(s)) && DigitsValue(AfterPlus(s)) < 0x1_0000_0000
  }

  function NumberOf(s: string): U32
    requires Numeric(s)
  {
    DigitsValue(AfterPlus(s))
  }

  lemma NumericParses(s: string)
    ensures ParseUnsigned(s, 0xFFFF_FFFF) == if Numeric(s) then Some(NumberOf(s)) else None
  {
  }

  /** "any" and 0.0.0.0/0 contain every IPv4 address. */
  lemma AnyContainsAll(checks: bool, ip: U32)
    ensures ParseRange("any", checks).Parsed? && ContainsIpv4(ParseRange("any", checks).range, ip)
    ensures ParseRange("0.0.0.0/0", checks).Parsed? && ContainsIpv4(ParseRange("0.0.0.0/0", checks).range, ip)
  {
  }

  /** a.b.c.d/p contains exactly the addresses that share its first p bits. */
  lemma DottedContains(a: Byte, b: Byte, c: Byte, d: Byte, prefix: string, checks: bool, ip: U32)
    requires Numeric(prefix) && NumberOf(prefix) <= 32
    ensures var r := ParseRange(Dotted(a, b, c, d) + "/" + prefix, checks);
            && r.Parsed? && !r.range.isV6
            && (ContainsIpv4(r.range, ip) <==>
                ip / Pow2(32 - NumberOf(prefix)) ==
                (a * 0x100_0000 + b * 0x1_0000 + c * 256 + d) / Pow2(32 - NumberOf(prefix)))
  {
    hide IpText, Decimal, ParseIpv4, SplitOnce, Pow2, BitAnd;
    var addr := a * 0x100_0000 + b * 0x1_0000 + c * 256 + d;
    var p := NumberOf(prefix);
    var text := Dotted(a, b, c, d) + "/" + prefix;
    DottedIsText(a, b, c, d);
    IpTextPlain(addr);
    IpTextReadsBack(addr);
    NumericParses(prefix);
    assert text == IpText(addr) + ['/'] + prefix;
    SplitOnceAt(IpText(addr), '/', prefix);
    LongPrefixWraps(addr, p);
    TextStarts(a, b, c, d, prefix);
    if text == "0.0.0.0/0" {
      ZeroAddress(addr, prefix);
      HighBitsOf(ip, addr, p);
    } else {
      ContainsIsBlock(V4Range(addr, p), p, ip);
      MaskedIp(addr, p);
      ModOfMultiple(addr, Pow2(32 - p));
    }
  }

  lemma TextStarts(a: Byte, b: Byte, c: Byte, d: Byte, prefix: string)
    ensures var text := Dotted(a, b, c, d) + "/" + prefix; text != "any" && text != "::/0"
  {
    var text := Dotted(a, b, c, d) + "/" + prefix;
    assert text[0] == Decimal(a)[0];
    assert IsDigit(text[0]);
  }

  /** The one dotted text that the first branch takes. */
  lemma ZeroAddress(addr: U32, prefix: string)
    requires IpText(addr) + ['/'] + prefix == "0.0.0.0/0" && Numeric(prefix)
    ensures addr == 0 && NumberOf(prefix) == 0
  {
    hide IpText, ParseIpv4;
    var text := IpText(addr) + ['/'] + prefix;
    IpTextPlain(addr);
    assert text[|IpText(addr)|] == '/';
    assert text[7] == '/' && |text| == 9 && forall i :: 0 <= i < 9 && i != 7 ==> text[i] != '/';
    assert IpText(addr) == text[..7] == "0.0.0.0" && prefix == text[8..] == ['0'];
    ZeroDotted();
    IpTextReadsBack(addr);
    IpTextReadsBack(0);
    assert DigitsValue(['0']) == 0 by { assert ['0'][..0] == []; }
  }

  lemma ZeroDotted()
    ensures IpText(0) == "0.0.0.0"
  {
  }

  lemma HighBitsOf(ip: U32, addr: U32, p: nat)
    requires addr == 0 && p == 0
    ensures ip / Pow2(32 - p) == addr / Pow2(32 - p)
  {
    Pow2Is32();
  }

  /** Any other text with a numeric prefix is taken for IPv6 and contains no IPv4 address. */
  lemma OtherContainsNone(host: string, prefix: string, checks: bool, ip: U32)
    requires '/' !in host && Numeric(prefix)
    requires forall a: Byte, b: Byte, c: Byte, d: Byte :: host != Dotted(a, b, c, d)
    ensures var r := ParseRange(host + "/" + prefix, checks); r.Parsed? && !ContainsIpv4(r.range, ip)
  {
    hide ParseIpv4, SplitOnce;
    var text := host + "/" + prefix;
    assert text == host + ['/'] + prefix;
    SplitOnceAt(host, '/', prefix);
    NumericParses(prefix);
    Ipv4Texts(host);
    assert text[|host|] == '/';
    if text == "0.0.0.0/0" {
      assert text[7] == '/' && forall i :: 0 <= i < 9 && i != 7 ==> text[i] != '/';
      assert host == text[..|host|] == "0.0.0.0";
      ZeroDotted();
      DottedIsText(0, 0, 0, 0);
    }
  }

  /** Without a slash and a number behind the first one, only "any" is accepted. */
  lemma RejectedTexts(cidr: string, checks: bool)
    ensures '/' !in cidr && cidr != "any" ==> ParseRange(cidr, checks) == Rejected
    ensures forall host, prefix :: cidr == host + "/" + prefix && '/' !in host && !Numeric(prefix) ==>
              ParseRange(cidr, checks) == Rejected
  {
    hide ParseIpv4, SplitOnce;
    if '/' !in cidr {
      assert "0.0.0.0/0"[7] == '/' && "::/0"[2] == '/';
    }
    forall host, prefix | cidr == host + "/" + prefix && '/' !in host && !Numeric(prefix)
      ensures ParseRange(cidr, checks) == Rejected
    {
      assert cidr == host + ['/'] + prefix;
      SplitOnceAt(host, '/', prefix);
      NumericParses(prefix);
      SpecialTexts(host, prefix);
    }
  }

  lemma SpecialTexts(host: string, prefix: string)
    requires '/' !in host && !Numeric(prefix)
    ensures host + ['/'] + prefix != "0.0.0.0/0" && host + ['/'] + prefix != "::/0" && host + ['/'] + prefix != "any"
  {
    var text := host + ['/'] + prefix;
    assert text[|host|] == '/';
    if text == "0.0.0.0/0" {
      assert text[7] == '/' && forall i :: 0 <= i < 9 && i != 7 ==> text[i] != '/';
      assert prefix == text[8..] == ['0'];
      ZeroNumeric();
    }
    if text == "::/0" {
      assert text[2] == '/' && forall i :: 0 <= i < 4 && i != 2 ==> text[i] != '/';
      assert prefix == text[3..] == ['0'];
      ZeroNumeric();
    }
    assert '/' in text && '/' !in "any";
  }

  lemma ZeroNumeric()
    ensures Numeric(['0'])
  {
    assert DigitsValue(['0']) == 0 by { assert ['0'][..0] == []; }
  }

  // -------------------------------------------------------------- nftables

  datatype Verdict = Drop | Accept

  const DADDR := "ip daddr "

  function VerdictWord(v: Verdict): string { if v == Drop then "drop" else "accept" }

  function RuleLine(r: IpRange, v: Verdict): string {
    DADDR + (CidrText(r) + [' '] + VerdictWord(v))
  }

  /** The text of a rule: base address, prefix length and verdict word. */
  lemma RuleTexts(r: IpRange, p: nat)
    requires BaseOf(r, p)
    ensures RuleLine(r, Drop) == "ip daddr " + IpText(r.addr) + "/" + Decimal(p) + " drop"
    ensures RuleLine(r, Accept) == "ip daddr " + IpText(r.addr) + "/" + Decimal(p) + " accept"
  {
    hide IpText, Decimal, PrintedPrefix, BaseOf;
    PrefixPrinted(r, p);
    RuleWord(IpText(r.addr), Decimal(p), "drop");
    RuleWord(IpText(r.addr), Decimal(p), "accept");
    assert " " + "drop" == " drop" && " " + "accept" == " accept";
  }

  lemma RuleWord(host: string, prefix: string, word: string)
    ensures DADDR + (host + "/" + prefix + [' '] + word) == "ip daddr " + host + "/" + prefix + (" " + word)
  {
    var cidr := host + "/" + prefix;
    assert cidr + [' '] + word == cidr + (" " + word);
    assert DADDR + (cidr + (" " + word)) == DADDR + cidr + (" " + word);
    assert DADDR + cidr == DADDR + host + "/" + prefix;
  }

  /** One line per IPv4 range; IPv6 entries are skipped. */
  function RuleLines(ranges: seq<IpRange>, v: Verdict): seq<string> {
    if ranges == [] then []
    else
      var front, last := RuleLines(ranges[..|ranges| - 1], v), ranges[|ranges| - 1];
      if last.isV6 then front else front + [RuleLine(last, v)]
  }

  function NftRules(deny: seq<IpRange>, allow: seq<IpRange>): seq<string> {
    RuleLines(deny, Drop) + (if allow == [] then [] else RuleLines(allow, Accept) + ["drop"])
  }

  /** The rules of the egress chain, in order, as `apply_nft_ip_filter` writes them. */
  method BuildRules(deny: seq<IpRange>, allow: seq<IpRange>) returns (rules: seq<string>)
    ensures rules == NftRules(deny, allow)
  {
    hide IpText, Decimal, PrintedPrefix;
    rules := [];
    for i := 0 to |deny|
      invariant rules == RuleLines(deny[..i], Drop)
    {
      assert deny[..i + 1][..i] == deny[..i];
      var range := deny[i];
      if !range.isV6 {
        var cidr := IpText(range.addr) + "/" + Decimal(PrintedPrefix(range));
        rules := rules + ["ip daddr " + (cidr + [' '] + "drop")];
      }
    }
    assert deny[..|deny|] == deny;
    if allow != [] {
      for i := 0 to |allow|
        invariant rules == RuleLines(deny, Drop) + RuleLines(allow[..i], Accept)
      {
        assert allow[..i + 1][..i] == allow[..i];
        var range := allow[i];
        if !range.isV6 {
          var cidr := IpText(range.addr) + "/" + Decimal(PrintedPrefix(range));
          rules := rules + ["ip daddr " + (cidr + [' '] + "accept")];
        }
      }
      assert allow[..|allow|] == allow;
      rules := rules + ["drop"];
    }
  }

  /** A rule as nft reads it: a prefix to match, or nothing, and a verdict. */
  datatype Rule = Daddr(addr: U32, prefix: nat, verdict: Verdict) | Always(verdict: Verdict)

  function ReadVerdict(s: string): Option<Verdict> {
    if s == "drop" then Some(Drop) else if s == "accept" then Some(Accept) else None
  }

  function ReadRule(line: string): Option<Rule> {
    if ReadVerdict(line).Some? then Some(Always(ReadVerdict(line).value))
    else if !(DADDR <= line) then None
    else
      var words := SplitOnce(line[|DADDR|..], ' ');
      if words.None? || ReadVerdict(words.value.1).None? then None
      else
        var cut := SplitOnce(words.value.0, '/');
        if cut.None? then None
        else
          var ip, prefix := ParseIpv4(cut.value.0), ParseUnsigned(cut.value.1, 32);
          if ip.None? || prefix.None? then None
          else Some(Daddr(ip.value, prefix.value, ReadVerdict(words.value.1).value))
  }

  predicate Matches(rule: Rule, ip: U32) {
    rule.Always? || (rule.prefix <= 32 && ip / Pow2(32 - rule.prefix) == rule.addr / Pow2(32 - rule.prefix))
  }

  /** First match wins; a chain without a policy accepts.  None: a line nft cannot read. */
  function Evaluate(lines: seq<string>, ip: U32): Option<Verdict> {
    if lines == [] then Some(Accept)
    else
      var rule := ReadRule(lines[0]);
      if rule.None? then None
      else if Matches(rule.value, ip) then Some(rule.value.verdict)
      else Evaluate(lines[1..], ip)
  }

  predicate AnyContains(ranges: seq<IpRange>, ip: U32) {
    exists i :: 0 <= i < |ranges| && ContainsIpv4(ranges[i], ip)
  }

  /** The documented decision table. */
  function Decision(deny: seq<IpRange>, allow: seq<IpRange>, ip: U32): Verdict {
    if AnyContains(deny, ip) then Drop
    else if allow != [] && !AnyContains(allow, ip) then Drop
    else Accept
  }

  ghost predicate AllWellFormed(ranges: seq<IpRange>) { forall i :: 0 <= i < |ranges| ==> WellFormed(ranges[i]) }

  lemma LineReads(r: IpRange, p: nat, v: Verdict)
    requires BaseOf(r, p)
    ensures ReadRule(RuleLine(r, v)) == Some(Daddr(r.addr, p, v))
  {
    hide CidrText, SplitOnce, ParseIpv4, ParseUnsigned, IpText, Decimal, BaseOf;
    var line := RuleLine(r, v);
    assert line[|DADDR|..] == CidrText(r) + [' '] + VerdictWord(v);
    assert line[0] == 'i';
    CidrSplits(r, p);
    SplitOnceAt(CidrText(r), ' ', VerdictWord(v));
    IpTextReadsBack(r.addr);
    PrefixBound(r, p);
    ParseDecimal(p, 32);
  }

  lemma PrefixBound(r: IpRange, p: nat)
    requires BaseOf(r, p)
    ensures p <= 32
  {
  }

  /** A block of lines decides for its ranges and otherwise falls through. */
  lemma {:induction false} LinesDecide(ranges: seq<IpRange>, v: Verdict, rest: seq<string>, ip: U32)
    requires AllWellFormed(ranges)
    ensures Evaluate(RuleLines(ranges, v) + rest, ip) == if AnyContains(ranges, ip) then Some(v) else Evaluate(rest, ip)
    decreases |ranges|
  {
    hide RuleLine, ReadRule, ContainsIpv4, Matches, WellFormed;
    if ranges == [] {
      assert RuleLines(ranges, v) + rest == rest;
    } else {
      var front, last := ranges[..|ranges| - 1], ranges[|ranges| - 1];
      assert WellFormed(last);
      assert AnyContains(ranges, ip) <==> AnyContains(front, ip) || ContainsIpv4(last, ip) by {
        assert ranges == front + [last];
        if AnyContains(front, ip) {
          var i :| 0 <= i < |front| && ContainsIpv4(front[i], ip);
          assert ContainsIpv4(ranges[i], ip);
        }
        if ContainsIpv4(last, ip) { assert ContainsIpv4(ranges[|front|], ip); }
      }
      if last.isV6 {
        LinesDecide(front, v, rest, ip);
        SkippedV6(last, ip);
      } else {
        LinesDecide(front, v, [RuleLine(last, v)] + rest, ip);
        assert RuleLines(ranges, v) + rest == RuleLines(front, v) + ([RuleLine(last, v)] + rest);
        LineDecides(last, v, rest, ip);
      }
    }
  }

  lemma SkippedV6(r: IpRange, ip: U32)
    requires r.isV6
    ensures !ContainsIpv4(r, ip)
  {
  }

  lemma LineDecides(r: IpRange, v: Verdict, rest: seq<string>, ip: U32)
    requires WellFormed(r) && !r.isV6
    ensures Evaluate([RuleLine(r, v)] + rest, ip) == if ContainsIpv4(r, ip) then Some(v) else Evaluate(rest, ip)
  {
    hide RuleLine, ReadRule, ContainsIpv4, PrefixMask, Pow2;
    var p: nat :| p <= 32 && BaseOf(r, p);
    LineReads(r, p, v);
    ContainsIsBlock(r, p, ip);
    assert ([RuleLine(r, v)] + rest)[1..] == rest;
  }

  /** The printed rules give every IPv4 destination the verdict of the decision table. */
  lemma RulesDecide(deny: seq<IpRange>, allow: seq<IpRange>, ip: U32)
    requires AllWellFormed(deny) && AllWellFormed(allow)
    ensures Evaluate(NftRules(deny, allow), ip) == Some(Decision(deny, allow, ip))
  {
    hide RuleLines, AnyContains, AllWellFormed;
    if allow == [] {
      LinesDecide(deny, Drop, [], ip);
    } else {
      LinesDecide(deny, Drop, RuleLines(allow, Accept) + ["drop"], ip);
      LinesDecide(allow, Accept, ["drop"], ip);
      assert Evaluate(["drop"], ip) == Some(Drop);
    }
  }
}
