/** Bytes and big-endian fields, shared by the hash, DHCP and TPM modules. */
module Bytes {

  type Byte = x: int | 0 <= x < 256
  type U16 = x: int | 0 <= x < 0x1_0000
  type U32 = x: int | 0 <= x < 0x1_0000_0000
  type U64 = x: int | 0 <= x < 0x1_0000_0000_0000_0000

  function Pow2(k: nat): (r: nat)
    ensures r >= 1
  {
    if k == 0 then 1 else 2 * Pow2(k - 1)
  }

  ghost function Pow256(k: nat): (r: nat)
    ensures r >= 1
  {
    if k == 0 then 1 else 256 * Pow256(k - 1)
  }

  /** The low k bytes of n, most significant first (`to_be_bytes`). */
  function BigEndian(n: nat, k: nat): (r: seq<Byte>)
    ensures |r| == k
  {
    if k == 0 then [] else BigEndian(n / 256, k - 1) + [n % 256]
  }

  /** `from_be_bytes`. */
  function FromBigEndian(s: seq<Byte>): (n: nat)
    ensures n < Pow256(|s|)
  {
    if s == [] then 0 else FromBigEndian(s[..|s| - 1]) * 256 + s[|s| - 1]
  }

  lemma {:induction false} ReadBack(n: nat, k: nat)
    requires n < Pow256(k)
    ensures FromBigEndian(BigEndian(n, k)) == n
  {
    if k > 0 {
      ReadBack(n / 256, k - 1);
      var r := BigEndian(n, k);
      assert r[..k - 1] == BigEndian(n / 256, k - 1);
    }
  }

  lemma SplitLast(high: nat, low: Byte)
    ensures (high * 256 + low) / 256 == high && (high * 256 + low) % 256 == low
  {
  }

  lemma {:induction false} WriteBack(s: seq<Byte>)
    ensures BigEndian(FromBigEndian(s), |s|) == s
  {
    if s != [] {
      var front, last := s[..|s| - 1], s[|s| - 1];
      WriteBack(front);
      SplitLast(FromBigEndian(front), last);
      assert s == front + [last];
    }
  }

  lemma Widths()
    ensures Pow256(2) == 0x1_0000
    ensures Pow256(4) == 0x1_0000_0000
    ensures Pow256(8) == 0x1_0000_0000_0000_0000
  {
    assert Pow256(1) == 256 * Pow256(0);
    assert Pow256(3) == 256 * Pow256(2) && Pow256(4) == 256 * Pow256(3);
    assert Pow256(5) == 256 * Pow256(4) && Pow256(6) == 256 * Pow256(5);
    assert Pow256(7) == 256 * Pow256(6) && Pow256(8) == 256 * Pow256(7);
  }

  function Be16(n: U16): (r: seq<Byte>)
    ensures |r| == 2 && FromBigEndian(r) == n
  {
    Widths(); ReadBack(n, 2); BigEndian(n, 2)
  }

  function Be32(n: U32): (r: seq<Byte>)
    ensures |r| == 4 && FromBigEndian(r) == n
  {
    Widths(); ReadBack(n, 4); BigEndian(n, 4)
  }

  function Be64(n: U64): (r: seq<Byte>)
    ensures |r| == 8 && FromBigEndian(r) == n
  {
    Widths(); ReadBack(n, 8); BigEndian(n, 8)
  }

  function Read16(s: seq<Byte>, i: nat): (n: U16)
    requires i + 2 <= |s|
  {
    Widths(); FromBigEndian(s[i..i + 2])
  }

  function Read32(s: seq<Byte>, i: nat): (n: U32)
    requires i + 4 <= |s|
  {
    Widths(); FromBigEndian(s[i..i + 4])
  }

  /** Most significant byte first, byte by byte. */
  lemma BytePositions(n: nat, k: nat, i: nat)
    requires i < k
    ensures BigEndian(n, k)[i] == n / Pow256(k - 1 - i) % 256
    decreases k
  {
    if i < k - 1 {
      BytePositions(n / 256, k - 1, i);
      DivTwice(n, 256, Pow256(k - 2 - i));
    }
  }

  lemma DivTwice(n: nat, a: nat, b: nat)
    requires a > 0 && b > 0
    ensures a * b > 0 && n / a / b == n / (a * b)
  {
    var x := n / a;
    Nested(n, a, b, x, n % a, x / b, x % b);
    QuotientIs(n, a * b, x / b, a * (x % b) + n % a);
  }

  /** Two divisions in terms of one. */
  lemma Nested(n: nat, a: nat, b: nat, x: nat, s: nat, q: nat, r: nat)
    requires n == a * x + s && s < a && x == b * q + r && r < b
    ensures a * r + s < a * b && n == (a * b) * q + (a * r + s)
  {
    MulMono(a, r, b - 1);
    Distributes(a, b - 1, 1);
    Distributes(a, b * q, r);
    Associates(a, b, q);
  }

  lemma Distributes(a: int, x: int, y: int)
    ensures a * (x + y) == a * x + a * y
  {
  }

  lemma Associates(a: int, x: int, y: int)
    ensures a * (x * y) == (a * x) * y
  {
  }

  lemma {:induction false} MulMono(a: nat, x: nat, y: nat)
    requires x <= y
    ensures a * x <= a * y
    decreases y
  {
    if x < y { MulMono(a, x, y - 1); }
  }

  lemma QuotientIs(x: nat, d: nat, q: nat, r: nat)
    requires d > 0 && r < d && x == d * q + r
    ensures x / d == q
  {
    var p := x / d;
    assert x == d * p + x % d;
    if p < q { MulMono(d, p + 1, q); } else if q < p { MulMono(d, q + 1, p); }
  }

  lemma Be16Bytes(n: U16)
    ensures Be16(n) == [n / 0x100, n % 0x100]
  {
    var a := n / 0x100;
    assert a % 0x100 == a;
    assert BigEndian(a / 0x100, 0) == [];
    assert BigEndian(a, 1) == [a];
  }

  lemma Be32Bytes(n: U32)
    ensures Be32(n) == [n / 0x100_0000, n / 0x1_0000 % 0x100, n / 0x100 % 0x100, n % 0x100]
  {
    var a := n / 0x100;
    var b := a / 0x100;
    var c := b / 0x100;
    assert b == n / 0x1_0000 && c == n / 0x100_0000;
    assert c % 0x100 == c;
    assert BigEndian(c / 0x100, 0) == [];
    assert BigEndian(c, 1) == [c];
    assert BigEndian(b, 2) == [c, b % 0x100];
    assert BigEndian(a, 3) == [c, b % 0x100, a % 0x100];
  }

  function Word16(high: int, low: int): int { 0x100 * high + low }

  function Word32(a: int, b: int, c: int, d: int): int { 0x100_0000 * a + 0x1_0000 * b + 0x100 * c + d }

  lemma Read16Bytes(s: seq<Byte>, i: nat)
    requires i + 2 <= |s|
    ensures Read16(s, i) == Word16(s[i], s[i + 1])
  {
    var t := s[i..i + 2];
    assert t[..1] == [s[i]] && [s[i]][..0] == [] && FromBigEndian([s[i]]) == s[i];
  }

  lemma Read32Bytes(s: seq<Byte>, i: nat)
    requires i + 4 <= |s|
    ensures Read32(s, i) == Word32(s[i], s[i + 1], s[i + 2], s[i + 3])
  {
    var t := s[i..i + 4];
    assert t[..3][..2] == t[..2] && t[..2][..1] == t[..1] == [s[i]] && t[..1][..0] == [];
    assert FromBigEndian(t[..1]) == s[i];
    assert FromBigEndian(t[..2]) == Word16(s[i], s[i + 1]);
    assert FromBigEndian(t[..3]) == Word16(FromBigEndian(t[..2]), s[i + 2]);
  }

  function Zeros(n: nat): (r: seq<Byte>)
    ensures |r| == n && forall i :: 0 <= i < n ==> r[i] == 0
  {
    seq(n, _ => 0)
  }

  /** The bytes of an ASCII literal. */
  function Ascii(s: string): (r: seq<Byte>)
    requires forall i :: 0 <= i < |s| ==> s[i] < 128 as char
    ensures |r| == |s| && forall i :: 0 <= i < |s| ==> r[i] == s[i] as int
  {
    seq(|s|, i requires 0 <= i < |s| => s[i] as int)
  }
}
