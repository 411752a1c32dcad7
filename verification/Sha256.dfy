/**
 The hash of measured boot (quantra-ramfs/src/measured_boot.rs) against a
 functional reading of FIPS 180-4.

 `Fips*` is the standard: padding (section 5.1.1), parsing (5.2.1), the message
 schedule and the compression function (6.2.2), written as recurrences.
 `Sha256` is the source's loop over an in-place schedule and state.
 */
module Sha256 {
  import opened Bytes

  type Word = U32

  // --------------------------------------------------- FIPS 180-4, section 3

  /** Addition modulo 2^32 (`wrapping_add`). */
  function Add(x: Word, y: Word): Word { (x + y) % 0x1_0000_0000 }
  function And(x: Word, y: Word): Word { ((x as bv32) & (y as bv32)) as int }
  function Xor(x: Word, y: Word): Word { ((x as bv32) ^ (y as bv32)) as int }
  function Not(x: Word): Word { (!(x as bv32)) as int }
  function Rotr(x: Word, n: nat): Word requires n <= 32 { (x as bv32).RotateRight(n) as int }
  function Shr(x: Word, n: nat): Word requires n <= 32 { ((x as bv32) >> n) as int }

  // --------------------------------------------------- FIPS 180-4, section 4

  function Ch(x: Word, y: Word, z: Word): Word { Xor(And(x, y), And(Not(x), z)) }
  function Maj(x: Word, y: Word, z: Word): Word { Xor(Xor(And(x, y), And(x, z)), And(y, z)) }
  function BigSigma0(x: Word): Word { Xor(Xor(Rotr(x, 2), Rotr(x, 13)), Rotr(x, 22)) }
  function BigSigma1(x: Word): Word { Xor(Xor(Rotr(x, 6), Rotr(x, 11)), Rotr(x, 25)) }
  function SmallSigma0(x: Word): Word { Xor(Xor(Rotr(x, 7), Rotr(x, 18)), Shr(x, 3)) }
  function SmallSigma1(x: Word): Word { Xor(Xor(Rotr(x, 17), Rotr(x, 19)), Shr(x, 10)) }

  const K: seq<Word> :=
    [0x428a2f98, 0x71374491, 0xb5c0fbcf, 0xe9b5dba5, 0x3956c25b, 0x59f111f1, 0x923f82a4, 0xab1c5ed5] +
    [0xd807aa98, 0x12835b01, 0x243185be, 0x550c7dc3, 0x72be5d74, 0x80deb1fe, 0x9bdc06a7, 0xc19bf174] +
    [0xe49b69c1, 0xefbe4786, 0x0fc19dc6, 0x240ca1cc, 0x2de92c6f, 0x4a7484aa, 0x5cb0a9dc, 0x76f988da] +
    [0x983e5152, 0xa831c66d, 0xb00327c8, 0xbf597fc7, 0xc6e00bf3, 0xd5a79147, 0x06ca6351, 0x14292967] +
    [0x27b70a85, 0x2e1b2138, 0x4d2c6dfc, 0x53380d13, 0x650a7354, 0x766a0abb, 0x81c2c92e, 0x92722c85] +
    [0xa2bfe8a1, 0xa81a664b, 0xc24b8b70, 0xc76c51a3, 0xd192e819, 0xd6990624, 0xf40e3585, 0x106aa070] +
    [0x19a4c116, 0x1e376c08, 0x2748774c, 0x34b0bcb5, 0x391c0cb3, 0x4ed8aa4a, 0x5b9cca4f, 0x682e6ff3] +
    [0x748f82ee, 0x78a5636f, 0x84c87814, 0x8cc70208, 0x90befffa, 0xa4506ceb, 0xbef9a3f7, 0xc67178f2]

  datatype State = State(a: Word, b: Word, c: Word, d: Word, e: Word, f: Word, g: Word, h: Word)

  const H0 := State(0x6a09e667, 0xbb67ae85, 0x3c6ef372, 0xa54ff53a, 0x510e527f, 0x9b05688c, 0x1f83d9ab, 0x5be0cd19)

  // --------------------------------------------------- FIPS 180-4, section 5

  const MAX_BYTES: nat := 0x2000_0000_0000_0000

  /** The smallest k with l + 1 + k congruent to 448 bits, in bytes. */
  function PadZeros(len: nat): (k: nat)
    ensures k < 64 && (len + 1 + k) % 64 == 56 && (len + 9 + k) % 64 == 0
  {
    (119 - len % 64) % 64
  }

  function FipsPad(m: seq<Byte>): (r: seq<Byte>)
    requires |m| < MAX_BYTES
    ensures |r| % 64 == 0 && |r| >= 64
  {
    m + [0x80] + Zeros(PadZeros(|m|)) + Be64(8 * |m|)
  }

  function WordAt(block: seq<Byte>, i: nat): Word
    requires 4 * i + 4 <= |block|
  {
    Read32(block, 4 * i)
  }

  // ------------------------------------------------- FIPS 180-4, section 6.2

  /** W_t of the message schedule. */
  function Schedule(block: seq<Byte>, t: nat): Word
    requires |block| == 64
  {
    if t < 16 then WordAt(block, t)
    else Add(Add(Add(SmallSigma1(Schedule(block, t - 2)), Schedule(block, t - 7)),
                 SmallSigma0(Schedule(block, t - 15))), Schedule(block, t - 16))
  }

  /** One step of the compression function. */
  function Round(s: State, k: Word, w: Word): State {
    var t1 := Add(Add(Add(Add(s.h, BigSigma1(s.e)), Ch(s.e, s.f, s.g)), k), w);
    var t2 := Add(BigSigma0(s.a), Maj(s.a, s.b, s.c));
    State(Add(t1, t2), s.a, s.b, s.c, Add(s.d, t1), s.e, s.f, s.g)
  }

  /** The working variables after t steps. */
  function Rounds(s: State, block: seq<Byte>, t: nat): State
    requires |block| == 64 && t <= 64
  {
    if t == 0 then s else Round(Rounds(s, block, t - 1), K[t - 1], Schedule(block, t - 1))
  }

  function AddStates(x: State, y: State): State {
    State(Add(x.a, y.a), Add(x.b, y.b), Add(x.c, y.c), Add(x.d, y.d),
          Add(x.e, y.e), Add(x.f, y.f), Add(x.g, y.g), Add(x.h, y.h))
  }

  function Compress(s: State, block: seq<Byte>): State
    requires |block| == 64
  {
    AddStates(s, Rounds(s, block, 64))
  }

  /** The hash value after the first n blocks. */
  function HashBlocks(msg: seq<Byte>, n: nat): State
    requires 64 * n <= |msg|
  {
    if n == 0 then H0 else Compress(HashBlocks(msg, n - 1), msg[64 * (n - 1)..64 * n])
  }

  function WordBytes(w: Word): (r: seq<Byte>)
    ensures |r| == 4
  {
    Be32(w)
  }

  function ConcatWords(ws: seq<Word>): (r: seq<Byte>)
    ensures |r| == 4 * |ws|
  {
    if ws == [] then [] else ConcatWords(ws[..|ws| - 1]) + WordBytes(ws[|ws| - 1])
  }

  function Words(s: State): seq<Word> {
    [s.a, s.b, s.c, s.d, s.e, s.f, s.g, s.h]
  }

  function Digest(s: State): (r: seq<Byte>)
    ensures |r| == 32
  {
    ConcatWords(Words(s))
  }

  function FipsSha256(m: seq<Byte>): (r: seq<Byte>)
    requires |m| < MAX_BYTES
    ensures |r| == 32
  {
    var p := FipsPad(m);
    Digest(HashBlocks(p, |p| / 64))
  }

  // ---------------------------------------------------------------- padding

  /** No shorter run of zeros fills the last block. */
  lemma PaddingIsShortest(len: nat, k: nat)
    requires (len + 1 + k + 8) % 64 == 0
    ensures PadZeros(len) <= k
  {
  }

  lemma PaddingInjective(m1: seq<Byte>, m2: seq<Byte>)
    requires |m1| < MAX_BYTES && |m2| < MAX_BYTES
    requires FipsPad(m1) == FipsPad(m2)
    ensures m1 == m2
  {
    var p1, p2 := FipsPad(m1), FipsPad(m2);
    assert p1[|p1| - 8..] == Be64(8 * |m1|) && p2[|p2| - 8..] == Be64(8 * |m2|);
    assert m1 == p1[..|m1|] && m2 == p2[..|m2|];
  }

  // ---------------------------------------------------------- implementation

  method PadMessage(data: seq<Byte>) returns (msg: seq<Byte>)
    requires |data| < MAX_BYTES
    ensures msg == FipsPad(data)
  {
    var bitLen := |data| * 8;
    msg := data;
    msg := msg + [0x80];
    ghost var k := 0;
    while |msg| % 64 != 56
      invariant 0 <= k <= PadZeros(|data|)
      invariant msg == data + [0x80] + Zeros(k)
      decreases PadZeros(|data|) - k
    {
      assert |msg| == |data| + 1 + k;
      assert Zeros(k + 1) == Zeros(k) + [0];
      msg := msg + [0];
      k := k + 1;
    }
    OnlyPadding(|data|, k);
    msg := msg + Be64(bitLen);
  }

  lemma OnlyPadding(len: nat, k: nat)
    requires k <= PadZeros(len) && (len + 1 + k) % 64 == 56
    ensures k == PadZeros(len)
  {
    PaddingIsShortest(len, k);
  }

  method FillSchedule(chunk: seq<Byte>) returns (w: array<Word>)
    requires |chunk| == 64
    ensures fresh(w) && w.Length == 64
    ensures forall t :: 0 <= t < 64 ==> w[t] == Schedule(chunk, t)
  {
    hide Add, Xor, Rotr, Shr;
    w := new Word[64](_ => 0);
    for i := 0 to 16
      invariant forall t :: 0 <= t < i ==> w[t] == Schedule(chunk, t)
    {
      w[i] := Read32(chunk, i * 4);
    }
    for i := 16 to 64
      invariant forall t :: 0 <= t < i ==> w[t] == Schedule(chunk, t)
    {
      var s0 := Xor(Xor(Rotr(w[i - 15], 7), Rotr(w[i - 15], 18)), Shr(w[i - 15], 3));
      var s1 := Xor(Xor(Rotr(w[i - 2], 17), Rotr(w[i - 2], 19)), Shr(w[i - 2], 10));
      Reorder(w[i - 16], s0, w[i - 7], s1);
      w[i] := Add(Add(Add(w[i - 16], s0), w[i - 7]), s1);
    }
  }

  /** The source adds the four terms in the opposite order. */
  lemma Reorder(p: Word, q: Word, r: Word, s: Word)
    ensures Add(Add(Add(p, q), r), s) == Add(Add(Add(s, r), q), p)
  {
    AddMod(p + q, r);
    AddMod(p + q + r, s);
    AddMod(s + r, q);
    AddMod(s + r + q, p);
  }

  lemma AddMod(x: nat, y: Word)
    ensures Add(x % 0x1_0000_0000, y) == (x + y) % 0x1_0000_0000
  {
    ModShift(x + y, x / 0x1_0000_0000);
  }

  lemma ModShift(x: nat, k: nat)
    requires 0x1_0000_0000 * k <= x
    ensures (x - 0x1_0000_0000 * k) % 0x1_0000_0000 == x % 0x1_0000_0000
  {
  }

  /** One 64-byte chunk: the working variables are shifted in place 64 times, then added to h. */
  method CompressChunk(h: array<Word>, chunk: seq<Byte>, ghost before: State)
    requires |chunk| == 64 && h.Length == 8
    requires Holds(h[..], before)
    modifies h
    ensures Holds(h[..], Compress(before, chunk))
  {
    hide Add, And, Xor, Not, Rotr, Schedule;
    var w := FillSchedule(chunk);
    var a, b, c, d, e, f, g, hh := h[0], h[1], h[2], h[3], h[4], h[5], h[6], h[7];
    for i := 0 to 64
      invariant State(a, b, c, d, e, f, g, hh) == Rounds(before, chunk, i)
      invariant Holds(h[..], before)
    {
      var s1 := Xor(Xor(Rotr(e, 6), Rotr(e, 11)), Rotr(e, 25));
      var ch := Xor(And(e, f), And(Not(e), g));
      var t1 := Add(Add(Add(Add(hh, s1), ch), K[i]), w[i]);
      var s0 := Xor(Xor(Rotr(a, 2), Rotr(a, 13)), Rotr(a, 22));
      var maj := Xor(Xor(And(a, b), And(a, c)), And(b, c));
      var t2 := Add(s0, maj);
      hh := g;
      g := f;
      f := e;
      e := Add(d, t1);
      d := c;
      c := b;
      b := a;
      a := Add(t1, t2);
    }
    h[0] := Add(h[0], a);
    h[1] := Add(h[1], b);
    h[2] := Add(h[2], c);
    h[3] := Add(h[3], d);
    h[4] := Add(h[4], e);
    h[5] := Add(h[5], f);
    h[6] := Add(h[6], g);
    h[7] := Add(h[7], hh);
  }

  ghost predicate Holds(h: seq<Word>, s: State) {
    h == Words(s)
  }

  method Sha256(data: seq<Byte>) returns (out: seq<Byte>)
    requires |data| < MAX_BYTES
    ensures out == FipsSha256(data)
  {
    hide Compress, Digest;
    var h := new Word[8]
      [0x6a09e667, 0xbb67ae85, 0x3c6ef372, 0xa54ff53a, 0x510e527f, 0x9b05688c, 0x1f83d9ab, 0x5be0cd19];
    var msg := PadMessage(data);
    var i := 0;
    while i < |msg| / 64
      invariant 0 <= i <= |msg| / 64
      invariant Holds(h[..], HashBlocks(msg, i))
    {
      CompressChunk(h, msg[64 * i..64 * i + 64], HashBlocks(msg, i));
      i := i + 1;
    }
    out := WriteWords(h, HashBlocks(msg, i));
  }

  method WriteWords(h: array<Word>, ghost s: State) returns (out: seq<Byte>)
    requires Holds(h[..], s)
    ensures out == Digest(s)
  {
    out := [];
    for i := 0 to h.Length
      invariant out == ConcatWords(h[..i])
    {
      assert h[..i + 1] == h[..i] + [h[i]];
      out := out + WordBytes(h[i]);
    }
    assert h[..h.Length] == h[..];
  }
}
