/** Lower-case hex encoding and the root-hash decoder (quantra-ramfs/src/verity.rs). */
module Hex {
  import opened Bytes
  import opened Optional

  datatype DecodeResult = Decoded(bytes: seq<Byte>) | WrongLength(len: nat) | InvalidChar(c: Byte)

  function HexDigit(n: nat): (c: Byte)
    requires n < 16
  {
    if n < 10 then 48 + n else 87 + n
  }

  /** `hex_nibble`: both cases are accepted. */
  function HexNibble(c: Byte): (r: Option<nat>)
    ensures r.Some? ==> r.value < 16
  {
    if 48 <= c <= 57 then Some(c - 48)
    else if 97 <= c <= 102 then Some(c - 97 + 10)
    else if 65 <= c <= 70 then Some(c - 65 + 10)
    else None
  }

  /** The sixteen digits, and both cases of the letters. */
  lemma DigitTexts(n: nat)
    requires n < 16
    ensures HexDigit(n) == "0123456789abcdef"[n] as int
    ensures HexNibble("0123456789abcdef"[n] as int) == Some(n) == HexNibble("0123456789ABCDEF"[n] as int)
  {
    assert "0123456789abcdef"[10] == 'a' && "0123456789ABCDEF"[10] == 'A';
  }

  function Lower(c: Byte): Byte { if 65 <= c <= 90 then c + 32 else c }

  function LowerAll(s: seq<Byte>): (r: seq<Byte>)
    ensures |r| == |s|
  {
    seq(|s|, i requires 0 <= i < |s| => Lower(s[i]))
  }

  /** The two characters of every byte, by position. */
  ghost predicate IsHexOf(s: seq<Byte>, bytes: seq<Byte>) {
    && |s| == 2 * |bytes|
    && forall i {:trigger bytes[i]} :: 0 <= i < |bytes| ==>
      s[2 * i] == HexDigit(bytes[i] / 16) && s[2 * i + 1] == HexDigit(bytes[i] % 16)
  }

  method EncodeHex(bytes: seq<Byte>) returns (s: seq<Byte>)
    ensures IsHexOf(s, bytes)
  {
    s := [];
    for k := 0 to |bytes|
      invariant IsHexOf(s, bytes[..k])
    {
      var b := bytes[k];
      s := s + [HexDigit(b / 16)];
      s := s + [HexDigit(b % 16)];
      assert bytes[..k + 1] == bytes[..k] + [b];
    }
    assert bytes[..|bytes|] == bytes;
  }

  /** `decode_roothash` on the trimmed text: stops at the first bad character. */
  method DecodeRootHash(hex: seq<Byte>) returns (r: DecodeResult)
    ensures r.WrongLength? <==> |hex| != 64
    ensures r.Decoded? ==> |r.bytes| == 32 && IsHexOf(LowerAll(hex), r.bytes)
    ensures r.Decoded? <==> |hex| == 64 && forall i :: 0 <= i < 64 ==> HexNibble(hex[i]).Some?
    ensures r.InvalidChar? ==>
              exists i ::
                && 0 <= i < 64 && hex[i] == r.c && HexNibble(r.c).None?
                && forall j :: 0 <= j < i ==> HexNibble(hex[j]).Some?
  {
    if |hex| != 64 {
      return WrongLength(|hex|);
    }
    var out := new Byte[32](_ => 0);
    for i := 0 to 32
      invariant forall j :: 0 <= j < 2 * i ==> HexNibble(hex[j]).Some?
      invariant forall j {:trigger out[j]} :: 0 <= j < i ==>
                  HexDigit(out[j] / 16) == Lower(hex[2 * j]) && HexDigit(out[j] % 16) == Lower(hex[2 * j + 1])
    {
      var hi := HexNibble(hex[2 * i]);
      if hi.None? { return InvalidChar(hex[2 * i]); }
      var lo := HexNibble(hex[2 * i + 1]);
      if lo.None? { return InvalidChar(hex[2 * i + 1]); }
      out[i] := hi.value * 16 + lo.value;
    }
    return Decoded(out[..]);
  }

  /** Hex text determines the bytes, so a decoded value is the one that was printed. */
  lemma HexDetermines(s: seq<Byte>, a: seq<Byte>, b: seq<Byte>)
    requires IsHexOf(s, a) && IsHexOf(s, b)
    ensures a == b
  {
    forall i | 0 <= i < |a|
      ensures a[i] == b[i]
    {
      assert HexNibble(HexDigit(a[i] / 16)) == Some(a[i] / 16) && HexNibble(HexDigit(a[i] % 16)) == Some(a[i] % 16);
      assert HexNibble(HexDigit(b[i] / 16)) == Some(b[i] / 16) && HexNibble(HexDigit(b[i] % 16)) == Some(b[i] % 16);
    }
  }

  /** Encoding then decoding a 32-byte hash returns it. */
  method RoundTrip(hash: seq<Byte>) returns (r: DecodeResult)
    requires |hash| == 32
    ensures r == Decoded(hash)
  {
    var s := EncodeHex(hash);
    r := DecodeRootHash(s);
    forall i | 0 <= i < 64
      ensures HexNibble(s[i]).Some? && Lower(s[i]) == s[i]
    {
      var b := hash[i / 2];
      assert s[i] == HexDigit(if i % 2 == 0 then b / 16 else b % 16) by {
        assert i == 2 * (i / 2) + i % 2;
      }
    }
    assert LowerAll(s) == s;
    HexDetermines(s, r.bytes, hash);
  }

  /** The text of a value, as a function. */
  function HexText(bytes: seq<Byte>): (s: seq<Byte>)
    ensures IsHexOf(s, bytes)
  {
    seq(2 * |bytes|, i requires 0 <= i < 2 * |bytes| =>
      HexDigit(if i % 2 == 0 then bytes[i / 2] / 16 else bytes[i / 2] % 16))
  }

  lemma HexTextUnique(s: seq<Byte>, t: seq<Byte>, bytes: seq<Byte>)
    requires IsHexOf(s, bytes) && IsHexOf(t, bytes)
    ensures s == t
  {
    forall i | 0 <= i < |s|
      ensures s[i] == t[i]
    {
      var j := i / 2;
      var b := bytes[j];
      assert s[2 * j] == t[2 * j] && s[2 * j + 1] == t[2 * j + 1];
      assert i == 2 * j || i == 2 * j + 1;
    }
  }
}
