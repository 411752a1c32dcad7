/**
 The constants and operations of the hash (quantra-ramfs/src/measured_boot.rs)
 pinned from outside: roots of the first 64 primes (sections 4.2.2 and 5.3.3 of
 FIPS 180-4), operations on bits, and the first round on the message "abc".
 */
module Sha256Constants {
  import opened Bytes
  import opened Sha256

  /** x is the first 32 fractional bits of the square root of p, whose whole part is a. */
  predicate SquareRoot(p: nat, a: nat, x: nat) {
    var low, high := a * 0x1_0000_0000 + x, a * 0x1_0000_0000 + x + 1;
    low * low <= p * 0x1_0000_0000_0000_0000 < high * high && x < 0x1_0000_0000
  }

  /** The same for the cube root. */
  predicate CubeRoot(p: nat, a: nat, x: nat) {
    var low, high := a * 0x1_0000_0000 + x, a * 0x1_0000_0000 + x + 1;
    low * low * low <= p * 0x1_0000_0000_0000_0000_0000_0000 < high * high * high && x < 0x1_0000_0000
  }

  lemma InitialValues()
    ensures SquareRoot(2, 1, H0.a) && SquareRoot(3, 1, H0.b)
    ensures SquareRoot(5, 2, H0.c) && SquareRoot(7, 2, H0.d)
    ensures SquareRoot(11, 3, H0.e) && SquareRoot(13, 3, H0.f)
    ensures SquareRoot(17, 4, H0.g) && SquareRoot(19, 4, H0.h)
  {
    assert SquareRoot(2, 1, 0x6a09e667) && SquareRoot(3, 1, 0xbb67ae85);
    assert SquareRoot(5, 2, 0x3c6ef372) && SquareRoot(7, 2, 0xa54ff53a);
    assert SquareRoot(11, 3, 0x510e527f) && SquareRoot(13, 3, 0x9b05688c);
    assert SquareRoot(17, 4, 0x1f83d9ab) && SquareRoot(19, 4, 0x5be0cd19);
    hide SquareRoot;
  }

  lemma Cubes0()
    ensures CubeRoot(2, 1, 0x428a2f98) && CubeRoot(3, 1, 0x71374491)
    ensures CubeRoot(5, 1, 0xb5c0fbcf) && CubeRoot(7, 1, 0xe9b5dba5)
    ensures CubeRoot(11, 2, 0x3956c25b) && CubeRoot(13, 2, 0x59f111f1)
    ensures CubeRoot(17, 2, 0x923f82a4) && CubeRoot(19, 2, 0xab1c5ed5)
  {
  }

  lemma RoundConstants0()
    ensures CubeRoot(2, 1, K[0]) && CubeRoot(3, 1, K[1])
    ensures CubeRoot(5, 1, K[2]) && CubeRoot(7, 1, K[3])
    ensures CubeRoot(11, 2, K[4]) && CubeRoot(13, 2, K[5])
    ensures CubeRoot(17, 2, K[6]) && CubeRoot(19, 2, K[7])
  {
    hide CubeRoot;
    Cubes0();
  }

  lemma Cubes1()
    ensures CubeRoot(23, 2, 0xd807aa98) && CubeRoot(29, 3, 0x12835b01)
    ensures CubeRoot(31, 3, 0x243185be) && CubeRoot(37, 3, 0x550c7dc3)
    ensures CubeRoot(41, 3, 0x72be5d74) && CubeRoot(43, 3, 0x80deb1fe)
    ensures CubeRoot(47, 3, 0x9bdc06a7) && CubeRoot(53, 3, 0xc19bf174)
  {
  }

  lemma RoundConstants1()
    ensures CubeRoot(23, 2, K[8]) && CubeRoot(29, 3, K[9])
    ensures CubeRoot(31, 3, K[10]) && CubeRoot(37, 3, K[11])
    ensures CubeRoot(41, 3, K[12]) && CubeRoot(43, 3, K[13])
    ensures CubeRoot(47, 3, K[14]) && CubeRoot(53, 3, K[15])
  {
    hide CubeRoot;
    Cubes1();
  }

  lemma Cubes2()
    ensures CubeRoot(59, 3, 0xe49b69c1) && CubeRoot(61, 3, 0xefbe4786)
    ensures CubeRoot(67, 4, 0x0fc19dc6) && CubeRoot(71, 4, 0x240ca1cc)
    ensures CubeRoot(73, 4, 0x2de92c6f) && CubeRoot(79, 4, 0x4a7484aa)
    ensures CubeRoot(83, 4, 0x5cb0a9dc) && CubeRoot(89, 4, 0x76f988da)
  {
  }

  lemma RoundConstants2()
    ensures CubeRoot(59, 3, K[16]) && CubeRoot(61, 3, K[17])
    ensures CubeRoot(67, 4, K[18]) && CubeRoot(71, 4, K[19])
    ensures CubeRoot(73, 4, K[20]) && CubeRoot(79, 4, K[21])
    ensures CubeRoot(83, 4, K[22]) && CubeRoot(89, 4, K[23])
  {
    hide CubeRoot;
    Cubes2();
  }

  lemma Cubes3()
    ensures CubeRoot(97, 4, 0x983e5152) && CubeRoot(101, 4, 0xa831c66d)
    ensures CubeRoot(103, 4, 0xb00327c8) && CubeRoot(107, 4, 0xbf597fc7)
    ensures CubeRoot(109, 4, 0xc6e00bf3) && CubeRoot(113, 4, 0xd5a79147)
    ensures CubeRoot(127, 5, 0x06ca6351) && CubeRoot(131, 5, 0x14292967)
  {
  }

  lemma RoundConstants3()
    ensures CubeRoot(97, 4, K[24]) && CubeRoot(101, 4, K[25])
    ensures CubeRoot(103, 4, K[26]) && CubeRoot(107, 4, K[27])
    ensures CubeRoot(109, 4, K[28]) && CubeRoot(113, 4, K[29])
    ensures CubeRoot(127, 5, K[30]) && CubeRoot(131, 5, K[31])
  {
    hide CubeRoot;
    Cubes3();
  }

  lemma Cubes4()
    ensures CubeRoot(137, 5, 0x27b70a85) && CubeRoot(139, 5, 0x2e1b2138)
    ensures CubeRoot(149, 5, 0x4d2c6dfc) && CubeRoot(151, 5, 0x53380d13)
    ensures CubeRoot(157, 5, 0x650a7354) && CubeRoot(163, 5, 0x766a0abb)
    ensures CubeRoot(167, 5, 0x81c2c92e) && CubeRoot(173, 5, 0x92722c85)
  {
  }

  lemma RoundConstants4()
    ensures CubeRoot(137, 5, K[32]) && CubeRoot(139, 5, K[33])
    ensures CubeRoot(149, 5, K[34]) && CubeRoot(151, 5, K[35])
    ensures CubeRoot(157, 5, K[36]) && CubeRoot(163, 5, K[37])
    ensures CubeRoot(167, 5, K[38]) && CubeRoot(173, 5, K[39])
  {
    hide CubeRoot;
    Cubes4();
  }

  lemma Cubes5()
    ensures CubeRoot(179, 5, 0xa2bfe8a1) && CubeRoot(181, 5, 0xa81a664b)
    ensures CubeRoot(191, 5, 0xc24b8b70) && CubeRoot(193, 5, 0xc76c51a3)
    ensures CubeRoot(197, 5, 0xd192e819) && CubeRoot(199, 5, 0xd6990624)
    ensures CubeRoot(211, 5, 0xf40e3585) && CubeRoot(223, 6, 0x106aa070)
  {
  }

  lemma RoundConstants5()
    ensures CubeRoot(179, 5, K[40]) && CubeRoot(181, 5, K[41])
    ensures CubeRoot(191, 5, K[42]) && CubeRoot(193, 5, K[43])
    ensures CubeRoot(197, 5, K[44]) && CubeRoot(199, 5, K[45])
    ensures CubeRoot(211, 5, K[46]) && CubeRoot(223, 6, K[47])
  {
    hide CubeRoot;
    Cubes5();
  }

  lemma Cubes6()
    ensures CubeRoot(227, 6, 0x19a4c116) && CubeRoot(229, 6, 0x1e376c08)
    ensures CubeRoot(233, 6, 0x2748774c) && CubeRoot(239, 6, 0x34b0bcb5)
    ensures CubeRoot(241, 6, 0x391c0cb3) && CubeRoot(251, 6, 0x4ed8aa4a)
    ensures CubeRoot(257, 6, 0x5b9cca4f) && CubeRoot(263, 6, 0x682e6ff3)
  {
  }

  lemma RoundConstants6()
    ensures CubeRoot(227, 6, K[48]) && CubeRoot(229, 6, K[49])
    ensures CubeRoot(233, 6, K[50]) && CubeRoot(239, 6, K[51])
    ensures CubeRoot(241, 6, K[52]) && CubeRoot(251, 6, K[53])
    ensures CubeRoot(257, 6, K[54]) && CubeRoot(263, 6, K[55])
  {
    hide CubeRoot;
    Cubes6();
  }

  lemma Cubes7()
    ensures CubeRoot(269, 6, 0x748f82ee) && CubeRoot(271, 6, 0x78a5636f)
    ensures CubeRoot(277, 6, 0x84c87814) && CubeRoot(281, 6, 0x8cc70208)
    ensures CubeRoot(283, 6, 0x90befffa) && CubeRoot(293, 6, 0xa4506ceb)
    ensures CubeRoot(307, 6, 0xbef9a3f7) && CubeRoot(311, 6, 0xc67178f2)
  {
  }

  lemma RoundConstants7()
    ensures CubeRoot(269, 6, K[56]) && CubeRoot(271, 6, K[57])
    ensures CubeRoot(277, 6, K[58]) && CubeRoot(281, 6, K[59])
    ensures CubeRoot(283, 6, K[60]) && CubeRoot(293, 6, K[61])
    ensures CubeRoot(307, 6, K[62]) && CubeRoot(311, 6, K[63])
  {
    hide CubeRoot;
    Cubes7();
  }

  /** The operations on bits: all four cases of a bit, and which way things move. */
  lemma Operations()
    ensures And(12, 10) == 8 && Xor(12, 10) == 6 && Not(0) == 0xffff_ffff && Not(0xffff_fff5) == 10
    ensures Rotr(1, 1) == 0x8000_0000 && Rotr(0x8000_0001, 4) == 0x1800_0000 && Shr(0x8000_0001, 4) == 0x0800_0000
    ensures Add(0xffff_ffff, 2) == 1
  {
  }

  lemma SigmaOne()
    ensures BigSigma1(0x510e527f) == 0x3587272b
  {
    assert Rotr(0x510e527f, 6) == 0xfd443949 && Rotr(0x510e527f, 11) == 0x4fea21ca
        && Rotr(0x510e527f, 25) == 0x87293fa8;
    assert Xor(0xfd443949, 0x4fea21ca) == 0xb2ae1883 && Xor(0xb2ae1883, 0x87293fa8) == 0x3587272b;
    hide Rotr, Xor;
  }

  lemma SigmaZero()
    ensures BigSigma0(0x6a09e667) == 0xce20b47e
  {
    assert Rotr(0x6a09e667, 2) == 0xda827999 && Rotr(0x6a09e667, 13) == 0x333b504f
        && Rotr(0x6a09e667, 22) == 0x27999da8;
    assert Xor(0xda827999, 0x333b504f) == 0xe9b929d6 && Xor(0xe9b929d6, 0x27999da8) == 0xce20b47e;
    hide Rotr, Xor;
  }

  lemma Choice()
    ensures Ch(0x510e527f, 0x9b05688c, 0x1f83d9ab) == 0x1f85c98c
  {
    assert And(0x510e527f, 0x9b05688c) == 0x1104400c && Not(0x510e527f) == 0xaef1ad80
        && And(0xaef1ad80, 0x1f83d9ab) == 0x0e818980;
    assert Xor(0x1104400c, 0x0e818980) == 0x1f85c98c;
    hide And, Not, Xor;
  }

  lemma Majority()
    ensures Maj(0x6a09e667, 0xbb67ae85, 0x3c6ef372) == 0x3a6fe667
  {
    assert And(0x6a09e667, 0xbb67ae85) == 0x2a01a605 && And(0x6a09e667, 0x3c6ef372) == 0x2808e262
        && And(0xbb67ae85, 0x3c6ef372) == 0x3866a200;
    assert Xor(0x2a01a605, 0x2808e262) == 0x02094467 && Xor(0x02094467, 0x3866a200) == 0x3a6fe667;
    hide And, Xor;
  }

  /** The small sigmas on the first word of the padded "abc". */
  lemma ScheduleSigmas()
    ensures SmallSigma0(0x61626380) == 0x940e90ef
    ensures SmallSigma1(0x61626380) == 0x7da86405
  {
    assert Rotr(0x61626380, 7) == 0x00c2c4c7 && Rotr(0x61626380, 18) == 0x98e01858 && Shr(0x61626380, 3) == 0x0c2c4c70;
    assert Xor(0x00c2c4c7, 0x98e01858) == 0x9822dc9f && Xor(0x9822dc9f, 0x0c2c4c70) == 0x940e90ef;
    assert Rotr(0x61626380, 17) == 0x31c030b1 && Rotr(0x61626380, 19) == 0x4c700c2c
        && Shr(0x61626380, 10) == 0x00185898;
    assert Xor(0x31c030b1, 0x4c700c2c) == 0x7db03c9d && Xor(0x7db03c9d, 0x00185898) == 0x7da86405;
    hide Rotr, Shr, Xor;
  }

  lemma Sums()
    ensures Add(0x5be0cd19, 0x3587272b) == 0x9167f444 && Add(0x9167f444, 0x1f85c98c) == 0xb0edbdd0
    ensures Add(0xb0edbdd0, 0x428a2f98) == 0xf377ed68 && Add(0xf377ed68, 0x61626380) == 0x54da50e8
    ensures Add(0xce20b47e, 0x3a6fe667) == 0x08909ae5 && Add(0x54da50e8, 0x08909ae5) == 0x5d6aebcd
        && Add(0xa54ff53a, 0x54da50e8) == 0xfa2a4622
  {
  }

  /** The first step of the compression of "abc". */
  lemma FirstRound()
    ensures Round(H0, 0x428a2f98, 0x61626380) ==
            State(0x5d6aebcd, 0x6a09e667, 0xbb67ae85, 0x3c6ef372,
                  0xfa2a4622, 0x510e527f, 0x9b05688c, 0x1f83d9ab)
  {
    SigmaOne();
    SigmaZero();
    Choice();
    Majority();
    Sums();
    hide BigSigma1, BigSigma0, Ch, Maj, Add;
  }
}
