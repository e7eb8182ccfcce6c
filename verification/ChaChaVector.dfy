/** The keystream block for a key, nonce and counter of zero: the first test vector of appendix A.1 of RFC 8439. */
module ChaChaVector {
  import opened Bytes
  import opened ChaCha

  // The words before the rounds, and after each of the twenty.

  const S0: seq<Word> :=
    [0x61707865, 0x3320646e, 0x79622d32, 0x6b206574, 0x00000000, 0x00000000, 0x00000000, 0x00000000,
     0x00000000, 0x00000000, 0x00000000, 0x00000000, 0x00000000, 0x00000000, 0x00000000, 0x00000000]
  const S1: seq<Word> :=
    [0xb7877feb, 0x16526ab4, 0xa0f85005, 0xb1d26bcb, 0x4a7d5c86, 0xfae0ea21, 0x66e11e68, 0xe3a851a6,
     0x5a83fd3f, 0xa0c7c792, 0xf75be0ef, 0x0b7556f4, 0xe21e9bcf, 0x3c599472, 0xca29678d, 0xa600ebd4]
  const S2: seq<Word> :=
    [0xe45fd249, 0x1bb820a6, 0xe31a88ea, 0xe667a9fe, 0x2a3bf673, 0x86bf4098, 0x460b500a, 0xfa169886,
     0x538dca0e, 0x0c439641, 0x00fa16bc, 0x8a08812a, 0x6bbf8b09, 0xc33013d6, 0xbb9f9849, 0x87c62165]
  const S3: seq<Word> :=
    [0x9c2fe493, 0xede870d7, 0xf8bd996f, 0xd7848403, 0x287e635e, 0x2643df1a, 0x2a5faac7, 0x65f2f4d2,
     0x31c4e711, 0x7f3d8827, 0x41c37f2e, 0x53cda496, 0x9a81b7df, 0x0011909f, 0x000bd5b8, 0x65e3bbb4]
  const S4: seq<Word> :=
    [0xb20e0da6, 0x21219e43, 0x79c69196, 0x8eb9d107, 0x28bfa54e, 0x0e8a389f, 0x7919a4b4, 0x323f2639,
     0x69727d19, 0x12e796ec, 0xd1875d88, 0x602bb1ec, 0x601c8a8d, 0x18cf3767, 0x60d10ebc, 0x17aa36ca]
  const S5: seq<Word> :=
    [0x13f7fb89, 0x9f18d690, 0x37910d80, 0x5be96878, 0x83ec4004, 0x911eb07e, 0x56bbff1b, 0xc2e1700f,
     0x302d9015, 0x924ec2ce, 0x721da0c8, 0x8575b3d8, 0x8e41582b, 0x9de1f47e, 0x679fb10f, 0x63bf2a9a]
  const S6: seq<Word> :=
    [0x0287a2a1, 0xd2dc39ef, 0xf2ecf51e, 0xc3876afe, 0x9276b821, 0x37ccb7a7, 0x1fe6c459, 0xe5f95617,
     0xd7b18523, 0xa0952ff2, 0x131f6ff5, 0x6f38a9cc, 0x5c427a5f, 0x1d928d7b, 0xf4d2b4da, 0x1a640884]
  const S7: seq<Word> :=
    [0x345e4165, 0xf9b1a43a, 0xcbeead69, 0xda3b3ee8, 0x43602812, 0x9efa8aca, 0x8126a76e, 0xf68a0869,
     0xbbd926f3, 0x7a3547b1, 0x6418bebc, 0xe35769c3, 0xc389d914, 0x5cb30085, 0x434b68c6, 0xaa8d0c13]
  const S8: seq<Word> :=
    [0xce7e87d9, 0xa31ffb1b, 0x6f562e4d, 0x3684a3ab, 0xc30e842c, 0x3b7f9ace, 0x88e11b18, 0x1e1a71ef,
     0x72e14c98, 0x416f21b9, 0x6753449f, 0x19566d45, 0xa3424a31, 0x01b086da, 0xb8fd7b38, 0x42fe0c0e]
  const S9: seq<Word> :=
    [0x5141c3a6, 0xa841fce6, 0x121e5a7a, 0x63c3a869, 0x592fefc8, 0xb2562f07, 0x96124e62, 0xc60f77c2,
     0x2f06e87e, 0xc6c6caa3, 0xdccb3589, 0x8aa88c20, 0x75f16917, 0x7223c9bb, 0x431ab020, 0x57be087a]
  const S10: seq<Word> :=
    [0x4e03490c, 0x97eebef9, 0xf682bb04, 0x2f47e3b0, 0x50b4761b, 0xea7c9cf0, 0xb3a3e583, 0xe5bad8a8,
     0x4f9f9d79, 0x44f52393, 0xabbfaf66, 0x5efd347a, 0xb1f55cb5, 0x05110aed, 0x561c5907, 0xd41d25b4]
  const S11: seq<Word> :=
    [0xfa61c55f, 0xd5eb33e1, 0xdf08d1f5, 0x47d5ce2d, 0x58f7f63e, 0x68c8b4eb, 0xc625d40c, 0x951cd101,
     0x271be9d4, 0x85ae4691, 0x2d6e7ac6, 0x31f92877, 0xf3ea1d19, 0xefb49b84, 0x882dcf26, 0x390f32de]
  const S12: seq<Word> :=
    [0x092a7c36, 0x20d8f099, 0x996bf24f, 0x6a62c0eb, 0xbbc32904, 0x1474e049, 0xa589007e, 0x5f15ae2e,
     0x79f86405, 0xc0e37ad2, 0x3428e82c, 0x798cfaac, 0x2c9f623a, 0x1969dea0, 0x2fe80b61, 0xbe261341]
  const S13: seq<Word> :=
    [0x6b44e4ed, 0x49b9ce97, 0x1e885b52, 0xd73ab9c8, 0xa969c811, 0xb1d3c46f, 0xc6105546, 0xbb210d2a,
     0x8505ec23, 0xcb085a3d, 0x521f482f, 0x58b408b5, 0x440c9fac, 0xfbe2b347, 0x244a4ee7, 0x62ce96ab]
  const S14: seq<Word> :=
    [0x6ddf4b98, 0x5fde0110, 0xd9ddb632, 0x7418250b, 0xdda3ea19, 0x46da35f5, 0x31fb36ca, 0x70e56323,
     0x46d58770, 0xc0c8e4e6, 0xba4b1657, 0xc4702b5e, 0xaf4ad6e3, 0xe6947902, 0x2681e5bb, 0x28344e52]
  const S15: seq<Word> :=
    [0x03e54529, 0x47c6ab85, 0xa3309c22, 0x7eadd7ce, 0xd42130ac, 0xdadd4db8, 0x0a083e56, 0xdbd83fe2,
     0xe1ca4d19, 0xd0bbce1b, 0x3b43bf5a, 0x5c07ffdf, 0xb7a1e0e0, 0xc1eba909, 0x77b17baa, 0xd11b07b8]
  const S16: seq<Word> :=
    [0xf6eb4385, 0x0f5070cf, 0x824ac4d4, 0xff026184, 0x71db97dd, 0x60cd994d, 0xad805036, 0x89d591ce,
     0x9e5243f3, 0x16d0ee25, 0x82e92b96, 0xd0da8654, 0x6b96a006, 0x477a37f7, 0xd244fa8c, 0xb24c5c63]
  const S17: seq<Word> :=
    [0x45d0c1e8, 0x8bea4d63, 0x375c5309, 0x6dea03ef, 0xb88c8389, 0xfd373c26, 0x47c90125, 0x2b92965f,
     0xce78ff81, 0x56362d3f, 0x4d1eaffd, 0x5b4535b1, 0xb4c2b83e, 0x017a07b6, 0xdaae86d8, 0xdb3974c2]
  const S18: seq<Word> :=
    [0x0a49d0bb, 0xfd73bfeb, 0xc24392d4, 0xe110766d, 0x7c188159, 0x390f8b4d, 0x0a23271f, 0x0e051682,
     0x5b48a341, 0x0861dff7, 0x5d33cdbb, 0x17d4372d, 0xc5d89a0b, 0x9df1402c, 0xb08ab5e0, 0x85488580]
  const S19: seq<Word> :=
    [0x7cdc780b, 0xc6858ddf, 0x13424029, 0x5a860fe3, 0x6cdeac08, 0x4fbdc89a, 0x2fc4f87e, 0xecee94b0,
     0xe6a398af, 0xa49d3936, 0xba840fc6, 0x0aa95fdd, 0xc33bb1b4, 0x9126adcd, 0x513cc51f, 0xe965be53]
  const S20: seq<Word> :=
    [0x4c704011, 0x5d1d8d32, 0x6c08300e, 0xbd9d20df, 0xb819d2bd, 0x1aed8da0, 0xccef36a8, 0xc70d778b,
     0x7c5941da, 0x8d485751, 0x3fe02477, 0x374ad8b8, 0xf4b8436a, 0x1ca11815, 0x69b687c3, 0x8665eeb2]

  lemma ColumnsTo(x: seq<Word>, y: seq<Word>)
    requires |x| == |y| == 16
    requires (y[0], y[4], y[8], y[12]) == Quarter(x[0], x[4], x[8], x[12])
    requires (y[1], y[5], y[9], y[13]) == Quarter(x[1], x[5], x[9], x[13])
    requires (y[2], y[6], y[10], y[14]) == Quarter(x[2], x[6], x[10], x[14])
    requires (y[3], y[7], y[11], y[15]) == Quarter(x[3], x[7], x[11], x[15])
    ensures ColumnRound(x) == y
  {
    hide Quarter, ColumnRound;
    Columns(x);
  }

  lemma DiagonalsTo(x: seq<Word>, y: seq<Word>)
    requires |x| == |y| == 16
    requires (y[0], y[5], y[10], y[15]) == Quarter(x[0], x[5], x[10], x[15])
    requires (y[1], y[6], y[11], y[12]) == Quarter(x[1], x[6], x[11], x[12])
    requires (y[2], y[7], y[8], y[13]) == Quarter(x[2], x[7], x[8], x[13])
    requires (y[3], y[4], y[9], y[14]) == Quarter(x[3], x[4], x[9], x[14])
    ensures DiagonalRound(x) == y
  {
    hide Quarter, DiagonalRound;
    Diagonals(x);
  }

  lemma Round1()
    ensures ColumnRound(S0) == S1
  {
    ColumnsTo(S0, S1);
  }

  lemma Round2()
    ensures DiagonalRound(S1) == S2
  {
    DiagonalsTo(S1, S2);
  }

  lemma Round3()
    ensures ColumnRound(S2) == S3
  {
    ColumnsTo(S2, S3);
  }

  lemma Round4()
    ensures DiagonalRound(S3) == S4
  {
    DiagonalsTo(S3, S4);
  }

  lemma Round5()
    ensures ColumnRound(S4) == S5
  {
    ColumnsTo(S4, S5);
  }

  lemma Round6()
    ensures DiagonalRound(S5) == S6
  {
    DiagonalsTo(S5, S6);
  }

  lemma Round7()
    ensures ColumnRound(S6) == S7
  {
    ColumnsTo(S6, S7);
  }

  lemma Round8()
    ensures DiagonalRound(S7) == S8
  {
    DiagonalsTo(S7, S8);
  }

  lemma Round9()
    ensures ColumnRound(S8) == S9
  {
    ColumnsTo(S8, S9);
  }

  lemma Round10()
    ensures DiagonalRound(S9) == S10
  {
    DiagonalsTo(S9, S10);
  }

  lemma Round11()
    ensures ColumnRound(S10) == S11
  {
    ColumnsTo(S10, S11);
  }

  lemma Round12()
    ensures DiagonalRound(S11) == S12
  {
    DiagonalsTo(S11, S12);
  }

  lemma Round13()
    ensures ColumnRound(S12) == S13
  {
    ColumnsTo(S12, S13);
  }

  lemma Round14()
    ensures DiagonalRound(S13) == S14
  {
    DiagonalsTo(S13, S14);
  }

  lemma Round15()
    ensures ColumnRound(S14) == S15
  {
    ColumnsTo(S14, S15);
  }

  lemma Round16()
    ensures DiagonalRound(S15) == S16
  {
    DiagonalsTo(S15, S16);
  }

  lemma Round17()
    ensures ColumnRound(S16) == S17
  {
    ColumnsTo(S16, S17);
  }

  lemma Round18()
    ensures DiagonalRound(S17) == S18
  {
    DiagonalsTo(S17, S18);
  }

  lemma Round19()
    ensures ColumnRound(S18) == S19
  {
    ColumnsTo(S18, S19);
  }

  lemma Round20()
    ensures DiagonalRound(S19) == S20
  {
    DiagonalsTo(S19, S20);
  }

  lemma TwoMore(n: nat, x: seq<Word>, y: seq<Word>, z: seq<Word>)
    requires |x| == 16 && Rounds(S0, n) == x && ColumnRound(x) == y && DiagonalRound(y) == z
    ensures Rounds(S0, n + 1) == z
  {
    hide ColumnRound, DiagonalRound;
  }

  lemma TwentyRounds()
    ensures Rounds(S0, 10) == S20
  {
    hide Rounds, ColumnRound, DiagonalRound;
    NoRounds();
    Round1();
    Round2();
    TwoMore(0, S0, S1, S2);
    Round3();
    Round4();
    TwoMore(1, S2, S3, S4);
    Round5();
    Round6();
    TwoMore(2, S4, S5, S6);
    Round7();
    Round8();
    TwoMore(3, S6, S7, S8);
    Round9();
    Round10();
    TwoMore(4, S8, S9, S10);
    Round11();
    Round12();
    TwoMore(5, S10, S11, S12);
    Round13();
    Round14();
    TwoMore(6, S12, S13, S14);
    Round15();
    Round16();
    TwoMore(7, S14, S15, S16);
    Round17();
    Round18();
    TwoMore(8, S16, S17, S18);
    Round19();
    Round20();
    TwoMore(9, S18, S19, S20);
  }

  lemma NoRounds()
    ensures Rounds(S0, 0) == S0
  {}

  /** The context for a key and a nonce of zero. */
  const ZERO_SEED: Context := Setup(Zeros(KEYSZ + IVSZ))

  lemma Sigma()
    ensures Read4(SIGMA, 0) == 0x61707865 && Read4(SIGMA, 4) == 0x3320646e
    ensures Read4(SIGMA, 8) == 0x79622d32 && Read4(SIGMA, 12) == 0x6b206574
  {}

  lemma StartWords()
    ensures Words(ZERO_SEED) == S0
  {
    hide Read4;
    Sigma();
    forall i | 4 <= i < 16
      ensures ZERO_SEED[i] == 0
    {
      if i < 12 {
        ZeroWord(4 * (i - 4));
      } else if i >= 14 {
        ZeroWord(KEYSZ + 4 * (i - 14));
      }
    }
    assert ZERO_SEED[0] == 0x61707865 && ZERO_SEED[1] == 0x3320646e;
    assert ZERO_SEED[2] == 0x79622d32 && ZERO_SEED[3] == 0x6b206574;
  }

  lemma ZeroWord(at: nat)
    requires at + 4 <= KEYSZ + IVSZ
    ensures Read4(Zeros(KEYSZ + IVSZ), at) == 0
  {}

  /** The block, in rows of 16 bytes. */
  const ROW0: seq<byte> :=
    [0x76, 0xb8, 0xe0, 0xad, 0xa0, 0xf1, 0x3d, 0x90, 0x40, 0x5d, 0x6a, 0xe5, 0x53, 0x86, 0xbd, 0x28]
  const ROW1: seq<byte> :=
    [0xbd, 0xd2, 0x19, 0xb8, 0xa0, 0x8d, 0xed, 0x1a, 0xa8, 0x36, 0xef, 0xcc, 0x8b, 0x77, 0x0d, 0xc7]
  const ROW2: seq<byte> :=
    [0xda, 0x41, 0x59, 0x7c, 0x51, 0x57, 0x48, 0x8d, 0x77, 0x24, 0xe0, 0x3f, 0xb8, 0xd8, 0x4a, 0x37]
  const ROW3: seq<byte> :=
    [0x6a, 0x43, 0xb8, 0xf4, 0x15, 0x18, 0xa1, 0x1c, 0xc3, 0x87, 0xb6, 0x69, 0xb2, 0xee, 0x65, 0x86]

  lemma OutIs(i: nat, s: seq<byte>)
    requires S20 == Rounds(Words(ZERO_SEED), 10) && S0 == Words(ZERO_SEED)
    requires i < 16 && LittleBytes(Plus(S20[i], S0[i])) == s
    ensures OutWord(ZERO_SEED, i) == s
  {
    hide LittleBytes, Rounds, Words, AddBack, Plus;
    AddBackWord(S20, S0, ZERO_SEED, i);
  }

  lemma FourMore(j: Context, n: nat, a: seq<byte>, b: seq<byte>, c: seq<byte>, d: seq<byte>)
    requires n + 4 <= 16 && OutWord(j, n) == a && OutWord(j, n + 1) == b
    requires OutWord(j, n + 2) == c && OutWord(j, n + 3) == d
    ensures OutWords(j, n + 4) == OutWords(j, n) + (a + b + c + d)
  {
    hide OutWord;
    assert OutWords(j, n + 2) == OutWords(j, n) + a + b;
    assert OutWords(j, n + 4) == OutWords(j, n + 2) + c + d;
  }

  lemma Sums0()
    ensures Plus(S20[0], S0[0]) == 0xade0b876
    ensures Plus(S20[1], S0[1]) == 0x903df1a0
    ensures Plus(S20[2], S0[2]) == 0xe56a5d40
    ensures Plus(S20[3], S0[3]) == 0x28bd8653
  {}

  lemma Little0()
    ensures LittleBytes(0xade0b876) == [0x76, 0xb8, 0xe0, 0xad]
    ensures LittleBytes(0x903df1a0) == [0xa0, 0xf1, 0x3d, 0x90]
    ensures LittleBytes(0xe56a5d40) == [0x40, 0x5d, 0x6a, 0xe5]
    ensures LittleBytes(0x28bd8653) == [0x53, 0x86, 0xbd, 0x28]
  {}

  lemma Words0()
    requires S20 == Rounds(Words(ZERO_SEED), 10) && S0 == Words(ZERO_SEED)
    ensures OutWords(ZERO_SEED, 4) == OutWords(ZERO_SEED, 0) + ROW0
  {
    hide OutWord, OutWords, Rounds, Words, Plus, LittleBytes;
    Sums0();
    Little0();
    var a, b := [0x76, 0xb8, 0xe0, 0xad], [0xa0, 0xf1, 0x3d, 0x90];
    var c, d := [0x40, 0x5d, 0x6a, 0xe5], [0x53, 0x86, 0xbd, 0x28];
    OutIs(0, a);
    OutIs(1, b);
    OutIs(2, c);
    OutIs(3, d);
    FourMore(ZERO_SEED, 0, a, b, c, d);
    assert ROW0 == a + b + c + d;
  }

  lemma Sums1()
    ensures Plus(S20[4], S0[4]) == 0xb819d2bd
    ensures Plus(S20[5], S0[5]) == 0x1aed8da0
    ensures Plus(S20[6], S0[6]) == 0xccef36a8
    ensures Plus(S20[7], S0[7]) == 0xc70d778b
  {}

  lemma Little1()
    ensures LittleBytes(0xb819d2bd) == [0xbd, 0xd2, 0x19, 0xb8]
    ensures LittleBytes(0x1aed8da0) == [0xa0, 0x8d, 0xed, 0x1a]
    ensures LittleBytes(0xccef36a8) == [0xa8, 0x36, 0xef, 0xcc]
    ensures LittleBytes(0xc70d778b) == [0x8b, 0x77, 0x0d, 0xc7]
  {}

  lemma Words1()
    requires S20 == Rounds(Words(ZERO_SEED), 10) && S0 == Words(ZERO_SEED)
    ensures OutWords(ZERO_SEED, 8) == OutWords(ZERO_SEED, 4) + ROW1
  {
    hide OutWord, OutWords, Rounds, Words, Plus, LittleBytes;
    Sums1();
    Little1();
    var a, b := [0xbd, 0xd2, 0x19, 0xb8], [0xa0, 0x8d, 0xed, 0x1a];
    var c, d := [0xa8, 0x36, 0xef, 0xcc], [0x8b, 0x77, 0x0d, 0xc7];
    OutIs(4, a);
    OutIs(5, b);
    OutIs(6, c);
    OutIs(7, d);
    FourMore(ZERO_SEED, 4, a, b, c, d);
    assert ROW1 == a + b + c + d;
  }

  lemma Sums2()
    ensures Plus(S20[8], S0[8]) == 0x7c5941da
    ensures Plus(S20[9], S0[9]) == 0x8d485751
    ensures Plus(S20[10], S0[10]) == 0x3fe02477
    ensures Plus(S20[11], S0[11]) == 0x374ad8b8
  {}

  lemma Little2()
    ensures LittleBytes(0x7c5941da) == [0xda, 0x41, 0x59, 0x7c]
    ensures LittleBytes(0x8d485751) == [0x51, 0x57, 0x48, 0x8d]
    ensures LittleBytes(0x3fe02477) == [0x77, 0x24, 0xe0, 0x3f]
    ensures LittleBytes(0x374ad8b8) == [0xb8, 0xd8, 0x4a, 0x37]
  {}

  lemma Words2()
    requires S20 == Rounds(Words(ZERO_SEED), 10) && S0 == Words(ZERO_SEED)
    ensures OutWords(ZERO_SEED, 12) == OutWords(ZERO_SEED, 8) + ROW2
  {
    hide OutWord, OutWords, Rounds, Words, Plus, LittleBytes;
    Sums2();
    Little2();
    var a, b := [0xda, 0x41, 0x59, 0x7c], [0x51, 0x57, 0x48, 0x8d];
    var c, d := [0x77, 0x24, 0xe0, 0x3f], [0xb8, 0xd8, 0x4a, 0x37];
    OutIs(8, a);
    OutIs(9, b);
    OutIs(10, c);
    OutIs(11, d);
    FourMore(ZERO_SEED, 8, a, b, c, d);
    assert ROW2 == a + b + c + d;
  }

  lemma Sums3()
    ensures Plus(S20[12], S0[12]) == 0xf4b8436a
    ensures Plus(S20[13], S0[13]) == 0x1ca11815
    ensures Plus(S20[14], S0[14]) == 0x69b687c3
    ensures Plus(S20[15], S0[15]) == 0x8665eeb2
  {}

  lemma Little3()
    ensures LittleBytes(0xf4b8436a) == [0x6a, 0x43, 0xb8, 0xf4]
    ensures LittleBytes(0x1ca11815) == [0x15, 0x18, 0xa1, 0x1c]
    ensures LittleBytes(0x69b687c3) == [0xc3, 0x87, 0xb6, 0x69]
    ensures LittleBytes(0x8665eeb2) == [0xb2, 0xee, 0x65, 0x86]
  {}

  lemma Words3()
    requires S20 == Rounds(Words(ZERO_SEED), 10) && S0 == Words(ZERO_SEED)
    ensures OutWords(ZERO_SEED, 16) == OutWords(ZERO_SEED, 12) + ROW3
  {
    hide OutWord, OutWords, Rounds, Words, Plus, LittleBytes;
    Sums3();
    Little3();
    var a, b := [0x6a, 0x43, 0xb8, 0xf4], [0x15, 0x18, 0xa1, 0x1c];
    var c, d := [0xc3, 0x87, 0xb6, 0x69], [0xb2, 0xee, 0x65, 0x86];
    OutIs(12, a);
    OutIs(13, b);
    OutIs(14, c);
    OutIs(15, d);
    FourMore(ZERO_SEED, 12, a, b, c, d);
    assert ROW3 == a + b + c + d;
  }

  /** With key, nonce and counter zero the block is this. */
  lemma BlockVector()
    ensures Block(ZERO_SEED) == ROW0 + ROW1 + ROW2 + ROW3
  {
    hide OutWord, OutWords, Rounds, Words;
    StartWords();
    TwentyRounds();
    Words0();
    Words1();
    Words2();
    Words3();
    NoWords();
    assert [] + ROW0 == ROW0;
  }

  lemma NoWords()
    ensures OutWords(ZERO_SEED, 0) == []
  {}
}
