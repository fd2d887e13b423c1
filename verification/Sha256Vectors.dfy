/**
 SHA-256 on the messages of the standard's examples: the digest of "abc" and of a message that takes two blocks, and
 where the constants come from (sections 4.2.2 and 5.3.3 of FIPS 180-4).
 */
module Sha256Vectors {
  import opened Basics
  import opened Sha256
  import U = Upgrade

  // ---------------------------------------------------------------- one word, one round

  /** Word t of the schedule, from the words 2, 7, 15 and 16 before it. */
  lemma Mix(b: Block, t: nat, w2: Word, w7: Word, w15: Word, w16: Word, w: Word)
    requires t >= 16 && W(b, t - 2) == w2 && W(b, t - 7) == w7 && W(b, t - 15) == w15 && W(b, t - 16) == w16
    requires w == Mixed(w2, w7, w15, w16)
    ensures W(b, t) == w
  {
    NextWord(b, t, w2, w7, w15, w16);
  }

  lemma MixZeros(b: Block, t: nat)
    requires t >= 16 && W(b, t - 2) == 0 && W(b, t - 7) == 0 && W(b, t - 15) == 0 && W(b, t - 16) == 0
    ensures W(b, t) == 0
  {
    Mix(b, t, 0, 0, 0, 0, 0);
  }

  /** Round t with the constant k and the word w gives this new a and this new e. */
  lemma Step(x: Block, i: Vars, t: nat, a: Word, b: Word, c: Word, d: Word, e: Word, f: Word, g: Word, h: Word,
             k: Word, w: Word, a1: Word, e1: Word)
    requires t < 64 && Rounds(i, x, t) == Vars(a, b, c, d, e, f, g, h) && Constant(t) == k && W(x, t) == w
    requires a1 == Add(T1(e, f, g, h, k, w), T2(a, b, c)) && e1 == Add(d, T1(e, f, g, h, k, w))
    ensures Rounds(i, x, t + 1) == Vars(a1, a, b, c, e1, e, f, g)
  {
    hide W, Constant, Add, T1, T2;
  }

  /** Sixteen words of the schedule. */
  ghost predicate Words(b: Block, t: nat, w0: Word, w1: Word, w2: Word, w3: Word, w4: Word, w5: Word, w6: Word, w7: Word,
                        w8: Word, w9: Word, w10: Word, w11: Word, w12: Word, w13: Word, w14: Word, w15: Word) {
    && W(b, t) == w0 && W(b, t + 1) == w1 && W(b, t + 2) == w2 && W(b, t + 3) == w3
    && W(b, t + 4) == w4 && W(b, t + 5) == w5 && W(b, t + 6) == w6 && W(b, t + 7) == w7
    && W(b, t + 8) == w8 && W(b, t + 9) == w9 && W(b, t + 10) == w10 && W(b, t + 11) == w11
    && W(b, t + 12) == w12 && W(b, t + 13) == w13 && W(b, t + 14) == w14 && W(b, t + 15) == w15
  }

  lemma Constants0()
    ensures Constant(0) == 0x428a2f98 && Constant(1) == 0x71374491 && Constant(2) == 0xb5c0fbcf && Constant(3) == 0xe9b5dba5
    ensures Constant(4) == 0x3956c25b && Constant(5) == 0x59f111f1 && Constant(6) == 0x923f82a4 && Constant(7) == 0xab1c5ed5
  {}

  lemma Constants8()
    ensures Constant(8) == 0xd807aa98 && Constant(9) == 0x12835b01 && Constant(10) == 0x243185be && Constant(11) == 0x550c7dc3
    ensures Constant(12) == 0x72be5d74 && Constant(13) == 0x80deb1fe && Constant(14) == 0x9bdc06a7 && Constant(15) == 0xc19bf174
  {}

  lemma Constants16()
    ensures Constant(16) == 0xe49b69c1 && Constant(17) == 0xefbe4786 && Constant(18) == 0x0fc19dc6 && Constant(19) == 0x240ca1cc
    ensures Constant(20) == 0x2de92c6f && Constant(21) == 0x4a7484aa && Constant(22) == 0x5cb0a9dc && Constant(23) == 0x76f988da
  {}

  lemma Constants24()
    ensures Constant(24) == 0x983e5152 && Constant(25) == 0xa831c66d && Constant(26) == 0xb00327c8 && Constant(27) == 0xbf597fc7
    ensures Constant(28) == 0xc6e00bf3 && Constant(29) == 0xd5a79147 && Constant(30) == 0x06ca6351 && Constant(31) == 0x14292967
  {}

  lemma Constants32()
    ensures Constant(32) == 0x27b70a85 && Constant(33) == 0x2e1b2138 && Constant(34) == 0x4d2c6dfc && Constant(35) == 0x53380d13
    ensures Constant(36) == 0x650a7354 && Constant(37) == 0x766a0abb && Constant(38) == 0x81c2c92e && Constant(39) == 0x92722c85
  {}

  lemma Constants40()
    ensures Constant(40) == 0xa2bfe8a1 && Constant(41) == 0xa81a664b && Constant(42) == 0xc24b8b70 && Constant(43) == 0xc76c51a3
    ensures Constant(44) == 0xd192e819 && Constant(45) == 0xd6990624 && Constant(46) == 0xf40e3585 && Constant(47) == 0x106aa070
  {}

  lemma Constants48()
    ensures Constant(48) == 0x19a4c116 && Constant(49) == 0x1e376c08 && Constant(50) == 0x2748774c && Constant(51) == 0x34b0bcb5
    ensures Constant(52) == 0x391c0cb3 && Constant(53) == 0x4ed8aa4a && Constant(54) == 0x5b9cca4f && Constant(55) == 0x682e6ff3
  {}

  lemma Constants56()
    ensures Constant(56) == 0x748f82ee && Constant(57) == 0x78a5636f && Constant(58) == 0x84c87814 && Constant(59) == 0x8cc70208
    ensures Constant(60) == 0x90befffa && Constant(61) == 0xa4506ceb && Constant(62) == 0xbef9a3f7 && Constant(63) == 0xc67178f2
  {}

  // ---------------------------------------------------------------- the one block of "abc"

  lemma AbcWords16(b: Block)
    requires Words(b, 0, 0x61626380, 0x00000000, 0x00000000, 0x00000000, 0x00000000, 0x00000000, 0x00000000, 0x00000000,
                      0x00000000, 0x00000000, 0x00000000, 0x00000000, 0x00000000, 0x00000000, 0x00000000, 0x00000018)
    ensures Words(b, 16, 0x61626380, 0x000f0000, 0x7da86405, 0x600003c6, 0x3e9d7b78, 0x0183fc00, 0x12dcbfdb, 0xe2e2c38e,
                      0xc8215c1a, 0xb73679a2, 0xe5bc3909, 0x32663c5b, 0x9d209d67, 0xec8726cb, 0x702138a4, 0xd3b7973b)
  {
    hide W;
    Mix(b, 16, 0x00000000, 0x00000000, 0x00000000, 0x61626380, 0x61626380);
    Mix(b, 17, 0x00000018, 0x00000000, 0x00000000, 0x00000000, 0x000f0000);
    Mix(b, 18, 0x61626380, 0x00000000, 0x00000000, 0x00000000, 0x7da86405);
    Mix(b, 19, 0x000f0000, 0x00000000, 0x00000000, 0x00000000, 0x600003c6);
    Mix(b, 20, 0x7da86405, 0x00000000, 0x00000000, 0x00000000, 0x3e9d7b78);
    Mix(b, 21, 0x600003c6, 0x00000000, 0x00000000, 0x00000000, 0x0183fc00);
    Mix(b, 22, 0x3e9d7b78, 0x00000018, 0x00000000, 0x00000000, 0x12dcbfdb);
    Mix(b, 23, 0x0183fc00, 0x61626380, 0x00000000, 0x00000000, 0xe2e2c38e);
    Mix(b, 24, 0x12dcbfdb, 0x000f0000, 0x00000000, 0x00000000, 0xc8215c1a);
    Mix(b, 25, 0xe2e2c38e, 0x7da86405, 0x00000000, 0x00000000, 0xb73679a2);
    Mix(b, 26, 0xc8215c1a, 0x600003c6, 0x00000000, 0x00000000, 0xe5bc3909);
    Mix(b, 27, 0xb73679a2, 0x3e9d7b78, 0x00000000, 0x00000000, 0x32663c5b);
    Mix(b, 28, 0xe5bc3909, 0x0183fc00, 0x00000000, 0x00000000, 0x9d209d67);
    Mix(b, 29, 0x32663c5b, 0x12dcbfdb, 0x00000000, 0x00000000, 0xec8726cb);
    Mix(b, 30, 0x9d209d67, 0xe2e2c38e, 0x00000018, 0x00000000, 0x702138a4);
    Mix(b, 31, 0xec8726cb, 0xc8215c1a, 0x61626380, 0x00000018, 0xd3b7973b);
  }

  lemma AbcWords32(b: Block)
    requires Words(b, 16, 0x61626380, 0x000f0000, 0x7da86405, 0x600003c6, 0x3e9d7b78, 0x0183fc00, 0x12dcbfdb, 0xe2e2c38e,
                      0xc8215c1a, 0xb73679a2, 0xe5bc3909, 0x32663c5b, 0x9d209d67, 0xec8726cb, 0x702138a4, 0xd3b7973b)
    ensures Words(b, 32, 0x93f5997f, 0x3b68ba73, 0xaff4ffc1, 0xf10a5c62, 0x0a8b3996, 0x72af830a, 0x9409e33e, 0x24641522,
                      0x9f47bf94, 0xf0a64f5a, 0x3e246a79, 0x27333ba3, 0x0c4763f2, 0x840abf27, 0x7a290d5d, 0x065c43da)
  {
    hide W;
    Mix(b, 32, 0x702138a4, 0xb73679a2, 0x000f0000, 0x61626380, 0x93f5997f);
    Mix(b, 33, 0xd3b7973b, 0xe5bc3909, 0x7da86405, 0x000f0000, 0x3b68ba73);
    Mix(b, 34, 0x93f5997f, 0x32663c5b, 0x600003c6, 0x7da86405, 0xaff4ffc1);
    Mix(b, 35, 0x3b68ba73, 0x9d209d67, 0x3e9d7b78, 0x600003c6, 0xf10a5c62);
    Mix(b, 36, 0xaff4ffc1, 0xec8726cb, 0x0183fc00, 0x3e9d7b78, 0x0a8b3996);
    Mix(b, 37, 0xf10a5c62, 0x702138a4, 0x12dcbfdb, 0x0183fc00, 0x72af830a);
    Mix(b, 38, 0x0a8b3996, 0xd3b7973b, 0xe2e2c38e, 0x12dcbfdb, 0x9409e33e);
    Mix(b, 39, 0x72af830a, 0x93f5997f, 0xc8215c1a, 0xe2e2c38e, 0x24641522);
    Mix(b, 40, 0x9409e33e, 0x3b68ba73, 0xb73679a2, 0xc8215c1a, 0x9f47bf94);
    Mix(b, 41, 0x24641522, 0xaff4ffc1, 0xe5bc3909, 0xb73679a2, 0xf0a64f5a);
    Mix(b, 42, 0x9f47bf94, 0xf10a5c62, 0x32663c5b, 0xe5bc3909, 0x3e246a79);
    Mix(b, 43, 0xf0a64f5a, 0x0a8b3996, 0x9d209d67, 0x32663c5b, 0x27333ba3);
    Mix(b, 44, 0x3e246a79, 0x72af830a, 0xec8726cb, 0x9d209d67, 0x0c4763f2);
    Mix(b, 45, 0x27333ba3, 0x9409e33e, 0x702138a4, 0xec8726cb, 0x840abf27);
    Mix(b, 46, 0x0c4763f2, 0x24641522, 0xd3b7973b, 0x702138a4, 0x7a290d5d);
    Mix(b, 47, 0x840abf27, 0x9f47bf94, 0x93f5997f, 0xd3b7973b, 0x065c43da);
  }

  lemma AbcWords48(b: Block)
    requires Words(b, 32, 0x93f5997f, 0x3b68ba73, 0xaff4ffc1, 0xf10a5c62, 0x0a8b3996, 0x72af830a, 0x9409e33e, 0x24641522,
                      0x9f47bf94, 0xf0a64f5a, 0x3e246a79, 0x27333ba3, 0x0c4763f2, 0x840abf27, 0x7a290d5d, 0x065c43da)
    ensures Words(b, 48, 0xfb3e89cb, 0xcc7617db, 0xb9e66c34, 0xa9993667, 0x84badedd, 0xc21462bc, 0x1487472c, 0xb20f7a99,
                      0xef57b9cd, 0xebe6b238, 0x9fe3095e, 0x78bc8d4b, 0xa43fcf15, 0x668b2ff8, 0xeeaba2cc, 0x12b1edeb)
  {
    hide W;
    Mix(b, 48, 0x7a290d5d, 0xf0a64f5a, 0x3b68ba73, 0x93f5997f, 0xfb3e89cb);
    Mix(b, 49, 0x065c43da, 0x3e246a79, 0xaff4ffc1, 0x3b68ba73, 0xcc7617db);
    Mix(b, 50, 0xfb3e89cb, 0x27333ba3, 0xf10a5c62, 0xaff4ffc1, 0xb9e66c34);
    Mix(b, 51, 0xcc7617db, 0x0c4763f2, 0x0a8b3996, 0xf10a5c62, 0xa9993667);
    Mix(b, 52, 0xb9e66c34, 0x840abf27, 0x72af830a, 0x0a8b3996, 0x84badedd);
    Mix(b, 53, 0xa9993667, 0x7a290d5d, 0x9409e33e, 0x72af830a, 0xc21462bc);
    Mix(b, 54, 0x84badedd, 0x065c43da, 0x24641522, 0x9409e33e, 0x1487472c);
    Mix(b, 55, 0xc21462bc, 0xfb3e89cb, 0x9f47bf94, 0x24641522, 0xb20f7a99);
    Mix(b, 56, 0x1487472c, 0xcc7617db, 0xf0a64f5a, 0x9f47bf94, 0xef57b9cd);
    Mix(b, 57, 0xb20f7a99, 0xb9e66c34, 0x3e246a79, 0xf0a64f5a, 0xebe6b238);
    Mix(b, 58, 0xef57b9cd, 0xa9993667, 0x27333ba3, 0x3e246a79, 0x9fe3095e);
    Mix(b, 59, 0xebe6b238, 0x84badedd, 0x0c4763f2, 0x27333ba3, 0x78bc8d4b);
    Mix(b, 60, 0x9fe3095e, 0xc21462bc, 0x840abf27, 0x0c4763f2, 0xa43fcf15);
    Mix(b, 61, 0x78bc8d4b, 0x1487472c, 0x7a290d5d, 0x840abf27, 0x668b2ff8);
    Mix(b, 62, 0xa43fcf15, 0xb20f7a99, 0x065c43da, 0x7a290d5d, 0xeeaba2cc);
    Mix(b, 63, 0x668b2ff8, 0xef57b9cd, 0xfb3e89cb, 0x065c43da, 0x12b1edeb);
  }

  lemma AbcRounds0(h: Vars, b: Block)
    requires Words(b, 0, 0x61626380, 0x00000000, 0x00000000, 0x00000000, 0x00000000, 0x00000000, 0x00000000, 0x00000000,
                      0x00000000, 0x00000000, 0x00000000, 0x00000000, 0x00000000, 0x00000000, 0x00000000, 0x00000018)
    requires Rounds(h, b, 0) ==
      Vars(0x6a09e667, 0xbb67ae85, 0x3c6ef372, 0xa54ff53a, 0x510e527f, 0x9b05688c, 0x1f83d9ab, 0x5be0cd19)
    ensures Rounds(h, b, 16) ==
      Vars(0xb0fa238e, 0xc0645fde, 0xd932eb16, 0x87912990, 0x07590dcd, 0x0b92f20c, 0x745a48de, 0x1e578218)
  {
    hide W, Rounds, Constant;
    Constants0();
    Constants8();
    Step(b, h, 0, 0x6a09e667, 0xbb67ae85, 0x3c6ef372, 0xa54ff53a, 0x510e527f, 0x9b05688c, 0x1f83d9ab, 0x5be0cd19,
         0x428a2f98, 0x61626380, 0x5d6aebcd, 0xfa2a4622);
    Step(b, h, 1, 0x5d6aebcd, 0x6a09e667, 0xbb67ae85, 0x3c6ef372, 0xfa2a4622, 0x510e527f, 0x9b05688c, 0x1f83d9ab,
         0x71374491, 0x00000000, 0x5a6ad9ad, 0x78ce7989);
    Step(b, h, 2, 0x5a6ad9ad, 0x5d6aebcd, 0x6a09e667, 0xbb67ae85, 0x78ce7989, 0xfa2a4622, 0x510e527f, 0x9b05688c,
         0xb5c0fbcf, 0x00000000, 0xc8c347a7, 0xf92939eb);
    Step(b, h, 3, 0xc8c347a7, 0x5a6ad9ad, 0x5d6aebcd, 0x6a09e667, 0xf92939eb, 0x78ce7989, 0xfa2a4622, 0x510e527f,
         0xe9b5dba5, 0x00000000, 0xd550f666, 0x24e00850);
    Step(b, h, 4, 0xd550f666, 0xc8c347a7, 0x5a6ad9ad, 0x5d6aebcd, 0x24e00850, 0xf92939eb, 0x78ce7989, 0xfa2a4622,
         0x3956c25b, 0x00000000, 0x04409a6a, 0x43ada245);
    Step(b, h, 5, 0x04409a6a, 0xd550f666, 0xc8c347a7, 0x5a6ad9ad, 0x43ada245, 0x24e00850, 0xf92939eb, 0x78ce7989,
         0x59f111f1, 0x00000000, 0x2b4209f5, 0x714260ad);
    Step(b, h, 6, 0x2b4209f5, 0x04409a6a, 0xd550f666, 0xc8c347a7, 0x714260ad, 0x43ada245, 0x24e00850, 0xf92939eb,
         0x923f82a4, 0x00000000, 0xe5030380, 0x9b27a401);
    Step(b, h, 7, 0xe5030380, 0x2b4209f5, 0x04409a6a, 0xd550f666, 0x9b27a401, 0x714260ad, 0x43ada245, 0x24e00850,
         0xab1c5ed5, 0x00000000, 0x85a07b5f, 0x0c657a79);
    Step(b, h, 8, 0x85a07b5f, 0xe5030380, 0x2b4209f5, 0x04409a6a, 0x0c657a79, 0x9b27a401, 0x714260ad, 0x43ada245,
         0xd807aa98, 0x00000000, 0x8e04ecb9, 0x32ca2d8c);
    Step(b, h, 9, 0x8e04ecb9, 0x85a07b5f, 0xe5030380, 0x2b4209f5, 0x32ca2d8c, 0x0c657a79, 0x9b27a401, 0x714260ad,
         0x12835b01, 0x00000000, 0x8c87346b, 0x1cc92596);
    Step(b, h, 10, 0x8c87346b, 0x8e04ecb9, 0x85a07b5f, 0xe5030380, 0x1cc92596, 0x32ca2d8c, 0x0c657a79, 0x9b27a401,
         0x243185be, 0x00000000, 0x4798a3f4, 0x436b23e8);
    Step(b, h, 11, 0x4798a3f4, 0x8c87346b, 0x8e04ecb9, 0x85a07b5f, 0x436b23e8, 0x1cc92596, 0x32ca2d8c, 0x0c657a79,
         0x550c7dc3, 0x00000000, 0xf71fc5a9, 0x816fd6e9);
    Step(b, h, 12, 0xf71fc5a9, 0x4798a3f4, 0x8c87346b, 0x8e04ecb9, 0x816fd6e9, 0x436b23e8, 0x1cc92596, 0x32ca2d8c,
         0x72be5d74, 0x00000000, 0x87912990, 0x1e578218);
    Step(b, h, 13, 0x87912990, 0xf71fc5a9, 0x4798a3f4, 0x8c87346b, 0x1e578218, 0x816fd6e9, 0x436b23e8, 0x1cc92596,
         0x80deb1fe, 0x00000000, 0xd932eb16, 0x745a48de);
    Step(b, h, 14, 0xd932eb16, 0x87912990, 0xf71fc5a9, 0x4798a3f4, 0x745a48de, 0x1e578218, 0x816fd6e9, 0x436b23e8,
         0x9bdc06a7, 0x00000000, 0xc0645fde, 0x0b92f20c);
    Step(b, h, 15, 0xc0645fde, 0xd932eb16, 0x87912990, 0xf71fc5a9, 0x0b92f20c, 0x745a48de, 0x1e578218, 0x816fd6e9,
         0xc19bf174, 0x00000018, 0xb0fa238e, 0x07590dcd);
  }

  lemma AbcRounds16(h: Vars, b: Block)
    requires Words(b, 16, 0x61626380, 0x000f0000, 0x7da86405, 0x600003c6, 0x3e9d7b78, 0x0183fc00, 0x12dcbfdb, 0xe2e2c38e,
                      0xc8215c1a, 0xb73679a2, 0xe5bc3909, 0x32663c5b, 0x9d209d67, 0xec8726cb, 0x702138a4, 0xd3b7973b)
    requires Rounds(h, b, 16) ==
      Vars(0xb0fa238e, 0xc0645fde, 0xd932eb16, 0x87912990, 0x07590dcd, 0x0b92f20c, 0x745a48de, 0x1e578218)
    ensures Rounds(h, b, 32) ==
      Vars(0x73b33bf5, 0xea992a22, 0xa0060b30, 0x363482c9, 0xba591112, 0x0109ab3a, 0xade79437, 0x6112a3b7)
  {
    hide W, Rounds, Constant;
    Constants16();
    Constants24();
    Step(b, h, 16, 0xb0fa238e, 0xc0645fde, 0xd932eb16, 0x87912990, 0x07590dcd, 0x0b92f20c, 0x745a48de, 0x1e578218,
         0xe49b69c1, 0x61626380, 0x21da9a9b, 0x8034229c);
    Step(b, h, 17, 0x21da9a9b, 0xb0fa238e, 0xc0645fde, 0xd932eb16, 0x8034229c, 0x07590dcd, 0x0b92f20c, 0x745a48de,
         0xefbe4786, 0x000f0000, 0xc2fbd9d1, 0x846ee454);
    Step(b, h, 18, 0xc2fbd9d1, 0x21da9a9b, 0xb0fa238e, 0xc0645fde, 0x846ee454, 0x8034229c, 0x07590dcd, 0x0b92f20c,
         0x0fc19dc6, 0x7da86405, 0xfe777bbf, 0xcc899961);
    Step(b, h, 19, 0xfe777bbf, 0xc2fbd9d1, 0x21da9a9b, 0xb0fa238e, 0xcc899961, 0x846ee454, 0x8034229c, 0x07590dcd,
         0x240ca1cc, 0x600003c6, 0xe1f20c33, 0xb0638179);
    Step(b, h, 20, 0xe1f20c33, 0xfe777bbf, 0xc2fbd9d1, 0x21da9a9b, 0xb0638179, 0xcc899961, 0x846ee454, 0x8034229c,
         0x2de92c6f, 0x3e9d7b78, 0x9dc68b63, 0x8ada8930);
    Step(b, h, 21, 0x9dc68b63, 0xe1f20c33, 0xfe777bbf, 0xc2fbd9d1, 0x8ada8930, 0xb0638179, 0xcc899961, 0x846ee454,
         0x4a7484aa, 0x0183fc00, 0xc2606d6d, 0xe1257970);
    Step(b, h, 22, 0xc2606d6d, 0x9dc68b63, 0xe1f20c33, 0xfe777bbf, 0xe1257970, 0x8ada8930, 0xb0638179, 0xcc899961,
         0x5cb0a9dc, 0x12dcbfdb, 0xa7a3623f, 0x49f5114a);
    Step(b, h, 23, 0xa7a3623f, 0xc2606d6d, 0x9dc68b63, 0xe1f20c33, 0x49f5114a, 0xe1257970, 0x8ada8930, 0xb0638179,
         0x76f988da, 0xe2e2c38e, 0xc5d53d8d, 0xaa47c347);
    Step(b, h, 24, 0xc5d53d8d, 0xa7a3623f, 0xc2606d6d, 0x9dc68b63, 0xaa47c347, 0x49f5114a, 0xe1257970, 0x8ada8930,
         0x983e5152, 0xc8215c1a, 0x1c2c2838, 0x2823ef91);
    Step(b, h, 25, 0x1c2c2838, 0xc5d53d8d, 0xa7a3623f, 0xc2606d6d, 0x2823ef91, 0xaa47c347, 0x49f5114a, 0xe1257970,
         0xa831c66d, 0xb73679a2, 0xcde8037d, 0x14383d8e);
    Step(b, h, 26, 0xcde8037d, 0x1c2c2838, 0xc5d53d8d, 0xa7a3623f, 0x14383d8e, 0x2823ef91, 0xaa47c347, 0x49f5114a,
         0xb00327c8, 0xe5bc3909, 0xb62ec4bc, 0xc74c6516);
    Step(b, h, 27, 0xb62ec4bc, 0xcde8037d, 0x1c2c2838, 0xc5d53d8d, 0xc74c6516, 0x14383d8e, 0x2823ef91, 0xaa47c347,
         0xbf597fc7, 0x32663c5b, 0x77d37528, 0xedffbff8);
    Step(b, h, 28, 0x77d37528, 0xb62ec4bc, 0xcde8037d, 0x1c2c2838, 0xedffbff8, 0xc74c6516, 0x14383d8e, 0x2823ef91,
         0xc6e00bf3, 0x9d209d67, 0x363482c9, 0x6112a3b7);
    Step(b, h, 29, 0x363482c9, 0x77d37528, 0xb62ec4bc, 0xcde8037d, 0x6112a3b7, 0xedffbff8, 0xc74c6516, 0x14383d8e,
         0xd5a79147, 0xec8726cb, 0xa0060b30, 0xade79437);
    Step(b, h, 30, 0xa0060b30, 0x363482c9, 0x77d37528, 0xb62ec4bc, 0xade79437, 0x6112a3b7, 0xedffbff8, 0xc74c6516,
         0x06ca6351, 0x702138a4, 0xea992a22, 0x0109ab3a);
    Step(b, h, 31, 0xea992a22, 0xa0060b30, 0x363482c9, 0x77d37528, 0x0109ab3a, 0xade79437, 0x6112a3b7, 0xedffbff8,
         0x14292967, 0xd3b7973b, 0x73b33bf5, 0xba591112);
  }

  lemma AbcRounds32(h: Vars, b: Block)
    requires Words(b, 32, 0x93f5997f, 0x3b68ba73, 0xaff4ffc1, 0xf10a5c62, 0x0a8b3996, 0x72af830a, 0x9409e33e, 0x24641522,
                      0x9f47bf94, 0xf0a64f5a, 0x3e246a79, 0x27333ba3, 0x0c4763f2, 0x840abf27, 0x7a290d5d, 0x065c43da)
    requires Rounds(h, b, 32) ==
      Vars(0x73b33bf5, 0xea992a22, 0xa0060b30, 0x363482c9, 0xba591112, 0x0109ab3a, 0xade79437, 0x6112a3b7)
    ensures Rounds(h, b, 48) ==
      Vars(0x4172328d, 0xa14c14b0, 0x72ab4b91, 0x26628815, 0xfecf0bc6, 0xd57b94a9, 0xb7755da1, 0xa80f11f0)
  {
    hide W, Rounds, Constant;
    Constants32();
    Constants40();
    Step(b, h, 32, 0x73b33bf5, 0xea992a22, 0xa0060b30, 0x363482c9, 0xba591112, 0x0109ab3a, 0xade79437, 0x6112a3b7,
         0x27b70a85, 0x93f5997f, 0x98e12507, 0x9cd9f5f6);
    Step(b, h, 33, 0x98e12507, 0x73b33bf5, 0xea992a22, 0xa0060b30, 0x9cd9f5f6, 0xba591112, 0x0109ab3a, 0xade79437,
         0x2e1b2138, 0x3b68ba73, 0xfe604df5, 0x59249dd3);
    Step(b, h, 34, 0xfe604df5, 0x98e12507, 0x73b33bf5, 0xea992a22, 0x59249dd3, 0x9cd9f5f6, 0xba591112, 0x0109ab3a,
         0x4d2c6dfc, 0xaff4ffc1, 0xa9a7738c, 0x085f3833);
    Step(b, h, 35, 0xa9a7738c, 0xfe604df5, 0x98e12507, 0x73b33bf5, 0x085f3833, 0x59249dd3, 0x9cd9f5f6, 0xba591112,
         0x53380d13, 0xf10a5c62, 0x65a0cfe4, 0xf4b002d6);
    Step(b, h, 36, 0x65a0cfe4, 0xa9a7738c, 0xfe604df5, 0x98e12507, 0xf4b002d6, 0x085f3833, 0x59249dd3, 0x9cd9f5f6,
         0x650a7354, 0x0a8b3996, 0x41a65cb1, 0x0772a26b);
    Step(b, h, 37, 0x41a65cb1, 0x65a0cfe4, 0xa9a7738c, 0xfe604df5, 0x0772a26b, 0xf4b002d6, 0x085f3833, 0x59249dd3,
         0x766a0abb, 0x72af830a, 0x34df1604, 0xa507a53d);
    Step(b, h, 38, 0x34df1604, 0x41a65cb1, 0x65a0cfe4, 0xa9a7738c, 0xa507a53d, 0x0772a26b, 0xf4b002d6, 0x085f3833,
         0x81c2c92e, 0x9409e33e, 0x6dc57a8a, 0xf0781bc8);
    Step(b, h, 39, 0x6dc57a8a, 0x34df1604, 0x41a65cb1, 0x65a0cfe4, 0xf0781bc8, 0xa507a53d, 0x0772a26b, 0xf4b002d6,
         0x92722c85, 0x24641522, 0x79ea687a, 0x1efbc0a0);
    Step(b, h, 40, 0x79ea687a, 0x6dc57a8a, 0x34df1604, 0x41a65cb1, 0x1efbc0a0, 0xf0781bc8, 0xa507a53d, 0x0772a26b,
         0xa2bfe8a1, 0x9f47bf94, 0xd6670766, 0x26352d63);
    Step(b, h, 41, 0xd6670766, 0x79ea687a, 0x6dc57a8a, 0x34df1604, 0x26352d63, 0x1efbc0a0, 0xf0781bc8, 0xa507a53d,
         0xa81a664b, 0xf0a64f5a, 0xdf46652f, 0x838b2711);
    Step(b, h, 42, 0xdf46652f, 0xd6670766, 0x79ea687a, 0x6dc57a8a, 0x838b2711, 0x26352d63, 0x1efbc0a0, 0xf0781bc8,
         0xc24b8b70, 0x3e246a79, 0x17aa0dfe, 0xdecd4715);
    Step(b, h, 43, 0x17aa0dfe, 0xdf46652f, 0xd6670766, 0x79ea687a, 0xdecd4715, 0x838b2711, 0x26352d63, 0x1efbc0a0,
         0xc76c51a3, 0x27333ba3, 0x9d4baf93, 0xfda24c2e);
    Step(b, h, 44, 0x9d4baf93, 0x17aa0dfe, 0xdf46652f, 0xd6670766, 0xfda24c2e, 0xdecd4715, 0x838b2711, 0x26352d63,
         0xd192e819, 0x0c4763f2, 0x26628815, 0xa80f11f0);
    Step(b, h, 45, 0x26628815, 0x9d4baf93, 0x17aa0dfe, 0xdf46652f, 0xa80f11f0, 0xfda24c2e, 0xdecd4715, 0x838b2711,
         0xd6990624, 0x840abf27, 0x72ab4b91, 0xb7755da1);
    Step(b, h, 46, 0x72ab4b91, 0x26628815, 0x9d4baf93, 0x17aa0dfe, 0xb7755da1, 0xa80f11f0, 0xfda24c2e, 0xdecd4715,
         0xf40e3585, 0x7a290d5d, 0xa14c14b0, 0xd57b94a9);
    Step(b, h, 47, 0xa14c14b0, 0x72ab4b91, 0x26628815, 0x9d4baf93, 0xd57b94a9, 0xb7755da1, 0xa80f11f0, 0xfda24c2e,
         0x106aa070, 0x065c43da, 0x4172328d, 0xfecf0bc6);
  }

  lemma AbcRounds48(h: Vars, b: Block)
    requires Words(b, 48, 0xfb3e89cb, 0xcc7617db, 0xb9e66c34, 0xa9993667, 0x84badedd, 0xc21462bc, 0x1487472c, 0xb20f7a99,
                      0xef57b9cd, 0xebe6b238, 0x9fe3095e, 0x78bc8d4b, 0xa43fcf15, 0x668b2ff8, 0xeeaba2cc, 0x12b1edeb)
    requires Rounds(h, b, 48) ==
      Vars(0x4172328d, 0xa14c14b0, 0x72ab4b91, 0x26628815, 0xfecf0bc6, 0xd57b94a9, 0xb7755da1, 0xa80f11f0)
    ensures Rounds(h, b, 64) ==
      Vars(0x506e3058, 0xd39a2165, 0x04d24d6c, 0xb85e2ce9, 0x5ef50f24, 0xfb121210, 0x948d25b6, 0x961f4894)
  {
    hide W, Rounds, Constant;
    Constants48();
    Constants56();
    Step(b, h, 48, 0x4172328d, 0xa14c14b0, 0x72ab4b91, 0x26628815, 0xfecf0bc6, 0xd57b94a9, 0xb7755da1, 0xa80f11f0,
         0x19a4c116, 0xfb3e89cb, 0x05757ceb, 0xbd714038);
    Step(b, h, 49, 0x05757ceb, 0x4172328d, 0xa14c14b0, 0x72ab4b91, 0xbd714038, 0xfecf0bc6, 0xd57b94a9, 0xb7755da1,
         0x1e376c08, 0xcc7617db, 0xf11bfaa8, 0x6e5c390c);
    Step(b, h, 50, 0xf11bfaa8, 0x05757ceb, 0x4172328d, 0xa14c14b0, 0x6e5c390c, 0xbd714038, 0xfecf0bc6, 0xd57b94a9,
         0x2748774c, 0xb9e66c34, 0x7a0508a1, 0x52f1ccf7);
    Step(b, h, 51, 0x7a0508a1, 0xf11bfaa8, 0x05757ceb, 0x4172328d, 0x52f1ccf7, 0x6e5c390c, 0xbd714038, 0xfecf0bc6,
         0x34b0bcb5, 0xa9993667, 0x886e7a22, 0x49231c1e);
    Step(b, h, 52, 0x886e7a22, 0x7a0508a1, 0xf11bfaa8, 0x05757ceb, 0x49231c1e, 0x52f1ccf7, 0x6e5c390c, 0xbd714038,
         0x391c0cb3, 0x84badedd, 0x101fd28f, 0x529e7d00);
    Step(b, h, 53, 0x101fd28f, 0x886e7a22, 0x7a0508a1, 0xf11bfaa8, 0x529e7d00, 0x49231c1e, 0x52f1ccf7, 0x6e5c390c,
         0x4ed8aa4a, 0xc21462bc, 0xf5702fdb, 0x9f4787c3);
    Step(b, h, 54, 0xf5702fdb, 0x101fd28f, 0x886e7a22, 0x7a0508a1, 0x9f4787c3, 0x529e7d00, 0x49231c1e, 0x52f1ccf7,
         0x5b9cca4f, 0x1487472c, 0x3ec45cdb, 0xe50e1b4f);
    Step(b, h, 55, 0x3ec45cdb, 0xf5702fdb, 0x101fd28f, 0x886e7a22, 0xe50e1b4f, 0x9f4787c3, 0x529e7d00, 0x49231c1e,
         0x682e6ff3, 0xb20f7a99, 0x38cc9913, 0x54cb266b);
    Step(b, h, 56, 0x38cc9913, 0x3ec45cdb, 0xf5702fdb, 0x101fd28f, 0x54cb266b, 0xe50e1b4f, 0x9f4787c3, 0x529e7d00,
         0x748f82ee, 0xef57b9cd, 0xfcd1887b, 0x9b5e906c);
    Step(b, h, 57, 0xfcd1887b, 0x38cc9913, 0x3ec45cdb, 0xf5702fdb, 0x9b5e906c, 0x54cb266b, 0xe50e1b4f, 0x9f4787c3,
         0x78a5636f, 0xebe6b238, 0xc062d46f, 0x7e44008e);
    Step(b, h, 58, 0xc062d46f, 0xfcd1887b, 0x38cc9913, 0x3ec45cdb, 0x7e44008e, 0x9b5e906c, 0x54cb266b, 0xe50e1b4f,
         0x84c87814, 0x9fe3095e, 0xffb70472, 0x6d83bfc6);
    Step(b, h, 59, 0xffb70472, 0xc062d46f, 0xfcd1887b, 0x38cc9913, 0x6d83bfc6, 0x7e44008e, 0x9b5e906c, 0x54cb266b,
         0x8cc70208, 0x78bc8d4b, 0xb6ae8fff, 0xb21bad3d);
    Step(b, h, 60, 0xb6ae8fff, 0xffb70472, 0xc062d46f, 0xfcd1887b, 0xb21bad3d, 0x6d83bfc6, 0x7e44008e, 0x9b5e906c,
         0x90befffa, 0xa43fcf15, 0xb85e2ce9, 0x961f4894);
    Step(b, h, 61, 0xb85e2ce9, 0xb6ae8fff, 0xffb70472, 0xc062d46f, 0x961f4894, 0xb21bad3d, 0x6d83bfc6, 0x7e44008e,
         0xa4506ceb, 0x668b2ff8, 0x04d24d6c, 0x948d25b6);
    Step(b, h, 62, 0x04d24d6c, 0xb85e2ce9, 0xb6ae8fff, 0xffb70472, 0x948d25b6, 0x961f4894, 0xb21bad3d, 0x6d83bfc6,
         0xbef9a3f7, 0xeeaba2cc, 0xd39a2165, 0xfb121210);
    Step(b, h, 63, 0xd39a2165, 0x04d24d6c, 0xb85e2ce9, 0xb6ae8fff, 0xfb121210, 0x948d25b6, 0x961f4894, 0xb21bad3d,
         0xc67178f2, 0x12b1edeb, 0x506e3058, 0x5ef50f24);
  }

  // ---------------------------------------------------------------- the first block of the message of 56 bytes

  lemma FirstWords16(b: Block)
    requires Words(b, 0, 0x61626364, 0x62636465, 0x63646566, 0x64656667, 0x65666768, 0x66676869, 0x6768696a, 0x68696a6b,
                      0x696a6b6c, 0x6a6b6c6d, 0x6b6c6d6e, 0x6c6d6e6f, 0x6d6e6f70, 0x6e6f7071, 0x80000000, 0x00000000)
    ensures Words(b, 16, 0xeb8012ad, 0xa7c3ae92, 0x76e93ba2, 0xba42e743, 0x92a92204, 0xd847e75e, 0x9e160036, 0xb280a7cb,
                      0xddeb1516, 0xf36586f4, 0x969cd048, 0xe959d99d, 0x6accc0ec, 0xf54cb098, 0x2af1b2da, 0xee59c4c9)
  {
    hide W;
    Mix(b, 16, 0x80000000, 0x6a6b6c6d, 0x62636465, 0x61626364, 0xeb8012ad);
    Mix(b, 17, 0x00000000, 0x6b6c6d6e, 0x63646566, 0x62636465, 0xa7c3ae92);
    Mix(b, 18, 0xeb8012ad, 0x6c6d6e6f, 0x64656667, 0x63646566, 0x76e93ba2);
    Mix(b, 19, 0xa7c3ae92, 0x6d6e6f70, 0x65666768, 0x64656667, 0xba42e743);
    Mix(b, 20, 0x76e93ba2, 0x6e6f7071, 0x66676869, 0x65666768, 0x92a92204);
    Mix(b, 21, 0xba42e743, 0x80000000, 0x6768696a, 0x66676869, 0xd847e75e);
    Mix(b, 22, 0x92a92204, 0x00000000, 0x68696a6b, 0x6768696a, 0x9e160036);
    Mix(b, 23, 0xd847e75e, 0xeb8012ad, 0x696a6b6c, 0x68696a6b, 0xb280a7cb);
    Mix(b, 24, 0x9e160036, 0xa7c3ae92, 0x6a6b6c6d, 0x696a6b6c, 0xddeb1516);
    Mix(b, 25, 0xb280a7cb, 0x76e93ba2, 0x6b6c6d6e, 0x6a6b6c6d, 0xf36586f4);
    Mix(b, 26, 0xddeb1516, 0xba42e743, 0x6c6d6e6f, 0x6b6c6d6e, 0x969cd048);
    Mix(b, 27, 0xf36586f4, 0x92a92204, 0x6d6e6f70, 0x6c6d6e6f, 0xe959d99d);
    Mix(b, 28, 0x969cd048, 0xd847e75e, 0x6e6f7071, 0x6d6e6f70, 0x6accc0ec);
    Mix(b, 29, 0xe959d99d, 0x9e160036, 0x80000000, 0x6e6f7071, 0xf54cb098);
    Mix(b, 30, 0x6accc0ec, 0xb280a7cb, 0x00000000, 0x80000000, 0x2af1b2da);
    Mix(b, 31, 0xf54cb098, 0xddeb1516, 0xeb8012ad, 0x00000000, 0xee59c4c9);
  }

  lemma FirstWords32(b: Block)
    requires Words(b, 16, 0xeb8012ad, 0xa7c3ae92, 0x76e93ba2, 0xba42e743, 0x92a92204, 0xd847e75e, 0x9e160036, 0xb280a7cb,
                      0xddeb1516, 0xf36586f4, 0x969cd048, 0xe959d99d, 0x6accc0ec, 0xf54cb098, 0x2af1b2da, 0xee59c4c9)
    ensures Words(b, 32, 0xa835e16a, 0x1dff4429, 0xd6e15959, 0xc397cd6e, 0x6f1801ca, 0x21574205, 0x35ff7a84, 0x9743ee78,
                      0xe44183e7, 0x0d09f00d, 0x9c89af54, 0x042d5bef, 0x71f134d0, 0x0f94f463, 0x7e49dc63, 0x6f65c997)
  {
    hide W;
    Mix(b, 32, 0x2af1b2da, 0xf36586f4, 0xa7c3ae92, 0xeb8012ad, 0xa835e16a);
    Mix(b, 33, 0xee59c4c9, 0x969cd048, 0x76e93ba2, 0xa7c3ae92, 0x1dff4429);
    Mix(b, 34, 0xa835e16a, 0xe959d99d, 0xba42e743, 0x76e93ba2, 0xd6e15959);
    Mix(b, 35, 0x1dff4429, 0x6accc0ec, 0x92a92204, 0xba42e743, 0xc397cd6e);
    Mix(b, 36, 0xd6e15959, 0xf54cb098, 0xd847e75e, 0x92a92204, 0x6f1801ca);
    Mix(b, 37, 0xc397cd6e, 0x2af1b2da, 0x9e160036, 0xd847e75e, 0x21574205);
    Mix(b, 38, 0x6f1801ca, 0xee59c4c9, 0xb280a7cb, 0x9e160036, 0x35ff7a84);
    Mix(b, 39, 0x21574205, 0xa835e16a, 0xddeb1516, 0xb280a7cb, 0x9743ee78);
    Mix(b, 40, 0x35ff7a84, 0x1dff4429, 0xf36586f4, 0xddeb1516, 0xe44183e7);
    Mix(b, 41, 0x9743ee78, 0xd6e15959, 0x969cd048, 0xf36586f4, 0x0d09f00d);
    Mix(b, 42, 0xe44183e7, 0xc397cd6e, 0xe959d99d, 0x969cd048, 0x9c89af54);
    Mix(b, 43, 0x0d09f00d, 0x6f1801ca, 0x6accc0ec, 0xe959d99d, 0x042d5bef);
    Mix(b, 44, 0x9c89af54, 0x21574205, 0xf54cb098, 0x6accc0ec, 0x71f134d0);
    Mix(b, 45, 0x042d5bef, 0x35ff7a84, 0x2af1b2da, 0xf54cb098, 0x0f94f463);
    Mix(b, 46, 0x71f134d0, 0x9743ee78, 0xee59c4c9, 0x2af1b2da, 0x7e49dc63);
    Mix(b, 47, 0x0f94f463, 0xe44183e7, 0xa835e16a, 0xee59c4c9, 0x6f65c997);
  }

  lemma FirstWords48(b: Block)
    requires Words(b, 32, 0xa835e16a, 0x1dff4429, 0xd6e15959, 0xc397cd6e, 0x6f1801ca, 0x21574205, 0x35ff7a84, 0x9743ee78,
                      0xe44183e7, 0x0d09f00d, 0x9c89af54, 0x042d5bef, 0x71f134d0, 0x0f94f463, 0x7e49dc63, 0x6f65c997)
    ensures Words(b, 48, 0x0b706583, 0x179312ca, 0x503054e9, 0xba125c39, 0x7e9392c9, 0xd5cbaa1e, 0x78e0585d, 0xf6e7611c,
                      0x8ac830ce, 0x8b47a303, 0xfd6e627f, 0x8c6e2c6a, 0x4001adf1, 0x1a3dd097, 0xa9df6f62, 0x6aa60a39)
  {
    hide W;
    Mix(b, 48, 0x7e49dc63, 0x0d09f00d, 0x1dff4429, 0xa835e16a, 0x0b706583);
    Mix(b, 49, 0x6f65c997, 0x9c89af54, 0xd6e15959, 0x1dff4429, 0x179312ca);
    Mix(b, 50, 0x0b706583, 0x042d5bef, 0xc397cd6e, 0xd6e15959, 0x503054e9);
    Mix(b, 51, 0x179312ca, 0x71f134d0, 0x6f1801ca, 0xc397cd6e, 0xba125c39);
    Mix(b, 52, 0x503054e9, 0x0f94f463, 0x21574205, 0x6f1801ca, 0x7e9392c9);
    Mix(b, 53, 0xba125c39, 0x7e49dc63, 0x35ff7a84, 0x21574205, 0xd5cbaa1e);
    Mix(b, 54, 0x7e9392c9, 0x6f65c997, 0x9743ee78, 0x35ff7a84, 0x78e0585d);
    Mix(b, 55, 0xd5cbaa1e, 0x0b706583, 0xe44183e7, 0x9743ee78, 0xf6e7611c);
    Mix(b, 56, 0x78e0585d, 0x179312ca, 0x0d09f00d, 0xe44183e7, 0x8ac830ce);
    Mix(b, 57, 0xf6e7611c, 0x503054e9, 0x9c89af54, 0x0d09f00d, 0x8b47a303);
    Mix(b, 58, 0x8ac830ce, 0xba125c39, 0x042d5bef, 0x9c89af54, 0xfd6e627f);
    Mix(b, 59, 0x8b47a303, 0x7e9392c9, 0x71f134d0, 0x042d5bef, 0x8c6e2c6a);
    Mix(b, 60, 0xfd6e627f, 0xd5cbaa1e, 0x0f94f463, 0x71f134d0, 0x4001adf1);
    Mix(b, 61, 0x8c6e2c6a, 0x78e0585d, 0x7e49dc63, 0x0f94f463, 0x1a3dd097);
    Mix(b, 62, 0x4001adf1, 0xf6e7611c, 0x6f65c997, 0x7e49dc63, 0xa9df6f62);
    Mix(b, 63, 0x1a3dd097, 0x8ac830ce, 0x0b706583, 0x6f65c997, 0x6aa60a39);
  }

  lemma FirstRounds0(h: Vars, b: Block)
    requires Words(b, 0, 0x61626364, 0x62636465, 0x63646566, 0x64656667, 0x65666768, 0x66676869, 0x6768696a, 0x68696a6b,
                      0x696a6b6c, 0x6a6b6c6d, 0x6b6c6d6e, 0x6c6d6e6f, 0x6d6e6f70, 0x6e6f7071, 0x80000000, 0x00000000)
    requires Rounds(h, b, 0) ==
      Vars(0x6a09e667, 0xbb67ae85, 0x3c6ef372, 0xa54ff53a, 0x510e527f, 0x9b05688c, 0x1f83d9ab, 0x5be0cd19)
    ensures Rounds(h, b, 16) ==
      Vars(0xc3486194, 0xdd16cbb3, 0xd68e6457, 0x101a4861, 0x1496a54f, 0x9162aded, 0x9243f8af, 0x839a0fc9)
  {
    hide W, Rounds, Constant;
    Constants0();
    Constants8();
    Step(b, h, 0, 0x6a09e667, 0xbb67ae85, 0x3c6ef372, 0xa54ff53a, 0x510e527f, 0x9b05688c, 0x1f83d9ab, 0x5be0cd19,
         0x428a2f98, 0x61626364, 0x5d6aebb1, 0xfa2a4606);
    Step(b, h, 1, 0x5d6aebb1, 0x6a09e667, 0xbb67ae85, 0x3c6ef372, 0xfa2a4606, 0x510e527f, 0x9b05688c, 0x1f83d9ab,
         0x71374491, 0x62636465, 0x2f2d5fcf, 0x4eb1cfce);
    Step(b, h, 2, 0x2f2d5fcf, 0x5d6aebb1, 0x6a09e667, 0xbb67ae85, 0x4eb1cfce, 0xfa2a4606, 0x510e527f, 0x9b05688c,
         0xb5c0fbcf, 0x63646566, 0x97651825, 0x62d5c49e);
    Step(b, h, 3, 0x97651825, 0x2f2d5fcf, 0x5d6aebb1, 0x6a09e667, 0x62d5c49e, 0x4eb1cfce, 0xfa2a4606, 0x510e527f,
         0xe9b5dba5, 0x64656667, 0x4a8d64d5, 0x6494841b);
    Step(b, h, 4, 0x4a8d64d5, 0x97651825, 0x2f2d5fcf, 0x5d6aebb1, 0x6494841b, 0x62d5c49e, 0x4eb1cfce, 0xfa2a4606,
         0x3956c25b, 0x65666768, 0xf921c212, 0x05c4f88a);
    Step(b, h, 5, 0xf921c212, 0x4a8d64d5, 0x97651825, 0x2f2d5fcf, 0x05c4f88a, 0x6494841b, 0x62d5c49e, 0x4eb1cfce,
         0x59f111f1, 0x66676869, 0x55c8ef48, 0x7ff91c94);
    Step(b, h, 6, 0x55c8ef48, 0xf921c212, 0x4a8d64d5, 0x97651825, 0x7ff91c94, 0x05c4f88a, 0x6494841b, 0x62d5c49e,
         0x923f82a4, 0x6768696a, 0x485835b7, 0x39a5b2ca);
    Step(b, h, 7, 0x485835b7, 0x55c8ef48, 0xf921c212, 0x4a8d64d5, 0x39a5b2ca, 0x7ff91c94, 0x05c4f88a, 0x6494841b,
         0xab1c5ed5, 0x68696a6b, 0xd237e6db, 0xa401d211);
    Step(b, h, 8, 0xd237e6db, 0x485835b7, 0x55c8ef48, 0xf921c212, 0xa401d211, 0x39a5b2ca, 0x7ff91c94, 0x05c4f88a,
         0xd807aa98, 0x696a6b6c, 0x359f2bce, 0xc09ffec4);
    Step(b, h, 9, 0x359f2bce, 0xd237e6db, 0x485835b7, 0x55c8ef48, 0xc09ffec4, 0xa401d211, 0x39a5b2ca, 0x7ff91c94,
         0x12835b01, 0x6a6b6c6d, 0x3a474b2b, 0x9037b3b8);
    Step(b, h, 10, 0x3a474b2b, 0x359f2bce, 0xd237e6db, 0x485835b7, 0x9037b3b8, 0xc09ffec4, 0xa401d211, 0x39a5b2ca,
         0x243185be, 0x6b6c6d6e, 0xb8e2b4cb, 0x443ed29e);
    Step(b, h, 11, 0xb8e2b4cb, 0x3a474b2b, 0x359f2bce, 0xd237e6db, 0x443ed29e, 0x9037b3b8, 0xc09ffec4, 0xa401d211,
         0x550c7dc3, 0x6c6d6e6f, 0x1762215c, 0xee1c97a8);
    Step(b, h, 12, 0x1762215c, 0xb8e2b4cb, 0x3a474b2b, 0x359f2bce, 0xee1c97a8, 0x443ed29e, 0x9037b3b8, 0xc09ffec4,
         0x72be5d74, 0x6d6e6f70, 0x101a4861, 0x839a0fc9);
    Step(b, h, 13, 0x101a4861, 0x1762215c, 0xb8e2b4cb, 0x3a474b2b, 0x839a0fc9, 0xee1c97a8, 0x443ed29e, 0x9037b3b8,
         0x80deb1fe, 0x6e6f7071, 0xd68e6457, 0x9243f8af);
    Step(b, h, 14, 0xd68e6457, 0x101a4861, 0x1762215c, 0xb8e2b4cb, 0x9243f8af, 0x839a0fc9, 0xee1c97a8, 0x443ed29e,
         0x9bdc06a7, 0x80000000, 0xdd16cbb3, 0x9162aded);
    Step(b, h, 15, 0xdd16cbb3, 0xd68e6457, 0x101a4861, 0x1762215c, 0x9162aded, 0x9243f8af, 0x839a0fc9, 0xee1c97a8,
         0xc19bf174, 0x00000000, 0xc3486194, 0x1496a54f);
  }

  lemma FirstRounds16(h: Vars, b: Block)
    requires Words(b, 16, 0xeb8012ad, 0xa7c3ae92, 0x76e93ba2, 0xba42e743, 0x92a92204, 0xd847e75e, 0x9e160036, 0xb280a7cb,
                      0xddeb1516, 0xf36586f4, 0x969cd048, 0xe959d99d, 0x6accc0ec, 0xf54cb098, 0x2af1b2da, 0xee59c4c9)
    requires Rounds(h, b, 16) ==
      Vars(0xc3486194, 0xdd16cbb3, 0xd68e6457, 0x101a4861, 0x1496a54f, 0x9162aded, 0x9243f8af, 0x839a0fc9)
    ensures Rounds(h, b, 32) ==
      Vars(0x5581ab07, 0xeb43f3ed, 0xdf7151a0, 0x74bcf468, 0xdf980085, 0x0635d880, 0x7629c961, 0x72abaecd)
  {
    hide W, Rounds, Constant;
    Constants16();
    Constants24();
    Step(b, h, 16, 0xc3486194, 0xdd16cbb3, 0xd68e6457, 0x101a4861, 0x1496a54f, 0x9162aded, 0x9243f8af, 0x839a0fc9,
         0xe49b69c1, 0xeb8012ad, 0xb9dcacb1, 0xd4f64250);
    Step(b, h, 17, 0xb9dcacb1, 0xc3486194, 0xdd16cbb3, 0xd68e6457, 0xd4f64250, 0x1496a54f, 0x9162aded, 0x9243f8af,
         0xefbe4786, 0xa7c3ae92, 0x046a193e, 0x885370b6);
    Step(b, h, 18, 0x046a193e, 0xb9dcacb1, 0xc3486194, 0xdd16cbb3, 0x885370b6, 0xd4f64250, 0x1496a54f, 0x9162aded,
         0x0fc19dc6, 0x76e93ba2, 0xf402f058, 0x6f433549);
    Step(b, h, 19, 0xf402f058, 0x046a193e, 0xb9dcacb1, 0xc3486194, 0x6f433549, 0x885370b6, 0xd4f64250, 0x1496a54f,
         0x240ca1cc, 0xba42e743, 0x2139187b, 0x7c304206);
    Step(b, h, 20, 0x2139187b, 0xf402f058, 0x046a193e, 0xb9dcacb1, 0x7c304206, 0x6f433549, 0x885370b6, 0xd4f64250,
         0x2de92c6f, 0x92a92204, 0xd70ac17d, 0x7cc6b262);
    Step(b, h, 21, 0xd70ac17d, 0x2139187b, 0xf402f058, 0x046a193e, 0x7cc6b262, 0x7c304206, 0x6f433549, 0x885370b6,
         0x4a7484aa, 0xd847e75e, 0x1b2b66b8, 0xd560b028);
    Step(b, h, 22, 0x1b2b66b8, 0xd70ac17d, 0x2139187b, 0xf402f058, 0xd560b028, 0x7cc6b262, 0x7c304206, 0x6f433549,
         0x5cb0a9dc, 0x9e160036, 0xae2e2d4f, 0xf074fc95);
    Step(b, h, 23, 0xae2e2d4f, 0x1b2b66b8, 0xd70ac17d, 0x2139187b, 0xf074fc95, 0xd560b028, 0x7cc6b262, 0x7c304206,
         0x76f988da, 0xb280a7cb, 0x59fce6b9, 0xa2c7d51d);
    Step(b, h, 24, 0x59fce6b9, 0xae2e2d4f, 0x1b2b66b8, 0xd70ac17d, 0xa2c7d51d, 0xf074fc95, 0xd560b028, 0x7cc6b262,
         0x983e5152, 0xddeb1516, 0x4a885065, 0x763597fb);
    Step(b, h, 25, 0x4a885065, 0x59fce6b9, 0xae2e2d4f, 0x1b2b66b8, 0x763597fb, 0xa2c7d51d, 0xf074fc95, 0xd560b028,
         0xa831c66d, 0xf36586f4, 0x573221da, 0x36e74eb4);
    Step(b, h, 26, 0x573221da, 0x4a885065, 0x59fce6b9, 0xae2e2d4f, 0x36e74eb4, 0x763597fb, 0xa2c7d51d, 0xf074fc95,
         0xb00327c8, 0x969cd048, 0x128661da, 0x1162d575);
    Step(b, h, 27, 0x128661da, 0x573221da, 0x4a885065, 0x59fce6b9, 0x1162d575, 0x36e74eb4, 0x763597fb, 0xa2c7d51d,
         0xbf597fc7, 0xe959d99d, 0x73f858af, 0xe77c797f);
    Step(b, h, 28, 0x73f858af, 0x128661da, 0x573221da, 0x4a885065, 0xe77c797f, 0x1162d575, 0x36e74eb4, 0x763597fb,
         0xc6e00bf3, 0x6accc0ec, 0x74bcf468, 0x72abaecd);
    Step(b, h, 29, 0x74bcf468, 0x73f858af, 0x128661da, 0x573221da, 0x72abaecd, 0xe77c797f, 0x1162d575, 0x36e74eb4,
         0xd5a79147, 0xf54cb098, 0xdf7151a0, 0x7629c961);
    Step(b, h, 30, 0xdf7151a0, 0x74bcf468, 0x73f858af, 0x128661da, 0x7629c961, 0x72abaecd, 0xe77c797f, 0x1162d575,
         0x06ca6351, 0x2af1b2da, 0xeb43f3ed, 0x0635d880);
    Step(b, h, 31, 0xeb43f3ed, 0xdf7151a0, 0x74bcf468, 0x73f858af, 0x0635d880, 0x7629c961, 0x72abaecd, 0xe77c797f,
         0x14292967, 0xee59c4c9, 0x5581ab07, 0xdf980085);
  }

  lemma FirstRounds32(h: Vars, b: Block)
    requires Words(b, 32, 0xa835e16a, 0x1dff4429, 0xd6e15959, 0xc397cd6e, 0x6f1801ca, 0x21574205, 0x35ff7a84, 0x9743ee78,
                      0xe44183e7, 0x0d09f00d, 0x9c89af54, 0x042d5bef, 0x71f134d0, 0x0f94f463, 0x7e49dc63, 0x6f65c997)
    requires Rounds(h, b, 32) ==
      Vars(0x5581ab07, 0xeb43f3ed, 0xdf7151a0, 0x74bcf468, 0xdf980085, 0x0635d880, 0x7629c961, 0x72abaecd)
    ensures Rounds(h, b, 48) ==
      Vars(0x13d82741, 0x165be9cd, 0x18f0d19d, 0xde71e2f2, 0xa7802a4d, 0xa483f080, 0x6b88472c, 0xff61c636)
  {
    hide W, Rounds, Constant;
    Constants32();
    Constants40();
    Step(b, h, 32, 0x5581ab07, 0xeb43f3ed, 0xdf7151a0, 0x74bcf468, 0xdf980085, 0x0635d880, 0x7629c961, 0x72abaecd,
         0x27b70a85, 0xa835e16a, 0x9fc905c8, 0xa94d2af1);
    Step(b, h, 33, 0x9fc905c8, 0x5581ab07, 0xeb43f3ed, 0xdf7151a0, 0xa94d2af1, 0xdf980085, 0x0635d880, 0x7629c961,
         0x2e1b2138, 0x1dff4429, 0x9ce5a62f, 0x6ef3b6bd);
    Step(b, h, 34, 0x9ce5a62f, 0x9fc905c8, 0x5581ab07, 0xeb43f3ed, 0x6ef3b6bd, 0xa94d2af1, 0xdf980085, 0x0635d880,
         0x4d2c6dfc, 0xd6e15959, 0x1df8e885, 0x2a9e048e);
    Step(b, h, 35, 0x1df8e885, 0x9ce5a62f, 0x9fc905c8, 0x5581ab07, 0x2a9e048e, 0x6ef3b6bd, 0xa94d2af1, 0xdf980085,
         0x53380d13, 0xc397cd6e, 0x0786dce8, 0xde2a21d1);
    Step(b, h, 36, 0x0786dce8, 0x1df8e885, 0x9ce5a62f, 0x9fc905c8, 0xde2a21d1, 0x2a9e048e, 0x6ef3b6bd, 0xa94d2af1,
         0x650a7354, 0x6f1801ca, 0x2c55d3a6, 0xb067c1af);
    Step(b, h, 37, 0x2c55d3a6, 0x0786dce8, 0x1df8e885, 0x9ce5a62f, 0xb067c1af, 0xde2a21d1, 0x2a9e048e, 0x6ef3b6bd,
         0x766a0abb, 0x21574205, 0xa985b4be, 0xf72bf353);
    Step(b, h, 38, 0xa985b4be, 0x2c55d3a6, 0x0786dce8, 0x1df8e885, 0xf72bf353, 0xb067c1af, 0xde2a21d1, 0x2a9e048e,
         0x81c2c92e, 0x35ff7a84, 0x91ac9d5d, 0x68d8d590);
    Step(b, h, 39, 0x91ac9d5d, 0xa985b4be, 0x2c55d3a6, 0x0786dce8, 0x68d8d590, 0xf72bf353, 0xb067c1af, 0xde2a21d1,
         0x92722c85, 0x9743ee78, 0x7e4d30b8, 0x9f5b9b6d);
    Step(b, h, 40, 0x7e4d30b8, 0x91ac9d5d, 0xa985b4be, 0x2c55d3a6, 0x9f5b9b6d, 0x68d8d590, 0xf72bf353, 0xb067c1af,
         0xa2bfe8a1, 0xe44183e7, 0x7e056794, 0x423b26c0);
    Step(b, h, 41, 0x7e056794, 0x7e4d30b8, 0x91ac9d5d, 0xa985b4be, 0x423b26c0, 0x9f5b9b6d, 0x68d8d590, 0xf72bf353,
         0xa81a664b, 0x0d09f00d, 0x508a16ab, 0x45459d97);
    Step(b, h, 42, 0x508a16ab, 0x7e056794, 0x7e4d30b8, 0x91ac9d5d, 0x45459d97, 0x423b26c0, 0x9f5b9b6d, 0x68d8d590,
         0xc24b8b70, 0x9c89af54, 0xb62c7013, 0x80a92a00);
    Step(b, h, 43, 0xb62c7013, 0x508a16ab, 0x7e056794, 0x7e4d30b8, 0x80a92a00, 0x45459d97, 0x423b26c0, 0x9f5b9b6d,
         0xc76c51a3, 0x042d5bef, 0x167361de, 0x41dd3844);
    Step(b, h, 44, 0x167361de, 0xb62c7013, 0x508a16ab, 0x7e056794, 0x41dd3844, 0x80a92a00, 0x45459d97, 0x423b26c0,
         0xd192e819, 0x71f134d0, 0xde71e2f2, 0xff61c636);
    Step(b, h, 45, 0xde71e2f2, 0x167361de, 0xb62c7013, 0x508a16ab, 0xff61c636, 0x41dd3844, 0x80a92a00, 0x45459d97,
         0xd6990624, 0x0f94f463, 0x18f0d19d, 0x6b88472c);
    Step(b, h, 46, 0x18f0d19d, 0xde71e2f2, 0x167361de, 0xb62c7013, 0x6b88472c, 0xff61c636, 0x41dd3844, 0x80a92a00,
         0xf40e3585, 0x7e49dc63, 0x165be9cd, 0xa483f080);
    Step(b, h, 47, 0x165be9cd, 0x18f0d19d, 0xde71e2f2, 0x167361de, 0xa483f080, 0x6b88472c, 0xff61c636, 0x41dd3844,
         0x106aa070, 0x6f65c997, 0x13d82741, 0xa7802a4d);
  }

  lemma FirstRounds48(h: Vars, b: Block)
    requires Words(b, 48, 0x0b706583, 0x179312ca, 0x503054e9, 0xba125c39, 0x7e9392c9, 0xd5cbaa1e, 0x78e0585d, 0xf6e7611c,
                      0x8ac830ce, 0x8b47a303, 0xfd6e627f, 0x8c6e2c6a, 0x4001adf1, 0x1a3dd097, 0xa9df6f62, 0x6aa60a39)
    requires Rounds(h, b, 48) ==
      Vars(0x13d82741, 0x165be9cd, 0x18f0d19d, 0xde71e2f2, 0xa7802a4d, 0xa483f080, 0x6b88472c, 0xff61c636)
    ensures Rounds(h, b, 64) ==
      Vars(0x1bdc6f6f, 0x86126910, 0xf6f443f8, 0xbcfce922, 0x25d2430a, 0x2fc08f85, 0xacc75916, 0x962d8621)
  {
    hide W, Rounds, Constant;
    Constants48();
    Constants56();
    Step(b, h, 48, 0x13d82741, 0x165be9cd, 0x18f0d19d, 0xde71e2f2, 0xa7802a4d, 0xa483f080, 0x6b88472c, 0xff61c636,
         0x19a4c116, 0x0b706583, 0x017b9d99, 0xaeb10b60);
    Step(b, h, 49, 0x017b9d99, 0x13d82741, 0x165be9cd, 0x18f0d19d, 0xaeb10b60, 0xa7802a4d, 0xa483f080, 0x6b88472c,
         0x1e376c08, 0x179312ca, 0x543c99a1, 0x16f134b6);
    Step(b, h, 50, 0x543c99a1, 0x017b9d99, 0x13d82741, 0x165be9cd, 0x16f134b6, 0xaeb10b60, 0xa7802a4d, 0xa483f080,
         0x2748774c, 0x503054e9, 0x758ca97a, 0x100cf2ea);
    Step(b, h, 51, 0x758ca97a, 0x543c99a1, 0x017b9d99, 0x13d82741, 0x100cf2ea, 0x16f134b6, 0xaeb10b60, 0xa7802a4d,
         0x34b0bcb5, 0xba125c39, 0x81c1cde0, 0x5c47eb7b);
    Step(b, h, 52, 0x81c1cde0, 0x758ca97a, 0x543c99a1, 0x017b9d99, 0x5c47eb7b, 0x100cf2ea, 0x16f134b6, 0xaeb10b60,
         0x391c0cb3, 0x7e9392c9, 0xb8d55619, 0x1c806a61);
    Step(b, h, 53, 0xb8d55619, 0x81c1cde0, 0x758ca97a, 0x543c99a1, 0x1c806a61, 0x5c47eb7b, 0x100cf2ea, 0x16f134b6,
         0x4ed8aa4a, 0xd5cbaa1e, 0x1d6de87a, 0x3443bed4);
    Step(b, h, 54, 0x1d6de87a, 0xb8d55619, 0x81c1cde0, 0x758ca97a, 0x3443bed4, 0x1c806a61, 0x5c47eb7b, 0x100cf2ea,
         0x5b9cca4f, 0x78e0585d, 0xf907b313, 0x61a41711);
    Step(b, h, 55, 0xf907b313, 0x1d6de87a, 0xb8d55619, 0x81c1cde0, 0x61a41711, 0x3443bed4, 0x1c806a61, 0x5c47eb7b,
         0x682e6ff3, 0xf6e7611c, 0x9e57c4a0, 0xeec13548);
    Step(b, h, 56, 0x9e57c4a0, 0xf907b313, 0x1d6de87a, 0xb8d55619, 0xeec13548, 0x61a41711, 0x3443bed4, 0x1c806a61,
         0x748f82ee, 0x8ac830ce, 0x71629856, 0x2f6c8c4e);
    Step(b, h, 57, 0x71629856, 0x9e57c4a0, 0xf907b313, 0x1d6de87a, 0x2f6c8c4e, 0xeec13548, 0x61a41711, 0x3443bed4,
         0x78a5636f, 0x8b47a303, 0x7c015a2c, 0xcb9d3dd0);
    Step(b, h, 58, 0x7c015a2c, 0x71629856, 0x9e57c4a0, 0xf907b313, 0xcb9d3dd0, 0x2f6c8c4e, 0xeec13548, 0x61a41711,
         0x84c87814, 0xfd6e627f, 0x921fccb6, 0x43d8a034);
    Step(b, h, 59, 0x921fccb6, 0x7c015a2c, 0x71629856, 0x9e57c4a0, 0x43d8a034, 0xcb9d3dd0, 0x2f6c8c4e, 0xeec13548,
         0x8cc70208, 0x8c6e2c6a, 0xe18f259a, 0x51e15869);
    Step(b, h, 60, 0xe18f259a, 0x921fccb6, 0x7c015a2c, 0x71629856, 0x51e15869, 0x43d8a034, 0xcb9d3dd0, 0x2f6c8c4e,
         0x90befffa, 0x4001adf1, 0xbcfce922, 0x962d8621);
    Step(b, h, 61, 0xbcfce922, 0xe18f259a, 0x921fccb6, 0x7c015a2c, 0x962d8621, 0x51e15869, 0x43d8a034, 0xcb9d3dd0,
         0xa4506ceb, 0x1a3dd097, 0xf6f443f8, 0xacc75916);
    Step(b, h, 62, 0xf6f443f8, 0xbcfce922, 0xe18f259a, 0x921fccb6, 0xacc75916, 0x962d8621, 0x51e15869, 0x43d8a034,
         0xbef9a3f7, 0xa9df6f62, 0x86126910, 0x2fc08f85);
    Step(b, h, 63, 0x86126910, 0xf6f443f8, 0xbcfce922, 0xe18f259a, 0x2fc08f85, 0xacc75916, 0x962d8621, 0x51e15869,
         0xc67178f2, 0x6aa60a39, 0x1bdc6f6f, 0x25d2430a);
  }

  // ---------------------------------------------------------------- its last block

  lemma LastWords16(b: Block)
    requires Words(b, 0, 0x00000000, 0x00000000, 0x00000000, 0x00000000, 0x00000000, 0x00000000, 0x00000000, 0x00000000,
                      0x00000000, 0x00000000, 0x00000000, 0x00000000, 0x00000000, 0x00000000, 0x00000000, 0x000001c0)
    ensures Words(b, 16, 0x00000000, 0x00d80000, 0x00000000, 0x00003677, 0x00000000, 0x1df5600d, 0x000001c0, 0x1c00501c,
                      0x01b00000, 0x220a8d94, 0x0000a365, 0x177017e7, 0x63d38035, 0x090ab713, 0x4c7539ca, 0x0f19a8c9)
  {
    hide W;
    MixZeros(b, 16);
    Mix(b, 17, 0x000001c0, 0x00000000, 0x00000000, 0x00000000, 0x00d80000);
    MixZeros(b, 18);
    Mix(b, 19, 0x00d80000, 0x00000000, 0x00000000, 0x00000000, 0x00003677);
    MixZeros(b, 20);
    Mix(b, 21, 0x00003677, 0x00000000, 0x00000000, 0x00000000, 0x1df5600d);
    Mix(b, 22, 0x00000000, 0x000001c0, 0x00000000, 0x00000000, 0x000001c0);
    Mix(b, 23, 0x1df5600d, 0x00000000, 0x00000000, 0x00000000, 0x1c00501c);
    Mix(b, 24, 0x000001c0, 0x00d80000, 0x00000000, 0x00000000, 0x01b00000);
    Mix(b, 25, 0x1c00501c, 0x00000000, 0x00000000, 0x00000000, 0x220a8d94);
    Mix(b, 26, 0x01b00000, 0x00003677, 0x00000000, 0x00000000, 0x0000a365);
    Mix(b, 27, 0x220a8d94, 0x00000000, 0x00000000, 0x00000000, 0x177017e7);
    Mix(b, 28, 0x0000a365, 0x1df5600d, 0x00000000, 0x00000000, 0x63d38035);
    Mix(b, 29, 0x177017e7, 0x000001c0, 0x00000000, 0x00000000, 0x090ab713);
    Mix(b, 30, 0x63d38035, 0x1c00501c, 0x000001c0, 0x00000000, 0x4c7539ca);
    Mix(b, 31, 0x090ab713, 0x01b00000, 0x00000000, 0x000001c0, 0x0f19a8c9);
  }

  lemma LastWords32(b: Block)
    requires Words(b, 16, 0x00000000, 0x00d80000, 0x00000000, 0x00003677, 0x00000000, 0x1df5600d, 0x000001c0, 0x1c00501c,
                      0x01b00000, 0x220a8d94, 0x0000a365, 0x177017e7, 0x63d38035, 0x090ab713, 0x4c7539ca, 0x0f19a8c9)
    ensures Words(b, 32, 0x5df4b0c4, 0xe257036a, 0xc97bb6f1, 0xc5b46f4d, 0xf8253c4e, 0xa558d189, 0x78696285, 0xed07117f,
                      0x107358f6, 0x390ae496, 0x565010a2, 0xc51d7d44, 0x9e74c972, 0x6614b561, 0x30fc129d, 0x9ac684a8)
  {
    hide W;
    Mix(b, 32, 0x4c7539ca, 0x220a8d94, 0x00d80000, 0x00000000, 0x5df4b0c4);
    Mix(b, 33, 0x0f19a8c9, 0x0000a365, 0x00000000, 0x00d80000, 0xe257036a);
    Mix(b, 34, 0x5df4b0c4, 0x177017e7, 0x00003677, 0x00000000, 0xc97bb6f1);
    Mix(b, 35, 0xe257036a, 0x63d38035, 0x00000000, 0x00003677, 0xc5b46f4d);
    Mix(b, 36, 0xc97bb6f1, 0x090ab713, 0x1df5600d, 0x00000000, 0xf8253c4e);
    Mix(b, 37, 0xc5b46f4d, 0x4c7539ca, 0x000001c0, 0x1df5600d, 0xa558d189);
    Mix(b, 38, 0xf8253c4e, 0x0f19a8c9, 0x1c00501c, 0x000001c0, 0x78696285);
    Mix(b, 39, 0xa558d189, 0x5df4b0c4, 0x01b00000, 0x1c00501c, 0xed07117f);
    Mix(b, 40, 0x78696285, 0xe257036a, 0x220a8d94, 0x01b00000, 0x107358f6);
    Mix(b, 41, 0xed07117f, 0xc97bb6f1, 0x0000a365, 0x220a8d94, 0x390ae496);
    Mix(b, 42, 0x107358f6, 0xc5b46f4d, 0x177017e7, 0x0000a365, 0x565010a2);
    Mix(b, 43, 0x390ae496, 0xf8253c4e, 0x63d38035, 0x177017e7, 0xc51d7d44);
    Mix(b, 44, 0x565010a2, 0xa558d189, 0x090ab713, 0x63d38035, 0x9e74c972);
    Mix(b, 45, 0xc51d7d44, 0x78696285, 0x4c7539ca, 0x090ab713, 0x6614b561);
    Mix(b, 46, 0x9e74c972, 0xed07117f, 0x0f19a8c9, 0x4c7539ca, 0x30fc129d);
    Mix(b, 47, 0x6614b561, 0x107358f6, 0x5df4b0c4, 0x0f19a8c9, 0x9ac684a8);
  }

  lemma LastWords48(b: Block)
    requires Words(b, 32, 0x5df4b0c4, 0xe257036a, 0xc97bb6f1, 0xc5b46f4d, 0xf8253c4e, 0xa558d189, 0x78696285, 0xed07117f,
                      0x107358f6, 0x390ae496, 0x565010a2, 0xc51d7d44, 0x9e74c972, 0x6614b561, 0x30fc129d, 0x9ac684a8)
    ensures Words(b, 48, 0x2b658dbd, 0xe290f793, 0x9eebb24c, 0x9713b5de, 0x41061ab7, 0xe022e23b, 0x0772079e, 0x7de22d9c,
                      0xc8b83778, 0x75a79849, 0xd93dbddb, 0x0a036c9d, 0xcb4f6ac6, 0x823f97e2, 0xea2f2a7a, 0xb9018b52)
  {
    hide W;
    Mix(b, 48, 0x30fc129d, 0x390ae496, 0xe257036a, 0x5df4b0c4, 0x2b658dbd);
    Mix(b, 49, 0x9ac684a8, 0x565010a2, 0xc97bb6f1, 0xe257036a, 0xe290f793);
    Mix(b, 50, 0x2b658dbd, 0xc51d7d44, 0xc5b46f4d, 0xc97bb6f1, 0x9eebb24c);
    Mix(b, 51, 0xe290f793, 0x9e74c972, 0xf8253c4e, 0xc5b46f4d, 0x9713b5de);
    Mix(b, 52, 0x9eebb24c, 0x6614b561, 0xa558d189, 0xf8253c4e, 0x41061ab7);
    Mix(b, 53, 0x9713b5de, 0x30fc129d, 0x78696285, 0xa558d189, 0xe022e23b);
    Mix(b, 54, 0x41061ab7, 0x9ac684a8, 0xed07117f, 0x78696285, 0x0772079e);
    Mix(b, 55, 0xe022e23b, 0x2b658dbd, 0x107358f6, 0xed07117f, 0x7de22d9c);
    Mix(b, 56, 0x0772079e, 0xe290f793, 0x390ae496, 0x107358f6, 0xc8b83778);
    Mix(b, 57, 0x7de22d9c, 0x9eebb24c, 0x565010a2, 0x390ae496, 0x75a79849);
    Mix(b, 58, 0xc8b83778, 0x9713b5de, 0xc51d7d44, 0x565010a2, 0xd93dbddb);
    Mix(b, 59, 0x75a79849, 0x41061ab7, 0x9e74c972, 0xc51d7d44, 0x0a036c9d);
    Mix(b, 60, 0xd93dbddb, 0xe022e23b, 0x6614b561, 0x9e74c972, 0xcb4f6ac6);
    Mix(b, 61, 0x0a036c9d, 0x0772079e, 0x30fc129d, 0x6614b561, 0x823f97e2);
    Mix(b, 62, 0xcb4f6ac6, 0x7de22d9c, 0x9ac684a8, 0x30fc129d, 0xea2f2a7a);
    Mix(b, 63, 0x823f97e2, 0xc8b83778, 0x2b658dbd, 0x9ac684a8, 0xb9018b52);
  }

  lemma LastRounds0(h: Vars, b: Block)
    requires Words(b, 0, 0x00000000, 0x00000000, 0x00000000, 0x00000000, 0x00000000, 0x00000000, 0x00000000, 0x00000000,
                      0x00000000, 0x00000000, 0x00000000, 0x00000000, 0x00000000, 0x00000000, 0x00000000, 0x000001c0)
    requires Rounds(h, b, 0) ==
      Vars(0x85e655d6, 0x417a1795, 0x3363376a, 0x624cde5c, 0x76e09589, 0xcac5f811, 0xcc4b32c1, 0xf20e533a)
    ensures Rounds(h, b, 16) ==
      Vars(0x16a8cc79, 0x0cea5cbc, 0xd74080fa, 0x35ee996d, 0x0fcb1f6f, 0x60356548, 0x68aa893f, 0x5c24e2a2)
  {
    hide W, Rounds, Constant;
    Constants0();
    Constants8();
    Step(b, h, 0, 0x85e655d6, 0x417a1795, 0x3363376a, 0x624cde5c, 0x76e09589, 0xcac5f811, 0xcc4b32c1, 0xf20e533a,
         0x428a2f98, 0x00000000, 0x7c20c838, 0x4670ae6e);
    Step(b, h, 1, 0x7c20c838, 0x85e655d6, 0x417a1795, 0x3363376a, 0x4670ae6e, 0x76e09589, 0xcac5f811, 0xcc4b32c1,
         0x71374491, 0x00000000, 0x7c3c0f86, 0x8c51be64);
    Step(b, h, 2, 0x7c3c0f86, 0x7c20c838, 0x85e655d6, 0x417a1795, 0x8c51be64, 0x4670ae6e, 0x76e09589, 0xcac5f811,
         0xb5c0fbcf, 0x00000000, 0xfd1eebdc, 0xaf71b9ea);
    Step(b, h, 3, 0xfd1eebdc, 0x7c3c0f86, 0x7c20c838, 0x85e655d6, 0xaf71b9ea, 0x8c51be64, 0x4670ae6e, 0x76e09589,
         0xe9b5dba5, 0x00000000, 0xf268faa9, 0xe20362ef);
    Step(b, h, 4, 0xf268faa9, 0xfd1eebdc, 0x7c3c0f86, 0x7c20c838, 0xe20362ef, 0xaf71b9ea, 0x8c51be64, 0x4670ae6e,
         0x3956c25b, 0x00000000, 0x185a5d79, 0x8dff3001);
    Step(b, h, 5, 0x185a5d79, 0xf268faa9, 0xfd1eebdc, 0x7c3c0f86, 0x8dff3001, 0xe20362ef, 0xaf71b9ea, 0x8c51be64,
         0x59f111f1, 0x00000000, 0x3eeb6c06, 0xfe20cda6);
    Step(b, h, 6, 0x3eeb6c06, 0x185a5d79, 0xf268faa9, 0xfd1eebdc, 0xfe20cda6, 0x8dff3001, 0xe20362ef, 0xaf71b9ea,
         0x923f82a4, 0x00000000, 0x89bba3f1, 0x0a34df03);
    Step(b, h, 7, 0x89bba3f1, 0x3eeb6c06, 0x185a5d79, 0xf268faa9, 0x0a34df03, 0xfe20cda6, 0x8dff3001, 0xe20362ef,
         0xab1c5ed5, 0x00000000, 0xbf9a93a0, 0x059abdd1);
    Step(b, h, 8, 0xbf9a93a0, 0x89bba3f1, 0x3eeb6c06, 0x185a5d79, 0x059abdd1, 0x0a34df03, 0xfe20cda6, 0x8dff3001,
         0xd807aa98, 0x00000000, 0x2c096744, 0xabfa465b);
    Step(b, h, 9, 0x2c096744, 0xbf9a93a0, 0x89bba3f1, 0x3eeb6c06, 0xabfa465b, 0x059abdd1, 0x0a34df03, 0xfe20cda6,
         0x12835b01, 0x00000000, 0x2d964e86, 0xaa27ed82);
    Step(b, h, 10, 0x2d964e86, 0x2c096744, 0xbf9a93a0, 0x89bba3f1, 0xaa27ed82, 0xabfa465b, 0x059abdd1, 0x0a34df03,
         0x243185be, 0x00000000, 0x5b35025b, 0x10e77723);
    Step(b, h, 11, 0x5b35025b, 0x2d964e86, 0x2c096744, 0xbf9a93a0, 0x10e77723, 0xaa27ed82, 0xabfa465b, 0x059abdd1,
         0x550c7dc3, 0x00000000, 0x5eb4ec40, 0xe11b4548);
    Step(b, h, 12, 0x5eb4ec40, 0x5b35025b, 0x2d964e86, 0x2c096744, 0xe11b4548, 0x10e77723, 0xaa27ed82, 0xabfa465b,
         0x72be5d74, 0x00000000, 0x35ee996d, 0x5c24e2a2);
    Step(b, h, 13, 0x35ee996d, 0x5eb4ec40, 0x5b35025b, 0x2d964e86, 0x5c24e2a2, 0xe11b4548, 0x10e77723, 0xaa27ed82,
         0x80deb1fe, 0x00000000, 0xd74080fa, 0x68aa893f);
    Step(b, h, 14, 0xd74080fa, 0x35ee996d, 0x5eb4ec40, 0x5b35025b, 0x68aa893f, 0x5c24e2a2, 0xe11b4548, 0x10e77723,
         0x9bdc06a7, 0x00000000, 0x0cea5cbc, 0x60356548);
    Step(b, h, 15, 0x0cea5cbc, 0xd74080fa, 0x35ee996d, 0x5eb4ec40, 0x60356548, 0x68aa893f, 0x5c24e2a2, 0xe11b4548,
         0xc19bf174, 0x000001c0, 0x16a8cc79, 0x0fcb1f6f);
  }

  lemma LastRounds16(h: Vars, b: Block)
    requires Words(b, 16, 0x00000000, 0x00d80000, 0x00000000, 0x00003677, 0x00000000, 0x1df5600d, 0x000001c0, 0x1c00501c,
                      0x01b00000, 0x220a8d94, 0x0000a365, 0x177017e7, 0x63d38035, 0x090ab713, 0x4c7539ca, 0x0f19a8c9)
    requires Rounds(h, b, 16) ==
      Vars(0x16a8cc79, 0x0cea5cbc, 0xd74080fa, 0x35ee996d, 0x0fcb1f6f, 0x60356548, 0x68aa893f, 0x5c24e2a2)
    ensures Rounds(h, b, 32) ==
      Vars(0xb0eab1c5, 0x02ef3a5f, 0x1cfa5eb0, 0xd958b529, 0xf6d93952, 0x5da10665, 0x6c49db9f, 0xc2fa99b1)
  {
    hide W, Rounds, Constant;
    Constants16();
    Constants24();
    Step(b, h, 16, 0x16a8cc79, 0x0cea5cbc, 0xd74080fa, 0x35ee996d, 0x0fcb1f6f, 0x60356548, 0x68aa893f, 0x5c24e2a2,
         0xe49b69c1, 0x00000000, 0xf16f634e, 0x8b21cdc1);
    Step(b, h, 17, 0xf16f634e, 0x16a8cc79, 0x0cea5cbc, 0xd74080fa, 0x8b21cdc1, 0x0fcb1f6f, 0x60356548, 0x68aa893f,
         0xefbe4786, 0x00d80000, 0x23dcb6c2, 0xca9182d3);
    Step(b, h, 18, 0x23dcb6c2, 0xf16f634e, 0x16a8cc79, 0x0cea5cbc, 0xca9182d3, 0x8b21cdc1, 0x0fcb1f6f, 0x60356548,
         0x0fc19dc6, 0x00000000, 0xdcff40fd, 0x69bf7b95);
    Step(b, h, 19, 0xdcff40fd, 0x23dcb6c2, 0xf16f634e, 0x16a8cc79, 0x69bf7b95, 0xca9182d3, 0x8b21cdc1, 0x0fcb1f6f,
         0x240ca1cc, 0x00003677, 0x76f1a2bc, 0x0dc84bb1);
    Step(b, h, 20, 0x76f1a2bc, 0xdcff40fd, 0x23dcb6c2, 0xf16f634e, 0x0dc84bb1, 0x69bf7b95, 0xca9182d3, 0x8b21cdc1,
         0x2de92c6f, 0x00000000, 0x20aad899, 0xcc4769f2);
    Step(b, h, 21, 0x20aad899, 0x76f1a2bc, 0xdcff40fd, 0x23dcb6c2, 0xcc4769f2, 0x0dc84bb1, 0x69bf7b95, 0xca9182d3,
         0x4a7484aa, 0x1df5600d, 0xd44dc81a, 0x5bace62d);
    Step(b, h, 22, 0xd44dc81a, 0x20aad899, 0x76f1a2bc, 0xdcff40fd, 0x5bace62d, 0xcc4769f2, 0x0dc84bb1, 0x69bf7b95,
         0x5cb0a9dc, 0x000001c0, 0xf13ae55b, 0x966aa287);
    Step(b, h, 23, 0xf13ae55b, 0xd44dc81a, 0x20aad899, 0x76f1a2bc, 0x966aa287, 0x5bace62d, 0xcc4769f2, 0x0dc84bb1,
         0x76f988da, 0x1c00501c, 0xa4195b91, 0xeddbd6ed);
    Step(b, h, 24, 0xa4195b91, 0xf13ae55b, 0xd44dc81a, 0x20aad899, 0xeddbd6ed, 0x966aa287, 0x5bace62d, 0xcc4769f2,
         0x983e5152, 0x01b00000, 0x4984fa79, 0xa530d939);
    Step(b, h, 25, 0x4984fa79, 0xa4195b91, 0xf13ae55b, 0xd44dc81a, 0xa530d939, 0xeddbd6ed, 0x966aa287, 0x5bace62d,
         0xa831c66d, 0x220a8d94, 0xaa6cb982, 0x0b5eeea4);
    Step(b, h, 26, 0xaa6cb982, 0x4984fa79, 0xa4195b91, 0xf13ae55b, 0x0b5eeea4, 0xa530d939, 0xeddbd6ed, 0x966aa287,
         0xb00327c8, 0x0000a365, 0x9450fbbc, 0x09166dda);
    Step(b, h, 27, 0x9450fbbc, 0xaa6cb982, 0x4984fa79, 0xa4195b91, 0x09166dda, 0x0b5eeea4, 0xa530d939, 0xeddbd6ed,
         0xbf597fc7, 0x177017e7, 0x0d936bab, 0x6e495d4b);
    Step(b, h, 28, 0x0d936bab, 0x9450fbbc, 0xaa6cb982, 0x4984fa79, 0x6e495d4b, 0x09166dda, 0x0b5eeea4, 0xa530d939,
         0xc6e00bf3, 0x63d38035, 0xd958b529, 0xc2fa99b1);
    Step(b, h, 29, 0xd958b529, 0x0d936bab, 0x9450fbbc, 0xaa6cb982, 0xc2fa99b1, 0x6e495d4b, 0x09166dda, 0x0b5eeea4,
         0xd5a79147, 0x090ab713, 0x1cfa5eb0, 0x6c49db9f);
    Step(b, h, 30, 0x1cfa5eb0, 0xd958b529, 0x0d936bab, 0x9450fbbc, 0x6c49db9f, 0xc2fa99b1, 0x6e495d4b, 0x09166dda,
         0x06ca6351, 0x4c7539ca, 0x02ef3a5f, 0x5da10665);
    Step(b, h, 31, 0x02ef3a5f, 0x1cfa5eb0, 0xd958b529, 0x0d936bab, 0x5da10665, 0x6c49db9f, 0xc2fa99b1, 0x6e495d4b,
         0x14292967, 0x0f19a8c9, 0xb0eab1c5, 0xf6d93952);
  }

  lemma LastRounds32(h: Vars, b: Block)
    requires Words(b, 32, 0x5df4b0c4, 0xe257036a, 0xc97bb6f1, 0xc5b46f4d, 0xf8253c4e, 0xa558d189, 0x78696285, 0xed07117f,
                      0x107358f6, 0x390ae496, 0x565010a2, 0xc51d7d44, 0x9e74c972, 0x6614b561, 0x30fc129d, 0x9ac684a8)
    requires Rounds(h, b, 32) ==
      Vars(0xb0eab1c5, 0x02ef3a5f, 0x1cfa5eb0, 0xd958b529, 0xf6d93952, 0x5da10665, 0x6c49db9f, 0xc2fa99b1)
    ensures Rounds(h, b, 48) ==
      Vars(0xd7354d5b, 0x0b3303a7, 0x104a7db4, 0x0f154e11, 0xaad55b6b, 0xbbe1c39a, 0x5348e8f6, 0x6f9517cb)
  {
    hide W, Rounds, Constant;
    Constants32();
    Constants40();
    Step(b, h, 32, 0xb0eab1c5, 0x02ef3a5f, 0x1cfa5eb0, 0xd958b529, 0xf6d93952, 0x5da10665, 0x6c49db9f, 0xc2fa99b1,
         0x27b70a85, 0x5df4b0c4, 0x0bfba73c, 0x8b99e3a9);
    Step(b, h, 33, 0x0bfba73c, 0xb0eab1c5, 0x02ef3a5f, 0x1cfa5eb0, 0x8b99e3a9, 0xf6d93952, 0x5da10665, 0x6c49db9f,
         0x2e1b2138, 0xe257036a, 0x4bd1df96, 0x905e44ac);
    Step(b, h, 34, 0x4bd1df96, 0x0bfba73c, 0xb0eab1c5, 0x02ef3a5f, 0x905e44ac, 0x8b99e3a9, 0xf6d93952, 0x5da10665,
         0x4d2c6dfc, 0xc97bb6f1, 0x9907f1b6, 0x66c3043d);
    Step(b, h, 35, 0x9907f1b6, 0x4bd1df96, 0x0bfba73c, 0xb0eab1c5, 0x66c3043d, 0x905e44ac, 0x8b99e3a9, 0xf6d93952,
         0x53380d13, 0xc5b46f4d, 0xecde4e0d, 0x5dc119e6);
    Step(b, h, 36, 0xecde4e0d, 0x9907f1b6, 0x4bd1df96, 0x0bfba73c, 0x5dc119e6, 0x66c3043d, 0x905e44ac, 0x8b99e3a9,
         0x650a7354, 0xf8253c4e, 0x2f11c939, 0xfed4ce1d);
    Step(b, h, 37, 0x2f11c939, 0xecde4e0d, 0x9907f1b6, 0x4bd1df96, 0xfed4ce1d, 0x5dc119e6, 0x66c3043d, 0x905e44ac,
         0x766a0abb, 0xa558d189, 0xd949682b, 0x32d99008);
    Step(b, h, 38, 0xd949682b, 0x2f11c939, 0xecde4e0d, 0x9907f1b6, 0x32d99008, 0xfed4ce1d, 0x5dc119e6, 0x66c3043d,
         0x81c2c92e, 0x78696285, 0xadca7a96, 0xc6cce4ff);
    Step(b, h, 39, 0xadca7a96, 0xd949682b, 0x2f11c939, 0xecde4e0d, 0xc6cce4ff, 0x32d99008, 0xfed4ce1d, 0x5dc119e6,
         0x92722c85, 0xed07117f, 0x221b8a5a, 0x0b82c5eb);
    Step(b, h, 40, 0x221b8a5a, 0xadca7a96, 0xd949682b, 0x2f11c939, 0x0b82c5eb, 0xc6cce4ff, 0x32d99008, 0xfed4ce1d,
         0xa2bfe8a1, 0x107358f6, 0x12d97845, 0xe4213ca2);
    Step(b, h, 41, 0x12d97845, 0x221b8a5a, 0xadca7a96, 0xd949682b, 0xe4213ca2, 0x0b82c5eb, 0xc6cce4ff, 0x32d99008,
         0xa81a664b, 0x390ae496, 0x2c794876, 0xff6759ba);
    Step(b, h, 42, 0x2c794876, 0x12d97845, 0x221b8a5a, 0xadca7a96, 0xff6759ba, 0xe4213ca2, 0x0b82c5eb, 0xc6cce4ff,
         0xc24b8b70, 0x565010a2, 0x8300fca2, 0xe0e3457c);
    Step(b, h, 43, 0x8300fca2, 0x2c794876, 0x12d97845, 0x221b8a5a, 0xe0e3457c, 0xff6759ba, 0xe4213ca2, 0x0b82c5eb,
         0xc76c51a3, 0xc51d7d44, 0xf2ad6322, 0xcc48c7f3);
    Step(b, h, 44, 0xf2ad6322, 0x8300fca2, 0x2c794876, 0x12d97845, 0xcc48c7f3, 0xe0e3457c, 0xff6759ba, 0xe4213ca2,
         0xd192e819, 0x9e74c972, 0x0f154e11, 0x6f9517cb);
    Step(b, h, 45, 0x0f154e11, 0xf2ad6322, 0x8300fca2, 0x2c794876, 0x6f9517cb, 0xcc48c7f3, 0xe0e3457c, 0xff6759ba,
         0xd6990624, 0x6614b561, 0x104a7db4, 0x5348e8f6);
    Step(b, h, 46, 0x104a7db4, 0x0f154e11, 0xf2ad6322, 0x8300fca2, 0x5348e8f6, 0x6f9517cb, 0xcc48c7f3, 0xe0e3457c,
         0xf40e3585, 0x30fc129d, 0x0b3303a7, 0xbbe1c39a);
    Step(b, h, 47, 0x0b3303a7, 0x104a7db4, 0x0f154e11, 0xf2ad6322, 0xbbe1c39a, 0x5348e8f6, 0x6f9517cb, 0xcc48c7f3,
         0x106aa070, 0x9ac684a8, 0xd7354d5b, 0xaad55b6b);
  }

  lemma LastRounds48(h: Vars, b: Block)
    requires Words(b, 48, 0x2b658dbd, 0xe290f793, 0x9eebb24c, 0x9713b5de, 0x41061ab7, 0xe022e23b, 0x0772079e, 0x7de22d9c,
                      0xc8b83778, 0x75a79849, 0xd93dbddb, 0x0a036c9d, 0xcb4f6ac6, 0x823f97e2, 0xea2f2a7a, 0xb9018b52)
    requires Rounds(h, b, 48) ==
      Vars(0xd7354d5b, 0x0b3303a7, 0x104a7db4, 0x0f154e11, 0xaad55b6b, 0xbbe1c39a, 0x5348e8f6, 0x6f9517cb)
    ensures Rounds(h, b, 64) ==
      Vars(0x9ea7148b, 0x908c2123, 0xb25cef29, 0xa9f181dd, 0x2c5c4ed0, 0x9a392956, 0x2aa1bb13, 0x27ccb387)
  {
    hide W, Rounds, Constant;
    Constants48();
    Constants56();
    Step(b, h, 48, 0xd7354d5b, 0x0b3303a7, 0x104a7db4, 0x0f154e11, 0xaad55b6b, 0xbbe1c39a, 0x5348e8f6, 0x6f9517cb,
         0x19a4c116, 0x2b658dbd, 0xb736d7a6, 0x68f25260);
    Step(b, h, 49, 0xb736d7a6, 0xd7354d5b, 0x0b3303a7, 0x104a7db4, 0x68f25260, 0xaad55b6b, 0xbbe1c39a, 0x5348e8f6,
         0x1e376c08, 0xe290f793, 0x2748e5ec, 0xd4b58576);
    Step(b, h, 50, 0x2748e5ec, 0xb736d7a6, 0xd7354d5b, 0x0b3303a7, 0xd4b58576, 0x68f25260, 0xaad55b6b, 0xbbe1c39a,
         0x2748774c, 0x9eebb24c, 0xd8aabcf9, 0x27844711);
    Step(b, h, 51, 0xd8aabcf9, 0x2748e5ec, 0xb736d7a6, 0xd7354d5b, 0x27844711, 0xd4b58576, 0x68f25260, 0xaad55b6b,
         0x34b0bcb5, 0x9713b5de, 0x1a6bcf6a, 0xff5e99d0);
    Step(b, h, 52, 0x1a6bcf6a, 0xd8aabcf9, 0x2748e5ec, 0xb736d7a6, 0xff5e99d0, 0x27844711, 0xd4b58576, 0x68f25260,
         0x391c0cb3, 0x41061ab7, 0x4eca6fa0, 0x989ed071);
    Step(b, h, 53, 0x4eca6fa0, 0x1a6bcf6a, 0xd8aabcf9, 0x2748e5ec, 0x989ed071, 0xff5e99d0, 0x27844711, 0xd4b58576,
         0x4ed8aa4a, 0xe022e23b, 0xec02560a, 0x7151df8e);
    Step(b, h, 54, 0xec02560a, 0x4eca6fa0, 0x1a6bcf6a, 0xd8aabcf9, 0x7151df8e, 0x989ed071, 0xff5e99d0, 0x27844711,
         0x5b9cca4f, 0x0772079e, 0xd9f0c115, 0x624150c4);
    Step(b, h, 55, 0xd9f0c115, 0xec02560a, 0x4eca6fa0, 0x1a6bcf6a, 0x624150c4, 0x7151df8e, 0x989ed071, 0xff5e99d0,
         0x682e6ff3, 0x7de22d9c, 0x92952710, 0x226806d6);
    Step(b, h, 56, 0x92952710, 0xd9f0c115, 0xec02560a, 0x4eca6fa0, 0x226806d6, 0x624150c4, 0x7151df8e, 0x989ed071,
         0x748f82ee, 0xc8b83778, 0x20d4d0e4, 0x4e515a4d);
    Step(b, h, 57, 0x20d4d0e4, 0x92952710, 0xd9f0c115, 0xec02560a, 0x4e515a4d, 0x226806d6, 0x624150c4, 0x7151df8e,
         0x78a5636f, 0x75a79849, 0x4348eb1f, 0xc21eddf9);
    Step(b, h, 58, 0x4348eb1f, 0x20d4d0e4, 0x92952710, 0xd9f0c115, 0xc21eddf9, 0x4e515a4d, 0x226806d6, 0x624150c4,
         0x84c87814, 0xd93dbddb, 0x286fe5f0, 0x54076664);
    Step(b, h, 59, 0x286fe5f0, 0x4348eb1f, 0x20d4d0e4, 0x92952710, 0x54076664, 0xc21eddf9, 0x4e515a4d, 0x226806d6,
         0x8cc70208, 0x0a036c9d, 0x1c4cddd9, 0xf487a853);
    Step(b, h, 60, 0x1c4cddd9, 0x286fe5f0, 0x4348eb1f, 0x20d4d0e4, 0xf487a853, 0x54076664, 0xc21eddf9, 0x4e515a4d,
         0x90befffa, 0xcb4f6ac6, 0xa9f181dd, 0x27ccb387);
    Step(b, h, 61, 0xa9f181dd, 0x1c4cddd9, 0x286fe5f0, 0x4348eb1f, 0x27ccb387, 0xf487a853, 0x54076664, 0xc21eddf9,
         0xa4506ceb, 0x823f97e2, 0xb25cef29, 0x2aa1bb13);
    Step(b, h, 62, 0xb25cef29, 0xa9f181dd, 0x1c4cddd9, 0x286fe5f0, 0x2aa1bb13, 0x27ccb387, 0xf487a853, 0x54076664,
         0xbef9a3f7, 0xea2f2a7a, 0x908c2123, 0x9a392956);
    Step(b, h, 63, 0x908c2123, 0xb25cef29, 0xa9f181dd, 0x1c4cddd9, 0x9a392956, 0x2aa1bb13, 0x27ccb387, 0xf487a853,
         0xc67178f2, 0xb9018b52, 0x9ea7148b, 0x2c5c4ed0);
  }

  // ---------------------------------------------------------------- the digests

  lemma NoRounds(v: Vars, b: Block)
    ensures Rounds(v, b, 0) == v
  {}

  lemma AbcCompress(h: Hash, b: Block)
    requires Words(b, 0, 0x61626380, 0x00000000, 0x00000000, 0x00000000, 0x00000000, 0x00000000, 0x00000000, 0x00000000,
                      0x00000000, 0x00000000, 0x00000000, 0x00000000, 0x00000000, 0x00000000, 0x00000000, 0x00000018)
    requires h == [0x6a09e667, 0xbb67ae85, 0x3c6ef372, 0xa54ff53a, 0x510e527f, 0x9b05688c, 0x1f83d9ab, 0x5be0cd19]
    ensures Compress(h, b) == [0xba7816bf, 0x8f01cfea, 0x414140de, 0x5dae2223, 0xb00361a3, 0x96177a9c, 0xb410ff61, 0xf20015ad]
  {
    hide W, Rounds, Words;
    var v := VarsOf(h);
    NoRounds(v, b);
    AbcWords16(b);
    AbcWords32(b);
    AbcWords48(b);
    AbcRounds0(v, b);
    AbcRounds16(v, b);
    AbcRounds32(v, b);
    AbcRounds48(v, b);
    hide VarsOf;
    AbcSum(h, Rounds(v, b, 64));
  }

  lemma AbcSum(h: Hash, v: Vars)
    requires h == [0x6a09e667, 0xbb67ae85, 0x3c6ef372, 0xa54ff53a, 0x510e527f, 0x9b05688c, 0x1f83d9ab, 0x5be0cd19]
    requires v == Vars(0x506e3058, 0xd39a2165, 0x04d24d6c, 0xb85e2ce9, 0x5ef50f24, 0xfb121210, 0x948d25b6, 0x961f4894)
    ensures Plus(h, v) == [0xba7816bf, 0x8f01cfea, 0x414140de, 0x5dae2223, 0xb00361a3, 0x96177a9c, 0xb410ff61, 0xf20015ad]
  {}

  lemma FirstCompress(h: Hash, b: Block)
    requires Words(b, 0, 0x61626364, 0x62636465, 0x63646566, 0x64656667, 0x65666768, 0x66676869, 0x6768696a, 0x68696a6b,
                      0x696a6b6c, 0x6a6b6c6d, 0x6b6c6d6e, 0x6c6d6e6f, 0x6d6e6f70, 0x6e6f7071, 0x80000000, 0x00000000)
    requires h == [0x6a09e667, 0xbb67ae85, 0x3c6ef372, 0xa54ff53a, 0x510e527f, 0x9b05688c, 0x1f83d9ab, 0x5be0cd19]
    ensures Compress(h, b) == [0x85e655d6, 0x417a1795, 0x3363376a, 0x624cde5c, 0x76e09589, 0xcac5f811, 0xcc4b32c1, 0xf20e533a]
  {
    hide W, Rounds, Words;
    var v := VarsOf(h);
    NoRounds(v, b);
    FirstWords16(b);
    FirstWords32(b);
    FirstWords48(b);
    FirstRounds0(v, b);
    FirstRounds16(v, b);
    FirstRounds32(v, b);
    FirstRounds48(v, b);
    hide VarsOf;
    FirstSum(h, Rounds(v, b, 64));
  }

  lemma FirstSum(h: Hash, v: Vars)
    requires h == [0x6a09e667, 0xbb67ae85, 0x3c6ef372, 0xa54ff53a, 0x510e527f, 0x9b05688c, 0x1f83d9ab, 0x5be0cd19]
    requires v == Vars(0x1bdc6f6f, 0x86126910, 0xf6f443f8, 0xbcfce922, 0x25d2430a, 0x2fc08f85, 0xacc75916, 0x962d8621)
    ensures Plus(h, v) == [0x85e655d6, 0x417a1795, 0x3363376a, 0x624cde5c, 0x76e09589, 0xcac5f811, 0xcc4b32c1, 0xf20e533a]
  {}

  lemma LastCompress(h: Hash, b: Block)
    requires Words(b, 0, 0x00000000, 0x00000000, 0x00000000, 0x00000000, 0x00000000, 0x00000000, 0x00000000, 0x00000000,
                      0x00000000, 0x00000000, 0x00000000, 0x00000000, 0x00000000, 0x00000000, 0x00000000, 0x000001c0)
    requires h == [0x85e655d6, 0x417a1795, 0x3363376a, 0x624cde5c, 0x76e09589, 0xcac5f811, 0xcc4b32c1, 0xf20e533a]
    ensures Compress(h, b) == [0x248d6a61, 0xd20638b8, 0xe5c02693, 0x0c3e6039, 0xa33ce459, 0x64ff2167, 0xf6ecedd4, 0x19db06c1]
  {
    hide W, Rounds, Words;
    var v := VarsOf(h);
    NoRounds(v, b);
    LastWords16(b);
    LastWords32(b);
    LastWords48(b);
    LastRounds0(v, b);
    LastRounds16(v, b);
    LastRounds32(v, b);
    LastRounds48(v, b);
    hide VarsOf;
    LastSum(h, Rounds(v, b, 64));
  }

  lemma LastSum(h: Hash, v: Vars)
    requires h == [0x85e655d6, 0x417a1795, 0x3363376a, 0x624cde5c, 0x76e09589, 0xcac5f811, 0xcc4b32c1, 0xf20e533a]
    requires v == Vars(0x9ea7148b, 0x908c2123, 0xb25cef29, 0xa9f181dd, 0x2c5c4ed0, 0x9a392956, 0x2aa1bb13, 0x27ccb387)
    ensures Plus(h, v) == [0x248d6a61, 0xd20638b8, 0xe5c02693, 0x0c3e6039, 0xa33ce459, 0x64ff2167, 0xf6ecedd4, 0x19db06c1]
  {}

  const ABC: seq<Byte> := [0x61, 0x62, 0x63]

  /** abcdbcdecdefdefgefghfghighijhijkijkljklmklmnlmnomnopnopq. */
  const FIFTY_SIX: seq<Byte> := seq(56, i requires 0 <= i < 56 => 0x61 + i / 4 + i % 4)

  lemma BigEndianStep(v: nat, n: nat)
    ensures BigEndian(v, n + 1) == BigEndian(v / 256, n) + [v % 256]
  {}

  /** A length below 65536 in eight bytes. */
  lemma LengthBytes(v: nat)
    requires v < 0x1_0000
    ensures BigEndian(v, 8) == [0, 0, 0, 0, 0, 0, v / 256, v % 256]
  {
    BigEndianStep(v, 7);
    BigEndianStep(v / 256, 6);
    BigEndianStep(0, 5);
    BigEndianStep(0, 4);
    BigEndianStep(0, 3);
    BigEndianStep(0, 2);
    BigEndianStep(0, 1);
    BigEndianStep(0, 0);
  }

  lemma PaddedIs(m: seq<Byte>, z: nat)
    requires |m| < 0x2000 && z == ZeroCount(|m|)
    ensures Padded(m) == m + ([0x80] + Zeros(z) + [0, 0, 0, 0, 0, 0, 8 * |m| / 256, 8 * |m| % 256])
  {
    LengthBytes(8 * |m|);
    assert BitLength(|m|) == 8 * |m|;
    hide BigEndian, ZeroCount, BitLength, Zeros;
  }

  lemma PaddedBytes(m: seq<Byte>, z: nat, p: seq<Byte>)
    requires |m| < 0x2000 && z == ZeroCount(|m|) && p == Padded(m)
    ensures |p| == |m| + z + 9 && (forall i :: 0 <= i < |m| ==> p[i] == m[i]) && p[|m|] == 0x80
    ensures forall i :: |m| < i < |p| - 2 ==> p[i] == 0
    ensures p[|p| - 2] == 8 * |m| / 256 && p[|p| - 1] == 8 * |m| % 256
  {
    PaddedIs(m, z);
    hide Padded, ZeroCount;
  }

  lemma WordIs(b: Block, t: nat, x: Byte, y: Byte, z: Byte, u: Byte, w: Word)
    requires t < 16 && b[4 * t] == x && b[4 * t + 1] == y && b[4 * t + 2] == z && b[4 * t + 3] == u && ToBytes32(w) == [x, y, z, u]
    ensures W(b, t) == w
  {
    Be32OfBytes(w);
    hide Be32, ToBytes32;
  }

  lemma ZeroWord(b: Block, t: nat)
    requires t < 16 && forall i :: 4 * t <= i < 4 * t + 4 ==> b[i] == 0
    ensures W(b, t) == 0
  {
    WordIs(b, t, 0, 0, 0, 0, 0);
  }

  lemma AbcBytes(b: seq<Byte>)
    requires b == Padded(ABC)
    ensures |b| == 64 && b[0] == 0x61 && b[1] == 0x62 && b[2] == 0x63 && b[3] == 0x80 && (forall i :: 4 <= i < 63 ==> b[i] == 0) && b[63] == 24
  {
    hide Padded;
    PaddedBytes(ABC, 52, b);
  }

  lemma AbcBlock(b: Block)
    requires b[0] == 0x61 && b[1] == 0x62 && b[2] == 0x63 && b[3] == 0x80 && (forall i :: 4 <= i < 63 ==> b[i] == 0) && b[63] == 24
    ensures Words(b, 0, 0x61626380, 0x00000000, 0x00000000, 0x00000000, 0x00000000, 0x00000000, 0x00000000, 0x00000000,
                      0x00000000, 0x00000000, 0x00000000, 0x00000000, 0x00000000, 0x00000000, 0x00000000, 0x00000018)
  {
    hide W;
    WordIs(b, 0, 0x61, 0x62, 0x63, 0x80, 0x6162_6380);
    forall t | 1 <= t < 15 ensures W(b, t) == 0 {
      ZeroWord(b, t);
    }
    WordIs(b, 15, 0, 0, 0, 24, 24);
  }

  lemma FirstBytes(p: seq<Byte>)
    requires p == Padded(FIFTY_SIX)
    ensures |p| == 128 && Letters(p)
    ensures p[56] == 0x80 && (forall i :: 57 <= i < 126 ==> p[i] == 0) && p[126] == 1 && p[127] == 0xc0
  {
    hide Padded;
    PaddedBytes(FIFTY_SIX, 63, p);
  }

  ghost predicate Letters(p: seq<Byte>) {
    |p| >= 56 && forall i :: 0 <= i < 56 ==> p[i] == 0x61 + i / 4 + i % 4
  }

  /** A word of four letters in a row. */
  lemma Counts(b: Block, t: nat, w: Word)
    requires Letters(b) && t < 14 && ToBytes32(w) == [0x61 + t, 0x62 + t, 0x63 + t, 0x64 + t]
    ensures W(b, t) == w
  {
    hide W, ToBytes32;
    assert b[4 * t] == 0x61 + t && b[4 * t + 1] == 0x62 + t && b[4 * t + 2] == 0x63 + t && b[4 * t + 3] == 0x64 + t;
    WordIs(b, t, 0x61 + t, 0x62 + t, 0x63 + t, 0x64 + t, w);
  }

  lemma FirstBlock(b: Block)
    requires Letters(b) && b[56] == 0x80 && forall i :: 57 <= i < 64 ==> b[i] == 0
    ensures Words(b, 0, 0x61626364, 0x62636465, 0x63646566, 0x64656667, 0x65666768, 0x66676869, 0x6768696a, 0x68696a6b,
                      0x696a6b6c, 0x6a6b6c6d, 0x6b6c6d6e, 0x6c6d6e6f, 0x6d6e6f70, 0x6e6f7071, 0x80000000, 0x00000000)
  {
    hide W, Letters;
    Counts(b, 0, 0x61626364);
    Counts(b, 1, 0x62636465);
    Counts(b, 2, 0x63646566);
    Counts(b, 3, 0x64656667);
    Counts(b, 4, 0x65666768);
    Counts(b, 5, 0x66676869);
    Counts(b, 6, 0x6768696a);
    Counts(b, 7, 0x68696a6b);
    Counts(b, 8, 0x696a6b6c);
    Counts(b, 9, 0x6a6b6c6d);
    Counts(b, 10, 0x6b6c6d6e);
    Counts(b, 11, 0x6c6d6e6f);
    Counts(b, 12, 0x6d6e6f70);
    Counts(b, 13, 0x6e6f7071);
    WordIs(b, 14, 0x80, 0, 0, 0, 0x8000_0000);
    ZeroWord(b, 15);
  }

  lemma LastBlock(b: Block)
    requires (forall i :: 0 <= i < 62 ==> b[i] == 0) && b[62] == 1 && b[63] == 0xc0
    ensures Words(b, 0, 0x00000000, 0x00000000, 0x00000000, 0x00000000, 0x00000000, 0x00000000, 0x00000000, 0x00000000,
                      0x00000000, 0x00000000, 0x00000000, 0x00000000, 0x00000000, 0x00000000, 0x00000000, 0x000001c0)
  {
    hide W;
    forall t | 0 <= t < 15 ensures W(b, t) == 0 {
      ZeroWord(b, t);
    }
    WordIs(b, 15, 0, 0, 1, 0xc0, 0x1c0);
  }

  lemma OneBlock(p: seq<Byte>)
    requires |p| == 64
    ensures HashBlocks(p) == Compress(H0, p)
  {
    OneMoreBlock([], p);
    assert [] + p == p;
    hide Compress;
  }

  lemma HashOf(m: seq<Byte>, h: Hash)
    requires HashBlocks(Padded(m)) == h
    ensures Digest(m) == Bytes(h)
  {}

  lemma BytesUpTo(h: seq<Word>, n: nat, b: seq<Byte>)
    requires n < |h| && ToBytes32(h[n]) == b
    ensures Bytes(h[..n + 1]) == Bytes(h[..n]) + b
  {
    assert h[..n + 1][..n] == h[..n];
  }

  /** Four words as bytes. */
  lemma BytesOfFour(h: seq<Word>, a: seq<Byte>, b: seq<Byte>, c: seq<Byte>, d: seq<Byte>)
    requires |h| >= 4 && ToBytes32(h[|h| - 4]) == a && ToBytes32(h[|h| - 3]) == b && ToBytes32(h[|h| - 2]) == c && ToBytes32(h[|h| - 1]) == d
    ensures Bytes(h) == Bytes(h[..|h| - 4]) + a + b + c + d
  {
    hide ToBytes32;
    var n := |h| - 4;
    BytesUpTo(h, n, a);
    BytesUpTo(h, n + 1, b);
    BytesUpTo(h, n + 2, c);
    BytesUpTo(h, n + 3, d);
    assert h[..|h|] == h;
  }

  lemma AbcHalf()
    ensures Bytes([0xba7816bf, 0x8f01cfea, 0x414140de, 0x5dae2223]) ==
      [0xba, 0x78, 0x16, 0xbf] + [0x8f, 0x01, 0xcf, 0xea] + [0x41, 0x41, 0x40, 0xde] + [0x5d, 0xae, 0x22, 0x23]
  {
    var h: seq<Word> := [0xba7816bf, 0x8f01cfea, 0x414140de, 0x5dae2223];
    assert h[..0] == [];
    AbcLow();
    hide ToBytes32;
    BytesOfFour(h, [0xba, 0x78, 0x16, 0xbf], [0x8f, 0x01, 0xcf, 0xea], [0x41, 0x41, 0x40, 0xde], [0x5d, 0xae, 0x22, 0x23]);
  }

  lemma AbcText()
    ensures Bytes([0xba7816bf, 0x8f01cfea, 0x414140de, 0x5dae2223, 0xb00361a3, 0x96177a9c, 0xb410ff61, 0xf20015ad]) ==
      [0xba, 0x78, 0x16, 0xbf] + [0x8f, 0x01, 0xcf, 0xea] + [0x41, 0x41, 0x40, 0xde] + [0x5d, 0xae, 0x22, 0x23]
      + [0xb0, 0x03, 0x61, 0xa3] + [0x96, 0x17, 0x7a, 0x9c] + [0xb4, 0x10, 0xff, 0x61] + [0xf2, 0x00, 0x15, 0xad]
  {
    var h: seq<Word> := [0xba7816bf, 0x8f01cfea, 0x414140de, 0x5dae2223, 0xb00361a3, 0x96177a9c, 0xb410ff61, 0xf20015ad];
    assert h[..4] == [0xba7816bf, 0x8f01cfea, 0x414140de, 0x5dae2223];
    AbcHalf();
    AbcHigh();
    hide ToBytes32, Bytes;
    BytesOfFour(h, [0xb0, 0x03, 0x61, 0xa3], [0x96, 0x17, 0x7a, 0x9c], [0xb4, 0x10, 0xff, 0x61], [0xf2, 0x00, 0x15, 0xad]);
  }

  lemma AbcLow()
    ensures ToBytes32(0xba7816bf) == [0xba, 0x78, 0x16, 0xbf]
    ensures ToBytes32(0x8f01cfea) == [0x8f, 0x01, 0xcf, 0xea]
    ensures ToBytes32(0x414140de) == [0x41, 0x41, 0x40, 0xde]
    ensures ToBytes32(0x5dae2223) == [0x5d, 0xae, 0x22, 0x23]
  {}

  lemma AbcHigh()
    ensures ToBytes32(0xb00361a3) == [0xb0, 0x03, 0x61, 0xa3]
    ensures ToBytes32(0x96177a9c) == [0x96, 0x17, 0x7a, 0x9c]
    ensures ToBytes32(0xb410ff61) == [0xb4, 0x10, 0xff, 0x61]
    ensures ToBytes32(0xf20015ad) == [0xf2, 0x00, 0x15, 0xad]
  {}

  lemma FiftySixHalf()
    ensures Bytes([0x248d6a61, 0xd20638b8, 0xe5c02693, 0x0c3e6039]) ==
      [0x24, 0x8d, 0x6a, 0x61] + [0xd2, 0x06, 0x38, 0xb8] + [0xe5, 0xc0, 0x26, 0x93] + [0x0c, 0x3e, 0x60, 0x39]
  {
    var h: seq<Word> := [0x248d6a61, 0xd20638b8, 0xe5c02693, 0x0c3e6039];
    assert h[..0] == [];
    FiftySixLow();
    hide ToBytes32;
    BytesOfFour(h, [0x24, 0x8d, 0x6a, 0x61], [0xd2, 0x06, 0x38, 0xb8], [0xe5, 0xc0, 0x26, 0x93], [0x0c, 0x3e, 0x60, 0x39]);
  }

  lemma FiftySixText()
    ensures Bytes([0x248d6a61, 0xd20638b8, 0xe5c02693, 0x0c3e6039, 0xa33ce459, 0x64ff2167, 0xf6ecedd4, 0x19db06c1]) ==
      [0x24, 0x8d, 0x6a, 0x61] + [0xd2, 0x06, 0x38, 0xb8] + [0xe5, 0xc0, 0x26, 0x93] + [0x0c, 0x3e, 0x60, 0x39]
      + [0xa3, 0x3c, 0xe4, 0x59] + [0x64, 0xff, 0x21, 0x67] + [0xf6, 0xec, 0xed, 0xd4] + [0x19, 0xdb, 0x06, 0xc1]
  {
    var h: seq<Word> := [0x248d6a61, 0xd20638b8, 0xe5c02693, 0x0c3e6039, 0xa33ce459, 0x64ff2167, 0xf6ecedd4, 0x19db06c1];
    assert h[..4] == [0x248d6a61, 0xd20638b8, 0xe5c02693, 0x0c3e6039];
    FiftySixHalf();
    FiftySixHigh();
    hide ToBytes32, Bytes;
    BytesOfFour(h, [0xa3, 0x3c, 0xe4, 0x59], [0x64, 0xff, 0x21, 0x67], [0xf6, 0xec, 0xed, 0xd4], [0x19, 0xdb, 0x06, 0xc1]);
  }

  lemma FiftySixLow()
    ensures ToBytes32(0x248d6a61) == [0x24, 0x8d, 0x6a, 0x61]
    ensures ToBytes32(0xd20638b8) == [0xd2, 0x06, 0x38, 0xb8]
    ensures ToBytes32(0xe5c02693) == [0xe5, 0xc0, 0x26, 0x93]
    ensures ToBytes32(0x0c3e6039) == [0x0c, 0x3e, 0x60, 0x39]
  {}

  lemma FiftySixHigh()
    ensures ToBytes32(0xa33ce459) == [0xa3, 0x3c, 0xe4, 0x59]
    ensures ToBytes32(0x64ff2167) == [0x64, 0xff, 0x21, 0x67]
    ensures ToBytes32(0xf6ecedd4) == [0xf6, 0xec, 0xed, 0xd4]
    ensures ToBytes32(0x19db06c1) == [0x19, 0xdb, 0x06, 0xc1]
  {}


  /** The digest of "abc". */
  lemma AbcDigest()
    ensures Digest(ABC) ==
      [0xba, 0x78, 0x16, 0xbf] + [0x8f, 0x01, 0xcf, 0xea] + [0x41, 0x41, 0x40, 0xde] + [0x5d, 0xae, 0x22, 0x23]
      + [0xb0, 0x03, 0x61, 0xa3] + [0x96, 0x17, 0x7a, 0x9c] + [0xb4, 0x10, 0xff, 0x61] + [0xf2, 0x00, 0x15, 0xad]
  {
    hide Digest, Bytes, Compress, W, Padded;
    var b := Padded(ABC);
    AbcBytes(b);
    AbcBlock(b);
    OneBlock(b);
    AbcCompress(H0, b);
    HashOf(ABC, Compress(H0, b));
    AbcText();
  }

  /** The digest of a message of two blocks. */
  lemma FiftySixDigest()
    ensures Digest(FIFTY_SIX) ==
      [0x24, 0x8d, 0x6a, 0x61] + [0xd2, 0x06, 0x38, 0xb8] + [0xe5, 0xc0, 0x26, 0x93] + [0x0c, 0x3e, 0x60, 0x39]
      + [0xa3, 0x3c, 0xe4, 0x59] + [0x64, 0xff, 0x21, 0x67] + [0xf6, 0xec, 0xed, 0xd4] + [0x19, 0xdb, 0x06, 0xc1]
  {
    hide Digest, Bytes, Compress, W, Padded;
    var p := Padded(FIFTY_SIX);
    FirstBytes(p);
    var b, c := p[..64], p[64..];
    FirstBlock(b);
    LastBlock(c);
    OneBlock(b);
    OneMoreBlock(b, c);
    assert p == b + c;
    FirstCompress(H0, b);
    LastCompress(Compress(H0, b), c);
    HashOf(FIFTY_SIX, HashBlocks(p));
    FiftySixText();
  }

  lemma JoinedTwo(a: seq<Byte>, b: seq<Byte>)
    ensures Joined([a, b]) == a + b
  {
    assert [a, b][..1] == [a] && [a][..0] == [];
    assert Joined([a]) == Joined([]) + a == a;
  }

  /** The streaming code on "abc", cut anywhere. */
  method AbcInPieces(n: nat) returns (out: seq<Byte>)
    requires n <= 3
    ensures out ==
      [0xba, 0x78, 0x16, 0xbf] + [0x8f, 0x01, 0xcf, 0xea] + [0x41, 0x41, 0x40, 0xde] + [0x5d, 0xae, 0x22, 0x23]
      + [0xb0, 0x03, 0x61, 0xa3] + [0x96, 0x17, 0x7a, 0x9c] + [0xb4, 0x10, 0xff, 0x61] + [0xf2, 0x00, 0x15, 0xad]
  {
    hide Digest;
    out := HashPieces([ABC[..n], ABC[n..]]);
    JoinedTwo(ABC[..n], ABC[n..]);
    assert ABC[..n] + ABC[n..] == ABC;
    AbcDigest();
  }

  /** The streaming code on the message of two blocks, cut anywhere. */
  method FiftySixInPieces(n: nat) returns (out: seq<Byte>)
    requires n <= 56
    ensures out ==
      [0x24, 0x8d, 0x6a, 0x61] + [0xd2, 0x06, 0x38, 0xb8] + [0xe5, 0xc0, 0x26, 0x93] + [0x0c, 0x3e, 0x60, 0x39]
      + [0xa3, 0x3c, 0xe4, 0x59] + [0x64, 0xff, 0x21, 0x67] + [0xf6, 0xec, 0xed, 0xd4] + [0x19, 0xdb, 0x06, 0xc1]
  {
    hide Digest;
    out := HashPieces([FIFTY_SIX[..n], FIFTY_SIX[n..]]);
    JoinedTwo(FIFTY_SIX[..n], FIFTY_SIX[n..]);
    assert FIFTY_SIX[..n] + FIFTY_SIX[n..] == FIFTY_SIX;
    FiftySixDigest();
  }

  /** Four bytes from eight digits. */
  lemma EightDigits(s: string, b: seq<Byte>)
    requires |s| == 8 && |b| == 4 && U.Spells(s, 0, b[0]) && U.Spells(s, 1, b[1]) && U.Spells(s, 2, b[2]) && U.Spells(s, 3, b[3])
    ensures U.IsHex(s, b)
  {
    hide U.Spells;
  }

  /** The digest as an `upgrade` line spells it. */
  lemma AbcSpelled()
    ensures U.Decoded(
      ("ba7816bf" + "8f01cfea" + "414140de" + "5dae2223")
      + ("b00361a3" + "96177a9c" + "b410ff61" + "f20015ad"), 32) == Some(Digest(ABC))
  {
    hide Digest, U.IsHex;
    AbcDigest();
    AbcHex();
    var text :=
      ("ba7816bf" + "8f01cfea" + "414140de" + "5dae2223")
      + ("b00361a3" + "96177a9c" + "b410ff61" + "f20015ad");
    U.HexIsUnique(text, Digest(ABC), U.Decoded(text, 32).value);
  }

  lemma AbcHex()
    ensures U.IsHex(
      ("ba7816bf" + "8f01cfea" + "414140de" + "5dae2223")
      + ("b00361a3" + "96177a9c" + "b410ff61" + "f20015ad"),
      [0xba, 0x78, 0x16, 0xbf] + [0x8f, 0x01, 0xcf, 0xea] + [0x41, 0x41, 0x40, 0xde] + [0x5d, 0xae, 0x22, 0x23]
      + [0xb0, 0x03, 0x61, 0xa3] + [0x96, 0x17, 0x7a, 0x9c] + [0xb4, 0x10, 0xff, 0x61] + [0xf2, 0x00, 0x15, 0xad])
  {
    hide U.IsHex;
    AbcHexHalf();
    AbcHexRest();
    U.HexJoins("ba7816bf" + "8f01cfea" + "414140de" + "5dae2223", [0xba, 0x78, 0x16, 0xbf] + [0x8f, 0x01, 0xcf, 0xea] + [0x41, 0x41, 0x40, 0xde] + [0x5d, 0xae, 0x22, 0x23],
               "b00361a3" + "96177a9c" + "b410ff61" + "f20015ad", [0xb0, 0x03, 0x61, 0xa3] + [0x96, 0x17, 0x7a, 0x9c] + [0xb4, 0x10, 0xff, 0x61] + [0xf2, 0x00, 0x15, 0xad]);
    assert [0xba, 0x78, 0x16, 0xbf] + [0x8f, 0x01, 0xcf, 0xea] + [0x41, 0x41, 0x40, 0xde] + [0x5d, 0xae, 0x22, 0x23]
      + [0xb0, 0x03, 0x61, 0xa3] + [0x96, 0x17, 0x7a, 0x9c] + [0xb4, 0x10, 0xff, 0x61] + [0xf2, 0x00, 0x15, 0xad]
      == ([0xba, 0x78, 0x16, 0xbf] + [0x8f, 0x01, 0xcf, 0xea] + [0x41, 0x41, 0x40, 0xde] + [0x5d, 0xae, 0x22, 0x23])
         + ([0xb0, 0x03, 0x61, 0xa3] + [0x96, 0x17, 0x7a, 0x9c] + [0xb4, 0x10, 0xff, 0x61] + [0xf2, 0x00, 0x15, 0xad]);
  }

  lemma AbcHexHalf()
    ensures U.IsHex("ba7816bf" + "8f01cfea" + "414140de" + "5dae2223", [0xba, 0x78, 0x16, 0xbf] + [0x8f, 0x01, 0xcf, 0xea] + [0x41, 0x41, 0x40, 0xde] + [0x5d, 0xae, 0x22, 0x23])
  {
    hide U.IsHex;
    EightDigits("ba7816bf", [0xba, 0x78, 0x16, 0xbf]);
    EightDigits("8f01cfea", [0x8f, 0x01, 0xcf, 0xea]);
    EightDigits("414140de", [0x41, 0x41, 0x40, 0xde]);
    EightDigits("5dae2223", [0x5d, 0xae, 0x22, 0x23]);
    U.HexJoins("ba7816bf", [0xba, 0x78, 0x16, 0xbf], "8f01cfea", [0x8f, 0x01, 0xcf, 0xea]);
    U.HexJoins("ba7816bf" + "8f01cfea", [0xba, 0x78, 0x16, 0xbf] + [0x8f, 0x01, 0xcf, 0xea], "414140de", [0x41, 0x41, 0x40, 0xde]);
    U.HexJoins("ba7816bf" + "8f01cfea" + "414140de", [0xba, 0x78, 0x16, 0xbf] + [0x8f, 0x01, 0xcf, 0xea] + [0x41, 0x41, 0x40, 0xde], "5dae2223", [0x5d, 0xae, 0x22, 0x23]);
  }

  lemma AbcHexRest()
    ensures U.IsHex("b00361a3" + "96177a9c" + "b410ff61" + "f20015ad", [0xb0, 0x03, 0x61, 0xa3] + [0x96, 0x17, 0x7a, 0x9c] + [0xb4, 0x10, 0xff, 0x61] + [0xf2, 0x00, 0x15, 0xad])
  {
    hide U.IsHex;
    EightDigits("b00361a3", [0xb0, 0x03, 0x61, 0xa3]);
    EightDigits("96177a9c", [0x96, 0x17, 0x7a, 0x9c]);
    EightDigits("b410ff61", [0xb4, 0x10, 0xff, 0x61]);
    EightDigits("f20015ad", [0xf2, 0x00, 0x15, 0xad]);
    U.HexJoins("b00361a3", [0xb0, 0x03, 0x61, 0xa3], "96177a9c", [0x96, 0x17, 0x7a, 0x9c]);
    U.HexJoins("b00361a3" + "96177a9c", [0xb0, 0x03, 0x61, 0xa3] + [0x96, 0x17, 0x7a, 0x9c], "b410ff61", [0xb4, 0x10, 0xff, 0x61]);
    U.HexJoins("b00361a3" + "96177a9c" + "b410ff61", [0xb0, 0x03, 0x61, 0xa3] + [0x96, 0x17, 0x7a, 0x9c] + [0xb4, 0x10, 0xff, 0x61], "f20015ad", [0xf2, 0x00, 0x15, 0xad]);
  }

  lemma FiftySixSpelled()
    ensures U.Decoded(
      ("248d6a61" + "d20638b8" + "e5c02693" + "0c3e6039")
      + ("a33ce459" + "64ff2167" + "f6ecedd4" + "19db06c1"), 32) == Some(Digest(FIFTY_SIX))
  {
    hide Digest, U.IsHex;
    FiftySixDigest();
    FiftySixHex();
    var text :=
      ("248d6a61" + "d20638b8" + "e5c02693" + "0c3e6039")
      + ("a33ce459" + "64ff2167" + "f6ecedd4" + "19db06c1");
    U.HexIsUnique(text, Digest(FIFTY_SIX), U.Decoded(text, 32).value);
  }

  lemma FiftySixHex()
    ensures U.IsHex(
      ("248d6a61" + "d20638b8" + "e5c02693" + "0c3e6039")
      + ("a33ce459" + "64ff2167" + "f6ecedd4" + "19db06c1"),
      [0x24, 0x8d, 0x6a, 0x61] + [0xd2, 0x06, 0x38, 0xb8] + [0xe5, 0xc0, 0x26, 0x93] + [0x0c, 0x3e, 0x60, 0x39]
      + [0xa3, 0x3c, 0xe4, 0x59] + [0x64, 0xff, 0x21, 0x67] + [0xf6, 0xec, 0xed, 0xd4] + [0x19, 0xdb, 0x06, 0xc1])
  {
    hide U.IsHex;
    FiftySixHexHalf();
    FiftySixHexRest();
    U.HexJoins("248d6a61" + "d20638b8" + "e5c02693" + "0c3e6039", [0x24, 0x8d, 0x6a, 0x61] + [0xd2, 0x06, 0x38, 0xb8] + [0xe5, 0xc0, 0x26, 0x93] + [0x0c, 0x3e, 0x60, 0x39],
               "a33ce459" + "64ff2167" + "f6ecedd4" + "19db06c1", [0xa3, 0x3c, 0xe4, 0x59] + [0x64, 0xff, 0x21, 0x67] + [0xf6, 0xec, 0xed, 0xd4] + [0x19, 0xdb, 0x06, 0xc1]);
    assert [0x24, 0x8d, 0x6a, 0x61] + [0xd2, 0x06, 0x38, 0xb8] + [0xe5, 0xc0, 0x26, 0x93] + [0x0c, 0x3e, 0x60, 0x39]
      + [0xa3, 0x3c, 0xe4, 0x59] + [0x64, 0xff, 0x21, 0x67] + [0xf6, 0xec, 0xed, 0xd4] + [0x19, 0xdb, 0x06, 0xc1]
      == ([0x24, 0x8d, 0x6a, 0x61] + [0xd2, 0x06, 0x38, 0xb8] + [0xe5, 0xc0, 0x26, 0x93] + [0x0c, 0x3e, 0x60, 0x39])
         + ([0xa3, 0x3c, 0xe4, 0x59] + [0x64, 0xff, 0x21, 0x67] + [0xf6, 0xec, 0xed, 0xd4] + [0x19, 0xdb, 0x06, 0xc1]);
  }

  lemma FiftySixHexHalf()
    ensures U.IsHex("248d6a61" + "d20638b8" + "e5c02693" + "0c3e6039", [0x24, 0x8d, 0x6a, 0x61] + [0xd2, 0x06, 0x38, 0xb8] + [0xe5, 0xc0, 0x26, 0x93] + [0x0c, 0x3e, 0x60, 0x39])
  {
    hide U.IsHex;
    EightDigits("248d6a61", [0x24, 0x8d, 0x6a, 0x61]);
    EightDigits("d20638b8", [0xd2, 0x06, 0x38, 0xb8]);
    EightDigits("e5c02693", [0xe5, 0xc0, 0x26, 0x93]);
    EightDigits("0c3e6039", [0x0c, 0x3e, 0x60, 0x39]);
    U.HexJoins("248d6a61", [0x24, 0x8d, 0x6a, 0x61], "d20638b8", [0xd2, 0x06, 0x38, 0xb8]);
    U.HexJoins("248d6a61" + "d20638b8", [0x24, 0x8d, 0x6a, 0x61] + [0xd2, 0x06, 0x38, 0xb8], "e5c02693", [0xe5, 0xc0, 0x26, 0x93]);
    U.HexJoins("248d6a61" + "d20638b8" + "e5c02693", [0x24, 0x8d, 0x6a, 0x61] + [0xd2, 0x06, 0x38, 0xb8] + [0xe5, 0xc0, 0x26, 0x93], "0c3e6039", [0x0c, 0x3e, 0x60, 0x39]);
  }

  lemma FiftySixHexRest()
    ensures U.IsHex("a33ce459" + "64ff2167" + "f6ecedd4" + "19db06c1", [0xa3, 0x3c, 0xe4, 0x59] + [0x64, 0xff, 0x21, 0x67] + [0xf6, 0xec, 0xed, 0xd4] + [0x19, 0xdb, 0x06, 0xc1])
  {
    hide U.IsHex;
    EightDigits("a33ce459", [0xa3, 0x3c, 0xe4, 0x59]);
    EightDigits("64ff2167", [0x64, 0xff, 0x21, 0x67]);
    EightDigits("f6ecedd4", [0xf6, 0xec, 0xed, 0xd4]);
    EightDigits("19db06c1", [0x19, 0xdb, 0x06, 0xc1]);
    U.HexJoins("a33ce459", [0xa3, 0x3c, 0xe4, 0x59], "64ff2167", [0x64, 0xff, 0x21, 0x67]);
    U.HexJoins("a33ce459" + "64ff2167", [0xa3, 0x3c, 0xe4, 0x59] + [0x64, 0xff, 0x21, 0x67], "f6ecedd4", [0xf6, 0xec, 0xed, 0xd4]);
    U.HexJoins("a33ce459" + "64ff2167" + "f6ecedd4", [0xa3, 0x3c, 0xe4, 0x59] + [0x64, 0xff, 0x21, 0x67] + [0xf6, 0xec, 0xed, 0xd4], "19db06c1", [0x19, 0xdb, 0x06, 0xc1]);
  }

  // ---------------------------------------------------------------- where the constants come from

  const TWO32 := 0x1_0000_0000

  predicate Divides(d: nat, n: nat)
    requires d > 0
  {
    n % d == 0
  }

  ghost predicate IsPrime(n: nat) {
    n >= 2 && forall d: nat :: 2 <= d < n ==> !Divides(d, n)
  }

  ghost function PrimesBelow(n: nat): nat {
    if n == 0 then 0 else PrimesBelow(n - 1) + if IsPrime(n - 1) then 1 else 0
  }

  /** The t-th prime, counted from 0. */
  ghost predicate IsNthPrime(t: nat, p: nat) {
    IsPrime(p) && PrimesBelow(p) == t
  }

  /** c is the integer part of 2^32 times the cube root of p. */
  predicate IsCubeRoot(c: nat, p: nat) {
    c * c * c <= p * (TWO32 * TWO32 * TWO32) < (c + 1) * (c + 1) * (c + 1)
  }

  predicate IsSquareRoot(c: nat, p: nat) {
    c * c <= p * (TWO32 * TWO32) < (c + 1) * (c + 1)
  }

  /** The 32 bits behind the point. */
  predicate IsFraction(w: Word, c: nat) {
    w as int == c % TWO32
  }

  /** w is the first 32 bits of the fraction of the cube root of the t-th prime. */
  ghost predicate OfCubeRoot(t: nat, w: Word) {
    exists p: nat, c: nat :: IsNthPrime(t, p) && IsCubeRoot(c, p) && IsFraction(w, c)
  }

  ghost predicate OfSquareRoot(t: nat, w: Word) {
    exists p: nat, c: nat :: IsNthPrime(t, p) && IsSquareRoot(c, p) && IsFraction(w, c)
  }

  /** No prime up to 17 but itself divides n. */
  predicate Sieved(n: nat) {
    && (n == 2 || n % 2 != 0) && (n == 3 || n % 3 != 0) && (n == 5 || n % 5 != 0) && (n == 7 || n % 7 != 0)
    && (n == 11 || n % 11 != 0) && (n == 13 || n % 13 != 0) && (n == 17 || n % 17 != 0)
  }

  lemma Multiples(q: nat, m: nat, k: nat)
    requires q > 0 && m % q == 0
    ensures (m * k) % q == 0
  {
    var r := m / q;
    assert m * k == q * (r * k) by {
      assert m == q * r;
      assert (q * r) * k == q * (r * k);
    }
    ModOf(q, r * k);
  }

  lemma ModOf(q: nat, r: nat)
    requires q > 0
    ensures (q * r) % q == 0
  {
    Quotient(q * r, q, r, 0);
    assert q * r == q * (q * r / q) + (q * r) % q;
  }

  lemma AtMost18(n: nat, d: nat, e: nat)
    requires n == d * e && d <= e && n < 361
    ensures d <= 18
  {
    assert d * e >= d * d;
  }

  /** The smaller of two factors of a number below 361 is at most 18, and has a prime factor up to 17. */
  lemma SmallFactor(n: nat, d: nat, e: nat)
    requires n == d * e && 2 <= d <= e && n < 361
    ensures !Sieved(n)
  {
    AtMost18(n, d, e);
    var q := if d % 2 == 0 then 2 else if d % 3 == 0 then 3 else if d % 5 == 0 then 5 else if d % 7 == 0 then 7
             else if d == 11 then 11 else if d == 13 then 13 else 17;
    assert d % q == 0;
    Multiples(q, d, e);
    assert n >= 2 * d > q;
  }

  lemma SievedIsPrime(n: nat)
    requires 2 <= n < 361
    ensures IsPrime(n) <==> Sieved(n)
  {
    hide Sieved;
    if d: nat :| 2 <= d < n && Divides(d, n) {
      var e := n / d;
      assert n == d * e;
      assert e >= 2 by {
        assert d * e > d;
      }
      if d <= e { SmallFactor(n, d, e); } else { assert n == e * d; SmallFactor(n, e, d); }
    } else {
      NoFactor(n);
    }
  }

  lemma NoFactor(n: nat)
    requires n >= 2 && forall d: nat :: 2 <= d < n ==> !Divides(d, n)
    ensures Sieved(n)
  {
    assert n > 2 ==> !Divides(2, n);
    assert n > 3 ==> !Divides(3, n);
    assert n > 5 ==> !Divides(5, n);
    assert n > 7 ==> !Divides(7, n);
    assert n > 11 ==> !Divides(11, n);
    assert n > 13 ==> !Divides(13, n);
    assert n > 17 ==> !Divides(17, n);
  }

  /** No number between p and q passes the sieve. */
  predicate NoneBetween(p: nat, q: nat)
    decreases q - p
  {
    p + 1 >= q || (!Sieved(p + 1) && NoneBetween(p + 1, q))
  }

  lemma {:induction false} SkipsTo(p: nat, q: nat)
    requires 2 <= p < q < 361 && NoneBetween(p, q)
    ensures PrimesBelow(q) == PrimesBelow(p + 1)
    decreases q - p
  {
    hide Sieved, IsPrime;
    if p + 1 < q {
      SievedIsPrime(p + 1);
      SkipsTo(p + 1, q);
    }
  }

  lemma NextPrime(t: nat, p: nat, q: nat)
    requires IsNthPrime(t, p) && 2 <= p < q < 361 && NoneBetween(p, q) && Sieved(q)
    ensures IsNthPrime(t + 1, q)
  {
    hide Sieved, IsPrime;
    SievedIsPrime(q);
    SkipsTo(p, q);
  }

  lemma Two()
    ensures IsNthPrime(0, 2)
  {
    assert PrimesBelow(2) == PrimesBelow(1) == PrimesBelow(0);
  }

  lemma OneConstant(t: nat, p: nat, c: nat, w: Word)
    requires IsNthPrime(t, p) && IsCubeRoot(c, p) && IsFraction(w, c)
    ensures OfCubeRoot(t, w)
  {}

  lemma OneInitial(t: nat, p: nat, c: nat, w: Word)
    requires IsNthPrime(t, p) && IsSquareRoot(c, p) && IsFraction(w, c)
    ensures OfSquareRoot(t, w)
  {}

  lemma Primes0()
    ensures IsNthPrime(0, 2) && IsNthPrime(1, 3) && IsNthPrime(2, 5) && IsNthPrime(3, 7)
    ensures IsNthPrime(4, 11) && IsNthPrime(5, 13) && IsNthPrime(6, 17) && IsNthPrime(7, 19)
  {
    hide IsNthPrime;
    Two();
    NextPrime(0, 2, 3);
    NextPrime(1, 3, 5);
    NextPrime(2, 5, 7);
    NextPrime(3, 7, 11);
    NextPrime(4, 11, 13);
    NextPrime(5, 13, 17);
    NextPrime(6, 17, 19);
  }

  lemma Primes8()
    requires IsNthPrime(7, 19)
    ensures IsNthPrime(8, 23) && IsNthPrime(9, 29) && IsNthPrime(10, 31) && IsNthPrime(11, 37)
    ensures IsNthPrime(12, 41) && IsNthPrime(13, 43) && IsNthPrime(14, 47) && IsNthPrime(15, 53)
  {
    hide IsNthPrime;
    NextPrime(7, 19, 23);
    NextPrime(8, 23, 29);
    NextPrime(9, 29, 31);
    NextPrime(10, 31, 37);
    NextPrime(11, 37, 41);
    NextPrime(12, 41, 43);
    NextPrime(13, 43, 47);
    NextPrime(14, 47, 53);
  }

  lemma Primes16()
    requires IsNthPrime(15, 53)
    ensures IsNthPrime(16, 59) && IsNthPrime(17, 61) && IsNthPrime(18, 67) && IsNthPrime(19, 71)
    ensures IsNthPrime(20, 73) && IsNthPrime(21, 79) && IsNthPrime(22, 83) && IsNthPrime(23, 89)
  {
    hide IsNthPrime;
    NextPrime(15, 53, 59);
    NextPrime(16, 59, 61);
    NextPrime(17, 61, 67);
    NextPrime(18, 67, 71);
    NextPrime(19, 71, 73);
    NextPrime(20, 73, 79);
    NextPrime(21, 79, 83);
    NextPrime(22, 83, 89);
  }

  lemma Primes24()
    requires IsNthPrime(23, 89)
    ensures IsNthPrime(24, 97) && IsNthPrime(25, 101) && IsNthPrime(26, 103) && IsNthPrime(27, 107)
    ensures IsNthPrime(28, 109) && IsNthPrime(29, 113) && IsNthPrime(30, 127) && IsNthPrime(31, 131)
  {
    hide IsNthPrime;
    NextPrime(23, 89, 97);
    NextPrime(24, 97, 101);
    NextPrime(25, 101, 103);
    NextPrime(26, 103, 107);
    NextPrime(27, 107, 109);
    NextPrime(28, 109, 113);
    NextPrime(29, 113, 127);
    NextPrime(30, 127, 131);
  }

  lemma Primes32()
    requires IsNthPrime(31, 131)
    ensures IsNthPrime(32, 137) && IsNthPrime(33, 139) && IsNthPrime(34, 149) && IsNthPrime(35, 151)
    ensures IsNthPrime(36, 157) && IsNthPrime(37, 163) && IsNthPrime(38, 167) && IsNthPrime(39, 173)
  {
    hide IsNthPrime;
    NextPrime(31, 131, 137);
    NextPrime(32, 137, 139);
    NextPrime(33, 139, 149);
    NextPrime(34, 149, 151);
    NextPrime(35, 151, 157);
    NextPrime(36, 157, 163);
    NextPrime(37, 163, 167);
    NextPrime(38, 167, 173);
  }

  lemma Primes40()
    requires IsNthPrime(39, 173)
    ensures IsNthPrime(40, 179) && IsNthPrime(41, 181) && IsNthPrime(42, 191) && IsNthPrime(43, 193)
    ensures IsNthPrime(44, 197) && IsNthPrime(45, 199) && IsNthPrime(46, 211) && IsNthPrime(47, 223)
  {
    hide IsNthPrime;
    NextPrime(39, 173, 179);
    NextPrime(40, 179, 181);
    NextPrime(41, 181, 191);
    NextPrime(42, 191, 193);
    NextPrime(43, 193, 197);
    NextPrime(44, 197, 199);
    NextPrime(45, 199, 211);
    NextPrime(46, 211, 223);
  }

  lemma Primes48()
    requires IsNthPrime(47, 223)
    ensures IsNthPrime(48, 227) && IsNthPrime(49, 229) && IsNthPrime(50, 233) && IsNthPrime(51, 239)
    ensures IsNthPrime(52, 241) && IsNthPrime(53, 251) && IsNthPrime(54, 257) && IsNthPrime(55, 263)
  {
    hide IsNthPrime;
    NextPrime(47, 223, 227);
    NextPrime(48, 227, 229);
    NextPrime(49, 229, 233);
    NextPrime(50, 233, 239);
    NextPrime(51, 239, 241);
    NextPrime(52, 241, 251);
    NextPrime(53, 251, 257);
    NextPrime(54, 257, 263);
  }

  lemma Primes56()
    requires IsNthPrime(55, 263)
    ensures IsNthPrime(56, 269) && IsNthPrime(57, 271) && IsNthPrime(58, 277) && IsNthPrime(59, 281)
    ensures IsNthPrime(60, 283) && IsNthPrime(61, 293) && IsNthPrime(62, 307) && IsNthPrime(63, 311)
  {
    hide IsNthPrime;
    NextPrime(55, 263, 269);
    NextPrime(56, 269, 271);
    NextPrime(57, 271, 277);
    NextPrime(58, 277, 281);
    NextPrime(59, 281, 283);
    NextPrime(60, 283, 293);
    NextPrime(61, 293, 307);
    NextPrime(62, 307, 311);
  }

  lemma Cubes0()
    ensures IsNthPrime(7, 19) && forall t: nat :: 0 <= t < 8 ==> OfCubeRoot(t, Constant(t))
  {
    hide IsNthPrime, OfCubeRoot, Constant;
    Constants0();
    Primes0();
    OneConstant(0, 2, 0x1_428a2f98, 0x428a2f98);
    OneConstant(1, 3, 0x1_71374491, 0x71374491);
    OneConstant(2, 5, 0x1_b5c0fbcf, 0xb5c0fbcf);
    OneConstant(3, 7, 0x1_e9b5dba5, 0xe9b5dba5);
    OneConstant(4, 11, 0x2_3956c25b, 0x3956c25b);
    OneConstant(5, 13, 0x2_59f111f1, 0x59f111f1);
    OneConstant(6, 17, 0x2_923f82a4, 0x923f82a4);
    OneConstant(7, 19, 0x2_ab1c5ed5, 0xab1c5ed5);
  }

  lemma Cubes8()
    requires IsNthPrime(7, 19)
    ensures IsNthPrime(15, 53) && forall t: nat :: 8 <= t < 16 ==> OfCubeRoot(t, Constant(t))
  {
    hide IsNthPrime, OfCubeRoot, Constant;
    Constants8();
    Primes8();
    OneConstant(8, 23, 0x2_d807aa98, 0xd807aa98);
    OneConstant(9, 29, 0x3_12835b01, 0x12835b01);
    OneConstant(10, 31, 0x3_243185be, 0x243185be);
    OneConstant(11, 37, 0x3_550c7dc3, 0x550c7dc3);
    OneConstant(12, 41, 0x3_72be5d74, 0x72be5d74);
    OneConstant(13, 43, 0x3_80deb1fe, 0x80deb1fe);
    OneConstant(14, 47, 0x3_9bdc06a7, 0x9bdc06a7);
    OneConstant(15, 53, 0x3_c19bf174, 0xc19bf174);
  }

  lemma Cubes16()
    requires IsNthPrime(15, 53)
    ensures IsNthPrime(23, 89) && forall t: nat :: 16 <= t < 24 ==> OfCubeRoot(t, Constant(t))
  {
    hide IsNthPrime, OfCubeRoot, Constant;
    Constants16();
    Primes16();
    OneConstant(16, 59, 0x3_e49b69c1, 0xe49b69c1);
    OneConstant(17, 61, 0x3_efbe4786, 0xefbe4786);
    OneConstant(18, 67, 0x4_0fc19dc6, 0x0fc19dc6);
    OneConstant(19, 71, 0x4_240ca1cc, 0x240ca1cc);
    OneConstant(20, 73, 0x4_2de92c6f, 0x2de92c6f);
    OneConstant(21, 79, 0x4_4a7484aa, 0x4a7484aa);
    OneConstant(22, 83, 0x4_5cb0a9dc, 0x5cb0a9dc);
    OneConstant(23, 89, 0x4_76f988da, 0x76f988da);
  }

  lemma Cubes24()
    requires IsNthPrime(23, 89)
    ensures IsNthPrime(31, 131) && forall t: nat :: 24 <= t < 32 ==> OfCubeRoot(t, Constant(t))
  {
    hide IsNthPrime, OfCubeRoot, Constant;
    Constants24();
    Primes24();
    OneConstant(24, 97, 0x4_983e5152, 0x983e5152);
    OneConstant(25, 101, 0x4_a831c66d, 0xa831c66d);
    OneConstant(26, 103, 0x4_b00327c8, 0xb00327c8);
    OneConstant(27, 107, 0x4_bf597fc7, 0xbf597fc7);
    OneConstant(28, 109, 0x4_c6e00bf3, 0xc6e00bf3);
    OneConstant(29, 113, 0x4_d5a79147, 0xd5a79147);
    OneConstant(30, 127, 0x5_06ca6351, 0x06ca6351);
    OneConstant(31, 131, 0x5_14292967, 0x14292967);
  }

  lemma Cubes32()
    requires IsNthPrime(31, 131)
    ensures IsNthPrime(39, 173) && forall t: nat :: 32 <= t < 40 ==> OfCubeRoot(t, Constant(t))
  {
    hide IsNthPrime, OfCubeRoot, Constant;
    Constants32();
    Primes32();
    OneConstant(32, 137, 0x5_27b70a85, 0x27b70a85);
    OneConstant(33, 139, 0x5_2e1b2138, 0x2e1b2138);
    OneConstant(34, 149, 0x5_4d2c6dfc, 0x4d2c6dfc);
    OneConstant(35, 151, 0x5_53380d13, 0x53380d13);
    OneConstant(36, 157, 0x5_650a7354, 0x650a7354);
    OneConstant(37, 163, 0x5_766a0abb, 0x766a0abb);
    OneConstant(38, 167, 0x5_81c2c92e, 0x81c2c92e);
    OneConstant(39, 173, 0x5_92722c85, 0x92722c85);
  }

  lemma Cubes40()
    requires IsNthPrime(39, 173)
    ensures IsNthPrime(47, 223) && forall t: nat :: 40 <= t < 48 ==> OfCubeRoot(t, Constant(t))
  {
    hide IsNthPrime, OfCubeRoot, Constant;
    Constants40();
    Primes40();
    OneConstant(40, 179, 0x5_a2bfe8a1, 0xa2bfe8a1);
    OneConstant(41, 181, 0x5_a81a664b, 0xa81a664b);
    OneConstant(42, 191, 0x5_c24b8b70, 0xc24b8b70);
    OneConstant(43, 193, 0x5_c76c51a3, 0xc76c51a3);
    OneConstant(44, 197, 0x5_d192e819, 0xd192e819);
    OneConstant(45, 199, 0x5_d6990624, 0xd6990624);
    OneConstant(46, 211, 0x5_f40e3585, 0xf40e3585);
    OneConstant(47, 223, 0x6_106aa070, 0x106aa070);
  }

  lemma Cubes48()
    requires IsNthPrime(47, 223)
    ensures IsNthPrime(55, 263) && forall t: nat :: 48 <= t < 56 ==> OfCubeRoot(t, Constant(t))
  {
    hide IsNthPrime, OfCubeRoot, Constant;
    Constants48();
    Primes48();
    OneConstant(48, 227, 0x6_19a4c116, 0x19a4c116);
    OneConstant(49, 229, 0x6_1e376c08, 0x1e376c08);
    OneConstant(50, 233, 0x6_2748774c, 0x2748774c);
    OneConstant(51, 239, 0x6_34b0bcb5, 0x34b0bcb5);
    OneConstant(52, 241, 0x6_391c0cb3, 0x391c0cb3);
    OneConstant(53, 251, 0x6_4ed8aa4a, 0x4ed8aa4a);
    OneConstant(54, 257, 0x6_5b9cca4f, 0x5b9cca4f);
    OneConstant(55, 263, 0x6_682e6ff3, 0x682e6ff3);
  }

  lemma Cubes56()
    requires IsNthPrime(55, 263)
    ensures IsNthPrime(63, 311) && forall t: nat :: 56 <= t < 64 ==> OfCubeRoot(t, Constant(t))
  {
    hide IsNthPrime, OfCubeRoot, Constant;
    Constants56();
    Primes56();
    OneConstant(56, 269, 0x6_748f82ee, 0x748f82ee);
    OneConstant(57, 271, 0x6_78a5636f, 0x78a5636f);
    OneConstant(58, 277, 0x6_84c87814, 0x84c87814);
    OneConstant(59, 281, 0x6_8cc70208, 0x8cc70208);
    OneConstant(60, 283, 0x6_90befffa, 0x90befffa);
    OneConstant(61, 293, 0x6_a4506ceb, 0xa4506ceb);
    OneConstant(62, 307, 0x6_bef9a3f7, 0xbef9a3f7);
    OneConstant(63, 311, 0x6_c67178f2, 0xc67178f2);
  }

  /** Section 4.2.2: constant t is the first 32 bits of the fraction of the cube root of the t-th prime. */
  lemma ConstantsAreCubeRoots(t: nat)
    requires t < 64
    ensures OfCubeRoot(t, K[t])
  {
    hide OfCubeRoot, IsNthPrime;
    Cubes0();
    Cubes8();
    Cubes16();
    Cubes24();
    Cubes32();
    Cubes40();
    Cubes48();
    Cubes56();
    assert K[t] == Constant(t);
    hide K;
  }

  /** Section 5.3.3: the initial hash value is the first 32 bits of the fractions of the square roots of the first eight primes. */
  lemma InitialIsSquareRoots(t: nat)
    requires t < 8
    ensures OfSquareRoot(t, H0[t])
  {
    hide OfSquareRoot, IsNthPrime;
    Primes0();
    OneInitial(0, 2, 0x1_6a09e667, 0x6a09e667);
    OneInitial(1, 3, 0x1_bb67ae85, 0xbb67ae85);
    OneInitial(2, 5, 0x2_3c6ef372, 0x3c6ef372);
    OneInitial(3, 7, 0x2_a54ff53a, 0xa54ff53a);
    OneInitial(4, 11, 0x3_510e527f, 0x510e527f);
    OneInitial(5, 13, 0x3_9b05688c, 0x9b05688c);
    OneInitial(6, 17, 0x4_1f83d9ab, 0x1f83d9ab);
    OneInitial(7, 19, 0x4_5be0cd19, 0x5be0cd19);
  }
}
