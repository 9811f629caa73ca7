/**
 The worked example of FIPS 180-4: the message "abc", which is one block. Every constant, rotation
 and byte order of `Sha256Spec` takes part in it.
 */
module Sha256Example {
  import IncrementalHmac
  import opened Sha256Spec
  import opened Sequences
  import opened WordArithmetic

  const ABC: Octets := [0x61, 0x62, 0x63]
  const BLOCK: Octets := ABC + [0x80] + Fill(0, 59) + [0x18]

  // ---- the message schedule -----------------------------------------------------------------------

  /** Four words of the schedule, from word `t` on. */
  predicate Scheduled(t: nat, w0: bv32, w1: bv32, w2: bv32, w3: bv32)
    requires t + 4 <= 64
  {
    Schedule(BLOCK, t) == w0 && Schedule(BLOCK, t + 1) == w1 && Schedule(BLOCK, t + 2) == w2 && Schedule(BLOCK, t + 3) == w3
  }

  lemma NextWord(t: nat, a: bv32, b: bv32, c: bv32, d: bv32)
    requires 16 <= t < 64
    requires Schedule(BLOCK, t - 2) == a && Schedule(BLOCK, t - 7) == b
    requires Schedule(BLOCK, t - 15) == c && Schedule(BLOCK, t - 16) == d
    ensures Schedule(BLOCK, t) == Sum4(SmallSigma1(a), b, SmallSigma0(c), d)
  {
    hide SmallSigma0, SmallSigma1, Sum4, WordAt;
  }

  lemma Words0()
    ensures Scheduled(0, 0x61626380, 0x00000000, 0x00000000, 0x00000000)
    ensures Scheduled(4, 0x00000000, 0x00000000, 0x00000000, 0x00000000)
    ensures Scheduled(8, 0x00000000, 0x00000000, 0x00000000, 0x00000000)
    ensures Scheduled(12, 0x00000000, 0x00000000, 0x00000000, 0x00000018)
  {
    hide SmallSigma0, SmallSigma1, Sum4;
  }

  lemma Words16()
    ensures Scheduled(16, 0x61626380, 0x000f0000, 0x7da86405, 0x600003c6)
    ensures Scheduled(20, 0x3e9d7b78, 0x0183fc00, 0x12dcbfdb, 0xe2e2c38e)
    ensures Scheduled(24, 0xc8215c1a, 0xb73679a2, 0xe5bc3909, 0x32663c5b)
    ensures Scheduled(28, 0x9d209d67, 0xec8726cb, 0x702138a4, 0xd3b7973b)
  {
    hide Schedule, WordAt;
    Words0();
    NextWord(16, 0x00000000, 0x00000000, 0x00000000, 0x61626380);
    NextWord(17, 0x00000018, 0x00000000, 0x00000000, 0x00000000);
    NextWord(18, 0x61626380, 0x00000000, 0x00000000, 0x00000000);
    NextWord(19, 0x000f0000, 0x00000000, 0x00000000, 0x00000000);
    NextWord(20, 0x7da86405, 0x00000000, 0x00000000, 0x00000000);
    NextWord(21, 0x600003c6, 0x00000000, 0x00000000, 0x00000000);
    NextWord(22, 0x3e9d7b78, 0x00000018, 0x00000000, 0x00000000);
    NextWord(23, 0x0183fc00, 0x61626380, 0x00000000, 0x00000000);
    NextWord(24, 0x12dcbfdb, 0x000f0000, 0x00000000, 0x00000000);
    NextWord(25, 0xe2e2c38e, 0x7da86405, 0x00000000, 0x00000000);
    NextWord(26, 0xc8215c1a, 0x600003c6, 0x00000000, 0x00000000);
    NextWord(27, 0xb73679a2, 0x3e9d7b78, 0x00000000, 0x00000000);
    NextWord(28, 0xe5bc3909, 0x0183fc00, 0x00000000, 0x00000000);
    NextWord(29, 0x32663c5b, 0x12dcbfdb, 0x00000000, 0x00000000);
    NextWord(30, 0x9d209d67, 0xe2e2c38e, 0x00000018, 0x00000000);
    NextWord(31, 0xec8726cb, 0xc8215c1a, 0x61626380, 0x00000018);
  }

  lemma Words32()
    ensures Scheduled(32, 0x93f5997f, 0x3b68ba73, 0xaff4ffc1, 0xf10a5c62)
    ensures Scheduled(36, 0x0a8b3996, 0x72af830a, 0x9409e33e, 0x24641522)
    ensures Scheduled(40, 0x9f47bf94, 0xf0a64f5a, 0x3e246a79, 0x27333ba3)
    ensures Scheduled(44, 0x0c4763f2, 0x840abf27, 0x7a290d5d, 0x065c43da)
  {
    hide Schedule, WordAt;
    Words16();
    NextWord(32, 0x702138a4, 0xb73679a2, 0x000f0000, 0x61626380);
    NextWord(33, 0xd3b7973b, 0xe5bc3909, 0x7da86405, 0x000f0000);
    NextWord(34, 0x93f5997f, 0x32663c5b, 0x600003c6, 0x7da86405);
    NextWord(35, 0x3b68ba73, 0x9d209d67, 0x3e9d7b78, 0x600003c6);
    NextWord(36, 0xaff4ffc1, 0xec8726cb, 0x0183fc00, 0x3e9d7b78);
    NextWord(37, 0xf10a5c62, 0x702138a4, 0x12dcbfdb, 0x0183fc00);
    NextWord(38, 0x0a8b3996, 0xd3b7973b, 0xe2e2c38e, 0x12dcbfdb);
    NextWord(39, 0x72af830a, 0x93f5997f, 0xc8215c1a, 0xe2e2c38e);
    NextWord(40, 0x9409e33e, 0x3b68ba73, 0xb73679a2, 0xc8215c1a);
    NextWord(41, 0x24641522, 0xaff4ffc1, 0xe5bc3909, 0xb73679a2);
    NextWord(42, 0x9f47bf94, 0xf10a5c62, 0x32663c5b, 0xe5bc3909);
    NextWord(43, 0xf0a64f5a, 0x0a8b3996, 0x9d209d67, 0x32663c5b);
    NextWord(44, 0x3e246a79, 0x72af830a, 0xec8726cb, 0x9d209d67);
    NextWord(45, 0x27333ba3, 0x9409e33e, 0x702138a4, 0xec8726cb);
    NextWord(46, 0x0c4763f2, 0x24641522, 0xd3b7973b, 0x702138a4);
    NextWord(47, 0x840abf27, 0x9f47bf94, 0x93f5997f, 0xd3b7973b);
  }

  lemma Words48()
    ensures Scheduled(48, 0xfb3e89cb, 0xcc7617db, 0xb9e66c34, 0xa9993667)
    ensures Scheduled(52, 0x84badedd, 0xc21462bc, 0x1487472c, 0xb20f7a99)
    ensures Scheduled(56, 0xef57b9cd, 0xebe6b238, 0x9fe3095e, 0x78bc8d4b)
    ensures Scheduled(60, 0xa43fcf15, 0x668b2ff8, 0xeeaba2cc, 0x12b1edeb)
  {
    hide Schedule, WordAt;
    Words32();
    NextWord(48, 0x7a290d5d, 0xf0a64f5a, 0x3b68ba73, 0x93f5997f);
    NextWord(49, 0x065c43da, 0x3e246a79, 0xaff4ffc1, 0x3b68ba73);
    NextWord(50, 0xfb3e89cb, 0x27333ba3, 0xf10a5c62, 0xaff4ffc1);
    NextWord(51, 0xcc7617db, 0x0c4763f2, 0x0a8b3996, 0xf10a5c62);
    NextWord(52, 0xb9e66c34, 0x840abf27, 0x72af830a, 0x0a8b3996);
    NextWord(53, 0xa9993667, 0x7a290d5d, 0x9409e33e, 0x72af830a);
    NextWord(54, 0x84badedd, 0x065c43da, 0x24641522, 0x9409e33e);
    NextWord(55, 0xc21462bc, 0xfb3e89cb, 0x9f47bf94, 0x24641522);
    NextWord(56, 0x1487472c, 0xcc7617db, 0xf0a64f5a, 0x9f47bf94);
    NextWord(57, 0xb20f7a99, 0xb9e66c34, 0x3e246a79, 0xf0a64f5a);
    NextWord(58, 0xef57b9cd, 0xa9993667, 0x27333ba3, 0x3e246a79);
    NextWord(59, 0xebe6b238, 0x84badedd, 0x0c4763f2, 0x27333ba3);
    NextWord(60, 0x9fe3095e, 0xc21462bc, 0x840abf27, 0x0c4763f2);
    NextWord(61, 0x78bc8d4b, 0x1487472c, 0x7a290d5d, 0x840abf27);
    NextWord(62, 0xa43fcf15, 0xb20f7a99, 0x065c43da, 0x7a290d5d);
    NextWord(63, 0x668b2ff8, 0xef57b9cd, 0xfb3e89cb, 0x065c43da);
  }

  // ---- the rounds -------------------------------------------------------------------------------

  lemma NextRound(t: nat, v: Chain, k: bv32, w: bv32) returns (u: Chain)
    requires t < 64 && CONSTANTS[t] == k && Schedule(BLOCK, t) == w && Rounds(INITIAL, BLOCK, t) == v
    ensures u == Round(v, k, w) == Rounds(INITIAL, BLOCK, t + 1)
  {
    hide Round, Schedule;
    u := Round(v, k, w);
  }

  lemma NoRounds()
    ensures Rounds(INITIAL, BLOCK, 0) == INITIAL
  {}

  lemma Constants0()
    ensures CONSTANTS[0] == 0x428a2f98 && CONSTANTS[1] == 0x71374491 && CONSTANTS[2] == 0xb5c0fbcf && CONSTANTS[3] == 0xe9b5dba5
    ensures CONSTANTS[4] == 0x3956c25b && CONSTANTS[5] == 0x59f111f1 && CONSTANTS[6] == 0x923f82a4 && CONSTANTS[7] == 0xab1c5ed5
  {}

  lemma Constants8()
    ensures CONSTANTS[8] == 0xd807aa98 && CONSTANTS[9] == 0x12835b01 && CONSTANTS[10] == 0x243185be && CONSTANTS[11] == 0x550c7dc3
    ensures CONSTANTS[12] == 0x72be5d74 && CONSTANTS[13] == 0x80deb1fe && CONSTANTS[14] == 0x9bdc06a7 && CONSTANTS[15] == 0xc19bf174
  {}

  lemma Constants16()
    ensures CONSTANTS[16] == 0xe49b69c1 && CONSTANTS[17] == 0xefbe4786 && CONSTANTS[18] == 0x0fc19dc6 && CONSTANTS[19] == 0x240ca1cc
    ensures CONSTANTS[20] == 0x2de92c6f && CONSTANTS[21] == 0x4a7484aa && CONSTANTS[22] == 0x5cb0a9dc && CONSTANTS[23] == 0x76f988da
  {}

  lemma Constants24()
    ensures CONSTANTS[24] == 0x983e5152 && CONSTANTS[25] == 0xa831c66d && CONSTANTS[26] == 0xb00327c8 && CONSTANTS[27] == 0xbf597fc7
    ensures CONSTANTS[28] == 0xc6e00bf3 && CONSTANTS[29] == 0xd5a79147 && CONSTANTS[30] == 0x06ca6351 && CONSTANTS[31] == 0x14292967
  {}

  lemma Constants32()
    ensures CONSTANTS[32] == 0x27b70a85 && CONSTANTS[33] == 0x2e1b2138 && CONSTANTS[34] == 0x4d2c6dfc && CONSTANTS[35] == 0x53380d13
    ensures CONSTANTS[36] == 0x650a7354 && CONSTANTS[37] == 0x766a0abb && CONSTANTS[38] == 0x81c2c92e && CONSTANTS[39] == 0x92722c85
  {}

  lemma Constants40()
    ensures CONSTANTS[40] == 0xa2bfe8a1 && CONSTANTS[41] == 0xa81a664b && CONSTANTS[42] == 0xc24b8b70 && CONSTANTS[43] == 0xc76c51a3
    ensures CONSTANTS[44] == 0xd192e819 && CONSTANTS[45] == 0xd6990624 && CONSTANTS[46] == 0xf40e3585 && CONSTANTS[47] == 0x106aa070
  {}

  lemma Constants48()
    ensures CONSTANTS[48] == 0x19a4c116 && CONSTANTS[49] == 0x1e376c08 && CONSTANTS[50] == 0x2748774c && CONSTANTS[51] == 0x34b0bcb5
    ensures CONSTANTS[52] == 0x391c0cb3 && CONSTANTS[53] == 0x4ed8aa4a && CONSTANTS[54] == 0x5b9cca4f && CONSTANTS[55] == 0x682e6ff3
  {}

  lemma Constants56()
    ensures CONSTANTS[56] == 0x748f82ee && CONSTANTS[57] == 0x78a5636f && CONSTANTS[58] == 0x84c87814 && CONSTANTS[59] == 0x8cc70208
    ensures CONSTANTS[60] == 0x90befffa && CONSTANTS[61] == 0xa4506ceb && CONSTANTS[62] == 0xbef9a3f7 && CONSTANTS[63] == 0xc67178f2
  {}

  lemma Rounds8()
    ensures Rounds(INITIAL, BLOCK, 8) == Chain(0x85a07b5f, 0xe5030380, 0x2b4209f5, 0x04409a6a, 0x0c657a79, 0x9b27a401, 0x714260ad, 0x43ada245)
  {
    hide CONSTANTS, Rounds, Schedule, WordAt;
    NoRounds();
    Words0();
    Constants0();
    var v1 := NextRound(0, INITIAL, 0x428a2f98, 0x61626380);
    var v2 := NextRound(1, v1, 0x71374491, 0x00000000);
    var v3 := NextRound(2, v2, 0xb5c0fbcf, 0x00000000);
    var v4 := NextRound(3, v3, 0xe9b5dba5, 0x00000000);
    assert v4 == Chain(0xd550f666, 0xc8c347a7, 0x5a6ad9ad, 0x5d6aebcd, 0x24e00850, 0xf92939eb, 0x78ce7989, 0xfa2a4622);
    var v5 := NextRound(4, v4, 0x3956c25b, 0x00000000);
    var v6 := NextRound(5, v5, 0x59f111f1, 0x00000000);
    var v7 := NextRound(6, v6, 0x923f82a4, 0x00000000);
    var v8 := NextRound(7, v7, 0xab1c5ed5, 0x00000000);
  }

  lemma Rounds16()
    ensures Rounds(INITIAL, BLOCK, 16) == Chain(0xb0fa238e, 0xc0645fde, 0xd932eb16, 0x87912990, 0x07590dcd, 0x0b92f20c, 0x745a48de, 0x1e578218)
  {
    hide CONSTANTS, Rounds, Schedule, WordAt;
    Rounds8();
    Words0();
    Constants8();
    var v1 := NextRound(8, Chain(0x85a07b5f, 0xe5030380, 0x2b4209f5, 0x04409a6a, 0x0c657a79, 0x9b27a401, 0x714260ad, 0x43ada245), 0xd807aa98, 0x00000000);
    var v2 := NextRound(9, v1, 0x12835b01, 0x00000000);
    var v3 := NextRound(10, v2, 0x243185be, 0x00000000);
    var v4 := NextRound(11, v3, 0x550c7dc3, 0x00000000);
    assert v4 == Chain(0xf71fc5a9, 0x4798a3f4, 0x8c87346b, 0x8e04ecb9, 0x816fd6e9, 0x436b23e8, 0x1cc92596, 0x32ca2d8c);
    var v5 := NextRound(12, v4, 0x72be5d74, 0x00000000);
    var v6 := NextRound(13, v5, 0x80deb1fe, 0x00000000);
    var v7 := NextRound(14, v6, 0x9bdc06a7, 0x00000000);
    var v8 := NextRound(15, v7, 0xc19bf174, 0x00000018);
  }

  lemma Rounds24()
    ensures Rounds(INITIAL, BLOCK, 24) == Chain(0xc5d53d8d, 0xa7a3623f, 0xc2606d6d, 0x9dc68b63, 0xaa47c347, 0x49f5114a, 0xe1257970, 0x8ada8930)
  {
    hide CONSTANTS, Rounds, Schedule, WordAt;
    Rounds16();
    Words16();
    Constants16();
    var v1 := NextRound(16, Chain(0xb0fa238e, 0xc0645fde, 0xd932eb16, 0x87912990, 0x07590dcd, 0x0b92f20c, 0x745a48de, 0x1e578218), 0xe49b69c1, 0x61626380);
    var v2 := NextRound(17, v1, 0xefbe4786, 0x000f0000);
    var v3 := NextRound(18, v2, 0x0fc19dc6, 0x7da86405);
    var v4 := NextRound(19, v3, 0x240ca1cc, 0x600003c6);
    assert v4 == Chain(0xe1f20c33, 0xfe777bbf, 0xc2fbd9d1, 0x21da9a9b, 0xb0638179, 0xcc899961, 0x846ee454, 0x8034229c);
    var v5 := NextRound(20, v4, 0x2de92c6f, 0x3e9d7b78);
    var v6 := NextRound(21, v5, 0x4a7484aa, 0x0183fc00);
    var v7 := NextRound(22, v6, 0x5cb0a9dc, 0x12dcbfdb);
    var v8 := NextRound(23, v7, 0x76f988da, 0xe2e2c38e);
  }

  lemma Rounds32()
    ensures Rounds(INITIAL, BLOCK, 32) == Chain(0x73b33bf5, 0xea992a22, 0xa0060b30, 0x363482c9, 0xba591112, 0x0109ab3a, 0xade79437, 0x6112a3b7)
  {
    hide CONSTANTS, Rounds, Schedule, WordAt;
    Rounds24();
    Words16();
    Constants24();
    var v1 := NextRound(24, Chain(0xc5d53d8d, 0xa7a3623f, 0xc2606d6d, 0x9dc68b63, 0xaa47c347, 0x49f5114a, 0xe1257970, 0x8ada8930), 0x983e5152, 0xc8215c1a);
    var v2 := NextRound(25, v1, 0xa831c66d, 0xb73679a2);
    var v3 := NextRound(26, v2, 0xb00327c8, 0xe5bc3909);
    var v4 := NextRound(27, v3, 0xbf597fc7, 0x32663c5b);
    assert v4 == Chain(0x77d37528, 0xb62ec4bc, 0xcde8037d, 0x1c2c2838, 0xedffbff8, 0xc74c6516, 0x14383d8e, 0x2823ef91);
    var v5 := NextRound(28, v4, 0xc6e00bf3, 0x9d209d67);
    var v6 := NextRound(29, v5, 0xd5a79147, 0xec8726cb);
    var v7 := NextRound(30, v6, 0x06ca6351, 0x702138a4);
    var v8 := NextRound(31, v7, 0x14292967, 0xd3b7973b);
  }

  lemma Rounds40()
    ensures Rounds(INITIAL, BLOCK, 40) == Chain(0x79ea687a, 0x6dc57a8a, 0x34df1604, 0x41a65cb1, 0x1efbc0a0, 0xf0781bc8, 0xa507a53d, 0x0772a26b)
  {
    hide CONSTANTS, Rounds, Schedule, WordAt;
    Rounds32();
    Words32();
    Constants32();
    var v1 := NextRound(32, Chain(0x73b33bf5, 0xea992a22, 0xa0060b30, 0x363482c9, 0xba591112, 0x0109ab3a, 0xade79437, 0x6112a3b7), 0x27b70a85, 0x93f5997f);
    var v2 := NextRound(33, v1, 0x2e1b2138, 0x3b68ba73);
    var v3 := NextRound(34, v2, 0x4d2c6dfc, 0xaff4ffc1);
    var v4 := NextRound(35, v3, 0x53380d13, 0xf10a5c62);
    assert v4 == Chain(0x65a0cfe4, 0xa9a7738c, 0xfe604df5, 0x98e12507, 0xf4b002d6, 0x085f3833, 0x59249dd3, 0x9cd9f5f6);
    var v5 := NextRound(36, v4, 0x650a7354, 0x0a8b3996);
    var v6 := NextRound(37, v5, 0x766a0abb, 0x72af830a);
    var v7 := NextRound(38, v6, 0x81c2c92e, 0x9409e33e);
    var v8 := NextRound(39, v7, 0x92722c85, 0x24641522);
  }

  lemma Rounds48()
    ensures Rounds(INITIAL, BLOCK, 48) == Chain(0x4172328d, 0xa14c14b0, 0x72ab4b91, 0x26628815, 0xfecf0bc6, 0xd57b94a9, 0xb7755da1, 0xa80f11f0)
  {
    hide CONSTANTS, Rounds, Schedule, WordAt;
    Rounds40();
    Words32();
    Constants40();
    var v1 := NextRound(40, Chain(0x79ea687a, 0x6dc57a8a, 0x34df1604, 0x41a65cb1, 0x1efbc0a0, 0xf0781bc8, 0xa507a53d, 0x0772a26b), 0xa2bfe8a1, 0x9f47bf94);
    var v2 := NextRound(41, v1, 0xa81a664b, 0xf0a64f5a);
    var v3 := NextRound(42, v2, 0xc24b8b70, 0x3e246a79);
    var v4 := NextRound(43, v3, 0xc76c51a3, 0x27333ba3);
    assert v4 == Chain(0x9d4baf93, 0x17aa0dfe, 0xdf46652f, 0xd6670766, 0xfda24c2e, 0xdecd4715, 0x838b2711, 0x26352d63);
    var v5 := NextRound(44, v4, 0xd192e819, 0x0c4763f2);
    var v6 := NextRound(45, v5, 0xd6990624, 0x840abf27);
    var v7 := NextRound(46, v6, 0xf40e3585, 0x7a290d5d);
    var v8 := NextRound(47, v7, 0x106aa070, 0x065c43da);
  }

  lemma Rounds56()
    ensures Rounds(INITIAL, BLOCK, 56) == Chain(0x38cc9913, 0x3ec45cdb, 0xf5702fdb, 0x101fd28f, 0x54cb266b, 0xe50e1b4f, 0x9f4787c3, 0x529e7d00)
  {
    hide CONSTANTS, Rounds, Schedule, WordAt;
    Rounds48();
    Words48();
    Constants48();
    var v1 := NextRound(48, Chain(0x4172328d, 0xa14c14b0, 0x72ab4b91, 0x26628815, 0xfecf0bc6, 0xd57b94a9, 0xb7755da1, 0xa80f11f0), 0x19a4c116, 0xfb3e89cb);
    var v2 := NextRound(49, v1, 0x1e376c08, 0xcc7617db);
    var v3 := NextRound(50, v2, 0x2748774c, 0xb9e66c34);
    var v4 := NextRound(51, v3, 0x34b0bcb5, 0xa9993667);
    assert v4 == Chain(0x886e7a22, 0x7a0508a1, 0xf11bfaa8, 0x05757ceb, 0x49231c1e, 0x52f1ccf7, 0x6e5c390c, 0xbd714038);
    var v5 := NextRound(52, v4, 0x391c0cb3, 0x84badedd);
    var v6 := NextRound(53, v5, 0x4ed8aa4a, 0xc21462bc);
    var v7 := NextRound(54, v6, 0x5b9cca4f, 0x1487472c);
    var v8 := NextRound(55, v7, 0x682e6ff3, 0xb20f7a99);
  }

  lemma Rounds64()
    ensures Rounds(INITIAL, BLOCK, 64) == Chain(0x506e3058, 0xd39a2165, 0x04d24d6c, 0xb85e2ce9, 0x5ef50f24, 0xfb121210, 0x948d25b6, 0x961f4894)
  {
    hide CONSTANTS, Rounds, Schedule, WordAt;
    Rounds56();
    Words48();
    Constants56();
    var v1 := NextRound(56, Chain(0x38cc9913, 0x3ec45cdb, 0xf5702fdb, 0x101fd28f, 0x54cb266b, 0xe50e1b4f, 0x9f4787c3, 0x529e7d00), 0x748f82ee, 0xef57b9cd);
    var v2 := NextRound(57, v1, 0x78a5636f, 0xebe6b238);
    var v3 := NextRound(58, v2, 0x84c87814, 0x9fe3095e);
    var v4 := NextRound(59, v3, 0x8cc70208, 0x78bc8d4b);
    assert v4 == Chain(0xb6ae8fff, 0xffb70472, 0xc062d46f, 0xfcd1887b, 0xb21bad3d, 0x6d83bfc6, 0x7e44008e, 0x9b5e906c);
    var v5 := NextRound(60, v4, 0x90befffa, 0xa43fcf15);
    var v6 := NextRound(61, v5, 0xa4506ceb, 0x668b2ff8);
    var v7 := NextRound(62, v6, 0xbef9a3f7, 0xeeaba2cc);
    var v8 := NextRound(63, v7, 0xc67178f2, 0x12b1edeb);
  }

  // ---- the digest -------------------------------------------------------------------------------

  lemma {:induction false} NoDigits(len: nat)
    ensures BigEndian(0, len) == Fill(0, len)
  {
    if len > 0 { NoDigits(len - 1); }
  }

  lemma LengthOfAbc()
    ensures BigEndian(24, 8) == Fill(0, 7) + [0x18]
  {
    NoDigits(7);
  }

  lemma PaddedAbc()
    ensures Pad(ABC) == BLOCK
  {
    hide BigEndian;
    LengthOfAbc();
    assert Fill<bv8>(0, 52) + Fill(0, 7) == Fill(0, 59);
  }

  lemma BlockOfAbc()
    ensures HashBlocks(Pad(ABC)) == Compress(INITIAL, BLOCK)
  {
    hide Compress, Pad;
    PaddedAbc();
    assert BLOCK[..0] == [] && BLOCK[0..] == BLOCK;
  }

  lemma OctetsMore(words: seq<bv32>, x: bv32)
    ensures OctetsOf(words + [x]) == OctetsOf(words) + WordOctets(x)
    ensures OctetsOf([]) == []
  {
    hide WordOctets;
    assert (words + [x])[..|words|] == words;
  }

  lemma EightWords(v: Chain)
    ensures Digest(v) == [] + WordOctets(v.a) + WordOctets(v.b) + WordOctets(v.c) + WordOctets(v.d)
      + WordOctets(v.e) + WordOctets(v.f) + WordOctets(v.g) + WordOctets(v.h)
  {
    hide OctetsOf, WordOctets;
    var four := [] + [v.a] + [v.b] + [v.c] + [v.d];
    OctetsMore([], v.a);
    OctetsMore([] + [v.a], v.b);
    OctetsMore([] + [v.a] + [v.b], v.c);
    OctetsMore([] + [v.a] + [v.b] + [v.c], v.d);
    OctetsMore(four, v.e);
    OctetsMore(four + [v.e], v.f);
    OctetsMore(four + [v.e] + [v.f], v.g);
    OctetsMore(four + [v.e] + [v.f] + [v.g], v.h);
    assert four + [v.e] + [v.f] + [v.g] + [v.h] == Words(v);
  }

  lemma DigestOf(v: Chain)
    requires v == Chain(0xba7816bf, 0x8f01cfea, 0x414140de, 0x5dae2223, 0xb00361a3, 0x96177a9c, 0xb410ff61, 0xf20015ad)
    ensures Digest(v) == [
      0xba, 0x78, 0x16, 0xbf, 0x8f, 0x01, 0xcf, 0xea,
      0x41, 0x41, 0x40, 0xde, 0x5d, 0xae, 0x22, 0x23,
      0xb0, 0x03, 0x61, 0xa3, 0x96, 0x17, 0x7a, 0x9c,
      0xb4, 0x10, 0xff, 0x61, 0xf2, 0x00, 0x15, 0xad
    ]
  {
    hide Digest;
    EightWords(v);
  }

  /** The digest that the standard gives for "abc". */
  lemma AbcDigest()
    ensures Sha256(ABC) == [
      0xba, 0x78, 0x16, 0xbf, 0x8f, 0x01, 0xcf, 0xea,
      0x41, 0x41, 0x40, 0xde, 0x5d, 0xae, 0x22, 0x23,
      0xb0, 0x03, 0x61, 0xa3, 0x96, 0x17, 0x7a, 0x9c,
      0xb4, 0x10, 0xff, 0x61, 0xf2, 0x00, 0x15, 0xad
    ]
  {
    hide HashBlocks, Pad, Rounds, Digest;
    BlockOfAbc();
    Rounds64();
    DigestOf(Compress(INITIAL, BLOCK));
  }

  /** And the streaming code gives it, however the message arrives. */
  method HashAbc(pieces: seq<Octets>) returns (digest: array<bv8>)
    requires Join(pieces) == ABC
    ensures digest[..] == [
      0xba, 0x78, 0x16, 0xbf, 0x8f, 0x01, 0xcf, 0xea,
      0x41, 0x41, 0x40, 0xde, 0x5d, 0xae, 0x22, 0x23,
      0xb0, 0x03, 0x61, 0xa3, 0x96, 0x17, 0x7a, 0x9c,
      0xb4, 0x10, 0xff, 0x61, 0xf2, 0x00, 0x15, 0xad
    ]
  {
    hide Join, Sha256Spec.Sha256;
    AbcDigest();
    digest := IncrementalHmac.HashPieces(pieces);
  }
}
