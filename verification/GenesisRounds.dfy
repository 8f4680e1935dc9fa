/** The compressions behind the hash of the genesis block, round by round, as section 6.2.2 of FIPS 180-4 prescribes. */
module GenesisRounds {
  import opened Sha256Spec

  /** One round from a, ..., h with the constant k and the word x, and its two new words. */
  lemma Step(s: State, w: seq<bv32>, t: nat, a: bv32, b: bv32, c: bv32, d: bv32, e: bv32, f: bv32, g: bv32, h: bv32,
             k: bv32, x: bv32, a': bv32, e': bv32)
    requires t < 64 == |w| && Rounds(s, w, t) == Vars(a, b, c, d, e, f, g, h) && ROUND_CONSTANTS[t] == k && w[t] == x
    requires Add(Temp1(e, f, g, h, k, x), Temp2(a, b, c)) == a' && Add(d, Temp1(e, f, g, h, k, x)) == e'
    ensures Rounds(s, w, t + 1) == Vars(a', a, b, c, e', e, f, g)
  {
    hide Temp1, Temp2, Add, ROUND_CONSTANTS;
  }

  /** One word of the message schedule. */
  lemma Word(w: seq<bv32>, t: nat, w2: bv32, w7: bv32, w15: bv32, w16: bv32, x: bv32)
    requires IsSchedule(w) && 16 <= t < 64
    requires w[t - 2] == w2 && w[t - 7] == w7 && w[t - 15] == w15 && w[t - 16] == w16
    requires NextWord(w2, w7, w15, w16) == x
    ensures w[t] == x
  {
    hide NextWord;
    assert IsNext(w, t);
  }

  lemma RoundsStart(s: State, w: seq<bv32>)
    requires |w| == 64
    ensures Rounds(s, w, 0) == Vars(s[0], s[1], s[2], s[3], s[4], s[5], s[6], s[7])
  {
  }

  ghost predicate IsSchedule(w: seq<bv32>) {
    |w| == 64 && forall t :: 16 <= t < 64 ==> IsNext(w, t)
  }

  ghost predicate IsNext(w: seq<bv32>, t: nat)
    requires 16 <= t < |w|
  {
    w[t] == NextWord(w[t - 2], w[t - 7], w[t - 15], w[t - 16])
  }

  lemma {:induction false} ScheduleGrows(m: Block, n: nat)
    requires 16 <= n <= 64
    ensures var w := Schedule(m, n); w[..16] == m && forall t :: 16 <= t < n ==> IsNext(w, t)
  {
    hide NextWord;
    ScheduleStep(m, n - 1 + if n == 16 then 1 else 0);
    if n > 16 {
      ScheduleGrows(m, n - 1);
      var before, w := Schedule(m, n - 1), Schedule(m, n);
      forall t | 16 <= t < n ensures IsNext(w, t) {
        if t < n - 1 { assert IsNext(before, t); }
      }
    }
  }

  lemma ScheduleIs(m: Block)
    ensures IsSchedule(Schedule(m, 64)) && forall i :: 0 <= i < 16 ==> Schedule(m, 64)[i] == m[i]
  {
    hide NextWord, Schedule;
    ScheduleGrows(m, 64);
    assert forall i :: 0 <= i < 16 ==> Schedule(m, 64)[i] == Schedule(m, 64)[..16][i];
  }

  /** The hash value after the first 64 bytes, that of the header, and that of its hash. */
  const AFTER_HEAD: State := [
    0xbc909a33, 0x6358bff0, 0x90ccac7d, 0x1e59caa8,
    0xc3c8d8e9, 0x4f0103c8, 0x96b18736, 0x4719f91b]
  const INNER: State := [
    0xaf42031e, 0x805ff493, 0xa07341e2, 0xf74ff581,
    0x49d22ab9, 0xba19f613, 0x43e2c86c, 0x71c5d66d]
  const OUTER: State := [
    0x6fe28c0a, 0xb6f1b372, 0xc1a6a246, 0xae63f74f,
    0x931e8365, 0xe15a089c, 0x68d61900, 0x00000000]

  lemma Constants1()
    ensures ROUND_CONSTANTS[0] == 0x428a2f98 && ROUND_CONSTANTS[1] == 0x71374491 && ROUND_CONSTANTS[2] == 0xb5c0fbcf
    ensures ROUND_CONSTANTS[3] == 0xe9b5dba5 && ROUND_CONSTANTS[4] == 0x3956c25b && ROUND_CONSTANTS[5] == 0x59f111f1
    ensures ROUND_CONSTANTS[6] == 0x923f82a4 && ROUND_CONSTANTS[7] == 0xab1c5ed5 && ROUND_CONSTANTS[8] == 0xd807aa98
    ensures ROUND_CONSTANTS[9] == 0x12835b01 && ROUND_CONSTANTS[10] == 0x243185be && ROUND_CONSTANTS[11] == 0x550c7dc3
    ensures ROUND_CONSTANTS[12] == 0x72be5d74 && ROUND_CONSTANTS[13] == 0x80deb1fe && ROUND_CONSTANTS[14] == 0x9bdc06a7
    ensures ROUND_CONSTANTS[15] == 0xc19bf174
  {
  }

  lemma Constants2()
    ensures ROUND_CONSTANTS[16] == 0xe49b69c1 && ROUND_CONSTANTS[17] == 0xefbe4786 && ROUND_CONSTANTS[18] == 0x0fc19dc6
    ensures ROUND_CONSTANTS[19] == 0x240ca1cc && ROUND_CONSTANTS[20] == 0x2de92c6f && ROUND_CONSTANTS[21] == 0x4a7484aa
    ensures ROUND_CONSTANTS[22] == 0x5cb0a9dc && ROUND_CONSTANTS[23] == 0x76f988da && ROUND_CONSTANTS[24] == 0x983e5152
    ensures ROUND_CONSTANTS[25] == 0xa831c66d && ROUND_CONSTANTS[26] == 0xb00327c8 && ROUND_CONSTANTS[27] == 0xbf597fc7
    ensures ROUND_CONSTANTS[28] == 0xc6e00bf3 && ROUND_CONSTANTS[29] == 0xd5a79147 && ROUND_CONSTANTS[30] == 0x06ca6351
    ensures ROUND_CONSTANTS[31] == 0x14292967
  {
  }

  lemma Constants3()
    ensures ROUND_CONSTANTS[32] == 0x27b70a85 && ROUND_CONSTANTS[33] == 0x2e1b2138 && ROUND_CONSTANTS[34] == 0x4d2c6dfc
    ensures ROUND_CONSTANTS[35] == 0x53380d13 && ROUND_CONSTANTS[36] == 0x650a7354 && ROUND_CONSTANTS[37] == 0x766a0abb
    ensures ROUND_CONSTANTS[38] == 0x81c2c92e && ROUND_CONSTANTS[39] == 0x92722c85 && ROUND_CONSTANTS[40] == 0xa2bfe8a1
    ensures ROUND_CONSTANTS[41] == 0xa81a664b && ROUND_CONSTANTS[42] == 0xc24b8b70 && ROUND_CONSTANTS[43] == 0xc76c51a3
    ensures ROUND_CONSTANTS[44] == 0xd192e819 && ROUND_CONSTANTS[45] == 0xd6990624 && ROUND_CONSTANTS[46] == 0xf40e3585
    ensures ROUND_CONSTANTS[47] == 0x106aa070
  {
  }

  lemma Constants4()
    ensures ROUND_CONSTANTS[48] == 0x19a4c116 && ROUND_CONSTANTS[49] == 0x1e376c08 && ROUND_CONSTANTS[50] == 0x2748774c
    ensures ROUND_CONSTANTS[51] == 0x34b0bcb5 && ROUND_CONSTANTS[52] == 0x391c0cb3 && ROUND_CONSTANTS[53] == 0x4ed8aa4a
    ensures ROUND_CONSTANTS[54] == 0x5b9cca4f && ROUND_CONSTANTS[55] == 0x682e6ff3 && ROUND_CONSTANTS[56] == 0x748f82ee
    ensures ROUND_CONSTANTS[57] == 0x78a5636f && ROUND_CONSTANTS[58] == 0x84c87814 && ROUND_CONSTANTS[59] == 0x8cc70208
    ensures ROUND_CONSTANTS[60] == 0x90befffa && ROUND_CONSTANTS[61] == 0xa4506ceb && ROUND_CONSTANTS[62] == 0xbef9a3f7
    ensures ROUND_CONSTANTS[63] == 0xc67178f2
  {
  }

  // ---- The first 64 bytes of the header ----

  ghost predicate HeadWords1(w: seq<bv32>)
    requires |w| >= 16
  {
    && w[0] == 0x01000000 && w[1] == 0x00000000 && w[2] == 0x00000000 && w[3] == 0x00000000
    && w[4] == 0x00000000 && w[5] == 0x00000000 && w[6] == 0x00000000 && w[7] == 0x00000000
    && w[8] == 0x00000000 && w[9] == 0x3ba3edfd && w[10] == 0x7a7b12b2 && w[11] == 0x7ac72c3e
    && w[12] == 0x67768f61 && w[13] == 0x7fc81bc3 && w[14] == 0x888a5132 && w[15] == 0x3a9fb8aa
  }

  ghost predicate HeadWords2(w: seq<bv32>)
    requires |w| >= 32
  {
    && w[16] == 0x9f4125bd && w[17] == 0xa5ca10a4 && w[18] == 0x3115d83f && w[19] == 0xb1e64439
    && w[20] == 0xd6dc57a1 && w[21] == 0x7341e890 && w[22] == 0xdbb11f4a && w[23] == 0x68880d6f
    && w[24] == 0x58c16019 && w[25] == 0x22d14c7f && w[26] == 0x811e0379 && w[27] == 0x4f54aa6f
    && w[28] == 0x2ca27bda && w[29] == 0xfc2fd31d && w[30] == 0x20bc20bf && w[31] == 0xc8ed2455
  }

  ghost predicate HeadWords3(w: seq<bv32>)
    requires |w| >= 48
  {
    && w[32] == 0x302eccc4 && w[33] == 0x6bc9d731 && w[34] == 0x34b280c5 && w[35] == 0xfc8b72e7
    && w[36] == 0x382ddd40 && w[37] == 0x34222392 && w[38] == 0xca401f98 && w[39] == 0x501d2743
    && w[40] == 0x7999675c && w[41] == 0xf2e12eb6 && w[42] == 0x1af53bd2 && w[43] == 0x696f27ba
    && w[44] == 0x6c156da4 && w[45] == 0xb0194981 && w[46] == 0x87f013ce && w[47] == 0x0db7fc18
  }

  ghost predicate HeadWords4(w: seq<bv32>)
    requires |w| >= 64
  {
    && w[48] == 0x49325e36 && w[49] == 0xb519f5ca && w[50] == 0x0fc2d142 && w[51] == 0x1d3818f6
    && w[52] == 0xc4da6aab && w[53] == 0xfaaf6bf9 && w[54] == 0x159d12bd && w[55] == 0xe023ef94
    && w[56] == 0x91d40792 && w[57] == 0x7644b096 && w[58] == 0x6b5e657c && w[59] == 0x1ac19395
    && w[60] == 0xabd3c09f && w[61] == 0x4a773e3c && w[62] == 0xcf366adb && w[63] == 0x0a90f29a
  }

  lemma HeadQuarter1(s: State, w: seq<bv32>)
    requires |w| == 64 && IsSchedule(w) && HeadWords1(w)
    requires s == INITIAL
    ensures Rounds(s, w, 16)
      == Vars(0x75cb74d0, 0x381faffc, 0xdda5108a, 0xb3ff0d63, 0x6328db87, 0x95b3d2fc, 0x1b39d036, 0x17feeddf)
  {
    hide Rounds, ROUND_CONSTANTS, IsSchedule;
    Constants1();
    RoundsStart(s, w);
    Step(s, w, 0, 0x6a09e667, 0xbb67ae85, 0x3c6ef372, 0xa54ff53a, 0x510e527f, 0x9b05688c, 0x1f83d9ab, 0x5be0cd19,
         0x428a2f98, 0x01000000, 0xfd08884d, 0x99c7e2a2);
    Step(s, w, 1, 0xfd08884d, 0x6a09e667, 0xbb67ae85, 0x3c6ef372, 0x99c7e2a2, 0x510e527f, 0x9b05688c, 0x1f83d9ab,
         0x71374491, 0x00000000, 0xfb9d8a8c, 0x1df5d216);
    Step(s, w, 2, 0xfb9d8a8c, 0xfd08884d, 0x6a09e667, 0xbb67ae85, 0x1df5d216, 0x99c7e2a2, 0x510e527f, 0x9b05688c,
         0xb5c0fbcf, 0x00000000, 0xa2a7a1b0, 0x465b3847);
    Step(s, w, 3, 0xa2a7a1b0, 0xfb9d8a8c, 0xfd08884d, 0x6a09e667, 0x465b3847, 0x1df5d216, 0x99c7e2a2, 0x510e527f,
         0xe9b5dba5, 0x00000000, 0xc83f4d56, 0x7b116b56);
    Step(s, w, 4, 0xc83f4d56, 0xa2a7a1b0, 0xfb9d8a8c, 0xfd08884d, 0x7b116b56, 0x465b3847, 0x1df5d216, 0x99c7e2a2,
         0x3956c25b, 0x00000000, 0xe5f73d23, 0xd2b3724d);
    Step(s, w, 5, 0xe5f73d23, 0xc83f4d56, 0xa2a7a1b0, 0xfb9d8a8c, 0xd2b3724d, 0x7b116b56, 0x465b3847, 0x1df5d216,
         0x59f111f1, 0x00000000, 0xa2d7a833, 0xf1279627);
    Step(s, w, 6, 0xa2d7a833, 0xe5f73d23, 0xc83f4d56, 0xa2a7a1b0, 0xf1279627, 0xd2b3724d, 0x7b116b56, 0x465b3847,
         0x923f82a4, 0x00000000, 0x543f3eff, 0x1e678142);
    Step(s, w, 7, 0x543f3eff, 0xa2d7a833, 0xe5f73d23, 0xc83f4d56, 0x1e678142, 0xf1279627, 0xd2b3724d, 0x7b116b56,
         0xab1c5ed5, 0x00000000, 0xcde67f7d, 0xd31ffd8a);
    Step(s, w, 8, 0xcde67f7d, 0x543f3eff, 0xa2d7a833, 0xe5f73d23, 0xd31ffd8a, 0x1e678142, 0xf1279627, 0xd2b3724d,
         0xd807aa98, 0x00000000, 0xc92cbfc6, 0xd8c2b68f);
    Step(s, w, 9, 0xc92cbfc6, 0xcde67f7d, 0x543f3eff, 0xa2d7a833, 0xd8c2b68f, 0xd31ffd8a, 0x1e678142, 0xf1279627,
         0x12835b01, 0x3ba3edfd, 0x70eaa7fe, 0x48119282);
    Step(s, w, 10, 0x70eaa7fe, 0xc92cbfc6, 0xcde67f7d, 0x543f3eff, 0x48119282, 0xd8c2b68f, 0xd31ffd8a, 0x1e678142,
         0x243185be, 0x7a7b12b2, 0xbd08b5ff, 0x3e025d97);
    Step(s, w, 11, 0xbd08b5ff, 0x70eaa7fe, 0xc92cbfc6, 0xcde67f7d, 0x3e025d97, 0x48119282, 0xd8c2b68f, 0xd31ffd8a,
         0x550c7dc3, 0x7ac72c3e, 0xb6765083, 0x28cbdc34);
    Step(s, w, 12, 0xb6765083, 0xbd08b5ff, 0x70eaa7fe, 0xc92cbfc6, 0x28cbdc34, 0x3e025d97, 0x48119282, 0xd8c2b68f,
         0x72be5d74, 0x67768f61, 0xb3ff0d63, 0x17feeddf);
    Step(s, w, 13, 0xb3ff0d63, 0xb6765083, 0xbd08b5ff, 0x70eaa7fe, 0x17feeddf, 0x28cbdc34, 0x3e025d97, 0x48119282,
         0x80deb1fe, 0x7fc81bc3, 0xdda5108a, 0x1b39d036);
    Step(s, w, 14, 0xdda5108a, 0xb3ff0d63, 0xb6765083, 0xbd08b5ff, 0x1b39d036, 0x17feeddf, 0x28cbdc34, 0x3e025d97,
         0x9bdc06a7, 0x888a5132, 0x381faffc, 0x95b3d2fc);
    Step(s, w, 15, 0x381faffc, 0xdda5108a, 0xb3ff0d63, 0xb6765083, 0x95b3d2fc, 0x1b39d036, 0x17feeddf, 0x28cbdc34,
         0xc19bf174, 0x3a9fb8aa, 0x75cb74d0, 0x6328db87);
  }

  lemma HeadQuarter2(s: State, w: seq<bv32>)
    requires |w| == 64 && IsSchedule(w) && HeadWords1(w)
    requires Rounds(s, w, 16)
      == Vars(0x75cb74d0, 0x381faffc, 0xdda5108a, 0xb3ff0d63, 0x6328db87, 0x95b3d2fc, 0x1b39d036, 0x17feeddf)
    ensures HeadWords2(w) && Rounds(s, w, 32)
      == Vars(0x141109fe, 0xd4c607a4, 0xa5e36006, 0x738e87b7, 0x742d17eb, 0x901f1ebf, 0x97830240, 0x13357754)
  {
    hide Rounds, ROUND_CONSTANTS, IsSchedule;
    Constants2();
    Word(w, 16, 0x888a5132, 0x3ba3edfd, 0x00000000, 0x01000000, 0x9f4125bd);
    Step(s, w, 16, 0x75cb74d0, 0x381faffc, 0xdda5108a, 0xb3ff0d63, 0x6328db87, 0x95b3d2fc, 0x1b39d036, 0x17feeddf,
         0xe49b69c1, 0x9f4125bd, 0xc1cbbd65, 0x62196338);
    Word(w, 17, 0x3a9fb8aa, 0x7a7b12b2, 0x00000000, 0x00000000, 0xa5ca10a4);
    Step(s, w, 17, 0xc1cbbd65, 0x75cb74d0, 0x381faffc, 0xdda5108a, 0x62196338, 0x6328db87, 0x95b3d2fc, 0x1b39d036,
         0xefbe4786, 0xa5ca10a4, 0x5a17eaac, 0x1047c73f);
    Word(w, 18, 0x9f4125bd, 0x7ac72c3e, 0x00000000, 0x00000000, 0x3115d83f);
    Step(s, w, 18, 0x5a17eaac, 0xc1cbbd65, 0x75cb74d0, 0x381faffc, 0x1047c73f, 0x62196338, 0x6328db87, 0x95b3d2fc,
         0x0fc19dc6, 0x3115d83f, 0xe00ec585, 0xaa14dd21);
    Word(w, 19, 0xa5ca10a4, 0x67768f61, 0x00000000, 0x00000000, 0xb1e64439);
    Step(s, w, 19, 0xe00ec585, 0x5a17eaac, 0xc1cbbd65, 0x75cb74d0, 0xaa14dd21, 0x1047c73f, 0x62196338, 0x6328db87,
         0x240ca1cc, 0xb1e64439, 0xd167be3b, 0x17e89ecf);
    Word(w, 20, 0x3115d83f, 0x7fc81bc3, 0x00000000, 0x00000000, 0xd6dc57a1);
    Step(s, w, 20, 0xd167be3b, 0xe00ec585, 0x5a17eaac, 0xc1cbbd65, 0x17e89ecf, 0xaa14dd21, 0x1047c73f, 0x62196338,
         0x2de92c6f, 0xd6dc57a1, 0xe66077ff, 0x3ca4bac1);
    Word(w, 21, 0xb1e64439, 0x888a5132, 0x00000000, 0x00000000, 0x7341e890);
    Step(s, w, 21, 0xe66077ff, 0xd167be3b, 0xe00ec585, 0x5a17eaac, 0x3ca4bac1, 0x17e89ecf, 0xaa14dd21, 0x1047c73f,
         0x4a7484aa, 0x7341e890, 0x1b574460, 0xcd4f65e8);
    Word(w, 22, 0xd6dc57a1, 0x3a9fb8aa, 0x00000000, 0x00000000, 0xdbb11f4a);
    Step(s, w, 22, 0x1b574460, 0xe66077ff, 0xd167be3b, 0xe00ec585, 0xcd4f65e8, 0x3ca4bac1, 0x17e89ecf, 0xaa14dd21,
         0x5cb0a9dc, 0xdbb11f4a, 0x06e5c375, 0x9ac886b0);
    Word(w, 23, 0x7341e890, 0x9f4125bd, 0x00000000, 0x00000000, 0x68880d6f);
    Step(s, w, 23, 0x06e5c375, 0x1b574460, 0xe66077ff, 0xd167be3b, 0x9ac886b0, 0xcd4f65e8, 0x3ca4bac1, 0x17e89ecf,
         0x76f988da, 0x68880d6f, 0xe793709d, 0xe579537b);
    Word(w, 24, 0xdbb11f4a, 0xa5ca10a4, 0x3ba3edfd, 0x00000000, 0x58c16019);
    Step(s, w, 24, 0xe793709d, 0x06e5c375, 0x1b574460, 0xe66077ff, 0xe579537b, 0x9ac886b0, 0xcd4f65e8, 0x3ca4bac1,
         0x983e5152, 0x58c16019, 0xaad46208, 0xd8940270);
    Word(w, 25, 0x68880d6f, 0x3115d83f, 0x7a7b12b2, 0x3ba3edfd, 0x22d14c7f);
    Step(s, w, 25, 0xaad46208, 0xe793709d, 0x06e5c375, 0x1b574460, 0xd8940270, 0xe579537b, 0x9ac886b0, 0xcd4f65e8,
         0xa831c66d, 0x22d14c7f, 0x34714950, 0x3d7abf09);
    Word(w, 26, 0x58c16019, 0xb1e64439, 0x7ac72c3e, 0x7a7b12b2, 0x811e0379);
    Step(s, w, 26, 0x34714950, 0xaad46208, 0xe793709d, 0x06e5c375, 0x3d7abf09, 0xd8940270, 0xe579537b, 0x9ac886b0,
         0xb00327c8, 0x811e0379, 0x4612c6bf, 0x236e790d);
    Word(w, 27, 0x22d14c7f, 0xd6dc57a1, 0x67768f61, 0x7ac72c3e, 0x4f54aa6f);
    Step(s, w, 27, 0x4612c6bf, 0x34714950, 0xaad46208, 0xe793709d, 0x236e790d, 0x3d7abf09, 0xd8940270, 0xe579537b,
         0xbf597fc7, 0x4f54aa6f, 0x65ebca1d, 0x77ca7c81);
    Word(w, 28, 0x811e0379, 0x7341e890, 0x7fc81bc3, 0x67768f61, 0x2ca27bda);
    Step(s, w, 28, 0x65ebca1d, 0x4612c6bf, 0x34714950, 0xaad46208, 0x77ca7c81, 0x236e790d, 0x3d7abf09, 0xd8940270,
         0xc6e00bf3, 0x2ca27bda, 0x738e87b7, 0x13357754);
    Word(w, 29, 0x4f54aa6f, 0xdbb11f4a, 0x888a5132, 0x7fc81bc3, 0xfc2fd31d);
    Step(s, w, 29, 0x738e87b7, 0x65ebca1d, 0x4612c6bf, 0x34714950, 0x13357754, 0x77ca7c81, 0x236e790d, 0x3d7abf09,
         0xd5a79147, 0xfc2fd31d, 0xa5e36006, 0x97830240);
    Word(w, 30, 0x2ca27bda, 0x68880d6f, 0x3a9fb8aa, 0x888a5132, 0x20bc20bf);
    Step(s, w, 30, 0xa5e36006, 0x738e87b7, 0x65ebca1d, 0x4612c6bf, 0x97830240, 0x13357754, 0x77ca7c81, 0x236e790d,
         0x06ca6351, 0x20bc20bf, 0xd4c607a4, 0x901f1ebf);
    Word(w, 31, 0xfc2fd31d, 0x58c16019, 0x9f4125bd, 0x3a9fb8aa, 0xc8ed2455);
    Step(s, w, 31, 0xd4c607a4, 0xa5e36006, 0x738e87b7, 0x65ebca1d, 0x901f1ebf, 0x97830240, 0x13357754, 0x77ca7c81,
         0x14292967, 0xc8ed2455, 0x141109fe, 0x742d17eb);
  }

  lemma HeadQuarter3(s: State, w: seq<bv32>)
    requires |w| == 64 && IsSchedule(w) && HeadWords2(w)
    requires Rounds(s, w, 32)
      == Vars(0x141109fe, 0xd4c607a4, 0xa5e36006, 0x738e87b7, 0x742d17eb, 0x901f1ebf, 0x97830240, 0x13357754)
    ensures HeadWords3(w) && Rounds(s, w, 48)
      == Vars(0x67be715f, 0x510a1a84, 0xb37dba9a, 0x8039d657, 0xeffbe2ea, 0xd6f3dcb6, 0x41e865b7, 0x95610544)
  {
    hide Rounds, ROUND_CONSTANTS, IsSchedule;
    Constants3();
    Word(w, 32, 0x20bc20bf, 0x22d14c7f, 0xa5ca10a4, 0x9f4125bd, 0x302eccc4);
    Step(s, w, 32, 0x141109fe, 0xd4c607a4, 0xa5e36006, 0x738e87b7, 0x742d17eb, 0x901f1ebf, 0x97830240, 0x13357754,
         0x27b70a85, 0x302eccc4, 0x687645dc, 0xb86eb146);
    Word(w, 33, 0xc8ed2455, 0x811e0379, 0x3115d83f, 0xa5ca10a4, 0x6bc9d731);
    Step(s, w, 33, 0x687645dc, 0x141109fe, 0xd4c607a4, 0xa5e36006, 0xb86eb146, 0x742d17eb, 0x901f1ebf, 0x97830240,
         0x2e1b2138, 0x6bc9d731, 0xa952d853, 0x0cf68ef9);
    Word(w, 34, 0x302eccc4, 0x4f54aa6f, 0xb1e64439, 0x3115d83f, 0x34b280c5);
    Step(s, w, 34, 0xa952d853, 0x687645dc, 0x141109fe, 0xd4c607a4, 0x0cf68ef9, 0xb86eb146, 0x742d17eb, 0x901f1ebf,
         0x4d2c6dfc, 0x34b280c5, 0x56bdd333, 0x9f88ded2);
    Word(w, 35, 0x6bc9d731, 0x2ca27bda, 0xd6dc57a1, 0xb1e64439, 0xfc8b72e7);
    Step(s, w, 35, 0x56bdd333, 0xa952d853, 0x687645dc, 0x141109fe, 0x9f88ded2, 0x0cf68ef9, 0xb86eb146, 0x742d17eb,
         0x53380d13, 0xfc8b72e7, 0x6909e0b3, 0x592b0ce6);
    Word(w, 36, 0x34b280c5, 0xfc2fd31d, 0x7341e890, 0xd6dc57a1, 0x382ddd40);
    Step(s, w, 36, 0x6909e0b3, 0x56bdd333, 0xa952d853, 0x687645dc, 0x592b0ce6, 0x9f88ded2, 0x0cf68ef9, 0xb86eb146,
         0x650a7354, 0x382ddd40, 0x6523592d, 0x6c23d10f);
    Word(w, 37, 0xfc8b72e7, 0x20bc20bf, 0xdbb11f4a, 0x7341e890, 0x34222392);
    Step(s, w, 37, 0x6523592d, 0x6909e0b3, 0x56bdd333, 0xa952d853, 0x6c23d10f, 0x592b0ce6, 0x9f88ded2, 0x0cf68ef9,
         0x766a0abb, 0x34222392, 0x2354749c, 0x4a3630f7);
    Word(w, 38, 0x382ddd40, 0xc8ed2455, 0x68880d6f, 0xdbb11f4a, 0xca401f98);
    Step(s, w, 38, 0x2354749c, 0x6523592d, 0x6909e0b3, 0x56bdd333, 0x4a3630f7, 0x6c23d10f, 0x592b0ce6, 0x9f88ded2,
         0x81c2c92e, 0xca401f98, 0x7c78b105, 0x744e9c72);
    Word(w, 39, 0x34222392, 0x302eccc4, 0x58c16019, 0x68880d6f, 0x501d2743);
    Step(s, w, 39, 0x7c78b105, 0x2354749c, 0x6523592d, 0x6909e0b3, 0x744e9c72, 0x4a3630f7, 0x6c23d10f, 0x592b0ce6,
         0x92722c85, 0x501d2743, 0x80158847, 0x4dbd1d78);
    Word(w, 40, 0xca401f98, 0x6bc9d731, 0x22d14c7f, 0x58c16019, 0x7999675c);
    Step(s, w, 40, 0x80158847, 0x7c78b105, 0x2354749c, 0x6523592d, 0x4dbd1d78, 0x744e9c72, 0x4a3630f7, 0x6c23d10f,
         0xa2bfe8a1, 0x7999675c, 0x73aa8ab5, 0xc460b720);
    Word(w, 41, 0x501d2743, 0x34b280c5, 0x811e0379, 0x22d14c7f, 0xf2e12eb6);
    Step(s, w, 41, 0x73aa8ab5, 0x80158847, 0x7c78b105, 0x2354749c, 0xc460b720, 0x4dbd1d78, 0x744e9c72, 0x4a3630f7,
         0xa81a664b, 0xf2e12eb6, 0xc456f44e, 0xd406f6ae);
    Word(w, 42, 0x7999675c, 0xfc8b72e7, 0x4f54aa6f, 0x811e0379, 0x1af53bd2);
    Step(s, w, 42, 0xc456f44e, 0x73aa8ab5, 0x80158847, 0x7c78b105, 0xd406f6ae, 0xc460b720, 0x4dbd1d78, 0x744e9c72,
         0xc24b8b70, 0x1af53bd2, 0x96041c8e, 0x09b3a097);
    Word(w, 43, 0xf2e12eb6, 0x382ddd40, 0x2ca27bda, 0x4f54aa6f, 0x696f27ba);
    Step(s, w, 43, 0x96041c8e, 0xc456f44e, 0x73aa8ab5, 0x80158847, 0x09b3a097, 0xd406f6ae, 0xc460b720, 0x4dbd1d78,
         0xc76c51a3, 0x696f27ba, 0x01812bd6, 0x5a088a34);
    Word(w, 44, 0x1af53bd2, 0x34222392, 0xfc2fd31d, 0x2ca27bda, 0x6c156da4);
    Step(s, w, 44, 0x01812bd6, 0x96041c8e, 0xc456f44e, 0x73aa8ab5, 0x5a088a34, 0x09b3a097, 0xd406f6ae, 0xc460b720,
         0xd192e819, 0x6c156da4, 0x8039d657, 0x95610544);
    Word(w, 45, 0x696f27ba, 0xca401f98, 0x20bc20bf, 0xfc2fd31d, 0xb0194981);
    Step(s, w, 45, 0x8039d657, 0x01812bd6, 0x96041c8e, 0xc456f44e, 0x95610544, 0x5a088a34, 0x09b3a097, 0xd406f6ae,
         0xd6990624, 0xb0194981, 0xb37dba9a, 0x41e865b7);
    Word(w, 46, 0x6c156da4, 0x501d2743, 0xc8ed2455, 0x20bc20bf, 0x87f013ce);
    Step(s, w, 46, 0xb37dba9a, 0x8039d657, 0x01812bd6, 0x96041c8e, 0x41e865b7, 0x95610544, 0x5a088a34, 0x09b3a097,
         0xf40e3585, 0x87f013ce, 0x510a1a84, 0xd6f3dcb6);
    Word(w, 47, 0xb0194981, 0x7999675c, 0x302eccc4, 0xc8ed2455, 0x0db7fc18);
    Step(s, w, 47, 0x510a1a84, 0xb37dba9a, 0x8039d657, 0x01812bd6, 0xd6f3dcb6, 0x41e865b7, 0x95610544, 0x5a088a34,
         0x106aa070, 0x0db7fc18, 0x67be715f, 0xeffbe2ea);
  }

  lemma HeadQuarter4(s: State, w: seq<bv32>)
    requires |w| == 64 && IsSchedule(w) && HeadWords3(w)
    requires Rounds(s, w, 48)
      == Vars(0x67be715f, 0x510a1a84, 0xb37dba9a, 0x8039d657, 0xeffbe2ea, 0xd6f3dcb6, 0x41e865b7, 0x95610544)
    ensures HeadWords4(w) && Rounds(s, w, 64)
      == Vars(0x5286b3cc, 0xa7f1116b, 0x545db90b, 0x7909d56e, 0x72ba866a, 0xb3fb9b3c, 0x772dad8b, 0xeb392c02)
  {
    hide Rounds, ROUND_CONSTANTS, IsSchedule;
    Constants4();
    Word(w, 48, 0x87f013ce, 0xf2e12eb6, 0x6bc9d731, 0x302eccc4, 0x49325e36);
    Step(s, w, 48, 0x67be715f, 0x510a1a84, 0xb37dba9a, 0x8039d657, 0xeffbe2ea, 0xd6f3dcb6, 0x41e865b7, 0x95610544,
         0x19a4c116, 0x49325e36, 0xe84f669f, 0x4a79261e);
    Word(w, 49, 0x0db7fc18, 0x1af53bd2, 0x34b280c5, 0x6bc9d731, 0xb519f5ca);
    Step(s, w, 49, 0xe84f669f, 0x67be715f, 0x510a1a84, 0xb37dba9a, 0x4a79261e, 0xeffbe2ea, 0xd6f3dcb6, 0x41e865b7,
         0x1e376c08, 0xb519f5ca, 0xcf2ebde8, 0x2e272166);
    Word(w, 50, 0x49325e36, 0x696f27ba, 0xfc8b72e7, 0x34b280c5, 0x0fc2d142);
    Step(s, w, 50, 0xcf2ebde8, 0xe84f669f, 0x67be715f, 0x510a1a84, 0x2e272166, 0x4a79261e, 0xeffbe2ea, 0xd6f3dcb6,
         0x2748774c, 0x0fc2d142, 0xd78fde5a, 0xd2f10dcc);
    Word(w, 51, 0xb519f5ca, 0x6c156da4, 0x382ddd40, 0xfc8b72e7, 0x1d3818f6);
    Step(s, w, 51, 0xd78fde5a, 0xcf2ebde8, 0xe84f669f, 0x67be715f, 0xd2f10dcc, 0x2e272166, 0x4a79261e, 0xeffbe2ea,
         0x34b0bcb5, 0x1d3818f6, 0x85c177fa, 0xa623c9c9);
    Word(w, 52, 0x0fc2d142, 0xb0194981, 0x34222392, 0x382ddd40, 0xc4da6aab);
    Step(s, w, 52, 0x85c177fa, 0xd78fde5a, 0xcf2ebde8, 0xe84f669f, 0xa623c9c9, 0xd2f10dcc, 0x2e272166, 0x4a79261e,
         0x391c0cb3, 0xc4da6aab, 0xc3e910d3, 0xc92cdd96);
    Word(w, 53, 0x1d3818f6, 0x87f013ce, 0xca401f98, 0x34222392, 0xfaaf6bf9);
    Step(s, w, 53, 0xc3e910d3, 0x85c177fa, 0xd78fde5a, 0xcf2ebde8, 0xc92cdd96, 0xa623c9c9, 0xd2f10dcc, 0x2e272166,
         0x4ed8aa4a, 0xfaaf6bf9, 0x2424ca47, 0x59631ce2);
    Word(w, 54, 0xc4da6aab, 0x0db7fc18, 0x501d2743, 0xca401f98, 0x159d12bd);
    Step(s, w, 54, 0x2424ca47, 0xc3e910d3, 0x85c177fa, 0xd78fde5a, 0x59631ce2, 0xc92cdd96, 0xa623c9c9, 0xd2f10dcc,
         0x5b9cca4f, 0x159d12bd, 0x65e6fb99, 0xaf7c77f9);
    Word(w, 55, 0xfaaf6bf9, 0x49325e36, 0x7999675c, 0x501d2743, 0xe023ef94);
    Step(s, w, 55, 0x65e6fb99, 0x2424ca47, 0xc3e910d3, 0x85c177fa, 0xaf7c77f9, 0x59631ce2, 0xc92cdd96, 0xa623c9c9,
         0x682e6ff3, 0xe023ef94, 0x63cc77d5, 0x654c20b6);
    Word(w, 56, 0x159d12bd, 0xb519f5ca, 0xf2e12eb6, 0x7999675c, 0x91d40792);
    Step(s, w, 56, 0x63cc77d5, 0x65e6fb99, 0x2424ca47, 0xc3e910d3, 0x654c20b6, 0xaf7c77f9, 0x59631ce2, 0xc92cdd96,
         0x748f82ee, 0x91d40792, 0xb3b5b928, 0x3a32780d);
    Word(w, 57, 0xe023ef94, 0x0fc2d142, 0x1af53bd2, 0xf2e12eb6, 0x7644b096);
    Step(s, w, 57, 0xb3b5b928, 0x63cc77d5, 0x65e6fb99, 0x2424ca47, 0x3a32780d, 0x654c20b6, 0xaf7c77f9, 0x59631ce2,
         0x78a5636f, 0x7644b096, 0xb13e2ecf, 0x3e31ac54);
    Word(w, 58, 0x91d40792, 0x1d3818f6, 0x696f27ba, 0x1af53bd2, 0x6b5e657c);
    Step(s, w, 58, 0xb13e2ecf, 0xb3b5b928, 0x63cc77d5, 0x65e6fb99, 0x3e31ac54, 0x3a32780d, 0x654c20b6, 0xaf7c77f9,
         0x84c87814, 0x6b5e657c, 0xf40e251d, 0x43afa463);
    Word(w, 59, 0x7644b096, 0xc4da6aab, 0x6c156da4, 0x696f27ba, 0x1ac19395);
    Step(s, w, 59, 0xf40e251d, 0xb13e2ecf, 0xb3b5b928, 0x63cc77d5, 0x43afa463, 0x3e31ac54, 0x3a32780d, 0x654c20b6,
         0x8cc70208, 0x1ac19395, 0x3c723956, 0x81882538);
    Word(w, 60, 0x6b5e657c, 0xfaaf6bf9, 0xb0194981, 0x6c156da4, 0xabd3c09f);
    Step(s, w, 60, 0x3c723956, 0xf40e251d, 0xb13e2ecf, 0xb3b5b928, 0x81882538, 0x43afa463, 0x3e31ac54, 0x3a32780d,
         0x90befffa, 0xabd3c09f, 0x7909d56e, 0xeb392c02);
    Word(w, 61, 0x1ac19395, 0x159d12bd, 0x87f013ce, 0xb0194981, 0x4a773e3c);
    Step(s, w, 61, 0x7909d56e, 0x3c723956, 0xf40e251d, 0xb13e2ecf, 0xeb392c02, 0x81882538, 0x43afa463, 0x3e31ac54,
         0xa4506ceb, 0x4a773e3c, 0x545db90b, 0x772dad8b);
    Word(w, 62, 0xabd3c09f, 0xe023ef94, 0x0db7fc18, 0x87f013ce, 0xcf366adb);
    Step(s, w, 62, 0x545db90b, 0x7909d56e, 0x3c723956, 0xf40e251d, 0x772dad8b, 0xeb392c02, 0x81882538, 0x43afa463,
         0xbef9a3f7, 0xcf366adb, 0xa7f1116b, 0xb3fb9b3c);
    Word(w, 63, 0x4a773e3c, 0x91d40792, 0x49325e36, 0x0db7fc18, 0x0a90f29a);
    Step(s, w, 63, 0xa7f1116b, 0x545db90b, 0x7909d56e, 0x3c723956, 0xb3fb9b3c, 0x772dad8b, 0xeb392c02, 0x81882538,
         0xc67178f2, 0x0a90f29a, 0x5286b3cc, 0x72ba866a);
  }

  lemma HeadBlock(m: Block)
    requires HeadWords1(m)
    ensures Compress(INITIAL, m) == AFTER_HEAD
  {
    hide Rounds, Round, Schedule, ROUND_CONSTANTS;
    var w := Schedule(m, 64);
    ScheduleIs(m);
    HeadQuarter1(INITIAL, w);
    HeadQuarter2(INITIAL, w);
    HeadQuarter3(INITIAL, w);
    HeadQuarter4(INITIAL, w);
  }

  // ---- The last 16 bytes and the padding ----

  ghost predicate TailWords1(w: seq<bv32>)
    requires |w| >= 16
  {
    && w[0] == 0x4b1e5e4a && w[1] == 0x29ab5f49 && w[2] == 0xffff001d && w[3] == 0x1dac2b7c
    && w[4] == 0x80000000 && w[5] == 0x00000000 && w[6] == 0x00000000 && w[7] == 0x00000000
    && w[8] == 0x00000000 && w[9] == 0x00000000 && w[10] == 0x00000000 && w[11] == 0x00000000
    && w[12] == 0x00000000 && w[13] == 0x00000000 && w[14] == 0x00000000 && w[15] == 0x00000280
  }

  ghost predicate TailWords2(w: seq<bv32>)
    requires |w| >= 32
  {
    && w[16] == 0x8bd2d587 && w[17] == 0x0ec2c145 && w[18] == 0x21a29a95 && w[19] == 0x6735e185
    && w[20] == 0x9e105c43 && w[21] == 0x4cebd204 && w[22] == 0x258e3b5d && w[23] == 0x1f246aa3
    && w[24] == 0xe98f173d && w[25] == 0xd9a4c001 && w[26] == 0xd0790bb8 && w[27] == 0x96471b19
    && w[28] == 0xf18b3e75 && w[29] == 0x9458a38a && w[30] == 0x188c8f33 && w[31] == 0xda2c463b
  }

  ghost predicate TailWords3(w: seq<bv32>)
    requires |w| >= 48
  {
    && w[32] == 0x77860016 && w[33] == 0x13fa484e && w[34] == 0xf647589f && w[35] == 0x49da21be
    && w[36] == 0x6f5052e8 && w[37] == 0xeaa08f13 && w[38] == 0x825f7236 && w[39] == 0x9029118a
    && w[40] == 0x7d8e0e2c && w[41] == 0xa3fe1073 && w[42] == 0xc842092f && w[43] == 0x0a05d5d5
    && w[44] == 0x50ecdb53 && w[45] == 0xadf709d2 && w[46] == 0x1d0cc0da && w[47] == 0x5fcd24d1
  }

  ghost predicate TailWords4(w: seq<bv32>)
    requires |w| >= 64
  {
    && w[48] == 0x20405807 && w[49] == 0x0a256106 && w[50] == 0x251ff4b4 && w[51] == 0x80f6fb4b
    && w[52] == 0x3b52d8df && w[53] == 0x4c5ccdfd && w[54] == 0x5cef1994 && w[55] == 0x847d44e1
    && w[56] == 0x6ec7e42f && w[57] == 0x98bf2a2e && w[58] == 0x35e4e34c && w[59] == 0x5035f61d
    && w[60] == 0xfd9e331a && w[61] == 0xd86c39a0 && w[62] == 0x61cdb5cb && w[63] == 0x86b0b8d5
  }

  lemma TailQuarter1(s: State, w: seq<bv32>)
    requires |w| == 64 && IsSchedule(w) && TailWords1(w)
    requires s == AFTER_HEAD
    ensures Rounds(s, w, 16)
      == Vars(0x8d628d5f, 0xb85b77bb, 0x346fa1f2, 0x09a2accd, 0xcaf190f9, 0x9ebad54f, 0x85b1c84a, 0x72f4312b)
  {
    hide Rounds, ROUND_CONSTANTS, IsSchedule;
    Constants1();
    RoundsStart(s, w);
    Step(s, w, 0, 0xbc909a33, 0x6358bff0, 0x90ccac7d, 0x1e59caa8, 0xc3c8d8e9, 0x4f0103c8, 0x96b18736, 0x4719f91b,
         0x428a2f98, 0x4b1e5e4a, 0xb7f888df, 0xa8a8881c);
    Step(s, w, 1, 0xb7f888df, 0xbc909a33, 0x6358bff0, 0x90ccac7d, 0xa8a8881c, 0xc3c8d8e9, 0x4f0103c8, 0x96b18736,
         0x71374491, 0x29ab5f49, 0x1f8aee5c, 0xaf5e1cba);
    Step(s, w, 2, 0x1f8aee5c, 0xb7f888df, 0xbc909a33, 0x6358bff0, 0xaf5e1cba, 0xa8a8881c, 0xc3c8d8e9, 0x4f0103c8,
         0xb5c0fbcf, 0xffff001d, 0xde845910, 0x238956e3);
    Step(s, w, 3, 0xde845910, 0x1f8aee5c, 0xb7f888df, 0xbc909a33, 0x238956e3, 0xaf5e1cba, 0xa8a8881c, 0xc3c8d8e9,
         0xe9b5dba5, 0x1dac2b7c, 0x98610c20, 0xc7253cdb);
    Step(s, w, 4, 0x98610c20, 0xde845910, 0x1f8aee5c, 0xb7f888df, 0xc7253cdb, 0x238956e3, 0xaf5e1cba, 0xa8a8881c,
         0x3956c25b, 0x80000000, 0x5600cb82, 0xac4d05f0);
    Step(s, w, 5, 0x5600cb82, 0x98610c20, 0xde845910, 0x1f8aee5c, 0xac4d05f0, 0xc7253cdb, 0x238956e3, 0xaf5e1cba,
         0x59f111f1, 0x00000000, 0x93b7a01d, 0x0a85b9bb);
    Step(s, w, 6, 0x93b7a01d, 0x5600cb82, 0x98610c20, 0xde845910, 0x0a85b9bb, 0xac4d05f0, 0xc7253cdb, 0x238956e3,
         0x923f82a4, 0x00000000, 0x6928073f, 0xfb09d45b);
    Step(s, w, 7, 0x6928073f, 0x93b7a01d, 0x5600cb82, 0x98610c20, 0xfb09d45b, 0x0a85b9bb, 0xac4d05f0, 0xc7253cdb,
         0xab1c5ed5, 0x00000000, 0x77ced14b, 0x7961a521);
    Step(s, w, 8, 0x77ced14b, 0x6928073f, 0x93b7a01d, 0x5600cb82, 0x7961a521, 0xfb09d45b, 0x0a85b9bb, 0xac4d05f0,
         0xd807aa98, 0x00000000, 0x718e3059, 0xe6f352c1);
    Step(s, w, 9, 0x718e3059, 0x77ced14b, 0x6928073f, 0x93b7a01d, 0xe6f352c1, 0x7961a521, 0xfb09d45b, 0x0a85b9bb,
         0x12835b01, 0x00000000, 0x147883a5, 0x5038acc6);
    Step(s, w, 10, 0x147883a5, 0x718e3059, 0x77ced14b, 0x6928073f, 0x5038acc6, 0xe6f352c1, 0x7961a521, 0xfb09d45b,
         0x243185be, 0x00000000, 0x568f8b4d, 0x8fb0e9c7);
    Step(s, w, 11, 0x568f8b4d, 0x147883a5, 0x718e3059, 0x77ced14b, 0x8fb0e9c7, 0x5038acc6, 0xe6f352c1, 0x7961a521,
         0x550c7dc3, 0x00000000, 0xb4109b69, 0xa56c8572);
    Step(s, w, 12, 0xb4109b69, 0x568f8b4d, 0x147883a5, 0x718e3059, 0xa56c8572, 0x8fb0e9c7, 0x5038acc6, 0xe6f352c1,
         0x72be5d74, 0x00000000, 0x09a2accd, 0x72f4312b);
    Step(s, w, 13, 0x09a2accd, 0xb4109b69, 0x568f8b4d, 0x147883a5, 0x72f4312b, 0xa56c8572, 0x8fb0e9c7, 0x5038acc6,
         0x80deb1fe, 0x00000000, 0x346fa1f2, 0x85b1c84a);
    Step(s, w, 14, 0x346fa1f2, 0x09a2accd, 0xb4109b69, 0x568f8b4d, 0x85b1c84a, 0x72f4312b, 0xa56c8572, 0x8fb0e9c7,
         0x9bdc06a7, 0x00000000, 0xb85b77bb, 0x9ebad54f);
    Step(s, w, 15, 0xb85b77bb, 0x346fa1f2, 0x09a2accd, 0xb4109b69, 0x9ebad54f, 0x85b1c84a, 0x72f4312b, 0xa56c8572,
         0xc19bf174, 0x00000280, 0x8d628d5f, 0xcaf190f9);
  }

  lemma TailQuarter2(s: State, w: seq<bv32>)
    requires |w| == 64 && IsSchedule(w) && TailWords1(w)
    requires Rounds(s, w, 16)
      == Vars(0x8d628d5f, 0xb85b77bb, 0x346fa1f2, 0x09a2accd, 0xcaf190f9, 0x9ebad54f, 0x85b1c84a, 0x72f4312b)
    ensures TailWords2(w) && Rounds(s, w, 32)
      == Vars(0x647e6aea, 0x60bb3b5c, 0x3ca721e0, 0x107d66b6, 0xb39bf62a, 0x3d51e8ab, 0xa784683f, 0x311067ea)
  {
    hide Rounds, ROUND_CONSTANTS, IsSchedule;
    Constants2();
    Word(w, 16, 0x00000000, 0x00000000, 0x29ab5f49, 0x4b1e5e4a, 0x8bd2d587);
    Step(s, w, 16, 0x8d628d5f, 0xb85b77bb, 0x346fa1f2, 0x09a2accd, 0xcaf190f9, 0x9ebad54f, 0x85b1c84a, 0x72f4312b,
         0xe49b69c1, 0x8bd2d587, 0xb3eb89c3, 0xfd90da1f);
    Word(w, 17, 0x00000280, 0x00000000, 0xffff001d, 0x29ab5f49, 0x0ec2c145);
    Step(s, w, 17, 0xb3eb89c3, 0x8d628d5f, 0xb85b77bb, 0x346fa1f2, 0xfd90da1f, 0xcaf190f9, 0x9ebad54f, 0x85b1c84a,
         0xefbe4786, 0x0ec2c145, 0x097e66b9, 0x77c206ed);
    Word(w, 18, 0x8bd2d587, 0x00000000, 0x1dac2b7c, 0xffff001d, 0x21a29a95);
    Step(s, w, 18, 0x097e66b9, 0xb3eb89c3, 0x8d628d5f, 0xb85b77bb, 0x77c206ed, 0xfd90da1f, 0xcaf190f9, 0x9ebad54f,
         0x0fc19dc6, 0x21a29a95, 0x6ebaeafa, 0x0f9e9e62);
    Word(w, 19, 0x0ec2c145, 0x00000000, 0x80000000, 0x1dac2b7c, 0x6735e185);
    Step(s, w, 19, 0x6ebaeafa, 0x097e66b9, 0xb3eb89c3, 0x8d628d5f, 0x0f9e9e62, 0x77c206ed, 0xfd90da1f, 0xcaf190f9,
         0x240ca1cc, 0x6735e185, 0x2cb82542, 0x6649a0d3);
    Word(w, 20, 0x21a29a95, 0x00000000, 0x00000000, 0x80000000, 0x9e105c43);
    Step(s, w, 20, 0x2cb82542, 0x6ebaeafa, 0x097e66b9, 0xb3eb89c3, 0x6649a0d3, 0x0f9e9e62, 0x77c206ed, 0xfd90da1f,
         0x2de92c6f, 0x9e105c43, 0xc29f3a60, 0x0825f906);
    Word(w, 21, 0x6735e185, 0x00000000, 0x00000000, 0x00000000, 0x4cebd204);
    Step(s, w, 21, 0xc29f3a60, 0x2cb82542, 0x6ebaeafa, 0x097e66b9, 0x0825f906, 0x6649a0d3, 0x0f9e9e62, 0x77c206ed,
         0x4a7484aa, 0x4cebd204, 0x4edd9829, 0x4a597b15);
    Word(w, 22, 0x9e105c43, 0x00000280, 0x00000000, 0x00000000, 0x258e3b5d);
    Step(s, w, 22, 0x4edd9829, 0xc29f3a60, 0x2cb82542, 0x6ebaeafa, 0x4a597b15, 0x0825f906, 0x6649a0d3, 0x0f9e9e62,
         0x5cb0a9dc, 0x258e3b5d, 0x0c581004, 0x47d80cc1);
    Word(w, 23, 0x4cebd204, 0x8bd2d587, 0x00000000, 0x00000000, 0x1f246aa3);
    Step(s, w, 23, 0x0c581004, 0x4edd9829, 0xc29f3a60, 0x2cb82542, 0x47d80cc1, 0x4a597b15, 0x0825f906, 0x6649a0d3,
         0x76f988da, 0x1f246aa3, 0xea6b17f8, 0xe4cfae2a);
    Word(w, 24, 0x258e3b5d, 0x0ec2c145, 0x00000000, 0x00000000, 0xe98f173d);
    Step(s, w, 24, 0xea6b17f8, 0x0c581004, 0x4edd9829, 0xc29f3a60, 0xe4cfae2a, 0x47d80cc1, 0x4a597b15, 0x0825f906,
         0x983e5152, 0xe98f173d, 0x593ff620, 0xa483ab49);
    Word(w, 25, 0x1f246aa3, 0x21a29a95, 0x00000000, 0x00000000, 0xd9a4c001);
    Step(s, w, 25, 0x593ff620, 0xea6b17f8, 0x0c581004, 0x4edd9829, 0xa483ab49, 0xe4cfae2a, 0x47d80cc1, 0x4a597b15,
         0xa831c66d, 0xd9a4c001, 0x638fb548, 0x115c823e);
    Word(w, 26, 0xe98f173d, 0x6735e185, 0x00000000, 0x00000000, 0xd0790bb8);
    Step(s, w, 26, 0x638fb548, 0x593ff620, 0xea6b17f8, 0x0c581004, 0x115c823e, 0xa483ab49, 0xe4cfae2a, 0x47d80cc1,
         0xb00327c8, 0xd0790bb8, 0xb643bce2, 0xcaf644dd);
    Word(w, 27, 0xd9a4c001, 0x9e105c43, 0x00000000, 0x00000000, 0x96471b19);
    Step(s, w, 27, 0xb643bce2, 0x638fb548, 0x593ff620, 0xea6b17f8, 0xcaf644dd, 0x115c823e, 0xa483ab49, 0xe4cfae2a,
         0xbf597fc7, 0x96471b19, 0xadfd69c0, 0xe0e1f55c);
    Word(w, 28, 0xd0790bb8, 0x4cebd204, 0x00000000, 0x00000000, 0xf18b3e75);
    Step(s, w, 28, 0xadfd69c0, 0xb643bce2, 0x638fb548, 0x593ff620, 0xe0e1f55c, 0xcaf644dd, 0x115c823e, 0xa483ab49,
         0xc6e00bf3, 0xf18b3e75, 0x107d66b6, 0x311067ea);
    Word(w, 29, 0x96471b19, 0x258e3b5d, 0x00000000, 0x00000000, 0x9458a38a);
    Step(s, w, 29, 0x107d66b6, 0xadfd69c0, 0xb643bce2, 0x638fb548, 0x311067ea, 0xe0e1f55c, 0xcaf644dd, 0x115c823e,
         0xd5a79147, 0x9458a38a, 0x3ca721e0, 0xa784683f);
    Word(w, 30, 0xf18b3e75, 0x1f246aa3, 0x00000280, 0x00000000, 0x188c8f33);
    Step(s, w, 30, 0x3ca721e0, 0x107d66b6, 0xadfd69c0, 0xb643bce2, 0xa784683f, 0x311067ea, 0xe0e1f55c, 0xcaf644dd,
         0x06ca6351, 0x188c8f33, 0x60bb3b5c, 0x3d51e8ab);
    Word(w, 31, 0x9458a38a, 0xe98f173d, 0x8bd2d587, 0x00000280, 0xda2c463b);
    Step(s, w, 31, 0x60bb3b5c, 0x3ca721e0, 0x107d66b6, 0xadfd69c0, 0x3d51e8ab, 0xa784683f, 0x311067ea, 0xe0e1f55c,
         0x14292967, 0xda2c463b, 0x647e6aea, 0xb39bf62a);
  }

  lemma TailQuarter3(s: State, w: seq<bv32>)
    requires |w| == 64 && IsSchedule(w) && TailWords2(w)
    requires Rounds(s, w, 32)
      == Vars(0x647e6aea, 0x60bb3b5c, 0x3ca721e0, 0x107d66b6, 0xb39bf62a, 0x3d51e8ab, 0xa784683f, 0x311067ea)
    ensures TailWords3(w) && Rounds(s, w, 48)
      == Vars(0x63e9b560, 0x0d183c7b, 0x1547bb26, 0xc71464c2, 0x9ff84168, 0x03dca2f5, 0x94ccf523, 0x4e868ee5)
  {
    hide Rounds, ROUND_CONSTANTS, IsSchedule;
    Constants3();
    Word(w, 32, 0x188c8f33, 0xd9a4c001, 0x0ec2c145, 0x8bd2d587, 0x77860016);
    Step(s, w, 32, 0x647e6aea, 0x60bb3b5c, 0x3ca721e0, 0x107d66b6, 0xb39bf62a, 0x3d51e8ab, 0xa784683f, 0x311067ea,
         0x27b70a85, 0x77860016, 0x446ca183, 0xb843cb79);
    Word(w, 33, 0xda2c463b, 0xd0790bb8, 0x21a29a95, 0x0ec2c145, 0x13fa484e);
    Step(s, w, 33, 0x446ca183, 0x647e6aea, 0x60bb3b5c, 0x3ca721e0, 0xb843cb79, 0xb39bf62a, 0x3d51e8ab, 0xa784683f,
         0x2e1b2138, 0x13fa484e, 0x1ae6a1d5, 0x838891d7);
    Word(w, 34, 0x77860016, 0x96471b19, 0x6735e185, 0x21a29a95, 0xf647589f);
    Step(s, w, 34, 0x1ae6a1d5, 0x446ca183, 0x647e6aea, 0x60bb3b5c, 0x838891d7, 0xb843cb79, 0xb39bf62a, 0x3d51e8ab,
         0x4d2c6dfc, 0xf647589f, 0xe8951c41, 0x324b8aaf);
    Word(w, 35, 0x13fa484e, 0xf18b3e75, 0x9e105c43, 0x6735e185, 0x49da21be);
    Step(s, w, 35, 0xe8951c41, 0x1ae6a1d5, 0x446ca183, 0x647e6aea, 0x324b8aaf, 0x838891d7, 0xb843cb79, 0xb39bf62a,
         0x53380d13, 0x49da21be, 0xbce0bd6f, 0x0c1f827e);
    Word(w, 36, 0xf647589f, 0x9458a38a, 0x4cebd204, 0x9e105c43, 0x6f5052e8);
    Step(s, w, 36, 0xbce0bd6f, 0xe8951c41, 0x1ae6a1d5, 0x446ca183, 0x0c1f827e, 0x324b8aaf, 0x838891d7, 0xb843cb79,
         0x650a7354, 0x6f5052e8, 0x07f01c55, 0x0cc789e6);
    Word(w, 37, 0x49da21be, 0x188c8f33, 0x258e3b5d, 0x4cebd204, 0xeaa08f13);
    Step(s, w, 37, 0x07f01c55, 0xbce0bd6f, 0xe8951c41, 0x1ae6a1d5, 0x0cc789e6, 0x0c1f827e, 0x324b8aaf, 0x838891d7,
         0x766a0abb, 0xeaa08f13, 0xf9eeacb3, 0x04bfc5b9);
    Word(w, 38, 0x6f5052e8, 0xda2c463b, 0x1f246aa3, 0x258e3b5d, 0x825f7236);
    Step(s, w, 38, 0xf9eeacb3, 0x07f01c55, 0xbce0bd6f, 0xe8951c41, 0x04bfc5b9, 0x0cc789e6, 0x0c1f827e, 0x324b8aaf,
         0x81c2c92e, 0x825f7236, 0x2efd669a, 0x385b1aa6);
    Word(w, 39, 0xeaa08f13, 0x77860016, 0xe98f173d, 0x1f246aa3, 0x9029118a);
    Step(s, w, 39, 0x2efd669a, 0xf9eeacb3, 0x07f01c55, 0xbce0bd6f, 0x385b1aa6, 0x04bfc5b9, 0x0cc789e6, 0x0c1f827e,
         0x92722c85, 0x9029118a, 0x8ff5ea0b, 0xd1e633f1);
    Word(w, 40, 0x825f7236, 0x13fa484e, 0xd9a4c001, 0xe98f173d, 0x7d8e0e2c);
    Step(s, w, 40, 0x8ff5ea0b, 0x2efd669a, 0xf9eeacb3, 0x07f01c55, 0xd1e633f1, 0x385b1aa6, 0x04bfc5b9, 0x0cc789e6,
         0xa2bfe8a1, 0x7d8e0e2c, 0x9fdccde9, 0x93c5d091);
    Word(w, 41, 0x9029118a, 0xf647589f, 0xd0790bb8, 0xd9a4c001, 0xa3fe1073);
    Step(s, w, 41, 0x9fdccde9, 0x8ff5ea0b, 0x2efd669a, 0xf9eeacb3, 0x93c5d091, 0xd1e633f1, 0x385b1aa6, 0x04bfc5b9,
         0xa81a664b, 0xa3fe1073, 0xccd5d8cd, 0xbb3a2b12);
    Word(w, 42, 0x7d8e0e2c, 0x49da21be, 0x96471b19, 0xd0790bb8, 0xc842092f);
    Step(s, w, 42, 0xccd5d8cd, 0x9fdccde9, 0x8ff5ea0b, 0x2efd669a, 0xbb3a2b12, 0x93c5d091, 0xd1e633f1, 0x385b1aa6,
         0xc24b8b70, 0xc842092f, 0xbe68b761, 0x7b582d84);
    Word(w, 43, 0xa3fe1073, 0x6f5052e8, 0xf18b3e75, 0x96471b19, 0x0a05d5d5);
    Step(s, w, 43, 0xbe68b761, 0xccd5d8cd, 0x9fdccde9, 0x8ff5ea0b, 0x7b582d84, 0xbb3a2b12, 0x93c5d091, 0xd1e633f1,
         0xc76c51a3, 0x0a05d5d5, 0x81925455, 0xfc610813);
    Word(w, 44, 0xc842092f, 0xeaa08f13, 0x9458a38a, 0xf18b3e75, 0x50ecdb53);
    Step(s, w, 44, 0x81925455, 0xbe68b761, 0xccd5d8cd, 0x9fdccde9, 0xfc610813, 0x7b582d84, 0xbb3a2b12, 0x93c5d091,
         0xd192e819, 0x50ecdb53, 0xc71464c2, 0x4e868ee5);
    Word(w, 45, 0x0a05d5d5, 0x825f7236, 0x188c8f33, 0x9458a38a, 0xadf709d2);
    Step(s, w, 45, 0xc71464c2, 0x81925455, 0xbe68b761, 0xccd5d8cd, 0x4e868ee5, 0xfc610813, 0x7b582d84, 0xbb3a2b12,
         0xd6990624, 0xadf709d2, 0x1547bb26, 0x94ccf523);
    Word(w, 46, 0x50ecdb53, 0x9029118a, 0xda2c463b, 0x188c8f33, 0x1d0cc0da);
    Step(s, w, 46, 0x1547bb26, 0xc71464c2, 0x81925455, 0xbe68b761, 0x94ccf523, 0x4e868ee5, 0xfc610813, 0x7b582d84,
         0xf40e3585, 0x1d0cc0da, 0x0d183c7b, 0x03dca2f5);
    Word(w, 47, 0xadf709d2, 0x7d8e0e2c, 0x77860016, 0xda2c463b, 0x5fcd24d1);
    Step(s, w, 47, 0x0d183c7b, 0x1547bb26, 0xc71464c2, 0x81925455, 0x03dca2f5, 0x94ccf523, 0x4e868ee5, 0xfc610813,
         0x106aa070, 0x5fcd24d1, 0x63e9b560, 0x9ff84168);
  }

  lemma TailQuarter4(s: State, w: seq<bv32>)
    requires |w| == 64 && IsSchedule(w) && TailWords3(w)
    requires Rounds(s, w, 48)
      == Vars(0x63e9b560, 0x0d183c7b, 0x1547bb26, 0xc71464c2, 0x9ff84168, 0x03dca2f5, 0x94ccf523, 0x4e868ee5)
    ensures TailWords4(w) && Rounds(s, w, 64)
      == Vars(0xf2b168eb, 0x1d0734a3, 0x0fa69565, 0xd8f62ad9, 0x860951d0, 0x6b18f24b, 0xad314136, 0x2aabdd52)
  {
    hide Rounds, ROUND_CONSTANTS, IsSchedule;
    Constants4();
    Word(w, 48, 0x1d0cc0da, 0xa3fe1073, 0x13fa484e, 0x77860016, 0x20405807);
    Step(s, w, 48, 0x63e9b560, 0x0d183c7b, 0x1547bb26, 0xc71464c2, 0x9ff84168, 0x03dca2f5, 0x94ccf523, 0x4e868ee5,
         0x19a4c116, 0x20405807, 0x1a0bb7a3, 0xc6a96b69);
    Word(w, 49, 0x5fcd24d1, 0xc842092f, 0xf647589f, 0x13fa484e, 0x0a256106);
    Step(s, w, 49, 0x1a0bb7a3, 0x63e9b560, 0x0d183c7b, 0x1547bb26, 0xc6a96b69, 0x9ff84168, 0x03dca2f5, 0x94ccf523,
         0x1e376c08, 0x0a256106, 0x440cafd0, 0xf90603b6);
    Word(w, 50, 0x20405807, 0x0a05d5d5, 0x49da21be, 0xf647589f, 0x251ff4b4);
    Step(s, w, 50, 0x440cafd0, 0x1a0bb7a3, 0x63e9b560, 0x0d183c7b, 0xf90603b6, 0xc6a96b69, 0x9ff84168, 0x03dca2f5,
         0x2748774c, 0x251ff4b4, 0xe4c03870, 0x5290728a);
    Word(w, 51, 0x0a256106, 0x50ecdb53, 0x6f5052e8, 0x49da21be, 0x80f6fb4b);
    Step(s, w, 51, 0xe4c03870, 0x440cafd0, 0x1a0bb7a3, 0x63e9b560, 0x5290728a, 0xf90603b6, 0xc6a96b69, 0x9ff84168,
         0x34b0bcb5, 0x80f6fb4b, 0x986207b6, 0xbdec1198);
    Word(w, 52, 0x251ff4b4, 0xadf709d2, 0xeaa08f13, 0x6f5052e8, 0x3b52d8df);
    Step(s, w, 52, 0x986207b6, 0xe4c03870, 0x440cafd0, 0x1a0bb7a3, 0xbdec1198, 0x5290728a, 0xf90603b6, 0xc6a96b69,
         0x391c0cb3, 0x3b52d8df, 0x0b75edcf, 0x4d8edce6);
    Word(w, 53, 0x80f6fb4b, 0x1d0cc0da, 0x825f7236, 0xeaa08f13, 0x4c5ccdfd);
    Step(s, w, 53, 0x0b75edcf, 0x986207b6, 0xe4c03870, 0x440cafd0, 0x4d8edce6, 0xbdec1198, 0x5290728a, 0xf90603b6,
         0x4ed8aa4a, 0x4c5ccdfd, 0x79dbf2fa, 0xba7657e3);
    Word(w, 54, 0x3b52d8df, 0x5fcd24d1, 0x9029118a, 0x825f7236, 0x5cef1994);
    Step(s, w, 54, 0x79dbf2fa, 0x0b75edcf, 0x986207b6, 0xe4c03870, 0xba7657e3, 0x4d8edce6, 0xbdec1198, 0x5290728a,
         0x5b9cca4f, 0x5cef1994, 0xe242d533, 0x47204a1f);
    Word(w, 55, 0x4c5ccdfd, 0x20405807, 0x7d8e0e2c, 0x9029118a, 0x847d44e1);
    Step(s, w, 55, 0xe242d533, 0x79dbf2fa, 0x0b75edcf, 0x986207b6, 0x47204a1f, 0xba7657e3, 0x4d8edce6, 0xbdec1198,
         0x682e6ff3, 0x847d44e1, 0x29c7669f, 0xfc7a0f87);
    Word(w, 56, 0x5cef1994, 0x0a256106, 0xa3fe1073, 0x7d8e0e2c, 0x6ec7e42f);
    Step(s, w, 56, 0x29c7669f, 0xe242d533, 0x79dbf2fa, 0x0b75edcf, 0xfc7a0f87, 0x47204a1f, 0xba7657e3, 0x4d8edce6,
         0x748f82ee, 0x6ec7e42f, 0x95eb24e1, 0x548a30ba);
    Word(w, 57, 0x847d44e1, 0x251ff4b4, 0xc842092f, 0xa3fe1073, 0x98bf2a2e);
    Step(s, w, 57, 0x95eb24e1, 0x29c7669f, 0xe242d533, 0x79dbf2fa, 0x548a30ba, 0xfc7a0f87, 0x47204a1f, 0xba7657e3,
         0x78a5636f, 0x98bf2a2e, 0x6eaf599e, 0x57e207af);
    Word(w, 58, 0x6ec7e42f, 0x80f6fb4b, 0x0a05d5d5, 0xc842092f, 0x35e4e34c);
    Step(s, w, 58, 0x6eaf599e, 0x95eb24e1, 0x29c7669f, 0xe242d533, 0x57e207af, 0x548a30ba, 0xfc7a0f87, 0x47204a1f,
         0x84c87814, 0x35e4e34c, 0xd04c9164, 0x9a612751);
    Word(w, 59, 0x98bf2a2e, 0x3b52d8df, 0x50ecdb53, 0x0a05d5d5, 0x5035f61d);
    Step(s, w, 59, 0xd04c9164, 0x6eaf599e, 0x95eb24e1, 0x29c7669f, 0x9a612751, 0x57e207af, 0x548a30ba, 0xfc7a0f87,
         0x8cc70208, 0x5035f61d, 0x2f89c72b, 0xf6f1e66a);
    Word(w, 60, 0x35e4e34c, 0x4c5ccdfd, 0xadf709d2, 0x50ecdb53, 0xfd9e331a);
    Step(s, w, 60, 0x2f89c72b, 0xd04c9164, 0x6eaf599e, 0x95eb24e1, 0xf6f1e66a, 0x9a612751, 0x57e207af, 0x548a30ba,
         0x90befffa, 0xfd9e331a, 0xd8f62ad9, 0x2aabdd52);
    Word(w, 61, 0x5035f61d, 0x5cef1994, 0x1d0cc0da, 0xadf709d2, 0xd86c39a0);
    Step(s, w, 61, 0xd8f62ad9, 0x2f89c72b, 0xd04c9164, 0x6eaf599e, 0x2aabdd52, 0xf6f1e66a, 0x9a612751, 0x57e207af,
         0xa4506ceb, 0xd86c39a0, 0x0fa69565, 0xad314136);
    Word(w, 62, 0xfd9e331a, 0x847d44e1, 0x5fcd24d1, 0x1d0cc0da, 0x61cdb5cb);
    Step(s, w, 62, 0x0fa69565, 0xd8f62ad9, 0x2f89c72b, 0xd04c9164, 0xad314136, 0x2aabdd52, 0xf6f1e66a, 0x9a612751,
         0xbef9a3f7, 0x61cdb5cb, 0x1d0734a3, 0x6b18f24b);
    Word(w, 63, 0xd86c39a0, 0x6ec7e42f, 0x20405807, 0x5fcd24d1, 0x86b0b8d5);
    Step(s, w, 63, 0x1d0734a3, 0x0fa69565, 0xd8f62ad9, 0x2f89c72b, 0x6b18f24b, 0xad314136, 0x2aabdd52, 0xf6f1e66a,
         0xc67178f2, 0x86b0b8d5, 0xf2b168eb, 0x860951d0);
  }

  lemma TailBlock(m: Block)
    requires TailWords1(m)
    ensures Compress(AFTER_HEAD, m) == INNER
  {
    hide Rounds, Round, Schedule, ROUND_CONSTANTS;
    var w := Schedule(m, 64);
    ScheduleIs(m);
    TailQuarter1(AFTER_HEAD, w);
    TailQuarter2(AFTER_HEAD, w);
    TailQuarter3(AFTER_HEAD, w);
    TailQuarter4(AFTER_HEAD, w);
  }

  // ---- The hash of the hash ----

  ghost predicate OuterWords1(w: seq<bv32>)
    requires |w| >= 16
  {
    && w[0] == 0xaf42031e && w[1] == 0x805ff493 && w[2] == 0xa07341e2 && w[3] == 0xf74ff581
    && w[4] == 0x49d22ab9 && w[5] == 0xba19f613 && w[6] == 0x43e2c86c && w[7] == 0x71c5d66d
    && w[8] == 0x80000000 && w[9] == 0x00000000 && w[10] == 0x00000000 && w[11] == 0x00000000
    && w[12] == 0x00000000 && w[13] == 0x00000000 && w[14] == 0x00000000 && w[15] == 0x00000100
  }

  ghost predicate OuterWords2(w: seq<bv32>)
    requires |w| >= 32
  {
    && w[16] == 0x7971a48a && w[17] == 0x82361b36 && w[18] == 0x67a48e69 && w[19] == 0xb734c5d2
    && w[20] == 0x6e668466 && w[21] == 0x177942c5 && w[22] == 0x77c799da && w[23] == 0x857791fa
    && w[24] == 0x4201a033 && w[25] == 0xa287de5a && w[26] == 0x9b440efa && w[27] == 0x8335294a
    && w[28] == 0x9dfe128e && w[29] == 0xa9747690 && w[30] == 0x50e974e0 && w[31] == 0x6ab00740
  }

  ghost predicate OuterWords3(w: seq<bv32>)
    requires |w| >= 48
  {
    && w[32] == 0xac80aaf5 && w[33] == 0x1e6e3f77 && w[34] == 0xade558a9 && w[35] == 0x8d8f55f2
    && w[36] == 0xf7b63411 && w[37] == 0x05290e41 && w[38] == 0xc10985fb && w[39] == 0xdfab0d27
    && w[40] == 0xa9661744 && w[41] == 0x1d4ee4f9 && w[42] == 0xc1666cbc && w[43] == 0xb3f7f51d
    && w[44] == 0xc8f90e35 && w[45] == 0x06047752 && w[46] == 0x63d65f71 && w[47] == 0x9dcd608e
  }

  ghost predicate OuterWords4(w: seq<bv32>)
    requires |w| >= 64
  {
    && w[48] == 0x104ad3ff && w[49] == 0x0d13a517 && w[50] == 0xb7381dd4 && w[51] == 0xacd05ef0
    && w[52] == 0xcc76e17d && w[53] == 0x1c6ab98d && w[54] == 0xa27ce8ea && w[55] == 0x15953cdb
    && w[56] == 0xe8675cab && w[57] == 0x08fbc11b && w[58] == 0x848fda48 && w[59] == 0x4a1f5410
    && w[60] == 0xb4c84067 && w[61] == 0x627b4b7a && w[62] == 0xf81f4cdc && w[63] == 0x9bd5aca3
  }

  lemma OuterQuarter1(s: State, w: seq<bv32>)
    requires |w| == 64 && IsSchedule(w) && OuterWords1(w)
    requires s == INITIAL
    ensures Rounds(s, w, 16)
      == Vars(0xa406a042, 0xf3547aab, 0xae5aed1e, 0xb0773648, 0x74eb6ac0, 0x4075280f, 0xa11f0e28, 0x5e58eb56)
  {
    hide Rounds, ROUND_CONSTANTS, IsSchedule;
    Constants1();
    RoundsStart(s, w);
    Step(s, w, 0, 0x6a09e667, 0xbb67ae85, 0x3c6ef372, 0xa54ff53a, 0x510e527f, 0x9b05688c, 0x1f83d9ab, 0x5be0cd19,
         0x428a2f98, 0xaf42031e, 0xab4a8b6b, 0x4809e5c0);
    Step(s, w, 1, 0xab4a8b6b, 0x6a09e667, 0xbb67ae85, 0x3c6ef372, 0x4809e5c0, 0x510e527f, 0x9b05688c, 0x1f83d9ab,
         0x71374491, 0x805ff493, 0xe8f12634, 0xde72151c);
    Step(s, w, 2, 0xe8f12634, 0xab4a8b6b, 0x6a09e667, 0xbb67ae85, 0xde72151c, 0x4809e5c0, 0x510e527f, 0x9b05688c,
         0xb5c0fbcf, 0xa07341e2, 0xdd7bfa27, 0xdf96249e);
    Step(s, w, 3, 0xdd7bfa27, 0xe8f12634, 0xab4a8b6b, 0x6a09e667, 0xdf96249e, 0xde72151c, 0x4809e5c0, 0x510e527f,
         0xe9b5dba5, 0xf74ff581, 0xe6ec0284, 0x9df1b4a1);
    Step(s, w, 4, 0xe6ec0284, 0xdd7bfa27, 0xe8f12634, 0xab4a8b6b, 0x9df1b4a1, 0xdf96249e, 0xde72151c, 0x4809e5c0,
         0x3956c25b, 0x49d22ab9, 0x1ff26718, 0x40adac05);
    Step(s, w, 5, 0x1ff26718, 0xe6ec0284, 0xdd7bfa27, 0xe8f12634, 0x40adac05, 0x9df1b4a1, 0xdf96249e, 0xde72151c,
         0x59f111f1, 0xba19f613, 0x2c47cb8e, 0x3e9e8994);
    Step(s, w, 6, 0x2c47cb8e, 0x1ff26718, 0xe6ec0284, 0xdd7bfa27, 0x3e9e8994, 0x40adac05, 0x9df1b4a1, 0xdf96249e,
         0x923f82a4, 0x43e2c86c, 0x5c147bb3, 0x425b89e2);
    Step(s, w, 7, 0x5c147bb3, 0x2c47cb8e, 0x1ff26718, 0xe6ec0284, 0x425b89e2, 0x3e9e8994, 0x40adac05, 0x9df1b4a1,
         0xab1c5ed5, 0x71c5d66d, 0xcde00ab8, 0x3d046e63);
    Step(s, w, 8, 0xcde00ab8, 0x5c147bb3, 0x2c47cb8e, 0x1ff26718, 0x3d046e63, 0x425b89e2, 0x3e9e8994, 0x40adac05,
         0xd807aa98, 0x80000000, 0x90cd3b90, 0x7de6c855);
    Step(s, w, 9, 0x90cd3b90, 0xcde00ab8, 0x5c147bb3, 0x2c47cb8e, 0x7de6c855, 0x3d046e63, 0x425b89e2, 0x3e9e8994,
         0x12835b01, 0x00000000, 0xe599023c, 0x68c3074c);
    Step(s, w, 10, 0xe599023c, 0x90cd3b90, 0xcde00ab8, 0x5c147bb3, 0x68c3074c, 0x7de6c855, 0x3d046e63, 0x425b89e2,
         0x243185be, 0x00000000, 0xb053d4d9, 0xfa15a603);
    Step(s, w, 11, 0xb053d4d9, 0xe599023c, 0x90cd3b90, 0xcde00ab8, 0xfa15a603, 0x68c3074c, 0x7de6c855, 0x3d046e63,
         0x550c7dc3, 0x00000000, 0xfb9b744c, 0x93185b03);
    Step(s, w, 12, 0xfb9b744c, 0xb053d4d9, 0xe599023c, 0x90cd3b90, 0x93185b03, 0xfa15a603, 0x68c3074c, 0x7de6c855,
         0x72be5d74, 0x00000000, 0xb0773648, 0x5e58eb56);
    Step(s, w, 13, 0xb0773648, 0xfb9b744c, 0xb053d4d9, 0xe599023c, 0x5e58eb56, 0x93185b03, 0xfa15a603, 0x68c3074c,
         0x80deb1fe, 0x00000000, 0xae5aed1e, 0xa11f0e28);
    Step(s, w, 14, 0xae5aed1e, 0xb0773648, 0xfb9b744c, 0xb053d4d9, 0xa11f0e28, 0x5e58eb56, 0x93185b03, 0xfa15a603,
         0x9bdc06a7, 0x00000000, 0xf3547aab, 0x4075280f);
    Step(s, w, 15, 0xf3547aab, 0xae5aed1e, 0xb0773648, 0xfb9b744c, 0x4075280f, 0xa11f0e28, 0x5e58eb56, 0x93185b03,
         0xc19bf174, 0x00000100, 0xa406a042, 0x74eb6ac0);
  }

  lemma OuterQuarter2(s: State, w: seq<bv32>)
    requires |w| == 64 && IsSchedule(w) && OuterWords1(w)
    requires Rounds(s, w, 16)
      == Vars(0xa406a042, 0xf3547aab, 0xae5aed1e, 0xb0773648, 0x74eb6ac0, 0x4075280f, 0xa11f0e28, 0x5e58eb56)
    ensures OuterWords2(w) && Rounds(s, w, 32)
      == Vars(0x15c8de99, 0xab58f29d, 0xe82f242b, 0xdbec618c, 0xa13920b8, 0x186a1f9e, 0x905a3791, 0x3d7071bb)
  {
    hide Rounds, ROUND_CONSTANTS, IsSchedule;
    Constants2();
    Word(w, 16, 0x00000000, 0x00000000, 0x805ff493, 0xaf42031e, 0x7971a48a);
    Step(s, w, 16, 0xa406a042, 0xf3547aab, 0xae5aed1e, 0xb0773648, 0x74eb6ac0, 0x4075280f, 0xa11f0e28, 0x5e58eb56,
         0xe49b69c1, 0x7971a48a, 0x022fe184, 0x5abaad0d);
    Word(w, 17, 0x00000100, 0x00000000, 0xa07341e2, 0x805ff493, 0x82361b36);
    Step(s, w, 17, 0x022fe184, 0xa406a042, 0xf3547aab, 0xae5aed1e, 0x5abaad0d, 0x74eb6ac0, 0x4075280f, 0xa11f0e28,
         0xefbe4786, 0x82361b36, 0x82ceadca, 0xdbf4c150);
    Word(w, 18, 0x7971a48a, 0x00000000, 0xf74ff581, 0xa07341e2, 0x67a48e69);
    Step(s, w, 18, 0x82ceadca, 0x022fe184, 0xa406a042, 0xf3547aab, 0xdbf4c150, 0x5abaad0d, 0x74eb6ac0, 0x4075280f,
         0x0fc19dc6, 0x67a48e69, 0x400a3e7c, 0xbcff8059);
    Word(w, 19, 0x82361b36, 0x00000000, 0x49d22ab9, 0xf74ff581, 0xb734c5d2);
    Step(s, w, 19, 0x400a3e7c, 0x82ceadca, 0x022fe184, 0xa406a042, 0xbcff8059, 0xdbf4c150, 0x5abaad0d, 0x74eb6ac0,
         0x240ca1cc, 0xb734c5d2, 0x0a4df97b, 0xe12c6d23);
    Word(w, 20, 0x67a48e69, 0x00000000, 0xba19f613, 0x49d22ab9, 0x6e668466);
    Step(s, w, 20, 0x0a4df97b, 0x400a3e7c, 0x82ceadca, 0x022fe184, 0xe12c6d23, 0xbcff8059, 0xdbf4c150, 0x5abaad0d,
         0x2de92c6f, 0x6e668466, 0xb0d2618e, 0x7204c580);
    Word(w, 21, 0xb734c5d2, 0x00000000, 0x43e2c86c, 0xba19f613, 0x177942c5);
    Step(s, w, 21, 0xb0d2618e, 0x0a4df97b, 0x400a3e7c, 0x82ceadca, 0x7204c580, 0xe12c6d23, 0xbcff8059, 0xdbf4c150,
         0x4a7484aa, 0x177942c5, 0xc897ff80, 0x61550f99);
    Word(w, 22, 0x6e668466, 0x00000100, 0x71c5d66d, 0x43e2c86c, 0x77c799da);
    Step(s, w, 22, 0xc897ff80, 0xb0d2618e, 0x0a4df97b, 0x400a3e7c, 0x61550f99, 0x7204c580, 0xe12c6d23, 0xbcff8059,
         0x5cb0a9dc, 0x77c799da, 0xc8888de7, 0xeddd1a5c);
    Word(w, 23, 0x177942c5, 0x7971a48a, 0x80000000, 0x71c5d66d, 0x857791fa);
    Step(s, w, 23, 0xc8888de7, 0xc897ff80, 0xb0d2618e, 0x0a4df97b, 0xeddd1a5c, 0x61550f99, 0x7204c580, 0xe12c6d23,
         0x76f988da, 0x857791fa, 0xaf5a1ef0, 0x31e932c6);
    Word(w, 24, 0x77c799da, 0x82361b36, 0x00000000, 0x80000000, 0x4201a033);
    Step(s, w, 24, 0xaf5a1ef0, 0xc8888de7, 0xc897ff80, 0xb0d2618e, 0x31e932c6, 0xeddd1a5c, 0x61550f99, 0x7204c580,
         0x983e5152, 0x4201a033, 0xdf7db108, 0x138d32e5);
    Word(w, 25, 0x857791fa, 0x67a48e69, 0x00000000, 0x00000000, 0xa287de5a);
    Step(s, w, 25, 0xdf7db108, 0xaf5a1ef0, 0xc8888de7, 0xc897ff80, 0x138d32e5, 0x31e932c6, 0xeddd1a5c, 0x61550f99,
         0xa831c66d, 0xa287de5a, 0xd11379d2, 0x80f526a0);
    Word(w, 26, 0x4201a033, 0xb734c5d2, 0x00000000, 0x00000000, 0x9b440efa);
    Step(s, w, 26, 0xd11379d2, 0xdf7db108, 0xaf5a1ef0, 0xc8888de7, 0x80f526a0, 0x138d32e5, 0x31e932c6, 0xeddd1a5c,
         0xb00327c8, 0x9b440efa, 0xadc275fd, 0x5fbaac69);
    Word(w, 27, 0xa287de5a, 0x6e668466, 0x00000000, 0x00000000, 0x8335294a);
    Step(s, w, 27, 0xadc275fd, 0xd11379d2, 0xdf7db108, 0xaf5a1ef0, 0x5fbaac69, 0x80f526a0, 0x138d32e5, 0x31e932c6,
         0xbf597fc7, 0x8335294a, 0x14cdb379, 0x198a5ab6);
    Word(w, 28, 0x9b440efa, 0x177942c5, 0x00000000, 0x00000000, 0x9dfe128e);
    Step(s, w, 28, 0x14cdb379, 0xadc275fd, 0xd11379d2, 0xdf7db108, 0x198a5ab6, 0x5fbaac69, 0x80f526a0, 0x138d32e5,
         0xc6e00bf3, 0x9dfe128e, 0xdbec618c, 0x3d7071bb);
    Word(w, 29, 0x8335294a, 0x77c799da, 0x00000000, 0x00000000, 0xa9747690);
    Step(s, w, 29, 0xdbec618c, 0x14cdb379, 0xadc275fd, 0xd11379d2, 0x3d7071bb, 0x198a5ab6, 0x5fbaac69, 0x80f526a0,
         0xd5a79147, 0xa9747690, 0xe82f242b, 0x905a3791);
    Word(w, 30, 0x9dfe128e, 0x857791fa, 0x00000100, 0x00000000, 0x50e974e0);
    Step(s, w, 30, 0xe82f242b, 0xdbec618c, 0x14cdb379, 0xadc275fd, 0x905a3791, 0x3d7071bb, 0x198a5ab6, 0x5fbaac69,
         0x06ca6351, 0x50e974e0, 0xab58f29d, 0x186a1f9e);
    Word(w, 31, 0xa9747690, 0x4201a033, 0x7971a48a, 0x00000100, 0x6ab00740);
    Step(s, w, 31, 0xab58f29d, 0xe82f242b, 0xdbec618c, 0x14cdb379, 0x186a1f9e, 0x905a3791, 0x3d7071bb, 0x198a5ab6,
         0x14292967, 0x6ab00740, 0x15c8de99, 0xa13920b8);
  }

  lemma OuterQuarter3(s: State, w: seq<bv32>)
    requires |w| == 64 && IsSchedule(w) && OuterWords2(w)
    requires Rounds(s, w, 32)
      == Vars(0x15c8de99, 0xab58f29d, 0xe82f242b, 0xdbec618c, 0xa13920b8, 0x186a1f9e, 0x905a3791, 0x3d7071bb)
    ensures OuterWords3(w) && Rounds(s, w, 48)
      == Vars(0xcb2eb43a, 0xd890f410, 0xbd3420f7, 0x5bc06388, 0x77d0a1e8, 0x0cd296e3, 0x6ce3fc01, 0x72b0749a)
  {
    hide Rounds, ROUND_CONSTANTS, IsSchedule;
    Constants3();
    Word(w, 32, 0x50e974e0, 0xa287de5a, 0x82361b36, 0x7971a48a, 0xac80aaf5);
    Step(s, w, 32, 0x15c8de99, 0xab58f29d, 0xe82f242b, 0xdbec618c, 0xa13920b8, 0x186a1f9e, 0x905a3791, 0x3d7071bb,
         0x27b70a85, 0xac80aaf5, 0xc71cd314, 0x66ff4050);
    Word(w, 33, 0x6ab00740, 0x9b440efa, 0x67a48e69, 0x82361b36, 0x1e6e3f77);
    Step(s, w, 33, 0xc71cd314, 0x15c8de99, 0xab58f29d, 0xe82f242b, 0x66ff4050, 0xa13920b8, 0x186a1f9e, 0x905a3791,
         0x2e1b2138, 0x1e6e3f77, 0xaad9f494, 0x3182e6e3);
    Word(w, 34, 0xac80aaf5, 0x8335294a, 0xb734c5d2, 0x67a48e69, 0xade558a9);
    Step(s, w, 34, 0xaad9f494, 0xc71cd314, 0x15c8de99, 0xab58f29d, 0x3182e6e3, 0x66ff4050, 0xa13920b8, 0x186a1f9e,
         0x4d2c6dfc, 0xade558a9, 0xb7a4c0cf, 0xf1636397);
    Word(w, 35, 0x1e6e3f77, 0x9dfe128e, 0x6e668466, 0xb734c5d2, 0x8d8f55f2);
    Step(s, w, 35, 0xb7a4c0cf, 0xaad9f494, 0xc71cd314, 0x15c8de99, 0xf1636397, 0x3182e6e3, 0x66ff4050, 0xa13920b8,
         0x53380d13, 0x8d8f55f2, 0x765dd4f9, 0x6bf22f33);
    Word(w, 36, 0xade558a9, 0xa9747690, 0x177942c5, 0x6e668466, 0xf7b63411);
    Step(s, w, 36, 0x765dd4f9, 0xb7a4c0cf, 0xaad9f494, 0xc71cd314, 0x6bf22f33, 0xf1636397, 0x3182e6e3, 0x66ff4050,
         0x650a7354, 0xf7b63411, 0x4be4f1ba, 0xcf14cde8);
    Word(w, 37, 0x8d8f55f2, 0x50e974e0, 0x77c799da, 0x177942c5, 0x05290e41);
    Step(s, w, 37, 0x4be4f1ba, 0x765dd4f9, 0xb7a4c0cf, 0xaad9f494, 0xcf14cde8, 0x6bf22f33, 0xf1636397, 0x3182e6e3,
         0x766a0abb, 0x05290e41, 0xc19ed040, 0x67a66973);
    Word(w, 38, 0xf7b63411, 0x6ab00740, 0x857791fa, 0x77c799da, 0xc10985fb);
    Step(s, w, 38, 0xc19ed040, 0x4be4f1ba, 0x765dd4f9, 0xb7a4c0cf, 0x67a66973, 0xcf14cde8, 0x6bf22f33, 0xf1636397,
         0x81c2c92e, 0xc10985fb, 0xc14863d3, 0x6bef97ca);
    Word(w, 39, 0x05290e41, 0xac80aaf5, 0x4201a033, 0x857791fa, 0xdfab0d27);
    Step(s, w, 39, 0xc14863d3, 0xc19ed040, 0x4be4f1ba, 0x765dd4f9, 0x6bef97ca, 0x67a66973, 0xcf14cde8, 0x6bf22f33,
         0x92722c85, 0xdfab0d27, 0x7dff285d, 0x634cadd2);
    Word(w, 40, 0xc10985fb, 0x1e6e3f77, 0xa287de5a, 0x4201a033, 0xa9661744);
    Step(s, w, 40, 0x7dff285d, 0xc14863d3, 0xc19ed040, 0x4be4f1ba, 0x634cadd2, 0x6bef97ca, 0x67a66973, 0xcf14cde8,
         0xa2bfe8a1, 0xa9661744, 0x7bd4f62d, 0x24a6377d);
    Word(w, 41, 0xdfab0d27, 0xade558a9, 0x9b440efa, 0xa287de5a, 0x1d4ee4f9);
    Step(s, w, 41, 0x7bd4f62d, 0x7dff285d, 0xc14863d3, 0xc19ed040, 0x24a6377d, 0x634cadd2, 0x6bef97ca, 0x67a66973,
         0xa81a664b, 0x1d4ee4f9, 0x16adc632, 0xa229dd52);
    Word(w, 42, 0xa9661744, 0x8d8f55f2, 0x8335294a, 0x9b440efa, 0xc1666cbc);
    Step(s, w, 42, 0x16adc632, 0x7bd4f62d, 0x7dff285d, 0xc14863d3, 0xa229dd52, 0x24a6377d, 0x634cadd2, 0x6bef97ca,
         0xc24b8b70, 0xc1666cbc, 0xc85903da, 0x068074b8);
    Word(w, 43, 0x1d4ee4f9, 0xf7b63411, 0x9dfe128e, 0x8335294a, 0xb3f7f51d);
    Step(s, w, 43, 0xc85903da, 0x16adc632, 0x7bd4f62d, 0x7dff285d, 0x068074b8, 0xa229dd52, 0x24a6377d, 0x634cadd2,
         0xc76c51a3, 0xb3f7f51d, 0x5ba5091f, 0xb5f70223);
    Word(w, 44, 0xc1666cbc, 0x05290e41, 0xa9747690, 0x9dfe128e, 0xc8f90e35);
    Step(s, w, 44, 0x5ba5091f, 0xc85903da, 0x16adc632, 0x7bd4f62d, 0xb5f70223, 0x068074b8, 0xa229dd52, 0x24a6377d,
         0xd192e819, 0xc8f90e35, 0x5bc06388, 0x72b0749a);
    Word(w, 45, 0xb3f7f51d, 0xc10985fb, 0x50e974e0, 0xa9747690, 0x06047752);
    Step(s, w, 45, 0x5bc06388, 0x5ba5091f, 0xc85903da, 0x16adc632, 0x72b0749a, 0xb5f70223, 0x068074b8, 0xa229dd52,
         0xd6990624, 0x06047752, 0xbd3420f7, 0x6ce3fc01);
    Word(w, 46, 0xc8f90e35, 0xdfab0d27, 0x6ab00740, 0x50e974e0, 0x63d65f71);
    Step(s, w, 46, 0xbd3420f7, 0x5bc06388, 0x5ba5091f, 0xc85903da, 0x6ce3fc01, 0x72b0749a, 0xb5f70223, 0x068074b8,
         0xf40e3585, 0x63d65f71, 0xd890f410, 0x0cd296e3);
    Word(w, 47, 0x06047752, 0xa9661744, 0xac80aaf5, 0x6ab00740, 0x9dcd608e);
    Step(s, w, 47, 0xd890f410, 0xbd3420f7, 0x5bc06388, 0x5ba5091f, 0x0cd296e3, 0x6ce3fc01, 0x72b0749a, 0xb5f70223,
         0x106aa070, 0x9dcd608e, 0xcb2eb43a, 0x77d0a1e8);
  }

  lemma OuterQuarter4(s: State, w: seq<bv32>)
    requires |w| == 64 && IsSchedule(w) && OuterWords3(w)
    requires Rounds(s, w, 48)
      == Vars(0xcb2eb43a, 0xd890f410, 0xbd3420f7, 0x5bc06388, 0x77d0a1e8, 0x0cd296e3, 0x6ce3fc01, 0x72b0749a)
    ensures OuterWords4(w) && Rounds(s, w, 64)
      == Vars(0x05d8a5a3, 0xfb8a04ed, 0x8537aed4, 0x09140215, 0x421030e6, 0x4654a010, 0x49523f55, 0xa41f32e7)
  {
    hide Rounds, ROUND_CONSTANTS, IsSchedule;
    Constants4();
    Word(w, 48, 0x63d65f71, 0x1d4ee4f9, 0x1e6e3f77, 0xac80aaf5, 0x104ad3ff);
    Step(s, w, 48, 0xcb2eb43a, 0xd890f410, 0xbd3420f7, 0x5bc06388, 0x77d0a1e8, 0x0cd296e3, 0x6ce3fc01, 0x72b0749a,
         0x19a4c116, 0x104ad3ff, 0xa11706c1, 0x79d596c0);
    Word(w, 49, 0x9dcd608e, 0xc1666cbc, 0xade558a9, 0x1e6e3f77, 0x0d13a517);
    Step(s, w, 49, 0xa11706c1, 0xcb2eb43a, 0xd890f410, 0xbd3420f7, 0x79d596c0, 0x77d0a1e8, 0x0cd296e3, 0x6ce3fc01,
         0x1e376c08, 0x0d13a517, 0x0c8f1e74, 0xfe58bbcf);
    Word(w, 50, 0x104ad3ff, 0xb3f7f51d, 0x8d8f55f2, 0xade558a9, 0xb7381dd4);
    Step(s, w, 50, 0x0c8f1e74, 0xa11706c1, 0xcb2eb43a, 0xd890f410, 0xfe58bbcf, 0x79d596c0, 0x77d0a1e8, 0x0cd296e3,
         0x2748774c, 0xb7381dd4, 0x25889731, 0xa81000fa);
    Word(w, 51, 0x0d13a517, 0xc8f90e35, 0xf7b63411, 0x8d8f55f2, 0xacd05ef0);
    Step(s, w, 51, 0x25889731, 0x0c8f1e74, 0xa11706c1, 0xcb2eb43a, 0xa81000fa, 0xfe58bbcf, 0x79d596c0, 0x77d0a1e8,
         0x34b0bcb5, 0xacd05ef0, 0x4963773d, 0x1c4b47e8);
    Word(w, 52, 0xb7381dd4, 0x06047752, 0x05290e41, 0xf7b63411, 0xcc76e17d);
    Step(s, w, 52, 0x4963773d, 0x25889731, 0x0c8f1e74, 0xa11706c1, 0x1c4b47e8, 0xa81000fa, 0xfe58bbcf, 0x79d596c0,
         0x391c0cb3, 0xcc76e17d, 0x5644097e, 0x83619519);
    Word(w, 53, 0xacd05ef0, 0x63d65f71, 0xc10985fb, 0x05290e41, 0x1c6ab98d);
    Step(s, w, 53, 0x5644097e, 0x4963773d, 0x25889731, 0x0c8f1e74, 0x83619519, 0x1c4b47e8, 0xa81000fa, 0xfe58bbcf,
         0x4ed8aa4a, 0x1c6ab98d, 0x1b6aec9a, 0x1473aaab);
    Word(w, 54, 0xcc76e17d, 0x9dcd608e, 0xdfab0d27, 0xc10985fb, 0xa27ce8ea);
    Step(s, w, 54, 0x1b6aec9a, 0x5644097e, 0x4963773d, 0x25889731, 0x1473aaab, 0x83619519, 0x1c4b47e8, 0xa81000fa,
         0x5b9cca4f, 0xa27ce8ea, 0x1494042b, 0x95022602);
    Word(w, 55, 0x1c6ab98d, 0x104ad3ff, 0xa9661744, 0xdfab0d27, 0x15953cdb);
    Step(s, w, 55, 0x1494042b, 0x1b6aec9a, 0x5644097e, 0x4963773d, 0x95022602, 0x1473aaab, 0x83619519, 0x1c4b47e8,
         0x682e6ff3, 0x15953cdb, 0xc6396799, 0x44ebc8a4);
    Word(w, 56, 0xa27ce8ea, 0x0d13a517, 0x1d4ee4f9, 0xa9661744, 0xe8675cab);
    Step(s, w, 56, 0xc6396799, 0x1494042b, 0x1b6aec9a, 0x5644097e, 0x44ebc8a4, 0x95022602, 0x1473aaab, 0x83619519,
         0x748f82ee, 0xe8675cab, 0xa4006b06, 0x3b2e00b4);
    Word(w, 57, 0x15953cdb, 0xb7381dd4, 0xc1666cbc, 0x1d4ee4f9, 0x08fbc11b);
    Step(s, w, 57, 0xa4006b06, 0xc6396799, 0x1494042b, 0x1b6aec9a, 0x3b2e00b4, 0x44ebc8a4, 0x95022602, 0x1473aaab,
         0x78a5636f, 0x08fbc11b, 0xe0540517, 0x87156a54);
    Word(w, 58, 0xe8675cab, 0xacd05ef0, 0xb3f7f51d, 0xc1666cbc, 0x848fda48);
    Step(s, w, 58, 0xe0540517, 0xa4006b06, 0xc6396799, 0x1494042b, 0x87156a54, 0x3b2e00b4, 0x44ebc8a4, 0x95022602,
         0x84c87814, 0x848fda48, 0xd95159d4, 0x89169a84);
    Word(w, 59, 0x08fbc11b, 0xcc76e17d, 0xc8f90e35, 0xb3f7f51d, 0x4a1f5410);
    Step(s, w, 59, 0xd95159d4, 0xe0540517, 0xa4006b06, 0xc6396799, 0x89169a84, 0x87156a54, 0x3b2e00b4, 0x44ebc8a4,
         0x8cc70208, 0x4a1f5410, 0x36ec7c9d, 0x5f3fcb86);
    Word(w, 60, 0x848fda48, 0x1c6ab98d, 0x06047752, 0xc8f90e35, 0xb4c84067);
    Step(s, w, 60, 0x36ec7c9d, 0xd95159d4, 0xe0540517, 0xa4006b06, 0x5f3fcb86, 0x89169a84, 0x87156a54, 0x3b2e00b4,
         0x90befffa, 0xb4c84067, 0x09140215, 0xa41f32e7);
    Word(w, 61, 0x4a1f5410, 0xa27ce8ea, 0x63d65f71, 0x06047752, 0x627b4b7a);
    Step(s, w, 61, 0x09140215, 0x36ec7c9d, 0xd95159d4, 0xe0540517, 0xa41f32e7, 0x5f3fcb86, 0x89169a84, 0x87156a54,
         0xa4506ceb, 0x627b4b7a, 0x8537aed4, 0x49523f55);
    Word(w, 62, 0xb4c84067, 0x15953cdb, 0x9dcd608e, 0x63d65f71, 0xf81f4cdc);
    Step(s, w, 62, 0x8537aed4, 0x09140215, 0x36ec7c9d, 0xd95159d4, 0x49523f55, 0xa41f32e7, 0x5f3fcb86, 0x89169a84,
         0xbef9a3f7, 0xf81f4cdc, 0xfb8a04ed, 0x4654a010);
    Word(w, 63, 0x627b4b7a, 0xe8675cab, 0x104ad3ff, 0x9dcd608e, 0x9bd5aca3);
    Step(s, w, 63, 0xfb8a04ed, 0x8537aed4, 0x09140215, 0x36ec7c9d, 0x4654a010, 0x49523f55, 0xa41f32e7, 0x5f3fcb86,
         0xc67178f2, 0x9bd5aca3, 0x05d8a5a3, 0x421030e6);
  }

  lemma OuterBlock(m: Block)
    requires OuterWords1(m)
    ensures Compress(INITIAL, m) == OUTER
  {
    hide Rounds, Round, Schedule, ROUND_CONSTANTS;
    var w := Schedule(m, 64);
    ScheduleIs(m);
    OuterQuarter1(INITIAL, w);
    OuterQuarter2(INITIAL, w);
    OuterQuarter3(INITIAL, w);
    OuterQuarter4(INITIAL, w);
  }
}
