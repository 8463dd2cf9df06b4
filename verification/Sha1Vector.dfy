/** The digest of "abc", test 1 of RFC 3174 (section 7.3), which ties the constants of SHA-1, its initial value and the
    order of its bytes. */
module Sha1Vector {
  import opened Common
  import opened HashStream
  import opened Words32
  import opened Sha1
  import opened Sha1Rfc

  const ABC: seq<byte> := [0x61, 0x62, 0x63]

  // ---------- the words ----------

  const WORDS0: seq<word> :=
    [0x61626380, 0x00000000, 0x00000000, 0x00000000, 0x00000000, 0x00000000, 0x00000000, 0x00000000,
     0x00000000, 0x00000000, 0x00000000, 0x00000000, 0x00000000, 0x00000000, 0x00000000, 0x00000018]
  const WORDS1: seq<word> :=
    [0xc2c4c700, 0x00000000, 0x00000030, 0x85898e01, 0x00000000, 0x00000060, 0x0b131c03, 0x00000030,
     0x85898ec1, 0x16263806, 0x00000000, 0x00000180, 0x2c4c700c, 0x000000f0, 0x93afb507, 0x5898e048]
  const WORDS2: seq<word> :=
    [0x8e9a9202, 0x00000600, 0xb131c0f0, 0x16263bc6, 0x4ebed41e, 0x626380a1, 0x16263806, 0x000018c0,
     0xd2e138c4, 0x00000f00, 0x3afb5079, 0x898e04e5, 0xe2ba3c2b, 0x000060c0, 0x053a37cd, 0x74458547]
  const WORDS3: seq<word> :=
    [0xda9415ed, 0x26380a16, 0x626383a1, 0x4ebf54de, 0x3835b44b, 0x0000f600, 0x1e84c7a3, 0x98e04d98,
     0x651d16a0, 0x62658ca1, 0x458544d6, 0x44584cb7, 0x7ba06619, 0x6380aea2, 0x0ae55269, 0x627b49a1]
  const WORDS4: seq<word> :=
    [0x7cd45c9d, 0x000f0000, 0xfb50753a, 0xec6765e8, 0xba3c2be2, 0x0060c000, 0x3a37cd05, 0x458546f4,
     0xb8599dd6, 0x380a1a26, 0x01e02203, 0xe7cc3456, 0xe6e60b69, 0x00f60a00, 0x5795ef4f, 0x822e0879]

  predicate Nexts1(next: (word, word, word, word) -> word) {
    && next(0x00000000, 0x00000000, 0x00000000, 0x61626380) == 0xc2c4c700
    && next(0x00000000, 0x00000000, 0x00000000, 0x00000000) == 0x00000000
    && next(0x00000018, 0x00000000, 0x00000000, 0x00000000) == 0x00000030
    && next(0xc2c4c700, 0x00000000, 0x00000000, 0x00000000) == 0x85898e01
    && next(0x00000000, 0x00000000, 0x00000000, 0x00000000) == 0x00000000
    && next(0x00000030, 0x00000000, 0x00000000, 0x00000000) == 0x00000060
    && next(0x85898e01, 0x00000000, 0x00000000, 0x00000000) == 0x0b131c03
    && next(0x00000000, 0x00000018, 0x00000000, 0x00000000) == 0x00000030
    && next(0x00000060, 0xc2c4c700, 0x00000000, 0x00000000) == 0x85898ec1
    && next(0x0b131c03, 0x00000000, 0x00000000, 0x00000000) == 0x16263806
    && next(0x00000030, 0x00000030, 0x00000000, 0x00000000) == 0x00000000
    && next(0x85898ec1, 0x85898e01, 0x00000000, 0x00000000) == 0x00000180
    && next(0x16263806, 0x00000000, 0x00000000, 0x00000000) == 0x2c4c700c
    && next(0x00000000, 0x00000060, 0x00000018, 0x00000000) == 0x000000f0
    && next(0x00000180, 0x0b131c03, 0xc2c4c700, 0x00000000) == 0x93afb507
    && next(0x2c4c700c, 0x00000030, 0x00000000, 0x00000018) == 0x5898e048
  }

  lemma Made1()
    ensures Nexts1(NextWord)
  {
  }

  predicate Nexts2(next: (word, word, word, word) -> word) {
    && next(0x000000f0, 0x85898ec1, 0x00000030, 0xc2c4c700) == 0x8e9a9202
    && next(0x93afb507, 0x16263806, 0x85898e01, 0x00000000) == 0x00000600
    && next(0x5898e048, 0x00000000, 0x00000000, 0x00000030) == 0xb131c0f0
    && next(0x8e9a9202, 0x00000180, 0x00000060, 0x85898e01) == 0x16263bc6
    && next(0x00000600, 0x2c4c700c, 0x0b131c03, 0x00000000) == 0x4ebed41e
    && next(0xb131c0f0, 0x000000f0, 0x00000030, 0x00000060) == 0x626380a1
    && next(0x16263bc6, 0x93afb507, 0x85898ec1, 0x0b131c03) == 0x16263806
    && next(0x4ebed41e, 0x5898e048, 0x16263806, 0x00000030) == 0x000018c0
    && next(0x626380a1, 0x8e9a9202, 0x00000000, 0x85898ec1) == 0xd2e138c4
    && next(0x16263806, 0x00000600, 0x00000180, 0x16263806) == 0x00000f00
    && next(0x000018c0, 0xb131c0f0, 0x2c4c700c, 0x00000000) == 0x3afb5079
    && next(0xd2e138c4, 0x16263bc6, 0x000000f0, 0x00000180) == 0x898e04e5
    && next(0x00000f00, 0x4ebed41e, 0x93afb507, 0x2c4c700c) == 0xe2ba3c2b
    && next(0x3afb5079, 0x626380a1, 0x5898e048, 0x000000f0) == 0x000060c0
    && next(0x898e04e5, 0x16263806, 0x8e9a9202, 0x93afb507) == 0x053a37cd
    && next(0xe2ba3c2b, 0x000018c0, 0x00000600, 0x5898e048) == 0x74458547
  }

  lemma Made2()
    ensures Nexts2(NextWord)
  {
  }

  predicate Nexts3(next: (word, word, word, word) -> word) {
    && next(0x000060c0, 0xd2e138c4, 0xb131c0f0, 0x8e9a9202) == 0xda9415ed
    && next(0x053a37cd, 0x00000f00, 0x16263bc6, 0x00000600) == 0x26380a16
    && next(0x74458547, 0x3afb5079, 0x4ebed41e, 0xb131c0f0) == 0x626383a1
    && next(0xda9415ed, 0x898e04e5, 0x626380a1, 0x16263bc6) == 0x4ebf54de
    && next(0x26380a16, 0xe2ba3c2b, 0x16263806, 0x4ebed41e) == 0x3835b44b
    && next(0x626383a1, 0x000060c0, 0x000018c0, 0x626380a1) == 0x0000f600
    && next(0x4ebf54de, 0x053a37cd, 0xd2e138c4, 0x16263806) == 0x1e84c7a3
    && next(0x3835b44b, 0x74458547, 0x00000f00, 0x000018c0) == 0x98e04d98
    && next(0x0000f600, 0xda9415ed, 0x3afb5079, 0xd2e138c4) == 0x651d16a0
    && next(0x1e84c7a3, 0x26380a16, 0x898e04e5, 0x00000f00) == 0x62658ca1
    && next(0x98e04d98, 0x626383a1, 0xe2ba3c2b, 0x3afb5079) == 0x458544d6
    && next(0x651d16a0, 0x4ebf54de, 0x000060c0, 0x898e04e5) == 0x44584cb7
    && next(0x62658ca1, 0x3835b44b, 0x053a37cd, 0xe2ba3c2b) == 0x7ba06619
    && next(0x458544d6, 0x0000f600, 0x74458547, 0x000060c0) == 0x6380aea2
    && next(0x44584cb7, 0x1e84c7a3, 0xda9415ed, 0x053a37cd) == 0x0ae55269
    && next(0x7ba06619, 0x98e04d98, 0x26380a16, 0x74458547) == 0x627b49a1
  }

  lemma Made3()
    ensures Nexts3(NextWord)
  {
  }

  predicate Nexts4(next: (word, word, word, word) -> word) {
    && next(0x6380aea2, 0x651d16a0, 0x626383a1, 0xda9415ed) == 0x7cd45c9d
    && next(0x0ae55269, 0x62658ca1, 0x4ebf54de, 0x26380a16) == 0x000f0000
    && next(0x627b49a1, 0x458544d6, 0x3835b44b, 0x626383a1) == 0xfb50753a
    && next(0x7cd45c9d, 0x44584cb7, 0x0000f600, 0x4ebf54de) == 0xec6765e8
    && next(0x000f0000, 0x7ba06619, 0x1e84c7a3, 0x3835b44b) == 0xba3c2be2
    && next(0xfb50753a, 0x6380aea2, 0x98e04d98, 0x0000f600) == 0x0060c000
    && next(0xec6765e8, 0x0ae55269, 0x651d16a0, 0x1e84c7a3) == 0x3a37cd05
    && next(0xba3c2be2, 0x627b49a1, 0x62658ca1, 0x98e04d98) == 0x458546f4
    && next(0x0060c000, 0x7cd45c9d, 0x458544d6, 0x651d16a0) == 0xb8599dd6
    && next(0x3a37cd05, 0x000f0000, 0x44584cb7, 0x62658ca1) == 0x380a1a26
    && next(0x458546f4, 0xfb50753a, 0x7ba06619, 0x458544d6) == 0x01e02203
    && next(0xb8599dd6, 0xec6765e8, 0x6380aea2, 0x44584cb7) == 0xe7cc3456
    && next(0x380a1a26, 0xba3c2be2, 0x0ae55269, 0x7ba06619) == 0xe6e60b69
    && next(0x01e02203, 0x0060c000, 0x627b49a1, 0x6380aea2) == 0x00f60a00
    && next(0xe7cc3456, 0x3a37cd05, 0x7cd45c9d, 0x0ae55269) == 0x5795ef4f
    && next(0xe6e60b69, 0x458546f4, 0x000f0000, 0x627b49a1) == 0x822e0879
  }

  lemma Made4()
    ensures Nexts4(NextWord)
  {
  }

  /** Sixteen words are followed by these sixteen. */
  ghost predicate Follow<W>(next: (W, W, W, W) -> W, p: seq<W>, q: seq<W>)
    requires |p| == |q| == 16
  {
    && q[0] == next(p[13], p[8], p[2], p[0])
    && q[1] == next(p[14], p[9], p[3], p[1])
    && q[2] == next(p[15], p[10], p[4], p[2])
    && q[3] == next(q[0], p[11], p[5], p[3])
    && q[4] == next(q[1], p[12], p[6], p[4])
    && q[5] == next(q[2], p[13], p[7], p[5])
    && q[6] == next(q[3], p[14], p[8], p[6])
    && q[7] == next(q[4], p[15], p[9], p[7])
    && q[8] == next(q[5], q[0], p[10], p[8])
    && q[9] == next(q[6], q[1], p[11], p[9])
    && q[10] == next(q[7], q[2], p[12], p[10])
    && q[11] == next(q[8], q[3], p[13], p[11])
    && q[12] == next(q[9], q[4], p[14], p[12])
    && q[13] == next(q[10], q[5], p[15], p[13])
    && q[14] == next(q[11], q[6], q[0], p[14])
    && q[15] == next(q[12], q[7], q[1], p[15])
  }

  lemma Words1(next: (word, word, word, word) -> word)
    requires Nexts1(next)
    ensures Follow(next, WORDS0, WORDS1)
  {
  }

  lemma Words2(next: (word, word, word, word) -> word)
    requires Nexts2(next)
    ensures Follow(next, WORDS1, WORDS2)
  {
  }

  lemma Words3(next: (word, word, word, word) -> word)
    requires Nexts3(next)
    ensures Follow(next, WORDS2, WORDS3)
  {
  }

  lemma Words4(next: (word, word, word, word) -> word)
    requires Nexts4(next)
    ensures Follow(next, WORDS3, WORDS4)
  {
  }

  ghost predicate Stands<W>(v: seq<W>, k: nat, p: seq<W>, q: seq<W>) {
    |p| == |q| == 16 <= k && k + 16 <= |v| && v[k - 16..k] == p && v[k..k + 16] == q
  }

  lemma FollowMade<W>(next: (W, W, W, W) -> W, v: seq<W>, k: nat, p: seq<W>, q: seq<W>, t: nat)
    requires Stands(v, k, p, q) && Follow(next, p, q) && k <= t < k + 16
    ensures Made(next, v, t)
  {
    forall i | 0 <= i < 16 ensures v[k - 16 + i] == p[i] && v[k + i] == q[i] {
      assert v[k - 16..k][i] == p[i] && v[k..k + 16][i] == q[i];
    }
  }

  const WORDS: seq<word> := WORDS0 + WORDS1 + WORDS2 + WORDS3 + WORDS4

  lemma WordsStand<W>(v: seq<W>, a: seq<W>, b: seq<W>, c: seq<W>, d: seq<W>, e: seq<W>)
    requires |a| == |b| == |c| == |d| == |e| == 16 && v == a + b + c + d + e
    ensures v[..16] == a && Stands(v, 16, a, b) && Stands(v, 32, b, c) && Stands(v, 48, c, d) && Stands(v, 64, d, e)
  {
  }

  lemma AllMade<W>(next: (W, W, W, W) -> W, v: seq<W>, a: seq<W>, b: seq<W>, c: seq<W>, d: seq<W>, e: seq<W>, n: nat)
    requires |a| == |b| == |c| == |d| == |e| == 16 && v == a + b + c + d + e && n == |v|
    requires Follow(next, a, b) && Follow(next, b, c) && Follow(next, c, d) && Follow(next, d, e)
    ensures Expanded(next, a, n) == v
  {
    WordsStand(v, a, b, c, d, e);
    forall t | 16 <= t < 80 ensures Made(next, v, t) {
      if t < 32 {
        FollowMade(next, v, 16, a, b, t);
      } else if t < 48 {
        FollowMade(next, v, 32, b, c, t);
      } else if t < 64 {
        FollowMade(next, v, 48, c, d, t);
      } else {
        FollowMade(next, v, 64, d, e, t);
      }
    }
    ExpandedIs(next, v, n);
  }

  lemma AbcNexts(next: (word, word, word, word) -> word, first: seq<word>, n: nat)
    requires Nexts1(next) && Nexts2(next) && Nexts3(next) && Nexts4(next) && first == WORDS0 && n == 80
    ensures Expanded(next, first, n) == WORDS
  {
    Words1(next);
    Words2(next);
    Words3(next);
    Words4(next);
    AllMade(next, WORDS, WORDS0, WORDS1, WORDS2, WORDS3, WORDS4, n);
  }

  lemma AbcExpanded(first: seq<word>, n: nat)
    requires first == WORDS0 && n == 80
    ensures Expanded(NextWord, first, n) == WORDS
  {
    Made1();
    Made2();
    Made3();
    Made4();
    AbcNexts(NextWord, first, n);
  }

  // ---------- the steps ----------

  /** The registers after every five steps. */
  function Trace(k: nat): Regs {
    if k == 0 then Five(0x67452301, 0xefcdab89, 0x98badcfe, 0x10325476, 0xc3d2e1f0)
    else if k == 1 then Five(0xcfd499de, 0xcdd8e11b, 0x284e43c2, 0x626414db, 0xc045bf0c)
    else if k == 2 then Five(0x8351f929, 0x4b6ae328, 0x27a301f5, 0x664f8c30, 0x0ff1f290)
    else if k == 3 then Five(0x196bee77, 0x9128f695, 0x1181ed99, 0x18c623f9, 0x7ef6a7a2)
    else if k == 4 then Five(0xfd9e1d7d, 0xdc64901d, 0x20aa99ca, 0xd3a49608, 0xc82f758b)
    else if k == 5 then Five(0xc7567dc6, 0xd541f12d, 0x884a0d21, 0x0ce88eff, 0x868dec32)
    else if k == 6 then Five(0xc5fbaf5d, 0x8370b52e, 0xd2aa1365, 0x6f8d7ef5, 0x12104ee9)
    else if k == 7 then Five(0x21796ad4, 0x2c0ebc11, 0x811bea82, 0xcee1174c, 0xc499ed01)
    else if k == 8 then Five(0x32de1cba, 0x4c986405, 0xf718e5cf, 0x03d447f6, 0xf72eec32)
    else if k == 9 then Five(0x40f28e09, 0xee1b1aaf, 0x5fc64f71, 0x25c28357, 0xff21f7b7)
    else if k == 10 then Five(0x120731c5, 0xbaf39337, 0xafab40b2, 0x2806e11b, 0x8714787c)
    else if k == 11 then Five(0x7b71f76d, 0x27e9f1d8, 0x792410db, 0x8e11eb59, 0x99076cb3)
    else if k == 12 then Five(0x3f52de5a, 0x09d785fd, 0x3498bfd4, 0xf211824f, 0xd79915ab)
    else if k == 13 then Five(0x19dfa7ac, 0x6b61c9e1, 0xed9b0082, 0x9523272c, 0xf5d5b051)
    else if k == 14 then Five(0x3f2588c2, 0x497093c0, 0xde37534a, 0x030f7cad, 0x4405957e)
    else if k == 15 then Five(0x5ee76897, 0x11793f6f, 0x3b6d0b79, 0xce616779, 0xf0667e31)
    else Five(0x42541b35, 0x5738d5e1, 0x21834873, 0x681e6df6, 0xd8fdf6ad)
  }

  /** One step: the new value of the last register, and the second register turned. */
  ghost predicate Goes<W>(m: Macros<W>, round: nat, w: W, a: W, b: W, c: W, d: W, e: W, e': W, b': W) {
    m.mix(round, a, b, c, d, e, w) == e' && m.turn(b) == b'
  }

  ghost predicate Steps1(m: Macros<word>) {
    && Goes(m, 0, 0x61626380, 0x67452301, 0xefcdab89, 0x98badcfe, 0x10325476, 0xc3d2e1f0, 0x0116fc33, 0x7bf36ae2)
    && Goes(m, 0, 0x00000000, 0x0116fc33, 0x67452301, 0x7bf36ae2, 0x98badcfe, 0x10325476, 0x8990536d, 0x59d148c0)
    && Goes(m, 0, 0x00000000, 0x8990536d, 0x0116fc33, 0x59d148c0, 0x7bf36ae2, 0x98badcfe, 0xa1390f08, 0xc045bf0c)
    && Goes(m, 0, 0x00000000, 0xa1390f08, 0x8990536d, 0xc045bf0c, 0x59d148c0, 0x7bf36ae2, 0xcdd8e11b, 0x626414db)
    && Goes(m, 0, 0x00000000, 0xcdd8e11b, 0xa1390f08, 0x626414db, 0xc045bf0c, 0x59d148c0, 0xcfd499de, 0x284e43c2)
    && Goes(m, 0, 0x00000000, 0xcfd499de, 0xcdd8e11b, 0x284e43c2, 0x626414db, 0xc045bf0c, 0x3fc7ca40, 0xf3763846)
    && Goes(m, 0, 0x00000000, 0x3fc7ca40, 0xcfd499de, 0xf3763846, 0x284e43c2, 0x626414db, 0x993e30c1, 0xb3f52677)
    && Goes(m, 0, 0x00000000, 0x993e30c1, 0x3fc7ca40, 0xb3f52677, 0xf3763846, 0x284e43c2, 0x9e8c07d4, 0x0ff1f290)
    && Goes(m, 0, 0x00000000, 0x9e8c07d4, 0x993e30c1, 0x0ff1f290, 0xb3f52677, 0xf3763846, 0x4b6ae328, 0x664f8c30)
    && Goes(m, 0, 0x00000000, 0x4b6ae328, 0x9e8c07d4, 0x664f8c30, 0x0ff1f290, 0xb3f52677, 0x8351f929, 0x27a301f5)
  }

  lemma Done1()
    ensures Steps1(STEPS)
  {
  }

  ghost predicate Steps2(m: Macros<word>) {
    && Goes(m, 0, 0x00000000, 0x8351f929, 0x4b6ae328, 0x27a301f5, 0x664f8c30, 0x0ff1f290, 0xfbda9e89, 0x12dab8ca)
    && Goes(m, 0, 0x00000000, 0xfbda9e89, 0x8351f929, 0x12dab8ca, 0x27a301f5, 0x664f8c30, 0x63188fe4, 0x60d47e4a)
    && Goes(m, 0, 0x00000000, 0x63188fe4, 0xfbda9e89, 0x60d47e4a, 0x12dab8ca, 0x27a301f5, 0x4607b664, 0x7ef6a7a2)
    && Goes(m, 0, 0x00000000, 0x4607b664, 0x63188fe4, 0x7ef6a7a2, 0x60d47e4a, 0x12dab8ca, 0x9128f695, 0x18c623f9)
    && Goes(m, 0, 0x00000000, 0x9128f695, 0x4607b664, 0x18c623f9, 0x7ef6a7a2, 0x60d47e4a, 0x196bee77, 0x1181ed99)
    && Goes(m, 0, 0x00000018, 0x196bee77, 0x9128f695, 0x1181ed99, 0x18c623f9, 0x7ef6a7a2, 0x20bdd62f, 0x644a3da5)
    && Goes(m, 0, 0xc2c4c700, 0x20bdd62f, 0x196bee77, 0x644a3da5, 0x1181ed99, 0x18c623f9, 0x4e925823, 0xc65afb9d)
    && Goes(m, 0, 0x00000000, 0x4e925823, 0x20bdd62f, 0xc65afb9d, 0x644a3da5, 0x1181ed99, 0x82aa6728, 0xc82f758b)
    && Goes(m, 0, 0x00000030, 0x82aa6728, 0x4e925823, 0xc82f758b, 0xc65afb9d, 0x644a3da5, 0xdc64901d, 0xd3a49608)
    && Goes(m, 0, 0x85898e01, 0xdc64901d, 0x82aa6728, 0xd3a49608, 0xc82f758b, 0xc65afb9d, 0xfd9e1d7d, 0x20aa99ca)
  }

  lemma Done2()
    ensures Steps2(STEPS)
  {
  }

  ghost predicate Steps3(m: Macros<word>) {
    && Goes(m, 1, 0x00000000, 0xfd9e1d7d, 0xdc64901d, 0x20aa99ca, 0xd3a49608, 0xc82f758b, 0x1a37b0ca, 0x77192407)
    && Goes(m, 1, 0x00000060, 0x1a37b0ca, 0xfd9e1d7d, 0x77192407, 0x20aa99ca, 0xd3a49608, 0x33a23bfc, 0x7f67875f)
    && Goes(m, 1, 0x0b131c03, 0x33a23bfc, 0x1a37b0ca, 0x7f67875f, 0x77192407, 0x20aa99ca, 0x21283486, 0x868dec32)
    && Goes(m, 1, 0x00000030, 0x21283486, 0x33a23bfc, 0x868dec32, 0x7f67875f, 0x77192407, 0xd541f12d, 0x0ce88eff)
    && Goes(m, 1, 0x85898ec1, 0xd541f12d, 0x21283486, 0x0ce88eff, 0x868dec32, 0x7f67875f, 0xc7567dc6, 0x884a0d21)
    && Goes(m, 1, 0x16263806, 0xc7567dc6, 0xd541f12d, 0x884a0d21, 0x0ce88eff, 0x868dec32, 0x48413ba4, 0x75507c4b)
    && Goes(m, 1, 0x00000000, 0x48413ba4, 0xc7567dc6, 0x75507c4b, 0x884a0d21, 0x0ce88eff, 0xbe35fbd5, 0xb1d59f71)
    && Goes(m, 1, 0x00000180, 0xbe35fbd5, 0x48413ba4, 0xb1d59f71, 0x75507c4b, 0x884a0d21, 0x4aa84d97, 0x12104ee9)
    && Goes(m, 1, 0x2c4c700c, 0x4aa84d97, 0xbe35fbd5, 0x12104ee9, 0xb1d59f71, 0x75507c4b, 0x8370b52e, 0x6f8d7ef5)
    && Goes(m, 1, 0x000000f0, 0x8370b52e, 0x4aa84d97, 0x6f8d7ef5, 0x12104ee9, 0xb1d59f71, 0xc5fbaf5d, 0xd2aa1365)
  }

  lemma Done3()
    ensures Steps3(STEPS)
  {
  }

  ghost predicate Steps4(m: Macros<word>) {
    && Goes(m, 1, 0x93afb507, 0xc5fbaf5d, 0x8370b52e, 0xd2aa1365, 0x6f8d7ef5, 0x12104ee9, 0x1267b407, 0xa0dc2d4b)
    && Goes(m, 1, 0x5898e048, 0x1267b407, 0xc5fbaf5d, 0xa0dc2d4b, 0xd2aa1365, 0x6f8d7ef5, 0x3b845d33, 0x717eebd7)
    && Goes(m, 1, 0x8e9a9202, 0x3b845d33, 0x1267b407, 0x717eebd7, 0xa0dc2d4b, 0xd2aa1365, 0x046faa0a, 0xc499ed01)
    && Goes(m, 1, 0x00000600, 0x046faa0a, 0x3b845d33, 0xc499ed01, 0x717eebd7, 0xa0dc2d4b, 0x2c0ebc11, 0xcee1174c)
    && Goes(m, 1, 0xb131c0f0, 0x2c0ebc11, 0x046faa0a, 0xcee1174c, 0xc499ed01, 0x717eebd7, 0x21796ad4, 0x811bea82)
    && Goes(m, 1, 0x16263bc6, 0x21796ad4, 0x2c0ebc11, 0x811bea82, 0xcee1174c, 0xc499ed01, 0xdcbbb0cb, 0x4b03af04)
    && Goes(m, 1, 0x4ebed41e, 0xdcbbb0cb, 0x21796ad4, 0x4b03af04, 0x811bea82, 0xcee1174c, 0x0f511fd8, 0x085e5ab5)
    && Goes(m, 1, 0x626380a1, 0x0f511fd8, 0xdcbbb0cb, 0x085e5ab5, 0x4b03af04, 0x811bea82, 0xdc63973f, 0xf72eec32)
    && Goes(m, 1, 0x16263806, 0xdc63973f, 0x0f511fd8, 0xf72eec32, 0x085e5ab5, 0x4b03af04, 0x4c986405, 0x03d447f6)
    && Goes(m, 1, 0x000018c0, 0x4c986405, 0xdc63973f, 0x03d447f6, 0xf72eec32, 0x085e5ab5, 0x32de1cba, 0xf718e5cf)
  }

  lemma Done4()
    ensures Steps4(STEPS)
  {
  }

  ghost predicate Steps5(m: Macros<word>) {
    && Goes(m, 2, 0xd2e138c4, 0x32de1cba, 0x4c986405, 0xf718e5cf, 0x03d447f6, 0xf72eec32, 0xfc87dedf, 0x53261901)
    && Goes(m, 2, 0x00000f00, 0xfc87dedf, 0x32de1cba, 0x53261901, 0xf718e5cf, 0x03d447f6, 0x970a0d5c, 0x8cb7872e)
    && Goes(m, 2, 0x3afb5079, 0x970a0d5c, 0xfc87dedf, 0x8cb7872e, 0x53261901, 0xf718e5cf, 0x7f193dc5, 0xff21f7b7)
    && Goes(m, 2, 0x898e04e5, 0x7f193dc5, 0x970a0d5c, 0xff21f7b7, 0x8cb7872e, 0x53261901, 0xee1b1aaf, 0x25c28357)
    && Goes(m, 2, 0xe2ba3c2b, 0xee1b1aaf, 0x7f193dc5, 0x25c28357, 0xff21f7b7, 0x8cb7872e, 0x40f28e09, 0x5fc64f71)
    && Goes(m, 2, 0x000060c0, 0x40f28e09, 0xee1b1aaf, 0x5fc64f71, 0x25c28357, 0xff21f7b7, 0x1c51e1f2, 0xfb86c6ab)
    && Goes(m, 2, 0x053a37cd, 0x1c51e1f2, 0x40f28e09, 0xfb86c6ab, 0x5fc64f71, 0x25c28357, 0xa01b846c, 0x503ca382)
    && Goes(m, 2, 0x74458547, 0xa01b846c, 0x1c51e1f2, 0x503ca382, 0xfb86c6ab, 0x5fc64f71, 0xbead02ca, 0x8714787c)
    && Goes(m, 2, 0xda9415ed, 0xbead02ca, 0xa01b846c, 0x8714787c, 0x503ca382, 0xfb86c6ab, 0xbaf39337, 0x2806e11b)
    && Goes(m, 2, 0x26380a16, 0xbaf39337, 0xbead02ca, 0x2806e11b, 0x8714787c, 0x503ca382, 0x120731c5, 0xafab40b2)
  }

  lemma Done5()
    ensures Steps5(STEPS)
  {
  }

  ghost predicate Steps6(m: Macros<word>) {
    && Goes(m, 2, 0x626383a1, 0x120731c5, 0xbaf39337, 0xafab40b2, 0x2806e11b, 0x8714787c, 0x641db2ce, 0xeebce4cd)
    && Goes(m, 2, 0x4ebf54de, 0x641db2ce, 0x120731c5, 0xeebce4cd, 0xafab40b2, 0x2806e11b, 0x3847ad66, 0x4481cc71)
    && Goes(m, 2, 0x3835b44b, 0x3847ad66, 0x641db2ce, 0x4481cc71, 0xeebce4cd, 0xafab40b2, 0xe490436d, 0x99076cb3)
    && Goes(m, 2, 0x0000f600, 0xe490436d, 0x3847ad66, 0x99076cb3, 0x4481cc71, 0xeebce4cd, 0x27e9f1d8, 0x8e11eb59)
    && Goes(m, 2, 0x1e84c7a3, 0x27e9f1d8, 0xe490436d, 0x8e11eb59, 0x99076cb3, 0x4481cc71, 0x7b71f76d, 0x792410db)
    && Goes(m, 2, 0x98e04d98, 0x7b71f76d, 0x27e9f1d8, 0x792410db, 0x8e11eb59, 0x99076cb3, 0x5e6456af, 0x09fa7c76)
    && Goes(m, 2, 0x651d16a0, 0x5e6456af, 0x7b71f76d, 0x09fa7c76, 0x792410db, 0x8e11eb59, 0xc846093f, 0x5edc7ddb)
    && Goes(m, 2, 0x62658ca1, 0xc846093f, 0x5e6456af, 0x5edc7ddb, 0x09fa7c76, 0x792410db, 0xd262ff50, 0xd79915ab)
    && Goes(m, 2, 0x458544d6, 0xd262ff50, 0xc846093f, 0xd79915ab, 0x5edc7ddb, 0x09fa7c76, 0x09d785fd, 0xf211824f)
    && Goes(m, 2, 0x44584cb7, 0x09d785fd, 0xd262ff50, 0xf211824f, 0xd79915ab, 0x5edc7ddb, 0x3f52de5a, 0x3498bfd4)
  }

  lemma Done6()
    ensures Steps6(STEPS)
  {
  }

  ghost predicate Steps7(m: Macros<word>) {
    && Goes(m, 3, 0x7ba06619, 0x3f52de5a, 0x09d785fd, 0x3498bfd4, 0xf211824f, 0xd79915ab, 0xd756c147, 0x4275e17f)
    && Goes(m, 3, 0x6380aea2, 0xd756c147, 0x3f52de5a, 0x4275e17f, 0x3498bfd4, 0xf211824f, 0x548c9cb2, 0x8fd4b796)
    && Goes(m, 3, 0x0ae55269, 0x548c9cb2, 0xd756c147, 0x8fd4b796, 0x4275e17f, 0x3498bfd4, 0xb66c020b, 0xf5d5b051)
    && Goes(m, 3, 0x627b49a1, 0xb66c020b, 0x548c9cb2, 0xf5d5b051, 0x8fd4b796, 0x4275e17f, 0x6b61c9e1, 0x9523272c)
    && Goes(m, 3, 0x7cd45c9d, 0x6b61c9e1, 0xb66c020b, 0x9523272c, 0xf5d5b051, 0x8fd4b796, 0x19dfa7ac, 0xed9b0082)
    && Goes(m, 3, 0x000f0000, 0x19dfa7ac, 0x6b61c9e1, 0xed9b0082, 0x9523272c, 0xf5d5b051, 0x101655f9, 0x5ad87278)
    && Goes(m, 3, 0xfb50753a, 0x101655f9, 0x19dfa7ac, 0x5ad87278, 0xed9b0082, 0x9523272c, 0x0c3df2b4, 0x0677e9eb)
    && Goes(m, 3, 0xec6765e8, 0x0c3df2b4, 0x101655f9, 0x0677e9eb, 0x5ad87278, 0xed9b0082, 0x78dd4d2b, 0x4405957e)
    && Goes(m, 3, 0xba3c2be2, 0x78dd4d2b, 0x0c3df2b4, 0x4405957e, 0x0677e9eb, 0x5ad87278, 0x497093c0, 0x030f7cad)
    && Goes(m, 3, 0x0060c000, 0x497093c0, 0x78dd4d2b, 0x030f7cad, 0x4405957e, 0x0677e9eb, 0x3f2588c2, 0xde37534a)
  }

  lemma Done7()
    ensures Steps7(STEPS)
  {
  }

  ghost predicate Steps8(m: Macros<word>) {
    && Goes(m, 3, 0x3a37cd05, 0x3f2588c2, 0x497093c0, 0xde37534a, 0x030f7cad, 0x4405957e, 0xc199f8c7, 0x125c24f0)
    && Goes(m, 3, 0x458546f4, 0xc199f8c7, 0x3f2588c2, 0x125c24f0, 0xde37534a, 0x030f7cad, 0x39859de7, 0x8fc96230)
    && Goes(m, 3, 0xb8599dd6, 0x39859de7, 0xc199f8c7, 0x8fc96230, 0x125c24f0, 0xde37534a, 0xedb42de4, 0xf0667e31)
    && Goes(m, 3, 0x380a1a26, 0xedb42de4, 0x39859de7, 0xf0667e31, 0x8fc96230, 0x125c24f0, 0x11793f6f, 0xce616779)
    && Goes(m, 3, 0x01e02203, 0x11793f6f, 0xedb42de4, 0xce616779, 0xf0667e31, 0x8fc96230, 0x5ee76897, 0x3b6d0b79)
    && Goes(m, 3, 0xe7cc3456, 0x5ee76897, 0x11793f6f, 0x3b6d0b79, 0xce616779, 0xf0667e31, 0x63f7dab7, 0xc45e4fdb)
    && Goes(m, 3, 0xe6e60b69, 0x63f7dab7, 0x5ee76897, 0xc45e4fdb, 0x3b6d0b79, 0xce616779, 0xa079b7d9, 0xd7b9da25)
    && Goes(m, 3, 0x00f60a00, 0xa079b7d9, 0x63f7dab7, 0xd7b9da25, 0xc45e4fdb, 0x3b6d0b79, 0x860d21cc, 0xd8fdf6ad)
    && Goes(m, 3, 0x5795ef4f, 0x860d21cc, 0xa079b7d9, 0xd8fdf6ad, 0xd7b9da25, 0xc45e4fdb, 0x5738d5e1, 0x681e6df6)
    && Goes(m, 3, 0x822e0879, 0x5738d5e1, 0x860d21cc, 0x681e6df6, 0xd8fdf6ad, 0xd7b9da25, 0x42541b35, 0x21834873)
  }

  lemma Done8()
    ensures Steps8(STEPS)
  {
  }

  // ---------- the rounds ----------

  ghost predicate FiveSteps<W>(m: Macros<W>, round: nat, w: seq<W>, n: nat, p: Five<W>, q: Five<W>)
    requires n + 5 <= |w|
  {
    q == RolledStep(m, round, w[n + 4], RolledStep(m, round, w[n + 3], RolledStep(m, round, w[n + 2],
           RolledStep(m, round, w[n + 1], RolledStep(m, round, w[n], p)))))
  }

  ghost predicate Ten<W>(m: Macros<W>, round: nat, w: seq<W>, n: nat, p: Five<W>, q: Five<W>, r: Five<W>)
    requires n + 10 <= |w|
  {
    FiveSteps(m, round, w, n, p, q) && FiveSteps(m, round, w, n + 5, q, r)
  }

  lemma Half1(m: Macros<word>)
    requires Steps1(m)
    ensures Ten(m, 0, WORDS, 0, Trace(0), Trace(1), Trace(2))
  {
  }

  lemma Half2(m: Macros<word>)
    requires Steps2(m)
    ensures Ten(m, 0, WORDS, 10, Trace(2), Trace(3), Trace(4))
  {
  }

  lemma Half3(m: Macros<word>)
    requires Steps3(m)
    ensures Ten(m, 1, WORDS, 20, Trace(4), Trace(5), Trace(6))
  {
  }

  lemma Half4(m: Macros<word>)
    requires Steps4(m)
    ensures Ten(m, 1, WORDS, 30, Trace(6), Trace(7), Trace(8))
  {
  }

  lemma Half5(m: Macros<word>)
    requires Steps5(m)
    ensures Ten(m, 2, WORDS, 40, Trace(8), Trace(9), Trace(10))
  {
  }

  lemma Half6(m: Macros<word>)
    requires Steps6(m)
    ensures Ten(m, 2, WORDS, 50, Trace(10), Trace(11), Trace(12))
  {
  }

  lemma Half7(m: Macros<word>)
    requires Steps7(m)
    ensures Ten(m, 3, WORDS, 60, Trace(12), Trace(13), Trace(14))
  {
  }

  lemma Half8(m: Macros<word>)
    requires Steps8(m)
    ensures Ten(m, 3, WORDS, 70, Trace(14), Trace(15), Trace(16))
  {
  }

  lemma TenSteps<W>(m: Macros<W>, round: nat, w: seq<W>, n: nat, a: Five<W>, p: Five<W>, q: Five<W>, r: Five<W>)
    requires n + 10 <= |w| && 20 * round <= n && n + 10 <= 20 * (round + 1)
    requires Rolled(m, w, n, a) == p && Ten(m, round, w, n, p, q, r)
    ensures Rolled(m, w, n + 10, a) == r
  {
    RolledFive(m, w, n, a, round);
    RolledFive(m, w, n + 5, a, round);
  }

  /** All 80 steps, for any macros that take them one by one. */
  lemma Rounds(m: Macros<word>, n: nat)
    requires Steps1(m) && Steps2(m) && Steps3(m) && Steps4(m) && Steps5(m) && Steps6(m) && Steps7(m) && Steps8(m)
    requires n == 80
    ensures Rolled(m, WORDS, n, Trace(0)) == Trace(16)
  {
    Half1(m);
    TenSteps(m, 0, WORDS, 0, Trace(0), Trace(0), Trace(1), Trace(2));
    Half2(m);
    TenSteps(m, 0, WORDS, 10, Trace(0), Trace(2), Trace(3), Trace(4));
    Half3(m);
    TenSteps(m, 1, WORDS, 20, Trace(0), Trace(4), Trace(5), Trace(6));
    Half4(m);
    TenSteps(m, 1, WORDS, 30, Trace(0), Trace(6), Trace(7), Trace(8));
    Half5(m);
    TenSteps(m, 2, WORDS, 40, Trace(0), Trace(8), Trace(9), Trace(10));
    Half6(m);
    TenSteps(m, 2, WORDS, 50, Trace(0), Trace(10), Trace(11), Trace(12));
    Half7(m);
    TenSteps(m, 3, WORDS, 60, Trace(0), Trace(12), Trace(13), Trace(14));
    Half8(m);
    TenSteps(m, 3, WORDS, 70, Trace(0), Trace(14), Trace(15), Trace(16));
  }

  // ---------- the digest ----------

  lemma AbcPadded(block: seq<byte>)
    requires block == Padded(SHA1, ABC)
    ensures |block| == BLOCK && block == [0x61, 0x62, 0x63, 0x80] + Zeros(52) + [0, 0, 0, 0, 0, 0, 0, 24]
  {
  }

  lemma AbcLoads()
    ensures Load32H([0x61, 0x62, 0x63, 0x80]) == 0x61626380
    ensures Load32H([0, 0, 0, 24]) == 24
    ensures Load32H([0, 0, 0, 0]) == 0
  {
  }

  lemma AbcWord(block: seq<byte>, four: seq<byte>, i: nat)
    requires |block| == BLOCK && block == [0x61, 0x62, 0x63, 0x80] + Zeros(52) + [0, 0, 0, 0, 0, 0, 0, 24]
    requires i < 16 && four == block[4 * i..4 * i + 4]
    ensures Load32H(four) == WORDS0[i]
  {
    AbcLoads();
    assert four == if i == 0 then [0x61, 0x62, 0x63, 0x80] else if i == 15 then [0, 0, 0, 24] else [0, 0, 0, 0];
  }

  lemma AbcLoaded(block: seq<byte>)
    requires |block| == BLOCK && block == [0x61, 0x62, 0x63, 0x80] + Zeros(52) + [0, 0, 0, 0, 0, 0, 0, 24]
    ensures Loaded(block) == WORDS0
  {
    forall i | 0 <= i < 16 ensures Loaded(block)[i] == WORDS0[i] {
      AbcWord(block, block[4 * i..4 * i + 4], i);
    }
  }

  lemma AbcStored(r: Regs)
    requires r == Five(0xa9993e36, 0x4706816a, 0xba3e2571, 0x7850c26c, 0x9cd0d89d)
    ensures Store(r) == [0xa9, 0x99, 0x3e, 0x36, 0x47, 0x06, 0x81, 0x6a, 0xba, 0x3e,
                         0x25, 0x71, 0x78, 0x50, 0xc2, 0x6c, 0x9c, 0xd0, 0xd8, 0x9d]
  {
  }

  lemma AbcAdded()
    ensures Add(Trace(0), Trace(16)) == Five(0xa9993e36, 0x4706816a, 0xba3e2571, 0x7850c26c, 0x9cd0d89d)
  {
  }

  lemma AbcRolled(n: nat)
    requires n == 80
    ensures Rolled(STEPS, WORDS, n, Trace(0)) == Trace(16)
  {
    Done1();
    Done2();
    Done3();
    Done4();
    Done5();
    Done6();
    Done7();
    Done8();
    Rounds(STEPS, n);
  }

  lemma AbcCompressed(block: seq<byte>)
    requires |block| == BLOCK && Words(block) == WORDS
    ensures Compress(Trace(0), block) == Five(0xa9993e36, 0x4706816a, 0xba3e2571, 0x7850c26c, 0x9cd0d89d)
  {
    AbcRolled(80);
    AbcAdded();
  }

  /** SHA-1 of "abc" is a9993e364706816aba3e25717850c26c9cd0d89d. */
  lemma AbcDigest()
    ensures Digest(SHA1, ABC) == [0xa9, 0x99, 0x3e, 0x36, 0x47, 0x06, 0x81, 0x6a, 0xba, 0x3e,
                                  0x25, 0x71, 0x78, 0x50, 0xc2, 0x6c, 0x9c, 0xd0, 0xd8, 0x9d]
  {
    var block := Padded(SHA1, ABC);
    AbcPadded(block);
    AbcLoaded(block);
    AbcExpanded(Loaded(block), 80);
    AbcCompressed(block);
    FoldOne(SHA1, SHA1.iv, block);
    AbcStored(Compress(SHA1.iv, block));
  }
}
