/** The digest of "abc" from the test suite of RFC 1321 (section A.5), which ties the constants of MD5, its initial
    value and the order of its bytes. */
module Md5Vector {
  import opened Common
  import opened HashStream
  import opened Words32
  import opened Md5

  const ABC: seq<byte> := [0x61, 0x62, 0x63]

  const ABC_WORDS: seq<word> := [0x80636261, 0, 0, 0, 0, 0, 0, 0, 0, 0, 0, 0, 0, 0, 24, 0]

  /** The registers after every four steps. */
  function Trace(k: nat): Regs {
    if k == 0 then Quad(0x67452301, 0xefcdab89, 0x98badcfe, 0x10325476)
    else if k == 1 then Quad(0xd6d117b4, 0x7ad956f2, 0x2f6fbd72, 0x344a8432)
    else if k == 2 then Quad(0xc73741ef, 0x928d99f6, 0x207dc67b, 0x8bac3051)
    else if k == 3 then Quad(0x854b3712, 0x5ed49596, 0x3020401c, 0x74e2f284)
    else if k == 4 then Quad(0xdda9b9a6, 0x72aff2e0, 0xe396856b, 0xa1051895)
    else if k == 5 then Quad(0x3e9e9126, 0xb5b204e4, 0xe25e1652, 0x4a1d804e)
    else if k == 6 then Quad(0x59a8ffda, 0x47092c07, 0xabfc7920, 0x6d002f1e)
    else if k == 7 then Quad(0xb7f268cf, 0x786acb8f, 0xfe1623b1, 0x09388eff)
    else if k == 8 then Quad(0x790a77fb, 0x726342d3, 0xa62884aa, 0x9f47e4f8)
    else if k == 9 then Quad(0xb3707ebf, 0x3b0875c7, 0x8d212ff5, 0x60127b2e)
    else if k == 10 then Quad(0x21b117b9, 0x5a2f5ea5, 0x3575227e, 0x6e7429d5)
    else if k == 11 then Quad(0x11de1779, 0x4c6124f4, 0x31c465ca, 0xfadcaa38)
    else if k == 12 then Quad(0x7f2e507b, 0x7beb9700, 0x8fae6399, 0x99d9679d)
    else if k == 13 then Quad(0x7b201df8, 0x8bf025c4, 0xb298cefd, 0xf4e8e96e)
    else if k == 14 then Quad(0x06cc5e8a, 0x3bfa2c27, 0x7d632dd0, 0x5b0d97aa)
    else if k == 15 then Quad(0x7f81cc35, 0x7327d604, 0x4f9dbe3f, 0x094454ab)
    else Quad(0x310ade8f, 0xc08226b3, 0xe484b9d8, 0x624d8cb2)
  }

  // ---------- the steps ----------

  predicate Steps1(mix: Macro<Shift, word>) {
    && mix(0, 0x67452301, 0xefcdab89, 0x98badcfe, 0x10325476, 0x80636261, 7, 0xd76aa478) == 0xd6d117b4
    && mix(0, 0x10325476, 0xd6d117b4, 0xefcdab89, 0x98badcfe, 0x0, 12, 0xe8c7b756) == 0x344a8432
    && mix(0, 0x98badcfe, 0x344a8432, 0xd6d117b4, 0xefcdab89, 0x0, 17, 0x242070db) == 0x2f6fbd72
    && mix(0, 0xefcdab89, 0x2f6fbd72, 0x344a8432, 0xd6d117b4, 0x0, 22, 0xc1bdceee) == 0x7ad956f2
    && mix(0, 0xd6d117b4, 0x7ad956f2, 0x2f6fbd72, 0x344a8432, 0x0, 7, 0xf57c0faf) == 0xc73741ef
    && mix(0, 0x344a8432, 0xc73741ef, 0x7ad956f2, 0x2f6fbd72, 0x0, 12, 0x4787c62a) == 0x8bac3051
    && mix(0, 0x2f6fbd72, 0x8bac3051, 0xc73741ef, 0x7ad956f2, 0x0, 17, 0xa8304613) == 0x207dc67b
    && mix(0, 0x7ad956f2, 0x207dc67b, 0x8bac3051, 0xc73741ef, 0x0, 22, 0xfd469501) == 0x928d99f6
    && mix(0, 0xc73741ef, 0x928d99f6, 0x207dc67b, 0x8bac3051, 0x0, 7, 0x698098d8) == 0x854b3712
    && mix(0, 0x8bac3051, 0x854b3712, 0x928d99f6, 0x207dc67b, 0x0, 12, 0x8b44f7af) == 0x74e2f284
    && mix(0, 0x207dc67b, 0x74e2f284, 0x854b3712, 0x928d99f6, 0x0, 17, 0xffff5bb1) == 0x3020401c
    && mix(0, 0x928d99f6, 0x3020401c, 0x74e2f284, 0x854b3712, 0x0, 22, 0x895cd7be) == 0x5ed49596
    && mix(0, 0x854b3712, 0x5ed49596, 0x3020401c, 0x74e2f284, 0x0, 7, 0x6b901122) == 0xdda9b9a6
    && mix(0, 0x74e2f284, 0xdda9b9a6, 0x5ed49596, 0x3020401c, 0x0, 12, 0xfd987193) == 0xa1051895
    && mix(0, 0x3020401c, 0xa1051895, 0xdda9b9a6, 0x5ed49596, 0x18, 17, 0xa679438e) == 0xe396856b
    && mix(0, 0x5ed49596, 0xe396856b, 0xa1051895, 0xdda9b9a6, 0x0, 22, 0x49b40821) == 0x72aff2e0
  }

  lemma Done1()
    ensures Steps1(Step)
  {
  }

  predicate Steps2(mix: Macro<Shift, word>) {
    && mix(1, 0xdda9b9a6, 0x72aff2e0, 0xe396856b, 0xa1051895, 0x0, 5, 0xf61e2562) == 0x3e9e9126
    && mix(1, 0xa1051895, 0x3e9e9126, 0x72aff2e0, 0xe396856b, 0x0, 9, 0xc040b340) == 0x4a1d804e
    && mix(1, 0xe396856b, 0x4a1d804e, 0x3e9e9126, 0x72aff2e0, 0x0, 14, 0x265e5a51) == 0xe25e1652
    && mix(1, 0x72aff2e0, 0xe25e1652, 0x4a1d804e, 0x3e9e9126, 0x80636261, 20, 0xe9b6c7aa) == 0xb5b204e4
    && mix(1, 0x3e9e9126, 0xb5b204e4, 0xe25e1652, 0x4a1d804e, 0x0, 5, 0xd62f105d) == 0x59a8ffda
    && mix(1, 0x4a1d804e, 0x59a8ffda, 0xb5b204e4, 0xe25e1652, 0x0, 9, 0x02441453) == 0x6d002f1e
    && mix(1, 0xe25e1652, 0x6d002f1e, 0x59a8ffda, 0xb5b204e4, 0x0, 14, 0xd8a1e681) == 0xabfc7920
    && mix(1, 0xb5b204e4, 0xabfc7920, 0x6d002f1e, 0x59a8ffda, 0x0, 20, 0xe7d3fbc8) == 0x47092c07
    && mix(1, 0x59a8ffda, 0x47092c07, 0xabfc7920, 0x6d002f1e, 0x0, 5, 0x21e1cde6) == 0xb7f268cf
    && mix(1, 0x6d002f1e, 0xb7f268cf, 0x47092c07, 0xabfc7920, 0x18, 9, 0xc33707d6) == 0x09388eff
    && mix(1, 0xabfc7920, 0x09388eff, 0xb7f268cf, 0x47092c07, 0x0, 14, 0xf4d50d87) == 0xfe1623b1
    && mix(1, 0x47092c07, 0xfe1623b1, 0x09388eff, 0xb7f268cf, 0x0, 20, 0x455a14ed) == 0x786acb8f
    && mix(1, 0xb7f268cf, 0x786acb8f, 0xfe1623b1, 0x09388eff, 0x0, 5, 0xa9e3e905) == 0x790a77fb
    && mix(1, 0x09388eff, 0x790a77fb, 0x786acb8f, 0xfe1623b1, 0x0, 9, 0xfcefa3f8) == 0x9f47e4f8
    && mix(1, 0xfe1623b1, 0x9f47e4f8, 0x790a77fb, 0x786acb8f, 0x0, 14, 0x676f02d9) == 0xa62884aa
    && mix(1, 0x786acb8f, 0xa62884aa, 0x9f47e4f8, 0x790a77fb, 0x0, 20, 0x8d2a4c8a) == 0x726342d3
  }

  lemma Done2()
    ensures Steps2(Step)
  {
  }

  predicate Steps3(mix: Macro<Shift, word>) {
    && mix(2, 0x790a77fb, 0x726342d3, 0xa62884aa, 0x9f47e4f8, 0x0, 4, 0xfffa3942) == 0xb3707ebf
    && mix(2, 0x9f47e4f8, 0xb3707ebf, 0x726342d3, 0xa62884aa, 0x0, 11, 0x8771f681) == 0x60127b2e
    && mix(2, 0xa62884aa, 0x60127b2e, 0xb3707ebf, 0x726342d3, 0x0, 16, 0x6d9d6122) == 0x8d212ff5
    && mix(2, 0x726342d3, 0x8d212ff5, 0x60127b2e, 0xb3707ebf, 0x18, 23, 0xfde5380c) == 0x3b0875c7
    && mix(2, 0xb3707ebf, 0x3b0875c7, 0x8d212ff5, 0x60127b2e, 0x0, 4, 0xa4beea44) == 0x21b117b9
    && mix(2, 0x60127b2e, 0x21b117b9, 0x3b0875c7, 0x8d212ff5, 0x0, 11, 0x4bdecfa9) == 0x6e7429d5
    && mix(2, 0x8d212ff5, 0x6e7429d5, 0x21b117b9, 0x3b0875c7, 0x0, 16, 0xf6bb4b60) == 0x3575227e
    && mix(2, 0x3b0875c7, 0x3575227e, 0x6e7429d5, 0x21b117b9, 0x0, 23, 0xbebfbc70) == 0x5a2f5ea5
    && mix(2, 0x21b117b9, 0x5a2f5ea5, 0x3575227e, 0x6e7429d5, 0x0, 4, 0x289b7ec6) == 0x11de1779
    && mix(2, 0x6e7429d5, 0x11de1779, 0x5a2f5ea5, 0x3575227e, 0x80636261, 11, 0xeaa127fa) == 0xfadcaa38
    && mix(2, 0x3575227e, 0xfadcaa38, 0x11de1779, 0x5a2f5ea5, 0x0, 16, 0xd4ef3085) == 0x31c465ca
    && mix(2, 0x5a2f5ea5, 0x31c465ca, 0xfadcaa38, 0x11de1779, 0x0, 23, 0x04881d05) == 0x4c6124f4
    && mix(2, 0x11de1779, 0x4c6124f4, 0x31c465ca, 0xfadcaa38, 0x0, 4, 0xd9d4d039) == 0x7f2e507b
    && mix(2, 0xfadcaa38, 0x7f2e507b, 0x4c6124f4, 0x31c465ca, 0x0, 11, 0xe6db99e5) == 0x99d9679d
    && mix(2, 0x31c465ca, 0x99d9679d, 0x7f2e507b, 0x4c6124f4, 0x0, 16, 0x1fa27cf8) == 0x8fae6399
    && mix(2, 0x4c6124f4, 0x8fae6399, 0x99d9679d, 0x7f2e507b, 0x0, 23, 0xc4ac5665) == 0x7beb9700
  }

  lemma Done3()
    ensures Steps3(Step)
  {
  }

  predicate Steps4(mix: Macro<Shift, word>) {
    && mix(3, 0x7f2e507b, 0x7beb9700, 0x8fae6399, 0x99d9679d, 0x80636261, 6, 0xf4292244) == 0x7b201df8
    && mix(3, 0x99d9679d, 0x7b201df8, 0x7beb9700, 0x8fae6399, 0x0, 10, 0x432aff97) == 0xf4e8e96e
    && mix(3, 0x8fae6399, 0xf4e8e96e, 0x7b201df8, 0x7beb9700, 0x18, 15, 0xab9423a7) == 0xb298cefd
    && mix(3, 0x7beb9700, 0xb298cefd, 0xf4e8e96e, 0x7b201df8, 0x0, 21, 0xfc93a039) == 0x8bf025c4
    && mix(3, 0x7b201df8, 0x8bf025c4, 0xb298cefd, 0xf4e8e96e, 0x0, 6, 0x655b59c3) == 0x06cc5e8a
    && mix(3, 0xf4e8e96e, 0x06cc5e8a, 0x8bf025c4, 0xb298cefd, 0x0, 10, 0x8f0ccc92) == 0x5b0d97aa
    && mix(3, 0xb298cefd, 0x5b0d97aa, 0x06cc5e8a, 0x8bf025c4, 0x0, 15, 0xffeff47d) == 0x7d632dd0
    && mix(3, 0x8bf025c4, 0x7d632dd0, 0x5b0d97aa, 0x06cc5e8a, 0x0, 21, 0x85845dd1) == 0x3bfa2c27
    && mix(3, 0x06cc5e8a, 0x3bfa2c27, 0x7d632dd0, 0x5b0d97aa, 0x0, 6, 0x6fa87e4f) == 0x7f81cc35
    && mix(3, 0x5b0d97aa, 0x7f81cc35, 0x3bfa2c27, 0x7d632dd0, 0x0, 10, 0xfe2ce6e0) == 0x094454ab
    && mix(3, 0x7d632dd0, 0x094454ab, 0x7f81cc35, 0x3bfa2c27, 0x0, 15, 0xa3014314) == 0x4f9dbe3f
    && mix(3, 0x3bfa2c27, 0x4f9dbe3f, 0x094454ab, 0x7f81cc35, 0x0, 21, 0x4e0811a1) == 0x7327d604
    && mix(3, 0x7f81cc35, 0x7327d604, 0x4f9dbe3f, 0x094454ab, 0x0, 6, 0xf7537e82) == 0x310ade8f
    && mix(3, 0x094454ab, 0x310ade8f, 0x7327d604, 0x4f9dbe3f, 0x0, 10, 0xbd3af235) == 0x624d8cb2
    && mix(3, 0x4f9dbe3f, 0x624d8cb2, 0x310ade8f, 0x7327d604, 0x0, 15, 0x2ad7d2bb) == 0xe484b9d8
    && mix(3, 0x7327d604, 0xe484b9d8, 0x624d8cb2, 0x310ade8f, 0x0, 21, 0xeb86d391) == 0xc08226b3
  }

  lemma Done4()
    ensures Steps4(Step)
  {
  }

  // ---------- the rounds ----------

  /** Four lines of a round. */
  ghost predicate Four<S, W>(mix: Macro<S, W>, l: seq<Line<S, W>>, i: nat, round: nat, x: seq<W>,
                             p: Quad<W>, q: Quad<W>)
    requires |x| == 16 && i + 4 <= |l|
  {
    && q.a == mix(round, p.a, p.b, p.c, p.d, x[l[i].w], l[i].s, l[i].k)
    && q.d == mix(round, p.d, q.a, p.b, p.c, x[l[i + 1].w], l[i + 1].s, l[i + 1].k)
    && q.c == mix(round, p.c, q.d, q.a, p.b, x[l[i + 2].w], l[i + 2].s, l[i + 2].k)
    && q.b == mix(round, p.b, q.c, q.d, q.a, x[l[i + 3].w], l[i + 3].s, l[i + 3].k)
  }

  lemma FourSteps<S, W>(mix: Macro<S, W>, lines: seq<Line<S, W>>, l: seq<Line<S, W>>, i: nat, round: nat, x: seq<W>,
                        r: Quad<W>, p: Quad<W>, q: Quad<W>)
    requires |lines| == 64 && |x| == |l| == 16 && i + 4 <= 16 && round < 4 && l == lines[16 * round..16 * round + 16]
    requires Rolled(mix, lines, x, 16 * round + i, r) == p && Four(mix, l, i, round, x, p, q)
    ensures Rolled(mix, lines, x, 16 * round + i + 4, r) == q
  {
    var n := 16 * round + i;
    RolledNext(mix, lines, x, n, r, round);
    RolledNext(mix, lines, x, n + 1, r, round);
    RolledNext(mix, lines, x, n + 2, r, round);
    RolledNext(mix, lines, x, n + 3, r, round);
  }

  ghost predicate Sixteen<S, W>(mix: Macro<S, W>, l: seq<Line<S, W>>, round: nat, x: seq<W>,
                          p: Quad<W>, q: Quad<W>, r: Quad<W>, s: Quad<W>, t: Quad<W>)
    requires |x| == |l| == 16
  {
    && Four(mix, l, 0, round, x, p, q) && Four(mix, l, 4, round, x, q, r)
    && Four(mix, l, 8, round, x, r, s) && Four(mix, l, 12, round, x, s, t)
  }

  lemma Round1(mix: Macro<Shift, word>)
    requires Steps1(mix)
    ensures Sixteen(mix, SCHEDULE1, 0, ABC_WORDS, Trace(0), Trace(1), Trace(2), Trace(3), Trace(4))
  {
  }

  lemma Round2(mix: Macro<Shift, word>)
    requires Steps2(mix)
    ensures Sixteen(mix, SCHEDULE2, 1, ABC_WORDS, Trace(4), Trace(5), Trace(6), Trace(7), Trace(8))
  {
  }

  lemma Round3(mix: Macro<Shift, word>)
    requires Steps3(mix)
    ensures Sixteen(mix, SCHEDULE3, 2, ABC_WORDS, Trace(8), Trace(9), Trace(10), Trace(11), Trace(12))
  {
  }

  lemma Round4(mix: Macro<Shift, word>)
    requires Steps4(mix)
    ensures Sixteen(mix, SCHEDULE4, 3, ABC_WORDS, Trace(12), Trace(13), Trace(14), Trace(15), Trace(16))
  {
  }

  lemma RoundSteps<S, W>(mix: Macro<S, W>, lines: seq<Line<S, W>>, l: seq<Line<S, W>>, round: nat, x: seq<W>,
                         a: Quad<W>, p: Quad<W>, q: Quad<W>, r: Quad<W>, s: Quad<W>, t: Quad<W>)
    requires |lines| == 64 && |x| == |l| == 16 && round < 4 && l == lines[16 * round..16 * round + 16]
    requires Rolled(mix, lines, x, 16 * round, a) == p && Sixteen(mix, l, round, x, p, q, r, s, t)
    ensures Rolled(mix, lines, x, 16 * round + 16, a) == t
  {
    FourSteps(mix, lines, l, 0, round, x, a, p, q);
    FourSteps(mix, lines, l, 4, round, x, a, q, r);
    FourSteps(mix, lines, l, 8, round, x, a, r, s);
    FourSteps(mix, lines, l, 12, round, x, a, s, t);
  }

  lemma Slices<T>(a: seq<T>, b: seq<T>, c: seq<T>, d: seq<T>)
    requires |a| == |b| == |c| == |d| == 16
    ensures (a + b + c + d)[0..16] == a && (a + b + c + d)[16..32] == b
    ensures (a + b + c + d)[32..48] == c && (a + b + c + d)[48..64] == d
  {
  }

  /** All 64 steps, for any macro that takes them one by one. */
  lemma Rounds(mix: Macro<Shift, word>, lines: seq<Line<Shift, word>>, n: nat)
    requires lines == SCHEDULE1 + SCHEDULE2 + SCHEDULE3 + SCHEDULE4 && n == 64
    requires Steps1(mix) && Steps2(mix) && Steps3(mix) && Steps4(mix)
    ensures Rolled(mix, lines, ABC_WORDS, n, Trace(0)) == Trace(16)
  {
    Slices(SCHEDULE1, SCHEDULE2, SCHEDULE3, SCHEDULE4);
    Round1(mix);
    RoundSteps(mix, lines, SCHEDULE1, 0, ABC_WORDS, Trace(0), Trace(0), Trace(1), Trace(2), Trace(3), Trace(4));
    Round2(mix);
    RoundSteps(mix, lines, SCHEDULE2, 1, ABC_WORDS, Trace(0), Trace(4), Trace(5), Trace(6), Trace(7), Trace(8));
    Round3(mix);
    RoundSteps(mix, lines, SCHEDULE3, 2, ABC_WORDS, Trace(0), Trace(8), Trace(9), Trace(10), Trace(11), Trace(12));
    Round4(mix);
    RoundSteps(mix, lines, SCHEDULE4, 3, ABC_WORDS, Trace(0), Trace(12), Trace(13), Trace(14), Trace(15), Trace(16));
  }

  // ---------- the digest ----------

  lemma AbcPadded(block: seq<byte>)
    requires block == Padded(MD5, ABC)
    ensures |block| == BLOCK && block == [0x61, 0x62, 0x63, 0x80] + Zeros(52) + [24, 0, 0, 0, 0, 0, 0, 0]
  {
  }

  lemma AbcLoads()
    ensures Load32L([0x61, 0x62, 0x63, 0x80]) == 0x80636261
    ensures Load32L([24, 0, 0, 0]) == 24
    ensures Load32L([0, 0, 0, 0]) == 0
  {
  }

  lemma AbcWord(block: seq<byte>, four: seq<byte>, i: nat)
    requires |block| == BLOCK && block == [0x61, 0x62, 0x63, 0x80] + Zeros(52) + [24, 0, 0, 0, 0, 0, 0, 0]
    requires i < 16 && four == block[4 * i..4 * i + 4]
    ensures Load32L(four) == ABC_WORDS[i]
  {
    AbcLoads();
    assert four == if i == 0 then [0x61, 0x62, 0x63, 0x80] else if i == 14 then [24, 0, 0, 0] else [0, 0, 0, 0];
  }

  lemma AbcWords(block: seq<byte>)
    requires |block| == BLOCK && block == [0x61, 0x62, 0x63, 0x80] + Zeros(52) + [24, 0, 0, 0, 0, 0, 0, 0]
    ensures Words(block) == ABC_WORDS
  {
    forall i | 0 <= i < 16 ensures Words(block)[i] == ABC_WORDS[i] {
      AbcWord(block, block[4 * i..4 * i + 4], i);
    }
  }

  lemma AbcStored(r: Regs)
    requires r == Quad(0x98500190, 0xb04fd23c, 0x7d3f96d6, 0x727fe128)
    ensures Store(r) == [0x90, 0x01, 0x50, 0x98, 0x3c, 0xd2, 0x4f, 0xb0, 0xd6, 0x96, 0x3f, 0x7d, 0x28, 0xe1, 0x7f, 0x72]
  {
  }

  lemma AbcAdded()
    ensures Add(Trace(0), Trace(16)) == Quad(0x98500190, 0xb04fd23c, 0x7d3f96d6, 0x727fe128)
  {
  }

  lemma AbcRolled(lines: seq<Line<Shift, word>>, n: nat)
    requires lines == TableLines() && n == 64
    ensures |lines| == 64 && Rolled(Step, lines, ABC_WORDS, n, Trace(0)) == Trace(16)
  {
    ScheduleIsTables();
    Done1();
    Done2();
    Done3();
    Done4();
    Rounds(Step, lines, n);
  }

  lemma AbcCompressed(block: seq<byte>)
    requires |block| == BLOCK && Words(block) == ABC_WORDS
    ensures Compress(Trace(0), block) == Quad(0x98500190, 0xb04fd23c, 0x7d3f96d6, 0x727fe128)
  {
    AbcRolled(TableLines(), 64);
    AbcAdded();
  }

  /** MD5 of "abc" is 900150983cd24fb0d6963f7d28e17f72. */
  lemma AbcDigest()
    ensures Digest(MD5, ABC) == [0x90, 0x01, 0x50, 0x98, 0x3c, 0xd2, 0x4f, 0xb0,
                                 0xd6, 0x96, 0x3f, 0x7d, 0x28, 0xe1, 0x7f, 0x72]
  {
    var block := Padded(MD5, ABC);
    AbcPadded(block);
    AbcWords(block);
    AbcCompressed(block);
    FoldOne(MD5, MD5.iv, block);
    AbcStored(Compress(MD5.iv, block));
  }
}
