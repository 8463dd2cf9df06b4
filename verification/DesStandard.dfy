/** The block cipher of FIPS 46-3, round by round on its own halves, and that the code computes it. */
module DesStandard {
  import opened Feistel
  import opened DesTables
  import opened DesBoxes
  import opened Des

  // ---------- the cipher function ----------

  /** What enters each box: the four bits of R at its place, one neighbour on each side, and the six
      bits of K for it. K has 48 bits, in two words of 24. */
  function In1(r: word, k: Pair): word { (((r << 5) | (r >> 27)) & 0x3f) ^ ((k.l >> 18) & 0x3f) }
  function In2(r: word, k: Pair): word { ((r >> 23) & 0x3f) ^ ((k.l >> 12) & 0x3f) }
  function In3(r: word, k: Pair): word { ((r >> 19) & 0x3f) ^ ((k.l >> 6) & 0x3f) }
  function In4(r: word, k: Pair): word { ((r >> 15) & 0x3f) ^ (k.l & 0x3f) }
  function In5(r: word, k: Pair): word { ((r >> 11) & 0x3f) ^ ((k.r >> 18) & 0x3f) }
  function In6(r: word, k: Pair): word { ((r >> 7) & 0x3f) ^ ((k.r >> 12) & 0x3f) }
  function In7(r: word, k: Pair): word { ((r >> 3) & 0x3f) ^ ((k.r >> 6) & 0x3f) }
  function In8(r: word, k: Pair): word { (((r << 1) | (r >> 31)) & 0x3f) ^ (k.r & 0x3f) }

  /** The output of a substitution box for six bits. */
  function Sbox(b: Box, six: word): Nibble
    requires |b.r0| == |b.r1| == |b.r2| == |b.r3| == 16
  {
    Output(b, (six & 0x3f) as int)
  }

  function Concat8(a: word, b: word, c: word, d: word, e: word, f: word, g: word, h: word): word {
    (a << 28) | (b << 24) | (c << 20) | (d << 16) | (e << 12) | (f << 8) | (g << 4) | h
  }

  /** f(R, K) of FIPS 46-3. */
  function StandardF(r: word, k: Pair): word {
    Permuted(Concat8(Sbox(S1, In1(r, k)), Sbox(S2, In2(r, k)), Sbox(S3, In3(r, k)), Sbox(S4, In4(r, k)),
                     Sbox(S5, In5(r, k)), Sbox(S6, In6(r, k)), Sbox(S7, In7(r, k)), Sbox(S8, In8(r, k))))
  }

  // ---------- the code's round function ----------

  /** The code's index into each table is the input of that box. */
  lemma OddIndexes(r: word, k: Pair)
    ensures var x := Xor(Ror4(Rol1(r)), Cooked(k).l);
            && (x >> 24) & 0x3f == In1(r, k) && (x >> 16) & 0x3f == In3(r, k)
            && (x >> 8) & 0x3f == In5(r, k) && x & 0x3f == In7(r, k)
  {
  }

  lemma EvenIndexes(r: word, k: Pair)
    ensures var x := Xor(Rol1(r), Cooked(k).r);
            && (x >> 24) & 0x3f == In2(r, k) && (x >> 16) & 0x3f == In4(r, k)
            && (x >> 8) & 0x3f == In6(r, k) && x & 0x3f == In8(r, k)
  {
  }

  lemma Look1(i: word, six: word)
    requires i & 0x3f == six
    ensures At(SP1, i) == Place1(Sbox(S1, six))
  {
    Entry1((six & 0x3f) as int);
  }

  lemma Look2(i: word, six: word)
    requires i & 0x3f == six
    ensures At(SP2, i) == Place2(Sbox(S2, six))
  {
    Entry2((six & 0x3f) as int);
  }

  lemma Look3(i: word, six: word)
    requires i & 0x3f == six
    ensures At(SP3, i) == Place3(Sbox(S3, six))
  {
    Entry3((six & 0x3f) as int);
  }

  lemma Look4(i: word, six: word)
    requires i & 0x3f == six
    ensures At(SP4, i) == Place4(Sbox(S4, six))
  {
    Entry4((six & 0x3f) as int);
  }

  lemma Look5(i: word, six: word)
    requires i & 0x3f == six
    ensures At(SP5, i) == Place5(Sbox(S5, six))
  {
    Entry5((six & 0x3f) as int);
  }

  lemma Look6(i: word, six: word)
    requires i & 0x3f == six
    ensures At(SP6, i) == Place6(Sbox(S6, six))
  {
    Entry6((six & 0x3f) as int);
  }

  lemma Look7(i: word, six: word)
    requires i & 0x3f == six
    ensures At(SP7, i) == Place7(Sbox(S7, six))
  {
    Entry7((six & 0x3f) as int);
  }

  lemma Look8(i: word, six: word)
    requires i & 0x3f == six
    ensures At(SP8, i) == Place8(Sbox(S8, six))
  {
    Entry8((six & 0x3f) as int);
  }

  lemma OddLook(x: word, i1: word, i3: word, i5: word, i7: word)
    requires (x >> 24) & 0x3f == i1 && (x >> 16) & 0x3f == i3 && (x >> 8) & 0x3f == i5 && x & 0x3f == i7
    ensures OddBoxes(x) == Xor4(Place7(Sbox(S7, i7)), Place5(Sbox(S5, i5)), Place3(Sbox(S3, i3)),
        Place1(Sbox(S1, i1)))
    ensures Sbox(S1, i1) <= 15 && Sbox(S3, i3) <= 15 && Sbox(S5, i5) <= 15 && Sbox(S7, i7) <= 15
  {
    Look1(x >> 24, i1);
    Look3(x >> 16, i3);
    Look5(x >> 8, i5);
    Look7(x, i7);
  }

  lemma EvenLook(x: word, i2: word, i4: word, i6: word, i8: word)
    requires (x >> 24) & 0x3f == i2 && (x >> 16) & 0x3f == i4 && (x >> 8) & 0x3f == i6 && x & 0x3f == i8
    ensures EvenBoxes(x)
        == Xor4(Place8(Sbox(S8, i8)), Place6(Sbox(S6, i6)), Place4(Sbox(S4, i4)), Place2(Sbox(S2, i2)))
    ensures Sbox(S2, i2) <= 15 && Sbox(S4, i4) <= 15 && Sbox(S6, i6) <= 15 && Sbox(S8, i8) <= 15
  {
    Look2(x >> 24, i2);
    Look4(x >> 16, i4);
    Look6(x >> 8, i6);
    Look8(x, i8);
  }

  lemma PlacesAdd(a: word, b: word, c: word, d: word, e: word, f: word, g: word, h: word)
    requires a <= 15 && b <= 15 && c <= 15 && d <= 15 && e <= 15 && f <= 15 && g <= 15 && h <= 15
    ensures Rol1(Permuted(Concat8(a, b, c, d, e, f, g, h)))
         == Xor(Xor4(Place7(g), Place5(e), Place3(c), Place1(a)), Xor4(Place8(h), Place6(f), Place4(d), Place2(b)))
  {
  }

  /** On a half kept rotated by one, with the cooked key, the code computes f(R, K), rotated by one. */
  lemma RoundIsStandard(r: word, k: Pair)
    ensures RoundFunction(Rol1(r), Cooked(k)) == Rol1(StandardF(r, k))
  {
    var a, b, c, d := Sbox(S1, In1(r, k)), Sbox(S2, In2(r, k)), Sbox(S3, In3(r, k)), Sbox(S4, In4(r, k));
    var e, f, g, h := Sbox(S5, In5(r, k)), Sbox(S6, In6(r, k)), Sbox(S7, In7(r, k)), Sbox(S8, In8(r, k));
    OddIndexes(r, k);
    OddLook(Xor(Ror4(Rol1(r)), Cooked(k).l), In1(r, k), In3(r, k), In5(r, k), In7(r, k));
    EvenIndexes(r, k);
    EvenLook(Xor(Rol1(r), Cooked(k).r), In2(r, k), In4(r, k), In6(r, k), In8(r, k));
    PlacesAdd(a, b, c, d, e, f, g, h);
  }

  // ---------- the whole cipher ----------

  const STANDARD: Cipher<word, Pair> := Cipher(Xor, StandardF)

  lemma RotateAdds(x: word, y: word)
    ensures Rol1(Xor(x, y)) == Xor(Rol1(x), Rol1(y))
  {
  }

  /** One half-round of the code, on rotated halves, is one of the standard. */
  lemma HalfIsStandard(l: word, r: word, k: Pair)
    ensures DES.add(Rol1(l), DES.f(Rol1(r), Cooked(k))) == Rol1(STANDARD.add(l, STANDARD.f(r, k)))
  {
    RoundIsStandard(r, k);
    RotateAdds(l, StandardF(r, k));
  }

  function Rotated(h: Halves<word>): Halves<word> { Halves(Rol1(h.l), Rol1(h.r)) }

  lemma TwoAreStandard(k1: Pair, k2: Pair, h: Halves<word>)
    ensures TwoRounds(DES, Cooked(k1), Cooked(k2), Rotated(h)) == Rotated(TwoRounds(STANDARD, k1, k2, h))
  {
    HalfIsStandard(h.l, h.r, k1);
    HalfIsStandard(h.r, STANDARD.add(h.l, STANDARD.f(h.r, k1)), k2);
  }

  lemma {:induction false} PairsAreStandard(raw: seq<Pair>, keys: seq<Pair>, n: nat, h: Halves<word>)
    requires 2 * n <= |raw| && Mapped(Cooked, raw, keys)
    ensures Rounds(DES, keys, n, Rotated(h)) == Rotated(Rounds(STANDARD, raw, n, h))
  {
    if n > 0 {
      PairsAreStandard(raw, keys, n - 1, h);
      TwoAreStandard(raw[2 * n - 2], raw[2 * n - 1], Rounds(STANDARD, raw, n - 1, h));
    }
  }

  lemma OrderedIsCooked(raw: seq<Pair>)
    requires |raw| == 16
    ensures Mapped(Cooked, raw, Ordered(raw, EN0))
  {
  }

  lemma LadderIsStandard(raw: seq<Pair>, keys: seq<Pair>, n: nat, h: Halves<word>)
    requires 2 * n == |raw| && Mapped(Cooked, raw, keys)
    ensures Rounds(DES, keys, n, Rotated(h)) == Rotated(Ladder(STANDARD, raw, |raw|, h))
  {
    LadderPairs(STANDARD, raw, n, h);
    PairsAreStandard(raw, keys, n, h);
  }

  /** The code's sixteen rounds on rotated halves are those of the standard. */
  lemma RoundsAreStandard(raw: seq<Pair>, keys: seq<Pair>, h: Halves<word>)
    requires |raw| == 16 && Mapped(Cooked, raw, keys)
    ensures AllRounds(AsPair(Rotated(h)), keys) == AsPair(Rotated(Ladder(STANDARD, raw, |raw|, h)))
  {
    LadderIsStandard(raw, keys, |keys| / 2, h);
    ThereAndBack(Rotated(h));
  }

  lemma RotateInjective(x: word, y: word)
    ensures Rol1(x) == Rol1(y) ==> x == y
  {
  }

  /** For every block and every sixteen raw keys, desfunc computes the enciphering of FIPS 46-3: the
      initial permutation of its result is R16 L16. */
  lemma DesfuncIsStandard(block: Pair, raw: seq<Pair>)
    requires |raw| == 16
    ensures var ip := StandardIP(block);
            var q := Ladder(STANDARD, raw, |raw|, Halves(ip.l, ip.r));
            StandardIP(Desfunc(block, Ordered(raw, EN0))) == Pair(q.r, q.l)
  {
    var ip, keys := StandardIP(block), Ordered(raw, EN0);
    var q := Ladder(STANDARD, raw, |raw|, Halves(ip.l, ip.r));
    InitialIsStandard(block);
    OrderedIsCooked(raw);
    RoundsAreStandard(raw, keys, Halves(ip.l, ip.r));
    var out := Desfunc(block, keys);
    FinalThenInitial(AllRounds(InitialNetwork(block), keys));
    InitialIsStandard(out);
    RotateInjective(StandardIP(out).l, q.r);
    RotateInjective(StandardIP(out).r, q.l);
  }

  /** The initial permutation loses nothing, so its value determines the block. */
  lemma StandardIPInjective(a: Pair, b: Pair)
    requires StandardIP(a) == StandardIP(b)
    ensures a == b
  {
    InitialIsStandard(a);
    InitialIsStandard(b);
    InitialThenFinal(a);
    InitialThenFinal(b);
  }

  /** So the result is the ciphertext of the standard: the one block whose initial permutation is R16 L16. */
  lemma DesfuncIsCiphertext(block: Pair, raw: seq<Pair>, out: Pair)
    requires |raw| == 16
    ensures var ip := StandardIP(block);
            var q := Ladder(STANDARD, raw, |raw|, Halves(ip.l, ip.r));
            StandardIP(out) == Pair(q.r, q.l) <==> out == Desfunc(block, Ordered(raw, EN0))
  {
    DesfuncIsStandard(block, raw);
    var result := Desfunc(block, Ordered(raw, EN0));
    if StandardIP(out) == StandardIP(result) {
      StandardIPInjective(out, result);
    }
  }
}
