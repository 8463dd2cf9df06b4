/** SHA-1 as section 6.1 of RFC 3174 states it, and that both compressions compute it. */
module Sha1Rfc {
  import opened Common
  import opened HashStream
  import opened Words32
  import opened Sha1

  // ---------- f(t; B, C, D) and K(t), section 5 ----------

  function Choice(b: word, c: word, d: word): word { (b & c) | (!b & d) }
  function Parity(b: word, c: word, d: word): word { b ^ c ^ d }
  function Majority(b: word, c: word, d: word): word { (b & c) | (b & d) | (c & d) }

  function Function(t: nat, b: word, c: word, d: word): word {
    if t <= 19 then Choice(b, c, d)
    else if t <= 39 then Parity(b, c, d)
    else if t <= 59 then Majority(b, c, d)
    else Parity(b, c, d)
  }

  function K(t: nat): word {
    if t <= 19 then 0x5A827999 else if t <= 39 then 0x6ED9EBA1 else if t <= 59 then 0x8F1BBCDC else 0xCA62C1D6
  }

  /** On any bits `m`: F0 is the second word where the first is set and the third where it is not; F1 the first, changed
      where the others differ; F2 what two of the three are. */
  lemma F0WhereSet(x: word, y: word, z: word, m: word)
    requires x & m == m
    ensures F0(x, y, z) & m == y & m
  {
  }

  lemma F0Elsewhere(x: word, y: word, z: word, m: word)
    requires x & m == 0
    ensures F0(x, y, z) & m == z & m
  {
  }

  lemma F1WhereEqual(x: word, y: word, z: word, m: word)
    requires y & m == z & m
    ensures F1(x, y, z) & m == x & m
  {
  }

  lemma F1WhereDifferent(x: word, y: word, z: word, m: word)
    requires y & m == !z & m
    ensures F1(x, y, z) & m == !x & m
  {
  }

  lemma F2FirstTwo(x: word, y: word, z: word, m: word)
    requires x & m == y & m
    ensures F2(x, y, z) & m == x & m
  {
  }

  lemma F2FirstAndLast(x: word, y: word, z: word, m: word)
    requires x & m == z & m
    ensures F2(x, y, z) & m == x & m
  {
  }

  lemma F2LastTwo(x: word, y: word, z: word, m: word)
    requires y & m == z & m
    ensures F2(x, y, z) & m == y & m
  {
  }

  lemma ShortF0(x: word, y: word, z: word)
    ensures z ^ (x & (y ^ z)) == (x & y) | (!x & z)
  {
  }

  lemma ShortF2(x: word, y: word, z: word)
    ensures (x & y) | (z & (x | y)) == (x & y) | (x & z) | (y & z)
  {
  }

  /** The macros of the four rounds are the functions of the RFC. */
  lemma F0IsRfc(x: word, y: word, z: word)
    ensures F0(x, y, z) == Choice(x, y, z)
  {
    ShortF0(x, y, z);
  }

  lemma F1IsRfc(x: word, y: word, z: word)
    ensures F1(x, y, z) == Parity(x, y, z)
  {
  }

  lemma F2IsRfc(x: word, y: word, z: word)
    ensures F2(x, y, z) == Majority(x, y, z)
  {
    ShortF2(x, y, z);
  }

  lemma F3IsRfc(x: word, y: word, z: word)
    ensures F3(x, y, z) == Parity(x, y, z)
  {
  }

  // ---------- the words W(t) ----------

  function W(block: seq<byte>, t: nat): word
    requires |block| == BLOCK
  {
    if t < 16 then Number(Wide(block[4 * t]), Wide(block[4 * t + 1]), Wide(block[4 * t + 2]), Wide(block[4 * t + 3]))
    else Turned(Xor4(W(block, t - 3), W(block, t - 8), W(block, t - 14), W(block, t - 16)), 1)
  }

  lemma FirstWord(block: seq<byte>, t: nat)
    requires |block| == BLOCK && t < 16
    ensures Loaded(block)[t] == W(block, t)
  {
    BigIsNumber(block[4 * t..4 * t + 4]);
  }

  lemma NextIsRfc(x: word, y: word, z: word, u: word)
    ensures NextWord(x, y, z, u) == Turned(Xor4(x, y, z, u), 1)
  {
    RolIsTurned(Xor4(x, y, z, u), 1);
  }

  ghost predicate Made<T>(next: (T, T, T, T) -> T, v: seq<T>, t: nat)
    requires 16 <= t < |v|
  {
    v[t] == next(v[t - 3], v[t - 8], v[t - 14], v[t - 16])
  }

  /** The expansion is the only sequence that begins with the given words and goes on by the rule. */
  lemma {:induction false} ExpandedIs<T>(next: (T, T, T, T) -> T, v: seq<T>, n: nat)
    requires 16 <= n <= |v|
    requires forall t :: 16 <= t < |v| ==> Made(next, v, t)
    ensures Expanded(next, v[..16], n) == v[..n]
  {
    if n > 16 {
      ExpandedIs(next, v, n - 1);
      assert Made(next, v, n - 1);
      assert v[..n] == v[..n - 1] + [v[n - 1]];
    }
  }

  lemma FirstWords(block: seq<byte>, v: seq<word>)
    requires |block| == BLOCK && v == seq(80, t requires 0 <= t < 80 => W(block, t))
    ensures v[..16] == Loaded(block)
  {
    forall t | 0 <= t < 16 ensures v[t] == Loaded(block)[t] {
      FirstWord(block, t);
    }
  }

  lemma LaterWord(block: seq<byte>, v: seq<word>, t: nat)
    requires |block| == BLOCK && v == seq(80, t requires 0 <= t < 80 => W(block, t)) && 16 <= t < 80
    ensures Made(NextWord, v, t)
  {
    NextIsRfc(v[t - 3], v[t - 8], v[t - 14], v[t - 16]);
  }

  /** The words of the code are W(0) to W(79). */
  lemma WordsAreRfc(block: seq<byte>, v: seq<word>)
    requires |block| == BLOCK && v == seq(80, t requires 0 <= t < 80 => W(block, t))
    ensures Words(block) == v
  {
    forall t | 16 <= t < 80 ensures Made(NextWord, v, t) {
      LaterWord(block, v, t);
    }
    FirstWords(block, v);
    ExpandedIs(NextWord, v, |v|);
  }

  // ---------- the steps ----------

  /** TEMP of step `t`. */
  function Temp(t: nat, a: word, b: word, c: word, d: word, e: word, w: word): word {
    Plus(Sum(Turned(a, 5), Function(t, b, c, d), e, w), K(t))
  }

  /** The buffer A to E after the first `n` steps. */
  function Stepped(block: seq<byte>, n: nat, h: Regs): Regs
    requires |block| == BLOCK
  {
    if n == 0 then h
    else
      var r, t := Stepped(block, n - 1, h), n - 1;
      Five(Temp(t, r.a, r.b, r.c, r.d, r.e, W(block, t)), r.a, Turned(r.b, 30), r.c, r.d)
  }

  function RfcCompress(h: Regs, block: seq<byte>): Regs
    requires |block| == BLOCK
  {
    Add(h, Stepped(block, 80, h))
  }

  lemma MixIsRfc(t: nat, b: word, c: word, d: word)
    requires t < 80
    ensures Mix(t / 20, b, c, d) == Function(t, b, c, d) && Constant(t / 20) == K(t)
  {
    if t < 20 {
      F0IsRfc(b, c, d);
    } else if t < 40 {
      F1IsRfc(b, c, d);
    } else if t < 60 {
      F2IsRfc(b, c, d);
    } else {
      F3IsRfc(b, c, d);
    }
  }

  lemma StepIsRfc(t: nat, a: word, b: word, c: word, d: word, e: word, w: word)
    requires t < 80
    ensures Step(t / 20, a, b, c, d, e, w) == Temp(t, a, b, c, d, e, w)
  {
    MixIsRfc(t, b, c, d);
    RolIsTurned(a, 5);
  }

  lemma {:induction false} LoopsAreRfc(block: seq<byte>, w: seq<word>, n: nat, h: Regs)
    requires |block| == BLOCK && n <= 80 && |w| == 80
    requires forall t :: 0 <= t < 80 ==> w[t] == W(block, t)
    ensures Rolled(STEPS, w, n, h) == Stepped(block, n, h)
  {
    if n > 0 {
      LoopsAreRfc(block, w, n - 1, h);
      var r, t := Stepped(block, n - 1, h), n - 1;
      StepIsRfc(t, r.a, r.b, r.c, r.d, r.e, w[t]);
      RolIsTurned(r.b, 30);
    }
  }

  /** The compression is the one of the RFC for every state and every block. */
  lemma CompressIsRfc(h: Regs, block: seq<byte>)
    requires |block| == BLOCK
    ensures Compress(h, block) == RfcCompress(h, block)
  {
    var v := seq(80, t requires 0 <= t < 80 => W(block, t));
    WordsAreRfc(block, v);
    LoopsAreRfc(block, v, |v|, h);
  }
}
