/** MD5 compression: the rolled loops that this build selects and the unrolled schedule. */
module Md5 {
  import opened Common
  import opened HashStream
  import opened Words32

  datatype Quad<W> = Quad(a: W, b: W, c: W, d: W)

  type Regs = Quad<word>

  function F(x: word, y: word, z: word): word { z ^ (x & (y ^ z)) }
  function G(x: word, y: word, z: word): word { y ^ (z & (y ^ x)) }
  function H(x: word, y: word, z: word): word { x ^ y ^ z }
  function I(x: word, y: word, z: word): word { y ^ (x | !z) }

  type Index = i: nat | i < 16

  const WORDER1: seq<Index> := [0, 1, 2, 3, 4, 5, 6, 7, 8, 9, 10, 11, 12, 13, 14, 15]
  const WORDER2: seq<Index> := [1, 6, 11, 0, 5, 10, 15, 4, 9, 14, 3, 8, 13, 2, 7, 12]
  const WORDER3: seq<Index> := [5, 8, 11, 14, 1, 4, 7, 10, 13, 0, 3, 6, 9, 12, 15, 2]
  const WORDER4: seq<Index> := [0, 7, 14, 5, 12, 3, 10, 1, 8, 15, 6, 13, 4, 11, 2, 9]

  const RORDER1: seq<Shift> := [7, 12, 17, 22, 7, 12, 17, 22, 7, 12, 17, 22, 7, 12, 17, 22]
  const RORDER2: seq<Shift> := [5, 9, 14, 20, 5, 9, 14, 20, 5, 9, 14, 20, 5, 9, 14, 20]
  const RORDER3: seq<Shift> := [4, 11, 16, 23, 4, 11, 16, 23, 4, 11, 16, 23, 4, 11, 16, 23]
  const RORDER4: seq<Shift> := [6, 10, 15, 21, 6, 10, 15, 21, 6, 10, 15, 21, 6, 10, 15, 21]

  const KORDER1: seq<word> :=
    [0xd76aa478, 0xe8c7b756, 0x242070db, 0xc1bdceee, 0xf57c0faf, 0x4787c62a, 0xa8304613, 0xfd469501,
     0x698098d8, 0x8b44f7af, 0xffff5bb1, 0x895cd7be, 0x6b901122, 0xfd987193, 0xa679438e, 0x49b40821]
  const KORDER2: seq<word> :=
    [0xf61e2562, 0xc040b340, 0x265e5a51, 0xe9b6c7aa, 0xd62f105d, 0x02441453, 0xd8a1e681, 0xe7d3fbc8,
     0x21e1cde6, 0xc33707d6, 0xf4d50d87, 0x455a14ed, 0xa9e3e905, 0xfcefa3f8, 0x676f02d9, 0x8d2a4c8a]
  const KORDER3: seq<word> :=
    [0xfffa3942, 0x8771f681, 0x6d9d6122, 0xfde5380c, 0xa4beea44, 0x4bdecfa9, 0xf6bb4b60, 0xbebfbc70,
     0x289b7ec6, 0xeaa127fa, 0xd4ef3085, 0x04881d05, 0xd9d4d039, 0xe6db99e5, 0x1fa27cf8, 0xc4ac5665]
  const KORDER4: seq<word> :=
    [0xf4292244, 0x432aff97, 0xab9423a7, 0xfc93a039, 0x655b59c3, 0x8f0ccc92, 0xffeff47d, 0x85845dd1,
     0x6fa87e4f, 0xfe2ce6e0, 0xa3014314, 0x4e0811a1, 0xf7537e82, 0xbd3af235, 0x2ad7d2bb, 0xeb86d391]

  /** What one step is told: which word, which shift, which constant. */
  datatype Line<S, W> = Line(w: Index, s: S, k: W)

  /** The arguments of the 64 lines of the unrolled schedule, in order. */
  const SCHEDULE1: seq<Line<Shift, word>> :=
    [Line(0, 7, 0xd76aa478), Line(1, 12, 0xe8c7b756), Line(2, 17, 0x242070db), Line(3, 22, 0xc1bdceee),
     Line(4, 7, 0xf57c0faf), Line(5, 12, 0x4787c62a), Line(6, 17, 0xa8304613), Line(7, 22, 0xfd469501),
     Line(8, 7, 0x698098d8), Line(9, 12, 0x8b44f7af), Line(10, 17, 0xffff5bb1), Line(11, 22, 0x895cd7be),
     Line(12, 7, 0x6b901122), Line(13, 12, 0xfd987193), Line(14, 17, 0xa679438e), Line(15, 22, 0x49b40821)]
  const SCHEDULE2: seq<Line<Shift, word>> :=
    [Line(1, 5, 0xf61e2562), Line(6, 9, 0xc040b340), Line(11, 14, 0x265e5a51), Line(0, 20, 0xe9b6c7aa),
     Line(5, 5, 0xd62f105d), Line(10, 9, 0x02441453), Line(15, 14, 0xd8a1e681), Line(4, 20, 0xe7d3fbc8),
     Line(9, 5, 0x21e1cde6), Line(14, 9, 0xc33707d6), Line(3, 14, 0xf4d50d87), Line(8, 20, 0x455a14ed),
     Line(13, 5, 0xa9e3e905), Line(2, 9, 0xfcefa3f8), Line(7, 14, 0x676f02d9), Line(12, 20, 0x8d2a4c8a)]
  const SCHEDULE3: seq<Line<Shift, word>> :=
    [Line(5, 4, 0xfffa3942), Line(8, 11, 0x8771f681), Line(11, 16, 0x6d9d6122), Line(14, 23, 0xfde5380c),
     Line(1, 4, 0xa4beea44), Line(4, 11, 0x4bdecfa9), Line(7, 16, 0xf6bb4b60), Line(10, 23, 0xbebfbc70),
     Line(13, 4, 0x289b7ec6), Line(0, 11, 0xeaa127fa), Line(3, 16, 0xd4ef3085), Line(6, 23, 0x04881d05),
     Line(9, 4, 0xd9d4d039), Line(12, 11, 0xe6db99e5), Line(15, 16, 0x1fa27cf8), Line(2, 23, 0xc4ac5665)]
  const SCHEDULE4: seq<Line<Shift, word>> :=
    [Line(0, 6, 0xf4292244), Line(7, 10, 0x432aff97), Line(14, 15, 0xab9423a7), Line(5, 21, 0xfc93a039),
     Line(12, 6, 0x655b59c3), Line(3, 10, 0x8f0ccc92), Line(10, 15, 0xffeff47d), Line(1, 21, 0x85845dd1),
     Line(8, 6, 0x6fa87e4f), Line(15, 10, 0xfe2ce6e0), Line(6, 15, 0xa3014314), Line(13, 21, 0x4e0811a1),
     Line(4, 6, 0xf7537e82), Line(11, 10, 0xbd3af235), Line(2, 15, 0x2ad7d2bb), Line(9, 21, 0xeb86d391)]
  const SCHEDULE: seq<Line<Shift, word>> := SCHEDULE1 + SCHEDULE2 + SCHEDULE3 + SCHEDULE4

  /** The four macros FF, GG, HH and II. Everything about the order of the steps holds for any macros
      and any words. */
  type Macro<!S, !W> = (nat, W, W, W, W, W, S, W) -> W

  /** One pass through a rolled loop: a step into the first register, then the registers rotate. */
  function RolledStep<S, W>(mix: Macro<S, W>, l: Line<S, W>, round: nat, w: seq<W>, r: Quad<W>): Quad<W>
    requires |w| == 16
  {
    Quad(r.d, mix(round, r.a, r.b, r.c, r.d, w[l.w], l.s, l.k), r.b, r.c)
  }

  /** The first `n` steps of the rolled loops. */
  function Rolled<S, W>(mix: Macro<S, W>, lines: seq<Line<S, W>>, w: seq<W>, n: nat, r: Quad<W>): Quad<W>
    requires |w| == 16 && n <= |lines|
  {
    if n == 0 then r else RolledStep(mix, lines[n - 1], (n - 1) / 16, w, Rolled(mix, lines, w, n - 1, r))
  }

  /** Four lines of the unrolled schedule, each writing one register in place, in the order a, d, c,
      b. */
  method FourLines<S, W>(mix: Macro<S, W>, round: nat, l: seq<Line<S, W>>, w: seq<W>, r: Quad<W>) returns (r': Quad<W>)
    requires |w| == 16 && |l| == 4
    ensures r' == RolledStep(mix, l[3], round, w, RolledStep(mix, l[2], round, w,
                    RolledStep(mix, l[1], round, w, RolledStep(mix, l[0], round, w, r))))
  {
    var Quad(a, b, c, d) := r;
    a := mix(round, a, b, c, d, w[l[0].w], l[0].s, l[0].k);
    d := mix(round, d, a, b, c, w[l[1].w], l[1].s, l[1].k);
    c := mix(round, c, d, a, b, w[l[2].w], l[2].s, l[2].k);
    b := mix(round, b, c, d, a, w[l[3].w], l[3].s, l[3].k);
    r' := Quad(a, b, c, d);
  }

  lemma {:induction false} RolledNext<S, W>(mix: Macro<S, W>, lines: seq<Line<S, W>>, w: seq<W>, n: nat, r: Quad<W>,
                                            round: nat)
    requires |w| == 16 && n < |lines| && 16 * round <= n < 16 * (round + 1)
    ensures Rolled(mix, lines, w, n + 1, r) == RolledStep(mix, lines[n], round, w, Rolled(mix, lines, w, n, r))
  {
    assert n / 16 == round;
  }

  /** The unrolled schedule is the rolled one: after four lines the rotation is back where it
      started. */
  method Unrolled<S, W>(mix: Macro<S, W>, lines: seq<Line<S, W>>, w: seq<W>, r: Quad<W>) returns (r': Quad<W>)
    requires |w| == 16 && |lines| == 64
    ensures r' == Rolled(mix, lines, w, 64, r)
  {
    r' := r;
    var i, round := 0, 0;
    while round < 4
      invariant 0 <= round <= 4 && i == 16 * round && r' == Rolled(mix, lines, w, i, r)
    {
      var k := 0;
      while k < 4
        invariant 0 <= k <= 4 && i == 16 * round + 4 * k && r' == Rolled(mix, lines, w, i, r)
      {
        r' := FourLines(mix, round, lines[i..i + 4], w, r');
        RolledNext(mix, lines, w, i, r, round);
        RolledNext(mix, lines, w, i + 1, r, round);
        RolledNext(mix, lines, w, i + 2, r, round);
        RolledNext(mix, lines, w, i + 3, r, round);
        i, k := i + 4, k + 1;
      }
      round := round + 1;
    }
  }

  function Zip<S, W>(w: seq<Index>, s: seq<S>, k: seq<W>): (l: seq<Line<S, W>>)
    requires |w| == |s| == |k| == 16
    ensures |l| == 16
  {
    seq(16, i requires 0 <= i < 16 => Line(w[i], s[i], k[i]))
  }

  /** What the tables of the rolled loops say about each step. */
  function TableLines(): seq<Line<Shift, word>> {
    Zip(WORDER1, RORDER1, KORDER1) + Zip(WORDER2, RORDER2, KORDER2) +
    Zip(WORDER3, RORDER3, KORDER3) + Zip(WORDER4, RORDER4, KORDER4)
  }

  lemma ScheduleRound1()
    ensures SCHEDULE1 == Zip(WORDER1, RORDER1, KORDER1)
  {
  }

  lemma ScheduleRound2()
    ensures SCHEDULE2 == Zip(WORDER2, RORDER2, KORDER2)
  {
  }

  lemma ScheduleRound3()
    ensures SCHEDULE3 == Zip(WORDER3, RORDER3, KORDER3)
  {
  }

  lemma ScheduleRound4()
    ensures SCHEDULE4 == Zip(WORDER4, RORDER4, KORDER4)
  {
  }

  /** The literal arguments of the unrolled lines are the entries of the three tables. */
  lemma ScheduleIsTables()
    ensures SCHEDULE == TableLines() && |SCHEDULE| == 64
  {
    ScheduleRound1();
    ScheduleRound2();
    ScheduleRound3();
    ScheduleRound4();
  }

  /** The four rolled loops: each pass writes the first register and rotates all four. */
  method RolledLoops<S, W>(mix: Macro<S, W>, lines: seq<Line<S, W>>, w: seq<W>, r: Quad<W>) returns (r': Quad<W>)
    requires |w| == 16 && |lines| == 64
    ensures r' == Rolled(mix, lines, w, 64, r)
  {
    var Quad(a, b, c, d) := r;
    var i, round := 0, 0;
    while round < 4
      invariant 0 <= round <= 4 && i == 16 * round
      invariant Quad(a, b, c, d) == Rolled(mix, lines, w, i, r)
    {
      while i < 16 * (round + 1)
        invariant 16 * round <= i <= 16 * (round + 1)
        invariant Quad(a, b, c, d) == Rolled(mix, lines, w, i, r)
      {
        a := mix(round, a, b, c, d, w[lines[i].w], lines[i].s, lines[i].k);
        a, b, c, d := d, a, b, c;
        i := i + 1;
      }
      round := round + 1;
    }
    r' := Quad(a, b, c, d);
  }

  // ---------- MD5 ----------

  function Mix(round: nat, x: word, y: word, z: word): word {
    if round == 0 then F(x, y, z) else if round == 1 then G(x, y, z) else if round == 2 then H(x, y, z) else I(x, y, z)
  }

  function Rotated(f: word, a: word, b: word, m: word, s: Shift, t: word): word {
    Plus(Rol(Sum(a, f, m, t), s), b)
  }

  function Step(round: nat, a: word, b: word, c: word, d: word, m: word, s: Shift, t: word): word {
    Rotated(Mix(round, b, c, d), a, b, m, s, t)
  }

  function Words(block: seq<byte>): (w: seq<word>)
    requires |block| == BLOCK
    ensures |w| == 16
  {
    seq(16, i requires 0 <= i < 16 => Load32L(block[4 * i..4 * i + 4]))
  }

  function Add(x: Regs, y: Regs): Regs { Quad(x.a + y.a, x.b + y.b, x.c + y.c, x.d + y.d) }

  function Compress(state: Regs, block: seq<byte>): Regs {
    if |block| != BLOCK then state
    else
      ScheduleIsTables();
      Add(state, Rolled(Step, TableLines(), Words(block), 64, state))
  }

  function Store(r: Regs): (out: seq<byte>)
    ensures |out| == 16
  {
    Store32L(r.a) + Store32L(r.b) + Store32L(r.c) + Store32L(r.d)
  }

  const MD5: Hash<Regs> := Hash(Quad(0x67452301, 0xefcdab89, 0x98badcfe, 0x10325476), Compress, false, Store)

  /** The compression of this build: words loaded in a loop, then the rolled loops. */
  method CompressRolled(state: Regs, block: seq<byte>) returns (r: Regs)
    requires |block| == BLOCK
    ensures r == MD5.compress(state, block)
  {
    var w := LoadWords(block);
    ScheduleIsTables();
    r := RolledLoops(Step, TableLines(), w, state);
    r := Add(state, r);
  }

  /** The other compression computes the same for every state and every block. */
  method CompressUnrolled(state: Regs, block: seq<byte>) returns (r: Regs)
    requires |block| == BLOCK
    ensures r == MD5.compress(state, block)
  {
    var w := LoadWords(block);
    ScheduleIsTables();
    r := Unrolled(Step, SCHEDULE, w, state);
    r := Add(state, r);
  }

  method LoadWords(block: seq<byte>) returns (w: seq<word>)
    requires |block| == BLOCK
    ensures w == Words(block)
  {
    w := [];
    var i := 0;
    while i < 16
      invariant 0 <= i <= 16 && w == Words(block)[..i]
    {
      w := w + [Load32L(block[4 * i..4 * i + 4])];
      i := i + 1;
    }
  }
}
