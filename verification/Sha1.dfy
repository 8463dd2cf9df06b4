/** SHA-1 compression: the rolled loops that this build selects and the loops unrolled by five. */
module Sha1 {
  import opened Common
  import opened HashStream
  import opened Words32

  datatype Five<W> = Five(a: W, b: W, c: W, d: W, e: W)

  type Regs = Five<word>

  /** The macros FF0 to FF3 without their assignment: the new value of the last register from the
      round and a word, and the rotation of the second. The order of the steps holds for any. */
  datatype Macros<!W> = Macros(mix: (nat, W, W, W, W, W, W) -> W, turn: W -> W)

  /** One pass through a rolled loop: the step, then the registers rotate. */
  function RolledStep<W>(m: Macros<W>, round: nat, w: W, r: Five<W>): Five<W> {
    Five(m.mix(round, r.a, r.b, r.c, r.d, r.e, w), r.a, m.turn(r.b), r.c, r.d)
  }

  /** The first `n` steps of the rolled loops. */
  function Rolled<W>(m: Macros<W>, w: seq<W>, n: nat, r: Five<W>): Five<W>
    requires n <= |w|
  {
    if n == 0 then r else RolledStep(m, (n - 1) / 20, w[n - 1], Rolled(m, w, n - 1, r))
  }

  method RolledLoops<W>(m: Macros<W>, w: seq<W>, r: Five<W>) returns (r': Five<W>)
    requires |w| == 80
    ensures r' == Rolled(m, w, 80, r)
  {
    var Five(a, b, c, d, e) := r;
    var i, round := 0, 0;
    while round < 4
      invariant 0 <= round <= 4 && i == 20 * round
      invariant Five(a, b, c, d, e) == Rolled(m, w, i, r)
    {
      while i < 20 * (round + 1)
        invariant 20 * round <= i <= 20 * (round + 1)
        invariant Five(a, b, c, d, e) == Rolled(m, w, i, r)
      {
        e := m.mix(round, a, b, c, d, e, w[i]);
        b := m.turn(b);
        a, b, c, d, e := e, a, b, c, d;
        i := i + 1;
      }
      round := round + 1;
    }
    r' := Five(a, b, c, d, e);
  }

  /** Five lines that write the registers in place, in the order e, d, c, b, a. */
  method FiveLines<W>(m: Macros<W>, round: nat, w: seq<W>, r: Five<W>) returns (r': Five<W>)
    requires |w| == 5
    ensures r' == RolledStep(m, round, w[4], RolledStep(m, round, w[3], RolledStep(m, round, w[2],
                    RolledStep(m, round, w[1], RolledStep(m, round, w[0], r)))))
  {
    var Five(a, b, c, d, e) := r;
    e := m.mix(round, a, b, c, d, e, w[0]);
    b := m.turn(b);
    d := m.mix(round, e, a, b, c, d, w[1]);
    a := m.turn(a);
    c := m.mix(round, d, e, a, b, c, w[2]);
    e := m.turn(e);
    b := m.mix(round, c, d, e, a, b, w[3]);
    d := m.turn(d);
    a := m.mix(round, b, c, d, e, a, w[4]);
    c := m.turn(c);
    r' := Five(a, b, c, d, e);
  }

  lemma {:induction false} RolledNext<W>(m: Macros<W>, w: seq<W>, n: nat, r: Five<W>, round: nat)
    requires n < |w| && 20 * round <= n < 20 * (round + 1)
    ensures Rolled(m, w, n + 1, r) == RolledStep(m, round, w[n], Rolled(m, w, n, r))
  {
    assert n / 20 == round;
  }

  lemma {:induction false} RolledFive<W>(m: Macros<W>, w: seq<W>, n: nat, r: Five<W>, round: nat)
    requires n + 5 <= |w| && 20 * round <= n && n + 5 <= 20 * (round + 1)
    ensures Rolled(m, w, n + 5, r) ==
              RolledStep(m, round, w[n + 4], RolledStep(m, round, w[n + 3], RolledStep(m, round, w[n + 2],
                RolledStep(m, round, w[n + 1], RolledStep(m, round, w[n], Rolled(m, w, n, r))))))
  {
    RolledNext(m, w, n, r, round);
    RolledNext(m, w, n + 1, r, round);
    RolledNext(m, w, n + 2, r, round);
    RolledNext(m, w, n + 3, r, round);
    RolledNext(m, w, n + 4, r, round);
  }

  /** The loops unrolled by five are the rolled ones: after five lines the rotation is back where it
      started. */
  method UnrolledLoops<W>(m: Macros<W>, w: seq<W>, r: Five<W>) returns (r': Five<W>)
    requires |w| == 80
    ensures r' == Rolled(m, w, 80, r)
  {
    r' := r;
    var i, round := 0, 0;
    while round < 4
      invariant 0 <= round <= 4 && i == 20 * round && r' == Rolled(m, w, i, r)
    {
      var k := 0;
      while k < 4
        invariant 0 <= k <= 4 && i == 20 * round + 5 * k && r' == Rolled(m, w, i, r)
      {
        r' := FiveLines(m, round, w[i..i + 5], r');
        RolledFive(m, w, i, r, round);
        i, k := i + 5, k + 1;
      }
      round := round + 1;
    }
  }

  // ---------- the schedule of words ----------

  /** `w` and what follows it, up to `n` words: each is made from four before it. */
  function Expanded<W>(next: (W, W, W, W) -> W, w: seq<W>, n: nat): (r: seq<W>)
    requires |w| == 16 <= n
    ensures |r| == n
  {
    if n == 16 then w
    else
      var r := Expanded(next, w, n - 1);
      var i := n - 1;
      r + [next(r[i - 3], r[i - 8], r[i - 14], r[i - 16])]
  }

  method Expand<W>(next: (W, W, W, W) -> W, first: seq<W>, n: nat) returns (w: seq<W>)
    requires |first| == 16 <= n
    ensures w == Expanded(next, first, n)
  {
    w := first;
    var i := 16;
    while i < n
      invariant 16 <= i <= n && |w| == i && w == Expanded(next, first, i)
    {
      w := w + [next(w[i - 3], w[i - 8], w[i - 14], w[i - 16])];
      i := i + 1;
    }
  }

  // ---------- SHA-1 ----------

  function F0(x: word, y: word, z: word): word { z ^ (x & (y ^ z)) }
  function F1(x: word, y: word, z: word): word { x ^ y ^ z }
  function F2(x: word, y: word, z: word): word { (x & y) | (z & (x | y)) }
  function F3(x: word, y: word, z: word): word { x ^ y ^ z }

  function Mix(round: nat, x: word, y: word, z: word): word {
    if round == 0 then F0(x, y, z)
    else if round == 1 then F1(x, y, z)
    else if round == 2 then F2(x, y, z)
    else F3(x, y, z)
  }

  function Constant(round: nat): word {
    if round == 0 then 0x5a827999 else if round == 1 then 0x6ed9eba1 else if round == 2 then 0x8f1bbcdc else 0xca62c1d6
  }

  function Step(round: nat, a: word, b: word, c: word, d: word, e: word, w: word): word {
    Plus(Sum(Rol(a, 5), Mix(round, b, c, d), e, w), Constant(round))
  }

  function Tilt(b: word): word { Rol(b, 30) }

  const STEPS: Macros<word> := Macros(Step, Tilt)

  function NextWord(x: word, y: word, z: word, u: word): word { Rol(Xor4(x, y, z, u), 1) }

  function Loaded(block: seq<byte>): (w: seq<word>)
    requires |block| == BLOCK
    ensures |w| == 16
  {
    seq(16, i requires 0 <= i < 16 => Load32H(block[4 * i..4 * i + 4]))
  }

  function Words(block: seq<byte>): (w: seq<word>)
    requires |block| == BLOCK
    ensures |w| == 80
  {
    Expanded(NextWord, Loaded(block), 80)
  }

  method LoadWords(block: seq<byte>) returns (w: seq<word>)
    requires |block| == BLOCK
    ensures w == Words(block)
  {
    w := [];
    var i := 0;
    while i < 16
      invariant 0 <= i <= 16 && w == Loaded(block)[..i]
    {
      w := w + [Load32H(block[4 * i..4 * i + 4])];
      i := i + 1;
    }
    assert w == Loaded(block);
    w := Expand(NextWord, w, 80);
  }

  function Add(x: Regs, y: Regs): Regs { Five(x.a + y.a, x.b + y.b, x.c + y.c, x.d + y.d, x.e + y.e) }

  function Compress(state: Regs, block: seq<byte>): Regs {
    if |block| != BLOCK then state else Add(state, Rolled(STEPS, Words(block), 80, state))
  }

  function Store(r: Regs): (out: seq<byte>)
    ensures |out| == 20
  {
    Store32H(r.a) + Store32H(r.b) + Store32H(r.c) + Store32H(r.d) + Store32H(r.e)
  }

  const SHA1: Hash<Regs> :=
    Hash(Five(0x67452301, 0xefcdab89, 0x98badcfe, 0x10325476, 0xc3d2e1f0), Compress, true, Store)

  method CompressRolled(state: Regs, block: seq<byte>) returns (r: Regs)
    requires |block| == BLOCK
    ensures r == SHA1.compress(state, block)
  {
    var w := LoadWords(block);
    r := RolledLoops(STEPS, w, state);
    r := Add(state, r);
  }

  /** The other compression computes the same for every state and every block. */
  method CompressUnrolled(state: Regs, block: seq<byte>) returns (r: Regs)
    requires |block| == BLOCK
    ensures r == SHA1.compress(state, block)
  {
    var w := LoadWords(block);
    r := UnrolledLoops(STEPS, w, state);
    r := Add(state, r);
  }
}
