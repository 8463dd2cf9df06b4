/** MD5 as section 3.4 of RFC 1321 states it, and that both compressions compute it. */
module Md5Rfc {
  import opened Common
  import opened HashStream
  import opened Words32
  import opened Md5

  // ---------- the functions ----------

  function RfcF(x: word, y: word, z: word): word { (x & y) | (!x & z) }
  function RfcG(x: word, y: word, z: word): word { (x & z) | (y & !z) }
  function RfcH(x: word, y: word, z: word): word { x ^ y ^ z }
  function RfcI(x: word, y: word, z: word): word { y ^ (x | !z) }

  /** On any bits `m`: F is the second word where the first is set and the third where it is not; G the first where the
      third is set and otherwise the second; H the first, changed where the others differ; I the second, changed where
      the first is set or the third is not. */
  lemma FWhereSet(x: word, y: word, z: word, m: word)
    requires x & m == m
    ensures F(x, y, z) & m == y & m
  {
  }

  lemma FElsewhere(x: word, y: word, z: word, m: word)
    requires x & m == 0
    ensures F(x, y, z) & m == z & m
  {
  }

  lemma GWhereSet(x: word, y: word, z: word, m: word)
    requires z & m == m
    ensures G(x, y, z) & m == x & m
  {
  }

  lemma GElsewhere(x: word, y: word, z: word, m: word)
    requires z & m == 0
    ensures G(x, y, z) & m == y & m
  {
  }

  lemma HWhereEqual(x: word, y: word, z: word, m: word)
    requires y & m == z & m
    ensures H(x, y, z) & m == x & m
  {
  }

  lemma HWhereDifferent(x: word, y: word, z: word, m: word)
    requires y & m == !z & m
    ensures H(x, y, z) & m == !x & m
  {
  }

  lemma IWhereSet(x: word, y: word, z: word, m: word)
    requires x & m == m
    ensures I(x, y, z) & m == !y & m
  {
  }

  lemma IWhereClear(x: word, y: word, z: word, m: word)
    requires z & m == 0
    ensures I(x, y, z) & m == !y & m
  {
  }

  lemma IElsewhere(x: word, y: word, z: word, m: word)
    requires x & m == 0 && z & m == m
    ensures I(x, y, z) & m == y & m
  {
  }

  lemma ShortF(x: word, y: word, z: word)
    ensures z ^ (x & (y ^ z)) == (x & y) | (!x & z)
  {
  }

  lemma ShortG(x: word, y: word, z: word)
    ensures y ^ (z & (y ^ x)) == (x & z) | (y & !z)
  {
  }

  /** The shortened macros are the functions of the RFC. */
  lemma FIsRfc(x: word, y: word, z: word)
    ensures F(x, y, z) == RfcF(x, y, z)
  {
    ShortF(x, y, z);
  }

  lemma GIsRfc(x: word, y: word, z: word)
    ensures G(x, y, z) == RfcG(x, y, z)
  {
    ShortG(x, y, z);
  }

  lemma HIsRfc(x: word, y: word, z: word)
    ensures H(x, y, z) == RfcH(x, y, z)
  {
  }

  lemma IIsRfc(x: word, y: word, z: word)
    ensures I(x, y, z) == RfcI(x, y, z)
  {
  }

  function Mixed(round: nat, x: word, y: word, z: word): word {
    if round == 0 then RfcF(x, y, z)
    else if round == 1 then RfcG(x, y, z)
    else if round == 2 then RfcH(x, y, z)
    else RfcI(x, y, z)
  }

  /** What an operation assigns, from the values of its four registers. */
  function Assigned(round: nat, a: word, b: word, c: word, d: word, m: word, s: Shift, t: word): word {
    Plus(Turned(Sum(a, Mixed(round, b, c, d), m, t), s), b)
  }

  lemma MixIsRfc(round: nat, x: word, y: word, z: word)
    ensures Mix(round, x, y, z) == Mixed(round, x, y, z)
  {
    if round == 0 {
      FIsRfc(x, y, z);
    } else if round == 1 {
      GIsRfc(x, y, z);
    } else if round == 2 {
      HIsRfc(x, y, z);
    } else {
      IIsRfc(x, y, z);
    }
  }

  lemma StepIsRfc(round: nat, a: word, b: word, c: word, d: word, m: word, s: Shift, t: word)
    ensures Step(round, a, b, c, d, m, s, t) == Assigned(round, a, b, c, d, m, s, t)
  {
    MixIsRfc(round, b, c, d);
    RolIsTurned(Sum(a, Mixed(round, b, c, d), m, t), s);
  }

  // ---------- the 64 operations, for any assignment ----------

  datatype Name = A | B | C | D

  function Get<W>(r: Quad<W>, n: Name): W {
    match n
    case A => r.a
    case B => r.b
    case C => r.c
    case D => r.d
  }

  function Put<W>(r: Quad<W>, n: Name, w: W): Quad<W> {
    match n
    case A => r.(a := w)
    case B => r.(b := w)
    case C => r.(c := w)
    case D => r.(d := w)
  }

  /** The first of the named registers gets a new value, made from all four. */
  function Operated<S, W>(op: Macro<S, W>, r: Quad<W>, a: Name, b: Name, c: Name, d: Name, round: nat, m: W, s: S, t: W)
    : Quad<W>
  {
    Put(r, a, op(round, Get(r, a), Get(r, b), Get(r, c), Get(r, d), m, s, t))
  }

  /** The registers take turns: A, D, C, B. */
  function InTurn<S, W>(op: Macro<S, W>, r: Quad<W>, i: nat, round: nat, m: W, s: S, t: W): Quad<W> {
    if i % 4 == 0 then Operated(op, r, A, B, C, D, round, m, s, t)
    else if i % 4 == 1 then Operated(op, r, D, A, B, C, round, m, s, t)
    else if i % 4 == 2 then Operated(op, r, C, D, A, B, round, m, s, t)
    else Operated(op, r, B, C, D, A, round, m, s, t)
  }

  /** Operation `i`, counted from 0, takes this word and rotates by this much. */
  function WordOf(i: nat): Index {
    if i < 16 then i else if i < 32 then (5 * i + 1) % 16 else if i < 48 then (3 * i + 5) % 16 else 7 * i % 16
  }

  function ShiftOf(i: nat): Shift {
    var n := i % 4;
    if i < 16 then (if n == 0 then 7 else if n == 1 then 12 else if n == 2 then 17 else 22)
    else if i < 32 then (if n == 0 then 5 else if n == 1 then 9 else if n == 2 then 14 else 20)
    else if i < 48 then (if n == 0 then 4 else if n == 1 then 11 else if n == 2 then 16 else 23)
    else if n == 0 then 6 else if n == 1 then 10 else if n == 2 then 15 else 21
  }

  /** The first `n` operations, with these shifts and constants. */
  function Operations<S, W>(op: Macro<S, W>, s: seq<S>, t: seq<W>, x: seq<W>, n: nat, r: Quad<W>): Quad<W>
    requires n <= |s| == |t| && |x| == 16
  {
    if n == 0 then r
    else InTurn(op, Operations(op, s, t, x, n - 1, r), n - 1, (n - 1) / 16, x[WordOf(n - 1)], s[n - 1], t[n - 1])
  }

  // ---------- MD5 ----------

  const WORDS: seq<Index> := seq(64, i requires 0 <= i < 64 => WordOf(i))
  const SHIFTS: seq<Shift> := seq(64, i requires 0 <= i < 64 => ShiftOf(i))

  /** The integer part of 2^32 times the sine of 1, 2, ..., 64. */
  const SINES: seq<word> := KORDER1 + KORDER2 + KORDER3 + KORDER4

  /** The sixteen words of a block, low-order byte first. */
  function BlockWords(block: seq<byte>): (x: seq<word>)
    requires |block| == BLOCK
    ensures |x| == 16
  {
    seq(16, i requires 0 <= i < 16 =>
      Number(Wide(block[4 * i + 3]), Wide(block[4 * i + 2]), Wide(block[4 * i + 1]), Wide(block[4 * i])))
  }

  function RfcCompress(r: Regs, block: seq<byte>): Regs
    requires |block| == BLOCK
  {
    Add(r, Operations(Assigned, SHIFTS, SINES, BlockWords(block), 64, r))
  }

  // ---------- what the code does ----------

  lemma WordIsRfc(block: seq<byte>, i: nat)
    requires |block| == BLOCK && i < 16
    ensures Words(block)[i] == BlockWords(block)[i]
  {
    LittleIsNumber(block[4 * i..4 * i + 4]);
  }

  lemma WordsAreRfc(block: seq<byte>)
    requires |block| == BLOCK
    ensures Words(block) == BlockWords(block)
  {
    forall i | 0 <= i < 16 ensures Words(block)[i] == BlockWords(block)[i] {
      WordIsRfc(block, i);
    }
  }

  lemma WholeRounds(n: nat, k: nat)
    ensures (n + 16 * k) % 16 == n % 16
  {
  }

  lemma WordOrder1(i: nat)
    requires i < 16
    ensures WORDER1[i] == WordOf(i)
  {
  }

  lemma ShiftOrder1(i: nat)
    requires i < 16
    ensures RORDER1[i] == ShiftOf(i)
  {
  }

  lemma Column2(i: nat)
    requires i < 16
    ensures WORDER2[i] == (5 * i + 1) % 16
  {
  }

  lemma WordOrder2(i: nat)
    requires i < 16
    ensures WORDER2[i] == WordOf(i + 16)
  {
    Column2(i);
    WholeRounds(5 * i + 1, 5);
  }

  lemma ShiftOrder2(i: nat)
    requires i < 16
    ensures RORDER2[i] == ShiftOf(i + 16)
  {
  }

  lemma Column3(i: nat)
    requires i < 16
    ensures WORDER3[i] == (3 * i + 5) % 16
  {
  }

  lemma WordOrder3(i: nat)
    requires i < 16
    ensures WORDER3[i] == WordOf(i + 32)
  {
    Column3(i);
    WholeRounds(3 * i + 5, 6);
  }

  lemma ShiftOrder3(i: nat)
    requires i < 16
    ensures RORDER3[i] == ShiftOf(i + 32)
  {
  }

  lemma Column4(i: nat)
    requires i < 16
    ensures WORDER4[i] == 7 * i % 16
  {
  }

  lemma WordOrder4(i: nat)
    requires i < 16
    ensures WORDER4[i] == WordOf(i + 48)
  {
    Column4(i);
    WholeRounds(7 * i, 21);
  }

  lemma ShiftOrder4(i: nat)
    requires i < 16
    ensures RORDER4[i] == ShiftOf(i + 48)
  {
  }

  lemma Joined<T>(all: seq<T>, a: seq<T>, b: seq<T>, c: seq<T>, d: seq<T>)
    requires |all| == 64 && |a| == |b| == |c| == |d| == 16
    requires forall i :: 0 <= i < 16 ==> a[i] == all[i]
    requires forall i :: 0 <= i < 16 ==> b[i] == all[i + 16]
    requires forall i :: 0 <= i < 16 ==> c[i] == all[i + 32]
    requires forall i :: 0 <= i < 16 ==> d[i] == all[i + 48]
    ensures a + b + c + d == all
  {
    forall i | 0 <= i < 64 ensures (a + b + c + d)[i] == all[i] {
      if 16 <= i < 32 {
        assert b[i - 16] == all[i];
      } else if 32 <= i < 48 {
        assert c[i - 32] == all[i];
      } else if 48 <= i {
        assert d[i - 48] == all[i];
      }
    }
  }

  /** The tables hold the index formulas and the shifts. */
  lemma WordsAre()
    ensures WORDER1 + WORDER2 + WORDER3 + WORDER4 == WORDS
  {
    forall i | 0 <= i < 16 ensures WORDER1[i] == WORDS[i] { WordOrder1(i); }
    forall i | 0 <= i < 16 ensures WORDER2[i] == WORDS[i + 16] { WordOrder2(i); }
    forall i | 0 <= i < 16 ensures WORDER3[i] == WORDS[i + 32] { WordOrder3(i); }
    forall i | 0 <= i < 16 ensures WORDER4[i] == WORDS[i + 48] { WordOrder4(i); }
    Joined(WORDS, WORDER1, WORDER2, WORDER3, WORDER4);
  }

  lemma ShiftsAre()
    ensures RORDER1 + RORDER2 + RORDER3 + RORDER4 == SHIFTS
  {
    forall i | 0 <= i < 16 ensures RORDER1[i] == SHIFTS[i] { ShiftOrder1(i); }
    forall i | 0 <= i < 16 ensures RORDER2[i] == SHIFTS[i + 16] { ShiftOrder2(i); }
    forall i | 0 <= i < 16 ensures RORDER3[i] == SHIFTS[i + 32] { ShiftOrder3(i); }
    forall i | 0 <= i < 16 ensures RORDER4[i] == SHIFTS[i + 48] { ShiftOrder4(i); }
    Joined(SHIFTS, RORDER1, RORDER2, RORDER3, RORDER4);
  }

  function Lines<S, W>(w: seq<Index>, s: seq<S>, k: seq<W>): (l: seq<Line<S, W>>)
    requires |w| == |s| == |k|
    ensures |l| == |w|
  {
    seq(|w|, i requires 0 <= i < |w| => Line(w[i], s[i], k[i]))
  }

  lemma Zipped<S, W>(w1: seq<Index>, w2: seq<Index>, s1: seq<S>, s2: seq<S>, k1: seq<W>, k2: seq<W>)
    requires |w1| == |s1| == |k1| && |w2| == |s2| == |k2|
    ensures Lines(w1, s1, k1) + Lines(w2, s2, k2) == Lines(w1 + w2, s1 + s2, k1 + k2)
  {
  }

  lemma AllZipped<S, W>(w1: seq<Index>, w2: seq<Index>, w3: seq<Index>, w4: seq<Index>,
                        s1: seq<S>, s2: seq<S>, s3: seq<S>, s4: seq<S>, k1: seq<W>, k2: seq<W>, k3: seq<W>, k4: seq<W>)
    requires |w1| == |s1| == |k1| == |w2| == |s2| == |k2| == |w3| == |s3| == |k3| == |w4| == |s4| == |k4| == 16
    ensures Zip(w1, s1, k1) + Zip(w2, s2, k2) + Zip(w3, s3, k3) + Zip(w4, s4, k4)
         == Lines(w1 + w2 + w3 + w4, s1 + s2 + s3 + s4, k1 + k2 + k3 + k4)
  {
    Zipped(w1, w2, s1, s2, k1, k2);
    Zipped(w1 + w2, w3, s1 + s2, s3, k1 + k2, k3);
    Zipped(w1 + w2 + w3, w4, s1 + s2 + s3, s4, k1 + k2 + k3, k4);
  }

  lemma TablesAre()
    ensures |SINES| == 64 && TableLines() == Lines(WORDS, SHIFTS, SINES)
  {
    WordsAre();
    ShiftsAre();
    AllZipped(WORDER1, WORDER2, WORDER3, WORDER4, RORDER1, RORDER2, RORDER3, RORDER4,
              KORDER1, KORDER2, KORDER3, KORDER4);
  }

  /** Where the rotating registers of the loops stand after `i` steps. */
  function Standing<W>(q: Quad<W>, i: nat): Quad<W> {
    if i % 4 == 0 then q
    else if i % 4 == 1 then Quad(q.d, q.a, q.b, q.c)
    else if i % 4 == 2 then Quad(q.c, q.d, q.a, q.b)
    else Quad(q.b, q.c, q.d, q.a)
  }

  lemma OneOperation<S, W>(op: Macro<S, W>, q: Quad<W>, r: Quad<W>, i: nat, round: nat, m: W, s: S, t: W)
    requires r == Standing(q, i)
    ensures Quad(r.d, op(round, r.a, r.b, r.c, r.d, m, s, t), r.b, r.c)
         == Standing(InTurn(op, q, i, round, m, s, t), i + 1)
  {
  }

  /** The rotating registers of the loops hold what the named ones do. */
  lemma {:induction false} LoopsAreOperations<S, W>(op: Macro<S, W>, lines: seq<Line<S, W>>, s: seq<S>, t: seq<W>,
                                                    x: seq<W>, n: nat, r: Quad<W>)
    requires n <= |lines| == |s| == |t| && |x| == 16
    requires forall i :: 0 <= i < |lines| ==> lines[i] == Line(WordOf(i), s[i], t[i])
    ensures Rolled(op, lines, x, n, r) == Standing(Operations(op, s, t, x, n, r), n)
  {
    if n > 0 {
      LoopsAreOperations(op, lines, s, t, x, n - 1, r);
      var q, i := Operations(op, s, t, x, n - 1, r), n - 1;
      assert lines[i] == Line(WordOf(i), s[i], t[i]);
      OneOperation(op, q, Standing(q, i), i, i / 16, x[WordOf(i)], s[i], t[i]);
    }
  }

  lemma SameStep(l: Line<Shift, word>, round: nat, x: seq<word>, q: Regs)
    requires |x| == 16
    ensures RolledStep(Step, l, round, x, q) == RolledStep(Assigned, l, round, x, q)
  {
    StepIsRfc(round, q.a, q.b, q.c, q.d, x[l.w], l.s, l.k);
  }

  /** Steps that are equal one by one make equal loops. */
  lemma {:induction false} SameSteps(lines: seq<Line<Shift, word>>, x: seq<word>, n: nat, r: Regs)
    requires |x| == 16 && n <= |lines|
    ensures Rolled(Step, lines, x, n, r) == Rolled(Assigned, lines, x, n, r)
  {
    if n > 0 {
      SameSteps(lines, x, n - 1, r);
      SameStep(lines[n - 1], (n - 1) / 16, x, Rolled(Step, lines, x, n - 1, r));
    }
  }

  lemma RoundsAreRfc(lines: seq<Line<Shift, word>>, s: seq<Shift>, t: seq<word>, x: seq<word>, n: nat, r: Regs)
    requires n <= 64 && n % 4 == 0 && |s| == |t| == 64 && |x| == 16 && lines == Lines(WORDS, s, t)
    ensures Rolled(Step, lines, x, n, r) == Operations(Assigned, s, t, x, n, r)
  {
    SameSteps(lines, x, n, r);
    LoopsAreOperations(Assigned, lines, s, t, x, n, r);
  }

  /** The compression is the one of the RFC for every state and every block. */
  lemma CompressIsRfc(r: Regs, block: seq<byte>)
    requires |block| == BLOCK
    ensures Compress(r, block) == RfcCompress(r, block)
  {
    WordsAreRfc(block);
    TablesAre();
    RoundsAreRfc(TableLines(), SHIFTS, SINES, BlockWords(block), 64, r);
  }
}
