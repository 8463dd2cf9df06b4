/** The combined tables of the code against the substitution boxes and the permutation P of FIPS 46-3, entry by
    entry. */
module DesBoxes {
  import opened DesTables

  /** The output for six bits: the first and the last choose the row, the others the column. */
  function Chosen<W>(r0: seq<W>, r1: seq<W>, r2: seq<W>, r3: seq<W>, n: nat): W
    requires n < 64 && |r0| == |r1| == |r2| == |r3| == 16
  {
    var column := n / 2 % 16;
    if n < 32 then (if n % 2 == 0 then r0[column] else r1[column]) else if n % 2 == 0 then r2[column] else r3[column]
  }

  function Output(b: Box, n: nat): Nibble
    requires n < 64 && |b.r0| == |b.r1| == |b.r2| == |b.r3| == 16
  {
    Chosen(b.r0, b.r1, b.r2, b.r3, n)
  }

  /** Sixteen entries in the order of the six bits: two rows take turns, from column `c` on. */
  ghost predicate Woven<W>(place: W -> W, t: seq<W>, even: seq<W>, odd: seq<W>, c: nat)
    requires |t| == |even| == |odd| == 16 && c <= 8
  {
    && t[0] == place(even[c + 0]) && t[1] == place(odd[c + 0])
    && t[2] == place(even[c + 1]) && t[3] == place(odd[c + 1])
    && t[4] == place(even[c + 2]) && t[5] == place(odd[c + 2])
    && t[6] == place(even[c + 3]) && t[7] == place(odd[c + 3])
    && t[8] == place(even[c + 4]) && t[9] == place(odd[c + 4])
    && t[10] == place(even[c + 5]) && t[11] == place(odd[c + 5])
    && t[12] == place(even[c + 6]) && t[13] == place(odd[c + 6])
    && t[14] == place(even[c + 7]) && t[15] == place(odd[c + 7])
  }

  lemma WovenAt<W>(place: W -> W, t: seq<W>, even: seq<W>, odd: seq<W>, c: nat, j: nat)
    requires |t| == |even| == |odd| == 16 && c <= 8 && j < 16 && Woven(place, t, even, odd, c)
    ensures t[j] == place(if j % 2 == 0 then even[c + j / 2] else odd[c + j / 2])
  {
  }

  /** A table of 64 entries, woven from the four rows of a box. */
  ghost predicate Combined<W>(place: W -> W, t1: seq<W>, t2: seq<W>, t3: seq<W>, t4: seq<W>,
                              r0: seq<W>, r1: seq<W>, r2: seq<W>, r3: seq<W>)
  {
    && |t1| == |t2| == |t3| == |t4| == |r0| == |r1| == |r2| == |r3| == 16
    && Woven(place, t1, r0, r1, 0) && Woven(place, t2, r0, r1, 8)
    && Woven(place, t3, r2, r3, 0) && Woven(place, t4, r2, r3, 8)
  }

  lemma HalfAt<W>(place: W -> W, t1: seq<W>, t2: seq<W>, even: seq<W>, odd: seq<W>, n: nat)
    requires |t1| == |t2| == |even| == |odd| == 16 && n < 32
    requires Woven(place, t1, even, odd, 0) && Woven(place, t2, even, odd, 8)
    ensures (t1 + t2)[n] == place(if n % 2 == 0 then even[n / 2] else odd[n / 2])
  {
    if n < 16 {
      WovenAt(place, t1, even, odd, 0, n);
    } else {
      WovenAt(place, t2, even, odd, 8, n - 16);
    }
  }

  lemma HalvesAt<W>(place: W -> W, a: seq<W>, b: seq<W>, r0: seq<W>, r1: seq<W>, r2: seq<W>, r3: seq<W>, n: nat)
    requires |a| == |b| == 32 && |r0| == |r1| == |r2| == |r3| == 16 && n < 64
    requires n < 32 ==> a[n] == place(if n % 2 == 0 then r0[n / 2] else r1[n / 2])
    requires n >= 32 ==> b[n - 32] == place(if n % 2 == 0 then r2[(n - 32) / 2] else r3[(n - 32) / 2])
    ensures (a + b)[n] == place(Chosen(r0, r1, r2, r3, n))
  {
  }

  lemma CombinedAt<W>(place: W -> W, t1: seq<W>, t2: seq<W>, t3: seq<W>, t4: seq<W>,
                      r0: seq<W>, r1: seq<W>, r2: seq<W>, r3: seq<W>, n: nat)
    requires Combined(place, t1, t2, t3, t4, r0, r1, r2, r3) && n < 64
    ensures (t1 + t2 + t3 + t4)[n] == place(Chosen(r0, r1, r2, r3, n))
  {
    if n < 32 {
      HalfAt(place, t1, t2, r0, r1, n);
    } else {
      HalfAt(place, t3, t4, r2, r3, n - 32);
    }
    HalvesAt(place, t1 + t2, t3 + t4, r0, r1, r2, r3, n);
    assert t1 + t2 + t3 + t4 == (t1 + t2) + (t3 + t4);
  }

  predicate Nibbles1(place: word -> word) {
    && place(0) == 0x00000000 && place(1) == 0x00000004 && place(2) == 0x00000400 && place(3) == 0x00000404
    && place(4) == 0x00010000 && place(5) == 0x00010004 && place(6) == 0x00010400 && place(7) == 0x00010404
    && place(8) == 0x01000000 && place(9) == 0x01000004 && place(10) == 0x01000400 && place(11) == 0x01000404
    && place(12) == 0x01010000 && place(13) == 0x01010004 && place(14) == 0x01010400 && place(15) == 0x01010404
  }

  lemma Placed1()
    ensures Nibbles1(Place1)
  {
  }

  lemma Table1(place: word -> word)
    requires Nibbles1(place)
    ensures Combined(place, SP1A, SP1B, SP1C, SP1D, S1R0, S1R1, S1R2, S1R3)
  {
  }

  /** Table SP1 is box S1 put through P. */
  lemma Entry1(n: nat)
    requires n < 64
    ensures SP1[n] == Place1(Output(S1, n))
  {
    Placed1();
    Table1(Place1);
    CombinedAt(Place1, SP1A, SP1B, SP1C, SP1D, S1R0, S1R1, S1R2, S1R3, n);
  }

  predicate Nibbles2(place: word -> word) {
    && place(0) == 0x00000000 && place(1) == 0x00008000 && place(2) == 0x80000000 && place(3) == 0x80008000
    && place(4) == 0x00000020 && place(5) == 0x00008020 && place(6) == 0x80000020 && place(7) == 0x80008020
    && place(8) == 0x00100000 && place(9) == 0x00108000 && place(10) == 0x80100000 && place(11) == 0x80108000
    && place(12) == 0x00100020 && place(13) == 0x00108020 && place(14) == 0x80100020 && place(15) == 0x80108020
  }

  lemma Placed2()
    ensures Nibbles2(Place2)
  {
  }

  lemma Table2(place: word -> word)
    requires Nibbles2(place)
    ensures Combined(place, SP2A, SP2B, SP2C, SP2D, S2R0, S2R1, S2R2, S2R3)
  {
  }

  /** Table SP2 is box S2 put through P. */
  lemma Entry2(n: nat)
    requires n < 64
    ensures SP2[n] == Place2(Output(S2, n))
  {
    Placed2();
    Table2(Place2);
    CombinedAt(Place2, SP2A, SP2B, SP2C, SP2D, S2R0, S2R1, S2R2, S2R3, n);
  }

  predicate Nibbles3(place: word -> word) {
    && place(0) == 0x00000000 && place(1) == 0x08000000 && place(2) == 0x00000008 && place(3) == 0x08000008
    && place(4) == 0x00020000 && place(5) == 0x08020000 && place(6) == 0x00020008 && place(7) == 0x08020008
    && place(8) == 0x00000200 && place(9) == 0x08000200 && place(10) == 0x00000208 && place(11) == 0x08000208
    && place(12) == 0x00020200 && place(13) == 0x08020200 && place(14) == 0x00020208 && place(15) == 0x08020208
  }

  lemma Placed3()
    ensures Nibbles3(Place3)
  {
  }

  lemma Table3(place: word -> word)
    requires Nibbles3(place)
    ensures Combined(place, SP3A, SP3B, SP3C, SP3D, S3R0, S3R1, S3R2, S3R3)
  {
  }

  /** Table SP3 is box S3 put through P. */
  lemma Entry3(n: nat)
    requires n < 64
    ensures SP3[n] == Place3(Output(S3, n))
  {
    Placed3();
    Table3(Place3);
    CombinedAt(Place3, SP3A, SP3B, SP3C, SP3D, S3R0, S3R1, S3R2, S3R3, n);
  }

  predicate Nibbles4(place: word -> word) {
    && place(0) == 0x00000000 && place(1) == 0x00000001 && place(2) == 0x00800000 && place(3) == 0x00800001
    && place(4) == 0x00002000 && place(5) == 0x00002001 && place(6) == 0x00802000 && place(7) == 0x00802001
    && place(8) == 0x00000080 && place(9) == 0x00000081 && place(10) == 0x00800080 && place(11) == 0x00800081
    && place(12) == 0x00002080 && place(13) == 0x00002081 && place(14) == 0x00802080 && place(15) == 0x00802081
  }

  lemma Placed4()
    ensures Nibbles4(Place4)
  {
  }

  lemma Table4(place: word -> word)
    requires Nibbles4(place)
    ensures Combined(place, SP4A, SP4B, SP4C, SP4D, S4R0, S4R1, S4R2, S4R3)
  {
  }

  /** Table SP4 is box S4 put through P. */
  lemma Entry4(n: nat)
    requires n < 64
    ensures SP4[n] == Place4(Output(S4, n))
  {
    Placed4();
    Table4(Place4);
    CombinedAt(Place4, SP4A, SP4B, SP4C, SP4D, S4R0, S4R1, S4R2, S4R3, n);
  }

  predicate Nibbles5(place: word -> word) {
    && place(0) == 0x00000000 && place(1) == 0x40000000 && place(2) == 0x00000100 && place(3) == 0x40000100
    && place(4) == 0x00080000 && place(5) == 0x40080000 && place(6) == 0x00080100 && place(7) == 0x40080100
    && place(8) == 0x02000000 && place(9) == 0x42000000 && place(10) == 0x02000100 && place(11) == 0x42000100
    && place(12) == 0x02080000 && place(13) == 0x42080000 && place(14) == 0x02080100 && place(15) == 0x42080100
  }

  lemma Placed5()
    ensures Nibbles5(Place5)
  {
  }

  lemma Table5(place: word -> word)
    requires Nibbles5(place)
    ensures Combined(place, SP5A, SP5B, SP5C, SP5D, S5R0, S5R1, S5R2, S5R3)
  {
  }

  /** Table SP5 is box S5 put through P. */
  lemma Entry5(n: nat)
    requires n < 64
    ensures SP5[n] == Place5(Output(S5, n))
  {
    Placed5();
    Table5(Place5);
    CombinedAt(Place5, SP5A, SP5B, SP5C, SP5D, S5R0, S5R1, S5R2, S5R3, n);
  }

  predicate Nibbles6(place: word -> word) {
    && place(0) == 0x00000000 && place(1) == 0x00004000 && place(2) == 0x00400000 && place(3) == 0x00404000
    && place(4) == 0x00000010 && place(5) == 0x00004010 && place(6) == 0x00400010 && place(7) == 0x00404010
    && place(8) == 0x20000000 && place(9) == 0x20004000 && place(10) == 0x20400000 && place(11) == 0x20404000
    && place(12) == 0x20000010 && place(13) == 0x20004010 && place(14) == 0x20400010 && place(15) == 0x20404010
  }

  lemma Placed6()
    ensures Nibbles6(Place6)
  {
  }

  lemma Table6(place: word -> word)
    requires Nibbles6(place)
    ensures Combined(place, SP6A, SP6B, SP6C, SP6D, S6R0, S6R1, S6R2, S6R3)
  {
  }

  /** Table SP6 is box S6 put through P. */
  lemma Entry6(n: nat)
    requires n < 64
    ensures SP6[n] == Place6(Output(S6, n))
  {
    Placed6();
    Table6(Place6);
    CombinedAt(Place6, SP6A, SP6B, SP6C, SP6D, S6R0, S6R1, S6R2, S6R3, n);
  }

  predicate Nibbles7(place: word -> word) {
    && place(0) == 0x00000000 && place(1) == 0x04000000 && place(2) == 0x00000800 && place(3) == 0x04000800
    && place(4) == 0x00200000 && place(5) == 0x04200000 && place(6) == 0x00200800 && place(7) == 0x04200800
    && place(8) == 0x00000002 && place(9) == 0x04000002 && place(10) == 0x00000802 && place(11) == 0x04000802
    && place(12) == 0x00200002 && place(13) == 0x04200002 && place(14) == 0x00200802 && place(15) == 0x04200802
  }

  lemma Placed7()
    ensures Nibbles7(Place7)
  {
  }

  lemma Table7(place: word -> word)
    requires Nibbles7(place)
    ensures Combined(place, SP7A, SP7B, SP7C, SP7D, S7R0, S7R1, S7R2, S7R3)
  {
  }

  /** Table SP7 is box S7 put through P. */
  lemma Entry7(n: nat)
    requires n < 64
    ensures SP7[n] == Place7(Output(S7, n))
  {
    Placed7();
    Table7(Place7);
    CombinedAt(Place7, SP7A, SP7B, SP7C, SP7D, S7R0, S7R1, S7R2, S7R3, n);
  }

  predicate Nibbles8(place: word -> word) {
    && place(0) == 0x00000000 && place(1) == 0x00001000 && place(2) == 0x00040000 && place(3) == 0x00041000
    && place(4) == 0x00000040 && place(5) == 0x00001040 && place(6) == 0x00040040 && place(7) == 0x00041040
    && place(8) == 0x10000000 && place(9) == 0x10001000 && place(10) == 0x10040000 && place(11) == 0x10041000
    && place(12) == 0x10000040 && place(13) == 0x10001040 && place(14) == 0x10040040 && place(15) == 0x10041040
  }

  lemma Placed8()
    ensures Nibbles8(Place8)
  {
  }

  lemma Table8(place: word -> word)
    requires Nibbles8(place)
    ensures Combined(place, SP8A, SP8B, SP8C, SP8D, S8R0, S8R1, S8R2, S8R3)
  {
  }

  /** Table SP8 is box S8 put through P. */
  lemma Entry8(n: nat)
    requires n < 64
    ensures SP8[n] == Place8(Output(S8, n))
  {
    Placed8();
    Table8(Place8);
    CombinedAt(Place8, SP8A, SP8B, SP8C, SP8D, S8R0, S8R1, S8R2, S8R3, n);
  }
}
