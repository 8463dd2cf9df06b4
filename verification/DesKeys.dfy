/** The key schedule of FIPS 46-3, shift by shift, and that the code computes it: so the code's
    encryption is the standard's for every key. */
module DesKeys {
  import opened Feistel
  import opened DesTables
  import opened Des
  import opened DesStandard

  // ---------- the schedule of the standard ----------

  /** How far C and D are shifted to the left for each round. */
  const SHIFTS: seq<nat> := [1, 1, 2, 2, 2, 2, 2, 2, 1, 2, 2, 2, 2, 2, 2, 1]

  /** One left shift of C and D, each by itself. */
  function Shift(cd: seq<bool>): (t: seq<bool>)
    requires |cd| == 56
    ensures |t| == 56
  {
    cd[1..28] + [cd[0]] + cd[29..] + [cd[28]]
  }

  function Shifted(cd: seq<bool>, n: nat): (t: seq<bool>)
    requires |cd| == 56
    ensures |t| == 56
  {
    if n == 0 then cd else Shift(Shifted(cd, n - 1))
  }

  /** C and D after `i` rounds. */
  function CD(bits: seq<bool>, i: nat): (cd: seq<bool>)
    requires |bits| == 56 && i <= 16
    ensures |cd| == 56
  {
    if i == 0 then bits else Shifted(CD(bits, i - 1), SHIFTS[i - 1])
  }

  type KeyBitNumber = n: nat | 1 <= n <= 64 witness 1
  type SubBitNumber = n: nat | 1 <= n <= 56 witness 1

  /** Permuted choice 1 as the standard prints it: bits of the key, counted from 1. */
  const CHOICE1A: seq<KeyBitNumber> := [57, 49, 41, 33, 25, 17, 9, 1, 58, 50, 42, 34, 26, 18]
  const CHOICE1B: seq<KeyBitNumber> := [10, 2, 59, 51, 43, 35, 27, 19, 11, 3, 60, 52, 44, 36]
  const CHOICE1C: seq<KeyBitNumber> := [63, 55, 47, 39, 31, 23, 15, 7, 62, 54, 46, 38, 30, 22]
  const CHOICE1D: seq<KeyBitNumber> := [14, 6, 61, 53, 45, 37, 29, 21, 13, 5, 28, 20, 12, 4]
  const CHOICE1: seq<KeyBitNumber> := CHOICE1A + CHOICE1B + CHOICE1C + CHOICE1D

  /** Permuted choice 2: bits of C and D, counted from 1. */
  const CHOICE2A: seq<SubBitNumber> := [14, 17, 11, 24, 1, 5, 3, 28, 15, 6, 21, 10]
  const CHOICE2B: seq<SubBitNumber> := [23, 19, 12, 4, 26, 8, 16, 7, 27, 20, 13, 2]
  const CHOICE2C: seq<SubBitNumber> := [41, 52, 31, 37, 47, 55, 30, 40, 51, 45, 33, 48]
  const CHOICE2D: seq<SubBitNumber> := [44, 49, 39, 56, 34, 53, 46, 42, 50, 36, 29, 32]
  const CHOICE2: seq<SubBitNumber> := CHOICE2A + CHOICE2B + CHOICE2C + CHOICE2D

  /** What bit `m` of a byte counts, the first being the most significant. */
  function Worth(m: nat): (w: byte)
    ensures w != 0
  {
    if m == 0 then 128 else if m == 1 then 64 else if m == 2 then 32 else if m == 3 then 16
    else if m == 4 then 8 else if m == 5 then 4 else if m == 6 then 2 else 1
  }

  predicate Counted(b: byte, worth: byte)
    requires worth != 0
  {
    b / worth % 2 == 1
  }

  predicate HasBit(b: byte, m: nat) { Counted(b, Worth(m)) }

  function NthBit(key: seq<byte>, n: KeyBitNumber): bool
    requires |key| == 8
  {
    HasBit(key[(n - 1) / 8], (n - 1) % 8)
  }

  function ChosenBits(key: seq<byte>, choice: seq<KeyBitNumber>): (bits: seq<bool>)
    requires |key| == 8
    ensures |bits| == |choice|
  {
    seq(|choice|, j requires 0 <= j < |choice| => NthBit(key, choice[j]))
  }

  /** What bit `i` of 24 counts. */
  function Weight(i: nat): word
    requires i < 24
    decreases 24 - i
  {
    if i == 23 then 1 else 2 * Weight(i + 1)
  }

  /** The first `n` of 24 bits from place `from` of a choice. */
  function Taken(cd: seq<bool>, choice: seq<SubBitNumber>, from: nat, n: nat): word
    requires |cd| == 56 && n <= 24 && from + n <= |choice|
  {
    if n == 0 then 0 else WithBit(Taken(cd, choice, from, n - 1), cd[choice[from + n - 1] - 1], Weight(n - 1))
  }

  function Halved(cd: seq<bool>, choice: seq<SubBitNumber>): Pair
    requires |cd| == 56 && |choice| == 48
  {
    Pair(Taken(cd, choice, 0, 24), Taken(cd, choice, 24, 24))
  }

  lemma ChoiceSizes()
    ensures |CHOICE1| == 56 && |CHOICE2| == 48
  {
  }

  /** Key `i`, counted from 0, for the 56 bits chosen first. */
  function StandardKey(bits: seq<bool>, i: nat): Pair
    requires |bits| == 56 && i < 16
  {
    ChoiceSizes();
    Halved(CD(bits, i + 1), CHOICE2)
  }

  /** K1 to K16. */
  function StandardKeys(key: seq<byte>): (keys: seq<Pair>)
    requires |key| == 8
    ensures |keys| == 16
  {
    ChoiceSizes();
    var bits := ChosenBits(key, CHOICE1);
    seq(16, i requires 0 <= i < 16 => StandardKey(bits, i))
  }

  // ---------- the code's choices ----------

  /** The tables of the code count from 0. */
  ghost predicate FromOne(code: seq<nat>, standard: seq<nat>) {
    |code| == |standard| && forall i :: 0 <= i < |code| ==> code[i] + 1 == standard[i]
  }

  lemma FromOneJoined(a: seq<nat>, b: seq<nat>, c: seq<nat>, d: seq<nat>,
                      a': seq<nat>, b': seq<nat>, c': seq<nat>, d': seq<nat>)
    requires FromOne(a, a') && FromOne(b, b') && FromOne(c, c') && FromOne(d, d')
    ensures FromOne(a + b + c + d, a' + b' + c' + d')
  {
  }

  lemma Choice1Is()
    ensures FromOne(PC1, CHOICE1)
  {
    assert FromOne(PC1A, CHOICE1A) && FromOne(PC1B, CHOICE1B) && FromOne(PC1C, CHOICE1C) && FromOne(PC1D, CHOICE1D);
    FromOneJoined(PC1A, PC1B, PC1C, PC1D, CHOICE1A, CHOICE1B, CHOICE1C, CHOICE1D);
  }

  lemma Choice2Is()
    ensures FromOne(PC2, CHOICE2)
  {
    assert FromOne(PC2A, CHOICE2A) && FromOne(PC2B, CHOICE2B) && FromOne(PC2C, CHOICE2C) && FromOne(PC2D, CHOICE2D);
    FromOneJoined(PC2A, PC2B, PC2C, PC2D, CHOICE2A, CHOICE2B, CHOICE2C, CHOICE2D);
  }

  lemma MaskIsWorth(b: byte)
    ensures b & 0x80 == 0x80 <==> b / 128 % 2 == 1
    ensures b & 0x40 == 0x40 <==> b / 64 % 2 == 1
    ensures b & 0x20 == 0x20 <==> b / 32 % 2 == 1
    ensures b & 0x10 == 0x10 <==> b / 16 % 2 == 1
    ensures b & 0x08 == 0x08 <==> b / 8 % 2 == 1
    ensures b & 0x04 == 0x04 <==> b / 4 % 2 == 1
    ensures b & 0x02 == 0x02 <==> b / 2 % 2 == 1
    ensures b & 0x01 == 0x01 <==> b / 1 % 2 == 1
  {
  }

  lemma ByteBitIs(m: nat)
    requires m < 8
    ensures BYTEBIT[m] == Worth(m)
  {
  }

  predicate IsWorth(w: byte) {
    w == 128 || w == 64 || w == 32 || w == 16 || w == 8 || w == 4 || w == 2 || w == 1
  }

  lemma WorthIs(m: nat)
    ensures IsWorth(Worth(m))
  {
  }

  lemma MaskIs(b: byte, w: byte)
    requires IsWorth(w)
    ensures Masked(b, w) <==> Counted(b, w)
  {
    MaskIsWorth(b);
  }

  lemma KeyBitIs(b: byte, m: nat)
    requires m < 8
    ensures KeyBit(b, m) <==> HasBit(b, m)
  {
    ByteBitIs(m);
    WorthIs(m);
    MaskIs(b, Worth(m));
  }

  lemma NthBitIs(key: seq<byte>, p: nat, n: nat)
    requires |key| == 8 && p < 64 && p + 1 == n
    ensures KeyBit(key[p / 8], p % 8) == NthBit(key, n)
  {
    KeyBitIs(key[p / 8], p % 8);
  }

  lemma ChosenIs(key: seq<byte>, pc1: seq<KeyPos>, choice: seq<KeyBitNumber>)
    requires |key| == 8 && FromOne(pc1, choice)
    ensures ChosenBy(key, pc1) == ChosenBits(key, choice)
  {
    forall j | 0 <= j < |pc1| ensures ChosenBy(key, pc1)[j] == ChosenBits(key, choice)[j] {
      var p: nat, n: nat := pc1[j], choice[j];
      assert p + 1 == n;
      NthBitIs(key, p, n);
    }
  }

  lemma DoublesA(i: nat)
    requires i < 11
    ensures BIGBYTEA[i] == 2 * BIGBYTEA[i + 1]
  {
  }

  lemma DoublesB(i: nat)
    requires i < 11
    ensures BIGBYTEB[i] == 2 * BIGBYTEB[i + 1]
  {
  }

  lemma {:induction false} WeightB(i: nat)
    requires i < 12
    ensures BIGBYTEB[i] == Weight(i + 12)
    decreases 12 - i
  {
    if i < 11 {
      DoublesB(i);
      WeightB(i + 1);
    }
  }

  lemma {:induction false} WeightA(i: nat)
    requires i < 12
    ensures BIGBYTEA[i] == Weight(i)
    decreases 12 - i
  {
    if i < 11 {
      DoublesA(i);
      WeightA(i + 1);
    } else {
      WeightB(0);
    }
  }

  lemma WeightIs(i: nat)
    requires i < 24
    ensures |BIGBYTE| == 24 && BIGBYTE[i] == Weight(i)
  {
    if i < 12 {
      WeightA(i);
    } else {
      WeightB(i - 12);
    }
  }

  lemma {:induction false} PackedIs(cd: seq<bool>, pc2: seq<SubPos>, choice: seq<SubBitNumber>, from: nat,
                                    weight: seq<word>, n: nat)
    requires |cd| == 56 && FromOne(pc2, choice) && from + n <= |pc2| && n <= |weight| == 24
    requires forall i :: 0 <= i < 24 ==> weight[i] == Weight(i)
    ensures Packed(cd, pc2, from, weight, n) == Taken(cd, choice, from, n)
  {
    if n > 0 {
      PackedIs(cd, pc2, choice, from, weight, n - 1);
      var p: nat, c: nat := pc2[from + n - 1], choice[from + n - 1];
      assert p + 1 == c;
    }
  }

  lemma Choice2Taken(cd: seq<bool>)
    requires |cd| == 56
    ensures |CHOICE2| == 48 && Choice2(cd) == Halved(cd, CHOICE2)
  {
    ChoiceSizes();
    Choice2Is();
    forall i | 0 <= i < 24 ensures BIGBYTE[i] == Weight(i) { WeightIs(i); }
    PackedIs(cd, PC2, CHOICE2, 0, BIGBYTE, |BIGBYTE|);
    PackedIs(cd, PC2, CHOICE2, 24, BIGBYTE, |BIGBYTE|);
  }

  // ---------- the code's rotations ----------

  lemma ShiftTurned(bits: seq<bool>, n: Rotation)
    requires |bits| == 56 && n < 28
    ensures Shift(Turned(bits, n)) == Turned(bits, n + 1)
  {
    var a, b := Shift(Turned(bits, n)), Turned(bits, n + 1);
    forall j | 0 <= j < 56 ensures a[j] == b[j] {
    }
  }

  lemma {:induction false} ShiftedTurned(bits: seq<bool>, n: Rotation, m: nat)
    requires |bits| == 56 && n + m <= 28
    ensures Shifted(Turned(bits, n), m) == Turned(bits, n + m)
  {
    if m > 0 {
      ShiftedTurned(bits, n, m - 1);
      ShiftTurned(bits, n + m - 1);
    }
  }

  /** The code's table holds the sums of the shifts. */
  lemma Sums(i: nat)
    requires 1 <= i < 16
    ensures TOTROT[i] == TOTROT[i - 1] + SHIFTS[i] && TOTROT[0] == SHIFTS[0]
  {
    assert i == 1 || i == 2 || i == 3 || i == 4 || i == 5 || i == 6 || i == 7 || i == 8 || i == 9 || i == 10
        || i == 11 || i == 12 || i == 13 || i == 14 || i == 15;
  }

  /** Rotating once by the sum is shifting round by round. */
  lemma {:induction false} CDIsTurned(bits: seq<bool>, i: nat)
    requires |bits| == 56 && i < 16
    ensures CD(bits, i + 1) == Turned(bits, TOTROT[i])
  {
    if i == 0 {
      assert Turned(bits, 0) == bits;
      ShiftedTurned(bits, 0, SHIFTS[0]);
      Sums(1);
      assert CD(bits, 0) == bits;
    } else {
      CDIsTurned(bits, i - 1);
      Sums(i);
      ShiftedTurned(bits, TOTROT[i - 1], SHIFTS[i]);
    }
  }

  lemma RawKeyIs(bits: seq<bool>, i: nat)
    requires |bits| == 56 && i < 16
    ensures RawKey(bits, TOTROT[i]) == StandardKey(bits, i)
  {
    CDIsTurned(bits, i);
    Choice2Taken(CD(bits, i + 1));
  }

  /** The raw keys of the code are the keys of the standard. */
  lemma RawKeysAreStandard(key: seq<byte>)
    requires |key| == 8
    ensures RawKeys(Chosen(key)) == StandardKeys(key)
  {
    Choice1Is();
    ChosenIs(key, PC1, CHOICE1);
    forall i | 0 <= i < 16 ensures RawKeys(Chosen(key))[i] == StandardKeys(key)[i] {
      RawKeyIs(Chosen(key), i);
    }
  }

  // ---------- the cipher ----------

  /** The 64 bits of a block as two numbers. */
  function Block(text: seq<byte>): Pair
    requires |text| == 8
  {
    Pair(Digits(text[0] as word, text[1] as word, text[2] as word, text[3] as word),
         Digits(text[4] as word, text[5] as word, text[6] as word, text[7] as word))
  }

  function Digits(a: word, b: word, c: word, d: word): word { ((a * 256 + b) * 256 + c) * 256 + d }

  lemma LoadIsDigits(a: byte, b: byte, c: byte, d: byte)
    ensures (a as word << 24) | (b as word << 16) | (c as word << 8) | d as word ==
            ((a as word * 256 + b as word) * 256 + c as word) * 256 + d as word
  {
  }

  lemma HalfIsDigits(b: seq<byte>)
    requires |b| == 4
    ensures Load32H(b) == Digits(b[0] as word, b[1] as word, b[2] as word, b[3] as word)
  {
    LoadIsDigits(b[0], b[1], b[2], b[3]);
  }

  lemma LoadIsBlock(text: seq<byte>)
    requires |text| == 8
    ensures LoadBlock(text) == Block(text)
  {
    HalfIsDigits(text[..4]);
    HalfIsDigits(text[4..]);
  }

  /** For every key and block of eight bytes the code's encryption is the ciphertext of FIPS 46-3: the
      one block whose initial permutation is R16 L16 under K1 to K16. */
  lemma EncryptIsStandard(key: seq<byte>, text: seq<byte>, out: seq<byte>)
    requires |key| == |text| == |out| == 8
    ensures var ip := StandardIP(Block(text));
            var q := Ladder(STANDARD, StandardKeys(key), 16, Halves(ip.l, ip.r));
            StandardIP(Block(out)) == Pair(q.r, q.l) <==> out == Encrypt(key, text)
  {
    LoadIsBlock(text);
    LoadIsBlock(out);
    RawKeysAreStandard(key);
    DesfuncIsCiphertext(LoadBlock(text), StandardKeys(key), LoadBlock(out));
    var block := Desfunc(LoadBlock(text), Schedule(key, EN0));
    StoredBlock(block, out);
  }

  lemma StoredBlock(block: Pair, out: seq<byte>)
    requires |out| == 8
    ensures LoadBlock(out) == block <==> out == StoreBlock(block)
  {
    StoreThenLoad(block);
    LoadThenStore(out);
  }
}
