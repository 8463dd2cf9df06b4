/** DES as libtomcrypt's small-code path computes it: key schedule, swap networks, sixteen rounds. */
module Des {
  import opened Feistel
  import opened DesTables

  // ---------- the swap networks ----------

  /** Bits of the two halves trade places: those of the first, shifted down, with those of the second
      under a mask. */
  function Swap4(p: Pair): Pair { var w := ((p.l >> 4) ^ p.r) & 0x0f0f0f0f; Pair(p.l ^ (w << 4), p.r ^ w) }
  function Swap16(p: Pair): Pair { var w := ((p.l >> 16) ^ p.r) & 0x0000ffff; Pair(p.l ^ (w << 16), p.r ^ w) }
  function Swap2(p: Pair): Pair { var w := ((p.l >> 2) ^ p.r) & 0x33333333; Pair(p.l ^ (w << 2), p.r ^ w) }
  function Swap8(p: Pair): Pair { var w := ((p.l >> 8) ^ p.r) & 0x00ff00ff; Pair(p.l ^ (w << 8), p.r ^ w) }
  function SwapOdd(p: Pair): Pair { var w := (p.l ^ p.r) & 0xaaaaaaaa; Pair(p.l ^ w, p.r ^ w) }

  function InitialNetwork(p: Pair): Pair {
    var a := Swap16(Swap4(p));
    var b := Swapped(Swap8(Swap2(Swapped(a))));
    var c := SwapOdd(Pair(b.l, Rol1(b.r)));
    Pair(Rol1(c.l), c.r)
  }

  function FinalNetwork(p: Pair): Pair {
    var a := SwapOdd(Pair(p.l, Ror1(p.r)));
    var b := Swap2(Swap8(Pair(Ror1(a.l), a.r)));
    Swapped(Swap4(Swap16(Swapped(b))))
  }

  lemma FinalThenInitialLeft(p: Pair)
    ensures InitialNetwork(Swapped(FinalNetwork(p))).l == p.r
  {
  }

  lemma FinalThenInitialRight(p: Pair)
    ensures InitialNetwork(Swapped(FinalNetwork(p))).r == p.l
  {
  }

  /** The final network, between the exchange of halves before it and after it, undoes the initial one
      in both directions. */
  lemma FinalThenInitial(p: Pair)
    ensures InitialNetwork(Swapped(FinalNetwork(p))) == Swapped(p)
  {
    FinalThenInitialLeft(p);
    FinalThenInitialRight(p);
  }

  lemma InitialThenFinalLeft(p: Pair)
    ensures FinalNetwork(Swapped(InitialNetwork(p))).l == p.r
  {
  }

  lemma InitialThenFinalRight(p: Pair)
    ensures FinalNetwork(Swapped(InitialNetwork(p))).r == p.l
  {
  }

  lemma InitialThenFinal(p: Pair)
    ensures FinalNetwork(Swapped(InitialNetwork(p))) == Swapped(p)
  {
    InitialThenFinalLeft(p);
    InitialThenFinalRight(p);
  }

  /** The lowest bits of the eight bytes of a block, the last byte first. */
  function LowBits(p: Pair): word {
    ((p.r & 1) << 7) | (((p.r >> 8) & 1) << 6) | (((p.r >> 16) & 1) << 5) | (((p.r >> 24) & 1) << 4) |
    ((p.l & 1) << 3) | (((p.l >> 8) & 1) << 2) | (((p.l >> 16) & 1) << 1) | ((p.l >> 24) & 1)
  }

  /** The permutation IP of FIPS 46-3: bits 2, 4, 6 and 8 of every byte make up the left half, bits 1,
      3, 5 and 7 the right half. */
  function StandardIP(p: Pair): Pair {
    Pair((LowBits(Pair(p.l >> 6, p.r >> 6)) << 24) | (LowBits(Pair(p.l >> 4, p.r >> 4)) << 16) |
         (LowBits(Pair(p.l >> 2, p.r >> 2)) << 8) | LowBits(p),
         (LowBits(Pair(p.l >> 7, p.r >> 7)) << 24) | (LowBits(Pair(p.l >> 5, p.r >> 5)) << 16) |
         (LowBits(Pair(p.l >> 3, p.r >> 3)) << 8) | LowBits(Pair(p.l >> 1, p.r >> 1)))
  }

  /** The initial network is that permutation, with both halves kept rotated by one. */
  lemma InitialIsStandard(p: Pair)
    ensures InitialNetwork(p) == Pair(Rol1(StandardIP(p).l), Rol1(StandardIP(p).r))
  {
  }

  // ---------- the rounds ----------

  function At(t: seq<word>, i: word): word
    requires |t| == 64
  {
    t[(i & 0x3f) as int]
  }

  function Xor4(a: word, b: word, c: word, d: word): word { a ^ b ^ c ^ d }

  function OddBoxes(x: word): word {
    Xor4(At(SP7, x), At(SP5, x >> 8), At(SP3, x >> 16), At(SP1, x >> 24))
  }

  function EvenBoxes(x: word): word {
    Xor4(At(SP8, x), At(SP6, x >> 8), At(SP4, x >> 16), At(SP2, x >> 24))
  }

  function Xor(x: word, y: word): word { x ^ y }

  /** The round function with the two cooked words of a round key. */
  function RoundFunction(half: word, k: Pair): word {
    Xor(OddBoxes(Xor(Ror4(half), k.l)), EvenBoxes(Xor(half, k.r)))
  }

  const DES: Cipher<word, Pair> := Cipher(Xor, RoundFunction)

  lemma XorAddsBack()
    ensures AddsBack(DES)
  {
    forall x, y ensures DES.add(DES.add(x, y), y) == x { XorBack(x, y); }
  }

  lemma XorBack(x: word, y: word)
    ensures (x ^ y) ^ y == x
  {
  }

  // ---------- the key schedule ----------

  datatype Direction = EN0 | DE1

  predicate Masked(b: byte, mask: byte) { b & mask == mask }

  function KeyBit(b: byte, m: nat): bool
    requires m < 8
  {
    Masked(b, BYTEBIT[m])
  }

  function ChosenBy(key: seq<byte>, pc1: seq<KeyPos>): (bits: seq<bool>)
    requires |key| == 8
    ensures |bits| == |pc1|
  {
    seq(|pc1|, j requires 0 <= j < |pc1| => KeyBit(key[pc1[j] / 8], pc1[j] % 8))
  }

  /** The 56 key bits chosen by PC1. */
  function Chosen(key: seq<byte>): (bits: seq<bool>)
    requires |key| == 8
    ensures |bits| == 56
  {
    ChosenBy(key, PC1)
  }

  /** Where position `j` of a rotated half comes from; each half of 28 is rotated by itself. */
  function Source(j: nat, n: Rotation): (l: nat)
    requires j < 56
    ensures l < 56
  {
    var l := j + n;
    if j < 28 then (if l < 28 then l else l - 28) else (if l < 56 then l else l - 28)
  }

  function Turned(bits: seq<bool>, n: Rotation): (t: seq<bool>)
    requires |bits| == 56
    ensures |t| == 56
  {
    seq(56, j requires 0 <= j < 56 => bits[Source(j, n)])
  }

  /** The first `n` selected bits, each with its weight. */
  function Packed(bits: seq<bool>, select: seq<SubPos>, from: nat, weight: seq<word>, n: nat): word
    requires |bits| == 56 && from + n <= |select| && n <= |weight|
  {
    if n == 0 then 0 else WithBit(Packed(bits, select, from, weight, n - 1), bits[select[from + n - 1]], weight[n - 1])
  }

  function WithBit(x: word, bit: bool, weight: word): word { if bit then x | weight else x }

  /** The 48 bits that permuted choice 2 takes, 24 in each word, the first most significant. */
  function Choice2(cd: seq<bool>): Pair
    requires |cd| == 56
  {
    Pair(Packed(cd, PC2, 0, BIGBYTE, |BIGBYTE|), Packed(cd, PC2, 24, BIGBYTE, |BIGBYTE|))
  }

  /** The raw key of a round. */
  function RawKey(bits: seq<bool>, n: Rotation): Pair
    requires |bits| == 56
  {
    Choice2(Turned(bits, n))
  }

  function RawKeys(bits: seq<bool>): (raw: seq<Pair>)
    requires |bits| == 56
    ensures |raw| == 16
  {
    seq(16, i requires 0 <= i < 16 => RawKey(bits, TOTROT[i]))
  }

  /** Six-bit groups spread out as the round function wants them. */
  function Cooked(k: Pair): Pair {
    Pair(((k.l & 0x00fc0000) << 6) | ((k.l & 0x00000fc0) << 10) | ((k.r & 0x00fc0000) >> 10) |
        ((k.r & 0x00000fc0) >> 6),
         ((k.l & 0x0003f000) << 12) | ((k.l & 0x0000003f) << 16) | ((k.r & 0x0003f000) >> 4) | (k.r & 0x0000003f))
  }

  /** The raw keys in the order of use, cooked. */
  function Ordered(raw: seq<Pair>, edf: Direction): (keys: seq<Pair>)
    requires |raw| == 16
    ensures |keys| == 16
  {
    seq(16, i requires 0 <= i < 16 => Cooked(raw[Slot(edf, i)]))
  }

  /** The round that gets the i-th raw key. */
  function Slot(edf: Direction, i: nat): (k: nat)
    requires i < 16
    ensures k < 16
  {
    if edf.DE1? then 15 - i else i
  }

  function Schedule(key: seq<byte>, edf: Direction): (keys: seq<Pair>)
    requires |key| == 8
    ensures |keys| == 16
  {
    Ordered(RawKeys(Chosen(key)), edf)
  }

  /** The decryption schedule is the encryption schedule in reverse. */
  lemma ScheduleReversed(key: seq<byte>)
    requires |key| == 8
    ensures Reversed(Schedule(key, EN0), Schedule(key, DE1))
  {
    OrderedReversed(RawKeys(Chosen(key)));
  }

  lemma OrderedReversed(raw: seq<Pair>)
    requires |raw| == 16
    ensures Reversed(Ordered(raw, EN0), Ordered(raw, DE1))
  {
  }

  lemma KeyBitIgnoresLast(a: byte, b: byte, m: nat)
    requires m < 7 && a & 0xfe == b & 0xfe
    ensures KeyBit(a, m) == KeyBit(b, m)
  {
  }

  /** Keys that differ in parity bits only have the same schedules. */
  lemma ParityIgnored(key: seq<byte>, key': seq<byte>, edf: Direction)
    requires |key| == |key'| == 8
    requires forall i | 0 <= i < 8 :: key[i] & 0xfe == key'[i] & 0xfe
    ensures Schedule(key, edf) == Schedule(key', edf)
  {
    ChosenSame(key, key', PC1);
  }

  lemma ChosenSame(key: seq<byte>, key': seq<byte>, pc1: seq<KeyPos>)
    requires |key| == |key'| == 8
    requires forall i | 0 <= i < 8 :: key[i] & 0xfe == key'[i] & 0xfe
    ensures ChosenBy(key, pc1) == ChosenBy(key', pc1)
  {
    forall j | 0 <= j < |pc1| ensures ChosenBy(key, pc1)[j] == ChosenBy(key', pc1)[j] {
      KeyBitIgnoresLast(key[pc1[j] / 8], key'[pc1[j] / 8], pc1[j] % 8);
    }
  }

  // ---------- the block cipher ----------

  function AsHalves(p: Pair): Halves<word> { Halves(p.l, p.r) }
  function AsPair(h: Halves<word>): Pair { Pair(h.l, h.r) }

  lemma ThereAndBack(h: Halves<word>)
    ensures AsHalves(AsPair(h)) == h
  {
  }

  /** The sixteen rounds. */
  function AllRounds(p: Pair, keys: seq<Pair>): Pair
    requires |keys| == 16
  {
    AsPair(Rounds(DES, keys, |keys| / 2, AsHalves(p)))
  }

  lemma AllRoundsInvert(p: Pair, keys: seq<Pair>, back: seq<Pair>)
    requires |keys| == 16 && Reversed(keys, back)
    ensures AllRounds(Swapped(AllRounds(p, keys)), back) == Swapped(p)
  {
    XorAddsBack();
    RoundsInvert(DES, keys, back, |keys| / 2, Halves(p.l, p.r));
    var h := Rounds(DES, keys, |keys| / 2, Halves(p.l, p.r));
    assert Crossed(h) == Halves(h.r, h.l);
  }

  /** desfunc as a function of the block and the sixteen round keys. */
  function Desfunc(block: Pair, keys: seq<Pair>): Pair
    requires |keys| == 16
  {
    Swapped(FinalNetwork(AllRounds(InitialNetwork(block), keys)))
  }

  /** Running desfunc with reversed keys undoes it, for every block and every sixteen keys. */
  lemma DesfuncInverts(block: Pair, keys: seq<Pair>, back: seq<Pair>)
    requires |keys| == 16 && Reversed(keys, back)
    ensures Desfunc(Desfunc(block, keys), back) == block
  {
    var a := InitialNetwork(block);
    var b := AllRounds(a, keys);
    FinalThenInitial(b);
    AllRoundsInvert(a, keys, back);
    InitialThenFinal(block);
  }

  function Load32H(b: seq<byte>): word
    requires |b| == 4
  {
    (b[0] as word << 24) | (b[1] as word << 16) | (b[2] as word << 8) | b[3] as word
  }

  function Store32H(x: word): (b: seq<byte>)
    ensures |b| == 4
  {
    [((x >> 24) & 255) as byte, ((x >> 16) & 255) as byte, ((x >> 8) & 255) as byte, (x & 255) as byte]
  }

  lemma LoadStore(x: word)
    ensures Load32H(Store32H(x)) == x
  {
  }

  lemma StoreLoad(b: seq<byte>)
    requires |b| == 4
    ensures Store32H(Load32H(b)) == b
  {
  }

  function LoadBlock(text: seq<byte>): Pair
    requires |text| == 8
  {
    Pair(Load32H(text[..4]), Load32H(text[4..]))
  }

  function StoreBlock(p: Pair): (text: seq<byte>)
    ensures |text| == 8
  {
    Store32H(p.l) + Store32H(p.r)
  }

  lemma StoreThenLoad(p: Pair)
    ensures LoadBlock(StoreBlock(p)) == p
  {
    var text := StoreBlock(p);
    assert text[..4] == Store32H(p.l) && text[4..] == Store32H(p.r);
    LoadStore(p.l);
    LoadStore(p.r);
  }

  lemma LoadThenStore(text: seq<byte>)
    requires |text| == 8
    ensures StoreBlock(LoadBlock(text)) == text
  {
    StoreLoad(text[..4]);
    StoreLoad(text[4..]);
  }

  function Ecb(text: seq<byte>, keys: seq<Pair>): (out: seq<byte>)
    requires |text| == 8 && |keys| == 16
    ensures |out| == 8
  {
    StoreBlock(Desfunc(LoadBlock(text), keys))
  }

  function Encrypt(key: seq<byte>, pt: seq<byte>): (ct: seq<byte>)
    requires |key| == |pt| == 8
    ensures |ct| == 8
  {
    Ecb(pt, Schedule(key, EN0))
  }

  function Decrypt(key: seq<byte>, ct: seq<byte>): (pt: seq<byte>)
    requires |key| == |ct| == 8
    ensures |pt| == 8
  {
    Ecb(ct, Schedule(key, DE1))
  }

  lemma EcbInverts(text: seq<byte>, keys: seq<Pair>, back: seq<Pair>)
    requires |text| == 8 && |keys| == 16 && Reversed(keys, back)
    ensures Ecb(Ecb(text, keys), back) == text
  {
    var block := LoadBlock(text);
    StoreThenLoad(Desfunc(block, keys));
    DesfuncInverts(block, keys, back);
    LoadThenStore(text);
  }

  lemma EcbBothWays(text: seq<byte>, keys: seq<Pair>, back: seq<Pair>)
    requires |text| == 8 && |keys| == 16 && Reversed(keys, back)
    ensures Ecb(Ecb(text, keys), back) == text && Ecb(Ecb(text, back), keys) == text
  {
    EcbInverts(text, keys, back);
    forall i | 0 <= i < |back| ensures keys[i] == back[|back| - 1 - i] { }
    EcbInverts(text, back, keys);
  }

  /** Decryption undoes encryption and encryption undoes decryption, for every key and every block. */
  lemma DecryptUndoesEncrypt(key: seq<byte>, text: seq<byte>)
    requires |key| == |text| == 8
    ensures Decrypt(key, Encrypt(key, text)) == text
    ensures Encrypt(key, Decrypt(key, text)) == text
  {
    ScheduleReversed(key);
    EcbBothWays(text, Schedule(key, EN0), Schedule(key, DE1));
  }

  /** Parity bits of the key change neither encryption nor decryption. */
  lemma ParityNeverMatters(key: seq<byte>, key': seq<byte>, text: seq<byte>)
    requires |key| == |key'| == |text| == 8
    requires forall i | 0 <= i < 8 :: key[i] & 0xfe == key'[i] & 0xfe
    ensures Encrypt(key, text) == Encrypt(key', text)
    ensures Decrypt(key, text) == Decrypt(key', text)
  {
    ParityIgnored(key, key', EN0);
    ParityIgnored(key, key', DE1);
  }

  // ---------- the code ----------

  method ChooseBits(key: seq<byte>, pc1: seq<KeyPos>) returns (pc1m: seq<bool>)
    requires |key| == 8
    ensures pc1m == ChosenBy(key, pc1)
  {
    pc1m := [];
    var j := 0;
    while j < |pc1|
      invariant 0 <= j <= |pc1| && pc1m == ChosenBy(key, pc1)[..j]
    {
      pc1m := pc1m + [KeyBit(key[pc1[j] / 8], pc1[j] % 8)];
      j := j + 1;
    }
  }

  method TurnBits(pc1m: seq<bool>, n: Rotation) returns (pcr: seq<bool>)
    requires |pc1m| == 56
    ensures pcr == Turned(pc1m, n)
  {
    pcr := [];
    var j := 0;
    while j < 28
      invariant 0 <= j <= 28 && pcr == Turned(pc1m, n)[..j]
    {
      var l := j + n;
      pcr := pcr + [if l < 28 then pc1m[l] else pc1m[l - 28]];
      j := j + 1;
    }
    while j < 56
      invariant 28 <= j <= 56 && pcr == Turned(pc1m, n)[..j]
    {
      var l := j + n;
      pcr := pcr + [if l < 56 then pc1m[l] else pc1m[l - 28]];
      j := j + 1;
    }
  }

  method PackBits(pcr: seq<bool>, select: seq<SubPos>, weight: seq<word>) returns (hi: word, lo: word)
    requires |pcr| == 56 && |select| == 2 * |weight|
    ensures hi == Packed(pcr, select, 0, weight, |weight|) && lo == Packed(pcr, select, |weight|, weight, |weight|)
  {
    hi, lo := 0, 0;
    var j := 0;
    while j < |weight|
      invariant 0 <= j <= |weight|
      invariant hi == Packed(pcr, select, 0, weight, j) && lo == Packed(pcr, select, |weight|, weight, j)
    {
      hi := WithBit(hi, pcr[select[j]], weight[j]);
      lo := WithBit(lo, pcr[select[j + |weight|]], weight[j]);
      j := j + 1;
    }
  }

  method RoundKey(pc1m: seq<bool>, n: Rotation) returns (k: Pair)
    requires |pc1m| == 56
    ensures k == RawKey(pc1m, n)
  {
    var pcr := TurnBits(pc1m, n);
    var hi, lo := PackBits(pcr, PC2, BIGBYTE);
    k := Pair(hi, lo);
  }

  /** The raw keys, each put where its round will look for it. */
  method FillKeys(pc1m: seq<bool>, edf: Direction, totrot: seq<Rotation>, ghost raw: seq<Pair>) returns (kn: seq<Pair>)
    requires |pc1m| == 56 && |totrot| == 16 == |raw|
    requires forall i | 0 <= i < 16 :: raw[i] == RawKey(pc1m, totrot[i])
    ensures |kn| == 16 && forall k | 0 <= k < 16 :: kn[k] == raw[Slot(edf, k)]
  {
    kn := seq(16, _ => Pair(0, 0));
    var i := 0;
    while i < 16
      invariant 0 <= i <= 16 && |kn| == 16
      invariant forall k | 0 <= k < 16 && Slot(edf, k) < i :: kn[k] == raw[Slot(edf, k)]
    {
      var m := if edf.DE1? then 15 - i else i;
      var k := RoundKey(pc1m, totrot[i]);
      assert k == raw[i];
      kn := kn[m := k];
      i := i + 1;
    }
  }

  method Deskey(key: seq<byte>, edf: Direction) returns (keyout: seq<Pair>)
    requires |key| == 8
    ensures keyout == Schedule(key, edf)
  {
    var pc1m := ChooseBits(key, PC1);
    ghost var raw := RawKeys(pc1m);
    var kn := FillKeys(pc1m, edf, TOTROT, raw);
    keyout := Cookey(kn);
    assert keyout == Ordered(raw, edf);
  }

  method Cookey(raw: seq<Pair>) returns (dough: seq<Pair>)
    ensures |dough| == |raw| && forall i | 0 <= i < |raw| :: dough[i] == Cooked(raw[i])
  {
    dough := [];
    var i := 0;
    while i < |raw|
      invariant 0 <= i <= |raw| && |dough| == i
      invariant forall k | 0 <= k < i :: dough[k] == Cooked(raw[k])
    {
      dough := dough + [Cooked(raw[i])];
      i := i + 1;
    }
  }

  lemma XorTwice(x: word, a: word, b: word)
    ensures Xor(Xor(x, a), b) == Xor(x, Xor(a, b))
  {
  }

  /** The code of one round: the boxes of the one half with the two words of the round key, one after
      the other, into the other half. */
  function HalfRound(target: word, half: word, k: Pair): word {
    var odd := Xor(target, OddBoxes(Xor(Ror4(half), k.l)));
    Xor(odd, EvenBoxes(Xor(half, k.r)))
  }

  lemma HalfRoundIs(target: word, half: word, k: Pair)
    ensures HalfRound(target, half, k) == DES.add(target, DES.f(half, k))
  {
    XorTwice(target, OddBoxes(Xor(Ror4(half), k.l)), EvenBoxes(Xor(half, k.r)));
  }

  lemma CodeSteps()
    ensures StepsAs(DES, HalfRound)
  {
    forall target, half, k ensures HalfRound(target, half, k) == DES.add(target, DES.f(half, k)) {
      HalfRoundIs(target, half, k);
    }
  }

  method CodeRounds(p: Pair, keys: seq<Pair>) returns (q: Pair)
    requires |keys| == 16
    ensures q == AllRounds(p, keys)
  {
    CodeSteps();
    var h := RunRounds(DES, HalfRound, keys, |keys| / 2, Halves(p.l, p.r));
    q := Pair(h.l, h.r);
  }

  /** desfunc on its block of two words, changed in place. */
  method DesfuncInPlace(block: array<word>, keys: seq<Pair>)
    requires block.Length == 2 && |keys| == 16
    modifies block
    ensures Pair(block[0], block[1]) == Desfunc(old(Pair(block[0], block[1])), keys)
  {
    var p := InitialNetwork(Pair(block[0], block[1]));
    p := CodeRounds(p, keys);
    p := FinalNetwork(p);
    block[0], block[1] := p.r, p.l;
  }

  /** Encryption and decryption of one block, each with the schedule that des_setup made for it. */
  method EcbBlock(text: seq<byte>, keys: seq<Pair>) returns (out: seq<byte>)
    requires |text| == 8 && |keys| == 16
    ensures out == Ecb(text, keys)
  {
    var work := new word[2];
    work[0], work[1] := Load32H(text[..4]), Load32H(text[4..]);
    DesfuncInPlace(work, keys);
    out := Store32H(work[0]) + Store32H(work[1]);
  }
}
