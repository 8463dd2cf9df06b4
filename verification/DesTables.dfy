/** The tables of the DES code, and the substitution boxes and the permutation P of FIPS 46-3. */
module DesTables {

  type word = bv32
  type byte = bv8

  datatype Pair = Pair(l: word, r: word)

  function Swapped(p: Pair): Pair { Pair(p.r, p.l) }

  /** Positions in an eight-byte key, bit 0 the most significant; never the last bit of a byte. */
  type KeyPos = i: nat | i < 64 && i % 8 != 7
  type SubPos = i: nat | i < 56

  const PC1A: seq<KeyPos> := [
    56, 48, 40, 32, 24, 16, 8, 0, 57, 49, 41, 33, 25, 17]
  const PC1B: seq<KeyPos> := [
    9, 1, 58, 50, 42, 34, 26, 18, 10, 2, 59, 51, 43, 35]
  const PC1C: seq<KeyPos> := [
    62, 54, 46, 38, 30, 22, 14, 6, 61, 53, 45, 37, 29, 21]
  const PC1D: seq<KeyPos> := [
    13, 5, 60, 52, 44, 36, 28, 20, 12, 4, 27, 19, 11, 3]
  const PC1: seq<KeyPos> := PC1A + PC1B + PC1C + PC1D

  type Rotation = n: nat | n <= 28

  const TOTROT: seq<Rotation> := [1, 2, 4, 6, 8, 10, 12, 14, 15, 17, 19, 21, 23, 25, 27, 28]

  const PC2A: seq<SubPos> := [
    13, 16, 10, 23, 0, 4, 2, 27, 14, 5, 20, 9]
  const PC2B: seq<SubPos> := [
    22, 18, 11, 3, 25, 7, 15, 6, 26, 19, 12, 1]
  const PC2C: seq<SubPos> := [
    40, 51, 30, 36, 46, 54, 29, 39, 50, 44, 32, 47]
  const PC2D: seq<SubPos> := [
    43, 48, 38, 55, 33, 52, 45, 41, 49, 35, 28, 31]
  const PC2: seq<SubPos> := PC2A + PC2B + PC2C + PC2D

  const BYTEBIT: seq<byte> := [0x80, 0x40, 0x20, 0x10, 0x08, 0x04, 0x02, 0x01]

  const BIGBYTEA: seq<word> := [
    0x800000, 0x400000, 0x200000, 0x100000, 0x80000, 0x40000, 0x20000, 0x10000, 0x8000, 0x4000, 0x2000, 0x1000]
  const BIGBYTEB: seq<word> := [
    0x800, 0x400, 0x200, 0x100, 0x80, 0x40, 0x20, 0x10, 0x8, 0x4, 0x2, 0x1]
  const BIGBYTE: seq<word> := BIGBYTEA + BIGBYTEB

  function Rol1(x: word): word { (x << 1) | (x >> 31) }
  function Ror1(x: word): word { (x >> 1) | (x << 31) }
  function Ror4(x: word): word { (x >> 4) | (x << 28) }

  /** The permutation P of FIPS 46-3. */
  function Permuted(x: word): word {
    (((x >> 16) & 1) << 31) | (((x >> 25) & 1) << 30) | (((x >> 12) & 1) << 29) | (((x >> 11) & 1) << 28) |
    (((x >> 3) & 1) << 27) | (((x >> 20) & 1) << 26) | (((x >> 4) & 1) << 25) | (((x >> 15) & 1) << 24) |
    (((x >> 31) & 1) << 23) | (((x >> 17) & 1) << 22) | (((x >> 9) & 1) << 21) | (((x >> 6) & 1) << 20) |
    (((x >> 27) & 1) << 19) | (((x >> 14) & 1) << 18) | (((x >> 1) & 1) << 17) | (((x >> 22) & 1) << 16) |
    (((x >> 30) & 1) << 15) | (((x >> 24) & 1) << 14) | (((x >> 8) & 1) << 13) | (((x >> 18) & 1) << 12) |
    (((x >> 0) & 1) << 11) | (((x >> 5) & 1) << 10) | (((x >> 29) & 1) << 9) | (((x >> 23) & 1) << 8) |
    (((x >> 13) & 1) << 7) | (((x >> 19) & 1) << 6) | (((x >> 2) & 1) << 5) | (((x >> 26) & 1) << 4) |
    (((x >> 10) & 1) << 3) | (((x >> 21) & 1) << 2) | (((x >> 28) & 1) << 1) | (((x >> 7) & 1) << 0)
  }

  /** The output of a box, put through P at the place of the box, with the half rotated by one. */
  function Place1(s: word): word { Rol1(Permuted(s << 28)) }
  function Place2(s: word): word { Rol1(Permuted(s << 24)) }
  function Place3(s: word): word { Rol1(Permuted(s << 20)) }
  function Place4(s: word): word { Rol1(Permuted(s << 16)) }
  function Place5(s: word): word { Rol1(Permuted(s << 12)) }
  function Place6(s: word): word { Rol1(Permuted(s << 8)) }
  function Place7(s: word): word { Rol1(Permuted(s << 4)) }
  function Place8(s: word): word { Rol1(Permuted(s << 0)) }

  // ---------- the substitution boxes of FIPS 46-3, row by row ----------

  type Nibble = s: word | s <= 15

  datatype Box = Box(r0: seq<Nibble>, r1: seq<Nibble>, r2: seq<Nibble>, r3: seq<Nibble>)

  const S1R0: seq<Nibble> := [14, 4, 13, 1, 2, 15, 11, 8, 3, 10, 6, 12, 5, 9, 0, 7]
  const S1R1: seq<Nibble> := [0, 15, 7, 4, 14, 2, 13, 1, 10, 6, 12, 11, 9, 5, 3, 8]
  const S1R2: seq<Nibble> := [4, 1, 14, 8, 13, 6, 2, 11, 15, 12, 9, 7, 3, 10, 5, 0]
  const S1R3: seq<Nibble> := [15, 12, 8, 2, 4, 9, 1, 7, 5, 11, 3, 14, 10, 0, 6, 13]
  const S1: Box := Box(S1R0, S1R1, S1R2, S1R3)
  const S2R0: seq<Nibble> := [15, 1, 8, 14, 6, 11, 3, 4, 9, 7, 2, 13, 12, 0, 5, 10]
  const S2R1: seq<Nibble> := [3, 13, 4, 7, 15, 2, 8, 14, 12, 0, 1, 10, 6, 9, 11, 5]
  const S2R2: seq<Nibble> := [0, 14, 7, 11, 10, 4, 13, 1, 5, 8, 12, 6, 9, 3, 2, 15]
  const S2R3: seq<Nibble> := [13, 8, 10, 1, 3, 15, 4, 2, 11, 6, 7, 12, 0, 5, 14, 9]
  const S2: Box := Box(S2R0, S2R1, S2R2, S2R3)
  const S3R0: seq<Nibble> := [10, 0, 9, 14, 6, 3, 15, 5, 1, 13, 12, 7, 11, 4, 2, 8]
  const S3R1: seq<Nibble> := [13, 7, 0, 9, 3, 4, 6, 10, 2, 8, 5, 14, 12, 11, 15, 1]
  const S3R2: seq<Nibble> := [13, 6, 4, 9, 8, 15, 3, 0, 11, 1, 2, 12, 5, 10, 14, 7]
  const S3R3: seq<Nibble> := [1, 10, 13, 0, 6, 9, 8, 7, 4, 15, 14, 3, 11, 5, 2, 12]
  const S3: Box := Box(S3R0, S3R1, S3R2, S3R3)
  const S4R0: seq<Nibble> := [7, 13, 14, 3, 0, 6, 9, 10, 1, 2, 8, 5, 11, 12, 4, 15]
  const S4R1: seq<Nibble> := [13, 8, 11, 5, 6, 15, 0, 3, 4, 7, 2, 12, 1, 10, 14, 9]
  const S4R2: seq<Nibble> := [10, 6, 9, 0, 12, 11, 7, 13, 15, 1, 3, 14, 5, 2, 8, 4]
  const S4R3: seq<Nibble> := [3, 15, 0, 6, 10, 1, 13, 8, 9, 4, 5, 11, 12, 7, 2, 14]
  const S4: Box := Box(S4R0, S4R1, S4R2, S4R3)
  const S5R0: seq<Nibble> := [2, 12, 4, 1, 7, 10, 11, 6, 8, 5, 3, 15, 13, 0, 14, 9]
  const S5R1: seq<Nibble> := [14, 11, 2, 12, 4, 7, 13, 1, 5, 0, 15, 10, 3, 9, 8, 6]
  const S5R2: seq<Nibble> := [4, 2, 1, 11, 10, 13, 7, 8, 15, 9, 12, 5, 6, 3, 0, 14]
  const S5R3: seq<Nibble> := [11, 8, 12, 7, 1, 14, 2, 13, 6, 15, 0, 9, 10, 4, 5, 3]
  const S5: Box := Box(S5R0, S5R1, S5R2, S5R3)
  const S6R0: seq<Nibble> := [12, 1, 10, 15, 9, 2, 6, 8, 0, 13, 3, 4, 14, 7, 5, 11]
  const S6R1: seq<Nibble> := [10, 15, 4, 2, 7, 12, 9, 5, 6, 1, 13, 14, 0, 11, 3, 8]
  const S6R2: seq<Nibble> := [9, 14, 15, 5, 2, 8, 12, 3, 7, 0, 4, 10, 1, 13, 11, 6]
  const S6R3: seq<Nibble> := [4, 3, 2, 12, 9, 5, 15, 10, 11, 14, 1, 7, 6, 0, 8, 13]
  const S6: Box := Box(S6R0, S6R1, S6R2, S6R3)
  const S7R0: seq<Nibble> := [4, 11, 2, 14, 15, 0, 8, 13, 3, 12, 9, 7, 5, 10, 6, 1]
  const S7R1: seq<Nibble> := [13, 0, 11, 7, 4, 9, 1, 10, 14, 3, 5, 12, 2, 15, 8, 6]
  const S7R2: seq<Nibble> := [1, 4, 11, 13, 12, 3, 7, 14, 10, 15, 6, 8, 0, 5, 9, 2]
  const S7R3: seq<Nibble> := [6, 11, 13, 8, 1, 4, 10, 7, 9, 5, 0, 15, 14, 2, 3, 12]
  const S7: Box := Box(S7R0, S7R1, S7R2, S7R3)
  const S8R0: seq<Nibble> := [13, 2, 8, 4, 6, 15, 11, 1, 10, 9, 3, 14, 5, 0, 12, 7]
  const S8R1: seq<Nibble> := [1, 15, 13, 8, 10, 3, 7, 4, 12, 5, 6, 11, 0, 14, 9, 2]
  const S8R2: seq<Nibble> := [7, 11, 4, 1, 9, 12, 14, 2, 0, 6, 10, 13, 15, 3, 5, 8]
  const S8R3: seq<Nibble> := [2, 1, 14, 7, 4, 10, 8, 13, 15, 12, 9, 0, 3, 5, 6, 11]
  const S8: Box := Box(S8R0, S8R1, S8R2, S8R3)

  // ---------- the tables of the code, which combine a box with P ----------

  const SP1A: seq<word> := [
    0x01010400, 0x00000000, 0x00010000, 0x01010404, 0x01010004, 0x00010404, 0x00000004, 0x00010000,
    0x00000400, 0x01010400, 0x01010404, 0x00000400, 0x01000404, 0x01010004, 0x01000000, 0x00000004]
  const SP1B: seq<word> := [
    0x00000404, 0x01000400, 0x01000400, 0x00010400, 0x00010400, 0x01010000, 0x01010000, 0x01000404,
    0x00010004, 0x01000004, 0x01000004, 0x00010004, 0x00000000, 0x00000404, 0x00010404, 0x01000000]
  const SP1C: seq<word> := [
    0x00010000, 0x01010404, 0x00000004, 0x01010000, 0x01010400, 0x01000000, 0x01000000, 0x00000400,
    0x01010004, 0x00010000, 0x00010400, 0x01000004, 0x00000400, 0x00000004, 0x01000404, 0x00010404]
  const SP1D: seq<word> := [
    0x01010404, 0x00010004, 0x01010000, 0x01000404, 0x01000004, 0x00000404, 0x00010404, 0x01010400,
    0x00000404, 0x01000400, 0x01000400, 0x00000000, 0x00010004, 0x00010400, 0x00000000, 0x01010004]
  const SP1: seq<word> := SP1A + SP1B + SP1C + SP1D
  const SP2A: seq<word> := [
    0x80108020, 0x80008000, 0x00008000, 0x00108020, 0x00100000, 0x00000020, 0x80100020, 0x80008020,
    0x80000020, 0x80108020, 0x80108000, 0x80000000, 0x80008000, 0x00100000, 0x00000020, 0x80100020]
  const SP2B: seq<word> := [
    0x00108000, 0x00100020, 0x80008020, 0x00000000, 0x80000000, 0x00008000, 0x00108020, 0x80100000,
    0x00100020, 0x80000020, 0x00000000, 0x00108000, 0x00008020, 0x80108000, 0x80100000, 0x00008020]
  const SP2C: seq<word> := [
    0x00000000, 0x00108020, 0x80100020, 0x00100000, 0x80008020, 0x80100000, 0x80108000, 0x00008000,
    0x80100000, 0x80008000, 0x00000020, 0x80108020, 0x00108020, 0x00000020, 0x00008000, 0x80000000]
  const SP2D: seq<word> := [
    0x00008020, 0x80108000, 0x00100000, 0x80000020, 0x00100020, 0x80008020, 0x80000020, 0x00100020,
    0x00108000, 0x00000000, 0x80008000, 0x00008020, 0x80000000, 0x80100020, 0x80108020, 0x00108000]
  const SP2: seq<word> := SP2A + SP2B + SP2C + SP2D
  const SP3A: seq<word> := [
    0x00000208, 0x08020200, 0x00000000, 0x08020008, 0x08000200, 0x00000000, 0x00020208, 0x08000200,
    0x00020008, 0x08000008, 0x08000008, 0x00020000, 0x08020208, 0x00020008, 0x08020000, 0x00000208]
  const SP3B: seq<word> := [
    0x08000000, 0x00000008, 0x08020200, 0x00000200, 0x00020200, 0x08020000, 0x08020008, 0x00020208,
    0x08000208, 0x00020200, 0x00020000, 0x08000208, 0x00000008, 0x08020208, 0x00000200, 0x08000000]
  const SP3C: seq<word> := [
    0x08020200, 0x08000000, 0x00020008, 0x00000208, 0x00020000, 0x08020200, 0x08000200, 0x00000000,
    0x00000200, 0x00020008, 0x08020208, 0x08000200, 0x08000008, 0x00000200, 0x00000000, 0x08020008]
  const SP3D: seq<word> := [
    0x08000208, 0x00020000, 0x08000000, 0x08020208, 0x00000008, 0x00020208, 0x00020200, 0x08000008,
    0x08020000, 0x08000208, 0x00000208, 0x08020000, 0x00020208, 0x00000008, 0x08020008, 0x00020200]
  const SP3: seq<word> := SP3A + SP3B + SP3C + SP3D
  const SP4A: seq<word> := [
    0x00802001, 0x00002081, 0x00002081, 0x00000080, 0x00802080, 0x00800081, 0x00800001, 0x00002001,
    0x00000000, 0x00802000, 0x00802000, 0x00802081, 0x00000081, 0x00000000, 0x00800080, 0x00800001]
  const SP4B: seq<word> := [
    0x00000001, 0x00002000, 0x00800000, 0x00802001, 0x00000080, 0x00800000, 0x00002001, 0x00002080,
    0x00800081, 0x00000001, 0x00002080, 0x00800080, 0x00002000, 0x00802080, 0x00802081, 0x00000081]
  const SP4C: seq<word> := [
    0x00800080, 0x00800001, 0x00802000, 0x00802081, 0x00000081, 0x00000000, 0x00000000, 0x00802000,
    0x00002080, 0x00800080, 0x00800081, 0x00000001, 0x00802001, 0x00002081, 0x00002081, 0x00000080]
  const SP4D: seq<word> := [
    0x00802081, 0x00000081, 0x00000001, 0x00002000, 0x00800001, 0x00002001, 0x00802080, 0x00800081,
    0x00002001, 0x00002080, 0x00800000, 0x00802001, 0x00000080, 0x00800000, 0x00002000, 0x00802080]
  const SP4: seq<word> := SP4A + SP4B + SP4C + SP4D
  const SP5A: seq<word> := [
    0x00000100, 0x02080100, 0x02080000, 0x42000100, 0x00080000, 0x00000100, 0x40000000, 0x02080000,
    0x40080100, 0x00080000, 0x02000100, 0x40080100, 0x42000100, 0x42080000, 0x00080100, 0x40000000]
  const SP5B: seq<word> := [
    0x02000000, 0x40080000, 0x40080000, 0x00000000, 0x40000100, 0x42080100, 0x42080100, 0x02000100,
    0x42080000, 0x40000100, 0x00000000, 0x42000000, 0x02080100, 0x02000000, 0x42000000, 0x00080100]
  const SP5C: seq<word> := [
    0x00080000, 0x42000100, 0x00000100, 0x02000000, 0x40000000, 0x02080000, 0x42000100, 0x40080100,
    0x02000100, 0x40000000, 0x42080000, 0x02080100, 0x40080100, 0x00000100, 0x02000000, 0x42080000]
  const SP5D: seq<word> := [
    0x42080100, 0x00080100, 0x42000000, 0x42080100, 0x02080000, 0x00000000, 0x40080000, 0x42000000,
    0x00080100, 0x02000100, 0x40000100, 0x00080000, 0x00000000, 0x40080000, 0x02080100, 0x40000100]
  const SP5: seq<word> := SP5A + SP5B + SP5C + SP5D
  const SP6A: seq<word> := [
    0x20000010, 0x20400000, 0x00004000, 0x20404010, 0x20400000, 0x00000010, 0x20404010, 0x00400000,
    0x20004000, 0x00404010, 0x00400000, 0x20000010, 0x00400010, 0x20004000, 0x20000000, 0x00004010]
  const SP6B: seq<word> := [
    0x00000000, 0x00400010, 0x20004010, 0x00004000, 0x00404000, 0x20004010, 0x00000010, 0x20400010,
    0x20400010, 0x00000000, 0x00404010, 0x20404000, 0x00004010, 0x00404000, 0x20404000, 0x20000000]
  const SP6C: seq<word> := [
    0x20004000, 0x00000010, 0x20400010, 0x00404000, 0x20404010, 0x00400000, 0x00004010, 0x20000010,
    0x00400000, 0x20004000, 0x20000000, 0x00004010, 0x20000010, 0x20404010, 0x00404000, 0x20400000]
  const SP6D: seq<word> := [
    0x00404010, 0x20404000, 0x00000000, 0x20400010, 0x00000010, 0x00004000, 0x20400000, 0x00404010,
    0x00004000, 0x00400010, 0x20004010, 0x00000000, 0x20404000, 0x20000000, 0x00400010, 0x20004010]
  const SP6: seq<word> := SP6A + SP6B + SP6C + SP6D
  const SP7A: seq<word> := [
    0x00200000, 0x04200002, 0x04000802, 0x00000000, 0x00000800, 0x04000802, 0x00200802, 0x04200800,
    0x04200802, 0x00200000, 0x00000000, 0x04000002, 0x00000002, 0x04000000, 0x04200002, 0x00000802]
  const SP7B: seq<word> := [
    0x04000800, 0x00200802, 0x00200002, 0x04000800, 0x04000002, 0x04200000, 0x04200800, 0x00200002,
    0x04200000, 0x00000800, 0x00000802, 0x04200802, 0x00200800, 0x00000002, 0x04000000, 0x00200800]
  const SP7C: seq<word> := [
    0x04000000, 0x00200800, 0x00200000, 0x04000802, 0x04000802, 0x04200002, 0x04200002, 0x00000002,
    0x00200002, 0x04000000, 0x04000800, 0x00200000, 0x04200800, 0x00000802, 0x00200802, 0x04200800]
  const SP7D: seq<word> := [
    0x00000802, 0x04000002, 0x04200802, 0x04200000, 0x00200800, 0x00000000, 0x00000002, 0x04200802,
    0x00000000, 0x00200802, 0x04200000, 0x00000800, 0x04000002, 0x04000800, 0x00000800, 0x00200002]
  const SP7: seq<word> := SP7A + SP7B + SP7C + SP7D
  const SP8A: seq<word> := [
    0x10001040, 0x00001000, 0x00040000, 0x10041040, 0x10000000, 0x10001040, 0x00000040, 0x10000000,
    0x00040040, 0x10040000, 0x10041040, 0x00041000, 0x10041000, 0x00041040, 0x00001000, 0x00000040]
  const SP8B: seq<word> := [
    0x10040000, 0x10000040, 0x10001000, 0x00001040, 0x00041000, 0x00040040, 0x10040040, 0x10041000,
    0x00001040, 0x00000000, 0x00000000, 0x10040040, 0x10000040, 0x10001000, 0x00041040, 0x00040000]
  const SP8C: seq<word> := [
    0x00041040, 0x00040000, 0x10041000, 0x00001000, 0x00000040, 0x10040040, 0x00001000, 0x00041040,
    0x10001000, 0x00000040, 0x10000040, 0x10040000, 0x10040040, 0x10000000, 0x00040000, 0x10001040]
  const SP8D: seq<word> := [
    0x00000000, 0x10041040, 0x00040040, 0x10000040, 0x10040000, 0x10001000, 0x10001040, 0x00000000,
    0x10041040, 0x00041000, 0x00041000, 0x00001040, 0x00001040, 0x00040040, 0x10000000, 0x10041000]
  const SP8: seq<word> := SP8A + SP8B + SP8C + SP8D
}
