/** The 32-bit words of the hash functions: the macros of libtomcrypt against arithmetic modulo 2^32. */
module Words32 {
  import opened Common

  type word = bv32

  type Shift = s: word | s < 32

  /** Sums modulo 2^32. */
  function Plus(x: word, y: word): word { x + y }
  function Sum(x: word, y: word, z: word, u: word): word { x + y + z + u }
  function Xor4(x: word, y: word, z: word, u: word): word { x ^ y ^ z ^ u }

  function Rol(x: word, s: Shift): word { (x << s) | (x >> (32 - s)) }

  /** A circular shift by one: twice the number, and the bit that overflows comes in at the bottom. */
  function Turn(x: word): word { 2 * x + x / 0x8000_0000 }

  function Turned(x: word, s: Shift): word
    decreases s
  {
    if s == 0 then x else Turn(Turned(x, s - 1))
  }

  lemma ShiftsTurn(x: word, s: word)
    requires 0 < s < 32
    ensures (x << s) | (x >> (32 - s)) ==
            2 * ((x << (s - 1)) | (x >> (32 - (s - 1)))) + ((x << (s - 1)) | (x >> (32 - (s - 1)))) / 0x8000_0000
  {
  }

  lemma TurnOf(x: word, s: word, t: word)
    requires 0 < s < 32 && t == (x << (s - 1)) | (x >> (32 - (s - 1)))
    ensures Turn(t) == (x << s) | (x >> (32 - s))
  {
    ShiftsTurn(x, s);
  }

  predicate IsTurned(x: word, s: Shift) { (x << s) | (x >> (32 - s)) == Turned(x, s) }

  lemma NoTurn(x: word, s: Shift)
    requires s == 0
    ensures IsTurned(x, s)
  {
  }

  lemma OneMore(x: word, s: Shift)
    requires s > 0 && IsTurned(x, s - 1)
    ensures IsTurned(x, s)
  {
    TurnOf(x, s, Turned(x, s - 1));
  }

  lemma {:induction false} ShiftsAreTurns(x: word, s: Shift)
    ensures IsTurned(x, s)
    decreases s
  {
    if s == 0 {
      NoTurn(x, s);
    } else {
      ShiftsAreTurns(x, s - 1);
      OneMore(x, s);
    }
  }

  /** The rotation macro turns a word by one as often as it says. */
  lemma RolIsTurned(x: word, s: Shift)
    ensures Rol(x, s) == Turned(x, s)
  {
    ShiftsAreTurns(x, s);
  }

  // ---------- bytes ----------

  function Wide(b: byte): (w: word)
    ensures w <= 255
  {
    b as word
  }

  /** LOAD32L and LOAD32H: the four bytes, least or most significant first. */
  function Load32L(b: seq<byte>): word
    requires |b| == 4
  {
    ((Wide(b[3]) & 255) << 24) | ((Wide(b[2]) & 255) << 16) | ((Wide(b[1]) & 255) << 8) | (Wide(b[0]) & 255)
  }

  function Load32H(b: seq<byte>): word
    requires |b| == 4
  {
    ((Wide(b[0]) & 255) << 24) | ((Wide(b[1]) & 255) << 16) | ((Wide(b[2]) & 255) << 8) | (Wide(b[3]) & 255)
  }

  /** The number with these digits to the base 256, most significant first. */
  function Number(a: word, b: word, c: word, d: word): word { ((a * 256 + b) * 256 + c) * 256 + d }

  lemma DigitsApart(a: word, b: word, c: word, d: word)
    requires a <= 255 && b <= 255 && c <= 255 && d <= 255
    ensures ((a & 255) << 24) | ((b & 255) << 16) | ((c & 255) << 8) | (d & 255) == Number(a, b, c, d)
  {
  }

  lemma LittleIsNumber(b: seq<byte>)
    requires |b| == 4
    ensures Load32L(b) == Number(Wide(b[3]), Wide(b[2]), Wide(b[1]), Wide(b[0]))
  {
    DigitsApart(Wide(b[3]), Wide(b[2]), Wide(b[1]), Wide(b[0]));
  }

  lemma BigIsNumber(b: seq<byte>)
    requires |b| == 4
    ensures Load32H(b) == Number(Wide(b[0]), Wide(b[1]), Wide(b[2]), Wide(b[3]))
  {
    DigitsApart(Wide(b[0]), Wide(b[1]), Wide(b[2]), Wide(b[3]));
  }

  function Low(x: word): byte { (x & 255) as int }

  /** STORE32L and STORE32H. */
  function Store32L(x: word): (b: seq<byte>)
    ensures |b| == 4
  {
    [Low(x), Low(x >> 8), Low(x >> 16), Low(x >> 24)]
  }

  function Store32H(x: word): (b: seq<byte>)
    ensures |b| == 4
  {
    [Low(x >> 24), Low(x >> 16), Low(x >> 8), Low(x)]
  }

  lemma Back(x: word)
    ensures x as int as word == x
  {
  }

  lemma WideLow(x: word)
    ensures Wide(Low(x)) == x & 255
  {
    Back(x & 255);
  }

  lemma DigitsTogether(x: word)
    ensures Number((x >> 24) & 255, (x >> 16) & 255, (x >> 8) & 255, x & 255) == x
  {
  }

  /** What is stored is loaded again. */
  lemma StoreThenLoad(x: word)
    ensures Load32L(Store32L(x)) == x && Load32H(Store32H(x)) == x
  {
    LittleIsNumber(Store32L(x));
    BigIsNumber(Store32H(x));
    WideLow(x);
    WideLow(x >> 8);
    WideLow(x >> 16);
    WideLow(x >> 24);
    DigitsTogether(x);
  }
}
