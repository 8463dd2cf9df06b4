// Base32: an accumulator of 32 bits that takes in groups of bits of one size and gives out groups of another.

module Base32 {
  import opened Common

  type bit = b: int | 0 <= b < 2

  const WRAP: nat := 0x1_0000_0000

  // ---------------------------------------------------------------- shifts

  function Left(v: nat, j: nat): nat {
    if j == 0 then v else 2 * Left(v, j - 1)
  }

  function Right(v: nat, j: nat): nat
    decreases j
  {
    if j == 0 then v else Right(v / 2, j - 1)
  }

  lemma {:induction false} LeftTwice(v: nat, a: nat, b: nat)
    ensures Left(Left(v, a), b) == Left(v, a + b)
  {
    if b > 0 {
      LeftTwice(v, a, b - 1);
    }
  }

  lemma {:induction false} LeftSum(v: nat, w: nat, j: nat)
    ensures Left(v + w, j) == Left(v, j) + Left(w, j)
  {
    if j > 0 {
      LeftSum(v, w, j - 1);
    }
  }

  lemma Left5(v: nat)
    ensures Left(v, 5) == 32 * v && Left(v, 8) == 256 * v
  {
    assert Left(v, 1) == 2 * v;
    assert Left(v, 2) == 4 * v;
    assert Left(v, 4) == 4 * Left(v, 2);
    assert Left(v, 6) == 4 * Left(v, 4);
    assert Left(v, 8) == 4 * Left(v, 6);
  }

  function Size(k: nat): nat {
    if k == 5 then 32 else 256
  }

  lemma RemainderOf32(h: nat, y: nat)
    ensures (32 * h + y) % 32 == y % 32
  {
  }

  lemma RemainderOf256(h: nat, y: nat)
    ensures (256 * h + y) % 256 == y % 256
  {
  }

  lemma Remainder(h: nat, y: nat, k: nat)
    requires k == 5 || k == 8
    ensures (Left(h, k) + y) % Size(k) == y % Size(k)
  {
    Left5(h);
    if k == 5 {
      RemainderOf32(h, y);
    } else {
      RemainderOf256(h, y);
    }
  }

  lemma RemainderOfWrap(h: nat, y: nat)
    ensures (WRAP * h + y) % WRAP == y % WRAP
  {
  }

  // Whole multiples shift out exactly.
  lemma {:induction false} RightSum(a: nat, r: nat, j: nat)
    ensures Right(Left(a, j) + r, j) == a + Right(r, j)
  {
    if j > 0 {
      assert (Left(a, j) + r) / 2 == Left(a, j - 1) + r / 2;
      RightSum(a, r / 2, j - 1);
    }
  }

  lemma WrapIsShift(q: nat)
    ensures Left(q, 32) == WRAP * q
  {
    Left5(q);
    Left5(256 * q);
    Left5(0x1_0000 * q);
    Left5(0x100_0000 * q);
    LeftTwice(q, 8, 8);
    LeftTwice(q, 16, 8);
    LeftTwice(q, 24, 8);
  }

  // Of a number cut to 32 bits, k bits above the last j are still those of the number.
  lemma RightOfWrapped(v: nat, j: nat, k: nat)
    requires (k == 5 || k == 8) && j + k <= 32
    ensures Right(v % WRAP, j) % Size(k) == Right(v, j) % Size(k)
  {
    var q, r := v / WRAP, v % WRAP;
    var high := Left(q, 32 - j - k);
    assert v == Left(Left(high, k), j) + r by {
      WrapIsShift(q);
      LeftTwice(q, 32 - j - k, k);
      LeftTwice(q, 32 - j, j);
    }
    RightSum(Left(high, k), r, j);
    Remainder(high, Right(r, j), k);
  }

  // ---------------------------------------------------------------- bits and groups

  // The number a string of bits stands for, most significant bit first.
  function Value(s: seq<bit>): nat {
    if s == [] then 0 else 2 * Value(s[..|s| - 1]) + s[|s| - 1]
  }

  // The last k bits of a number.
  function Bits(v: nat, k: nat): (s: seq<bit>)
    ensures |s| == k
  {
    if k == 0 then [] else Bits(v / 2, k - 1) + [v % 2]
  }

  lemma {:induction false} BitsValue(s: seq<bit>)
    ensures Bits(Value(s), |s|) == s
  {
    if s != [] {
      BitsValue(s[..|s| - 1]);
      assert s == s[..|s| - 1] + [s[|s| - 1]];
    }
  }

  lemma {:induction false} ValueConcat(a: seq<bit>, b: seq<bit>)
    ensures Value(a + b) == Left(Value(a), |b|) + Value(b)
  {
    if b == [] {
      assert a + b == a;
    } else {
      assert (a + b)[..|a + b| - 1] == a + b[..|b| - 1];
      ValueConcat(a, b[..|b| - 1]);
    }
  }

  lemma {:induction false} RightDrops(s: seq<bit>, j: nat)
    requires j <= |s|
    ensures Right(Value(s), j) == Value(s[..|s| - j])
  {
    if j == 0 {
      assert s[..|s|] == s;
    } else {
      var t := s[..|s| - 1];
      assert Value(s) / 2 == Value(t);
      RightDrops(t, j - 1);
      assert t[..|t| - (j - 1)] == s[..|s| - j];
    }
  }

  lemma {:induction false} ValueBound(s: seq<bit>)
    ensures Value(s) < Left(1, |s|)
  {
    if s != [] {
      ValueBound(s[..|s| - 1]);
    }
  }

  lemma {:induction false} ValueOfBits(v: nat, k: nat)
    requires v < Left(1, k)
    ensures Value(Bits(v, k)) == v
  {
    if k > 0 {
      ValueOfBits(v / 2, k - 1);
      assert Bits(v, k)[..k - 1] == Bits(v / 2, k - 1);
    }
  }

  // A sequence of bits in two parts.
  lemma Parts(s: seq<bit>, k: nat) returns (h: nat, y: nat)
    requires k <= |s|
    ensures y == Value(s[|s| - k..]) < Left(1, k) && Value(s) == Left(h, k) + y
  {
    var a, b := s[..|s| - k], s[|s| - k..];
    assert s == a + b;
    ValueConcat(a, b);
    ValueBound(b);
    h, y := Value(a), Value(b);
  }

  lemma Below32(v: nat, h: nat, y: nat)
    requires v == 32 * h + y && y < 32
    ensures v % 32 == y
  {
  }

  lemma Below256(v: nat, h: nat, y: nat)
    requires v == 256 * h + y && y < 256
    ensures v % 256 == y
  {
  }

  lemma LowPart(v: nat, h: nat, y: nat, k: nat)
    requires (k == 5 || k == 8) && v == Left(h, k) + y && y < Left(1, k)
    ensures v % Size(k) == y
  {
    Left5(h);
    Left5(1);
    if k == 5 {
      Below32(v, h, y);
    } else {
      Below256(v, h, y);
    }
  }

  // The last five or eight bits are the remainder.
  lemma LastBits(s: seq<bit>, k: nat)
    requires (k == 5 || k == 8) && k <= |s|
    ensures Value(s) % Size(k) == Value(s[|s| - k..])
  {
    var h, y := Parts(s, k);
    LowPart(Value(s), h, y, k);
  }

  // What the accumulator gives out: the k bits that follow those given out before.
  lemma GiveOut(s: seq<bit>, bits: nat, k: nat)
    requires (k == 5 || k == 8) && k <= bits <= |s| && bits <= 12
    ensures Right(Value(s) % WRAP, bits - k) % Size(k) == Value(s[|s| - bits..|s| - bits + k])
  {
    var j := bits - k;
    RightOfWrapped(Value(s), j, k);
    RightDrops(s, j);
    var t := s[..|s| - j];
    LastBits(t, k);
    assert t[|t| - k..] == s[|s| - bits..|s| - bits + k];
  }

  // What it takes in.
  lemma TakeIn(s: seq<bit>, x: nat, k: nat)
    requires (k == 5 || k == 8) && x < Size(k)
    ensures Value(s + Bits(x, k)) % WRAP == (Value(s) % WRAP * Size(k) + x) % WRAP
  {
    Left5(1);
    ValueOfBits(x, k);
    ValueConcat(s, Bits(x, k));
    Left5(Value(s));
    WrapScaled(Value(s), x, k);
  }

  lemma WrapScaled(v: nat, x: nat, k: nat)
    requires k == 5 || k == 8
    ensures (v * Size(k) + x) % WRAP == (v % WRAP * Size(k) + x) % WRAP
  {
    var q, r := v / WRAP, v % WRAP;
    if k == 5 {
      RemainderOfWrap(32 * q, 32 * r + x);
    } else {
      RemainderOfWrap(256 * q, 256 * r + x);
    }
  }

  // ---------------------------------------------------------------- the code as a whole

  function BytesBits(input: seq<byte>): (s: seq<bit>)
    ensures |s| == 8 * |input|
  {
    if input == [] then [] else BytesBits(input[..|input| - 1]) + Bits(input[|input| - 1], 8)
  }

  // The first c groups of five, and of eight.
  function Fives(s: seq<bit>, c: nat): (g: seq<nat>)
    requires 5 * c <= |s|
    ensures |g| == c
  {
    seq(c, j requires 0 <= j < c => Value(s[5 * j..5 * j + 5]))
  }

  function Eights(s: seq<bit>, c: nat): (g: seq<nat>)
    requires 8 * c <= |s|
    ensures |g| == c
  {
    seq(c, j requires 0 <= j < c => Value(s[8 * j..8 * j + 8]))
  }

  function Zeros(n: nat): seq<bit> {
    seq(n, _ => 0)
  }

  // Five bits to a symbol, the last filled up with zeros.
  function Symbols(s: seq<bit>): seq<nat> {
    var c := |s| / 5;
    Fives(s, c) + if |s| % 5 == 0 then [] else [Value(s[5 * c..] + Zeros(5 - |s| % 5))]
  }

  function SymbolsBits(g: seq<nat>): (s: seq<bit>)
    ensures |s| == 5 * |g|
  {
    if g == [] then [] else SymbolsBits(g[..|g| - 1]) + Bits(g[|g| - 1], 5)
  }

  const PAD: byte := 61

  // A to Z, then 2 to 7.
  function Letter(v: nat): byte
    requires v < 32
  {
    if v < 26 then 65 + v else 24 + v
  }

  // The table behind the decoder.  It is written out up to 128, so the bytes above have the value of an A.
  function Number(c: byte): nat {
    if 65 <= c <= 90 then c - 65 else if 50 <= c <= 55 then c - 24 else if c <= 128 then 255 else 0
  }

  predicate AllBelow32(g: seq<nat>) {
    forall i :: 0 <= i < |g| ==> g[i] < 32
  }

  function Letters(g: seq<nat>): (r: seq<byte>)
    requires AllBelow32(g)
    ensures |r| == |g|
  {
    seq(|g|, i requires 0 <= i < |g| => Letter(g[i]))
  }

  function EncodedSize(len: nat, padding: bool): nat {
    var size := (len * 8 + 4) / 5;
    if padding then size + (8 - size % 8) % 8 else size
  }

  function Padding(n: nat): seq<byte> {
    seq(n, _ => PAD)
  }

  lemma SymbolsBelow32(s: seq<bit>)
    ensures AllBelow32(Symbols(s)) && |Symbols(s)| == (|s| + 4) / 5
  {
    var c := |s| / 5;
    Left5(1);
    forall j | 0 <= j < c ensures Value(s[5 * j..5 * j + 5]) < 32 {
      ValueBound(s[5 * j..5 * j + 5]);
    }
    ValueBound(s[5 * c..] + Zeros(5 - |s| % 5));
  }

  // The encoding: symbols as letters, filled up with padding to a multiple of eight.
  function Encoding(input: seq<byte>, padding: bool): seq<byte> {
    var g := Symbols(BytesBits(input));
    SymbolsBelow32(BytesBits(input));
    Letters(g) + if padding then Padding((8 - |g| % 8) % 8) else []
  }

  // ---------------------------------------------------------------- encoding

  // The state of the encoder after some bits: groups given out, and the rest held in the accumulator.
  ghost predicate Encoder(s: seq<bit>, out: seq<byte>, buffer: nat, bits: nat) {
    && |s| == 5 * |out| + bits && buffer == Value(s) % WRAP
    && AllBelow32(Fives(s, |out|)) && out == Letters(Fives(s, |out|))
  }

  lemma EncoderIn(s: seq<bit>, out: seq<byte>, buffer: nat, bits: nat, x: byte)
    requires Encoder(s, out, buffer, bits)
    ensures Encoder(s + Bits(x, 8), out, (buffer * 256 + x) % WRAP, bits + 8)
  {
    TakeIn(s, x, 8);
    var t := s + Bits(x, 8);
    FivesPrefix(s, Bits(x, 8), |out|);
  }

  lemma FivesPrefix(s: seq<bit>, t: seq<bit>, c: nat)
    requires 5 * c <= |s|
    ensures Fives(s + t, c) == Fives(s, c)
  {
    forall j | 0 <= j < c ensures Fives(s + t, c)[j] == Fives(s, c)[j] {
      assert (s + t)[5 * j..5 * j + 5] == s[5 * j..5 * j + 5];
    }
  }

  lemma EncoderOut(s: seq<bit>, out: seq<byte>, buffer: nat, bits: nat)
    requires Encoder(s, out, buffer, bits) && 5 <= bits <= 12
    ensures Right(buffer, bits - 5) % 32 < 32
    ensures Encoder(s, out + [Letter(Right(buffer, bits - 5) % 32)], buffer, bits - 5)
  {
    var c := |out|;
    GiveOut(s, bits, 5);
    assert s[|s| - bits..|s| - bits + 5] == s[5 * c..5 * c + 5];
    assert Fives(s, c + 1) == Fives(s, c) + [Value(s[5 * c..5 * c + 5])];
  }

  // The last symbol: what is left, shifted up.
  lemma EncoderEnd(s: seq<bit>, out: seq<byte>, buffer: nat, bits: nat)
    requires Encoder(s, out, buffer, bits) && bits < 5
    ensures AllBelow32(Symbols(s)) && Left(buffer, 5 - bits) % WRAP % 32 < 32
    ensures Letters(Symbols(s)) == out + if bits == 0 then [] else [Letter(Left(buffer, 5 - bits) % WRAP % 32)]
  {
    var c := |out|;
    assert |s| / 5 == c && |s| % 5 == bits;
    SymbolsBelow32(s);
    if bits > 0 {
      LastSymbol(s, bits);
      assert s[5 * c..] == s[|s| - bits..];
    } else {
      assert Symbols(s) == Fives(s, c);
    }
  }

  lemma LastSymbol(s: seq<bit>, bits: nat)
    requires 1 <= bits < 5 && bits <= |s|
    ensures Left(Value(s) % WRAP, 5 - bits) % WRAP % 32 == Value(s[|s| - bits..] + Zeros(5 - bits))
  {
    var z := 5 - bits;
    var a, b := s[..|s| - bits], s[|s| - bits..] + Zeros(z);
    ShiftedUp(s, z, a, b);
    WrappedUp(Value(s), z);
    ValueBound(b);
    LowPart(Left(Value(s), z), Value(a), Value(b), 5);
  }

  lemma ShiftedUp(s: seq<bit>, z: nat, a: seq<bit>, b: seq<bit>)
    requires s + Zeros(z) == a + b && |b| == 5
    ensures Left(Value(s), z) == Left(Value(a), 5) + Value(b)
  {
    ZerosValue(z);
    ValueConcat(s, Zeros(z));
    ValueConcat(a, b);
  }

  lemma WrappedUp(v: nat, z: nat)
    ensures Left(v % WRAP, z) % WRAP % 32 == Left(v, z) % 32
  {
    var q, r := v / WRAP, v % WRAP;
    LeftSum(WRAP * q, r, z);
    LeftOfWrap(q, z);
    WrapThen32(Left(r, z), Left(q, z));
  }

  lemma {:induction false} ZerosValue(n: nat)
    ensures Value(Zeros(n)) == 0
  {
    if n > 0 {
      ZerosValue(n - 1);
      assert Zeros(n)[..n - 1] == Zeros(n - 1);
    }
  }

  lemma {:induction false} LeftOfWrap(q: nat, z: nat)
    ensures Left(WRAP * q, z) == WRAP * Left(q, z)
  {
    if z > 0 {
      LeftOfWrap(q, z - 1);
    }
  }

  lemma WrapThen32(y: nat, h: nat)
    ensures y % WRAP % 32 == (WRAP * h + y) % 32
  {
  }

  method Encode(input: seq<byte>, padding: bool) returns (out: seq<byte>)
    ensures out == Encoding(input, padding)
  {
    SymbolsBelow32(BytesBits(input));
    out := EncodeBytes(input);
    if padding {
      out := Pad(out);
    }
  }

  method EncodeBytes(input: seq<byte>) returns (out: seq<byte>)
    ensures AllBelow32(Symbols(BytesBits(input))) && out == Letters(Symbols(BytesBits(input)))
  {
    var buffer: nat, bits: nat := 0, 0;
    out := [];
    ghost var s: seq<bit> := [];
    assert Encoder(s, out, buffer, bits);
    for i := 0 to |input|
      invariant s == BytesBits(input[..i]) && Encoder(s, out, buffer, bits) && bits < 5
    {
      EncoderIn(s, out, buffer, bits, input[i]);
      buffer := (buffer * 256 + input[i]) % WRAP;
      bits := bits + 8;
      s := s + Bits(input[i], 8);
      assert input[..i + 1][..i] == input[..i];
      while bits >= 5
        invariant bits <= 12 && Encoder(s, out, buffer, bits)
      {
        EncoderOut(s, out, buffer, bits);
        out := out + [Letter(Right(buffer, bits - 5) % 32)];
        bits := bits - 5;
      }
    }
    assert input[..|input|] == input;
    EncoderEnd(s, out, buffer, bits);
    if bits > 0 {
      out := out + [Letter(Left(buffer, 5 - bits) % WRAP % 32)];
    }
  }

  method Pad(g: seq<byte>) returns (out: seq<byte>)
    ensures out == g + Padding((8 - |g| % 8) % 8)
  {
    out := g;
    assert g + Padding(0) == g;
    while |out| % 8 != 0
      invariant |g| <= |out| <= |g| + (8 - |g| % 8) % 8 && out == g + Padding(|out| - |g|)
      decreases |g| + 8 - |out|
    {
      assert Padding(|out| - |g| + 1) == Padding(|out| - |g|) + [PAD];
      out := out + [PAD];
    }
  }

  // The encoded length is what the size function promises.
  lemma EncodingSize(input: seq<byte>, padding: bool)
    ensures |Encoding(input, padding)| == EncodedSize(|input|, padding)
  {
    SymbolsBelow32(BytesBits(input));
  }

  // ---------------------------------------------------------------- decoding

  // How many symbols there are before padding, the end, or a byte that is none.
  function Leading(input: seq<byte>): (n: nat)
    ensures n <= |input|
  {
    if input == [] || input[0] == PAD || Number(input[0]) == 255 then 0 else 1 + Leading(input[1..])
  }

  function Numbers(input: seq<byte>): (g: seq<nat>)
    ensures |g| == |input|
  {
    seq(|input|, i requires 0 <= i < |input| => Number(input[i]))
  }

  // What the decoder writes: the whole bytes among the bits of the leading symbols.
  function Decoding(input: seq<byte>): seq<nat> {
    var n := Leading(input);
    Eights(SymbolsBits(Numbers(input[..n])), 5 * n / 8)
  }

  // It stopped at a byte that is no symbol.
  predicate Rejected(input: seq<byte>) {
    var n := Leading(input);
    n < |input| && input[n] != PAD
  }

  ghost predicate Decoder(s: seq<bit>, out: seq<nat>, buffer: nat, bits: nat) {
    |s| == 8 * |out| + bits && buffer == Value(s) % WRAP && out == Eights(s, |out|)
  }

  lemma EightsPrefix(s: seq<bit>, t: seq<bit>, c: nat)
    requires 8 * c <= |s|
    ensures Eights(s + t, c) == Eights(s, c)
  {
    forall j | 0 <= j < c ensures Eights(s + t, c)[j] == Eights(s, c)[j] {
      assert (s + t)[8 * j..8 * j + 8] == s[8 * j..8 * j + 8];
    }
  }

  lemma DecoderIn(s: seq<bit>, out: seq<nat>, buffer: nat, bits: nat, x: nat)
    requires Decoder(s, out, buffer, bits) && x < 32
    ensures Decoder(s + Bits(x, 5), out, (buffer * 32 + x) % WRAP, bits + 5)
  {
    TakeIn(s, x, 5);
    EightsPrefix(s, Bits(x, 5), |out|);
  }

  lemma DecoderOut(s: seq<bit>, out: seq<nat>, buffer: nat, bits: nat)
    requires Decoder(s, out, buffer, bits) && 8 <= bits <= 12
    ensures Decoder(s, out + [Right(buffer, bits - 8) % 256], buffer, bits - 8)
  {
    var c := |out|;
    GiveOut(s, bits, 8);
    assert s[|s| - bits..|s| - bits + 8] == s[8 * c..8 * c + 8];
    assert Eights(s, c + 1) == Eights(s, c) + [Value(s[8 * c..8 * c + 8])];
  }

  lemma {:induction false} LeadingAt(input: seq<byte>, n: nat)
    requires n <= |input| && forall i :: 0 <= i < n ==> input[i] != PAD && Number(input[i]) != 255
    ensures Leading(input) == n + Leading(input[n..])
  {
    if n > 0 {
      LeadingAt(input[1..], n - 1);
      assert input[1..][n - 1..] == input[n..];
    } else {
      assert input[0..] == input;
    }
  }

  predicate IsSymbol(c: byte) {
    c != PAD && Number(c) != 255
  }

  lemma NumbersSnoc(input: seq<byte>, i: nat)
    requires i < |input|
    ensures SymbolsBits(Numbers(input[..i + 1])) == SymbolsBits(Numbers(input[..i])) + Bits(Number(input[i]), 5)
  {
    assert Numbers(input[..i + 1])[..i] == Numbers(input[..i]);
  }

  lemma DecoderEnd(input: seq<byte>, i: nat, out: seq<nat>, buffer: nat, bits: nat)
    requires i <= |input| && (forall j :: 0 <= j < i ==> IsSymbol(input[j])) && bits < 8
    requires i < |input| ==> !IsSymbol(input[i])
    requires Decoder(SymbolsBits(Numbers(input[..i])), out, buffer, bits)
    ensures out == Decoding(input) && (Rejected(input) <==> i < |input| && input[i] != PAD)
  {
    LeadingAt(input, i);
    assert Leading(input[i..]) == 0;
  }

  method WriteByte(out: seq<nat>, buffer: nat, bits: nat, ghost s: seq<bit>) returns (next: seq<nat>, left: nat)
    requires Decoder(s, out, buffer, bits) && bits <= 12
    ensures Decoder(s, next, buffer, left) && left == if bits >= 8 then bits - 8 else bits
  {
    next, left := out, bits;
    if bits >= 8 {
      DecoderOut(s, out, buffer, bits);
      next := out + [Right(buffer, bits - 8) % 256];
      left := bits - 8;
    }
  }

  // The writes come one by one; a rejected input may have written some.
  method Decode(input: seq<byte>) returns (ok: bool, out: seq<nat>)
    ensures out == Decoding(input) && (ok <==> !Rejected(input))
  {
    var buffer: nat, bits: nat := 0, 0;
    out := [];
    ghost var s: seq<bit> := [];
    var i := 0;
    while i < |input| && input[i] != PAD
      invariant 0 <= i <= |input| && s == SymbolsBits(Numbers(input[..i]))
      invariant forall j :: 0 <= j < i ==> IsSymbol(input[j])
      invariant Decoder(s, out, buffer, bits) && bits < 8
    {
      if Number(input[i]) == 255 {
        DecoderEnd(input, i, out, buffer, bits);
        return false, out;
      }
      DecoderIn(s, out, buffer, bits, Number(input[i]));
      NumbersSnoc(input, i);
      buffer := (buffer * 32 + Number(input[i])) % WRAP;
      bits := bits + 5;
      s := s + Bits(Number(input[i]), 5);
      out, bits := WriteByte(out, buffer, bits, s);
      i := i + 1;
    }
    DecoderEnd(input, i, out, buffer, bits);
    return true, out;
  }

  // ---------------------------------------------------------------- there and back

  lemma SymbolsSnoc(g: seq<nat>, v: nat)
    ensures SymbolsBits(g + [v]) == SymbolsBits(g) + Bits(v, 5)
  {
    assert (g + [v])[..|g|] == g;
  }

  lemma FivesSnoc(s: seq<bit>, c: nat)
    requires 5 * c + 5 <= |s|
    ensures Fives(s, c + 1) == Fives(s, c) + [Value(s[5 * c..5 * c + 5])]
  {
  }

  lemma {:induction false} FivesBits(s: seq<bit>, c: nat)
    requires 5 * c <= |s|
    ensures SymbolsBits(Fives(s, c)) == s[..5 * c]
  {
    if c > 0 {
      var group := s[5 * c - 5..5 * c];
      FivesBits(s, c - 1);
      FivesSnoc(s, c - 1);
      SymbolsSnoc(Fives(s, c - 1), Value(group));
      BitsValue(group);
      Extended(s, 5 * c - 5, 5 * c);
    }
  }

  lemma Extended(s: seq<bit>, a: nat, b: nat)
    requires a <= b <= |s|
    ensures s[..a] + s[a..b] == s[..b]
  {
  }

  lemma LastThere(s: seq<bit>, c: nat, last: seq<bit>, t: seq<bit>)
    requires 5 * c <= |s| && last == s[5 * c..] + t && |last| == 5
    ensures SymbolsBits(Fives(s, c) + [Value(last)]) == s + t
  {
    FivesBits(s, c);
    SymbolsSnoc(Fives(s, c), Value(last));
    BitsValue(last);
    Rejoined(s, 5 * c, t);
  }

  // The bits of the symbols are the bits encoded, and fewer than five zeros.
  lemma SymbolsThere(s: seq<bit>, z: nat)
    requires z == (5 - |s| % 5) % 5
    ensures SymbolsBits(Symbols(s)) == s + Zeros(z)
  {
    var c := |s| / 5;
    if z == 0 {
      FivesBits(s, c);
      assert Symbols(s) == Fives(s, c);
      assert s[..5 * c] == s && s + Zeros(0) == s;
    } else {
      LastThere(s, c, s[5 * c..] + Zeros(z), Zeros(z));
    }
  }

  lemma Rejoined(s: seq<bit>, k: nat, t: seq<bit>)
    requires k <= |s|
    ensures s[..k] + (s[k..] + t) == s + t
  {
  }

  lemma EightsSnoc(s: seq<bit>, t: seq<bit>, c: nat)
    requires |s| == 8 * c && |t| == 8
    ensures Eights(s + t, c + 1) == Eights(s, c) + [Value(t)]
  {
    EightsPrefix(s, t, c);
    assert (s + t)[8 * c..8 * c + 8] == t;
  }

  lemma {:induction false} BytesBack(input: seq<byte>)
    ensures Eights(BytesBits(input), |input|) == input
  {
    if input != [] {
      var before, x := input[..|input| - 1], input[|input| - 1];
      BytesBack(before);
      EightsSnoc(BytesBits(before), Bits(x, 8), |before|);
      Left5(1);
      ValueOfBits(x, 8);
      assert input == before + [x];
    }
  }

  const ALPHABET: string := "ABCDEFGHIJKLMNOP" + "QRSTUVWXYZ234567"

  // The letters are those of table 3 in section 6 of RFC 4648.
  lemma LetterIs(v: nat)
    requires v < 32
    ensures Letter(v) == ALPHABET[v] as int
  {
  }

  lemma NumberOfLetter(v: nat)
    requires v < 32
    ensures Number(Letter(v)) == v && Letter(v) != PAD
  {
  }

  // The letters of the symbols are read back as the symbols, up to the padding.
  lemma LettersRead(g: seq<nat>, pad: nat, e: seq<byte>)
    requires AllBelow32(g) && e == Letters(g) + Padding(pad)
    ensures Leading(e) == |g| && Numbers(e[..|g|]) == g && (|g| < |e| ==> e[|g|] == PAD)
  {
    forall i | 0 <= i < |g| ensures e[i] != PAD && Number(e[i]) == g[i] {
      NumberOfLetter(g[i]);
    }
    LeadingAt(e, |g|);
    assert e[|g|..] == Padding(pad);
  }

  lemma EncodingIs(input: seq<byte>, padding: bool, g: seq<nat>) returns (pad: nat)
    requires g == Symbols(BytesBits(input))
    ensures AllBelow32(g) && Encoding(input, padding) == Letters(g) + Padding(pad)
  {
    SymbolsBelow32(BytesBits(input));
    pad := if padding then (8 - |g| % 8) % 8 else 0;
    assert Padding(0) == [];
  }

  // Decoding an encoding, with or without padding, gives the input back.
  lemma RoundTrip(input: seq<byte>, padding: bool)
    ensures Decoding(Encoding(input, padding)) == input && !Rejected(Encoding(input, padding))
  {
    var s := BytesBits(input);
    var g := Symbols(s);
    var pad := EncodingIs(input, padding, g);
    LettersRead(g, pad, Encoding(input, padding));
    BitsBack(input, s, g);
  }

  lemma BitsBack(input: seq<byte>, s: seq<bit>, g: seq<nat>)
    requires s == BytesBits(input) && g == Symbols(s)
    ensures 5 * |g| / 8 == |input| && Eights(SymbolsBits(g), |input|) == input
  {
    var z := (5 - |s| % 5) % 5;
    SymbolsBelow32(s);
    SymbolsThere(s, z);
    BytesBack(input);
    EightsPrefix(s, Zeros(z), |input|);
  }

  // ---------------------------------------------------------------- the decoder's buffer

  function One(input: seq<byte>, k: nat): nat {
    if |input| >= k >= 1 && input[|input| - k] == PAD then 1 else 0
  }

  // The room the caller provides: padding is counted in the last four places.
  function DecodedSize(input: seq<byte>): nat {
    var pads := One(input, 1) + One(input, 2) + One(input, 3) + One(input, 4);
    if pads <= |input| then (|input| * 5 - pads * 5) / 8 else 0
  }

  lemma {:induction false} LeadingStops(input: seq<byte>, i: nat)
    requires i < |input| && input[i] == PAD
    ensures Leading(input) <= i
  {
    if i > 0 && input[0] != PAD && Number(input[0]) != 255 {
      LeadingStops(input[1..], i - 1);
    }
  }

  // On any input, rejected or not, the decoder writes no more bytes than the size function promises.
  lemma NeverBeyond(input: seq<byte>)
    ensures |Decoding(input)| <= DecodedSize(input)
  {
    var n := Leading(input);
    forall k | 1 <= k <= 4 && One(input, k) == 1 ensures n <= |input| - k {
      LeadingStops(input, |input| - k);
    }
    assert n + One(input, 1) + One(input, 2) + One(input, 3) + One(input, 4) <= |input|;
  }

  // The decoder takes a byte for a symbol exactly if it is in the alphabet or above 128.
  lemma TakenForSymbol(c: byte)
    ensures Number(c) != 255 <==> (65 <= c <= 90 || 50 <= c <= 55) || c > 128
    ensures c > 128 ==> Number(c) == Number(65)
  {
  }

  lemma FiveBits(v: nat, s: seq<bit>)
    requires v < 32 && s == Bits(v, 5)
    ensures Value(s) == v
  {
    Left5(1);
    ValueOfBits(v, 5);
  }

  lemma SingleSymbols(s: seq<bit>)
    requires s == [0, 1, 1, 0, 0, 1, 1, 0]
    ensures Symbols(s) == [12, 24]
  {
    assert s[0..5] == [0, 1, 1, 0, 0] && s[5..] + Zeros(2) == [1, 1, 0, 0, 0];
    FiveBits(12, [0, 1, 1, 0, 0]);
    FiveBits(24, [1, 1, 0, 0, 0]);
  }

  lemma SingleLetters(g: seq<nat>)
    requires g == [12, 24]
    ensures AllBelow32(g) && Letters(g) + Padding((8 - |g| % 8) % 8) == [77, 89, 61, 61, 61, 61, 61, 61]
  {
  }

  // A test vector from section 10 of RFC 4648: "f" is MY======.
  lemma SingleByte(input: seq<byte>)
    requires input == [0x66]
    ensures Encoding(input, true) == [77, 89, 61, 61, 61, 61, 61, 61]
  {
    assert input[..0] == [] && [] + Bits(0x66, 8) == Bits(0x66, 8) == [0, 1, 1, 0, 0, 1, 1, 0];
    SingleSymbols(BytesBits(input));
    SingleLetters(Symbols(BytesBits(input)));
  }
}
