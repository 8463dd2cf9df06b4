/** The buffered, incremental hash of libtomcrypt (the HASH_PROCESS macro and the *_done functions)
    against one pass over the padded message. */
module HashStream {
  import opened Common

  const BLOCK: nat := 64
  const TWO64: nat := 0x1_0000_0000_0000_0000

  datatype ReturnCode = Ok | InvalidArg

  /** A hash function: initial chaining value, compression of one block, how the bit length is stored
      at the end of the padding, and how the final value is written out. */
  datatype Hash<!S> = Hash(iv: S, compress: (S, seq<byte>) -> S, bigEndian: bool, store: S -> seq<byte>)

  // ---------- the reference: pad the whole message, fold over its blocks ----------

  function Zeros(n: nat): seq<byte> { seq(n, _ => 0) }

  function Fold<S>(h: Hash<S>, s: S, blocks: seq<byte>): S
    requires |blocks| % BLOCK == 0
  {
    if blocks == [] then s else Fold(h, h.compress(s, blocks[..BLOCK]), blocks[BLOCK..])
  }

  /** The bytes of a number, least significant first (STORE64L) or last (STORE64H). */
  function LittleEndian(n: nat, size: nat): (b: seq<byte>)
    ensures |b| == size
  {
    if size == 0 then [] else [n % 256] + LittleEndian(n / 256, size - 1)
  }

  function BigEndian(n: nat, size: nat): (b: seq<byte>)
    ensures |b| == size
  {
    if size == 0 then [] else BigEndian(n / 256, size - 1) + [n % 256]
  }

  function LengthField<S>(h: Hash<S>, bits: nat): (b: seq<byte>)
    ensures |b| == 8
  {
    if h.bigEndian then BigEndian(bits % TWO64, 8) else LittleEndian(bits % TWO64, 8)
  }

  /** Section 3.1 and 3.2 of RFC 1321, section 4 of RFC 3174: a one bit, the least number of zeros
      that leaves eight bytes free in the last block, and the bit length in those eight bytes. */
  function Padded<S>(h: Hash<S>, msg: seq<byte>): (p: seq<byte>)
    ensures |p| % BLOCK == 0
  {
    PadFills(|msg|);
    msg + [0x80] + Zeros(PadZeros(|msg|)) + LengthField(h, 8 * |msg|)
  }

  function PadZeros(n: nat): nat { if n % BLOCK < 56 then 55 - n % BLOCK else 119 - n % BLOCK }

  lemma PadFills(n: nat)
    ensures (n + 1 + PadZeros(n) + 8) % BLOCK == 0
    ensures PadZeros(n) < BLOCK
  {
    var q := n / BLOCK;
    assert n == BLOCK * q + n % BLOCK;
    assert n + 1 + PadZeros(n) + 8 == BLOCK * (q + if n % BLOCK < 56 then 1 else 2);
  }

  function Bound(size: nat): nat {
    if size == 0 then 1 else 256 * Bound(size - 1)
  }

  lemma {:induction false} EndianInjective(m: nat, n: nat, size: nat)
    requires m < Bound(size) && n < Bound(size)
    ensures LittleEndian(m, size) == LittleEndian(n, size) ==> m == n
    ensures BigEndian(m, size) == BigEndian(n, size) ==> m == n
  {
    if size > 0 {
      EndianInjective(m / 256, n / 256, size - 1);
      var l, k := LittleEndian(m, size), LittleEndian(n, size);
      assert l[0] == m % 256 && k[0] == n % 256 && l[1..] == LittleEndian(m / 256, size - 1);
      assert k[1..] == LittleEndian(n / 256, size - 1);
      var b, c := BigEndian(m, size), BigEndian(n, size);
      assert b[size - 1] == m % 256 && c[size - 1] == n % 256 && b[..size - 1] == BigEndian(m / 256, size - 1);
      assert c[..size - 1] == BigEndian(n / 256, size - 1);
    }
  }

  lemma BoundOfLength()
    ensures Bound(8) == TWO64
  {
    assert Bound(2) == 0x1_0000;
    assert Bound(4) == 0x1_0000_0000;
    assert Bound(6) == 0x1_0000_0000_0000;
  }

  /** No two messages of fewer than 2^61 bytes have the same padded form. */
  lemma PaddedInjective<S>(h: Hash<S>, a: seq<byte>, b: seq<byte>)
    requires 8 * |a| < TWO64 && 8 * |b| < TWO64 && Padded(h, a) == Padded(h, b)
    ensures a == b
  {
    var p := Padded(h, a);
    Ends(a, [0x80] + Zeros(PadZeros(|a|)), LengthField(h, 8 * |a|), p);
    Ends(b, [0x80] + Zeros(PadZeros(|b|)), LengthField(h, 8 * |b|), p);
    SameLength(h, 8 * |a|, 8 * |b|);
  }

  lemma Ends(a: seq<byte>, middle: seq<byte>, field: seq<byte>, p: seq<byte>)
    requires p == a + middle + field && |field| == 8
    ensures |p| >= 8 && p[|p| - 8..] == field && |a| <= |p| && p[..|a|] == a
  {
  }

  lemma SameLength<S>(h: Hash<S>, m: nat, n: nat)
    requires m < TWO64 && n < TWO64 && LengthField(h, m) == LengthField(h, n)
    ensures m == n
  {
    BoundOfLength();
    assert m % TWO64 == m && n % TWO64 == n;
    EndianInjective(m, n, |LengthField(h, m)|);
  }

  function Digest<S>(h: Hash<S>, msg: seq<byte>): seq<byte> {
    h.store(Fold(h, h.iv, Padded(h, msg)))
  }

  lemma {:induction false} FoldConcat<S>(h: Hash<S>, s: S, a: seq<byte>, b: seq<byte>)
    requires |a| % BLOCK == 0 && |b| % BLOCK == 0
    ensures (|a + b|) % BLOCK == 0 && Fold(h, s, a + b) == Fold(h, Fold(h, s, a), b)
    decreases |a|
  {
    if a == [] {
      assert a + b == b;
    } else {
      assert (a + b)[..BLOCK] == a[..BLOCK] && (a + b)[BLOCK..] == a[BLOCK..] + b;
      FoldConcat(h, h.compress(s, a[..BLOCK]), a[BLOCK..], b);
    }
  }

  lemma FoldOne<S>(h: Hash<S>, s: S, block: seq<byte>)
    requires |block| == BLOCK
    ensures Fold(h, s, block) == h.compress(s, block)
  {
    assert block[..BLOCK] == block && block[BLOCK..] == [];
  }

  /** Compressing what is left, its padding and the length field: the padding fits into one block
      after the last whole one, or takes two. */
  function Closed<S>(h: Hash<S>, s: S, rest: seq<byte>, field: seq<byte>): S
    requires |rest| < BLOCK && |field| == 8
  {
    if |rest| < 56 then h.compress(s, rest + [0x80] + Zeros(55 - |rest|) + field)
    else h.compress(h.compress(s, rest + [0x80] + Zeros(63 - |rest|)), Zeros(56) + field)
  }

  lemma FoldTail<S>(h: Hash<S>, s: S, rest: seq<byte>, field: seq<byte>, zeros: nat)
    requires |rest| < BLOCK && |field| == 8
    requires zeros == if |rest| < 56 then 55 - |rest| else 119 - |rest|
    ensures var tail := rest + [0x80] + Zeros(zeros) + field;
            |tail| % BLOCK == 0 && Fold(h, s, tail) == Closed(h, s, rest, field)
  {
    var tail := rest + [0x80] + Zeros(zeros) + field;
    if |rest| < 56 {
      FoldOne(h, s, tail);
    } else {
      var one, two := rest + [0x80] + Zeros(63 - |rest|), Zeros(56) + field;
      assert Zeros(zeros) == Zeros(63 - |rest|) + Zeros(56);
      assert tail == one + two;
      FoldConcat(h, s, one, two);
      FoldOne(h, s, one);
      FoldOne(h, h.compress(s, one), two);
    }
  }

  lemma DigestClosed<S>(h: Hash<S>, blocks: seq<byte>, rest: seq<byte>)
    requires |blocks| % BLOCK == 0 && |rest| < BLOCK
    ensures Fold(h, h.iv, Padded(h, blocks + rest))
         == Closed(h, Fold(h, h.iv, blocks), rest, LengthField(h, 8 * |blocks + rest|))
  {
    var msg := blocks + rest;
    var field, zeros := LengthField(h, 8 * |msg|), PadZeros(|msg|);
    assert zeros == if |rest| < 56 then 55 - |rest| else 119 - |rest| by { RestLength(|blocks|, |rest|); }
    var tail := rest + [0x80] + Zeros(zeros) + field;
    FoldTail(h, Fold(h, h.iv, blocks), rest, field, zeros);
    Regrouped(blocks, rest, [0x80], Zeros(zeros), field);
    FoldConcat(h, h.iv, blocks, tail);
  }

  lemma Regrouped(a: seq<byte>, b: seq<byte>, c: seq<byte>, d: seq<byte>, e: seq<byte>)
    ensures a + b + c + d + e == a + (b + c + d + e)
  {
  }

  lemma RestLength(n: nat, r: nat)
    requires n % BLOCK == 0 && r < BLOCK
    ensures (n + r) % BLOCK == r
  {
  }

  // ---------- the state that is updated in place ----------

  class State<S> {
    const h: Hash<S>
    var state: S
    var curlen: nat
    var length: nat
    const buf: array<byte>
    /** The whole blocks compressed so far. */
    ghost var blocks: seq<byte>

    ghost predicate Valid()
      reads this, buf
    {
      && buf.Length == BLOCK && curlen < BLOCK
      && |blocks| % BLOCK == 0
      && state == Fold(h, h.iv, blocks)
      && length == 8 * |blocks| % TWO64
    }

    /** Every byte given so far. */
    ghost function Message(): seq<byte>
      requires Valid()
      reads this, buf
    {
      blocks + buf[..curlen]
    }

    constructor (h: Hash<S>)
      ensures Valid() && Message() == [] && this.h == h && fresh(buf)
    {
      this.h := h;
      state := h.iv;
      curlen, length := 0, 0;
      buf := new byte[BLOCK](_ => 0);
      blocks := [];
    }

    /** One more block is compressed and counted. */
    method Compress(block: seq<byte>)
      requires buf.Length == BLOCK && |blocks| % BLOCK == 0 && state == Fold(h, h.iv, blocks)
          && length == 8 * |blocks| % TWO64
      requires |block| == BLOCK
      modifies `state, `length, `blocks
      ensures |blocks| % BLOCK == 0 && state == Fold(h, h.iv, blocks) && length == 8 * |blocks| % TWO64
      ensures blocks == old(blocks) + block
      ensures curlen == 0 ==> Message() == old(blocks) + block
    {
      FoldConcat(h, h.iv, blocks, block);
      FoldOne(h, state, block);
      AddModulo(8 * |blocks|, BLOCK * 8);
      state := h.compress(state, block);
      length := (length + BLOCK * 8) % TWO64;
      blocks := blocks + block;
    }

    /** Bytes are copied behind those already in the buffer. */
    method Append(part: seq<byte>)
      requires curlen <= buf.Length && |part| <= buf.Length - curlen
      modifies `curlen, buf
      ensures curlen == old(curlen) + |part|
      ensures buf[..curlen] == old(buf[..curlen]) + part
    {
      forall k | 0 <= k < |part| { buf[curlen + k] := part[k]; }
      curlen := curlen + |part|;
    }

    /** Bytes that do not overfill the buffer are copied there; a full buffer is compressed. */
    method AddPart(part: seq<byte>)
      requires Valid() && |part| <= BLOCK - curlen
      modifies this, buf
      ensures Valid() && Message() == old(Message()) + part
    {
      ghost var rest := buf[..curlen];
      Append(part);
      assert blocks + buf[..curlen] == (blocks + rest) + part;
      if curlen == BLOCK {
        assert buf[..] == buf[..curlen];
        Compress(buf[..]);
        curlen := 0;
      }
    }

    /** Zero bytes up to the given fill level. */
    method ZeroFill(level: nat)
      requires curlen <= level <= buf.Length
      modifies `curlen, buf
      ensures curlen == level
      ensures buf[..level] == old(buf[..curlen]) + Zeros(level - old(curlen))
    {
      ghost var start := buf[..curlen];
      while curlen < level
        invariant |start| <= curlen <= level
        invariant buf[..curlen] == start + Zeros(curlen - |start|)
      {
        buf[curlen] := 0;
        curlen := curlen + 1;
        assert buf[..curlen] == buf[..curlen - 1] + [0];
      }
    }

    /** The padding is completed in the buffer and compressed, as one block or two. */
    method Close(field: seq<byte>)
      requires buf.Length == BLOCK && curlen < BLOCK && |field| == 8
      modifies this, buf
      ensures state == Closed(h, old(state), old(buf[..curlen]), field)
    {
      ghost var rest := buf[..curlen];
      Append([0x80]);
      if curlen > 56 {
        ZeroFill(BLOCK);
        assert buf[..] == buf[..BLOCK] == rest + [0x80] + Zeros(63 - |rest|);
        state := h.compress(state, buf[..]);
        curlen := 0;
      }
      ZeroFill(56);
      assert buf[..56] == if |rest| < 56 then rest + [0x80] + Zeros(55 - |rest|) else Zeros(56);
      Append(field);
      assert buf[..] == buf[..BLOCK];
      state := h.compress(state, buf[..]);
    }

    /** The result is the digest of every byte given, in whatever pieces. */
    method Done() returns (rc: ReturnCode, out: seq<byte>)
      requires Valid() || curlen >= BLOCK
      modifies this, buf
      ensures old(curlen) >= BLOCK ==> rc == InvalidArg && out == [] && unchanged(this) && unchanged(buf)
      ensures old(curlen) < BLOCK ==> rc == Ok && out == Digest(h, old(Message()))
    {
      if curlen >= BLOCK { return InvalidArg, []; }
      DigestClosed(h, blocks, buf[..curlen]);
      CountRest(h, |blocks|, curlen);
      length := (length + curlen * 8) % TWO64;
      Close(LengthField(h, length));
      out := h.store(state);
      rc := Ok;
    }

    /** Any input, whatever is already buffered: afterwards exactly those bytes have been added. */
    method Process(input: seq<byte>) returns (rc: ReturnCode)
      requires Valid() || curlen > BLOCK
      modifies this, buf
      ensures old(curlen) > BLOCK ==> rc == InvalidArg && unchanged(this) && unchanged(buf)
      ensures old(curlen) <= BLOCK ==> rc == Ok && Valid() && Message() == old(Message()) + input
    {
      if curlen > BLOCK { return InvalidArg; }
      var pos := 0;
      ghost var start := Message();
      while pos < |input|
        invariant 0 <= pos <= |input|
        invariant Valid() && Message() == start + input[..pos]
      {
        var n;
        if curlen == 0 && |input| - pos >= BLOCK {
          n := BLOCK;
          Compress(input[pos..pos + n]);
        } else {
          n := if |input| - pos < BLOCK - curlen then |input| - pos else BLOCK - curlen;
          AddPart(input[pos..pos + n]);
        }
        TakeMore(start, input, pos, n);
        pos := pos + n;
      }
      rc := Ok;
    }
  }

  lemma TakeMore(start: seq<byte>, input: seq<byte>, pos: nat, n: nat)
    requires pos + n <= |input|
    ensures start + input[..pos] + input[pos..pos + n] == start + input[..pos + n]
  {
  }

  lemma CountRest<S>(h: Hash<S>, n: nat, r: nat)
    ensures LengthField(h, (8 * n % TWO64 + r * 8) % TWO64) == LengthField(h, 8 * (n + r))
  {
    AddModulo(8 * n, r * 8);
  }

  lemma AddModulo(x: nat, y: nat)
    ensures (x % TWO64 + y) % TWO64 == (x + y) % TWO64
  {
  }

  function Joined(pieces: seq<seq<byte>>): seq<byte> {
    if pieces == [] then [] else Joined(pieces[..|pieces| - 1]) + pieces[|pieces| - 1]
  }

  /** Cutting a message into update calls in any way does not change the digest. */
  method HashPieces<S>(h: Hash<S>, pieces: seq<seq<byte>>) returns (out: seq<byte>)
    ensures out == Digest(h, Joined(pieces))
  {
    var md := new State(h);
    var i := 0;
    while i < |pieces|
      invariant 0 <= i <= |pieces| && md.h == h && md.Valid() && md.Message() == Joined(pieces[..i])
      invariant fresh(md) && fresh(md.buf)
    {
      var rc := md.Process(pieces[i]);
      assert pieces[..i + 1][..i] == pieces[..i];
      i := i + 1;
    }
    assert pieces[..i] == pieces;
    var rc;
    rc, out := md.Done();
  }
}
