// Filling an IPv6 pool: sixteen-byte addresses, added and compared byte by byte, and the networks generated with
// them.

module Ipv6Pool {
  import opened Common

  // The number a string of bytes stands for, most significant byte first.
  function Value(s: seq<byte>): nat {
    if s == [] then 0 else Value(s[..|s| - 1]) * 256 + s[|s| - 1]
  }

  lemma {:induction false} ValueConcat(a: seq<byte>, b: seq<byte>)
    ensures Value(a + b) == Value(a) * Pow2(8 * |b|) + Value(b)
  {
    if b == [] {
      assert a + b == a;
    } else {
      var rest := b[..|b| - 1];
      assert (a + b)[..|a + b| - 1] == a + rest;
      ValueConcat(a, rest);
      assert Pow2(8 * |b|) == 256 * Pow2(8 * |rest|) by { Pow2Byte(|rest|); }
      assert (Value(a) * Pow2(8 * |rest|)) * 256 == Value(a) * (256 * Pow2(8 * |rest|));
    }
  }

  lemma Pow2Byte(n: nat)
    ensures Pow2(8 * (n + 1)) == 256 * Pow2(8 * n)
  {
    Pow2Sum(8, 8 * n);
    assert Pow2(8) == 256 by {
      assert Pow2(4) == 16;
    }
  }

  lemma {:induction false} ValueBound(s: seq<byte>)
    ensures Value(s) < Pow2(8 * |s|)
  {
    if s != [] {
      ValueBound(s[..|s| - 1]);
      Pow2Byte(|s| - 1);
    }
  }

  lemma ValueHead(s: seq<byte>)
    requires s != []
    ensures Value(s) == s[0] * Pow2(8 * (|s| - 1)) + Value(s[1..])
  {
    assert s == [s[0]] + s[1..];
    ValueConcat([s[0]], s[1..]);
    assert Value([s[0]]) == s[0] by {
      assert [s[0]][..0] == [];
    }
  }

  // ---------------------------------------------------------------- the byte loops

  // The sum of the columns from `i` on, with what they carry.
  ghost predicate Columns(res: seq<byte>, arg: seq<byte>, i: nat, sum: seq<byte>, carry: nat)
    requires i <= |res| == |arg|
  {
    |sum| == |res| - i && Value(sum) + carry * Pow2(8 * (|res| - i)) == Value(res[i..]) + Value(arg[i..])
  }

  // One column of the addition.
  lemma AddColumn(res: seq<byte>, arg: seq<byte>, i: nat, done: seq<byte>, carry: nat, n: nat)
    requires i < |res| == |arg| && Columns(res, arg, i + 1, done, carry) && n == res[i] + arg[i] + carry
    ensures Columns(res, arg, i, [n % 256] + done, n / 256)
  {
    var p := Pow2(8 * (|res| - i - 1));
    var sum := [n % 256] + done;
    assert res[i..][1..] == res[i + 1..] && arg[i..][1..] == arg[i + 1..] && sum[1..] == done;
    ValueHead(res[i..]);
    ValueHead(arg[i..]);
    ValueHead(sum);
    Pow2Byte(|res| - i - 1);
    ColumnSum(p, n, res[i], arg[i], carry);
  }

  lemma AllColumns(res: seq<byte>, arg: seq<byte>, sum: seq<byte>, carry: nat)
    requires |res| == |arg| == 16 && Columns(res, arg, 0, sum, carry) && carry <= 1
    ensures Value(sum) == (Value(res) + Value(arg)) % SPACE
  {
    assert res[0..] == res && arg[0..] == arg;
    ValueBound(sum);
    Wraps(Value(sum), carry, Value(res) + Value(arg), 8 * |sum|);
  }

  lemma Wraps(v: nat, carry: nat, total: nat, k: nat)
    requires carry <= 1 && k == 128 && v < Pow2(k) && v + carry * Pow2(k) == total
    ensures v == total % SPACE
  {
    SpaceIsPow2();
    if carry == 0 {
      assert total == v;
    } else {
      assert total == v + SPACE;
    }
  }

  lemma ColumnSum(p: nat, n: nat, a: nat, b: nat, carry: nat)
    requires n == a + b + carry
    ensures (n % 256) * p + (n / 256) * (256 * p) == a * p + b * p + carry * p
  {
    var q, m := n / 256, n % 256;
    assert n == 256 * q + m;
    assert q * (256 * p) == (256 * q) * p;
    assert m * p + (256 * q) * p == (m + 256 * q) * p;
    assert (a + b + carry) * p == a * p + b * p + carry * p;
  }

  // Adds the second number to the first, in place; what overflows is lost.
  method Add(res: array<byte>, arg: array<byte>)
    requires res.Length == 16 && arg.Length == 16 && res != arg
    modifies res
    ensures Value(res[..]) == (Value(old(res[..])) + Value(arg[..])) % SPACE
  {
    ghost var before, second := res[..], arg[..];
    var n: int := 0;
    var i := 15;
    assert res[16..] == [] && before[16..] == [] && second[16..] == [];
    while i >= 0
      invariant -1 <= i <= 15 && 0 <= n < 512 && arg[..] == second
      invariant forall j :: 0 <= j <= i ==> res[j] == before[j]
      invariant Columns(before, second, i + 1, res[i + 1..], n / 256)
      decreases i
    {
      AddColumn(before, second, i, res[i + 1..], n / 256, res[i] + arg[i] + n / 256);
      n := res[i] + arg[i] + n / 256;
      ghost var done := res[i + 1..];
      res[i] := n % 256;
      assert res[i..] == [n % 256] + done;
      i := i - 1;
    }
    assert res[0..] == res[..];
    AllColumns(before, second, res[..], n / 256);
  }

  // The size of the address space.
  const SPACE: nat := 0x1_0000_0000_0000_0000_0000_0000_0000_0000

  lemma Square(k: nat, a: nat)
    requires Pow2(k) == a
    ensures Pow2(2 * k) == a * a
  {
    Pow2Sum(k, k);
  }

  lemma SpaceIsPow2()
    ensures Pow2(128) == SPACE && Pow2(64) == 0x1_0000_0000_0000_0000
  {
    assert Pow2(8) == 256 by {
      assert Pow2(4) == 16;
    }
    Square(8, 256);
    Square(16, 0x1_0000);
    Square(32, 0x1_0000_0000);
    Square(64, 0x1_0000_0000_0000_0000);
  }

  // The first byte that differs decides.
  lemma Decides(a: seq<byte>, b: seq<byte>, i: nat)
    requires |a| == |b| && i < |a| && a[..i] == b[..i] && a[i] < b[i]
    ensures Value(a) < Value(b)
  {
    assert a == a[..i] + a[i..] && b == b[..i] + b[i..];
    ValueConcat(a[..i], a[i..]);
    ValueConcat(b[..i], b[i..]);
    HeadDecides(a[i..], b[i..]);
  }

  lemma HeadDecides(a: seq<byte>, b: seq<byte>)
    requires |a| == |b| > 0 && a[0] < b[0]
    ensures Value(a) < Value(b)
  {
    ValueHead(a);
    ValueHead(b);
    ValueBound(a[1..]);
    Less(a[0], b[0], Pow2(8 * (|a| - 1)), Value(a[1..]), Value(b[1..]));
  }

  lemma Less(a: nat, b: nat, p: nat, s: nat, t: nat)
    requires a < b && s < p
    ensures a * p + s < b * p + t
  {
    assert (a + 1) * p <= b * p;
  }

  method Cmp(a: array<byte>, b: array<byte>) returns (r: int)
    requires a.Length == 16 && b.Length == 16
    ensures r == if Value(a[..]) < Value(b[..]) then -1 else if Value(a[..]) > Value(b[..]) then 1 else 0
  {
    var i := 0;
    while i < 16
      invariant 0 <= i <= 16 && a[..i] == b[..i]
    {
      if a[i] < b[i] {
        Decides(a[..], b[..], i);
        assert a[..][..i] == a[..i] && b[..][..i] == b[..i];
        return -1;
      }
      if a[i] > b[i] {
        Decides(b[..], a[..], i);
        return 1;
      }
      i := i + 1;
    }
    assert a[..] == a[..16] && b[..] == b[..16];
    return 0;
  }

  // ---------------------------------------------------------------- words, masks and steps

  // The bytes of a number, most significant first.
  function Bytes(n: nat, v: nat): (s: seq<byte>)
    ensures |s| == n
  {
    if n == 0 then [] else Bytes(n - 1, v / 256) + [v % 256]
  }

  lemma {:induction false} BytesValue(n: nat, v: nat)
    requires v < Pow2(8 * n)
    ensures Value(Bytes(n, v)) == v
  {
    if n > 0 {
      Pow2Byte(n - 1);
      BytesValue(n - 1, v / 256);
      assert Bytes(n, v)[..n - 1] == Bytes(n - 1, v / 256);
    }
  }

  // Bitwise or of two numbers.
  function Or(x: nat, y: nat): nat
    decreases x + y
  {
    if x == 0 && y == 0 then 0
    else 2 * Or(x / 2, y / 2) + (if x % 2 == 1 || y % 2 == 1 then 1 else 0)
  }

  // Or with k ones fills the last k bits and leaves the others.
  lemma {:induction false} OrLow(q: nat, r: nat, k: nat)
    requires r < Pow2(k)
    ensures Or(q * Pow2(k) + r, Pow2(k) - 1) == q * Pow2(k) + Pow2(k) - 1
  {
    if k == 0 {
      OrZero(q);
      assert q * Pow2(0) + r == q;
    } else {
      var p := Pow2(k - 1);
      var x, y := q * Pow2(k) + r, Pow2(k) - 1;
      assert q * Pow2(k) == 2 * (q * p);
      OrLow(q, r / 2, k - 1);
      assert x / 2 == q * p + r / 2 && y / 2 == p - 1 && y % 2 == 1;
    }
  }

  lemma {:induction false} OrZero(x: nat)
    ensures Or(x, 0) == x
  {
    if x > 0 {
      OrZero(x / 2);
    }
  }

  lemma {:induction false} TimesAdd(a: nat, b: nat, k: nat)
    ensures Times(a + b, k) == Times(a, k) + Times(b, k)
  {
    if b > 0 {
      TimesAdd(a, b - 1, k);
    }
  }

  lemma {:induction false} TimesAssoc(a: nat, b: nat, k: nat)
    ensures Times(a, Times(b, k)) == Times(Times(a, b), k)
  {
    if a > 0 {
      TimesAssoc(a - 1, b, k);
      TimesAdd(Times(a - 1, b), b, k);
    }
  }

  lemma {:induction false} TimesSucc(a: nat, k: nat)
    ensures Times(a, k + 1) == Times(a, k) + a
  {
    if a > 0 {
      TimesSucc(a - 1, k);
    }
  }

  lemma {:induction false} TimesComm(a: nat, b: nat)
    ensures Times(a, b) == Times(b, a)
  {
    if b > 0 {
      TimesComm(a, b - 1);
      TimesSucc(a, b - 1);
    } else {
      TimesZero(a);
    }
  }

  lemma {:induction false} TimesZero(a: nat)
    ensures Times(a, 0) == 0
  {
    if a > 0 {
      TimesZero(a - 1);
    }
  }

  lemma TimesMono(a: nat, b: nat, k: nat)
    requires a <= b
    ensures Times(a, k) <= Times(b, k)
    ensures a < b ==> Times(a, k) + k <= Times(b, k)
  {
    TimesAdd(a, b - a, k);
  }

  // Where a number lies between two multiples.
  lemma TimesLess(q: nat, t: nat, k: nat)
    requires Times(q, k) < Times(t, k)
    ensures q < t
  {
    if q >= t {
      TimesMono(t, q, k);
    }
  }

  lemma SameBlock(p: nat, q: nat, k: nat, x: nat)
    requires Times(p, k) <= x < Times(p, k) + k && Times(q, k) <= x < Times(q, k) + k
    ensures p == q
  {
    TimesLess(p, q + 1, k);
    TimesLess(q, p + 1, k);
  }

  lemma ValueParts(a: seq<byte>, b: seq<byte>)
    ensures Value(a + b) == Times(Value(a), Pow2(8 * |b|)) + Value(b)
  {
    ValueConcat(a, b);
    TimesIs(Value(a), Pow2(8 * |b|));
  }

  lemma Pow2Parts(a: nat, b: nat)
    ensures Pow2(a + b) == Times(Pow2(a), Pow2(b))
  {
    Pow2Sum(a, b);
    TimesIs(Pow2(a), Pow2(b));
  }

  // A network is the q-th block of its size; `end` is its last address.
  ghost predicate Block(v: nat, end: nat, q: nat, size: nat) {
    Times(q, size) <= v < Times(q, size) + size && end == Times(q, size) + size - 1
  }

  lemma {:induction false} Divide(x: nat, d: nat) returns (q: nat, r: nat)
    requires d > 0
    ensures x == q * d + r && r < d
    decreases x
  {
    if x < d {
      q, r := 0, x;
    } else {
      q, r := Divide(x - d, d);
      assert (q + 1) * d == q * d + d;
      q := q + 1;
    }
  }

  lemma FilledLow(x: nat, k: nat) returns (q: nat)
    ensures Block(x, Or(x, Pow2(k) - 1), q, Pow2(k))
  {
    var r;
    q, r := Divide(x, Pow2(k));
    OrLow(q, r, k);
    TimesIs(q, Pow2(k));
  }

  // The mask lies in the second word.
  lemma EndLow(hi: nat, lo: nat, end: nat, q: nat, s: nat, t: nat, w: nat)
    requires Block(lo, end, q, s) && w == Times(t, s)
    ensures Block(Times(hi, w) + lo, Times(hi, w) + end, Times(hi, t) + q, s)
  {
    TimesAssoc(hi, t, s);
    TimesAdd(Times(hi, t), q, s);
  }

  // The mask lies in the first word; the second is all ones.
  lemma EndHigh(hi: nat, lo: nat, end: nat, q: nat, s: nat, w: nat)
    requires Block(hi, end, q, s) && lo < w
    ensures Block(Times(hi, w) + lo, Times(end, w) + w - 1, q, Times(w, s))
  {
    var f := Times(q, s);
    TimesComm(w, s);
    TimesAssoc(q, s, w);
    TimesMono(f, hi, w);
    TimesMono(hi, end, w);
    TimesAdd(f, s, w);
    TimesAdd(end, 1, w);
  }

  function Fill(n: nat, b: byte): (s: seq<byte>)
    ensures |s| == n
  {
    if n == 0 then [] else Fill(n - 1, b) + [b]
  }

  lemma {:induction false} FillValue(n: nat)
    ensures Value(Fill(n, 0)) == 0 && Value(Fill(n, 255)) == Pow2(8 * n) - 1
  {
    if n > 0 {
      FillValue(n - 1);
      Pow2Byte(n - 1);
      assert Fill(n, 0)[..n - 1] == Fill(n - 1, 0) && Fill(n, 255)[..n - 1] == Fill(n - 1, 255);
    }
  }

  // The last address of the network: the host bits, in one word or in both, are filled with ones.
  function EndBytes(addr: seq<byte>, mask: nat): (s: seq<byte>)
    requires |addr| == 16 && mask <= 128
    ensures |s| == 16
  {
    if mask > 64 then addr[..8] + Bytes(8, Or(Value(addr[8..]), Pow2(128 - mask) - 1))
    else Bytes(8, Or(Value(addr[..8]), Pow2(64 - mask) - 1)) + Fill(8, 255)
  }

  // The distance between two networks.
  function StepBytes(prefix: nat): (s: seq<byte>)
    requires 1 <= prefix <= 128
    ensures |s| == 16
  {
    if prefix > 64 then Fill(8, 0) + Bytes(8, Pow2(128 - prefix)) else Bytes(8, Pow2(64 - prefix)) + Fill(8, 0)
  }

  // A block of a size that divides the word ends below the word's bound.
  lemma BlockBelow(v: nat, end: nat, q: nat, s: nat, t: nat)
    requires Block(v, end, q, s) && v < Times(t, s)
    ensures end < Times(t, s)
  {
    TimesLess(q, t, s);
    TimesMono(q, t, s);
  }

  lemma FilledWord(word: seq<byte>, k: nat) returns (q: nat)
    requires k <= 8 * |word|
    ensures Block(Value(word), Value(Bytes(|word|, Or(Value(word), Pow2(k) - 1))), q, Pow2(k))
  {
    q := FilledLow(Value(word), k);
    var bits := 8 * |word|;
    ValueBound(word);
    Pow2Parts(bits - k, k);
    BlockBelow(Value(word), Or(Value(word), Pow2(k) - 1), q, Pow2(k), Pow2(bits - k));
    BytesValue(|word|, Or(Value(word), Pow2(k) - 1));
  }

  lemma EndInLow(hi: seq<byte>, lo: seq<byte>, end: seq<byte>, low: nat, k: nat) returns (q: nat)
    requires |end| == |lo| && k <= 8 * |lo| && Block(Value(lo), Value(end), low, Pow2(k))
    ensures Block(Value(hi + lo), Value(hi + end), q, Pow2(k))
  {
    var bits := 8 * |lo|;
    ValueParts(hi, lo);
    ValueParts(hi, end);
    Pow2Parts(bits - k, k);
    EndLow(Value(hi), Value(lo), Value(end), low, Pow2(k), Pow2(bits - k), Pow2(bits));
    q := Times(Value(hi), Pow2(bits - k)) + low;
  }

  lemma EndInHigh(hi: seq<byte>, lo: seq<byte>, end: seq<byte>, ones: seq<byte>, q: nat, k: nat)
    requires |ones| == |lo| && Value(ones) == Pow2(8 * |lo|) - 1 && Block(Value(hi), Value(end), q, Pow2(k))
    ensures Block(Value(hi + lo), Value(end + ones), q, Pow2(8 * |lo| + k))
  {
    var bits := 8 * |lo|;
    ValueParts(hi, lo);
    ValueParts(end, ones);
    ValueBound(lo);
    Pow2Parts(bits, k);
    EndHigh(Value(hi), Value(lo), Value(end), q, Pow2(k), Pow2(bits));
  }

  // The filled address is the last of the network that holds the given one.
  lemma EndIs(addr: seq<byte>, mask: nat) returns (q: nat)
    requires |addr| == 16 && mask <= 128
    ensures Block(Value(addr), Value(EndBytes(addr, mask)), q, Pow2(128 - mask))
  {
    var hi, lo := addr[..8], addr[8..];
    assert addr == hi + lo;
    if mask > 64 {
      var low := FilledWord(lo, 128 - mask);
      q := EndInLow(hi, lo, Bytes(8, Or(Value(lo), Pow2(128 - mask) - 1)), low, 128 - mask);
    } else {
      q := FilledWord(hi, 64 - mask);
      FillValue(|lo|);
      EndInHigh(hi, lo, Bytes(8, Or(Value(hi), Pow2(64 - mask) - 1)), Fill(8, 255), q, 64 - mask);
    }
  }

  lemma StepIs(prefix: nat)
    requires 1 <= prefix <= 128
    ensures Value(StepBytes(prefix)) == Pow2(128 - prefix)
  {
    FillValue(8);
    if prefix > 64 {
      var k := 128 - prefix;
      Pow2Less(k, 8 * |Fill(8, 0)|);
      BytesValue(8, Pow2(k));
      ValueConcat(Fill(8, 0), Bytes(8, Pow2(k)));
    } else {
      var k := 64 - prefix;
      var zeros := Fill(8, 0);
      Pow2Less(k, 8 * |zeros|);
      BytesValue(8, Pow2(k));
      ValueConcat(Bytes(8, Pow2(k)), zeros);
      Pow2Sum(k, 8 * |zeros|);
    }
  }

  lemma Pow2Less(a: nat, b: nat)
    requires a < b
    ensures Pow2(a) < Pow2(b)
  {
    Pow2Monotone(a, b - 1);
  }

  // ---------------------------------------------------------------- the generator

  // The k-th address of a progression.
  function At(v: nat, step: nat, k: nat): nat {
    if k == 0 then v else At(v, step, k - 1) + step
  }

  lemma {:induction false} AtTimes(v: nat, step: nat, k: nat)
    ensures At(v, step, k) == v + Times(k, step)
  {
    if k > 0 {
      AtTimes(v, step, k - 1);
    }
  }

  ghost predicate Strided(items: seq<seq<byte>>, v: nat, step: nat) {
    forall k :: 0 <= k < |items| ==> |items[k]| == 16 && Value(items[k]) == At(v, step, k)
  }

  // The network does not end at the last address there is.
  predicate BelowTop(addr: seq<byte>, mask: nat)
    requires |addr| == 16 && mask <= 128
  {
    Value(EndBytes(addr, mask)) + 1 < SPACE
  }

  // Below the top there is room for one more step after the end.
  lemma RoomForStep(addr: seq<byte>, mask: nat, prefix: nat)
    requires |addr| == 16 && mask <= prefix <= 128 && BelowTop(addr, mask)
    ensures Value(EndBytes(addr, mask)) + Pow2(128 - prefix) < SPACE
  {
    var q := EndIs(addr, mask);
    var size := Pow2(128 - mask);
    Pow2Monotone(128 - prefix, 128 - mask);
    SpaceIsPow2();
    Pow2Parts(mask, 128 - mask);
    Room(q, size, Pow2(mask), Pow2(128 - prefix), SPACE);
  }

  lemma Room(q: nat, size: nat, m: nat, d: nat, space: nat)
    requires Times(m, size) == space && Times(q, size) + size < space && d <= size
    ensures Times(q, size) + size - 1 + d < space
  {
    TimesLess(q + 1, m, size);
    TimesMono(q + 1, m, size);
  }

  method Copied(s: seq<byte>) returns (a: array<byte>)
    ensures fresh(a) && a[..] == s
  {
    a := new byte[|s|](i requires 0 <= i < |s| => s[i]);
  }

  method AddBelow(res: array<byte>, arg: array<byte>)
    requires res.Length == 16 && arg.Length == 16 && res != arg && Value(res[..]) + Value(arg[..]) < SPACE
    modifies res
    ensures Value(res[..]) == Value(old(res[..])) + Value(arg[..])
  {
    Add(res, arg);
  }

  // Steps from the address in `ip` to the end, listing what it passes.
  method Walk(ip: array<byte>, end: array<byte>, step: array<byte>) returns (items: seq<seq<byte>>)
    requires ip.Length == 16 && end.Length == 16 && step.Length == 16 && ip != end && ip != step
    requires Value(step[..]) >= 1 && Value(ip[..]) <= Value(end[..]) && Value(end[..]) + Value(step[..]) < SPACE
    modifies ip
    ensures |items| >= 1 && Strided(items, Value(old(ip[..])), Value(step[..]))
    ensures At(Value(old(ip[..])), Value(step[..]), |items| - 1) <= Value(end[..])
         < At(Value(old(ip[..])), Value(step[..]), |items|)
  {
    ghost var v, e, d := Value(ip[..]), Value(end[..]), Value(step[..]);
    ghost var limit, stride := end[..], step[..];
    items := [];
    var c := Cmp(ip, end);
    while c <= 0
      invariant end[..] == limit && step[..] == stride
      invariant Strided(items, v, d) && Value(ip[..]) == At(v, d, |items|)
      invariant c <= 0 <==> Value(ip[..]) <= e
      invariant |items| > 0 ==> At(v, d, |items| - 1) <= e
      invariant |items| == 0 ==> c <= 0
      decreases e + d - Value(ip[..])
    {
      items := items + [ip[..]];
      AddBelow(ip, step);
      c := Cmp(ip, end);
    }
  }

  // Every address from the given one to the end of its network, one step after the other.
  method Generate(addr: seq<byte>, mask: nat, prefix: nat) returns (items: seq<seq<byte>>)
    requires |addr| == 16 && 7 <= mask <= 127 && mask <= prefix <= 128 && BelowTop(addr, mask)
    ensures |items| >= 1 && Strided(items, Value(addr), Pow2(128 - prefix))
    ensures At(Value(addr), Pow2(128 - prefix), |items| - 1) <= Value(EndBytes(addr, mask))
         < At(Value(addr), Pow2(128 - prefix), |items|)
  {
    var ip := Copied(addr);
    var end := Copied(EndBytes(addr, mask));
    var step := Copied(StepBytes(prefix));
    RoomForStep(addr, mask, prefix);
    StepIs(prefix);
    ghost var q := EndIs(addr, mask);
    items := Walk(ip, end, step);
  }

  // ---------------------------------------------------------------- the pool it makes

  // From a network-aligned address: exactly 2^(prefix - mask) networks, in ascending order.
  lemma AlignedCount(addr: seq<byte>, mask: nat, prefix: nat, q: nat, n: nat)
    requires |addr| == 16 && mask <= prefix <= 128 && Value(addr) == Times(q, Pow2(128 - mask))
    requires n >= 1
    requires At(Value(addr), Pow2(128 - prefix), n - 1) <= Value(EndBytes(addr, mask))
          < At(Value(addr), Pow2(128 - prefix), n)
    ensures n == Pow2(prefix - mask)
  {
    var p := EndIs(addr, mask);
    Pow2Parts(prefix - mask, 128 - prefix);
    CountBlock(Value(addr), Value(EndBytes(addr, mask)), p, q, Pow2(128 - mask), Pow2(128 - prefix),
               Pow2(prefix - mask), n);
  }

  lemma CountBlock(v: nat, e: nat, p: nat, q: nat, size: nat, d: nat, count: nat, n: nat)
    requires v == Times(q, size) && Block(v, e, p, size) && size == Times(count, d) && d >= 1
    requires n >= 1 && At(v, d, n - 1) <= e < At(v, d, n)
    ensures n == count
  {
    SameBlock(p, q, size, v);
    AtTimes(v, d, n - 1);
    AtTimes(v, d, n);
    CountSteps(n, count, d);
  }

  lemma CountSteps(n: nat, count: nat, d: nat)
    requires n >= 1 && d >= 1 && Times(n - 1, d) <= Times(count, d) - 1 < Times(n, d)
    ensures n == count
  {
    TimesLess(n - 1, count, d);
    TimesLess(count, n + 1, d);
  }

  // Every address of the pool lies in exactly one of the networks.
  lemma Covered(v: nat, d: nat, count: nat, a: nat) returns (k: nat)
    requires d >= 1 && v <= a < At(v, d, count)
    ensures k < count && At(v, d, k) <= a < At(v, d, k + 1)
    ensures forall j: nat :: At(v, d, j) <= a < At(v, d, j + 1) ==> j == k
  {
    AtTimes(v, d, count);
    var r;
    k, r := Divide(a - v, d);
    TimesIs(k, d);
    AtTimes(v, d, k);
    TimesLess(k, count, d);
    forall j: nat | At(v, d, j) <= a < At(v, d, j + 1) ensures j == k {
      AtTimes(v, d, j);
      SameBlock(j, k, d, a - v);
    }
  }

  // The networks of an aligned pool are 2^(prefix - mask) in number, and every address of the pool lies in exactly
  // one of them.
  lemma PoolTiled(items: seq<seq<byte>>, addr: seq<byte>, mask: nat, prefix: nat, q: nat, a: nat) returns (k: nat)
    requires |addr| == 16 && mask <= prefix <= 128 && Value(addr) == Times(q, Pow2(128 - mask))
    requires |items| >= 1 && Strided(items, Value(addr), Pow2(128 - prefix))
    requires At(Value(addr), Pow2(128 - prefix), |items| - 1) <= Value(EndBytes(addr, mask))
          < At(Value(addr), Pow2(128 - prefix), |items|)
    requires Value(addr) <= a <= Value(EndBytes(addr, mask))
    ensures |items| == Pow2(prefix - mask)
    ensures k < |items| && Value(items[k]) <= a < Value(items[k]) + Pow2(128 - prefix)
    ensures forall j :: 0 <= j < |items| && Value(items[j]) <= a < Value(items[j]) + Pow2(128 - prefix) ==> j == k
  {
    var v, d := Value(addr), Pow2(128 - prefix);
    AlignedCount(addr, mask, prefix, q, |items|);
    k := Covered(v, d, |items|, a);
    forall j | 0 <= j < |items| && Value(items[j]) <= a < Value(items[j]) + d ensures j == k {
      assert At(v, d, j + 1) == At(v, d, j) + d;
    }
  }

  // A network that ends at the last address there is has no address beyond its end, so the walk over it never
  // stops; below the top there is one.
  lemma TopHasNoBeyond(addr: seq<byte>, mask: nat)
    requires |addr| == 16 && mask <= 128
    ensures BelowTop(addr, mask) <==> exists a: seq<byte> :: |a| == 16 && Value(a) > Value(EndBytes(addr, mask))
  {
    var e := Value(EndBytes(addr, mask));
    SpaceIsPow2();
    if BelowTop(addr, mask) {
      BytesValue(16, e + 1);
      assert Value(Bytes(16, e + 1)) > e;
    } else {
      forall a: seq<byte> | |a| == 16 ensures Value(a) <= e {
        ValueBound(a);
      }
    }
  }
}
