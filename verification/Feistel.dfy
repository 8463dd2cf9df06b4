/** Feistel rounds over any half blocks, any round function and any way of adding its result that
    undoes itself. */
module Feistel {

  datatype Halves<W> = Halves(l: W, r: W)

  function Crossed<W>(p: Halves<W>): Halves<W> { Halves(p.r, p.l) }

  datatype Cipher<!W, !K> = Cipher(add: (W, W) -> W, f: (W, K) -> W)

  ghost predicate AddsBack<W(!new), K>(c: Cipher<W, K>) {
    forall x, y :: c.add(c.add(x, y), y) == x
  }

  /** Two rounds: the left half is changed, then the right. */
  function TwoRounds<W, K>(c: Cipher<W, K>, k1: K, k2: K, p: Halves<W>): Halves<W> {
    var l := c.add(p.l, c.f(p.r, k1));
    Halves(l, c.add(p.r, c.f(l, k2)))
  }

  /** `n` times two rounds. */
  function Rounds<W, K>(c: Cipher<W, K>, keys: seq<K>, n: nat, p: Halves<W>): Halves<W>
    requires 2 * n <= |keys|
  {
    if n == 0 then p else TwoRounds(c, keys[2 * n - 2], keys[2 * n - 1], Rounds(c, keys, n - 1, p))
  }

  ghost predicate Reversed<K>(keys: seq<K>, back: seq<K>) {
    |back| == |keys| && forall i | 0 <= i < |keys| :: back[i] == keys[|keys| - 1 - i]
  }

  lemma TwoRoundsBack<W(!new), K>(c: Cipher<W, K>, k1: K, k2: K, p: Halves<W>)
    requires AddsBack(c)
    ensures TwoRounds(c, k2, k1, Crossed(TwoRounds(c, k1, k2, p))) == Crossed(p)
  {
  }

  lemma {:induction false} RoundsBackFrom<W(!new), K>(c: Cipher<W, K>, keys: seq<K>, back: seq<K>, n: nat, k: nat,
                                                      p: Halves<W>)
    requires AddsBack(c) && 2 * n == |keys| && Reversed(keys, back) && k <= n
    ensures Rounds(c, back, k, Crossed(Rounds(c, keys, n, p))) == Crossed(Rounds(c, keys, n - k, p))
    decreases k
  {
    if k > 0 {
      RoundsBackFrom(c, keys, back, n, k - 1, p);
      var m := n - k;
      assert back[2 * k - 2] == keys[2 * m + 1] && back[2 * k - 1] == keys[2 * m];
      TwoRoundsBack(c, keys[2 * m], keys[2 * m + 1], Rounds(c, keys, m, p));
    }
  }

  /** Code that adds the round function of one half to the other. */
  ghost predicate StepsAs<W(!new), K(!new)>(c: Cipher<W, K>, code: (W, W, K) -> W) {
    forall target, half, k :: code(target, half, k) == c.add(target, c.f(half, k))
  }

  /** The loop over the rounds, two at a time, changing the halves in turn. */
  method RunRounds<W(!new), K(!new)>(ghost c: Cipher<W, K>, code: (W, W, K) -> W, keys: seq<K>, n: nat, p: Halves<W>)
    returns (q: Halves<W>)
    requires StepsAs(c, code) && 2 * n <= |keys|
    ensures q == Rounds(c, keys, n, p)
  {
    var leftt, right := p.l, p.r;
    var i := 0;
    while i < n
      invariant 0 <= i <= n && Halves(leftt, right) == Rounds(c, keys, i, p)
    {
      leftt := code(leftt, right, keys[2 * i]);
      right := code(right, leftt, keys[2 * i + 1]);
      i := i + 1;
    }
    q := Halves(leftt, right);
  }

  /** Rounds with the keys in reverse order, on exchanged halves, go back to the start. */
  lemma RoundsInvert<W(!new), K>(c: Cipher<W, K>, keys: seq<K>, back: seq<K>, n: nat, p: Halves<W>)
    requires AddsBack(c) && 2 * n == |keys| && Reversed(keys, back)
    ensures Rounds(c, back, n, Crossed(Rounds(c, keys, n, p))) == Crossed(p)
  {
    RoundsBackFrom(c, keys, back, n, n, p);
  }

  /** Single rounds as FIPS 46-3 writes them: L' = R and R' = L + f(R, K). */
  function Ladder<W, K>(c: Cipher<W, K>, keys: seq<K>, n: nat, p: Halves<W>): Halves<W>
    requires n <= |keys|
  {
    if n == 0 then p
    else
      var q := Ladder(c, keys, n - 1, p);
      Halves(q.r, c.add(q.l, c.f(q.r, keys[n - 1])))
  }

  /** Taken two at a time the halves need not change places. */
  lemma {:induction false} LadderPairs<W, K>(c: Cipher<W, K>, keys: seq<K>, n: nat, p: Halves<W>)
    requires 2 * n <= |keys|
    ensures Ladder(c, keys, 2 * n, p) == Rounds(c, keys, n, p)
  {
    if n > 0 {
      LadderPairs(c, keys, n - 1, p);
      assert Ladder(c, keys, 2 * n - 1, p) == Halves(Rounds(c, keys, n - 1, p).r,
        c.add(Rounds(c, keys, n - 1, p).l, c.f(Rounds(c, keys, n - 1, p).r, keys[2 * n - 2])));
    }
  }

  ghost predicate Mapped<K>(key: K -> K, keys: seq<K>, mapped: seq<K>) {
    |keys| == |mapped| && forall i | 0 <= i < |keys| :: mapped[i] == key(keys[i])
  }
}
