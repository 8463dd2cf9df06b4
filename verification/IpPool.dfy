// Filling an IPv4 pool: the tunnel addresses are drawn from a circular doubly linked list, in order or by two
// cursors that walk it in opposite directions and a stream of random bytes.

module IpPool {
  import opened Common

  class Link {
    var next: Link?
    var prev: Link?
    const addr: int

    constructor (addr: int)
      ensures this.addr == addr && next == this && prev == this
    {
      this.addr := addr;
      next := this;
      prev := this;
    }
  }

  // The links of a ring in order, the list head first.
  ghost predicate Ring(ring: seq<Link>)
    reads ring
  {
    && |ring| >= 1
    && (forall i, j :: 0 <= i < j < |ring| ==> ring[i] != ring[j])
    && (forall i :: 0 <= i < |ring| - 1 ==> ring[i].next == ring[i + 1] && ring[i + 1].prev == ring[i])
    && ring[|ring| - 1].next == ring[0] && ring[0].prev == ring[|ring| - 1]
  }

  ghost predicate Within(ring: seq<Link>, all: set<Link>) {
    forall i :: 0 <= i < |ring| ==> ring[i] in all
  }

  ghost function Drop(ring: seq<Link>, k: nat): seq<Link>
    requires k < |ring|
  {
    ring[..k] + ring[k + 1..]
  }

  lemma Neighbours(ring: seq<Link>, k: nat)
    requires Ring(ring) && k < |ring|
    ensures ring[k].next == ring[if k + 1 < |ring| then k + 1 else 0]
    ensures ring[k].prev == ring[if k > 0 then k - 1 else |ring| - 1]
  {
    if k > 0 {
      assert ring[k - 1 + 1].prev == ring[k - 1];
    }
  }

  method Unlink(entry: Link, ghost ring: seq<Link>, ghost k: nat, ghost all: set<Link>)
    requires Ring(ring) && 1 <= k < |ring| && ring[k] == entry && Within(ring, all)
    modifies all
    ensures Ring(Drop(ring, k))
    ensures entry.next == null && entry.prev == null
  {
    Neighbours(ring, k);
    entry.next.prev := entry.prev;
    entry.prev.next := entry.next;
    entry.next := null;
    entry.prev := null;
    ghost var rest := Drop(ring, k);
    assert forall i :: 0 <= i < |rest| ==> rest[i] == ring[if i < k then i else i + 1];
  }

  lemma Around(ring: seq<Link>, x: Link)
    requires Ring(ring) && x in ring
    ensures x.next != null && x.next in ring && x.prev != null && x.prev in ring
    ensures |ring| >= 2 ==> x.next != x && x.prev != x
  {
    var k :| 0 <= k < |ring| && ring[k] == x;
    Neighbours(ring, k);
  }

  // Steps in a ring of a head and `m` links, the head being 0.
  function Ahead(m: nat, i: nat): nat {
    if i < m then i + 1 else 0
  }

  function Behind(m: nat, i: nat): nat {
    if i > 0 then i - 1 else m
  }

  // The link drawn, or 0 for none, and where the two cursors stand afterwards.
  datatype Walk = Walk(pick: nat, i: nat, j: nat)

  // A cursor on the head first steps off it.  Below 32 the link under the first cursor is drawn, below 64 the one under
  // the second.  Both step on, the first ahead and the second back, and once more off the link drawn.
  function Walked(m: nat, i: nat, j: nat, r: int): (w: Walk)
    requires m >= 1 && i <= m && j <= m
    ensures w.i <= m && w.j <= m && w.pick <= m && (w.pick == 0 <==> r >= 64)
    ensures w.pick > 0 ==> w.i != w.pick && w.j != w.pick
  {
    var a, b := if i == 0 then Ahead(m, i) else i, if j == 0 then Behind(m, j) else j;
    var pick := if r < 32 then a else if r < 64 then b else 0;
    var a', b' := Ahead(m, a), Behind(m, b);
    if pick == 0 then Walk(0, a', b')
    else Walk(pick, if a' == pick then Ahead(m, a') else a', if b' == pick then Behind(m, b') else b')
  }

  // Both cursors step on, and the byte says which of them, if any, is drawn.
  method Choose(head: Link, cursor1: Link, cursor2: Link, r: int, ghost ring: seq<Link>, ghost i: nat, ghost j: nat)
    returns (pos: Link?, pos1: Link, pos2: Link)
    requires Ring(ring) && ring[0] == head && |ring| >= 2
    requires i < |ring| && cursor1 == ring[i] && j < |ring| && cursor2 == ring[j]
    ensures var w := Walked(|ring| - 1, i, j, r);
      pos1 == ring[w.i] && pos2 == ring[w.j] && pos == if w.pick == 0 then null else ring[w.pick]
  {
    pos1, pos2 := cursor1, cursor2;
    ghost var m, a, b := |ring| - 1, i, j;
    Neighbours(ring, 0);
    if pos1 == head {
      pos1, a := pos1.next, Ahead(m, a);
    }
    if pos2 == head {
      pos2, b := pos2.prev, Behind(m, b);
    }
    pos := if r < 32 then pos1 else if r < 64 then pos2 else null;
    Neighbours(ring, a);
    Neighbours(ring, b);
    pos1, a := pos1.next, Ahead(m, a);
    pos2, b := pos2.prev, Behind(m, b);
    if r < 64 {
      Neighbours(ring, a);
      Neighbours(ring, b);
      if pos == pos1 {
        pos1 := pos1.next;
      }
      if pos == pos2 {
        pos2 := pos2.prev;
      }
    }
  }

  // Where a link stands when link `k` is gone.
  function Closed(i: nat, k: nat): nat {
    if i > k then i - 1 else i
  }

  lemma StillThere(ring: seq<Link>, k: nat, i: nat)
    requires 1 <= k < |ring| && i < |ring| && i != k
    ensures Closed(i, k) < |ring| - 1 && Drop(ring, k)[Closed(i, k)] == ring[i]
  {
  }

  // Draws the next peer, unless the byte passes this turn over.
  method Draw(head: Link, shuffle: bool, cursor1: Link, cursor2: Link, r: int, ghost ring: seq<Link>,
              ghost all: set<Link>, ghost i: nat, ghost j: nat)
    returns (pos: Link?, pos1: Link, pos2: Link)
    requires Ring(ring) && ring[0] == head && |ring| >= 2 && Within(ring, all)
    requires shuffle ==> i < |ring| && cursor1 == ring[i] && j < |ring| && cursor2 == ring[j]
    modifies all
    ensures !shuffle ==> pos == ring[1] && Ring(Drop(ring, 1))
    ensures shuffle ==>
      var w := Walked(|ring| - 1, i, j, r);
      if w.pick == 0 then pos == null && Ring(ring) && pos1 == ring[w.i] && pos2 == ring[w.j]
      else
        && pos == ring[w.pick] && Ring(Drop(ring, w.pick))
        && pos1 == Drop(ring, w.pick)[Closed(w.i, w.pick)] && pos2 == Drop(ring, w.pick)[Closed(w.j, w.pick)]
  {
    if shuffle {
      ghost var w := Walked(|ring| - 1, i, j, r);
      pos, pos1, pos2 := Choose(head, cursor1, cursor2, r, ring, i, j);
      if pos != null {
        StillThere(ring, w.pick, w.i);
        StillThere(ring, w.pick, w.j);
        Unlink(pos, ring, w.pick, all);
      }
    } else {
      Neighbours(ring, 0);
      pos, pos1, pos2 := head.next, cursor1, cursor2;
      Unlink(pos, ring, 1, all);
    }
  }

  // ---------------------------------------------------------------- the generator

  datatype Item = Item(addr: int, peer: int)

  // The addresses still linked.
  ghost function Addrs(ring: seq<Link>): (s: seq<int>)
    requires |ring| >= 1
    ensures |s| == |ring| - 1
  {
    seq(|ring| - 1, i requires 0 <= i < |ring| - 1 => ring[i + 1].addr)
  }

  function Peers(items: seq<Item>): (s: seq<int>)
    ensures |s| == |items|
  {
    seq(|items|, i requires 0 <= i < |items| => items[i].peer)
  }

  function Gateways(items: seq<Item>): (s: seq<int>)
    ensures |s| == |items|
  {
    seq(|items|, i requires 0 <= i < |items| => items[i].addr)
  }

  lemma AddrsGap(ring: seq<Link>, k: nat)
    requires 1 <= k < |ring|
    ensures Addrs(Drop(ring, k)) == Addrs(ring)[..k - 1] + Addrs(ring)[k..] && Addrs(ring)[k - 1] == ring[k].addr
  {
  }

  lemma AddrsDrop(ring: seq<Link>, k: nat)
    requires 1 <= k < |ring|
    ensures multiset(Addrs(ring)) == multiset(Addrs(Drop(ring, k))) + multiset{ring[k].addr}
    ensures Addrs(Drop(ring, k)) == Addrs(ring)[..k - 1] + Addrs(ring)[k..] && Addrs(ring)[k - 1] == ring[k].addr
    ensures k == 1 ==> Addrs(ring) == [ring[1].addr] + Addrs(Drop(ring, 1))
  {
    AddrsGap(ring, k);
    var all := Addrs(ring);
    assert all == all[..k - 1] + [all[k - 1]] + all[k..];
  }

  // The order in which the addresses are drawn: that of the list, or that of the two cursors and the random bytes from
  // number `n` on, when `t` bytes in a row have drawn nothing.
  function Order(s: seq<int>, shuffle: bool, i: nat, j: nat, t: nat, n: nat, random: nat -> byte): seq<int>
    requires i <= |s| && j <= |s| && t <= 10
    decreases |s|, 10 - t
  {
    if s == [] || !shuffle then s
    else
      var w := Walked(|s|, i, j, if t < 10 then random(n) else random(n) % 64);
      if w.pick == 0 then Order(s, true, w.i, w.j, t + 1, n + 1, random)
      else
        [s[w.pick - 1]] +
        Order(s[..w.pick - 1] + s[w.pick..], true, Closed(w.i, w.pick), Closed(w.j, w.pick), 0, n + 1, random)
  }

  lemma Picked(s: seq<int>, k: nat, rest: seq<int>, later: seq<int>)
    requires k < |s| && rest == s[..k] + s[k + 1..] && multiset(later) == multiset(rest)
    ensures multiset([s[k]] + later) == multiset(s)
  {
    assert s == s[..k] + [s[k]] + s[k + 1..];
  }

  // Whatever the random bytes, it is a permutation.
  lemma {:induction false} OrderPermutes(s: seq<int>, shuffle: bool, i: nat, j: nat, t: nat, n: nat,
                                         random: nat -> byte)
    requires i <= |s| && j <= |s| && t <= 10
    ensures multiset(Order(s, shuffle, i, j, t, n, random)) == multiset(s)
    decreases |s|, 10 - t
  {
    if s != [] && shuffle {
      var w := Walked(|s|, i, j, if t < 10 then random(n) else random(n) % 64);
      if w.pick == 0 {
        OrderPermutes(s, true, w.i, w.j, t + 1, n + 1, random);
      } else {
        var rest := s[..w.pick - 1] + s[w.pick..];
        var later := Order(rest, true, Closed(w.i, w.pick), Closed(w.j, w.pick), 0, n + 1, random);
        OrderPermutes(rest, true, Closed(w.i, w.pick), Closed(w.j, w.pick), 0, n + 1, random);
        Picked(s, w.pick - 1, rest, later);
      }
    }
  }

  // The addresses that are not the gateway's.
  function Others(s: seq<int>, gateway: int): seq<int> {
    if s == [] then []
    else if s[0] == gateway then Others(s[1..], gateway)
    else [s[0]] + Others(s[1..], gateway)
  }

  function Min(a: nat, b: nat): nat {
    if a < b then a else b
  }

  // What the items hold against what was linked at the start, with a gateway set.
  ghost predicate Dealt(items: seq<Item>, left: seq<int>, all: seq<int>, gateway: int) {
    && (forall i :: 0 <= i < |items| ==> items[i].addr == gateway && items[i].peer != gateway)
    && (multiset(Peers(items)) + multiset(left))[gateway := 0] == multiset(all)[gateway := 0]
  }

  // The same without one: gateway addresses are used up in their order, and the peer drawn when they have run
  // out is lost.
  ghost predicate Paired(items: seq<Item>, left: seq<int>, all: seq<int>, gateways: seq<int>, used: nat,
                         lost: seq<int>) {
    && |items| == used <= |gateways| && Gateways(items) == gateways[..used]
    && multiset(Peers(items)) + multiset(left) + multiset(lost) == multiset(all)
    && |items| + |left| + |lost| == |all|
  }

  lemma PeersSnoc(items: seq<Item>, it: Item)
    ensures Peers(items + [it]) == Peers(items) + [it.peer] && Gateways(items + [it]) == Gateways(items) + [it.addr]
    ensures multiset(Peers(items + [it])) == multiset(Peers(items)) + multiset{it.peer}
  {
    assert Peers(items + [it]) == Peers(items) + [it.peer];
  }

  lemma DealtNext(items: seq<Item>, left: seq<int>, rest: seq<int>, all: seq<int>, gateway: int, peer: int)
    requires Dealt(items, left, all, gateway) && multiset(left) == multiset(rest) + multiset{peer}
    ensures peer == gateway ==> Dealt(items, rest, all, gateway)
    ensures peer != gateway ==> Dealt(items + [Item(gateway, peer)], rest, all, gateway)
  {
    PeersSnoc(items, Item(gateway, peer));
    var before := multiset(Peers(items)) + multiset(left);
    if peer == gateway {
      assert (multiset(Peers(items)) + multiset(rest))[gateway := 0] == before[gateway := 0];
    } else {
      assert multiset(Peers(items + [Item(gateway, peer)])) + multiset(rest) == before;
    }
  }

  lemma PairedNext(items: seq<Item>, left: seq<int>, rest: seq<int>, all: seq<int>, gateways: seq<int>, peer: int)
    requires Paired(items, left, all, gateways, |items|, [])
    requires |left| == |rest| + 1 && multiset(left) == multiset(rest) + multiset{peer}
    ensures |items| < |gateways| ==>
      Paired(items + [Item(gateways[|items|], peer)], rest, all, gateways, |items| + 1, [])
    ensures |items| == |gateways| ==> Paired(items, rest, all, gateways, |items|, [peer])
  {
    if |items| < |gateways| {
      PeersSnoc(items, Item(gateways[|items|], peer));
    }
  }

  // The books of the generator, with a gateway set and without.
  ghost predicate Booked(items: seq<Item>, left: seq<int>, all: seq<int>, gateway: int, gateways: seq<int>) {
    && (gateway != 0 ==> Dealt(items, left, all, gateway))
    && (gateway == 0 ==> Paired(items, left, all, gateways, |items|, []))
  }

  // The peers come in the order in which they are drawn; `order` is what is still to be drawn.
  ghost predicate InOrder(items: seq<Item>, lost: seq<int>, order: seq<int>, whole: seq<int>, gateway: int) {
    if gateway == 0 then whole == Peers(items) + lost + order
    else Others(whole, gateway) == Peers(items) + Others(order, gateway)
  }

  lemma InOrderNext(items: seq<Item>, next: seq<Item>, stop: bool, left: seq<int>, rest: seq<int>, all: seq<int>,
                    gateway: int, peer: int, a: int)
    requires InOrder(items, [], left, all, gateway) && left == [peer] + rest
    requires next == if stop || (gateway != 0 && peer == gateway) then items else items + [Item(a, peer)]
    requires stop ==> gateway == 0
    ensures InOrder(next, if stop then [peer] else [], rest, all, gateway)
  {
    PeersSnoc(items, Item(a, peer));
    if gateway == 0 {
      Regroup(Peers(items), peer, rest);
    } else {
      OthersHead(peer, rest, gateway);
      Regroup(Peers(items), peer, Others(rest, gateway));
    }
  }

  lemma Regroup(a: seq<int>, x: int, b: seq<int>)
    ensures a + [] + ([x] + b) == a + [x] + b && a + ([x] + b) == a + [x] + b && a + [x] + [] + b == a + [x] + b
  {
  }

  lemma OthersHead(x: int, rest: seq<int>, gateway: int)
    ensures Others([x] + rest, gateway) == if x == gateway then Others(rest, gateway) else [x] + Others(rest, gateway)
  {
    assert ([x] + rest)[1..] == rest;
  }

  // The state of the loop: still going, or stopped with one peer lost.
  ghost predicate Standing(items: seq<Item>, stop: bool, lost: seq<int>, left: seq<int>, all: seq<int>,
                           order: seq<int>, whole: seq<int>, gateway: int, gateways: seq<int>) {
    && (!stop ==> lost == [] && Booked(items, left, all, gateway, gateways))
    && (stop ==> gateway == 0 && |lost| == 1 && |items| == |gateways|)
    && (stop ==> Paired(items, left, all, gateways, |items|, lost))
    && InOrder(items, lost, order, whole, gateway)
  }

  // Makes an item of the peer, or passes over the gateway's own address, or stops for want of a gateway address.
  method Deal(items: seq<Item>, gateway: int, gateways: seq<int>, peer: int, ghost left: seq<int>, ghost rest: seq<int>,
              ghost all: seq<int>, ghost order: seq<int>, ghost whole: seq<int>)
    returns (next: seq<Item>, stop: bool)
    requires Standing(items, false, [], left, all, [peer] + order, whole, gateway, gateways)
    requires |left| == |rest| + 1 && multiset(left) == multiset(rest) + multiset{peer}
    ensures Standing(next, stop, if stop then [peer] else [], rest, all, order, whole, gateway, gateways)
  {
    next, stop := items, false;
    ghost var a := gateway;
    if gateway == 0 {
      PairedNext(items, left, rest, all, gateways, peer);
      if |items| == |gateways| {
        stop := true;
      } else {
        a := gateways[|items|];
        next := items + [Item(gateways[|items|], peer)];
      }
    } else {
      DealtNext(items, left, rest, all, gateway, peer);
      if peer != gateway {
        next := items + [Item(gateway, peer)];
      }
    }
    InOrderNext(items, next, stop, [peer] + order, order, whole, gateway, peer, a);
  }

  lemma Beginning(all: seq<int>, whole: seq<int>, gateway: int, gateways: seq<int>)
    ensures Standing([], false, [], all, all, whole, whole, gateway, gateways)
  {
    assert Peers([]) == [] && Gateways([]) == gateways[..0];
  }

  // What the generator leaves: nothing linked, with a gateway set; otherwise as many items as there are pairs.
  ghost predicate Result(items: seq<Item>, lost: seq<int>, left: seq<int>, all: seq<int>, order: seq<int>,
                         whole: seq<int>, gateway: int, gateways: seq<int>) {
    && (gateway != 0 ==> left == [] && lost == [] && Dealt(items, [], all, gateway))
    && (gateway == 0 ==> Paired(items, left, all, gateways, |items|, lost))
    && (gateway == 0 ==> |items| == Min(|gateways|, |all|) && |lost| == if |gateways| < |all| then 1 else 0)
    && InOrder(items, lost, order, whole, gateway) && (left == [] ==> order == [])
  }

  lemma Ending(items: seq<Item>, stop: bool, lost: seq<int>, left: seq<int>, all: seq<int>, order: seq<int>,
               whole: seq<int>, gateway: int, gateways: seq<int>)
    requires Standing(items, stop, lost, left, all, order, whole, gateway, gateways) && (stop || left == [])
    requires left == [] ==> order == []
    ensures Result(items, lost, left, all, order, whole, gateway, gateways)
  {
  }

  // One turn of the loop draws what comes next in order, or passes.
  method Turn(head: Link, shuffle: bool, cursor1: Link, cursor2: Link, t: nat, n: nat, random: nat -> byte,
              ghost ring: seq<Link>, ghost nodes: set<Link>, ghost i: nat, ghost j: nat)
    returns (pos: Link?, pos1: Link, pos2: Link, t': nat, n': nat, ghost ring': seq<Link>, ghost i': nat, ghost j': nat)
    requires Ring(ring) && ring[0] == head && |ring| >= 2 && Within(ring, nodes) && t <= 10
    requires i < |ring| && j < |ring| && (shuffle ==> cursor1 == ring[i] && cursor2 == ring[j])
    modifies nodes
    ensures Ring(ring') && ring'[0] == head && Within(ring', nodes) && t' <= 10
    ensures i' < |ring'| && j' < |ring'| && (shuffle ==> pos1 == ring'[i'] && pos2 == ring'[j'])
    ensures var before := Order(Addrs(ring), shuffle, i, j, t, n, random);
      var after := Order(Addrs(ring'), shuffle, i', j', t', n', random);
      if pos == null then ring' == ring && t' == t + 1 && after == before
      else
        && |ring'| == |ring| - 1 && before == [pos.addr] + after
        && multiset(Addrs(ring)) == multiset(Addrs(ring')) + multiset{pos.addr}
  {
    var r: int := if t < 10 then random(n) else random(n) % 64;
    ghost var w := Walked(|ring| - 1, i, j, r);
    ghost var k := if shuffle then w.pick else 1;
    pos, pos1, pos2 := Draw(head, shuffle, cursor1, cursor2, r, ring, nodes, i, j);
    if pos == null {
      t', n', ring', i', j' := t + 1, n + 1, ring, w.i, w.j;
    } else {
      AddrsDrop(ring, k);
      t', n', ring' := 0, n + 1, Drop(ring, k);
      i', j' := if shuffle then Closed(w.i, k) else 0, if shuffle then Closed(w.j, k) else 0;
    }
  }

  // Where the cursors start: on the first link and on the last.
  function Start(m: nat): nat {
    Ahead(m, 0)
  }

  // Empties the ring into items.  Ten bytes of 64 and more in a row are passed over; the eleventh is cut to six
  // bits, so every eleven turns draw at least once.
  method Generate(head: Link, shuffle: bool, gateway: int, gateways: seq<int>, random: nat -> byte,
                  ghost links: seq<Link>, ghost nodes: set<Link>)
    returns (items: seq<Item>, ghost ring: seq<Link>, ghost lost: seq<int>, ghost order: seq<int>)
    requires Ring(links) && links[0] == head && Within(links, nodes)
    modifies nodes
    ensures Ring(ring) && ring[0] == head
    ensures var all := Addrs(links);
      Result(items, lost, Addrs(ring), all, order, Order(all, shuffle, Start(|all|), |all|, 0, 0, random),
             gateway, gateways)
  {
    ring, lost, items := links, [], [];
    ghost var all := Addrs(links);
    ghost var i: nat, j: nat := Start(|all|), |all|;
    ghost var whole := Order(all, shuffle, i, j, 0, 0, random);
    order := whole;
    Neighbours(links, 0);
    var pos1: Link, pos2: Link := head.next, head.prev;
    var t: nat, n: nat, stop := 0, 0, false;
    Beginning(all, whole, gateway, gateways);
    while !stop && head.next != head
      invariant Ring(ring) && ring[0] == head && Within(ring, nodes)
      invariant 0 <= t <= 10 && 0 <= n && i < |ring| && j < |ring|
      invariant shuffle && !stop ==> pos1 == ring[i] && pos2 == ring[j]
      invariant order == Order(Addrs(ring), shuffle, i, j, t, n, random)
      invariant Standing(items, stop, lost, Addrs(ring), all, order, whole, gateway, gateways)
      decreases !stop, |ring|, 10 - t
    {
      Neighbours(ring, 0);
      var pos: Link?;
      ghost var left := Addrs(ring);
      pos, pos1, pos2, t, n, ring, i, j := Turn(head, shuffle, pos1, pos2, t, n, random, ring, nodes, i, j);
      ghost var next := Order(Addrs(ring), shuffle, i, j, t, n, random);
      if pos != null {
        items, stop := Deal(items, gateway, gateways, pos.addr, left, Addrs(ring), all, next, whole);
        lost := if stop then [pos.addr] else [];
      }
      order := next;
    }
    Neighbours(ring, 0);
    Ending(items, stop, lost, Addrs(ring), all, order, whole, gateway, gateways);
  }

  lemma {:induction false} OthersCounts(s: seq<int>, gateway: int)
    ensures multiset(Others(s, gateway)) == multiset(s)[gateway := 0]
  {
    if s != [] {
      OthersCounts(s[1..], gateway);
      assert s == [s[0]] + s[1..];
      if s[0] != gateway {
        assert multiset([s[0]] + Others(s[1..], gateway)) == multiset{s[0]} + multiset(Others(s[1..], gateway));
      }
    }
  }

  // With a gateway set the peers are the tunnel addresses without the gateway's own, in the order in which they are
  // drawn; that is a permutation, and without the shuffle the order of the list.
  lemma PeersArePermutation(items: seq<Item>, lost: seq<int>, left: seq<int>, all: seq<int>, order: seq<int>,
                            gateway: int, gateways: seq<int>, shuffle: bool, random: nat -> byte)
    requires gateway != 0
    requires Result(items, lost, left, all, order, Order(all, shuffle, Start(|all|), |all|, 0, 0, random),
                    gateway, gateways)
    ensures Peers(items) == Others(Order(all, shuffle, Start(|all|), |all|, 0, 0, random), gateway)
    ensures multiset(Peers(items)) == multiset(Others(all, gateway))
    ensures !shuffle ==> Peers(items) == Others(all, gateway)
  {
    var whole := Order(all, shuffle, Start(|all|), |all|, 0, 0, random);
    OrderPermutes(all, shuffle, Start(|all|), |all|, 0, 0, random);
    OthersCounts(whole, gateway);
    OthersCounts(all, gateway);
    assert Peers(items) + [] == Peers(items);
  }

  // ---------------------------------------------------------------- one pair per network of four

  // The address list is cut in fours; the second and the third of each make an item, also of a last three.
  method GenerateNet30(tunnel: seq<int>) returns (items: seq<Item>)
    ensures |items| == (|tunnel| + 1) / 4
    ensures forall k :: 0 <= k < |items| ==> items[k] == Item(tunnel[4 * k + 1], tunnel[4 * k + 2])
  {
    items := [];
    var list := tunnel;
    while true
      invariant 4 * |items| <= |tunnel| ==> list == tunnel[4 * |items|..]
      invariant 4 * |items| > |tunnel| ==> list == [] && |items| == (|tunnel| + 1) / 4
      invariant 4 * |items| <= |tunnel| + 1
      invariant forall k :: 0 <= k < |items| ==> items[k] == Item(tunnel[4 * k + 1], tunnel[4 * k + 2])
      decreases |list|
    {
      var addr := list[..Min(|list|, 4)];
      if |addr| < 3 {
        break;
      }
      list := list[|addr|..];
      items := items + [Item(addr[1], addr[2])];
    }
  }
}
