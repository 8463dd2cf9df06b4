// The chained hash table: buckets of linked nodes, changed in place, against a finite map.

module HashTable {
  // A 64-bit key; a key of bytes is compared by size and contents, and nothing else is asked of it here.
  type Key = nat

  class Node {
    const key: Key
    var data: int
    var next: Node?

    constructor (key: Key, data: int, next: Node?)
      ensures this.key == key && this.data == data && this.next == next
    {
      this.key, this.data, this.next := key, data, next;
    }
  }

  // ---------------------------------------------------------------- the chains

  // Where the nodes point.
  ghost function Nexts(s: set<Node>): map<Node, Node?>
    reads s`next
  {
    map n | n in s :: n.next
  }

  ghost function Elems(c: seq<Node>): set<Node> {
    if c == [] then {} else {c[0]} + Elems(c[1..])
  }

  // The nodes of one bucket in order, linked from its head, none twice.
  ghost predicate Chain(m: map<Node, Node?>, head: Node?, c: seq<Node>) {
    if c == [] then head == null
    else head == c[0] && c[0] in m && c[0] !in Elems(c[1..]) && Chain(m, m[c[0]], c[1..])
  }

  lemma Onward(a: seq<Node>, node: Node, rest: seq<Node>)
    requires rest != [] && rest[0] == node
    ensures rest == [node] + rest[1..] && a + rest == a + [node] + rest[1..]
  {
  }

  lemma {:induction false} ElemsConcat(a: seq<Node>, b: seq<Node>)
    ensures Elems(a + b) == Elems(a) + Elems(b)
  {
    if a == [] {
      assert a + b == b;
    } else {
      assert (a + b)[1..] == a[1..] + b;
      ElemsConcat(a[1..], b);
    }
  }

  lemma {:induction false} ChainFrame(m: map<Node, Node?>, m': map<Node, Node?>, head: Node?, c: seq<Node>)
    requires Chain(m, head, c) && forall n :: n in Elems(c) && n in m ==> n in m' && m'[n] == m[n]
    ensures Chain(m', head, c)
  {
    if c != [] {
      ChainFrame(m, m', m[c[0]], c[1..]);
    }
  }

  // The chain without the node after `a`: the last of `a` points past it, or the head does.
  lemma {:induction false} ChainCut(m: map<Node, Node?>, m': map<Node, Node?>, head: Node?, a: seq<Node>, n: Node,
                                    rest: seq<Node>)
    requires Chain(m, head, a + [n] + rest) && n in m
    requires forall x :: x in m && x != n && (a == [] || x != a[|a| - 1]) ==> x in m' && m'[x] == m[x]
    requires a != [] ==> a[|a| - 1] in m' && m'[a[|a| - 1]] == m[n]
    ensures Chain(m', if a == [] then m[n] else head, a + rest)
    ensures Elems(a + rest) == Elems(a + [n] + rest) - {n}
    decreases |a|
  {
    var c := a + [n] + rest;
    if a == [] {
      assert c == [n] + rest && a + rest == rest;
      assert c[1..] == rest;
      ChainFrame(m, m', m[n], rest);
    } else {
      assert c[1..] == a[1..] + [n] + rest && (a + rest)[1..] == a[1..] + rest;
      ElemsConcat(a[1..] + [n], rest);
      ElemsConcat(a[1..], [n]);
      if |a| == 1 {
        assert a[1..] == [] && c[1..] == [n] + rest && [] + rest == rest;
        assert ([n] + rest)[1..] == rest && n != a[0];
        ChainFrame(m, m', m[n], rest);
      } else {
        assert a[1..][|a[1..]| - 1] == a[|a| - 1];
        ChainCut(m, m', m[a[0]], a[1..], n, rest);
        LastInElems(a[1..]);
        assert a[0] != a[|a| - 1] && a[0] != n;
      }
    }
  }

  lemma {:induction false} LastInElems(a: seq<Node>)
    requires a != []
    ensures a[|a| - 1] in Elems(a)
  {
    if |a| > 1 {
      LastInElems(a[1..]);
    }
  }

  ghost predicate Buckets(m: map<Node, Node?>, heads: seq<Node?>, chains: seq<seq<Node>>) {
    |heads| == |chains| && forall b :: 0 <= b < |chains| ==> Chain(m, heads[b], chains[b])
  }

  ghost function Slice(all: set<Node>, slot: Key -> nat, b: nat): set<Node> {
    set n | n in all && slot(n.key) == b
  }

  // Every node is in the bucket its key hashes to, and in no other.
  ghost predicate Spread(all: set<Node>, chains: seq<seq<Node>>, slot: Key -> nat) {
    forall b :: 0 <= b < |chains| ==> Elems(chains[b]) == Slice(all, slot, b)
  }

  // No key has two nodes.
  ghost predicate Indexed(all: set<Node>, at: map<Key, Node>) {
    && (forall k :: k in at ==> at[k] in all && at[k].key == k)
    && (forall n :: n in all ==> n.key in at && at[n.key] == n)
  }

  lemma BucketsElsewhere(m: map<Node, Node?>, m': map<Node, Node?>, heads: seq<Node?>, heads': seq<Node?>,
                         chains: seq<seq<Node>>, b: nat, c: seq<Node>, all: set<Node>, slot: Key -> nat)
    requires Buckets(m, heads, chains) && Spread(all, chains, slot) && b < |chains|
    requires |heads'| == |heads| && (forall a :: 0 <= a < |heads| && a != b ==> heads'[a] == heads[a])
    requires forall x :: x in m && slot(x.key) != b ==> x in m' && m'[x] == m[x]
    requires Chain(m', heads'[b], c)
    ensures Buckets(m', heads', chains[b := c])
  {
    forall a | 0 <= a < |chains| ensures Chain(m', heads'[a], chains[b := c][a]) {
      if a != b {
        ChainFrame(m, m', heads[a], chains[a]);
      }
    }
  }

  lemma SpreadPush(all: set<Node>, chains: seq<seq<Node>>, slot: Key -> nat, b: nat, node: Node, c: seq<Node>)
    requires Spread(all, chains, slot) && b < |chains| && slot(node.key) == b && c == [node] + chains[b]
    ensures Spread(all + {node}, chains[b := c], slot)
  {
    assert c[1..] == chains[b];
    forall a | 0 <= a < |chains| ensures Elems(chains[b := c][a]) == Slice(all + {node}, slot, a) {
      assert Elems(chains[a]) == Slice(all, slot, a);
    }
  }

  lemma SpreadCut(all: set<Node>, chains: seq<seq<Node>>, slot: Key -> nat, b: nat, node: Node, c: seq<Node>)
    requires Spread(all, chains, slot) && b < |chains| && slot(node.key) == b && Elems(c) == Elems(chains[b]) - {node}
    ensures Spread(all - {node}, chains[b := c], slot)
  {
    forall a | 0 <= a < |chains| ensures Elems(chains[b := c][a]) == Slice(all - {node}, slot, a) {
      assert Elems(chains[a]) == Slice(all, slot, a);
    }
  }

  lemma IndexedPush(all: set<Node>, at: map<Key, Node>, node: Node)
    requires Indexed(all, at) && node.key !in at
    ensures Indexed(all + {node}, at[node.key := node]) && |at[node.key := node]| == |at| + 1
  {
    assert at[node.key := node].Keys == at.Keys + {node.key};
  }

  lemma IndexedCut(all: set<Node>, at: map<Key, Node>, node: Node)
    requires Indexed(all, at) && node in all
    ensures Indexed(all - {node}, at - {node.key}) && |at - {node.key}| == |at| - 1
  {
    assert (at - {node.key}).Keys == at.Keys - {node.key};
  }

  // What the nodes hold.
  ghost function Datas(s: set<Node>): map<Node, int>
    reads s`data
  {
    map n | n in s :: n.data
  }

  ghost function Look(at: map<Key, Node>, d: map<Node, int>): map<Key, int> {
    map k | k in at && at[k] in d :: d[at[k]]
  }

  lemma LookReplace(all: set<Node>, at: map<Key, Node>, d: map<Node, int>, node: Node, data: int)
    requires Indexed(all, at) && d.Keys == all && node in all
    ensures Look(at, d[node := data]) == Look(at, d)[node.key := data]
  {
  }

  lemma LookPush(all: set<Node>, at: map<Key, Node>, d: map<Node, int>, node: Node, data: int)
    requires Indexed(all, at) && d.Keys == all && node !in all
    ensures Look(at[node.key := node], d[node := data]) == Look(at, d)[node.key := data]
  {
  }

  lemma LookCut(all: set<Node>, at: map<Key, Node>, d: map<Node, int>, node: Node)
    requires Indexed(all, at) && d.Keys == all && node in all
    ensures Look(at - {node.key}, d - {node}) == Look(at, d) - {node.key}
  {
  }

  // There is other data for the key already.
  predicate Kept(m: map<Key, int>, key: Key, data: int) {
    key in m && m[key] != 0 && m[key] != data
  }

  datatype Code = Ok | Overwritten | KeyNotExists

  class Table {
    const nodes: array<Node?>
    const slot: Key -> nat       // the hash of a key modulo the number of buckets
    const freeing: bool          // a function that releases data was given
    var count: nat
    ghost var chains: seq<seq<Node>>
    ghost var repr: set<Node>
    ghost var at: map<Key, Node>

    // The map the table stands for.
    ghost function Contents(): map<Key, int>
      reads `at, `repr, repr`data
    {
      Look(at, Datas(repr))
    }

    ghost predicate Shape()
      reads `repr, `chains, nodes, repr`next
    {
      && (forall k :: slot(k) < nodes.Length)
      && Buckets(Nexts(repr), nodes[..], chains)
      && Spread(repr, chains, slot)
    }

    ghost predicate Valid()
      reads this, nodes, repr
    {
      Shape() && Indexed(repr, at) && count == |at|
    }

    constructor (size: nat, hash: Key -> nat, freeing: bool)
      requires size > 0
      ensures Valid() && Contents() == map[] && this.freeing == freeing && nodes.Length == size
      ensures forall k :: slot(k) == hash(k) % size
      ensures fresh(nodes) && repr == {}
    {
      nodes := new Node?[size](_ => null);
      slot := k => hash(k) % size;
      this.freeing, count := freeing, 0;
      chains := seq(size, _ => []);
      repr, at := {}, map[];
    }

    // The walk along the bucket of a key: it is found there or nowhere.
    method Search(key: Key) returns (b: nat, node: Node?, prev: Node?, ghost a: seq<Node>, ghost rest: seq<Node>)
      requires Valid()
      ensures b == slot(key) && b < |chains|
      ensures node == null ==> key !in at
      ensures node != null ==> key in at && at[key] == node && node in repr && chains[b] == a + [node] + rest
      ensures node != null ==> prev == if a == [] then null else a[|a| - 1]
    {
      b := slot(key);
      assert Chain(Nexts(repr), nodes[..][b], chains[b]);
      node, prev, a, rest := nodes[b], null, [], chains[b];
      assert [] + rest == rest;
      while node != null && node.key != key
        invariant chains[b] == a + rest && Chain(Nexts(repr), node, rest)
        invariant prev == if a == [] then null else a[|a| - 1]
        invariant forall n :: n in Elems(a) ==> n.key != key
        decreases |rest|
      {
        ElemsConcat(a, [node]);
        Onward(a, node, rest);
        prev, a, node, rest := node, a + [node], node.next, rest[1..];
      }
      ElemsConcat(a, rest);
      assert Elems(chains[b]) == Slice(repr, slot, b);
      if node != null {
        Onward(a, node, rest);
        rest := rest[1..];
      }
    }

    method Get(key: Key) returns (code: Code, data: int)
      requires Valid()
      ensures code == if key in Contents() then Ok else KeyNotExists
      ensures data == if key in Contents() then Contents()[key] else 0
    {
      var b, node, prev, a, rest := Search(key);
      if node != null {
        return Ok, node.data;
      }
      return KeyNotExists, 0;
    }

    // A key that is there keeps its old data when nothing releases data; otherwise the new data takes its place.
    method Insert(key: Key, data: int) returns (code: Code)
      requires Valid()
      modifies this, nodes, repr
      ensures Valid() && fresh(repr - old(repr))
      ensures code == if Kept(old(Contents()), key, data) then Overwritten else Ok
      ensures Contents() == if Kept(old(Contents()), key, data) && !freeing then old(Contents())
                            else old(Contents())[key := data]
    {
      var b, node, prev, a, rest := Search(key);
      if node != null {
        if node.data != 0 && node.data != data {
          if freeing {
            Replace(node, data);
          }
          return Overwritten;
        }
        Replace(node, data);
        return Ok;
      }
      Push(b, key, data);
      return Ok;
    }

    method Replace(node: Node, data: int)
      requires Valid() && node in repr
      modifies repr`data
      ensures Valid() && Contents() == old(Contents())[node.key := data]
    {
      LookReplace(repr, at, Datas(repr), node, data);
      node.data := data;
      assert Datas(repr) == old(Datas(repr))[node := data];
    }

    // A new node at the head of its bucket.
    method LinkNode(b: nat, key: Key, data: int) returns (node: Node)
      requires Shape() && b == slot(key)
      modifies nodes, `repr, `chains
      ensures Shape() && fresh(node) && node.key == key && node.data == data
      ensures repr == old(repr) + {node} && chains == old(chains)[b := [node] + old(chains)[b]]
    {
      node := new Node(key, data, nodes[b]);
      SpreadPush(repr, chains, slot, b, node, [node] + chains[b]);
      nodes[b] := node;
      repr := repr + {node};
      PushLinks(old(Nexts(repr)), Nexts(repr), old(nodes[..]), nodes[..], chains, b, node, old(repr), slot);
      chains := chains[b := [node] + chains[b]];
    }

    method Push(b: nat, key: Key, data: int)
      requires Valid() && b == slot(key) && key !in at
      modifies this, nodes
      ensures Valid() && Contents() == old(Contents())[key := data] && fresh(repr - old(repr))
    {
      var node := LinkNode(b, key, data);
      assert repr - old(repr) <= {node};
      assert Datas(repr) == old(Datas(repr))[node := data];
      Enroll(node, old(repr), old(Datas(repr)));
    }

    method Enroll(node: Node, ghost before: set<Node>, ghost d: map<Node, int>)
      requires Indexed(before, at) && node.key !in at && node !in before && repr == before + {node} && count == |at|
      requires d.Keys == before && Datas(repr) == d[node := node.data]
      modifies `at, `count
      ensures Indexed(repr, at) && count == |at| && Contents() == Look(old(at), d)[node.key := node.data]
    {
      Register(node, before);
      LookPush(before, old(at), d, node, node.data);
    }

    method Register(node: Node, ghost before: set<Node>)
      requires Indexed(before, at) && node.key !in at && repr == before + {node} && count == |at|
      modifies `at, `count
      ensures Indexed(repr, at) && count == |at| && at == old(at)[node.key := node]
    {
      IndexedPush(before, at, node);
      at, count := at[node.key := node], count + 1;
    }

    method Free(key: Key) returns (code: Code)
      requires Valid()
      modifies this, nodes, repr
      ensures Valid() && repr <= old(repr) && Contents() == old(Contents()) - {key}
      ensures code == if key in old(Contents()) then Ok else KeyNotExists
    {
      var b, node, prev, a, rest := Search(key);
      if node == null {
        return KeyNotExists;
      }
      Unlink(b, node, prev, a, rest);
      return Ok;
    }

    method Unlink(b: nat, node: Node, prev: Node?, ghost a: seq<Node>, ghost rest: seq<Node>)
      requires Valid() && b == slot(node.key) && b < |chains| && chains[b] == a + [node] + rest && node in repr
      requires prev == if a == [] then null else a[|a| - 1]
      modifies this, nodes, repr`next
      ensures Valid() && repr <= old(repr) && Contents() == old(Contents()) - {node.key}
    {
      CutNode(b, node, prev, a, rest);
      Strike(node, old(repr), old(Datas(repr)));
    }

    method Strike(node: Node, ghost before: set<Node>, ghost d: map<Node, int>)
      requires Indexed(before, at) && node in before && repr == before - {node} && count == |at|
      requires d.Keys == before && Datas(repr) == d - {node}
      modifies `at, `count
      ensures Indexed(repr, at) && count == |at| && Contents() == Look(old(at), d) - {node.key}
    {
      Forget(node, before);
      LookCut(before, old(at), d, node);
    }

    method Forget(node: Node, ghost before: set<Node>)
      requires Indexed(before, at) && node in before && repr == before - {node} && count == |at|
      modifies `at, `count
      ensures Indexed(repr, at) && count == |at| && at == old(at) - {node.key}
    {
      IndexedCut(before, at, node);
      at, count := at - {node.key}, count - 1;
    }

    // Calls back on the elements, bucket by bucket, until a callback says stop or as many have been visited as the
    // table counts.
    method Apply(callback: (Key, int) -> bool) returns (visited: seq<Node>)
      requires Valid()
      ensures visited <= Flat(chains)
      ensures forall i :: 0 <= i < |visited| - 1 ==> !callback(visited[i].key, visited[i].data)
      ensures visited == Flat(chains)
           || (visited != [] && callback(visited[|visited| - 1].key, visited[|visited| - 1].data))
    {
      visited := [];
      var i := 0;
      assert |Flat(chains)| == count by { CountIsTotal(Nexts(repr), nodes[..], chains, repr, slot, at); }
      assert |chains| == nodes.Length;
      while |visited| < count && i < nodes.Length
        invariant 0 <= i <= nodes.Length && visited == Flat(chains[..i])
        invariant forall j :: 0 <= j < |visited| ==> !callback(visited[j].key, visited[j].data)
      {
        FlatGrows(chains, i);
        var stop;
        visited, stop := Walk(i, visited, callback);
        if stop {
          return;
        }
        i := i + 1;
      }
      FlatDone(chains, i, visited);
    }

    // One bucket of the traversal.
    method Walk(i: nat, before: seq<Node>, callback: (Key, int) -> bool) returns (visited: seq<Node>, stop: bool)
      requires Valid() && i < nodes.Length
      requires forall j :: 0 <= j < |before| ==> !callback(before[j].key, before[j].data)
      ensures visited <= before + chains[i] && (!stop ==> visited == before + chains[i])
      ensures forall j :: 0 <= j < |visited| - 1 ==> !callback(visited[j].key, visited[j].data)
      ensures stop ==> visited != [] && callback(visited[|visited| - 1].key, visited[|visited| - 1].data)
      ensures !stop ==> forall j :: 0 <= j < |visited| ==> !callback(visited[j].key, visited[j].data)
    {
      assert Chain(Nexts(repr), nodes[..][i], chains[i]);
      var node := nodes[i];
      ghost var rest := chains[i];
      visited, stop := before, false;
      while node != null
        invariant before + chains[i] == visited + rest && Chain(Nexts(repr), node, rest)
        invariant forall j :: 0 <= j < |visited| ==> !callback(visited[j].key, visited[j].data)
        decreases |rest|
      {
        assert rest == [node] + rest[1..];
        assert visited + rest == visited + [node] + rest[1..];
        visited := visited + [node];
        rest := rest[1..];
        if callback(node.key, node.data) {
          stop := true;
          return;
        }
        node := node.next;
      }
      assert visited + rest == visited;
    }

    // The node out of its bucket.
    method CutNode(b: nat, node: Node, prev: Node?, ghost a: seq<Node>, ghost rest: seq<Node>)
      requires Shape() && b == slot(node.key) && b < |chains| && chains[b] == a + [node] + rest && node in repr
      requires prev == if a == [] then null else a[|a| - 1]
      modifies nodes, repr`next, `repr, `chains
      ensures Shape() && repr == old(repr) - {node} && chains == old(chains)[b := a + rest]
    {
      PrevIsNode(Nexts(repr), nodes[..][b], a, node, rest);
      if prev != null {
        prev.next := node.next;
      } else {
        nodes[b] := node.next;
      }
      repr := repr - {node};
      CutLinks(old(Nexts(repr)), Nexts(repr), old(nodes[..]), nodes[..], chains, b, a, node, rest, old(repr), slot);
      SpreadCut(old(repr), chains, slot, b, node, a + rest);
      chains := chains[b := a + rest];
    }
  }

  lemma PushLinks(m: map<Node, Node?>, m': map<Node, Node?>, heads: seq<Node?>, heads': seq<Node?>,
                  chains: seq<seq<Node>>, b: nat, node: Node, all: set<Node>, slot: Key -> nat)
    requires Buckets(m, heads, chains) && Spread(all, chains, slot) && b < |chains| && slot(node.key) == b
    requires m.Keys == all && node !in all && m' == m[node := heads[b]] && heads' == heads[b := node]
    ensures Buckets(m', heads', chains[b := [node] + chains[b]])
  {
    var c := [node] + chains[b];
    assert c[1..] == chains[b];
    assert Elems(chains[b]) == Slice(all, slot, b);
    ChainFrame(m, m', heads[b], chains[b]);
    BucketsElsewhere(m, m', heads, heads', chains, b, c, all, slot);
  }

  // The node before another of the same chain is a different one.
  lemma {:induction false} PrevIsNode(m: map<Node, Node?>, head: Node?, a: seq<Node>, n: Node, rest: seq<Node>)
    requires Chain(m, head, a + [n] + rest)
    ensures n in m && n !in Elems(a) && n !in Elems(rest) && (a != [] ==> a[|a| - 1] in m && a[|a| - 1] != n)
    decreases |a|
  {
    var c := a + [n] + rest;
    if a == [] {
      assert c[1..] == rest;
    } else {
      assert c[1..] == a[1..] + [n] + rest;
      PrevIsNode(m, m[a[0]], a[1..], n, rest);
      ElemsConcat(a[1..] + [n], rest);
      ElemsConcat(a[1..], [n]);
      if |a| > 1 {
        assert a[1..][|a[1..]| - 1] == a[|a| - 1];
      }
    }
  }

  lemma CutLinks(m: map<Node, Node?>, m': map<Node, Node?>, heads: seq<Node?>, heads': seq<Node?>,
                 chains: seq<seq<Node>>, b: nat, a: seq<Node>, node: Node, rest: seq<Node>,
                 all: set<Node>, slot: Key -> nat)
    requires Buckets(m, heads, chains) && Spread(all, chains, slot) && b < |chains|
    requires chains[b] == a + [node] + rest && node in m
    requires a == [] ==> heads' == heads[b := m[node]] && m' == m - {node}
    requires a != [] ==> heads' == heads && a[|a| - 1] in m && a[|a| - 1] != node
    requires a != [] ==> m' == m[a[|a| - 1] := m[node]] - {node}
    ensures Buckets(m', heads', chains[b := a + rest]) && Elems(a + rest) == Elems(chains[b]) - {node}
  {
    ChainCut(m, m', heads[b], a, node, rest);
    ElemsConcat(a + [node], rest);
    ElemsConcat(a, [node]);
    assert Elems(chains[b]) == Slice(all, slot, b);
    if a != [] {
      LastInElems(a);
    }
    BucketsElsewhere(m, m', heads, heads', chains, b, a + rest, all, slot);
  }

  // ---------------------------------------------------------------- all elements

  ghost function Flat(chains: seq<seq<Node>>): seq<Node> {
    if chains == [] then [] else chains[0] + Flat(chains[1..])
  }

  lemma {:induction false} FlatConcat(a: seq<seq<Node>>, b: seq<seq<Node>>)
    ensures Flat(a + b) == Flat(a) + Flat(b)
  {
    if a == [] {
      assert a + b == b;
    } else {
      assert (a + b)[1..] == a[1..] + b;
      FlatConcat(a[1..], b);
    }
  }

  lemma FlatSplit(chains: seq<seq<Node>>, i: nat)
    requires i <= |chains|
    ensures Flat(chains) == Flat(chains[..i]) + Flat(chains[i..])
    ensures i < |chains| ==> Flat(chains[..i + 1]) == Flat(chains[..i]) + chains[i]
  {
    assert chains == chains[..i] + chains[i..];
    FlatConcat(chains[..i], chains[i..]);
    if i < |chains| {
      assert chains[..i + 1] == chains[..i] + [chains[i]];
      FlatConcat(chains[..i], [chains[i]]);
      assert Flat([chains[i]]) == chains[i];
    }
  }

  lemma FlatGrows(chains: seq<seq<Node>>, i: nat)
    requires i < |chains|
    ensures Flat(chains[..i]) + chains[i] == Flat(chains[..i + 1]) <= Flat(chains)
  {
    FlatSplit(chains, i);
    FlatSplit(chains, i + 1);
  }

  // All that is counted has been visited, or all buckets have.
  lemma FlatDone(chains: seq<seq<Node>>, i: nat, visited: seq<Node>)
    requires i <= |chains| && visited == Flat(chains[..i]) && (|visited| >= |Flat(chains)| || i == |chains|)
    ensures visited == Flat(chains)
  {
    FlatSplit(chains, i);
    assert chains[..|chains|] == chains;
  }

  lemma {:induction false} ChainCount(m: map<Node, Node?>, head: Node?, c: seq<Node>)
    requires Chain(m, head, c)
    ensures |Elems(c)| == |c|
  {
    if c != [] {
      ChainCount(m, m[c[0]], c[1..]);
    }
  }

  // The nodes of the first buckets.
  ghost function Below(all: set<Node>, slot: Key -> nat, i: nat): set<Node> {
    set n | n in all && slot(n.key) < i
  }

  lemma {:induction false} FlatCount(m: map<Node, Node?>, heads: seq<Node?>, chains: seq<seq<Node>>, all: set<Node>,
                                     slot: Key -> nat, i: nat)
    requires Buckets(m, heads, chains) && Spread(all, chains, slot) && i <= |chains|
    ensures |Flat(chains[..i])| == |Below(all, slot, i)| && Elems(Flat(chains[..i])) == Below(all, slot, i)
  {
    if i == 0 {
      assert Below(all, slot, 0) == {};
    } else {
      FlatCount(m, heads, chains, all, slot, i - 1);
      FlatStep(m, heads[i - 1], chains, all, slot, i - 1);
    }
  }

  lemma BelowStep(all: set<Node>, slot: Key -> nat, i: nat)
    ensures Below(all, slot, i + 1) == Below(all, slot, i) + Slice(all, slot, i)
    ensures |Below(all, slot, i + 1)| == |Below(all, slot, i)| + |Slice(all, slot, i)|
  {
    assert Below(all, slot, i) !! Slice(all, slot, i);
    assert Below(all, slot, i + 1) == Below(all, slot, i) + Slice(all, slot, i);
  }

  lemma FlatStep(m: map<Node, Node?>, head: Node?, chains: seq<seq<Node>>, all: set<Node>, slot: Key -> nat, i: nat)
    requires i < |chains| && Chain(m, head, chains[i]) && Elems(chains[i]) == Slice(all, slot, i)
    requires |Flat(chains[..i])| == |Below(all, slot, i)| && Elems(Flat(chains[..i])) == Below(all, slot, i)
    ensures |Flat(chains[..i + 1])| == |Below(all, slot, i + 1)|
    ensures Elems(Flat(chains[..i + 1])) == Below(all, slot, i + 1)
  {
    FlatSplit(chains, i);
    ElemsConcat(Flat(chains[..i]), chains[i]);
    ChainCount(m, head, chains[i]);
    BelowStep(all, slot, i);
  }

  lemma {:induction false} IndexedCount(all: set<Node>, at: map<Key, Node>)
    requires Indexed(all, at)
    ensures |at| == |all|
    decreases |all|
  {
    if all == {} {
      assert at.Keys == {};
    } else {
      var n :| n in all;
      IndexedCut(all, at, n);
      IndexedCount(all - {n}, at - {n.key});
    }
  }

  // The buckets hold every element once, and the counter is their number.
  lemma CountIsTotal(m: map<Node, Node?>, heads: seq<Node?>, chains: seq<seq<Node>>, all: set<Node>,
                     slot: Key -> nat, at: map<Key, Node>)
    requires Buckets(m, heads, chains) && Spread(all, chains, slot) && Indexed(all, at)
    requires forall k :: slot(k) < |chains|
    ensures |Flat(chains)| == |all| == |at| && Elems(Flat(chains)) == all
  {
    FlatCount(m, heads, chains, all, slot, |chains|);
    assert chains[..|chains|] == chains;
    assert Below(all, slot, |chains|) == all;
    IndexedCount(all, at);
  }

  // ---------------------------------------------------------------- the number of buckets

  // The smearing of the highest bit over all lower ones, on 64-bit words.
  function RoundUp(size: bv64): bv64 {
    var a := size - 1;
    var b := a | (a >> 1);
    var c := b | (b >> 2);
    var d := c | (c >> 4);
    var e := d | (d >> 8);
    var f := e | (e >> 16);
    f + 1
  }

  // Any size from 1 to 2^32 is rounded up to the least power of two that is not below it.
  lemma RoundUpLeast(size: bv64)
    requires 1 <= size <= 0x1_0000_0000
    ensures var r := RoundUp(size); r != 0 && r & (r - 1) == 0 && size <= r && r >> 1 < size
  {
  }
}
