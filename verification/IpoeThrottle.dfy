// The IPoE worker that throttles unclassified packets: a hash for finding an address, and a list in order of age
// for forgetting it.  Entries are named by numbers; both lists hold names, so an entry is shared between them as
// the two list heads inside it share it.  One tick of the clock is a millisecond.

module IpoeThrottle {
  import opened Common

  const RATE: nat := 3000
  const TIMEOUT: nat := 30_000
  const BUCKETS: nat := 256

  type Addr = nat
  type Id = nat

  // Ticks to milliseconds, in 32 bits.
  function Msecs(ticks: nat): nat {
    ticks % 0x1_0000_0000
  }

  lemma MsecsAtMost(ticks: nat)
    ensures Msecs(ticks) <= ticks
  {
  }

  datatype Entry = Entry(addr: Addr, tstamp: nat)

  // ---------------------------------------------------------------- the two lists

  ghost function Elems(s: seq<Id>): set<Id> {
    set e | e in s
  }

  function Without(s: seq<Id>, e: Id): seq<Id> {
    if s == [] then [] else if s[0] == e then Without(s[1..], e) else [s[0]] + Without(s[1..], e)
  }

  lemma {:induction false} WithoutElems(s: seq<Id>, e: Id)
    ensures Elems(Without(s, e)) == Elems(s) - {e}
  {
    if s != [] {
      WithoutElems(s[1..], e);
      assert s == [s[0]] + s[1..];
      assert Elems(s) == {s[0]} + Elems(s[1..]);
      assert Elems([s[0]] + Without(s[1..], e)) == {s[0]} + Elems(Without(s[1..], e));
    }
  }

  lemma {:induction false} WithoutJoin(a: seq<Id>, b: seq<Id>, e: Id)
    ensures Without(a + b, e) == Without(a, e) + Without(b, e)
  {
    if a == [] {
      assert a + b == b;
    } else {
      assert (a + b)[1..] == a[1..] + b;
      WithoutJoin(a[1..], b, e);
    }
  }

  lemma WithoutAround(a: seq<Id>, e: Id, b: seq<Id>)
    requires Without(a, e) == a && Without(b, e) == b
    ensures Without(a + [e] + b, e) == a + b
  {
    WithoutJoin(a + [e], b, e);
    WithoutJoin(a, [e], e);
    assert [e][1..] == [];
  }

  lemma Parted(s: seq<Id>, k: nat)
    requires Distinct(s) && k < |s|
    ensures s == s[..k] + [s[k]] + s[k + 1..] && s[k] !in s[..k] && s[k] !in s[k + 1..]
  {
  }

  lemma WithoutMiddle(s: seq<Id>, k: nat)
    requires Distinct(s) && k < |s|
    ensures Without(s, s[k]) == s[..k] + s[k + 1..]
  {
    Parted(s, k);
    WithoutAbsent(s[..k], s[k]);
    WithoutAbsent(s[k + 1..], s[k]);
    WithoutAround(s[..k], s[k], s[k + 1..]);
  }

  lemma {:induction false} WithoutAbsent(s: seq<Id>, e: Id)
    requires e !in s
    ensures Without(s, e) == s
  {
    if s != [] {
      WithoutAbsent(s[1..], e);
    }
  }

  ghost function Bucket(entries: map<Id, Entry>, hash: Addr -> nat, b: nat): set<Id> {
    set e | e in entries && hash(entries[e].addr) == b
  }

  // Every entry is in the bucket of its address, and in no other.
  ghost predicate Hashed(entries: map<Id, Entry>, buckets: seq<seq<Id>>, hash: Addr -> nat) {
    |buckets| == BUCKETS && forall b :: 0 <= b < BUCKETS ==> Elems(buckets[b]) == Bucket(entries, hash, b)
  }

  lemma HashedAdd(entries: map<Id, Entry>, buckets: seq<seq<Id>>, hash: Addr -> nat, e: Id, x: Entry, b: nat)
    requires Hashed(entries, buckets, hash) && b == hash(x.addr) < BUCKETS && e !in entries
    ensures Hashed(entries[e := x], buckets[b := buckets[b] + [e]], hash)
  {
    var next := buckets[b := buckets[b] + [e]];
    assert Elems(buckets[b] + [e]) == Elems(buckets[b]) + {e};
    forall a | 0 <= a < BUCKETS ensures Elems(next[a]) == Bucket(entries[e := x], hash, a) {
      assert Elems(buckets[a]) == Bucket(entries, hash, a);
    }
  }

  lemma HashedStamp(entries: map<Id, Entry>, buckets: seq<seq<Id>>, hash: Addr -> nat, e: Id, now: nat)
    requires Hashed(entries, buckets, hash) && e in entries
    ensures Hashed(entries[e := Entry(entries[e].addr, now)], buckets, hash)
  {
    forall a | 0 <= a < BUCKETS
      ensures Elems(buckets[a]) == Bucket(entries[e := Entry(entries[e].addr, now)], hash, a)
    {
      assert Elems(buckets[a]) == Bucket(entries, hash, a);
      assert Bucket(entries[e := Entry(entries[e].addr, now)], hash, a) == Bucket(entries, hash, a);
    }
  }

  lemma HashedRemove(entries: map<Id, Entry>, buckets: seq<seq<Id>>, hash: Addr -> nat, e: Id, b: nat)
    requires Hashed(entries, buckets, hash) && e in entries && b == hash(entries[e].addr) < BUCKETS
    ensures Hashed(entries - {e}, buckets[b := Without(buckets[b], e)], hash)
  {
    var next := buckets[b := Without(buckets[b], e)];
    WithoutElems(buckets[b], e);
    forall a | 0 <= a < BUCKETS ensures Elems(next[a]) == Bucket(entries - {e}, hash, a) {
      assert Elems(buckets[a]) == Bucket(entries, hash, a);
      assert Bucket(entries - {e}, hash, a) == Bucket(entries, hash, a) - {e};
    }
  }

  // ---------------------------------------------------------------- stamps and passes

  // Oldest stamp first.
  ghost predicate Sorted(entries: map<Id, Entry>, age: seq<Id>) {
    forall i, j :: 0 <= i < j < |age| && age[i] in entries && age[j] in entries ==>
      entries[age[i]].tstamp <= entries[age[j]].tstamp
  }

  // The age list holds every entry once.
  ghost predicate Complete(entries: map<Id, Entry>, age: seq<Id>) {
    Elems(age) == entries.Keys && Distinct(age)
  }

  // No stamp is from the future.
  ghost predicate Past(entries: map<Id, Entry>, clock: nat) {
    forall e :: e in entries ==> entries[e].tstamp <= clock
  }

  ghost predicate ByAge(entries: map<Id, Entry>, age: seq<Id>, clock: nat) {
    Complete(entries, age) && Sorted(entries, age) && Past(entries, clock)
  }

  // No address has two entries.
  ghost predicate OnePerAddr(entries: map<Id, Entry>) {
    forall e, f :: e in entries && f in entries && entries[e].addr == entries[f].addr ==> e == f
  }

  datatype Pass = Pass(addr: Addr, time: nat)

  // Any two passes of one address are at least the rate apart.
  ghost predicate Spaced(passed: seq<Pass>) {
    forall i, j :: 0 <= i < j < |passed| && passed[i].addr == passed[j].addr ==>
      passed[j].time >= passed[i].time + RATE
  }

  // The time of each address's last pass.
  ghost predicate Logged(passed: seq<Pass>, last: map<Addr, nat>) {
    forall i :: 0 <= i < |passed| ==> passed[i].addr in last && passed[i].time <= last[passed[i].addr]
  }

  ghost predicate Knows(entries: map<Id, Entry>, a: Addr) {
    exists e :: e in entries && entries[e].addr == a
  }

  // An entry bears the time of its address's last pass; an address without one has not passed for the timeout.
  ghost predicate Remembered(entries: map<Id, Entry>, last: map<Addr, nat>, clock: nat) {
    && (forall e :: e in entries ==> entries[e].addr in last && last[entries[e].addr] == entries[e].tstamp)
    && (forall a :: a in last && !Knows(entries, a) ==> last[a] + TIMEOUT <= clock)
  }

  lemma SpacedSnoc(passed: seq<Pass>, last: map<Addr, nat>, p: Pass)
    requires Spaced(passed) && Logged(passed, last) && (p.addr in last ==> p.time >= last[p.addr] + RATE)
    ensures Spaced(passed + [p]) && Logged(passed + [p], last[p.addr := p.time])
  {
  }

  lemma KnowsMore(entries: map<Id, Entry>, e: Id, x: Entry, a: Addr)
    requires e in entries ==> entries[e].addr == x.addr
    ensures Knows(entries[e := x], a) <==> Knows(entries, a) || a == x.addr
  {
    var next := entries[e := x];
    assert e in next && next[e].addr == x.addr;
    if Knows(entries, a) {
      var f :| f in entries && entries[f].addr == a;
      assert f in next && next[f].addr == a;
    }
  }

  // Exactly the addresses known before and this one are known.
  ghost predicate Learned(before: map<Id, Entry>, after: map<Id, Entry>, addr: Addr) {
    forall a :: Knows(after, a) <==> Knows(before, a) || a == addr
  }

  lemma LearnedAt(entries: map<Id, Entry>, e: Id, x: Entry)
    requires e in entries ==> entries[e].addr == x.addr
    ensures Learned(entries, entries[e := x], x.addr)
  {
    var next := entries[e := x];
    forall a ensures Knows(next, a) <==> Knows(entries, a) || a == x.addr {
      KnowsMore(entries, e, x, a);
    }
    assert Learned(entries, next, x.addr);
  }

  // The address has an entry, and the milliseconds since its stamp read as fewer than the rate.
  ghost predicate Recent(entries: map<Id, Entry>, addr: Addr, now: nat) {
    exists e :: e in entries && entries[e].addr == addr && entries[e].tstamp <= now
                && Msecs(now - entries[e].tstamp) < RATE
  }

  // The address has no stamp within the rate.
  ghost predicate Rested(entries: map<Id, Entry>, addr: Addr, now: nat) {
    forall e :: e in entries && entries[e].addr == addr ==> now >= entries[e].tstamp + RATE
  }

  // What becomes of an entry whose address comes again.
  ghost predicate Judged(before: map<Id, Entry>, e: Id, after: map<Id, Entry>, pass: bool, now: nat)
    requires e in before
  {
    if pass then now >= before[e].tstamp + RATE && after == before[e := Entry(before[e].addr, now)]
    else before[e].tstamp <= now && Msecs(now - before[e].tstamp) < RATE && after == before
  }

  lemma JudgedMeans(before: map<Id, Entry>, e: Id, after: map<Id, Entry>, pass: bool, now: nat)
    requires OnePerAddr(before) && e in before && Judged(before, e, after, pass, now)
    ensures Learned(before, after, before[e].addr)
    ensures if pass then Rested(before, before[e].addr, now) else Recent(before, before[e].addr, now)
  {
    LearnedAt(before, e, after[e]);
    assert !pass ==> before[e := after[e]] == after;
  }

  // Every entry is as it was, or has been stamped since.
  ghost predicate Newer(before: map<Id, Entry>, after: map<Id, Entry>, since: nat) {
    forall e :: e in after ==> (e in before && after[e] == before[e]) || after[e].tstamp >= since
  }

  lemma NewerMore(before: map<Id, Entry>, entries: map<Id, Entry>, next: map<Id, Entry>, since: nat, later: nat)
    requires Newer(before, entries, since) && Newer(entries, next, later) && since <= later
    ensures Newer(before, next, since)
  {
  }

  // What is known now was known before or has passed, and what has come was known before or has passed.
  ghost predicate Served(before: map<Id, Entry>, entries: map<Id, Entry>, come: seq<Addr>, out: seq<Addr>) {
    && (forall a :: Knows(entries, a) ==> Knows(before, a) || a in out)
    && (forall a :: a in come && !Knows(before, a) ==> a in out)
  }

  lemma ServedMore(before: map<Id, Entry>, entries: map<Id, Entry>, next: map<Id, Entry>, come: seq<Addr>,
                   out: seq<Addr>, addr: Addr, pass: bool)
    requires Served(before, entries, come, out) && Learned(entries, next, addr) && (!pass ==> Knows(entries, addr))
    ensures Served(before, next, come + [addr], if pass then out + [addr] else out)
  {
  }

  lemma RecentKnown(entries: map<Id, Entry>, addr: Addr, now: nat)
    ensures Recent(entries, addr, now) ==> Knows(entries, addr)
  {
  }

  lemma RememberedAdd(entries: map<Id, Entry>, last: map<Addr, nat>, now: nat, e: Id, addr: Addr)
    requires Remembered(entries, last, now) && !Knows(entries, addr) && e !in entries
    ensures Remembered(entries[e := Entry(addr, now)], last[addr := now], now)
  {
    var next, last' := entries[e := Entry(addr, now)], last[addr := now];
    forall a | a in last' && !Knows(next, a) ensures last'[a] + TIMEOUT <= now {
      KnowsMore(entries, e, Entry(addr, now), a);
    }
  }

  lemma RememberedStamp(entries: map<Id, Entry>, last: map<Addr, nat>, now: nat, e: Id)
    requires Remembered(entries, last, now) && OnePerAddr(entries) && e in entries
    ensures Remembered(entries[e := Entry(entries[e].addr, now)], last[entries[e].addr := now], now)
  {
    var addr := entries[e].addr;
    var next, last' := entries[e := Entry(addr, now)], last[addr := now];
    forall a | a in last' && !Knows(next, a) ensures last'[a] + TIMEOUT <= now {
      KnowsMore(entries, e, Entry(addr, now), a);
    }
  }

  lemma RememberedExpire(entries: map<Id, Entry>, last: map<Addr, nat>, now: nat, e: Id)
    requires Remembered(entries, last, now) && e in entries && now >= entries[e].tstamp + TIMEOUT
    ensures Remembered(entries - {e}, last, now)
  {
    var next := entries - {e};
    forall a | a in last && !Knows(next, a) ensures last[a] + TIMEOUT <= now {
      if Knows(entries, a) {
        var f :| f in entries && entries[f].addr == a;
        assert f in next || f == e;
      }
    }
  }

  lemma ByAgeAdd(entries: map<Id, Entry>, age: seq<Id>, now: nat, e: Id, addr: Addr)
    requires ByAge(entries, age, now) && e !in entries
    ensures ByAge(entries[e := Entry(addr, now)], age + [e], now)
  {
    assert Elems(age + [e]) == Elems(age) + {e};
    assert e !in Elems(age);
  }

  lemma DistinctMove(age: seq<Id>, k: nat, rest: seq<Id>)
    requires Distinct(age) && k < |age| && rest == age[..k] + age[k + 1..]
    ensures Distinct(rest + [age[k]])
    ensures forall i :: 0 <= i < |rest| ==> rest[i] == age[if i < k then i else i + 1] != age[k]
  {
    assert forall i :: 0 <= i < |rest| ==> rest[i] == age[if i < k then i else i + 1];
  }

  lemma CompleteMove(entries: map<Id, Entry>, age: seq<Id>, k: nat, rest: seq<Id>)
    requires Complete(entries, age) && k < |age| && rest == age[..k] + age[k + 1..]
    ensures age[k] in entries && Complete(entries, rest + [age[k]])
  {
    var e := age[k];
    DistinctMove(age, k, rest);
    assert e in Elems(age);
    WithoutMiddle(age, k);
    WithoutElems(age, e);
    assert Elems(rest + [e]) == Elems(rest) + {e};
  }

  lemma ByAgeStamp(entries: map<Id, Entry>, age: seq<Id>, now: nat, k: nat, rest: seq<Id>, next: map<Id, Entry>)
    requires ByAge(entries, age, now) && k < |age| && rest == age[..k] + age[k + 1..] && age[k] in entries
    requires next == entries[age[k] := Entry(entries[age[k]].addr, now)]
    ensures ByAge(next, rest + [age[k]], now)
  {
    CompleteMove(entries, age, k, rest);
    DistinctMove(age, k, rest);
    assert next.Keys == entries.Keys;
    var moved := rest + [age[k]];
    forall i, j | 0 <= i < j < |moved| && moved[i] in next && moved[j] in next
      ensures next[moved[i]].tstamp <= next[moved[j]].tstamp
    {
      assert moved[i] == rest[i];
      if j < |rest| {
        assert moved[j] == rest[j];
      }
    }
  }

  lemma ByAgeExpire(entries: map<Id, Entry>, age: seq<Id>, now: nat)
    requires ByAge(entries, age, now) && age != []
    ensures age[0] in entries && ByAge(entries - {age[0]}, age[1..], now)
  {
    assert age[0] in Elems(age);
    assert age == [age[0]] + age[1..];
    assert Elems(age[1..]) == Elems(age) - {age[0]};
  }

  // ---------------------------------------------------------------- the worker

  ghost predicate Sound(entries: map<Id, Entry>, age: seq<Id>, last: map<Addr, nat>, passed: seq<Pass>, clock: nat) {
    && OnePerAddr(entries) && ByAge(entries, age, clock)
    && Remembered(entries, last, clock) && Logged(passed, last) && Spaced(passed)
  }

  lemma SoundLater(entries: map<Id, Entry>, age: seq<Id>, last: map<Addr, nat>, passed: seq<Pass>, clock: nat, now: nat)
    requires Sound(entries, age, last, passed, clock) && clock <= now
    ensures Sound(entries, age, last, passed, now)
  {
  }

  lemma SoundAdd(entries: map<Id, Entry>, age: seq<Id>, last: map<Addr, nat>, passed: seq<Pass>, now: nat, e: Id,
                 addr: Addr)
    requires Sound(entries, age, last, passed, now) && !Knows(entries, addr) && e !in entries
    ensures Sound(entries[e := Entry(addr, now)], age + [e], last[addr := now], passed + [Pass(addr, now)], now)
  {
    SpacedSnoc(passed, last, Pass(addr, now));
    RememberedAdd(entries, last, now, e, addr);
    ByAgeAdd(entries, age, now, e, addr);
  }

  lemma SoundStamp(entries: map<Id, Entry>, age: seq<Id>, last: map<Addr, nat>, passed: seq<Pass>, now: nat, e: Id,
                   next: map<Id, Entry>)
    requires Sound(entries, age, last, passed, now) && e in entries && now >= entries[e].tstamp + RATE
    requires next == entries[e := Entry(entries[e].addr, now)]
    ensures Sound(next, Without(age, e) + [e], last[entries[e].addr := now], passed + [Pass(entries[e].addr, now)], now)
  {
    assert e in Elems(age);
    var k :| 0 <= k < |age| && age[k] == e;
    WithoutMiddle(age, k);
    SpacedSnoc(passed, last, Pass(entries[e].addr, now));
    RememberedStamp(entries, last, now, e);
    ByAgeStamp(entries, age, now, k, Without(age, e), next);
  }

  lemma SoundExpire(entries: map<Id, Entry>, age: seq<Id>, last: map<Addr, nat>, passed: seq<Pass>, now: nat)
    requires Sound(entries, age, last, passed, now) && age != []
    requires age[0] in entries && now >= entries[age[0]].tstamp + TIMEOUT
    ensures Sound(entries - {age[0]}, age[1..], last, passed, now)
  {
    ByAgeExpire(entries, age, now);
    RememberedExpire(entries, last, now, age[0]);
  }

  class Worker {
    const hash: Addr -> nat
    var entries: map<Id, Entry>
    var names: Id                  // every name in use is smaller
    var buckets: seq<seq<Id>>
    var age: seq<Id>
    var clock: nat
    ghost var passed: seq<Pass>
    ghost var last: map<Addr, nat>

    ghost predicate Valid()
      reads this
    {
      && (forall a :: hash(a) < BUCKETS) && (forall e :: e in entries ==> e < names)
      && Hashed(entries, buckets, hash)
      && Sound(entries, age, last, passed, clock)
    }

    constructor (hash: Addr -> nat)
      requires forall a :: hash(a) < BUCKETS
      ensures Valid() && entries == map[] && passed == []
    {
      this.hash := hash;
      entries, names, age, clock, passed, last := map[], 0, [], 0, [], map[];
      buckets := seq(BUCKETS, _ => []);
    }

    // The clock goes on by itself.
    method Jiffies() returns (now: nat)
      requires Valid()
      modifies `clock
      ensures Valid() && now == clock >= old(clock)
    {
      now :| now >= clock;
      SoundLater(entries, age, last, passed, clock, now);
      clock := now;
    }

    method Lookup(addr: Addr) returns (r: Option<Id>)
      requires Valid()
      ensures r.None? ==> !Knows(entries, addr)
      ensures r.Some? ==> r.value in entries && entries[r.value].addr == addr
    {
      var bucket := buckets[hash(addr)];
      assert Elems(bucket) == Bucket(entries, hash, hash(addr));
      assert forall j :: 0 <= j < |bucket| ==> bucket[j] in Elems(bucket);
      var i := 0;
      while i < |bucket|
        invariant 0 <= i <= |bucket| && forall j :: 0 <= j < i ==> entries[bucket[j]].addr != addr
      {
        if entries[bucket[i]].addr == addr {
          return Some(bucket[i]);
        }
        i := i + 1;
      }
      assert forall e :: e in Elems(bucket) ==> entries[e].addr != addr;
      return None;
    }

    // One packet: the first of its address passes, and a later one unless the milliseconds since the last pass read as
    // fewer than the rate; what is dropped leaves no trace.
    method Handle(addr: Addr) returns (pass: bool)
      requires Valid()
      modifies this
      ensures Valid() && clock >= old(clock)
      ensures passed == if pass then old(passed) + [Pass(addr, clock)] else old(passed)
      ensures last == if pass then old(last)[addr := clock] else old(last)
      ensures !pass ==> addr in last && last[addr] <= clock && Msecs(clock - last[addr]) < RATE
      ensures !pass ==> Recent(old(entries), addr, clock) && entries == old(entries) && age == old(age)
      ensures pass ==> Rested(old(entries), addr, clock)
      ensures Learned(old(entries), entries, addr) && Newer(old(entries), entries, old(clock))
    {
      var e := Lookup(addr);
      if e.None? {
        ghost var name := names;
        Create(addr);
        LearnedAt(old(entries), name, Entry(addr, clock));
        return true;
      }
      ghost var before := entries;
      pass := Again(e.value);
      JudgedMeans(before, e.value, entries, pass, clock);
    }

    // A packet of an address with an entry.
    method Again(e: Id) returns (pass: bool)
      requires Valid() && e in entries
      modifies this
      ensures Valid() && clock >= old(clock)
      ensures passed == if pass then old(passed) + [Pass(old(entries)[e].addr, clock)] else old(passed)
      ensures last == if pass then old(last)[old(entries)[e].addr := clock] else old(last)
      ensures Judged(old(entries), e, entries, pass, clock) && (!pass ==> age == old(age))
    {
      var now := Jiffies();
      if Msecs(now - entries[e].tstamp) < RATE {
        return false;
      }
      MsecsAtMost(now - entries[e].tstamp);
      Stamp(e);
      return true;
    }

    method Create(addr: Addr)
      requires Valid() && !Knows(entries, addr)
      modifies this
      ensures Valid() && clock >= old(clock) && passed == old(passed) + [Pass(addr, clock)]
      ensures last == old(last)[addr := clock]
      ensures old(names) !in old(entries) && entries == old(entries)[old(names) := Entry(addr, clock)]
    {
      var now := Jiffies();
      Enter(addr);
    }

    method Enter(addr: Addr)
      requires Valid() && !Knows(entries, addr)
      modifies `entries, `names, `buckets, `age, `passed, `last
      ensures Valid() && passed == old(passed) + [Pass(addr, clock)] && last == old(last)[addr := clock]
      ensures old(names) !in old(entries) && entries == old(entries)[old(names) := Entry(addr, clock)]
    {
      var e, b := names, hash(addr);
      var next, more := entries[e := Entry(addr, clock)], buckets[b := buckets[b] + [e]];
      assert Hashed(next, more, hash) by { HashedAdd(entries, buckets, hash, e, Entry(addr, clock), b); }
      assert Sound(next, age + [e], last[addr := clock], passed + [Pass(addr, clock)], clock) by {
        SoundAdd(entries, age, last, passed, clock, e, addr);
      }
      Install(next, e + 1, more, age + [e], passed + [Pass(addr, clock)], last[addr := clock]);
    }

    // The new lists, once they are made.
    method Install(next: map<Id, Entry>, free: Id, more: seq<seq<Id>>, order: seq<Id>, ghost log: seq<Pass>,
                   ghost times: map<Addr, nat>)
      requires (forall a :: hash(a) < BUCKETS) && (forall e :: e in next ==> e < free)
      requires Hashed(next, more, hash) && Sound(next, order, times, log, clock)
      modifies `entries, `names, `buckets, `age, `passed, `last
      ensures Valid() && entries == next && names == free && buckets == more && age == order
      ensures passed == log && last == times
    {
      entries, names, buckets, age := next, free, more, order;
      passed, last := log, times;
    }

    method Stamp(e: Id)
      requires Valid() && e in entries && clock >= entries[e].tstamp + RATE
      modifies this
      ensures Valid() && clock >= old(clock) && passed == old(passed) + [Pass(old(entries)[e].addr, clock)]
      ensures last == old(last)[old(entries)[e].addr := clock]
      ensures entries == old(entries)[e := Entry(old(entries)[e].addr, clock)]
    {
      var now := Jiffies();
      Restamp(e);
    }

    method Restamp(e: Id)
      requires Valid() && e in entries && clock >= entries[e].tstamp + RATE
      modifies `entries, `names, `buckets, `age, `passed, `last
      ensures Valid() && passed == old(passed) + [Pass(old(entries)[e].addr, clock)]
      ensures last == old(last)[old(entries)[e].addr := clock]
      ensures entries == old(entries)[e := Entry(old(entries)[e].addr, clock)]
    {
      ghost var addr := entries[e].addr;
      var next, moved := entries[e := Entry(entries[e].addr, clock)], Without(age, e) + [e];
      assert Hashed(next, buckets, hash) by { HashedStamp(entries, buckets, hash, e, clock); }
      assert Sound(next, moved, last[addr := clock], passed + [Pass(addr, clock)], clock) by {
        SoundStamp(entries, age, last, passed, clock, e, next);
      }
      Install(next, names, buckets, moved, passed + [Pass(addr, clock)], last[addr := clock]);
    }

    // Forgets from the old end as long as the oldest reads as past the timeout.  What is left is younger, exactly
    // unless the milliseconds have wrapped.
    method Expire()
      requires Valid()
      modifies this
      ensures Valid() && passed == old(passed) && last == old(last) && clock >= old(clock)
      ensures Shrunk(old(entries), entries, clock) && Young(entries, age, clock)
    {
      var more := true;
      while more
        invariant Valid() && passed == old(passed) && last == old(last) && clock >= old(clock)
        invariant Shrunk(old(entries), entries, clock) && (!more ==> Young(entries, age, clock))
        decreases |age|, more
      {
        more := ExpireOne();
      }
    }

    // The whole queue.
    method HandleAll(queue: seq<Addr>) returns (out: seq<Addr>)
      requires Valid()
      modifies this
      ensures Valid() && clock >= old(clock) && Reported(old(passed), passed, out, queue)
      ensures Served(old(entries), entries, queue, out) && Newer(old(entries), entries, old(clock))
    {
      out := [];
      for i := 0 to |queue|
        invariant Valid() && clock >= old(clock) && Reported(old(passed), passed, out, queue)
        invariant Served(old(entries), entries, queue[..i], out) && Newer(old(entries), entries, old(clock))
      {
        UpTo(queue, i);
        ghost var before, since := entries, clock;
        ghost var log := passed;
        var pass := Handle(queue[i]);
        NewerMore(old(entries), before, entries, old(clock), since);
        RecentKnown(before, queue[i], clock);
        ServedMore(old(entries), before, entries, queue[..i], out, queue[i], pass);
        if pass {
          ReportedMore(old(passed), log, out, queue, i, clock);
          out := out + [queue[i]];
        }
      }
      assert queue[..|queue|] == queue;
    }

    // The whole queue, then the old end of the list.
    method Process(queue: seq<Addr>) returns (out: seq<Addr>)
      requires Valid()
      modifies this
      ensures Valid() && clock >= old(clock) && Young(entries, age, clock)
      ensures |passed| == |old(passed)| + |out| && passed[..|old(passed)|] == old(passed)
      ensures forall i :: 0 <= i < |out| ==> passed[|old(passed)| + i].addr == out[i] && out[i] in queue
      ensures Spaced(passed)
      ensures forall a :: a in queue && !Knows(old(entries), a) ==> a in out
      ensures AllYoung(old(entries), old(clock)) && clock <= old(clock) + GAP ==> AllYoung(entries, clock)
    {
      out := HandleAll(queue);
      ghost var handled := entries;
      Expire();
      StaysYoung(old(entries), handled, entries, age, old(clock), clock);
    }

    // One look at the oldest entry.
    method ExpireOne() returns (more: bool)
      requires Valid()
      modifies this
      ensures Valid() && passed == old(passed) && last == old(last) && clock >= old(clock)
      ensures !more ==> entries == old(entries) && age == old(age) && Young(entries, age, clock)
      ensures more ==> |age| < |old(age)| && Shrunk(old(entries), entries, clock)
    {
      if age == [] {
        NothingLeft(entries, age, clock);
        return false;
      }
      var now := Jiffies();
      OldestKnown(entries, age, clock);
      if Msecs(now - entries[age[0]].tstamp) < TIMEOUT {
        StillYoung(entries, age, clock);
        return false;
      }
      MsecsAtMost(now - entries[age[0]].tstamp);
      Forget();
      return true;
    }

    method Forget()
      requires Valid() && age != [] && age[0] in entries && clock >= entries[age[0]].tstamp + TIMEOUT
      modifies this
      ensures Valid() && passed == old(passed) && last == old(last) && clock == old(clock)
      ensures age == old(age)[1..] && entries == old(entries) - {old(age)[0]}
    {
      var e := age[0];
      var b := hash(entries[e].addr);
      var next, fewer := entries - {e}, buckets[b := Without(buckets[b], e)];
      assert Hashed(next, fewer, hash) by { HashedRemove(entries, buckets, hash, e, b); }
      assert Sound(next, age[1..], last, passed, clock) by { SoundExpire(entries, age, last, passed, clock); }
      Install(next, names, fewer, age[1..], passed, last);
    }
  }

  // What has passed since, in order, is what is given out, and it was in the queue.
  ghost predicate Reported(before: seq<Pass>, passed: seq<Pass>, out: seq<Addr>, queue: seq<Addr>) {
    && |passed| == |before| + |out| && passed[..|before|] == before
    && forall i :: 0 <= i < |out| ==> passed[|before| + i].addr == out[i] && out[i] in queue
  }

  lemma ReportedMore(before: seq<Pass>, passed: seq<Pass>, out: seq<Addr>, queue: seq<Addr>, i: nat, time: nat)
    requires Reported(before, passed, out, queue) && i < |queue|
    ensures Reported(before, passed + [Pass(queue[i], time)], out + [queue[i]], queue)
  {
  }

  lemma UpTo(queue: seq<Addr>, i: nat)
    requires i < |queue|
    ensures queue[..i + 1] == queue[..i] + [queue[i]]
  {
  }

  // Some entry is so old that its age no longer fits 32 bits.
  ghost predicate Wrapped(entries: map<Id, Entry>, clock: nat) {
    exists e :: e in entries && clock >= entries[e].tstamp + 0x1_0000_0000
  }

  ghost predicate AllYoung(entries: map<Id, Entry>, clock: nat) {
    forall e :: e in entries ==> clock < entries[e].tstamp + TIMEOUT
  }

  // The oldest entry reads as within the timeout, and so all are, exactly unless an age has wrapped.
  ghost predicate Young(entries: map<Id, Entry>, age: seq<Id>, clock: nat) {
    && (age != [] ==> age[0] in entries && entries[age[0]].tstamp <= clock
                      && Msecs(clock - entries[age[0]].tstamp) < TIMEOUT)
    && (AllYoung(entries, clock) <==> !Wrapped(entries, clock))
  }

  // Nothing was added or changed, and what is gone was past the timeout.
  ghost predicate Shrunk(before: map<Id, Entry>, after: map<Id, Entry>, clock: nat) {
    && (forall e :: e in after ==> e in before && after[e] == before[e])
    && (forall e :: e in before && e !in after ==> clock >= before[e].tstamp + TIMEOUT)
  }

  lemma OldestKnown(entries: map<Id, Entry>, age: seq<Id>, clock: nat)
    requires ByAge(entries, age, clock) && age != []
    ensures age[0] in entries && entries[age[0]].tstamp <= clock
  {
    assert age[0] in Elems(age);
  }

  lemma NothingLeft(entries: map<Id, Entry>, age: seq<Id>, clock: nat)
    requires Complete(entries, age) && age == []
    ensures Young(entries, age, clock)
  {
    assert entries.Keys == {};
  }

  lemma StillYoung(entries: map<Id, Entry>, age: seq<Id>, clock: nat)
    requires ByAge(entries, age, clock) && age != [] && age[0] in entries && entries[age[0]].tstamp <= clock
    requires Msecs(clock - entries[age[0]].tstamp) < TIMEOUT
    ensures Young(entries, age, clock)
  {
    var oldest := age[0];
    if clock < entries[oldest].tstamp + 0x1_0000_0000 {
      forall e | e in entries ensures clock < entries[e].tstamp + TIMEOUT {
        assert e in Elems(age);
        var i :| 0 <= i < |age| && age[i] == e;
      }
    }
  }

  // How long the worker may be left alone for no age to wrap.  Its timer wakes it after the timeout as long as there is
  // an entry.
  const GAP: nat := 0x1_0000_0000 - TIMEOUT

  // So what is left is within the timeout again and again.
  lemma StaysYoung(before: map<Id, Entry>, handled: map<Id, Entry>, after: map<Id, Entry>, age: seq<Id>, since: nat,
                   clock: nat)
    requires Newer(before, handled, since) && Shrunk(handled, after, clock) && Young(after, age, clock)
    ensures AllYoung(before, since) && clock <= since + GAP ==> AllYoung(after, clock)
  {
    if AllYoung(before, since) && clock <= since + GAP {
      forall e | e in after ensures clock < after[e].tstamp + 0x1_0000_0000 {
        assert after[e] == handled[e];
      }
    }
  }
}
