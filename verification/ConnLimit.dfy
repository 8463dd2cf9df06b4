// The connection limiter: one shared list, pruned while it is searched, against one independent record per key.

module ConnLimit {
  import opened Common

  datatype Time = Time(sec: int, nsec: int)

  const WRAP: int := 0x1_0000_0000

  predicate Valid(t: Time) {
    0 <= t.nsec < 1_000_000_000
  }

  predicate NotAfter(a: Time, b: Time) {
    a.sec < b.sec || (a.sec == b.sec && a.nsec <= b.nsec)
  }

  // Division of nanoseconds to milliseconds, toward zero.
  function Millis(ns: int): int {
    if ns >= 0 then ns / 1_000_000 else -((-ns) / 1_000_000)
  }

  // Seconds and nanoseconds are subtracted and rounded apart.
  function Lapse(now: Time, ts: Time): int {
    (now.sec - ts.sec) * 1000 + Millis(now.nsec - ts.nsec)
  }

  // The lapse as the 32-bit counter holds it.
  function Age(now: Time, ts: Time): int {
    Lapse(now, ts) % WRAP
  }

  datatype Config = Config(burst: int, burstTimeout: nat, limitTimeout: nat)

  datatype Item = Item(key: nat, ts: Time, count: nat)

  // What a check makes of the key's own entry.
  datatype Ruling = Ruling(item: Item, accept: bool, moved: bool)

  function Judge(cfg: Config, it: Item, now: Time): Ruling {
    if Age(now, it.ts) >= cfg.burstTimeout then Ruling(Item(it.key, now, 0), true, true)
    else if it.count + 1 < cfg.burst then Ruling(Item(it.key, it.ts, it.count + 1), true, false)
    else if Age(now, it.ts) >= cfg.limitTimeout then Ruling(Item(it.key, now, it.count + 1), true, true)
    else Ruling(Item(it.key, it.ts, it.count + 1), false, false)
  }

  // ---------------------------------------------------------------- one record per key

  // A call, and whether the limiter had lost the key's record by then.
  datatype Call = Call(key: nat, now: Time, lost: bool)

  function Ruled(cfg: Config, entry: Option<Item>, call: Call): Ruling {
    if entry.Some? && !call.lost then Judge(cfg, entry.value, call.now)
    else Ruling(Item(call.key, call.now, 0), true, true)
  }

  // The key's record after the calls: calls for other keys do not touch it.
  function Entry(cfg: Config, calls: seq<Call>, key: nat): (r: Option<Item>)
    ensures r.Some? ==> r.value.key == key
    decreases |calls|
  {
    if calls == [] then None
    else
      var before, last := calls[..|calls| - 1], calls[|calls| - 1];
      if last.key == key then Some(Ruled(cfg, Entry(cfg, before, key), last).item) else Entry(cfg, before, key)
  }

  // What the per-key records decide about one more call.
  function Verdict(cfg: Config, calls: seq<Call>, call: Call): bool {
    Ruled(cfg, Entry(cfg, calls, call.key), call).accept
  }

  // The same calls to a limiter that loses nothing.
  function Plain(calls: seq<Call>): (r: seq<Call>)
    ensures |r| == |calls|
  {
    if calls == [] then [] else Plain(calls[..|calls| - 1]) + [calls[|calls| - 1].(lost := false)]
  }

  // ---------------------------------------------------------------- time

  predicate Ordered(calls: seq<Call>) {
    && (forall i :: 0 <= i < |calls| ==> Valid(calls[i].now))
    && (forall i, j :: 0 <= i < j < |calls| ==> NotAfter(calls[i].now, calls[j].now))
  }

  lemma MillisMonotone(a: int, b: int)
    requires a <= b
    ensures Millis(a) <= Millis(b)
  {
  }

  lemma MillisWrap(a: int, b: int)
    requires 0 <= a < 1_000_000_000 && 0 <= b < 1_000_000_000
    ensures Millis(a - b) <= 1000 + Millis(-b)
    ensures -999 <= Millis(a - b) <= 999
  {
  }

  // The measured lapse never goes back while the clock goes on.
  lemma LapseMonotone(t: Time, u: Time, ts: Time)
    requires Valid(t) && Valid(u) && Valid(ts) && NotAfter(t, u)
    ensures Lapse(t, ts) <= Lapse(u, ts)
  {
    if t.sec == u.sec {
      MillisMonotone(t.nsec - ts.nsec, u.nsec - ts.nsec);
    } else {
      MillisWrap(t.nsec, ts.nsec);
      MillisMonotone(-ts.nsec, u.nsec - ts.nsec);
    }
  }

  lemma LapseNonNegative(now: Time, ts: Time)
    requires Valid(now) && Valid(ts) && NotAfter(ts, now)
    ensures 0 <= Lapse(now, ts)
  {
    MillisWrap(now.nsec, ts.nsec);
  }

  // A record's stamp is the time of one of the calls.
  lemma {:induction false} StampIsCall(cfg: Config, calls: seq<Call>, key: nat) returns (i: nat)
    requires Entry(cfg, calls, key).Some?
    ensures i < |calls| && calls[i].now == Entry(cfg, calls, key).value.ts
    decreases |calls|
  {
    var before, last := calls[..|calls| - 1], calls[|calls| - 1];
    var prev := Entry(cfg, before, key);
    if last.key == key && (prev.None? || Ruled(cfg, prev, last).moved) {
      i := |calls| - 1;
    } else {
      i := StampIsCall(cfg, before, key);
    }
  }

  // The age of a record, as the 32-bit counter holds it, is never more than its lapse.
  lemma AgeAtMost(cfg: Config, calls: seq<Call>, call: Call, key: nat)
    requires Ordered(calls + [call]) && Entry(cfg, calls, key).Some?
    ensures var ts := Entry(cfg, calls, key).value.ts;
      Valid(ts) && Valid(call.now) && NotAfter(ts, call.now) && Age(call.now, ts) <= Lapse(call.now, ts)
  {
    var all := calls + [call];
    var i := StampIsCall(cfg, calls, key);
    assert all[i] == calls[i] && all[|all| - 1] == call;
    LapseNonNegative(call.now, all[i].now);
  }

  // ---------------------------------------------------------------- the shared list

  predicate DistinctKeys(items: seq<Item>) {
    forall i, j :: 0 <= i < j < |items| ==> items[i].key != items[j].key
  }

  predicate Listed(items: seq<Item>, key: nat) {
    exists i :: 0 <= i < |items| && items[i].key == key
  }

  // Every listed entry is its key's record; every record that is not listed has outlived the burst timeout.
  ghost predicate Tracks(cfg: Config, items: seq<Item>, calls: seq<Call>) {
    && Ordered(calls) && DistinctKeys(items)
    && (forall x :: x in items ==> Entry(cfg, calls, x.key) == Some(x))
    && (forall k :: Entry(cfg, calls, k).Some? && !Listed(items, k) ==> Stale(cfg, calls, k))
  }

  ghost predicate Stale(cfg: Config, calls: seq<Call>, k: nat)
    requires Entry(cfg, calls, k).Some?
  {
    calls != [] && Lapse(calls[|calls| - 1].now, Entry(cfg, calls, k).value.ts) > cfg.burstTimeout
  }

  // The key has a record, and by the time of the call it has outlived the burst timeout.
  predicate Outlived(cfg: Config, calls: seq<Call>, call: Call) {
    && Entry(cfg, calls, call.key).Some?
    && Lapse(call.now, Entry(cfg, calls, call.key).value.ts) > cfg.burstTimeout
  }

  // Only records that have outlived the burst timeout are ever lost.
  ghost predicate Honest(cfg: Config, calls: seq<Call>) {
    forall i :: 0 <= i < |calls| && calls[i].lost ==> Outlived(cfg, calls[..i], calls[i])
  }

  lemma HonestNext(cfg: Config, calls: seq<Call>, call: Call)
    ensures Honest(cfg, calls + [call]) <==> Honest(cfg, calls) && (call.lost ==> Outlived(cfg, calls, call))
  {
    var all := calls + [call];
    assert all[..|calls|] == calls && all[|calls|] == call;
    forall i | 0 <= i < |calls| ensures all[i] == calls[i] && all[..i] == calls[..i] {
    }
  }

  lemma StaleOutlived(cfg: Config, calls: seq<Call>, call: Call)
    requires Ordered(calls + [call]) && Entry(cfg, calls, call.key).Some? && Stale(cfg, calls, call.key)
    ensures Outlived(cfg, calls, call)
  {
    AgeAtMost(cfg, calls, call, call.key);
    var all := calls + [call];
    assert all[|all| - 1] == call && all[|all| - 2] == calls[|calls| - 1];
    LapseMonotone(calls[|calls| - 1].now, call.now, Entry(cfg, calls, call.key).value.ts);
  }

  // A lost record decides as the record would have exactly if the 32-bit counter, too, holds it for outlived, as it
  // does within 2^32 ms.  The verdicts differ exactly if the record would have refused.
  lemma StaleStartsOver(cfg: Config, calls: seq<Call>, call: Call)
    requires Outlived(cfg, calls, call)
    ensures var it := Entry(cfg, calls, call.key).value;
      var lost, kept := call.(lost := true), call.(lost := false);
      && (Ruled(cfg, Some(it), lost) == Ruled(cfg, Some(it), kept) <==> Age(call.now, it.ts) >= cfg.burstTimeout)
      && (Lapse(call.now, it.ts) < WRAP ==> Age(call.now, it.ts) >= cfg.burstTimeout)
      && (Verdict(cfg, calls, lost) != Verdict(cfg, calls, kept) <==>
            && Age(call.now, it.ts) < cfg.burstTimeout && Age(call.now, it.ts) < cfg.limitTimeout
            && it.count + 1 >= cfg.burst)
  {
  }

  // The counter holds every lost record for outlived.
  ghost predicate Unwrapped(cfg: Config, calls: seq<Call>) {
    forall i :: 0 <= i < |calls| && calls[i].lost ==>
      var it := Entry(cfg, calls[..i], calls[i].key);
      it.Some? && Age(calls[i].now, it.value.ts) >= cfg.burstTimeout
  }

  lemma UnwrappedNext(cfg: Config, calls: seq<Call>, call: Call)
    requires Unwrapped(cfg, calls + [call])
    ensures Unwrapped(cfg, calls)
    ensures call.lost ==>
      var it := Entry(cfg, calls, call.key); it.Some? && Age(call.now, it.value.ts) >= cfg.burstTimeout
  {
    var all := calls + [call];
    assert all[..|calls|] == calls && all[|calls|] == call;
    forall i | 0 <= i < |calls| ensures all[i] == calls[i] && all[..i] == calls[..i] {
    }
  }

  // Then the records are those of a limiter that loses nothing.
  lemma {:induction false} SameRecords(cfg: Config, calls: seq<Call>, key: nat)
    requires Unwrapped(cfg, calls)
    ensures Entry(cfg, calls, key) == Entry(cfg, Plain(calls), key)
    decreases |calls|
  {
    if calls != [] {
      var before, last := calls[..|calls| - 1], calls[|calls| - 1];
      assert calls == before + [last];
      UnwrappedNext(cfg, before, last);
      SameRecords(cfg, before, key);
      EntryNext(cfg, Plain(before), last.(lost := false), key);
    }
  }

  // The first call that finds the list and the map apart: the record is lost, and the map's refuses.
  lemma FirstDifference(cfg: Config, calls: seq<Call>, call: Call)
    requires Unwrapped(cfg, calls) && Honest(cfg, calls + [call])
    ensures Verdict(cfg, calls, call) != Verdict(cfg, Plain(calls), call.(lost := false)) <==>
      var entry := Entry(cfg, calls, call.key);
      call.lost && entry.Some? && !Judge(cfg, entry.value, call.now).accept
  {
    SameRecords(cfg, calls, call.key);
    HonestNext(cfg, calls, call);
  }

  // Every call comes less than 2^32 ms after the stamp of its key's record.
  ghost predicate ShortGaps(cfg: Config, calls: seq<Call>) {
    forall i :: 0 <= i < |calls| ==>
      var it := Entry(cfg, calls[..i], calls[i].key); it.Some? ==> Lapse(calls[i].now, it.value.ts) < WRAP
  }

  // While the gaps are short the list decides every call as a limiter that loses nothing.
  lemma ListIsMap(cfg: Config, calls: seq<Call>, call: Call)
    requires Honest(cfg, calls + [call]) && ShortGaps(cfg, calls + [call])
    ensures Verdict(cfg, calls, call) == Verdict(cfg, Plain(calls), call.(lost := false))
  {
    var all := calls + [call];
    forall i | 0 <= i < |all| && all[i].lost
      ensures var it := Entry(cfg, all[..i], all[i].key);
        it.Some? && Age(all[i].now, it.value.ts) >= cfg.burstTimeout
    {
      assert Outlived(cfg, all[..i], all[i]);
      StaleStartsOver(cfg, all[..i], all[i]);
    }
    UnwrappedNext(cfg, calls, call);
    FirstDifference(cfg, calls, call);
  }

  lemma StaleStays(cfg: Config, calls: seq<Call>, call: Call, k: nat)
    requires Ordered(calls + [call]) && k != call.key
    requires Entry(cfg, calls, k).Some? && Stale(cfg, calls, k)
    ensures Entry(cfg, calls + [call], k).Some? && Stale(cfg, calls + [call], k)
  {
    EntryNext(cfg, calls, call, k);
    var all := calls + [call];
    var i := StampIsCall(cfg, calls, k);
    assert all[i] == calls[i] && all[|all| - 1] == call && all[|all| - 2] == calls[|calls| - 1];
    LapseMonotone(calls[|calls| - 1].now, call.now, all[i].now);
  }

  lemma EntryNext(cfg: Config, calls: seq<Call>, call: Call, k: nat)
    ensures Entry(cfg, calls + [call], k)
         == if k == call.key then Some(Ruled(cfg, Entry(cfg, calls, k), call).item) else Entry(cfg, calls, k)
  {
    assert (calls + [call])[..|calls|] == calls;
  }

  lemma JustPruned(cfg: Config, calls: seq<Call>, call: Call, x: Item)
    requires Ordered(calls + [call])
    requires Entry(cfg, calls, x.key) == Some(x) && x.key != call.key && Age(call.now, x.ts) > cfg.burstTimeout
    ensures Entry(cfg, calls + [call], x.key) == Some(x) && Stale(cfg, calls + [call], x.key)
  {
    EntryNext(cfg, calls, call, x.key);
    AgeAtMost(cfg, calls, call, x.key);
  }

  // What one check may do to the list.
  ghost predicate Checked(cfg: Config, items: seq<Item>, call: Call, made: Item, next: seq<Item>) {
    && DistinctKeys(next) && made in next && made.key == call.key
    && (forall x :: x in next ==> x == made || (x in items && x.key != call.key))
    && (forall x :: x in items && x.key != call.key ==> x in next || Age(call.now, x.ts) > cfg.burstTimeout)
  }

  lemma Retrack(cfg: Config, items: seq<Item>, calls: seq<Call>, call: Call, made: Item, next: seq<Item>)
    requires Tracks(cfg, items, calls) && Ordered(calls + [call])
    requires made == Ruled(cfg, Entry(cfg, calls, call.key), call).item
    requires Checked(cfg, items, call, made, next)
    ensures Tracks(cfg, next, calls + [call])
  {
    forall x | x in next ensures Entry(cfg, calls + [call], x.key) == Some(x) {
      EntryNext(cfg, calls, call, x.key);
    }
    forall k | Entry(cfg, calls + [call], k).Some? && !Listed(next, k)
      ensures Stale(cfg, calls + [call], k)
    {
      EntryNext(cfg, calls, call, k);
      var m :| 0 <= m < |next| && next[m] == made;
      if Listed(items, k) {
        var i :| 0 <= i < |items| && items[i].key == k;
        assert items[i] in items && items[i] !in next;
        JustPruned(cfg, calls, call, items[i]);
      } else {
        StaleStays(cfg, calls, call, k);
      }
    }
  }

  lemma MovedForward(a: seq<Item>, x: Item, b: seq<Item>, y: Item)
    requires DistinctKeys(a + [x] + b) && x.key == y.key
    ensures DistinctKeys([y] + a + b) && DistinctKeys(a + [y] + b) && DistinctKeys(a + b)
    ensures forall z :: z in a + b ==> z.key != y.key
  {
    var s := a + [x] + b;
    assert s[|a|] == x;
    assert forall i :: 0 <= i < |a| ==> s[i] == a[i];
    assert forall i :: 0 <= i < |b| ==> s[|a| + 1 + i] == b[i];
    assert forall i :: 0 <= i < |b| ==> (a + b)[|a| + i] == b[i];
  }

  // Where the key stands in the list, or the end.
  function Place(items: seq<Item>, key: nat): (i: nat)
    ensures i <= |items| && (i < |items| ==> items[i].key == key)
    ensures forall j :: 0 <= j < i ==> items[j].key != key
  {
    if items == [] || items[0].key == key then 0 else 1 + Place(items[1..], key)
  }

  function Unexpired(cfg: Config, items: seq<Item>, now: Time): seq<Item> {
    if items == [] then []
    else
      var last := items[|items| - 1];
      Unexpired(cfg, items[..|items| - 1], now) + if Age(now, last.ts) <= cfg.burstTimeout then [last] else []
  }

  datatype Reply = Reply(items: seq<Item>, accept: bool)

  // What stands before the key is pruned, what stands behind it is not looked at; an accept that pays, and a new
  // entry, go to the front.
  function Answer(cfg: Config, items: seq<Item>, key: nat, now: Time): Reply {
    var i := Place(items, key);
    var kept := Unexpired(cfg, items[..i], now);
    if i == |items| then Reply([Item(key, now, 0)] + kept, true)
    else
      var r := Judge(cfg, items[i], now);
      Reply(if r.moved then [r.item] + kept + items[i + 1..] else kept + [r.item] + items[i + 1..], r.accept)
  }

  // The list after the calls.
  function Replay(cfg: Config, calls: seq<Call>): seq<Item>
    decreases |calls|
  {
    if calls == [] then []
    else
      var last := calls[|calls| - 1];
      Answer(cfg, Replay(cfg, calls[..|calls| - 1]), last.key, last.now).items
  }

  lemma ReplayNext(cfg: Config, calls: seq<Call>, call: Call)
    ensures Replay(cfg, calls + [call]) == Answer(cfg, Replay(cfg, calls), call.key, call.now).items
  {
    assert (calls + [call])[..|calls|] == calls;
  }

  // A key with a record that is not in the list.
  ghost predicate Lost(cfg: Config, items: seq<Item>, calls: seq<Call>, key: nat) {
    Entry(cfg, calls, key).Some? && !Listed(items, key)
  }

  lemma {:induction false} UnexpiredOnly(cfg: Config, items: seq<Item>, now: Time)
    ensures forall x :: x in Unexpired(cfg, items, now) <==> x in items && Age(now, x.ts) <= cfg.burstTimeout
  {
    if items != [] {
      UnexpiredOnly(cfg, items[..|items| - 1], now);
      assert items == items[..|items| - 1] + [items[|items| - 1]];
    }
  }

  lemma {:induction false} UnexpiredDistinct(cfg: Config, items: seq<Item>, rest: seq<Item>, now: Time)
    requires DistinctKeys(items + rest)
    ensures DistinctKeys(Unexpired(cfg, items, now) + rest)
  {
    if items == [] {
      assert items + rest == rest && Unexpired(cfg, items, now) + rest == rest;
    } else {
      var before, last := items[..|items| - 1], items[|items| - 1];
      assert items + rest == before + ([last] + rest);
      UnexpiredDistinct(cfg, before, [last] + rest, now);
      var kept := Unexpired(cfg, before, now);
      assert kept + ([last] + rest) == kept + [last] + rest;
      MovedForward(kept, last, rest, last);
      assert kept + [] == kept;
    }
  }

  // The entry that an answer leaves for its key.
  function Made(cfg: Config, items: seq<Item>, key: nat, now: Time): Item {
    var i := Place(items, key);
    if i == |items| then Item(key, now, 0) else Judge(cfg, items[i], now).item
  }

  lemma NewInFront(kept: seq<Item>, made: Item)
    requires DistinctKeys(kept) && forall x :: x in kept ==> x.key != made.key
    ensures DistinctKeys([made] + kept)
  {
    assert forall i :: 0 <= i < |kept| ==> kept[i] in kept;
  }

  lemma AnswerNew(cfg: Config, items: seq<Item>, call: Call)
    requires DistinctKeys(items) && Place(items, call.key) == |items|
    ensures var answer := Answer(cfg, items, call.key, call.now);
      Checked(cfg, items, call, Made(cfg, items, call.key, call.now), answer.items) && !Listed(items, call.key)
  {
    UnexpiredOnly(cfg, items, call.now);
    assert items[..|items|] == items;
    assert items + [] == items;
    UnexpiredDistinct(cfg, items, [], call.now);
    var kept := Unexpired(cfg, items, call.now);
    assert kept + [] == kept;
    assert forall x :: x in items ==> x.key != call.key;
    NewInFront(kept, Item(call.key, call.now, 0));
  }

  lemma CheckedFound(cfg: Config, pre: seq<Item>, x: Item, rest: seq<Item>, kept: seq<Item>, call: Call, made: Item,
                     next: seq<Item>)
    requires DistinctKeys(pre + [x] + rest) && DistinctKeys(kept + [x] + rest) && x.key == made.key == call.key
    requires forall y :: y in kept <==> y in pre && Age(call.now, y.ts) <= cfg.burstTimeout
    requires next == [made] + kept + rest || next == kept + [made] + rest
    ensures Checked(cfg, pre + [x] + rest, call, made, next)
  {
    MovedForward(kept, x, rest, made);
    assert forall y :: y in next <==> y == made || y in kept || y in rest;
    assert forall y :: y in kept + rest <==> y in kept || y in rest;
    MovedForward(pre, x, rest, made);
    assert forall y :: y in pre + [x] + rest <==> y in pre || y == x || y in rest;
  }

  lemma KeptDistinct(cfg: Config, pre: seq<Item>, x: Item, rest: seq<Item>, now: Time)
    requires DistinctKeys(pre + [x] + rest)
    ensures DistinctKeys(Unexpired(cfg, pre, now) + [x] + rest)
  {
    assert pre + [x] + rest == pre + ([x] + rest);
    UnexpiredDistinct(cfg, pre, [x] + rest, now);
    assert Unexpired(cfg, pre, now) + ([x] + rest) == Unexpired(cfg, pre, now) + [x] + rest;
  }

  lemma FoundParts(cfg: Config, pre: seq<Item>, x: Item, rest: seq<Item>, call: Call, made: Item, next: seq<Item>)
    requires DistinctKeys(pre + [x] + rest) && x.key == made.key == call.key
    requires var kept := Unexpired(cfg, pre, call.now); next == [made] + kept + rest || next == kept + [made] + rest
    ensures Checked(cfg, pre + [x] + rest, call, made, next)
  {
    UnexpiredOnly(cfg, pre, call.now);
    KeptDistinct(cfg, pre, x, rest, call.now);
    CheckedFound(cfg, pre, x, rest, Unexpired(cfg, pre, call.now), call, made, next);
  }

  lemma FoundAt(items: seq<Item>, i: nat)
    requires i < |items|
    ensures items == items[..i] + [items[i]] + items[i + 1..]
  {
  }

  lemma AnswerFound(cfg: Config, items: seq<Item>, call: Call, i: nat)
    requires DistinctKeys(items) && Place(items, call.key) == i < |items|
    ensures var answer := Answer(cfg, items, call.key, call.now);
      Checked(cfg, items, call, Made(cfg, items, call.key, call.now), answer.items)
  {
    FoundAt(items, i);
    var ruling := Judge(cfg, items[i], call.now);
    var kept := Unexpired(cfg, items[..i], call.now);
    var next := if ruling.moved then [ruling.item] + kept + items[i + 1..] else kept + [ruling.item] + items[i + 1..];
    FoundParts(cfg, items[..i], items[i], items[i + 1..], call, ruling.item, next);
  }

  // However the list is pruned and reordered, what is left tracks the records, and the answer is the record's.
  lemma AnswerTracks(cfg: Config, items: seq<Item>, calls: seq<Call>, call: Call)
    requires Tracks(cfg, items, calls) && Ordered(calls + [call]) && call.lost == Lost(cfg, items, calls, call.key)
    ensures Tracks(cfg, Answer(cfg, items, call.key, call.now).items, calls + [call])
    ensures Answer(cfg, items, call.key, call.now).accept == Verdict(cfg, calls, call)
  {
    var i := Place(items, call.key);
    var made := Made(cfg, items, call.key, call.now);
    if i == |items| {
      AnswerNew(cfg, items, call);
    } else {
      AnswerFound(cfg, items, call, i);
      assert items[i] in items;
    }
    Retrack(cfg, items, calls, call, made, Answer(cfg, items, call.key, call.now).items);
  }

  class Limiter {
    const cfg: Config
    var items: seq<Item>
    ghost var history: seq<Call>

    ghost predicate Valid()
      reads this
    {
      Tracks(cfg, items, history) && Honest(cfg, history) && items == Replay(cfg, history)
    }

    constructor (cfg: Config)
      ensures Valid() && history == [] && this.cfg == cfg
    {
      this.cfg := cfg;
      items := [];
      history := [];
    }

    // One check: every verdict is that of the key's own record, of which the list has lost none that has not outlived
    // the burst timeout.
    method Check(key: nat, now: Time) returns (accept: bool)
      requires Valid() && Ordered(history + [Call(key, now, false)])
      modifies this
      ensures Valid() && history == old(history) + [Call(key, now, Lost(cfg, old(items), old(history), key))]
      ensures accept == Verdict(cfg, old(history), history[|history| - 1])
      ensures Reply(items, accept) == Answer(cfg, old(items), key, now)
    {
      ghost var call := Call(key, now, Lost(cfg, items, history, key));
      SameOrder(history, Call(key, now, false), call);
      AnswerTracks(cfg, items, history, call);
      StillHonest(cfg, items, history, call);
      ReplayNext(cfg, history, call);
      items, accept := Search(cfg, items, key, now);
      history := history + [call];
    }
  }

  // The search through the list, dropping what has expired on the way.
  method Search(cfg: Config, items: seq<Item>, key: nat, now: Time) returns (left: seq<Item>, accept: bool)
    ensures Reply(left, accept) == Answer(cfg, items, key, now)
  {
    var kept: seq<Item> := [];
    var i := 0;
    while i < |items| && items[i].key != key
      invariant 0 <= i <= Place(items, key) && kept == Unexpired(cfg, items[..i], now)
    {
      assert items[..i + 1][..i] == items[..i];
      if Age(now, items[i].ts) <= cfg.burstTimeout {
        kept := kept + [items[i]];
      }
      i := i + 1;
    }
    if i == |items| {
      return [Item(key, now, 0)] + kept, true;
    }
    var ruling := Judge(cfg, items[i], now);
    left := if ruling.moved then [ruling.item] + kept + items[i + 1..] else kept + [ruling.item] + items[i + 1..];
    accept := ruling.accept;
  }

  lemma SameOrder(calls: seq<Call>, call: Call, same: Call)
    requires Ordered(calls + [call]) && same.now == call.now
    ensures Ordered(calls + [same])
  {
    assert forall i :: 0 <= i <= |calls| ==> (calls + [same])[i].now == (calls + [call])[i].now;
  }

  lemma StillHonest(cfg: Config, items: seq<Item>, calls: seq<Call>, call: Call)
    requires Tracks(cfg, items, calls) && Honest(cfg, calls) && Ordered(calls + [call])
    requires call.lost == Lost(cfg, items, calls, call.key)
    ensures Honest(cfg, calls + [call])
  {
    HonestNext(cfg, calls, call);
    if call.lost {
      StaleOutlived(cfg, calls, call);
    }
  }

  // ---------------------------------------------------------------- 49.7 days

  // A check that finds its key's entry alone in the list.
  lemma AnswerAlone(cfg: Config, it: Item, now: Time)
    ensures Answer(cfg, [it], it.key, now).items == [Judge(cfg, it, now).item]
  {
    var list := [it];
    assert Place(list, it.key) == 0;
    assert list[..0] == [] && list[1..] == [];
    assert Unexpired(cfg, list[..0], now) == [];
  }

  lemma JudgedAtOnce(cfg: Config, it: Item)
    requires cfg.burstTimeout > 0 && cfg.limitTimeout > 0
    ensures Judge(cfg, it, it.ts).item == Item(it.key, it.ts, it.count + 1)
  {
    assert Age(it.ts, it.ts) == 0;
  }

  // One more call of the key at the same time.
  lemma SameAgain(cfg: Config, calls: seq<Call>, call: Call, n: nat)
    requires !call.lost && cfg.burstTimeout > 0 && cfg.limitTimeout > 0
    requires Entry(cfg, calls, call.key) == Some(Item(call.key, call.now, n))
    requires Replay(cfg, calls) == [Item(call.key, call.now, n)]
    ensures Entry(cfg, calls + [call], call.key) == Some(Item(call.key, call.now, n + 1))
    ensures Replay(cfg, calls + [call]) == [Item(call.key, call.now, n + 1)]
  {
    var it := Item(call.key, call.now, n);
    EntryNext(cfg, calls, call, call.key);
    ReplayNext(cfg, calls, call);
    JudgedAtOnce(cfg, it);
    AnswerAlone(cfg, it, call.now);
  }

  lemma FirstOfKey(cfg: Config, call: Call)
    requires !call.lost
    ensures Entry(cfg, [call], call.key) == Some(Item(call.key, call.now, 0))
    ensures Replay(cfg, [call]) == [Item(call.key, call.now, 0)]
  {
    assert [call][..0] == [];
  }

  lemma {:induction false} UnexpiredNone(cfg: Config, items: seq<Item>, now: Time)
    requires forall x :: x in items ==> Age(now, x.ts) > cfg.burstTimeout
    ensures Unexpired(cfg, items, now) == []
  {
    if items != [] {
      UnexpiredNone(cfg, items[..|items| - 1], now);
    }
  }

  // A call for another key prunes the only entry.
  lemma OtherPrunes(cfg: Config, calls: seq<Call>, it: Item, call: Call)
    requires Entry(cfg, calls, it.key) == Some(it) && Replay(cfg, calls) == [it]
    requires call.key != it.key && Age(call.now, it.ts) > cfg.burstTimeout
    ensures Entry(cfg, calls + [call], it.key) == Some(it)
    ensures Replay(cfg, calls + [call]) == [Item(call.key, call.now, 0)]
  {
    EntryNext(cfg, calls, call, it.key);
    ReplayNext(cfg, calls, call);
    var list := [it];
    assert Place(list, call.key) == |list| && list[..1] == list;
    UnexpiredNone(cfg, list, call.now);
  }

  // Four calls of one key at once, and one of another key later.
  lemma QuietRecord(cfg: Config, a: Call, b: Call, one: seq<Call>, two: seq<Call>, three: seq<Call>, four: seq<Call>,
                    five: seq<Call>)
    requires cfg.burstTimeout > 0 && cfg.limitTimeout > 0
    requires !a.lost && a.key != b.key && Age(b.now, a.now) > cfg.burstTimeout
    requires one == [a] && two == one + [a] && three == two + [a] && four == three + [a] && five == four + [b]
    ensures Entry(cfg, five, a.key) == Some(Item(a.key, a.now, 3))
    ensures Replay(cfg, five) == [Item(b.key, b.now, 0)]
  {
    FirstOfKey(cfg, a);
    SameAgain(cfg, one, a, 0);
    SameAgain(cfg, two, a, 1);
    SameAgain(cfg, three, a, 2);
    OtherPrunes(cfg, four, Item(a.key, a.now, 3), b);
  }

  lemma QuietOrder(a: Call, b: Call, c: Call, calls: seq<Call>)
    requires Valid(a.now) && Valid(b.now) && Valid(c.now) && NotAfter(a.now, b.now) && NotAfter(b.now, c.now)
    requires calls == [a, a, a, a, b, c]
    ensures Ordered(calls)
  {
  }

  // The record is as old as the counter is long, and its burst is used up.
  lemma RefusesAfterWrap(cfg: Config, calls: seq<Call>, it: Item, call: Call)
    requires Entry(cfg, calls, call.key) == Some(it) && !call.lost && Lapse(call.now, it.ts) == WRAP
    requires cfg.burstTimeout > 0 && cfg.limitTimeout > 0 && it.count + 1 >= cfg.burst
    ensures !Verdict(cfg, calls, call)
  {
    assert Age(call.now, it.ts) == 0;
  }

  lemma AcceptsStranger(cfg: Config, items: seq<Item>, call: Call)
    requires forall x :: x in items ==> x.key != call.key
    ensures Answer(cfg, items, call.key, call.now).accept
  {
    assert Place(items, call.key) == |items|;
  }

  lemma QuietLapses()
    ensures Age(Time(61, 0), Time(0, 0)) == 61_000
    ensures Lapse(Time(4_294_967, 296_000_000), Time(0, 0)) == WRAP
  {
  }

  // Beyond 2^32 ms the counter wraps.  Four calls at once use up a burst of three, a call for another key a minute
  // later prunes the entry, and 49.7 days after them the list accepts what the record refuses.
  lemma QuietTooLong(cfg: Config, a: Call, b: Call, c: Call, five: seq<Call>)
    requires cfg == Config(3, 60_000, 5_000)
    requires a == Call(0, Time(0, 0), false) && b == Call(1, Time(61, 0), false)
    requires c == Call(0, Time(4_294_967, 296_000_000), false)
    requires five == [a, a, a, a, b]
    ensures Ordered(five + [c])
    ensures !Verdict(cfg, five, c) && Answer(cfg, Replay(cfg, five), c.key, c.now).accept
  {
    QuietLapses();
    QuietRecord(cfg, a, b, [a], [a, a], [a, a, a], [a, a, a, a], five);
    QuietOrder(a, b, c, five + [c]);
    RefusesAfterWrap(cfg, five, Item(0, a.now, 3), c);
    AcceptsStranger(cfg, [Item(1, b.now, 0)], c);
  }
}
