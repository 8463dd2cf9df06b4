// When the connection limiter has to accept: its verdicts as a rule about the calls it has accepted, in which what it
// refused plays no part; and the order of its list.

module ConnAccepts {
  import opened Common
  import opened ConnLimit

  // ---------------------------------------------------------------- the rule

  // The accepted calls of a key, in order.
  function Granted(cfg: Config, calls: seq<Call>, key: nat): seq<Call>
    decreases |calls|
  {
    if calls == [] then []
    else
      var before, last := calls[..|calls| - 1], calls[|calls| - 1];
      Granted(cfg, before, key) + if last.key == key && Verdict(cfg, before, last) then [last] else []
  }

  // The current burst: when it began, and how many calls it has let through.
  datatype Burst = Burst(start: Time, size: nat)

  // The time that the next call is measured from: the start of the burst, and beyond its size the last accepted call.
  function Since(cfg: Config, b: Burst, last: Time): Time {
    if b.size <= cfg.burst then b.start else last
  }

  function Last(acc: seq<Call>): Time
    requires acc != []
  {
    acc[|acc| - 1].now
  }

  function Current(cfg: Config, acc: seq<Call>): (b: Burst)
    requires acc != []
    ensures b.size >= 1
  {
    var before, call := acc[..|acc| - 1], acc[|acc| - 1];
    if before == [] || call.lost then Burst(call.now, 1)
    else
      var b := Current(cfg, before);
      if Age(call.now, Since(cfg, b, Last(before))) >= cfg.burstTimeout then Burst(call.now, 1)
      else b.(size := b.size + 1)
  }

  // A call is let through if the key is new, if the burst is over or has room, or if the limit timeout has passed.
  predicate Allowed(cfg: Config, acc: seq<Call>, call: Call) {
    acc == [] || call.lost ||
    var b := Current(cfg, acc);
    var age := Age(call.now, Since(cfg, b, Last(acc)));
    age >= cfg.burstTimeout || b.size < cfg.burst || age >= cfg.limitTimeout
  }

  // ---------------------------------------------------------------- the records keep to it

  // The count goes on through refusals; up to the size of a burst it counts accepted calls alone.
  ghost predicate Mirrors(cfg: Config, entry: Option<Item>, acc: seq<Call>) {
    if acc == [] then entry.None?
    else
      && entry.Some?
      && var b, count := Current(cfg, acc), entry.value.count;
         && entry.value.ts == Since(cfg, b, Last(acc))
         && (if count < cfg.burst then b.size == count + 1 else b.size >= cfg.burst)
  }

  lemma MirrorsNext(cfg: Config, entry: Option<Item>, acc: seq<Call>, call: Call)
    requires Mirrors(cfg, entry, acc)
    ensures Ruled(cfg, entry, call).accept == Allowed(cfg, acc, call)
    ensures Mirrors(cfg, Some(Ruled(cfg, entry, call).item), if Allowed(cfg, acc, call) then acc + [call] else acc)
  {
    if Allowed(cfg, acc, call) {
      assert (acc + [call])[..|acc|] == acc;
    }
  }

  lemma {:induction false} MirrorsRun(cfg: Config, calls: seq<Call>, key: nat)
    ensures Mirrors(cfg, Entry(cfg, calls, key), Granted(cfg, calls, key))
    decreases |calls|
  {
    if calls != [] {
      var before, last := calls[..|calls| - 1], calls[|calls| - 1];
      MirrorsRun(cfg, before, key);
      assert Granted(cfg, before, key) + [] == Granted(cfg, before, key);
      if last.key == key {
        MirrorsNext(cfg, Entry(cfg, before, key), Granted(cfg, before, key), last);
      }
    }
  }

  // Every verdict follows from the accepted calls of the key alone.
  lemma AcceptsDecide(cfg: Config, calls: seq<Call>, call: Call)
    ensures Verdict(cfg, calls, call) <==> Allowed(cfg, Granted(cfg, calls, call.key), call)
  {
    MirrorsRun(cfg, calls, call.key);
    MirrorsNext(cfg, Entry(cfg, calls, call.key), Granted(cfg, calls, call.key), call);
  }

  // ---------------------------------------------------------------- refusals leave no trace

  // The run without the calls that were refused.
  function Accepted(cfg: Config, calls: seq<Call>): seq<Call>
    decreases |calls|
  {
    if calls == [] then []
    else
      var before, last := calls[..|calls| - 1], calls[|calls| - 1];
      Accepted(cfg, before) + if Verdict(cfg, before, last) then [last] else []
  }

  lemma GrantedNext(cfg: Config, calls: seq<Call>, call: Call, key: nat)
    ensures Granted(cfg, calls + [call], key)
         == Granted(cfg, calls, key) + if call.key == key && Verdict(cfg, calls, call) then [call] else []
  {
    assert (calls + [call])[..|calls|] == calls;
  }

  lemma {:induction false} GrantedAccepted(cfg: Config, calls: seq<Call>, key: nat)
    ensures Granted(cfg, Accepted(cfg, calls), key) == Granted(cfg, calls, key)
    decreases |calls|
  {
    if calls != [] {
      var before, last := calls[..|calls| - 1], calls[|calls| - 1];
      GrantedAccepted(cfg, before, key);
      GrantedAccepted(cfg, before, last.key);
      AcceptsDecide(cfg, before, last);
      AcceptsDecide(cfg, Accepted(cfg, before), last);
      GrantedNext(cfg, Accepted(cfg, before), last, key);
      assert Accepted(cfg, before) + [] == Accepted(cfg, before);
    }
  }

  // Had nobody tried in vain, every verdict would be the same.
  lemma RefusalsForgotten(cfg: Config, calls: seq<Call>, call: Call)
    ensures Verdict(cfg, calls, call) == Verdict(cfg, Accepted(cfg, calls), call)
  {
    GrantedAccepted(cfg, calls, call.key);
    AcceptsDecide(cfg, calls, call);
    AcceptsDecide(cfg, Accepted(cfg, calls), call);
  }

  // ---------------------------------------------------------------- when a call must be accepted

  lemma OrderedPrefix(calls: seq<Call>, call: Call, end: Call)
    requires Ordered(calls + [call] + [end])
    ensures Ordered(calls + [call]) && Ordered(calls + [end])
  {
    var all := calls + [call] + [end];
    assert all[..|all| - 1] == calls + [call];
    assert forall i :: 0 <= i < |calls| ==> (calls + [end])[i] == all[i] == (calls + [call])[i];
    assert all[|all| - 1] == end && all[|all| - 2] == call;
  }

  lemma {:induction false} GrantedOrdered(cfg: Config, calls: seq<Call>, key: nat, end: Call)
    requires Ordered(calls + [end])
    ensures Ordered(Granted(cfg, calls, key) + [end])
    decreases |calls|
  {
    if calls == [] {
      assert Granted(cfg, calls, key) + [end] == calls + [end];
    } else {
      var before, last := calls[..|calls| - 1], calls[|calls| - 1];
      assert calls == before + [last];
      var all, acc := calls + [end], Granted(cfg, before, key);
      assert all == before + [last] + [end] && all[|before|] == last && all[|calls|] == end;
      OrderedPrefix(before, last, end);
      if last.key == key && Verdict(cfg, before, last) {
        GrantedOrdered(cfg, before, key, last);
        OneLater(acc, last, end);
      } else {
        assert acc + [] == acc;
        GrantedOrdered(cfg, before, key, end);
      }
    }
  }

  lemma OneLater(calls: seq<Call>, call: Call, end: Call)
    requires Ordered(calls + [call]) && Valid(end.now) && NotAfter(call.now, end.now)
    ensures Ordered(calls + [call] + [end])
  {
    var one, all := calls + [call], calls + [call] + [end];
    assert forall i :: 0 <= i < |one| ==> all[i] == one[i];
    assert one[|calls|] == call;
  }

  // A burst begins with one of the accepted calls.
  lemma {:induction false} StartIsCall(cfg: Config, acc: seq<Call>) returns (i: nat)
    requires acc != []
    ensures i < |acc| && acc[i].now == Current(cfg, acc).start
    decreases |acc|
  {
    var before, call := acc[..|acc| - 1], acc[|acc| - 1];
    i := |acc| - 1;
    if before != [] && Current(cfg, acc).size > 1 {
      i := StartIsCall(cfg, before);
    }
  }

  // The later the stamp, the shorter the lapse.
  lemma LapseAntitone(now: Time, ts: Time, us: Time)
    requires Valid(now) && Valid(ts) && Valid(us) && NotAfter(ts, us)
    ensures Lapse(now, us) <= Lapse(now, ts)
  {
    if ts.sec == us.sec {
      MillisMonotone(now.nsec - us.nsec, now.nsec - ts.nsec);
    } else {
      MillisApart(now.nsec, ts.nsec, us.nsec);
    }
  }

  lemma MillisApart(n: int, a: int, b: int)
    requires 0 <= n < 1_000_000_000 && 0 <= a < 1_000_000_000 && 0 <= b < 1_000_000_000
    ensures Millis(n - b) <= 1000 + Millis(n - a)
  {
    MillisMonotone(n - b, n);
    MillisMonotone(n - 999_999_999, n - a);
    if n < 999_999_999 {
      assert Millis(n - 999_999_999) == -((999_999_999 - n) / 1_000_000);
    }
  }

  // The time measured from is no later than the last accepted call.
  lemma SinceBeforeLast(cfg: Config, acc: seq<Call>, call: Call, since: Time)
    requires acc != [] && Ordered(acc + [call]) && since == Since(cfg, Current(cfg, acc), Last(acc))
    ensures Valid(since) && Valid(Last(acc)) && Valid(call.now) && NotAfter(since, Last(acc))
  {
    var i := StartIsCall(cfg, acc);
    var all := acc + [call];
    assert all[i] == acc[i] && all[|acc| - 1] == acc[|acc| - 1] && all[|acc|] == call;
  }

  lemma AgeIsLapse(now: Time, ts: Time)
    requires 0 <= Lapse(now, ts) < WRAP
    ensures Age(now, ts) == Lapse(now, ts)
  {
  }

  // A call is accepted when it comes the limit timeout or more after the last accepted call of its key, whatever was
  // refused in between, as long as the counter has not wrapped since the time it is measured from.
  lemma WaitedEnough(cfg: Config, calls: seq<Call>, call: Call, acc: seq<Call>, since: Time)
    requires Ordered(calls + [call]) && acc == Granted(cfg, calls, call.key) && acc != []
    requires since == Since(cfg, Current(cfg, acc), Last(acc)) && Lapse(call.now, since) < WRAP
    requires Lapse(call.now, Last(acc)) >= cfg.limitTimeout
    ensures Verdict(cfg, calls, call)
  {
    AcceptsDecide(cfg, calls, call);
    GrantedOrdered(cfg, calls, call.key, call);
    SinceBeforeLast(cfg, acc, call, since);
    LapseAntitone(call.now, since, Last(acc));
    AgeIsLapse(call.now, since);
  }

  // So is any call of a key whose current burst has let fewer than `burst` calls through, and the first call of a key.
  lemma RoomLeft(cfg: Config, calls: seq<Call>, call: Call, acc: seq<Call>)
    requires acc == Granted(cfg, calls, call.key)
    requires acc != [] ==> Current(cfg, acc).size < cfg.burst
    ensures Verdict(cfg, calls, call)
  {
    AcceptsDecide(cfg, calls, call);
  }

  // ---------------------------------------------------------------- the order of the list

  // The newest stamp stands in front.
  ghost predicate NewestFirst(items: seq<Item>) {
    forall i, j :: 0 <= i < j < |items| ==> NotAfter(items[j].ts, items[i].ts)
  }

  ghost predicate NoneAfter(items: seq<Item>, now: Time) {
    forall i :: 0 <= i < |items| ==> NotAfter(items[i].ts, now)
  }

  // Two lists, the first no older than the second.
  lemma InOrder(a: seq<Item>, b: seq<Item>)
    requires NewestFirst(a) && NewestFirst(b)
    requires forall i, j :: 0 <= i < |a| && 0 <= j < |b| ==> NotAfter(b[j].ts, a[i].ts)
    ensures NewestFirst(a + b)
  {
  }

  lemma {:induction false} UnexpiredOrder(cfg: Config, items: seq<Item>, now: Time)
    requires NewestFirst(items)
    ensures NewestFirst(Unexpired(cfg, items, now))
    ensures forall x :: x in Unexpired(cfg, items, now) ==> x in items
  {
    if items != [] {
      var before, last := items[..|items| - 1], items[|items| - 1];
      UnexpiredOrder(cfg, before, now);
      var kept := Unexpired(cfg, before, now);
      forall i | 0 <= i < |kept| ensures NotAfter(last.ts, kept[i].ts) {
        assert kept[i] in before;
      }
      InOrder(kept, if Age(now, last.ts) <= cfg.burstTimeout then [last] else []);
      assert items == before + [last];
    }
  }

  lemma AnswerOrder(cfg: Config, items: seq<Item>, key: nat, now: Time)
    requires NewestFirst(items) && NoneAfter(items, now)
    ensures var next := Answer(cfg, items, key, now).items; NewestFirst(next) && NoneAfter(next, now)
  {
    var i := Place(items, key);
    var pre, kept := items[..i], Unexpired(cfg, items[..i], now);
    UnexpiredOrder(cfg, pre, now);
    forall k | 0 <= k < |kept| ensures NotAfter(kept[k].ts, now) {
      assert kept[k] in pre;
    }
    if i == |items| {
      InOrder([Item(key, now, 0)], kept);
    } else {
      FoundOrder(cfg, items, i, kept, Judge(cfg, items[i], now), now);
    }
  }

  lemma FoundOrder(cfg: Config, items: seq<Item>, i: nat, kept: seq<Item>, r: Ruling, now: Time)
    requires NewestFirst(items) && NoneAfter(items, now) && i < |items|
    requires NewestFirst(kept) && NoneAfter(kept, now) && forall x :: x in kept ==> x in items[..i]
    requires r.item.ts == if r.moved then now else items[i].ts
    ensures var next := if r.moved then [r.item] + kept + items[i + 1..] else kept + [r.item] + items[i + 1..];
      NewestFirst(next) && NoneAfter(next, now)
  {
    var rest := items[i + 1..];
    forall k, j | 0 <= k < |kept| && i <= j < |items| ensures NotAfter(items[j].ts, kept[k].ts) {
      assert kept[k] in items[..i];
    }
    InOrder(kept, rest);
    if r.moved {
      InOrder([r.item], kept + rest);
      assert [r.item] + (kept + rest) == [r.item] + kept + rest;
    } else {
      InOrder([r.item], rest);
      InOrder(kept, [r.item] + rest);
      assert kept + ([r.item] + rest) == kept + [r.item] + rest;
    }
  }

  // After any calls the list is in the order of the stamps.
  lemma {:induction false} AlwaysNewestFirst(cfg: Config, calls: seq<Call>)
    requires Ordered(calls)
    ensures NewestFirst(Replay(cfg, calls))
    ensures calls != [] ==> NoneAfter(Replay(cfg, calls), calls[|calls| - 1].now)
    decreases |calls|
  {
    if calls != [] {
      var before, last := calls[..|calls| - 1], calls[|calls| - 1];
      AlwaysNewestFirst(cfg, before);
      AnswerOrder(cfg, Replay(cfg, before), last.key, last.now);
    }
  }
}
