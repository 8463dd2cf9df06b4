// The rate of the connection limiter: how many calls of one key it accepts over any stretch of a run.

module ConnRate {
  import opened Common
  import opened ConnLimit

  // ---------------------------------------------------------------- time

  function Nanos(t: Time): int {
    t.sec * 1_000_000_000 + t.nsec
  }

  // The nanoseconds do not borrow, or borrow whole milliseconds.
  predicate RoundsDown(now: Time, ts: Time) {
    now.nsec >= ts.nsec || (ts.nsec - now.nsec) % 1_000_000 == 0
  }

  // A measured lapse is no longer than the time that passed exactly if it rounds down, and otherwise too long by less
  // than a millisecond, and that only when the second has changed.
  lemma LapseBound(now: Time, ts: Time)
    requires Valid(now) && Valid(ts) && NotAfter(ts, now)
    ensures Lapse(now, ts) * 1_000_000 <= Nanos(now) - Nanos(ts) <==> RoundsDown(now, ts)
    ensures Lapse(now, ts) * 1_000_000 < Nanos(now) - Nanos(ts) + 1_000_000
    ensures Lapse(now, ts) * 1_000_000 <= Nanos(now) - Nanos(ts) + (now.sec - ts.sec) * 1_000_000
  {
    if now.nsec < ts.nsec {
      Borrow(ts.nsec - now.nsec);
    }
  }

  lemma Borrow(d: int)
    requires d > 0
    ensures var m := d / 1_000_000 * 1_000_000; m <= d < m + 1_000_000 && (m == d <==> d % 1_000_000 == 0)
  {
  }

  // The nanoseconds from one time to another; if not exact, with a millisecond more for every second that begins.
  function Spent(a: Time, b: Time, exact: bool): int {
    Nanos(b) - Nanos(a) + if exact then 0 else (b.sec - a.sec) * 1_000_000
  }

  lemma SpentGrows(a: Time, b: Time, c: Time, exact: bool)
    requires Valid(a) && Valid(b) && Valid(c) && NotAfter(a, b) && NotAfter(b, c)
    ensures 0 <= Spent(a, b, exact) <= Spent(a, c, exact)
  {
  }

  // A lapse that pays for something took at least that long.
  lemma SpentOn(from: Time, ts: Time, now: Time, lapse: int, exact: bool)
    requires Valid(ts) && Valid(now) && NotAfter(ts, now) && lapse <= Lapse(now, ts)
    requires exact ==> RoundsDown(now, ts)
    ensures Spent(from, ts, exact) + lapse * 1_000_000 <= Spent(from, now, exact)
  {
    LapseBound(now, ts);
  }

  // ---------------------------------------------------------------- what is accepted

  // How often a key was accepted, how often by a new burst after the first, and how often by the limit.
  datatype Ledger = Ledger(accepts: nat, again: nat, limited: nat)

  function Book(cfg: Config, l: Ledger, entry: Option<Item>, call: Call): Ledger {
    var r := Ruled(cfg, entry, call);
    if !r.accept then l
    else if entry.None? then l.(accepts := l.accepts + 1)
    else if call.lost || Age(call.now, entry.value.ts) >= cfg.burstTimeout then
      l.(accepts := l.accepts + 1, again := l.again + 1)
    else if entry.value.count + 1 < cfg.burst then l.(accepts := l.accepts + 1)
    else l.(accepts := l.accepts + 1, limited := l.limited + 1)
  }

  // The books of the key from call `n` on.
  function Books(cfg: Config, calls: seq<Call>, n: nat, key: nat): Ledger
    decreases |calls|
  {
    if |calls| <= n then Ledger(0, 0, 0)
    else
      var before, last := calls[..|calls| - 1], calls[|calls| - 1];
      if last.key != key then Books(cfg, before, n, key)
      else Book(cfg, Books(cfg, before, n, key), Entry(cfg, before, key), last)
  }

  // How many calls for the key the limiter accepts from call `n` on.
  function Accepts(cfg: Config, calls: seq<Call>, n: nat, key: nat): nat
    decreases |calls|
  {
    if |calls| <= n then 0
    else
      var before, last := calls[..|calls| - 1], calls[|calls| - 1];
      Accepts(cfg, before, n, key) + if last.key == key && Verdict(cfg, before, last) then 1 else 0
  }

  lemma {:induction false} BooksCount(cfg: Config, calls: seq<Call>, n: nat, key: nat)
    ensures Books(cfg, calls, n, key).accepts == Accepts(cfg, calls, n, key)
    decreases |calls|
  {
    if |calls| > n {
      BooksCount(cfg, calls[..|calls| - 1], n, key);
    }
  }

  lemma BooksNext(cfg: Config, calls: seq<Call>, call: Call, n: nat, key: nat)
    requires n <= |calls|
    ensures Books(cfg, calls + [call], n, key)
         == if key == call.key then Book(cfg, Books(cfg, calls, n, key), Entry(cfg, calls, key), call)
            else Books(cfg, calls, n, key)
  {
    assert (calls + [call])[..|calls|] == calls;
  }

  // ---------------------------------------------------------------- what is paid

  // A burst timeout for every new burst, a limit timeout for every accept by the limit.
  function Cost(cfg: Config, l: Ledger): nat {
    Times(l.again, cfg.burstTimeout) + Times(l.limited, cfg.limitTimeout)
  }

  // What the current burst may have let through.
  function Room(cfg: Config, count: nat): int {
    if count + 1 < cfg.burst then count + 1 else cfg.burst
  }

  ghost predicate Counted(cfg: Config, l: Ledger, it: Item)
    requires cfg.burst >= 1
  {
    l.accepts <= Times(l.again, cfg.burst) + Room(cfg, it.count) + l.limited
  }

  // The first call of a stretch that pays may pay with time from before the stretch.
  datatype Gift = Nothing | Burst | Limit

  predicate Given(l: Ledger, gift: Gift) {
    (gift.Burst? ==> l.again > 0) && (gift.Limit? ==> l.limited > 0)
  }

  function Less(l: Ledger, gift: Gift): Ledger
    requires Given(l, gift)
  {
    match gift
    case Nothing => l
    case Burst => l.(again := l.again - 1)
    case Limit => l.(limited := l.limited - 1)
  }

  // Everything but the gift was paid for with time since `from`.
  predicate Covered(cfg: Config, l: Ledger, it: Item, from: Time, exact: bool, gift: Gift) {
    NotAfter(from, it.ts) && Given(l, gift) && Cost(cfg, Less(l, gift)) * 1_000_000 <= Spent(from, it.ts, exact)
  }

  // Nothing has paid yet.
  predicate Untouched(l: Ledger, it: Item, from: Time) {
    l.again == 0 && l.limited == 0 && NotAfter(it.ts, from)
  }

  // A key that had a record before the stretch may have had a gift.
  ghost predicate Funded(cfg: Config, l: Ledger, it: Item, from: Time, known: bool, exact: bool) {
    if known then Untouched(l, it, from) || exists gift :: Covered(cfg, l, it, from, exact, gift)
    else Covered(cfg, l, it, from, exact, Nothing)
  }

  lemma CountedStep(cfg: Config, l: Ledger, it: Item, call: Call)
    requires cfg.burst >= 1 && Counted(cfg, l, it)
    ensures Counted(cfg, Book(cfg, l, Some(it), call), Ruled(cfg, Some(it), call).item)
  {
  }

  // What a call pays.
  function Price(cfg: Config, it: Item, call: Call): nat {
    if !Ruled(cfg, Some(it), call).moved then 0
    else if call.lost || Age(call.now, it.ts) >= cfg.burstTimeout then cfg.burstTimeout
    else cfg.limitTimeout
  }

  lemma BookCost(cfg: Config, l: Ledger, it: Item, call: Call, gift: Gift)
    requires Given(l, gift)
    ensures var next := Book(cfg, l, Some(it), call);
      Given(next, gift) && Cost(cfg, Less(next, gift)) == Cost(cfg, Less(l, gift)) + Price(cfg, it, call)
  {
  }

  // A call that pays, after one in the same stretch that has set the stamp.
  lemma CoveredStep(cfg: Config, l: Ledger, it: Item, from: Time, call: Call, exact: bool, gift: Gift)
    requires Covered(cfg, l, it, from, exact, gift)
    requires Valid(it.ts) && Valid(call.now) && NotAfter(it.ts, call.now)
    requires Age(call.now, it.ts) <= Lapse(call.now, it.ts)
    requires call.lost ==> Lapse(call.now, it.ts) > cfg.burstTimeout
    requires exact && Ruled(cfg, Some(it), call).moved ==> RoundsDown(call.now, it.ts)
    ensures Covered(cfg, Book(cfg, l, Some(it), call), Ruled(cfg, Some(it), call).item, from, exact, gift)
  {
    BookCost(cfg, l, it, call, gift);
    if Ruled(cfg, Some(it), call).moved {
      SpentOn(from, it.ts, call.now, Price(cfg, it, call), exact);
    }
  }

  // The first that pays in a stretch.
  lemma FirstStep(cfg: Config, l: Ledger, it: Item, from: Time, call: Call, exact: bool)
    requires Untouched(l, it, from) && Valid(from) && Valid(call.now) && NotAfter(from, call.now)
    ensures Funded(cfg, Book(cfg, l, Some(it), call), Ruled(cfg, Some(it), call).item, from, true, exact)
  {
    var r, next := Ruled(cfg, Some(it), call), Book(cfg, l, Some(it), call);
    if r.moved {
      SpentGrows(from, call.now, call.now, exact);
      var gift := if next.again > 0 then Burst else Limit;
      assert Covered(cfg, next, r.item, from, exact, gift);
    }
  }

  lemma FundedStep(cfg: Config, l: Ledger, it: Item, from: Time, call: Call, known: bool, exact: bool)
    requires Funded(cfg, l, it, from, known, exact)
    requires Valid(it.ts) && Valid(call.now) && Valid(from) && NotAfter(it.ts, call.now) && NotAfter(from, call.now)
    requires Age(call.now, it.ts) <= Lapse(call.now, it.ts)
    requires call.lost ==> Lapse(call.now, it.ts) > cfg.burstTimeout
    requires exact && Ruled(cfg, Some(it), call).moved ==> RoundsDown(call.now, it.ts)
    ensures Funded(cfg, Book(cfg, l, Some(it), call), Ruled(cfg, Some(it), call).item, from, known, exact)
  {
    if known && Untouched(l, it, from) {
      FirstStep(cfg, l, it, from, call, exact);
    } else if known {
      var gift :| Covered(cfg, l, it, from, exact, gift);
      CoveredStep(cfg, l, it, from, call, exact, gift);
    } else {
      CoveredStep(cfg, l, it, from, call, exact, Nothing);
    }
  }

  // ---------------------------------------------------------------- every run

  // Where a call pays, the measured lapse is no longer than the time that passed.
  predicate PaysExactly(cfg: Config, calls: seq<Call>, call: Call) {
    var entry := Entry(cfg, calls, call.key);
    entry.Some? && Ruled(cfg, entry, call).moved ==> RoundsDown(call.now, entry.value.ts)
  }

  ghost predicate PayExactlyFrom(cfg: Config, calls: seq<Call>, n: nat) {
    forall i :: n <= i < |calls| ==> PaysExactly(cfg, calls[..i], calls[i])
  }

  ghost predicate Proper(cfg: Config, calls: seq<Call>, n: nat, exact: bool) {
    Ordered(calls) && Honest(cfg, calls) && (exact ==> PayExactlyFrom(cfg, calls, n))
  }

  lemma Prefix(cfg: Config, calls: seq<Call>, call: Call, n: nat, exact: bool)
    requires n <= |calls| && Proper(cfg, calls + [call], n, exact)
    ensures Proper(cfg, calls, n, exact) && (exact ==> PaysExactly(cfg, calls, call))
    ensures call.lost ==> Outlived(cfg, calls, call)
  {
    var all := calls + [call];
    HonestNext(cfg, calls, call);
    assert all[..|calls|] == calls && all[|calls|] == call;
    forall i | 0 <= i < |calls| ensures all[i] == calls[i] && all[..i] == calls[..i] {
    }
  }

  ghost predicate FundedFor(cfg: Config, calls: seq<Call>, n: nat, key: nat, from: Time, known: bool, exact: bool)
    requires cfg.burst >= 1
  {
    var entry, l := Entry(cfg, calls, key), Books(cfg, calls, n, key);
    if entry.Some? then Counted(cfg, l, entry.value) && Funded(cfg, l, entry.value, from, known, exact)
    else l == Ledger(0, 0, 0)
  }

  lemma NewNext(cfg: Config, key: nat, now: Time, from: Time, known: bool, exact: bool)
    requires cfg.burst >= 1 && Valid(from) && Valid(now) && NotAfter(from, now)
    ensures Counted(cfg, Ledger(1, 0, 0), Item(key, now, 0))
    ensures Funded(cfg, Ledger(1, 0, 0), Item(key, now, 0), from, known, exact)
  {
    SpentGrows(from, now, now, exact);
    assert Covered(cfg, Ledger(1, 0, 0), Item(key, now, 0), from, exact, Nothing);
  }

  lemma KeyNext(cfg: Config, calls: seq<Call>, call: Call, n: nat, from: Time, known: bool, exact: bool)
    requires cfg.burst >= 1 && n <= |calls| && Proper(cfg, calls + [call], n, exact)
    requires Valid(from) && NotAfter(from, call.now)
    requires FundedFor(cfg, calls, n, call.key, from, known, exact)
    ensures FundedFor(cfg, calls + [call], n, call.key, from, known, exact)
  {
    EntryNext(cfg, calls, call, call.key);
    BooksNext(cfg, calls, call, n, call.key);
    var entry, l := Entry(cfg, calls, call.key), Books(cfg, calls, n, call.key);
    if entry.Some? {
      Prefix(cfg, calls, call, n, exact);
      AgeAtMost(cfg, calls, call, call.key);
      CountedStep(cfg, l, entry.value, call);
      FundedStep(cfg, l, entry.value, from, call, known, exact);
    } else {
      assert Valid((calls + [call])[|calls|].now);
      NewNext(cfg, call.key, call.now, from, known, exact);
    }
  }

  lemma OtherNext(cfg: Config, calls: seq<Call>, call: Call, n: nat, key: nat, from: Time, known: bool, exact: bool)
    requires cfg.burst >= 1 && n <= |calls| && key != call.key && FundedFor(cfg, calls, n, key, from, known, exact)
    ensures FundedFor(cfg, calls + [call], n, key, from, known, exact)
  {
    EntryNext(cfg, calls, call, key);
    BooksNext(cfg, calls, call, n, key);
  }

  // Before the stretch begins nothing is booked, and a record is no younger than the stretch.
  lemma FundedStart(cfg: Config, calls: seq<Call>, key: nat, from: Time, exact: bool)
    requires cfg.burst >= 1 && forall i :: 0 <= i < |calls| ==> NotAfter(calls[i].now, from)
    ensures FundedFor(cfg, calls, |calls|, key, from, Entry(cfg, calls, key).Some?, exact)
  {
    if Entry(cfg, calls, key).Some? {
      var i := StampIsCall(cfg, calls, key);
    }
  }

  // What is accepted from call `n` on has been paid for by the time since then, but for one gift.
  lemma {:induction false} FundedRun(cfg: Config, calls: seq<Call>, n: nat, key: nat, from: Time, exact: bool)
    requires cfg.burst >= 1 && n < |calls| && Proper(cfg, calls, n, exact) && from == calls[n].now
    ensures FundedFor(cfg, calls, n, key, from, Entry(cfg, calls[..n], key).Some?, exact)
    decreases |calls|
  {
    var before, last := calls[..|calls| - 1], calls[|calls| - 1];
    var known := Entry(cfg, calls[..n], key).Some?;
    assert calls == before + [last];
    Prefix(cfg, before, last, n, exact);
    if |before| == n {
      assert before == calls[..n];
      FundedStart(cfg, before, key, from, exact);
    } else {
      assert before[..n] == calls[..n];
      FundedRun(cfg, before, n, key, from, exact);
    }
    if last.key == key {
      KeyNext(cfg, before, last, n, from, known, exact);
    } else {
      OtherNext(cfg, before, last, n, key, from, known, exact);
    }
  }

  // The time from call `n` to the last, as the limiter pays for it, in nanoseconds.
  function Elapsed(calls: seq<Call>, n: nat, exact: bool): int
    requires n < |calls|
  {
    Spent(calls[n].now, calls[|calls| - 1].now, exact)
  }

  lemma PaidInTime(cfg: Config, calls: seq<Call>, n: nat, key: nat, exact: bool) returns (gift: Gift)
    requires cfg.burst >= 1 && n < |calls| && Proper(cfg, calls, n, exact)
    ensures var l := Books(cfg, calls, n, key);
      && l.accepts <= Times(l.again, cfg.burst) + cfg.burst + l.limited
      && Given(l, gift) && (Entry(cfg, calls[..n], key).None? ==> gift.Nothing?)
      && Cost(cfg, Less(l, gift)) * 1_000_000 <= Elapsed(calls, n, exact)
  {
    var from, to := calls[n].now, calls[|calls| - 1].now;
    var l, entry := Books(cfg, calls, n, key), Entry(cfg, calls, key);
    FundedRun(cfg, calls, n, key, from, exact);
    assert Valid(from) && Valid(to) && NotAfter(from, to);
    SpentGrows(from, to, to, exact);
    gift := Nothing;
    if entry.Some? && !(Untouched(l, entry.value, from)) {
      if Entry(cfg, calls[..n], key).Some? {
        gift :| Covered(cfg, l, entry.value, from, exact, gift);
      }
      var i := StampIsCall(cfg, calls, key);
      assert NotAfter(calls[i].now, to);
      SpentGrows(from, calls[i].now, to, exact);
    }
  }

  // ---------------------------------------------------------------- the bound

  lemma RealQuotient(n: real, t: real, x: real)
    requires t > 0.0 && n * t <= x
    ensures n <= x / t
  {
    assert (x / t) * t == x;
  }

  lemma Quotient(n: nat, t: nat, x: real)
    requires t > 0 && Times(n, t) as real <= x
    ensures n as real <= x / t as real
  {
    RealTimes(n, t);
    RealQuotient(n as real, t as real, x);
  }

  lemma RealProduct(g: real, a: real, k: real, product: real)
    requires g <= a && k >= 0.0 && product == g * k
    ensures k + product <= k * (1.0 + a)
  {
    assert k * (1.0 + a) == k + a * k;
    assert (a - g) * k >= 0.0;
  }

  lemma RealTimes(n: nat, k: nat)
    ensures Times(n, k) as real == n as real * k as real
  {
    TimesIs(n, k);
    assert (n * k) as real == n as real * k as real;
  }

  lemma RealSum(accepts: nat, paid: nat, burst: nat, limited: nat, p: real, b: real)
    requires accepts <= paid + burst + limited && burst as real + paid as real <= p && limited as real <= b
    ensures accepts as real <= p + b
  {
    assert accepts as real <= (paid + burst + limited) as real;
  }

  lemma RateSum(accepts: nat, again: nat, limited: nat, burst: nat, a: real, b: real)
    requires accepts <= Times(again, burst) + burst + limited
    requires again as real <= a && limited as real <= b
    ensures accepts as real <= burst as real * (1.0 + a) + b
  {
    RealTimes(again, burst);
    RealProduct(again as real, a, burst as real, Times(again, burst) as real);
    RealSum(accepts, Times(again, burst), burst, limited, burst as real * (1.0 + a), b);
  }

  // B (m + X/T) + X/L
  function Bound(cfg: Config, m: nat, x: real): real
    requires cfg.burstTimeout >= 1 && cfg.limitTimeout >= 1
  {
    cfg.burst as real * (m as real + x / cfg.burstTimeout as real) + x / cfg.limitTimeout as real
  }

  // With the first burst for nothing.
  lemma LedgerBound(cfg: Config, l: Ledger, x: real)
    requires cfg.burst >= 1 && cfg.burstTimeout >= 1 && cfg.limitTimeout >= 1
    requires l.accepts <= Times(l.again, cfg.burst) + cfg.burst + l.limited
    requires Times(l.again, cfg.burstTimeout) as real <= x && Times(l.limited, cfg.limitTimeout) as real <= x
    ensures l.accepts as real <= Bound(cfg, 1, x)
  {
    var a, b := x / cfg.burstTimeout as real, x / cfg.limitTimeout as real;
    assert l.again as real <= a by { Quotient(l.again, cfg.burstTimeout, x); }
    assert l.limited as real <= b by { Quotient(l.limited, cfg.limitTimeout, x); }
    RateSum(l.accepts, l.again, l.limited, cfg.burst, a, b);
  }

  lemma OneMore(cfg: Config, x: real)
    requires cfg.burst >= 1 && cfg.burstTimeout >= 1 && cfg.limitTimeout >= 1
    ensures Bound(cfg, 2, x) == Bound(cfg, 1, x) + cfg.burst as real
  {
    var k, a := cfg.burst as real, x / cfg.burstTimeout as real;
    assert k * (2.0 + a) == k * (1.0 + a) + k;
  }

  // What a gift lets through is one burst at most.
  lemma GiftBound(cfg: Config, l: Ledger, gift: Gift, x: real)
    requires cfg.burst >= 1 && cfg.burstTimeout >= 1 && cfg.limitTimeout >= 1 && Given(l, gift)
    requires l.accepts <= Times(l.again, cfg.burst) + cfg.burst + l.limited
    requires Times(Less(l, gift).again, cfg.burstTimeout) as real <= x
    requires Times(Less(l, gift).limited, cfg.limitTimeout) as real <= x
    ensures l.accepts as real <= Bound(cfg, if gift.Nothing? then 1 else 2, x)
  {
    var less := Less(l, gift);
    if gift.Nothing? {
      LedgerBound(cfg, l, x);
    } else {
      var rest := if l.accepts < cfg.burst then 0 else l.accepts - cfg.burst;
      LedgerBound(cfg, less.(accepts := rest), x);
      OneMore(cfg, x);
    }
  }

  // Nanoseconds in milliseconds.
  function InMillis(ns: int): real {
    ns as real / 1_000_000.0
  }

  lemma InMillisBound(n: int, ns: int)
    requires n * 1_000_000 <= ns
    ensures n as real <= InMillis(ns)
  {
    assert (n * 1_000_000) as real <= ns as real;
  }

  // From any call of a run to any later one, for burst B, limit L and timeout T, the accepts of one key over X
  // milliseconds are at most B (2 + X/T) + X/L, and at most B (1 + X/T) + X/L if the key had no record before.  X
  // counts one millisecond more for every second that begins in it; it is the time itself if every call that pays is
  // measured no longer than it took.
  lemma Rate(cfg: Config, calls: seq<Call>, n: nat, key: nat, exact: bool)
    requires cfg.burst >= 1 && cfg.burstTimeout >= 1 && cfg.limitTimeout >= 1
    requires n < |calls| && Proper(cfg, calls, n, exact)
    ensures var m := if Entry(cfg, calls[..n], key).Some? then 2 else 1;
      Accepts(cfg, calls, n, key) as real <= Bound(cfg, m, InMillis(Elapsed(calls, n, exact)))
  {
    BooksCount(cfg, calls, n, key);
    var gift := PaidInTime(cfg, calls, n, key, exact);
    var l, x := Books(cfg, calls, n, key), Elapsed(calls, n, exact);
    InMillisBound(Times(Less(l, gift).again, cfg.burstTimeout), x);
    InMillisBound(Times(Less(l, gift).limited, cfg.limitTimeout), x);
    GiftBound(cfg, l, gift, InMillis(x));
    OneMore(cfg, InMillis(x));
  }

  // ---------------------------------------------------------------- and no better

  // The record after one more call of its key, and what the call adds to the accepts.
  lemma OneCall(cfg: Config, calls: seq<Call>, n: nat, call: Call, r: Ruling)
    requires n <= |calls| && r == Ruled(cfg, Entry(cfg, calls, call.key), call)
    ensures Entry(cfg, calls + [call], call.key) == Some(r.item)
    ensures Accepts(cfg, calls + [call], n, call.key)
         == Accepts(cfg, calls, n, call.key) + if r.accept then 1 else 0
  {
    EntryNext(cfg, calls, call, call.key);
    assert (calls + [call])[..|calls|] == calls;
  }

  // Seconds and nanoseconds are rounded apart, so half a millisecond can pay for a whole one: with B = L = 1 and
  // T = 1000000 two calls half a millisecond apart are both accepted.
  lemma HalfAMillisecond(cfg: Config, a: Call, b: Call)
    requires cfg == Config(1, 1_000_000, 1)
    requires a == Call(0, Time(0, 999_500_000), false) && b == Call(0, Time(1, 0), false)
    ensures Ordered([a, b]) && Honest(cfg, [a, b]) && Accepts(cfg, [a, b], 0, 0) == 2
    ensures 2.0 > Bound(cfg, 1, InMillis(Elapsed([a, b], 0, true)))
  {
    OneCall(cfg, [], 0, a, Ruling(Item(0, a.now, 0), true, true));
    assert [] + [a] == [a] && [a] + [b] == [a, b];
    HalfLapse();
    OneCall(cfg, [a], 0, b, Ruling(Item(0, b.now, 1), true, true));
    assert Elapsed([a, b], 0, true) == 500_000;
  }

  lemma HalfLapse()
    ensures Age(Time(1, 0), Time(0, 999_500_000)) == 1
  {
  }

  // A stretch that begins late in a burst and runs into the next: with B = 3, T = 60000 and L = 5000, one call, two
  // more just before the timeout and three at the timeout are all accepted, five of them within a millisecond.
  lemma TwoBursts(cfg: Config, a: Call, b: Call, c: Call, n: nat, one: seq<Call>, three: seq<Call>, six: seq<Call>)
    requires cfg == Config(3, 60_000, 5_000) && n == 1
    requires a == Call(0, Time(0, 0), false) && b == Call(0, Time(59, 999_000_000), false)
    requires c == Call(0, Time(60, 0), false)
    requires one == [a] && three == one + [b] + [b] && six == three + [c] + [c] + [c]
    ensures Ordered(six) && Accepts(cfg, six, n, c.key) == 5
    ensures 5.0 > Bound(cfg, 1, InMillis(Elapsed(six, n, true)))
  {
    assert Accepts(cfg, six, n, c.key) == 5 by {
      TwoLapses();
      FirstRecord(cfg, a);
      TwoAccepts(cfg, a.now, b, c, n, one, three, six);
    }
    TwoOrder(a, b, c, six);
    TwoBound(cfg);
  }

  lemma TwoOrder(a: Call, b: Call, c: Call, six: seq<Call>)
    requires a.now == Time(0, 0) && b.now == Time(59, 999_000_000) && c.now == Time(60, 0)
    requires six == [a] + [b] + [b] + [c] + [c] + [c]
    ensures Ordered(six) && Elapsed(six, 1, true) == 1_000_000
  {
    assert six == [a, b, b, c, c, c];
  }

  lemma TwoBound(cfg: Config)
    requires cfg == Config(3, 60_000, 5_000)
    ensures 5.0 > Bound(cfg, 1, InMillis(1_000_000))
  {
  }

  lemma TwoLapses()
    ensures Age(Time(59, 999_000_000), Time(0, 0)) == 59_999 && Age(Time(60, 0), Time(0, 0)) == 60_000
    ensures Age(Time(60, 0), Time(60, 0)) == 0
  {
  }

  lemma FirstRecord(cfg: Config, a: Call)
    requires !a.lost
    ensures Entry(cfg, [a], a.key) == Some(Item(a.key, a.now, 0))
  {
    EntryNext(cfg, [], a, a.key);
    assert [] + [a] == [a];
  }

  // The rest of one burst and the whole of the next.
  lemma TwoAccepts(cfg: Config, ts: Time, b: Call, c: Call, n: nat, one: seq<Call>, three: seq<Call>, six: seq<Call>)
    requires cfg.burst == 3 && |one| == n && !b.lost && !c.lost && b.key == c.key
    requires Entry(cfg, one, b.key) == Some(Item(b.key, ts, 0))
    requires Age(b.now, ts) < cfg.burstTimeout <= Age(c.now, ts) && Age(c.now, c.now) < cfg.burstTimeout
    requires three == one + [b] + [b] && six == three + [c] + [c] + [c]
    ensures Accepts(cfg, six, n, b.key) == 5
  {
    LateCalls(cfg, ts, one, n, b, three);
    NextBurst(cfg, ts, three, n, c, six);
  }

  lemma LateCalls(cfg: Config, ts: Time, calls: seq<Call>, n: nat, b: Call, three: seq<Call>)
    requires cfg.burst == 3 && |calls| == n && three == calls + [b] + [b] && !b.lost
    requires Entry(cfg, calls, b.key) == Some(Item(b.key, ts, 0)) && Age(b.now, ts) < cfg.burstTimeout
    ensures Entry(cfg, three, b.key) == Some(Item(b.key, ts, 2)) && Accepts(cfg, three, n, b.key) == 2
  {
    OneCall(cfg, calls, n, b, Ruling(Item(b.key, ts, 1), true, false));
    OneCall(cfg, calls + [b], n, b, Ruling(Item(b.key, ts, 2), true, false));
  }

  lemma NextBurst(cfg: Config, ts: Time, calls: seq<Call>, n: nat, c: Call, six: seq<Call>)
    requires cfg.burst == 3 && n <= |calls| && six == calls + [c] + [c] + [c] && !c.lost
    requires Entry(cfg, calls, c.key) == Some(Item(c.key, ts, 2)) && Age(c.now, ts) >= cfg.burstTimeout
    requires Age(c.now, c.now) < cfg.burstTimeout
    ensures Accepts(cfg, six, n, c.key) == Accepts(cfg, calls, n, c.key) + 3
  {
    OneCall(cfg, calls, n, c, Ruling(Item(c.key, c.now, 0), true, true));
    OneCall(cfg, calls + [c], n, c, Ruling(Item(c.key, c.now, 1), true, false));
    OneCall(cfg, calls + [c] + [c], n, c, Ruling(Item(c.key, c.now, 2), true, false));
  }
}
