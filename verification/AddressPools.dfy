// Taking addresses out of a chain of pools and giving them back.  A search locks one pool at a time, so the
// searches and releases of different sessions interleave between the visits.

module AddressPools {
  import opened Common

  type Pid = nat
  type Iid = nat
  type Sid = nat

  // The chain of pools, and the pool every item was generated for.
  datatype Layout = Layout(next: map<Pid, Option<Pid>>, home: map<Iid, Pid>)

  datatype Place =
    | Free
    | Searching(start: Pid, at: Pid, seen: seq<Pid>)   // `seen` were empty when visited
    | Holding(item: Iid)
    | Failed(start: Pid, seen: seq<Pid>)
    | Closed

  datatype Ses = Ses(place: Place, finishStarted: bool, returned: nat)

  datatype State = State(pools: map<Pid, seq<Iid>>, ses: map<Sid, Ses>)

  datatype Step = Begin(s: Sid, start: Pid) | Visit(s: Sid) | Finish(s: Sid)

  function Put(st: State, p: Pid, items: seq<Iid>, s: Sid, x: Ses): State {
    State(st.pools[p := items], st.ses[s := x])
  }

  // The first item of the pool, or on to the next pool, or failure at the end of the chain or back at its start.
  function Visited(lay: Layout, st: State, s: Sid): State
    requires s in st.ses && st.ses[s].place.Searching? && st.ses[s].place.at in st.pools
  {
    var x := st.ses[s];
    var Searching(start, at, seen) := x.place;
    var items := st.pools[at];
    if items != [] then Put(st, at, items[1..], s, x.(place := Holding(items[0])))
    else
      var onward := if at in lay.next then lay.next[at] else None;
      var place := if onward.Some? && onward.value != start then Searching(start, onward.value, seen + [at])
                   else Failed(start, seen + [at]);
      State(st.pools, st.ses[s := x.(place := place)])
  }

  // Only the first finish gives the address back, to the pool it came from.
  function Finished(lay: Layout, st: State, s: Sid): State
    requires s in st.ses
  {
    var x := st.ses[s];
    if x.finishStarted then st
    else if x.place.Holding? && x.place.item in lay.home && lay.home[x.place.item] in st.pools then
      var p := lay.home[x.place.item];
      Put(st, p, st.pools[p] + [x.place.item], s, Ses(Closed, true, x.returned + 1))
    else State(st.pools, st.ses[s := Ses(Closed, true, x.returned)])
  }

  // A step that cannot be taken changes nothing.
  function Next(lay: Layout, st: State, step: Step): State {
    match step
    case Begin(s, start) =>
      if s !in st.ses && start in st.pools then
        State(st.pools, st.ses[s := Ses(Searching(start, start, []), false, 0)])
      else st
    case Visit(s) =>
      if s in st.ses && st.ses[s].place.Searching? && st.ses[s].place.at in st.pools then Visited(lay, st, s) else st
    case Finish(s) =>
      if s in st.ses && !st.ses[s].place.Searching? then Finished(lay, st, s) else st
  }

  function Run(lay: Layout, start: State, steps: seq<Step>): State
    decreases |steps|
  {
    if steps == [] then start else Next(lay, Run(lay, start, steps[..|steps| - 1]), steps[|steps| - 1])
  }

  // ---------------------------------------------------------------- conservation

  predicate Holds(st: State, s: Sid, x: Iid) {
    s in st.ses && st.ses[s].place == Holding(x)
  }

  predicate InPool(st: State, p: Pid, x: Iid) {
    p in st.pools && x in st.pools[p]
  }

  // Every pool holds its own items, each once.
  ghost predicate AtHome(lay: Layout, st: State) {
    && (forall x :: x in lay.home ==> lay.home[x] in st.pools)
    && (forall p :: p in st.pools ==> Distinct(st.pools[p]))
    && (forall p, x :: InPool(st, p, x) ==> x in lay.home && lay.home[x] == p)
  }

  // A held item is held by one session and lies in no pool.
  ghost predicate HeldOnce(lay: Layout, st: State) {
    && (forall s, x :: Holds(st, s, x) ==> x in lay.home && !InPool(st, lay.home[x], x))
    && (forall s, t, x :: Holds(st, s, x) && Holds(st, t, x) ==> s == t)
  }

  ghost predicate Placed(lay: Layout, st: State, x: Iid)
    requires x in lay.home
  {
    InPool(st, lay.home[x], x) || exists s :: Holds(st, s, x)
  }

  ghost predicate NoneLost(lay: Layout, st: State) {
    forall x :: x in lay.home ==> Placed(lay, st, x)
  }

  // An address is given back at most once, and only by the finish that holds the guard.
  predicate GivenOnce(st: State) {
    forall s :: s in st.ses ==>
      && st.ses[s].returned <= (if st.ses[s].finishStarted then 1 else 0)
      && (st.ses[s].finishStarted ==> st.ses[s].place.Closed?)
  }

  ghost predicate Conserved(lay: Layout, st: State) {
    AtHome(lay, st) && HeldOnce(lay, st) && NoneLost(lay, st) && GivenOnce(st)
  }

  lemma SameItems(lay: Layout, st: State, next: State)
    requires Conserved(lay, st) && next.pools == st.pools && GivenOnce(next)
    requires forall s, x :: Holds(next, s, x) <==> Holds(st, s, x)
    ensures Conserved(lay, next)
  {
    assert forall p, x :: InPool(next, p, x) <==> InPool(st, p, x);
    forall x | x in lay.home ensures Placed(lay, next, x) {
      assert Placed(lay, st, x);
      if !InPool(st, lay.home[x], x) {
        var s :| Holds(st, s, x);
        assert Holds(next, s, x);
      }
    }
  }

  lemma TailMembers(items: seq<Iid>)
    requires items != [] && Distinct(items)
    ensures forall y :: y in items[1..] <==> y in items && y != items[0]
  {
    assert items == [items[0]] + items[1..];
    assert forall i :: 0 < i < |items| ==> items[i] != items[0];
  }

  // The head of a pool goes to the session.
  lemma TakeConserves(lay: Layout, st: State, s: Sid, p: Pid, x: Ses)
    requires Conserved(lay, st) && p in st.pools && st.pools[p] != [] && s in st.ses && !st.ses[s].place.Holding?
    requires x == st.ses[s].(place := Holding(st.pools[p][0])) && !x.finishStarted
    ensures Conserved(lay, Put(st, p, st.pools[p][1..], s, x))
  {
    var next := Put(st, p, st.pools[p][1..], s, x);
    var item := st.pools[p][0];
    assert st.pools[p] == [item] + st.pools[p][1..];
    assert InPool(st, p, item);
    TailMembers(st.pools[p]);
    assert forall q, y :: InPool(next, q, y) <==> InPool(st, q, y) && y != item;
    assert forall t, y :: Holds(next, t, y) <==> (Holds(st, t, y) || (t == s && y == item));
    TakeNoneLost(lay, st, s, p, x);
  }

  lemma TakeNoneLost(lay: Layout, st: State, s: Sid, p: Pid, x: Ses)
    requires Conserved(lay, st) && p in st.pools && st.pools[p] != [] && s in st.ses && !st.ses[s].place.Holding?
    requires x == st.ses[s].(place := Holding(st.pools[p][0]))
    ensures NoneLost(lay, Put(st, p, st.pools[p][1..], s, x))
  {
    var next := Put(st, p, st.pools[p][1..], s, x);
    var item := st.pools[p][0];
    assert st.pools[p] == [item] + st.pools[p][1..];
    forall y | y in lay.home ensures Placed(lay, next, y) {
      assert Placed(lay, st, y);
      if y == item {
        assert Holds(next, s, y);
      } else if InPool(st, lay.home[y], y) {
        assert InPool(next, lay.home[y], y);
      } else {
        var t :| Holds(st, t, y);
        assert Holds(next, t, y);
      }
    }
  }

  // The item goes back to the end of its own pool.
  lemma GiveConserves(lay: Layout, st: State, s: Sid, item: Iid, x: Ses)
    requires Conserved(lay, st) && Holds(st, s, item) && lay.home[item] in st.pools
    requires x == Ses(Closed, true, st.ses[s].returned + 1) && !st.ses[s].finishStarted
    ensures Conserved(lay, Put(st, lay.home[item], st.pools[lay.home[item]] + [item], s, x))
  {
    var p := lay.home[item];
    var next := Put(st, p, st.pools[p] + [item], s, x);
    assert forall q, y :: InPool(next, q, y) <==> (InPool(st, q, y) || (q == p && y == item));
    assert forall t, y :: Holds(next, t, y) <==> Holds(st, t, y) && t != s;
    assert !InPool(st, p, item);
    forall y | y in lay.home ensures Placed(lay, next, y) {
      assert Placed(lay, st, y);
      if y != item && !InPool(st, lay.home[y], y) {
        var t :| Holds(st, t, y);
        assert Holds(next, t, y);
      }
    }
  }

  lemma VisitConserves(lay: Layout, st: State, step: Step)
    requires Conserved(lay, st) && step.Visit?
    ensures Conserved(lay, Next(lay, st, step))
  {
    var next := Next(lay, st, step);
    if next != st && st.pools[st.ses[step.s].place.at] != [] {
      var p := st.ses[step.s].place.at;
      TakeConserves(lay, st, step.s, p, st.ses[step.s].(place := Holding(st.pools[p][0])));
    } else {
      SameItems(lay, st, next);
    }
  }

  lemma NextConserves(lay: Layout, st: State, step: Step)
    requires Conserved(lay, st)
    ensures Conserved(lay, Next(lay, st, step))
  {
    var next := Next(lay, st, step);
    if step.Visit? {
      VisitConserves(lay, st, step);
    } else if step.Finish? && next != st && st.ses[step.s].place.Holding? {
      var item := st.ses[step.s].place.item;
      assert Holds(st, step.s, item);
      GiveConserves(lay, st, step.s, item, Ses(Closed, true, st.ses[step.s].returned + 1));
    } else {
      SameItems(lay, st, next);
    }
  }

  // In every interleaving each generated item lies once in its own pool or is held by one session, and no session
  // gives its address back twice.
  lemma {:induction false} AlwaysConserved(lay: Layout, start: State, steps: seq<Step>)
    requires Conserved(lay, start)
    ensures Conserved(lay, Run(lay, start, steps))
    decreases |steps|
  {
    if steps != [] {
      AlwaysConserved(lay, start, steps[..|steps| - 1]);
      NextConserves(lay, Run(lay, start, steps[..|steps| - 1]), steps[|steps| - 1]);
    }
  }

  // ---------------------------------------------------------------- the order

  // The item that a step takes out of a pool, and the one it brings to a pool, as the session that moves shows it.
  function TakenBy(st: State, next: State, step: Step, p: Pid): seq<Iid> {
    if step.Visit? && step.s in st.ses && step.s in next.ses && st.ses[step.s].place.Searching?
       && st.ses[step.s].place.at == p && next.ses[step.s].place.Holding? then [next.ses[step.s].place.item]
    else []
  }

  function GivenBy(lay: Layout, st: State, next: State, step: Step, p: Pid): seq<Iid> {
    if step.Finish? && step.s in st.ses && step.s in next.ses && st.ses[step.s].place.Holding?
       && next.ses[step.s].place.Closed?
       && st.ses[step.s].place.item in lay.home && lay.home[st.ses[step.s].place.item] == p
    then [st.ses[step.s].place.item]
    else []
  }

  // All that a run takes out of a pool, and all that it brings there, in order.
  function TakenFrom(lay: Layout, start: State, steps: seq<Step>, p: Pid): seq<Iid>
    decreases |steps|
  {
    if steps == [] then []
    else
      var before, last := steps[..|steps| - 1], steps[|steps| - 1];
      TakenFrom(lay, start, before, p) + TakenBy(Run(lay, start, before), Run(lay, start, steps), last, p)
  }

  function GivenTo(lay: Layout, start: State, steps: seq<Step>, p: Pid): seq<Iid>
    decreases |steps|
  {
    if steps == [] then []
    else
      var before, last := steps[..|steps| - 1], steps[|steps| - 1];
      GivenTo(lay, start, before, p) + GivenBy(lay, Run(lay, start, before), Run(lay, start, steps), last, p)
  }

  lemma NextQueues(lay: Layout, st: State, step: Step, p: Pid)
    requires p in st.pools
    ensures var next := Next(lay, st, step);
      p in next.pools && st.pools[p] + GivenBy(lay, st, next, step, p) == TakenBy(st, next, step, p) + next.pools[p]
  {
    var next := Next(lay, st, step);
    if TakenBy(st, next, step, p) != [] {
      assert st.pools[p] == [st.pools[p][0]] + st.pools[p][1..];
    }
    assert [] + next.pools[p] == next.pools[p] && st.pools[p] + [] == st.pools[p];
  }

  // A pool hands its items out in the order in which they were generated or given back.
  lemma {:induction false} FirstInFirstOut(lay: Layout, start: State, steps: seq<Step>, p: Pid)
    requires p in start.pools
    ensures p in Run(lay, start, steps).pools
    ensures start.pools[p] + GivenTo(lay, start, steps, p)
         == TakenFrom(lay, start, steps, p) + Run(lay, start, steps).pools[p]
    decreases |steps|
  {
    if steps != [] {
      var before, last := steps[..|steps| - 1], steps[|steps| - 1];
      FirstInFirstOut(lay, start, before, p);
      var st, next := Run(lay, start, before), Run(lay, start, steps);
      NextQueues(lay, st, last, p);
      Requeued(start.pools[p], GivenTo(lay, start, before, p), TakenFrom(lay, start, before, p), st.pools[p],
               GivenBy(lay, st, next, last, p), TakenBy(st, next, last, p), next.pools[p]);
    }
  }

  lemma Requeued(first: seq<Iid>, given: seq<Iid>, taken: seq<Iid>, now: seq<Iid>, g: seq<Iid>, t: seq<Iid>,
                 after: seq<Iid>)
    requires first + given == taken + now && now + g == t + after
    ensures first + (given + g) == taken + t + after
  {
    calc {
      first + (given + g);
      (first + given) + g;
      taken + (now + g);
      taken + t + after;
    }
  }

  // ---------------------------------------------------------------- the search

  predicate Follows(lay: Layout, p: Pid, q: Pid) {
    p in lay.next && lay.next[p] == Some(q)
  }

  predicate Joined(lay: Layout, start: Pid, path: seq<Pid>, i: nat)
    requires i + 1 < |path|
  {
    Follows(lay, path[i], path[i + 1]) && path[i + 1] != start
  }

  // The pools a search walks through, which ends when it is back at its start.
  predicate Path(lay: Layout, start: Pid, path: seq<Pid>) {
    && |path| >= 1 && path[0] == start
    && (forall i :: 0 <= i < |path| - 1 ==> Joined(lay, start, path, i))
  }

  // There is no pool after the last, or it is the one the search began with.
  predicate AtEnd(lay: Layout, start: Pid, last: Pid) {
    last in lay.next ==> lay.next[last] == None || lay.next[last] == Some(start)
  }

  predicate Whole(lay: Layout, start: Pid, path: seq<Pid>) {
    Path(lay, start, path) && AtEnd(lay, start, path[|path| - 1])
  }

  predicate SearchesWell(lay: Layout, place: Place) {
    match place
    case Searching(start, at, seen) => Path(lay, start, seen + [at])
    case Failed(start, seen) => Whole(lay, start, seen)
    case _ => true
  }

  predicate AllSearchWell(lay: Layout, st: State) {
    forall s :: s in st.ses ==> SearchesWell(lay, st.ses[s].place)
  }

  lemma PathOn(lay: Layout, start: Pid, path: seq<Pid>, q: Pid)
    requires Path(lay, start, path) && Follows(lay, path[|path| - 1], q) && q != start
    ensures Path(lay, start, path + [q])
  {
    var on := path + [q];
    forall i | 0 <= i < |on| - 1 ensures Joined(lay, start, on, i) {
      if i < |path| - 1 {
        assert Joined(lay, start, path, i);
      }
    }
  }

  lemma NextSearchesWell(lay: Layout, st: State, step: Step)
    requires AllSearchWell(lay, st)
    ensures AllSearchWell(lay, Next(lay, st, step))
  {
    if step.Visit? && step.s in st.ses && st.ses[step.s].place.Searching? {
      var Searching(start, at, seen) := st.ses[step.s].place;
      if at in lay.next && lay.next[at].Some? && lay.next[at].value != start {
        PathOn(lay, start, seen + [at], lay.next[at].value);
      }
    }
  }

  lemma {:induction false} AlwaysSearchWell(lay: Layout, start: State, steps: seq<Step>)
    requires AllSearchWell(lay, start)
    ensures AllSearchWell(lay, Run(lay, start, steps))
    decreases |steps|
  {
    if steps != [] {
      AlwaysSearchWell(lay, start, steps[..|steps| - 1]);
      NextSearchesWell(lay, Run(lay, start, steps[..|steps| - 1]), steps[|steps| - 1]);
    }
  }

  // At step `k` the session visits the pool and finds it empty.
  predicate FoundEmptyAt(lay: Layout, start: State, steps: seq<Step>, s: Sid, p: Pid, k: nat) {
    && k < |steps| && steps[k] == Visit(s)
    && var st := Run(lay, start, steps[..k]);
       s in st.ses && st.ses[s].place.Searching? && st.ses[s].place.at == p && p in st.pools && st.pools[p] == []
  }

  ghost predicate FoundEmpty(lay: Layout, start: State, steps: seq<Step>, s: Sid, p: Pid) {
    exists k: nat :: FoundEmptyAt(lay, start, steps, s, p, k)
  }

  // The pools a session has given up so far.
  function GivenUp(place: Place): seq<Pid> {
    if place.Searching? || place.Failed? then place.seen else []
  }

  ghost predicate AllFoundEmpty(lay: Layout, start: State, steps: seq<Step>, s: Sid, seen: seq<Pid>) {
    forall i :: 0 <= i < |seen| ==> FoundEmpty(lay, start, steps, s, seen[i])
  }

  lemma FoundEmptyStays(lay: Layout, start: State, steps: seq<Step>, step: Step, s: Sid, p: Pid)
    requires FoundEmpty(lay, start, steps, s, p)
    ensures FoundEmpty(lay, start, steps + [step], s, p)
  {
    var k: nat :| FoundEmptyAt(lay, start, steps, s, p, k);
    assert (steps + [step])[..k] == steps[..k];
    assert FoundEmptyAt(lay, start, steps + [step], s, p, k);
  }

  // One step of a run adds to what a session has given up at most the pool it visits and finds empty.
  lemma GivesUp(lay: Layout, st: State, step: Step, s: Sid)
    requires s in Next(lay, st, step).ses
    ensures var before := if s in st.ses then GivenUp(st.ses[s].place) else [];
      var after := GivenUp(Next(lay, st, step).ses[s].place);
      || after == before || after == []
      || (&& step == Visit(s) && s in st.ses && st.ses[s].place.Searching? && st.ses[s].place.at in st.pools
          && st.pools[st.ses[s].place.at] == [] && after == before + [st.ses[s].place.at])
  {
  }

  lemma NextFoundEmpty(lay: Layout, start: State, steps: seq<Step>, step: Step, s: Sid)
    requires s in Next(lay, Run(lay, start, steps), step).ses
    requires s in Run(lay, start, steps).ses ==>
      AllFoundEmpty(lay, start, steps, s, GivenUp(Run(lay, start, steps).ses[s].place))
    ensures AllFoundEmpty(lay, start, steps + [step], s, GivenUp(Next(lay, Run(lay, start, steps), step).ses[s].place))
  {
    var st := Run(lay, start, steps);
    GivesUp(lay, st, step, s);
    var before := if s in st.ses then GivenUp(st.ses[s].place) else [];
    var after := GivenUp(Next(lay, st, step).ses[s].place);
    forall i | 0 <= i < |after| ensures FoundEmpty(lay, start, steps + [step], s, after[i]) {
      if i < |before| {
        FoundEmptyStays(lay, start, steps, step, s, before[i]);
      } else {
        assert (steps + [step])[..|steps|] == steps;
        assert FoundEmptyAt(lay, start, steps + [step], s, after[i], |steps|);
      }
    }
  }

  // No search has begun.
  predicate NoneSearched(st: State) {
    forall s :: s in st.ses ==> !st.ses[s].place.Searching? && !st.ses[s].place.Failed?
  }

  // In every run a search has given up only pools that it visited itself and found empty.
  lemma {:induction false} SeenWasEmpty(lay: Layout, start: State, steps: seq<Step>, s: Sid)
    requires NoneSearched(start) && s in Run(lay, start, steps).ses
    ensures AllFoundEmpty(lay, start, steps, s, GivenUp(Run(lay, start, steps).ses[s].place))
    decreases |steps|
  {
    if steps != [] {
      var before, last := steps[..|steps| - 1], steps[|steps| - 1];
      assert steps == before + [last];
      if s in Run(lay, start, before).ses {
        SeenWasEmpty(lay, start, before, s);
      }
      NextFoundEmpty(lay, start, before, last, s);
    }
  }

  // Every path from the start is the beginning of the whole one: a search neither leaves the chain nor runs on.
  lemma {:induction false} PathIsPrefix(lay: Layout, start: Pid, path: seq<Pid>, whole: seq<Pid>)
    requires Path(lay, start, path) && Whole(lay, start, whole)
    ensures path <= whole
  {
    if |path| > 1 {
      var before := path[..|path| - 1];
      forall i | 0 <= i < |before| - 1 ensures Joined(lay, start, before, i) {
        assert Joined(lay, start, path, i);
      }
      PathIsPrefix(lay, start, before, whole);
      var i := |before| - 1;
      assert path[i] == before[i] == whole[i];
      assert Joined(lay, start, path, i);
      assert |before| < |whole|;
      assert Joined(lay, start, whole, i);
      assert path == before + [path[|path| - 1]];
    }
  }

  // From two equal places the path goes on alike.
  lemma {:induction false} SameAhead(lay: Layout, start: Pid, path: seq<Pid>, i: nat, j: nat, n: nat)
    requires Path(lay, start, path) && i < j && j + n < |path| && path[i] == path[j]
    ensures path[i + n] == path[j + n]
  {
    if n > 0 {
      SameAhead(lay, start, path, i, j, n - 1);
      assert Joined(lay, start, path, i + n - 1) && Joined(lay, start, path, j + n - 1);
    }
  }

  // A chain that ends, or comes back to its start, is walked without meeting a pool twice.
  lemma VisitedOnce(lay: Layout, start: Pid, whole: seq<Pid>)
    requires Whole(lay, start, whole)
    ensures Distinct(whole)
  {
    forall i, j | 0 <= i < j < |whole| ensures whole[i] != whole[j] {
      if whole[i] == whole[j] {
        SameAhead(lay, start, whole, i, j, |whole| - 1 - j);
        OnlyLastEnds(lay, start, whole, i + |whole| - 1 - j);
      }
    }
  }

  // Of a whole path only the last pool ends the search.
  lemma OnlyLastEnds(lay: Layout, start: Pid, whole: seq<Pid>, k: nat)
    requires Whole(lay, start, whole) && k < |whole|
    ensures AtEnd(lay, start, whole[k]) <==> k == |whole| - 1
  {
    if k < |whole| - 1 {
      assert Joined(lay, start, whole, k);
    }
  }

  // In every run a search that fails has been through the whole chain, each pool once, and has found each of them empty
  // at its own visit.
  lemma FailureIsComplete(lay: Layout, start: State, steps: seq<Step>, s: Sid, whole: seq<Pid>)
    requires NoneSearched(start) && s in Run(lay, start, steps).ses
    requires Run(lay, start, steps).ses[s].place.Failed?
    requires Whole(lay, Run(lay, start, steps).ses[s].place.start, whole)
    ensures Run(lay, start, steps).ses[s].place.seen == whole && Distinct(whole)
    ensures forall i :: 0 <= i < |whole| ==> FoundEmpty(lay, start, steps, s, whole[i])
  {
    AlwaysSearchWell(lay, start, steps);
    var Failed(first, seen) := Run(lay, start, steps).ses[s].place;
    assert SearchesWell(lay, Run(lay, start, steps).ses[s].place);
    PathIsPrefix(lay, first, seen, whole);
    PathIsPrefix(lay, first, whole, seen);
    VisitedOnce(lay, first, whole);
    SeenWasEmpty(lay, start, steps, s);
  }

  // ---------------------------------------------------------------- where every run begins

  // No item is generated twice, neither for one pool nor for two.
  ghost predicate Apart(pools: map<Pid, seq<Iid>>) {
    && (forall p :: p in pools ==> Distinct(pools[p]))
    && (forall p, q, x :: p in pools && q in pools && x in pools[p] && x in pools[q] ==> p == q)
  }

  ghost function Homes(pools: map<Pid, seq<Iid>>): map<Iid, Pid>
    requires Apart(pools)
  {
    map p, x | p in pools && x in pools[p] :: x := p
  }

  // Pools as they are generated, before the first session.
  lemma FreshStart(lay: Layout, st: State)
    requires Apart(st.pools) && lay.home == Homes(st.pools) && st.ses == map[]
    ensures Conserved(lay, st) && NoneSearched(st) && AllSearchWell(lay, st)
  {
    forall x | x in lay.home ensures Placed(lay, st, x) {
      assert InPool(st, lay.home[x], x);
    }
  }

  // ---------------------------------------------------------------- the search by itself

  // The loop over the pools, with nobody interfering: the first item of the first pool that has one.
  method Get(lay: Layout, pools: map<Pid, seq<Iid>>, first: Option<Pid>, ghost whole: seq<Pid>)
    returns (item: Option<Iid>, rest: map<Pid, seq<Iid>>, ghost k: nat)
    requires first.Some? ==> Whole(lay, first.value, whole) && forall i :: 0 <= i < |whole| ==> whole[i] in pools
    ensures rest.Keys == pools.Keys && (item.None? ==> rest == pools)
    ensures item.None? && first.Some? ==> forall i :: 0 <= i < |whole| ==> pools[whole[i]] == []
    ensures item.Some? ==> first.Some? && k < |whole| && forall i :: 0 <= i < k ==> pools[whole[i]] == []
    ensures item.Some? ==> whole[k] in pools && pools[whole[k]] == [item.value] + rest[whole[k]]
    ensures item.Some? ==> rest == pools[whole[k] := rest[whole[k]]]
  {
    k := 0;
    if first.None? {
      return None, pools, 0;
    }
    var pool := first.value;
    while true
      invariant k < |whole| && pool == whole[k] && (forall i :: 0 <= i < k ==> pools[whole[i]] == [])
      decreases |whole| - k
    {
      if pools[pool] != [] {
        return Some(pools[pool][0]), pools[pool := pools[pool][1..]], k;
      }
      var onward := if pool in lay.next then lay.next[pool] else None;
      OnlyLastEnds(lay, first.value, whole, k);
      if onward.None? || onward.value == first.value {
        return None, pools, k;
      }
      assert Joined(lay, first.value, whole, k);
      pool, k := onward.value, k + 1;
    }
  }
}
