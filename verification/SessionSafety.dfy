// What every interleaving of the session machine keeps: the counters, the list and the shutdown callback.

module SessionSafety {
  import opened Common
  import opened Session

  // ---------------------------------------------------------------- the counters

  lemma CountsWoken(ses: map<Sid, Ses>, c: Counters, wake: Option<Sid>)
    requires Counts(ses, c)
    ensures Counts(Woken(ses, wake), c)
  {
    if wake.Some? && wake.value in ses {
      var zero := Counters(0, 0, 0, 0);
      CountsPut(ses, c, wake.value, Woken(ses, wake)[wake.value], zero);
      assert Plus(c, zero) == c;
    }
  }

  lemma CoherentWoken(ses: map<Sid, Ses>, wake: Option<Sid>)
    requires CoherentAll(ses)
    ensures CoherentAll(Woken(ses, wake))
  {
  }

  lemma CountsLink(ses: map<Sid, Ses>, c: Counters, s: Sid, link: Link)
    requires Counts(ses, c) && CoherentAll(ses) && s in ses
    ensures Counts(ses[s := WithLink(ses[s], link)], c) && CoherentAll(ses[s := WithLink(ses[s], link)])
  {
    var zero := Counters(0, 0, 0, 0);
    CountsPut(ses, c, s, WithLink(ses[s], link), zero);
    assert Plus(c, zero) == c;
  }

  lemma CountsLocal(st: System, s: Sid, step: Step)
    requires Counts(st.ses, st.count) && CoherentAll(st.ses) && s in st.ses
    ensures var ch := Local(st.ses[s], step, st.shutdown, st.count);
      ch.Some? ==>
        var next := Apply(st, s, ch.value);
        Counts(next.ses, next.count) && CoherentAll(next.ses)
  {
    var x := st.ses[s];
    var ch := Local(x, step, st.shutdown, st.count);
    if ch.Some? {
      forall w ensures One(In(w, ch.value.x)) == One(InAt(w, st.ses, s)) + Get(ch.value.count, w) {
        LocalShare(x, step, st.shutdown, st.count, w);
      }
      CountsPut(st.ses, st.count, s, ch.value.x, ch.value.count);
      CountsWoken(st.ses[s := ch.value.x], Plus(st.count, ch.value.count), ch.value.wake);
      LocalCoherent(x, step, st.shutdown, st.count);
      CoherentWoken(st.ses[s := ch.value.x], ch.value.wake);
    }
  }

  lemma CountsTakeName(cfg: Config, st: System, s: Sid, name: string)
    requires Counts(st.ses, st.count) && CoherentAll(st.ses) && s in st.ses && st.ses[s].link.username.None?
    ensures var next := TakeName(cfg, st, s, name); Counts(next.ses, next.count) && CoherentAll(next.ses)
  {
    var next := TakeName(cfg, st, s, name);
    var first := FirstFree(cfg, st.ses, st.list, name);
    if cfg.mode.Replace? && first.Some? {
      var y := st.ses[first.value];
      var link := y.link.(wakeup := Some(s));
      CountsLink(st.ses, st.count, first.value, link);
      CountsLink(st.ses[first.value := WithLink(y, link)], st.count, s, next.ses[s].link);
    } else if next != st {
      CountsLink(st.ses, st.count, s, next.ses[s].link);
    }
  }

  lemma CountsAccept(st: System, s: Sid)
    requires Counts(st.ses, st.count) && CoherentAll(st.ses) && s !in st.ses
    ensures var next := Apply(st, s, Add(FRESH, 0, 0, 0, 1)); Counts(next.ses, next.count) && CoherentAll(next.ses)
  {
    var d := Counters(0, 0, 0, 1);
    forall w ensures One(In(w, FRESH)) == One(InAt(w, st.ses, s)) + Get(d, w) {
    }
    CountsPut(st.ses, st.count, s, FRESH, d);
  }

  lemma CountsNext(cfg: Config, st: System, step: Step)
    requires Counts(st.ses, st.count) && CoherentAll(st.ses)
    ensures var next := Next(cfg, st, step); Counts(next.ses, next.count) && CoherentAll(next.ses)
  {
    if step.Accept? {
      if step.s !in st.ses { CountsAccept(st, step.s); }
    } else if step.SetUsername? {
      if step.s in st.ses && Ready(st.ses[step.s]) && st.ses[step.s].link.username.None? {
        CountsTakeName(cfg, st, step.s, step.name);
      }
    } else if !step.Shutdown? && !step.Ask? && step.s in st.ses {
      CountsLocal(st, step.s, step);
    }
  }

  // In every reachable state each counter is the number of sessions that contribute to it.
  lemma {:induction false} CountsAlways(cfg: Config, steps: seq<Step>)
    ensures Counts(Run(cfg, steps).ses, Run(cfg, steps).count) && CoherentAll(Run(cfg, steps).ses)
    decreases |steps|
  {
    if steps == [] {
      forall w ensures Get(START.count, w) == |Those(START.ses, w)| {
        assert Those(START.ses, w) == {};
      }
    } else {
      CountsAlways(cfg, steps[..|steps| - 1]);
      CountsNext(cfg, Run(cfg, steps[..|steps| - 1]), steps[|steps| - 1]);
    }
  }

  // ---------------------------------------------------------------- the list

  ghost predicate Listed(ses: map<Sid, Ses>, list: seq<Sid>) {
    && Distinct(list)
    && (forall s :: s in list <==> s in ses && InList(ses[s]))
  }

  lemma {:induction false} WithoutOnly(list: seq<Sid>, s: Sid)
    requires Distinct(list)
    ensures Distinct(Without(list, s))
    ensures forall t :: t in Without(list, s) <==> t in list && t != s
  {
    if list != [] {
      var rest := list[1..];
      assert list == [list[0]] + rest;
      assert list[0] !in rest;
      if list[0] != s {
        WithoutOnly(rest, s);
      }
    }
  }

  lemma RelistOnly(list: seq<Sid>, op: ListOp, s: Sid)
    requires Distinct(list) && (op.Append? ==> s !in list)
    ensures Distinct(Relist(list, op, s))
    ensures forall t :: t != s ==> (t in Relist(list, op, s) <==> t in list)
    ensures s in Relist(list, op, s) <==> op.Append? || (op.Keep? && s in list)
  {
    WithoutOnly(list, s);
  }

  lemma ListedLocal(st: System, s: Sid, step: Step)
    requires Listed(st.ses, st.list) && s in st.ses
    ensures var ch := Local(st.ses[s], step, st.shutdown, st.count);
      ch.Some? ==> Listed(Apply(st, s, ch.value).ses, Apply(st, s, ch.value).list)
  {
    var ch := Local(st.ses[s], step, st.shutdown, st.count);
    if ch.Some? {
      LocalList(st.ses[s], step, st.shutdown, st.count);
      RelistOnly(st.list, ch.value.list, s);
    }
  }

  lemma ListedNext(cfg: Config, st: System, step: Step)
    requires Listed(st.ses, st.list)
    ensures Listed(Next(cfg, st, step).ses, Next(cfg, st, step).list)
  {
    if !step.Shutdown? && !step.Ask? && step.s in st.ses {
      ListedLocal(st, step.s, step);
    }
  }

  lemma EmptyList(ses: map<Sid, Ses>, list: seq<Sid>)
    requires Listed(ses, list)
    ensures list == [] <==> forall s :: s in ses ==> !InList(ses[s])
  {
    if list != [] {
      assert list[0] in list;
    }
  }

  lemma {:induction false} ListedAlways(cfg: Config, steps: seq<Step>)
    ensures Listed(Run(cfg, steps).ses, Run(cfg, steps).list)
    decreases |steps|
  {
    if steps != [] {
      ListedAlways(cfg, steps[..|steps| - 1]);
      ListedNext(cfg, Run(cfg, steps[..|steps| - 1]), steps[|steps| - 1]);
    }
  }

  // ---------------------------------------------------------------- between calls

  // No call is running.
  predicate Quiet(ses: map<Sid, Ses>) {
    forall s :: s in ses ==> var pc := ses[s].pc; pc.Accepted? || pc.Gone? || pc.Live? || pc.Done?
  }

  ghost function ListedIn(ses: map<Sid, Ses>, list: seq<Sid>, states: set<Life>): set<Sid> {
    set s | s in list && s in ses && ses[s].state in states
  }

  ghost function NotStarted(ses: map<Sid, Ses>): set<Sid> {
    set s | s in ses && ses[s].pc.Accepted?
  }

  lemma QuietSets(ses: map<Sid, Ses>, list: seq<Sid>)
    requires Quiet(ses) && Listed(ses, list) && CoherentAll(ses)
    ensures Those(ses, OfStarting) == ListedIn(ses, list, {Starting, Restore})
    ensures Those(ses, OfActive) == ListedIn(ses, list, {Active})
    ensures Those(ses, OfFinishing) == ListedIn(ses, list, {Finishing})
  {
  }

  lemma QuietOwing(ses: map<Sid, Ses>)
    requires Quiet(ses) && CoherentAll(ses)
    ensures |Those(ses, OfIncoming)| == |NotStarted(ses)| + |Those(ses, OfStarting)|
  {
    assert Those(ses, OfIncoming) == NotStarted(ses) + Those(ses, OfStarting);
    assert NotStarted(ses) !! Those(ses, OfStarting);
  }

  lemma CountsEach(ses: map<Sid, Ses>, c: Counters)
    requires Counts(ses, c)
    ensures c.starting == |Those(ses, OfStarting)| && c.active == |Those(ses, OfActive)|
    ensures c.finishing == |Those(ses, OfFinishing)| && c.incoming == |Those(ses, OfIncoming)|
  {
    assert Get(c, OfStarting) == c.starting && Get(c, OfActive) == c.active;
    assert Get(c, OfFinishing) == c.finishing && Get(c, OfIncoming) == c.incoming;
  }

  // Whenever no call is running the counters are the numbers of listed sessions in those states, and
  // `incoming` is the number of sessions accepted or starting.
  lemma QuietCounts(cfg: Config, steps: seq<Step>, st: System)
    requires st == Run(cfg, steps) && Quiet(st.ses)
    ensures st.count.starting == |ListedIn(st.ses, st.list, {Starting, Restore})|
    ensures st.count.active == |ListedIn(st.ses, st.list, {Active})|
    ensures st.count.finishing == |ListedIn(st.ses, st.list, {Finishing})|
    ensures st.count.incoming == |NotStarted(st.ses)| + st.count.starting
  {
    CountsAlways(cfg, steps);
    ListedAlways(cfg, steps);
    CountsEach(st.ses, st.count);
    QuietSets(st.ses, st.list);
    QuietOwing(st.ses);
  }

  // A session gives its incoming slot back at most once in any run, and exactly once by its end.
  lemma GivenBackOnce(cfg: Config, steps: seq<Step>, s: Sid)
    requires s in Run(cfg, steps).ses
    ensures var x := Run(cfg, steps).ses[s];
      x.gaveBack <= 1 && (x.pc.Done? || x.pc.Gone? || (x.state.Active? && x.pc.Live?) ==> x.gaveBack == 1)
  {
    CountsAlways(cfg, steps);
    assert Coherent(Run(cfg, steps).ses[s]);
  }
}
