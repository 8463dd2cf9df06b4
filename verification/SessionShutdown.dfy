// Soft shutdown over the session machine: the callback is never lost, it is called exactly once when the
// critical stretches of the calls do not overlap from the request on, and it can be called early or twice when
// they do.

module SessionShutdown {
  import opened Common
  import opened Session
  import opened SessionSafety

  predicate Checking(x: Ses) {
    x.pc.CheckFlag? || x.pc.CheckStarting? || x.pc.CheckActive? || x.pc.CheckFinishing?
  }

  // Counted, or on the way from its own uncounting to its own look at the counters.
  predicate Pending(x: Ses) {
    Held(x) || x.pc.Leaving? || x.pc.Uncounted? || Checking(x)
  }

  ghost predicate SomePending(ses: map<Sid, Ses>) {
    exists s :: s in ses && Pending(ses[s])
  }

  // ---------------------------------------------------------------- never lost

  // The asker has its answer, nobody was called, and so somebody still has to look.
  ghost predicate Owed(st: System) {
    && (st.asker.Idle? <==> !st.shutdown)
    && (st.asker.Answered? && st.fired == 0 ==> SomePending(st.ses))
  }

  lemma SomeIn(ses: map<Sid, Ses>, c: Counters, w: Which) returns (s: Sid)
    requires Counts(ses, c) && Get(c, w) != 0
    ensures s in ses && In(w, ses[s])
  {
    assert Those(ses, w) != {};
    s :| s in Those(ses, w);
  }

  lemma OwedAsk(st: System)
    requires Counts(st.ses, st.count) && Owed(st)
    ensures Owed(Asked(st))
  {
    if st.asker.AskStarting? && Get(st.count, OfStarting) != 0 {
      var s := SomeIn(st.ses, st.count, OfStarting);
    } else if st.asker.AskActive? && Get(st.count, OfActive) != 0 {
      var s := SomeIn(st.ses, st.count, OfActive);
    } else if st.asker.AskFinishing? && Get(st.count, OfFinishing) != 0 {
      var s := SomeIn(st.ses, st.count, OfFinishing);
    }
  }

  // A session that stops being pending has called back, has seen the flag clear, or has seen a counter that
  // is not zero.
  lemma LocalPending(x: Ses, step: Step, shutdown: bool, c: Counters)
    requires Pending(x)
    ensures var ch := Local(x, step, shutdown, c);
      ch.Some? ==>
        || Pending(ch.value.x)
        || ch.value.fire
        || !shutdown
        || (Checking(x) && (c.starting != 0 || c.active != 0 || c.finishing != 0))
  {
  }

  lemma WokenElsewhere(ses: map<Sid, Ses>, wake: Option<Sid>, t: Sid)
    requires t in ses
    ensures t in Woken(ses, wake) && Woken(ses, wake)[t].pc == ses[t].pc && Woken(ses, wake)[t].state == ses[t].state
  {
  }

  lemma SomeOther(ses: map<Sid, Ses>, c: Counters) returns (t: Sid)
    requires Counts(ses, c) && (c.starting != 0 || c.active != 0 || c.finishing != 0)
    ensures t in ses && Held(ses[t])
  {
    if Get(c, OfStarting) != 0 {
      t := SomeIn(ses, c, OfStarting);
    } else if Get(c, OfActive) != 0 {
      t := SomeIn(ses, c, OfActive);
    } else {
      assert Get(c, OfFinishing) != 0;
      t := SomeIn(ses, c, OfFinishing);
    }
  }

  lemma OwedLocal(st: System, s: Sid, step: Step, ch: Change)
    requires Counts(st.ses, st.count) && Owed(st) && s in st.ses
    requires Local(st.ses[s], step, st.shutdown, st.count) == Some(ch)
    ensures Owed(Apply(st, s, ch))
  {
    if st.asker.Answered? && st.fired == 0 && !ch.fire {
      var t :| t in st.ses && Pending(st.ses[t]);
      if t == s {
        LocalPending(st.ses[s], step, st.shutdown, st.count);
        if !Pending(ch.x) {
          t := SomeOther(st.ses, st.count);
        }
      }
      WokenElsewhere(st.ses[s := ch.x], ch.wake, t);
      assert Pending(Apply(st, s, ch).ses[t]);
    }
  }

  lemma OwedTakeName(cfg: Config, st: System, s: Sid, name: string)
    requires Owed(st) && s in st.ses && st.ses[s].link.username.None?
    ensures Owed(TakeName(cfg, st, s, name))
  {
    if st.asker.Answered? && st.fired == 0 {
      var t :| t in st.ses && Pending(st.ses[t]);
      assert Pending(TakeName(cfg, st, s, name).ses[t]);
    }
  }

  lemma OwedAccept(st: System, s: Sid)
    requires Owed(st) && s !in st.ses
    ensures Owed(Apply(st, s, Add(FRESH, 0, 0, 0, 1)))
  {
    if st.asker.Answered? && st.fired == 0 {
      var t :| t in st.ses && Pending(st.ses[t]);
      assert Pending(Apply(st, s, Add(FRESH, 0, 0, 0, 1)).ses[t]);
    }
  }

  lemma OwedNext(cfg: Config, st: System, step: Step)
    requires Counts(st.ses, st.count) && Owed(st)
    ensures Owed(Next(cfg, st, step))
  {
    if step.Ask? {
      OwedAsk(st);
    } else if step.Accept? {
      if step.s !in st.ses { OwedAccept(st, step.s); }
    } else if step.SetUsername? {
      if step.s in st.ses && Ready(st.ses[step.s]) && st.ses[step.s].link.username.None? {
        OwedTakeName(cfg, st, step.s, step.name);
      }
    } else if !step.Shutdown? && step.s in st.ses {
      var ch := Local(st.ses[step.s], step, st.shutdown, st.count);
      if ch.Some? { OwedLocal(st, step.s, step, ch.value); }
    }
  }

  lemma {:induction false} OwedAlways(cfg: Config, steps: seq<Step>)
    ensures Owed(Run(cfg, steps))
    decreases |steps|
  {
    if steps != [] {
      OwedAlways(cfg, steps[..|steps| - 1]);
      CountsAlways(cfg, steps[..|steps| - 1]);
      OwedNext(cfg, Run(cfg, steps[..|steps| - 1]), steps[|steps| - 1]);
    }
  }

  // In every interleaving: once the request has been answered and no session is left, the callback has run.
  lemma NeverLost(cfg: Config, steps: seq<Step>)
    requires Run(cfg, steps).asker.Answered? && !SomePending(Run(cfg, steps).ses)
    ensures Run(cfg, steps).fired >= 1
  {
    OwedAlways(cfg, steps);
  }

  // ---------------------------------------------------------------- what zero counters mean

  predicate AllZero(c: Counters) {
    c.starting == 0 && c.active == 0 && c.finishing == 0
  }

  // The three counters are zero exactly when every session still counted is between two counters.
  lemma ZeroMeans(ses: map<Sid, Ses>, c: Counters)
    requires Counts(ses, c) && CoherentAll(ses)
    ensures AllZero(c) <==> forall s :: s in ses && Held(ses[s]) ==> InTransfer(ses[s])
  {
    CountsEach(ses, c);
    if AllZero(c) {
      forall s | s in ses && Held(ses[s]) ensures InTransfer(ses[s]) {
        assert Coherent(ses[s]);
        assert s !in Those(ses, OfStarting) && s !in Those(ses, OfActive) && s !in Those(ses, OfFinishing);
      }
    }
    if forall s :: s in ses && Held(ses[s]) ==> InTransfer(ses[s]) {
      assert Those(ses, OfStarting) == {};
      assert Those(ses, OfActive) == {};
      assert Those(ses, OfFinishing) == {};
    }
  }

  // ---------------------------------------------------------------- exactly once

  // Inside a stretch that another thread must not enter for the callback to be called exactly once: between
  // the look at the flag and the counting, between two counters, or between uncounting and the last look.
  predicate Busy(x: Ses) {
    x.pc.Passed? || InTransfer(x) || x.pc.Leaving? || x.pc.Uncounted? || Checking(x)
  }

  predicate Asking(asker: Asker) {
    asker.AskStarting? || asker.AskActive? || asker.AskFinishing?
  }

  // A step that does not cut into a stretch somebody else is in.
  predicate Serial(st: System, step: Step) {
    && (Asking(st.asker) ==> step.Ask?)
    && (forall s :: s in st.ses && Busy(st.ses[s]) ==> step == Advance(s))
  }

  // The request and every step after it; before it the sessions overlap as they like.
  predicate SerialRun(cfg: Config, steps: seq<Step>)
    decreases |steps|
  {
    steps != [] ==>
      var before, last := Run(cfg, steps[..|steps| - 1]), steps[|steps| - 1];
      SerialRun(cfg, steps[..|steps| - 1]) && (before.shutdown || last.Shutdown? ==> Serial(before, last))
  }

  // Somebody has read zero from the counters it has passed.
  predicate ReadSo(x: Ses, shutdown: bool, c: Counters) {
    && (x.pc.CheckStarting? || x.pc.CheckActive? || x.pc.CheckFinishing? ==> shutdown)
    && (x.pc.CheckActive? || x.pc.CheckFinishing? ==> c.starting == 0)
    && (x.pc.CheckFinishing? ==> c.active == 0)
  }

  predicate AskerReadSo(asker: Asker, c: Counters) {
    && (asker.AskActive? || asker.AskFinishing? ==> c.starting == 0)
    && (asker.AskFinishing? ==> c.active == 0)
  }

  ghost predicate OneAtATime(st: System) {
    && (forall s, t :: s in st.ses && t in st.ses && Busy(st.ses[s]) && Busy(st.ses[t]) ==> s == t)
    && (Asking(st.asker) ==> forall s :: s in st.ses ==> !Busy(st.ses[s]))
    && (forall s :: s in st.ses ==> ReadSo(st.ses[s], st.shutdown, st.count))
    && AskerReadSo(st.asker, st.count)
  }

  // After the callback nothing is counted and nothing will be.
  predicate Over(st: System) {
    && st.fired == 1 && st.shutdown && st.asker.Answered?
    && (forall s :: s in st.ses ==> !Pending(st.ses[s]) && !st.ses[s].pc.Passed?)
  }

  ghost predicate OnceSoFar(st: System) {
    OneAtATime(st) && (st.fired == 0 || Over(st))
  }

  lemma LocalReads(x: Ses, step: Step, shutdown: bool, c: Counters)
    requires ReadSo(x, shutdown, c)
    ensures var ch := Local(x, step, shutdown, c);
      ch.Some? ==>
        && ReadSo(ch.value.x, shutdown, Plus(c, ch.value.count))
        && (ch.value.fire ==> AllZero(c) && shutdown && x.pc.CheckFinishing? && ch.value.x.pc.Done?)
  {
  }

  lemma NobodyLeft(st: System)
    requires Counts(st.ses, st.count) && CoherentAll(st.ses) && AllZero(st.count)
    ensures forall s :: s in st.ses && Pending(st.ses[s]) ==> Busy(st.ses[s])
  {
    ZeroMeans(st.ses, st.count);
  }

  lemma OneAtATimeLocal(st: System, s: Sid, step: Step, ch: Change)
    requires OneAtATime(st) && s in st.ses && Serial(st, step) && !step.Ask? && (step.Advance? ==> step.s == s)
    requires Local(st.ses[s], step, st.shutdown, st.count) == Some(ch)
    ensures OneAtATime(Apply(st, s, ch))
  {
    var next := Apply(st, s, ch);
    LocalReads(st.ses[s], step, st.shutdown, st.count);
    forall t | t in next.ses && t != s
      ensures !Busy(next.ses[t]) && ReadSo(next.ses[t], next.shutdown, next.count)
    {
      WokenElsewhere(st.ses[s := ch.x], ch.wake, t);
    }
    WokenElsewhere(st.ses[s := ch.x], ch.wake, s);
  }

  lemma OverLocal(st: System, s: Sid, step: Step, ch: Change)
    requires Over(st) && s in st.ses && Local(st.ses[s], step, st.shutdown, st.count) == Some(ch)
    ensures Over(Apply(st, s, ch))
  {
    var x := st.ses[s];
    assert !Pending(ch.x) && !ch.x.pc.Passed? && !ch.fire;
    forall t | t in st.ses
      ensures !Pending(Apply(st, s, ch).ses[t]) && !Apply(st, s, ch).ses[t].pc.Passed?
    {
      WokenElsewhere(st.ses[s := ch.x], ch.wake, t);
    }
  }

  lemma FirstLocal(st: System, s: Sid, step: Step, ch: Change)
    requires Counts(st.ses, st.count) && CoherentAll(st.ses) && OneAtATime(st) && Owed(st) && st.fired == 0
    requires s in st.ses && Serial(st, step) && !step.Ask?
    requires Local(st.ses[s], step, st.shutdown, st.count) == Some(ch) && ch.fire
    ensures Over(Apply(st, s, ch))
  {
    LocalReads(st.ses[s], step, st.shutdown, st.count);
    NobodyLeft(st);
    forall t | t in st.ses
      ensures !Pending(Apply(st, s, ch).ses[t]) && !Apply(st, s, ch).ses[t].pc.Passed?
    {
      WokenElsewhere(st.ses[s := ch.x], ch.wake, t);
    }
  }

  lemma OnceLocal(st: System, s: Sid, step: Step, ch: Change)
    requires Counts(st.ses, st.count) && CoherentAll(st.ses) && OnceSoFar(st) && Owed(st)
    requires s in st.ses && Serial(st, step) && !step.Ask? && (step.Advance? ==> step.s == s)
    requires Local(st.ses[s], step, st.shutdown, st.count) == Some(ch)
    ensures OnceSoFar(Apply(st, s, ch))
  {
    OneAtATimeLocal(st, s, step, ch);
    if st.fired != 0 {
      OverLocal(st, s, step, ch);
    } else if ch.fire {
      FirstLocal(st, s, step, ch);
    }
  }

  lemma OnceAsk(st: System)
    requires Counts(st.ses, st.count) && CoherentAll(st.ses) && OnceSoFar(st) && Owed(st)
    ensures OnceSoFar(Asked(st))
  {
    if st.asker.AskFinishing? && st.count.finishing == 0 {
      NobodyLeft(st);
    }
  }

  lemma OnceLinks(st: System, next: System)
    requires OnceSoFar(st) && next.ses.Keys == st.ses.Keys
    requires forall s :: s in st.ses ==> next.ses[s].pc == st.ses[s].pc
    requires next.count == st.count && next.fired == st.fired && next.shutdown == st.shutdown && next.asker == st.asker
    ensures OnceSoFar(next)
  {
    assert forall s :: s in next.ses ==> s in st.ses && next.ses[s].pc == st.ses[s].pc;
  }

  lemma OnceAccept(st: System, s: Sid)
    requires OnceSoFar(st) && s !in st.ses
    ensures OnceSoFar(Apply(st, s, Add(FRESH, 0, 0, 0, 1)))
  {
    var next := Apply(st, s, Add(FRESH, 0, 0, 0, 1));
    assert forall t :: t in next.ses && t != s ==> t in st.ses && next.ses[t] == st.ses[t];
    assert next.ses[s] == FRESH;
  }

  lemma OnceNamed(cfg: Config, st: System, step: Step)
    requires OnceSoFar(st) && step.SetUsername?
    ensures OnceSoFar(Next(cfg, st, step))
  {
    OnceLinks(st, Next(cfg, st, step));
  }

  lemma OnceNext(cfg: Config, st: System, step: Step)
    requires Counts(st.ses, st.count) && CoherentAll(st.ses) && OnceSoFar(st) && Owed(st) && Serial(st, step)
    ensures OnceSoFar(Next(cfg, st, step))
  {
    if step.Ask? {
      OnceAsk(st);
    } else if step.Accept? {
      if step.s !in st.ses { OnceAccept(st, step.s); }
    } else if step.SetUsername? {
      OnceNamed(cfg, st, step);
    } else if !step.Shutdown? && step.s in st.ses {
      var ch := Local(st.ses[step.s], step, st.shutdown, st.count);
      if ch.Some? { OnceLocal(st, step.s, step, ch.value); }
    }
  }

  // Past the look at the flag, which was set.
  predicate Looking(x: Ses) {
    x.pc.CheckStarting? || x.pc.CheckActive? || x.pc.CheckFinishing?
  }

  // Before the request nobody reads the counters and nobody is called.
  ghost predicate Unasked(st: System) {
    !st.shutdown && st.asker.Idle? && st.fired == 0 && forall s :: s in st.ses ==> !Looking(st.ses[s])
  }

  lemma UnaskedNext(cfg: Config, st: System, step: Step)
    requires Unasked(st) && !step.Shutdown?
    ensures Unasked(Next(cfg, st, step))
  {
    if !step.Ask? && !step.Accept? && !step.SetUsername? && step.s in st.ses {
      var ch := Local(st.ses[step.s], step, st.shutdown, st.count);
      if ch.Some? {
        var mid := st.ses[step.s := ch.value.x];
        assert !Looking(ch.value.x) && !ch.value.fire;
        forall t | t in mid ensures !Looking(Woken(mid, ch.value.wake)[t]) {
          WokenElsewhere(mid, ch.value.wake, t);
        }
      }
    }
  }

  lemma {:induction false} UnaskedAlways(cfg: Config, steps: seq<Step>)
    ensures Run(cfg, steps).shutdown || Unasked(Run(cfg, steps))
    decreases |steps|
  {
    if steps != [] {
      UnaskedAlways(cfg, steps[..|steps| - 1]);
      if !steps[|steps| - 1].Shutdown? && !Run(cfg, steps[..|steps| - 1]).shutdown {
        UnaskedNext(cfg, Run(cfg, steps[..|steps| - 1]), steps[|steps| - 1]);
      }
    }
  }

  lemma {:induction false} OnceAlways(cfg: Config, steps: seq<Step>)
    requires SerialRun(cfg, steps)
    ensures Run(cfg, steps).shutdown ==> OnceSoFar(Run(cfg, steps))
    decreases |steps|
  {
    if steps != [] {
      var before, last := steps[..|steps| - 1], steps[|steps| - 1];
      OnceAlways(cfg, before);
      CountsAlways(cfg, before);
      OwedAlways(cfg, before);
      if Run(cfg, before).shutdown {
        OnceNext(cfg, Run(cfg, before), last);
      } else {
        UnaskedAlways(cfg, before);
        if !last.Shutdown? {
          UnaskedNext(cfg, Run(cfg, before), last);
        }
      }
    }
  }

  // When the critical stretches do not overlap from the request on, the callback runs at most once, only with an empty
  // list, and it has run exactly once when the request is answered and no session is left.
  lemma ExactlyOnce(cfg: Config, steps: seq<Step>, st: System)
    requires SerialRun(cfg, steps) && st == Run(cfg, steps)
    ensures st.fired <= 1
    ensures st.fired == 1 ==> st.list == []
    ensures st.asker.Answered? ==> (st.fired == 1 <==> !SomePending(st.ses))
  {
    OnceAlways(cfg, steps);
    UnaskedAlways(cfg, steps);
    ListedAlways(cfg, steps);
    OwedAlways(cfg, steps);
    EmptyList(st.ses, st.list);
  }

  // ---------------------------------------------------------------- and otherwise

  predicate RunsTo(cfg: Config, steps: seq<Step>, st: System) {
    Run(cfg, steps) == st
  }

  ghost predicate Reachable(cfg: Config, st: System) {
    exists steps :: RunsTo(cfg, steps, st)
  }

  // Holds at the start and is kept by every step, so it holds of every reachable state.
  ghost predicate Invariant(cfg: Config, p: System -> bool) {
    p(START) && forall st, step :: p(st) ==> p(Next(cfg, st, step))
  }

  lemma ReachableInvariant(cfg: Config)
    ensures Invariant(cfg, st => Reachable(cfg, st))
  {
    assert RunsTo(cfg, [], START);
    forall st, step | Reachable(cfg, st) ensures Reachable(cfg, Next(cfg, st, step)) {
      var steps :| RunsTo(cfg, steps, st);
      assert (steps + [step])[..|steps|] == steps;
      assert RunsTo(cfg, steps + [step], Next(cfg, st, step));
    }
  }

  function Lone(pc: Pc, state: Life, gaveBack: nat, cause: Cause): Ses {
    Ses(pc, state, gaveBack, cause, Link(None, None, false, 0, 0, 0))
  }

  // A state with one session.
  function Alone(x: Ses, c: Counters, shutdown: bool, asker: Asker, fired: nat): System {
    System(map[0 := x], if InList(x) then [0] else [], c, shutdown, asker, fired, 0, {})
  }

  // One session alone takes a step of its own.
  lemma LoneStep(cfg: Config, x: Ses, c: Counters, shutdown: bool, asker: Asker, fired: nat, step: Step, ch: Change)
    requires step.Abandon? || step.Start? || step.Activate? || step.Terminate? || step.Finish? || step.Advance?
    requires step.s == 0 && Local(x, step, shutdown, c) == Some(ch) && ch.wake.None?
    ensures Next(cfg, Alone(x, c, shutdown, asker, fired), step)
         == Alone(ch.x, Plus(c, ch.count), shutdown, asker, if ch.fire then fired + 1 else fired)
  {
    var st := Alone(x, c, shutdown, asker, fired);
    LocalList(x, step, shutdown, c);
    assert Next(cfg, st, step) == Apply(st, 0, ch);
  }

  lemma OneAccepted(cfg: Config, p: System -> bool)
    requires Invariant(cfg, p)
    ensures p(Alone(Lone(Accepted, Init, 0, NoCause), Counters(0, 0, 0, 1), false, Idle, 0))
  {
    assert p(Next(cfg, START, Accept(0)));
    assert Next(cfg, START, Accept(0))
        == Alone(Lone(Accepted, Init, 0, NoCause), Counters(0, 0, 0, 1), false, Idle, 0);
  }

  // One session, started and in the list.
  lemma OneLive(cfg: Config, p: System -> bool)
    requires Invariant(cfg, p)
    ensures p(Alone(Lone(Live, Starting, 0, NoCause), Counters(1, 0, 0, 1), false, Idle, 0))
  {
    OneAccepted(cfg, p);
    var x := Lone(Accepted, Init, 0, NoCause);
    var y := Lone(Passed, Starting, 0, NoCause);
    LoneStep(cfg, x, Counters(0, 0, 0, 1), false, Idle, 0, Start(0, false), Just(y));
    LoneStep(cfg, y, Counters(0, 0, 0, 1), false, Idle, 0, Advance(0), Add(To(y, Counted), 1, 0, 0, 0));
    var z := To(y, Counted);
    LoneStep(cfg, z, Counters(1, 0, 0, 1), false, Idle, 0, Advance(0), Just(To(z, Live)).(list := Append));
  }

  // The request, made while every counter reads zero.
  lemma AskZero(cfg: Config, p: System -> bool, x: Ses, c: Counters)
    requires Invariant(cfg, p) && p(Alone(x, c, false, Idle, 0)) && AllZero(c)
    ensures p(Alone(x, c, true, Answered, 1))
  {
    assert p(Next(cfg, Alone(x, c, false, Idle, 0), Shutdown));
    assert p(Alone(x, c, true, AskStarting, 0));
    assert p(Next(cfg, Alone(x, c, true, AskStarting, 0), Ask));
    assert p(Alone(x, c, true, AskActive, 0));
    assert p(Next(cfg, Alone(x, c, true, AskActive, 0), Ask));
    assert p(Alone(x, c, true, AskFinishing, 0));
    assert p(Next(cfg, Alone(x, c, true, AskFinishing, 0), Ask));
  }

  // A request that falls between the two counters of a termination calls back while a session is listed.
  lemma CalledEarly(cfg: Config)
    ensures exists st :: Reachable(cfg, st) && st.fired == 1 && st.list == [0]
  {
    var p := st => Reachable(cfg, st);
    ReachableInvariant(cfg);
    var y := Lone(TerminatingA, Starting, 0, OtherCause);
    Early(cfg, p, y);
    assert Reachable(cfg, Alone(y, Counters(0, 0, 0, 1), true, Answered, 1));
  }

  lemma Early(cfg: Config, p: System -> bool, y: Ses)
    requires Invariant(cfg, p) && y == Lone(TerminatingA, Starting, 0, OtherCause)
    ensures p(Alone(y, Counters(0, 0, 0, 1), true, Answered, 1))
  {
    OneLive(cfg, p);
    var x := Lone(Live, Starting, 0, NoCause);
    LoneStep(cfg, x, Counters(1, 0, 0, 1), false, Idle, 0, Terminate(0, OtherCause), Add(y, -1, 0, 0, 0));
    AskZero(cfg, p, y, Counters(0, 0, 0, 1));
  }
}
