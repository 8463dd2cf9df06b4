// When a soft shutdown may be asked for: whatever the threads do after the request, the callback is called at most
// once and only with an empty list, exactly if no session was on its way at the request.

module SessionRequest {
  import opened Common
  import opened Session
  import opened SessionSafety
  import opened SessionShutdown
  import opened SessionNames

  // Past its look at the flag in starting, and not yet past its own look at the counters in finish.
  predicate Underway(x: Ses) {
    Pending(x) || x.pc.Passed?
  }

  predicate NoneUnderway(ses: map<Sid, Ses>) {
    forall s :: s in ses ==> !Underway(ses[s])
  }

  // Not called twice, and not called while a session is listed.
  predicate Good(st: System) {
    st.fired <= 1 && (st.fired == 1 ==> st.list == [])
  }

  lemma RunSnoc(cfg: Config, steps: seq<Step>, step: Step)
    ensures Run(cfg, steps + [step]) == Next(cfg, Run(cfg, steps), step)
  {
    assert (steps + [step])[..|steps|] == steps;
  }

  // ---------------------------------------------------------------- with nobody underway

  // The flag is set, nobody is underway and nobody will be: only the asker can call back.
  predicate Calm(st: System) {
    st.shutdown && !st.asker.Idle? && NoneUnderway(st.ses) && st.fired == One(st.asker.Answered?)
  }

  lemma CalmZero(st: System)
    requires Calm(st) && Counts(st.ses, st.count) && CoherentAll(st.ses)
    ensures AllZero(st.count)
  {
    ZeroMeans(st.ses, st.count);
  }

  lemma CalmLocal(st: System, s: Sid, step: Step, ch: Change)
    requires Calm(st) && s in st.ses && Local(st.ses[s], step, st.shutdown, st.count) == Some(ch)
    ensures Calm(Apply(st, s, ch))
  {
    assert !Underway(ch.x) && !ch.fire;
    forall t | t in st.ses ensures !Underway(Apply(st, s, ch).ses[t]) {
      WokenElsewhere(st.ses[s := ch.x], ch.wake, t);
    }
  }

  lemma CalmNext(cfg: Config, st: System, step: Step)
    requires Calm(st) && Counts(st.ses, st.count) && CoherentAll(st.ses)
    ensures Calm(Next(cfg, st, step))
  {
    if step.Ask? {
      CalmZero(st);
    } else if !step.Shutdown? && !step.Accept? && !step.SetUsername? && step.s in st.ses {
      var ch := Local(st.ses[step.s], step, st.shutdown, st.count);
      if ch.Some? { CalmLocal(st, step.s, step, ch.value); }
    }
  }

  lemma {:induction false} CalmAfter(cfg: Config, before: seq<Step>, more: seq<Step>)
    requires Run(cfg, before).asker.Idle? && NoneUnderway(Run(cfg, before).ses)
    ensures Calm(Run(cfg, before + [Shutdown] + more))
    decreases |more|
  {
    if more == [] {
      RunSnoc(cfg, before, Shutdown);
      assert before + [Shutdown] + more == before + [Shutdown];
      UnaskedAlways(cfg, before);
      OwedAlways(cfg, before);
    } else {
      var less, last := more[..|more| - 1], more[|more| - 1];
      var steps := before + [Shutdown] + less;
      CalmAfter(cfg, before, less);
      CountsAlways(cfg, steps);
      assert before + [Shutdown] + more == steps + [last];
      RunSnoc(cfg, steps, last);
      CalmNext(cfg, Run(cfg, steps), last);
    }
  }

  // Then the callback runs exactly once, by the asker, and the list is empty from the request on.
  lemma CalmRequest(cfg: Config, before: seq<Step>, more: seq<Step>, st: System)
    requires Run(cfg, before).asker.Idle? && NoneUnderway(Run(cfg, before).ses)
    requires st == Run(cfg, before + [Shutdown] + more)
    ensures st.list == [] && st.fired == One(st.asker.Answered?)
  {
    CalmAfter(cfg, before, more);
    ListedAlways(cfg, before + [Shutdown] + more);
    EmptyList(st.ses, st.list);
  }

  // ---------------------------------------------------------------- with somebody underway

  // Steps left before the look at the flag in finish.
  function Rank(pc: Pc): nat {
    match pc
    case Uncounted => 1
    case Leaving => 2
    case Unlinked => 3
    case Begun => 4
    case Live => 5
    case Counted => 6
    case ActivatingB => 6
    case TerminatingB => 6
    case Passed => 7
    case ActivatingA => 7
    case TerminatingA => 7
    case _ => 0
  }

  // Not yet at the look at the flag in finish.
  predicate Early(x: Ses) {
    Rank(x.pc) > 0
  }

  // The step that brings a session nearer to its end.
  function Homeward(x: Ses, s: Sid): Step {
    if x.pc.Live? then Finish(s) else Advance(s)
  }

  lemma HomewardLocal(x: Ses, s: Sid, shutdown: bool, c: Counters)
    requires Early(x) && !x.link.waiting
    ensures var ch := Local(x, Homeward(x, s), shutdown, c);
      ch.Some? && Rank(ch.value.x.pc) < Rank(x.pc) && !ch.value.x.link.waiting && !ch.value.fire
      && (Early(ch.value.x) || ch.value.x.pc.CheckFlag?)
  {
  }

  // All other sessions are where they were, and so is the request.
  ghost predicate Beside(st: System, next: System, s: Sid) {
    && next.ses.Keys == st.ses.Keys
    && (forall t :: t in st.ses && t != s ==> next.ses[t].pc == st.ses[t].pc)
    && next.shutdown == st.shutdown && next.asker == st.asker && next.fired == st.fired
  }

  lemma HomewardNext(cfg: Config, st: System, s: Sid)
    requires s in st.ses && Early(st.ses[s]) && !st.ses[s].link.waiting
    ensures var next := Next(cfg, st, Homeward(st.ses[s], s));
      && Beside(st, next, s) && !next.ses[s].link.waiting && Rank(next.ses[s].pc) < Rank(st.ses[s].pc)
      && (Early(next.ses[s]) || next.ses[s].pc.CheckFlag?)
  {
    var x := st.ses[s];
    var step := Homeward(x, s);
    HomewardLocal(x, s, st.shutdown, st.count);
    var ch := Local(x, step, st.shutdown, st.count).value;
    forall t | t in st.ses
      ensures t in Apply(st, s, ch).ses && Apply(st, s, ch).ses[t].pc == st.ses[s := ch.x][t].pc
    {
      WokenElsewhere(st.ses[s := ch.x], ch.wake, t);
    }
  }

  // One session that waits for nobody can go on to its look at the flag by itself.
  lemma {:induction false} Home(cfg: Config, steps: seq<Step>, s: Sid) returns (on: seq<Step>)
    requires s in Run(cfg, steps).ses && Early(Run(cfg, steps).ses[s]) && !Run(cfg, steps).ses[s].link.waiting
    ensures steps <= on && Beside(Run(cfg, steps), Run(cfg, on), s) && Run(cfg, on).ses[s].pc.CheckFlag?
    decreases Rank(Run(cfg, steps).ses[s].pc)
  {
    var st := Run(cfg, steps);
    on := steps + [Homeward(st.ses[s], s)];
    RunSnoc(cfg, steps, Homeward(st.ses[s], s));
    HomewardNext(cfg, st, s);
    if Early(Run(cfg, on).ses[s]) {
      on := Home(cfg, on, s);
    }
  }

  ghost function EarlyOnes(ses: map<Sid, Ses>): set<Sid> {
    set s | s in ses && Early(ses[s])
  }

  // If any session is early, one that waits for nobody is.
  lemma SomeFree(cfg: Config, steps: seq<Step>) returns (s: Sid)
    requires EarlyOnes(Run(cfg, steps).ses) != {}
    ensures s in Run(cfg, steps).ses && Early(Run(cfg, steps).ses[s]) && !Run(cfg, steps).ses[s].link.waiting
  {
    var ses := Run(cfg, steps).ses;
    s :| s in EarlyOnes(ses);
    if ses[s].link.waiting {
      NoDeadlock(cfg, steps, s);
      s :| s in ses && CanWake(ses[s]) && !ses[s].link.waiting && ses[s].link.wakeup.Some?;
    }
  }

  // Everybody underway waits before the look at the flag.
  ghost predicate Lined(ses: map<Sid, Ses>) {
    forall s :: s in ses && Underway(ses[s]) ==> ses[s].pc.CheckFlag?
  }

  ghost predicate NobodyLooks(ses: map<Sid, Ses>) {
    forall s :: s in ses ==> !Looking(ses[s])
  }

  ghost predicate SameUnderway(ses: map<Sid, Ses>, next: map<Sid, Ses>) {
    next.Keys == ses.Keys && forall s :: s in ses ==> (Underway(next[s]) <==> Underway(ses[s]))
  }

  lemma BesideHome(st: System, next: System, s: Sid)
    requires Beside(st, next, s) && s in st.ses && Early(st.ses[s]) && next.ses[s].pc.CheckFlag? && NobodyLooks(st.ses)
    ensures NobodyLooks(next.ses) && SameUnderway(st.ses, next.ses)
    ensures EarlyOnes(next.ses) == EarlyOnes(st.ses) - {s}
  {
  }

  // All sessions underway can go on to the look at the flag, one after the other, whoever waits for whom.
  lemma {:induction false} Line(cfg: Config, steps: seq<Step>) returns (on: seq<Step>)
    requires NobodyLooks(Run(cfg, steps).ses)
    ensures steps <= on && Lined(Run(cfg, on).ses) && SameUnderway(Run(cfg, steps).ses, Run(cfg, on).ses)
    ensures var st, next := Run(cfg, steps), Run(cfg, on);
      next.shutdown == st.shutdown && next.asker == st.asker && next.fired == st.fired
    decreases |EarlyOnes(Run(cfg, steps).ses)|
  {
    var st := Run(cfg, steps);
    if EarlyOnes(st.ses) == {} {
      forall s | s in st.ses && Underway(st.ses[s]) ensures st.ses[s].pc.CheckFlag? {
        assert s !in EarlyOnes(st.ses);
      }
      on := steps;
    } else {
      var s := SomeFree(cfg, steps);
      on := Home(cfg, steps, s);
      BesideHome(st, Run(cfg, on), s);
      assert s in EarlyOnes(st.ses);
      on := Line(cfg, on);
    }
  }

  // The asker reads zero three times and calls back.
  lemma AskThrice(cfg: Config, steps: seq<Step>) returns (on: seq<Step>)
    requires Run(cfg, steps).asker.AskStarting? && AllZero(Run(cfg, steps).count)
    ensures steps <= on
    ensures var st := Run(cfg, steps); Run(cfg, on) == st.(asker := Answered, fired := st.fired + 1)
  {
    RunSnoc(cfg, steps, Ask);
    RunSnoc(cfg, steps + [Ask], Ask);
    RunSnoc(cfg, steps + [Ask] + [Ask], Ask);
    on := steps + [Ask] + [Ask] + [Ask];
  }

  // What a look at one counter after the other makes of a session, while all of them read zero.
  function Looked(pc: Pc): Pc {
    match pc
    case CheckFlag => CheckStarting
    case CheckStarting => CheckActive
    case CheckActive => CheckFinishing
    case _ => Done
  }

  lemma LookOnce(cfg: Config, steps: seq<Step>, s: Sid)
    requires var st := Run(cfg, steps);
      s in st.ses && Checking(st.ses[s]) && !st.ses[s].link.waiting && st.shutdown && AllZero(st.count)
    ensures var st := Run(cfg, steps);
      var x := st.ses[s];
      Run(cfg, steps + [Advance(s)])
      == st.(ses := st.ses[s := To(x, Looked(x.pc))], fired := st.fired + One(x.pc.CheckFinishing?))
  {
    var st := Run(cfg, steps);
    var x := st.ses[s];
    RunSnoc(cfg, steps, Advance(s));
    var ch := Just(To(x, Looked(x.pc))).(fire := x.pc.CheckFinishing?);
    assert Local(x, Advance(s), st.shutdown, st.count) == Some(ch);
    assert Apply(st, s, ch).count == st.count;
  }

  // A session that stands before the flag goes on to call back.
  lemma LookAll(cfg: Config, steps: seq<Step>, s: Sid) returns (on: seq<Step>)
    requires var st := Run(cfg, steps);
      s in st.ses && st.ses[s].pc.CheckFlag? && !st.ses[s].link.waiting && st.shutdown && AllZero(st.count)
    ensures steps <= on && Run(cfg, on).fired == Run(cfg, steps).fired + 1
  {
    LookOnce(cfg, steps, s);
    LookOnce(cfg, steps + [Advance(s)], s);
    var half := steps + [Advance(s)] + [Advance(s)];
    LookOnce(cfg, half, s);
    LookOnce(cfg, half + [Advance(s)], s);
    on := half + [Advance(s)] + [Advance(s)];
  }

  lemma LinedZero(ses: map<Sid, Ses>, c: Counters)
    requires Lined(ses) && Counts(ses, c) && CoherentAll(ses)
    ensures AllZero(c)
  {
    ZeroMeans(ses, c);
  }

  // With all who are underway at their look at the flag, the asker calls back and so does any of them.
  lemma AnswerTwice(cfg: Config, on: seq<Step>, s: Sid) returns (end: seq<Step>)
    requires var st := Run(cfg, on);
      st.asker.AskStarting? && st.shutdown && Lined(st.ses) && s in st.ses && Underway(st.ses[s])
    ensures on <= end && Run(cfg, end).fired == Run(cfg, on).fired + 2
  {
    assert !Run(cfg, on).ses[s].link.waiting by {
      LinkedAlways(cfg, on);
      assert Tidy(Run(cfg, on).ses[s], Run(cfg, on).clock);
    }
    assert AllZero(Run(cfg, on).count) by {
      CountsAlways(cfg, on);
      LinedZero(Run(cfg, on).ses, Run(cfg, on).count);
    }
    var answered := AskThrice(cfg, on);
    end := LookAll(cfg, answered, s);
  }

  // A request while any session is underway can be answered twice.
  lemma CanSpoil(cfg: Config, before: seq<Step>, s: Sid) returns (more: seq<Step>)
    requires Run(cfg, before).asker.Idle? && s in Run(cfg, before).ses && Underway(Run(cfg, before).ses[s])
    ensures Run(cfg, before + [Shutdown] + more).fired == 2
  {
    var asked := before + [Shutdown];
    RunSnoc(cfg, before, Shutdown);
    UnaskedAlways(cfg, before);
    OwedAlways(cfg, before);
    var on := Line(cfg, asked);
    var end := AnswerTwice(cfg, on, s);
    more := end[|asked|..];
    assert end == asked + more;
  }

  ghost predicate GoodAfter(cfg: Config, before: seq<Step>, more: seq<Step>) {
    Good(Run(cfg, before + [Shutdown] + more))
  }

  // Exactly when a request is safe: every continuation calls back at most once and only with an empty list, if and
  // only if no session is underway at the request.
  lemma SafeRequest(cfg: Config, before: seq<Step>)
    requires Run(cfg, before).asker.Idle?
    ensures (forall more :: GoodAfter(cfg, before, more)) <==> NoneUnderway(Run(cfg, before).ses)
  {
    if NoneUnderway(Run(cfg, before).ses) {
      forall more ensures GoodAfter(cfg, before, more) {
        CalmRequest(cfg, before, more, Run(cfg, before + [Shutdown] + more));
      }
    } else {
      var s :| s in Run(cfg, before).ses && Underway(Run(cfg, before).ses[s]);
      var more := CanSpoil(cfg, before, s);
      assert !GoodAfter(cfg, before, more);
    }
  }

  lemma AcceptFirst(cfg: Config, st: System, s: Sid)
    requires s !in st.ses
    ensures var next := Next(cfg, st, Accept(s));
      s in next.ses && next.ses[s] == FRESH && next.asker == st.asker && next.shutdown == st.shutdown
  {
  }

  lemma StartAccepted(cfg: Config, st: System, s: Sid)
    requires s in st.ses && st.ses[s] == FRESH && !st.shutdown
    ensures var next := Next(cfg, st, Start(s, false));
      s in next.ses && next.ses[s].pc.Passed? && next.asker == st.asker
  {
  }

  lemma OneStarted(cfg: Config, one: seq<Step>, two: seq<Step>, s: Sid)
    requires one == [Accept(s)] && two == one + [Start(s, false)]
    ensures var st := Run(cfg, two); st.asker.Idle? && s in st.ses && st.ses[s].pc.Passed?
  {
    RunSnoc(cfg, [], Accept(s));
    assert [] + [Accept(s)] == one;
    AcceptFirst(cfg, START, s);
    RunSnoc(cfg, one, Start(s, false));
    StartAccepted(cfg, Run(cfg, one), s);
  }

  // One session that has passed the look at the flag in starting is enough.
  lemma CalledTwice(cfg: Config)
    ensures exists steps :: Run(cfg, steps).fired == 2
  {
    var s: Sid :| true;
    var one := [Accept(s)];
    var started := one + [Start(s, false)];
    OneStarted(cfg, one, started, s);
    var more := CanSpoil(cfg, started, s);
    assert Run(cfg, started + [Shutdown] + more).fired == 2;
  }
}
