// The single-session rule over the session machine: wake-ups are handed on exactly once, waiting never
// deadlocks, in deny mode no two listed sessions share a name, and in replace mode all but the newest of those that
// share one are told to terminate.

module SessionNames {
  import opened Common
  import opened Session
  import opened SessionSafety

  // Between taking a place in the list and handing its wake-up on.
  predicate CanWake(x: Ses) {
    InList(x) || x.pc.Unlinked? || x.pc.Leaving? || x.pc.Uncounted?
  }

  predicate PastWaking(x: Ses) {
    x.pc.CheckFlag? || x.pc.CheckStarting? || x.pc.CheckActive? || x.pc.CheckFinishing? || x.pc.Done?
  }

  predicate Wakes(ses: map<Sid, Ses>, o: Sid, n: Sid) {
    o in ses && ses[o].link.wakeup == Some(n)
  }

  predicate Waits(ses: map<Sid, Ses>, n: Sid) {
    n in ses && ses[n].link.waiting
  }

  predicate Tidy(x: Ses, clock: nat) {
    && (x.link.username.Some? ==> CanWake(x) && x.link.named < clock)
    && (x.link.wakeup.Some? ==> x.link.username.Some?)
    && (x.link.waiting ==> x.pc.Live? && x.link.username.Some?)
    && x.link.armed == x.link.woken + One(x.link.waiting)
    && x.link.armed <= 1
    && (x.link.username.None? ==> x.link.armed == 0 || PastWaking(x))
  }

  ghost predicate AllTidy(ses: map<Sid, Ses>, clock: nat) {
    forall s :: s in ses ==> Tidy(ses[s], clock)
  }

  // Whoever is named in a wake-up waits, and took its name after the session it waits for.
  ghost predicate WaitsFor(ses: map<Sid, Ses>) {
    forall o, n :: Wakes(ses, o, n) ==> Waits(ses, n) && ses[o].link.named < ses[n].link.named
  }

  ghost predicate NoneTwice(ses: map<Sid, Ses>) {
    forall o, p, n :: Wakes(ses, o, n) && Wakes(ses, p, n) ==> o == p
  }

  ghost predicate NoneLost(ses: map<Sid, Ses>) {
    forall n :: Waits(ses, n) ==> exists o :: Wakes(ses, o, n)
  }

  ghost predicate Linked(ses: map<Sid, Ses>, clock: nat) {
    AllTidy(ses, clock) && WaitsFor(ses) && NoneTwice(ses) && NoneLost(ses)
  }

  // ---------------------------------------------------------------- one step

  // A step of a session's own leaves its links alone, unless it hands the wake-up on.
  lemma LocalLink(x: Ses, step: Step, shutdown: bool, c: Counters, clock: nat)
    requires Tidy(x, clock)
    ensures var ch := Local(x, step, shutdown, c);
      ch.Some? ==>
        && Tidy(ch.value.x, clock)
        && !x.link.waiting
        && (if x.pc.Uncounted? then
              ch.value.wake == x.link.wakeup && ch.value.x.link == x.link.(wakeup := None, username := None)
            else
              ch.value.wake == None && ch.value.x.link == x.link)
  {
  }

  lemma LinkedSame(ses: map<Sid, Ses>, next: map<Sid, Ses>, s: Sid, clock: nat)
    requires Linked(ses, clock) && s in ses && s in next && next == ses[s := next[s]]
    requires next[s].link == ses[s].link && Tidy(next[s], clock)
    ensures Linked(next, clock)
  {
    assert forall o, n :: Wakes(next, o, n) <==> Wakes(ses, o, n);
    forall n | Waits(next, n) ensures exists o :: Wakes(next, o, n) {
      assert Waits(ses, n);
      var o :| Wakes(ses, o, n);
      assert Wakes(next, o, n);
    }
  }

  // The session that hands its wake-up on names nobody afterwards; the one it named waits no longer.
  lemma LinkedDeliver(ses: map<Sid, Ses>, s: Sid, x: Ses, clock: nat)
    requires Linked(ses, clock) && s in ses && !ses[s].link.waiting && Tidy(x, clock)
    requires x.link == ses[s].link.(wakeup := None, username := None)
    ensures Linked(Woken(ses[s := x], ses[s].link.wakeup), clock)
  {
    var wake := ses[s].link.wakeup;
    var next := Woken(ses[s := x], wake);
    if wake.Some? {
      assert Wakes(ses, s, wake.value);
      assert wake.value != s;
    }
    assert forall o, n :: Wakes(next, o, n) <==> Wakes(ses, o, n) && o != s;
    DeliverTidy(ses, s, x, clock);
    forall n | Waits(next, n) ensures exists o :: Wakes(next, o, n) {
      assert Waits(ses, n);
      var o :| Wakes(ses, o, n);
      assert Wakes(next, o, n);
    }
  }

  lemma DeliverTidy(ses: map<Sid, Ses>, s: Sid, x: Ses, clock: nat)
    requires Linked(ses, clock) && s in ses && !ses[s].link.waiting && Tidy(x, clock)
    requires x.link == ses[s].link.(wakeup := None, username := None)
    ensures AllTidy(Woken(ses[s := x], ses[s].link.wakeup), clock)
  {
    var wake := ses[s].link.wakeup;
    if wake.Some? {
      assert Wakes(ses, s, wake.value);
      assert Tidy(ses[wake.value], clock);
    }
  }

  lemma LinkedLocal(st: System, s: Sid, step: Step, ch: Change)
    requires Linked(st.ses, st.clock) && s in st.ses
    requires Local(st.ses[s], step, st.shutdown, st.count) == Some(ch)
    ensures Linked(Apply(st, s, ch).ses, st.clock)
  {
    var x := st.ses[s];
    LocalLink(x, step, st.shutdown, st.count, st.clock);
    if x.pc.Uncounted? {
      LinkedDeliver(st.ses, s, ch.x, st.clock);
    } else {
      LinkedSame(st.ses, st.ses[s := ch.x], s, st.clock);
    }
  }

  lemma LinkedAccept(ses: map<Sid, Ses>, s: Sid, clock: nat)
    requires Linked(ses, clock) && s !in ses
    ensures Linked(ses[s := FRESH], clock)
  {
    var next := ses[s := FRESH];
    assert forall o, n :: Wakes(next, o, n) <==> Wakes(ses, o, n);
    forall n | Waits(next, n) ensures exists o :: Wakes(next, o, n) {
      assert Waits(ses, n);
      var o :| Wakes(ses, o, n);
      assert Wakes(next, o, n);
    }
  }

  // A new name without a wait.
  lemma LinkedNamed(ses: map<Sid, Ses>, s: Sid, name: string, clock: nat)
    requires Linked(ses, clock) && s in ses && ses[s].link.username.None? && Ready(ses[s])
    ensures Linked(NamedMap(ses, s, name, clock), clock + 1)
  {
    var next := NamedMap(ses, s, name, clock);
    assert Tidy(ses[s], clock);
    assert forall o, n :: Wakes(next, o, n) <==> Wakes(ses, o, n);
    assert forall n :: !Wakes(ses, s, n);
    assert forall o :: !Wakes(ses, o, s);
    forall n | Waits(next, n) ensures exists o :: Wakes(next, o, n) {
      assert Waits(ses, n);
      var o :| Wakes(ses, o, n);
      assert Wakes(next, o, n);
    }
  }

  lemma ArmedTidy(ses: map<Sid, Ses>, o: Sid, s: Sid, name: string, clock: nat)
    requires AllTidy(ses, clock) && s in ses && ses[s].link.username.None? && Ready(ses[s])
    requires o in ses && ses[o].link.username.Some?
    ensures AllTidy(ArmedMap(ses, o, s, name, clock), clock + 1)
  {
    assert Tidy(ses[s], clock) && Tidy(ses[o], clock);
  }

  // A new name with a wait: exactly one older session is told to wake the new one.
  lemma LinkedArmed(ses: map<Sid, Ses>, o: Sid, s: Sid, name: string, clock: nat)
    requires Linked(ses, clock) && s in ses && ses[s].link.username.None? && Ready(ses[s])
    requires o in ses && ses[o].link.username.Some? && ses[o].link.wakeup.None?
    ensures Linked(ArmedMap(ses, o, s, name, clock), clock + 1)
  {
    var next := ArmedMap(ses, o, s, name, clock);
    assert Tidy(ses[s], clock) && Tidy(ses[o], clock);
    assert forall p :: !Wakes(ses, p, s);
    assert forall p, n :: Wakes(next, p, n) <==> Wakes(ses, p, n) || (p == o && n == s);
    ArmedTidy(ses, o, s, name, clock);
    ArmedWaits(ses, o, s, name, clock);
    forall n | Waits(next, n) ensures exists p :: Wakes(next, p, n) {
      if n == s {
        assert Wakes(next, o, n);
      } else {
        assert Waits(ses, n);
        var p :| Wakes(ses, p, n);
        assert Wakes(next, p, n);
      }
    }
  }

  lemma ArmedWaits(ses: map<Sid, Ses>, o: Sid, s: Sid, name: string, clock: nat)
    requires Linked(ses, clock) && s in ses && ses[s].link.username.None? && Ready(ses[s])
    requires o in ses && ses[o].link.username.Some? && ses[o].link.wakeup.None?
    ensures WaitsFor(ArmedMap(ses, o, s, name, clock))
  {
    var next := ArmedMap(ses, o, s, name, clock);
    assert Tidy(ses[s], clock) && Tidy(ses[o], clock);
    forall p, n | Wakes(next, p, n)
      ensures Waits(next, n) && next[p].link.named < next[n].link.named
    {
      if p != o {
        assert Wakes(ses, p, n);
      }
    }
  }

  lemma LinkedTakeName(cfg: Config, st: System, s: Sid, name: string)
    requires Linked(st.ses, st.clock) && s in st.ses && Ready(st.ses[s]) && st.ses[s].link.username.None?
    ensures Linked(TakeName(cfg, st, s, name).ses, TakeName(cfg, st, s, name).clock)
  {
    var first := FirstFree(cfg, st.ses, st.list, name);
    if cfg.mode.Replace? && first.Some? {
      LinkedArmed(st.ses, first.value, s, name, st.clock);
    } else {
      LinkedNamed(st.ses, s, name, st.clock);
    }
  }

  lemma LinkedNext(cfg: Config, st: System, step: Step)
    requires Linked(st.ses, st.clock)
    ensures Linked(Next(cfg, st, step).ses, Next(cfg, st, step).clock)
  {
    if step.Accept? {
      if step.s !in st.ses { LinkedAccept(st.ses, step.s, st.clock); }
    } else if step.SetUsername? {
      if step.s in st.ses && Ready(st.ses[step.s]) && st.ses[step.s].link.username.None? {
        LinkedTakeName(cfg, st, step.s, step.name);
      }
    } else if !step.Shutdown? && !step.Ask? && step.s in st.ses {
      var ch := Local(st.ses[step.s], step, st.shutdown, st.count);
      if ch.Some? { LinkedLocal(st, step.s, step, ch.value); }
    }
  }

  // ---------------------------------------------------------------- every run

  lemma {:induction false} LinkedAlways(cfg: Config, steps: seq<Step>)
    ensures Linked(Run(cfg, steps).ses, Run(cfg, steps).clock)
    decreases |steps|
  {
    if steps != [] {
      LinkedAlways(cfg, steps[..|steps| - 1]);
      LinkedNext(cfg, Run(cfg, steps[..|steps| - 1]), steps[|steps| - 1]);
    }
  }

  // A session waits exactly while one other session is bound to wake it: never two, never one that has already
  // handed its wake-ups on.
  lemma WaitingIsArmed(cfg: Config, steps: seq<Step>, ses: map<Sid, Ses>, n: Sid)
    requires ses == Run(cfg, steps).ses && n in ses
    ensures ses[n].link.waiting <==> exists o :: Wakes(ses, o, n)
    ensures forall o, p :: Wakes(ses, o, n) && Wakes(ses, p, n) ==> o == p
    ensures forall o :: Wakes(ses, o, n) ==> o != n && CanWake(ses[o])
  {
    LinkedAlways(cfg, steps);
    assert Waits(ses, n) <==> ses[n].link.waiting;
    if o :| Wakes(ses, o, n) {
      assert Tidy(ses[o], Run(cfg, steps).clock);
    }
    forall o | Wakes(ses, o, n) ensures o != n && CanWake(ses[o]) {
      assert Tidy(ses[o], Run(cfg, steps).clock);
    }
  }

  // A session is told to wait at most once and is woken exactly as often, unless it is still waiting.
  lemma WokenOnce(cfg: Config, steps: seq<Step>, n: Sid)
    requires n in Run(cfg, steps).ses
    ensures var link := Run(cfg, steps).ses[n].link;
      link.armed <= 1 && link.woken == link.armed - One(link.waiting)
  {
    LinkedAlways(cfg, steps);
    assert Tidy(Run(cfg, steps).ses[n], Run(cfg, steps).clock);
  }

  // Waiting never deadlocks: behind every waiting session there is one that waits for nobody and is bound to
  // wake somebody.
  lemma {:induction false} SomebodyMoves(ses: map<Sid, Ses>, clock: nat, n: Sid) returns (o: Sid)
    requires Linked(ses, clock) && n in ses && ses[n].link.waiting
    ensures o in ses && ses[o].link.wakeup.Some? && !ses[o].link.waiting
    decreases ses[n].link.named
  {
    assert Waits(ses, n);
    o :| Wakes(ses, o, n);
    if ses[o].link.waiting {
      o := SomebodyMoves(ses, clock, o);
    }
  }

  lemma NoDeadlock(cfg: Config, steps: seq<Step>, n: Sid)
    requires n in Run(cfg, steps).ses && Run(cfg, steps).ses[n].link.waiting
    ensures exists o :: o in Run(cfg, steps).ses && CanWake(Run(cfg, steps).ses[o])
                     && !Run(cfg, steps).ses[o].link.waiting && Run(cfg, steps).ses[o].link.wakeup.Some?
  {
    LinkedAlways(cfg, steps);
    var o := SomebodyMoves(Run(cfg, steps).ses, Run(cfg, steps).clock, n);
    assert Tidy(Run(cfg, steps).ses[o], Run(cfg, steps).clock);
  }

  // ---------------------------------------------------------------- the scan of the list

  // One pass over the list under the lock: refuse, or arm the first session that is free and tell every bearer to
  // terminate, and take the name.
  method ScanAndTakeName(cfg: Config, st: System, s: Sid, name: string) returns (denied: bool, wait: bool, next: System)
    requires s in st.ses && Ready(st.ses[s]) && st.ses[s].link.username.None?
    ensures next == TakeName(cfg, st, s, name)
    ensures denied <==> cfg.mode.Deny? && Taken(cfg, st.ses, st.list, name)
    ensures wait <==> next.ses[s].link.waiting
  {
    denied, wait := false, false;
    var older := s;
    var told := st.told;
    var i := 0;
    while i < |st.list| && !cfg.mode.Unlimited?
      invariant 0 <= i <= |st.list|
      invariant cfg.mode.Deny? ==> forall j :: 0 <= j < i ==> !Matches(cfg, st.ses, st.list[j], name)
      invariant wait ==> cfg.mode.Replace?
      invariant cfg.mode.Replace? ==>
        FirstFree(cfg, st.ses, st.list, name)
        == if wait then Some(older) else FirstFree(cfg, st.ses, st.list[i..], name)
      invariant told == st.told + if cfg.mode.Replace? then Bearers(cfg, st.ses, st.list[..i], name) else {}
    {
      var o := st.list[i];
      MoreBearers(cfg, st.ses, st.list, i, name);
      if Matches(cfg, st.ses, o, name) {
        if cfg.mode.Deny? {
          return true, false, st;
        }
        if !wait && st.ses[o].link.wakeup.None? {
          older, wait := o, true;
        }
        told := told + {o};
      }
      assert st.list[i..][1..] == st.list[i + 1..];
      i := i + 1;
    }
    assert st.list[..|st.list|] == st.list;
    next := st.(ses := if wait then ArmedMap(st.ses, older, s, name, st.clock) else NamedMap(st.ses, s, name, st.clock),
                clock := st.clock + 1, told := told);
  }

  lemma MoreBearers(cfg: Config, ses: map<Sid, Ses>, list: seq<Sid>, i: nat, name: string)
    requires i < |list|
    ensures Bearers(cfg, ses, list[..i + 1], name)
         == Bearers(cfg, ses, list[..i], name) + if Matches(cfg, ses, list[i], name) then {list[i]} else {}
  {
    var before, after := list[..i], list[..i + 1];
    assert after == before + [list[i]];
    forall o | o in Bearers(cfg, ses, before, name) ensures o in Bearers(cfg, ses, after, name) {
      var j :| 0 <= j < i && Matches(cfg, ses, before[j], name) && before[j] == o;
      assert after[j] == o;
    }
    if Matches(cfg, ses, list[i], name) {
      assert after[i] == list[i];
    }
  }

  // ---------------------------------------------------------------- replace mode

  lemma {:induction false} LeastFree(cfg: Config, ses: map<Sid, Ses>, list: seq<Sid>, name: string, i: nat)
    requires i < |list| && Free(cfg, ses, list[i], name)
    requires forall j :: 0 <= j < i ==> !Free(cfg, ses, list[j], name)
    ensures FirstFree(cfg, ses, list, name) == Some(list[i])
  {
    if i > 0 {
      LeastFree(cfg, ses, list[1..], name, i - 1);
    }
  }

  lemma {:induction false} NoneFree(cfg: Config, ses: map<Sid, Ses>, list: seq<Sid>, name: string)
    requires forall j :: 0 <= j < |list| ==> !Free(cfg, ses, list[j], name)
    ensures FirstFree(cfg, ses, list, name).None?
  {
    if list != [] {
      NoneFree(cfg, ses, list[1..], name);
    }
  }

  // In replace mode a newcomer waits if some session in the list that bears the name wakes nobody yet: for the first
  // such, which is bound to wake it.  Every bearer is told to terminate, and no other session changes.
  lemma Replaces(cfg: Config, st: System, s: Sid, name: string, i: nat, next: System)
    requires cfg.mode.Replace? && s in st.ses && Ready(st.ses[s]) && st.ses[s].link.username.None?
    requires i < |st.list| && Free(cfg, st.ses, st.list[i], name)
    requires forall j :: 0 <= j < i ==> !Free(cfg, st.ses, st.list[j], name)
    requires next == Next(cfg, st, SetUsername(s, name))
    ensures next.ses.Keys == st.ses.Keys && st.list[i] != s && next.list == st.list
    ensures next.ses[s].link.waiting && next.ses[s].link.username == Some(name)
    ensures next.ses[st.list[i]] == st.ses[st.list[i]].(link := st.ses[st.list[i]].link.(wakeup := Some(s)))
    ensures forall o :: o in st.ses && o != s && o != st.list[i] ==> next.ses[o] == st.ses[o]
    ensures forall j :: 0 <= j < |st.list| && Matches(cfg, st.ses, st.list[j], name) ==> st.list[j] in next.told
  {
    LeastFree(cfg, st.ses, st.list, name, i);
  }

  // With no such session, and in the other modes unless it is denied, it takes the name and goes on at once.
  lemma TakesAtOnce(cfg: Config, st: System, s: Sid, name: string, next: System)
    requires s in st.ses && Ready(st.ses[s]) && st.ses[s].link.username.None?
    requires cfg.mode.Replace? ==> forall j :: 0 <= j < |st.list| ==> !Free(cfg, st.ses, st.list[j], name)
    requires cfg.mode.Deny? ==> forall j :: 0 <= j < |st.list| ==> !Matches(cfg, st.ses, st.list[j], name)
    requires next == Next(cfg, st, SetUsername(s, name))
    ensures next.ses.Keys == st.ses.Keys && next.list == st.list
    ensures !next.ses[s].link.waiting && next.ses[s].link.username == Some(name)
    ensures forall o :: o in st.ses && o != s ==> next.ses[o] == st.ses[o]
  {
    if cfg.mode.Replace? {
      NoneFree(cfg, st.ses, st.list, name);
    }
  }

  // Two sessions of one user, neither of them bound to wake another.
  predicate Rivals(cfg: Config, x: Ses, y: Ses) {
    Clash(cfg, x, y) && x.link.wakeup.None? && y.link.wakeup.None?
  }

  ghost predicate NoRivals(cfg: Config, ses: map<Sid, Ses>) {
    forall s, t :: s in ses && t in ses && s != t && InList(ses[s]) && InList(ses[t]) ==> !Rivals(cfg, ses[s], ses[t])
  }

  // Whoever is waited for has been told to terminate.
  ghost predicate AllTold(ses: map<Sid, Ses>, told: set<Sid>) {
    forall o, n :: Wakes(ses, o, n) ==> o in told
  }

  lemma LocalRivals(cfg: Config, x: Ses, step: Step, shutdown: bool, c: Counters, clock: nat, y: Ses)
    requires Tidy(x, clock)
    ensures var ch := Local(x, step, shutdown, c);
      ch.Some? && InList(ch.value.x) && (Rivals(cfg, ch.value.x, y) || Rivals(cfg, y, ch.value.x)) ==>
        InList(x) && Rivals(cfg, x, y) && Rivals(cfg, y, x)
  {
    LocalLink(x, step, shutdown, c, clock);
    LocalClash(cfg, x, step, shutdown, c, clock, y);
  }

  lemma RivalsLocal(cfg: Config, st: System, s: Sid, step: Step, ch: Change)
    requires NoRivals(cfg, st.ses) && AllTidy(st.ses, st.clock) && s in st.ses
    requires Local(st.ses[s], step, st.shutdown, st.count) == Some(ch)
    ensures NoRivals(cfg, Apply(st, s, ch).ses)
  {
    var mid := st.ses[s := ch.x];
    forall a, b | a in mid && b in mid && a != b && InList(mid[a]) && InList(mid[b])
      ensures !Rivals(cfg, mid[a], mid[b])
    {
      if a == s {
        LocalRivals(cfg, st.ses[s], step, st.shutdown, st.count, st.clock, mid[b]);
      } else if b == s {
        LocalRivals(cfg, st.ses[s], step, st.shutdown, st.count, st.clock, mid[a]);
      }
    }
    RivalsWoken(cfg, mid, ch.wake);
  }

  lemma RivalsWoken(cfg: Config, ses: map<Sid, Ses>, wake: Option<Sid>)
    requires NoRivals(cfg, ses)
    ensures NoRivals(cfg, Woken(ses, wake))
  {
    var next := Woken(ses, wake);
    forall a, b | a in next && b in next && a != b && InList(next[a]) && InList(next[b])
      ensures !Rivals(cfg, next[a], next[b])
    {
      assert a in ses && b in ses && InList(ses[a]) && InList(ses[b]);
      assert !Rivals(cfg, ses[a], ses[b]);
    }
  }

  // No listed session bears the name and is free, but for the one that is armed.
  lemma OnlyFree(cfg: Config, st: System, name: string, t: Sid)
    requires NoRivals(cfg, st.ses) && Listed(st.ses, st.list)
    requires t in st.ses && InList(st.ses[t]) && Free(cfg, st.ses, t, name)
    ensures FirstFree(cfg, st.ses, st.list, name) == Some(t)
  {
    assert t in st.list;
    var first := FirstFree(cfg, st.ses, st.list, name);
    if first.None? {
      var i :| 0 <= i < |st.list| && st.list[i] == t;
      FreeFound(cfg, st.ses, st.list, name, i);
    } else {
      assert first.value != t ==> !Rivals(cfg, st.ses[first.value], st.ses[t]);
    }
  }

  lemma {:induction false} FreeFound(cfg: Config, ses: map<Sid, Ses>, list: seq<Sid>, name: string, i: nat)
    requires i < |list| && Free(cfg, ses, list[i], name)
    ensures FirstFree(cfg, ses, list, name).Some?
  {
    if i > 0 {
      FreeFound(cfg, ses, list[1..], name, i - 1);
    }
  }

  lemma RivalsTakeName(cfg: Config, st: System, s: Sid, name: string)
    requires cfg.mode.Replace? && NoRivals(cfg, st.ses) && Listed(st.ses, st.list)
    requires s in st.ses && st.ses[s].link.username.None?
    ensures NoRivals(cfg, TakeName(cfg, st, s, name).ses)
  {
    var next := TakeName(cfg, st, s, name).ses;
    forall t | t in st.ses && t != s && InList(st.ses[t]) && Free(cfg, st.ses, t, name)
      ensures next[t].link.wakeup.Some?
    {
      OnlyFree(cfg, st, name, t);
    }
    forall a, b | a in next && b in next && a != b && InList(next[a]) && InList(next[b])
      ensures !Rivals(cfg, next[a], next[b])
    {
      if a != s && b != s {
        assert !Rivals(cfg, st.ses[a], st.ses[b]);
      } else {
        var t := if a == s then b else a;
        assert Rivals(cfg, next[a], next[b]) ==> Free(cfg, st.ses, t, name);
      }
    }
  }

  lemma ToldTakeName(cfg: Config, st: System, s: Sid, name: string)
    requires AllTold(st.ses, st.told) && s in st.ses && st.ses[s].link.username.None?
    ensures var next := TakeName(cfg, st, s, name); AllTold(next.ses, next.told)
  {
    var first, next := FirstFree(cfg, st.ses, st.list, name), TakeName(cfg, st, s, name);
    forall o, n | Wakes(next.ses, o, n) ensures o in next.told {
      if !Wakes(st.ses, o, n) {
        assert first == Some(o);
        var i :| 0 <= i < |st.list| && st.list[i] == o;
        assert st.list[i] in Bearers(cfg, st.ses, st.list, name);
      }
    }
  }

  lemma ToldLocal(st: System, s: Sid, step: Step, ch: Change)
    requires AllTold(st.ses, st.told) && AllTidy(st.ses, st.clock) && s in st.ses
    requires Local(st.ses[s], step, st.shutdown, st.count) == Some(ch)
    ensures AllTold(Apply(st, s, ch).ses, st.told)
  {
    LocalLink(st.ses[s], step, st.shutdown, st.count, st.clock);
    var next := Apply(st, s, ch).ses;
    forall o, n | Wakes(next, o, n) ensures o in st.told {
      assert Wakes(st.ses, o, n);
    }
  }

  lemma ReplaceNext(cfg: Config, st: System, step: Step)
    requires cfg.mode.Replace? && NoRivals(cfg, st.ses) && AllTold(st.ses, st.told)
    requires Listed(st.ses, st.list) && AllTidy(st.ses, st.clock)
    ensures NoRivals(cfg, Next(cfg, st, step).ses)
    ensures AllTold(Next(cfg, st, step).ses, Next(cfg, st, step).told)
  {
    if step.SetUsername? {
      if step.s in st.ses && Ready(st.ses[step.s]) && st.ses[step.s].link.username.None? {
        RivalsTakeName(cfg, st, step.s, step.name);
        ToldTakeName(cfg, st, step.s, step.name);
      }
    } else if step.Accept? {
      assert forall o, n :: Wakes(Next(cfg, st, step).ses, o, n) ==> Wakes(st.ses, o, n);
    } else if !step.Shutdown? && !step.Ask? && step.s in st.ses {
      var ch := Local(st.ses[step.s], step, st.shutdown, st.count);
      if ch.Some? {
        RivalsLocal(cfg, st, step.s, step, ch.value);
        ToldLocal(st, step.s, step, ch.value);
      }
    }
  }

  lemma {:induction false} ReplaceAlways(cfg: Config, steps: seq<Step>)
    requires cfg.mode.Replace?
    ensures NoRivals(cfg, Run(cfg, steps).ses) && AllTold(Run(cfg, steps).ses, Run(cfg, steps).told)
    decreases |steps|
  {
    if steps != [] {
      var before := steps[..|steps| - 1];
      ReplaceAlways(cfg, before);
      LinkedAlways(cfg, before);
      ListedAlways(cfg, before);
      ReplaceNext(cfg, Run(cfg, before), steps[|steps| - 1]);
    }
  }

  // Has been told to terminate, and a session that waits will go on when it has finished.
  predicate Superseded(st: System, s: Sid) {
    s in st.told && s in st.ses && st.ses[s].link.wakeup.Some? && Waits(st.ses, st.ses[s].link.wakeup.value)
  }

  // In replace mode, of any two sessions in the list that bear the same name, neither of which failed at
  // authentication, one is superseded: so all but one of them are.
  lemma AllButOneSuperseded(cfg: Config, steps: seq<Step>, st: System, i: nat, j: nat)
    requires cfg.mode.Replace? && st == Run(cfg, steps) && i < j < |st.list|
    ensures st.list[i] in st.ses && st.list[j] in st.ses
    ensures Clash(cfg, st.ses[st.list[i]], st.ses[st.list[j]]) ==>
      Superseded(st, st.list[i]) || Superseded(st, st.list[j])
  {
    ReplaceAlways(cfg, steps);
    LinkedAlways(cfg, steps);
    ListedAlways(cfg, steps);
    var s, t := st.list[i], st.list[j];
    assert s in st.list && t in st.list && s != t;
    assert !Rivals(cfg, st.ses[s], st.ses[t]);
    if st.ses[s].link.wakeup.Some? {
      assert Wakes(st.ses, s, st.ses[s].link.wakeup.value);
    } else if st.ses[t].link.wakeup.Some? {
      assert Wakes(st.ses, t, st.ses[t].link.wakeup.value);
    }
  }

  // ---------------------------------------------------------------- deny mode

  // Two sessions of one user, neither of them failed at authentication.
  predicate Clash(cfg: Config, x: Ses, y: Ses) {
    && x.link.username.Some? && y.link.username.Some?
    && cfg.fold(x.link.username.value) == cfg.fold(y.link.username.value)
    && !x.cause.AuthError? && !y.cause.AuthError?
  }

  ghost predicate Sole(cfg: Config, ses: map<Sid, Ses>) {
    forall s, t :: s in ses && t in ses && s != t && InList(ses[s]) && InList(ses[t]) ==> !Clash(cfg, ses[s], ses[t])
  }

  lemma LocalClash(cfg: Config, x: Ses, step: Step, shutdown: bool, c: Counters, clock: nat, y: Ses)
    requires Tidy(x, clock)
    ensures var ch := Local(x, step, shutdown, c);
      ch.Some? && InList(ch.value.x) && (Clash(cfg, ch.value.x, y) || Clash(cfg, y, ch.value.x)) ==>
        InList(x) && Clash(cfg, x, y) && Clash(cfg, y, x)
  {
  }

  lemma SoleLocal(cfg: Config, st: System, s: Sid, step: Step, ch: Change)
    requires Sole(cfg, st.ses) && AllTidy(st.ses, st.clock) && s in st.ses
    requires Local(st.ses[s], step, st.shutdown, st.count) == Some(ch)
    ensures Sole(cfg, Apply(st, s, ch).ses)
  {
    var mid := st.ses[s := ch.x];
    forall a, b | a in mid && b in mid && a != b && InList(mid[a]) && InList(mid[b])
      ensures !Clash(cfg, mid[a], mid[b])
    {
      if a == s {
        LocalClash(cfg, st.ses[s], step, st.shutdown, st.count, st.clock, mid[b]);
      } else if b == s {
        LocalClash(cfg, st.ses[s], step, st.shutdown, st.count, st.clock, mid[a]);
      }
    }
    SoleWoken(cfg, mid, ch.wake);
  }

  lemma SoleWoken(cfg: Config, ses: map<Sid, Ses>, wake: Option<Sid>)
    requires Sole(cfg, ses)
    ensures Sole(cfg, Woken(ses, wake))
  {
    var next := Woken(ses, wake);
    forall a, b | a in next && b in next && a != b && InList(next[a]) && InList(next[b])
      ensures !Clash(cfg, next[a], next[b])
    {
      assert a in ses && b in ses && InList(ses[a]) && InList(ses[b]);
      assert !Clash(cfg, ses[a], ses[b]);
    }
  }

  lemma SoleTakeName(cfg: Config, st: System, s: Sid, name: string)
    requires cfg.mode.Deny? && Sole(cfg, st.ses) && Listed(st.ses, st.list)
    requires s in st.ses && st.ses[s].link.username.None?
    ensures Sole(cfg, TakeName(cfg, st, s, name).ses)
  {
    if !Taken(cfg, st.ses, st.list, name) {
      var next := NamedMap(st.ses, s, name, st.clock);
      forall t | t in st.ses && InList(st.ses[t]) ensures !Matches(cfg, st.ses, t, name) {
        assert t in st.list;
        var i :| 0 <= i < |st.list| && st.list[i] == t;
      }
      forall a, b | a in next && b in next && a != b && InList(next[a]) && InList(next[b])
        ensures !Clash(cfg, next[a], next[b])
      {
        if a != s && b != s {
          assert !Clash(cfg, st.ses[a], st.ses[b]);
        }
      }
    }
  }

  lemma SoleNext(cfg: Config, st: System, step: Step)
    requires cfg.mode.Deny? && Sole(cfg, st.ses) && Listed(st.ses, st.list) && AllTidy(st.ses, st.clock)
    ensures Sole(cfg, Next(cfg, st, step).ses)
  {
    if step.SetUsername? {
      if step.s in st.ses && Ready(st.ses[step.s]) && st.ses[step.s].link.username.None? {
        SoleTakeName(cfg, st, step.s, step.name);
      }
    } else if !step.Shutdown? && !step.Ask? && !step.Accept? && step.s in st.ses {
      var ch := Local(st.ses[step.s], step, st.shutdown, st.count);
      if ch.Some? { SoleLocal(cfg, st, step.s, step, ch.value); }
    }
  }

  lemma {:induction false} SoleAlways(cfg: Config, steps: seq<Step>)
    requires cfg.mode.Deny?
    ensures Sole(cfg, Run(cfg, steps).ses)
    decreases |steps|
  {
    if steps != [] {
      var before := steps[..|steps| - 1];
      SoleAlways(cfg, before);
      LinkedAlways(cfg, before);
      ListedAlways(cfg, before);
      SoleNext(cfg, Run(cfg, before), steps[|steps| - 1]);
    }
  }

  // In deny mode no two sessions in the list bear the same name, unless one of them failed at authentication.
  lemma OnePerName(cfg: Config, steps: seq<Step>, st: System, i: nat, j: nat)
    requires cfg.mode.Deny? && st == Run(cfg, steps) && i < j < |st.list|
    ensures st.list[i] in st.ses && st.list[j] in st.ses
    ensures !Clash(cfg, st.ses[st.list[i]], st.ses[st.list[j]])
  {
    SoleAlways(cfg, steps);
    ListedAlways(cfg, steps);
    assert st.list[i] in st.list && st.list[j] in st.list && st.list[i] != st.list[j];
  }
}
