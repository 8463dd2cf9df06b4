// Calls of one session that overlap: any number of finishes, of which the guard lets one through, and a termination
// that a finish may overtake.  One step makes at most one access to the session's fields or to a counter.

module SessionOverlap {
  import opened Common

  datatype Life = Starting | Active | Finishing

  datatype Which = OfStarting | OfActive | OfFinishing | OfIncoming

  // What the session adds to the counters.
  datatype Share = Share(starting: int, active: int, finishing: int, incoming: int)

  function Get(c: Share, w: Which): int {
    match w
    case OfStarting => c.starting
    case OfActive => c.active
    case OfFinishing => c.finishing
    case OfIncoming => c.incoming
  }

  // One access to one counter.
  function Bump(c: Share, w: Which, d: int): Share {
    match w
    case OfStarting => c.(starting := c.starting + d)
    case OfActive => c.(active := c.active + d)
    case OfFinishing => c.(finishing := c.finishing + d)
    case OfIncoming => c.(incoming := c.incoming + d)
  }

  // Which counters a session in that state is in.
  function In(life: Life, w: Which): int {
    match w
    case OfStarting => if life.Starting? then 1 else 0
    case OfActive => if life.Active? then 1 else 0
    case OfFinishing => if life.Finishing? then 1 else 0
    case OfIncoming => if life.Starting? then 1 else 0
  }

  // Where the termination stands.
  datatype Term =
    | Idle
    | SawAlive        // `terminated` was clear
    | SawUnfinished   // and so was the guard
    | Taken           // not yet terminating: it goes ahead
    | Halfway         // out of `starting`
    | Out             // out of the old counter
    | Moved           // into `finishing`
    | Marked          // `terminating` is set

  // Where the finish stands that has the guard.
  datatype Fin =
    | NotYet
    | Won                 // the guard is taken
    | Told                // `terminated` is set
    | Read(seen: Life)    // the state is read
    | Half(seen: Life)    // out of `starting`
    | Ended(seen: Life)

  datatype Core = Core(
    life: Life,
    terminated: bool,
    started: bool,         // the guard
    terminating: bool,
    count: Share,
    term: Term,
    passes: nat,           // how often a termination went ahead
    fin: Fin,
    overlap: bool          // the finish read the state inside a termination
  )

  // The session, and the callers of finish: who went through the guard and who was turned away.
  datatype World = World(core: Core, through: map<nat, bool>)

  datatype Step = Terminate | Finish(c: nat)

  function Full(life: Life): Share {
    Share(In(life, OfStarting), In(life, OfActive), In(life, OfFinishing), In(life, OfIncoming))
  }

  function Begin(life: Life): World {
    World(Core(life, false, false, life.Finishing?, Full(life), Idle, 0, NotYet, false), map[])
  }

  // ---------------------------------------------------------------- the steps

  // The next access of the termination; it may be called again and again.
  function Terminating(x: Core): Core {
    match x.term
    case Idle => if x.terminated then x else x.(term := SawAlive)
    case SawAlive => x.(term := if x.started then Idle else SawUnfinished)
    case SawUnfinished => if x.terminating then x.(term := Idle) else x.(term := Taken, passes := x.passes + 1)
    case Taken =>
      if x.life.Active? then x.(term := Out, count := Bump(x.count, OfActive, -1))
      else x.(term := Halfway, count := Bump(x.count, OfStarting, -1))
    case Halfway => x.(term := Out, count := Bump(x.count, OfIncoming, -1))
    case Out => x.(term := Moved, count := Bump(x.count, OfFinishing, 1))
    case Moved => x.(term := Marked, terminating := true)
    case Marked => x.(term := Idle, life := Finishing)
  }

  // Between the look at the guard and the new state, with nothing left to hold the termination back.
  predicate Inside(x: Core) {
    !x.term.Idle? && !x.term.SawAlive? && (x.term.SawUnfinished? ==> !x.terminating)
  }

  // The next access of the finish that has the guard.
  function Finishes(x: Core): Core {
    match x.fin
    case NotYet => x
    case Won => x.(fin := Told, terminated := true)
    case Told => x.(fin := Read(x.life), overlap := Inside(x))
    case Read(seen) =>
      if seen.Starting? then x.(fin := Half(seen), count := Bump(x.count, OfStarting, -1))
      else x.(fin := Ended(seen), count := Bump(x.count, FirstOut(seen), -1))
    case Half(seen) => x.(fin := Ended(seen), count := Bump(x.count, OfIncoming, -1))
    case Ended(_) => x
  }

  // A new caller tests and sets the guard in one access.
  function Next(st: World, step: Step): World {
    if step.Terminate? then st.(core := Terminating(st.core))
    else if step.c !in st.through then
      World(if st.core.started then st.core else st.core.(started := true, fin := Won),
            st.through[step.c := !st.core.started])
    else if st.through[step.c] then st.(core := Finishes(st.core))
    else st
  }

  function Run(life: Life, steps: seq<Step>): World
    decreases |steps|
  {
    if steps == [] then Begin(life) else Next(Run(life, steps[..|steps| - 1]), steps[|steps| - 1])
  }

  // ---------------------------------------------------------------- what every run keeps

  predicate Ahead(t: Term) {
    t.Taken? || t.Halfway? || t.Out? || t.Moved? || t.Marked?
  }

  // A termination goes ahead at most once, and until it is done the state is the first.
  predicate TermSound(life: Life, x: Core) {
    if Ahead(x.term) then
      && x.passes == 1 && x.life == life && !life.Finishing? && (x.terminating <==> x.term.Marked?)
      && (x.term.Halfway? ==> life.Starting?)
    else if x.passes == 0 then x.life == life && (x.terminating <==> life.Finishing?)
    else x.passes == 1 && x.life.Finishing? && !life.Finishing? && x.terminating
  }

  predicate GuardSound(x: Core) {
    (x.started <==> !x.fin.NotYet?) && (x.terminated <==> !x.fin.NotYet? && !x.fin.Won?)
  }

  // What the termination and the finish have done to a counter so far.
  function TermDone(life: Life, t: Term, passes: nat, w: Which): int {
    if t.Halfway? then (if w.OfStarting? then -1 else 0)
    else if t.Out? then -In(life, w)
    else if t.Moved? || t.Marked? || (!Ahead(t) && passes == 1) then In(Finishing, w) - In(life, w)
    else 0
  }

  function FinDone(f: Fin, w: Which): int {
    if f.Half? && w.OfStarting? then -1 else if f.Ended? then -In(f.seen, w) else 0
  }

  predicate Counts(life: Life, x: Core, w: Which) {
    Get(x.count, w) == In(life, w) + TermDone(life, x.term, x.passes, w) + FinDone(x.fin, w)
  }

  predicate HasRead(f: Fin) {
    f.Read? || f.Half? || f.Ended?
  }

  // What the finish read: inside a termination the first state, which will not be the last; outside one the last.
  predicate ReadSound(life: Life, x: Core) {
    && (x.fin.Half? ==> x.fin.seen.Starting?)
    && (HasRead(x.fin) ==>
          if x.overlap then x.fin.seen == life && !life.Finishing? && (Inside(x) || x.passes == 1)
          else !Inside(x) && x.fin.seen == x.life)
  }

  predicate Sound(life: Life, x: Core) {
    TermSound(life, x) && GuardSound(x) && ReadSound(life, x)
  }

  ghost predicate Counted(life: Life, x: Core) {
    forall w :: Counts(life, x, w)
  }

  // Nobody goes through before the guard is taken, and no two do.
  ghost predicate OneThrough(st: World) {
    && (forall c :: c in st.through && st.through[c] ==> st.core.started)
    && (forall c, d :: c in st.through && d in st.through && st.through[c] && st.through[d] ==> c == d)
  }

  lemma TermKeeps(life: Life, x: Core)
    requires Sound(life, x)
    ensures Sound(life, Terminating(x))
  {
  }

  lemma FinishKeeps(life: Life, x: Core)
    requires Sound(life, x)
    ensures Sound(life, Finishes(x))
  {
  }

  lemma BumpGet(c: Share, v: Which, d: int, w: Which)
    ensures Get(Bump(c, v, d), w) == Get(c, w) + if v == w then d else 0
  {
  }

  lemma TakenCounts(life: Life, x: Core, w: Which)
    requires TermSound(life, x) && Counts(life, x, w) && x.term.Taken?
    ensures Counts(life, Terminating(x), w)
  {
    BumpGet(x.count, if x.life.Active? then OfActive else OfStarting, -1, w);
  }

  lemma HalfwayCounts(life: Life, x: Core, w: Which)
    requires TermSound(life, x) && Counts(life, x, w) && x.term.Halfway?
    ensures Counts(life, Terminating(x), w)
  {
    BumpGet(x.count, OfIncoming, -1, w);
  }

  lemma OutCounts(life: Life, x: Core, w: Which)
    requires TermSound(life, x) && Counts(life, x, w) && x.term.Out?
    ensures Counts(life, Terminating(x), w)
  {
    BumpGet(x.count, OfFinishing, 1, w);
  }

  lemma QuietCounts(life: Life, x: Core, w: Which)
    requires TermSound(life, x) && Counts(life, x, w) && !x.term.Taken? && !x.term.Halfway? && !x.term.Out?
    ensures Counts(life, Terminating(x), w)
  {
    assert Terminating(x).count == x.count && Terminating(x).fin == x.fin;
  }

  lemma TermCounts(life: Life, x: Core, w: Which)
    requires TermSound(life, x) && Counts(life, x, w)
    ensures Counts(life, Terminating(x), w)
  {
    if x.term.Taken? {
      TakenCounts(life, x, w);
    } else if x.term.Halfway? {
      HalfwayCounts(life, x, w);
    } else if x.term.Out? {
      OutCounts(life, x, w);
    } else {
      QuietCounts(life, x, w);
    }
  }

  // The counter that a finish takes the session out of first.
  function FirstOut(seen: Life): Which {
    match seen
    case Starting => OfStarting
    case Active => OfActive
    case Finishing => OfFinishing
  }

  lemma ReadCounts(life: Life, x: Core, w: Which)
    requires x.fin.Read? && Counts(life, x, w)
    ensures Counts(life, Finishes(x), w)
  {
    BumpGet(x.count, FirstOut(x.fin.seen), -1, w);
    assert Finishes(x).count == Bump(x.count, FirstOut(x.fin.seen), -1);
  }

  lemma HalfCounts(life: Life, x: Core, w: Which)
    requires x.fin.Half? && x.fin.seen.Starting? && Counts(life, x, w)
    ensures Counts(life, Finishes(x), w)
  {
    BumpGet(x.count, OfIncoming, -1, w);
  }

  lemma FinishCounts(life: Life, x: Core, w: Which)
    requires (x.fin.Half? ==> x.fin.seen.Starting?) && Counts(life, x, w)
    ensures Counts(life, Finishes(x), w)
  {
    if x.fin.Read? {
      ReadCounts(life, x, w);
    } else if x.fin.Half? {
      HalfCounts(life, x, w);
    }
  }

  lemma {:induction false} SoundAlways(life: Life, steps: seq<Step>)
    ensures var st := Run(life, steps); Sound(life, st.core) && Counted(life, st.core) && OneThrough(st)
    decreases |steps|
  {
    if steps != [] {
      SoundAlways(life, steps[..|steps| - 1]);
      SoundNext(life, Run(life, steps[..|steps| - 1]), steps[|steps| - 1]);
    }
  }

  lemma CountedNext(life: Life, st: World, step: Step)
    requires Sound(life, st.core) && Counted(life, st.core)
    ensures Counted(life, Next(st, step).core)
  {
    forall w ensures Counts(life, Next(st, step).core, w) {
      assert Counts(life, st.core, w);
      TermCounts(life, st.core, w);
      FinishCounts(life, st.core, w);
    }
  }

  lemma SoundNext(life: Life, st: World, step: Step)
    requires Sound(life, st.core) && Counted(life, st.core) && OneThrough(st)
    ensures var next := Next(st, step); Sound(life, next.core) && Counted(life, next.core) && OneThrough(next)
  {
    TermKeeps(life, st.core);
    FinishKeeps(life, st.core);
    CountedNext(life, st, step);
  }

  // ---------------------------------------------------------------- what follows

  // However many finishes come, and whatever the termination does, the guard lets one through.
  lemma OneFinish(life: Life, steps: seq<Step>, c: nat, d: nat)
    requires var t := Run(life, steps).through; c in t && d in t && t[c] && t[d]
    ensures c == d
  {
    SoundAlways(life, steps);
  }

  // Once the finish has ended and no termination is running, the session has left every counter if and only if the
  // finish did not read the state inside a termination.  Otherwise it has left the first one twice and stays in
  // `finishing`.
  lemma LeftAll(life: Life, steps: seq<Step>, x: Core)
    requires x == Run(life, steps).core && x.fin.Ended? && x.term.Idle?
    ensures (forall w :: Get(x.count, w) == 0) <==> !x.overlap
    ensures x.overlap ==> forall w :: Get(x.count, w) == In(Finishing, w) - In(life, w)
  {
    SoundAlways(life, steps);
    forall w ensures Get(x.count, w) == if x.overlap then In(Finishing, w) - In(life, w) else 0 {
      assert Counts(life, x, w);
    }
    assert x.overlap ==> Get(x.count, OfFinishing) == 1;
  }

  // ---------------------------------------------------------------- and it can

  lemma RunSnoc(life: Life, steps: seq<Step>, step: Step)
    ensures Run(life, steps + [step]) == Next(Run(life, steps), step)
  {
    assert (steps + [step])[..|steps|] == steps;
  }

  // The termination looks at the guard and goes ahead.
  lemma GoesAhead(steps: seq<Step>) returns (on: seq<Step>)
    requires var x := Run(Active, steps).core;
      x.term.Idle? && !x.terminated && !x.started && !x.terminating && x.fin.NotYet?
    ensures steps <= on && Run(Active, on).through == Run(Active, steps).through
    ensures var x := Run(Active, steps).core; Run(Active, on).core == x.(term := Taken, passes := x.passes + 1)
  {
    RunSnoc(Active, steps, Terminate);
    RunSnoc(Active, steps + [Terminate], Terminate);
    RunSnoc(Active, steps + [Terminate] + [Terminate], Terminate);
    on := steps + [Terminate] + [Terminate] + [Terminate];
  }

  // A finish takes the guard, reads the state and ends.
  lemma Overtakes(steps: seq<Step>, c: nat) returns (on: seq<Step>)
    requires var st := Run(Active, steps);
      c !in st.through && !st.core.started && st.core.term.Taken? && st.core.life.Active?
    ensures steps <= on
    ensures var x := Run(Active, on).core; x.overlap && x.fin.Ended? && x.term.Taken? && x.life.Active?
  {
    RunSnoc(Active, steps, Finish(c));
    RunSnoc(Active, steps + [Finish(c)], Finish(c));
    var half := steps + [Finish(c)] + [Finish(c)];
    RunSnoc(Active, half, Finish(c));
    RunSnoc(Active, half + [Finish(c)], Finish(c));
    on := half + [Finish(c)] + [Finish(c)];
  }

  // The termination goes on to its end.
  lemma GoesOn(steps: seq<Step>) returns (on: seq<Step>)
    requires Run(Active, steps).core.term.Taken? && Run(Active, steps).core.life.Active?
    ensures steps <= on
    ensures var x, y := Run(Active, steps).core, Run(Active, on).core;
      y.term.Idle? && y.fin == x.fin && y.overlap == x.overlap
  {
    RunSnoc(Active, steps, Terminate);
    RunSnoc(Active, steps + [Terminate], Terminate);
    var half := steps + [Terminate] + [Terminate];
    RunSnoc(Active, half, Terminate);
    RunSnoc(Active, half + [Terminate], Terminate);
    on := half + [Terminate] + [Terminate];
  }

  // A run in which a finish overtakes a termination: both are over, and the session counts as finishing for ever and as
  // less than nothing among the active.
  lemma Overtaken(c: nat) returns (steps: seq<Step>)
    ensures var x := Run(Active, steps).core;
      x.overlap && x.fin.Ended? && x.term.Idle? && x.count == Share(0, -1, 1, 0)
  {
    var ahead := GoesAhead([]);
    var overtaken := Overtakes(ahead, c);
    steps := GoesOn(overtaken);
    var x := Run(Active, steps).core;
    LeftAll(Active, steps, x);
    assert Get(x.count, OfStarting) == 0 && Get(x.count, OfActive) == -1;
    assert Get(x.count, OfFinishing) == 1 && Get(x.count, OfIncoming) == 0;
  }
}
