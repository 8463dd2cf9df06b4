// The session life cycle: starting, activation, termination, finish, the single-session rule and soft shutdown.
//
// The machine is as fine as the shared memory it works on: one step makes at most one access to the list, to
// a counter or to the shutdown flag.  The calls of one session run in that session's own context, one at a
// time; the steps of different sessions, and of the thread that asks for a shutdown, interleave freely.
// A context parked while it waits for an older session takes no step until it is woken.

module Session {
  import opened Common

  type Sid = nat

  datatype Life = Init | Starting | Restore | Active | Finishing

  datatype Cause = NoCause | AuthError | OtherCause

  // Where a session stands inside the call that is running for it.
  datatype Pc =
    | Accepted        // an incoming slot is taken, the session is not started
    | Gone            // given up before it started
    | Passed          // starting: the shutdown flag was clear
    | Counted         // starting: counted, not yet in the list
    | Live            // in the list, no call running
    | ActivatingA     // activation: taken out of `starting`
    | ActivatingB     // activation: taken out of `incoming`
    | TerminatingA    // termination: taken out of `starting`
    | TerminatingB    // termination: taken out of `starting` and `incoming`, or out of `active`
    | Begun           // finish: the guard is taken
    | Unlinked        // finish: out of the list
    | Leaving         // finish: taken out of `starting`
    | Uncounted       // finish: taken out of every counter
    | CheckFlag       // finish: the waiting context, if any, is woken
    | CheckStarting
    | CheckActive
    | CheckFinishing
    | Done

  // The single-session rule: the name taken, and who waits for whom.
  datatype Link = Link(
    username: Option<string>,
    wakeup: Option<Sid>,   // the session whose context this one wakes when it finishes
    waiting: bool,
    armed: nat,            // how often the session was told to wait
    woken: nat,            // how often it was woken
    named: nat             // when it took its name
  )

  datatype Ses = Ses(
    pc: Pc,
    state: Life,
    gaveBack: nat,         // how often the incoming slot was given back
    cause: Cause,
    link: Link
  )

  datatype Counters = Counters(starting: int, active: int, finishing: int, incoming: int)

  // The thread that asks for a soft shutdown.
  datatype Asker = Idle | AskStarting | AskActive | AskFinishing | Answered

  datatype System = System(
    ses: map<Sid, Ses>,
    list: seq<Sid>,
    count: Counters,
    shutdown: bool,
    asker: Asker,
    fired: nat,            // how often the shutdown callback ran
    clock: nat,
    told: set<Sid>         // sessions whose contexts were sent a call that terminates them
  )

  // What to do with a second session of a user, and the form in which names are compared.
  datatype Mode = Unlimited | Deny | Replace
  datatype Config = Config(mode: Mode, fold: string -> string)

  const START := System(map[], [], Counters(0, 0, 0, 0), false, Idle, 0, 0, {})

  datatype Step =
    | Accept(s: Sid)
    | Abandon(s: Sid)
    | Start(s: Sid, restore: bool)
    | Activate(s: Sid)
    | Terminate(s: Sid, cause: Cause)
    | Finish(s: Sid)
    | SetUsername(s: Sid, name: string)
    | Advance(s: Sid)
    | Shutdown
    | Ask

  // ---------------------------------------------------------------- the steps

  datatype ListOp = Keep | Append | Remove

  // What one step does to its own session and to the shared data.
  datatype Change = Change(x: Ses, count: Counters, list: ListOp, wake: Option<Sid>, fire: bool)

  function Just(x: Ses): Change {
    Change(x, Counters(0, 0, 0, 0), Keep, None, false)
  }

  function Add(x: Ses, starting: int, active: int, finishing: int, incoming: int): Change {
    Change(x, Counters(starting, active, finishing, incoming), Keep, None, false)
  }

  function To(x: Ses, pc: Pc): Ses {
    x.(pc := pc)
  }

  function GiveBack(x: Ses, pc: Pc): Ses {
    x.(pc := pc, gaveBack := x.gaveBack + 1)
  }

  // Finish takes the session out of the counter that its state names.
  function Uncount(x: Ses): Change {
    match x.state
    case Active => Add(To(x, Uncounted), 0, -1, 0, 0)
    case Finishing => Add(To(x, Uncounted), 0, 0, -1, 0)
    case Starting => Add(To(x, Leaving), -1, 0, 0, 0)
    case Restore => Add(To(x, Leaving), -1, 0, 0, 0)
    case Init => Just(To(x, Uncounted))
  }

  // The next access of the call that is running for the session.
  function Onward(x: Ses, shutdown: bool, c: Counters): Change {
    match x.pc
    case Passed => Add(To(x, Counted), 1, 0, 0, 0)
    case Counted => Just(To(x, Live)).(list := Append)
    case ActivatingA => Add(GiveBack(x, ActivatingB), 0, 0, 0, -1)
    case ActivatingB => Add(To(x, Live), 0, 1, 0, 0)
    case TerminatingA => Add(GiveBack(x, TerminatingB), 0, 0, 0, -1)
    case TerminatingB => Add(To(x, Live).(state := Finishing), 0, 0, 1, 0)
    case Begun => Just(To(x, Unlinked)).(list := Remove)
    case Unlinked => Uncount(x)
    case Leaving => Add(GiveBack(x, Uncounted), 0, 0, 0, -1)
    case Uncounted => Just(To(x, CheckFlag).(link := x.link.(wakeup := None, username := None))).(wake := x.link.wakeup)
    case CheckFlag => Just(To(x, if shutdown then CheckStarting else Done))
    case CheckStarting => Just(To(x, if c.starting == 0 then CheckActive else Done))
    case CheckActive => Just(To(x, if c.active == 0 then CheckFinishing else Done))
    case CheckFinishing => Just(To(x, Done)).(fire := c.finishing == 0)
    case _ => Just(x)
  }

  // A second termination changes nothing that is counted.
  function Terminated(x: Ses, cause: Cause): Change {
    var y := x.(cause := if x.cause.NoCause? then cause else x.cause);
    match x.state
    case Finishing => Just(y)
    case Active => Add(To(y, TerminatingB), 0, -1, 0, 0)
    case _ => Add(To(y, TerminatingA), -1, 0, 0, 0)
  }

  function Plus(c: Counters, d: Counters): Counters {
    Counters(c.starting + d.starting, c.active + d.active, c.finishing + d.finishing, c.incoming + d.incoming)
  }

  function Without(list: seq<Sid>, s: Sid): seq<Sid> {
    if list == [] then [] else if list[0] == s then list[1..] else [list[0]] + Without(list[1..], s)
  }

  function Relist(list: seq<Sid>, op: ListOp, s: Sid): seq<Sid> {
    match op
    case Keep => list
    case Append => list + [s]
    case Remove => Without(list, s)
  }

  function WithLink(x: Ses, link: Link): Ses {
    x.(link := link)
  }

  function Woken(ses: map<Sid, Ses>, wake: Option<Sid>): map<Sid, Ses> {
    if wake.Some? && wake.value in ses then
      var x := ses[wake.value];
      ses[wake.value := WithLink(x, x.link.(waiting := false, woken := x.link.woken + 1))]
    else ses
  }

  function Apply(st: System, s: Sid, ch: Change): System {
    st.(ses := Woken(st.ses[s := ch.x], ch.wake),
        list := Relist(st.list, ch.list, s),
        count := Plus(st.count, ch.count),
        fired := if ch.fire then st.fired + 1 else st.fired)
  }

  // A session that bears this name and did not fail authentication.
  predicate Matches(cfg: Config, ses: map<Sid, Ses>, o: Sid, name: string) {
    o in ses && ses[o].link.username.Some? && !ses[o].cause.AuthError?
    && cfg.fold(ses[o].link.username.value) == cfg.fold(name)
  }

  predicate Taken(cfg: Config, ses: map<Sid, Ses>, list: seq<Sid>, name: string) {
    exists i :: 0 <= i < |list| && Matches(cfg, ses, list[i], name)
  }

  function Bearers(cfg: Config, ses: map<Sid, Ses>, list: seq<Sid>, name: string): set<Sid> {
    set i | 0 <= i < |list| && Matches(cfg, ses, list[i], name) :: list[i]
  }

  // Bears the name and wakes nobody yet.
  predicate Free(cfg: Config, ses: map<Sid, Ses>, o: Sid, name: string) {
    Matches(cfg, ses, o, name) && ses[o].link.wakeup.None?
  }

  // The first such session in the list.
  function FirstFree(cfg: Config, ses: map<Sid, Ses>, list: seq<Sid>, name: string): (r: Option<Sid>)
    ensures r.Some? ==> r.value in list && Free(cfg, ses, r.value, name)
  {
    if list == [] then None
    else if Free(cfg, ses, list[0], name) then Some(list[0])
    else FirstFree(cfg, ses, list[1..], name)
  }

  // The new session takes the name.
  function NamedMap(ses: map<Sid, Ses>, s: Sid, name: string, clock: nat): map<Sid, Ses>
    requires s in ses
  {
    ses[s := WithLink(ses[s], ses[s].link.(username := Some(name), named := clock))]
  }

  // It takes the name and has to wait; the older session is told whom to wake.
  function ArmedMap(ses: map<Sid, Ses>, o: Sid, s: Sid, name: string, clock: nat): map<Sid, Ses>
    requires o in ses && s in ses
  {
    var link := ses[s].link.(username := Some(name), named := clock, waiting := true, armed := ses[s].link.armed + 1);
    ses[o := WithLink(ses[o], ses[o].link.(wakeup := Some(s)))][s := WithLink(ses[s], link)]
  }

  function TakeName(cfg: Config, st: System, s: Sid, name: string): System
    requires s in st.ses && st.ses[s].link.username.None?
  {
    if cfg.mode.Deny? && Taken(cfg, st.ses, st.list, name) then st
    else
      var first := FirstFree(cfg, st.ses, st.list, name);
      st.(ses := if cfg.mode.Replace? && first.Some? then ArmedMap(st.ses, first.value, s, name, st.clock)
                 else NamedMap(st.ses, s, name, st.clock),
          clock := st.clock + 1,
          told := if cfg.mode.Replace? then st.told + Bearers(cfg, st.ses, st.list, name) else st.told)
  }

  // The thread that asked for the shutdown reads the counters one after the other.
  function Asked(st: System): System {
    match st.asker
    case AskStarting => st.(asker := if st.count.starting == 0 then AskActive else Answered)
    case AskActive => st.(asker := if st.count.active == 0 then AskFinishing else Answered)
    case AskFinishing => st.(asker := Answered, fired := if st.count.finishing == 0 then st.fired + 1 else st.fired)
    case _ => st
  }

  predicate Young(state: Life) {
    state.Starting? || state.Restore?
  }

  // Idle in its own context: the only time a session takes a new call.
  predicate Ready(x: Ses) {
    x.pc.Live? && !x.link.waiting
  }

  // What a step of a session's own does, when it can be taken.
  function Local(x: Ses, step: Step, shutdown: bool, c: Counters): Option<Change> {
    match step
    case Abandon(_) => if x.pc.Accepted? then Some(Add(GiveBack(x, Gone), 0, 0, 0, -1)) else None
    case Start(_, restore) =>
      if x.pc.Accepted? && !shutdown then Some(Just(To(x, Passed).(state := if restore then Restore else Starting)))
      else None
    case Activate(_) =>
      if Ready(x) && Young(x.state) && x.cause.NoCause? && !shutdown then
        Some(Add(To(x, ActivatingA).(state := Active), -1, 0, 0, 0))
      else None
    case Terminate(_, cause) => if Ready(x) && !cause.NoCause? then Some(Terminated(x, cause)) else None
    case Finish(_) => if Ready(x) then Some(Just(To(x, Begun))) else None
    case Advance(_) => if !x.link.waiting then Some(Onward(x, shutdown, c)) else None
    case _ => None
  }

  const FRESH := Ses(Accepted, Init, 0, NoCause, Link(None, None, false, 0, 0, 0))

  // A step that cannot be taken changes nothing.
  function Next(cfg: Config, st: System, step: Step): System {
    if step.Shutdown? then (if st.asker.Idle? then st.(shutdown := true, asker := AskStarting) else st)
    else if step.Ask? then Asked(st)
    else if step.Accept? then (if step.s in st.ses then st else Apply(st, step.s, Add(FRESH, 0, 0, 0, 1)))
    else if step.s !in st.ses then st
    else if step.SetUsername? then
      if Ready(st.ses[step.s]) && st.ses[step.s].link.username.None? then TakeName(cfg, st, step.s, step.name) else st
    else
      var ch := Local(st.ses[step.s], step, st.shutdown, st.count);
      if ch.Some? then Apply(st, step.s, ch.value) else st
  }

  function Run(cfg: Config, steps: seq<Step>): System
    decreases |steps|
  {
    if steps == [] then START else Next(cfg, Run(cfg, steps[..|steps| - 1]), steps[|steps| - 1])
  }

  // ---------------------------------------------------------------- what a session contributes

  predicate Settled(pc: Pc) {
    pc.Live? || pc.Begun? || pc.Unlinked?
  }

  // Still holds the incoming slot it took when it was accepted.
  predicate Owes(x: Ses) {
    x.pc.Accepted? || x.pc.Passed? || x.pc.Counted? || x.pc.ActivatingA? || x.pc.TerminatingA? || x.pc.Leaving?
    || (Settled(x.pc) && Young(x.state))
  }

  // Between two counters: taken out of one, not yet put into the other.
  predicate InTransfer(x: Ses) {
    x.pc.ActivatingA? || x.pc.ActivatingB? || x.pc.TerminatingA? || x.pc.TerminatingB?
  }

  // Counted by starting, and not yet uncounted by finish.
  predicate Held(x: Ses) {
    x.pc.Counted? || Settled(x.pc) || InTransfer(x)
  }

  predicate InList(x: Ses) {
    x.pc.Live? || x.pc.Begun? || InTransfer(x)
  }

  predicate Coherent(x: Ses) {
    && (x.state.Init? <==> x.pc.Accepted? || x.pc.Gone?)
    && (x.pc.Passed? || x.pc.Counted? || x.pc.TerminatingA? ==> Young(x.state))
    && (x.pc.ActivatingA? || x.pc.ActivatingB? ==> x.state.Active?)
    && (x.pc.TerminatingB? ==> !x.state.Finishing?)
    && x.gaveBack == One(!Owes(x))
  }

  function One(b: bool): nat {
    if b then 1 else 0
  }

  // The four counters.
  datatype Which = OfStarting | OfActive | OfFinishing | OfIncoming

  function Get(c: Counters, w: Which): int {
    match w
    case OfStarting => c.starting
    case OfActive => c.active
    case OfFinishing => c.finishing
    case OfIncoming => c.incoming
  }

  // Which counters a session contributes to.
  predicate In(w: Which, x: Ses) {
    match w
    case OfStarting => x.pc.Counted? || (Settled(x.pc) && Young(x.state))
    case OfActive => Settled(x.pc) && x.state.Active?
    case OfFinishing => Settled(x.pc) && x.state.Finishing?
    case OfIncoming => Owes(x)
  }

  // A step moves exactly what the session contributes.
  lemma LocalShare(x: Ses, step: Step, shutdown: bool, c: Counters, w: Which)
    requires Coherent(x)
    ensures var ch := Local(x, step, shutdown, c);
      ch.Some? ==> One(In(w, ch.value.x)) == One(In(w, x)) + Get(ch.value.count, w)
  {
  }

  lemma LocalCoherent(x: Ses, step: Step, shutdown: bool, c: Counters)
    requires Coherent(x)
    ensures var ch := Local(x, step, shutdown, c); ch.Some? ==> Coherent(ch.value.x)
  {
  }

  // It keeps the session's place in the list in order.
  lemma LocalList(x: Ses, step: Step, shutdown: bool, c: Counters)
    ensures var ch := Local(x, step, shutdown, c);
      ch.Some? ==>
        match ch.value.list
        case Keep => InList(x) == InList(ch.value.x)
        case Append => !InList(x) && InList(ch.value.x)
        case Remove => InList(x) && !InList(ch.value.x)
  {
  }

  // ---------------------------------------------------------------- the counters

  ghost function Those(ses: map<Sid, Ses>, w: Which): set<Sid> {
    set s | s in ses && In(w, ses[s])
  }

  predicate InAt(w: Which, ses: map<Sid, Ses>, s: Sid) {
    s in ses && In(w, ses[s])
  }

  lemma TallyPut(ses: map<Sid, Ses>, w: Which, s: Sid, x: Ses)
    ensures |Those(ses[s := x], w)| == |Those(ses, w)| + One(In(w, x)) - One(InAt(w, ses, s))
  {
    var before, after := Those(ses, w), Those(ses[s := x], w);
    assert after - {s} == before - {s};
    assert s in after <==> In(w, x);
    assert |after| == |after - {s}| + One(In(w, x));
    assert |before| == |before - {s}| + One(s in before);
  }

  // Every counter is the number of sessions that contribute to it.
  ghost predicate Counts(ses: map<Sid, Ses>, c: Counters) {
    forall w :: Get(c, w) == |Those(ses, w)|
  }

  ghost predicate CoherentAll(ses: map<Sid, Ses>) {
    forall s :: s in ses ==> Coherent(ses[s])
  }

  lemma CountsPut(ses: map<Sid, Ses>, c: Counters, s: Sid, x: Ses, d: Counters)
    requires Counts(ses, c)
    requires forall w :: One(In(w, x)) == One(InAt(w, ses, s)) + Get(d, w)
    ensures Counts(ses[s := x], Plus(c, d))
  {
    forall w ensures Get(Plus(c, d), w) == |Those(ses[s := x], w)| {
      TallyPut(ses, w, s, x);
    }
  }
}
