// Two ends of a PPTP tunnel that send to each other over wires that keep the order and lose packets at will: what they
// acknowledge.  Numbers that never wrap run along with the 32-bit ones of the driver.

module PptpPair {
  import opened Common
  import opened Pptp

  // ---------------------------------------------------------------- one packet

  // What a packet says besides its frame: the flags and the protocol of enhanced GRE, the length, the call, the number,
  // and the number received last if that was not said before.
  lemma PacketSays(sender: Opt, cfg: Config, f: seq<byte>, p: seq<byte>)
    requires ValidConfig(cfg) && 3 <= |f| < 0xfff0 && p == Packet(sender, cfg, f)
    ensures HeaderWhole(p) && Get16(p, 6) == cfg.call && Get32(p, 8) == Succ(sender.seqSent)
    ensures p[0] == 0x30 && p[1] == (if HasAck(p) then 0x81 else 0x01) && p[2] == 0x88 && p[3] == 0x0b
    ensures Get16(p, 4) == |p| - if HasAck(p) then 16 else 12
    ensures HasAck(p) <==> sender.ackSent != sender.seqRecv
    ensures HasAck(p) ==> HasSequence(p) && Get32(p, 12) == sender.seqRecv
  {
    var payload := Pack(f, cfg.compProt, cfg.compAc);
    HeaderFields(|payload|, cfg.call, Succ(sender.seqSent), AckOf(sender), payload, p);
    assert p[6..8] == Put16(cfg.call);
    assert p[6] == p[6..8][0] && p[7] == p[6..8][1];
  }

  // Above the highest acknowledgement so far, or behind a wrap.
  predicate Newer(ack: word, ackRecv: word) {
    ack > ackRecv || Wrapped(ack, ackRecv)
  }

  // The receiver then knows that the sender has received that number, if it is newer than what it knows; otherwise
  // nothing changes.
  lemma AckArrives(sender: Opt, receiver: Opt, cfg: Config, f: seq<byte>, p: seq<byte>)
    requires ValidConfig(cfg) && 3 <= |f| < 0xfff0 && p == Packet(sender, cfg, f)
    ensures HeaderWhole(p)
    ensures Received(receiver, p).0.ackRecv ==
            if sender.ackSent != sender.seqRecv && Newer(sender.seqRecv, receiver.ackRecv) then sender.seqRecv
            else receiver.ackRecv
  {
    PacketSays(sender, cfg, f, p);
  }

  // Whatever arrives, the number acknowledged goes back over a wrap alone.
  lemma AckNeverBack(o: Opt, p: seq<byte>)
    requires HeaderWhole(p)
    ensures Received(o, p).0.ackRecv >= o.ackRecv || Wrapped(Received(o, p).0.ackRecv, o.ackRecv)
  {
  }

  // ---------------------------------------------------------------- two ends

  // How many packets were sent, the last one taken, and the last one known to be taken by the other end.
  datatype Side = Side(cfg: Config, opt: Opt, sent: nat, recv: nat, acked: nat)

  // A packet under way: the sender at that time, the frame, the number, and the last number the sender had taken.
  datatype Mail = Mail(from: Opt, frame: seq<byte>, number: nat, ack: nat)

  datatype Pair = Pair(a: Side, b: Side, ab: seq<Mail>, ba: seq<Mail>)

  datatype Act = Send(frame: seq<byte>) | Arrive | Lose

  // Of the first end and the wire from it, or of the second.
  datatype Step = Step(act: Act, second: bool)

  predicate Proper(s: Side, frame: seq<byte>) {
    ValidConfig(s.cfg) && Sendable(frame, s.cfg)
  }

  function Sent(s: Side): Side {
    s.(opt := AfterSend(s.opt), sent := s.sent + 1)
  }

  // The packet arrives at `r`, from an end with this configuration.
  function Got(cfg: Config, r: Side, m: Mail): Side
    requires ValidConfig(cfg) && Sendable(m.frame, cfg)
  {
    var p := Packet(m.from, cfg, m.frame);
    PacketSays(m.from, cfg, m.frame, p);
    var o := Received(r.opt, p).0;
    r.(opt := o, recv := if Takes(r.opt, p) then m.number else r.recv,
       acked := if o.ackRecv != r.opt.ackRecv then m.ack else r.acked)
  }

  function Acted(p: Pair, act: Act): Pair {
    match act
    case Send(frame) =>
      if Proper(p.a, frame) then p.(a := Sent(p.a), ab := p.ab + [Mail(p.a.opt, frame, p.a.sent + 1, p.a.recv)]) else p
    case Arrive =>
      if p.ab != [] && Proper(p.a, p.ab[0].frame) then p.(b := Got(p.a.cfg, p.b, p.ab[0]), ab := p.ab[1..]) else p
    case Lose =>
      if p.ab != [] then p.(ab := p.ab[1..]) else p
  }

  function Swapped(p: Pair): Pair {
    Pair(p.b, p.a, p.ba, p.ab)
  }

  function Next(p: Pair, step: Step): Pair {
    if step.second then Swapped(Acted(Swapped(p), step.act)) else Acted(p, step.act)
  }

  function Begin(cfg: Config): Side {
    Side(cfg, Opt(0, 0, 0, 0), 0, 0, 0)
  }

  function Run(a: Config, b: Config, steps: seq<Step>): Pair
    decreases |steps|
  {
    if steps == [] then Pair(Begin(a), Begin(b), [], [])
    else Next(Run(a, b, steps[..|steps| - 1]), steps[|steps| - 1])
  }

  // ---------------------------------------------------------------- what every step keeps

  // The driver's numbers are those that never wrap, cut to 32 bits.
  predicate Tracks(s: Side) {
    && s.opt.seqSent == Number(s.sent) && s.opt.seqRecv == Number(s.recv) && s.opt.ackRecv == Number(s.acked)
  }

  predicate Written(m: Mail) {
    m.number > 0 && m.from.seqSent == Number(m.number - 1) && m.from.seqRecv == Number(m.ack)
  }

  // A packet from `s` that `r` has not seen: sent by now, and acknowledging what `s` has taken by now.
  predicate Between(s: Side, r: Side, m: Mail) {
    Written(m) && r.recv < m.number <= s.sent && r.acked <= m.ack <= s.recv
  }

  ghost predicate InOrder(wire: seq<Mail>) {
    forall i, j :: 0 <= i < j < |wire| ==> wire[i].number < wire[j].number && wire[i].ack <= wire[j].ack
  }

  ghost predicate OneWay(s: Side, r: Side, wire: seq<Mail>) {
    && r.recv <= s.sent && r.acked <= s.recv && InOrder(wire)
    && forall i :: 0 <= i < |wire| ==> Between(s, r, wire[i])
  }

  ghost predicate Good(p: Pair) {
    Tracks(p.a) && Tracks(p.b) && OneWay(p.a, p.b, p.ab) && OneWay(p.b, p.a, p.ba)
  }

  lemma SendKeeps(p: Pair, frame: seq<byte>)
    requires Good(p)
    ensures Good(Acted(p, Send(frame)))
  {
    if Proper(p.a, frame) {
      NumberSucc(p.a.sent);
      var next := Acted(p, Send(frame));
      assert OneWay(next.b, next.a, next.ba) by {
        assert forall i :: 0 <= i < |p.ba| ==> Between(p.b, p.a, p.ba[i]);
      }
    }
  }

  // What arrives moves both numbers of the receiver to those of the packet, or leaves them.
  lemma GotKeeps(s: Side, r: Side, m: Mail)
    requires ValidConfig(s.cfg) && Sendable(m.frame, s.cfg) && Tracks(r) && Between(s, r, m)
    ensures var got := Got(s.cfg, r, m);
      Tracks(got) && got.sent == r.sent && (got.recv == r.recv || got.recv == m.number)
      && (got.acked == r.acked || got.acked == m.ack)
  {
    var p := Packet(m.from, s.cfg, m.frame);
    PacketSays(m.from, s.cfg, m.frame, p);
    AckArrives(m.from, r.opt, s.cfg, m.frame, p);
    Arrives(m.from, r.opt, s.cfg, m.frame, p);
    NumberSucc(m.number - 1);
  }

  lemma WireKeeps(s: Side, r: Side, r': Side, wire: seq<Mail>)
    requires wire != [] && OneWay(s, r, wire)
    requires r'.recv == r.recv || r'.recv == wire[0].number
    requires r'.acked == r.acked || r'.acked == wire[0].ack
    ensures OneWay(s, r', wire[1..])
  {
    assert Between(s, r, wire[0]);
    forall i | 0 <= i < |wire| - 1 ensures Between(s, r', wire[1..][i]) {
      assert Between(s, r, wire[i + 1]) && wire[0].number < wire[i + 1].number;
    }
  }

  // More taken by a sender is more that its packets may acknowledge.
  lemma SenderKeeps(s: Side, s': Side, r: Side, wire: seq<Mail>)
    requires OneWay(s, r, wire) && s'.sent == s.sent && s'.recv >= s.recv
    ensures OneWay(s', r, wire)
  {
    forall i | 0 <= i < |wire| ensures Between(s', r, wire[i]) {
      assert Between(s, r, wire[i]);
    }
  }

  lemma ArriveKeeps(p: Pair)
    requires Good(p)
    ensures Good(Acted(p, Arrive)) && Good(Acted(p, Lose))
  {
    if p.ab != [] {
      assert Between(p.a, p.b, p.ab[0]);
      WireKeeps(p.a, p.b, p.b, p.ab);
      if Proper(p.a, p.ab[0].frame) {
        var got := Got(p.a.cfg, p.b, p.ab[0]);
        GotKeeps(p.a, p.b, p.ab[0]);
        WireKeeps(p.a, p.b, got, p.ab);
        SenderKeeps(p.b, got, p.a, p.ba);
      }
    }
  }

  lemma {:induction false} GoodAlways(a: Config, b: Config, steps: seq<Step>)
    ensures Good(Run(a, b, steps))
    decreases |steps|
  {
    if steps != [] {
      var before, step := Run(a, b, steps[..|steps| - 1]), steps[|steps| - 1];
      GoodAlways(a, b, steps[..|steps| - 1]);
      var p := if step.second then Swapped(before) else before;
      match step.act {
        case Send(frame) => SendKeeps(p, frame);
        case Arrive => ArriveKeeps(p);
        case Lose => ArriveKeeps(p);
      }
    }
  }

  // In every run, whatever is lost and however often the numbers wrap, what one end holds for acknowledged is the
  // number of a packet that the other has taken, and that is the number of one that was sent.
  lemma AcksAreTrue(a: Config, b: Config, steps: seq<Step>, p: Pair)
    requires p == Run(a, b, steps)
    ensures p.a.acked <= p.b.recv <= p.a.sent && p.b.acked <= p.a.recv <= p.b.sent
    ensures p.a.opt.ackRecv == Number(p.a.acked) && p.b.opt.seqRecv == Number(p.b.recv)
    ensures p.b.opt.ackRecv == Number(p.b.acked) && p.a.opt.seqRecv == Number(p.a.recv)
    ensures p.a.opt.seqSent == Number(p.a.sent) && p.b.opt.seqSent == Number(p.b.sent)
  {
    GoodAlways(a, b, steps);
  }

  // ---------------------------------------------------------------- in lockstep

  // Nothing under way, and each end has taken, acknowledged and got acknowledged everything.
  predicate Settled(p: Pair) {
    && p.ab == [] && p.ba == []
    && p.b.recv == p.a.sent == p.a.acked && p.a.recv == p.b.sent
    && p.b.opt.ackSent == p.b.opt.seqRecv
  }

  lemma NextIsNewer(n: nat)
    ensures Newer(Number(n + 1), Number(n)) && Number(n + 1) != Number(n)
  {
    NumberSucc(n);
  }

  // A packet in its turn is taken.
  lemma InTurnTaken(s: Side, r: Side, m: Mail)
    requires Proper(s, m.frame) && Tracks(s) && Tracks(r) && r.recv == s.sent
    requires m == Mail(s.opt, m.frame, s.sent + 1, s.recv)
    ensures var got := Got(s.cfg, r, m);
      got.recv == s.sent + 1 && got.sent == r.sent && got.cfg == r.cfg && got.opt.seqRecv == Number(s.sent + 1)
      && got.opt.ackSent == r.opt.ackSent && got.opt.seqSent == r.opt.seqSent
  {
    var p := Packet(m.from, s.cfg, m.frame);
    PacketSays(m.from, s.cfg, m.frame, p);
    InTurn(s.opt, r.opt, s.cfg, m.frame, p);
    NumberSucc(s.sent);
    TakenIff(Succ(s.opt.seqSent), r.opt.seqRecv);
    Arrives(m.from, r.opt, s.cfg, m.frame, p);
    WholeSent(m.from, s.cfg, m.frame, p);
  }

  lemma WholeSent(sender: Opt, cfg: Config, f: seq<byte>, p: seq<byte>)
    requires ValidConfig(cfg) && 3 <= |f| < 0xfff0 && p == Packet(sender, cfg, f)
    ensures HeaderWhole(p) && Whole(p)
  {
    var payload := Pack(f, cfg.compProt, cfg.compAc);
    HeaderFields(|payload|, cfg.call, Succ(sender.seqSent), AckOf(sender), payload, p);
  }

  lemma BackAcknowledges(s: Side, r: Side, m: Mail)
    requires Proper(s, m.frame) && m.from == s.opt && m.ack == s.recv
    requires s.opt.ackSent != s.opt.seqRecv && Newer(s.opt.seqRecv, r.opt.ackRecv) && s.opt.seqRecv != r.opt.ackRecv
    ensures Got(s.cfg, r, m).acked == s.recv
  {
    AckArrives(s.opt, r.opt, s.cfg, m.frame, Packet(m.from, s.cfg, m.frame));
  }

  // Over an empty wire a packet arrives as it was sent.
  lemma Over(p: Pair, f: seq<byte>, next: Pair)
    requires p.ab == [] && Proper(p.a, f) && next == Acted(Acted(p, Send(f)), Arrive)
    ensures next == Pair(Sent(p.a), Got(p.a.cfg, p.b, Mail(p.a.opt, f, p.a.sent + 1, p.a.recv)), [], p.ba)
    ensures Good(p) ==> Good(next)
  {
    if Good(p) {
      SendKeeps(p, f);
      ArriveKeeps(Acted(p, Send(f)));
    }
  }

  lemma There(p: Pair, f: seq<byte>, next: Pair)
    requires Good(p) && Settled(p) && Proper(p.a, f) && next == Acted(Acted(p, Send(f)), Arrive)
    ensures Good(next) && next.ab == next.ba == [] && next.b.cfg == p.b.cfg && next.a == Sent(p.a)
    ensures next.b.recv == p.a.sent + 1 && next.b.sent == p.b.sent
    ensures next.b.opt.ackSent == Number(p.a.sent)
  {
    Over(p, f, next);
    InTurnTaken(p.a, p.b, Mail(p.a.opt, f, p.a.sent + 1, p.a.recv));
  }

  lemma Back(p: Pair, g: seq<byte>, next: Pair)
    requires Good(p) && p.ab == p.ba == [] && Proper(p.b, g)
    requires p.b.recv == p.a.sent == p.a.acked + 1 && p.a.recv == p.b.sent && p.b.opt.ackSent == Number(p.a.acked)
    requires next == Swapped(Acted(Acted(Swapped(p), Send(g)), Arrive))
    ensures Settled(next) && next.a.sent == p.a.sent && next.b.sent == p.b.sent + 1
  {
    var m := Mail(p.b.opt, g, p.b.sent + 1, p.b.recv);
    Over(Swapped(p), g, Swapped(next));
    NextIsNewer(p.a.acked);
    InTurnTaken(p.b, p.a, m);
    BackAcknowledges(p.b, p.a, m);
  }

  // A frame there and a frame back, and the first is acknowledged: the ends are settled again, across wraps.
  lemma ThereAndBack(p: Pair, f: seq<byte>, g: seq<byte>, p1: Pair, p2: Pair, p3: Pair, p4: Pair)
    requires Good(p) && Settled(p) && Proper(p.a, f) && Proper(p.b, g)
    requires p1 == Next(p, Step(Send(f), false)) && p2 == Next(p1, Step(Arrive, false))
    requires p3 == Next(p2, Step(Send(g), true)) && p4 == Next(p3, Step(Arrive, true))
    ensures Settled(p4) && p4.a.sent == p.a.sent + 1 && p4.b.sent == p.b.sent + 1
  {
    There(p, f, p2);
    assert Swapped(p3) == Acted(Swapped(p2), Send(g));
    Back(p2, g, p4);
  }
}
