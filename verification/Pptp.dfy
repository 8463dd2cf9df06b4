// The PPTP channel of the kernel driver: framing of PPP packets in enhanced GRE, and the sequence filter.

module Pptp {
  import opened Common

  const WRAP: int := 0x1_0000_0000
  const LAST: int := 0xffff_ffff

  type word = w: int | 0 <= w < 0x1_0000_0000

  // ---------------------------------------------------------------- the frame

  const ADDRESS_CONTROL: seq<byte> := [0xff, 0x03]

  // An LCP packet with a code from 1 to 7.
  predicate IsLcp(f: seq<byte>)
    requires |f| >= 3
  {
    f[0] == 0xc0 && f[1] == 0x21 && 1 <= f[2] <= 7
  }

  predicate Squeezed(f: seq<byte>, compProt: bool)
    requires |f| >= 3
  {
    compProt && f[0] == 0 && !IsLcp(f)
  }

  predicate Addressed(f: seq<byte>, compAc: bool)
    requires |f| >= 3
  {
    !compAc || IsLcp(f)
  }

  // Compress the protocol field, then put the address and control bytes in front.
  function Pack(f: seq<byte>, compProt: bool, compAc: bool): seq<byte>
    requires |f| >= 3
  {
    var data := if Squeezed(f, compProt) then f[1..] else f;
    if Addressed(f, compAc) then ADDRESS_CONTROL + data else data
  }

  // LCP packets with codes from 1 to 7 go out whole under every setting; of the others, address compression drops the
  // address and control bytes and protocol compression a leading zero.
  lemma PackSays(f: seq<byte>, compProt: bool, compAc: bool)
    requires |f| >= 3
    ensures f[0] == 0xc0 && f[1] == 0x21 && 1 <= f[2] <= 7 ==> Pack(f, compProt, compAc) == [0xff, 0x03] + f
    ensures !(f[0] == 0xc0 && f[1] == 0x21 && 1 <= f[2] <= 7) ==>
      Pack(f, compProt, compAc)
      == (if compAc then [] else [0xff, 0x03]) + if compProt && f[0] == 0 then f[1..] else f
  {
  }

  predicate StartsAddressed(payload: seq<byte>) {
    |payload| >= 2 && payload[0] == 0xff && payload[1] == 0x03
  }

  // Chop the address and control bytes off, then complete a compressed protocol field.
  function Unpack(payload: seq<byte>): Option<seq<byte>> {
    if StartsAddressed(payload) && |payload| < 3 then None
    else
      var data := if StartsAddressed(payload) then payload[2..] else payload;
      if data == [] then None
      else Some(if data[0] % 2 == 1 then [0] + data else data)
  }

  // A protocol number of the form the standard prescribes: an even byte, then an odd one (section 2 of RFC 1661).
  predicate LegalProtocol(f: seq<byte>)
    requires |f| >= 3
  {
    f[0] % 2 == 0 && f[1] % 2 == 1
  }

  // The compressed protocol number 0x00ff, followed by 0x03, looks like address and control bytes.
  predicate Mistaken(f: seq<byte>, compProt: bool, compAc: bool)
    requires |f| >= 3
  {
    compProt && compAc && f[0] == 0 && f[1] == 0xff && f[2] == 0x03
  }

  // For every frame with a legal protocol number and all settings, what is packed unpacks to the frame, exactly
  // unless it is mistaken for one with address and control bytes.
  lemma PackRoundTrip(f: seq<byte>, compProt: bool, compAc: bool)
    requires |f| >= 3 && LegalProtocol(f)
    ensures Unpack(Pack(f, compProt, compAc)) == Some(f) <==> !Mistaken(f, compProt, compAc)
  {
    var data := if Squeezed(f, compProt) then f[1..] else f;
    if Squeezed(f, compProt) {
      assert [0] + f[1..] == f;
    }
    if Addressed(f, compAc) {
      assert (ADDRESS_CONTROL + data)[2..] == data;
    } else if StartsAddressed(data) {
      assert Mistaken(f, compProt, compAc);
      assert Unpack(data).None? || |Unpack(data).value| < |f|;
    }
  }

  // ---------------------------------------------------------------- the header

  function Put16(n: int): (s: seq<byte>)
    requires 0 <= n < 0x1_0000
    ensures |s| == 2
  {
    [n / 256, n % 256]
  }

  function Put32(n: word): (s: seq<byte>)
    ensures |s| == 4
  {
    [n / 256 / 256 / 256, n / 256 / 256 % 256, n / 256 % 256, n % 256]
  }

  function Get16(p: seq<byte>, i: nat): int
    requires i + 2 <= |p|
  {
    var a: int, b: int := p[i], p[i + 1];
    a * 256 + b
  }

  function Get32(p: seq<byte>, i: nat): (w: word)
    requires i + 4 <= |p|
  {
    var a: int, b: int, c: int, d: int := p[i], p[i + 1], p[i + 2], p[i + 3];
    ((a * 256 + b) * 256 + c) * 256 + d
  }

  lemma GetPut32(n: word, p: seq<byte>, i: nat)
    requires i + 4 <= |p| && p[i..i + 4] == Put32(n)
    ensures Get32(p, i) == n
  {
    assert p[i] == p[i..i + 4][0] && p[i + 1] == p[i..i + 4][1];
    assert p[i + 2] == p[i..i + 4][2] && p[i + 3] == p[i..i + 4][3];
  }

  const KEY_AND_SEQUENCE: byte := 0x30
  const VERSION: byte := 0x01
  const VERSION_AND_ACK: byte := 0x81

  predicate HasSequence(p: seq<byte>)
    requires |p| >= 2
  {
    p[0] / 16 % 2 == 1
  }

  predicate HasAck(p: seq<byte>)
    requires |p| >= 2
  {
    p[1] / 128 == 1
  }

  function Header(len: int, call: int, seqNo: word, ack: Option<word>): seq<byte>
    requires 0 <= len < 0x1_0000 && 0 <= call < 0x1_0000
  {
    [KEY_AND_SEQUENCE, if ack.Some? then VERSION_AND_ACK else VERSION, 0x88, 0x0b]
    + Put16(len) + Put16(call) + Put32(seqNo) + (if ack.Some? then Put32(ack.value) else [])
  }

  // ---------------------------------------------------------------- sending and receiving

  datatype Opt = Opt(seqSent: word, seqRecv: word, ackSent: word, ackRecv: word)

  datatype Config = Config(compProt: bool, compAc: bool, call: int)

  function Succ(w: word): word {
    if w == LAST then 0 else w + 1
  }

  // An acknowledgement rides along when there is something new to acknowledge.
  function AckOf(o: Opt): Option<word> {
    if o.ackSent == o.seqRecv then None else Some(o.seqRecv)
  }

  function Packet(o: Opt, cfg: Config, f: seq<byte>): seq<byte>
    requires 3 <= |f| < 0xfff0 && 0 <= cfg.call < 0x1_0000
  {
    var payload := Pack(f, cfg.compProt, cfg.compAc);
    Header(|payload|, cfg.call, Succ(o.seqSent), AckOf(o)) + payload
  }

  function AfterSend(o: Opt): Opt {
    o.(seqSent := Succ(o.seqSent), ackSent := o.seqRecv)
  }

  // The first number has begun again at zero and the second has not yet.
  predicate Wrapped(now: word, last: word) {
    now < 256 && last >= 0xffff_ff00
  }

  predicate Stale(seqNo: word, seqRecv: word) {
    seqNo < Succ(seqRecv) || Wrapped(seqRecv, seqNo)
  }

  // An LCP echo request or reply is let through even when it is late.
  predicate IsEcho(payload: seq<byte>) {
    |payload| >= 5 && StartsAddressed(payload) && payload[2] == 0xc0 && payload[3] == 0x21
    && (payload[4] == 9 || payload[4] == 10)
  }

  function HeaderSize(p: seq<byte>): nat
    requires |p| >= 2
  {
    if HasAck(p) then 16 else 12
  }

  // The header is there as far as its flags say.
  predicate HeaderWhole(p: seq<byte>) {
    |p| >= 12 && (HasAck(p) && HasSequence(p) ==> |p| >= 16)
  }

  function Acked(o: Opt, p: seq<byte>): Opt
    requires HeaderWhole(p)
  {
    if !HasAck(p) then o
    else
      var ack := if HasSequence(p) then Get32(p, 12) else Get32(p, 8);
      if ack > o.ackRecv || Wrapped(ack, o.ackRecv) then o.(ackRecv := ack) else o
  }

  predicate Whole(p: seq<byte>)
    requires HeaderWhole(p)
  {
    HasSequence(p) && |p| - HeaderSize(p) >= Get16(p, 4)
  }

  // The payload of a packet the filter lets through: in sequence, or a late echo.
  function Received(o: Opt, p: seq<byte>): (r: (Opt, Option<seq<byte>>))
    requires HeaderWhole(p)
  {
    var a := Acked(o, p);
    if !Whole(p) then (a, None)
    else
      var seqNo, payload := Get32(p, 8), p[HeaderSize(p)..];
      if !Stale(seqNo, o.seqRecv) then (a.(seqRecv := seqNo), Unpack(payload))
      else if IsEcho(payload) then (a, Unpack(payload))
      else (a, None)
  }

  // Astray: the driver reads on behind the packet, and what it makes of it is not modelled.
  datatype Outcome = Dropped | Passed(frame: seq<byte>) | Astray

  // The look at a late packet for an echo, byte by byte, ends behind it.
  predicate EchoBehind(payload: seq<byte>) {
    || payload == []
    || (payload[0] == 0xff && |payload| == 1)
    || (|payload| < 4 && StartsAddressed(payload))
    || (|payload| == 4 && StartsAddressed(payload) && payload[2] == 0xc0 && payload[3] == 0x21)
  }

  // And so does the look at the first bytes of one in sequence.
  predicate FrameBehind(payload: seq<byte>) {
    payload == [] || (payload[0] == 0xff && |payload| == 1)
  }

  predicate Behind(o: Opt, p: seq<byte>)
    requires HeaderWhole(p)
  {
    Whole(p) &&
    var payload := p[HeaderSize(p)..];
    if Stale(Get32(p, 8), o.seqRecv) then EchoBehind(payload) else FrameBehind(payload)
  }

  function Came(o: Opt, p: seq<byte>): Outcome
    requires HeaderWhole(p)
  {
    if Behind(o, p) then Astray
    else if Received(o, p).1.Some? then Passed(Received(o, p).1.value)
    else Dropped
  }

  // The two ends as the driver updates them.
  class Endpoint {
    var seqSent: word
    var seqRecv: word
    var ackSent: word
    var ackRecv: word

    function State(): Opt
      reads this
    {
      Opt(seqSent, seqRecv, ackSent, ackRecv)
    }

    method Xmit(cfg: Config, frame: seq<byte>) returns (packet: seq<byte>)
      requires 3 <= |frame| < 0xfff0 && 0 <= cfg.call < 0x1_0000
      modifies this
      ensures packet == Packet(old(State()), cfg, frame) && State() == AfterSend(old(State()))
    {
      var data := frame;
      var lcp := data[0] == 0xc0 && data[1] == 0x21 && 1 <= data[2] <= 7;
      if cfg.compProt && data[0] == 0 && !lcp {
        data := data[1..];
      }
      if !cfg.compAc || lcp {
        data := [0xff, 0x03] + data;
      }
      var flags, ver: byte := KEY_AND_SEQUENCE, VERSION;
      var len := |data|;
      seqSent := if seqSent == LAST then 0 else seqSent + 1;
      var ack := [];
      if ackSent != seqRecv {
        ver := VERSION_AND_ACK;
        ack := Put32(seqRecv);
        ackSent := seqRecv;
      }
      packet := [flags, ver, 0x88, 0x0b] + Put16(len) + Put16(cfg.call) + Put32(seqSent) + ack + data;
    }

    method Rcv(packet: seq<byte>) returns (out: Outcome)
      modifies this
      ensures HeaderWhole(packet) ==> State() == Received(old(State()), packet).0 && out == Came(old(State()), packet)
      ensures !HeaderWhole(packet) ==> out == Astray
    {
      if |packet| < 12 || (HasAck(packet) && HasSequence(packet) && |packet| < 16) {
        return Astray;
      }
      if HasAck(packet) {
        var ack := if HasSequence(packet) then Get32(packet, 12) else Get32(packet, 8);
        if ack > ackRecv {
          ackRecv := ack;
        }
        if Wrapped(ack, ackRecv) {
          ackRecv := ack;
        }
      }
      if !HasSequence(packet) || |packet| - HeaderSize(packet) < Get16(packet, 4) {
        return Dropped;
      }
      var seqNo := Get32(packet, 8);
      var payload := packet[HeaderSize(packet)..];
      if seqNo < Succ(seqRecv) || Wrapped(seqRecv, seqNo) {
        if EchoBehind(payload) {
          return Astray;
        }
        if !IsEcho(payload) {
          return Dropped;
        }
      } else {
        seqRecv := seqNo;
      }
      if FrameBehind(payload) {
        return Astray;
      }
      var data := payload;
      if StartsAddressed(data) {
        if |data| < 3 {
          return Dropped;
        }
        data := data[2..];
      }
      if data[0] % 2 == 1 {
        data := [0] + data;
      }
      return Passed(data);
    }
  }

  // ---------------------------------------------------------------- what arrives

  lemma HeaderFields(len: int, call: int, seqNo: word, ack: Option<word>, payload: seq<byte>, p: seq<byte>)
    requires 0 <= len < 0x1_0000 && 0 <= call < 0x1_0000 && p == Header(len, call, seqNo, ack) + payload
    ensures HeaderWhole(p) && HasSequence(p) && (HasAck(p) <==> ack.Some?)
    ensures Get16(p, 4) == len && Get32(p, 8) == seqNo && p[HeaderSize(p)..] == payload
    ensures ack.Some? ==> Get32(p, 12) == ack.value
  {
    assert p[0] == KEY_AND_SEQUENCE && p[1] == if ack.Some? then VERSION_AND_ACK else VERSION;
    assert p[4..6] == Put16(len);
    assert p[4] == p[4..6][0] && p[5] == p[4..6][1];
    assert p[8..12] == Put32(seqNo);
    GetPut32(seqNo, p, 8);
    if ack.Some? {
      assert p[12..16] == Put32(ack.value);
      GetPut32(ack.value, p, 12);
    }
  }

  // The filter takes a number exactly when it is above the last one taken and no straggler from before a wrap;
  // after the highest number there is it takes any.
  lemma TakenIff(seqNo: word, seqRecv: word)
    ensures !Stale(seqNo, seqRecv) <==> seqRecv == LAST || (seqNo > seqRecv && !Wrapped(seqRecv, seqNo))
  {
  }

  predicate Sendable(f: seq<byte>, cfg: Config) {
    3 <= |f| < 0xfff0 && LegalProtocol(f) && !Mistaken(f, cfg.compProt, cfg.compAc)
  }

  predicate ValidConfig(cfg: Config) {
    0 <= cfg.call < 0x1_0000
  }

  // A packet received in its turn delivers the frame that was sent, and what the other end acknowledges.
  lemma InTurn(sender: Opt, receiver: Opt, cfg: Config, f: seq<byte>, p: seq<byte>)
    requires ValidConfig(cfg) && Sendable(f, cfg) && p == Packet(sender, cfg, f)
    requires receiver.seqRecv == sender.seqSent
    ensures HeaderWhole(p) && Received(receiver, p).1 == Some(f)
    ensures Received(receiver, p).0.seqRecv == AfterSend(sender).seqSent
  {
    var payload := Pack(f, cfg.compProt, cfg.compAc);
    HeaderFields(|payload|, cfg.call, Succ(sender.seqSent), AckOf(sender), payload, p);
    TakenIff(Succ(sender.seqSent), receiver.seqRecv);
    PackRoundTrip(f, cfg.compProt, cfg.compAc);
  }

  predicate AllSendable(frames: seq<seq<byte>>, cfg: Config) {
    forall i :: 0 <= i < |frames| ==> Sendable(frames[i], cfg)
  }

  function Packets(o: Opt, cfg: Config, frames: seq<seq<byte>>): seq<seq<byte>>
    requires ValidConfig(cfg) && AllSendable(frames, cfg)
    decreases |frames|
  {
    if frames == [] then []
    else [Packet(o, cfg, frames[0])] + Packets(AfterSend(o), cfg, frames[1..])
  }

  // What a series of packets delivers; one whose header is cut short delivers nothing.
  function Delivered(o: Opt, packets: seq<seq<byte>>): seq<seq<byte>>
    decreases |packets|
  {
    if packets == [] then []
    else if !HeaderWhole(packets[0]) then Delivered(o, packets[1..])
    else
      var r := Received(o, packets[0]);
      (if r.1.Some? then [r.1.value] else []) + Delivered(r.0, packets[1..])
  }

  // Packets that arrive in order deliver the frames that were sent, in order, across any number of wraps.
  lemma {:induction false} StreamArrives(sender: Opt, receiver: Opt, cfg: Config, frames: seq<seq<byte>>)
    requires ValidConfig(cfg) && AllSendable(frames, cfg) && receiver.seqRecv == sender.seqSent
    ensures Delivered(receiver, Packets(sender, cfg, frames)) == frames
    decreases |frames|
  {
    if frames != [] {
      var p := Packet(sender, cfg, frames[0]);
      InTurn(sender, receiver, cfg, frames[0], p);
      StreamArrives(AfterSend(sender), Received(receiver, p).0, cfg, frames[1..]);
      assert Packets(sender, cfg, frames)[1..] == Packets(AfterSend(sender), cfg, frames[1..]);
    }
  }

  // ---------------------------------------------------------------- in order, with losses

  // The number that the n-th packet bears.
  function Number(n: nat): word {
    n % WRAP
  }

  // After packet `r` packet `a` comes through: its number is higher, or `r` had the highest; and it is not so far ahead
  // that it is taken for a straggler from before the numbers began again.
  predicate Through(r: nat, a: nat) {
    Number(r) == LAST || (Number(a) > Number(r) && !Wrapped(Number(r), Number(a)))
  }

  // Whatever was lost in between, the filter takes a later packet exactly if it comes through: if, whole rounds of the
  // numbers apart, it follows the last one taken before the numbers begin again.
  lemma AfterLoss(r: nat, a: nat)
    requires r < a
    ensures !Stale(Number(a), Number(r)) <==> Through(r, a)
    ensures Number(a) > Number(r) <==> 0 < (a - r) % WRAP < WRAP - r % WRAP
  {
    TakenIff(Number(a), Number(r));
    Apart(r, a);
  }

  lemma Apart(r: nat, a: nat)
    requires r < a
    ensures a % WRAP > r % WRAP <==> 0 < (a - r) % WRAP < WRAP - r % WRAP
  {
    var d := a % WRAP - r % WRAP;
    var k := a / WRAP - r / WRAP;
    assert a - r == WRAP * k + d;
    if d >= 0 {
      RoundsApart(k, d);
    } else {
      RoundsApart(k - 1, d + WRAP);
    }
  }

  lemma RoundsApart(k: int, d: int)
    requires 0 <= d < WRAP
    ensures (WRAP * k + d) % WRAP == d
  {
  }

  lemma NumberSucc(n: nat)
    ensures Number(n + 1) == Succ(Number(n))
  {
  }

  // An LCP echo request or reply, sent with address and control bytes.
  predicate Echo(f: seq<byte>, cfg: Config)
    requires |f| >= 3
  {
    !cfg.compAc && f[0] == 0xc0 && f[1] == 0x21 && (f[2] == 9 || f[2] == 10)
  }

  // With address compression no frame is recognised as an echo: the codes 9 and 10 are not among those that get address
  // and control bytes all the same.
  lemma EchoIff(f: seq<byte>, cfg: Config)
    requires Sendable(f, cfg)
    ensures IsEcho(Pack(f, cfg.compProt, cfg.compAc)) <==> Echo(f, cfg)
  {
    var data := if Squeezed(f, cfg.compProt) then f[1..] else f;
    if Addressed(f, cfg.compAc) {
      assert (ADDRESS_CONTROL + data)[2..] == data;
    }
  }

  // One packet, in its turn or not.
  lemma Arrives(sender: Opt, receiver: Opt, cfg: Config, f: seq<byte>, p: seq<byte>)
    requires ValidConfig(cfg) && Sendable(f, cfg) && p == Packet(sender, cfg, f)
    ensures HeaderWhole(p)
    ensures var stale := Stale(Succ(sender.seqSent), receiver.seqRecv);
      && Received(receiver, p).1 == (if stale && !Echo(f, cfg) then None else Some(f))
      && Received(receiver, p).0.seqRecv == if stale then receiver.seqRecv else Succ(sender.seqSent)
  {
    var payload := Pack(f, cfg.compProt, cfg.compAc);
    HeaderFields(|payload|, cfg.call, Succ(sender.seqSent), AckOf(sender), payload, p);
    PackRoundTrip(f, cfg.compProt, cfg.compAc);
    EchoIff(f, cfg);
  }

  // The driver never reads behind it.
  lemma NeverBehind(sender: Opt, receiver: Opt, cfg: Config, f: seq<byte>, p: seq<byte>)
    requires ValidConfig(cfg) && Sendable(f, cfg) && p == Packet(sender, cfg, f)
    ensures HeaderWhole(p) && !Behind(receiver, p)
  {
    var payload := Pack(f, cfg.compProt, cfg.compAc);
    HeaderFields(|payload|, cfg.call, Succ(sender.seqSent), AckOf(sender), payload, p);
  }

  // All frames are sent, and the packets that are kept arrive.
  function Arriving(o: Opt, cfg: Config, frames: seq<seq<byte>>, kept: seq<bool>): seq<seq<byte>>
    requires ValidConfig(cfg) && AllSendable(frames, cfg) && |kept| == |frames|
    decreases |frames|
  {
    if frames == [] then []
    else
      (if kept[0] then [Packet(o, cfg, frames[0])] else []) + Arriving(AfterSend(o), cfg, frames[1..], kept[1..])
  }

  // The frames that come through, with packet `r` the last taken and packet `a` the last sent.
  function Surviving(cfg: Config, r: nat, a: nat, frames: seq<seq<byte>>, kept: seq<bool>): seq<seq<byte>>
    requires |kept| == |frames| && AllSendable(frames, cfg)
    decreases |frames|
  {
    if frames == [] then []
    else if kept[0] && Through(r, a + 1) then [frames[0]] + Surviving(cfg, a + 1, a + 1, frames[1..], kept[1..])
    else
      (if kept[0] && Echo(frames[0], cfg) then [frames[0]] else []) + Surviving(cfg, r, a + 1, frames[1..], kept[1..])
  }

  // Over any run, with any losses, exactly those frames are delivered.
  lemma {:induction false} LossyStream(sender: Opt, receiver: Opt, cfg: Config, frames: seq<seq<byte>>, kept: seq<bool>,
                                       r: nat, a: nat)
    requires ValidConfig(cfg) && AllSendable(frames, cfg) && |kept| == |frames|
    requires sender.seqSent == Number(a) && receiver.seqRecv == Number(r) && r <= a
    ensures Delivered(receiver, Arriving(sender, cfg, frames, kept)) == Surviving(cfg, r, a, frames, kept)
    decreases |frames|
  {
    if frames != [] {
      var next, rest := AfterSend(sender), Arriving(AfterSend(sender), cfg, frames[1..], kept[1..]);
      NumberSucc(a);
      if kept[0] {
        var p := Packet(sender, cfg, frames[0]);
        assert ([p] + rest)[1..] == rest;
        Arrives(sender, receiver, cfg, frames[0], p);
        AfterLoss(r, a + 1);
        var after := Received(receiver, p).0;
        if Through(r, a + 1) {
          LossyStream(next, after, cfg, frames[1..], kept[1..], a + 1, a + 1);
        } else {
          LossyStream(next, after, cfg, frames[1..], kept[1..], r, a + 1);
        }
      } else {
        assert [] + rest == rest;
        LossyStream(next, receiver, cfg, frames[1..], kept[1..], r, a + 1);
      }
    }
  }

  // The numbers have begun again, and the highest was not taken: the next packet that is taken is the one behind the
  // next that has the number of the last one taken.
  lemma NextThrough(r: nat, a: nat)
    requires Number(r) != LAST && r / WRAP < a / WRAP && a <= r + WRAP + 1
    ensures Through(r, a) <==> a == r + WRAP + 1
  {
  }

  // The echoes among the packets that arrive.
  function KeptEchoes(cfg: Config, frames: seq<seq<byte>>, kept: seq<bool>): seq<seq<byte>>
    requires |kept| == |frames| && AllSendable(frames, cfg)
    decreases |frames|
  {
    if frames == [] then []
    else (if kept[0] && Echo(frames[0], cfg) then [frames[0]] else []) + KeptEchoes(cfg, frames[1..], kept[1..])
  }

  lemma {:induction false} OnlyEchoes(cfg: Config, r: nat, a: nat, frames: seq<seq<byte>>, kept: seq<bool>)
    requires |kept| == |frames| && AllSendable(frames, cfg)
    requires Number(r) != LAST && r / WRAP < (a + 1) / WRAP && a + |frames| <= r + WRAP
    ensures Surviving(cfg, r, a, frames, kept) == KeptEchoes(cfg, frames, kept)
    decreases |frames|
  {
    if frames != [] {
      NextThrough(r, a + 1);
      OnlyEchoes(cfg, r, a + 1, frames[1..], kept[1..]);
    }
  }

  // Until then exactly the echoes that arrive are delivered.
  lemma Outage(sender: Opt, receiver: Opt, cfg: Config, frames: seq<seq<byte>>, kept: seq<bool>, r: nat, a: nat)
    requires ValidConfig(cfg) && AllSendable(frames, cfg) && |kept| == |frames|
    requires sender.seqSent == Number(a) && receiver.seqRecv == Number(r) && r <= a
    requires Number(r) != LAST && r / WRAP < (a + 1) / WRAP && a + |frames| <= r + WRAP
    ensures Delivered(receiver, Arriving(sender, cfg, frames, kept)) == KeptEchoes(cfg, frames, kept)
  {
    LossyStream(sender, receiver, cfg, frames, kept, r, a);
    OnlyEchoes(cfg, r, a, frames, kept);
  }

  // And then everything comes through again.
  lemma Resumption(cfg: Config, r: nat, frames: seq<seq<byte>>, kept: seq<bool>)
    requires |kept| == |frames| > 0 && kept[0] && AllSendable(frames, cfg)
    ensures Through(r, r + WRAP + 1)
    ensures Surviving(cfg, r, r + WRAP, frames, kept)
         == [frames[0]] + Surviving(cfg, r + WRAP + 1, r + WRAP + 1, frames[1..], kept[1..])
  {
  }

  // With address compression nothing is delivered during the outage.
  lemma {:induction false} Silence(cfg: Config, frames: seq<seq<byte>>, kept: seq<bool>)
    requires |kept| == |frames| && AllSendable(frames, cfg) && cfg.compAc
    ensures KeptEchoes(cfg, frames, kept) == []
    decreases |frames|
  {
    if frames != [] {
      Silence(cfg, frames[1..], kept[1..]);
    }
  }

  // ---------------------------------------------------------------- any order, any duplicates

  predicate Takes(o: Opt, p: seq<byte>) {
    HeaderWhole(p) && Whole(p) && !Stale(Get32(p, 8), o.seqRecv)
  }

  // The numbers of the packets taken in sequence, that is, other than as late echoes.
  function Numbers(o: Opt, packets: seq<seq<byte>>): seq<word>
    decreases |packets|
  {
    if packets == [] then []
    else if !HeaderWhole(packets[0]) then Numbers(o, packets[1..])
    else
      (if Takes(o, packets[0]) then [Get32(packets[0], 8)] else []) + Numbers(Received(o, packets[0]).0, packets[1..])
  }

  // From `last` on, every number is above the one before it, unless that was the highest there is.
  predicate Rising(last: word, numbers: seq<word>)
    decreases |numbers|
  {
    numbers == [] || ((last == LAST || last < numbers[0]) && Rising(numbers[0], numbers[1..]))
  }

  // Whatever packets arrive, in whatever order and however often, the numbers taken rise.
  lemma {:induction false} NumbersRise(o: Opt, packets: seq<seq<byte>>)
    ensures Rising(o.seqRecv, Numbers(o, packets))
    decreases |packets|
  {
    if packets != [] {
      if !HeaderWhole(packets[0]) {
        NumbersRise(o, packets[1..]);
      } else {
        var next := Received(o, packets[0]).0;
        NumbersRise(next, packets[1..]);
        if Takes(o, packets[0]) {
          TakenIff(Get32(packets[0], 8), o.seqRecv);
          assert Numbers(o, packets)[1..] == Numbers(next, packets[1..]);
        } else {
          assert next.seqRecv == o.seqRecv;
          assert [] + Numbers(next, packets[1..]) == Numbers(next, packets[1..]);
        }
      }
    }
  }

  // So no packet is taken twice before the numbers have run out.
  lemma {:induction false} NoneTwice(last: word, numbers: seq<word>, i: nat, j: nat)
    requires Rising(last, numbers) && i < j < |numbers| && forall k :: i <= k < j ==> numbers[k] != LAST
    ensures numbers[i] < numbers[j]
    decreases j
  {
    if i == 0 {
      assert numbers[1..][j - 1] == numbers[j];
      if j > 1 {
        assert numbers[1..][0] == numbers[1];
        forall k | 0 <= k < j - 1 ensures numbers[1..][k] != LAST {
          assert numbers[1..][k] == numbers[k + 1];
        }
        NoneTwice(numbers[0], numbers[1..], 0, j - 1);
      }
    } else {
      forall k | i - 1 <= k < j - 1 ensures numbers[1..][k] != LAST {
        assert numbers[1..][k] == numbers[k + 1];
      }
      NoneTwice(numbers[0], numbers[1..], i - 1, j - 1);
    }
  }
}
