/** An answer of many packets, such as NAND_READ's, with the host taking packets while the driver
    polls. */
module BulkAnswer {
  import opened Options
  import opened RsCode
  import opened Udc
  import opened Transport
  import opened Progress
  import opened LostRequests

  // ----- what every step keeps

  /** The driver has noticed that a packet was taken, and will look at endpoint 1. */
  predicate AboutToSend(c: Ctl) {
    (c.pc == GotIn || c.pc == GotOut) && c.sawIn
  }

  function InFifo(c: Ctl): seq<seq<byte>> {
    if c.inFifo.Some? then [c.inFifo.value] else []
  }

  /** The host has only packets to take. */
  predicate OnlyTakes(s: System) {
    !s.waiting && s.c.ep0 == None && s.c.outFifo == None && !s.c.pc.Running? && forall i | 0 <= i < |s.todo| :: s.todo[i] == Receive
  }

  /** The endpoint is given a packet only when the one before has been taken. */
  predicate OneAtATime(c: Ctl) {
    && (c.irqIn || AboutToSend(c) ==> c.inFifo == None)
    && !(c.irqIn && AboutToSend(c))
  }

  /** What the host has, what is in the FIFO and what is still to come make up `all`. */
  ghost predicate Delivering(cfg: Config, all: seq<seq<byte>>, s: System) {
    && cfg.fs >= 8 && Sane(s.c.dev) && OnlyTakes(s) && OneAtATime(s.c)
    && s.got + (InFifo(s.c) + ToCome(s.c.dev, cfg.fs)) == all
    && |s.todo| == |InFifo(s.c)| + |ToCome(s.c.dev, cfg.fs)|
  }

  lemma {:induction false} HostDelivers(cfg: Config, all: seq<seq<byte>>, s: System, s1: System)
    requires Delivering(cfg, all, s) && s1 == Step(cfg, s, true)
    ensures Delivering(cfg, all, s1)
  {
    if s.todo != [] && s.c.inFifo.Some? {
      var p, rest := s.c.inFifo.value, ToCome(s.c.dev, cfg.fs);
      assert s.todo[0] == Receive;
      assert (s.got + [p]) + ([] + rest) == s.got + ([p] + rest);
    }
  }

  /** The driver's look at endpoint 1. */
  lemma {:induction false} SendDelivers(cfg: Config, all: seq<seq<byte>>, s: System, s1: System)
    requires Delivering(cfg, all, s) && s.c.pc == GotOut && s.c.sawIn && s1 == Step(cfg, s, false)
    ensures Delivering(cfg, all, s1)
    ensures s1.c.inFifo.Some? <==> ToCome(s.c.dev, cfg.fs) != []
  {
    EpInDelivers(s.c.dev, cfg.fs);
    var r := EpIn(s.c.dev, cfg.fs);
    assert s1.c == s.c.(pc := ServedIn, dev := r.d, inFifo := Queue(s.c.inFifo, r.packet));
    if r.packet.Some? {
      assert [] + ToCome(s.c.dev, cfg.fs) == [r.packet.value] + ToCome(r.d, cfg.fs);
    }
  }

  /** No other step of the driver has to do with it. */
  lemma {:induction false} OthersDeliver(cfg: Config, all: seq<seq<byte>>, s: System, s1: System)
    requires Delivering(cfg, all, s) && !(s.c.pc == GotOut && s.c.sawIn) && s1 == Step(cfg, s, false)
    ensures Delivering(cfg, all, s1)
    ensures s1.c.inFifo == s.c.inFifo && ToCome(s1.c.dev, cfg.fs) == ToCome(s.c.dev, cfg.fs)
  {
    DeviceStepSane(cfg, s.c);
    OthersLeave(cfg, s.c, DeviceStep(cfg, s.c));
  }

  /** What such a step leaves alone. */
  ghost predicate Leaves(cfg: Config, c: Ctl, c1: Ctl) {
    && c1.ep0 == None && c1.outFifo == None && !c1.pc.Running? && c1.inFifo == c.inFifo
    && cfg.fs > 0 && Sane(c.dev) && Sane(c1.dev) && ToCome(c1.dev, cfg.fs) == ToCome(c.dev, cfg.fs)
    && (OneAtATime(c) ==> OneAtATime(c1))
  }

  lemma {:induction false} ClearingLeaves(cfg: Config, c: Ctl, c1: Ctl)
    requires Sane(c.dev) && cfg.fs >= 8 && c.ep0 == None && c.outFifo == None && c.pc.Clearing? && c1 == DeviceStep(cfg, c)
    ensures Leaves(cfg, c, c1)
  {
    assert c1.dev == AfterRequest(c.dev, c.pc.r);
  }

  lemma {:induction false} LooksLeave(cfg: Config, c: Ctl, c1: Ctl)
    requires Sane(c.dev) && cfg.fs >= 8 && c.ep0 == None && c.outFifo == None && c1 == DeviceStep(cfg, c)
    requires c.pc == Start || c.pc == GotIn || (c.pc == GotOut && !c.sawIn)
    ensures c1.dev == c.dev && Leaves(cfg, c, c1)
  {
  }

  lemma {:induction false} OthersLeave(cfg: Config, c: Ctl, c1: Ctl)
    requires Sane(c.dev) && cfg.fs >= 8 && !(c.pc == GotOut && c.sawIn) && c.ep0 == None && c.outFifo == None && !c.pc.Running?
    requires c1 == DeviceStep(cfg, c)
    ensures Leaves(cfg, c, c1)
  {
    match c.pc
    case Clearing(_) => ClearingLeaves(cfg, c, c1);
    case Start => LooksLeave(cfg, c, c1);
    case GotIn => LooksLeave(cfg, c, c1);
    case GotOut => LooksLeave(cfg, c, c1);
    case ServedIn =>
    case ServedOut =>
    case Finishing =>
  }

  lemma {:induction false} StepDelivers(cfg: Config, all: seq<seq<byte>>, s: System, host: bool)
    requires Delivering(cfg, all, s)
    ensures Delivering(cfg, all, Step(cfg, s, host))
  {
    var s1 := Step(cfg, s, host);
    if host {
      HostDelivers(cfg, all, s, s1);
    } else if s.c.pc == GotOut && s.c.sawIn {
      SendDelivers(cfg, all, s, s1);
    } else {
      OthersDeliver(cfg, all, s, s1);
    }
  }

  lemma {:induction false} RunDelivers(cfg: Config, all: seq<seq<byte>>, s: System, moves: seq<bool>)
    requires Delivering(cfg, all, s)
    ensures Delivering(cfg, all, Run(cfg, s, moves))
    decreases |moves|
  {
    if moves != [] {
      StepDelivers(cfg, all, s, moves[0]);
      RunDelivers(cfg, all, Step(cfg, s, moves[0]), moves[1..]);
    }
  }

  // ----- an answer from its beginning

  /** The driver has just handled a request that answers with the first `size` bytes of Bulk_in_buf
      and the handshake `hs`; the host has seen it acknowledged and takes as many packets as there
      are. */
  function AnswerBegun(d: Dev, fs: nat, size: nat, hs: seq<byte>, irqEp0: bool, n: nat): System
    requires size <= |d.inBuf|
  {
    var r := StartBulkIn(d, fs, size, hs);
    System(Ctl(r.d, irqEp0, false, false, None, None, r.packet, Finishing, true, false, false), seq(n, i => Receive), false, [], [])
  }

  function AnswerPackets(d: Dev, fs: nat, size: nat, hs: seq<byte>): (r: seq<seq<byte>>)
    requires size <= |d.inBuf| && fs > 0
    ensures |r| >= 2
  {
    Packets(d.inBuf[..size], fs) + [hs]
  }

  ghost predicate Answers(cfg: Config, d: Dev, size: nat, hs: seq<byte>) {
    cfg.fs >= 8 && Sane(d) && size <= |d.inBuf| && size < 0x1_0000_0000 && |hs| == 8
  }

  lemma {:induction false} BegunDelivers(cfg: Config, d: Dev, size: nat, hs: seq<byte>, irqEp0: bool)
    requires Answers(cfg, d, size, hs)
    ensures var all := AnswerPackets(d, cfg.fs, size, hs);
            Delivering(cfg, all, AnswerBegun(d, cfg.fs, size, hs, irqEp0, |all|))
  {
    var r, all := StartBulkIn(d, cfg.fs, size, hs), AnswerPackets(d, cfg.fs, size, hs);
    BulkInTransfer(d, cfg.fs, size, hs, 0);
    FirstAndRest(d, cfg.fs, size, hs);
    assert [] + ([r.packet.value] + ToCome(r.d, cfg.fs)) == all;
  }

  lemma {:induction false} FirstAndRest(d: Dev, fs: nat, size: nat, hs: seq<byte>)
    requires Sane(d) && fs >= 8 && size <= |d.inBuf| && size < 0x1_0000_0000 && |hs| == 8 && Sane(StartBulkIn(d, fs, size, hs).d)
    ensures var r := StartBulkIn(d, fs, size, hs);
            [r.packet.value] + ToCome(r.d, fs) == AnswerPackets(d, fs, size, hs)
  {
    var data := d.inBuf[..size];
    assert data[..|data|] == data;
    if |data| > fs {
      assert d.inBuf[fs..size] == data[fs..];
    }
  }

  /** In every interleaving, at either speed, the host has received the first packets of the answer
      in order; when it is through, all of them, once each. */
  lemma {:induction false} AnswerInOrder(cfg: Config, d: Dev, size: nat, hs: seq<byte>, irqEp0: bool, moves: seq<bool>)
    requires Answers(cfg, d, size, hs)
    ensures var all := AnswerPackets(d, cfg.fs, size, hs);
            var s := Run(cfg, AnswerBegun(d, cfg.fs, size, hs, irqEp0, |all|), moves);
            s.got <= all && |s.got| + |s.todo| == |all|
  {
    var all := AnswerPackets(d, cfg.fs, size, hs);
    BegunDelivers(cfg, d, size, hs, irqEp0);
    RunDelivers(cfg, all, AnswerBegun(d, cfg.fs, size, hs, irqEp0, |all|), moves);
  }

  // ----- when it comes to an end

  /** A packet that is still to come will be sent. */
  ghost predicate Woken(cfg: Config, s: System) {
    Sane(s.c.dev) && cfg.fs > 0 && (s.c.inFifo == None && ToCome(s.c.dev, cfg.fs) != [] ==> s.c.irqIn || AboutToSend(s.c))
  }

  function SendAway(c: Ctl): (n: nat)
    ensures 1 <= n <= 10
  {
    match c.pc
    case GotOut => if c.sawIn then 1 else 8
    case GotIn => if c.sawIn then 2 else 9
    case Start => 3
    case Finishing => 4
    case Clearing(_) => 5
    case Running(_) => 6
    case ServedOut => 6
    case ServedIn => 7
  }

  lemma {:induction false} OthersWake(cfg: Config, c: Ctl, c1: Ctl)
    requires Sane(c.dev) && !cfg.fullSpeed && !(c.pc == GotOut && c.sawIn) && c1 == DeviceStep(cfg, c) && c.ep0 == None && c.outFifo == None
    requires !c.pc.Running? && (c.irqIn || AboutToSend(c))
    ensures (c1.irqIn || AboutToSend(c1)) && SendAway(c1) < SendAway(c)
  {
  }

  /** A host that has to wait waits ten steps at most. */
  lemma {:induction false} WakesSoon(cfg: Config, all: seq<seq<byte>>, s: System, s1: System)
    requires !cfg.fullSpeed && Delivering(cfg, all, s) && Woken(cfg, s) && s1 == Step(cfg, s, false)
    ensures Woken(cfg, s1) && (s.c.inFifo.Some? ==> s1.c.inFifo.Some?)
    ensures s.todo != [] ==> s1.c.inFifo.Some? || SendAway(s1.c) < SendAway(s.c)
  {
    if s.c.pc == GotOut && s.c.sawIn {
      SendDelivers(cfg, all, s, s1);
    } else {
      OthersDeliver(cfg, all, s, s1);
      if s.c.irqIn || AboutToSend(s.c) {
        OthersWake(cfg, s.c, s1.c);
      }
    }
  }

  lemma {:induction false} AnswerPays(cfg: Config, all: seq<seq<byte>>, s: System, moves: seq<bool>, need: nat, paid: bool)
    requires !cfg.fullSpeed && Delivering(cfg, all, s) && Woken(cfg, s)
    requires paid || s.todo == [] || s.c.inFifo.Some? || SendAway(s.c) <= need
    ensures var r := Run(cfg, s, moves);
            r.todo == [] || |r.todo| + Turns(moves, need) <= |s.todo| + (if paid then 1 else 0)
    decreases |moves|
  {
    if moves != [] {
      var s1, rest := Step(cfg, s, moves[0]), moves[1..];
      StepDelivers(cfg, all, s, moves[0]);
      if moves[0] {
        assert s.todo != [] ==> s.todo[0] == Receive;
        if need == 0 {
          AnswerPays(cfg, all, s1, rest, 10, false);
        } else {
          AnswerPays(cfg, all, s1, rest, need, paid || s.c.inFifo.Some?);
        }
      } else {
        WakesSoon(cfg, all, s, s1);
        AnswerPays(cfg, all, s1, rest, if need > 0 then need - 1 else 0, paid);
      }
    }
  }

  /** At high speed the whole answer is taken as soon as the host has had a turn for each packet. */
  lemma {:induction false} AnswerFinishes(cfg: Config, d: Dev, size: nat, hs: seq<byte>, irqEp0: bool, moves: seq<bool>)
    requires Answers(cfg, d, size, hs) && !cfg.fullSpeed && Turns(moves, 10) >= |AnswerPackets(d, cfg.fs, size, hs)|
    ensures var all := AnswerPackets(d, cfg.fs, size, hs);
            var s := Run(cfg, AnswerBegun(d, cfg.fs, size, hs, irqEp0, |all|), moves);
            s.todo == [] && s.got == all
  {
    var all := AnswerPackets(d, cfg.fs, size, hs);
    BegunDelivers(cfg, d, size, hs, irqEp0);
    AnswerPays(cfg, all, AnswerBegun(d, cfg.fs, size, hs, irqEp0, |all|), moves, 10, false);
    AnswerInOrder(cfg, d, size, hs, irqEp0, moves);
  }

  /** The host waits for a packet, and nothing will make the driver send it. */
  ghost predicate Forgotten(cfg: Config, s: System) {
    && cfg.fs >= 8 && Sane(s.c.dev) && OnlyTakes(s) && s.todo != [] && s.c.inFifo == None && !s.c.irqIn && !s.c.irqOut
    && (s.c.pc == GotIn || s.c.pc == GotOut ==> !s.c.sawIn)
  }

  lemma {:induction false} ForgottenForOneStep(cfg: Config, s: System, host: bool)
    requires Forgotten(cfg, s)
    ensures Forgotten(cfg, Step(cfg, s, host)) && Step(cfg, s, host).todo == s.todo
  {
    if host {
      assert s.todo[0] == Receive;
    } else {
      OthersLeave(cfg, s.c, DeviceStep(cfg, s.c));
    }
  }

  lemma {:induction false} ForgottenForever(cfg: Config, s: System, moves: seq<bool>)
    requires Forgotten(cfg, s)
    ensures Run(cfg, s, moves).todo == s.todo
    decreases |moves|
  {
    if moves != [] {
      ForgottenForOneStep(cfg, s, moves[0]);
      ForgottenForever(cfg, Step(cfg, s, moves[0]), moves[1..]);
    }
  }

  /** At full speed the host can take the first packet just before the driver's second look at
      IntrIn: the rest of the answer is never sent. */
  lemma {:induction false} AnswerHangsAtFullSpeed(cfg: Config, d: Dev, size: nat, hs: seq<byte>, irqEp0: bool)
    requires Answers(cfg, d, size, hs) && cfg.fullSpeed
    ensures var s := AnswerBegun(d, cfg.fs, size, hs, irqEp0, |AnswerPackets(d, cfg.fs, size, hs)|);
            Sane(s.c.dev) && Stuck(cfg, Run(cfg, s, [true, false]))
  {
    var all := AnswerPackets(d, cfg.fs, size, hs);
    var s := AnswerBegun(d, cfg.fs, size, hs, irqEp0, |all|);
    BegunDelivers(cfg, d, size, hs, irqEp0);
    var s1 := Step(cfg, s, true);
    HostDelivers(cfg, all, s, s1);
    var s2 := Step(cfg, s1, false);
    OthersDeliver(cfg, all, s1, s2);
    RunOn(cfg, s, true, [false], s1);
    RunOn(cfg, s1, false, [], s2);
    assert [true] + [false] == [true, false] && [false] + [] == [false];
    forall moves: seq<bool> ensures Run(cfg, s2, moves).todo == s2.todo {
      ForgottenForever(cfg, s2, moves);
    }
  }

  lemma {:induction false} WokenInRuns(cfg: Config, all: seq<seq<byte>>, s: System, moves: seq<bool>)
    requires !cfg.fullSpeed && Delivering(cfg, all, s) && Woken(cfg, s)
    ensures Delivering(cfg, all, Run(cfg, s, moves)) && Woken(cfg, Run(cfg, s, moves))
    decreases |moves|
  {
    if moves != [] {
      var s1 := Step(cfg, s, moves[0]);
      StepDelivers(cfg, all, s, moves[0]);
      if !moves[0] {
        WakesSoon(cfg, all, s, s1);
      }
      WokenInRuns(cfg, all, s1, moves[1..]);
    }
  }

  ghost predicate StuckIn(cfg: Config, s: System, moves: seq<bool>)
    requires Sane(s.c.dev) && cfg.fs >= 8
  {
    Stuck(cfg, Run(cfg, s, moves))
  }

  /** Every answer can be cut short in some interleaving at full speed, and none at high speed. */
  lemma {:induction false} AnswerHangsIff(cfg: Config, d: Dev, size: nat, hs: seq<byte>, irqEp0: bool)
    requires Answers(cfg, d, size, hs)
    ensures var s := AnswerBegun(d, cfg.fs, size, hs, irqEp0, |AnswerPackets(d, cfg.fs, size, hs)|);
            Sane(s.c.dev) && (cfg.fullSpeed <==> exists moves: seq<bool> :: StuckIn(cfg, s, moves))
  {
    var all := AnswerPackets(d, cfg.fs, size, hs);
    var s := AnswerBegun(d, cfg.fs, size, hs, irqEp0, |all|);
    BegunDelivers(cfg, d, size, hs, irqEp0);
    if cfg.fullSpeed {
      AnswerHangsAtFullSpeed(cfg, d, size, hs, irqEp0);
      assert StuckIn(cfg, s, [true, false]);
    } else {
      forall moves: seq<bool> ensures !StuckIn(cfg, s, moves) {
        NeverStuck(cfg, all, s, moves);
      }
    }
  }

  lemma {:induction false} NeverStuck(cfg: Config, all: seq<seq<byte>>, s: System, moves: seq<bool>)
    requires !cfg.fullSpeed && Delivering(cfg, all, s) && Woken(cfg, s)
    ensures !StuckIn(cfg, s, moves)
  {
    WokenInRuns(cfg, all, s, moves);
    var s1 := Run(cfg, s, moves);
    var more := TurnMoves(|s1.todo|);
    TurnMovesHave(|s1.todo|);
    AnswerPays(cfg, all, s1, more, 10, false);
    assert Run(cfg, s1, more).todo == [];
  }
}
