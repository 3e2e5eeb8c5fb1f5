/** With status-stage interrupts, a request can overtake a packet exactly in the programs that
    are told apart in StatusStage; how it happens, and what it does. */
module Overtaking {
  import opened Options
  import opened Udc
  import opened Transport
  import opened LoadSdram
  import opened StatusStage

  /** A request that uses the buffer is about to be handled, and a packet that was sent before
      it is not in the buffer. */
  predicate Early(s: System) {
    s.c.pc.Running? && ReadsBuffer(s.c.pc.r) && s.c.outFifo.Some?
  }

  ghost predicate EarlyIn(cfg: Config, d0: Dev, program: seq<Op>, moves: seq<bool>)
    requires Sane(d0) && cfg.fs >= 8
  {
    Early(Run(cfg, Initial(d0, program), moves))
  }

  // ----- programs without a race

  lemma {:induction false} CalmNeverEarly(cfg: Config, d0: Dev, program: seq<Op>, moves: seq<bool>)
    requires cfg.fs >= 8 && Quiet(d0) && WellFormed(program) && !Racy(cfg, program)
    ensures !EarlyIn(cfg, d0, program, moves)
  {
    Initial2(cfg, d0, program);
    var t := RunKeeps2(cfg, GoalOf(cfg.fs, d0, program), program, Traced(Initial(d0, program), false), moves);
  }

  lemma {:induction false} PlainNeverEarly(cfg: Config, d0: Dev, program: seq<Op>, moves: seq<bool>)
    requires cfg.fs >= 8 && !cfg.statusIrq && Quiet(d0) && WellFormed(program)
    ensures !EarlyIn(cfg, d0, program, moves)
  {
    InitialInv(cfg, d0, program);
    RunKeepsInv(cfg, d0, program, Initial(d0, program), moves);
    var s := Run(cfg, Initial(d0, program), moves);
    if s.c.pc.Running? {
      RunIsNext(cfg, d0, program, s, Step(cfg, s, false), s.c.pc.r);
    }
  }

  // ----- the device by itself

  function Alone(cfg: Config, c: Ctl, n: nat): (r: Ctl)
    requires Sane(c.dev) && cfg.fs >= 8
    ensures Sane(r.dev)
    decreases n
  {
    if n == 0 then c
    else
      DeviceStepSane(cfg, c);
      Alone(cfg, DeviceStep(cfg, c), n - 1)
  }

  lemma {:induction false} AloneOn(cfg: Config, c: Ctl, n: nat, c1: Ctl, m: nat)
    requires Sane(c.dev) && cfg.fs >= 8 && n == m + 1 && c1 == DeviceStep(cfg, c)
    ensures Sane(c1.dev) && Alone(cfg, c, n) == Alone(cfg, c1, m)
  {
    DeviceStepSane(cfg, c);
  }

  lemma {:induction false} AloneLast(cfg: Config, c: Ctl, n: nat, c1: Ctl, m: nat)
    requires Sane(c.dev) && cfg.fs >= 8 && n == m + 1 && c1 == Alone(cfg, c, m)
    ensures Alone(cfg, c, n) == DeviceStep(cfg, c1)
    decreases m
  {
    if m > 0 {
      DeviceStepSane(cfg, c);
      AloneLast(cfg, DeviceStep(cfg, c), n - 1, c1, m - 1);
    }
  }

  lemma {:induction false} NothingToSend(d: Dev, fs: nat)
    requires Quiet(d)
    ensures EpIn(d, fs) == Served(d, None)
  {
  }

  /** From GotOut on, when the driver knows of no packet. */
  lemma {:induction false} Miss(cfg: Config, c: Ctl)
    requires cfg.fs >= 8 && Quiet(c.dev) && c.pc == GotOut && !(c.sawOut && c.outFifo.Some?)
    ensures Alone(cfg, c, 2) == c.(pc := ServedOut)
  {
    NothingToSend(c.dev, cfg.fs);
    var c1 := c.(pc := ServedIn);
    AloneOn(cfg, c, 2, c1, 1);
    AloneOn(cfg, c1, 1, c.(pc := ServedOut), 0);
  }

  lemma {:induction false} Pass(cfg: Config, c: Ctl)
    requires cfg.fs >= 8 && Quiet(c.dev) && c.pc == GotIn && c.sawEp0 && c.outFifo == None && !c.irqOut
    ensures Alone(cfg, c, 3) == c.(pc := ServedOut, sawOut := false)
  {
    var c1 := c.(pc := GotOut, sawOut := false);
    AloneOn(cfg, c, 3, c1, 2);
    Miss(cfg, c1);
  }

  /** From GotIn on, when a packet is in the FIFO. */
  lemma {:induction false} Take(cfg: Config, c: Ctl, p: Packet)
    requires cfg.fs >= 8 && Quiet(c.dev) && c.pc == GotIn && c.outFifo == Some(p) && c.irqOut
    ensures Alone(cfg, c, 3) == c.(pc := ServedOut, sawOut := true, irqOut := false, outFifo := None, dev := EpOut(c.dev, p))
  {
    NothingToSend(c.dev, cfg.fs);
    var c1 := c.(pc := GotOut, sawOut := true, irqOut := false);
    var c2 := c1.(pc := ServedIn);
    AloneOn(cfg, c, 3, c1, 2);
    AloneOn(cfg, c1, 2, c2, 1);
    AloneOn(cfg, c2, 1, c2.(pc := ServedOut, outFifo := None, dev := EpOut(c.dev, p)), 0);
  }

  /** The interrupts left at the end of a round. */
  function EndOfRound(cfg: Config, c: Ctl): Ctl {
    c.(pc := Start, irqEp0 := c.irqEp0 && !cfg.fullSpeed, irqIn := c.irqIn && !cfg.fullSpeed)
  }

  lemma {:induction false} Round(cfg: Config, c: Ctl)
    requires cfg.fs >= 8 && Quiet(c.dev) && c.pc == ServedOut && c.ep0 == None
    ensures Alone(cfg, c, 2) == EndOfRound(cfg, c)
  {
    var c1 := c.(pc := Finishing);
    AloneOn(cfg, c, 2, c1, 1);
    AloneOn(cfg, c1, 1, EndOfRound(cfg, c), 0);
  }

  /** From ServedOut on, when there is a request and the driver knows of one: up to the end of
      the round, */
  lemma {:induction false} Handle(cfg: Config, c: Ctl, r: Request)
    requires cfg.fs >= 8 && Quiet(c.dev) && c.pc == ServedOut && c.sawEp0 && c.ep0 == Some(r)
    ensures var packet := HandleRequest(c.dev, cfg.fs, r).packet;
            Alone(cfg, c, 3) == c.(pc := Finishing, ep0 := None, dev := Effect(cfg.fs, c.dev, Control(r)), inFifo := Queue(c.inFifo, packet))
  {
    var served := HandleRequest(c.dev, cfg.fs, r);
    var c1 := c.(pc := Running(r), ep0 := None);
    var c2 := c1.(pc := Clearing(r), dev := served.d, inFifo := Queue(c.inFifo, served.packet));
    AloneOn(cfg, c, 3, c1, 2);
    AloneOn(cfg, c1, 2, c2, 1);
    AloneOn(cfg, c2, 1, c2.(pc := Finishing, dev := AfterRequest(served.d, r)), 0);
  }

  /** and into the next one. */
  lemma {:induction false} Serve(cfg: Config, c: Ctl, r: Request)
    requires cfg.fs >= 8 && Quiet(c.dev) && c.pc == ServedOut && c.sawEp0 && c.ep0 == Some(r)
    ensures var packet := HandleRequest(c.dev, cfg.fs, r).packet;
            Alone(cfg, c, 4) == EndOfRound(cfg, c).(ep0 := None, dev := Effect(cfg.fs, c.dev, Control(r)), inFifo := Queue(c.inFifo, packet))
  {
    Handle(cfg, c, r);
    var c3 := Alone(cfg, c, 3);
    AloneLast(cfg, c, 4, c3, 3);
  }

  // ----- reachable states

  ghost predicate Reaches(cfg: Config, s: System, s1: System) {
    Sane(s.c.dev) && Sane(s1.c.dev) && cfg.fs >= 8 && exists moves: seq<bool> :: Run(cfg, s, moves) == s1
  }

  lemma {:induction false} HostMoves(cfg: Config, s0: System, s: System, s1: System)
    requires Reaches(cfg, s0, s) && s1 == Step(cfg, s, true)
    ensures Reaches(cfg, s0, s1)
  {
    var moves: seq<bool> :| Run(cfg, s0, moves) == s;
    assert Run(cfg, s, [true]) == s1 by {
      RunOn(cfg, s, true, [], s1);
      assert [true] + [] == [true];
    }
    RunTwice(cfg, s0, moves, [true]);
  }

  lemma {:induction false} DeviceMoves(cfg: Config, s0: System, s: System, n: nat) returns (s1: System)
    requires Reaches(cfg, s0, s)
    ensures Reaches(cfg, s0, s1) && s1 == s.(c := Alone(cfg, s.c, n), done := s1.done)
    decreases n
  {
    s1 := s;
    if n > 0 {
      var a := Step(cfg, s, false);
      var moves: seq<bool> :| Run(cfg, s0, moves) == s;
      assert Run(cfg, s, [false]) == a by {
        RunOn(cfg, s, false, [], a);
        assert [false] + [] == [false];
      }
      RunTwice(cfg, s0, moves, [false]);
      s1 := DeviceMoves(cfg, s0, a, n - 1);
    }
  }

  // ----- the operations before the race, carried out in order

  predicate IsReader(op: Op) {
    op.Control? && ReadsBuffer(op.r)
  }

  /** Exactly the first `k` operations have been carried out, and the driver is about to poll. */
  ghost predicate At(fs: nat, d0: Dev, program: seq<Op>, k: nat, irq: bool, s: System) {
    && k <= |program| && s.todo == program[k..] && !s.waiting
    && Quiet(s.c.dev) && s.c.dev == Effects(fs, d0, program[..k])
    && s.c.pc == Start && s.c.outFifo == None && s.c.ep0 == None && s.c.inFifo == None && !s.c.irqOut && s.c.irqEp0 == irq
  }

  lemma EffectsAt(fs: nat, d0: Dev, program: seq<Op>, k: nat, k1: nat)
    requires k < |program| && k1 == k + 1
    ensures Effects(fs, d0, program[..k1]) == Effect(fs, Effects(fs, d0, program[..k]), program[k])
    ensures program[k..] == [program[k]] + program[k1..] && program[k..][1..] == program[k1..]
  {
    assert program[..k1] == program[..k] + [program[k]];
    EffectsOne(fs, d0, program[..k], program[k]);
  }

  lemma {:induction false} BulkAt(cfg: Config, d0: Dev, program: seq<Op>, k: nat, k1: nat, irq: bool, s0: System, s: System) returns (s1: System)
    requires Reaches(cfg, s0, s) && At(cfg.fs, d0, program, k, irq, s) && k < |program| && program[k].Bulk? && k1 == k + 1
    ensures Reaches(cfg, s0, s1) && At(cfg.fs, d0, program, k1, false, s1)
  {
    var p := program[k].p;
    EffectsAt(cfg.fs, d0, program, k, k1);
    var a := s.(c := s.c.(outFifo := Some(p), irqOut := true), todo := program[k1..]);
    HostMoves(cfg, s0, s, a);
    var b := DeviceMoves(cfg, s0, a, 1);
    AloneOn(cfg, a.c, 1, b.c, 0);
    Take(cfg, b.c, p);
    var c := DeviceMoves(cfg, s0, b, 3);
    Round(cfg, c.c);
    s1 := DeviceMoves(cfg, s0, c, 2);
  }

  /** The host has been answered what it waited for, but has not looked. */
  ghost predicate Acked(fs: nat, d0: Dev, program: seq<Op>, k: nat, r: Request, s: System) {
    && k < |program| && program[k] == Control(r) && s.todo == program[k..] && s.waiting
    && Quiet(s.c.dev) && s.c.dev == Effect(fs, Effects(fs, d0, program[..k]), Control(r))
    && s.c.ep0 == None && !s.c.irqEp0 && (s.c.inFifo.Some? <==> ReadsBuffer(r))
  }

  lemma {:induction false} AskRound(cfg: Config, d0: Dev, program: seq<Op>, k: nat, irq: bool, r: Request, s0: System, s: System) returns (s1: System)
    requires Reaches(cfg, s0, s) && At(cfg.fs, d0, program, k, irq, s) && k < |program| && program[k] == Control(r) && ValidRequest(r)
    ensures Reaches(cfg, s0, s1) && Acked(cfg.fs, d0, program, k, r, s1)
    ensures s1.c.pc == Finishing && s1.c.outFifo == None && !s1.c.irqOut
  {
    var a := s.(c := s.c.(ep0 := Some(r), irqEp0 := true), waiting := true);
    HostMoves(cfg, s0, s, a);
    var b := DeviceMoves(cfg, s0, a, 1);
    AloneOn(cfg, a.c, 1, b.c, 0);
    Pass(cfg, b.c);
    var c := DeviceMoves(cfg, s0, b, 3);
    Handle(cfg, c.c, r);
    RunQuiet(cfg, c.c.dev, r);
    s1 := DeviceMoves(cfg, s0, c, 3);
  }

  lemma {:induction false} Ask(cfg: Config, d0: Dev, program: seq<Op>, k: nat, irq: bool, r: Request, s0: System, s: System) returns (s1: System)
    requires Reaches(cfg, s0, s) && At(cfg.fs, d0, program, k, irq, s) && k < |program| && program[k] == Control(r) && ValidRequest(r)
    ensures Reaches(cfg, s0, s1) && Acked(cfg.fs, d0, program, k, r, s1)
    ensures s1.c.pc == Start && s1.c.outFifo == None && !s1.c.irqOut
  {
    var a := AskRound(cfg, d0, program, k, irq, r, s0, s);
    s1 := DeviceMoves(cfg, s0, a, 1);
    AloneOn(cfg, a.c, 1, EndOfRound(cfg, a.c), 0);
  }

  /** The number of the operation behind a request and its answer. */
  function Behind(program: seq<Op>, k: nat): nat
    requires k < |program| && program[k].Control?
  {
    if ReadsBuffer(program[k].r) then k + 2 else k + 1
  }

  lemma {:induction false} AnsweredAt(busy: bool, program: seq<Op>, k: nat)
    requires Answered(busy, program) && k <= |program|
    ensures Answered(if k == 0 then busy else IsReader(program[k - 1]), program[k..])
    decreases k
  {
    if k > 0 {
      AnsweredAt(IsReader(program[0]), program[1..], k - 1);
      assert program[1..][k - 1..] == program[k..];
    }
  }

  lemma {:induction false} AnswerFollows(program: seq<Op>, k: nat, k1: nat)
    requires Answered(false, program) && k < |program| && IsReader(program[k]) && k1 == k + 1
    ensures k1 < |program| && program[k1] == Receive
  {
    AnsweredAt(false, program, k1);
    assert program[k1..][0] == program[k1];
  }

  /** The host sees the acknowledgement, and takes the answer if there is one. */
  lemma {:induction false} Answer(cfg: Config, d0: Dev, program: seq<Op>, k: nat, r: Request, k1: nat, s0: System, s: System) returns (s1: System)
    requires Reaches(cfg, s0, s) && Answered(false, program) && Acked(cfg.fs, d0, program, k, r, s) && k1 == Behind(program, k)
    ensures Reaches(cfg, s0, s1) && k1 <= |program| && s1.todo == program[k1..] && !s1.waiting
    ensures s1.c == s.c.(irqEp0 := cfg.statusIrq, inFifo := None, irqIn := s1.c.irqIn)
    ensures s1.c.dev == Effects(cfg.fs, d0, program[..k1])
  {
    EffectsAt(cfg.fs, d0, program, k, k + 1);
    s1 := s.(c := s.c.(irqEp0 := cfg.statusIrq), waiting := false, todo := program[k + 1..]);
    HostMoves(cfg, s0, s, s1);
    if ReadsBuffer(r) {
      AnswerFollows(program, k, k + 1);
      EffectsAt(cfg.fs, d0, program, k + 1, k1);
      var s2 := Step(cfg, s1, true);
      HostMoves(cfg, s0, s1, s2);
      s1 := s2;
    }
  }

  lemma {:induction false} ExchangeAt(cfg: Config, d0: Dev, program: seq<Op>, k: nat, irq: bool, r: Request, k1: nat, s0: System, s: System)
      returns (s1: System)
    requires Reaches(cfg, s0, s) && At(cfg.fs, d0, program, k, irq, s) && WellFormed(program)
    requires k < |program| && program[k] == Control(r) && k1 == Behind(program, k)
    ensures Reaches(cfg, s0, s1) && At(cfg.fs, d0, program, k1, cfg.statusIrq, s1)
  {
    var a := Ask(cfg, d0, program, k, irq, r, s0, s);
    s1 := Answer(cfg, d0, program, k, r, k1, s0, a);
  }

  /** Between an operation and the next, and not between a request and its answer. */
  ghost predicate Between(program: seq<Op>, k: nat) {
    k <= |program| && (k > 0 ==> !IsReader(program[k - 1]))
  }

  /** Any beginning of a program can be carried out in order. */
  lemma {:induction false} GetTo(cfg: Config, d0: Dev, program: seq<Op>, k: nat) returns (s: System)
    requires cfg.fs >= 8 && Quiet(d0) && WellFormed(program) && Between(program, k)
    ensures Reaches(cfg, Initial(d0, program), s)
    ensures At(cfg.fs, d0, program, k, cfg.statusIrq && k > 0 && !program[k - 1].Bulk?, s)
    decreases k
  {
    var s0 := Initial(d0, program);
    if k == 0 {
      s := s0;
      assert Run(cfg, s0, []) == s0 && program[0..] == program && program[..0] == [];
    } else if program[k - 1].Bulk? {
      assert Between(program, k - 1) by {
        if k > 1 && IsReader(program[k - 2]) { AnswerFollows(program, k - 2, k - 1); }
      }
      s := GetTo(cfg, d0, program, k - 1);
      s := BulkAt(cfg, d0, program, k - 1, k, s.c.irqEp0, s0, s);
    } else {
      var a := RequestBefore(program, k);
      s := GetTo(cfg, d0, program, a);
      s := ExchangeAt(cfg, d0, program, a, s.c.irqEp0, program[a].r, k, s0, s);
    }
  }

  /** Where the request is that the host has just been through with. */
  lemma {:induction false} RequestBefore(program: seq<Op>, k: nat) returns (a: nat)
    requires Answered(false, program) && Between(program, k) && k > 0 && !program[k - 1].Bulk?
    ensures a < k && Between(program, a) && program[a].Control? && k == Behind(program, a)
  {
    a := k - 1;
    if program[a] == Receive {
      AnsweredAt(false, program, a);
      assert program[a..][0] == Receive;
      a := k - 2;
    }
    if a > 0 && IsReader(program[a - 1]) {
      AnswerFollows(program, a - 1, a);
    }
  }

  /** So at either speed every program can be brought to its end. */
  lemma {:induction false} ProgramCanFinish(cfg: Config, d0: Dev, program: seq<Op>) returns (moves: seq<bool>)
    requires cfg.fs >= 8 && Quiet(d0) && WellFormed(program)
    ensures var s := Run(cfg, Initial(d0, program), moves);
            s.todo == [] && s.c.dev == Effects(cfg.fs, d0, program)
  {
    AnsweredAt(false, program, |program|);
    var s := GetTo(cfg, d0, program, |program|);
    assert program[..|program|] == program;
    moves :| Run(cfg, Initial(d0, program), moves) == s;
  }

  // ----- the race

  /** The driver has noticed an EP0 interrupt but not the packet that precedes request `k`,
      and is about to look for a request. */
  ghost predicate Overtaken(fs: nat, d0: Dev, program: seq<Op>, k: nat, s: System) {
    && 0 < k < |program| && program[k - 1].Bulk? && program[k].Control? && s.todo == program[k..] && s.waiting
    && Quiet(s.c.dev) && s.c.dev == Effects(fs, d0, program[..k - 1])
    && s.c.pc == ServedOut && s.c.sawEp0 && s.c.irqOut && s.c.inFifo == None
    && s.c.outFifo == Some(program[k - 1].p) && s.c.ep0 == Some(program[k].r)
  }

  /** The packet and the request arrive behind the driver's look at IntrOut. */
  lemma {:induction false} OneBehind(cfg: Config, d0: Dev, program: seq<Op>, k: nat, k1: nat, s0: System, s: System) returns (s1: System)
    requires Reaches(cfg, s0, s) && At(cfg.fs, d0, program, k, true, s) && k1 == k + 1 < |program|
    requires program[k].Bulk? && program[k1].Control?
    ensures Reaches(cfg, s0, s1) && Overtaken(cfg.fs, d0, program, k1, s1)
  {
    var p := program[k].p;
    EffectsAt(cfg.fs, d0, program, k, k1);
    var a := DeviceMoves(cfg, s0, s, 2);
    AloneOn(cfg, s.c, 2, s.c.(pc := GotIn, sawEp0 := true, sawIn := s.c.irqIn, irqEp0 := false, irqIn := false), 1);
    AloneOn(cfg, s.c.(pc := GotIn, sawEp0 := true, sawIn := s.c.irqIn, irqEp0 := false, irqIn := false), 1, a.c, 0);
    var b := a.(c := a.c.(outFifo := Some(p), irqOut := true), todo := program[k1..]);
    HostMoves(cfg, s0, a, b);
    var c := b.(c := b.c.(ep0 := Some(program[k1].r), irqEp0 := true), waiting := true);
    HostMoves(cfg, s0, b, c);
    Miss(cfg, c.c);
    s1 := DeviceMoves(cfg, s0, c, 2);
  }

  /** One packet is served in between, and the next one and the request arrive behind it. */
  lemma {:induction false} TwoBehind(cfg: Config, d0: Dev, program: seq<Op>, k: nat, k1: nat, k2: nat, s0: System, s: System) returns (s1: System)
    requires Reaches(cfg, s0, s) && At(cfg.fs, d0, program, k, true, s) && k1 == k + 1 && k2 == k1 + 1 < |program|
    requires program[k].Bulk? && program[k1].Bulk? && program[k2].Control?
    ensures Reaches(cfg, s0, s1) && Overtaken(cfg.fs, d0, program, k2, s1)
  {
    EffectsAt(cfg.fs, d0, program, k, k1);
    EffectsAt(cfg.fs, d0, program, k1, k2);
    var a := DeviceMoves(cfg, s0, s, 1);
    AloneOn(cfg, s.c, 1, a.c, 0);
    var b := a.(c := a.c.(outFifo := Some(program[k].p), irqOut := true), todo := program[k1..]);
    HostMoves(cfg, s0, a, b);
    Take(cfg, b.c, program[k].p);
    var c := DeviceMoves(cfg, s0, b, 3);
    var d := c.(c := c.c.(outFifo := Some(program[k1].p), irqOut := true), todo := program[k2..]);
    HostMoves(cfg, s0, c, d);
    s1 := d.(c := d.c.(ep0 := Some(program[k2].r), irqEp0 := true), waiting := true);
    HostMoves(cfg, s0, d, s1);
  }

  /** The status stage is over, and the packet behind it sent, between the driver's two looks
      at its interrupts: at high speed the EP0 interrupt outlasts the packet's round. */
  lemma {:induction false} LateAnswer(cfg: Config, d0: Dev, program: seq<Op>, k: nat, irq: bool, r: Request, k1: nat, k2: nat, s0: System, s: System)
      returns (s1: System)
    requires !cfg.fullSpeed && cfg.statusIrq && WellFormed(program)
    requires Reaches(cfg, s0, s) && At(cfg.fs, d0, program, k, irq, s) && k < |program| && program[k] == Control(r)
    requires k1 == Behind(program, k) && k2 == k1 + 1 <= |program| && program[k1].Bulk?
    ensures Reaches(cfg, s0, s1) && At(cfg.fs, d0, program, k2, true, s1)
  {
    EffectsAt(cfg.fs, d0, program, k1, k2);
    var a := Ask(cfg, d0, program, k, irq, r, s0, s);
    var b := DeviceMoves(cfg, s0, a, 1);
    AloneOn(cfg, a.c, 1, b.c, 0);
    var c := Answer(cfg, d0, program, k, r, k1, s0, b);
    var d := c.(c := c.c.(outFifo := Some(program[k1].p), irqOut := true), todo := program[k2..]);
    HostMoves(cfg, s0, c, d);
    Take(cfg, d.c, program[k1].p);
    var e := DeviceMoves(cfg, s0, d, 3);
    Round(cfg, e.c);
    s1 := DeviceMoves(cfg, s0, e, 2);
  }

  /** The packets before a race, and the request before them. */
  lemma {:induction false} PacketsBefore(cfg: Config, program: seq<Op>, k: nat, j: nat)
    requires WellFormed(program) && RacyAt(cfg, program, k) && j + Since(program, k) == k
    ensures 0 < j && Between(program, j) && !program[j - 1].Bulk? && (forall i | j <= i < k :: program[i].Bulk?)
  {
    SinceMeans(program, k);
    if IsReader(program[j - 1]) {
      AnswerFollows(program, j - 1, j);
    }
  }

  lemma {:induction false} SinceMeans(program: seq<Op>, k: nat)
    requires k <= |program| && Since(program, k) <= 3
    ensures var n := Since(program, k);
            n < k && !program[k - n - 1].Bulk? && forall i | k - n <= i < k :: program[i].Bulk?
    decreases k
  {
    if program[k - 1].Bulk? {
      SinceMeans(program, k - 1);
    }
  }

  lemma {:induction false} RaceIsRun(cfg: Config, d0: Dev, program: seq<Op>, k: nat) returns (s: System)
    requires cfg.fs >= 8 && cfg.statusIrq && Quiet(d0) && WellFormed(program) && RacyAt(cfg, program, k)
    ensures Reaches(cfg, Initial(d0, program), s) && Overtaken(cfg.fs, d0, program, k, s)
  {
    var s0, j := Initial(d0, program), k - Since(program, k);
    SinceMeans(program, k);
    PacketsBefore(cfg, program, k, j);
    if j + 3 == k {
      var a := RequestBefore(program, j);
      s := GetTo(cfg, d0, program, a);
      s := LateAnswer(cfg, d0, program, a, s.c.irqEp0, program[a].r, j, j + 1, s0, s);
      s := TwoBehind(cfg, d0, program, j + 1, j + 2, k, s0, s);
    } else {
      s := GetTo(cfg, d0, program, j);
      if j + 2 == k {
        s := TwoBehind(cfg, d0, program, j, j + 1, k, s0, s);
      } else {
        s := OneBehind(cfg, d0, program, j, k, s0, s);
      }
    }
  }

  lemma {:induction false} RacyGoesEarly(cfg: Config, d0: Dev, program: seq<Op>, k: nat) returns (moves: seq<bool>)
    requires cfg.fs >= 8 && cfg.statusIrq && Quiet(d0) && WellFormed(program) && RacyAt(cfg, program, k)
    ensures EarlyIn(cfg, d0, program, moves)
  {
    var s := RaceIsRun(cfg, d0, program, k);
    var s1 := DeviceMoves(cfg, Initial(d0, program), s, 1);
    AloneOn(cfg, s.c, 1, s1.c, 0);
    moves :| Run(cfg, Initial(d0, program), moves) == s1;
  }

  /** A request overtakes a packet it was to use in some interleaving exactly when the controller
      raises status-stage interrupts and the request comes directly behind packets, at most
      two at full speed and at most three at high speed, and these not at the very start. */
  lemma {:induction false} EarlyIffRacy(cfg: Config, d0: Dev, program: seq<Op>)
    requires cfg.fs >= 8 && Quiet(d0) && WellFormed(program)
    ensures cfg.statusIrq && Racy(cfg, program) <==> exists moves: seq<bool> :: EarlyIn(cfg, d0, program, moves)
  {
    if cfg.statusIrq && Racy(cfg, program) {
      var k: nat :| RacyAt(cfg, program, k);
      var moves := RacyGoesEarly(cfg, d0, program, k);
    } else {
      forall moves: seq<bool> ensures !EarlyIn(cfg, d0, program, moves) {
        if cfg.statusIrq {
          CalmNeverEarly(cfg, d0, program, moves);
        } else {
          PlainNeverEarly(cfg, d0, program, moves);
        }
      }
    }
  }

  // ----- what an overtaken packet does

  lemma {:induction false} AnswerTaken(cfg: Config, op: Op, s0: System, s: System) returns (s1: System)
    requires Reaches(cfg, s0, s) && s.waiting && s.c.ep0 == None && s.c.inFifo.Some? && op.Control? && s.todo == [op, Receive]
    ensures Reaches(cfg, s0, s1) && s1.todo == [] && s1.c == s.c.(irqEp0 := s1.c.irqEp0, inFifo := None, irqIn := true)
  {
    var a := s.(c := s.c.(irqEp0 := s.c.irqEp0 || cfg.statusIrq), waiting := false, todo := [Receive]);
    assert s.todo[1..] == [Receive];
    HostMoves(cfg, s0, s, a);
    s1 := Step(cfg, a, true);
    HostMoves(cfg, s0, a, s1);
  }

  /** The request is served, the host takes its answer, and the packet is still in the FIFO. */
  lemma {:induction false} ServedEarly(cfg: Config, d0: Dev, program: seq<Op>, k: nat, q: Request, s0: System, s: System) returns (s1: System)
    requires Reaches(cfg, s0, s) && Overtaken(cfg.fs, d0, program, k, s) && program[k] == Control(q) && IsReader(program[k])
    requires program[k..] == [Control(q), Receive]
    ensures Reaches(cfg, s0, s1) && s1.todo == [] && Quiet(s1.c.dev)
    ensures s1.c.dev == Effect(cfg.fs, Effects(cfg.fs, d0, program[..k - 1]), Control(q))
    ensures s1.c.pc == Start && s1.c.irqOut && s1.c.outFifo == Some(program[k - 1].p) && s1.c.ep0 == None
  {
    Serve(cfg, s.c, q);
    RunQuiet(cfg, s.c.dev, q);
    var a := DeviceMoves(cfg, s0, s, 4);
    s1 := AnswerTaken(cfg, Control(q), s0, a);
  }

  lemma {:induction false} TakenLast(cfg: Config, p: Packet, s0: System, s: System) returns (s1: System)
    requires Reaches(cfg, s0, s) && s.todo == [] && Quiet(s.c.dev)
    requires s.c.pc == Start && s.c.irqOut && s.c.outFifo == Some(p) && s.c.ep0 == None
    ensures Reaches(cfg, s0, s1) && s1.todo == [] && s1.c.pc == Start && s1.c.dev == EpOut(s.c.dev, p)
  {
    var a := DeviceMoves(cfg, s0, s, 1);
    AloneOn(cfg, s.c, 1, a.c, 0);
    Take(cfg, a.c, p);
    var b := DeviceMoves(cfg, s0, a, 3);
    Round(cfg, b.c);
    s1 := DeviceMoves(cfg, s0, b, 2);
  }

  /** A program that ends with such a request and its answer can end as if the last packet had
      been sent behind the request. */
  lemma {:induction false} RacyEndsSwapped(cfg: Config, d0: Dev, program: seq<Op>, k: nat, p: Packet, q: Request) returns (moves: seq<bool>)
    requires cfg.fs >= 8 && cfg.statusIrq && Quiet(d0) && WellFormed(program) && RacyAt(cfg, program, k) && |program| == k + 2
    requires program[k - 1] == Bulk(p) && program[k] == Control(q)
    ensures var s := Run(cfg, Initial(d0, program), moves);
            && s.todo == [] && s.c.pc == Start
            && s.c.dev == EpOut(Effect(cfg.fs, Effects(cfg.fs, d0, program[..k - 1]), Control(q)), p)
  {
    var s0 := Initial(d0, program);
    var s := RaceIsRun(cfg, d0, program, k);
    AnswerFollows(program, k, k + 1);
    assert program[k..] == [Control(q), Receive];
    s := ServedEarly(cfg, d0, program, k, q, s0, s);
    s := TakenLast(cfg, p, s0, s);
    moves :| Run(cfg, s0, moves) == s;
  }

  lemma {:induction false} BufferKept(fs: nat, d: Dev, ops: seq<Op>)
    ensures |Effects(fs, d, ops).outBuf| == |d.outBuf|
    decreases |ops|
  {
    if ops != [] {
      BufferKept(fs, d, ops[..|ops| - 1]);
      var d1 := Effects(fs, d, ops[..|ops| - 1]);
      match ops[|ops| - 1]
      case Bulk(p) => assert |EpOut(d1, p).outBuf| == |d1.outBuf|;
      case Control(r) =>
      case Receive =>
    }
  }

  /** In order, the last three operations are these. */
  lemma {:induction false} EndsInOrder(fs: nat, d0: Dev, program: seq<Op>, k: nat, p: Packet, q: Request)
    requires 0 < k && |program| == k + 2 && program[k - 1] == Bulk(p) && program[k] == Control(q) && program[k + 1] == Receive
    ensures Effects(fs, d0, program) == Effect(fs, EpOut(Effects(fs, d0, program[..k - 1]), p), Control(q))
  {
    EffectsAt(fs, d0, program, k - 1, k);
    EffectsAt(fs, d0, program, k, k + 1);
    EffectsAt(fs, d0, program, k + 1, k + 2);
    assert program[..k + 2] == program;
  }

  /** That is wrong for every packet that is not empty: its bytes are left in the buffer, where
      they will be in front of the next transfer. */
  lemma {:induction false} RacyGoesWrong(cfg: Config, d0: Dev, program: seq<Op>, k: nat, p: Packet, q: Request) returns (moves: seq<bool>)
    requires cfg.fs >= 8 && cfg.statusIrq && Quiet(d0) && WellFormed(program) && RacyAt(cfg, program, k) && |program| == k + 2
    requires program[k - 1] == Bulk(p) && program[k] == Control(q) && 0 < |p.data| && |p.data| + |p.pad| <= |d0.outBuf|
    ensures var s := Run(cfg, Initial(d0, program), moves);
            s.todo == [] && Settled(s.c).outSize == |p.data| && Effects(cfg.fs, d0, program).outSize == 0
  {
    moves := RacyEndsSwapped(cfg, d0, program, k, p, q);
    AnswerFollows(program, k, k + 1);
    EndsInOrder(cfg.fs, d0, program, k, p, q);
    BufferKept(cfg.fs, d0, program[..k - 1]);
  }

  /** A request, and after it a packet and the configuration request that uses it. */
  function ConfigureProgram(p: Packet): seq<Op> {
    [Control(FlushCaches), Bulk(p), Control(Configure), Receive]
  }

  lemma {:induction false} ConfigureIsRacy(cfg: Config, p: Packet)
    ensures WellFormed(ConfigureProgram(p)) && RacyAt(cfg, ConfigureProgram(p), 2)
  {
    var all := ConfigureProgram(p);
    var last := [Control(Configure), Receive];
    assert Answered(true, [Receive]);
    assert last[1..] == [Receive] && Answered(false, last);
    assert ([Bulk(p)] + last)[1..] == last && Answered(false, [Bulk(p)] + last);
    assert all[1..] == [Bulk(p)] + last && Answered(false, all);
    assert Since(all, 1) == 0;
  }

  /** For example, the driver is configured from what was in the buffer before the
      configuration arrived. */
  lemma {:induction false} ConfigureOvertakes(d0: Dev, p: Packet) returns (moves: seq<bool>)
    requires Quiet(d0) && |d0.hand| <= |d0.outBuf|
    ensures var s := Run(Config(512, false, true), Initial(d0, ConfigureProgram(p)), moves);
            s.todo == [] && s.c.dev.hand == d0.outBuf[..|d0.hand|]
    ensures Effects(512, d0, ConfigureProgram(p)).hand == EpOut(d0, p).outBuf[..|d0.hand|]
  {
    var cfg, all := Config(512, false, true), ConfigureProgram(p);
    ConfigureIsRacy(cfg, p);
    moves := RacyEndsSwapped(cfg, d0, all, 2, p, Configure);
    assert all[..1] == [] + [Control(FlushCaches)];
    EffectsOne(512, d0, [], Control(FlushCaches));
    EndsInOrder(512, d0, all, 2, p, Configure);
  }
}
