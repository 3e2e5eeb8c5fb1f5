/** A host and the polling device, step by step, over one-packet FIFOs and interrupt registers
    that are cleared by reading them. */
module Transport {
  import opened Options
  import opened RsCode
  import opened Udc

  // ----- the device between two accesses to the controller

  /** Where the poll loop stands. A request is acknowledged before its handler runs, and
      Bulk_out_size is reset after the handler has queued its answer. */
  datatype Pc = Start | GotIn | GotOut | ServedIn | ServedOut | Running(r: Request) | Clearing(r: Request) | Finishing

  /** The controller's registers and FIFOs, the driver's variables, and the poll loop's local
      copies of the interrupt bits. */
  datatype Ctl = Ctl(dev: Dev, irqEp0: bool, irqIn: bool, irqOut: bool, outFifo: Option<Packet>, ep0: Option<Request>,
                     inFifo: Option<seq<byte>>, pc: Pc, sawEp0: bool, sawIn: bool, sawOut: bool)

  /** The endpoint size, whether the driver takes the bus for a full-speed one, and whether
      the controller also raises the EP0 interrupt when a request's status stage is over. */
  datatype Config = Config(fs: nat, fullSpeed: bool, statusIrq: bool)

  function Queue(fifo: Option<seq<byte>>, packet: Option<seq<byte>>): Option<seq<byte>> {
    if packet.Some? then packet else fifo
  }

  /** One step of udc4740Proc. */
  function DeviceStep(cfg: Config, c: Ctl): Ctl
    requires Sane(c.dev)
  {
    match c.pc
    case Start =>
      c.(pc := GotIn, sawEp0 := c.irqEp0, sawIn := c.irqIn, irqEp0 := false, irqIn := false)
    case GotIn =>
      var next := if c.sawEp0 || c.sawIn || c.irqOut then GotOut else Start;
      c.(pc := next, sawOut := c.irqOut, irqOut := false)
    case GotOut =>
      if c.sawIn then
        var served := EpIn(c.dev, cfg.fs);
        c.(pc := ServedIn, dev := served.d, inFifo := Queue(c.inFifo, served.packet))
      else c.(pc := ServedIn)
    case ServedIn =>
      if c.sawOut && c.outFifo.Some? then
        c.(pc := ServedOut, dev := EpOut(c.dev, c.outFifo.value), outFifo := None)
      else c.(pc := ServedOut)
    case ServedOut =>
      if c.sawEp0 && c.ep0.Some? then c.(pc := Running(c.ep0.value), ep0 := None)
      else c.(pc := Finishing)
    case Running(r) =>
      var served := HandleRequest(c.dev, cfg.fs, r);
      c.(pc := Clearing(r), dev := served.d, inFifo := Queue(c.inFifo, served.packet))
    case Clearing(r) =>
      c.(pc := Finishing, dev := AfterRequest(c.dev, r))
    case Finishing =>
      if cfg.fullSpeed then c.(pc := Start, irqEp0 := false, irqIn := false) else c.(pc := Start)
  }

  /** The steps of one call of udc4740Proc that are left at `c`, at most `n` of them. */
  function RestOfPoll(cfg: Config, c: Ctl, n: nat): Ctl
    requires Sane(c.dev) && cfg.fs >= 8
    decreases n
  {
    if n == 0 || c.pc == Start then c
    else
      DeviceStepSane(cfg, c);
      RestOfPoll(cfg, DeviceStep(cfg, c), n - 1)
  }

  /** udc4740Proc without the host in between. */
  function Poll(cfg: Config, c: Ctl): Ctl
    requires Sane(c.dev) && cfg.fs >= 8 && c.pc == Start
  {
    DeviceStepSane(cfg, c);
    RestOfPoll(cfg, DeviceStep(cfg, c), 7)
  }

  // ----- the host

  datatype Op = Bulk(p: Packet) | Control(r: Request) | Receive

  /** The whole system: the device, what the host has still to do, whether it waits for a
      request to be acknowledged, what it has received, and a record of the operations that
      the device has carried out. */
  datatype System = System(c: Ctl, todo: seq<Op>, waiting: bool, got: seq<seq<byte>>, done: seq<Op>)

  /** One step of the host. A packet waits for the FIFO to be free, a request is sent and then
      waited for, and an answer is taken when there is one. */
  function HostStep(cfg: Config, s: System): System {
    if s.todo == [] then s
    else
      match s.todo[0]
      case Bulk(p) =>
        if s.c.outFifo.Some? then s
        else s.(c := s.c.(outFifo := Some(p), irqOut := true), todo := s.todo[1..])
      case Control(r) =>
        if !s.waiting then s.(c := s.c.(ep0 := Some(r), irqEp0 := true), waiting := true)
        else if s.c.ep0.Some? then s
        else s.(c := s.c.(irqEp0 := s.c.irqEp0 || cfg.statusIrq), waiting := false, todo := s.todo[1..])
      case Receive =>
        if s.c.inFifo == None then s
        else s.(c := s.c.(inFifo := None, irqIn := true), got := s.got + [s.c.inFifo.value], todo := s.todo[1..])
  }

  /** The operation that a step of the device completes. */
  function Completes(c: Ctl): seq<Op> {
    match c.pc
    case ServedIn => if c.sawOut && c.outFifo.Some? then [Bulk(c.outFifo.value)] else []
    case Running(r) => [Control(r)]
    case _ => []
  }

  function Step(cfg: Config, s: System, host: bool): System
    requires Sane(s.c.dev)
  {
    if host then
      var s1 := HostStep(cfg, s);
      if |s1.todo| < |s.todo| && s.todo[0] == Receive then s1.(done := s.done + [Receive]) else s1
    else s.(c := DeviceStep(cfg, s.c), done := s.done + Completes(s.c))
  }

  // ----- the operations one after another

  /** The effect of one operation on the driver's variables, when nothing else goes on. */
  function Effect(fs: nat, d: Dev, op: Op): Dev {
    match op
    case Bulk(p) => EpOut(d, p)
    case Control(r) => AfterRequest(HandleRequest(d, fs, r).d, r)
    case Receive => d
  }

  function Effects(fs: nat, d: Dev, ops: seq<Op>): Dev
    decreases |ops|
  {
    if ops == [] then d else Effect(fs, Effects(fs, d, ops[..|ops| - 1]), ops[|ops| - 1])
  }

  lemma EffectsOne(fs: nat, d: Dev, ops: seq<Op>, op: Op)
    ensures Effects(fs, d, ops + [op]) == Effect(fs, Effects(fs, d, ops), op)
  {
    assert (ops + [op])[..|ops|] == ops;
  }

  lemma {:induction false} EffectsConcat(fs: nat, d: Dev, a: seq<Op>, b: seq<Op>)
    ensures Effects(fs, d, a + b) == Effects(fs, Effects(fs, d, a), b)
    decreases |b|
  {
    if b == [] {
      assert a + b == a;
    } else {
      var c, op := b[..|b| - 1], b[|b| - 1];
      assert a + b == (a + c) + [op] && b == c + [op];
      EffectsConcat(fs, d, a, c);
      EffectsOne(fs, d, a + c, op);
      EffectsOne(fs, Effects(fs, d, a), c, op);
    }
  }

  /** The variables as they will be once the reset behind a handler has been done. */
  function Settled(c: Ctl): Dev {
    if c.pc.Clearing? then AfterRequest(c.dev, c.pc.r) else c.dev
  }

  /** What has been begun but not carried out, in the order in which it was begun. */
  function Begun(c: Ctl): seq<Op> {
    (if c.pc.Running? then [Control(c.pc.r)] else [])
    + (if c.outFifo.Some? then [Bulk(c.outFifo.value)] else [])
    + (if c.ep0.Some? then [Control(c.ep0.value)] else [])
  }

  /** What the host has not begun. */
  function Untouched(s: System): seq<Op> {
    if s.waiting && s.todo != [] then s.todo[1..] else s.todo
  }

  function Left(s: System): seq<Op> {
    Begun(s.c) + Untouched(s)
  }

  /** Programs in which every answer is taken before anything else is sent; `busy` says that
      an answer is on its way. */
  predicate Answered(busy: bool, ops: seq<Op>)
    decreases |ops|
  {
    if ops == [] then !busy
    else
      match ops[0]
      case Bulk(p) => !busy && Answered(false, ops[1..])
      case Control(r) => !busy && Answered(ReadsBuffer(r), ops[1..])
      case Receive => busy && Answered(false, ops[1..])
  }

  ghost predicate AllValid(ops: seq<Op>) {
    forall i | 0 <= i < |ops| && ops[i].Control? :: ValidRequest(ops[i].r)
  }

  // ----- the invariant

  /** The poll loop is between reading IntrIn and serving EP0. */
  predicate BeforeEp0(pc: Pc) {
    pc == GotIn || pc == GotOut || pc == ServedIn || pc == ServedOut
  }

  /** Interrupt bits announce what is in the FIFOs, and the local copies were taken in the
      order that makes a pending request imply a packet already seen. */
  ghost predicate Announced(s: System) {
    var c := s.c;
    && (c.outFifo.Some? ==> c.irqOut || ((c.pc == GotOut || c.pc == ServedIn) && c.sawOut))
    && (BeforeEp0(c.pc) && c.sawEp0 ==> c.ep0.Some? && !c.irqEp0)
    && (c.irqEp0 ==> c.ep0.Some?)
    && ((c.pc == GotOut || c.pc == ServedIn) && c.sawEp0 && c.outFifo.Some? ==> c.sawOut)
    && (c.pc == ServedOut && c.sawEp0 ==> c.outFifo == None)
    && (c.ep0.Some? ==> s.waiting)
    && (s.waiting ==> s.todo != [] && s.todo[0].Control?)
    && (s.waiting && c.ep0.Some? ==> s.todo[0].r == c.ep0.value)
  }

  /** No bulk answer is under way, so that EP1 IN interrupts have nothing to do. */
  ghost predicate Quiet(d: Dev) {
    Sane(d) && d.inFinish == d.inSize && d.state == Idle
  }

  /** Moving the front of what is left to what is done. */
  lemma MoveOne(done: seq<Op>, op: Op, rest: seq<Op>)
    ensures (done + [op]) + rest == done + ([op] + rest)
  {
  }

  /** The device has carried out `done`, `left` is the rest of the program, and answers and
      loads match. */
  ghost predicate Placed(fs: nat, d0: Dev, program: seq<Op>, c: Ctl, done: seq<Op>, left: seq<Op>) {
    done + left == program && Settled(c) == Effects(fs, d0, done) && Answered(c.inFifo.Some?, left)
  }

  lemma {:induction false} PlacedNext(fs: nat, d0: Dev, program: seq<Op>, c: Ctl, done: seq<Op>, left: seq<Op>, op: Op, c1: Ctl, done1: seq<Op>, left1: seq<Op>)
    requires Placed(fs, d0, program, c, done, left) && left == [op] + left1 && done1 == done + [op]
    requires Settled(c1) == Effect(fs, Settled(c), op) && Answered(c1.inFifo.Some?, left1)
    ensures Placed(fs, d0, program, c1, done1, left1)
  {
    MoveOne(done, op, left1);
    EffectsOne(fs, d0, done, op);
  }

  /** The device is where carrying out the completed operations one after another leads, and
      what is left is the rest of the program. */
  ghost predicate Inv(cfg: Config, d0: Dev, program: seq<Op>, s: System) {
    && cfg.fs >= 8 && !cfg.statusIrq
    && AllValid(program)
    && Quiet(s.c.dev) && (s.c.pc.Running? ==> ValidRequest(s.c.pc.r))
    && Announced(s)
    && Placed(cfg.fs, d0, program, s.c, s.done, Left(s))
  }

  lemma {:induction false} HostKeeps(cfg: Config, d0: Dev, program: seq<Op>, s: System)
    requires Inv(cfg, d0, program, s)
    ensures Inv(cfg, d0, program, Step(cfg, s, true))
  {
    if s.todo != [] {
      match s.todo[0]
      case Bulk(p) => HostBulkKeeps(cfg, d0, program, s);
      case Control(r) => HostControlKeeps(cfg, d0, program, s);
      case Receive => HostReceiveKeeps(cfg, d0, program, s);
    }
  }

  lemma {:induction false} HostBulkKeeps(cfg: Config, d0: Dev, program: seq<Op>, s: System)
    requires Inv(cfg, d0, program, s) && s.todo != [] && s.todo[0].Bulk?
    ensures Inv(cfg, d0, program, Step(cfg, s, true))
  {
    if s.c.outFifo == None {
      BulkBegun(cfg, s, HostStep(cfg, s));
    }
  }

  /** What the host begins is still to be done. */
  lemma {:induction false} BulkBegun(cfg: Config, s: System, s1: System)
    requires s.todo != [] && s.todo[0].Bulk? && s.c.outFifo == None && s1 == HostStep(cfg, s) && Announced(s)
    ensures Left(s1) == Left(s)
  {
    assert s.todo == [s.todo[0]] + s.todo[1..];
  }

  lemma {:induction false} RequestBegun(cfg: Config, s: System, s1: System)
    requires s.todo != [] && s.todo[0].Control? && !s.waiting && s1 == HostStep(cfg, s) && Announced(s)
    ensures Left(s1) == Left(s)
  {
    assert s.todo == [s.todo[0]] + s.todo[1..];
  }

  lemma {:induction false} HostControlKeeps(cfg: Config, d0: Dev, program: seq<Op>, s: System)
    requires Inv(cfg, d0, program, s) && s.todo != [] && s.todo[0].Control?
    ensures Inv(cfg, d0, program, Step(cfg, s, true))
  {
    if !s.waiting {
      HostSendKeeps(cfg, d0, program, s);
    } else if s.c.ep0 == None {
      assert Left(HostStep(cfg, s)) == Left(s);
    }
  }

  lemma {:induction false} HostSendKeeps(cfg: Config, d0: Dev, program: seq<Op>, s: System)
    requires Inv(cfg, d0, program, s) && s.todo != [] && s.todo[0].Control? && !s.waiting
    ensures Inv(cfg, d0, program, Step(cfg, s, true))
  {
    RequestBegun(cfg, s, HostStep(cfg, s));
  }

  lemma {:induction false} HostReceiveKeeps(cfg: Config, d0: Dev, program: seq<Op>, s: System)
    requires Inv(cfg, d0, program, s) && s.todo != [] && s.todo[0] == Receive
    ensures Inv(cfg, d0, program, Step(cfg, s, true))
  {
    if s.c.inFifo.Some? {
      var s1 := Step(cfg, s, true);
      assert Left(s)[0] == Receive;
      assert Begun(s.c) == [];
      assert s.todo == [Receive] + s.todo[1..];
      assert Left(s) == s.todo && Left(s1) == s.todo[1..];
      MoveOne(s.done, Receive, s.todo[1..]);
      EffectsOne(cfg.fs, d0, s.done, Receive);
    }
  }

  lemma {:induction false} DeviceKeeps(cfg: Config, d0: Dev, program: seq<Op>, s: System)
    requires Inv(cfg, d0, program, s)
    ensures Inv(cfg, d0, program, Step(cfg, s, false))
  {
    match s.c.pc
    case Start => StartKeeps(cfg, d0, program, s);
    case GotIn => GotInKeeps(cfg, d0, program, s);
    case GotOut => ServeInKeeps(cfg, d0, program, s);
    case ServedIn =>
      if s.c.sawOut && s.c.outFifo.Some? {
        ServeOutKeeps(cfg, d0, program, s, Bulk(s.c.outFifo.value));
      } else {
        NoPacketKeeps(cfg, d0, program, s);
      }
    case ServedOut => AckKeeps(cfg, d0, program, s);
    case Running(r) => RunKeeps(cfg, d0, program, s, r);
    case Clearing(r) => ClearKeeps(cfg, d0, program, s);
    case Finishing => FinishKeeps(cfg, d0, program, s);
  }

  lemma {:induction false} StartKeeps(cfg: Config, d0: Dev, program: seq<Op>, s: System)
    requires Inv(cfg, d0, program, s) && s.c.pc == Start
    ensures Inv(cfg, d0, program, Step(cfg, s, false))
  {
    assert s.done + [] == s.done;
    assert Left(Step(cfg, s, false)) == Left(s);
  }

  lemma {:induction false} GotInKeeps(cfg: Config, d0: Dev, program: seq<Op>, s: System)
    requires Inv(cfg, d0, program, s) && s.c.pc == GotIn
    ensures Inv(cfg, d0, program, Step(cfg, s, false))
  {
    assert s.done + [] == s.done;
    assert Left(Step(cfg, s, false)) == Left(s);
  }

  /** EP1 IN has nothing to deliver. */
  lemma {:induction false} ServeInKeeps(cfg: Config, d0: Dev, program: seq<Op>, s: System)
    requires Inv(cfg, d0, program, s) && s.c.pc == GotOut
    ensures Inv(cfg, d0, program, Step(cfg, s, false))
  {
    assert s.done + [] == s.done;
    assert Left(Step(cfg, s, false)) == Left(s);
  }

  lemma {:induction false} NoPacketKeeps(cfg: Config, d0: Dev, program: seq<Op>, s: System)
    requires Inv(cfg, d0, program, s) && s.c.pc == ServedIn && !(s.c.sawOut && s.c.outFifo.Some?)
    ensures Inv(cfg, d0, program, Step(cfg, s, false))
  {
    assert s.done + [] == s.done;
    assert Left(Step(cfg, s, false)) == Left(s);
  }

  lemma {:induction false} ClearKeeps(cfg: Config, d0: Dev, program: seq<Op>, s: System)
    requires Inv(cfg, d0, program, s) && s.c.pc.Clearing?
    ensures Inv(cfg, d0, program, Step(cfg, s, false))
  {
    assert s.done + [] == s.done;
    assert Left(Step(cfg, s, false)) == Left(s);
  }

  lemma {:induction false} FinishKeeps(cfg: Config, d0: Dev, program: seq<Op>, s: System)
    requires Inv(cfg, d0, program, s) && s.c.pc == Finishing
    ensures Inv(cfg, d0, program, Step(cfg, s, false))
  {
    var s1 := Step(cfg, s, false);
    assert s1.done == s.done;
    assert Left(s1) == Left(s) && Settled(s1.c) == Settled(s.c) && s1.c.inFifo == s.c.inFifo;
    assert Placed(cfg.fs, d0, program, s1.c, s1.done, Left(s1));
  }

  lemma {:induction false} PacketLeft(cfg: Config, s: System, s1: System, op: Op)
    requires Sane(s.c.dev) && s1 == Step(cfg, s, false)
    requires s.c.pc == ServedIn && s.c.sawOut && s.c.outFifo.Some? && op == Bulk(s.c.outFifo.value)
    ensures Left(s) == [op] + Left(s1)
  {
  }

  lemma {:induction false} ServeOutKeeps(cfg: Config, d0: Dev, program: seq<Op>, s: System, op: Op)
    requires Inv(cfg, d0, program, s) && s.c.pc == ServedIn && s.c.sawOut && s.c.outFifo.Some? && op == Bulk(s.c.outFifo.value)
    ensures Inv(cfg, d0, program, Step(cfg, s, false))
  {
    var s1 := Step(cfg, s, false);
    PacketLeft(cfg, s, s1, op);
    PlacedNext(cfg.fs, d0, program, s.c, s.done, Left(s), op, s1.c, s1.done, Left(s1));
  }

  lemma {:induction false} AckKeeps(cfg: Config, d0: Dev, program: seq<Op>, s: System)
    requires Inv(cfg, d0, program, s) && s.c.pc == ServedOut
    ensures Inv(cfg, d0, program, Step(cfg, s, false))
  {
    var s1 := Step(cfg, s, false);
    assert s.done + [] == s.done;
    assert Left(s1) == Left(s);
    if s.c.sawEp0 && s.c.ep0.Some? {
      assert Left(s)[0] == Control(s.c.ep0.value) && program[|s.done|] == Left(s)[0];
    }
  }

  /** The step of a handler takes its request off what is left. */
  lemma LeftRunning(cfg: Config, s: System, s1: System, r: Request)
    requires Sane(s.c.dev) && s.c.pc == Running(r) && s1 == Step(cfg, s, false)
    ensures Left(s) == [Control(r)] + Left(s1) && ([Control(r)] + Left(s1))[1..] == Left(s1)
  {
    assert s1.c.pc == Clearing(r) && s1.c.outFifo == s.c.outFifo && s1.c.ep0 == s.c.ep0;
    OneFewer(s, s1, r);
  }

  lemma OneFewer(s: System, s1: System, r: Request)
    requires s.c.pc == Running(r) && !s1.c.pc.Running? && s1.c.outFifo == s.c.outFifo && s1.c.ep0 == s.c.ep0
    requires s1.todo == s.todo && s1.waiting == s.waiting
    ensures Left(s) == [Control(r)] + Left(s1) && ([Control(r)] + Left(s1))[1..] == Left(s1)
  {
  }

  /** What the program says about a request whose handler is about to run. */
  lemma {:induction false} RunIsNext(cfg: Config, d0: Dev, program: seq<Op>, s: System, s1: System, r: Request)
    requires Inv(cfg, d0, program, s) && s.c.pc == Running(r) && s1 == Step(cfg, s, false)
    ensures Left(s) == [Control(r)] + Left(s1) && s1.done == s.done + [Control(r)]
    ensures s.c.inFifo == None && Answered(ReadsBuffer(r), Left(s1))
  {
    LeftRunning(cfg, s, s1, r);
  }

  lemma {:induction false} RunQuiet(cfg: Config, d: Dev, r: Request)
    requires Quiet(d) && ValidRequest(r) && cfg.fs >= 8
    ensures Quiet(HandleRequest(d, cfg.fs, r).d) && (HandleRequest(d, cfg.fs, r).packet.Some? <==> ReadsBuffer(r))
  {
  }

  lemma {:induction false} RunKeeps(cfg: Config, d0: Dev, program: seq<Op>, s: System, r: Request)
    requires Inv(cfg, d0, program, s) && s.c.pc == Running(r)
    ensures Inv(cfg, d0, program, Step(cfg, s, false))
  {
    var s1 := Step(cfg, s, false);
    RunIsNext(cfg, d0, program, s, s1, r);
    RunQuiet(cfg, s.c.dev, r);
    PlacedNext(cfg.fs, d0, program, s.c, s.done, Left(s), Control(r), s1.c, s1.done, Left(s1));
  }

  // ----- runs

  lemma {:induction false} HostLeavesDevice(cfg: Config, s: System)
    requires Sane(s.c.dev)
    ensures Step(cfg, s, true).c.dev == s.c.dev
  {
    if !s.waiting && s.todo != [] {
      match s.todo[0]
      case Bulk(_) =>
      case Control(_) =>
      case Receive =>
    }
  }

  lemma {:induction false} DeviceStepSane(cfg: Config, c: Ctl)
    requires Sane(c.dev) && cfg.fs >= 8
    ensures Sane(DeviceStep(cfg, c).dev)
  {
    if c.pc == GotOut {
      EpInDelivers(c.dev, cfg.fs);
    } else if c.pc.Running? {
      RequestSane(c.dev, cfg.fs, c.pc.r);
    }
  }

  lemma {:induction false} StepSane(cfg: Config, s: System, host: bool)
    requires Sane(s.c.dev) && cfg.fs >= 8
    ensures Sane(Step(cfg, s, host).c.dev)
  {
    if host {
      HostLeavesDevice(cfg, s);
    } else {
      DeviceStepSane(cfg, s.c);
    }
  }

  /** Any interleaving: `true` lets the host move, `false` the device. */
  function Run(cfg: Config, s: System, moves: seq<bool>): (r: System)
    requires Sane(s.c.dev) && cfg.fs >= 8
    ensures Sane(r.c.dev)
    decreases |moves|
  {
    if moves == [] then s
    else
      StepSane(cfg, s, moves[0]);
      Run(cfg, Step(cfg, s, moves[0]), moves[1..])
  }

  lemma {:induction false} RunOn(cfg: Config, s: System, first: bool, rest: seq<bool>, s1: System)
    requires Sane(s.c.dev) && cfg.fs >= 8 && s1 == Step(cfg, s, first)
    ensures Sane(s1.c.dev) && Run(cfg, s, [first] + rest) == Run(cfg, s1, rest)
  {
    StepSane(cfg, s, first);
    assert ([first] + rest)[1..] == rest;
  }

  lemma {:induction false} RunTwice(cfg: Config, s: System, a: seq<bool>, b: seq<bool>)
    requires Sane(s.c.dev) && cfg.fs >= 8
    ensures Run(cfg, s, a + b) == Run(cfg, Run(cfg, s, a), b)
    decreases |a|
  {
    if a == [] {
      assert a + b == b;
    } else {
      StepSane(cfg, s, a[0]);
      assert (a + b)[1..] == a[1..] + b;
      RunTwice(cfg, Step(cfg, s, a[0]), a[1..], b);
    }
  }

  /** The host stands still. */
  function Pauses(n: nat): seq<bool> {
    seq(n, i => false)
  }

  lemma {:induction false} StepKeeps(cfg: Config, d0: Dev, program: seq<Op>, s: System, host: bool)
    requires Inv(cfg, d0, program, s)
    ensures Inv(cfg, d0, program, Step(cfg, s, host))
  {
    if host {
      HostKeeps(cfg, d0, program, s);
    } else {
      DeviceKeeps(cfg, d0, program, s);
    }
  }

  lemma {:induction false} RunKeepsInv(cfg: Config, d0: Dev, program: seq<Op>, s: System, moves: seq<bool>)
    requires Inv(cfg, d0, program, s)
    ensures Inv(cfg, d0, program, Run(cfg, s, moves))
    decreases |moves|
  {
    if moves != [] {
      StepKeeps(cfg, d0, program, s, moves[0]);
      RunKeepsInv(cfg, d0, program, Step(cfg, s, moves[0]), moves[1..]);
    }
  }

  /** The system before anything has happened. */
  function Initial(d0: Dev, program: seq<Op>): System {
    System(Ctl(d0, false, false, false, None, None, None, Start, false, false, false), program, false, [], [])
  }

  lemma {:induction false} InitialInv(cfg: Config, d0: Dev, program: seq<Op>)
    requires cfg.fs >= 8 && !cfg.statusIrq && Quiet(d0) && AllValid(program) && Answered(false, program)
    ensures Inv(cfg, d0, program, Initial(d0, program))
  {
    var s := Initial(d0, program);
    assert Left(s) == program && s.done + Left(s) == program;
  }

  predicate EndsInReceive(ops: seq<Op>) {
    ops == [] || ops[|ops| - 1] == Receive
  }

  /** In every interleaving, a request's handler starts only when exactly the operations that
      the host issued before it have been carried out: in particular every packet it sent is
      in Bulk_out_buf. */
  lemma {:induction false} RequestRunsInOrder(cfg: Config, d0: Dev, program: seq<Op>, moves: seq<bool>, s: System)
    requires cfg.fs >= 8 && !cfg.statusIrq && Quiet(d0) && AllValid(program) && Answered(false, program)
    requires s == Run(cfg, Initial(d0, program), moves) && s.c.pc.Running?
    ensures |s.done| < |program| && program[..|s.done|] == s.done && program[|s.done|] == Control(s.c.pc.r)
    ensures s.c.dev == Effects(cfg.fs, d0, program[..|s.done|])
  {
    InitialInv(cfg, d0, program);
    RunKeepsInv(cfg, d0, program, Initial(d0, program), moves);
    assert Left(s)[0] == Control(s.c.pc.r);
    assert program[..|s.done|] == s.done;
  }

  /** When the host is through, the device has carried out the whole program. */
  lemma {:induction false} FinishedMeansDone(cfg: Config, d0: Dev, program: seq<Op>, s: System)
    requires Inv(cfg, d0, program, s) && EndsInReceive(program) && s.todo == []
    ensures s.done == program && Settled(s.c) == Effects(cfg.fs, d0, program)
  {
    assert Left(s) == Begun(s.c);
    assert s.done + [] == s.done;
  }
}
