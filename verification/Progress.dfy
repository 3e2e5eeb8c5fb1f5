/** Where no request can be lost the host is never kept waiting for long: whatever the
    interleaving, it comes to the end of its program after a number of turns that does not
    depend on the device. */
module Progress {
  import opened Options
  import opened RsCode
  import opened Memory
  import opened Udc
  import opened Transport
  import opened LoadSdram
  import opened StatusStage
  import opened Overtaking
  import opened Races

  // ----- what a waiting host can rely on

  /** An answer is there, or will be after the next step of the driver. */
  predicate Coming(c: Ctl) {
    c.inFifo.Some? || (c.pc.Running? && ReadsBuffer(c.pc.r))
  }

  ghost predicate Asked(s: System) {
    && (s.c.ep0.Some? ==> s.waiting)
    && (s.waiting ==> s.todo != [] && s.todo[0].Control? && (s.c.ep0.Some? ==> s.todo[0].r == s.c.ep0.value))
    && (s.waiting && s.c.ep0 == None && IsReader(s.todo[0]) ==> Coming(s.c))
    && (s.todo != [] && s.todo[0] == Receive ==> Coming(s.c))
  }

  predicate PacketNoticed(c: Ctl) {
    c.outFifo.Some? ==> c.irqOut || (Deciding(c.pc) && c.sawOut)
  }

  /** The second look at the interrupts can drop no request: it does not at high speed, and a
      request that nothing comes before finds the driver looking for the first time. */
  ghost predicate Heard(cfg: Config, program: seq<Op>) {
    !cfg.fullSpeed || forall k | 0 < k < |program| :: !program[k].Control?
  }

  /** The driver has not begun a round. */
  predicate Looking(c: Ctl) {
    c.pc == Start || (c.pc == GotIn && !c.sawEp0 && !c.sawIn && !c.irqOut)
  }

  /** At full speed, nothing has happened before the first operation, and a request is noticed
      in the round it arrives in. */
  ghost predicate InTime(program: seq<Op>, s: System) {
    var c := s.c;
    && (|s.todo| == |program| && !s.waiting ==> !c.irqEp0 && !c.irqIn && !c.irqOut && Looking(c))
    && (c.ep0.Some? ==> Looking(c) || (BeforeEp0(c.pc) && c.sawEp0))
  }

  ghost predicate Served(cfg: Config, program: seq<Op>, s: System) {
    AtSuffix(program, s) && Noticed(s) && PacketNoticed(s.c) && Asked(s) && (cfg.fullSpeed ==> InTime(program, s))
  }

  /** What a step of the driver does to the FIFOs. */
  ghost predicate FifoStep(c: Ctl, c1: Ctl) {
    match c.pc
    case Start => c1.pc == GotIn && c1.outFifo == c.outFifo && c1.irqOut == c.irqOut && c1.inFifo == c.inFifo
    case GotIn => (c1.pc == GotOut || (c1.pc == Start && !c.irqOut)) && c1.outFifo == c.outFifo && c1.sawOut == c.irqOut && c1.inFifo == c.inFifo
    case GotOut =>
      c1.pc == ServedIn && c1.outFifo == c.outFifo && c1.irqOut == c.irqOut && c1.sawOut == c.sawOut && (c.inFifo.Some? ==> c1.inFifo.Some?)
    case ServedIn =>
      && c1.pc == ServedOut && c1.irqOut == c.irqOut && c1.inFifo == c.inFifo
      && c1.outFifo == (if c.sawOut then None else c.outFifo)
    case ServedOut =>
      && (if c.sawEp0 && c.ep0.Some? then c1.pc == Running(c.ep0.value) else c1.pc == Finishing)
      && c1.outFifo == c.outFifo && c1.irqOut == c.irqOut && c1.inFifo == c.inFifo
    case Running(r) =>
      c1.pc == Clearing(r) && c1.outFifo == c.outFifo && c1.irqOut == c.irqOut && (c.inFifo.Some? || ReadsBuffer(r) ==> c1.inFifo.Some?)
    case Clearing(r) => c1.pc == Finishing && c1.outFifo == c.outFifo && c1.irqOut == c.irqOut && c1.inFifo == c.inFifo
    case Finishing => c1.pc == Start && c1.outFifo == c.outFifo && c1.irqOut == c.irqOut && c1.inFifo == c.inFifo
  }

  lemma {:induction false} AnswersSteps(cfg: Config, c: Ctl)
    requires Sane(c.dev) && (c.pc == GotOut || c.pc.Running?)
    ensures FifoStep(c, DeviceStep(cfg, c))
  {
    if c.pc.Running? {
      assert ReadsBuffer(c.pc.r) ==> HandleRequest(c.dev, cfg.fs, c.pc.r).packet.Some?;
    }
  }

  lemma {:induction false} LookSteps(cfg: Config, c: Ctl)
    requires Sane(c.dev) && (c.pc == Start || c.pc == GotIn || c.pc == ServedIn)
    ensures FifoStep(c, DeviceStep(cfg, c))
  {
  }

  lemma {:induction false} FifoSteps(cfg: Config, c: Ctl)
    requires Sane(c.dev)
    ensures FifoStep(c, DeviceStep(cfg, c))
  {
    match c.pc
    case GotOut => AnswersSteps(cfg, c);
    case Running(_) => AnswersSteps(cfg, c);
    case Start => LookSteps(cfg, c);
    case GotIn => LookSteps(cfg, c);
    case ServedIn => LookSteps(cfg, c);
    case ServedOut =>
    case Clearing(_) =>
    case Finishing =>
  }

  lemma {:induction false} PacketStaysNoticed(c: Ctl, c1: Ctl)
    requires PacketNoticed(c) && FifoStep(c, c1)
    ensures PacketNoticed(c1)
  {
  }

  lemma {:induction false} AskedStays(cfg: Config, s: System, s1: System)
    requires Asked(s) && FifoStep(s.c, s1.c) && ControlStep(cfg, s.c, s1.c) && s1.todo == s.todo && s1.waiting == s.waiting
    ensures Asked(s1)
  {
  }

  lemma {:induction false} InTimeStays(cfg: Config, program: seq<Op>, s: System, s1: System)
    requires InTime(program, s) && Noticed(s) && s1.todo == s.todo && s1.waiting == s.waiting && (s.c.ep0.Some? ==> s.waiting)
    requires Sane(s.c.dev) && s1.c == DeviceStep(cfg, s.c)
    ensures InTime(program, s1)
  {
    if Looking(s.c) || (s.c.pc == GotIn && s.c.sawEp0) {
    } else {
      ControlSteps(cfg, s.c);
    }
  }

  lemma {:induction false} DeviceServes(cfg: Config, program: seq<Op>, s: System, s1: System)
    requires Sane(s.c.dev) && cfg.fs >= 8 && Served(cfg, program, s) && s1 == Step(cfg, s, false)
    ensures Served(cfg, program, s1)
    ensures s.c.ep0.Some? ==> s1.c.ep0 == None || Away(s1.c) < Away(s.c)
  {
    FifoSteps(cfg, s.c);
    ControlSteps(cfg, s.c);
    NoticedNext(cfg, s.c, s1.c);
    PacketStaysNoticed(s.c, s1.c);
    AskedStays(cfg, s, s1);
    if cfg.fullSpeed {
      InTimeStays(cfg, program, s, s1);
    }
  }

  /** An answer is waited for only behind a request that has one. */
  lemma {:induction false} ReceiveBehind(program: seq<Op>, k: nat, k1: nat)
    requires Answered(false, program) && k < |program| && k1 == k + 1 < |program| && program[k1] == Receive
    ensures IsReader(program[k])
  {
    AnsweredAt(false, program, k1);
    assert program[k1..][0] == Receive;
  }

  /** What the host goes on to when it has been through with an operation. */
  lemma {:induction false} AnswerComes(program: seq<Op>, s: System)
    requires Answered(false, program) && AtSuffix(program, s) && |s.todo| > 1 && s.todo[1] == Receive
    ensures IsReader(s.todo[0])
  {
    NextSuffix(program, s);
    ReceiveBehind(program, |program| - |s.todo|, |program| - |s.todo| + 1);
  }

  lemma {:induction false} HostAsks(cfg: Config, program: seq<Op>, s: System)
    requires Answered(false, program) && AtSuffix(program, s) && Asked(s)
    ensures Asked(HostStep(cfg, s))
  {
    if |s.todo| > 1 && s.todo[1] == Receive {
      AnswerComes(program, s);
    }
  }

  /** The host begins a request only as the first operation, or at high speed. */
  lemma {:induction false} HostInTime(cfg: Config, program: seq<Op>, s: System)
    requires Heard(cfg, program) && cfg.fullSpeed && AtSuffix(program, s) && InTime(program, s) && Asked(s)
    ensures InTime(program, HostStep(cfg, s))
  {
    if s.todo != [] {
      NextSuffix(program, s);
    }
  }

  lemma {:induction false} HostServed(cfg: Config, program: seq<Op>, s: System, s1: System)
    requires Sane(s.c.dev) && cfg.fs >= 8 && Heard(cfg, program) && Answered(false, program) && Served(cfg, program, s) && s1 == Step(cfg, s, true)
    ensures Served(cfg, program, s1)
  {
    HostNotices(cfg, s);
    HostAsks(cfg, program, s);
    HostSuffix(cfg, program, s);
    if cfg.fullSpeed {
      HostInTime(cfg, program, s);
    }
  }

  lemma {:induction false} HostSuffix(cfg: Config, program: seq<Op>, s: System)
    requires AtSuffix(program, s) && PacketNoticed(s.c)
    ensures AtSuffix(program, HostStep(cfg, s)) && PacketNoticed(HostStep(cfg, s).c)
  {
    if s.todo != [] {
      NextSuffix(program, s);
    }
  }

  // ----- how long a host can be kept waiting

  /** The next step of the host does something. */
  predicate CanMove(s: System) {
    s.todo != [] &&
    match s.todo[0]
    case Bulk(_) => s.c.outFifo == None
    case Control(_) => !s.waiting || s.c.ep0 == None
    case Receive => s.c.inFifo.Some?
  }

  /** How many steps the driver is away from taking the packet in the FIFO. */
  function PacketAway(c: Ctl): nat {
    match c.pc
    case ServedIn => if c.sawOut then 1 else 9
    case GotOut => if c.sawOut then 2 else 10
    case GotIn => 3
    case Start => 4
    case Finishing => 5
    case Clearing(_) => 6
    case Running(_) => 7
    case ServedOut => 8
  }

  /** How many steps of the driver a host that cannot move has to wait for. */
  function Wait(s: System): (n: nat)
    requires s.todo != []
    ensures 1 <= n <= 10
  {
    match s.todo[0]
    case Bulk(_) => PacketAway(s.c)
    case Control(_) => Away(s.c)
    case Receive => 1
  }

  lemma {:induction false} PacketNearer(c: Ctl, c1: Ctl)
    requires PacketNoticed(c) && FifoStep(c, c1)
    ensures c.outFifo == None ==> c1.outFifo == None
    ensures c.outFifo.Some? ==> c1.outFifo == None || PacketAway(c1) < PacketAway(c)
  {
  }

  lemma {:induction false} AnswerNearer(c: Ctl, c1: Ctl)
    requires Coming(c) && FifoStep(c, c1)
    ensures c1.inFifo.Some?
  {
  }

  lemma {:induction false} WaitsLess(cfg: Config, program: seq<Op>, s: System, s1: System)
    requires Sane(s.c.dev) && cfg.fs >= 8 && Served(cfg, program, s) && s.todo != [] && s1 == Step(cfg, s, false)
    ensures CanMove(s) ==> CanMove(s1)
    ensures CanMove(s1) || Wait(s1) < Wait(s)
  {
    FifoSteps(cfg, s.c);
    match s.todo[0]
    case Bulk(_) => PacketNearer(s.c, s1.c);
    case Control(_) =>
      ControlSteps(cfg, s.c);
      DeviceServes(cfg, program, s, s1);
    case Receive => AnswerNearer(s.c, s1.c);
  }

  // ----- turns

  /** What the host has still to do, counting a request twice over: sending it, and seeing it
      acknowledged. */
  function Debt(s: System): int {
    2 * |s.todo| - (if s.waiting then 1 else 0)
  }

  lemma {:induction false} HostPays(cfg: Config, s: System, s1: System)
    requires Sane(s.c.dev) && s1 == Step(cfg, s, true)
    ensures CanMove(s) && (s.waiting ==> s.todo[0].Control?) ==> Debt(s1) < Debt(s)
    ensures !CanMove(s) && (s.waiting ==> s.todo != [] && s.todo[0].Control?) ==> s1 == s
  {
  }

  /** How often the host gets a step after the driver has had ten since it was counted last;
      `need` of the ten are still to come. */
  function Turns(moves: seq<bool>, need: nat): nat
    decreases |moves|
  {
    if moves == [] then 0
    else if !moves[0] then Turns(moves[1..], if need > 0 then need - 1 else 0)
    else if need > 0 then Turns(moves[1..], need)
    else 1 + Turns(moves[1..], 10)
  }

  /** Each turn pays for something; `paid` says that the host has already moved since its last
      turn. */
  lemma {:induction false} TurnsPay(cfg: Config, program: seq<Op>, s: System, moves: seq<bool>, need: nat, paid: bool)
    requires Sane(s.c.dev) && cfg.fs >= 8 && Heard(cfg, program) && Answered(false, program) && Served(cfg, program, s)
    requires paid || s.todo == [] || CanMove(s) || Wait(s) <= need
    ensures var r := Run(cfg, s, moves);
            r.todo == [] || Debt(r) + Turns(moves, need) <= Debt(s) + (if paid then 1 else 0)
    decreases |moves|
  {
    if moves != [] {
      var s1, rest := Step(cfg, s, moves[0]), moves[1..];
      StepSane(cfg, s, moves[0]);
      if moves[0] {
        HostServed(cfg, program, s, s1);
        HostPays(cfg, s, s1);
        if need == 0 {
          TurnsPay(cfg, program, s1, rest, 10, false);
        } else {
          TurnsPay(cfg, program, s1, rest, need, paid || CanMove(s));
        }
      } else {
        DeviceServes(cfg, program, s, s1);
        if s.todo != [] {
          WaitsLess(cfg, program, s, s1);
        }
        TurnsPay(cfg, program, s1, rest, if need > 0 then need - 1 else 0, paid);
      }
    }
  }

  /** At high speed every program is brought to its end, whatever the interleaving, as soon as
      the host has had two turns for each of its operations; and so it is at full speed if no
      request comes behind another operation. */
  lemma {:induction false} ProgramFinishes(cfg: Config, d0: Dev, program: seq<Op>, moves: seq<bool>)
    requires cfg.fs >= 8 && Heard(cfg, program) && Sane(d0) && Answered(false, program) && Turns(moves, 10) >= 2 * |program|
    ensures Run(cfg, Initial(d0, program), moves).todo == []
  {
    var s := Initial(d0, program);
    TurnsPay(cfg, program, s, moves, 10, false);
  }

  /** So ingenic_load_sdram finishes at high speed, and the data are then in the target's
      memory. */
  lemma {:induction false} LoadFinishes(cfg: Config, d0: Dev, m: Mem, base: nat, data: seq<byte>, junk: Junk, moves: seq<bool>)
    requires cfg.fs >= 8 && !cfg.fullSpeed && Ready(d0, m) && base < ADDRESSES
    requires Turns(moves, 10) >= 2 * |Program(base, data, cfg.fs, junk, 0)|
    ensures var s := Run(cfg, Initial(d0, Program(base, data, cfg.fs, junk, 0)), moves);
            s.todo == [] && s.c.dev.mem == Store(m, base, data)
  {
    ProgramWellFormed(base, data, cfg.fs, junk, 0);
    ProgramFinishes(cfg, d0, Program(base, data, cfg.fs, junk, 0), moves);
    LoadIsSafe(cfg, d0, m, base, data, junk, moves, Run(cfg, Initial(d0, Program(base, data, cfg.fs, junk, 0)), moves));
  }
}
