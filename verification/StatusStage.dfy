/** The same system with a controller that raises the EP0 interrupt once more when the status
    stage of a request is over. The driver may then find a request that arrived after it read
    IntrOut, and run it before a packet sent earlier. That does no harm to requests that do
    not look at Bulk_out_buf, and it cannot happen once enough packets have gone by since the
    last request; the programs in which it can do harm are told apart exactly. */
module StatusStage {
  import opened Options
  import opened RsCode
  import opened Memory
  import opened Udc
  import opened Transport
  import opened LoadSdram

  /** The system, and whether a request has been acknowledged since the last packet was put
      into the FIFO. */
  datatype Traced = Traced(s: System, passed: bool)

  function TracedStep(cfg: Config, t: Traced, host: bool): Traced
    requires Sane(t.s.c.dev)
  {
    var passed :=
      if host then t.passed && !(t.s.todo != [] && t.s.todo[0].Bulk? && t.s.c.outFifo == None)
      else t.passed || (t.s.c.pc == ServedOut && t.s.c.sawEp0 && t.s.c.ep0.Some?);
    Traced(Step(cfg, t.s, host), passed)
  }

  /** How many packets come directly before operation `k`, behind another operation; when
      there is no other one, more than will matter. */
  function Since(program: seq<Op>, k: nat): (n: nat)
    requires k <= |program|
    ensures n == 0 <==> k > 0 && !program[k - 1].Bulk?
  {
    if k == 0 then 4 else if program[k - 1].Bulk? then Since(program, k - 1) + 1 else 0
  }

  /** Behind so many packets the interrupt of an earlier status stage can still be unread. */
  function Reach(cfg: Config): nat {
    if cfg.fullSpeed then 2 else 3
  }

  /** A request that uses the buffer comes directly behind packets, not many, and these behind
      another request or its answer. */
  predicate RacyAt(cfg: Config, program: seq<Op>, k: nat) {
    k < |program| && program[k].Control? && ReadsBuffer(program[k].r) && 1 <= Since(program, k) <= Reach(cfg)
  }

  ghost predicate Racy(cfg: Config, program: seq<Op>) {
    exists k: nat :: RacyAt(cfg, program, k)
  }

  // ----- the invariant

  predicate PacketWaits(s: System) {
    s.c.outFifo.Some?
  }

  predicate Deciding(pc: Pc) {
    pc == GotOut || pc == ServedIn
  }

  /** How far the host has come in its program. */
  ghost predicate AtSuffix(program: seq<Op>, s: System) {
    |s.todo| <= |program| && s.todo == program[|program| - |s.todo|..]
  }

  /** The packets sent since the host last did something else. */
  ghost function Sent(program: seq<Op>, s: System): nat
    requires |s.todo| <= |program|
  {
    Since(program, |program| - |s.todo|)
  }

  /** The driver noticed the waiting packet if it noticed a request. */
  predicate InStep(c: Ctl) {
    c.sawEp0 ==> c.pc != ServedOut && (Deciding(c.pc) ==> c.sawOut)
  }

  ghost predicate Wires(program: seq<Op>, t: Traced) {
    var s := t.s;
    var c := s.c;
    && AtSuffix(program, s)
    && (PacketWaits(s) ==> c.irqOut || (Deciding(c.pc) && c.sawOut))
    && (PacketWaits(s) && t.passed ==> c.pc != ServedOut && (Deciding(c.pc) ==> c.sawOut))
    && (c.ep0.Some? ==> s.waiting)
    && (s.waiting ==> s.todo != [] && s.todo[0].Control? && (c.ep0.Some? ==> s.todo[0].r == c.ep0.value))
    && (PacketWaits(s) && s.waiting && c.ep0 == None ==> t.passed)
    && (PacketWaits(s) && !s.waiting && Sent(program, s) == 0 ==> t.passed)
    && (PacketWaits(s) && c.ep0.Some? && ReadsBuffer(c.ep0.value) ==> InStep(c))
    && (c.pc.Running? && ReadsBuffer(c.pc.r) ==> c.outFifo == None)
    && (c.pc.Running? ==> ValidRequest(c.pc.r))
  }

  /** How many packets can have been served while an EP0 interrupt of an earlier status stage
      is pending, */
  function Unread(cfg: Config, pc: Pc): nat {
    match pc
    case Start => if cfg.fullSpeed then 0 else 1
    case ServedOut => 1
    case Finishing => 1
    case _ => 0
  }

  /** and while the driver holds one that it has read. */
  function Held(cfg: Config, pc: Pc): nat {
    (if pc == ServedOut then 1 else 0) + (if cfg.fullSpeed then 0 else 1)
  }

  ghost predicate Stale(cfg: Config, program: seq<Op>, s: System) {
    var c, waits := s.c, if s.c.outFifo.Some? then 1 else 0;
    |s.todo| <= |program| && !s.waiting ==>
      && (c.irqEp0 ==> Sent(program, s) <= Unread(cfg, c.pc) + waits)
      && (BeforeEp0(c.pc) && c.sawEp0 ==> Sent(program, s) <= Held(cfg, c.pc) + waits)
  }

  /** Where the program leads when it is carried out in order, and whether an answer is the
      last thing in it. */
  datatype Goal = Goal(dev: Dev, answered: bool)

  ghost function GoalOf(fs: nat, d0: Dev, program: seq<Op>): Goal {
    Goal(Effects(fs, d0, program), EndsInReceive(program))
  }

  /** What is left still leads to `goal`, and answers match. */
  ghost predicate Flows(fs: nat, goal: Goal, s: System) {
    Effects(fs, Settled(s.c), Left(s)) == goal.dev && Answered(s.c.inFifo.Some?, Left(s)) && (goal.answered ==> EndsInReceive(Left(s)))
  }

  /** Everything but the flow of operations. */
  ghost predicate Sound2(cfg: Config, program: seq<Op>, t: Traced) {
    cfg.fs >= 8 && AllValid(program) && !Racy(cfg, program) && Quiet(t.s.c.dev) && Wires(program, t) && Stale(cfg, program, t.s)
  }

  ghost predicate Inv2(cfg: Config, goal: Goal, program: seq<Op>, t: Traced) {
    Sound2(cfg, program, t) && Flows(cfg.fs, goal, t.s)
  }

  /** Nothing has been carried out. */
  lemma {:induction false} FlowsSame(fs: nat, goal: Goal, s: System, s1: System)
    requires Flows(fs, goal, s) && Left(s1) == Left(s) && Settled(s1.c) == Settled(s.c)
    requires s1.c.inFifo.Some? <==> s.c.inFifo.Some?
    ensures Flows(fs, goal, s1)
  {
  }

  lemma {:induction false} EffectsFirst(fs: nat, d: Dev, op: Op, rest: seq<Op>)
    ensures Effects(fs, d, [op] + rest) == Effects(fs, Effect(fs, d, op), rest)
  {
    EffectsConcat(fs, d, [op], rest);
    EffectsOne(fs, d, [], op);
    assert [] + [op] == [op];
  }

  /** A packet and a request that does not look at the buffer may change places. */
  lemma Commute(fs: nat, d: Dev, p: Packet, r: Request)
    requires !ReadsBuffer(r)
    ensures Effect(fs, Effect(fs, d, Bulk(p)), Control(r)) == Effect(fs, Effect(fs, d, Control(r)), Bulk(p))
  {
  }

  lemma AnsweredTail(busy: bool, op: Op, rest: seq<Op>)
    requires Answered(busy, [op] + rest)
    ensures Answered(op.Control? && ReadsBuffer(op.r), rest)
    ensures op.Receive? <==> busy
  {
    assert ([op] + rest)[1..] == rest;
  }

  lemma AnsweredCons(op: Op, rest: seq<Op>)
    requires !op.Receive? && Answered(op.Control? && ReadsBuffer(op.r), rest)
    ensures Answered(false, [op] + rest)
  {
    assert ([op] + rest)[1..] == rest;
  }

  lemma EndsTail(op: Op, rest: seq<Op>)
    requires EndsInReceive([op] + rest)
    ensures EndsInReceive(rest)
  {
    assert rest != [] ==> rest[|rest| - 1] == ([op] + rest)[|rest|];
  }

  // ----- steps that only move things on

  lemma {:induction false} Start2(cfg: Config, program: seq<Op>, t: Traced, t1: Traced)
    requires Sound2(cfg, program, t) && t.s.c.pc == Start && t1 == TracedStep(cfg, t, false)
    ensures Sound2(cfg, program, t1)
    ensures Left(t1.s) == Left(t.s) && Settled(t1.s.c) == Settled(t.s.c) && t1.s.c.inFifo == t.s.c.inFifo
  {
  }

  lemma {:induction false} GotIn2(cfg: Config, program: seq<Op>, t: Traced, t1: Traced)
    requires Sound2(cfg, program, t) && t.s.c.pc == GotIn && t1 == TracedStep(cfg, t, false)
    ensures Sound2(cfg, program, t1)
    ensures Left(t1.s) == Left(t.s) && Settled(t1.s.c) == Settled(t.s.c) && t1.s.c.inFifo == t.s.c.inFifo
  {
  }

  lemma {:induction false} ServeIn2(cfg: Config, program: seq<Op>, t: Traced, t1: Traced)
    requires Sound2(cfg, program, t) && t.s.c.pc == GotOut && t1 == TracedStep(cfg, t, false)
    ensures Sound2(cfg, program, t1)
    ensures Left(t1.s) == Left(t.s) && Settled(t1.s.c) == Settled(t.s.c) && t1.s.c.inFifo == t.s.c.inFifo
  {
  }

  lemma {:induction false} NoPacket2(cfg: Config, program: seq<Op>, t: Traced, t1: Traced)
    requires Sound2(cfg, program, t) && t.s.c.pc == ServedIn && !(t.s.c.sawOut && t.s.c.outFifo.Some?) && t1 == TracedStep(cfg, t, false)
    ensures Sound2(cfg, program, t1)
    ensures Left(t1.s) == Left(t.s) && Settled(t1.s.c) == Settled(t.s.c) && t1.s.c.inFifo == t.s.c.inFifo
  {
  }

  lemma {:induction false} NoRequest2(cfg: Config, program: seq<Op>, t: Traced, t1: Traced)
    requires Sound2(cfg, program, t) && t.s.c.pc == ServedOut && !(t.s.c.sawEp0 && t.s.c.ep0.Some?) && t1 == TracedStep(cfg, t, false)
    ensures Sound2(cfg, program, t1)
    ensures Left(t1.s) == Left(t.s) && Settled(t1.s.c) == Settled(t.s.c) && t1.s.c.inFifo == t.s.c.inFifo
  {
  }

  lemma {:induction false} Clear2(cfg: Config, program: seq<Op>, t: Traced, t1: Traced)
    requires Sound2(cfg, program, t) && t.s.c.pc.Clearing? && t1 == TracedStep(cfg, t, false)
    ensures Sound2(cfg, program, t1)
    ensures Left(t1.s) == Left(t.s) && Settled(t1.s.c) == Settled(t.s.c) && t1.s.c.inFifo == t.s.c.inFifo
  {
  }

  lemma {:induction false} FinishMoves(cfg: Config, s: System, s1: System)
    requires Sane(s.c.dev) && s.c.pc == Finishing && s1 == Step(cfg, s, false)
    ensures s1 == s.(c := s.c.(pc := Start, irqEp0 := s.c.irqEp0 && !cfg.fullSpeed, irqIn := s.c.irqIn && !cfg.fullSpeed))
  {
    assert s.done + [] == s.done;
  }

  lemma {:induction false} FinishLeft(cfg: Config, s: System, s1: System)
    requires Sane(s.c.dev) && s.c.pc == Finishing && s1 == Step(cfg, s, false)
    ensures Left(s1) == Left(s) && Settled(s1.c) == Settled(s.c) && s1.c.inFifo == s.c.inFifo
  {
    FinishMoves(cfg, s, s1);
  }

  lemma {:induction false} Finish2(cfg: Config, program: seq<Op>, t: Traced, t1: Traced)
    requires Sound2(cfg, program, t) && t.s.c.pc == Finishing && t1 == TracedStep(cfg, t, false)
    ensures Sound2(cfg, program, t1)
    ensures Left(t1.s) == Left(t.s) && Settled(t1.s.c) == Settled(t.s.c) && t1.s.c.inFifo == t.s.c.inFifo
  {
    FinishMoves(cfg, t.s, t1.s);
    FinishLeft(cfg, t.s, t1.s);
  }

  // ----- steps that carry something out

  /** The first of what is left has been carried out. */
  lemma {:induction false} FlowsNext(fs: nat, goal: Goal, s: System, op: Op, s1: System)
    requires Flows(fs, goal, s) && Left(s) == [op] + Left(s1)
    requires Settled(s1.c) == Effect(fs, Settled(s.c), op)
    requires Answered(s.c.inFifo.Some?, [op] + Left(s1)) ==> (s1.c.inFifo.Some? <==> op.Control? && ReadsBuffer(op.r))
    ensures Flows(fs, goal, s1)
  {
    EffectsFirst(fs, Settled(s.c), op, Left(s1));
    AnsweredTail(s.c.inFifo.Some?, op, Left(s1));
    if goal.answered {
      EndsTail(op, Left(s1));
    }
  }

  lemma {:induction false} ServeOutWires(cfg: Config, program: seq<Op>, t: Traced, t1: Traced)
    requires Sound2(cfg, program, t) && t.s.c.pc == ServedIn && t.s.c.sawOut && t.s.c.outFifo.Some? && t1 == TracedStep(cfg, t, false)
    ensures Sound2(cfg, program, t1)
  {
  }

  lemma {:induction false} ServeOutLeft(cfg: Config, s: System, op: Op, s1: System)
    requires Sane(s.c.dev) && s.c.pc == ServedIn && s.c.sawOut && s.c.outFifo.Some? && op == Bulk(s.c.outFifo.value) && s1 == Step(cfg, s, false)
    ensures Left(s) == [op] + Left(s1) && Settled(s1.c) == Effect(cfg.fs, Settled(s.c), op)
    ensures Answered(s.c.inFifo.Some?, [op] + Left(s1)) ==> s1.c.inFifo == None
  {
    if Answered(s.c.inFifo.Some?, [op] + Left(s1)) {
      AnsweredTail(s.c.inFifo.Some?, op, Left(s1));
    }
  }

  lemma {:induction false} ServeOut2(cfg: Config, goal: Goal, program: seq<Op>, t: Traced, op: Op, t1: Traced)
    requires Inv2(cfg, goal, program, t) && t.s.c.pc == ServedIn && t.s.c.sawOut && t.s.c.outFifo.Some?
    requires op == Bulk(t.s.c.outFifo.value) && t1 == TracedStep(cfg, t, false)
    ensures Inv2(cfg, goal, program, t1)
  {
    ServeOutWires(cfg, program, t, t1);
    ServeOutLeft(cfg, t.s, op, t1.s);
    FlowsNext(cfg.fs, goal, t.s, op, t1.s);
  }

  lemma {:induction false} RunWires(cfg: Config, program: seq<Op>, t: Traced, r: Request, t1: Traced)
    requires Sound2(cfg, program, t) && t.s.c.pc == Running(r) && t1 == TracedStep(cfg, t, false)
    ensures Sound2(cfg, program, t1)
  {
    RunQuiet(cfg, t.s.c.dev, r);
  }

  lemma {:induction false} RunCarriesOutOne(cfg: Config, s: System, r: Request, s1: System)
    requires cfg.fs >= 8 && Quiet(s.c.dev) && s.c.pc == Running(r) && ValidRequest(r) && s1 == Step(cfg, s, false)
    ensures Left(s) == [Control(r)] + Left(s1) && Settled(s1.c) == Effect(cfg.fs, Settled(s.c), Control(r))
    ensures Answered(s.c.inFifo.Some?, [Control(r)] + Left(s1)) ==> (s1.c.inFifo.Some? <==> ReadsBuffer(r))
  {
    RunQuiet(cfg, s.c.dev, r);
    if Answered(s.c.inFifo.Some?, [Control(r)] + Left(s1)) {
      AnsweredTail(s.c.inFifo.Some?, Control(r), Left(s1));
    }
  }

  lemma {:induction false} Run2(cfg: Config, goal: Goal, program: seq<Op>, t: Traced, r: Request, t1: Traced)
    requires Inv2(cfg, goal, program, t) && t.s.c.pc == Running(r) && t1 == TracedStep(cfg, t, false)
    ensures Inv2(cfg, goal, program, t1)
  {
    RunWires(cfg, program, t, r, t1);
    RunCarriesOutOne(cfg, t.s, r, t1.s);
    FlowsNext(cfg.fs, goal, t.s, Control(r), t1.s);
  }

  lemma {:induction false} OvertakeWires(cfg: Config, program: seq<Op>, t: Traced, p: Packet, r: Request, t1: Traced)
    requires Sound2(cfg, program, t) && t.s.c.pc == ServedOut && t.s.c.sawEp0
    requires t.s.c.ep0 == Some(r) && t.s.c.outFifo == Some(p) && t1 == TracedStep(cfg, t, false)
    ensures Sound2(cfg, program, t1) && !ReadsBuffer(r)
  {
    RequestIsValid(program, t.s, r);
  }

  /** Carrying out `b` before `a` does what carrying out `a` before `b` would have done. */
  lemma {:induction false} FlowsSwapped(fs: nat, goal: Goal, s: System, p: Packet, r: Request, rest: seq<Op>, s1: System)
    requires Flows(fs, goal, s) && !ReadsBuffer(r) && Settled(s1.c) == Settled(s.c) && s1.c.inFifo == s.c.inFifo
    requires Left(s) == [Bulk(p)] + ([Control(r)] + rest) && Left(s1) == [Control(r)] + ([Bulk(p)] + rest)
    ensures Flows(fs, goal, s1)
  {
    var a, b, d := Bulk(p), Control(r), Settled(s.c);
    EffectsFirst(fs, d, a, [b] + rest);
    EffectsFirst(fs, Effect(fs, d, a), b, rest);
    Commute(fs, d, p, r);
    EffectsFirst(fs, d, b, [a] + rest);
    EffectsFirst(fs, Effect(fs, d, b), a, rest);
    AnsweredTail(s.c.inFifo.Some?, a, [b] + rest);
    AnsweredTail(false, b, rest);
    AnsweredCons(a, rest);
    AnsweredCons(b, [a] + rest);
    if goal.answered {
      EndsSwap(a, b, rest);
    }
  }

  /** A request is taken up although a packet sent before it is still in the FIFO. */
  lemma {:induction false} Overtake2(cfg: Config, goal: Goal, program: seq<Op>, t: Traced, p: Packet, r: Request, t1: Traced)
    requires Inv2(cfg, goal, program, t) && t.s.c.pc == ServedOut && t.s.c.sawEp0
    requires t.s.c.ep0 == Some(r) && t.s.c.outFifo == Some(p) && t1 == TracedStep(cfg, t, false)
    ensures Inv2(cfg, goal, program, t1)
  {
    OvertakeWires(cfg, program, t, p, r, t1);
    assert Left(t.s) == [Bulk(p)] + ([Control(r)] + Untouched(t.s)) && Left(t1.s) == [Control(r)] + ([Bulk(p)] + Untouched(t.s));
    FlowsSwapped(cfg.fs, goal, t.s, p, r, Untouched(t.s), t1.s);
  }

  lemma EndsSwap(a: Op, b: Op, rest: seq<Op>)
    requires EndsInReceive([a] + ([b] + rest)) && !b.Receive?
    ensures EndsInReceive([b] + ([a] + rest))
  {
    EndsTail(a, [b] + rest);
    EndsTail(b, rest);
    assert [b] + ([a] + rest) == [b, a] + rest && [b] + rest == [b] + rest;
  }

  lemma RequestIsValid(program: seq<Op>, s: System, r: Request)
    requires AllValid(program) && AtSuffix(program, s) && s.todo != [] && s.todo[0] == Control(r)
    ensures ValidRequest(r)
  {
    assert program[|program| - |s.todo|] == s.todo[0];
  }

  lemma {:induction false} Ack2(cfg: Config, program: seq<Op>, t: Traced, r: Request, t1: Traced)
    requires Sound2(cfg, program, t) && t.s.c.pc == ServedOut && t.s.c.sawEp0
    requires t.s.c.ep0 == Some(r) && t.s.c.outFifo == None && t1 == TracedStep(cfg, t, false)
    ensures Sound2(cfg, program, t1)
    ensures Left(t1.s) == Left(t.s) && Settled(t1.s.c) == Settled(t.s.c) && t1.s.c.inFifo == t.s.c.inFifo
  {
    RequestIsValid(program, t.s, r);
  }

  // ----- the host

  lemma NextSuffix(program: seq<Op>, s: System)
    requires AtSuffix(program, s) && s.todo != []
    ensures program[|program| - |s.todo|] == s.todo[0] && s.todo[1..] == program[|program| - |s.todo| + 1..]
  {
  }

  /** Nothing that uses the buffer is running while the host is sending packets. */
  lemma {:induction false} NoReaderRuns(cfg: Config, goal: Goal, program: seq<Op>, t: Traced)
    requires Inv2(cfg, goal, program, t) && t.s.todo != [] && t.s.todo[0].Bulk? && t.s.c.outFifo == None && t.s.c.pc.Running?
    ensures !ReadsBuffer(t.s.c.pc.r)
  {
    assert t.s.todo == [t.s.todo[0]] + t.s.todo[1..];
    assert Left(t.s) == [Control(t.s.c.pc.r)] + t.s.todo;
    AnsweredTail(t.s.c.inFifo.Some?, Control(t.s.c.pc.r), t.s.todo);
    AnsweredTail(ReadsBuffer(t.s.c.pc.r), t.s.todo[0], t.s.todo[1..]);
  }

  lemma {:induction false} HostBulk2(cfg: Config, goal: Goal, program: seq<Op>, t: Traced, t1: Traced)
    requires Inv2(cfg, goal, program, t) && t.s.todo != [] && t.s.todo[0].Bulk? && t1 == TracedStep(cfg, t, true)
    ensures Inv2(cfg, goal, program, t1)
  {
    if t.s.c.outFifo == None {
      if t.s.c.pc.Running? {
        NoReaderRuns(cfg, goal, program, t);
      }
      HostBulkWires(cfg, program, t, t1);
      FlowsSame(cfg.fs, goal, t.s, t1.s);
    } else {
      assert t1 == t;
    }
  }

  lemma {:induction false} HostBulkLeft(cfg: Config, s: System, s1: System)
    requires Sane(s.c.dev) && s.todo != [] && s.todo[0].Bulk? && !s.waiting && s.c.outFifo == None && s.c.ep0 == None && s1 == Step(cfg, s, true)
    ensures Left(s1) == Left(s) && Settled(s1.c) == Settled(s.c) && s1.c.inFifo == s.c.inFifo
  {
    assert s.todo == [s.todo[0]] + s.todo[1..];
  }

  lemma {:induction false} HostBulkWires(cfg: Config, program: seq<Op>, t: Traced, t1: Traced)
    requires Sound2(cfg, program, t) && t.s.todo != [] && t.s.todo[0].Bulk? && t.s.c.outFifo == None && t1 == TracedStep(cfg, t, true)
    requires t.s.c.pc.Running? ==> !ReadsBuffer(t.s.c.pc.r)
    ensures Sound2(cfg, program, t1)
    ensures Left(t1.s) == Left(t.s) && Settled(t1.s.c) == Settled(t.s.c) && t1.s.c.inFifo == t.s.c.inFifo
  {
    NextSuffix(program, t.s);
    HostBulkLeft(cfg, t.s, t1.s);
  }

  lemma {:induction false} HostSendLeft(cfg: Config, s: System, s1: System)
    requires Sane(s.c.dev) && s.todo != [] && s.todo[0].Control? && !s.waiting && s.c.ep0 == None && s1 == Step(cfg, s, true)
    ensures Left(s1) == Left(s) && Settled(s1.c) == Settled(s.c) && s1.c.inFifo == s.c.inFifo
  {
    assert s.todo == [s.todo[0]] + s.todo[1..];
  }

  lemma {:induction false} HostSendWires(cfg: Config, program: seq<Op>, t: Traced, t1: Traced)
    requires Sound2(cfg, program, t) && t.s.todo != [] && t.s.todo[0].Control? && !t.s.waiting && t1 == TracedStep(cfg, t, true)
    ensures Sound2(cfg, program, t1)
    ensures Left(t1.s) == Left(t.s) && Settled(t1.s.c) == Settled(t.s.c) && t1.s.c.inFifo == t.s.c.inFifo
  {
    NextSuffix(program, t.s);
    HostSendLeft(cfg, t.s, t1.s);
    assert !RacyAt(cfg, program, |program| - |t.s.todo|);
  }

  lemma {:induction false} HostAckedWires(cfg: Config, program: seq<Op>, t: Traced, t1: Traced)
    requires Sound2(cfg, program, t) && t.s.todo != [] && t.s.waiting && t1 == TracedStep(cfg, t, true)
    ensures Sound2(cfg, program, t1)
    ensures Left(t1.s) == Left(t.s) && Settled(t1.s.c) == Settled(t.s.c) && t1.s.c.inFifo == t.s.c.inFifo
  {
    NextSuffix(program, t.s);
  }

  lemma {:induction false} HostReceiveWires(cfg: Config, program: seq<Op>, t: Traced, t1: Traced)
    requires Sound2(cfg, program, t) && t.s.todo != [] && t.s.todo[0] == Receive && t.s.c.outFifo == None && t1 == TracedStep(cfg, t, true)
    ensures Sound2(cfg, program, t1)
  {
    NextSuffix(program, t.s);
  }

  lemma {:induction false} ReceiveLeft(cfg: Config, s: System, s1: System)
    requires Sane(s.c.dev) && s.todo != [] && s.todo[0] == Receive && s.c.inFifo.Some? && !s.waiting && s1 == Step(cfg, s, true)
    requires Answered(true, Left(s))
    ensures Begun(s.c) == [] && Left(s) == [Receive] + Left(s1)
    ensures Settled(s1.c) == Settled(s.c) && s1.c.inFifo == None
  {
    assert Left(s)[0] == Receive;
    assert Begun(s.c) == [];
    assert s.todo == [Receive] + s.todo[1..];
  }

  lemma {:induction false} HostReceive2(cfg: Config, goal: Goal, program: seq<Op>, t: Traced, t1: Traced)
    requires Inv2(cfg, goal, program, t) && t.s.todo != [] && t.s.todo[0] == Receive && t1 == TracedStep(cfg, t, true)
    ensures Inv2(cfg, goal, program, t1)
  {
    if t.s.c.inFifo.Some? {
      ReceiveLeft(cfg, t.s, t1.s);
      HostReceiveWires(cfg, program, t, t1);
      FlowsNext(cfg.fs, goal, t.s, Receive, t1.s);
    } else {
      assert t1 == t;
    }
  }

  lemma {:induction false} StepKeeps2(cfg: Config, goal: Goal, program: seq<Op>, t: Traced, host: bool)
    requires Inv2(cfg, goal, program, t)
    ensures Inv2(cfg, goal, program, TracedStep(cfg, t, host))
  {
    var t1 := TracedStep(cfg, t, host);
    if host {
      HostKeeps2(cfg, goal, program, t, t1);
    } else {
      DeviceKeeps2(cfg, goal, program, t, t1);
    }
  }

  lemma {:induction false} HostKeeps2(cfg: Config, goal: Goal, program: seq<Op>, t: Traced, t1: Traced)
    requires Inv2(cfg, goal, program, t) && t1 == TracedStep(cfg, t, true)
    ensures Inv2(cfg, goal, program, t1)
  {
    if t.s.todo == [] {
      assert t1 == t;
    } else if t.s.todo[0].Bulk? {
      HostBulk2(cfg, goal, program, t, t1);
    } else if t.s.todo[0] == Receive {
      HostReceive2(cfg, goal, program, t, t1);
    } else {
      if t.s.waiting {
        HostAckedWires(cfg, program, t, t1);
      } else {
        HostSendWires(cfg, program, t, t1);
      }
      FlowsSame(cfg.fs, goal, t.s, t1.s);
    }
  }

  lemma {:induction false} DeviceKeeps2(cfg: Config, goal: Goal, program: seq<Op>, t: Traced, t1: Traced)
    requires Inv2(cfg, goal, program, t) && t1 == TracedStep(cfg, t, false)
    ensures Inv2(cfg, goal, program, t1)
  {
    if t.s.c.pc == ServedIn && t.s.c.sawOut && t.s.c.outFifo.Some? {
      ServeOut2(cfg, goal, program, t, Bulk(t.s.c.outFifo.value), t1);
    } else if t.s.c.pc.Running? {
      Run2(cfg, goal, program, t, t.s.c.pc.r, t1);
    } else if t.s.c.pc == ServedOut && t.s.c.sawEp0 && t.s.c.ep0.Some? && t.s.c.outFifo.Some? {
      Overtake2(cfg, goal, program, t, t.s.c.outFifo.value, t.s.c.ep0.value, t1);
    } else {
      DeviceMovesOn(cfg, program, t, t1);
      FlowsSame(cfg.fs, goal, t.s, t1.s);
    }
  }

  lemma {:induction false} DeviceMovesOn(cfg: Config, program: seq<Op>, t: Traced, t1: Traced)
    requires Sound2(cfg, program, t) && t1 == TracedStep(cfg, t, false) && !t.s.c.pc.Running?
    requires !(t.s.c.pc == ServedIn && t.s.c.sawOut && t.s.c.outFifo.Some?)
    requires !(t.s.c.pc == ServedOut && t.s.c.sawEp0 && t.s.c.ep0.Some? && t.s.c.outFifo.Some?)
    ensures Sound2(cfg, program, t1)
    ensures Left(t1.s) == Left(t.s) && Settled(t1.s.c) == Settled(t.s.c) && t1.s.c.inFifo == t.s.c.inFifo
  {
    match t.s.c.pc
    case Start => Start2(cfg, program, t, t1);
    case GotIn => GotIn2(cfg, program, t, t1);
    case GotOut => ServeIn2(cfg, program, t, t1);
    case ServedIn => NoPacket2(cfg, program, t, t1);
    case ServedOut =>
      if t.s.c.sawEp0 && t.s.c.ep0.Some? {
        Ack2(cfg, program, t, t.s.c.ep0.value, t1);
      } else {
        NoRequest2(cfg, program, t, t1);
      }
    case Clearing(r) => Clear2(cfg, program, t, t1);
    case Finishing => Finish2(cfg, program, t, t1);
  }

  // ----- runs

  lemma {:induction false} RunKeeps2(cfg: Config, goal: Goal, program: seq<Op>, t: Traced, moves: seq<bool>) returns (t1: Traced)
    requires Inv2(cfg, goal, program, t)
    ensures Inv2(cfg, goal, program, t1) && t1.s == Run(cfg, t.s, moves)
    decreases |moves|
  {
    t1 := t;
    if moves != [] {
      StepKeeps2(cfg, goal, program, t, moves[0]);
      t1 := RunKeeps2(cfg, goal, program, TracedStep(cfg, t, moves[0]), moves[1..]);
    }
  }

  lemma {:induction false} Initial2(cfg: Config, d0: Dev, program: seq<Op>)
    requires cfg.fs >= 8 && Quiet(d0) && WellFormed(program) && !Racy(cfg, program)
    ensures Inv2(cfg, GoalOf(cfg.fs, d0, program), program, Traced(Initial(d0, program), false))
  {
    assert Left(Initial(d0, program)) == program;
  }

  lemma {:induction false} FlowsEnd(fs: nat, goal: Goal, s: System)
    requires Flows(fs, goal, s) && goal.answered && s.todo == [] && (s.c.ep0.Some? ==> s.waiting) && (s.waiting ==> s.todo != [])
    ensures Settled(s.c) == goal.dev
  {
    assert Left(s) == Begun(s.c);
    assert Left(s) == [];
  }

  /** With or without status-stage interrupts: every interleaving that brings the host to the
      end of a program without such a race ends as carrying out the program in order would. */
  lemma {:induction false} CalmProgramsAreSafe(cfg: Config, d0: Dev, program: seq<Op>, moves: seq<bool>, s: System)
    requires cfg.fs >= 8 && Quiet(d0) && WellFormed(program) && !Racy(cfg, program) && EndsInReceive(program)
    requires s == Run(cfg, Initial(d0, program), moves) && s.todo == []
    ensures Settled(s.c) == Effects(cfg.fs, d0, program)
  {
    Initial2(cfg, d0, program);
    var t := RunKeeps2(cfg, GoalOf(cfg.fs, d0, program), program, Traced(Initial(d0, program), false), moves);
    FlowsEnd(cfg.fs, GoalOf(cfg.fs, d0, program), s);
  }

  /** Every request that uses the buffer comes behind another request, or its answer. */
  predicate Spaced(program: seq<Op>) {
    forall k | 0 <= k < |program| && program[k].Control? && ReadsBuffer(program[k].r) :: k > 0 && !program[k - 1].Bulk?
  }

  lemma SpacedIsCalm(cfg: Config, program: seq<Op>)
    requires Spaced(program)
    ensures !Racy(cfg, program)
  {
  }

  lemma {:induction false} SpacedConcat(a: seq<Op>, b: seq<Op>)
    requires Spaced(a) && Spaced(b)
    ensures Spaced(a + b)
  {
    forall k | 0 <= k < |a + b| && (a + b)[k].Control? && ReadsBuffer((a + b)[k].r)
      ensures k > 0 && !(a + b)[k - 1].Bulk?
    {
      if k >= |a| {
        assert b[k - |a|] == (a + b)[k];
        assert b[k - |a| - 1] == (a + b)[k - 1];
      }
    }
  }

  lemma {:induction false} BulkSpaced(s: seq<byte>, fs: nat, junk: Junk, at: nat)
    requires fs > 0
    ensures Spaced(BulkOps(s, fs, junk, at))
    decreases |s|
  {
    if |s| > fs {
      BulkSpaced(s[fs..], fs, junk, at + fs);
      SpacedConcat([Bulk(Padded(s[..fs], junk, at))], BulkOps(s[fs..], fs, junk, at + fs));
    }
  }

  /** ingenic_load_sdram sends two more requests between its packets and SDRAM_OPS. */
  lemma {:induction false} LoadIsSpaced(base: nat, data: seq<byte>, fs: nat, junk: Junk, at: nat)
    requires fs > 0 && base < ADDRESSES
    ensures Spaced(Program(base, data, fs, junk, at))
    decreases |data|
  {
    if data != [] {
      var n := Min(|data|, STAGE2_IOBUF);
      BulkSpaced(data[..n], fs, junk, at);
      assert Spaced(LoadOps(base, n));
      SpacedConcat(BulkOps(data[..n], fs, junk, at), LoadOps(base, n));
      LoadIsSpaced(Wrap(base, n), data[n..], fs, junk, at + n);
      SpacedConcat(BlockOps(base, data[..n], fs, junk, at), Program(Wrap(base, n), data[n..], fs, junk, at + n));
    }
  }

  /** ingenic_load_sdram is safe with such a controller too. */
  lemma {:induction false} LoadIsSafe(cfg: Config, d0: Dev, m: Mem, base: nat, data: seq<byte>, junk: Junk, moves: seq<bool>, s: System)
    requires cfg.fs >= 8 && Ready(d0, m) && base < ADDRESSES
    requires s == Run(cfg, Initial(d0, Program(base, data, cfg.fs, junk, 0)), moves) && s.todo == []
    ensures s.c.dev.mem == Store(m, base, data)
  {
    ProgramWellFormed(base, data, cfg.fs, junk, 0);
    ProgramLoads(cfg.fs, d0, m, base, data, junk, 0);
    LoadIsSpaced(base, data, cfg.fs, junk, 0);
    SpacedIsCalm(cfg, Program(base, data, cfg.fs, junk, 0));
    CalmProgramsAreSafe(cfg, d0, Program(base, data, cfg.fs, junk, 0), moves, s);
  }

  /** Address by address: inside the loaded range the data, outside it what was there. */
  lemma {:induction false} LoadedByteByByte(cfg: Config, d0: Dev, m: Mem, base: nat, data: seq<byte>, junk: Junk, moves: seq<bool>, s: System, x: nat)
    requires cfg.fs >= 8 && Ready(d0, m) && base < ADDRESSES && x < ADDRESSES && |data| < ADDRESSES
    requires s == Run(cfg, Initial(d0, Program(base, data, cfg.fs, junk, 0)), moves) && s.todo == []
    ensures var r := s.c.dev.mem;
            if Behind(base, x) < |data| then x in r && r[x] == data[Behind(base, x)]
            else (x in r <==> x in m) && (x in m ==> r[x] == m[x])
  {
    LoadIsSafe(cfg, d0, m, base, data, junk, moves, s);
    StoreAt(m, base, data, x);
  }
}
