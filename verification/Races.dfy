/** Requests and the interrupts that announce them: how one is lost, and why none is at high
    speed. */
module Races {
  import opened Options
  import opened Udc
  import opened Transport

  // ----- a request that will never be served

  /** The host waits for a request to be acknowledged, the driver waits for an interrupt, and
      none will come. */
  ghost predicate Deaf(s: System) {
    var c := s.c;
    && Quiet(c.dev) && s.waiting && s.todo != [] && s.todo[0].Control? && c.ep0.Some? && c.outFifo == None
    && !c.irqEp0 && !c.irqIn && !c.irqOut && (c.pc == Start || (c.pc == GotIn && !c.sawEp0 && !c.sawIn))
  }

  lemma {:induction false} DeafForOneStep(cfg: Config, s: System, host: bool)
    requires cfg.fs >= 8 && Deaf(s)
    ensures Deaf(Step(cfg, s, host)) && Step(cfg, s, host).todo == s.todo
  {
  }

  lemma {:induction false} DeafForever(cfg: Config, s: System, moves: seq<bool>)
    requires cfg.fs >= 8 && Deaf(s)
    ensures Deaf(Run(cfg, s, moves)) && Run(cfg, s, moves).todo == s.todo
    decreases |moves|
  {
    if moves != [] {
      DeafForOneStep(cfg, s, moves[0]);
      DeafForever(cfg, Step(cfg, s, moves[0]), moves[1..]);
    }
  }

  // ----- at high speed every request is served

  /** A request that has not been acknowledged is announced, or has been noticed. */
  predicate Noticed(s: System) {
    NoticedBy(s.c.pc, s.c.ep0, s.c.irqEp0, s.c.sawEp0)
  }

  predicate NoticedBy(pc: Pc, ep0: Option<Request>, irqEp0: bool, sawEp0: bool) {
    ep0.Some? ==> irqEp0 || (BeforeEp0(pc) && sawEp0)
  }

  /** What a step of the driver does to the control endpoint. */
  ghost predicate ControlStep(cfg: Config, c: Ctl, c1: Ctl) {
    match c.pc
    case Start => c1.pc == GotIn && c1.ep0 == c.ep0 && c1.sawEp0 == c.irqEp0
    case GotIn => (c1.pc == GotOut || (!c.sawEp0 && c1.pc == Start)) && c1.ep0 == c.ep0 && c1.sawEp0 == c.sawEp0 && c1.irqEp0 == c.irqEp0
    case GotOut => c1.pc == ServedIn && c1.ep0 == c.ep0 && c1.sawEp0 == c.sawEp0 && c1.irqEp0 == c.irqEp0
    case ServedIn => c1.pc == ServedOut && c1.ep0 == c.ep0 && c1.sawEp0 == c.sawEp0 && c1.irqEp0 == c.irqEp0
    case ServedOut =>
      if c.sawEp0 && c.ep0.Some? then c1.ep0 == None
      else c1.pc == Finishing && c1.ep0 == c.ep0 && c1.irqEp0 == c.irqEp0
    case Running(r) => c1.pc == Clearing(r) && c1.ep0 == c.ep0 && c1.irqEp0 == c.irqEp0
    case Clearing(r) => c1.pc == Finishing && c1.ep0 == c.ep0 && c1.irqEp0 == c.irqEp0
    case Finishing => c1.pc == Start && c1.ep0 == c.ep0 && c1.irqEp0 == (c.irqEp0 && !cfg.fullSpeed)
  }

  lemma LooksControl(cfg: Config, c: Ctl)
    requires Sane(c.dev) && (c.pc == Start || c.pc == GotIn || c.pc == ServedIn || c.pc == GotOut)
    ensures ControlStep(cfg, c, DeviceStep(cfg, c))
  {
  }

  lemma ControlSteps(cfg: Config, c: Ctl)
    requires Sane(c.dev)
    ensures ControlStep(cfg, c, DeviceStep(cfg, c))
  {
    if c.pc == Start || c.pc == GotIn || c.pc == ServedIn || c.pc == GotOut {
      LooksControl(cfg, c);
    }
  }

  lemma NoticedNext(cfg: Config, c: Ctl, c1: Ctl)
    requires NoticedBy(c.pc, c.ep0, c.irqEp0, c.sawEp0) && ControlStep(cfg, c, c1)
    requires cfg.fullSpeed && c.ep0.Some? ==> c.pc != Finishing
    ensures NoticedBy(c1.pc, c1.ep0, c1.irqEp0, c1.sawEp0)
    ensures c.ep0.Some? ==> c1.ep0 == None || Away(c1) < Away(c)
  {
  }

  lemma HostNotices(cfg: Config, s: System)
    requires Noticed(s)
    ensures Noticed(HostStep(cfg, s))
  {
  }

  lemma {:induction false} NoticedKeeps(cfg: Config, s: System, host: bool)
    requires Sane(s.c.dev) && cfg.fs >= 8 && !cfg.fullSpeed && Noticed(s)
    ensures Noticed(Step(cfg, s, host))
  {
    if host {
      HostNotices(cfg, s);
    } else {
      ControlSteps(cfg, s.c);
      NoticedNext(cfg, s.c, DeviceStep(cfg, s.c));
    }
  }

  /** How many steps the driver is away from acknowledging a request. */
  function Away(c: Ctl): nat {
    match c.pc
    case ServedOut => if c.sawEp0 then 1 else 7
    case ServedIn => if c.sawEp0 then 2 else 8
    case GotOut => if c.sawEp0 then 3 else 9
    case GotIn => if c.sawEp0 then 4 else 10
    case Start => 5
    case Finishing => 6
    case Clearing(_) => 7
    case Running(_) => 8
  }

  lemma {:induction false} AwayDecreases(cfg: Config, s: System, s1: System)
    requires Sane(s.c.dev) && cfg.fs >= 8 && !cfg.fullSpeed && Noticed(s) && s.c.ep0.Some? && s1 == Step(cfg, s, false)
    ensures s1.c.ep0 == None || Away(s1.c) < Away(s.c)
  {
    ControlSteps(cfg, s.c);
    NoticedNext(cfg, s.c, s1.c);
  }

  /** Left alone for ten steps, the driver acknowledges whatever request is waiting. */
  lemma {:induction false} RequestAcknowledged(cfg: Config, s: System) returns (n: nat)
    requires Sane(s.c.dev) && cfg.fs >= 8 && !cfg.fullSpeed && Noticed(s)
    ensures n <= Away(s.c) <= 10 && Run(cfg, s, Pauses(n)).c.ep0 == None
    decreases Away(s.c)
  {
    n := 0;
    if s.c.ep0.Some? {
      var s1 := Step(cfg, s, false);
      StepSane(cfg, s, false);
      NoticedKeeps(cfg, s, false);
      AwayDecreases(cfg, s, s1);
      if s1.c.ep0 == None {
        n := 1;
        assert Pauses(1) == [false] + Pauses(0) && Run(cfg, s1, Pauses(0)) == s1;
        RunOn(cfg, s, false, Pauses(0), s1);
      } else {
        var m := RequestAcknowledged(cfg, s1);
        n := m + 1;
        assert Pauses(n) == [false] + Pauses(m);
        RunOn(cfg, s, false, Pauses(m), s1);
      }
    }
  }

  lemma {:induction false} NoticedInRuns(cfg: Config, s: System, moves: seq<bool>)
    requires Sane(s.c.dev) && cfg.fs >= 8 && !cfg.fullSpeed && Noticed(s)
    ensures Noticed(Run(cfg, s, moves))
    decreases |moves|
  {
    if moves != [] {
      StepSane(cfg, s, moves[0]);
      NoticedKeeps(cfg, s, moves[0]);
      NoticedInRuns(cfg, Step(cfg, s, moves[0]), moves[1..]);
    }
  }

  /** So, at high speed, in every reachable state the request the host waits for is
      acknowledged within ten steps of the driver. */
  lemma {:induction false} NoRequestLostAtHighSpeed(cfg: Config, d0: Dev, program: seq<Op>, moves: seq<bool>) returns (n: nat)
    requires cfg.fs >= 8 && !cfg.fullSpeed && Sane(d0)
    ensures n <= 10 && Run(cfg, Run(cfg, Initial(d0, program), moves), Pauses(n)).c.ep0 == None
  {
    NoticedInRuns(cfg, Initial(d0, program), moves);
    n := RequestAcknowledged(cfg, Run(cfg, Initial(d0, program), moves));
  }
}
