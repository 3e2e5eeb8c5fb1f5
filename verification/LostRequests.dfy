/** When a request can be lost for good: exactly at full speed, and exactly the requests that are
    not the first operation. */
module LostRequests {
  import opened Options
  import opened RsCode
  import opened Memory
  import opened Udc
  import opened Transport
  import opened LoadSdram
  import opened Overtaking
  import opened Races
  import opened Progress

  /** Whatever happens from here on, the host gets no further. */
  ghost predicate Stuck(cfg: Config, s: System)
    requires Sane(s.c.dev) && cfg.fs >= 8
  {
    s.todo != [] && forall moves: seq<bool> :: Run(cfg, s, moves).todo == s.todo
  }

  ghost predicate StuckAfter(cfg: Config, d0: Dev, program: seq<Op>, moves: seq<bool>)
    requires Sane(d0) && cfg.fs >= 8
  {
    Stuck(cfg, Run(cfg, Initial(d0, program), moves))
  }

  // ----- how a request is lost

  /** The first `k` operations have been carried out, and the driver is about to look at IntrIn
      for the second time. */
  ghost predicate Ending(program: seq<Op>, k: nat, s: System) {
    && k <= |program| && s.todo == program[k..] && !s.waiting && Quiet(s.c.dev)
    && s.c.pc == Finishing && s.c.outFifo == None && s.c.ep0 == None && !s.c.irqOut
  }

  lemma {:induction false} BulkEnding(cfg: Config, d0: Dev, program: seq<Op>, k: nat, k1: nat, s0: System, s: System) returns (s1: System)
    requires Reaches(cfg, s0, s) && At(cfg.fs, d0, program, k, s.c.irqEp0, s) && k < |program| && program[k].Bulk? && k1 == k + 1
    ensures Reaches(cfg, s0, s1) && Ending(program, k1, s1)
  {
    var p := program[k].p;
    EffectsAt(cfg.fs, d0, program, k, k1);
    var a := s.(c := s.c.(outFifo := Some(p), irqOut := true), todo := program[k1..]);
    HostMoves(cfg, s0, s, a);
    var b := DeviceMoves(cfg, s0, a, 1);
    AloneOn(cfg, a.c, 1, b.c, 0);
    Take(cfg, b.c, p);
    var c := DeviceMoves(cfg, s0, b, 3);
    s1 := DeviceMoves(cfg, s0, c, 1);
    AloneOn(cfg, c.c, 1, s1.c, 0);
  }

  /** Whatever comes before operation `k`, the host can be through with it while the driver is
      still in the round that served it. */
  lemma {:induction false} GetToEnding(cfg: Config, d0: Dev, program: seq<Op>, k: nat) returns (s: System)
    requires cfg.fs >= 8 && Quiet(d0) && WellFormed(program) && Between(program, k) && k > 0
    ensures Reaches(cfg, Initial(d0, program), s) && Ending(program, k, s)
  {
    var s0 := Initial(d0, program);
    if program[k - 1].Bulk? {
      if k > 1 && IsReader(program[k - 2]) {
        AnswerFollows(program, k - 2, k - 1);
      }
      s := GetTo(cfg, d0, program, k - 1);
      s := BulkEnding(cfg, d0, program, k - 1, k, s0, s);
    } else {
      var a := RequestBefore(program, k);
      s := GetTo(cfg, d0, program, a);
      s := AskRound(cfg, d0, program, a, s.c.irqEp0, program[a].r, s0, s);
      s := Answer(cfg, d0, program, a, program[a].r, k, s0, s);
    }
  }

  /** Every request that is not the first operation can be lost at full speed. */
  lemma {:induction false} LaterRequestIsLost(cfg: Config, d0: Dev, program: seq<Op>, k: nat) returns (moves: seq<bool>)
    requires cfg.fs >= 8 && cfg.fullSpeed && Quiet(d0) && WellFormed(program) && 0 < k < |program| && program[k].Control?
    ensures StuckAfter(cfg, d0, program, moves) && Run(cfg, Initial(d0, program), moves).todo == program[k..]
  {
    var s0 := Initial(d0, program);
    if IsReader(program[k - 1]) {
      AnswerFollows(program, k - 1, k);
    }
    var s := GetToEnding(cfg, d0, program, k);
    var a := s.(c := s.c.(ep0 := Some(program[k].r), irqEp0 := true), waiting := true);
    HostMoves(cfg, s0, s, a);
    var b := DeviceMoves(cfg, s0, a, 1);
    AloneOn(cfg, a.c, 1, b.c, 0);
    forall more: seq<bool> ensures Run(cfg, b, more).todo == b.todo {
      DeafForever(cfg, b, more);
    }
    moves :| Run(cfg, s0, moves) == b;
  }

  // ----- where none is lost

  /** `n` turns of the host. */
  function TurnMoves(n: nat): seq<bool> {
    if n == 0 then [] else Pauses(10) + ([true] + TurnMoves(n - 1))
  }

  lemma {:induction false} TurnsBehind(k: nat, rest: seq<bool>)
    ensures Turns(Pauses(k) + rest, k) == Turns(rest, 0)
    decreases k
  {
    if k == 0 {
      assert Pauses(0) + rest == rest;
    } else {
      assert (Pauses(k) + rest)[1..] == Pauses(k - 1) + rest;
      TurnsBehind(k - 1, rest);
    }
  }

  lemma {:induction false} TurnMovesHave(n: nat)
    ensures Turns(TurnMoves(n), 10) == n
    decreases n
  {
    if n > 0 {
      var rest := [true] + TurnMoves(n - 1);
      TurnsBehind(10, rest);
      assert rest[1..] == TurnMoves(n - 1);
      TurnMovesHave(n - 1);
    }
  }

  lemma {:induction false} ServedInRuns(cfg: Config, program: seq<Op>, s: System, moves: seq<bool>)
    requires Sane(s.c.dev) && cfg.fs >= 8 && Heard(cfg, program) && Answered(false, program) && Progress.Served(cfg, program, s)
    ensures Progress.Served(cfg, program, Run(cfg, s, moves))
    decreases |moves|
  {
    if moves != [] {
      var s1 := Step(cfg, s, moves[0]);
      StepSane(cfg, s, moves[0]);
      if moves[0] {
        HostServed(cfg, program, s, s1);
      } else {
        DeviceServes(cfg, program, s, s1);
      }
      ServedInRuns(cfg, program, s1, moves[1..]);
    }
  }

  lemma {:induction false} HeardIsNeverStuck(cfg: Config, d0: Dev, program: seq<Op>, moves: seq<bool>)
    requires cfg.fs >= 8 && Heard(cfg, program) && Sane(d0) && Answered(false, program)
    ensures !StuckAfter(cfg, d0, program, moves)
  {
    var s := Run(cfg, Initial(d0, program), moves);
    ServedInRuns(cfg, program, Initial(d0, program), moves);
    if s.todo != [] {
      var more := TurnMoves(2 * |s.todo|);
      TurnMovesHave(2 * |s.todo|);
      TurnsPay(cfg, program, s, more, 10, false);
      assert Run(cfg, s, more).todo == [];
    }
  }

  // ----- exactly when

  /** Some request comes behind another operation. */
  ghost predicate LaterRequest(program: seq<Op>) {
    exists k :: 0 < k < |program| && program[k].Control?
  }

  /** In some interleaving the host is stuck for ever if and only if the driver takes the bus for
      a full-speed one and some request is not the first operation. */
  lemma {:induction false} StuckIff(cfg: Config, d0: Dev, program: seq<Op>)
    requires cfg.fs >= 8 && Quiet(d0) && WellFormed(program)
    ensures cfg.fullSpeed && LaterRequest(program) <==> exists moves: seq<bool> :: StuckAfter(cfg, d0, program, moves)
  {
    if cfg.fullSpeed && LaterRequest(program) {
      var k :| 0 < k < |program| && program[k].Control?;
      var moves := LaterRequestIsLost(cfg, d0, program, k);
    } else {
      forall moves: seq<bool> ensures !StuckAfter(cfg, d0, program, moves) {
        HeardIsNeverStuck(cfg, d0, program, moves);
      }
    }
  }

  lemma {:induction false} LoadHasLaterRequest(base: nat, data: seq<byte>, fs: nat, junk: Junk, at: nat)
    requires fs > 0
    ensures LaterRequest(Program(base, data, fs, junk, at)) <==> data != []
  {
    if data != [] {
      var n := Min(|data|, STAGE2_IOBUF);
      var bulk, program := BulkOps(data[..n], fs, junk, at), Program(base, data, fs, junk, at);
      assert program[|bulk|] == LoadOps(base, n)[0];
    }
  }

  /** At full speed every load of any data can hang, in any of its requests; at high speed none
      can. */
  lemma {:induction false} LoadHangsIff(cfg: Config, d0: Dev, m: Mem, base: nat, data: seq<byte>, junk: Junk)
    requires cfg.fs >= 8 && Ready(d0, m) && base < ADDRESSES
    ensures cfg.fullSpeed && data != [] <==> exists moves: seq<bool> :: StuckAfter(cfg, d0, Program(base, data, cfg.fs, junk, 0), moves)
  {
    ProgramWellFormed(base, data, cfg.fs, junk, 0);
    LoadHasLaterRequest(base, data, cfg.fs, junk, 0);
    StuckIff(cfg, d0, Program(base, data, cfg.fs, junk, 0));
  }
}
