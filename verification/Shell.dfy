/** The shell's command loop, and what it does with a text of quoted commands. */
module Shell {
  import opened Options
  import opened ShellTables
  import opened ShellLexer
  import opened Quoting

  const STATE_WANTSTR: nat := 0
  const STATE_WANTSPACE: nat := 1

  type Argv = seq<Option<Text>>

  /** What the commands return: the last of the calls made so far decides with those before it. */
  type Commands = seq<Argv> -> int

  /** The argument vectors that shell_run has been called with, and what shell_execute returns. */
  datatype Outcome = Outcome(calls: seq<Argv>, ret: int)

  predicate EndsCommand(token: nat) {
    token == TOK_SEPARATOR || token == TOK_COMMENT || token == TOK_EOF
  }

  /** The loop of shell_execute after one token: done, or on with the next. */
  datatype Progress = Stop(outcome: Outcome) | On(state: nat, argv: Argv, calls: seq<Argv>)

  function Take(run: Commands, token: nat, strval: Option<Text>, state: nat, argv: Argv, calls: seq<Argv>): Progress {
    if EndsCommand(token) then
      var calls1 := if argv == [] then calls else calls + [argv];
      if argv != [] && run(calls1) == -1 then Stop(Outcome(calls1, -1))
      else if token == TOK_SEPARATOR then On(STATE_WANTSTR, [], calls1)
      else Stop(Outcome(calls1, 0))
    else if token == TOK_SPACE then On(STATE_WANTSTR, argv, calls)
    else if state == STATE_WANTSTR then On(STATE_WANTSPACE, argv + [strval], calls)
    else Stop(Outcome(calls, -1))
  }

  /** shell_execute, from the rest of the text on. */
  function Exec(run: Commands, sc: Condition, strval: Option<Text>, s: Text, state: nat, argv: Argv, calls: seq<Argv>): Outcome
    decreases |s|
  {
    var l := Lex(sc, strval, s);
    LexTiles(sc, strval, s);
    match Take(run, l.token, l.strval, state, argv, calls)
    case Stop(outcome) => outcome
    case On(state1, argv1, calls1) => Exec(run, l.condition, l.strval, l.rest, state1, argv1, calls1)
  }

  lemma {:induction false} ExecStep(run: Commands, sc: Condition, strval: Option<Text>, s: Text, state: nat, argv: Argv, calls: seq<Argv>, l: Lexed)
    requires l == Lex(sc, strval, s)
    ensures l.token <= 4
    ensures match Take(run, l.token, l.strval, state, argv, calls)
            case Stop(outcome) => Exec(run, sc, strval, s, state, argv, calls) == outcome
            case On(state1, argv1, calls1) =>
              && Exec(run, sc, strval, s, state, argv, calls) == Exec(run, l.condition, l.strval, l.rest, state1, argv1, calls1)
              && |l.rest| < |s|
  {
    LexTiles(sc, strval, s);
  }

  class Context {
    const run: Commands
    var strval: Option<Text>
    var calls: seq<Argv>  // the argument vectors handed to shell_run

    constructor (run: Commands)
      ensures this.run == run && strval == None && calls == []
    {
      this.run, this.strval, this.calls := run, None, [];
    }

    method ShellRun(argv: Argv) returns (ret: int)
      modifies `calls
      ensures calls == old(calls) + [argv] && ret == run(calls)
    {
      calls := calls + [argv];
      ret := run(calls);
    }

    /** What the loop does with a token. */
    method TakeToken(token: nat, state: nat, argv: Argv) returns (stop: bool, fret: int, state1: nat, argv1: Argv)
      requires token <= 4 && state <= 1
      modifies `calls
      ensures Take(run, token, strval, state, argv, old(calls)) == if stop then Stop(Outcome(calls, fret)) else On(state1, argv1, calls)
      ensures state1 <= 1
    {
      stop, fret, state1, argv1 := false, 0, state, argv;
      if EndsCommand(token) {
        if |argv| > 0 {
          var ret := ShellRun(argv);
          argv1 := [];
          if ret == -1 {
            return true, -1, state1, argv1;
          }
        }
        state1 := STATE_WANTSTR;
      } else if state == STATE_WANTSTR {
        if token == TOK_STRING {
          argv1 := argv + [strval];
          state1 := STATE_WANTSPACE;
        }
      } else if token == TOK_SPACE {
        state1 := STATE_WANTSTR;
      } else {
        return true, -1, state1, argv1;
      }
      stop := token == TOK_EOF || token == TOK_COMMENT;
    }

    /** shell_execute. */
    method ShellExecute(cmd: Text) returns (fret: int)
      requires NoNul(cmd)
      modifies this
      ensures Exec(run, Initial, old(strval), cmd, STATE_WANTSTR, [], old(calls)) == Outcome(calls, fret)
    {
      ghost var want := Exec(run, Initial, strval, cmd, STATE_WANTSTR, [], calls);
      var scanner := new Scanner(cmd, strval);
      assert cmd[0..] == cmd;
      var state, argv: Argv := STATE_WANTSTR, [];
      while true
        invariant scanner.pos <= |cmd| && scanner.text == cmd && fresh(scanner) && state <= 1
        invariant Exec(run, scanner.condition, scanner.strval, scanner.Rest(), state, argv, calls) == want
        decreases |cmd| - scanner.pos
      {
        ghost var sc, str, s := scanner.condition, scanner.strval, scanner.Rest();
        var token, texts := scanner.YyLex();
        strval := scanner.strval;
        ExecStep(run, sc, str, s, state, argv, calls, Lexed(token, strval, scanner.condition, scanner.Rest(), texts));
        var stop;
        stop, fret, state, argv := TakeToken(token, state, argv);
        if stop {
          return;
        }
      }
    }
  }

  // ----- printing commands

  const SPACE: Char := 32

  /** An argument as it is written: plain where it can be, if `plain` says so, and otherwise in
      quotes. */
  function Show(plain: bool, arg: Text): (r: Text)
    ensures r != [] && !IsSpace(r[0])
  {
    if plain && PlainWord(arg) then assert WordChar(arg[0]); arg else Quote(arg)
  }

  /** An argument that reads back from what is written. */
  predicate Showable(plain: bool, arg: Text) {
    Quotable(arg) || (plain && PlainWord(arg))
  }

  lemma {:induction false} ShowReadsBack(plain: bool, strval: Option<Text>, arg: Text, rest: Text)
    requires Showable(plain, arg) && Breaks(rest)
    ensures ReadsBack(Lex(Initial, strval, Show(plain, arg) + rest), arg, rest)
  {
    if plain && PlainWord(arg) {
      PlainReadsBack(strval, arg, rest, Show(plain, arg) + rest);
    } else {
      QuoteReadsBack(strval, arg, rest);
    }
  }

  /** The arguments, with a space between each two. */
  function PrintArgs(plain: bool, args: seq<Text>): (r: Text)
    requires args != []
    ensures r != [] && !IsSpace(r[0])
    decreases |args|
  {
    if |args| == 1 then Show(plain, args[0]) else Show(plain, args[0]) + [SPACE] + PrintArgs(plain, args[1..])
  }

  ghost predicate Commanding(cmds: seq<seq<Text>>) {
    forall i | 0 <= i < |cmds| :: cmds[i] != []
  }

  /** The commands, with a separator between each two. */
  function Print(plain: bool, cmds: seq<seq<Text>>): Text
    requires Commanding(cmds)
    decreases |cmds|
  {
    if cmds == [] then []
    else if |cmds| == 1 then PrintArgs(plain, cmds[0])
    else PrintArgs(plain, cmds[0]) + [SEMICOLON] + Print(plain, cmds[1..])
  }

  /** The argument vector of a command. */
  function Vector(args: seq<Text>): (r: Argv)
    ensures |r| == |args| && forall i | 0 <= i < |r| :: r[i] == Some(args[i])
  {
    seq(|args|, i requires 0 <= i < |args| => Some(args[i]))
  }

  /** Running the commands in order, up to and including the first that fails. */
  function RunAll(run: Commands, cmds: seq<seq<Text>>, calls: seq<Argv>): Outcome
    decreases |cmds|
  {
    if cmds == [] then Outcome(calls, 0)
    else
      var calls1 := calls + [Vector(cmds[0])];
      if run(calls1) == -1 then Outcome(calls1, -1) else RunAll(run, cmds[1..], calls1)
  }

  ghost predicate ShowableArgs(plain: bool, args: seq<Text>) {
    forall i | 0 <= i < |args| :: Showable(plain, args[i])
  }

  ghost predicate AllShowable(plain: bool, cmds: seq<seq<Text>>) {
    forall i | 0 <= i < |cmds| :: ShowableArgs(plain, cmds[i])
  }

  /** A separator, and a space before something else, are tokens of their own. */
  lemma {:induction false} LexSpace(strval: Option<Text>, rest: Text, s: Text)
    requires s == [SPACE] + rest && rest != [] && !IsSpace(rest[0])
    ensures Lex(Initial, strval, s) == Lexed(TOK_SPACE, strval, Initial, rest, [[SPACE]])
  {
    assert IsSpace(s[0]) && s[1] == rest[0] && !IsSpace(s[1]);
    assert SpanSpace(s, 0) == 1;
    assert s[..1] == [SPACE] && s[1..] == rest;
  }

  lemma {:induction false} LexSeparator(strval: Option<Text>, rest: Text, s: Text)
    requires s == [SEMICOLON] + rest
    ensures Lex(Initial, strval, s) == Lexed(TOK_SEPARATOR, strval, Initial, rest, [[SEMICOLON]])
  {
    assert s[..1] == [SEMICOLON] && s[1..] == rest;
  }

  /** One argument is read, and appended. */
  lemma {:induction false} ExecArg(plain: bool, run: Commands, strval: Option<Text>, arg: Text, rest: Text, argv: Argv, calls: seq<Argv>)
    requires Showable(plain, arg) && Breaks(rest)
    ensures Exec(run, Initial, strval, Show(plain, arg) + rest, STATE_WANTSTR, argv, calls)
         == Exec(run, Initial, Some(arg), rest, STATE_WANTSPACE, argv + [Some(arg)], calls)
  {
    ShowReadsBack(plain, strval, arg, rest);
    ExecStep(run, Initial, strval, Show(plain, arg) + rest, STATE_WANTSTR, argv, calls, Lex(Initial, strval, Show(plain, arg) + rest));
  }

  lemma {:induction false} ExecSpace(run: Commands, strval: Option<Text>, rest: Text, s: Text, argv: Argv, calls: seq<Argv>)
    requires s == [SPACE] + rest && rest != [] && !IsSpace(rest[0])
    ensures Exec(run, Initial, strval, s, STATE_WANTSPACE, argv, calls) == Exec(run, Initial, strval, rest, STATE_WANTSTR, argv, calls)
  {
    LexSpace(strval, rest, s);
    ExecStep(run, Initial, strval, s, STATE_WANTSPACE, argv, calls, Lex(Initial, strval, s));
  }

  lemma {:induction false} ExecArgSpace(plain: bool, run: Commands, strval: Option<Text>, arg: Text, more: Text, s: Text, argv: Argv, calls: seq<Argv>)
    requires Showable(plain, arg) && more != [] && !IsSpace(more[0]) && s == Show(plain, arg) + [SPACE] + more
    ensures Exec(run, Initial, strval, s, STATE_WANTSTR, argv, calls)
         == Exec(run, Initial, Some(arg), more, STATE_WANTSTR, argv + [Some(arg)], calls)
  {
    assert s == Show(plain, arg) + ([SPACE] + more);
    ExecArg(plain, run, strval, arg, [SPACE] + more, argv, calls);
    ExecSpace(run, Some(arg), more, [SPACE] + more, argv + [Some(arg)], calls);
  }

  lemma {:induction false} ArgsAfterFirst(plain: bool, args: seq<Text>)
    requires |args| > 1 && ShowableArgs(plain, args)
    ensures args[1..] != [] && ShowableArgs(plain, args[1..]) && args[1..][|args[1..]| - 1] == args[|args| - 1]
  {
  }

  lemma {:induction false} PrintArgsFirst(plain: bool, args: seq<Text>, rest: Text, more: Text)
    requires |args| > 1 && more == PrintArgs(plain, args[1..]) + rest
    ensures PrintArgs(plain, args) + rest == Show(plain, args[0]) + [SPACE] + more
    ensures more != [] && !IsSpace(more[0])
  {
  }

  lemma {:induction false} VectorFirst(args: seq<Text>, argv: Argv)
    requires args != []
    ensures argv + [Some(args[0])] + Vector(args[1..]) == argv + Vector(args)
  {
  }

  lemma {:induction false} ExecLastArg(plain: bool, run: Commands, strval: Option<Text>, args: seq<Text>, rest: Text, argv: Argv, calls: seq<Argv>, v: Argv)
    requires |args| == 1 && ShowableArgs(plain, args) && Breaks(rest) && v == argv + Vector(args)
    ensures Exec(run, Initial, strval, PrintArgs(plain, args) + rest, STATE_WANTSTR, argv, calls)
         == Exec(run, Initial, Some(args[0]), rest, STATE_WANTSPACE, v, calls)
  {
    assert v == argv + [Some(args[0])];
    ExecArg(plain, run, strval, args[0], rest, argv, calls);
  }

  /** The arguments of a command are collected in order. */
  lemma {:induction false} ExecArgs(plain: bool, run: Commands, strval: Option<Text>, args: seq<Text>, rest: Text, argv: Argv, calls: seq<Argv>, v: Argv)
    requires args != [] && ShowableArgs(plain, args) && Breaks(rest) && v == argv + Vector(args)
    ensures Exec(run, Initial, strval, PrintArgs(plain, args) + rest, STATE_WANTSTR, argv, calls)
         == Exec(run, Initial, Some(args[|args| - 1]), rest, STATE_WANTSPACE, v, calls)
    decreases |args|
  {
    if |args| == 1 {
      ExecLastArg(plain, run, strval, args, rest, argv, calls, v);
    } else {
      var more, argv1 := PrintArgs(plain, args[1..]) + rest, argv + [Some(args[0])];
      ArgsAfterFirst(plain, args);
      VectorFirst(args, argv);
      PrintArgsFirst(plain, args, rest, more);
      ExecArgSpace(plain, run, strval, args[0], more, PrintArgs(plain, args) + rest, argv, calls);
      ExecArgs(plain, run, Some(args[0]), args[1..], rest, argv1, calls, v);
    }
  }

  /** At the end of the text, or at a separator, the collected command is run. */
  lemma {:induction false} ExecEnd(run: Commands, strval: Option<Text>, argv: Argv, calls: seq<Argv>)
    requires argv != []
    ensures Exec(run, Initial, strval, [], STATE_WANTSPACE, argv, calls) == Outcome(calls + [argv], if run(calls + [argv]) == -1 then -1 else 0)
  {
    ExecStep(run, Initial, strval, [], STATE_WANTSPACE, argv, calls, Lex(Initial, strval, []));
  }

  lemma {:induction false} ExecSeparator(run: Commands, strval: Option<Text>, rest: Text, s: Text, argv: Argv, calls: seq<Argv>)
    requires s == [SEMICOLON] + rest && argv != []
    ensures Exec(run, Initial, strval, s, STATE_WANTSPACE, argv, calls)
         == if run(calls + [argv]) == -1 then Outcome(calls + [argv], -1)
            else Exec(run, Initial, strval, rest, STATE_WANTSTR, [], calls + [argv])
  {
    LexSeparator(strval, rest, s);
    ExecStep(run, Initial, strval, s, STATE_WANTSPACE, argv, calls, Lex(Initial, strval, s));
  }

  /** A whole command is run with its argument vector. */
  lemma {:induction false} ExecCommand(plain: bool, run: Commands, strval: Option<Text>, args: seq<Text>, rest: Text, calls: seq<Argv>, last: bool, tail: Text,
                                       calls1: seq<Argv>)
    requires args != [] && ShowableArgs(plain, args) && tail == (if last then [] else [SEMICOLON] + rest) && calls1 == calls + [Vector(args)]
    ensures Exec(run, Initial, strval, PrintArgs(plain, args) + tail, STATE_WANTSTR, [], calls)
         == if run(calls1) == -1 then Outcome(calls1, -1) else if last then Outcome(calls1, 0)
            else Exec(run, Initial, Some(args[|args| - 1]), rest, STATE_WANTSTR, [], calls1)
  {
    assert [] + Vector(args) == Vector(args);
    ExecArgs(plain, run, strval, args, tail, [], calls, Vector(args));
    if last {
      ExecEnd(run, Some(args[|args| - 1]), Vector(args), calls);
    } else {
      ExecSeparator(run, Some(args[|args| - 1]), rest, tail, Vector(args), calls);
    }
  }

  lemma {:induction false} ExecNothing(run: Commands, strval: Option<Text>, calls: seq<Argv>)
    ensures Exec(run, Initial, strval, [], STATE_WANTSTR, [], calls) == Outcome(calls, 0)
  {
    ExecStep(run, Initial, strval, [], STATE_WANTSTR, [], calls, Lex(Initial, strval, []));
  }

  /** The text of the first command, and of those behind it. */
  lemma {:induction false} PrintFirst(plain: bool, cmds: seq<seq<Text>>, tail: Text)
    requires Commanding(cmds) && cmds != [] && tail == (if |cmds| == 1 then [] else [SEMICOLON] + Print(plain, cmds[1..]))
    ensures Print(plain, cmds) == PrintArgs(plain, cmds[0]) + tail
  {
  }

  /** The printed text of commands whose arguments all read back calls exactly those argument
      vectors, in order, up to and including the first that fails. */
  lemma {:induction false} ExecPrinted(plain: bool, run: Commands, strval: Option<Text>, cmds: seq<seq<Text>>, calls: seq<Argv>)
    requires Commanding(cmds) && AllShowable(plain, cmds)
    ensures Exec(run, Initial, strval, Print(plain, cmds), STATE_WANTSTR, [], calls) == RunAll(run, cmds, calls)
    decreases |cmds|
  {
    if cmds == [] {
      ExecNothing(run, strval, calls);
    } else {
      var args, more := cmds[0], Print(plain, cmds[1..]);
      var tail, calls1 := if |cmds| == 1 then [] else [SEMICOLON] + more, calls + [Vector(args)];
      PrintFirst(plain, cmds, tail);
      ExecCommand(plain, run, strval, args, more, calls, |cmds| == 1, tail, calls1);
      if |cmds| > 1 {
        ExecPrinted(plain, run, Some(args[|args| - 1]), cmds[1..], calls1);
      }
    }
  }

  // ----- texts that do not run back

  function Vectors(cmds: seq<seq<Text>>): (r: seq<Argv>)
    ensures |r| == |cmds| && forall i | 0 <= i < |r| :: r[i] == Vector(cmds[i])
  {
    seq(|cmds|, i requires 0 <= i < |cmds| => Vector(cmds[i]))
  }

  ghost predicate NeverFails(run: Commands) {
    forall calls: seq<Argv> :: run(calls) != -1
  }

  lemma {:induction false} VectorsFirst(cmds: seq<seq<Text>>, calls: seq<Argv>)
    requires cmds != []
    ensures calls + [Vector(cmds[0])] + Vectors(cmds[1..]) == calls + Vectors(cmds)
  {
  }

  lemma {:induction false} RunsAll(run: Commands, cmds: seq<seq<Text>>, calls: seq<Argv>)
    requires NeverFails(run)
    ensures RunAll(run, cmds, calls) == Outcome(calls + Vectors(cmds), 0)
    decreases |cmds|
  {
    if cmds == [] {
      assert calls + Vectors(cmds) == calls;
    } else {
      RunsAll(run, cmds[1..], calls + [Vector(cmds[0])]);
      VectorsFirst(cmds, calls);
    }
  }

  /** Calls are only added, and the next one begins with the arguments collected so far. */
  ghost predicate Continues(o: Outcome, argv: Argv, calls: seq<Argv>) {
    calls <= o.calls && (|o.calls| > |calls| ==> argv <= o.calls[|calls|])
  }

  lemma {:induction false} ExecContinues(run: Commands, sc: Condition, strval: Option<Text>, s: Text, state: nat, argv: Argv, calls: seq<Argv>)
    ensures Continues(Exec(run, sc, strval, s, state, argv, calls), argv, calls)
    decreases |s|
  {
    var l := Lex(sc, strval, s);
    ExecStep(run, sc, strval, s, state, argv, calls, l);
    match Take(run, l.token, l.strval, state, argv, calls)
    case Stop(_) =>
    case On(state1, argv1, calls1) => ExecContinues(run, l.condition, l.strval, l.rest, state1, argv1, calls1);
  }

  /** The next call is not `v`, if there is one. */
  ghost predicate Misses(o: Outcome, calls: seq<Argv>, v: Argv) {
    calls <= o.calls && (|o.calls| > |calls| ==> o.calls[|calls|] != v)
  }

  /** An argument that does not read back is missing from the next call, or another string is in
      its place. */
  lemma {:induction false} ExecBadArg(plain: bool, run: Commands, strval: Option<Text>, arg: Text, rest: Text, argv: Argv, calls: seq<Argv>, v: Argv, s: Text)
    requires !Showable(plain, arg) && argv + [Some(arg)] <= v && s == Show(plain, arg) + rest
    ensures Misses(Exec(run, Initial, strval, s, STATE_WANTSTR, argv, calls), calls, v)
  {
    var l := Lex(Initial, strval, s);
    QuoteReadsBack(strval, arg, rest);
    ExecStep(run, Initial, strval, s, STATE_WANTSTR, argv, calls, l);
    assert v[|argv|] == (argv + [Some(arg)])[|argv|];
    if l.token == TOK_STRING {
      ExecContinues(run, Initial, l.strval, l.rest, STATE_WANTSPACE, argv + [l.strval], calls);
      assert (argv + [l.strval])[|argv|] == l.strval;
    }
  }

  lemma {:induction false} LaterBadArg(plain: bool, args: seq<Text>)
    requires args != [] && Showable(plain, args[0]) && !ShowableArgs(plain, args)
    ensures |args| > 1 && !ShowableArgs(plain, args[1..])
  {
    var i :| 0 <= i < |args| && !Showable(plain, args[i]);
    assert args[1..][i - 1] == args[i];
  }

  lemma {:induction false} ExecBadArgs(plain: bool, run: Commands, strval: Option<Text>, args: seq<Text>, rest: Text, argv: Argv, calls: seq<Argv>, v: Argv)
    requires args != [] && !ShowableArgs(plain, args) && v == argv + Vector(args)
    ensures Misses(Exec(run, Initial, strval, PrintArgs(plain, args) + rest, STATE_WANTSTR, argv, calls), calls, v)
    decreases |args|
  {
    if Showable(plain, args[0]) {
      LaterBadArg(plain, args);
      var more := PrintArgs(plain, args[1..]) + rest;
      PrintArgsFirst(plain, args, rest, more);
      ExecArgSpace(plain, run, strval, args[0], more, PrintArgs(plain, args) + rest, argv, calls);
      VectorFirst(args, argv);
      ExecBadArgs(plain, run, Some(args[0]), args[1..], rest, argv + [Some(args[0])], calls, v);
    } else {
      ExecBadFirstArg(plain, run, strval, args, rest, argv, calls, v);
    }
  }

  lemma {:induction false} ExecBadFirstArg(plain: bool, run: Commands, strval: Option<Text>, args: seq<Text>, rest: Text, argv: Argv, calls: seq<Argv>, v: Argv)
    requires args != [] && !Showable(plain, args[0]) && v == argv + Vector(args)
    ensures Misses(Exec(run, Initial, strval, PrintArgs(plain, args) + rest, STATE_WANTSTR, argv, calls), calls, v)
  {
    var tail := if |args| == 1 then rest else [SPACE] + PrintArgs(plain, args[1..]) + rest;
    ShownFirst(plain, args, rest, tail);
    ExecBadArg(plain, run, strval, args[0], tail, argv, calls, v, PrintArgs(plain, args) + rest);
  }

  lemma {:induction false} ShownFirst(plain: bool, args: seq<Text>, rest: Text, tail: Text)
    requires args != [] && tail == if |args| == 1 then rest else [SPACE] + PrintArgs(plain, args[1..]) + rest
    ensures PrintArgs(plain, args) + rest == Show(plain, args[0]) + tail
  {
  }

  lemma {:induction false} LaterBad(plain: bool, cmds: seq<seq<Text>>)
    requires cmds != [] && ShowableArgs(plain, cmds[0]) && !AllShowable(plain, cmds)
    ensures |cmds| > 1 && !AllShowable(plain, cmds[1..])
  {
    var i :| 0 <= i < |cmds| && !ShowableArgs(plain, cmds[i]);
    assert cmds[1..][i - 1] == cmds[i];
  }

  lemma {:induction false} MissesFirst(o: Outcome, calls: seq<Argv>, cmds: seq<seq<Text>>)
    requires cmds != [] && Misses(o, calls, Vector(cmds[0]))
    ensures o.calls != calls + Vectors(cmds)
  {
    assert (calls + Vectors(cmds))[|calls|] == Vector(cmds[0]);
  }

  /** A command with an argument that does not read back, at the front of the text. */
  lemma {:induction false} ExecBadFirst(plain: bool, run: Commands, strval: Option<Text>, cmds: seq<seq<Text>>, calls: seq<Argv>, tail: Text)
    requires Commanding(cmds) && cmds != [] && !ShowableArgs(plain, cmds[0])
    ensures Exec(run, Initial, strval, PrintArgs(plain, cmds[0]) + tail, STATE_WANTSTR, [], calls).calls != calls + Vectors(cmds)
  {
    assert [] + Vector(cmds[0]) == Vector(cmds[0]);
    ExecBadArgs(plain, run, strval, cmds[0], tail, [], calls, Vector(cmds[0]));
    MissesFirst(Exec(run, Initial, strval, PrintArgs(plain, cmds[0]) + tail, STATE_WANTSTR, [], calls), calls, cmds);
  }

  lemma {:induction false} ExecBadPrinted(plain: bool, run: Commands, strval: Option<Text>, cmds: seq<seq<Text>>, calls: seq<Argv>)
    requires Commanding(cmds) && !AllShowable(plain, cmds) && NeverFails(run)
    ensures Exec(run, Initial, strval, Print(plain, cmds), STATE_WANTSTR, [], calls).calls != calls + Vectors(cmds)
    decreases |cmds|
  {
    var args, more := cmds[0], Print(plain, cmds[1..]);
    var tail := if |cmds| == 1 then [] else [SEMICOLON] + more;
    PrintFirst(plain, cmds, tail);
    if ShowableArgs(plain, args) {
      var calls1 := calls + [Vector(args)];
      LaterBad(plain, cmds);
      ExecCommand(plain, run, strval, args, more, calls, false, tail, calls1);
      ExecBadPrinted(plain, run, Some(args[|args| - 1]), cmds[1..], calls1);
      VectorsFirst(cmds, calls);
    } else {
      ExecBadFirst(plain, run, strval, cmds, calls, tail);
    }
  }

  /** While no command fails, printing commands and running the text calls exactly those argument
      vectors if and only if every argument reads back: it is not empty, and it does not end in a
      backslash or is written plain. */
  lemma {:induction false} PrintedRunsBack(plain: bool, run: Commands, strval: Option<Text>, cmds: seq<seq<Text>>, calls: seq<Argv>)
    requires Commanding(cmds) && NeverFails(run)
    ensures Exec(run, Initial, strval, Print(plain, cmds), STATE_WANTSTR, [], calls).calls == calls + Vectors(cmds) <==> AllShowable(plain, cmds)
  {
    if AllShowable(plain, cmds) {
      ExecPrinted(plain, run, strval, cmds, calls);
      RunsAll(run, cmds, calls);
    } else {
      ExecBadPrinted(plain, run, strval, cmds, calls);
    }
  }
}
