/** Whole command texts as they are typed: any spaces between words, words plain or in quotes,
    empty commands, and a comment at the end. */
module Scripts {
  import opened Options
  import opened ShellTables
  import opened ShellLexer
  import opened Quoting
  import opened Shell

  /** An argument, how it is written, and the spaces before it. */
  datatype Word = Word(gap: Text, plain: bool, arg: Text)

  /** The arguments of a command, and the spaces behind them. */
  datatype Command = Command(words: seq<Word>, tail: Text)

  function WordsText(ws: seq<Word>): Text
    decreases |ws|
  {
    if ws == [] then [] else ws[0].gap + Show(ws[0].plain, ws[0].arg) + WordsText(ws[1..])
  }

  function ArgsOf(ws: seq<Word>): (r: seq<Text>)
    ensures |r| == |ws| && forall i | 0 <= i < |r| :: r[i] == ws[i].arg
  {
    seq(|ws|, i requires 0 <= i < |ws| => ws[i].arg)
  }

  /** Every argument can be written as it is, and only the first may have no space before it. */
  ghost predicate Written(ws: seq<Word>, spaced: bool) {
    forall i | 0 <= i < |ws| :: Showable(ws[i].plain, ws[i].arg) && AllSpace(ws[i].gap) && (i > 0 || spaced ==> ws[i].gap != [])
  }

  /** What comes behind the last command. */
  function Ending(comment: Option<Text>): Text {
    match comment
    case None => []
    case Some(t) => [HASH] + t
  }

  /** The commands with separators between them, and a comment behind them, if there is one. */
  function Script(cmds: seq<Command>, comment: Option<Text>): Text
    requires cmds != []
    decreases |cmds|
  {
    WordsText(cmds[0].words) + cmds[0].tail
    + (if |cmds| == 1 then Ending(comment) else [SEMICOLON] + Script(cmds[1..], comment))
  }

  ghost predicate WellWritten(cmds: seq<Command>) {
    forall i | 0 <= i < |cmds| :: Written(cmds[i].words, false) && AllSpace(cmds[i].tail)
  }

  /** The argument lists of the commands that have any. */
  function Calling(cmds: seq<Command>): seq<seq<Text>>
    decreases |cmds|
  {
    if cmds == [] then [] else (if cmds[0].words == [] then [] else [ArgsOf(cmds[0].words)]) + Calling(cmds[1..])
  }

  // ----- spaces and comments

  lemma {:induction false} SpacesEnd(s: Text, k: nat, n: nat)
    requires k <= n <= |s| && (forall i | k <= i < n :: IsSpace(s[i])) && (n < |s| ==> !IsSpace(s[n]))
    ensures SpanSpace(s, k) == n
    decreases n - k
  {
    if k < n {
      SpacesEnd(s, k + 1, n);
    }
  }

  /** Any number of spaces is one token. */
  lemma {:induction false} LexGap(strval: Option<Text>, gap: Text, rest: Text, s: Text)
    requires gap != [] && AllSpace(gap) && (rest == [] || !IsSpace(rest[0])) && s == gap + rest
    ensures Lex(Initial, strval, s) == Lexed(TOK_SPACE, strval, Initial, rest, [gap])
  {
    assert forall i | 0 <= i < |gap| :: s[i] == gap[i] && IsSpace(gap[i]);
    SpacesEnd(s, 0, |gap|);
    assert s[..|gap|] == gap && s[|gap|..] == rest;
  }

  /** Spaces let the next argument begin. */
  lemma {:induction false} ExecGap(run: Commands, strval: Option<Text>, gap: Text, rest: Text, s: Text, state: nat, argv: Argv, calls: seq<Argv>)
    requires gap != [] && AllSpace(gap) && (rest == [] || !IsSpace(rest[0])) && s == gap + rest
    ensures Exec(run, Initial, strval, s, state, argv, calls) == Exec(run, Initial, strval, rest, STATE_WANTSTR, argv, calls)
  {
    LexGap(strval, gap, rest, s);
    ExecStep(run, Initial, strval, s, state, argv, calls, Lex(Initial, strval, s));
  }

  lemma {:induction false} LexComment(strval: Option<Text>, t: Text, s: Text)
    requires s == [HASH] + t
    ensures Lex(Initial, strval, s) == Lexed(TOK_COMMENT, strval, Initial, t, [[HASH]])
  {
    assert s[..1] == [HASH] && s[1..] == t;
  }

  // ----- the words of a command

  /** What is behind a word lets it end. */
  ghost predicate Ends(rest: Text) {
    rest == [] || rest[0] == SEMICOLON || rest[0] == HASH
  }

  lemma {:induction false} TextBreaks(ws: seq<Word>, tail: Text, rest: Text, s: Text)
    requires Written(ws, true) && AllSpace(tail) && Ends(rest) && s == WordsText(ws) + tail + rest
    ensures Breaks(s)
  {
    if ws != [] {
      assert IsSpace(ws[0].gap[0]) && s[0] == ws[0].gap[0];
    } else if tail != [] {
      assert IsSpace(tail[0]) && s[0] == tail[0];
    }
  }

  lemma {:induction false} WrittenRest(ws: seq<Word>, spaced: bool)
    requires ws != [] && Written(ws, spaced)
    ensures Written(ws[1..], true)
  {
    forall i | 0 <= i < |ws[1..]|
      ensures Showable(ws[1..][i].plain, ws[1..][i].arg) && AllSpace(ws[1..][i].gap) && ws[1..][i].gap != []
    {
      assert ws[1..][i] == ws[i + 1];
    }
  }

  lemma {:induction false} VectorOfWords(ws: seq<Word>, argv: Argv)
    requires ws != []
    ensures argv + [Some(ws[0].arg)] + Vector(ArgsOf(ws[1..])) == argv + Vector(ArgsOf(ws))
  {
  }

  /** One word is read and appended, whatever spaces are before it. */
  lemma {:induction false} ExecWord(run: Commands, strval: Option<Text>, w: Word, more: Text, s: Text, state: nat, argv: Argv, calls: seq<Argv>)
    requires Showable(w.plain, w.arg) && AllSpace(w.gap) && (w.gap != [] || state == STATE_WANTSTR) && Breaks(more)
    requires s == w.gap + Show(w.plain, w.arg) + more
    ensures Exec(run, Initial, strval, s, state, argv, calls)
         == Exec(run, Initial, Some(w.arg), more, STATE_WANTSPACE, argv + [Some(w.arg)], calls)
  {
    var x := Show(w.plain, w.arg) + more;
    if w.gap != [] {
      assert s == w.gap + x;
      ExecGap(run, strval, w.gap, x, s, state, argv, calls);
    } else {
      assert s == x;
    }
    ExecArg(w.plain, run, strval, w.arg, more, argv, calls);
  }

  lemma {:induction false} WordsFirst(ws: seq<Word>, tail: Text, rest: Text, more: Text)
    requires ws != [] && more == WordsText(ws[1..]) + tail + rest
    ensures WordsText(ws) + tail + rest == ws[0].gap + Show(ws[0].plain, ws[0].arg) + more
  {
  }

  /** The words of a command are collected in order; `v` are all the arguments in the end. */
  lemma {:induction false} ExecWords(run: Commands, strval: Option<Text>, ws: seq<Word>, tail: Text, rest: Text, s: Text, state: nat, argv: Argv,
                                     calls: seq<Argv>, v: Argv)
      returns (str: Option<Text>, state1: nat)
    requires Written(ws, state != STATE_WANTSTR) && AllSpace(tail) && Ends(rest) && s == WordsText(ws) + tail + rest
    requires v == argv + Vector(ArgsOf(ws))
    ensures Exec(run, Initial, strval, s, state, argv, calls) == Exec(run, Initial, str, tail + rest, state1, v, calls)
    decreases |ws|
  {
    str, state1 := strval, state;
    if ws == [] {
      assert s == tail + rest && v == argv;
    } else {
      var more := WordsText(ws[1..]) + tail + rest;
      WrittenRest(ws, state != STATE_WANTSTR);
      TextBreaks(ws[1..], tail, rest, more);
      WordsFirst(ws, tail, rest, more);
      ExecWord(run, strval, ws[0], more, s, state, argv, calls);
      VectorOfWords(ws, argv);
      str, state1 := ExecWords(run, Some(ws[0].arg), ws[1..], tail, rest, more, STATE_WANTSPACE, argv + [Some(ws[0].arg)], calls, v);
    }
  }

  /** The spaces behind the words do nothing. */
  lemma {:induction false} ExecTail(run: Commands, strval: Option<Text>, tail: Text, rest: Text, state: nat, argv: Argv, calls: seq<Argv>)
      returns (state1: nat)
    requires AllSpace(tail) && Ends(rest)
    ensures Exec(run, Initial, strval, tail + rest, state, argv, calls) == Exec(run, Initial, strval, rest, state1, argv, calls)
  {
    state1 := state;
    if tail != [] {
      ExecGap(run, strval, tail, rest, tail + rest, state, argv, calls);
      state1 := STATE_WANTSTR;
    } else {
      assert tail + rest == rest;
    }
  }

  // ----- the ends of commands

  /** The calls after a command with these arguments, which is none without any. */
  function Called(calls: seq<Argv>, argv: Argv): seq<Argv> {
    if argv == [] then calls else calls + [argv]
  }

  predicate Failing(run: Commands, calls: seq<Argv>, argv: Argv) {
    argv != [] && run(calls + [argv]) == -1
  }

  /** At the end of the text and at a comment the collected command is run, and nothing more. */
  lemma {:induction false} ExecEnding(run: Commands, strval: Option<Text>, comment: Option<Text>, state: nat, argv: Argv, calls: seq<Argv>)
    ensures Exec(run, Initial, strval, Ending(comment), state, argv, calls)
         == Outcome(Called(calls, argv), if Failing(run, calls, argv) then -1 else 0)
  {
    var s := Ending(comment);
    if comment.Some? {
      LexComment(strval, comment.value, s);
    }
    ExecStep(run, Initial, strval, s, state, argv, calls, Lex(Initial, strval, s));
  }

  lemma {:induction false} ExecSemicolon(run: Commands, strval: Option<Text>, rest: Text, s: Text, state: nat, argv: Argv, calls: seq<Argv>)
    requires s == [SEMICOLON] + rest
    ensures Exec(run, Initial, strval, s, state, argv, calls)
         == if Failing(run, calls, argv) then Outcome(Called(calls, argv), -1)
            else Exec(run, Initial, strval, rest, STATE_WANTSTR, [], Called(calls, argv))
  {
    LexSeparator(strval, rest, s);
    ExecStep(run, Initial, strval, s, state, argv, calls, Lex(Initial, strval, s));
  }

  /** One command with what is behind it. */
  lemma {:induction false} ExecOne(run: Commands, strval: Option<Text>, cmd: Command, rest: Text, s: Text, calls: seq<Argv>)
      returns (str: Option<Text>, state: nat)
    requires Written(cmd.words, false) && AllSpace(cmd.tail) && Ends(rest) && s == WordsText(cmd.words) + cmd.tail + rest
    ensures Exec(run, Initial, strval, s, STATE_WANTSTR, [], calls) == Exec(run, Initial, str, rest, state, Vector(ArgsOf(cmd.words)), calls)
  {
    var v := Vector(ArgsOf(cmd.words));
    assert [] + v == v;
    var state0;
    str, state0 := ExecWords(run, strval, cmd.words, cmd.tail, rest, s, STATE_WANTSTR, [], calls, v);
    state := ExecTail(run, str, cmd.tail, rest, state0, v, calls);
  }

  lemma {:induction false} CallingFirst(run: Commands, cmds: seq<Command>, calls: seq<Argv>)
    requires cmds != []
    ensures var v := Vector(ArgsOf(cmds[0].words));
            RunAll(run, Calling(cmds), calls) ==
              if Failing(run, calls, v) then Outcome(Called(calls, v), -1) else RunAll(run, Calling(cmds[1..]), Called(calls, v))
  {
    var rest := Calling(cmds[1..]);
    if cmds[0].words == [] {
      assert Calling(cmds) == rest;
    } else {
      assert Calling(cmds)[1..] == rest && Calling(cmds)[0] == ArgsOf(cmds[0].words);
    }
  }

  /** A text of commands calls shell_run with exactly the argument lists that are written there, in
      order, up to and including the first that fails. Spaces and how the words are written make
      no difference, commands without words are no calls, and a comment ends the text. */
  lemma {:induction false} ScriptRuns(run: Commands, strval: Option<Text>, cmds: seq<Command>, comment: Option<Text>, calls: seq<Argv>)
    requires cmds != [] && WellWritten(cmds)
    ensures Exec(run, Initial, strval, Script(cmds, comment), STATE_WANTSTR, [], calls) == RunAll(run, Calling(cmds), calls)
    decreases |cmds|
  {
    var s, v := Script(cmds, comment), Vector(ArgsOf(cmds[0].words));
    CallingFirst(run, cmds, calls);
    if |cmds| == 1 {
      var str, state := ExecOne(run, strval, cmds[0], Ending(comment), s, calls);
      ExecEnding(run, str, comment, state, v, calls);
      assert Calling(cmds[1..]) == [];
    } else {
      var rest := Script(cmds[1..], comment);
      var str, state := ExecOne(run, strval, cmds[0], [SEMICOLON] + rest, s, calls);
      ExecSemicolon(run, str, rest, [SEMICOLON] + rest, state, v, calls);
      ScriptRuns(run, str, cmds[1..], comment, Called(calls, v));
    }
  }

  /** Two words without a space between them are refused, and their command is not run. */
  lemma {:induction false} TouchingIsRefused(run: Commands, strval: Option<Text>, plain: bool, arg: Text, next: Text, rest: Text, argv: Argv,
                                             calls: seq<Argv>)
    requires Showable(plain, arg) && Quotable(next)
    ensures Exec(run, Initial, strval, Show(plain, arg) + (Quote(next) + rest), STATE_WANTSTR, argv, calls) == Outcome(calls, -1)
  {
    var more := Quote(next) + rest;
    assert more[0] == QUOTE;
    ExecArg(plain, run, strval, arg, more, argv, calls);
    QuoteReadsBack(Some(arg), next, rest);
    ExecStep(run, Initial, Some(arg), more, STATE_WANTSPACE, argv + [Some(arg)], calls, Lex(Initial, Some(arg), more));
  }
}
