/** The shell's scanner: the match loop over the compressed tables, the actions of the rules,
    and the grammar of tokens they implement. */
module ShellLexer {
  import opened Options
  import opened ShellTables

  type Text = seq<Char>

  /** The two start conditions. */
  datatype Condition = Initial | Quoted

  // ----- the grammar of tokens

  predicate IsPlain(c: Char) {
    !IsSpace(c) && c != SEMICOLON && c != QUOTE && c != HASH
  }

  predicate IsInner(c: Char) {
    c != BACKSLASH && c != QUOTE
  }

  ghost predicate AllPlain(t: Text) {
    forall i | 0 <= i < |t| :: IsPlain(t[i])
  }

  ghost predicate AllSpace(t: Text) {
    forall i | 0 <= i < |t| :: IsSpace(t[i])
  }

  ghost predicate AllInner(t: Text) {
    forall i | 0 <= i < |t| :: IsInner(t[i])
  }

  /** The rules, in the order of the scanner's description: five in the initial condition, four
      within quotes. */
  ghost predicate Matches(sc: Condition, rule: nat, t: Text) {
    match sc
    case Initial =>
      if rule == 1 then t == [QUOTE]
      else if rule == 2 then t == [SEMICOLON]
      else if rule == 3 then t != [] && AllSpace(t)
      else if rule == 4 then t == [HASH]
      else rule == 5 && t != [] && AllPlain(t)
    case Quoted =>
      if rule == 6 then t != [] && AllInner(t)
      else if rule == 7 then t == [BACKSLASH, QUOTE]
      else if rule == 8 then t == [BACKSLASH]
      else rule == 9 && t == [QUOTE]
  }

  /** The longest match at the beginning of `s`: no rule matches anything longer. */
  ghost predicate IsMunch(sc: Condition, s: Text, rule: nat, len: nat) {
    && 0 < len <= |s| && Matches(sc, rule, s[..len])
    && forall k, r: nat | len < k <= |s| :: !Matches(sc, r, s[..k])
  }

  /** At most one rule matches a text, so the longest match is unique. */
  lemma {:induction false} MunchUnique(sc: Condition, s: Text, r1: nat, l1: nat, r2: nat, l2: nat)
    requires IsMunch(sc, s, r1, l1) && IsMunch(sc, s, r2, l2)
    ensures r1 == r2 && l1 == l2
  {
    assert l1 == l2;
    var t := s[..l1];
    assert Matches(sc, r1, t) && Matches(sc, r2, t) && t[0] == s[0];
  }

  // ----- what the states stand for

  function StartOf(sc: Condition): State {
    if sc == Initial then 1 else 3
  }

  function RuleOf(q: State): nat {
    if q == 5 then 11 else if q == 6 || q == 14 then 5 else if q == 7 || q == 15 then 3 else if q == 8 then 1
    else if q == 9 then 4 else if q == 10 then 2 else if q == 11 || q == 16 then 6 else if q == 12 then 9
    else if q == 13 then 8 else if q == 17 then 7 else 0
  }

  lemma {:induction false} AcceptIsRule(q: State)
    requires q <= 18
    ensures YY_ACCEPT[q] == RuleOf(q)
  {
  }

  /** State `q` has been reached by reading `t`. */
  ghost predicate StateMeans(sc: Condition, q: State, t: Text) {
    if t == [] then q == StartOf(sc) else 6 <= q <= 17 && Matches(sc, RuleOf(q), t)
  }

  /** No rule matches anything that begins with `t` and `c`. */
  ghost predicate NoMore(sc: Condition, t: Text, c: Char) {
    forall u: Text, r: nat :: !Matches(sc, r, t + [c] + u)
  }

  lemma {:induction false} StepMeans(sc: Condition, q: State, t: Text, c: Char, next: State)
    requires StateMeans(sc, q, t) && c != NUL && next == Delta(q, ClassOf(c))
    ensures if next == 18 then t != [] && NoMore(sc, t, c) else StateMeans(sc, next, t + [c])
  {
    if next == 18 {
      forall u: Text, r: nat ensures !Matches(sc, r, t + [c] + u) {
        var x := t + [c] + u;
        assert x[0] == t[0] && x[|t|] == c;
      }
    }
  }

  ghost predicate NoNul(s: Text) {
    forall i | 0 <= i < |s| :: s[i] != NUL
  }

  /** The scan of `text[bp..cp]` has come to state `q`. At the end the two end-of-buffer
      characters follow. */
  ghost predicate Scanning(sc: Condition, text: Text, bp: nat, cp: nat, q: State) {
    && bp <= |text| && bp <= cp <= |text| + 1 && Reading(q)
    && if cp <= |text| then StateMeans(sc, q, text[bp..cp]) else q == 5 && Whole(sc, text[bp..])
  }

  /** The whole rest is, or begins, a token. */
  ghost predicate Whole(sc: Condition, rest: Text) {
    exists q: State :: StateMeans(sc, q, rest)
  }

  /** What the match loop finds: the end of the buffer, if no shorter match is the longest, and
      otherwise that match. */
  ghost predicate Found(sc: Condition, text: Text, bp: nat, q: State, cp: nat) {
    && bp <= |text|
    && if q == 5 then cp == |text| + 1 && Whole(sc, text[bp..])
       else bp < cp <= |text| && 6 <= q <= 17 && IsMunch(sc, text[bp..], RuleOf(q), cp - bp)
  }

  lemma {:induction false} LongestFound(sc: Condition, text: Text, bp: nat, cp: nat, q: State)
    requires bp < cp < |text| && StateMeans(sc, q, text[bp..cp]) && NoMore(sc, text[bp..cp], text[cp])
    ensures Found(sc, text, bp, q, cp)
  {
    var rest, t := text[bp..], text[bp..cp];
    assert rest[..cp - bp] == t;
    forall k, r: nat | cp - bp < k <= |rest| ensures !Matches(sc, r, rest[..k]) {
      assert rest[..k] == t + [text[cp]] + rest[cp - bp + 1..k];
    }
  }

  /** The character at `i` of the buffer. */
  function CharAt(text: Text, i: nat): Char {
    if i < |text| then text[i] else NUL
  }

  /** One round of the match loop. */
  lemma {:induction false} ScanStep(sc: Condition, text: Text, bp: nat, cp: nat, cp1: nat, q: State, next: State)
    requires Scanning(sc, text, bp, cp, q) && NoNul(text) && next == Delta(q, ClassOf(CharAt(text, cp))) && cp1 == cp + 1
    ensures if next == 18 then RuleOf(q) != 0 && Found(sc, text, bp, q, cp) else Scanning(sc, text, bp, cp1, next)
  {
    if cp < |text| {
      StepMeans(sc, q, text[bp..cp], text[cp], next);
      if next == 18 {
        LongestFound(sc, text, bp, cp, q);
      } else {
        assert text[bp..cp] + [text[cp]] == text[bp..cp1];
      }
    } else if cp == |text| {
      assert text[bp..cp] == text[bp..];
    }
  }

  /** Going over the buffer once more, as the scanner does when its end has been reached. */
  lemma {:induction false} StaysWhole(sc: Condition, rest: Text, k: nat, q: State, next: State)
    requires Whole(sc, rest) && NoNul(rest) && k < |rest| && StateMeans(sc, q, rest[..k]) && next == Delta(q, ClassOf(rest[k]))
    ensures StateMeans(sc, next, rest[..k + 1])
  {
    StepMeans(sc, q, rest[..k], rest[k], next);
    assert rest[..k] + [rest[k]] == rest[..k + 1];
    var last: State :| StateMeans(sc, last, rest);
    assert rest == rest[..k] + [rest[k]] + rest[k + 1..];
  }

  // ----- the plain scanner

  function SpanSpace(s: Text, k: nat): (r: nat)
    requires k <= |s|
    ensures k <= r <= |s| && (forall i | k <= i < r :: IsSpace(s[i])) && (r < |s| ==> !IsSpace(s[r]))
    decreases |s| - k
  {
    if k < |s| && IsSpace(s[k]) then SpanSpace(s, k + 1) else k
  }

  function SpanPlain(s: Text, k: nat): (r: nat)
    requires k <= |s|
    ensures k <= r <= |s| && (forall i | k <= i < r :: IsPlain(s[i])) && (r < |s| ==> !IsPlain(s[r]))
    decreases |s| - k
  {
    if k < |s| && IsPlain(s[k]) then SpanPlain(s, k + 1) else k
  }

  function SpanInner(s: Text, k: nat): (r: nat)
    requires k <= |s|
    ensures k <= r <= |s| && (forall i | k <= i < r :: IsInner(s[i])) && (r < |s| ==> !IsInner(s[r]))
    decreases |s| - k
  {
    if k < |s| && IsInner(s[k]) then SpanInner(s, k + 1) else k
  }

  /** The rule that applies at the beginning of `s`, and how far it reaches. */
  function Munch(sc: Condition, s: Text): (r: (nat, nat))
    requires s != []
    ensures 0 < r.1 <= |s| && 1 <= r.0 <= 9 && (r.0 >= 6 <==> sc == Quoted)
  {
    match sc
    case Initial =>
      if s[0] == QUOTE then (1, 1) else if s[0] == SEMICOLON then (2, 1) else if s[0] == HASH then (4, 1)
      else if IsSpace(s[0]) then (3, SpanSpace(s, 0)) else (5, SpanPlain(s, 0))
    case Quoted =>
      if s[0] == QUOTE then (9, 1)
      else if s[0] == BACKSLASH then (if |s| > 1 && s[1] == QUOTE then (7, 2) else (8, 1))
      else (6, SpanInner(s, 0))
  }

  /** It is the longest match. */
  lemma {:induction false} MunchIsLongest(sc: Condition, s: Text)
    requires s != []
    ensures IsMunch(sc, s, Munch(sc, s).0, Munch(sc, s).1)
  {
    var rule, len := Munch(sc, s).0, Munch(sc, s).1;
    forall k, r: nat | len < k <= |s| ensures !Matches(sc, r, s[..k]) {
      assert s[..k][0] == s[0] && s[..k][len] == s[len];
    }
  }

  const TOK_EOF: nat := 0
  const TOK_SEPARATOR: nat := 1
  const TOK_STRING: nat := 2
  const TOK_SPACE: nat := 3
  const TOK_COMMENT: nat := 4

  /** What a call of the scanner returns and leaves behind: the token, the string, the start
      condition, the text that is left, and the texts that were matched on the way. */
  datatype Lexed = Lexed(token: nat, strval: Option<Text>, condition: Condition, rest: Text, texts: seq<Text>)

  /** str_append. */
  function Append(str: Option<Text>, src: Text): Option<Text> {
    match str
    case None => Some(src)
    case Some(s) => Some(s + src)
  }

  function Before(t: Text, l: Lexed): Lexed {
    l.(texts := [t] + l.texts)
  }

  /** The string after the action of a rule that goes on scanning. */
  function StringAfter(rule: nat, strval: Option<Text>, t: Text): Option<Text> {
    if rule == 1 then None else if rule == 6 then Append(strval, t)
    else if rule == 7 then Append(strval, [QUOTE]) else Append(strval, [BACKSLASH])
  }

  /** What a rule returns to the parser, for the rules that do. */
  function Return(rule: nat, strval: Option<Text>, t: Text, rest: Text): Lexed {
    if rule == 2 then Lexed(TOK_SEPARATOR, strval, Initial, rest, [t])
    else if rule == 3 then Lexed(TOK_SPACE, strval, Initial, rest, [t])
    else if rule == 4 then Lexed(TOK_COMMENT, strval, Initial, rest, [t])
    else if rule == 5 then Lexed(TOK_STRING, Some(t), Initial, rest, [t])
    else Lexed(TOK_STRING, strval, Initial, rest, [t])
  }

  predicate GoesOn(rule: nat) {
    rule == 1 || 6 <= rule <= 8
  }

  /** The scanner, from the rest of the text on. */
  function Lex(sc: Condition, strval: Option<Text>, s: Text): Lexed
    decreases |s|
  {
    if s == [] then Lexed(TOK_EOF, strval, sc, [], [])
    else
      var (rule, len) := Munch(sc, s);
      if GoesOn(rule) then Before(s[..len], Lex(Quoted, StringAfter(rule, strval, s[..len]), s[len..]))
      else Return(rule, strval, s[..len], s[len..])
  }

  function Flat(ts: seq<Text>): Text
    decreases |ts|
  {
    if ts == [] then [] else ts[0] + Flat(ts[1..])
  }

  /** The matched texts and what is left are the text; every token but the end takes some. */
  ghost predicate Tiles(l: Lexed, s: Text) {
    && Flat(l.texts) + l.rest == s && l.token <= 4
    && if l.token == TOK_EOF then l.rest == [] else |l.rest| < |s|
  }

  lemma {:induction false} TilesBefore(t: Text, rest: Text, l: Lexed, s: Text)
    requires s == t + rest && t != [] && Tiles(l, rest)
    ensures Tiles(Before(t, l), s)
  {
    assert ([t] + l.texts)[1..] == l.texts;
    assert t + (Flat(l.texts) + l.rest) == (t + Flat(l.texts)) + l.rest;
  }

  lemma {:induction false} ReturnTiles(rule: nat, strval: Option<Text>, t: Text, rest: Text, s: Text)
    requires s == t + rest && t != []
    ensures Tiles(Return(rule, strval, t, rest), s)
  {
    assert [t][1..] == [];
    assert Flat([t]) == t;
  }

  lemma {:induction false} LexTiles(sc: Condition, strval: Option<Text>, s: Text)
    ensures Tiles(Lex(sc, strval, s), s)
    decreases |s|
  {
    if s != [] {
      var (rule, len) := Munch(sc, s);
      var t, rest := s[..len], s[len..];
      assert s == t + rest;
      if GoesOn(rule) {
        LexTiles(Quoted, StringAfter(rule, strval, t), rest);
        TilesBefore(t, rest, Lex(Quoted, StringAfter(rule, strval, t), rest), s);
      } else {
        ReturnTiles(rule, strval, t, rest, s);
      }
    }
  }

  /** A result after `ts` have been matched before. */
  function Since(ts: seq<Text>, l: Lexed): Lexed {
    l.(texts := ts + l.texts)
  }

  lemma {:induction false} SinceBefore(ts: seq<Text>, t: Text, l: Lexed)
    ensures Since(ts, Before(t, l)) == Since(ts + [t], l)
  {
    assert ts + ([t] + l.texts) == (ts + [t]) + l.texts;
  }

  /** One round of the scanner, given its longest match. */
  lemma {:induction false} LexRound(sc: Condition, strval: Option<Text>, text: Text, bp: nat, cp: nat, rule: nat, s: Text, t: Text, rest: Text)
    requires bp < cp <= |text| && IsMunch(sc, text[bp..], rule, cp - bp) && s == text[bp..] && t == text[bp..cp] && rest == text[cp..]
    ensures 1 <= rule <= 9 && (rule >= 6 <==> sc == Quoted)
    ensures Lex(sc, strval, s) == if GoesOn(rule) then Before(t, Lex(Quoted, StringAfter(rule, strval, t), rest)) else Return(rule, strval, t, rest)
  {
    MunchIsLongest(sc, s);
    MunchUnique(sc, s, rule, cp - bp, Munch(sc, s).0, Munch(sc, s).1);
    assert t == s[..cp - bp] && rest == s[cp - bp..];
  }

  class Scanner {
    const text: Text
    var pos: nat                    // yy_c_buf_p
    var condition: Condition        // yy_start
    var lastState: State            // yy_last_accepting_state
    var lastPos: nat                // yy_last_accepting_cpos
    var strval: Option<Text>

    constructor (text: Text, strval: Option<Text>)
      ensures this.text == text && pos == 0 && condition == Initial && this.strval == strval
    {
      this.text, this.pos, this.condition, this.strval := text, 0, Initial, strval;
      this.lastState, this.lastPos := 0, 0;
    }

    /** yy_accept[q], and what the rules call it. */
    static method Accepting(q: State) returns (rule: nat)
      requires q <= 18
      ensures rule == RuleOf(q)
    {
      AcceptIsRule(q);
      rule := YY_ACCEPT[q];
    }

    /** The match loop. */
    method Match(bp: nat) returns (q: State, cp: nat)
      requires bp <= |text| && NoNul(text)
      modifies `lastState, `lastPos
      ensures Found(condition, text, bp, q, cp)
    {
      q, cp := StartOf(condition), bp;
      while true
        invariant Scanning(condition, text, bp, cp, q)
        decreases |text| + 2 - cp
      {
        var rule := Accepting(q);
        if rule != 0 {
          lastState, lastPos := q, cp;
        }
        var next := Transition(q, CharAt(text, cp));
        ScanStep(condition, text, bp, cp, cp + 1, q, next);
        q, cp := next, cp + 1;
        if q == 18 {
          break;
        }
      }
      q, cp := lastState, lastPos;
    }

    /** yy_get_previous_state. */
    method PreviousState(bp: nat) returns (q: State)
      requires bp < |text| && NoNul(text) && Whole(condition, text[bp..])
      modifies `lastState, `lastPos
      ensures StateMeans(condition, q, text[bp..])
    {
      ghost var rest := text[bp..];
      q := StartOf(condition);
      for i := bp to |text|
        invariant StateMeans(condition, q, rest[..i - bp])
      {
        var rule := Accepting(q);
        if rule != 0 {
          lastState, lastPos := q, i;
        }
        StaysWhole(condition, rest, i - bp, q, Delta(q, ClassOf(rest[i - bp])));
        q := Transition(q, text[i]);
      }
      assert rest[..|text| - bp] == rest;
    }

    /** The match and the rule it is for, when the buffer has been read to its end: rule 11 is
        the end of the buffer, and nothing is left only if the scan began there. */
    method FindAction(bp: nat) returns (rule: nat, cp: nat)
      requires bp <= |text| && NoNul(text)
      modifies `lastState, `lastPos
      ensures rule == 11 <==> bp == |text|
      ensures if bp == |text| then cp == bp + 1 else bp < cp <= |text| && IsMunch(condition, text[bp..], rule, cp - bp)
    {
      var q;
      q, cp := Match(bp);
      rule := Accepting(q);
      if rule == 11 {
        var amount := cp - bp - 1;
        if amount > 0 {
          q := PreviousState(bp);
          cp := bp + amount;
          rule := Accepting(q);
          assert text[bp..][..amount] == text[bp..];
        }
      }
    }

    /** What is still to be read. */
    ghost function Rest(): Text
      reads this
    {
      if pos <= |text| then text[pos..] else []
    }

    /** The action of a rule that goes on scanning. */
    method Act(rule: nat, yytext: Text)
      requires GoesOn(rule)
      modifies `strval, `condition
      ensures strval == StringAfter(rule, old(strval), yytext)
      ensures condition == if rule == 1 then Quoted else old(condition)
    {
      if rule == 1 {
        strval := None;
        condition := Quoted;
      } else if rule == 6 {
        strval := Append(strval, yytext);
      } else if rule == 7 {
        strval := Append(strval, [QUOTE]);
      } else {
        strval := Append(strval, [BACKSLASH]);
      }
    }

    /** The action of a rule that returns a token. */
    method ReturnToken(rule: nat, yytext: Text) returns (token: nat)
      requires !GoesOn(rule) && 1 <= rule <= 9 && (rule >= 6 <==> condition == Quoted)
      modifies `strval, `condition
      ensures forall rest: Text :: Return(rule, old(strval), yytext, rest) == Lexed(token, strval, condition, rest, [yytext])
    {
      if rule == 2 {
        token := TOK_SEPARATOR;
      } else if rule == 3 {
        token := TOK_SPACE;
      } else if rule == 4 {
        token := TOK_COMMENT;
      } else if rule == 5 {
        strval := Some(yytext);
        token := TOK_STRING;
      } else {
        condition := Initial;
        token := TOK_STRING;
      }
    }

    /** yylex. It never has to back up, and never comes to the default rule: the longest match
        always belongs to one of the nine rules. */
    method YyLex() returns (token: nat, ghost texts: seq<Text>)
      requires pos <= |text| && NoNul(text)
      modifies this
      ensures pos <= |text| && Lex(old(condition), old(strval), old(Rest())) == Lexed(token, strval, condition, Rest(), texts)
    {
      ghost var want := Lex(condition, strval, text[pos..]);
      texts := [];
      while true
        invariant pos <= |text|
        invariant Since(texts, Lex(condition, strval, text[pos..])) == want
        decreases |text| - pos
      {
        var bp := pos;
        var rule, cp := FindAction(bp);
        if rule == 11 {
          return TOK_EOF, texts;
        }
        pos := cp;
        var yytext := text[bp..cp];
        LexRound(condition, strval, text, bp, cp, rule, text[bp..], yytext, text[cp..]);
        ghost var before := texts;
        texts := texts + [yytext];
        if GoesOn(rule) {
          Act(rule, yytext);
          SinceBefore(before, yytext, Lex(condition, strval, text[cp..]));
        } else {
          token := ReturnToken(rule, yytext);
          return;
        }
      }
    }
  }
}
