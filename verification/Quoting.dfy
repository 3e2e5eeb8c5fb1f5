/** Strings in quotes: what the scanner makes of one, character by character, and which strings
    can be written so that they read back. */
module Quoting {
  import opened Options
  import opened ShellTables
  import opened ShellLexer

  // ----- reading a quoted string character by character

  /** The string that has begun with `acc` and goes on with `s`, up to the closing quote, and
      what stands behind that. */
  function Unquote(acc: Text, s: Text): Option<(Text, Text)>
    decreases |s|
  {
    if s == [] then None
    else if s[0] == QUOTE then Some((acc, s[1..]))
    else if s[0] == BACKSLASH && |s| > 1 && s[1] == QUOTE then Unquote(acc + [QUOTE], s[2..])
    else Unquote(acc + [s[0]], s[1..])
  }

  lemma {:induction false} UnquoteSpan(acc: Text, s: Text, k: nat)
    requires k <= |s| && forall i | 0 <= i < k :: IsInner(s[i])
    ensures Unquote(acc, s) == Unquote(acc + s[..k], s[k..])
    decreases k
  {
    if k == 0 {
      assert acc + s[..0] == acc && s[0..] == s;
    } else {
      UnquoteSpan(acc + [s[0]], s[1..], k - 1);
      assert acc + [s[0]] + s[1..][..k - 1] == acc + s[..k];
      assert s[1..][k - 1..] == s[k..];
    }
  }

  /** The scanner has read a string as the plain reading has. */
  ghost predicate Agrees(l: Lexed, u: Option<(Text, Text)>) {
    match u
    case None => l.token == TOK_EOF
    case Some((t, rest)) => l.token == TOK_STRING && l.strval == Some(t) && l.condition == Initial && l.rest == rest
  }

  /** Taking the longest runs between quotes and backslashes at a time is reading character by
      character. */
  lemma {:induction false} LexUnquotes(acc: Text, s: Text)
    ensures Agrees(Lex(Quoted, Some(acc), s), Unquote(acc, s))
    decreases |s|
  {
    if s != [] && s[0] != QUOTE {
      var (rule, len) := Munch(Quoted, s);
      if rule == 6 {
        UnquoteSpan(acc, s, len);
      } else {
        assert s[..1] == [BACKSLASH];
      }
      LexUnquotes(StringAfter(rule, Some(acc), s[..len]).value, s[len..]);
    }
  }

  /** Behind the opening quote there is no string yet, and an empty one stays missing. */
  lemma {:induction false} LexUnquotesFirst(s: Text)
    requires s != []
    ensures if s[0] == QUOTE then Lex(Quoted, None, s) == Lexed(TOK_STRING, None, Initial, s[1..], [s[..1]])
            else Agrees(Lex(Quoted, None, s), Unquote([], s))
  {
    if s[0] != QUOTE {
      var (rule, len) := Munch(Quoted, s);
      var t := StringAfter(rule, None, s[..len]).value;
      LexUnquotes([], s);
      assert [] + t == t;
      assert Lex(Quoted, None, s) == Lex(Quoted, Some([]), s);
    }
  }

  // ----- writing a string in quotes

  /** Every quote gets a backslash. */
  function Escape(s: Text): Text
    decreases |s|
  {
    if s == [] then [] else (if s[0] == QUOTE then [BACKSLASH, QUOTE] else [s[0]]) + Escape(s[1..])
  }

  function Quote(s: Text): Text {
    [QUOTE] + Escape(s) + [QUOTE]
  }

  predicate EndsInBackslash(s: Text) {
    s != [] && s[|s| - 1] == BACKSLASH
  }

  lemma {:induction false} UnquoteOne(acc: Text, c: Char, x: Text, s: Text)
    requires s == (if c == QUOTE then [BACKSLASH, QUOTE] else [c]) + x && (c == BACKSLASH && x != [] ==> x[0] != QUOTE)
    ensures Unquote(acc, s) == Unquote(acc + [c], x)
  {
    if c == QUOTE {
      assert s[2..] == x;
    } else {
      assert s[1..] == x;
    }
  }

  /** An escaped string reads back, whatever follows, unless a last backslash and a quote behind
      it are taken for an escaped quote. */
  lemma {:induction false} UnquoteEscape(acc: Text, s: Text, rest: Text)
    requires EndsInBackslash(s) ==> rest != [] && rest[0] != QUOTE
    ensures Unquote(acc, Escape(s) + rest) == Unquote(acc + s, rest)
    decreases |s|
  {
    if s == [] {
      assert Escape(s) + rest == rest && acc + s == acc;
    } else {
      var x := Escape(s[1..]) + rest;
      UnquoteEscape(acc + [s[0]], s[1..], rest);
      assert acc + [s[0]] + s[1..] == acc + s;
      assert s[0] == BACKSLASH && x != [] ==> x[0] != QUOTE;
      UnquoteOne(acc, s[0], x, Escape(s) + rest);
    }
  }

  lemma {:induction false} UnquoteExtends(acc: Text, s: Text)
    ensures Unquote(acc, s).Some? ==> |acc| <= |Unquote(acc, s).value.0| && Unquote(acc, s).value.0[..|acc|] == acc
    decreases |s|
  {
    if s != [] && s[0] != QUOTE {
      if s[0] == BACKSLASH && |s| > 1 && s[1] == QUOTE {
        UnquoteExtends(acc + [QUOTE], s[2..]);
      } else {
        UnquoteExtends(acc + [s[0]], s[1..]);
      }
    }
  }

  /** A string that reads back from between its quotes. */
  predicate Quotable(s: Text) {
    s != [] && !EndsInBackslash(s)
  }

  /** The scanner returns `s` from its quoted form and stops behind it. */
  ghost predicate ReadsBack(l: Lexed, s: Text, rest: Text) {
    l.token == TOK_STRING && l.strval == Some(s) && l.condition == Initial && l.rest == rest
  }

  lemma {:induction false} OpeningQuote(strval: Option<Text>, s: Text, rest: Text, x: Text)
    requires x == Escape(s) + [QUOTE] + rest
    ensures Lex(Initial, strval, Quote(s) + rest) == Before([QUOTE], Lex(Quoted, None, x))
  {
    var t := Quote(s) + rest;
    assert t[0] == QUOTE && t[..1] == [QUOTE] && t[1..] == x;
  }

  lemma {:induction false} EscapeConcat(a: Text, b: Text)
    ensures Escape(a + b) == Escape(a) + Escape(b)
    decreases |a|
  {
    if a == [] {
      assert a + b == b;
    } else {
      EscapeConcat(a[1..], b);
      assert (a + b)[1..] == a[1..] + b;
    }
  }

  lemma {:induction false} EscapeLast(s: Text, front: Text, rest: Text)
    requires s == front + [BACKSLASH]
    ensures Escape(s) + [QUOTE] + rest == Escape(front) + ([BACKSLASH, QUOTE] + rest)
  {
    EscapeConcat(front, [BACKSLASH]);
    assert [BACKSLASH][1..] == [];
    assert Escape([BACKSLASH]) == [BACKSLASH];
  }

  lemma {:induction false} UnquoteEscapedQuote(acc: Text, y: Text, rest: Text)
    requires y == [BACKSLASH, QUOTE] + rest
    ensures Unquote(acc, y) == Unquote(acc + [QUOTE], rest)
  {
    assert y[2..] == rest;
  }

  /** A last backslash swallows the closing quote: whatever string comes out is another one. */
  lemma {:induction false} BackslashSwallows(s: Text, rest: Text, x: Text)
    requires EndsInBackslash(s) && x == Escape(s) + [QUOTE] + rest
    ensures var u := Unquote([], x); u.Some? ==> |u.value.0| >= |s| && u.value.0[|s| - 1] == QUOTE
  {
    var front, y := s[..|s| - 1], [BACKSLASH, QUOTE] + rest;
    EscapeLast(s, front, rest);
    UnquoteEscape([], front, y);
    assert [] + front == front;
    UnquoteEscapedQuote(front, y, rest);
    var acc := front + [QUOTE];
    UnquoteExtends(acc, rest);
    assert acc[|s| - 1] == QUOTE;
  }

  /** A string reads back from its quoted form exactly if it is not empty and does not end in a
      backslash. */
  lemma {:induction false} QuoteReadsBack(strval: Option<Text>, s: Text, rest: Text)
    ensures ReadsBack(Lex(Initial, strval, Quote(s) + rest), s, rest) <==> Quotable(s)
    ensures Lex(Initial, strval, Quote(s) + rest).token == TOK_STRING || !Quotable(s)
    ensures !Quotable(s) ==> Lex(Initial, strval, Quote(s) + rest).token == TOK_EOF || Misread(Lex(Initial, strval, Quote(s) + rest), s)
  {
    var x := Escape(s) + [QUOTE] + rest;
    OpeningQuote(strval, s, rest, x);
    LexUnquotesFirst(x);
    if s == [] {
      assert x[0] == QUOTE;
    } else {
      assert x[0] == (if s[0] == QUOTE then BACKSLASH else s[0]);
      if EndsInBackslash(s) {
        BackslashSwallows(s, rest, x);
      } else {
        assert Escape(s) + ([QUOTE] + rest) == x;
        UnquoteEscape([], s, [QUOTE] + rest);
        assert ([QUOTE] + rest)[1..] == rest && [] + s == s;
      }
    }
  }

  /** The scanner returns another string, or none. */
  ghost predicate Misread(l: Lexed, s: Text) {
    l.token == TOK_STRING && l.condition == Initial && l.strval != Some(s)
  }

  // ----- words without quotes

  /** Neither a space, nor a quote, a hash or a semicolon. */
  predicate WordChar(c: Char) {
    c < 9 || 13 < c < 32 || c == 33 || 35 < c < 59 || 59 < c
  }

  predicate PlainWord(w: Text) {
    w != [] && forall i | 0 <= i < |w| :: WordChar(w[i])
  }

  /** No word goes on here. */
  predicate Breaks(rest: Text) {
    rest == [] || !WordChar(rest[0])
  }

  lemma {:induction false} SpanEnds(s: Text, k: nat, n: nat)
    requires k <= n <= |s| && (forall i | k <= i < n :: WordChar(s[i])) && (n < |s| ==> !WordChar(s[n]))
    ensures SpanPlain(s, k) == n
    decreases n - k
  {
    if k < n {
      SpanEnds(s, k + 1, n);
    }
  }

  /** A word is returned whole, and as it stands. */
  lemma {:induction false} PlainReadsBack(strval: Option<Text>, w: Text, rest: Text, s: Text)
    requires PlainWord(w) && Breaks(rest) && s == w + rest
    ensures ReadsBack(Lex(Initial, strval, s), w, rest)
  {
    assert WordChar(w[0]) && s[0] == w[0];
    assert forall i | 0 <= i < |w| :: s[i] == w[i] && WordChar(w[i]);
    SpanEnds(s, 0, |w|);
    assert s[..|w|] == w && s[|w|..] == rest;
  }
}
