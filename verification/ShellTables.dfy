/** The tables of the shell's scanner, and the plain transition function they compress. */
module ShellTables {
  /** A byte of the text, as an index. */
  type Char = c: int | 0 <= c < 256

  type State = q: int | 0 <= q < 24
  type Class = c: int | 0 <= c < 7

  /** A compressed transition table: where a state's row begins, whose entry it is, where it
      leads, and which state to try instead, with which class. */
  datatype Tables = Tables(base: seq<nat>, def_: seq<State>, meta: seq<Class>, nxt: seq<State>, chk: seq<nat>)

  const YY_ACCEPT: seq<nat> := [0] + [0, 0, 0, 0, 11, 5, 3, 1, 4, 2] + [6, 9, 8, 5, 3, 6, 7, 0]

  const YY_BASE: seq<nat> := [0] + [0, 0, 4, 8, 12, 0, 0, 29, 29, 29] + [0, 29, 0, 0, 0, 0, 29, 29, 14, 19] + [7, 24, 5]

  const YY_DEF: seq<State> := [0] + [18, 1, 19, 19, 18, 20, 21, 18, 18, 18] + [22, 18, 23, 20, 21, 22, 18, 0, 18, 18] + [18, 18, 18]

  const YY_META: seq<Class> := [0, 1, 2, 3, 4, 4, 5]

  const YY_NXT: seq<State> := [0] + [6, 7, 8, 9, 10, 6, 12, 17, 15, 13] + [12, 18, 18, 13, 11, 11, 11, 11, 11, 14]
    + [18, 18, 18, 14, 16, 16, 18, 16, 5, 18] + [18, 18, 18, 18, 18]

  const YY_CHK: seq<nat> := [0] + [1, 1, 1, 1, 1, 1, 3, 23, 21, 3] + [4, 5, 0, 4, 19, 19, 19, 19, 19, 20]
    + [0, 0, 0, 20, 22, 22, 0, 22, 18, 18] + [18, 18, 18, 18, 18]

  // The 256 classes, sixteen to a row.
  const ONES: seq<Class> := [1, 1, 1, 1, 1, 1, 1, 1, 1, 1, 1, 1, 1, 1, 1, 1]
  const ROW0: seq<Class> := [0, 1, 1, 1, 1, 1, 1, 1, 1, 2, 2, 2, 2, 2, 1, 1]
  const ROW2: seq<Class> := [2, 1, 3, 4, 1, 1, 1, 1, 1, 1, 1, 1, 1, 1, 1, 1]
  const ROW3: seq<Class> := [1, 1, 1, 1, 1, 1, 1, 1, 1, 1, 1, 5, 1, 1, 1, 1]
  const ROW5: seq<Class> := [1, 1, 1, 1, 1, 1, 1, 1, 1, 1, 1, 1, 6, 1, 1, 1]
  const YY_EC: seq<seq<Class>> := [ROW0, ONES, ROW2, ROW3, ONES, ROW5, ONES, ONES, ONES, ONES, ONES, ONES, ONES, ONES, ONES, ONES]

  // ----- what the classes stand for

  const NUL: Char := 0
  const QUOTE: Char := 34
  const HASH: Char := 35
  const SEMICOLON: Char := 59
  const BACKSLASH: Char := 92

  /** isspace. */
  predicate IsSpace(c: Char) {
    9 <= c <= 13 || c == 32
  }

  function ClassOf(c: Char): Class {
    if c == NUL then 0 else if IsSpace(c) then 2 else if c == QUOTE then 3 else if c == HASH then 4
    else if c == SEMICOLON then 5 else if c == BACKSLASH then 6 else 1
  }

  /** yy_ec[c]. */
  function YyEc(c: Char): (r: Class)
    ensures r == ClassOf(c)
  {
    YY_EC[c / 16][c % 16]
  }

  // ----- following the compressed tables

  /** The states in which the scanner reads a character. */
  predicate Reading(q: State) {
    q == 1 || q == 3 || 5 <= q <= 17
  }

  /** The plain transition function. State 18 is the jam. */
  function Delta(q: State, c: Class): State {
    if c == 0 then (if q == 5 then 18 else 5)
    else if q == 1 then (if c == 2 then 7 else if c == 3 then 8 else if c == 4 then 9 else if c == 5 then 10 else 6)
    else if q == 3 then (if c == 3 then 12 else if c == 6 then 13 else 11)
    else if q == 6 || q == 14 then (if c == 1 || c == 6 then 14 else 18)
    else if q == 7 || q == 15 then (if c == 2 then 15 else 18)
    else if q == 11 || q == 16 then (if c == 3 || c == 6 then 18 else 16)
    else if q == 13 then (if c == 3 then 17 else 18)
    else 18
  }

  /** How many defaults can follow. */
  function Rank(q: State): nat {
    if q == 18 then 0 else if q >= 19 then 1 else 2
  }

  /** Every row lies in the table, every state without a row of its own for some class has a
      default, and following the defaults ends. */
  ghost predicate WellFormed(t: Tables) {
    && |t.base| == |t.def_| == 24 && |t.meta| == 7 && |t.nxt| == |t.chk|
    && (forall q: State :: RowFits(t, q))
    && (forall q: State, c: Class :: Owns(t, q, c) || q in {0, 2, 4} || Defaults(t, q))
  }

  predicate Defaults(t: Tables, q: State)
    requires |t.def_| == 24
  {
    Rank(t.def_[q]) < Rank(q) && t.def_[q] !in {0, 2, 4}
  }

  predicate RowFits(t: Tables, q: State)
    requires |t.base| == 24
  {
    t.base[q] + 6 < |t.chk|
  }

  predicate Owns(t: Tables, q: State, c: Class)
    requires |t.base| == 24 && RowFits(t, q)
  {
    t.chk[t.base[q] + c] == q
  }

  /** The tables, followed through the defaults. */
  function Follow(t: Tables, q: State, c: Class): State
    requires WellFormed(t) && q !in {0, 2, 4}
    decreases Rank(q)
  {
    if Owns(t, q, c) then t.nxt[t.base[q] + c]
    else Follow(t, t.def_[q], if t.def_[q] >= 19 then t.meta[c] else c)
  }

  /** The inner loop of the scanner: defaults are followed until an entry belongs to the state. */
  method NextState(t: Tables, current: State, class_: Class) returns (next: State)
    requires WellFormed(t) && current !in {0, 2, 4}
    ensures next == Follow(t, current, class_)
  {
    var q, c := current, class_;
    while t.chk[t.base[q] + c] != q
      invariant q !in {0, 2, 4} && RowFits(t, q) && Follow(t, q, c) == Follow(t, current, class_)
      decreases Rank(q)
    {
      assert !Owns(t, q, c);
      q := t.def_[q];
      if q >= 19 {
        c := t.meta[c];
      }
      assert RowFits(t, q);
    }
    next := t.nxt[t.base[q] + c];
  }

  const FLEX: Tables := Tables(YY_BASE, YY_DEF, YY_META, YY_NXT, YY_CHK)

  lemma {:induction false} FlexIsWellFormed()
    ensures WellFormed(FLEX)
  {
    assert forall q: State :: RowFits(FLEX, q);
  }

  /** What an entry of the table says for a state: where to go, or with a negative number that
      the entry is another state's. */
  ghost predicate Cell(t: Tables, q: State, i: nat, next: int)
  {
    i < |t.chk| && i < |t.nxt| && if next < 0 then t.chk[i] != q else t.chk[i] == q && t.nxt[i] as int == next
  }

  /** A state's whole row: where it begins, its default, and its seven entries. */
  ghost predicate HasRow(t: Tables, q: State, b: nat, d: State, n0: int, n1: int, n2: int, n3: int, n4: int, n5: int, n6: int)
  {
    && q < |t.base| && q < |t.def_| && t.base[q] == b && t.def_[q] == d
    && Cell(t, q, b, n0) && Cell(t, q, b + 1, n1) && Cell(t, q, b + 2, n2) && Cell(t, q, b + 3, n3)
    && Cell(t, q, b + 4, n4) && Cell(t, q, b + 5, n5) && Cell(t, q, b + 6, n6)
  }

  lemma {:induction false} FollowCell(t: Tables, q: State, c: Class, next: int)
    requires WellFormed(t) && q !in {0, 2, 4} && Cell(t, q, t.base[q] + c, next)
    ensures if next >= 0 then Follow(t, q, c) as int == next
            else t.def_[q] !in {0, 2, 4} && Follow(t, q, c) == Follow(t, t.def_[q], if t.def_[q] >= 19 then t.meta[c] else c)
  {
    assert Owns(t, q, c) <==> next >= 0;
  }

  lemma {:induction false} Rows1()
    ensures HasRow(FLEX, 1, 0, 18, -1, 6, 7, 8, 9, 10, 6)
    ensures HasRow(FLEX, 3, 4, 19, -1, -1, -1, 12, -1, -1, 13)
    ensures HasRow(FLEX, 5, 12, 18, 18, -1, -1, -1, -1, -1, -1)
  {
  }

  lemma {:induction false} Rows2()
    ensures HasRow(FLEX, 6, 0, 20, -1, -1, -1, -1, -1, -1, -1)
    ensures HasRow(FLEX, 14, 0, 20, -1, -1, -1, -1, -1, -1, -1)
    ensures HasRow(FLEX, 20, 19, 18, -1, 14, -1, -1, -1, 14, -1)
  {
  }

  lemma {:induction false} Rows3()
    ensures HasRow(FLEX, 7, 0, 21, -1, -1, -1, -1, -1, -1, -1)
    ensures HasRow(FLEX, 15, 0, 21, -1, -1, -1, -1, -1, -1, -1)
    ensures HasRow(FLEX, 21, 7, 18, -1, -1, 15, -1, -1, -1, -1)
  {
  }

  lemma {:induction false} Rows4()
    ensures HasRow(FLEX, 8, 29, 18, -1, -1, -1, -1, -1, -1, -1)
    ensures HasRow(FLEX, 9, 29, 18, -1, -1, -1, -1, -1, -1, -1)
    ensures HasRow(FLEX, 10, 29, 18, -1, -1, -1, -1, -1, -1, -1)
    ensures HasRow(FLEX, 12, 29, 18, -1, -1, -1, -1, -1, -1, -1)
    ensures HasRow(FLEX, 17, 29, 18, -1, -1, -1, -1, -1, -1, -1)
  {
  }

  lemma {:induction false} Rows5()
    ensures HasRow(FLEX, 11, 0, 22, -1, -1, -1, -1, -1, -1, -1)
    ensures HasRow(FLEX, 16, 0, 22, -1, -1, -1, -1, -1, -1, -1)
    ensures HasRow(FLEX, 22, 24, 18, -1, 16, 16, -1, 16, -1, -1)
  {
  }

  lemma {:induction false} Rows6()
    ensures HasRow(FLEX, 13, 0, 23, -1, -1, -1, -1, -1, -1, -1)
    ensures HasRow(FLEX, 23, 5, 18, -1, -1, -1, 17, -1, -1, -1)
  {
  }

  lemma {:induction false} Rows7()
    ensures HasRow(FLEX, 18, 29, 0, 5, 18, 18, 18, 18, 18, 18)
    ensures HasRow(FLEX, 19, 14, 18, -1, 11, 11, 11, 11, 11, -1)
  {
  }

  /** The classes by their number. */
  function Nth(c: Class, n0: int, n1: int, n2: int, n3: int, n4: int, n5: int, n6: int): int {
    if c == 0 then n0 else if c == 1 then n1 else if c == 2 then n2 else if c == 3 then n3
    else if c == 4 then n4 else if c == 5 then n5 else n6
  }

  lemma {:induction false} RowCell(t: Tables, q: State, b: nat, d: State, c: Class, n0: int, n1: int, n2: int, n3: int, n4: int, n5: int, n6: int)
    requires HasRow(t, q, b, d, n0, n1, n2, n3, n4, n5, n6)
    ensures b + c < |t.chk| && b + c < |t.nxt| && Cell(t, q, b + c, Nth(c, n0, n1, n2, n3, n4, n5, n6))
  {
    assert b + 0 == b;
  }

  /** One look at the row of a state. */
  lemma {:induction false} FollowRow(t: Tables, q: State, b: nat, d: State, c: Class,
                                     n0: int, n1: int, n2: int, n3: int, n4: int, n5: int, n6: int, n: int)
    requires WellFormed(t) && q !in {0, 2, 4} && HasRow(t, q, b, d, n0, n1, n2, n3, n4, n5, n6)
    requires n == Nth(c, n0, n1, n2, n3, n4, n5, n6)
    ensures if n >= 0 then Follow(t, q, c) as int == n
            else d !in {0, 2, 4} && Follow(t, q, c) == Follow(t, d, if d >= 19 then t.meta[c] else c)
  {
    RowCell(t, q, b, d, c, n0, n1, n2, n3, n4, n5, n6);
    FollowCell(t, q, c, n);
  }

  lemma {:induction false} MetaIs(c: Class)
    ensures FLEX.meta[c] == if c == 5 then 4 else if c == 6 then 5 else c
  {
  }

  lemma {:induction false} StartStates(t: Tables, q: State, c: Class, m: Class)
    requires WellFormed(t) && (q == 1 || q == 3 || q == 5) && m == t.meta[c] && m == if c == 5 then 4 else if c == 6 then 5 else c
    requires HasRow(t, 1, 0, 18, -1, 6, 7, 8, 9, 10, 6)
    requires HasRow(t, 3, 4, 19, -1, -1, -1, 12, -1, -1, 13)
    requires HasRow(t, 5, 12, 18, 18, -1, -1, -1, -1, -1, -1)
    requires HasRow(t, 18, 29, 0, 5, 18, 18, 18, 18, 18, 18)
    requires HasRow(t, 19, 14, 18, -1, 11, 11, 11, 11, 11, -1)
    ensures Follow(t, q, c) == Delta(q, c)
  {
    if q == 1 {
      FollowRow(t, 1, 0, 18, c, -1, 6, 7, 8, 9, 10, 6, Nth(c, -1, 6, 7, 8, 9, 10, 6));
      FollowRow(t, 18, 29, 0, c, 5, 18, 18, 18, 18, 18, 18, Nth(c, 5, 18, 18, 18, 18, 18, 18));
    }
    if q == 3 {
      FollowRow(t, 3, 4, 19, c, -1, -1, -1, 12, -1, -1, 13, Nth(c, -1, -1, -1, 12, -1, -1, 13));
      FollowRow(t, 19, 14, 18, m, -1, 11, 11, 11, 11, 11, -1, Nth(m, -1, 11, 11, 11, 11, 11, -1));
      FollowRow(t, 18, 29, 0, m, 5, 18, 18, 18, 18, 18, 18, Nth(m, 5, 18, 18, 18, 18, 18, 18));
    }
    if q == 5 {
      FollowRow(t, 5, 12, 18, c, 18, -1, -1, -1, -1, -1, -1, Nth(c, 18, -1, -1, -1, -1, -1, -1));
      FollowRow(t, 18, 29, 0, c, 5, 18, 18, 18, 18, 18, 18, Nth(c, 5, 18, 18, 18, 18, 18, 18));
    }
  }

  lemma {:induction false} WordsStates(t: Tables, q: State, c: Class, m: Class)
    requires WellFormed(t) && (q == 6 || q == 14) && m == t.meta[c] && m == if c == 5 then 4 else if c == 6 then 5 else c
    requires HasRow(t, 6, 0, 20, -1, -1, -1, -1, -1, -1, -1)
    requires HasRow(t, 14, 0, 20, -1, -1, -1, -1, -1, -1, -1)
    requires HasRow(t, 18, 29, 0, 5, 18, 18, 18, 18, 18, 18)
    requires HasRow(t, 20, 19, 18, -1, 14, -1, -1, -1, 14, -1)
    ensures Follow(t, q, c) == Delta(q, c)
  {
    if q == 6 {
      FollowRow(t, 6, 0, 20, c, -1, -1, -1, -1, -1, -1, -1, Nth(c, -1, -1, -1, -1, -1, -1, -1));
      FollowRow(t, 20, 19, 18, m, -1, 14, -1, -1, -1, 14, -1, Nth(m, -1, 14, -1, -1, -1, 14, -1));
      FollowRow(t, 18, 29, 0, m, 5, 18, 18, 18, 18, 18, 18, Nth(m, 5, 18, 18, 18, 18, 18, 18));
    }
    if q == 14 {
      FollowRow(t, 14, 0, 20, c, -1, -1, -1, -1, -1, -1, -1, Nth(c, -1, -1, -1, -1, -1, -1, -1));
      FollowRow(t, 20, 19, 18, m, -1, 14, -1, -1, -1, 14, -1, Nth(m, -1, 14, -1, -1, -1, 14, -1));
      FollowRow(t, 18, 29, 0, m, 5, 18, 18, 18, 18, 18, 18, Nth(m, 5, 18, 18, 18, 18, 18, 18));
    }
  }

  lemma {:induction false} SpacesStates(t: Tables, q: State, c: Class, m: Class)
    requires WellFormed(t) && (q == 7 || q == 15) && m == t.meta[c] && m == if c == 5 then 4 else if c == 6 then 5 else c
    requires HasRow(t, 7, 0, 21, -1, -1, -1, -1, -1, -1, -1)
    requires HasRow(t, 15, 0, 21, -1, -1, -1, -1, -1, -1, -1)
    requires HasRow(t, 18, 29, 0, 5, 18, 18, 18, 18, 18, 18)
    requires HasRow(t, 21, 7, 18, -1, -1, 15, -1, -1, -1, -1)
    ensures Follow(t, q, c) == Delta(q, c)
  {
    if q == 7 {
      FollowRow(t, 7, 0, 21, c, -1, -1, -1, -1, -1, -1, -1, Nth(c, -1, -1, -1, -1, -1, -1, -1));
      FollowRow(t, 21, 7, 18, m, -1, -1, 15, -1, -1, -1, -1, Nth(m, -1, -1, 15, -1, -1, -1, -1));
      FollowRow(t, 18, 29, 0, m, 5, 18, 18, 18, 18, 18, 18, Nth(m, 5, 18, 18, 18, 18, 18, 18));
    }
    if q == 15 {
      FollowRow(t, 15, 0, 21, c, -1, -1, -1, -1, -1, -1, -1, Nth(c, -1, -1, -1, -1, -1, -1, -1));
      FollowRow(t, 21, 7, 18, m, -1, -1, 15, -1, -1, -1, -1, Nth(m, -1, -1, 15, -1, -1, -1, -1));
      FollowRow(t, 18, 29, 0, m, 5, 18, 18, 18, 18, 18, 18, Nth(m, 5, 18, 18, 18, 18, 18, 18));
    }
  }

  lemma {:induction false} SingleStates(t: Tables, q: State, c: Class, m: Class)
    requires WellFormed(t) && (q == 8 || q == 9 || q == 10 || q == 12 || q == 17) && m == t.meta[c] && m == if c == 5 then 4 else if c == 6 then 5 else c
    requires HasRow(t, 8, 29, 18, -1, -1, -1, -1, -1, -1, -1)
    requires HasRow(t, 9, 29, 18, -1, -1, -1, -1, -1, -1, -1)
    requires HasRow(t, 10, 29, 18, -1, -1, -1, -1, -1, -1, -1)
    requires HasRow(t, 12, 29, 18, -1, -1, -1, -1, -1, -1, -1)
    requires HasRow(t, 17, 29, 18, -1, -1, -1, -1, -1, -1, -1)
    requires HasRow(t, 18, 29, 0, 5, 18, 18, 18, 18, 18, 18)
    ensures Follow(t, q, c) == Delta(q, c)
  {
    if q == 8 {
      FollowRow(t, 8, 29, 18, c, -1, -1, -1, -1, -1, -1, -1, Nth(c, -1, -1, -1, -1, -1, -1, -1));
      FollowRow(t, 18, 29, 0, c, 5, 18, 18, 18, 18, 18, 18, Nth(c, 5, 18, 18, 18, 18, 18, 18));
    }
    if q == 9 {
      FollowRow(t, 9, 29, 18, c, -1, -1, -1, -1, -1, -1, -1, Nth(c, -1, -1, -1, -1, -1, -1, -1));
      FollowRow(t, 18, 29, 0, c, 5, 18, 18, 18, 18, 18, 18, Nth(c, 5, 18, 18, 18, 18, 18, 18));
    }
    if q == 10 {
      FollowRow(t, 10, 29, 18, c, -1, -1, -1, -1, -1, -1, -1, Nth(c, -1, -1, -1, -1, -1, -1, -1));
      FollowRow(t, 18, 29, 0, c, 5, 18, 18, 18, 18, 18, 18, Nth(c, 5, 18, 18, 18, 18, 18, 18));
    }
    if q == 12 {
      FollowRow(t, 12, 29, 18, c, -1, -1, -1, -1, -1, -1, -1, Nth(c, -1, -1, -1, -1, -1, -1, -1));
      FollowRow(t, 18, 29, 0, c, 5, 18, 18, 18, 18, 18, 18, Nth(c, 5, 18, 18, 18, 18, 18, 18));
    }
    if q == 17 {
      FollowRow(t, 17, 29, 18, c, -1, -1, -1, -1, -1, -1, -1, Nth(c, -1, -1, -1, -1, -1, -1, -1));
      FollowRow(t, 18, 29, 0, c, 5, 18, 18, 18, 18, 18, 18, Nth(c, 5, 18, 18, 18, 18, 18, 18));
    }
  }

  lemma {:induction false} QuotedStates(t: Tables, q: State, c: Class, m: Class)
    requires WellFormed(t) && (q == 11 || q == 16) && m == t.meta[c] && m == if c == 5 then 4 else if c == 6 then 5 else c
    requires HasRow(t, 11, 0, 22, -1, -1, -1, -1, -1, -1, -1)
    requires HasRow(t, 16, 0, 22, -1, -1, -1, -1, -1, -1, -1)
    requires HasRow(t, 18, 29, 0, 5, 18, 18, 18, 18, 18, 18)
    requires HasRow(t, 22, 24, 18, -1, 16, 16, -1, 16, -1, -1)
    ensures Follow(t, q, c) == Delta(q, c)
  {
    if q == 11 {
      FollowRow(t, 11, 0, 22, c, -1, -1, -1, -1, -1, -1, -1, Nth(c, -1, -1, -1, -1, -1, -1, -1));
      FollowRow(t, 22, 24, 18, m, -1, 16, 16, -1, 16, -1, -1, Nth(m, -1, 16, 16, -1, 16, -1, -1));
      FollowRow(t, 18, 29, 0, m, 5, 18, 18, 18, 18, 18, 18, Nth(m, 5, 18, 18, 18, 18, 18, 18));
    }
    if q == 16 {
      FollowRow(t, 16, 0, 22, c, -1, -1, -1, -1, -1, -1, -1, Nth(c, -1, -1, -1, -1, -1, -1, -1));
      FollowRow(t, 22, 24, 18, m, -1, 16, 16, -1, 16, -1, -1, Nth(m, -1, 16, 16, -1, 16, -1, -1));
      FollowRow(t, 18, 29, 0, m, 5, 18, 18, 18, 18, 18, 18, Nth(m, 5, 18, 18, 18, 18, 18, 18));
    }
  }

  lemma {:induction false} EscapeStates(t: Tables, q: State, c: Class, m: Class)
    requires WellFormed(t) && (q == 13) && m == t.meta[c] && m == if c == 5 then 4 else if c == 6 then 5 else c
    requires HasRow(t, 13, 0, 23, -1, -1, -1, -1, -1, -1, -1)
    requires HasRow(t, 18, 29, 0, 5, 18, 18, 18, 18, 18, 18)
    requires HasRow(t, 23, 5, 18, -1, -1, -1, 17, -1, -1, -1)
    ensures Follow(t, q, c) == Delta(q, c)
  {
    if q == 13 {
      FollowRow(t, 13, 0, 23, c, -1, -1, -1, -1, -1, -1, -1, Nth(c, -1, -1, -1, -1, -1, -1, -1));
      FollowRow(t, 23, 5, 18, m, -1, -1, -1, 17, -1, -1, -1, Nth(m, -1, -1, -1, 17, -1, -1, -1));
      FollowRow(t, 18, 29, 0, m, 5, 18, 18, 18, 18, 18, 18, Nth(m, 5, 18, 18, 18, 18, 18, 18));
    }
  }

  /** The compressed tables say what the plain function says. */
  lemma {:induction false} FollowIsDelta(q: State, c: Class)
    requires Reading(q) && WellFormed(FLEX)
    ensures Follow(FLEX, q, c) == Delta(q, c)
  {
    var m := FLEX.meta[c];
    MetaIs(c);
    Rows7();
    if q < 6 {
      Rows1();
      StartStates(FLEX, q, c, m);
    } else if q == 6 || q == 14 {
      Rows2();
      WordsStates(FLEX, q, c, m);
    } else if q == 7 || q == 15 {
      Rows3();
      SpacesStates(FLEX, q, c, m);
    } else if q == 11 || q == 16 {
      Rows5();
      QuotedStates(FLEX, q, c, m);
    } else if q == 13 {
      Rows6();
      EscapeStates(FLEX, q, c, m);
    } else {
      Rows4();
      SingleStates(FLEX, q, c, m);
    }
  }

  /** One transition of the scanner. */
  method Transition(current: State, c: Char) returns (next: State)
    requires Reading(current)
    ensures next == Delta(current, ClassOf(c))
  {
    FlexIsWellFormed();
    var class_ := YyEc(c);
    FollowIsDelta(current, class_);
    next := NextState(FLEX, current, class_);
  }
}
