/** The argument block that jzboot builds for the kernel: a pointer for every word of the
    command line, and behind the pointers the words, each with a terminating zero. */
module CommandLine {
  import opened RsCode
  import opened Memory

  type Text = seq<byte>

  const SPACE: byte := 0x20

  // ----- the command line

  /** The arguments with a space between each two of them. */
  function Line(args: seq<Text>): Text
    decreases |args|
  {
    if args == [] then [] else if |args| == 1 then args[0] else args[0] + [SPACE] + Line(args[1..])
  }

  function Spaces(s: Text): nat
    decreases |s|
  {
    if s == [] then 0 else (if s[0] == SPACE then 1 else 0) + Spaces(s[1..])
  }

  /** The first space at or behind position `p`, or the length. */
  function NextSpace(s: Text, p: nat): (r: nat)
    requires p <= |s|
    ensures p <= r <= |s| && (r < |s| ==> s[r] == SPACE)
    ensures forall i | p <= i < r :: s[i] != SPACE
    decreases |s| - p
  {
    if p == |s| || s[p] == SPACE then p else NextSpace(s, p + 1)
  }

  /** The words of the line: what lies between single spaces, empty words included. */
  function Words(s: Text): (r: seq<Text>)
    ensures |r| > 0
    decreases |s|
  {
    var k := NextSpace(s, 0);
    if k == |s| then [s] else [s[..k]] + Words(s[k + 1..])
  }

  /** Joining the words again gives the line. */
  lemma {:induction false} WordsJoin(s: Text)
    ensures Line(Words(s)) == s
    decreases |s|
  {
    var k := NextSpace(s, 0);
    if k < |s| {
      WordsJoin(s[k + 1..]);
      assert Words(s)[1..] == Words(s[k + 1..]);
      assert s[..k] + [SPACE] + s[k + 1..] == s;
    }
  }

  lemma {:induction false} NextSpaceIn(a: Text, b: Text, p: nat)
    requires p <= |a|
    ensures NextSpace(a + [SPACE] + b, p) == NextSpace(a, p)
    decreases |a| - p
  {
    var s := a + [SPACE] + b;
    if p < |a| && a[p] != SPACE {
      NextSpaceIn(a, b, p + 1);
      assert s[p] == a[p];
    } else {
      assert s[p] == SPACE;
    }
  }

  lemma {:induction false} FirstWord(s: Text, k: nat, rest: Text)
    requires k < |s| && k == NextSpace(s, 0) && rest == s[k + 1..]
    ensures Words(s) == [s[..k]] + Words(rest)
  {
  }

  lemma {:induction false} CutBefore(a: Text, b: Text, k: nat, rest: Text, s: Text)
    requires k < |a| && rest == a[k + 1..] && s == a + [SPACE] + b
    ensures s[..k] == a[..k] && s[k + 1..] == rest + [SPACE] + b
  {
  }

  lemma {:induction false} CutHere(a: Text, b: Text, s: Text)
    requires s == a + [SPACE] + b
    ensures s[..|a|] == a && s[|a| + 1..] == b
  {
  }

  lemma JoinLists(x: Text, y: seq<Text>, z: seq<Text>)
    ensures [x] + (y + z) == ([x] + y) + z
  {
  }

  /** The words before a space, and those behind it. */
  lemma {:induction false} WordsAround(a: Text, b: Text, s: Text)
    requires s == a + [SPACE] + b
    ensures Words(s) == Words(a) + Words(b)
    decreases |a|
  {
    var k := NextSpace(a, 0);
    NextSpaceIn(a, b, 0);
    if k == |a| {
      CutHere(a, b, s);
      FirstWord(s, k, b);
    } else {
      var rest := a[k + 1..];
      var t := rest + [SPACE] + b;
      CutBefore(a, b, k, rest, s);
      FirstWord(s, k, t);
      FirstWord(a, k, rest);
      WordsAround(rest, b, t);
      JoinLists(a[..k], Words(rest), Words(b));
    }
  }

  lemma {:induction false} OneWord(s: Text)
    requires forall i | 0 <= i < |s| :: s[i] != SPACE
    ensures Words(s) == [s]
  {
  }

  lemma {:induction false} LineBehind(args: seq<Text>, last: Text)
    requires args != []
    ensures Line(args + [last]) == Line(args) + [SPACE] + last
    decreases |args|
  {
    var all := args + [last];
    if |args| > 1 {
      assert all[1..] == args[1..] + [last];
      LineBehind(args[1..], last);
      assert args[0] + [SPACE] + (Line(args[1..]) + [SPACE] + last) == (args[0] + [SPACE] + Line(args[1..])) + [SPACE] + last;
    } else {
      assert all[1..] == [last];
    }
  }

  lemma {:induction false} SpacesConcat(a: Text, b: Text)
    ensures Spaces(a + b) == Spaces(a) + Spaces(b)
    decreases |a|
  {
    if a == [] {
      assert a + b == b;
    } else {
      assert (a + b)[1..] == a[1..] + b;
      SpacesConcat(a[1..], b);
    }
  }

  lemma {:induction false} NoSpaces(s: Text)
    requires forall i | 0 <= i < |s| :: s[i] != SPACE
    ensures Spaces(s) == 0
    decreases |s|
  {
    if s != [] {
      NoSpaces(s[1..]);
    }
  }

  lemma {:induction false} WordCount(s: Text)
    ensures |Words(s)| == 1 + Spaces(s)
    decreases |s|
  {
    var k := NextSpace(s, 0);
    NoSpaces(s[..k]);
    if k < |s| {
      WordCount(s[k + 1..]);
      assert s == s[..k] + ([SPACE] + s[k + 1..]);
      SpacesConcat(s[..k], [SPACE] + s[k + 1..]);
      SpacesConcat([SPACE], s[k + 1..]);
      assert Spaces([SPACE]) == 1;
    } else {
      assert s[..k] == s;
    }
  }

  /** What the loader counts: one for every argument and one for every space in it. */
  function CountedArgs(args: seq<Text>): nat
    decreases |args|
  {
    if args == [] then 0 else 1 + Spaces(args[0]) + CountedArgs(args[1..])
  }

  function TotalLength(args: seq<Text>): nat
    decreases |args|
  {
    if args == [] then 0 else |args[0]| + 1 + TotalLength(args[1..])
  }

  /** The count is the number of words of the line. */
  lemma {:induction false} CountIsWordCount(args: seq<Text>)
    requires args != []
    ensures CountedArgs(args) == |Words(Line(args))|
    ensures TotalLength(args) == |Line(args)| + 1
    decreases |args|
  {
    WordCount(Line(args));
    if |args| > 1 {
      CountIsWordCount(args[1..]);
      WordCount(Line(args[1..]));
      SpacesConcat(args[0] + [SPACE], Line(args[1..]));
      SpacesConcat(args[0], [SPACE]);
      assert Spaces([SPACE]) == 1;
    } else {
      assert args[1..] == [];
    }
  }

  // ----- the block of strings

  /** Every word with a zero behind it. */
  function Strings(ws: seq<Text>): Text
    decreases |ws|
  {
    if ws == [] then [] else ws[0] + [0] + Strings(ws[1..])
  }

  /** Where the `i`-th string begins. */
  function Offset(ws: seq<Text>, i: nat): nat
    requires i <= |ws|
    decreases i
  {
    if i == 0 then 0 else Offset(ws, i - 1) + |ws[i - 1]| + 1
  }

  lemma {:induction false} StringsConcat(a: seq<Text>, b: seq<Text>)
    ensures Strings(a + b) == Strings(a) + Strings(b)
    decreases |a|
  {
    if a == [] {
      assert a + b == b;
    } else {
      assert (a + b)[1..] == a[1..] + b;
      StringsConcat(a[1..], b);
      assert a[0] + [0] + (Strings(a[1..]) + Strings(b)) == a[0] + [0] + Strings(a[1..]) + Strings(b);
    }
  }

  lemma {:induction false} StringsLength(ws: seq<Text>, i: nat)
    requires i <= |ws|
    ensures |Strings(ws[..i])| == Offset(ws, i)
    decreases i
  {
    if i > 0 {
      StringsLength(ws, i - 1);
      assert ws[..i] == ws[..i - 1] + [ws[i - 1]];
      StringsConcat(ws[..i - 1], [ws[i - 1]]);
      assert [ws[i - 1]][1..] == [];
    }
  }

  /** The `i`-th string of the block is the `i`-th word, and a zero follows it. */
  lemma {:induction false} StringAt(ws: seq<Text>, i: nat)
    requires i < |ws|
    ensures Offset(ws, i) + |ws[i]| + 1 <= |Strings(ws)|
    ensures Strings(ws)[Offset(ws, i)..Offset(ws, i) + |ws[i]| + 1] == ws[i] + [0]
  {
    var a, b := ws[..i], ws[i..];
    StringsLength(ws, i);
    assert ws == a + b;
    StringsConcat(a, b);
    assert Strings(b) == ws[i] + [0] + Strings(b[1..]);
  }

  /** The strings while the line is being cut: `i` words have their zero, the rest is still
      as it was. */
  function HalfCut(ws: seq<Text>, i: nat): Text
    requires i <= |ws|
  {
    Strings(ws[..i]) + Line(ws[i..]) + [0]
  }

  lemma {:induction false} CutNext(ws: seq<Text>, i: nat, t: Text, space: nat)
    requires i + 1 < |ws| && t == HalfCut(ws, i) && space == Offset(ws, i) + |ws[i]|
    ensures space < |t| && t[space] == SPACE && t[space := 0] == HalfCut(ws, i + 1)
    ensures forall k | Offset(ws, i) <= k < space :: t[k] == ws[i][k - Offset(ws, i)]
  {
    StringsLength(ws, i);
    var rest := Line(ws[i + 1..]);
    assert ws[i..][1..] == ws[i + 1..];
    assert Line(ws[i..]) == ws[i] + [SPACE] + rest;
    assert t == Strings(ws[..i]) + ws[i] + [SPACE] + rest + [0];
    assert ws[..i + 1] == ws[..i] + [ws[i]];
    StringsConcat(ws[..i], [ws[i]]);
    assert [ws[i]][1..] == [];
    assert HalfCut(ws, i + 1) == Strings(ws[..i]) + ws[i] + [0] + rest + [0];
  }

  lemma {:induction false} CutLast(ws: seq<Text>, i: nat, t: Text)
    requires i + 1 == |ws| && t == HalfCut(ws, i)
    ensures t == Strings(ws) && |t| == Offset(ws, i) + |ws[i]| + 1
    ensures forall k | Offset(ws, i) <= k < |t| - 1 :: t[k] == ws[i][k - Offset(ws, i)]
  {
    StringsLength(ws, i);
    assert ws[i..] == [ws[i]] && ws == ws[..i] + [ws[i]];
    StringsConcat(ws[..i], [ws[i]]);
    assert [ws[i]][1..] == [];
  }

  // ----- load_args

  /** The loop over the arguments that counts. */
  method CountArgs(args: seq<Text>) returns (total_len: nat, argc: nat)
    ensures total_len == TotalLength(args) && argc == CountedArgs(args)
  {
    total_len, argc := 0, 0;
    assert args[0..] == args;
    for i := 0 to |args|
      invariant total_len + TotalLength(args[i..]) == TotalLength(args)
      invariant argc + CountedArgs(args[i..]) == CountedArgs(args)
    {
      assert args[i..][1..] == args[i + 1..];
      var n := CountSpaces(args[i]);
      total_len, argc := total_len + |args[i]| + 1, argc + n + 1;
    }
  }

  method CountSpaces(s: Text) returns (n: nat)
    ensures n == Spaces(s)
  {
    n := 0;
    assert s[0..] == s;
    for j := 0 to |s|
      invariant n + Spaces(s[j..]) == Spaces(s)
    {
      assert s[j..][1..] == s[j + 1..];
      if s[j] == SPACE {
        n := n + 1;
      }
    }
  }

  /** What the arguments from the `i`-th on still contribute. */
  function Rest(args: seq<Text>, i: nat): Text
    requires i <= |args|
  {
    if i == |args| then [] else Line(args[i..]) + [0]
  }

  lemma {:induction false} RestStep(args: seq<Text>, i: nat, i1: nat, sep: byte)
    requires i < |args| && i1 == i + 1 && sep == if i1 < |args| then SPACE else 0
    ensures Rest(args, i) == (args[i] + [sep]) + Rest(args, i1)
  {
    if i1 < |args| {
      assert args[i..][1..] == args[i1..];
    } else {
      assert args[i..] == [args[i]];
    }
  }

  lemma Regroup(a: Text, b: Text, c: Text, want: Text)
    requires a + (b + c) == want
    ensures (a + b) + c == want
  {
  }

  /** The loop that copies the arguments behind each other. */
  method Compile(args: seq<Text>, total_len: nat) returns (cmdline: array<byte>)
    requires args != [] && total_len == TotalLength(args)
    ensures fresh(cmdline) && cmdline[..] == Line(args) + [0]
  {
    CountIsWordCount(args);
    cmdline := new byte[total_len];
    ghost var want := Line(args) + [0];
    var off: nat := 0;
    ghost var done: Text := [];
    assert args[0..] == args;
    for i := 0 to |args|
      invariant off == |done| && done + Rest(args, i) == want && |want| == total_len
      invariant cmdline[..off] == done
    {
      var sep := if i + 1 < |args| then SPACE else 0;
      RestStep(args, i, i + 1, sep);
      Regroup(done, args[i] + [sep], Rest(args, i + 1), want);
      CopyIn(cmdline, off, args[i] + [sep]);
      done := done + (args[i] + [sep]);
      off := off + |args[i]| + 1;
    }
  }

  method CopyIn(a: array<byte>, at: nat, s: Text)
    requires at + |s| <= a.Length
    modifies a
    ensures a[..at + |s|] == old(a[..at]) + s
  {
    ghost var front := a[..at];
    for i := 0 to |s|
      invariant a[..at + i] == front + s[..i]
    {
      a[at + i] := s[i];
    }
    assert s[..|s|] == s;
  }

  /** strchr: the next space before the terminating zero. */
  method FindSpace(cmdline: array<byte>, from: nat) returns (at: nat, found: bool)
    requires from < cmdline.Length && exists z :: from <= z < cmdline.Length && cmdline[z] == 0
    ensures from <= at < cmdline.Length && (forall i | from <= i < at :: cmdline[i] != SPACE && cmdline[i] != 0)
    ensures if found then cmdline[at] == SPACE else cmdline[at] == 0
  {
    at := from;
    while cmdline[at] != SPACE && cmdline[at] != 0
      invariant from <= at < cmdline.Length && (forall i | from <= i < at :: cmdline[i] != SPACE && cmdline[i] != 0)
      invariant exists z :: at <= z < cmdline.Length && cmdline[z] == 0
      decreases cmdline.Length - at
    {
      at := at + 1;
    }
    found := cmdline[at] == SPACE;
  }

  /** A word holds neither spaces nor zeros. */
  ghost predicate Plain(w: Text) {
    forall i | 0 <= i < |w| :: w[i] != SPACE && w[i] != 0
  }

  lemma {:induction false} WordsPlain(s: Text, i: nat)
    requires (forall k | 0 <= k < |s| :: s[k] != 0) && i < |Words(s)|
    ensures Plain(Words(s)[i])
    decreases |s|
  {
    var k := NextSpace(s, 0);
    if k < |s| && i > 0 {
      WordsPlain(s[k + 1..], i - 1);
    }
  }

  /** The value of the `i`-th pointer. */
  function Pointer(base: nat, argc: nat, ws: seq<Text>, i: nat): nat
    requires i <= |ws|
  {
    (base + argc * 4 + Offset(ws, i)) % 0x1_0000_0000
  }

  /** One round of the cutting: the end of the `i`-th word becomes a zero, unless it is the
      last one; `next` is where the following word begins. */
  method CutOne(cmdline: array<byte>, offset: nat, ghost i: nat, ghost i1: nat, ghost ws: seq<Text>) returns (last: bool, next: nat)
    requires i < |ws| && i1 == i + 1 && offset == Offset(ws, i) && cmdline[..] == HalfCut(ws, i) && Plain(ws[i])
    modifies cmdline
    ensures last <==> i1 == |ws|
    ensures if last then cmdline[..] == Strings(ws) else next == Offset(ws, i1) && cmdline[..] == HalfCut(ws, i1)
  {
    ghost var t := cmdline[..];
    ghost var end := Offset(ws, i) + |ws[i]|;
    if i1 == |ws| {
      CutLast(ws, i, t);
      assert t[end] == 0;
    } else {
      CutNext(ws, i, t, end);
      StringsLength(ws, i);
      assert t[|t| - 1] == 0;
    }
    assert forall k | offset <= k < end :: cmdline[k] == ws[i][k - offset];
    assert exists z :: offset <= z < cmdline.Length && cmdline[z] == 0 by {
      assert cmdline[cmdline.Length - 1] == t[|t| - 1];
    }
    var at, found := FindSpace(cmdline, offset);
    assert at == end;
    last, next := !found, at + 1;
    if found {
      cmdline[at] := 0;
    }
  }

  /** The loop that cuts the line into strings and fills in the pointers: it assigns all of
      them, and never leaves early. */
  method CutLine(cmdline: array<byte>, base: nat, argc: nat, ghost ws: seq<Text>) returns (buf: seq<nat>)
    requires argc == |ws| > 0 && cmdline[..] == HalfCut(ws, 0) && forall i | 0 <= i < |ws| :: Plain(ws[i])
    modifies cmdline
    ensures cmdline[..] == Strings(ws) && |buf| == argc
    ensures forall i | 0 <= i < argc :: buf[i] == Pointer(base, argc, ws, i)
  {
    buf := [];
    var offset: nat, i: nat := 0, 0;
    while true
      invariant i < argc && |buf| == i && offset == Offset(ws, i) && cmdline[..] == HalfCut(ws, i)
      invariant forall k | 0 <= k < i :: buf[k] == Pointer(base, argc, ws, k)
      decreases argc - i
    {
      buf := buf + [(base + argc * 4 + offset) % 0x1_0000_0000];
      var last;
      last, offset := CutOne(cmdline, offset, i, i + 1, ws);
      if last {
        return;
      }
      i := i + 1;
    }
  }

  function PointerBytes(buf: seq<nat>): (r: seq<byte>)
    ensures |r| == 4 * |buf|
    decreases |buf|
  {
    if buf == [] then [] else LittleEndian(buf[0]) + PointerBytes(buf[1..])
  }

  function Pointers(base: nat, argc: nat, ws: seq<Text>): (r: seq<nat>)
    ensures |r| == |ws|
    ensures forall i | 0 <= i < |r| :: r[i] == Pointer(base, argc, ws, i)
  {
    seq(|ws|, i requires 0 <= i < |ws| => Pointer(base, argc, ws, i))
  }

  /** The whole block: the pointers, and behind them the strings. */
  function ArgBlock(base: nat, args: seq<Text>): seq<byte>
  {
    var ws := Words(Line(args));
    PointerBytes(Pointers(base, |ws|, ws)) + Strings(ws)
  }

  ghost predicate NoZeros(s: Text) {
    forall k | 0 <= k < |s| :: s[k] != 0
  }

  lemma {:induction false} LineNoZeros(args: seq<Text>)
    requires forall i | 0 <= i < |args| :: NoZeros(args[i])
    ensures NoZeros(Line(args))
    decreases |args|
  {
    if |args| > 1 {
      LineNoZeros(args[1..]);
    }
  }

  lemma {:induction false} FirstCut(s: Text)
    ensures HalfCut(Words(s), 0) == s + [0]
  {
    WordsJoin(s);
    assert Words(s)[0..] == Words(s) && Words(s)[..0] == [];
  }

  /** load_args, up to the block it hands to load_segment. */
  method BuildArgs(base: nat, args: seq<Text>) returns (block: seq<byte>, argc: nat)
    requires args != [] && forall i | 0 <= i < |args| :: NoZeros(args[i])
    ensures block == ArgBlock(base, args) && argc == |Words(Line(args))|
    ensures |block| == 4 * CountedArgs(args) + TotalLength(args)
  {
    var total_len;
    total_len, argc := CountArgs(args);
    CountIsWordCount(args);
    LineNoZeros(args);
    ghost var ws := Words(Line(args));
    forall i | 0 <= i < |ws| ensures Plain(ws[i]) {
      WordsPlain(Line(args), i);
    }
    var cmdline := Compile(args, total_len);
    FirstCut(Line(args));
    var buf := CutLine(cmdline, base, argc, ws);
    assert buf == Pointers(base, argc, ws);
    block := PointerBytes(buf) + cmdline[..];
  }

  // ----- what the kernel finds

  lemma {:induction false} PointerBytesAt(buf: seq<nat>, i: nat)
    requires i < |buf|
    ensures PointerBytes(buf)[4 * i..4 * i + 4] == LittleEndian(buf[i])
    decreases i
  {
    if i > 0 {
      PointerBytesAt(buf[1..], i - 1);
      assert PointerBytes(buf)[4 * i..4 * i + 4] == PointerBytes(buf[1..])[4 * i - 4..4 * i];
    }
  }

  lemma {:induction false} PointerInBlock(block: seq<byte>, base: nat, ws: seq<Text>, i: nat)
    requires i < |ws| && block == PointerBytes(Pointers(base, |ws|, ws)) + Strings(ws)
    ensures 4 * i + 4 <= |block| && block[4 * i..4 * i + 4] == LittleEndian(Pointer(base, |ws|, ws, i))
  {
    var ptrs := Pointers(base, |ws|, ws);
    PointerBytesAt(ptrs, i);
    assert block[4 * i..4 * i + 4] == PointerBytes(ptrs)[4 * i..4 * i + 4];
  }

  lemma {:induction false} StringInBlock(block: seq<byte>, ptrs: seq<byte>, ws: seq<Text>, i: nat, lo: nat, hi: nat)
    requires i < |ws| && block == ptrs + Strings(ws) && lo == |ptrs| + Offset(ws, i) && hi == lo + |ws[i]| + 1
    ensures hi <= |block| && block[lo..hi] == ws[i] + [0]
  {
    StringAt(ws, i);
    assert block[lo..hi] == Strings(ws)[Offset(ws, i)..Offset(ws, i) + |ws[i]| + 1];
  }

  /** In memory, the `i`-th pointer is the address of the `i`-th word of the command line, with
      a zero behind it. */
  lemma {:induction false} ArgumentInMemory(m: Mem, base: nat, args: seq<Text>, i: nat, ws: seq<Text>, p: nat)
    requires base < ADDRESSES && ws == Words(Line(args)) && Holds(m, base, ArgBlock(base, args)) && i < |ws|
    requires p == Pointer(base, |ws|, ws, i)
    ensures WordAt(m, Wrap(base, 4 * i), p)
    ensures Holds(m, p, ws[i] + [0])
  {
    var block, ptrs := ArgBlock(base, args), PointerBytes(Pointers(base, |ws|, ws));
    var lo := |ptrs| + Offset(ws, i);
    var hi := lo + |ws[i]| + 1;
    PointerInBlock(block, base, ws, i);
    HoldsPart(m, base, block, 4 * i, 4 * i + 4, Wrap(base, 4 * i));
    StringInBlock(block, ptrs, ws, i, lo, hi);
    HoldsPart(m, base, block, lo, hi, p);
  }
}
