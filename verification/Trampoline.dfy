/** The code that jzboot leaves behind the kernel: twelve MIPS instructions whose immediate
    fields are patched, and what executing them does. */
module Trampoline {
  import opened Options
  import opened RsCode
  import opened Memory

  // ----- the instructions that occur, as the MIPS32 architecture encodes them

  type word = bv32

  /** The contents of a register or an immediate field. */
  datatype Value = Value(w: word)

  datatype Instr = Lui(rt: nat, imm: Value) | Ori(rt: nat, rs: nat, imm: Value) | Jr(rs: nat) | Nop | Other

  function Field(w: word): (r: nat)
    ensures r < 32
  {
    (w & 0x1f) as nat
  }

  function Decode(w: word): Instr {
    var op, rs, rt, imm := w >> 26, Field(w >> 21), Field(w >> 16), Value(w & 0xffff);
    if w == 0 then Nop
    else if op == 0x0f && rs == 0 then Lui(rt, imm)
    else if op == 0x0d then Ori(rt, rs, imm)
    else if op == 0 && (w & 0x001f_ffff) == 8 then Jr(rs)
    else Other
  }

  /** The 32 general registers; register 0 reads as zero. */
  type Regs = r: seq<Value> | |r| == 32 witness seq(32, i => Value(0))

  function Get(regs: Regs, r: nat): Value {
    if 0 < r < 32 then regs[r] else Value(0)
  }

  function Set(regs: Regs, r: nat, v: Value): Regs {
    if 0 < r < 32 then regs[r := v] else regs
  }

  function Upper(imm: Value): Value {
    Value(imm.w << 16)
  }

  function Or(a: Value, b: Value): Value {
    Value(a.w | b.w)
  }

  /** An instruction that is not a jump. */
  function Execute(i: Instr, regs: Regs): Option<Regs> {
    match i
    case Lui(rt, imm) => Some(Set(regs, rt, Upper(imm)))
    case Ori(rt, rs, imm) => Some(Set(regs, rt, Or(Get(regs, rs), imm)))
    case Nop => Some(regs)
    case Jr(_) => None
    case Other => None
  }

  /** Execution from the first of the instructions on, up to a jump through a register; the
      instruction behind the jump is executed before it takes effect. */
  function Interpret(code: seq<Instr>, regs: Regs): Option<(Value, Regs)>
    decreases |code|
  {
    if code == [] then None
    else
      match code[0]
      case Jr(rs) =>
        if |code| < 2 then None
        else
          (match Execute(code[1], regs)
           case None => None
           case Some(after) => Some((Get(regs, rs), after)))
      case i =>
        match Execute(i, regs)
        case None => None
        case Some(after) => Interpret(code[1..], after)
  }

  function DecodeAll(ws: seq<word>): (r: seq<Instr>)
    ensures |r| == |ws|
    ensures forall i | 0 <= i < |r| :: r[i] == Decode(ws[i])
  {
    seq(|ws|, i requires 0 <= i < |ws| => Decode(ws[i]))
  }

  // ----- the template

  const TEMPLATE: seq<word> := [
    0x3c04ffff, 0x3484ffff,
    0x3c05ffff, 0x34a5ffff,
    0x3c06ffff, 0x34c6ffff,
    0x3c07ffff, 0x34e7ffff,
    0x3c08ffff, 0x3508ffff,
    0x01000008, 0x00000000
  ]

  function PatchHi(w: word, value: word): word {
    (w & 0xffff0000) | ((value & 0xffff0000) >> 16)
  }

  function PatchLo(w: word, value: word): word {
    (w & 0xffff0000) | (value & 0x0000ffff)
  }

  /** The words after one value has been patched in. */
  function SetAt(t: seq<word>, index: nat, value: word): (r: seq<word>)
    requires 2 * index + 1 < |t|
    ensures |r| == |t|
  {
    t[2 * index := PatchHi(t[2 * index], value)][2 * index + 1 := PatchLo(t[2 * index + 1], value)]
  }

  /** trampoline_set. */
  method TrampolineSet(trampoline: array<word>, index: nat, value: word)
    requires 2 * index + 1 < trampoline.Length
    modifies trampoline
    ensures trampoline[..] == SetAt(old(trampoline[..]), index, value)
  {
    var i := index * 2;
    trampoline[i] := (trampoline[i] & 0xffff0000) | ((value & 0xffff0000) >> 16);
    trampoline[i + 1] := (trampoline[i + 1] & 0xffff0000) | (value & 0x0000ffff);
  }

  /** The patched words. */
  function Patched(a0: word, a1: word, a2: word, a3: word, entry: word): (r: seq<word>)
    ensures |r| == 12
  {
    [
      PatchHi(0x3c04ffff, a0), PatchLo(0x3484ffff, a0),
      PatchHi(0x3c05ffff, a1), PatchLo(0x34a5ffff, a1),
      PatchHi(0x3c06ffff, a2), PatchLo(0x34c6ffff, a2),
      PatchHi(0x3c07ffff, a3), PatchLo(0x34e7ffff, a3),
      PatchHi(0x3c08ffff, entry), PatchLo(0x3508ffff, entry),
      0x01000008, 0x00000000
    ]
  }

  lemma SetAll(a0: word, a1: word, a2: word, a3: word, entry: word)
    ensures SetAt(SetAt(SetAt(SetAt(SetAt(TEMPLATE, 0, a0), 1, a1), 2, a2), 3, a3), 4, entry) == Patched(a0, a1, a2, a3, entry)
  {
  }

  /** The part of load_elf that builds the trampoline. */
  method BuildTrampoline(argc: word, args_base: word, entry: word) returns (trampoline: array<word>)
    ensures fresh(trampoline) && trampoline[..] == Patched(argc, args_base, 0, 0, entry)
  {
    trampoline := new word[12](i requires 0 <= i < 12 => TEMPLATE[i]);
    ghost var t := trampoline[..];
    assert t == TEMPLATE;
    SetAll(argc, args_base, 0, 0, entry);
    TrampolineSet(trampoline, 0, argc);
    TrampolineSet(trampoline, 1, args_base);
    TrampolineSet(trampoline, 2, 0);
    TrampolineSet(trampoline, 3, 0);
    TrampolineSet(trampoline, 4, entry);
  }

  // ----- what the patched words do

  lemma Words4(v: word)
    ensures Decode(PatchHi(0x3c04ffff, v)) == Lui(4, HighHalf(Value(v))) && Decode(PatchLo(0x3484ffff, v)) == Ori(4, 4, LowHalf(Value(v)))
  {
  }

  lemma Words5(v: word)
    ensures Decode(PatchHi(0x3c05ffff, v)) == Lui(5, HighHalf(Value(v))) && Decode(PatchLo(0x34a5ffff, v)) == Ori(5, 5, LowHalf(Value(v)))
  {
  }

  lemma Words6(v: word)
    ensures Decode(PatchHi(0x3c06ffff, v)) == Lui(6, HighHalf(Value(v))) && Decode(PatchLo(0x34c6ffff, v)) == Ori(6, 6, LowHalf(Value(v)))
  {
  }

  lemma Words7(v: word)
    ensures Decode(PatchHi(0x3c07ffff, v)) == Lui(7, HighHalf(Value(v))) && Decode(PatchLo(0x34e7ffff, v)) == Ori(7, 7, LowHalf(Value(v)))
  {
  }

  lemma Words8(v: word)
    ensures Decode(PatchHi(0x3c08ffff, v)) == Lui(8, HighHalf(Value(v))) && Decode(PatchLo(0x3508ffff, v)) == Ori(8, 8, LowHalf(Value(v)))
  {
  }

  function HighHalf(v: Value): Value {
    Value((v.w & 0xffff0000) >> 16)
  }

  function LowHalf(v: Value): Value {
    Value(v.w & 0xffff)
  }

  /** A pair of instructions that loads `v` into register `r`. */
  ghost predicate Loads(i: Instr, j: Instr, r: nat, v: Value) {
    0 < r < 32 && i == Lui(r, HighHalf(v)) && j == Ori(r, r, LowHalf(v))
  }

  lemma HalvesJoin(v: Value)
    ensures Or(Upper(HighHalf(v)), LowHalf(v)) == v
  {
  }

  lemma {:induction false} OneStep(code: seq<Instr>, regs: Regs, after: Regs)
    requires code != [] && !code[0].Jr? && Execute(code[0], regs) == Some(after)
    ensures Interpret(code, regs) == Interpret(code[1..], after)
  {
  }

  lemma {:induction false} LoadPair(code: seq<Instr>, regs: Regs, r: nat, v: Value)
    requires |code| >= 2 && Loads(code[0], code[1], r, v)
    ensures Interpret(code, regs) == Interpret(code[2..], regs[r := v])
  {
    var up := Upper(HighHalf(v));
    HalvesJoin(v);
    OneStep(code, regs, regs[r := up]);
    assert regs[r := up][r := v] == regs[r := v];
    OneStep(code[1..], regs[r := up], regs[r := v]);
    assert code[1..][1..] == code[2..];
  }

  datatype Pair = Pair(r: nat, v: Value)

  function SetMany(regs: Regs, pairs: seq<Pair>): Regs
    decreases |pairs|
  {
    if pairs == [] then regs else SetMany(Set(regs, pairs[0].r, pairs[0].v), pairs[1..])
  }

  /** Code that loads the registers in turn and then jumps through t0. */
  ghost predicate LoadsAll(code: seq<Instr>, pairs: seq<Pair>)
    decreases |pairs|
  {
    if pairs == [] then code == [Jr(8), Nop]
    else |code| >= 2 && Loads(code[0], code[1], pairs[0].r, pairs[0].v) && LoadsAll(code[2..], pairs[1..])
  }

  lemma {:induction false} PairsRun(code: seq<Instr>, pairs: seq<Pair>, regs: Regs)
    requires LoadsAll(code, pairs)
    ensures Interpret(code, regs) == Some((Get(SetMany(regs, pairs), 8), SetMany(regs, pairs)))
    decreases |pairs|
  {
    if pairs != [] {
      LoadPair(code, regs, pairs[0].r, pairs[0].v);
      PairsRun(code[2..], pairs[1..], regs[pairs[0].r := pairs[0].v]);
    }
  }

  lemma JumpThroughT0()
    ensures Decode(0x01000008) == Jr(8) && Decode(0x00000000) == Nop
  {
  }

  function Arguments(a0: word, a1: word, a2: word, a3: word, entry: word): seq<Pair> {
    [Pair(4, Value(a0)), Pair(5, Value(a1)), Pair(6, Value(a2)), Pair(7, Value(a3)), Pair(8, Value(entry))]
  }

  lemma {:induction false} LoadsOneMore(code: seq<Instr>, pairs: seq<Pair>)
    requires |code| >= 2 && pairs != [] && Loads(code[0], code[1], pairs[0].r, pairs[0].v) && LoadsAll(code[2..], pairs[1..])
    ensures LoadsAll(code, pairs)
  {
  }

  lemma {:induction false} PatchedDecodes(a0: word, a1: word, a2: word, a3: word, entry: word)
    ensures LoadsAll(DecodeAll(Patched(a0, a1, a2, a3, entry)), Arguments(a0, a1, a2, a3, entry))
  {
    var code, args := DecodeAll(Patched(a0, a1, a2, a3, entry)), Arguments(a0, a1, a2, a3, entry);
    JumpThroughT0();
    assert code[10..] == [Jr(8), Nop] && args[5..] == [];
    Words8(entry);
    assert code[8..][2..] == code[10..] && args[4..][1..] == args[5..];
    LoadsOneMore(code[8..], args[4..]);
    Words7(a3);
    assert code[6..][2..] == code[8..] && args[3..][1..] == args[4..];
    LoadsOneMore(code[6..], args[3..]);
    Words6(a2);
    assert code[4..][2..] == code[6..] && args[2..][1..] == args[3..];
    LoadsOneMore(code[4..], args[2..]);
    Words5(a1);
    assert code[2..][2..] == code[4..] && args[1..][1..] == args[2..];
    LoadsOneMore(code[2..], args[1..]);
    Words4(a0);
    LoadsOneMore(code, args);
  }

  /** The registers as the kernel finds them: the arguments in a0 to a3, and its own address in
      t0; the others are untouched. */
  function Entered(regs: Regs, a0: word, a1: word, a2: word, a3: word, entry: word): Regs {
    regs[4 := Value(a0)][5 := Value(a1)][6 := Value(a2)][7 := Value(a3)][8 := Value(entry)]
  }

  lemma {:induction false} ArgumentsEnter(regs: Regs, a0: word, a1: word, a2: word, a3: word, entry: word)
    ensures SetMany(regs, Arguments(a0, a1, a2, a3, entry)) == Entered(regs, a0, a1, a2, a3, entry)
  {
    var args := Arguments(a0, a1, a2, a3, entry);
    var r1 := Set(regs, 4, Value(a0));
    var r2 := Set(r1, 5, Value(a1));
    var r3 := Set(r2, 6, Value(a2));
    var r4 := Set(r3, 7, Value(a3));
    assert args[1..][1..] == args[2..] && args[2..][1..] == args[3..] && args[3..][1..] == args[4..] && args[4..][1..] == [];
    assert SetMany(regs, args) == SetMany(r1, args[1..]);
    assert SetMany(r1, args[1..]) == SetMany(r2, args[2..]);
    assert SetMany(r2, args[2..]) == SetMany(r3, args[3..]);
    assert SetMany(r3, args[3..]) == SetMany(r4, args[4..]);
    assert SetMany(r4, args[4..]) == SetMany(Set(r4, 8, Value(entry)), []);
  }

  /** For all 32-bit values: execution reaches `entry` with the four arguments in place. */
  lemma {:induction false} TrampolineRuns(a0: word, a1: word, a2: word, a3: word, entry: word, regs: Regs, code: seq<Instr>)
    requires code == DecodeAll(Patched(a0, a1, a2, a3, entry))
    ensures Interpret(code, regs) == Some((Value(entry), Entered(regs, a0, a1, a2, a3, entry)))
  {
    PatchedDecodes(a0, a1, a2, a3, entry);
    PairsRun(code, Arguments(a0, a1, a2, a3, entry), regs);
    ArgumentsEnter(regs, a0, a1, a2, a3, entry);
  }

  // ----- the words as bytes in the target's memory

  function Bytes(w: word): (r: seq<byte>)
    ensures |r| == 4
  {
    [(w & 0xff) as byte, ((w >> 8) & 0xff) as byte, ((w >> 16) & 0xff) as byte, ((w >> 24) & 0xff) as byte]
  }

  function Image(ws: seq<word>): (r: seq<byte>)
    ensures |r| == 4 * |ws|
    decreases |ws|
  {
    if ws == [] then [] else Bytes(ws[0]) + Image(ws[1..])
  }

  /** Instruction `i` is stored with its least significant byte first, as the target reads it. */
  lemma {:induction false} ImageBytes(ws: seq<word>, i: nat, w: word)
    requires i < |ws| && w == ws[i]
    ensures Image(ws)[4 * i..4 * i + 4] == [(w % 0x100) as byte, (w / 0x100 % 0x100) as byte, (w / 0x1_0000 % 0x100) as byte, (w / 0x100_0000) as byte]
    decreases i
  {
    var first, rest := Bytes(ws[0]), Image(ws[1..]);
    if i == 0 {
      BytesMean(w);
      assert (first + rest)[..4] == first;
    } else {
      ImageBytes(ws[1..], i - 1, w);
      assert (first + rest)[4 * i..4 * i + 4] == rest[4 * i - 4..4 * i];
    }
  }

  lemma BytesMean(w: word)
    ensures Bytes(w) == [(w % 0x100) as byte, (w / 0x100 % 0x100) as byte, (w / 0x1_0000 % 0x100) as byte, (w / 0x100_0000) as byte]
  {
    assert w & 0xff == w % 0x100 && (w >> 8) & 0xff == w / 0x100 % 0x100;
    assert (w >> 16) & 0xff == w / 0x1_0000 % 0x100 && (w >> 24) & 0xff == w / 0x100_0000;
  }

  function JoinBytes(a: byte, b: byte, c: byte, d: byte): word {
    (a as word) | ((b as word) << 8) | ((c as word) << 16) | ((d as word) << 24)
  }

  /** The `n` words from address `a` on. */
  function Fetch(m: Mem, a: nat, n: nat): Option<seq<word>>
    decreases n
  {
    if n == 0 then Some([])
    else if !(Wrap(a, 0) in m && Wrap(a, 1) in m && Wrap(a, 2) in m && Wrap(a, 3) in m) then None
    else
      match Fetch(m, Wrap(a, 4), n - 1)
      case None => None
      case Some(rest) => Some([JoinBytes(m[Wrap(a, 0)], m[Wrap(a, 1)], m[Wrap(a, 2)], m[Wrap(a, 3)])] + rest)
  }

  lemma JoinSplit(w: word)
    ensures JoinBytes((w & 0xff) as byte, ((w >> 8) & 0xff) as byte, ((w >> 16) & 0xff) as byte, ((w >> 24) & 0xff) as byte) == w
  {
  }

  lemma {:induction false} FetchBack(m: Mem, a: nat, ws: seq<word>)
    requires Holds(m, a, Image(ws))
    ensures Fetch(m, a, |ws|) == Some(ws)
    decreases |ws|
  {
    if ws != [] {
      var s, rest := Image(ws), Image(ws[1..]);
      assert HoldsAt(m, a, 0, s[0]) && HoldsAt(m, a, 1, s[1]) && HoldsAt(m, a, 2, s[2]) && HoldsAt(m, a, 3, s[3]);
      forall i | 0 <= i < |rest| ensures HoldsAt(m, Wrap(a, 4), i, rest[i]) {
        WrapTwice(a, 4, i);
        assert HoldsAt(m, a, i + 4, s[i + 4]);
      }
      FetchBack(m, Wrap(a, 4), ws[1..]);
      JoinSplit(ws[0]);
      assert ws == [ws[0]] + ws[1..];
    }
  }

  /** Executed from memory, wherever it has been loaded. */
  lemma {:induction false} TrampolineRunsFromMemory(m: Mem, base: nat, argc: word, argv: word, entry: word, regs: Regs)
    requires Holds(m, base, Image(Patched(argc, argv, 0, 0, entry)))
    ensures Fetch(m, base, 12).Some?
    ensures Interpret(DecodeAll(Fetch(m, base, 12).value), regs) == Some((Value(entry), Entered(regs, argc, argv, 0, 0, entry)))
  {
    var ws := Patched(argc, argv, 0, 0, entry);
    FetchBack(m, base, ws);
    TrampolineRuns(argc, argv, 0, 0, entry, regs, DecodeAll(ws));
  }
}
