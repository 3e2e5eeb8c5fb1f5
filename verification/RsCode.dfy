/** Correction of 9-bit Reed-Solomon symbols inside a 512-byte sector, and the
    contract of the hardware engine that reports which symbols are wrong. */
module RsCode {

  type byte = bv8

  const ECC_BLOCK: nat := 512
  const PAR_SIZE: nat := 9
  /** The last symbol that lies wholly inside the sector: 9 * 455 <= 4096 < 9 * 456. */
  const LAST_SYMBOL: nat := 455

  /** One error report register: the symbol number, counted from 1, and the bits to invert. */
  datatype SymErr = SymErr(idx: nat, mask: bv16)

  predicate ValidErr(e: SymErr) {
    1 <= e.idx <= LAST_SYMBOL && e.mask <= 0x1ff
  }

  // ----- 16-bit shifts by a distance below 8

  function Shl(w: bv16, j: nat): bv16
    requires j < 8
  {
    match j
    case 0 => w
    case 1 => w << 1
    case 2 => w << 2
    case 3 => w << 3
    case 4 => w << 4
    case 5 => w << 5
    case 6 => w << 6
    case _ => w << 7
  }

  function Shr(w: bv16, j: nat): bv16
    requires j < 8
  {
    match j
    case 0 => w
    case 1 => w >> 1
    case 2 => w >> 2
    case 3 => w >> 3
    case 4 => w >> 4
    case 5 => w >> 5
    case 6 => w >> 6
    case _ => w >> 7
  }

  function Word(lo: byte, hi: byte): bv16 {
    ((hi as bv16) << 8) | (lo as bv16)
  }

  function Lo(w: bv16): byte {
    (w & 0xff) as byte
  }

  function Hi(w: bv16): byte {
    ((w >> 8) & 0xff) as byte
  }

  /** The upper of the two bytes that hold symbol `idx`. */
  function SymByte(idx: nat): (i: nat)
    requires 1 <= idx <= LAST_SYMBOL
    ensures 1 <= i < ECC_BLOCK
  {
    if idx * 9 % 8 == 0 then idx * 9 / 8 - 1 else idx * 9 / 8
  }

  /** The distance of symbol `idx` from the bottom of its two bytes. */
  function SymShift(idx: nat): (j: nat)
    ensures j < 8
  {
    if idx * 9 % 8 == 0 then 7 else idx * 9 % 8 - 1
  }

  /** Symbol `idx` starts at bit 9 * (idx - 1) of the little-endian bit stream. */
  lemma SymbolStart(idx: nat)
    requires 1 <= idx <= LAST_SYMBOL
    ensures 8 * (SymByte(idx) - 1) + SymShift(idx) == 9 * (idx - 1)
  {
  }

  // ----- sectors as byte sequences under exclusive or

  function Zeros(): (z: seq<byte>)
    ensures |z| == ECC_BLOCK
  {
    seq(ECC_BLOCK, i => 0 as byte)
  }

  function Xor(a: seq<byte>, b: seq<byte>): (r: seq<byte>)
    requires |a| == |b|
    ensures |r| == |a|
    ensures forall i | 0 <= i < |r| :: r[i] == a[i] ^ b[i]
  {
    seq(|a|, i requires 0 <= i < |a| => a[i] ^ b[i])
  }

  lemma XorComm3(a: seq<byte>, x: seq<byte>, y: seq<byte>)
    requires |a| == |x| == |y|
    ensures Xor(Xor(a, x), y) == Xor(Xor(a, y), x)
    ensures Xor(Xor(a, x), y) == Xor(a, Xor(x, y))
  {
  }

  lemma XorCancel(a: seq<byte>, x: seq<byte>)
    requires |a| == |x|
    ensures Xor(Xor(a, x), x) == a
  {
  }

  lemma XorZeros(a: seq<byte>)
    requires |a| == ECC_BLOCK
    ensures Xor(a, Zeros()) == a
  {
  }

  /** The sector-wide mask of one symbol error. */
  function SymMask(e: SymErr): (m: seq<byte>)
    requires ValidErr(e)
    ensures |m| == ECC_BLOCK
  {
    var i := SymByte(e.idx);
    var w := Shl(e.mask, SymShift(e.idx));
    Zeros()[i - 1 := Lo(w)][i := Hi(w)]
  }

  // ----- bits

  function Power(t: nat): bv16
    requires t < 16
  {
    match t
    case 0 => 1 case 1 => 2 case 2 => 4 case 3 => 8
    case 4 => 0x10 case 5 => 0x20 case 6 => 0x40 case 7 => 0x80
    case 8 => 0x100 case 9 => 0x200 case 10 => 0x400 case 11 => 0x800
    case 12 => 0x1000 case 13 => 0x2000 case 14 => 0x4000 case _ => 0x8000
  }

  predicate Bit(w: bv16, t: nat)
    requires t < 16
  {
    w & Power(t) != 0
  }

  predicate ByteBit(b: byte, t: nat)
    requires t < 8
  {
    b & (Power(t) as byte) != 0
  }

  /** Bit `n` of the little-endian bit stream of `s`. */
  predicate StreamBit(s: seq<byte>, n: nat)
    requires n < 8 * |s|
  {
    ByteBit(s[n / 8], n % 8)
  }

  lemma MaskedXor(a: byte, b: byte, p: byte)
    requires p == 1 || p == 2 || p == 4 || p == 8 || p == 0x10 || p == 0x20 || p == 0x40 || p == 0x80
    ensures (a ^ b) & p != 0 <==> (a & p != 0) != (b & p != 0)
  {
  }

  lemma BitXor(a: byte, b: byte, t: nat)
    requires t < 8
    ensures ByteBit(a ^ b, t) <==> ByteBit(a, t) != ByteBit(b, t)
  {
    MaskedXor(a, b, Power(t) as byte);
  }

  /** Where bit `t` of the two bytes of a word comes from. */
  ghost predicate Halves(w: bv16, t: nat)
    requires t < 8
  {
    (ByteBit(Lo(w), t) <==> Bit(w, t)) && (ByteBit(Hi(w), t) <==> Bit(w, t + 8))
  }

  lemma LoHiBits(w: bv16, t: nat)
    requires t < 8
    ensures Halves(w, t)
  {
    match t
    case 0 => LoHiBit0(w);
    case 1 => LoHiBit1(w);
    case 2 => LoHiBit2(w);
    case 3 => LoHiBit3(w);
    case 4 => LoHiBit4(w);
    case 5 => LoHiBit5(w);
    case 6 => LoHiBit6(w);
    case _ => LoHiBit7(w);
  }

  lemma LoHiBit0(w: bv16)
    ensures Halves(w, 0)
  {}

  lemma LoHiBit1(w: bv16)
    ensures Halves(w, 1)
  {}

  lemma LoHiBit2(w: bv16)
    ensures Halves(w, 2)
  {}

  lemma LoHiBit3(w: bv16)
    ensures Halves(w, 3)
  {}

  lemma LoHiBit4(w: bv16)
    ensures Halves(w, 4)
  {}

  lemma LoHiBit5(w: bv16)
    ensures Halves(w, 5)
  {}

  lemma LoHiBit6(w: bv16)
    ensures Halves(w, 6)
  {}

  lemma LoHiBit7(w: bv16)
    ensures Halves(w, 7)
  {}

  // ----- rs_correct

  /** The two-byte read-modify-write of the source. */
  function FixWord(d: bv16, j: nat, mask: bv16): bv16
    requires j < 8
  {
    var d1 := (Shr(d, j) & 0x1ff) ^ mask;
    var dm := !Shl(0x1ff, j);
    (d & dm) | Shl(d1, j)
  }

  /** The read-modify-write inverts the mask's bits, moved up by `j`, and nothing else. */
  ghost predicate ShiftLaw(d: bv16, m: bv16, j: nat, t: nat)
    requires j < 8 && t < 16
  {
    && FixWord(d, j, m) == d ^ Shl(m, j)
    && (Bit(Shl(m, j), t) <==> j <= t < j + 9 && Bit(m, t - j))
  }

  lemma ShiftBy0(d: bv16, m: bv16, t: nat)
    requires m <= 0x1ff && t < 16
    ensures ShiftLaw(d, m, 0, t)
  {}

  lemma ShiftBy1(d: bv16, m: bv16, t: nat)
    requires m <= 0x1ff && t < 16
    ensures ShiftLaw(d, m, 1, t)
  {}

  lemma ShiftBy2(d: bv16, m: bv16, t: nat)
    requires m <= 0x1ff && t < 16
    ensures ShiftLaw(d, m, 2, t)
  {}

  lemma ShiftBy3(d: bv16, m: bv16, t: nat)
    requires m <= 0x1ff && t < 16
    ensures ShiftLaw(d, m, 3, t)
  {}

  lemma ShiftBy4(d: bv16, m: bv16, t: nat)
    requires m <= 0x1ff && t < 16
    ensures ShiftLaw(d, m, 4, t)
  {}

  lemma ShiftBy5(d: bv16, m: bv16, t: nat)
    requires m <= 0x1ff && t < 16
    ensures ShiftLaw(d, m, 5, t)
  {}

  lemma ShiftBy6(d: bv16, m: bv16, t: nat)
    requires m <= 0x1ff && t < 16
    ensures ShiftLaw(d, m, 6, t)
  {}

  lemma ShiftBy7(d: bv16, m: bv16, t: nat)
    requires m <= 0x1ff && t < 16
    ensures ShiftLaw(d, m, 7, t)
  {}

  lemma ShiftBy(d: bv16, m: bv16, j: nat, t: nat)
    requires m <= 0x1ff && j < 8 && t < 16
    ensures ShiftLaw(d, m, j, t)
  {
    match j
    case 0 => ShiftBy0(d, m, t);
    case 1 => ShiftBy1(d, m, t);
    case 2 => ShiftBy2(d, m, t);
    case 3 => ShiftBy3(d, m, t);
    case 4 => ShiftBy4(d, m, t);
    case 5 => ShiftBy5(d, m, t);
    case 6 => ShiftBy6(d, m, t);
    case _ => ShiftBy7(d, m, t);
  }

  lemma WordXor(lo: byte, hi: byte, w: bv16)
    ensures Lo(Word(lo, hi) ^ w) == lo ^ Lo(w)
    ensures Hi(Word(lo, hi) ^ w) == hi ^ Hi(w)
  {
  }

  /** The lower byte of a mask moved up by `j`. */
  lemma LowBits(m: bv16, j: nat, t: nat)
    requires m <= 0x1ff && j < 8 && t < 8
    ensures ByteBit(Lo(Shl(m, j)), t) <==> j <= t && Bit(m, t - j)
  {
    LoHiBits(Shl(m, j), t);
    ShiftBy(0, m, j, t);
  }

  /** And the upper byte. */
  lemma HighBits(m: bv16, j: nat, t: nat)
    requires m <= 0x1ff && j < 8 && t < 8
    ensures ByteBit(Hi(Shl(m, j)), t) <==> t < j + 1 && Bit(m, t + 8 - j)
  {
    LoHiBits(Shl(m, j), t);
    ShiftBy(0, m, j, t + 8);
  }

  lemma SymMaskByte(e: SymErr, i: nat, k: nat)
    requires ValidErr(e) && i == SymByte(e.idx) && k < ECC_BLOCK
    ensures var w := Shl(e.mask, SymShift(e.idx));
            SymMask(e)[k] == if k == i - 1 then Lo(w) else if k == i then Hi(w) else 0
  {
  }

  /** Bit `n` of a symbol's mask is set exactly when `n` is one of the nine bits of
      the symbol and the report asks for that bit. */
  lemma SymMaskBits(e: SymErr, n: nat)
    requires ValidErr(e) && n < 8 * ECC_BLOCK
    ensures StreamBit(SymMask(e), n) <==> 9 * (e.idx - 1) <= n < 9 * e.idx && Bit(e.mask, n - 9 * (e.idx - 1))
  {
    var i, j, k, t := SymByte(e.idx), SymShift(e.idx), n / 8, n % 8;
    SymbolStart(e.idx);
    SymMaskByte(e, i, k);
    if k == i - 1 {
      LowBits(e.mask, j, t);
      assert n - 9 * (e.idx - 1) == t - j;
    } else if k == i {
      HighBits(e.mask, j, t);
      assert n - 9 * (e.idx - 1) == t + 8 - j;
    } else {
      ZeroBit(t);
    }
  }

  lemma ZeroBit(t: nat)
    requires t < 8
    ensures !ByteBit(0, t)
  {
  }

  /** rs_correct inverts exactly the reported bits of the reported symbol: for every bit
      of the sector's stream, and so for every byte of the buffer. */
  lemma CorrectionBits(s: seq<byte>, e: SymErr, n: nat)
    requires |s| == ECC_BLOCK && ValidErr(e) && n < 8 * ECC_BLOCK
    ensures StreamBit(Xor(s, SymMask(e)), n) <==>
            StreamBit(s, n) != (9 * (e.idx - 1) <= n < 9 * e.idx && Bit(e.mask, n - 9 * (e.idx - 1)))
  {
    SymMaskBits(e, n);
    BitXor(s[n / 8], SymMask(e)[n / 8], n % 8);
  }

  lemma XorTwo(s: seq<byte>, i: nat, lo: byte, hi: byte)
    requires |s| == ECC_BLOCK && i + 1 < ECC_BLOCK
    ensures Xor(s, Zeros()[i := lo][i + 1 := hi]) == s[i := s[i] ^ lo][i + 1 := s[i + 1] ^ hi]
  {
    XorUpdate(s, Zeros()[i := lo], i + 1, hi);
    XorUpdate(s, Zeros(), i, lo);
    XorZeros(s);
  }

  lemma XorUpdate(s: seq<byte>, m: seq<byte>, i: nat, b: byte)
    requires |s| == |m| && i < |s|
    ensures Xor(s, m[i := b]) == Xor(s, m)[i := s[i] ^ b]
  {
  }

  method FixPair(lo: byte, hi: byte, j: nat, mask: bv16) returns (lo': byte, hi': byte)
    requires j < 8 && mask <= 0x1ff
    ensures lo' == lo ^ Lo(Shl(mask, j)) && hi' == hi ^ Hi(Shl(mask, j))
  {
    var d := FixWord(Word(lo, hi), j, mask);
    ShiftBy(Word(lo, hi), mask, j, 0);
    WordXor(lo, hi, Shl(mask, j));
    lo', hi' := Lo(d), Hi(d);
  }

  method LocateSymbol(idx: nat) returns (i: nat, j: nat)
    requires 1 <= idx <= LAST_SYMBOL
    ensures i == SymByte(idx) && j == SymShift(idx)
  {
    i := idx * 9 / 8;
    j := idx * 9 % 8;
    i := if j == 0 then i - 1 else i;
    j := if j == 0 then 7 else j - 1;
  }

  /** Exclusive or of a 16-bit word into two bytes of a buffer. */
  function XorWordAt(s: seq<byte>, p: nat, lo: byte, hi: byte): (r: seq<byte>)
    requires p + 1 < |s|
  {
    s[p := s[p] ^ lo][p + 1 := s[p + 1] ^ hi]
  }

  method RsCorrect(buf: array<byte>, off: nat, idx: nat, mask: bv16)
    requires off + ECC_BLOCK <= buf.Length
    requires ValidErr(SymErr(idx, mask))
    modifies buf
    ensures var w := Shl(mask, SymShift(idx));
            buf[..] == XorWordAt(old(buf[..]), off + SymByte(idx) - 1, Lo(w), Hi(w))
  {
    var i, j := LocateSymbol(idx);
    var lo, hi := FixPair(buf[off + i - 1], buf[off + i], j, mask);
    StoreTwo(buf, off + i - 1, lo, hi);
  }

  method StoreTwo(buf: array<byte>, p: nat, lo: byte, hi: byte)
    requires p + 1 < buf.Length
    modifies buf
    ensures buf[..] == old(buf[..])[p := lo][p + 1 := hi]
  {
    buf[p] := lo;
    buf[p + 1] := hi;
  }

  /** Seen from the sector, rs_correct adds the symbol's mask; outside it nothing changes. */
  lemma RsCorrectInSector(s: seq<byte>, off: nat, e: SymErr)
    requires off + ECC_BLOCK <= |s| && ValidErr(e)
    ensures var w := Shl(e.mask, SymShift(e.idx));
            var t := XorWordAt(s, off + SymByte(e.idx) - 1, Lo(w), Hi(w));
            && t[off..off + ECC_BLOCK] == Xor(s[off..off + ECC_BLOCK], SymMask(e))
            && t[..off] == s[..off] && t[off + ECC_BLOCK..] == s[off + ECC_BLOCK..]
  {
    var w := Shl(e.mask, SymShift(e.idx));
    XorWordSlice(s, off, SymByte(e.idx) - 1, Lo(w), Hi(w));
  }

  lemma XorWordSlice(s: seq<byte>, off: nat, i: nat, lo: byte, hi: byte)
    requires off + ECC_BLOCK <= |s| && i + 1 < ECC_BLOCK
    ensures var t := XorWordAt(s, off + i, lo, hi);
            && t[off..off + ECC_BLOCK] == Xor(s[off..off + ECC_BLOCK], Zeros()[i := lo][i + 1 := hi])
            && t[..off] == s[..off] && t[off + ECC_BLOCK..] == s[off + ECC_BLOCK..]
  {
    SliceTwo(s, off, i, s[off + i] ^ lo, s[off + i + 1] ^ hi);
    XorTwo(s[off..off + ECC_BLOCK], i, lo, hi);
  }

  lemma SliceTwo(s: seq<byte>, off: nat, i: nat, lo: byte, hi: byte)
    requires off + ECC_BLOCK <= |s| && i + 1 < ECC_BLOCK
    ensures var t := s[off + i := lo][off + i + 1 := hi];
            && t[off..off + ECC_BLOCK] == s[off..off + ECC_BLOCK][i := lo][i + 1 := hi]
            && t[..off] == s[..off] && t[off + ECC_BLOCK..] == s[off + ECC_BLOCK..]
  {
  }

  // ----- several errors in one sector

  /** The combined mask of a list of symbol errors. */
  function MaskOf(errs: seq<SymErr>): (m: seq<byte>)
    requires forall e | e in errs :: ValidErr(e)
    ensures |m| == ECC_BLOCK
  {
    if errs == [] then Zeros() else Xor(MaskOf(errs[1..]), SymMask(errs[0]))
  }

  function Damage(s: seq<byte>, errs: seq<SymErr>): (r: seq<byte>)
    requires |s| == ECC_BLOCK
    requires forall e | e in errs :: ValidErr(e)
    ensures |r| == ECC_BLOCK
  {
    Xor(s, MaskOf(errs))
  }

  /** The report names bit `n` of the sector's stream: its symbol has the bit, and its mask. */
  predicate NamesBit(e: SymErr, n: nat)
    requires ValidErr(e)
  {
    9 * (e.idx - 1) <= n < 9 * e.idx && Bit(e.mask, n - 9 * (e.idx - 1))
  }

  /** How many of the reports name it. */
  function Hits(errs: seq<SymErr>, n: nat): nat
    requires forall e | e in errs :: ValidErr(e)
  {
    if errs == [] then 0 else Hits(errs[1..], n) + (if NamesBit(errs[0], n) then 1 else 0)
  }

  lemma DamageFirst(s: seq<byte>, errs: seq<SymErr>)
    requires |s| == ECC_BLOCK && errs != [] && forall e | e in errs :: ValidErr(e)
    ensures Damage(s, errs) == Xor(Damage(s, errs[1..]), SymMask(errs[0]))
  {
    XorComm3(s, MaskOf(errs[1..]), SymMask(errs[0]));
  }

  lemma DamageBit(s: seq<byte>, e: SymErr, n: nat)
    requires |s| == ECC_BLOCK && ValidErr(e) && n < 8 * ECC_BLOCK
    ensures StreamBit(Xor(s, SymMask(e)), n) <==> StreamBit(s, n) != NamesBit(e, n)
  {
    CorrectionBits(s, e, n);
  }

  /** Correction by any list of reports, bit by bit: a bit is inverted when an odd number of
      reports name it. */
  lemma {:induction false} DamageBits(s: seq<byte>, errs: seq<SymErr>, n: nat)
    requires |s| == ECC_BLOCK && n < 8 * ECC_BLOCK
    requires forall e | e in errs :: ValidErr(e)
    ensures StreamBit(Damage(s, errs), n) <==> StreamBit(s, n) != (Hits(errs, n) % 2 == 1)
    decreases |errs|
  {
    if errs == [] {
      XorZeros(s);
    } else {
      DamageBits(s, errs[1..], n);
      DamageFirst(s, errs);
      DamageBit(Damage(s, errs[1..]), errs[0], n);
    }
  }

  lemma {:induction false} MaskOfRemove(errs: seq<SymErr>, k: nat)
    requires forall e | e in errs :: ValidErr(e)
    requires k < |errs|
    ensures forall e | e in errs[..k] + errs[k + 1..] :: ValidErr(e)
    ensures MaskOf(errs) == Xor(MaskOf(errs[..k] + errs[k + 1..]), SymMask(errs[k]))
  {
    var less := errs[..k] + errs[k + 1..];
    if k == 0 {
      assert less == errs[1..];
    } else {
      MaskOfRemove(errs[1..], k - 1);
      assert errs[1..][..k - 1] + errs[1..][k..] == less[1..];
      XorComm3(MaskOf(less[1..]), SymMask(errs[k]), SymMask(errs[0]));
    }
  }

  /** The order in which the registers report the errors does not matter. */
  lemma {:induction false} MaskOfPermuted(a: seq<SymErr>, b: seq<SymErr>)
    requires forall e | e in a :: ValidErr(e)
    requires multiset(a) == multiset(b)
    ensures forall e | e in b :: ValidErr(e)
    ensures MaskOf(a) == MaskOf(b)
    decreases |a|
  {
    forall e | e in b ensures ValidErr(e) {
      assert e in multiset(b);
    }
    if a == [] {
      assert |multiset(b)| == 0;
    } else {
      assert a[0] in multiset(b);
      var k :| 0 <= k < |b| && b[k] == a[0];
      var less := b[..k] + b[k + 1..];
      assert b == b[..k] + [b[k]] + b[k + 1..];
      assert a == [a[0]] + a[1..];
      assert multiset(a) == multiset{a[0]} + multiset(a[1..]);
      assert multiset(b) == multiset{b[k]} + multiset(less);
      assert multiset(a[1..]) == multiset(a) - multiset{a[0]};
      MaskOfPermuted(a[1..], less);
      MaskOfRemove(b, k);
    }
  }

  /** Applying the reported corrections to the damaged sector gives the sector back. */
  lemma CorrectionUndoesDamage(s: seq<byte>, errs: seq<SymErr>, report: seq<SymErr>)
    requires |s| == ECC_BLOCK
    requires forall e | e in errs :: ValidErr(e)
    requires multiset(report) == multiset(errs)
    ensures forall e | e in report :: ValidErr(e)
    ensures Damage(Damage(s, errs), report) == s
  {
    MaskOfPermuted(errs, report);
    XorCancel(s, MaskOf(errs));
  }

  // ----- the engine

  /** What the status register says after one sector has been decoded. */
  datatype Report =
    | NoError
    | Uncorrectable
    | Errors(errcnt: nat, regs: seq<SymErr>)

  /** The Reed-Solomon hardware, as two functions of what is clocked through it. */
  datatype Engine = Engine(encode: seq<byte> -> seq<byte>, decode: (seq<byte>, seq<byte>) -> Report)

  function Ones(n: nat): (r: seq<byte>)
    ensures |r| == n
    ensures forall i | 0 <= i < n :: r[i] == 0xff
  {
    seq(n, i => 0xff as byte)
  }

  predicate WellFormedReport(r: Report) {
    r.Errors? ==> |r.regs| == 4 && forall i | 0 <= i < 4 && i < r.errcnt :: ValidErr(r.regs[i])
  }

  /** Up to four distinct data symbols are wrong. */
  predicate Correctable(errs: seq<SymErr>) {
    && |errs| <= 4
    && (forall e | e in errs :: ValidErr(e) && e.mask != 0)
    && (forall i, j | 0 <= i < j < |errs| :: errs[i].idx != errs[j].idx)
  }

  predicate Names(r: Report, errs: seq<SymErr>) {
    if errs == [] then r == NoError
    else r.Errors? && r.errcnt == |errs| && |r.regs| == 4 && |errs| <= 4 && multiset(r.regs[..|errs|]) == multiset(errs)
  }

  ghost predicate ParityFits(rs: Engine, s: seq<byte>) {
    |s| == ECC_BLOCK ==> |rs.encode(s)| == PAR_SIZE
  }

  ghost predicate ReportFits(rs: Engine, s: seq<byte>, p: seq<byte>) {
    WellFormedReport(rs.decode(s, p))
  }

  ghost predicate Faithful(rs: Engine, s: seq<byte>, errs: seq<SymErr>) {
    |s| == ECC_BLOCK && Correctable(errs) ==> Names(rs.decode(Damage(s, errs), rs.encode(s)), errs)
  }

  /** The contract: parity is 9 bytes, a sector with at most four damaged data symbols is
      reported faithfully, and an erased sector is reported clean or uncorrectable. */
  ghost predicate Sound(rs: Engine) {
    && (forall s :: ParityFits(rs, s))
    && (forall s, p :: ReportFits(rs, s, p))
    && (forall s, errs :: Faithful(rs, s, errs))
    && !rs.decode(Ones(ECC_BLOCK), Ones(PAR_SIZE)).Errors?
  }

  /** What the driver keeps of a sector: the corrections of the first `errcnt` registers
      when `errcnt` is 1 to 4, and the raw bytes otherwise. */
  function Decoded(rs: Engine, raw: seq<byte>, par: seq<byte>): (s: seq<byte>)
    requires Sound(rs) && |raw| == ECC_BLOCK
    ensures |s| == ECC_BLOCK
  {
    assert ReportFits(rs, raw, par);
    var r := rs.decode(raw, par);
    if r.Errors? && 1 <= r.errcnt <= 4 then Damage(raw, r.regs[..r.errcnt]) else raw
  }

  /** A sector stored with its parity and then damaged in at most four data symbols reads
      back as it was written. */
  lemma DamagedSectorReadsBack(rs: Engine, s: seq<byte>, errs: seq<SymErr>)
    requires Sound(rs) && |s| == ECC_BLOCK && Correctable(errs)
    ensures Decoded(rs, Damage(s, errs), rs.encode(s)) == s
  {
    var r := rs.decode(Damage(s, errs), rs.encode(s));
    assert Faithful(rs, s, errs);
    if errs == [] {
      XorZeros(s);
    } else {
      CorrectionUndoesDamage(s, errs, r.regs[..|errs|]);
    }
  }

  lemma ErasedSectorReadsBack(rs: Engine)
    requires Sound(rs)
    ensures Decoded(rs, Ones(ECC_BLOCK), Ones(PAR_SIZE)) == Ones(ECC_BLOCK)
  {
  }

  /** Falling through applies the registers from the last to the first. */
  lemma DamageLast(s: seq<byte>, regs: seq<SymErr>, n: nat)
    requires |s| == ECC_BLOCK && n < |regs|
    requires forall i | 0 <= i <= n :: ValidErr(regs[i])
    ensures Damage(s, regs[..n + 1]) == Damage(Xor(s, SymMask(regs[n])), regs[..n])
  {
    var done := regs[..n + 1];
    assert done[..n] + done[n + 1..] == regs[..n];
    MaskOfRemove(done, n);
    XorComm3(s, MaskOf(regs[..n]), SymMask(regs[n]));
  }

  /** One correction, seen from the list of corrections still to come. */
  lemma CorrectionStep(s: seq<byte>, t: seq<byte>, off: nat, regs: seq<SymErr>, n: nat)
    requires off + ECC_BLOCK <= |s| == |t| && n < |regs|
    requires forall i | 0 <= i <= n :: ValidErr(regs[i])
    requires t[off..off + ECC_BLOCK] == Xor(s[off..off + ECC_BLOCK], SymMask(regs[n]))
    ensures Damage(t[off..off + ECC_BLOCK], regs[..n]) == Damage(s[off..off + ECC_BLOCK], regs[..n + 1])
  {
    DamageLast(s[off..off + ECC_BLOCK], regs, n);
  }

  /** One case of the switch. */
  method CorrectReg(buf: array<byte>, off: nat, regs: seq<SymErr>, n: nat)
    requires off + ECC_BLOCK <= buf.Length && n < |regs|
    requires forall i | 0 <= i <= n :: ValidErr(regs[i])
    modifies buf
    ensures Damage(buf[off..off + ECC_BLOCK], regs[..n]) == Damage(old(buf[off..off + ECC_BLOCK]), regs[..n + 1])
    ensures buf[..off] == old(buf[..off]) && buf[off + ECC_BLOCK..] == old(buf[off + ECC_BLOCK..])
  {
    ghost var s := buf[..];
    RsCorrect(buf, off, regs[n].idx, regs[n].mask);
    RsCorrectInSector(s, off, regs[n]);
    CorrectionStep(s, buf[..], off, regs, n);
    assert buf[off..off + ECC_BLOCK] == buf[..][off..off + ECC_BLOCK];
    assert s[off..off + ECC_BLOCK] == old(buf[off..off + ECC_BLOCK]);
  }

  /** The fall-through switch over the number of errors. */
  method CorrectSector(buf: array<byte>, off: nat, errcnt: nat, regs: seq<SymErr>)
    requires off + ECC_BLOCK <= buf.Length
    requires WellFormedReport(Errors(errcnt, regs))
    modifies buf
    ensures buf[off..off + ECC_BLOCK] ==
            if 1 <= errcnt <= 4 then Damage(old(buf[off..off + ECC_BLOCK]), regs[..errcnt]) else old(buf[off..off + ECC_BLOCK])
    ensures buf[..off] == old(buf[..off]) && buf[off + ECC_BLOCK..] == old(buf[off + ECC_BLOCK..])
  {
    ghost var s := buf[off..off + ECC_BLOCK];
    if 1 <= errcnt <= 4 {
      ghost var want := Damage(s, regs[..errcnt]);
      if errcnt == 4 {
        CorrectReg(buf, off, regs, 3);
      }
      assert errcnt >= 3 ==> Damage(buf[off..off + ECC_BLOCK], regs[..3]) == want;
      if errcnt >= 3 {
        CorrectReg(buf, off, regs, 2);
      }
      assert errcnt >= 2 ==> Damage(buf[off..off + ECC_BLOCK], regs[..2]) == want;
      if errcnt >= 2 {
        CorrectReg(buf, off, regs, 1);
      }
      assert Damage(buf[off..off + ECC_BLOCK], regs[..1]) == want;
      CorrectReg(buf, off, regs, 0);
      XorZeros(buf[off..off + ECC_BLOCK]);
    }
  }
}
