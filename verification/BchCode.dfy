/** Correction of single bits inside a 512-byte sector, as the JZ4760 driver does it: up to
    24 reports in twelve registers, applied by a switch that falls through. */
module BchCode {
  import opened RsCode

  const INDEX_MASK: bv32 := 0x1fff

  function Upper(reg: bv32): nat {
    ((reg >> 16) & INDEX_MASK) as nat
  }

  function Lower(reg: bv32): nat {
    (reg & INDEX_MASK) as nat
  }

  /** Report `k`, counted from 0: a register holds an even-numbered report in its upper half
      and the odd-numbered one after it in its lower half. */
  function ReportAt(regs: seq<bv32>, k: nat): nat
    requires k / 2 < |regs|
  {
    if k % 2 == 0 then Upper(regs[k / 2]) else Lower(regs[k / 2])
  }

  /** The first `n` reports. */
  function Reports(regs: seq<bv32>, n: nat): (r: seq<nat>)
    requires n <= 2 * |regs|
    ensures |r| == n
    ensures forall k | 0 <= k < n :: r[k] == ReportAt(regs, k)
  {
    seq(n, k requires 0 <= k < n => ReportAt(regs, k))
  }

  // ----- one bit

  function BitMask(t: nat): byte
    requires t < 8
  {
    Power(t) as byte
  }

  /** Bit idx - 1 of the stream is inverted; positions behind the sector are parity. */
  function Flip(s: seq<byte>, idx: nat): (r: seq<byte>)
    requires idx >= 1
    ensures |r| == |s|
  {
    var i := (idx - 1) / 8;
    if i < |s| then s[i := s[i] ^ BitMask((idx - 1) % 8)] else s
  }

  lemma MaskBits(t: nat, u: nat)
    requires t < 8 && u < 8
    ensures ByteBit(BitMask(t), u) <==> t == u
  {
    match t
    case 0 => MaskBits0(u);
    case 1 => MaskBits1(u);
    case 2 => MaskBits2(u);
    case 3 => MaskBits3(u);
    case 4 => MaskBits4(u);
    case 5 => MaskBits5(u);
    case 6 => MaskBits6(u);
    case _ => MaskBits7(u);
  }

  lemma MaskBits0(u: nat) requires u < 8 ensures ByteBit(BitMask(0), u) <==> u == 0 {}
  lemma MaskBits1(u: nat) requires u < 8 ensures ByteBit(BitMask(1), u) <==> u == 1 {}
  lemma MaskBits2(u: nat) requires u < 8 ensures ByteBit(BitMask(2), u) <==> u == 2 {}
  lemma MaskBits3(u: nat) requires u < 8 ensures ByteBit(BitMask(3), u) <==> u == 3 {}
  lemma MaskBits4(u: nat) requires u < 8 ensures ByteBit(BitMask(4), u) <==> u == 4 {}
  lemma MaskBits5(u: nat) requires u < 8 ensures ByteBit(BitMask(5), u) <==> u == 5 {}
  lemma MaskBits6(u: nat) requires u < 8 ensures ByteBit(BitMask(6), u) <==> u == 6 {}
  lemma MaskBits7(u: nat) requires u < 8 ensures ByteBit(BitMask(7), u) <==> u == 7 {}

  lemma FlipBit(s: seq<byte>, idx: nat, n: nat)
    requires idx >= 1 && n < 8 * |s|
    ensures StreamBit(Flip(s, idx), n) <==> StreamBit(s, n) != (n + 1 == idx)
  {
    var i := (idx - 1) / 8;
    if i == n / 8 {
      BitXor(s[i], BitMask((idx - 1) % 8), n % 8);
      MaskBits((idx - 1) % 8, n % 8);
    }
  }

  // ----- many bits

  function FlipAll(s: seq<byte>, idxs: seq<nat>): (r: seq<byte>)
    requires forall k | 0 <= k < |idxs| :: idxs[k] >= 1
    ensures |r| == |s|
    decreases |idxs|
  {
    if idxs == [] then s else FlipAll(Flip(s, idxs[0]), idxs[1..])
  }

  /** How often `x` occurs in `idxs`, modulo 2. */
  predicate Odd(idxs: seq<nat>, x: nat)
    decreases |idxs|
  {
    if idxs == [] then false else (idxs[0] == x) != Odd(idxs[1..], x)
  }

  /** Bit `n` is inverted once for every report that names it. */
  lemma {:induction false} FlipAllBit(s: seq<byte>, idxs: seq<nat>, n: nat)
    requires n < 8 * |s| && forall k | 0 <= k < |idxs| :: idxs[k] >= 1
    ensures StreamBit(FlipAll(s, idxs), n) <==> StreamBit(s, n) != Odd(idxs, n + 1)
    decreases |idxs|
  {
    if idxs != [] {
      FlipBit(s, idxs[0], n);
      FlipAllBit(Flip(s, idxs[0]), idxs[1..], n);
    }
  }

  lemma {:induction false} OddIsCount(idxs: seq<nat>, x: nat)
    ensures Odd(idxs, x) <==> multiset(idxs)[x] % 2 == 1
    decreases |idxs|
  {
    if idxs != [] {
      OddIsCount(idxs[1..], x);
      assert idxs == [idxs[0]] + idxs[1..];
      assert multiset(idxs) == multiset{idxs[0]} + multiset(idxs[1..]);
    }
  }

  /** When no report is made twice, exactly the named bits change. */
  lemma {:induction false} OddIfDistinct(idxs: seq<nat>, x: nat)
    requires forall i, j | 0 <= i < j < |idxs| :: idxs[i] != idxs[j]
    ensures Odd(idxs, x) <==> x in idxs
    decreases |idxs|
  {
    if idxs != [] {
      OddIfDistinct(idxs[1..], x);
      assert idxs == [idxs[0]] + idxs[1..];
    }
  }

  /** The switch changes exactly the bits named by distinct reports. */
  lemma {:induction false} DistinctReports(s: seq<byte>, idxs: seq<nat>, n: nat)
    requires n < 8 * |s| && forall k | 0 <= k < |idxs| :: idxs[k] >= 1
    requires forall i, j | 0 <= i < j < |idxs| :: idxs[i] != idxs[j]
    ensures StreamBit(FlipAll(s, idxs), n) <==> StreamBit(s, n) != (n + 1 in idxs)
  {
    FlipAllBit(s, idxs, n);
    OddIfDistinct(idxs, n + 1);
  }

  lemma SameByte(a: byte, b: byte)
    requires ByteBit(a, 0) == ByteBit(b, 0) && ByteBit(a, 1) == ByteBit(b, 1)
    requires ByteBit(a, 2) == ByteBit(b, 2) && ByteBit(a, 3) == ByteBit(b, 3)
    requires ByteBit(a, 4) == ByteBit(b, 4) && ByteBit(a, 5) == ByteBit(b, 5)
    requires ByteBit(a, 6) == ByteBit(b, 6) && ByteBit(a, 7) == ByteBit(b, 7)
    ensures a == b
  {
  }

  ghost predicate SameBit(a: seq<byte>, b: seq<byte>, n: nat)
    requires n < 8 * |a| && |a| == |b|
  {
    StreamBit(a, n) == StreamBit(b, n)
  }

  lemma SameBits(a: seq<byte>, b: seq<byte>)
    requires |a| == |b| && forall n: nat | n < 8 * |a| :: SameBit(a, b, n)
    ensures a == b
  {
    forall i | 0 <= i < |a| ensures a[i] == b[i] {
      assert SameBit(a, b, 8 * i) && SameBit(a, b, 8 * i + 1) && SameBit(a, b, 8 * i + 2) && SameBit(a, b, 8 * i + 3);
      assert SameBit(a, b, 8 * i + 4) && SameBit(a, b, 8 * i + 5) && SameBit(a, b, 8 * i + 6) && SameBit(a, b, 8 * i + 7);
      SameByte(a[i], b[i]);
    }
  }

  /** The order of the reports does not matter. */
  lemma {:induction false} FlipAllPermuted(s: seq<byte>, a: seq<nat>, b: seq<nat>)
    requires (forall k | 0 <= k < |a| :: a[k] >= 1) && (forall k | 0 <= k < |b| :: b[k] >= 1)
    requires multiset(a) == multiset(b)
    ensures FlipAll(s, a) == FlipAll(s, b)
  {
    forall n: nat | n < 8 * |s| ensures SameBit(FlipAll(s, a), FlipAll(s, b), n) {
      FlipAllBit(s, a, n);
      FlipAllBit(s, b, n);
      OddIsCount(a, n + 1);
      OddIsCount(b, n + 1);
    }
    SameBits(FlipAll(s, a), FlipAll(s, b));
  }

  /** Correcting the reported bits of a damaged sector gives the sector back, whatever
      positions behind the sector are reported besides. */
  lemma {:induction false} CorrectionRestores(s: seq<byte>, errs: seq<nat>, report: seq<nat>)
    requires (forall k | 0 <= k < |errs| :: errs[k] >= 1) && (forall k | 0 <= k < |report| :: report[k] >= 1)
    requires forall x: nat | 1 <= x <= 8 * |s| :: Odd(errs, x) == Odd(report, x)
    ensures FlipAll(FlipAll(s, errs), report) == s
  {
    var damaged := FlipAll(s, errs);
    forall n: nat | n < 8 * |s| ensures SameBit(FlipAll(damaged, report), s, n) {
      FlipAllBit(s, errs, n);
      FlipAllBit(damaged, report, n);
    }
    SameBits(FlipAll(damaged, report), s);
  }

  // ----- the registers

  /** Position `p` in bits 16 to 28 of a register. */
  ghost predicate InUpper(reg: bv32, p: bv32) {
    1 <= p <= 0x1fff && reg & 0x1fff_0000 == p << 16
  }

  /** Position `p` in bits 0 to 12 of a register. */
  ghost predicate InLower(reg: bv32, p: bv32) {
    1 <= p <= 0x1fff && reg & 0x1fff == p
  }

  /** Position `p` as report number `k`: an even-numbered report in the upper bits of its
      register, an odd-numbered one in the lower bits. The other bits may be anything. */
  ghost predicate Written(reg: bv32, k: nat, p: bv32) {
    if k % 2 == 0 then InUpper(reg, p) else InLower(reg, p)
  }

  /** The error registers, written with these positions, two to a register. */
  ghost predicate Packed(regs: seq<bv32>, idxs: seq<bv32>) {
    && |regs| == 12 && |idxs| <= 24
    && forall k | 0 <= k < |idxs| :: Written(regs[k / 2], k, idxs[k])
  }

  function Positions(idxs: seq<bv32>): (r: seq<nat>)
    ensures |r| == |idxs|
    ensures forall k | 0 <= k < |idxs| :: r[k] == idxs[k] as nat
  {
    seq(|idxs|, k requires 0 <= k < |idxs| => idxs[k] as nat)
  }

  lemma UpperHalf(w: bv32, p: bv32)
    requires InUpper(w, p)
    ensures Upper(w) == p as nat >= 1
  {
    assert (w >> 16) & 0x1fff == p;
  }

  lemma LowerHalf(w: bv32, p: bv32)
    requires InLower(w, p)
    ensures Lower(w) == p as nat >= 1
  {
  }

  lemma EvenReport(regs: seq<bv32>, k: nat, p: bv32)
    requires k / 2 < |regs| && k % 2 == 0 && InUpper(regs[k / 2], p)
    ensures ReportAt(regs, k) == p as nat >= 1
  {
    UpperHalf(regs[k / 2], p);
  }

  lemma OddReport(regs: seq<bv32>, k: nat, p: bv32)
    requires k / 2 < |regs| && k % 2 == 1 && InLower(regs[k / 2], p)
    ensures ReportAt(regs, k) == p as nat >= 1
  {
    LowerHalf(regs[k / 2], p);
  }

  /** The reports are read back as the positions that were written, in their order. */
  lemma PackedReports(regs: seq<bv32>, idxs: seq<bv32>)
    requires Packed(regs, idxs)
    ensures Reports(regs, |idxs|) == Positions(idxs)
    ensures forall k | 0 <= k < |idxs| :: ReportAt(regs, k) >= 1
  {
    forall k | 0 <= k < |idxs| ensures ReportAt(regs, k) == Positions(idxs)[k] >= 1 {
      if k % 2 == 0 {
        EvenReport(regs, k, idxs[k]);
      } else {
        OddReport(regs, k, idxs[k]);
      }
    }
  }

  ghost predicate Distinct(ps: seq<nat>) {
    forall i, j | 0 <= i < j < |ps| :: ps[i] != ps[j]
  }

  /** `after` is `before` with exactly the listed bits inverted, counted from 1. */
  ghost predicate ListedInverted(ps: seq<nat>, before: seq<byte>, after: seq<byte>) {
    && |after| == |before|
    && forall n: nat | n < 8 * |before| :: InvertedIfListed(ps, before, after, n)
  }

  ghost predicate InvertedIfListed(ps: seq<nat>, before: seq<byte>, after: seq<byte>, n: nat)
    requires n < 8 * |before| && |after| == |before|
  {
    StreamBit(after, n) <==> StreamBit(before, n) != (n + 1 in ps)
  }

  lemma ListInverts(s: seq<byte>, ps: seq<nat>)
    requires Distinct(ps) && forall k | 0 <= k < |ps| :: ps[k] >= 1
    ensures ListedInverted(ps, s, FlipAll(s, ps))
  {
    forall n: nat | n < 8 * |s| ensures InvertedIfListed(ps, s, FlipAll(s, ps), n) {
      DistinctReports(s, ps, n);
    }
  }

  /** The switch inverts the bits at the positions that were written into the registers. */
  lemma PackedCorrection(s: seq<byte>, regs: seq<bv32>, idxs: seq<bv32>)
    requires Packed(regs, idxs) && Distinct(Positions(idxs))
    ensures forall k | 0 <= k < |idxs| :: ReportAt(regs, k) >= 1
    ensures ListedInverted(Positions(idxs), s, FlipAll(s, Reports(regs, |idxs|)))
  {
    PackedReports(regs, idxs);
    ListInverts(s, Positions(idxs));
  }

  // ----- the source's routines

  method BchCorrect(dat: array<byte>, off: nat, idx: nat)
    requires off + ECC_BLOCK <= dat.Length && idx >= 1
    modifies dat
    ensures dat[off..off + ECC_BLOCK] == Flip(old(dat[off..off + ECC_BLOCK]), idx)
    ensures dat[..off] == old(dat[..off]) && dat[off + ECC_BLOCK..] == old(dat[off + ECC_BLOCK..])
  {
    var i, bit := (idx - 1) / 8, (idx - 1) % 8;
    if i < ECC_BLOCK {
      dat[off + i] := dat[off + i] ^ BitMask(bit);
    }
  }

  lemma {:induction false} FlipLast(s: seq<byte>, regs: seq<bv32>, n: nat, n1: nat)
    requires n1 == n + 1 <= 2 * |regs| && forall k | 0 <= k < n1 :: ReportAt(regs, k) >= 1
    ensures FlipAll(s, Reports(regs, n1)) == FlipAll(Flip(s, ReportAt(regs, n)), Reports(regs, n))
  {
    var last, rest := ReportAt(regs, n), Reports(regs, n);
    assert Reports(regs, n1) == rest + [last];
    assert ([last] + rest)[1..] == rest;
    FlipAllPermuted(s, Reports(regs, n1), [last] + rest);
  }

  /** What is still to be done to the sector at `off` when the switch has fallen through to
      case `n`. */
  ghost predicate ToDo(buf: array<byte>, off: nat, regs: seq<bv32>, n: nat, want: seq<byte>, before: seq<byte>, after: seq<byte>)
    requires |regs| == 12 && n <= 24 && forall k | 0 <= k < n :: ReportAt(regs, k) >= 1
    reads buf
  {
    && off + ECC_BLOCK <= buf.Length
    && FlipAll(buf[off..off + ECC_BLOCK], Reports(regs, n)) == want
    && buf[..off] == before && buf[off + ECC_BLOCK..] == after
  }

  /** One case of the switch. */
  method Case(buf: array<byte>, off: nat, regs: seq<bv32>, n: nat, ghost n1: nat, ghost want: seq<byte>, ghost before: seq<byte>, ghost after: seq<byte>)
    requires |regs| == 12 && n1 == n + 1 <= 24 && forall k | 0 <= k < n1 :: ReportAt(regs, k) >= 1
    requires ToDo(buf, off, regs, n1, want, before, after)
    modifies buf
    ensures ToDo(buf, off, regs, n, want, before, after)
  {
    FlipLast(buf[off..off + ECC_BLOCK], regs, n, n1);
    BchCorrect(buf, off, ReportAt(regs, n));
  }

  function Upto(errcnt: nat, n: nat): (r: nat)
    ensures r <= n && r <= errcnt
  {
    if errcnt < n then errcnt else n
  }

  /** The two cases of one error register, the odd-numbered report first. */
  method Register(buf: array<byte>, off: nat, errcnt: nat, regs: seq<bv32>, r: nat, ghost want: seq<byte>, ghost before: seq<byte>, ghost after: seq<byte>)
    requires |regs| == 12 && r < 12 && errcnt <= 24 && forall k | 0 <= k < errcnt :: ReportAt(regs, k) >= 1
    requires ToDo(buf, off, regs, Upto(errcnt, 2 * r + 2), want, before, after)
    modifies buf
    ensures ToDo(buf, off, regs, Upto(errcnt, 2 * r), want, before, after)
  {
    if errcnt >= 2 * r + 2 {
      Case(buf, off, regs, 2 * r + 1, 2 * r + 2, want, before, after);
    }
    if errcnt >= 2 * r + 1 {
      Case(buf, off, regs, 2 * r, 2 * r + 1, want, before, after);
    }
  }

  /** The switch over the number of errors, from case 24 down to case 1. */
  method CorrectSector(buf: array<byte>, off: nat, errcnt: nat, regs: seq<bv32>)
    requires off + ECC_BLOCK <= buf.Length && |regs| == 12
    requires errcnt <= 24 ==> forall k | 0 <= k < errcnt :: ReportAt(regs, k) >= 1
    modifies buf
    ensures buf[off..off + ECC_BLOCK] ==
            if errcnt <= 24 then FlipAll(old(buf[off..off + ECC_BLOCK]), Reports(regs, errcnt)) else old(buf[off..off + ECC_BLOCK])
    ensures forall idxs | Packed(regs, idxs) && |idxs| == errcnt && Distinct(Positions(idxs)) ::
              ListedInverted(Positions(idxs), old(buf[off..off + ECC_BLOCK]), buf[off..off + ECC_BLOCK])
    ensures buf[..off] == old(buf[..off]) && buf[off + ECC_BLOCK..] == old(buf[off + ECC_BLOCK..])
  {
    if 1 <= errcnt <= 24 {
      ghost var want, before, after := FlipAll(buf[off..off + ECC_BLOCK], Reports(regs, errcnt)), buf[..off], buf[off + ECC_BLOCK..];
      Register(buf, off, errcnt, regs, 11, want, before, after);
      Register(buf, off, errcnt, regs, 10, want, before, after);
      Register(buf, off, errcnt, regs, 9, want, before, after);
      Register(buf, off, errcnt, regs, 8, want, before, after);
      Register(buf, off, errcnt, regs, 7, want, before, after);
      Register(buf, off, errcnt, regs, 6, want, before, after);
      Register(buf, off, errcnt, regs, 5, want, before, after);
      Register(buf, off, errcnt, regs, 4, want, before, after);
      Register(buf, off, errcnt, regs, 3, want, before, after);
      Register(buf, off, errcnt, regs, 2, want, before, after);
      Register(buf, off, errcnt, regs, 1, want, before, after);
      Register(buf, off, errcnt, regs, 0, want, before, after);
    }
    forall idxs | Packed(regs, idxs) && |idxs| == errcnt && Distinct(Positions(idxs))
      ensures ListedInverted(Positions(idxs), old(buf[off..off + ECC_BLOCK]), buf[off..off + ECC_BLOCK])
    {
      PackedCorrection(old(buf[off..off + ECC_BLOCK]), regs, idxs);
    }
  }

  /** The registers, up to the error count, name the damaged data bits, each once, and besides
      them only positions behind the data. */
  ghost predicate Names(errcnt: nat, regs: seq<bv32>, errs: seq<nat>) {
    && |regs| == 12 && errcnt <= 24
    && (forall k | 0 <= k < errcnt :: ReportAt(regs, k) >= 1)
    && (forall i, j | 0 <= i < j < errcnt :: ReportAt(regs, i) != ReportAt(regs, j))
    && forall x: nat | 1 <= x <= 8 * ECC_BLOCK :: x in Reports(regs, errcnt) <==> x in errs
  }

  /** A sector with any set of damaged bits, none of them counted twice, is restored by the
      switch from a report that names those bits, for every error count from 0 to 24. */
  lemma {:induction false} NamedBitsRestored(s: seq<byte>, errs: seq<nat>, errcnt: nat, regs: seq<bv32>)
    requires |s| == ECC_BLOCK && Names(errcnt, regs, errs)
    requires forall k | 0 <= k < |errs| :: 1 <= errs[k] <= 8 * ECC_BLOCK
    requires forall i, j | 0 <= i < j < |errs| :: errs[i] != errs[j]
    ensures FlipAll(FlipAll(s, errs), Reports(regs, errcnt)) == s
  {
    var report := Reports(regs, errcnt);
    forall x: nat | 1 <= x <= 8 * |s| ensures Odd(errs, x) == Odd(report, x) {
      OddIfDistinct(errs, x);
      OddIfDistinct(report, x);
    }
    CorrectionRestores(s, errs, report);
  }
}
