/** Loading data into the target's memory over USB: the operations that jzboot issues, and what
    they do to the memory under every interleaving with the device. */
module LoadSdram {
  import opened RsCode
  import opened Splices
  import opened Memory
  import opened Udc
  import opened Transport

  const STAGE2_IOBUF: nat := 2048 * 128
  /** Bulk_out_buf holds 2048 * 128 words. */
  const BULK_OUT_BYTES: nat := 4 * 2048 * 128

  /** The bytes that the FIFO delivers behind a packet, up to a word boundary; they depend on
      where in the transfer the packet is, and on nothing we know. */
  type Junk = (nat, nat) -> byte

  function Padded(s: seq<byte>, junk: Junk, at: nat): (p: Packet)
    ensures WholeWords(p) && p.data == s
  {
    Packet(s, seq((4 - |s| % 4) % 4, i requires i >= 0 => junk(at, i)))
  }

  /** usbdev_sendbulk: the transfer cut into packets. */
  function BulkOps(s: seq<byte>, fs: nat, junk: Junk, at: nat): seq<Op>
    requires fs > 0
    decreases |s|
  {
    if |s| <= fs then [Bulk(Padded(s, junk, at))]
    else [Bulk(Padded(s[..fs], junk, at))] + BulkOps(s[fs..], fs, junk, at + fs)
  }

  function WordRequest(op: nat, w: nat): Request {
    if op == 0 then SetAddress(w / 0x10000, w % 0x10000) else SetLength(w / 0x10000, w % 0x10000)
  }

  /** On the wire wValue is the upper half of the word and wIndex the lower, when it is sent and
      when it is taken. */
  lemma WordOnTheWire(d: Dev, fs: nat, value: nat, index: nat, w: nat)
    requires value < 0x10000 && index < 0x10000 && w == 0x10000 * value + index
    ensures WordRequest(0, w) == SetAddress(value, index) && HandleRequest(d, fs, SetAddress(value, index)).d == d.(startAddr := w)
    ensures WordRequest(1, w) == SetLength(value, index) && HandleRequest(d, fs, SetLength(value, index)).d == d.(opsLength := w)
  {
  }

  function LoadOps(base: nat, len: nat): seq<Op> {
    [Control(WordRequest(0, base)), Control(WordRequest(1, len)), Control(SdramLoad), Receive]
  }

  /** One round of ingenic_load_sdram's loop. */
  function BlockOps(base: nat, block: seq<byte>, fs: nat, junk: Junk, at: nat): seq<Op>
    requires fs > 0
  {
    BulkOps(block, fs, junk, at) + LoadOps(base, |block|)
  }

  /** ingenic_load_sdram. */
  function Program(base: nat, data: seq<byte>, fs: nat, junk: Junk, at: nat): seq<Op>
    requires fs > 0
    decreases |data|
  {
    if data == [] then []
    else
      var n := Min(|data|, STAGE2_IOBUF);
      BlockOps(base, data[..n], fs, junk, at) + Program(Wrap(base, n), data[n..], fs, junk, at + n)
  }

  // ----- what the operations do, one after another

  /** `s` has been appended to the part of Bulk_out_buf in use, and nothing else matters. */
  ghost predicate Appended(d: Dev, s: seq<byte>, d1: Dev) {
    && d.outSize <= |d.outBuf| && d.outSize + |s| <= |d1.outBuf| == |d.outBuf|
    && d1 == d.(outBuf := d1.outBuf, outSize := d.outSize + |s|)
    && d1.outBuf[..d.outSize + |s|] == d.outBuf[..d.outSize] + s
  }

  lemma {:induction false} AppendedOne(d: Dev, p: Packet)
    requires WholeWords(p) && d.outSize + |p.data| + 3 <= |d.outBuf|
    ensures Appended(d, p.data, EpOut(d, p))
  {
    SpliceParts(d.outBuf, d.outSize, p.data + p.pad);
    var b := EpOut(d, p).outBuf;
    var t, n := d.outSize, |p.data|;
    assert b[..t + n] == b[..t] + b[t..t + n];
    assert b[t..t + n] == b[t..t + n + |p.pad|][..n];
  }

  lemma AppendedTwice(d: Dev, s: seq<byte>, d1: Dev, t: seq<byte>, d2: Dev)
    requires Appended(d, s, d1) && Appended(d1, t, d2)
    ensures Appended(d, s + t, d2)
  {
    assert d.outBuf[..d.outSize] + (s + t) == (d.outBuf[..d.outSize] + s) + t;
  }

  /** A transfer arrives whole and in order. */
  lemma {:induction false} BulkArrives(fs: nat, d: Dev, s: seq<byte>, junk: Junk, at: nat)
    requires fs > 0 && d.outSize + |s| + 3 <= |d.outBuf|
    ensures Appended(d, s, Effects(fs, d, BulkOps(s, fs, junk, at)))
    decreases |s|
  {
    var p := Padded(if |s| <= fs then s else s[..fs], junk, at);
    EffectsOne(fs, d, [], Bulk(p));
    assert [] + [Bulk(p)] == [Bulk(p)];
    AppendedOne(d, p);
    if |s| > fs {
      var d1, rest := EpOut(d, p), BulkOps(s[fs..], fs, junk, at + fs);
      EffectsConcat(fs, d, [Bulk(p)], rest);
      BulkArrives(fs, d1, s[fs..], junk, at + fs);
      AppendedTwice(d, s[..fs], d1, s[fs..], Effects(fs, d1, rest));
      assert s[..fs] + s[fs..] == s;
    }
  }

  /** Every packet of a transfer is stored at a word boundary of Bulk_out_buf, as the word
      accesses of udcReadFifo need it. */
  lemma {:induction false} BulkAligned(fs: nat, d: Dev, s: seq<byte>, junk: Junk, at: nat, i: nat)
    requires fs > 0 && fs % 4 == 0 && d.outSize % 4 == 0 && d.outSize + |s| + 3 <= |d.outBuf|
    requires i < |BulkOps(s, fs, junk, at)|
    ensures Effects(fs, d, BulkOps(s, fs, junk, at)[..i]).outSize % 4 == 0
    decreases |s|
  {
    if i > 0 {
      var p, rest := Padded(s[..fs], junk, at), BulkOps(s[fs..], fs, junk, at + fs);
      EffectsOne(fs, d, [], Bulk(p));
      assert [] + [Bulk(p)] == [Bulk(p)];
      AppendedOne(d, p);
      BulkAligned(fs, EpOut(d, p), s[fs..], junk, at + fs, i - 1);
      EffectsConcat(fs, d, [Bulk(p)], rest[..i - 1]);
      assert BulkOps(s, fs, junk, at)[..i] == [Bulk(p)] + rest[..i - 1];
    }
  }

  /** The driver is ready for a load, with the memory `m`. */
  ghost predicate Ready(d: Dev, m: Mem) {
    Quiet(d) && d.outSize == 0 && |d.outBuf| == BULK_OUT_BYTES && d.mem == m
  }

  lemma {:induction false} FourOps(fs: nat, d: Dev, a: Op, b: Op, c: Op, e: Op)
    ensures Effects(fs, d, [a, b, c, e]) == Effect(fs, Effect(fs, Effect(fs, Effect(fs, d, a), b), c), e)
  {
    assert [a, b, c, e] == ((([] + [a]) + [b]) + [c]) + [e];
    EffectsOne(fs, d, [], a);
    EffectsOne(fs, d, [] + [a], b);
    EffectsOne(fs, d, ([] + [a]) + [b], c);
    EffectsOne(fs, d, (([] + [a]) + [b]) + [c], e);
  }

  lemma {:induction false} AddressSet(fs: nat, d: Dev, w: nat)
    requires w < ADDRESSES
    ensures Effect(fs, d, Control(WordRequest(0, w))) == d.(startAddr := w)
    ensures Effect(fs, d, Control(WordRequest(1, w))) == d.(opsLength := w)
  {
    WordSplit(w);
  }

  lemma {:induction false} LoadHandled(fs: nat, d: Dev, len: nat)
    requires fs >= 8 && Quiet(d) && len == d.opsLength && len <= |d.outBuf| == BULK_OUT_BYTES
    ensures Ready(Effect(fs, d, Control(SdramLoad)), Store(d.mem, d.startAddr, d.outBuf[..len]))
  {
    RequestSane(d, fs, SdramLoad);
  }

  lemma {:induction false} LoadCopies(fs: nat, d: Dev, base: nat, len: nat)
    requires fs >= 8 && Quiet(d) && base < ADDRESSES && len < ADDRESSES && len <= d.outSize <= |d.outBuf| == BULK_OUT_BYTES
    ensures Ready(Effects(fs, d, LoadOps(base, len)), Store(d.mem, base, d.outBuf[..len]))
  {
    var d1 := d.(startAddr := base);
    var d2 := d1.(opsLength := len);
    AddressSet(fs, d, base);
    AddressSet(fs, d1, len);
    LoadHandled(fs, d2, len);
    FourOps(fs, d, Control(WordRequest(0, base)), Control(WordRequest(1, len)), Control(SdramLoad), Receive);
  }

  lemma {:induction false} BlockLoads(fs: nat, d: Dev, m: Mem, base: nat, block: seq<byte>, junk: Junk, at: nat)
    requires fs >= 8 && Ready(d, m) && base < ADDRESSES && 0 < |block| <= STAGE2_IOBUF
    ensures Ready(Effects(fs, d, BlockOps(base, block, fs, junk, at)), Store(m, base, block))
  {
    var d1 := Effects(fs, d, BulkOps(block, fs, junk, at));
    BulkArrives(fs, d, block, junk, at);
    assert d1.outBuf[..|block|] == block;
    LoadCopies(fs, d1, base, |block|);
    EffectsConcat(fs, d, BulkOps(block, fs, junk, at), LoadOps(base, |block|));
  }

  lemma {:induction false} LoadsTwice(fs: nat, d: Dev, m: Mem, base: nat, b: nat, x: seq<byte>, y: seq<byte>, first: seq<Op>, d1: Dev, rest: seq<Op>)
    requires base < ADDRESSES && b == Wrap(base, |x|) && d1 == Effects(fs, d, first)
    requires Ready(Effects(fs, d1, rest), Store(Store(m, base, x), b, y))
    ensures Ready(Effects(fs, d, first + rest), Store(m, base, x + y))
  {
    EffectsConcat(fs, d, first, rest);
    StoreOn(m, base, b, x, y);
  }

  /** Carried out in order, the operations store the data at `base`. */
  lemma {:induction false} ProgramLoads(fs: nat, d: Dev, m: Mem, base: nat, data: seq<byte>, junk: Junk, at: nat)
    requires fs >= 8 && Ready(d, m) && base < ADDRESSES
    ensures Ready(Effects(fs, d, Program(base, data, fs, junk, at)), Store(m, base, data))
    decreases |data|
  {
    if data != [] {
      var n := Min(|data|, STAGE2_IOBUF);
      var x, y, b, next := data[..n], data[n..], Wrap(base, n), at + n;
      var first, rest := BlockOps(base, x, fs, junk, at), Program(b, y, fs, junk, next);
      var d1 := Effects(fs, d, first);
      BlockLoads(fs, d, m, base, x, junk, at);
      ProgramLoads(fs, d1, Store(m, base, x), b, y, junk, next);
      LoadsTwice(fs, d, m, base, b, x, y, first, d1, rest);
      assert Program(base, data, fs, junk, at) == first + rest && data == x + y;
    }
  }

  // ----- the shape of the program

  lemma {:induction false} AnsweredConcat(busy: bool, a: seq<Op>, b: seq<Op>)
    requires Answered(busy, a) && Answered(false, b)
    ensures Answered(busy, a + b)
    decreases |a|
  {
    if a == [] {
      assert a + b == b;
    } else {
      assert (a + b)[1..] == a[1..] + b;
      AnsweredConcat(if a[0].Control? then ReadsBuffer(a[0].r) else false, a[1..], b);
    }
  }

  /** What the transport asks of a program. */
  ghost predicate WellFormed(ops: seq<Op>) {
    Answered(false, ops) && AllValid(ops)
  }

  lemma {:induction false} WellFormedConcat(a: seq<Op>, b: seq<Op>)
    requires WellFormed(a) && WellFormed(b)
    ensures WellFormed(a + b)
  {
    AnsweredConcat(false, a, b);
  }

  lemma {:induction false} BulkWellFormed(s: seq<byte>, fs: nat, junk: Junk, at: nat)
    requires fs > 0
    ensures WellFormed(BulkOps(s, fs, junk, at))
    decreases |s|
  {
    if |s| > fs {
      var p := Bulk(Padded(s[..fs], junk, at));
      BulkWellFormed(s[fs..], fs, junk, at + fs);
      assert Answered(false, [p]);
      WellFormedConcat([p], BulkOps(s[fs..], fs, junk, at + fs));
    }
  }

  lemma {:induction false} LoadWellFormed(base: nat, len: nat)
    requires base < ADDRESSES && len < ADDRESSES
    ensures WellFormed(LoadOps(base, len))
  {
    WordSplit(base);
    WordSplit(len);
    var a, b, c := Control(WordRequest(0, base)), Control(WordRequest(1, len)), Control(SdramLoad);
    assert Answered(true, [Receive]);
    assert [c, Receive][1..] == [Receive] && Answered(false, [c, Receive]);
    assert [b, c, Receive][1..] == [c, Receive] && Answered(false, [b, c, Receive]);
    assert [a, b, c, Receive][1..] == [b, c, Receive] && Answered(false, [a, b, c, Receive]);
  }

  lemma {:induction false} BlockWellFormed(base: nat, data: seq<byte>, fs: nat, junk: Junk, at: nat)
    requires fs > 0 && base < ADDRESSES && |data| < ADDRESSES
    ensures WellFormed(BlockOps(base, data, fs, junk, at))
    ensures BlockOps(base, data, fs, junk, at) != [] && EndsInReceive(BlockOps(base, data, fs, junk, at))
  {
    BulkWellFormed(data, fs, junk, at);
    LoadWellFormed(base, |data|);
    WellFormedConcat(BulkOps(data, fs, junk, at), LoadOps(base, |data|));
  }

  lemma {:induction false} BothWellFormed(a: seq<Op>, b: seq<Op>)
    requires WellFormed(a) && WellFormed(b) && EndsInReceive(a) && EndsInReceive(b)
    ensures WellFormed(a + b) && EndsInReceive(a + b)
  {
    WellFormedConcat(a, b);
  }

  lemma {:induction false} ProgramWellFormed(base: nat, data: seq<byte>, fs: nat, junk: Junk, at: nat)
    requires fs > 0 && base < ADDRESSES
    ensures WellFormed(Program(base, data, fs, junk, at)) && EndsInReceive(Program(base, data, fs, junk, at))
    decreases |data|
  {
    if data != [] {
      var n := Min(|data|, STAGE2_IOBUF);
      var block, rest := BlockOps(base, data[..n], fs, junk, at), Program(Wrap(base, n), data[n..], fs, junk, at + n);
      BlockWellFormed(base, data[..n], fs, junk, at);
      ProgramWellFormed(Wrap(base, n), data[n..], fs, junk, at + n);
      BothWellFormed(block, rest);
    }
  }

  // ----- every interleaving

  /** Any program, in any interleaving, with a controller that interrupts EP0 only for new
      requests: once the host is through, the program has been carried out in order. */
  lemma {:induction false} RunCarriesOut(cfg: Config, d0: Dev, program: seq<Op>, moves: seq<bool>, s: System)
    requires cfg.fs >= 8 && !cfg.statusIrq && Quiet(d0) && WellFormed(program) && EndsInReceive(program)
    requires s == Run(cfg, Initial(d0, program), moves) && s.todo == []
    ensures Settled(s.c) == Effects(cfg.fs, d0, program)
  {
    InitialInv(cfg, d0, program);
    RunKeepsInv(cfg, d0, program, Initial(d0, program), moves);
    FinishedMeansDone(cfg, d0, program, s);
  }
}
