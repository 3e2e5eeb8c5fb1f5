/** The driver as an object: the variables of udc.c and boothandler.c, the buffers, and the
    controller's registers and FIFOs that it reads and writes. */
module UdcDriver {
  import opened Options
  import opened RsCode
  import opened Memory
  import opened Splices
  import opened Udc
  import opened Transport

  class Driver {
    const cfg: Config
    const Bulk_in_buf: array<byte>
    const Bulk_out_buf: array<byte>
    var Bulk_in_size: nat
    var Bulk_in_finish: nat
    var Bulk_out_size: nat
    var udc_state: UdcState
    var start_addr: nat
    var ops_length: nat
    var handshake_PKT: seq<byte>
    var memory: Mem
    var hand: seq<byte>

    // the controller
    var fifo: seq<byte>               // what has been written to the IN FIFO since the last packet
    var inFifo: Option<seq<byte>>     // the packet marked ready
    var outFifo: Option<Packet>
    var ep0: Option<Request>
    var irqEp0: bool
    var irqIn: bool
    var irqOut: bool

    function State(): Dev
      reads this, Bulk_in_buf, Bulk_out_buf
    {
      Dev(Bulk_out_buf[..], Bulk_out_size, Bulk_in_buf[..], Bulk_in_size, Bulk_in_finish, udc_state,
          start_addr, ops_length, handshake_PKT, memory, hand)
    }

    ghost predicate Valid()
      reads this, Bulk_in_buf, Bulk_out_buf
    {
      Sane(State()) && cfg.fs >= 8 && Bulk_in_buf != Bulk_out_buf
    }

    /** The driver and the controller, with the poll loop at `pc`. */
    function Snapshot(pc: Pc, sawEp0: bool, sawIn: bool, sawOut: bool): Ctl
      reads this, Bulk_in_buf, Bulk_out_buf
    {
      Ctl(State(), irqEp0, irqIn, irqOut, outFifo, ep0, inFifo, pc, sawEp0, sawIn, sawOut)
    }

    constructor (cfg: Config, bufSize: nat, memory: Mem, hand: seq<byte>)
      requires cfg.fs >= 8
      ensures Valid() && this.cfg == cfg && Quiet(State())
    {
      this.cfg, this.memory, this.hand := cfg, memory, hand;
      Bulk_in_buf, Bulk_out_buf := new byte[bufSize], new byte[bufSize];
      Bulk_in_size, Bulk_in_finish, Bulk_out_size, udc_state := 0, 0, 0, Idle;
      start_addr, ops_length, handshake_PKT := 0, 0, [0, 0, 0, 0, 0, 0, 0, 0];
      fifo, inFifo, outFifo, ep0, irqEp0, irqIn, irqOut := [], None, None, None, false, false, false;
    }

    /** udcWriteFifo into an empty FIFO: whole words, and then the bytes that are left. */
    method WriteFifo(ptr: seq<byte>)
      requires fifo == []
      modifies `fifo
      ensures fifo == ptr
    {
      var s: nat, at: nat := |ptr| / 4, 0;
      while s > 0
        invariant at + 4 * s <= |ptr|
        invariant fifo == ptr[..at]
        decreases s
      {
        assert ptr[..at + 4] == ptr[..at] + ptr[at..at + 4];
        fifo := fifo + ptr[at..at + 4];
        at, s := at + 4, s - 1;
      }
      while at < |ptr|
        invariant at <= |ptr|
        invariant fifo == ptr[..at]
      {
        fifo := fifo + [ptr[at]];
        at := at + 1;
      }
    }

    /** INPKTRDY. */
    method MarkReady()
      modifies `fifo, `inFifo
      ensures inFifo == Some(old(fifo)) && fifo == []
    {
      inFifo, fifo := Some(fifo), [];
    }

    method StoreWord(at: nat, w: seq<byte>)
      requires |w| == 4 && at + 4 <= Bulk_out_buf.Length
      modifies Bulk_out_buf
      ensures Bulk_out_buf[..] == Splice(old(Bulk_out_buf[..]), at, w)
    {
      ghost var now := Bulk_out_buf[..];
      Bulk_out_buf[at] := w[0];
      Bulk_out_buf[at + 1] := w[1];
      Bulk_out_buf[at + 2] := w[2];
      Bulk_out_buf[at + 3] := w[3];
      SpliceWord(now, at, w, Bulk_out_buf[..]);
    }

    /** udcReadFifo into Bulk_out_buf: as many words as cover the packet. */
    method ReadFifo(at: nat, p: Packet)
      requires WholeWords(p) && at + |p.data| + |p.pad| <= Bulk_out_buf.Length
      modifies Bulk_out_buf
      ensures Bulk_out_buf[..] == Splice(old(Bulk_out_buf[..]), at, p.data + p.pad)
    {
      ghost var before := Bulk_out_buf[..];
      var words := p.data + p.pad;
      var s := (|p.data| + 3) / 4;
      assert 4 * s == |words|;
      var d: nat := 0;
      assert words[..0] == [] && Splice(before, at, []) == before;
      while d < 4 * s
        invariant d <= |words| && d % 4 == 0
        invariant Bulk_out_buf[..] == Splice(before, at, words[..d])
      {
        ghost var done := words[..d];
        var w := words[d..d + 4];
        StoreWord(at + d, w);
        SpliceOnAt(before, at, at + d, done, w);
        TakeWord(words, d, d + 4, done, w);
        d := d + 4;
      }
      assert words[..d] == words;
    }

    /** HW_SendPKT on endpoint 1. */
    method SendPkt(buf: seq<byte>)
      requires Valid() && fifo == [] && |buf| < 0x1_0000_0000
      modifies `Bulk_in_size, `Bulk_in_finish, `fifo, `inFifo
      ensures State() == Send(old(State()), cfg.fs, |buf|) && inFifo == Some(FirstPacket(cfg.fs, buf)) && fifo == []
    {
      Bulk_in_size := |buf|;
      Bulk_in_finish := 0;
      if Bulk_in_size - Bulk_in_finish <= cfg.fs {
        WriteFifo(buf[..Bulk_in_size]);
        MarkReady();
        Bulk_in_finish := Bulk_in_size;
      } else {
        WriteFifo(buf[..cfg.fs]);
        MarkReady();
        Bulk_in_finish := Bulk_in_finish + cfg.fs;
      }
    }

    /** Handshake_PKT. */
    method Handshake()
      requires Valid() && fifo == [] && Bulk_in_finish == Bulk_in_size
      modifies `Bulk_in_size, `Bulk_in_finish, `fifo, `inFifo, `udc_state
      ensures Valid() && fifo == []
      ensures var r := EpIn(old(State()), cfg.fs); State() == r.d && inFifo == Queue(old(inFifo), r.packet)
    {
      if udc_state != Idle {
        SendPkt(handshake_PKT);
        udc_state := Idle;
      }
    }

    /** EPIN_Handler. */
    method EpInHandler()
      requires Valid() && fifo == []
      modifies `Bulk_in_size, `Bulk_in_finish, `fifo, `inFifo, `udc_state
      ensures Valid() && fifo == []
      ensures var r := EpIn(old(State()), cfg.fs); State() == r.d && inFifo == Queue(old(inFifo), r.packet)
    {
      if Bulk_in_size - Bulk_in_finish == 0 {
        Handshake();
        return;
      }
      var left := Bulk_in_size - Bulk_in_finish;
      if left <= cfg.fs {
        WriteFifo(Bulk_in_buf[Bulk_in_finish..Bulk_in_finish + left]);
        MarkReady();
        Bulk_in_finish := Bulk_in_size;
      } else {
        WriteFifo(Bulk_in_buf[Bulk_in_finish..Bulk_in_finish + cfg.fs]);
        MarkReady();
        Bulk_in_finish := Bulk_in_finish + cfg.fs;
      }
    }

    /** EPOUT_Handler. */
    method EpOutHandler()
      requires Valid() && outFifo.Some? && WholeWords(outFifo.value)
      requires Bulk_out_size + |outFifo.value.data| + |outFifo.value.pad| <= Bulk_out_buf.Length
      modifies Bulk_out_buf, `Bulk_out_size, `outFifo
      ensures Valid() && State() == EpOut(old(State()), old(outFifo.value)) && outFifo == None
    {
      var p := outFifo.value;
      var size := |p.data|;
      ReadFifo(Bulk_out_size, p);
      outFifo := None;
      Bulk_out_size := Bulk_out_size + size;
    }

    /** memcpy to the target's memory. */
    method CopyOut(dest: nat, src: seq<byte>)
      requires dest < ADDRESSES
      modifies `memory
      ensures memory == Store(old(memory), dest, src)
    {
      var at := dest;
      for i := 0 to |src|
        invariant at == Wrap(dest, i) && Store(memory, at, src[i..]) == Store(old(memory), dest, src)
      {
        WrapTwice(dest, i, 1);
        assert src[i..][1..] == src[i + 1..];
        memory := memory[at := src[i]];
        at := Wrap(at, 1);
      }
    }

    /** SDRAM_OPS_Handle. */
    method SdramOps()
      requires Valid() && fifo == [] && ops_length <= Bulk_out_buf.Length
      modifies `Bulk_in_size, `Bulk_in_finish, `fifo, `inFifo, `udc_state, `memory, `handshake_PKT
      ensures Valid() && fifo == []
      ensures var served := HandleRequest(old(State()), cfg.fs, SdramLoad); State() == served.d && inFifo == served.packet
    {
      CopyOut(start_addr, Bulk_out_buf[..ops_length]);
      handshake_PKT := LittleEndian(start_addr) + handshake_PKT[4..];
      SendPkt(handshake_PKT);
      udc_state := Idle;
    }

    /** CONFIGRATION_Handle for DS_hand, and its answer. */
    method Configuration()
      requires Valid() && fifo == [] && |hand| <= Bulk_out_buf.Length
      modifies `Bulk_in_size, `Bulk_in_finish, `fifo, `inFifo, `hand, `handshake_PKT
      ensures Valid() && fifo == []
      ensures var served := HandleRequest(old(State()), cfg.fs, Configure); State() == served.d && inFifo == served.packet
    {
      hand := Bulk_out_buf[..|hand|];
      handshake_PKT := handshake_PKT[..6] + [0, 0];
      SendPkt(handshake_PKT);
    }

    /** usbHandleVendorReq: the handler, and the reset of Bulk_out_size after it. */
    method HandleVendorReq(r: Request)
      requires Valid() && fifo == [] && ops_length <= Bulk_out_buf.Length && |hand| <= Bulk_out_buf.Length
      modifies `Bulk_in_size, `Bulk_in_finish, `fifo, `inFifo, `udc_state, `memory, `handshake_PKT, `hand, `start_addr, `ops_length, `Bulk_out_size
      ensures Valid() && fifo == []
      ensures var served := HandleRequest(old(State()), cfg.fs, r);
              State() == AfterRequest(served.d, r) && inFifo == Queue(old(inFifo), served.packet)
    {
      match r
      case SetAddress(value, index) =>
        start_addr := (value * 0x10000 + index) % 0x1_0000_0000;
      case SetLength(value, index) =>
        ops_length := (value * 0x10000 + index) % 0x1_0000_0000;
      case SdramLoad =>
        SdramOps();
        Bulk_out_size := 0;
      case Configure =>
        Configuration();
        Bulk_out_size := 0;
      case FlushCaches =>
    }

    // ----- udc4740Proc

    /** What the driver relies on: the packet in the FIFO fits into Bulk_out_buf, and so does
        whatever a request will want to read there. */
    ghost predicate Fits()
      reads this, Bulk_out_buf
    {
      && (outFifo.Some? ==> WholeWords(outFifo.value)
                            && Bulk_out_size + |outFifo.value.data| + |outFifo.value.pad| <= Bulk_out_buf.Length)
      && ops_length <= Bulk_out_buf.Length && |hand| <= Bulk_out_buf.Length
    }

    method ServeIn(sawEp0: bool, sawIn: bool, sawOut: bool)
      requires Valid() && fifo == []
      modifies `Bulk_in_size, `Bulk_in_finish, `fifo, `inFifo, `udc_state
      ensures Valid() && fifo == []
      ensures Snapshot(ServedIn, sawEp0, sawIn, sawOut) == DeviceStep(cfg, old(Snapshot(GotOut, sawEp0, sawIn, sawOut)))
    {
      if sawIn {
        EpInHandler();
      }
    }

    method ServeOut(sawEp0: bool, sawIn: bool, sawOut: bool)
      requires Valid() && Fits()
      modifies Bulk_out_buf, `Bulk_out_size, `outFifo
      ensures Valid() && Fits()
      ensures Snapshot(ServedOut, sawEp0, sawIn, sawOut) == DeviceStep(cfg, old(Snapshot(ServedIn, sawEp0, sawIn, sawOut)))
    {
      if sawOut && outFifo.Some? {
        EpOutHandler();
      }
    }

    /** EP0_Handler: acknowledge, run the handler, and reset. */
    method ServeEp0(sawEp0: bool, sawIn: bool, sawOut: bool)
      requires Valid() && Fits() && fifo == []
      modifies this
      ensures Valid() && fifo == []
      ensures Snapshot(Finishing, sawEp0, sawIn, sawOut) == ControlServed(cfg, old(Snapshot(ServedOut, sawEp0, sawIn, sawOut)))
    {
      if sawEp0 && ep0.Some? {
        var r := ep0.value;
        ep0 := None;
        HandleVendorReq(r);
      }
    }

    /** The two interrupt registers, IntrIn first; reading clears them. */
    method ReadInterrupts() returns (IntrEp0: bool, IntrIn: bool, IntrOut: bool)
      requires Valid()
      modifies `irqEp0, `irqIn, `irqOut
      ensures Valid()
      ensures Snapshot(if IntrEp0 || IntrIn || IntrOut then GotOut else Start, IntrEp0, IntrIn, IntrOut)
           == Sampled(old(Snapshot(Start, false, false, false)))
    {
      IntrEp0, IntrIn := irqEp0, irqIn;
      irqEp0, irqIn := false, false;
      IntrOut := irqOut;
      irqOut := false;
    }

    /** The end of a poll: at full speed IntrIn is read once more and dropped. */
    method Finish(sawEp0: bool, sawIn: bool, sawOut: bool)
      requires Valid()
      modifies `irqEp0, `irqIn
      ensures Valid()
      ensures Snapshot(Start, sawEp0, sawIn, sawOut) == DeviceStep(cfg, old(Snapshot(Finishing, sawEp0, sawIn, sawOut)))
    {
      if cfg.fullSpeed {
        irqEp0, irqIn := false, false;
      }
    }

    /** One call of udc4740Proc, and the interrupt bits it saw. */
    method Proc() returns (IntrEp0: bool, IntrIn: bool, IntrOut: bool)
      requires Valid() && Fits() && fifo == []
      modifies this, Bulk_out_buf
      ensures Valid() && fifo == []
      ensures Snapshot(Start, IntrEp0, IntrIn, IntrOut) == Poll(cfg, old(Snapshot(Start, false, false, false)))
    {
      ghost var c0 := Snapshot(Start, false, false, false);
      IntrEp0, IntrIn, IntrOut := ReadInterrupts();
      if !IntrEp0 && !IntrIn && !IntrOut {
        PollEarly(cfg, c0);
        return;
      }
      ghost var c2 := Snapshot(GotOut, IntrEp0, IntrIn, IntrOut);
      ServeIn(IntrEp0, IntrIn, IntrOut);
      ghost var c3 := Snapshot(ServedIn, IntrEp0, IntrIn, IntrOut);
      ServeOut(IntrEp0, IntrIn, IntrOut);
      ghost var c4 := Snapshot(ServedOut, IntrEp0, IntrIn, IntrOut);
      ServeEp0(IntrEp0, IntrIn, IntrOut);
      ghost var c5 := Snapshot(Finishing, IntrEp0, IntrIn, IntrOut);
      Finish(IntrEp0, IntrIn, IntrOut);
      PollLate(cfg, c0, c2, c3, c4, c5, Snapshot(Start, IntrEp0, IntrIn, IntrOut));
    }
  }

  /** Both interrupt registers have been read. */
  function Sampled(c: Ctl): Ctl {
    c.(pc := if c.irqEp0 || c.irqIn || c.irqOut then GotOut else Start, sawEp0 := c.irqEp0, sawIn := c.irqIn, sawOut := c.irqOut,
       irqEp0 := false, irqIn := false, irqOut := false)
  }

  /** The control endpoint's part of a poll. */
  function ControlServed(cfg: Config, c: Ctl): Ctl {
    if c.sawEp0 && c.ep0.Some? then
      var r := c.ep0.value;
      var served := HandleRequest(c.dev, cfg.fs, r);
      c.(pc := Finishing, ep0 := None, dev := AfterRequest(served.d, r), inFifo := Queue(c.inFifo, served.packet))
    else c.(pc := Finishing)
  }

  lemma {:induction false} PollOn(cfg: Config, c: Ctl, n: nat, c1: Ctl, n1: nat)
    requires Sane(c.dev) && cfg.fs >= 8 && c.pc != Start && n1 == n - 1 && c1 == DeviceStep(cfg, c)
    ensures Sane(c1.dev) && RestOfPoll(cfg, c, n) == RestOfPoll(cfg, c1, n1)
  {
    DeviceStepSane(cfg, c);
  }

  lemma {:induction false} PollSampled(cfg: Config, c0: Ctl)
    requires Sane(c0.dev) && cfg.fs >= 8 && c0.pc == Start
    ensures Poll(cfg, c0) == RestOfPoll(cfg, Sampled(c0), 6)
  {
    var c1 := c0.(pc := GotIn, sawEp0 := c0.irqEp0, sawIn := c0.irqIn, irqEp0 := false, irqIn := false);
    assert c1 == DeviceStep(cfg, c0) && Sampled(c0) == DeviceStep(cfg, c1);
    PollOn(cfg, c1, 7, Sampled(c0), 6);
  }

  lemma {:induction false} PollEarly(cfg: Config, c0: Ctl)
    requires Sane(c0.dev) && cfg.fs >= 8 && c0.pc == Start && Sampled(c0).pc == Start
    ensures Poll(cfg, c0) == Sampled(c0)
  {
    PollSampled(cfg, c0);
  }

  lemma {:induction false} ControlRest(cfg: Config, c4: Ctl, c5: Ctl, c6: Ctl)
    requires Sane(c4.dev) && cfg.fs >= 8 && c4.pc == ServedOut && c5 == ControlServed(cfg, c4) && Sane(c5.dev)
    requires c6 == DeviceStep(cfg, c5)
    ensures RestOfPoll(cfg, c4, 4) == c6
  {
    if c4.sawEp0 && c4.ep0.Some? {
      RequestRest(cfg, c4, c5, c6, c4.ep0.value);
    } else {
      PollOn(cfg, c4, 4, c5, 3);
      PollOn(cfg, c5, 3, c6, 2);
    }
  }

  lemma {:induction false} RequestRest(cfg: Config, c4: Ctl, c5: Ctl, c6: Ctl, r: Request)
    requires Sane(c4.dev) && cfg.fs >= 8 && c4.pc == ServedOut && c5 == ControlServed(cfg, c4) && Sane(c5.dev)
    requires c4.sawEp0 && c4.ep0 == Some(r) && c6 == DeviceStep(cfg, c5)
    ensures RestOfPoll(cfg, c4, 4) == c6
  {
    var served := HandleRequest(c4.dev, cfg.fs, r);
    var a := c4.(pc := Running(r), ep0 := None);
    var b := a.(pc := Clearing(r), dev := served.d, inFifo := Queue(c4.inFifo, served.packet));
    RequestSane(c4.dev, cfg.fs, r);
    assert a == DeviceStep(cfg, c4);
    assert b == DeviceStep(cfg, a);
    assert c5 == DeviceStep(cfg, b);
    PollOn(cfg, c4, 4, a, 3);
    PollOn(cfg, a, 3, b, 2);
    PollOn(cfg, b, 2, c5, 1);
    PollOn(cfg, c5, 1, c6, 0);
  }

  lemma {:induction false} PollLate(cfg: Config, c0: Ctl, c2: Ctl, c3: Ctl, c4: Ctl, c5: Ctl, c6: Ctl)
    requires Sane(c0.dev) && Sane(c2.dev) && Sane(c3.dev) && Sane(c4.dev) && Sane(c5.dev) && cfg.fs >= 8
    requires c0.pc == Start && c2 == Sampled(c0)
    requires c2.pc == GotOut && c3 == DeviceStep(cfg, c2)
    requires c3.pc == ServedIn && c4 == DeviceStep(cfg, c3)
    requires c4.pc == ServedOut && c5 == ControlServed(cfg, c4) && c6 == DeviceStep(cfg, c5)
    ensures Poll(cfg, c0) == c6
  {
    PollSampled(cfg, c0);
    PollOn(cfg, c2, 6, c3, 5);
    PollOn(cfg, c3, 5, c4, 4);
    ControlRest(cfg, c4, c5, c6);
  }

  lemma {:induction false} TakeWord(words: seq<byte>, d: nat, d1: nat, done: seq<byte>, w: seq<byte>)
    requires d <= d1 <= |words| && done == words[..d] && w == words[d..d1]
    ensures done + w == words[..d1]
  {
  }

  lemma {:induction false} SpliceWord(s: seq<byte>, at: nat, w: seq<byte>, t: seq<byte>)
    requires |w| == 4 && at + 4 <= |s|
    requires t == s[at := w[0]][at + 1 := w[1]][at + 2 := w[2]][at + 3 := w[3]]
    ensures t == Splice(s, at, w)
  {
  }
}
