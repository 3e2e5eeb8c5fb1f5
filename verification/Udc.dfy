/** The USB device controller driver of stage 2: what each endpoint handler does to the
    driver's variables, and the object that does it. */
module Udc {
  import opened Options
  import opened RsCode
  import opened Splices
  import opened Memory

  datatype UdcState = Idle | BulkIn | BulkOut

  /** The driver's variables. */
  datatype Dev = Dev(outBuf: seq<byte>, outSize: nat, inBuf: seq<byte>, inSize: nat, inFinish: nat, state: UdcState,
                     startAddr: nat, opsLength: nat, handshake: seq<byte>, mem: Mem, hand: seq<byte>)

  /** Bulk_in_size - Bulk_in_finish, computed on 32-bit words. */
  function Remaining(d: Dev): nat {
    (d.inSize - d.inFinish) % 0x1_0000_0000
  }

  /** What holds of the variables in every reachable state. */
  ghost predicate Sane(d: Dev) {
    && d.inFinish <= d.inSize < 0x1_0000_0000
    && |d.handshake| == 8
    && (d.inFinish < d.inSize ==> d.inSize <= |d.inBuf|)
    && d.startAddr < 0x1_0000_0000 && d.opsLength < 0x1_0000_0000
  }

  function Min(a: nat, b: nat): nat {
    if a < b then a else b
  }

  // ----- sending

  /** HW_SendPKT on endpoint 1: the first packet goes out at once. */
  function Send(d: Dev, fs: nat, size: nat): Dev {
    d.(inSize := size, inFinish := Min(size, fs))
  }

  function FirstPacket(fs: nat, buf: seq<byte>): seq<byte> {
    buf[..Min(|buf|, fs)]
  }

  /** The variables and the packet handed to the controller, if there is one. */
  datatype Served = Served(d: Dev, packet: Option<seq<byte>>)

  /** EPIN_Handler. */
  function EpIn(d: Dev, fs: nat): Served
    requires Sane(d)
  {
    if Remaining(d) == 0 then
      if d.state == Idle then Served(d, None)
      else Served(Send(d, fs, 8).(state := Idle), Some(FirstPacket(fs, d.handshake)))
    else
      var n := Min(Remaining(d), fs);
      Served(d.(inFinish := d.inFinish + n), Some(d.inBuf[d.inFinish..d.inFinish + n]))
  }

  /** A request that answers with a bulk transfer, such as NAND_READ: the first `size` bytes of
      Bulk_in_buf, and then the handshake `hs`. */
  function StartBulkIn(d: Dev, fs: nat, size: nat, hs: seq<byte>): Served
    requires size <= |d.inBuf|
  {
    Served(Send(d, fs, size).(handshake := hs, state := BulkIn), Some(FirstPacket(fs, d.inBuf[..size])))
  }

  /** A transfer cut into packets of `fs` bytes and a last one that may be shorter. */
  function Packets(s: seq<byte>, fs: nat): (r: seq<seq<byte>>)
    requires fs > 0
    ensures |r| > 0
    ensures forall i | 0 <= i < |r| - 1 :: |r[i]| == fs
    ensures |r[|r| - 1]| <= fs
    decreases |s|
  {
    if |s| <= fs then [s] else [s[..fs]] + Packets(s[fs..], fs)
  }

  function Joined(ps: seq<seq<byte>>): seq<byte>
    decreases |ps|
  {
    if ps == [] then [] else ps[0] + Joined(ps[1..])
  }

  /** The receiver gets the transfer back by putting the packets together. */
  lemma {:induction false} PacketsJoin(s: seq<byte>, fs: nat)
    requires fs > 0
    ensures Joined(Packets(s, fs)) == s
    decreases |s|
  {
    if |s| <= fs {
      assert [s][1..] == [];
    } else {
      PacketsJoin(s[fs..], fs);
      assert Packets(s, fs)[1..] == Packets(s[fs..], fs);
    }
  }

  /** The packets that endpoint 1 has still to deliver after the one it has been handed. */
  function ToCome(d: Dev, fs: nat): seq<seq<byte>>
    requires Sane(d) && fs > 0
  {
    (if d.inFinish < d.inSize then Packets(d.inBuf[d.inFinish..d.inSize], fs) else [])
    + (if d.state == Idle then [] else [d.handshake])
  }

  lemma CutSlice(s: seq<byte>, lo: nat, mid: nat, hi: nat)
    requires lo <= mid <= hi <= |s|
    ensures s[lo..hi][..mid - lo] == s[lo..mid] && s[lo..hi][mid - lo..] == s[mid..hi]
  {
  }

  /** One EP1 IN interrupt delivers the next packet, and nothing once there is none. */
  lemma {:induction false} EpInDelivers(d: Dev, fs: nat)
    requires Sane(d) && fs >= 8
    ensures var r := EpIn(d, fs);
            && Sane(r.d)
            && (r.packet == None <==> ToCome(d, fs) == [])
            && (r.packet == None ==> r.d == d)
            && (r.packet.Some? ==> ToCome(d, fs) == [r.packet.value] + ToCome(r.d, fs))
  {
    var r := EpIn(d, fs);
    if d.inFinish < d.inSize {
      var rest := d.inBuf[d.inFinish..d.inSize];
      if |rest| <= fs {
        assert r.packet.value == rest;
      } else {
        CutSlice(d.inBuf, d.inFinish, d.inFinish + fs, d.inSize);
      }
    } else if d.state != Idle {
      assert d.handshake[..8] == d.handshake;
    }
  }

  /** The packets delivered by `n` interrupts. */
  function AfterInterrupts(d: Dev, fs: nat, n: nat): (r: (Dev, seq<seq<byte>>))
    requires Sane(d) && fs >= 8
    ensures Sane(r.0)
    decreases n
  {
    if n == 0 then (d, [])
    else
      EpInDelivers(d, fs);
      var r := EpIn(d, fs);
      var rest := AfterInterrupts(r.d, fs, n - 1);
      (rest.0, (match r.packet case None => [] case Some(p) => [p]) + rest.1)
  }

  lemma TakeBehind(all: seq<seq<byte>>, p: seq<byte>, rest: seq<seq<byte>>, n: nat)
    requires all == [p] + rest && n > 0
    ensures all[..Min(n, |all|)] == [p] + rest[..Min(n - 1, |rest|)]
  {
  }

  lemma {:induction false} InterruptsDeliver(d: Dev, fs: nat, n: nat)
    requires Sane(d) && fs >= 8
    ensures AfterInterrupts(d, fs, n).1 == ToCome(d, fs)[..Min(n, |ToCome(d, fs)|)]
    decreases n
  {
    var all := ToCome(d, fs);
    if n > 0 {
      var r := EpIn(d, fs);
      EpInDelivers(d, fs);
      InterruptsDeliver(r.d, fs, n - 1);
      if r.packet.Some? {
        TakeBehind(all, r.packet.value, ToCome(r.d, fs), n);
      }
    }
  }

  /** A bulk answer, from the request on, over any number of interrupts with no new request:
      the data in packets of the endpoint's size, then the handshake once, then nothing. */
  lemma {:induction false} BulkInTransfer(d: Dev, fs: nat, size: nat, hs: seq<byte>, n: nat)
    requires Sane(d) && fs >= 8 && size <= |d.inBuf| && size < 0x1_0000_0000 && |hs| == 8
    ensures var r := StartBulkIn(d, fs, size, hs);
            var all := Packets(d.inBuf[..size], fs) + [hs];
            && Sane(r.d)
            && [r.packet.value] + AfterInterrupts(r.d, fs, n).1 == all[..Min(n + 1, |all|)]
  {
    var data := d.inBuf[..size];
    var r := StartBulkIn(d, fs, size, hs);
    var all := Packets(data, fs) + [hs];
    assert data[..|data|] == data;
    if |data| > fs {
      assert d.inBuf[fs..size] == data[fs..];
    }
    assert all == [r.packet.value] + ToCome(r.d, fs);
    InterruptsDeliver(r.d, fs, n);
    TakeBehind(all, r.packet.value, ToCome(r.d, fs), n + 1);
  }

  // ----- receiving

  /** A packet as the FIFO gives it out: whole words, so up to three more bytes. */
  datatype Packet = Packet(data: seq<byte>, pad: seq<byte>)

  ghost predicate WholeWords(p: Packet) {
    |p.pad| < 4 && (|p.data| + |p.pad|) % 4 == 0
  }

  /** EPOUT_Handler. A packet that would run over the end of Bulk_out_buf is not modelled;
      here it is dropped. */
  function EpOut(d: Dev, p: Packet): Dev {
    if d.outSize + |p.data| + |p.pad| <= |d.outBuf| then
      d.(outBuf := Splice(d.outBuf, d.outSize, p.data + p.pad), outSize := d.outSize + |p.data|)
    else d
  }

  // ----- control requests

  /** The vendor requests of a load and of the configuration; wValue and wIndex are 16 bits
      wide. */
  datatype Request =
    | SetAddress(value: nat, index: nat)
    | SetLength(value: nat, index: nat)
    | SdramLoad
    | Configure
    | FlushCaches

  /** The requests that use what the bulk packets brought, and answer with a handshake. */
  predicate ReadsBuffer(r: Request) {
    r.SdramLoad? || r.Configure?
  }

  ghost predicate ValidRequest(r: Request) {
    match r
    case SetAddress(v, i) => v < 0x10000 && i < 0x10000
    case SetLength(v, i) => v < 0x10000 && i < 0x10000
    case SdramLoad => true
    case Configure => true
    case FlushCaches => true
  }

  function WordOf(value: nat, index: nat): nat {
    (value * 0x10000 + index) % 0x1_0000_0000
  }

  /** A 32-bit word survives being sent as wValue and wIndex. */
  lemma WordSplit(w: nat)
    requires w < 0x1_0000_0000
    ensures w / 0x10000 < 0x10000 && w % 0x10000 < 0x10000 && WordOf(w / 0x10000, w % 0x10000) == w
  {
  }

  /** The bytes SDRAM_OPS_Handle copies. */
  function LoadedBytes(d: Dev): seq<byte> {
    d.outBuf[..Min(d.opsLength, |d.outBuf|)]
  }

  /** A vendor request's handler, up to but not including the reset of Bulk_out_size. */
  function HandleRequest(d: Dev, fs: nat, r: Request): Served {
    match r
    case SetAddress(v, i) => Served(d.(startAddr := WordOf(v, i)), None)
    case SetLength(v, i) => Served(d.(opsLength := WordOf(v, i)), None)
    case SdramLoad =>
      var hs := if |d.handshake| == 8 then LittleEndian(d.startAddr) + d.handshake[4..] else d.handshake;
      var d1 := d.(mem := Store(d.mem, d.startAddr, LoadedBytes(d)), handshake := hs);
      Served(Send(d1, fs, |hs|).(state := Idle), Some(FirstPacket(fs, hs)))
    case Configure =>
      var hs := if |d.handshake| == 8 then d.handshake[..6] + [0, 0] else d.handshake;
      var d1 := d.(hand := if |d.hand| <= |d.outBuf| then d.outBuf[..|d.hand|] else d.hand, handshake := hs);
      Served(Send(d1, fs, |hs|), Some(FirstPacket(fs, hs)))
    case FlushCaches => Served(d, None)
  }

  /** The answer to SDRAM_OPS: the address that was loaded to, least significant byte first, and
      behind it the words 2 and 3 as they were; nothing follows it. */
  lemma LoadAnswered(d: Dev, fs: nat, b0: byte, b1: byte, b2: byte, b3: byte)
    requires Sane(d) && fs >= 8 && d.startAddr == WordValue(b0, b1, b2, b3)
    ensures var r := HandleRequest(d, fs, SdramLoad);
            && r.packet == Some([b0, b1, b2, b3] + d.handshake[4..])
            && ToCome(r.d, fs) == []
  {
    LittleEndianMeans(b0, b1, b2, b3);
    var hs := [b0, b1, b2, b3] + d.handshake[4..];
    assert hs[..8] == hs;
  }

  /** The answer to CONFIGRATION: the handshake with word 3, the error word, cleared. */
  lemma ConfigureAnswered(d: Dev, fs: nat)
    requires Sane(d) && fs >= 8
    ensures var r := HandleRequest(d, fs, Configure);
            && r.packet.Some? && |r.packet.value| == 8 && r.d.state == d.state
            && (forall i | 0 <= i < 6 :: r.packet.value[i] == d.handshake[i])
            && r.packet.value[6] == r.packet.value[7] == 0
  {
  }

  /** What usbHandleVendorReq does after the handler. */
  function AfterRequest(d: Dev, r: Request): Dev {
    if ReadsBuffer(r) then d.(outSize := 0) else d
  }

  lemma RequestSane(d: Dev, fs: nat, r: Request)
    requires Sane(d) && fs >= 8
    ensures Sane(HandleRequest(d, fs, r).d) && Sane(AfterRequest(HandleRequest(d, fs, r).d, r))
  {
  }
}
