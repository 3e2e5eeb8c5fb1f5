/** The host side of a load, as jzboot writes it: a loop over blocks, each sent, addressed,
    measured, loaded and answered. */
module Jzboot {
  import opened RsCode
  import opened Memory
  import opened Udc
  import opened Transport
  import opened LoadSdram

  class Handle {
    const fs: nat
    const junk: Junk
    var issued: seq<Op>  // what has been handed to the USB stack, in order

    constructor (fs: nat, junk: Junk)
      requires fs > 0
      ensures this.fs == fs && this.junk == junk && issued == []
    {
      this.fs, this.junk, this.issued := fs, junk, [];
    }

    /** usbdev_sendbulk: the USB stack cuts the transfer into packets. */
    method SendBulk(data: seq<byte>, at: nat)
      requires fs > 0
      modifies `issued
      ensures issued == old(issued) + BulkOps(data, fs, junk, at)
    {
      ghost var want := old(issued) + BulkOps(data, fs, junk, at);
      var rest, o: nat := data, at;
      while |rest| > fs
        invariant issued + BulkOps(rest, fs, junk, o) == want
        decreases |rest|
      {
        var packet := Bulk(Padded(rest[..fs], junk, o));
        assert issued + ([packet] + BulkOps(rest[fs..], fs, junk, o + fs)) == issued + [packet] + BulkOps(rest[fs..], fs, junk, o + fs);
        issued := issued + [packet];
        rest, o := rest[fs..], o + fs;
      }
      issued := issued + [Bulk(Padded(rest, junk, o))];
    }

    /** ingenic_wordop: a 32-bit word as wValue and wIndex. */
    method WordOp(op: nat, w: nat)
      modifies `issued
      ensures issued == old(issued) + [Control(WordRequest(op, w))]
    {
      var value, index := w / 0x10000, w % 0x10000;
      issued := issued + [Control(if op == 0 then SetAddress(value, index) else SetLength(value, index))];
    }

    /** One round of the loop. */
    method LoadBlock(block: seq<byte>, base: nat, at: nat)
      requires fs > 0
      modifies `issued
      ensures issued == old(issued) + BlockOps(base, block, fs, junk, at)
    {
      SendBulk(block, at);
      WordOp(0, base);
      WordOp(1, |block|);
      issued := issued + [Control(SdramLoad)];
      issued := issued + [Receive];
    }

    /** ingenic_load_sdram. */
    method LoadSdram(data: seq<byte>, start: nat)
      requires fs > 0
      modifies `issued
      ensures issued == old(issued) + Program(start, data, fs, junk, 0)
    {
      ghost var want := old(issued) + Program(start, data, fs, junk, 0);
      var rest, base, at: nat := data, start, 0;
      while |rest| > 0
        invariant issued + Program(base, rest, fs, junk, at) == want
        decreases |rest|
      {
        var block := if |rest| > STAGE2_IOBUF then STAGE2_IOBUF else |rest|;
        ghost var before, ops, more := issued, BlockOps(base, rest[..block], fs, junk, at), Program(Wrap(base, block), rest[block..], fs, junk, at + block);
        LoadBlock(rest[..block], base, at);
        assert before + (ops + more) == (before + ops) + more;
        rest, base, at := rest[block..], Wrap(base, block), at + block;
      }
      assert issued + [] == issued;
    }
  }
}
