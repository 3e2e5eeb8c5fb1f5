/** The JZ4740 NAND driver as the object its static variables make up, driving a chip. */
module Nand4740 {
  import opened Options
  import opened RsCode
  import opened Flash
  import opened PageFormat
  import opened PageNumbers
  import opened NandSpec
  import opened Erasing
  import opened ImageFile
  import opened Buffers
  import opened ReadResult
  import opened Splices

  datatype Turn = BadBlock | NothingToDo | Written | Rejected

  /** What a round does with the image of page `k` of block `b`, which is not passed over. */
  ghost predicate TurnedGood(c: Chip, img: Image, b: nat, k: nat, turn: Turn, c1: Chip)
    requires b < |c.blocks|
  {
    if img.None? then turn == NothingToDo && c1 == c
    else turn == (if NextStatus(c).Fail? then Rejected else Written) && c1 == ProgramPage(c, b, k, img.value)
  }

  /** What one round of the page loop does with the image of page `cur`. */
  ghost predicate Turned(g: Geometry, c: Chip, img: Image, cur: nat, turn: Turn, c1: Chip)
    requires g.ppb > 0 && Blk(cur, g.ppb) < |c.blocks|
  {
    if AtBadBlock(g, c.blocks, cur) then turn == BadBlock && c1 == c
    else TurnedGood(c, img, Blk(cur, g.ppb), Idx(cur, g.ppb), turn, c1)
  }

  /** From page `p` with the `k`-th image in hand, a round has led to page `cur` with the
      `i`-th image in hand, and the pass ends as it would have from the earlier state. */
  ghost predicate Advanced(g: Geometry, c: Chip, imgs: seq<Image>, k: nat, p: nat, c1: Chip, i: nat, cur: nat)
    requires g.Valid()
  {
    && k <= i <= |imgs| && p <= cur && |c1.blocks| == |c.blocks|
    && (i == k ==> Blk(p, g.ppb) < Blk(cur, g.ppb) && Blk(p, g.ppb) < |c.blocks|)
    && Attempt(g, c, imgs[k..], p) == Attempt(g, c1, imgs[i..], cur)
  }

  lemma {:induction false} TurnRejected(g: Geometry, c: Chip, imgs: seq<Image>, k: nat, p: nat, c1: Chip)
    requires g.Valid() && k < |imgs| && Blk(p, g.ppb) < |c.blocks|
    requires Turned(g, c, imgs[k], p, Rejected, c1)
    ensures Attempt(g, c, imgs[k..], p) == Failed(c1, p)
  {
    assert imgs[k..][0] == imgs[k];
  }

  lemma {:induction false} TurnBad(g: Geometry, c: Chip, imgs: seq<Image>, k: nat, p: nat, c1: Chip, cur: nat)
    requires g.Valid() && k < |imgs| && Blk(p, g.ppb) < |c.blocks|
    requires Turned(g, c, imgs[k], p, BadBlock, c1) && cur == p + g.ppb
    ensures Advanced(g, c, imgs, k, p, c1, k, cur)
  {
    NextBlock(p, g.ppb);
  }

  lemma {:induction false} TurnDone(g: Geometry, c: Chip, imgs: seq<Image>, k: nat, p: nat, turn: Turn, c1: Chip, i: nat, cur: nat)
    requires g.Valid() && k < |imgs| && Blk(p, g.ppb) < |c.blocks|
    requires Turned(g, c, imgs[k], p, turn, c1) && (turn == NothingToDo || turn == Written) && i == k + 1 && cur == p + 1
    ensures Advanced(g, c, imgs, k, p, c1, i, cur)
  {
    var rest := imgs[k..];
    assert rest[1..] == imgs[i..] && rest[0] == imgs[k];
  }

  datatype PassEnd = LeftChip | Completed(end: nat) | PageFailed(page: nat)

  ghost predicate Ended(want: Outcome, end: PassEnd, c: Chip) {
    match want
    case OffChip => end == LeftChip
    case Done(c1, e) => end == Completed(e) && c == c1
    case Failed(c1, q) => end == PageFailed(q) && c == c1
  }

  ghost predicate ProgramReturns(want: Option<(Chip, nat)>, r: Option<nat>, c: Chip) {
    match want
    case None => r == None
    case Some((c1, e)) => r == Some(e) && c == c1
  }

  lemma {:induction false} ForcedOnce(g: Geometry, c: Chip, b: nat)
    requires g.Valid() && b < |c.blocks|
    ensures EraseFrom(g, c, b, b + 1, true) == Some((EraseOne(g, c, b), b + 1))
  {
    EraseGoesOn(g, c, b, b + 1, b + 1, true, EraseOne(g, c, b));
  }

  /** What the erase returns for the outcome `want`: the page after the last block tried. */
  ghost predicate EraseReturns(g: Geometry, want: Option<(Chip, nat)>, r: Option<nat>, c: Chip) {
    match want
    case None => r == None
    case Some((c1, e)) => r == Some(At(e, 0, g.ppb)) && c == c1
  }

  /** A round of the erase loop has led from block `b` to block `b1`. */
  ghost predicate EraseGoesTo(g: Geometry, c: Chip, b: nat, e: nat, force: bool, c1: Chip, b1: nat, e1: nat)
    requires g.Valid()
  {
    EraseFrom(g, c, b, e, force) == EraseFrom(g, c1, b1, e1, force)
  }

  lemma {:induction false} EraseSkips(g: Geometry, c: Chip, b: nat, b1: nat, e: nat, e1: nat)
    requires g.Valid() && b < e && b < |c.blocks| && b1 == b + 1 && e1 == e + g.plane && IsBad(g, c.blocks[b])
    ensures EraseGoesTo(g, c, b, e, false, c, b1, e1)
  {
  }

  lemma {:induction false} EraseGoesOn(g: Geometry, c: Chip, b: nat, b1: nat, e: nat, force: bool, c1: Chip)
    requires g.Valid() && b < e && b < |c.blocks| && b1 == b + 1 && (force || !IsBad(g, c.blocks[b])) && c1 == EraseOne(g, c, b)
    ensures EraseGoesTo(g, c, b, e, force, c1, b1, e)
  {
  }

  /** What the erase loop does from block `b` on. */
  ghost predicate EraseLeads(g: Geometry, c: Chip, b: nat, e: nat, force: bool, want: Option<(Chip, nat)>)
    requires g.Valid()
  {
    EraseFrom(g, c, b, e, force) == want
  }

  lemma {:induction false} EraseLeadsOn(g: Geometry, c: Chip, b: nat, e: nat, force: bool, c1: Chip, b1: nat, e1: nat, want: Option<(Chip, nat)>)
    requires g.Valid() && EraseLeads(g, c, b, e, force, want) && EraseGoesTo(g, c, b, e, force, c1, b1, e1)
    ensures EraseLeads(g, c1, b1, e1, force, want)
  {
  }

  lemma {:induction false} ErasePastEnd(g: Geometry, c: Chip, b: nat, e: nat, force: bool, want: Option<(Chip, nat)>)
    requires g.Valid() && b < e && b >= |c.blocks| && EraseLeads(g, c, b, e, force, want)
    ensures EraseReturns(g, want, None, c)
  {
  }

  lemma {:induction false} EraseEnds(g: Geometry, c: Chip, b: nat, e: nat, force: bool, want: Option<(Chip, nat)>, cur: nat)
    requires g.Valid() && b >= e && EraseLeads(g, c, b, e, force, want) && cur == At(b, 0, g.ppb)
    ensures EraseReturns(g, want, Some(cur), c)
  {
  }

  /** The loop compares page numbers; the specification compares block numbers. */
  lemma EraseBound(b: nat, e: nat, cur: nat, ppb: nat)
    requires ppb > 0 && cur == At(b, 0, ppb)
    ensures cur < At(e, 0, ppb) <==> b < e
    ensures cur / ppb == b
  {
    AtOrder(b, e, ppb);
    Split(b, 0, ppb);
    Quotient(cur, ppb);
  }

  lemma SubSlice(s: seq<byte>, lo: nat, hi: nat, a: nat, b: nat)
    requires lo <= hi <= |s| && a <= b <= hi - lo
    ensures s[lo..hi][a..b] == s[lo + a..lo + b]
  {
    var x, y := s[lo..hi][a..b], s[lo + a..lo + b];
    assert forall i | 0 <= i < b - a :: x[i] == s[lo..hi][a + i] == y[i];
  }

  lemma {:induction false} RoomForPage(done: nat, more: nat, n: nat, size: nat, len: nat)
    requires done < n && more == done + 1 && size > 0 && At(n, 0, size) <= len
    ensures At(done, 0, size) + size == At(more, 0, size) <= len
  {
    AtStep(done, 0, size);
    AtOrder(n, more, size);
    assert At(more, 0, size) == At(done + 1, 0, size);
  }

  /** The page layout that the boot pages override, as saved before the loop. */
  datatype Layout = Layout(ecccnt: nat, oobsize: nat, ecc_pos: nat)

  /** A buffer and an error word after one more sector. */
  lemma {:induction false} SectorAdded(rs: Engine, before: seq<byte>, now: seq<byte>, now1: seq<byte>, t: nat, raw: seq<byte>, all: seq<byte>,
                                       j: nat, j1: nat, s: seq<byte>, p: seq<byte>, flag: bool, word: bool, v: Verdict)
    requires Sound(rs) && j1 == j + 1 && ECC_BLOCK * j1 <= |raw| && PAR_SIZE * j1 <= |all| && t + ECC_BLOCK * j1 <= |before|
    requires s == Sector(raw, j) && p == all[PAR_SIZE * j..PAR_SIZE * j1] && v == VerdictOf(rs, s, p)
    requires now == Splice(before, t, Decode(rs, raw, all, j)) && now1 == Splice(now, t + ECC_BLOCK * j, Decoded(rs, s, p))
    requires word == SayAll(flag, SectorVerdicts(rs, raw, all, j))
    ensures now1 == Splice(before, t, Decode(rs, raw, all, j1))
    ensures Say(word, v) == SayAll(flag, SectorVerdicts(rs, raw, all, j1))
  {
    DecodeStep(rs, raw, all, j, j1, s, p);
    VerdictStep(rs, raw, all, j, j1, s, p);
    SpliceOnAt(before, t, t + ECC_BLOCK * j, Decode(rs, raw, all, j), Decoded(rs, s, p));
    SayAppend(flag, SectorVerdicts(rs, raw, all, j), [v]);
  }

  class Driver {
    const rs: Engine
    var pagesize: nat
    var oobsize: nat
    var ppb: nat
    var bad_block_page: nat
    var bad_block_pos: nat
    var ecc_pos: nat
    var plane: nat
    const oob_buf: array<byte>
    var chip: Chip
    var reg: seq<byte>  // the chip's page register
    var handshake3: bool  // handshake_PKT[3]

    function Geo(): Geometry
      reads `pagesize, `oobsize, `ppb, `bad_block_page, `bad_block_pos, `ecc_pos, `plane
    {
      Geometry(pagesize, oobsize, ppb, bad_block_page, bad_block_pos, ecc_pos, plane)
    }

    ghost predicate Valid()
      reads `pagesize, `oobsize, `ppb, `bad_block_page, `bad_block_pos, `ecc_pos, `plane, `chip
    {
      Sound(rs) && Geo().Valid() && oob_buf.Length == 256 && ValidChip(Geo(), chip)
    }

    /** nand_init_4740. */
    constructor (rs: Engine, page_size: nat, page_per_block: nat, bbpage: nat, bbpos: nat, ep: nat, nand_plane: nat, chip: Chip)
      requires Sound(rs)
      requires var g := Geometry(page_size, page_size / 32, page_per_block, bbpage, bbpos, ep, nand_plane);
               g.Valid() && ValidChip(g, chip)
      ensures Valid() && fresh(oob_buf) && this.rs == rs && this.chip == chip
      ensures Geo() == Geometry(page_size, page_size / 32, page_per_block, bbpage, bbpos, ep, nand_plane)
    {
      this.rs := rs;
      pagesize, oobsize, ppb := page_size, page_size / 32, page_per_block;
      bad_block_page, bad_block_pos, ecc_pos, plane := bbpage, bbpos, ep, nand_plane;
      oob_buf := new byte[256];
      this.chip, reg, handshake3 := chip, [], false;
    }

    // ----- commands

    method ReadOob(pg: nat)
      requires Valid() && Blk(pg, ppb) < |chip.blocks|
      modifies oob_buf
      ensures oob_buf[..oobsize] == PageAt(Geo(), chip.blocks, pg).oob
    {
      var page := chip.blocks[Blk(pg, ppb)][Idx(pg, ppb)];
      for i := 0 to oobsize
        invariant oob_buf[..i] == page.oob[..i]
      {
        oob_buf[i] := page.oob[i];
      }
    }

    method WriteProc(buf: seq<byte>)
      modifies this`reg
      ensures reg == old(reg) + buf
    {
      for i := 0 to |buf|
        invariant reg == old(reg) + buf[..i]
      {
        reg := reg + [buf[i]];
      }
    }

    /** PGPROG and the status read after it. */
    method ProgramConfirm(pg: nat) returns (failed: bool)
      requires Valid() && Blk(pg, ppb) < |chip.blocks| && |reg| == pagesize + oobsize
      modifies this`chip
      ensures Valid()
      ensures chip == ProgramPage(old(chip), Blk(pg, ppb), Idx(pg, ppb), Page(reg[..pagesize], reg[pagesize..]))
      ensures failed == NextStatus(old(chip)).Fail?
    {
      var img := Page(reg[..pagesize], reg[pagesize..]);
      ProgramPageValid(Geo(), chip, Blk(pg, ppb), Idx(pg, ppb), img);
      failed := NextStatus(chip).Fail?;
      chip := ProgramPage(chip, Blk(pg, ppb), Idx(pg, ppb), img);
    }

    // ----- nand_check_block

    method Suspicious(pg: nat) returns (bad: bool)
      requires Valid() && Blk(pg, ppb) < |chip.blocks|
      modifies oob_buf
      ensures bad == PageMarked(Geo(), PageAt(Geo(), chip.blocks, pg))
    {
      ReadOob(pg);
      ghost var oob := oob_buf[..oobsize];
      if bad_block_page >= ppb {
        bad := oob_buf[0] != 0xff || oob_buf[1] != 0xff;
        assert oob[0] == oob_buf[0] && oob[1] == oob_buf[1];
      } else {
        bad := oob_buf[bad_block_pos] != 0xff;
        assert oob[bad_block_pos] == oob_buf[bad_block_pos];
      }
    }

    /** One look at the marks: page `k` of the block. */
    method PageIsMarked(block: nat, k: nat, pg: nat) returns (bad: bool)
      requires Valid() && block < |chip.blocks| && k < ppb && pg == block * ppb + k
      modifies oob_buf
      ensures bad == PageMarked(Geo(), chip.blocks[block][k])
    {
      PageOf(block, k, ppb);
      bad := Suspicious(pg);
    }

    method CheckBlock(block: nat) returns (bad: bool)
      requires Valid() && block < |chip.blocks|
      modifies oob_buf
      ensures bad == IsBad(Geo(), chip.blocks[block])
      ensures bad_block_page >= ppb ==> bad == SpoiledAtEnds(chip.blocks[block])
      ensures bad_block_page < ppb ==> bad == Spoiled(chip.blocks[block], bad_block_page, bad_block_pos)
    {
      MarkedFrom(Geo(), chip.blocks[block], 0);
      BadMeans(Geo(), chip.blocks[block]);
      if bad_block_page >= ppb {
        bad := PageIsMarked(block, 0, block * ppb + 0);
        if bad { return; }
        bad := PageIsMarked(block, 1, block * ppb + 1);
        if bad { return; }
        bad := PageIsMarked(block, ppb - 2, block * ppb + ppb - 2);
        if bad { return; }
        bad := PageIsMarked(block, ppb - 1, block * ppb + ppb - 1);
      } else {
        bad := PageIsMarked(block, bad_block_page, block * ppb + bad_block_page);
      }
    }

    /** Whether page `pg` is the first of a bad block. */
    method StartsBadBlock(pg: nat) returns (bad: bool)
      requires Valid() && Blk(pg, ppb) < |chip.blocks|
      modifies oob_buf
      ensures bad == AtBadBlock(Geo(), chip.blocks, pg)
    {
      Quotient(pg, ppb);
      bad := false;
      if pg % ppb == 0 {
        bad := CheckBlock(pg / ppb);
      }
    }

    // ----- nand_mark_bad

    /** Zeros over one page; the status is not read. */
    method MarkBadPage(block: nat, k: nat, page: nat)
      requires Valid() && block < |chip.blocks| && k < ppb && page == block * ppb + k
      modifies this`chip, this`reg
      ensures Valid()
      ensures chip == old(chip).(blocks := old(chip).blocks[block := ZeroPage(Geo(), old(chip).blocks[block], k)])
    {
      var badbuf := [];
      for i := 0 to pagesize + oobsize
        invariant badbuf == ZeroBytes(i)
      {
        badbuf := badbuf + [0];
      }
      reg := [];
      WriteProc(badbuf);
      PageOf(block, k, ppb);
      assert reg[..pagesize] == ZeroBytes(pagesize) && reg[pagesize..] == ZeroBytes(oobsize);
      ZeroPageValid(Geo(), chip.blocks[block], k);
      var b, i := Blk(page, ppb), Idx(page, ppb);
      var after := AndPage(chip.blocks[b][i], Page(reg[..pagesize], reg[pagesize..]));
      chip := chip.(blocks := chip.blocks[b := chip.blocks[b][i := after]]);
    }

    method MarkBlockBad(block: nat) returns (rowaddr: nat)
      requires Valid() && block < |chip.blocks|
      modifies this`chip, this`reg
      ensures Valid()
      ensures chip == MarkBad(Geo(), old(chip), block)
      ensures rowaddr == block * ppb + (if bad_block_page >= ppb then ppb - 1 else bad_block_page)
    {
      if bad_block_page >= ppb {
        rowaddr := block * ppb + 0;
        MarkBadPage(block, 0, rowaddr);
        rowaddr := block * ppb + 1;
        MarkBadPage(block, 1, rowaddr);
        rowaddr := block * ppb + ppb - 2;
        MarkBadPage(block, ppb - 2, rowaddr);
        rowaddr := block * ppb + ppb - 1;
        MarkBadPage(block, ppb - 1, rowaddr);
      } else {
        rowaddr := block * ppb + bad_block_page;
        MarkBadPage(block, bad_block_page, rowaddr);
      }
    }

    // ----- nand_erase

    /** ERASE, and the status read after it. */
    method EraseConfirm(pg: nat) returns (failed: bool)
      requires Valid() && Blk(pg, ppb) < |chip.blocks|
      modifies this`chip
      ensures Valid()
      ensures chip == EraseBlock(Geo(), old(chip), Blk(pg, ppb))
      ensures failed == NextStatus(old(chip)).Fail?
    {
      EraseBlockValid(Geo(), chip, Blk(pg, ppb));
      failed := NextStatus(chip).Fail?;
      chip := EraseBlock(Geo(), chip, Blk(pg, ppb));
    }

    /** The page the erase loop runs up to. */
    method EraseLimit(sblk: nat, blk_num: nat, ghost e: nat) returns (limit: nat)
      requires e == sblk + blk_num
      ensures limit == At(e, 0, ppb)
    {
      AtIsLinear(e, 0, ppb);
      limit := (sblk + blk_num) * ppb;
    }

    /** The block a page is in. */
    method BlockOfPage(cur: nat, ghost b: nat, ghost e: nat) returns (blk: nat)
      requires ppb > 0 && cur == At(b, 0, ppb)
      ensures blk == b && (cur < At(e, 0, ppb) <==> b < e)
    {
      EraseBound(b, e, cur, ppb);
      blk := cur / ppb;
    }

    /** Whether the erase passes over the block. */
    method PassesOver(block: nat, force: bool) returns (bad: bool)
      requires Valid() && block < |chip.blocks|
      modifies oob_buf
      ensures bad <==> !force && IsBad(Geo(), chip.blocks[block])
    {
      bad := false;
      if !force {
        bad := CheckBlock(block);
      }
    }

    /** One round of the erase loop on block `b`: by how much the bound of the loop moves. */
    method EraseTurn(cur: nat, b: nat, force: bool, ghost b1: nat, ghost e: nat) returns (more: nat)
      requires Valid() && b < |chip.blocks| && cur == At(b, 0, ppb) && b < e && b1 == b + 1
      modifies this`chip, this`reg, oob_buf
      ensures Valid() && |chip.blocks| == |old(chip).blocks|
      ensures EraseGoesTo(Geo(), old(chip), b, e, force, chip, b1, e + more)
    {
      more := 0;
      var bad := PassesOver(b, force);
      if bad {
        more := plane;
        EraseSkips(Geo(), chip, b, b1, e, e + more);
      } else {
        EraseOrMark(cur, b, force, b1, e);
      }
    }

    /** The block is erased; if that fails it is marked. */
    method EraseOrMark(cur: nat, b: nat, ghost force: bool, ghost b1: nat, ghost e: nat)
      requires Valid() && b < |chip.blocks| && cur == At(b, 0, ppb) && b < e && b1 == b + 1
      requires force || !IsBad(Geo(), chip.blocks[b])
      modifies this`chip, this`reg
      ensures Valid() && |chip.blocks| == |old(chip).blocks|
      ensures EraseGoesTo(Geo(), old(chip), b, e, force, chip, b1, e)
    {
      ghost var c := chip;
      Split(b, 0, ppb);
      var failed := EraseConfirm(cur);
      if failed {
        var _ := MarkBlockBad(b);
      }
      EraseGoesOn(Geo(), c, b, b1, e, force, chip);
    }

    /** One round of the erase loop; `past` when it has run past the last block of the chip. */
    method EraseRound(cur: nat, blk_num: nat, force: bool, ghost b: nat, ghost e: nat, ghost want: Option<(Chip, nat)>)
      returns (past: bool, cur1: nat, blk_num1: nat, ghost b1: nat, ghost e1: nat)
      requires Valid() && cur == At(b, 0, ppb) && cur < At(e, 0, ppb) && EraseLeads(Geo(), chip, b, e, force, want)
      modifies this`chip, this`reg, oob_buf
      ensures Valid() && |chip.blocks| == |old(chip).blocks|
      ensures if past then EraseReturns(Geo(), want, None, chip)
              else b1 == b + 1 <= |chip.blocks| && cur1 == At(b1, 0, ppb) && e1 + blk_num == e + blk_num1 && EraseLeads(Geo(), chip, b1, e1, force, want)
    {
      past, cur1, blk_num1, b1, e1 := false, cur, blk_num, b + 1, e;
      var blk := BlockOfPage(cur, b, e);
      if blk >= |chip.blocks| {
        ErasePastEnd(Geo(), chip, b, e, force, want);
        past := true;
      } else {
        ghost var c := chip;
        var more := EraseTurn(cur, blk, force, b1, e);
        e1 := e + more;
        EraseLeadsOn(Geo(), c, b, e, force, chip, b1, e1, want);
        AtStep(b, 0, ppb);
        blk_num1, cur1 := blk_num + more, cur + ppb;
      }
    }

    /** The erase loop; None when it runs past the last block of the chip. */
    method Erase(blocks: nat, sblk: nat, force: bool) returns (r: Option<nat>)
      requires Valid()
      modifies this`chip, this`reg, oob_buf
      ensures Valid()
      ensures EraseReturns(Geo(), EraseFrom(Geo(), old(chip), sblk, sblk + blocks, force), r, chip)
    {
      ghost var b, e, want := sblk, sblk + blocks, EraseFrom(Geo(), chip, sblk, sblk + blocks, force);
      var blk_num: nat := blocks;
      var cur := EraseLimit(sblk, 0, sblk);
      var limit := EraseLimit(sblk, blk_num, e);
      while cur < limit
        invariant Valid() && e == sblk + blk_num && cur == At(b, 0, ppb) && limit == At(e, 0, ppb)
        invariant EraseLeads(Geo(), chip, b, e, force, want)
        decreases |chip.blocks| - b
      {
        var past;
        past, cur, blk_num, b, e := EraseRound(cur, blk_num, force, b, e, want);
        if past {
          return None;
        }
        limit := EraseLimit(sblk, blk_num, e);
      }
      EraseBound(b, e, cur, ppb);
      EraseEnds(Geo(), chip, b, e, force, want, cur);
      r := Some(cur);
    }

    // ----- nand_program

    /** The data sectors, each with its parity read back from the engine. */
    method SendSectors(buf: seq<byte>, ecccnt: nat) returns (ecc_buf: seq<byte>)
      requires Valid() && ECC_BLOCK * ecccnt <= |buf|
      modifies this`reg
      ensures reg == old(reg) + buf[..ECC_BLOCK * ecccnt]
      ensures ecc_buf == Parity(rs, buf, ecccnt)
    {
      ecc_buf := [];
      for j := 0 to ecccnt
        invariant reg == old(reg) + buf[..ECC_BLOCK * j]
        invariant ecc_buf == Parity(rs, buf, j)
      {
        var sector := buf[ECC_BLOCK * j..ECC_BLOCK * j + ECC_BLOCK];
        WriteProc(sector);
        ecc_buf := ecc_buf + rs.encode(sector);
      }
    }

    method FillOob(src: seq<byte>)
      requires |src| <= oob_buf.Length
      modifies oob_buf
      ensures oob_buf[..|src|] == src
    {
      for j := 0 to |src|
        invariant oob_buf[..j] == src[..j]
      {
        oob_buf[j] := src[j];
      }
    }

    method PatchOob(ecc_buf: seq<byte>)
      requires ecc_pos + |ecc_buf| <= oobsize <= oob_buf.Length
      modifies oob_buf
      ensures oob_buf[..oobsize] == Patch(old(oob_buf[..oobsize]), ecc_pos, ecc_buf)
    {
      ghost var before := oob_buf[..oobsize];
      for j := 0 to |ecc_buf|
        invariant oob_buf[..oobsize] == Patch(before, ecc_pos, ecc_buf[..j])
      {
        oob_buf[ecc_pos + j] := ecc_buf[j];
      }
      assert ecc_buf[..|ecc_buf|] == ecc_buf;
    }

    /** Data, and then the spare bytes in `src` with the parity patched in. */
    method SendWithParity(data: seq<byte>, src: seq<byte>, ecccnt: nat)
      requires Valid() && |data| == pagesize && |src| == oobsize && ecccnt == Geo().Sectors() && reg == []
      modifies this`reg, oob_buf
      ensures reg == data + Patch(src, ecc_pos, Parity(rs, data, ecccnt))
    {
      var ecc_buf := SendSectors(data, ecccnt);
      assert data[..pagesize] == data;
      FillOob(src);
      PatchOob(ecc_buf);
      WriteProc(oob_buf[..oobsize]);
    }

    /** The spare bytes of a page that comes without any. */
    method BlankSpare() returns (src: seq<byte>)
      requires Valid()
      ensures src == BlankOob(oobsize)
    {
      src := Ones(oobsize);
      src := src[2 := 0];
      src := src[3 := 0];
      src := src[4 := 0];
    }

    lemma Cleaved(a: seq<byte>, b: seq<byte>)
      ensures (a + b)[..|a|] == a && (a + b)[|a|..] == b
    {
    }

    /** SEQIN and everything up to the confirm command, for one chunk of the image. */
    method SendPage(buf: seq<byte>, option: Format, ecccnt: nat)
      requires Valid() && |buf| == ChunkSize(Geo(), option) && ecccnt == Geo().Sectors()
      modifies this`reg, oob_buf
      ensures |reg| == pagesize + oobsize
      ensures Page(reg[..pagesize], reg[pagesize..]) == PageImage(rs, Geo(), option, buf)
    {
      reg := [];
      var data := buf[..pagesize];
      match option
      case OobEcc =>
        WriteProc(data);
        WriteProc(buf[pagesize..]);
        Cleaved(data, buf[pagesize..]);
      case OobNoEcc =>
        SendWithParity(data, buf[pagesize..], ecccnt);
        Cleaved(data, Patch(buf[pagesize..], ecc_pos, Parity(rs, data, ecccnt)));
      case NoOob =>
        var src := BlankSpare();
        SendWithParity(data, src, ecccnt);
        Cleaved(data, Patch(src, ecc_pos, Parity(rs, data, ecccnt)));
    }

    /** The boot pages are left alone: below page 8 the driver assumes a fixed layout. */
    ghost predicate BootFree(spage: nat)
      reads `pagesize, `ecc_pos
    {
      (spage >= 8 && (pagesize == 4096 ==> spage > 8)) || (pagesize == 2048 && ecc_pos == 6)
    }

    /** The layout override for the boot pages, undone on every later page. */
    method SelectLayout(cur: nat, saved: Layout) returns (ecccnt: nat)
      requires Valid() && BootFree(cur) && saved == Layout(Geo().Sectors(), oobsize, ecc_pos)
      modifies this`oobsize, this`ecc_pos
      ensures Geo() == old(Geo()) && ecccnt == Geo().Sectors()
    {
      if cur < 8 {
        ecccnt, oobsize, ecc_pos := 4, 64, 6;
      } else {
        ecccnt, oobsize, ecc_pos := saved.ecccnt, saved.oobsize, saved.ecc_pos;
      }
    }

    /** The chunk of a page that is not passed over: nothing to do for 0xff, or program it. */
    method ProgramChunk(chunk: seq<byte>, cur: nat, option: Format, ecccnt: nat) returns (turn: Turn)
      requires Valid() && |chunk| == ChunkSize(Geo(), option) && ecccnt == Geo().Sectors() && Blk(cur, ppb) < |chip.blocks|
      modifies this`chip, this`reg, oob_buf
      ensures Valid() && |chip.blocks| == |old(chip).blocks|
      ensures TurnedGood(old(chip), ImageOf(rs, Geo(), option, chunk), Blk(cur, ppb), Idx(cur, ppb), turn, chip)
    {
      var blank := Blank(chunk);
      if blank {
        return NothingToDo;
      }
      SendPage(chunk, option, ecccnt);
      var failed := ProgramConfirm(cur);
      turn := if failed then Rejected else Written;
    }

    /** One round of the page loop: pass over a bad block, pass over a chunk of 0xff, or
        program the page. */
    method PageTurn(chunk: seq<byte>, cur: nat, option: Format, saved: Layout, ghost img: Image) returns (turn: Turn)
      requires Valid() && BootFree(cur) && saved == Layout(Geo().Sectors(), oobsize, ecc_pos)
      requires |chunk| == ChunkSize(Geo(), option) && img == ImageOf(rs, Geo(), option, chunk) && Blk(cur, ppb) < |chip.blocks|
      modifies this, oob_buf
      ensures Valid() && Geo() == old(Geo()) && |chip.blocks| == |old(chip).blocks|
      ensures Turned(Geo(), old(chip), img, cur, turn, chip)
    {
      var ecccnt := SelectLayout(cur, saved);
      var bad := StartsBadBlock(cur);
      if bad {
        return BadBlock;
      }
      turn := ProgramChunk(chunk, cur, option, ecccnt);
    }

    /** The body of the page loop: where it goes next, or how it ends. */
    method Advance(context: seq<byte>, t: nat, k: nat, p: nat, option: Format, saved: Layout, ghost imgs: seq<Image>)
      returns (tmpbuf: nat, i: nat, cur: nat, end: Option<PassEnd>)
      requires Valid() && BootFree(p) && saved == Layout(Geo().Sectors(), oobsize, ecc_pos)
      requires k < |imgs| && HoldsImage(rs, Geo(), option, context, k, imgs[k]) && t == At(k, 0, ChunkSize(Geo(), option))
      modifies this, oob_buf
      ensures Valid() && Geo() == old(Geo())
      ensures end.Some? ==> Ended(Attempt(Geo(), old(chip), imgs[k..], p), end.value, chip)
      ensures end.None? ==> tmpbuf == At(i, 0, ChunkSize(Geo(), option)) && Advanced(Geo(), old(chip), imgs, k, p, chip, i, cur)
    {
      ghost var g, c := Geo(), chip;
      tmpbuf, i, cur, end := t, k, p, None;
      // The 16 KB that the source passes over at page 8 of a 4096-byte chip belong to the boot pages.
      assert !(pagesize == 4096 && cur == 8);
      Quotient(cur, ppb);
      if cur / ppb >= |chip.blocks| {
        return tmpbuf, i, cur, Some(LeftChip);
      }
      var turn := PageTurn(context[tmpbuf..tmpbuf + ChunkSize(Geo(), option)], cur, option, saved, imgs[k]);
      AtStep(k, 0, ChunkSize(g, option));
      if turn == Rejected {
        TurnRejected(g, c, imgs, k, p, chip);
        return tmpbuf, i, cur, Some(PageFailed(cur));
      }
      if turn == BadBlock {
        cur := cur + ppb;
        TurnBad(g, c, imgs, k, p, chip, cur);
      } else {
        tmpbuf, i, cur := tmpbuf + ChunkSize(Geo(), option), i + 1, cur + 1;
        TurnDone(g, c, imgs, k, p, turn, chip, i, cur);
      }
    }

    /** One pass of nand_program over its pages, from the label `restart` to the end or to
        the first page whose programming fails. */
    method ProgramPass(context: seq<byte>, spage: nat, pages: nat, option: Format, ghost imgs: seq<Image>)
      returns (end: PassEnd)
      requires Valid() && BootFree(spage)
      requires |imgs| == pages && HoldsImages(rs, Geo(), option, context, imgs)
      modifies this, oob_buf
      ensures Valid() && Geo() == old(Geo())
      ensures Ended(Attempt(Geo(), old(chip), imgs, spage), end, chip)
    {
      ghost var g := Geo();
      ghost var want := Attempt(g, chip, imgs, spage);
      var tmpbuf: nat, i: nat, cur: nat := 0, 0, spage;
      var saved := Layout(pagesize / ECC_BLOCK, oobsize, ecc_pos);
      assert imgs[0..] == imgs;
      while i < pages
        invariant i <= pages && cur >= spage && tmpbuf == At(i, 0, ChunkSize(g, option))
        invariant Valid() && Geo() == g && |chip.blocks| == |old(chip).blocks|
        invariant Attempt(g, chip, imgs[i..], cur) == want
        decreases pages - i, |chip.blocks| - Blk(cur, ppb)
      {
        assert HoldsImage(rs, g, option, context, i, imgs[i]);
        var ended;
        tmpbuf, i, cur, ended := Advance(context, tmpbuf, i, cur, option, saved, imgs);
        if ended.Some? {
          return ended.value;
        }
      }
      end := Completed(cur);
    }

    /** nand_erase_4740(1, block, 1). */
    method ForceErase(block: nat)
      requires Valid() && block < |chip.blocks|
      modifies this`chip, this`reg, oob_buf
      ensures Valid() && chip == EraseOne(Geo(), old(chip), block)
    {
      ForcedOnce(Geo(), chip, block);
      var _ := Erase(1, block, true);
    }

    /** What is done about a page that failed, before the restart. */
    method CleanUp(cur: nat)
      requires Valid() && Blk(cur, ppb) < |chip.blocks|
      modifies this`chip, this`reg, oob_buf
      ensures Valid() && chip == CleanedUp(Geo(), old(chip), Blk(cur, ppb))
    {
      Quotient(cur, ppb);
      ForceErase(cur / ppb);
      var _ := MarkBlockBad(cur / ppb);
    }

    /** One pass, and the clean-up if it fails: the answer, or that the request starts again. */
    method ProgramOnce(context: seq<byte>, spage: nat, next: nat, pages: nat, option: Format, ghost imgs: seq<Image>, ghost want: Option<(Chip, nat)>)
      returns (finished: bool, r: Option<nat>)
      requires Valid() && BootFree(spage) && next == spage + ppb
      requires |imgs| == pages && HoldsImages(rs, Geo(), option, context, imgs)
      requires NandSpec.Program(Geo(), chip, imgs, spage) == want
      modifies this, oob_buf
      ensures Valid() && Geo() == old(Geo())
      ensures finished ==> ProgramReturns(want, r, chip)
      ensures !finished ==> |chip.status| < |old(chip).status| && NandSpec.Program(Geo(), chip, imgs, next) == want
    {
      ProgramByPass(Geo(), chip, imgs, spage, next);
      var end := ProgramPass(context, spage, pages, option, imgs);
      finished, r := true, None;
      match end
      case LeftChip =>
      case Completed(cur) =>
        r := Some(cur);
      case PageFailed(cur) =>
        finished := false;
        CleanUp(cur);
    }

    /** nand_program_4740; None when it runs past the last block of the chip. */
    method Program(context: seq<byte>, startpage: nat, pages: nat, option: Format, ghost imgs: seq<Image>)
      returns (r: Option<nat>)
      requires Valid() && BootFree(startpage)
      requires |imgs| == pages && HoldsImages(rs, Geo(), option, context, imgs)
      modifies this, oob_buf
      ensures Valid() && Geo() == old(Geo())
      ensures ProgramReturns(NandSpec.Program(Geo(), old(chip), imgs, startpage), r, chip)
    {
      ghost var g, want := Geo(), NandSpec.Program(Geo(), chip, imgs, startpage);
      var spage: nat := startpage;
      var finished;
      while true
        invariant Valid() && Geo() == g && BootFree(spage)
        invariant NandSpec.Program(g, chip, imgs, spage) == want
        decreases |chip.status|
      {
        var next := spage + ppb;
        finished, r := ProgramOnce(context, spage, next, pages, option, imgs, want);
        if finished {
          return;
        }
        spage := next;
      }
    }

    // ----- nand_read

    method LoadSector(buf: array<byte>, t: nat, raw: seq<byte>)
      requires t + |raw| <= buf.Length
      modifies buf
      ensures buf[..] == Splice(old(buf[..]), t, raw)
    {
      ghost var before := buf[..];
      for k := 0 to |raw|
        invariant buf[..] == Splice(before, t, raw[..k])
      {
        buf[t + k] := raw[k];
      }
      assert raw[..|raw|] == raw;
    }

    /** Whether the stored parity differs from that of an erased page. */
    method ParityUsed(par: seq<byte>) returns (flag: bool)
      ensures flag <==> par != Ones(|par|)
    {
      flag := false;
      for k := 0 to |par|
        invariant flag <==> exists i :: 0 <= i < k && par[i] != 0xff
      {
        if par[k] != 0xff {
          flag := true;
        }
      }
      if flag {
        var i :| 0 <= i < |par| && par[i] != 0xff;
        assert Ones(|par|)[i] == 0xff;
      }
    }

    /** One sector into the buffer, decoded and corrected in place. */
    method ReadSector(buf: array<byte>, t: nat, raw: seq<byte>, par: seq<byte>) returns (v: Verdict)
      requires Sound(rs) && |raw| == ECC_BLOCK && t + ECC_BLOCK <= buf.Length
      modifies buf
      ensures buf[..] == Splice(old(buf[..]), t, Decoded(rs, raw, par))
      ensures v == VerdictOf(rs, raw, par)
    {
      ghost var before := buf[..];
      LoadSector(buf, t, raw);
      var flag := ParityUsed(par);
      assert ReportFits(rs, raw, par);
      v := Quiet;
      match rs.decode(raw, par)
      case NoError =>
      case Uncorrectable =>
        if flag {
          v := Lost;
        }
      case Errors(errcnt, regs) =>
        v := Fixed;
        CorrectLoaded(buf, t, raw, errcnt, regs, before);
    }

    method CorrectLoaded(buf: array<byte>, t: nat, ghost raw: seq<byte>, errcnt: nat, regs: seq<SymErr>, ghost before: seq<byte>)
      requires |raw| == ECC_BLOCK && t + ECC_BLOCK <= buf.Length == |before| && buf[..] == Splice(before, t, raw)
      requires WellFormedReport(Errors(errcnt, regs))
      modifies buf
      ensures buf[..] == Splice(before, t, if 1 <= errcnt <= 4 then Damage(raw, regs[..errcnt]) else raw)
    {
      ghost var loaded := buf[..];
      SpliceParts(before, t, raw);
      assert buf[t..t + ECC_BLOCK] == loaded[t..t + ECC_BLOCK];
      CorrectSector(buf, t, errcnt, regs);
      ghost var fixed := buf[t..t + ECC_BLOCK];
      SpliceFrom(loaded, t, buf[..], fixed);
      SpliceTwice(before, t, raw, fixed);
    }

    /** The nine parity bytes of sector `j`, out of `oob_buf`. */
    method ParityBytes(page: Page, j: nat) returns (paraddr: seq<byte>)
      requires Valid() && ValidPage(Geo(), page) && j < Geo().Sectors() && oob_buf[..oobsize] == page.oob
      ensures paraddr == StoredParity(Geo(), page)[PAR_SIZE * j..PAR_SIZE * (j + 1)]
    {
      var from := ecc_pos + PAR_SIZE * j;
      SubSlice(oob_buf[..], 0, oobsize, from, from + PAR_SIZE);
      SubSlice(page.oob, ecc_pos, ecc_pos + PAR_SIZE * Geo().Sectors(), PAR_SIZE * j, PAR_SIZE * (j + 1));
      paraddr := oob_buf[from..from + PAR_SIZE];
    }

    method ReadSectorOf(buf: array<byte>, t: nat, page: Page, j: nat) returns (v: Verdict)
      requires Valid() && ValidPage(Geo(), page) && j < Geo().Sectors() && t + pagesize <= buf.Length
      requires oob_buf[..oobsize] == page.oob && buf != oob_buf
      modifies buf
      ensures var raw, par := Sector(page.data, j), StoredParity(Geo(), page)[PAR_SIZE * j..PAR_SIZE * (j + 1)];
              buf[..] == Splice(old(buf[..]), t + ECC_BLOCK * j, Decoded(rs, raw, par)) && v == VerdictOf(rs, raw, par)
    {
      var raw := page.data[ECC_BLOCK * j..ECC_BLOCK * j + ECC_BLOCK];
      var paraddr := ParityBytes(page, j);
      v := ReadSector(buf, t + ECC_BLOCK * j, raw, paraddr);
    }

    /** The buffer and the error word after the first `j` sectors of a page. */
    ghost predicate SectorsRead(buf: array<byte>, before: seq<byte>, t: nat, raw: seq<byte>, par: seq<byte>, j: nat, flag: bool)
      requires Sound(rs) && ECC_BLOCK * j <= |raw| && PAR_SIZE * j <= |par| && t + ECC_BLOCK * j <= |before|
      reads buf, this`handshake3
    {
      && buf[..] == Splice(before, t, Decode(rs, raw, par, j))
      && handshake3 == SayAll(flag, SectorVerdicts(rs, raw, par, j))
    }

    method ReadNextSector(buf: array<byte>, ghost before: seq<byte>, t: nat, page: Page, j: nat, ghost j1: nat, ghost flag: bool)
      requires Valid() && ValidPage(Geo(), page) && j < Geo().Sectors() && t + pagesize <= buf.Length == |before| && j1 == j + 1
      requires oob_buf[..oobsize] == page.oob && buf != oob_buf
      requires SectorsRead(buf, before, t, page.data, StoredParity(Geo(), page), j, flag)
      modifies buf, this`handshake3
      ensures SectorsRead(buf, before, t, page.data, StoredParity(Geo(), page), j1, flag)
    {
      ghost var raw, all, now, word := page.data, StoredParity(Geo(), page), buf[..], handshake3;
      ghost var s, p := Sector(raw, j), all[PAR_SIZE * j..PAR_SIZE * (j + 1)];
      var v := ReadSectorOf(buf, t, page, j);
      handshake3 := Say(handshake3, v);
      SectorAdded(rs, before, now, buf[..], t, raw, all, j, j1, s, p, flag, word, v);
    }

    /** All sectors of a page, and the error word. */
    method ReadSectors(buf: array<byte>, t: nat, page: Page, ecccnt: nat)
      requires Valid() && ValidPage(Geo(), page) && ecccnt == Geo().Sectors() && t + pagesize <= buf.Length
      requires oob_buf[..oobsize] == page.oob && buf != oob_buf
      modifies buf, this`handshake3
      ensures buf[..] == Splice(old(buf[..]), t, Decode(rs, page.data, StoredParity(Geo(), page), ecccnt))
      ensures handshake3 == SayAll(old(handshake3), SectorVerdicts(rs, page.data, StoredParity(Geo(), page), ecccnt))
    {
      ghost var before, flag := buf[..], handshake3;
      for j := 0 to ecccnt
        invariant SectorsRead(buf, before, t, page.data, StoredParity(Geo(), page), j, flag)
      {
        ReadNextSector(buf, before, t, page, j, j + 1, flag);
      }
    }

    method CopyOob(buf: array<byte>, t: nat)
      requires t + oobsize <= buf.Length && oobsize <= oob_buf.Length && buf != oob_buf
      modifies buf
      ensures buf[..] == Splice(old(buf[..]), t, oob_buf[..oobsize])
    {
      ghost var before := buf[..];
      for j := 0 to oobsize
        invariant buf[..] == Splice(before, t, oob_buf[..j])
      {
        buf[t + j] := oob_buf[j];
      }
    }

    /** The spare bytes, as the format asks for them. */
    method ReadSpare(buf: array<byte>, t: nat, page: Page, option: Format)
      requires Valid() && ValidPage(Geo(), page) && oob_buf[..oobsize] == page.oob
      requires buf != oob_buf && t + ChunkSize(Geo(), option) - pagesize <= buf.Length
      modifies buf, oob_buf
      ensures buf[..] == Splice(old(buf[..]), t, SpareBytes(Geo(), option, page))
    {
      match option
      case OobEcc =>
        CopyOob(buf, t);
      case OobNoEcc =>
        PatchOob(Ones(PAR_SIZE * (pagesize / ECC_BLOCK)));
        CopyOob(buf, t);
      case NoOob =>
        assert Splice(buf[..], t, []) == buf[..];
    }

    /** One page, data and spare bytes. */
    method ReadPage(buf: array<byte>, t: nat, page: Page, option: Format)
      requires Valid() && ValidPage(Geo(), page) && oob_buf[..oobsize] == page.oob
      requires buf != oob_buf && t + ChunkSize(Geo(), option) <= buf.Length
      modifies buf, oob_buf, this`handshake3
      ensures buf[..] == Splice(old(buf[..]), t, PageBytes(rs, Geo(), option, page))
      ensures handshake3 == SayAll(old(handshake3), SectorVerdicts(rs, page.data, StoredParity(Geo(), page), Geo().Sectors()))
    {
      ghost var before, data, spare := buf[..], Decode(rs, page.data, StoredParity(Geo(), page), Geo().Sectors()), SpareBytes(Geo(), option, page);
      ReadSectors(buf, t, page, pagesize / ECC_BLOCK);
      var next := t + pagesize;
      SpliceOnAt(before, t, next, data, spare);
      ReadSpare(buf, next, page, option);
    }

    /** The page numbered `cur`, as the reader `rd` sees it. */
    method ReadPageAt(buf: array<byte>, t: nat, cur: nat, option: Format, ghost rd: Reader)
      requires Valid() && Blk(cur, ppb) < |chip.blocks| && buf != oob_buf && t + ChunkSize(Geo(), option) <= buf.Length
      requires rd == ReaderOf(rs, Geo(), option)
      modifies buf, oob_buf, this`handshake3
      ensures |rd(PageAt(Geo(), chip.blocks, cur))| == ChunkSize(Geo(), option)
      ensures buf[..] == Splice(old(buf[..]), t, rd(PageAt(Geo(), chip.blocks, cur)))
      ensures handshake3 == SayAll(old(handshake3), PageVerdicts(rs, Geo(), PageAt(Geo(), chip.blocks, cur)))
    {
      var page := PageAt(Geo(), chip.blocks, cur);
      assert ValidPage(Geo(), page);
      ReadOob(cur);
      ReadPage(buf, t, page, option);
    }

    /** The round that reads a page. */
    method ReadGood(buf: array<byte>, option: Format, t: nat, p: nat, n: nat, ghost rd: Reader, ghost s: ReadState)
      returns (tmpbuf: nat, cur_page: nat, left: nat)
      requires Valid() && buf != oob_buf && n > 0 && t + ChunkSize(Geo(), option) <= buf.Length
      requires Blk(p, ppb) < |chip.blocks| && !AtBadBlock(Geo(), chip.blocks, p) && s == ReadState(t, buf[..], handshake3, p, n)
      requires rd == ReaderOf(rs, Geo(), option)
      modifies buf, oob_buf, this`handshake3
      ensures Round(rs, rd, Geo(), chip.blocks, s) == Some(ReadState(tmpbuf, buf[..], handshake3, cur_page, left))
      ensures left == n - 1 && tmpbuf == t + ChunkSize(Geo(), option)
    {
      ReadPageAt(buf, t, p, option, rd);
      tmpbuf, cur_page, left := t + ChunkSize(Geo(), option), p + 1, n - 1;
      RoundReads(rs, rd, Geo(), chip.blocks, s, tmpbuf, cur_page, left);
    }

    /** One round of the page loop of nand_read: where it goes next, or that it leaves the
        chip. */
    method ReadAdvance(buf: array<byte>, option: Format, t: nat, p: nat, n: nat, ghost rd: Reader, ghost s: ReadState)
      returns (tmpbuf: nat, cur_page: nat, left: nat, off: bool)
      requires Valid() && buf != oob_buf && n > 0 && t + ChunkSize(Geo(), option) <= buf.Length
      requires rd == ReaderOf(rs, Geo(), option) && s == ReadState(t, buf[..], handshake3, p, n)
      modifies buf, oob_buf, this`handshake3
      ensures Round(rs, rd, Geo(), chip.blocks, s) == if off then None else Some(ReadState(tmpbuf, buf[..], handshake3, cur_page, left))
      ensures !off ==> (left == n && tmpbuf == t) || (left == n - 1 && tmpbuf == t + ChunkSize(Geo(), option))
    {
      tmpbuf, cur_page, left, off := t, p, n, false;
      Quotient(p, ppb);
      if cur_page / ppb >= |chip.blocks| {
        off := true;
        return;
      }
      var bad := StartsBadBlock(cur_page);
      if bad {
        cur_page := cur_page + ppb;
      } else {
        tmpbuf, cur_page, left := ReadGood(buf, option, t, p, n, rd, s);
      }
    }

    /** The same round, as a step towards `want`. */
    method ReadStep(buf: array<byte>, option: Format, t: nat, p: nat, n: nat, ghost rd: Reader, ghost s: ReadState, ghost want: Option<ReadState>)
      returns (tmpbuf: nat, cur_page: nat, left: nat, off: bool, ghost s1: ReadState)
      requires Valid() && buf != oob_buf && n > 0 && t + ChunkSize(Geo(), option) <= buf.Length
      requires rd == ReaderOf(rs, Geo(), option) && s == ReadState(t, buf[..], handshake3, p, n)
      requires Finish(rs, rd, Geo(), chip.blocks, s) == want
      modifies buf, oob_buf, this`handshake3
      ensures off ==> want == None
      ensures !off ==> s1 == ReadState(tmpbuf, buf[..], handshake3, cur_page, left) && Finish(rs, rd, Geo(), chip.blocks, s1) == want
      ensures !off ==> || (left == n && tmpbuf == t && Blk(p, ppb) < |chip.blocks| && Blk(p, ppb) < Blk(cur_page, ppb))
                       || (left == n - 1 && tmpbuf == t + ChunkSize(Geo(), option))
    {
      tmpbuf, cur_page, left, off := ReadAdvance(buf, option, t, p, n, rd, s);
      s1 := s;
      if !off {
        s1 := ReadState(tmpbuf, buf[..], handshake3, cur_page, left);
        FinishByRound(rs, rd, Geo(), chip.blocks, s, s1);
      }
    }

    /** nand_read_4740; None when it runs past the last block of the chip. */
    method Read(buf: array<byte>, startpage: nat, pagecount: nat, option: Format, ghost rd: Reader) returns (r: Option<nat>)
      requires Valid() && buf != oob_buf && At(pagecount, 0, ChunkSize(Geo(), option)) <= buf.Length
      requires rd == ReaderOf(rs, Geo(), option)
      modifies buf, oob_buf, this`handshake3
      ensures Reads(rs, Geo(), option, chip.blocks, startpage, pagecount, old(buf[..]), r, buf[..], handshake3)
    {
      ghost var g, bl := Geo(), chip.blocks;
      ghost var want := Finish(rs, rd, g, bl, ReadState(0, buf[..], false, startpage, pagecount));
      FinishReads(rs, g, option, bl, buf[..], startpage, pagecount);
      var size := ChunkSize(Geo(), option);
      var tmpbuf: nat, left: nat, cur_page: nat := 0, pagecount, startpage;
      handshake3 := false;
      ghost var s := ReadState(tmpbuf, buf[..], handshake3, cur_page, left);
      ghost var done: nat := 0;
      while left > 0
        invariant left + done == pagecount && tmpbuf == At(done, 0, size)
        invariant s == ReadState(tmpbuf, buf[..], handshake3, cur_page, left)
        invariant Finish(rs, rd, g, bl, s) == want
        decreases left, |bl| - Blk(cur_page, ppb)
      {
        ghost var n, more := left, done + 1;
        RoomForPage(done, more, pagecount, size, buf.Length);
        var off;
        tmpbuf, cur_page, left, off, s := ReadStep(buf, option, tmpbuf, cur_page, left, rd, s, want);
        if off {
          return None;
        }
        done := if left < n then more else done;
      }
      r := Some(cur_page);
    }
  }

  method Blank(buf: seq<byte>) returns (blank: bool)
    ensures blank <==> buf == Ones(|buf|)
  {
    var j := 0;
    while j < |buf| && buf[j] == 0xff
      invariant j <= |buf| && forall i | 0 <= i < j :: buf[i] == 0xff
    {
      j := j + 1;
    }
    blank := j == |buf|;
    assert !blank ==> buf[j] != Ones(|buf|)[j];
  }
}