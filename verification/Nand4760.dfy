/** The JZ4760's erase, whose loop is extended by bad blocks and by failures alike. The block
    check, the marking and the erase command are the JZ4740's, word for word. */
module Nand4760 {
  import opened Options
  import opened Flash
  import opened PageNumbers
  import opened NandSpec
  import opened Erasing
  import opened Nand4740

  /** A round of the loop has led from block `b` with `todo` rounds left to block `b1`. */
  ghost predicate Goes(g: Geometry, c: Chip, b: nat, todo: nat, force: bool, c1: Chip, b1: nat, todo1: nat)
    requires g.Valid()
  {
    EraseFrom60(g, c, b, todo, force) == EraseFrom60(g, c1, b1, todo1, force)
  }

  lemma {:induction false} GoesPast(g: Geometry, c: Chip, b: nat, b1: nat, todo: nat, todo1: nat)
    requires g.Valid() && todo > 0 && b < |c.blocks| && b1 == b + 1 && IsBad(g, c.blocks[b]) && todo1 == todo - 1 + g.plane
    ensures Goes(g, c, b, todo, false, c, b1, todo1)
  {
  }

  lemma {:induction false} GoesOn(g: Geometry, c: Chip, b: nat, b1: nat, todo: nat, todo1: nat, force: bool, c1: Chip)
    requires g.Valid() && todo > 0 && b < |c.blocks| && b1 == b + 1 && (force || !IsBad(g, c.blocks[b])) && c1 == EraseOne(g, c, b)
    requires todo1 == if NextStatus(c).Fail? then todo - 1 + g.plane else todo - 1
    ensures Goes(g, c, b, todo, force, c1, b1, todo1)
  {
  }

  class Driver60 {
    const io: Driver

    constructor (io: Driver)
      ensures this.io == io
    {
      this.io := io;
    }

    /** The block is erased; a failure marks it and extends the loop. */
    method EraseOrMark(cur: nat, b: nat, ghost b1: nat, ghost force: bool, ghost todo: nat) returns (more: nat)
      requires io.Valid() && b < |io.chip.blocks| && cur == At(b, 0, io.ppb) && todo > 0 && b1 == b + 1
      requires force || !IsBad(io.Geo(), io.chip.blocks[b])
      modifies io`chip, io`reg
      ensures io.Valid() && |io.chip.blocks| == |old(io.chip).blocks|
      ensures Goes(io.Geo(), old(io.chip), b, todo, force, io.chip, b1, todo - 1 + more)
    {
      ghost var c := io.chip;
      Split(b, 0, io.ppb);
      var failed := io.EraseConfirm(cur);
      more := 0;
      if failed {
        var _ := io.MarkBlockBad(b);
        more := io.plane;
      }
      GoesOn(io.Geo(), c, b, b1, todo, todo - 1 + more, force, io.chip);
    }

    /** One round of the loop: by how much it is extended. */
    method EraseTurn(cur: nat, b: nat, force: bool, ghost b1: nat, ghost todo: nat) returns (more: nat)
      requires io.Valid() && b < |io.chip.blocks| && cur == At(b, 0, io.ppb) && todo > 0 && b1 == b + 1
      modifies io`chip, io`reg, io.oob_buf
      ensures io.Valid() && |io.chip.blocks| == |old(io.chip).blocks|
      ensures Goes(io.Geo(), old(io.chip), b, todo, force, io.chip, b1, todo - 1 + more)
    {
      var bad := io.PassesOver(b, force);
      if bad {
        more := io.plane;
        GoesPast(io.Geo(), io.chip, b, b1, todo, todo - 1 + more);
      } else {
        more := EraseOrMark(cur, b, b1, force, todo);
      }
    }

    /** nand_erase_4760; None when it runs past the last block of the chip. */
    method Erase(blocks: nat, sblk: nat, force: bool) returns (r: Option<nat>)
      requires io.Valid()
      modifies io`chip, io`reg, io.oob_buf
      ensures io.Valid()
      ensures EraseReturns(io.Geo(), EraseFrom60(io.Geo(), old(io.chip), sblk, blocks, force), r, io.chip)
    {
      ghost var g, n, b, todo, want := io.Geo(), |io.chip.blocks|, sblk, blocks, EraseFrom60(io.Geo(), io.chip, sblk, blocks, force);
      var blk_num: nat, i: nat := blocks, 0;
      var cur := sblk * io.ppb;
      AtIsLinear(sblk, 0, io.ppb);
      while i < blk_num
        invariant io.Valid() && io.Geo() == g && |io.chip.blocks| == n && cur == At(b, 0, io.ppb)
        invariant i + todo == blk_num && EraseFrom60(g, io.chip, b, todo, force) == want
        decreases n - b
      {
        EraseBound(b, b, cur, io.ppb);
        AtStep(b, 0, io.ppb);
        if cur / io.ppb >= |io.chip.blocks| {
          return None;
        }
        ghost var b1 := b + 1;
        var more := EraseTurn(cur, cur / io.ppb, force, b1, todo);
        blk_num, cur, i := blk_num + more, cur + io.ppb, i + 1;
        b, todo := b1, todo - 1 + more;
      }
      r := Some(cur);
    }
  }

  // ----- the forced erase of one block that cleans up after a failed program

  /** It touches only its block when the erase succeeds. */
  lemma {:induction false} ForcedEraseStays(g: Geometry, c: Chip, b: nat)
    requires g.Valid() && b < |c.blocks| && !NextStatus(c).Fail?
    ensures EraseFrom60(g, c, b, 1, true) == Some((EraseOne(g, c, b), b + 1))
  {
    GoesOn(g, c, b, b + 1, 1, 0, true, EraseOne(g, c, b));
  }

  lemma {:induction false} EraseKeepsBefore(g: Geometry, c: Chip, b: nat, todo: nat, force: bool, i: nat)
    requires g.Valid() && i < b && i < |c.blocks|
    ensures var r := EraseFrom60(g, c, b, todo, force);
            r.Some? ==> r.value.0.blocks[i] == c.blocks[i]
    decreases |c.blocks| - b
  {
    if todo > 0 && b < |c.blocks| {
      if !force && IsBad(g, c.blocks[b]) {
        EraseKeepsBefore(g, c, b + 1, todo - 1 + g.plane, force, i);
      } else {
        EraseKeepsBefore(g, EraseOne(g, c, b), b + 1, if NextStatus(c).Fail? then todo - 1 + g.plane else todo - 1, force, i);
      }
    }
  }

  /** A block at which the forced erase arrives comes out erased, and good, whatever it was, if
      its own erase succeeds. */
  lemma {:induction false} ForcedEraseRevives(g: Geometry, c: Chip, b: nat, b1: nat, todo: nat, rest: nat)
    requires g.Valid() && todo == rest + 1 && b1 == b + 1 && b < |c.blocks| && NextStatus(c).Pass?
    ensures var r := EraseFrom60(g, c, b, todo, true);
            && (rest == 0 ==> r.Some?)
            && (r.Some? ==> r.value.0.blocks[b] == ErasedBlock(g) && !IsBad(g, r.value.0.blocks[b]))
  {
    ErasedBlockIsGood(g);
    var c1 := EraseOne(g, c, b);
    GoesOn(g, c, b, b1, todo, rest, true, c1);
    EraseKeepsBefore(g, c1, b1, rest, true, b);
  }

  /** When the erase fails, the loop goes on to the next block and erases that, whether it is
      in use, already programmed by this very request, or marked bad. */
  lemma {:induction false} ForcedEraseSpills(g: Geometry, c: Chip, b: nat, b1: nat)
    requires g.Valid() && g.plane > 0 && b1 == b + 1 < |c.blocks| && NextStatus(c).Fail?
    ensures EraseFrom60(g, c, b, 1, true) == EraseFrom60(g, EraseOne(g, c, b), b1, g.plane, true)
    ensures NextStatus(EraseOne(g, c, b)).Pass? ==>
              var r := EraseFrom60(g, c, b, 1, true);
              && (g.plane == 1 ==> r.Some?)
              && (r.Some? ==> r.value.0.blocks[b1] == ErasedBlock(g) && !IsBad(g, r.value.0.blocks[b1]))
  {
    var c1 := EraseOne(g, c, b);
    GoesOn(g, c, b, b1, 1, g.plane, true, c1);
    if NextStatus(c1).Pass? {
      ForcedEraseRevives(g, c1, b1, b1 + 1, g.plane, g.plane - 1);
    }
  }

  // ----- the restart

  /** The chip after a failed program has been cleaned up; None when the erase runs off it. */
  function CleanedUp60(g: Geometry, c: Chip, b: nat): (r: Option<Chip>)
    requires g.Valid() && b < |c.blocks|
    ensures r.Some? ==> |r.value.blocks| == |c.blocks| && |r.value.status| <= |c.status|
  {
    EraseUses(g, c, b, 1, true);
    match EraseFrom60(g, c, b, 1, true)
    case None => None
    case Some((c1, _)) => Some(MarkBad(g, c1, b))
  }

  lemma {:induction false} EraseUses(g: Geometry, c: Chip, b: nat, todo: nat, force: bool)
    requires g.Valid()
    ensures var r := EraseFrom60(g, c, b, todo, force); r.Some? ==> |r.value.0.status| <= |c.status|
    decreases |c.blocks| - b
  {
    if todo > 0 && b < |c.blocks| {
      if !force && IsBad(g, c.blocks[b]) {
        EraseUses(g, c, b + 1, todo - 1 + g.plane, force);
      } else {
        EraseUses(g, EraseOne(g, c, b), b + 1, if NextStatus(c).Fail? then todo - 1 + g.plane else todo - 1, force);
      }
    }
  }

  /** nand_program_4760 from any page but the first, where it writes the boot loader in its own
      format: the restart of the JZ4740 with this clean-up. */
  function Program60(g: Geometry, c: Chip, imgs: seq<Image>, spage: nat): Option<(Chip, nat)>
    requires g.Valid() && spage > 0
    decreases |c.status|
  {
    match Attempt(g, c, imgs, spage)
    case OffChip => None
    case Done(c1, end) => Some((c1, end))
    case Failed(c1, page) =>
      match CleanedUp60(g, c1, Blk(page, g.ppb))
      case None => None
      case Some(c2) => Program60(g, c2, imgs, spage + g.ppb)
  }

  /** Whatever programs fail, the erases that clean up after them succeed. */
  ghost predicate CleanUpsPass(g: Geometry, c: Chip, imgs: seq<Image>, spage: nat)
    requires g.Valid()
    decreases |c.status|
  {
    match Attempt(g, c, imgs, spage)
    case Failed(c1, page) => !NextStatus(c1).Fail? && CleanUpsPass(g, CleanedUp(g, c1, Blk(page, g.ppb)), imgs, spage + g.ppb)
    case _ => true
  }

  lemma {:induction false} CleansAlike(g: Geometry, c: Chip, b: nat)
    requires g.Valid() && b < |c.blocks| && !NextStatus(c).Fail?
    ensures CleanedUp60(g, c, b) == Some(CleanedUp(g, c, b))
  {
    ForcedEraseStays(g, c, b);
  }

  lemma {:induction false} NextCleanUpsPass(g: Geometry, c: Chip, imgs: seq<Image>, p: nat, p1: nat, c1: Chip, b: nat, c2: Chip)
    requires g.Valid() && p1 == p + g.ppb && Attempt(g, c, imgs, p).Failed? && CleanUpsPass(g, c, imgs, p)
    requires c1 == Attempt(g, c, imgs, p).c && b == Blk(Attempt(g, c, imgs, p).page, g.ppb) && c2 == CleanedUp(g, c1, b)
    ensures CleanUpsPass(g, c2, imgs, p1) && |c2.status| < |c.status| && !NextStatus(c1).Fail?
  {
  }

  /** One pass, and what it leads to; `p1` is where a restart would begin. */
  lemma {:induction false} RestartOnce(g: Geometry, c: Chip, imgs: seq<Image>, p: nat, p1: nat, c1: Chip, b: nat, c2: Chip)
    requires g.Valid() && p > 0 && p1 == p + g.ppb && Attempt(g, c, imgs, p).Failed? && !NextStatus(c1).Fail?
    requires c1 == Attempt(g, c, imgs, p).c && b == Blk(Attempt(g, c, imgs, p).page, g.ppb) && c2 == CleanedUp(g, c1, b)
    ensures Program60(g, c, imgs, p) == Program60(g, c2, imgs, p1)
  {
    CleansAlike(g, c1, b);
  }

  lemma {:induction false} NoRestart(g: Geometry, c: Chip, imgs: seq<Image>, p: nat)
    requires g.Valid() && p > 0 && !Attempt(g, c, imgs, p).Failed?
    ensures Program60(g, c, imgs, p) == NandSpec.Program(g, c, imgs, p)
  {
  }

  /** While the erases that clean up succeed, the two drivers restart alike. */
  lemma {:induction false} RestartsAlike(g: Geometry, c: Chip, imgs: seq<Image>, spage: nat, next: nat)
    requires g.Valid() && spage > 0 && next == spage + g.ppb && CleanUpsPass(g, c, imgs, spage)
    ensures Program60(g, c, imgs, spage) == NandSpec.Program(g, c, imgs, spage)
    decreases |c.status|
  {
    var pass := Attempt(g, c, imgs, spage);
    if pass.Failed? {
      var b := Blk(pass.page, g.ppb);
      var c2 := CleanedUp(g, pass.c, b);
      NextCleanUpsPass(g, c, imgs, spage, next, pass.c, b, c2);
      RestartOnce(g, c, imgs, spage, next, pass.c, b, c2);
      ProgramByPass(g, c, imgs, spage, next);
      RestartsAlike(g, c2, imgs, next, next + g.ppb);
    } else {
      NoRestart(g, c, imgs, spage);
    }
  }
}
