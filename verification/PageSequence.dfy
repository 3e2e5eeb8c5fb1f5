/** Reading and programming walk the same pages: a program request that meets no failure
    writes its images, in order, to exactly the pages that a read of as many pages from the
    same start would visit, and ends where that read ends. */
module PageSequence {
  import opened Options
  import opened Flash
  import opened PageNumbers
  import opened NandSpec

  /** One image on page `p`; nothing to do for a chunk of 0xff. */
  function WriteAt(g: Geometry, bl: seq<Block>, p: nat, img: Image): (r: seq<Block>)
    requires g.ppb > 0 && Blk(p, g.ppb) < |bl|
    ensures |r| == |bl|
  {
    var b, k := Blk(p, g.ppb), Idx(p, g.ppb);
    if img.None? || k >= |bl[b]| then bl else bl[b := bl[b][k := AndPage(bl[b][k], img.value)]]
  }

  /** The `i`-th image on the `i`-th page. */
  function WriteAll(g: Geometry, bl: seq<Block>, ps: seq<nat>, imgs: seq<Image>): (r: seq<Block>)
    requires g.ppb > 0 && |imgs| == |ps| && forall i | 0 <= i < |ps| :: Blk(ps[i], g.ppb) < |bl|
    ensures |r| == |bl|
    decreases |ps|
  {
    if ps == [] then bl else WriteAll(g, WriteAt(g, bl, ps[0], imgs[0]), ps[1..], imgs[1..])
  }

  /** Every image leaves the mark bytes at 0xff. */
  ghost predicate AllKeepMark(g: Geometry, imgs: seq<Image>) {
    forall i | 0 <= i < |imgs| && imgs[i].Some? :: KeepsMark(g, imgs[i].value)
  }

  lemma WriteAtKeepsBads(g: Geometry, bl: seq<Block>, p: nat, img: Image)
    requires g.Valid() && ValidBlocks(g, bl) && Blk(p, g.ppb) < |bl|
    requires img.Some? ==> ValidPage(g, img.value) && KeepsMark(g, img.value)
    ensures ValidBlocks(g, WriteAt(g, bl, p, img)) && Bads(g, WriteAt(g, bl, p, img)) == Bads(g, bl)
  {
    if img.Some? {
      ProgramKeepsVerdict(g, bl[Blk(p, g.ppb)], Idx(p, g.ppb), img.value);
    }
  }

  /** The pass over the pages follows the walk. */
  ghost predicate FollowsWalk(g: Geometry, bl: seq<Block>, imgs: seq<Image>, walk: Option<(seq<nat>, nat)>, r: Outcome)
    requires g.ppb > 0
  {
    match walk
    case None => r.OffChip?
    case Some((ps, end)) =>
      && r.Done? && r.end == end
      && |ps| == |imgs| && (forall i | 0 <= i < |ps| :: Blk(ps[i], g.ppb) < |bl|)
      && r.c.blocks == WriteAll(g, bl, ps, imgs)
  }

  lemma {:induction false} FollowsFirst(g: Geometry, bl: seq<Block>, imgs: seq<Image>, p: nat, p1: nat, rest: Option<(seq<nat>, nat)>, r: Outcome)
    requires g.ppb > 0 && imgs != [] && Blk(p, g.ppb) < |bl|
    requires FollowsWalk(g, WriteAt(g, bl, p, imgs[0]), imgs[1..], rest, r)
    ensures FollowsWalk(g, bl, imgs, Then(Some(([p], p1)), rest), r)
  {
    if rest.Some? {
      assert ([p] + rest.value.0)[1..] == rest.value.0;
    }
  }

  /** The first step of a pass on a page that is not passed over. */
  lemma {:induction false} AttemptPage(g: Geometry, c: Chip, imgs: seq<Image>, p: nat, p1: nat) returns (c1: Chip)
    requires p1 == p + 1 && g.Valid() && imgs != [] && ValidChip(g, c) && Fails(c.status) == 0
    requires Blk(p, g.ppb) < |c.blocks| && !(Idx(p, g.ppb) == 0 && IsBad(g, c.blocks[Blk(p, g.ppb)]))
    requires imgs[0].Some? ==> ValidPage(g, imgs[0].value)
    ensures Attempt(g, c, imgs, p) == Attempt(g, c1, imgs[1..], p1)
    ensures c1.blocks == WriteAt(g, c.blocks, p, imgs[0]) && Fails(c1.status) == 0 && ValidChip(g, c1)
  {
    if imgs[0].Some? {
      c1 := ProgramPage(c, Blk(p, g.ppb), Idx(p, g.ppb), imgs[0].value);
      ProgramPageValid(g, c, Blk(p, g.ppb), Idx(p, g.ppb), imgs[0].value);
    } else {
      c1 := c;
    }
  }

  lemma {:induction false} AttemptPast(g: Geometry, c: Chip, imgs: seq<Image>, p: nat, p1: nat)
    requires g.Valid() && imgs != [] && Blk(p, g.ppb) < |c.blocks| && p1 == p + g.ppb
    requires Idx(p, g.ppb) == 0 && IsBad(g, c.blocks[Blk(p, g.ppb)])
    ensures Attempt(g, c, imgs, p) == Attempt(g, c, imgs, p1)
  {
  }

  lemma {:induction false} AttemptFollowsWalk(g: Geometry, c: Chip, imgs: seq<Image>, p: nat, n: nat)
    requires g.Valid() && ValidChip(g, c) && ValidImages(g, imgs) && AllKeepMark(g, imgs) && Fails(c.status) == 0 && n == |imgs|
    ensures FollowsWalk(g, c.blocks, imgs, Walk(Bads(g, c.blocks), g.ppb, p, n), Attempt(g, c, imgs, p))
    decreases |imgs|, |c.blocks| - Blk(p, g.ppb), 1
  {
    if imgs == [] || Blk(p, g.ppb) >= |c.blocks| {
    } else if Idx(p, g.ppb) == 0 && IsBad(g, c.blocks[Blk(p, g.ppb)]) {
      var p1 := p + g.ppb;
      WalkPast(Bads(g, c.blocks), g.ppb, p, p1, n);
      AttemptPast(g, c, imgs, p, p1);
      AttemptFollowsWalk(g, c, imgs, p1, n);
    } else {
      AttemptFollowsPage(g, c, imgs, p, n);
    }
  }

  lemma {:induction false} AttemptFollowsPage(g: Geometry, c: Chip, imgs: seq<Image>, p: nat, n: nat)
    requires g.Valid() && ValidChip(g, c) && ValidImages(g, imgs) && AllKeepMark(g, imgs) && Fails(c.status) == 0 && n == |imgs| > 0
    requires Blk(p, g.ppb) < |c.blocks| && !(Idx(p, g.ppb) == 0 && IsBad(g, c.blocks[Blk(p, g.ppb)]))
    ensures FollowsWalk(g, c.blocks, imgs, Walk(Bads(g, c.blocks), g.ppb, p, n), Attempt(g, c, imgs, p))
    decreases |imgs|, |c.blocks| - Blk(p, g.ppb), 0
  {
    var p1, n1 := p + 1, n - 1;
    var c1 := AttemptPage(g, c, imgs, p, p1);
    WriteAtKeepsBads(g, c.blocks, p, imgs[0]);
    WalkPage(Bads(g, c.blocks), g.ppb, p, p1, n, n1);
    AttemptFollowsWalk(g, c1, imgs[1..], p1, n1);
    FollowsFirst(g, c.blocks, imgs, p, p1, Walk(Bads(g, c.blocks), g.ppb, p1, n1), Attempt(g, c1, imgs[1..], p1));
  }

  /** The whole request: no restart happens, so nand_program ends like nand_read. */
  lemma ProgramFollowsRead(rd: Reader, g: Geometry, c: Chip, imgs: seq<Image>, p: nat)
    requires g.Valid() && ValidChip(g, c) && ValidImages(g, imgs) && AllKeepMark(g, imgs) && Fails(c.status) == 0
    ensures match ReadFrom(rd, g, c.blocks, p, |imgs|)
            case None => Program(g, c, imgs, p) == None
            case Some((_, end)) => Program(g, c, imgs, p).Some? && Program(g, c, imgs, p).value.1 == end
  {
    AttemptFollowsWalk(g, c, imgs, p, |imgs|);
  }
}
