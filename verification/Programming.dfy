/** What nand_program guarantees: the payload of one request ends up whole in one good
    block, whatever pages fail on the way. */
module Programming {
  import opened Options
  import opened Flash
  import opened PageNumbers
  import opened NandSpec

  /** The first `n` good blocks at or after block `b` lie below block `hi` and are erased. */
  ghost predicate ErasedGood(g: Geometry, bl: seq<Block>, b: nat, n: nat, hi: nat)
    requires hi <= |bl|
    decreases hi - b
  {
    || n == 0
    || (b < hi && if IsBad(g, bl[b]) then ErasedGood(g, bl, b + 1, n, hi)
                  else bl[b] == ErasedBlock(g) && ErasedGood(g, bl, b + 1, n - 1, hi))
  }

  function FirstGood(g: Geometry, bl: seq<Block>, b: nat): (r: nat)
    ensures b <= r
    decreases |bl| - b
  {
    if b < |bl| && IsBad(g, bl[b]) then FirstGood(g, bl, b + 1) else b
  }

  lemma {:induction false} FirstGoodIsErased(g: Geometry, bl: seq<Block>, b: nat, n: nat, hi: nat)
    requires hi <= |bl| && n > 0 && ErasedGood(g, bl, b, n, hi)
    ensures var f := FirstGood(g, bl, b);
            && f < hi && !IsBad(g, bl[f]) && bl[f] == ErasedBlock(g)
            && AllBad(Bads(g, bl), b, f) && ErasedGood(g, bl, f + 1, n - 1, hi)
    decreases hi - b
  {
    if IsBad(g, bl[b]) {
      FirstGoodIsErased(g, bl, b + 1, n, hi);
    }
  }

  lemma {:induction false} ErasedGoodFrame(g: Geometry, bl: seq<Block>, bl': seq<Block>, b: nat, n: nat, hi: nat)
    requires hi <= |bl| && |bl'| == |bl| && forall i | b <= i < |bl| :: bl'[i] == bl[i]
    requires ErasedGood(g, bl, b, n, hi)
    ensures ErasedGood(g, bl', b, n, hi)
    decreases hi - b
  {
    if n > 0 {
      ErasedGoodFrame(g, bl, bl', b + 1, if IsBad(g, bl[b]) then n else n - 1, hi);
    }
  }

  lemma {:induction false} ErasedGoodAfterBad(g: Geometry, bl: seq<Block>, a: nat, b: nat, n: nat, hi: nat)
    requires a <= b <= hi <= |bl|
    requires AllBad(Bads(g, bl), a, b) && ErasedGood(g, bl, b, n, hi)
    ensures ErasedGood(g, bl, a, n, hi)
    decreases b - a
  {
    if a < b {
      assert Bads(g, bl)[a];
      ErasedGoodAfterBad(g, bl, a + 1, b, n, hi);
    }
  }

  // ----- the stored payload

  /** Images on the mark pages leave the mark bytes at 0xff. */
  ghost predicate ImagesKeepMark(g: Geometry, imgs: seq<Image>) {
    forall i | 0 <= i < |imgs| && imgs[i].Some? && g.MarkPage(i) :: KeepsMark(g, imgs[i].value)
  }

  function PayloadBlock(g: Geometry, imgs: seq<Image>): (r: Block)
    requires |imgs| <= g.ppb
    ensures |r| == g.ppb
  {
    WriteBlock(ErasedBlock(g), 0, imgs)
  }

  lemma PayloadPage(g: Geometry, imgs: seq<Image>, i: nat)
    requires ValidImages(g, imgs) && |imgs| <= g.ppb && i < g.ppb
    ensures PayloadBlock(g, imgs)[i] == if i < |imgs| && imgs[i].Some? then imgs[i].value else ErasedPage(g)
  {
    WriteBlockPages(ErasedBlock(g), 0, imgs, i);
    if i < |imgs| && imgs[i].Some? {
      AndOnes(imgs[i].value.data);
      AndOnes(imgs[i].value.oob);
    }
  }

  lemma PayloadIsGood(g: Geometry, imgs: seq<Image>)
    requires g.Valid() && ValidImages(g, imgs) && |imgs| <= g.ppb && ImagesKeepMark(g, imgs)
    ensures !IsBad(g, PayloadBlock(g, imgs))
  {
    MarkedFrom(g, PayloadBlock(g, imgs), 0);
    forall k | 0 <= k < g.ppb && g.MarkPage(k) ensures !PageMarked(g, PayloadBlock(g, imgs)[k]) {
      PayloadPage(g, imgs, k);
      if k < |imgs| && imgs[k].Some? {
        assert KeepsMark(g, imgs[k].value);
      }
    }
  }

  // ----- restarts

  /** Every block has the chip's number of pages. */
  ghost predicate Shaped(g: Geometry, c: Chip) {
    forall i | 0 <= i < |c.blocks| :: |c.blocks[i]| == g.ppb
  }

  lemma RestFails(c: Chip)
    ensures Fails(RestStatus(c)) + (if NextStatus(c).Fail? then 1 else 0) == Fails(c.status)
  {
  }

  /** The block is bad, and nothing else has changed. */
  lemma CleanUp(g: Geometry, c: Chip, b: nat)
    requires g.Valid() && b < |c.blocks|
    ensures var c' := CleanedUp(g, c, b);
            && IsBad(g, c'.blocks[b]) && |c'.blocks[b]| == g.ppb
            && (forall i | 0 <= i < |c.blocks| && i != b :: c'.blocks[i] == c.blocks[i])
            && Fails(c'.status) <= Fails(c.status)
  {
    RestFails(c);
    MarkBadVerdicts(g, EraseOne(g, c, b), b);
  }

  /** Where a request of at most one block lands: in block `f`, the first one at or after
      block `s` that is still good. */
  ghost predicate Landed(g: Geometry, c: Chip, imgs: seq<Image>, s: nat, n: nat, c': Chip, end: nat, f: nat, hi: nat)
    requires |imgs| <= g.ppb && hi <= |c.blocks|
  {
    && |c'.blocks| == |c.blocks| && Shaped(g, c')
    && s <= f < hi && end == At(f, 0, g.ppb) + |imgs|
    && !IsBad(g, c.blocks[f])
    && c'.blocks[f] == PayloadBlock(g, imgs)
    && AllBad(Bads(g, c'.blocks), s, f)
    && (forall i | 0 <= i < |c.blocks| && i != f && (i < s || i > f || IsBad(g, c.blocks[i])) :: c'.blocks[i] == c.blocks[i])
    && Fails(c'.status) <= Fails(c.status)
    && ErasedGood(g, c'.blocks, f + 1, n, hi)
  }

  lemma LandsNow(g: Geometry, c: Chip, imgs: seq<Image>, s: nat, n: nat, f: nat, c1: Chip, end: nat, hi: nat)
    requires g.Valid() && Shaped(g, c) && |imgs| <= g.ppb && s <= f < hi <= |c.blocks|
    requires AllBad(Bads(g, c.blocks), s, f) && !IsBad(g, c.blocks[f]) && c.blocks[f] == ErasedBlock(g)
    requires ErasedGood(g, c.blocks, f + 1, n, hi)
    requires StaysInBlock(g, c, imgs, f, 0, Done(c1, end))
    ensures Landed(g, c, imgs, s, n, c1, end, f, hi)
  {
    ErasedGoodFrame(g, c.blocks, c1.blocks, f + 1, n, hi);
    forall i | s <= i < f ensures Bads(g, c1.blocks)[i] {
      assert Bads(g, c.blocks)[i];
    }
  }

  /** After a failure in block `f` the request starts again at block `s + 1`, with every
      block up to `f` bad and enough erased blocks left. */
  lemma RestartReady(g: Geometry, c: Chip, s: nat, f: nat, c1: Chip, m: nat, hi: nat) returns (c3: Chip)
    requires g.Valid() && Shaped(g, c) && |c1.blocks| == |c.blocks|
    requires s <= f < hi <= |c.blocks| && AllBad(Bads(g, c.blocks), s, f)
    requires forall i | 0 <= i < |c.blocks| && i != f :: c1.blocks[i] == c.blocks[i]
    requires Fails(c1.status) < Fails(c.status)
    requires ErasedGood(g, c.blocks, f + 1, m, hi)
    ensures c3 == CleanedUp(g, c1, f) && Shaped(g, c3) && |c3.blocks| == |c.blocks|
    ensures forall i | 0 <= i < |c.blocks| && i != f :: c3.blocks[i] == c.blocks[i]
    ensures IsBad(g, c3.blocks[f])
    ensures Fails(c3.status) < Fails(c.status)
    ensures ErasedGood(g, c3.blocks, s + 1, m, hi)
  {
    c3 := CleanedUp(g, c1, f);
    CleanUp(g, c1, f);
    ErasedGoodFrame(g, c.blocks, c3.blocks, f + 1, m, hi);
    forall i | s + 1 <= i < f + 1 ensures Bads(g, c3.blocks)[i] {
      if i != f {
        assert Bads(g, c.blocks)[i];
      }
    }
    ErasedGoodAfterBad(g, c3.blocks, s + 1, f + 1, m, hi);
  }

  lemma LandsLater(g: Geometry, c: Chip, imgs: seq<Image>, s: nat, n: nat, bad: nat, c3: Chip, c': Chip, end: nat, f: nat, hi: nat)
    requires |imgs| <= g.ppb && |c3.blocks| == |c.blocks| && s <= bad < hi <= |c.blocks|
    requires AllBad(Bads(g, c.blocks), s, bad) && !IsBad(g, c.blocks[bad])
    requires forall i | 0 <= i < |c.blocks| && i != bad :: c3.blocks[i] == c.blocks[i]
    requires IsBad(g, c3.blocks[bad]) && Fails(c3.status) <= Fails(c.status)
    requires Landed(g, c3, imgs, s + 1, n, c', end, f, hi)
    ensures Landed(g, c, imgs, s, n, c', end, f, hi)
  {
    assert f > bad by {
      assert forall i | s <= i < bad :: Bads(g, c.blocks)[i] && IsBad(g, c3.blocks[i]);
    }
    assert Bads(g, c'.blocks)[s] by {
      assert c'.blocks[s] == c3.blocks[s];
      assert s != bad ==> Bads(g, c.blocks)[s];
    }
  }

  /** The first pass goes to the first good block and stays there. */
  lemma {:induction false} FirstPass(g: Geometry, c: Chip, imgs: seq<Image>, s: nat, k: nat, n: nat, hi: nat) returns (f: nat)
    requires g.Valid() && Shaped(g, c) && 0 < |imgs| <= g.ppb && hi <= |c.blocks|
    requires k > 0 && n == k - 1 && ErasedGood(g, c.blocks, s, k, hi)
    ensures f == FirstGood(g, c.blocks, s) && s <= f < hi && AllBad(Bads(g, c.blocks), s, f)
    ensures !IsBad(g, c.blocks[f]) && c.blocks[f] == ErasedBlock(g) && ErasedGood(g, c.blocks, f + 1, n, hi)
    ensures StaysInBlock(g, c, imgs, f, 0, Attempt(g, c, imgs, At(s, 0, g.ppb)))
  {
    f := FirstGood(g, c.blocks, s);
    FirstGoodIsErased(g, c.blocks, s, k, hi);
    AttemptSkips(g, c, imgs, s, f);
    AttemptInBlock(g, c, imgs, f, 0);
  }

  lemma {:induction false} ProgramRestarts(g: Geometry, c: Chip, imgs: seq<Image>, s: nat, s1: nat)
    requires g.Valid() && s1 == s + 1
    ensures match Attempt(g, c, imgs, At(s, 0, g.ppb))
            case OffChip => true
            case Done(c1, end) => Program(g, c, imgs, At(s, 0, g.ppb)) == Some((c1, end))
            case Failed(c1, page) =>
              Program(g, c, imgs, At(s, 0, g.ppb)) == Program(g, CleanedUp(g, c1, Blk(page, g.ppb)), imgs, At(s1, 0, g.ppb))
  {
    AtStep(s, 0, g.ppb);
    ProgramByPass(g, c, imgs, At(s, 0, g.ppb), At(s1, 0, g.ppb));
  }

  /** The claim about one request: it returns, and lands in block `f` with `n` erased good
      blocks behind it. It was given `k` erased good blocks, used one for the payload, and
      each failure used up one more. */
  ghost predicate Lands(g: Geometry, c: Chip, imgs: seq<Image>, s: nat, k: nat, f: nat, n: nat, hi: nat)
    requires g.Valid() && |imgs| <= g.ppb && hi <= |c.blocks|
  {
    LandsAs(g, c, imgs, s, k, f, n, hi, Program(g, c, imgs, At(s, 0, g.ppb)))
  }

  ghost predicate LandsAs(g: Geometry, c: Chip, imgs: seq<Image>, s: nat, k: nat, f: nat, n: nat, hi: nat, r: Option<(Chip, nat)>)
    requires g.Valid() && |imgs| <= g.ppb && hi <= |c.blocks|
  {
    match r
    case None => false
    case Some((c', end)) => Landed(g, c, imgs, s, n, c', end, f, hi) && n + 1 + Fails(c.status) >= k + Fails(c'.status)
  }

  lemma {:induction false} LandsAsLater(g: Geometry, c: Chip, imgs: seq<Image>, s: nat, s1: nat, k: nat, k1: nat, f: nat, n: nat, hi: nat, r: Option<(Chip, nat)>, bad: nat, c3: Chip)
    requires g.Valid() && |imgs| <= g.ppb && |c3.blocks| == |c.blocks| && s <= bad < hi <= |c.blocks|
    requires AllBad(Bads(g, c.blocks), s, bad) && !IsBad(g, c.blocks[bad])
    requires forall i | 0 <= i < |c.blocks| && i != bad :: c3.blocks[i] == c.blocks[i]
    requires IsBad(g, c3.blocks[bad]) && Fails(c3.status) < Fails(c.status)
    requires s1 == s + 1 && k == k1 + 1 && LandsAs(g, c3, imgs, s1, k1, f, n, hi, r)
    ensures LandsAs(g, c, imgs, s, k, f, n, hi, r)
  {
    LandsLater(g, c, imgs, s, n, bad, c3, r.value.0, r.value.1, f, hi);
  }

  lemma {:induction false} LandsAfterFailure(g: Geometry, c: Chip, imgs: seq<Image>, s: nat, k: nat, m: nat, bad: nat, hi: nat, c1: Chip, page: nat) returns (f: nat, n: nat)
    requires g.Valid() && Shaped(g, c) && 0 < |imgs| <= g.ppb && k == m + 1 && m >= Fails(c.status)
    requires s <= bad < hi <= |c.blocks| && AllBad(Bads(g, c.blocks), s, bad) && !IsBad(g, c.blocks[bad])
    requires ErasedGood(g, c.blocks, bad + 1, m, hi)
    requires Attempt(g, c, imgs, At(s, 0, g.ppb)) == Failed(c1, page) && StaysInBlock(g, c, imgs, bad, 0, Failed(c1, page))
    ensures Lands(g, c, imgs, s, k, f, n, hi)
    decreases |c.status|, 0
  {
    var s1 := s + 1;
    var c3 := RestartReady(g, c, s, bad, c1, m, hi);
    f, n := ProgramLands(g, c3, imgs, s1, m, hi);
    ProgramRestarts(g, c, imgs, s, s1);
    LandsAsLater(g, c, imgs, s, s1, k, m, f, n, hi, Program(g, c3, imgs, At(s1, 0, g.ppb)), bad, c3);
  }

  /** One request of at most a block's worth of pages, under any pattern of program and
      erase failures: it returns, the payload sits whole in the first block from `s` on that
      is still good, every block before that one is bad, and no block outside that range is
      touched. */
  lemma {:induction false} ProgramLands(g: Geometry, c: Chip, imgs: seq<Image>, s: nat, k: nat, hi: nat) returns (f: nat, n: nat)
    requires g.Valid() && Shaped(g, c) && 0 < |imgs| <= g.ppb && hi <= |c.blocks|
    requires k > Fails(c.status) && ErasedGood(g, c.blocks, s, k, hi)
    ensures Lands(g, c, imgs, s, k, f, n, hi)
    decreases |c.status|, 1
  {
    n := k - 1;
    f := FirstPass(g, c, imgs, s, k, n, hi);
    match Attempt(g, c, imgs, At(s, 0, g.ppb))
    case Done(c1, end) =>
      ProgramRestarts(g, c, imgs, s, s + 1);
      LandsNow(g, c, imgs, s, n, f, c1, end, hi);
    case Failed(c1, page) =>
      f, n := LandsAfterFailure(g, c, imgs, s, k, n, f, hi, c1, page);
  }
}
