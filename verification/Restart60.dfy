/** nand_program_4760 when the erases that clean up after failed pages fail as well. */
module Restart60 {
  import opened Options
  import opened Flash
  import opened PageNumbers
  import opened NandSpec
  import opened Erasing
  import opened Programming
  import opened Nand4760

  // ----- the clean-up

  /** A forced erase of block `b` has ended at block `e`: it marked every block before that one,
      and left that one erased. */
  ghost predicate Spilled(g: Geometry, c: Chip, b: nat, c1: Chip, e: nat) {
    && b <= e < |c.blocks| && |c1.blocks| == |c.blocks|
    && (forall i | 0 <= i < |c.blocks| && !(b <= i <= e) :: c1.blocks[i] == c.blocks[i])
    && (forall i | b <= i < e :: IsBad(g, c1.blocks[i]) && |c1.blocks[i]| == g.ppb)
    && c1.blocks[e] == ErasedBlock(g)
    && Fails(c1.status) + (e - b) <= Fails(c.status)
  }

  lemma EraseOneShape(g: Geometry, c: Chip, b: nat)
    requires g.Valid() && b < |c.blocks|
    ensures |EraseOne(g, c, b).blocks[b]| == g.ppb
  {
  }

  lemma {:induction false} ForcedEraseEnds(g: Geometry, c: Chip, b: nat, b1: nat) returns (c1: Chip, e: nat)
    requires g.Valid() && g.plane == 1 && b + Fails(c.status) < |c.blocks| && b1 == b + 1
    ensures EraseFrom60(g, c, b, 1, true) == Some((c1, e + 1)) && Spilled(g, c, b, c1, e)
    decreases |c.blocks| - b
  {
    c1, e := EraseOne(g, c, b), b;
    EraseOneBlock(g, c, b);
    EraseOneShape(g, c, b);
    if NextStatus(c).Fail? {
      GoesOn(g, c, b, b1, 1, 1, true, c1);
      ghost var c0 := c1;
      c1, e := ForcedEraseEnds(g, c0, b1, b1 + 1);
      assert c1.blocks[b] == c0.blocks[b];
    } else {
      GoesOn(g, c, b, b1, 1, 0, true, c1);
    }
  }

  /** The clean-up of block `b`: it is bad, and so is every block up to `e`, which is erased. */
  ghost predicate Cleaned(g: Geometry, c: Chip, b: nat, c1: Chip, e: nat) {
    && b <= e < |c.blocks| && |c1.blocks| == |c.blocks|
    && (forall i | 0 <= i < |c.blocks| && !(b <= i <= e) :: c1.blocks[i] == c.blocks[i])
    && (forall i | b <= i < e || i == b :: IsBad(g, c1.blocks[i]) && |c1.blocks[i]| == g.ppb)
    && (b < e ==> c1.blocks[e] == ErasedBlock(g))
    && Fails(c1.status) + (e - b) <= Fails(c.status)
  }

  lemma {:induction false} CleanUpEnds(g: Geometry, c: Chip, b: nat) returns (c1: Chip, e: nat)
    requires g.Valid() && g.plane == 1 && b + Fails(c.status) < |c.blocks|
    ensures CleanedUp60(g, c, b) == Some(c1) && Cleaned(g, c, b, c1, e)
  {
    ghost var c0;
    c0, e := ForcedEraseEnds(g, c, b, b + 1);
    c1 := MarkBad(g, c0, b);
    MarkBadVerdicts(g, c0, b);
  }

  // ----- what is left for the next pass

  lemma {:induction false} ErasedGoodFewer(g: Geometry, bl: seq<Block>, b: nat, n: nat, m: nat, hi: nat)
    requires hi <= |bl| && m <= n && ErasedGood(g, bl, b, n, hi)
    ensures ErasedGood(g, bl, b, m, hi)
    decreases hi - b
  {
    if m > 0 {
      ErasedGoodFewer(g, bl, b + 1, if IsBad(g, bl[b]) then n else n - 1, if IsBad(g, bl[b]) then m else m - 1, hi);
    }
  }

  /** Among any `n` blocks from `b` on are at most `n` of the good ones. */
  lemma {:induction false} ErasedGoodBehind(g: Geometry, bl: seq<Block>, b: nat, n: nat, e: nat, m: nat, hi: nat)
    requires b <= e && n == m + (e - b) && hi <= |bl| && b <= hi && ErasedGood(g, bl, b, n, hi)
    ensures e <= hi && ErasedGood(g, bl, e, m, hi)
    decreases e - b
  {
    if b < e {
      if IsBad(g, bl[b]) {
        ErasedGoodFewer(g, bl, b + 1, n, n - 1, hi);
      }
      ErasedGoodBehind(g, bl, b + 1, n - 1, e, m, hi);
    }
  }

  lemma {:induction false} FirstGoodBehind(g: Geometry, bl: seq<Block>, a: nat, b: nat)
    requires a <= b && AllBad(Bads(g, bl), a, b)
    ensures FirstGood(g, bl, a) >= b
    decreases b - a
  {
    if a < b {
      assert Bads(g, bl)[a];
      FirstGoodBehind(g, bl, a + 1, b);
    }
  }

  /** Every block before `e1` is bad again, and from there on enough erased blocks are left. */
  lemma {:induction false} ReadyAgain(g: Geometry, c: Chip, s: nat, b: nat, n: nat, hi: nat, c3: Chip, e: nat) returns (e1: nat, k: nat)
    requires g.Valid() && Shaped(g, c) && s <= b < hi <= |c.blocks| && AllBad(Bads(g, c.blocks), s, b)
    requires ErasedGood(g, c.blocks, b + 1, n, hi) && b <= e < |c.blocks| && |c3.blocks| == |c.blocks|
    requires forall i | 0 <= i < |c.blocks| && !(b <= i <= e) :: c3.blocks[i] == c.blocks[i]
    requires forall i | b <= i < e || i == b :: IsBad(g, c3.blocks[i]) && |c3.blocks[i]| == g.ppb
    requires b < e ==> c3.blocks[e] == ErasedBlock(g)
    requires e - b < n
    ensures Shaped(g, c3) && s < e1 && b < e1 && e <= e1 && AllBad(Bads(g, c3.blocks), s, e1)
    ensures ErasedGood(g, c3.blocks, s + 1, k, hi) && k >= n - (e - b)
  {
    ErasedGoodBehind(g, c.blocks, b + 1, n, e + 1, n - (e - b), hi);
    ErasedGoodFrame(g, c.blocks, c3.blocks, e + 1, n - (e - b), hi);
    ErasedBlockIsGood(g);
    if b < e {
      e1, k := e, n - (e - b) + 1;
    } else {
      e1, k := e + 1, n;
    }
    assert ErasedGood(g, c3.blocks, e1, k, hi);
    forall i | s <= i < e1 ensures Bads(g, c3.blocks)[i] {
      if i < b {
        assert Bads(g, c.blocks)[i];
      }
    }
    ErasedGoodAfterBad(g, c3.blocks, s + 1, e1, k, hi);
  }

  // ----- where the payload lands

  /** As for the JZ4740, except that the block may be one that was marked bad before. */
  ghost predicate Landed60(g: Geometry, c: Chip, imgs: seq<Image>, s: nat, c1: Chip, end: nat, f: nat, hi: nat)
    requires |imgs| <= g.ppb && hi <= |c.blocks|
  {
    && |c1.blocks| == |c.blocks|
    && FirstGood(g, c.blocks, s) <= f < hi && end == At(f, 0, g.ppb) + |imgs|
    && c1.blocks[f] == PayloadBlock(g, imgs)
    && AllBad(Bads(g, c1.blocks), s, f)
    && (forall i | 0 <= i < |c.blocks| && !(s <= i <= f) :: c1.blocks[i] == c.blocks[i])
  }

  ghost predicate LandsIn60(g: Geometry, c: Chip, imgs: seq<Image>, s: nat, f: nat, hi: nat, r: Option<(Chip, nat)>)
    requires |imgs| <= g.ppb && hi <= |c.blocks|
  {
    r.Some? && Landed60(g, c, imgs, s, r.value.0, r.value.1, f, hi)
  }

  lemma {:induction false} LandsAtOnce(g: Geometry, c: Chip, imgs: seq<Image>, s: nat, f: nat, c1: Chip, end: nat, hi: nat)
    requires g.Valid() && Shaped(g, c) && |imgs| <= g.ppb && s <= f < hi <= |c.blocks| && f == FirstGood(g, c.blocks, s)
    requires AllBad(Bads(g, c.blocks), s, f) && c.blocks[f] == ErasedBlock(g) && StaysInBlock(g, c, imgs, f, 0, Done(c1, end))
    ensures Landed60(g, c, imgs, s, c1, end, f, hi)
  {
    forall i | s <= i < f ensures Bads(g, c1.blocks)[i] {
      assert Bads(g, c.blocks)[i];
    }
  }

  lemma {:induction false} LandsAgain(g: Geometry, c: Chip, imgs: seq<Image>, s: nat, s1: nat, b: nat, e1: nat, c3: Chip, f: nat, hi: nat, r: Option<(Chip, nat)>)
    requires g.Valid() && |imgs| <= g.ppb && |c3.blocks| == |c.blocks| && s1 == s + 1 && s <= b < hi <= |c.blocks|
    requires b == FirstGood(g, c.blocks, s) && b < e1 && s < e1 && AllBad(Bads(g, c3.blocks), s, e1)
    requires forall i | 0 <= i < |c.blocks| && !(b <= i <= e1) :: c3.blocks[i] == c.blocks[i]
    requires LandsIn60(g, c3, imgs, s1, f, hi, r)
    ensures LandsIn60(g, c, imgs, s, f, hi, r)
  {
    FirstGoodBehind(g, c3.blocks, s1, e1);
    assert Bads(g, r.value.0.blocks)[s] by {
      assert Bads(g, c3.blocks)[s];
    }
  }

  lemma {:induction false} Restarts60(g: Geometry, c: Chip, imgs: seq<Image>, p: nat, p1: nat, c1: Chip, b: nat, c3: Chip)
    requires g.Valid() && p > 0 && p1 == p + g.ppb && Attempt(g, c, imgs, p).Failed?
    requires c1 == Attempt(g, c, imgs, p).c && b == Blk(Attempt(g, c, imgs, p).page, g.ppb) && CleanedUp60(g, c1, b) == Some(c3)
    ensures Program60(g, c, imgs, p) == Program60(g, c3, imgs, p1) && |c3.status| < |c.status|
  {
  }

  /** A pass has failed in block `b`. */
  lemma {:induction false} CleansAndGoesOn(g: Geometry, c: Chip, imgs: seq<Image>, s: nat, s1: nat, b: nat, n: nat, hi: nat, c1: Chip, page: nat)
      returns (c3: Chip, e1: nat, k: nat)
    requires g.Valid() && g.plane == 1 && Shaped(g, c) && |imgs| <= g.ppb && 0 < s && s1 == s + 1 && s <= b < hi <= |c.blocks|
    requires AllBad(Bads(g, c.blocks), s, b) && ErasedGood(g, c.blocks, b + 1, n, hi) && n >= Fails(c.status)
    requires Attempt(g, c, imgs, At(s, 0, g.ppb)) == Failed(c1, page) && StaysInBlock(g, c, imgs, b, 0, Failed(c1, page))
    ensures Shaped(g, c3) && |c3.blocks| == |c.blocks| && |c3.status| < |c.status| && b < e1 && s < e1
    ensures forall i | 0 <= i < |c.blocks| && !(b <= i <= e1) :: c3.blocks[i] == c.blocks[i]
    ensures AllBad(Bads(g, c3.blocks), s, e1) && ErasedGood(g, c3.blocks, s1, k, hi) && k > Fails(c3.status)
    ensures Program60(g, c, imgs, At(s, 0, g.ppb)) == Program60(g, c3, imgs, At(s1, 0, g.ppb))
  {
    var e;
    ErasedGoodBehind(g, c.blocks, b + 1, n, b + 1 + n, 0, hi);
    c3, e := CleanUpEnds(g, c1, b);
    e1, k := ReadyAgain(g, c, s, b, n, hi, c3, e);
    AtStep(s, 0, g.ppb);
    Restarts60(g, c, imgs, At(s, 0, g.ppb), At(s1, 0, g.ppb), c1, b, c3);
  }

  /** On a chip with one plane, from any block but the first, under any program and any erase
      failures: a request of at most a block of pages lands whole in one block, with every
      block from the start up to it bad and nothing else touched. */
  lemma {:induction false} Program60LandsWhole(g: Geometry, c: Chip, imgs: seq<Image>, s: nat, k: nat, hi: nat) returns (f: nat)
    requires g.Valid() && g.plane == 1 && Shaped(g, c) && 0 < |imgs| <= g.ppb && 0 < s && hi <= |c.blocks|
    requires k > Fails(c.status) && ErasedGood(g, c.blocks, s, k, hi)
    ensures LandsIn60(g, c, imgs, s, f, hi, Program60(g, c, imgs, At(s, 0, g.ppb)))
    decreases |c.status|
  {
    f := FirstPass(g, c, imgs, s, k, k - 1, hi);
    match Attempt(g, c, imgs, At(s, 0, g.ppb))
    case Done(c1, end) =>
      LandsAtOnce(g, c, imgs, s, f, c1, end, hi);
    case Failed(c1, page) =>
      var b, s1 := f, s + 1;
      var c3, e1, k1 := CleansAndGoesOn(g, c, imgs, s, s1, b, k - 1, hi, c1, page);
      f := Program60LandsWhole(g, c3, imgs, s1, k1, hi);
      LandsAgain(g, c, imgs, s, s1, b, e1, c3, f, hi, Program60(g, c3, imgs, At(s1, 0, g.ppb)));
  }
}
