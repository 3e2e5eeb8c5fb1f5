/** Where the requests of an image land on any chip and under any failures, what they leave
    there, and exactly when that is read back. Nothing is supposed about the blocks they land
    in. */
module Landing {
  import opened Options
  import opened Flash
  import opened PageNumbers
  import opened NandSpec
  import opened Programming
  import opened Flashing

  // ----- one request

  lemma {:induction false} FirstGoodIs(g: Geometry, bl: seq<Block>, b: nat)
    requires b <= |bl|
    ensures var f := FirstGood(g, bl, b); f <= |bl| && AllBad(Bads(g, bl), b, f) && (f < |bl| ==> !IsBad(g, bl[f]))
    decreases |bl| - b
  {
    if b < |bl| && IsBad(g, bl[b]) {
      FirstGoodIs(g, bl, b + 1);
    }
  }

  /** The request from block `s` on has been programmed into block `f`, which was good, over
      whatever was there. Every block it passed is bad now; blocks before the start, behind
      block `f`, and blocks that were bad are untouched. */
  ghost predicate LandsIn(g: Geometry, c: Chip, imgs: seq<Image>, s: nat, c': Chip, end: nat, f: nat) {
    && Shaped(g, c) && Shaped(g, c') && |c'.blocks| == |c.blocks| && s <= f < |c.blocks| && |imgs| <= g.ppb
    && end == At(f, 0, g.ppb) + |imgs|
    && !IsBad(g, c.blocks[f]) && c'.blocks[f] == WriteBlock(c.blocks[f], 0, imgs)
    && AllBad(Bads(g, c'.blocks), s, f)
    && (forall i | 0 <= i < |c.blocks| && i != f && (i < s || i > f || IsBad(g, c.blocks[i])) :: c'.blocks[i] == c.blocks[i])
  }

  /** A pass finds a good block, or runs off the chip. */
  lemma {:induction false} PassFinds(g: Geometry, c: Chip, imgs: seq<Image>, s: nat) returns (f: nat)
    requires g.Valid() && Shaped(g, c) && 0 < |imgs| <= g.ppb && Attempt(g, c, imgs, At(s, 0, g.ppb)) != OffChip
    ensures s <= f < |c.blocks| && AllBad(Bads(g, c.blocks), s, f) && !IsBad(g, c.blocks[f])
    ensures StaysInBlock(g, c, imgs, f, 0, Attempt(g, c, imgs, At(s, 0, g.ppb)))
  {
    Split(s, 0, g.ppb);
    f := FirstGood(g, c.blocks, s);
    FirstGoodIs(g, c.blocks, s);
    AttemptSkips(g, c, imgs, s, f);
    Split(f, 0, g.ppb);
    AttemptInBlock(g, c, imgs, f, 0);
  }

  lemma {:induction false} StillBad(g: Geometry, bl: seq<Block>, bl': seq<Block>, s: nat, f: nat)
    requires f <= |bl| == |bl'| && AllBad(Bads(g, bl), s, f) && forall i | s <= i < f :: bl'[i] == bl[i]
    ensures AllBad(Bads(g, bl'), s, f)
  {
    forall i | s <= i < f ensures Bads(g, bl')[i] {
      assert Bads(g, bl)[i];
    }
  }

  lemma {:induction false} LandsAfterRestart(g: Geometry, c: Chip, imgs: seq<Image>, s: nat, s1: nat, bad: nat, c3: Chip, c': Chip, end: nat, f: nat)
    requires Shaped(g, c) && |c3.blocks| == |c.blocks| && s <= bad < |c.blocks| && s1 == s + 1
    requires AllBad(Bads(g, c.blocks), s, bad) && !IsBad(g, c.blocks[bad])
    requires forall i | 0 <= i < |c.blocks| && i != bad :: c3.blocks[i] == c.blocks[i]
    requires IsBad(g, c3.blocks[bad]) && LandsIn(g, c3, imgs, s1, c', end, f)
    ensures LandsIn(g, c, imgs, s, c', end, f)
  {
    assert f > bad by {
      assert forall i | s <= i < bad :: Bads(g, c.blocks)[i] && IsBad(g, c3.blocks[i]);
    }
    assert Bads(g, c'.blocks)[s] by {
      assert c'.blocks[s] == c3.blocks[s];
      assert s != bad ==> Bads(g, c.blocks)[s];
    }
  }

  /** One request of at most a block's worth of pages, on any chip and under any pattern of
      program and erase failures: if it returns, it has landed. */
  lemma {:induction false} RequestLands(g: Geometry, c: Chip, imgs: seq<Image>, s: nat, s1: nat, c': Chip, end: nat) returns (f: nat)
    requires g.Valid() && Shaped(g, c) && 0 < |imgs| <= g.ppb && s1 == s + 1
    requires Program(g, c, imgs, At(s, 0, g.ppb)) == Some((c', end))
    ensures LandsIn(g, c, imgs, s, c', end, f)
    decreases |c.status|
  {
    ProgramRestarts(g, c, imgs, s, s1);
    f := PassFinds(g, c, imgs, s);
    var pass := Attempt(g, c, imgs, At(s, 0, g.ppb));
    if pass.Done? {
      StillBad(g, c.blocks, c'.blocks, s, f);
    } else {
      var bad, c3 := f, CleanedUp(g, pass.c, f);
      CleanUp(g, pass.c, bad);
      f := RequestLands(g, c3, imgs, s1, s1 + 1, c', end);
      LandsAfterRestart(g, c, imgs, s, s1, bad, c3, c', end, f);
    }
  }

  // ----- what is read back

  /** A page with an image programmed over it. */
  function Over(page: Page, img: Image): Page {
    if img.Some? then AndPage(page, img.value) else page
  }

  /** Each page of the request, programmed over the block's page, is read as it should be. */
  ghost predicate ReadsOver(rd: Reader, blk: Block, q: Request) {
    |q.imgs| <= |blk| && |q.want| == |q.imgs| && forall i | 0 <= i < |q.imgs| :: PageReads(rd, blk, q, i)
  }

  ghost predicate PageReads(rd: Reader, blk: Block, q: Request, i: nat)
    requires i < |q.imgs| <= |blk| && |q.want| == |q.imgs|
  {
    rd(Over(blk[i], q.imgs[i])) == q.want[i]
  }

  lemma {:induction false} WrittenKeepsVerdict(g: Geometry, blk: Block, k: nat, imgs: seq<Image>)
    requires g.Valid() && ValidBlock(g, blk) && ValidImages(g, imgs) && k + |imgs| <= g.ppb
    requires forall i | 0 <= i < |imgs| && imgs[i].Some? && g.MarkPage(k + i) :: KeepsMark(g, imgs[i].value)
    ensures IsBad(g, WriteBlock(blk, k, imgs)) == IsBad(g, blk)
    decreases |imgs|
  {
    if imgs != [] {
      var rest := imgs[1..];
      forall i | 0 <= i < |rest| && rest[i].Some? && g.MarkPage(k + 1 + i) ensures KeepsMark(g, rest[i].value) {
        assert rest[i] == imgs[i + 1] && k + 1 + i == k + (i + 1);
      }
      if imgs[0].Some? {
        assert g.MarkPage(k + 0) ==> KeepsMark(g, imgs[0].value);
        ProgramKeepsVerdict(g, blk, k, imgs[0].value);
        WrittenKeepsVerdict(g, blk[k := AndPage(blk[k], imgs[0].value)], k + 1, rest);
      } else {
        WrittenKeepsVerdict(g, blk, k + 1, rest);
      }
    }
  }

  /** What a request brings, whatever it is read back as. */
  ghost predicate SoundRequest(g: Geometry, q: Request) {
    0 < |q.imgs| <= g.ppb && |q.want| == |q.imgs| && ValidImages(g, q.imgs) && ImagesKeepMark(g, q.imgs)
  }

  lemma {:induction false} LandedIsGood(g: Geometry, blk: Block, q: Request)
    requires g.Valid() && ValidBlock(g, blk) && SoundRequest(g, q) && !IsBad(g, blk)
    ensures !IsBad(g, WriteBlock(blk, 0, q.imgs))
  {
    WrittenKeepsVerdict(g, blk, 0, q.imgs);
  }

  lemma {:induction false} LandedPage(g: Geometry, bl: seq<Block>, f: nat, blk: Block, imgs: seq<Image>, i: nat)
    requires g.ppb > 0 && |blk| == g.ppb && |imgs| <= g.ppb && i < |imgs|
    requires f < |bl| && bl[f] == WriteBlock(blk, 0, imgs)
    ensures Blk(Run(At(f, 0, g.ppb), |imgs|)[i], g.ppb) == f
    ensures PageAt(g, bl, Run(At(f, 0, g.ppb), |imgs|)[i]) == Over(blk[i], imgs[i])
  {
    AtIsLinear(f, i, g.ppb);
    Split(f, i, g.ppb);
    WriteBlockPages(blk, 0, imgs, i);
  }

  /** What the pages are read as. */
  ghost predicate Back(rd: Reader, blk: Block, imgs: seq<Image>, back: seq<Chunk>)
    requires |imgs| <= |blk|
  {
    |back| == |imgs| && forall i | 0 <= i < |imgs| :: back[i] == rd(Over(blk[i], imgs[i]))
  }

  lemma {:induction false} DeliversOver(rd: Reader, g: Geometry, bl: seq<Block>, f: nat, blk: Block, imgs: seq<Image>, ps: seq<nat>, back: seq<Chunk>)
    requires g.ppb > 0 && |blk| == g.ppb && |imgs| <= g.ppb && f < |bl| && bl[f] == WriteBlock(blk, 0, imgs)
    requires ps == Run(At(f, 0, g.ppb), |imgs|)
    requires Back(rd, blk, imgs, back)
    ensures forall i | 0 <= i < |ps| :: Blk(ps[i], g.ppb) < |bl|
    ensures Deliver(rd, g, bl, ps) == back
  {
    forall i | 0 <= i < |imgs| ensures Blk(ps[i], g.ppb) == f && PageAt(g, bl, ps[i]) == Over(blk[i], imgs[i]) {
      LandedPage(g, bl, f, blk, imgs, i);
    }
  }

  lemma {:induction false} WalkLanded(bad: seq<bool>, ppb: nat, s: nat, f: nat, n: nat)
    requires ppb > 0 && s <= f < |bad| && AllBad(bad, s, f) && !bad[f] && 0 < n <= ppb
    ensures Walk(bad, ppb, At(s, 0, ppb), n) == Some((Run(At(f, 0, ppb), n), At(f, 0, ppb) + n))
  {
    WalkSkips(bad, ppb, s, f, n);
    WalkInBlock(bad, ppb, f, 0, n);
  }

  lemma {:induction false} ReadIs(rd: Reader, g: Geometry, bl: seq<Block>, p: nat, n: nat, ps: seq<nat>, end: nat, back: seq<Chunk>)
    requires g.ppb > 0 && Walk(Bads(g, bl), g.ppb, p, n) == Some((ps, end))
    requires Deliver(rd, g, bl, ps) == back
    ensures ReadFrom(rd, g, bl, p, n) == Some((back, end))
  {
  }

  /** The pages of the block that a request has landed in are delivered one by one. */
  lemma {:induction false} LandedPages(rd: Reader, g: Geometry, bl: seq<Block>, s: nat, f: nat, blk: Block, q: Request, back: seq<Chunk>)
    requires g.Valid() && ValidBlock(g, blk) && SoundRequest(g, q)
    requires s <= f < |bl| && !IsBad(g, bl[f]) && AllBad(Bads(g, bl), s, f) && bl[f] == WriteBlock(blk, 0, q.imgs)
    requires Back(rd, blk, q.imgs, back)
    ensures ReadFrom(rd, g, bl, At(s, 0, g.ppb), |q.imgs|) == Some((back, At(f, 0, g.ppb) + |q.imgs|))
  {
    var ps, end := Run(At(f, 0, g.ppb), |q.imgs|), At(f, 0, g.ppb) + |q.imgs|;
    WalkLanded(Bads(g, bl), g.ppb, s, f, |q.imgs|);
    DeliversOver(rd, g, bl, f, blk, q.imgs, ps, back);
    ReadIs(rd, g, bl, At(s, 0, g.ppb), |q.imgs|, ps, end, back);
  }

  /** The request is read back from where it started if and only if each of its pages,
      programmed over what was there, is read as it should be; the read ends where the
      request did. */
  lemma {:induction false} LandedReads(rd: Reader, g: Geometry, bl: seq<Block>, s: nat, f: nat, blk: Block, q: Request) returns (back: seq<Chunk>)
    requires g.Valid() && ValidBlock(g, blk) && SoundRequest(g, q) && !IsBad(g, blk)
    requires s <= f < |bl| && AllBad(Bads(g, bl), s, f) && bl[f] == WriteBlock(blk, 0, q.imgs)
    ensures ReadFrom(rd, g, bl, At(s, 0, g.ppb), |q.imgs|) == Some((back, At(f, 0, g.ppb) + |q.imgs|))
    ensures |back| == |q.imgs| && (back == q.want <==> ReadsOver(rd, blk, q))
  {
    back := seq(|q.imgs|, i requires 0 <= i < |q.imgs| => rd(Over(blk[i], q.imgs[i])));
    LandedIsGood(g, blk, q);
    LandedPages(rd, g, bl, s, f, blk, q, back);
    if ReadsOver(rd, blk, q) {
      forall i | 0 <= i < |q.imgs| ensures back[i] == q.want[i] {
        assert PageReads(rd, blk, q, i);
      }
    }
  }

  /** A request that is told to be in order wherever it lands over an erased block. */
  lemma {:induction false} ErasedReads(rd: Reader, g: Geometry, q: Request)
    requires g.Valid() && GoodRequest(rd, g, q)
    ensures SoundRequest(g, q) && ReadsOver(rd, ErasedBlock(g), q)
  {
    forall i | 0 <= i < |q.imgs| ensures PageReads(rd, ErasedBlock(g), q, i) {
      if q.imgs[i].Some? {
        AndOnes(q.imgs[i].value.data);
        AndOnes(q.imgs[i].value.oob);
      }
    }
  }

  // ----- the check of the host

  /** What a checked transfer leaves in the block it lands in: its pages, over what was there, or
      a bad mark if they did not read back and fill the block. */
  ghost predicate LeftIn(rd: Reader, g: Geometry, was: Block, now: Block, q: Request) {
    |q.imgs| <= |was| && if ReadsOver(rd, was, q) || |q.imgs| < g.ppb then now == WriteBlock(was, 0, q.imgs) else IsBad(g, now)
  }

  /** One transfer that the host has programmed, read back and compared. Its block takes part
      in later reads unless the comparison failed and the transfer filled the block. */
  ghost predicate ChecksIn(rd: Reader, g: Geometry, c: Chip, q: Request, s: nat, c1: Chip, next: nat, f: nat) {
    && Shaped(g, c) && Shaped(g, c1) && |c1.blocks| == |c.blocks| && s <= f < |c.blocks| && |q.imgs| <= g.ppb
    && next == At(f, 0, g.ppb) + |q.imgs|
    && !IsBad(g, c.blocks[f]) && AllBad(Bads(g, c1.blocks), s, f)
    && (forall i | 0 <= i < |c.blocks| && i != f && (i < s || i > f || IsBad(g, c.blocks[i])) :: c1.blocks[i] == c.blocks[i])
    && LeftIn(rd, g, c.blocks[f], c1.blocks[f], q)
  }


  lemma {:induction false} EndsInBlock(f: nat, n: nat, ppb: nat, end: nat)
    requires 0 < n <= ppb && end == At(f, 0, ppb) + n
    ensures end > 0 && Blk(end - 1, ppb) == f && (Idx(end, ppb) == 0 <==> n == ppb)
  {
    AtIsLinear(f, n, ppb);
    AtIsLinear(f, n - 1, ppb);
    Split(f, n - 1, ppb);
    if n < ppb {
      Split(f, n, ppb);
    } else {
      AtStep(f, 0, ppb);
      Split(f + 1, 0, ppb);
    }
  }

  lemma {:induction false} MarkedAfterCheck(g: Geometry, c: Chip, imgs: seq<Image>, s: nat, c0: Chip, end: nat, f: nat, c1: Chip)
    requires g.Valid() && LandsIn(g, c, imgs, s, c0, end, f) && c1 == MarkBad(g, c0, f)
    ensures IsBad(g, c1.blocks[f]) && Shaped(g, c1) && AllBad(Bads(g, c1.blocks), s, f)
    ensures forall i | 0 <= i < |c.blocks| && i != f :: c1.blocks[i] == c0.blocks[i]
  {
    MarkBadVerdicts(g, c0, f);
    StillBad(g, c0.blocks, c1.blocks, s, f);
  }

  /** From block `s` on, good blocks have pages of the chip's size. */
  ghost predicate GoodBlocksValid(g: Geometry, bl: seq<Block>, s: nat) {
    forall i | s <= i < |bl| && !IsBad(g, bl[i]) :: ValidBlock(g, bl[i])
  }

  /** The check itself, after the transfer has landed in block `f`. */
  lemma {:induction false} CheckMarks(rd: Reader, g: Geometry, c: Chip, q: Request, s: nat, c0: Chip, end: nat, f: nat, back: seq<Chunk>, c1: Chip)
    requires g.Valid() && |q.imgs| <= g.ppb && LandsIn(g, c, q.imgs, s, c0, end, f) && (back == q.want <==> ReadsOver(rd, c.blocks[f], q))
    requires c1 == if back != q.want && |q.imgs| == g.ppb then MarkBad(g, c0, f) else c0
    ensures ChecksIn(rd, g, c, q, s, c1, end, f)
  {
    if back != q.want && |q.imgs| == g.ppb {
      MarkedAfterCheck(g, c, q.imgs, s, c0, end, f, c1);
    }
  }

  /** What a check that returns consists of. */
  lemma {:induction false} CheckedParts(rd: Reader, g: Geometry, c: Chip, imgs: seq<Image>, want: seq<Chunk>, p: nat, c1: Chip, next: nat)
    returns (c0: Chip, end: nat, back: seq<Chunk>)
    requires g.Valid() && imgs != [] && Checked(rd, g, c, imgs, want, p) == Some((c1, next))
    ensures Program(g, c, imgs, p) == Some((c0, end)) && ReadFrom(rd, g, c0.blocks, p, |imgs|) == Some((back, next))
    ensures next > 0 && (back != want && Idx(next, g.ppb) == 0 ==> Blk(next - 1, g.ppb) < |c0.blocks|)
    ensures c1 == if back != want && Idx(next, g.ppb) == 0 then MarkBad(g, c0, Blk(next - 1, g.ppb)) else c0
  {
    c0, end := Program(g, c, imgs, p).value.0, Program(g, c, imgs, p).value.1;
    back := ReadFrom(rd, g, c0.blocks, p, |imgs|).value.0;
  }

  lemma {:induction false} CheckLandsFrom(rd: Reader, g: Geometry, c: Chip, q: Request, s: nat, p: nat, c0: Chip, end: nat, read: seq<Chunk>,
                                          f: nat, c1: Chip, next: nat)
    requires g.Valid() && GoodBlocksValid(g, c.blocks, s) && SoundRequest(g, q) && p == At(s, 0, g.ppb) && LandsIn(g, c, q.imgs, s, c0, end, f)
    requires ReadFrom(rd, g, c0.blocks, p, |q.imgs|) == Some((read, next)) && next > 0
    requires read != q.want && Idx(next, g.ppb) == 0 ==> Blk(next - 1, g.ppb) < |c0.blocks|
    requires c1 == if read != q.want && Idx(next, g.ppb) == 0 then MarkBad(g, c0, Blk(next - 1, g.ppb)) else c0
    ensures ChecksIn(rd, g, c, q, s, c1, next, f)
  {
    var back := LandedReads(rd, g, c0.blocks, s, f, c.blocks[f], q);
    assert back == read && next == end;
    EndsInBlock(f, |q.imgs|, g.ppb, end);
    CheckMarks(rd, g, c, q, s, c0, end, f, back, c1);
  }

  lemma {:induction false} CheckLands(rd: Reader, g: Geometry, c: Chip, q: Request, s: nat, c1: Chip, next: nat) returns (f: nat)
    requires g.Valid() && Shaped(g, c) && GoodBlocksValid(g, c.blocks, s) && SoundRequest(g, q)
    requires Checked(rd, g, c, q.imgs, q.want, At(s, 0, g.ppb)) == Some((c1, next))
    ensures ChecksIn(rd, g, c, q, s, c1, next, f)
  {
    var p := At(s, 0, g.ppb);
    var c0, end, read := CheckedParts(rd, g, c, q.imgs, q.want, p, c1, next);
    f := RequestLands(g, c, q.imgs, s, s + 1, c0, end);
    CheckLandsFrom(rd, g, c, q, s, p, c0, end, read, f, c1, next);
  }

  // ----- many requests

  /** A walk of more than `n` pages ends behind page `end`. */
  ghost predicate Beyond(bad: seq<bool>, ppb: nat, p: nat, n: nat, end: nat)
    requires ppb > 0
  {
    forall m: nat | m > n :: EndsBehind(Walk(bad, ppb, p, m), end)
  }

  ghost predicate EndsBehind(walk: Option<(seq<nat>, nat)>, end: nat) {
    walk.Some? ==> walk.value.1 > end
  }

  lemma {:induction false} BeyondHere(bad: seq<bool>, ppb: nat, p: nat)
    requires ppb > 0
    ensures Beyond(bad, ppb, p, 0, p)
  {
    forall m: nat | m > 0 ensures EndsBehind(Walk(bad, ppb, p, m), p) {
      var walk := Walk(bad, ppb, p, m);
      assert walk.Some? ==> p <= walk.value.0[m - 1];
    }
  }

  /** In front of what is walked beyond comes a block that is bad, or `n` pages of a good one. */
  lemma {:induction false} BeyondFirst(bad: seq<bool>, ppb: nat, s: nat, f: nat, n: nat, next: nat, rest: nat, all: nat, end: nat)
    requires ppb > 0 && s <= f < |bad| && AllBad(bad, s, f) && 0 < n <= ppb && next == At(f, 0, ppb) + n && all == n + rest
    requires (bad[f] ==> n == ppb) && Beyond(bad, ppb, next, rest, end)
    ensures Beyond(bad, ppb, At(s, 0, ppb), all, end)
  {
    forall m: nat | m > all ensures EndsBehind(Walk(bad, ppb, At(s, 0, ppb), m), end) {
      if bad[f] {
        AtStep(f, 0, ppb);
        WalkSkips(bad, ppb, s, f + 1, m);
        assert EndsBehind(Walk(bad, ppb, next, m), end);
      } else {
        var k := m - n;
        WalkLanded(bad, ppb, s, f, n);
        WalkComposes(bad, ppb, At(s, 0, ppb), n, k, m);
        assert EndsBehind(Walk(bad, ppb, next, k), end);
      }
    }
  }

  /** Every transfer of an image, over the block it lands in, is read as it should be. */
  ghost predicate AllRead(rd: Reader, bl: seq<Block>, reqs: seq<Request>, fs: seq<nat>) {
    |fs| == |reqs| && forall i | 0 <= i < |reqs| :: OneReads(rd, bl, reqs, fs, i)
  }

  ghost predicate OneReads(rd: Reader, bl: seq<Block>, reqs: seq<Request>, fs: seq<nat>, i: nat)
    requires i < |reqs| == |fs|
  {
    fs[i] < |bl| && ReadsOver(rd, bl[fs[i]], reqs[i])
  }

  /** Requests as the host cuts them, whatever they are read back as. */
  ghost predicate SoundRequests(g: Geometry, reqs: seq<Request>) {
    forall i | 0 <= i < |reqs| :: SoundRequest(g, reqs[i]) && (i + 1 < |reqs| ==> |reqs[i].imgs| == g.ppb)
  }

  /** The block of the last page that each transfer has programmed. */
  function Landings(rd: Reader, g: Geometry, c: Chip, reqs: seq<Request>, p: nat): seq<nat>
    requires g.Valid() && forall i | 0 <= i < |reqs| :: reqs[i].imgs != []
    decreases |reqs|
  {
    if reqs == [] then []
    else
      match Checked(rd, g, c, reqs[0].imgs, reqs[0].want, p)
      case None => []
      case Some((c1, next)) => (if next > 0 then [Blk(next - 1, g.ppb)] else []) + Landings(rd, g, c1, reqs[1..], next)
  }

  /** Where transfer `i` starts: at the first block, or behind the one before. */
  function From(s: nat, fs: seq<nat>, i: nat): nat
    requires i <= |fs|
  {
    if i == 0 then s else fs[i - 1] + 1
  }

  /** Transfer `i` has landed in block fs[i], which was good, and every block it passed is bad
      now. */
  ghost predicate LandsAt(rd: Reader, g: Geometry, bl: seq<Block>, now: seq<Block>, reqs: seq<Request>, s: nat, fs: seq<nat>, i: nat)
    requires i < |reqs| == |fs| && |now| == |bl|
  {
    && From(s, fs, i) <= fs[i] < |bl| && !IsBad(g, bl[fs[i]])
    && LeftIn(rd, g, bl[fs[i]], now[fs[i]], reqs[i]) && AllBad(Bads(g, now), From(s, fs, i), fs[i])
  }

  /** The image has landed in the blocks `fs`, in this order; blocks that were bad, blocks in
      front of the start and blocks behind the last one are untouched. */
  ghost predicate AllLand(rd: Reader, g: Geometry, c: Chip, reqs: seq<Request>, s: nat, p: nat, c': Chip, end: nat, fs: seq<nat>) {
    && |c'.blocks| == |c.blocks| && |fs| == |reqs|
    && (forall i | 0 <= i < |fs| :: LandsAt(rd, g, c.blocks, c'.blocks, reqs, s, fs, i))
    && (forall i, j | 0 <= i < j < |fs| :: fs[i] < fs[j])
    && (forall i | 0 <= i < |c.blocks| && (i < s || i >= From(s, fs, |fs|) || IsBad(g, c.blocks[i])) :: c'.blocks[i] == c.blocks[i])
    && end == if reqs == [] then p else At(fs[|fs| - 1], 0, g.ppb) + |reqs[|reqs| - 1].imgs|
  }

  /** The image is read back from where it started, up to where the last transfer ended. */
  ghost predicate ImageReadBack(rd: Reader, g: Geometry, bl: seq<Block>, p: nat, reqs: seq<Request>, end: nat)
    requires g.ppb > 0
  {
    ReadFrom(rd, g, bl, p, |Wanted(reqs)|) == Some((Wanted(reqs), end))
  }

  /** A later transfer, seen from before the first. */
  lemma {:induction false} LandsBehind(rd: Reader, g: Geometry, bl: seq<Block>, bl1: seq<Block>, now: seq<Block>, reqs: seq<Request>, s: nat,
                                       f: nat, s1: nat, fs1: seq<nat>, i: nat, j: nat)
    requires |now| == |bl| == |bl1| && |reqs| == |fs1| + 1 && i < |fs1| && j == i + 1 && s1 == f + 1
    requires f < fs1[i] && forall k | f < k < |bl| :: bl1[k] == bl[k]
    requires LandsAt(rd, g, bl1, now, reqs[1..], s1, fs1, i)
    ensures LandsAt(rd, g, bl, now, reqs, s, [f] + fs1, j)
  {
    assert From(s, [f] + fs1, j) == From(s1, fs1, i);
  }

  lemma {:induction false} LandFirst(rd: Reader, g: Geometry, c: Chip, reqs: seq<Request>, s: nat, c1: Chip, next: nat, f: nat, s1: nat,
                                     c': Chip, end: nat, fs1: seq<nat>)
    requires reqs != [] && s1 == f + 1 && ChecksIn(rd, g, c, reqs[0], s, c1, next, f)
    requires AllLand(rd, g, c1, reqs[1..], s1, next, c', end, fs1)
    ensures AllLand(rd, g, c, reqs, s, At(s, 0, g.ppb), c', end, [f] + fs1)
    ensures forall i | 0 <= i < s1 :: c'.blocks[i] == c1.blocks[i]
    ensures forall i | 0 <= i < |fs1| :: f < fs1[i] < |c.blocks|
  {
    var fs := [f] + fs1;
    forall i | 0 <= i < |fs1| ensures f < fs1[i] < |c.blocks| {
      assert LandsAt(rd, g, c1.blocks, c'.blocks, reqs[1..], s1, fs1, i);
      if i > 0 {
        assert fs1[0] < fs1[i] && LandsAt(rd, g, c1.blocks, c'.blocks, reqs[1..], s1, fs1, 0);
      }
    }
    forall j | 0 <= j < |fs| ensures LandsAt(rd, g, c.blocks, c'.blocks, reqs, s, fs, j) {
      if j == 0 {
        StillBad(g, c1.blocks, c'.blocks, s, f);
      } else {
        LandsBehind(rd, g, c.blocks, c1.blocks, c'.blocks, reqs, s, f, s1, fs1, j - 1, j);
      }
    }
    assert From(s, fs, |fs|) == From(s1, fs1, |fs1|);
  }

  /** Later transfers do not change what earlier ones are read over. */
  lemma {:induction false} AllReadFirst(rd: Reader, g: Geometry, c: Chip, reqs: seq<Request>, s: nat, c1: Chip, next: nat, f: nat, fs1: seq<nat>)
    requires reqs != [] && ChecksIn(rd, g, c, reqs[0], s, c1, next, f)
    requires |fs1| == |reqs| - 1 && forall i | 0 <= i < |fs1| :: f < fs1[i] < |c.blocks|
    ensures AllRead(rd, c.blocks, reqs, [f] + fs1) <==> ReadsOver(rd, c.blocks[f], reqs[0]) && AllRead(rd, c1.blocks, reqs[1..], fs1)
  {
    var fs, rest := [f] + fs1, reqs[1..];
    if AllRead(rd, c.blocks, reqs, fs) {
      assert OneReads(rd, c.blocks, reqs, fs, 0);
      forall i | 0 <= i < |rest| ensures OneReads(rd, c1.blocks, rest, fs1, i) {
        assert OneReads(rd, c.blocks, reqs, fs, i + 1);
      }
    }
    if ReadsOver(rd, c.blocks[f], reqs[0]) && AllRead(rd, c1.blocks, rest, fs1) {
      forall i | 0 <= i < |reqs| ensures OneReads(rd, c.blocks, reqs, fs, i) {
        if i > 0 {
          assert OneReads(rd, c1.blocks, rest, fs1, i - 1);
        }
      }
    }
  }

  lemma {:induction false} ImageReadBackFirst(rd: Reader, g: Geometry, bl: seq<Block>, reqs: seq<Request>, p: nat, back: seq<Chunk>, next: nat, end: nat)
    requires g.ppb > 0 && reqs != [] && |back| == |reqs[0].want| && ReadFrom(rd, g, bl, p, |back|) == Some((back, next))
    ensures ImageReadBack(rd, g, bl, p, reqs, end) <==> back == reqs[0].want && ImageReadBack(rd, g, bl, next, reqs[1..], end)
  {
    var rest := Wanted(reqs[1..]);
    ReadComposes(rd, g, bl, p, |back|, |rest|, |Wanted(reqs)|);
    var second := ReadFrom(rd, g, bl, next, |rest|);
    if second.Some? {
      SplitEqual(back, second.value.0, reqs[0].want, rest);
    }
  }

  lemma {:induction false} SplitEqual(a: seq<Chunk>, b: seq<Chunk>, x: seq<Chunk>, y: seq<Chunk>)
    requires |a| == |x|
    ensures a + b == x + y <==> a == x && b == y
  {
    if a + b == x + y {
      assert (a + b)[..|a|] == a && (x + y)[..|x|] == x;
      assert (a + b)[|a|..] == b && (x + y)[|x|..] == y;
    }
  }

  ghost predicate ImageFate(rd: Reader, g: Geometry, c: Chip, reqs: seq<Request>, s: nat, p: nat, c': Chip, end: nat, fs: seq<nat>)
    requires g.ppb > 0
  {
    && AllLand(rd, g, c, reqs, s, p, c', end, fs)
    && Beyond(Bads(g, c'.blocks), g.ppb, p, |Wanted(reqs)|, end)
    && (ImageReadBack(rd, g, c'.blocks, p, reqs, end) <==> AllRead(rd, c.blocks, reqs, fs))
  }

  lemma {:induction false} NothingSent(rd: Reader, g: Geometry, c: Chip, s: nat, p: nat)
    requires g.ppb > 0
    ensures ImageFate(rd, g, c, [], s, p, c, p, [])
  {
    BeyondHere(Bads(g, c.blocks), g.ppb, p);
    assert Deliver(rd, g, c.blocks, []) == [];
  }

  /** The first transfer's part in what is read at the end. */
  lemma {:induction false} FirstReads(rd: Reader, g: Geometry, c: Chip, reqs: seq<Request>, s: nat, c1: Chip, next: nat, f: nat, s1: nat,
                                      c': Chip, end: nat)
    requires g.Valid() && GoodBlocksValid(g, c.blocks, s) && reqs != [] && SoundRequests(g, reqs) && s1 == f + 1
    requires ChecksIn(rd, g, c, reqs[0], s, c1, next, f)
    requires |c'.blocks| == |c.blocks| && forall i | 0 <= i < s1 :: c'.blocks[i] == c1.blocks[i]
    requires Beyond(Bads(g, c'.blocks), g.ppb, next, |Wanted(reqs[1..])|, end)
    ensures Beyond(Bads(g, c'.blocks), g.ppb, At(s, 0, g.ppb), |Wanted(reqs)|, end)
    ensures ImageReadBack(rd, g, c'.blocks, At(s, 0, g.ppb), reqs, end)
       <==> ReadsOver(rd, c.blocks[f], reqs[0]) && ImageReadBack(rd, g, c'.blocks, next, reqs[1..], end)
  {
    var q, bad, rest := reqs[0], Bads(g, c'.blocks), |Wanted(reqs[1..])|;
    StillBad(g, c1.blocks, c'.blocks, s, f);
    if ReadsOver(rd, c.blocks[f], q) || |q.imgs| < g.ppb {
      LandedIsGood(g, c.blocks[f], q);
      var back := LandedReads(rd, g, c'.blocks, s, f, c.blocks[f], q);
      ImageReadBackFirst(rd, g, c'.blocks, reqs, At(s, 0, g.ppb), back, next, end);
      BeyondFirst(bad, g.ppb, s, f, |q.imgs|, next, rest, |Wanted(reqs)|, end);
    } else {
      BeyondFirst(bad, g.ppb, s, f, |q.imgs|, next, rest, |Wanted(reqs)|, end);
      RejectedIsPassed(bad, g.ppb, s, f, next, rest, |Wanted(reqs)|, end);
      PassedIsMissed(rd, g, c'.blocks, At(s, 0, g.ppb), reqs, |Wanted(reqs)|, end);
    }
  }

  /** A rejected block makes the read go on behind the end of the image. */
  lemma {:induction false} RejectedIsPassed(bad: seq<bool>, ppb: nat, s: nat, f: nat, next: nat, rest: nat, all: nat, end: nat)
    requires ppb > 0 && s <= f < |bad| && AllBad(bad, s, f) && bad[f] && next == At(f, 0, ppb) + ppb && all > rest
    requires Beyond(bad, ppb, next, rest, end)
    ensures EndsBehind(Walk(bad, ppb, At(s, 0, ppb), all), end)
  {
    AtStep(f, 0, ppb);
    WalkSkips(bad, ppb, s, f + 1, all);
    assert EndsBehind(Walk(bad, ppb, next, all), end);
  }

  lemma {:induction false} PassedIsMissed(rd: Reader, g: Geometry, bl: seq<Block>, p: nat, reqs: seq<Request>, all: nat, end: nat)
    requires g.ppb > 0 && all == |Wanted(reqs)| && EndsBehind(Walk(Bads(g, bl), g.ppb, p, all), end)
    ensures !ImageReadBack(rd, g, bl, p, reqs, end)
  {
  }

  /** Transfers of an image on any chip and under any failures, checked by the host or not: what
      is read from the start up to the page that was returned is the image if and only if each
      page of each transfer is read as it should be from the page it was programmed over. */
  lemma {:induction false} ImageReadsIff(rd: Reader, g: Geometry, c: Chip, reqs: seq<Request>, s: nat, p: nat, c': Chip, end: nat)
    returns (fs: seq<nat>)
    requires g.Valid() && Shaped(g, c) && GoodBlocksValid(g, c.blocks, s) && SoundRequests(g, reqs)
    requires (reqs != [] ==> p == At(s, 0, g.ppb)) && ProgramAll(rd, g, c, reqs, p) == Some((c', end))
    ensures fs == Landings(rd, g, c, reqs, p) && ImageFate(rd, g, c, reqs, s, p, c', end, fs)
    decreases |reqs|
  {
    if reqs == [] {
      fs := [];
      NothingSent(rd, g, c, s, p);
    } else {
      var c1, next, f, s1 := SendFirst(rd, g, c, reqs, s, p, c', end);
      var fs1 := ImageReadsIff(rd, g, c1, reqs[1..], s1, next, c', end);
      fs := [f] + fs1;
      LandFirst(rd, g, c, reqs, s, c1, next, f, s1, c', end, fs1);
      FirstReads(rd, g, c, reqs, s, c1, next, f, s1, c', end);
      AllReadFirst(rd, g, c, reqs, s, c1, next, f, fs1);
    }
  }

  lemma {:induction false} SendFirst(rd: Reader, g: Geometry, c: Chip, reqs: seq<Request>, s: nat, p: nat, c': Chip, end: nat)
    returns (c1: Chip, next: nat, f: nat, s1: nat)
    requires g.Valid() && Shaped(g, c) && GoodBlocksValid(g, c.blocks, s) && SoundRequests(g, reqs) && reqs != []
    requires p == At(s, 0, g.ppb) && ProgramAll(rd, g, c, reqs, p) == Some((c', end))
    ensures ChecksIn(rd, g, c, reqs[0], s, c1, next, f) && s1 == f + 1 && (|reqs| > 1 ==> next == At(s1, 0, g.ppb))
    ensures Shaped(g, c1) && GoodBlocksValid(g, c1.blocks, s1) && SoundRequests(g, reqs[1..])
    ensures ProgramAll(rd, g, c1, reqs[1..], next) == Some((c', end))
    ensures Landings(rd, g, c, reqs, p) == [f] + Landings(rd, g, c1, reqs[1..], next)
  {
    var checked := Checked(rd, g, c, reqs[0].imgs, reqs[0].want, p);
    c1, next := checked.value.0, checked.value.1;
    f := CheckLands(rd, g, c, reqs[0], s, c1, next);
    s1 := f + 1;
    AtStep(f, 0, g.ppb);
    EndsInBlock(f, |reqs[0].imgs|, g.ppb, next);
    ProgramAllStep(rd, g, c, reqs, p, c1, next);
    LandingsStep(rd, g, c, reqs, p, c1, next);
  }

  lemma {:induction false} LandingsStep(rd: Reader, g: Geometry, c: Chip, reqs: seq<Request>, p: nat, c1: Chip, next: nat)
    requires g.Valid() && reqs != [] && forall i | 0 <= i < |reqs| :: reqs[i].imgs != []
    requires Checked(rd, g, c, reqs[0].imgs, reqs[0].want, p) == Some((c1, next)) && next > 0
    ensures Landings(rd, g, c, reqs, p) == [Blk(next - 1, g.ppb)] + Landings(rd, g, c1, reqs[1..], next)
  {
  }
}
