/** Reading back what was programmed, one request after another. */
module Flashing {
  import opened Options
  import opened Flash
  import opened PageNumbers
  import opened NandSpec
  import opened Programming

  /** The stored images, and the erased pages between them, are read as `want`. */
  ghost predicate ReadsAs(rd: Reader, g: Geometry, imgs: seq<Image>, want: seq<Chunk>) {
    && |want| == |imgs|
    && forall i | 0 <= i < |imgs| :: rd(if imgs[i].Some? then imgs[i].value else ErasedPage(g)) == want[i]
  }

  lemma PayloadPageAt(g: Geometry, bl: seq<Block>, f: nat, imgs: seq<Image>, i: nat)
    requires g.Valid() && f < |bl| && ValidImages(g, imgs) && |imgs| <= g.ppb && i < |imgs|
    requires bl[f] == PayloadBlock(g, imgs)
    ensures Blk(Run(At(f, 0, g.ppb), |imgs|)[i], g.ppb) == f
    ensures PageAt(g, bl, Run(At(f, 0, g.ppb), |imgs|)[i]) == if imgs[i].Some? then imgs[i].value else ErasedPage(g)
  {
    AtIsLinear(f, i, g.ppb);
    Split(f, i, g.ppb);
    PayloadPage(g, imgs, i);
  }

  lemma DeliverPayload(rd: Reader, g: Geometry, bl: seq<Block>, f: nat, imgs: seq<Image>, want: seq<Chunk>)
    requires g.Valid() && f < |bl| && ValidImages(g, imgs) && |imgs| <= g.ppb
    requires bl[f] == PayloadBlock(g, imgs) && ReadsAs(rd, g, imgs, want)
    ensures forall i | 0 <= i < |imgs| :: Blk(Run(At(f, 0, g.ppb), |imgs|)[i], g.ppb) < |bl|
    ensures Deliver(rd, g, bl, Run(At(f, 0, g.ppb), |imgs|)) == want
  {
    var ps := Run(At(f, 0, g.ppb), |imgs|);
    forall i | 0 <= i < |imgs|
      ensures Blk(ps[i], g.ppb) == f && rd(PageAt(g, bl, ps[i])) == want[i]
    {
      PayloadPageAt(g, bl, f, imgs, i);
    }
  }

  /** A request that landed in block `f` is read back from where it started, past the bad
      blocks, and the read ends where the request ended. */
  lemma {:induction false} ReadLanded(rd: Reader, g: Geometry, bl: seq<Block>, s: nat, f: nat, imgs: seq<Image>, want: seq<Chunk>)
    requires g.Valid() && ValidImages(g, imgs) && 0 < |imgs| <= g.ppb && ImagesKeepMark(g, imgs)
    requires s <= f < |bl| && AllBad(Bads(g, bl), s, f)
    requires bl[f] == PayloadBlock(g, imgs) && ReadsAs(rd, g, imgs, want)
    ensures ReadFrom(rd, g, bl, At(s, 0, g.ppb), |imgs|) == Some((want, At(f, 0, g.ppb) + |imgs|))
  {
    PayloadIsGood(g, imgs);
    WalkSkips(Bads(g, bl), g.ppb, s, f, |imgs|);
    WalkInBlock(Bads(g, bl), g.ppb, f, 0, |imgs|);
    DeliverPayload(rd, g, bl, f, imgs, want);
  }

  // ----- many requests

  /** The host's chunk loop: program a request, read it back, mark the last block bad if the
      comparison fails at a block end, and go on at the page the read returned. */
  function Checked(rd: Reader, g: Geometry, c: Chip, imgs: seq<Image>, want: seq<Chunk>, p: nat): (r: Option<(Chip, nat)>)
    requires g.Valid() && imgs != []
    ensures r.Some? ==> |r.value.0.blocks| == |c.blocks|
  {
    match Program(g, c, imgs, p)
    case None => None
    case Some((c1, _)) =>
      match ReadFrom(rd, g, c1.blocks, p, |imgs|)
      case None => None
      case Some((back, cur)) =>
        if back != want && Idx(cur, g.ppb) == 0 then Some((MarkBad(g, c1, Blk(cur - 1, g.ppb)), cur))
        else Some((c1, cur))
  }

  /** One bulk transfer: the images of its pages, and what they are to be read back as. */
  datatype Request = Request(imgs: seq<Image>, want: seq<Chunk>)

  ghost predicate GoodRequest(rd: Reader, g: Geometry, q: Request) {
    && 0 < |q.imgs| <= g.ppb
    && ValidImages(g, q.imgs) && ImagesKeepMark(g, q.imgs) && ReadsAs(rd, g, q.imgs, q.want)
  }

  /** Requests as the host cuts them: whole blocks, and a last one that may be shorter. */
  ghost predicate GoodRequests(rd: Reader, g: Geometry, reqs: seq<Request>) {
    forall i | 0 <= i < |reqs| :: GoodRequest(rd, g, reqs[i]) && (i + 1 < |reqs| ==> |reqs[i].imgs| == g.ppb)
  }

  function ProgramAll(rd: Reader, g: Geometry, c: Chip, reqs: seq<Request>, p: nat): (r: Option<(Chip, nat)>)
    requires g.Valid() && forall i | 0 <= i < |reqs| :: reqs[i].imgs != []
    decreases |reqs|
  {
    if reqs == [] then Some((c, p))
    else
      match Checked(rd, g, c, reqs[0].imgs, reqs[0].want, p)
      case None => None
      case Some((c1, next)) => ProgramAll(rd, g, c1, reqs[1..], next)
  }

  function Wanted(reqs: seq<Request>): seq<Chunk> {
    if reqs == [] then [] else reqs[0].want + Wanted(reqs[1..])
  }

  /** The check after a request that landed succeeds, so the host marks nothing. */
  lemma {:induction false} CheckPasses(rd: Reader, g: Geometry, c: Chip, q: Request, s: nat, p: nat, k: nat, hi: nat)
    returns (f: nat, n: nat, c1: Chip, next: nat)
    requires g.Valid() && Shaped(g, c) && GoodRequest(rd, g, q) && p == At(s, 0, g.ppb)
    requires hi <= |c.blocks| && k > Fails(c.status) && ErasedGood(g, c.blocks, s, k, hi)
    ensures Checked(rd, g, c, q.imgs, q.want, p) == Some((c1, next))
    ensures Landed(g, c, q.imgs, s, n, c1, next, f, hi) && |c1.blocks| == |c.blocks|
    ensures n + 1 + Fails(c.status) >= k + Fails(c1.status)
  {
    f, n := ProgramLands(g, c, q.imgs, s, k, hi);
    c1, next := Program(g, c, q.imgs, p).value.0, Program(g, c, q.imgs, p).value.1;
    ReadLanded(rd, g, c1.blocks, s, f, q.imgs, q.want);
  }

  /** What a whole image leaves behind. */
  ghost predicate Flashed(rd: Reader, g: Geometry, c: Chip, reqs: seq<Request>, s: nat, r: Option<(Chip, nat)>, hi: nat)
    requires g.ppb > 0
  {
    match r
    case None => false
    case Some((c', end)) =>
      && |c'.blocks| == |c.blocks|
      && (forall i | 0 <= i < |c.blocks| && (i < s || i >= hi || IsBad(g, c.blocks[i])) :: c'.blocks[i] == c.blocks[i])
      && ReadFrom(rd, g, c'.blocks, At(s, 0, g.ppb), |Wanted(reqs)|) == Some((Wanted(reqs), end))
  }

  lemma {:induction false} FlashedLast(rd: Reader, g: Geometry, c: Chip, q: Request, s: nat, f: nat, n: nat, c1: Chip, next: nat, hi: nat)
    requires g.Valid() && GoodRequest(rd, g, q)
    requires hi <= |c.blocks| && Landed(g, c, q.imgs, s, n, c1, next, f, hi)
    ensures Flashed(rd, g, c, [q], s, Some((c1, next)), hi)
  {
    assert Wanted([q]) == q.want;
    ReadLanded(rd, g, c1.blocks, s, f, q.imgs, q.want);
  }

  /** Reading over a block boundary: a whole block that landed, and then the rest. */
  lemma {:induction false} ReadOn(rd: Reader, g: Geometry, bl: seq<Block>, q: Request, rest: seq<Chunk>, s: nat, f: nat, end: nat)
    requires g.Valid() && GoodRequest(rd, g, q) && |q.imgs| == g.ppb
    requires s <= f < |bl| && AllBad(Bads(g, bl), s, f) && bl[f] == PayloadBlock(g, q.imgs)
    requires ReadFrom(rd, g, bl, At(f + 1, 0, g.ppb), |rest|) == Some((rest, end))
    ensures ReadFrom(rd, g, bl, At(s, 0, g.ppb), |q.want + rest|) == Some((q.want + rest, end))
  {
    AtStep(f, 0, g.ppb);
    ReadLanded(rd, g, bl, s, f, q.imgs, q.want);
    ReadTwo(rd, g, bl, At(s, 0, g.ppb), q.want, At(f + 1, 0, g.ppb), rest, end);
  }

  lemma {:induction false} FlashedMore(rd: Reader, g: Geometry, c: Chip, reqs: seq<Request>, s: nat, f: nat, s1: nat, n: nat, c1: Chip, next: nat, r: Option<(Chip, nat)>, hi: nat)
    requires g.Valid() && |reqs| > 0 && GoodRequest(rd, g, reqs[0]) && |reqs[0].imgs| == g.ppb
    requires hi <= |c.blocks| && Landed(g, c, reqs[0].imgs, s, n, c1, next, f, hi)
    requires s1 == f + 1 && Flashed(rd, g, c1, reqs[1..], s1, r, hi)
    ensures Flashed(rd, g, c, reqs, s, r, hi)
  {
    var (c', end) := r.value;
    forall i | s <= i < f ensures Bads(g, c'.blocks)[i] {
      assert Bads(g, c1.blocks)[i];
    }
    ReadOn(rd, g, c'.blocks, reqs[0], Wanted(reqs[1..]), s, f, end);
  }

  lemma ProgramAllStep(rd: Reader, g: Geometry, c: Chip, reqs: seq<Request>, p: nat, c1: Chip, next: nat)
    requires g.Valid() && reqs != [] && forall i | 0 <= i < |reqs| :: reqs[i].imgs != []
    requires Checked(rd, g, c, reqs[0].imgs, reqs[0].want, p) == Some((c1, next))
    ensures ProgramAll(rd, g, c, reqs, p) == ProgramAll(rd, g, c1, reqs[1..], next)
  {
  }

  lemma {:induction false} FlashOne(rd: Reader, g: Geometry, c: Chip, q: Request, s: nat, p: nat, k: nat, hi: nat)
    requires g.Valid() && Shaped(g, c) && GoodRequest(rd, g, q) && p == At(s, 0, g.ppb)
    requires hi <= |c.blocks| && k > Fails(c.status) && ErasedGood(g, c.blocks, s, k, hi)
    ensures Flashed(rd, g, c, [q], s, ProgramAll(rd, g, c, [q], p), hi)
  {
    var f, n, c1, next := CheckPasses(rd, g, c, q, s, p, k, hi);
    FlashedLast(rd, g, c, q, s, f, n, c1, next, hi);
    ProgramAllStep(rd, g, c, [q], p, c1, next);
  }

  /** The first of several requests, and the `k1` erased blocks left for the others, which go
      on at block `s1`. */
  lemma {:induction false} FlashFirst(rd: Reader, g: Geometry, c: Chip, reqs: seq<Request>, s: nat, p: nat, k: nat, hi: nat)
    returns (f: nat, s1: nat, k1: nat, c1: Chip, next: nat)
    requires g.Valid() && Shaped(g, c) && |reqs| > 1 && GoodRequests(rd, g, reqs) && p == At(s, 0, g.ppb)
    requires hi <= |c.blocks| && |reqs| + Fails(c.status) <= k && ErasedGood(g, c.blocks, s, k, hi)
    ensures Landed(g, c, reqs[0].imgs, s, k1, c1, next, f, hi)
    ensures ProgramAll(rd, g, c, reqs, p) == ProgramAll(rd, g, c1, reqs[1..], next) && s1 == f + 1 && next == At(s1, 0, g.ppb)
    ensures |c1.blocks| == |c.blocks| && Shaped(g, c1) && k1 >= |reqs| - 1 + Fails(c1.status) && ErasedGood(g, c1.blocks, s1, k1, hi)
  {
    f, k1, c1, next := CheckPasses(rd, g, c, reqs[0], s, p, k, hi);
    s1 := f + 1;
    AtStep(f, 0, g.ppb);
    ProgramAllStep(rd, g, c, reqs, p, c1, next);
  }

  /** Flashing a whole image: with one erased good block for each request and one more for
      each failure to come, every request is stored and checked, and reading from the start
      page afterwards delivers the image. Blocks before the start and blocks that were bad
      are untouched. */
  lemma {:induction false} FlashAll(rd: Reader, g: Geometry, c: Chip, reqs: seq<Request>, s: nat, p: nat, k: nat, hi: nat)
    requires g.Valid() && Shaped(g, c) && GoodRequests(rd, g, reqs) && p == At(s, 0, g.ppb)
    requires hi <= |c.blocks| && k >= |reqs| + Fails(c.status) && ErasedGood(g, c.blocks, s, k, hi)
    ensures Flashed(rd, g, c, reqs, s, ProgramAll(rd, g, c, reqs, p), hi)
    decreases |reqs|, 1
  {
    if |reqs| == 1 {
      assert reqs == [reqs[0]];
      FlashOne(rd, g, c, reqs[0], s, p, k, hi);
    } else if |reqs| > 1 {
      FlashMany(rd, g, c, reqs, s, p, k, hi);
    } else {
      assert Wanted(reqs) == [] && Deliver(rd, g, c.blocks, []) == [];
    }
  }

  lemma {:induction false} FlashMany(rd: Reader, g: Geometry, c: Chip, reqs: seq<Request>, s: nat, p: nat, k: nat, hi: nat)
    requires g.Valid() && Shaped(g, c) && |reqs| > 1 && GoodRequests(rd, g, reqs) && p == At(s, 0, g.ppb)
    requires hi <= |c.blocks| && k >= |reqs| + Fails(c.status) && ErasedGood(g, c.blocks, s, k, hi)
    ensures Flashed(rd, g, c, reqs, s, ProgramAll(rd, g, c, reqs, p), hi)
    decreases |reqs|, 0
  {
    var rest := reqs[1..];
    var f, s1, k1, c1, next := FlashFirst(rd, g, c, reqs, s, p, k, hi);
    FlashAll(rd, g, c1, rest, s1, next, k1, hi);
    FlashedMore(rd, g, c, reqs, s, f, s1, k1, c1, next, ProgramAll(rd, g, c1, rest, next), hi);
  }
}
