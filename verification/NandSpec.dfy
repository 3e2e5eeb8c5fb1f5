/** The driver's page walk: reading, programming with restarts and erasing around bad
    blocks, as functions of the chip. `None` and `OffChip` stand for the walk leaving the
    chip, where the source would go on addressing rows that do not exist. */
module NandSpec {
  import opened Options
  import opened RsCode
  import opened Flash
  import opened PageNumbers

  // ----- the walk

  /** The pages reached from page `p` by a request for `n` pages, and the page it ends at.
      A bad block is passed over only when its first page is reached. */
  function Walk(bad: seq<bool>, ppb: nat, p: nat, n: nat): (r: Option<(seq<nat>, nat)>)
    requires ppb > 0
    ensures r.Some? ==> |r.value.0| == n && forall i | 0 <= i < n :: p <= r.value.0[i] && Blk(r.value.0[i], ppb) < |bad|
    ensures r.Some? && n > 0 ==> r.value.1 == r.value.0[n - 1] + 1
    decreases n, |bad| - Blk(p, ppb)
  {
    if n == 0 then Some(([], p))
    else if Blk(p, ppb) >= |bad| then None
    else if Idx(p, ppb) == 0 && bad[Blk(p, ppb)] then
      NextBlock(p, ppb);
      Walk(bad, ppb, p + ppb, n)
    else
      match Walk(bad, ppb, p + 1, n - 1)
      case None => None
      case Some((rest, end)) => Some(([p] + rest, end))
  }

  /** Two walks one behind the other. */
  function Then(first: Option<(seq<nat>, nat)>, second: Option<(seq<nat>, nat)>): Option<(seq<nat>, nat)> {
    if first == None || second == None then None
    else Some((first.value.0 + second.value.0, second.value.1))
  }

  lemma {:induction false} WalkPage(bad: seq<bool>, ppb: nat, p: nat, p1: nat, n: nat, n1: nat)
    requires ppb > 0 && n > 0 && Blk(p, ppb) < |bad| && !(Idx(p, ppb) == 0 && bad[Blk(p, ppb)])
    requires p1 == p + 1 && n1 == n - 1
    ensures Walk(bad, ppb, p, n) == Then(Some(([p], p1)), Walk(bad, ppb, p1, n1))
  {
  }

  lemma {:induction false} WalkPast(bad: seq<bool>, ppb: nat, p: nat, p1: nat, n: nat)
    requires ppb > 0 && n > 0 && Blk(p, ppb) < |bad| && Idx(p, ppb) == 0 && bad[Blk(p, ppb)] && p1 == p + ppb
    ensures Blk(p1, ppb) == Blk(p, ppb) + 1
    ensures Walk(bad, ppb, p, n) == Walk(bad, ppb, p1, n)
  {
    NextBlock(p, ppb);
  }

  lemma ThenAssociates(a: Option<(seq<nat>, nat)>, b: Option<(seq<nat>, nat)>, c: Option<(seq<nat>, nat)>)
    ensures Then(Then(a, b), c) == Then(a, Then(b, c))
  {
    if a.Some? && b.Some? && c.Some? {
      assert (a.value.0 + b.value.0) + c.value.0 == a.value.0 + (b.value.0 + c.value.0);
    }
  }

  /** A walk of `n` pages from where another ended. */
  function After(bad: seq<bool>, ppb: nat, first: Option<(seq<nat>, nat)>, n: nat): Option<(seq<nat>, nat)>
    requires ppb > 0
  {
    if first == None then None else Walk(bad, ppb, first.value.1, n)
  }

  lemma {:induction false} AfterThen(bad: seq<bool>, ppb: nat, p: nat, rest: Option<(seq<nat>, nat)>, whole: Option<(seq<nat>, nat)>, b: nat)
    requires ppb > 0 && whole == Then(rest, After(bad, ppb, rest, b))
    ensures var step := Some(([p], p + 1));
            Then(step, whole) == Then(Then(step, rest), After(bad, ppb, Then(step, rest), b))
  {
    ThenAssociates(Some(([p], p + 1)), rest, After(bad, ppb, rest, b));
  }

  ghost predicate Composes(bad: seq<bool>, ppb: nat, p: nat, a: nat, b: nat, n: nat)
    requires ppb > 0
  {
    var first := Walk(bad, ppb, p, a);
    Walk(bad, ppb, p, n) == Then(first, After(bad, ppb, first, b))
  }

  lemma {:induction false} ComposesPast(bad: seq<bool>, ppb: nat, p: nat, a: nat, b: nat, n: nat)
    requires ppb > 0 && a > 0 && n > 0 && Blk(p, ppb) < |bad| && Idx(p, ppb) == 0 && bad[Blk(p, ppb)]
    requires Composes(bad, ppb, p + ppb, a, b, n)
    ensures Composes(bad, ppb, p, a, b, n)
  {
    WalkPast(bad, ppb, p, p + ppb, n);
    WalkPast(bad, ppb, p, p + ppb, a);
  }

  lemma {:induction false} ComposesPage(bad: seq<bool>, ppb: nat, p: nat, a: nat, b: nat, n: nat)
    requires ppb > 0 && a > 0 && n > 0 && Blk(p, ppb) < |bad| && !(Idx(p, ppb) == 0 && bad[Blk(p, ppb)])
    requires Composes(bad, ppb, p + 1, a - 1, b, n - 1)
    ensures Composes(bad, ppb, p, a, b, n)
  {
    WalkPage(bad, ppb, p, p + 1, n, n - 1);
    WalkPage(bad, ppb, p, p + 1, a, a - 1);
    AfterThen(bad, ppb, p, Walk(bad, ppb, p + 1, a - 1), Walk(bad, ppb, p + 1, n - 1), b);
  }

  lemma {:induction false} ComposesZero(bad: seq<bool>, ppb: nat, p: nat, b: nat)
    requires ppb > 0
    ensures Composes(bad, ppb, p, 0, b, b)
  {
    var second := Walk(bad, ppb, p, b);
    assert second.Some? ==> [] + second.value.0 == second.value.0;
  }

  /** A request for n = a + b pages is a request for a pages followed by one for b pages from
      the page the first returned. */
  lemma {:induction false} WalkComposes(bad: seq<bool>, ppb: nat, p: nat, a: nat, b: nat, n: nat)
    requires ppb > 0 && n == a + b
    ensures Composes(bad, ppb, p, a, b, n)
    decreases a, |bad| - Blk(p, ppb)
  {
    if a == 0 {
      ComposesZero(bad, ppb, p, b);
    } else if Blk(p, ppb) >= |bad| {
    } else if Idx(p, ppb) == 0 && bad[Blk(p, ppb)] {
      NextBlock(p, ppb);
      WalkComposes(bad, ppb, p + ppb, a, b, n);
      ComposesPast(bad, ppb, p, a, b, n);
    } else {
      WalkComposes(bad, ppb, p + 1, a - 1, b, n - 1);
      ComposesPage(bad, ppb, p, a, b, n);
    }
  }

  /** Page `q` is where the walk goes from page `p`: to `p` itself, or, when `p` begins a bad
      block, to the start of the first block after it that is good. */
  ghost predicate NextPage(bad: seq<bool>, ppb: nat, p: nat, q: nat)
    requires ppb > 0
  {
    && p <= q && Blk(q, ppb) < |bad|
    && (Idx(q, ppb) == 0 ==> !bad[Blk(q, ppb)])
    && (q != p ==> Idx(p, ppb) == 0 && Idx(q, ppb) == 0 && forall k | Blk(p, ppb) <= k < Blk(q, ppb) :: bad[k])
  }

  lemma NextPagePast(bad: seq<bool>, ppb: nat, p: nat, q: nat)
    requires ppb > 0 && Blk(p, ppb) < |bad| && Idx(p, ppb) == 0 && bad[Blk(p, ppb)]
    requires NextPage(bad, ppb, p + ppb, q)
    ensures NextPage(bad, ppb, p, q)
  {
    NextBlock(p, ppb);
  }

  /** Every page of `ps` is where the walk goes from the page before it, from `p` on. */
  ghost predicate InOrder(bad: seq<bool>, ppb: nat, p: nat, ps: seq<nat>)
    requires ppb > 0
    decreases |ps|
  {
    ps == [] || (NextPage(bad, ppb, p, ps[0]) && InOrder(bad, ppb, ps[0] + 1, ps[1..]))
  }

  /** The walk visits exactly the pages of good blocks, in order, with nothing left out. */
  lemma {:induction false} WalkOrder(bad: seq<bool>, ppb: nat, p: nat, n: nat)
    requires ppb > 0
    ensures var r := Walk(bad, ppb, p, n); r.Some? ==> InOrder(bad, ppb, p, r.value.0)
    decreases n, |bad| - Blk(p, ppb)
  {
    if n > 0 && Blk(p, ppb) < |bad| {
      if Idx(p, ppb) == 0 && bad[Blk(p, ppb)] {
        WalkPast(bad, ppb, p, p + ppb, n);
        WalkOrder(bad, ppb, p + ppb, n);
        var r := Walk(bad, ppb, p, n);
        if r.Some? {
          NextPagePast(bad, ppb, p, r.value.0[0]);
        }
      } else {
        WalkPage(bad, ppb, p, p + 1, n, n - 1);
        WalkOrder(bad, ppb, p + 1, n - 1);
        var r := Walk(bad, ppb, p + 1, n - 1);
        assert r.Some? ==> ([p] + r.value.0)[1..] == r.value.0;
      }
    }
  }

  ghost predicate AllBad(bad: seq<bool>, a: nat, b: nat) {
    b <= |bad| && forall i | a <= i < b :: bad[i]
  }

  function Run(p: nat, n: nat): (r: seq<nat>)
    ensures |r| == n
  {
    seq(n, i => p + i)
  }

  lemma RunCons(p: nat, n: nat)
    requires n > 0
    ensures Run(p, n) == [p] + Run(p + 1, n - 1)
  {
  }

  lemma {:induction false} WalkInBlock(bad: seq<bool>, ppb: nat, b: nat, k: nat, n: nat)
    requires b < |bad| && k + n <= ppb && ppb > 0 && (k == 0 ==> !bad[b])
    ensures Walk(bad, ppb, At(b, k, ppb), n) == Some((Run(At(b, k, ppb), n), At(b, k, ppb) + n))
    decreases n
  {
    if n == 0 {
      assert Run(At(b, k, ppb), 0) == [];
    } else {
      Split(b, k, ppb);
      AtStep(b, k, ppb);
      WalkInBlock(bad, ppb, b, k + 1, n - 1);
      RunCons(At(b, k, ppb), n);
    }
  }

  lemma {:induction false} WalkSkips(bad: seq<bool>, ppb: nat, a: nat, b: nat, n: nat)
    requires ppb > 0 && a <= b && AllBad(bad, a, b) && n > 0
    ensures Walk(bad, ppb, At(a, 0, ppb), n) == Walk(bad, ppb, At(b, 0, ppb), n)
    decreases b - a
  {
    if a < b {
      Split(a, 0, ppb);
      AtStep(a, 0, ppb);
      WalkSkips(bad, ppb, a + 1, b, n);
    }
  }

  // ----- reading

  type Chunk = seq<byte>

  /** How a page is turned into the bytes delivered for it. */
  type Reader = Page -> Chunk

  function Bads(g: Geometry, bl: seq<Block>): (r: seq<bool>)
    ensures |r| == |bl|
    ensures forall i | 0 <= i < |r| :: r[i] == IsBad(g, bl[i])
  {
    seq(|bl|, i requires 0 <= i < |bl| => IsBad(g, bl[i]))
  }

  function PageAt(g: Geometry, bl: seq<Block>, p: nat): Page
    requires g.ppb > 0 && Blk(p, g.ppb) < |bl|
  {
    var blk := bl[Blk(p, g.ppb)];
    if Idx(p, g.ppb) < |blk| then blk[Idx(p, g.ppb)] else Page([], [])
  }

  function Deliver(rd: Reader, g: Geometry, bl: seq<Block>, ps: seq<nat>): (r: seq<Chunk>)
    requires g.ppb > 0 && forall i | 0 <= i < |ps| :: Blk(ps[i], g.ppb) < |bl|
    ensures |r| == |ps|
    ensures forall i | 0 <= i < |ps| :: r[i] == rd(PageAt(g, bl, ps[i]))
  {
    seq(|ps|, i requires 0 <= i < |ps| => rd(PageAt(g, bl, ps[i])))
  }

  /** What a read of `n` pages from page `p` delivers, page by page, and where it ends. */
  function ReadFrom(rd: Reader, g: Geometry, bl: seq<Block>, p: nat, n: nat): (r: Option<(seq<Chunk>, nat)>)
    requires g.ppb > 0
    ensures r.Some? ==> |r.value.0| == n
  {
    match Walk(Bads(g, bl), g.ppb, p, n)
    case None => None
    case Some((ps, end)) => Some((Deliver(rd, g, bl, ps), end))
  }

  /** Reading n = a + b pages is reading a pages and then b pages from the page returned. */
  lemma ReadComposes(rd: Reader, g: Geometry, bl: seq<Block>, p: nat, a: nat, b: nat, n: nat)
    requires g.ppb > 0 && n == a + b
    ensures ReadFrom(rd, g, bl, p, n) ==
            match ReadFrom(rd, g, bl, p, a)
            case None => None
            case Some((first, mid)) =>
              match ReadFrom(rd, g, bl, mid, b)
              case None => None
              case Some((second, end)) => Some((first + second, end))
  {
    WalkComposes(Bads(g, bl), g.ppb, p, a, b, n);
    match Walk(Bads(g, bl), g.ppb, p, a)
    case None =>
    case Some((ps, mid)) =>
      match Walk(Bads(g, bl), g.ppb, mid, b)
      case None =>
      case Some((qs, end)) =>
        DeliverConcat(rd, g, bl, ps, qs);
  }

  lemma ReadTwo(rd: Reader, g: Geometry, bl: seq<Block>, p: nat, first: seq<Chunk>, mid: nat, second: seq<Chunk>, end: nat)
    requires g.ppb > 0
    requires ReadFrom(rd, g, bl, p, |first|) == Some((first, mid))
    requires ReadFrom(rd, g, bl, mid, |second|) == Some((second, end))
    ensures ReadFrom(rd, g, bl, p, |first + second|) == Some((first + second, end))
  {
    ReadComposes(rd, g, bl, p, |first|, |second|, |first + second|);
  }

  lemma DeliverConcat(rd: Reader, g: Geometry, bl: seq<Block>, ps: seq<nat>, qs: seq<nat>)
    requires g.ppb > 0
    requires forall i | 0 <= i < |ps| :: Blk(ps[i], g.ppb) < |bl|
    requires forall i | 0 <= i < |qs| :: Blk(qs[i], g.ppb) < |bl|
    ensures forall i | 0 <= i < |ps + qs| :: Blk((ps + qs)[i], g.ppb) < |bl|
    ensures Deliver(rd, g, bl, ps + qs) == Deliver(rd, g, bl, ps) + Deliver(rd, g, bl, qs)
  {
  }

  // ----- programming

  /** What is to be stored on one page: nothing for a chunk of 0xff. */
  type Image = Option<Page>

  ghost predicate ValidImages(g: Geometry, imgs: seq<Image>) {
    forall i | 0 <= i < |imgs| && imgs[i].Some? :: ValidPage(g, imgs[i].value)
  }

  /** How one pass over the pages ends: off the chip, at the end, or at the page whose
      programming failed. */
  datatype Outcome =
    | OffChip
    | Done(c: Chip, end: nat)
    | Failed(c: Chip, page: nat)

  function Fails(st: seq<Status>): nat {
    if st == [] then 0 else (if st[0].Fail? then 1 else 0) + Fails(st[1..])
  }

  function Attempt(g: Geometry, c: Chip, imgs: seq<Image>, p: nat): (r: Outcome)
    requires g.Valid()
    ensures !r.OffChip? ==> |r.c.blocks| == |c.blocks| && |r.c.status| <= |c.status|
    ensures r.Failed? ==> Blk(r.page, g.ppb) < |c.blocks| && |r.c.status| < |c.status|
    decreases |imgs|, |c.blocks| - Blk(p, g.ppb)
  {
    if imgs == [] then Done(c, p)
    else if Blk(p, g.ppb) >= |c.blocks| then OffChip
    else if Idx(p, g.ppb) == 0 && IsBad(g, c.blocks[Blk(p, g.ppb)]) then
      NextBlock(p, g.ppb);
      Attempt(g, c, imgs, p + g.ppb)
    else if imgs[0].None? then
      Attempt(g, c, imgs[1..], p + 1)
    else
      var c1 := ProgramPage(c, Blk(p, g.ppb), Idx(p, g.ppb), imgs[0].value);
      if NextStatus(c).Fail? then Failed(c1, p) else Attempt(g, c1, imgs[1..], p + 1)
  }

  /** nand_erase of one block with the force flag set. */
  function EraseOne(g: Geometry, c: Chip, b: nat): (r: Chip)
    requires g.Valid() && b < |c.blocks|
    ensures |r.blocks| == |c.blocks| && |r.status| <= |c.status|
  {
    var c1 := EraseBlock(g, c, b);
    if NextStatus(c).Fail? then MarkBad(g, c1, b) else c1
  }

  /** The chip after a failed program has been cleaned up: the block erased and marked. */
  function CleanedUp(g: Geometry, c: Chip, b: nat): (r: Chip)
    requires g.Valid() && b < |c.blocks|
    ensures |r.blocks| == |c.blocks| && |r.status| <= |c.status|
  {
    MarkBad(g, EraseOne(g, c, b), b)
  }

  /** nand_program: a failed page erases and marks its block and starts the whole request
      again one block further on. */
  function Program(g: Geometry, c: Chip, imgs: seq<Image>, spage: nat): (r: Option<(Chip, nat)>)
    requires g.Valid()
    ensures r.Some? ==> |r.value.0.blocks| == |c.blocks|
    decreases |c.status|
  {
    match Attempt(g, c, imgs, spage)
    case OffChip => None
    case Done(c1, end) => Some((c1, end))
    case Failed(c1, page) =>
      Program(g, CleanedUp(g, c1, Blk(page, g.ppb)), imgs, spage + g.ppb)
  }

  /** One pass, and what it leads to; `p1` is where a restart would begin. */
  lemma {:induction false} ProgramByPass(g: Geometry, c: Chip, imgs: seq<Image>, p: nat, p1: nat)
    requires g.Valid() && p1 == p + g.ppb
    ensures match Attempt(g, c, imgs, p)
            case OffChip => Program(g, c, imgs, p) == None
            case Done(c1, end) => Program(g, c, imgs, p) == Some((c1, end))
            case Failed(c1, page) => Program(g, c, imgs, p) == Program(g, CleanedUp(g, c1, Blk(page, g.ppb)), imgs, p1)
  {
  }

  /** A block after a run of images has been programmed into it from page `k` on. */
  function WriteBlock(blk: Block, k: nat, imgs: seq<Image>): (r: Block)
    requires k + |imgs| <= |blk|
    ensures |r| == |blk|
    decreases |imgs|
  {
    if imgs == [] then blk
    else if imgs[0].None? then WriteBlock(blk, k + 1, imgs[1..])
    else WriteBlock(blk[k := AndPage(blk[k], imgs[0].value)], k + 1, imgs[1..])
  }

  lemma {:induction false} WriteBlockPages(blk: Block, k: nat, imgs: seq<Image>, i: nat)
    requires k + |imgs| <= |blk| && i < |blk|
    ensures WriteBlock(blk, k, imgs)[i] ==
            if k <= i < k + |imgs| && imgs[i - k].Some? then AndPage(blk[i], imgs[i - k].value) else blk[i]
    decreases |imgs|
  {
    if imgs == [] {
    } else if imgs[0].None? {
      WriteBlockPages(blk, k + 1, imgs[1..], i);
    } else {
      WriteBlockPages(blk[k := AndPage(blk[k], imgs[0].value)], k + 1, imgs[1..], i);
    }
  }

  /** A pass that stays inside one block either writes the whole run or fails in that block,
      and touches no other block. */
  ghost predicate StaysInBlock(g: Geometry, c: Chip, imgs: seq<Image>, b: nat, k: nat, r: Outcome)
    requires b < |c.blocks| && k + |imgs| <= |c.blocks[b]|
  {
    match r
    case OffChip => false
    case Done(c1, end) =>
      && end == At(b, k, g.ppb) + |imgs|
      && c1.blocks == c.blocks[b := WriteBlock(c.blocks[b], k, imgs)]
      && Fails(c1.status) == Fails(c.status)
    case Failed(c1, page) =>
      && g.ppb > 0 && Blk(page, g.ppb) == b
      && |c1.blocks| == |c.blocks| && |c1.blocks[b]| == |c.blocks[b]|
      && (forall i | 0 <= i < |c.blocks| && i != b :: c1.blocks[i] == c.blocks[i])
      && Fails(c1.status) < Fails(c.status)
  }

  lemma {:induction false} AttemptInBlock(g: Geometry, c: Chip, imgs: seq<Image>, b: nat, k: nat)
    requires g.Valid() && b < |c.blocks| && |c.blocks[b]| == g.ppb
    requires k + |imgs| <= g.ppb && (k == 0 ==> !IsBad(g, c.blocks[b]))
    ensures StaysInBlock(g, c, imgs, b, k, Attempt(g, c, imgs, At(b, k, g.ppb)))
    decreases |imgs|
  {
    if imgs == [] {
    } else {
      Split(b, k, g.ppb);
      AtStep(b, k, g.ppb);
      if imgs[0].None? {
        AttemptInBlock(g, c, imgs[1..], b, k + 1);
      } else if !NextStatus(c).Fail? {
        var c1 := ProgramPage(c, b, k, imgs[0].value);
        AttemptInBlock(g, c1, imgs[1..], b, k + 1);
      }
    }
  }

  lemma {:induction false} AttemptSkips(g: Geometry, c: Chip, imgs: seq<Image>, a: nat, b: nat)
    requires g.Valid() && imgs != []
    requires a <= b && AllBad(Bads(g, c.blocks), a, b)
    ensures Attempt(g, c, imgs, At(a, 0, g.ppb)) == Attempt(g, c, imgs, At(b, 0, g.ppb))
    decreases b - a
  {
    if a < b {
      Split(a, 0, g.ppb);
      AtStep(a, 0, g.ppb);
      assert Bads(g, c.blocks)[a];
      AttemptSkips(g, c, imgs, a + 1, b);
    }
  }
}
