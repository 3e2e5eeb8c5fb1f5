/** What a read leaves for the host: the bytes of the pages of the walk, and the error word in
    terms of what the engine reports on their sectors and of the parity stored with them. */
module ReadResult {
  import opened Options
  import opened RsCode
  import opened Flash
  import opened PageFormat
  import opened PageNumbers
  import opened NandSpec
  import opened ImageFile
  import opened Splices
  import opened Buffers

  // ----- one page

  /** What the engine reports when it is given sector `j` of the page and its nine parity bytes. */
  function SectorReport(rs: Engine, g: Geometry, p: Page, j: nat): Report
    requires g.Valid() && ValidPage(g, p) && j < g.Sectors()
  {
    rs.decode(p.data[ECC_BLOCK * j..ECC_BLOCK * j + ECC_BLOCK], p.oob[g.eccpos + PAR_SIZE * j..g.eccpos + PAR_SIZE * j + PAR_SIZE])
  }

  /** The engine gives up on the sector, and its parity is not that of an erased page. */
  ghost predicate GivenUp(rs: Engine, g: Geometry, p: Page, j: nat)
    requires g.Valid() && ValidPage(g, p)
  {
    && j < g.Sectors() && SectorReport(rs, g, p, j) == Uncorrectable
    && exists i | g.eccpos + PAR_SIZE * j <= i < g.eccpos + PAR_SIZE * j + PAR_SIZE :: p.oob[i] != 0xff
  }

  /** The engine reports corrections for the sector. */
  ghost predicate Repaired(rs: Engine, g: Geometry, p: Page, j: nat)
    requires g.Valid() && ValidPage(g, p)
  {
    j < g.Sectors() && SectorReport(rs, g, p, j).Errors?
  }

  ghost predicate NoneRepaired(rs: Engine, g: Geometry, p: Page, a: nat, b: nat)
    requires g.Valid() && ValidPage(g, p)
  {
    forall j | a <= j < b :: !Repaired(rs, g, p, j)
  }

  /** Among the first `n` sectors, `j` is given up and none behind it is repaired. */
  ghost predicate StaysGivenUp(rs: Engine, g: Geometry, p: Page, j: nat, n: nat)
    requires g.Valid() && ValidPage(g, p)
  {
    j < n && GivenUp(rs, g, p, j) && NoneRepaired(rs, g, p, j + 1, n)
  }

  ghost predicate SomeGivenUp(rs: Engine, g: Geometry, p: Page, n: nat)
    requires g.Valid() && ValidPage(g, p)
  {
    exists j :: StaysGivenUp(rs, g, p, j, n)
  }

  lemma VerdictMeans(rs: Engine, g: Geometry, p: Page, j: nat, v: Verdict)
    requires g.Valid() && ValidPage(g, p) && j < g.Sectors()
    requires v == VerdictOf(rs, Sector(p.data, j), StoredParity(g, p)[PAR_SIZE * j..PAR_SIZE * j + PAR_SIZE])
    ensures v == Lost <==> GivenUp(rs, g, p, j)
    ensures v == Fixed <==> Repaired(rs, g, p, j)
  {
    var par := StoredParity(g, p)[PAR_SIZE * j..PAR_SIZE * j + PAR_SIZE];
    SpareOfSector(g, p, j);
    NotErased(p.oob, g.eccpos + PAR_SIZE * j, PAR_SIZE, par);
  }

  lemma NotErased(s: seq<byte>, from: nat, n: nat, part: seq<byte>)
    requires from + n <= |s| && part == s[from..from + n]
    ensures part != Ones(n) <==> exists i | from <= i < from + n :: s[i] != 0xff
  {
    if i :| from <= i < from + n && s[i] != 0xff {
      assert part[i - from] != Ones(n)[i - from];
    } else {
      assert part == Ones(n);
    }
  }

  /** One more sector. */
  lemma OneMore(rs: Engine, g: Geometry, p: Page, n: nat, m: nat)
    requires g.Valid() && ValidPage(g, p) && m == n + 1 <= g.Sectors()
    ensures SomeGivenUp(rs, g, p, m) <==> GivenUp(rs, g, p, n) || (SomeGivenUp(rs, g, p, n) && !Repaired(rs, g, p, n))
    ensures NoneRepaired(rs, g, p, 0, m) <==> NoneRepaired(rs, g, p, 0, n) && !Repaired(rs, g, p, n)
  {
    if GivenUp(rs, g, p, n) {
      assert StaysGivenUp(rs, g, p, n, m);
    } else if SomeGivenUp(rs, g, p, m) {
      var j :| StaysGivenUp(rs, g, p, j, m);
      assert StaysGivenUp(rs, g, p, j, n);
    } else if SomeGivenUp(rs, g, p, n) && !Repaired(rs, g, p, n) {
      var j :| StaysGivenUp(rs, g, p, j, n);
      assert StaysGivenUp(rs, g, p, j, m);
    }
  }

  /** The word after the first `n` sectors of a page. */
  lemma {:induction false} SectorsSay(rs: Engine, g: Geometry, p: Page, flag: bool, n: nat)
    requires g.Valid() && ValidPage(g, p) && n <= g.Sectors()
    ensures SayAll(flag, SectorVerdicts(rs, p.data, StoredParity(g, p), n))
        <==> SomeGivenUp(rs, g, p, n) || (flag && NoneRepaired(rs, g, p, 0, n))
    decreases n
  {
    var par := StoredParity(g, p);
    if n > 0 {
      var m := n - 1;
      var v := VerdictOf(rs, Sector(p.data, m), par[PAR_SIZE * m..PAR_SIZE * m + PAR_SIZE]);
      SectorsSay(rs, g, p, flag, m);
      VerdictStep(rs, p.data, par, m, n, Sector(p.data, m), par[PAR_SIZE * m..PAR_SIZE * m + PAR_SIZE]);
      SayAppend(flag, SectorVerdicts(rs, p.data, par, m), [v]);
      VerdictMeans(rs, g, p, m, v);
      OneMore(rs, g, p, m, n);
      assert SayAll(SayAll(flag, SectorVerdicts(rs, p.data, par, m)), [v]) == Say(SayAll(flag, SectorVerdicts(rs, p.data, par, m)), v);
    }
  }

  // ----- the pages of a read

  ghost predicate ValidPages(g: Geometry, pages: seq<Page>) {
    forall i | 0 <= i < |pages| :: ValidPage(g, pages[i])
  }

  /** The pages of the walk, in the order in which they are read. */
  function Visited(g: Geometry, bl: seq<Block>, ps: seq<nat>): (r: seq<Page>)
    requires g.Valid() && forall i | 0 <= i < |ps| :: Blk(ps[i], g.ppb) < |bl|
    ensures |r| == |ps|
    ensures ValidBlocks(g, bl) ==> ValidPages(g, r)
  {
    seq(|ps|, i requires 0 <= i < |ps| => PageAt(g, bl, ps[i]))
  }

  /** Sector `j` of page `i` is given up, and no sector read after it is repaired. */
  ghost predicate LastWord(rs: Engine, g: Geometry, pages: seq<Page>, i: nat, j: nat)
    requires g.Valid() && ValidPages(g, pages)
  {
    && i < |pages| && GivenUp(rs, g, pages[i], j)
    && (forall j' | j < j' < g.Sectors() :: !Repaired(rs, g, pages[i], j'))
    && (forall i', j' | i < i' < |pages| && 0 <= j' < g.Sectors() :: !Repaired(rs, g, pages[i'], j'))
  }

  ghost predicate WordSet(rs: Engine, g: Geometry, pages: seq<Page>)
    requires g.Valid() && ValidPages(g, pages)
  {
    exists i, j :: LastWord(rs, g, pages, i, j)
  }

  /** One more page. */
  lemma PageMore(rs: Engine, g: Geometry, pages: seq<Page>, p: Page)
    requires g.Valid() && ValidPages(g, pages) && ValidPage(g, p)
    ensures ValidPages(g, pages + [p])
    ensures WordSet(rs, g, pages + [p])
        <==> SomeGivenUp(rs, g, p, g.Sectors()) || (WordSet(rs, g, pages) && NoneRepaired(rs, g, p, 0, g.Sectors()))
  {
    var more, n := pages + [p], g.Sectors();
    if SomeGivenUp(rs, g, p, n) {
      var j :| StaysGivenUp(rs, g, p, j, n);
      assert LastWord(rs, g, more, |pages|, j);
    } else if WordSet(rs, g, more) {
      var i, j :| LastWord(rs, g, more, i, j);
      WordBefore(rs, g, pages, p, i, j);
    } else if WordSet(rs, g, pages) && NoneRepaired(rs, g, p, 0, n) {
      var i, j :| LastWord(rs, g, pages, i, j);
      assert LastWord(rs, g, more, i, j);
    }
  }

  lemma WordBefore(rs: Engine, g: Geometry, pages: seq<Page>, p: Page, i: nat, j: nat)
    requires g.Valid() && ValidPages(g, pages) && ValidPage(g, p)
    requires LastWord(rs, g, pages + [p], i, j) && !SomeGivenUp(rs, g, p, g.Sectors())
    ensures LastWord(rs, g, pages, i, j) && NoneRepaired(rs, g, p, 0, g.Sectors())
  {
    var more := pages + [p];
    if i == |pages| {
      assert StaysGivenUp(rs, g, p, j, g.Sectors());
    }
    assert more[|pages|] == p;
    assert forall i' | 0 <= i' < |pages| :: pages[i'] == more[i'];
  }

  lemma {:induction false} VerdictsLast(rs: Engine, g: Geometry, bl: seq<Block>, ps: seq<nat>, p: nat)
    requires g.Valid() && Blk(p, g.ppb) < |bl| && forall i | 0 <= i < |ps| :: Blk(ps[i], g.ppb) < |bl|
    ensures ReadVerdicts(rs, g, bl, ps + [p]) == ReadVerdicts(rs, g, bl, ps) + PageVerdicts(rs, g, PageAt(g, bl, p))
    decreases |ps|
  {
    var more := ps + [p];
    if ps == [] {
      assert more[1..] == [];
    } else {
      VerdictsLast(rs, g, bl, ps[1..], p);
      assert more[1..] == ps[1..] + [p];
    }
  }

  /** The word that a read leaves is set exactly when the engine gave up on some sector whose
      parity was not all 0xff and reported corrections for no sector read after it. */
  lemma {:induction false} WordMeans(rs: Engine, g: Geometry, bl: seq<Block>, ps: seq<nat>)
    requires g.Valid() && ValidBlocks(g, bl) && forall i | 0 <= i < |ps| :: Blk(ps[i], g.ppb) < |bl|
    ensures SayAll(false, ReadVerdicts(rs, g, bl, ps)) <==> WordSet(rs, g, Visited(g, bl, ps))
    decreases |ps|
  {
    if ps != [] {
      var n := |ps| - 1;
      var before, p := ps[..n], ps[n];
      assert ps == before + [p];
      WordMeans(rs, g, bl, before);
      VerdictsLast(rs, g, bl, before, p);
      WordOfPage(rs, g, bl, before, p);
      assert Visited(g, bl, ps) == Visited(g, bl, before) + [PageAt(g, bl, p)];
    }
  }

  lemma WordOfPage(rs: Engine, g: Geometry, bl: seq<Block>, ps: seq<nat>, p: nat)
    requires g.Valid() && ValidBlocks(g, bl) && Blk(p, g.ppb) < |bl| && forall i | 0 <= i < |ps| :: Blk(ps[i], g.ppb) < |bl|
    requires SayAll(false, ReadVerdicts(rs, g, bl, ps)) <==> WordSet(rs, g, Visited(g, bl, ps))
    ensures ValidPages(g, Visited(g, bl, ps) + [PageAt(g, bl, p)])
    ensures SayAll(false, ReadVerdicts(rs, g, bl, ps) + PageVerdicts(rs, g, PageAt(g, bl, p)))
        <==> WordSet(rs, g, Visited(g, bl, ps) + [PageAt(g, bl, p)])
  {
    var page := PageAt(g, bl, p);
    SayAppend(false, ReadVerdicts(rs, g, bl, ps), PageVerdicts(rs, g, page));
    SectorsSay(rs, g, page, SayAll(false, ReadVerdicts(rs, g, bl, ps)), g.Sectors());
    PageMore(rs, g, Visited(g, bl, ps), page);
  }

  // ----- the whole read

  /** A read of a valid chip delivers chunks of one size. */
  lemma ReadSizes(rs: Engine, g: Geometry, fmt: Format, bl: seq<Block>, p: nat, n: nat)
    requires Sound(rs) && g.Valid() && ValidBlocks(g, bl)
    ensures var r := ReadFrom(ReaderOf(rs, g, fmt), g, bl, p, n);
            r.Some? ==> forall i | 0 <= i < n :: |r.value.0[i]| == ChunkSize(g, fmt)
  {
    var walk := Walk(Bads(g, bl), g.ppb, p, n);
    if walk.Some? {
      var ps := walk.value.0;
      forall i | 0 <= i < n ensures ValidPage(g, PageAt(g, bl, ps[i])) {
      }
    }
  }

  /** How nand_read ends when it is asked for `n` pages from page `p` and its buffer can hold
      them: what it returns, what is in the buffer and the error word. */
  ghost predicate Reads(rs: Engine, g: Geometry, fmt: Format, bl: seq<Block>, p: nat, n: nat,
                        before: seq<byte>, r: Option<nat>, after: seq<byte>, word: bool)
    requires Sound(rs) && g.Valid() && ValidBlocks(g, bl)
  {
    match Walk(Bads(g, bl), g.ppb, p, n)
    case None => r == None
    case Some((ps, end)) =>
      var out := Flat(Deliver(ReaderOf(rs, g, fmt), g, bl, ps));
      && r == Some(end)
      && |out| == At(n, 0, ChunkSize(g, fmt)) <= |before| && after == Splice(before, 0, out)
      && (word <==> WordSet(rs, g, Visited(g, bl, ps)))
  }

  lemma FinishReads(rs: Engine, g: Geometry, fmt: Format, bl: seq<Block>, buf: seq<byte>, p: nat, n: nat)
    requires Sound(rs) && g.Valid() && ValidBlocks(g, bl) && At(n, 0, ChunkSize(g, fmt)) <= |buf|
    ensures match Finish(rs, ReaderOf(rs, g, fmt), g, bl, ReadState(0, buf, false, p, n))
            case None => Reads(rs, g, fmt, bl, p, n, buf, None, buf, false)
            case Some(s) => Reads(rs, g, fmt, bl, p, n, buf, Some(s.cur), s.now, s.flag)
  {
    var rd := ReaderOf(rs, g, fmt);
    var walk := Walk(Bads(g, bl), g.ppb, p, n);
    var s := ReadState(0, buf, false, p, n);
    ReadSizes(rs, g, fmt, bl, p, n);
    if walk.Some? {
      var ps := walk.value.0;
      var chunks := Deliver(rd, g, bl, ps);
      FlatSize(chunks, ChunkSize(g, fmt));
      FinishIsWalk(rs, rd, g, bl, s, walk, Flat(chunks), ReadVerdicts(rs, g, bl, ps));
      WordMeans(rs, g, bl, ps);
    } else {
      FinishIsWalk(rs, rd, g, bl, s, walk, [], []);
    }
  }
}
