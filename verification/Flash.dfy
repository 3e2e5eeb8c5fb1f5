/** The NAND chip: blocks of pages of bytes, the three operations that change it, and the
    bad-block marks kept in the spare bytes. */
module Flash {
  import opened RsCode

  /** The geometry and marking parameters handed to nand_init_4740 and nand_init_4760. */
  datatype Geometry = Geometry(ps: nat, os: nat, ppb: nat, bbpage: nat, bbpos: nat, eccpos: nat, plane: nat)
  {
    /** The spare area is pagesize / 32 bytes and holds the mark byte and all parity. */
    predicate Valid() {
      && 0 < ps <= 4096 && ps % ECC_BLOCK == 0 && os == ps / 32
      && 2 <= ppb && bbpos < os
      && eccpos + PAR_SIZE * Sectors() <= os
    }

    function Sectors(): nat {
      ps / ECC_BLOCK
    }

    /** Marks are looked for on four pages instead of one. */
    predicate Absolute() {
      bbpage >= ppb
    }

    predicate MarkPage(k: nat) {
      if Absolute() then k == 0 || k == 1 || k == ppb - 2 || k == ppb - 1 else k == bbpage
    }

    predicate MarkByte(i: nat) {
      if Absolute() then i == 0 || i == 1 else i == bbpos
    }
  }

  datatype Page = Page(data: seq<byte>, oob: seq<byte>)

  type Block = seq<Page>

  /** The answer to one status read. A failed program or erase may leave anything behind. */
  datatype Status = Pass | Fail(junk: nat -> Page)

  /** A chip, with the answers its coming status reads will give. Reads past the end of
      `status` answer Pass. */
  datatype Chip = Chip(blocks: seq<Block>, status: seq<Status>)

  ghost predicate ValidPage(g: Geometry, p: Page) {
    |p.data| == g.ps && |p.oob| == g.os
  }

  ghost predicate ValidBlock(g: Geometry, b: Block) {
    |b| == g.ppb && forall k | 0 <= k < |b| :: ValidPage(g, b[k])
  }

  ghost predicate ValidBlocks(g: Geometry, bl: seq<Block>) {
    forall i | 0 <= i < |bl| :: ValidBlock(g, bl[i])
  }

  ghost predicate ValidStatus(g: Geometry, st: seq<Status>) {
    forall i, k: nat | 0 <= i < |st| && st[i].Fail? :: ValidPage(g, st[i].junk(k))
  }

  ghost predicate ValidChip(g: Geometry, c: Chip) {
    ValidBlocks(g, c.blocks) && ValidStatus(g, c.status)
  }

  function ErasedPage(g: Geometry): (p: Page)
    ensures ValidPage(g, p)
  {
    Page(Ones(g.ps), Ones(g.os))
  }

  function ErasedBlock(g: Geometry): (b: Block)
    ensures ValidBlock(g, b)
  {
    seq(g.ppb, k => ErasedPage(g))
  }

  /** Programming can only clear bits. */
  function And(a: seq<byte>, b: seq<byte>): (r: seq<byte>)
    ensures |r| == |b|
    ensures |a| == |b| ==> forall i | 0 <= i < |r| :: r[i] == a[i] & b[i]
  {
    seq(|b|, i requires 0 <= i < |b| => if i < |a| then a[i] & b[i] else b[i])
  }

  function AndPage(a: Page, b: Page): Page {
    Page(And(a.data, b.data), And(a.oob, b.oob))
  }

  lemma AndOnes(b: seq<byte>)
    ensures And(Ones(|b|), b) == b
  {
  }

  function ZeroBytes(n: nat): (r: seq<byte>)
    ensures |r| == n
    ensures forall i | 0 <= i < n :: r[i] == 0
  {
    seq(n, i => 0 as byte)
  }

  lemma AndZero(a: seq<byte>, n: nat)
    ensures And(a, ZeroBytes(n)) == ZeroBytes(n)
  {
  }

  // ----- the commands

  function NextStatus(c: Chip): Status {
    if c.status == [] then Pass else c.status[0]
  }

  function RestStatus(c: Chip): (r: seq<Status>)
    ensures |c.status| > 0 ==> |r| == |c.status| - 1
  {
    if c.status == [] then [] else c.status[1..]
  }

  /** PGPROG followed by a status read. */
  function ProgramPage(c: Chip, b: nat, k: nat, img: Page): (r: Chip)
    requires b < |c.blocks|
    ensures |r.blocks| == |c.blocks|
  {
    var blk := c.blocks[b];
    if k < |blk| then
      var page := if NextStatus(c).Fail? then NextStatus(c).junk(0) else AndPage(blk[k], img);
      Chip(c.blocks[b := blk[k := page]], RestStatus(c))
    else
      Chip(c.blocks, RestStatus(c))
  }

  /** ERASE followed by a status read. */
  function EraseBlock(g: Geometry, c: Chip, b: nat): (r: Chip)
    requires b < |c.blocks|
    ensures |r.blocks| == |c.blocks|
  {
    var after := if NextStatus(c).Fail? then seq(g.ppb, k requires k >= 0 => NextStatus(c).junk(k)) else ErasedBlock(g);
    Chip(c.blocks[b := after], RestStatus(c))
  }

  /** Zeros programmed over one page, as nand_mark_bad_page does without reading the status. */
  function ZeroPage(g: Geometry, blk: Block, k: nat): (r: Block)
    ensures |r| == |blk|
  {
    if k < |blk| then blk[k := AndPage(blk[k], Page(ZeroBytes(g.ps), ZeroBytes(g.os)))] else blk
  }

  /** nand_mark_bad on one block. */
  function MarkBlock(g: Geometry, blk: Block): (r: Block)
    requires g.ppb >= 2
    ensures |r| == |blk|
  {
    if g.Absolute() then
      ZeroPage(g, ZeroPage(g, ZeroPage(g, ZeroPage(g, blk, 0), 1), g.ppb - 2), g.ppb - 1)
    else
      ZeroPage(g, blk, g.bbpage)
  }

  function MarkBad(g: Geometry, c: Chip, b: nat): (r: Chip)
    requires g.ppb >= 2 && b < |c.blocks|
    ensures |r.blocks| == |c.blocks|
  {
    c.(blocks := c.blocks[b := MarkBlock(g, c.blocks[b])])
  }

  // ----- the commands keep the shape of the chip

  lemma RestStatusValid(g: Geometry, c: Chip)
    requires ValidStatus(g, c.status)
    ensures ValidStatus(g, RestStatus(c))
  {
    if c.status != [] {
      forall i, k: nat | 0 <= i < |RestStatus(c)| && RestStatus(c)[i].Fail?
        ensures ValidPage(g, RestStatus(c)[i].junk(k))
      {
        assert RestStatus(c)[i] == c.status[i + 1];
      }
    }
  }

  lemma ProgramPageValid(g: Geometry, c: Chip, b: nat, k: nat, img: Page)
    requires ValidChip(g, c) && b < |c.blocks| && ValidPage(g, img)
    ensures ValidChip(g, ProgramPage(c, b, k, img))
  {
    RestStatusValid(g, c);
  }

  lemma EraseBlockValid(g: Geometry, c: Chip, b: nat)
    requires ValidChip(g, c) && b < |c.blocks|
    ensures ValidChip(g, EraseBlock(g, c, b))
  {
    RestStatusValid(g, c);
  }

  lemma ZeroPageValid(g: Geometry, blk: Block, k: nat)
    requires ValidBlock(g, blk)
    ensures ValidBlock(g, ZeroPage(g, blk, k))
  {
  }

  // ----- bad blocks

  predicate NotOnes(s: seq<byte>, i: nat) {
    i < |s| && s[i] != 0xff
  }

  predicate PageMarked(g: Geometry, p: Page) {
    if g.Absolute() then NotOnes(p.oob, 0) || NotOnes(p.oob, 1) else NotOnes(p.oob, g.bbpos)
  }

  /** The verdict of nand_check_block: a mark byte of a mark page is not 0xff. */
  predicate IsBad(g: Geometry, blk: Block) {
    AnyMarked(g, blk, 0)
  }

  predicate AnyMarked(g: Geometry, blk: Block, k: nat)
    decreases |blk| - k
  {
    k < |blk| && ((g.MarkPage(k) && PageMarked(g, blk[k])) || AnyMarked(g, blk, k + 1))
  }

  lemma {:induction false} MarkedFrom(g: Geometry, blk: Block, k: nat)
    ensures AnyMarked(g, blk, k) <==> exists i | k <= i < |blk| :: g.MarkPage(i) && PageMarked(g, blk[i])
    decreases |blk| - k
  {
    if k < |blk| {
      MarkedFrom(g, blk, k + 1);
    }
  }

  /** Spare byte `i` of page `k` has a cleared bit. */
  ghost predicate Spoiled(blk: Block, k: nat, i: nat) {
    k < |blk| && i < |blk[k].oob| && blk[k].oob[i] != 0xff
  }

  /** One of the eight bytes is spoiled that are looked at without a bad-block page: the first
      two spare bytes of the first two and of the last two pages. */
  ghost predicate SpoiledAtEnds(blk: Block) {
    var n := |blk|;
    && n >= 2
    && (Spoiled(blk, 0, 0) || Spoiled(blk, 0, 1) || Spoiled(blk, 1, 0) || Spoiled(blk, 1, 1)
        || Spoiled(blk, n - 2, 0) || Spoiled(blk, n - 2, 1) || Spoiled(blk, n - 1, 0) || Spoiled(blk, n - 1, 1))
  }

  /** Which blocks are bad, in page and byte numbers. */
  lemma BadMeans(g: Geometry, blk: Block)
    requires g.Valid() && |blk| == g.ppb
    ensures g.bbpage >= g.ppb ==> (IsBad(g, blk) <==> SpoiledAtEnds(blk))
    ensures g.bbpage < g.ppb ==> (IsBad(g, blk) <==> Spoiled(blk, g.bbpage, g.bbpos))
  {
    MarkedFrom(g, blk, 0);
    if g.bbpage >= g.ppb {
      var n := g.ppb;
      assert g.MarkPage(0) && g.MarkPage(1) && g.MarkPage(n - 2) && g.MarkPage(n - 1);
    } else {
      assert g.MarkPage(g.bbpage);
    }
  }

  /** Which pages nand_mark_bad overwrites, and that they end as zeros while every other
      page of the block is as before. */
  lemma MarkingMeans(g: Geometry, blk: Block, k: nat)
    requires g.Valid() && |blk| == g.ppb && k < g.ppb
    ensures var marked := if g.bbpage >= g.ppb then k < 2 || g.ppb <= k + 2 else k == g.bbpage;
              MarkBlock(g, blk)[k] == if marked then Page(ZeroBytes(g.ps), ZeroBytes(g.os)) else blk[k]
  {
    if g.bbpage >= g.ppb {
      var b1 := ZeroPage(g, blk, 0);
      var b2 := ZeroPage(g, b1, 1);
      var b3 := ZeroPage(g, b2, g.ppb - 2);
      ZeroedPage(g, blk, 0, k);
      ZeroedPage(g, b1, 1, k);
      ZeroedPage(g, b2, g.ppb - 2, k);
      ZeroedPage(g, b3, g.ppb - 1, k);
    } else {
      ZeroedPage(g, blk, g.bbpage, k);
    }
  }

  lemma ZeroedPage(g: Geometry, blk: Block, m: nat, k: nat)
    requires m < |blk| && k < |blk|
    ensures ZeroPage(g, blk, m)[k] == if k == m then Page(ZeroBytes(g.ps), ZeroBytes(g.os)) else blk[k]
  {
    AndZero(blk[m].data, g.ps);
    AndZero(blk[m].oob, g.os);
  }

  lemma MarkedBlockIsBad(g: Geometry, blk: Block)
    requires g.Valid() && |blk| == g.ppb
    ensures IsBad(g, MarkBlock(g, blk))
  {
    var k := if g.Absolute() then g.ppb - 1 else g.bbpage;
    var before := if g.Absolute() then ZeroPage(g, ZeroPage(g, ZeroPage(g, blk, 0), 1), g.ppb - 2) else blk;
    AndZero(before[k].oob, g.os);
    assert MarkBlock(g, blk)[k].oob == ZeroBytes(g.os);
    assert g.MarkPage(k) && PageMarked(g, MarkBlock(g, blk)[k]);
    MarkedFrom(g, MarkBlock(g, blk), 0);
  }

  lemma ErasedBlockIsGood(g: Geometry)
    ensures !IsBad(g, ErasedBlock(g))
  {
    MarkedFrom(g, ErasedBlock(g), 0);
  }

  /** Marking a block makes it bad in both detection modes and leaves the verdict on every
      other block as it was. */
  lemma MarkBadVerdicts(g: Geometry, c: Chip, b: nat)
    requires g.Valid() && b < |c.blocks| && |c.blocks[b]| == g.ppb
    ensures IsBad(g, MarkBad(g, c, b).blocks[b])
    ensures forall i | 0 <= i < |c.blocks| && i != b :: IsBad(g, MarkBad(g, c, b).blocks[i]) == IsBad(g, c.blocks[i])
  {
    MarkedBlockIsBad(g, c.blocks[b]);
  }

  ghost predicate KeepsMark(g: Geometry, p: Page) {
    forall i | 0 <= i < |p.oob| && g.MarkByte(i) :: p.oob[i] == 0xff
  }

  lemma AndFf(b: byte)
    ensures b & 0xff == b
  {
  }

  /** A good block stays good, and a bad one bad, when every page that is programmed has
      its mark bytes left at 0xff. */
  lemma ProgramKeepsVerdict(g: Geometry, blk: Block, k: nat, img: Page)
    requires g.Valid() && ValidBlock(g, blk) && k < g.ppb && ValidPage(g, img)
    requires g.MarkPage(k) ==> KeepsMark(g, img)
    ensures IsBad(g, blk[k := AndPage(blk[k], img)]) == IsBad(g, blk)
  {
    var page := AndPage(blk[k], img);
    var after := blk[k := page];
    if g.MarkPage(k) {
      forall i | 0 <= i < g.os && g.MarkByte(i) ensures page.oob[i] == blk[k].oob[i] {
        AndFf(blk[k].oob[i]);
      }
      assert PageMarked(g, page) == PageMarked(g, blk[k]);
    }
    forall i | 0 <= i < g.ppb && g.MarkPage(i) ensures PageMarked(g, after[i]) == PageMarked(g, blk[i]) {
    }
    MarkedFrom(g, blk, 0);
    MarkedFrom(g, after, 0);
  }
}
