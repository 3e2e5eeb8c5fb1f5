/** What program and erase failures can cost a file: exactly when it is still read back after a
    call that reports success. */
module LostFiles {
  import opened Options
  import opened RsCode
  import opened Flash
  import opened PageFormat
  import opened PageNumbers
  import opened NandSpec
  import opened Programming
  import opened Flashing
  import opened Erasing
  import opened ImageFile
  import opened FlashFile
  import opened Landing

  // ----- as stored

  /** No bit of `b` is set where that of `a` is already clear. */
  ghost predicate Within(b: seq<byte>, a: seq<byte>) {
    |a| == |b| && forall i | 0 <= i < |b| :: b[i] & !a[i] == 0
  }

  ghost predicate Fits(img: Page, page: Page) {
    Within(img.data, page.data) && Within(img.oob, page.oob)
  }

  lemma AndBits(a: byte, b: byte)
    ensures a & b == b <==> b & !a == 0
  {
  }

  lemma AndWithin(a: seq<byte>, b: seq<byte>)
    requires |a| == |b|
    ensures And(a, b) == b <==> Within(b, a)
  {
    forall i | 0 <= i < |b| ensures a[i] & b[i] == b[i] <==> b[i] & !a[i] == 0 {
      AndBits(a[i], b[i]);
    }
    if And(a, b) == b {
      forall i | 0 <= i < |b| ensures b[i] & !a[i] == 0 {
        assert And(a, b)[i] == b[i];
      }
    }
  }

  lemma {:induction false} PageFits(page: Page, img: Page)
    requires |page.data| == |img.data| && |page.oob| == |img.oob|
    ensures AndPage(page, img) == img <==> Fits(img, page)
  {
    AndWithin(page.data, img.data);
    AndWithin(page.oob, img.oob);
  }

  lemma {:induction false} StoredPage(g: Geometry, blk: Block, imgs: seq<Image>, i: nat)
    requires ValidBlock(g, blk) && ValidImages(g, imgs) && |imgs| <= |blk| && i < |imgs| && imgs[i].Some?
    ensures WriteBlock(blk, 0, imgs)[i] == imgs[i].value <==> Fits(imgs[i].value, blk[i])
  {
    WriteBlockPages(blk, 0, imgs, i);
    PageFits(blk[i], imgs[i].value);
  }

  /** A run of images written into a block that need not be erased is stored whole exactly
      when no image asks for a bit that the block has already lost. */
  lemma {:induction false} StoredWhole(g: Geometry, blk: Block, imgs: seq<Image>)
    requires ValidBlock(g, blk) && ValidImages(g, imgs) && |imgs| <= |blk|
    ensures (forall i | 0 <= i < |imgs| && imgs[i].Some? :: WriteBlock(blk, 0, imgs)[i] == imgs[i].value)
       <==> (forall i | 0 <= i < |imgs| && imgs[i].Some? :: Fits(imgs[i].value, blk[i]))
  {
    forall i | 0 <= i < |imgs| && imgs[i].Some?
      ensures WriteBlock(blk, 0, imgs)[i] == imgs[i].value <==> Fits(imgs[i].value, blk[i])
    {
      StoredPage(g, blk, imgs, i);
    }
  }

  /** One request on any chip and under any failures: its pages are in the chip as they were sent
      if and only if none of them asks for a bit that the block it landed in had already lost. */
  lemma {:induction false} RequestStoredIff(g: Geometry, c: Chip, imgs: seq<Image>, s: nat, c': Chip, end: nat) returns (f: nat)
    requires g.Valid() && Shaped(g, c) && GoodBlocksValid(g, c.blocks, s) && ValidImages(g, imgs) && 0 < |imgs| <= g.ppb
    requires NandSpec.Program(g, c, imgs, At(s, 0, g.ppb)) == Some((c', end))
    ensures LandsIn(g, c, imgs, s, c', end, f) && |c'.blocks[f]| == |c.blocks[f]| == g.ppb
    ensures (forall i | 0 <= i < |imgs| && imgs[i].Some? :: c'.blocks[f][i] == imgs[i].value)
       <==> (forall i | 0 <= i < |imgs| && imgs[i].Some? :: Fits(imgs[i].value, c.blocks[f][i]))
  {
    f := RequestLands(g, c, imgs, s, s + 1, c', end);
    StoredWhole(g, c.blocks[f], imgs);
  }

  /** And they are read back from where the request started if and only if each page, programmed
      over what was there, is read as it should be. */
  lemma {:induction false} RequestReadIff(rd: Reader, g: Geometry, c: Chip, q: Request, s: nat, c': Chip, end: nat) returns (f: nat)
    requires g.Valid() && Shaped(g, c) && GoodBlocksValid(g, c.blocks, s) && SoundRequest(g, q)
    requires NandSpec.Program(g, c, q.imgs, At(s, 0, g.ppb)) == Some((c', end))
    ensures LandsIn(g, c, q.imgs, s, c', end, f)
    ensures ReadFrom(rd, g, c'.blocks, At(s, 0, g.ppb), |q.imgs|) == Some((q.want, end)) <==> ReadsOver(rd, c.blocks[f], q)
  {
    f := RequestLands(g, c, q.imgs, s, s + 1, c', end);
    var back := LandedReads(rd, g, c'.blocks, s, f, c.blocks[f], q);
  }

  // ----- the whole file

  lemma {:induction false} FileReadIsReadBack(rs: Engine, rd: Reader, g: Geometry, bl: seq<Block>, s: nat, file: seq<byte>, reqs: seq<Request>, end: nat)
    requires Sound(rs) && g.Valid() && rd == ReaderOf(rs, g, NoOob) && reqs == Requests(rs, g, file)
    ensures FileRead(rd, g, bl, s, file, end) <==> ImageReadBack(rd, g, bl, At(s, 0, g.ppb), reqs, end)
  {
    RequestsCarryFile(rs, g, file);
    var r := ReadFrom(rd, g, bl, At(s, 0, g.ppb), Pieces(|file|, g.ps));
    if r.Some? && Flat(r.value.0) == Padded(file, g.ps) {
      WantedSizes(rs, g, file);
      PaddedSize(file, g.ps);
      DeliveredSizes(rs, g, bl, At(s, 0, g.ppb), Pieces(|file|, g.ps));
      FlatFull(r.value.0, g.ps);
      FlatInjective(r.value.0, Wanted(reqs), g.ps);
    }
  }

  lemma {:induction false} DeliveredSizes(rs: Engine, g: Geometry, bl: seq<Block>, p: nat, n: nat)
    requires Sound(rs) && g.Valid()
    ensures var r := ReadFrom(ReaderOf(rs, g, NoOob), g, bl, p, n);
            r.Some? ==> forall i | 0 <= i < n :: |r.value.0[i]| <= g.ps
  {
  }

  lemma {:induction false} WantedSizes(rs: Engine, g: Geometry, file: seq<byte>)
    requires Sound(rs) && g.Valid()
    ensures forall i | 0 <= i < |Wanted(Requests(rs, g, file))| :: |Wanted(Requests(rs, g, file))[i]| == g.ps
    decreases |file|
  {
    TransferPositive(g);
    if |file| >= Transfer(g) {
      WantedSizes(rs, g, file[Transfer(g)..]);
    } else if file != [] {
      var q := RequestOf(rs, g, Padded(file, g.ps));
      assert Wanted([q]) == q.want;
    }
  }

  /** What an erase leaves, under any failures and with either setting of the force flag: in the
      range it passed every block is erased or bad, and nothing else has changed. */
  ghost predicate Leaves(g: Geometry, c: Chip, b: nat, c1: Chip, e: nat) {
    && |c1.blocks| == |c.blocks| && b <= e
    && (forall i | b <= i < e && i < |c.blocks| :: IsBad(g, c1.blocks[i]) || c1.blocks[i] == ErasedBlock(g))
    && (forall i | 0 <= i < |c.blocks| && !(b <= i < e) :: c1.blocks[i] == c.blocks[i])
  }

  lemma {:induction false} EraseLeaves(g: Geometry, c: Chip, b: nat, stop: nat, force: bool)
    requires g.Valid()
    ensures var r := EraseFrom(g, c, b, stop, force); r.Some? ==> Leaves(g, c, b, r.value.0, r.value.1)
    decreases |c.blocks| - b
  {
    if b < stop && b < |c.blocks| {
      if !force && IsBad(g, c.blocks[b]) {
        EraseLeaves(g, c, b + 1, stop + g.plane, force);
      } else {
        var c1 := EraseOne(g, c, b);
        MarkBadVerdicts(g, EraseBlock(g, c, b), b);
        EraseLeaves(g, c1, b + 1, stop, force);
      }
    }
  }

  /** A call of nand_program_file that has returned, from the first page of block `s`: its erase
      left the chip `c1` and passed the range up to block `e`, and its transfers landed in the
      blocks `fs`. */
  ghost predicate Sends(rd: Reader, g: Geometry, c: Chip, s: nat, reqs: seq<Request>, force: bool, c2: Chip, e: nat, end: nat, c1: Chip, fs: seq<nat>)
    requires g.Valid() && NoneEmpty(reqs)
  {
    && EraseBlocks(g, c, s, |reqs|, force) == Some((c1, e)) && Leaves(g, c, s, c1, e)
    && fs == Landings(rd, g, c1, reqs, At(s, 0, g.ppb)) && AllLand(rd, g, c1, reqs, s, At(s, 0, g.ppb), c2, end, fs)
  }

  /** Every transfer that landed behind the erased range is read as it should be from the pages
      that were there before the call. */
  ghost predicate OutsideReads(rd: Reader, bl: seq<Block>, e: nat, reqs: seq<Request>, fs: seq<nat>) {
    |fs| == |reqs| && forall i | 0 <= i < |reqs| && fs[i] >= e :: OneReads(rd, bl, reqs, fs, i)
  }

  lemma {:induction false} EraseForFileLeaves(g: Geometry, c: Chip, s: nat, n: nat, force: bool, c1: Chip, e: nat)
    requires g.Valid() && Shaped(g, c) && GoodBlocksValid(g, c.blocks, s) && EraseBlocks(g, c, s, n, force) == Some((c1, e))
    ensures Leaves(g, c, s, c1, e) && Shaped(g, c1) && GoodBlocksValid(g, c1.blocks, s)
  {
    EraseLeaves(g, c, s, s + n, force);
    ShapedAfterErase(g, c, s, s + n, force);
  }

  /** What one transfer is read over on the erased chip, in terms of the chip before the call. */
  lemma {:induction false} InsideReads(rd: Reader, g: Geometry, c: Chip, s: nat, c1: Chip, e: nat, q: Request, f: nat)
    requires g.Valid() && GoodRequest(rd, g, q) && Leaves(g, c, s, c1, e) && s <= f < |c.blocks| && !IsBad(g, c1.blocks[f])
    ensures f < e ==> ReadsOver(rd, c1.blocks[f], q)
    ensures f >= e ==> c1.blocks[f] == c.blocks[f]
  {
    ErasedReads(rd, g, q);
  }

  lemma {:induction false} OnlyOutsideCounts(rd: Reader, g: Geometry, c: Chip, s: nat, reqs: seq<Request>, c1: Chip, e: nat, fs: seq<nat>)
    requires g.Valid() && GoodRequests(rd, g, reqs) && Leaves(g, c, s, c1, e) && |fs| == |reqs|
    requires forall i | 0 <= i < |fs| :: s <= fs[i] < |c.blocks| && !IsBad(g, c1.blocks[fs[i]])
    ensures AllRead(rd, c1.blocks, reqs, fs) <==> OutsideReads(rd, c.blocks, e, reqs, fs)
  {
    forall i | 0 <= i < |reqs| ensures OneReads(rd, c1.blocks, reqs, fs, i) <==> fs[i] < e || OneReads(rd, c.blocks, reqs, fs, i) {
      InsideReads(rd, g, c, s, c1, e, reqs[i], fs[i]);
    }
  }

  lemma {:induction false} LandsInGood(rd: Reader, g: Geometry, c: Chip, reqs: seq<Request>, s: nat, p: nat, c': Chip, end: nat, fs: seq<nat>)
    requires AllLand(rd, g, c, reqs, s, p, c', end, fs)
    ensures forall i | 0 <= i < |fs| :: s <= fs[i] < |c.blocks| && !IsBad(g, c.blocks[fs[i]])
  {
    forall i | 0 <= i < |fs| ensures s <= fs[i] < |c.blocks| && !IsBad(g, c.blocks[fs[i]]) {
      assert LandsAt(rd, g, c.blocks, c'.blocks, reqs, s, fs, i);
      assert LandsAt(rd, g, c.blocks, c'.blocks, reqs, s, fs, 0);
    }
  }

  lemma {:induction false} SentOver(rd: Reader, g: Geometry, c: Chip, s: nat, reqs: seq<Request>, force: bool, c2: Chip, e: nat, end: nat)
    returns (c1: Chip, fs: seq<nat>)
    requires g.Valid() && Shaped(g, c) && GoodBlocksValid(g, c.blocks, s) && GoodRequests(rd, g, reqs) && NoneEmpty(reqs)
    requires EraseAndSend(rd, g, c, At(s, 0, g.ppb), reqs, force) == Some((c2, e, end))
    ensures Sends(rd, g, c, s, reqs, force, c2, e, end, c1, fs)
    ensures ImageReadBack(rd, g, c2.blocks, At(s, 0, g.ppb), reqs, end) <==> OutsideReads(rd, c.blocks, e, reqs, fs)
  {
    Split(s, 0, g.ppb);
    c1 := EraseBlocks(g, c, s, |reqs|, force).value.0;
    EraseForFileLeaves(g, c, s, |reqs|, force, c1, e);
    forall i | 0 <= i < |reqs| ensures SoundRequest(g, reqs[i]) {
      ErasedReads(rd, g, reqs[i]);
    }
    fs := ImageReadsIff(rd, g, c1, reqs, s, At(s, 0, g.ppb), c2, end);
    LandsInGood(rd, g, c1, reqs, s, At(s, 0, g.ppb), c2, end, fs);
    OnlyOutsideCounts(rd, g, c, s, reqs, c1, e, fs);
  }

  /** Whatever is on the chip and whatever programs and erases fail: when nand_program_file
      returns, the file is read from the start page up to the page that was returned if and only
      if every transfer that landed behind the erased range is read, page by page, as it should be
      from what its block held before the call. */
  lemma {:induction false} FileReadIff(rs: Engine, rd: Reader, g: Geometry, c: Chip, s: nat, start: nat, file: seq<byte>, force: bool,
                                       reqs: seq<Request>, c2: Chip, e: nat, end: nat)
    returns (c1: Chip, fs: seq<nat>)
    requires Sound(rs) && g.Valid() && Shaped(g, c) && GoodBlocksValid(g, c.blocks, s) && MarksClear(g)
    requires rd == ReaderOf(rs, g, NoOob) && start == At(s, 0, g.ppb) && reqs == Requests(rs, g, file)
    requires FlashFile.FlashFile(rs, rd, g, c, start, file, force) == Some((c2, e, end))
    ensures NoneEmpty(reqs) && Sends(rd, g, c, s, reqs, force, c2, e, end, c1, fs)
    ensures FileRead(rd, g, c2.blocks, s, file, end) <==> OutsideReads(rd, c.blocks, e, reqs, fs)
  {
    RequestsAreGood(rs, g, file);
    RequestsNotEmpty(rs, g, file);
    c1, fs := SentOver(rd, g, c, s, reqs, force, c2, e, end);
    FileReadIsReadBack(rs, rd, g, c2.blocks, s, file, reqs, end);
  }

  /** The transfers have landed in front of block `e` if the last one has ended there. */
  lemma {:induction false} AllInside(rd: Reader, g: Geometry, c: Chip, reqs: seq<Request>, s: nat, p: nat, c': Chip, end: nat, fs: seq<nat>, e: nat)
    requires AllLand(rd, g, c, reqs, s, p, c', end, fs) && NoneEmpty(reqs) && end <= At(e, 0, g.ppb)
    ensures forall i | 0 <= i < |fs| :: fs[i] < e
  {
    if reqs != [] {
      var n := |fs| - 1;
      assert reqs[|reqs| - 1].imgs != [];
      if fs[n] >= e {
        AtMono(e, fs[n], g.ppb);
      }
      assert forall i | 0 <= i < |fs| :: fs[i] <= fs[n];
    }
  }

  /** So the file is safe if the returned page lies in the range that was erased. */
  lemma {:induction false} SafeInsideRange(rs: Engine, rd: Reader, g: Geometry, c: Chip, s: nat, start: nat, file: seq<byte>, force: bool,
                                           c2: Chip, e: nat, end: nat)
    requires Sound(rs) && g.Valid() && Shaped(g, c) && GoodBlocksValid(g, c.blocks, s) && MarksClear(g)
    requires rd == ReaderOf(rs, g, NoOob) && start == At(s, 0, g.ppb)
    requires FlashFile.FlashFile(rs, rd, g, c, start, file, force) == Some((c2, e, end)) && end <= At(e, 0, g.ppb)
    ensures FileRead(rd, g, c2.blocks, s, file, end)
  {
    var reqs := Requests(rs, g, file);
    var c1, fs := FileReadIff(rs, rd, g, c, s, start, file, force, reqs, c2, e, end);
    RequestsNotEmpty(rs, g, file);
    AllInside(rd, g, c1, reqs, s, At(s, 0, g.ppb), c2, end, fs, e);
  }

  lemma {:induction false} AtMono(a: nat, b: nat, ppb: nat)
    requires a <= b
    ensures At(a, 0, ppb) <= At(b, 0, ppb)
    decreases b - a
  {
    if a < b {
      AtStep(a, 0, ppb);
      AtMono(a + 1, b, ppb);
    }
  }

  // ----- bytes that cannot be read from zeros

  ghost predicate Touches(e: SymErr, p: nat) {
    ValidErr(e) && SymByte(e.idx) - 1 <= p <= SymByte(e.idx)
  }

  /** A byte of a mask that is not zero belongs to one of the symbols. */
  lemma {:induction false} Touched(errs: seq<SymErr>, p: nat) returns (i: nat)
    requires (forall e | e in errs :: ValidErr(e)) && p < ECC_BLOCK && MaskOf(errs)[p] != 0
    ensures i < |errs| && Touches(errs[i], p)
    decreases |errs|
  {
    if SymMask(errs[0])[p] != 0 {
      i := 0;
    } else {
      ZeroXor(MaskOf(errs[1..])[p]);
      i := Touched(errs[1..], p);
      i := i + 1;
    }
  }

  lemma ZeroXor(b: byte)
    ensures 0 ^ b == b && b ^ 0 == b
  {
  }

  /** Five bytes of a sector, no two of them next to each other. */
  predicate Spread(ps: seq<nat>) {
    |ps| == 5 && ps[0] + 1 < ps[1] && ps[1] + 1 < ps[2] && ps[2] + 1 < ps[3] && ps[3] + 1 < ps[4] < ECC_BLOCK
  }

  lemma {:induction false} OneSymbolOneByte(errs: seq<SymErr>, i: nat, j: nat, p: nat, q: nat)
    requires i < |errs| && j < |errs| && Touches(errs[i], p) && Touches(errs[j], q) && p + 1 < q
    ensures i != j
  {
  }

  /** Four corrected symbols cannot reach five such bytes. */
  lemma {:induction false} FewAreCorrected(errs: seq<SymErr>, ps: seq<nat>)
    requires (forall e | e in errs :: ValidErr(e)) && |errs| <= 4 && Spread(ps)
    ensures exists k: nat :: k < 5 && MaskOf(errs)[ps[k]] == 0
  {
    if forall k: nat | k < 5 :: MaskOf(errs)[ps[k]] != 0 {
      var a := Touched(errs, ps[0]);
      var b := Touched(errs, ps[1]);
      var c := Touched(errs, ps[2]);
      var d := Touched(errs, ps[3]);
      var e := Touched(errs, ps[4]);
      FiveDiffer(errs, ps, a, b, c, d, e);
    }
  }

  lemma {:induction false} FiveDiffer(errs: seq<SymErr>, ps: seq<nat>, a: nat, b: nat, c: nat, d: nat, e: nat)
    requires Spread(ps) && a < |errs| && b < |errs| && c < |errs| && d < |errs| && e < |errs|
    requires Touches(errs[a], ps[0]) && Touches(errs[b], ps[1]) && Touches(errs[c], ps[2]) && Touches(errs[d], ps[3]) && Touches(errs[e], ps[4])
    ensures |errs| > 4
  {
    OneSymbolOneByte(errs, a, b, ps[0], ps[1]);
    OneSymbolOneByte(errs, a, c, ps[0], ps[2]);
    OneSymbolOneByte(errs, a, d, ps[0], ps[3]);
    OneSymbolOneByte(errs, a, e, ps[0], ps[4]);
    OneSymbolOneByte(errs, b, c, ps[1], ps[2]);
    OneSymbolOneByte(errs, b, d, ps[1], ps[3]);
    OneSymbolOneByte(errs, b, e, ps[1], ps[4]);
    OneSymbolOneByte(errs, c, d, ps[2], ps[3]);
    OneSymbolOneByte(errs, c, e, ps[2], ps[4]);
    OneSymbolOneByte(errs, d, e, ps[3], ps[4]);
  }

  /** Of a sector of zeros, whatever its parity, the decoder leaves one of the five zero. */
  lemma {:induction false} ZerosStay(rs: Engine, par: seq<byte>, ps: seq<nat>) returns (k: nat)
    requires Sound(rs) && Spread(ps)
    ensures k < 5 && Decoded(rs, Zeros(), par)[ps[k]] == 0
  {
    var r := rs.decode(Zeros(), par);
    assert ReportFits(rs, Zeros(), par);
    if r.Errors? && 1 <= r.errcnt <= 4 {
      FewAreCorrected(r.regs[..r.errcnt], ps);
      k :| k < 5 && MaskOf(r.regs[..r.errcnt])[ps[k]] == 0;
      ZeroXor(0);
    } else {
      k := 0;
    }
  }

  /** The first sector of a page, as the decoder leaves it. */
  lemma {:induction false} FirstSector(rs: Engine, raw: seq<byte>, par: seq<byte>, n: nat, j: nat)
    requires Sound(rs) && 0 < n && ECC_BLOCK * n <= |raw| && PAR_SIZE * n <= |par| && j < ECC_BLOCK
    ensures Decode(rs, raw, par, n)[j] == Decoded(rs, Sector(raw, 0), par[..PAR_SIZE])[j]
    decreases n
  {
    if n == 1 {
      DecodeStep(rs, raw, par, 0, 1, Sector(raw, 0), par[..PAR_SIZE]);
    } else {
      FirstSector(rs, raw, par, n - 1, j);
    }
  }

  /** A page of zeros, whatever its parity, is not read as one with five such bytes set. */
  lemma {:induction false} ZeroPageReads(rs: Engine, g: Geometry, page: Page, ps: seq<nat>) returns (k: nat)
    requires Sound(rs) && g.Valid() && ValidPage(g, page) && page.data == ZeroBytes(g.ps) && Spread(ps)
    ensures k < 5 && ps[k] < g.ps && ReaderOf(rs, g, NoOob)(page)[ps[k]] == 0
  {
    var par := StoredParity(g, page);
    assert Sector(page.data, 0) == Zeros();
    k := ZerosStay(rs, par[..PAR_SIZE], ps);
    FirstSector(rs, page.data, par, g.Sectors(), ps[k]);
  }

  /** A block in use: good, with zeros for data. */
  function UsedBlock(g: Geometry): (r: Block)
    ensures ValidBlock(g, r)
  {
    seq(g.ppb, k => Page(ZeroBytes(g.ps), Ones(g.os)))
  }

  lemma {:induction false} UsedBlockIsGood(g: Geometry)
    requires g.Valid()
    ensures !IsBad(g, UsedBlock(g))
  {
    MarkedFrom(g, UsedBlock(g), 0);
  }

  lemma ZeroAnd(b: seq<byte>)
    ensures And(ZeroBytes(|b|), b) == ZeroBytes(|b|)
  {
  }

  /** An image programmed over a page of zeros. */
  lemma {:induction false} ZerosAreRead(rs: Engine, g: Geometry, img: Page, want: Chunk, ps: seq<nat>)
    requires Sound(rs) && g.Valid() && ValidPage(g, img) && Spread(ps) && |want| == g.ps
    requires forall k | 0 <= k < 5 :: want[ps[k]] != 0
    ensures ReaderOf(rs, g, NoOob)(Over(UsedBlock(g)[0], Some(img))) != want
  {
    ZeroAnd(img.data);
    var k := ZeroPageReads(rs, g, AndPage(UsedBlock(g)[0], img), ps);
  }

  /** The first page of a short file. */
  lemma {:induction false} FirstChunk(rs: Engine, g: Geometry, file: seq<byte>, q: Request)
    requires Sound(rs) && g.Valid() && 0 < |file| < Transfer(g) && q == RequestOf(rs, g, Padded(file, g.ps))
    ensures q.imgs != [] && |q.want[0]| == g.ps && forall i | 0 <= i < |file| && i < g.ps :: q.want[0][i] == file[i]
  {
    TailRequest(rs, g, file);
    PaddedSize(file, g.ps);
    CutAt(Padded(file, g.ps), g.ps, |q.want|, 0);
  }

  /** A file of less than a block is one transfer, whose first page is programmed unless it is
      all ones. */
  lemma {:induction false} ShortFile(rs: Engine, rd: Reader, g: Geometry, file: seq<byte>, p: nat) returns (q: Request)
    requires Sound(rs) && g.Valid() && MarksClear(g) && rd == ReaderOf(rs, g, NoOob)
    requires p < |file| < Transfer(g) && p < g.ps && file[p] != 0xff
    ensures Requests(rs, g, file) == [q] && GoodRequest(rd, g, q) && q.imgs[0].Some? && |q.want[0]| == g.ps
    ensures forall i | 0 <= i < |file| && i < g.ps :: q.want[0][i] == file[i]
  {
    q := RequestOf(rs, g, Padded(file, g.ps));
    RequestsNotEmpty(rs, g, file);
    FirstChunk(rs, g, file, q);
    assert q.want[0][p] == file[p];
    ShortFileIsGood(rs, rd, g, file, q);
  }

  lemma {:induction false} ShortFileIsGood(rs: Engine, rd: Reader, g: Geometry, file: seq<byte>, q: Request)
    requires Sound(rs) && g.Valid() && MarksClear(g) && rd == ReaderOf(rs, g, NoOob)
    requires 0 < |file| < Transfer(g) && q == RequestOf(rs, g, Padded(file, g.ps))
    ensures Requests(rs, g, file) == [q] && GoodRequest(rd, g, q)
  {
    var reqs := Requests(rs, g, file);
    RequestsAreGood(rs, g, file);
    assert reqs == [q] && GoodRequest(rd, g, reqs[0]);
  }

  lemma {:induction false} FiveStay(file: seq<byte>, chunk: Chunk, ps: seq<nat>)
    requires Spread(ps) && ps[4] < |file| && |chunk| >= ECC_BLOCK && forall k | 0 <= k < 5 :: file[ps[k]] != 0
    requires forall i | 0 <= i < |file| && i < |chunk| :: chunk[i] == file[i]
    ensures forall k | 0 <= k < 5 :: chunk[ps[k]] != 0
  {
  }
}
