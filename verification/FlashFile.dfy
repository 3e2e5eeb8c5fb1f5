/** Flashing a file as a plain image: what nand_program_file does to the chip, and what is
    read back from it afterwards. */
module FlashFile {
  import opened Options
  import opened RsCode
  import opened Flash
  import opened PageFormat
  import opened PageNumbers
  import opened NandSpec
  import opened Programming
  import opened Flashing
  import opened Erasing
  import opened ImageFile

  // ----- the file as pages

  /** How many pieces of `size` bytes it takes to hold `len` bytes. */
  function Pieces(len: nat, size: nat): nat
    requires size > 0
  {
    Blk(len, size) + (if Idx(len, size) == 0 then 0 else 1)
  }

  /** The file with zeros up to a multiple of the page size. */
  function Padded(file: seq<byte>, ps: nat): seq<byte>
    requires ps > 0
  {
    file + ZeroBytes(if Idx(|file|, ps) == 0 then 0 else ps - Idx(|file|, ps))
  }

  lemma PaddedSize(file: seq<byte>, ps: nat)
    requires ps > 0
    ensures |Padded(file, ps)| == At(Pieces(|file|, ps), 0, ps) == |file| + (if Idx(|file|, ps) == 0 then 0 else ps - Idx(|file|, ps))
    ensures Idx(|Padded(file, ps)|, ps) == 0 && Blk(|Padded(file, ps)|, ps) == Pieces(|file|, ps)
  {
    Recompose(|file|, ps);
    AtIsLinear(Blk(|file|, ps), Idx(|file|, ps), ps);
    AtStep(Blk(|file|, ps), 0, ps);
    Split(Pieces(|file|, ps), 0, ps);
  }

  /** Padding adds zeros, as few as a multiple of the page size needs. */
  lemma PaddingMeans(file: seq<byte>, ps: nat)
    requires ps > 0
    ensures var p := Padded(file, ps);
            && |p| % ps == 0 && |file| <= |p| < |file| + ps && p[..|file|] == file
            && forall i | |file| <= i < |p| :: p[i] == 0
  {
    PaddedSize(file, ps);
    Quotient(|Padded(file, ps)|, ps);
    Recompose(|file|, ps);
  }

  /** The bytes of one bulk transfer: a whole block's worth. */
  function Transfer(g: Geometry): nat {
    At(g.ppb, 0, g.ps)
  }

  lemma TransferPositive(g: Geometry)
    requires g.Valid()
    ensures Transfer(g) >= g.ps > 0
  {
    AtStep(g.ppb - 1, 0, g.ps);
  }

  /** The blocks a file needs. */
  function BlocksFor(g: Geometry, file: seq<byte>): nat
    requires g.Valid()
  {
    TransferPositive(g);
    Pieces(|file|, Transfer(g))
  }

  lemma LeastCount(len: nat, size: nat, q: nat, r: nat, n: nat)
    requires len == q * size + r && r < size && n == q + (if r == 0 then 0 else 1)
    ensures n * size >= len && (n > 0 ==> (n - 1) * size < len)
  {
    if r == 0 {
      assert (q - 1) * size == q * size - size;
    } else {
      assert (q + 1) * size == q * size + size;
    }
  }

  /** They are as few as can hold it. */
  lemma BlocksMean(g: Geometry, file: seq<byte>, size: nat, n: nat)
    requires g.Valid() && n == BlocksFor(g, file) && size == Transfer(g)
    ensures size == g.ppb * g.ps
    ensures n * size >= |file| && (n > 0 ==> (n - 1) * size < |file|)
  {
    var q, r := Blk(|file|, size), Idx(|file|, size);
    AtIsLinear(g.ppb, 0, g.ps);
    Recompose(|file|, size);
    AtIsLinear(q, r, size);
    LeastCount(|file|, size, q, r, n);
  }

  /** A buffer of whole pages as a request. */
  function RequestOf(rs: Engine, g: Geometry, buf: seq<byte>): (q: Request)
    requires Sound(rs) && g.Valid()
    ensures |q.imgs| == |q.want| == Blk(|buf|, g.ps) && ValidChunks(g, NoOob, q.want)
    ensures q.imgs == Images(rs, g, NoOob, q.want)
  {
    Recompose(|buf|, g.ps);
    AtIsLinear(Blk(|buf|, g.ps), Idx(|buf|, g.ps), g.ps);
    var chunks := Cut(buf, g.ps, Blk(|buf|, g.ps));
    Request(Images(rs, g, NoOob, chunks), chunks)
  }

  /** The bulk transfers of a file: whole blocks, and a padded rest. */
  function Requests(rs: Engine, g: Geometry, file: seq<byte>): (r: seq<Request>)
    requires Sound(rs) && g.Valid()
    decreases |file|
  {
    TransferPositive(g);
    if file == [] then []
    else if |file| < Transfer(g) then [RequestOf(rs, g, Padded(file, g.ps))]
    else [RequestOf(rs, g, file[..Transfer(g)])] + Requests(rs, g, file[Transfer(g)..])
  }

  lemma BlockRequest(rs: Engine, g: Geometry, file: seq<byte>)
    requires Sound(rs) && g.Valid() && |file| >= Transfer(g)
    ensures var q := RequestOf(rs, g, file[..Transfer(g)]);
            |q.imgs| == g.ppb && Flat(q.want) == file[..Transfer(g)]
  {
    Split(g.ppb, 0, g.ps);
    FlatCut(file[..Transfer(g)], g.ps, g.ppb);
  }

  lemma TailRequest(rs: Engine, g: Geometry, file: seq<byte>)
    requires Sound(rs) && g.Valid() && 0 < |file| < Transfer(g)
    ensures var q := RequestOf(rs, g, Padded(file, g.ps));
            0 < |q.imgs| <= g.ppb && Flat(q.want) == Padded(file, g.ps)
  {
    var n := Pieces(|file|, g.ps);
    PaddedSize(file, g.ps);
    Recompose(|file|, g.ps);
    AtIsLinear(Blk(|file|, g.ps), Idx(|file|, g.ps), g.ps);
    AtOrder(Blk(|file|, g.ps), g.ppb, g.ps);
    FlatCut(Padded(file, g.ps), g.ps, n);
    assert Padded(file, g.ps)[..At(n, 0, g.ps)] == Padded(file, g.ps);
  }

  /** A file shorter than a transfer by nothing but its last block. */
  lemma DropBlock(g: Geometry, file: seq<byte>)
    requires g.Valid() && |file| >= Transfer(g)
    ensures Padded(file, g.ps) == file[..Transfer(g)] + Padded(file[Transfer(g)..], g.ps)
    ensures Pieces(|file|, g.ps) == g.ppb + Pieces(|file| - Transfer(g), g.ps)
    ensures Pieces(|file|, Transfer(g)) == 1 + Pieces(|file| - Transfer(g), Transfer(g))
  {
    TransferPositive(g);
    BlkAdd(|file| - Transfer(g), g.ppb, g.ps);
    NextBlock(|file| - Transfer(g), Transfer(g));
  }

  /** The transfers carry the file and the padding, page by page, one transfer to a block. */
  ghost predicate Carries(g: Geometry, file: seq<byte>, reqs: seq<Request>)
    requires g.Valid()
  {
    Flat(Wanted(reqs)) == Padded(file, g.ps) && |Wanted(reqs)| == Pieces(|file|, g.ps) && |reqs| == BlocksFor(g, file)
  }

  lemma {:induction false} TailCarries(rs: Engine, g: Geometry, file: seq<byte>, q: Request)
    requires Sound(rs) && g.Valid() && 0 < |file| < Transfer(g) && q == RequestOf(rs, g, Padded(file, g.ps))
    ensures Carries(g, file, [q])
  {
    TailRequest(rs, g, file);
    PaddedSize(file, g.ps);
    assert Wanted([q]) == q.want;
  }

  lemma {:induction false} BlockCarries(rs: Engine, g: Geometry, file: seq<byte>, q: Request, rest: seq<Request>)
    requires Sound(rs) && g.Valid() && |file| >= Transfer(g) && q == RequestOf(rs, g, file[..Transfer(g)])
    requires Carries(g, file[Transfer(g)..], rest)
    ensures Carries(g, file, [q] + rest)
  {
    BlockRequest(rs, g, file);
    DropBlock(g, file);
    assert ([q] + rest)[1..] == rest;
    FlatAppend(q.want, Wanted(rest));
  }

  lemma {:induction false} RequestsCarryFile(rs: Engine, g: Geometry, file: seq<byte>)
    requires Sound(rs) && g.Valid()
    ensures Carries(g, file, Requests(rs, g, file))
    decreases |file|
  {
    TransferPositive(g);
    if file == [] {
    } else if |file| < Transfer(g) {
      TailCarries(rs, g, file, RequestOf(rs, g, Padded(file, g.ps)));
    } else {
      RequestsCarryFile(rs, g, file[Transfer(g)..]);
      BlockCarries(rs, g, file, RequestOf(rs, g, file[..Transfer(g)]), Requests(rs, g, file[Transfer(g)..]));
    }
  }

  /** The transfer holds a block's worth of the file from `from` on, or what is left, padded. */
  ghost predicate CarriesPart(g: Geometry, file: seq<byte>, q: Request, from: nat)
    requires g.Valid()
  {
    && from < |file|
    && Flat(q.want) == if from + Transfer(g) <= |file| then file[from..from + Transfer(g)] else Padded(file[from..], g.ps)
  }

  lemma PartBehind(g: Geometry, file: seq<byte>, q: Request, size: nat, back: nat, from: nat)
    requires g.Valid() && size == Transfer(g) <= |file| && CarriesPart(g, file[size..], q, back) && from == back + size
    ensures CarriesPart(g, file, q, from)
  {
    assert file[size..][back..] == file[from..];
    if from + size <= |file| {
      assert file[size..][back..back + size] == file[from..from + size];
    }
  }

  lemma {:induction false} FirstPart(rs: Engine, g: Geometry, file: seq<byte>, q: Request)
    requires Sound(rs) && g.Valid() && file != [] && q == Requests(rs, g, file)[0]
    ensures CarriesPart(g, file, q, 0)
  {
    TransferPositive(g);
    if |file| < Transfer(g) {
      TailRequest(rs, g, file);
      assert file[0..] == file;
    } else {
      BlockRequest(rs, g, file);
    }
  }

  /** What transfer number `i` carries: the `i`-th block's worth of the file. */
  lemma {:induction false} RequestAt(rs: Engine, g: Geometry, file: seq<byte>, i: nat, from: nat)
    requires Sound(rs) && g.Valid() && i < |Requests(rs, g, file)| && from == At(i, 0, Transfer(g))
    ensures CarriesPart(g, file, Requests(rs, g, file)[i], from)
    decreases i
  {
    var size, reqs := Transfer(g), Requests(rs, g, file);
    if i == 0 {
      FirstPart(rs, g, file, reqs[0]);
    } else {
      RequestAt(rs, g, file[size..], i - 1, from - size);
      PartBehind(g, file, reqs[i], size, from - size, from);
    }
  }

  lemma RequestIsGood(rs: Engine, g: Geometry, buf: seq<byte>)
    requires Sound(rs) && g.Valid() && MarksClear(g) && 0 < |RequestOf(rs, g, buf).imgs| <= g.ppb
    ensures GoodRequest(ReaderOf(rs, g, NoOob), g, RequestOf(rs, g, buf))
  {
    var q := RequestOf(rs, g, buf);
    NoOobStorable(rs, g, q.want);
    StorableReadsBack(rs, g, NoOob, q.want);
  }

  lemma {:induction false} RequestsAreGood(rs: Engine, g: Geometry, file: seq<byte>)
    requires Sound(rs) && g.Valid() && MarksClear(g)
    ensures GoodRequests(ReaderOf(rs, g, NoOob), g, Requests(rs, g, file))
    decreases |file|
  {
    TransferPositive(g);
    if file == [] {
    } else if |file| < Transfer(g) {
      TailRequest(rs, g, file);
      RequestIsGood(rs, g, Padded(file, g.ps));
    } else {
      BlockRequest(rs, g, file);
      RequestIsGood(rs, g, file[..Transfer(g)]);
      RequestsAreGood(rs, g, file[Transfer(g)..]);
    }
  }

  lemma {:induction false} RequestsNotEmpty(rs: Engine, g: Geometry, file: seq<byte>)
    requires Sound(rs) && g.Valid()
    ensures NoneEmpty(Requests(rs, g, file))
    decreases |file|
  {
    TransferPositive(g);
    if file == [] {
    } else if |file| < Transfer(g) {
      TailRequest(rs, g, file);
    } else {
      BlockRequest(rs, g, file);
      RequestsNotEmpty(rs, g, file[Transfer(g)..]);
    }
  }

  // ----- erasing and then sending a list of transfers

  ghost predicate NoneEmpty(reqs: seq<Request>) {
    forall i | 0 <= i < |reqs| :: reqs[i].imgs != []
  }

  function SendErased(rd: Reader, g: Geometry, start: nat, reqs: seq<Request>, erased: Option<(Chip, nat)>): Option<(Chip, nat, nat)>
    requires g.Valid() && NoneEmpty(reqs)
  {
    match erased
    case None => None
    case Some((c1, e)) => Sent(ProgramAll(rd, g, c1, reqs, start), e)
  }

  function Sent(sent: Option<(Chip, nat)>, e: nat): Option<(Chip, nat, nat)> {
    match sent
    case None => None
    case Some((c2, end)) => Some((c2, e, end))
  }

  /** Erase a block for every transfer, then send them. The result is the chip, the block the
      erase ended at and the page the last transfer ended at. */
  function EraseAndSend(rd: Reader, g: Geometry, c: Chip, start: nat, reqs: seq<Request>, force: bool): Option<(Chip, nat, nat)>
    requires g.Valid() && NoneEmpty(reqs)
  {
    SendErased(rd, g, start, reqs, EraseBlocks(g, c, Blk(start, g.ppb), |reqs|, force))
  }

  /** The good blocks of an erased range are erased. */
  lemma {:induction false} ErasedGoodFromRange(g: Geometry, c: Chip, c1: Chip, s: nat, e: nat, b: nat)
    requires ErasedRange(g, c, c1, s, e) && s <= b <= e
    ensures ErasedGood(g, c1.blocks, b, CountGood(g, c1.blocks, b, e), e)
    decreases e - b
  {
    if b < e {
      ErasedGoodFromRange(g, c, c1, s, e, b + 1);
    }
  }

  lemma {:induction false} ShapedAfterErase(g: Geometry, c: Chip, b: nat, e: nat, force: bool)
    requires g.Valid() && Shaped(g, c)
    ensures var r := EraseFrom(g, c, b, e, force); r.Some? ==> Shaped(g, r.value.0)
    decreases |c.blocks| - b
  {
    if b < e && b < |c.blocks| {
      if !force && IsBad(g, c.blocks[b]) {
        ShapedAfterErase(g, c, b + 1, e + g.plane, force);
      } else {
        ShapedAfterErase(g, EraseOne(g, c, b), b + 1, e, force);
      }
    }
  }

  /** What the transfers leave: they are read back from the start page, the range passed
      holds exactly as many good blocks as there are transfers, and bad blocks and blocks
      outside that range are untouched. */
  ghost predicate Stored(rd: Reader, g: Geometry, c: Chip, s: nat, reqs: seq<Request>, c2: Chip, e: nat, end: nat)
    requires g.ppb > 0
  {
    && s <= e <= |c.blocks| && |c2.blocks| == |c.blocks|
    && CountGood(g, c.blocks, s, e) == |reqs|
    && (forall i | 0 <= i < |c.blocks| && !(s <= i < e && !IsBad(g, c.blocks[i])) :: c2.blocks[i] == c.blocks[i])
    && ReadFrom(rd, g, c2.blocks, At(s, 0, g.ppb), |Wanted(reqs)|) == Some((Wanted(reqs), end))
  }

  /** They are stored, or the chip has too few good blocks left. */
  ghost predicate StoredOrFull(rd: Reader, g: Geometry, c: Chip, s: nat, reqs: seq<Request>, r: Option<(Chip, nat, nat)>)
    requires g.ppb > 0
  {
    match r
    case None => s <= |c.blocks| && CountGood(g, c.blocks, s, |c.blocks|) < |reqs|
    case Some((c2, e, end)) => Stored(rd, g, c, s, reqs, c2, e, end)
  }

  /** An erase that no failure disturbs leaves the block range ready for the transfers. */
  lemma ErasedForSending(g: Geometry, c: Chip, s: nat, n: nat, c1: Chip, e: nat)
    requires g.Valid() && Shaped(g, c) && g.plane == 1 && s <= |c.blocks| && Fails(c.status) == 0
    requires EraseBlocks(g, c, s, n, false) == Some((c1, e))
    ensures ErasedRange(g, c, c1, s, e) && CountGood(g, c.blocks, s, e) == n
    ensures Shaped(g, c1) && Fails(c1.status) == 0 && ErasedGood(g, c1.blocks, s, n, e)
  {
    EraseTries(g, c, s, s + n);
    ErasedGoodFromRange(g, c, c1, s, e, s);
    ShapedAfterErase(g, c, s, s + n, false);
  }

  lemma UntouchedBlocks(g: Geometry, c: Chip, c1: Chip, s: nat, e: nat)
    requires ErasedRange(g, c, c1, s, e)
    ensures forall i | 0 <= i < |c.blocks| && !(s <= i < e && !IsBad(g, c.blocks[i])) ::
              c1.blocks[i] == c.blocks[i] && (s <= i < e ==> IsBad(g, c1.blocks[i]))
  {
  }

  lemma StoredAfterErase(rd: Reader, g: Geometry, c: Chip, s: nat, reqs: seq<Request>, c1: Chip, e: nat, sent: Option<(Chip, nat)>)
    requires g.Valid() && Shaped(g, c1) && Fails(c1.status) == 0 && GoodRequests(rd, g, reqs)
    requires ErasedRange(g, c, c1, s, e) && CountGood(g, c.blocks, s, e) == |reqs|
    requires ErasedGood(g, c1.blocks, s, |reqs|, e)
    requires sent == ProgramAll(rd, g, c1, reqs, At(s, 0, g.ppb))
    ensures StoredOrFull(rd, g, c, s, reqs, Sent(sent, e))
  {
    FlashAll(rd, g, c1, reqs, s, At(s, 0, g.ppb), |reqs|, e);
    UntouchedBlocks(g, c, c1, s, e);
  }

  lemma {:induction false} SentAfterErase(rd: Reader, g: Geometry, c: Chip, s: nat, reqs: seq<Request>, erased: Option<(Chip, nat)>)
    requires g.Valid() && Shaped(g, c) && GoodRequests(rd, g, reqs) && g.plane == 1
    requires s <= |c.blocks| && Fails(c.status) == 0 && erased == EraseBlocks(g, c, s, |reqs|, false)
    ensures StoredOrFull(rd, g, c, s, reqs, SendErased(rd, g, At(s, 0, g.ppb), reqs, erased))
  {
    if erased.Some? {
      ErasedForSending(g, c, s, |reqs|, erased.value.0, erased.value.1);
      StoredAfterErase(rd, g, c, s, reqs, erased.value.0, erased.value.1, ProgramAll(rd, g, erased.value.0, reqs, At(s, 0, g.ppb)));
    } else {
      EraseTries(g, c, s, s + |reqs|);
    }
  }

  /** Any bad blocks on the chip, and no program or erase that fails. */
  lemma {:induction false} SendingStores(rd: Reader, g: Geometry, c: Chip, s: nat, start: nat, reqs: seq<Request>)
    requires g.Valid() && Shaped(g, c) && GoodRequests(rd, g, reqs) && g.plane == 1
    requires start == At(s, 0, g.ppb) && s <= |c.blocks| && Fails(c.status) == 0
    ensures StoredOrFull(rd, g, c, s, reqs, EraseAndSend(rd, g, c, start, reqs, false))
  {
    Split(s, 0, g.ppb);
    var erased := EraseBlocks(g, c, s, |reqs|, false);
    SentAfterErase(rd, g, c, s, reqs, erased);
    assert EraseAndSend(rd, g, c, start, reqs, false) == SendErased(rd, g, start, reqs, erased);
  }

  // ----- nand_program_file

  /** nand_program_file: erase as many blocks as the file needs, then send it. */
  function FlashFile(rs: Engine, rd: Reader, g: Geometry, c: Chip, start: nat, file: seq<byte>, force: bool): Option<(Chip, nat, nat)>
    requires Sound(rs) && g.Valid()
  {
    RequestsNotEmpty(rs, g, file);
    EraseAndSend(rd, g, c, start, Requests(rs, g, file), force)
  }

  /** The file, with zeros up to a page, is what reading its pages from block `s` delivers. */
  ghost predicate FileRead(rd: Reader, g: Geometry, bl: seq<Block>, s: nat, file: seq<byte>, end: nat)
    requires g.ppb > 0 && g.ps > 0
  {
    match ReadFrom(rd, g, bl, At(s, 0, g.ppb), Pieces(|file|, g.ps))
    case None => false
    case Some((pages, last)) => last == end && Flat(pages) == Padded(file, g.ps)
  }

  /** What flashing a file from block `s` leaves: the file, in a range of blocks that holds
      exactly as many good blocks as the file needs, with bad blocks and blocks outside that
      range untouched. It fails exactly when the chip has too few good blocks left. */
  ghost predicate FileOutcome(rd: Reader, g: Geometry, c: Chip, s: nat, file: seq<byte>, r: Option<(Chip, nat, nat)>)
    requires g.Valid()
  {
    match r
    case None => s <= |c.blocks| && CountGood(g, c.blocks, s, |c.blocks|) < BlocksFor(g, file)
    case Some((c2, e, end)) =>
      && s <= e <= |c.blocks| && |c2.blocks| == |c.blocks|
      && CountGood(g, c.blocks, s, e) == BlocksFor(g, file)
      && (forall i | 0 <= i < |c.blocks| && !(s <= i < e && !IsBad(g, c.blocks[i])) :: c2.blocks[i] == c.blocks[i])
      && FileRead(rd, g, c2.blocks, s, file, end)
  }

  lemma OutcomeOfFile(rd: Reader, g: Geometry, c: Chip, s: nat, file: seq<byte>, reqs: seq<Request>, r: Option<(Chip, nat, nat)>)
    requires g.Valid() && StoredOrFull(rd, g, c, s, reqs, r)
    requires Carries(g, file, reqs)
    ensures FileOutcome(rd, g, c, s, file, r)
  {
  }

  /** Flashing a file from the first page of a block of a chip with any bad blocks, when no
      program or erase fails. */
  lemma FileIsStored(rs: Engine, rd: Reader, g: Geometry, c: Chip, s: nat, start: nat, file: seq<byte>)
    requires Sound(rs) && g.Valid() && Shaped(g, c) && MarksClear(g) && g.plane == 1
    requires rd == ReaderOf(rs, g, NoOob)
    requires start == At(s, 0, g.ppb) && s <= |c.blocks| && Fails(c.status) == 0
    ensures FileOutcome(rd, g, c, s, file, FlashFile(rs, rd, g, c, start, file, false))
  {
    var reqs := Requests(rs, g, file);
    RequestsAreGood(rs, g, file);
    RequestsCarryFile(rs, g, file);
    SendingStores(rd, g, c, s, start, reqs);
    OutcomeOfFile(rd, g, c, s, file, reqs, EraseAndSend(rd, g, c, start, reqs, false));
  }

  /** Whatever failures the programming meets, the file is stored when the blocks from `s` on
      hold an erased good block for every transfer and one more for every failure to come. */
  lemma StoredWithSpares(rs: Engine, rd: Reader, g: Geometry, c: Chip, s: nat, file: seq<byte>, k: nat, hi: nat)
    requires Sound(rs) && g.Valid() && Shaped(g, c) && MarksClear(g)
    requires rd == ReaderOf(rs, g, NoOob)
    requires hi <= |c.blocks| && k >= BlocksFor(g, file) + Fails(c.status) && ErasedGood(g, c.blocks, s, k, hi)
    ensures NoneEmpty(Requests(rs, g, file))
    ensures match ProgramAll(rd, g, c, Requests(rs, g, file), At(s, 0, g.ppb))
            case None => false
            case Some((c2, end)) =>
              && |c2.blocks| == |c.blocks|
              && (forall i | 0 <= i < |c.blocks| && (i < s || i >= hi || IsBad(g, c.blocks[i])) :: c2.blocks[i] == c.blocks[i])
              && FileRead(rd, g, c2.blocks, s, file, end)
  {
    RequestsNotEmpty(rs, g, file);
    RequestsAreGood(rs, g, file);
    RequestsCarryFile(rs, g, file);
    FlashAll(rd, g, c, Requests(rs, g, file), s, At(s, 0, g.ppb), k, hi);
  }

  /** A file that can be read can still be read after the chip has aged. */
  lemma FileSurvivesAgeing(rs: Engine, rd: Reader, g: Geometry, bl: seq<Block>, later: seq<Block>, s: nat, file: seq<byte>, end: nat)
    requires Sound(rs) && g.Valid() && ValidBlocks(g, bl) && ValidBlocks(g, later) && |later| == |bl|
    requires rd == ReaderOf(rs, g, NoOob)
    requires AgedBlocks(rs, g, bl, later) && FileRead(rd, g, bl, s, file, end)
    ensures FileRead(rd, g, later, s, file, end)
  {
    AgedReadsSame(rs, g, NoOob, bl, later, At(s, 0, g.ppb), Pieces(|file|, g.ps));
  }
}
