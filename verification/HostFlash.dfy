/** The host side of flashing a plain image: erase, cut into transfers, program, read back,
    compare. One chip on one chip-select line. */
module HostFlash {
  import opened Options
  import opened RsCode
  import opened Flash
  import opened PageFormat
  import opened PageNumbers
  import opened NandSpec
  import opened Programming
  import opened Flashing
  import opened Erasing
  import opened ImageFile
  import opened ReadResult
  import opened FlashFile
  import opened Nand4740

  const NAND_MAX_BLK_NUM: nat := 10000000
  const MAX_TRANSFER_SIZE: nat := 0x100000

  /** Refused by a check of the host. LeftTheChip is no error of the source: it stands for a
      request that has carried on past the last block of the chip, where nothing is said. */
  datatype HostError = TooManyBlocks | TransferTooLong | LeftTheChip

  datatype Result<T> = Ok(value: T) | Err(error: HostError)

  /** The host's answer for a step whose effect on the chip is `want`. */
  ghost predicate Reports(want: Option<(Chip, nat)>, r: Result<nat>, c: Chip) {
    match want
    case None => r == Err(LeftTheChip)
    case Some((c1, end)) => r == Ok(end) && c == c1
  }

  function Unblocked(r: Option<(Chip, nat, nat)>): Option<(Chip, nat)> {
    match r
    case None => None
    case Some((c, _, end)) => Some((c, end))
  }

  /** The longest transfer of a file. */
  function Longest(g: Geometry, file: seq<byte>): nat
    requires g.Valid()
  {
    if |file| >= Transfer(g) then Transfer(g) else |Padded(file, g.ps)|
  }

  lemma WholeBlocks(len: nat, size: nat)
    requires size > 0
    ensures At(len / size, 0, size) <= len < At(len / size, 0, size) + size
  {
    Quotient(len, size);
    Recompose(len, size);
    AtIsLinear(Blk(len, size), Idx(len, size), size);
  }

  lemma NextOffset(len: nat, size: nat, m: nat, k: nat)
    requires size > 0 && At(m, 0, size) <= len && k < m
    ensures At(k, 0, size) + size == At(k + 1, 0, size) <= len
  {
    AtStep(k, 0, size);
    AtOrder(m, k + 1, size);
  }

  /** What is left after the whole blocks pads to no more than the longest transfer. */
  lemma TailFits(g: Geometry, file: seq<byte>, m: nat)
    requires g.Valid() && At(m, 0, Transfer(g)) <= |file| < At(m, 0, Transfer(g)) + Transfer(g)
    ensures |Padded(file[At(m, 0, Transfer(g))..], g.ps)| <= Longest(g, file)
  {
    var rest := file[At(m, 0, Transfer(g))..];
    if m == 0 {
      assert rest == file;
    } else {
      AtStep(m - 1, 0, Transfer(g));
      PaddedFits(g, rest);
    }
  }

  lemma LongestLimit(g: Geometry, file: seq<byte>, m: nat)
    requires g.Valid() && At(m, 0, Transfer(g)) <= |file| < At(m, 0, Transfer(g)) + Transfer(g)
    ensures m > 0 ==> Longest(g, file) == Transfer(g)
    ensures m == 0 ==> Longest(g, file) == |Padded(file[At(m, 0, Transfer(g))..], g.ps)|
  {
    if m == 0 {
      assert file[0..] == file;
    } else {
      AtStep(m - 1, 0, Transfer(g));
    }
  }

  lemma PaddedFits(g: Geometry, rest: seq<byte>)
    requires g.Valid() && |rest| < Transfer(g)
    ensures |Padded(rest, g.ps)| <= Transfer(g)
  {
    PaddedSize(rest, g.ps);
    Recompose(|rest|, g.ps);
    AtIsLinear(Blk(|rest|, g.ps), Idx(|rest|, g.ps), g.ps);
    AtOrder(Blk(|rest|, g.ps), g.ppb, g.ps);
    AtOrder(g.ppb, Pieces(|rest|, g.ps), g.ps);
  }

  /** nand_program_check, from its two halves. */
  lemma {:induction false} CheckedInTwo(rd: Reader, g: Geometry, c: Chip, q: Request, p: nat, done: bool, c1: Chip)
    requires g.Valid() && q.imgs != []
    requires match Program(g, c, q.imgs, p)
             case None => !done
             case Some((c', _)) => done && c1 == c'
    ensures Checked(rd, g, c, q.imgs, q.want, p) ==
            if !done then None
            else match ReadFrom(rd, g, c1.blocks, p, |q.imgs|)
              case None => None
              case Some((back, cur)) =>
                if back != q.want && Idx(cur, g.ppb) == 0 then Some((MarkBad(g, c1, Blk(cur - 1, g.ppb)), cur)) else Some((c1, cur))
  {
  }

  /** A read ends behind a page of the chip. */
  lemma {:induction false} ReadEnds(rd: Reader, g: Geometry, bl: seq<Block>, p: nat, n: nat)
    requires g.ppb > 0 && n > 0
    ensures var r := ReadFrom(rd, g, bl, p, n);
            r.Some? ==> r.value.1 > p && Blk(r.value.1 - 1, g.ppb) < |bl|
  {
  }

  lemma CheckedAdvances(rd: Reader, g: Geometry, c: Chip, imgs: seq<Image>, want: seq<Chunk>, p: nat)
    requires g.Valid() && imgs != []
    ensures Checked(rd, g, c, imgs, want, p).Some? ==> Checked(rd, g, c, imgs, want, p).value.1 > p
  {
  }

  lemma {:induction false} ProgramOne(rd: Reader, g: Geometry, c: Chip, q: Request, p: nat)
    requires g.Valid() && q.imgs != []
    ensures ProgramAll(rd, g, c, [q], p) == Checked(rd, g, c, q.imgs, q.want, p)
  {
  }

  /** The transfers still to be made when the file has been read up to `offset`. */
  ghost predicate Pending(rs: Engine, g: Geometry, file: seq<byte>, offset: nat, todo: seq<Request>)
    requires Sound(rs) && g.Valid()
  {
    offset <= |file| && todo == Requests(rs, g, file[offset..])
  }

  lemma AllPending(rs: Engine, g: Geometry, file: seq<byte>)
    requires Sound(rs) && g.Valid()
    ensures Pending(rs, g, file, 0, Requests(rs, g, file))
  {
    assert file[0..] == file;
  }

  lemma NextBlockPending(rs: Engine, g: Geometry, file: seq<byte>, offset: nat, todo: seq<Request>, next: nat)
    returns (q: Request)
    requires Sound(rs) && g.Valid() && Pending(rs, g, file, offset, todo)
    requires next == offset + Transfer(g) <= |file|
    ensures todo != [] && todo[0] == q == RequestOf(rs, g, file[offset..next]) && q.imgs != []
    ensures Pending(rs, g, file, next, todo[1..])
  {
    TransferPositive(g);
    assert file[offset..][..Transfer(g)] == file[offset..next] && file[offset..][Transfer(g)..] == file[next..];
    BlockRequest(rs, g, file[offset..]);
    q := todo[0];
  }

  lemma TailPending(rs: Engine, g: Geometry, file: seq<byte>, offset: nat, todo: seq<Request>)
    requires Sound(rs) && g.Valid() && Pending(rs, g, file, offset, todo)
    requires |file| - Transfer(g) < offset < |file|
    ensures todo == [RequestOf(rs, g, Padded(file[offset..], g.ps))] && todo[0].imgs != []
  {
    TailRequest(rs, g, file[offset..]);
  }

  lemma NothingPending(rs: Engine, g: Geometry, file: seq<byte>, todo: seq<Request>)
    requires Sound(rs) && g.Valid() && Pending(rs, g, file, |file|, todo)
    ensures todo == []
  {
  }

  /** The division with the remainder rounded up, as the host writes it out. */
  method CountPieces(length: nat, size: nat) returns (n: nat)
    requires size > 0
    ensures n == Pieces(length, size)
  {
    n := length / size;
    Quotient(length, size);
    if length % size != 0 {
      n := n + 1;
    }
  }

  class Host {
    const driver: Driver
    const check_buf: array<byte>
    const force: bool  // hand.nand_force_erase
    var start: nat     // ni->start

    ghost predicate Valid()
      reads this, driver, driver.oob_buf
    {
      driver.Valid() && check_buf != driver.oob_buf && check_buf.Length >= MAX_TRANSFER_SIZE
    }

    constructor (driver: Driver, force: bool, start: nat)
      requires driver.Valid()
      ensures Valid() && this.driver == driver && this.force == force && this.start == start && fresh(check_buf)
    {
      this.driver, this.force, this.start := driver, force, start;
      check_buf := new byte[MAX_TRANSFER_SIZE];
    }

    /** error_check. */
    method ErrorCheck(org: seq<byte>) returns (same: bool)
      requires |org| <= check_buf.Length
      ensures same <==> org == check_buf[..|org|]
    {
      for i := 0 to |org|
        invariant org[..i] == check_buf[..i]
      {
        if org[i] != check_buf[i] {
          assert check_buf[..|org|][i] != org[i];
          return false;
        }
      }
      same := true;
    }

    /** nand_erase: the block the device stopped at. */
    method Erase(start_blk: nat, blk_num: nat) returns (r: Result<nat>)
      requires Valid()
      modifies driver`chip, driver`reg, driver.oob_buf
      ensures Valid()
      ensures start_blk > NAND_MAX_BLK_NUM || blk_num > NAND_MAX_BLK_NUM ==> r == Err(TooManyBlocks) && driver.chip == old(driver.chip)
      ensures start_blk <= NAND_MAX_BLK_NUM && blk_num <= NAND_MAX_BLK_NUM ==>
                Reports(EraseBlocks(driver.Geo(), old(driver.chip), start_blk, blk_num, force), r, driver.chip)
    {
      if start_blk > NAND_MAX_BLK_NUM {
        return Err(TooManyBlocks);
      }
      if blk_num > NAND_MAX_BLK_NUM {
        return Err(TooManyBlocks);
      }
      ghost var erased := EraseBlocks(driver.Geo(), driver.chip, start_blk, blk_num, force);
      var cur := driver.Erase(blk_num, start_blk, force);
      if cur == None {
        return Err(LeftTheChip);
      }
      Split(erased.value.1, 0, driver.ppb);
      Quotient(cur.value, driver.ppb);
      r := Ok(cur.value / driver.ppb);
    }

    /** The second half of nand_program_check: read `page_num` pages back and compare. */
    method ReadBackCheck(buf: seq<byte>, page_num: nat, ghost rd: Reader, ghost q: Request) returns (same: bool, end: Option<nat>)
      requires Valid() && rd == ReaderOf(driver.rs, driver.Geo(), NoOob) && q == RequestOf(driver.rs, driver.Geo(), buf)
      requires |buf| == At(page_num, 0, driver.pagesize) <= MAX_TRANSFER_SIZE && page_num == |q.imgs|
      modifies check_buf, driver.oob_buf, driver`handshake3
      ensures Valid()
      ensures match ReadFrom(rd, driver.Geo(), driver.chip.blocks, start, page_num)
              case None => end == None
              case Some((back, cur)) => end == Some(cur) && (same <==> back == q.want)
    {
      ghost var rs, g := driver.rs, driver.Geo();
      same := false;
      end := driver.Read(check_buf, start, page_num, NoOob, rd);
      if end.Some? {
        same := ErrorCheck(buf);
        ghost var back := ReadFrom(rd, g, driver.chip.blocks, start, page_num).value.0;
        ReadSizes(rs, g, NoOob, driver.chip.blocks, start, page_num);
        SameBytes(rs, g, buf, page_num, back);
        assert check_buf[..|buf|] == Flat(back);
      }
    }

    /** A mismatch condemns the block of the last page, if the transfer ended with a block. */
    method MarkIfWrong(same: bool, cur: nat)
      requires Valid() && cur > 0 && Blk(cur - 1, driver.ppb) < |driver.chip.blocks|
      modifies driver`chip, driver`reg
      ensures Valid()
      ensures driver.chip == if !same && Idx(cur, driver.ppb) == 0 then MarkBad(driver.Geo(), old(driver.chip), Blk(cur - 1, driver.ppb))
                             else old(driver.chip)
    {
      if !same {
        Quotient(cur - 1, driver.ppb);
        Quotient(cur, driver.ppb);
        var bad := (cur - 1) / driver.ppb;
        if cur % driver.ppb == 0 {
          var _ := driver.MarkBlockBad(bad);
        }
      }
    }

    /** The first half of nand_program_check: send and program. */
    method ProgramPages(buf: seq<byte>, page_num: nat, ghost q: Request) returns (done: bool)
      requires Valid() && q == RequestOf(driver.rs, driver.Geo(), buf) && driver.BootFree(start)
      requires |buf| == At(page_num, 0, driver.pagesize) && page_num == |q.imgs|
      modifies driver, driver.oob_buf
      ensures Valid() && driver.Geo() == old(driver.Geo())
      ensures match NandSpec.Program(driver.Geo(), old(driver.chip), q.imgs, start)
              case None => !done
              case Some((c, _)) => done && driver.chip == c
    {
      Split(page_num, 0, driver.pagesize);
      CutHoldsImages(driver.rs, driver.Geo(), NoOob, buf, page_num);
      var end := driver.Program(buf, start, page_num, NoOob, q.imgs);
      done := end.Some?;
    }

    /** Read back, compare, and mark. */
    method CheckPages(buf: seq<byte>, page_num: nat, ghost rd: Reader, ghost q: Request) returns (end: Option<nat>)
      requires Valid() && rd == ReaderOf(driver.rs, driver.Geo(), NoOob) && q == RequestOf(driver.rs, driver.Geo(), buf)
      requires |buf| == At(page_num, 0, driver.pagesize) <= MAX_TRANSFER_SIZE && page_num == |q.imgs| && page_num > 0
      modifies check_buf, driver`chip, driver`reg, driver`handshake3, driver.oob_buf
      ensures Valid()
      ensures match ReadFrom(rd, driver.Geo(), old(driver.chip).blocks, start, page_num)
              case None => end == None
              case Some((back, cur)) =>
                && end == Some(cur)
                && driver.chip == if back != q.want && Idx(cur, driver.ppb) == 0 then MarkBad(driver.Geo(), old(driver.chip), Blk(cur - 1, driver.ppb))
                                  else old(driver.chip)
    {
      var same;
      ReadEnds(rd, driver.Geo(), driver.chip.blocks, start, page_num);
      same, end := ReadBackCheck(buf, page_num, rd, q);
      if end.Some? {
        MarkIfWrong(same, end.value);
      }
    }

    /** nand_program_check: the page to go on at. */
    method ProgramCheck(buf: seq<byte>, ghost rd: Reader, ghost q: Request) returns (r: Result<nat>)
      requires Valid() && q == RequestOf(driver.rs, driver.Geo(), buf) && q.imgs != []
      requires rd == ReaderOf(driver.rs, driver.Geo(), NoOob) && Idx(|buf|, driver.pagesize) == 0 && driver.BootFree(start)
      modifies check_buf, driver, driver.oob_buf
      ensures Valid() && driver.Geo() == old(driver.Geo())
      ensures |buf| > MAX_TRANSFER_SIZE ==> r == Err(TransferTooLong) && driver.chip == old(driver.chip)
      ensures |buf| <= MAX_TRANSFER_SIZE ==>
                Reports(Checked(rd, driver.Geo(), old(driver.chip), q.imgs, q.want, start), r, driver.chip)
    {
      if |buf| > MAX_TRANSFER_SIZE {
        return Err(TransferTooLong);
      }
      var page_num := CountPieces(|buf|, driver.pagesize);
      Recompose(|buf|, driver.pagesize);
      ghost var c := driver.chip;
      var done := ProgramPages(buf, page_num, q);
      CheckedInTwo(rd, driver.Geo(), c, q, start, done, driver.chip);
      if !done {
        return Err(LeftTheChip);
      }
      var end := CheckPages(buf, page_num, rd, q);
      r := if end.Some? then Ok(end.value) else Err(LeftTheChip);
    }

    /** One transfer of nand_program_file, and the page the next one starts at. */
    method SendTransfer(code_buf: seq<byte>, ghost rd: Reader, ghost q: Request) returns (r: Result<nat>)
      requires Valid() && q == RequestOf(driver.rs, driver.Geo(), code_buf) && q.imgs != []
      requires rd == ReaderOf(driver.rs, driver.Geo(), NoOob) && Idx(|code_buf|, driver.pagesize) == 0 && driver.BootFree(start)
      modifies this`start, check_buf, driver, driver.oob_buf
      ensures Valid() && driver.Geo() == old(driver.Geo()) && driver.BootFree(start)
      ensures |code_buf| > MAX_TRANSFER_SIZE ==> r == Err(TransferTooLong) && driver.chip == old(driver.chip)
      ensures |code_buf| <= MAX_TRANSFER_SIZE ==>
                && Reports(Checked(rd, driver.Geo(), old(driver.chip), q.imgs, q.want, old(start)), r, driver.chip)
                && (r.Ok? ==> start == r.value)
    {
      ghost var g, c, p := driver.Geo(), driver.chip, start;
      r := ProgramCheck(code_buf, rd, q);
      if r.Ok? {
        CheckedAdvances(rd, g, c, q.imgs, q.want, p);
        start := r.value;
      }
    }

    /** Where the sending of a file stands: sent up to `offset`, with the transfers `todo` to
        come, which are to lead to `want`. */
    ghost predicate Sending(file: seq<byte>, offset: nat, rd: Reader, todo: seq<Request>, want: Option<(Chip, nat)>)
      reads this, driver, driver.oob_buf
    {
      && Valid() && driver.BootFree(start)
      && Pending(driver.rs, driver.Geo(), file, offset, todo) && NoneEmpty(todo)
      && ProgramAll(rd, driver.Geo(), driver.chip, todo, start) == want
    }

    /** The chunk loop: the whole blocks of the file. */
    method SendBlocks(file: seq<byte>, m: nat, size: nat, ghost rd: Reader, ghost reqs: seq<Request>, ghost want: Option<(Chip, nat)>)
      returns (r: Result<nat>, offset: nat, ghost todo: seq<Request>)
      requires Sending(file, 0, rd, reqs, want) && rd == ReaderOf(driver.rs, driver.Geo(), NoOob)
      requires size == Transfer(driver.Geo()) > 0 && At(m, 0, size) <= |file|
      modifies this`start, check_buf, driver, driver.oob_buf
      ensures Valid() && driver.Geo() == old(driver.Geo())
      ensures m == 0 ==> r.Ok? && driver.chip == old(driver.chip)
      ensures if m > 0 && size > MAX_TRANSFER_SIZE then r == Err(TransferTooLong) && driver.chip == old(driver.chip)
              else r == Ok(start) || (r == Err(LeftTheChip) && want == None)
      ensures r.Ok? ==> offset == At(m, 0, size) && Sending(file, offset, rd, todo, want)
    {
      ghost var g := driver.Geo();
      r, offset, todo := Ok(start), 0, reqs;
      for k := 0 to m
        invariant offset == At(k, 0, size) <= |file| && driver.Geo() == g && r == Ok(start)
        invariant Sending(file, offset, rd, todo, want)
        invariant if k > 0 then size <= MAX_TRANSFER_SIZE else driver.chip == old(driver.chip)
      {
        NextOffset(|file|, size, m, k);
        var next := offset + size;
        r := SendBlock(file, offset, next, rd, todo, want);
        if r.Err? {
          return;
        }
        offset, todo := next, todo[1..];
      }
    }

    /** Everything after the erase: whole blocks, and then the rest with zeros up to a page. */
    method SendFile(file: seq<byte>, ghost rd: Reader, ghost reqs: seq<Request>, ghost want: Option<(Chip, nat)>) returns (r: Result<nat>)
      requires Sending(file, 0, rd, reqs, want) && rd == ReaderOf(driver.rs, driver.Geo(), NoOob)
      modifies this`start, check_buf, driver, driver.oob_buf
      ensures Valid() && driver.Geo() == old(driver.Geo())
      ensures if Longest(driver.Geo(), file) > MAX_TRANSFER_SIZE then r == Err(TransferTooLong) && driver.chip == old(driver.chip)
              else Reports(want, r, driver.chip)
    {
      ghost var todo;
      var size, m := CountBlocks(|file|);
      var offset;
      LongestLimit(driver.Geo(), file, m);
      r, offset, todo := SendBlocks(file, m, size, rd, reqs, want);
      if r.Err? {
        return;
      }
      TailFits(driver.Geo(), file, m);
      r := SendRest(file, offset, rd, todo);
    }

    /** What is left after the whole blocks, if anything is. */
    method SendRest(file: seq<byte>, offset: nat, ghost rd: Reader, ghost todo: seq<Request>) returns (r: Result<nat>)
      requires Valid() && driver.BootFree(start) && rd == ReaderOf(driver.rs, driver.Geo(), NoOob)
      requires Pending(driver.rs, driver.Geo(), file, offset, todo) && NoneEmpty(todo)
      requires |file| - Transfer(driver.Geo()) < offset
      modifies this`start, check_buf, driver, driver.oob_buf
      ensures Valid() && driver.Geo() == old(driver.Geo())
      ensures if |Padded(file[offset..], driver.pagesize)| > MAX_TRANSFER_SIZE then r == Err(TransferTooLong) && driver.chip == old(driver.chip)
              else Reports(ProgramAll(rd, driver.Geo(), old(driver.chip), todo, old(start)), r, driver.chip)
    {
      r := Ok(start);
      if offset < |file| {
        TailPending(driver.rs, driver.Geo(), file, offset, todo);
        r := SendTail(file[offset..], rd, todo[0]);
      } else {
        NothingPending(driver.rs, driver.Geo(), file, todo);
      }
    }

    /** The first of the transfers still to be made. */
    method SendBlock(file: seq<byte>, offset: nat, next: nat, ghost rd: Reader, ghost todo: seq<Request>, ghost want: Option<(Chip, nat)>)
      returns (r: Result<nat>)
      requires Sending(file, offset, rd, todo, want) && rd == ReaderOf(driver.rs, driver.Geo(), NoOob)
      requires next == offset + Transfer(driver.Geo()) <= |file|
      modifies this`start, check_buf, driver, driver.oob_buf
      ensures Valid() && driver.Geo() == old(driver.Geo())
      ensures Transfer(driver.Geo()) > MAX_TRANSFER_SIZE ==> r == Err(TransferTooLong) && driver.chip == old(driver.chip)
      ensures Transfer(driver.Geo()) <= MAX_TRANSFER_SIZE ==> r == Ok(start) || (r == Err(LeftTheChip) && want == None)
      ensures r.Ok? ==> todo != [] && Sending(file, next, rd, todo[1..], want)
    {
      ghost var q := NextBlockPending(driver.rs, driver.Geo(), file, offset, todo, next);
      r := SendFirst(file[offset..next], rd, q, todo);
    }

    /** One transfer of a whole block, as a step of the list of transfers. */
    method SendFirst(code_buf: seq<byte>, ghost rd: Reader, ghost q: Request, ghost todo: seq<Request>) returns (r: Result<nat>)
      requires Valid() && driver.BootFree(start) && |code_buf| == Transfer(driver.Geo())
      requires rd == ReaderOf(driver.rs, driver.Geo(), NoOob) && q == RequestOf(driver.rs, driver.Geo(), code_buf)
      requires NoneEmpty(todo) && todo != [] && todo[0] == q
      modifies this`start, check_buf, driver, driver.oob_buf
      ensures Valid() && driver.Geo() == old(driver.Geo()) && driver.BootFree(start)
      ensures |code_buf| > MAX_TRANSFER_SIZE ==> r == Err(TransferTooLong) && driver.chip == old(driver.chip)
      ensures |code_buf| <= MAX_TRANSFER_SIZE ==> r == Err(LeftTheChip) || r == Ok(start)
      ensures |code_buf| <= MAX_TRANSFER_SIZE ==>
                ProgramAll(rd, driver.Geo(), old(driver.chip), todo, old(start))
                == if r.Err? then None else ProgramAll(rd, driver.Geo(), driver.chip, todo[1..], start)
    {
      Split(driver.ppb, 0, driver.pagesize);
      r := SendTransfer(code_buf, rd, q);
    }

    /** The rest of the file, with zeros up to a page. */
    method PadTail(rest: seq<byte>) returns (code_buf: seq<byte>)
      requires Valid()
      ensures code_buf == Padded(rest, driver.pagesize)
    {
      var j := |rest|;
      Quotient(j, driver.pagesize);
      if j % driver.pagesize != 0 {
        j := j + (driver.pagesize - j % driver.pagesize);
      }
      code_buf := ZeroBytes(j);
      code_buf := rest + code_buf[|rest|..];
    }

    /** The last transfer, shorter than a block. */
    method SendTail(rest: seq<byte>, ghost rd: Reader, ghost q: Request) returns (r: Result<nat>)
      requires Valid() && driver.BootFree(start) && rd == ReaderOf(driver.rs, driver.Geo(), NoOob)
      requires q == RequestOf(driver.rs, driver.Geo(), Padded(rest, driver.pagesize)) && q.imgs != []
      modifies this`start, check_buf, driver, driver.oob_buf
      ensures Valid() && driver.Geo() == old(driver.Geo())
      ensures if |Padded(rest, driver.pagesize)| > MAX_TRANSFER_SIZE then r == Err(TransferTooLong) && driver.chip == old(driver.chip)
              else Reports(ProgramAll(rd, driver.Geo(), old(driver.chip), [q], old(start)), r, driver.chip)
    {
      ProgramOne(rd, driver.Geo(), driver.chip, q, start);
      PaddedSize(rest, driver.pagesize);
      var code_buf := PadTail(rest);
      r := SendTransfer(code_buf, rd, q);
    }

    /** The size of a full transfer, and how many of them a file of this length has. */
    method CountBlocks(flen: nat) returns (transfer_size: nat, m: nat)
      requires Valid()
      ensures transfer_size == Transfer(driver.Geo()) > 0
      ensures At(m, 0, transfer_size) <= flen < At(m, 0, transfer_size) + transfer_size
    {
      AtIsLinear(driver.ppb, 0, driver.pagesize);
      TransferPositive(driver.Geo());
      transfer_size := driver.ppb * driver.pagesize;
      WholeBlocks(flen, transfer_size);
      m := flen / transfer_size;
    }

    /** nand_program_file: the page the last transfer ended at. */
    method ProgramFile(file: seq<byte>, ghost rd: Reader, ghost reqs: seq<Request>) returns (r: Result<nat>)
      requires Valid() && driver.BootFree(start)
      requires rd == ReaderOf(driver.rs, driver.Geo(), NoOob) && reqs == Requests(driver.rs, driver.Geo(), file) && NoneEmpty(reqs)
      modifies this`start, check_buf, driver, driver.oob_buf
      ensures Valid() && driver.Geo() == old(driver.Geo())
      ensures var g := driver.Geo();
              if Blk(old(start), g.ppb) > NAND_MAX_BLK_NUM || |reqs| > NAND_MAX_BLK_NUM then
                r == Err(TooManyBlocks) && driver.chip == old(driver.chip)
              else if Longest(g, file) > MAX_TRANSFER_SIZE then
                match EraseBlocks(g, old(driver.chip), Blk(old(start), g.ppb), |reqs|, force)
                case None => r == Err(LeftTheChip)
                case Some((c1, _)) => r == Err(TransferTooLong) && driver.chip == c1
              else
                Reports(Unblocked(EraseAndSend(rd, g, old(driver.chip), old(start), reqs, force)), r, driver.chip)
    {
      ghost var g, c := driver.Geo(), driver.chip;
      RequestsCarryFile(driver.rs, g, file);
      AllPending(driver.rs, g, file);
      var done := EraseForFile(|file|, |reqs|);
      if done.Err? {
        return Err(done.error);
      }
      r := SendFile(file, rd, reqs, ProgramAll(rd, g, driver.chip, reqs, start));
    }

    /** The erase that nand_program_file begins with. */
    method EraseForFile(flen: nat, ghost n: nat) returns (r: Result<nat>)
      requires Valid() && Transfer(driver.Geo()) > 0 && n == Pieces(flen, Transfer(driver.Geo()))
      modifies driver`chip, driver`reg, driver.oob_buf
      ensures Valid()
      ensures var b := Blk(start, driver.ppb);
              if b > NAND_MAX_BLK_NUM || n > NAND_MAX_BLK_NUM then r == Err(TooManyBlocks) && driver.chip == old(driver.chip)
              else Reports(EraseBlocks(driver.Geo(), old(driver.chip), b, n, force), r, driver.chip)
    {
      AtIsLinear(driver.ppb, 0, driver.pagesize);
      var length := CountPieces(flen, driver.ppb * driver.pagesize);
      Quotient(start, driver.ppb);
      r := Erase(start / driver.ppb, length);
    }
  }

  /** Comparing the bytes is comparing the pages. */
  lemma SameBytes(rs: Engine, g: Geometry, buf: seq<byte>, n: nat, back: seq<Chunk>)
    requires Sound(rs) && g.Valid() && |buf| == At(n, 0, g.ps) && |back| == n
    requires forall i | 0 <= i < n :: |back[i]| == g.ps
    ensures |Flat(back)| == |buf|
    ensures buf == Flat(back) <==> back == RequestOf(rs, g, buf).want
  {
    var want := RequestOf(rs, g, buf).want;
    Split(n, 0, g.ps);
    FlatCut(buf, g.ps, n);
    assert buf[..|buf|] == buf;
    FlatSize(back, g.ps);
    FlatInjective(back, want, g.ps);
  }

  /** What the answer of nand_program_file means, when it starts at the first page of block
      `s`, force is off and nothing fails: it has left the chip, which is what the error stands
      for, if and only if there are too few good blocks left, and otherwise the file can be read
      from the start page on. */
  lemma {:induction false} HostStoresFile(rs: Engine, rd: Reader, g: Geometry, c: Chip, s: nat, start: nat, file: seq<byte>, reqs: seq<Request>, r: Result<nat>, after: Chip)
    requires Sound(rs) && g.Valid() && Shaped(g, c) && MarksClear(g) && g.plane == 1
    requires rd == ReaderOf(rs, g, NoOob) && reqs == Requests(rs, g, file) && NoneEmpty(reqs)
    requires start == At(s, 0, g.ppb) && s <= |c.blocks| && Fails(c.status) == 0
    requires Reports(Unblocked(EraseAndSend(rd, g, c, start, reqs, false)), r, after)
    ensures r.Err? <==> CountGood(g, c.blocks, s, |c.blocks|) < BlocksFor(g, file)
    ensures r.Ok? ==> |after.blocks| == |c.blocks| && FileRead(rd, g, after.blocks, s, file, r.value)
    ensures r.Ok? ==> forall i | 0 <= i < |c.blocks| && (i < s || IsBad(g, c.blocks[i])) :: after.blocks[i] == c.blocks[i]
  {
    FileIsStored(rs, rd, g, c, s, start, file);
    var stored := EraseAndSend(rd, g, c, start, reqs, false);
    if stored.Some? {
      CountGrows(g, c.blocks, s, stored.value.1, |c.blocks|);
    }
  }
}
