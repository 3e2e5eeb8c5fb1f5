/** What one page of an image looks like on the chip, and what reading it returns. */
module PageFormat {
  import opened RsCode
  import opened Flash

  /** The three image types: spare bytes with parity, spare bytes without, no spare bytes. */
  datatype Format = OobEcc | OobNoEcc | NoOob

  function ChunkSize(g: Geometry, fmt: Format): nat {
    if fmt.NoOob? then g.ps else g.ps + g.os
  }

  function Sector(s: seq<byte>, j: nat): (r: seq<byte>)
    requires ECC_BLOCK * j + ECC_BLOCK <= |s|
    ensures |r| == ECC_BLOCK
  {
    s[ECC_BLOCK * j..ECC_BLOCK * j + ECC_BLOCK]
  }

  /** The parity of the first `n` sectors. */
  function Parity(rs: Engine, data: seq<byte>, n: nat): (r: seq<byte>)
    requires Sound(rs) && ECC_BLOCK * n <= |data|
    ensures |r| == PAR_SIZE * n
  {
    if n == 0 then []
    else
      assert ParityFits(rs, Sector(data, n - 1));
      Parity(rs, data, n - 1) + rs.encode(Sector(data, n - 1))
  }

  /** The first `n` sectors as the decoder leaves them. */
  function Decode(rs: Engine, raw: seq<byte>, par: seq<byte>, n: nat): (r: seq<byte>)
    requires Sound(rs) && ECC_BLOCK * n <= |raw| && PAR_SIZE * n <= |par|
    ensures |r| == ECC_BLOCK * n
  {
    if n == 0 then []
    else Decode(rs, raw, par, n - 1) + Decoded(rs, Sector(raw, n - 1), par[PAR_SIZE * (n - 1)..PAR_SIZE * n])
  }

  lemma {:induction false} DecodeStep(rs: Engine, raw: seq<byte>, par: seq<byte>, j: nat, j1: nat, s: seq<byte>, p: seq<byte>)
    requires Sound(rs) && j1 == j + 1 && ECC_BLOCK * j1 <= |raw| && PAR_SIZE * j1 <= |par|
    requires s == Sector(raw, j) && p == par[PAR_SIZE * j..PAR_SIZE * j1]
    ensures Decode(rs, raw, par, j1) == Decode(rs, raw, par, j) + Decoded(rs, s, p)
  {
    assert j == j1 - 1;
  }

  function Patch(s: seq<byte>, pos: nat, b: seq<byte>): (r: seq<byte>)
    requires pos + |b| <= |s|
    ensures |r| == |s|
    ensures r[pos..pos + |b|] == b
    ensures forall i | 0 <= i < |s| && !(pos <= i < pos + |b|) :: r[i] == s[i]
  {
    s[..pos] + b + s[pos + |b|..]
  }

  function BlankOob(n: nat): (r: seq<byte>)
    requires n >= 5
    ensures |r| == n
  {
    Ones(n)[2 := 0][3 := 0][4 := 0]
  }

  /** The page that nand_program_4740 sends for one chunk of the image. */
  function PageImage(rs: Engine, g: Geometry, fmt: Format, chunk: seq<byte>): (p: Page)
    requires Sound(rs) && g.Valid() && |chunk| == ChunkSize(g, fmt)
    ensures ValidPage(g, p)
  {
    var data := chunk[..g.ps];
    match fmt
    case OobEcc => Page(data, chunk[g.ps..])
    case OobNoEcc => Page(data, Patch(chunk[g.ps..], g.eccpos, Parity(rs, data, g.Sectors())))
    case NoOob => Page(data, Patch(BlankOob(g.os), g.eccpos, Parity(rs, data, g.Sectors())))
  }

  function StoredParity(g: Geometry, p: Page): (r: seq<byte>)
    requires g.Valid() && ValidPage(g, p)
    ensures |r| == PAR_SIZE * g.Sectors()
  {
    p.oob[g.eccpos..g.eccpos + PAR_SIZE * g.Sectors()]
  }

  /** The spare bytes that nand_read_4740 delivers behind the data of a page. */
  function SpareBytes(g: Geometry, fmt: Format, p: Page): (r: seq<byte>)
    requires g.Valid() && ValidPage(g, p)
    ensures |r| == ChunkSize(g, fmt) - g.ps
  {
    match fmt
    case OobEcc => p.oob
    case OobNoEcc => Patch(p.oob, g.eccpos, Ones(PAR_SIZE * g.Sectors()))
    case NoOob => []
  }

  /** What nand_read_4740 delivers for one page. */
  function PageBytes(rs: Engine, g: Geometry, fmt: Format, p: Page): (r: seq<byte>)
    requires Sound(rs) && g.Valid() && ValidPage(g, p)
    ensures |r| == ChunkSize(g, fmt)
  {
    Decode(rs, p.data, StoredParity(g, p), g.Sectors()) + SpareBytes(g, fmt, p)
  }

  /** Every sector of `raw` is the sector of `data` with a correctable error in it. */
  ghost predicate SectorsWithin(data: seq<byte>, raw: seq<byte>, n: nat)
    requires ECC_BLOCK * n <= |data| && |data| == |raw|
  {
    forall j: nat | j < n :: SectorWithin(Sector(data, j), Sector(raw, j))
  }

  ghost predicate SectorWithin(s: seq<byte>, raw: seq<byte>)
    requires |s| == |raw| == ECC_BLOCK
  {
    exists errs :: Correctable(errs) && raw == Damage(s, errs)
  }

  lemma UndamagedSector(s: seq<byte>)
    requires |s| == ECC_BLOCK
    ensures SectorWithin(s, s)
  {
    XorZeros(s);
    assert Correctable([]) && s == Damage(s, []);
  }

  lemma SliceLeft(a: seq<byte>, b: seq<byte>, lo: nat, hi: nat)
    requires lo <= hi <= |a|
    ensures (a + b)[lo..hi] == a[lo..hi]
  {
  }

  lemma SliceRight(a: seq<byte>, b: seq<byte>)
    ensures (a + b)[|a|..|a| + |b|] == b
  {
  }

  lemma {:induction false} ParityOfSector(rs: Engine, data: seq<byte>, n: nat, j: nat)
    requires Sound(rs) && ECC_BLOCK * n <= |data| && j < n
    ensures Parity(rs, data, n)[PAR_SIZE * j..PAR_SIZE * (j + 1)] == rs.encode(Sector(data, j))
  {
    var last := rs.encode(Sector(data, n - 1));
    assert ParityFits(rs, Sector(data, n - 1));
    if j < n - 1 {
      ParityOfSector(rs, data, n - 1, j);
      SliceLeft(Parity(rs, data, n - 1), last, PAR_SIZE * j, PAR_SIZE * (j + 1));
    } else {
      SliceRight(Parity(rs, data, n - 1), last);
    }
  }

  lemma TakeSector(s: seq<byte>, n: nat)
    requires ECC_BLOCK * (n + 1) <= |s|
    ensures s[..ECC_BLOCK * (n + 1)] == s[..ECC_BLOCK * n] + Sector(s, n)
  {
  }

  lemma SectorDecoded(rs: Engine, s: seq<byte>, raw: seq<byte>)
    requires Sound(rs) && |s| == |raw| == ECC_BLOCK && SectorWithin(s, raw)
    ensures Decoded(rs, raw, rs.encode(s)) == s
  {
    var errs :| Correctable(errs) && raw == Damage(s, errs);
    DamagedSectorReadsBack(rs, s, errs);
  }

  ghost predicate SectorRecovered(rs: Engine, data: seq<byte>, raw: seq<byte>, par: seq<byte>, j: nat)
    requires Sound(rs) && ECC_BLOCK * (j + 1) <= |data| && |data| == |raw| && PAR_SIZE * (j + 1) <= |par|
  {
    Decoded(rs, Sector(raw, j), par[PAR_SIZE * j..PAR_SIZE * (j + 1)]) == Sector(data, j)
  }

  lemma {:induction false} DecodeBySector(rs: Engine, data: seq<byte>, raw: seq<byte>, par: seq<byte>, n: nat)
    requires Sound(rs) && ECC_BLOCK * n <= |data| && |data| == |raw| && PAR_SIZE * n <= |par|
    requires forall j: nat | j < n :: SectorRecovered(rs, data, raw, par, j)
    ensures Decode(rs, raw, par, n) == data[..ECC_BLOCK * n]
  {
    if n == 0 {
      assert data[..0] == [];
    } else {
      DecodeBySector(rs, data, raw, par, n - 1);
      assert SectorRecovered(rs, data, raw, par, n - 1);
      TakeSector(data, n - 1);
    }
  }

  /** Sectors stored with their parity and damaged afterwards decode to what was stored. */
  lemma DecodeWithin(rs: Engine, data: seq<byte>, raw: seq<byte>, n: nat)
    requires Sound(rs) && ECC_BLOCK * n <= |data| && |data| == |raw|
    requires SectorsWithin(data, raw, n)
    ensures Decode(rs, raw, Parity(rs, data, n), n) == data[..ECC_BLOCK * n]
  {
    forall j: nat | j < n ensures SectorRecovered(rs, data, raw, Parity(rs, data, n), j) {
      ParityOfSector(rs, data, n, j);
      SectorDecoded(rs, Sector(data, j), Sector(raw, j));
    }
    DecodeBySector(rs, data, raw, Parity(rs, data, n), n);
  }

  lemma {:induction false} DecodeErased(rs: Engine, len: nat, plen: nat, n: nat)
    requires Sound(rs) && ECC_BLOCK * n <= len && PAR_SIZE * n <= plen
    ensures Decode(rs, Ones(len), Ones(plen), n) == Ones(ECC_BLOCK * n)
  {
    if n > 0 {
      DecodeErased(rs, len, plen, n - 1);
      assert Sector(Ones(len), n - 1) == Ones(ECC_BLOCK);
      assert Ones(plen)[PAR_SIZE * (n - 1)..PAR_SIZE * n] == Ones(PAR_SIZE);
      ErasedSectorReadsBack(rs);
    }
  }

  // ----- where everything lies, byte by byte

  /** Byte `k` of the parity of sector `j` lies `PAR_SIZE * j + k` bytes behind eccpos, unless
      the image brings its own spare bytes. */
  lemma ImageParityByte(rs: Engine, g: Geometry, fmt: Format, chunk: seq<byte>, j: nat, k: nat)
    requires Sound(rs) && g.Valid() && |chunk| == ChunkSize(g, fmt) && !fmt.OobEcc?
    requires j < g.Sectors() && k < PAR_SIZE
    ensures var sector := chunk[ECC_BLOCK * j..ECC_BLOCK * j + ECC_BLOCK];
            |rs.encode(sector)| == PAR_SIZE && PageImage(rs, g, fmt, chunk).oob[g.eccpos + PAR_SIZE * j + k] == rs.encode(sector)[k]
  {
    var data, n := chunk[..g.ps], g.Sectors();
    var parity := Parity(rs, data, n);
    assert Sector(data, j) == chunk[ECC_BLOCK * j..ECC_BLOCK * j + ECC_BLOCK];
    assert ParityFits(rs, Sector(data, j));
    ParityOfSector(rs, data, n, j);
    assert parity[PAR_SIZE * j..PAR_SIZE * (j + 1)][k] == parity[PAR_SIZE * j + k];
    var oob := PageImage(rs, g, fmt, chunk).oob;
    assert oob[g.eccpos..g.eccpos + |parity|] == parity;
    assert oob[g.eccpos + (PAR_SIZE * j + k)] == oob[g.eccpos..g.eccpos + |parity|][PAR_SIZE * j + k];
  }

  /** The data, and spare byte `i` of a page where no parity is put: the image's own byte, or
      without spare bytes in the image three zeros at 2 to 4 and 0xff elsewhere. */
  lemma ImageOtherByte(rs: Engine, g: Geometry, fmt: Format, chunk: seq<byte>, i: nat)
    requires Sound(rs) && g.Valid() && |chunk| == ChunkSize(g, fmt)
    requires i < g.os && (fmt.OobEcc? || i < g.eccpos || g.eccpos + PAR_SIZE * g.Sectors() <= i)
    ensures var p := PageImage(rs, g, fmt, chunk);
            && p.data == chunk[..g.ps]
            && p.oob[i] == if fmt != NoOob then chunk[g.ps + i] else if i == 2 || i == 3 || i == 4 then 0 else 0xff
  {
    var p := PageImage(rs, g, fmt, chunk);
    if fmt == NoOob {
      assert p.oob[i] == BlankOob(g.os)[i];
    } else {
      assert p.oob[i] == chunk[g.ps..][i];
    }
  }

  ghost predicate SectorOut(rs: Engine, raw: seq<byte>, par: seq<byte>, n: nat, j: nat)
    requires Sound(rs) && ECC_BLOCK * n <= |raw| && PAR_SIZE * n <= |par| && j < n
  {
    Decode(rs, raw, par, n)[ECC_BLOCK * j..ECC_BLOCK * j + ECC_BLOCK] == Decoded(rs, Sector(raw, j), par[PAR_SIZE * j..PAR_SIZE * j + PAR_SIZE])
  }

  lemma {:induction false} LastSectorOut(rs: Engine, raw: seq<byte>, par: seq<byte>, n: nat, m: nat)
    requires Sound(rs) && n == m + 1 && ECC_BLOCK * n <= |raw| && PAR_SIZE * n <= |par|
    ensures SectorOut(rs, raw, par, n, m)
  {
    var s, p := Sector(raw, m), par[PAR_SIZE * m..PAR_SIZE * m + PAR_SIZE];
    DecodeStep(rs, raw, par, m, n, s, p);
    SliceRight(Decode(rs, raw, par, m), Decoded(rs, s, p));
  }

  lemma {:induction false} EarlierSectorOut(rs: Engine, raw: seq<byte>, par: seq<byte>, n: nat, m: nat, j: nat)
    requires Sound(rs) && n == m + 1 && ECC_BLOCK * n <= |raw| && PAR_SIZE * n <= |par| && j < m && SectorOut(rs, raw, par, m, j)
    ensures SectorOut(rs, raw, par, n, j)
  {
    var s, p := Sector(raw, m), par[PAR_SIZE * m..PAR_SIZE * m + PAR_SIZE];
    DecodeStep(rs, raw, par, m, n, s, p);
    SliceLeft(Decode(rs, raw, par, m), Decoded(rs, s, p), ECC_BLOCK * j, ECC_BLOCK * j + ECC_BLOCK);
  }

  lemma {:induction false} DecodeAtSector(rs: Engine, raw: seq<byte>, par: seq<byte>, n: nat, j: nat, m: nat)
    requires Sound(rs) && ECC_BLOCK * n <= |raw| && PAR_SIZE * n <= |par| && j <= m && n == m + 1
    ensures SectorOut(rs, raw, par, n, j)
    decreases m
  {
    if j == m {
      LastSectorOut(rs, raw, par, n, m);
    } else {
      DecodeAtSector(rs, raw, par, m, j, m - 1);
      EarlierSectorOut(rs, raw, par, n, m, j);
    }
  }

  /** What reading a page delivers for its sector `j`: the stored bytes, with the reported
      symbols corrected when the engine, given the sector and the nine spare bytes that belong
      to it, reports one to four. */
  lemma SectorDelivered(rs: Engine, g: Geometry, fmt: Format, p: Page, j: nat)
    requires Sound(rs) && g.Valid() && ValidPage(g, p) && j < g.Sectors()
    ensures var raw := p.data[ECC_BLOCK * j..ECC_BLOCK * j + ECC_BLOCK];
            var report := rs.decode(raw, p.oob[g.eccpos + PAR_SIZE * j..g.eccpos + PAR_SIZE * j + PAR_SIZE]);
            var got := PageBytes(rs, g, fmt, p)[ECC_BLOCK * j..ECC_BLOCK * j + ECC_BLOCK];
            if report.Errors? && 1 <= report.errcnt <= 4
              then WellFormedReport(report) && got == Damage(raw, report.regs[..report.errcnt])
              else got == raw
  {
    var raw, n := Sector(p.data, j), g.Sectors();
    var par := StoredParity(g, p)[PAR_SIZE * j..PAR_SIZE * j + PAR_SIZE];
    SpareOfSector(g, p, j);
    assert ReportFits(rs, raw, par);
    DecodeAtSector(rs, p.data, StoredParity(g, p), n, j, n - 1);
    SliceLeft(Decode(rs, p.data, StoredParity(g, p), n), SpareBytes(g, fmt, p), ECC_BLOCK * j, ECC_BLOCK * j + ECC_BLOCK);
  }

  /** The parity bytes of a sector, counted from the start of the spare bytes. */
  lemma SpareOfSector(g: Geometry, p: Page, j: nat)
    requires g.Valid() && ValidPage(g, p) && j < g.Sectors()
    ensures StoredParity(g, p)[PAR_SIZE * j..PAR_SIZE * j + PAR_SIZE] == p.oob[g.eccpos + PAR_SIZE * j..g.eccpos + PAR_SIZE * j + PAR_SIZE]
  {
  }

  /** Spare byte `i` behind the data: as stored, but 0xff in the place of parity when the
      image type has none. */
  lemma SpareDelivered(rs: Engine, g: Geometry, fmt: Format, p: Page, i: nat)
    requires Sound(rs) && g.Valid() && ValidPage(g, p) && !fmt.NoOob? && i < g.os
    ensures PageBytes(rs, g, fmt, p)[g.ps + i]
         == if fmt.OobNoEcc? && g.eccpos <= i < g.eccpos + PAR_SIZE * g.Sectors() then 0xff else p.oob[i]
  {
    var par := Ones(PAR_SIZE * g.Sectors());
    var spare := SpareBytes(g, fmt, p);
    assert PageBytes(rs, g, fmt, p)[g.ps + i] == spare[i];
    if fmt.OobNoEcc? && g.eccpos <= i < g.eccpos + |par| {
      assert spare[g.eccpos..g.eccpos + |par|][i - g.eccpos] == par[i - g.eccpos];
    }
  }

  // ----- one page

  ghost predicate HasParity(rs: Engine, g: Geometry, p: Page)
    requires Sound(rs) && g.Valid() && ValidPage(g, p)
  {
    StoredParity(g, p) == Parity(rs, p.data, g.Sectors())
  }

  /** A stored page some time later: unchanged, or, if it carries parity, with up to four
      wrong data symbols in any of its sectors. */
  ghost predicate Aged(rs: Engine, g: Geometry, p: Page, q: Page)
    requires Sound(rs) && g.Valid() && ValidPage(g, p) && ValidPage(g, q)
  {
    q == p || (q.oob == p.oob && HasParity(rs, g, p) && SectorsWithin(p.data, q.data, g.Sectors()))
  }

  lemma DamagedDataDecoded(rs: Engine, g: Geometry, p: Page, raw: seq<byte>)
    requires Sound(rs) && g.Valid() && ValidPage(g, p) && HasParity(rs, g, p)
    requires |raw| == g.ps && SectorsWithin(p.data, raw, g.Sectors())
    ensures Decode(rs, raw, StoredParity(g, p), g.Sectors()) == p.data
  {
    DecodeWithin(rs, p.data, raw, g.Sectors());
    assert p.data[..g.ps] == p.data;
  }

  lemma DataDecoded(rs: Engine, g: Geometry, p: Page)
    requires Sound(rs) && g.Valid() && ValidPage(g, p) && HasParity(rs, g, p)
    ensures Decode(rs, p.data, StoredParity(g, p), g.Sectors()) == p.data
  {
    forall j: nat | j < g.Sectors() ensures SectorWithin(Sector(p.data, j), Sector(p.data, j)) {
      UndamagedSector(Sector(p.data, j));
    }
    DamagedDataDecoded(rs, g, p, p.data);
  }

  lemma AgedPageReadsSame(rs: Engine, g: Geometry, fmt: Format, p: Page, q: Page)
    requires Sound(rs) && g.Valid() && ValidPage(g, p) && ValidPage(g, q) && Aged(rs, g, p, q)
    ensures PageBytes(rs, g, fmt, q) == PageBytes(rs, g, fmt, p)
  {
    if q != p {
      DataDecoded(rs, g, p);
      DamagedDataDecoded(rs, g, p, q.data);
    }
  }

  /** What reading a page back is expected to deliver for the chunk it was made from. */
  function ReadBack(g: Geometry, fmt: Format, chunk: seq<byte>): (r: seq<byte>)
    requires g.Valid() && |chunk| == ChunkSize(g, fmt)
    ensures |r| == |chunk|
  {
    if fmt.OobNoEcc? then chunk[..g.ps] + Patch(chunk[g.ps..], g.eccpos, Ones(PAR_SIZE * g.Sectors())) else chunk
  }

  /** An image with its own parity must have the right one. */
  ghost predicate Consistent(rs: Engine, g: Geometry, fmt: Format, chunk: seq<byte>)
    requires Sound(rs) && g.Valid() && |chunk| == ChunkSize(g, fmt)
  {
    fmt.OobEcc? ==> HasParity(rs, g, Page(chunk[..g.ps], chunk[g.ps..]))
  }

  lemma ImageHasParity(rs: Engine, g: Geometry, fmt: Format, chunk: seq<byte>)
    requires Sound(rs) && g.Valid() && |chunk| == ChunkSize(g, fmt) && Consistent(rs, g, fmt, chunk)
    ensures HasParity(rs, g, PageImage(rs, g, fmt, chunk))
  {
  }

  lemma PatchTwice(s: seq<byte>, pos: nat, a: seq<byte>, b: seq<byte>)
    requires pos + |a| <= |s| && |a| == |b|
    ensures Patch(Patch(s, pos, a), pos, b) == Patch(s, pos, b)
  {
  }

  lemma ImageReadsBack(rs: Engine, g: Geometry, fmt: Format, chunk: seq<byte>)
    requires Sound(rs) && g.Valid() && |chunk| == ChunkSize(g, fmt) && Consistent(rs, g, fmt, chunk)
    ensures PageBytes(rs, g, fmt, PageImage(rs, g, fmt, chunk)) == ReadBack(g, fmt, chunk)
  {
    var data := chunk[..g.ps];
    var n := g.Sectors();
    ImageHasParity(rs, g, fmt, chunk);
    DataDecoded(rs, g, PageImage(rs, g, fmt, chunk));
    match fmt
    case OobEcc =>
      assert data + chunk[g.ps..] == chunk;
    case OobNoEcc =>
      PatchTwice(chunk[g.ps..], g.eccpos, Parity(rs, data, n), Ones(PAR_SIZE * n));
    case NoOob =>
      assert data == chunk;
  }

  lemma PatchOnes(n: nat, pos: nat, k: nat)
    requires pos + k <= n
    ensures Patch(Ones(n), pos, Ones(k)) == Ones(n)
  {
  }

  lemma OnesParts(a: nat, b: nat)
    ensures Ones(a + b)[..a] == Ones(a) && Ones(a + b)[a..] == Ones(b) && Ones(a) + Ones(b) == Ones(a + b)
  {
  }

  /** A chunk of 0xff is never programmed; the erased page reads back as that chunk. */
  lemma ErasedPageReadsBack(rs: Engine, g: Geometry, fmt: Format)
    requires Sound(rs) && g.Valid()
    ensures PageBytes(rs, g, fmt, ErasedPage(g)) == ReadBack(g, fmt, Ones(ChunkSize(g, fmt)))
    ensures ReadBack(g, fmt, Ones(ChunkSize(g, fmt))) == Ones(ChunkSize(g, fmt))
  {
    var n := g.Sectors();
    assert StoredParity(g, ErasedPage(g)) == Ones(PAR_SIZE * n);
    DecodeErased(rs, g.ps, PAR_SIZE * n, n);
    PatchOnes(g.os, g.eccpos, PAR_SIZE * n);
    OnesParts(g.ps, g.os);
  }

  /** Where the driver puts its own spare bytes, in a NO_OOB page. */
  predicate DriverByte(g: Geometry, i: nat) {
    2 <= i < 5 || g.eccpos <= i < g.eccpos + PAR_SIZE * g.Sectors()
  }

  /** No mark byte is one the driver writes. */
  predicate MarksClear(g: Geometry) {
    forall i | 0 <= i < g.os && g.MarkByte(i) :: !DriverByte(g, i)
  }

  /** A NO_OOB page leaves every mark byte at 0xff whatever its data, provided the mark
      bytes lie outside the bytes that the driver writes. */
  lemma NoOobKeepsMark(rs: Engine, g: Geometry, chunk: seq<byte>)
    requires Sound(rs) && g.Valid() && |chunk| == g.ps && MarksClear(g)
    ensures KeepsMark(g, PageImage(rs, g, NoOob, chunk))
  {
  }
}
