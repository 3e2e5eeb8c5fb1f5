/** Images as flat byte sequences: cutting them into pages, and the stored form of each. */
module ImageFile {
  import opened Options
  import opened RsCode
  import opened Flash
  import opened PageFormat
  import opened PageNumbers
  import opened NandSpec
  import opened Programming
  import opened Flashing

  /** The first `n` pieces of `size` bytes. */
  function Cut(s: seq<byte>, size: nat, n: nat): (r: seq<Chunk>)
    requires At(n, 0, size) <= |s|
    ensures |r| == n
    ensures forall i | 0 <= i < n :: |r[i]| == size
  {
    if n == 0 then [] else [s[..size]] + Cut(s[size..], size, n - 1)
  }

  lemma {:induction false} CutAt(s: seq<byte>, size: nat, n: nat, i: nat)
    requires At(n, 0, size) <= |s| && i < n
    ensures At(i, 0, size) + size <= At(n, 0, size)
    ensures Cut(s, size, n)[i] == s[At(i, 0, size)..At(i, 0, size) + size]
  {
    if i == 0 {
    } else {
      CutAt(s[size..], size, n - 1, i - 1);
    }
  }

  function Flat(chunks: seq<Chunk>): seq<byte> {
    if chunks == [] then [] else chunks[0] + Flat(chunks[1..])
  }

  lemma {:induction false} FlatAppend(a: seq<Chunk>, b: seq<Chunk>)
    ensures Flat(a + b) == Flat(a) + Flat(b)
  {
    if a == [] {
      assert a + b == b;
    } else {
      assert (a + b)[1..] == a[1..] + b;
      FlatAppend(a[1..], b);
    }
  }

  lemma {:induction false} FlatSize(chunks: seq<Chunk>, size: nat)
    requires forall i | 0 <= i < |chunks| :: |chunks[i]| == size
    ensures |Flat(chunks)| == At(|chunks|, 0, size)
  {
    if chunks != [] {
      FlatSize(chunks[1..], size);
      AtStep(|chunks| - 1, 0, size);
    }
  }

  /** Chunks of one size are determined by the bytes they make up. */
  lemma {:induction false} FlatInjective(a: seq<Chunk>, b: seq<Chunk>, size: nat)
    requires |a| == |b|
    requires forall i | 0 <= i < |a| :: |a[i]| == size
    requires forall i | 0 <= i < |b| :: |b[i]| == size
    ensures Flat(a) == Flat(b) ==> a == b
  {
    if a != [] && Flat(a) == Flat(b) {
      assert a[0] == Flat(a)[..size] && b[0] == Flat(b)[..size];
      assert Flat(a[1..]) == Flat(a)[size..] && Flat(b[1..]) == Flat(b)[size..];
      FlatInjective(a[1..], b[1..], size);
      assert a == [a[0]] + a[1..] && b == [b[0]] + b[1..];
    }
  }

  /** Chunks that are no longer than `size` and together as long as full ones are full. */
  lemma {:induction false} FlatFull(chunks: seq<Chunk>, size: nat)
    requires forall i | 0 <= i < |chunks| :: |chunks[i]| <= size
    ensures |Flat(chunks)| <= At(|chunks|, 0, size)
    ensures |Flat(chunks)| == At(|chunks|, 0, size) ==> forall i | 0 <= i < |chunks| :: |chunks[i]| == size
  {
    if chunks != [] {
      FlatFull(chunks[1..], size);
      AtStep(|chunks| - 1, 0, size);
      assert |Flat(chunks)| == At(|chunks|, 0, size) ==> forall i | 0 < i < |chunks| :: |chunks[i]| == |chunks[1..][i - 1]|;
    }
  }

  lemma {:induction false} FlatCut(s: seq<byte>, size: nat, n: nat)
    requires At(n, 0, size) <= |s|
    ensures Flat(Cut(s, size, n)) == s[..At(n, 0, size)]
  {
    if n > 0 {
      FlatCut(s[size..], size, n - 1);
      assert Cut(s, size, n)[1..] == Cut(s[size..], size, n - 1);
      assert s[..size] + s[size..][..At(n - 1, 0, size)] == s[..At(n, 0, size)];
    }
  }

  function ImageOf(rs: Engine, g: Geometry, fmt: Format, chunk: Chunk): (r: Image)
    requires Sound(rs) && g.Valid() && |chunk| == ChunkSize(g, fmt)
    ensures r.Some? ==> ValidPage(g, r.value)
  {
    if chunk == Ones(|chunk|) then None else Some(PageImage(rs, g, fmt, chunk))
  }

  ghost predicate ValidChunks(g: Geometry, fmt: Format, chunks: seq<Chunk>) {
    forall i | 0 <= i < |chunks| :: |chunks[i]| == ChunkSize(g, fmt)
  }

  function Images(rs: Engine, g: Geometry, fmt: Format, chunks: seq<Chunk>): (r: seq<Image>)
    requires Sound(rs) && g.Valid() && ValidChunks(g, fmt, chunks)
    ensures |r| == |chunks| && ValidImages(g, r)
    ensures forall i | 0 <= i < |r| :: r[i] == ImageOf(rs, g, fmt, chunks[i])
  {
    seq(|chunks|, i requires 0 <= i < |chunks| => ImageOf(rs, g, fmt, chunks[i]))
  }

  /** The `i`-th piece of the flat image is stored as the `i`-th image. */
  ghost predicate HoldsImage(rs: Engine, g: Geometry, fmt: Format, context: seq<byte>, i: nat, img: Image)
    requires Sound(rs) && g.Valid()
  {
    var ds, t := ChunkSize(g, fmt), At(i, 0, ChunkSize(g, fmt));
    t + ds <= |context| && img == ImageOf(rs, g, fmt, context[t..t + ds])
  }

  ghost predicate HoldsImages(rs: Engine, g: Geometry, fmt: Format, context: seq<byte>, imgs: seq<Image>)
    requires Sound(rs) && g.Valid()
  {
    forall i: nat | i < |imgs| :: HoldsImage(rs, g, fmt, context, i, imgs[i])
  }

  lemma {:induction false} CutHoldsOne(rs: Engine, g: Geometry, fmt: Format, context: seq<byte>, n: nat, i: nat, chunk: Chunk)
    requires Sound(rs) && g.Valid() && At(n, 0, ChunkSize(g, fmt)) <= |context| && i < n
    requires chunk == Cut(context, ChunkSize(g, fmt), n)[i]
    ensures |chunk| == ChunkSize(g, fmt) && HoldsImage(rs, g, fmt, context, i, ImageOf(rs, g, fmt, chunk))
  {
    CutAt(context, ChunkSize(g, fmt), n, i);
  }

  lemma {:induction false} CutHoldsImages(rs: Engine, g: Geometry, fmt: Format, context: seq<byte>, n: nat)
    requires Sound(rs) && g.Valid() && At(n, 0, ChunkSize(g, fmt)) <= |context|
    ensures HoldsImages(rs, g, fmt, context, Images(rs, g, fmt, Cut(context, ChunkSize(g, fmt), n)))
  {
    var chunks := Cut(context, ChunkSize(g, fmt), n);
    var imgs := Images(rs, g, fmt, chunks);
    forall i: nat | i < n ensures HoldsImage(rs, g, fmt, context, i, imgs[i]) {
      CutHoldsOne(rs, g, fmt, context, n, i, chunks[i]);
    }
  }

  /** nand_read_4740's view of a page. */
  function ReaderOf(rs: Engine, g: Geometry, fmt: Format): Reader
    requires Sound(rs) && g.Valid()
  {
    (p: Page) => if |p.data| == g.ps && |p.oob| == g.os then PageBytes(rs, g, fmt, p) else []
  }

  /** What may be sent as one image: parity that is right where the image brings its own,
      and mark bytes left alone on the mark pages. */
  ghost predicate Storable(rs: Engine, g: Geometry, fmt: Format, chunks: seq<Chunk>)
    requires Sound(rs) && g.Valid() && ValidChunks(g, fmt, chunks)
  {
    && (forall i | 0 <= i < |chunks| :: Consistent(rs, g, fmt, chunks[i]))
    && ImagesKeepMark(g, Images(rs, g, fmt, chunks))
  }

  function Expected(g: Geometry, fmt: Format, chunks: seq<Chunk>): (r: seq<Chunk>)
    requires g.Valid() && ValidChunks(g, fmt, chunks)
    ensures |r| == |chunks|
    ensures forall i | 0 <= i < |r| :: r[i] == ReadBack(g, fmt, chunks[i])
  {
    seq(|chunks|, i requires 0 <= i < |chunks| => ReadBack(g, fmt, chunks[i]))
  }

  /** Every page of a storable image is read back as expected, whether it was programmed or
      left erased. */
  lemma StorableReadsBack(rs: Engine, g: Geometry, fmt: Format, chunks: seq<Chunk>)
    requires Sound(rs) && g.Valid() && ValidChunks(g, fmt, chunks) && Storable(rs, g, fmt, chunks)
    ensures ReadsAs(ReaderOf(rs, g, fmt), g, Images(rs, g, fmt, chunks), Expected(g, fmt, chunks))
  {
    forall i | 0 <= i < |chunks|
      ensures PageBytes(rs, g, fmt, if ImageOf(rs, g, fmt, chunks[i]).Some? then ImageOf(rs, g, fmt, chunks[i]).value else ErasedPage(g))
              == ReadBack(g, fmt, chunks[i])
    {
      if chunks[i] == Ones(|chunks[i]|) {
        ErasedPageReadsBack(rs, g, fmt);
      } else {
        ImageReadsBack(rs, g, fmt, chunks[i]);
      }
    }
  }

  /** Every plain binary image is storable when the mark bytes are not the driver's. */
  lemma NoOobStorable(rs: Engine, g: Geometry, chunks: seq<Chunk>)
    requires Sound(rs) && g.Valid() && ValidChunks(g, NoOob, chunks) && MarksClear(g)
    ensures Storable(rs, g, NoOob, chunks)
    ensures Expected(g, NoOob, chunks) == chunks
  {
    forall i | 0 <= i < |chunks| && Images(rs, g, NoOob, chunks)[i].Some?
      ensures KeepsMark(g, Images(rs, g, NoOob, chunks)[i].value)
    {
      NoOobKeepsMark(rs, g, chunks[i]);
    }
  }

  // ----- ageing

  /** A chip some time later: the same shape, and every page unchanged or damaged within
      what its parity can correct. */
  ghost predicate AgedBlocks(rs: Engine, g: Geometry, bl: seq<Block>, later: seq<Block>)
    requires Sound(rs) && g.Valid() && ValidBlocks(g, bl) && ValidBlocks(g, later) && |later| == |bl|
  {
    forall i, k | 0 <= i < |bl| && 0 <= k < g.ppb :: Aged(rs, g, bl[i][k], later[i][k])
  }

  lemma AgedVerdict(rs: Engine, g: Geometry, a: Block, b: Block)
    requires Sound(rs) && g.Valid() && ValidBlock(g, a) && ValidBlock(g, b)
    requires forall k | 0 <= k < g.ppb :: Aged(rs, g, a[k], b[k])
    ensures IsBad(g, a) == IsBad(g, b)
  {
    MarkedFrom(g, a, 0);
    MarkedFrom(g, b, 0);
    forall k | 0 <= k < g.ppb ensures PageMarked(g, a[k]) == PageMarked(g, b[k]) {
      assert a[k].oob == b[k].oob;
    }
  }

  /** Every read of an aged chip delivers what it delivered before. */
  lemma AgedReadsSame(rs: Engine, g: Geometry, fmt: Format, bl: seq<Block>, later: seq<Block>, p: nat, n: nat)
    requires Sound(rs) && g.Valid() && ValidBlocks(g, bl) && ValidBlocks(g, later) && |later| == |bl|
    requires AgedBlocks(rs, g, bl, later)
    ensures ReadFrom(ReaderOf(rs, g, fmt), g, later, p, n) == ReadFrom(ReaderOf(rs, g, fmt), g, bl, p, n)
  {
    forall i | 0 <= i < |bl| ensures IsBad(g, bl[i]) == IsBad(g, later[i]) {
      AgedVerdict(rs, g, bl[i], later[i]);
    }
    assert Bads(g, bl) == Bads(g, later);
    var walk := Walk(Bads(g, bl), g.ppb, p, n);
    if walk.Some? {
      var rd, ps := ReaderOf(rs, g, fmt), walk.value.0;
      forall i | 0 <= i < |ps| ensures rd(PageAt(g, later, ps[i])) == rd(PageAt(g, bl, ps[i])) {
        AgedPageReadsSame(rs, g, fmt, PageAt(g, bl, ps[i]), PageAt(g, later, ps[i]));
      }
      assert Deliver(rd, g, later, ps) == Deliver(rd, g, bl, ps);
    }
  }
}
