/** When a kernel can be loaded at all: the exact conditions on the file, on the place of its
    segments and on the room behind them. */
module ElfSuccess {
  import opened Options
  import opened RsCode
  import opened Memory
  import opened CommandLine
  import opened ElfLoader

  // ----- the image

  /** A 32-bit little-endian MIPS executable whose program headers are 32 bytes long. */
  predicate MipsExecutable(e: Ehdr)
    requires |e.ident| == 16
  {
    && e.ident[0] == 0x7f && e.ident[1] == 0x45 && e.ident[2] == 0x4c && e.ident[3] == 0x46
    && e.ident[4] == 1 && e.ident[5] == 1 && e.ident[6] == 1
    && e.etype == 2 && e.machine == 8 && e.version == 1
    && e.phoff != 0 && e.phentsize == 32
  }

  /** Where a segment ends, on 32-bit words. */
  function SegmentEnd(ph: Phdr): nat {
    (ph.paddr + ph.memsz) % 0x1_0000_0000
  }

  /** A header of type 1 names bytes that are in the file, and its segment ends no higher than
      `top`. Nothing is asked of the other headers. */
  predicate Loadable(f: ElfFile, top: nat, ph: Phdr) {
    ph.ptype == 1 ==> ph.offset + ph.filesz <= |f.bytes| && SegmentEnd(ph) <= top
  }

  ghost predicate AllLoadable(f: ElfFile, top: nat, i: nat, n: nat) {
    n <= |f.phdrs| && forall j | i <= j < n :: Loadable(f, top, f.phdrs[j])
  }

  ghost predicate ImageLoads(f: ElfFile, top: nat)
    requires f.ehdr.Some? ==> Valid32(f.ehdr.value)
  {
    f.ehdr.Some? && MipsExecutable(f.ehdr.value) && AllLoadable(f, top, 0, f.ehdr.value.phnum)
  }

  /** `end` is the highest end of a segment among the headers from the `i`-th on, or `from`. */
  ghost predicate HighestEnd(f: ElfFile, i: nat, n: nat, from: nat, end: nat) {
    && from <= end && n <= |f.phdrs|
    && (forall j | i <= j < n && f.phdrs[j].ptype == 1 :: SegmentEnd(f.phdrs[j]) <= end)
    && (end == from || exists j :: EndsAt(f, i, n, end, j))
  }

  ghost predicate EndsAt(f: ElfFile, i: nat, n: nat, end: nat, j: nat) {
    i <= j < n && j < |f.phdrs| && f.phdrs[j].ptype == 1 && SegmentEnd(f.phdrs[j]) == end
  }

  lemma HighestEndUnique(f: ElfFile, n: nat, e1: nat, e2: nat)
    requires HighestEnd(f, 0, n, 0, e1) && HighestEnd(f, 0, n, 0, e2)
    ensures e1 == e2
  {
    if e1 != 0 {
      var j :| EndsAt(f, 0, n, e1, j);
    }
    if e2 != 0 {
      var j :| EndsAt(f, 0, n, e2, j);
    }
  }

  lemma AcceptableMeans(e: Ehdr)
    requires |e.ident| == 16
    ensures Acceptable(e) <==> MipsExecutable(e)
  {
    var s := e.ident[..7];
    if MipsExecutable(e) {
      assert s == VALID_IDENT;
    } else if s == VALID_IDENT {
      assert s[0] == e.ident[0] && s[1] == e.ident[1] && s[2] == e.ident[2] && s[3] == e.ident[3];
      assert s[4] == e.ident[4] && s[5] == e.ident[5] && s[6] == e.ident[6];
    }
  }

  /** The loop succeeds exactly when every header it is told of can be read and every segment
      among them is in the file and fits. */
  ghost predicate LoopSucceedsIff(m: Mem, top: nat, f: ElfFile, n: nat, i: nat, end: nat) {
    var r := LoadSegments(m, top, f, n, i, end);
    && (r.Ok? <==> i >= n || AllLoadable(f, top, i, n))
    && (r.Ok? && i < n ==> HighestEnd(f, i, n, end, r.value.1))
  }

  lemma {:induction false} LoopSucceeds(m: Mem, top: nat, f: ElfFile, n: nat, i: nat, end: nat)
    ensures LoopSucceedsIff(m, top, f, n, i, end)
    decreases n - i
  {
    if i < n && i < |f.phdrs| {
      var ph := f.phdrs[i];
      if ph.ptype != 1 {
        LoopSucceeds(m, top, f, n, i + 1, end);
        LoopPasses(m, top, f, n, i, i + 1, end);
      } else if Loadable(f, top, ph) {
        var data := f.bytes[ph.offset..ph.offset + ph.filesz];
        var m1 := Store(m, ph.paddr, data + Zeroes(TailSize(|data|, ph.memsz)));
        var end1 := Max(SegmentEnd(ph), end);
        LoopSucceeds(m1, top, f, n, i + 1, end1);
        LoopStores(m, m1, top, f, n, i, i + 1, end, end1, data);
      }
    }
  }

  lemma {:induction false} LoopPasses(m: Mem, top: nat, f: ElfFile, n: nat, i: nat, i1: nat, end: nat)
    requires i < n && i < |f.phdrs| && i1 == i + 1 && f.phdrs[i].ptype != 1 && LoopSucceedsIff(m, top, f, n, i1, end)
    ensures LoopSucceedsIff(m, top, f, n, i, end)
  {
    var r := LoadSegments(m, top, f, n, i1, end);
    assert LoadSegments(m, top, f, n, i, end) == r;
    OneMoreHeader(f, top, n, i, i1, f.phdrs[i]);
    if r.Ok? {
      HighestFrom(f, n, i, i1, end, end, r.value.1);
    }
  }

  lemma {:induction false} LoopStores(m: Mem, m1: Mem, top: nat, f: ElfFile, n: nat, i: nat, i1: nat, end: nat, end1: nat, data: seq<byte>)
    requires i < n && i < |f.phdrs| && i1 == i + 1 && f.phdrs[i].ptype == 1 && Loadable(f, top, f.phdrs[i])
    requires data == f.bytes[f.phdrs[i].offset..f.phdrs[i].offset + f.phdrs[i].filesz]
    requires m1 == Store(m, f.phdrs[i].paddr, data + Zeroes(TailSize(|data|, f.phdrs[i].memsz)))
    requires end1 == Max(SegmentEnd(f.phdrs[i]), end) && LoopSucceedsIff(m1, top, f, n, i1, end1)
    ensures LoopSucceedsIff(m, top, f, n, i, end)
  {
    var r := LoadSegments(m1, top, f, n, i1, end1);
    assert LoadSegments(m, top, f, n, i, end) == r;
    OneMoreHeader(f, top, n, i, i1, f.phdrs[i]);
    if r.Ok? {
      HighestFrom(f, n, i, i1, end, end1, r.value.1);
    }
  }

  lemma OneMoreHeader(f: ElfFile, top: nat, n: nat, i: nat, i1: nat, ph: Phdr)
    requires i < n && i < |f.phdrs| && i1 == i + 1 && ph == f.phdrs[i] && Loadable(f, top, ph)
    ensures AllLoadable(f, top, i, n) <==> (if i1 >= n then n <= |f.phdrs| else AllLoadable(f, top, i1, n))
  {
  }

  lemma HighestFrom(f: ElfFile, n: nat, i: nat, i1: nat, from: nat, from1: nat, end: nat)
    requires i < n <= |f.phdrs| && i1 == i + 1
    requires from1 == if f.phdrs[i].ptype == 1 then Max(SegmentEnd(f.phdrs[i]), from) else from
    requires if i1 < n then HighestEnd(f, i1, n, from1, end) else end == from1
    ensures HighestEnd(f, i, n, from, end)
  {
    if end == from1 {
      if from1 != from {
        assert EndsAt(f, i, n, end, i);
      }
    } else {
      var j :| EndsAt(f, i1, n, end, j);
      assert EndsAt(f, i, n, end, j);
    }
  }

  lemma {:induction false} NoHeaders(m: Mem, top: nat, f: ElfFile)
    ensures LoadSegments(m, top, f, 0, 0, 0) == Ok((m, 0)) && AllLoadable(f, top, 0, 0) && HighestEnd(f, 0, 0, 0, 0)
  {
  }

  /** load_elf_image succeeds exactly for a MIPS executable all of whose program headers can be
      read and all of whose segments are in the file and end no higher than `top`; the end it
      then reports is that of the highest segment, or 0. */
  lemma {:induction false} ImageLoadsIff(m: Mem, top: nat, f: ElfFile)
    requires f.ehdr.Some? ==> Valid32(f.ehdr.value)
    ensures var r := LoadSegments(m, top, f, PhNum(f), 0, 0);
            && (ImageError(f, r) == None <==> ImageLoads(f, top))
            && (ImageLoads(f, top) ==> r.Ok? && HighestEnd(f, 0, PhNum(f), 0, r.value.1))
  {
    if f.ehdr.Some? {
      AcceptableMeans(f.ehdr.value);
      if PhNum(f) == 0 {
        NoHeaders(m, top, f);
      } else {
        LoopSucceeds(m, top, f, PhNum(f), 0, 0);
      }
    }
  }

  // ----- what is loaded behind the image

  lemma {:induction false} StringsOfLine(ws: seq<Text>)
    requires ws != []
    ensures |Strings(ws)| == |Line(ws)| + 1
    decreases |ws|
  {
    if |ws| > 1 {
      StringsOfLine(ws[1..]);
    } else {
      assert Strings(ws[1..]) == [];
    }
  }

  /** Four bytes for every word of the command line, and the line with a zero behind it. */
  lemma BlockSize(base: nat, args: seq<Text>)
    ensures |ArgBlock(base, args)| == 4 * |Words(Line(args))| + |Line(args)| + 1
  {
    WordsJoin(Line(args));
    StringsOfLine(Words(Line(args)));
  }

  /** The end of the ramdisk that begins at the next multiple of 4096, or of the image. */
  function RamdiskEnd(end: nat, initrd: Option<seq<byte>>): nat {
    match initrd
    case None => end
    case Some(data) => (Align(end) + |data|) % 0x1_0000_0000
  }

  function ArgsEnd(rdEnd: nat, all: seq<Text>): nat {
    (Align(rdEnd) + 4 * |Words(Line(all))| + |Line(all)| + 1) % 0x1_0000_0000
  }

  /** The argument block and the 48 bytes of the trampoline, each put at the next multiple of
      4096, end no higher than `top`. */
  predicate TailFits(top: nat, rdEnd: nat, all: seq<Text>) {
    var argsEnd := ArgsEnd(rdEnd, all);
    argsEnd <= top && (Align(argsEnd) + 48) % 0x1_0000_0000 <= top
  }

  /** And so does the ramdisk before them. */
  predicate RestFits(top: nat, end: nat, initrd: Option<seq<byte>>, all: seq<Text>) {
    (initrd.Some? ==> RamdiskEnd(end, initrd) <= top) && TailFits(top, RamdiskEnd(end, initrd), all)
  }

  lemma ArgsFit(m: Mem, top: nat, rdEnd: nat, all: seq<Text>, base: nat, block: seq<byte>)
    requires base == Align(rdEnd) && block == ArgBlock(base, all)
    ensures Wrap(base, |block|) == ArgsEnd(rdEnd, all)
    ensures StoreArgs(m, top, base, all).Some? <==> ArgsEnd(rdEnd, all) <= top
  {
    BlockSize(base, all);
  }

  lemma TrampolineFits(m: Mem, top: nat, base: nat, argc: nat, argsBase: nat, entry: nat)
    ensures StoreTrampoline(m, top, base, argc, argsBase, entry).Some? <==> (base + 48) % 0x1_0000_0000 <= top
  {
  }

  lemma {:induction false} TailLoadsIff(m: Mem, top: nat, imageEnd: nat, initrdBase: nat, rdEnd: nat, all: seq<Text>, entry: nat, argsEnd: nat, r: Result<Loaded>)
    requires argsEnd == ArgsEnd(rdEnd, all) && r == LoadTail(m, top, imageEnd, initrdBase, rdEnd, all, entry)
    ensures r.Ok? <==> argsEnd <= top && (Align(argsEnd) + 48) % 0x1_0000_0000 <= top
  {
    var base, argc := Align(rdEnd), |Words(Line(all))|;
    ArgsFit(m, top, rdEnd, all, base, ArgBlock(base, all));
    var m1 := StoreArgs(m, top, base, all);
    if m1.Some? {
      TrampolineFits(m1.value, top, Align(argsEnd), argc, base, entry);
    }
  }

  lemma {:induction false} TailLoads(m: Mem, top: nat, imageEnd: nat, initrdBase: nat, rdEnd: nat, all: seq<Text>, entry: nat)
    ensures LoadTail(m, top, imageEnd, initrdBase, rdEnd, all, entry).Ok? <==> TailFits(top, rdEnd, all)
  {
    TailLoadsIff(m, top, imageEnd, initrdBase, rdEnd, all, entry, ArgsEnd(rdEnd, all), LoadTail(m, top, imageEnd, initrdBase, rdEnd, all, entry));
  }

  lemma RamdiskFits(m: Mem, top: nat, end: nat, initrd: Option<seq<byte>>, rest: Option<(Mem, nat)>)
    requires rest == LoadInitrd(m, top, end, initrd)
    ensures rest.Some? <==> (initrd.Some? ==> RamdiskEnd(end, initrd) <= top)
    ensures rest.Some? ==> rest.value.1 == RamdiskEnd(end, initrd)
  {
  }

  lemma {:induction false} BehindIsTail(m: Mem, top: nat, end: nat, filename: Text, args: Option<Text>, initrd: Option<seq<byte>>, entry: nat,
                                        m1: Mem, rdEnd: nat, rest: Option<(Mem, nat)>, all: seq<Text>)
    requires rest == LoadInitrd(m, top, end, initrd) && rest == Some((m1, rdEnd)) && all == AllArgs(filename, args, InitrdText(end, initrd))
    ensures LoadBehind(m, top, end, filename, args, initrd, entry) == LoadTail(m1, top, end, Align(end), rdEnd, all, entry)
  {
  }

  lemma {:induction false} BehindLoadsIff(m: Mem, top: nat, end: nat, filename: Text, args: Option<Text>, initrd: Option<seq<byte>>, entry: nat, all: seq<Text>)
    requires all == AllArgs(filename, args, InitrdText(end, initrd))
    ensures LoadBehind(m, top, end, filename, args, initrd, entry).Ok? <==> RestFits(top, end, initrd, all)
  {
    var rest, rdEnd := LoadInitrd(m, top, end, initrd), RamdiskEnd(end, initrd);
    RamdiskFits(m, top, end, initrd, rest);
    if rest.Some? {
      BehindIsTail(m, top, end, filename, args, initrd, entry, rest.value.0, rdEnd, rest, all);
      TailLoads(rest.value.0, top, end, Align(end), rdEnd, all, entry);
    }
  }

  /** load_elf gets as far as the jump exactly when the image can be loaded and ramdisk,
      arguments and trampoline fit behind its highest segment. */
  lemma {:induction false} KernelLoadsIff(m: Mem, top: nat, f: ElfFile, filename: Text, args: Option<Text>, initrd: Option<seq<byte>>, end: nat, all: seq<Text>)
    requires f.ehdr.Some? ==> Valid32(f.ehdr.value)
    requires ImageLoads(f, top) ==> HighestEnd(f, 0, PhNum(f), 0, end)
    requires all == AllArgs(filename, args, InitrdText(end, initrd))
    ensures LoadKernel(m, top, f, filename, args, initrd).Ok? <==> ImageLoads(f, top) && RestFits(top, end, initrd, all)
  {
    ImageLoadsIff(m, top, f);
    var r := LoadSegments(m, top, f, PhNum(f), 0, 0);
    if ImageLoads(f, top) {
      HighestEndUnique(f, PhNum(f), end, r.value.1);
      BehindLoadsIff(r.value.0, top, end, filename, args, initrd, f.ehdr.value.entry, all);
      AcceptableMeans(f.ehdr.value);
    }
  }

  // ----- headers of other types

  /** The file with one more program header in place `k`. */
  function WithHeader(f: ElfFile, k: nat, ph: Phdr): ElfFile
    requires k <= |f.phdrs|
  {
    ElfFile(if f.ehdr.Some? then Some(f.ehdr.value.(phnum := f.ehdr.value.phnum + 1)) else None,
            f.phdrs[..k] + [ph] + f.phdrs[k..], f.bytes)
  }

  /** From the place of the new header on, the loop over `f1` is one header ahead. */
  lemma {:induction false} LoopAhead(m: Mem, top: nat, f: ElfFile, f1: ElfFile, n: nat, n1: nat, i: nat, i1: nat, k: nat, ph: Phdr, end: nat)
    requires k <= |f.phdrs| && f1 == WithHeader(f, k, ph) && n1 == n + 1 && i1 == i + 1 && k <= i
    ensures LoadSegments(m, top, f1, n1, i1, end) == LoadSegments(m, top, f, n, i, end)
    decreases n - i
  {
    if i < n && i < |f.phdrs| {
      var h := f.phdrs[i];
      assert f1.phdrs[i1] == h;
      if h.ptype != PT_LOAD {
        LoopAhead(m, top, f, f1, n, n1, i + 1, i1 + 1, k, ph, end);
      } else {
        var data := SegmentData(f.bytes, h);
        if data.Some? && StoreSegment(m, top, data.value, h.paddr, h.memsz).Some? {
          var m1 := StoreSegment(m, top, data.value, h.paddr, h.memsz).value;
          LoopAhead(m1, top, f, f1, n, n1, i + 1, i1 + 1, k, ph, Max(Wrap(h.paddr, h.memsz), end));
        }
      }
    }
  }

  lemma {:induction false} LoopSkips(m: Mem, top: nat, f: ElfFile, f1: ElfFile, n: nat, n1: nat, i: nat, k: nat, ph: Phdr, end: nat)
    requires k <= |f.phdrs| && f1 == WithHeader(f, k, ph) && ph.ptype != 1 && n1 == n + 1 && i <= k <= n
    ensures LoadSegments(m, top, f1, n1, i, end) == LoadSegments(m, top, f, n, i, end)
    decreases k - i
  {
    if i == k {
      assert f1.phdrs[k] == ph;
      LoopAhead(m, top, f, f1, n, n1, i, i + 1, k, ph, end);
    } else {
      var h := f.phdrs[i];
      assert f1.phdrs[i] == h;
      if h.ptype != PT_LOAD {
        LoopSkips(m, top, f, f1, n, n1, i + 1, k, ph, end);
      } else {
        var data := SegmentData(f.bytes, h);
        if data.Some? && StoreSegment(m, top, data.value, h.paddr, h.memsz).Some? {
          var m1 := StoreSegment(m, top, data.value, h.paddr, h.memsz).value;
          LoopSkips(m1, top, f, f1, n, n1, i + 1, k, ph, Max(Wrap(h.paddr, h.memsz), end));
        }
      }
    }
  }

  /** What becomes of the kernel depends on the image only by what its segments left. */
  lemma SameKernel(m: Mem, top: nat, f: ElfFile, f1: ElfFile, filename: Text, args: Option<Text>, initrd: Option<seq<byte>>, r: Result<(Mem, nat)>)
    requires f.ehdr.Some? && f1.ehdr.Some? && Valid32(f.ehdr.value) && Valid32(f1.ehdr.value)
    requires Acceptable(f.ehdr.value) == Acceptable(f1.ehdr.value) && f.ehdr.value.entry == f1.ehdr.value.entry
    requires LoadSegments(m, top, f, f.ehdr.value.phnum, 0, 0) == r == LoadSegments(m, top, f1, f1.ehdr.value.phnum, 0, 0)
    ensures LoadKernel(m, top, f1, filename, args, initrd) == LoadKernel(m, top, f, filename, args, initrd)
  {
  }

  /** A program header of another type, put anywhere among the others, changes nothing: neither
      whether the kernel is loaded, nor what is in memory then, nor where. */
  lemma {:induction false} OtherHeaderIgnored(m: Mem, top: nat, f: ElfFile, filename: Text, args: Option<Text>, initrd: Option<seq<byte>>, k: nat, ph: Phdr)
    requires f.ehdr.Some? ==> Valid32(f.ehdr.value)
    requires k <= |f.phdrs| && k <= PhNum(f) && ph.ptype != 1
    ensures LoadKernel(m, top, WithHeader(f, k, ph), filename, args, initrd) == LoadKernel(m, top, f, filename, args, initrd)
  {
    if f.ehdr.Some? {
      var f1, n := WithHeader(f, k, ph), PhNum(f);
      AcceptableMeans(f.ehdr.value);
      AcceptableMeans(f1.ehdr.value);
      LoopSkips(m, top, f, f1, n, n + 1, 0, k, ph, 0);
      SameKernel(m, top, f, f1, filename, args, initrd, LoadSegments(m, top, f, n, 0, 0));
    }
  }

  // ----- the running second stage

  /** What lies at or above `top` is out of reach of a part that is put behind `end`. */
  lemma {:induction false} PlacedSpares(m: Mem, m1: Mem, end: nat, base: nat, t: seq<byte>, end1: nat, top: nat, a: nat, s: seq<byte>)
    requires PlacedBehind(m, m1, end, base, t, end1, top) && Holds(m, a, s) && top <= a && a + |s| <= ADDRESSES
    ensures Holds(m1, a, s)
  {
    if s != [] && t != [] {
      HoldsAfterStore(m, a, s, base, t);
    }
  }

  lemma {:induction false} SegmentsSpare(m: Mem, top: nat, f: ElfFile, n: nat, i: nat, end: nat, a: nat, s: seq<byte>)
    requires Proper(f, n) && Holds(m, a, s) && top <= a && a + |s| <= ADDRESSES
    ensures var r := LoadSegments(m, top, f, n, i, end); r.Ok? ==> Holds(r.value.0, a, s)
    decreases n - i
  {
    if i < n && i < |f.phdrs| {
      var ph := f.phdrs[i];
      if ph.ptype != PT_LOAD {
        SegmentsSpare(m, top, f, n, i + 1, end, a, s);
      } else {
        var data := SegmentData(f.bytes, ph);
        if data.Some? && StoreSegment(m, top, data.value, ph.paddr, ph.memsz).Some? {
          var m1 := StoreSegment(m, top, data.value, ph.paddr, ph.memsz).value;
          SegmentStored(m, top, f, ph, data.value, m1);
          if s != [] {
            HoldsAfterStore(m, a, s, ph.paddr, SegmentImage(f.bytes, ph));
          }
          SegmentsSpare(m1, top, f, n, i + 1, Max(Wrap(ph.paddr, ph.memsz), end), a, s);
        }
      }
    }
  }

  lemma StageTwoPlace(sdram: nat)
    requires STAGE2_CODESIZE <= sdram <= SDRAM_BASE
    ensures StageTwoBase(sdram) == 0x8000_0000 + sdram - 0x40_0000
  {
  }

  /** Loading a proper kernel leaves the second stage, which carries out the load, as it was: the
      bytes it was sent to, at 0x80000000 plus the size of the memory less 0x400000. */
  lemma {:induction false} StageTwoIsSpared(m: Mem, sdram: nat, f: ElfFile, filename: Text, args: Option<Text>, initrd: Option<seq<byte>>,
                                            n: nat, all: seq<Text>, block: seq<byte>, r: Loaded, base: nat, code: seq<byte>)
    requires 0x40_0000 <= sdram < 0x8000_0000 && base == 0x8000_0000 + sdram - 0x40_0000 && |code| <= 0x40_0000 && Holds(m, base, code)
    requires Opens(f, n) && Proper(f, n)
    requires LoadKernel(m, StageTwoBase(sdram), f, filename, args, initrd) == Ok(r)
    requires all == AllArgs(filename, args, InitrdText(r.imageEnd, initrd)) && block == ArgBlock(r.argsBase, all)
    requires Roomy(base, |block|) && (initrd.Some? ==> Roomy(base, |initrd.value|))
    ensures Holds(r.m, base, code)
  {
    StageTwoPlace(sdram);
    var top := StageTwoBase(sdram);
    var m1, m2 := LoadInSteps(m, top, f, filename, args, initrd, r, n, all);
    var p := PartsOf(m1, m2, all, r);
    SegmentsLoad(m, top, f, n, 0, 0);
    PartsLaidOut(m, top, f, n, initrd, all, r, p);
    SegmentsSpare(m, top, f, n, 0, 0, base, code);
    PartsSpare(r, p, initrd, top, base, code);
  }

  lemma {:induction false} PartsSpare(r: Loaded, p: Parts, initrd: Option<seq<byte>>, top: nat, a: nat, s: seq<byte>)
    requires LaidOut(r, p, initrd, top) && Holds(p.m1, a, s) && top <= a && a + |s| <= ADDRESSES
    ensures Holds(r.m, a, s)
  {
    if initrd.Some? {
      PlacedSpares(p.m1, p.m2, r.imageEnd, r.initrdBase, initrd.value, r.initrdEnd, top, a, s);
    }
    PlacedSpares(p.m2, p.m3, r.initrdEnd, r.argsBase, p.block, r.argsEnd, top, a, s);
    PlacedSpares(p.m3, r.m, r.argsEnd, r.trampolineBase, p.image, r.trampolineBase + 48, top, a, s);
  }
}
