/** The kernel loader: segments, initial ramdisk, argument block and trampoline, one behind the
    other in the target's memory. */
module ElfLoader {
  import opened Options
  import opened RsCode
  import opened Memory
  import opened Trampoline
  import opened CommandLine

  // ----- the file

  datatype Ehdr = Ehdr(ident: seq<byte>, etype: nat, machine: nat, version: nat, entry: nat, phoff: nat, phentsize: nat, phnum: nat)

  datatype Phdr = Phdr(ptype: nat, offset: nat, paddr: nat, filesz: nat, memsz: nat)

  /** An ELF file as fread delivers it: the header, unless the file is too short for one, the
      program headers that are there, and all its bytes. */
  datatype ElfFile = ElfFile(ehdr: Option<Ehdr>, phdrs: seq<Phdr>, bytes: seq<byte>)

  datatype Error = Truncated | BadIdentification | DoesNotFit

  datatype Result<T> = Ok(value: T) | Err(error: Error)

  const VALID_IDENT: seq<byte> := [0x7f, 0x45, 0x4c, 0x46, 1, 1, 1]
  const ET_EXEC: nat := 2
  const EM_MIPS: nat := 8
  const EV_CURRENT: nat := 1
  const PT_LOAD: nat := 1
  const PHDR_SIZE: nat := 32

  ghost predicate Valid32(e: Ehdr) {
    |e.ident| == 16 && e.entry < ADDRESSES
  }

  ghost predicate ValidPhdr(ph: Phdr) {
    ph.offset < ADDRESSES && ph.paddr < ADDRESSES && ph.filesz < ADDRESSES && ph.memsz < ADDRESSES
  }

  predicate Acceptable(e: Ehdr)
    requires |e.ident| == 16
  {
    && e.ident[..7] == VALID_IDENT && e.etype == ET_EXEC && e.machine == EM_MIPS && e.version == EV_CURRENT
    && e.phoff != 0 && e.phentsize == PHDR_SIZE
  }

  // ----- one segment

  function Zeroes(n: nat): (r: seq<byte>)
    ensures |r| == n
  {
    seq(n, i => 0)
  }

  /** memsz - filesz on 32-bit words. */
  function TailSize(filesz: nat, memsz: nat): nat {
    (memsz - filesz) % ADDRESSES
  }

  /** load_segment: the memory after it, unless the segment does not fit. */
  function StoreSegment(m: Mem, top: nat, data: seq<byte>, base: nat, memsz: nat): Option<Mem> {
    if Wrap(base, memsz) > top then None
    else Some(Store(m, base, data + Zeroes(TailSize(|data|, memsz))))
  }

  // ----- all segments

  function SegmentData(bytes: seq<byte>, ph: Phdr): Option<seq<byte>> {
    if ph.offset + ph.filesz <= |bytes| then Some(bytes[ph.offset..ph.offset + ph.filesz]) else None
  }

  function Max(a: nat, b: nat): nat {
    if a > b then a else b
  }

  /** The loop of load_elf_image over the program headers from the `i`-th on. */
  function LoadSegments(m: Mem, top: nat, f: ElfFile, n: nat, i: nat, end: nat): Result<(Mem, nat)>
    decreases n - i
  {
    if i >= n then Ok((m, end))
    else if i >= |f.phdrs| then Err(Truncated)
    else
      var ph := f.phdrs[i];
      if ph.ptype != PT_LOAD then LoadSegments(m, top, f, n, i + 1, end)
      else
        match SegmentData(f.bytes, ph)
        case None => Err(Truncated)
        case Some(data) =>
          match StoreSegment(m, top, data, ph.paddr, ph.memsz)
          case None => Err(DoesNotFit)
          case Some(m1) => LoadSegments(m1, top, f, n, i + 1, Max(Wrap(ph.paddr, ph.memsz), end))
  }

  // ----- the layout

  /** ALIGN, on 32-bit words. */
  function Align(a: nat): nat {
    (a + 4095) % ADDRESSES / 4096 * 4096
  }

  /** Without wrap-around it is the least multiple of 4096 that is not below `a`. */
  lemma AlignIsLeast(a: nat, k: int)
    requires a + 4095 < ADDRESSES
    ensures Align(a) % 4096 == 0 && a <= Align(a) < a + 4096
    ensures 4096 * k >= a ==> Align(a) <= 4096 * k
  {
    var q := (a + 4095) / 4096;
    assert Align(a) == q * 4096;
    assert 4096 * k >= a ==> k >= q;
  }

  function Digit(d: nat): byte {
    match d
    case 0 => 0x30 case 1 => 0x31 case 2 => 0x32 case 3 => 0x33 case 4 => 0x34 case 5 => 0x35 case 6 => 0x36 case 7 => 0x37
    case 8 => 0x38 case 9 => 0x39 case 10 => 0x41 case 11 => 0x42 case 12 => 0x43 case 13 => 0x44 case 14 => 0x45 case _ => 0x46
  }

  /** %08X. */
  function Hex(w: nat, digits: nat): (r: Text)
    ensures |r| == digits && NoZeros(r)
    decreases digits
  {
    if digits == 0 then [] else Hex(w / 16, digits - 1) + [Digit(w % 16)]
  }

  /** The value of a hexadecimal digit written in capitals. */
  function DigitValue(c: byte): nat {
    if 0x30 <= c <= 0x39 then (c - 0x30) as nat else if 0x41 <= c <= 0x46 then 10 + (c - 0x41) as nat else 16
  }

  /** The number that a text of digits stands for. */
  function HexValue(t: Text): nat
    decreases |t|
  {
    if t == [] then 0 else 16 * HexValue(t[..|t| - 1]) + DigitValue(t[|t| - 1])
  }

  function Power16(n: nat): nat {
    if n == 0 then 1 else 16 * Power16(n - 1)
  }

  lemma DigitBack(d: nat)
    requires d < 16
    ensures DigitValue(Digit(d)) == d
  {
  }

  /** The digits read back as the number, for every number that has no more digits. */
  lemma {:induction false} HexReadsBack(w: nat, digits: nat)
    requires w < Power16(digits)
    ensures HexValue(Hex(w, digits)) == w
    decreases digits
  {
    if digits > 0 {
      HexReadsBack(w / 16, digits - 1);
      DigitBack(w % 16);
      assert Hex(w, digits)[..digits - 1] == Hex(w / 16, digits - 1);
    }
  }

  lemma EightDigits()
    ensures Power16(8) == ADDRESSES
  {
    assert Power16(4) == 0x10000;
    assert Power16(8) == 16 * (16 * (16 * (16 * Power16(4))));
  }

  const RD_START: Text := [0x72, 0x64, 0x5f, 0x73, 0x74, 0x61, 0x72, 0x74, 0x3d, 0x30, 0x78]
  const RD_SIZE: Text := [0x20, 0x72, 0x64, 0x5f, 0x73, 0x69, 0x7a, 0x65, 0x3d, 0x30, 0x78]

  /** rd_start=0x... rd_size=0x... */
  function InitrdArgs(base: nat, size: nat): (r: Text)
    ensures NoZeros(r)
  {
    RD_START + Hex(base, 8) + RD_SIZE + Hex(size, 8)
  }

  /** The list of arguments ends at the first missing one. */
  function AllArgs(filename: Text, args: Option<Text>, initrd: Option<Text>): seq<Text> {
    [filename] + (if args.Some? then [args.value] + (if initrd.Some? then [initrd.value] else []) else [])
  }

  /** The command line as one text: the file name, and behind spaces the arguments and, if there
      are any, the words for the ramdisk. */
  lemma CommandLineMeans(filename: Text, args: Text, initrd: Text)
    ensures forall rd :: Line(AllArgs(filename, None, rd)) == filename
    ensures Line(AllArgs(filename, Some(args), None)) == filename + [0x20] + args
    ensures Line(AllArgs(filename, Some(args), Some(initrd))) == filename + [0x20] + args + [0x20] + initrd
  {
    LineBehind([filename], args);
    LineBehind([filename, args], initrd);
    assert [filename] + [args] == [filename, args] && [filename, args] + [initrd] == [filename, args, initrd];
    assert [filename] + [] == [filename];
  }

  function ToWord(n: nat): word {
    (n % ADDRESSES) as word
  }

  /** Where everything has gone. */
  datatype Loaded = Loaded(m: Mem, imageEnd: nat, initrdBase: nat, initrdEnd: nat, argsBase: nat, argsEnd: nat,
                           trampolineBase: nat, entry: nat, argc: nat)

  /** The initial ramdisk, if there is one, and the memory behind it. */
  function LoadInitrd(m: Mem, top: nat, end: nat, initrd: Option<seq<byte>>): Option<(Mem, nat)> {
    match initrd
    case None => Some((m, end))
    case Some(data) =>
      if Wrap(Align(end), |data|) > top then None else Some((Store(m, Align(end), data), Wrap(Align(end), |data|)))
  }

  function InitrdText(end: nat, initrd: Option<seq<byte>>): Option<Text> {
    match initrd
    case None => None
    case Some(data) => Some(InitrdArgs(Align(end), |data|))
  }

  function TrampolineImage(argc: nat, argsBase: nat, entry: nat): (r: seq<byte>)
    ensures |r| == 48
  {
    Image(Patched(ToWord(argc), ToWord(argsBase), 0, 0, ToWord(entry)))
  }

  function StoreArgs(m: Mem, top: nat, base: nat, args: seq<Text>): Option<Mem> {
    StoreSegment(m, top, ArgBlock(base, args), base, |ArgBlock(base, args)|)
  }

  function StoreTrampoline(m: Mem, top: nat, base: nat, argc: nat, argsBase: nat, entry: nat): Option<Mem> {
    StoreSegment(m, top, TrampolineImage(argc, argsBase, entry), base, 48)
  }

  /** Argument block and trampoline, from the end of what has been loaded so far. */
  function LoadTail(m: Mem, top: nat, imageEnd: nat, initrdBase: nat, initrdEnd: nat, args: seq<Text>, entry: nat): Result<Loaded> {
    var argsBase := Align(initrdEnd);
    var argc := |Words(Line(args))|;
    match StoreArgs(m, top, argsBase, args)
    case None => Err(DoesNotFit)
    case Some(m1) =>
      var argsEnd := Wrap(argsBase, |ArgBlock(argsBase, args)|);
      var base := Align(argsEnd);
      match StoreTrampoline(m1, top, base, argc, argsBase, entry)
      case None => Err(DoesNotFit)
      case Some(m2) => Ok(Loaded(m2, imageEnd, initrdBase, initrdEnd, argsBase, argsEnd, base, entry, argc))
  }

  /** Everything behind the image. */
  function LoadBehind(m: Mem, top: nat, end: nat, filename: Text, args: Option<Text>, initrd: Option<seq<byte>>, entry: nat): Result<Loaded> {
    match LoadInitrd(m, top, end, initrd)
    case None => Err(DoesNotFit)
    case Some((m1, end1)) => LoadTail(m1, top, end, Align(end), end1, AllArgs(filename, args, InitrdText(end, initrd)), entry)
  }

  /** load_elf, up to the jump to the trampoline. */
  function LoadKernel(m: Mem, top: nat, f: ElfFile, filename: Text, args: Option<Text>, initrd: Option<seq<byte>>): Result<Loaded>
    requires f.ehdr.Some? ==> Valid32(f.ehdr.value)
  {
    if f.ehdr == None then Err(Truncated)
    else if !Acceptable(f.ehdr.value) then Err(BadIdentification)
    else
      match LoadSegments(m, top, f, f.ehdr.value.phnum, 0, 0)
      case Err(e) => Err(e)
      case Ok((m1, end)) => LoadBehind(m1, top, end, filename, args, initrd, f.ehdr.value.entry)
  }

  // ----- what each segment holds

  /** The bytes a segment is to have in memory: its bytes in the file, and zeros. */
  function SegmentImage(bytes: seq<byte>, ph: Phdr): seq<byte>
    requires ph.offset + ph.filesz <= |bytes| && ph.filesz <= ph.memsz
  {
    bytes[ph.offset..ph.offset + ph.filesz] + Zeroes(ph.memsz - ph.filesz)
  }

  /** [a, a + n) and [b, b + k) do not meet, and neither goes round the end. */
  predicate Apart(a: nat, n: nat, b: nat, k: nat) {
    a + n <= ADDRESSES && b + k <= ADDRESSES && (a + n <= b || b + k <= a)
  }

  /** A store elsewhere leaves what lies in memory alone. */
  lemma {:induction false} HoldsAfterStore(m: Mem, a: nat, s: seq<byte>, b: nat, t: seq<byte>)
    requires Holds(m, a, s) && a < ADDRESSES && b < ADDRESSES && Apart(a, |s|, b, |t|)
    ensures Holds(Store(m, b, t), a, s)
  {
    forall i | 0 <= i < |s| ensures HoldsAt(Store(m, b, t), a, i, s[i]) {
      assert HoldsAt(m, a, i, s[i]);
      assert Wrap(a, i) == a + i;
      StoreAt(m, b, t, a + i);
      assert Behind(b, a + i) >= |t|;
    }
  }

  /** An image as the ELF standard describes it, that does not wrap round: loadable segments
      have room for their bytes in the file and do not overlap. */
  ghost predicate Proper(f: ElfFile, n: nat) {
    && n <= |f.phdrs|
    && (forall i | 0 <= i < n :: ValidPhdr(f.phdrs[i]))
    && (forall i | 0 <= i < n && f.phdrs[i].ptype == PT_LOAD :: Fits(f, f.phdrs[i]))
    && (forall i, j | 0 <= i < j < n && f.phdrs[i].ptype == PT_LOAD && f.phdrs[j].ptype == PT_LOAD ::
          SegmentsApart(f.phdrs[i], f.phdrs[j]))
  }

  ghost predicate Fits(f: ElfFile, ph: Phdr) {
    ph.filesz <= ph.memsz && ph.paddr + ph.memsz < ADDRESSES
  }

  ghost predicate SegmentsApart(p: Phdr, q: Phdr) {
    Apart(p.paddr, p.memsz, q.paddr, q.memsz)
  }

  /** The segment lies in memory. */
  ghost predicate SegmentHeld(m: Mem, f: ElfFile, ph: Phdr) {
    ph.offset + ph.filesz <= |f.bytes| && ph.filesz <= ph.memsz && Holds(m, ph.paddr, SegmentImage(f.bytes, ph))
  }

  ghost predicate SegmentsHeld(m: Mem, f: ElfFile, from: nat, n: nat) {
    forall i | from <= i < n && i < |f.phdrs| && f.phdrs[i].ptype == PT_LOAD :: SegmentHeld(m, f, f.phdrs[i])
  }

  /** No segment from the `i`-th on touches [a, a + n). */
  ghost predicate Clear(f: ElfFile, i: nat, n: nat, a: nat, size: nat) {
    forall j | i <= j < n && j < |f.phdrs| && f.phdrs[j].ptype == PT_LOAD :: Apart(a, size, f.phdrs[j].paddr, f.phdrs[j].memsz)
  }

  lemma {:induction false} SegmentStored(m: Mem, top: nat, f: ElfFile, ph: Phdr, data: seq<byte>, m1: Mem)
    requires ValidPhdr(ph) && Fits(f, ph) && SegmentData(f.bytes, ph) == Some(data)
    requires StoreSegment(m, top, data, ph.paddr, ph.memsz) == Some(m1)
    ensures ph.offset + ph.filesz <= |f.bytes| && m1 == Store(m, ph.paddr, SegmentImage(f.bytes, ph)) && SegmentHeld(m1, f, ph)
    ensures ph.paddr + ph.memsz <= top && |SegmentImage(f.bytes, ph)| == ph.memsz
  {
    StoredHolds(m, ph.paddr, SegmentImage(f.bytes, ph));
  }

  /** What later segments leave alone. */
  lemma {:induction false} LoadSegmentsKeep(m: Mem, top: nat, f: ElfFile, n: nat, i: nat, end: nat, a: nat, s: seq<byte>)
    requires Proper(f, n) && a < ADDRESSES && Holds(m, a, s) && Clear(f, i, n, a, |s|)
    ensures var r := LoadSegments(m, top, f, n, i, end); r.Ok? ==> Holds(r.value.0, a, s)
    decreases n - i
  {
    if i < n && i < |f.phdrs| {
      var ph := f.phdrs[i];
      if ph.ptype != PT_LOAD {
        LoadSegmentsKeep(m, top, f, n, i + 1, end, a, s);
      } else {
        var data := SegmentData(f.bytes, ph);
        if data.Some? {
          var m1 := StoreSegment(m, top, data.value, ph.paddr, ph.memsz);
          if m1.Some? {
            SegmentStored(m, top, f, ph, data.value, m1.value);
            HoldsAfterStore(m, a, s, ph.paddr, SegmentImage(f.bytes, ph));
            LoadSegmentsKeep(m1.value, top, f, n, i + 1, Max(Wrap(ph.paddr, ph.memsz), end), a, s);
          }
        }
      }
    }
  }

  /** After the loop every loadable segment from the `i`-th on holds its bytes in the file
      followed by zeros, and lies below the end that is reported. */
  ghost predicate SegmentsLoaded(f: ElfFile, n: nat, i: nat, end: nat, top: nat, r: Result<(Mem, nat)>) {
    r.Ok? ==>
      && SegmentsHeld(r.value.0, f, i, n)
      && end <= r.value.1
      && (end <= top ==> r.value.1 <= top)
      && forall j | i <= j < n && j < |f.phdrs| && f.phdrs[j].ptype == PT_LOAD :: f.phdrs[j].paddr + f.phdrs[j].memsz <= r.value.1
  }

  lemma {:induction false} SegmentsLoad(m: Mem, top: nat, f: ElfFile, n: nat, i: nat, end: nat)
    requires Proper(f, n)
    ensures SegmentsLoaded(f, n, i, end, top, LoadSegments(m, top, f, n, i, end))
    decreases n - i, 1
  {
    if i < n && i < |f.phdrs| {
      if f.phdrs[i].ptype != PT_LOAD {
        SegmentsLoad(m, top, f, n, i + 1, end);
      } else {
        OneSegmentLoads(m, top, f, n, i, end, f.phdrs[i]);
      }
    }
  }

  lemma {:induction false} OneSegmentLoads(m: Mem, top: nat, f: ElfFile, n: nat, i: nat, end: nat, ph: Phdr)
    requires Proper(f, n) && i < n && i < |f.phdrs| && ph == f.phdrs[i] && ph.ptype == PT_LOAD
    ensures SegmentsLoaded(f, n, i, end, top, LoadSegments(m, top, f, n, i, end))
    decreases n - i, 0
  {
    var data := SegmentData(f.bytes, ph);
    if data.Some? {
      var m1 := StoreSegment(m, top, data.value, ph.paddr, ph.memsz);
      if m1.Some? {
        var end1 := Max(Wrap(ph.paddr, ph.memsz), end);
        var s := SegmentImage(f.bytes, ph);
        SegmentStored(m, top, f, ph, data.value, m1.value);
        forall j | i + 1 <= j < n && j < |f.phdrs| && f.phdrs[j].ptype == PT_LOAD
          ensures Apart(ph.paddr, |s|, f.phdrs[j].paddr, f.phdrs[j].memsz)
        {
          assert SegmentsApart(f.phdrs[i], f.phdrs[j]);
        }
        LoadSegmentsKeep(m1.value, top, f, n, i + 1, end1, ph.paddr, s);
        SegmentsLoad(m1.value, top, f, n, i + 1, end1);
      }
    }
  }

  // ----- the whole image

  /** Address arithmetic behind the end of the memory that may be used does not wrap round. */
  ghost predicate Roomy(top: nat, size: nat) {
    top + 4096 + size <= ADDRESSES
  }

  /** `base` is the least multiple of 4096 that is not below `end`. */
  ghost predicate Follows(base: nat, end: nat) {
    base % 4096 == 0 && end <= base && forall k :: 4096 * k >= end ==> base <= 4096 * k
  }

  lemma {:induction false} AlignFollows(end: nat)
    requires end + 4095 < ADDRESSES
    ensures Follows(Align(end), end) && Align(end) <= end + 4095
  {
    forall k | 4096 * k >= end ensures Align(end) <= 4096 * k {
      AlignIsLeast(end, k);
    }
    AlignIsLeast(end, end);
  }

  /** A part that has been put behind `end`: at the least multiple of 4096, whole, and with
      nothing below `end` changed. */
  ghost predicate PlacedBehind(m: Mem, m1: Mem, end: nat, base: nat, s: seq<byte>, end1: nat, top: nat) {
    Follows(base, end) && end1 == base + |s| <= top && end <= end1 && m1 == Store(m, base, s) && Holds(m1, base, s)
  }

  lemma {:induction false} StoredBehind(m: Mem, end: nat, base: nat, s: seq<byte>, top: nat)
    requires end <= top && Roomy(top, |s|) && base == Align(end) && Wrap(base, |s|) <= top
    ensures PlacedBehind(m, Store(m, base, s), end, base, s, Wrap(base, |s|), top)
  {
    AlignFollows(end);
    StoredHolds(m, base, s);
  }

  /** What lies below `end` stays. */
  lemma {:induction false} PlacedKeeps(m: Mem, m1: Mem, end: nat, base: nat, t: seq<byte>, end1: nat, top: nat, a: nat, s: seq<byte>)
    requires PlacedBehind(m, m1, end, base, t, end1, top) && top < ADDRESSES && Holds(m, a, s) && a + |s| <= end
    ensures Holds(m1, a, s)
  {
    if s != [] && t != [] {
      HoldsAfterStore(m, a, s, base, t);
    }
  }

  /** The three parts behind the segments, from the end of the image on. */
  datatype Parts = Parts(m1: Mem, m2: Mem, m3: Mem, block: seq<byte>, image: seq<byte>)

  /** Ramdisk, argument block and trampoline one behind the other. */
  ghost predicate LaidOut(r: Loaded, p: Parts, initrd: Option<seq<byte>>, top: nat) {
    && (match initrd
        case None => r.initrdEnd == r.imageEnd && p.m2 == p.m1
        case Some(data) => PlacedBehind(p.m1, p.m2, r.imageEnd, r.initrdBase, data, r.initrdEnd, top))
    && PlacedBehind(p.m2, p.m3, r.initrdEnd, r.argsBase, p.block, r.argsEnd, top)
    && PlacedBehind(p.m3, r.m, r.argsEnd, r.trampolineBase, p.image, r.trampolineBase + 48, top)
  }

  lemma {:induction false} TailPlaced(m: Mem, top: nat, imageEnd: nat, initrdBase: nat, initrdEnd: nat, args: seq<Text>, entry: nat,
                                      r: Loaded, block: seq<byte>, image: seq<byte>, m1: Mem)
    requires LoadTail(m, top, imageEnd, initrdBase, initrdEnd, args, entry) == Ok(r)
    requires block == ArgBlock(r.argsBase, args) && image == TrampolineImage(r.argc, r.argsBase, entry) && m1 == Store(m, r.argsBase, block)
    requires initrdEnd <= top && Roomy(top, |block|) && Roomy(top, 48)
    ensures PlacedBehind(m, m1, initrdEnd, r.argsBase, block, r.argsEnd, top)
    ensures PlacedBehind(m1, r.m, r.argsEnd, r.trampolineBase, image, r.trampolineBase + 48, top)
    ensures r.imageEnd == imageEnd && r.initrdBase == initrdBase && r.initrdEnd == initrdEnd && r.entry == entry
    ensures r.argc == |Words(Line(args))|
  {
    assert block + Zeroes(TailSize(|block|, |block|)) == block;
    assert image + Zeroes(TailSize(48, 48)) == image;
    StoredBehind(m, initrdEnd, r.argsBase, block, top);
    StoredBehind(m1, r.argsEnd, r.trampolineBase, image, top);
  }

  /** Nothing below the end of the image changes behind the segments. */
  lemma {:induction false} PartsKeep(r: Loaded, p: Parts, initrd: Option<seq<byte>>, top: nat, a: nat, s: seq<byte>)
    requires LaidOut(r, p, initrd, top) && top < ADDRESSES && Holds(p.m1, a, s) && a + |s| <= r.imageEnd
    ensures Holds(r.m, a, s)
  {
    if initrd.Some? {
      PlacedKeeps(p.m1, p.m2, r.imageEnd, r.initrdBase, initrd.value, r.initrdEnd, top, a, s);
    }
    PlacedKeeps(p.m2, p.m3, r.initrdEnd, r.argsBase, p.block, r.argsEnd, top, a, s);
    PlacedKeeps(p.m3, r.m, r.argsEnd, r.trampolineBase, p.image, r.trampolineBase + 48, top, a, s);
  }

  lemma {:induction false} InitrdKept(r: Loaded, p: Parts, initrd: seq<byte>, top: nat)
    requires LaidOut(r, p, Some(initrd), top) && top < ADDRESSES
    ensures Holds(r.m, r.initrdBase, initrd)
  {
    PlacedKeeps(p.m2, p.m3, r.initrdEnd, r.argsBase, p.block, r.argsEnd, top, r.initrdBase, initrd);
    PlacedKeeps(p.m3, r.m, r.argsEnd, r.trampolineBase, p.image, r.trampolineBase + 48, top, r.initrdBase, initrd);
  }

  function PartsOf(m1: Mem, m2: Mem, all: seq<Text>, r: Loaded): (p: Parts) {
    var block := ArgBlock(r.argsBase, all);
    Parts(m1, m2, Store(m2, r.argsBase, block), block, TrampolineImage(r.argc, r.argsBase, r.entry))
  }

  /** A successful load in its steps. */
  ghost predicate Steps(m: Mem, top: nat, f: ElfFile, n: nat, initrd: Option<seq<byte>>, all: seq<Text>, r: Loaded, m1: Mem, m2: Mem) {
    && LoadSegments(m, top, f, n, 0, 0) == Ok((m1, r.imageEnd))
    && r.initrdBase == Align(r.imageEnd)
    && LoadInitrd(m1, top, r.imageEnd, initrd) == Some((m2, r.initrdEnd))
    && LoadTail(m2, top, r.imageEnd, r.initrdBase, r.initrdEnd, all, r.entry) == Ok(r)
  }

  lemma {:induction false} TailFields(m: Mem, top: nat, imageEnd: nat, initrdBase: nat, initrdEnd: nat, args: seq<Text>, entry: nat, r: Loaded)
    requires LoadTail(m, top, imageEnd, initrdBase, initrdEnd, args, entry) == Ok(r)
    ensures r.imageEnd == imageEnd && r.initrdBase == initrdBase && r.initrdEnd == initrdEnd && r.entry == entry
  {
  }

  /** The file has a header, and `n` program headers. */
  ghost predicate Opens(f: ElfFile, n: nat) {
    f.ehdr.Some? && Valid32(f.ehdr.value) && n == f.ehdr.value.phnum
  }

  lemma {:induction false} LoadInSteps(m: Mem, top: nat, f: ElfFile, filename: Text, args: Option<Text>, initrd: Option<seq<byte>>, r: Loaded,
                                      n: nat, all: seq<Text>)
    returns (m1: Mem, m2: Mem)
    requires Opens(f, n) && LoadKernel(m, top, f, filename, args, initrd) == Ok(r)
    requires all == AllArgs(filename, args, InitrdText(r.imageEnd, initrd))
    ensures Steps(m, top, f, n, initrd, all, r, m1, m2)
    ensures r.entry == f.ehdr.value.entry
  {
    var end, end2;
    m1, end := LoadSegments(m, top, f, f.ehdr.value.phnum, 0, 0).value.0, LoadSegments(m, top, f, f.ehdr.value.phnum, 0, 0).value.1;
    m2, end2 := LoadInitrd(m1, top, end, initrd).value.0, LoadInitrd(m1, top, end, initrd).value.1;
    TailFields(m2, top, end, Align(end), end2, AllArgs(filename, args, InitrdText(end, initrd)), f.ehdr.value.entry, r);
  }

  /** The layout: each part at the least multiple of 4096 behind the one before, in this order,
      and all below `top`. */
  lemma {:induction false} PartsLaidOut(m: Mem, top: nat, f: ElfFile, n: nat, initrd: Option<seq<byte>>, all: seq<Text>, r: Loaded, p: Parts)
    requires Steps(m, top, f, n, initrd, all, r, p.m1, p.m2) && r.imageEnd <= top
    requires p == PartsOf(p.m1, p.m2, all, r)
    requires Roomy(top, |p.block|) && Roomy(top, 48) && (initrd.Some? ==> Roomy(top, |initrd.value|))
    ensures LaidOut(r, p, initrd, top) && r.argc == |Words(Line(all))|
  {
    if initrd.Some? {
      StoredBehind(p.m1, r.imageEnd, r.initrdBase, initrd.value, top);
    }
    TailPlaced(p.m2, top, r.imageEnd, r.initrdBase, r.initrdEnd, all, r.entry, r, p.block, p.image, p.m3);
  }

  /** The memory a kernel is entered with. */
  ghost predicate Ready(r: Loaded, f: ElfFile, n: nat, initrd: Option<seq<byte>>, all: seq<Text>) {
    && SegmentsHeld(r.m, f, 0, n)
    && (initrd.Some? ==> Holds(r.m, r.initrdBase, initrd.value))
    && Holds(r.m, r.argsBase, ArgBlock(r.argsBase, all))
    && Holds(r.m, r.trampolineBase, TrampolineImage(r.argc, r.argsBase, r.entry))
  }

  lemma {:induction false} SegmentsStay(m: Mem, top: nat, f: ElfFile, n: nat, initrd: Option<seq<byte>>, all: seq<Text>, r: Loaded, p: Parts)
    requires Proper(f, n) && LoadSegments(m, top, f, n, 0, 0) == Ok((p.m1, r.imageEnd))
    requires LaidOut(r, p, initrd, top) && top < ADDRESSES
    ensures SegmentsHeld(r.m, f, 0, n)
  {
    SegmentsLoad(m, top, f, n, 0, 0);
    forall j | 0 <= j < n && f.phdrs[j].ptype == PT_LOAD ensures SegmentHeld(r.m, f, f.phdrs[j]) {
      assert SegmentHeld(p.m1, f, f.phdrs[j]);
      PartsKeep(r, p, initrd, top, f.phdrs[j].paddr, SegmentImage(f.bytes, f.phdrs[j]));
    }
  }

  ghost predicate SegmentsBelow(f: ElfFile, n: nat, end: nat) {
    forall j | 0 <= j < n && j < |f.phdrs| && f.phdrs[j].ptype == PT_LOAD :: f.phdrs[j].paddr + f.phdrs[j].memsz <= end
  }

  lemma {:induction false} StepsReady(m: Mem, top: nat, f: ElfFile, n: nat, initrd: Option<seq<byte>>, all: seq<Text>, r: Loaded, p: Parts)
    requires Proper(f, n) && Steps(m, top, f, n, initrd, all, r, p.m1, p.m2)
    requires p == PartsOf(p.m1, p.m2, all, r)
    requires Roomy(top, |p.block|) && Roomy(top, 48) && (initrd.Some? ==> Roomy(top, |initrd.value|))
    ensures LaidOut(r, p, initrd, top) && Ready(r, f, n, initrd, all) && r.argc == |Words(Line(all))| && SegmentsBelow(f, n, r.imageEnd)
  {
    SegmentsLoad(m, top, f, n, 0, 0);
    PartsLaidOut(m, top, f, n, initrd, all, r, p);
    SegmentsStay(m, top, f, n, initrd, all, r, p);
    if initrd.Some? {
      InitrdKept(r, p, initrd.value, top);
    }
    PlacedKeeps(p.m3, r.m, r.argsEnd, r.trampolineBase, p.image, r.trampolineBase + 48, top, r.argsBase, p.block);
  }

  /** After a successful load of a proper image every segment holds its bytes of the file and
      zeros behind them, and ramdisk, argument block and trampoline are whole as well; they lie
      behind the segments in this order, each at the least multiple of 4096, and end below
      `top`. */
  lemma {:induction false} KernelLoads(m: Mem, top: nat, f: ElfFile, filename: Text, args: Option<Text>, initrd: Option<seq<byte>>,
                                       n: nat, all: seq<Text>, block: seq<byte>, r: Loaded)
    returns (p: Parts)
    requires Opens(f, n) && Proper(f, n)
    requires LoadKernel(m, top, f, filename, args, initrd) == Ok(r)
    requires all == AllArgs(filename, args, InitrdText(r.imageEnd, initrd)) && block == ArgBlock(r.argsBase, all)
    requires Roomy(top, |block|) && Roomy(top, 48) && (initrd.Some? ==> Roomy(top, |initrd.value|))
    ensures LaidOut(r, p, initrd, top) && Ready(r, f, n, initrd, all)
    ensures SegmentsBelow(f, n, r.imageEnd)
    ensures p.block == block && r.argc == |Words(Line(all))| && r.entry == f.ehdr.value.entry
  {
    var m1, m2 := LoadInSteps(m, top, f, filename, args, initrd, r, n, all);
    p := PartsOf(m1, m2, all, r);
    StepsReady(m, top, f, n, initrd, all, r, p);
  }

  /** What the kernel finds: executing the trampoline from memory enters the image with the
      number of arguments and the address of their pointers, and the `i`-th of them points to
      the `i`-th word of the command line. */
  lemma {:induction false} KernelStarts(r: Loaded, f: ElfFile, n: nat, initrd: Option<seq<byte>>, all: seq<Text>, regs: Regs, i: nat, pointer: nat)
    requires Ready(r, f, n, initrd, all) && r.argsBase < ADDRESSES
    requires i < |Words(Line(all))| && pointer == Pointer(r.argsBase, |Words(Line(all))|, Words(Line(all)), i)
    ensures Fetch(r.m, r.trampolineBase, 12).Some?
    ensures Interpret(DecodeAll(Fetch(r.m, r.trampolineBase, 12).value), regs)
         == Some((Value(ToWord(r.entry)), Entered(regs, ToWord(r.argc), ToWord(r.argsBase), 0, 0, ToWord(r.entry))))
    ensures WordAt(r.m, Wrap(r.argsBase, 4 * i), pointer) && Holds(r.m, pointer, Words(Line(all))[i] + [0])
  {
    TrampolineRunsFromMemory(r.m, r.trampolineBase, ToWord(r.argc), ToWord(r.argsBase), ToWord(r.entry), regs);
    ArgumentInMemory(r.m, r.argsBase, all, i, Words(Line(all)), pointer);
  }

  // ----- what the kernel is told of the ramdisk

  predicate NoSpaces(s: Text) {
    forall i | 0 <= i < |s| :: s[i] != SPACE
  }

  lemma {:induction false} HexNoSpaces(w: nat, digits: nat)
    ensures NoSpaces(Hex(w, digits))
    decreases digits
  {
    if digits > 0 {
      HexNoSpaces(w / 16, digits - 1);
    }
  }

  /** rd_start=0x... */
  function StartWord(base: nat): Text {
    RD_START + Hex(base, 8)
  }

  /** rd_size=0x... */
  function SizeWord(size: nat): Text {
    RD_SIZE[1..] + Hex(size, 8)
  }

  /** The two words are rd_start=0x and rd_size=0x, each with eight digits behind it that stand for
      the number. */
  lemma {:induction false} RamdiskWordsMean(base: nat, size: nat)
    requires base < ADDRESSES && size < ADDRESSES
    ensures var s := StartWord(base);
            && |s| == 19 && s[..11] == [0x72, 0x64, 0x5f, 0x73, 0x74, 0x61, 0x72, 0x74, 0x3d, 0x30, 0x78] && HexValue(s[11..]) == base
    ensures var s := SizeWord(size);
            && |s| == 18 && s[..10] == [0x72, 0x64, 0x5f, 0x73, 0x69, 0x7a, 0x65, 0x3d, 0x30, 0x78] && HexValue(s[10..]) == size
  {
    EightDigits();
    HexReadsBack(base, 8);
    HexReadsBack(size, 8);
    assert StartWord(base)[11..] == Hex(base, 8);
    assert SizeWord(size)[10..] == Hex(size, 8);
  }

  lemma {:induction false} InitrdWords(base: nat, size: nat)
    ensures Words(InitrdArgs(base, size)) == [StartWord(base), SizeWord(size)]
  {
    HexNoSpaces(base, 8);
    HexNoSpaces(size, 8);
    assert RD_SIZE == [SPACE] + RD_SIZE[1..];
    assert InitrdArgs(base, size) == StartWord(base) + [SPACE] + SizeWord(size);
    assert NoSpaces(RD_START) && NoSpaces(RD_SIZE[1..]);
    WordsAround(StartWord(base), SizeWord(size), InitrdArgs(base, size));
    OneWord(StartWord(base));
    OneWord(SizeWord(size));
  }

  /** The words of the command line are those there would be without a ramdisk, and behind them,
      if a command line is given, the two that tell of it. */
  lemma {:induction false} RamdiskWords(filename: Text, args: Option<Text>, base: nat, size: nat, all: seq<Text>, without: seq<Text>)
    requires all == AllArgs(filename, args, Some(InitrdArgs(base, size))) && without == AllArgs(filename, args, None)
    ensures Words(Line(all)) == Words(Line(without)) + (if args.Some? then [StartWord(base), SizeWord(size)] else [])
  {
    if args.Some? {
      assert all == without + [InitrdArgs(base, size)];
      LineBehind(without, InitrdArgs(base, size));
      WordsAround(Line(without), InitrdArgs(base, size), Line(all));
      InitrdWords(base, size);
    } else {
      assert all == without;
      assert Words(Line(without)) == Words(Line(without)) + [];
    }
  }

  /** The `i`-th pointer points to the text. */
  ghost predicate PointsTo(r: Loaded, i: nat, text: Text) {
    exists pointer: nat :: WordAt(r.m, Wrap(r.argsBase, 4 * i), pointer) && Holds(r.m, pointer, text + [0])
  }

  lemma {:induction false} RamdiskArguments(r: Loaded, f: ElfFile, n: nat, filename: Text, args: Option<Text>, data: seq<byte>, all: seq<Text>,
                                            argc: nat, regs: Regs)
    requires all == AllArgs(filename, args, InitrdText(r.imageEnd, Some(data))) && Ready(r, f, n, Some(data), all) && r.argsBase < ADDRESSES
    requires r.argc == |Words(Line(all))| && argc == |Words(Line(AllArgs(filename, args, None)))|
    ensures args.Some? <==> r.argc == argc + 2
    ensures args.None? <==> r.argc == argc
    ensures args.Some? ==> PointsTo(r, argc, StartWord(Align(r.imageEnd))) && PointsTo(r, argc + 1, SizeWord(|data|))
  {
    var base, words := Align(r.imageEnd), Words(Line(all));
    RamdiskWords(filename, args, base, |data|, all, AllArgs(filename, args, None));
    if args.Some? {
      assert words[argc] == StartWord(base) && words[argc + 1] == SizeWord(|data|);
      KernelStarts(r, f, n, Some(data), all, regs, argc, Pointer(r.argsBase, |words|, words, argc));
      KernelStarts(r, f, n, Some(data), all, regs, argc + 1, Pointer(r.argsBase, |words|, words, argc + 1));
    }
  }

  /** After a successful load with a ramdisk: the arguments that the kernel finds behind those it
      would find without one are two, the ramdisk's place and its size, if and only if load_elf
      was given a command line; otherwise there are none. */
  lemma {:induction false} RamdiskIsPassedIff(m: Mem, top: nat, f: ElfFile, filename: Text, args: Option<Text>, data: seq<byte>, n: nat,
                                              all: seq<Text>, block: seq<byte>, r: Loaded, argc: nat, regs: Regs)
    requires Opens(f, n) && Proper(f, n) && LoadKernel(m, top, f, filename, args, Some(data)) == Ok(r)
    requires all == AllArgs(filename, args, InitrdText(r.imageEnd, Some(data))) && block == ArgBlock(r.argsBase, all)
    requires Roomy(top, |block|) && Roomy(top, 48) && Roomy(top, |data|)
    requires argc == |Words(Line(AllArgs(filename, args, None)))|
    ensures args.Some? <==> r.argc == argc + 2
    ensures args.None? <==> r.argc == argc
    ensures args.Some? ==> PointsTo(r, argc, StartWord(Align(r.imageEnd))) && PointsTo(r, argc + 1, SizeWord(|data|))
  {
    var p := KernelLoads(m, top, f, filename, args, Some(data), n, all, block, r);
    RamdiskArguments(r, f, n, filename, args, data, all, argc, regs);
  }

  // ----- the loader itself

  const SDRAM_BASE: nat := 0x8000_0000
  const STAGE2_CODESIZE: nat := 0x40_0000

  /** Where the second stage itself has been loaded. */
  function StageTwoBase(sdram: nat): nat {
    (SDRAM_BASE + sdram + ADDRESSES - STAGE2_CODESIZE) % ADDRESSES
  }

  lemma {:induction false} ArgsNoZeros(filename: Text, args: Option<Text>, initrd: Option<Text>)
    requires NoZeros(filename) && (args.Some? ==> NoZeros(args.value)) && (initrd.Some? ==> NoZeros(initrd.value))
    ensures forall i | 0 <= i < |AllArgs(filename, args, initrd)| :: NoZeros(AllArgs(filename, args, initrd)[i])
  {
  }

  class Loader {
    var mem: Mem  // the target's memory
    const sdram: nat

    constructor (mem: Mem, sdram: nat)
      ensures this.mem == mem && this.sdram == sdram
    {
      this.mem, this.sdram := mem, sdram;
    }

    /** load_segment: the bytes and then, in a load of their own, the zeros. */
    method LoadSegment(data: seq<byte>, base: nat, memsz: nat) returns (ok: bool)
      requires base < ADDRESSES
      modifies `mem
      ensures StoreSegment(old(mem), StageTwoBase(sdram), data, base, memsz) == if ok then Some(mem) else None
      ensures !ok ==> mem == old(mem)
    {
      var end, tail := Wrap(base, memsz), TailSize(|data|, memsz);
      if end > StageTwoBase(sdram) {
        return false;
      }
      StoreOn(mem, base, Wrap(base, |data|), data, Zeroes(tail));
      if |data| > 0 {
        mem := Store(mem, base, data);
      }
      if tail > 0 {
        mem := Store(mem, Wrap(base, |data|), Zeroes(tail));
      }
      ok := true;
    }

    /** load_elf_image. */
    method LoadElfImage(f: ElfFile) returns (error: Option<Error>, entry: nat, end: nat)
      requires f.ehdr.Some? ==> Valid32(f.ehdr.value)
      requires forall i | 0 <= i < |f.phdrs| :: ValidPhdr(f.phdrs[i])
      modifies `mem
      ensures error == ImageError(f, LoadSegments(old(mem), StageTwoBase(sdram), f, PhNum(f), 0, 0))
      ensures error == None ==> f.ehdr.Some? && entry == f.ehdr.value.entry
      ensures error == None ==> LoadSegments(old(mem), StageTwoBase(sdram), f, f.ehdr.value.phnum, 0, 0) == Ok((mem, end))
    {
      entry, end := 0, 0;
      if f.ehdr == None {
        return Some(Truncated), entry, end;
      }
      entry := f.ehdr.value.entry;
      if !Acceptable(f.ehdr.value) {
        return Some(BadIdentification), entry, end;
      }
      ghost var result := LoadSegments(mem, StageTwoBase(sdram), f, f.ehdr.value.phnum, 0, 0);
      var i: nat := 0;
      while i < f.ehdr.value.phnum
        invariant i <= f.ehdr.value.phnum
        invariant LoadSegments(mem, StageTwoBase(sdram), f, f.ehdr.value.phnum, i, end) == result
      {
        if i >= |f.phdrs| {
          return Some(Truncated), entry, end;
        }
        var phdr := f.phdrs[i];
        if phdr.ptype == PT_LOAD {
          var data := SegmentData(f.bytes, phdr);
          if data == None {
            return Some(Truncated), entry, end;
          }
          var ok := LoadSegment(data.value, phdr.paddr, phdr.memsz);
          if !ok {
            return Some(DoesNotFit), entry, end;
          }
          end := Max(Wrap(phdr.paddr, phdr.memsz), end);
        }
        i := i + 1;
      }
      error := None;
    }

    /** load_args. */
    method LoadArgs(base: nat, args: seq<Text>) returns (ok: bool, argc: nat, end: nat)
      requires base < ADDRESSES && args != [] && forall i | 0 <= i < |args| :: NoZeros(args[i])
      modifies `mem
      ensures argc == |Words(Line(args))| && end == Wrap(base, |ArgBlock(base, args)|)
      ensures StoreArgs(old(mem), StageTwoBase(sdram), base, args) == if ok then Some(mem) else None
    {
      var block;
      block, argc := BuildArgs(base, args);
      end := Wrap(base, |block|);
      ok := LoadSegment(block, base, |block|);
    }

    /** The part of load_elf that patches the trampoline and loads it. */
    method LoadTrampoline(base: nat, argc: nat, argsBase: nat, entry: nat) returns (ok: bool)
      requires base < ADDRESSES
      modifies `mem
      ensures StoreTrampoline(old(mem), StageTwoBase(sdram), base, argc, argsBase, entry) == if ok then Some(mem) else None
    {
      var trampoline := BuildTrampoline(ToWord(argc), ToWord(argsBase), ToWord(entry));
      ok := LoadSegment(Image(trampoline[..]), base, 48);
    }

    /** What load_elf loads behind the image and the ramdisk. */
    method LoadRest(imageEnd: nat, initrdBase: nat, initrdEnd: nat, args: seq<Text>, entry: nat) returns (r: Result<Loaded>)
      requires args != [] && forall i | 0 <= i < |args| :: NoZeros(args[i])
      modifies `mem
      ensures r == LoadTail(old(mem), StageTwoBase(sdram), imageEnd, initrdBase, initrdEnd, args, entry)
      ensures r.Ok? ==> r.value.m == mem
    {
      var argsBase := Align(initrdEnd);
      var ok, argc, argsEnd := LoadArgs(argsBase, args);
      if !ok {
        return Err(DoesNotFit);
      }
      var base := Align(argsEnd);
      ok := LoadTrampoline(base, argc, argsBase, entry);
      if !ok {
        return Err(DoesNotFit);
      }
      r := Ok(Loaded(mem, imageEnd, initrdBase, initrdEnd, argsBase, argsEnd, base, entry, argc));
    }

    /** The part of load_elf that loads the ramdisk. */
    method LoadRamdisk(imageEnd: nat, initrd: Option<seq<byte>>) returns (ok: bool, end: nat)
      modifies `mem
      ensures LoadInitrd(old(mem), StageTwoBase(sdram), imageEnd, initrd) == if ok then Some((mem, end)) else None
    {
      end := imageEnd;
      if initrd.Some? {
        var initrdBase := Align(imageEnd);
        end := Wrap(initrdBase, |initrd.value|);
        if end > StageTwoBase(sdram) {
          return false, end;
        }
        mem := Store(mem, initrdBase, initrd.value);
      }
      ok := true;
    }

    /** load_elf, up to the jump. */
    method LoadElf(f: ElfFile, filename: Text, args: Option<Text>, initrd: Option<seq<byte>>) returns (r: Result<Loaded>)
      requires f.ehdr.Some? ==> Valid32(f.ehdr.value)
      requires forall i | 0 <= i < |f.phdrs| :: ValidPhdr(f.phdrs[i])
      requires NoZeros(filename) && (args.Some? ==> NoZeros(args.value))
      modifies `mem
      ensures r == LoadKernel(old(mem), StageTwoBase(sdram), f, filename, args, initrd)
      ensures r.Ok? ==> r.value.m == mem
    {
      var error, entry, end := LoadElfImage(f);
      if error.Some? {
        return Err(error.value);
      }
      r := LoadBehindImage(end, filename, args, initrd, entry);
    }

    method LoadBehindImage(imageEnd: nat, filename: Text, args: Option<Text>, initrd: Option<seq<byte>>, entry: nat) returns (r: Result<Loaded>)
      requires NoZeros(filename) && (args.Some? ==> NoZeros(args.value))
      modifies `mem
      ensures r == LoadBehind(old(mem), StageTwoBase(sdram), imageEnd, filename, args, initrd, entry)
      ensures r.Ok? ==> r.value.m == mem
    {
      var ok, end := LoadRamdisk(imageEnd, initrd);
      if !ok {
        return Err(DoesNotFit);
      }
      ghost var initrdText := InitrdText(imageEnd, initrd);
      ArgsNoZeros(filename, args, initrdText);
      r := LoadRest(imageEnd, Align(imageEnd), end, AllArgs(filename, args, InitrdText(imageEnd, initrd)), entry);
    }
  }

  function PhNum(f: ElfFile): nat {
    if f.ehdr.Some? then f.ehdr.value.phnum else 0
  }

  /** Why an image is refused, given how its segments fare. */
  function ImageError(f: ElfFile, r: Result<(Mem, nat)>): Option<Error>
    requires f.ehdr.Some? ==> Valid32(f.ehdr.value)
  {
    if f.ehdr == None then Some(Truncated)
    else if !Acceptable(f.ehdr.value) then Some(BadIdentification)
    else if r.Err? then Some(r.error) else None
  }
}
