/** Elf32 (src/loader/loader.cpp): loading the PT_LOAD segments of an ELF image into the address space of
    a directory (program header of the TIS ELF specification 1.2). */
module Loader {
  import opened Memory
  import opened Bitmaps
  import opened Frames
  import opened Paging
  import opened Spaces

  // -------- the image --------

  function Half(m: Mem, a: int): nat {
    Byte(m, a) as int + 0x100 * Byte(m, a + 1) as int
  }

  function EntryPoint(m: Mem, elf: int): (e: nat)                     // e_entry
    ensures e < TWO32
  {
    Word(m, elf + 24)
  }

  function PhOff(m: Mem, elf: int): nat { Word(m, elf + 28) }         // e_phoff

  function PhEntSize(m: Mem, elf: int): nat { Half(m, elf + 42) }     // e_phentsize

  function PhNum(m: Mem, elf: int): nat { Half(m, elf + 44) }         // e_phnum

  /** The i-th program header. */
  function Phdr(m: Mem, elf: int, i: nat): int {
    elf + PhOff(m, elf) + i * PhEntSize(m, elf)
  }

  function Offset(m: Mem, ph: int): nat { Word(m, ph + 4) }           // p_offset

  function VAddr(m: Mem, ph: int): nat { Word(m, ph + 8) }            // p_vaddr

  function FileSize(m: Mem, ph: int): nat { Word(m, ph + 16) }        // p_filesz

  /** A PT_LOAD segment with something to copy. */
  predicate Loads(m: Mem, ph: int) {
    Word(m, ph) == 1 && FileSize(m, ph) != 0
  }

  /** The bytes 0x7f 'E' 'L' 'F' */
  predicate Magic(m: Mem, elf: int) {
    Byte(m, elf) == 0x7f && Byte(m, elf + 1) == 0x45 && Byte(m, elf + 2) == 0x4c && Byte(m, elf + 3) == 0x46
  }

  lemma MagicBytes(m: Mem, elf: int, magic: seq<byte>)
    requires magic == [0x7f, 0x45, 0x4c, 0x46]
    ensures Magic(m, elf) <==> forall k :: 0 <= k < 4 ==> Byte(m, elf + k) == magic[k]
  {
    if forall k :: 0 <= k < 4 ==> Byte(m, elf + k) == magic[k] {
      assert Byte(m, elf + 0) == magic[0] && Byte(m, elf + 1) == magic[1];
      assert Byte(m, elf + 2) == magic[2] && Byte(m, elf + 3) == magic[3];
    }
  }

  // -------- copying to user addresses --------

  /** memcpy to a user address: every store goes through the directory in CR3.  The destination lies in one
      mapped page. */
  method CopyToUser(ram: array<byte>, pmm: PMM, cr3: nat, ghost dirs: set<int>, dst: nat, src: int, size: nat,
                    ghost b: int)
    requires PagingOk(ram[..], pmm, dirs) && P2V(cr3) in dirs && DataPage(ram[..], pmm, dirs, b)
    requires dst < TWO32 && dst % PAGE + size <= PAGE && InRam(ram.Length, src, size)
    requires Walk(ram[..], P2V(cr3), dst).Mapped? && Walk(ram[..], P2V(cr3), dst).frame == b - KERNEL
    requires src + size <= b || b + PAGE <= src
    modifies ram
    ensures SameOutside(old(ram[..]), ram[..], b, b + PAGE)
    ensures BytesAt(old(ram[..]), ram[..], b + dst % PAGE, src, size)
  {
    hide PagingOk, DataPage, SameWalk, WalkAt;
    ghost var m := ram[..];
    ghost var lo := b + dst % PAGE;
    for i := 0 to size
      invariant SameOutside(m, ram[..], lo, lo + i)
      invariant forall a :: lo <= a < lo + i ==> Byte(ram[..], a) == Byte(m, src + (a - lo))
    {
      TargetIs(m, ram[..], pmm, P2V(cr3), dirs, dst, i, b);
      var target := Translate(ram[..], P2V(cr3), dst + i);
      var x := Load8(ram, src + i);
      Store8(ram, target, x);
    }
  }

  /** Stores into the data page so far have not moved the destination. */
  lemma TargetIs(m: Mem, m': Mem, pmm: PMM, d: int, dirs: set<int>, dst: nat, i: nat, b: int)
    requires PagingOk(m, pmm, dirs) && d in dirs && DataPage(m, pmm, dirs, b)
    requires dst < TWO32 && dst % PAGE + i < PAGE
    requires Walk(m, d, dst).Mapped? && Walk(m, d, dst).frame == b - KERNEL
    requires SameOutside(m, m', b + dst % PAGE, b + dst % PAGE + i)
    ensures Walk(m', d, dst + i).Mapped? && Translate(m', d, dst + i) == b + dst % PAGE + i
    ensures InRam(|m'|, b, PAGE)
  {
    hide WalkAt, PagingOk, DataPage, StructuresKept, Byte, Held;
    DataIsRam(m, pmm, dirs, b);
    DataWritten(m, m', pmm, dirs, b);
    TranslationsKept(m, m', pmm, dirs);
    assert (dst + i) / PAGE == dst / PAGE && (dst + i) % PAGE == dst % PAGE + i;
    SamePage(dst, dst + i);
    assert SameWalk(m, d, m', d);
  }

  lemma DataIsRam(m: Mem, pmm: PMM, dirs: set<int>, b: int)
    requires DataPage(m, pmm, dirs, b)
    ensures InRam(|m|, b, PAGE)
  {
  }

  // -------- one segment --------

  /** The segment's page went to the fresh data page b, holding the bytes at src; nothing else that was
      there before changed, and no other directory noticed. */
  ghost predicate SegmentLoaded(m: Mem, m': Mem, pmm: PMM, dirs: set<int>, d: int, v: nat, src: int, size: nat,
                                b: int) {
    && Extended(m, m', pmm, dirs, d)
    && FrameOf(b) in pmm.Free(m) && DataPage(m', pmm, dirs, b)
    && WalkUpdated(m, d, m', d, PdIdx(v), PtIdx(v), Mapped(b - KERNEL, 7))
    && |pmm.Free(m')| >= |pmm.Free(m)| - 2
    && BytesAt(m, m', b + v % PAGE, src, size)
  }

  /** In m', the `size` bytes from lo on are those m has from src on. */
  ghost predicate BytesAt(m: Mem, m': Mem, lo: int, src: int, size: nat) {
    forall a :: lo <= a < lo + size ==> Byte(m', a) == Byte(m, src + (a - lo))
  }

  /** Every byte of the range lies in a data page. */
  ghost predicate InData(m: Mem, pmm: PMM, dirs: set<int>, lo: int, size: nat) {
    InRam(|m|, lo, size) && forall a :: lo <= a < lo + size ==> DataPage(m, pmm, dirs, FrameBase(FrameOf(a)))
  }

  method LoadSegment(ram: array<byte>, pmm: PMM, d: nat, cr3: nat, ghost dirs: set<int>, v: nat, src: int, size: nat)
    returns (ghost b: int)
    requires PagingOk(ram[..], pmm, dirs) && d in dirs && |pmm.Free(ram[..])| >= 2
    requires P2V(cr3) == d && v < TWO32 && 0 < size && v % PAGE + size <= PAGE && InData(ram[..], pmm, dirs, src, size)
    requires Private(ram[..], dirs, d, PdIdx(v))
    modifies ram
    ensures SegmentLoaded(old(ram[..]), ram[..], pmm, dirs, d, v, src, size, b)
  {
    hide PagingOk, DataPage, InData, Private, SegmentLoaded, Word, WalkUpdated, SameWalk, Extended, Walk;
    ghost var m := ram[..];
    var physAddr;
    physAddr, b := TakeFrame(ram, pmm, dirs, d);
    ghost var m1 := ram[..];
    PrivateNow(m, m1, pmm, dirs, d, PdIdx(v));
    MapPrivate(ram, pmm, d, dirs, physAddr, v);
    ghost var m2 := ram[..];
    ExtendedTrans(m, m1, m2, pmm, dirs, d);
    MappedTo(m1, m2, pmm, dirs, d, v, b);
    SourceKept(m, m2, pmm, dirs, d, src, size, b);
    CopyToUser(ram, pmm, cr3, dirs, v, src, size, b);
    SegmentSteps(m, m1, m2, ram[..], pmm, dirs, d, v, src, size, b);
  }

  lemma MappedTo(m1: Mem, m2: Mem, pmm: PMM, dirs: set<int>, d: int, v: nat, b: int)
    requires Extended(m1, m2, pmm, dirs, d) && DataPage(m1, pmm, dirs, b)
    requires WalkUpdated(m1, d, m2, d, PdIdx(v), PtIdx(v), Mapped(b - KERNEL, 7))
    ensures PagingOk(m2, pmm, dirs) && DataPage(m2, pmm, dirs, b) && Walk(m2, d, v) == Mapped(b - KERNEL, 7)
  {
  }

  /** The source bytes are still there, and not in the new page. */
  lemma SourceKept(m: Mem, m2: Mem, pmm: PMM, dirs: set<int>, d: int, src: int, size: nat, b: int)
    requires InData(m, pmm, dirs, src, size) && Extended(m, m2, pmm, dirs, d)
    requires !DataPage(m, pmm, dirs, b) && b == FrameBase(FrameOf(b)) && 0 < size <= PAGE
    ensures InRam(|m2|, src, size) && |m2| == |m| && Same(m, m2, src, src + size)
    ensures src + size <= b || b + PAGE <= src
  {
    hide DataPage, PagingOk, OthersKept, PrivacyKept;
    forall a | src <= a < src + size ensures Byte(m2, a) == Byte(m, a) && !(b <= a < b + PAGE) {
      var c := FrameBase(FrameOf(a));
      assert DataPage(m, pmm, dirs, c);
      assert c <= a < c + PAGE;
    }
    assert Byte(m2, src) == Byte(m, src) && Byte(m2, src + size - 1) == Byte(m, src + size - 1);
  }

  lemma SegmentSteps(m: Mem, m1: Mem, m2: Mem, m': Mem, pmm: PMM, dirs: set<int>, d: int, v: nat, src: int, size: nat,
                     b: int)
    requires d in dirs && Extended(m, m2, pmm, dirs, d) && SameWalk(m, d, m1, d)
    requires FrameOf(b) in pmm.Free(m) && !DataPage(m, pmm, dirs, b) && DataPage(m2, pmm, dirs, b)
    requires WalkUpdated(m1, d, m2, d, PdIdx(v), PtIdx(v), Mapped(b - KERNEL, 7))
    requires SameOutside(m2, m', b, b + PAGE) && Same(m, m2, src, src + size)
    requires BytesAt(m2, m', b + v % PAGE, src, size)
    requires |pmm.Free(m2)| >= |pmm.Free(m)| - 2
    ensures SegmentLoaded(m, m', pmm, dirs, d, v, src, size, b)
  {
    hide PagingOk, DataPage, Extended, WalkAt;
    FillExtends(m, m2, m', pmm, dirs, d, b);
    FreeKept(pmm, m2, m');
  }

  // -------- the whole image --------

  /** The i-th program header and the bytes it asks for lie in the image, within one page of the address space. */
  ghost predicate SegmentFits(m: Mem, elf: int, len: nat, i: nat) {
    var ph := Phdr(m, elf, i);
    && elf <= ph && ph + 32 <= elf + len
    && (Loads(m, ph) ==> Offset(m, ph) + FileSize(m, ph) <= len && VAddr(m, ph) % PAGE + FileSize(m, ph) <= PAGE)
  }

  /** An image whose segments to load each fit one page, in pairwise different pages. */
  ghost predicate ImageOk(m: Mem, elf: int, len: nat) {
    && 52 <= len
    && (forall i :: 0 <= i < PhNum(m, elf) ==> SegmentFits(m, elf, len, i))
    && forall i, j :: 0 <= i < j < PhNum(m, elf) && Loads(m, Phdr(m, elf, i)) && Loads(m, Phdr(m, elf, j)) ==>
         VAddr(m, Phdr(m, elf, i)) / PAGE != VAddr(m, Phdr(m, elf, j)) / PAGE
  }

  /** Segment k is in place in the page b. */
  ghost predicate SegmentThere(m0: Mem, m: Mem, pmm: PMM, dirs: set<int>, d: int, elf: int, k: nat, b: int) {
    var ph := Phdr(m0, elf, k);
    && FrameOf(b) in pmm.Free(m0) && DataPage(m, pmm, dirs, b)
    && Walk(m, d, VAddr(m0, ph)) == Mapped(b - KERNEL, 7)
    && BytesAt(m0, m, b + VAddr(m0, ph) % PAGE, elf + Offset(m0, ph), FileSize(m0, ph))
  }

  /** Entry (i, j) belongs to the page of one of the first n segments. */
  ghost predicate SegmentPage(m: Mem, elf: int, n: nat, i: int, j: int) {
    exists k: nat :: k < n && Loads(m, Phdr(m, elf, k)) &&
      PdIdx(VAddr(m, Phdr(m, elf, k))) == i && PtIdx(VAddr(m, Phdr(m, elf, k))) == j
  }

  /** The first n segments are loaded: `segs` tells in which fresh page each one is. */
  ghost predicate LoadedUpTo(m0: Mem, m: Mem, pmm: PMM, dirs: set<int>, d: int, elf: int, n: nat, segs: map<nat, int>) {
    && Extended(m0, m, pmm, dirs, d)
    && (forall k: nat :: k in segs <==> k < n && Loads(m0, Phdr(m0, elf, k)))
    && (forall k: nat :: k in segs ==> SegmentThere(m0, m, pmm, dirs, d, elf, k, segs[k]))
    && (forall k: nat, l: nat :: k in segs && l in segs && segs[k] == segs[l] ==> k == l)
    && forall i, j :: 0 <= i < 1024 && 0 <= j < 1024 && !SegmentPage(m0, elf, n, i, j) ==>
         WalkAt(m, d, i, j) == WalkAt(m0, d, i, j)
  }

  lemma SegmentStays(m0: Mem, m: Mem, m': Mem, pmm: PMM, dirs: set<int>, d: int, elf: int, k: nat, b: int, v: nat,
                     c: int)
    requires SegmentThere(m0, m, pmm, dirs, d, elf, k, c) && Extended(m, m', pmm, dirs, d)
    requires WalkUpdated(m, d, m', d, PdIdx(v), PtIdx(v), Mapped(b - KERNEL, 7)) && FrameOf(b) in pmm.Free(m)
    requires VAddr(m0, Phdr(m0, elf, k)) / PAGE != v / PAGE && v < TWO32
    requires VAddr(m0, Phdr(m0, elf, k)) % PAGE + FileSize(m0, Phdr(m0, elf, k)) <= PAGE
    ensures SegmentThere(m0, m', pmm, dirs, d, elf, k, c) && c != b
  {
    assert DataPage(m, pmm, dirs, c) && FrameOf(c) in pmm.Used(m);
    hide DataPage, PagingOk, WalkAt, Phdr, Word, OthersKept, PrivacyKept;
    SamePage(VAddr(m0, Phdr(m0, elf, k)), v);
  }

  lemma LoadedStep(m0: Mem, m: Mem, m': Mem, pmm: PMM, dirs: set<int>, d: int, elf: int, len: nat, n: nat,
                   segs: map<nat, int>, b: int)
    requires LoadedUpTo(m0, m, pmm, dirs, d, elf, n, segs) && ImageOk(m0, elf, len) && n < PhNum(m0, elf)
    requires Same(m0, m, elf, elf + len)
    requires var ph := Phdr(m0, elf, n);
             && Loads(m0, ph)
             && SegmentLoaded(m, m', pmm, dirs, d, VAddr(m0, ph), elf + Offset(m0, ph), FileSize(m0, ph), b)
    ensures LoadedUpTo(m0, m', pmm, dirs, d, elf, n + 1, segs[n := b])
  {
    hide Extended, SegmentThere, WalkAt, Phdr, Word, DataPage, Byte;
    ExtendedTrans(m0, m, m', pmm, dirs, d);
    NewSegment(m0, m, m', pmm, dirs, d, elf, len, n, b);
    forall k: nat | k in segs ensures SegmentThere(m0, m', pmm, dirs, d, elf, k, segs[k]) && segs[k] != b {
      assert SegmentFits(m0, elf, len, k);
      SegmentStays(m0, m, m', pmm, dirs, d, elf, k, b, VAddr(m0, Phdr(m0, elf, n)), segs[k]);
    }
    forall i, j | 0 <= i < 1024 && 0 <= j < 1024 && !SegmentPage(m0, elf, n + 1, i, j)
      ensures WalkAt(m', d, i, j) == WalkAt(m0, d, i, j)
    {
      OtherPage(m0, elf, n, i, j);
    }
  }

  lemma OtherPage(m0: Mem, elf: int, n: nat, i: int, j: int)
    requires !SegmentPage(m0, elf, n + 1, i, j)
    ensures !SegmentPage(m0, elf, n, i, j)
    ensures Loads(m0, Phdr(m0, elf, n)) ==>
              !(PdIdx(VAddr(m0, Phdr(m0, elf, n))) == i && PtIdx(VAddr(m0, Phdr(m0, elf, n))) == j)
  {
  }

  lemma NewSegment(m0: Mem, m: Mem, m': Mem, pmm: PMM, dirs: set<int>, d: int, elf: int, len: nat, n: nat, b: int)
    requires Extended(m0, m, pmm, dirs, d) && Same(m0, m, elf, elf + len) && SegmentFits(m0, elf, len, n)
    requires var ph := Phdr(m0, elf, n);
             && Loads(m0, ph)
             && SegmentLoaded(m, m', pmm, dirs, d, VAddr(m0, ph), elf + Offset(m0, ph), FileSize(m0, ph), b)
    ensures SegmentThere(m0, m', pmm, dirs, d, elf, n, b)
  {
    assert pmm.Used(m0) <= pmm.Used(m) by { hide PagingOk, DataPage; }
    hide Extended, WalkAt, Phdr, Word, DataPage, Byte;
    var ph := Phdr(m0, elf, n);
    var lo, src := b + VAddr(m0, ph) % PAGE, elf + Offset(m0, ph);
    forall a | lo <= a < lo + FileSize(m0, ph) ensures Byte(m', a) == Byte(m0, src + (a - lo)) {
      assert Byte(m', a) == Byte(m, src + (a - lo));
      assert elf <= src + (a - lo) < elf + len;
    }
  }

  /** Before any segment, nothing is loaded. */
  lemma LoadedNone(m: Mem, pmm: PMM, dirs: set<int>, d: int, elf: int)
    requires PagingOk(m, pmm, dirs)
    ensures LoadedUpTo(m, m, pmm, dirs, d, elf, 0, map[])
  {
  }

  /** A header that asks for nothing. */
  lemma LoadedSkip(m0: Mem, m: Mem, pmm: PMM, dirs: set<int>, d: int, elf: int, n: nat, segs: map<nat, int>)
    requires LoadedUpTo(m0, m, pmm, dirs, d, elf, n, segs) && !Loads(m0, Phdr(m0, elf, n))
    ensures LoadedUpTo(m0, m, pmm, dirs, d, elf, n + 1, segs)
  {
    hide Extended, SegmentThere, WalkAt, Phdr, Word;
    forall i, j | 0 <= i < 1024 && 0 <= j < 1024 && !SegmentPage(m0, elf, n + 1, i, j)
      ensures WalkAt(m, d, i, j) == WalkAt(m0, d, i, j)
    {
      OtherPage(m0, elf, n, i, j);
    }
  }

  /** Program header n reads now as it did at the start, and its segment can be loaded. */
  lemma HeaderReads(m0: Mem, m: Mem, pmm: PMM, dirs: set<int>, d: int, elf: int, len: nat, n: nat, segs: map<nat, int>)
    requires LoadedUpTo(m0, m, pmm, dirs, d, elf, n, segs) && ImageOk(m0, elf, len) && n < PhNum(m0, elf)
    requires InData(m0, pmm, dirs, elf, len)
    ensures Same(m0, m, elf, elf + len) && PagingOk(m, pmm, dirs)
    ensures var ph := Phdr(m0, elf, n);
            && InRam(|m|, ph, 32) && Loads(m, ph) == Loads(m0, ph)
            && Offset(m, ph) == Offset(m0, ph) && VAddr(m, ph) == VAddr(m0, ph) && FileSize(m, ph) == FileSize(m0, ph)
            && (Loads(m0, ph) ==> InData(m, pmm, dirs, elf + Offset(m0, ph), FileSize(m0, ph)))
  {
    hide PagingOk, DataPage, OthersKept, PrivacyKept, Phdr, WalkAt, SegmentThere, SegmentPage;
    forall a | elf <= a < elf + len ensures Byte(m, a) == Byte(m0, a) && DataPage(m, pmm, dirs, FrameBase(FrameOf(a))) {
      var c := FrameBase(FrameOf(a));
      assert DataPage(m0, pmm, dirs, c) && c <= a < c + PAGE;
    }
    assert SegmentFits(m0, elf, len, n);
    var ph := Phdr(m0, elf, n);
    WordSame(m0, m, ph);
    WordSame(m0, m, ph + 4);
    WordSame(m0, m, ph + 8);
    WordSame(m0, m, ph + 16);
  }

  class Elf32 {
    const elfHeader: nat
    var entryPoint: nat

    constructor (elf: nat)
      ensures elfHeader == elf && entryPoint == 0
    {
      elfHeader := elf;
      entryPoint := 0;
    }

    /** Compares the first four bytes with 0x7f 'E' 'L' 'F'. */
    method VerifyHeader(ram: array<byte>) returns (ok: bool)
      requires InRam(ram.Length, elfHeader, 4)
      ensures ok <==> Magic(ram[..], elfHeader)
    {
      var magic: seq<byte> := [0x7f, 0x45, 0x4c, 0x46];
      var r := Memcmp(ram, elfHeader, magic);
      MagicBytes(ram[..], elfHeader, magic);
      return r == 0;
    }

    /** Loads every segment into pd, which must be the directory in CR3 because the copies go through that one.  An
        image without the magic bytes is refused. */
    method Load(ram: array<byte>, pmm: PMM, pd: nat, cr3: nat, ghost dirs: set<int>, ghost len: nat)
      returns (ghost segs: map<nat, int>)
      requires PagingOk(ram[..], pmm, dirs) && pd in dirs && P2V(cr3) == pd
      requires ImageOk(ram[..], elfHeader, len) && InData(ram[..], pmm, dirs, elfHeader, len)
      requires |pmm.Free(ram[..])| >= 2 * PhNum(ram[..], elfHeader)
      requires PrivateSegments(ram[..], dirs, pd, elfHeader)
      modifies ram, this
      ensures !Magic(old(ram[..]), elfHeader) ==>
                ram[..] == old(ram[..]) && entryPoint == old(entryPoint) && segs == map[]
      ensures Magic(old(ram[..]), elfHeader) ==>
                && entryPoint == EntryPoint(old(ram[..]), elfHeader)
                && LoadedUpTo(old(ram[..]), ram[..], pmm, dirs, pd, elfHeader, PhNum(old(ram[..]), elfHeader), segs)
                && |pmm.Free(ram[..])| >= |pmm.Free(old(ram[..]))| - 2 * PhNum(old(ram[..]), elfHeader)
    {
      hide PagingOk, ImageOk, LoadedUpTo, PrivateSegments, Word, Half, Magic, InData, PhOff, PhNum, PhEntSize,
           EntryPoint, PMM.Free;
      segs := map[];
      HeaderThere(ram[..], pmm, dirs, elfHeader, len);
      var ok := VerifyHeader(ram);
      if !ok {
        return;
      }
      ghost var m0 := ram[..];
      var phOffset, phCount := PhOff(ram[..], elfHeader), PhNum(ram[..], elfHeader);
      var phSize := PhEntSize(ram[..], elfHeader);
      LoadedNone(m0, pmm, dirs, pd, elfHeader);
      for i := 0 to phCount
        invariant LoadedUpTo(m0, ram[..], pmm, dirs, pd, elfHeader, i, segs)
        invariant |pmm.Free(ram[..])| >= |pmm.Free(m0)| - 2 * i
      {
        segs := LoadOne(ram, pmm, pd, cr3, dirs, len, m0, i, segs, elfHeader + phOffset + i * phSize);
      }
      EntryStays(m0, ram[..], pmm, dirs, pd, elfHeader, len, phCount, segs);
      entryPoint := EntryPoint(ram[..], elfHeader);
    }

    /** The loop body of load, on the program header at ph. */
    method LoadOne(ram: array<byte>, pmm: PMM, pd: nat, cr3: nat, ghost dirs: set<int>, ghost len: nat,
                   ghost m0: Mem, ghost i: nat, ghost segs: map<nat, int>, ph: nat) returns (ghost segs': map<nat, int>)
      requires LoadedUpTo(m0, ram[..], pmm, dirs, pd, elfHeader, i, segs) && i < PhNum(m0, elfHeader) && pd in dirs
      requires P2V(cr3) == pd
      requires ImageOk(m0, elfHeader, len) && InData(m0, pmm, dirs, elfHeader, len)
      requires PrivateSegments(m0, dirs, pd, elfHeader)
      requires ph == Phdr(m0, elfHeader, i) && |pmm.Free(ram[..])| >= 2
      modifies ram
      ensures LoadedUpTo(m0, ram[..], pmm, dirs, pd, elfHeader, i + 1, segs')
      ensures |pmm.Free(ram[..])| >= |pmm.Free(old(ram[..]))| - 2
    {
      hide PagingOk, ImageOk, LoadedUpTo, PrivateSegments, Private, DataPage, Word, SegmentLoaded, Loads, Held, InData,
           Phdr;
      ghost var m := ram[..];
      HeaderReads(m0, m, pmm, dirs, pd, elfHeader, len, i, segs);
      segs' := segs;
      if Loads(ram[..], ph) {
        SegmentFitsNow(m0, m, pmm, dirs, pd, elfHeader, len, i, segs);
        var v, src, size := VAddr(ram[..], ph), elfHeader + Offset(ram[..], ph), FileSize(ram[..], ph);
        ghost var b := LoadSegment(ram, pmm, pd, cr3, dirs, v, src, size);
        LoadedStep(m0, m, ram[..], pmm, dirs, pd, elfHeader, len, i, segs, b);
        SegmentFrames(m, ram[..], pmm, dirs, pd, v, src, size, b);
        segs' := segs[i := b];
      } else {
        LoadedSkip(m0, m, pmm, dirs, pd, elfHeader, i, segs);
      }
    }
  }

  /** No other directory shares a table for the page of a segment to load. */
  ghost predicate PrivateSegments(m: Mem, dirs: set<int>, d: int, elf: int) {
    forall k: nat :: k < PhNum(m, elf) && Loads(m, Phdr(m, elf, k)) ==>
      Private(m, dirs, d, PdIdx(VAddr(m, Phdr(m, elf, k))))
  }

  lemma HeaderThere(m: Mem, pmm: PMM, dirs: set<int>, elf: int, len: nat)
    requires ImageOk(m, elf, len) && InData(m, pmm, dirs, elf, len)
    ensures InRam(|m|, elf, 52)
  {
  }

  /** Loading writes none of the image. */
  lemma EntryStays(m0: Mem, m: Mem, pmm: PMM, dirs: set<int>, d: int, elf: int, len: nat, n: nat, segs: map<nat, int>)
    requires LoadedUpTo(m0, m, pmm, dirs, d, elf, n, segs) && ImageOk(m0, elf, len) && InData(m0, pmm, dirs, elf, len)
    ensures EntryPoint(m, elf) == EntryPoint(m0, elf)
  {
    hide PagingOk, DataPage, OthersKept, PrivacyKept, Phdr, WalkAt, SegmentThere, SegmentPage;
    forall a | elf <= a < elf + len ensures Byte(m, a) == Byte(m0, a) {
      var c := FrameBase(FrameOf(a));
      assert DataPage(m0, pmm, dirs, c) && c <= a < c + PAGE;
    }
    WordSame(m0, m, elf + 24);
  }

  lemma SegmentFrames(m: Mem, m': Mem, pmm: PMM, dirs: set<int>, d: int, v: nat, src: int, size: nat, b: int)
    requires SegmentLoaded(m, m', pmm, dirs, d, v, src, size, b)
    ensures |pmm.Free(m')| >= |pmm.Free(m)| - 2
  {
  }

  lemma SegmentFitsNow(m0: Mem, m: Mem, pmm: PMM, dirs: set<int>, d: int, elf: int, len: nat, n: nat,
                       segs: map<nat, int>)
    requires LoadedUpTo(m0, m, pmm, dirs, d, elf, n, segs) && ImageOk(m0, elf, len) && n < PhNum(m0, elf)
    requires Loads(m0, Phdr(m0, elf, n)) && PrivateSegments(m0, dirs, d, elf)
    ensures var ph := Phdr(m0, elf, n);
            0 < FileSize(m0, ph) <= PAGE - VAddr(m0, ph) % PAGE && Private(m, dirs, d, PdIdx(VAddr(m0, ph)))
  {
    hide PagingOk, DataKept, OthersKept, Phdr, WalkAt, SegmentThere, SegmentPage, Word, Private;
    assert SegmentFits(m0, elf, len, n);
  }

  /** Once segment k is there, reading p_vaddr + t through the directory gives the file's byte p_offset + t. */
  lemma SegmentReads(m0: Mem, m: Mem, pmm: PMM, dirs: set<int>, d: int, elf: int, len: nat, k: nat, b: int, t: nat)
    requires SegmentThere(m0, m, pmm, dirs, d, elf, k, b) && ImageOk(m0, elf, len)
    requires k < PhNum(m0, elf) && Loads(m0, Phdr(m0, elf, k)) && t < FileSize(m0, Phdr(m0, elf, k))
    ensures UserByte(m, d, VAddr(m0, Phdr(m0, elf, k)) + t) == Byte(m0, elf + Offset(m0, Phdr(m0, elf, k)) + t)
  {
    hide WalkAt, Phdr, Word, DataPage, Byte;
    var ph := Phdr(m0, elf, k);
    assert SegmentFits(m0, elf, len, k);
    var v := VAddr(m0, ph);
    assert (v + t) / PAGE == v / PAGE && (v + t) % PAGE == v % PAGE + t;
    SamePage(v, v + t);
    var a := b + v % PAGE + t;
    assert Byte(m, a) == Byte(m0, elf + Offset(m0, ph) + (a - (b + v % PAGE)));
  }
}
