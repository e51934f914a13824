/** A writer of ELF executables (TIS ELF specification 1.2), and what Elf32::load makes of what it writes. */
module Elves {
  import opened Memory
  import opened Bitmaps
  import opened Frames
  import opened Paging
  import opened Spaces
  import opened Loader

  // -------- the writer --------

  /** `rest` are the memory size, flags and alignment, `pad` whatever comes before the next segment's data. */
  datatype Segment = Segment(kind: nat, vaddr: nat, paddr: nat, data: seq<byte>, rest: seq<byte>, pad: seq<byte>)

  /** `ident` is what comes between the magic bytes and the entry point, `middle` the section table's offset and the
      flags, `tail` what the header says about sections. */
  datatype Program = Program(entry: nat, segments: seq<Segment>, ident: seq<byte>, middle: seq<byte>, tail: seq<byte>)

  /** x in two and in four bytes, least significant first. */
  function Two(x: nat): (s: seq<byte>)
    ensures |s| == 2
  {
    [(x % 0x100) as byte, (x / 0x100 % 0x100) as byte]
  }

  function Four(x: nat): (s: seq<byte>)
    ensures |s| == 4
  {
    [(x % 0x100) as byte, (x / 0x100 % 0x100) as byte, (x / 0x1_0000 % 0x100) as byte, (x / 0x100_0000 % 0x100) as byte]
  }

  predicate SegmentOk(s: Segment) {
    s.kind < TWO32 && s.vaddr < TWO32 && s.paddr < TWO32 && |s.rest| == 12
  }

  predicate ProgramOk(p: Program) {
    && p.entry < TWO32 && |p.ident| == 20 && |p.middle| == 8 && |p.tail| == 6
    && |p.segments| < 0x1_0000 && (forall s :: s in p.segments ==> SegmentOk(s)) && |Image(p)| < TWO32
  }

  function Header(p: Program): seq<byte> {
    [0x7f, 0x45, 0x4c, 0x46] + p.ident + Four(p.entry) + Four(52) + p.middle
    + Two(52) + Two(32) + Two(|p.segments|) + p.tail
  }

  /** The program header of a segment whose data is at `offset`. */
  function ProgramHeader(s: Segment, offset: nat): seq<byte> {
    Four(s.kind) + Four(offset) + Four(s.vaddr) + Four(s.paddr) + Four(|s.data|) + s.rest
  }

  function Headers(segments: seq<Segment>, offset: nat): seq<byte> {
    if segments == [] then []
    else
      var s := segments[0];
      ProgramHeader(s, offset) + Headers(segments[1..], offset + |s.data| + |s.pad|)
  }

  function Data(segments: seq<Segment>): seq<byte> {
    if segments == [] then [] else segments[0].data + segments[0].pad + Data(segments[1..])
  }

  /** The headers, and then the data of the segments, in order. */
  function Image(p: Program): seq<byte> {
    Header(p) + Headers(p.segments, 52 + 32 * |p.segments|) + Data(p.segments)
  }

  // -------- where things are --------

  /** Where the data of segment k starts, from the end of the headers. */
  function Place(segments: seq<Segment>, k: nat): nat
    requires k < |segments|
  {
    if k == 0 then 0 else |segments[0].data| + |segments[0].pad| + Place(segments[1..], k - 1)
  }

  lemma ProgramHeaderLength(s: Segment, offset: nat)
    requires SegmentOk(s)
    ensures |ProgramHeader(s, offset)| == 32
  {
    hide Four;
  }

  lemma {:induction false} HeadersLength(segments: seq<Segment>, offset: nat)
    requires forall s :: s in segments ==> SegmentOk(s)
    ensures |Headers(segments, offset)| == 32 * |segments|
  {
    hide ProgramHeader, SegmentOk;
    if segments != [] {
      var s := segments[0];
      assert s in segments;
      ProgramHeaderLength(s, offset);
      HeadersLength(segments[1..], offset + |s.data| + |s.pad|);
    }
  }

  lemma {:induction false} HeadersAt(segments: seq<Segment>, offset: nat, k: nat)
    requires (forall s :: s in segments ==> SegmentOk(s)) && k < |segments|
    ensures |Headers(segments, offset)| == 32 * |segments|
    ensures Headers(segments, offset)[32 * k..32 * k + 32] == ProgramHeader(segments[k], offset + Place(segments, k))
  {
    hide ProgramHeader, SegmentOk;
    var s, rest := segments[0], segments[1..];
    var first, next := ProgramHeader(s, offset), offset + |s.data| + |s.pad|;
    assert s in segments;
    ProgramHeaderLength(s, offset);
    HeadersLength(segments, offset);
    HeadersLength(rest, next);
    if k == 0 {
      assert (first + Headers(rest, next))[..32] == first;
    } else {
      HeadersAt(rest, next, k - 1);
      Behind(first, Headers(rest, next), 32 * (k - 1), 32);
    }
  }

  /** A part of t in s + t. */
  lemma Behind(s: seq<byte>, t: seq<byte>, at: nat, n: nat)
    requires at + n <= |t|
    ensures (s + t)[|s| + at..|s| + at + n] == t[at..at + n]
  {
  }

  lemma {:induction false} DataAt(segments: seq<Segment>, k: nat)
    requires k < |segments|
    ensures var at, data := Place(segments, k), segments[k].data;
            at + |data| <= |Data(segments)| && Data(segments)[at..at + |data|] == data
  {
    if k > 0 {
      DataAt(segments[1..], k - 1);
      var s := segments[0];
      Behind(s.data + s.pad, Data(segments[1..]), Place(segments[1..], k - 1), |segments[k].data|);
    }
  }

  // -------- an image in memory --------

  /** The program's image is at kernel pointer a. */
  ghost predicate Written(m: Mem, a: int, p: Program) {
    ProgramOk(p) && Bytes(m, a, |Image(p)|) == Image(p)
  }

  lemma PartRead(m: Mem, a: int, image: seq<byte>, at: nat, part: seq<byte>)
    requires Bytes(m, a, |image|) == image && at + |part| <= |image| && image[at..at + |part|] == part
    ensures Bytes(m, a + at, |part|) == part
  {
    forall k | 0 <= k < |part| ensures Bytes(m, a + at, |part|)[k] == part[k] {
      assert part[k] == image[at + k] == Bytes(m, a, |image|)[at + k];
    }
  }

  lemma FourRead(m: Mem, a: int, x: nat)
    requires Bytes(m, a, 4) == Four(x) && x < TWO32
    ensures Word(m, a) == x
  {
    assert Bytes(m, a, 4)[0] == Byte(m, a) && Bytes(m, a, 4)[1] == Byte(m, a + 1);
    assert Bytes(m, a, 4)[2] == Byte(m, a + 2) && Bytes(m, a, 4)[3] == Byte(m, a + 3);
    Digits(x);
  }

  lemma TwoRead(m: Mem, a: int, x: nat)
    requires Bytes(m, a, 2) == Two(x) && x < 0x1_0000
    ensures Half(m, a) == x
  {
    assert Bytes(m, a, 2)[0] == Byte(m, a) && Bytes(m, a, 2)[1] == Byte(m, a + 1);
  }

  lemma HeaderParts(p: Program)
    requires ProgramOk(p)
    ensures var h := Header(p);
            && |h| == 52 && h[..4] == [0x7f, 0x45, 0x4c, 0x46] && h[24..28] == Four(p.entry) && h[28..32] == Four(52)
            && h[42..44] == Two(32) && h[44..46] == Two(|p.segments|)
  {
    hide Four, Two, Image;
  }

  lemma HeaderRead(m: Mem, a: int, p: Program)
    requires Written(m, a, p)
    ensures Magic(m, a) && EntryPoint(m, a) == p.entry && PhNum(m, a) == |p.segments|
    ensures PhOff(m, a) == 52 && PhEntSize(m, a) == 32
  {
    hide Four, Two, Header, Headers, Data, Bytes;
    var image, h := Image(p), Header(p);
    HeaderParts(p);
    assert image[..52] == h;
    PartRead(m, a, image, 0, h[..4]);
    PartRead(m, a, image, 24, Four(p.entry));
    PartRead(m, a, image, 28, Four(52));
    PartRead(m, a, image, 42, Two(32));
    PartRead(m, a, image, 44, Two(|p.segments|));
    MagicRead(m, a);
    FourRead(m, a + 24, p.entry);
    FourRead(m, a + 28, 52);
    TwoRead(m, a + 42, 32);
    TwoRead(m, a + 44, |p.segments|);
  }

  lemma MagicRead(m: Mem, a: int)
    requires Bytes(m, a, 4) == [0x7f, 0x45, 0x4c, 0x46]
    ensures Magic(m, a)
  {
    assert Bytes(m, a, 4)[0] == Byte(m, a) && Bytes(m, a, 4)[1] == Byte(m, a + 1);
    assert Bytes(m, a, 4)[2] == Byte(m, a + 2) && Bytes(m, a, 4)[3] == Byte(m, a + 3);
  }

  /** What the loader reads of segment k. */
  lemma SegmentRead(m: Mem, a: int, p: Program, k: nat)
    requires Written(m, a, p) && k < |p.segments|
    ensures var s, ph, offset := p.segments[k], Phdr(m, a, k), 52 + 32 * |p.segments| + Place(p.segments, k);
            && ph == a + 52 + 32 * k && Word(m, ph) == s.kind && Offset(m, ph) == offset
            && VAddr(m, ph) == s.vaddr && FileSize(m, ph) == |s.data|
            && offset + |s.data| <= |Image(p)| && Bytes(m, a + offset, |s.data|) == s.data
  {
    hide Four, Two, Header, Headers, Data, Bytes, ProgramHeader, Word, PhOff, PhEntSize, SegmentOk, Place;
    var image, at, s := Image(p), 52 + 32 * |p.segments|, p.segments[k];
    assert s in p.segments;
    HeaderRead(m, a, p);
    HeaderParts(p);
    HeadersAt(p.segments, at, k);
    DataAt(p.segments, k);
    Behind(Header(p), Headers(p.segments, at), 32 * k, 32);
    assert image[52 + 32 * k..52 + 32 * k + 32] == ProgramHeader(s, at + Place(p.segments, k));
    PartRead(m, a, image, 52 + 32 * k, ProgramHeader(s, at + Place(p.segments, k)));
    ProgramHeaderRead(m, a + 52 + 32 * k, s, at + Place(p.segments, k));
    Behind(Header(p) + Headers(p.segments, at), Data(p.segments), Place(p.segments, k), |s.data|);
    PartRead(m, a, image, at + Place(p.segments, k), s.data);
  }

  lemma ProgramHeaderRead(m: Mem, ph: int, s: Segment, offset: nat)
    requires SegmentOk(s) && offset < TWO32 && |s.data| < TWO32
    requires Bytes(m, ph, 32) == ProgramHeader(s, offset)
    ensures Word(m, ph) == s.kind && Offset(m, ph) == offset && VAddr(m, ph) == s.vaddr && FileSize(m, ph) == |s.data|
  {
    hide Four, Bytes, Word;
    var h := ProgramHeader(s, offset);
    assert h[..4] == Four(s.kind) && h[4..8] == Four(offset) && h[8..12] == Four(s.vaddr);
    assert h[16..20] == Four(|s.data|);
    PartRead(m, ph, h, 0, Four(s.kind));
    PartRead(m, ph, h, 4, Four(offset));
    PartRead(m, ph, h, 8, Four(s.vaddr));
    PartRead(m, ph, h, 16, Four(|s.data|));
    FourRead(m, ph, s.kind);
    FourRead(m, ph + 4, offset);
    FourRead(m, ph + 8, s.vaddr);
    FourRead(m, ph + 16, |s.data|);
  }

  // -------- loading it --------

  /** A PT_LOAD segment with data. */
  predicate Loadable(s: Segment) {
    s.kind == 1 && s.data != []
  }

  /** Each segment to load fits one page, and no two of them share a page. */
  ghost predicate OnePageEach(segments: seq<Segment>) {
    && (forall s :: s in segments && Loadable(s) ==> s.vaddr % 0x1000 + |s.data| <= 0x1000)
    && forall i, j :: 0 <= i < j < |segments| && Loadable(segments[i]) && Loadable(segments[j]) ==>
         segments[i].vaddr / 0x1000 != segments[j].vaddr / 0x1000
  }

  /** The page at address v is one of a segment to load. */
  ghost predicate AsksFor(segments: seq<Segment>, v: nat) {
    exists s :: s in segments && Loadable(s) && s.vaddr / 0x1000 == v / 0x1000
  }

  lemma LoadsExactlyWhen(m: Mem, a: int, p: Program, k: nat)
    requires Written(m, a, p) && k < |p.segments|
    ensures Loads(m, Phdr(m, a, k)) <==> Loadable(p.segments[k])
  {
    hide Image, Bytes, Word;
    SegmentRead(m, a, p, k);
  }

  lemma WrittenIsOk(m: Mem, a: int, p: Program)
    requires Written(m, a, p) && OnePageEach(p.segments)
    ensures ImageOk(m, a, |Image(p)|)
  {
    hide Image, Bytes, Word, Phdr, PhNum, Loads, Written, Magic, Loadable;
    WrittenLength(m, a, p);
    HeaderRead(m, a, p);
    forall k: nat | k < |p.segments| ensures SegmentFits(m, a, |Image(p)|, k) {
      SegmentRead(m, a, p, k);
      LoadsExactlyWhen(m, a, p, k);
      assert p.segments[k] in p.segments;
    }
    forall i: nat, j: nat | i < j < |p.segments| && Loads(m, Phdr(m, a, i)) && Loads(m, Phdr(m, a, j))
      ensures VAddr(m, Phdr(m, a, i)) / PAGE != VAddr(m, Phdr(m, a, j)) / PAGE
    {
      SegmentRead(m, a, p, i);
      SegmentRead(m, a, p, j);
      LoadsExactlyWhen(m, a, p, i);
      LoadsExactlyWhen(m, a, p, j);
    }
  }

  lemma WrittenLength(m: Mem, a: int, p: Program)
    requires Written(m, a, p)
    ensures 52 + 32 * |p.segments| <= |Image(p)| < TWO32
  {
    hide Four, Two, Header, Headers, Data, Bytes;
    HeaderParts(p);
    if p.segments != [] {
      HeadersAt(p.segments, 52 + 32 * |p.segments|, 0);
    }
  }

  /** Elf32::load on a written image: every PT_LOAD segment is found at its own address, no other page is mapped or
      moved, and the entry point is the one written. */
  method LoadWritten(elf: Elf32, ram: array<byte>, pmm: PMM, pd: nat, cr3: nat, ghost dirs: set<int>, ghost p: Program)
    requires PagingOk(ram[..], pmm, dirs) && pd in dirs && P2V(cr3) == pd
    requires Written(ram[..], elf.elfHeader, p) && OnePageEach(p.segments)
    requires InData(ram[..], pmm, dirs, elf.elfHeader, |Image(p)|) && |pmm.Free(ram[..])| >= 2 * |p.segments|
    requires forall s :: s in p.segments && Loadable(s) ==> Private(ram[..], dirs, pd, PdIdx(s.vaddr))
    modifies ram, elf
    ensures elf.entryPoint == p.entry
    ensures forall s, t :: s in p.segments && Loadable(s) && 0 <= t < |s.data| ==>
              UserByte(ram[..], pd, s.vaddr + t) == s.data[t]
    ensures forall v: nat :: v < TWO32 && !AsksFor(p.segments, v) ==>
              Walk(ram[..], pd, v) == Walk(old(ram[..]), pd, v)
    ensures Extended(old(ram[..]), ram[..], pmm, dirs, pd)
  {
    hide PagingOk, Private, InData, Written, Extended, OnePageEach, Phdr, Loads, PhNum, Magic, EntryPoint, UserByte,
         Walk, SegmentThere, SegmentPage, ImageOk, PMM.Free;
    ghost var m, a := ram[..], elf.elfHeader;
    HeaderRead(m, a, p);
    WrittenIsOk(m, a, p);
    WrittenPrivate(m, a, p, dirs, pd);
    ghost var segs := elf.Load(ram, pmm, pd, cr3, dirs, |Image(p)|);
    forall s, t | s in p.segments && Loadable(s) && 0 <= t < |s.data|
      ensures UserByte(ram[..], pd, s.vaddr + t) == s.data[t]
    {
      ghost var k :| 0 <= k < |p.segments| && p.segments[k] == s;
      SegmentFound(m, ram[..], pmm, dirs, pd, a, p, segs, k, t);
    }
    forall v: nat | v < TWO32 && !AsksFor(p.segments, v) ensures Walk(ram[..], pd, v) == Walk(m, pd, v) {
      OtherPages(m, ram[..], pmm, dirs, pd, a, p, segs, v);
    }
  }

  lemma WrittenPrivate(m: Mem, a: int, p: Program, dirs: set<int>, d: int)
    requires Written(m, a, p)
    requires forall s :: s in p.segments && Loadable(s) ==> Private(m, dirs, d, PdIdx(s.vaddr))
    ensures PrivateSegments(m, dirs, d, a)
  {
    hide Private, Written, Phdr, Loads, PhNum, Image, Bytes;
    HeaderRead(m, a, p);
    forall k: nat | k < PhNum(m, a) && Loads(m, Phdr(m, a, k))
      ensures Private(m, dirs, d, PdIdx(VAddr(m, Phdr(m, a, k))))
    {
      SegmentRead(m, a, p, k);
      LoadsExactlyWhen(m, a, p, k);
      assert p.segments[k] in p.segments;
    }
  }

  lemma SegmentFound(m: Mem, m': Mem, pmm: PMM, dirs: set<int>, d: int, a: int, p: Program, segs: map<nat, int>,
                     k: nat, t: nat)
    requires Written(m, a, p) && OnePageEach(p.segments) && k < |p.segments| && Loadable(p.segments[k])
    requires LoadedUpTo(m, m', pmm, dirs, d, a, |p.segments|, segs) && t < |p.segments[k].data|
    ensures UserByte(m', d, p.segments[k].vaddr + t) == p.segments[k].data[t]
  {
    hide Written, Phdr, Loads, PhNum, Image, Bytes, UserByte, Extended, SegmentThere, SegmentPage, WalkAt, ImageOk,
         OnePageEach;
    var s, offset := p.segments[k], 52 + 32 * |p.segments| + Place(p.segments, k);
    HeaderRead(m, a, p);
    WrittenIsOk(m, a, p);
    SegmentRead(m, a, p, k);
    LoadsExactlyWhen(m, a, p, k);
    SegmentReads(m, m', pmm, dirs, d, a, |Image(p)|, k, segs[k], t);
    assert Bytes(m, a + offset, |s.data|)[t] == Byte(m, a + offset + t);
  }

  lemma OtherPages(m: Mem, m': Mem, pmm: PMM, dirs: set<int>, d: int, a: int, p: Program, segs: map<nat, int>, v: nat)
    requires Written(m, a, p) && v < TWO32 && !AsksFor(p.segments, v)
    requires LoadedUpTo(m, m', pmm, dirs, d, a, |p.segments|, segs)
    ensures Walk(m', d, v) == Walk(m, d, v)
  {
    hide Written, Phdr, Loads, PhNum, Image, Bytes, Extended, SegmentThere, WalkAt;
    HeaderRead(m, a, p);
    forall k: nat | k < |p.segments| && Loads(m, Phdr(m, a, k))
      ensures !(PdIdx(VAddr(m, Phdr(m, a, k))) == PdIdx(v) && PtIdx(VAddr(m, Phdr(m, a, k))) == PtIdx(v))
    {
      SegmentRead(m, a, p, k);
      LoadsExactlyWhen(m, a, p, k);
      assert p.segments[k] in p.segments;
      SamePage(VAddr(m, Phdr(m, a, k)), v);
    }
  }
}
