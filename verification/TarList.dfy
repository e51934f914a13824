/** parse_tar (src/utils/tar.cpp:20-59) in the kernel's memory: its list nodes and the file contents are blocks of
    the heap. */
module TarLists {
  import opened Memory
  import opened Bitmaps
  import opened Frames
  import opened Layout
  import opened Buckets
  import opened Heaps
  import opened Kmallocs
  import opened Tars

  const TAR: int := 168      // sizeof(Tar): the 157 bytes of the entry, data at 160, next at 164
  const DATA_AT: int := 160
  const NEXT_AT: int := 164

  // -------- memory the heap never touches --------

  /** The bytes from lo on lie in used frames that are neither the heap's nor the frame bitmap's. */
  ghost predicate OffHeap(m: Mem, pmm: PMM, list: seq<int>, lo: int, n: nat) {
    && InRam(|m|, lo, n)
    && forall a :: lo <= a < lo + n ==> Foreign(m, pmm, list, FrameOf(a)) && pmm.ClearOfMap(FrameOf(a))
  }

  lemma OffHeapKept(m: Mem, m': Mem, pmm: PMM, list: seq<int>, list': seq<int>, lo: int, n: nat)
    requires OffHeap(m, pmm, list, lo, n) && ForeignKept(m, m', pmm, list, list')
    ensures OffHeap(m', pmm, list', lo, n) && Same(m, m', lo, lo + n)
  {
    hide Foreign, Byte;
    forall a | lo <= a < lo + n
      ensures Foreign(m', pmm, list', FrameOf(a)) && pmm.ClearOfMap(FrameOf(a)) && Byte(m', a) == Byte(m, a)
    {
      var c := FrameBase(FrameOf(a));
      assert c <= a < c + PAGE && Foreign(m, pmm, list, FrameOf(a));
    }
  }

  lemma OffHeapApart(m: Mem, pmm: PMM, head: int, list: seq<int>, live: set<int>, lo: int, n: nat, q: int)
    requires OffHeap(m, pmm, list, lo, n) && HeapOk(m, pmm, head, list, live) && q in live && n > 0
    ensures lo + n <= q || q + SizeOf(m, q) <= lo
  {
    hide HeapOk, SizeOf, PMM.Used, PMM.ClearOfMap, PageBegin, Room, RoomOk, ClassIn;
    BlockBounds(m, pmm, head, list, live, q);
    var a := if lo <= q then q else lo;
    if q <= a < q + SizeOf(m, q) {
      PageOfByte(PageBegin(q), a);
    }
    assert lo <= a < lo + n ==> Foreign(m, pmm, list, FrameOf(a));
  }

  /** What a call of the allocator, or a store into a block, leaves alone: all frames that are not the heap's, the
      archive among them.  At most k frames were taken. */
  ghost predicate Quiet(m: Mem, m': Mem, pmm: PMM, list: seq<int>, list': seq<int>, lo: int, n: nat, k: nat) {
    && ForeignKept(m, m', pmm, list, list') && OffHeap(m', pmm, list', lo, n) && Same(m, m', lo, lo + n)
    && |pmm.Free(m')| >= |pmm.Free(m)| - k
  }

  lemma IsQuiet(m: Mem, m': Mem, pmm: PMM, list: seq<int>, list': seq<int>, lo: int, n: nat, k: nat)
    requires OffHeap(m, pmm, list, lo, n) && ForeignKept(m, m', pmm, list, list') && |pmm.Free(m')| >= |pmm.Free(m)| - k
    ensures Quiet(m, m', pmm, list, list', lo, n, k)
  {
    hide OffHeap, ForeignKept, PMM.Free;
    OffHeapKept(m, m', pmm, list, list', lo, n);
  }

  lemma QuietTrans(m: Mem, m1: Mem, m': Mem, pmm: PMM, list: seq<int>, list1: seq<int>, list': seq<int>, lo: int,
                   n: nat, j: nat, k: nat)
    requires Quiet(m, m1, pmm, list, list1, lo, n, j) && Quiet(m1, m', pmm, list1, list', lo, n, k)
    ensures Quiet(m, m', pmm, list, list', lo, n, j + k)
  {
  }

  lemma OffHeapPart(m: Mem, pmm: PMM, list: seq<int>, lo: int, n: nat, a: int, k: nat)
    requires OffHeap(m, pmm, list, lo, n) && lo <= a && a + k <= lo + n
    ensures OffHeap(m, pmm, list, a, k)
  {
  }

  // -------- stores into one block --------

  function WordIn(s: seq<byte>, k: nat): int
    requires k + 4 <= |s|
  {
    s[k] as int + 0x100 * s[k + 1] as int + 0x1_0000 * s[k + 2] as int + 0x100_0000 * s[k + 3] as int
  }

  /** From s to s' only the word at offset k changed, to w. */
  ghost predicate FieldSet(s: seq<byte>, s': seq<byte>, k: nat, w: int) {
    && |s'| == |s| && k + 4 <= |s| && WordIn(s', k) == w
    && forall j :: 0 <= j < |s| && !(k <= j < k + 4) ==> s'[j] == s[j]
  }

  /** The block at q may have changed, and no other one. */
  ghost predicate OnlyBlock(before: map<int, seq<byte>>, after: map<int, seq<byte>>, q: int) {
    && q in before && after.Keys == before.Keys && |after[q]| == |before[q]|
    && forall r :: r in before && r != q ==> after[r] == before[r]
  }

  method StoreField(heap: Kmalloc, q: int, k: nat, w: int, ghost lo: int, ghost n: nat)
    requires OffHeap(heap.ram[..], heap.pmm, heap.list, lo, n)
    requires heap.Valid() && q in heap.Contents() && k + 4 <= |heap.Contents()[q]| && 0 <= w < TWO32
    modifies heap.ram
    ensures heap.Valid() && OnlyBlock(old(heap.Contents()), heap.Contents(), q)
    ensures FieldSet(old(heap.Contents())[q], heap.Contents()[q], k, w)
    ensures Quiet(old(heap.ram[..]), heap.ram[..], heap.pmm, heap.list, heap.list, lo, n, 0)
    ensures heap.pmm.Used(heap.ram[..]) == heap.pmm.Used(old(heap.ram[..]))
  {
    hide HeapOk, ForeignKept, SizeOf, Word, Byte, WordIn, OffHeap, PMM.Free, PMM.Used;
    ghost var m := heap.ram[..];
    BlockBounds(m, heap.pmm, heap.buckets, heap.list, heap.live, q);
    Store32(heap.ram, q + k, w);
    PutStep(m, heap.ram[..], heap.pmm, heap.buckets, heap.list, heap.live, q);
    FreeKept(heap.pmm, m, heap.ram[..]);
    IsQuiet(m, heap.ram[..], heap.pmm, heap.list, heap.list, lo, n, 0);
    FieldStored(m, heap.ram[..], q, k, w);
  }

  lemma FieldStored(m: Mem, m': Mem, q: int, k: nat, w: int)
    requires SizeOf(m', q) == SizeOf(m, q) && k + 4 <= SizeOf(m, q)
    requires SameOutside(m, m', q + k, q + k + 4) && Word(m', q + k) == w
    ensures FieldSet(Block(m, q), Block(m', q), k, w)
  {
  }

  lemma OffHeapRam(m: Mem, pmm: PMM, list: seq<int>, lo: int, n: nat)
    requires OffHeap(m, pmm, list, lo, n)
    ensures InRam(|m|, lo, n)
  {
  }

  /** memcpy into a block, from memory outside the heap. */
  method CopyInto(heap: Kmalloc, q: int, src: int, size: nat, ghost lo: int, ghost n: nat)
    requires heap.Valid() && q in heap.Contents() && size <= |heap.Contents()[q]|
    requires OffHeap(heap.ram[..], heap.pmm, heap.list, lo, n) && lo <= src && src + size <= lo + n
    modifies heap.ram
    ensures heap.Valid() && OnlyBlock(old(heap.Contents()), heap.Contents(), q)
    ensures Bytes(old(heap.ram[..]), src, size) <= heap.Contents()[q]
    ensures Quiet(old(heap.ram[..]), heap.ram[..], heap.pmm, heap.list, heap.list, lo, n, 0)
    ensures heap.pmm.Used(heap.ram[..]) == heap.pmm.Used(old(heap.ram[..]))
  {
    hide HeapOk, ForeignKept, SizeOf, Byte, OffHeap, PMM.Free, PMM.Used;
    ghost var m := heap.ram[..];
    BlockBounds(m, heap.pmm, heap.buckets, heap.list, heap.live, q);
    if size > 0 {
      OffHeapPart(m, heap.pmm, heap.list, lo, n, src, size);
      OffHeapApart(m, heap.pmm, heap.buckets, heap.list, heap.live, src, size, q);
    }
    OffHeapRam(m, heap.pmm, heap.list, lo, n);
    Memcpy(heap.ram, q, src, size);
    PutStep(m, heap.ram[..], heap.pmm, heap.buckets, heap.list, heap.live, q);
    FreeKept(heap.pmm, m, heap.ram[..]);
    IsQuiet(m, heap.ram[..], heap.pmm, heap.list, heap.list, lo, n, 0);
    BytesCopied(m, heap.ram[..], q, src, size);
  }

  lemma BytesCopied(m: Mem, m': Mem, q: int, src: int, n: nat)
    requires n <= SizeOf(m', q) && forall a :: q <= a < q + n ==> Byte(m', a) == Byte(m, src + (a - q))
    ensures Bytes(m, src, n) <= Block(m', q)
  {
  }

  // -------- the list --------

  /** A block holding a Tar: the entry's header, the pointer to its data and the next node. */
  ghost predicate IsNode(s: seq<byte>, header: seq<byte>, data: int, next: int) {
    |s| >= TAR && header == s[..ENTRY] && WordIn(s, DATA_AT) == data && WordIn(s, NEXT_AT) == next
  }

  /** A node is as class Tar lays it out: the 157 bytes of the header, then at 160 the pointer to the data and at 164
      the pointer to the next node. */
  lemma NodeLayout(s: seq<byte>, header: seq<byte>, data: int, next: int)
    requires IsNode(s, header, data, next)
    ensures |s| >= 168 && s[..157] == header && WordIn(s, 160) == data && WordIn(s, 164) == next
  {
  }

  /** The nodes, in list order, hold the entries found, last one first. */
  ghost predicate Stored(contents: map<int, seq<byte>>, out: int, nodes: seq<int>, datas: seq<int>,
                         entries: seq<Entry>) {
    && |nodes| == |datas| == |entries| && out == At(nodes, 0)
    && forall k :: 0 <= k < |nodes| ==> StoredAt(contents, nodes, datas, entries, k)
  }

  ghost predicate StoredAt(contents: map<int, seq<byte>>, nodes: seq<int>, datas: seq<int>, entries: seq<Entry>, k: nat)
    requires k < |nodes| == |datas| == |entries|
  {
    var e := entries[|entries| - 1 - k];
    && nodes[k] in contents && IsNode(contents[nodes[k]], e.header, datas[k], At(nodes, k + 1))
    && datas[k] in contents && e.data <= contents[datas[k]]
  }

  /** Every block there was is there with its contents. */
  ghost predicate AllKept(before: map<int, seq<byte>>, after: map<int, seq<byte>>) {
    forall q :: q in before ==> q in after && after[q] == before[q]
  }

  /** The blocks at t and d are new. */
  ghost predicate TwoNew(before: map<int, seq<byte>>, after: map<int, seq<byte>>, t: int, d: int) {
    && t != d && t !in before && d !in before && after.Keys == before.Keys + {t, d}
    && AllKept(before, after)
  }

  /** What a block for a request of `size` bytes has room for. */
  ghost predicate RoomIs(n: nat, size: nat) {
    && (size <= 2048 ==> n == ClassOf(size)) && (size <= FRAME_ROOM ==> size <= n)
    && (size > 2048 ==> FRAME_ROOM <= n < PAGE)
  }

  /** One block is new, for a request of `size` bytes. */
  ghost predicate OneNew(before: map<int, seq<byte>>, after: map<int, seq<byte>>, q: int, size: nat) {
    q !in before && after.Keys == before.Keys + {q} && AllKept(before, after) && RoomIs(|after[q]|, size)
  }

  /** The block at q is in a bucket that had room, or in a new one in the least free frame. */
  ghost predicate Grown(m: Mem, m': Mem, pmm: PMM, list: seq<int>, list': seq<int>, p: int, q: int) {
    var b := PageBegin(q);
    && pmm.Used(m') == pmm.Used(m) + {FrameOf(b)} && b == FrameBase(FrameOf(b)) && b in list'
    && if SomeRoom(m, list, p) then list' == list
       else
         && list' == [b] + list && q == Slot(b, p, 0)
         && FrameOf(b) in pmm.Free(m) && forall k :: k in pmm.Free(m) ==> FrameOf(b) <= k
  }

  /** malloc, with what it means for an archive at lo. */
  method Allocate(heap: Kmalloc, size: nat, ghost lo: int, ghost n: nat) returns (q: nat)
    requires heap.Valid() && size <= HIGHEST && |heap.pmm.Free(heap.ram[..])| >= 1
    requires OffHeap(heap.ram[..], heap.pmm, heap.list, lo, n)
    modifies heap, heap.ram
    ensures heap.Valid() && 0 < q < TWO32
    ensures OneNew(old(heap.Contents()), heap.Contents(), q, size)
    ensures Quiet(old(heap.ram[..]), heap.ram[..], heap.pmm, old(heap.list), heap.list, lo, n, 1)
    ensures Grown(old(heap.ram[..]), heap.ram[..], heap.pmm, old(heap.list), heap.list, ClassOf(size), q)
  {
    hide HeapOk, ForeignKept, Taking, OffHeap, Block, RoomOk, FirstFit, SomeRoom, PMM.Used, PMM.Free, IsClass;
    ghost var m := heap.ram[..];
    q := heap.Malloc(size);
    FreeLosesOne(heap.pmm, m, heap.ram[..], FrameOf(PageBegin(q)));
    IsQuiet(m, heap.ram[..], heap.pmm, old(heap.list), heap.list, lo, n, 1);
    Allocated(m, heap.ram[..], heap.pmm, heap.buckets, heap.list, old(heap.live), heap.live, q, size);
  }

  lemma Allocated(m: Mem, m': Mem, pmm: PMM, head: int, list: seq<int>, live: set<int>, live': set<int>, q: int,
                  size: nat)
    requires HeapOk(m', pmm, head, list, live') && RoomOk(q, ClassOf(size))
    requires Taking(m, m', live, live', q, Room(q, ClassOf(size)))
    ensures OneNew(Blocks(m, live), Blocks(m', live'), q, size) && q < TWO32
    ensures PageBegin(q) in list && PageBegin(q) == FrameBase(FrameOf(PageBegin(q)))
  {
    hide HeapOk, SizeOf, IsSmall;
    ClassIs(size);
    RoomFor(q, size);
    BlockBounds(m', pmm, head, list, live', q);
  }

  /** The least free frame of m is a bucket now. */
  ghost predicate LeastTaken(m: Mem, pmm: PMM, list: seq<int>) {
    forall k :: k in pmm.Free(m) && (forall j :: j in pmm.Free(m) ==> k <= j) ==> FrameBase(k) in list
  }

  /** Two allocations in a row: if any of them made a bucket, the first one is in the least free frame. */
  lemma TwoGrown(m: Mem, m1: Mem, m2: Mem, m3: Mem, pmm: PMM, head: int, list: seq<int>, list1: seq<int>,
                 list3: seq<int>, live: set<int>, p: int, t: int, r: int, d: int)
    requires HeapOk(m, pmm, head, list, live) && Grown(m, m1, pmm, list, list1, p, t) && pmm.Used(m2) == pmm.Used(m1)
    requires Grown(m2, m3, pmm, list1, list3, r, d)
    ensures list3 == list || LeastTaken(m, pmm, list3)
  {
    hide SomeRoom, FrameOf, FrameBase, PageBegin, Bitmap.Bits, IsBucket, LiveOk, Chain, Distinct, PMM.ClearOfMap;
    if list1 == list {
      assert Placed(m, pmm, PageBegin(t));
      assert pmm.Used(m1) == pmm.Used(m);
    }
  }

  /** The body of the loop of parse_tar on the entry at `address`, after its size was read. */
  method TakeEntry(heap: Kmalloc, address: nat, size: nat, out: nat, ghost lo: int, ghost n: nat)
    returns (tar: nat, data: nat)
    requires heap.Valid() && size <= FRAME_ROOM && out < TWO32 && |heap.pmm.Free(heap.ram[..])| >= 2
    requires OffHeap(heap.ram[..], heap.pmm, heap.list, lo, n) && lo <= address && address + BLOCK + size <= lo + n
    modifies heap, heap.ram
    ensures heap.Valid() && 0 < tar < TWO32 && TwoNew(old(heap.Contents()), heap.Contents(), tar, data)
    ensures IsNode(heap.Contents()[tar], Bytes(old(heap.ram[..]), address, ENTRY), data, out)
    ensures Bytes(old(heap.ram[..]), address + BLOCK, size) <= heap.Contents()[data]
    ensures RoomIs(|heap.Contents()[data]|, size)
    ensures heap.list == old(heap.list) || LeastTaken(old(heap.ram[..]), heap.pmm, heap.list)
    ensures Quiet(old(heap.ram[..]), heap.ram[..], heap.pmm, old(heap.list), heap.list, lo, n, 2)
  {
    hide HeapOk, OffHeap, ForeignKept, Same, Block, PMM.Used, PMM.Free, WordIn, IsNode, FieldSet, Kmalloc.Contents,
         TwoNew, Grown, ClassOf, LeastTaken;
    ghost var m, l, c := heap.ram[..], heap.list, heap.Contents();
    tar := Allocate(heap, TAR, lo, n);
    ghost var m1, l1, c1 := heap.ram[..], heap.list, heap.Contents();
    CopyInto(heap, tar, address, TAR, lo, n);
    ghost var m2, c2 := heap.ram[..], heap.Contents();
    QuietTrans(m, m1, m2, heap.pmm, l, l1, l1, lo, n, 1, 0);
    data := Allocate(heap, size, lo, n);
    ghost var m3, l3, c3 := heap.ram[..], heap.list, heap.Contents();
    QuietTrans(m, m2, m3, heap.pmm, l, l1, l3, lo, n, 1, 1);
    StoreField(heap, tar, DATA_AT, data, lo, n);
    ghost var m4, c4 := heap.ram[..], heap.Contents();
    QuietTrans(m, m3, m4, heap.pmm, l, l3, l3, lo, n, 2, 0);
    CopyInto(heap, data, address + BLOCK, size, lo, n);
    ghost var m5, c5 := heap.ram[..], heap.Contents();
    QuietTrans(m, m4, m5, heap.pmm, l, l3, l3, lo, n, 2, 0);
    StoreField(heap, tar, NEXT_AT, 0, lo, n);
    ghost var m6, c6 := heap.ram[..], heap.Contents();
    QuietTrans(m, m5, m6, heap.pmm, l, l3, l3, lo, n, 2, 0);
    if out != 0 {
      StoreField(heap, tar, NEXT_AT, out, lo, n);
      QuietTrans(m, m6, heap.ram[..], heap.pmm, l, l3, l3, lo, n, 2, 0);
    }
    TwoGrown(m, m1, m2, m3, heap.pmm, old(heap.buckets), l, l1, l3, old(heap.live), ClassOf(TAR), tar, ClassOf(size),
             data);
    EntryTaken(c, c1, c2, c3, c4, c5, c6, heap.Contents(), tar, data, Bytes(m1, address, TAR),
               Bytes(m4, address + BLOCK, size), out);
    SameArchive(m, m1, lo, n, address, TAR);
    SameArchive(m, m4, lo, n, address + BLOCK, size);
  }

  /** What the stores of one round leave: from c to c', block t became a node and block d its data. */
  lemma EntryTaken(c: map<int, seq<byte>>, c1: map<int, seq<byte>>, c2: map<int, seq<byte>>, c3: map<int, seq<byte>>,
                   c4: map<int, seq<byte>>, c5: map<int, seq<byte>>, c6: map<int, seq<byte>>, c': map<int, seq<byte>>,
                   t: int, d: int, header: seq<byte>, data: seq<byte>, out: int)
    requires OneNew(c, c1, t, TAR) && OnlyBlock(c1, c2, t) && |header| == TAR && header <= c2[t]
    requires OneNew(c2, c3, d, |data|) && OnlyBlock(c3, c4, t) && FieldSet(c3[t], c4[t], DATA_AT, d)
    requires OnlyBlock(c4, c5, d) && data <= c5[d]
    requires OnlyBlock(c5, c6, t) && FieldSet(c5[t], c6[t], NEXT_AT, 0)
    requires if out == 0 then c' == c6 else OnlyBlock(c6, c', t) && FieldSet(c6[t], c'[t], NEXT_AT, out)
    ensures TwoNew(c, c', t, d) && IsNode(c'[t], header[..ENTRY], d, out) && data <= c'[d] && RoomIs(|c'[d]|, |data|)
  {
  }

  lemma SameArchive(m: Mem, m': Mem, lo: int, n: nat, a: int, k: nat)
    requires Same(m, m', lo, lo + n) && lo <= a && a + k <= lo + n
    ensures Bytes(m', a, k) == Bytes(m, a, k)
    ensures k >= ENTRY ==> Bytes(m', a, k)[..ENTRY] == Bytes(m, a, ENTRY)
  {
  }

  /** Every file found fits what a block of the heap is sure to have. */
  ghost predicate SizesFit(entries: seq<Entry>) {
    forall e :: e in entries ==> |e.data| <= FRAME_ROOM
  }

  ghost predicate AllNew(before: map<int, seq<byte>>, qs: seq<int>) {
    forall q :: q in qs ==> q !in before
  }

  /** The two additions to `address` at the end of a round. */
  method Advance(address: nat, size: nat) returns (next: nat)
    ensures address + NextHeader(0, size) < TWO32 ==> next == address + NextHeader(0, size)
  {
    next := (address + (size / BLOCK + 1) * BLOCK) % TWO32;
    if size % BLOCK != 0 {
      next := (next + BLOCK) % TWO32;
    }
  }

  /** The reader leaves a list that holds every entry of the archive, last one first, in new blocks; whatever was in
      the heap stays. */
  method ParseTar(heap: Kmalloc, start: nat, ghost len: nat)
    returns (out: nat, ghost nodes: seq<int>, ghost datas: seq<int>)
    requires heap.Valid() && OffHeap(heap.ram[..], heap.pmm, heap.list, start, len)
    requires Entries(Bytes(heap.ram[..], start, len), 0, 0).Some?
    requires var entries := Entries(Bytes(heap.ram[..], start, len), 0, 0).value;
             SizesFit(entries) && |heap.pmm.Free(heap.ram[..])| >= 2 * |entries|
    modifies heap, heap.ram
    ensures heap.Valid() && AllKept(old(heap.Contents()), heap.Contents())
    ensures Stored(heap.Contents(), out, nodes, datas, Entries(Bytes(old(heap.ram[..]), start, len), 0, 0).value)
    ensures AllNew(old(heap.Contents()), nodes) && AllNew(old(heap.Contents()), datas)
    ensures ForeignKept(old(heap.ram[..]), heap.ram[..], heap.pmm, old(heap.list), heap.list)
  {
    hide HeapOk, Bytes, PMM.Free, IsNode, Kmalloc.Contents, TwoNew, Stored, AllKept, Entries, Size, EntryAt, SizesFit,
         AllNew, Reading, Quiet;
    ghost var m, l, c := heap.ram[..], heap.list, heap.Contents();
    ghost var all, found := Entries(Bytes(m, start, len), 0, 0).value, [];
    var address, i := start, 0;
    out, nodes, datas := 0, [], [];
    HeapRam(m, heap.pmm, heap.buckets, l, heap.live);
    NothingYet(m, heap.pmm, l, start, len, c, all);
    while Load8(heap.ram, address + i) != 0
      invariant heap.Valid() && out < TWO32 && InRam(heap.ram.Length, address + i, 1)
      invariant Reading(m, heap.ram[..], heap.pmm, l, heap.list, start, len, address, i, all, found)
      invariant Stored(heap.Contents(), out, nodes, datas, found) && AllKept(c, heap.Contents())
      invariant AllNew(c, nodes) && AllNew(c, datas)
      decreases start + len - address
    {
      ghost var m1, c1, l1 := heap.ram[..], heap.Contents(), heap.list;
      EntryHere(m, m1, heap.pmm, l, l1, start, len, address, i, all, found);
      var size := GetSize(heap.ram, address + SIZE_AT);
      ghost var e := EntryAt(Bytes(m, start, len), address - start, size);
      ghost var next := start + NextHeader(address - start, size);
      var tar, data := TakeEntry(heap, address, size, out, start, len);
      EntryDone(m, m1, heap.ram[..], heap.pmm, l, l1, heap.list, start, len, address, i, all, found, size);
      StoredMore(c, c1, heap.Contents(), out, nodes, datas, found, tar, data, e);
      out, nodes, datas, found := tar, [tar] + nodes, [data] + datas, found + [e];
      address := Advance(address, size);
      i := i + 1;
      assert address == next;
    }
    ReadingEnd(m, heap.ram[..], heap.pmm, l, heap.list, start, len, address, i, all, found);
  }

  /** The reader stands at entry number i, at `address`; `found` are the entries before it, `all` those of the whole
      archive as it was at the start, which is still there. */
  ghost predicate Reading(m: Mem, m': Mem, pmm: PMM, list: seq<int>, list': seq<int>, start: int, len: nat,
                          address: int, i: nat, all: seq<Entry>, found: seq<Entry>) {
    && Quiet(m, m', pmm, list, list', start, len, 2 * |found|) && start + len <= TWO32
    && start <= address && Entries(Bytes(m, start, len), address - start, i).Some?
    && found + Entries(Bytes(m, start, len), address - start, i).value == all
    && SizesFit(all) && |pmm.Free(m)| >= 2 * |all|
  }

  lemma HeapRam(m: Mem, pmm: PMM, head: int, list: seq<int>, live: set<int>)
    requires HeapOk(m, pmm, head, list, live)
    ensures pmm.Valid(m) && |m| <= WINDOW
  {
  }

  lemma NothingYet(m: Mem, pmm: PMM, list: seq<int>, start: int, len: nat, c: map<int, seq<byte>>, all: seq<Entry>)
    requires OffHeap(m, pmm, list, start, len) && |m| <= WINDOW
    requires Entries(Bytes(m, start, len), 0, 0) == Some(all) && SizesFit(all) && |pmm.Free(m)| >= 2 * |all|
    ensures Reading(m, m, pmm, list, list, start, len, start, 0, all, []) && InRam(|m|, start, 1)
    ensures Stored(c, 0, [], [], []) && AllKept(c, c) && AllNew(c, [])
  {
  }

  lemma ReadingEnd(m: Mem, m': Mem, pmm: PMM, list: seq<int>, list': seq<int>, start: int, len: nat, address: int,
                   i: nat, all: seq<Entry>, found: seq<Entry>)
    requires Reading(m, m', pmm, list, list', start, len, address, i, all, found) && Byte(m', address + i) == 0
    ensures found == all && ForeignKept(m, m', pmm, list, list')
  {
  }

  /** What the reader sees at `address` is the next entry. */
  lemma EntryHere(m: Mem, m': Mem, pmm: PMM, list: seq<int>, list': seq<int>, start: int, len: nat, address: int,
                  i: nat, all: seq<Entry>, found: seq<Entry>)
    requires Reading(m, m', pmm, list, list', start, len, address, i, all, found) && Byte(m', address + i) != 0
    ensures var size := Size(Bytes(m', address + SIZE_AT, 12));
            && OffHeap(m', pmm, list', start, len) && InRam(|m'|, address + SIZE_AT, 12)
            && start <= address && address + BLOCK + size <= start + len && size <= FRAME_ROOM && |pmm.Free(m')| >= 2
            && EntryAt(Bytes(m, start, len), address - start, size) ==
               Entry(Bytes(m', address, ENTRY), Bytes(m', address + BLOCK, size))
  {
    hide Byte, Entries, Size, OffHeap, ForeignKept, PMM.Free, SizesFit;
    NextEntry(m, m', start, len, address, i);
    var image, a, size := Bytes(m, start, len), address - start, Size(Bytes(m', address + SIZE_AT, 12));
    NextFits(found, EntryAt(image, a, size), Entries(image, NextHeader(a, size), i + 1).value);
    OffHeapRam(m', pmm, list', start, len);
  }

  /** After the round for that entry the reader stands at the next one. */
  lemma EntryDone(m: Mem, m1: Mem, m': Mem, pmm: PMM, list: seq<int>, list1: seq<int>, list': seq<int>, start: int,
                  len: nat, address: int, i: nat, all: seq<Entry>, found: seq<Entry>, size: nat)
    requires Reading(m, m1, pmm, list, list1, start, len, address, i, all, found) && Byte(m1, address + i) != 0
    requires Quiet(m1, m', pmm, list1, list', start, len, 2) && size == Size(Bytes(m1, address + SIZE_AT, 12))
    requires address - start + BLOCK + size <= len
    ensures var next := start + NextHeader(address - start, size);
            && address < next < TWO32 && InRam(|m'|, next + i + 1, 1)
            && next == address + NextHeader(0, size)
            && Reading(m, m', pmm, list, list', start, len, next, i + 1, all,
                       found + [EntryAt(Bytes(m, start, len), address - start, size)])
  {
    hide Byte, Entries, Size, OffHeap, ForeignKept, PMM.Free, SizesFit, Same;
    NextEntry(m, m1, start, len, address, i);
    QuietTrans(m, m1, m', pmm, list, list1, list', start, len, 2 * |found|, 2);
    var image, a := Bytes(m, start, len), address - start;
    var e, rest := EntryAt(image, a, size), Entries(image, NextHeader(a, size), i + 1).value;
    assert found + [e] + rest == found + ([e] + rest);
    OffHeapRam(m', pmm, list', start, len);
    InMemory(image, NextHeader(a, size), i + 1);
  }

  lemma NextEntry(m: Mem, m': Mem, start: int, len: nat, address: int, i: nat)
    requires start <= address && Same(m, m', start, start + len) && Byte(m', address + i) != 0
    requires Entries(Bytes(m, start, len), address - start, i).Some?
    ensures address - start + BLOCK <= len
    ensures var image, a, size := Bytes(m, start, len), address - start, Size(Bytes(m', address + SIZE_AT, 12));
            && a + BLOCK + size <= len
            && a < NextHeader(a, size) < len && Entries(image, NextHeader(a, size), i + 1).Some?
            && Entries(image, a, i).value ==
               [EntryAt(image, a, size)] + Entries(image, NextHeader(a, size), i + 1).value
            && EntryAt(image, a, size) == Entry(Bytes(m', address, ENTRY), Bytes(m', address + BLOCK, size))
  {
    hide Byte, Entries, Size;
    var image, a := Bytes(m, start, len), address - start;
    InMemory(image, a, i);
    assert start <= address + i < start + len;
    EntryFound(image, a, i);
    ImagePart(m, m', start, len, a + SIZE_AT, 12);
    var size := Size(Bytes(m', address + SIZE_AT, 12));
    ImagePart(m, m', start, len, a, ENTRY);
    ImagePart(m, m', start, len, a + BLOCK, size);
  }

  lemma ImagePart(m: Mem, m': Mem, start: int, len: nat, a: nat, k: nat)
    requires Same(m, m', start, start + len) && a + k <= len
    ensures Bytes(m, start, len)[a..a + k] == Bytes(m', start + a, k)
  {
  }

  /** The entry found next is one of those that fit. */
  lemma NextFits(found: seq<Entry>, e: Entry, rest: seq<Entry>)
    requires SizesFit(found + ([e] + rest))
    ensures |e.data| <= FRAME_ROOM
  {
  }

  lemma StoredMore(c: map<int, seq<byte>>, c1: map<int, seq<byte>>, c': map<int, seq<byte>>, out: int, nodes: seq<int>,
                   datas: seq<int>, found: seq<Entry>, tar: int, data: int, e: Entry)
    requires AllKept(c, c1) && TwoNew(c1, c', tar, data) && AllNew(c, nodes) && AllNew(c, datas)
    requires Stored(c1, out, nodes, datas, found) && IsNode(c'[tar], e.header, data, out) && e.data <= c'[data]
    ensures Stored(c', tar, [tar] + nodes, [data] + datas, found + [e])
    ensures AllKept(c, c') && AllNew(c, [tar] + nodes) && AllNew(c, [data] + datas)
  {
    hide IsNode, StoredAt;
    var nodes', datas', found' := [tar] + nodes, [data] + datas, found + [e];
    forall k | 0 <= k < |nodes'| ensures StoredAt(c', nodes', datas', found', k) {
      if k == 0 {
        FirstStored(c', nodes, datas, found, tar, data, e);
      } else {
        assert StoredAt(c1, nodes, datas, found, k - 1);
        ShiftStored(c1, c', nodes, datas, found, tar, data, e, k - 1);
      }
    }
  }

  lemma FirstStored(c: map<int, seq<byte>>, nodes: seq<int>, datas: seq<int>, found: seq<Entry>, tar: int, data: int,
                    e: Entry)
    requires |nodes| == |datas| == |found| && tar in c && data in c
    requires IsNode(c[tar], e.header, data, At(nodes, 0)) && e.data <= c[data]
    ensures StoredAt(c, [tar] + nodes, [data] + datas, found + [e], 0)
  {
  }

  lemma ShiftStored(c: map<int, seq<byte>>, c': map<int, seq<byte>>, nodes: seq<int>, datas: seq<int>,
                    found: seq<Entry>, tar: int, data: int, e: Entry, j: nat)
    requires j < |nodes| == |datas| == |found| && StoredAt(c, nodes, datas, found, j) && AllKept(c, c')
    ensures StoredAt(c', [tar] + nodes, [data] + datas, found + [e], j + 1)
  {
    hide IsNode;
    var nodes', datas', found' := [tar] + nodes, [data] + datas, found + [e];
    assert nodes'[j + 1] == nodes[j] && datas'[j + 1] == datas[j] && At(nodes', j + 2) == At(nodes, j + 1);
    assert found'[|found'| - 1 - (j + 1)] == found[|found| - 1 - j];
    assert c'[nodes[j]] == c[nodes[j]] && c'[datas[j]] == c[datas[j]];
  }

  /** The round trip through the kernel's memory: of an archive of files of at most 4064 bytes each the list left by
      parse_tar holds all files, last one first, exactly when the byte of each header at the file's own number is not
      zero. */
  method ReadArchive(heap: Kmalloc, start: nat, ghost files: seq<File>)
    returns (out: nat, ghost nodes: seq<int>, ghost datas: seq<int>)
    requires forall f :: f in files ==> FileOk(f) && |f.data| <= FRAME_ROOM
    requires heap.Valid() && |heap.pmm.Free(heap.ram[..])| >= 2 * |files|
    requires OffHeap(heap.ram[..], heap.pmm, heap.list, start, |Archive(files)|)
    requires Bytes(heap.ram[..], start, |Archive(files)|) == Archive(files)
    modifies heap, heap.ram
    ensures heap.Valid() && AllKept(old(heap.Contents()), heap.Contents())
    ensures Stored(heap.Contents(), out, nodes, datas, All(files)) <==>
            (forall k :: 0 <= k < |files| ==> Seen(files[k], k))
    ensures AllNew(old(heap.Contents()), nodes) && AllNew(old(heap.Contents()), datas)
  {
    hide HeapOk, OffHeap, Bytes, Archive, Entries, PMM.Free, StoredAt, Kmalloc.Contents, Reached, All, AllKept, AllNew;
    ghost var image := Bytes(heap.ram[..], start, |Archive(files)|);
    RoundTripExactlyWhen(image, 0, files);
    EntriesOfArchive(image, 0, files, 0);
    ReachedIsPrefix(files, 0);
    ReachedFits(files);
    out, nodes, datas := ParseTar(heap, start, |Archive(files)|);
  }

  lemma ReachedFits(files: seq<File>)
    requires forall f :: f in files ==> FileOk(f) && |f.data| <= FRAME_ROOM
    requires Reached(files, 0) <= All(files)
    ensures SizesFit(Reached(files, 0)) && |Reached(files, 0)| <= |files|
    ensures |Reached(files, 0)| == |files| ==> Reached(files, 0) == All(files)
  {
  }

  // -------- a file too large for its block --------

  /** Two files with names longer than their numbers, the first one too large for its block. */
  ghost predicate LargeThenSmall(files: seq<File>) {
    && |files| == 2 && (forall f :: f in files ==> FileOk(f)) && |files[1].name| > 1
    && 2048 < |files[0].data| <= 2 * PAGE - 64 && |files[1].data| <= FRAME_ROOM
  }

  /** A write that starts in the block q and runs into the free frame behind its bucket. */
  lemma Spilled(m: Mem, m': Mem, pmm: PMM, head: int, list: seq<int>, live: set<int>, q: int)
    requires HeapOk(m, pmm, head, list, live) && q in live && ClassIn(m, q) > 2048
    requires FrameOf(PageBegin(q)) + 1 in pmm.Free(m)
    requires SameOutside(m, m', q, PageBegin(q) + 2 * PAGE)
    ensures HeapOk(m', pmm, head, list, live) && pmm.Used(m') == pmm.Used(m) && SizeOf(m', q) == SizeOf(m, q)
    ensures forall r :: r in live && r != q ==> BlockKept(m, m', r)
    ensures ForeignKept(m, m', pmm, list, list)
  {
    hide HeapOk, Word, Byte, Room, FrameOf, FrameBase, PageBegin, SameOutside, PMM.Used, PMM.Free, ForeignKept,
         BlockKept;
    SpillHeap(m, m', pmm, head, list, live, q);
    SpillFrames(m, m', pmm, head, list, live, q);
    forall r | r in live && r != q ensures BlockKept(m, m', r) {
      SpillMisses(m, m', pmm, head, list, live, q, r);
    }
    BlockBounds(m, pmm, head, list, live, q);
    SpillForeign(m, m', pmm, list, PageBegin(q));
  }

  lemma SpillHeap(m: Mem, m': Mem, pmm: PMM, head: int, list: seq<int>, live: set<int>, q: int)
    requires HeapOk(m, pmm, head, list, live) && q in live && FrameOf(PageBegin(q)) + 1 in pmm.Free(m)
    requires SameOutside(m, m', q, PageBegin(q) + 2 * PAGE)
    ensures HeapOk(m', pmm, head, list, live) && forall r :: r in live ==> ClassIn(m', r) == ClassIn(m, r)
  {
    hide Word, Byte, IsBucket, IsSlot, Slot, Room, RoomOk, FrameOf, FrameBase, PageBegin, SameOutside, Taken, PMM.Used,
         PMM.Free;
    SpillFrames(m, m', pmm, head, list, live, q);
    forall c | c in list
      ensures Placed(m', pmm, c) && Power(m', c) == Power(m, c) && Next(m', c) == Next(m, c)
      ensures forall j :: Taken(m', c, j) <==> Taken(m, c, j)
    {
      SpillBucket(m, m', pmm, head, list, live, q, c);
    }
    ChainKept(m, m', head, list);
  }

  lemma SpillFrames(m: Mem, m': Mem, pmm: PMM, head: int, list: seq<int>, live: set<int>, q: int)
    requires HeapOk(m, pmm, head, list, live) && q in live && FrameOf(PageBegin(q)) + 1 in pmm.Free(m)
    requires SameOutside(m, m', q, PageBegin(q) + 2 * PAGE)
    ensures pmm.Valid(m') && pmm.Used(m') == pmm.Used(m) && SameOutside(m, m', PageBegin(q), PageBegin(q) + 2 * PAGE)
    ensures PageBegin(q) == FrameBase(FrameOf(PageBegin(q)))
  {
    hide Word, Byte, Bitmap.Bits, Room, RoomOk, IsBucket, Slot;
    var i := BlockInFrame(m, pmm, head, list, live, q);
    pmm.Frame(m, m');
  }

  lemma SpillBucket(m: Mem, m': Mem, pmm: PMM, head: int, list: seq<int>, live: set<int>, q: int, c: int)
    requires HeapOk(m, pmm, head, list, live) && q in live && c in list && FrameOf(PageBegin(q)) + 1 in pmm.Free(m)
    requires SameOutside(m, m', q, PageBegin(q) + 2 * PAGE) && pmm.Used(m') == pmm.Used(m)
    ensures Placed(m', pmm, c) && Power(m', c) == Power(m, c) && Next(m', c) == Next(m, c)
    ensures forall j :: Taken(m', c, j) <==> Taken(m, c, j)
  {
    hide Word, Byte, Bitmap.Bits, SpareClear, Room, RoomOk, IsClass, Slot, IsSlot, Chain;
    var i := BlockInFrame(m, pmm, head, list, live, q);
    var b := PageBegin(q);
    assert Placed(m, pmm, c) && Reserved(Power(m, c)) <= 4;
    if c != b {
      PagesApart(b, c);
      PagesApart(b + PAGE, c);
    }
    BucketKept(m, m', c);
  }

  lemma SpillMisses(m: Mem, m': Mem, pmm: PMM, head: int, list: seq<int>, live: set<int>, q: int, r: int)
    requires HeapOk(m, pmm, head, list, live) && q in live && r in live && r != q && ClassIn(m, q) > 2048
    requires FrameOf(PageBegin(q)) + 1 in pmm.Free(m)
    requires SameOutside(m, m', q, PageBegin(q) + 2 * PAGE) && ClassIn(m', r) == ClassIn(m, r)
    ensures BlockKept(m, m', r)
  {
    hide HeapOk, Word, Byte, Room, RoomOk, Bitmap.Bits;
    BlockBounds(m, pmm, head, list, live, q);
    BlockBounds(m, pmm, head, list, live, r);
    LargeIsAlone(m, pmm, head, list, live, q, r);
    PagesApart(PageBegin(q), PageBegin(r));
    PagesApart(PageBegin(q) + PAGE, PageBegin(r));
  }

  /** The bucket of a large block has no other one. */
  lemma LargeIsAlone(m: Mem, pmm: PMM, head: int, list: seq<int>, live: set<int>, q: int, r: int)
    requires HeapOk(m, pmm, head, list, live) && q in live && r in live && r != q && ClassIn(m, q) > 2048
    ensures PageBegin(r) != PageBegin(q)
  {
    hide HeapOk, Taken, Room, RoomOk, Slot, Word;
    var i := BlockInFrame(m, pmm, head, list, live, q);
    var j := BlockInFrame(m, pmm, head, list, live, r);
  }

  lemma SpillForeign(m: Mem, m': Mem, pmm: PMM, list: seq<int>, b: int)
    requires b == FrameBase(FrameOf(b)) && b in list && FrameOf(b) + 1 in pmm.Free(m)
    requires SameOutside(m, m', b, b + 2 * PAGE) && pmm.Used(m') == pmm.Used(m)
    ensures ForeignKept(m, m', pmm, list, list)
  {
    hide Byte, Bitmap.Bits;
    forall k | Foreign(m, pmm, list, k)
      ensures pmm.ClearOfMap(k) ==> Same(m, m', FrameBase(k), FrameBase(k) + PAGE)
    {
      FrameApart(k, b);
      FrameApart(k, b + PAGE);
    }
  }

  /** Frames f, f+1 and f+2 are the least free ones. */
  ghost predicate ThreeFree(m: Mem, pmm: PMM, f: int) {
    f in pmm.Free(m) && f + 1 in pmm.Free(m) && f + 2 in pmm.Free(m) && forall k :: k in pmm.Free(m) ==> f <= k
  }

  lemma ThreeAtLeast(m: Mem, pmm: PMM, f: int)
    requires ThreeFree(m, pmm, f)
    ensures |pmm.Free(m)| >= 3
  {
    hide Bitmap.Bits;
    var three := {f, f + 1, f + 2};
    assert pmm.Free(m) == (pmm.Free(m) - three) + three;
  }

  lemma FirstBucket(m: Mem, m': Mem, pmm: PMM, list': seq<int>, p: int, q: int, f: int)
    requires Grown(m, m', pmm, [], list', p, q) && ThreeFree(m, pmm, f)
    ensures list' == [FrameBase(f)] && PageBegin(q) == FrameBase(f)
    ensures pmm.Free(m') == pmm.Free(m) - {f}
  {
  }

  lemma SecondBucket(m: Mem, m2: Mem, m': Mem, pmm: PMM, head: int, live: set<int>, list': seq<int>, p: int, t: int,
                     q: int, f: int)
    requires ThreeFree(m, pmm, f) && pmm.Free(m2) == pmm.Free(m) - {f}
    requires HeapOk(m2, pmm, head, [FrameBase(f)], live) && t in live && PageBegin(t) == FrameBase(f)
    requires SizeOf(m2, t) == 256
    requires Grown(m2, m', pmm, [FrameBase(f)], list', p, q) && p > 2048
    ensures list' == [FrameBase(f + 1), FrameBase(f)] && PageBegin(q) == FrameBase(f + 1)
    ensures q == Slot(FrameBase(f + 1), p, 0) && pmm.Free(m') == pmm.Free(m) - {f, f + 1}
  {
    hide HeapOk, SizeOf, Bitmap.Bits, Room, RoomOk, IsClass;
    BlockBounds(m2, pmm, head, [FrameBase(f)], live, t);
    assert !SomeRoom(m2, [FrameBase(f)], p) && f + 1 in pmm.Free(m2);
    FreeLosesOne(pmm, m2, m', f + 1);
  }

  /** Where the large block is, and that the copy stays in two frames, away from the archive. */
  lemma LargePlace(m: Mem, pmm: PMM, head: int, list: seq<int>, live: set<int>, q: int, size: nat, lo: int, n: nat,
                   f: int)
    requires HeapOk(m, pmm, head, list, live) && q in live && PageBegin(q) == FrameBase(f + 1)
    requires FRAME_ROOM <= SizeOf(m, q)
    requires f + 2 in pmm.Free(m) && OffHeap(m, pmm, list, lo, n) && n > 0 && size <= 2 * PAGE - 64
    ensures ClassIn(m, q) > 2048 && FrameBase(f + 1) <= q <= FrameBase(f + 1) + 32 && InRam(|m|, q, size)
    ensures lo + n <= q || q + size <= lo
    ensures FrameOf(PageBegin(q)) + 1 in pmm.Free(m) && q + size <= PageBegin(q) + 2 * PAGE
  {
    hide HeapOk, SizeOf, Bitmap.Bits, Room, RoomOk, IsClass;
    BlockBounds(m, pmm, head, list, live, q);
    HeapRam(m, pmm, head, list, live);
    var a := if lo <= q then q else lo;
    assert lo <= a < lo + n ==> Foreign(m, pmm, list, FrameOf(a));
    assert FrameBase(f + 1) <= a < FrameBase(f + 2) ==> FrameOf(a) == f + 1;
    assert FrameBase(f + 2) <= a < FrameBase(f + 3) ==> FrameOf(a) == f + 2;
  }

  /** The loop body on the first entry of an archive when that entry's data does not fit the frame its block gets:
      frames f, f+1 and f+2 are the least free ones, and the copy runs from f+1 into f+2, which stays free. */
  method TakeLarge(heap: Kmalloc, address: nat, size: nat, ghost lo: int, ghost n: nat, ghost f: int)
    returns (tar: nat, data: nat)
    requires heap.Valid() && heap.list == [] && 2048 < size <= 2 * PAGE - 64
    requires OffHeap(heap.ram[..], heap.pmm, [], lo, n) && lo <= address && address + BLOCK + size <= lo + n
    requires ThreeFree(heap.ram[..], heap.pmm, f)
    modifies heap, heap.ram
    ensures heap.Valid() && 0 < tar < TWO32 && heap.list == [FrameBase(f + 1), FrameBase(f)]
    ensures tar in heap.Contents() && IsNode(heap.Contents()[tar], Bytes(old(heap.ram[..]), address, ENTRY), data, 0)
    ensures PageBegin(tar) == FrameBase(f) && |heap.Contents()[tar]| == 256
    ensures data in heap.Contents() && FRAME_ROOM <= |heap.Contents()[data]|
    ensures PageBegin(data) == FrameBase(f + 1) <= data <= FrameBase(f + 1) + 32
    ensures data == Slot(FrameBase(f + 1), ClassOf(size), 0)
    ensures f + 2 in heap.pmm.Free(heap.ram[..]) && forall k :: k in heap.pmm.Free(heap.ram[..]) ==> f + 2 <= k
    ensures Quiet(old(heap.ram[..]), heap.ram[..], heap.pmm, [], heap.list, lo, n, 2)
  {
    hide HeapOk, OffHeap, ForeignKept, Same, Block, PMM.Used, PMM.Free, WordIn, ClassOf, AllKept, ThreeFree;
    ghost var m := heap.ram[..];
    tar, data := LargeBlocks(heap, address, size, lo, n, f);
    ghost var m3, l3, c3 := heap.ram[..], heap.list, heap.Contents();
    StoreField(heap, tar, DATA_AT, data, lo, n);
    ghost var m4, c4 := heap.ram[..], heap.Contents();
    QuietTrans(m, m3, m4, heap.pmm, [], l3, l3, lo, n, 2, 0);
    FreeKept(heap.pmm, m3, m4);
    CopyLarge(heap, data, address + BLOCK, size, lo, n, f);
    ghost var m5, c5 := heap.ram[..], heap.Contents();
    QuietTrans(m, m4, m5, heap.pmm, [], l3, l3, lo, n, 2, 0);
    StoreField(heap, tar, NEXT_AT, 0, lo, n);
    QuietTrans(m, m5, heap.ram[..], heap.pmm, [], l3, l3, lo, n, 2, 0);
    FreeKept(heap.pmm, m4, heap.ram[..]);
    LargeStored(c3, c4, c5, heap.Contents(), tar, data, Bytes(m, address, TAR));
    assert Bytes(m, address, TAR)[..ENTRY] == Bytes(m, address, ENTRY);
  }

  lemma LargeStored(c3: map<int, seq<byte>>, c4: map<int, seq<byte>>, c5: map<int, seq<byte>>, c': map<int, seq<byte>>,
                    t: int, d: int, header: seq<byte>)
    requires t in c3 && d in c3 && t != d && |header| == TAR && header <= c3[t]
    requires OnlyBlock(c3, c4, t) && FieldSet(c3[t], c4[t], DATA_AT, d) && OnlyBlock(c4, c5, d)
    requires OnlyBlock(c5, c', t) && FieldSet(c5[t], c'[t], NEXT_AT, 0)
    ensures IsNode(c'[t], header[..ENTRY], d, 0) && |c'[t]| == |c3[t]| && d in c' && t in c' && |c'[d]| == |c3[d]|
  {
  }

  /** The node and the data block of that entry, the node filled with the header. */
  method LargeBlocks(heap: Kmalloc, address: nat, size: nat, ghost lo: int, ghost n: nat, ghost f: int)
    returns (tar: nat, data: nat)
    requires heap.Valid() && heap.list == [] && 2048 < size <= 2 * PAGE - 64
    requires OffHeap(heap.ram[..], heap.pmm, [], lo, n) && lo <= address && address + BLOCK + size <= lo + n
    requires ThreeFree(heap.ram[..], heap.pmm, f)
    modifies heap, heap.ram
    ensures heap.Valid() && 0 < tar < TWO32 && 0 < data < TWO32 && heap.list == [FrameBase(f + 1), FrameBase(f)]
    ensures PageBegin(tar) == FrameBase(f) && PageBegin(data) == FrameBase(f + 1) && tar != data
    ensures data == Slot(FrameBase(f + 1), ClassOf(size), 0)
    ensures tar in heap.Contents() && |heap.Contents()[tar]| == 256
    ensures Bytes(old(heap.ram[..]), address, TAR) <= heap.Contents()[tar]
    ensures data in heap.Contents() && FRAME_ROOM <= |heap.Contents()[data]|
    ensures f + 2 in heap.pmm.Free(heap.ram[..]) && forall k :: k in heap.pmm.Free(heap.ram[..]) ==> f + 2 <= k
    ensures Quiet(old(heap.ram[..]), heap.ram[..], heap.pmm, [], heap.list, lo, n, 2)
  {
    hide HeapOk, OffHeap, ForeignKept, Same, Block, PMM.Used, PMM.Free, Grown, ClassOf;
    ghost var m := heap.ram[..];
    ThreeAtLeast(m, heap.pmm, f);
    TarClass(size);
    tar := Allocate(heap, TAR, lo, n);
    ghost var m1, l1 := heap.ram[..], heap.list;
    FirstBucket(m, m1, heap.pmm, l1, ClassOf(TAR), tar, f);
    CopyInto(heap, tar, address, TAR, lo, n);
    ghost var m2, c2 := heap.ram[..], heap.Contents();
    QuietTrans(m, m1, m2, heap.pmm, [], l1, l1, lo, n, 1, 0);
    FreeKept(heap.pmm, m1, m2);
    SameArchive(m, m1, lo, n, address, TAR);
    ghost var head2, live2 := heap.buckets, heap.live;
    data := Allocate(heap, size, lo, n);
    ghost var m3 := heap.ram[..];
    SecondBucket(m, m2, m3, heap.pmm, head2, live2, heap.list, ClassOf(size), tar, data, f);
    QuietTrans(m, m2, m3, heap.pmm, [], l1, heap.list, lo, n, 1, 1);
    FreeAfterTwo(m, m3, heap.pmm, f);
  }

  lemma TarClass(size: nat)
    ensures ClassOf(TAR) == 256 && ClassOf(size) >= size
  {
    assert Climb(128, TAR) == 256;
  }

  lemma FreeAfterTwo(m: Mem, m': Mem, pmm: PMM, f: int)
    requires ThreeFree(m, pmm, f) && pmm.Free(m') == pmm.Free(m) - {f, f + 1}
    ensures f + 2 in pmm.Free(m') && forall k :: k in pmm.Free(m') ==> f + 2 <= k
  {
  }

  /** The memcpy of the large file, into its block and on into the frame behind. */
  method CopyLarge(heap: Kmalloc, q: int, src: int, size: nat, ghost lo: int, ghost n: nat, ghost f: int)
    requires heap.Valid() && q in heap.Contents() && PageBegin(q) == FrameBase(f + 1)
    requires FRAME_ROOM <= |heap.Contents()[q]|
    requires f + 2 in heap.pmm.Free(heap.ram[..]) && 0 < size <= 2 * PAGE - 64
    requires OffHeap(heap.ram[..], heap.pmm, heap.list, lo, n) && lo <= src && src + size <= lo + n
    modifies heap.ram
    ensures heap.Valid() && OnlyBlock(old(heap.Contents()), heap.Contents(), q)
    ensures FrameBase(f + 1) <= q <= FrameBase(f + 1) + 32
    ensures heap.pmm.Used(heap.ram[..]) == heap.pmm.Used(old(heap.ram[..]))
    ensures Quiet(old(heap.ram[..]), heap.ram[..], heap.pmm, heap.list, heap.list, lo, n, 0)
  {
    hide HeapOk, ForeignKept, SizeOf, Byte, OffHeap, PMM.Free, PMM.Used, BlockKept, FrameOf, FrameBase;
    ghost var m := heap.ram[..];
    LargePlace(m, heap.pmm, heap.buckets, heap.list, heap.live, q, size, lo, n, f);
    OffHeapRam(m, heap.pmm, heap.list, lo, n);
    Memcpy(heap.ram, q, src, size);
    Spilled(m, heap.ram[..], heap.pmm, heap.buckets, heap.list, heap.live, q);
    BlocksWritten(m, heap.ram[..], heap.live, q);
    FreeKept(heap.pmm, m, heap.ram[..]);
    IsQuiet(m, heap.ram[..], heap.pmm, heap.list, heap.list, lo, n, 0);
  }

  /** parse_tar over an empty heap on two files, of which the first does not fit its block: the reader finds both,
      but the bucket made for the second lies over the end of the first one's data.  The data is lost if it reaches
      the least byte of that bucket's size, which is 0, with anything else. */
  method ReadLostFiles(heap: Kmalloc, start: nat, ghost files: seq<File>, ghost f: int)
    returns (out: nat, ghost first: int, ghost data: int)
    requires LargeThenSmall(files)
    requires heap.Valid() && heap.list == [] && ThreeFree(heap.ram[..], heap.pmm, f)
    requires OffHeap(heap.ram[..], heap.pmm, [], start, |Archive(files)|)
    requires Bytes(heap.ram[..], start, |Archive(files)|) == Archive(files)
    requires |heap.pmm.Free(heap.ram[..])| >= 4
    modifies heap, heap.ram
    ensures heap.Valid() && out in heap.Contents() && first in heap.Contents()
    ensures Entries(Bytes(old(heap.ram[..]), start, |Archive(files)|), 0, 0) == Some(All(files))
    ensures exists d :: IsNode(heap.Contents()[out], All(files)[1].header, d, first)
    ensures IsNode(heap.Contents()[first], All(files)[0].header, data, 0)
    ensures data == Slot(FrameBase(f + 1), ClassOf(|files[0].data|), 0)
    ensures var k := FrameBase(f + 2) + 4 - data;
            0 <= k < |files[0].data| && files[0].data[k] != 0 ==>
              Bytes(heap.ram[..], data, |files[0].data|) != files[0].data
  {
    hide HeapOk, OffHeap, ForeignKept, Same, Bytes, Block, PMM.Used, PMM.Free, IsNode, ThreeFree, Archive, Entries,
         LeastTaken, RoomIs, All, FileHere, FileOk, Slot, ClassOf, NextHeader;
    ghost var m, len, all := heap.ram[..], |Archive(files)|, All(files);
    ghost var size0, size1 := |files[0].data|, |files[1].data|;
    LargeSmallAt(m, heap.pmm, heap.buckets, heap.live, start, files);
    FileSize(m, start, size0, all[0]);
    var size := GetSize(heap.ram, start + SIZE_AT);
    var tar, d := TakeLarge(heap, start, size, start, len, f);
    ghost var m1 := heap.ram[..];
    var address := Advance(start, size);
    FileStays(m, m1, start, len, address, size1, all[1]);
    first, data := tar, d;
    out := SecondRound(heap, address, size1, tar, d, start, len, f);
    DataLost(heap.ram[..], heap.pmm, heap.buckets, heap.list, heap.live, d, f, files[0].data);
  }

  /** The loop body on a second entry after a large first one. */
  method SecondRound(heap: Kmalloc, address: nat, ghost size1: nat, tar: nat, ghost d: int, ghost lo: int, ghost n: nat,
                     ghost f: int)
    returns (out: nat)
    requires heap.Valid() && heap.list == [FrameBase(f + 1), FrameBase(f)] && 0 < tar < TWO32
    requires |heap.pmm.Free(heap.ram[..])| >= 2
    requires tar in heap.Contents() && |heap.Contents()[tar]| == 256 && PageBegin(tar) == FrameBase(f)
    requires d in heap.Contents() && FRAME_ROOM <= |heap.Contents()[d]| && PageBegin(d) == FrameBase(f + 1)
    requires f + 2 in heap.pmm.Free(heap.ram[..]) && forall k :: k in heap.pmm.Free(heap.ram[..]) ==> f + 2 <= k
    requires OffHeap(heap.ram[..], heap.pmm, heap.list, lo, n) && lo <= address && address + BLOCK + size1 <= lo + n
    requires Size(Bytes(heap.ram[..], address + SIZE_AT, 12)) == size1 <= FRAME_ROOM && InRam(heap.ram.Length, lo, n)
    modifies heap, heap.ram
    ensures heap.Valid() && out in heap.Contents() && AllKept(old(heap.Contents()), heap.Contents())
    ensures exists next :: IsNode(heap.Contents()[out], Bytes(old(heap.ram[..]), address, ENTRY), next, tar)
    ensures FrameBase(f + 2) in heap.list
  {
    hide HeapOk, OffHeap, ForeignKept, Same, Bytes, Block, PMM.Used, PMM.Free, IsNode, LeastTaken, Size, FrameBase,
         PageBegin, ClassOf;
    ghost var m, head, l, live := heap.ram[..], heap.buckets, heap.list, heap.live;
    var size := GetSize(heap.ram, address + SIZE_AT);
    ghost var next;
    out, next := TakeEntry(heap, address, size, tar, lo, n);
    SecondTaken(m, heap.ram[..], heap.pmm, heap.buckets, l, heap.list, live, heap.live, tar, d, out, next, f);
  }

  /** The entry at `address` says `size`, and e is what the reader makes of it. */
  ghost predicate FileHere(m: Mem, address: int, size: nat, e: Entry) {
    && Size(Bytes(m, address + SIZE_AT, 12)) == size
    && e == Entry(Bytes(m, address, ENTRY), Bytes(m, address + BLOCK, size))
  }

  lemma FileSize(m: Mem, address: int, size: nat, e: Entry)
    requires FileHere(m, address, size, e)
    ensures Size(Bytes(m, address + SIZE_AT, 12)) == size && e.header == Bytes(m, address, ENTRY)
    ensures e.data == Bytes(m, address + BLOCK, size)
  {
  }

  lemma FileStays(m: Mem, m': Mem, lo: int, n: nat, address: int, size: nat, e: Entry)
    requires FileHere(m, address, size, e) && Same(m, m', lo, lo + n) && lo <= address
    requires address + BLOCK + size <= lo + n
    ensures Size(Bytes(m', address + SIZE_AT, 12)) == size && e.header == Bytes(m', address, ENTRY)
  {
    SameArchive(m, m', lo, n, address + SIZE_AT, 12);
    SameArchive(m, m', lo, n, address, ENTRY);
  }

  lemma LargeSmallAt(m: Mem, pmm: PMM, head: int, live: set<int>, start: int, files: seq<File>)
    requires LargeThenSmall(files) && HeapOk(m, pmm, head, [], live) && OffHeap(m, pmm, [], start, |Archive(files)|)
    requires Bytes(m, start, |Archive(files)|) == Archive(files)
    ensures var len, all, size, size1 := |Archive(files)|, All(files), |files[0].data|, |files[1].data|;
            && Entries(Bytes(m, start, len), 0, 0) == Some(all) && |all| == 2 && all[0].data == files[0].data
            && FileHere(m, start, size, all[0]) && FileHere(m, start + NextHeader(0, size), size1, all[1])
            && BLOCK + size <= len && NextHeader(0, size) + BLOCK + size1 <= len
            && InRam(|m|, start, len) && start + len <= TWO32
  {
    hide HeapOk, Archive, Entries, Size, Bytes, Header, FileOk;
    var len, all := |Archive(files)|, All(files);
    var image := Bytes(m, start, len);
    assert image[0..0 + |Archive(files)|] == image;
    RoundTripExactlyWhen(image, 0, files);
    HeapRam(m, pmm, head, [], live);
    NamesLonger(files);
    assert all == [all[0]] + [all[1]];
    assert [all[1]] == [all[1]] + [];
    OneFile(m, start, len, 0, 0, all[0], [all[1]]);
    OneFile(m, start, len, NextHeader(0, |files[0].data|), 1, all[1], []);
  }

  lemma NamesLonger(files: seq<File>)
    requires LargeThenSmall(files)
    ensures forall k :: 0 <= k < |files| ==> Seen(files[k], k)
  {
    assert files[0] in files;
  }

  /** The first of the entries found, as it lies in memory. */
  lemma OneFile(m: Mem, start: int, len: nat, a: nat, i: nat, e: Entry, rest: seq<Entry>)
    requires Entries(Bytes(m, start, len), a, i) == Some([e] + rest)
    ensures var size := |e.data|;
            && FileHere(m, start + a, size, e) && a + BLOCK + size <= len
            && Entries(Bytes(m, start, len), NextHeader(a, size), i + 1) == Some(rest)
  {
    hide Entries, Size;
    var image := Bytes(m, start, len);
    InMemory(image, a, i);
    assert ([e] + rest)[0] == e && ([e] + rest)[1..] == rest;
    NextEntry(m, m, start, len, start + a, i);
    var size := Size(Bytes(m, start + a + SIZE_AT, 12));
    var value := Entries(image, a, i).value;
    assert value[0] == EntryAt(image, a, size) && value[1..] == Entries(image, NextHeader(a, size), i + 1).value;
  }

  /** The two nodes and the second file's data do not all fit the two buckets there were, so the frame behind the
      large block became one. */
  lemma SecondTaken(m: Mem, m': Mem, pmm: PMM, head': int, list: seq<int>, list': seq<int>, live: set<int>,
                    live': set<int>, t: int, d: int, t': int, d': int, f: int)
    requires HeapOk(m', pmm, head', list', live') && list == [FrameBase(f + 1), FrameBase(f)] && t in live && d in live
    requires TwoNew(Blocks(m, live), Blocks(m', live'), t', d')
    requires PageBegin(t) == FrameBase(f) && SizeOf(m, t) == 256
    requires PageBegin(d) == FrameBase(f + 1) && FRAME_ROOM <= SizeOf(m, d)
    requires list' == list || LeastTaken(m, pmm, list')
    requires f + 2 in pmm.Free(m) && forall k :: k in pmm.Free(m) ==> f + 2 <= k
    ensures FrameBase(f + 2) in list'
  {
    hide HeapOk, SizeOf, Room, RoomOk, IsClass, Bitmap.Bits, PMM.Free;
    if list' == list {
      assert t in Blocks(m, live) && d in Blocks(m, live);
      assert |Blocks(m', live')[t]| == |Blocks(m, live)[t]| && |Blocks(m', live')[d]| == |Blocks(m, live)[d]|;
      ThirdBlock(m', pmm, head', list', live', t, d, t', d');
    }
  }

  /** Beside a large block and one of class 256 there is one more block in their two buckets. */
  lemma ThirdBlock(m: Mem, pmm: PMM, head: int, list: seq<int>, live: set<int>, t: int, d: int, t': int, d': int)
    requires HeapOk(m, pmm, head, list, live) && list == [PageBegin(d), PageBegin(t)]
    requires t in live && t' in live && d in live && d' in live && t' != t && t' != d && d' != t && d' != d
    requires SizeOf(m, t) == 256 && FRAME_ROOM <= SizeOf(m, d)
    ensures t' == d'
  {
    hide HeapOk, SizeOf, Room, RoomOk, IsClass, Bitmap.Bits, PMM.Free, Slot;
    BlockBounds(m, pmm, head, list, live, t);
    BlockBounds(m, pmm, head, list, live, d);
    LargeIsAlone(m, pmm, head, list, live, d, t');
    LargeIsAlone(m, pmm, head, list, live, d, d');
    var i := BlockInFrame(m, pmm, head, list, live, t);
    var j := BlockInFrame(m, pmm, head, list, live, t');
    var k := BlockInFrame(m, pmm, head, list, live, d');
  }

  lemma DataLost(m: Mem, pmm: PMM, head: int, list: seq<int>, live: set<int>, d: int, f: int, data: seq<byte>)
    requires HeapOk(m, pmm, head, list, live) && FrameBase(f + 2) in list
    ensures var k := FrameBase(f + 2) + 4 - d;
            0 <= k < |data| && data[k] != 0 ==> Bytes(m, d, |data|) != data
  {
    hide HeapOk, Byte, FrameBase, Bytes;
    SizeByte(m, pmm, head, list, live, FrameBase(f + 2));
    ByteIn(m, d, |data|, FrameBase(f + 2) + 4);
  }

  lemma SizeByte(m: Mem, pmm: PMM, head: int, list: seq<int>, live: set<int>, b: int)
    requires HeapOk(m, pmm, head, list, live) && b in list
    ensures Byte(m, b + 4) == 0
  {
    hide Byte, SpareClear, Bitmap.Bits, IsClass, FrameOf, LiveOk, Chain, Distinct;
    assert Placed(m, pmm, b);
    LowByte(m, b + 4, Power(m, b) + HEADER);
  }

  lemma ByteIn(m: Mem, d: int, n: nat, a: int)
    requires Byte(m, a) == 0
    ensures 0 <= a - d < n ==> Bytes(m, d, n)[a - d] == 0
  {
  }

  /** Bucket::size is a multiple of a page, so its low byte is 0. */
  lemma LowByte(m: Mem, a: int, n: nat)
    requires Word(m, a) == Align(n, PAGE)
    ensures Byte(m, a) == 0
  {
  }
}
