/** Bucket (src/vmm/bucket.cpp): a one-frame arena with its header, bitmap and slots in that frame,
    and the singly linked list the buckets form through their `next` words. */
module Buckets {
  import opened Memory
  import opened Bitmaps
  import opened Frames
  import opened Layout

  // -------- the header fields of the bucket at b --------

  function Next(m: Mem, b: int): int { Word(m, b) }

  function Power(m: Mem, b: int): int { Word(m, b + 8) }

  function SlotMap(m: Mem, b: int): Bitmap { Bitmap(Word(m, b + 12), Word(m, b + 16)) }

  function LoadNext(ram: array<byte>, b: int): int
    requires InRam(ram.Length, b, HEADER)
    reads ram
  {
    Next(ram[..], b)
  }

  function LoadPower(ram: array<byte>, b: int): int
    requires InRam(ram.Length, b, HEADER)
    reads ram
  {
    Power(ram[..], b)
  }

  function LoadBitmap(ram: array<byte>, b: int): Bitmap
    requires InRam(ram.Length, b, HEADER)
    reads ram
  {
    SlotMap(ram[..], b)
  }

  /** A frame initialised as a bucket. */
  ghost predicate IsBucket(m: Mem, b: int) {
    && b % PAGE == 0 && InRam(|m|, b, PAGE)
    && IsClass(Power(m, b))
    && Word(m, b + 4) == Align(Power(m, b) + HEADER, PAGE)
    && SlotMap(m, b) == Bitmap(b + HEADER, Cap(Power(m, b)))
    && SpareClear(m, b)
  }

  /** The bits of the reserved bytes that stand for no slot are never set. */
  ghost predicate SpareClear(m: Mem, b: int) {
    forall i :: Cap(Power(m, b)) <= i < 8 * Reserved(Power(m, b)) ==> i !in SlotMap(m, b).Bits(m)
  }

  /** Slot i is handed out.  Only bits below Bitmap::size() count. */
  ghost predicate Taken(m: Mem, b: int, i: int) {
    0 <= i < Cap(Power(m, b)) && i in SlotMap(m, b).Bits(m)
  }

  /** Nothing in the header or the bits that count differs. */
  lemma BucketKept(m: Mem, m': Mem, b: int)
    requires IsBucket(m, b) && |m'| == |m|
    requires Same(m, m', b, b + HEADER + Reserved(Power(m, b)))
    ensures IsBucket(m', b) && Power(m', b) == Power(m, b) && Next(m', b) == Next(m, b)
    ensures forall i :: Taken(m', b, i) <==> Taken(m, b, i)
  {
    HeaderKept(m, m', b);
    ReservedBits(m, m', b);
  }

  lemma ReservedBits(m: Mem, m': Mem, b: int)
    requires SlotMap(m, b) == Bitmap(b + HEADER, Cap(Power(m, b)))
    requires Same(m, m', b + HEADER, b + HEADER + Reserved(Power(m, b)))
    ensures forall i :: 0 <= i < 8 * Reserved(Power(m, b)) ==>
              (i in SlotMap(m, b).Bits(m') <==> i in SlotMap(m, b).Bits(m))
  {
    var bm := SlotMap(m, b);
    forall i | 0 <= i < 8 * Reserved(Power(m, b)) ensures bm.Has(m', i) == bm.Has(m, i) {
      assert b + HEADER <= b + HEADER + i / 8 < b + HEADER + Reserved(Power(m, b));
    }
  }

  // -------- the list --------

  function At(list: seq<int>, i: nat): int {
    if i < |list| then list[i] else 0
  }

  ghost predicate Chain(m: Mem, head: int, list: seq<int>) {
    && head == At(list, 0)
    && forall i :: 0 <= i < |list| ==> Next(m, list[i]) == At(list, i + 1)
  }

  ghost predicate Distinct(list: seq<int>) {
    forall i, j :: 0 <= i < j < |list| ==> list[i] != list[j]
  }

  /** Bucket b sits in a frame of its own that the PMM holds used. */
  ghost predicate Placed(m: Mem, pmm: PMM, b: int) {
    && IsBucket(m, b)
    && b == FrameBase(FrameOf(b))
    && 1 <= FrameOf(b) < pmm.nbFrames
    && FrameOf(b) in pmm.Used(m)
    && pmm.ClearOfMap(FrameOf(b))
  }

  ghost predicate ListOk(m: Mem, pmm: PMM, head: int, list: seq<int>) {
    && pmm.Valid(m)
    && Chain(m, head, list)
    && Distinct(list)
    && forall b :: b in list ==> Placed(m, pmm, b)
  }

  /** `m'` differs from `m` at most in the page at b and in the frame bitmap. */
  ghost predicate OnlyPage(m: Mem, m': Mem, pmm: PMM, b: int) {
    && |m'| == |m|
    && forall a :: !(b <= a < b + PAGE) && !(pmm.bm.ptr <= a < pmm.bm.ptr + pmm.bm.size) ==> Byte(m', a) == Byte(m, a)
  }

  /** The five words of a fresh bucket's header: next, size, power_size, and the bitmap's pointer and size. */
  ghost predicate HeaderIs(m: Mem, b: int, p: int) {
    && Word(m, b) == 0 && Word(m, b + 4) == Align(p + 20, 0x1000) && Word(m, b + 8) == p
    && Word(m, b + 12) == b + 20 && Word(m, b + 16) == Cap(p)
  }

  /** The part of allocate_bucket that fills the frame in. */
  method InitBucket(ram: array<byte>, out: nat, size: nat, newSize: nat)
    requires IsClass(size) && newSize == Align32(size + HEADER, PAGE)
    requires out % PAGE == 0 && InRam(ram.Length, out, PAGE) && out + PAGE <= TWO32
    modifies ram
    ensures SameOutside(old(ram[..]), ram[..], out, out + PAGE)
    ensures IsBucket(ram[..], out) && Power(ram[..], out) == size && Next(ram[..], out) == 0
    ensures HeaderIs(ram[..], out, size) && forall i :: !Taken(ram[..], out, i)
  {
    BucketSizes(size);
    var slots := BitmapSize(newSize, size);
    var bitmap := Bitmap.Make(out + HEADER, slots);
    assert bitmap.size == Cap(size);
    WriteHeader(ram, out, 0, newSize, size, bitmap);
    ghost var m := ram[..];
    Memset(ram, out + HEADER, 0, (slots + 7) / 8);
    HeaderKept(m, ram[..], out);
    FreshBucket(ram[..], out, size);
  }

  lemma BucketSizes(p: nat)
    requires IsClass(p)
    ensures HEADER <= Align32(p + HEADER, PAGE) == Align(p + HEADER, PAGE) < TWO32
    ensures var slots := BitmapSize(Align(p + HEADER, PAGE), p); slots >= 1 && (slots + 7) / 8 == Cap(p)
  {
    if !IsSmall(p) {
      OnePageBlocks(p / PAGE);
    }
  }

  lemma FramePointer(k: nat)
    requires PAGE * k < WINDOW
    ensures P2V(PAGE * k) == FrameBase(k) && FrameOf(FrameBase(k)) == k
  {
  }

  lemma KernelPointer(k: nat)
    requires PAGE * k < WINDOW
    ensures V2P(FrameBase(k)) / PAGE == k
  {
  }

  method WriteHeader(ram: array<byte>, b: nat, next: nat, size: nat, power: nat, bitmap: Bitmap)
    requires InRam(ram.Length, b, HEADER)
    requires next < TWO32 && size < TWO32 && power < TWO32 && 0 <= bitmap.ptr < TWO32 && bitmap.size < TWO32
    modifies ram
    ensures SameOutside(old(ram[..]), ram[..], b, b + HEADER)
    ensures Next(ram[..], b) == next && Word(ram[..], b + 4) == size && Power(ram[..], b) == power
    ensures SlotMap(ram[..], b) == bitmap
  {
    Store32(ram, b + 8, power);
    Store32(ram, b + 4, size);
    Store32(ram, b, next);
    Store32(ram, b + 12, bitmap.ptr);
    Store32(ram, b + 16, bitmap.size);
  }

  lemma HeaderKept(m: Mem, m': Mem, b: int)
    requires Same(m, m', b, b + HEADER)
    ensures Next(m', b) == Next(m, b) && Word(m', b + 4) == Word(m, b + 4)
    ensures Power(m', b) == Power(m, b) && SlotMap(m', b) == SlotMap(m, b)
  {
  }

  /** The buffer of frame k as a bucket.  When no frame is free it is frame 0: P2V of a null frame
      is not null, so the test against nullptr in allocate_bucket never fires. */
  method AllocateBucket(ram: array<byte>, pmm: PMM, size: nat) returns (out: nat)
    requires pmm.Valid(ram[..]) && IsClass(size)
    requires pmm.Free(ram[..]) != {} || (pmm.nbFrames > 0 && pmm.ClearOfMap(0))
    modifies ram
    ensures pmm.Valid(ram[..]) && OnlyPage(old(ram[..]), ram[..], pmm, out)
    ensures out == FrameBase(FrameOf(out)) && out != 0
    ensures if pmm.Free(old(ram[..])) == {} then
              FrameOf(out) == 0 && pmm.Used(ram[..]) == pmm.Used(old(ram[..]))
            else
              && FrameOf(out) in pmm.Free(old(ram[..]))
              && (forall j :: j in pmm.Free(old(ram[..])) ==> FrameOf(out) <= j)
              && pmm.Used(ram[..]) == pmm.Used(old(ram[..])) + {FrameOf(out)}
    ensures IsBucket(ram[..], out) && Power(ram[..], out) == size && Next(ram[..], out) == 0
    ensures HeaderIs(ram[..], out, size) && forall i :: !Taken(ram[..], out, i)
  {
    hide IsBucket, Taken, Bitmap.Bits, Word, Byte, IsClass;
    var newSize := Align32(size + HEADER, PAGE);
    var frame := pmm.AllocateFrame(ram);
    FramePointer(frame / PAGE);
    out := P2V(frame);
    if out == 0 {
      assert false;
    }
    ghost var m := ram[..];
    InitBucket(ram, out, size, newSize);
    pmm.Frame(m, ram[..]);
  }

  lemma FreshBucket(m: Mem, b: int, p: int)
    requires forall a :: b + HEADER <= a < b + HEADER + Cap(p) ==> Byte(m, a) == 0
    requires SlotMap(m, b) == Bitmap(b + HEADER, Cap(p))
    ensures SlotMap(m, b).Bits(m) == {}
  {
    forall i | 0 <= i < 8 * Cap(p) ensures !SlotMap(m, b).Has(m, i) {
      ZeroHasNoDigit(i % 8);
      assert Byte(m, b + HEADER + i / 8) == 0;
    }
  }

  /** A bucket outside the page at b survives a change confined to that page and the frame bitmap. */
  lemma PlacedKept(m: Mem, m': Mem, pmm: PMM, b: int, c: int)
    requires Placed(m, pmm, c) && OnlyPage(m, m', pmm, b)
    requires b == FrameBase(FrameOf(b)) && b != c && FrameOf(c) in pmm.Used(m')
    ensures Placed(m', pmm, c) && Same(m, m', c, c + PAGE)
    ensures Power(m', c) == Power(m, c) && Next(m', c) == Next(m, c)
    ensures forall i :: Taken(m', c, i) <==> Taken(m, c, i)
  {
    hide FrameOf, Word, Byte;
    PagesApart(b, c);
    assert Same(m, m', c, c + PAGE);
    assert Reserved(Power(m, c)) <= 4;
    BucketKept(m, m', c);
  }

  /** push_bucket: the fresh bucket becomes the head; every other bucket keeps its state. */
  method PushBucket(ram: array<byte>, pmm: PMM, head: nat, ghost list: seq<int>, size: nat) returns (r: int, head': nat)
    requires ListOk(ram[..], pmm, head, list) && IsClass(size)
    requires pmm.Free(ram[..]) != {}
    modifies ram
    ensures r == 1 && ListOk(ram[..], pmm, head', [head'] + list) && OnlyPage(old(ram[..]), ram[..], pmm, head')
    ensures FrameOf(head') in pmm.Free(old(ram[..])) && forall j :: j in pmm.Free(old(ram[..])) ==> FrameOf(head') <= j
    ensures pmm.Used(ram[..]) == pmm.Used(old(ram[..])) + {FrameOf(head')}
    ensures Power(ram[..], head') == size && forall i :: !Taken(ram[..], head', i)
    ensures forall c :: c in list ==> Power(ram[..], c) == Power(old(ram[..]), c)
    ensures forall c, i :: c in list ==> (Taken(ram[..], c, i) <==> Taken(old(ram[..]), c, i))
  {
    ghost var m := ram[..];
    var bucket := AllocateBucket(ram, pmm, size);
    if bucket == 0 {
      assert false;
    }
    ghost var m1 := ram[..];
    HeadRange(m, pmm, head, list);
    Store32(ram, bucket, head);
    head' := bucket;
    r := 1;
    ListPushed(m, m1, ram[..], pmm, head, list, bucket);
  }

  lemma HeadRange(m: Mem, pmm: PMM, head: int, list: seq<int>)
    requires ListOk(m, pmm, head, list)
    ensures 0 <= head < TWO32
  {
    if list != [] {
      assert Placed(m, pmm, list[0]);
    }
  }

  lemma ListPushed(m: Mem, m1: Mem, m': Mem, pmm: PMM, head: nat, list: seq<int>, b: int)
    requires ListOk(m, pmm, head, list) && pmm.Valid(m1)
    requires FrameOf(b) in pmm.Free(m) && b == FrameBase(FrameOf(b))
    requires pmm.Used(m1) == pmm.Used(m) + {FrameOf(b)}
    requires OnlyPage(m, m1, pmm, b) && SameOutside(m1, m', b, b + 4)
    requires IsBucket(m1, b) && Next(m', b) == head && forall i :: !Taken(m1, b, i)
    ensures ListOk(m', pmm, b, [b] + list) && OnlyPage(m, m', pmm, b)
    ensures pmm.Used(m') == pmm.Used(m1)
    ensures Power(m', b) == Power(m1, b) && forall i :: !Taken(m', b, i)
    ensures forall c :: c in list ==> Power(m', c) == Power(m, c)
    ensures forall c, i :: c in list ==> (Taken(m', c, i) <==> Taken(m, c, i))
  {
    hide Word, Byte, FrameOf, IsBucket, Taken, Bitmap.Bits;
    pmm.Frame(m1, m');
    BucketWithNext(m1, m', b);
    forall c | c in list
      ensures c != b && Placed(m', pmm, c) && Power(m', c) == Power(m, c) && Next(m', c) == Next(m, c)
      ensures forall i :: Taken(m', c, i) <==> Taken(m, c, i)
    {
      assert Placed(m, pmm, c);
      PlacedKept(m, m', pmm, b, c);
    }
    ChainPushed(m, m', head, list, b);
  }

  lemma BucketWithNext(m: Mem, m': Mem, b: int)
    requires IsBucket(m, b) && |m'| == |m| && Same(m, m', b + 4, b + PAGE)
    ensures IsBucket(m', b) && Power(m', b) == Power(m, b)
    ensures forall i :: Taken(m', b, i) <==> Taken(m, b, i)
  {
    WordSame(m, m', b + 4);
    WordSame(m, m', b + 8);
    WordSame(m, m', b + 12);
    WordSame(m, m', b + 16);
    ReservedBits(m, m', b);
  }

  lemma ChainPushed(m: Mem, m': Mem, head: int, list: seq<int>, b: int)
    requires Chain(m, head, list) && Next(m', b) == head
    requires forall c :: c in list ==> Next(m', c) == Next(m, c)
    ensures Chain(m', b, [b] + list)
  {
  }

  function Without(list: seq<int>, k: nat): seq<int>
    requires k < |list|
  {
    list[..k] + list[k + 1..]
  }

  /** `m'` differs from `m` at most in the word at b and in the frame bitmap. */
  ghost predicate OnlyLink(m: Mem, m': Mem, pmm: PMM, b: int) {
    && |m'| == |m|
    && forall a :: !(b <= a < b + 4) && !(pmm.bm.ptr <= a < pmm.bm.ptr + pmm.bm.size) ==> Byte(m', a) == Byte(m, a)
  }

  /** A bucket whose `next` word may have changed keeps everything else. */
  lemma PlacedRelinked(m: Mem, m': Mem, pmm: PMM, b: int, c: int)
    requires Placed(m, pmm, c) && OnlyLink(m, m', pmm, b) && FrameOf(c) in pmm.Used(m')
    requires b == FrameBase(FrameOf(b))
    ensures Placed(m', pmm, c) && Power(m', c) == Power(m, c)
    ensures c != b ==> Next(m', c) == Next(m, c)
    ensures forall i :: Taken(m', c, i) <==> Taken(m, c, i)
  {
    hide FrameOf, Word, Byte;
    if c != b {
      PagesApart(b, c);
      WordSame(m, m', c);
    }
    BucketWithNext(m, m', c);
  }

  lemma ListRemoved(m: Mem, m': Mem, pmm: PMM, head: int, head': int, list: seq<int>, k: nat)
    requires ListOk(m, pmm, head, list) && k < |list| && pmm.Valid(m')
    requires pmm.Used(m') == pmm.Used(m) - {FrameOf(list[k])}
    requires OnlyLink(m, m', pmm, Before(list, k))
    requires k > 0 ==> head' == head && Next(m', list[k - 1]) == At(list, k + 1)
    requires k == 0 ==> head' == At(list, 1)
    ensures ListOk(m', pmm, head', Without(list, k))
    ensures forall c :: c in Without(list, k) ==> Power(m', c) == Power(m, c)
    ensures forall c, i :: c in Without(list, k) ==> (Taken(m', c, i) <==> Taken(m, c, i))
  {
    var b := Before(list, k);
    BeforeIsPage(m, pmm, head, list, k);
    WithoutIs(list, k);
    forall c | c in list && c != list[k]
      ensures Placed(m', pmm, c) && Power(m', c) == Power(m, c) && (c != b ==> Next(m', c) == Next(m, c))
      ensures forall i :: Taken(m', c, i) <==> Taken(m, c, i)
    {
      FramesApart(m, pmm, head, list, c, list[k]);
      PlacedRelinked(m, m', pmm, b, c);
    }
    ChainRemoved(m', head', list, k);
  }

  /** The bucket whose link leads to list[k], or null. */
  function Before(list: seq<int>, k: nat): int
    requires k <= |list|
  {
    if k > 0 then list[k - 1] else 0
  }

  lemma BeforeIsPage(m: Mem, pmm: PMM, head: int, list: seq<int>, k: nat)
    requires ListOk(m, pmm, head, list) && k <= |list|
    ensures Before(list, k) == FrameBase(FrameOf(Before(list, k)))
  {
    if k > 0 {
      assert Placed(m, pmm, list[k - 1]);
    } else {
      assert FrameOf(0) == -0xC_0000;
    }
  }

  /** Buckets of one list sit in different frames. */
  lemma FramesApart(m: Mem, pmm: PMM, head: int, list: seq<int>, b: int, c: int)
    requires ListOk(m, pmm, head, list) && b in list && c in list && b != c
    ensures Placed(m, pmm, b) && FrameOf(b) != FrameOf(c)
  {
    assert Placed(m, pmm, b) && Placed(m, pmm, c);
  }

  lemma WithoutIs(list: seq<int>, k: nat)
    requires k < |list| && Distinct(list)
    ensures Distinct(Without(list, k))
    ensures forall c :: c in Without(list, k) <==> c in list && c != list[k]
  {
  }

  lemma ChainRemoved(m': Mem, head': int, list: seq<int>, k: nat)
    requires k < |list|
    requires head' == if k > 0 then list[0] else At(list, 1)
    requires forall j :: 0 <= j < |list| && j != k && j != k - 1 ==> Next(m', list[j]) == At(list, j + 1)
    requires k > 0 ==> Next(m', list[k - 1]) == At(list, k + 1)
    ensures Chain(m', head', Without(list, k))
  {
  }

  /** remove_bucket: the list loses exactly that bucket and keeps its order, and its frame is released. */
  method RemoveBucket(ram: array<byte>, pmm: PMM, head: nat, ghost list: seq<int>, remove: nat, ghost k: nat)
    returns (head': nat)
    requires ListOk(ram[..], pmm, head, list)
    requires k < |list| && list[k] == remove
    modifies ram
    ensures ListOk(ram[..], pmm, head', Without(list, k))
    ensures pmm.Used(ram[..]) == pmm.Used(old(ram[..])) - {FrameOf(remove)}
    ensures OnlyLink(old(ram[..]), ram[..], pmm, Before(list, k))
    ensures forall c :: c in Without(list, k) ==> Power(ram[..], c) == Power(old(ram[..]), c)
    ensures forall c, i :: c in Without(list, k) ==> (Taken(ram[..], c, i) <==> Taken(old(ram[..]), c, i))
  {
    ghost var m := ram[..];
    head' := head;
    ListBounds(m, pmm, head, list, k);
    if head == remove {
      head' := LoadNext(ram, head);
    }
    var current, prev := Seek(ram, pmm, head, list, remove, k);
    if prev != 0 {
      ListBounds(m, pmm, head, list, k - 1);
      Store32(ram, prev, if current != 0 then LoadNext(ram, current) else 0);
    }
    ghost var m1 := ram[..];
    Unlinked(m, m1, pmm, head, list, k);
    FreeBucket(ram, pmm, remove);
    if k > 0 {
      WordSame(m1, ram[..], list[k - 1]);
    }
    ListRemoved(m, ram[..], pmm, head, head', list, k);
  }

  lemma ListBounds(m: Mem, pmm: PMM, head: int, list: seq<int>, k: nat)
    requires ListOk(m, pmm, head, list) && k < |list|
    ensures KERNEL <= list[k] < list[k] + PAGE <= KERNEL + |m| <= TWO32
    ensures Next(m, list[k]) == At(list, k + 1)
    ensures head == list[0] && (head == list[k] <==> k == 0)
  {
    assert Placed(m, pmm, list[k]);
  }

  lemma EndOfList(m: Mem, pmm: PMM, head: int, list: seq<int>, n: nat)
    requires ListOk(m, pmm, head, list) && n <= |list| && At(list, n) == 0
    ensures n == |list|
  {
    if n < |list| {
      ListBounds(m, pmm, head, list, n);
    }
  }

  lemma Unlinked(m: Mem, m': Mem, pmm: PMM, head: int, list: seq<int>, k: nat)
    requires ListOk(m, pmm, head, list) && k < |list|
    requires if k > 0 then SameOutside(m, m', list[k - 1], list[k - 1] + 4) else m' == m
    ensures pmm.Valid(m') && pmm.Used(m') == pmm.Used(m) && Placed(m', pmm, list[k])
    ensures k > 0 ==> pmm.ClearOfMap(FrameOf(list[k - 1])) && list[k - 1] == FrameBase(FrameOf(list[k - 1]))
  {
    assert Placed(m, pmm, list[k]);
    if k > 0 {
      assert Placed(m, pmm, list[k - 1]);
      pmm.Frame(m, m');
      PlacedRelinked(m, m', pmm, list[k - 1], list[k]);
    }
  }

  /** The search loop of remove_bucket. */
  method Seek(ram: array<byte>, pmm: PMM, head: nat, ghost list: seq<int>, remove: nat, ghost k: nat)
    returns (current: nat, prev: nat)
    requires ListOk(ram[..], pmm, head, list)
    requires k < |list| && list[k] == remove
    ensures current == remove && prev == Before(list, k)
  {
    current, prev := head, 0;
    ghost var n := 0;
    while current != 0 && current != remove
      invariant 0 <= n <= k && current == list[n]
      invariant prev == Before(list, n)
      decreases k - n
    {
      ListBounds(ram[..], pmm, head, list, n);
      prev := current;
      current := LoadNext(ram, current);
      n := n + 1;
    }
    ListBounds(ram[..], pmm, head, list, n);
  }

  method FreeBucket(ram: array<byte>, pmm: PMM, b: nat)
    requires pmm.Valid(ram[..]) && Placed(ram[..], pmm, b)
    modifies ram
    ensures pmm.Valid(ram[..]) && pmm.OnlyMap(old(ram[..]), ram[..])
    ensures pmm.Used(ram[..]) == pmm.Used(old(ram[..])) - {FrameOf(b)}
  {
    KernelPointer(FrameOf(b));
    pmm.FreeFrame(ram, b);
  }
}
