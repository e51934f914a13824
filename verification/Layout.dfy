/** Where a bucket keeps its header, its bitmap and its slots inside one frame:
    src/vmm/kmalloc_utils.cpp, with the i686 sizes sizeof(Bucket) == 20 and sizeof(long double) == 12. */
module Layout {
  import opened Memory
  import opened Bitmaps

  const HEADER: int := 20     // sizeof(Bucket)
  const ALIGNMENT: int := 12  // sizeof(long double)
  const HIGHEST: int := 0x8000_0000
  const FRAME_ROOM: int := 4064  // what fits behind the header and one bitmap byte, wherever the alignment puts it

  // -------- compute_power --------

  /** The value the doubling loop stops at, on unbounded integers. */
  function Climb(out: nat, bytes: nat): (p: nat)
    requires out > 0
    ensures p >= bytes && p >= out
    decreases bytes - out
  {
    if out >= bytes then out else Climb(2 * out, bytes)
  }

  /** The size class of a request. */
  function ClassOf(bytes: nat): nat {
    Climb(16, bytes)
  }

  /** The loop variable after n iterations, shifting left in 32 bits. */
  function Shifted(n: nat): nat {
    if n == 0 then 16 else 2 * Shifted(n - 1) % TWO32
  }

  /** Every request gets one of the classes, and small requests get small ones. */
  lemma {:induction false} RequestClass(out: nat, bytes: nat)
    requires IsSmall(out) || (out >= PAGE && out % PAGE == 0)
    ensures var p := Climb(out, bytes); IsSmall(p) || (p >= PAGE && p % PAGE == 0)
    ensures IsSmall(out) && bytes <= 2048 ==> IsSmall(Climb(out, bytes))
    decreases bytes - out
  {
    if out < bytes {
      RequestClass(2 * out, bytes);
    }
  }

  lemma ClassIs(bytes: nat)
    ensures ClassOf(bytes) <= HIGHEST ==> IsClass(ClassOf(bytes))
    ensures IsSmall(ClassOf(bytes)) <==> bytes <= 2048
  {
    RequestClass(16, bytes);
  }

  lemma ClassOfRecord()
    ensures ClassOf(72) == 128
  {
  }

  lemma {:induction false} Exp2Add(a: nat, b: nat)
    ensures Exp2(a + b) == Exp2(a) * Exp2(b)
  {
    if a > 0 {
      Exp2Add(a - 1, b);
    }
  }

  lemma HighestIs()
    ensures Exp2(31) == HIGHEST
  {
    assert Exp2(8) == 256;
    Exp2Add(8, 8);
    Exp2Add(8, 16);
    Exp2Add(24, 7);
  }

  lemma PowerBelow(k: nat)
    requires k < 31
    ensures Exp2(k + 1) == 2 * Exp2(k) <= HIGHEST && Exp2(31) == HIGHEST && Exp2(4) == 16
  {
    HighestIs();
    Exp2Grows(k + 1, 31);
    assert Exp2(4) == 16;
  }

  lemma DoubledInWord(x: nat)
    ensures 2 * x < TWO32 ==> 2 * x % TWO32 == 2 * x
    ensures x == HIGHEST || x == 0 ==> 2 * x % TWO32 == 0
  {
  }

  lemma {:induction false} ShiftedIs(n: nat)
    ensures n < 28 ==> Shifted(n) == Exp2(n + 4) <= HIGHEST
    ensures n >= 28 ==> Shifted(n) == 0
  {
    hide Exp2;
    if n == 0 {
      PowerBelow(0);
    } else {
      ShiftedIs(n - 1);
      PowerBelow(if n < 28 then n + 3 else 30);
      DoubledInWord(Shifted(n - 1));
    }
  }

  lemma {:induction false} Exp2Grows(i: nat, j: nat)
    ensures i <= j ==> Exp2(i) <= Exp2(j)
    ensures i < j ==> 2 * Exp2(i) <= Exp2(j)
    decreases j
  {
    if i < j {
      Exp2Grows(i, j - 1);
    }
  }

  /** compute_power stops exactly for requests of at most 2 GiB: beyond that the variable shifts out to 0. */
  lemma ComputePowerStopsExactlyWhen(bytes: nat)
    ensures (exists n :: Shifted(n) >= bytes) <==> bytes <= HIGHEST
  {
    ShiftedIs(27);
    HighestIs();
    if exists n :: Shifted(n) >= bytes {
      var n :| Shifted(n) >= bytes;
      ShiftedIs(n);
    } else {
      assert Shifted(27) < bytes;
    }
  }

  /** Least power of two that is at least 16 and at least `bytes`. */
  method ComputePower(bytes: nat) returns (out: nat)
    requires bytes <= HIGHEST
    ensures out == ClassOf(bytes)
    ensures 16 <= out <= HIGHEST && bytes <= out
    ensures exists k: nat :: out == Exp2(k)
    ensures out == 16 || out < 2 * bytes
  {
    out := 16;
    ghost var k: nat := 4;
    assert Exp2(4) == 16;
    HighestIs();
    while out < bytes
      invariant 4 <= k <= 31 && out == Exp2(k) && 16 <= out <= HIGHEST
      invariant Climb(out, bytes) == ClassOf(bytes)
      invariant out == 16 || out < 2 * bytes
      decreases bytes - out
    {
      Exp2Grows(k, 31);
      out := 2 * out % TWO32;
      k := k + 1;
    }
  }

  // -------- align, page_begin, bitmap_size --------

  function Align(size: int, align: int): int
    requires align > 0
  {
    if size % align == 0 then size else size + (align - size % align)
  }

  /** align as computed: the sum is formed in 64 bits and returned in 32. */
  function Align32(size: int, align: int): nat
    requires align > 0
  {
    Align(size, align) % TWO32
  }

  /** align gives the least multiple not below `size` if and only if that multiple is a 32-bit number;
      otherwise it gives less than `size`. */
  lemma AlignIsLeastMultiple(size: nat, align: nat, x: nat)
    requires 0 < align < TWO32 && size < TWO32
    ensures Align(size, align) % align == 0
    ensures x % align == 0 ==> (size <= x <==> Align(size, align) <= x)
    ensures if Align(size, align) < TWO32 then Align32(size, align) == Align(size, align)
            else Align32(size, align) < size
  {
    hide Align32, Align;
    AlignWraps(size, align);
    AlignFactor(size, align);
    if x % align == 0 {
      var a, q, y := Align(size, align), Align(size, align) / align, x / align;
      assert a == q * align && x == y * align;
      MultipleGap(align, q - 1, y);
      MultipleGap(align, q, y);
    }
  }

  lemma AlignFactor(size: nat, align: nat)
    requires align > 0
    ensures Align(size, align) % align == 0 && size <= Align(size, align) < size + align
  {
    var q, r := size / align, size % align;
    assert size == q * align + r;
    if r != 0 {
      ModUnique(size + (align - r), align, q + 1, 0);
    }
  }

  lemma AlignWraps(size: nat, align: nat)
    requires 0 < align < TWO32 && size < TWO32
    ensures if Align(size, align) < TWO32 then Align32(size, align) == Align(size, align)
            else Align32(size, align) < size
  {
    assert size <= Align(size, align) < size + align;
  }

  lemma MultipleGap(d: nat, q: int, y: int)
    ensures if y <= q then y * d <= q * d else (q + 1) * d <= y * d
  {
    if y <= q {
      assert (q - y) * d >= 0;
    } else {
      assert (y - q - 1) * d >= 0;
    }
  }

  /** p - (p & 0xFFF) */
  function PageBegin(a: int): int {
    a - a % PAGE
  }

  function BitmapSize(size: int, power: int): nat
    requires HEADER <= size && power > 0
  {
    var slots := (size - HEADER) / power;
    if slots == 0 then 1 else slots
  }

  /** Bitmap::size() of a fresh bucket of class p, as allocate_bucket computes it. */
  function FreshBitmapSize(p: nat): nat
    requires p > 0
  {
    Bitmap.Make(0, BitmapSize(Align(p + HEADER, PAGE), p)).size
  }

  // -------- the slots of one bucket --------

  /** The classes whose blocks fit the one frame a bucket gets. */
  predicate IsSmall(p: int) {
    p == 16 || p == 32 || p == 64 || p == 128 || p == 256 || p == 512 || p == 1024 || p == 2048
  }

  /** Any power_size: the larger ones are multiples of a page. */
  predicate IsClass(p: int) {
    IsSmall(p) || (PAGE <= p <= HIGHEST && p % PAGE == 0)
  }

  /** How much of a block of class p at q lies in the bucket's frame. */
  function Room(q: int, p: int): int {
    if q % PAGE + p <= PAGE then p else PAGE - q % PAGE
  }

  /** All of a small block, and at least 4064 bytes of a larger one. */
  predicate RoomOk(q: int, p: int) {
    if IsSmall(p) then Room(q, p) == p else FRAME_ROOM <= Room(q, p) < PAGE
  }

  /** Bitmap::size() by class: bytes of bitmap, and also the number of slots ever used. */
  function Cap(p: int): nat {
    if p == 16 then 32 else if p == 32 then 16 else if p == 64 then 8
    else if p == 128 then 4 else if p == 256 then 2 else 1
  }

  lemma CapIsFreshBitmapSize(k: nat)
    requires 4 <= k <= 31
    ensures FreshBitmapSize(Exp2(k)) == Cap(Exp2(k))
  {
    if k >= 12 {
      BigClass(k);
    } else {
      SmallClass(k);
    }
  }

  lemma SmallClass(k: nat)
    requires 4 <= k < 12
    ensures IsSmall(Exp2(k))
    ensures Align(Exp2(k) + HEADER, PAGE) == PAGE
    ensures FreshBitmapSize(Exp2(k)) == Cap(Exp2(k))
  {
    assert Exp2(4) == 16 && Exp2(5) == 32 && Exp2(6) == 64 && Exp2(7) == 128;
    assert Exp2(8) == 256 && Exp2(9) == 512 && Exp2(10) == 1024 && Exp2(11) == 2048;
    if k == 4 { } else if k == 5 { } else if k == 6 { } else if k == 7 { }
    else if k == 8 { } else if k == 9 { } else if k == 10 { } else { assert k == 11; }
  }

  lemma BigClass(k: nat)
    requires 12 <= k <= 31
    ensures FreshBitmapSize(Exp2(k)) == 1 && IsClass(Exp2(k)) && !IsSmall(Exp2(k))
  {
    hide Exp2, FreshBitmapSize;
    Exp2Shift(k);
    OnePageBlocks(Exp2(k - 12));
    HighestIs();
    Exp2Grows(k, 31);
  }

  lemma OnePageBlocks(n: nat)
    requires n >= 1
    ensures Align(PAGE * n + HEADER, PAGE) == PAGE * n + PAGE
    ensures FreshBitmapSize(PAGE * n) == 1
    ensures BitmapSize(PAGE * n + PAGE, PAGE * n) == 1
  {
    var p := PAGE * n;
    assert (p + HEADER) % PAGE == HEADER;
    ModUnique(p + PAGE - HEADER, p, 1, PAGE - HEADER);
  }

  lemma Exp2Shift(k: nat)
    requires 12 <= k
    ensures Exp2(k) == PAGE * Exp2(k - 12)
  {
    Exp2Add(12, k - 12);
    assert Exp2(8) == 256;
  }

  /** Bytes kept before the first slot for the bitmap: enough for bits 0..Cap-1, fewer than Bitmap::size(). */
  function Reserved(p: int): nat {
    (Cap(p) + 7) / 8
  }

  /** bitmap_offset(b, i) */
  function Slot(b: int, p: int, i: int): int {
    Align(b + HEADER + Reserved(p), ALIGNMENT) + i * p
  }

  /** The bit free() clears for `ptr`. */
  function FreeIndex(b: int, p: int, ptr: int): int
    requires p > 0
  {
    (ptr - (b + HEADER) + Cap(p)) / p
  }

  /** A slot starts in the bucket's frame, after the header and the reserved bitmap bytes, and page_begin finds
      the bucket again.  Small blocks lie in the frame as a whole, larger ones with their first 4064 bytes. */
  lemma SlotInFrame(b: int, p: int, i: int)
    requires b % PAGE == 0 && IsClass(p) && 0 <= i < Cap(p)
    ensures var q := Slot(b, p, i);
            b + HEADER + Reserved(p) <= q && q + Room(q, p) <= b + PAGE && PageBegin(q) == b && RoomOk(q, p)
  {
    assert 0 <= Slot(b, p, i) - i * p - (b + HEADER + Reserved(p)) <= 11;
    if IsSmall(p) {
      assert i * p <= 496;
    }
    ModUnique(Slot(b, p, i), PAGE, b / PAGE, Slot(b, p, i) - b);
  }

  /** Slot 0 is at the least multiple of 12, the alignment of long double, not below the header of 20 bytes and the
      reserved bytes; the others follow at distances of the class. */
  lemma SlotIsAligned(b: nat, p: nat, i: nat, x: int)
    ensures Slot(b, p, 0) % 12 == 0 && b + 20 + Reserved(p) <= Slot(b, p, 0)
    ensures x % 12 == 0 && b + 20 + Reserved(p) <= x ==> Slot(b, p, 0) <= x
    ensures Slot(b, p, i) == Slot(b, p, 0) + i * p
  {
    hide Reserved;
    AlignFactor(b + HEADER + Reserved(p), 12);
  }

  /** 4064 bytes are what every block is sure to have, and no more. */
  lemma LeastRoom(b: int, p: int, i: int)
    requires b % PAGE == 0 && IsClass(p) && 0 <= i < Cap(p)
    ensures p >= 4064 ==> 4064 <= Room(Slot(b, p, i), p)
    ensures Room(Slot(KERNEL + 0x1000, 4096, 0), 4096) == 4064
  {
    hide Slot, Room;
    SlotInFrame(b, p, i);
    assert Room(Slot(KERNEL + 0x1000, 4096, 0), 4096) == 4064 by {
      TightRoom();
    }
  }

  lemma TightRoom()
    ensures Room(Slot(KERNEL + 0x1000, 4096, 0), 4096) == 4064
  {
  }

  /** Different slots of one bucket do not overlap. */
  lemma SlotsDisjoint(b: int, p: int, i: int, j: int)
    requires 0 <= p && i < j
    ensures Slot(b, p, i) + p <= Slot(b, p, j)
  {
    assert (j - i - 1) * p >= 0;
  }

  /** free() inverts the slot choice of malloc() in every class but the smallest, where it is off by two. */
  lemma FreeIndexExactlyWhen(b: nat, k: nat, i: nat)
    requires b % PAGE == 0 && 4 <= k <= 31 && i < Cap(Exp2(k))
    ensures FreeIndex(b, Exp2(k), Slot(b, Exp2(k), i)) == i <==> Exp2(k) > 16
    ensures Exp2(k) == 16 ==> FreeIndex(b, Exp2(k), Slot(b, Exp2(k), i)) == i + 2
  {
    hide Exp2, Slot, FreeIndex;
    if k >= 12 {
      BigClass(k);
    } else {
      SmallClass(k);
    }
    FreeIndexIs(b, Exp2(k), i);
  }

  lemma FreeIndexIs(b: nat, p: int, i: nat)
    requires IsClass(p) && i < Cap(p)
    ensures FreeIndex(b, p, Slot(b, p, i)) == if p == 16 then i + 2 else i
  {
    hide Slot;
    SlotOffset(b, p, i);
    var pad := Slot(b, p, i) - i * p - b - HEADER;
    if p == 16 {
      ModUnique(pad + i * p + Cap(p), p, i + 2, pad);
    } else {
      ModUnique(pad + i * p + Cap(p), p, i, pad + Cap(p));
    }
  }

  lemma SlotOffset(b: int, p: int, i: int)
    ensures 0 <= Slot(b, p, i) - i * p - b - HEADER <= 15
  {
  }

  /** A block of a class of a page or more does not fit the single frame its bucket gets; every other does. */
  lemma BlockFitsExactlyWhen(b: nat, k: nat)
    requires b % PAGE == 0 && 4 <= k <= 31
    ensures Slot(b, Exp2(k), 0) + Exp2(k) <= b + PAGE <==> k < 12
  {
    if k >= 12 {
      BigClass(k);
    } else {
      SmallClass(k);
      SlotInFrame(b, Exp2(k), 0);
    }
  }
}
