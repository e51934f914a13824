/** kmalloc (src/vmm/kmalloc.cpp): the allocator over the bucket list.
    Its abstract value is a finite map from block pointers to what the blocks hold. */
module Kmallocs {
  import opened Memory
  import opened Bitmaps
  import opened Frames
  import opened Layout
  import opened Buckets
  import opened Heaps

  // -------- what each call does, from one moment of the heap to the next --------

  /** The memory, the bucket list and the blocks handed out. */
  datatype Moment = Moment(m: Mem, head: int, list: seq<int>, live: set<int>)

  ghost predicate MomentOk(s: Moment, pmm: PMM) {
    HeapOk(s.m, pmm, s.head, s.list, s.live)
  }

  /** Some bucket has a slot for the request, or there is a frame for a new bucket. */
  ghost predicate Servable(s: Moment, pmm: PMM, size: nat) {
    pmm.Free(s.m) != {} || SomeRoom(s.m, s.list, ClassOf(size))
  }

  /** A block r of size p joined the live blocks; every other block is as before. */
  ghost predicate Taking(m: Mem, m': Mem, live: set<int>, live': set<int>, r: int, p: int) {
    && r !in live && live' == live + {r}
    && SizeOf(m', r) == p
    && Blocks(m', live') == Blocks(m, live)[r := Block(m', r)]
  }

  /** malloc: r is a new block of the class of the request, the first free slot of the first bucket with room, or
      slot 0 of a new bucket in the least free frame.  No other block and no page outside the heap changed. */
  ghost predicate MallocDone(s: Moment, s': Moment, pmm: PMM, size: nat, r: int) {
    var p := ClassOf(size);
    var b := PageBegin(r);
    && r != 0 && RoomOk(r, p) && Taking(s.m, s'.m, s.live, s'.live, r, Room(r, p))
    && (if SomeRoom(s.m, s.list, p) then s'.list == s.list && FirstFit(s.m, s.list, p, r)
        else s'.list == [b] + s.list && r == Slot(b, p, 0) && LeastFree(s.m, pmm, FrameOf(b)))
    && pmm.Used(s'.m) == pmm.Used(s.m) + {FrameOf(b)}
    && ForeignKept(s.m, s'.m, pmm, s.list, s'.list)
  }

  ghost predicate LeastFree(m: Mem, pmm: PMM, k: int) {
    k in pmm.Free(m) && forall j :: j in pmm.Free(m) ==> k <= j
  }

  /** calloc: malloc, and the block starts with n zeros. */
  ghost predicate CallocDone(s: Moment, s': Moment, pmm: PMM, n: nat, r: int) {
    MallocDone(s, s', pmm, n, r) && Zeroed(Block(s'.m, r), n)
  }

  /** free: above class 16 exactly that block is gone; in class 16 see SixteenFreed.  The bucket left the list, and its
      frame the heap, exactly when the bitmap bytes read empty, and then no live block is in it. */
  ghost predicate FreeDone(s: Moment, s': Moment, pmm: PMM, ptr: int) {
    && (ptr == 0 ==> s' == s)
    && (if ptr == 0 || ClassIn(s.m, ptr) > 16 then Dropped(s, s', ptr)
        else SixteenFreed(s.m, s'.m, s.live, s'.live, ptr))
    && Reclaimed(s.m, s'.m, pmm, s.list, s'.list, s'.live, PageBegin(ptr))
    && (ptr != 0 ==> (s'.list != s.list <==> LooksLast(s.m, ptr)))
    && ForeignKept(s.m, s'.m, pmm, s.list, s'.list)
  }

  ghost predicate Dropped(s: Moment, s': Moment, ptr: int) {
    s'.live == s.live - {ptr} && Blocks(s'.m, s'.live) == Blocks(s.m, s.live) - {ptr}
  }

  /** What free may do to the bucket at b besides giving the block back. */
  ghost predicate Reclaimed(m: Mem, m': Mem, pmm: PMM, list: seq<int>, list': seq<int>, live': set<int>, b: int) {
    if list' == list then
      pmm.Used(m') == pmm.Used(m)
    else
      && (exists k :: 0 <= k < |list| && list[k] == b && list' == Without(list, k))
      && pmm.Used(m') == pmm.Used(m) - {FrameOf(b)}
      && forall q :: q in live' ==> PageBegin(q) != b
  }

  /** realloc: free, malloc, nothing, or a move. */
  ghost predicate ReallocDone(s: Moment, s': Moment, pmm: PMM, ptr: int, size: nat, r: int) {
    if size == 0 then r == 0 && FreeDone(s, s', pmm, ptr)
    else if ptr == 0 then MallocDone(s, s', pmm, size, r)
    else if size <= ClassIn(s.m, ptr) then r == ptr && s' == s
    else MoveDone(s, s', pmm, ptr, size, r)
  }

  /** A new block with the bytes of the old one, and then the old one given back. */
  ghost predicate MoveDone(s: Moment, s': Moment, pmm: PMM, ptr: int, size: nat, r: int) {
    && RoomOk(r, ClassOf(size))
    && (ClassIn(s.m, ptr) > 16 ==>
          Moved(Blocks(s.m, s.live), Blocks(s'.m, s'.live), ptr, r, Room(r, ClassOf(size))))
    && ForeignKept(s.m, s'.m, pmm, s.list, s'.list)
    && exists s1 :: CopyDone(s, s1, pmm, ptr, size, r) && FreeDone(s1, s', pmm, ptr)
  }

  ghost predicate CopyDone(s: Moment, s': Moment, pmm: PMM, ptr: int, size: nat, r: int) {
    MallocDone(s, s', pmm, size, r) && Block(s.m, ptr) <= Block(s'.m, r)
  }

  /** The block at ptr became the block at r of size p, which starts with all its bytes; no other block changed. */
  ghost predicate Moved(before: map<int, seq<byte>>, after: map<int, seq<byte>>, ptr: int, r: int, p: int) {
    && r != 0 && ptr in before && r !in before && r in after
    && after - {r} == before - {ptr}
    && |after[r]| == p && before[ptr] <= after[r]
  }

  /** A client's store of one byte. */
  ghost predicate StoreDone(s: Moment, s': Moment, pmm: PMM, ptr: int, k: nat, x: byte)
    requires ptr in s.live && k < SizeOf(s.m, ptr)
  {
    && s' == s.(m := s'.m) && pmm.Used(s'.m) == pmm.Used(s.m)
    && Blocks(s'.m, s.live) == Blocks(s.m, s.live)[ptr := Put(Block(s.m, ptr), k, x)]
    && ForeignKept(s.m, s'.m, pmm, s.list, s.list)
  }

  class Kmalloc {
    const ram: array<byte>
    const pmm: PMM
    var buckets: nat           // head of the bucket list, 0 for null
    ghost var list: seq<int>   // the buckets in list order
    ghost var live: set<int>   // the pointers handed out and not given back

    ghost predicate Valid()
      reads this, ram
    {
      HeapOk(ram[..], pmm, buckets, list, live)
    }

    ghost function Contents(): map<int, seq<byte>>
      reads this, ram
    {
      Blocks(ram[..], live)
    }

    ghost function Now(): Moment
      reads this, ram
    {
      Moment(ram[..], buckets, list, live)
    }

    constructor (ram: array<byte>, pmm: PMM)
      requires pmm.Valid(ram[..])
      ensures Valid() && this.ram == ram && this.pmm == pmm
      ensures Contents() == map[] && list == []
    {
      this.ram := ram;
      this.pmm := pmm;
      buckets := 0;
      list := [];
      live := {};
    }

    /** First free slot of the bucket at b, or null when it has none. */
    method TakeSlot(b: nat) returns (r: nat)
      requires Valid() && b in list
      modifies this`live, ram
      ensures Valid()
      ensures var p := Power(old(ram[..]), b);
              if r == 0 then
                ram[..] == old(ram[..]) && live == old(live) && !HasRoom(old(ram[..]), b, p)
              else
                && Taking(old(ram[..]), ram[..], old(live), live, r, Room(r, p)) && RoomOk(r, p)
                && HasRoom(old(ram[..]), b, p) && FirstSlot(old(ram[..]), b, p, r) && PageBegin(r) == b
                && pmm.Used(ram[..]) == pmm.Used(old(ram[..]))
                && ForeignKept(old(ram[..]), ram[..], pmm, list, list)
    {
      hide HeapOk, IsBucket, ForeignKept, HasRoom, FirstSlot, Align32, Slot, Room, RoomOk, Cap, Word, Bitmap.Bits,
           Block;
      ghost var m := ram[..];
      BucketThere(m, pmm, buckets, list, live, b);
      var bm := LoadBitmap(ram, b);
      var i := bm.SetFirstFree(ram);
      FoundSlot(m, b, i);
      if i == -1 {
        return 0;
      }
      HeaderKept(m, ram[..], b);
      OffsetIsSlot(m, b, i);
      r := BitmapOffset(ram, b, i);
      TakeStep(m, ram[..], pmm, buckets, list, live, b, i);
      BlocksTaken(m, ram[..], live, r);
      live := live + {r};
    }

    /** Returns a block of the size class of the request that no live block overlaps, from the first
        bucket with room, or else from a new bucket in the least free frame.  From class 4096 on only a part of
        the block, at least 4064 bytes, lies in that frame: what is beyond belongs to somebody else. */
    method Malloc(size: nat) returns (r: nat)
      requires Valid() && size <= HIGHEST && Servable(Now(), pmm, size)
      modifies `buckets, `list, `live, ram
      ensures Valid() && MallocDone(old(Now()), Now(), pmm, size, r)
    {
      hide HeapOk, Taking, ForeignKept, Room, RoomOk, FirstFit, SomeRoom, FrameOf, IsSmall;
      ghost var m := ram[..];
      ClassIs(size);
      var powerTwo := ComputePower(size);
      r := MallocListed(powerTwo);
      if r == 0 {
        r := MallocFresh(powerTwo);
      } else {
        TakenBlock(m, ram[..], pmm, old(live), live, buckets, list, r, Room(r, powerTwo));
      }
    }

    /** The first half of malloc: walk the list for a bucket of the class with a free slot. */
    method MallocListed(powerTwo: nat) returns (r: nat)
      requires Valid()
      modifies `live, ram
      ensures Valid()
      ensures if !SomeRoom(old(ram[..]), list, powerTwo) then
                r == 0 && ram[..] == old(ram[..]) && live == old(live)
              else
                && r != 0 && Taking(old(ram[..]), ram[..], old(live), live, r, Room(r, powerTwo)) && RoomOk(r, powerTwo)
                && FirstFit(old(ram[..]), list, powerTwo, r)
                && PageBegin(r) in list
                && pmm.Used(ram[..]) == pmm.Used(old(ram[..]))
                && ForeignKept(old(ram[..]), ram[..], pmm, list, list)
    {
      ghost var m := ram[..];
      var current := buckets;
      ghost var n := 0;
      while current != 0
        invariant Valid() && ram[..] == m && live == old(live)
        invariant 0 <= n <= |list| && current == At(list, n)
        invariant forall c :: 0 <= c < n ==> !HasRoom(m, list[c], powerTwo)
        decreases |list| - n
      {
        ListBounds(m, pmm, buckets, list, n);
        assert ram[..] == m && current == list[n];
        var power := LoadPower(ram, current);
        if power == powerTwo {
          r := TakeSlot(current);
          if r != 0 {
            assert HasRoom(m, list[n], powerTwo) && FirstSlot(m, list[n], powerTwo, r);
            return;
          }
          assert !HasRoom(m, list[n], powerTwo);
        }
        current := LoadNext(ram, current);
        n := n + 1;
      }
      EndOfList(m, pmm, buckets, list, n);
      r := 0;
    }

    /** The second half of malloc: no bucket on the list has room. */
    method MallocFresh(powerTwo: nat) returns (r: nat)
      requires Valid() && IsClass(powerTwo) && pmm.Free(ram[..]) != {}
      modifies `buckets, `list, `live, ram
      ensures Valid() && r != 0
      ensures Taking(old(ram[..]), ram[..], old(live), live, r, Room(r, powerTwo)) && RoomOk(r, powerTwo)
      ensures list == [PageBegin(r)] + old(list) && r == Slot(PageBegin(r), powerTwo, 0)
      ensures FrameOf(PageBegin(r)) in pmm.Free(old(ram[..]))
      ensures forall k :: k in pmm.Free(old(ram[..])) ==> FrameOf(PageBegin(r)) <= k
      ensures pmm.Used(ram[..]) == pmm.Used(old(ram[..])) + {FrameOf(PageBegin(r))}
      ensures ForeignKept(old(ram[..]), ram[..], pmm, old(list), list)
    {
      hide Room, RoomOk, IsClass, Bitmap.Bits, Block, SpareClear, ForeignKept, BlockKept, Word;
      ghost var m := ram[..];
      var ok, head := Buckets.PushBucket(ram, pmm, buckets, list, powerTwo);
      if ok == -1 {
        assert false;
      }
      ghost var m1 := ram[..];
      PushStep(m, m1, pmm, buckets, list, live, head);
      BlocksSame(m, m1, live);
      buckets := head;
      list := [head] + list;
      assert !Taken(m1, head, 0) && HasRoom(m1, head, powerTwo);
      r := TakeSlot(head);
      ForeignKeptTrans(m, m1, ram[..], pmm, old(list), list, list);
    }

    /** Gives one live block back.  Its bucket leaves the list, and its frame the heap, only when
        no other live block is in it. */
    method Free(ptr: nat)
      requires Valid() && (ptr != 0 ==> ptr in live)
      modifies `buckets, `list, `live, ram
      ensures Valid() && FreeDone(old(Now()), Now(), pmm, ptr)
    {
      hide HeapOk, ListOk, LooksLast, SixteenFreed;
      ghost var m := ram[..];
      if ptr == 0 || buckets == 0 {
        NothingLive(m, pmm, buckets, list, live);
        return;
      }
      var current := ClearSlot(ptr);
      ghost var m1 := ram[..];
      BucketListed(m1, pmm, buckets, list, live, current);
      var empty := LoadBitmap(ram, current).IsEmpty(ram);
      if empty {
        ghost var k :| 0 <= k < |list| && list[k] == current;
        buckets := Buckets.RemoveBucket(ram, pmm, buckets, list, current, k);
        ReclaimStep(m, m1, ram[..], pmm, old(buckets), buckets, list, live, k);
        list := Without(list, k);
      }
    }

    /** The part of free that finds the block's bucket and clears its bit. */
    method ClearSlot(ptr: nat) returns (current: nat)
      requires Valid() && ptr in live
      modifies `live, ram
      ensures Valid()
      ensures if ClassIn(old(ram[..]), ptr) > 16 then Dropped(old(Now()), Now(), ptr)
              else SixteenFreed(old(ram[..]), ram[..], old(live), live, ptr) && !LooksLast(old(ram[..]), ptr)
      ensures current == PageBegin(ptr) && current in list
      ensures SlotMap(ram[..], current).Bits(ram[..]) == {} <==> LooksLast(old(ram[..]), ptr)
      ensures pmm.Used(ram[..]) == pmm.Used(old(ram[..]))
      ensures ForeignKept(old(ram[..]), ram[..], pmm, list, list)
    {
      hide HeapOk, LooksLast, ForeignKept, Block, Bitmap.Bits, FreeIndex, SixteenFreed;
      ghost var m := ram[..];
      FreeIndexAt(m, pmm, buckets, list, live, ptr);
      current := PageBegin(ptr);
      if current == 0 {
        assert false;
      }
      var bitmap := LoadBitmap(ram, current);
      var bitOffset := (ptr - bitmap.ptr + bitmap.size) / LoadPower(ram, current);
      var _ := bitmap.ClearBit(ram, bitOffset);
      if ClassIn(m, ptr) > 16 {
        GiveStep(m, ram[..], pmm, buckets, list, live, ptr, bitOffset);
        live := live - {ptr};
      } else {
        live := SixteenStep(m, ram[..], pmm, buckets, list, live, ptr);
      }
    }

    /** The power_size of the bucket a live block belongs to. */
    method ClassAt(ptr: nat) returns (power: int)
      requires Valid() && ptr in live
      ensures power == ClassIn(ram[..], ptr)
      ensures if power <= 2048 then SizeOf(ram[..], ptr) == power else FRAME_ROOM <= SizeOf(ram[..], ptr)
    {
      hide HeapOk, Room, RoomOk, IsClass;
      BlockBounds(ram[..], pmm, buckets, list, live, ptr);
      power := LoadPower(ram, PageBegin(ptr));
    }

    /** How many bytes of it a live block really has. */
    method SizeAt(ptr: nat) returns (size: nat)
      requires Valid() && ptr in live
      ensures size == SizeOf(ram[..], ptr)
    {
      hide HeapOk, RoomOk, IsClass;
      BlockBounds(ram[..], pmm, buckets, list, live, ptr);
      size := Room(ptr, LoadPower(ram, PageBegin(ptr)));
    }

    /** A client stores one byte into a live block. */
    method Store(ptr: nat, k: nat, x: byte)
      requires Valid() && ptr in live && k < SizeOf(ram[..], ptr)
      modifies ram
      ensures Valid() && StoreDone(old(Now()), Now(), pmm, ptr, k, x)
    {
      hide HeapOk;
      ghost var m := ram[..];
      BlockBounds(m, pmm, buckets, list, live, ptr);
      Store8(ram, ptr + k, x);
      PutStep(m, ram[..], pmm, buckets, list, live, ptr);
      BlockPut(m, ram[..], ptr, k);
    }

    /** calloc: the product is formed in 64 bits, but malloc and memset take it in 32. */
    method Calloc(nmemb: nat, size: nat) returns (out: nat)
      requires Valid() && nmemb < TWO32 && size < TWO32
      requires var n := nmemb * size % TWO32; n <= FRAME_ROOM && Servable(Now(), pmm, n)
      modifies `buckets, `list, `live, ram
      ensures Valid() && CallocDone(old(Now()), Now(), pmm, nmemb * size % TWO32, out)
    {
      hide HeapOk, Taking, ForeignKept, Block, SomeRoom, FirstFit, Zeroed, Blocks, FrameOf, Room, RoomOk, IsSmall;
      var result := nmemb * size;
      assert result >= 0;
      var n := result % TWO32;
      out := Malloc(n);
      if out == 0 {
        assert false;
      }
      ghost var m := ram[..];
      RoomFor(out, n);
      TakenBlock(old(ram[..]), m, pmm, old(live), live, buckets, list, out, Room(out, ClassOf(n)));
      Memset(ram, out, 0, n);
      PutStep(m, ram[..], pmm, buckets, list, live, out);
      TakenThenPut(old(ram[..]), m, ram[..], old(live), live, out, Room(out, ClassOf(n)));
      BlockZeroed(ram[..], out, n);
      ForeignKeptTrans(old(ram[..]), m, ram[..], pmm, old(list), list, list);
    }

    /** realloc: releases, allocates, stays in place, or moves the block with all its bytes.  Moving copies as
        many bytes as the old class says, so the old block must lie in its frame as a whole. */
    method Realloc(ptr: nat, size: nat) returns (r: nat)
      requires Valid() && size <= HIGHEST && (ptr != 0 ==> ptr in live)
      requires ptr != 0 && ClassIn(ram[..], ptr) < size ==> ClassIn(ram[..], ptr) <= 2048
      requires size > 0 && (ptr == 0 || ClassIn(ram[..], ptr) < size) ==> Servable(Now(), pmm, size)
      modifies `buckets, `list, `live, ram
      ensures Valid() && ReallocDone(old(Now()), Now(), pmm, ptr, size, r)
    {
      hide HeapOk, Taking, ForeignKept, Moved, Block, SomeRoom, Room, RoomOk, IsClass, IsSmall, FirstFit;
      if size == 0 {
        Free(ptr);
        return 0;
      }
      if ptr == 0 {
        r := Malloc(size);
        return;
      }
      BlockBounds(ram[..], pmm, buckets, list, live, ptr);
      var current := PageBegin(ptr);
      if current != 0 && size <= LoadPower(ram, current) {
        ForeignKeptRefl(ram[..], pmm, list);
        return ptr;
      }
      r := Move(ptr, size, current);
    }

    /** The part of realloc that moves a block that is too small. */
    method Move(ptr: nat, size: nat, current: nat) returns (copy: nat)
      requires Valid() && size <= HIGHEST && ptr in live && current == PageBegin(ptr)
      requires ClassIn(ram[..], ptr) <= 2048 && ClassIn(ram[..], ptr) < size && Servable(Now(), pmm, size)
      modifies `buckets, `list, `live, ram
      ensures Valid() && MoveDone(old(Now()), Now(), pmm, ptr, size, copy)
    {
      hide HeapOk, Taking, ForeignKept, Block, SomeRoom, Room, RoomOk, IsClass, IsSmall, Reclaimed, Moved, FirstFit,
           LooksLast;
      ghost var s := Now();
      ghost var m := ram[..];
      copy := MallocCopy(ptr, size, current);
      if copy == 0 {
        assert false;
      }
      ghost var m1, list1, live1 := ram[..], list, live;
      ghost var s1 := Now();
      Free(ptr);
      assert CopyDone(s, s1, pmm, ptr, size, copy) && FreeDone(s1, Now(), pmm, ptr);
      ForeignKeptTrans(m, m1, ram[..], pmm, old(list), list1, list);
      if ClassIn(m, ptr) > 16 {
        MovedBlock(m, m1, ram[..], old(live), live1, ptr, copy, Room(copy, ClassOf(size)));
      }
    }

    /** A new block that starts with the bytes of the block at ptr. */
    method MallocCopy(ptr: nat, size: nat, current: nat) returns (copy: nat)
      requires Valid() && size <= HIGHEST && ptr in live && current == PageBegin(ptr)
      requires ClassIn(ram[..], ptr) <= 2048 && ClassIn(ram[..], ptr) < size && Servable(Now(), pmm, size)
      modifies `buckets, `list, `live, ram
      ensures Valid() && copy != 0 && ptr in live && ClassIn(ram[..], ptr) == old(ClassIn(ram[..], ptr))
      ensures CopyDone(old(Now()), Now(), pmm, ptr, size, copy)
    {
      hide HeapOk, Taking, ForeignKept, Block, SomeRoom, Room, RoomOk, IsClass, IsSmall, FirstFit;
      ghost var m, live0 := ram[..], live;
      BlockBounds(m, pmm, buckets, list, live, ptr);
      copy := Malloc(size);
      ghost var m1 := ram[..];
      ghost var p := Room(copy, ClassOf(size));
      RoomFor(copy, size);
      TakenBlock(m, m1, pmm, live0, live, buckets, list, copy, p);
      TakenKeeps(m, m1, live0, live, copy, p, ptr);
      BlockBounds(m1, pmm, buckets, list, live, ptr);
      BlocksDisjoint(m1, pmm, buckets, list, live, ptr, copy);
      Memcpy(ram, copy, ptr, LoadPower(ram, current));
      PutStep(m1, ram[..], pmm, buckets, list, live, copy);
      BlockCopied(m1, ram[..], ptr, copy);
      TakenThenPut(m, m1, ram[..], live0, live, copy, p);
      TakenKeeps(m, ram[..], live0, live, copy, p, ptr);
      BlockBounds(ram[..], pmm, buckets, list, live, ptr);
      ForeignKeptTrans(m, m1, ram[..], pmm, old(list), list, list);
    }
  }

  /** Every request of at most 4064 bytes fits its block. */
  lemma RoomFor(r: int, size: nat)
    requires RoomOk(r, ClassOf(size))
    ensures size <= FRAME_ROOM ==> size <= Room(r, ClassOf(size))
    ensures if size <= 2048 then Room(r, ClassOf(size)) == ClassOf(size) else FRAME_ROOM <= Room(r, ClassOf(size))
  {
    ClassIs(size);
  }

  /** realloc leaves a block in place if and only if the new size fits its class. */
  lemma ReallocStaysExactlyWhen(s: Moment, s': Moment, pmm: PMM, ptr: int, size: nat, r: int)
    requires ReallocDone(s, s', pmm, ptr, size, r) && ptr in s.live && ptr != 0 && size > 0
    ensures r == ptr <==> size <= Power(s.m, PageBegin(ptr))
    ensures r == ptr ==> s' == s
  {
    hide FreeDone, RoomOk, Room, Moved, FirstFit, SomeRoom, ForeignKept, Blocks, Block, SizeOf;
  }

  lemma TakenBlock(m: Mem, m': Mem, pmm: PMM, live: set<int>, live': set<int>, head: int, list: seq<int>, q: int,
                   p: int)
    requires Taking(m, m', live, live', q, p) && HeapOk(m', pmm, head, list, live')
    ensures q in live' && SizeOf(m', q) == p && InRam(|m'|, q, p)
    ensures FrameOf(PageBegin(q)) in pmm.Used(m')
  {
    BlockBounds(m', pmm, head, list, live', q);
  }

  lemma TakenThenPut(m: Mem, m1: Mem, m': Mem, live: set<int>, live': set<int>, q: int, p: int)
    requires Taking(m, m1, live, live', q, p)
    requires SizeOf(m', q) == p && Blocks(m', live') == Blocks(m1, live')[q := Block(m', q)]
    ensures Taking(m, m', live, live', q, p)
  {
  }

  lemma TakenKeeps(m: Mem, m': Mem, live: set<int>, live': set<int>, r: int, p: int, q: int)
    requires Taking(m, m', live, live', r, p) && q in live
    ensures q in live' && q != r && Block(m', q) == Block(m, q) && SizeOf(m', q) == SizeOf(m, q)
  {
    assert Blocks(m', live')[q] == Blocks(m, live)[q];
    assert |Block(m', q)| == |Block(m, q)|;
  }

  lemma BlockCopied(m: Mem, m': Mem, q: int, r: int)
    requires 0 <= SizeOf(m, q) <= SizeOf(m', r)
    requires forall a :: r <= a < r + SizeOf(m, q) ==> Byte(m', a) == Byte(m, q + (a - r))
    ensures Block(m, q) <= Block(m', r)
  {
  }

  lemma MovedBlock(m: Mem, m1: Mem, m': Mem, live: set<int>, live1: set<int>, ptr: int, r: int, p: int)
    requires Taking(m, m1, live, live1, r, p) && ptr in live && r != 0
    requires Block(m, ptr) <= Block(m1, r)
    requires Blocks(m', live1 - {ptr}) == Blocks(m1, live1) - {ptr}
    ensures Moved(Blocks(m, live), Blocks(m', live1 - {ptr}), ptr, r, p)
  {
  }

  /** bitmap_offset, reading the header of the bucket at b. */
  function BitmapOffset(ram: array<byte>, b: int, i: int): (q: int)
    requires InRam(ram.Length, b, HEADER)
    reads ram
  {
    var bitmap := LoadBitmap(ram, b);
    Align32(bitmap.ptr + (bitmap.size + 7) / 8, ALIGNMENT) + i * LoadPower(ram, b)
  }

  lemma BucketThere(m: Mem, pmm: PMM, head: int, list: seq<int>, live: set<int>, b: int)
    requires HeapOk(m, pmm, head, list, live) && b in list
    ensures IsBucket(m, b) && InRam(|m|, b, PAGE) && |m| <= WINDOW
    ensures SlotMap(m, b) == Bitmap(b + HEADER, Cap(Power(m, b))) && 1 <= Cap(Power(m, b)) <= 32
  {
    assert Placed(m, pmm, b);
  }

  /** What the answer of set_first_free means for the bucket. */
  lemma FoundSlot(m: Mem, b: int, i: int)
    requires IsBucket(m, b)
    requires i == -1 <==> forall j :: 0 <= j < SlotMap(m, b).size ==> j in SlotMap(m, b).Bits(m)
    requires i != -1 ==> 0 <= i < SlotMap(m, b).size && i !in SlotMap(m, b).Bits(m)
    requires i != -1 ==> forall j :: 0 <= j < i ==> j in SlotMap(m, b).Bits(m)
    ensures if i == -1 then !HasRoom(m, b, Power(m, b))
            else
              && HasRoom(m, b, Power(m, b)) && FirstSlot(m, b, Power(m, b), Slot(b, Power(m, b), i))
              && 0 <= i < Cap(Power(m, b)) && !Taken(m, b, i) && 0 < Slot(b, Power(m, b), i)
  {
    hide Bitmap.Bits, Word;
    if i != -1 {
      SlotInFrame(b, Power(m, b), i);
      assert !Taken(m, b, i);
    }
  }

  lemma OffsetIsSlot(m: Mem, b: int, i: int)
    requires IsBucket(m, b) && |m| <= WINDOW
    ensures Align32(SlotMap(m, b).ptr + (SlotMap(m, b).size + 7) / 8, ALIGNMENT) + i * Power(m, b) ==
            Slot(b, Power(m, b), i)
  {
    hide Word, SpareClear, IsClass;
    AlignWraps(b + HEADER + Reserved(Power(m, b)), ALIGNMENT);
  }

  /** The block calloc gets holds the product exactly when the product is a 32-bit number. */
  lemma CallocHoldsExactlyWhen(nmemb: nat, size: nat, r: int)
    requires nmemb < TWO32 && size < TWO32
    requires var n := nmemb * size % TWO32; n <= FRAME_ROOM && RoomOk(r, ClassOf(n))
    ensures nmemb * size <= Room(r, ClassOf(nmemb * size % TWO32)) <==> nmemb * size < TWO32
  {
  }
}
