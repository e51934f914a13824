/** What a state of the heap means: the bits of the buckets on the list stand for the set of live
    blocks, and one step of the allocator changes that set by exactly one block. */
module Heaps {
  import opened Memory
  import opened Bitmaps
  import opened Frames
  import opened Layout
  import opened Buckets

  /** q is one of the slots of a bucket of class p at b. */
  ghost predicate IsSlot(b: int, p: int, q: int) {
    exists i :: 0 <= i < Cap(p) && Slot(b, p, i) == q
  }

  /** `live` is exactly the set of slots whose bit is set. */
  ghost predicate LiveOk(m: Mem, list: seq<int>, live: set<int>) {
    && (forall b, i :: b in list && 0 <= i < Cap(Power(m, b)) ==>
          (Taken(m, b, i) <==> Slot(b, Power(m, b), i) in live))
    && (forall q :: q in live ==> PageBegin(q) in list && IsSlot(PageBegin(q), Power(m, PageBegin(q)), q))
  }

  ghost predicate HeapOk(m: Mem, pmm: PMM, head: int, list: seq<int>, live: set<int>) {
    ListOk(m, pmm, head, list) && LiveOk(m, list, live)
  }

  /** The class of the block at q: the power_size of its bucket. */
  function ClassIn(m: Mem, q: int): int {
    Power(m, PageBegin(q))
  }

  /** Its size: that class, as far as the bucket's frame goes. */
  function SizeOf(m: Mem, q: int): nat {
    Room(q, ClassIn(m, q))
  }

  function Block(m: Mem, q: int): (s: seq<byte>)
    ensures |s| == SizeOf(m, q)
  {
    seq<byte>(SizeOf(m, q), k => Byte(m, q + k))
  }

  /** The heap as its clients see it: block pointers and what is stored there. */
  ghost function Blocks(m: Mem, live: set<int>): map<int, seq<byte>> {
    map q | q in live :: Block(m, q)
  }

  /** The block at q has the same size and the same bytes in both memories. */
  ghost predicate BlockKept(m: Mem, m': Mem, q: int) {
    SizeOf(m', q) == SizeOf(m, q) && Same(m, m', q, q + SizeOf(m, q))
  }

  lemma BlockKeptMeans(m: Mem, m': Mem, q: int)
    requires BlockKept(m, m', q)
    ensures Block(m', q) == Block(m, q)
  {
  }

  /** A live block lies in its bucket's frame, after the header and the bitmap bytes that count. */
  lemma BlockInFrame(m: Mem, pmm: PMM, head: int, list: seq<int>, live: set<int>, q: int) returns (i: int)
    requires HeapOk(m, pmm, head, list, live) && q in live
    ensures var b := PageBegin(q);
            && b in list && Placed(m, pmm, b)
            && b + HEADER + Reserved(Power(m, b)) <= q && q + SizeOf(m, q) <= b + PAGE
            && 0 <= i < Cap(Power(m, b)) && q == Slot(b, Power(m, b), i) && Taken(m, b, i)
            && SizeOf(m, q) == Room(q, Power(m, b)) && RoomOk(q, Power(m, b))
  {
    var b := PageBegin(q);
    var p := Power(m, b);
    assert IsSlot(b, p, q);
    i :| 0 <= i < Cap(p) && Slot(b, p, i) == q;
    assert Placed(m, pmm, b);
    SlotInFrame(b, p, i);
  }

  /** The division in free on the header of a live block's bucket. */
  lemma FreeIndexAt(m: Mem, pmm: PMM, head: int, list: seq<int>, live: set<int>, q: int)
    requires HeapOk(m, pmm, head, list, live) && q in live
    ensures var b := PageBegin(q);
            && b in list && b >= KERNEL && InRam(|m|, b, PAGE)
            && SlotMap(m, b) == Bitmap(b + HEADER, Cap(Power(m, b))) && 16 <= Power(m, b) && Cap(Power(m, b)) <= 32
            && 0 <= FreeIndex(b, Power(m, b), q) < 8 * Cap(Power(m, b))
            && (q - SlotMap(m, b).ptr + SlotMap(m, b).size) / Power(m, b) == FreeIndex(b, Power(m, b), q)
  {
    hide HeapOk, Taken, Slot, Word, PMM.Used, PMM.ClearOfMap;
    var i := BlockInFrame(m, pmm, head, list, live, q);
    FreeIndexIs(PageBegin(q), Power(m, PageBegin(q)), i);
  }

  /** The division in free finds the slot of a live block above class 16. */
  lemma FreeFindsSlot(m: Mem, pmm: PMM, head: int, list: seq<int>, live: set<int>, q: int) returns (i: int)
    requires HeapOk(m, pmm, head, list, live) && q in live && ClassIn(m, q) > 16
    ensures var b := PageBegin(q);
            && b in list && b >= KERNEL && InRam(|m|, b, PAGE)
            && 0 <= i < Cap(Power(m, b)) && q == Slot(b, Power(m, b), i)
            && SlotMap(m, b) == Bitmap(b + HEADER, Cap(Power(m, b)))
            && Power(m, b) > 0 && (q - SlotMap(m, b).ptr + SlotMap(m, b).size) / Power(m, b) == i
  {
    hide HeapOk, Taken, Slot, Word, PMM.Used, PMM.ClearOfMap;
    i := BlockInFrame(m, pmm, head, list, live, q);
    FreeIndexIs(PageBegin(q), Power(m, PageBegin(q)), i);
  }

  /** Live blocks never overlap. */
  lemma BlocksDisjoint(m: Mem, pmm: PMM, head: int, list: seq<int>, live: set<int>, q: int, r: int)
    requires HeapOk(m, pmm, head, list, live) && q in live && r in live && q != r
    ensures q + SizeOf(m, q) <= r || r + SizeOf(m, r) <= q
  {
    hide HeapOk, Taken, Slot, Word, PMM.Used, PMM.ClearOfMap;
    var i := BlockInFrame(m, pmm, head, list, live, q);
    var j := BlockInFrame(m, pmm, head, list, live, r);
    var b, c := PageBegin(q), PageBegin(r);
    if b != c {
      PagesApart(b, c);
    } else if i < j {
      SlotsDisjoint(b, Power(m, b), i, j);
    } else if j < i {
      SlotsDisjoint(b, Power(m, b), j, i);
    }
  }

  /** Slots of placed buckets are told apart by bucket and index. */
  lemma SlotsDiffer(m: Mem, pmm: PMM, b: int, i: int, c: int, j: int)
    requires Placed(m, pmm, b) && Placed(m, pmm, c)
    requires 0 <= i < Cap(Power(m, b)) && 0 <= j < Cap(Power(m, c))
    requires Slot(b, Power(m, b), i) == Slot(c, Power(m, c), j)
    ensures b == c && i == j
  {
    SlotInFrame(b, Power(m, b), i);
    SlotInFrame(c, Power(m, c), j);
    if i < j {
      SlotsDisjoint(b, Power(m, b), i, j);
    } else if j < i {
      SlotsDisjoint(b, Power(m, b), j, i);
    }
  }

  // -------- setting or clearing one bit --------

  /** From m to m', bit i of bucket b became `value` and no other byte that matters changed. */
  ghost predicate BitStep(m: Mem, m': Mem, b: int, i: int, value: bool) {
    && 0 <= i < Cap(Power(m, b))
    && SameOutside(m, m', b + HEADER + i / 8, b + HEADER + i / 8 + 1)
    && SlotMap(m, b).Bits(m') == if value then SlotMap(m, b).Bits(m) + {i} else SlotMap(m, b).Bits(m) - {i}
  }

  lemma BitStepBucket(m: Mem, m': Mem, pmm: PMM, b: int, i: int, value: bool)
    requires Placed(m, pmm, b) && BitStep(m, m', b, i, value) && FrameOf(b) in pmm.Used(m')
    ensures Placed(m', pmm, b) && Power(m', b) == Power(m, b) && Next(m', b) == Next(m, b)
    ensures forall j :: Taken(m', b, j) <==> if j == i then value else Taken(m, b, j)
  {
    HeaderKept(m, m', b);
  }

  lemma BitStepOnlyPage(m: Mem, m': Mem, pmm: PMM, b: int, i: int, value: bool)
    requires pmm.Valid(m) && Placed(m, pmm, b) && BitStep(m, m', b, i, value)
    ensures OnlyPage(m, m', pmm, b) && b == FrameBase(FrameOf(b))
    ensures pmm.Valid(m') && pmm.Used(m') == pmm.Used(m) && pmm.Free(m') == pmm.Free(m)
  {
    assert 0 <= i / 8 <= 4;
    pmm.Frame(m, m');
  }

  lemma BitStepList(m: Mem, m': Mem, pmm: PMM, head: int, list: seq<int>, b: int, i: int, value: bool)
    requires ListOk(m, pmm, head, list) && b in list && BitStep(m, m', b, i, value)
    ensures ListOk(m', pmm, head, list) && pmm.Used(m') == pmm.Used(m)
    ensures forall c :: c in list ==> Power(m', c) == Power(m, c)
    ensures forall c, j :: c in list ==> (Taken(m', c, j) <==> if c == b && j == i then value else Taken(m, c, j))
  {
    assert Placed(m, pmm, b);
    BitStepOnlyPage(m, m', pmm, b, i, value);
    forall c | c in list
      ensures Placed(m', pmm, c) && Power(m', c) == Power(m, c) && Next(m', c) == Next(m, c)
      ensures forall j :: Taken(m', c, j) <==> if c == b && j == i then value else Taken(m, c, j)
    {
      assert Placed(m, pmm, c);
      if c == b {
        BitStepBucket(m, m', pmm, b, i, value);
      } else {
        PlacedKept(m, m', pmm, b, c);
      }
    }
    ChainKept(m, m', head, list);
  }

  lemma ChainKept(m: Mem, m': Mem, head: int, list: seq<int>)
    requires Chain(m, head, list)
    requires forall c :: c in list ==> Next(m', c) == Next(m, c)
    ensures Chain(m', head, list)
  {
  }

  lemma BitStepLive(m: Mem, m': Mem, pmm: PMM, head: int, list: seq<int>, live: set<int>, b: int, i: int, value: bool)
    requires HeapOk(m, pmm, head, list, live) && b in list && 0 <= i < Cap(Power(m, b))
    requires forall c :: c in list ==> Power(m', c) == Power(m, c)
    requires forall c, j :: c in list ==> (Taken(m', c, j) <==> if c == b && j == i then value else Taken(m, c, j))
    ensures var q := Slot(b, Power(m, b), i);
            LiveOk(m', list, if value then live + {q} else live - {q})
  {
    var q := Slot(b, Power(m, b), i);
    var live' := if value then live + {q} else live - {q};
    assert Placed(m, pmm, b);
    forall c, j | c in list && 0 <= j < Cap(Power(m', c))
      ensures Taken(m', c, j) <==> Slot(c, Power(m', c), j) in live'
    {
      assert Placed(m, pmm, c);
      if Slot(c, Power(m, c), j) == q {
        SlotsDiffer(m, pmm, b, i, c, j);
      }
      assert Taken(m, c, j) <==> Slot(c, Power(m, c), j) in live;
    }
    SlotInFrame(b, Power(m, b), i);
    assert IsSlot(b, Power(m, b), q);
  }

  /** Every block other than the one whose bit changed keeps its bytes; so does that one. */
  lemma BitStepBlocks(m: Mem, m': Mem, pmm: PMM, head: int, list: seq<int>, live: set<int>, b: int, i: int,
                      value: bool, q: int)
    requires HeapOk(m, pmm, head, list, live) && b in list && q in live
    requires BitStep(m, m', b, i, value)
    requires forall c :: c in list ==> Power(m', c) == Power(m, c)
    ensures BlockKept(m, m', q)
  {
    hide Word, Bitmap.Bits, SpareClear, Byte, IsSlot, Chain, Distinct, Slot;
    assert Placed(m, pmm, b);
    var _ := BlockInFrame(m, pmm, head, list, live, q);
    var a := b + HEADER + i / 8;
    assert i / 8 < Reserved(Power(m, b)) <= 4;
    assert !(q <= a < q + SizeOf(m, q)) by {
      if PageBegin(q) != b {
        PagesApart(b, PageBegin(q));
      }
    }
  }

  // -------- what a step leaves to the rest of the system --------

  /** Frame k is used, and not by the heap. */
  ghost predicate Foreign(m: Mem, pmm: PMM, list: seq<int>, k: int) {
    k in pmm.Used(m) && FrameBase(k) !in list
  }

  /** No foreign frame is released, absorbed or written. */
  ghost predicate ForeignKept(m: Mem, m': Mem, pmm: PMM, list: seq<int>, list': seq<int>) {
    && |m'| == |m|
    && forall k :: Foreign(m, pmm, list, k) ==>
         Foreign(m', pmm, list', k) && (pmm.ClearOfMap(k) ==> Same(m, m', FrameBase(k), FrameBase(k) + PAGE))
  }

  lemma ForeignKeptTrans(m: Mem, m1: Mem, m': Mem, pmm: PMM, list: seq<int>, list1: seq<int>, list': seq<int>)
    requires ForeignKept(m, m1, pmm, list, list1) && ForeignKept(m1, m', pmm, list1, list')
    ensures ForeignKept(m, m', pmm, list, list')
  {
  }

  lemma ForeignKeptRefl(m: Mem, pmm: PMM, list: seq<int>)
    ensures ForeignKept(m, m, pmm, list, list)
  {
  }

  lemma PageStepForeign(m: Mem, m': Mem, pmm: PMM, list: seq<int>, list': seq<int>, b: int)
    requires OnlyPage(m, m', pmm, b) && b == FrameBase(FrameOf(b))
    requires forall k :: Foreign(m, pmm, list, k) ==> k != FrameOf(b) && Foreign(m', pmm, list', k)
    ensures ForeignKept(m, m', pmm, list, list')
  {
  }

  /** One block taken: malloc's step on a bucket with room. */
  lemma TakeStep(m: Mem, m': Mem, pmm: PMM, head: int, list: seq<int>, live: set<int>, b: int, i: int)
    requires HeapOk(m, pmm, head, list, live) && b in list
    requires BitStep(m, m', b, i, true) && !Taken(m, b, i)
    ensures var q := Slot(b, Power(m, b), i);
            && q !in live && HeapOk(m', pmm, head, list, live + {q})
            && PageBegin(q) == b && SizeOf(m', q) == Room(q, Power(m, b)) && RoomOk(q, Power(m, b))
    ensures pmm.Used(m') == pmm.Used(m)
    ensures forall r :: r in live ==> BlockKept(m, m', r)
    ensures ForeignKept(m, m', pmm, list, list)
  {
    BitStepList(m, m', pmm, head, list, b, i, true);
    BitStepLive(m, m', pmm, head, list, live, b, i, true);
    forall r | r in live ensures BlockKept(m, m', r) {
      BitStepBlocks(m, m', pmm, head, list, live, b, i, true, r);
    }
    assert Placed(m, pmm, b);
    SlotInFrame(b, Power(m, b), i);
    BitStepOnlyPage(m, m', pmm, b, i, true);
    PageStepForeign(m, m', pmm, list, list, b);
  }

  /** One block given back: free's step before it looks whether the bucket is empty. */
  lemma FreeStep(m: Mem, m': Mem, pmm: PMM, head: int, list: seq<int>, live: set<int>, b: int, i: int)
    requires HeapOk(m, pmm, head, list, live) && b in list
    requires BitStep(m, m', b, i, false)
    ensures HeapOk(m', pmm, head, list, live - {Slot(b, Power(m, b), i)})
    ensures pmm.Used(m') == pmm.Used(m)
    ensures forall r :: r in live ==> BlockKept(m, m', r)
    ensures ForeignKept(m, m', pmm, list, list)
  {
    BitStepList(m, m', pmm, head, list, b, i, false);
    BitStepLive(m, m', pmm, head, list, live, b, i, false);
    forall r | r in live ensures BlockKept(m, m', r) {
      BitStepBlocks(m, m', pmm, head, list, live, b, i, false, r);
    }
    assert Placed(m, pmm, b);
    BitStepOnlyPage(m, m', pmm, b, i, false);
    PageStepForeign(m, m', pmm, list, list, b);
  }

  /** An empty bucket joined the list. */
  lemma PushStep(m: Mem, m': Mem, pmm: PMM, head: int, list: seq<int>, live: set<int>, b: int)
    requires HeapOk(m, pmm, head, list, live)
    requires ListOk(m', pmm, b, [b] + list) && OnlyPage(m, m', pmm, b)
    requires FrameOf(b) in pmm.Free(m) && pmm.Used(m') == pmm.Used(m) + {FrameOf(b)}
    requires forall i :: !Taken(m', b, i)
    requires forall c :: c in list ==> Power(m', c) == Power(m, c)
    requires forall c, i :: c in list ==> (Taken(m', c, i) <==> Taken(m, c, i))
    ensures HeapOk(m', pmm, b, [b] + list, live)
    ensures forall r :: r in live ==> BlockKept(m, m', r)
    ensures ForeignKept(m, m', pmm, list, [b] + list)
  {
    hide Word, Bitmap.Bits, SpareClear, Byte, Chain, Slot;
    var list' := [b] + list;
    assert list'[0] == b && forall k :: 0 <= k < |list| ==> list'[k + 1] == list[k];
    assert b !in list && Placed(m', pmm, b);
    forall c, i | c in list' && 0 <= i < Cap(Power(m', c))
      ensures Taken(m', c, i) <==> Slot(c, Power(m', c), i) in live
    {
      if c == b {
        SlotInFrame(b, Power(m', b), i);
      } else {
        assert c in list;
      }
    }
    forall r | r in live
      ensures PageBegin(r) in list' && IsSlot(PageBegin(r), Power(m', PageBegin(r)), r) && BlockKept(m, m', r)
    {
      var _ := BlockInFrame(m, pmm, head, list, live, r);
      PagesApart(b, PageBegin(r));
    }
    PageStepForeign(m, m', pmm, list, list', b);
  }

  /** A bucket without live blocks left the list. */
  lemma RemoveStep(m: Mem, m': Mem, pmm: PMM, head: int, head': int, list: seq<int>, live: set<int>, k: nat)
    requires HeapOk(m, pmm, head, list, live) && k < |list|
    requires ListOk(m', pmm, head', Without(list, k))
    requires OnlyLink(m, m', pmm, Before(list, k))
    requires pmm.Used(m') == pmm.Used(m) - {FrameOf(list[k])}
    requires forall i :: !Taken(m, list[k], i)
    requires forall c :: c in Without(list, k) ==> Power(m', c) == Power(m, c)
    requires forall c, i :: c in Without(list, k) ==> (Taken(m', c, i) <==> Taken(m, c, i))
    ensures HeapOk(m', pmm, head', Without(list, k), live)
    ensures forall r :: r in live ==> BlockKept(m, m', r)
    ensures ForeignKept(m, m', pmm, list, Without(list, k))
  {
    hide Word, Bitmap.Bits, SpareClear, Byte, Chain, Distinct, Slot;
    WithoutIs(list, k);
    var b := Before(list, k);
    BeforeIsPage(m, pmm, head, list, k);
    forall r | r in live ensures PageBegin(r) in Without(list, k) && BlockKept(m, m', r) {
      var i := BlockInFrame(m, pmm, head, list, live, r);
      if b != PageBegin(r) {
        PagesApart(b, PageBegin(r));
      }
    }
    assert Placed(m, pmm, list[k]);
    LinkStepForeign(m, m', pmm, list, Without(list, k), list[k], b);
  }

  lemma LinkStepForeign(m: Mem, m': Mem, pmm: PMM, list: seq<int>, list': seq<int>, gone: int, b: int)
    requires OnlyLink(m, m', pmm, b) && b == FrameBase(FrameOf(b)) && (b == 0 || b in list)
    requires pmm.Used(m') == pmm.Used(m) - {FrameOf(gone)}
    requires gone == FrameBase(FrameOf(gone)) && gone in list
    requires forall c :: c in list' ==> c in list
    ensures ForeignKept(m, m', pmm, list, list')
  {
    hide Byte, FrameOf, Bitmap.Has;
    forall k | Foreign(m, pmm, list, k)
      ensures Foreign(m', pmm, list', k) && (pmm.ClearOfMap(k) ==> Same(m, m', FrameBase(k), FrameBase(k) + PAGE))
    {
      assert k >= 0 && b != FrameBase(k);
      FrameApart(k, b);
    }
  }

  /** A client stored into its own block. */
  lemma WriteStep(m: Mem, m': Mem, pmm: PMM, head: int, list: seq<int>, live: set<int>, q: int)
    requires HeapOk(m, pmm, head, list, live) && q in live
    requires SameOutside(m, m', q, q + SizeOf(m, q))
    ensures HeapOk(m', pmm, head, list, live) && SizeOf(m', q) == SizeOf(m, q)
    ensures pmm.Used(m') == pmm.Used(m)
    ensures forall r :: r in live && r != q ==> BlockKept(m, m', r)
    ensures ForeignKept(m, m', pmm, list, list)
  {
    var i := BlockInFrame(m, pmm, head, list, live, q);
    var b := PageBegin(q);
    pmm.Frame(m, m');
    forall c | c in list
      ensures Placed(m', pmm, c) && Power(m', c) == Power(m, c) && Next(m', c) == Next(m, c)
      ensures forall j :: Taken(m', c, j) <==> Taken(m, c, j)
    {
      assert Placed(m, pmm, c);
      if c == b {
        BucketKept(m, m', c);
      } else {
        PlacedKept(m, m', pmm, b, c);
      }
    }
    ChainKept(m, m', head, list);
    forall r | r in live && r != q ensures BlockKept(m, m', r) {
      BlocksDisjoint(m, pmm, head, list, live, q, r);
    }
    PageStepForeign(m, m', pmm, list, list, b);
  }

  /** The live blocks after a free of slot i of a bucket of class 16. */
  function LeftAfter(live: set<int>, b: int, i: int): set<int> {
    if i + 2 < 32 then live - {Slot(b, 16, i + 2)} else live
  }

  /** free on a live block gives back that block, and only it, exactly when its class is above 16.  In class 16
      it gives back the block two slots further on, if that is live, or nothing from slot 30 on. */
  lemma FreeExactlyWhen(m: Mem, m': Mem, pmm: PMM, head: int, list: seq<int>, live: set<int>, q: int)
    requires HeapOk(m, pmm, head, list, live) && q in live
    requires var b := PageBegin(q);
             var index := FreeIndex(b, Power(m, b), q);
             && SameOutside(m, m', b + HEADER + index / 8, b + HEADER + index / 8 + 1)
             && SlotMap(m, b).Bits(m') == SlotMap(m, b).Bits(m) - {index}
    ensures LiveOk(m', list, live - {q}) <==> ClassIn(m, q) > 16
    ensures ClassIn(m, q) == 16 ==>
              forall i :: 0 <= i < 32 && q == Slot(PageBegin(q), 16, i) ==>
                LiveOk(m', list, LeftAfter(live, PageBegin(q), i))
  {
    hide HeapOk, Slot, Bitmap.Bits, Word, FreeIndex;
    var b := PageBegin(q);
    var p := Power(m, b);
    var i := BlockInFrame(m, pmm, head, list, live, q);
    FreeIndexIs(b, p, i);
    if p > 16 {
      FreeStep(m, m', pmm, head, list, live, b, i);
    } else {
      HeaderKept(m, m', b);
      assert Taken(m', b, i);
      forall j | 0 <= j < 32 && q == Slot(b, 16, j)
        ensures LiveOk(m', list, LeftAfter(live, b, j))
      {
        FreeIndexIs(b, p, j);
        NextButOne(m, m', pmm, head, list, live, b, j);
      }
    }
  }

  /** The bit two on from slot i of a bucket of class 16. */
  lemma NextButOne(m: Mem, m': Mem, pmm: PMM, head: int, list: seq<int>, live: set<int>, b: int, i: int)
    requires HeapOk(m, pmm, head, list, live) && b in list && Power(m, b) == 16 && 0 <= i < 32
    requires SameOutside(m, m', b + HEADER + (i + 2) / 8, b + HEADER + (i + 2) / 8 + 1)
    requires SlotMap(m, b).Bits(m') == SlotMap(m, b).Bits(m) - {i + 2}
    ensures LiveOk(m', list, LeftAfter(live, b, i))
  {
    hide Slot, Bitmap.Bits, Word, ListOk;
    if i + 2 < 32 {
      FreeStep(m, m', pmm, head, list, live, b, i + 2);
    } else {
      SpareBit(m, m', pmm, head, list, live, b, i + 2);
    }
  }

  /** Clearing a bit past those that count gives no block back.  The byte may belong to the block in slot 0. */
  lemma SpareBit(m: Mem, m': Mem, pmm: PMM, head: int, list: seq<int>, live: set<int>, b: int, i: int)
    requires HeapOk(m, pmm, head, list, live) && b in list && Power(m, b) == 16 && 32 <= i < 34
    requires SameOutside(m, m', b + HEADER + i / 8, b + HEADER + i / 8 + 1)
    requires SlotMap(m, b).Bits(m') == SlotMap(m, b).Bits(m) - {i}
    ensures HeapOk(m', pmm, head, list, live) && pmm.Used(m') == pmm.Used(m)
    ensures forall c :: c in list ==> Power(m', c) == Power(m, c)
    ensures ForeignKept(m, m', pmm, list, list)
  {
    hide Word, Bitmap.Bits, Byte, Slot, FrameOf, IsBucket, IsSlot;
    assert Placed(m, pmm, b);
    SpareBitBucket(m, m', b, i);
    pmm.Frame(m, m');
    forall c | c in list
      ensures Placed(m', pmm, c) && Power(m', c) == Power(m, c) && Next(m', c) == Next(m, c)
      ensures forall j :: Taken(m', c, j) <==> Taken(m, c, j)
    {
      if c != b {
        assert Placed(m, pmm, c);
        PlacedKept(m, m', pmm, b, c);
      }
    }
    ChainKept(m, m', head, list);
    PageStepForeign(m, m', pmm, list, list, b);
  }

  lemma SpareBitBucket(m: Mem, m': Mem, b: int, i: int)
    requires IsBucket(m, b) && Power(m, b) == 16 && 32 <= i < 34
    requires SameOutside(m, m', b + HEADER + i / 8, b + HEADER + i / 8 + 1)
    requires SlotMap(m, b).Bits(m') == SlotMap(m, b).Bits(m) - {i}
    ensures IsBucket(m', b) && Power(m', b) == Power(m, b) && Next(m', b) == Next(m, b)
    ensures forall j :: Taken(m', b, j) <==> Taken(m, b, j)
  {
    HeaderKept(m, m', b);
  }

  /** The blocks around that byte. */
  lemma SpareBitBlock(m: Mem, m': Mem, pmm: PMM, head: int, list: seq<int>, live: set<int>, b: int, q: int)
    requires HeapOk(m, pmm, head, list, live) && b in list && Power(m, b) == 16 && q in live
    requires SameOutside(m, m', b + HEADER + 4, b + HEADER + 5) && ClassIn(m', q) == ClassIn(m, q)
    ensures q != b + HEADER + 4 ==> BlockKept(m, m', q)
    ensures SizeOf(m', q) == SizeOf(m, q) && Same(m, m', q + 1, q + SizeOf(m, q))
  {
    hide Word, Bitmap.Bits, SpareClear, Byte, IsSlot, Chain, Distinct, Slot, LiveOk;
    assert Placed(m, pmm, b);
    var _ := BlockInFrame(m, pmm, head, list, live, q);
    if PageBegin(q) != b {
      PagesApart(b, PageBegin(q));
    }
  }

  /** Bit k of the first byte of the block at r was cleared, and nothing else in it. */
  ghost predicate BitLost(m: Mem, m': Mem, r: int, k: nat) {
    && SizeOf(m', r) == SizeOf(m, r) && Same(m, m', r + 1, r + SizeOf(m, r))
    && Byte(m', r) == AndNotBit(Byte(m, r), k)
  }

  /** free on slot i of a bucket of class 16.  From slot 30 on the bit cleared may be one of slot 0's own bits. */
  ghost predicate SixteenFreed(m: Mem, m': Mem, live: set<int>, live': set<int>, q: int) {
    var b := PageBegin(q);
    forall i: nat :: i < 32 && q == Slot(b, 16, i) ==>
      && live' == LeftAfter(live, b, i)
      && forall r :: r in live' ==>
           if i >= 30 && r == b + HEADER + 4 then BitLost(m, m', r, i - 30) else BlockKept(m, m', r)
  }

  lemma SixteenStep(m: Mem, m': Mem, pmm: PMM, head: int, list: seq<int>, live: set<int>, q: int)
    returns (live': set<int>)
    requires HeapOk(m, pmm, head, list, live) && q in live && ClassIn(m, q) == 16
    requires var b := PageBegin(q);
             var index := FreeIndex(b, 16, q);
             && SameOutside(m, m', b + HEADER + index / 8, b + HEADER + index / 8 + 1)
             && SlotMap(m, b).Bits(m') == SlotMap(m, b).Bits(m) - {index}
             && (index >= 0 ==>
                   Byte(m', b + HEADER + index / 8) == AndNotBit(Byte(m, b + HEADER + index / 8), index % 8))
    ensures HeapOk(m', pmm, head, list, live') && pmm.Used(m') == pmm.Used(m)
    ensures ForeignKept(m, m', pmm, list, list) && SixteenFreed(m, m', live, live', q)
    ensures SlotMap(m', PageBegin(q)).Bits(m') == {} <==> LooksLast(m, q)
    ensures !LooksLast(m, q)
  {
    hide HeapOk, Slot, Bitmap.Bits, Word, FreeIndex, ForeignKept, BlockKept, Byte;
    var b := PageBegin(q);
    var i := BlockInFrame(m, pmm, head, list, live, q);
    FreeIndexIs(b, 16, i);
    live' := LeftAfter(live, b, i);
    HeaderKept(m, m', b);
    assert Taken(m, b, i) && i in SlotMap(m, b).Bits(m);
    if i + 2 < 32 {
      FreeStep(m, m', pmm, head, list, live, b, i + 2);
    } else {
      SpareBit(m, m', pmm, head, list, live, b, i + 2);
      SpareBlocks(m, m', pmm, head, list, live, b, i + 2);
    }
    forall j: nat | j < 32 && q == Slot(b, 16, j) ensures j == i {
      FreeIndexIs(b, 16, j);
    }
  }

  lemma SpareBlocks(m: Mem, m': Mem, pmm: PMM, head: int, list: seq<int>, live: set<int>, b: int, i: int)
    requires HeapOk(m, pmm, head, list, live) && b in list && Power(m, b) == 16 && 32 <= i < 34
    requires SameOutside(m, m', b + HEADER + i / 8, b + HEADER + i / 8 + 1)
    requires Byte(m', b + HEADER + i / 8) == AndNotBit(Byte(m, b + HEADER + i / 8), i % 8)
    requires forall c :: c in list ==> Power(m', c) == Power(m, c)
    ensures forall r :: r in live ==>
              if r == b + HEADER + 4 then BitLost(m, m', r, i - 32) else BlockKept(m, m', r)
  {
    hide HeapOk, BlockKept, SizeOf, Byte, Power, Same, SameOutside;
    forall r | r in live ensures if r == b + HEADER + 4 then BitLost(m, m', r, i - 32) else BlockKept(m, m', r) {
      BlockListed(m, pmm, head, list, live, r);
      SpareBitBlock(m, m', pmm, head, list, live, b, r);
    }
  }

  lemma BlockListed(m: Mem, pmm: PMM, head: int, list: seq<int>, live: set<int>, q: int)
    requires HeapOk(m, pmm, head, list, live) && q in live
    ensures PageBegin(q) in list
  {
  }

  /** What is_empty will say once the bit of q is cleared.  It also reads bytes past the bits that count, which
      blocks may occupy. */
  ghost predicate LooksLast(m: Mem, q: int) {
    var b := PageBegin(q);
    Power(m, b) > 0 && SlotMap(m, b).Bits(m) <= {FreeIndex(b, Power(m, b), q)}
  }

  /** A bucket leaves the list exactly when no other block of it is live and the bytes from Reserved to Cap, where
      blocks may lie, are zero. */
  lemma LooksLastExactlyWhen(m: Mem, pmm: PMM, head: int, list: seq<int>, live: set<int>, q: int)
    requires HeapOk(m, pmm, head, list, live) && q in live && ClassIn(m, q) > 16
    ensures var b := PageBegin(q);
            var p := Power(m, b);
            && SlotMap(m, b) == Bitmap(b + HEADER, Cap(p))
            && (LooksLast(m, q) <==>
              && (forall r :: r in live && PageBegin(r) == b ==> r == q)
              && (forall a :: b + HEADER + Reserved(p) <= a < b + HEADER + Cap(p) ==> Byte(m, a) == 0))
  {
    hide HeapOk, Taken, SpareClear, Bitmap.Bits, Slot, FreeIndex;
    var b := PageBegin(q);
    var i := BlockInFrame(m, pmm, head, list, live, q);
    FreeIndexIs(b, Power(m, b), i);
    BytesClear(m, SlotMap(m, b), Reserved(Power(m, b)));
    assert IsClass(Power(m, b)) && i < Cap(Power(m, b)) <= 8 * Reserved(Power(m, b));
    forall r | r in live && PageBegin(r) == b && r != q ensures exists j :: j in SlotMap(m, b).Bits(m) && j != i {
      var j := BlockInFrame(m, pmm, head, list, live, r);
      BitIsSlot(m, pmm, head, list, live, b, j);
    }
    forall j | j in SlotMap(m, b).Bits(m) && j != i && j < 8 * Reserved(Power(m, b))
      ensures exists r :: r in live && PageBegin(r) == b && r != q
    {
      BitIsSlot(m, pmm, head, list, live, b, j);
      SlotInFrame(b, Power(m, b), j);
      if Slot(b, Power(m, b), j) == q {
        SlotsDiffer(m, pmm, b, i, b, j);
      }
    }
    BitIsSlot(m, pmm, head, list, live, b, i);
  }

  lemma BitIsSlot(m: Mem, pmm: PMM, head: int, list: seq<int>, live: set<int>, b: int, j: int)
    requires HeapOk(m, pmm, head, list, live) && b in list
    ensures Taken(m, b, j) ==> j in SlotMap(m, b).Bits(m)
    ensures j in SlotMap(m, b).Bits(m) ==>
              if j < Cap(Power(m, b)) then 0 <= j && Slot(b, Power(m, b), j) in live else 8 * Reserved(Power(m, b)) <= j
  {
    assert Placed(m, pmm, b);
  }

  /** No bit from 8 * lo on is set exactly when the bytes from lo on are zero. */
  lemma BytesClear(m: Mem, bm: Bitmap, lo: nat)
    ensures (forall j :: j in bm.Bits(m) ==> j < 8 * lo) <==>
            (forall a :: bm.ptr + lo <= a < bm.ptr + bm.size ==> Byte(m, a) == 0)
  {
    forall a | bm.ptr + lo <= a < bm.ptr + bm.size && Byte(m, a) != 0
      ensures exists j :: j in bm.Bits(m) && j >= 8 * lo
    {
      ByteRange();
      var i := a - bm.ptr;
      var k := SomeDigit(Byte(m, a), 8);
      assert (8 * i + k) / 8 == i && (8 * i + k) % 8 == k;
      assert 8 * i + k in bm.Bits(m);
    }
    forall j | j in bm.Bits(m) && j >= 8 * lo
      ensures exists a :: bm.ptr + lo <= a < bm.ptr + bm.size && Byte(m, a) != 0
    {
      ZeroHasNoDigit(j % 8);
      assert Byte(m, bm.ptr + j / 8) != 0;
    }
  }

  // -------- the client's view --------

  /** A bucket of class p on which the search of malloc stops. */
  ghost predicate HasRoom(m: Mem, b: int, p: int) {
    Power(m, b) == p && exists i :: 0 <= i < Cap(p) && !Taken(m, b, i)
  }

  ghost predicate SomeRoom(m: Mem, list: seq<int>, p: int) {
    exists b :: b in list && HasRoom(m, b, p)
  }

  /** r is the first free slot of the first bucket with room. */
  ghost predicate FirstFit(m: Mem, list: seq<int>, p: int, r: int) {
    exists n :: 0 <= n < |list| && HasRoom(m, list[n], p) && FirstSlot(m, list[n], p, r) &&
                forall c :: 0 <= c < n ==> !HasRoom(m, list[c], p)
  }

  ghost predicate FirstSlot(m: Mem, b: int, p: int, r: int) {
    exists i :: 0 <= i < Cap(p) && Slot(b, p, i) == r && !Taken(m, b, i) && forall j :: 0 <= j < i ==> Taken(m, b, j)
  }

  /** A bucket that stays on the list without live blocks, because data lies in the bytes is_empty reads,
      has every slot free. */
  lemma KeptBucketServes(m: Mem, pmm: PMM, head: int, list: seq<int>, live: set<int>, b: int)
    requires HeapOk(m, pmm, head, list, live) && b in list
    requires forall q :: q in live ==> PageBegin(q) != b
    ensures forall i :: 0 <= i < Cap(Power(m, b)) ==> !Taken(m, b, i)
    ensures HasRoom(m, b, Power(m, b))
  {
    assert Placed(m, pmm, b);
    forall i | 0 <= i < Cap(Power(m, b)) ensures !Taken(m, b, i) {
      SlotInFrame(b, Power(m, b), i);
    }
    assert !Taken(m, b, 0);
  }

  lemma NothingLive(m: Mem, pmm: PMM, head: int, list: seq<int>, live: set<int>)
    requires HeapOk(m, pmm, head, list, live)
    ensures 0 !in live && (head == 0 ==> live == {})
  {
    forall q | q in live ensures q != 0 && head != 0 {
      var _ := BlockInFrame(m, pmm, head, list, live, q);
      ListBounds(m, pmm, head, list, 0);
    }
  }

  lemma BucketListed(m: Mem, pmm: PMM, head: int, list: seq<int>, live: set<int>, b: int)
    requires HeapOk(m, pmm, head, list, live) && b in list
    ensures ListOk(m, pmm, head, list) && InRam(|m|, b, PAGE) && SlotMap(m, b).Fits(|m|)
  {
    assert Placed(m, pmm, b);
    assert Cap(Power(m, b)) <= 32;
  }

  /** A bucket none of whose bitmap bytes holds a one has no live block. */
  lemma EmptyBucket(m: Mem, pmm: PMM, head: int, list: seq<int>, live: set<int>, b: int)
    requires HeapOk(m, pmm, head, list, live) && SlotMap(m, b).Bits(m) == {}
    ensures forall q :: q in live ==> PageBegin(q) != b
  {
  }

  lemma BlocksSame(m: Mem, m': Mem, live: set<int>)
    requires forall r :: r in live ==> BlockKept(m, m', r)
    ensures Blocks(m', live) == Blocks(m, live)
  {
    forall r | r in live ensures Block(m', r) == Block(m, r) {
      BlockKeptMeans(m, m', r);
    }
  }

  lemma BlocksTaken(m: Mem, m': Mem, live: set<int>, q: int)
    requires q !in live && forall r :: r in live ==> BlockKept(m, m', r)
    ensures Blocks(m', live + {q}) == Blocks(m, live)[q := Block(m', q)]
  {
    forall r | r in live ensures Block(m', r) == Block(m, r) {
      BlockKeptMeans(m, m', r);
    }
  }

  lemma BlocksGiven(m: Mem, m': Mem, live: set<int>, q: int)
    requires forall r :: r in live - {q} ==> BlockKept(m, m', r)
    ensures Blocks(m', live - {q}) == Blocks(m, live) - {q}
  {
    forall r | r in live - {q} ensures Block(m', r) == Block(m, r) {
      BlockKeptMeans(m, m', r);
    }
  }

  lemma BlocksWritten(m: Mem, m': Mem, live: set<int>, q: int)
    requires q in live && forall r :: r in live && r != q ==> BlockKept(m, m', r)
    ensures Blocks(m', live) == Blocks(m, live)[q := Block(m', q)]
  {
    forall r | r in live && r != q ensures Block(m', r) == Block(m, r) {
      BlockKeptMeans(m, m', r);
    }
  }

  /** What free does before it looks at the bitmap: the bit found by the division is that of q. */
  lemma GiveStep(m: Mem, m': Mem, pmm: PMM, head: int, list: seq<int>, live: set<int>, q: int, i: int)
    requires HeapOk(m, pmm, head, list, live) && q in live && ClassIn(m, q) > 16
    requires var b := PageBegin(q);
             && i == FreeIndex(b, Power(m, b), q)
             && SameOutside(m, m', b + HEADER + i / 8, b + HEADER + i / 8 + 1)
             && SlotMap(m, b).Bits(m') == SlotMap(m, b).Bits(m) - {i}
    ensures HeapOk(m', pmm, head, list, live - {q}) && Blocks(m', live - {q}) == Blocks(m, live) - {q}
    ensures pmm.Used(m') == pmm.Used(m)
    ensures ForeignKept(m, m', pmm, list, list)
    ensures SlotMap(m', PageBegin(q)).Bits(m') == {} <==> LooksLast(m, q)
  {
    hide HeapOk, LiveOk, Block, BlockKept, ForeignKept, FrameOf, PMM.Used;
    var b := PageBegin(q);
    var j := FreeFindsSlot(m, pmm, head, list, live, q);
    assert j == i && BitStep(m, m', b, i, false);
    FreeStep(m, m', pmm, head, list, live, b, i);
    BlocksGiven(m, m', live, q);
    HeaderKept(m, m', b);
  }

  lemma ReclaimStep(m: Mem, m1: Mem, m': Mem, pmm: PMM, head: int, head': int, list: seq<int>, live: set<int>, k: nat)
    requires ForeignKept(m, m1, pmm, list, list)
    requires HeapOk(m1, pmm, head, list, live) && k < |list|
    requires SlotMap(m1, list[k]).Bits(m1) == {}
    requires ListOk(m', pmm, head', Without(list, k))
    requires OnlyLink(m1, m', pmm, Before(list, k))
    requires pmm.Used(m') == pmm.Used(m1) - {FrameOf(list[k])}
    requires forall c :: c in Without(list, k) ==> Power(m', c) == Power(m1, c)
    requires forall c, i :: c in Without(list, k) ==> (Taken(m', c, i) <==> Taken(m1, c, i))
    ensures HeapOk(m', pmm, head', Without(list, k), live) && Blocks(m', live) == Blocks(m1, live)
    ensures forall q :: q in live ==> PageBegin(q) != list[k]
    ensures ForeignKept(m, m', pmm, list, Without(list, k))
  {
    RemoveStep(m1, m', pmm, head, head', list, live, k);
    BlocksSame(m1, m', live);
    EmptyBucket(m1, pmm, head, list, live, list[k]);
    ForeignKeptTrans(m, m1, m', pmm, list, list, Without(list, k));
  }

  lemma BlockBounds(m: Mem, pmm: PMM, head: int, list: seq<int>, live: set<int>, q: int)
    requires HeapOk(m, pmm, head, list, live) && q in live
    ensures InRam(|m|, q, SizeOf(m, q)) && |m| <= WINDOW
    ensures FrameOf(PageBegin(q)) in pmm.Used(m) && PageBegin(q) == FrameBase(FrameOf(PageBegin(q)))
    ensures PageBegin(q) in list
    ensures InRam(|m|, PageBegin(q), PAGE) && PageBegin(q) <= q && q + SizeOf(m, q) <= PageBegin(q) + PAGE
    ensures SizeOf(m, q) == Room(q, ClassIn(m, q)) && RoomOk(q, ClassIn(m, q)) && IsClass(ClassIn(m, q))
    ensures if ClassIn(m, q) <= 2048 then SizeOf(m, q) == ClassIn(m, q) else FRAME_ROOM <= SizeOf(m, q) <= ClassIn(m, q)
  {
    var _ := BlockInFrame(m, pmm, head, list, live, q);
  }

  /** A store confined to the block at q changes the client's view at q only. */
  lemma PutStep(m: Mem, m': Mem, pmm: PMM, head: int, list: seq<int>, live: set<int>, q: int)
    requires HeapOk(m, pmm, head, list, live) && q in live
    requires SameOutside(m, m', q, q + SizeOf(m, q))
    ensures HeapOk(m', pmm, head, list, live) && SizeOf(m', q) == SizeOf(m, q)
    ensures Blocks(m', live) == Blocks(m, live)[q := Block(m', q)]
    ensures pmm.Used(m') == pmm.Used(m)
    ensures ForeignKept(m, m', pmm, list, list)
  {
    WriteStep(m, m', pmm, head, list, live, q);
    BlocksWritten(m, m', live, q);
  }

  ghost predicate Zeroed(s: seq<byte>, n: int) {
    n <= |s| && forall k :: 0 <= k < n ==> s[k] == 0
  }

  lemma BlockZeroed(m: Mem, q: int, n: nat)
    requires n <= SizeOf(m, q) && forall a :: q <= a < q + n ==> Byte(m, a) == 0
    ensures Zeroed(Block(m, q), n)
  {
  }

  function Put(s: seq<byte>, k: nat, x: byte): seq<byte>
    requires k < |s|
  {
    s[..k] + [x] + s[k + 1..]
  }

  lemma BlockPut(m: Mem, m': Mem, q: int, k: nat)
    requires k < SizeOf(m, q) == SizeOf(m', q) && SameOutside(m, m', q + k, q + k + 1)
    ensures Block(m', q) == Put(Block(m, q), k, Byte(m', q + k))
  {
  }
}
