/** pmm::PMM (src/pmm/pmm.cpp): one bit per 4 KiB physical frame, kept in the shared memory itself.
    The model starts from an initialised PMM, so its two fields no longer change. */
module Frames {
  import opened Memory
  import opened Bitmaps

  /** The kernel pointer to physical frame k. */
  function FrameBase(k: int): int {
    KERNEL + PAGE * k
  }

  function FrameOf(a: int): int {
    (a - KERNEL) / PAGE
  }

  lemma PagesApart(b: int, c: int)
    requires b == FrameBase(FrameOf(b)) && c == FrameBase(FrameOf(c)) && b != c
    ensures b + PAGE <= c || c + PAGE <= b
  {
  }

  lemma PageOfByte(b: int, a: int)
    requires b == FrameBase(FrameOf(b)) && b <= a < b + PAGE
    ensures FrameBase(FrameOf(a)) == b
  {
  }

  lemma FrameApart(k: int, b: int)
    requires b == FrameBase(FrameOf(b)) && FrameBase(k) != b
    ensures FrameBase(k) + PAGE <= b || b + PAGE <= FrameBase(k)
  {
  }

  ghost function Interval(lo: int, hi: int): (s: set<int>)
    ensures forall k :: k in s <==> lo <= k < hi
    ensures |s| == if lo < hi then hi - lo else 0
    decreases hi - lo
  {
    if lo < hi then Interval(lo, hi - 1) + {hi - 1} else {}
  }

  /** Number of frames the region loops visit; the rounding addition is done in 32 bits. */
  function RegionFrames(size: nat): nat {
    (size + PAGE - 1) % TWO32 / PAGE
  }

  /** Some byte of the region lies in frame k. */
  ghost predicate Touches(addr: nat, size: nat, k: int) {
    size > 0 && PAGE * k < addr + size && addr < PAGE * (k + 1)
  }

  ghost function Marked(addr: nat, size: nat): set<int> {
    Interval(addr / PAGE, addr / PAGE + RegionFrames(size))
  }

  /** The loops visit no frame the region does not touch. */
  lemma MarkedAreTouched(addr: nat, size: nat)
    requires addr < TWO32 && size < TWO32
    ensures forall k :: k in Marked(addr, size) ==> Touches(addr, size, k)
  {
  }

  /** The loops visit exactly the frames of the region if and only if the rounding does not wrap and
      the region does not spill over one more page boundary than its size accounts for. */
  lemma MarkedExactlyWhen(addr: nat, size: nat)
    requires addr < TWO32 && size < TWO32
    ensures (forall k :: k in Marked(addr, size) <==> Touches(addr, size, k))
            <==> size == 0 || (size + PAGE - 1 < TWO32 && addr % PAGE + (size - 1) % PAGE < PAGE)
  {
    if size > 0 {
      var last := (addr + size - 1) / PAGE;
      assert Touches(addr, size, addr / PAGE);
      assert Touches(addr, size, last);
      if size + PAGE - 1 < TWO32 {
        assert RegionFrames(size) == (size - 1) / PAGE + 1;
        assert last == addr / PAGE + (size - 1) / PAGE + if addr % PAGE + (size - 1) % PAGE < PAGE then 0 else 1;
        assert last in Marked(addr, size) <==> addr % PAGE + (size - 1) % PAGE < PAGE;
      } else {
        assert RegionFrames(size) == 0;
      }
    }
  }

  datatype PMM = PMM(nbFrames: nat, bm: Bitmap) {

    ghost function Used(m: Mem): set<int> {
      bm.Bits(m)
    }

    /** The frames allocate_frame may hand out. */
    ghost function Free(m: Mem): set<int> {
      set k | 1 <= k < nbFrames && k !in Used(m)
    }

    /** Those it has handed out, or was told to leave alone. */
    ghost function Taken(m: Mem): set<int> {
      set k | 1 <= k < nbFrames && k in Used(m)
    }

    /** Frame k holds no byte of the frame bitmap. */
    ghost predicate ClearOfMap(k: int) {
      FrameBase(k) + PAGE <= bm.ptr || bm.ptr + bm.size <= FrameBase(k)
    }

    ghost predicate Valid(m: Mem) {
      && bm.Fits(|m|)
      && nbFrames <= 8 * bm.size
      && PAGE * nbFrames <= |m| <= WINDOW
      && forall k :: k in Free(m) ==> ClearOfMap(k)
    }

    /** `m` and `m'` differ at most in the frame bitmap. */
    ghost predicate OnlyMap(m: Mem, m': Mem) {
      SameOutside(m, m', bm.ptr, bm.ptr + bm.size)
    }

    method SetUsed(ram: array<byte>, regionAddr: nat, regionSize: nat)
      requires Valid(ram[..]) && regionAddr < TWO32 && regionSize < TWO32
      modifies ram
      ensures Valid(ram[..]) && OnlyMap(old(ram[..]), ram[..])
      ensures forall k :: k in Used(ram[..]) <==>
                k in Used(old(ram[..])) || (k in Marked(regionAddr, regionSize) && k < 8 * bm.size)
    {
      var frameBase := regionAddr / PAGE;
      var frames := RegionFrames(regionSize);
      ghost var m := ram[..];
      for i := 0 to frames
        invariant OnlyMap(m, ram[..])
        invariant forall k :: k in Used(ram[..]) <==>
                    k in Used(m) || (frameBase <= k < frameBase + i && k < 8 * bm.size)
      {
        var _ := bm.SetBit(ram, frameBase + i);
      }
    }

    method SetUnused(ram: array<byte>, regionAddr: nat, regionSize: nat)
      requires bm.Fits(ram.Length) && regionAddr < TWO32 && regionSize < TWO32
      modifies ram
      ensures OnlyMap(old(ram[..]), ram[..])
      ensures forall k :: k in Used(ram[..]) <==> k in Used(old(ram[..])) && k !in Marked(regionAddr, regionSize)
    {
      var frameBase := regionAddr / PAGE;
      var frames := RegionFrames(regionSize);
      ghost var m := ram[..];
      for i := 0 to frames
        invariant OnlyMap(m, ram[..])
        invariant forall k :: k in Used(ram[..]) <==> k in Used(m) && !(frameBase <= k < frameBase + i)
      {
        var _ := bm.ClearBit(ram, frameBase + i);
      }
    }

    /** Returns the physical address of the least free frame, or null exactly when there is none. */
    method AllocateFrame(ram: array<byte>) returns (r: nat)
      requires Valid(ram[..])
      modifies ram
      ensures Valid(ram[..]) && OnlyMap(old(ram[..]), ram[..])
      ensures r == 0 <==> Free(old(ram[..])) == {}
      ensures r == 0 ==> ram[..] == old(ram[..])
      ensures forall j :: 1 <= j < nbFrames && (r == 0 || j < r / 0x1000) ==> j in Used(old(ram[..]))
      ensures r != 0 ==> var k := r / PAGE;
                         && r == PAGE * k
                         && k in Free(old(ram[..]))
                         && (forall j :: j in Free(old(ram[..])) ==> k <= j)
                         && Used(ram[..]) == Used(old(ram[..])) + {k}
                         && Free(ram[..]) == Free(old(ram[..])) - {k}
                         && |Free(ram[..])| == |Free(old(ram[..]))| - 1 && |Taken(ram[..])| == |Taken(old(ram[..]))| + 1
    {
      hide Bitmap.Bits, Byte, Taken;
      var i := 1;
      while i < nbFrames
        invariant 1 <= i
        invariant ram[..] == old(ram[..])
        invariant forall j :: 1 <= j < i && j < nbFrames ==> j in Used(ram[..])
      {
        if !bm.GetBit(ram, i) {
          var _ := bm.SetBit(ram, i);
          FramesConserved(old(ram[..]), ram[..], i);
          return i * PAGE;
        }
        i := i + 1;
      }
      return 0;
    }

    /** Releases the frame behind a kernel pointer.  Null, and frames the PMM does not manage, are ignored. */
    method FreeFrame(ram: array<byte>, addr: nat)
      requires Valid(ram[..])
      modifies ram
      ensures OnlyMap(old(ram[..]), ram[..])
      ensures addr != 0 && V2P(addr) / PAGE in Taken(old(ram[..])) ==>
                |Free(ram[..])| == |Free(old(ram[..]))| + 1 && |Taken(ram[..])| == |Taken(old(ram[..]))| - 1
      ensures addr != 0 && 1 <= V2P(addr) / PAGE < nbFrames ==> (Valid(ram[..]) <==> ClearOfMap(V2P(addr) / PAGE))
      ensures addr == 0 || V2P(addr) / PAGE == 0 || V2P(addr) / PAGE >= nbFrames ==> Valid(ram[..])
      ensures Used(ram[..]) ==
              if addr != 0 && V2P(addr) / PAGE < nbFrames then Used(old(ram[..])) - {V2P(addr) / PAGE}
              else Used(old(ram[..]))
    {
      if addr == 0 {
        return;
      }
      var frame := V2P(addr) / PAGE;
      if frame >= nbFrames {
        return;
      }
      var _ := bm.ClearBit(ram, frame);
      if frame in Taken(old(ram[..])) {
        FramesConserved(old(ram[..]), ram[..], frame);
      }
    }

    /** Nothing outside the bitmap decides which frames are free. */
    lemma Frame(m: Mem, m': Mem)
      requires Same(m, m', bm.ptr, bm.ptr + bm.size)
      ensures Used(m') == Used(m) && Free(m') == Free(m)
      ensures Valid(m) && |m'| == |m| ==> Valid(m')
    {
    }

    /** Taking a free frame moves one frame from the free to the taken ones, and releasing it moves it back:
        no step loses or invents a frame. */
    lemma FramesConserved(m: Mem, m': Mem, k: int)
      requires if k in Free(m) then Used(m') == Used(m) + {k} else k in Taken(m) && Used(m') == Used(m) - {k}
      ensures k in Free(m) ==> |Free(m')| == |Free(m)| - 1 && |Taken(m')| == |Taken(m)| + 1
      ensures k in Taken(m) ==> |Free(m')| == |Free(m)| + 1 && |Taken(m')| == |Taken(m)| - 1
      ensures |Free(m')| + |Taken(m')| == |Free(m)| + |Taken(m)| == nbFrames - 1
    {
      hide Bitmap.Bits;
      if k in Free(m) {
        OneTaken(m, m', k);
      } else {
        OneTaken(m', m, k);
      }
      assert nbFrames > 1 && Free(m) + Taken(m) == Interval(1, nbFrames);
    }

    lemma OneTaken(m: Mem, m': Mem, k: int)
      requires k in Free(m) && Used(m') == Used(m) + {k}
      ensures |Free(m')| == |Free(m)| - 1 && |Taken(m')| == |Taken(m)| + 1
    {
      hide Bitmap.Bits;
      assert Free(m') == Free(m) - {k} && Taken(m') == Taken(m) + {k};
    }

    /** free_frame(P2V(a)) names frame a / 4096 for every physical address below 1 GiB, and no other address. */
    lemma FreeNamesFrame(a: nat)
      requires a < TWO32
      ensures V2P(P2V(a)) / PAGE == a / PAGE <==> a < WINDOW
    {
    }
  }

  lemma FreeLosesOne(pmm: PMM, m: Mem, m': Mem, k: int)
    requires pmm.Used(m') == pmm.Used(m) + {k}
    ensures pmm.Free(m') == pmm.Free(m) - {k} && |pmm.Free(m')| >= |pmm.Free(m)| - 1
  {
  }

  lemma FreeKept(pmm: PMM, m: Mem, m': Mem)
    requires pmm.Used(m') == pmm.Used(m)
    ensures pmm.Free(m') == pmm.Free(m)
  {
  }
}
