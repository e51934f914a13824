/** Whole runs of the heap under an arbitrary client: whatever sequence of requests and stores is made,
    every byte the client wrote into a block it still holds is there. */
module HeapRuns {
  import opened Memory
  import opened Bitmaps
  import opened Frames
  import opened Layout
  import opened Buckets
  import opened Heaps
  import opened Kmallocs

  datatype Request =
    | Malloc(size: nat)
    | Calloc(nmemb: nat, size: nat)
    | Realloc(ptr: nat, size: nat)
    | Free(ptr: nat)
    | Store(ptr: nat, k: nat, x: byte)   // the client stores x at ptr[k]

  /** The blocks a client holds: how many bytes it asked for, and what it knows to be at which offset. */
  type Known = map<int, Held>

  datatype Held = Held(size: nat, bytes: map<nat, byte>)

  function Zeros(n: nat): (bytes: map<nat, byte>)
    ensures forall k :: k in bytes ==> k < n && bytes[k] == 0
    ensures forall k: nat :: k < n ==> k in bytes
  {
    if n == 0 then map[] else WithByte(Zeros(n - 1), n - 1, 0)
  }

  function WithByte(bytes: map<nat, byte>, k: nat, x: byte): map<nat, byte> {
    var one: map<nat, byte> := map[k := x];
    bytes + one
  }

  /** The 32-bit product calloc passes on. */
  function Product(nmemb: nat, size: nat): nat {
    nmemb * size % TWO32
  }

  /** The client's bookkeeping for a served request.  It never looks at the memory. */
  function Learn(known: Known, req: Request, r: int): Known {
    match req
    case Malloc(size) => known[r := Held(size, map[])]
    case Calloc(nmemb, size) => known[r := Held(Product(nmemb, size), Zeros(Product(nmemb, size)))]
    case Realloc(ptr, size) =>
      if size == 0 then known - {ptr}
      else (known - {ptr})[r := Held(size, if ptr in known then known[ptr].bytes else map[])]
    case Free(ptr) => known - {ptr}
    case Store(ptr, k, x) =>
      if ptr in known then known[ptr := Held(known[ptr].size, WithByte(known[ptr].bytes, k, x))] else known
  }

  /** The block has the bytes asked for, or at least the 4064 behind the header of one frame when more were asked
      for, and they are as known. */
  ghost predicate Agrees(s: seq<byte>, held: Held) {
    && (if held.size <= FRAME_ROOM then held.size <= |s| else FRAME_ROOM <= |s|)
    && forall k :: k in held.bytes ==> k < |s| && s[k] == held.bytes[k]
  }

  ghost predicate Holds(contents: map<int, seq<byte>>, known: Known) {
    contents.Keys == known.Keys && forall q :: q in known ==> Agrees(contents[q], known[q])
  }

  /** What the allocator can serve: see Kmalloc for where each limit comes from. */
  ghost predicate Within(s: Moment, pmm: PMM, known: Known, req: Request) {
    match req
    case Malloc(size) => size <= HIGHEST && Servable(s, pmm, size)
    case Calloc(nmemb, size) =>
      && nmemb < TWO32 && size < TWO32
      && Product(nmemb, size) <= FRAME_ROOM && Servable(s, pmm, Product(nmemb, size))
    case Realloc(ptr, size) =>
      && (ptr == 0 || ptr in known) && size <= HIGHEST
      && (ptr != 0 && size == 0 ==> ClassIn(s.m, ptr) > 16)
      && (ptr != 0 && ClassIn(s.m, ptr) < size ==> 16 < ClassIn(s.m, ptr) <= 2048)
      && (size > 0 && (ptr == 0 || ClassIn(s.m, ptr) < size) ==> Servable(s, pmm, size))
    case Free(ptr) => ptr == 0 || (ptr in known && ClassIn(s.m, ptr) > 16)
    case Store(ptr, k, x) => ptr in known && k < SizeOf(s.m, ptr)
  }

  /** What serving the request does to the heap. */
  ghost predicate Done(s: Moment, s': Moment, pmm: PMM, req: Request, r: int) {
    match req
    case Malloc(size) => MallocDone(s, s', pmm, size, r)
    case Calloc(nmemb, size) => CallocDone(s, s', pmm, Product(nmemb, size), r)
    case Realloc(ptr, size) => ReallocDone(s, s', pmm, ptr, size, r)
    case Free(ptr) => FreeDone(s, s', pmm, ptr)
    case Store(ptr, k, x) => ptr in s.live && k < SizeOf(s.m, ptr) && StoreDone(s, s', pmm, ptr, k, x)
  }

  /** A pointer handed out is not null and is none of the client's other pointers. */
  ghost predicate NewPointer(known: Known, req: Request, r: int) {
    match req
    case Malloc(_) => r != 0 && r !in known
    case Calloc(_, _) => r != 0 && r !in known
    case Realloc(ptr, size) => if size == 0 then r == 0 else r != 0 && (r == ptr || r !in known)
    case _ => true
  }

  /** A request within the limits is served; any other changes nothing at all. */
  ghost predicate Served(s: Moment, s': Moment, pmm: PMM, known: Known, known': Known, req: Request, r: int) {
    if Within(s, pmm, known, req) then
      known' == Learn(known, req, r) && NewPointer(known, req, r) && Done(s, s', pmm, req, r)
    else
      known' == known && s' == s
  }

  /** Serves one request, or leaves everything alone when the allocator's limits rule it out. */
  method Serve(heap: Kmalloc, req: Request, known: Known) returns (known': Known, r: int)
    requires heap.Valid() && Holds(heap.Contents(), known)
    modifies heap, heap.ram
    ensures heap.Valid() && Holds(heap.Contents(), known')
    ensures Served(old(heap.Now()), heap.Now(), heap.pmm, known, known', req, r)
  {
    hide Kmalloc.Valid, Kmalloc.Contents, Served, Holds;
    match req
    case Malloc(size) => known', r := ServeMalloc(heap, size, known);
    case Calloc(nmemb, size) => known', r := ServeCalloc(heap, nmemb, size, known);
    case Realloc(ptr, size) => known', r := ServeRealloc(heap, ptr, size, known);
    case Free(ptr) => known', r := ServeFree(heap, ptr, known);
    case Store(ptr, k, x) => known', r := ServeStore(heap, ptr, k, x, known);
  }

  method ServeMalloc(heap: Kmalloc, size: nat, known: Known) returns (known': Known, r: int)
    requires heap.Valid() && Holds(heap.Contents(), known)
    modifies heap, heap.ram
    ensures heap.Valid() && Holds(heap.Contents(), known')
    ensures Served(old(heap.Now()), heap.Now(), heap.pmm, known, known', Malloc(size), r)
  {
    hide Kmalloc.Valid, Block, Taking, ForeignKept, SomeRoom, Holds, RoomOk, Room, FirstFit, PMM.Free;
    known', r := known, 0;
    if size <= HIGHEST {
      var can := CanServe(heap, size);
      if can {
        r := heap.Malloc(size);
        HoldsTaken(old(heap.ram[..]), heap.ram[..], old(heap.live), heap.live, r, known, Held(size, map[]));
        known' := known[r := Held(size, map[])];
      }
    }
  }

  method ServeCalloc(heap: Kmalloc, nmemb: nat, size: nat, known: Known) returns (known': Known, r: int)
    requires heap.Valid() && Holds(heap.Contents(), known)
    modifies heap, heap.ram
    ensures heap.Valid() && Holds(heap.Contents(), known')
    ensures Served(old(heap.Now()), heap.Now(), heap.pmm, known, known', Calloc(nmemb, size), r)
  {
    hide Kmalloc.Valid, Block, Taking, ForeignKept, SomeRoom, Holds, RoomOk, Room, Zeroed, PMM.Free;
    known', r := known, 0;
    var n := Product(nmemb, size);
    if nmemb < TWO32 && size < TWO32 && n <= FRAME_ROOM {
      var can := CanServe(heap, n);
      if can {
        r := heap.Calloc(nmemb, size);
        RoomFor(r, n);
        ZerosAgree(heap.ram[..], r, n);
        HoldsTaken(old(heap.ram[..]), heap.ram[..], old(heap.live), heap.live, r, known, Held(n, Zeros(n)));
        known' := known[r := Held(n, Zeros(n))];
      }
    }
  }

  method ServeRealloc(heap: Kmalloc, ptr: nat, size: nat, known: Known) returns (known': Known, r: int)
    requires heap.Valid() && Holds(heap.Contents(), known)
    modifies heap, heap.ram
    ensures heap.Valid() && Holds(heap.Contents(), known')
    ensures Served(old(heap.Now()), heap.Now(), heap.pmm, known, known', Realloc(ptr, size), r)
  {
    hide HeapOk, Block, ReallocDone, SomeRoom, PMM.Free, Agrees;
    known', r := known, 0;
    NullNotLive(heap.ram[..], heap.pmm, heap.buckets, heap.list, heap.live);
    if (ptr == 0 || ptr in known) && size <= HIGHEST {
      var power, can := 0, true;
      if ptr != 0 {
        power := heap.ClassAt(ptr);
      }
      if size > 0 && (ptr == 0 || power < size) {
        can := CanServe(heap, size);
      }
      if (ptr == 0 || (if size == 0 then power > 16 else size <= power || 16 < power <= 2048)) && can {
        r := heap.Realloc(ptr, size);
        HoldsReallocated(old(heap.Now()), heap.Now(), heap.pmm, ptr, size, r, power, known);
        known' := Learn(known, Realloc(ptr, size), r);
      }
    }
  }

  method ServeFree(heap: Kmalloc, ptr: nat, known: Known) returns (known': Known, r: int)
    requires heap.Valid() && Holds(heap.Contents(), known)
    modifies heap, heap.ram
    ensures heap.Valid() && Holds(heap.Contents(), known')
    ensures Served(old(heap.Now()), heap.Now(), heap.pmm, known, known', Free(ptr), r)
  {
    hide HeapOk, Block, ForeignKept, Reclaimed, LooksLast, Agrees;
    known', r := known, 0;
    NullNotLive(heap.ram[..], heap.pmm, heap.buckets, heap.list, heap.live);
    if ptr == 0 || ptr in known {
      var power := 17;
      if ptr != 0 {
        power := heap.ClassAt(ptr);
      }
      if power > 16 {
        heap.Free(ptr);
        HoldsFreed(old(heap.Contents()), ptr, known);
        known' := known - {ptr};
      }
    }
  }

  method ServeStore(heap: Kmalloc, ptr: nat, k: nat, x: byte, known: Known) returns (known': Known, r: int)
    requires heap.Valid() && Holds(heap.Contents(), known)
    modifies heap, heap.ram
    ensures heap.Valid() && Holds(heap.Contents(), known')
    ensures Served(old(heap.Now()), heap.Now(), heap.pmm, known, known', Store(ptr, k, x), r)
  {
    hide HeapOk, ForeignKept, Block, Put, Agrees, SizeOf;
    known', r := known, 0;
    if ptr in known {
      var size := heap.SizeAt(ptr);
      if k < size {
        heap.Store(ptr, k, x);
        PutAgrees(old(heap.Contents())[ptr], known[ptr], k, x);
        known' := known[ptr := Held(known[ptr].size, WithByte(known[ptr].bytes, k, x))];
      }
    }
  }

  lemma NullNotLive(m: Mem, pmm: PMM, head: int, list: seq<int>, live: set<int>)
    requires HeapOk(m, pmm, head, list, live)
    ensures 0 !in live
  {
  }

  lemma PutAgrees(s: seq<byte>, held: Held, k: nat, x: byte)
    requires Agrees(s, held) && k < |s|
    ensures Agrees(Put(s, k, x), Held(held.size, WithByte(held.bytes, k, x)))
  {
  }

  lemma HoldsTaken(m: Mem, m': Mem, live: set<int>, live': set<int>, r: int, known: Known, held: Held)
    requires Taking(m, m', live, live', r, Room(r, ClassOf(held.size))) && RoomOk(r, ClassOf(held.size))
    requires Holds(Blocks(m, live), known) && (held.bytes == map[] || Agrees(Block(m', r), held))
    ensures Holds(Blocks(m', live'), known[r := held]) && r !in known
  {
    RoomFor(r, held.size);
    assert |Block(m', r)| == Room(r, ClassOf(held.size));
    assert Agrees(Block(m', r), held);
  }

  lemma ZerosAgree(m: Mem, q: int, n: nat)
    requires Zeroed(Block(m, q), n) && n <= FRAME_ROOM
    ensures Agrees(Block(m, q), Held(n, Zeros(n)))
  {
  }

  lemma HoldsFreed(before: map<int, seq<byte>>, ptr: int, known: Known)
    requires Holds(before, known)
    ensures Holds(before - {ptr}, known - {ptr}) && (ptr !in known ==> known - {ptr} == known)
  {
  }

  /** Up to class 2048 a block has as many bytes as its class says. */
  ghost predicate Sized(m: Mem, q: int) {
    if ClassIn(m, q) <= 2048 then SizeOf(m, q) == ClassIn(m, q) else FRAME_ROOM <= SizeOf(m, q)
  }

  lemma HoldsReallocated(s: Moment, s': Moment, pmm: PMM, ptr: nat, size: nat, r: int, power: int, known: Known)
    requires ptr != 0 ==> ptr in known && power == ClassIn(s.m, ptr) && Sized(s.m, ptr)
    requires ptr != 0 && (size == 0 || power < size) ==> power > 16
    requires 0 !in s.live && Holds(Blocks(s.m, s.live), known) && ReallocDone(s, s', pmm, ptr, size, r)
    ensures Holds(Blocks(s'.m, s'.live), Learn(known, Realloc(ptr, size), r))
    ensures NewPointer(known, Realloc(ptr, size), r)
  {
    hide Moved, Taking, ForeignKept, Reclaimed, SomeRoom, Block, RoomOk, Room, SizeOf, Agrees;
    var before := Blocks(s.m, s.live);
    if size == 0 {
      HoldsFreed(before, ptr, known);
    } else if ptr == 0 {
      HoldsTaken(s.m, s'.m, s.live, s'.live, r, known, Held(size, map[]));
    } else {
      HoldsMoved(s.m, s'.m, s.live, s'.live, ptr, r, size, power, known);
    }
  }

  lemma HoldsMoved(m: Mem, m': Mem, live: set<int>, live': set<int>, ptr: int, r: int, size: nat, power: int,
                   known: Known)
    requires Holds(Blocks(m, live), known) && ptr in known && ptr != 0
    requires if power <= 2048 then SizeOf(m, ptr) == power else FRAME_ROOM <= SizeOf(m, ptr)
    requires if size <= power then r == ptr && Blocks(m', live') == Blocks(m, live)
             else RoomOk(r, ClassOf(size)) && Moved(Blocks(m, live), Blocks(m', live'), ptr, r, Room(r, ClassOf(size)))
    ensures Holds(Blocks(m', live'), (known - {ptr})[r := Held(size, known[ptr].bytes)])
    ensures r != 0 && (r == ptr || r !in known)
  {
    hide SizeOf, Room, RoomOk;
    if size <= power {
      assert |Blocks(m', live')[ptr]| == |Blocks(m, live)[ptr]|;
    } else {
      RoomFor(r, size);
      MovedHolds(Blocks(m, live), Blocks(m', live'), ptr, r, Room(r, ClassOf(size)), size, known);
    }
  }

  lemma MovedHolds(before: map<int, seq<byte>>, after: map<int, seq<byte>>, ptr: int, r: int, p: int, size: nat,
                   known: Known)
    requires Holds(before, known) && ptr in known && Moved(before, after, ptr, r, p)
    requires if size <= FRAME_ROOM then size <= p else FRAME_ROOM <= p
    ensures Holds(after, (known - {ptr})[r := Held(size, known[ptr].bytes)]) && r !in known
  {
    forall q | q in after && q != r ensures q in before && after[q] == before[q] && q != ptr {
      assert q in (after - {r}) && (after - {r})[q] == (before - {ptr})[q];
    }
    forall q | q in before && q != ptr ensures q in after {
      assert q in (before - {ptr}) && q in (after - {r});
    }
  }

  // -------- looking whether a request can be served --------

  method CanServe(heap: Kmalloc, size: nat) returns (yes: bool)
    requires heap.Valid() && size <= HIGHEST
    ensures yes <==> Servable(heap.Now(), heap.pmm, size)
  {
    hide Bitmap.Bits, HeapOk, SomeRoom;
    yes := AnyFree(heap);
    if !yes {
      var power := ComputePower(size);
      yes := AnyRoom(heap, power);
    }
  }

  method AnyFree(heap: Kmalloc) returns (free: bool)
    requires heap.Valid()
    ensures free <==> heap.pmm.Free(heap.ram[..]) != {}
  {
    hide Bitmap.Bits, Chain, Distinct, Placed, LiveOk;
    var k := 1;
    while k < heap.pmm.nbFrames
      invariant forall j :: 1 <= j < k ==> j in heap.pmm.Used(heap.ram[..])
    {
      if !heap.pmm.bm.GetBit(heap.ram, k) {
        assert k in heap.pmm.Free(heap.ram[..]);
        return true;
      }
      k := k + 1;
    }
    return false;
  }

  method AnyRoom(heap: Kmalloc, power: nat) returns (yes: bool)
    requires heap.Valid()
    ensures yes <==> SomeRoom(heap.ram[..], heap.list, power)
  {
    hide HeapOk, HasRoom, Word;
    ghost var m := heap.ram[..];
    var current := heap.buckets;
    ghost var n := 0;
    HeapList(m, heap.pmm, heap.buckets, heap.list, heap.live);
    while current != 0
      invariant 0 <= n <= |heap.list| && current == At(heap.list, n)
      invariant forall c :: 0 <= c < n ==> !HasRoom(m, heap.list[c], power)
      decreases |heap.list| - n
    {
      ListBounds(m, heap.pmm, heap.buckets, heap.list, n);
      var room := BucketHasRoom(heap, current, power);
      if room {
        assert heap.list[n] in heap.list;
        return true;
      }
      current := LoadNext(heap.ram, current);
      n := n + 1;
    }
    EndOfList(m, heap.pmm, heap.buckets, heap.list, n);
    return false;
  }

  lemma HeapList(m: Mem, pmm: PMM, head: int, list: seq<int>, live: set<int>)
    requires HeapOk(m, pmm, head, list, live)
    ensures ListOk(m, pmm, head, list) && head == At(list, 0)
  {
  }

  method BucketHasRoom(heap: Kmalloc, b: nat, power: nat) returns (yes: bool)
    requires heap.Valid() && b in heap.list
    ensures yes <==> HasRoom(heap.ram[..], b, power)
  {
    hide HeapOk, Bitmap.Bits, Word;
    BucketThere(heap.ram[..], heap.pmm, heap.buckets, heap.list, heap.live, b);
    if LoadPower(heap.ram, b) != power {
      return false;
    }
    var bm := LoadBitmap(heap.ram, b);
    for i := 0 to bm.size
      invariant forall j :: 0 <= j < i ==> Taken(heap.ram[..], b, j)
    {
      if !bm.GetBit(heap.ram, i) {
        assert !Taken(heap.ram[..], b, i);
        return true;
      }
    }
    return false;
  }

  // -------- runs --------

  /** Moment i of a run: the heap is well formed, and the client's blocks hold what its requests so far say. */
  ghost predicate HeldAt(moments: seq<Moment>, pmm: PMM, known: Known, requests: seq<Request>, answers: seq<int>,
                         served: seq<bool>, i: nat)
    requires i <= |requests| && |answers| == |served| == |requests| && |moments| > i
  {
    && MomentOk(moments[i], pmm)
    && Holds(Blocks(moments[i].m, moments[i].live), LearnAll(known, requests[..i], answers[..i], served[..i]))
  }

  /** Request i of a run was served exactly when the limits allowed it at that moment; if not, nothing changed. */
  ghost predicate ServedAt(moments: seq<Moment>, pmm: PMM, known: Known, requests: seq<Request>, answers: seq<int>,
                           served: seq<bool>, i: nat)
    requires i < |requests| && |answers| == |served| == |requests| && |moments| > i + 1
  {
    var before := LearnAll(known, requests[..i], answers[..i], served[..i]);
    && (served[i] <==> Within(moments[i], pmm, before, requests[i]))
    && (if served[i] then
          && Done(moments[i], moments[i + 1], pmm, requests[i], answers[i])
          && NewPointer(before, requests[i], answers[i])
        else moments[i + 1] == moments[i])
  }

  /** In every run from a heap that holds what the client knows, it still does at every moment. */
  method Run(heap: Kmalloc, requests: seq<Request>, known: Known)
    returns (known': Known, answers: seq<int>, ghost served: seq<bool>, ghost moments: seq<Moment>)
    requires heap.Valid() && Holds(heap.Contents(), known)
    modifies heap, heap.ram
    ensures heap.Valid() && Holds(heap.Contents(), known')
    ensures |answers| == |served| == |requests| && known' == LearnAll(known, requests, answers, served)
    ensures |moments| == |requests| + 1 && moments[0] == old(heap.Now()) && moments[|requests|] == heap.Now()
    ensures forall i :: 0 <= i <= |requests| ==> HeldAt(moments, heap.pmm, known, requests, answers, served, i)
    ensures forall i :: 0 <= i < |requests| ==> ServedAt(moments, heap.pmm, known, requests, answers, served, i)
  {
    hide Holds, Learn, HeapOk, Within, NewPointer, ServedAt, Done, Served, Blocks, HeldAt;
    known', answers, served, moments := known, [], [], [heap.Now()];
    HeldFirst(moments[0], heap.pmm, known);
    for i := 0 to |requests|
      invariant heap.Valid() && Holds(heap.Contents(), known')
      invariant |answers| == |served| == i && known' == LearnAll(known, requests[..i], answers, served)
      invariant |moments| == i + 1 && moments[0] == old(heap.Now()) && moments[i] == heap.Now()
      invariant InRun(moments, heap.pmm, known, requests[..i], answers, served)
    {
      var next, r := Serve(heap, requests[i], known');
      ghost var yes := Within(moments[i], heap.pmm, known', requests[i]);
      ServedOneMore(moments, heap.Now(), heap.pmm, known, requests, i, answers, served, known', next, r, yes);
      answers, served, moments := answers + [r], served + [yes], moments + [heap.Now()];
      known' := next;
    }
    assert requests[..|requests|] == requests;
  }

  ghost predicate InRun(moments: seq<Moment>, pmm: PMM, known: Known, requests: seq<Request>, answers: seq<int>,
                        served: seq<bool>)
  {
    && |answers| == |served| == |requests| && |moments| == |requests| + 1
    && (forall i :: 0 <= i <= |requests| ==> HeldAt(moments, pmm, known, requests, answers, served, i))
    && forall i :: 0 <= i < |requests| ==> ServedAt(moments, pmm, known, requests, answers, served, i)
  }

  lemma HeldFirst(s: Moment, pmm: PMM, known: Known)
    requires MomentOk(s, pmm) && Holds(Blocks(s.m, s.live), known)
    ensures InRun([s], pmm, known, [], [], [])
  {
    hide HeapOk, Holds, Blocks;
  }

  lemma ServedOneMore(moments: seq<Moment>, moment: Moment, pmm: PMM, known: Known, requests: seq<Request>, i: nat,
                      answers: seq<int>, served: seq<bool>, before: Known, next: Known, r: int, yes: bool)
    requires i < |requests| && |moments| == i + 1 && InRun(moments, pmm, known, requests[..i], answers, served)
    requires before == LearnAll(known, requests[..i], answers, served)
    requires Served(moments[i], moment, pmm, before, next, requests[i], r)
    requires yes == Within(moments[i], pmm, before, requests[i])
    requires MomentOk(moment, pmm) && Holds(Blocks(moment.m, moment.live), next)
    ensures InRun(moments + [moment], pmm, known, requests[..i + 1], answers + [r], served + [yes])
    ensures next == LearnAll(known, requests[..i + 1], answers + [r], served + [yes])
  {
    hide Learn, Within, NewPointer, Done, HeapOk, Holds, Blocks;
    LearnOneMore(known, requests, i, answers, served, r, yes);
    var moments', requests', answers', served' := moments + [moment], requests[..i + 1], answers + [r], served + [yes];
    forall k | 0 <= k < i + 1
      ensures ServedAt(moments', pmm, known, requests', answers', served', k)
      ensures HeldAt(moments', pmm, known, requests', answers', served', k)
    {
      assert requests'[..k] == requests[..k] == requests[..i][..k];
      assert answers'[..k] == answers[..k] && served'[..k] == served[..k];
      assert HeldAt(moments, pmm, known, requests[..i], answers, served, k);
      if k < i {
        assert ServedAt(moments, pmm, known, requests[..i], answers, served, k);
      } else {
        assert answers[..k] == answers && served[..k] == served;
      }
    }
    assert requests'[..i + 1] == requests' && answers'[..i + 1] == answers' && served'[..i + 1] == served';
    assert HeldAt(moments', pmm, known, requests', answers', served', i + 1);
  }

  /** What the client knows after a run, from its own requests and the answers alone. */
  function LearnAll(known: Known, requests: seq<Request>, answers: seq<int>, served: seq<bool>): Known
    requires |answers| == |served| == |requests|
  {
    if requests == [] then known
    else
      var n := |requests| - 1;
      var before := LearnAll(known, requests[..n], answers[..n], served[..n]);
      if served[n] then Learn(before, requests[n], answers[n]) else before
  }

  lemma LearnOneMore(known: Known, requests: seq<Request>, i: nat, answers: seq<int>, served: seq<bool>, r: int,
                     yes: bool)
    requires i < |requests| && |answers| == |served| == i
    ensures LearnAll(known, requests[..i + 1], answers + [r], served + [yes]) ==
            var before := LearnAll(known, requests[..i], answers, served);
            if yes then Learn(before, requests[i], r) else before
  {
    assert requests[..i + 1][..i] == requests[..i];
    assert (answers + [r])[..i] == answers && (served + [yes])[..i] == served;
  }

  // -------- a bucket that stays --------

  /** A run after which no block is live and yet a bucket stays on the list: the client's byte lies among the bitmap
      bytes that is_empty reads. */
  method LastBlockLeavesBucket(heap: Kmalloc) returns (b: int)
    requires heap.Valid() && heap.list == [] && heap.pmm.Free(heap.ram[..]) != {}
    modifies heap, heap.ram
    ensures heap.Valid() && heap.Contents() == map[] && heap.list == [b]
  {
    hide HeapOk, Taking, ForeignKept, SomeRoom, Room, RoomOk, FirstFit, Block, Put, LooksLast, Reclaimed, FrameOf;
    ghost var m := heap.ram[..];
    NothingListed(m, heap.pmm, heap.buckets, heap.live, 32);
    var r := heap.Malloc(32);
    b := PageBegin(r);
    ghost var m1 := heap.ram[..];
    OneBlock(m, m1, heap.pmm, heap.buckets, heap.list, heap.live, r);
    heap.Store(r, b + 35 - r, 1);
    StaysListed(heap.ram[..], heap.pmm, heap.buckets, heap.list, heap.live, r, m1);
    heap.Free(r);
    assert heap.live == {};
  }

  lemma NothingListed(m: Mem, pmm: PMM, head: int, live: set<int>, size: nat)
    requires HeapOk(m, pmm, head, [], live)
    ensures live == {} && !SomeRoom(m, [], ClassOf(size)) && ClassOf(32) == 32
  {
    NothingLive(m, pmm, head, [], live);
  }

  lemma OneBlock(m: Mem, m': Mem, pmm: PMM, head: int, list: seq<int>, live: set<int>, r: int)
    requires Taking(m, m', {}, live, r, Room(r, ClassOf(32))) && RoomOk(r, ClassOf(32))
    requires HeapOk(m', pmm, head, list, live) && r == Slot(PageBegin(r), ClassOf(32), 0)
    ensures live == {r} && 2 <= PageBegin(r) + 35 - r < 32 == SizeOf(m', r) && ClassIn(m', r) == 32
    ensures r in Blocks(m', live)
  {
    assert ClassOf(32) == 32;
    BlockBounds(m', pmm, head, list, live, r);
  }

  lemma StaysListed(m: Mem, pmm: PMM, head: int, list: seq<int>, live: set<int>, r: int, m1: Mem)
    requires HeapOk(m, pmm, head, list, live) && live == {r} && 0 <= PageBegin(r) + 35 - r < SizeOf(m1, r) == 32
    requires ClassIn(m1, r) == 32 && Blocks(m, live)[r] == Put(Blocks(m1, live)[r], PageBegin(r) + 35 - r, 1)
    ensures ClassIn(m, r) == 32 && !LooksLast(m, r)
  {
    hide LooksLast, HeapOk;
    var b := PageBegin(r);
    BlockBounds(m, pmm, head, list, live, r);
    assert |Block(m, r)| == 32 && Block(m, r)[b + 35 - r] == 1;
    assert Byte(m, b + 35) == 1;
    LooksLastExactlyWhen(m, pmm, head, list, live, r);
  }
}
