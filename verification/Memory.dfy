/** One flat, byte-addressed physical memory, seen by the kernel at KERNEL and up,
    with the byte loops of src/utils/string.cpp that work on it.

    The memory is an `array<byte>` indexed by physical address.  A kernel pointer `a`
    names the byte at physical address `a - KERNEL`.  Specifications talk about a
    snapshot `m` of the whole array through `Byte(m, a)` and `Word(m, a)`. */
module Memory {

  const KERNEL: int := 0xC000_0000    // KERNEL_OFFSET
  const WINDOW: int := 0x4000_0000    // addresses the masks of V2P and P2V keep: 1 GiB
  const TWO32: int := 0x1_0000_0000
  const PAGE: int := 4096

  type byte = x: int | 0 <= x < 256
  type Mem = seq<byte>

  // a & ~KERNEL_OFFSET and a | KERNEL_OFFSET on 32-bit values
  function V2P(a: nat): nat {
    a % WINDOW
  }

  function P2V(a: nat): (v: nat)
    ensures KERNEL <= v < TWO32
  {
    KERNEL + a % WINDOW
  }

  lemma P2VInvertsV2P(a: nat)
    requires a < TWO32
    ensures V2P(P2V(a)) == a <==> a < 0x4000_0000
    ensures P2V(V2P(a)) == a <==> 0xC000_0000 <= a
    ensures a < 0x4000_0000 ==> P2V(a) == a + 0xC000_0000
    ensures P2V(P2V(a)) == P2V(a)
    ensures P2V(a) != 0
  {
  }

  /** The `len` bytes at kernel pointer `a` exist in a memory of `n` bytes. */
  predicate InRam(n: int, a: int, len: int) {
    KERNEL <= a && 0 <= len && a + len <= KERNEL + n
  }

  /** The byte at kernel pointer `a`; 0 for a pointer outside the memory. */
  function Byte(m: Mem, a: int): byte {
    if KERNEL <= a < KERNEL + |m| then m[a - KERNEL] else 0
  }

  /** The little-endian 32-bit word at kernel pointer `a`. */
  function Word(m: Mem, a: int): (w: int)
    ensures 0 <= w < TWO32
  {
    Byte(m, a) + 0x100 * Byte(m, a + 1) + 0x1_0000 * Byte(m, a + 2) + 0x100_0000 * Byte(m, a + 3)
  }

  /** The n bytes from kernel pointer `lo` on. */
  function Bytes(m: Mem, lo: int, n: nat): (s: seq<byte>)
    ensures |s| == n && forall k :: 0 <= k < n ==> s[k] == Byte(m, lo + k)
  {
    seq<byte>(n, k => Byte(m, lo + k))
  }

  /** `m` and `m'` hold the same bytes at kernel pointers lo, ..., hi-1. */
  ghost predicate Same(m: Mem, m': Mem, lo: int, hi: int) {
    forall a :: lo <= a < hi ==> Byte(m', a) == Byte(m, a)
  }

  /** `m'` differs from `m` at most at kernel pointers lo, ..., hi-1. */
  ghost predicate SameOutside(m: Mem, m': Mem, lo: int, hi: int) {
    && |m'| == |m|
    && forall a :: !(lo <= a < hi) ==> Byte(m', a) == Byte(m, a)
  }

  lemma WordSame(m: Mem, m': Mem, a: int)
    requires Same(m, m', a, a + 4)
    ensures Word(m', a) == Word(m, a)
  {
  }

  function Load8(ram: array<byte>, a: int): byte
    requires InRam(ram.Length, a, 1)
    reads ram
  {
    Byte(ram[..], a)
  }

  function Load32(ram: array<byte>, a: int): int
    requires InRam(ram.Length, a, 4)
    reads ram
  {
    Word(ram[..], a)
  }

  method Store8(ram: array<byte>, a: int, x: byte)
    requires InRam(ram.Length, a, 1)
    modifies ram
    ensures Byte(ram[..], a) == x
    ensures SameOutside(old(ram[..]), ram[..], a, a + 1)
  {
    ram[a - KERNEL] := x;
  }

  lemma Digits(w: int)
    requires 0 <= w < TWO32
    ensures w / 0x100_0000 < 256
    ensures w % 256 + 0x100 * (w / 256 % 256) + 0x1_0000 * (w / 0x1_0000 % 256) + 0x100_0000 * (w / 0x100_0000) == w
  {
    assert w / 0x1_0000 == w / 256 / 256;
    assert w / 0x100_0000 == w / 0x1_0000 / 256;
  }

  method Store32(ram: array<byte>, a: int, w: int)
    requires InRam(ram.Length, a, 4) && 0 <= w < TWO32
    modifies ram
    ensures Word(ram[..], a) == w
    ensures SameOutside(old(ram[..]), ram[..], a, a + 4)
  {
    Digits(w);
    Store8(ram, a, w % 256);
    Store8(ram, a + 1, w / 256 % 256);
    Store8(ram, a + 2, w / 0x1_0000 % 256);
    Store8(ram, a + 3, w / 0x100_0000);
  }

  method Memset(ram: array<byte>, dst: int, val: byte, size: nat)
    requires InRam(ram.Length, dst, size)
    modifies ram
    ensures SameOutside(old(ram[..]), ram[..], dst, dst + size)
    ensures forall a :: dst <= a < dst + size ==> Byte(ram[..], a) == val
  {
    for i := 0 to size
      invariant SameOutside(old(ram[..]), ram[..], dst, dst + i)
      invariant forall a :: dst <= a < dst + i ==> Byte(ram[..], a) == val
    {
      Store8(ram, dst + i, val);
    }
  }

  /** Where the forward loop of memcpy takes its i-th byte from, in the memory the call started with.
      Copying upwards into its own source repeats the first dst - src bytes. */
  function CopySource(dst: int, src: int, i: nat): int {
    if src < dst then src + i % (dst - src) else src + i
  }

  lemma CopySourceShift(dst: int, src: int, i: nat)
    ensures src < dst && dst - src <= i ==> CopySource(dst, src, i - (dst - src)) == CopySource(dst, src, i)
    ensures !(src < dst && dst - src <= i) ==> CopySource(dst, src, i) == src + i
  {
    if src < dst {
      var d := dst - src;
      if d <= i {
        assert i == (i / d) * d + i % d;
        ModUnique(i - d, d, i / d - 1, i % d);
      } else {
        ModUnique(i, d, 0, i);
      }
    }
  }

  lemma ModUnique(x: int, d: int, q: int, r: int)
    requires d > 0 && 0 <= r < d && x == q * d + r
    ensures x / d == q && x % d == r
  {
    var e := q - x / d;
    assert e * d == x % d - r;
    assert e >= 1 ==> e * d >= d;
    assert e <= -1 ==> e * d <= -d;
  }

  method Memcpy(ram: array<byte>, dst: int, src: int, size: nat)
    requires InRam(ram.Length, dst, size) && InRam(ram.Length, src, size)
    modifies ram
    ensures SameOutside(old(ram[..]), ram[..], dst, dst + size)
    ensures forall a :: dst <= a < dst + size ==> Byte(ram[..], a) == Byte(old(ram[..]), CopySource(dst, src, a - dst))
    ensures dst <= src || src + size <= dst ==>
              forall a :: dst <= a < dst + size ==> Byte(ram[..], a) == Byte(old(ram[..]), src + (a - dst))
  {
    ghost var m := ram[..];
    for i := 0 to size
      invariant SameOutside(m, ram[..], dst, dst + i)
      invariant forall a :: dst <= a < dst + i ==> Byte(ram[..], a) == Byte(m, CopySource(dst, src, a - dst))
    {
      CopySourceShift(dst, src, i);
      var x := Load8(ram, src + i);
      assert x == Byte(m, CopySource(dst, src, i));
      Store8(ram, dst + i, x);
    }
    if dst <= src || src + size <= dst {
      forall a | dst <= a < dst + size ensures Byte(ram[..], a) == Byte(m, src + (a - dst)) {
        CopySourceShift(dst, src, a - dst);
      }
    }
  }

  method Memmove(ram: array<byte>, dst: int, src: int, size: nat)
    requires InRam(ram.Length, dst, size) && InRam(ram.Length, src, size)
    modifies ram
    ensures SameOutside(old(ram[..]), ram[..], dst, dst + size)
    ensures forall a :: dst <= a < dst + size ==> Byte(ram[..], a) == Byte(old(ram[..]), src + (a - dst))
  {
    ghost var m := ram[..];
    if dst < src {
      for i := 0 to size
        invariant SameOutside(m, ram[..], dst, dst + i)
        invariant forall a :: dst <= a < dst + i ==> Byte(ram[..], a) == Byte(m, src + (a - dst))
      {
        var x := Load8(ram, src + i);
        Store8(ram, dst + i, x);
      }
    } else {
      for i := size downto 0
        invariant SameOutside(m, ram[..], dst + i, dst + size)
        invariant forall a :: dst + i <= a < dst + size ==> Byte(ram[..], a) == Byte(m, src + (a - dst))
      {
        var x := Load8(ram, src + i);
        Store8(ram, dst + i, x);
      }
    }
  }

  /** memcpy moves correctly for every memory exactly when it does not copy upwards into its own source. */
  lemma MemcpyMovesExactlyWhen(dst: int, src: int, size: nat)
    ensures (forall i: nat :: i < size ==> CopySource(dst, src, i) == src + i)
            <==> dst <= src || src + size <= dst
  {
    if dst <= src || src + size <= dst {
      forall i: nat | i < size ensures CopySource(dst, src, i) == src + i {
        CopySourceShift(dst, src, i);
      }
    } else {
      var d := dst - src;
      CopySourceShift(dst, src, d);
      CopySourceShift(dst, src, 0);
      assert CopySource(dst, src, d) != src + d;
    }
  }

  /** The bytes at `one` and those of `two` first differ at index k. */
  ghost predicate FirstDifference(m: Mem, one: int, two: seq<byte>, k: nat)
    requires k < |two|
  {
    Byte(m, one + k) != two[k] && forall j :: 0 <= j < k ==> Byte(m, one + j) == two[j]
  }

  method Memcmp(ram: array<byte>, one: int, two: seq<byte>) returns (r: int)
    requires InRam(ram.Length, one, |two|)
    ensures r == 0 <==> forall k :: 0 <= k < |two| ==> Byte(ram[..], one + k) == two[k]
    ensures forall k :: 0 <= k < |two| && FirstDifference(ram[..], one, two, k) ==>
              r == if Byte(ram[..], one + k) < two[k] then -1 else 1
  {
    for i := 0 to |two|
      invariant forall k :: 0 <= k < i ==> Byte(ram[..], one + k) == two[k]
    {
      var x := Load8(ram, one + i);
      if x < two[i] {
        return -1;
      }
      if two[i] < x {
        return 1;
      }
    }
    return 0;
  }
}
