/** utils::Bitmap (src/utils/bitmap.cpp): a pointer and a length in bytes over the shared memory.
    The bytes from `ptr` on stand for a finite set of naturals. */
module Bitmaps {
  import opened Memory

  function Exp2(n: nat): (e: nat)
    ensures e >= 1
  {
    if n == 0 then 1 else 2 * Exp2(n - 1)
  }

  // b & (1 << k), b | (1 << k) and b & ~(1 << k) on binary digits
  predicate BitOf(b: nat, k: nat) {
    if k == 0 then b % 2 == 1 else BitOf(b / 2, k - 1)
  }

  function OrBit(b: nat, k: nat): nat {
    if k == 0 then b - b % 2 + 1 else 2 * OrBit(b / 2, k - 1) + b % 2
  }

  function AndNotBit(b: nat, k: nat): nat {
    if k == 0 then b - b % 2 else 2 * AndNotBit(b / 2, k - 1) + b % 2
  }

  lemma {:induction false} OrBitDigits(b: nat, k: nat, j: nat)
    ensures BitOf(OrBit(b, k), j) <==> j == k || BitOf(b, j)
  {
    if k > 0 && j > 0 {
      OrBitDigits(b / 2, k - 1, j - 1);
    }
  }

  lemma {:induction false} AndNotBitDigits(b: nat, k: nat, j: nat)
    ensures BitOf(AndNotBit(b, k), j) <==> j != k && BitOf(b, j)
  {
    if k > 0 && j > 0 {
      AndNotBitDigits(b / 2, k - 1, j - 1);
    }
  }

  lemma {:induction false} DigitsStayBelow(b: nat, k: nat, n: nat)
    requires b < Exp2(n) && k < n
    ensures OrBit(b, k) < Exp2(n) && AndNotBit(b, k) <= b
  {
    if k > 0 {
      DigitsStayBelow(b / 2, k - 1, n - 1);
    }
  }

  lemma {:induction false} SomeDigit(b: nat, n: nat) returns (k: nat)
    requires 0 < b < Exp2(n)
    ensures k < n && BitOf(b, k)
  {
    if b % 2 == 1 {
      k := 0;
    } else {
      k := SomeDigit(b / 2, n - 1);
      k := k + 1;
    }
  }

  lemma {:induction false} ZeroHasNoDigit(k: nat)
    ensures !BitOf(0, k)
  {
    if k > 0 {
      ZeroHasNoDigit(k - 1);
    }
  }

  lemma ByteRange()
    ensures Exp2(8) == 256
  {
  }

  datatype Bitmap = Bitmap(ptr: int, size: nat) {

    /** The constructor: `bits` is a number of bits, the stored size a number of bytes. */
    static function Make(ptr: int, bits: nat): Bitmap {
      Bitmap(ptr, (bits + 7) / 8)
    }

    predicate Fits(n: int) {
      InRam(n, ptr, size)
    }

    predicate Has(m: Mem, i: int) {
      0 <= i < 8 * size && BitOf(Byte(m, ptr + i / 8), i % 8)
    }

    /** The set of naturals the bytes in `m` stand for. */
    ghost function Bits(m: Mem): set<int> {
      set i | 0 <= i < 8 * size && Has(m, i)
    }

    lemma Frame(m: Mem, m': Mem)
      requires Same(m, m', ptr, ptr + size)
      ensures Bits(m') == Bits(m)
    {
    }

    /** Changing digit k of one byte changes exactly one member. */
    lemma OneByteChanged(m: Mem, m': Mem, i: nat, b: byte, b': byte, value: bool)
      requires i / 8 < size && b == Byte(m, ptr + i / 8) && b' == Byte(m', ptr + i / 8)
      requires SameOutside(m, m', ptr + i / 8, ptr + i / 8 + 1)
      requires forall k: nat :: k < 8 ==> BitOf(b', k) == if k == i % 8 then value else BitOf(b, k)
      ensures Bits(m') == if value then Bits(m) + {i} else Bits(m) - {i}
    {
    }

    function GetBit(ram: array<byte>, i: nat): (r: bool)
      requires Fits(ram.Length)
      reads ram
      ensures r <==> i in Bits(ram[..])
    {
      if i / 8 >= size then false else BitOf(Load8(ram, ptr + i / 8), i % 8)
    }

    method SetBit(ram: array<byte>, i: nat) returns (ok: bool)
      requires Fits(ram.Length)
      modifies ram
      ensures ok <==> i < 8 * size
      ensures Bits(ram[..]) == if ok then Bits(old(ram[..])) + {i} else Bits(old(ram[..]))
      ensures if ok then SameOutside(old(ram[..]), ram[..], ptr + i / 8, ptr + i / 8 + 1) else ram[..] == old(ram[..])
    {
      if i / 8 >= size {
        return false;
      }
      var b := Load8(ram, ptr + i / 8);
      ByteRange();
      DigitsStayBelow(b, i % 8, 8);
      Store8(ram, ptr + i / 8, OrBit(b, i % 8));
      forall k: nat | k < 8 ensures BitOf(OrBit(b, i % 8), k) == (k == i % 8 || BitOf(b, k)) {
        OrBitDigits(b, i % 8, k);
      }
      OneByteChanged(old(ram[..]), ram[..], i, b, OrBit(b, i % 8), true);
      return true;
    }

    method ClearBit(ram: array<byte>, i: nat) returns (ok: bool)
      requires Fits(ram.Length)
      modifies ram
      ensures ok <==> i < 8 * size
      ensures Bits(ram[..]) == Bits(old(ram[..])) - {i}
      ensures ok ==> Byte(ram[..], ptr + i / 8) == AndNotBit(Byte(old(ram[..]), ptr + i / 8), i % 8)
      ensures if ok then SameOutside(old(ram[..]), ram[..], ptr + i / 8, ptr + i / 8 + 1) else ram[..] == old(ram[..])
    {
      if i / 8 >= size {
        return false;
      }
      var b := Load8(ram, ptr + i / 8);
      ByteRange();
      DigitsStayBelow(b, i % 8, 8);
      Store8(ram, ptr + i / 8, AndNotBit(b, i % 8));
      forall k: nat | k < 8 ensures BitOf(AndNotBit(b, i % 8), k) == (k != i % 8 && BitOf(b, k)) {
        AndNotBitDigits(b, i % 8, k);
      }
      OneByteChanged(old(ram[..]), ram[..], i, b, AndNotBit(b, i % 8), false);
      return true;
    }

    /** Takes the least absent index below `size`.  The bound is the length in bytes, used as a bound on bits. */
    method SetFirstFree(ram: array<byte>) returns (r: int)
      requires Fits(ram.Length)
      modifies ram
      ensures r == -1 <==> forall i :: 0 <= i < size ==> i in Bits(old(ram[..]))
      ensures r == -1 ==> ram[..] == old(ram[..])
      ensures r != -1 ==>
                0 <= r < size && r !in Bits(old(ram[..])) && forall i :: 0 <= i < r ==> i in Bits(old(ram[..]))
      ensures r != -1 ==> Bits(ram[..]) == Bits(old(ram[..])) + {r}
      ensures r != -1 ==> SameOutside(old(ram[..]), ram[..], ptr + r / 8, ptr + r / 8 + 1)
    {
      for i := 0 to size
        invariant ram[..] == old(ram[..])
        invariant forall j :: 0 <= j < i ==> j in Bits(old(ram[..]))
      {
        if !GetBit(ram, i) {
          var _ := SetBit(ram, i);
          return i;
        }
      }
      return -1;
    }

    method IsEmpty(ram: array<byte>) returns (r: bool)
      requires Fits(ram.Length)
      ensures r <==> Bits(ram[..]) == {}
    {
      for i := 0 to size
        invariant forall j :: 0 <= j < 8 * i ==> j !in Bits(ram[..])
      {
        var b := Load8(ram, ptr + i);
        if b != 0 {
          ByteRange();
          ghost var k := SomeDigit(b, 8);
          assert (8 * i + k) / 8 == i && (8 * i + k) % 8 == k;
          assert 8 * i + k in Bits(ram[..]);
          return false;
        }
        forall j | 8 * i <= j < 8 * (i + 1) ensures j !in Bits(ram[..]) {
          ZeroHasNoDigit(j % 8);
          assert j / 8 == i;
        }
      }
      return true;
    }
  }
}
