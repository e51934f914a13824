/** utils::parse_tar (src/utils/tar.cpp) against a writer of ustar archives. */
module Tars {
  import opened Memory

  const BLOCK := 512        // archives are made of 512-byte blocks
  const ENTRY := 157        // sizeof(TarEntry)
  const SIZE_AT := 124      // offset of the size field, 11 octal digits and one more byte

  // -------- the size field --------

  /** What `in[j] - '0'` is, char being signed on this target. */
  function Digit(c: byte): int {
    (if c < 128 then c as int else c as int - 256) - '0' as int
  }

  /** Reading a size field as an octal number, without wrap-around. */
  function Octal(s: seq<byte>): int {
    if s == [] then 0 else Octal(s[..|s| - 1]) * 8 + Digit(s[|s| - 1])
  }

  /** One more byte: '0' is 48, and bytes from 128 on are negative. */
  lemma OctalGrows(s: seq<byte>, c: byte)
    ensures Octal([]) == 0
    ensures Octal(s + [c]) == 8 * Octal(s) + (if c < 128 then c as int - 48 else c as int - 304)
  {
    assert (s + [c])[..|s|] == s;
  }

  function Pow8(n: nat): nat {
    if n == 0 then 1 else 8 * Pow8(n - 1)
  }

  function Size(field: seq<byte>): (r: nat)
    requires |field| >= 11
    ensures r < TWO32
  {
    Octal(field[..11]) % TWO32
  }

  lemma SameMod(x: int, y: int, k: int)
    requires x == y + TWO32 * k
    ensures x % TWO32 == y % TWO32
  {
  }

  lemma SizeStep(x: int, d: int, p: nat)
    ensures (x % TWO32 + d * (p % TWO32)) % TWO32 == (x + d * p) % TWO32
    ensures p % TWO32 * 8 % TWO32 == 8 * p % TWO32
  {
    var q := p / TWO32;
    assert d * p == d * (p % TWO32) + TWO32 * (d * q) by {
      assert p == p % TWO32 + TWO32 * q;
      assert d * (TWO32 * q) == TWO32 * (d * q);
    }
    SameMod(x + d * p, x % TWO32 + d * (p % TWO32), x / TWO32 + d * q);
    SameMod(8 * p, p % TWO32 * 8, 8 * q);
  }

  method GetSize(ram: array<byte>, field: int) returns (size: nat)
    requires InRam(ram.Length, field, 12)
    ensures size == Size(Bytes(ram[..], field, 12))
  {
    size := 0;
    var count := 1;
    var j := 11;
    ghost var s, exact := Bytes(ram[..], field, 12), 0;
    while j > 0
      invariant 0 <= j <= 11 && count == Pow8(11 - j) % TWO32 && size == exact % TWO32
      invariant exact + Octal(s[..j]) * Pow8(11 - j) == Octal(s[..11])
    {
      var c := Load8(ram, field + j - 1);
      ghost var p := Pow8(11 - j);
      SizeStep(exact, Digit(c), p);
      NextDigit(s[..j], p);
      assert s[..j][..j - 1] == s[..j - 1];
      exact := exact + Digit(c) * p;
      size := (size + Digit(c) * count) % TWO32;
      j, count := j - 1, count * 8 % TWO32;
    }
  }

  lemma NextDigit(s: seq<byte>, p: nat)
    requires s != []
    ensures Octal(s) * p == Octal(s[..|s| - 1]) * (8 * p) + Digit(s[|s| - 1]) * p
  {
    Distributes(Octal(s[..|s| - 1]), Digit(s[|s| - 1]), p);
  }

  lemma Distributes(h: int, d: int, p: int)
    ensures (h * 8 + d) * p == h * (8 * p) + d * p
  {
  }

  /** n in k octal digits, as a writer puts it. */
  function OctalDigits(n: nat, k: nat): (s: seq<byte>)
    ensures |s| == k
  {
    if k == 0 then [] else OctalDigits(n / 8, k - 1) + [(n % 8 + '0' as int) as byte]
  }

  lemma {:induction false} OctalReadsBack(n: nat, k: nat)
    requires n < Pow8(k)
    ensures Octal(OctalDigits(n, k)) == n
  {
    if k > 0 {
      OctalReadsBack(n / 8, k - 1);
      assert OctalDigits(n, k)[..k - 1] == OctalDigits(n / 8, k - 1);
    }
  }

  lemma ElevenDigits()
    ensures Pow8(11) == 0x2_0000_0000
  {
    assert Pow8(4) == 4096;
    assert Pow8(8) == 4096 * 4096;
  }

  /** The size field can say up to 8^11 - 1 = 2^33 - 1; getsize keeps 32 bits. */
  lemma SizeExactlyWhen(n: nat, field: seq<byte>)
    requires n < 0x2_0000_0000 && |field| >= 11 && field[..11] == OctalDigits(n, 11)
    ensures Size(field) == n <==> n < TWO32
  {
    hide OctalDigits, Octal;
    ElevenDigits();
    OctalReadsBack(n, 11);
  }

  // -------- what the reader finds --------

  datatype Entry = Entry(header: seq<byte>, data: seq<byte>)
  datatype Option<T> = Some(value: T) | None

  /** Where the reader looks for the header after one at `address` whose file has `size` bytes. */
  function NextHeader(address: nat, size: nat): nat {
    address + (size / BLOCK + 1) * BLOCK + if size % BLOCK != 0 then BLOCK else 0
  }

  lemma NextSkipsHeaderAndBlocks(address: nat, size: nat)
    ensures NextHeader(address, size) == address + 512 + (size + 511) / 512 * 512
  {
  }

  /** The entries found from `address` on, entry number `i` being the first: None when a read would leave
      the memory. */
  function Entries(memory: Mem, address: nat, i: nat): Option<seq<Entry>>
    decreases |memory| - address
  {
    if address + i >= |memory| then None
    else if memory[address + i] == 0 then Some([])
    else if address + BLOCK > |memory| then None
    else
      var size := Size(memory[address + SIZE_AT..address + SIZE_AT + 12]);
      if address + BLOCK + size > |memory| then None
      else
        match Entries(memory, NextHeader(address, size), i + 1)
        case None => None
        case Some(rest) => Some([EntryAt(memory, address, size)] + rest)
  }

  function EntryAt(memory: Mem, address: nat, size: nat): Entry
    requires address + BLOCK + size <= |memory|
  {
    Entry(memory[address..address + ENTRY], memory[address + BLOCK..address + BLOCK + size])
  }

  /** One step of Entries. */
  lemma EntryFound(memory: Mem, address: nat, i: nat)
    requires Entries(memory, address, i).Some? && memory[address + i] != 0
    ensures address + BLOCK <= |memory|
    ensures var size := Size(memory[address + SIZE_AT..address + SIZE_AT + 12]);
            && address + BLOCK + size <= |memory|
            && address < NextHeader(address, size) < |memory| && Entries(memory, NextHeader(address, size), i + 1).Some?
            && Entries(memory, address, i).value
               == [EntryAt(memory, address, size)] + Entries(memory, NextHeader(address, size), i + 1).value
  {
  }

  lemma InMemory(memory: Mem, address: nat, i: nat)
    requires Entries(memory, address, i).Some?
    ensures address + i < |memory|
    ensures memory[address + i] == 0 ==> Entries(memory, address, i).value == []
  {
  }

  // -------- a writer of ustar archives (the pax utility, IEEE Std 1003.1-2017) --------

  /** `meta` are the mode, uid and gid fields, `tail` everything after the size field. */
  datatype File = File(name: seq<byte>, meta: seq<byte>, data: seq<byte>, tail: seq<byte>)

  predicate FileOk(f: File) {
    && 1 <= |f.name| <= 100 && (forall c :: c in f.name ==> c != 0)
    && |f.meta| == 24 && |f.tail| == 376 && |f.data| < TWO32
  }

  function Nuls(n: nat): (s: seq<byte>)
    ensures |s| == n && forall k :: 0 <= k < n ==> s[k] == 0
  {
    seq(n, _ => 0)
  }

  function Header(f: File): (h: seq<byte>)
    requires FileOk(f)
    ensures |h| == 512
  {
    f.name + Nuls(100 - |f.name|) + f.meta + OctalDigits(|f.data|, 11) + [0] + f.tail
  }

  function Padded(data: seq<byte>): (s: seq<byte>)
    ensures |s| == (|data| + 511) / 512 * 512
  {
    data + Nuls((|data| + 511) / 512 * 512 - |data|)
  }

  /** The archive ends with two blocks of zeros. */
  function Archive(files: seq<File>): (s: seq<byte>)
    requires forall f :: f in files ==> FileOk(f)
    ensures |s| >= |files| * 512 + 1024
  {
    if files == [] then Nuls(1024)
    else Header(files[0]) + Padded(files[0].data) + Archive(files[1..])
  }

  function EntryOf(f: File): Entry
    requires FileOk(f)
  {
    Entry(Header(f)[..157], f.data)
  }

  const SIZE_END := 135     // where every header has a zero byte, behind the digits of the size

  /** What the reader makes of the files from number i on: it stops at the first file whose header has a
      zero byte at the file's own number, and so at number 135. */
  function Reached(files: seq<File>, i: nat): seq<Entry>
    requires (forall f :: f in files ==> FileOk(f)) && i <= SIZE_END
  {
    if files == [] || !Seen(files[0], i) then [] else [EntryOf(files[0])] + Reached(files[1..], i + 1)
  }

  /** Byte k of the file's header is not zero: a byte of the name, of mode, uid and gid, or a digit of the size. */
  predicate Seen(f: File, k: nat)
    requires FileOk(f)
  {
    if k < 100 then k < |f.name| else if k < SIZE_AT then f.meta[k - 100] != 0 else k < SIZE_END
  }

  ghost predicate Holds(memory: Mem, address: nat, s: seq<byte>) {
    address + |s| <= |memory| && memory[address..address + |s|] == s
  }

  lemma HoldsParts(memory: Mem, address: nat, s: seq<byte>, t: seq<byte>)
    requires Holds(memory, address, s + t)
    ensures Holds(memory, address, s) && Holds(memory, address + |s|, t) && address + |s| <= |memory|
  {
    assert memory[address..address + |s|] == (s + t)[..|s|];
    assert memory[address + |s|..address + |s| + |t|] == (s + t)[|s|..];
  }

  /** A header as the reader sees it. */
  lemma HeaderFields(f: File)
    requires FileOk(f)
    ensures Header(f)[..|f.name|] == f.name
    ensures forall k :: |f.name| <= k < 100 ==> Header(f)[k] == 0
    ensures Size(Header(f)[SIZE_AT..SIZE_AT + 12]) == |f.data|
    ensures |EntryOf(f).header| == 157 && Size(EntryOf(f).header[124..136]) == |f.data|
  {
    var field := Header(f)[SIZE_AT..SIZE_AT + 12];
    assert field[..11] == OctalDigits(|f.data|, 11) && EntryOf(f).header[124..136] == field;
    SizeExactlyWhen(|f.data|, field);
  }

  /** The first file's record as the reader sees it: it lands on the next header. */
  lemma RecordAt(memory: Mem, address: nat, files: seq<File>)
    requires forall f :: f in files ==> FileOk(f)
    requires files != [] && Holds(memory, address, Archive(files))
    ensures var size := |files[0].data|;
            && address + BLOCK + size <= |memory| && EntryAt(memory, address, size) == EntryOf(files[0])
            && Size(memory[address + SIZE_AT..address + SIZE_AT + 12]) == size
            && Holds(memory, NextHeader(address, size), Archive(files[1..]))
  {
    hide Header, OctalDigits, Size, FileOk, Padded, Holds;
    var f, rest := files[0], Archive(files[1..]);
    assert Archive(files) == Header(f) + (Padded(f.data) + rest);
    HoldsParts(memory, address, Header(f), Padded(f.data) + rest);
    HoldsParts(memory, address + BLOCK, Padded(f.data), rest);
    DataAt(memory, address + BLOCK, f.data);
    HeaderAt(memory, address, f);
    NextSkipsHeaderAndBlocks(address, |f.data|);
  }

  lemma DataAt(memory: Mem, address: nat, data: seq<byte>)
    requires Holds(memory, address, Padded(data))
    ensures address + |data| <= |memory| && memory[address..address + |data|] == data
  {
    HoldsParts(memory, address, data, Padded(data)[|data|..]);
  }

  lemma HeaderAt(memory: Mem, address: nat, f: File)
    requires FileOk(f) && Holds(memory, address, Header(f))
    ensures address + BLOCK <= |memory|
    ensures Size(memory[address + SIZE_AT..address + SIZE_AT + 12]) == |f.data|
    ensures memory[address..address + ENTRY] == Header(f)[..ENTRY]
  {
    hide Header, OctalDigits, Size;
    HeaderFields(f);
    PartAt(memory, address, Header(f), 0, ENTRY);
    PartAt(memory, address, Header(f), SIZE_AT, 12);
  }

  lemma PartAt(memory: Mem, address: nat, s: seq<byte>, at: nat, n: nat)
    requires Holds(memory, address, s) && at + n <= |s|
    ensures address + at + n <= |memory| && memory[address + at..address + at + n] == s[at..at + n]
  {
    var whole, part := memory[address..address + |s|], memory[address + at..address + at + n];
    forall k | 0 <= k < n ensures part[k] == s[at + k] {
      assert whole[at + k] == memory[address + at + k];
    }
  }

  lemma {:induction false} EntriesOfArchive(memory: Mem, address: nat, files: seq<File>, i: nat)
    requires (forall f :: f in files ==> FileOk(f)) && i <= SIZE_END
    requires Holds(memory, address, Archive(files))
    ensures Entries(memory, address, i) == Some(Reached(files, i))
    decreases |files|
  {
    hide Header, Archive, Size, EntryAt, EntryOf, Seen;
    assert memory[address + i] == memory[address..address + |Archive(files)|][i];
    StopsExactlyWhen(files, i);
    if files == [] {
      NothingLeft();
    } else if Seen(files[0], i) {
      NotAtEnd(files[0], i);
      RecordAt(memory, address, files);
      EntriesOfArchive(memory, NextHeader(address, |files[0].data|), files[1..], i + 1);
    }
  }

  lemma NothingLeft()
    ensures Archive([]) == Nuls(1024)
  {
  }

  function All(files: seq<File>): (s: seq<Entry>)
    requires forall f :: f in files ==> FileOk(f)
    ensures |s| == |files|
  {
    seq(|files|, k requires 0 <= k < |files| => assert files[k] in files; EntryOf(files[k]))
  }

  /** The round trip: all files come back, in order, exactly when the byte of each header at the file's own number is
      not zero; of the first 100 files that is when each name is longer than the number, and never of more than 135. */
  lemma RoundTripExactlyWhen(memory: Mem, address: nat, files: seq<File>)
    requires (forall f :: f in files ==> FileOk(f)) && Holds(memory, address, Archive(files))
    ensures Entries(memory, address, 0) == Some(All(files)) <==> forall k :: 0 <= k < |files| ==> Seen(files[k], k)
    ensures |files| <= 100 ==>
              ((forall k :: 0 <= k < |files| ==> Seen(files[k], k)) <==>
               (forall k :: 0 <= k < |files| ==> k < |files[k].name|))
    ensures |files| > 135 ==> Entries(memory, address, 0) != Some(All(files))
  {
    hide Entries, Archive, Seen, Holds, FileOk, Reached, All;
    EntriesOfArchive(memory, address, files, 0);
    ReachedExactlyWhen(files, 0);
    forall k | 0 <= k < |files| && k < 100 ensures Seen(files[k], k) <==> k < |files[k].name| {
      NotAtEnd(files[k], k);
    }
    if |files| > 135 {
      NotAtEnd(files[SIZE_END], SIZE_END);
    }
  }

  lemma {:induction false} ReachedExactlyWhen(files: seq<File>, i: nat)
    requires (forall f :: f in files ==> FileOk(f)) && i <= SIZE_END
    ensures Reached(files, i) == All(files) <==> forall k :: 0 <= k < |files| ==> Seen(files[k], i + k)
    decreases |files|
  {
    hide Header, Archive, EntryOf, Seen;
    if files != [] {
      NotAtEnd(files[0], i);
      assert All(files) != [];
      if Seen(files[0], i) {
        var rest := files[1..];
        ReachedExactlyWhen(rest, i + 1);
        assert All(files) == [EntryOf(files[0])] + All(rest);
        assert Reached(files, i) == All(files) <==> Reached(rest, i + 1) == All(rest) by {
          if Reached(files, i) == All(files) {
            assert Reached(rest, i + 1) == Reached(files, i)[1..] && All(rest) == All(files)[1..];
          }
        }
        assert forall k | 0 <= k < |rest| :: rest[k] == files[k + 1];
        assert forall k | 1 <= k < |files| :: files[k] == rest[k - 1];
      } else {
        assert !Seen(files[0], i + 0);
      }
    }
  }

  lemma NotAtEnd(f: File, i: nat)
    requires FileOk(f)
    ensures Seen(f, i) ==> i < SIZE_END
    ensures i < 100 ==> (Seen(f, i) <==> i < |f.name|)
  {
  }

  /** What is reached is the first files, unchanged. */
  lemma {:induction false} ReachedIsPrefix(files: seq<File>, i: nat)
    requires (forall f :: f in files ==> FileOk(f)) && i <= SIZE_END
    ensures Reached(files, i) <= All(files)
    decreases |files|
  {
    hide Header, Archive, EntryOf;
    if files != [] && Seen(files[0], i) {
      ReachedIsPrefix(files[1..], i + 1);
      assert All(files) == [EntryOf(files[0])] + All(files[1..]);
    }
  }

  /** The reader stops at number i exactly when that byte of the header is zero. */
  lemma StopsExactlyWhen(files: seq<File>, i: nat)
    requires (forall f :: f in files ==> FileOk(f)) && i <= SIZE_END
    ensures Archive(files)[i] == 0 <==> files == [] || !Seen(files[0], i)
  {
    hide Header, Seen;
    if files != [] {
      assert Archive(files)[i] == Header(files[0])[i];
      HeaderByte(files[0], i);
    }
  }

  lemma HeaderByte(f: File, i: nat)
    requires FileOk(f) && i <= SIZE_END
    ensures Header(f)[i] != 0 <==> Seen(f, i)
  {
    hide OctalDigits, Size;
    var digits := OctalDigits(|f.data|, 11);
    DigitsNotZero(|f.data|, 11);
    assert SIZE_AT <= i < SIZE_END ==> Header(f)[i] == digits[i - SIZE_AT];
    assert i < |f.name| ==> Header(f)[i] == f.name[i] && f.name[i] in f.name;
  }

  lemma {:induction false} DigitsNotZero(n: nat, k: nat)
    ensures forall j :: 0 <= j < k ==> OctalDigits(n, k)[j] != 0
  {
    if k > 0 {
      DigitsNotZero(n / 8, k - 1);
    }
  }
}
