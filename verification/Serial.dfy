/** serial::Serial number printing (src/outputs/serial.cpp): digits go through a shared stack, and what
    comes out reads back as the number. */
module Serials {
  import opened Bitmaps


  // -------- numerals --------

  /** The digits of v in base b, most significant first; none for 0. */
  function Digits(v: nat, b: nat): (s: seq<nat>)
    requires b >= 2
    ensures forall d :: d in s ==> d < b
  {
    if v == 0 then [] else Digits(v / b, b) + [v % b]
  }

  /** The number a sequence of digits stands for. */
  function Value(s: seq<nat>, b: nat): nat {
    if s == [] then 0 else Value(s[..|s| - 1], b) * b + s[|s| - 1]
  }

  lemma {:induction false} DigitsRead(v: nat, b: nat)
    requires b >= 2
    ensures Value(Digits(v, b), b) == v
    ensures v > 0 ==> Digits(v, b) != [] && Digits(v, b)[0] != 0
  {
    if v > 0 {
      var q, d := v / b, v % b;
      HighAndLow(v, b);
      LastDigit(v, b);
      DigitsRead(q, b);
      LastRead(Digits(q, b), d, b);
      assert Digits(v, b) == Digits(q, b) + [d];
      assert Value(Digits(q, b), b) * b == q * b;
    }
  }

  lemma LastRead(s: seq<nat>, d: nat, b: nat)
    ensures Value(s + [d], b) == Value(s, b) * b + d
    ensures s != [] ==> (s + [d])[0] == s[0]
  {
  }

  lemma HighAndLow(v: nat, b: nat)
    requires b > 0
    ensures v / b * b + v % b == v && (v / b == 0 ==> v % b == v)
  {
  }

  lemma {:induction false} LeadingZeros(n: nat, s: seq<nat>, b: nat)
    ensures Value(Zeros(n) + s, b) == Value(s, b)
  {
    if s != [] {
      var m := |s| - 1;
      LeadingZeros(n, s[..m], b);
      assert (Zeros(n) + s)[..n + m] == Zeros(n) + s[..m];
    } else if n > 0 {
      LeadingZeros(n - 1, [], b);
      assert (Zeros(n) + s)[..n - 1] == Zeros(n - 1) + s;
    }
  }

  function Zeros(n: nat): (s: seq<nat>)
    ensures |s| == n
  {
    seq(n, _ => 0)
  }

  const HEX: string := "0123456789ABCDEF"

  function Char(d: nat): char {
    if d < 16 then HEX[d] else '?'
  }

  function Chars(s: seq<nat>): (t: string)
    ensures |t| == |s|
  {
    seq(|s|, i requires 0 <= i < |s| => Char(s[i]))
  }

  /** Reading a character back. */
  function DigitOf(c: char): nat {
    if '0' <= c <= '9' then (c - '0') as nat else if 'A' <= c <= 'F' then (c - 'A') as nat + 10 else 0
  }

  function Parse(t: string, b: nat): nat {
    Value(seq(|t|, i requires 0 <= i < |t| => DigitOf(t[i])), b)
  }

  lemma CharsParse(s: seq<nat>, b: nat)
    requires b <= 16 && forall d :: d in s ==> d < b
    ensures Parse(Chars(s), b) == Value(s, b)
    ensures forall c :: c in Chars(s) ==> '0' <= c <= '9' || ('A' <= c <= 'F' && b > 10)
  {
    assert forall d | d in s :: '0' <= Char(d) <= '9' || ('A' <= Char(d) <= 'F' && b > 10) by {
      assert forall d: nat | d < 10 :: '0' <= Char(d) <= '9';
      assert forall d: nat | 10 <= d < 16 :: 'A' <= Char(d) <= 'F';
    }
    var t := Chars(s);
    forall i | 0 <= i < |s| ensures DigitOf(t[i]) == s[i] {
      assert s[i] in s;
    }
    assert seq(|t|, i requires 0 <= i < |t| => DigitOf(t[i])) == s;
  }

  /** What print_dec writes. */
  function Dec(v: nat): string {
    if v == 0 then "0" else Chars(Digits(v, 10))
  }

  /** What print_hex writes. */
  function Hex(v: nat, bits: nat): string {
    var s := Digits(v, 16);
    "0x" + Chars(Zeros(if bits / 4 < |s| then 0 else bits / 4 - |s|) + s)
  }

  lemma DecReadsBack(v: nat)
    ensures Parse(Dec(v), 10) == v
    ensures Dec(v)[0] == '0' <==> v == 0
    ensures v == 0 ==> |Dec(v)| == 1
    ensures forall c :: c in Dec(v) ==> '0' <= c <= '9'
  {
    if v == 0 {
      assert Dec(v) == Chars([0]);
      CharsParse([0], 10);
    } else {
      DigitsRead(v, 10);
      CharsParse(Digits(v, 10), 10);
      assert Digits(v, 10)[0] in Digits(v, 10);
    }
  }

  lemma HexReadsBack(v: nat, bits: nat)
    ensures Hex(v, bits)[..2] == "0x" && Parse(Hex(v, bits)[2..], 16) == v
    ensures var n := |Digits(v, 16)|; |Hex(v, bits)| == 2 + if bits / 4 < n then n else bits / 4
    ensures forall c :: c in Hex(v, bits)[2..] ==> '0' <= c <= '9' || 'A' <= c <= 'F'
  {
    var s := Digits(v, 16);
    var n := if bits / 4 < |s| then 0 else bits / 4 - |s|;
    assert Hex(v, bits)[2..] == Chars(Zeros(n) + s);
    DigitsRead(v, 16);
    LeadingZeros(n, s, 16);
    CharsParse(Zeros(n) + s, 16);
  }

  // -------- printing --------

  function Reverse(s: seq<nat>): (r: seq<nat>)
    ensures |r| == |s| && forall i :: 0 <= i < |s| ==> r[i] == s[|s| - 1 - i]
  {
    seq(|s|, i requires 0 <= i < |s| => s[|s| - 1 - i])
  }

  class Serial {
    const stack: array<nat>   // shared scratch memory for digits
    var stackIdx: nat
    var out: string           // what went to the port

    constructor ()
      ensures stack.Length == 256 && stackIdx == 0 && out == "" && fresh(stack)
    {
      stack := new nat[256];
      stackIdx := 0;
      out := "";
    }

    method WriteChar(c: char)
      modifies `out
      ensures out == old(out) + [c]
    {
      out := out + [c];
    }

    /** Pushes the digits, least significant first. */
    method PushDigits(value: nat, b: nat) returns (digits: nat)
      requires b >= 2 && stackIdx + |Digits(value, b)| <= stack.Length
      modifies `stackIdx, stack
      ensures digits == |Digits(value, b)| && stackIdx == old(stackIdx) + digits
      ensures Reverse(stack[old(stackIdx)..stackIdx]) == Digits(value, b)
      ensures forall k :: old(stackIdx) <= k < stackIdx ==> stack[k] < b
      ensures forall k :: 0 <= k < old(stackIdx) ==> stack[k] == old(stack[k])
    {
      digits := 0;
      var v: nat := value;
      ghost var lo := stackIdx;
      while v != 0
        invariant stackIdx == lo + digits && lo + digits + |Digits(v, b)| <= stack.Length
        invariant Digits(v, b) + Reverse(stack[lo..stackIdx]) == Digits(value, b)
        invariant forall k :: lo <= k < stackIdx ==> stack[k] < b
        invariant forall k :: 0 <= k < lo ==> stack[k] == old(stack[k])
        decreases v
      {
        LastDigit(v, b);
        Pushed(Digits(v / b, b), v % b, stack[lo..stackIdx]);
        assert stack[lo..stackIdx + 1][..stackIdx - lo] == stack[lo..stackIdx];
        stack[stackIdx] := v % b;
        stackIdx := stackIdx + 1;
        assert stack[lo..stackIdx] == stack[lo..stackIdx - 1] + [v % b];
        digits := digits + 1;
        v := v / b;
      }
    }

    /** Pops `digits` digits and writes them, counting in 8 bits. */
    method PopDigits(digits: nat)
      requires digits <= 255 && digits <= stackIdx <= stack.Length
      requires forall k :: stackIdx - digits <= k < stackIdx ==> stack[k] < 16
      modifies `stackIdx, `out
      ensures stackIdx == old(stackIdx) - digits
      ensures out == old(out) + Chars(Reverse(stack[stackIdx..old(stackIdx)]))
    {
      ghost var hi, s := stackIdx, stack[stackIdx - digits..stackIdx];
      var i := 0;
      while i < digits
        invariant 0 <= i <= digits && stackIdx == hi - i
        invariant out == old(out) + Chars(Reverse(s))[..i]
      {
        stackIdx := stackIdx - 1;
        WriteChar(HEX[stack[stackIdx]]);
        i := (i + 1) % 256;
      }
    }

    method PrintDec(value: nat)
      requires value < Exp2(32) && stackIdx + 32 <= stack.Length
      modifies `stackIdx, `out, stack
      ensures out == old(out) + Dec(value) && stackIdx == old(stackIdx)
    {
      if value == 0 {
        WriteChar('0');
        return;
      }
      DigitCount(value, 10, 32);
      var digits := PushDigits(value, 10);
      PopDigits(digits);
    }

    /** Writes the zeros in front of the digits. */
    method Pad(digits: nat, len: nat)
      requires digits <= 255 && len <= 255
      modifies `out
      ensures out == old(out) + Chars(Zeros(if len < digits then 0 else len - digits))
    {
      var i := digits % 256;
      while i < len
        invariant digits <= i <= 255 && (digits <= len ==> i <= len) && (i > len ==> i == digits)
        invariant out == old(out) + Chars(Zeros(i - digits))
      {
        WriteChar('0');
        i := (i + 1) % 256;
      }
    }

    method PrintHex(value: nat, bits: nat)
      requires value < Exp2(64) && bits / 4 <= 255 && stackIdx + 64 <= stack.Length
      modifies `stackIdx, `out, stack
      ensures out == old(out) + Hex(value, bits) && stackIdx == old(stackIdx)
    {
      hide Digits, Exp2, Value, Chars, Char;
      DigitCount(value, 16, 64);
      var digits := PushDigits(value, 16);
      WriteChar('0');
      WriteChar('x');
      Pad(digits, bits / 4);
      PopDigits(digits);
      Joined(Zeros(if bits / 4 < digits then 0 else bits / 4 - digits), Digits(value, 16));
    }
  }

  /** The counter of the padding loop after n iterations. */
  function Counter(digits: nat, n: nat): nat {
    if n == 0 then digits % 256 else (Counter(digits, n - 1) + 1) % 256
  }

  lemma {:induction false} CounterIs(digits: nat, n: nat)
    requires digits <= 255
    ensures Counter(digits, n) <= 255
    ensures digits + n <= 255 ==> Counter(digits, n) == digits + n
  {
    if n > 0 {
      CounterIs(digits, n - 1);
    }
  }

  /** print_hex ends if and only if it is asked for at most 255 digits: the padding loop runs while its 8-bit
      counter is below bits / 4. */
  lemma PrintHexStopsExactlyWhen(value: nat, bits: nat)
    requires value < Exp2(64)
    ensures (exists n: nat :: Counter(|Digits(value, 16)|, n) >= bits / 4) <==> bits / 4 <= 255
  {
    var digits := |Digits(value, 16)|;
    DigitCount(value, 16, 64);
    CounterIs(digits, 255 - digits);
    if exists n: nat :: Counter(digits, n) >= bits / 4 {
      var n: nat :| Counter(digits, n) >= bits / 4;
      CounterIs(digits, n);
    }
  }

  lemma Joined(s: seq<nat>, t: seq<nat>)
    ensures Chars(s + t) == Chars(s) + Chars(t)
  {
  }

  /** Moving the lowest digit from the number to the stack. */
  lemma Pushed(high: seq<nat>, d: nat, pushed: seq<nat>)
    ensures high + [d] + Reverse(pushed) == high + Reverse(pushed + [d])
  {
  }

  /** A number of n bits has at most n digits, in any base: what one call pushes is at most 64 words. */
  lemma {:induction false} DigitCount(v: nat, b: nat, n: nat)
    requires b >= 2 && v < Exp2(n)
    ensures |Digits(v, b)| <= n
  {
    if v > 0 {
      HalfAtMost(v, b);
      DigitCount(v / b, b, n - 1);
    }
  }

  lemma LastDigit(v: nat, b: nat)
    requires b >= 2 && v > 0
    ensures 0 <= v % b < b && 0 <= v / b < v
  {
  }

  lemma HalfAtMost(v: nat, b: nat)
    requires b >= 2
    ensures v / b <= v / 2
  {
    assert v / b * b <= v;
    assert 2 * (v / b) <= v / b * b;
  }
}
