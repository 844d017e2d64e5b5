/** Byte strings, kept as strings whose characters are bytes: cutting, replacing, comparing, XOR. */
module Bytes {
  import opened Text

  predicate All(s: string, p: char -> bool) {
    forall i :: 0 <= i < |s| ==> p(s[i])
  }

  /** Length of the longest prefix made of `p` characters: what a greedy character class consumes. */
  function Span(s: string, p: char -> bool): (n: nat)
    ensures n <= |s| && All(s[..n], p)
    ensures n < |s| ==> !p(s[n])
  {
    if s == "" || !p(s[0]) then 0 else
      var n := Span(s[1..], p);
      assert s[..1 + n] == [s[0]] + s[1..][..n];
      1 + n
  }

  lemma {:induction false} SpanOf(a: string, b: string, p: char -> bool)
    requires All(a, p) && (b == "" || !p(b[0]))
    ensures Span(a + b, p) == |a| && (a + b)[..|a|] == a && (a + b)[|a|..] == b
  {
    if a == "" {
      assert a + b == b;
    } else {
      assert (a + b)[1..] == a[1..] + b;
      SpanOf(a[1..], b, p);
    }
  }

  /** What follows a literal that `s` begins with. */
  function Skip(s: string, lit: string): (r: Option<string>)
    ensures r.Some? ==> s == lit + r.value
  {
    if lit <= s then Some(s[|lit|..]) else None
  }

  lemma SkipOf(lit: string, rest: string)
    ensures Skip(lit + rest, lit) == Some(rest)
  {
  }

  /** bytes.replace: left to right, without overlaps. */
  function Replace(s: string, what: string, into: string): string
    requires what != ""
  {
    if s == "" then ""
    else if what <= s then into + Replace(s[|what|..], what, into)
    else [s[0]] + Replace(s[1..], what, into)
  }

  // ---- XOR

  function BitXor(a: nat, b: nat, bits: nat): nat {
    if bits == 0 then 0 else 2 * BitXor(a / 2, b / 2, bits - 1) + (a + b) % 2
  }

  lemma {:induction false} BitXorBounds(a: nat, b: nat, bits: nat)
    ensures BitXor(a, b, bits) < Power2(bits)
  {
    if bits > 0 {
      BitXorBounds(a / 2, b / 2, bits - 1);
    }
  }

  function Power2(n: nat): nat {
    if n == 0 then 1 else 2 * Power2(n - 1)
  }

  lemma {:induction false} BitXorUndone(a: nat, b: nat, bits: nat)
    requires b < Power2(bits)
    ensures BitXor(a, BitXor(b, a, bits), bits) == b
  {
    if bits > 0 {
      BitXorUndone(a / 2, b / 2, bits - 1);
      LastBit(a, b, BitXor(b / 2, a / 2, bits - 1));
    }
  }

  lemma LastBit(a: nat, b: nat, y: nat)
    ensures var x := 2 * y + (b + a) % 2; x / 2 == y && (a + x) % 2 == b % 2 && 2 * (b / 2) + b % 2 == b
  {
  }

  /** Bit j of a number, the least significant one first. */
  function Bit(n: nat, j: nat): nat {
    if j == 0 then n % 2 else Bit(n / 2, j - 1)
  }

  /** A bit of the result is set if and only if the two bits differ. */
  lemma {:induction false} BitOfXor(a: nat, b: nat, bits: nat, j: nat)
    requires j < bits
    ensures Bit(BitXor(a, b, bits), j) == if Bit(a, j) == Bit(b, j) then 0 else 1
  {
    var x, r := BitXor(a / 2, b / 2, bits - 1), (a + b) % 2;
    var xor := BitXor(a, b, bits);
    assert xor == 2 * x + r;
    HalfOfXor(x, r);
    if j == 0 {
      LastBitsDiffer(a, b);
    } else {
      BitOfXor(a / 2, b / 2, bits - 1, j - 1);
      assert Bit(xor, j) == Bit(x, j - 1) && Bit(a, j) == Bit(a / 2, j - 1) && Bit(b, j) == Bit(b / 2, j - 1);
    }
  }

  lemma LastBitsDiffer(a: nat, b: nat)
    ensures (a + b) % 2 == if a % 2 == b % 2 then 0 else 1
  {
  }

  lemma HalfOfXor(x: nat, r: nat)
    requires r < 2
    ensures (2 * x + r) / 2 == x && (2 * x + r) % 2 == r
  {
  }

  predicate IsByte(c: char) {
    c as int < 256
  }

  /** XOR of two bytes; characters that are no bytes do not occur. */
  function XorByte(a: char, b: char): (c: char)
    ensures c as int == BitXor(a as int, b as int, 8) && IsByte(c)
  {
    BitXorBounds(a as int, b as int, 8);
    assert Power2(8) == 256;
    BitXor(a as int, b as int, 8) as char
  }

  /** SCRAMOperations.XOR: zip stops at the shorter string. */
  function Xor(a: string, b: string): string {
    if a == "" || b == "" then "" else [XorByte(a[0], b[0])] + Xor(a[1..], b[1..])
  }

  /** XOR is bitwise, up to the end of the shorter string. */
  lemma {:induction false} XorBits(a: string, b: string, i: nat, j: nat)
    ensures |Xor(a, b)| == if |a| <= |b| then |a| else |b|
    ensures i < |Xor(a, b)| && j < 8 ==>
      Bit(Xor(a, b)[i] as int, j) == if Bit(a[i] as int, j) == Bit(b[i] as int, j) then 0 else 1
  {
    if a != "" && b != "" {
      XorBits(a[1..], b[1..], if i == 0 then 0 else i - 1, j);
      if i == 0 && j < 8 {
        BitOfXor(a[0] as int, b[0] as int, 8, j);
      }
    }
  }

  lemma {:induction false} XorUndone(key: string, mask: string)
    requires |key| == |mask| && All(key, IsByte)
    ensures Xor(mask, Xor(key, mask)) == key
  {
    if key != "" {
      assert All(key[1..], IsByte);
      XorUndone(key[1..], mask[1..]);
      assert IsByte(key[0]) && Power2(8) == 256;
      BitXorUndone(mask[0] as int, key[0] as int, 8);
      assert XorByte(mask[0], XorByte(key[0], mask[0])) as int == key[0] as int;
      assert key == [key[0]] + key[1..];
    }
  }
}
