/** The variable-length integers of ASMap files: a run of continuation bits
    picks a size class, then that many bits give the offset inside the class. */
module PrefixCode {
  import opened Arithmetic
  import opened Bits

  // ----- Reading bits from bytes -----

  /** `(x >> n) & 1` */
  predicate TestBit(x: nat, n: nat) { (x / Pow2(n)) % 2 == 1 }

  /** A program is a little-endian bit stream: the low bit of each byte comes first. */
  ghost function StreamBits(data: seq<byte>): (s: seq<bool>)
    ensures |s| == 8 * |data|
  {
    seq(8 * |data|, i requires 0 <= i < 8 * |data| => TestBit(data[i / 8], i % 8))
  }

  /** An address is read from the high bit of each byte. */
  ghost function AddressBits(address: seq<byte>): (s: seq<bool>)
    ensures |s| == 8 * |address|
  {
    seq(8 * |address|, i requires 0 <= i < 8 * |address| => TestBit(address[i / 8], 7 - i % 8))
  }

  method ReadBitLe(data: seq<byte>, position: nat) returns (bit: Option<bool>, next: nat)
    ensures position < |StreamBits(data)| ==> bit == Some(StreamBits(data)[position]) && next == position + 1
    ensures position >= |StreamBits(data)| ==> bit == None && next == position
  {
    if position / 8 >= |data| {
      return None, position;
    }
    return Some(TestBit(data[position / 8], position % 8)), position + 1;
  }

  method ReadBitBe(data: seq<byte>, position: nat) returns (bit: Option<bool>, next: nat)
    ensures position < |AddressBits(data)| ==> bit == Some(AddressBits(data)[position]) && next == position + 1
    ensures position >= |AddressBits(data)| ==> bit == None && next == position
  {
    if position / 8 >= |data| {
      return None, position;
    }
    return Some(TestBit(data[position / 8], 7 - position % 8)), position + 1;
  }

  lemma StreamBit(data: seq<byte>, j: nat, i: nat)
    requires j < |data| && i < 8
    ensures StreamBits(data)[8 * j + i] == TestBit(data[j], i)
  {
    assert (8 * j + i) / 8 == j && (8 * j + i) % 8 == i;
  }

  lemma AddressBit(address: seq<byte>, j: nat, i: nat)
    requires j < |address| && i < 8
    ensures AddressBits(address)[8 * j + i] == TestBit(address[j], 7 - i)
  {
    assert (8 * j + i) / 8 == j && (8 * j + i) % 8 == i;
  }

  /** Eight stream bits, last to first, are a byte in binary. */
  lemma StreamByte(data: seq<byte>, j: nat)
    requires j < |data|
    ensures ValueOf(seq(8, i requires 0 <= i < 8 => StreamBits(data)[8 * j + (7 - i)])) == data[j]
  {
    hide StreamBits, TestBit, BitsOf, ValueOf;
    var bits := seq(8, i requires 0 <= i < 8 => StreamBits(data)[8 * j + (7 - i)]);
    ByteValue(data[j]);
    forall i | 0 <= i < 8 ensures bits[i] == BitsOf(data[j], 8)[i] {
      BitsOfAt(data[j], 8, i);
      StreamBit(data, j, 7 - i);
    }
    assert bits == BitsOf(data[j], 8);
  }

  /** Eight address bits, in order, are a byte in binary. */
  lemma AddressByte(address: seq<byte>, j: nat)
    requires j < |address|
    ensures ValueOf(AddressBits(address)[8 * j..8 * j + 8]) == address[j]
  {
    hide AddressBits, TestBit, BitsOf, ValueOf;
    var bits := AddressBits(address)[8 * j..8 * j + 8];
    ByteValue(address[j]);
    forall i | 0 <= i < 8 ensures bits[i] == BitsOf(address[j], 8)[i] {
      BitsOfAt(address[j], 8, i);
      AddressBit(address, j, i);
    }
    assert bits == BitsOf(address[j], 8);
  }

  lemma ByteValue(x: byte)
    ensures ValueOf(BitsOf(x, 8)) == x
  {
    assert Pow2(8) == 256;
    ValueOfBitsOf(x, 8);
  }

  lemma {:induction false} BitsOfAt(v: nat, n: nat, i: nat)
    requires i < n
    ensures BitsOf(v, n)[i] == TestBit(v, n - 1 - i)
  {
    if i < n - 1 {
      BitsOfAt(v / 2, n - 1, i);
      HalvedTest(v, n - 1 - i);
    }
  }

  lemma HalvedTest(v: nat, k: nat)
    requires k > 0
    ensures TestBit(v, k) == TestBit(v / 2, k - 1)
  {
    DivideTwice(v, Pow2(k - 1));
  }

  // ----- The code -----

  /** How many numbers the size classes cover together. */
  function Total(sizes: seq<nat>): nat {
    if sizes == [] then 0 else Pow2(sizes[0]) + Total(sizes[1..])
  }

  predicate InRange(v: nat, minimum: nat, sizes: seq<nat>) {
    minimum <= v < minimum + Total(sizes)
  }

  /** The codeword of `v`. The last size class has no continuation bit. */
  function Encode(v: nat, minimum: nat, sizes: seq<nat>): seq<bool>
    requires InRange(v, minimum, sizes)
    decreases |sizes|
  {
    if v - minimum < Pow2(sizes[0]) then
      (if |sizes| == 1 then [] else [false]) + BitsOf(v - minimum, sizes[0])
    else
      [true] + Encode(v, minimum + Pow2(sizes[0]), sizes[1..])
  }

  /** A number together with the position after its codeword. */
  datatype Read = Read(value: nat, next: nat)

  /** `r` is a correct reading of the number coded at `pos`. */
  ghost predicate Reads(s: seq<bool>, pos: nat, minimum: nat, sizes: seq<nat>, r: Read) {
    InRange(r.value, minimum, sizes)
    && At(s, pos, Encode(r.value, minimum, sizes))
    && r.next == pos + |Encode(r.value, minimum, sizes)|
  }

  /** Two codewords at one place are the same codeword of the same number. */
  lemma {:induction false} ReadsUnique(s: seq<bool>, pos: nat, minimum: nat, sizes: seq<nat>, r: Read, q: Read)
    requires Reads(s, pos, minimum, sizes, r) && Reads(s, pos, minimum, sizes, q)
    ensures r == q
    decreases |sizes|
  {
    var n := sizes[0];
    ReadsCases(s, pos, minimum, sizes, r);
    ReadsCases(s, pos, minimum, sizes, q);
    if r.value - minimum >= Pow2(n) && q.value - minimum >= Pow2(n) {
      ReadsUnique(s, pos + 1, minimum + Pow2(n), sizes[1..], r, q);
    }
  }

  /** No codeword is a prefix of another. */
  lemma CodewordsPrefixFree(v: nat, w: nat, minimum: nat, sizes: seq<nat>)
    requires InRange(v, minimum, sizes) && InRange(w, minimum, sizes)
    requires Encode(v, minimum, sizes) <= Encode(w, minimum, sizes)
    ensures v == w
  {
    hide Encode;
    var a, b := Encode(v, minimum, sizes), Encode(w, minimum, sizes);
    assert b[0..|b|] == b && b[0..|a|] == a;
    ReadsUnique(b, 0, minimum, sizes, Read(v, |a|), Read(w, |b|));
  }

  /** At the first difference `a` has a zero and `b` a one. */
  ghost predicate LexBefore(a: seq<bool>, b: seq<bool>) {
    exists i :: 0 <= i < |a| && i < |b| && a[..i] == b[..i] && !a[i] && b[i]
  }

  lemma LexBehind(front: seq<bool>, a: seq<bool>, b: seq<bool>)
    requires LexBefore(a, b)
    ensures LexBefore(front + a, front + b)
  {
    var i :| 0 <= i < |a| && i < |b| && a[..i] == b[..i] && !a[i] && b[i];
    var x, y := front + a, front + b;
    assert x[..|front| + i] == front + a[..i] == front + b[..i] == y[..|front| + i];
    assert !x[|front| + i] && y[|front| + i];
  }

  lemma {:induction false} BitsInOrder(v: nat, w: nat, n: nat)
    requires v < w < Pow2(n)
    ensures LexBefore(BitsOf(v, n), BitsOf(w, n))
  {
    var a, b := BitsOf(v, n), BitsOf(w, n);
    var c, d := BitsOf(v / 2, n - 1), BitsOf(w / 2, n - 1);
    if v / 2 == w / 2 {
      assert a[..n - 1] == c == b[..n - 1] && !a[n - 1] && b[n - 1];
    } else {
      BitsInOrder(v / 2, w / 2, n - 1);
      var i :| 0 <= i < |c| && i < |d| && c[..i] == d[..i] && !c[i] && d[i];
      assert a[..i] == c[..i] && b[..i] == d[..i] && !a[i] && b[i];
    }
  }

  /** Codewords are ordered like the numbers they stand for. */
  lemma {:induction false} CodewordsInOrder(v: nat, w: nat, minimum: nat, sizes: seq<nat>)
    requires InRange(v, minimum, sizes) && InRange(w, minimum, sizes) && v < w
    ensures LexBefore(Encode(v, minimum, sizes), Encode(w, minimum, sizes))
    decreases |sizes|
  {
    hide Pow2, BitsOf, LexBefore;
    var n, later := sizes[0], minimum + Pow2(sizes[0]);
    if w < later {
      BitsInOrder(v - minimum, w - minimum, n);
      LexBehind(if |sizes| == 1 then [] else [false], BitsOf(v - minimum, n), BitsOf(w - minimum, n));
    } else {
      LaterCodeword(w, minimum, sizes);
      if v < later {
        ZeroBeforeOne(BitsOf(v - minimum, n), Encode(w, later, sizes[1..]));
      } else {
        LaterCodeword(v, minimum, sizes);
        CodewordsInOrder(v, w, later, sizes[1..]);
        LexBehind([true], Encode(v, later, sizes[1..]), Encode(w, later, sizes[1..]));
      }
    }
  }

  lemma ZeroBeforeOne(a: seq<bool>, b: seq<bool>)
    ensures LexBefore([false] + a, [true] + b)
  {
    assert ([false] + a)[..0] == ([true] + b)[..0] && !([false] + a)[0] && ([true] + b)[0];
  }

  /** The first size class: where its offset bits start. */
  function OffsetStart(pos: nat, sizes: seq<nat>): nat {
    if |sizes| == 1 then pos else pos + 1
  }

  /** What stands at `pos` when the first class is chosen, and when it is passed over. */
  ghost predicate InFirstClass(s: seq<bool>, pos: nat, minimum: nat, sizes: seq<nat>, r: Read)
    requires sizes != []
  {
    var start := OffsetStart(pos, sizes);
    start + sizes[0] <= |s|
    && (|sizes| > 1 ==> !s[pos])
    && r == Read(minimum + ValueOf(s[start..start + sizes[0]]), start + sizes[0])
  }

  ghost predicate InLaterClass(s: seq<bool>, pos: nat, minimum: nat, sizes: seq<nat>, r: Read)
    requires sizes != []
  {
    |sizes| > 1 && pos < |s| && s[pos]
    && Reads(s, pos + 1, minimum + Pow2(sizes[0]), sizes[1..], r)
  }

  lemma ReadsCases(s: seq<bool>, pos: nat, minimum: nat, sizes: seq<nat>, r: Read)
    requires sizes != []
    ensures Reads(s, pos, minimum, sizes, r)
      <==> InFirstClass(s, pos, minimum, sizes, r) || InLaterClass(s, pos, minimum, sizes, r)
    ensures InFirstClass(s, pos, minimum, sizes, r) ==> r.value - minimum < Pow2(sizes[0])
    ensures InLaterClass(s, pos, minimum, sizes, r) ==> r.value - minimum >= Pow2(sizes[0])
  {
    ReadsFirstClass(s, pos, minimum, sizes, r);
    ReadsLaterClass(s, pos, minimum, sizes, r);
  }

  lemma ReadsFirstClass(s: seq<bool>, pos: nat, minimum: nat, sizes: seq<nat>, r: Read)
    requires sizes != []
    ensures Reads(s, pos, minimum, sizes, r) && r.value - minimum < Pow2(sizes[0])
      <==> InFirstClass(s, pos, minimum, sizes, r)
  {
    var start := OffsetStart(pos, sizes);
    if InFirstClass(s, pos, minimum, sizes, r) {
      ValueBound(s[start..start + sizes[0]]);
    }
    if minimum <= r.value < minimum + Pow2(sizes[0]) {
      FirstClassCodeword(s, pos, minimum, sizes, r.value);
      OffsetBits(s, start, r.value - minimum, sizes[0]);
    }
  }

  lemma OffsetBits(s: seq<bool>, start: nat, v: nat, n: nat)
    requires v < Pow2(n)
    ensures At(s, start, BitsOf(v, n)) <==> start + n <= |s| && v == ValueOf(s[start..start + n])
  {
    hide Pow2, BitsOf, ValueOf;
    ValueOfBitsOf(v, n);
    if start + n <= |s| {
      BitsOfValueOf(s[start..start + n]);
    }
  }

  lemma ReadsLaterClass(s: seq<bool>, pos: nat, minimum: nat, sizes: seq<nat>, r: Read)
    requires sizes != []
    ensures Reads(s, pos, minimum, sizes, r) && r.value - minimum >= Pow2(sizes[0])
      <==> InLaterClass(s, pos, minimum, sizes, r)
  {
    hide Encode, Total, Pow2;
    var later := minimum + Pow2(sizes[0]);
    LaterCodeword(r.value, minimum, sizes);
    if |sizes| > 1 && InRange(r.value, later, sizes[1..]) {
      AtConcat(s, pos, [true], Encode(r.value, later, sizes[1..]));
      if pos < |s| {
        assert s[pos..pos + 1] == [s[pos]];
      }
    }
  }

  lemma LaterCodeword(v: nat, minimum: nat, sizes: seq<nat>)
    requires sizes != []
    ensures InRange(v, minimum, sizes) && v - minimum >= Pow2(sizes[0])
      <==> |sizes| > 1 && InRange(v, minimum + Pow2(sizes[0]), sizes[1..])
    ensures |sizes| > 1 && InRange(v, minimum + Pow2(sizes[0]), sizes[1..]) ==>
      Encode(v, minimum, sizes) == [true] + Encode(v, minimum + Pow2(sizes[0]), sizes[1..])
  {
    hide Pow2;
    assert Total(sizes) == Pow2(sizes[0]) + Total(sizes[1..]);
    if |sizes| == 1 {
      assert sizes[1..] == [];
    }
  }

  lemma FirstClassCodeword(s: seq<bool>, pos: nat, minimum: nat, sizes: seq<nat>, v: nat)
    requires sizes != [] && minimum <= v < minimum + Pow2(sizes[0])
    ensures InRange(v, minimum, sizes)
    ensures |Encode(v, minimum, sizes)| == OffsetStart(0, sizes) + sizes[0]
    ensures At(s, pos, Encode(v, minimum, sizes))
      <==> (|sizes| > 1 ==> At(s, pos, [false])) && At(s, OffsetStart(pos, sizes), BitsOf(v - minimum, sizes[0]))
    ensures At(s, pos, [false]) <==> pos < |s| && !s[pos]
  {
    var w := BitsOf(v - minimum, sizes[0]);
    if |sizes| == 1 {
      assert Encode(v, minimum, sizes) == w;
    } else {
      AtConcat(s, pos, [false], w);
    }
    if pos < |s| {
      assert s[pos..pos + 1] == [s[pos]];
    }
  }

  /** A stream that ends inside or before the codeword reads as nothing. */
  ghost predicate NothingReads(s: seq<bool>, pos: nat, minimum: nat, sizes: seq<nat>) {
    forall r: Read :: !Reads(s, pos, minimum, sizes, r)
  }

  /** Decoding finds the codeword at `position` when there is one, and fails
      exactly when there is none. The checked additions never overflow. */
  method DecodeBits(data: seq<byte>, position: nat, minimum: nat, sizes: seq<nat>)
    returns (r: Option<nat>, next: nat)
    requires position <= |StreamBits(data)| && minimum + Total(sizes) <= U32_MAX + 1
    ensures r.Some? ==> Reads(StreamBits(data), position, minimum, sizes, Read(r.value, next))
    ensures r.None? ==> NothingReads(StreamBits(data), position, minimum, sizes)
  {
    hide StreamBits, Pow2, At, Encode;
    ghost var s := StreamBits(data);
    var value: nat := minimum;
    var pos: nat := position;
    var index := 0;
    while index < |sizes|
      invariant index <= |sizes| && pos <= |s|
      invariant value + Total(sizes[index..]) <= U32_MAX + 1
      invariant forall r :: Reads(s, position, minimum, sizes, r) <==> Reads(s, pos, value, sizes[index..], r)
    {
      ghost var classes := sizes[index..];
      var size := sizes[index];
      ghost var start := pos;
      forall r { ReadsCases(s, start, value, classes, r); }
      var continuation := Some(false);
      if index + 1 != |sizes| {
        continuation, pos := ReadBitLe(data, pos);
        if continuation.None? {
          return None, pos;
        }
      }
      if continuation.value {
        TotalPositive(classes[1..]);
        if value + Pow2(size) > U32_MAX {
          return None, pos;
        }
        value := value + Pow2(size);
        index := index + 1;
        assert classes[1..] == sizes[index..];
        continue;
      }
      var offset: Option<nat>;
      offset, pos := ReadOffset(data, pos, value, size);
      return offset, pos;
    }
    return None, pos;
  }

  /** The offset inside a size class, added to the class's first number. */
  method ReadOffset(data: seq<byte>, position: nat, base: nat, size: nat) returns (r: Option<nat>, next: nat)
    requires position <= |StreamBits(data)| && base + Pow2(size) <= U32_MAX + 1
    ensures r.Some? <==> position + size <= |StreamBits(data)|
    ensures r.Some? ==> next == position + size && r.value == base + ValueOf(StreamBits(data)[position..next])
  {
    hide StreamBits;
    ghost var s := StreamBits(data);
    var value, pos, bit := base, position, 0;
    assert Weight(s[position..pos], size) == 0 by { assert s[position..pos] == []; WeightOfNothing(size); }
    while bit < size
      invariant bit <= size && pos == position + bit <= |s|
      invariant value == base + Weight(s[position..pos], size - bit)
    {
      ghost var before := s[position..pos];
      var b;
      b, pos := ReadBitLe(data, pos);
      if b.None? {
        return None, pos;
      }
      assert s[position..pos] == before + [b.value];
      WeightStep(before, b.value, size - bit);
      WeightBound(s[position..pos], size - bit - 1);
      if b.value {
        if value + Pow2(size - 1 - bit) > U32_MAX {
          return None, pos;
        }
        value := value + Pow2(size - 1 - bit);
      }
      bit := bit + 1;
    }
    return Some(value), pos;
  }

  /** What the bits read so far contribute when `left` more are to come. */
  ghost function Weight(read: seq<bool>, left: nat): nat {
    if left == 0 then ValueOf(read) else 2 * Weight(read, left - 1)
  }

  lemma {:induction false} WeightOfNothing(left: nat)
    ensures Weight([], left) == 0
  {
    if left > 0 {
      WeightOfNothing(left - 1);
    }
  }

  lemma {:induction false} WeightStep(before: seq<bool>, b: bool, left: nat)
    requires left > 0
    ensures Weight(before + [b], left - 1) == Weight(before, left) + (if b then Pow2(left - 1) else 0)
  {
    if left == 1 {
      assert (before + [b])[..|before|] == before;
    } else {
      WeightStep(before, b, left - 1);
    }
  }

  lemma {:induction false} WeightBound(read: seq<bool>, left: nat)
    ensures Weight(read, left) < Pow2(|read| + left)
  {
    if left == 0 {
      ValueBound(read);
    } else {
      WeightBound(read, left - 1);
    }
  }

  lemma TotalPositive(sizes: seq<nat>)
    requires sizes != []
    ensures Total(sizes) > 0
  {
  }
}
