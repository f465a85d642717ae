/** Bit strings, most significant bit first, and their reading as numbers.
    Shared by the ASMap bytecode and the base32 codec. */
module Bits {

  type byte = x: int | 0 <= x < 256

  datatype Option<+T> = None | Some(value: T)

  function Pow2(n: nat): (r: nat)
    ensures r >= 1
  {
    if n == 0 then 1 else 2 * Pow2(n - 1)
  }

  lemma MulDouble(x: nat, y: nat)
    ensures x * (2 * y) == 2 * (x * y)
  {
  }

  lemma HalveSum(x: nat, w: nat)
    ensures (2 * x + w) / 2 == x + w / 2 && (2 * x + w) % 2 == w % 2
  {
  }

  lemma {:induction false} Pow2Add(a: nat, b: nat)
    ensures Pow2(a + b) == Pow2(a) * Pow2(b)
  {
    if b > 0 {
      Pow2Add(a, b - 1);
    }
  }

  lemma {:induction false} Pow2Monotone(a: nat, b: nat)
    requires a <= b
    ensures Pow2(a) <= Pow2(b)
  {
    if a < b {
      Pow2Monotone(a, b - 1);
    }
  }

  /** The low `n` bits of `v`, most significant first. */
  function BitsOf(v: nat, n: nat): (s: seq<bool>)
    ensures |s| == n
  {
    if n == 0 then [] else BitsOf(v / 2, n - 1) + [v % 2 == 1]
  }

  /** The number a bit string denotes. */
  function ValueOf(s: seq<bool>): nat {
    if s == [] then 0
    else 2 * ValueOf(s[..|s| - 1]) + (if s[|s| - 1] then 1 else 0)
  }

  lemma {:induction false} ValueBound(s: seq<bool>)
    ensures ValueOf(s) < Pow2(|s|)
  {
    if s != [] {
      ValueBound(s[..|s| - 1]);
    }
  }

  lemma {:induction false} ValueOfConcat(a: seq<bool>, b: seq<bool>)
    ensures ValueOf(a + b) == ValueOf(a) * Pow2(|b|) + ValueOf(b)
    decreases |b|
  {
    if b == [] {
      assert a + b == a;
    } else {
      ValueOfConcat(a, b[..|b| - 1]);
      assert (a + b)[..|a + b| - 1] == a + b[..|b| - 1];
      MulDouble(ValueOf(a), Pow2(|b| - 1));
    }
  }

  /** Writing and reading a number are inverse to each other. */
  lemma {:induction false} ValueOfBitsOf(v: nat, n: nat)
    requires v < Pow2(n)
    ensures ValueOf(BitsOf(v, n)) == v
  {
    if n > 0 {
      ValueOfBitsOf(v / 2, n - 1);
      var s := BitsOf(v, n);
      assert s[..|s| - 1] == BitsOf(v / 2, n - 1);
    }
  }

  lemma {:induction false} BitsOfValueOf(s: seq<bool>)
    ensures BitsOf(ValueOf(s), |s|) == s
  {
    if s != [] {
      BitsOfValueOf(s[..|s| - 1]);
      assert s == s[..|s| - 1] + [s[|s| - 1]];
    }
  }

  /** Shifting `v` left by `n` and adding `w` appends the bits of `w`. */
  lemma {:induction false} BitsOfShift(v: nat, m: nat, w: nat, n: nat)
    requires w < Pow2(n)
    ensures BitsOf(v * Pow2(n) + w, m + n) == BitsOf(v, m) + BitsOf(w, n)
  {
    if n == 0 {
      assert BitsOf(w, 0) == [];
    } else {
      BitsOfShift(v, m, w / 2, n - 1);
      MulDouble(v, Pow2(n - 1));
      HalveSum(v * Pow2(n - 1), w);
    }
  }

  // ----- Shifting and masking -----

  /** `v >> n` */
  function ShiftRight(v: nat, n: nat): nat {
    if n == 0 then v else ShiftRight(v / 2, n - 1)
  }

  /** `v & ((1 << n) - 1)` */
  function LowBits(v: nat, n: nat): (r: nat)
    ensures r < Pow2(n)
  {
    if n == 0 then 0 else 2 * LowBits(v / 2, n - 1) + v % 2
  }

  /** Shifting and masking split a number like division with remainder. */
  lemma {:induction false} ShiftMask(v: nat, n: nat)
    ensures ShiftRight(v, n) * Pow2(n) + LowBits(v, n) == v
  {
    if n > 0 {
      ShiftMask(v / 2, n - 1);
      MulDouble(ShiftRight(v, n), Pow2(n - 1));
    }
  }

  lemma {:induction false} MaskKeepsBits(v: nat, n: nat)
    ensures BitsOf(LowBits(v, n), n) == BitsOf(v, n)
  {
    if n > 0 {
      MaskKeepsBits(v / 2, n - 1);
      HalveSum(LowBits(v / 2, n - 1), v % 2);
    }
  }

  /** The bits above the low `n` are those of the shifted number. */
  lemma {:induction false} SplitBits(v: nat, m: nat, n: nat)
    ensures BitsOf(v, m + n) == BitsOf(ShiftRight(v, n), m) + BitsOf(v, n)
  {
    if n == 0 {
      assert BitsOf(v, m) + [] == BitsOf(v, m);
    } else {
      SplitBits(v / 2, m, n - 1);
    }
  }

  /** `w` stands in `s` at offset `pos`. */
  predicate At(s: seq<bool>, pos: nat, w: seq<bool>) {
    pos + |w| <= |s| && s[pos..pos + |w|] == w
  }

  lemma AtConcat(s: seq<bool>, pos: nat, a: seq<bool>, b: seq<bool>)
    ensures At(s, pos, a + b) <==> At(s, pos, a) && At(s, pos + |a|, b)
  {
    if pos + |a| + |b| <= |s| {
      var whole := s[pos..pos + |a| + |b|];
      assert whole[..|a|] == s[pos..pos + |a|];
      assert whole[|a|..] == s[pos + |a|..pos + |a| + |b|];
      assert (a + b)[..|a|] == a && (a + b)[|a|..] == b;
      assert whole == whole[..|a|] + whole[|a|..];
    }
  }
}
