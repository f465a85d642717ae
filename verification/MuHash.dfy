/** The MuHash3072 set accumulator: a fraction modulo a prime. Hash functions are
    parameters and the primality of the modulus is a hypothesis where it is needed. */
module MuHash {
  import opened Bits
  import opened ModularArithmetic

  const BYTE_SIZE: nat := 384

  function Modulus(): (m: nat)
    ensures 2 < m < Pow2(3072) && m + 1_103_717 == Pow2(3072)
  {
    BigPower(3072);
    Pow2(3072) - 1_103_717
  }

  lemma {:induction false} BigPower(n: nat)
    requires n >= 24
    ensures Pow2(n) >= 16_777_216
  {
    if n == 24 {
      Pow2Add(12, 12);
      assert Pow2(12) == 4096;
    } else {
      BigPower(n - 1);
    }
  }

  // ----- The accumulator as a value -----

  type Hash = seq<byte> -> nat
  type Digest = seq<byte> -> seq<byte>

  datatype Fraction = Fraction(numerator: nat, denominator: nat)

  const EMPTY := Fraction(1, 1)

  datatype Op = Insert(data: seq<byte>) | Remove(data: seq<byte>)

  function Apply(f: Fraction, op: Op, hash: Hash, p: nat): Fraction
    requires p > 1
  {
    match op
    case Insert(data) => f.(numerator := MulMod(f.numerator, hash(data), p))
    case Remove(data) => f.(denominator := MulMod(f.denominator, hash(data), p))
  }

  function Run(ops: seq<Op>, hash: Hash, p: nat): Fraction
    requires p > 1
  {
    if ops == [] then EMPTY else Apply(Run(ops[..|ops| - 1], hash, p), ops[|ops| - 1], hash, p)
  }

  function Combine(f: Fraction, g: Fraction, p: nat): Fraction
    requires p > 1
  {
    Fraction(MulMod(f.numerator, g.numerator, p), MulMod(f.denominator, g.denominator, p))
  }

  /** The fraction's value, dividing by the power `p - 2` of the denominator. */
  function FinalValue(f: Fraction, p: nat): (v: nat)
    requires p > 2
    ensures v < p
  {
    MulMod(f.numerator, PowMod(f.denominator, p - 2, p), p)
  }

  // ----- Numerator and denominator are products -----

  ghost function Elements(ops: seq<Op>, inserted: bool, hash: Hash): seq<nat> {
    if ops == [] then []
    else
      var op := ops[|ops| - 1];
      Elements(ops[..|ops| - 1], inserted, hash) + if op.Insert? == inserted then [hash(op.data)] else []
  }

  lemma {:induction false} RunIsProducts(ops: seq<Op>, hash: Hash, p: nat)
    requires p > 1
    ensures Run(ops, hash, p)
      == Fraction(Product(Elements(ops, true, hash), p), Product(Elements(ops, false, hash), p))
  {
    hide MulMod;
    if ops != [] {
      var rest, op := ops[..|ops| - 1], ops[|ops| - 1];
      RunIsProducts(rest, hash, p);
      AppendProduct(Elements(rest, true, hash), hash(op.data), p);
      AppendProduct(Elements(rest, false, hash), hash(op.data), p);
      assert Elements(rest, true, hash) + [] == Elements(rest, true, hash);
      assert Elements(rest, false, hash) + [] == Elements(rest, false, hash);
    }
  }

  lemma AppendProduct(s: seq<nat>, x: nat, p: nat)
    requires p > 1
    ensures Product(s + [x], p) == MulMod(Product(s, p), x, p)
  {
    hide MulMod;
    assert (s + [x])[..|s + [x]| - 1] == s;
    MulModComm(x, Product(s, p), p);
  }

  lemma {:induction false} ElementsConcat(a: seq<Op>, b: seq<Op>, inserted: bool, hash: Hash)
    ensures Elements(a + b, inserted, hash) == Elements(a, inserted, hash) + Elements(b, inserted, hash)
  {
    if b == [] {
      assert a + b == a;
    } else {
      var rest, op := b[..|b| - 1], b[|b| - 1];
      ElementsConcat(a, rest, inserted, hash);
      assert (a + b)[..|a + b| - 1] == a + rest && (a + b)[|a + b| - 1] == op;
      var last := if op.Insert? == inserted then [hash(op.data)] else [];
      assert Elements(a + b, inserted, hash) == Elements(a + rest, inserted, hash) + last;
      assert Elements(b, inserted, hash) == Elements(rest, inserted, hash) + last;
    }
  }

  // ----- Homomorphism and order -----

  /** Combining two accumulators is accumulating both operation sequences. */
  lemma CombineIsConcat(a: seq<Op>, b: seq<Op>, hash: Hash, p: nat)
    requires p > 1
    ensures Combine(Run(a, hash, p), Run(b, hash, p), p) == Run(a + b, hash, p)
  {
    hide MulMod;
    RunIsProducts(a, hash, p);
    RunIsProducts(b, hash, p);
    RunIsProducts(a + b, hash, p);
    ElementsConcat(a, b, true, hash);
    ElementsConcat(a, b, false, hash);
    ProductConcat(Elements(a, true, hash), Elements(b, true, hash), p);
    ProductConcat(Elements(a, false, hash), Elements(b, false, hash), p);
  }

  /** Any reordering of inserts and removes gives the identical fraction. */
  lemma {:induction false} OrderDoesNotMatter(a: seq<Op>, b: seq<Op>, hash: Hash, p: nat)
    requires p > 1 && multiset(a) == multiset(b)
    ensures Run(a, hash, p) == Run(b, hash, p)
    decreases |a|
  {
    hide MulMod, Combine;
    if a == [] {
      assert |multiset(b)| == 0;
    } else {
      var i := Partner(a, b);
      var top := |a| - 1;
      var rest := b[..i] + b[i + 1..];
      OrderDoesNotMatter(a[..top], rest, hash, p);
      MoveToEnd(b, i, hash, p);
    }
  }

  lemma CombineComm(f: Fraction, g: Fraction, p: nat)
    requires p > 1
    ensures Combine(f, g, p) == Combine(g, f, p)
  {
    hide MulMod;
    MulModComm(f.numerator, g.numerator, p);
    MulModComm(f.denominator, g.denominator, p);
  }

  lemma MoveToEnd(b: seq<Op>, i: nat, hash: Hash, p: nat)
    requires p > 1 && i < |b|
    ensures Run(b, hash, p) == Run(b[..i] + b[i + 1..] + [b[i]], hash, p)
  {
    hide MulMod, Combine, Run;
    var x, y, z := b[..i], [b[i]], b[i + 1..];
    assert b == x + (y + z) && x + z + y == x + (z + y);
    CombineIsConcat(x, y + z, hash, p);
    CombineIsConcat(y, z, hash, p);
    CombineComm(Run(y, hash, p), Run(z, hash, p), p);
    CombineIsConcat(z, y, hash, p);
    CombineIsConcat(x, z + y, hash, p);
  }

  // ----- Cancellation -----

  /** Extending a fraction by one unit does not change its value; extending it by
      a multiple of the modulus makes it zero. */
  lemma ExtendFraction(f: Fraction, x: nat, p: nat)
    requires IsPrime(p) && p > 2
    ensures FinalValue(Fraction(MulMod(f.numerator, x, p), MulMod(f.denominator, x, p)), p)
      == if x % p == 0 then 0 else FinalValue(f, p)
  {
    var n := p - 2;
    var inverse := PowMod(f.denominator, n, p);
    var extended := FinalValue(Fraction(MulMod(f.numerator, x, p), MulMod(f.denominator, x, p)), p);
    assert extended == MulMod(FinalValue(f, p), MulMod(x, PowMod(x, n, p), p), p) by {
      hide MulMod;
      PowModProduct(f.denominator, x, n, p);
      MulModSwap(f.numerator, x, inverse, PowMod(x, n, p), p);
    }
    if x % p == 0 {
      MulModReduce(x, PowMod(x, n, p), p);
      assert MulMod(x, PowMod(x, n, p), p) == 0;
    } else {
      InverseByPower(x, p);
      MulModOne(FinalValue(f, p), p);
    }
  }

  /** Inserting and removing one element, at any two places of any operation
      sequence, leaves the value unchanged exactly when the element is no multiple
      of the modulus or the value was zero already. */
  lemma InsertRemoveCancels(a: seq<Op>, b: seq<Op>, c: seq<Op>, data: seq<byte>, insertFirst: bool, hash: Hash, p: nat)
    requires IsPrime(p) && p > 2
    ensures var first, second := if insertFirst then Insert(data) else Remove(data),
                                 if insertFirst then Remove(data) else Insert(data);
      var kept, all := Run(a + b + c, hash, p), Run(a + [first] + b + [second] + c, hash, p);
      FinalValue(all, p) == FinalValue(kept, p) <==> hash(data) % p != 0 || FinalValue(kept, p) == 0
  {
    hide FinalValue, MulMod;
    var first, second := if insertFirst then Insert(data) else Remove(data),
                         if insertFirst then Remove(data) else Insert(data);
    var all, moved := a + [first] + b + [second] + c, (a + b + c) + [Insert(data), Remove(data)];
    assert multiset(all) == multiset(moved) by { PairToEnd(a, b, c, first, second, Insert(data), Remove(data)); }
    OrderDoesNotMatter(all, moved, hash, p);
    AppendPair(a + b + c, data, hash, p);
    ExtendFraction(Run(a + b + c, hash, p), hash(data), p);
  }

  lemma PairToEnd(a: seq<Op>, b: seq<Op>, c: seq<Op>, x: Op, y: Op, u: Op, v: Op)
    requires (x == u && y == v) || (x == v && y == u)
    ensures multiset(a + [x] + b + [y] + c) == multiset((a + b + c) + [u, v])
  {
    assert multiset((a + b + c) + [u, v]) == multiset(a) + multiset(b) + multiset(c) + multiset{u, v};
    assert multiset(a + [x] + b + [y] + c) == multiset(a) + multiset{x} + multiset(b) + multiset{y} + multiset(c);
  }

  lemma AppendPair(ops: seq<Op>, data: seq<byte>, hash: Hash, p: nat)
    requires p > 1
    ensures var f := Run(ops, hash, p);
      Run(ops + [Insert(data), Remove(data)], hash, p)
      == Fraction(MulMod(f.numerator, hash(data), p), MulMod(f.denominator, hash(data), p))
  {
    hide MulMod;
    var one, both := ops + [Insert(data)], ops + [Insert(data), Remove(data)];
    assert both[..|both| - 1] == one && one[..|one| - 1] == ops;
  }

  /** The value depends only on the net multiplicities: two operation sequences of
      units whose inserts and removes balance have the same value. */
  lemma NetEffect(a: seq<Op>, b: seq<Op>, hash: Hash, p: nat)
    requires IsPrime(p) && p > 2
    requires forall op | op in a || op in b :: hash(op.data) % p != 0
    requires multiset(Elements(a, true, hash) + Elements(b, false, hash))
      == multiset(Elements(b, true, hash) + Elements(a, false, hash))
    ensures FinalValue(Run(a, hash, p), p) == FinalValue(Run(b, hash, p), p)
  {
    hide MulMod, IsPrime;
    var f, g := Run(a, hash, p), Run(b, hash, p);
    RunIsProducts(a, hash, p);
    RunIsProducts(b, hash, p);
    UnitElements(a, false, hash, p);
    UnitElements(b, false, hash, p);
    ProductNonZero(Elements(a, false, hash), p);
    ProductNonZero(Elements(b, false, hash), p);
    ProductConcat(Elements(a, true, hash), Elements(b, false, hash), p);
    ProductConcat(Elements(b, true, hash), Elements(a, false, hash), p);
    ProductPermutes(Elements(a, true, hash) + Elements(b, false, hash),
                    Elements(b, true, hash) + Elements(a, false, hash), p);
    CrossEqual(f, g, p);
  }

  lemma {:induction false} UnitElements(ops: seq<Op>, inserted: bool, hash: Hash, p: nat)
    requires p > 1 && forall op | op in ops :: hash(op.data) % p != 0
    ensures forall i :: 0 <= i < |Elements(ops, inserted, hash)| ==> Elements(ops, inserted, hash)[i] % p != 0
  {
    if ops != [] {
      UnitElements(ops[..|ops| - 1], inserted, hash, p);
      assert ops[|ops| - 1] in ops;
    }
  }

  /** Fractions with equal cross products have equal values. */
  lemma CrossEqual(f: Fraction, g: Fraction, p: nat)
    requires IsPrime(p) && p > 2
    requires 1 <= f.denominator < p && 1 <= g.denominator < p
    requires MulMod(f.numerator, g.denominator, p) == MulMod(g.numerator, f.denominator, p)
    ensures FinalValue(f, p) == FinalValue(g, p)
  {
    var d := MulMod(f.denominator, g.denominator, p);
    NoZeroDivisors(f.denominator, g.denominator, p);
    TimesDenominators(f, g.denominator, p);
    TimesDenominators(g, f.denominator, p);
    MulModComm(f.denominator, g.denominator, p);
    Cancel(FinalValue(f, p), FinalValue(g, p), d, p);
  }

  lemma TimesDenominators(f: Fraction, other: nat, p: nat)
    requires IsPrime(p) && p > 2 && 1 <= f.denominator < p
    ensures MulMod(FinalValue(f, p), MulMod(f.denominator, other, p), p) == MulMod(f.numerator, other, p)
  {
    var inverse := PowMod(f.denominator, p - 2, p);
    InverseByPower(f.denominator, p);
    hide MulMod;
    MulModSwap(f.numerator, inverse, f.denominator, other, p);
    MulModAssoc(f.numerator, f.denominator, MulMod(inverse, other, p), p);
    MulModAssoc(f.denominator, inverse, other, p);
    RegroupOne(f.numerator, other, p);
  }

  lemma RegroupOne(a: nat, b: nat, p: nat)
    requires p > 1
    ensures MulMod(a, MulMod(1, b, p), p) == MulMod(a, b, p)
  {
    assert MulMod(1, b, p) == b % p;
    MulModReduce(b, a, p);
    MulModComm(a, b % p, p);
  }

  // ----- Serialising the value -----

  /** Little-endian base-256 digits without leading zeros; zero is one zero byte. */
  function BytesLe(v: nat): (b: seq<byte>)
    ensures |b| >= 1
  {
    if v < 256 then [v] else [v % 256] + BytesLe(v / 256)
  }

  /** `Vec::resize`: cut or pad with zeros. */
  function Resize(b: seq<byte>, n: nat): (r: seq<byte>)
    ensures |r| == n
  {
    if |b| >= n then b[..n] else b + seq(n - |b|, _ => 0)
  }

  ghost function ValueLe(b: seq<byte>): nat {
    if b == [] then 0 else b[0] + 256 * ValueLe(b[1..])
  }

  lemma {:induction false} BytesLeLength(v: nat, n: nat)
    requires n >= 1 && v < Pow2(8 * n)
    ensures |BytesLe(v)| <= n && ValueLe(BytesLe(v)) == v
  {
    assert Pow2(8) == 256;
    if v >= 256 {
      Pow2Add(8 * (n - 1), 8);
      assert n > 1;
      BytesLeLength(v / 256, n - 1);
      var b := BytesLe(v);
      assert b[0] == v % 256 && b[1..] == BytesLe(v / 256);
    } else {
      assert [v][1..] == [];
    }
  }

  lemma {:induction false} PaddingKeepsValue(b: seq<byte>, k: nat)
    ensures ValueLe(b + seq(k, _ => 0)) == ValueLe(b)
  {
    var zeros: seq<byte> := seq(k, _ => 0);
    if b == [] {
      assert b + zeros == zeros;
      if k > 0 {
        PaddingKeepsValue([], k - 1);
        assert zeros[1..] == seq(k - 1, _ => 0) && [] + zeros[1..] == zeros[1..];
      }
    } else {
      PaddingKeepsValue(b[1..], k);
      assert (b + zeros)[1..] == b[1..] + zeros;
    }
  }

  /** The 384-byte form never truncates: it determines the value. */
  lemma SerialisedExactly(v: nat)
    requires v < Modulus()
    ensures |BytesLe(v)| <= BYTE_SIZE
    ensures ValueLe(Resize(BytesLe(v), BYTE_SIZE)) == v
  {
    hide Modulus, Pow2;
    BytesLeLength(v, BYTE_SIZE);
    var b := BytesLe(v);
    PaddingKeepsValue(b, BYTE_SIZE - |b|);
    if |b| == BYTE_SIZE {
      assert b[..BYTE_SIZE] == b;
    }
  }

  function Reversed(b: seq<byte>): (r: seq<byte>)
    ensures |r| == |b|
  {
    seq(|b|, i requires 0 <= i < |b| => b[|b| - 1 - i])
  }

  // ----- The hash -----

  /** The bytes that are digested. */
  function Serialised(f: Fraction): (b: seq<byte>)
    ensures |b| == BYTE_SIZE
  {
    Resize(BytesLe(FinalValue(f, Modulus())), BYTE_SIZE)
  }

  function HashOf(f: Fraction, digest: Digest): seq<byte> { Reversed(digest(Serialised(f))) }

  /** No two 384-byte strings have the same digest. */
  ghost predicate CollisionFree(digest: Digest) {
    forall a, b :: |a| == |b| == BYTE_SIZE && digest(a) == digest(b) ==> a == b
  }

  lemma ReversedTwice(b: seq<byte>)
    ensures Reversed(Reversed(b)) == b
  {
  }

  /** Equal values have equal hashes, and without collisions only they do. */
  lemma HashIsValue(f: Fraction, g: Fraction, digest: Digest)
    ensures FinalValue(f, Modulus()) == FinalValue(g, Modulus()) ==> HashOf(f, digest) == HashOf(g, digest)
    ensures CollisionFree(digest) && HashOf(f, digest) == HashOf(g, digest)
      ==> FinalValue(f, Modulus()) == FinalValue(g, Modulus())
  {
    hide Modulus, FinalValue, Resize, BytesLe, Reversed, ValueLe;
    SerialisedExactly(FinalValue(f, Modulus()));
    SerialisedExactly(FinalValue(g, Modulus()));
    ReversedTwice(digest(Serialised(f)));
    ReversedTwice(digest(Serialised(g)));
  }

  /** Any reordering gives the same hash. */
  lemma HashIgnoresOrder(a: seq<Op>, b: seq<Op>, hash: Hash, digest: Digest)
    requires multiset(a) == multiset(b)
    ensures HashOf(Run(a, hash, Modulus()), digest) == HashOf(Run(b, hash, Modulus()), digest)
  {
    hide Modulus, Run, HashOf;
    OrderDoesNotMatter(a, b, hash, Modulus());
  }

  /** Inserting and removing an element leaves the hash unchanged if the element is
      a unit or the value is zero, and without collisions only then. */
  lemma HashCancels(a: seq<Op>, b: seq<Op>, c: seq<Op>, data: seq<byte>, insertFirst: bool, hash: Hash, digest: Digest)
    requires IsPrime(Modulus())
    ensures var first, second := if insertFirst then Insert(data) else Remove(data),
                                 if insertFirst then Remove(data) else Insert(data);
      var p := Modulus();
      var kept, all := Run(a + b + c, hash, p), Run(a + [first] + b + [second] + c, hash, p);
      var cancels := hash(data) % p != 0 || FinalValue(kept, p) == 0;
      && (cancels ==> HashOf(all, digest) == HashOf(kept, digest))
      && (CollisionFree(digest) && HashOf(all, digest) == HashOf(kept, digest) ==> cancels)
  {
    hide Modulus, Run, HashOf, FinalValue, CollisionFree, IsPrime;
    var first, second := if insertFirst then Insert(data) else Remove(data),
                         if insertFirst then Remove(data) else Insert(data);
    var p := Modulus();
    InsertRemoveCancels(a, b, c, data, insertFirst, hash, p);
    HashIsValue(Run(a + [first] + b + [second] + c, hash, p), Run(a + b + c, hash, p), digest);
  }

  /** The hash depends on net multiplicities only. */
  lemma HashIsNet(a: seq<Op>, b: seq<Op>, hash: Hash, digest: Digest)
    requires IsPrime(Modulus()) && forall op | op in a || op in b :: hash(op.data) % Modulus() != 0
    requires multiset(Elements(a, true, hash) + Elements(b, false, hash))
      == multiset(Elements(b, true, hash) + Elements(a, false, hash))
    ensures HashOf(Run(a, hash, Modulus()), digest) == HashOf(Run(b, hash, Modulus()), digest)
  {
    hide Modulus, Run, HashOf, FinalValue, IsPrime, Elements;
    NetEffect(a, b, hash, Modulus());
    HashIsValue(Run(a, hash, Modulus()), Run(b, hash, Modulus()), digest);
  }

  // ----- The accumulator object -----

  class MuHash3072 {
    var numerator: nat
    var denominator: nat
    /** The element a byte string stands for: the key stream of its SHA-256 digest, as a number. */
    const hashToNum: Hash
    /** SHA-256. */
    const digest: Digest

    function Value(): Fraction
      reads this
    {
      Fraction(numerator, denominator)
    }

    constructor (hashToNum: Hash, digest: Digest)
      ensures Value() == EMPTY && this.hashToNum == hashToNum && this.digest == digest
    {
      this.hashToNum := hashToNum;
      this.digest := digest;
      numerator := 1;
      denominator := 1;
    }

    method InsertElement(data: seq<byte>)
      modifies this
      ensures Value() == Apply(old(Value()), Insert(data), hashToNum, Modulus())
      ensures numerator == old(numerator) * hashToNum(data) % Modulus() && denominator == old(denominator)
    {
      hide Modulus;
      numerator := MulMod(numerator, hashToNum(data), Modulus());
    }

    method RemoveElement(data: seq<byte>)
      modifies this
      ensures Value() == Apply(old(Value()), Remove(data), hashToNum, Modulus())
      ensures denominator == old(denominator) * hashToNum(data) % Modulus() && numerator == old(numerator)
    {
      hide Modulus;
      denominator := MulMod(denominator, hashToNum(data), Modulus());
    }

    method CombineWith(other: MuHash3072)
      modifies this
      ensures Value() == Combine(old(Value()), old(other.Value()), Modulus())
      ensures numerator == old(numerator) * old(other.numerator) % Modulus()
      ensures denominator == old(denominator) * old(other.denominator) % Modulus()
    {
      hide Modulus;
      var n, d := other.numerator, other.denominator;
      numerator := MulMod(numerator, n, Modulus());
      denominator := MulMod(denominator, d, Modulus());
    }

    /** The reversed digest of the value's 384 bytes, from which the value can be read back. */
    method Finalize() returns (hash: seq<byte>, ghost bytes: seq<byte>)
      ensures hash == HashOf(Value(), digest) && hash == Reversed(digest(bytes)) && bytes == Serialised(Value())
      ensures |bytes| == BYTE_SIZE && ValueLe(bytes) == FinalValue(Value(), Modulus())
      ensures |hash| == |digest(bytes)|
      ensures forall i :: 0 <= i < |hash| ==> hash[i] == digest(bytes)[|hash| - 1 - i]
    {
      hide Modulus;
      var inverse := PowMod(denominator, Modulus() - 2, Modulus());
      var value := MulMod(numerator, inverse, Modulus());
      SerialisedExactly(value);
      var serialised := Resize(BytesLe(value), BYTE_SIZE);
      bytes := serialised;
      hash := Reversed(digest(serialised));
    }
  }
}
