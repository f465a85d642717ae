/** Multiplication modulo a number, products of sequences, and Fermat's little theorem. */
module ModularArithmetic {
  import opened Arithmetic

  function MulMod(a: nat, b: nat, p: nat): (r: nat)
    requires p > 0
    ensures r < p
  {
    a * b % p
  }

  lemma AddMultiple(x: int, k: int, p: int)
    requires p > 0
    ensures (x + k * p) % p == x % p
  {
    assert (x / p + k) * p == (x / p) * p + k * p;
    DivisionUnique(x + k * p, p, x / p + k, x % p);
  }

  /** Factors may be reduced first. */
  lemma MulModReduce(a: nat, b: nat, p: nat)
    requires p > 0
    ensures MulMod(a % p, b, p) == MulMod(a, b, p) == MulMod(b, a, p)
  {
    var q, r := a / p, a % p;
    assert a * b == r * b + (q * b) * p by {
      assert a == q * p + r;
      assert (q * p + r) * b == (q * p) * b + r * b;
      assert (q * p) * b == (q * b) * p;
    }
    AddMultiple(r * b, q * b, p);
  }

  lemma MulModAssoc(a: nat, b: nat, c: nat, p: nat)
    requires p > 0
    ensures MulMod(MulMod(a, b, p), c, p) == MulMod(a, MulMod(b, c, p), p)
  {
    MulModReduce(a * b, c, p);
    MulModReduce(b * c, a, p);
    assert (a * b) * c == (b * c) * a;
  }

  lemma MulModComm(a: nat, b: nat, p: nat)
    requires p > 0
    ensures MulMod(a, b, p) == MulMod(b, a, p)
  {
    MulModReduce(a, b, p);
  }

  lemma MulModOne(a: nat, p: nat)
    requires a < p
    ensures MulMod(a, 1, p) == a == MulMod(1, a, p)
  {
  }

  /** Four factors may be regrouped. */
  lemma MulModSwap(a: nat, b: nat, c: nat, d: nat, p: nat)
    requires p > 0
    ensures MulMod(MulMod(a, b, p), MulMod(c, d, p), p) == MulMod(MulMod(a, c, p), MulMod(b, d, p), p)
  {
    hide MulMod;
    MulModAssoc(a, b, MulMod(c, d, p), p);
    MulModAssoc(b, c, d, p);
    MulModComm(b, c, p);
    MulModAssoc(c, b, d, p);
    MulModAssoc(a, c, MulMod(b, d, p), p);
  }

  // ----- Products and powers -----

  function Product(s: seq<nat>, p: nat): (r: nat)
    requires p > 1
    ensures r < p
  {
    if s == [] then 1 else MulMod(s[|s| - 1], Product(s[..|s| - 1], p), p)
  }

  function PowMod(x: nat, n: nat, p: nat): (r: nat)
    requires p > 1
    ensures r < p
  {
    if n == 0 then 1 else MulMod(x, PowMod(x, n - 1, p), p)
  }

  lemma {:induction false} ProductConcat(s: seq<nat>, t: seq<nat>, p: nat)
    requires p > 1
    ensures Product(s + t, p) == MulMod(Product(s, p), Product(t, p), p)
  {
    hide MulMod;
    if t == [] {
      assert s + t == s;
      MulModOne(Product(s, p), p);
    } else {
      var last, rest := t[|t| - 1], t[..|t| - 1];
      ProductConcat(s, rest, p);
      assert (s + t)[..|s + t| - 1] == s + rest;
      MulModAssoc(last, Product(s, p), Product(rest, p), p);
      MulModComm(last, Product(s, p), p);
      MulModAssoc(Product(s, p), last, Product(rest, p), p);
    }
  }

  lemma ProductSingle(x: nat, p: nat)
    requires p > 1
    ensures Product([x], p) == x % p
  {
    assert [x][..0] == [];
  }

  lemma RemoveAt<T>(t: seq<T>, i: nat)
    requires i < |t|
    ensures multiset(t) == multiset(t[..i] + t[i + 1..]) + multiset([t[i]])
  {
    var a, x, b := t[..i], [t[i]], t[i + 1..];
    assert t == a + (x + b);
    assert multiset(t) == multiset(a) + multiset(x + b);
  }

  /** The last element of `s`, found in a permutation of `s`. */
  lemma Partner<T>(s: seq<T>, t: seq<T>) returns (i: nat)
    requires s != [] && multiset(s) == multiset(t)
    ensures i < |t| && t[i] == s[|s| - 1] && multiset(s[..|s| - 1]) == multiset(t[..i] + t[i + 1..])
  {
    var top := |s| - 1;
    assert s[top] in multiset(t);
    i :| 0 <= i < |t| && t[i] == s[top];
    RemoveAt(s, top);
    RemoveAt(t, i);
    assert s[..top] + s[top + 1..] == s[..top];
    SumCancels(multiset(s[..top]), multiset(t[..i] + t[i + 1..]), multiset([t[i]]));
  }

  lemma SumCancels<T>(a: multiset<T>, b: multiset<T>, c: multiset<T>)
    requires a + c == b + c
    ensures a == b
  {
    assert a == (a + c) - c;
    assert b == (b + c) - c;
  }

  /** The product does not depend on the order. */
  lemma {:induction false} ProductPermutes(s: seq<nat>, t: seq<nat>, p: nat)
    requires p > 1 && multiset(s) == multiset(t)
    ensures Product(s, p) == Product(t, p)
    decreases |s|
  {
    hide MulMod;
    if s == [] {
      assert |multiset(t)| == 0;
    } else {
      var x, s' := s[|s| - 1], s[..|s| - 1];
      var i := Partner(s, t);
      var before, after := t[..i], t[i + 1..];
      assert t == before + ([x] + after);
      ProductPermutes(s', before + after, p);
      ProductConcat(before, [x] + after, p);
      ProductConcat([x], after, p);
      ProductConcat(before, after, p);
      PullOut(x, before, after, p);
    }
  }

  lemma PullOut(x: nat, before: seq<nat>, after: seq<nat>, p: nat)
    requires p > 1
    ensures MulMod(Product(before, p), MulMod(Product([x], p), Product(after, p), p), p)
      == MulMod(x, MulMod(Product(before, p), Product(after, p), p), p)
  {
    var b, a := Product(before, p), Product(after, p);
    ProductSingle(x, p);
    MulModReduce(x, a, p);
    MulModReduce(x, MulMod(b, a, p), p);
    assert MulMod(b, MulMod(x, a, p), p) == MulMod(x, MulMod(b, a, p), p) by {
      hide MulMod;
      MulModAssoc(b, x, a, p);
      MulModComm(b, x, p);
      MulModAssoc(x, b, a, p);
    }
  }

  /** Powers distribute over products. */
  lemma {:induction false} PowModProduct(x: nat, y: nat, n: nat, p: nat)
    requires p > 1
    ensures PowMod(MulMod(x, y, p), n, p) == MulMod(PowMod(x, n, p), PowMod(y, n, p), p)
  {
    hide MulMod;
    if n == 0 {
      MulModOne(1, p);
    } else {
      PowModProduct(x, y, n - 1, p);
      MulModSwap(x, y, PowMod(x, n - 1, p), PowMod(y, n - 1, p), p);
    }
  }

  lemma {:induction false} PowModReduce(x: nat, n: nat, p: nat)
    requires p > 1
    ensures PowMod(x % p, n, p) == PowMod(x, n, p)
  {
    hide MulMod;
    if n > 0 {
      PowModReduce(x, n - 1, p);
      MulModReduce(x, PowMod(x, n - 1, p), p);
    }
  }

  // ----- Prime moduli -----

  ghost predicate IsPrime(p: nat) {
    p >= 2 && forall d :: 2 <= d < p ==> p % d != 0
  }

  lemma RemainderVanishes(a: nat, b: nat, p: nat)
    requires p > 0 && b > 0 && MulMod(a, b, p) == 0
    ensures MulMod(a, p % b, p) == 0
  {
    var q, r, k := p / b, p % b, a * b / p;
    assert a * b == k * p;
    assert a * r == a * p - q * (a * b) by {
      assert p == q * b + r;
      assert a * p == a * (q * b) + a * r;
      assert a * (q * b) == q * (a * b);
    }
    assert q * (k * p) == (q * k) * p;
    assert a * p - (q * k) * p == (a - q * k) * p;
    AddMultiple(0, a - q * k, p);
  }

  /** A prime divides a product only when it divides a factor. */
  lemma {:induction false} NoZeroDivisors(a: nat, b: nat, p: nat)
    requires IsPrime(p) && 1 <= a < p && 1 <= b < p
    ensures MulMod(a, b, p) != 0
    decreases b
  {
    if MulMod(a, b, p) == 0 {
      if b >= 2 {
        var r := p % b;
        assert r != 0;
        RemainderVanishes(a, b, p);
        NoZeroDivisors(a, r, p);
      }
    }
  }

  lemma {:induction false} ProductNonZero(s: seq<nat>, p: nat)
    requires IsPrime(p) && forall i :: 0 <= i < |s| ==> s[i] % p != 0
    ensures Product(s, p) != 0
  {
    if s != [] {
      var last, rest := s[|s| - 1], s[..|s| - 1];
      ProductNonZero(rest, p);
      MulModReduce(last, Product(rest, p), p);
      NoZeroDivisors(last % p, Product(rest, p), p);
    }
  }

  /** Non-zero factors cancel. */
  lemma Cancel(a: nat, b: nat, c: nat, p: nat)
    requires IsPrime(p) && a < p && b < p && 1 <= c < p && MulMod(a, c, p) == MulMod(b, c, p)
    ensures a == b
  {
    if a < b {
      CancelOrdered(a, b, c, p);
    } else if b < a {
      CancelOrdered(b, a, c, p);
    }
  }

  lemma CancelOrdered(a: nat, b: nat, c: nat, p: nat)
    requires IsPrime(p) && a < b < p && 1 <= c < p
    ensures MulMod(a, c, p) != MulMod(b, c, p)
  {
    if MulMod(a, c, p) == MulMod(b, c, p) {
      var k := b * c / p - a * c / p;
      assert (b - a) * c == 0 + k * p by {
        assert (b - a) * c == b * c - a * c;
        assert b * c == (b * c / p) * p + b * c % p && a * c == (a * c / p) * p + a * c % p;
        assert (b * c / p) * p - (a * c / p) * p == k * p;
      }
      AddMultiple(0, k, p);
      NoZeroDivisors(b - a, c, p);
    }
  }

  // ----- Fermat -----

  function Upto(n: nat): (s: seq<nat>)
    ensures |s| == n && forall i :: 0 <= i < n ==> s[i] == i + 1
  {
    seq(n, i => i + 1)
  }

  /** The multiples of `x` by 1, 2, ..., n, reduced. */
  function Multiples(x: nat, n: nat, p: nat): (s: seq<nat>)
    requires p > 0
    ensures |s| == n && forall i :: 0 <= i < n ==> s[i] == MulMod(x, i + 1, p)
  {
    seq(n, i requires 0 <= i < n => MulMod(x, i + 1, p))
  }

  predicate Distinct(s: seq<nat>) {
    forall i, j :: 0 <= i < j < |s| ==> s[i] != s[j]
  }

  ghost function Elements(s: seq<nat>): set<nat> { set x | x in s }

  lemma {:induction false} DistinctCount(s: seq<nat>, v: nat)
    requires Distinct(s)
    ensures multiset(s)[v] == if v in s then 1 else 0
  {
    if s != [] {
      var last, rest := s[|s| - 1], s[..|s| - 1];
      DistinctCount(rest, v);
      assert s == rest + [last];
    }
  }

  lemma {:induction false} DistinctSize(s: seq<nat>)
    requires Distinct(s)
    ensures |Elements(s)| == |s|
  {
    if s != [] {
      var last, rest := s[|s| - 1], s[..|s| - 1];
      DistinctSize(rest);
      assert s == rest + [last] && last !in rest;
      assert Elements(s) == Elements(rest) + {last};
    }
  }

  /** Distinct sequences of one length are permutations when one holds the other's elements. */
  lemma DistinctPermutation(s: seq<nat>, t: seq<nat>)
    requires Distinct(s) && Distinct(t) && |s| == |t| && Elements(s) <= Elements(t)
    ensures multiset(s) == multiset(t)
  {
    DistinctSize(s);
    DistinctSize(t);
    SameSize(Elements(s), Elements(t));
    forall v: nat ensures multiset(s)[v] == multiset(t)[v] {
      DistinctCount(s, v);
      DistinctCount(t, v);
      assert v in s <==> v in Elements(s);
      assert v in t <==> v in Elements(t);
    }
  }

  lemma SameSize(a: set<nat>, b: set<nat>)
    requires a <= b && |a| == |b|
    ensures a == b
  {
    assert b == a + (b - a);
  }

  /** Multiplying by a unit permutes the non-zero residues. */
  lemma MultiplesPermute(x: nat, p: nat)
    requires IsPrime(p) && 1 <= x < p
    ensures multiset(Multiples(x, p - 1, p)) == multiset(Upto(p - 1))
  {
    hide MulMod;
    var s, u := Multiples(x, p - 1, p), Upto(p - 1);
    forall i, j | 0 <= i < j < |s| ensures s[i] != s[j] {
      CancelOrdered(i + 1, j + 1, x, p);
      MulModComm(x, i + 1, p);
      MulModComm(x, j + 1, p);
    }
    forall v | v in s ensures v in u {
      var i :| 0 <= i < |s| && s[i] == v;
      NoZeroDivisors(x, i + 1, p);
      assert u[v - 1] == v;
    }
    DistinctPermutation(s, u);
  }

  lemma {:induction false} ProductOfMultiples(x: nat, n: nat, p: nat)
    requires p > 1
    ensures Product(Multiples(x, n, p), p) == MulMod(PowMod(x, n, p), Product(Upto(n), p), p)
  {
    hide MulMod;
    if n == 0 {
      MulModOne(1, p);
    } else {
      ProductOfMultiples(x, n - 1, p);
      assert Multiples(x, n, p)[..n - 1] == Multiples(x, n - 1, p);
      assert Upto(n)[..n - 1] == Upto(n - 1);
      MulModSwap(x, n, PowMod(x, n - 1, p), Product(Upto(n - 1), p), p);
    }
  }

  lemma FermatReduced(r: nat, p: nat)
    requires IsPrime(p) && 1 <= r < p
    ensures PowMod(r, p - 1, p) == 1
  {
    hide MulMod;
    var n := p - 1;
    MultiplesPermute(r, p);
    ProductPermutes(Multiples(r, n, p), Upto(n), p);
    ProductOfMultiples(r, n, p);
    UptoNonZero(p);
    MulModOne(Product(Upto(n), p), p);
    Cancel(PowMod(r, n, p), 1, Product(Upto(n), p), p);
  }

  lemma UptoNonZero(p: nat)
    requires IsPrime(p)
    ensures Product(Upto(p - 1), p) != 0
  {
    var u := Upto(p - 1);
    forall i | 0 <= i < |u| ensures u[i] % p != 0 {
      assert u[i] == i + 1;
    }
    ProductNonZero(u, p);
  }

  /** Fermat's little theorem. */
  lemma Fermat(x: nat, p: nat)
    requires IsPrime(p) && x % p != 0
    ensures PowMod(x, p - 1, p) == 1
  {
    PowModReduce(x, p - 1, p);
    FermatReduced(x % p, p);
  }

  /** The power `p - 2` inverts. */
  lemma InverseByPower(x: nat, p: nat)
    requires IsPrime(p) && x % p != 0
    ensures MulMod(x, PowMod(x, p - 2, p), p) == 1
  {
    Fermat(x, p);
    assert PowMod(x, p - 1, p) == MulMod(x, PowMod(x, p - 2, p), p);
  }
}
