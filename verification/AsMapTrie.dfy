/** What an ASMap program means: a binary trie over address bits, how a trie is
    laid out as a bit stream, and which tries the checker admits. */
module AsMapTrie {
  import opened Bits
  import opened PrefixCode

  const TYPE_SIZES: seq<nat> := [0, 0, 1]
  const ASN_SIZES: seq<nat> := [15, 16, 17, 18, 19, 20, 21, 22, 23, 24]
  const MATCH_SIZES: seq<nat> := [1, 2, 3, 4, 5, 6, 7, 8]
  const JUMP_SIZES: seq<nat> :=
    [5, 6, 7, 8, 9, 10, 11, 12, 13, 14, 15, 16, 17, 18, 19, 20, 21, 22, 23, 24, 25, 26, 27, 28, 29, 30]

  const ASN_LIMIT: nat := 33521665 // 1 + 2^15 + ... + 2^24
  const MATCH_LIMIT: nat := 512    // 2 + 2^1 + ... + 2^8
  const JUMP_LIMIT: nat := 2147483633 // 17 + 2^5 + ... + 2^30

  /** `Return` ends a lookup, `Jump` branches on the next address bit, `Match`
      compares up to eight bits, `Default` sets the answer for failed matches. */
  datatype Trie =
    | Return(asn: nat)
    | Jump(zero: Trie, one: Trie)
    | Match(pattern: seq<bool>, next: Trie)
    | Default(asn: nat, next: Trie)

  // ----- Meaning -----

  /** No path of `t` reads more than `bits` address bits. */
  predicate Shallow(t: Trie, bits: nat) {
    match t
    case Return(_) => true
    case Jump(zero, one) => bits > 0 && Shallow(zero, bits - 1) && Shallow(one, bits - 1)
    case Match(pattern, next) => |pattern| <= bits && Shallow(next, bits - |pattern|)
    case Default(_, next) => Shallow(next, bits)
  }

  /** The ASN of an address, from address bit `k` on, with the innermost default so far. */
  ghost function Lookup(t: Trie, address: seq<bool>, k: nat, default: nat): nat
    requires k <= |address| && Shallow(t, |address| - k)
  {
    match t
    case Return(asn) => asn
    case Jump(zero, one) =>
      if address[k] then Lookup(one, address, k + 1, default) else Lookup(zero, address, k + 1, default)
    case Match(pattern, next) =>
      if address[k..k + |pattern|] == pattern then Lookup(next, address, k + |pattern|, default) else default
    case Default(asn, next) => Lookup(next, address, k, asn)
  }

  // ----- Layout -----

  function TypeCode(opcode: nat): (w: seq<bool>)
    requires opcode < 4
  {
    TypeTotal();
    Encode(opcode, 0, TYPE_SIZES)
  }

  function AsnCode(asn: nat): seq<bool>
    requires 1 <= asn < ASN_LIMIT
  {
    AsnTotal();
    Encode(asn, 1, ASN_SIZES)
  }

  /** A pattern is coded as the number with a leading one in front of its bits. */
  function MatchCode(pattern: seq<bool>): seq<bool>
    requires 1 <= |pattern| <= 8
  {
    MatchTotal();
    PatternRange(pattern);
    Encode(PatternValue(pattern), 2, MATCH_SIZES)
  }

  function PatternValue(pattern: seq<bool>): nat { Pow2(|pattern|) + ValueOf(pattern) }

  function JumpCode(distance: nat): seq<bool>
    requires 17 <= distance < JUMP_LIMIT
  {
    JumpTotal();
    Encode(distance, 17, JUMP_SIZES)
  }

  /** Every number in `t` has a codeword, the jump distances included. */
  predicate Encodable(t: Trie)
    decreases t, 0
  {
    match t
    case Return(asn) => 1 <= asn < ASN_LIMIT
    case Jump(zero, one) => Encodable(zero) && Encodable(one) && 17 <= |Layout(zero)| < JUMP_LIMIT
    case Match(pattern, next) => 1 <= |pattern| <= 8 && Encodable(next)
    case Default(asn, next) => 1 <= asn < ASN_LIMIT && Encodable(next)
  }

  /** The instructions of `t`. A jump skips exactly the layout of its zero branch. */
  function Layout(t: Trie): seq<bool>
    requires Encodable(t)
    decreases t, 1
  {
    match t
    case Return(asn) => TypeCode(0) + AsnCode(asn)
    case Jump(zero, one) => TypeCode(1) + (JumpCode(|Layout(zero)|) + (Layout(zero) + Layout(one)))
    case Match(pattern, next) => TypeCode(2) + (MatchCode(pattern) + Layout(next))
    case Default(asn, next) => TypeCode(3) + (AsnCode(asn) + Layout(next))
  }

  // ----- Admission -----

  /** The checker's rules beyond the layout: no path reads more than `bits` bits,
      no default stands before a return or another default, and only the last of
      consecutive matches may be shorter than eight bits. `previous` is the
      preceding opcode (1 at the start of a branch), `short` whether it was a
      match of fewer than eight bits. */
  predicate Admissible(t: Trie, bits: nat, previous: nat, short: bool) {
    match t
    case Return(_) => previous != 3
    case Jump(zero, one) =>
      bits > 0 && Admissible(zero, bits - 1, 1, false) && Admissible(one, bits - 1, 1, false)
    case Match(pattern, next) =>
      |pattern| <= bits && !(|pattern| < 8 && short && previous == 2)
      && Admissible(next, bits - |pattern|, 2, |pattern| < 8)
    case Default(_, next) => previous != 3 && Admissible(next, bits, 3, false)
  }

  predicate ZeroFrom(s: seq<bool>, pos: nat) {
    forall i :: pos <= i < |s| ==> !s[i]
  }

  /** The stream is the layout of `t`, followed by at most seven zero bits. */
  ghost predicate IsMap(s: seq<bool>, bits: nat, t: Trie) {
    Encodable(t) && Admissible(t, bits, 1, false)
    && At(s, 0, Layout(t)) && |s| - |Layout(t)| <= 7 && ZeroFrom(s, |Layout(t)|)
  }

  lemma {:induction false} AdmissibleIsShallow(t: Trie, bits: nat, previous: nat, short: bool)
    requires Admissible(t, bits, previous, short)
    ensures Shallow(t, bits)
  {
    match t
    case Return(_) =>
    case Jump(zero, one) =>
      AdmissibleIsShallow(zero, bits - 1, 1, false);
      AdmissibleIsShallow(one, bits - 1, 1, false);
    case Match(pattern, next) =>
      AdmissibleIsShallow(next, bits - |pattern|, 2, |pattern| < 8);
    case Default(_, next) =>
      AdmissibleIsShallow(next, bits, 3, false);
  }

  // ----- Ranges of the four codes -----

  lemma TypeTotal()
    ensures Total(TYPE_SIZES) == 4
  {
    assert TYPE_SIZES[1..] == [0, 1] && [0, 1][1..] == [1];
  }

  lemma {:induction false} TotalOfRun(sizes: seq<nat>, low: nat)
    requires forall i :: 0 <= i < |sizes| ==> sizes[i] == low + i
    ensures Total(sizes) == Pow2(low + |sizes|) - Pow2(low)
  {
    if sizes != [] {
      TotalOfRun(sizes[1..], low + 1);
    }
  }

  lemma AsnTotal()
    ensures 1 + Total(ASN_SIZES) == ASN_LIMIT
  {
    hide Total;
    TotalOfRun(ASN_SIZES, 15);
    assert Pow2(15) == 32768 && Pow2(25) == 33554432;
  }

  lemma MatchTotal()
    ensures 2 + Total(MATCH_SIZES) == MATCH_LIMIT
  {
    hide Total;
    TotalOfRun(MATCH_SIZES, 1);
    assert Pow2(1) == 2 && Pow2(9) == 512;
  }

  lemma JumpTotal()
    ensures 17 + Total(JUMP_SIZES) == JUMP_LIMIT
  {
    hide Total;
    TotalOfRun(JUMP_SIZES, 5);
    Pow2Add(15, 16);
    assert Pow2(5) == 32 && Pow2(15) == 32768 && Pow2(16) == 65536;
  }

  lemma PatternRange(pattern: seq<bool>)
    requires 1 <= |pattern| <= 8
    ensures 2 <= PatternValue(pattern) < MATCH_LIMIT
  {
    ValueBound(pattern);
    Pow2Monotone(|pattern| + 1, 9);
    Pow2Monotone(1, |pattern|);
    assert Pow2(9) == 512 && Pow2(1) == 2;
  }
}
