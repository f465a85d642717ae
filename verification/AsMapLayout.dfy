/** Tries standing in a bit stream: reading one instruction at a time, uniqueness,
    and the correspondence between a stack of jump targets and pending branches. */
module AsMapLayout {
  import opened Bits
  import opened PrefixCode
  import opened AsMapTrie

  // ----- One instruction at a position -----

  /** An instruction code of opcode `op` and argument codeword `arg` stands at `pos`. */
  ghost predicate Instruction(s: seq<bool>, pos: nat, op: nat, arg: seq<bool>)
    requires op < 4
  {
    At(s, pos, TypeCode(op)) && At(s, pos + |TypeCode(op)|, arg)
  }

  ghost predicate LaidOut(s: seq<bool>, pos: nat, t: Trie) {
    Encodable(t) && At(s, pos, Layout(t))
  }

  lemma ReturnLaidOut(s: seq<bool>, pos: nat, asn: nat)
    requires 1 <= asn < ASN_LIMIT
    ensures LaidOut(s, pos, Return(asn)) <==> Instruction(s, pos, 0, AsnCode(asn))
    ensures |Layout(Return(asn))| == |TypeCode(0)| + |AsnCode(asn)|
  {
    hide TypeCode, AsnCode, At;
    AtConcat(s, pos, TypeCode(0), AsnCode(asn));
  }

  lemma DefaultLaidOut(s: seq<bool>, pos: nat, asn: nat, next: Trie)
    requires 1 <= asn < ASN_LIMIT && Encodable(next)
    ensures LaidOut(s, pos, Default(asn, next))
      <==> Instruction(s, pos, 3, AsnCode(asn)) && LaidOut(s, pos + |TypeCode(3)| + |AsnCode(asn)|, next)
    ensures |Layout(Default(asn, next))| == |TypeCode(3)| + |AsnCode(asn)| + |Layout(next)|
  {
    hide TypeCode, AsnCode, At;
    AtConcat(s, pos, TypeCode(3), AsnCode(asn) + Layout(next));
    AtConcat(s, pos + |TypeCode(3)|, AsnCode(asn), Layout(next));
  }

  lemma LayoutOfMatch(pattern: seq<bool>, next: Trie)
    requires 1 <= |pattern| <= 8 && Encodable(next)
    ensures Layout(Match(pattern, next)) == TypeCode(2) + (MatchCode(pattern) + Layout(next))
  {
    hide TypeCode, MatchCode;
  }

  lemma LayoutOfJump(zero: Trie, one: Trie)
    requires Encodable(Jump(zero, one))
    ensures Layout(Jump(zero, one)) == TypeCode(1) + (JumpCode(|Layout(zero)|) + (Layout(zero) + Layout(one)))
  {
    hide TypeCode, JumpCode;
  }

  lemma MatchLaidOut(s: seq<bool>, pos: nat, pattern: seq<bool>, next: Trie)
    requires 1 <= |pattern| <= 8 && Encodable(next)
    ensures LaidOut(s, pos, Match(pattern, next))
      <==> Instruction(s, pos, 2, MatchCode(pattern)) && LaidOut(s, pos + |TypeCode(2)| + |MatchCode(pattern)|, next)
    ensures |Layout(Match(pattern, next))| == |TypeCode(2)| + |MatchCode(pattern)| + |Layout(next)|
  {
    hide TypeCode, MatchCode, At, Layout;
    LayoutOfMatch(pattern, next);
    AtConcat(s, pos, TypeCode(2), MatchCode(pattern) + Layout(next));
    AtConcat(s, pos + |TypeCode(2)|, MatchCode(pattern), Layout(next));
  }

  lemma AtConcat4(s: seq<bool>, pos: nat, a: seq<bool>, b: seq<bool>, c: seq<bool>, d: seq<bool>)
    ensures At(s, pos, a + (b + (c + d)))
      <==> At(s, pos, a) && At(s, pos + |a|, b) && At(s, pos + |a| + |b|, c) && At(s, pos + |a| + |b| + |c|, d)
    ensures |a + (b + (c + d))| == |a| + |b| + |c| + |d|
  {
    hide At;
    AtConcat(s, pos, a, b + (c + d));
    AtConcat(s, pos + |a|, b, c + d);
    AtConcat(s, pos + |a| + |b|, c, d);
  }

  lemma JumpLaidOut(s: seq<bool>, pos: nat, zero: Trie, one: Trie)
    requires Encodable(Jump(zero, one))
    ensures var d := |Layout(zero)|; var after := pos + |TypeCode(1)| + |JumpCode(d)|;
      && (LaidOut(s, pos, Jump(zero, one))
          <==> Instruction(s, pos, 1, JumpCode(d)) && LaidOut(s, after, zero) && LaidOut(s, after + d, one))
      && pos + |Layout(Jump(zero, one))| == after + d + |Layout(one)|
  {
    hide TypeCode, JumpCode, At, Layout;
    LayoutOfJump(zero, one);
    AtConcat4(s, pos, TypeCode(1), JumpCode(|Layout(zero)|), Layout(zero), Layout(one));
  }

  function Opcode(t: Trie): nat {
    match t
    case Return(_) => 0
    case Jump(_, _) => 1
    case Match(_, _) => 2
    case Default(_, _) => 3
  }

  /** The position after the first instruction of `t`. */
  function AfterHead(pos: nat, t: Trie): nat
    requires Encodable(t)
  {
    match t
    case Return(asn) => pos + |TypeCode(0)| + |AsnCode(asn)|
    case Jump(zero, _) => pos + |TypeCode(1)| + |JumpCode(|Layout(zero)|)|
    case Match(pattern, _) => pos + |TypeCode(2)| + |MatchCode(pattern)|
    case Default(asn, _) => pos + |TypeCode(3)| + |AsnCode(asn)|
  }

  /** What a trie standing at `pos` looks like, one instruction deep. */
  ghost predicate HeadAndRest(s: seq<bool>, pos: nat, t: Trie)
    requires Encodable(t)
  {
    var after := AfterHead(pos, t);
    match t
    case Return(asn) => Instruction(s, pos, 0, AsnCode(asn))
    case Jump(zero, one) =>
      Instruction(s, pos, 1, JumpCode(|Layout(zero)|))
      && LaidOut(s, after, zero) && LaidOut(s, after + |Layout(zero)|, one)
    case Match(pattern, next) => Instruction(s, pos, 2, MatchCode(pattern)) && LaidOut(s, after, next)
    case Default(asn, next) => Instruction(s, pos, 3, AsnCode(asn)) && LaidOut(s, after, next)
  }

  function EndOf(pos: nat, t: Trie): nat
    requires Encodable(t)
  {
    pos + |Layout(t)|
  }

  lemma Unfold(s: seq<bool>, pos: nat, t: Trie)
    requires Encodable(t)
    ensures LaidOut(s, pos, t) <==> HeadAndRest(s, pos, t)
    ensures EndOf(pos, t) == match t
      case Return(_) => AfterHead(pos, t)
      case Jump(zero, one) => EndOf(EndOf(AfterHead(pos, t), zero), one)
      case Match(_, next) => EndOf(AfterHead(pos, t), next)
      case Default(_, next) => EndOf(AfterHead(pos, t), next)
    ensures |Layout(t)| > 0
  {
    hide TypeCode, AsnCode, MatchCode, JumpCode, At, Layout;
    match t
    case Return(asn) => ReturnLaidOut(s, pos, asn); TypeCodeNonEmpty(0);
    case Jump(zero, one) => JumpLaidOut(s, pos, zero, one); TypeCodeNonEmpty(1);
    case Match(pattern, next) => MatchLaidOut(s, pos, pattern, next); TypeCodeNonEmpty(2);
    case Default(asn, next) => DefaultLaidOut(s, pos, asn, next); TypeCodeNonEmpty(3);
  }

  lemma TypeCodeNonEmpty(op: nat)
    requires op < 4
    ensures |TypeCode(op)| > 0
  {
    TypeTotal();
  }

  /** A position holds the layout of at most one trie. */
  lemma {:induction false} TrieUnique(s: seq<bool>, pos: nat, t: Trie, u: Trie)
    requires LaidOut(s, pos, t) && LaidOut(s, pos, u)
    ensures t == u
    decreases t
  {
    hide TypeCode, AsnCode, MatchCode, JumpCode, At, Layout;
    Unfold(s, pos, t);
    Unfold(s, pos, u);
    TypeUnique(s, pos, Opcode(t), Opcode(u));
    var p := pos + |TypeCode(Opcode(t))|;
    match t
    case Return(asn) =>
      AsnUnique(s, p, asn, u.asn);
    case Jump(zero, one) =>
      JumpUnique(s, p, |Layout(zero)|, |Layout(u.zero)|);
      TrieUnique(s, AfterHead(pos, t), zero, u.zero);
      TrieUnique(s, AfterHead(pos, t) + |Layout(zero)|, one, u.one);
    case Match(pattern, next) =>
      MatchUnique(s, p, pattern, u.pattern);
      TrieUnique(s, AfterHead(pos, t), next, u.next);
    case Default(asn, next) =>
      AsnUnique(s, p, asn, u.asn);
      TrieUnique(s, AfterHead(pos, t), next, u.next);
  }

  // ----- Codewords at a position are unique -----

  lemma TypeUnique(s: seq<bool>, pos: nat, a: nat, b: nat)
    requires a < 4 && b < 4 && At(s, pos, TypeCode(a)) && At(s, pos, TypeCode(b))
    ensures a == b
  {
    TypeTotal();
    ReadsUnique(s, pos, 0, TYPE_SIZES, Read(a, pos + |TypeCode(a)|), Read(b, pos + |TypeCode(b)|));
  }

  lemma AsnUnique(s: seq<bool>, pos: nat, a: nat, b: nat)
    requires 1 <= a < ASN_LIMIT && 1 <= b < ASN_LIMIT && At(s, pos, AsnCode(a)) && At(s, pos, AsnCode(b))
    ensures a == b
  {
    hide Total, Encode;
    AsnTotal();
    ReadsUnique(s, pos, 1, ASN_SIZES, Read(a, pos + |AsnCode(a)|), Read(b, pos + |AsnCode(b)|));
  }

  lemma MatchUnique(s: seq<bool>, pos: nat, a: seq<bool>, b: seq<bool>)
    requires 1 <= |a| <= 8 && 1 <= |b| <= 8 && At(s, pos, MatchCode(a)) && At(s, pos, MatchCode(b))
    ensures a == b
  {
    MatchTotal();
    PatternRange(a);
    PatternRange(b);
    ReadsUnique(s, pos, 2, MATCH_SIZES, Read(PatternValue(a), pos + |MatchCode(a)|),
                Read(PatternValue(b), pos + |MatchCode(b)|));
    PatternOfValue(a);
    PatternOfValue(b);
  }

  lemma JumpUnique(s: seq<bool>, pos: nat, a: nat, b: nat)
    requires 17 <= a < JUMP_LIMIT && 17 <= b < JUMP_LIMIT && At(s, pos, JumpCode(a)) && At(s, pos, JumpCode(b))
    ensures a == b
  {
    hide Total, Encode;
    JumpTotal();
    ReadsUnique(s, pos, 17, JUMP_SIZES, Read(a, pos + |JumpCode(a)|), Read(b, pos + |JumpCode(b)|));
  }

  // ----- Patterns and their numbers -----

  /** `u32::BITS - leading_zeros - 1` */
  function Log2(v: nat): (n: nat)
    requires v > 0
    ensures Pow2(n) <= v < Pow2(n + 1)
  {
    if v == 1 then 0 else 1 + Log2(v / 2)
  }

  lemma {:induction false} Log2Unique(v: nat, n: nat)
    requires Pow2(n) <= v < Pow2(n + 1)
    ensures Log2(v) == n
  {
    if n < Log2(v) {
      Pow2Monotone(n + 1, Log2(v));
    } else if Log2(v) < n {
      Pow2Monotone(Log2(v) + 1, n);
    }
  }

  /** The bits below the leading one. */
  function PatternOf(v: nat): (p: seq<bool>)
    requires v > 0
  {
    BitsOf(v, Log2(v))
  }

  lemma DropLeadingOne(w: nat, n: nat)
    requires w < Pow2(n)
    ensures BitsOf(Pow2(n) + w, n) == BitsOf(w, n)
  {
    BitsOfShift(1, 0, w, n);
    assert 1 * Pow2(n) + w == Pow2(n) + w;
    assert BitsOf(1, 0) + BitsOf(w, n) == BitsOf(w, n);
  }

  /** The pattern and its number determine each other. */
  lemma PatternOfValue(p: seq<bool>)
    ensures PatternValue(p) > 0 && PatternOf(PatternValue(p)) == p
  {
    ValueBound(p);
    Log2Unique(PatternValue(p), |p|);
    DropLeadingOne(ValueOf(p), |p|);
    BitsOfValueOf(p);
  }

  lemma ValueOfPattern(v: nat)
    requires 2 <= v < MATCH_LIMIT
    ensures 1 <= |PatternOf(v)| <= 8 && PatternValue(PatternOf(v)) == v
  {
    var n := Log2(v);
    assert Pow2(0) == 1 && Pow2(1) == 2 && Pow2(9) == 512;
    if n > 8 {
      Pow2Monotone(9, n);
    }
    DropLeadingOne(v - Pow2(n), n);
    ValueOfBitsOf(v - Pow2(n), n);
  }
}
