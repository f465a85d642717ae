/** The same meaning without a lookup: a trie is a table of address prefixes, and
    the answer for an address is the entry with the longest prefix of it. */
module AsMapTable {
  import opened Bits
  import opened PrefixCode
  import opened AsMapTrie

  // ----- The table -----

  /** The table of `t` has `asn` for the prefix `path`; `default` is in force where `t` stands. */
  ghost predicate Entry(t: Trie, path: seq<bool>, default: nat, asn: nat) {
    match t
    case Return(a) => path == [] && asn == a
    case Jump(zero, one) =>
      && path != []
      && ((!path[0] && Entry(zero, path[1..], default, asn)) || (path[0] && Entry(one, path[1..], default, asn)))
    case Match(pattern, next) =>
      (path == [] && asn == default) || (pattern <= path && Entry(next, path[|pattern|..], default, asn))
    case Default(a, next) => Entry(next, path, a, asn)
  }

  /** `path` is the longest prefix of the address in the table, and has `asn`. */
  ghost predicate Longest(t: Trie, address: seq<bool>, default: nat, asn: nat, path: seq<bool>) {
    && path <= address && Entry(t, path, default, asn)
    && forall p, a :: p <= address && Entry(t, p, default, a) ==> |p| <= |path|
  }

  ghost predicate LongestMatch(t: Trie, address: seq<bool>, default: nat, asn: nat) {
    exists path :: Longest(t, address, default, asn, path)
  }

  /** The table has one answer per prefix. */
  lemma {:induction false} EntryUnique(t: Trie, path: seq<bool>, default: nat, a: nat, b: nat)
    requires Encodable(t) && Entry(t, path, default, a) && Entry(t, path, default, b)
    ensures a == b
  {
    hide Layout;
    match t
    case Return(_) =>
    case Jump(zero, one) => EntryUnique(if path[0] then one else zero, path[1..], default, a, b);
    case Match(pattern, next) =>
      if path != [] {
        EntryUnique(next, path[|pattern|..], default, a, b);
      }
    case Default(d, next) => EntryUnique(next, path, d, a, b);
  }

  /** So an address has at most one answer. */
  lemma LongestMatchUnique(t: Trie, address: seq<bool>, default: nat, a: nat, b: nat)
    requires Encodable(t) && LongestMatch(t, address, default, a) && LongestMatch(t, address, default, b)
    ensures a == b
  {
    hide Entry, Encodable;
    var p, q :| Longest(t, address, default, a, p) && Longest(t, address, default, b, q);
    assert p == address[..|p|] == q;
    EntryUnique(t, p, default, a, b);
  }

  // ----- Looking up is finding the longest match -----

  /** One address bit or pattern in front of a longest match in the subtrie. */
  lemma LongestBehind(t: Trie, front: seq<bool>, next: Trie, address: seq<bool>, k: nat, default: nat, asn: nat)
    requires k + |front| <= |address| && address[k..k + |front|] == front
    requires LongestMatch(next, address[k + |front|..], default, asn)
    requires forall p, a :: front <= p && Entry(next, p[|front|..], default, a) ==> Entry(t, p, default, a)
    requires forall p, a :: p <= address[k..] && Entry(t, p, default, a) ==>
      |p| < |front| || (front <= p && Entry(next, p[|front|..], default, a))
    ensures LongestMatch(t, address[k..], default, asn)
  {
    hide Entry;
    var rest := address[k + |front|..];
    var q :| Longest(next, rest, default, asn, q);
    var path := front + q;
    assert address[k..] == front + rest;
    assert path[|front|..] == q && front <= path;
    forall p, a | p <= address[k..] && Entry(t, p, default, a) ensures |p| <= |path| {
      if |p| >= |front| {
        assert p[|front|..] <= rest;
      }
    }
    assert Longest(t, address[k..], default, asn, path);
  }

  /** A lookup gives the longest match, from any address bit on and with any default. */
  lemma {:induction false} LookupIsLongest(t: Trie, address: seq<bool>, k: nat, default: nat)
    requires Encodable(t) && k <= |address| && Shallow(t, |address| - k)
    ensures LongestMatch(t, address[k..], default, Lookup(t, address, k, default))
  {
    hide Layout;
    match t
    case Return(asn) =>
      assert Longest(t, address[k..], default, asn, []);
    case Jump(zero, one) =>
      var next := if address[k] then one else zero;
      LookupIsLongest(next, address, k + 1, default);
      assert address[k..k + 1] == [address[k]];
      assert forall p: seq<bool> :: [address[k]] <= p ==> p[0] == address[k];
      LongestBehind(t, [address[k]], next, address, k, default, Lookup(t, address, k, default));
    case Match(pattern, next) =>
      if address[k..k + |pattern|] == pattern {
        LookupIsLongest(next, address, k + |pattern|, default);
        LongestBehind(t, pattern, next, address, k, default, Lookup(t, address, k, default));
      } else {
        assert address[k..][..|pattern|] == address[k..k + |pattern|];
        assert Longest(t, address[k..], default, default, []);
      }
    case Default(asn, next) =>
      LookupIsLongest(next, address, k, asn);
      var path :| Longest(next, address[k..], asn, Lookup(next, address, k, asn), path);
      assert forall p, a :: Entry(t, p, default, a) <==> Entry(next, p, asn, a);
      assert Longest(t, address[k..], default, Lookup(t, address, k, default), path);
  }

  // ----- Depth and admission without an accumulator -----

  /** No prefix in the table of a shallow trie is longer than its bits. */
  lemma {:induction false} EntryLength(t: Trie, bits: nat, path: seq<bool>, default: nat, asn: nat)
    requires Shallow(t, bits) && Entry(t, path, default, asn)
    ensures |path| <= bits
  {
    match t
    case Return(_) =>
    case Jump(zero, one) => EntryLength(if path[0] then one else zero, bits - 1, path[1..], default, asn);
    case Match(pattern, next) =>
      if pattern <= path && Entry(next, path[|pattern|..], default, asn) {
        EntryLength(next, bits - |pattern|, path[|pattern|..], default, asn);
      }
    case Default(a, next) => EntryLength(next, bits, path, a, asn);
  }

  /** No default before a return or another default, no short match before a short match. */
  predicate Tidy(t: Trie) {
    match t
    case Default(_, next) => !next.Default? && !next.Return?
    case Match(pattern, next) => |pattern| < 8 && next.Match? ==> |next.pattern| >= 8
    case _ => true
  }

  predicate TidyEverywhere(t: Trie) {
    Tidy(t) &&
    match t
    case Return(_) => true
    case Jump(zero, one) => TidyEverywhere(zero) && TidyEverywhere(one)
    case Match(_, next) => TidyEverywhere(next)
    case Default(_, next) => TidyEverywhere(next)
  }

  lemma {:induction false} AdmissibleAfter(t: Trie, bits: nat, previous: nat, short: bool)
    ensures Admissible(t, bits, previous, short) <==>
      && Shallow(t, bits) && TidyEverywhere(t)
      && (previous == 3 ==> !t.Default? && !t.Return?)
      && (previous == 2 && short && t.Match? ==> |t.pattern| >= 8)
  {
    match t
    case Return(_) =>
    case Jump(zero, one) =>
      if bits > 0 {
        AdmissibleAfter(zero, bits - 1, 1, false);
        AdmissibleAfter(one, bits - 1, 1, false);
      }
    case Match(pattern, next) =>
      if |pattern| <= bits {
        AdmissibleAfter(next, bits - |pattern|, 2, |pattern| < 8);
      }
    case Default(_, next) => AdmissibleAfter(next, bits, 3, false);
  }

  /** What the check admits: shallow tries that are tidy at every node. */
  lemma AdmissibleIff(t: Trie, bits: nat)
    ensures Admissible(t, bits, 1, false) <==> Shallow(t, bits) && TidyEverywhere(t)
  {
    AdmissibleAfter(t, bits, 1, false);
  }
}
