/** Running an ASMap program, and the map built from an accepted file. */
module AsMapInterpreter {
  import opened Bits
  import opened PrefixCode
  import opened AsMapTrie
  import opened AsMapTable
  import opened AsMapLayout
  import opened AsMapDecode
  import opened AsMapChecker

  /** The program starts with the layout of a trie that 128 address bits suffice for. */
  ghost predicate Runs(s: seq<bool>, t: Trie) {
    LaidOut(s, 0, t) && Shallow(t, 128)
  }

  /** From this machine state the answer is still the one `t` gives from the start. */
  ghost predicate OnCourse(s: seq<bool>, address: seq<bool>, t: Trie, cur: Trie, pos: nat, k: nat, default: nat)
    requires |address| == 128 && Shallow(t, 128)
  {
    LaidOut(s, pos, cur) && k <= 128 && Shallow(cur, 128 - k)
    && Lookup(cur, address, k, default) == Lookup(t, address, 0, 0)
  }

  /** The opcode at `pos` is that of the current trie, whose first instruction stands there. */
  lemma CurrentOpcode(s: seq<bool>, pos: nat, cur: Trie, op: nat)
    requires LaidOut(s, pos, cur) && op < 4 && At(s, pos, TypeCode(op))
    ensures Opcode(cur) == op && HeadAndRest(s, pos, cur) && AfterHead(pos, cur) <= EndOf(pos, cur) <= |s|
  {
    hide TypeCode, AsnCode, MatchCode, JumpCode, At, Layout;
    Unfold(s, pos, cur);
    TypeUnique(s, pos, op, Opcode(cur));
    assert EndOf(pos, cur) <= |s| by { EndInside(s, pos, cur); }
  }

  lemma EndInside(s: seq<bool>, pos: nat, cur: Trie)
    requires LaidOut(s, pos, cur)
    ensures pos < EndOf(pos, cur) <= |s| && At(s, pos, TypeCode(Opcode(cur)))
  {
    Unfold(s, pos, cur);
  }

  lemma JumpInside(s: seq<bool>, pos: nat, cur: Trie)
    requires LaidOut(s, pos, cur) && cur.Jump?
    ensures AfterHead(pos, cur) + |Layout(cur.zero)| < |s|
  {
    hide TypeCode, JumpCode, Layout;
    Unfold(s, pos, cur);
    EndInside(s, AfterHead(pos, cur) + |Layout(cur.zero)|, cur.one);
  }

  /** The comparison of a pattern's number with the address, bit by bit. */
  method MatchAddress(value: nat, address: seq<byte>, start: nat) returns (same: bool, addressBit: nat)
    requires |address| == 16 && 2 <= value < MATCH_LIMIT && start + |PatternOf(value)| <= 128
    ensures same <==> AddressBits(address)[start..start + |PatternOf(value)|] == PatternOf(value)
    ensures same ==> addressBit == start + |PatternOf(value)|
  {
    hide AddressBits, BitsOf, TestBit;
    ghost var a, p := AddressBits(address), PatternOf(value);
    var matchLength := Log2(value);
    addressBit := start;
    var bit := 0;
    while bit < matchLength
      invariant bit <= matchLength && addressBit == start + bit
      invariant forall i :: 0 <= i < bit ==> a[start + i] == p[i]
    {
      var expected := TestBit(value, matchLength - 1 - bit);
      BitsOfAt(value, matchLength, bit);
      var actual;
      actual, addressBit := ReadBitBe(address, addressBit);
      if actual.None? || actual.value != expected {
        assert a[start..start + |p|][bit] != p[bit];
        return false, addressBit;
      }
      bit := bit + 1;
    }
    return true, addressBit;
  }

  /** Whatever trie the program lays out, running it looks the address up in that
      trie, which is to find the longest prefix of the address in its table. */
  method Interpret(data: seq<byte>, address: seq<byte>) returns (r: Option<nat>)
    requires |address| == 16
    ensures forall t :: Runs(StreamBits(data), t) ==> r == Some(Lookup(t, AddressBits(address), 0, 0))
    ensures forall t :: Runs(StreamBits(data), t) ==> r.Some? && LongestMatch(t, AddressBits(address), 0, r.value)
    ensures r.Some? ==> r.value < ASN_LIMIT
  {
    hide StreamBits, AddressBits, At, TypeCode, AsnCode, MatchCode, JumpCode, Layout, PatternOf, Log2, Pow2,
         LongestMatch;
    ghost var s, a := StreamBits(data), AddressBits(address);
    ghost var runs := exists t :: Runs(s, t);
    ghost var t := if runs then var t :| Runs(s, t); t else Return(1);
    ghost var cur := t;
    forall u | Runs(s, u) ensures u == t { TrieUnique(s, 0, u, t); }
    if runs { LookupIsLongest(t, a, 0, 0); }
    assert a[0..] == a;
    var end := 8 * |data|;
    var position := 0;
    var addressBit: nat := 0;
    var defaultAsn: nat := 0;
    while position < end
      invariant position <= |s| && defaultAsn < ASN_LIMIT
      invariant runs ==> OnCourse(s, a, t, cur, position, addressBit, defaultAsn)
      decreases |s| - position
    {
      ghost var start := position;
      if runs { EndInside(s, start, cur); }
      var opcode;
      opcode, position := DecodeType(data, position);
      if opcode.None? {
        return None;
      }
      TypeCodeNonEmpty(opcode.value);
      if runs { CurrentOpcode(s, start, cur, opcode.value); }
      match opcode.value
      case 0 =>
        r, position := DecodeAsn(data, position);
        if runs && r.Some? { AsnUnique(s, start + |TypeCode(0)|, cur.asn, r.value); }
        return;
      case 1 =>
        var jump;
        jump, position := DecodeJump(data, position);
        if jump.None? {
          return None;
        }
        if runs {
          JumpUnique(s, start + |TypeCode(1)|, |Layout(cur.zero)|, jump.value);
          JumpInside(s, start, cur);
        }
        if addressBit == 128 || jump.value >= end - position {
          return None;
        }
        var bit;
        bit, addressBit := ReadBitBe(address, addressBit);
        if bit.None? {
          return None;
        }
        if bit.value {
          position := position + jump.value;
          if runs { cur := cur.one; }
        } else {
          if runs { cur := cur.zero; }
        }
      case 2 =>
        var value;
        value, position := DecodeMatch(data, position);
        if value.None? {
          return None;
        }
        PatternLength(value.value);
        if runs { MatchUnique(s, start + |TypeCode(2)|, cur.pattern, PatternOf(value.value)); }
        var matchLength := Log2(value.value);
        if matchLength > 128 - addressBit {
          return None;
        }
        var same;
        same, addressBit := MatchAddress(value.value, address, addressBit);
        if !same {
          return Some(defaultAsn);
        }
        if runs { cur := cur.next; }
      case _ =>
        var asn;
        asn, position := DecodeAsn(data, position);
        if asn.None? {
          return None;
        }
        if runs {
          AsnUnique(s, start + |TypeCode(3)|, cur.asn, asn.value);
          cur := cur.next;
        }
        defaultAsn := asn.value;
    }
    if runs { EndInside(s, position, cur); }
    return None;
  }

  // ----- Accepted programs -----

  /** Soundness of the check: an accepted program runs on every address. */
  lemma SaneRuns(s: seq<bool>, t: Trie)
    requires IsMap(s, 128, t)
    ensures Runs(s, t)
  {
    AdmissibleIsShallow(t, 128, 1, false);
  }

  /** An accepted program is the layout of exactly one trie. */
  lemma SaneUnique(s: seq<bool>, bits: nat, t: Trie, u: Trie)
    requires IsMap(s, bits, t) && IsMap(s, bits, u)
    ensures t == u
  {
    TrieUnique(s, 0, t, u);
  }

  lemma {:induction false} LayoutOverPrefix(s: seq<bool>, s': seq<bool>, t: Trie)
    requires s <= s' && LaidOut(s, 0, t)
    ensures LaidOut(s', 0, t)
  {
    hide Layout;
    assert s'[0..|Layout(t)|] == s[0..|Layout(t)|];
  }

  lemma StreamBitsPrefix(data: seq<byte>, data': seq<byte>)
    requires data <= data'
    ensures StreamBits(data) <= StreamBits(data')
  {
    var s, s' := StreamBits(data), StreamBits(data');
    forall i | 0 <= i < |s| ensures s[i] == s'[i] {
      assert data[i / 8] == data'[i / 8];
    }
  }

  /** No accepted program is a proper prefix of another. */
  lemma AcceptedPrefixFree(data: seq<byte>, data': seq<byte>, bits: nat)
    requires data <= data' && Sane(StreamBits(data), bits) && Sane(StreamBits(data'), bits)
    ensures data == data'
  {
    hide StreamBits, Layout;
    var s, s' := StreamBits(data), StreamBits(data');
    var t :| IsMap(s, bits, t);
    var t' :| IsMap(s', bits, t');
    StreamBitsPrefix(data, data');
    LayoutOverPrefix(s, s', t);
    TrieUnique(s', 0, t, t');
  }

  /** A lookup answers with an ASN of the trie, or with the default it was given. */
  lemma {:induction false} LookupRange(t: Trie, address: seq<bool>, k: nat, default: nat)
    requires Encodable(t) && k <= |address| && Shallow(t, |address| - k)
    ensures var asn := Lookup(t, address, k, default); asn == default || 1 <= asn < ASN_LIMIT
  {
    hide Layout;
    match t
    case Return(_) =>
    case Jump(zero, one) =>
      LookupRange(zero, address, k + 1, default);
      LookupRange(one, address, k + 1, default);
    case Match(pattern, next) =>
      if address[k..k + |pattern|] == pattern {
        LookupRange(next, address, k + |pattern|, default);
      }
    case Default(asn, next) =>
      LookupRange(next, address, k, asn);
  }

  // ----- The map -----

  datatype IpAddress = V4(octets4: seq<byte>) | V6(octets6: seq<byte>)

  predicate WellFormed(ip: IpAddress) {
    match ip
    case V4(octets) => |octets| == 4
    case V6(octets) => |octets| == 16
  }

  /** The sixteen bytes an address is looked up by; IPv4 is embedded in IPv6. */
  function AddressBytes(ip: IpAddress): (b: seq<byte>)
    requires WellFormed(ip)
    ensures |b| == 16
    ensures ip.V4? ==> b[12..] == ip.octets4 && forall i :: 0 <= i < 12 ==> b[i] == if i < 10 then 0 else 0xff
    ensures ip.V6? ==> b == ip.octets6
  {
    match ip
    case V4(octets) => [0, 0, 0, 0, 0, 0, 0, 0, 0, 0, 0xff, 0xff] + octets
    case V6(octets) => octets
  }

  datatype AsMap = AsMap(data: seq<byte>)

  /** The trie a loaded map stands for. */
  ghost predicate Represents(m: AsMap, t: Trie) {
    IsMap(StreamBits(m.data), 128, t)
  }

  /** Loading succeeds exactly for the layouts of admissible tries. */
  method FromBytes(data: seq<byte>) returns (r: Option<AsMap>)
    ensures r.Some? <==> Sane(StreamBits(data), 128)
    ensures r.Some? ==> r.value.data == data && exists t :: Represents(r.value, t)
  {
    hide StreamBits, IsMap;
    if data == [] {
      EmptyIsNotSane(data);
      return None;
    }
    var sane := SanityCheck(data, 128);
    if !sane {
      return None;
    }
    r := Some(AsMap(data));
    ghost var t :| IsMap(StreamBits(data), 128, t);
    assert Represents(r.value, t);
  }

  lemma EmptyIsNotSane(data: seq<byte>)
    requires data == []
    ensures !Sane(StreamBits(data), 128)
  {
    if t :| IsMap(StreamBits(data), 128, t) {
      Unfold(StreamBits(data), 0, t);
    }
  }

  /** The answer is the one for the longest prefix of the address, zero meaning unmapped. */
  ghost predicate Answers(t: Trie, ip: IpAddress, r: Option<nat>)
    requires WellFormed(ip)
  {
    Shallow(t, 128)
    && LongestMatch(t, AddressBits(AddressBytes(ip)), 0, if r.Some? then r.value else 0)
    && var asn := Lookup(t, AddressBits(AddressBytes(ip)), 0, 0); r == if asn == 0 then None else Some(asn)
  }

  /** On a loaded map every address gets its trie's answer, zero meaning unmapped. */
  method MappedAsIp(m: AsMap, ip: IpAddress) returns (r: Option<nat>)
    requires WellFormed(ip) && exists t :: Represents(m, t)
    ensures forall t | Represents(m, t) :: Answers(t, ip, r)
    ensures r.Some? ==> 1 <= r.value < ASN_LIMIT
  {
    hide StreamBits, AddressBits, Layout, IsMap, LongestMatch;
    forall t | Represents(m, t) ensures Runs(StreamBits(m.data), t) { SaneRuns(StreamBits(m.data), t); }
    r := Interpret(m.data, AddressBytes(ip));
    ghost var t :| Represents(m, t);
    LookupRange(t, AddressBits(AddressBytes(ip)), 0, 0);
    if r == Some(0) {
      r := None;
    }
  }
}
