/** Three small programs, byte by byte: what they lay out and what they answer. */
module AsMapExamples {
  import opened Bits
  import opened PrefixCode
  import opened AsMapTrie
  import opened AsMapTable

  function Falses(n: nat): (s: seq<bool>)
    ensures |s| == n
  {
    seq(n, _ => false)
  }

  lemma {:induction false} ZeroBits(n: nat)
    ensures BitsOf(0, n) == Falses(n)
  {
    if n > 0 {
      ZeroBits(n - 1);
    }
  }

  lemma TypeCodes()
    ensures TypeCode(0) == [false] && TypeCode(1) == [true, false]
    ensures TypeCode(2) == [true, true, false] && TypeCode(3) == [true, true, true]
  {
    assert TYPE_SIZES[1..] == [0, 1] && [0, 1][1..] == [1];
    assert Pow2(0) == 1 && Pow2(1) == 2;
    assert BitsOf(0, 0) == [] && BitsOf(1, 1) == [true] && BitsOf(0, 1) == [false];
  }

  lemma AsnCodes()
    ensures AsnCode(1) == Falses(16) && AsnCode(2) == Falses(15) + [true]
  {
    hide BitsOf;
    ZeroBits(15);
    OneBits(15);
    assert Pow2(15) == 32768;
  }

  lemma OneBits(n: nat)
    requires n > 0
    ensures BitsOf(1, n) == Falses(n - 1) + [true]
  {
    ZeroBits(n - 1);
  }

  lemma JumpCodeShort()
    ensures JumpCode(17) == Falses(6)
  {
    hide BitsOf;
    ZeroBits(5);
    assert Pow2(5) == 32;
  }

  lemma Codes()
    ensures TypeCode(0) == [false] && TypeCode(1) == [true, false]
    ensures TypeCode(2) == [true, true, false] && TypeCode(3) == [true, true, true]
    ensures AsnCode(1) == Falses(16) && AsnCode(2) == Falses(15) + [true]
    ensures JumpCode(17) == Falses(6)
  {
    hide TypeCode, AsnCode, JumpCode;
    TypeCodes();
    AsnCodes();
    JumpCodeShort();
  }

  /** One instruction that returns ASN 1, and seven bits of padding. */
  const RETURN_ONE: seq<byte> := [0, 0, 0]

  /** A jump to ASN 2 on a one bit, over the return of ASN 1. */
  const BRANCH: seq<byte> := [1, 0, 0, 0, 0, 2]

  /** Default ASN 1, a match of a one bit, and the return of ASN 2. */
  const MATCH_ONE: seq<byte> := [7, 0, 0x98, 0, 0, 1]

  lemma ReturnOneIsMap()
    ensures IsMap(StreamBits(RETURN_ONE), 128, Return(1))
  {
    Codes();
    var s := StreamBits(RETURN_ONE);
    assert s == Falses(24) by { SmallBytes(); }
    assert s[0..17] == Falses(17);
  }

  lemma SmallBytes()
    ensures forall n: nat | n < 8 :: !TestBit(0, n)
    ensures forall n: nat | n < 8 :: TestBit(1, n) <==> n == 0
    ensures forall n: nat | n < 8 :: TestBit(2, n) <==> n == 1
    ensures forall n: nat | n < 8 :: TestBit(7, n) <==> n < 3
    ensures forall n: nat | n < 8 :: TestBit(0x98, n) <==> n == 3 || n == 4 || n == 7
  {
    assert Pow2(0) == 1 && Pow2(1) == 2 && Pow2(2) == 4 && Pow2(3) == 8;
    assert Pow2(4) == 16 && Pow2(5) == 32 && Pow2(6) == 64 && Pow2(7) == 128;
  }

  lemma BranchIsMap()
    ensures IsMap(StreamBits(BRANCH), 128, Jump(Return(1), Return(2)))
  {
    Codes();
    var t := Jump(Return(1), Return(2));
    assert |Layout(Return(1))| == 17;
    var s := StreamBits(BRANCH);
    var w := Layout(t);
    assert w == [true] + Falses(40) + [true];
    SmallBytes();
    assert forall i :: 0 <= i < 48 ==> (s[i] <==> i == 0 || i == 41);
    assert s[0..42] == w;
  }

  lemma MatchOneIsMap()
    ensures IsMap(StreamBits(MATCH_ONE), 128, Default(1, Match([true], Return(2))))
  {
    Codes();
    MatchCodeOne();
    var t := Default(1, Match([true], Return(2)));
    var s := StreamBits(MATCH_ONE);
    var w := Layout(t);
    assert w == [true, true, true] + Falses(16) + [true, true, false, false, true] + Falses(16) + [true];
    SmallBytes();
    assert forall i :: 0 <= i < 48 ==> (s[i] <==> i < 3 || i == 19 || i == 20 || i == 23 || i == 40);
    assert s[0..41] == w;
  }

  lemma MatchCodeOne()
    ensures MatchCode([true]) == [false, true]
  {
    assert ValueOf([true]) == 1;
    assert Pow2(1) == 2;
    assert BitsOf(1, 1) == [true];
  }

  /** Both longer programs answer ASN 2 for addresses that start with a one bit, and ASN 1 for the others. */
  lemma FirstBitDecides(address: seq<bool>)
    requires |address| == 128
    ensures LongestMatch(Jump(Return(1), Return(2)), address, 0, if address[0] then 2 else 1)
    ensures LongestMatch(Default(1, Match([true], Return(2))), address, 0, if address[0] then 2 else 1)
    ensures LongestMatch(Return(1), address, 0, 1)
  {
    Codes();
    assert address[0..] == address && address[0..1] == [address[0]];
    assert |Layout(Return(1))| == 17;
    LookupIsLongest(Return(1), address, 0, 0);
    LookupIsLongest(Jump(Return(1), Return(2)), address, 0, 0);
    var inner := Match([true], Return(2));
    assert Lookup(inner, address, 0, 1) == if address[0] then 2 else 1;
    LookupIsLongest(Default(1, inner), address, 0, 0);
  }
}
