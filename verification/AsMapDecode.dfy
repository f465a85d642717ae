/** Reading the four kinds of numbers of an ASMap program. */
module AsMapDecode {
  import opened Bits
  import opened PrefixCode
  import opened AsMapTrie
  import opened AsMapLayout

  // ----- The four decoders -----

  method DecodeType(data: seq<byte>, position: nat) returns (r: Option<nat>, next: nat)
    requires position <= |StreamBits(data)|
    ensures r.Some? ==> r.value < 4 && At(StreamBits(data), position, TypeCode(r.value))
    ensures r.Some? ==> next == position + |TypeCode(r.value)| <= |StreamBits(data)|
    ensures r.None? ==> forall op: nat | op < 4 :: !At(StreamBits(data), position, TypeCode(op))
  {
    hide StreamBits, Total, Encode;
    TypeTotal();
    r, next := DecodeBits(data, position, 0, TYPE_SIZES);
    if r.None? {
      forall op: nat | op < 4 ensures !At(StreamBits(data), position, TypeCode(op)) {
        assert !Reads(StreamBits(data), position, 0, TYPE_SIZES, Read(op, position + |TypeCode(op)|));
      }
    }
  }

  method DecodeAsn(data: seq<byte>, position: nat) returns (r: Option<nat>, next: nat)
    requires position <= |StreamBits(data)|
    ensures r.Some? ==> 1 <= r.value < ASN_LIMIT && At(StreamBits(data), position, AsnCode(r.value))
    ensures r.Some? ==> next == position + |AsnCode(r.value)| <= |StreamBits(data)|
    ensures r.None? ==> forall asn: nat | 1 <= asn < ASN_LIMIT :: !At(StreamBits(data), position, AsnCode(asn))
  {
    hide StreamBits, Total, Encode;
    AsnTotal();
    r, next := DecodeBits(data, position, 1, ASN_SIZES);
    if r.None? {
      forall asn: nat | 1 <= asn < ASN_LIMIT ensures !At(StreamBits(data), position, AsnCode(asn)) {
        assert !Reads(StreamBits(data), position, 1, ASN_SIZES, Read(asn, position + |AsnCode(asn)|));
      }
    }
  }

  method DecodeJump(data: seq<byte>, position: nat) returns (r: Option<nat>, next: nat)
    requires position <= |StreamBits(data)|
    ensures r.Some? ==> 17 <= r.value < JUMP_LIMIT && At(StreamBits(data), position, JumpCode(r.value))
    ensures r.Some? ==> next == position + |JumpCode(r.value)| <= |StreamBits(data)|
    ensures r.None? ==> forall d: nat | 17 <= d < JUMP_LIMIT :: !At(StreamBits(data), position, JumpCode(d))
  {
    hide StreamBits, Total, Encode;
    JumpTotal();
    r, next := DecodeBits(data, position, 17, JUMP_SIZES);
    if r.None? {
      forall d: nat | 17 <= d < JUMP_LIMIT ensures !At(StreamBits(data), position, JumpCode(d)) {
        assert !Reads(StreamBits(data), position, 17, JUMP_SIZES, Read(d, position + |JumpCode(d)|));
      }
    }
  }

  method DecodeMatch(data: seq<byte>, position: nat) returns (r: Option<nat>, next: nat)
    requires position <= |StreamBits(data)|
    ensures r.Some? ==> 2 <= r.value < MATCH_LIMIT && 1 <= |PatternOf(r.value)| <= 8
    ensures r.Some? ==> At(StreamBits(data), position, MatchCode(PatternOf(r.value)))
    ensures r.Some? ==> next == position + |MatchCode(PatternOf(r.value))| <= |StreamBits(data)|
    ensures r.None? ==>
      forall p: seq<bool> | 1 <= |p| <= 8 :: !At(StreamBits(data), position, MatchCode(p))
  {
    hide StreamBits, Total, Encode;
    MatchTotal();
    r, next := DecodeBits(data, position, 2, MATCH_SIZES);
    if r.Some? {
      ValueOfPattern(r.value);
    } else {
      forall p: seq<bool> | 1 <= |p| <= 8 ensures !At(StreamBits(data), position, MatchCode(p)) {
        PatternRange(p);
        assert !Reads(StreamBits(data), position, 2, MATCH_SIZES,
                      Read(PatternValue(p), position + |MatchCode(p)|));
      }
    }
  }
}
