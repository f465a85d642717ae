/** Network endpoints: BIP155 address pairs and the text form of Tor and I2P hosts.
    SHA3-256 is a parameter. */
module Endpoint {
  import opened Bits
  import opened Base32

  datatype Endpoint =
    | Ip4(address: seq<byte>, port: nat)
    | Ip6(address: seq<byte>, port: nat)
    | Dns(host: string, port: nat)
    | OnionV2(address: seq<byte>, port: nat)
    | OnionV3(address: seq<byte>, port: nat)
    | I2p(address: seq<byte>, port: nat)
    | Cjdns(address: seq<byte>, port: nat)

  predicate WellFormed(e: Endpoint) {
    e.port <= 0xffff &&
    match e
    case Ip4(a, _) => |a| == 4
    case Ip6(a, _) => |a| == 16
    case Dns(_, _) => true
    case OnionV2(a, _) => |a| == 10
    case OnionV3(a, _) => |a| == 32
    case I2p(a, _) => |a| == 32
    case Cjdns(a, _) => |a| == 16
  }

  // ----- BIP155 -----

  /** Only I2P endpoints may have port zero. */
  function FromAddrV2(network: nat, address: seq<byte>, port: nat): Option<Endpoint> {
    if port == 0 && network != 5 then None
    else if network == 1 && |address| == 4 then Some(Ip4(address, port))
    else if network == 2 && |address| == 16 then Some(Ip6(address, port))
    else if network == 3 && |address| == 10 then Some(OnionV2(address, port))
    else if network == 4 && |address| == 32 then Some(OnionV3(address, port))
    else if network == 5 && |address| == 32 then Some(I2p(address, port))
    else if network == 6 && |address| == 16 && address[0] == 0xfc then Some(Cjdns(address, port))
    else None
  }

  function ToAddrV2(e: Endpoint): Option<(nat, seq<byte>)> {
    match e
    case Ip4(a, _) => Some((1, a))
    case Ip6(a, _) => Some((2, a))
    case Dns(_, _) => None
    case OnionV2(a, _) => Some((3, a))
    case OnionV3(a, _) => Some((4, a))
    case I2p(a, _) => Some((5, a))
    case Cjdns(a, _) => Some((6, a))
  }

  /** An endpoint survives its address pair exactly when it is no host name, has a
      port unless it is an I2P one, and has the CJDNS prefix if it is a CJDNS one. */
  lemma AddrV2RoundTrip(e: Endpoint)
    requires WellFormed(e)
    ensures var pair := ToAddrV2(e);
      (pair.Some? && FromAddrV2(pair.value.0, pair.value.1, e.port) == Some(e))
      <==> !e.Dns? && (e.port != 0 || e.I2p?) && (e.Cjdns? ==> e.address[0] == 0xfc)
  {
  }

  /** Every accepted pair is the pair of the endpoint it decodes to. */
  lemma AddrV2Inverse(network: nat, address: seq<byte>, port: nat)
    requires FromAddrV2(network, address, port).Some?
    ensures var e := FromAddrV2(network, address, port).value;
      ToAddrV2(e) == Some((network, address)) && e.port == port && !e.Dns?
  {
  }

  /** The network ids of BIP155, with the length of their addresses. */
  ghost predicate IsBip155(network: nat, e: Endpoint) {
    match e
    case Ip4(a, _) => network == 1 && |a| == 4
    case Ip6(a, _) => network == 2 && |a| == 16
    case Dns(_, _) => false
    case OnionV2(a, _) => network == 3 && |a| == 10
    case OnionV3(a, _) => network == 4 && |a| == 32
    case I2p(a, _) => network == 5 && |a| == 32
    case Cjdns(a, _) => network == 6 && |a| == 16
  }

  /** Pairs are read and written by that table; an accepted one has a port, unless it is an I2P
      one, and the CJDNS prefix, if it is a CJDNS one. */
  lemma FollowsBip155(network: nat, address: seq<byte>, port: nat, e: Endpoint)
    ensures FromAddrV2(network, address, port) == Some(e) <==>
      && IsBip155(network, e) && e.address == address && e.port == port
      && (port == 0 ==> e.I2p?) && (e.Cjdns? ==> address[0] == 0xfc)
    ensures WellFormed(e) ==>
      (ToAddrV2(e) == Some((network, address)) <==> IsBip155(network, e) && e.address == address)
  {
  }

  // ----- Host names of Tor and I2P -----

  /** SHA3-256. */
  type Sha3 = f: seq<byte> -> seq<byte> | forall data :: |f(data)| == 32 witness (data: seq<byte>) => seq(32, _ => 0)

  /** The bytes of `.onion checksum`. */
  const CHECKSUM_PREFIX: seq<byte> :=
    [0x2e, 0x6f, 0x6e, 0x69, 0x6f, 0x6e, 0x20, 0x63, 0x68, 0x65, 0x63, 0x6b, 0x73, 0x75, 0x6d]

  lemma ChecksumPrefixIs()
    ensures |CHECKSUM_PREFIX| == |".onion checksum"|
    ensures forall i :: 0 <= i < |CHECKSUM_PREFIX| ==> CHECKSUM_PREFIX[i] == ".onion checksum"[i] as int
  {
  }

  /** The two checksum bytes of a Tor v3 public key. */
  function TorChecksum(key: seq<byte>, sha3: Sha3): (c: seq<byte>)
    ensures |c| == 2
  {
    var digest := sha3(CHECKSUM_PREFIX + key + [3]);
    [digest[0], digest[1]]
  }

  function StripSuffix(s: string, suffix: string): string {
    if |suffix| <= |s| && s[|s| - |suffix|..] == suffix then s[..|s| - |suffix|] else s
  }

  predicate IsNamed(e: Endpoint) { e.OnionV2? || e.OnionV3? || e.I2p? }

  function NetworkName(e: Endpoint): string
    requires IsNamed(e)
  {
    if e.I2p? then "i2p" else "onion"
  }

  ghost function TorV3Address(key: seq<byte>, sha3: Sha3): string {
    Encoded(key + TorChecksum(key, sha3) + [3])
  }

  ghost function HostString(e: Endpoint, sha3: Sha3): string
    requires IsNamed(e)
  {
    match e
    case OnionV2(a, _) => Encoded(a) + ".onion"
    case OnionV3(a, _) => TorV3Address(a, sha3) + ".onion"
    case I2p(a, _) => Encoded(a) + ".b32.i2p"
  }

  ghost function ParseOnion(address: string, port: nat, sha3: Sha3): Option<Endpoint> {
    var decoded := Decoded(StripSuffix(address, ".onion"));
    if decoded.None? then None
    else if |decoded.value| == 10 then Some(OnionV2(decoded.value, port))
    else if |decoded.value| == 35 then
      var key := decoded.value[..32];
      if decoded.value[32..34] != TorChecksum(key, sha3) || decoded.value[34] != 3 then None
      else Some(OnionV3(key, port))
    else None
  }

  /** Parsing an address-manager entry of the two named networks. */
  ghost function Parse(network: string, address: string, port: Option<nat>, sha3: Sha3): Option<Endpoint>
    requires network == "onion" || network == "i2p"
  {
    if port.None? then None
    else if port.value == 0 && network != "i2p" then None
    else if network == "onion" then ParseOnion(address, port.value, sha3)
    else
      var decoded := Decoded(StripSuffix(address, ".b32.i2p"));
      if decoded.Some? && |decoded.value| == 32 then Some(I2p(decoded.value, port.value)) else None
  }

  /** Host strings are a base32 label before the network's suffix: of the address, and for Tor v3
      of the key, the first two bytes of the hash of a fixed text, key and version, and the version. */
  lemma HostForm(e: Endpoint, sha3: Sha3)
    requires WellFormed(e) && IsNamed(e)
    ensures exists name :: IsHost(HostString(e, sha3), e, name, sha3)
  {
    hide Decoded, Encoded;
    var a := e.address;
    var whole := if e.OnionV3? then a + TorChecksum(a, sha3) + [3] else a;
    DecodeEncoded(whole);
    EncodedIsLower(whole);
    assert sha3(CHECKSUM_PREFIX + a + [3])[..2] == TorChecksum(a, sha3);
    assert IsHost(HostString(e, sha3), e, Encoded(whole), sha3);
  }

  ghost predicate IsHost(host: string, e: Endpoint, name: string, sha3: Sha3)
    requires WellFormed(e) && IsNamed(e)
  {
    && host == name + (if e.I2p? then ".b32.i2p" else ".onion") && Lower(name) == name
    && Decoded(name) == Some(
         if e.OnionV3? then e.address + sha3(CHECKSUM_PREFIX + e.address + [3])[..2] + [3] else e.address)
  }

  lemma EncodedIsLower(b: seq<byte>)
    ensures Lower(Encoded(b)) == Encoded(b)
  {
  }

  lemma StripAdded(s: string, suffix: string)
    ensures StripSuffix(s + suffix, suffix) == s
  {
    var whole := s + suffix;
    assert whole[|whole| - |suffix|..] == suffix && whole[..|whole| - |suffix|] == s;
  }

  /** Every Tor and I2P endpoint with a valid port survives its text form. */
  lemma HostRoundTrip(e: Endpoint, sha3: Sha3)
    requires WellFormed(e) && IsNamed(e)
    ensures Parse(NetworkName(e), HostString(e, sha3), Some(e.port), sha3) == Some(e)
      <==> e.port != 0 || e.I2p?
  {
    hide Decoded, Encoded, StripSuffix;
    match e
    case OnionV2(a, _) =>
      StripAdded(Encoded(a), ".onion");
      DecodeEncoded(a);
    case OnionV3(a, _) =>
      var whole := a + TorChecksum(a, sha3) + [3];
      StripAdded(Encoded(whole), ".onion");
      DecodeEncoded(whole);
      assert whole[..32] == a && whole[32..34] == TorChecksum(a, sha3) && whole[34] == 3;
    case I2p(a, _) =>
      StripAdded(Encoded(a), ".b32.i2p");
      DecodeEncoded(a);
  }

  function SuffixOf(network: string): string { if network == "onion" then ".onion" else ".b32.i2p" }

  /** Every accepted entry, with or without its suffix and in any letter case, is
      the host string of the endpoint it parses to. */
  lemma ParsedIsHost(network: string, address: string, port: nat, sha3: Sha3)
    requires network == "onion" || network == "i2p"
    requires Parse(network, address, Some(port), sha3).Some?
    ensures var e := Parse(network, address, Some(port), sha3).value;
      && WellFormedAddress(e) && IsNamed(e) && NetworkName(e) == network && e.port == port
      && HostString(e, sha3) == Lower(StripSuffix(address, SuffixOf(network))) + SuffixOf(network)
  {
    hide Decoded, Encoded, StripSuffix, Accepted;
    var name := StripSuffix(address, SuffixOf(network));
    EncodeDecoded(name);
    var bytes := Decoded(name).value;
    if |bytes| == 35 && network == "onion" {
      assert bytes == bytes[..32] + bytes[32..34] + [bytes[34]];
    }
  }

  /** Parsing is exact: an entry gives an endpoint exactly when the endpoint is of that network, has a
      port or is an I2P one, and has the entry, without suffix and in lower case, as its host. */
  lemma ParseIff(network: string, address: string, port: nat, e: Endpoint, sha3: Sha3)
    requires (network == "onion" || network == "i2p") && port <= 0xffff
    ensures Parse(network, address, Some(port), sha3) == Some(e) <==>
      && WellFormed(e) && IsNamed(e) && NetworkName(e) == network && e.port == port && (port != 0 || e.I2p?)
      && HostString(e, sha3) == Lower(StripSuffix(address, SuffixOf(network))) + SuffixOf(network)
  {
    hide Decoded, Encoded, StripSuffix, HostString;
    if Parse(network, address, Some(port), sha3) == Some(e) {
      ParsedIsHost(network, address, port, sha3);
    }
    var name := StripSuffix(address, SuffixOf(network));
    if WellFormed(e) && IsNamed(e) && NetworkName(e) == network && e.port == port && (port != 0 || e.I2p?)
       && HostString(e, sha3) == Lower(name) + SuffixOf(network) {
      HostRoundTrip(e, sha3);
      StripAdded(Lower(name), SuffixOf(network));
      DecodedLower(name);
    }
  }

  predicate WellFormedAddress(e: Endpoint) {
    (e.OnionV2? ==> |e.address| == 10) && (e.OnionV3? || e.I2p? ==> |e.address| == 32)
  }
}
