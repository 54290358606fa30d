// Probing directives as the agent receives them, their validation, and the
// 5-tuple a probe of a directive is identified by.
module Directives {
  import opened Wrappers
  import opened GoNumbers

  /** A net.IP of a valid length; a directive's destination is checked to be one before it reaches the agent. */
  type IP = a: seq<uint8> | |a| == 4 || |a| == 16 witness [0, 0, 0, 0]

  /** The IPv4-mapped prefix of section 2.5.5.2 of RFC 4291. */
  const MAPPED_PREFIX: seq<uint8> := [0, 0, 0, 0, 0, 0, 0, 0, 0, 0, 255, 255]

  predicate IsIPv4(ip: IP) {
    |ip| == 4 || ip[..12] == MAPPED_PREFIX
  }

  /** The form net.IP.String prints: IPv4 whenever the address has one. */
  function Canonical(ip: IP): (c: IP)
    ensures |c| == 4 <==> IsIPv4(ip)
    ensures |c| == 16 ==> c[..12] != MAPPED_PREFIX
    ensures |ip| == 4 ==> c == ip
    ensures |ip| == 16 ==> c == ip || ip == MAPPED_PREFIX + c
  {
    if |ip| == 16 && ip[..12] == MAPPED_PREFIX then ip[12..] else ip
  }

  /** The 16-byte IPv4-mapped form in which caracal reports an IPv4 address. */
  function Mapped(ip: IP): (m: IP)
    ensures |m| == 16
    ensures Canonical(m) == Canonical(ip)
  {
    if |ip| == 4 then
      var m := MAPPED_PREFIX + ip;
      assert m[..12] == MAPPED_PREFIX && m[12..] == ip;
      m
    else ip
  }

  /** wire.Protocol, an open enumeration. */
  datatype Protocol = Unspecified | Icmp | Icmpv6 | Udp | Other(number: int)

  datatype NextHeader =
    | NoHeader
    | IcmpHeader(firstHalfWord: uint32, secondHalfWord: uint32)
    | Icmpv6Header(firstHalfWord6: uint32, secondHalfWord6: uint32)
    | UdpHeader(sourcePort: uint32, destinationPort: uint32)

  datatype Directive = Directive(
    id: nat, agentID: string, destination: IP, protocol: Protocol, nextHeader: NextHeader, nearTTL: uint8)

  datatype DirectiveError =
    | EmptyAgentID | ZeroTTL | OverflowingTTL | ProtocolNotSet | MissingNextHeader | UnsupportedProtocol

  /** validatePD, apart from its nil check: a received directive is never nil. */
  function ValidatePD(pd: Directive): (r: Result<Directive, DirectiveError>)
    ensures r.Ok? ==> r.value == pd && 1 <= pd.nearTTL <= 254
  {
    if pd.agentID == "" then Err(EmptyAgentID)
    else if pd.nearTTL == 0 then Err(ZeroTTL)
    else if pd.nearTTL == 255 then Err(OverflowingTTL)
    else match pd.protocol
      case Unspecified => Err(ProtocolNotSet)
      case Icmp => if pd.nextHeader.IcmpHeader? then Ok(pd) else Err(MissingNextHeader)
      case Icmpv6 => if pd.nextHeader.Icmpv6Header? then Ok(pd) else Err(MissingNextHeader)
      case Udp => if pd.nextHeader.UdpHeader? then Ok(pd) else Err(MissingNextHeader)
      case Other(_) => Err(UnsupportedProtocol)
  }

  predicate Valid(pd: Directive) {
    ValidatePD(pd).Ok?
  }

  /** Go's uint32 to uint16 conversion keeps the low 16 bits. */
  function LowHalf(x: uint32): (r: uint16)
    ensures (x - r) % TWO_TO_16 == 0
    ensures x < TWO_TO_16 ==> r == x
  {
    x % TWO_TO_16
  }

  function ExtractHalfWords(pd: Directive): (uint16, uint16) {
    match (pd.protocol, pd.nextHeader)
    case (Icmp, IcmpHeader(first, second)) => (LowHalf(first), LowHalf(second))
    case (Icmpv6, Icmpv6Header(first, second)) => (LowHalf(first), LowHalf(second))
    case (Udp, UdpHeader(source, destination)) => (LowHalf(source), LowHalf(destination))
    case _ => (0, 0)
  }

  /** The result of normalizeIPAddress: an address in its canonical form, or text that is no address, as it is. */
  datatype HostText = Address(ip: IP) | Unparsed(text: string)

  /** The part of a probe key that does not depend on time. */
  datatype FiveTuple = FiveTuple(
    dstAddr: HostText, firstHalfWord: uint16, secondHalfWord: uint16, ttl: uint8, protocol: Protocol)

  function TupleOf(pd: Directive, ttl: uint8): FiveTuple {
    var (first, second) := ExtractHalfWords(pd);
    FiveTuple(Address(Canonical(pd.destination)), first, second, ttl, pd.protocol)
  }

  datatype ProbeKey = ProbeKey(tuple: FiveTuple, correlationSecond: int)

  function BuildProbeKeyFromDirective(pd: Directive, ttl: uint8, second: int): ProbeKey {
    ProbeKey(TupleOf(pd, ttl), second)
  }

  /** farTTL := pd.NearTTL + 1 in uint8 arithmetic. */
  function FarTTL(pd: Directive): (ttl: uint8)
    ensures Valid(pd) ==> ttl == pd.nearTTL + 1
  {
    (pd.nearTTL + 1) % 256
  }

  /** Validation accepts exactly the directives whose header matches their protocol and whose far TTL does not wrap. */
  lemma ValidatedDirectives(pd: Directive)
    ensures Valid(pd) <==>
      && pd.agentID != ""
      && 0 < pd.nearTTL < FarTTL(pd)
      && match pd.protocol
         case Icmp => pd.nextHeader.IcmpHeader?
         case Icmpv6 => pd.nextHeader.Icmpv6Header?
         case Udp => pd.nextHeader.UdpHeader?
         case _ => false
  {
    assert pd.nearTTL < 255 ==> FarTTL(pd) == pd.nearTTL + 1;
  }

  /** The first check that fails decides the error. */
  lemma ValidationErrors(pd: Directive)
    ensures ValidatePD(pd) == Err(EmptyAgentID) <==> pd.agentID == ""
    ensures ValidatePD(pd) == Err(ZeroTTL) <==> pd.agentID != "" && pd.nearTTL == 0
    ensures ValidatePD(pd) == Err(OverflowingTTL) <==> pd.agentID != "" && pd.nearTTL == 255
    ensures ValidatePD(pd) == Err(ProtocolNotSet) <==>
      pd.agentID != "" && 0 < pd.nearTTL < 255 && pd.protocol.Unspecified?
    ensures ValidatePD(pd) == Err(UnsupportedProtocol) <==>
      pd.agentID != "" && 0 < pd.nearTTL < 255 && pd.protocol.Other?
  {
  }

  /** The IPv4-mapped form of 192.0.2.1 is taken for that address. */
  lemma MappedExample()
    ensures Canonical([0, 0, 0, 0, 0, 0, 0, 0, 0, 0, 255, 255, 192, 0, 2, 1]) == [192, 0, 2, 1]
  {
    var ip: IP := [0, 0, 0, 0, 0, 0, 0, 0, 0, 0, 255, 255, 192, 0, 2, 1];
    assert ip[..12] == MAPPED_PREFIX && ip[12..] == [192, 0, 2, 1];
  }

  /** The near and the far probe of a directive have different keys, whatever seconds they are queued in. */
  lemma SiblingKeysDiffer(pd: Directive, nearSecond: int, farSecond: int)
    ensures BuildProbeKeyFromDirective(pd, pd.nearTTL, nearSecond)
      != BuildProbeKeyFromDirective(pd, FarTTL(pd), farSecond)
    ensures TupleOf(pd, pd.nearTTL) != TupleOf(pd, FarTTL(pd))
  {
    assert FarTTL(pd) != pd.nearTTL;
    assert TupleOf(pd, pd.nearTTL).ttl != TupleOf(pd, FarTTL(pd)).ttl;
  }
}
