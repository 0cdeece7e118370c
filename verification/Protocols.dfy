/** The protocol table (protocol.c), as far as header placement and compilation depend on it. */
module Protocols {
  import opened Basics

  datatype Proto =
    | Payload | Eth | SVlan | CVlan | RTag | TTag | Mpls | Dcw | Tcw | IPv4 | IPv6 | Arp
    | Udp | Tcp | Oam | OamRTag | Cfm | Icmpv4 | Icmpv6

  function ByteLength(p: Proto): nat {
    match p
    case Payload => 0
    case Eth => 14
    case RTag => 6 case TTag => 6
    case IPv4 => 20 case Tcp => 20
    case IPv6 => 40
    case Arp => 28
    case Udp => 8 case Oam => 8 case Icmpv4 => 8 case Icmpv6 => 8
    case SVlan => 4 case CVlan => 4 case Mpls => 4 case Dcw => 4 case Tcw => 4 case OamRTag => 4 case Cfm => 4
  }

  /** How a header names the protocol that follows it: not at all, by EtherType or by IP protocol number. */
  datatype Family = NoFamily | EtherType | IpProtocol

  function FamilyOf(p: Proto): Family {
    match p
    case Eth => EtherType case SVlan => EtherType case CVlan => EtherType case RTag => EtherType case TTag => EtherType
    case IPv4 => IpProtocol case IPv6 => IpProtocol
    case _ => NoFamily
  }

  /** The number by which a family names a protocol, if it can. */
  function CodeOf(f: Family, p: Proto): Option<nat> {
    match f
    case NoFamily => None
    case EtherType =>
      (match p
       case SVlan => Some(0x88a8)
       case CVlan => Some(0x8100)
       case RTag => Some(0xf1c1) case TTag => Some(0xf1c1) case OamRTag => Some(0xf1c1)
       case Mpls => Some(0x8847)
       case IPv4 => Some(0x0800)
       case IPv6 => Some(0x86dd)
       case Arp => Some(0x0806)
       case Cfm => Some(0x8902)
       case _ => None)
    case IpProtocol =>
      (match p
       case Eth => Some(143)
       case IPv4 => Some(4)
       case IPv6 => Some(41)
       case Udp => Some(17)
       case Tcp => Some(6)
       case Mpls => Some(137)
       case Icmpv4 => Some(1)
       case Icmpv6 => Some(58)
       case _ => None)
  }

  /** The protocol that a number stands for. */
  function ProtoOf(f: Family, code: nat): Option<Proto> {
    match f
    case NoFamily => None
    case EtherType =>
      if code == 0x8100 then Some(CVlan) else if code == 0x88a8 then Some(SVlan)
      else if code == 0xf1c1 then Some(RTag) else if code == 0x8847 then Some(Mpls)
      else if code == 0x0800 then Some(IPv4) else if code == 0x86dd then Some(IPv6)
      else if code == 0x0806 then Some(Arp) else if code == 0x8902 then Some(Cfm) else None
    case IpProtocol =>
      if code == 4 then Some(IPv4) else if code == 41 then Some(IPv6) else if code == 17 then Some(Udp)
      else if code == 6 then Some(Tcp) else if code == 137 then Some(Mpls) else if code == 143 then Some(Eth)
      else if code == 1 then Some(Icmpv4) else if code == 58 then Some(Icmpv6) else None
  }

  /** The two tables are inverse, except that the three kinds of redundancy tag share one number. */
  lemma {:induction false} NumbersNameProtocols(f: Family, p: Proto, code: nat)
    ensures CodeOf(f, p) == Some(code) ==>
              ProtoOf(f, code) == Some(if p == TTag || p == OamRTag then RTag else p)
    ensures ProtoOf(f, code) == Some(p) ==> CodeOf(f, p) == Some(code)
  {
  }

  /** Headers that carry a sequence number tag, a timestamp tag, a TTL, a checksum. */
  predicate HasSeq(p: Proto) { p == RTag || p == Dcw }
  predicate HasTstamp(p: Proto) { p == TTag || p == Tcw }
  predicate HasTtl(p: Proto) { p == Mpls || p == IPv4 || p == IPv6 }
  predicate HasChecksum(p: Proto) { p == IPv4 || p == Udp || p == Tcp || p == Icmpv4 || p == Icmpv6 }

  /** Headers that a new header is filled with default bytes for; those bytes clear its next-header field. */
  predicate HasDefault(p: Proto) { p == IPv4 || p == IPv6 || p == Arp }
}
