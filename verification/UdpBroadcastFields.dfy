// The packets of the broadcast relay from the writer's side: headers encoded
// field by field after section 3.1 of RFC 791 and RFC 768, and what the parser,
// the summary and the destination mapping make of them
// (rust/easytier-core/src/gateway/udp_broadcast.rs).
module UdpBroadcastFields {
  import opened Wrappers
  import opened Checksum
  import opened Ipv4Address
  import opened UdpBroadcast

  // ----- addresses -----

  type Octet = n: nat | n < 256

  function Quad(a: Octet, b: Octet, c: Octet, d: Octet): Ipv4 {
    ((a * 256 + b) * 256 + c) * 256 + d
  }

  // The address classes by the first octet; all zeros and all ones by all four.
  lemma ClassesByOctets(a: Octet, b: Octet, c: Octet, d: Octet)
    ensures IsMulticast(Quad(a, b, c, d)) <==> 224 <= a <= 239
    ensures IsLoopback(Quad(a, b, c, d)) <==> a == 127
    ensures Quad(a, b, c, d) == BROADCAST <==> a == 255 && b == 255 && c == 255 && d == 255
    ensures
      ShouldIgnoreInterfaceAddr(Quad(a, b, c, d)) <==>
      || a == 127 || 224 <= a <= 239
      || (a == 0 && b == 0 && c == 0 && d == 0) || (a == 255 && b == 255 && c == 255 && d == 255)
  {
  }

  // ----- headers -----

  // The fields of an IPv4 header without its options.
  datatype Header = Header(
    version: nat,
    headerWords: nat,
    service: nat,
    totalLen: nat,
    identification: nat,
    reserved: bool,
    dontFragment: bool,
    moreFragments: bool,
    fragmentOffset: nat,
    timeToLive: nat,
    protocol: nat,
    checksum: nat,
    src: Ipv4,
    dst: Ipv4
  )

  predicate Fits(h: Header) {
    && h.version < 16 && h.headerWords < 16 && h.service < 256 && h.totalLen < WORD && h.identification < WORD
    && h.fragmentOffset < 0x2000 && h.timeToLive < 256 && h.protocol < 256 && h.checksum < WORD
  }

  function Bit(b: bool, weight: nat): nat {
    if b then weight else 0
  }

  function FlagsWord(h: Header): (r: nat)
    requires Fits(h)
    ensures r < WORD
  {
    Bit(h.reserved, 0x8000) + Bit(h.dontFragment, 0x4000) + Bit(h.moreFragments, 0x2000) + h.fragmentOffset
  }

  // A 16-bit number, high byte first.
  function Word(v: nat): (r: seq<byte>)
    requires v < WORD
    ensures |r| == 2
  {
    [v / 256, v % 256]
  }

  function AddrBytes(a: Ipv4): (r: seq<byte>)
    ensures |r| == 4
  {
    Word(a / 0x1_0000) + Word(a % 0x1_0000)
  }

  function EncodeHeader(h: Header): (r: seq<byte>)
    requires Fits(h)
    ensures |r| == IPV4_HEADER_LEN
  {
    [h.version * 16 + h.headerWords, h.service] + Word(h.totalLen) + Word(h.identification) + Word(FlagsWord(h))
    + [h.timeToLive, h.protocol] + Word(h.checksum) + AddrBytes(h.src) + AddrBytes(h.dst)
  }

  lemma WordReadsBack(p: seq<byte>, off: nat, v: nat)
    requires off + 2 <= |p| && v < WORD && p[off..off + 2] == Word(v)
    ensures U16At(p, off) == v
  {
    assert p[off] == p[off..off + 2][0] && p[off + 1] == p[off..off + 2][1];
  }

  lemma AddrReadsBack(p: seq<byte>, off: nat, a: Ipv4)
    requires off + 4 <= |p| && p[off..off + 4] == AddrBytes(a)
    ensures AddrAt(p, off) == a
  {
    assert p[off..off + 2] == p[off..off + 4][..2] == Word(a / 0x1_0000);
    assert p[off + 2..off + 4] == p[off..off + 4][2..] == Word(a % 0x1_0000);
    WordReadsBack(p, off, a / 0x1_0000);
    WordReadsBack(p, off + 2, a % 0x1_0000);
  }

  // The first bytes of a packet that starts with an encoded header.
  lemma HeaderBytes(h: Header, rest: seq<byte>)
    requires Fits(h)
    ensures
      var p := EncodeHeader(h) + rest;
      && p[0] == h.version * 16 + h.headerWords && p[9] == h.protocol
      && p[2..4] == Word(h.totalLen) && p[6..8] == Word(FlagsWord(h))
      && p[12..16] == AddrBytes(h.src) && p[16..20] == AddrBytes(h.dst)
  {
  }

  lemma FragmentFlags(h: Header)
    requires Fits(h)
    ensures FlagsWord(h) % 0x2000 == h.fragmentOffset
    ensures FlagsWord(h) / 0x2000 % 2 == Bit(h.moreFragments, 1)
  {
  }

  // The accessors read the fields of an encoded header.
  lemma FieldsReadBack(h: Header, rest: seq<byte>)
    requires Fits(h)
    ensures
      var p := EncodeHeader(h) + rest;
      && Version(p) == h.version && HeaderLen(p) == 4 * h.headerWords && TotalLen(p) == h.totalLen
      && (IsUdpIpv4(p) <==> h.version == 4 && h.protocol == PROTOCOL_UDP)
      && (IsFragment(p) <==> h.moreFragments || h.fragmentOffset != 0)
      && AddrAt(p, 12) == h.src && AddrAt(p, 16) == h.dst
  {
    var p := EncodeHeader(h) + rest;
    HeaderBytes(h, rest);
    WordReadsBack(p, 2, h.totalLen);
    WordReadsBack(p, 6, FlagsWord(h));
    FragmentFlags(h);
    AddrReadsBack(p, 12, h.src);
    AddrReadsBack(p, 16, h.dst);
  }

  lemma WordIsBytes(p: seq<byte>, off: nat)
    requires off + 2 <= |p|
    ensures Word(U16At(p, off)) == p[off..off + 2]
  {
  }

  lemma AddrIsBytes(p: seq<byte>, off: nat)
    requires off + 4 <= |p|
    ensures AddrBytes(AddrAt(p, off)) == p[off..off + 4]
  {
    WordIsBytes(p, off);
    WordIsBytes(p, off + 2);
    var a := AddrAt(p, off);
    assert a / 0x1_0000 == U16At(p, off) && a % 0x1_0000 == U16At(p, off + 2);
    assert p[off..off + 4] == p[off..off + 2] + p[off + 2..off + 4];
  }

  function HeaderOf(p: seq<byte>): (h: Header)
    requires |p| >= IPV4_HEADER_LEN
    ensures Fits(h)
  {
    var flags := U16At(p, 6);
    Header(
      p[0] / 16, p[0] % 16, p[1], U16At(p, 2), U16At(p, 4),
      flags / 0x8000 == 1, flags / 0x4000 % 2 == 1, flags / 0x2000 % 2 == 1, flags % 0x2000,
      p[8], p[9], U16At(p, 10), AddrAt(p, 12), AddrAt(p, 16))
  }

  lemma FlagsOf(p: seq<byte>)
    requires |p| >= IPV4_HEADER_LEN
    ensures FlagsWord(HeaderOf(p)) == U16At(p, 6)
  {
  }

  // Every packet long enough starts with an encoded header.
  lemma EveryHeaderIsEncoded(p: seq<byte>)
    requires |p| >= IPV4_HEADER_LEN
    ensures p == EncodeHeader(HeaderOf(p)) + p[IPV4_HEADER_LEN..]
  {
    var h := HeaderOf(p);
    FlagsOf(p);
    WordIsBytes(p, 2);
    WordIsBytes(p, 4);
    WordIsBytes(p, 6);
    WordIsBytes(p, 10);
    AddrIsBytes(p, 12);
    AddrIsBytes(p, 16);
    assert h.version * 16 + h.headerWords == p[0];
    var bytes := EncodeHeader(h);
    assert bytes == p[0..2] + p[2..4] + p[4..6] + p[6..8] + p[8..10] + p[10..12] + p[12..16] + p[16..20];
    assert bytes == p[..IPV4_HEADER_LEN];
  }

  datatype Udp = Udp(srcPort: nat, dstPort: nat, length: nat, checksum: nat)

  predicate UdpFits(u: Udp) {
    u.srcPort < WORD && u.dstPort < WORD && u.length < WORD && u.checksum < WORD
  }

  function EncodeUdp(u: Udp): (r: seq<byte>)
    requires UdpFits(u)
    ensures |r| == UDP_HEADER_LEN
  {
    Word(u.srcPort) + Word(u.dstPort) + Word(u.length) + Word(u.checksum)
  }

  // A packet: header, options, UDP header, and whatever follows.
  function Packet(h: Header, options: seq<byte>, u: Udp, payload: seq<byte>): seq<byte>
    requires Fits(h) && UdpFits(u)
  {
    EncodeHeader(h) + (options + EncodeUdp(u) + payload)
  }

  lemma UdpReadsBack(h: Header, options: seq<byte>, u: Udp, payload: seq<byte>)
    requires Fits(h) && UdpFits(u) && |options| + IPV4_HEADER_LEN == 4 * h.headerWords
    ensures
      var p, off := Packet(h, options, u, payload), 4 * h.headerWords;
      && off + UDP_HEADER_LEN <= |p|
      && U16At(p, off) == u.srcPort && U16At(p, off + 2) == u.dstPort && U16At(p, off + 4) == u.length
  {
    var p, off := Packet(h, options, u, payload), 4 * h.headerWords;
    assert p[off..off + 2] == Word(u.srcPort);
    assert p[off + 2..off + 4] == Word(u.dstPort);
    assert p[off + 4..off + 6] == Word(u.length);
    WordReadsBack(p, off, u.srcPort);
    WordReadsBack(p, off + 2, u.dstPort);
    WordReadsBack(p, off + 4, u.length);
  }

  // ----- what parser and summary make of them -----

  // The lengths of header, datagram and buffer agree.
  predicate LengthsAgree(h: Header, u: Udp, size: nat) {
    UDP_HEADER_LEN <= u.length && h.totalLen == 4 * h.headerWords + u.length && h.totalLen <= size
  }

  // A packet is well formed exactly when its fields say unfragmented UDP over
  // IPv4 and its lengths agree.
  lemma WellFormedByFields(h: Header, options: seq<byte>, u: Udp, payload: seq<byte>)
    requires Fits(h) && UdpFits(u) && |options| + IPV4_HEADER_LEN == 4 * h.headerWords
    ensures
      var p := Packet(h, options, u, payload);
      WellFormed(p) <==>
      && h.version == 4 && h.protocol == 17 && !h.moreFragments && h.fragmentOffset == 0
      && LengthsAgree(h, u, |p|)
  {
    FieldsReadBack(h, options + EncodeUdp(u) + payload);
    UdpReadsBack(h, options, u, payload);
  }

  // The summary returns the fields; fragments are summarized too.
  lemma SummaryByFields(h: Header, options: seq<byte>, u: Udp, payload: seq<byte>)
    requires Fits(h) && UdpFits(u) && |options| + IPV4_HEADER_LEN == 4 * h.headerWords
    ensures
      var p := Packet(h, options, u, payload);
      Summarize(p) ==
      if h.version == 4 && h.protocol == 17 && LengthsAgree(h, u, |p|) then
        Some(UdpPacketSummary(h.src, h.dst, u.srcPort, u.dstPort, h.totalLen, u.length, u.length - 8))
      else None
  {
    FieldsReadBack(h, options + EncodeUdp(u) + payload);
    UdpReadsBack(h, options, u, payload);
  }

  // What a rejection says is wrong with the packet.
  ghost predicate Defect(p: seq<byte>, config: RelayConfig, e: Rejection) {
    if |p| < IPV4_HEADER_LEN then e == MalformedIpv4
    else
      match e
      case MalformedIpv4 => false
      case NotUdpIpv4 => !IsUdpIpv4(p)
      case Fragmented => IsFragment(p)
      case BadIpv4Length => !LengthsFit(p)
      case IgnoredSource => ShouldIgnoreInterfaceAddr(AddrAt(p, 12))
      case VirtualSourceDuplicate => AddrAt(p, 12) == config.virtualIpv4.address
      case NonPhysicalSource => forall i :: 0 <= i < |config.physicalInterfaces| ==>
        config.physicalInterfaces[i].addr != AddrAt(p, 12)
      case UnsupportedDestination =>
        && AddrAt(p, 16) != BROADCAST && !IsMulticast(AddrAt(p, 16))
        && forall i :: 0 <= i < |config.physicalInterfaces| ==>
             config.physicalInterfaces[i].directedBroadcast != AddrAt(p, 16)
      case LoopbackDestination =>
        AddrAt(p, 16) != BROADCAST && !IsMulticast(AddrAt(p, 16)) && IsLoopback(LastAddress(config.virtualIpv4))
      case BadUdpLength =>
        LengthsFit(p) && (UdpLenField(p) < UDP_HEADER_LEN || HeaderLen(p) + UdpLenField(p) != TotalLen(p))
  }

  // The order in which the reasons are tried.
  function Rank(e: Rejection): nat {
    match e
    case MalformedIpv4 => 0
    case NotUdpIpv4 => 1
    case Fragmented => 2
    case BadIpv4Length => 3
    case IgnoredSource => 4
    case VirtualSourceDuplicate => 5
    case NonPhysicalSource => 6
    case UnsupportedDestination => 7
    case LoopbackDestination => 8
    case BadUdpLength => 9
  }

  // A packet is rejected exactly when something is wrong with it, and for the
  // first thing that is.
  lemma RejectedForFirstDefect(p: seq<byte>, config: RelayConfig)
    ensures Accepted(p, config) <==> forall e :: !Defect(p, config, e)
    ensures
      var r := ParseUdpBroadcast(p, config);
      r.Err? ==> Defect(p, config, r.error) && forall e :: Defect(p, config, e) ==> Rank(r.error) <= Rank(e)
  {
    var r := ParseUdpBroadcast(p, config);
    assert r.Err? ==> Defect(p, config, r.error);
  }

  // ----- the destination -----

  predicate IsDirectedBroadcast(config: RelayConfig, dst: Ipv4) {
    exists i :: 0 <= i < |config.physicalInterfaces| && config.physicalInterfaces[i].directedBroadcast == dst
  }

  lemma LastAddressIsLast(inet: Ipv4Inet, other: Ipv4)
    ensures SameSubnet(LastAddress(inet), inet.address, inet.networkLength)
    ensures SameSubnet(other, inet.address, inet.networkLength) ==> other <= LastAddress(inet)
  {
    DirectedBroadcastIsLargest(inet.address, inet.networkLength, other);
  }

  // Where a destination is mapped, if at all; `other` stands for any address.
  ghost predicate MapsTo(config: RelayConfig, dst: Ipv4, out: Ipv4, other: Ipv4) {
    var inet := config.virtualIpv4;
    if dst == BROADCAST || IsMulticast(dst) then out == dst
    else
      && IsDirectedBroadcast(config, dst)
      && SameSubnet(out, inet.address, inet.networkLength)
      && (SameSubnet(other, inet.address, inet.networkLength) ==> other <= out)
  }

  lemma DestinationIsMapped(config: RelayConfig, dst: Ipv4, other: Ipv4)
    requires NormalizeDestination(config, dst).Some?
    ensures MapsTo(config, dst, NormalizeDestination(config, dst).value, other)
  {
    LastAddressIsLast(config.virtualIpv4, other);
  }

  // Limited broadcasts and multicasts keep their destination; a directed
  // broadcast of a physical network goes to the last address of the virtual
  // one, and nothing else is accepted.
  lemma DestinationOfOutput(p: seq<byte>, config: RelayConfig, other: Ipv4)
    requires Accepted(p, config)
    ensures WellFormed(p) && Normalized(p, config).Ok?
    ensures MapsTo(config, AddrAt(p, 16), Normalized(p, config).value.destination, other)
  {
    NormalizedForm(p, config);
    DestinationIsMapped(config, AddrAt(p, 16), other);
  }

  // ----- configuration -----

  // Interfaces keep the order in which they first occur.
  lemma EligiblePrefix(virtualAddr: Ipv4, s: seq<PhysicalInterface>, x: PhysicalInterface)
    ensures Eligible(virtualAddr, s) <= Eligible(virtualAddr, s + [x])
  {
    assert (s + [x])[..|s|] == s;
  }

  predicate LeadingOnes(mask: Ipv4, prefix: nat) {
    prefix <= 32 && mask == U32_MAX + 1 - Pow2(32 - prefix)
  }

  // An observation is passed over when it is internal, on the virtual address
  // or without a netmask, and is an error exactly when it is none of these and
  // its netmask is not contiguous.
  lemma ObservationOutcome(addr: Ipv4, netmask: Option<Ipv4>, isInternal: bool, virtualAddr: Ipv4)
    ensures
      var r := FromObservation(addr, netmask, isInternal, virtualAddr);
      && (isInternal || addr == virtualAddr || netmask.None? ==> r == Ok(None))
      && (r.Err? <==>
            && !isInternal && addr != virtualAddr && netmask.Some?
            && forall prefix :: !LeadingOnes(netmask.value, prefix))
      && (r.Err? ==> r.error == netmask.value)
  {
    if netmask.Some? {
      var parsed := PrefixLenFromNetmask(netmask.value);
      if parsed.Some? {
        NetmaskParsesIffContiguous(netmask.value, parsed.value);
        assert LeadingOnes(netmask.value, parsed.value);
      }
      forall prefix | LeadingOnes(netmask.value, prefix) ensures parsed.Some? {
        NetmaskParsesIffContiguous(netmask.value, prefix);
      }
    }
  }
}
