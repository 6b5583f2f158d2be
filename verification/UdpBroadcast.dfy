// Relay of captured UDP broadcasts into the virtual network
// (rust/easytier-core/src/gateway/udp_broadcast.rs). Header layouts follow
// section 3.1 of RFC 791 and RFC 768.
module UdpBroadcast {
  import opened Wrappers
  import opened Sequences
  import opened Checksum
  import opened Ipv4Address

  const IPV4_HEADER_LEN: nat := 20
  const UDP_HEADER_LEN: nat := 8
  const PROTOCOL_UDP: nat := 17

  type PrefixLength = n: nat | n <= 32

  datatype PhysicalInterface = PhysicalInterface(addr: Ipv4, directedBroadcast: Ipv4)

  datatype Ipv4Inet = Ipv4Inet(address: Ipv4, networkLength: PrefixLength)

  datatype RelayConfig = RelayConfig(virtualIpv4: Ipv4Inet, physicalInterfaces: seq<PhysicalInterface>)

  datatype Rejection =
    | MalformedIpv4
    | NotUdpIpv4
    | Fragmented
    | BadIpv4Length
    | IgnoredSource
    | VirtualSourceDuplicate
    | NonPhysicalSource
    | UnsupportedDestination
    | LoopbackDestination
    | BadUdpLength

  datatype ParsedPacket = ParsedPacket(headerLen: nat, udpLen: nat, destination: Ipv4)

  datatype NormalizedPacket = NormalizedPacket(packet: seq<byte>, destination: Ipv4)

  datatype UdpPacketSummary = UdpPacketSummary(
    src: Ipv4, dst: Ipv4, srcPort: nat, dstPort: nat, ipLen: nat, udpLen: nat, payloadLen: nat)

  // ----- header accessors -----

  function AddrAt(s: seq<byte>, off: nat): (r: Ipv4)
    requires off + 4 <= |s|
  {
    U16At(s, off) * 0x1_0000 + U16At(s, off + 2)
  }

  function SetAddr(s: seq<byte>, off: nat, a: Ipv4): (r: seq<byte>)
    requires off + 4 <= |s|
    ensures |r| == |s| && AddrAt(r, off) == a
    ensures forall i :: 0 <= i < |s| && !(off <= i < off + 4) ==> r[i] == s[i]
  {
    SetU16(SetU16(s, off, a / 0x1_0000), off + 2, a % 0x1_0000)
  }

  function Version(p: seq<byte>): nat
    requires |p| >= IPV4_HEADER_LEN
  {
    p[0] / 16
  }

  function HeaderLen(p: seq<byte>): (r: nat)
    requires |p| >= IPV4_HEADER_LEN
    ensures r <= 60 && r % 4 == 0
  {
    (p[0] % 16) as nat * 4
  }

  function TotalLen(p: seq<byte>): nat
    requires |p| >= IPV4_HEADER_LEN
  {
    U16At(p, 2)
  }

  predicate IsFragment(p: seq<byte>)
    requires |p| >= IPV4_HEADER_LEN
  {
    var flagsAndOffset := U16At(p, 6);
    flagsAndOffset % 0x2000 != 0 || flagsAndOffset / 0x2000 % 2 == 1
  }

  predicate IsUdpIpv4(p: seq<byte>)
    requires |p| >= IPV4_HEADER_LEN
  {
    Version(p) == 4 && p[9] == PROTOCOL_UDP
  }

  predicate LengthsFit(p: seq<byte>)
    requires |p| >= IPV4_HEADER_LEN
  {
    && IPV4_HEADER_LEN <= HeaderLen(p)
    && HeaderLen(p) + UDP_HEADER_LEN <= TotalLen(p) <= |p|
  }

  function UdpLenField(p: seq<byte>): nat
    requires |p| >= IPV4_HEADER_LEN && LengthsFit(p)
  {
    U16At(p, HeaderLen(p) + 4)
  }

  // ----- configuration -----

  function LastAddress(inet: Ipv4Inet): Ipv4 {
    DirectedBroadcastIsLargest(inet.address, inet.networkLength, inet.address);
    DirectedBroadcast(inet.address, inet.networkLength).value
  }

  function FromIpAndPrefix(addr: Ipv4, prefix: nat): Option<PhysicalInterface> {
    if ShouldIgnoreInterfaceAddr(addr) || prefix > 30 then None
    else
      DirectedBroadcastIsLargest(addr, prefix, addr);
      Some(PhysicalInterface(addr, DirectedBroadcast(addr, prefix).value))
  }

  // An observed interface: unusable, rejected for its netmask, or an interface.
  function FromObservation(addr: Ipv4, netmask: Option<Ipv4>, isInternal: bool, virtualAddr: Ipv4)
    : Result<Option<PhysicalInterface>, Ipv4>
  {
    if isInternal || addr == virtualAddr || netmask.None? then Ok(None)
    else
      match PrefixLenFromNetmask(netmask.value)
      case None => Err(netmask.value)
      case Some(prefix) => Ok(FromIpAndPrefix(addr, prefix))
  }

  // An observation yields an interface exactly for a usable, non-virtual
  // address whose netmask is contiguous with at most 30 ones; its broadcast
  // address is the last one the mask leaves in the subnet.
  lemma ObservationYieldsInterfaceIff(addr: Ipv4, netmask: Ipv4, virtualAddr: Ipv4, prefix: nat, other: Ipv4)
    requires prefix <= 32 && netmask == U32_MAX + 1 - Pow2(32 - prefix)
    ensures
      var r := FromObservation(addr, Some(netmask), false, virtualAddr);
      && r.Ok?
      && (r.value.Some? <==> addr != virtualAddr && !ShouldIgnoreInterfaceAddr(addr) && prefix <= 30)
      && (r.value.Some? ==>
            && r.value.value.addr == addr
            && SameSubnet(r.value.value.directedBroadcast, addr, prefix)
            && (SameSubnet(other, addr, prefix) ==> other <= r.value.value.directedBroadcast))
  {
    NetmaskParsesIffContiguous(netmask, prefix);
    DirectedBroadcastIsLargest(addr, prefix, other);
  }

  // The interfaces of `s` that the relay keeps: not the virtual one, first
  // occurrences only, in order.
  ghost function Eligible(virtualAddr: Ipv4, s: seq<PhysicalInterface>): (r: seq<PhysicalInterface>)
    ensures NoDuplicates(r)
    ensures forall x :: x in r <==> x in s && x.addr != virtualAddr
  {
    if s == [] then []
    else
      var before := Eligible(virtualAddr, s[..|s| - 1]);
      var last := s[|s| - 1];
      if last.addr == virtualAddr || last in before then before
      else
        DistinctConcat(before, [last]);
        before + [last]
  }

  method NewRelayConfig(virtualIpv4: Ipv4Inet, interfaces: seq<PhysicalInterface>) returns (r: RelayConfig)
    ensures r.virtualIpv4 == virtualIpv4
    ensures r.physicalInterfaces == Eligible(virtualIpv4.address, interfaces)
    ensures NoDuplicates(r.physicalInterfaces)
    ensures forall x :: x in r.physicalInterfaces <==> x in interfaces && x.addr != virtualIpv4.address
  {
    var eligible := [];
    for i := 0 to |interfaces|
      invariant eligible == Eligible(virtualIpv4.address, interfaces[..i])
    {
      var interface := interfaces[i];
      assert interfaces[..i + 1][..i] == interfaces[..i];
      if interface.addr == virtualIpv4.address || interface in eligible {
        continue;
      }
      eligible := eligible + [interface];
    }
    assert interfaces[..|interfaces|] == interfaces;
    r := RelayConfig(virtualIpv4, eligible);
  }

  predicate IsPhysicalSource(config: RelayConfig, addr: Ipv4) {
    exists i :: 0 <= i < |config.physicalInterfaces| && config.physicalInterfaces[i].addr == addr
  }

  function NormalizeDestination(config: RelayConfig, dst: Ipv4): Option<Ipv4> {
    if dst == BROADCAST || IsMulticast(dst) then Some(dst)
    else if exists i :: 0 <= i < |config.physicalInterfaces| && config.physicalInterfaces[i].directedBroadcast == dst
    then Some(LastAddress(config.virtualIpv4))
    else None
  }

  // ----- parsing -----

  function ParseUdpBroadcast(p: seq<byte>, config: RelayConfig): Result<ParsedPacket, Rejection> {
    if |p| < IPV4_HEADER_LEN then Err(MalformedIpv4)
    else if !IsUdpIpv4(p) then Err(NotUdpIpv4)
    else if IsFragment(p) then Err(Fragmented)
    else if !LengthsFit(p) then Err(BadIpv4Length)
    else
      var src := AddrAt(p, 12);
      if ShouldIgnoreInterfaceAddr(src) then Err(IgnoredSource)
      else if src == config.virtualIpv4.address then Err(VirtualSourceDuplicate)
      else if !IsPhysicalSource(config, src) then Err(NonPhysicalSource)
      else
        var destination := NormalizeDestination(config, AddrAt(p, 16));
        if destination.None? then Err(UnsupportedDestination)
        else if IsLoopback(destination.value) then Err(LoopbackDestination)
        else
          var udpLen := UdpLenField(p);
          if udpLen < UDP_HEADER_LEN || HeaderLen(p) + udpLen != TotalLen(p) then Err(BadUdpLength)
          else Ok(ParsedPacket(HeaderLen(p), udpLen, destination.value))
  }

  function Summarize(p: seq<byte>): Option<UdpPacketSummary> {
    if |p| < IPV4_HEADER_LEN || !IsUdpIpv4(p) || !LengthsFit(p) then None
    else
      var udpLen := UdpLenField(p);
      var h := HeaderLen(p);
      if udpLen < UDP_HEADER_LEN || h + udpLen != TotalLen(p) then None
      else Some(UdpPacketSummary(AddrAt(p, 12), AddrAt(p, 16), U16At(p, h), U16At(p, h + 2),
                                 TotalLen(p), udpLen, udpLen - UDP_HEADER_LEN))
  }

  // ----- checksums -----

  // The pseudo-header of RFC 768: both addresses, the protocol, the length.
  function PseudoHeaderSum(src: Ipv4, dst: Ipv4, udpLen: nat): nat {
    src / 0x1_0000 + src % 0x1_0000 + dst / 0x1_0000 + dst % 0x1_0000 + PROTOCOL_UDP + udpLen
  }

  predicate Ipv4ChecksumVerifies(p: seq<byte>)
    requires |p| >= IPV4_HEADER_LEN && HeaderLen(p) <= |p|
  {
    Fold(WordSum(p[..HeaderLen(p)])) == ONES
  }

  // The receiver's test, on a datagram that does carry a checksum.
  predicate UdpChecksumVerifies(udp: seq<byte>, src: Ipv4, dst: Ipv4)
    requires |udp| >= UDP_HEADER_LEN
  {
    && U16At(udp, 6) != 0
    && Fold(PseudoHeaderSum(src, dst, |udp|) + WordSum(udp)) == ONES
  }

  // The value stored for a datagram: the complement of the sum taken with the
  // field cleared, with zero sent as all ones.
  function UdpChecksum(udp: seq<byte>, src: Ipv4, dst: Ipv4): (r: nat)
    requires UDP_HEADER_LEN <= |udp| < WORD
    ensures r < WORD
  {
    UdpSumBound(udp, src, dst);
    var cleared := SetU16(udp, 6, 0);
    var checksum := ONES - Fold(Fold(PseudoHeaderSum(src, dst, |udp|)) + Fold(WordSum(cleared)));
    if checksum == 0 then ONES else checksum
  }

  lemma UdpSumBound(udp: seq<byte>, src: Ipv4, dst: Ipv4)
    requires UDP_HEADER_LEN <= |udp| < WORD
    ensures
      var cleared := SetU16(udp, 6, 0);
      var pseudo, data := PseudoHeaderSum(src, dst, |udp|), WordSum(cleared);
      && 0 < pseudo
      && pseudo + data + ONES < WORD * WORD
      && Fold(Fold(pseudo) + Fold(data)) == Fold(pseudo + data)
      && Fold(pseudo + data) < WORD
  {
    var cleared := SetU16(udp, 6, 0);
    WordSumBound(cleared);
    var pseudo, data := PseudoHeaderSum(src, dst, |udp|), WordSum(cleared);
    FoldCombines(pseudo, data);
    FoldResidue(pseudo + data);
  }

  // Storing that value makes the datagram verify, for any length, odd or even.
  lemma StoredUdpChecksumVerifies(udp: seq<byte>, src: Ipv4, dst: Ipv4)
    requires UDP_HEADER_LEN <= |udp| < WORD
    ensures UdpChecksumVerifies(SetU16(udp, 6, UdpChecksum(udp, src, dst)), src, dst)
  {
    UdpSumBound(udp, src, dst);
    var cleared := SetU16(udp, 6, 0);
    var sum := PseudoHeaderSum(src, dst, |udp|) + WordSum(cleared);
    var stored := UdpChecksum(udp, src, dst);
    NonZeroComplementVerifies(sum);
    WordSumSet(cleared, 6, stored);
    var final := SetU16(udp, 6, stored);
    assert final == SetU16(cleared, 6, stored);
    assert PseudoHeaderSum(src, dst, |final|) + WordSum(final) == sum + stored;
  }

  function Ipv4Checksum(header: seq<byte>): (r: nat)
    requires IPV4_HEADER_LEN <= |header| <= 60
    ensures r < WORD
  {
    WordSumBound(SetU16(header, 10, 0));
    FoldResidue(WordSum(SetU16(header, 10, 0)));
    ONES - Fold(WordSum(SetU16(header, 10, 0)))
  }

  // Storing it makes a header that is not all zero verify, with any options.
  lemma StoredIpv4ChecksumVerifies(header: seq<byte>)
    requires IPV4_HEADER_LEN <= |header| <= 60 && header[0] != 0
    ensures Fold(WordSum(SetU16(header, 10, Ipv4Checksum(header)))) == ONES
  {
    var cleared := SetU16(header, 10, 0);
    WordSumBound(cleared);
    WordSumPositive(cleared, 0);
    ComplementVerifies(WordSum(cleared));
    WordSumSet(cleared, 10, Ipv4Checksum(header));
    assert SetU16(cleared, 10, Ipv4Checksum(header)) == SetU16(header, 10, Ipv4Checksum(header));
  }

  // ----- normalization -----

  // The packet with both addresses rewritten and the header checksum cleared.
  function Readdressed(p: seq<byte>, virtualAddr: Ipv4, destination: Ipv4): (r: seq<byte>)
    requires IPV4_HEADER_LEN <= |p| < WORD
    ensures |r| == |p| && r[0] == p[0]
  {
    SetU16(SetU16(SetAddr(SetAddr(p, 12, virtualAddr), 16, destination), 2, |p|), 10, 0)
  }

  lemma ReaddressedBytes(p: seq<byte>, virtualAddr: Ipv4, destination: Ipv4)
    requires IPV4_HEADER_LEN <= |p| < WORD
    ensures
      var r := Readdressed(p, virtualAddr, destination);
      && AddrAt(r, 12) == virtualAddr && AddrAt(r, 16) == destination && U16At(r, 2) == |p|
      && forall i :: 0 <= i < |p| && !(2 <= i < 4) && !(10 <= i < 20) ==> r[i] == p[i]
  {
    var a := SetAddr(p, 12, virtualAddr);
    var b := SetAddr(a, 16, destination);
    assert AddrAt(b, 12) == AddrAt(a, 12);
    var c := SetU16(b, 2, |p|);
    assert AddrAt(c, 12) == AddrAt(b, 12) && AddrAt(c, 16) == AddrAt(b, 16);
    var d := SetU16(c, 10, 0);
    assert AddrAt(d, 12) == AddrAt(c, 12) && AddrAt(d, 16) == AddrAt(c, 16) && U16At(d, 2) == U16At(c, 2);
  }

  function WithUdpChecksum(p: seq<byte>, h: nat, src: Ipv4, dst: Ipv4): (r: seq<byte>)
    requires IPV4_HEADER_LEN <= h <= 60 && h + UDP_HEADER_LEN <= |p| < WORD
    ensures |r| == |p| && r[0] == p[0]
  {
    SetU16(p, h + 6, UdpChecksum(p[h..], src, dst))
  }

  lemma WithUdpChecksumVerifies(p: seq<byte>, h: nat, src: Ipv4, dst: Ipv4)
    requires IPV4_HEADER_LEN <= h <= 60 && h + UDP_HEADER_LEN <= |p| < WORD
    ensures UdpChecksumVerifies(WithUdpChecksum(p, h, src, dst)[h..], src, dst)
  {
    StoredUdpChecksumVerifies(p[h..], src, dst);
    assert WithUdpChecksum(p, h, src, dst)[h..] == SetU16(p[h..], 6, UdpChecksum(p[h..], src, dst));
  }

  function WithIpv4Checksum(p: seq<byte>, h: nat): (r: seq<byte>)
    requires IPV4_HEADER_LEN <= h <= 60 && h <= |p|
    ensures |r| == |p|
  {
    SetU16(p, 10, Ipv4Checksum(p[..h]))
  }

  lemma WithIpv4ChecksumVerifies(p: seq<byte>, h: nat)
    requires IPV4_HEADER_LEN <= h <= 60 && h <= |p| && p[0] != 0
    ensures Fold(WordSum(WithIpv4Checksum(p, h)[..h])) == ONES
  {
    StoredIpv4ChecksumVerifies(p[..h]);
    assert WithIpv4Checksum(p, h)[..h] == SetU16(p[..h], 10, Ipv4Checksum(p[..h]));
  }

  // The bytes that normalization may rewrite: the header checksum, the two
  // addresses and the UDP checksum.
  predicate Rewritable(h: nat, i: nat) {
    10 <= i < 20 || h + 6 <= i < h + 8
  }

  // `q` is `p` cut to `n` bytes with other addresses and checksums that verify.
  ghost predicate IsRewriteOf(p: seq<byte>, q: seq<byte>, n: nat, h: nat, src: Ipv4, dst: Ipv4) {
    && IPV4_HEADER_LEN <= h && h + UDP_HEADER_LEN <= n == |q| <= |p|
    && (forall i :: 0 <= i < n && !Rewritable(h, i) ==> q[i] == p[i])
    && AddrAt(q, 12) == src
    && AddrAt(q, 16) == dst
    && Fold(WordSum(q[..h])) == ONES
    && UdpChecksumVerifies(q[h..], src, dst)
  }

  function Rewritten(p: seq<byte>, h: nat, src: Ipv4, dst: Ipv4): (r: seq<byte>)
    requires IPV4_HEADER_LEN <= h <= 60 && h + UDP_HEADER_LEN <= |p| < WORD
  {
    WithIpv4Checksum(WithUdpChecksum(Readdressed(p, src, dst), h, src, dst), h)
  }

  lemma RewrittenIsRewrite(p: seq<byte>, h: nat, src: Ipv4, dst: Ipv4)
    requires IPV4_HEADER_LEN <= h <= 60 && h + UDP_HEADER_LEN <= |p| < WORD
    requires p[0] != 0 && U16At(p, 2) == |p|
    ensures IsRewriteOf(p, Rewritten(p, h, src, dst), |p|, h, src, dst)
  {
    var readdressed := Readdressed(p, src, dst);
    var withUdp := WithUdpChecksum(readdressed, h, src, dst);
    var q := WithIpv4Checksum(withUdp, h);
    ReaddressedBytes(p, src, dst);
    WithUdpChecksumVerifies(readdressed, h, src, dst);
    WithIpv4ChecksumVerifies(withUdp, h);
    assert q[h..] == withUdp[h..];
    assert AddrAt(q, 12) == AddrAt(readdressed, 12);
    assert AddrAt(q, 16) == AddrAt(readdressed, 16);
    SameWord(p, readdressed, 2);
    assert forall i :: 0 <= i < |p| && !Rewritable(h, i) ==> q[i] == readdressed[i];
  }

  lemma SameWord(a: seq<byte>, b: seq<byte>, off: nat)
    requires off + 2 <= |a| && off + 2 <= |b| && U16At(a, off) == U16At(b, off)
    ensures a[off] == b[off] && a[off + 1] == b[off + 1]
  {
  }

  function Normalized(p: seq<byte>, config: RelayConfig): (r: Result<NormalizedPacket, Rejection>) {
    match ParseUdpBroadcast(p, config)
    case Err(e) => Err(e)
    case Ok(parsed) =>
      var n := parsed.headerLen + parsed.udpLen;
      Ok(NormalizedPacket(
           Rewritten(p[..n], parsed.headerLen, config.virtualIpv4.address, parsed.destination),
           parsed.destination))
  }

  method WriteU16(buffer: array<byte>, off: nat, v: nat)
    requires off + 2 <= buffer.Length && v < WORD
    modifies buffer
    ensures buffer[..] == SetU16(old(buffer[..]), off, v)
  {
    buffer[off] := v / 256;
    buffer[off + 1] := v % 256;
  }

  method WriteAddr(buffer: array<byte>, off: nat, a: Ipv4)
    requires off + 4 <= buffer.Length
    modifies buffer
    ensures buffer[..] == SetAddr(old(buffer[..]), off, a)
  {
    WriteU16(buffer, off, a / 0x1_0000);
    WriteU16(buffer, off + 2, a % 0x1_0000);
  }

  method Readdress(buffer: array<byte>, virtualAddr: Ipv4, destination: Ipv4)
    requires IPV4_HEADER_LEN <= buffer.Length < WORD
    modifies buffer
    ensures buffer[..] == Readdressed(old(buffer[..]), virtualAddr, destination)
  {
    WriteAddr(buffer, 12, virtualAddr);
    WriteAddr(buffer, 16, destination);
    WriteU16(buffer, 2, buffer.Length);
    WriteU16(buffer, 10, 0);
  }

  method FillUdpChecksum(buffer: array<byte>, h: nat, src: Ipv4, dst: Ipv4)
    requires IPV4_HEADER_LEN <= h <= 60 && h + UDP_HEADER_LEN <= buffer.Length < WORD
    modifies buffer
    ensures buffer[..] == WithUdpChecksum(old(buffer[..]), h, src, dst)
  {
    assert buffer[..][h..] == buffer[h..];
    WriteU16(buffer, h + 6, UdpChecksum(buffer[h..], src, dst));
  }

  method FillIpv4Checksum(buffer: array<byte>, h: nat)
    requires IPV4_HEADER_LEN <= h <= 60 && h <= buffer.Length
    modifies buffer
    ensures buffer[..] == WithIpv4Checksum(old(buffer[..]), h)
  {
    assert buffer[..][..h] == buffer[..h];
    WriteU16(buffer, 10, Ipv4Checksum(buffer[..h]));
  }

  // The rewrite in place of a fresh copy of the packet.
  method NormalizeUdpBroadcastPacket(p: seq<byte>, config: RelayConfig)
    returns (r: Result<NormalizedPacket, Rejection>)
    ensures r == Normalized(p, config)
  {
    var parsed := ParseUdpBroadcast(p, config);
    if parsed.Err? {
      return Err(parsed.error);
    }
    var h := parsed.value.headerLen;
    var n := h + parsed.value.udpLen;
    var destination := parsed.value.destination;
    var virtualAddr := config.virtualIpv4.address;
    var buffer := new byte[n](i requires 0 <= i < n => p[i]);
    assert buffer[..] == p[..n];
    Readdress(buffer, virtualAddr, destination);
    FillUdpChecksum(buffer, h, virtualAddr, destination);
    FillIpv4Checksum(buffer, h);
    r := Ok(NormalizedPacket(buffer[..], destination));
  }

  // ----- what an accepted packet becomes -----

  predicate Accepted(p: seq<byte>, config: RelayConfig) {
    ParseUdpBroadcast(p, config).Ok?
  }

  // An unfragmented UDP packet whose length fields agree.
  predicate WellFormed(p: seq<byte>) {
    && |p| >= IPV4_HEADER_LEN
    && IsUdpIpv4(p) && !IsFragment(p) && LengthsFit(p)
    && UdpLenField(p) >= UDP_HEADER_LEN
    && HeaderLen(p) + UdpLenField(p) == TotalLen(p)
  }

  // The parser's guards as one conjunction, whatever their order; the results
  // below start from it.
  lemma AcceptedIff(p: seq<byte>, config: RelayConfig)
    ensures Accepted(p, config) <==>
      && WellFormed(p)
      && !ShouldIgnoreInterfaceAddr(AddrAt(p, 12))
      && AddrAt(p, 12) != config.virtualIpv4.address
      && IsPhysicalSource(config, AddrAt(p, 12))
      && NormalizeDestination(config, AddrAt(p, 16)).Some?
      && !IsLoopback(NormalizeDestination(config, AddrAt(p, 16)).value)
    ensures Accepted(p, config) ==>
      ParseUdpBroadcast(p, config).value ==
      ParsedPacket(HeaderLen(p), TotalLen(p) - HeaderLen(p), NormalizeDestination(config, AddrAt(p, 16)).value)
  {
  }

  lemma CutKeepsRewrite(p: seq<byte>, q: seq<byte>, n: nat, h: nat, src: Ipv4, dst: Ipv4)
    requires n <= |p| && IsRewriteOf(p[..n], q, n, h, src, dst)
    ensures IsRewriteOf(p, q, n, h, src, dst)
  {
    forall i | 0 <= i < n && !Rewritable(h, i) ensures q[i] == p[i] {
      assert q[i] == p[..n][i];
    }
  }

  lemma WellFormedIsRewritten(p: seq<byte>, src: Ipv4, dst: Ipv4)
    requires WellFormed(p)
    ensures TotalLen(p) < WORD && p[0] != 0
    ensures IsRewriteOf(p, Rewritten(p[..TotalLen(p)], HeaderLen(p), src, dst), TotalLen(p), HeaderLen(p), src, dst)
  {
    var n := TotalLen(p);
    var cut := p[..n];
    assert cut[0] == p[0] && cut[2] == p[2] && cut[3] == p[3];
    RewrittenIsRewrite(cut, HeaderLen(p), src, dst);
    CutKeepsRewrite(p, Rewritten(cut, HeaderLen(p), src, dst), n, HeaderLen(p), src, dst);
  }

  lemma NormalizedForm(p: seq<byte>, config: RelayConfig)
    requires Accepted(p, config)
    ensures WellFormed(p) && TotalLen(p) < WORD && p[0] != 0
    ensures NormalizeDestination(config, AddrAt(p, 16)).Some?
    ensures
      var destination := NormalizeDestination(config, AddrAt(p, 16)).value;
      Normalized(p, config) == Ok(NormalizedPacket(
        Rewritten(p[..TotalLen(p)], HeaderLen(p), config.virtualIpv4.address, destination), destination))
  {
    AcceptedIff(p, config);
    var parsed := ParseUdpBroadcast(p, config).value;
    assert parsed.headerLen == HeaderLen(p) && parsed.headerLen + parsed.udpLen == TotalLen(p);
  }

  // An accepted packet keeps its length and every byte outside addresses and
  // checksums, and carries the virtual source and the mapped destination.
  lemma AcceptedPacketIsRewritten(p: seq<byte>, config: RelayConfig)
    requires Accepted(p, config)
    ensures WellFormed(p)
    ensures
      var r := Normalized(p, config);
      && r.Ok?
      && IsRewriteOf(p, r.value.packet, TotalLen(p), HeaderLen(p), config.virtualIpv4.address, r.value.destination)
      && Some(r.value.destination) == NormalizeDestination(config, AddrAt(p, 16))
  {
    NormalizedForm(p, config);
    WellFormedIsRewritten(p, config.virtualIpv4.address, Normalized(p, config).value.destination);
  }

  // Read back from its own header, a packet's two checksums verify.
  predicate ReceiverAccepts(q: seq<byte>) {
    && |q| >= IPV4_HEADER_LEN
    && LengthsFit(q)
    && TotalLen(q) == |q|
    && Ipv4ChecksumVerifies(q)
    && UdpChecksumVerifies(q[HeaderLen(q)..], AddrAt(q, 12), AddrAt(q, 16))
  }

  lemma RewriteVerifies(p: seq<byte>, q: seq<byte>, src: Ipv4, dst: Ipv4)
    requires WellFormed(p) && IsRewriteOf(p, q, TotalLen(p), HeaderLen(p), src, dst)
    ensures ReceiverAccepts(q)
  {
    assert q[0] == p[0] && q[2] == p[2] && q[3] == p[3];
  }

  // Every accepted packet, with any options and any length, leaves with a
  // valid header checksum and a valid UDP checksum.
  lemma ChecksumsVerify(p: seq<byte>, config: RelayConfig)
    requires Accepted(p, config)
    ensures ReceiverAccepts(Normalized(p, config).value.packet)
  {
    AcceptedPacketIsRewritten(p, config);
    var r := Normalized(p, config).value;
    RewriteVerifies(p, r.packet, config.virtualIpv4.address, r.destination);
  }

  lemma ParseDependsOnPrefix(p: seq<byte>, q: seq<byte>, config: RelayConfig)
    requires WellFormed(p)
    requires |q| >= TotalLen(p) && forall i :: 0 <= i < TotalLen(p) ==> q[i] == p[i]
    ensures ParseUdpBroadcast(q, config) == ParseUdpBroadcast(p, config)
  {
    var h := HeaderLen(p);
    assert q[0] == p[0] && q[2] == p[2] && q[3] == p[3] && q[6] == p[6] && q[7] == p[7] && q[9] == p[9];
    assert AddrAt(q, 12) == AddrAt(p, 12) && AddrAt(q, 16) == AddrAt(p, 16);
    assert q[h + 4] == p[h + 4] && q[h + 5] == p[h + 5];
  }

  // The outcome depends on nothing beyond the total length.
  lemma TrailingBytesIgnored(p: seq<byte>, q: seq<byte>, config: RelayConfig)
    requires Accepted(p, config)
    requires |q| >= TotalLen(p) && q[..TotalLen(p)] == p[..TotalLen(p)]
    ensures Normalized(q, config) == Normalized(p, config)
  {
    AcceptedIff(p, config);
    var n := TotalLen(p);
    forall i | 0 <= i < n ensures q[i] == p[i] {
      assert q[..n][i] == p[..n][i];
    }
    ParseDependsOnPrefix(p, q, config);
  }

  lemma RewriteSummary(p: seq<byte>, q: seq<byte>, src: Ipv4, dst: Ipv4)
    requires WellFormed(p) && IsRewriteOf(p, q, TotalLen(p), HeaderLen(p), src, dst)
    ensures Summarize(p).Some?
    ensures Summarize(q) == Some(Summarize(p).value.(src := src, dst := dst))
  {
    var h := HeaderLen(p);
    assert q[0] == p[0] && q[9] == p[9] && q[2] == p[2] && q[3] == p[3];
    assert q[h] == p[h] && q[h + 1] == p[h + 1] && q[h + 2] == p[h + 2] && q[h + 3] == p[h + 3];
    assert q[h + 4] == p[h + 4] && q[h + 5] == p[h + 5];
  }

  // Input and output both summarize, with the same ports and lengths.
  lemma SummariesAgree(p: seq<byte>, config: RelayConfig)
    requires Accepted(p, config)
    ensures
      var r := Normalized(p, config).value;
      && Summarize(p).Some?
      && Summarize(r.packet) == Some(Summarize(p).value.(src := config.virtualIpv4.address, dst := r.destination))
  {
    AcceptedPacketIsRewritten(p, config);
    var r := Normalized(p, config).value;
    RewriteSummary(p, r.packet, config.virtualIpv4.address, r.destination);
  }

  lemma RewriteIsRejected(p: seq<byte>, q: seq<byte>, config: RelayConfig, dst: Ipv4)
    requires WellFormed(p) && IsRewriteOf(p, q, TotalLen(p), HeaderLen(p), config.virtualIpv4.address, dst)
    ensures ParseUdpBroadcast(q, config)
         == Err(if ShouldIgnoreInterfaceAddr(config.virtualIpv4.address) then IgnoredSource else VirtualSourceDuplicate)
  {
    assert q[0] == p[0] && q[9] == p[9] && q[2] == p[2] && q[3] == p[3] && q[6] == p[6] && q[7] == p[7];
  }

  // The relay rejects its own output under the same configuration.
  lemma OutputIsNotRelayedAgain(p: seq<byte>, config: RelayConfig)
    requires Accepted(p, config)
    ensures Normalized(Normalized(p, config).value.packet, config)
         == Err(if ShouldIgnoreInterfaceAddr(config.virtualIpv4.address) then IgnoredSource else VirtualSourceDuplicate)
  {
    AcceptedPacketIsRewritten(p, config);
    var r := Normalized(p, config).value;
    RewriteIsRejected(p, r.packet, config, r.destination);
  }
}
