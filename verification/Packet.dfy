/** The fields the mesh reads from an IPv4 packet (internal/packet/ipv4.go; section 3.1
    of RFC 791). */
module Packet {
  import opened GoStrings
  import opened Buffers
  import opened Ipv4Blocks

  datatype Error = TooShort | NotIPv4 | BadIHL | NotUDP | Fragmented | UDPTooShort

  datatype Result<+T> = Ok(value: T) | Err(error: Error)

  function HeaderLength(b: Str): Result<nat> {
    if |b| < 20 then Err(TooShort)
    else if b[0] / 16 != 4 then Err(NotIPv4)
    else
      var ihl := (b[0] % 16) * 4;
      if ihl < 20 || ihl > |b| then Err(BadIHL) else Ok(ihl)
  }

  function AddressOf(s: Str): Addr
    requires |s| == 4
  {
    Be32RoundTrip(0, s);
    FromBe32(s)
  }

  datatype Endpoints = Endpoints(source: Addr, destination: Addr)

  function IPv4Endpoints(b: Str): Result<Endpoints> {
    match HeaderLength(b)
    case Err(e) => Err(e)
    case Ok(_) => Ok(Endpoints(AddressOf(b[12..16]), AddressOf(b[16..20])))
  }

  datatype Ports = Ports(source: nat, destination: nat)

  function IPv4UDPPorts(b: Str): Result<Ports> {
    match HeaderLength(b)
    case Err(e) => Err(e)
    case Ok(ihl) =>
      if b[9] != 17 then Err(NotUDP)
      else if FromBe16(b[6..8]) % 0x2000 != 0 then Err(Fragmented)
      else if |b| < ihl + 8 then Err(UDPTooShort)
      else Ok(Ports(FromBe16(b[ihl..ihl + 2]), FromBe16(b[ihl + 2..ihl + 4])))
  }

  /** The packet starts with a whole IPv4 header of this length (section 3.1 of RFC 791). */
  predicate Headed(b: Str, ihl: nat) {
    20 <= ihl <= |b| && ihl % 4 == 0 && b[0] == 0x40 + ihl / 4 && ihl / 4 < 16
  }

  lemma HeaderLengthIff(b: Str, ihl: nat)
    ensures HeaderLength(b) == Ok(ihl) <==> Headed(b, ihl)
  {
    if |b| >= 20 {
      var v: nat := b[0];
      assert v == 16 * (v / 16) + v % 16;
    }
  }

  /** And why not: fewer than 20 bytes, a version other than 4, or a header length under 20 or
      beyond the packet. */
  lemma HeaderErrors(b: Str)
    ensures HeaderLength(b) == Err(TooShort) <==> |b| < 20
    ensures HeaderLength(b) == Err(NotIPv4) <==> |b| >= 20 && !(64 <= b[0] < 80)
    ensures HeaderLength(b) == Err(BadIHL) <==> |b| >= 20 && 64 <= b[0] < 80 && !(20 <= (b[0] - 64) * 4 <= |b|)
    ensures IPv4Endpoints(b).Err? <==> HeaderLength(b).Err?
    ensures HeaderLength(b).Err? ==> IPv4Endpoints(b).error == HeaderLength(b).error
  {
  }

  /** Addresses are read exactly from packets with a whole header, and are the ones in it. */
  lemma EndpointsIffHeaded(b: Str, ends: Endpoints)
    ensures IPv4Endpoints(b) == Ok(ends) <==>
            exists ihl: nat :: Headed(b, ihl) && b[12..16] == Be32(ends.source) && b[16..20] == Be32(ends.destination)
  {
    if HeaderLength(b).Ok? {
      HeaderLengthIff(b, HeaderLength(b).value);
      Be32RoundTrip(ends.source, b[12..16]);
      Be32RoundTrip(ends.destination, b[16..20]);
    }
    forall ihl: nat | Headed(b, ihl) ensures HeaderLength(b) == Ok(ihl) { HeaderLengthIff(b, ihl); }
  }

  /** An unfragmented UDP packet that holds its UDP header after an IPv4 header of this length. */
  predicate UDPHeaded(b: Str, ihl: nat) {
    Headed(b, ihl) && |b| >= ihl + 8 && b[9] == 17 && FromBe16(b[6..8]) % 0x2000 == 0
  }

  /** The ports in the UDP header at this offset. */
  predicate PortsAt(b: Str, ihl: nat, ports: Ports)
    requires |b| >= ihl + 8 && ports.source < 0x1_0000 && ports.destination < 0x1_0000
  {
    b[ihl..ihl + 2] == Be16(ports.source) && b[ihl + 2..ihl + 4] == Be16(ports.destination)
  }

  lemma PortsAtIff(b: Str, ihl: nat, ports: Ports)
    requires |b| >= ihl + 8 && ports.source < 0x1_0000 && ports.destination < 0x1_0000
    ensures PortsAt(b, ihl, ports) <==> Ports(FromBe16(b[ihl..ihl + 2]), FromBe16(b[ihl + 2..ihl + 4])) == ports
  {
    Be16RoundTrip(ports.source, b[ihl..ihl + 2]);
    Be16RoundTrip(ports.destination, b[ihl + 2..ihl + 4]);
  }

  /** Ports are read exactly from such packets, and are the ones in them. */
  lemma PortsIffUDP(b: Str, ports: Ports)
    requires ports.source < 0x1_0000 && ports.destination < 0x1_0000
    ensures IPv4UDPPorts(b) == Ok(ports) <==> exists ihl: nat :: UDPHeaded(b, ihl) && PortsAt(b, ihl, ports)
  {
    if IPv4UDPPorts(b) == Ok(ports) {
      var ihl := HeaderLength(b).value;
      HeaderLengthIff(b, ihl);
      PortsAtIff(b, ihl, ports);
      assert UDPHeaded(b, ihl);
    }
    forall ihl: nat | UDPHeaded(b, ihl) && PortsAt(b, ihl, ports) ensures IPv4UDPPorts(b) == Ok(ports) {
      HeaderLengthIff(b, ihl);
      PortsAtIff(b, ihl, ports);
    }
  }

  /** And why not, the header being whole: another protocol, a later fragment, or no room for
      the UDP header. */
  lemma PortErrors(b: Str, ihl: nat)
    requires Headed(b, ihl)
    ensures IPv4UDPPorts(b) == Err(NotUDP) <==> b[9] != 17
    ensures IPv4UDPPorts(b) == Err(Fragmented) <==> b[9] == 17 && FromBe16(b[6..8]) % 0x2000 != 0
    ensures IPv4UDPPorts(b) == Err(UDPTooShort) <==> b[9] == 17 && FromBe16(b[6..8]) % 0x2000 == 0 && |b| < ihl + 8
  {
    HeaderLengthIff(b, ihl);
  }

  /** A packet whose ports can be read has readable addresses, and all four are the ones in
      its headers. */
  lemma PortsImplyEndpoints(b: Str)
    requires IPv4UDPPorts(b).Ok?
    ensures IPv4Endpoints(b).Ok? && IPv4UDPPorts(b).value.source < 0x1_0000 && IPv4UDPPorts(b).value.destination < 0x1_0000
    ensures b[12..16] == Be32(IPv4Endpoints(b).value.source) && b[16..20] == Be32(IPv4Endpoints(b).value.destination)
    ensures exists ihl: nat :: UDPHeaded(b, ihl) && PortsAt(b, ihl, IPv4UDPPorts(b).value)
  {
    var ihl := HeaderLength(b).value;
    Be32RoundTrip(0, b[12..16]);
    Be32RoundTrip(0, b[16..20]);
    Be16RoundTrip(0, b[ihl..ihl + 2]);
    Be16RoundTrip(0, b[ihl + 2..ihl + 4]);
    PortsIffUDP(b, IPv4UDPPorts(b).value);
  }
}
