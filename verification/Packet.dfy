/** IPv4/TCP headers of a packet, and rewriting an address and port in place. */
module Packet {
  import opened Bytes
  import opened Checksum

  /** An IPv4 address in packet order. */
  datatype Ip4 = Ip4(a: byte, b: byte, c: byte, d: byte)

  const GATEWAY := Ip4(192, 168, 7, 1)
  const PHONE := Ip4(192, 168, 7, 2)

  /** How long a connection may be idle. */
  const IDLE_MS := 120000

  /** The checks of tcp_headers on the first buffer of a packet: IPv4, TCP, both headers
      present, not a fragment. Gives the IP header length. */
  function TcpHeaders(p: seq<byte>): (r: Option<nat>)
    ensures r.Some? ==> 20 <= r.value && r.value + 20 <= |p|
  {
    if |p| < 20 then None
    else if p[0] / 16 != 4 || p[9] != 6 then None
    else
      var hl := 4 * (p[0] % 16);
      if hl < 20 || |p| < hl + 20 then None
      else if Net16(p[6], p[7]) % 0x4000 != 0 then None
      else Some(hl)
  }

  /** In the terms of section 3.1 of RFC 791: of a packet with these header fields exactly the unfragmented TCP ones
      of version 4, whose header and TCP header are all there, pass. The low bit of flags says more fragments follow. */
  lemma {:induction false} TcpHeadersExactly(version: nat, ihl: nat, front: seq<byte>, flags: nat, offset: nat,
                                             ttl: byte, protocol: byte, rest: seq<byte>)
    requires version < 16 && ihl < 16 && |front| == 5 && flags < 8 && offset < 0x2000 && |rest| >= 10
    ensures var p := [16 * version + ihl] + front + [32 * flags + offset / 256, offset % 256, ttl, protocol] + rest;
            TcpHeaders(p) == if version == 4 && ihl >= 5 && protocol == 6 && flags % 2 == 0 && offset == 0
                                && |p| >= 4 * ihl + 20 then Some(4 * ihl) else None
  {
    hide TcpHeaders;
    var first: byte, flagByte: byte := 16 * version + ihl, 32 * flags + offset / 256;
    FieldsAt(first, front, flagByte, offset % 256, ttl, protocol, rest);
    FragmentField(flags, offset);
    FirstByte(version, ihl);
    TcpHeadersFrom([first] + front + [flagByte, offset % 256, ttl, protocol] + rest, version, ihl, flags, offset);
  }

  lemma FieldsAt(first: byte, front: seq<byte>, b6: byte, b7: byte, b8: byte, b9: byte, rest: seq<byte>)
    requires |front| == 5
    ensures var p := [first] + front + [b6, b7, b8, b9] + rest;
            |p| == 10 + |rest| && p[0] == first && p[6] == b6 && p[7] == b7 && p[9] == b9
  {
  }

  lemma FirstByte(version: nat, ihl: nat)
    requires ihl < 16
    ensures (16 * version + ihl) / 16 == version && (16 * version + ihl) % 16 == ihl
  {
  }

  lemma TcpHeadersFrom(p: seq<byte>, version: nat, ihl: nat, flags: nat, offset: nat)
    requires |p| >= 20 && p[0] / 16 == version && p[0] % 16 == ihl
    requires Net16(p[6], p[7]) % 0x4000 == 0 <==> flags % 2 == 0 && offset == 0
    ensures TcpHeaders(p) == if version == 4 && ihl >= 5 && p[9] == 6 && flags % 2 == 0 && offset == 0
                                && |p| >= 4 * ihl + 20 then Some(4 * ihl) else None
  {
    hide Net16;
  }

  lemma FragmentField(flags: nat, offset: nat)
    requires flags < 8 && offset < 0x2000
    ensures Net16(32 * flags + offset / 256, offset % 256) % 0x4000 == 0 <==> flags % 2 == 0 && offset == 0
  {
    assert Net16(32 * flags + offset / 256, offset % 256) == 0x2000 * flags + offset;
    assert 0x2000 * flags + offset == 0x4000 * (flags / 2) + (0x2000 * (flags % 2) + offset);
  }

  function Address(p: seq<byte>, at: nat): Ip4
    requires at + 4 <= |p|
  {
    Ip4(p[at], p[at + 1], p[at + 2], p[at + 3])
  }

  function Port(p: seq<byte>, at: nat): u16
    requires at + 2 <= |p|
  {
    Net16(p[at], p[at + 1])
  }

  function Word(p: seq<byte>, at: nat): u16
    requires at + 2 <= |p|
  {
    Raw16(p[at], p[at + 1])
  }

  /** TCP SYN without ACK. */
  predicate IsSyn(p: seq<byte>, hl: nat)
    requires hl + 20 <= |p|
  {
    p[hl + 13] / 2 % 2 == 1 && p[hl + 13] / 16 % 2 == 0
  }

  /** Against the control bits of section 3.1 of RFC 9293. */
  lemma IsSynExactly(p: seq<byte>, hl: nat, cwr: nat, ece: nat, urg: nat, ack: nat, psh: nat, rst: nat, syn: nat,
                     fin: nat)
    requires hl + 20 <= |p|
    requires cwr < 2 && ece < 2 && urg < 2 && ack < 2 && psh < 2 && rst < 2 && syn < 2 && fin < 2
    requires p[hl + 13] == 128 * cwr + 64 * ece + 32 * urg + 16 * ack + 8 * psh + 4 * rst + 2 * syn + fin
    ensures IsSyn(p, hl) <==> syn == 1 && ack == 0
  {
    var b := p[hl + 13];
    assert b / 16 == 8 * cwr + 4 * ece + 2 * urg + ack;
    assert b / 2 == 64 * cwr + 32 * ece + 16 * urg + 8 * ack + 4 * psh + 2 * rst + syn;
  }

  /** The IPv4 header checksum verifies. */
  ghost predicate IpChecksumOk(p: seq<byte>, hl: nat)
    requires hl <= |p|
  {
    SumOk(WordSum(p[..hl]))
  }

  /** The TCP sum over pseudo header and segment; the segment may continue in later buffers. */
  ghost function TcpSum(p: seq<byte>, rest: seq<byte>, hl: nat): nat
    requires 20 <= hl <= |p|
    requires hl <= Port(p, 2) <= |p + rest|
  {
    WordSum(p[12..20]) + 6 + (Port(p, 2) - hl) + WordSum((p + rest)[hl..Port(p, 2)])
  }

  /** The IP total length covers the TCP header and is all there. */
  predicate LengthOk(p: seq<byte>, rest: seq<byte>, hl: nat)
    requires 20 <= hl <= |p|
  {
    hl + 20 <= Port(p, 2) <= |p + rest|
  }

  ghost predicate TcpChecksumOk(p: seq<byte>, rest: seq<byte>, hl: nat)
    requires 20 <= hl <= |p|
  {
    LengthOk(p, rest, hl) && SumOk(TcpSum(p, rest, hl))
  }

  /** Store a raw word. */
  function PutWord(p: seq<byte>, at: nat, w: u16): (q: seq<byte>)
    requires at + 1 < |p|
    ensures |q| == |p| && Word(q, at) == w
    ensures forall i :: 0 <= i < |p| && i != at && i != at + 1 ==> q[i] == p[i]
  {
    Put16(p, at, w % 256, w / 256)
  }

  function PutAddress(p: seq<byte>, at: nat, ip: Ip4): (q: seq<byte>)
    requires at + 3 < |p|
    ensures |q| == |p| && Address(q, at) == ip
    ensures forall i :: 0 <= i < |p| && !(at <= i < at + 4) ==> q[i] == p[i]
  {
    Put16(Put16(p, at, ip.a, ip.b), at + 2, ip.c, ip.d)
  }

  function PutPort(p: seq<byte>, at: nat, port: u16): (q: seq<byte>)
    requires at + 1 < |p|
    ensures |q| == |p| && Port(q, at) == port
    ensures forall i :: 0 <= i < |p| && i != at && i != at + 1 ==> q[i] == p[i]
  {
    Put16(p, at, port / 256, port % 256)
  }

  function AdjustFor(sum: u16, old_: Ip4, new_: Ip4): u16 {
    CsumAdj32(sum, Raw16(old_.c, old_.d), Raw16(old_.a, old_.b), Raw16(new_.c, new_.d), Raw16(new_.a, new_.b))
  }

  /** The packet with the address at ipAt and the TCP port at portAt replaced and both
      checksums adjusted. */
  function Readdressed(p: seq<byte>, hl: nat, ipAt: nat, portAt: nat, ip: Ip4, port: u16): (q: seq<byte>)
    requires TcpHeaders(p) == Some(hl)
    requires ipAt in {12, 16} && portAt in {hl, hl + 2}
    ensures |q| == |p| && TcpHeaders(q) == Some(hl)
    ensures Address(q, ipAt) == ip && Port(q, portAt) == port
    ensures forall i :: 0 <= i < |p| && i !in {10, 11, hl + 16, hl + 17, portAt, portAt + 1} && !(ipAt <= i < ipAt + 4)
                    ==> q[i] == p[i]
  {
    var oldIp := Address(p, ipAt);
    var q1 := PutPort(PutAddress(p, ipAt, ip), portAt, port);
    var q2 := PutWord(q1, 10, AdjustFor(Word(p, 10), oldIp, ip));
    PutWord(q2, hl + 16,
            CsumAdj(AdjustFor(Word(p, hl + 16), oldIp, ip), Word(p, portAt), Raw16(port / 256, port % 256)))
  }

  lemma {:induction false} WordSumAddress(s: seq<byte>, at: nat, ip: Ip4)
    requires at % 2 == 0 && at + 3 < |s|
    ensures WordSum(PutAddress(s, at, ip))
         == WordSum(s) - Net16(s[at], s[at + 1]) - Net16(s[at + 2], s[at + 3]) + Net16(ip.a, ip.b) + Net16(ip.c, ip.d)
  {
    WordSumPut16(s, at, ip.a, ip.b);
    WordSumPut16(Put16(s, at, ip.a, ip.b), at + 2, ip.c, ip.d);
  }

  /** Moving a sum by a multiple of 0xFFFF does not change whether it verifies. */
  lemma SameVerdict(s: nat, t: nat, k: int)
    requires s > 0 && t > 0 && t == s + 0xFFFF * k
    ensures SumOk(s) <==> SumOk(t)
  {
    SumOkIff(s);
    SumOkIff(t);
    ModShift(s, k);
  }

  lemma SameIpVerdict(p: seq<byte>, q: seq<byte>, hl: nat, k: int)
    requires hl <= |p| && hl <= |q|
    requires WordSum(p[..hl]) > 0 && WordSum(q[..hl]) > 0
    requires WordSum(q[..hl]) == WordSum(p[..hl]) + 0xFFFF * k
    ensures IpChecksumOk(q, hl) <==> IpChecksumOk(p, hl)
  {
    SameVerdict(WordSum(p[..hl]), WordSum(q[..hl]), k);
  }

  lemma SameTcpVerdict(p: seq<byte>, q: seq<byte>, rest: seq<byte>, hl: nat, k: int)
    requires 20 <= hl <= |p| == |q|
    requires Port(q, 2) == Port(p, 2) && LengthOk(p, rest, hl)
    requires TcpSum(q, rest, hl) == TcpSum(p, rest, hl) + 0xFFFF * k
    ensures TcpChecksumOk(q, rest, hl) <==> TcpChecksumOk(p, rest, hl)
  {
    SameVerdict(TcpSum(p, rest, hl), TcpSum(q, rest, hl), k);
  }

  /** From the raw-word congruence of the update to the network-order change of the sum. */
  lemma AdjustedNetSum(c: u16, c': u16, o: Ip4, n: Ip4) returns (k: int)
    requires c' == AdjustFor(c, o, n)
    ensures Swap(c') - Swap(c) + Net16(n.a, n.b) + Net16(n.c, n.d) - Net16(o.a, o.b) - Net16(o.c, o.d) == 0xFFFF * k
  {
    var k1 := AdjustedNetWord(c, CsumAdj(c, Raw16(o.c, o.d), Raw16(n.c, n.d)), Raw16(o.c, o.d), Raw16(n.c, n.d));
    var k2 := AdjustedNetWord(CsumAdj(c, Raw16(o.c, o.d), Raw16(n.c, n.d)), c', Raw16(o.a, o.b), Raw16(n.a, n.b));
    SwapRaw(o.a, o.b);
    SwapRaw(o.c, o.d);
    SwapRaw(n.a, n.b);
    SwapRaw(n.c, n.d);
    k := k1 + k2;
  }

  lemma SwapRaw(first: byte, second: byte)
    ensures Swap(Raw16(first, second)) == Net16(first, second)
  {
    var w: int := first + 256 * second;
    assert w / 256 == second;
    assert w % 256 == first;
  }

  lemma AdjustedNetWord(c: u16, c': u16, o: u16, n: u16) returns (k: int)
    requires c' == CsumAdj(c, o, n)
    ensures Swap(c') - Swap(c) + Swap(n) - Swap(o) == 0xFFFF * k
  {
    k := SwapCongruence(c, c', o, n);
  }

  lemma ReaddressedHeader(p: seq<byte>, hl: nat, ipAt: nat, portAt: nat, ip: Ip4, port: u16)
    requires TcpHeaders(p) == Some(hl)
    requires ipAt in {12, 16} && portAt in {hl, hl + 2}
    ensures Readdressed(p, hl, ipAt, portAt, ip, port)[..hl]
         == PutWord(PutAddress(p[..hl], ipAt, ip), 10, AdjustFor(Word(p, 10), Address(p, ipAt), ip))
  {
  }

  lemma FirstWordPositive(h: seq<byte>)
    requires |h| > 1 && h[0] > 0
    ensures WordSum(h) > 0
  {
  }

  /** The sum of a block whose address and checksum words are replaced. */
  lemma AdjustedBlock(s: seq<byte>, ipAt: nat, sumAt: nat, ip: Ip4, w: u16)
    requires ipAt % 2 == 0 && ipAt + 3 < |s| && sumAt % 2 == 0 && sumAt + 1 < |s|
    requires sumAt + 1 < ipAt
    ensures WordSum(PutWord(PutAddress(s, ipAt, ip), sumAt, w))
         == WordSum(s) - Net16(s[ipAt], s[ipAt + 1]) - Net16(s[ipAt + 2], s[ipAt + 3]) + Net16(ip.a, ip.b)
            + Net16(ip.c, ip.d) - Swap(Word(s, sumAt)) + Swap(w)
  {
    var t := PutAddress(s, ipAt, ip);
    WordSumAddress(s, ipAt, ip);
    WordSumPut16(t, sumAt, w % 256, w / 256);
    SwapRaw(s[sumAt], s[sumAt + 1]);
  }

  lemma {:induction false} HeaderVerdict(p: seq<byte>, q: seq<byte>, hl: nat, ipAt: nat, ip: Ip4)
    requires TcpHeaders(p) == Some(hl) && ipAt in {12, 16} && |q| == |p|
    requires q[..hl] == PutWord(PutAddress(p[..hl], ipAt, ip), 10, AdjustFor(Word(p, 10), Address(p, ipAt), ip))
    ensures IpChecksumOk(q, hl) <==> IpChecksumOk(p, hl)
  {
    var c' := AdjustFor(Word(p, 10), Address(p, ipAt), ip);
    AdjustedBlock(p[..hl], ipAt, 10, ip, c');
    var k := AdjustedNetSum(Word(p, 10), c', Address(p, ipAt), ip);
    FirstWordPositive(p[..hl]);
    FirstWordPositive(q[..hl]);
    SameIpVerdict(p, q, hl, k);
  }

  /** Rewriting keeps the verdict on the IP header checksum, either way. */
  lemma {:induction false} ReaddressedIpChecksum(p: seq<byte>, hl: nat, ipAt: nat, portAt: nat, ip: Ip4, port: u16)
    requires TcpHeaders(p) == Some(hl)
    requires ipAt in {12, 16} && portAt in {hl, hl + 2}
    ensures IpChecksumOk(Readdressed(p, hl, ipAt, portAt, ip, port), hl) <==> IpChecksumOk(p, hl)
  {
    ReaddressedHeader(p, hl, ipAt, portAt, ip, port);
    HeaderVerdict(p, Readdressed(p, hl, ipAt, portAt, ip, port), hl, ipAt, ip);
  }

  lemma ReaddressedAddresses(p: seq<byte>, hl: nat, ipAt: nat, portAt: nat, ip: Ip4, port: u16)
    requires TcpHeaders(p) == Some(hl)
    requires ipAt in {12, 16} && portAt in {hl, hl + 2}
    ensures var q := Readdressed(p, hl, ipAt, portAt, ip, port);
            Port(q, 2) == Port(p, 2) && q[12..20] == PutAddress(p[12..20], ipAt - 12, ip)
  {
    hide Readdressed;
    var q := Readdressed(p, hl, ipAt, portAt, ip, port);
    var a := PutAddress(p[12..20], ipAt - 12, ip);
    assert Address(a, ipAt - 12) == Address(q, ipAt);
    forall k | 0 <= k < 8
      ensures q[12..20][k] == a[k]
    {
      assert q[12..20][k] == q[12 + k] && p[12..20][k] == p[12 + k];
    }
  }

  /** The segment bytes of the rewritten packet are the old ones with two words replaced. */
  lemma ReaddressedSegment(p: seq<byte>, rest: seq<byte>, hl: nat, ipAt: nat, portAt: nat, ip: Ip4, port: u16)
    requires TcpHeaders(p) == Some(hl) && LengthOk(p, rest, hl)
    requires ipAt in {12, 16} && portAt in {hl, hl + 2}
    ensures var q := Readdressed(p, hl, ipAt, portAt, ip, port);
            Port(q, 2) == Port(p, 2)
            && (q + rest)[hl..Port(p, 2)]
               == Put16(PutPort((p + rest)[hl..Port(p, 2)], portAt - hl, port), 16, q[hl + 16], q[hl + 17])
            && q[12..20] == PutAddress(p[12..20], ipAt - 12, ip)
  {
    hide Readdressed, TcpHeaders, PutAddress;
    ReaddressedAddresses(p, hl, ipAt, portAt, ip, port);
    var q := Readdressed(p, hl, ipAt, portAt, ip, port);
    var n: nat := Port(p, 2);
    var old_, new_ := (p + rest)[hl..n], (q + rest)[hl..n];
    var put := Put16(PutPort(old_, portAt - hl, port), 16, q[hl + 16], q[hl + 17]);
    PortBytesAt(q, portAt, port);
    forall k | 0 <= k < n - hl
      ensures new_[k] == put[k]
    {
      assert new_[k] == (q + rest)[hl + k] && old_[k] == (p + rest)[hl + k];
    }
  }

  lemma PortBytesAt(q: seq<byte>, at: nat, port: u16)
    requires at + 1 < |q| && Port(q, at) == port
    ensures q[at] == port / 256 && q[at + 1] == port % 256
  {
  }

  function AddressSum(ip: Ip4): nat { Net16(ip.a, ip.b) + Net16(ip.c, ip.d) }

  lemma PortBytes(port: u16)
    ensures Net16(port / 256, port % 256) == port
  {
  }

  /** The sum of a segment whose port and checksum words are replaced. */
  lemma SegmentSum(s: seq<byte>, portAt: nat, port: u16, hi: byte, lo: byte)
    requires portAt in {0, 2} && 20 <= |s|
    ensures WordSum(Put16(PutPort(s, portAt, port), 16, hi, lo))
         == WordSum(s) - Port(s, portAt) + port - Port(s, 16) + Net16(hi, lo)
  {
    hide WordSum, Net16, PutPort, Put16;
    var t := PutPort(s, portAt, port);
    assert Port(t, 16) == Port(s, 16);
    WordSumPort(s, portAt, port);
    WordSumPut16(t, 16, hi, lo);
  }

  lemma WordSumPort(s: seq<byte>, at: nat, port: u16)
    requires at % 2 == 0 && at + 1 < |s|
    ensures WordSum(PutPort(s, at, port)) == WordSum(s) - Port(s, at) + port
  {
    hide WordSum, Net16, Put16;
    PortBytes(port);
    WordSumPut16(s, at, port / 256, port % 256);
  }

  lemma PseudoSum(p: seq<byte>, ipAt: nat, ip: Ip4)
    requires ipAt in {12, 16} && |p| >= 20
    ensures WordSum(PutAddress(p[12..20], ipAt - 12, ip))
         == WordSum(p[12..20]) - AddressSum(Address(p, ipAt)) + AddressSum(ip)
  {
    WordSumAddress(p[12..20], ipAt - 12, ip);
  }

  /** The two checksum updates together move the TCP sum by a multiple of 0xFFFF. */
  lemma AdjustedTcpWord(c: u16, c': u16, o: Ip4, n: Ip4, oldPort: u16, newPort: u16) returns (k: int)
    requires c' == CsumAdj(AdjustFor(c, o, n), oldPort, newPort)
    ensures Swap(c') - Swap(c) + AddressSum(n) - AddressSum(o) + Swap(newPort) - Swap(oldPort) == 0xFFFF * k
  {
    var k1 := AdjustedNetSum(c, AdjustFor(c, o, n), o, n);
    var k2 := AdjustedNetWord(AdjustFor(c, o, n), c', oldPort, newPort);
    k := k1 + k2;
  }

  /** AdjustedTcpWord in network order. */
  lemma AdjustedTcpField(c: (byte, byte), c': (byte, byte), o: Ip4, n: Ip4, oldPort: (byte, byte), newPort: u16)
    returns (k: int)
    requires Raw16(c'.0, c'.1) == CsumAdj(AdjustFor(Raw16(c.0, c.1), o, n), Raw16(oldPort.0, oldPort.1),
                                          Raw16(newPort / 256, newPort % 256))
    ensures Net16(c'.0, c'.1) - Net16(c.0, c.1) + AddressSum(n) - AddressSum(o) + newPort - Net16(oldPort.0, oldPort.1)
         == 0xFFFF * k
  {
    k := AdjustedTcpWord(Raw16(c.0, c.1), Raw16(c'.0, c'.1), o, n, Raw16(oldPort.0, oldPort.1),
                         Raw16(newPort / 256, newPort % 256));
    SwapRaw(c'.0, c'.1);
    SwapRaw(c.0, c.1);
    SwapRaw(oldPort.0, oldPort.1);
    SwapRaw(newPort / 256, newPort % 256);
    PortBytes(newPort);
  }

  lemma {:induction false} SegmentVerdict(p: seq<byte>, q: seq<byte>, rest: seq<byte>, hl: nat, ipAt: nat, portAt: nat,
                                          ip: Ip4, port: u16, segment: seq<byte>, k: int)
    requires 20 <= hl <= |p| == |q| && LengthOk(p, rest, hl) && hl + 20 <= |p|
    requires ipAt in {12, 16} && portAt in {hl, hl + 2}
    requires Port(q, 2) == Port(p, 2) && q[12..20] == PutAddress(p[12..20], ipAt - 12, ip)
    requires segment == (p + rest)[hl..Port(p, 2)]
    requires (q + rest)[hl..Port(p, 2)] == Put16(PutPort(segment, portAt - hl, port), 16, q[hl + 16], q[hl + 17])
    requires Port(q, hl + 16) - Port(p, hl + 16)
             + AddressSum(ip) - AddressSum(Address(p, ipAt)) + port - Port(p, portAt)
             == 0xFFFF * k
    ensures TcpChecksumOk(q, rest, hl) <==> TcpChecksumOk(p, rest, hl)
  {
    SegmentPort(p, rest, hl, Port(p, 2), portAt - hl);
    SegmentPort(p, rest, hl, Port(p, 2), 16);
    hide WordSum, PutPort, Put16, PutAddress, Address, TcpChecksumOk;
    PseudoSum(p, ipAt, ip);
    SegmentSum(segment, portAt - hl, port, q[hl + 16], q[hl + 17]);
    assert Port(q, hl + 16) == Net16(q[hl + 16], q[hl + 17]);
    hide Port, Net16;
    SameTcpVerdict(p, q, rest, hl, k);
  }

  lemma SegmentPort(p: seq<byte>, rest: seq<byte>, hl: nat, end: nat, at: nat)
    requires hl + at + 2 <= |p| && hl + at + 2 <= end <= |p + rest|
    ensures Port((p + rest)[hl..end], at) == Port(p, hl + at)
  {
  }

  lemma ReaddressedSumWord(p: seq<byte>, hl: nat, ipAt: nat, portAt: nat, ip: Ip4, port: u16)
    requires TcpHeaders(p) == Some(hl)
    requires ipAt in {12, 16} && portAt in {hl, hl + 2}
    ensures Word(Readdressed(p, hl, ipAt, portAt, ip, port), hl + 16)
         == CsumAdj(AdjustFor(Word(p, hl + 16), Address(p, ipAt), ip), Word(p, portAt), Raw16(port / 256, port % 256))
  {
  }

  /** The words that change move the TCP sum by a multiple of 0xFFFF. */
  lemma ReaddressedSumMoved(p: seq<byte>, hl: nat, ipAt: nat, portAt: nat, ip: Ip4, port: u16) returns (k: int)
    requires TcpHeaders(p) == Some(hl)
    requires ipAt in {12, 16} && portAt in {hl, hl + 2}
    ensures var q := Readdressed(p, hl, ipAt, portAt, ip, port);
            Port(q, hl + 16) - Port(p, hl + 16)
            + AddressSum(ip) - AddressSum(Address(p, ipAt)) + port - Port(p, portAt)
            == 0xFFFF * k
  {
    hide Readdressed, CsumAdj, AdjustFor, AddressSum, Raw16, Net16, TcpHeaders;
    ReaddressedSumWord(p, hl, ipAt, portAt, ip, port);
    var q := Readdressed(p, hl, ipAt, portAt, ip, port);
    k := AdjustedTcpField((p[hl + 16], p[hl + 17]), (q[hl + 16], q[hl + 17]), Address(p, ipAt), ip,
                          (p[portAt], p[portAt + 1]), port);
  }

  /** Rewriting keeps the verdict on the TCP checksum, either way, whatever the payload. */
  lemma {:induction false} ReaddressedTcpChecksum(p: seq<byte>, rest: seq<byte>, hl: nat, ipAt: nat, portAt: nat,
                                                  ip: Ip4, port: u16)
    requires TcpHeaders(p) == Some(hl)
    requires ipAt in {12, 16} && portAt in {hl, hl + 2}
    ensures TcpChecksumOk(Readdressed(p, hl, ipAt, portAt, ip, port), rest, hl) <==> TcpChecksumOk(p, rest, hl)
  {
    if LengthOk(p, rest, hl) {
      ReaddressedSegment(p, rest, hl, ipAt, portAt, ip, port);
      hide Readdressed, CsumAdj, AdjustFor, TcpChecksumOk, Net16, AddressSum, LengthOk, PutPort, PutAddress;
      var q := Readdressed(p, hl, ipAt, portAt, ip, port);
      var k := ReaddressedSumMoved(p, hl, ipAt, portAt, ip, port);
      SegmentVerdict(p, q, rest, hl, ipAt, portAt, ip, port, (p + rest)[hl..Port(p, 2)], k);
    }
  }

  /** rewrite_dst. */
  method RewriteDestination(p: array<byte>, hl: nat, ip: Ip4, port: u16)
    requires TcpHeaders(p[..]) == Some(hl)
    modifies p
    ensures p[..] == Readdressed(old(p[..]), hl, 16, hl + 2, ip, port)
  {
    var oldIp, oldPort := Ip4(p[16], p[17], p[18], p[19]), Raw16(p[hl + 2], p[hl + 3]);
    p[16], p[17], p[18], p[19] := ip.a, ip.b, ip.c, ip.d;
    p[hl + 2], p[hl + 3] := port / 256, port % 256;
    StoreChecksums(p, hl, oldIp, ip, oldPort, Raw16(port / 256, port % 256));
  }

  /** rewrite_src. */
  method RewriteSource(p: array<byte>, hl: nat, ip: Ip4, port: u16)
    requires TcpHeaders(p[..]) == Some(hl)
    modifies p
    ensures p[..] == Readdressed(old(p[..]), hl, 12, hl, ip, port)
  {
    var oldIp, oldPort := Ip4(p[12], p[13], p[14], p[15]), Raw16(p[hl], p[hl + 1]);
    p[12], p[13], p[14], p[15] := ip.a, ip.b, ip.c, ip.d;
    p[hl], p[hl + 1] := port / 256, port % 256;
    StoreChecksums(p, hl, oldIp, ip, oldPort, Raw16(port / 256, port % 256));
  }

  /** The checksum stores both rewrites end with. */
  method StoreChecksums(p: array<byte>, hl: nat, oldIp: Ip4, newIp: Ip4, oldPort: u16, newPort: u16)
    requires 20 <= hl && hl + 20 <= p.Length
    modifies p
    ensures p[..] == PutWord(PutWord(old(p[..]), 10, AdjustFor(Word(old(p[..]), 10), oldIp, newIp)), hl + 16,
                             CsumAdj(AdjustFor(Word(old(p[..]), hl + 16), oldIp, newIp), oldPort, newPort))
  {
    var c := AdjustFor(Raw16(p[10], p[11]), oldIp, newIp);
    p[10], p[11] := c % 256, c / 256;
    c := CsumAdj(AdjustFor(Raw16(p[hl + 16], p[hl + 17]), oldIp, newIp), oldPort, newPort);
    p[hl + 16], p[hl + 17] := c % 256, c / 256;
  }
}
