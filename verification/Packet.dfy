/** Parsing and in-place rewriting of IPv4 TCP/UDP packets (internal/vpn/snat/packet.go). */
module Packet {
  import opened Bytes
  import opened Checksum

  const PROTO_TCP: byte := 6
  const PROTO_UDP: byte := 17

  datatype Transport = Transport(src: Addr, dst: Addr, proto: byte, sport: u16, dport: u16)

  /** The header length field in bytes. */
  function Ihl(p: seq<byte>): nat
    requires |p| >= 1
  {
    (p[0] as int) % 0x10 * 4
  }

  function TotalLen(p: seq<byte>): u16
    requires |p| >= 4
  {
    GetU16(p, 2)
  }

  predicate IsTransport(proto: byte) {
    proto == PROTO_TCP || proto == PROTO_UDP
  }

  /** parseIPv4Transport: None is the source's ok == false. */
  function Parse(p: seq<byte>): Option<Transport> {
    if |p| < 20 || p[0] / 0x10 != 4 || |p| < Ihl(p) then None
    else if p[9] == PROTO_TCP && |p| < Ihl(p) + 14 then None
    else if p[9] == PROTO_UDP && |p| < Ihl(p) + 8 then None
    else if !IsTransport(p[9]) then None
    else Some(Transport(GetAddr(p, 12), GetAddr(p, 16), p[9], GetU16(p, Ihl(p)), GetU16(p, Ihl(p) + 2)))
  }

  /** What the rewriting code relies on without checking: section 3.1 of RFC 791. */
  predicate Framed(p: seq<byte>) {
    |p| >= 20 && 20 <= Ihl(p) <= TotalLen(p) <= |p|
  }

  /** A parsed packet whose segment holds the whole transport header. */
  predicate WellFormed(p: seq<byte>) {
    && Parse(p).Some?
    && Framed(p)
    && TotalLen(p) - Ihl(p) >= (if p[9] == PROTO_TCP then 20 else 8)
  }

  /** Offset of the transport checksum field. */
  function ChecksumAt(p: seq<byte>): nat
    requires |p| >= 20
  {
    Ihl(p) + (if p[9] == PROTO_TCP then 16 else 6)
  }

  function Rewritten(p: seq<byte>, t: Transport): (r: seq<byte>)
    requires Parse(p).Some?
    ensures |r| == |p|
    ensures forall k :: 0 <= k < |p| && !(12 <= k < 20) && !(Ihl(p) <= k < Ihl(p) + 4) ==> r[k] == p[k]
    ensures Ihl(p) >= 20 ==> Parse(r) == Some(t.(proto := p[9]))
  {
    var addrs := PutAddr(PutAddr(p, 12, t.src), 16, t.dst);
    var sported := PutU16(addrs, Ihl(p), t.sport);
    var ported := PutU16(sported, Ihl(p) + 2, t.dport);
    assert GetAddr(addrs, 12) == t.src && GetAddr(addrs, 16) == t.dst;
    assert Ihl(p) >= 20 ==> GetAddr(ported, 12) == t.src && GetAddr(ported, 16) == t.dst;
    assert GetU16(ported, Ihl(p)) == t.sport && GetU16(ported, Ihl(p) + 2) == t.dport;
    ported
  }

  /** The header checksum recomputed over a zeroed field and stored in it. */
  function HeaderFixed(p: seq<byte>): (r: seq<byte>)
    requires |p| >= 20 && Ihl(p) <= |p|
    ensures |r| == |p|
    ensures forall k :: 0 <= k < |p| && !(10 <= k < 12) ==> r[k] == p[k]
  {
    var zeroed := PutU16(p, 10, 0);
    PutU16(zeroed, 10, InternetChecksum(zeroed[..Ihl(p)]))
  }

  /** Pseudo-header followed by the segment, as fixTransportChecksum sums them. */
  function Summed(p: seq<byte>): (s: seq<byte>)
    requires Framed(p)
  {
    PseudoHeader(GetAddr(p, 12), GetAddr(p, 16), p[9], TotalLen(p) - Ihl(p)) + p[Ihl(p)..TotalLen(p)]
  }

  /** Whether the segment is long enough for fixTransportChecksum to touch it. */
  predicate SegmentFixable(p: seq<byte>)
    requires Framed(p)
  {
    || (p[9] == PROTO_UDP && TotalLen(p) - Ihl(p) >= 8)
    || (p[9] == PROTO_TCP && TotalLen(p) - Ihl(p) >= 20)
  }

  function SegmentFixed(p: seq<byte>): (r: seq<byte>)
    requires Framed(p)
    ensures |r| == |p|
    ensures forall k :: 0 <= k < |p| && !(ChecksumAt(p) <= k < ChecksumAt(p) + 2) ==> r[k] == p[k]
  {
    if !SegmentFixable(p) then p
    else
      var at := ChecksumAt(p);
      var zeroed := PutU16(p, at, 0);
      PutU16(zeroed, at, InternetChecksum(Summed(zeroed)))
  }

  /** The three calls the NAT makes on a translated packet, in order. */
  function Translated(p: seq<byte>, t: Transport): (r: seq<byte>)
    requires Parse(p).Some? && Framed(p)
  {
    SegmentFixed(HeaderFixed(Rewritten(p, t)))
  }

  /** RFC 791: the header, checksum included, sums to all ones. */
  predicate HeaderValid(p: seq<byte>)
    requires Framed(p)
  {
    OnesSum(p[..Ihl(p)]) == 0xFFFF
  }

  /** What a receiver sums for a segment: the packet's addresses, protocol and segment length, then the segment. */
  function Received(p: seq<byte>): seq<byte>
    requires Framed(p)
  {
    var length := TotalLen(p) - Ihl(p);
    p[12..20] + [0, p[9], length / 0x100, length % 0x100] + p[Ihl(p)..TotalLen(p)]
  }

  /** RFC 768 and RFC 9293: it sums to all ones. */
  predicate SegmentValid(p: seq<byte>)
    requires Framed(p)
  {
    OnesSum(Received(p)) == 0xFFFF
  }

  /** The bytes the code sums are those the receiver sums. */
  lemma SummedIsReceived(p: seq<byte>)
    requires Framed(p)
    ensures Summed(p) == Received(p)
  {
    var length := TotalLen(p) - Ihl(p);
    PseudoHeaderFields(GetAddr(p, 12), GetAddr(p, 16), p[9], length);
    var h := PseudoHeader(GetAddr(p, 12), GetAddr(p, 16), p[9], length);
    SameAddr(h, 0, p, 12);
    SameAddr(h, 4, p, 16);
    SameLength(h, length);
    assert h == p[12..20] + [0, p[9], length / 0x100, length % 0x100];
  }

  lemma SameAddr(p: seq<byte>, i: nat, q: seq<byte>, j: nat)
    requires i + 4 <= |p| && j + 4 <= |q| && GetAddr(p, i) == GetAddr(q, j)
    ensures p[i] == q[j] && p[i + 1] == q[j + 1] && p[i + 2] == q[j + 2] && p[i + 3] == q[j + 3]
  {
    assert GetU16(p, i) == GetU16(q, j) && GetU16(p, i + 2) == GetU16(q, j + 2);
  }

  lemma SameLength(h: seq<byte>, length: u16)
    requires |h| == 12 && GetU16(h, 10) == length
    ensures h[10] == length / 0x100 && h[11] == length % 0x100
  {
  }

  lemma HeaderFixedValid(p: seq<byte>)
    requires Framed(p)
    ensures HeaderValid(HeaderFixed(p))
  {
    var zeroed := PutU16(p, 10, 0);
    var h := zeroed[..Ihl(p)];
    assert GetU16(h, 10) == GetU16(zeroed, 10) == 0;
    var c := InternetChecksum(h);
    assert HeaderFixed(p)[..Ihl(p)] == PutU16(h, 10, c);
    StoredChecksumVerifies(h, 10);
  }

  lemma SegmentFixedValid(p: seq<byte>)
    requires Framed(p) && SegmentFixable(p)
    ensures Framed(SegmentFixed(p)) && SegmentValid(SegmentFixed(p))
  {
    var at := ChecksumAt(p);
    ZeroedSegment(p);
    StoredInSegment(PutU16(p, at, 0), at);
  }

  /** Zeroing the checksum field keeps the frame; the field lies on a word of the summed bytes. */
  lemma ZeroedSegment(p: seq<byte>)
    requires Framed(p) && SegmentFixable(p)
    ensures var at, zeroed := ChecksumAt(p), PutU16(p, ChecksumAt(p), 0);
            && Framed(zeroed) && Ihl(zeroed) == Ihl(p) && TotalLen(zeroed) == TotalLen(p)
            && Ihl(p) <= at && at + 2 <= TotalLen(p) && (at - Ihl(p)) % 2 == 0 && GetU16(zeroed, at) == 0
  {
    FramePreserved(p, PutU16(p, ChecksumAt(p), 0));
  }

  lemma StoredInSegment(p: seq<byte>, at: nat)
    requires Framed(p) && Ihl(p) <= at && at + 2 <= TotalLen(p) && (at - Ihl(p)) % 2 == 0 && GetU16(p, at) == 0
    ensures var r := PutU16(p, at, InternetChecksum(Summed(p))); Framed(r) && SegmentValid(r)
  {
    var b, i := Summed(p), 12 + at - Ihl(p);
    ZeroField(p, at);
    SummedPut(p, at, InternetChecksum(b));
    StoredIsValid(PutU16(p, at, InternetChecksum(b)), b, i);
  }

  lemma StoredIsValid(r: seq<byte>, b: seq<byte>, i: nat)
    requires Framed(r) && i % 2 == 0 && i + 2 <= |b| <= MAX_SUMMED && GetU16(b, i) == 0
    requires Summed(r) == PutU16(b, i, InternetChecksum(b))
    ensures SegmentValid(r)
  {
    SummedIsReceived(r);
    StoredChecksumVerifies(b, i);
  }

  lemma ZeroField(p: seq<byte>, at: nat)
    requires Framed(p) && Ihl(p) <= at && at + 2 <= TotalLen(p) && (at - Ihl(p)) % 2 == 0
    ensures var i := 12 + at - Ihl(p);
            i % 2 == 0 && i + 2 <= |Summed(p)| <= MAX_SUMMED && GetU16(Summed(p), i) == GetU16(p, at)
  {
    EvenOffset(at - Ihl(p));
    SummedAt(p, at);
    SummedAt(p, at + 1);
  }

  lemma EvenOffset(d: int)
    requires d % 2 == 0
    ensures (12 + d) % 2 == 0
  {
  }

  lemma SummedAt(p: seq<byte>, at: nat)
    requires Framed(p) && Ihl(p) <= at < TotalLen(p)
    ensures |Summed(p)| == 12 + TotalLen(p) - Ihl(p) && Summed(p)[12 + at - Ihl(p)] == p[at]
  {
  }

  /** Writing a word inside the segment and past the ports commutes with building the summed bytes. */
  lemma SummedPut(p: seq<byte>, at: nat, c: u16)
    requires Framed(p) && Ihl(p) <= at && at + 2 <= TotalLen(p)
    ensures Framed(PutU16(p, at, c))
    ensures Summed(PutU16(p, at, c)) == PutU16(Summed(p), 12 + at - Ihl(p), c)
  {
  }

  /** Every byte a translation may change. */
  predicate Rewritable(p: seq<byte>, k: nat)
    requires |p| >= 20
  {
    || 10 <= k < 20
    || Ihl(p) <= k < Ihl(p) + 4
    || ChecksumAt(p) <= k < ChecksumAt(p) + 2
  }

  /** A translated packet keeps its shape and every byte outside the endpoint and checksum fields,
      and parses to the new endpoints. */
  lemma TranslationParses(p: seq<byte>, t: Transport)
    requires WellFormed(p) && t.proto == p[9]
    ensures var r := Translated(p, t);
            && |r| == |p| && WellFormed(r) && Ihl(r) == Ihl(p) && TotalLen(r) == TotalLen(p)
            && Parse(r) == Some(t)
            && (forall k :: 0 <= k < |p| && !Rewritable(p, k) ==> r[k] == p[k])
  {
    var a := Rewritten(p, t);
    FramePreserved(p, a);
    FixesKeep(a);
  }

  /** The two checksum fixes touch nothing but their fields. */
  lemma FixesKeep(a: seq<byte>)
    requires WellFormed(a)
    ensures var r := SegmentFixed(HeaderFixed(a));
            && |r| == |a| && Framed(r) && Ihl(r) == Ihl(a) && TotalLen(r) == TotalLen(a) && r[9] == a[9]
            && Parse(r) == Parse(a)
            && AgreeButHeader(r, a, ChecksumAt(a))
  {
    var b := HeaderFixed(a);
    var r := SegmentFixed(b);
    FramePreserved(a, b);
    FramePreserved(b, r);
    ParseStable(a, b);
    ParseStable(b, r);
  }

  /** Both checksums of a translated packet verify, for every segment length, odd ones included. */
  lemma TranslationVerifies(p: seq<byte>, t: Transport)
    requires WellFormed(p) && t.proto == p[9]
    ensures Framed(Translated(p, t)) && HeaderValid(Translated(p, t)) && SegmentValid(Translated(p, t))
  {
    var a := Rewritten(p, t);
    var b := HeaderFixed(a);
    var r := SegmentFixed(b);
    FramePreserved(p, a);
    FramePreserved(a, b);
    FramePreserved(b, r);
    SegmentFixedValid(b);
    HeaderFixedValid(a);
    assert r[..Ihl(r)] == b[..Ihl(b)];
  }

  lemma FramePreserved(p: seq<byte>, q: seq<byte>)
    requires Framed(p) && |q| == |p| && q[0] == p[0] && q[2] == p[2] && q[3] == p[3]
    ensures Framed(q) && Ihl(q) == Ihl(p) && TotalLen(q) == TotalLen(p)
  {
  }

  lemma ParseStable(p: seq<byte>, q: seq<byte>)
    requires Parse(p).Some? && |q| == |p| && Ihl(p) >= 20
    requires q[0] == p[0] && q[9] == p[9]
    requires forall k :: 12 <= k < 20 ==> q[k] == p[k]
    requires forall k :: Ihl(p) <= k < Ihl(p) + 4 ==> q[k] == p[k]
    ensures Parse(q) == Parse(p)
  {
  }

  /** A second translation forgets the first one: translating there and back yields the packet
      that translating to its own endpoints yields, payload and all. */
  lemma TranslationComposes(p: seq<byte>, t: Transport, u: Transport)
    requires WellFormed(p) && t.proto == u.proto == p[9]
    ensures WellFormed(Translated(p, t))
    ensures Translated(Translated(p, t), u) == Translated(p, u)
  {
    TranslationParses(p, t);
    TranslationDetermined(p, Translated(p, t), u);
  }

  /** Packets that differ only in rewritable bytes translate alike. */
  lemma TranslationDetermined(p: seq<byte>, r: seq<byte>, u: Transport)
    requires WellFormed(p) && WellFormed(r) && |r| == |p| && r[0] == p[0] && r[9] == p[9]
    requires forall k :: 0 <= k < |p| && !Rewritable(p, k) ==> r[k] == p[k]
    ensures Translated(r, u) == Translated(p, u)
  {
    var a, b := Rewritten(r, u), Rewritten(p, u);
    FramePreserved(r, a);
    FramePreserved(p, b);
    RewrittenAgree(p, r, u);
    HeadersThenSegments(a, b, ChecksumAt(p));
  }

  lemma HeadersThenSegments(a: seq<byte>, b: seq<byte>, at: nat)
    requires Framed(a) && Framed(b) && Ihl(a) == Ihl(b) && SegmentFixable(a)
    requires a[0] == b[0] && at == ChecksumAt(a) && AgreeButHeader(a, b, at)
    ensures SegmentFixed(HeaderFixed(a)) == SegmentFixed(HeaderFixed(b))
  {
    HeaderFixedAgree(a, b, at);
    FramePreserved(a, HeaderFixed(a));
    FramePreserved(b, HeaderFixed(b));
    SegmentFixedAgree(HeaderFixed(a), HeaderFixed(b));
  }

  /** Equal bytes except in the header checksum and in the word at `at`. */
  predicate AgreeButHeader(p: seq<byte>, q: seq<byte>, at: nat) {
    |p| == |q| && forall k :: 0 <= k < |p| && !(10 <= k < 12) && !(at <= k < at + 2) ==> p[k] == q[k]
  }

  predicate AgreeOutside(p: seq<byte>, q: seq<byte>, at: nat) {
    |p| == |q| && forall k :: 0 <= k < |p| && !(at <= k < at + 2) ==> p[k] == q[k]
  }

  lemma RewrittenAgree(p: seq<byte>, r: seq<byte>, u: Transport)
    requires Parse(p).Some? && Parse(r).Some? && Ihl(p) >= 20 && |r| == |p| && Ihl(r) == Ihl(p)
    requires forall k :: 0 <= k < |p| && !Rewritable(p, k) ==> r[k] == p[k]
    ensures AgreeButHeader(Rewritten(r, u), Rewritten(p, u), ChecksumAt(p))
  {
  }

  lemma HeaderFixedAgree(p: seq<byte>, q: seq<byte>, at: nat)
    requires Framed(p) && Framed(q) && Ihl(p) == Ihl(q) <= at
    requires AgreeButHeader(p, q, at)
    ensures AgreeOutside(HeaderFixed(p), HeaderFixed(q), at)
  {
    assert PutU16(p, 10, 0)[..Ihl(p)] == PutU16(q, 10, 0)[..Ihl(q)];
  }

  lemma SegmentFixedAgree(p: seq<byte>, q: seq<byte>)
    requires Framed(p) && Framed(q) && SegmentFixable(p)
    requires p[0] == q[0] && AgreeOutside(p, q, ChecksumAt(p))
    ensures SegmentFixed(p) == SegmentFixed(q)
  {
    FramePreserved(p, q);
    ZeroedAgree(p, q, ChecksumAt(p));
  }

  lemma ZeroedAgree(p: seq<byte>, q: seq<byte>, at: nat)
    requires AgreeOutside(p, q, at) && at + 2 <= |p|
    ensures PutU16(p, at, 0) == PutU16(q, at, 0)
  {
    var a, b := PutU16(p, at, 0), PutU16(q, at, 0);
    assert a[at] == b[at] && a[at + 1] == b[at + 1];
  }

  method PutU16At(packet: array<byte>, i: nat, v: u16)
    requires i + 2 <= packet.Length
    modifies packet
    ensures packet[..] == PutU16(old(packet[..]), i, v)
  {
    packet[i], packet[i + 1] := v / 0x100, v % 0x100;
  }

  method RewriteEndpoints(packet: array<byte>, t: Transport)
    requires Parse(packet[..]).Some?
    modifies packet
    ensures packet[..] == Rewritten(old(packet[..]), t)
  {
    PutU16At(packet, 12, t.src / 0x1_0000);
    PutU16At(packet, 14, t.src % 0x1_0000);
    PutU16At(packet, 16, t.dst / 0x1_0000);
    PutU16At(packet, 18, t.dst % 0x1_0000);
    var ihl := Ihl(packet[..]);
    if IsTransport(packet[9]) {
      PutU16At(packet, ihl, t.sport);
      PutU16At(packet, ihl + 2, t.dport);
    }
  }

  method FixIPv4Checksum(packet: array<byte>)
    requires packet.Length >= 20 && Ihl(packet[..]) <= packet.Length
    modifies packet
    ensures packet[..] == HeaderFixed(old(packet[..]))
  {
    var ihl := Ihl(packet[..]);
    PutU16At(packet, 10, 0);
    var sum := IpChecksum(packet[..ihl]);
    assert packet[..ihl] == packet[..][..ihl];
    PutU16At(packet, 10, sum);
  }

  /** The pseudoChecksum call of fixTransportChecksum, on a packet whose field is already zero. */
  method SegmentChecksum(packet: array<byte>) returns (sum: u16)
    requires Framed(packet[..])
    ensures sum == InternetChecksum(Summed(packet[..]))
  {
    var p := packet[..];
    var segment := p[Ihl(p)..TotalLen(p)];
    assert |segment| % 0x1_0000 == TotalLen(p) - Ihl(p);
    sum := PseudoChecksum(GetAddr(p, 12), GetAddr(p, 16), p[9], segment);
  }

  method StoreSegmentChecksum(packet: array<byte>, at: nat)
    requires Framed(packet[..]) && SegmentFixable(packet[..]) && at == ChecksumAt(packet[..])
    modifies packet
    ensures packet[..] == SegmentFixed(old(packet[..]))
  {
    ghost var p := packet[..];
    PutU16At(packet, at, 0);
    FramePreserved(p, packet[..]);
    var sum := SegmentChecksum(packet);
    PutU16At(packet, at, sum);
  }

  method FixTransportChecksum(packet: array<byte>)
    requires Framed(packet[..])
    modifies packet
    ensures packet[..] == SegmentFixed(old(packet[..]))
  {
    var ihl := Ihl(packet[..]);
    var payload := TotalLen(packet[..]) - ihl;
    if payload <= 0 {
      return;
    }
    if packet[9] == PROTO_UDP {
      if payload < 8 {
        return;
      }
      StoreSegmentChecksum(packet, ihl + 6);
    } else if packet[9] == PROTO_TCP {
      if payload < 20 {
        return;
      }
      StoreSegmentChecksum(packet, ihl + 16);
    }
  }
}
