/** What parsing and translation do to the bytes on the wire, said in bytes alone
    (internal/vpn/snat/packet.go; sections 3.1 of RFC 791 and of RFC 9293, RFC 768, section 1 of RFC 1071). */
module Wire {
  import opened Bytes
  import opened Checksum
  import opened Packet

  /** The big-endian 16-bit number at i. */
  function Word(p: seq<byte>, i: int): int
    requires 0 <= i && i + 2 <= |p|
  {
    p[i] as int * 0x100 + p[i + 1] as int
  }

  /** The big-endian 32-bit number at i. */
  function Quad(p: seq<byte>, i: int): Addr
    requires 0 <= i && i + 4 <= |p|
  {
    p[i] as int * 0x100_0000 + p[i + 1] as int * 0x1_0000 + p[i + 2] as int * 0x100 + p[i + 3] as int
  }

  /** The header length an IPv4 packet claims. */
  function HeaderLength(p: seq<byte>): int
    requires |p| >= 1
  {
    p[0] as int % 0x10 * 4
  }

  /** An IPv4 packet whose claimed header is there. */
  predicate IsIPv4(p: seq<byte>) {
    |p| >= 20 && p[0] / 0x10 == 4 && |p| >= HeaderLength(p)
  }

  /** An IPv4 packet, of whatever protocol, that reads from -> to. */
  predicate ReadsAs(p: seq<byte>, from: Addr, to: Addr) {
    IsIPv4(p) && Quad(p, 12) == from && Quad(p, 16) == to
  }

  /** Which packets parse, and to what. */
  lemma ParsedOnWire(p: seq<byte>)
    ensures Parse(p).Some? <==>
            && |p| >= 20 && p[0] / 0x10 == 4
            && ((p[9] == 6 && |p| >= HeaderLength(p) + 14) || (p[9] == 17 && |p| >= HeaderLength(p) + 8))
    ensures Parse(p).Some? ==>
            var t, ihl := Parse(p).value, HeaderLength(p);
            && t.src == Quad(p, 12) && t.dst == Quad(p, 16) && t.proto == p[9]
            && t.sport == Word(p, ihl) && t.dport == Word(p, ihl + 2)
  {
  }

  /** An IPv4 packet with a whole header, lengths that fit the buffer, and a TCP segment of at least 20 bytes
      or a UDP segment of at least 8. */
  predicate Translatable(p: seq<byte>) {
    && |p| >= 20 && p[0] / 0x10 == 4 && (p[9] == 6 || p[9] == 17)
    && 20 <= HeaderLength(p) && HeaderLength(p) + (if p[9] == 6 then 20 else 8) <= Word(p, 2) <= |p|
  }

  lemma TranslatableIsWellFormed(p: seq<byte>)
    ensures Translatable(p) <==> WellFormed(p)
    ensures Translatable(p) ==> Ihl(p) == HeaderLength(p) && TotalLen(p) == Word(p, 2)
  {
  }

  /** The bytes a translation may write: both checksums, the addresses and the ports. */
  predicate Field(p: seq<byte>, k: int)
    requires |p| >= 20
  {
    var check := HeaderLength(p) + (if p[9] == 6 then 16 else 6);
    10 <= k < 20 || HeaderLength(p) <= k < HeaderLength(p) + 4 || check <= k < check + 2
  }

  lemma FieldsAreRewritable(p: seq<byte>)
    requires Translatable(p)
    ensures forall k: nat :: Field(p, k) <==> Rewritable(p, k)
  {
  }

  /** Translation writes the new endpoints. */
  lemma EndpointsOnWire(p: seq<byte>, t: Transport)
    requires Translatable(p) && t.proto == p[9]
    ensures WellFormed(p)
    ensures var r, ihl := Translated(p, t), HeaderLength(p);
            && |r| == |p| && Translatable(r)
            && Quad(r, 12) == t.src && Quad(r, 16) == t.dst
            && Word(r, ihl) == t.sport && Word(r, ihl + 2) == t.dport
  {
    var r := Translated(p, t);
    TranslatableIsWellFormed(p);
    TranslationParses(p, t);
    TranslatableIsWellFormed(r);
    ParsedOnWire(r);
  }

  /** It writes no byte outside its fields. */
  lemma RestOnWire(p: seq<byte>, t: Transport)
    requires Translatable(p) && t.proto == p[9]
    ensures WellFormed(p) && |Translated(p, t)| == |p|
    ensures forall k :: 0 <= k < |p| && !Field(p, k) ==> Translated(p, t)[k] == p[k]
  {
    TranslatableIsWellFormed(p);
    TranslationParses(p, t);
    FieldsAreRewritable(p);
  }

  /** What a receiver sums for a segment: addresses, protocol, length, segment. */
  function Summands(p: seq<byte>): seq<byte>
    requires Translatable(p)
  {
    var length := Word(p, 2) - HeaderLength(p);
    p[12..20] + [0, p[9], length / 0x100, length % 0x100] + p[HeaderLength(p)..Word(p, 2)]
  }

  lemma SummandsAreReceived(p: seq<byte>)
    requires Translatable(p)
    ensures WellFormed(p) && Summands(p) == Received(p)
  {
    TranslatableIsWellFormed(p);
  }

  /** Both checksums of a translated packet verify at the receiver, for segments of odd length too. */
  lemma ChecksumsOnWire(p: seq<byte>, t: Transport)
    requires Translatable(p) && t.proto == p[9]
    ensures WellFormed(p) && Translatable(Translated(p, t))
    ensures OnesSum(Translated(p, t)[..HeaderLength(p)]) == 0xFFFF
    ensures OnesSum(Summands(Translated(p, t))) == 0xFFFF
  {
    TranslatableIsWellFormed(p);
    TranslationParses(p, t);
    TranslationVerifies(p, t);
    TranslatableIsWellFormed(Translated(p, t));
    SummandsAreReceived(Translated(p, t));
  }

  /** The ones'-complement sum in plain arithmetic: all ones exactly if the words add up to a positive
      multiple of 65535. */
  lemma AllOnesIff(b: seq<byte>)
    ensures OnesSum(b) == 0xFFFF <==> Total(b) > 0 && Total(b) % 0xFFFF == 0
  {
    TotalIs(b);
    FoldedIsOnesSum(b);
    FoldedMod(WordSum(b));
  }

  /** The words of b added up, a last odd byte as a high half. */
  function Total(b: seq<byte>): int {
    if b == [] then 0
    else if |b| == 1 then b[0] as int * 0x100
    else Word(b, 0) + Total(b[2..])
  }

  lemma {:induction false} TotalIs(b: seq<byte>)
    ensures Total(b) == WordSum(b)
  {
    if |b| >= 2 {
      TotalIs(b[2..]);
    }
  }
}
