/** The ones'-complement checksum of internal/vpn/snat/packet.go (section 1 of RFC 1071). */
module Checksum {
  import opened Bytes

  const UINT32: int := 0x1_0000_0000
  /** The longest input whose word sum always fits the 32-bit accumulator. */
  const MAX_SUMMED: nat := 131074

  // ---------- The reference: 16-bit ones'-complement addition, word by word ----------

  function OnesAdd(x: u16, y: u16): u16 {
    if x + y > 0xFFFF then x + y - 0xFFFF else x + y
  }

  /** The ones'-complement sum of the big-endian words; an odd last byte is a word's high half. */
  function OnesSum(b: seq<byte>): u16 {
    if |b| == 0 then 0
    else if |b| == 1 then (b[0] as int) * 0x100
    else OnesAdd(GetU16(b, 0), OnesSum(b[2..]))
  }

  // ---------- The fast form: an exact sum, folded once at the end ----------

  function WordSum(b: seq<byte>): nat {
    if |b| == 0 then 0
    else if |b| == 1 then (b[0] as int) * 0x100
    else GetU16(b, 0) + WordSum(b[2..])
  }

  /** The value the fold loop leaves: congruent modulo 65535, and 0 only for 0. */
  function Folded(x: nat): (r: u16) {
    if x <= 0xFFFF then x else Folded(x - 0xFFFF)
  }

  lemma {:induction false} FoldedMod(x: nat)
    ensures Folded(x) % 0xFFFF == x % 0xFFFF
    ensures Folded(x) == 0 <==> x == 0
  {
    if x > 0xFFFF {
      FoldedMod(x - 0xFFFF);
    }
  }

  lemma {:induction false} FoldedShift(x: nat, q: nat)
    requires x > 0
    ensures Folded(x + 0xFFFF * q) == Folded(x)
  {
    if q > 0 {
      FoldedShift(x, q - 1);
    }
  }

  /** One round of (sum & 0xffff) + (sum >> 16) keeps the folded value. */
  lemma FoldStep(x: nat)
    requires x > 0
    ensures Folded(x % 0x1_0000 + x / 0x1_0000) == Folded(x)
  {
    var y := x % 0x1_0000 + x / 0x1_0000;
    assert x == y + 0xFFFF * (x / 0x1_0000);
    FoldedShift(y, x / 0x1_0000);
  }

  lemma {:induction false} FoldedAdd(w: u16, x: nat)
    ensures Folded(w + x) == OnesAdd(w, Folded(x))
  {
    if x > 0xFFFF {
      FoldedAdd(w, x - 0xFFFF);
    }
  }

  /** Deferring the carries to the end computes the word-by-word ones'-complement sum. */
  lemma {:induction false} FoldedIsOnesSum(b: seq<byte>)
    ensures Folded(WordSum(b)) == OnesSum(b)
  {
    if |b| >= 2 {
      FoldedIsOnesSum(b[2..]);
      FoldedAdd(GetU16(b, 0), WordSum(b[2..]));
    }
  }

  // ---------- The 32-bit accumulator ----------

  /** uint32 arithmetic: the value modulo 2^32. */
  function Wrap32(x: nat): (r: nat)
    ensures r < UINT32
  {
    if x < UINT32 then x else Wrap32(x - UINT32)
  }

  lemma {:induction false} Wrap32Is(x: nat)
    ensures Wrap32(x) == x % UINT32
  {
    if x >= UINT32 {
      Wrap32Is(x - UINT32);
    }
  }

  lemma {:induction false} Wrap32Add(a: nat, rest: nat)
    ensures Wrap32(Wrap32(a) + rest) == Wrap32(a + rest)
    decreases a
  {
    if a >= UINT32 {
      Wrap32Add(a - UINT32, rest);
    }
  }

  lemma {:induction false} WordSumBound(b: seq<byte>)
    ensures WordSum(b) <= 0xFFFF * ((|b| + 1) / 2)
  {
    if |b| >= 2 {
      WordSumBound(b[2..]);
      assert (|b| + 1) / 2 == (|b[2..]| + 1) / 2 + 1;
    }
  }

  lemma {:induction false} WordSumAllOnes(b: seq<byte>)
    requires |b| % 2 == 0
    requires forall k :: 0 <= k < |b| ==> b[k] == 0xFF
    ensures WordSum(b) == 0xFFFF * (|b| / 2)
  {
    if |b| >= 2 {
      WordSumAllOnes(b[2..]);
      assert |b| / 2 == |b[2..]| / 2 + 1;
    }
  }

  /** The accumulator is exact on every input of a length exactly when that length is at most 131074 bytes. */
  lemma AccumulatorFits(n: nat)
    ensures (forall b: seq<byte> | |b| == n :: WordSum(b) < UINT32) <==> n <= MAX_SUMMED
  {
    if n <= MAX_SUMMED {
      forall b: seq<byte> | |b| == n
        ensures WordSum(b) < UINT32
      {
        WordSumBound(b);
      }
    } else {
      var ones: seq<byte> := seq(n - n % 2, i => 0xFF);
      WordSumAllOnes(ones);
      var tail: seq<byte> := if n % 2 == 1 then [0xFF] else [];
      WordSumConcat(ones, tail);
      assert WordSum(ones + tail) >= UINT32;
    }
  }

  lemma {:induction false} WordSumConcat(a: seq<byte>, b: seq<byte>)
    requires |a| % 2 == 0
    ensures WordSum(a + b) == WordSum(a) + WordSum(b)
  {
    if |a| == 0 {
      assert a + b == b;
    } else {
      WordSumConcat(a[2..], b);
      assert (a + b)[2..] == a[2..] + b;
    }
  }

  // ---------- Storing a checksum ----------

  /** What ipChecksum returns for b: the complement of the folded, wrapped sum. */
  function InternetChecksum(b: seq<byte>): (c: u16) {
    0xFFFF - Folded(Wrap32(WordSum(b)))
  }

  /** Replacing one aligned word moves the sum by the difference of the words. */
  lemma {:induction false} WordSumPut(b: seq<byte>, i: nat, v: u16)
    requires i % 2 == 0 && i + 2 <= |b|
    ensures WordSum(PutU16(b, i, v)) == WordSum(b) - GetU16(b, i) + v
  {
    var r := PutU16(b, i, v);
    if i == 0 {
      assert r[2..] == b[2..];
    } else {
      WordSumPut(b[2..], i - 2, v);
      assert r[2..] == PutU16(b[2..], i - 2, v);
    }
  }

  lemma {:induction false} ComplementFolds(sum: nat)
    ensures Folded(sum + 0xFFFF - Folded(sum)) == 0xFFFF
  {
    if sum > 0xFFFF {
      ComplementFolds(sum - 0xFFFF);
    }
  }

  lemma AddedChecksumVerifies(b: seq<byte>, r: seq<byte>)
    requires |b| <= MAX_SUMMED && WordSum(r) == WordSum(b) + InternetChecksum(b)
    ensures OnesSum(r) == 0xFFFF
  {
    assert WordSum(b) < UINT32 by { WordSumBound(b); }
    ComplementFolds(WordSum(b));
    FoldedIsOnesSum(r);
  }

  /** Storing the checksum of a sequence with a zeroed aligned field in that field
      makes the ones'-complement sum all ones. */
  lemma StoredChecksumVerifies(b: seq<byte>, i: nat)
    requires i % 2 == 0 && i + 2 <= |b| <= MAX_SUMMED
    requires GetU16(b, i) == 0
    ensures OnesSum(PutU16(b, i, InternetChecksum(b))) == 0xFFFF
  {
    var c := InternetChecksum(b);
    WordSumPut(b, i, c);
    AddedChecksumVerifies(b, PutU16(b, i, c));
  }

  /** ipChecksum: a wrapping 32-bit accumulator, then the fold loop, then the complement. */
  method IpChecksum(b: seq<byte>) returns (c: u16)
    ensures c == InternetChecksum(b)
  {
    var sum := Accumulate(b);
    while sum / 0x1_0000 > 0
      invariant 0 <= sum
      invariant Folded(sum) == Folded(Wrap32(WordSum(b)))
      decreases sum
    {
      FoldStep(sum);
      sum := sum % 0x1_0000 + sum / 0x1_0000;
    }
    c := 0xFFFF - sum;
  }

  /** The accumulator and the words still to come have the right total. */
  ghost predicate Sums(b: seq<byte>, i: nat, sum: nat) {
    i <= |b| && i % 2 == 0 && sum < UINT32 && Wrap32(sum + WordSum(b[i..])) == Wrap32(WordSum(b))
  }

  lemma AddWord(b: seq<byte>, i: nat, sum: nat)
    requires Sums(b, i, sum) && i + 2 <= |b|
    ensures Sums(b, i + 2, Wrap32(sum + GetU16(b, i)))
  {
    assert b[i..][2..] == b[i + 2..];
    Wrap32Add(sum + GetU16(b, i), WordSum(b[i + 2..]));
  }

  lemma AddLast(b: seq<byte>, i: nat, sum: nat)
    requires Sums(b, i, sum) && |b| <= i + 1
    ensures if |b| % 2 == 1 then Wrap32(sum + (b[|b| - 1] as int) * 0x100) == Wrap32(WordSum(b))
            else sum == Wrap32(WordSum(b))
  {
    if i < |b| {
      assert b[i..] == [b[|b| - 1]];
    } else {
      assert b[i..] == [];
    }
  }

  /** The accumulation loops of ipChecksum; every addition wraps at 32 bits. */
  method Accumulate(b: seq<byte>) returns (sum: nat)
    ensures sum == Wrap32(WordSum(b))
  {
    sum := 0;
    var i := 0;
    assert b[0..] == b;
    while i + 1 < |b|
      invariant 0 <= i && Sums(b, i, sum)
    {
      AddWord(b, i, sum);
      sum := Wrap32(sum + GetU16(b, i));
      i := i + 2;
    }
    AddLast(b, i, sum);
    if |b| % 2 == 1 {
      sum := Wrap32(sum + (b[|b| - 1] as int) * 0x100);
    }
  }

  /** The 12-byte pseudo-header of section 3.1 of RFC 9293 (and RFC 768). */
  function PseudoHeader(src: Addr, dst: Addr, proto: byte, length: u16): (h: seq<byte>)
    ensures |h| == 12
  {
    PutU16(PutAddr(PutAddr(seq(12, i => 0), 0, src), 4, dst)[9 := proto], 10, length)
  }

  /** Every field of the pseudo-header is where the receiver expects it. */
  lemma PseudoHeaderFields(src: Addr, dst: Addr, proto: byte, length: u16)
    ensures var h := PseudoHeader(src, dst, proto, length);
            && GetAddr(h, 0) == src && GetAddr(h, 4) == dst
            && h[8] == 0 && h[9] == proto && GetU16(h, 10) == length
  {
    var zeros: seq<byte> := seq(12, i => 0);
    var h := PseudoHeader(src, dst, proto, length);
    assert GetAddr(PutAddr(PutAddr(zeros, 0, src), 4, dst), 0) == src;
    assert GetAddr(h, 0) == src && GetAddr(h, 4) == dst;
  }

  /** pseudoChecksum: the checksum over pseudo-header and segment; the length is truncated to 16 bits. */
  method PseudoChecksum(src: Addr, dst: Addr, proto: byte, segment: seq<byte>) returns (c: u16)
    ensures c == InternetChecksum(PseudoHeader(src, dst, proto, |segment| % 0x1_0000) + segment)
  {
    var buf := PseudoHeader(src, dst, proto, |segment| % 0x1_0000);
    c := IpChecksum(buf + segment);
  }
}
