/** Bytes, 16-bit words and 32-bit addresses in network byte order. */
module Bytes {
  type byte = x: int | 0 <= x < 0x100
  type u16 = x: int | 0 <= x < 0x1_0000
  /** An IPv4 address as the 32-bit number its four bytes spell. */
  type Addr = x: int | 0 <= x < 0x1_0000_0000

  datatype Option<+T> = None | Some(value: T)

  function GetU16(b: seq<byte>, i: nat): (v: u16)
    requires i + 2 <= |b|
  {
    (b[i] as int) * 0x100 + b[i + 1]
  }

  function PutU16(b: seq<byte>, i: nat, v: u16): (r: seq<byte>)
    requires i + 2 <= |b|
    ensures |r| == |b| && GetU16(r, i) == v
    ensures forall k :: 0 <= k < |b| && !(i <= k < i + 2) ==> r[k] == b[k]
  {
    b[i := v / 0x100][i + 1 := v % 0x100]
  }

  function GetAddr(b: seq<byte>, i: nat): (a: Addr)
    requires i + 4 <= |b|
  {
    GetU16(b, i) * 0x1_0000 + GetU16(b, i + 2)
  }

  function PutAddr(b: seq<byte>, i: nat, a: Addr): (r: seq<byte>)
    requires i + 4 <= |b|
    ensures |r| == |b| && GetAddr(r, i) == a
    ensures forall k :: 0 <= k < |b| && !(i <= k < i + 4) ==> r[k] == b[k]
  {
    PutU16(PutU16(b, i, a / 0x1_0000), i + 2, a % 0x1_0000)
  }
}
