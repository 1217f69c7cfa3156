/** The machine types the storage node works with, and the failure-carrying datatypes. */
module Bytes {

  /** One octet.  Every C++ `std::string` and file of the program is a sequence of these. */
  type byte = x: int | 0 <= x < 256

  type bytes = seq<byte>

  const TWO_31: int := 0x8000_0000
  const TWO_32: int := 0x1_0000_0000
  const TWO_63: int := 0x8000_0000_0000_0000
  const TWO_64: int := 0x1_0000_0000_0000_0000

  type uint32 = x: int | 0 <= x < TWO_32
  type uint64 = x: int | 0 <= x < TWO_64
  type int32 = x: int | -TWO_31 <= x < TWO_31
  type int64 = x: int | -TWO_63 <= x < TWO_63

  datatype Option<+T> = None | Some(value: T)

  /** The octets of an ASCII literal. */
  function Ascii(s: string): (b: bytes)
    ensures |b| == |s|
    ensures forall i :: 0 <= i < |s| ==> b[i] == s[i] as int % 256
  {
    seq(|s|, i requires 0 <= i < |s| => s[i] as int % 256)
  }

  /** The longest prefix of `b` that is no longer than `n`: what a write of `b` cut short leaves. */
  function Upto(b: bytes, n: nat): (p: bytes)
    ensures p <= b
  {
    if n < |b| then b[..n] else b
  }

  function Concat(pieces: seq<bytes>): bytes {
    if pieces == [] then [] else pieces[0] + Concat(pieces[1..])
  }
}
