/** What a valid string field is: the UTF-8 encoding of some sequence of Unicode scalar values, as section 3 of RFC 3629
    has it. */
module Utf8Texts {
  import opened Bytes
  import opened Wire

  /** A code point that is no surrogate. */
  predicate IsScalar(c: int) {
    0 <= c <= 0x10_FFFF && !(0xD800 <= c <= 0xDFFF)
  }

  /** The octets of one scalar value: six of its binary digits in each octet behind the first. */
  function EncodeScalar(c: int): (b: bytes)
    requires IsScalar(c)
    ensures 1 <= |b| <= 4
  {
    if c < 0x80 then [c]
    else if c < 0x800 then [0xC0 + c / 64, 0x80 + c % 64]
    else if c < 0x1_0000 then [0xE0 + c / 4096, 0x80 + c / 64 % 64, 0x80 + c % 64]
    else [0xF0 + c / 262144, 0x80 + c / 4096 % 64, 0x80 + c / 64 % 64, 0x80 + c % 64]
  }

  ghost predicate AreScalars(cs: seq<int>) {
    forall i :: 0 <= i < |cs| ==> IsScalar(cs[i])
  }

  function EncodeScalars(cs: seq<int>): bytes
    requires AreScalars(cs)
  {
    if cs == [] then [] else EncodeScalar(cs[0]) + EncodeScalars(cs[1..])
  }

  // ---------------------------------------------------------------- one character

  lemma Halves(c: int, k: int)
    requires c >= 0 && k in {64, 4096}
    ensures c / k * k + c % k == c && c / 64 / 64 == c / 4096 && c / 4096 / 64 == c / 262144
  {}

  /** The front of an encoded character is taken for a character of its length. */
  lemma HeadOfScalar(c: int, rest: bytes)
    requires IsScalar(c)
    ensures Utf8Head(EncodeScalar(c) + rest) == |EncodeScalar(c)|
  {
    var b := EncodeScalar(c) + rest;
    assert b[0] == EncodeScalar(c)[0];
    assert forall i :: 0 <= i < |EncodeScalar(c)| ==> b[i] == EncodeScalar(c)[i];
    Halves(c, 64);
    Halves(c, 4096);
  }

  /** The scalar value at the front of some octets. */
  function Scalar(b: bytes): int
    requires Utf8Head(b) > 0
  {
    match Utf8Head(b)
    case 1 => b[0]
    case 2 => (b[0] as int - 0xC0) * 64 + (b[1] as int - 0x80)
    case 3 => (b[0] as int - 0xE0) * 4096 + (b[1] as int - 0x80) * 64 + (b[2] as int - 0x80)
    case _ =>
      (b[0] as int - 0xF0) * 262144 + (b[1] as int - 0x80) * 4096 + (b[2] as int - 0x80) * 64 + (b[3] as int - 0x80)
  }

  /** What is taken for a character is the encoding of one. */
  lemma ScalarOfHead(b: bytes)
    requires Utf8Head(b) > 0
    ensures Utf8Head(b) <= 4 && IsScalar(Scalar(b)) && EncodeScalar(Scalar(b)) == b[..Utf8Head(b)]
  {
    var c := Scalar(b);
    match Utf8Head(b)
    case 1 =>
    case 2 => Digits2(b[0] - 0xC0, b[1] - 0x80);
    case 3 => Digits3(b[0] - 0xE0, b[1] - 0x80, b[2] - 0x80);
    case _ => Digits4(b[0] - 0xF0, b[1] - 0x80, b[2] - 0x80, b[3] - 0x80);
  }

  lemma Digits2(x: nat, y: nat)
    requires y < 64
    ensures var c := x * 64 + y; c / 64 == x && c % 64 == y
  {}

  lemma Digits3(x: nat, y: nat, z: nat)
    requires y < 64 && z < 64
    ensures var c := x * 4096 + y * 64 + z; c / 4096 == x && c / 64 % 64 == y && c % 64 == z
  {
    Digits2(x * 64 + y, z);
    Digits2(x, y);
  }

  lemma Digits4(w: nat, x: nat, y: nat, z: nat)
    requires x < 64 && y < 64 && z < 64
    ensures var c := w * 262144 + x * 4096 + y * 64 + z;
      c / 262144 == w && c / 4096 % 64 == x && c / 64 % 64 == y && c % 64 == z
  {
    Digits3(w * 64 + x, y, z);
    Digits2(w, x);
  }

  // ---------------------------------------------------------------- texts

  lemma {:induction false} EncodedIsValid(cs: seq<int>)
    requires AreScalars(cs)
    ensures ValidUtf8(EncodeScalars(cs))
    decreases |cs|
  {
    if cs != [] {
      var rest := EncodeScalars(cs[1..]);
      EncodedIsValid(cs[1..]);
      HeadOfScalar(cs[0], rest);
      assert (EncodeScalar(cs[0]) + rest)[|EncodeScalar(cs[0])|..] == rest;
    }
  }

  lemma {:induction false} ValidIsEncoded(b: bytes) returns (cs: seq<int>)
    requires ValidUtf8(b)
    ensures AreScalars(cs) && EncodeScalars(cs) == b
    decreases |b|
  {
    cs := [];
    if b != [] {
      ScalarOfHead(b);
      var rest := ValidIsEncoded(b[Utf8Head(b)..]);
      cs := [Scalar(b)] + rest;
      assert cs[1..] == rest;
      assert b == b[..Utf8Head(b)] + b[Utf8Head(b)..];
    }
  }

  ghost predicate IsText(b: bytes) {
    exists cs: seq<int> :: AreScalars(cs) && EncodeScalars(cs) == b
  }

  /** A string field accepts exactly the encodings of sequences of scalar values. */
  lemma Utf8Exactly(b: bytes)
    ensures ValidUtf8(b) <==> IsText(b)
  {
    if ValidUtf8(b) {
      var cs := ValidIsEncoded(b);
    }
    if IsText(b) {
      var cs :| AreScalars(cs) && EncodeScalars(cs) == b;
      EncodedIsValid(cs);
    }
  }
}
