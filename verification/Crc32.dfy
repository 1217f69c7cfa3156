/** CRC-32 as zlib's crc32() computes it: the reflected polynomial of section 8 of RFC 1952.
    The shift register is its 32 binary digits, lowest first.
    Error detection is proved from the register, not assumed. */
module Crc32 {
  import opened Bytes

  type Bits = seq<bool>

  /** The `n` low binary digits of `x`, lowest first. */
  function OfNat(x: nat, n: nat): (d: Bits)
    ensures |d| == n
    decreases n
  {
    if n == 0 then [] else [x % 2 == 1] + OfNat(x / 2, n - 1)
  }

  function Value(d: Bits): nat {
    if d == [] then 0 else (if d[0] then 1 else 0) + 2 * Value(d[1..])
  }

  function Zeros(n: nat): (d: Bits)
    ensures |d| == n && forall i :: 0 <= i < n ==> !d[i]
  {
    seq(n, _ => false)
  }

  function Xor(a: Bits, b: Bits): (r: Bits)
    requires |a| == |b|
    ensures |r| == |a| && forall i :: 0 <= i < |a| ==> r[i] == (a[i] != b[i])
  {
    seq(|a|, i requires 0 <= i < |a| => a[i] != b[i])
  }

  const WIDTH: nat := 32
  const OCTET: nat := 8

  const POLYNOMIAL: nat := 0xEDB8_8320

  type Register = d: Bits | |d| == WIDTH witness Zeros(WIDTH)

  function Polynomial(): Register {
    OfNat(POLYNOMIAL, WIDTH)
  }

  /** One digit leaves the register. */
  function Shift(c: Register): Register {
    var s := c[1..] + [false];
    if c[0] then Xor(s, Polynomial()) else s
  }

  function Iterate(f: Register -> Register, c: Register, n: nat): Register
    decreases n
  {
    if n == 0 then c else Iterate(f, f(c), n - 1)
  }

  function Turn(c: Register, n: nat): Register {
    Iterate(Shift, c, n)
  }

  /** Digits placed at the low end of a register. */
  function Pad(d: Bits): Register
    requires |d| <= WIDTH
  {
    d + Zeros(WIDTH - |d|)
  }

  /** One octet enters the register. */
  function Absorb(c: Register, b: byte): Register {
    Turn(Xor(c, Pad(OfNat(b, OCTET))), OCTET)
  }

  /** The register after all of `data`, in order. */
  function AbsorbAll(c: Register, data: bytes): Register
    decreases |data|
  {
    if data == [] then c else AbsorbAll(Absorb(c, data[0]), data[1..])
  }

  /** The register starts, and is read, inverted. */
  function Ones(): Register {
    seq(WIDTH, _ => true)
  }

  function Checksum(data: bytes): uint32 {
    ValueBound(Xor(AbsorbAll(Ones(), data), Ones()));
    Pow2Word();
    Value(Xor(AbsorbAll(Ones(), data), Ones()))
  }

  /** What of the data is looked at: the length goes through the 32-bit `uInt` of zlib's crc32. */
  function Checked(data: bytes): bytes {
    data[..|data| % TWO_32]
  }

  /** The value the store keeps in `BlockMeta::crc32`. */
  function ComputeCRC32(data: bytes): uint32 {
    Checksum(Checked(data))
  }

  // ---------------------------------------------------------------- digits and values

  function Pow2(n: nat): nat
    decreases n
  {
    if n == 0 then 1 else 2 * Pow2(n - 1)
  }

  lemma Pow2Word()
    ensures Pow2(WIDTH) == TWO_32
  {
    assert Pow2(8) == 256;
    assert Pow2(16) == 65536;
    assert Pow2(24) == 16777216;
    assert Pow2(32) == TWO_32;
  }

  lemma {:induction false} ValueBound(d: Bits)
    ensures Value(d) < Pow2(|d|)
    decreases |d|
  {
    if d != [] {
      ValueBound(d[1..]);
    }
  }

  lemma {:induction false} ValueInjective(a: Bits, b: Bits)
    requires |a| == |b| && Value(a) == Value(b)
    ensures a == b
    decreases |a|
  {
    if a != [] {
      ValueInjective(a[1..], b[1..]);
      assert a == [a[0]] + a[1..] && b == [b[0]] + b[1..];
    }
  }

  lemma {:induction false} OfNatInjective(x: nat, y: nat, n: nat)
    requires x < Pow2(n) && y < Pow2(n) && OfNat(x, n) == OfNat(y, n)
    ensures x == y
    decreases n
  {
    if n != 0 {
      assert OfNat(x, n)[0] == OfNat(y, n)[0];
      assert OfNat(x, n)[1..] == OfNat(y, n)[1..];
      OfNatInjective(x / 2, y / 2, n - 1);
    }
  }

  lemma {:induction false} TopDigit(x: nat, n: nat)
    requires Pow2(n) <= x < Pow2(n + 1)
    ensures OfNat(x, n + 1)[n]
    decreases n
  {
    if n != 0 {
      TopDigit(x / 2, n - 1);
    }
  }

  /** The degree-0 coefficient of the reflected polynomial. */
  lemma PolynomialTop()
    ensures Polynomial()[WIDTH - 1]
  {
    Pow2Word();
    assert Pow2(31) == TWO_31;
    TopDigit(POLYNOMIAL, 31);
  }

  // ---------------------------------------------------------------- the register is injective

  lemma XorCancels(a: Bits, b: Bits, m: Bits)
    requires |a| == |b| == |m|
    requires Xor(a, m) == Xor(b, m)
    ensures a == b
  {
    forall i | 0 <= i < |a| ensures a[i] == b[i] {
      assert Xor(a, m)[i] == Xor(b, m)[i];
    }
  }

  lemma XorCommutes(a: Bits, b: Bits)
    requires |a| == |b|
    ensures Xor(a, b) == Xor(b, a)
  {}

  /** The digit shifted out can be read off the top of the register. */
  lemma ShiftInjective(a: Register, b: Register)
    requires Shift(a) == Shift(b)
    ensures a == b
  {
    PolynomialTop();
    var s, t := a[1..] + [false], b[1..] + [false];
    assert Shift(a)[WIDTH - 1] == a[0];
    assert Shift(b)[WIDTH - 1] == b[0];
    if a[0] {
      XorCancels(s, t, Polynomial());
    }
    assert a[1..] == s[..WIDTH - 1] == t[..WIDTH - 1] == b[1..];
    assert a == [a[0]] + a[1..] && b == [b[0]] + b[1..];
  }

  lemma {:induction false} IterateInjective(f: Register -> Register, a: Register, b: Register, n: nat)
    requires forall x: Register, y: Register :: f(x) == f(y) ==> x == y
    requires Iterate(f, a, n) == Iterate(f, b, n)
    ensures a == b
    decreases n
  {
    if n != 0 {
      IterateInjective(f, f(a), f(b), n - 1);
    }
  }

  lemma TurnInjective(a: Register, b: Register, n: nat)
    requires Turn(a, n) == Turn(b, n)
    ensures a == b
  {
    forall x: Register, y: Register | Shift(x) == Shift(y) ensures x == y {
      ShiftInjective(x, y);
    }
    IterateInjective(Shift, a, b, n);
  }

  /** Two different registers stay different whatever common data follows. */
  lemma {:induction false} AbsorbAllInjective(a: Register, b: Register, data: bytes)
    requires AbsorbAll(a, data) == AbsorbAll(b, data)
    ensures a == b
    decreases |data|
  {
    if data != [] {
      var m := Pad(OfNat(data[0], OCTET));
      AbsorbAllInjective(Absorb(a, data[0]), Absorb(b, data[0]), data[1..]);
      TurnInjective(Xor(a, m), Xor(b, m), OCTET);
      XorCancels(a, b, m);
    }
  }

  lemma {:induction false} AbsorbAllAppend(c: Register, x: bytes, y: bytes)
    ensures AbsorbAll(c, x + y) == AbsorbAll(AbsorbAll(c, x), y)
    decreases |x|
  {
    if x == [] {
      assert x + y == y;
    } else {
      assert (x + y)[1..] == x[1..] + y;
      AbsorbAllAppend(Absorb(c, x[0]), x[1..], y);
    }
  }

  // ---------------------------------------------------------------- the register is linear

  lemma ShiftLinear(a: Register, b: Register)
    ensures Shift(Xor(a, b)) == Xor(Shift(a), Shift(b))
  {
    var l, r := Shift(Xor(a, b)), Xor(Shift(a), Shift(b));
    forall i | 0 <= i < WIDTH ensures l[i] == r[i] {
    }
  }

  lemma {:induction false} IterateLinear(f: Register -> Register, a: Register, b: Register, n: nat)
    requires forall x: Register, y: Register :: f(Xor(x, y)) == Xor(f(x), f(y))
    ensures Iterate(f, Xor(a, b), n) == Xor(Iterate(f, a, n), Iterate(f, b, n))
    decreases n
  {
    if n != 0 {
      IterateLinear(f, f(a), f(b), n - 1);
    }
  }

  lemma TurnLinear(a: Register, b: Register, n: nat)
    ensures Turn(Xor(a, b), n) == Xor(Turn(a, n), Turn(b, n))
  {
    forall x: Register, y: Register ensures Shift(Xor(x, y)) == Xor(Shift(x), Shift(y)) {
      ShiftLinear(x, y);
    }
    IterateLinear(Shift, a, b, n);
  }

  lemma {:induction false} IterateSum(f: Register -> Register, c: Register, m: nat, n: nat)
    ensures Iterate(f, c, m + n) == Iterate(f, Iterate(f, c, m), n)
    decreases m
  {
    if m != 0 {
      IterateSum(f, f(c), m - 1, n);
    }
  }

  lemma {:induction false} IterateRaised(f: Register -> Register, d: Bits, n: nat)
    requires |d| + n == WIDTH
    requires forall c: Register :: !c[0] ==> f(c) == c[1..] + [false]
    ensures Iterate(f, Zeros(n) + d, n) == d + Zeros(n)
    decreases n
  {
    if n == 0 {
      assert Zeros(n) + d == d == d + Zeros(n);
    } else {
      var c: Register := Zeros(n) + d;
      assert f(c) == Zeros(n - 1) + (d + [false]);
      IterateRaised(f, d + [false], n - 1);
      assert d + [false] + Zeros(n - 1) == d + Zeros(n);
    }
  }

  /** Shifting out zero digits only moves the register down. */
  lemma TurnRaised(d: Bits, n: nat)
    requires |d| + n == WIDTH
    ensures Turn(Zeros(n) + d, n) == d + Zeros(n)
  {
    IterateRaised(Shift, d, n);
  }

  // ---------------------------------------------------------------- four octets enter injectively

  /** The digits of some octets, first octet lowest. */
  function Lanes(d: bytes): (l: Bits)
    ensures |l| == OCTET * |d|
    decreases |d|
  {
    if d == [] then [] else OfNat(d[0], OCTET) + Lanes(d[1..])
  }

  lemma {:induction false} LanesInjective(x: bytes, y: bytes)
    requires |x| == |y| && Lanes(x) == Lanes(y)
    ensures x == y
    decreases |x|
  {
    if x != [] {
      assert OfNat(x[0], OCTET) == Lanes(x)[..OCTET] == Lanes(y)[..OCTET] == OfNat(y[0], OCTET);
      assert Lanes(x[1..]) == Lanes(x)[OCTET..] == Lanes(y)[OCTET..] == Lanes(y[1..]);
      assert Pow2(OCTET) == 256;
      OfNatInjective(x[0], y[0], OCTET);
      LanesInjective(x[1..], y[1..]);
      assert x == [x[0]] + x[1..] && y == [y[0]] + y[1..];
    }
  }

  /** Octets still to come may be placed above the current one before the register turns. */
  lemma Delay(c: Register, x: Bits, m: Bits)
    requires |x| + |m| <= WIDTH
    ensures Turn(Xor(c, Pad(x + m)), |x|) == Xor(Turn(Xor(c, Pad(x)), |x|), Pad(m))
  {
    var high := m + Zeros(WIDTH - |x| - |m|);
    XorSplits(c, x, m);
    TurnLinear(Xor(c, Pad(x)), Zeros(|x|) + high, |x|);
    TurnRaised(high, |x|);
    assert high + Zeros(|x|) == Pad(m);
  }

  lemma XorSplits(c: Register, x: Bits, m: Bits)
    requires |x| + |m| <= WIDTH
    ensures Xor(c, Pad(x + m)) == Xor(Xor(c, Pad(x)), Zeros(|x|) + (m + Zeros(WIDTH - |x| - |m|)))
  {
    var l := Pad(x + m);
    var h := Zeros(|x|) + (m + Zeros(WIDTH - |x| - |m|));
    forall i | 0 <= i < WIDTH ensures l[i] == (Pad(x)[i] != h[i]) {
    }
  }

  /** Up to four octets enter the register as one word followed by all their shifts. */
  lemma {:induction false} AbsorbAsWord(c: Register, d: bytes)
    requires |d| <= 4
    ensures AbsorbAll(c, d) == Turn(Xor(c, Pad(Lanes(d))), OCTET * |d|)
    decreases |d|
  {
    if d == [] {
      assert Xor(c, Pad([])) == c;
    } else {
      var m := Lanes(d[1..]);
      AbsorbAsWord(Absorb(c, d[0]), d[1..]);
      Delay(c, OfNat(d[0], OCTET), m);
      IterateSum(Shift, Xor(c, Pad(Lanes(d))), OCTET, OCTET * |d[1..]|);
    }
  }

  /** Up to four octets entering the same register leave it different when they differ. */
  lemma WindowInjective(c: Register, x: bytes, y: bytes)
    requires |x| == |y| <= 4 && AbsorbAll(c, x) == AbsorbAll(c, y)
    ensures x == y
  {
    AbsorbAsWord(c, x);
    AbsorbAsWord(c, y);
    TurnInjective(Xor(c, Pad(Lanes(x))), Xor(c, Pad(Lanes(y))), OCTET * |x|);
    XorCommutes(c, Pad(Lanes(x)));
    XorCommutes(c, Pad(Lanes(y)));
    XorCancels(Pad(Lanes(x)), Pad(Lanes(y)), c);
    assert Lanes(x) == Pad(Lanes(x))[..|Lanes(x)|] == Pad(Lanes(y))[..|Lanes(y)|] == Lanes(y);
    LanesInjective(x, y);
  }

  /** A burst: two data of equal length that differ, and only inside a window of four octets. */
  ghost predicate Burst(good: bytes, bad: bytes, at: nat) {
    && |good| == |bad| && good != bad
    && forall i :: 0 <= i < |good| && !(at <= i < at + 4) ==> good[i] == bad[i]
  }

  /** A burst changes the stored checksum if and only if it falls within what is looked at; below 4 GiB that is all. */
  lemma BurstDetected(good: bytes, bad: bytes, at: nat)
    requires Burst(good, bad, at)
    ensures ComputeCRC32(good) != ComputeCRC32(bad) <==> Checked(good) != Checked(bad)
    ensures |good| < TWO_32 ==> Checked(good) == good && Checked(bad) == bad
  {
    CheckedBelow(good);
    CheckedBelow(bad);
    if Checked(good) != Checked(bad) {
      CheckedBurst(good, bad, at);
      BurstChangesChecksum(Checked(good), Checked(bad), at);
    }
  }

  lemma CheckedBelow(data: bytes)
    ensures |data| < TWO_32 ==> Checked(data) == data
  {}

  lemma CheckedBurst(good: bytes, bad: bytes, at: nat)
    requires Burst(good, bad, at) && Checked(good) != Checked(bad)
    ensures Burst(Checked(good), Checked(bad), at)
  {}

  lemma BurstChangesChecksum(good: bytes, bad: bytes, at: nat)
    requires Burst(good, bad, at)
    ensures Checksum(good) != Checksum(bad)
  {
    if Checksum(good) == Checksum(bad) {
      ValueInjective(Xor(AbsorbAll(Ones(), good), Ones()), Xor(AbsorbAll(Ones(), bad), Ones()));
      XorCancels(AbsorbAll(Ones(), good), AbsorbAll(Ones(), bad), Ones());
      BurstChangesRegister(Ones(), good, bad, at);
    }
  }

  lemma BurstChangesRegister(c: Register, good: bytes, bad: bytes, at: nat)
    requires Burst(good, bad, at)
    ensures AbsorbAll(c, good) != AbsorbAll(c, bad)
  {
    var lo := if at <= |good| then at else |good|;
    var hi := if at + 4 <= |good| then at + 4 else |good|;
    var pre, post := good[..lo], good[hi..];
    var x, y := good[lo..hi], bad[lo..hi];
    assert good == pre + (x + post);
    assert bad == pre + (y + post);
    var c1 := AbsorbAll(c, pre);
    AbsorbAllAppend(c, pre, x + post);
    AbsorbAllAppend(c, pre, y + post);
    AbsorbAllAppend(c1, x, post);
    AbsorbAllAppend(c1, y, post);
    if AbsorbAll(c, good) == AbsorbAll(c, bad) {
      AbsorbAllInjective(AbsorbAll(c1, x), AbsorbAll(c1, y), post);
      WindowInjective(c1, x, y);
    }
  }
}
