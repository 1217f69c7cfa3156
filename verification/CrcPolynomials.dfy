/** The checksum is the remainder of a division of polynomials over GF(2), by the generator polynomial of CRC-32.
    A polynomial is the set of its exponents; adding one twice takes it away. */
module CrcPolynomials {
  import opened Bytes
  import opened Crc32

  type Poly = iset<nat>

  ghost function Plus(p: Poly, q: Poly): Poly {
    (p - q) + (q - p)
  }

  ghost predicate Shifted(p: Poly, n: nat, e: nat) {
    e >= n && e - n in p
  }

  /** x^n * p */
  ghost function Times(p: Poly, n: nat): Poly {
    iset e: nat | Shifted(p, n, e)
  }

  /** The generator polynomial. */
  const GENERATOR: Poly := iset{32, 26, 23, 22, 16, 12, 11, 10, 8, 7, 5, 4, 2, 1, 0}

  /** The multiple of `g` by the sum of the powers x^k, for k in `ks`. */
  ghost function Multiple(g: Poly, ks: seq<nat>): Poly {
    if ks == [] then iset{} else Plus(Times(g, ks[0]), Multiple(g, ks[1..]))
  }

  /** `p` and `q` leave the same remainder when they are divided by `g`. */
  ghost predicate Congruent(g: Poly, p: Poly, q: Poly) {
    exists ks :: Plus(p, q) == Multiple(g, ks)
  }

  // ---------------------------------------------------------------- polynomials

  lemma PlusAssociates(a: Poly, b: Poly, c: Poly)
    ensures Plus(Plus(a, b), c) == Plus(a, Plus(b, c))
  {}

  lemma PlusCancels(a: Poly, b: Poly, c: Poly)
    ensures Plus(Plus(a, b), Plus(b, c)) == Plus(a, c)
  {}

  lemma TimesOne(p: Poly)
    ensures Times(p, 0) == p
  {
    assert forall e: nat :: e in Times(p, 0) <==> Shifted(p, 0, e);
  }

  lemma TimesPlus(p: Poly, q: Poly, n: nat)
    ensures Times(Plus(p, q), n) == Plus(Times(p, n), Times(q, n))
  {
    forall e: nat ensures e in Times(Plus(p, q), n) <==> e in Plus(Times(p, n), Times(q, n)) {
      assert Shifted(Plus(p, q), n, e) <==> Shifted(p, n, e) != Shifted(q, n, e);
    }
  }

  lemma TimesTimes(p: Poly, m: nat, n: nat)
    ensures Times(Times(p, m), n) == Times(p, m + n)
  {
    forall e: nat ensures e in Times(Times(p, m), n) <==> e in Times(p, m + n) {
      assert Shifted(Times(p, m), n, e) <==> Shifted(p, m + n, e);
    }
  }

  lemma {:induction false} MultiplePlus(g: Poly, js: seq<nat>, ks: seq<nat>)
    ensures Multiple(g, js + ks) == Plus(Multiple(g, js), Multiple(g, ks))
    decreases |js|
  {
    if js == [] {
      assert js + ks == ks;
    } else {
      assert (js + ks)[1..] == js[1..] + ks;
      MultiplePlus(g, js[1..], ks);
      PlusAssociates(Times(g, js[0]), Multiple(g, js[1..]), Multiple(g, ks));
    }
  }

  function Raised(ks: seq<nat>, n: nat): seq<nat> {
    seq(|ks|, i requires 0 <= i < |ks| => ks[i] + n)
  }

  lemma {:induction false} MultipleTimes(g: Poly, ks: seq<nat>, n: nat)
    ensures Times(Multiple(g, ks), n) == Multiple(g, Raised(ks, n))
    decreases |ks|
  {
    if ks == [] {
      TimesNothing(n);
    } else {
      MultipleTimes(g, ks[1..], n);
      MultipleTimesStep(g, ks, n);
    }
  }

  lemma TimesNothing(n: nat)
    ensures Times(iset{}, n) == iset{}
  {}

  lemma MultipleTimesStep(g: Poly, ks: seq<nat>, n: nat)
    requires ks != [] && Times(Multiple(g, ks[1..]), n) == Multiple(g, Raised(ks[1..], n))
    ensures Times(Multiple(g, ks), n) == Multiple(g, Raised(ks, n))
  {
    var rs, a, m := Raised(ks, n), Times(g, ks[0]), Multiple(g, ks[1..]);
    assert rs[1..] == Raised(ks[1..], n) && rs[0] == ks[0] + n;
    TimesPlus(a, m, n);
    TimesTimes(g, ks[0], n);
    assert Multiple(g, rs) == Plus(Times(g, rs[0]), Multiple(g, rs[1..]));
  }

  lemma CongruentSelf(g: Poly, p: Poly)
    ensures Congruent(g, p, p)
  {
    assert Plus(p, p) == Multiple(g, []);
  }

  lemma CongruentChain(g: Poly, p: Poly, q: Poly, r: Poly)
    requires Congruent(g, p, q) && Congruent(g, q, r)
    ensures Congruent(g, p, r)
  {
    var js :| Plus(p, q) == Multiple(g, js);
    var ks :| Plus(q, r) == Multiple(g, ks);
    MultiplePlus(g, js, ks);
    PlusCancels(p, q, r);
    assert Plus(p, r) == Multiple(g, js + ks);
  }

  lemma CongruentTimes(g: Poly, p: Poly, q: Poly, n: nat)
    requires Congruent(g, p, q)
    ensures Congruent(g, Times(p, n), Times(q, n))
  {
    var ks :| Plus(p, q) == Multiple(g, ks);
    TimesPlus(p, q, n);
    MultipleTimes(g, ks, n);
    assert Plus(Times(p, n), Times(q, n)) == Multiple(g, Raised(ks, n));
  }

  lemma CongruentPlus(g: Poly, p: Poly, q: Poly, r: Poly)
    requires Congruent(g, p, q)
    ensures Congruent(g, Plus(p, r), Plus(q, r))
  {
    var ks :| Plus(p, q) == Multiple(g, ks);
    assert Plus(Plus(p, r), Plus(q, r)) == Plus(p, q);
  }

  // ---------------------------------------------------------------- registers

  /** The binary digit of weight 2^i. */
  predicate Bit(x: nat, i: nat)
    decreases i
  {
    if i == 0 then x % 2 == 1 else Bit(x / 2, i - 1)
  }

  lemma {:induction false} Digit(x: nat, n: nat, i: nat)
    requires i < n
    ensures OfNat(x, n)[i] == Bit(x, i)
    decreases n
  {
    if i != 0 {
      Digit(x / 2, n - 1, i - 1);
    }
  }

  ghost predicate Term(c: Register, e: nat) {
    e < 32 && c[31 - e]
  }

  /** The polynomial in a register: its lowest digit is the coefficient of x^31. */
  ghost function Terms(c: Register): Poly {
    iset e: nat | Term(c, e)
  }

  lemma TermsXor(a: Register, b: Register)
    ensures Terms(Xor(a, b)) == Plus(Terms(a), Terms(b))
  {
    forall e: nat ensures e in Terms(Xor(a, b)) <==> e in Plus(Terms(a), Terms(b)) {
      assert Term(Xor(a, b), e) <==> Term(a, e) != Term(b, e);
    }
  }

  /** The generator, but for its highest term, is what the register is mixed with. */
  lemma PolynomialTerms()
    ensures Plus(Terms(Polynomial()), iset{32}) == GENERATOR
  {
    var hs := PolynomialInHex();
    HexRegister(GENERATOR, POLYNOMIAL, hs);
    GeneratorDegree();
    GeneratorTerms(GENERATOR, Polynomial());
  }

  /** The digits of the register are the lower coefficients of `g`, reflected. */
  ghost predicate Reflects(g: Poly, c: Register) {
    forall i :: 0 <= i < 32 ==> (c[i] <==> 31 - i in g)
  }

  lemma HexRegister(g: Poly, x: nat, hs: seq<nat>)
    requires Reflected(g, hs) && Hex(hs) == x
    ensures Reflects(g, OfNat(x, 32))
  {
    forall i | 0 <= i < 32 ensures OfNat(x, 32)[i] <==> 31 - i in g {
      HexDigit(g, x, hs, i / 4, i % 4);
    }
  }

  lemma GeneratorTerms(g: Poly, c: Register)
    requires Reflects(g, c) && 32 in g && DegreeBelow(g, 33)
    ensures Plus(Terms(c), iset{32}) == g
  {
    forall e: nat ensures Term(c, e) <==> e != 32 && e in g {
      if e < 32 {
        assert c[31 - e] <==> 31 - (31 - e) in g;
      }
    }
    assert forall e: nat :: e in Terms(c) <==> Term(c, e);
  }

  /** The number with these hexadecimal digits, lowest first. */
  function Hex(hs: seq<nat>): nat {
    if hs == [] then 0 else hs[0] + 16 * Hex(hs[1..])
  }

  lemma Nibble(h: nat, l: nat, i: nat)
    requires l < 16
    ensures Bit(16 * h + l, i) == if i < 4 then Bit(l, i) else Bit(h, i - 4)
  {
    var x := 16 * h + l;
    assert x / 2 / 2 / 2 / 2 == h;
    assert x % 2 == l % 2 && x / 2 % 2 == l / 2 % 2;
    assert x / 2 / 2 % 2 == l / 2 / 2 % 2 && x / 2 / 2 / 2 % 2 == l / 2 / 2 / 2 % 2;
    if i >= 4 {
      assert Bit(x, i) == Bit(x / 2, i - 1) == Bit(x / 2 / 2, i - 2) == Bit(x / 2 / 2 / 2, i - 3) == Bit(h, i - 4);
    } else if i == 3 {
      assert Bit(x, 3) == Bit(x / 2, 2) == Bit(x / 2 / 2, 1) == Bit(x / 2 / 2 / 2, 0);
      assert Bit(l, 3) == Bit(l / 2, 2) == Bit(l / 2 / 2, 1) == Bit(l / 2 / 2 / 2, 0);
    } else if i == 2 {
      assert Bit(x, 2) == Bit(x / 2, 1) == Bit(x / 2 / 2, 0) && Bit(l, 2) == Bit(l / 2, 1) == Bit(l / 2 / 2, 0);
    }
  }

  lemma {:induction false} HexDigits(hs: seq<nat>, k: nat, j: nat)
    requires (forall i :: 0 <= i < |hs| ==> hs[i] < 16) && k < |hs| && j < 4
    ensures Bit(Hex(hs), 4 * k + j) == Bit(hs[k], j)
    decreases k
  {
    Nibble(Hex(hs[1..]), hs[0], 4 * k + j);
    if k > 0 {
      HexDigits(hs[1..], k - 1, j);
    }
  }

  lemma PolynomialHex()
    ensures Hex([0x0, 0x2, 0x3, 0x8, 0x8, 0xB, 0xD, 0xE]) == POLYNOMIAL
  {
    var hs: seq<nat> := [0x0, 0x2, 0x3, 0x8, 0x8, 0xB, 0xD, 0xE];
    assert hs[1..] == [0x2, 0x3, 0x8, 0x8, 0xB, 0xD, 0xE];
    assert hs[1..][1..] == [0x3, 0x8, 0x8, 0xB, 0xD, 0xE];
    assert hs[1..][1..][1..] == [0x8, 0x8, 0xB, 0xD, 0xE];
    assert hs[1..][1..][1..][1..] == [0x8, 0xB, 0xD, 0xE];
    assert [0x8, 0xB, 0xD, 0xE][1..] == [0xB, 0xD, 0xE] && [0xB, 0xD, 0xE][1..] == [0xD, 0xE];
    assert [0xD, 0xE][1..] == [0xE] && [0xE][1..] == [];
    assert Hex([0xE]) == 0xE && Hex([0xD, 0xE]) == 0xED;
    assert Hex([0xB, 0xD, 0xE]) == 0xEDB;
    assert Hex([0x8, 0xB, 0xD, 0xE]) == 0xEDB8;
    assert Hex([0x8, 0x8, 0xB, 0xD, 0xE]) == 0xE_DB88;
    assert Hex([0x3, 0x8, 0x8, 0xB, 0xD, 0xE]) == 0xED_B883;
    assert Hex([0x2, 0x3, 0x8, 0x8, 0xB, 0xD, 0xE]) == 0xEDB_8832;
  }

  lemma HexTerms(h: nat, k: nat, j: nat)
    requires k < 8 && j < 4 && h == [0x0, 0x2, 0x3, 0x8, 0x8, 0xB, 0xD, 0xE][k]
    ensures Bit(h, j) <==> 31 - (4 * k + j) in GENERATOR
  {
    assert Bit(h, 0) == (h % 2 == 1) && Bit(h, 1) == (h / 2 % 2 == 1);
    assert Bit(h, 2) == Bit(h / 2, 1) == (h / 2 / 2 % 2 == 1);
    assert Bit(h, 3) == Bit(h / 2, 2) == Bit(h / 2 / 2, 1) == (h / 2 / 2 / 2 % 2 == 1);
  }

  ghost predicate Reflected(g: Poly, hs: seq<nat>) {
    && |hs| == 8 && (forall k :: 0 <= k < 8 ==> hs[k] < 16)
    && forall k: nat, j: nat :: k < 8 && j < 4 ==> (Bit(hs[k], j) <==> 31 - (4 * k + j) in g)
  }

  lemma HexReflected()
    ensures Reflected(GENERATOR, [0x0, 0x2, 0x3, 0x8, 0x8, 0xB, 0xD, 0xE])
  {
    var hs: seq<nat> := [0x0, 0x2, 0x3, 0x8, 0x8, 0xB, 0xD, 0xE];
    forall k: nat, j: nat | k < 8 && j < 4 ensures Bit(hs[k], j) <==> 31 - (4 * k + j) in GENERATOR {
      HexTerms(hs[k], k, j);
    }
  }

  lemma PolynomialInHex() returns (hs: seq<nat>)
    ensures Reflected(GENERATOR, hs) && Hex(hs) == POLYNOMIAL
  {
    hs := [0x0, 0x2, 0x3, 0x8, 0x8, 0xB, 0xD, 0xE];
    PolynomialHex();
    HexReflected();
  }

  lemma HexDigit(g: Poly, x: nat, hs: seq<nat>, k: nat, j: nat)
    requires Reflected(g, hs) && Hex(hs) == x && k < 8 && j < 4
    ensures OfNat(x, 32)[4 * k + j] <==> 31 - (4 * k + j) in g
  {
    Digit(x, 32, 4 * k + j);
    HexDigits(hs, k, j);
  }

  // ---------------------------------------------------------------- the register divides

  lemma TermsRaised(c: Register)
    ensures Plus(Terms(c[1..] + [false]), if c[0] then iset{32} else iset{}) == Times(Terms(c), 1)
  {
    var d := c[1..] + [false];
    forall e: nat ensures e in Times(Terms(c), 1) <==> Term(d, e) != (c[0] && e == 32) {
      assert Shifted(Terms(c), 1, e) <==> e >= 1 && Term(c, e - 1);
    }
  }

  /** A digit leaving the register multiplies by x, and takes the generator away where that overflows. */
  lemma ShiftDivides(c: Register)
    ensures Congruent(GENERATOR, Terms(Shift(c)), Times(Terms(c), 1))
  {
    var d := c[1..] + [false];
    TermsRaised(c);
    if c[0] {
      PolynomialTerms();
      TermsXor(d, Polynomial());
      Overflow(GENERATOR, Terms(d), Terms(Polynomial()), Times(Terms(c), 1));
    } else {
      assert Plus(Terms(d), iset{}) == Terms(d);
      CongruentSelf(GENERATOR, Terms(d));
    }
  }

  lemma Overflow(g: Poly, d: Poly, p: Poly, t: Poly)
    requires Plus(p, iset{32}) == g && Plus(d, iset{32}) == t
    ensures Congruent(g, Plus(d, p), t)
  {
    assert Times(g, 0) == g;
    assert Multiple(g, [0]) == Plus(Times(g, 0), Multiple(g, [])) == g;
    assert Plus(Plus(d, p), t) == g;
  }

  ghost predicate Divides(g: Poly, f: Register -> Register, d: Register) {
    Congruent(g, Terms(f(d)), Times(Terms(d), 1))
  }

  lemma {:induction false} IterateDivides(g: Poly, f: Register -> Register, c: Register, n: nat)
    requires forall d: Register :: Divides(g, f, d)
    ensures Congruent(g, Terms(Iterate(f, c, n)), Times(Terms(c), n))
    decreases n
  {
    if n == 0 {
      TimesOne(Terms(c));
      CongruentSelf(g, Terms(c));
    } else {
      assert Divides(g, f, c);
      IterateDivides(g, f, f(c), n - 1);
      TurnStep(g, Terms(Iterate(f, f(c), n - 1)), Terms(f(c)), Terms(c), n - 1);
    }
  }

  lemma TurnDivides(c: Register, n: nat)
    ensures Congruent(GENERATOR, Terms(Turn(c, n)), Times(Terms(c), n))
  {
    forall d: Register ensures Divides(GENERATOR, Shift, d) {
      ShiftDivides(d);
    }
    IterateDivides(GENERATOR, Shift, c, n);
  }

  lemma TurnStep(g: Poly, p: Poly, d: Poly, c: Poly, n: nat)
    requires Congruent(g, d, Times(c, 1)) && Congruent(g, p, Times(d, n))
    ensures Congruent(g, p, Times(c, n + 1))
  {
    CongruentTimes(g, d, Times(c, 1), n);
    TimesTimes(c, 1, n);
    CongruentChain(g, p, Times(d, n), Times(c, n + 1));
  }

  ghost predicate OctetTerm(b: byte, e: nat) {
    e < 8 && Bit(b, 7 - e)
  }

  /** The polynomial in an octet: its lowest digit is the coefficient of x^7. */
  ghost function OctetTerms(b: byte): Poly {
    iset e: nat | OctetTerm(b, e)
  }

  /** The polynomial in a message, the first octet highest. */
  ghost function MessageTerms(data: bytes): Poly
    decreases |data|
  {
    if data == [] then iset{} else Plus(Times(OctetTerms(data[0]), 8 * (|data| - 1)), MessageTerms(data[1..]))
  }

  lemma OctetEnters(b: byte)
    ensures Terms(Pad(OfNat(b, 8))) == Times(OctetTerms(b), 24)
  {
    var c := Pad(OfNat(b, 8));
    forall e: nat ensures Term(c, e) <==> Shifted(OctetTerms(b), 24, e) {
      if 24 <= e < 32 {
        Digit(b, 8, 31 - e);
        assert OctetTerm(b, e - 24) <==> Bit(b, 31 - e);
      }
    }
  }

  lemma AbsorbDivides(c: Register, b: byte)
    ensures Congruent(GENERATOR, Terms(Absorb(c, b)), Plus(Times(Terms(c), 8), Times(OctetTerms(b), 32)))
  {
    var d := Xor(c, Pad(OfNat(b, 8)));
    OctetEnters(b);
    TermsXor(c, Pad(OfNat(b, 8)));
    TurnDivides(d, 8);
    TimesPlus(Terms(c), Times(OctetTerms(b), 24), 8);
    TimesTimes(OctetTerms(b), 24, 8);
  }

  /** What the register holds after `data`: what it held, moved up by all of them, and the message, moved up by the 32
      digits of the checksum. */
  ghost function Dividend(p: Poly, data: bytes): Poly {
    Plus(Times(p, 8 * |data|), Times(MessageTerms(data), 32))
  }

  lemma NextOctet(p: Poly, data: bytes)
    requires data != []
    ensures Dividend(Plus(Times(p, 8), Times(OctetTerms(data[0]), 32)), data[1..]) == Dividend(p, data)
  {
    var o, n, m := OctetTerms(data[0]), 8 * (|data| - 1), MessageTerms(data[1..]);
    TimesPlus(Times(p, 8), Times(o, 32), n);
    TimesTimes(p, 8, n);
    TimesTimes(o, 32, n);
    TimesPlus(Times(o, n), m, 32);
    TimesTimes(o, n, 32);
    PlusAssociates(Times(p, 8 * |data|), Times(o, n + 32), Times(m, 32));
  }

  lemma {:induction false} AbsorbAllDivides(c: Register, data: bytes)
    ensures Congruent(GENERATOR, Terms(AbsorbAll(c, data)), Dividend(Terms(c), data))
    decreases |data|
  {
    if data == [] {
      assert Times(Terms(c), 0) == Terms(c) && Times(iset{}, 32) == iset{};
      assert Dividend(Terms(c), data) == Terms(c);
      CongruentSelf(GENERATOR, Terms(c));
    } else {
      var d, q := Absorb(c, data[0]), Plus(Times(Terms(c), 8), Times(OctetTerms(data[0]), 32));
      AbsorbDivides(c, data[0]);
      AbsorbAllDivides(d, data[1..]);
      DividendCongruent(GENERATOR, Terms(d), q, data[1..]);
      NextOctet(Terms(c), data);
      CongruentChain(GENERATOR, Terms(AbsorbAll(d, data[1..])), Dividend(Terms(d), data[1..]), Dividend(q, data[1..]));
    }
  }

  lemma DividendCongruent(g: Poly, p: Poly, q: Poly, data: bytes)
    requires Congruent(g, p, q)
    ensures Congruent(g, Dividend(p, data), Dividend(q, data))
  {
    CongruentTimes(g, p, q, 8 * |data|);
    CongruentPlus(g, Times(p, 8 * |data|), Times(q, 8 * |data|), Times(MessageTerms(data), 32));
  }

  // ---------------------------------------------------------------- the checksum

  ghost predicate Below32(e: nat) {
    e < 32
  }

  /** x^31 + ... + x + 1 */
  ghost function AllOnes(): Poly {
    iset e: nat | Below32(e)
  }

  ghost predicate WordTerm(v: nat, e: nat) {
    e < 32 && Bit(v, 31 - e)
  }

  /** The polynomial in a 32-bit number: its lowest digit is the coefficient of x^31. */
  ghost function WordTerms(v: nat): Poly {
    iset e: nat | WordTerm(v, e)
  }

  lemma {:induction false} OfNatValue(d: Bits)
    ensures OfNat(Value(d), |d|) == d
    decreases |d|
  {
    if d != [] {
      OfNatValue(d[1..]);
      assert Value(d) / 2 == Value(d[1..]) && (Value(d) % 2 == 1) == d[0];
      assert d == [d[0]] + d[1..];
    }
  }

  lemma ValueTerms(c: Register)
    ensures WordTerms(Value(c)) == Terms(c)
  {
    OfNatValue(c);
    NumberTerms(Value(c), c);
  }

  lemma NumberTerms(v: nat, c: Register)
    requires OfNat(v, 32) == c
    ensures WordTerms(v) == Terms(c)
  {
    forall e: nat ensures WordTerm(v, e) <==> Term(c, e) {
      if e < 32 {
        Digit(v, 32, 31 - e);
      }
    }
  }

  lemma OnesTerms()
    ensures Terms(Ones()) == AllOnes()
  {
    forall e: nat ensures Term(Ones(), e) <==> Below32(e) {}
  }

  // ---------------------------------------------------------------- there is only one remainder

  function Without(ks: seq<nat>, k: nat): (rs: seq<nat>)
    ensures forall i :: 0 <= i < |rs| ==> rs[i] in ks && rs[i] != k
  {
    if ks == [] then []
    else if ks[0] == k then Without(ks[1..], k)
    else [ks[0]] + Without(ks[1..], k)
  }

  predicate Odd(ks: seq<nat>, k: nat) {
    ks != [] && Odd(ks[1..], k) != (ks[0] == k)
  }

  /** Equal powers cancel in pairs. */
  lemma {:induction false} MultipleSplits(g: Poly, ks: seq<nat>, k: nat)
    ensures Multiple(g, ks)
         == Plus(if Odd(ks, k) then Times(g, k) else iset{}, Multiple(g, Without(ks, k)))
    decreases |ks|
  {
    if ks != [] {
      var a, m, rest := Times(g, ks[0]), Multiple(g, ks[1..]), Without(ks[1..], k);
      MultipleSplits(g, ks[1..], k);
      if ks[0] == k {
        assert Plus(a, Plus(iset{}, Multiple(g, rest))) == Plus(a, Multiple(g, rest));
        assert Plus(a, Plus(a, Multiple(g, rest))) == Plus(iset{}, Multiple(g, rest));
      } else {
        var b := if Odd(ks[1..], k) then Times(g, k) else iset{};
        assert ([ks[0]] + rest)[1..] == rest;
        assert Multiple(g, [ks[0]] + rest) == Plus(a, Multiple(g, rest));
        assert Plus(a, Plus(b, Multiple(g, rest))) == Plus(b, Plus(a, Multiple(g, rest)));
      }
    }
  }

  ghost predicate DegreeBelow(p: Poly, n: nat) {
    forall e :: e in p ==> e < n
  }

  lemma {:induction false} MultipleBelow(g: Poly, ks: seq<nat>, n: nat)
    requires DegreeBelow(g, 33) && forall i :: 0 <= i < |ks| ==> ks[i] < n
    ensures DegreeBelow(Multiple(g, ks), n + 32)
    decreases |ks|
  {
    if ks != [] {
      MultipleBelow(g, ks[1..], n);
      assert forall e :: e in Times(g, ks[0]) ==> Shifted(g, ks[0], e);
    }
  }

  lemma TopTerm(g: Poly, k: nat, m: Poly)
    requires 32 in g && DegreeBelow(m, k + 32)
    ensures k + 32 in Plus(Times(g, k), m)
  {
    assert Shifted(g, k, k + 32);
  }

  /** No multiple of a polynomial of degree 32 has a smaller degree, but nothing. */
  lemma {:induction false} SmallMultiple(g: Poly, ks: seq<nat>, n: nat)
    requires 32 in g && DegreeBelow(g, 33) && DegreeBelow(Multiple(g, ks), 32)
    requires forall i :: 0 <= i < |ks| ==> ks[i] < n
    ensures Multiple(g, ks) == iset{}
    decreases n
  {
    if n > 0 {
      var k, rest := n - 1, Without(ks, n - 1);
      MultipleSplits(g, ks, k);
      MultipleBelow(g, rest, k);
      if Odd(ks, k) {
        TopTerm(g, k, Multiple(g, rest));
        assert false;
      }
      assert Plus(iset{}, Multiple(g, rest)) == Multiple(g, rest);
      SmallMultiple(g, rest, k);
    } else {
      assert ks == [];
    }
  }

  function Bound(ks: seq<nat>): (n: nat)
    ensures forall i :: 0 <= i < |ks| ==> ks[i] < n
  {
    if ks == [] then 0 else if ks[0] < Bound(ks[1..]) then Bound(ks[1..]) else ks[0] + 1
  }

  lemma RemaindersAgree(g: Poly, p: Poly, q: Poly)
    requires 32 in g && DegreeBelow(g, 33) && DegreeBelow(p, 32) && DegreeBelow(q, 32) && Congruent(g, p, q)
    ensures p == q
  {
    var ks :| Plus(p, q) == Multiple(g, ks);
    SmallMultiple(g, ks, Bound(ks));
    forall e: nat ensures e in p <==> e in q {
      assert e in Plus(p, q) <==> (e in p) != (e in q);
    }
  }

  lemma CongruentBack(g: Poly, p: Poly, q: Poly)
    requires Congruent(g, p, q)
    ensures Congruent(g, q, p)
  {
    var ks :| Plus(p, q) == Multiple(g, ks);
    assert Plus(q, p) == Multiple(g, ks);
  }

  /** The message followed by 32 zeros, its first 32 digits inverted. */
  ghost function Prepared(data: bytes): Poly {
    Plus(Times(AllOnes(), 8 * |data|), Times(MessageTerms(data), 32))
  }

  lemma ChecksumIsCongruent(data: bytes)
    ensures Congruent(GENERATOR, Plus(WordTerms(Checksum(data)), AllOnes()), Prepared(data))
  {
    var c := AbsorbAll(Ones(), data);
    OnesTerms();
    ValueTerms(Xor(c, Ones()));
    TermsXor(c, Ones());
    assert Plus(Plus(Terms(c), AllOnes()), AllOnes()) == Terms(c);
    AbsorbAllDivides(Ones(), data);
  }

  /** The checksum is the remainder: among all polynomials of degree below 32 it is, but for the inversion at the end,
      the one that the generator leaves of what it looks at, prepared by inverting 32 digits in front and adding 32
      zeros behind.  Below 4 GiB it looks at all of the data. */
  lemma {:induction false} ChecksumIsRemainder(data: bytes, p: Poly)
    requires DegreeBelow(p, 32)
    ensures Congruent(GENERATOR, p, Prepared(data[..|data| % 0x1_0000_0000]))
       <==> p == Plus(WordTerms(ComputeCRC32(data)), AllOnes())
  {
    var looked := data[..|data| % 0x1_0000_0000];
    ChecksumIsCongruent(looked);
    WordDegree(Checksum(looked));
    GeneratorDegree();
    OnlyRemainder(GENERATOR, p, Plus(WordTerms(Checksum(looked)), AllOnes()), Prepared(looked));
  }

  lemma GeneratorDegree()
    ensures 32 in GENERATOR && DegreeBelow(GENERATOR, 33)
  {}

  lemma WordDegree(v: nat)
    ensures DegreeBelow(Plus(WordTerms(v), AllOnes()), 32)
  {
    assert forall e :: e in AllOnes() ==> Below32(e);
    assert forall e :: e in WordTerms(v) ==> WordTerm(v, e);
  }

  lemma OnlyRemainder(g: Poly, p: Poly, q: Poly, d: Poly)
    requires 32 in g && DegreeBelow(g, 33) && DegreeBelow(p, 32) && DegreeBelow(q, 32) && Congruent(g, q, d)
    ensures Congruent(g, p, d) <==> p == q
  {
    if Congruent(g, p, d) {
      CongruentBack(g, q, d);
      CongruentChain(g, p, d, q);
      RemaindersAgree(g, p, q);
    }
  }

  /** Nothing at all has the checksum 0. */
  lemma EmptyChecksum()
    ensures ComputeCRC32([]) == 0
  {
    assert Xor(Ones(), Ones()) == Zeros(WIDTH);
    ValueZeros(WIDTH);
  }

  lemma {:induction false} ValueZeros(n: nat)
    ensures Value(Zeros(n)) == 0
    decreases n
  {
    if n != 0 {
      assert Zeros(n)[1..] == Zeros(n - 1);
      ValueZeros(n - 1);
    }
  }
}
