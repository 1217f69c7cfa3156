/** Decimal text: how streams and snprintf print integers, and how `>>`, stoull and stoi read them back. */
module Decimal {
  import opened Bytes

  const ZERO: byte := 48
  const PLUS: byte := 43
  const MINUS: byte := 45
  const SPACE: byte := 32
  const NEWLINE: byte := 10

  predicate IsDigit(b: byte) {
    ZERO <= b <= ZERO + 9
  }

  predicate IsSpace(b: byte) {
    b == SPACE || 9 <= b <= 13
  }

  ghost predicate AllDigits(d: bytes) {
    forall i :: 0 <= i < |d| ==> IsDigit(d[i])
  }

  // ---------------------------------------------------------------- printing

  function Print(n: nat): (d: bytes)
    ensures |d| >= 1 && AllDigits(d)
    decreases n
  {
    if n < 10 then [ZERO + n] else Print(n / 10) + [ZERO + n % 10]
  }

  function Abs(i: int): nat {
    if i < 0 then -i else i
  }

  function Sign(neg: bool): bytes {
    if neg then [MINUS] else []
  }

  function PrintInt(i: int): bytes {
    Sign(i < 0) + Print(Abs(i))
  }

  // ---------------------------------------------------------------- reading

  /** The value of a run of digits. */
  function Number(d: bytes): nat
    decreases |d|
  {
    if d == [] then 0
    else
      var last := d[|d| - 1];
      10 * Number(d[..|d| - 1]) + if IsDigit(last) then last - ZERO else 0
  }

  /** The digits some text starts with, and what follows them. */
  datatype DigitRun = DigitRun(digits: bytes, rest: bytes)

  function TakeDigits(b: bytes): DigitRun
    decreases |b|
  {
    if b != [] && IsDigit(b[0]) then
      var r := TakeDigits(b[1..]);
      DigitRun([b[0]] + r.digits, r.rest)
    else DigitRun([], b)
  }

  function SkipBlanks(b: bytes): bytes
    decreases |b|
  {
    if b != [] && IsSpace(b[0]) then SkipBlanks(b[1..]) else b
  }

  /** What one read leaves: the value, if there was one in range, and the text after it. */
  datatype Extraction = Extraction(value: Option<int>, rest: bytes)

  /** The value a sign and a magnitude denote in the type `[lo..hi]`.  Unsigned types wrap a negated value. */
  function Signed(neg: bool, v: nat, lo: int, hi: int): Option<int>
    requires lo <= 0 <= hi
  {
    if lo < 0 then
      var w: int := if neg then -(v as int) else v;
      if lo <= w <= hi then Some(w) else None
    else if v > hi then None
    else Some(if neg && v != 0 then hi + 1 - v else v)
  }

  predicate Negated(s: bytes) {
    s != [] && s[0] == MINUS
  }

  /** What follows an optional sign. */
  function AfterSign(s: bytes): bytes {
    if s != [] && (s[0] == MINUS || s[0] == PLUS) then s[1..] else s
  }

  /** An optional sign, then digits. */
  function ReadInt(s: bytes, lo: int, hi: int): (e: Extraction)
    requires lo <= 0 <= hi
    ensures e.value.Some? ==> lo <= e.value.value <= hi
  {
    var r := TakeDigits(AfterSign(s));
    Extraction(if r.digits == [] then None else Signed(Negated(s), Number(r.digits), lo, hi), r.rest)
  }

  /** Blanks, an optional sign, digits: the decimal grammar shared by `operator>>`, stoull and stoi. */
  function ExtractInt(b: bytes, lo: int, hi: int): (e: Extraction)
    requires lo <= 0 <= hi
    ensures e.value.Some? ==> lo <= e.value.value <= hi
  {
    ReadInt(SkipBlanks(b), lo, hi)
  }

  // ---------------------------------------------------------------- reading undoes printing

  lemma {:induction false} NumberPrint(n: nat)
    ensures Number(Print(n)) == n
    decreases n
  {
    var d := Print(n);
    if n >= 10 {
      NumberPrint(n / 10);
      assert d[..|d| - 1] == Print(n / 10);
    } else {
      assert d[..|d| - 1] == [];
    }
  }

  lemma {:induction false} NumberPrefix(d: bytes, k: nat)
    requires k <= |d|
    ensures Number(d[..k]) <= Number(d)
    decreases |d|
  {
    if k < |d| {
      var e := d[..|d| - 1];
      NumberPrefix(e, k);
      assert e[..k] == d[..k];
    } else {
      assert d[..k] == d;
    }
  }

  /** Leading zeros do not change the value. */
  lemma {:induction false} NumberPadded(z: nat, d: bytes)
    ensures Number(seq(z, _ => ZERO) + d) == Number(d)
    decreases z, |d|
  {
    var p := seq(z, _ => ZERO) + d;
    if d != [] {
      assert p[..|p| - 1] == seq(z, _ => ZERO) + d[..|d| - 1];
      NumberPadded(z, d[..|d| - 1]);
    } else if z != 0 {
      assert p[..|p| - 1] == seq(z - 1, _ => ZERO) + d;
      NumberPadded(z - 1, d);
    } else {
      assert p == [];
    }
  }

  lemma {:induction false} TakeAll(d: bytes, t: bytes)
    requires AllDigits(d) && (t == [] || !IsDigit(t[0]))
    ensures TakeDigits(d + t) == DigitRun(d, t)
    decreases |d|
  {
    if d == [] {
      assert d + t == t;
    } else {
      assert (d + t)[1..] == d[1..] + t;
      TakeAll(d[1..], t);
      assert d == [d[0]] + d[1..];
    }
  }

  lemma SkipLead(lead: bytes, s: bytes)
    requires lead == [] || lead == [SPACE]
    requires s == [] || !IsSpace(s[0])
    ensures SkipBlanks(lead + s) == s
  {
    assert SkipBlanks(s) == s;
    if lead == [SPACE] {
      assert (lead + s)[1..] == s;
    } else {
      assert lead + s == s;
    }
  }

  lemma SignThenDigits(neg: bool, d: bytes, t: bytes)
    requires AllDigits(d) && (d == [] ==> t == [])
    ensures AfterSign(Sign(neg) + d + t) == d + t
    ensures d != [] ==> Negated(Sign(neg) + d + t) == neg
  {
    if neg {
      assert Sign(neg) + d + t == [MINUS] + (d + t);
    } else {
      assert Sign(neg) + d + t == d + t;
    }
  }

  /** Digits after an optional sign, up to something that is not one, are read as their value. */
  lemma ReadDigits(neg: bool, d: bytes, t: bytes, lo: int, hi: int)
    requires AllDigits(d) && (t == [] || !IsDigit(t[0])) && lo <= 0 <= hi
    requires d == [] ==> t == []
    ensures ReadInt(Sign(neg) + d + t, lo, hi) ==
            Extraction(if d == [] then None else Signed(neg, Number(d), lo, hi), t)
  {
    SignThenDigits(neg, d, t);
    TakeAll(d, t);
  }

  lemma ExtractDigits(lead: bytes, neg: bool, d: bytes, t: bytes, lo: int, hi: int)
    requires lead == [] || lead == [SPACE]
    requires AllDigits(d) && (t == [] || !IsDigit(t[0])) && lo <= 0 <= hi
    requires d == [] ==> t == []
    ensures ExtractInt(lead + (Sign(neg) + d + t), lo, hi) ==
            Extraction(if d == [] then None else Signed(neg, Number(d), lo, hi), t)
  {
    var s := Sign(neg) + d + t;
    assert s == [] || !IsSpace(s[0]);
    SkipLead(lead, s);
    ReadDigits(neg, d, t, lo, hi);
  }

  lemma NothingAfter(a: bytes)
    ensures a + [] == a
  {}

  lemma Regroup(a: bytes, b: bytes, c: bytes, d: bytes)
    ensures a + (b + c) + d == a + (b + c + d)
  {}

  /** A printed integer is read back exactly, whatever follows it that is not a digit. */
  lemma ExtractPrinted(lead: bytes, i: int, t: bytes, lo: int, hi: int)
    requires lead == [] || lead == [SPACE]
    requires lo <= 0 <= hi && lo <= i <= hi && (t == [] || !IsDigit(t[0]))
    ensures ExtractInt(lead + PrintInt(i) + t, lo, hi) == Extraction(Some(i), t)
  {
    NumberPrint(Abs(i));
    ExtractDigits(lead, i < 0, Print(Abs(i)), t, lo, hi);
    Regroup(lead, Sign(i < 0), Print(Abs(i)), t);
  }

  /** How many digits are among the first `j` octets of a printed integer. */
  function CutDigits(i: int, j: nat): (k: nat)
    requires j <= |PrintInt(i)|
    ensures k <= |Print(Abs(i))|
  {
    if i < 0 && j > 0 then j - 1 else j
  }

  /** The value denoted by the first `j` octets of a printed integer. */
  function CutValue(i: int, j: nat): int
    requires j <= |PrintInt(i)|
  {
    var v: int := Number(Print(Abs(i))[..CutDigits(i, j)]); if i < 0 then -v else v
  }

  lemma CutText(i: int, j: nat)
    requires j <= |PrintInt(i)|
    ensures PrintInt(i)[..j] == Sign(i < 0 && j > 0) + Print(Abs(i))[..CutDigits(i, j)]
  {}

  lemma CutBound(i: int, j: nat)
    requires j <= |PrintInt(i)|
    ensures Number(Print(Abs(i))[..CutDigits(i, j)]) <= Abs(i)
  {
    NumberPrint(Abs(i));
    NumberPrefix(Print(Abs(i)), CutDigits(i, j));
  }

  /** Reading an integer whose text ends early consumes it all, and yields a value exactly when a digit is left. */
  lemma ExtractCut(lead: bytes, i: int, j: nat, lo: int, hi: int)
    requires lead == [] || lead == [SPACE]
    requires j <= |PrintInt(i)| && lo <= 0 <= hi && lo <= i <= hi
    ensures ExtractInt(lead + PrintInt(i)[..j], lo, hi) ==
            Extraction(if CutDigits(i, j) == 0 then None else Some(CutValue(i, j)), [])
  {
    var d := Print(Abs(i))[..CutDigits(i, j)];
    CutText(i, j);
    CutBound(i, j);
    ExtractDigits(lead, i < 0 && j > 0, d, [], lo, hi);
    NothingAfter(Sign(i < 0 && j > 0) + d);
  }

  lemma CutWhole(i: int)
    ensures CutValue(i, |PrintInt(i)|) == i && CutDigits(i, |PrintInt(i)|) != 0
  {
    NumberPrint(Abs(i));
    assert Print(Abs(i))[..CutDigits(i, |PrintInt(i)|)] == Print(Abs(i));
  }

  lemma ExtractNothing(lo: int, hi: int)
    requires lo <= 0 <= hi
    ensures ExtractInt([], lo, hi) == Extraction(None, [])
  {
  }

  /** A number below 10^k has at most k digits. */
  lemma {:induction false} PrintLength(n: nat, k: nat)
    requires k >= 1 && n < Pow10(k)
    ensures |Print(n)| <= k
    decreases k
  {
    assert Pow10(k) == 10 * Pow10(k - 1);
    if n >= 10 {
      PrintLength(n / 10, k - 1);
    }
  }

  function Pow10(k: nat): nat
    decreases k
  {
    if k == 0 then 1 else 10 * Pow10(k - 1)
  }
}
