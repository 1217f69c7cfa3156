/** The texts of the program octet by octet: what it writes as decimal numbers, meta lines, paths and node ids, and what
    it makes of any text it reads. */
module TextForms {
  import opened Bytes
  import opened Decimal
  import opened BlockMetas
  import opened Paths
  import opened NodeIds

  // ---------------------------------------------------------------- numbers

  ghost predicate DecimalDigits(d: bytes) {
    forall i :: 0 <= i < |d| ==> 48 <= d[i] <= 57
  }

  /** The number these digits denote in the decimal system. */
  function Positional(d: bytes): int {
    if d == [] then 0 else 10 * Positional(d[..|d| - 1]) + (d[|d| - 1] as int - 48)
  }

  lemma {:induction false} NumberIsPositional(d: bytes)
    requires DecimalDigits(d)
    ensures Number(d) == Positional(d)
    decreases |d|
  {
    if d != [] {
      NumberIsPositional(d[..|d| - 1]);
    }
  }

  /** A number is written in decimal digits, without leading zeros. */
  lemma {:induction false} PrintIs(n: nat)
    ensures var d := Print(n); DecimalDigits(d) && Positional(d) == n && (|d| > 1 ==> d[0] != 48)
    decreases n
  {
    var d := Print(n);
    assert forall i :: 0 <= i < |d| ==> IsDigit(d[i]);
    NumberIsPositional(d);
    NumberPrint(n);
    if n >= 10 {
      PrintIs(n / 10);
      assert d[0] == Print(n / 10)[0];
    }
  }

  lemma PrintIntIs(i: int)
    ensures PrintInt(i) == if i < 0 then [45] + Print(-i) else Print(i)
  {}

  /** The line of a meta file: four numbers, single blanks between them, a newline behind them. */
  lemma MetaLineIs(m: BlockMeta)
    ensures MetaLine(m) == PrintInt(m.block_id) + [32] + PrintInt(m.size) + [32] + PrintInt(m.crc32) + [32]
                           + PrintInt(m.create_time) + [10]
  {
    PrintIntIs(m.block_id);
    PrintIntIs(m.crc32);
  }

  // ---------------------------------------------------------------- reading numbers

  ghost predicate Blanks(b: bytes) {
    forall i :: 0 <= i < |b| ==> b[i] == 32 || 9 <= b[i] <= 13
  }

  /** A text taken apart: blanks, a sign, digits, and something that does not continue them. */
  ghost predicate Parts(blanks: bytes, sign: bytes, d: bytes, t: bytes) {
    && Blanks(blanks) && DecimalDigits(d) && (sign == [] || sign == [43] || sign == [45])
    && (t != [] ==> !(48 <= t[0] <= 57))
    && (sign == [] && d == [] && t != [] ==> t[0] != 43 && t[0] != 45 && t[0] != 32 && !(9 <= t[0] <= 13))
  }

  /** The value of the digits in the type from `lo` to `hi`, if it has one there; an unsigned type wraps a negated
      one. */
  function InType(minus: bool, v: int, lo: int, hi: int): Option<int> {
    if lo < 0 then
      var w := if minus then -v else v;
      if lo <= w <= hi then Some(w) else None
    else if v > hi then None
    else Some(if minus && v > 0 then hi + 1 - v else v)
  }

  lemma {:induction false} SkipAll(blanks: bytes, s: bytes)
    requires Blanks(blanks) && (s == [] || !(s[0] == 32 || 9 <= s[0] <= 13))
    ensures SkipBlanks(blanks + s) == s
    decreases |blanks|
  {
    if blanks == [] {
      assert blanks + s == s;
    } else {
      assert (blanks + s)[1..] == blanks[1..] + s;
      SkipAll(blanks[1..], s);
    }
  }

  lemma SignBehind(sign: bytes, d: bytes, t: bytes)
    requires Parts([], sign, d, t)
    ensures AfterSign(sign + (d + t)) == d + t && (Negated(sign + (d + t)) <==> sign == [45])
    ensures sign + (d + t) != [] ==> !((sign + (d + t))[0] == 32 || 9 <= (sign + (d + t))[0] <= 13)
  {
    var s := sign + (d + t);
    if sign == [] {
      assert s == d + t;
      if d == [] {
        assert s == t;
      }
    } else {
      assert s[1..] == d + t;
    }
  }

  /** What `>>`, stoull and stoi make of any text: nothing without a digit, and otherwise the number, if the type has
      it, and the text behind it. */
  lemma ExtractExactly(blanks: bytes, sign: bytes, d: bytes, t: bytes, lo: int, hi: int)
    requires Parts(blanks, sign, d, t) && lo <= 0 <= hi
    ensures var e := ExtractInt(blanks + (sign + (d + t)), lo, hi);
      && e.value == (if d == [] then None else InType(sign == [45], Positional(d), lo, hi))
      && (d != [] ==> e.rest == t)
  {
    var s := sign + (d + t);
    SignBehind(sign, d, t);
    SkipAll(blanks, s);
    ReadBehind(s, sign == [45], d, t, lo, hi);
    assert ExtractInt(blanks + s, lo, hi) == ReadInt(s, lo, hi);
  }

  lemma ReadBehind(s: bytes, minus: bool, d: bytes, t: bytes, lo: int, hi: int)
    requires AfterSign(s) == d + t && (Negated(s) <==> minus) && lo <= 0 <= hi
    requires DecimalDigits(d) && (t != [] ==> !(48 <= t[0] <= 57))
    ensures var e := ReadInt(s, lo, hi);
      && e.value == (if d == [] then None else InType(minus, Positional(d), lo, hi))
      && (d != [] ==> e.rest == t)
  {
    TakeAll(d, t);
    NumberIsPositional(d);
  }

  // ---------------------------------------------------------------- paths

  /** At least six digits. */
  ghost predicate IsPadded(id: uint64, d: bytes) {
    DecimalDigits(d) && Positional(d) == id && |d| >= 6 && (|d| > 6 ==> d[0] != 48)
  }

  lemma PaddedIs(id: uint64)
    ensures IsPadded(id, Pad6(id))
  {
    var d := Pad6(id);
    Pad6Digits(id);
    assert forall i :: 0 <= i < |d| ==> IsDigit(d[i]);
    NumberIsPositional(d);
    PrintIs(id);
  }

  /** The three paths of a block under the data directory `d`. */
  lemma PathIs(d: bytes, id: uint64)
    ensures PathOf(d, id, DataFile) == d + Ascii("/blocks/block_") + Pad6(id) + Ascii(".dat")
    ensures PathOf(d, id, MetaFile) == d + Ascii("/blocks/block_") + Pad6(id) + Ascii(".meta")
    ensures PathOf(d, id, TmpFile) == d + Ascii("/tmp/block_") + Pad6(id) + Ascii(".dat.tmp")
    ensures IsPadded(id, Pad6(id))
  {
    PaddedIs(id);
    NotTruncated(id, DataFile);
    NotTruncated(id, MetaFile);
    NotTruncated(id, TmpFile);
    assert Ascii("/blocks/block_") == Ascii("/blocks") + [47] + Ascii("block_");
    assert Ascii("/tmp/block_") == Ascii("/tmp") + [47] + Ascii("block_");
  }

  /** The id in any name that ends in .meta behind six octets and digits, whatever the six are. */
  lemma NameIsRead(front: bytes, d: bytes)
    requires |front| == 6 && d != [] && DecimalDigits(d)
    ensures BlockIdOfName(front + d + Ascii(".meta"))
         == if Positional(d) < 0x1_0000_0000_0000_0000 then Some(Positional(d)) else None
  {
    var name := front + d + Ascii(".meta");
    assert name[|name| - 5..] == Ascii(".meta");
    assert name[6..|name| - 5] == d;
    assert [] + ([] + (d + [])) == d;
    ExtractExactly([], [], d, [], 0, TWO_64 - 1);
    NumberIsPositional(d);
  }

  // ---------------------------------------------------------------- node ids

  /** The id the server puts together. */
  lemma NodeIdIs(host: bytes, port: int32)
    ensures NodeId(host, port) == host + [58] + PrintInt(port)
  {}

  /** What the client takes any id for: without a colon for no address, and otherwise for what is in front of the last
      colon and the number behind it; without a number of the type `int` there it throws. */
  lemma SplitIs(id: bytes, host: bytes, blanks: bytes, sign: bytes, d: bytes, t: bytes)
    requires Parts(blanks, sign, d, t) && 58 !in blanks + (sign + (d + t))
    ensures id == host + [58] + (blanks + (sign + (d + t))) ==>
      Split(id) == match if d == [] then None else InType(sign == [45], Positional(d), -0x8000_0000, 0x7FFF_FFFF)
                   case None => StoiThrows
                   case Some(port) => HostPort(host, port)
    ensures 58 !in id ==> Split(id) == Address.Unknown
  {
    var text := blanks + (sign + (d + t));
    if id == host + [58] + text {
      RFindIsLast(host, 58, text);
      assert id[..|host|] == host && id[|host| + 1..] == text;
      ExtractExactly(blanks, sign, d, t, -0x8000_0000, 0x7FFF_FFFF);
    }
  }
}
