/** The files of a block: names printed by snprintf, directories, and the way back from a name to an id. */
module Paths {
  import opened Bytes
  import opened Decimal

  const SLASH: byte := 47
  const DOT: byte := 46

  /** The three files a block can have. */
  datatype Kind = DataFile | MetaFile | TmpFile

  function Suffix(k: Kind): bytes {
    match k
    case DataFile => Ascii(".dat")
    case MetaFile => Ascii(".meta")
    case TmpFile => Ascii(".dat.tmp")
  }

  function BlocksDir(d: bytes): bytes {
    d + Ascii("/blocks")
  }

  function TmpDir(d: bytes): bytes {
    d + Ascii("/tmp")
  }

  /** The conversion %06llu. */
  function Pad6(id: uint64): bytes {
    var p := Print(id);
    seq(if |p| < 6 then 6 - |p| else 0, _ => ZERO) + p
  }

  /** The text of a 64-octet buffer after snprintf: at most 63 octets and a terminator. */
  function Buffer64(text: bytes): bytes {
    Upto(text, 63)
  }

  function FileName(id: uint64, k: Kind): bytes {
    Buffer64(Ascii("block_") + Pad6(id) + Suffix(k))
  }

  function Child(dir: bytes, name: bytes): bytes {
    dir + [SLASH] + name
  }

  function BlockDataPath(d: bytes, id: uint64): bytes {
    Child(BlocksDir(d), FileName(id, DataFile))
  }

  function BlockMetaPath(d: bytes, id: uint64): bytes {
    Child(BlocksDir(d), FileName(id, MetaFile))
  }

  function BlockTmpPath(d: bytes, id: uint64): bytes {
    Child(TmpDir(d), FileName(id, TmpFile))
  }

  function PathOf(d: bytes, id: uint64, k: Kind): bytes {
    match k
    case DataFile => BlockDataPath(d, id)
    case MetaFile => BlockMetaPath(d, id)
    case TmpFile => BlockTmpPath(d, id)
  }

  /** The id ListAllBlocks reads out of a file name, if it takes the name for a meta file. */
  function BlockIdOfName(name: bytes): (id: Option<uint64>) {
    if |name| > 5 && name[|name| - 5..] == Ascii(".meta") && |name| >= 12 then
      ExtractInt(name[6..|name| - 5], 0, TWO_64 - 1).value
    else None
  }

  // ---------------------------------------------------------------- names

  lemma Pad6Digits(id: uint64)
    ensures AllDigits(Pad6(id)) && 6 <= |Pad6(id)| <= 20
    ensures Number(Pad6(id)) == id
  {
    var p := Print(id);
    Pow10Values();
    PrintLength(id, 20);
    NumberPrint(id);
    NumberPadded(if |p| < 6 then 6 - |p| else 0, p);
  }

  lemma Pow10Values()
    ensures Pow10(20) > TWO_64
  {
    assert Pow10(5) == 100000;
    assert Pow10(10) == 10000000000;
    assert Pow10(15) == 1000000000000000;
  }

  lemma SuffixShape(k: Kind)
    ensures 4 <= |Suffix(k)| <= 8 && Suffix(k)[0] == DOT
    ensures Suffix(DataFile) != Suffix(MetaFile) && Suffix(DataFile) != Suffix(TmpFile)
    ensures Suffix(MetaFile) != Suffix(TmpFile)
    ensures SLASH !in Suffix(k)
  {}

  /** No name is cut by the buffer. */
  lemma NotTruncated(id: uint64, k: Kind)
    ensures FileName(id, k) == Ascii("block_") + Pad6(id) + Suffix(k)
  {
    Pad6Digits(id);
    SuffixShape(k);
  }

  /** Digits and what follows them can be told apart. */
  lemma SplitInjective(p: bytes, d: bytes, s: bytes, d': bytes, s': bytes)
    requires AllDigits(d) && AllDigits(d')
    requires s != [] && s' != [] && !IsDigit(s[0]) && !IsDigit(s'[0])
    requires p + d + s == p + d' + s'
    ensures d == d' && s == s'
  {
    assert p + d + s == p + (d + s);
    assert p + d' + s' == p + (d' + s');
    PrefixCancels(p, d + s, d' + s');
    TakeAll(d, s);
    TakeAll(d', s');
  }

  lemma NameInjective(id: uint64, k: Kind, id': uint64, k': Kind)
    requires FileName(id, k) == FileName(id', k')
    ensures id == id' && k == k'
  {
    NotTruncated(id, k);
    NotTruncated(id', k');
    SuffixShape(k);
    SuffixShape(k');
    Pad6Digits(id);
    Pad6Digits(id');
    SplitInjective(Ascii("block_"), Pad6(id), Suffix(k), Pad6(id'), Suffix(k'));
  }

  lemma PrefixCancels(p: bytes, x: bytes, y: bytes)
    requires p + x == p + y
    ensures x == y
  {
    assert x == (p + x)[|p|..] == (p + y)[|p|..] == y;
  }

  lemma NameHasNoSlash(id: uint64, k: Kind)
    ensures SLASH !in FileName(id, k) && FileName(id, k) != []
  {
    NotTruncated(id, k);
    Pad6Digits(id);
    SuffixShape(k);
    assert SLASH !in Ascii("block_");
  }

  /** The way back from a meta file's name is exact for every id, and no other name of a block takes it. */
  lemma NameParses(id: uint64, k: Kind)
    ensures BlockIdOfName(FileName(id, k)) == if k == MetaFile then Some(id) else None
  {
    var name := FileName(id, k);
    var d := Pad6(id);
    NotTruncated(id, k);
    Pad6Digits(id);
    SuffixShape(k);
    if k == MetaFile {
      assert |Ascii(".meta")| == 5;
      assert name[|name| - 5..] == Ascii(".meta");
      assert name[6..|name| - 5] == d;
      ExtractDigits([], false, d, [], 0, TWO_64 - 1);
      assert [] + (Sign(false) + d + []) == d;
    } else {
      assert name[|name| - 1] == Suffix(k)[|Suffix(k)| - 1];
      assert Ascii(".meta")[4] == 'a' as int;
      assert name[|name| - 5..][4] == name[|name| - 1];
    }
  }

  // ---------------------------------------------------------------- paths

  lemma DirsDiffer(d: bytes, m: bytes, n: bytes)
    ensures Child(BlocksDir(d), m) != Child(TmpDir(d), n)
  {
    assert Child(BlocksDir(d), m)[|d| + 1] == 'b' as int;
    assert Child(TmpDir(d), n)[|d| + 1] == 't' as int;
  }

  lemma ChildInjective(dir: bytes, m: bytes, n: bytes)
    requires Child(dir, m) == Child(dir, n)
    ensures m == n
  {
    PrefixCancels(dir + [SLASH], m, n);
  }

  /** Different blocks, and different files of one block, have different paths. */
  lemma PathInjective(d: bytes, id: uint64, k: Kind, id': uint64, k': Kind)
    requires PathOf(d, id, k) == PathOf(d, id', k')
    ensures id == id' && k == k'
  {
    DirsDiffer(d, FileName(id, k), FileName(id', k'));
    DirsDiffer(d, FileName(id', k'), FileName(id, k));
    ChildInjective(if k == TmpFile then TmpDir(d) else BlocksDir(d), FileName(id, k), FileName(id', k'));
    NameInjective(id, k, id', k');
  }

  /** `p` names an entry of directory `dir`: one component below it. */
  predicate IsChild(dir: bytes, p: bytes) {
    dir + [SLASH] < p && SLASH !in p[|dir| + 1..]
  }

  lemma ChildIsChild(dir: bytes, name: bytes)
    requires name != [] && SLASH !in name
    ensures IsChild(dir, Child(dir, name)) && Child(dir, name)[|dir| + 1..] == name
  {}

  lemma NotInTmpDir(d: bytes, name: bytes)
    ensures !IsChild(TmpDir(d), Child(BlocksDir(d), name))
  {
    var p := Child(BlocksDir(d), name);
    if IsChild(TmpDir(d), p) {
      DirsDiffer(d, name, p[|TmpDir(d)| + 1..]);
      assert false;
    }
  }

  lemma NotInBlocksDir(d: bytes, name: bytes)
    ensures !IsChild(BlocksDir(d), Child(TmpDir(d), name))
  {
    var p := Child(TmpDir(d), name);
    if IsChild(BlocksDir(d), p) {
      DirsDiffer(d, p[|BlocksDir(d)| + 1..], name);
      assert false;
    }
  }

  /** Temporary files are in the tmp directory, the others in the blocks directory. */
  lemma PathDirectory(d: bytes, id: uint64, k: Kind)
    ensures IsChild(TmpDir(d), PathOf(d, id, k)) <==> k == TmpFile
    ensures IsChild(BlocksDir(d), PathOf(d, id, k)) <==> k != TmpFile
  {
    var name := FileName(id, k);
    var p := PathOf(d, id, k);
    NameHasNoSlash(id, k);
    ChildIsChild(if k == TmpFile then TmpDir(d) else BlocksDir(d), name);
    if k == TmpFile {
      NotInBlocksDir(d, name);
    } else {
      NotInTmpDir(d, name);
    }
  }
}
