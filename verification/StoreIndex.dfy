/** ListAllBlocks: the block index recovered from the names and contents of the blocks directory. */
module StoreIndex {
  import opened Bytes
  import opened BlockMetas
  import opened Paths
  import opened StoreSteps
  import opened StoreSystem
  import opened StoreReads

  /** What one directory entry contributes. */
  function ReadEntry(l: Layout, files: Files, name: bytes): Option<BlockMeta> {
    match BlockIdOfName(name)
    case None => None
    case Some(id) => GetBlockMeta(l.Files(id), files)
  }

  /** The scan: entries that yield a record push it back, in the order of the iteration. */
  function Collect(entry: bytes -> Option<BlockMeta>, names: seq<bytes>): seq<BlockMeta> {
    if names == [] then []
    else
      var rest := Collect(entry, names[1..]);
      match entry(names[0])
      case None => rest
      case Some(m) => [m] + rest
  }

  /** The result of ListAllBlocks, for the order in which the iteration yields the entries. */
  function ListBlocks(l: Layout, files: Files, names: seq<bytes>): seq<BlockMeta> {
    Collect((name: bytes) => ReadEntry(l, files, name), names)
  }

  /** `names` is what iterating over the blocks directory can yield: each entry once, in any order. */
  ghost predicate ListsBlocksDir(d: bytes, files: Files, names: seq<bytes>) {
    && (forall i, j :: 0 <= i < j < |names| ==> names[i] != names[j])
    && (forall n :: n in names <==> n != [] && SLASH !in n && Child(BlocksDir(d), n) in files)
  }

  /** Meta files that parse name the block they belong to. */
  ghost predicate MetaSound(l: Layout, files: Files) {
    forall id: uint64 :: GetBlockMeta(l.Files(id), files).Some? ==>
      GetBlockMeta(l.Files(id), files).value.block_id == id
  }

  lemma EntryOfName(l: Layout, files: Files, id: uint64, k: Kind)
    ensures ReadEntry(l, files, FileName(id, k)) ==
            if k == MetaFile then GetBlockMeta(l.Files(id), files) else None
  {
    NameParses(id, k);
  }

  ghost predicate OncePerId(r: seq<BlockMeta>) {
    forall i, j :: 0 <= i < j < |r| ==> r[i].block_id != r[j].block_id
  }

  /** Some record is for block `id`. */
  ghost predicate SameId(r: seq<BlockMeta>, id: uint64) {
    exists b: BlockMeta :: b in r && b.block_id == id
  }

  /** Two names never yield the same id. */
  ghost predicate Separate(entry: bytes -> Option<BlockMeta>, names: seq<bytes>) {
    forall m, n :: m in names && n in names && entry(m).Some? && entry(n).Some? && m != n ==>
      entry(m).value.block_id != entry(n).value.block_id
  }

  /** A scan of distinct entries that never yield the same id twice contains each yielded record once. */
  lemma {:induction false} CollectExact(entry: bytes -> Option<BlockMeta>, names: seq<bytes>)
    requires forall i, j :: 0 <= i < j < |names| ==> names[i] != names[j]
    requires Separate(entry, names)
    ensures var r := Collect(entry, names);
            && (forall m :: m in r <==> exists n :: n in names && entry(n) == Some(m))
            && OncePerId(r)
    decreases |names|
  {
    if names != [] {
      var n, tail := names[0], Collect(entry, names[1..]);
      CollectExact(entry, names[1..]);
      assert forall x :: x in names <==> x == n || x in names[1..];
      if entry(n).Some? {
        var r := [entry(n).value] + tail;
        forall i, j | 0 <= i < j < |r| ensures r[i].block_id != r[j].block_id {
          if i == 0 {
            assert r[j] in tail;
          } else {
            assert r[i] == tail[i - 1] && r[j] == tail[j - 1];
          }
        }
      }
    }
  }

  /** A name in the blocks directory of a store that holds only files of blocks. */
  lemma EntryInBlocksDir(d: bytes, files: Files, n: bytes) returns (id: uint64, k: Kind)
    requires OwnFiles(LayoutOf(d), files) && Child(BlocksDir(d), n) in files
    ensures n == FileName(id, k)
  {
    var p := Child(BlocksDir(d), n);
    assert IsOwn(LayoutOf(d), p);
    id, k :| p == PathOf(d, id, k);
    if k == TmpFile {
      DirsDiffer(d, n, FileName(id, k));
    } else {
      ChildInjective(BlocksDir(d), n, FileName(id, k));
    }
  }

  /** The scan yields a record for a name exactly when it is the name of a meta file that parses. */
  lemma EntryExactly(d: bytes, files: Files, n: bytes)
    requires OwnFiles(LayoutOf(d), files) && MetaSound(LayoutOf(d), files) && Child(BlocksDir(d), n) in files
    ensures var e := ReadEntry(LayoutOf(d), files, n);
            e.Some? ==> && n == FileName(e.value.block_id, MetaFile)
                        && GetBlockMeta(LayoutOf(d).Files(e.value.block_id), files) == e
  {
    var id, k := EntryInBlocksDir(d, files, n);
    EntryOfName(LayoutOf(d), files, id, k);
  }

  lemma MetaIsListed(d: bytes, files: Files, names: seq<bytes>, id: uint64)
    requires ListsBlocksDir(d, files, names) && GetBlockMeta(LayoutOf(d).Files(id), files).Some?
    ensures FileName(id, MetaFile) in names
    ensures ReadEntry(LayoutOf(d), files, FileName(id, MetaFile)) == GetBlockMeta(LayoutOf(d).Files(id), files)
  {
    NameHasNoSlash(id, MetaFile);
    EntryOfName(LayoutOf(d), files, id, MetaFile);
  }

  /** The index is exact: one entry for every id whose meta file parses, equal to what GetBlockMeta says of it,
      and no other, whatever the order of the directory. */
  lemma IndexIsExact(d: bytes, files: Files, names: seq<bytes>)
    requires OwnFiles(LayoutOf(d), files) && MetaSound(LayoutOf(d), files) && ListsBlocksDir(d, files, names)
    ensures var r := ListBlocks(LayoutOf(d), files, names);
            && (forall id: uint64, m: BlockMeta :: m in r && m.block_id == id <==>
                  GetBlockMeta(LayoutOf(d).Files(id), files) == Some(m))
            && OncePerId(r)
  {
    var l := LayoutOf(d);
    var entry := (name: bytes) => ReadEntry(l, files, name);
    forall n | n in names && entry(n).Some?
      ensures n == FileName(entry(n).value.block_id, MetaFile)
      ensures GetBlockMeta(l.Files(entry(n).value.block_id), files) == entry(n)
    {
      EntryExactly(d, files, n);
    }
    CollectExact(entry, names);
    forall id: uint64 | GetBlockMeta(l.Files(id), files).Some?
      ensures FileName(id, MetaFile) in names && entry(FileName(id, MetaFile)) == GetBlockMeta(l.Files(id), files)
    {
      MetaIsListed(d, files, names, id);
    }
  }

  lemma ReachableIsSound(d: bytes, s: Sys)
    requires Reachable(LayoutOf(d), s)
    ensures OwnFiles(LayoutOf(d), s.files) && MetaSound(LayoutOf(d), s.files)
  {
    var l := LayoutOf(d);
    LayoutIsGood(d);
    ReachableInv(l, s);
    forall id: uint64 | GetBlockMeta(l.Files(id), s.files).Some?
      ensures GetBlockMeta(l.Files(id), s.files).value.block_id == id
    {
      MetaOfLatest(l, s, id, GetBlockMeta(l.Files(id), s.files).value);
    }
  }

  /** The index of every reachable state is exact, in the middle of a request or just after a crash included. */
  lemma IndexRecovered(d: bytes, s: Sys, names: seq<bytes>)
    requires Reachable(LayoutOf(d), s) && ListsBlocksDir(d, s.files, names)
    ensures var r := ListBlocks(LayoutOf(d), s.files, names);
            && (forall id: uint64, m: BlockMeta :: m in r && m.block_id == id <==>
                  GetBlockMeta(LayoutOf(d).Files(id), s.files) == Some(m))
            && OncePerId(r)
  {
    ReachableIsSound(d, s);
    IndexIsExact(d, s.files, names);
  }
}
