/** The block store as the program runs it, over a file system whose calls may fail; each method is proved
    to make exactly the system calls, with exactly the result, of the request it serves. */
module BlockStores {
  import opened Bytes
  import opened BlockMetas
  import opened Crc32
  import opened Paths
  import opened StoreSteps
  import opened StoreReads
  import opened StoreIndex

  /** A value, or the exception of a throwing file-system call. */
  datatype Result<+T> = Ok(value: T) | Thrown {
    predicate IsFailure() {
      Thrown?
    }

    function PropagateFailure<U>(): Result<U>
      requires Thrown?
    {
      Thrown
    }

    function Extract(): T
      requires Ok?
    {
      value
    }
  }

  class FileSystem {
    var files: Files
    /** How the coming system calls will go. */
    var env: seq<Choice>
    /** Every state the files have gone through: what a crash could have left. */
    ghost var states: seq<Files>

    constructor (files: Files, env: seq<Choice>)
      ensures this.files == files && this.env == env && states == []
    {
      this.files, this.env, states := files, env, [];
    }

    method Choose() returns (c: Choice)
      modifies `env
      ensures c == Next(old(env)) && env == Rest(old(env))
    {
      if env == [] {
        c := Go;
      } else {
        c, env := env[0], env[1..];
      }
    }

    /** std::ofstream(p): create or truncate. */
    method OpenTruncate(p: bytes) returns (ok: bool)
      modifies this
      ensures env == Rest(old(env)) && states == old(states) + [files]
      ensures ok == (Next(old(env)) != Fail)
      ensures files == if ok then old(files)[p := []] else old(files)
    {
      var c := Choose();
      ok := c != Fail;
      if ok {
        files := files[p := []];
      }
      states := states + [files];
    }

    /** Write to a file just truncated, and close it; nobody asks how it went. */
    method Write(p: bytes, content: bytes)
      modifies this
      ensures env == Rest(old(env)) && states == old(states) + [files]
      ensures files == old(files)[p := Written(content, Next(old(env)))]
    {
      var c := Choose();
      files := files[p := Written(content, c)];
      states := states + [files];
    }

    /** std::rename: atomic. */
    method Rename(from: bytes, to: bytes) returns (ok: bool)
      modifies this
      ensures env == Rest(old(env)) && states == old(states) + [files]
      ensures ok == (Next(old(env)) != Fail && from in old(files))
      ensures files == if ok then old(files)[to := old(files)[from]] - {from} else old(files)
    {
      var c := Choose();
      ok := c != Fail && from in files;
      if ok {
        files := files[to := files[from]] - {from};
      }
      states := states + [files];
    }

    /** fs::remove: true if something was removed. */
    method Remove(p: bytes) returns (r: Result<bool>)
      modifies this
      ensures env == Rest(old(env)) && states == old(states) + [files]
      ensures r == if Next(old(env)) == Fail then Thrown else Ok(p in old(files))
      ensures files == if r.Ok? then old(files) - {p} else old(files)
    {
      var c := Choose();
      r := if c == Fail then Thrown else Ok(p in files);
      if r.Ok? {
        files := files - {p};
      }
      states := states + [files];
    }

    /** fs::exists. */
    method Exists(p: bytes) returns (r: Result<bool>)
      modifies this
      ensures env == Rest(old(env)) && states == old(states) + [files] && files == old(files)
      ensures r == if Next(old(env)) == Fail then Thrown else Ok(p in files)
    {
      var c := Choose();
      r := if c == Fail then Thrown else Ok(p in files);
      states := states + [files];
    }

    /** Open for reading, or read: the contents, if there are any and the call works. */
    method Load(p: bytes) returns (content: Option<bytes>)
      modifies this
      ensures env == Rest(old(env)) && states == old(states) + [files] && files == old(files)
      ensures content == if Next(old(env)) == Go && p in files then Some(files[p]) else None
    {
      var c := Choose();
      content := if c == Go && p in files then Some(files[p]) else None;
      states := states + [files];
    }

    /** fs::exists on a directory and a directory_iterator over it: the name of every entry, once, in some order. */
    method List(dir: bytes) returns (r: Result<seq<bytes>>)
      modifies this
      ensures env == Rest(old(env)) && states == old(states) + [files] && files == old(files)
      ensures r.Thrown? <==> Next(old(env)) == Fail
      ensures r.Ok? ==> forall i, j :: 0 <= i < j < |r.value| ==> r.value[i] != r.value[j]
      ensures r.Ok? ==> forall n :: n in r.value <==> n != [] && SLASH !in n && Child(dir, n) in files
    {
      var c := Choose();
      states := states + [files];
      if c == Fail { return Thrown; }
      var names := Names(dir);
      return Ok(names);
    }

    method Names(dir: bytes) returns (names: seq<bytes>)
      ensures forall i, j :: 0 <= i < j < |names| ==> names[i] != names[j]
      ensures forall n :: n in names <==> n != [] && SLASH !in n && Child(dir, n) in files
    {
      names := [];
      var todo := files.Keys;
      var pre := dir + [SLASH];
      while todo != {}
        invariant todo <= files.Keys
        invariant forall i, j :: 0 <= i < j < |names| ==> names[i] != names[j]
        invariant forall n :: n in names <==>
                    n != [] && SLASH !in n && Child(dir, n) in files && Child(dir, n) !in todo
        decreases todo
      {
        var p :| p in todo;
        todo := todo - {p};
        if pre < p && SLASH !in p[|pre|..] {
          assert p == Child(dir, p[|pre|..]);
          forall n | Child(dir, n) == p ensures n == p[|pre|..] {
            ChildInjective(dir, n, p[|pre|..]);
          }
          names := names + [p[|pre|..]];
        } else {
          forall n | n != [] && SLASH !in n ensures Child(dir, n) != p {
            ChildIsChild(dir, n);
          }
        }
      }
    }
  }

  /** The files of block `id` of the store in `d`, as the path builders name them. */
  function FilesAt(d: bytes, id: uint64): (p: BlockFiles)
    ensures p == LayoutOf(d).Files(id)
  {
    BlockFiles(BlockTmpPath(d, id), BlockMetaPath(d, id), BlockDataPath(d, id))
  }

  /** How a method of the store ends, as the outcome of a request. */
  function WriteOutcome(r: Result<bool>): Outcome {
    match r case Ok(b) => Wrote(b) case Thrown => Threw
  }

  function DeleteOutcome(r: Result<bool>): Outcome {
    match r case Ok(b) => Deleted(b) case Thrown => Threw
  }

  /** A method that has got to request `q` with these files, choices and states will go the rest of the way of `e`. */
  ghost predicate Follows(e: Ending, states0: seq<Files>, p: BlockFiles, q: Request, files: Files, env: seq<Choice>,
                          states: seq<Files>)
  {
    var e' := Run(p, q, files, env);
    e.outcome == e'.outcome && e.files == e'.files && e.env == e'.env && states0 + e.states == states + e'.states
  }

  lemma FollowsFrom(p: BlockFiles, q: Request, files: Files, env: seq<Choice>, states: seq<Files>)
    ensures Follows(Run(p, q, files, env), states, p, q, files, env, states)
  {}

  lemma FollowsOn(e: Ending, states0: seq<Files>, p: BlockFiles, q: Request, files: Files, env: seq<Choice>,
                  states: seq<Files>)
    requires Follows(e, states0, p, q, files, env, states) && !q.Done?
    ensures var s := Step(p, q, files, Next(env));
            Follows(e, states0, p, s.0, s.1, Rest(env), states + [s.1])
  {
    RunStep(p, q, files, env);
    var s := Step(p, q, files, Next(env));
    var e' := Run(p, s.0, s.1, Rest(env));
    assert states + ([s.1] + e'.states) == states + [s.1] + e'.states;
  }

  lemma FollowsToEnd(e: Ending, states0: seq<Files>, p: BlockFiles, q: Request, files: Files, env: seq<Choice>,
                     states: seq<Files>)
    requires Follows(e, states0, p, q, files, env, states) && q.Done?
    ensures e.outcome == q.outcome && e.files == files && e.env == env && states0 + e.states == states
  {
    assert states + [] == states;
  }

  class BlockStore {
    const dataDir: bytes
    const fs: FileSystem

    constructor (fs: FileSystem, dataDir: bytes)
      ensures this.fs == fs && this.dataDir == dataDir
    {
      this.fs, this.dataDir := fs, dataDir;
    }

    /** The file system went through `e`, from the files, choices and states given. */
    ghost predicate Went(e: Ending, states: seq<Files>)
      reads fs
    {
      fs.files == e.files && fs.env == e.env && fs.states == states + e.states
    }

    method WriteFiles(p: BlockFiles, id: uint64, w: BlockWrite) returns (r: Result<bool>)
      modifies fs
      ensures var e := Run(p, Writing(id, w, OpenTmp), old(fs.files), old(fs.env));
              WriteOutcome(r) == e.outcome && Went(e, old(fs.states))
    {
      ghost var q := Writing(id, w, OpenTmp);
      ghost var e, s0 := Run(p, q, fs.files, fs.env), fs.states;
      FollowsFrom(p, q, fs.files, fs.env, fs.states);

      FollowsOn(e, s0, p, q, fs.files, fs.env, fs.states);
      var tmpOpen := fs.OpenTruncate(p.tmp);
      q := if tmpOpen then q.(wpc := FillTmp) else Done(id, Wrote(false));
      assert Follows(e, s0, p, q, fs.files, fs.env, fs.states);
      if !tmpOpen {
        FollowsToEnd(e, s0, p, q, fs.files, fs.env, fs.states);
        return Ok(false);
      }

      FollowsOn(e, s0, p, q, fs.files, fs.env, fs.states);
      fs.Write(p.tmp, w.data);
      q := q.(wpc := OpenMeta);
      assert Follows(e, s0, p, q, fs.files, fs.env, fs.states);

      r := WriteMetaAndRename(p, q, w.line, e, s0);
    }

    /** The second half of a write: the meta file, and the data to their place. */
    method WriteMetaAndRename(p: BlockFiles, ghost request: Request, line: bytes, ghost e: Ending, ghost s0: seq<Files>)
        returns (r: Result<bool>)
      requires request.Writing? && request.wpc == OpenMeta && request.w.line == line
      requires Follows(e, s0, p, request, fs.files, fs.env, fs.states)
      modifies fs
      ensures WriteOutcome(r) == e.outcome && Went(e, s0)
    {
      ghost var q := request;
      FollowsOn(e, s0, p, q, fs.files, fs.env, fs.states);
      var metaWritten := fs.OpenTruncate(p.meta);
      q := q.(wpc := if metaWritten then FillMeta else DropTmp);
      assert Follows(e, s0, p, q, fs.files, fs.env, fs.states);
      if !metaWritten {
        r := DropTmpFile(p, q, e, s0);
        return;
      }

      FollowsOn(e, s0, p, q, fs.files, fs.env, fs.states);
      fs.Write(p.meta, line);
      q := q.(wpc := RenameTmp);
      assert Follows(e, s0, p, q, fs.files, fs.env, fs.states);

      FollowsOn(e, s0, p, q, fs.files, fs.env, fs.states);
      var renamed := fs.Rename(p.tmp, p.dat);
      q := if renamed then Done(q.id, Wrote(true)) else q.(wpc := DropTmp);
      assert Follows(e, s0, p, q, fs.files, fs.env, fs.states);
      if !renamed {
        r := DropTmpFile(p, q, e, s0);
        return;
      }
      FollowsToEnd(e, s0, p, q, fs.files, fs.env, fs.states);
      return Ok(true);
    }

    /** Give up a write: remove its temporary file and report failure. */
    method DropTmpFile(p: BlockFiles, ghost q: Request, ghost e: Ending, ghost s0: seq<Files>) returns (r: Result<bool>)
      requires q.Writing? && q.wpc == DropTmp && Follows(e, s0, p, q, fs.files, fs.env, fs.states)
      modifies fs
      ensures WriteOutcome(r) == e.outcome && Went(e, s0)
    {
      FollowsOn(e, s0, p, q, fs.files, fs.env, fs.states);
      var removed := fs.Remove(p.tmp);
      ghost var q' := Done(q.id, if removed.Thrown? then Threw else Wrote(false));
      FollowsToEnd(e, s0, p, q', fs.files, fs.env, fs.states);
      r := if removed.Thrown? then Thrown else Ok(false);
    }

    method WriteBlock(id: uint64, data: bytes, time: int64) returns (r: Result<bool>)
      requires |data| < TWO_63
      modifies fs
      ensures var e := Run(LayoutOf(dataDir).Files(id), Writing(id, WriteOf(id, data, time), OpenTmp),
                           old(fs.files), old(fs.env));
              WriteOutcome(r) == e.outcome && Went(e, old(fs.states))
    {
      var meta := BlockMeta(id, |data|, ComputeCRC32(data), time);
      r := WriteFiles(FilesAt(dataDir, id), id, BlockWrite(data, time, MetaLine(meta)));
    }

    method ReadMeta(p: BlockFiles) returns (m: Option<BlockMeta>)
      modifies fs
      ensures m == if Next(old(fs.env)) == Go then GetBlockMeta(p, fs.files) else None
      ensures fs.files == old(fs.files) && fs.env == Rest(old(fs.env)) && fs.states == old(fs.states) + [fs.files]
    {
      var content := fs.Load(p.meta);
      m := if content.Some? then ParseMeta(content.value) else None;
    }

    method GetBlockMetaOf(id: uint64) returns (m: Option<BlockMeta>)
      modifies fs
      ensures m == if Next(old(fs.env)) == Go then GetBlockMeta(LayoutOf(dataDir).Files(id), fs.files) else None
      ensures fs.files == old(fs.files) && fs.env == Rest(old(fs.env))
    {
      m := ReadMeta(FilesAt(dataDir, id));
    }

    method ReadFiles(p: BlockFiles, id: uint64, offset: int64, length: int64) returns (ok: bool, data_out: bytes)
      requires 0 <= offset && 0 < length ==> offset + length < TWO_63
      modifies fs
      ensures var e := Run(p, ReadingMeta(id, offset, length), old(fs.files), old(fs.env));
              e.outcome == Read(if ok then Some(data_out) else None) && Went(e, old(fs.states))
    {
      ok, data_out := false, [];
      ghost var q := ReadingMeta(id, offset, length);
      ghost var e, s0 := Run(p, q, fs.files, fs.env), fs.states;
      FollowsFrom(p, q, fs.files, fs.env, fs.states);

      FollowsOn(e, s0, p, q, fs.files, fs.env, fs.states);
      var meta := ReadMeta(p);
      q := if meta.None? then Done(id, Read(None)) else OpeningData(id, offset, length, meta.value);
      assert Follows(e, s0, p, q, fs.files, fs.env, fs.states);
      if meta.None? {
        FollowsToEnd(e, s0, p, q, fs.files, fs.env, fs.states);
        return;
      }

      FollowsOn(e, s0, p, q, fs.files, fs.env, fs.states);
      var f := fs.Load(p.dat);
      var l := if f.Some? then Clamp(meta.value.size, offset, length) else None;
      q := if l.None? then Done(id, Read(None))
           else if l.value == 0 then Done(id, Read(Some([])))
           else ReadingData(id, offset, l.value, meta.value);
      assert Follows(e, s0, p, q, fs.files, fs.env, fs.states);
      if l.None? || l.value == 0 {
        FollowsToEnd(e, s0, p, q, fs.files, fs.env, fs.states);
        ok := l.Some?;
        return;
      }

      ok, data_out := ReadRange(p, id, offset, l.value, meta.value, e, s0);
    }

    /** The last part of a read: the octets of a range, with the checksum if they are the whole block. */
    method ReadRange(p: BlockFiles, id: uint64, offset: int64, length: nat, meta: BlockMeta,
                     ghost e: Ending, ghost s0: seq<Files>)
      returns (ok: bool, data_out: bytes)
      requires Follows(e, s0, p, ReadingData(id, offset, length, meta), fs.files, fs.env, fs.states)
      modifies fs
      ensures e.outcome == Read(if ok then Some(data_out) else None) && Went(e, s0)
    {
      ghost var q := ReadingData(id, offset, length, meta);
      FollowsOn(e, s0, p, q, fs.files, fs.env, fs.states);
      var content := fs.Load(p.dat);
      var out := if content.Some? then Fetch(content.value, meta, offset, length) else None;
      FollowsToEnd(e, s0, p, Done(id, Read(out)), fs.files, fs.env, fs.states);
      ok := out.Some?;
      data_out := if ok then out.value else [];
    }

    method ReadBlock(id: uint64, offset: int64, length: int64) returns (ok: bool, data_out: bytes)
      requires 0 <= offset && 0 < length ==> offset + length < TWO_63
      modifies fs
      ensures var e := Run(LayoutOf(dataDir).Files(id), ReadingMeta(id, offset, length), old(fs.files), old(fs.env));
              e.outcome == Read(if ok then Some(data_out) else None) && Went(e, old(fs.states))
    {
      ok, data_out := ReadFiles(FilesAt(dataDir, id), id, offset, length);
    }

    method DeleteFiles(p: BlockFiles, id: uint64) returns (r: Result<bool>)
      modifies fs
      ensures var e := Run(p, Deleting(id, true, SeekData), old(fs.files), old(fs.env));
              DeleteOutcome(r) == e.outcome && Went(e, old(fs.states))
    {
      var ok := true;
      ghost var q := Deleting(id, true, SeekData);
      ghost var e, s0 := Run(p, q, fs.files, fs.env), fs.states;
      FollowsFrom(p, q, fs.files, fs.env, fs.states);

      FollowsOn(e, s0, p, q, fs.files, fs.env, fs.states);
      var hasData := fs.Exists(p.dat);
      q := if hasData.Thrown? then Done(id, Threw) else q.(dpc := if hasData.value then DropData else SeekMeta);
      assert Follows(e, s0, p, q, fs.files, fs.env, fs.states);
      var threw := hasData.Thrown?;
      if hasData == Ok(true) {
        FollowsOn(e, s0, p, q, fs.files, fs.env, fs.states);
        var removed := fs.Remove(p.dat);
        q := if removed.Thrown? then Done(id, Threw) else q.(dpc := SeekMeta, ok := ok && removed.value);
        assert Follows(e, s0, p, q, fs.files, fs.env, fs.states);
        threw := removed.Thrown?;
        ok := removed.Ok? && removed.value;
      }
      if threw {
        FollowsToEnd(e, s0, p, q, fs.files, fs.env, fs.states);
        return Thrown;
      }
      r := DeleteMetaFile(p, id, ok, q, e, s0);
    }

    /** The second half of a delete: the meta file, once the data file is gone. */
    method DeleteMetaFile(p: BlockFiles, id: uint64, ok: bool, ghost q0: Request, ghost e: Ending, ghost s0: seq<Files>)
      returns (r: Result<bool>)
      requires q0 == Deleting(id, ok, SeekMeta) && Follows(e, s0, p, q0, fs.files, fs.env, fs.states)
      modifies fs
      ensures DeleteOutcome(r) == e.outcome && Went(e, s0)
    {
      ghost var q := q0;
      r := Ok(ok);
      FollowsOn(e, s0, p, q, fs.files, fs.env, fs.states);
      var hasMeta := fs.Exists(p.meta);
      q := if hasMeta.Thrown? then Done(id, Threw)
           else if hasMeta.value then q.(dpc := DropMeta) else Done(id, Deleted(ok));
      assert Follows(e, s0, p, q, fs.files, fs.env, fs.states);
      if hasMeta == Ok(true) {
        r := DropMetaFile(p, q, ok, e, s0);
        return;
      }
      FollowsToEnd(e, s0, p, q, fs.files, fs.env, fs.states);
      if hasMeta.Thrown? {
        r := Thrown;
      }
    }

    method DropMetaFile(p: BlockFiles, ghost q: Request, ok: bool, ghost e: Ending, ghost s0: seq<Files>)
      returns (r: Result<bool>)
      requires q == Deleting(q.id, ok, DropMeta) && Follows(e, s0, p, q, fs.files, fs.env, fs.states)
      modifies fs
      ensures DeleteOutcome(r) == e.outcome && Went(e, s0)
    {
      FollowsOn(e, s0, p, q, fs.files, fs.env, fs.states);
      var removed := fs.Remove(p.meta);
      ghost var q' := Done(q.id, if removed.Thrown? then Threw else Deleted(ok && removed.value));
      FollowsToEnd(e, s0, p, q', fs.files, fs.env, fs.states);
      r := if removed.Thrown? then Thrown else Ok(ok && removed.value);
    }

    method DeleteBlock(id: uint64) returns (r: Result<bool>)
      modifies fs
      ensures var e := Run(LayoutOf(dataDir).Files(id), Deleting(id, true, SeekData), old(fs.files), old(fs.env));
              DeleteOutcome(r) == e.outcome && Went(e, old(fs.states))
    {
      r := DeleteFiles(FilesAt(dataDir, id), id);
    }

    method HasBlock(id: uint64) returns (r: Result<bool>)
      modifies fs
      ensures fs.files == old(fs.files)
      ensures r == if Next(old(fs.env)) == Fail then Thrown else Ok(LayoutOf(dataDir).path(id, DataFile) in fs.files)
    {
      r := fs.Exists(FilesAt(dataDir, id).dat);
    }

    /** The scan of the blocks directory.  `names` is the order in which the directory was iterated.  When the
        calls work the result is the index of that order; a meta file that cannot be read is left out, and a directory
        that cannot be read is an exception. */
    method ListAllBlocks() returns (r: Result<seq<BlockMeta>>, ghost names: seq<bytes>)
      modifies fs
      ensures fs.files == old(fs.files)
      ensures r.Thrown? <==> Next(old(fs.env)) == Fail
      ensures r.Ok? ==> ListsBlocksDir(dataDir, fs.files, names)
      ensures old(fs.env) == [] ==> fs.env == [] && r == Ok(ListBlocks(LayoutOf(dataDir), fs.files, names))
      ensures r.Ok? ==> forall m :: m in r.value ==> m in ListBlocks(LayoutOf(dataDir), fs.files, names)
    {
      var result := [];
      var listed := fs.List(BlocksDir(dataDir));
      if listed.Thrown? { return Thrown, []; }
      var entries := listed.value;
      names := entries;
      ghost var files := fs.files;
      ghost var entry := (name: bytes) => ReadEntry(LayoutOf(dataDir), files, name);
      for i := 0 to |entries|
        invariant fs.files == files
        invariant old(fs.env) == [] ==> fs.env == [] && result == Collect(entry, entries[..i])
        invariant forall m :: m in result ==> m in Collect(entry, entries[..i])
      {
        CollectNext(entry, entries, i);
        var id := BlockIdOfName(entries[i]);
        if id.Some? {
          var m := ReadMeta(FilesAt(dataDir, id.value));
          if m.Some? {
            result := result + [m.value];
          }
        }
      }
      assert entries[..|entries|] == entries;
      return Ok(result), names;
    }

    /** What the constructor does at start-up: remove every entry of the tmp directory.  If nothing throws,
        the tmp directory is empty and everything else is as it was. */
    method CleanTempFiles() returns (r: Result<()>)
      modifies fs
      ensures forall p :: !IsChild(TmpDir(dataDir), p) ==> SameFile(old(fs.files), fs.files, p)
      ensures r.Ok? ==> forall p :: IsChild(TmpDir(dataDir), p) ==> p !in fs.files
      ensures old(fs.env) == [] ==> r.Ok?
    {
      var dir := TmpDir(dataDir);
      var entries :- fs.List(dir);
      ghost var files := fs.files;
      for i := 0 to |entries|
        invariant old(fs.env) == [] ==> fs.env == []
        invariant forall p :: !IsChild(dir, p) ==> SameFile(files, fs.files, p)
        invariant forall p :: p in fs.files ==> p in files && forall j :: 0 <= j < i ==> p != Child(dir, entries[j])
      {
        assert entries[i] in entries;
        ChildIsChild(dir, entries[i]);
        var _ :- fs.Remove(Child(dir, entries[i]));
      }
      forall p | IsChild(dir, p) ensures p !in fs.files {
        if p in files {
          var name := p[|dir| + 1..];
          assert p == Child(dir, name);
          assert name in entries;
        }
      }
      return Ok(());
    }
  }

  /** Two states of the files agree about `p`. */
  ghost predicate SameFile(f: Files, g: Files, p: bytes) {
    (p in f <==> p in g) && (p in f ==> f[p] == g[p])
  }

  lemma {:induction false} CollectNext(entry: bytes -> Option<BlockMeta>, names: seq<bytes>, i: nat)
    requires i < |names|
    ensures Collect(entry, names[..i + 1]) ==
            Collect(entry, names[..i]) + (if entry(names[i]).Some? then [entry(names[i]).value] else [])
    decreases i
  {
    if i == 0 {
      assert names[..1][1..] == [] && names[..0] == [];
    } else {
      CollectNext(entry, names[1..], i - 1);
      assert names[..i + 1][1..] == names[1..][..i];
      assert names[..i][1..] == names[1..][..i - 1];
    }
  }
}
