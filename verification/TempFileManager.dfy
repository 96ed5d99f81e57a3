/** The temporary-file manager as the source keeps it: a map of file objects, each with a map
    from block index to allocator node. Every method is proved to do what TempFileModel says. */
module TempFileManager {
  import opened Basics
  import opened BlockPool
  import opened BlockManager
  import opened AllocatorLaws
  import opened AllocatorRuns
  import opened TempFileModel
  import Model = TempFileModel
  import TempFileSizes
  import TempFileSpace

  class TempFileMetadata {
    const blockSize: nat
    const fileIndex: nat
    var blockMap: map<nat, TemporaryBlock>

    constructor (blockSize: nat, fileIndex: nat)
      ensures this.blockSize == blockSize && this.fileIndex == fileIndex && blockMap == map[]
    {
      this.blockSize, this.fileIndex := blockSize, fileIndex;
      blockMap := map[];
    }
  }

  ghost function Starts(m: map<nat, TemporaryBlock>): map<nat, nat>
    reads m.Values
  {
    map i | i in m :: m[i].startLba
  }

  class TemporaryFileMetadataManager {
    const lbaSize: nat
    const lbaCount: nat
    const blockManager: NvmeTemporaryBlockManager
    var fileToTempMeta: map<TempName, TempFileMetadata>
    var activeTempFiles: int
    var peakTempFiles: int

    ghost var asked: map<nat, nat>  // what each live block was asked to hold
    ghost var drift: nat            // the shortfalls so far

    /** The mapped blocks are live blocks of the allocator, and no two files share an object. */
    ghost predicate Shape()
      reads `fileToTempMeta, fileToTempMeta.Values, blockManager, blockManager.nodes
    {
      && blockManager.Valid()
      && (forall f, g :: f in fileToTempMeta && g in fileToTempMeta && fileToTempMeta[f] == fileToTempMeta[g] ==>
             f == g)
      && forall f, i :: f in fileToTempMeta && i in fileToTempMeta[f].blockMap ==>
           var b := fileToTempMeta[f].blockMap[i]; b in blockManager.order && b in blockManager.nodes && !b.isFree
    }

    ghost function FilesAbs(): (files: Files)
      requires Shape()
      reads `fileToTempMeta, fileToTempMeta.Values, blockManager, blockManager.nodes
      ensures files.Keys == fileToTempMeta.Keys
      ensures forall f :: f in files ==>
        files[f].blockSize == fileToTempMeta[f].blockSize && files[f].blocks.Keys == fileToTempMeta[f].blockMap.Keys
      ensures forall f, i :: Owns(files, f, i) <==> f in fileToTempMeta && i in fileToTempMeta[f].blockMap
      ensures forall f, i :: Owns(files, f, i) ==> StartOf(files, f, i) == fileToTempMeta[f].blockMap[i].startLba
    {
      map f | f in fileToTempMeta :: FileMeta(fileToTempMeta[f].blockSize, Starts(fileToTempMeta[f].blockMap))
    }

    ghost function Abs(): TempState
      requires Shape()
      reads this, fileToTempMeta.Values, blockManager, blockManager.nodes
    {
      TempState(Ledger(blockManager.Abs(), asked, blockManager.activeTempBytes, blockManager.peakTempBytes, drift),
                FilesAbs(), lbaSize, activeTempFiles, peakTempFiles)
    }

    ghost predicate Valid()
      reads this, fileToTempMeta.Values, blockManager, blockManager.nodes
    {
      Shape() && TempInv(Abs())
    }

    constructor (startLba: nat, endLba: nat, lbaSize: nat)
      requires startLba < endLba && 0 < lbaSize <= 32768
      ensures Valid() && Abs() == Initial(startLba, endLba, lbaSize) && lbaCount == endLba - startLba
      ensures fresh(blockManager) && fresh(blockManager.nodes) && fileToTempMeta == map[]
    {
      hide Shape, TempInv, NvmeTemporaryBlockManager.Valid, NvmeTemporaryBlockManager.Abs, Fresh, FilesAbs;
      this.lbaSize, lbaCount := lbaSize, endLba - startLba;
      blockManager := new NvmeTemporaryBlockManager(startLba, endLba);
      fileToTempMeta := map[];
      activeTempFiles, peakTempFiles := 0, 0;
      asked, drift := map[], 0;
      new;
      InitialInv(startLba, endLba, lbaSize);
      NoFiles();
    }

    lemma NoFiles()
      requires blockManager.Valid() && fileToTempMeta == map[]
      ensures Shape() && FilesAbs() == map[]
    {
      hide NvmeTemporaryBlockManager.Valid;
      assert FilesAbs().Keys == {};
    }

    /** The source throws on a buffer size it does not know; None stands for that. */
    method GetOrCreateFile(f: TempName) returns (r: Option<TempFileMetadata>)
      requires Valid()
      modifies this
      ensures Valid() && blockManager.nodes == old(blockManager.nodes)
      ensures r.None? ==> Model.GetOrCreateFile(old(Abs()), f).UnknownBufferSize? && Abs() == old(Abs())
      ensures r.Some? ==>
        && Model.GetOrCreateFile(old(Abs()), f) == Created(Abs())
        && f in fileToTempMeta && r.value == fileToTempMeta[f]
        && (r.value in old(fileToTempMeta).Values || fresh(r.value))
    {
      hide Shape, TempInv, NvmeTemporaryBlockManager.Valid, NvmeTemporaryBlockManager.Abs, GetBufferSize, FilesAbs;
      FileKeys();
      if f in fileToTempMeta {
        return Some(fileToTempMeta[f]);
      }
      var size := GetBufferSize(f.bufferSize);
      if size.None? {
        return None;
      }
      CreateInv(Abs(), f);
      var meta := AddFile(f, size.value);
      r := Some(meta);
    }

    method AddFile(f: TempName, size: nat) returns (meta: TempFileMetadata)
      requires Shape() && f !in fileToTempMeta
      modifies `fileToTempMeta, `activeTempFiles, `peakTempFiles
      ensures fresh(meta) && fileToTempMeta == old(fileToTempMeta)[f := meta] && Shape()
      ensures var was, n := old(Abs()), old(activeTempFiles) + 1;
              Abs() == was.(files := was.files[f := FileMeta(size, map[])], activeFiles := n,
                  peakFiles := Max(was.peakFiles, n))
    {
      hide Shape, FilesAbs, NvmeTemporaryBlockManager.Valid, NvmeTemporaryBlockManager.Abs;
      meta := new TempFileMetadata(size, f.fileIndex);
      fileToTempMeta := fileToTempMeta[f := meta];
      activeTempFiles := activeTempFiles + 1;
      if activeTempFiles > peakTempFiles {
        peakTempFiles := activeTempFiles;
      }
      FileAdded(f);
    }

    lemma FileKeys()
      requires Shape()
      ensures FilesAbs().Keys == fileToTempMeta.Keys
    {
    }

    /** A new file without blocks joined the map. */
    twostate lemma FileAdded(f: TempName)
      requires old(Shape()) && unchanged(blockManager) && unchanged(blockManager.nodes)
      requires unchanged(old(fileToTempMeta).Values)
      requires f !in old(fileToTempMeta) && f in fileToTempMeta
      requires fileToTempMeta == old(fileToTempMeta)[f := fileToTempMeta[f]]
      requires fresh(fileToTempMeta[f]) && fileToTempMeta[f].blockMap == map[]
      ensures Shape() && FilesAbs() == old(FilesAbs())[f := FileMeta(fileToTempMeta[f].blockSize, map[])]
    {
      hide NvmeTemporaryBlockManager.Valid;
      assert forall g :: g in old(fileToTempMeta) ==> fileToTempMeta[g] == old(fileToTempMeta[g]);
    }

    // -------------------------------------------------------------- freeing one block

    /** No other entry points to the node of this one. */
    ghost predicate Alone(f: TempName, i: nat)
      requires f in fileToTempMeta && i in fileToTempMeta[f].blockMap
      reads `fileToTempMeta, fileToTempMeta.Values
    {
      forall g, j :: g in fileToTempMeta && j in fileToTempMeta[g].blockMap && !(g == f && j == i) ==>
        fileToTempMeta[g].blockMap[j] != fileToTempMeta[f].blockMap[i]
    }

    lemma NodesDiffer(f: TempName, i: nat)
      requires Valid() && f in fileToTempMeta && i in fileToTempMeta[f].blockMap
      ensures Alone(f, i)
    {
      hide NvmeTemporaryBlockManager.Valid, WellFormed, Fits, Counted, Sized;
      var files := FilesAbs();
      assert Owns(files, f, i);
      forall g, j | g in fileToTempMeta && j in fileToTempMeta[g].blockMap && !(g == f && j == i)
        ensures fileToTempMeta[g].blockMap[j] != fileToTempMeta[f].blockMap[i]
      {
        assert Owns(files, g, j);
      }
    }

    /** An entry of a file's block map. */
    twostate predicate EntryGone(e: Entry)
      requires old(Shape())
      reads this, fileToTempMeta.Values, blockManager, blockManager.nodes
    {
      && fileToTempMeta == old(fileToTempMeta) && e.file in fileToTempMeta
      && blockManager.Valid() && blockManager.nodes == old(blockManager.nodes)
      && var meta := fileToTempMeta[e.file];
      && e.index in old(meta.blockMap) && meta.blockMap == old(meta.blockMap) - {e.index}
      && (forall g :: g in fileToTempMeta && g != e.file ==>
             fileToTempMeta[g].blockMap == old(fileToTempMeta[g].blockMap))
      && blockManager.OthersKept(old(meta.blockMap)[e.index])
    }

    /** The other entries point to the nodes they pointed to, at the same addresses. */
    twostate lemma EntryOthers(e: Entry)
      requires old(Shape()) && EntryGone(e)
      requires old(Alone(e.file, e.index))
      ensures Shape() && fileToTempMeta == old(fileToTempMeta) && e.file in fileToTempMeta
      ensures e.index in old(fileToTempMeta[e.file].blockMap)
      ensures forall g :: g in fileToTempMeta ==>
        fileToTempMeta[g].blockMap.Keys
          == old(fileToTempMeta[g].blockMap).Keys - (if g == e.file then {e.index} else {})
      ensures forall g, j :: g in fileToTempMeta && j in fileToTempMeta[g].blockMap ==>
        && j in old(fileToTempMeta[g].blockMap) && fileToTempMeta[g].blockMap[j] == old(fileToTempMeta[g].blockMap[j])
        && fileToTempMeta[g].blockMap[j].startLba == old(fileToTempMeta[g].blockMap[j].startLba)
    {
      hide NvmeTemporaryBlockManager.Valid;
    }

    twostate lemma EntryDropped(e: Entry)
      requires old(Shape()) && EntryGone(e)
      requires old(Alone(e.file, e.index))
      ensures Shape() && FilesAbs() == DropEntry(old(FilesAbs()), e.file, e.index)
    {
      hide Shape, EntryGone, FilesAbs;
      EntryOthers(e);
      IsDropped(old(FilesAbs()), FilesAbs(), e.file, e.index);
    }

    /** The allocator freed the entry's node, and the ledger follows. */
    twostate predicate NodeFreed(e: Entry)
      requires old(Shape()) && EntryGone(e)
      reads this, fileToTempMeta.Values, blockManager, blockManager.nodes
    {
      var b := old(fileToTempMeta[e.file].blockMap)[e.index];
      var s, len := old(b.startLba), old(b.lbaCount);
      && LiveAt(old(blockManager.Abs()).blocks, s) && WellFormed(old(blockManager.Abs()))
      && blockManager.Abs() == Free(old(blockManager.Abs()), s)
      && asked == old(asked) - {s} && drift == old(drift)
      && blockManager.activeTempBytes == old(blockManager.activeTempBytes) - 4096 * len
      && blockManager.peakTempBytes == old(blockManager.peakTempBytes)
      && activeTempFiles == old(activeTempFiles) && peakTempFiles == old(peakTempFiles)
    }

    twostate lemma EntryFreed(e: Entry)
      requires old(Valid()) && EntryGone(e) && NodeFreed(e) && old(Alone(e.file, e.index))
      requires Owns(old(FilesAbs()), e.file, e.index)
      requires var b := old(fileToTempMeta[e.file].blockMap)[e.index];
               && StartOf(old(FilesAbs()), e.file, e.index) == old(b.startLba)
               && old(blockManager.Abs()).blocks[Find(old(blockManager.Abs()).blocks, old(b.startLba))].len
                    == old(b.lbaCount)
      ensures Valid() && Abs() == FreeOwned(old(Abs()), e.file, e.index)
    {
      hide Shape, FilesAbs, TempInv, FreeOwned, Step, DropEntry, WellFormed, Free, Find, LiveAt, Owns, StartOf, Alone;
      hide NvmeTemporaryBlockManager.Valid, NvmeTemporaryBlockManager.Abs, NvmeTemporaryBlockManager.OthersKept;
      EntryDropped(e);
      FreedState(old(Abs()), e.file, e.index, old(fileToTempMeta[e.file].blockMap[e.index].lbaCount));
    }

    lemma EntryFacts(f: TempName, i: nat)
      requires Valid() && f in fileToTempMeta && i in fileToTempMeta[f].blockMap
      ensures Shape() && forall g :: g in fileToTempMeta && g != f ==> fileToTempMeta[g] != fileToTempMeta[f]
      ensures var b := fileToTempMeta[f].blockMap[i];
              && b in blockManager.order && b in blockManager.nodes && !b.isFree && blockManager.Valid()
              && Owns(FilesAbs(), f, i) && StartOf(FilesAbs(), f, i) == b.startLba
              && WellFormed(blockManager.Abs()) && LiveAt(blockManager.Abs().blocks, b.startLba)
              && blockManager.Abs().blocks[Find(blockManager.Abs().blocks, b.startLba)].len == b.lbaCount
    {
      hide NvmeTemporaryBlockManager.Valid, TempInv;
      var b := fileToTempMeta[f].blockMap[i];
      assert Owns(FilesAbs(), f, i);
      EntryLive(Abs(), f, i);
      NodeExtent(b);
    }

    lemma NodeExtent(b: TemporaryBlock)
      requires blockManager.Valid() && b in blockManager.order
      ensures HasStart(blockManager.Abs().blocks, b.startLba)
      ensures blockManager.Abs().blocks[Find(blockManager.Abs().blocks, b.startLba)] == ExtentOf(b)
    {
      var x := blockManager.IndexOf(b);
    }

    /** Free one block of a file and erase it from the file's map. */
    method FreeEntryOf(f: TempName, i: nat)
      requires Valid() && f in fileToTempMeta && i in fileToTempMeta[f].blockMap
      modifies this, fileToTempMeta[f], blockManager, blockManager.nodes
      ensures Valid() && Owns(old(FilesAbs()), f, i) && Abs() == FreeOwned(old(Abs()), f, i)
      ensures fileToTempMeta == old(fileToTempMeta) && blockManager.nodes == old(blockManager.nodes)
    {
      hide Shape, FilesAbs, TempInv, FreeOwned, WellFormed, Free, Find, LiveAt, Owns, StartOf, EntryGone, NodeFreed;
      hide NvmeTemporaryBlockManager.Linked, NvmeTemporaryBlockManager.Abs, NvmeTemporaryBlockManager.OthersKept;
      EntryFacts(f, i);
      NodesDiffer(f, i);
      UnmapBlock(f, i);
      EntryFreed(Entry(f, i));
    }

    method UnmapBlock(f: TempName, i: nat)
      requires Valid() && f in fileToTempMeta && i in fileToTempMeta[f].blockMap
      modifies `asked, fileToTempMeta[f], blockManager, blockManager.nodes
      ensures EntryGone(Entry(f, i)) && NodeFreed(Entry(f, i)) && blockManager.nodes == old(blockManager.nodes)
    {
      hide Valid, Abs, Shape, FilesAbs, TempInv, WellFormed, Free, Find, LiveAt, Owns, StartOf;
      hide NvmeTemporaryBlockManager.Linked, NvmeTemporaryBlockManager.Abs, NvmeTemporaryBlockManager.OthersKept;
      EntryFacts(f, i);
      var meta := fileToTempMeta[f];
      var block := meta.blockMap[i];
      ghost var s := block.startLba;
      blockManager.FreeBlock(block);
      meta.blockMap := meta.blockMap - {i};
      asked := asked - {s};
      assert blockManager.Abs() == Free(old(blockManager.Abs()), s);
    }

    /** Free blocks from the last index down to the new size. False: the loop met an index without a
        block, where the source follows a null pointer. */
    method TruncateFile(f: TempName, newSize: nat) returns (ok: bool)
      requires Valid() && f in fileToTempMeta
      modifies this, fileToTempMeta[f], blockManager, blockManager.nodes
      ensures Valid() && f in old(Abs()).files
      ensures Model.TruncateAny(old(Abs()), f, newSize) == if ok then Truncated(Abs()) else NullBlock(Abs())
      ensures fileToTempMeta == old(fileToTempMeta) && blockManager.nodes == old(blockManager.nodes)
    {
      hide Shape, TempInv, FreeDown, NvmeTemporaryBlockManager.Valid, NvmeTemporaryBlockManager.Abs, FilesAbs, WalkEnd;
      FileMetaAt(f);
      SizeFacts(Abs(), f);
      var meta := fileToTempMeta[f];
      ok := FreeBlocksDown(f, |meta.blockMap|, BlockIndex(newSize, meta.blockSize));
    }

    /** The walk has come down to `i`, and what is left of it leads from here to `goal`. */
    ghost predicate Walking(f: TempName, i: nat, to: nat, e: nat, goal: TempState)
      reads this, fileToTempMeta.Values, blockManager, blockManager.nodes
    {
      Valid() && f in fileToTempMeta && Walk(Abs(), f, i, to, e, goal)
    }

    lemma WalkingStops(f: TempName, i: nat, to: nat, e: nat, goal: TempState)
      requires Walking(f, i, to, e, goal) && (i <= to || i - 1 !in fileToTempMeta[f].blockMap)
      ensures Valid() && Abs() == goal && e == i
    {
      hide Shape, TempInv, NvmeTemporaryBlockManager.Valid, NvmeTemporaryBlockManager.Abs, FilesAbs;
      if i > to { Mapped(f, i - 1); }
      WalkStops(Abs(), f, i, to, e, goal);
    }

    method StepDown(f: TempName, i: nat, to: nat, ghost e: nat, ghost goal: TempState)
      requires Walking(f, i, to, e, goal) && to < i && i - 1 in fileToTempMeta[f].blockMap
      modifies this, fileToTempMeta[f], blockManager, blockManager.nodes
      ensures Walking(f, i - 1, to, e, goal)
      ensures fileToTempMeta == old(fileToTempMeta) && blockManager.nodes == old(blockManager.nodes)
    {
      hide Shape, TempInv, FreeOwned, DropEntry, NvmeTemporaryBlockManager.Valid, NvmeTemporaryBlockManager.Abs;
      hide FilesAbs;
      hide Walk, FreeDown, WalkEnd;
      Mapped(f, i - 1);
      WalkStep(Abs(), f, i, to, e, goal);
      FreeEntryOf(f, i - 1);
    }

    method FreeBlocksDown(f: TempName, from: nat, to: nat) returns (ok: bool)
      requires Valid() && f in fileToTempMeta && f in Abs().files
      modifies this, fileToTempMeta[f], blockManager, blockManager.nodes
      ensures Valid() && Abs() == FreeDown(old(Abs()), f, from, WalkEnd(old(Abs()).files[f].blocks, from, to))
      ensures ok <==> WalkEnd(old(Abs()).files[f].blocks, from, to) <= to
      ensures fileToTempMeta == old(fileToTempMeta) && blockManager.nodes == old(blockManager.nodes)
    {
      hide Shape, TempInv, NvmeTemporaryBlockManager.Valid, NvmeTemporaryBlockManager.Abs, FilesAbs;
      hide Walk, FreeDown, WalkEnd;
      ghost var e := WalkEnd(Abs().files[f].blocks, from, to);
      ghost var goal := FreeDown(Abs(), f, from, e);
      WalkStart(Abs(), f, from, to);
      ok := WalkDown(f, from, to, e, goal);
    }

    method WalkDown(f: TempName, from: nat, to: nat, ghost e: nat, ghost goal: TempState) returns (ok: bool)
      requires Walking(f, from, to, e, goal)
      modifies this, fileToTempMeta[f], blockManager, blockManager.nodes
      ensures Valid() && Abs() == goal && (ok <==> e <= to)
      ensures fileToTempMeta == old(fileToTempMeta) && blockManager.nodes == old(blockManager.nodes)
    {
      hide Walking, Valid, Abs, Walk;
      InWalk(f, from, to, e, goal);
      var i: nat := from;
      while i > to
        invariant f in fileToTempMeta && fileToTempMeta == old(fileToTempMeta)
        invariant blockManager.nodes == old(blockManager.nodes)
        invariant Walking(f, i, to, e, goal)
      {
        if i - 1 !in fileToTempMeta[f].blockMap {
          WalkingStops(f, i, to, e, goal);
          return false;
        }
        StepDown(f, i, to, e, goal);
        i := i - 1;
      }
      WalkingStops(f, i, to, e, goal);
      ok := true;
    }

    lemma InWalk(f: TempName, i: nat, to: nat, e: nat, goal: TempState)
      requires Walking(f, i, to, e, goal)
      ensures f in fileToTempMeta
    {
    }

    lemma Mapped(f: TempName, i: nat)
      requires Valid() && f in fileToTempMeta
      ensures i in fileToTempMeta[f].blockMap <==> Owns(Abs().files, f, i)
    {
      hide Shape, TempInv, NvmeTemporaryBlockManager.Valid, NvmeTemporaryBlockManager.Abs, FilesAbs;
      FileMetaAt(f);
    }

    lemma FileMetaAt(f: TempName)
      requires Shape() && f in fileToTempMeta
      ensures Abs().files == FilesAbs()
      ensures f in FilesAbs() && FilesAbs()[f].blockSize == fileToTempMeta[f].blockSize
      ensures FilesAbs()[f].blocks.Keys == fileToTempMeta[f].blockMap.Keys
      ensures |FilesAbs()[f].blocks| == |fileToTempMeta[f].blockMap|
    {
      var a, b := FilesAbs()[f].blocks, fileToTempMeta[f].blockMap;
      assert |a| == |a.Keys| && |b| == |b.Keys|;
    }

    /** The loop of DeleteFile and Clear over one file: its blocks in the order of their keys. */
    method FreeBlocksOf(f: TempName)
      requires Valid() && f in fileToTempMeta
      modifies this, fileToTempMeta[f], blockManager, blockManager.nodes
      ensures Valid() && f in old(Abs()).files && Abs() == FreeBlocks(old(Abs()), f)
      ensures fileToTempMeta == old(fileToTempMeta) && blockManager.nodes == old(blockManager.nodes)
    {
      hide Shape, TempInv, FreeOwned, DropEntry, NvmeTemporaryBlockManager.Valid, NvmeTemporaryBlockManager.Abs;
      hide FilesAbs;
      FileMetaAt(f);
      ghost var st := Abs();
      var meta := fileToTempMeta[f];
      while meta.blockMap != map[]
        invariant Valid() && fileToTempMeta == old(fileToTempMeta) && blockManager.nodes == old(blockManager.nodes)
        invariant f in Abs().files && FreeBlocks(Abs(), f) == FreeBlocks(st, f)
        invariant Abs().files[f].blocks.Keys == meta.blockMap.Keys
        decreases |meta.blockMap|
      {
        FileMetaAt(f);
        HasLeast(meta.blockMap.Keys);
        var i: nat :| IsLeast(i, meta.blockMap.Keys);
        ghost var before := Abs();
        ghost var keys := meta.blockMap.Keys;
        LeastUnique(i, keys);
        FreeEntryOf(f, i);
        DropThenEmpty(before.files, f, i);
        FileMetaAt(f);
      }
    }

    method DeleteFile(f: TempName)
      requires Valid() && f in fileToTempMeta
      modifies this, fileToTempMeta[f], blockManager, blockManager.nodes
      ensures Valid() && f in old(Abs()).files && Abs() == Model.DeleteFile(old(Abs()), f)
      ensures fileToTempMeta == old(fileToTempMeta) - {f} && blockManager.nodes == old(blockManager.nodes)
    {
      hide Shape, TempInv, FreeBlocks, NvmeTemporaryBlockManager.Valid, NvmeTemporaryBlockManager.Abs, FilesAbs;
      FreeBlocksOf(f);
      FreeBlocksFiles(old(Abs()), f);
      Forget(f);
    }

    /** The end of DeleteFile: drop the file itself. */
    method Forget(f: TempName)
      requires Valid() && f in Abs().files && Abs().files[f].blocks == map[]
      modifies `fileToTempMeta, `activeTempFiles
      ensures fileToTempMeta == old(fileToTempMeta) - {f} && Valid()
      ensures Abs() == old(Abs()).(files := old(Abs()).files - {f}, activeFiles := old(Abs()).activeFiles - 1)
    {
      hide Shape, TempInv, NvmeTemporaryBlockManager.Valid, NvmeTemporaryBlockManager.Abs, FilesAbs, Abs;
      fileToTempMeta := fileToTempMeta - {f};
      activeTempFiles := activeTempFiles - 1;
      FileForgotten(f);
    }

    twostate lemma FileForgotten(f: TempName)
      requires old(Valid()) && f in old(Abs()).files && old(Abs()).files[f].blocks == map[]
      requires unchanged(blockManager) && unchanged(blockManager.nodes) && unchanged(old(fileToTempMeta).Values)
      requires fileToTempMeta == old(fileToTempMeta) - {f} && activeTempFiles == old(activeTempFiles) - 1
      requires unchanged(`peakTempFiles) && unchanged(`asked) && unchanged(`drift)
      ensures Valid()
      ensures Abs() == old(Abs()).(files := old(Abs()).files - {f}, activeFiles := old(Abs()).activeFiles - 1)
    {
      hide Shape, TempInv, NvmeTemporaryBlockManager.Valid, NvmeTemporaryBlockManager.Abs, FilesAbs;
      ForgetInv(old(Abs()), f);
      FileRemoved(f);
    }

    /** A file left the map. */
    twostate lemma FileRemoved(f: TempName)
      requires old(Shape()) && unchanged(blockManager) && unchanged(blockManager.nodes)
      requires unchanged(old(fileToTempMeta).Values)
      requires fileToTempMeta == old(fileToTempMeta) - {f}
      ensures Shape() && FilesAbs() == old(FilesAbs()) - {f}
    {
      hide NvmeTemporaryBlockManager.Valid;
    }

    // -------------------------------------------------------------- clear

    /** Every file's blocks, in whatever order the files come; then the files themselves. */
    method Clear()
      requires Valid()
      modifies this, fileToTempMeta.Values, blockManager, blockManager.nodes
      ensures Valid() && Abs() == Model.Clear(old(Abs())) && blockManager.nodes == old(blockManager.nodes)
    {
      hide Emptying, Valid, Abs, Shape, TempInv;
      ghost var cleared := ClearedState();
      var todo := fileToTempMeta.Keys;
      NoneEmptied(cleared);
      while todo != {}
        invariant fileToTempMeta == old(fileToTempMeta) && blockManager.nodes == old(blockManager.nodes)
        invariant todo <= fileToTempMeta.Keys && Emptying(todo, cleared)
        decreases |todo|
      {
        var f :| f in todo;
        EmptyOne(f, todo, cleared);
        todo := todo - {f};
      }
      AllEmptied(cleared);
      ForgetAll();
    }

    ghost function ClearedState(): TempState
      requires Valid()
      reads this, fileToTempMeta.Values, blockManager, blockManager.nodes
    {
      Model.Clear(Abs())
    }

    /** The files not in `todo` have no blocks left, and clearing still leads to the same state. */
    ghost predicate Emptying(todo: set<TempName>, cleared: TempState)
      reads this, fileToTempMeta.Values, blockManager, blockManager.nodes
    {
      && Valid() && Abs().files.Keys == fileToTempMeta.Keys && Model.Clear(Abs()) == cleared
      && forall f :: f in Abs().files && f !in todo ==> Abs().files[f].blocks == map[]
    }

    lemma NoneEmptied(cleared: TempState)
      requires Valid() && cleared == ClearedState()
      ensures Emptying(fileToTempMeta.Keys, cleared)
    {
      hide Shape, TempInv, NvmeTemporaryBlockManager.Valid, NvmeTemporaryBlockManager.Abs, FilesAbs, Model.Clear;
      FileKeys();
    }

    lemma AllEmptied(cleared: TempState)
      requires Emptying({}, cleared)
      ensures Valid() && cleared == ClearedState() && forall f :: f in Abs().files ==> Abs().files[f].blocks == map[]
    {
      hide Shape, TempInv, NvmeTemporaryBlockManager.Valid, NvmeTemporaryBlockManager.Abs, FilesAbs, Model.Clear;
    }

    method EmptyOne(f: TempName, ghost todo: set<TempName>, ghost cleared: TempState)
      requires Emptying(todo, cleared) && f in todo && f in fileToTempMeta
      modifies this, fileToTempMeta[f], blockManager, blockManager.nodes
      ensures Emptying(todo - {f}, cleared)
      ensures fileToTempMeta == old(fileToTempMeta) && blockManager.nodes == old(blockManager.nodes)
    {
      hide Shape, TempInv, NvmeTemporaryBlockManager.Valid, NvmeTemporaryBlockManager.Abs, FilesAbs, Model.Clear;
      EmptyFile(f);
    }

    method EmptyFile(f: TempName)
      requires Valid() && f in fileToTempMeta && f in Abs().files
      modifies this, fileToTempMeta[f], blockManager, blockManager.nodes
      ensures Valid() && fileToTempMeta == old(fileToTempMeta) && blockManager.nodes == old(blockManager.nodes)
      ensures Model.Clear(Abs()) == Model.Clear(old(Abs()))
      ensures Abs().files.Keys == old(Abs()).files.Keys && Abs().files[f].blocks == map[]
      ensures forall g :: g in Abs().files && g != f ==> Abs().files[g] == old(Abs()).files[g]
    {
      hide Shape, TempInv, FreeBlocks, NvmeTemporaryBlockManager.Valid, NvmeTemporaryBlockManager.Abs, FilesAbs;
      hide Model.Clear;
      FreeBlocksFiles(Abs(), f);
      FreeBlocksClear(Abs(), f);
      FreeBlocksOf(f);
    }

    /** The end of Clear. */
    method ForgetAll()
      requires Valid() && forall f :: f in Abs().files ==> Abs().files[f].blocks == map[]
      modifies `fileToTempMeta, `activeTempFiles
      ensures Valid() && Abs() == Model.Clear(old(Abs()))
    {
      hide Shape, TempInv, NvmeTemporaryBlockManager.Valid, NvmeTemporaryBlockManager.Abs, FilesAbs;
      ghost var st := Abs();
      NothingOwned(st);
      ClearInv(st);
      BlocksValid();
      fileToTempMeta := map[];
      activeTempFiles := 0;
      NoFiles();
    }

    lemma BlocksValid()
      requires Shape()
      ensures blockManager.Valid()
    {
      hide NvmeTemporaryBlockManager.Valid;
    }

    // -------------------------------------------------------------- finding and allocating blocks

    /** GetLBA under the shared locks. */
    method CheckLBA(f: TempName, location: nat, nrLbas: nat) returns (r: Lookup)
      requires Valid() && f in fileToTempMeta
      ensures f in Abs().files && Abs().files[f].blockSize > 0 && r == Model.CheckLBA(Abs(), f, location, nrLbas)
    {
      hide NvmeTemporaryBlockManager.Valid, NvmeTemporaryBlockManager.Abs, Shape, TempInv, FilesAbs;
      FileMetaAt(f);
      SizeFacts(Abs(), f);
      LbaSizePositive(Abs());
      var tfmeta := fileToTempMeta[f];
      var blockIndex := BlockIndex(location, tfmeta.blockSize);
      if nrLbas != tfmeta.blockSize / lbaSize {
        return SizeMismatch;
      }
      if blockIndex in tfmeta.blockMap {
        MappedStart(f, blockIndex);
        return Found(tfmeta.blockMap[blockIndex].startLba);
      }
      return Missing;
    }

    lemma MappedStart(f: TempName, i: nat)
      requires Shape() && f in fileToTempMeta && i in fileToTempMeta[f].blockMap
      ensures Owns(FilesAbs(), f, i) && FilesAbs()[f].blocks[i] == fileToTempMeta[f].blockMap[i].startLba
    {
    }

    /** A new entry of a file's block map points to a node the allocator just handed out. */
    twostate predicate EntryNew(e: Entry)
      requires old(Shape())
      reads this, fileToTempMeta.Values, blockManager, blockManager.nodes
    {
      && fileToTempMeta == old(fileToTempMeta) && e.file in fileToTempMeta && blockManager.Valid()
      && var meta := fileToTempMeta[e.file];
      && e.index in meta.blockMap && e.index !in old(meta.blockMap)
      && var b := meta.blockMap[e.index];
      && meta.blockMap == old(meta.blockMap)[e.index := b]
      && (forall g :: g in fileToTempMeta && g != e.file ==>
             fileToTempMeta[g].blockMap == old(fileToTempMeta[g].blockMap))
      && b in blockManager.order && b in blockManager.nodes && !b.isFree
      && (b in old(blockManager.nodes) ==> old(b.isFree))
      && blockManager.OthersKept(b)
    }

    /** The old entries point to the nodes they pointed to, at the same addresses. */
    twostate lemma OldEntries(e: Entry)
      requires old(Shape()) && EntryNew(e)
      ensures Shape() && fileToTempMeta == old(fileToTempMeta) && e.file in fileToTempMeta
      ensures e.index in fileToTempMeta[e.file].blockMap && e.index !in old(fileToTempMeta[e.file].blockMap)
      ensures forall g :: g in fileToTempMeta ==>
        fileToTempMeta[g].blockMap.Keys
          == old(fileToTempMeta[g].blockMap).Keys + (if g == e.file then {e.index} else {})
      ensures forall g, j :: g in fileToTempMeta && j in old(fileToTempMeta[g].blockMap) ==>
        && j in fileToTempMeta[g].blockMap && fileToTempMeta[g].blockMap[j] == old(fileToTempMeta[g].blockMap[j])
        && fileToTempMeta[g].blockMap[j].startLba == old(fileToTempMeta[g].blockMap[j].startLba)
    {
      hide NvmeTemporaryBlockManager.Valid;
    }

    twostate lemma EntryMade(e: Entry)
      requires old(Shape()) && EntryNew(e)
      ensures Shape() && e.file in old(FilesAbs())
      ensures FilesAbs() == AddEntry(old(FilesAbs()), e.file, e.index,
          fileToTempMeta[e.file].blockMap[e.index].startLba)
    {
      hide EntryNew;
      OldEntries(e);
      hide Shape, FilesAbs;
      IsAdded(old(FilesAbs()), FilesAbs(), e.file, e.index, fileToTempMeta[e.file].blockMap[e.index].startLba);
    }

    /** The allocator served a request of `n` for the entry, and the ledger follows. */
    twostate predicate NodeTaken(e: Entry, n: nat)
      requires old(Shape()) && EntryNew(e)
      reads this, fileToTempMeta.Values, blockManager, blockManager.nodes
    {
      var b := fileToTempMeta[e.file].blockMap[e.index];
      && n > 0 && WellFormed(old(blockManager.Abs())) && Allocate(old(blockManager.Abs()), n).Allocated?
      && blockManager.Abs() == Allocate(old(blockManager.Abs()), n).pool
      && ExtentOf(b) == Allocate(old(blockManager.Abs()), n).block
      && asked == old(asked)[b.startLba := n] && drift == old(drift) + (n - b.lbaCount)
      && blockManager.activeTempBytes == old(blockManager.activeTempBytes) + n * 4096
      && blockManager.peakTempBytes == Max(old(blockManager.peakTempBytes), blockManager.activeTempBytes)
      && activeTempFiles == old(activeTempFiles) && peakTempFiles == old(peakTempFiles)
    }

    twostate lemma EntryTaken(t: Taking)
      requires old(Valid()) && EntryNew(t.entry) && NodeTaken(t.entry, t.n)
      requires t.entry.file in old(FilesAbs()) && t.entry.index !in old(FilesAbs())[t.entry.file].blocks
      requires t.n == BlockLbas(old(FilesAbs())[t.entry.file].blockSize, lbaSize)
      ensures Valid() && Abs() == TakenFor(old(Abs()), t.entry.file, t.entry.index, t.n)
    {
      hide Shape, FilesAbs, TempInv, AddEntry, WellFormed, Allocate, Owns, StartOf, TakenFor;
      hide NvmeTemporaryBlockManager.Linked, NvmeTemporaryBlockManager.Abs, NvmeTemporaryBlockManager.OthersKept;
      EntryMade(t.entry);
      LbaSizePositive(old(Abs()));
      TakenState(old(Abs()), t.entry.file, t.entry.index, t.n);
    }

    lemma OtherFiles(f: TempName)
      requires Shape() && f in fileToTempMeta
      ensures forall g :: g in fileToTempMeta && g != f ==> fileToTempMeta[g] != fileToTempMeta[f]
    {
      hide NvmeTemporaryBlockManager.Valid;
    }

    lemma InNodes(b: TemporaryBlock)
      requires blockManager.Valid() && b in blockManager.order
      ensures b in blockManager.nodes
    {
    }

    /** Ask the allocator for a block and map it. */
    method MapBlock(f: TempName, i: nat, n: nat) returns (r: BlockResult)
      requires Valid() && f in fileToTempMeta && i !in fileToTempMeta[f].blockMap && n > 0
      modifies `asked, `drift, fileToTempMeta[f], blockManager, blockManager.nodes
      ensures WellFormed(old(blockManager.Abs())) && fresh(blockManager.nodes - old(blockManager.nodes))
      ensures r.NoBlock? ==> Allocate(old(blockManager.Abs()), n).NoFreeBlock? && Valid() && Abs() == old(Abs())
      ensures r.Block? ==>
        EntryNew(Entry(f, i)) && NodeTaken(Entry(f, i), n) && r.block == fileToTempMeta[f].blockMap[i]
    {
      hide Shape, FilesAbs, TempInv, WellFormed, Allocate, LiveAt;
      hide NvmeTemporaryBlockManager.Linked, NvmeTemporaryBlockManager.Abs, NvmeTemporaryBlockManager.OthersKept;
      BlocksValid();
      OtherFiles(f);
      Shortfall(blockManager.Abs(), n);
      var meta := fileToTempMeta[f];
      r := blockManager.AllocateBlock(n);
      if r.Block? {
        InNodes(r.block);
        meta.blockMap := meta.blockMap[i := r.block];
        asked := asked[r.block.startLba := n];
        drift := drift + (n - r.block.lbaCount);
        assert blockManager.Abs() == Allocate(old(blockManager.Abs()), n).pool;
      }
    }

    method TakeEntryOf(f: TempName, i: nat, n: nat) returns (r: LbaResult)
      requires Valid() && f in fileToTempMeta && i !in fileToTempMeta[f].blockMap
      requires n == BlockLbas(fileToTempMeta[f].blockSize, lbaSize) && n > 0
      modifies this, fileToTempMeta[f], blockManager, blockManager.nodes
      ensures Valid() && fileToTempMeta == old(fileToTempMeta) && fresh(blockManager.nodes - old(blockManager.nodes))
      ensures WellFormed(old(Abs()).ledger.pool) && f in old(Abs()).files
      ensures match Allocate(old(Abs()).ledger.pool, n)
              case NoFreeBlock => r == OutOfSpace && Abs() == old(Abs())
              case Allocated(_, b) => r == Lba(b.start) && Abs() == TakenFor(old(Abs()), f, i, n)
    {
      hide Shape, FilesAbs, TempInv, WellFormed, Allocate, TakenFor, LiveAt;
      hide NvmeTemporaryBlockManager.Linked, NvmeTemporaryBlockManager.Abs, NvmeTemporaryBlockManager.OthersKept;
      FileMetaAt(f);
      BlocksValid();
      PoolWellFormed(Abs());
      var block := MapBlock(f, i, n);
      if block.NoBlock? {
        return OutOfSpace;
      }
      EntryTaken(Taking(Entry(f, i), n));
      r := Lba(block.block.startLba);
    }

    /** GetLBA under the exclusive locks: look again, then allocate. */
    method AllocateLBA(f: TempName, location: nat, nrLbas: nat) returns (r: LbaResult)
      requires Valid() && f in fileToTempMeta
      requires fileToTempMeta[f].blockSize > 0 && nrLbas == BlockLbas(fileToTempMeta[f].blockSize, lbaSize)
      requires nrLbas > 0
      modifies this, fileToTempMeta[f], blockManager, blockManager.nodes
      ensures Valid() && fileToTempMeta == old(fileToTempMeta) && fresh(blockManager.nodes - old(blockManager.nodes))
      ensures WellFormed(old(Abs()).ledger.pool) && f in old(Abs()).files
      ensures (Abs(), r) == Model.AllocateLBA(old(Abs()), f, location, nrLbas)
    {
      hide Shape, FilesAbs, TempInv, WellFormed, Allocate, LiveAt, Step;
      hide NvmeTemporaryBlockManager.Valid, NvmeTemporaryBlockManager.Abs;
      FileMetaAt(f);
      var tfmeta := fileToTempMeta[f];
      var blockIndex := BlockIndex(location, tfmeta.blockSize);
      if blockIndex !in tfmeta.blockMap {
        r := TakeEntryOf(f, blockIndex, nrLbas);
      } else {
        PoolWellFormed(Abs());
        MappedStart(f, blockIndex);
        r := Lba(tfmeta.blockMap[blockIndex].startLba);
      }
    }

    method GetLBA(f: TempName, location: nat, nrLbas: nat) returns (r: LbaResult)
      requires Valid() && f in fileToTempMeta
      modifies this, fileToTempMeta[f], blockManager, blockManager.nodes
      ensures Valid() && fileToTempMeta == old(fileToTempMeta) && fresh(blockManager.nodes - old(blockManager.nodes))
      ensures f in old(Abs()).files && (Abs(), r) == Model.GetLBA(old(Abs()), f, location, nrLbas)
    {
      hide Shape, FilesAbs, TempInv, WellFormed, Model.AllocateLBA, Model.CheckLBA;
      hide NvmeTemporaryBlockManager.Valid, NvmeTemporaryBlockManager.Abs;
      FileMetaAt(f);
      SizeFacts(Abs(), f);
      LbaSizePositive(Abs());
      var look := CheckLBA(f, location, nrLbas);
      match look {
        case SizeMismatch => r := BadSize;
        case Found(lba) => r := Lba(lba);
        case Missing =>
          MissingSize(Abs(), f, location, nrLbas);
          r := AllocateLBA(f, location, nrLbas);
      }
    }

    // -------------------------------------------------------------- queries

    method FileExists(f: TempName) returns (r: bool)
      requires Valid()
      ensures r <==> f in Abs().files
    {
      FileKeys();
      r := f in fileToTempMeta;
    }

    method GetFileSizeLBA(f: TempName) returns (n: nat)
      requires Valid() && f in fileToTempMeta
      ensures f in Abs().files && Abs().lbaSize > 0 && n == TempFileSizes.GetFileSizeLBA(Abs(), f)
    {
      hide Shape, FilesAbs, TempInv;
      FileMetaAt(f);
      LbaSizePositive(Abs());
      n := BlockLbas(fileToTempMeta[f].blockSize * |fileToTempMeta[f].blockMap|, lbaSize);
    }

    method GetSeekBound(f: TempName) returns (n: nat)
      requires Valid() && f in fileToTempMeta
      ensures f in Abs().files && n == TempFileSizes.GetSeekBound(Abs(), f)
    {
      hide Shape, FilesAbs, TempInv;
      FileMetaAt(f);
      n := fileToTempMeta[f].blockSize * |fileToTempMeta[f].blockMap|;
    }

    /** Unsigned 64-bit arithmetic throughout: the subtraction may wrap around. */
    method GetAvailableSpace(lbaCount: nat, lbaStart: nat) returns (space: int)
      requires Valid()
      ensures space == TempFileSpace.AvailableSpace(Abs(), lbaCount, lbaStart)
    {
      hide Shape, FilesAbs, TempInv, TempFileSpace.Used, Wrapped;
      var tempMaxBytes: int := Wrapped(((lbaCount - 1) - lbaStart) * lbaSize);
      var tempUsedBytes := UsedBytes();
      WrapTwice(((lbaCount - 1) - lbaStart) * lbaSize, tempUsedBytes);
      space := Wrapped(tempMaxBytes - tempUsedBytes);
    }

    /** The bytes mapped by all files, whatever order they come in. */
    method UsedBytes() returns (used: nat)
      requires Valid()
      ensures used == TempFileSpace.Used(Abs().files)
    {
      hide Shape, FilesAbs, TempInv, TempFileSpace.Used;
      FileKeys();
      used := 0;
      var todo := fileToTempMeta.Keys;
      ghost var files := FilesAbs();
      AllFiles(files);
      while todo != {}
        invariant todo <= fileToTempMeta.Keys && files == FilesAbs() && files.Keys == fileToTempMeta.Keys
        invariant used + TempFileSpace.Used(Only(files, todo)) == TempFileSpace.Used(files)
        decreases |todo|
      {
        var f :| f in todo;
        FileMetaAt(f);
        UsedOne(files, todo, f);
        used := used + fileToTempMeta[f].blockSize * |fileToTempMeta[f].blockMap|;
        todo := todo - {f};
      }
      assert Only(files, {}) == map[];
      NoneUsed();
    }
  }

  lemma GiveIs(l: Ledger, s: nat, len: nat)
    requires WellFormed(l.pool) && LiveAt(l.pool.blocks, s) && l.pool.blocks[Find(l.pool.blocks, s)].len == len
    ensures Step(l, Give(s)) == Ledger(Free(l.pool, s), l.asked - {s}, l.active - 4096 * len, l.peak, l.drift)
  {
  }

  /** The loop, at index `i`, will stop at `e` and leave `goal`. */
  ghost predicate Walk(st: TempState, f: TempName, i: nat, to: nat, e: nat, goal: TempState)
    requires TempInv(st)
  {
    && f in st.files && WalkEnd(st.files[f].blocks, i, to) == e && FreeDown(st, f, i, e) == goal
  }

  lemma WalkStart(st: TempState, f: TempName, from: nat, to: nat)
    requires TempInv(st) && f in st.files
    ensures var e := WalkEnd(st.files[f].blocks, from, to); Walk(st, f, from, to, e, FreeDown(st, f, from, e))
  {
  }

  /** An index that is not mapped, or the target, is where it stops. */
  lemma WalkStops(st: TempState, f: TempName, i: nat, to: nat, e: nat, goal: TempState)
    requires TempInv(st) && Walk(st, f, i, to, e, goal) && (i <= to || !Owns(st.files, f, i - 1))
    ensures st == goal && e == i
  {
    hide TempInv;
  }

  lemma {:induction false} WalkSame(a: map<nat, nat>, b: map<nat, nat>, from: nat, to: nat)
    requires forall x :: 0 <= x < from ==> (x in a <==> x in b)
    ensures WalkEnd(a, from, to) == WalkEnd(b, from, to)
    decreases from
  {
    if from > 0 { WalkSame(a, b, from - 1, to); }
  }

  lemma WalkStep(st: TempState, f: TempName, i: nat, to: nat, e: nat, goal: TempState)
    requires TempInv(st) && Walk(st, f, i, to, e, goal) && to < i && Owns(st.files, f, i - 1)
    ensures Walk(FreeOwned(st, f, i - 1), f, i - 1, to, e, goal)
  {
    hide TempInv;
    WalkSame(st.files[f].blocks, DropEntry(st.files, f, i - 1)[f].blocks, i - 1, to);
  }

  lemma LeastUnique(i: nat, s: set<nat>)
    requires IsLeast(i, s)
    ensures s != {} && Least(s) == i
  {
  }

  lemma {:induction false} FreeBlocksClear(st: TempState, f: TempName)
    requires TempInv(st) && f in st.files
    ensures Model.Clear(FreeBlocks(st, f)) == Model.Clear(st)
    decreases |st.files[f].blocks|
  {
    hide TempInv, FreeOwned, DropEntry, Model.Clear;
    if st.files[f].blocks != map[] {
      var i := Least(st.files[f].blocks.Keys);
      FreeOwnedClear(st, f, i);
      DropThenEmpty(st.files, f, i);
      FreeBlocksClear(FreeOwned(st, f, i), f);
    }
  }

  lemma FreeOwnedClear(st: TempState, f: TempName, i: nat)
    requires TempInv(st) && Owns(st.files, f, i)
    ensures Model.Clear(FreeOwned(st, f, i)) == Model.Clear(st)
  {
    hide TempInv, WellFormed, LiveAt, Splice, UnlinkNeighbours, Merged, MergeFrom, MergeTo, Find;
    EntryLive(st, f, i);
  }

  lemma LbaSizePositive(st: TempState)
    requires TempInv(st)
    ensures st.lbaSize > 0
  {
  }

  lemma PoolWellFormed(st: TempState)
    requires TempInv(st)
    ensures WellFormed(st.ledger.pool)
  {
  }

  lemma FreedState(st: TempState, f: TempName, i: nat, len: nat)
    requires TempInv(st) && Owns(st.files, f, i) && LiveAt(st.ledger.pool.blocks, StartOf(st.files, f, i))
    requires st.ledger.pool.blocks[Find(st.ledger.pool.blocks, StartOf(st.files, f, i))].len == len
    ensures WellFormed(st.ledger.pool)
    ensures var s, l := StartOf(st.files, f, i), st.ledger;
            FreeOwned(st, f, i)
              == TempState(Ledger(Free(l.pool, s), l.asked - {s}, l.active - 4096 * len, l.peak, l.drift),
                                             DropEntry(st.files, f, i), st.lbaSize, st.activeFiles, st.peakFiles)
    ensures TempInv(FreeOwned(st, f, i))
  {
    GiveIs(st.ledger, StartOf(st.files, f, i), len);
  }

  /** A file's new block, as the model has it. */
  ghost function TakenFor(st: TempState, f: TempName, i: nat, n: nat): TempState
    requires WellFormed(st.ledger.pool) && n > 0 && Allocate(st.ledger.pool, n).Allocated? && f in st.files
  {
    st.(ledger := Step(st.ledger, Take(n)), files := AddEntry(st.files, f, i, Allocate(st.ledger.pool, n).block.start))
  }

  lemma TakenState(st: TempState, f: TempName, i: nat, n: nat)
    requires TempInv(st) && f in st.files && i !in st.files[f].blocks && n == st.files[f].blockSize / st.lbaSize
    requires n > 0
    requires WellFormed(st.ledger.pool) && Allocate(st.ledger.pool, n).Allocated?
    ensures TempInv(TakenFor(st, f, i, n))
    ensures var l, a := st.ledger, Allocate(st.ledger.pool, n);
            a.block.len <= n &&
            TakenFor(st, f, i, n) == TempState(
              Ledger(a.pool, l.asked[a.block.start := n], l.active + 4096 * n, Max(l.peak, l.active + 4096 * n),
                  l.drift + (n - a.block.len)),
              AddEntry(st.files, f, i, a.block.start), st.lbaSize, st.activeFiles, st.peakFiles)
  {
    hide TempInv, AddEntry, WellFormed;
    AddEntryInv(st, f, i, n, Allocate(st.ledger.pool, n).block.start);
    AllocateAddsOne(st.ledger.pool, n);
  }

  lemma Shortfall(p: Pool, n: nat)
    requires WellFormed(p) && n > 0
    ensures Allocate(p, n).Allocated? ==> Allocate(p, n).block.len <= n && !Allocate(p, n).block.free
  {
    if Allocate(p, n).Allocated? {
      AllocateAddsOne(p, n);
    }
  }

  lemma MissingSize(st: TempState, f: TempName, location: nat, nrLbas: nat)
    requires f in st.files && st.files[f].blockSize > 0 && st.lbaSize > 0
    requires Model.CheckLBA(st, f, location, nrLbas).Missing?
    ensures nrLbas == BlockLbas(st.files[f].blockSize, st.lbaSize)
  {
  }

  ghost function Only(files: Files, keys: set<TempName>): Files {
    map f | f in keys && f in files :: files[f]
  }

  lemma AllFiles(files: Files)
    ensures Only(files, files.Keys) == files
  {
  }

  lemma UsedOne(files: Files, todo: set<TempName>, f: TempName)
    requires f in todo && f in files
    ensures TempFileSpace.Used(Only(files, todo))
      == TempFileSpace.MappedBytes(files[f]) + TempFileSpace.Used(Only(files, todo - {f}))
  {
    TempFileSpace.UsedWithout(Only(files, todo), f);
    assert Only(files, todo) - {f} == Only(files, todo - {f});
  }

  lemma NoneUsed()
    ensures TempFileSpace.Used(map[]) == 0
  {
  }

  /** Reducing an operand first does not change a difference modulo 2^64. */
  lemma WrapTwice(a: int, b: int)
    ensures Wrapped(Wrapped(a) - b) == Wrapped(a - b)
  {
  }

  lemma IsDropped(files: Files, d: Files, f: TempName, i: nat)
    requires Owns(files, f, i) && d.Keys == files.Keys
    requires forall g :: g in d ==>
      d[g].blockSize == files[g].blockSize && d[g].blocks.Keys == files[g].blocks.Keys - (if g == f then {i} else {})
    requires forall g, j :: Owns(d, g, j) ==> Owns(files, g, j) && StartOf(d, g, j) == StartOf(files, g, j)
    ensures d == DropEntry(files, f, i)
  {
    var c := DropEntry(files, f, i);
    forall g | g in d ensures d[g] == c[g] {
      forall j | j in d[g].blocks ensures j in c[g].blocks && d[g].blocks[j] == c[g].blocks[j] {
        assert Owns(d, g, j);
      }
      assert d[g].blocks.Keys == c[g].blocks.Keys;
    }
  }

  lemma IsAdded(files: Files, d: Files, f: TempName, i: nat, s: nat)
    requires f in files && !Owns(files, f, i) && d.Keys == files.Keys
    requires forall g :: g in d ==>
      d[g].blockSize == files[g].blockSize && d[g].blocks.Keys == files[g].blocks.Keys + (if g == f then {i} else {})
    requires forall g, j :: Owns(files, g, j) ==> Owns(d, g, j) && StartOf(d, g, j) == StartOf(files, g, j)
    requires d[f].blocks[i] == s
    ensures d == AddEntry(files, f, i, s)
  {
    var c := AddEntry(files, f, i, s);
    forall g | g in d ensures d[g] == c[g] {
      forall j | j in d[g].blocks ensures j in c[g].blocks && d[g].blocks[j] == c[g].blocks[j] {
        assert (g == f && j == i) || Owns(files, g, j);
      }
      assert d[g].blocks.Keys == c[g].blocks.Keys;
    }
  }

  /** How many LBAs a block of a file takes. */
  function BlockLbas(blockSize: nat, lbaSize: nat): (n: nat) {
    if lbaSize == 0 then 0 else blockSize / lbaSize
  }

  /** A request of `n` LBAs for an entry. */
  datatype Taking = Taking(entry: Entry, n: nat)

  datatype Entry = Entry(file: TempName, index: nat)
}
