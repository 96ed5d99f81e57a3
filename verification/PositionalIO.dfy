/** Positional reads and writes as the file system carries them out: it asks the file's strategy
    for an LBA, checks the range, hands a command to the asynchronous engine and, after a write,
    moves the file's watermark. */
module PositionalIO {
  import opened Basics
  import opened Device
  import opened ChunkPlan
  import opened AsyncEngine
  import opened Regions
  import opened TempFileModel
  import opened TempFileManager
  import opened Translation
  import opened FileSystem
  import Watermarks

  /** The engine's 32-bit counters hold the transfer. */
  ghost predicate Transferable(mdts: nat, location: nat, nrBytes: nat) {
    MaxLbas(mdts, LBA) > 0 && Within32Bits(RequiredLbas(nrBytes, location % LBA, LBA), MaxLbas(mdts, LBA), LBA)
  }

  /** On devices with 4096-byte LBAs they hold every transfer of up to 4 GiB from the start of its
      first LBA on, whatever the transfer limit. */
  lemma SmallTransfers(mdts: nat, location: nat, nrBytes: nat)
    requires nrBytes > 0 && location % 4096 + nrBytes <= 4 * 1024 * 1024 * 1024
    ensures Transferable(mdts, location, nrBytes)
  {
    hide MaxLbas, NumChunks, RequiredLbas, Times;
    var offset, m := location % LBA, MaxLbas(mdts, LBA);
    var n := RequiredLbas(nrBytes, offset, LBA);
    MaxLbasPositive(mdts, LBA);
    TimesFacts(0, LBA);
    RequiredIs(nrBytes, offset, LBA, 0);
    RequiredIs(nrBytes, offset, LBA, n - 1);
    SmallCount(n, offset + nrBytes);
    NumChunksIs(n, m);
    var k := NumChunks(n, m) - 1;
    TimesFacts(k, m);
    TimesMonotone(Times(k, m), n - 1, LBA);
    TimesAssociate(k, m, LBA);
  }

  lemma SmallCount(n: nat, bytes: nat)
    requires n > 0 && Times(n - 1, LBA) < bytes <= U32
    ensures n < U32
  {
  }

  /** A placed access is a transfer the engine takes. */
  lemma PlacedReady(fs: FS, file: File, location: nat, nrBytes: nat, device: NvmeDevice, mdts: nat)
    requires FsInv(fs) && Known(fs, file) && nrBytes > 0 && Transferable(mdts, location, nrBytes)
    requires device.Valid() && device.lbaSize == LBA && device.lbaCount == fs.lbaCount
    ensures var r := Resolve(fs, file, location, nrBytes);
            r.At? ==> Ready(r.ctx, device, mdts) && r.ctx.nrBytes == nrBytes
  {
    hide FsInv, Known, MaxLbas, Within32Bits, Fits, Position, RequiredLbas, Has;
    Resolved(fs, file, location, nrBytes);
    PlacedLbas(fs, file, location, nrBytes);
  }

  lemma PlacedLbas(fs: FS, file: File, location: nat, nrBytes: nat)
    requires FsInv(fs) && Known(fs, file) && nrBytes > 0
    ensures var r := Resolve(fs, file, location, nrBytes);
            r.At? ==> r.ctx.nrLbas == RequiredLbas(nrBytes, location % LBA, LBA)
  {
    hide TempInv, GlobalOk, GetLBA, RequiredLbas;
  }

  // ---------------------------------------------------------------- watermarks

  /** Every open database's watermarks, by slot, are inside their regions. */
  ghost predicate Inside(g: Global, states: seq<Runtime>) {
    && |states| == |g.databases|
    && forall i :: 0 <= i < g.activeDatabases && i < |states| ==>
         && g.databases[i].dbStart <= states[i].dbLocation <= g.databases[i].walStart
         && g.databases[i].walStart <= states[i].walLocation <= g.databases[i].walEnd
  }

  /** A write raises the watermark of its own file to its end, and no other. */
  function Advanced(states: seq<Runtime>, file: File, end: nat): (r: seq<Runtime>)
    ensures |r| == |states|
  {
    match file
    case DbFile(i) =>
      if i >= |states| then states
      else states[i := states[i].(dbLocation := Max(states[i].dbLocation, end))]
    case WalFile(i) =>
      if i >= |states| then states
      else states[i := states[i].(walLocation := Max(states[i].walLocation, end))]
    case TempFile(_) => states
  }

  /** Exactly: the file's own watermark is raised as a write's effect raises it, to the end where that
      is past it and else not at all; it never moves back, and no other watermark moves. */
  lemma AdvancedExactly(states: seq<Runtime>, file: File, end: nat, j: nat, t: nat)
    requires j < |states|
    ensures var was, now := states[j], Advanced(states, file, end)[j];
            && was.dbLocation <= now.dbLocation && was.walLocation <= now.walLocation
            && now.dbLocation == (if file == DbFile(j) && was.dbLocation < end then end else was.dbLocation)
            && now.walLocation == (if file == WalFile(j) && was.walLocation < end then end else was.walLocation)
            && (file == DbFile(j) ==> now.dbLocation == Watermarks.Raise(t, end).Applied(was.dbLocation))
            && (file == WalFile(j) ==> now.walLocation == Watermarks.Raise(t, end).Applied(was.walLocation))
  {
  }

  /** A write that is placed keeps the watermarks inside, and its data is below its own: the file
      as a reopening finds it holds every byte written. */
  lemma WriteCovered(fs: FS, states: seq<Runtime>, file: File, location: nat, nrBytes: nat)
    requires FsInv(fs) && Known(fs, file) && nrBytes > 0 && Inside(fs.global, states)
    requires Resolve(fs, file, location, nrBytes).At?
    ensures var r := Resolve(fs, file, location, nrBytes);
            var now := Advanced(states, file, r.ctx.startLba + r.ctx.nrLbas);
            && Inside(fs.global, now)
            && (file.DbFile? ==>
                  && file.slot < |now|
                  && location + nrBytes <= LBA * (now[file.slot].dbLocation - From(fs, Db(file.slot))))
            && (file.WalFile? ==>
                  && file.slot < |now|
                  && location + nrBytes <= LBA * (now[file.slot].walLocation - From(fs, Wal(file.slot))))
  {
    hide TempInv, GlobalOk;
    if !file.TempFile? {
      RegionPlace(fs, file.slot);
      var key := if file.DbFile? then Db(file.slot) else Wal(file.slot);
      var ctx := FlatContext(From(fs, key), location, nrBytes, LBA);
      EndInside(From(fs, key), To(fs, key), location, nrBytes, ctx);
    }
  }

  lemma EndInside(lo: nat, hi: nat, location: nat, nrBytes: nat, ctx: CmdContext)
    requires lo <= hi && nrBytes > 0 && ctx == FlatContext(lo, location, nrBytes, LBA)
    requires Watermarks.IsLBAInRange(lo, hi, ctx.startLba, ctx.nrLbas)
    ensures lo <= ctx.startLba + ctx.nrLbas <= hi && location + nrBytes <= LBA * (ctx.startLba + ctx.nrLbas - lo)
  {
    RequiredIs(nrBytes, location % LBA, LBA, ctx.nrLbas);
    RequiredIs(nrBytes, location % LBA, LBA, 0);
  }

  // ---------------------------------------------------------------- the file system

  class NvmeFileSystem {
    const engine: NvmeAsyncIOEngine
    const metadata: Global
    const tempMetaManager: TemporaryFileMetadataManager
    var states: seq<Runtime>  // the watermarks of the database in each slot

    constructor (engine: NvmeAsyncIOEngine, metadata: Global, tempMetaManager: TemporaryFileMetadataManager,
                 states: seq<Runtime>)
      ensures this.engine == engine && this.metadata == metadata && this.tempMetaManager == tempMetaManager
      ensures this.states == states
    {
      this.engine, this.metadata, this.tempMetaManager, this.states := engine, metadata, tempMetaManager, states;
    }

    ghost predicate Valid()
      reads this, engine.device.memory, tempMetaManager, tempMetaManager.fileToTempMeta.Values
      reads tempMetaManager.blockManager, tempMetaManager.blockManager.nodes
    {
      && engine.device.Valid() && engine.device.lbaSize == LBA && tempMetaManager.Valid() && FsInv(Abs())
      && Inside(metadata, states)
    }

    ghost function Abs(): FS
      requires tempMetaManager.Valid()
      reads this, engine.device.memory, tempMetaManager, tempMetaManager.fileToTempMeta.Values
      reads tempMetaManager.blockManager, tempMetaManager.blockManager.nodes
    {
      FS(engine.device.memory[..], engine.device.lbaCount, metadata, tempMetaManager.Abs())
    }

    /** The strategy's GetLBA and IsLBAInRange. */
    method Place(file: File, location: nat, nrBytes: nat) returns (r: Option<CmdContext>)
      requires Valid() && Known(Abs(), file) && nrBytes > 0
      modifies tempMetaManager, tempMetaManager.fileToTempMeta.Values
      modifies tempMetaManager.blockManager, tempMetaManager.blockManager.nodes
      ensures tempMetaManager.Valid() && engine.device.memory[..] == old(engine.device.memory[..])
      ensures match Resolve(old(Abs()), file, location, nrBytes)
              case Refused(st) => r.None? && tempMetaManager.Abs() == st
              case At(st, _, ctx) => r == Some(ctx) && tempMetaManager.Abs() == st
    {
      hide TempInv, GlobalOk, FsInv, TemporaryFileMetadataManager.Shape, TemporaryFileMetadataManager.FilesAbs;
      var inBlockOffset := location % LBA;
      var nrLbas := RequiredLbas(nrBytes, inBlockOffset, LBA);
      match file
      case DbFile(i) =>
        var region := metadata.databases[i];
        var startLba := FlatLBA(region.dbStart, location, LBA);
        if !Watermarks.IsLBAInRange(region.dbStart, region.walStart, startLba, nrLbas) {
          return None;
        }
        r := Some(CmdContext(nrBytes, nrLbas, startLba, inBlockOffset));
      case WalFile(i) =>
        var region := metadata.databases[i];
        var startLba := FlatLBA(region.walStart, location, LBA);
        if !Watermarks.IsLBAInRange(region.walStart, region.walEnd, startLba, nrLbas) {
          return None;
        }
        r := Some(CmdContext(nrBytes, nrLbas, startLba, inBlockOffset));
      case TempFile(f) =>
        tempMetaManager.FileKeys();
        var lba := tempMetaManager.GetLBA(f, location, nrLbas);
        if !lba.Lba? || !IsTempLBAInRange(metadata.tmpStart, engine.device.lbaCount, lba.lba, nrLbas) {
          return None;
        }
        r := Some(CmdContext(nrBytes, nrLbas, lba.lba, inBlockOffset));
    }

    /** The strategy's UpdateMetadata, whose exchange may fail `spurious` times for no reason. */
    method UpdateMetadata(file: File, ctx: CmdContext, spurious: nat)
      requires file.TempFile? || file.slot < |states|
      modifies `states
      ensures states == Advanced(old(states), file, ctx.startLba + ctx.nrLbas)
      ensures forall j :: 0 <= j < |states| ==>
                var was, now, end := old(states)[j], states[j], ctx.startLba + ctx.nrLbas;
                && now.dbLocation == (if file == DbFile(j) && was.dbLocation < end then end else was.dbLocation)
                && now.walLocation == (if file == WalFile(j) && was.walLocation < end then end else was.walLocation)
    {
      match file
      case DbFile(i) =>
        var location := Raised(states[i].dbLocation, ctx.startLba + ctx.nrLbas, spurious);
        states := states[i := states[i].(dbLocation := location)];
      case WalFile(i) =>
        var location := Raised(states[i].walLocation, ctx.startLba + ctx.nrLbas, spurious);
        states := states[i := states[i].(walLocation := location)];
      case TempFile(_) =>
    }

    /** The compare-and-swap loop of one thread. */
    method Raised(location: nat, newLocation: nat, spurious: nat) returns (r: nat)
      ensures r == Max(location, newLocation)
    {
      var expected, failures := location, spurious;
      r := location;
      while true
        invariant r == expected == location
        decreases failures
      {
        if newLocation < expected {
          return;
        }
        if failures == 0 {
          r := newLocation;
          return;
        }
        failures := failures - 1;
      }
    }

    method Write(file: File, location: nat, buffer: seq<Byte>, spurious: nat) returns (r: Outcome)
      requires Valid() && Known(Abs(), file) && |buffer| > 0 && Transferable(engine.mdts, location, |buffer|)
      modifies `states, engine.device.memory, engine.device`handedOut, engine.device`givenBack
      modifies tempMetaManager, tempMetaManager.fileToTempMeta.Values
      modifies tempMetaManager.blockManager, tempMetaManager.blockManager.nodes
      ensures Valid() && (Abs(), r) == FileSystem.Write(old(Abs()), file, location, buffer)
      ensures match Resolve(old(Abs()), file, location, |buffer|)
              case Refused(_) => states == old(states)
              case At(_, _, ctx) => states == Advanced(old(states), file, ctx.startLba + ctx.nrLbas)
    {
      hide TempInv, GlobalOk, FsInv, Resolve, PlacedAt, TemporaryFileMetadataManager.Valid;
      hide TemporaryFileMetadataManager.Abs;
      WriteFacts(Abs(), file, location, buffer);
      if Resolve(Abs(), file, location, |buffer|).At? { WriteCovered(Abs(), states, file, location, |buffer|); }
      var ctx := Place(file, location, |buffer|);
      if ctx.None? {
        return Rejected;
      }
      engine.Write(buffer, ctx.value);
      UpdateMetadata(file, ctx.value, spurious);
      r := Written;
    }

    lemma WriteInv(fs: FS, file: File, location: nat, data: seq<Byte>)
      requires FsInv(fs) && Known(fs, file) && |data| > 0
      ensures FsInv(FileSystem.Write(fs, file, location, data).0)
    {
      hide FsInv, Known, FileSystem.Write;
      var q := Next(fs, WriteOp(file, location, data));
    }

    lemma WriteFacts(fs: FS, file: File, location: nat, data: seq<Byte>)
      requires FsInv(fs) && Known(fs, file) && |data| > 0 && Transferable(engine.mdts, location, |data|)
      requires engine.device.Valid() && engine.device.lbaSize == LBA && engine.device.lbaCount == fs.lbaCount
      ensures FsInv(FileSystem.Write(fs, file, location, data).0)
      ensures var r := Resolve(fs, file, location, |data|);
              r.At? ==>
                && Fits(r.ctx, LBA, fs.lbaCount) && r.ctx.nrBytes == |data|
                && Ready(r.ctx, engine.device, engine.mdts)
    {
      hide FsInv, Known, Resolve, MaxLbas, Within32Bits, Fits;
      WriteInv(fs, file, location, data);
      PlacedReady(fs, file, location, |data|, engine.device, engine.mdts);
    }

    method Read(file: File, location: nat, nrBytes: nat) returns (r: Outcome)
      requires Valid() && Known(Abs(), file) && nrBytes > 0 && Transferable(engine.mdts, location, nrBytes)
      modifies engine.device`handedOut, engine.device`givenBack
      modifies tempMetaManager, tempMetaManager.fileToTempMeta.Values
      modifies tempMetaManager.blockManager, tempMetaManager.blockManager.nodes
      ensures Valid() && (Abs(), r) == FileSystem.Read(old(Abs()), file, location, nrBytes)
      ensures states == old(states)
    {
      hide TempInv, GlobalOk, FsInv, Resolve, PlacedAt, TemporaryFileMetadataManager.Valid;
      hide TemporaryFileMetadataManager.Abs;
      ReadFacts(Abs(), file, location, nrBytes);
      var ctx := Place(file, location, nrBytes);
      if ctx.None? {
        return Rejected;
      }
      var buffer := engine.Read(ctx.value);
      r := Got(buffer);
    }

    lemma ReadFacts(fs: FS, file: File, location: nat, nrBytes: nat)
      requires FsInv(fs) && Known(fs, file) && nrBytes > 0 && Transferable(engine.mdts, location, nrBytes)
      requires engine.device.Valid() && engine.device.lbaSize == LBA && engine.device.lbaCount == fs.lbaCount
      ensures FsInv(FileSystem.Read(fs, file, location, nrBytes).0)
      ensures var r := Resolve(fs, file, location, nrBytes);
              r.At? ==>
                && Fits(r.ctx, LBA, fs.lbaCount) && r.ctx.nrBytes == nrBytes
                && Ready(r.ctx, engine.device, engine.mdts)
    {
      hide FsInv, Known, Resolve, MaxLbas, Within32Bits, Fits;
      ReadView(fs, file, location, nrBytes);
      PlacedReady(fs, file, location, nrBytes, engine.device, engine.mdts);
    }
  }
}
