/** The whole file system over one flat device with 4096-byte LBAs: database files, WALs, blocks of
    temporary files and the metadata, each behaving as a byte array of its own. */
module FileSystem {
  import opened Basics
  import opened Device
  import BlockPool
  import AllocatorRuns
  import opened Regions
  import RegionTable
  import opened TempFileModel
  import opened TempFileLaws
  import opened Translation
  import opened MetadataImage
  import Watermarks

  const LBA: nat := 4096

  datatype FS = FS(memory: seq<Byte>, lbaCount: nat, global: Global, temp: TempState)

  /** What has bytes of its own. */
  datatype Key = Meta | Db(slot: nat) | Wal(slot: nat) | Temp(f: TempName, k: nat)

  ghost predicate FsInv(fs: FS) {
    && |fs.memory| == Times(fs.lbaCount, LBA)
    && GlobalOk(fs.global) && fs.global.activeDatabases >= 1 && fs.global.tmpStart + 1 < fs.lbaCount
    && TempInv(fs.temp) && fs.temp.lbaSize == LBA
    && fs.temp.ledger.pool.lo == fs.global.tmpStart && fs.temp.ledger.pool.hi == fs.lbaCount - 1
  }

  ghost predicate Has(fs: FS, key: Key) {
    match key
    case Meta => true
    case Db(i) => i < fs.global.activeDatabases && i < |fs.global.databases|
    case Wal(i) => i < fs.global.activeDatabases && i < |fs.global.databases|
    case Temp(f, k) => Owns(fs.temp.files, f, k)
  }

  /** The LBAs of a key; a temporary block may reach past the device. */
  ghost function From(fs: FS, key: Key): nat
    requires Has(fs, key)
  {
    match key
    case Meta => 0
    case Db(i) => fs.global.databases[i].dbStart
    case Wal(i) => fs.global.databases[i].walStart
    case Temp(f, k) => StartOf(fs.temp.files, f, k)
  }

  ghost function To(fs: FS, key: Key): nat
    requires Has(fs, key)
  {
    match key
    case Meta => 1
    case Db(i) => fs.global.databases[i].walStart
    case Wal(i) => fs.global.databases[i].walEnd
    case Temp(f, k) => StartOf(fs.temp.files, f, k) + fs.temp.files[f].blockSize / LBA
  }

  // ---------------------------------------------------------------- disjointness

  lemma TempPlace(fs: FS, f: TempName, k: nat)
    requires FsInv(fs) && Owns(fs.temp.files, f, k)
    ensures fs.global.tmpStart <= From(fs, Temp(f, k)) < To(fs, Temp(f, k)) && From(fs, Temp(f, k)) < fs.lbaCount
  {
    var st := fs.temp;
    SizeFacts(st, f);
    EntryLive(st, f, k);
    var b := st.ledger.pool.blocks;
    BlockPool.WithinPool(b, st.ledger.pool.lo, st.ledger.pool.hi, BlockPool.Find(b, StartOf(st.files, f, k)));
  }

  lemma RegionPlace(fs: FS, i: nat)
    requires FsInv(fs) && i < fs.global.activeDatabases
    ensures Has(fs, Db(i)) && Has(fs, Wal(i))
    ensures 1 <= From(fs, Db(i)) <= To(fs, Db(i)) == From(fs, Wal(i)) <= To(fs, Wal(i)) < fs.global.tmpStart
    ensures forall j :: i < j < fs.global.activeDatabases ==> Has(fs, Db(j)) && To(fs, Wal(i)) <= From(fs, Db(j))
  {
    hide TempInv;
    assert Placed(fs.global.databases[i], fs.global.tmpStart);
  }

  lemma KeyPlace(fs: FS, key: Key)
    requires FsInv(fs) && Has(fs, key)
    ensures From(fs, key) <= To(fs, key) && From(fs, key) <= fs.lbaCount
    ensures key.Meta? ==> To(fs, key) == 1
    ensures key.Db? || key.Wal? ==> 1 <= From(fs, key) && To(fs, key) < fs.global.tmpStart
    ensures key.Temp? ==> fs.global.tmpStart <= From(fs, key)
  {
    hide TempInv, GlobalOk;
    match key
    case Meta =>
    case Db(i) => RegionPlace(fs, i);
    case Wal(i) => RegionPlace(fs, i);
    case Temp(f, k) => TempPlace(fs, f, k);
  }

  /** Two keys never share an LBA. */
  lemma KeysApart(fs: FS, a: Key, b: Key)
    requires FsInv(fs) && Has(fs, a) && Has(fs, b) && a != b
    ensures To(fs, a) <= From(fs, b) || To(fs, b) <= From(fs, a)
  {
    KeyPlace(fs, a);
    KeyPlace(fs, b);
    if a.Temp? && b.Temp? {
      ExtentsApart(fs.temp, a.f, a.k, b.f, b.k);
    } else if !a.Temp? && !b.Temp? && !a.Meta? && !b.Meta? {
      RegionPlace(fs, a.slot);
      RegionPlace(fs, b.slot);
    } else {
      RegionPlace(fs, 0);
    }
  }

  // ---------------------------------------------------------------- bytes

  /** Where a key's bytes start and end in memory. */
  ghost function Start(fs: FS, key: Key): nat
    requires Has(fs, key)
  {
    LBA * From(fs, key)
  }

  ghost function End(fs: FS, key: Key): nat
    requires Has(fs, key)
  {
    LBA * (if To(fs, key) < fs.lbaCount then To(fs, key) else fs.lbaCount)
  }

  ghost function Bytes(fs: FS, key: Key): seq<Byte>
    requires FsInv(fs) && Has(fs, key)
  {
    Within(fs, key);
    fs.memory[Start(fs, key)..End(fs, key)]
  }

  lemma Within(fs: FS, key: Key)
    requires FsInv(fs) && Has(fs, key)
    ensures Start(fs, key) <= End(fs, key) <= |fs.memory|
  {
    hide TempInv, GlobalOk;
    KeyPlace(fs, key);
  }

  // ---------------------------------------------------------------- finding the place of an access

  datatype File = DbFile(slot: nat) | WalFile(slot: nat) | TempFile(f: TempName)

  ghost predicate Known(fs: FS, file: File) {
    match file
    case DbFile(i) => Has(fs, Db(i))
    case WalFile(i) => Has(fs, Wal(i))
    case TempFile(f) => f in fs.temp.files
  }

  /** Either the access is refused, or it is to some bytes of a key. A temporary access may have
      allocated a block in both cases. */
  datatype Resolution = Refused(st: TempState) | At(st: TempState, key: Key, ctx: CmdContext)

  function Command(lba: nat, location: nat, nrBytes: nat): CmdContext {
    CmdContext(nrBytes, RequiredLbas(nrBytes, location % LBA, LBA), lba, location % LBA)
  }

  ghost function Resolve(fs: FS, file: File, location: nat, nrBytes: nat): Resolution
    requires FsInv(fs) && Known(fs, file)
  {
    match file
    case DbFile(i) =>
      var r := fs.global.databases[i];
      var ctx := FlatContext(r.dbStart, location, nrBytes, LBA);
      if Watermarks.IsLBAInRange(r.dbStart, r.walStart, ctx.startLba, ctx.nrLbas) then At(fs.temp, Db(i), ctx)
      else Refused(fs.temp)
    case WalFile(i) =>
      var r := fs.global.databases[i];
      var ctx := FlatContext(r.walStart, location, nrBytes, LBA);
      if Watermarks.IsLBAInRange(r.walStart, r.walEnd, ctx.startLba, ctx.nrLbas) then At(fs.temp, Wal(i), ctx)
      else Refused(fs.temp)
    case TempFile(f) =>
      SizeFacts(fs.temp, f);
      var nrLbas := RequiredLbas(nrBytes, location % LBA, LBA);
      var a := GetLBA(fs.temp, f, location, nrLbas);
      if !a.1.Lba? then Refused(a.0)
      else if !IsTempLBAInRange(fs.global.tmpStart, fs.lbaCount, a.1.lba, nrLbas) then Refused(a.0)
      else At(a.0, Temp(f, BlockIndex(location, fs.temp.files[f].blockSize)), Command(a.1.lba, location, nrBytes))
  }

  /** The offset of the access in its key's bytes. */
  function OffsetIn(file: File, location: nat): nat {
    if file.TempFile? then location % LBA else location
  }

  /** The keys of one state are keys of the other, at the same place. */
  ghost predicate Kept(fs: FS, r: FS) {
    r.lbaCount == fs.lbaCount &&
    forall key :: Has(fs, key) ==> Has(r, key) && From(r, key) == From(fs, key) && To(r, key) == To(fs, key)
  }

  /** An access to a region is placed, or refused exactly when it does not end inside it. */
  lemma RegionResolved(fs: FS, file: File, location: nat, nrBytes: nat)
    requires FsInv(fs) && Known(fs, file) && !file.TempFile? && nrBytes > 0
    ensures var r := Resolve(fs, file, location, nrBytes);
            var key := if file.DbFile? then Db(file.slot) else Wal(file.slot);
            && r.st == fs.temp && Has(fs, key)
            && (r.At? <==> location + nrBytes <= LBA * (To(fs, key) - From(fs, key)))
            && (r.At? ==>
                  && r.key == key && r.ctx.nrBytes == nrBytes && Fits(r.ctx, LBA, fs.lbaCount)
                  && Position(r.ctx, LBA) == Start(fs, key) + location
                  && Start(fs, key) + location + nrBytes <= End(fs, key))
  {
    RegionPlace(fs, file.slot);
    var key := if file.DbFile? then Db(file.slot) else Wal(file.slot);
    hide TempInv, GlobalOk, Fits, FlatContext, Watermarks.IsLBAInRange;
    RangeExactly(From(fs, key), To(fs, key), location, nrBytes, LBA, fs.lbaCount);
  }

  /** Every file and block stays as it is. */
  ghost predicate EntriesKept(st: TempState, r: TempState) {
    && (forall g :: g in st.files ==> g in r.files && r.files[g].blockSize == st.files[g].blockSize)
    && (forall g, k :: Owns(st.files, g, k) ==>
           Owns(r.files, g, k) && StartOf(r.files, g, k) == StartOf(st.files, g, k))
  }

  lemma AccessKeeps(st: TempState, f: TempName, location: nat, nrLbas: nat)
    requires TempInv(st) && f in st.files
    ensures var r := GetLBA(st, f, location, nrLbas).0; TempInv(r) && SameDevice(st, r) && EntriesKept(st, r)
  {
    hide TempInv, GetLBA, SameDevice, EntriesKept;
    AccessIs(st, f, location, nrLbas);
    AccessFiles(st, f, location, nrLbas);
    AccessEntries(st, f, location, nrLbas);
  }

  lemma AccessIs(st: TempState, f: TempName, location: nat, nrLbas: nat)
    requires TempInv(st) && f in st.files
    ensures AccessStep(st, f, location, nrLbas) == GetLBA(st, f, location, nrLbas).0
  {
    hide TempInv, GetLBA;
  }

  lemma AccessEntries(st: TempState, f: TempName, location: nat, nrLbas: nat)
    requires TempInv(st) && f in st.files && TempInv(GetLBA(st, f, location, nrLbas).0)
    ensures EntriesKept(st, GetLBA(st, f, location, nrLbas).0)
  {
    hide TempInv, GetLBA;
    AccessFiles(st, f, location, nrLbas);
    var r := GetLBA(st, f, location, nrLbas);
    var index := BlockIndex(location, st.files[f].blockSize);
    if r.1.Lba? && index !in st.files[f].blocks { AddEntries(st.files, f, index, r.1.lba); }
  }

  lemma AccessAnswer(st: TempState, f: TempName, location: nat, nrLbas: nat)
    requires TempInv(st) && f in st.files
    ensures st.files[f].blockSize > 0 && st.lbaSize > 0
    ensures var r := GetLBA(st, f, location, nrLbas); var index := BlockIndex(location, st.files[f].blockSize);
            r.1.Lba? ==>
              && Owns(r.0.files, f, index) && StartOf(r.0.files, f, index) == r.1.lba
              && nrLbas == st.files[f].blockSize / st.lbaSize
  {
    SizeFacts(st, f);
    hide TempInv, AllocatorRuns.Step, BlockPool.Allocate;
  }

  lemma TempSwapped(fs: FS, st: TempState)
    requires FsInv(fs) && TempInv(st) && SameDevice(fs.temp, st) && EntriesKept(fs.temp, st)
    ensures FsInv(fs.(temp := st)) && Kept(fs, fs.(temp := st))
  {
    hide TempInv, GlobalOk;
  }

  /** A command of `n` blocks' bytes from an LBA, when the blocks are on the device. */
  lemma CommandPlaced(lba: nat, location: nat, nrBytes: nat, lbaCount: nat, n: nat)
    requires nrBytes > 0 && n == RequiredLbas(nrBytes, location % LBA, LBA) && lba + n <= lbaCount
    ensures var c := Command(lba, location, nrBytes);
            && Fits(c, LBA, lbaCount) && n > 0 && Position(c, LBA) == LBA * lba + location % LBA
            && LBA * lba + location % LBA + nrBytes <= LBA * (lba + n)
  {
    RequiredIs(nrBytes, location % LBA, LBA, n);
    RequiredIs(nrBytes, location % LBA, LBA, 0);
  }

  /** A temporary access that is placed lies in the block of its index, at the offset inside an LBA. */
  lemma TempResolved(fs: FS, f: TempName, location: nat, nrBytes: nat)
    requires FsInv(fs) && f in fs.temp.files && nrBytes > 0
    ensures var r := Resolve(fs, TempFile(f), location, nrBytes); var q := fs.(temp := r.st);
            && FsInv(q) && Kept(fs, q)
            && (r.At? ==>
                  && fs.temp.files[f].blockSize > 0
                  && r.key == Temp(f, BlockIndex(location, fs.temp.files[f].blockSize))
                  && Has(q, r.key) && r.ctx.nrBytes == nrBytes && Fits(r.ctx, LBA, fs.lbaCount)
                  && Position(r.ctx, LBA) == Start(q, r.key) + location % LBA
                  && Start(q, r.key) + location % LBA + nrBytes <= End(q, r.key))
  {
    var nrLbas := RequiredLbas(nrBytes, location % LBA, LBA);
    AccessAnswer(fs.temp, f, location, nrLbas);
    AccessKeeps(fs.temp, f, location, nrLbas);
    hide TempInv, GlobalOk, GetLBA, RequiredLbas, Fits, Position, FsInv, Kept, SameDevice;
    var a := GetLBA(fs.temp, f, location, nrLbas);
    TempSwapped(fs, a.0);
    if a.1.Lba? && IsTempLBAInRange(fs.global.tmpStart, fs.lbaCount, a.1.lba, nrLbas) {
      OnDeviceThen(fs.global.tmpStart, fs.lbaCount, a.1.lba, nrLbas, nrBytes, location % LBA);
      CommandPlaced(a.1.lba, location, nrBytes, fs.lbaCount, nrLbas);
    }
  }

  lemma OnDeviceThen(tmpStart: nat, lbaCount: nat, lba: nat, n: nat, nrBytes: nat, offset: nat)
    requires IsTempLBAInRange(tmpStart, lbaCount, lba, n) && nrBytes > 0 && n == RequiredLbas(nrBytes, offset, LBA)
    ensures lba + n <= lbaCount
  {
    RequiredIs(nrBytes, offset, LBA, 0);
  }

  /** A placed access is to the key's own bytes, on the device. */
  ghost predicate PlacedAt(q: FS, file: File, location: nat, nrBytes: nat, key: Key, ctx: CmdContext) {
    && Has(q, key) && ctx.nrBytes == nrBytes && Fits(ctx, LBA, q.lbaCount)
    && Position(ctx, LBA) == Start(q, key) + OffsetIn(file, location)
    && Start(q, key) + OffsetIn(file, location) + nrBytes <= End(q, key)
  }

  lemma Resolved(fs: FS, file: File, location: nat, nrBytes: nat)
    requires FsInv(fs) && Known(fs, file) && nrBytes > 0
    ensures var r := Resolve(fs, file, location, nrBytes); var q := fs.(temp := r.st);
            FsInv(q) && Kept(fs, q) && (r.At? ==> PlacedAt(q, file, location, nrBytes, r.key, r.ctx))
  {
    hide FsInv, Resolve, Kept, Fits, Position, Times;
    match file
    case DbFile(i) => RegionResolved(fs, file, location, nrBytes); SameKept(fs);
    case WalFile(i) => RegionResolved(fs, file, location, nrBytes); SameKept(fs);
    case TempFile(f) => TempResolved(fs, f, location, nrBytes);
  }

  lemma SameKept(fs: FS)
    ensures fs.(temp := fs.temp) == fs && Kept(fs, fs)
  {
  }

  // ---------------------------------------------------------------- reading and writing

  datatype Outcome = Rejected | Written | Got(data: seq<Byte>)

  lemma MemorySize(fs: FS)
    requires FsInv(fs)
    ensures |fs.memory| == Times(fs.lbaCount, LBA)
  {
  }

  ghost function Write(fs: FS, file: File, location: nat, data: seq<Byte>): (FS, Outcome)
    requires FsInv(fs) && Known(fs, file) && |data| > 0
  {
    Resolved(fs, file, location, |data|);
    MemorySize(fs);
    match Resolve(fs, file, location, |data|)
    case Refused(st) => (fs.(temp := st), Rejected)
    case At(st, _, ctx) => (fs.(temp := st, memory := FakeWrite(fs.memory, ctx, LBA, fs.lbaCount, data)), Written)
  }

  ghost function Read(fs: FS, file: File, location: nat, nrBytes: nat): (FS, Outcome)
    requires FsInv(fs) && Known(fs, file) && nrBytes > 0
  {
    Resolved(fs, file, location, nrBytes);
    MemorySize(fs);
    match Resolve(fs, file, location, nrBytes)
    case Refused(st) => (fs.(temp := st), Rejected)
    case At(st, _, ctx) => (fs.(temp := st), Got(FakeRead(fs.memory, ctx, LBA, fs.lbaCount)))
  }

  /** Other bytes in memory of the same size. */
  lemma MemorySwapped(fs: FS, memory: seq<Byte>)
    requires FsInv(fs) && |memory| == |fs.memory|
    ensures FsInv(fs.(memory := memory)) && Kept(fs, fs.(memory := memory))
    ensures forall key :: Has(fs, key) ==>
      Has(fs.(memory := memory), key) && Start(fs.(memory := memory), key) == Start(fs, key)
        && End(fs.(memory := memory), key) == End(fs, key)
  {
    hide TempInv, GlobalOk;
  }

  lemma KeptBytes(fs: FS, q: FS, key: Key)
    requires FsInv(fs) && FsInv(q) && Kept(fs, q) && q.memory == fs.memory && Has(fs, key)
    ensures Has(q, key) && Bytes(q, key) == Bytes(fs, key)
  {
    hide FsInv;
  }

  /** A write puts its data into the bytes of one key, where the file offset says, and leaves the
      bytes of every other key alone: other files, other temporary blocks, the metadata. */
  lemma WriteView(fs: FS, file: File, location: nat, data: seq<Byte>, key: Key)
    requires FsInv(fs) && Known(fs, file) && |data| > 0
    requires var r := Resolve(fs, file, location, |data|); r.At? && Has(fs.(temp := r.st), key)
    ensures var r := Resolve(fs, file, location, |data|);
            var q, w := fs.(temp := r.st), Write(fs, file, location, data).0;
            && FsInv(q) && FsInv(w) && Kept(fs, w) && Has(w, key) && PlacedAt(q, file, location, |data|, r.key, r.ctx)
            && |Bytes(q, key)| == End(q, key) - Start(q, key)
            && Bytes(w, key) == if key == r.key then Replace(Bytes(q, key), OffsetIn(file, location), data)
                                else Bytes(q, key)
  {
    hide FsInv, Resolve, Kept, Fits, Has, From, To, OffsetIn, Times, Start, End, Position, Known;
    Resolved(fs, file, location, |data|);
    var r := Resolve(fs, file, location, |data|);
    var q, w := fs.(temp := r.st), Write(fs, file, location, data).0;
    MemorySwapped(q, w.memory);
    KeptTwice(fs, q, w);
    Within(q, key);
    var at := Position(r.ctx, LBA);
    Within(q, r.key);
    if key != r.key {
      KeysApart(q, key, r.key);
      EndsApart(q, key, r.key);
      ReplaceElsewhere(fs.memory, at, data, Start(q, key), End(q, key));
    } else {
      ReplaceInside(fs.memory, at, data, Start(q, key), End(q, key));
    }
  }

  lemma KeptTwice(a: FS, b: FS, c: FS)
    requires Kept(a, b) && Kept(b, c)
    ensures Kept(a, c)
  {
  }

  lemma EndsApart(fs: FS, a: Key, b: Key)
    requires FsInv(fs) && Has(fs, a) && Has(fs, b)
    requires To(fs, a) <= From(fs, b) || To(fs, b) <= From(fs, a)
    ensures End(fs, a) <= Start(fs, b) || End(fs, b) <= Start(fs, a)
  {
    hide FsInv, Has, From, To;
  }

  lemma ReplaceInside<T>(m: seq<T>, at: nat, data: seq<T>, lo: nat, hi: nat)
    requires lo <= at && at + |data| <= hi <= |m|
    ensures Replace(m, at, data)[lo..hi] == Replace(m[lo..hi], at - lo, data)
  {
    var a, b := Replace(m, at, data)[lo..hi], Replace(m[lo..hi], at - lo, data);
    forall i | 0 <= i < hi - lo ensures a[i] == b[i] {
      assert a[i] == Replace(m, at, data)[lo + i];
    }
  }

  /** A read returns the bytes of its key at that offset, and changes no bytes. */
  lemma ReadView(fs: FS, file: File, location: nat, nrBytes: nat)
    requires FsInv(fs) && Known(fs, file) && nrBytes > 0
    ensures var r := Resolve(fs, file, location, nrBytes); var q := Read(fs, file, location, nrBytes).0;
            && FsInv(q) && Kept(fs, q) && q.memory == fs.memory
            && (r.At? ==>
                  && PlacedAt(q, file, location, nrBytes, r.key, r.ctx)
                  && OffsetIn(file, location) + nrBytes <= |Bytes(q, r.key)|
                  && Read(fs, file, location, nrBytes).1
                     == Got(Bytes(q, r.key)[OffsetIn(file, location)..OffsetIn(file, location) + nrBytes]))
  {
    hide FsInv, Resolve, Kept, Fits, Has, From, To, OffsetIn, Times, Start, End, Position, Known;
    Resolved(fs, file, location, nrBytes);
    var r := Resolve(fs, file, location, nrBytes);
    var q := Read(fs, file, location, nrBytes).0;
    if r.At? {
      Within(q, r.key);
      var at := OffsetIn(file, location);
      SliceSlice(fs.memory, Start(q, r.key), End(q, r.key), at, at + nrBytes);
    }
  }

  // ---------------------------------------------------------------- the other operations

  /** What the device holds after it was told to discard the blocks of `fs` that `st` gives up:
      anything there, and the same bytes elsewhere. */
  ghost predicate Discarded(fs: FS, st: TempState, memory: seq<Byte>) {
    && |memory| == |fs.memory|
    && forall p :: 0 <= p < |memory| && memory[p] != fs.memory[p] ==> GivenUp(fs, st, p)
  }

  ghost predicate GivenUp(fs: FS, st: TempState, p: nat) {
    exists f, k :: Owns(fs.temp.files, f, k) && !Owns(st.files, f, k)
      && Start(fs, Temp(f, k)) <= p < End(fs, Temp(f, k))
  }

  /** The entries that remain are where they were. */
  ghost predicate EntriesLeft(st: TempState, r: TempState) {
    forall g, k :: Owns(r.files, g, k) ==>
      Owns(st.files, g, k) && StartOf(r.files, g, k) == StartOf(st.files, g, k)
        && r.files[g].blockSize == st.files[g].blockSize
  }

  lemma ReleaseLeaves(st: TempState, op: TempOp)
    requires TempInv(st) && TempEnabled(st, op) && (op.Truncate? || op.Delete? || op.ClearAll?)
    ensures EntriesLeft(st, TempStep(st, op))
  {
    hide TempInv, FreeDown, FreeBlocks;
    match op
    case Truncate(g, newSize) =>
      FreeDownFiles(st, g, |st.files[g].blocks|, BlockIndex(newSize, st.files[g].blockSize));
    case Delete(g) => FreeBlocksFiles(st, g);
    case ClearAll =>
  }

  /** Keys that two states share are at the same place in both. */
  ghost predicate SamePlaces(fs: FS, r: FS) {
    r.lbaCount == fs.lbaCount &&
    forall key :: Has(fs, key) && Has(r, key) ==> From(r, key) == From(fs, key) && To(r, key) == To(fs, key)
  }

  lemma ReleasedPlaces(fs: FS, st: TempState, memory: seq<Byte>)
    requires FsInv(fs) && TempInv(st) && SameDevice(fs.temp, st) && EntriesLeft(fs.temp, st) && |memory| == |fs.memory|
    ensures FsInv(fs.(temp := st, memory := memory)) && SamePlaces(fs, fs.(temp := st, memory := memory))
  {
    hide TempInv, GlobalOk;
  }

  /** Discarding does not reach the bytes of a key that remains. */
  lemma DiscardSpares(fs: FS, st: TempState, memory: seq<Byte>, key: Key, p: nat)
    requires FsInv(fs) && Discarded(fs, st, memory) && Has(fs, key) && Has(fs.(temp := st), key)
    requires Start(fs, key) <= p < End(fs, key) && p < |fs.memory|
    ensures memory[p] == fs.memory[p]
  {
    hide FsInv, From, To, Start, End;
    if memory[p] != fs.memory[p] {
      var f, k :| Owns(fs.temp.files, f, k) && !Owns(st.files, f, k)
        && Start(fs, Temp(f, k)) <= p < End(fs, Temp(f, k));
      KeysApart(fs, key, Temp(f, k));
      EndsApart(fs, key, Temp(f, k));
    }
  }

  /** Opening a database adds regions and moves none. */
  lemma OpenKeeps(fs: FS, cfg: Config, name: string)
    requires FsInv(fs) && Sane(Geometry(LBA, fs.lbaCount), cfg)
    ensures var q := fs.(global := RegionTable.Open(fs.global, cfg, Geometry(LBA, fs.lbaCount), name));
            FsInv(q) && Kept(fs, q)
  {
    hide TempInv, Sane, Absent, FoundAt, Stable, UniqueNames;
    AllocateLayout(fs.global, cfg, Geometry(LBA, fs.lbaCount), name);
  }

  lemma MetadataFits(fs: FS)
    requires FsInv(fs)
    ensures Fits(ImageContext(LBA), LBA, fs.lbaCount) && Position(ImageContext(LBA), LBA) == 0
    ensures Has(fs, Meta) && Start(fs, Meta) == 0 && METADATA_BYTES <= End(fs, Meta) == LBA
  {
    hide TempInv, GlobalOk;
  }

  ghost function Flush(fs: FS, image: seq<Byte>): FS
    requires FsInv(fs) && |image| == METADATA_BYTES
  {
    MetadataFits(fs);
    MemorySize(fs);
    fs.(memory := FakeWrite(fs.memory, ImageContext(LBA), LBA, fs.lbaCount, image))
  }

  // ---------------------------------------------------------------- runs

  datatype FsOp =
    | WriteOp(file: File, location: nat, data: seq<Byte>)
    | ReadOp(file: File, location: nat, nrBytes: nat)
    | CreateOp(f: TempName)
    | ReleaseOp(op: TempOp, memory: seq<Byte>)
    | OpenOp(cfg: Config, name: string)
    | FlushOp(image: seq<Byte>)

  ghost predicate SaneFor(fs: FS, cfg: Config) {
    Sane(Geometry(LBA, fs.lbaCount), cfg)
  }

  ghost predicate Enabled(fs: FS, op: FsOp)
    requires FsInv(fs)
  {
    match op
    case WriteOp(file, _, data) => Known(fs, file) && |data| > 0
    case ReadOp(file, _, nrBytes) => Known(fs, file) && nrBytes > 0
    case CreateOp(_) => true
    case ReleaseOp(op, memory) =>
      (op.Truncate? || op.Delete? || op.ClearAll?) && TempEnabled(fs.temp, op)
        && Discarded(fs, TempStep(fs.temp, op), memory)
    case OpenOp(cfg, _) => SaneFor(fs, cfg)
    case FlushOp(image) => |image| == METADATA_BYTES
  }

  ghost function Transfer(fs: FS, op: FsOp): FS
    requires FsInv(fs) && Enabled(fs, op) && (op.WriteOp? || op.ReadOp?)
  {
    if op.WriteOp? then Write(fs, op.file, op.location, op.data).0 else Read(fs, op.file, op.location, op.nrBytes).0
  }

  ghost function ChangeTemp(fs: FS, op: FsOp): FS
    requires FsInv(fs) && Enabled(fs, op) && (op.CreateOp? || op.ReleaseOp?)
  {
    if op.CreateOp? then fs.(temp := CreateStep(fs.temp, op.f))
    else fs.(temp := TempStep(fs.temp, op.op), memory := op.memory)
  }

  ghost function OpenDatabase(fs: FS, op: FsOp): FS
    requires FsInv(fs) && Enabled(fs, op) && op.OpenOp?
  {
    fs.(global := RegionTable.Open(fs.global, op.cfg, Geometry(LBA, fs.lbaCount), op.name))
  }

  ghost function ChangeMetadata(fs: FS, op: FsOp): FS
    requires FsInv(fs) && Enabled(fs, op) && (op.OpenOp? || op.FlushOp?)
  {
    if op.OpenOp? then OpenDatabase(fs, op)
    else Flush(fs, op.image)
  }

  ghost function Step(fs: FS, op: FsOp): FS
    requires FsInv(fs) && Enabled(fs, op)
  {
    if op.WriteOp? || op.ReadOp? then Transfer(fs, op)
    else if op.CreateOp? || op.ReleaseOp? then ChangeTemp(fs, op)
    else ChangeMetadata(fs, op)
  }

  /** The step may change bytes `[pos, pos + n)` of the key, or drops the key. */
  ghost predicate Touches(fs: FS, op: FsOp, key: Key, pos: nat, n: nat)
    requires FsInv(fs) && Enabled(fs, op)
  {
    match op
    case WriteOp(file, location, data) =>
      var r := Resolve(fs, file, location, |data|);
      var at := OffsetIn(file, location);
      r.At? && r.key == key && at < pos + n && pos < at + |data|
    case ReleaseOp(_, _) => !Has(Step(fs, op), key)
    case FlushOp(_) => key.Meta?
    case _ => false
  }

  /** The bytes `[pos, pos + n)` of the key are there and the same in both states. */
  ghost predicate SameBytes(fs: FS, q: FS, key: Key, pos: nat, n: nat)
    requires FsInv(fs) && FsInv(q) && Has(fs, key)
  {
    && Has(q, key) && q.lbaCount == fs.lbaCount && From(q, key) == From(fs, key) && To(q, key) == To(fs, key)
    && pos + n <= |Bytes(fs, key)| == |Bytes(q, key)|
    && Bytes(q, key)[pos..pos + n] == Bytes(fs, key)[pos..pos + n]
  }

  lemma UnchangedBytes(fs: FS, q: FS, key: Key, pos: nat, n: nat)
    requires FsInv(fs) && FsInv(q) && Kept(fs, q) && Has(fs, key) && pos + n <= |Bytes(fs, key)|
    requires Has(q, key) && Bytes(q, key) == Bytes(fs, key)
    ensures SameBytes(fs, q, key, pos, n)
  {
    hide FsInv, Bytes;
  }

  lemma WriteKeeps(fs: FS, file: File, location: nat, data: seq<Byte>, key: Key, pos: nat, n: nat)
    requires FsInv(fs) && Known(fs, file) && |data| > 0 && Has(fs, key) && pos + n <= |Bytes(fs, key)|
    ensures FsInv(Write(fs, file, location, data).0)
    ensures !Touches(fs, WriteOp(file, location, data), key, pos, n) ==>
      SameBytes(fs, Write(fs, file, location, data).0, key, pos, n)
  {
    hide FsInv, Bytes, Resolve, PlacedAt, OffsetIn;
    Resolved(fs, file, location, |data|);
    var r := Resolve(fs, file, location, |data|);
    var q, w := fs.(temp := r.st), Write(fs, file, location, data).0;
    KeptBytes(fs, q, key);
    if r.At? {
      WriteView(fs, file, location, data, key);
      if r.key == key {
        BytesSize(fs, w, key);
        if !Touches(fs, WriteOp(file, location, data), key, pos, n) {
          PlacedSize(q, file, location, |data|, key, r.ctx);
          ReplaceElsewhere(Bytes(fs, key), OffsetIn(file, location), data, pos, pos + n);
        }
      } else {
        UnchangedBytes(fs, w, key, pos, n);
      }
    } else {
      UnchangedBytes(fs, w, key, pos, n);
    }
  }

  lemma PlacedSize(q: FS, file: File, location: nat, nrBytes: nat, key: Key, ctx: CmdContext)
    requires FsInv(q) && PlacedAt(q, file, location, nrBytes, key, ctx)
    ensures OffsetIn(file, location) + nrBytes <= |Bytes(q, key)|
  {
    hide FsInv, From, To, OffsetIn;
    Within(q, key);
  }

  lemma BytesSize(fs: FS, q: FS, key: Key)
    requires FsInv(fs) && FsInv(q) && Kept(fs, q) && Has(fs, key)
    ensures Has(q, key) && |Bytes(q, key)| == |Bytes(fs, key)|
  {
    hide FsInv, From, To;
    Within(fs, key);
    Within(q, key);
  }

  lemma ReadKeeps(fs: FS, file: File, location: nat, nrBytes: nat, key: Key, pos: nat, n: nat)
    requires FsInv(fs) && Known(fs, file) && nrBytes > 0 && Has(fs, key) && pos + n <= |Bytes(fs, key)|
    ensures FsInv(Read(fs, file, location, nrBytes).0)
    ensures SameBytes(fs, Read(fs, file, location, nrBytes).0, key, pos, n)
  {
    hide FsInv, Bytes, Resolve, PlacedAt, OffsetIn, Read;
    ReadView(fs, file, location, nrBytes);
    var q := Read(fs, file, location, nrBytes).0;
    KeptBytes(fs, q, key);
    UnchangedBytes(fs, q, key, pos, n);
  }

  lemma CreateKeepsEntries(st: TempState, f: TempName)
    requires TempInv(st)
    ensures EntriesKept(st, CreateStep(st, f))
  {
    hide TempInv, GetBufferSize;
  }

  lemma CreateKeeps(fs: FS, f: TempName, key: Key, pos: nat, n: nat)
    requires FsInv(fs) && Has(fs, key) && pos + n <= |Bytes(fs, key)|
    ensures FsInv(fs.(temp := CreateStep(fs.temp, f)))
    ensures SameBytes(fs, fs.(temp := CreateStep(fs.temp, f)), key, pos, n)
  {
    hide TempInv, GlobalOk, CreateStep, EntriesKept, Bytes, Kept;
    var st := CreateStep(fs.temp, f);
    CreateKeepsEntries(fs.temp, f);
    TempSwapped(fs, st);
    KeptBytes(fs, fs.(temp := st), key);
    UnchangedBytes(fs, fs.(temp := st), key, pos, n);
  }

  lemma OpenedKeeps(fs: FS, cfg: Config, name: string, key: Key, pos: nat, n: nat)
    requires FsInv(fs) && Sane(Geometry(LBA, fs.lbaCount), cfg) && Has(fs, key) && pos + n <= |Bytes(fs, key)|
    ensures var q := fs.(global := RegionTable.Open(fs.global, cfg, Geometry(LBA, fs.lbaCount), name));
            FsInv(q) && SameBytes(fs, q, key, pos, n)
  {
    hide TempInv, Layout, Kept, Bytes, RegionTable.Open, Sane;
    OpenKeeps(fs, cfg, name);
    var q := fs.(global := RegionTable.Open(fs.global, cfg, Geometry(LBA, fs.lbaCount), name));
    KeptBytes(fs, q, key);
    UnchangedBytes(fs, q, key, pos, n);
  }

  lemma FlushKeeps(fs: FS, image: seq<Byte>, key: Key, pos: nat, n: nat)
    requires FsInv(fs) && |image| == METADATA_BYTES && Has(fs, key) && pos + n <= |Bytes(fs, key)|
    ensures FsInv(Flush(fs, image)) && (!key.Meta? ==> SameBytes(fs, Flush(fs, image), key, pos, n))
  {
    hide FsInv, From, To, Fits, Position, Kept, Start, End, Has;
    MetadataFits(fs);
    MemorySize(fs);
    var q := Flush(fs, image);
    MemorySwapped(fs, q.memory);
    if !key.Meta? {
      Within(fs, key);
      KeysApart(fs, key, Meta);
      EndsApart(fs, key, Meta);
      ReplaceElsewhere(fs.memory, 0, image, Start(fs, key), End(fs, key));
      UnchangedBytes(fs, q, key, pos, n);
    }
  }

  lemma ReleaseKeeps(fs: FS, op: TempOp, memory: seq<Byte>, key: Key, pos: nat, n: nat)
    requires FsInv(fs) && Enabled(fs, ReleaseOp(op, memory)) && Has(fs, key) && pos + n <= |Bytes(fs, key)|
    ensures FsInv(Step(fs, ReleaseOp(op, memory)))
    ensures Has(Step(fs, ReleaseOp(op, memory)), key) ==> SameBytes(fs, Step(fs, ReleaseOp(op, memory)), key, pos, n)
  {
    hide TempInv, GlobalOk, TempStep, TempEnabled, From, To;
    var st := TempStep(fs.temp, op);
    var q := fs.(temp := st, memory := memory);
    ReleaseLeaves(fs.temp, op);
    ReleasedPlaces(fs, st, memory);
    if Has(fs.(temp := st), key) {
      SpareAll(fs, st, memory, key);
    }
  }

  lemma SpareAll(fs: FS, st: TempState, memory: seq<Byte>, key: Key)
    requires FsInv(fs) && Discarded(fs, st, memory) && Has(fs, key) && Has(fs.(temp := st), key)
    ensures Start(fs, key) <= End(fs, key) <= |fs.memory| == |memory|
    ensures memory[Start(fs, key)..End(fs, key)] == fs.memory[Start(fs, key)..End(fs, key)]
  {
    hide FsInv, From, To, Start, End, GivenUp, Has;
    Within(fs, key);
    var lo, hi := Start(fs, key), End(fs, key);
    forall p | lo <= p < hi ensures memory[p] == fs.memory[p] {
      DiscardSpares(fs, st, memory, key, p);
    }
  }

  /** Whatever does not touch the bytes leaves them where and as they are. */
  lemma StepKeeps(fs: FS, op: FsOp, key: Key, pos: nat, n: nat)
    requires FsInv(fs) && Enabled(fs, op) && Has(fs, key) && pos + n <= |Bytes(fs, key)|
    ensures FsInv(Step(fs, op))
    ensures !Touches(fs, op, key, pos, n) ==> SameBytes(fs, Step(fs, op), key, pos, n)
  {
    hide FsInv, Write, Read, CreateStep, TempStep, Flush, RegionTable.Open, SameBytes, Bytes, Has;
    match op
    case WriteOp(file, location, data) => WriteKeeps(fs, file, location, data, key, pos, n);
    case ReadOp(file, location, nrBytes) => ReadKeeps(fs, file, location, nrBytes, key, pos, n);
    case CreateOp(f) => CreateKeeps(fs, f, key, pos, n);
    case ReleaseOp(op', memory) => ReleaseKeeps(fs, op', memory, key, pos, n);
    case OpenOp(cfg, name) => OpenedKeeps(fs, cfg, name, key, pos, n);
    case FlushOp(image) => FlushKeeps(fs, image, key, pos, n);
  }

  ghost function Next(fs: FS, op: FsOp): (q: FS)
    requires FsInv(fs) && Enabled(fs, op)
    ensures FsInv(q)
  {
    StepKeeps(fs, op, Meta, 0, 0);
    Step(fs, op)
  }

  ghost predicate Legal(fs: FS, ops: seq<FsOp>)
    requires FsInv(fs)
    decreases |ops|
  {
    ops == [] || (Enabled(fs, ops[0]) && Legal(Next(fs, ops[0]), ops[1..]))
  }

  ghost function Run(fs: FS, ops: seq<FsOp>): (q: FS)
    requires FsInv(fs) && Legal(fs, ops)
    ensures FsInv(q)
    decreases |ops|
  {
    if ops == [] then fs else Run(Next(fs, ops[0]), ops[1..])
  }

  /** No step of the run touches the bytes. */
  ghost predicate Untouched(fs: FS, ops: seq<FsOp>, key: Key, pos: nat, n: nat)
    requires FsInv(fs) && Legal(fs, ops)
    decreases |ops|
  {
    ops == [] || (!Touches(fs, ops[0], key, pos, n) && Untouched(Next(fs, ops[0]), ops[1..], key, pos, n))
  }

  lemma {:induction false} RunKeeps(fs: FS, ops: seq<FsOp>, key: Key, pos: nat, n: nat)
    requires FsInv(fs) && Legal(fs, ops) && Has(fs, key) && pos + n <= |Bytes(fs, key)|
    requires Untouched(fs, ops, key, pos, n)
    ensures SameBytes(fs, Run(fs, ops), key, pos, n)
    decreases |ops|
  {
    hide FsInv, Enabled, Step, Touches, Has, Bytes, From, To;
    if ops != [] {
      StepKeeps(fs, ops[0], key, pos, n);
      RunKeeps(Next(fs, ops[0]), ops[1..], key, pos, n);
    }
  }

  // ---------------------------------------------------------------- reads return the last write

  lemma SameSize(a: TempState, b: TempState, f: TempName)
    requires TempInv(a) && TempInv(b) && f in a.files && f in b.files
    ensures a.files[f].blockSize == b.files[f].blockSize > 0
  {
    assert GetBufferSize(f.bufferSize) == Some(a.files[f].blockSize);
  }

  lemma MappedAccess(st: TempState, f: TempName, location: nat, nrLbas: nat)
    requires TempInv(st) && f in st.files && st.files[f].blockSize > 0 && st.lbaSize > 0
    requires nrLbas == st.files[f].blockSize / st.lbaSize
    requires Owns(st.files, f, BlockIndex(location, st.files[f].blockSize))
    ensures GetLBA(st, f, location, nrLbas)
      == (st, Lba(StartOf(st.files, f, BlockIndex(location, st.files[f].blockSize))))
  {
  }

  lemma TempResolvedAgain(a: FS, b: FS, f: TempName, location: nat, nrBytes: nat)
    requires FsInv(a) && FsInv(b) && b.lbaCount == a.lbaCount && nrBytes > 0 && f in a.temp.files
    requires var r := Resolve(a, TempFile(f), location, nrBytes); var q := a.(temp := r.st);
             r.At? && Has(q, r.key) && Has(b, r.key) && From(b, r.key) == From(q, r.key)
    ensures var r := Resolve(a, TempFile(f), location, nrBytes);
            f in b.temp.files && Resolve(b, TempFile(f), location, nrBytes) == At(b.temp, r.key, r.ctx)
  {
    var r := Resolve(a, TempFile(f), location, nrBytes);
    var nrLbas := RequiredLbas(nrBytes, location % LBA, LBA);
    SameSize(a.temp, b.temp, f);
    AccessAnswer(a.temp, f, location, nrLbas);
    TempPlace(b, f, BlockIndex(location, b.temp.files[f].blockSize));
    MappedAccess(b.temp, f, location, nrLbas);
    hide TempInv, GlobalOk, GetLBA, RequiredLbas;
  }

  /** Where the key still is, the same access resolves to the same bytes. */
  lemma ResolvedAgain(a: FS, b: FS, file: File, location: nat, nrBytes: nat)
    requires FsInv(a) && FsInv(b) && b.lbaCount == a.lbaCount && nrBytes > 0 && Known(a, file)
    requires var r := Resolve(a, file, location, nrBytes); var q := a.(temp := r.st);
             r.At? && Has(q, r.key) && Has(b, r.key) && From(b, r.key) == From(q, r.key) && To(b, r.key) == To(q, r.key)
    ensures var r := Resolve(a, file, location, nrBytes);
            Known(b, file) && Resolve(b, file, location, nrBytes) == At(b.temp, r.key, r.ctx)
  {
    hide TempInv, GlobalOk, Watermarks.IsLBAInRange, FlatContext;
    if file.TempFile? {
      TempResolvedAgain(a, b, file.f, location, nrBytes);
    }
  }

  /** Over every run: a read returns the bytes last written there. After a write that was not
      refused, any operations on any files may follow, as long as none writes those bytes
      again or gives the temporary block up. */
  lemma ReadsLastWrite(fs: FS, file: File, location: nat, data: seq<Byte>, ops: seq<FsOp>)
    requires FsInv(fs) && Known(fs, file) && |data| > 0 && Resolve(fs, file, location, |data|).At?
    requires var w, key := Write(fs, file, location, data).0, Resolve(fs, file, location, |data|).key;
             FsInv(w) && Legal(w, ops) && Untouched(w, ops, key, OffsetIn(file, location), |data|)
    ensures var end := Run(Write(fs, file, location, data).0, ops);
            && Known(end, file) && Read(end, file, location, |data|) == (end, Got(data))
  {
    hide FsInv, Resolve, Bytes, From, To, Has, OffsetIn, Legal, Untouched, Run, Known, Kept, Write, Read;
    var r, w := Resolve(fs, file, location, |data|), Write(fs, file, location, data).0;
    var key, at, n := r.key, OffsetIn(file, location), |data|;
    Resolved(fs, file, location, n);
    WriteView(fs, file, location, data, key);
    PlacedSize(fs.(temp := r.st), file, location, n, key, r.ctx);
    WrittenBytes(Bytes(fs.(temp := r.st), key), at, data);
    RunKeeps(w, ops, key, at, n);
    var end := Run(w, ops);
    SamePlace(fs, r.st, w, key, file, location, data);
    ResolvedAgain(fs, end, file, location, n);
    ReadView(end, file, location, n);
    ReadAt(end, file, location, n);
  }

  lemma WrittenBytes(m: seq<Byte>, at: nat, data: seq<Byte>)
    requires at + |data| <= |m|
    ensures Replace(m, at, data)[at..at + |data|] == data
  {
  }

  lemma SamePlace(fs: FS, st: TempState, w: FS, key: Key, file: File, location: nat, data: seq<Byte>)
    requires FsInv(fs) && Known(fs, file) && |data| > 0 && Resolve(fs, file, location, |data|).At?
    requires st == Resolve(fs, file, location, |data|).st && w == Write(fs, file, location, data).0
    requires Has(fs.(temp := st), key)
    ensures Has(w, key) && w.lbaCount == fs.lbaCount
    ensures From(w, key) == From(fs.(temp := st), key) && To(w, key) == To(fs.(temp := st), key)
  {
    hide FsInv, Resolve;
  }

  lemma ReadAt(fs: FS, file: File, location: nat, nrBytes: nat)
    requires FsInv(fs) && Known(fs, file) && nrBytes > 0
    requires var r := Resolve(fs, file, location, nrBytes); r.At? && r.st == fs.temp
    ensures Read(fs, file, location, nrBytes).0 == fs
  {
    hide FsInv, Resolve;
  }

  // ---------------------------------------------------------------- where runs start

  /** A successful initialisation gives a state the laws above hold from, when the temporary area
      is at least two LBAs and no larger than the device. */
  lemma InitialFs(memory: seq<Byte>, lbaCount: nat, cfg: Config, firstDbName: string)
    requires |memory| == Times(lbaCount, LBA) && Sane(Geometry(LBA, lbaCount), cfg)
    requires 2 * LBA <= cfg.maxTempSize < (lbaCount + 1) * LBA
    requires Build(Geometry(LBA, lbaCount), cfg, firstDbName).Some?
    ensures var b := Build(Geometry(LBA, lbaCount), cfg, firstDbName).value;
            && b.tmpStart < lbaCount - 1
            && FsInv(FS(memory, lbaCount, Global(b.tmpStart, b.dbIdx, b.databases),
                     Initial(b.tmpStart, lbaCount - 1, LBA)))
  {
    hide TempInv, Layout, Lbas, Build;
    var geo := Geometry(LBA, lbaCount);
    LbasBelow(cfg.maxTempSize, geo, 2);
    LbasBelow(cfg.maxTempSize, geo, lbaCount);
    SaneFacts(geo, cfg);
    TmpStartIs(geo, cfg);
    BuildLayout(geo, cfg, firstDbName);
    BuildTmpStart(geo, cfg, firstDbName);
    var b := Build(geo, cfg, firstDbName).value;
    InitialInv(b.tmpStart, lbaCount - 1, LBA);
  }

  lemma BuildTmpStart(geo: Geometry, cfg: Config, firstDbName: string)
    requires geo.lbaSize >= 512 && Build(geo, cfg, firstDbName).Some?
    ensures Build(geo, cfg, firstDbName).value.tmpStart == TmpStart(geo, cfg)
  {
    hide Named;
  }

  lemma PoolOk(fs: FS)
    requires FsInv(fs)
    ensures BlockPool.WellFormed(fs.temp.ledger.pool)
  {
  }

  /** A temporary access is placed exactly when it is for a whole block, the block is mapped or can
      be allocated, and the block requested ends on the device. */
  lemma TempPlacedExactly(fs: FS, f: TempName, location: nat, nrBytes: nat)
    requires FsInv(fs) && f in fs.temp.files && nrBytes > 0
    ensures fs.temp.files[f].blockSize > 0 && BlockPool.WellFormed(fs.temp.ledger.pool)
    ensures var n := RequiredLbas(nrBytes, location % LBA, LBA);
            var index := BlockIndex(location, fs.temp.files[f].blockSize);
            Resolve(fs, TempFile(f), location, nrBytes).At? <==>
              && n == fs.temp.files[f].blockSize / LBA && n > 0
              && if Owns(fs.temp.files, f, index) then StartOf(fs.temp.files, f, index) + n <= fs.lbaCount
                 else
                   var a := BlockPool.Allocate(fs.temp.ledger.pool, n);
                   a.Allocated? && a.block.start + n <= fs.lbaCount
  {
    hide TempInv, GlobalOk, RequiredLbas, BlockPool.Allocate, AllocatorRuns.Step, SameDevice;
    var n := RequiredLbas(nrBytes, location % LBA, LBA);
    SizeFacts(fs.temp, f);
    PoolOk(fs);
    RequiredIs(nrBytes, location % LBA, LBA, 0);
    AccessKeeps(fs.temp, f, location, n);
    AccessAnswer(fs.temp, f, location, n);
    var a := GetLBA(fs.temp, f, location, n);
    if a.1.Lba? {
      TempSwapped(fs, a.0);
      TempPlace(fs.(temp := a.0), f, BlockIndex(location, fs.temp.files[f].blockSize));
    }
  }
}
