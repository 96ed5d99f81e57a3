/** The bytes of files by their offsets. Temporary files are accessed by block, with the offset
    inside an LBA; where accesses start in the first LBA of their block, that is the byte named. */
module FileBytes {
  import opened Basics
  import opened Device
  import Regions
  import opened TempFileModel
  import opened Translation
  import opened FileSystem
  import opened LastWrites

  /** The block size of a temporary file; 0 when its name has no size the source knows. */
  function SizeOf(f: TempName): nat {
    match GetBufferSize(f.bufferSize) case None => 0 case Some(size) => size
  }

  predicate HasBlocks(file: File) { file.TempFile? ==> SizeOf(file.f) > 0 }

  /** The key that holds a byte of the file, and where in it. */
  function KeyAt(file: File, offset: nat): Key
    requires HasBlocks(file)
  {
    match file
    case DbFile(i) => Db(i)
    case WalFile(i) => Wal(i)
    case TempFile(f) => Temp(f, BlockIndex(offset, SizeOf(f)))
  }

  function PosAt(file: File, offset: nat): nat
    requires HasBlocks(file)
  {
    if file.TempFile? then offset % SizeOf(file.f) else offset
  }

  /** The access starts in the first LBA of its block. */
  predicate InFirstLba(file: File, location: nat) {
    file.TempFile? && SizeOf(file.f) > 0 ==> location % SizeOf(file.f) < LBA
  }

  /** Inside one block, offsets in the file and in the block agree. */
  lemma SameBlock(location: nat, size: nat, n: nat, offset: nat)
    requires size > 0 && location % size + n <= size
    ensures location <= offset < location + n <==>
            offset / size == location / size && location % size <= offset % size < location % size + n
    ensures offset / size == location / size ==> offset - location == offset % size - location % size
  {
    hide Times;
    DivMod(location, size);
    DivMod(offset, size);
    var q := location / size;
    DivMul(offset, q, size);
    DivMul(offset, q + 1, size);
    TimesFacts(q, size);
  }

  lemma WholeLbas(f: TempName)
    ensures SizeOf(f) % LBA == 0
  {
  }

  lemma SizeIs(fs: FS, f: TempName)
    requires FsInv(fs) && f in fs.temp.files
    ensures fs.temp.lbaSize == LBA && SizeOf(f) == fs.temp.files[f].blockSize > 0
  {
    SizeFacts(fs.temp, f);
    assert GetBufferSize(f.bufferSize) == Some(fs.temp.files[f].blockSize);
  }

  /** A placed access that starts in the first LBA covers the bytes of the file it names. */
  lemma PlacedInFile(fs: FS, file: File, location: nat, n: nat, offset: nat)
    requires FsInv(fs) && Known(fs, file) && n > 0 && InFirstLba(file, location)
    requires Resolve(fs, file, location, n).At?
    ensures HasBlocks(file)
    ensures var r, at := Resolve(fs, file, location, n), OffsetIn(file, location);
            && (location <= offset < location + n <==>
                   r.key == KeyAt(file, offset) && at <= PosAt(file, offset) < at + n)
            && (r.key == KeyAt(file, offset) ==> offset - location == PosAt(file, offset) - at)
  {
    hide FsInv, TempInv, GetLBA, RequiredLbas, GetBufferSize;
    match file
    case TempFile(f) =>
      SizeIs(fs, f);
      TempInFile(fs, f, location, n);
      SameBlock(location, SizeOf(f), n, offset);
    case _ => RegionKey(fs, file, location, n);
  }

  lemma RegionKey(fs: FS, file: File, location: nat, n: nat)
    requires FsInv(fs) && Known(fs, file) && n > 0 && !file.TempFile? && Resolve(fs, file, location, n).At?
    ensures Resolve(fs, file, location, n).key == KeyAt(file, location)
  {
    hide FsInv;
  }

  lemma TempInFile(fs: FS, f: TempName, location: nat, n: nat)
    requires FsInv(fs) && f in fs.temp.files && n > 0 && Resolve(fs, TempFile(f), location, n).At?
    requires SizeOf(f) > 0 && location % SizeOf(f) < LBA
    ensures Resolve(fs, TempFile(f), location, n).key == Temp(f, BlockIndex(location, SizeOf(f)))
    ensures location % LBA == location % SizeOf(f) && location % LBA + n <= SizeOf(f)
  {
    hide TempInv, Regions.GlobalOk, GetLBA, RequiredLbas, GetBufferSize, IsTempLBAInRange;
    SizeIs(fs, f);
    var nrLbas := RequiredLbas(n, location % LBA, LBA);
    AccessAnswer(fs.temp, f, location, nrLbas);
    WholeLbas(f);
    TempOffsetExactly(location, SizeOf(f), LBA);
    RequiredIs(n, location % LBA, LBA, nrLbas);
  }

  // ---------------------------------------------------------------- the last value at an offset

  /** As AfterOp, by file and offset. */
  ghost function AfterAt(fs: FS, op: FsOp, file: File, offset: nat, last: Option<Byte>): Option<Byte>
    requires FsInv(fs) && Enabled(fs, op) && HasBlocks(file)
  {
    match op
    case WriteOp(g, location, data) =>
      if g == file && location <= offset < location + |data| && Resolve(fs, g, location, |data|).At?
      then Some(data[offset - location]) else last
    case ReleaseOp(_, _) => if Has(Step(fs, op), KeyAt(file, offset)) then last else None
    case _ => last
  }

  ghost function LastAt(fs: FS, ops: seq<FsOp>, file: File, offset: nat, last: Option<Byte>): Option<Byte>
    requires FsInv(fs) && Legal(fs, ops) && HasBlocks(file)
    decreases |ops|
  {
    if ops == [] then last
    else LastAt(Next(fs, ops[0]), ops[1..], file, offset, AfterAt(fs, ops[0], file, offset, last))
  }

  predicate StartsInFirstLba(op: FsOp) { op.WriteOp? ==> InFirstLba(op.file, op.location) }

  lemma OpAgrees(fs: FS, op: FsOp, file: File, offset: nat, last: Option<Byte>)
    requires FsInv(fs) && Enabled(fs, op) && HasBlocks(file) && StartsInFirstLba(op)
    ensures AfterOp(fs, op, KeyAt(file, offset), PosAt(file, offset), last) == AfterAt(fs, op, file, offset, last)
  {
    hide FsInv, Resolve, Step, Has, GetBufferSize, InFirstLba;
    if op.WriteOp? && Resolve(fs, op.file, op.location, |op.data|).At? {
      PlacedInFile(fs, op.file, op.location, |op.data|, offset);
      if op.file != file { OtherKey(fs, op.file, op.location, |op.data|, file, offset); }
    }
  }

  lemma OtherKey(fs: FS, g: File, location: nat, n: nat, file: File, offset: nat)
    requires FsInv(fs) && Known(fs, g) && n > 0 && Resolve(fs, g, location, n).At? && HasBlocks(file) && g != file
    ensures Resolve(fs, g, location, n).key != KeyAt(file, offset)
  {
    hide FsInv, TempInv, GetLBA, RequiredLbas, GetBufferSize;
  }

  lemma {:induction false} RunAgrees(fs: FS, ops: seq<FsOp>, file: File, offset: nat, last: Option<Byte>)
    requires FsInv(fs) && Legal(fs, ops) && HasBlocks(file) && forall op :: op in ops ==> StartsInFirstLba(op)
    ensures LastWritten(fs, ops, KeyAt(file, offset), PosAt(file, offset), last) == LastAt(fs, ops, file, offset, last)
    decreases |ops|
  {
    hide FsInv, Enabled, Next, AfterOp, AfterAt, KeyAt, PosAt, HasBlocks, StartsInFirstLba;
    if ops != [] {
      assert ops[0] in ops;
      OpAgrees(fs, ops[0], file, offset, last);
      RunAgrees(Next(fs, ops[0]), ops[1..], file, offset, AfterAt(fs, ops[0], file, offset, last));
    }
  }

  /** In file offsets: when every write to a temporary file, and the read, start in the first LBA of
      their blocks, the read returns at each byte the last value written at that offset of the
      file, whatever writes covered it, or what was there before the run. */
  lemma ReadsFileBytes(fs: FS, ops: seq<FsOp>, file: File, location: nat, nrBytes: nat, i: nat)
    requires FsInv(fs) && Legal(fs, ops) && nrBytes > 0 && i < nrBytes
    requires InFirstLba(file, location) && forall op :: op in ops ==> StartsInFirstLba(op)
    requires Known(Run(fs, ops), file) && Resolve(Run(fs, ops), file, location, nrBytes).At?
    ensures HasBlocks(file)
    ensures var before := Initially(fs, KeyAt(file, location + i), PosAt(file, location + i));
            var last, out := LastAt(fs, ops, file, location + i, before), Read(Run(fs, ops), file, location, nrBytes).1;
            out.Got? && |out.data| == nrBytes && (last.Some? ==> out.data[i] == last.value)
  {
    hide FsInv, Resolve, Known, Read, Run, Legal, LastWritten, LastAt, Initially, KeyAt, PosAt, OffsetIn, InFirstLba;
    hide HasBlocks;
    PlacedInFile(Run(fs, ops), file, location, nrBytes, location + i);
    RunAgrees(fs, ops, file, location + i, Initially(fs, KeyAt(file, location + i), PosAt(file, location + i)));
    ReadsLastWritten(fs, ops, file, location, nrBytes, i);
  }
}
