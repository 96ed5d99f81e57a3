/** What reads return over whole runs: at every byte, the value that was last put there. */
module LastWrites {
  import opened Basics
  import opened Device
  import opened MetadataImage
  import opened FileSystem

  /** The last value known to be at byte `pos` of the key, as an operation leaves it. A write that is
      not refused sets the bytes it covers, a flush the first bytes of the metadata, and a
      release of the key forgets it. */
  ghost function AfterOp(fs: FS, op: FsOp, key: Key, pos: nat, last: Option<Byte>): Option<Byte>
    requires FsInv(fs) && Enabled(fs, op)
  {
    match op
    case WriteOp(file, location, data) =>
      var r := Resolve(fs, file, location, |data|);
      var at := OffsetIn(file, location);
      if r.At? && r.key == key && at <= pos < at + |data| then Some(data[pos - at]) else last
    case ReleaseOp(_, _) => if Has(Step(fs, op), key) then last else None
    case FlushOp(image) => if key.Meta? && pos < |image| then Some(image[pos]) else last
    case _ => last
  }

  ghost function LastWritten(fs: FS, ops: seq<FsOp>, key: Key, pos: nat, last: Option<Byte>): Option<Byte>
    requires FsInv(fs) && Legal(fs, ops)
    decreases |ops|
  {
    if ops == [] then last else LastWritten(Next(fs, ops[0]), ops[1..], key, pos, AfterOp(fs, ops[0], key, pos, last))
  }

  /** A run starts with every byte that is there known. */
  ghost function Initially(fs: FS, key: Key, pos: nat): Option<Byte>
    requires FsInv(fs)
  {
    if Has(fs, key) && pos < |Bytes(fs, key)| then Some(Bytes(fs, key)[pos]) else None
  }

  /** What is known of the byte is so. */
  ghost predicate Knows(fs: FS, key: Key, pos: nat, last: Option<Byte>)
    requires FsInv(fs)
  {
    last.Some? ==> Has(fs, key) && pos < |Bytes(fs, key)| && Bytes(fs, key)[pos] == last.value
  }

  lemma SameByte(fs: FS, q: FS, key: Key, pos: nat)
    requires FsInv(fs) && FsInv(q) && Has(fs, key) && SameBytes(fs, q, key, pos, 1)
    ensures Has(q, key) && pos < |Bytes(fs, key)| == |Bytes(q, key)| && Bytes(q, key)[pos] == Bytes(fs, key)[pos]
  {
    hide FsInv, Bytes, Has, From, To;
    assert Bytes(q, key)[pos..pos + 1][0] == Bytes(fs, key)[pos..pos + 1][0];
  }

  lemma UntouchedKnows(fs: FS, op: FsOp, key: Key, pos: nat, last: Option<Byte>)
    requires FsInv(fs) && Enabled(fs, op) && Knows(fs, key, pos, last)
    requires last.Some? ==> !Touches(fs, op, key, pos, 1)
    ensures Knows(Next(fs, op), key, pos, last)
  {
    hide FsInv, Enabled, Step, Touches, SameBytes, Has, Bytes;
    if last.Some? {
      StepKeeps(fs, op, key, pos, 1);
      SameByte(fs, Next(fs, op), key, pos);
    }
  }

  lemma WrittenKnows(fs: FS, file: File, location: nat, data: seq<Byte>, key: Key, pos: nat)
    requires FsInv(fs) && Known(fs, file) && |data| > 0
    requires var r, at := Resolve(fs, file, location, |data|), OffsetIn(file, location);
             r.At? && r.key == key && at <= pos < at + |data|
    ensures var w := Write(fs, file, location, data).0;
            FsInv(w) && Knows(w, key, pos, Some(data[pos - OffsetIn(file, location)]))
  {
    hide FsInv, Resolve, Bytes, Has, Known, Kept, Write, OffsetIn;
    var r := Resolve(fs, file, location, |data|);
    var q := fs.(temp := r.st);
    Resolved(fs, file, location, |data|);
    WriteView(fs, file, location, data, key);
    PlacedSize(q, file, location, |data|, key, r.ctx);
  }

  lemma FlushedKnows(fs: FS, image: seq<Byte>, pos: nat, last: Option<Byte>)
    requires FsInv(fs) && |image| == METADATA_BYTES && Knows(fs, Meta, pos, last)
    ensures FsInv(Flush(fs, image))
    ensures Knows(Flush(fs, image), Meta, pos, if pos < |image| then Some(image[pos]) else last)
  {
    hide FsInv, From, To, Fits, Position, Start, End, Has, Kept;
    MetadataFits(fs);
    MemorySize(fs);
    var q := Flush(fs, image);
    MemorySwapped(fs, q.memory);
    Within(fs, Meta);
    Within(q, Meta);
  }

  lemma ForgottenKnows(fs: FS, key: Key, pos: nat, last: Option<Byte>)
    requires FsInv(fs)
    ensures Knows(fs, key, pos, None)
  {
  }

  lemma StepKnows(fs: FS, op: FsOp, key: Key, pos: nat, last: Option<Byte>)
    requires FsInv(fs) && Enabled(fs, op) && Knows(fs, key, pos, last)
    ensures Knows(Next(fs, op), key, pos, AfterOp(fs, op, key, pos, last))
  {
    hide FsInv, Resolve, OffsetIn, Knows, Known, Discarded, Has, Flush, Write;
    match op
    case WriteOp(file, location, data) =>
      var r, at := Resolve(fs, file, location, |data|), OffsetIn(file, location);
      if r.At? && r.key == key && at <= pos < at + |data| {
        WrittenKnows(fs, file, location, data, key, pos);
      } else {
        UntouchedKnows(fs, op, key, pos, last);
      }
    case ReleaseOp(_, _) =>
      ForgottenKnows(fs, key, pos, last);
      UntouchedKnows(fs, op, key, pos, if Has(Next(fs, op), key) then last else None);
    case FlushOp(image) =>
      if key.Meta? {
        FlushedKnows(fs, image, pos, last);
      } else {
        UntouchedKnows(fs, op, key, pos, last);
      }
    case _ => UntouchedKnows(fs, op, key, pos, last);
  }

  lemma {:induction false} RunKnows(fs: FS, ops: seq<FsOp>, key: Key, pos: nat, last: Option<Byte>)
    requires FsInv(fs) && Legal(fs, ops) && Knows(fs, key, pos, last)
    ensures Knows(Run(fs, ops), key, pos, LastWritten(fs, ops, key, pos, last))
    decreases |ops|
  {
    hide FsInv, Enabled, Knows, AfterOp, Next;
    if ops != [] {
      StepKnows(fs, ops[0], key, pos, last);
      RunKnows(Next(fs, ops[0]), ops[1..], key, pos, AfterOp(fs, ops[0], key, pos, last));
    }
  }

  lemma RegionStays(fs: FS, op: FsOp, key: Key)
    requires FsInv(fs) && Enabled(fs, op) && Has(fs, key) && !key.Temp?
    ensures Has(Next(fs, op), key)
  {
    hide FsInv, Enabled, Bytes, Transfer, ChangeMetadata, From, To;
    if op.ReleaseOp? {
      SameRegions(fs, Next(fs, op), key);
    } else {
      StepKeeps(fs, op, key, 0, 0);
    }
  }

  lemma SameRegions(fs: FS, q: FS, key: Key)
    requires q.global == fs.global && Has(fs, key) && !key.Temp?
    ensures Has(q, key)
  {
  }

  lemma StillKnown(fs: FS, op: FsOp, key: Key, pos: nat, last: Option<Byte>)
    requires FsInv(fs) && Enabled(fs, op) && Has(Next(fs, op), key) && last.Some?
    ensures AfterOp(fs, op, key, pos, last).Some?
  {
    hide FsInv, Enabled, Resolve, Has, Step, OffsetIn;
  }

  /** Nothing is ever forgotten of the metadata and of the regions. */
  lemma {:induction false} RegionsKnown(fs: FS, ops: seq<FsOp>, key: Key, pos: nat, last: Option<Byte>)
    requires FsInv(fs) && Legal(fs, ops) && Has(fs, key) && !key.Temp? && last.Some?
    ensures LastWritten(fs, ops, key, pos, last).Some?
    decreases |ops|
  {
    hide FsInv, Enabled, Has, Next, AfterOp;
    if ops != [] {
      RegionStays(fs, ops[0], key);
      StillKnown(fs, ops[0], key, pos, last);
      RegionsKnown(Next(fs, ops[0]), ops[1..], key, pos, AfterOp(fs, ops[0], key, pos, last));
    }
  }

  /** After every run, every read of any range of any file that is not refused returns, at each of
      its bytes, the last value put there: by a write of any other range that covers the byte,
      or else by what the device held before the run. */
  lemma ReadsLastWritten(fs: FS, ops: seq<FsOp>, file: File, location: nat, nrBytes: nat, i: nat)
    requires FsInv(fs) && Legal(fs, ops) && nrBytes > 0 && i < nrBytes
    requires Known(Run(fs, ops), file) && Resolve(Run(fs, ops), file, location, nrBytes).At?
    ensures var end := Run(fs, ops);
            var key, pos := Resolve(end, file, location, nrBytes).key, OffsetIn(file, location) + i;
            var last := LastWritten(fs, ops, key, pos, Initially(fs, key, pos));
            var out := Read(end, file, location, nrBytes).1;
            out.Got? && |out.data| == nrBytes && (last.Some? ==> out.data[i] == last.value)
  {
    hide FsInv, Resolve, Bytes, Has, Known, OffsetIn, Read, Run, Legal, LastWritten;
    var end := Run(fs, ops);
    var key, pos := Resolve(end, file, location, nrBytes).key, OffsetIn(file, location) + i;
    RunKnows(fs, ops, key, pos, Initially(fs, key, pos));
    ReadView(end, file, location, nrBytes);
    var q := Read(end, file, location, nrBytes).0;
    if Has(end, key) {
      KeptBytes(end, q, key);
    }
  }
}
