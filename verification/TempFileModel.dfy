/** The temporary-file layer as a value: which file and block index owns which live block of
    the allocator. Files own blocks; nothing is shared, leaked or freed twice. */
module TempFileModel {
  import opened Basics
  import opened BlockPool
  import opened AllocatorLaws
  import opened AllocatorRuns

  /** The parts of a temporary file's name the source reads: `<stem>_<bufferSize>-<fileIndex>.tmp`. */
  datatype TempName = TempName(stem: string, bufferSize: string, fileIndex: nat)

  function GetBufferSize(s: string): (r: Option<nat>)
    ensures r.Some? ==> ValidRequest(r.value / 4096) && r.value == 4096 * (r.value / 4096)
    ensures r.Some? <==> s in {"S32K", "S64K", "S96K", "S128K", "S160K", "S192K", "S224K", "DEFAULT"}
  {
    if s == "S32K" then Some(32768)
    else if s == "S64K" then Some(65536)
    else if s == "S96K" then Some(98304)
    else if s == "S128K" then Some(131072)
    else if s == "S160K" then Some(163840)
    else if s == "S192K" then Some(196608)
    else if s == "S224K" then Some(229376)
    else if s == "DEFAULT" then Some(262144)
    else None
  }

  predicate IsDecimal(s: string) { s != [] && forall i :: 0 <= i < |s| ==> '0' <= s[i] <= '9' }

  function Decimal(s: string): nat
    requires forall i :: 0 <= i < |s| ==> '0' <= s[i] <= '9'
  {
    if s == [] then 0 else 10 * Decimal(s[..|s| - 1]) + (s[|s| - 1] - '0') as nat
  }

  /** The size named: a number of KiB between S and K, or 256 KiB for the default. */
  ghost predicate Names(s: string, size: nat) {
    if s == "DEFAULT" then size == 256 * 1024
    else
      && |s| > 2 && s[0] == 'S' && s[|s| - 1] == 'K'
      && IsDecimal(s[1..|s| - 1]) && size == 1024 * Decimal(s[1..|s| - 1])
  }

  /** The names the source knows stand for the sizes they name, and a new file gets that size. */
  lemma SizesAsNamed(s: string)
    ensures GetBufferSize(s).Some? ==> Names(s, GetBufferSize(s).value)
  {
    if GetBufferSize(s).Some? && s != "DEFAULT" {
      var d := s[1..|s| - 1];
      assert "S32K"[1..3] == "32" && "S64K"[1..3] == "64" && "S96K"[1..3] == "96";
      assert "S128K"[1..4] == "128" && "S160K"[1..4] == "160" && "S192K"[1..4] == "192" && "S224K"[1..4] == "224";
      if |d| == 2 {
        TwoDigits(d);
      } else {
        ThreeDigits(d);
      }
    }
  }

  lemma TwoDigits(d: string)
    requires |d| == 2 && IsDecimal(d)
    ensures Decimal(d) == 10 * (d[0] - '0') as nat + (d[1] - '0') as nat
  {
    assert d[..1][..0] == [] && d[..1][0] == d[0];
    assert Decimal(d[..1]) == 10 * Decimal(d[..1][..0]) + (d[0] - '0') as nat;
  }

  lemma ThreeDigits(d: string)
    requires |d| == 3 && IsDecimal(d)
    ensures Decimal(d) == 100 * (d[0] - '0') as nat + 10 * (d[1] - '0') as nat + (d[2] - '0') as nat
  {
    TwoDigits(d[..2]);
  }

  lemma CreatedAsNamed(st: TempState, f: TempName)
    requires f !in st.files
    ensures GetOrCreateFile(st, f).Created? <==> GetBufferSize(f.bufferSize).Some?
    ensures GetOrCreateFile(st, f).Created? ==>
      var r := GetOrCreateFile(st, f).st;
      f in r.files && Names(f.bufferSize, r.files[f].blockSize) && r.files[f].blocks == map[] && r.ledger == st.ledger
  {
    hide GetBufferSize, Names;
    SizesAsNamed(f.bufferSize);
  }

  /** The buffer sizes are what AllocatorRuns calls a buffer request. */
  lemma BufferIsRequest(s: string, lbaSize: nat)
    requires lbaSize > 0 && GetBufferSize(s).Some?
    ensures BufferRequest(GetBufferSize(s).value / lbaSize, lbaSize)
  {
    var j := GetBufferSize(s).value / 32768;
    assert 1 <= j <= 8 && GetBufferSize(s).value == 32768 * j;
  }

  /** A file's buffer size and the start LBA of each of its blocks, by block index. */
  datatype FileMeta = FileMeta(blockSize: nat, blocks: map<nat, nat>)

  datatype TempState = TempState(ledger: Ledger, files: map<TempName, FileMeta>, lbaSize: nat,
                                 activeFiles: int, peakFiles: int)

  // ---------------------------------------------------------------- live starts

  ghost function LiveStarts(b: seq<Extent>): set<nat> {
    set e | e in Live(b) :: e.start
  }

  lemma LiveStartsAt(p: Pool, s: nat)
    requires WellFormed(p)
    ensures s in LiveStarts(p.blocks) <==> LiveAt(p.blocks, s)
  {
    if s in LiveStarts(p.blocks) {
      var e :| e in Live(p.blocks) && e.start == s;
      var x :| 0 <= x < |p.blocks| && p.blocks[x] == e;
      StartsUnique(p.blocks, p.lo, p.hi, x, Find(p.blocks, s));
    }
    if LiveAt(p.blocks, s) {
      assert p.blocks[Find(p.blocks, s)] in Live(p.blocks);
    }
  }

  lemma TakeStarts(p: Pool, n: nat)
    requires WellFormed(p) && n > 0 && Allocate(p, n).Allocated?
    ensures var r := Allocate(p, n);
            LiveStarts(r.pool.blocks) == LiveStarts(p.blocks) + {r.block.start}
              && r.block.start !in LiveStarts(p.blocks)
  {
    AllocateAddsOne(p, n);
    AllocateWellFormed(p, n);
    var r := Allocate(p, n);
    var q := r.pool;
    assert r.block in Live(q.blocks);
    assert r.block.len > 0;
    forall e | e in Live(p.blocks) ensures e.start != r.block.start {
      assert e.len > 0;
    }
  }

  lemma GiveStarts(p: Pool, s: nat)
    requires WellFormed(p) && LiveAt(p.blocks, s)
    ensures LiveStarts(Free(p, s).blocks) == LiveStarts(p.blocks) - {s}
  {
    var i := Find(p.blocks, s);
    FreeRemovesOne(p, i);
    forall e | e in Live(p.blocks) && e.start == s ensures e == p.blocks[i] {
      var x :| 0 <= x < |p.blocks| && p.blocks[x] == e;
      StartsUnique(p.blocks, p.lo, p.hi, x, i);
    }
  }

  // ---------------------------------------------------------------- ownership

  type Files = map<TempName, FileMeta>

  ghost predicate Owns(files: Files, f: TempName, i: nat) {
    f in files && i in files[f].blocks
  }

  ghost function StartOf(files: Files, f: TempName, i: nat): nat
    requires Owns(files, f, i)
  {
    files[f].blocks[i]
  }

  ghost predicate OwnedBySome(files: Files, s: nat) {
    exists f, i :: Owns(files, f, i) && StartOf(files, f, i) == s
  }

  /** The blocks of all files are exactly the live blocks, each owned once. */
  ghost predicate Ownership(files: Files, live: set<nat>) {
    && (forall f, i :: Owns(files, f, i) ==> StartOf(files, f, i) in live)
    && (forall f, i, g, j :: Owns(files, f, i) && Owns(files, g, j) && StartOf(files, f, i) == StartOf(files, g, j)
          ==> f == g && i == j)
    && (forall s :: s in live ==> OwnedBySome(files, s))
  }

  /** Every live block was asked for at its file's buffer size. */
  ghost predicate Sized(files: Files, asked: map<nat, nat>, lbaSize: nat)
    requires lbaSize > 0
  {
    && (forall f :: f in files ==> GetBufferSize(f.bufferSize) == Some(files[f].blockSize))
    && (forall f, i :: Owns(files, f, i) ==>
          StartOf(files, f, i) in asked && asked[StartOf(files, f, i)] == files[f].blockSize / lbaSize)
    && (forall s :: s in asked ==> OwnedBySome(files, s))
  }

  ghost predicate LedgerInv(l: Ledger, lbaSize: nat) {
    WellFormed(l.pool) && Counted(l) && (lbaSize == 4096 ==> Fits(l))
  }

  ghost predicate TempInv(st: TempState) {
    && 0 < st.lbaSize <= 32768
    && LedgerInv(st.ledger, st.lbaSize)
    && Ownership(st.files, LiveStarts(st.ledger.pool.blocks))
    && Sized(st.files, st.ledger.asked, st.lbaSize)
    && st.activeFiles == |st.files|
  }

  function Initial(lo: nat, hi: nat, lbaSize: nat): TempState
    requires lo < hi
  {
    TempState(Start(lo, hi), map[], lbaSize, 0, 0)
  }

  lemma InitialInv(lo: nat, hi: nat, lbaSize: nat)
    requires lo < hi && 0 < lbaSize <= 32768
    ensures TempInv(Initial(lo, hi, lbaSize))
  {
    FreshWellFormed(lo, hi);
    var l := Start(lo, hi);
    assert Live(l.pool.blocks) == {};
    assert Lbas(l.pool.blocks, false) == 0 by { assert l.pool.blocks[1..] == []; }
  }

  // ---------------------------------------------------------------- operations

  /** The block that holds a byte offset of the file. */
  function BlockIndex(location: nat, blockSize: nat): (i: nat)
    requires blockSize > 0
  {
    location / blockSize
  }

  datatype CreateResult = UnknownBufferSize | Created(st: TempState)

  function GetOrCreateFile(st: TempState, f: TempName): CreateResult {
    if f in st.files then Created(st) else
    match GetBufferSize(f.bufferSize)
    case None => UnknownBufferSize
    case Some(size) =>
      var n := st.activeFiles + 1;
      Created(st.(files := st.files[f := FileMeta(size, map[])], activeFiles := n, peakFiles := Max(st.peakFiles, n)))
  }

  datatype Lookup = SizeMismatch | Found(lba: nat) | Missing

  /** The part of GetLBA that runs under the shared locks. */
  function CheckLBA(st: TempState, f: TempName, location: nat, nrLbas: nat): Lookup
    requires f in st.files && st.files[f].blockSize > 0 && st.lbaSize > 0
  {
    var meta := st.files[f];
    var index := BlockIndex(location, meta.blockSize);
    if nrLbas != meta.blockSize / st.lbaSize then SizeMismatch
    else if index in meta.blocks then Found(meta.blocks[index])
    else Missing
  }

  datatype LbaResult = BadSize | OutOfSpace | Lba(lba: nat)

  /** The part of GetLBA that runs under the exclusive locks: look again, then allocate. */
  ghost function AllocateLBA(st: TempState, f: TempName, location: nat, nrLbas: nat): (r: (TempState, LbaResult))
    requires WellFormed(st.ledger.pool) && nrLbas > 0
    requires f in st.files && st.files[f].blockSize > 0
    ensures r.1.OutOfSpace? ==> r.0 == st
  {
    var meta := st.files[f];
    var index := BlockIndex(location, meta.blockSize);
    if index in meta.blocks then (st, Lba(meta.blocks[index])) else
    match Allocate(st.ledger.pool, nrLbas)
    case NoFreeBlock => (st, OutOfSpace)
    case Allocated(_, b) =>
      (st.(ledger := Step(st.ledger, Take(nrLbas)),
           files := st.files[f := meta.(blocks := meta.blocks[index := b.start])]),
       Lba(b.start))
  }

  ghost function GetLBA(st: TempState, f: TempName, location: nat, nrLbas: nat): (TempState, LbaResult)
    requires TempInv(st) && f in st.files
  {
    SizeFacts(st, f);
    match CheckLBA(st, f, location, nrLbas)
    case SizeMismatch => (st, BadSize)
    case Found(lba) => (st, Lba(lba))
    case Missing => AllocateLBA(st, f, location, nrLbas)
  }

  lemma SizeFacts(st: TempState, f: TempName)
    requires TempInv(st) && f in st.files
    ensures st.files[f].blockSize > 0 && st.files[f].blockSize / st.lbaSize > 0
  {
    assert GetBufferSize(f.bufferSize) == Some(st.files[f].blockSize);
    assert st.files[f].blockSize >= 32768 >= st.lbaSize;
    Quotient(st.files[f].blockSize, st.lbaSize);
  }

  lemma Quotient(a: nat, b: nat)
    requires 0 < b <= a
    ensures a / b > 0
  {
  }

  /** Free one block of a file and drop it from the file's map. */
  ghost function FreeEntry(st: TempState, f: TempName, i: nat): (r: TempState)
    requires WellFormed(st.ledger.pool) && Owns(st.files, f, i)
    requires LiveAt(st.ledger.pool.blocks, StartOf(st.files, f, i))
    ensures WellFormed(r.ledger.pool)
  {
    st.(ledger := Step(st.ledger, Give(StartOf(st.files, f, i))), files := DropEntry(st.files, f, i))
  }

  ghost function DropEntry(files: Files, f: TempName, i: nat): Files
    requires f in files
  {
    files[f := files[f].(blocks := files[f].blocks - {i})]
  }

  ghost function AddEntry(files: Files, f: TempName, i: nat, s: nat): Files
    requires f in files
  {
    files[f := files[f].(blocks := files[f].blocks[i := s])]
  }

  // ---------------------------------------------------------------- ownership is kept

  lemma DropEntries(files: Files, f: TempName, i: nat)
    requires Owns(files, f, i)
    ensures var d := DropEntry(files, f, i);
            && d.Keys == files.Keys
            && (forall g, j :: Owns(d, g, j) <==> Owns(files, g, j) && (g != f || j != i))
            && forall g, j :: Owns(d, g, j) ==> StartOf(d, g, j) == StartOf(files, g, j)
  {
  }

  lemma AddEntries(files: Files, f: TempName, i: nat, s: nat)
    requires f in files && !Owns(files, f, i)
    ensures var d := AddEntry(files, f, i, s);
            && d.Keys == files.Keys
            && (forall g, j :: Owns(d, g, j) <==> Owns(files, g, j) || (g == f && j == i))
            && (forall g, j :: Owns(files, g, j) ==> StartOf(d, g, j) == StartOf(files, g, j))
            && StartOf(d, f, i) == s
  {
  }

  lemma StillOwned(files: Files, d: Files, t: nat)
    requires OwnedBySome(files, t)
    requires forall g, j :: Owns(files, g, j) && StartOf(files, g, j) == t ==> Owns(d, g, j) && StartOf(d, g, j) == t
    ensures OwnedBySome(d, t)
  {
    var g, j :| Owns(files, g, j) && StartOf(files, g, j) == t;
    assert Owns(d, g, j);
  }

  lemma DropOwnership(files: Files, f: TempName, i: nat, live: set<nat>)
    requires Ownership(files, live) && Owns(files, f, i)
    ensures Ownership(DropEntry(files, f, i), live - {StartOf(files, f, i)})
  {
    var d, s := DropEntry(files, f, i), StartOf(files, f, i);
    DropEntries(files, f, i);
    hide DropEntry;
    forall t | t in live - {s} ensures OwnedBySome(d, t) {
      StillOwned(files, d, t);
    }
  }

  lemma DropSized(files: Files, f: TempName, i: nat, live: set<nat>, asked: map<nat, nat>, lbaSize: nat)
    requires lbaSize > 0 && Ownership(files, live) && Sized(files, asked, lbaSize) && Owns(files, f, i)
    ensures Sized(DropEntry(files, f, i), asked - {StartOf(files, f, i)}, lbaSize)
  {
    var d, s := DropEntry(files, f, i), StartOf(files, f, i);
    DropEntries(files, f, i);
    assert forall g :: g in d ==> d[g].blockSize == files[g].blockSize;
    hide DropEntry;
    forall t | t in asked - {s} ensures OwnedBySome(d, t) {
      StillOwned(files, d, t);
    }
  }

  lemma AddOwnership(files: Files, f: TempName, i: nat, live: set<nat>, s: nat)
    requires Ownership(files, live) && f in files && !Owns(files, f, i) && s !in live
    ensures Ownership(AddEntry(files, f, i, s), live + {s})
  {
    var d := AddEntry(files, f, i, s);
    AddEntries(files, f, i, s);
    hide AddEntry;
    assert Owns(d, f, i);
    forall t | t in live + {s} ensures OwnedBySome(d, t) {
      if t != s {
        StillOwned(files, d, t);
      }
    }
  }

  lemma AddSized(files: Files, f: TempName, i: nat, live: set<nat>, s: nat, asked: map<nat, nat>, lbaSize: nat)
    requires lbaSize > 0 && Ownership(files, live) && Sized(files, asked, lbaSize)
    requires f in files && !Owns(files, f, i) && s !in live
    ensures Sized(AddEntry(files, f, i, s), asked[s := files[f].blockSize / lbaSize], lbaSize)
  {
    var d := AddEntry(files, f, i, s);
    AddEntries(files, f, i, s);
    assert forall g :: g in d ==> d[g].blockSize == files[g].blockSize;
    hide AddEntry;
    assert Owns(d, f, i);
    forall t | t in asked[s := files[f].blockSize / lbaSize] ensures OwnedBySome(d, t) {
      if t != s {
        StillOwned(files, d, t);
      }
    }
  }

  lemma EntryLive(st: TempState, f: TempName, i: nat)
    requires TempInv(st) && Owns(st.files, f, i)
    ensures WellFormed(st.ledger.pool) && LiveAt(st.ledger.pool.blocks, StartOf(st.files, f, i))
  {
    LiveStartsAt(st.ledger.pool, StartOf(st.files, f, i));
  }

  lemma StepLedgerInv(l: Ledger, op: Op, lbaSize: nat)
    requires LedgerInv(l, lbaSize) && Enabled(l, op) && (lbaSize == 4096 ==> ValidOp(op))
    ensures LedgerInv(Step(l, op), lbaSize)
  {
    hide Step, Enabled;
    StepCounted(l, op);
    if lbaSize == 4096 {
      StepFits(l, op);
    }
  }

  /** Freeing an owned block keeps the ownership invariant. */
  lemma FreeEntryInv(st: TempState, f: TempName, i: nat)
    requires TempInv(st) && Owns(st.files, f, i) && LiveAt(st.ledger.pool.blocks, StartOf(st.files, f, i))
    ensures TempInv(FreeEntry(st, f, i))
  {
    var s := StartOf(st.files, f, i);
    StepLedgerInv(st.ledger, Give(s), st.lbaSize);
    GiveStarts(st.ledger.pool, s);
    DropOwnership(st.files, f, i, LiveStarts(st.ledger.pool.blocks));
    DropSized(st.files, f, i, LiveStarts(st.ledger.pool.blocks), st.ledger.asked, st.lbaSize);
    hide Ownership, Sized, LedgerInv;
    assert DropEntry(st.files, f, i).Keys == st.files.Keys;
  }

  lemma TakeLedger(l: Ledger, n: nat)
    requires WellFormed(l.pool) && n > 0 && Allocate(l.pool, n).Allocated?
    ensures Step(l, Take(n)).pool == Allocate(l.pool, n).pool
    ensures Step(l, Take(n)).asked == l.asked[Allocate(l.pool, n).block.start := n]
  {
  }

  lemma AddEntryInv(st: TempState, f: TempName, i: nat, n: nat, s: nat)
    requires TempInv(st) && f in st.files && !Owns(st.files, f, i)
    requires n == st.files[f].blockSize / st.lbaSize && n > 0
    requires Allocate(st.ledger.pool, n).Allocated? && s == Allocate(st.ledger.pool, n).block.start
    ensures TempInv(st.(ledger := Step(st.ledger, Take(n)), files := AddEntry(st.files, f, i, s)))
  {
    var p := st.ledger.pool;
    assert GetBufferSize(f.bufferSize) == Some(st.files[f].blockSize);
    TakeLedger(st.ledger, n);
    assert Enabled(st.ledger, Take(n));
    hide Step, Allocate, Enabled, Ownership, Sized, LedgerInv, LiveStarts;
    StepLedgerInv(st.ledger, Take(n), st.lbaSize);
    TakeStarts(p, n);
    AddOwnership(st.files, f, i, LiveStarts(p.blocks), s);
    AddSized(st.files, f, i, LiveStarts(p.blocks), s, st.ledger.asked, st.lbaSize);
    AddEntries(st.files, f, i, s);
  }

  /** Allocating a block for a file keeps the ownership invariant. */
  lemma AllocateLBAInv(st: TempState, f: TempName, location: nat)
    requires TempInv(st) && f in st.files && st.files[f].blockSize > 0 && st.files[f].blockSize / st.lbaSize > 0
    ensures TempInv(AllocateLBA(st, f, location, st.files[f].blockSize / st.lbaSize).0)
  {
    hide Step, Allocate;
    var n, i := st.files[f].blockSize / st.lbaSize, BlockIndex(location, st.files[f].blockSize);
    if i !in st.files[f].blocks && Allocate(st.ledger.pool, n).Allocated? {
      AddEntryInv(st, f, i, n, Allocate(st.ledger.pool, n).block.start);
    }
  }

  /** Only the entries matter: files without blocks may come and go. */
  lemma SameEntries(files: Files, d: Files, live: set<nat>, asked: map<nat, nat>, lbaSize: nat)
    requires lbaSize > 0 && Ownership(files, live) && Sized(files, asked, lbaSize)
    requires forall g, j :: Owns(d, g, j) <==> Owns(files, g, j)
    requires forall g, j :: Owns(d, g, j) ==>
      StartOf(d, g, j) == StartOf(files, g, j) && d[g].blockSize == files[g].blockSize
    requires forall g :: g in d ==> GetBufferSize(g.bufferSize) == Some(d[g].blockSize)
    ensures Ownership(d, live) && Sized(d, asked, lbaSize)
  {
    hide Owns, StartOf, GetBufferSize;
    forall t | OwnedBySome(files, t) ensures OwnedBySome(d, t) {
      StillOwned(files, d, t);
    }
  }

  lemma CreateInv(st: TempState, f: TempName)
    requires TempInv(st) && GetOrCreateFile(st, f).Created?
    ensures TempInv(GetOrCreateFile(st, f).st)
  {
    var d := GetOrCreateFile(st, f).st.files;
    SameEntries(st.files, d, LiveStarts(st.ledger.pool.blocks), st.ledger.asked, st.lbaSize);
  }

  // ---------------------------------------------------------------- truncate, delete, clear

  /** What TruncateFile needs: it walks down from the number of mapped blocks. */
  ghost predicate Truncatable(m: FileMeta, newSize: nat) {
    m.blockSize > 0 && forall i :: BlockIndex(newSize, m.blockSize) <= i < |m.blocks| ==> i in m.blocks
  }

  /** Same pool bounds and LBA size. */
  ghost predicate SameDevice(st: TempState, r: TempState) {
    r.lbaSize == st.lbaSize && r.ledger.pool.lo == st.ledger.pool.lo && r.ledger.pool.hi == st.ledger.pool.hi
  }

  ghost function FreeOwned(st: TempState, f: TempName, i: nat): (r: TempState)
    requires TempInv(st) && Owns(st.files, f, i)
    ensures TempInv(r) && r.files == DropEntry(st.files, f, i) && SameDevice(st, r)
  {
    EntryLive(st, f, i);
    FreeEntryInv(st, f, i);
    FreeEntry(st, f, i)
  }

  ghost function FreeDown(st: TempState, f: TempName, from: nat, to: nat): (r: TempState)
    requires TempInv(st) && f in st.files && forall i :: to <= i < from ==> i in st.files[f].blocks
    ensures TempInv(r) && SameDevice(st, r)
    decreases from
  {
    if from <= to then st else FreeDown(FreeOwned(st, f, from - 1), f, from - 1, to)
  }

  ghost function TruncateFile(st: TempState, f: TempName, newSize: nat): (r: TempState)
    requires TempInv(st) && f in st.files && Truncatable(st.files[f], newSize)
    ensures TempInv(r) && SameDevice(st, r)
  {
    FreeDown(st, f, |st.files[f].blocks|, BlockIndex(newSize, st.files[f].blockSize))
  }

  /** Where the loop of TruncateFile stops: at `to`, or above the first index it finds unmapped on
      its way down. */
  function WalkEnd(blocks: map<nat, nat>, from: nat, to: nat): (e: nat)
    ensures e <= from && forall i :: e <= i < from ==> i in blocks
    ensures e <= to || (e > 0 && e - 1 !in blocks)
    ensures e < to ==> from == e
    decreases from
  {
    if from <= to || from - 1 !in blocks then from else WalkEnd(blocks, from - 1, to)
  }

  /** Truncated, or stopped at an index without a block, where the source follows a null pointer. */
  datatype TruncateResult = Truncated(st: TempState) | NullBlock(st: TempState)

  /** TruncateFile on every file and for every size. */
  ghost function TruncateAny(st: TempState, f: TempName, newSize: nat): TruncateResult
    requires TempInv(st) && f in st.files
  {
    SizeFacts(st, f);
    var m := st.files[f];
    var to := BlockIndex(newSize, m.blockSize);
    var e := WalkEnd(m.blocks, |m.blocks|, to);
    var r := FreeDown(st, f, |m.blocks|, e);
    if e <= to then Truncated(r) else NullBlock(r)
  }

  predicate IsLeast(m: nat, s: set<nat>) {
    m in s && forall x :: x in s ==> m <= x
  }

  lemma {:induction false} HasLeast(s: set<nat>)
    requires s != {}
    ensures exists m :: IsLeast(m, s)
    decreases |s|
  {
    var m :| m in s;
    var rest := s - {m};
    assert s == rest + {m};
    if rest == {} {
      assert IsLeast(m, s);
    } else {
      HasLeast(rest);
      var n :| IsLeast(n, rest);
      assert IsLeast(if n < m then n else m, s);
    }
  }

  ghost function Least(s: set<nat>): (m: nat)
    requires s != {}
    ensures IsLeast(m, s)
  {
    HasLeast(s);
    var m :| IsLeast(m, s);
    m
  }

  /** Free a file's blocks in the order of their indices. */
  ghost function FreeBlocks(st: TempState, f: TempName): (r: TempState)
    requires TempInv(st) && f in st.files
    ensures TempInv(r) && SameDevice(st, r)
    decreases |st.files[f].blocks|
  {
    if st.files[f].blocks == map[] then st
    else
      var i := Least(st.files[f].blocks.Keys);
      assert (st.files[f].blocks - {i}).Keys == st.files[f].blocks.Keys - {i};
      FreeBlocks(FreeOwned(st, f, i), f)
  }

  lemma DropThenEmpty(files: Files, f: TempName, i: nat)
    requires Owns(files, f, i)
    ensures var d := DropEntry(files, f, i);
            && f in d && |d[f].blocks| < |files[f].blocks|
            && d[f := FileMeta(d[f].blockSize, map[])] == files[f := FileMeta(files[f].blockSize, map[])]
  {
    assert (files[f].blocks - {i}).Keys == files[f].blocks.Keys - {i};
  }

  lemma {:induction false} FreeBlocksFiles(st: TempState, f: TempName)
    requires TempInv(st) && f in st.files
    ensures FreeBlocks(st, f).files == st.files[f := FileMeta(st.files[f].blockSize, map[])]
    decreases |st.files[f].blocks|
  {
    hide TempInv, DropEntry, FreeOwned;
    if st.files[f].blocks == map[] {
      assert st.files == st.files[f := FileMeta(st.files[f].blockSize, map[])];
    } else {
      var i := Least(st.files[f].blocks.Keys);
      DropThenEmpty(st.files, f, i);
      FreeBlocksFiles(FreeOwned(st, f, i), f);
    }
  }

  ghost function DeleteFile(st: TempState, f: TempName): (r: TempState)
    requires TempInv(st) && f in st.files
    ensures TempInv(r) && SameDevice(st, r)
  {
    var s := FreeBlocks(st, f);
    FreeBlocksFiles(st, f);
    ForgetInv(s, f);
    s.(files := s.files - {f}, activeFiles := s.activeFiles - 1)
  }

  lemma ForgetInv(s: TempState, f: TempName)
    requires TempInv(s) && f in s.files && s.files[f].blocks == map[]
    ensures TempInv(s.(files := s.files - {f}, activeFiles := s.activeFiles - 1))
  {
    var d := s.files - {f};
    SameEntries(s.files, d, LiveStarts(s.ledger.pool.blocks), s.ledger.asked, s.lbaSize);
    assert d.Keys == s.files.Keys - {f};
  }

  /** Clear frees everything; in whatever order, the pool comes out as one free block. */
  ghost function Clear(st: TempState): (r: TempState)
    requires TempInv(st)
    ensures SameDevice(st, r)
  {
    var p := st.ledger.pool;
    var h := HomeList(p.untouched, p.hi - p.lo);
    var clean := Pool(p.lo, p.hi, [Extent(p.lo, p.hi - p.lo, true)],
                      seq(LISTS, k => if k == h then [p.lo] else []), p.untouched);
    st.(ledger := Ledger(clean, map[], COUNTED_LBA * st.ledger.drift, st.ledger.peak, st.ledger.drift),
        files := map[], activeFiles := 0)
  }

  /** A state that owns nothing has the cleared ledger. */
  lemma NothingOwned(st: TempState)
    requires TempInv(st) && forall f, i :: !Owns(st.files, f, i)
    ensures st.ledger == Clear(st).ledger
  {
    var p := st.ledger.pool;
    NoneOwned(st.files);
    assert Live(p.blocks) == {} by {
      assert forall e :: e in Live(p.blocks) ==> e.start in LiveStarts(p.blocks);
    }
    AllFreed(p);
    assert p.lists == Clear(st).ledger.pool.lists;
    assert st.ledger.asked == map[];
    assert Lbas(p.blocks, false) == 0 by { assert p.blocks[1..] == []; }
  }

  lemma NoneOwned(files: Files)
    requires forall f, i :: !Owns(files, f, i)
    ensures forall s :: !OwnedBySome(files, s)
  {
  }

  lemma OneFreeBlock(p: Pool)
    requires p.lo < p.hi && p.blocks == [Extent(p.lo, p.hi - p.lo, true)]
    requires var h := HomeList(p.untouched, p.hi - p.lo); p.lists == seq(LISTS, k => if k == h then [p.lo] else [])
    ensures WellFormed(p) && Live(p.blocks) == {} && Lbas(p.blocks, false) == 0
  {
    var h := HomeList(p.untouched, p.hi - p.lo);
    assert p.blocks[0].start == p.lo && p.blocks[1..] == [];
    forall k, s | 0 <= k < LISTS ensures s in p.lists[k] <==> FreeIn(p.blocks, p.untouched, s, k) {}
  }

  lemma NoFiles(st: TempState, q: TempState)
    requires TempInv(st) && q.lbaSize == st.lbaSize && q.files == map[] && q.activeFiles == 0 && q.ledger.asked == map[]
    requires LedgerInv(q.ledger, q.lbaSize) && Live(q.ledger.pool.blocks) == {}
    ensures TempInv(q)
  {
    hide LedgerInv;
  }

  lemma PoolHasLbas(p: Pool)
    requires WellFormed(p)
    ensures p.lo < p.hi
  {
  }

  lemma ClearInv(st: TempState)
    requires TempInv(st)
    ensures TempInv(Clear(st))
  {
    hide WellFormed, Ownership, Sized, HomeList;
    var q := Clear(st);
    PoolHasLbas(st.ledger.pool);
    OneFreeBlock(q.ledger.pool);
    NoFiles(st, q);
  }
}
