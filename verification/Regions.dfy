/** The device layout: LBA 0 holds the metadata, then come up to 16 regions, each a database part
    and a WAL part, then the temporary area. All arithmetic is unsigned 64-bit. */
module Regions {
  import opened Basics
  import Watermarks

  const MAX_DATABASES: nat := 16
  const NAME_BYTES: nat := 100

  datatype Geometry = Geometry(lbaSize: nat, lbaCount: nat)

  /** `dbConfigs` are the configured databases and their sizes in bytes, in whatever order the
      hash map yields them. */
  datatype Config = Config(maxTempSize: nat, maxWalSize: nat, defaultDbSize: nat, dbConfigs: seq<(string, nat)>)

  datatype Region = Region(dbPath: string, dbStart: nat, walStart: nat, walEnd: nat,
                           dbLocation: nat, walLocation: nat, isActive: bool)

  datatype Global = Global(tmpStart: nat, activeDatabases: nat, databases: seq<Region>)

  /** A device the arithmetic was written for: its size in bytes and every configured size is a
      64-bit number, and blocks are 512 bytes or more. */
  predicate Sane(geo: Geometry, cfg: Config) {
    && 512 <= geo.lbaSize && geo.lbaCount * geo.lbaSize < U64
    && cfg.maxTempSize < U64 && cfg.maxWalSize < U64 && cfg.defaultDbSize < U64
    && forall i :: 0 <= i < |cfg.dbConfigs| ==> cfg.dbConfigs[i].1 < U64
  }

  function Lbas(bytes: nat, geo: Geometry): (n: nat)
    requires geo.lbaSize >= 512
    ensures bytes < U64 ==> n < U64 / 512
  {
    Quotient(bytes, geo.lbaSize);
    bytes / geo.lbaSize
  }

  /** `n` is how many whole LBAs so many bytes are. */
  ghost predicate WholeLbas(n: int, bytes: nat, lbaSize: nat) {
    n >= 0 && n * lbaSize <= bytes < (n + 1) * lbaSize
  }

  lemma LbasIs(bytes: nat, geo: Geometry)
    requires geo.lbaSize >= 512
    ensures WholeLbas(Lbas(bytes, geo), bytes, geo.lbaSize)
  {
    var n := Lbas(bytes, geo);
    DivMod(bytes, geo.lbaSize);
    TimesFacts(n, geo.lbaSize);
  }

  lemma Quotient(a: nat, b: nat)
    requires b >= 512
    ensures a / b <= a / 512
  {
    var q := a / b;
    assert q * 512 <= q * b <= a;
  }

  /** The copy into a fixed field: as much of the name as 100 characters hold and no NUL is in. */
  function Cut(name: string): (r: string)
    ensures r <= name && |r| <= 100 && '\0' !in r
    ensures |r| < 100 && r != name ==> name[|r|] == '\0'
  {
    CutTo(name, NAME_BYTES)
  }

  function CutTo(name: string, n: nat): (r: string)
    ensures r <= name && |r| <= n && '\0' !in r
    ensures |r| < n && r != name ==> name[|r|] == '\0'
    ensures r == name <==> |name| <= n && '\0' !in name
  {
    if n == 0 || name == [] || name[0] == '\0' then []
    else
      assert name == [name[0]] + name[1..];
      [name[0]] + CutTo(name[1..], n - 1)
  }

  // ---------------------------------------------------------------- initialisation

  const NO_REGION := Region("", 0, 0, 0, 0, 0, false)

  /** The local state of the initialisation: regions so far, next slot, next free LBA. */
  datatype Builder = Builder(tmpStart: nat, databases: seq<Region>, dbIdx: nat, currentLba: nat)

  function NewRegion(name: string, start: nat, requestedLbas: nat, walLbas: nat): Region {
    var walStart := Wrapped(start + requestedLbas);
    Region(Cut(name), start, walStart, Wrapped(walStart + walLbas), start, walStart, true)
  }

  function RegisterDB(b: Builder, name: string, requestedLbas: nat, walLbas: nat): (r: Option<Builder>)
    requires |b.databases| == MAX_DATABASES
    ensures r.Some? ==>
      |r.value.databases| == MAX_DATABASES && r.value.dbIdx == b.dbIdx + 1 && r.value.tmpStart == b.tmpStart
  {
    if b.dbIdx >= MAX_DATABASES then None
    else if Wrapped(b.currentLba + requestedLbas + walLbas) >= b.tmpStart then None
    else
      var region := NewRegion(name, b.currentLba, requestedLbas, walLbas);
      Some(Builder(b.tmpStart, b.databases[b.dbIdx := region], b.dbIdx + 1, region.walEnd))
  }

  function RegisterEach(b: Builder, configs: seq<(string, nat)>, walLbas: nat, geo: Geometry): (r: Option<Builder>)
    requires |b.databases| == MAX_DATABASES && geo.lbaSize >= 512
    ensures r.Some? ==> |r.value.databases| == MAX_DATABASES && r.value.tmpStart == b.tmpStart
    ensures r.Some? ==> r.value.dbIdx == b.dbIdx + |configs|
    ensures r.Some? && b.dbIdx <= MAX_DATABASES ==> r.value.dbIdx <= MAX_DATABASES
    decreases |configs|
  {
    if configs == [] then Some(b) else
    match RegisterDB(b, configs[0].0, Lbas(configs[0].1, geo), walLbas)
    case None => None
    case Some(c) => RegisterEach(c, configs[1..], walLbas, geo)
  }

  predicate Named(databases: seq<Region>, n: nat, name: string)
    requires n <= |databases|
  {
    exists i :: 0 <= i < n && databases[i].dbPath == name
  }

  function TmpStart(geo: Geometry, cfg: Config): (t: nat)
    requires geo.lbaSize >= 512
    ensures t < U64
  {
    Wrapped(geo.lbaCount - Lbas(cfg.maxTempSize, geo))
  }

  /** The temporary area is on the device exactly when its size is less than one LBA above the
      device's. Then it is as many whole LBAs at the device's end as that size has. */
  lemma TmpStartExactly(geo: Geometry, cfg: Config)
    requires Sane(geo, cfg)
    ensures TmpStart(geo, cfg) <= geo.lbaCount <==> cfg.maxTempSize < (geo.lbaCount + 1) * geo.lbaSize
    ensures TmpStart(geo, cfg) <= geo.lbaCount ==>
      WholeLbas(geo.lbaCount - TmpStart(geo, cfg), cfg.maxTempSize, geo.lbaSize)
  {
    TmpStartIs(geo, cfg);
    LbasIs(cfg.maxTempSize, geo);
    LbasBelow(cfg.maxTempSize, geo, geo.lbaCount);
  }

  lemma LbasBelow(bytes: nat, geo: Geometry, n: nat)
    requires geo.lbaSize >= 512
    ensures Lbas(bytes, geo) <= n <==> bytes < (n + 1) * geo.lbaSize
    ensures n <= Lbas(bytes, geo) <==> n * geo.lbaSize <= bytes
  {
    DivMul(bytes, n, geo.lbaSize);
    DivMul(bytes, n + 1, geo.lbaSize);
  }

  lemma TmpStartIs(geo: Geometry, cfg: Config)
    requires Sane(geo, cfg)
    ensures TmpStart(geo, cfg) <= geo.lbaCount <==> Lbas(cfg.maxTempSize, geo) <= geo.lbaCount
    ensures Lbas(cfg.maxTempSize, geo) <= geo.lbaCount ==>
      TmpStart(geo, cfg) == geo.lbaCount - Lbas(cfg.maxTempSize, geo)
  {
    DeviceLbas(geo, cfg);
  }

  lemma DeviceLbas(geo: Geometry, cfg: Config)
    requires Sane(geo, cfg)
    ensures geo.lbaCount <= U64 / 512
  {
    TimesMonotone(512, geo.lbaSize, geo.lbaCount);
  }

  // ---------------------------------------------------------------- InitializeMetadata

  function Blank(geo: Geometry, cfg: Config): Builder
    requires geo.lbaSize >= 512
  {
    Builder(TmpStart(geo, cfg), seq(MAX_DATABASES, _ => NO_REGION), 0, 1)
  }

  /** Without configured databases one region gets everything; with them each gets its size, and
      the database being opened a default one unless it is among them. */
  function Build(geo: Geometry, cfg: Config, firstDbName: string): (r: Option<Builder>)
    requires geo.lbaSize >= 512
    ensures r.Some? ==> |r.value.databases| == MAX_DATABASES && r.value.dbIdx <= MAX_DATABASES
  {
    var b := Blank(geo, cfg);
    var walLbas := Lbas(cfg.maxWalSize, geo);
    if cfg.dbConfigs == [] then RegisterDB(b, firstDbName, Wrapped(b.tmpStart - b.currentLba - walLbas), walLbas)
    else
      match RegisterEach(b, cfg.dbConfigs, walLbas, geo)
      case None => None
      case Some(c) =>
        if Named(c.databases, c.dbIdx, firstDbName) then Some(c)
        else RegisterDB(c, firstDbName, Lbas(cfg.defaultDbSize, geo), walLbas)
  }

  /** The branch without configured databases asks for exactly what it then refuses. */
  lemma NoConfigAlwaysThrows(geo: Geometry, cfg: Config, firstDbName: string)
    requires geo.lbaSize >= 512 && cfg.dbConfigs == []
    ensures Build(geo, cfg, firstDbName).None?
  {
    hide Wrapped, Lbas, TmpStart;
    WrapBack(TmpStart(geo, cfg), Lbas(cfg.maxWalSize, geo));
  }

  lemma WrapBack(t: nat, w: nat)
    requires t < U64
    ensures Wrapped(1 + Wrapped(t - 1 - w) + w) == t
  {
  }

  // ---------------------------------------------------------------- layout

  ghost predicate Placed(r: Region, tmpStart: nat) {
    && 1 <= r.dbStart <= r.walStart <= r.walEnd < tmpStart
    && r.dbStart <= r.dbLocation <= r.walStart <= r.walLocation <= r.walEnd
  }

  /** The first `n` slots are in use and no others; their regions follow one another in
      `[1, tmpStart)`. */
  ghost predicate Layout(tmpStart: nat, databases: seq<Region>, n: nat) {
    && |databases| == MAX_DATABASES && n <= MAX_DATABASES
    && (forall i :: 0 <= i < MAX_DATABASES ==> (databases[i].isActive <==> i < n))
    && (forall i :: 0 <= i < n ==> Placed(databases[i], tmpStart))
    && forall i, j :: 0 <= i < j < n ==> databases[i].walEnd <= databases[j].dbStart
  }

  ghost predicate UniqueNames(databases: seq<Region>, n: nat)
    requires n <= |databases|
  {
    forall i, j :: 0 <= i < j < n ==> databases[i].dbPath != databases[j].dbPath
  }

  /** The builder's next free LBA is past all its regions. */
  ghost predicate Built(b: Builder) {
    && Layout(b.tmpStart, b.databases, b.dbIdx) && 1 <= b.currentLba
    && forall i :: 0 <= i < b.dbIdx ==> b.databases[i].walEnd <= b.currentLba && Stable(b.databases[i].dbPath)
  }

  /** No sum wraps around. */
  ghost predicate Roomy(tmpStart: nat, start: nat, requestedLbas: nat, walLbas: nat) {
    tmpStart <= U64 / 512 && start <= U64 / 512 && requestedLbas <= U64 / 512 && walLbas <= U64 / 512
  }

  /** A new region of these sizes, empty. */
  ghost predicate OfSize(r: Region, name: string, requestedLbas: nat, walLbas: nat) {
    && r.isActive && r.dbPath == Cut(name)
    && r.walStart - r.dbStart == requestedLbas && r.walEnd - r.walStart == walLbas
    && r.dbLocation == r.dbStart && r.walLocation == r.walStart
  }

  /** A new region for so many bytes of database and of WAL, empty. */
  ghost predicate OfBytes(r: Region, name: string, dbBytes: nat, walBytes: nat, lbaSize: nat) {
    && r.isActive && r.dbPath == Cut(name)
    && WholeLbas(r.walStart - r.dbStart, dbBytes, lbaSize) && WholeLbas(r.walEnd - r.walStart, walBytes, lbaSize)
    && r.dbLocation == r.dbStart && r.walLocation == r.walStart
  }

  lemma SizedInBytes(r: Region, name: string, dbBytes: nat, walBytes: nat, geo: Geometry)
    requires geo.lbaSize >= 512 && OfSize(r, name, Lbas(dbBytes, geo), Lbas(walBytes, geo))
    ensures OfBytes(r, name, dbBytes, walBytes, geo.lbaSize)
  {
    LbasIs(dbBytes, geo);
    LbasIs(walBytes, geo);
    hide Lbas;
  }

  lemma AppendRegion(tmpStart: nat, databases: seq<Region>, n: nat, r: Region)
    requires Layout(tmpStart, databases, n) && n < MAX_DATABASES && r.isActive && Placed(r, tmpStart)
    requires forall i :: 0 <= i < n ==> databases[i].walEnd <= r.dbStart
    ensures Layout(tmpStart, databases[n := r], n + 1)
  {
  }

  lemma RegisterBuilt(b: Builder, name: string, requestedLbas: nat, walLbas: nat)
    requires Built(b) && Roomy(b.tmpStart, b.currentLba, requestedLbas, walLbas)
    requires RegisterDB(b, name, requestedLbas, walLbas).Some?
    ensures var c := RegisterDB(b, name, requestedLbas, walLbas).value;
            && Built(c) && c.currentLba < c.tmpStart && c.databases == b.databases[b.dbIdx := c.databases[b.dbIdx]]
            && OfSize(c.databases[b.dbIdx], name, requestedLbas, walLbas)
  {
    AppendRegion(b.tmpStart, b.databases, b.dbIdx, NewRegion(name, b.currentLba, requestedLbas, walLbas));
    var r := NewRegion(name, b.currentLba, requestedLbas, walLbas);
    assert r.walEnd == b.currentLba + requestedLbas + walLbas;
  }

  /** A name a region can be found under again. */
  predicate Stable(name: string) { |name| <= 100 && '\0' !in name }

  lemma {:induction false} EachBuilt(b: Builder, configs: seq<(string, nat)>, walLbas: nat, geo: Geometry)
    requires |b.databases| == MAX_DATABASES && b.dbIdx <= MAX_DATABASES
    requires Built(b) && b.tmpStart <= U64 / 512 && b.currentLba <= U64 / 512 && walLbas <= U64 / 512
    requires geo.lbaSize >= 512
    requires forall i :: 0 <= i < |configs| ==> configs[i].1 < U64
    requires RegisterEach(b, configs, walLbas, geo).Some?
    ensures var c := RegisterEach(b, configs, walLbas, geo).value;
            && Built(c) && c.currentLba <= U64 / 512
            && (forall i :: 0 <= i < b.dbIdx ==> c.databases[i] == b.databases[i])
            && forall i :: b.dbIdx <= i < c.dbIdx ==>
                 OfSize(c.databases[i], configs[i - b.dbIdx].0, Lbas(configs[i - b.dbIdx].1, geo), walLbas)
    decreases |configs|
  {
    hide Built, RegisterDB, Lbas, OfSize;
    if configs != [] {
      var c := RegisterDB(b, configs[0].0, Lbas(configs[0].1, geo), walLbas).value;
      RegisterBuilt(b, configs[0].0, Lbas(configs[0].1, geo), walLbas);
      EachBuilt(c, configs[1..], walLbas, geo);
    }
  }

  lemma OfSizeName(r: Region, name: string, requestedLbas: nat, walLbas: nat)
    requires OfSize(r, name, requestedLbas, walLbas)
    ensures r.dbPath == Cut(name)
  {
  }

  /** Configured database `i` is in slot `i` with the size it asks for, and the database being
      opened is last with the default size unless it was configured. */
  ghost predicate Served(b: Builder, geo: Geometry, cfg: Config, firstDbName: string)
    requires geo.lbaSize >= 512 && |b.databases| == MAX_DATABASES && b.dbIdx <= MAX_DATABASES
  {
    var n := |cfg.dbConfigs|;
    && n <= b.dbIdx <= n + 1
    && (forall i :: 0 <= i < n ==>
          OfBytes(b.databases[i], cfg.dbConfigs[i].0, cfg.dbConfigs[i].1, cfg.maxWalSize, geo.lbaSize))
    && (b.dbIdx == n <==> Named(b.databases, n, firstDbName))
    && (b.dbIdx > n ==> OfBytes(b.databases[n], firstDbName, cfg.defaultDbSize, cfg.maxWalSize, geo.lbaSize))
  }

  /** After a successful initialisation every database has the size it asks for. */
  lemma BuildServed(geo: Geometry, cfg: Config, firstDbName: string)
    requires Sane(geo, cfg) && Lbas(cfg.maxTempSize, geo) <= geo.lbaCount && Build(geo, cfg, firstDbName).Some?
    ensures geo.lbaSize >= 512 && Served(Build(geo, cfg, firstDbName).value, geo, cfg, firstDbName)
  {
    hide OfSize, Layout, RegisterDB, RegisterEach, Lbas, Sane, Named, Wrapped, TmpStart;
    hide Built, Served, Build;
    SaneSize(geo, cfg);
    var b := Blank(geo, cfg);
    var walLbas := Lbas(cfg.maxWalSize, geo);
    SaneFacts(geo, cfg);
    BlankBuilt(geo, cfg);
    BuildIs(geo, cfg, firstDbName);
    EachBuilt(b, cfg.dbConfigs, walLbas, geo);
    var c := RegisterEach(b, cfg.dbConfigs, walLbas, geo).value;
    if !Named(c.databases, c.dbIdx, firstDbName) {
      RegisterBuilt(c, firstDbName, Lbas(cfg.defaultDbSize, geo), walLbas);
      SamePrefixNamed(c.databases, Build(geo, cfg, firstDbName).value.databases, c.dbIdx, firstDbName);
    }
    IsServed(Build(geo, cfg, firstDbName).value, geo, cfg, firstDbName);
  }

  lemma BuildIs(geo: Geometry, cfg: Config, firstDbName: string)
    requires geo.lbaSize >= 512 && Build(geo, cfg, firstDbName).Some?
    ensures cfg.dbConfigs != []
    ensures var walLbas := Lbas(cfg.maxWalSize, geo);
            var r := RegisterEach(Blank(geo, cfg), cfg.dbConfigs, walLbas, geo);
            && r.Some? && r.value.dbIdx <= MAX_DATABASES
            && Build(geo, cfg, firstDbName)
               == if Named(r.value.databases, r.value.dbIdx, firstDbName) then r
                  else RegisterDB(r.value, firstDbName, Lbas(cfg.defaultDbSize, geo), walLbas)
  {
    hide RegisterDB, RegisterEach, Lbas, Named, Wrapped, TmpStart;
    if cfg.dbConfigs == [] { NoConfigAlwaysThrows(geo, cfg, firstDbName); }
  }

  lemma IsServed(b: Builder, geo: Geometry, cfg: Config, firstDbName: string)
    requires geo.lbaSize >= 512 && |b.databases| == MAX_DATABASES && b.dbIdx <= MAX_DATABASES
    requires |cfg.dbConfigs| <= b.dbIdx <= |cfg.dbConfigs| + 1
    requires forall i :: 0 <= i < |cfg.dbConfigs| ==>
      OfSize(b.databases[i], cfg.dbConfigs[i].0, Lbas(cfg.dbConfigs[i].1, geo), Lbas(cfg.maxWalSize, geo))
    requires b.dbIdx == |cfg.dbConfigs| <==> Named(b.databases, |cfg.dbConfigs|, firstDbName)
    requires b.dbIdx > |cfg.dbConfigs| ==>
      OfSize(b.databases[|cfg.dbConfigs|], firstDbName, Lbas(cfg.defaultDbSize, geo), Lbas(cfg.maxWalSize, geo))
    ensures Served(b, geo, cfg, firstDbName)
  {
    hide OfSize, OfBytes, Lbas, Named;
    var n := |cfg.dbConfigs|;
    forall i | 0 <= i < n
      ensures OfBytes(b.databases[i], cfg.dbConfigs[i].0, cfg.dbConfigs[i].1, cfg.maxWalSize, geo.lbaSize)
    {
      SizedInBytes(b.databases[i], cfg.dbConfigs[i].0, cfg.dbConfigs[i].1, cfg.maxWalSize, geo);
    }
    if b.dbIdx > n { SizedInBytes(b.databases[n], firstDbName, cfg.defaultDbSize, cfg.maxWalSize, geo); }
  }

  // ---------------------------------------------------------------- when it succeeds

  /** LBAs of the configured databases and their WALs. */
  function Needs(configs: seq<(string, nat)>, walLbas: nat, geo: Geometry): nat
    requires geo.lbaSize >= 512
  {
    if configs == [] then 0 else Lbas(configs[0].1, geo) + walLbas + Needs(configs[1..], walLbas, geo)
  }

  /** The name is that of a configured database, as the table keeps it. */
  predicate Listed(configs: seq<(string, nat)>, name: string) {
    exists i :: 0 <= i < |configs| && Cut(configs[i].0) == name
  }

  /** No sum of the initialisation wraps, whatever the start of the temporary area. */
  ghost predicate Small(b: Builder) {
    b.currentLba <= 1 + b.dbIdx * (U64 / 256)
  }

  lemma RegisterExactly(b: Builder, name: string, requestedLbas: nat, walLbas: nat)
    requires |b.databases| == MAX_DATABASES && Small(b) && requestedLbas < U64 / 512 && walLbas < U64 / 512
    ensures var r := RegisterDB(b, name, requestedLbas, walLbas);
            && (r.Some? <==> b.dbIdx < MAX_DATABASES && b.currentLba + requestedLbas + walLbas < b.tmpStart)
            && (r.Some? ==>
                  && Small(r.value) && r.value.currentLba == b.currentLba + requestedLbas + walLbas
                  && r.value.databases == b.databases[b.dbIdx := r.value.databases[b.dbIdx]]
                  && r.value.databases[b.dbIdx].dbPath == Cut(name))
  {
    hide Wrapped, Cut;
    if b.dbIdx < MAX_DATABASES {
      assert b.currentLba + requestedLbas + walLbas < U64;
    }
  }

  lemma {:induction false} EachExactly(b: Builder, configs: seq<(string, nat)>, walLbas: nat, geo: Geometry)
    requires |b.databases| == MAX_DATABASES && Small(b) && geo.lbaSize >= 512 && walLbas < U64 / 512
    requires forall i :: 0 <= i < |configs| ==> configs[i].1 < U64
    ensures RegisterEach(b, configs, walLbas, geo).Some? <==>
            configs == []
            || (b.dbIdx + |configs| <= MAX_DATABASES && b.currentLba + Needs(configs, walLbas, geo) < b.tmpStart)
    ensures var r := RegisterEach(b, configs, walLbas, geo);
            r.Some? ==> Small(r.value) && r.value.currentLba == b.currentLba + Needs(configs, walLbas, geo)
    decreases |configs|
  {
    hide Small, RegisterDB, Lbas, Cut;
    if configs != [] {
      RegisterExactly(b, configs[0].0, Lbas(configs[0].1, geo), walLbas);
      var r := RegisterDB(b, configs[0].0, Lbas(configs[0].1, geo), walLbas);
      if r.Some? {
        EachExactly(r.value, configs[1..], walLbas, geo);
      }
    }
  }

  /** Each slot is named after its configured database. */
  lemma {:induction false} EachNamed(b: Builder, configs: seq<(string, nat)>, walLbas: nat, geo: Geometry)
    requires |b.databases| == MAX_DATABASES && geo.lbaSize >= 512 && RegisterEach(b, configs, walLbas, geo).Some?
    ensures var c := RegisterEach(b, configs, walLbas, geo).value;
            && (configs != [] ==> c.dbIdx <= MAX_DATABASES)
            && (forall i :: 0 <= i < b.dbIdx && i < MAX_DATABASES ==> c.databases[i] == b.databases[i])
            && forall i :: b.dbIdx <= i < c.dbIdx ==>
                 i < MAX_DATABASES && c.databases[i].dbPath == Cut(configs[i - b.dbIdx].0)
    decreases |configs|
  {
    hide Lbas, Cut, Wrapped;
    if configs != [] {
      var c := RegisterDB(b, configs[0].0, Lbas(configs[0].1, geo), walLbas).value;
      EachNamed(c, configs[1..], walLbas, geo);
    }
  }

  /** What initialisation needs: the configured databases, and the one being opened unless it is
      one of them. */
  function SlotsNeeded(cfg: Config, firstDbName: string): nat {
    |cfg.dbConfigs| + if Listed(cfg.dbConfigs, firstDbName) then 0 else 1
  }

  function RoomNeeded(geo: Geometry, cfg: Config, firstDbName: string): nat
    requires geo.lbaSize >= 512
  {
    var walLbas := Lbas(cfg.maxWalSize, geo);
    Needs(cfg.dbConfigs, walLbas, geo)
      + if Listed(cfg.dbConfigs, firstDbName) then 0 else Lbas(cfg.defaultDbSize, geo) + walLbas
  }

  lemma SameNames(configs: seq<(string, nat)>, d: seq<Region>, name: string)
    requires |configs| <= |d| && forall i :: 0 <= i < |configs| ==> d[i].dbPath == Cut(configs[i].0)
    ensures Named(d, |configs|, name) <==> Listed(configs, name)
  {
    hide Cut;
    if i :| 0 <= i < |configs| && Cut(configs[i].0) == name { assert d[i].dbPath == name; }
  }

  lemma ConfiguredNames(geo: Geometry, cfg: Config, firstDbName: string)
    requires geo.lbaSize >= 512 && RegisterEach(Blank(geo, cfg), cfg.dbConfigs, Lbas(cfg.maxWalSize, geo), geo).Some?
    ensures var c := RegisterEach(Blank(geo, cfg), cfg.dbConfigs, Lbas(cfg.maxWalSize, geo), geo).value;
            Named(c.databases, c.dbIdx, firstDbName) <==> Listed(cfg.dbConfigs, firstDbName)
  {
    hide Lbas, RegisterEach, Cut, TmpStart, Named, Listed;
    var walLbas := Lbas(cfg.maxWalSize, geo);
    EachNamed(Blank(geo, cfg), cfg.dbConfigs, walLbas, geo);
    var c := RegisterEach(Blank(geo, cfg), cfg.dbConfigs, walLbas, geo).value;
    SameNames(cfg.dbConfigs, c.databases, firstDbName);
  }

  /** Initialisation succeeds exactly when there are configured databases, and those and the one
      being opened fit the table and the LBAs below the temporary area. */
  lemma BuildSucceedsExactly(geo: Geometry, cfg: Config, firstDbName: string)
    requires Sane(geo, cfg)
    ensures geo.lbaSize >= 512
    ensures Build(geo, cfg, firstDbName).Some? <==>
            && cfg.dbConfigs != [] && SlotsNeeded(cfg, firstDbName) <= 16
            && 1 + RoomNeeded(geo, cfg, firstDbName) < TmpStart(geo, cfg)
  {
    SaneSize(geo, cfg);
    hide Lbas, RegisterEach, RegisterDB, Named, Listed, TmpStart, Wrapped;
    if cfg.dbConfigs == [] {
      NoConfigAlwaysThrows(geo, cfg, firstDbName);
    } else {
      var walLbas := Lbas(cfg.maxWalSize, geo);
      EachExactly(Blank(geo, cfg), cfg.dbConfigs, walLbas, geo);
      var r := RegisterEach(Blank(geo, cfg), cfg.dbConfigs, walLbas, geo);
      if r.Some? {
        ConfiguredNames(geo, cfg, firstDbName);
        RegisterExactly(r.value, firstDbName, Lbas(cfg.defaultDbSize, geo), walLbas);
      }
    }
  }

  /** The names, cut to their fields, are distinct: the configured ones, and that of the database
      being opened, which may also be among them. */
  ghost predicate NamesKeptApart(cfg: Config, firstDbName: string) {
    && (forall i, j :: 0 <= i < j < |cfg.dbConfigs| ==> Cut(cfg.dbConfigs[i].0) != Cut(cfg.dbConfigs[j].0))
    && (Listed(cfg.dbConfigs, firstDbName) || !Listed(cfg.dbConfigs, Cut(firstDbName)))
  }

  lemma RegisteredName(b: Builder, name: string, requestedLbas: nat, walLbas: nat)
    requires |b.databases| == MAX_DATABASES && RegisterDB(b, name, requestedLbas, walLbas).Some?
    ensures var c := RegisterDB(b, name, requestedLbas, walLbas).value;
            && b.dbIdx < MAX_DATABASES && c.databases == b.databases[b.dbIdx := c.databases[b.dbIdx]]
            && c.databases[b.dbIdx].dbPath == Cut(name)
  {
    hide Wrapped, Cut;
  }

  lemma BuildNames(geo: Geometry, cfg: Config, firstDbName: string)
    requires Sane(geo, cfg) && geo.lbaSize >= 512 && Build(geo, cfg, firstDbName).Some?
    ensures var b := Build(geo, cfg, firstDbName).value;
            UniqueNames(b.databases, b.dbIdx) <==> NamesKeptApart(cfg, firstDbName)
  {
    hide Build, Lbas, RegisterEach, RegisterDB, Cut, TmpStart, UniqueNames, NamesKeptApart, Named, Listed, Sane;
    BuildIs(geo, cfg, firstDbName);
    var walLbas := Lbas(cfg.maxWalSize, geo);
    EachNamed(Blank(geo, cfg), cfg.dbConfigs, walLbas, geo);
    ConfiguredNames(geo, cfg, firstDbName);
    var c := RegisterEach(Blank(geo, cfg), cfg.dbConfigs, walLbas, geo).value;
    if !Listed(cfg.dbConfigs, firstDbName) {
      RegisteredName(c, firstDbName, Lbas(cfg.defaultDbSize, geo), walLbas);
    }
    var d := Build(geo, cfg, firstDbName).value;
    NamesApart(cfg, firstDbName, c.databases, d.databases, d.dbIdx);
  }

  lemma NamesApart(cfg: Config, firstDbName: string, c: seq<Region>, d: seq<Region>, n: nat)
    requires |cfg.dbConfigs| <= n <= |d| == |c|
    requires forall i :: 0 <= i < |cfg.dbConfigs| ==> c[i].dbPath == Cut(cfg.dbConfigs[i].0)
    requires if Listed(cfg.dbConfigs, firstDbName) then d == c && n == |cfg.dbConfigs|
             else n == |cfg.dbConfigs| + 1 && d == c[n - 1 := d[n - 1]] && d[n - 1].dbPath == Cut(firstDbName)
    ensures UniqueNames(d, n) <==> NamesKeptApart(cfg, firstDbName)
  {
    hide Cut;
    var m := |cfg.dbConfigs|;
    assert forall i :: 0 <= i < m ==> d[i].dbPath == Cut(cfg.dbConfigs[i].0);
  }

  ghost predicate StableConfigs(configs: seq<(string, nat)>) {
    && (forall i :: 0 <= i < |configs| ==> Stable(configs[i].0) && configs[i].1 < U64)
    && forall i, j :: 0 <= i < j < |configs| ==> configs[i].0 != configs[j].0
  }

  /** Names that fit are kept as they are. */
  lemma StableApart(cfg: Config, firstDbName: string)
    requires Stable(firstDbName) && StableConfigs(cfg.dbConfigs)
    ensures NamesKeptApart(cfg, firstDbName)
  {
    hide Cut;
    CutIs(firstDbName);
    forall i | 0 <= i < |cfg.dbConfigs| ensures Cut(cfg.dbConfigs[i].0) == cfg.dbConfigs[i].0 {
      CutIs(cfg.dbConfigs[i].0);
    }
  }

  /** The layout holds too, the names are unique exactly when they are as the fields keep them, and
      the database being opened is in the table exactly when its name fits. */
  lemma BuildLayout(geo: Geometry, cfg: Config, firstDbName: string)
    requires Sane(geo, cfg) && Lbas(cfg.maxTempSize, geo) <= geo.lbaCount && Build(geo, cfg, firstDbName).Some?
    ensures var b := Build(geo, cfg, firstDbName).value;
            && Layout(b.tmpStart, b.databases, b.dbIdx) && b.tmpStart <= geo.lbaCount && b.dbIdx >= 1
            && (UniqueNames(b.databases, b.dbIdx) <==> NamesKeptApart(cfg, firstDbName))
            && (Named(b.databases, b.dbIdx, firstDbName) <==> Stable(firstDbName))
  {
    SaneSize(geo, cfg);
    hide OfSize, Layout, RegisterDB, RegisterEach, Lbas, Sane, Named;
    var b := Blank(geo, cfg);
    var walLbas := Lbas(cfg.maxWalSize, geo);
    SaneFacts(geo, cfg);
    BlankBuilt(geo, cfg);
    if cfg.dbConfigs == [] {
      NoConfigAlwaysThrows(geo, cfg, firstDbName);
    } else {
      EachBuilt(b, cfg.dbConfigs, walLbas, geo);
      var c := RegisterEach(b, cfg.dbConfigs, walLbas, geo).value;
      BuildNames(geo, cfg, firstDbName);
      NamedStable(Build(geo, cfg, firstDbName).value, firstDbName);
      if !Named(c.databases, c.dbIdx, firstDbName) {
        RegisterBuilt(c, firstDbName, Lbas(cfg.defaultDbSize, geo), walLbas);
        var d := Build(geo, cfg, firstDbName).value;
        OfSizeName(d.databases[c.dbIdx], firstDbName, Lbas(cfg.defaultDbSize, geo), walLbas);
      }
    }
  }

  lemma SamePrefixNamed(d: seq<Region>, e: seq<Region>, n: nat, name: string)
    requires n <= |d| && n <= |e| && forall i :: 0 <= i < n ==> d[i] == e[i]
    ensures Named(d, n, name) <==> Named(e, n, name)
  {
  }

  /** Only a name that fits can be in the table. */
  lemma NamedStable(b: Builder, name: string)
    requires |b.databases| == MAX_DATABASES && b.dbIdx <= MAX_DATABASES
    ensures Built(b) && Named(b.databases, b.dbIdx, name) ==> Stable(name)
    ensures b.dbIdx >= 1 && b.databases[b.dbIdx - 1].dbPath == Cut(name) && Stable(name) ==>
      Named(b.databases, b.dbIdx, name)
  {
    CutIs(name);
  }

  lemma SaneSize(geo: Geometry, cfg: Config)
    requires Sane(geo, cfg)
    ensures geo.lbaSize >= 512
  {
  }

  lemma SaneFacts(geo: Geometry, cfg: Config)
    requires Sane(geo, cfg) && Lbas(cfg.maxTempSize, geo) <= geo.lbaCount
    ensures TmpStart(geo, cfg) <= geo.lbaCount <= U64 / 512
    ensures Lbas(cfg.maxWalSize, geo) <= U64 / 512 && Lbas(cfg.defaultDbSize, geo) <= U64 / 512
    ensures forall i :: 0 <= i < |cfg.dbConfigs| ==> cfg.dbConfigs[i].1 < U64
  {
    TmpStartIs(geo, cfg);
    DeviceLbas(geo, cfg);
  }

  lemma BlankBuilt(geo: Geometry, cfg: Config)
    requires geo.lbaSize >= 512
    ensures Built(Blank(geo, cfg))
  {
    hide Lbas;
  }

  // ---------------------------------------------------------------- AllocateNewDatabaseRegion

  ghost predicate GlobalOk(g: Global) {
    Layout(g.tmpStart, g.databases, g.activeDatabases) && g.tmpStart <= U64 / 512
  }

  function ConfigSize(configs: seq<(string, nat)>, name: string, other: nat): nat {
    if configs == [] then other
    else if configs[0].0 == name then configs[0].1
    else ConfigSize(configs[1..], name, other)
  }

  /** The highest WAL end of the active regions, at least 1. */
  function Highest(databases: seq<Region>): (h: nat)
    ensures h >= 1 && forall i :: 0 <= i < |databases| && databases[i].isActive ==> databases[i].walEnd <= h
    ensures h == 1 || exists i :: 0 <= i < |databases| && databases[i].isActive && databases[i].walEnd == h
  {
    if databases == [] then 1 else
    var n := |databases| - 1;
    var h := Highest(databases[..n]);
    assert databases == databases[..n] + [databases[n]];
    if databases[n].isActive && databases[n].walEnd > h then databases[n].walEnd else h
  }

  /** The first slot from `i` on that is not in use; the number of slots when there is none. */
  function FreeSlot(databases: seq<Region>, i: nat): (r: nat)
    requires i <= |databases|
    ensures i <= r <= |databases| && (r < |databases| ==> !databases[r].isActive)
    ensures forall j :: i <= j < r ==> databases[j].isActive
    decreases |databases| - i
  {
    if i == |databases| || !databases[i].isActive then i else FreeSlot(databases, i + 1)
  }

  /** The first configuration under that name. */
  ghost predicate FirstUnder(configs: seq<(string, nat)>, name: string, i: int) {
    0 <= i < |configs| && configs[i].0 == name && forall j :: 0 <= j < i ==> configs[j].0 != name
  }

  /** The bytes a database that is not there yet is to have: configured under its name or default. */
  ghost predicate AskedFor(cfg: Config, name: string, bytes: nat) {
    if exists i :: 0 <= i < |cfg.dbConfigs| && cfg.dbConfigs[i].0 == name
    then exists i :: FirstUnder(cfg.dbConfigs, name, i) && bytes == cfg.dbConfigs[i].1
    else bytes == cfg.defaultDbSize
  }

  lemma {:induction false} ConfigSizeIs(configs: seq<(string, nat)>, name: string, other: nat)
    ensures forall i :: FirstUnder(configs, name, i) ==> ConfigSize(configs, name, other) == configs[i].1
    ensures (forall i :: !FirstUnder(configs, name, i)) ==> ConfigSize(configs, name, other) == other
    ensures (exists i :: 0 <= i < |configs| && configs[i].0 == name) ==> exists i :: FirstUnder(configs, name, i)
  {
    if configs != [] && configs[0].0 == name {
      assert FirstUnder(configs, name, 0);
    } else if configs != [] {
      ConfigSizeIs(configs[1..], name, other);
      forall i | FirstUnder(configs, name, i) ensures i > 0 && FirstUnder(configs[1..], name, i - 1) {}
      forall i | FirstUnder(configs[1..], name, i) ensures FirstUnder(configs, name, i + 1) {}
      if k :| 0 <= k < |configs| && configs[k].0 == name {
        assert configs[1..][k - 1].0 == name;
        var i :| FirstUnder(configs[1..], name, i);
        assert FirstUnder(configs, name, i + 1);
      }
    }
  }

  lemma ConfigSizeAsked(cfg: Config, name: string)
    ensures AskedFor(cfg, name, ConfigSize(cfg.dbConfigs, name, cfg.defaultDbSize))
  {
    hide ConfigSize;
    ConfigSizeIs(cfg.dbConfigs, name, cfg.defaultDbSize);
  }

  datatype AllocateResult = MaxReached | NoSpace | FellThrough | Allocated(g: Global, slot: nat)

  function AllocateRegion(g: Global, cfg: Config, geo: Geometry, name: string): AllocateResult
    requires |g.databases| == MAX_DATABASES && geo.lbaSize >= 512
  {
    var requestedLbas := Lbas(ConfigSize(cfg.dbConfigs, name, cfg.defaultDbSize), geo);
    var walLbas := Lbas(cfg.maxWalSize, geo);
    var highestLba := Highest(g.databases);
    var slot := FreeSlot(g.databases, 0);
    if g.activeDatabases >= MAX_DATABASES then MaxReached
    else if Wrapped(highestLba + requestedLbas + walLbas) >= g.tmpStart then NoSpace
    else if slot == MAX_DATABASES then FellThrough
    else Allocated(Global(g.tmpStart, g.activeDatabases + 1,
                          g.databases[slot := NewRegion(name, highestLba, requestedLbas, walLbas)]), slot)
  }

  /** The slot that a name is found under; None when there is none. */
  ghost predicate FoundAt(databases: seq<Region>, name: string, i: nat) {
    && i < |databases| && databases[i].isActive && databases[i].dbPath == name
    && forall j :: 0 <= j < i ==> !(databases[j].isActive && databases[j].dbPath == name)
  }

  ghost predicate Absent(databases: seq<Region>, name: string) {
    forall j :: 0 <= j < |databases| ==> !(databases[j].isActive && databases[j].dbPath == name)
  }

  /** The layout is kept, the slot search always finds a slot, a database not there before is found
      in its slot afterwards exactly when its name fits the field, and names stay unique exactly
      when the name as the field keeps it was not there. */
  lemma AllocateLayout(g: Global, cfg: Config, geo: Geometry, name: string)
    requires GlobalOk(g) && Sane(geo, cfg)
    ensures geo.lbaSize >= 512
    ensures var r := AllocateRegion(g, cfg, geo, name);
            var bytes := ConfigSize(cfg.dbConfigs, name, cfg.defaultDbSize);
            && AskedFor(cfg, name, bytes)
            && !r.FellThrough? && (r.MaxReached? <==> g.activeDatabases == 16)
            && (r.NoSpace? <==>
                  && g.activeDatabases < 16
                  && Highest(g.databases) + Lbas(bytes, geo) + Lbas(cfg.maxWalSize, geo) >= g.tmpStart)
            && (r.Allocated? ==>
                  && OfBytes(r.g.databases[r.slot], name, bytes, cfg.maxWalSize, geo.lbaSize)
                  && r.g.databases[r.slot].dbStart == Highest(g.databases)
                  && GlobalOk(r.g) && r.slot == g.activeDatabases
                  && r.g.databases == g.databases[r.slot := r.g.databases[r.slot]]
                  && (Absent(g.databases, name) ==> (FoundAt(r.g.databases, name, r.slot) <==> Stable(name)))
                  && (UniqueNames(r.g.databases, r.g.activeDatabases) <==>
                        UniqueNames(g.databases, g.activeDatabases)
                          && !Named(g.databases, g.activeDatabases, Cut(name))))
  {
    var r := AllocateRegion(g, cfg, geo, name);
    var size := ConfigSize(cfg.dbConfigs, name, cfg.defaultDbSize);
    ConfigSizeBound(cfg.dbConfigs, name, cfg.defaultDbSize);
    ConfigSizeAsked(cfg, name);
    SlotIs(g);
    HighestBound(g);
    hide AskedFor, ConfigSize, OfBytes, Cut;
    if r.Allocated? {
      var n := g.activeDatabases;
      var region := NewRegion(name, Highest(g.databases), Lbas(size, geo), Lbas(cfg.maxWalSize, geo));
      NewRegionPlaced(g, name, Lbas(size, geo), Lbas(cfg.maxWalSize, geo));
      AppendRegion(g.tmpStart, g.databases, n, region);
      NewRegionFound(g.databases, n, region, name);
      SizedInBytes(region, name, size, cfg.maxWalSize, geo);
    }
  }

  lemma SlotIs(g: Global)
    requires GlobalOk(g)
    ensures FreeSlot(g.databases, 0) == g.activeDatabases
  {
    var k := FreeSlot(g.databases, 0);
    assert k < MAX_DATABASES ==> !g.databases[k].isActive;
    assert g.activeDatabases < MAX_DATABASES ==> !g.databases[g.activeDatabases].isActive;
  }

  lemma NewRegionPlaced(g: Global, name: string, requestedLbas: nat, walLbas: nat)
    requires GlobalOk(g) && requestedLbas < U64 / 512 && walLbas < U64 / 512
    requires Wrapped(Highest(g.databases) + requestedLbas + walLbas) < g.tmpStart
    ensures var region := NewRegion(name, Highest(g.databases), requestedLbas, walLbas);
            && Placed(region, g.tmpStart) && OfSize(region, name, requestedLbas, walLbas)
            && forall i :: 0 <= i < g.activeDatabases ==> g.databases[i].walEnd <= region.dbStart
  {
    HighestBound(g);
  }

  lemma HighestBound(g: Global)
    requires GlobalOk(g)
    ensures Highest(g.databases) <= U64 / 512
  {
    hide Highest;
  }

  lemma NewRegionFound(d: seq<Region>, n: nat, region: Region, name: string)
    requires n < |d| && region.isActive && region.dbPath == Cut(name)
    requires forall i :: 0 <= i < |d| ==> (d[i].isActive <==> i < n)
    ensures Absent(d, name) ==> (FoundAt(d[n := region], name, n) <==> Stable(name))
    ensures UniqueNames(d[n := region], n + 1) <==> UniqueNames(d, n) && !Named(d, n, Cut(name))
  {
    hide Cut;
    CutIs(name);
    var e := d[n := region];
    if UniqueNames(e, n + 1) {
      forall i, j | 0 <= i < j < n ensures d[i].dbPath != d[j].dbPath {
        assert e[i] == d[i] && e[j] == d[j];
      }
      forall i | 0 <= i < n ensures d[i].dbPath != Cut(name) {
        assert e[i] == d[i] && e[n] == region;
      }
    }
  }

  lemma CutIs(name: string)
    ensures Cut(name) == name <==> Stable(name)
  {
  }

  lemma {:induction false} ConfigSizeBound(configs: seq<(string, nat)>, name: string, other: nat)
    requires other < U64 && forall i :: 0 <= i < |configs| ==> configs[i].1 < U64
    ensures ConfigSize(configs, name, other) < U64
  {
    if configs != [] {
      ConfigSizeBound(configs[1..], name, other);
    }
  }

  // ---------------------------------------------------------------- metadata on the device

  /** The watermarks the running file system keeps for one database. */
  datatype Runtime = Runtime(dbLocation: nat, walLocation: nat)

  function SyncedRegion(r: Region, dbs: map<string, Runtime>): Region {
    if r.isActive && r.dbPath in dbs
    then r.(dbLocation := dbs[r.dbPath].dbLocation, walLocation := dbs[r.dbPath].walLocation)
    else r
  }

  /** The metadata as it is written out: with the current watermarks. */
  function Synced(g: Global, dbs: map<string, Runtime>): (r: Global)
    ensures |r.databases| == |g.databases|
  {
    g.(databases := seq(|g.databases|, i requires 0 <= i < |g.databases| => SyncedRegion(g.databases[i], dbs)))
  }

  /** Nothing but the watermarks of open databases changes. */
  lemma SyncedKeeps(g: Global, dbs: map<string, Runtime>, i: nat)
    requires i < |g.databases|
    ensures var s := Synced(g, dbs); var r, q := g.databases[i], s.databases[i];
            && s.tmpStart == g.tmpStart && s.activeDatabases == g.activeDatabases
            && q.dbPath == r.dbPath && q.isActive == r.isActive
            && q.dbStart == r.dbStart && q.walStart == r.walStart && q.walEnd == r.walEnd
            && (q != r ==> r.isActive && r.dbPath in dbs)
            && (r.isActive && r.dbPath in dbs ==> Runtime(q.dbLocation, q.walLocation) == dbs[r.dbPath])
  {
  }

  /** What a mount makes of the metadata it reads. */
  function Mounted(databases: seq<Region>): map<string, Runtime> {
    if databases == [] then map[] else
    var r := databases[|databases| - 1];
    var m := Mounted(databases[..|databases| - 1]);
    if r.isActive then m[r.dbPath := Runtime(r.dbLocation, r.walLocation)] else m
  }

  lemma {:induction false} MountedAt(databases: seq<Region>, n: nat, i: nat)
    requires |databases| <= MAX_DATABASES && n <= |databases|
    requires forall j :: 0 <= j < |databases| ==> (databases[j].isActive <==> j < n)
    requires UniqueNames(databases, n) && i < n
    ensures var m := Mounted(databases); var r := databases[i];
            r.dbPath in m && m[r.dbPath] == Runtime(r.dbLocation, r.walLocation)
    decreases |databases|
  {
    var k := |databases| - 1;
    if i < k {
      MountedAt(databases[..k], if n <= k then n else k, i);
    }
  }

  lemma {:induction false} MountedKeys(databases: seq<Region>)
    ensures forall s :: s in Mounted(databases) ==>
      exists i :: 0 <= i < |databases| && databases[i].isActive && databases[i].dbPath == s
  {
    if databases != [] {
      var k := |databases| - 1;
      MountedKeys(databases[..k]);
      forall s | s in Mounted(databases)
        ensures exists i :: 0 <= i < |databases| && databases[i].isActive && databases[i].dbPath == s
      {
        if s in Mounted(databases[..k]) {
          var i :| 0 <= i < k && databases[..k][i].isActive && databases[..k][i].dbPath == s;
          assert databases[i].dbPath == s;
        } else {
          assert databases[k].dbPath == s;
        }
      }
    }
  }

  /** Writing the metadata out and mounting it again brings back every database's watermarks. */
  lemma RemountRestores(g: Global, dbs: map<string, Runtime>)
    requires GlobalOk(g) && UniqueNames(g.databases, g.activeDatabases)
    requires forall s :: s in dbs <==> exists i :: 0 <= i < g.activeDatabases && g.databases[i].dbPath == s
    ensures Mounted(Synced(g, dbs).databases) == dbs
  {
    hide Mounted;
    var d := Synced(g, dbs).databases;
    MountedKeys(d);
    forall s | s in dbs ensures s in Mounted(d) && Mounted(d)[s] == dbs[s] {
      var i :| 0 <= i < g.activeDatabases && g.databases[i].dbPath == s;
      SyncedAt(g, dbs, i);
      MountedAt(d, g.activeDatabases, i);
    }
    forall s | s in Mounted(d) ensures s in dbs {
      var i :| 0 <= i < |d| && d[i].isActive && d[i].dbPath == s;
      SyncedAt(g, dbs, i);
    }
  }

  lemma SyncedAt(g: Global, dbs: map<string, Runtime>, i: nat)
    requires GlobalOk(g) && UniqueNames(g.databases, g.activeDatabases) && i < MAX_DATABASES
    ensures var d := Synced(g, dbs).databases;
            && |d| == MAX_DATABASES && d[i].dbPath == g.databases[i].dbPath
            && (d[i].isActive <==> i < g.activeDatabases)
            && (d[i].isActive && d[i].dbPath in dbs ==> Runtime(d[i].dbLocation, d[i].walLocation) == dbs[d[i].dbPath])
            && (forall j :: 0 <= j < |d| ==> (d[j].isActive <==> j < g.activeDatabases))
            && UniqueNames(d, g.activeDatabases)
  {
  }

  /** Watermarks within their regions. */
  ghost predicate Watermarked(g: Global, dbs: map<string, Runtime>) {
    forall i :: 0 <= i < g.activeDatabases && i < |g.databases| && g.databases[i].dbPath in dbs ==>
      Placed(SyncedRegion(g.databases[i], dbs), g.tmpStart)
  }

  /** A watermark as a mount or an allocation starts it, with no loop running. */
  function MarkOf(lo: nat, hi: nat, location: nat): Watermarks.Mark {
    Watermarks.Mark(lo, hi, location, map[], [])
  }

  /** Some interleaving of non-empty writes, truncations and resets takes the mark there. */
  ghost predicate RunsTo(m: Watermarks.Mark, location: nat) {
    exists es: seq<Watermarks.Event> :: Watermarks.Legal(m, es) && Watermarks.Run(m, es).location == location
                 && forall e: Watermarks.Event :: e in es && e.BeginWrite? ==> e.nrLbas > 0
  }

  /** The running watermarks of a database are what its writes made of those in the metadata. */
  ghost predicate Reached(r: Region, s: Runtime) {
    RunsTo(MarkOf(r.dbStart, r.walStart, r.dbLocation), s.dbLocation)
      && RunsTo(MarkOf(r.walStart, r.walEnd, r.walLocation), s.walLocation)
  }

  lemma RunsInside(lo: nat, hi: nat, from: nat, location: nat)
    requires lo <= from <= hi && RunsTo(MarkOf(lo, hi, from), location)
    ensures lo <= location <= hi
  {
    var m := MarkOf(lo, hi, from);
    var es: seq<Watermarks.Event> :| Watermarks.Legal(m, es) && Watermarks.Run(m, es).location == location
              && forall e: Watermarks.Event :: e in es && e.BeginWrite? ==> e.nrLbas > 0;
    Watermarks.RunSafe(m, es);
  }

  /** Whatever was written, truncated and reset since a mount, the watermarks are inside their
      regions, and the metadata written out with them keeps the layout. */
  lemma SyncedLayout(g: Global, dbs: map<string, Runtime>)
    requires GlobalOk(g)
    requires forall i :: 0 <= i < g.activeDatabases && g.databases[i].dbPath in dbs ==>
      Reached(g.databases[i], dbs[g.databases[i].dbPath])
    ensures Watermarked(g, dbs) && GlobalOk(Synced(g, dbs))
  {
    forall i | 0 <= i < g.activeDatabases && g.databases[i].dbPath in dbs
      ensures Placed(SyncedRegion(g.databases[i], dbs), g.tmpStart)
    {
      var r := g.databases[i];
      assert Placed(r, g.tmpStart);
      RunsInside(r.dbStart, r.walStart, r.dbLocation, dbs[r.dbPath].dbLocation);
      RunsInside(r.walStart, r.walEnd, r.walLocation, dbs[r.dbPath].walLocation);
    }
    WatermarkedLayout(g, dbs);
  }

  lemma WatermarkedLayout(g: Global, dbs: map<string, Runtime>)
    requires GlobalOk(g) && Watermarked(g, dbs)
    ensures GlobalOk(Synced(g, dbs))
  {
  }
}
