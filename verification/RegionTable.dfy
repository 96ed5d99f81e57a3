/** The metadata as the file system keeps it: absent until it is initialised or read from LBA 0,
    then changed in place. Each method is proved to do what Regions says. */
module RegionTable {
  import opened Basics
  import opened Regions
  import Watermarks

  class MetadataTable {
    const geo: Geometry
    const config: Config
    var metadata: Option<Global>
    var activeDbs: map<string, Runtime>
    var image: Option<Global>  // the metadata at LBA 0; None stands for bytes without the magic

    constructor (geo: Geometry, config: Config, image: Option<Global>)
      ensures this.geo == geo && this.config == config && this.image == image
      ensures metadata == None && activeDbs == map[]
    {
      this.geo, this.config, this.image := geo, config, image;
      metadata, activeDbs := None, map[];
    }

    ghost predicate Valid()
      reads this
    {
      && geo.lbaSize >= 512
      && (metadata.Some? ==> |metadata.value.databases| == MAX_DATABASES)
      && (image.Some? ==> |image.value.databases| == MAX_DATABASES)
    }

    /** The lookup of a database's slot. */
    method GetRegionForPath(dbName: string) returns (r: Option<nat>)
      ensures match r
              case Some(i) => metadata.Some? && FoundAt(metadata.value.databases, dbName, i)
              case None => metadata.Some? ==> Absent(metadata.value.databases, dbName)
    {
      if metadata.None? {
        return None;
      }
      var databases := metadata.value.databases;
      for i := 0 to |databases|
        invariant forall j :: 0 <= j < i ==> !(databases[j].isActive && databases[j].dbPath == dbName)
      {
        if databases[i].isActive && databases[i].dbPath == dbName {
          return Some(i);
        }
      }
      return None;
    }

    /** Copy the watermarks into the metadata, then write it to LBA 0. */
    method WriteMetadata()
      requires Valid() && metadata.Some?
      modifies `metadata, `image
      ensures Valid() && metadata == Some(Synced(old(metadata).value, activeDbs)) && image == metadata
    {
      var g := metadata.value;
      var databases := g.databases;
      for i := 0 to |databases|
        invariant |databases| == |g.databases|
        invariant forall j :: 0 <= j < |databases| ==>
          databases[j] == if j < i then SyncedRegion(g.databases[j], activeDbs) else g.databases[j]
      {
        databases := databases[i := SyncedRegion(databases[i], activeDbs)];
      }
      assert databases == Synced(g, activeDbs).databases;
      metadata := Some(g.(databases := databases));
      image := metadata;
    }

    /** Reads LBA 0 unless the metadata is already there; takes the watermarks from it. */
    method TryLoadMetadata() returns (ok: bool)
      requires Valid()
      modifies `metadata, `activeDbs
      ensures Valid() && (ok <==> metadata.Some?)
      ensures metadata == if old(metadata).Some? then old(metadata) else image
      ensures activeDbs == if old(metadata).None? && image.Some?
                           then old(activeDbs) + Mounted(image.value.databases) else old(activeDbs)
    {
      if metadata.Some? {
        return true;
      }
      if image.None? {
        return false;
      }
      metadata := image;
      var databases := image.value.databases;
      ghost var before := activeDbs;
      for i := 0 to |databases|
        invariant metadata == image == old(image) && activeDbs == before + Mounted(databases[..i])
      {
        MountStep(databases, i);
        if databases[i].isActive {
          activeDbs := activeDbs[databases[i].dbPath := Runtime(databases[i].dbLocation, databases[i].walLocation)];
        }
      }
      assert databases[..|databases|] == databases;
      ok := true;
    }

    lemma MountStep(databases: seq<Region>, i: nat)
      requires i < |databases|
      ensures Mounted(databases[..i + 1]) ==
        if databases[i].isActive
        then Mounted(databases[..i])[databases[i].dbPath := Runtime(databases[i].dbLocation, databases[i].walLocation)]
        else Mounted(databases[..i])
    {
      assert databases[..i + 1][..i] == databases[..i];
    }

    /** Fails, and then leaves everything as it was, when the regions do not fit. */
    method InitializeMetadata(firstDbName: string) returns (ok: bool)
      requires Valid()
      modifies this
      ensures Valid() && (ok <==> Build(geo, config, firstDbName).Some?)
      ensures !ok ==> unchanged(this)
      ensures ok ==>
        var b := Build(geo, config, firstDbName).value;
        && activeDbs == old(activeDbs) + Mounted(b.databases[..b.dbIdx])
        && metadata == Some(Synced(Global(b.tmpStart, b.dbIdx, b.databases), activeDbs)) && image == metadata
    {
      var r := BuildRegions(firstDbName);
      if r.None? {
        return false;
      }
      var b := r.value;
      BuildStarts(geo, config, firstDbName);
      metadata := Some(Global(b.tmpStart, b.dbIdx, b.databases));
      TakeStarts(b);
      WriteMetadata();
      ok := true;
    }

    method BuildRegions(firstDbName: string) returns (r: Option<Builder>)
      requires geo.lbaSize >= 512
      ensures r == Build(geo, config, firstDbName)
    {
      hide RegisterDB;
      var walLbas := Lbas(config.maxWalSize, geo);
      var b := Blank(geo, config);
      if config.dbConfigs == [] {
        r := RegisterDB(b, firstDbName, Wrapped(b.tmpStart - b.currentLba - walLbas), walLbas);
        return;
      }
      var i := 0;
      while i < |config.dbConfigs|
        invariant i <= |config.dbConfigs| && |b.databases| == MAX_DATABASES
        invariant RegisterEach(b, config.dbConfigs[i..], walLbas, geo)
          == RegisterEach(Blank(geo, config), config.dbConfigs, walLbas, geo)
      {
        assert config.dbConfigs[i..][0] == config.dbConfigs[i]
          && config.dbConfigs[i..][1..] == config.dbConfigs[i + 1..];
        r := RegisterDB(b, config.dbConfigs[i].0, Lbas(config.dbConfigs[i].1, geo), walLbas);
        if r.None? { return; }
        b := r.value;
        i := i + 1;
      }
      var firstAllocated := false;
      for j := 0 to b.dbIdx
        invariant firstAllocated <==> Named(b.databases, j, firstDbName)
      {
        if b.databases[j].dbPath == firstDbName {
          firstAllocated := true;
        }
      }
      if firstAllocated {
        r := Some(b);
      } else {
        r := RegisterDB(b, firstDbName, Lbas(config.defaultDbSize, geo), walLbas);
      }
    }

    /** The watermarks of the regions just made are at their starts. */
    method TakeStarts(b: Builder)
      requires b.dbIdx <= |b.databases| == MAX_DATABASES && AtStart(b)
      modifies `activeDbs
      ensures activeDbs == old(activeDbs) + Mounted(b.databases[..b.dbIdx])
    {
      ghost var before := activeDbs;
      for i := 0 to b.dbIdx
        invariant activeDbs == before + Mounted(b.databases[..i])
      {
        MountStep(b.databases, i);
        activeDbs := activeDbs[b.databases[i].dbPath := Runtime(b.databases[i].dbStart, b.databases[i].walStart)];
      }
    }

    method HighestLba(databases: seq<Region>) returns (highestLba: nat)
      requires |databases| == MAX_DATABASES
      ensures highestLba == Highest(databases)
    {
      highestLba := 1;
      for i := 0 to MAX_DATABASES
        invariant highestLba == Highest(databases[..i])
      {
        assert databases[..i + 1][..i] == databases[..i];
        if databases[i].isActive && databases[i].walEnd > highestLba {
          highestLba := databases[i].walEnd;
        }
      }
      assert databases[..MAX_DATABASES] == databases;
    }

    /** Places a region after all others, in the first free slot. */
    method AllocateNewDatabaseRegion(dbName: string) returns (r: AllocateResult)
      requires Valid() && metadata.Some?
      modifies this
      ensures Valid() && r == AllocateRegion(old(metadata).value, config, geo, dbName)
      ensures !r.Allocated? ==> unchanged(this)
      ensures r.Allocated? ==>
        var region := r.g.databases[r.slot];
        && activeDbs == old(activeDbs)[dbName := Runtime(region.dbStart, region.walStart)]
        && metadata == Some(Synced(r.g, activeDbs)) && image == metadata
      ensures r.Allocated? && Stable(dbName) ==>
        r.slot < |metadata.value.databases| && metadata.value.databases[r.slot] == r.g.databases[r.slot]
    {
      var g := metadata.value;
      if g.activeDatabases >= MAX_DATABASES {
        return MaxReached;
      }
      var requestedBytes := ConfigSize(config.dbConfigs, dbName, config.defaultDbSize);
      var requestedLbas := Lbas(requestedBytes, geo);
      var walLbas := Lbas(config.maxWalSize, geo);
      var highestLba := HighestLba(g.databases);
      if Wrapped(highestLba + requestedLbas + walLbas) >= g.tmpStart {
        return NoSpace;
      }
      for i := 0 to MAX_DATABASES
        invariant FreeSlot(g.databases, i) == FreeSlot(g.databases, 0)
        invariant unchanged(this)
      {
        if !g.databases[i].isActive {
          var region := NewRegion(dbName, highestLba, requestedLbas, walLbas);
          r := Allocated(Global(g.tmpStart, g.activeDatabases + 1, g.databases[i := region]), i);
          metadata := Some(r.g);
          activeDbs := activeDbs[dbName := Runtime(region.dbStart, region.walStart)];
          WriteMetadata();
          return;
        }
      }
      r := FellThrough;
    }

    /** For the root path, given what the temporary files report. */
    method GetAvailableDiskSpace(tempSpace: nat) returns (total: nat)
      requires Valid()
      ensures total == if metadata.None? then 0
                       else Wrapped(SpaceOf(metadata.value.databases, activeDbs, geo.lbaSize) + tempSpace)
    {
      total := 0;
      if metadata.Some? {
        var databases := metadata.value.databases;
        for i := 0 to MAX_DATABASES
          invariant total == SpaceOf(databases[..i], activeDbs, geo.lbaSize)
        {
          assert databases[..i + 1][..i] == databases[..i];
          total := Wrapped(total + RegionSpace(databases[i], activeDbs, geo.lbaSize));
        }
        assert databases[..MAX_DATABASES] == databases;
        total := Wrapped(total + tempSpace);
      }
    }
  }

  // ---------------------------------------------------------------- disk space

  /** The free bytes of all open databases and what the temporary files report, in 64 bits. The sum
      over the databases never wraps, and neither does the total when the report is of free space
      on the device. When the report itself has wrapped, `deficit` below 0, the total is short
      by the deficit, and wraps unless the databases make up for it. */
  lemma DiskSpaceExactly(g: Global, dbs: map<string, Runtime>, lbaSize: nat, lbaCount: nat, tempSpace: nat)
    requires GlobalOk(g) && Watermarked(g, dbs) && g.tmpStart <= lbaCount && lbaCount * lbaSize < U64 && tempSpace < U64
    ensures var free, deficit := FreeLbas(g.databases, dbs), U64 - tempSpace;
            var total := Wrapped(SpaceOf(g.databases, dbs, lbaSize) + tempSpace);
            && 0 <= free && 0 <= free * lbaSize < U64
            && total == (if free * lbaSize < deficit then free * lbaSize + tempSpace else free * lbaSize - deficit)
            && (tempSpace <= (lbaCount - g.tmpStart) * lbaSize ==> total == free * lbaSize + tempSpace)
  {
    TimesMonotone(g.tmpStart, lbaCount, lbaSize);
    SpaceExactly(g, dbs, lbaSize, MAX_DATABASES);
    assert g.databases[..MAX_DATABASES] == g.databases;
    hide FreeLbas, SpaceOf, Layout, Wrapped;
    var free := FreeLbas(g.databases, dbs);
    TimesMonotone(free, g.tmpStart, lbaSize);
    TimesAdd(g.tmpStart, lbaCount - g.tmpStart, lbaSize);
    WrapSum(free * lbaSize, tempSpace);
  }

  lemma WrapSum(a: nat, b: nat)
    requires a < U64 && b < U64
    ensures Wrapped(a + b) == if a + b < U64 then a + b else a + b - U64
  {
  }

  /** What one region adds to the reported space: both watermarks against their bounds. */
  function RegionSpace(r: Region, dbs: map<string, Runtime>, lbaSize: nat): nat {
    if r.isActive && r.dbPath in dbs then
      var s := dbs[r.dbPath];
      Wrapped(Wrapped((r.walStart - r.dbStart) * lbaSize - (s.dbLocation - r.dbStart) * lbaSize)
              + Wrapped((r.walEnd - r.walStart) * lbaSize - (s.walLocation - r.walStart) * lbaSize))
    else 0
  }

  /** It is what the database's file and its WAL report as available, together. */
  lemma RegionSpaceIsFiles(r: Region, dbs: map<string, Runtime>, lbaSize: nat, tmpStart: nat)
    requires r.isActive && r.dbPath in dbs && Placed(SyncedRegion(r, dbs), tmpStart) && tmpStart * lbaSize < U64
    ensures var db := MarkOf(r.dbStart, r.walStart, dbs[r.dbPath].dbLocation);
            var wal := MarkOf(r.walStart, r.walEnd, dbs[r.dbPath].walLocation);
            RegionSpace(r, dbs, lbaSize)
              == Watermarks.AvailableSpace(db, lbaSize) + Watermarks.AvailableSpace(wal, lbaSize)
  {
    var s := dbs[r.dbPath];
    TimesMonotone(r.walEnd, tmpStart, lbaSize);
    TimesMonotone(r.walStart, tmpStart, lbaSize);
    Watermarks.SpaceExactly(MarkOf(r.dbStart, r.walStart, s.dbLocation), lbaSize);
    Watermarks.SpaceExactly(MarkOf(r.walStart, r.walEnd, s.walLocation), lbaSize);
    RegionSpaceIs(r, dbs, lbaSize, tmpStart);
    TimesAdd(r.walStart - s.dbLocation, r.walEnd - s.walLocation, lbaSize);
    hide RegionSpace, Watermarks.AvailableSpace;
  }

  function SpaceOf(databases: seq<Region>, dbs: map<string, Runtime>, lbaSize: nat): nat {
    if databases == [] then 0 else
    var n := |databases| - 1;
    Wrapped(SpaceOf(databases[..n], dbs, lbaSize) + RegionSpace(databases[n], dbs, lbaSize))
  }

  /** LBAs past the watermarks of the open databases. */
  function FreeLbas(databases: seq<Region>, dbs: map<string, Runtime>): int {
    if databases == [] then 0 else
    var n := |databases| - 1;
    var r := databases[n];
    FreeLbas(databases[..n], dbs) + RegionFree(r, dbs)
  }

  function RegionFree(r: Region, dbs: map<string, Runtime>): int {
    if r.isActive && r.dbPath in dbs
    then r.walStart - dbs[r.dbPath].dbLocation + r.walEnd - dbs[r.dbPath].walLocation
    else 0
  }

  lemma RegionSpaceIs(r: Region, dbs: map<string, Runtime>, lbaSize: nat, tmpStart: nat)
    requires r.isActive && r.dbPath in dbs ==> Placed(SyncedRegion(r, dbs), tmpStart)
    requires tmpStart * lbaSize < U64
    ensures 0 <= RegionFree(r, dbs) && RegionSpace(r, dbs, lbaSize) == RegionFree(r, dbs) * lbaSize
    ensures r.isActive && r.dbPath in dbs ==> RegionFree(r, dbs) <= r.walEnd - r.dbStart
  {
    if r.isActive && r.dbPath in dbs {
      var a, b := r.walStart - dbs[r.dbPath].dbLocation, r.walEnd - dbs[r.dbPath].walLocation;
      TimesAdd(a, dbs[r.dbPath].dbLocation - r.dbStart, lbaSize);
      TimesAdd(b, dbs[r.dbPath].walLocation - r.walStart, lbaSize);
      TimesAdd(a, b, lbaSize);
      TimesMonotone(a + b, tmpStart, lbaSize);
    }
  }

  lemma SpaceStep(databases: seq<Region>, dbs: map<string, Runtime>, lbaSize: nat, n: nat, before: nat, free: nat,
                  tmpStart: nat)
    requires 0 < n <= |databases| && before + free <= tmpStart && tmpStart * lbaSize < U64
    requires SpaceOf(databases[..n - 1], dbs, lbaSize) == before * lbaSize
    requires FreeLbas(databases[..n - 1], dbs) == before
    requires RegionSpace(databases[n - 1], dbs, lbaSize) == free * lbaSize && RegionFree(databases[n - 1], dbs) == free
    ensures SpaceOf(databases[..n], dbs, lbaSize) == (before + free) * lbaSize
    ensures FreeLbas(databases[..n], dbs) == before + free
  {
    hide RegionSpace, RegionFree;
    assert databases[..n][..n - 1] == databases[..n - 1];
    TimesAdd(before, free, lbaSize);
    TimesMonotone(before + free, tmpStart, lbaSize);
  }

  /** Over the first `n` slots: no sum wraps, because the regions are disjoint and end below the
      temporary area. */
  lemma {:induction false} SpaceExactly(g: Global, dbs: map<string, Runtime>, lbaSize: nat, n: nat)
    requires GlobalOk(g) && Watermarked(g, dbs) && g.tmpStart * lbaSize < U64 && n <= MAX_DATABASES
    ensures |g.databases| == MAX_DATABASES
    ensures var free := FreeLbas(g.databases[..n], dbs);
            && 0 <= free <= g.tmpStart && SpaceOf(g.databases[..n], dbs, lbaSize) == free * lbaSize
            && forall j :: 0 <= j < g.activeDatabases && n <= j ==> free <= g.databases[j].dbStart
  {
    hide RegionSpace, SyncedRegion, RegionFree, SpaceOf, FreeLbas;
    if n > 0 {
      SpaceExactly(g, dbs, lbaSize, n - 1);
      var r := g.databases[n - 1];
      RegionSpaceIs(r, dbs, lbaSize, g.tmpStart);
      if r.isActive { assert Placed(r, g.tmpStart); }
      NotOpen(r, dbs);
      SpaceStep(g.databases, dbs, lbaSize, n, FreeLbas(g.databases[..n - 1], dbs), RegionFree(r, dbs), g.tmpStart);
    } else {
      EmptySpace(dbs, lbaSize);
    }
  }

  lemma NotOpen(r: Region, dbs: map<string, Runtime>)
    ensures !(r.isActive && r.dbPath in dbs) ==> RegionFree(r, dbs) == 0
  {
  }

  lemma EmptySpace(dbs: map<string, Runtime>, lbaSize: nat)
    ensures SpaceOf([], dbs, lbaSize) == 0 && FreeLbas([], dbs) == 0
  {
  }

  // ---------------------------------------------------------------- new regions

  ghost predicate AtStart(b: Builder) {
    b.dbIdx <= |b.databases| && forall i :: 0 <= i < b.dbIdx ==>
      && b.databases[i].isActive && b.databases[i].dbLocation == b.databases[i].dbStart
      && b.databases[i].walLocation == b.databases[i].walStart
  }

  lemma {:induction false} EachAtStart(b: Builder, configs: seq<(string, nat)>, walLbas: nat, geo: Geometry)
    requires |b.databases| == MAX_DATABASES && geo.lbaSize >= 512 && AtStart(b)
    ensures var r := RegisterEach(b, configs, walLbas, geo); r.Some? ==> AtStart(r.value)
    decreases |configs|
  {
    if configs != [] {
      var r := RegisterDB(b, configs[0].0, Lbas(configs[0].1, geo), walLbas);
      if r.Some? { EachAtStart(r.value, configs[1..], walLbas, geo); }
    }
  }

  lemma BuildStarts(geo: Geometry, cfg: Config, firstDbName: string)
    requires geo.lbaSize >= 512
    ensures var r := Build(geo, cfg, firstDbName); r.Some? ==> AtStart(r.value)
  {
    hide Named, RegisterEach;
    EachAtStart(Blank(geo, cfg), cfg.dbConfigs, Lbas(cfg.maxWalSize, geo), geo);
  }

  // ---------------------------------------------------------------- runs

  /** Opening a database: its region if there is one, else a new one if there is room. */
  ghost function Open(g: Global, cfg: Config, geo: Geometry, name: string): (r: Global)
    requires GlobalOk(g) && Sane(geo, cfg)
    ensures GlobalOk(r)
  {
    AllocateLayout(g, cfg, geo, name);
    if Absent(g.databases, name) && AllocateRegion(g, cfg, geo, name).Allocated?
    then AllocateRegion(g, cfg, geo, name).g else g
  }

  ghost function OpenAll(g: Global, cfg: Config, geo: Geometry, names: seq<string>): (r: Global)
    requires GlobalOk(g) && Sane(geo, cfg)
    ensures GlobalOk(r)
    decreases |names|
  {
    if names == [] then g else OpenAll(Open(g, cfg, geo, names[0]), cfg, geo, names[1..])
  }

  /** Opening the database adds no region under a name the table has already. */
  ghost predicate NoClash(g: Global, cfg: Config, geo: Geometry, name: string)
    requires GlobalOk(g) && geo.lbaSize >= 512
  {
    Absent(g.databases, name) && AllocateRegion(g, cfg, geo, name).Allocated? ==>
      !Named(g.databases, g.activeDatabases, Cut(name))
  }

  ghost predicate NeverClash(g: Global, cfg: Config, geo: Geometry, names: seq<string>)
    requires GlobalOk(g) && Sane(geo, cfg)
    decreases |names|
  {
    names == [] || (NoClash(g, cfg, geo, names[0]) && NeverClash(Open(g, cfg, geo, names[0]), cfg, geo, names[1..]))
  }

  /** Whatever databases are opened, in whatever order: the regions stay ordered, disjoint and below
      the temporary area, and no region moves. Names stay unique exactly when no region is added
      for a name that was cut to one already there, as names that fit never are. */
  lemma {:induction false} OpenAllLayout(g: Global, cfg: Config, geo: Geometry, names: seq<string>)
    requires GlobalOk(g) && Sane(geo, cfg)
    ensures var r := OpenAll(g, cfg, geo, names);
            && GlobalOk(r) && g.activeDatabases <= r.activeDatabases
            && g.activeDatabases <= |r.databases| == |g.databases|
            && r.databases[..g.activeDatabases] == g.databases[..g.activeDatabases]
            && (UniqueNames(r.databases, r.activeDatabases)
                <==> UniqueNames(g.databases, g.activeDatabases) && NeverClash(g, cfg, geo, names))
            && ((forall n :: n in names ==> Stable(n)) ==> NeverClash(g, cfg, geo, names))
    decreases |names|
  {
    hide GlobalOk, UniqueNames, Open, Stable, Sane, NoClash;
    Slots(g);
    if names != [] {
      assert names[0] in names;
      var o, r := Open(g, cfg, geo, names[0]), OpenAll(g, cfg, geo, names);
      OpenLayout(g, cfg, geo, names[0]);
      OpenAllLayout(o, cfg, geo, names[1..]);
      Slots(o);
      Slots(r);
      PrefixOf(r.databases, o.databases, g.databases, o.activeDatabases, g.activeDatabases);
    }
  }

  lemma OpenLayout(g: Global, cfg: Config, geo: Geometry, name: string)
    requires GlobalOk(g) && Sane(geo, cfg)
    ensures var o := Open(g, cfg, geo, name);
            && GlobalOk(o) && g.activeDatabases <= o.activeDatabases <= MAX_DATABASES == |o.databases| == |g.databases|
            && (UniqueNames(o.databases, o.activeDatabases)
                <==> UniqueNames(g.databases, g.activeDatabases) && NoClash(g, cfg, geo, name))
            && (Stable(name) ==> NoClash(g, cfg, geo, name))
            && o.databases[..g.activeDatabases] == g.databases[..g.activeDatabases]
  {
    hide Sane, UniqueNames, AllocateRegion, OfSize, FoundAt;
    AllocateLayout(g, cfg, geo, name);
    CutIs(name);
  }

  lemma Slots(g: Global)
    requires GlobalOk(g)
    ensures g.activeDatabases <= MAX_DATABASES == |g.databases|
  {
  }

  lemma PrefixOf<T>(a: seq<T>, b: seq<T>, c: seq<T>, m: nat, n: nat)
    requires n <= m <= |a| && m <= |b| && n <= |c| && a[..m] == b[..m] && b[..n] == c[..n]
    ensures a[..n] == c[..n]
  {
    assert a[..m][..n] == a[..n] && b[..m][..n] == b[..n];
  }
}
