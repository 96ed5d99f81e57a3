/** The image of the metadata on devices of any LBA size. It is written from LBA 0 on, in as many
    LBAs as it takes, while the layout puts the first database at LBA 1 of every device. */
module MetadataImage {
  import opened Basics
  import opened Device
  import opened Regions
  import opened Translation

  const METADATA_BYTES: nat := 2583  // the magic and the metadata structure

  /** The magic is 7 bytes. The structure is 16 bytes and 160 for each slot: a size, the name and its NUL
      padded to 104, five numbers, and a flag padded to 8. */
  lemma ImageBytes()
    ensures METADATA_BYTES == 7 + 16 + MAX_DATABASES * (8 + 104 + 5 * 8 + 8) && NAME_BYTES + 1 <= 104
  {
  }

  function ImageContext(lbaSize: nat): CmdContext
    requires lbaSize > 0
  {
    CmdContext(METADATA_BYTES, RequiredLbas(METADATA_BYTES, 0, lbaSize), 0, 0)
  }

  lemma ImageFits(lbaSize: nat, lbaCount: nat)
    requires lbaSize > 0 && RequiredLbas(METADATA_BYTES, 0, lbaSize) <= lbaCount
    ensures Fits(ImageContext(lbaSize), lbaSize, lbaCount) && Position(ImageContext(lbaSize), lbaSize) == 0
  {
    hide RequiredLbas;
    RequiredIs(METADATA_BYTES, 0, lbaSize, RequiredLbas(METADATA_BYTES, 0, lbaSize));
  }

  /** The image takes LBA 0 alone exactly when that holds all its bytes. */
  lemma OneLbaExactly(lbaSize: nat)
    requires lbaSize > 0
    ensures RequiredLbas(METADATA_BYTES, 0, lbaSize) == 1 <==> lbaSize >= 2583
  {
    hide RequiredLbas;
    RequiredIs(METADATA_BYTES, 0, lbaSize, 0);
    RequiredIs(METADATA_BYTES, 0, lbaSize, 1);
  }

  /** No image changes a byte of LBAs `[lo, hi)`. */
  ghost predicate Spared(m: seq<Byte>, lbaSize: nat, lbaCount: nat, lo: nat, hi: nat)
    requires lbaSize > 0 && |m| == Times(lbaCount, lbaSize) && RequiredLbas(METADATA_BYTES, 0, lbaSize) <= lbaCount
  {
    ImageFits(lbaSize, lbaCount);
    forall image: seq<Byte>, p: nat ::
      |image| == METADATA_BYTES && Times(lo, lbaSize) <= p < Times(hi, lbaSize) && p < |m| ==>
        FakeWrite(m, ImageContext(lbaSize), lbaSize, lbaCount, image)[p] == m[p]
  }

  /** LBAs of the device are out of the image's reach exactly when there are none of them or they
      start past its bytes. */
  lemma SparedExactly(m: seq<Byte>, lbaSize: nat, lbaCount: nat, lo: nat, hi: nat)
    requires lbaSize > 0 && |m| == Times(lbaCount, lbaSize) && RequiredLbas(METADATA_BYTES, 0, lbaSize) <= lbaCount
    requires hi <= lbaCount
    ensures Spared(m, lbaSize, lbaCount, lo, hi) <==> hi <= lo || 2583 <= Times(lo, lbaSize)
  {
    hide Times, RequiredLbas, Fits, Position;
    ImageFits(lbaSize, lbaCount);
    FitsBytes(ImageContext(lbaSize), lbaSize, lbaCount);
    if hi <= lo {
      TimesMonotone(hi, lo, lbaSize);
    } else if Times(lo, lbaSize) < METADATA_BYTES {
      var p := Times(lo, lbaSize);
      TimesMonotone(lo + 1, hi, lbaSize);
      TimesFacts(lo, lbaSize);
      var image: seq<Byte> := seq(METADATA_BYTES, i requires 0 <= i < METADATA_BYTES => if i == p then !m[p] else 0);
      assert FakeWrite(m, ImageContext(lbaSize), lbaSize, lbaCount, image)[p] == !m[p] != m[p];
    }
  }

  /** The first database a successful initialisation registers starts at LBA 1. */
  lemma BuildFirst(geo: Geometry, cfg: Config, firstDbName: string)
    requires Sane(geo, cfg) && Lbas(cfg.maxTempSize, geo) <= geo.lbaCount && Build(geo, cfg, firstDbName).Some?
    ensures var b := Build(geo, cfg, firstDbName).value;
            b.dbIdx >= 1 && b.databases[0].dbStart == 1 && b.databases[0].walEnd <= geo.lbaCount
  {
    hide Lbas, Wrapped, TmpStart, Named;
    SaneSize(geo, cfg);
    SaneFacts(geo, cfg);
    BuildLayout(geo, cfg, firstDbName);
    if cfg.dbConfigs == [] {
      NoConfigAlwaysThrows(geo, cfg, firstDbName);
    } else {
      var b, walLbas := Blank(geo, cfg), Lbas(cfg.maxWalSize, geo);
      BlankBuilt(geo, cfg);
      RegisterBuilt(b, cfg.dbConfigs[0].0, Lbas(cfg.dbConfigs[0].1, geo), walLbas);
      var c := RegisterDB(b, cfg.dbConfigs[0].0, Lbas(cfg.dbConfigs[0].1, geo), walLbas).value;
      EachBuilt(c, cfg.dbConfigs[1..], walLbas, geo);
    }
  }

  /** Writing the metadata leaves the first database and its WAL as they were exactly when one LBA
      holds the image, or the two have no LBA. When one LBA holds it, every region is left alone. */
  lemma ImageSparesDatabases(m: seq<Byte>, geo: Geometry, cfg: Config, firstDbName: string)
    requires Sane(geo, cfg) && Lbas(cfg.maxTempSize, geo) <= geo.lbaCount && Build(geo, cfg, firstDbName).Some?
    requires geo.lbaSize >= 512 && |m| == Times(geo.lbaCount, geo.lbaSize)
    requires RequiredLbas(METADATA_BYTES, 0, geo.lbaSize) <= geo.lbaCount
    ensures var r := Build(geo, cfg, firstDbName).value.databases[0];
            && r.dbStart == 1
            && (Spared(m, geo.lbaSize, geo.lbaCount, r.dbStart, r.walEnd) <==>
                   geo.lbaSize >= 2583 || r.walEnd == 1)
    ensures var b := Build(geo, cfg, firstDbName).value;
            geo.lbaSize >= 2583 ==>
              forall i :: 0 <= i < b.dbIdx ==>
                Spared(m, geo.lbaSize, geo.lbaCount, b.databases[i].dbStart, b.databases[i].walEnd)
  {
    hide Lbas, Build, Times, RequiredLbas, Spared, Sane;
    BuildFirst(geo, cfg, firstDbName);
    BuildLayout(geo, cfg, firstDbName);
    TimesFacts(1, geo.lbaSize);
    var b := Build(geo, cfg, firstDbName).value;
    forall i | 0 <= i < b.dbIdx
      ensures Spared(m, geo.lbaSize, geo.lbaCount, b.databases[i].dbStart, b.databases[i].walEnd)
        <==> (b.databases[i].walEnd <= b.databases[i].dbStart
              || METADATA_BYTES <= Times(b.databases[i].dbStart, geo.lbaSize))
    {
      SparedExactly(m, geo.lbaSize, geo.lbaCount, b.databases[i].dbStart, b.databases[i].walEnd);
      TimesMonotone(1, b.databases[i].dbStart, geo.lbaSize);
    }
    forall i | 0 <= i < b.dbIdx ensures geo.lbaSize <= Times(b.databases[i].dbStart, geo.lbaSize) {
      TimesMonotone(1, b.databases[i].dbStart, geo.lbaSize);
    }
  }
}
