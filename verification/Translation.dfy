/** From a file offset to LBAs: the flat translation of database and WAL files, and what the range
    checks of all three kinds of file accept. */
module Translation {
  import opened Basics
  import opened Device
  import opened Watermarks

  /** GetLBA of a region that starts at LBA `start`. */
  function FlatLBA(start: nat, location: nat, lbaSize: nat): nat
    requires lbaSize > 0
  {
    start + location / lbaSize
  }

  /** The LBA and the offset inside it name the byte that is `location` bytes into the region. */
  lemma FlatExactly(start: nat, location: nat, lbaSize: nat)
    requires lbaSize > 0
    ensures Times(FlatLBA(start, location, lbaSize), lbaSize) + location % lbaSize == Times(start, lbaSize) + location
  {
    hide Times;
    DivMod(location, lbaSize);
    TimesAdd(start, location / lbaSize, lbaSize);
  }

  /** The command built for an access to a region `[lo, hi)`. */
  function FlatContext(lo: nat, location: nat, nrBytes: nat, lbaSize: nat): CmdContext
    requires lbaSize > 0
  {
    CmdContext(nrBytes, RequiredLbas(nrBytes, location % lbaSize, lbaSize), FlatLBA(lo, location, lbaSize),
               location % lbaSize)
  }

  /** A non-empty access passes the range check exactly when it ends inside the region; then its
      command is well-formed and starts at the right byte. */
  lemma RangeExactly(lo: nat, hi: nat, location: nat, nrBytes: nat, lbaSize: nat, lbaCount: nat)
    requires lbaSize > 0 && 1 <= lo <= hi <= lbaCount && nrBytes > 0
    ensures var c := FlatContext(lo, location, nrBytes, lbaSize);
            && (IsLBAInRange(lo, hi, c.startLba, c.nrLbas) <==> location + nrBytes <= Times(hi - lo, lbaSize))
            && (IsLBAInRange(lo, hi, c.startLba, c.nrLbas) ==>
                  c.nrLbas > 0 && Fits(c, lbaSize, lbaCount) && Position(c, lbaSize) == Times(lo, lbaSize) + location)
  {
    hide Times, RequiredLbas;
    var c := FlatContext(lo, location, nrBytes, lbaSize);
    var q := location / lbaSize;
    FlatExactly(lo, location, lbaSize);
    DivMod(location, lbaSize);
    RequiredIs(nrBytes, c.offset, lbaSize, 0);
    RequiredIs(nrBytes, c.offset, lbaSize, c.nrLbas);
    TimesFacts(0, lbaSize);
    if q <= hi - lo {
      RequiredIs(nrBytes, c.offset, lbaSize, hi - lo - q);
      TimesAdd(q, hi - lo - q, lbaSize);
    } else {
      TimesMonotone(hi - lo, q, lbaSize);
    }
  }

  // ---------------------------------------------------------------- temporary files

  /** The temporary files' check knows the area's start and the device's end, not the pool's. */
  predicate IsTempLBAInRange(tmpStart: nat, deviceLbas: nat, startLba: nat, lbaCount: nat) {
    !(startLba < tmpStart) && !(lbaCount > 0 && startLba + lbaCount - 1 > deviceLbas - 1)
  }

  /** The pool ends one LBA before the device. A block that falls short of its request is
      accepted exactly when the request overshoots the pool by at most that one LBA. */
  lemma TempRangeExactly(tmpStart: nat, deviceLbas: nat, startLba: nat, len: nat, asked: nat)
    requires tmpStart <= startLba && 0 < len <= asked && startLba + len <= deviceLbas - 1
    ensures IsTempLBAInRange(tmpStart, deviceLbas, startLba, asked) <==> startLba + asked <= deviceLbas
    ensures forall lba: nat, n: nat :: n > 0 && deviceLbas > 0 ==>
      (IsTempLBAInRange(tmpStart, deviceLbas, lba, n) <==> tmpStart <= lba && lba + n <= deviceLbas)
    ensures asked > len && startLba + len == deviceLbas - 1 ==>
      (IsTempLBAInRange(tmpStart, deviceLbas, startLba, asked) <==> asked == len + 1)
  {
  }

  /** A temporary access is placed by block index and by the offset inside an LBA. That is the
      byte the caller named exactly when the offset inside the block is inside its first LBA. */
  lemma TempOffsetExactly(location: nat, blockSize: nat, lbaSize: nat)
    requires lbaSize > 0 && blockSize > 0
    ensures Times(location / blockSize, blockSize) + location % lbaSize == location <==>
      location % blockSize == location % lbaSize
    ensures blockSize % lbaSize == 0 ==>
      (location % blockSize == location % lbaSize <==> location % blockSize < lbaSize)
  {
    hide Times;
    DivMod(location, blockSize);
    if blockSize % lbaSize == 0 { ModOfMod(location, blockSize, lbaSize); }
  }

  lemma ModOfMod(a: nat, b: nat, c: nat)
    requires c > 0 && b > 0 && b % c == 0
    ensures a % b % c == a % c
    ensures a % b < c ==> a % b == a % c
  {
    hide Times;
    DivMod(a, b);
    DivMod(b, c);
    ModShift(a, a / b, b / c, c, a % b);
  }

  lemma ModShift(a: nat, q: nat, p: nat, c: nat, r: nat)
    requires c > 0 && a == Times(q, Times(p, c)) + r
    ensures a % c == r % c && (r < c ==> a % c == r)
  {
    hide Times;
    TimesAssociate(q, p, c);
    DivMod(r, c);
    TimesAdd(Times(q, p), r / c, c);
    ModUnique(a, Times(q, p) + r / c, r % c, c);
    TimesFacts(0, c);
    if r < c { ModUnique(r, 0, r, c); }
  }

  lemma ModUnique(a: nat, q: nat, r: nat, c: nat)
    requires c > 0 && a == Times(q, c) + r && r < c
    ensures a % c == r
  {
    DivMul(a, q, c);
    DivMul(a, q + 1, c);
    TimesFacts(q, c);
    DivMod(a, c);
  }
}
