/** How the asynchronous engine cuts a transfer into commands, in the 32-bit arithmetic it uses. */
module ChunkPlan {
  import opened Basics
  import opened Device

  const U32: nat := 0x1_0000_0000

  function RoundDown(a: nat, p: nat): (r: nat)
    requires p > 0
    ensures r <= a && r % p == 0 && (r == 0 <==> a < p)
  {
    DivMul(a, 1, p);
    ModMul(a / p, p);
    TimesFacts(a / p, p);
    Times(a / p, p)
  }

  /** A transfer limit of zero means the device states none. */
  function MaxLbas(mdts: nat, lbaSize: nat): nat
    requires lbaSize > 0
  {
    var limit := if mdts > 0 then mdts / lbaSize else 127;
    var per4k := 4096 / lbaSize;
    var whole := if per4k > 0 then RoundDown(limit, per4k) else limit;
    if whole == 0 then per4k else whole
  }

  /** A number of LBAs for one command: within the device's limit, or 127 where it states none, and a
      multiple of 4 KiB where LBAs are no larger than that. */
  ghost predicate GoodSize(n: nat, mdts: nat, lbaSize: nat)
    requires lbaSize > 0
  {
    && n > 0 && (if mdts > 0 then Times(n, lbaSize) <= mdts else n <= 127)
    && (lbaSize <= 4096 ==> 4096 / lbaSize > 0 && n % (4096 / lbaSize) == 0)
  }

  /** The chunk size is the largest such number, and 4 KiB where there is none. */
  lemma MaxLbasIs(mdts: nat, lbaSize: nat)
    requires lbaSize > 0
    ensures var r := MaxLbas(mdts, lbaSize);
            && (forall n: nat :: GoodSize(n, mdts, lbaSize) ==> n <= r && GoodSize(r, mdts, lbaSize))
            && ((forall n: nat :: !GoodSize(n, mdts, lbaSize)) ==> r == 4096 / lbaSize)
  {
    hide RoundDown;
    DivMul(4096, 1, lbaSize);
    TimesFacts(1, lbaSize);
    var r := MaxLbas(mdts, lbaSize);
    var per4k := 4096 / lbaSize;
    var limit := if mdts > 0 then mdts / lbaSize else 127;
    DivMul(mdts, r, lbaSize);
    var whole := if per4k > 0 then RoundDown(limit, per4k) else limit;
    assert whole > 0 ==> GoodSize(r, mdts, lbaSize);
    forall n: nat | GoodSize(n, mdts, lbaSize) ensures n <= limit && (per4k > 0 ==> n <= RoundDown(limit, per4k)) {
      DivMul(mdts, n, lbaSize);
      if per4k > 0 { LargestMultiple(n, limit, per4k); }
    }
  }

  lemma LargestMultiple(n: nat, a: nat, p: nat)
    requires p > 0 && n % p == 0 && n <= a
    ensures n <= RoundDown(a, p)
  {
    hide Times;
    DivMod(n, p);
    DivMul(a, n / p, p);
    TimesMonotone(n / p, a / p, p);
    RoundDownIs(a, p);
  }

  lemma RoundDownIs(a: nat, p: nat)
    requires p > 0
    ensures RoundDown(a, p) == Times(a / p, p)
  {
  }

  /** The chunk size is usable exactly for these devices. */
  lemma MaxLbasPositive(mdts: nat, lbaSize: nat)
    requires lbaSize > 0
    ensures MaxLbas(mdts, lbaSize) > 0 <==> lbaSize <= 4096 || mdts == 0 || mdts >= lbaSize
  {
    DivMul(4096, 1, lbaSize);
    DivMul(mdts, 1, lbaSize);
  }

  /** It respects the device's limit exactly when that admits 4 KiB worth of blocks. */
  lemma MaxLbasFits(mdts: nat, lbaSize: nat)
    requires lbaSize > 0 && mdts > 0 && MaxLbas(mdts, lbaSize) > 0
    ensures Times(MaxLbas(mdts, lbaSize), lbaSize) <= mdts <==> mdts >= Times(4096 / lbaSize, lbaSize)
  {
    hide RoundDown;
    DivMul(mdts, MaxLbas(mdts, lbaSize), lbaSize);
    DivMul(mdts, 4096 / lbaSize, lbaSize);
  }

  /** It is a multiple of 4 KiB when blocks divide 4 KiB. */
  lemma MaxLbasWhole(mdts: nat, lbaSize: nat)
    requires lbaSize > 0 && 4096 % lbaSize == 0
    ensures Times(MaxLbas(mdts, lbaSize), lbaSize) % 4096 == 0
  {
    hide RoundDown;
    var per4k := 4096 / lbaSize;
    DivMul(4096, 1, lbaSize);
    WholeBlocks(MaxLbas(mdts, lbaSize), per4k, lbaSize);
  }

  lemma WholeBlocks(m: nat, p: nat, l: nat)
    requires p > 0 && m % p == 0 && p * l == 4096
    ensures Times(m, l) % 4096 == 0
  {
    var q := m / p;
    assert m == q * p;
    assert m * l == q * (p * l);
  }

  // ---------------------------------------------------------------- the submission loop

  /** One command: blocks from `slba`, and where their bytes are in the transfer buffer. */
  datatype Chunk = Chunk(slba: nat, lbas: nat, bufOffset: nat)

  /** The commands the loop issues from a state of its variables; `bufOffset` wraps at 2^32. */
  function Chunks(left: nat, slba: nat, bufOffset: nat, maxLbas: nat, lbaSize: nat): seq<Chunk>
    requires maxLbas > 0
    decreases left
  {
    if left == 0 then [] else
    var c := Min(left, maxLbas);
    [Chunk(slba, c, bufOffset)] + Chunks(left - c, slba + c, (bufOffset + Times(c, lbaSize)) % U32, maxLbas, lbaSize)
  }

  /** All commands of a transfer; the count of blocks is truncated to 32 bits first. */
  function Plan(nrLbas: nat, startLba: nat, maxLbas: nat, lbaSize: nat): seq<Chunk>
    requires maxLbas > 0
  {
    Chunks(nrLbas % U32, startLba, 0, maxLbas, lbaSize)
  }

  /** How many completions the engine waits for, computed in 64 bits. */
  function NumChunks(nrLbas: nat, maxLbas: nat): nat
    requires maxLbas > 0
  {
    (nrLbas + maxLbas - 1) / maxLbas
  }

  /** It is the number of chunks needed to hold the blocks. */
  lemma NumChunksIs(nrLbas: nat, maxLbas: nat)
    requires maxLbas > 0
    ensures var n := NumChunks(nrLbas, maxLbas);
            nrLbas <= Times(n, maxLbas) < nrLbas + maxLbas && (n == 0 <==> nrLbas == 0)
  {
    var n := NumChunks(nrLbas, maxLbas);
    DivMul(nrLbas + maxLbas - 1, n, maxLbas);
    DivMul(nrLbas + maxLbas - 1, n + 1, maxLbas);
    DivMul(nrLbas + maxLbas - 1, 1, maxLbas);
    TimesAdd(n, 1, maxLbas);
  }

  lemma NumChunksUnique(nrLbas: nat, maxLbas: nat, n: nat)
    requires maxLbas > 0 && nrLbas <= Times(n, maxLbas) < nrLbas + maxLbas
    ensures n == NumChunks(nrLbas, maxLbas)
  {
    DivMul(nrLbas + maxLbas - 1, n, maxLbas);
    DivMul(nrLbas + maxLbas - 1, n + 1, maxLbas);
    TimesAdd(n, 1, maxLbas);
  }

  lemma {:induction false} ChunkCount(left: nat, slba: nat, bufOffset: nat, maxLbas: nat, lbaSize: nat)
    requires maxLbas > 0
    ensures |Chunks(left, slba, bufOffset, maxLbas, lbaSize)| == NumChunks(left, maxLbas)
    decreases left
  {
    hide NumChunks, Times;
    if left > 0 {
      var c := Min(left, maxLbas);
      ChunkCount(left - c, slba + c, (bufOffset + Times(c, lbaSize)) % U32, maxLbas, lbaSize);
      var n := NumChunks(left - c, maxLbas);
      NumChunksIs(left - c, maxLbas);
      TimesFacts(n, maxLbas);
      NumChunksUnique(left, maxLbas, n + 1);
    } else {
      NumChunksIs(left, maxLbas);
    }
  }

  lemma WrapAdd(a: nat, b: nat, c: nat)
    ensures ((a + b) % U32 + c) % U32 == (a + b + c) % U32
  {
  }

  /** The `k`-th command in closed form. */
  lemma {:induction false} ChunkAt(left: nat, slba: nat, bufOffset: nat, maxLbas: nat, lbaSize: nat, k: nat)
    requires maxLbas > 0 && bufOffset < U32 && k < |Chunks(left, slba, bufOffset, maxLbas, lbaSize)|
    ensures Times(k, maxLbas) < left
    ensures Chunks(left, slba, bufOffset, maxLbas, lbaSize)[k] ==
      Chunk(slba + Times(k, maxLbas), Min(maxLbas, left - Times(k, maxLbas)),
            (bufOffset + Times(k, Times(maxLbas, lbaSize))) % U32)
    decreases left
  {
    hide Times;
    TimesFacts(k, maxLbas);
    TimesFacts(k, Times(maxLbas, lbaSize));
    if k > 0 {
      var off := (bufOffset + Times(maxLbas, lbaSize)) % U32;
      ChunkAt(left - maxLbas, slba + maxLbas, off, maxLbas, lbaSize, k - 1);
      WrapAdd(bufOffset, Times(maxLbas, lbaSize), Times(k - 1, Times(maxLbas, lbaSize)));
    }
  }

  /** Non-empty commands of at most `maxLbas` blocks that follow one another through the whole
      transfer, each with its own part of the buffer. */
  ghost predicate Tiles(plan: seq<Chunk>, nrLbas: nat, startLba: nat, maxLbas: nat, lbaSize: nat) {
    && (forall k :: 0 <= k < |plan| ==>
          && 0 < plan[k].lbas <= maxLbas && startLba <= plan[k].slba
          && plan[k].bufOffset == Times(plan[k].slba - startLba, lbaSize))
    && (forall i, j :: 0 <= i < |plan| && 0 <= j < |plan| && j == i + 1 ==> plan[i].slba + plan[i].lbas == plan[j].slba)
    && (if plan == [] then nrLbas == 0
        else plan[0].slba == startLba && plan[|plan| - 1].slba + plan[|plan| - 1].lbas == startLba + nrLbas)
  }

  /** The count of blocks and the last command's place in the buffer stay within 32 bits. */
  ghost predicate Within32Bits(nrLbas: nat, maxLbas: nat, lbaSize: nat)
    requires maxLbas > 0
  {
    && nrLbas < 0x1_0000_0000
    && (nrLbas > 0 ==> Times(NumChunks(nrLbas, maxLbas) - 1, Times(maxLbas, lbaSize)) < 0x1_0000_0000)
  }

  /** Exactly then the commands tile the transfer, one for each completion waited for. */
  lemma PlanExactly(nrLbas: nat, startLba: nat, maxLbas: nat, lbaSize: nat)
    requires maxLbas > 0 && lbaSize > 0
    ensures var plan := Plan(nrLbas, startLba, maxLbas, lbaSize);
            (Tiles(plan, nrLbas, startLba, maxLbas, lbaSize) && |plan| == NumChunks(nrLbas, maxLbas)) <==>
            Within32Bits(nrLbas, maxLbas, lbaSize)
  {
    hide Times, NumChunks, Tiles, Chunks, Within32Bits;
    var plan := Plan(nrLbas, startLba, maxLbas, lbaSize);
    if Within32Bits(nrLbas, maxLbas, lbaSize) {
      PlanTiles(nrLbas, startLba, maxLbas, lbaSize);
    } else if Tiles(plan, nrLbas, startLba, maxLbas, lbaSize) && |plan| == NumChunks(nrLbas, maxLbas) {
      PlanFits(nrLbas, startLba, maxLbas, lbaSize);
    }
  }

  lemma PlanCount(nrLbas: nat, startLba: nat, maxLbas: nat, lbaSize: nat)
    requires maxLbas > 0 && nrLbas < U32
    ensures |Plan(nrLbas, startLba, maxLbas, lbaSize)| == NumChunks(nrLbas, maxLbas)
  {
    ChunkCount(nrLbas, startLba, 0, maxLbas, lbaSize);
  }

  lemma PlanAt(nrLbas: nat, startLba: nat, maxLbas: nat, lbaSize: nat, k: nat)
    requires maxLbas > 0 && Within32Bits(nrLbas, maxLbas, lbaSize)
    requires k < |Plan(nrLbas, startLba, maxLbas, lbaSize)|
    ensures Times(k, maxLbas) < nrLbas
    ensures Plan(nrLbas, startLba, maxLbas, lbaSize)[k] ==
      Chunk(startLba + Times(k, maxLbas), Min(maxLbas, nrLbas - Times(k, maxLbas)), Times(k, Times(maxLbas, lbaSize)))
  {
    hide Times, NumChunks, Chunks;
    ChunkCount(nrLbas, startLba, 0, maxLbas, lbaSize);
    ChunkAt(nrLbas, startLba, 0, maxLbas, lbaSize, k);
    TimesMonotone(k, NumChunks(nrLbas, maxLbas) - 1, Times(maxLbas, lbaSize));
  }

  lemma PlanTiles(nrLbas: nat, startLba: nat, maxLbas: nat, lbaSize: nat)
    requires maxLbas > 0 && Within32Bits(nrLbas, maxLbas, lbaSize)
    ensures var plan := Plan(nrLbas, startLba, maxLbas, lbaSize);
            Tiles(plan, nrLbas, startLba, maxLbas, lbaSize) && |plan| == NumChunks(nrLbas, maxLbas)
  {
    hide Times, NumChunks, Plan;
    var plan := Plan(nrLbas, startLba, maxLbas, lbaSize);
    PlanCount(nrLbas, startLba, maxLbas, lbaSize);
    NumChunksIs(nrLbas, maxLbas);
    forall k | 0 <= k < |plan|
      ensures 0 < plan[k].lbas <= maxLbas && startLba <= plan[k].slba
      ensures plan[k].bufOffset == Times(plan[k].slba - startLba, lbaSize)
    {
      PlanAt(nrLbas, startLba, maxLbas, lbaSize, k);
      TimesAssociate(k, maxLbas, lbaSize);
    }
    forall i, j | 0 <= i < |plan| && 0 <= j < |plan| && j == i + 1 ensures plan[i].slba + plan[i].lbas == plan[j].slba {
      PlanAt(nrLbas, startLba, maxLbas, lbaSize, i);
      PlanAt(nrLbas, startLba, maxLbas, lbaSize, j);
      TimesFacts(i, maxLbas);
    }
    if plan != [] {
      PlanAt(nrLbas, startLba, maxLbas, lbaSize, 0);
      PlanAt(nrLbas, startLba, maxLbas, lbaSize, |plan| - 1);
      TimesFacts(0, maxLbas);
      TimesFacts(|plan| - 1, maxLbas);
    }
  }

  lemma PlanFits(nrLbas: nat, startLba: nat, maxLbas: nat, lbaSize: nat)
    requires maxLbas > 0 && lbaSize > 0
    requires var plan := Plan(nrLbas, startLba, maxLbas, lbaSize);
             Tiles(plan, nrLbas, startLba, maxLbas, lbaSize) && |plan| == NumChunks(nrLbas, maxLbas)
    ensures Within32Bits(nrLbas, maxLbas, lbaSize)
  {
    hide Times, NumChunks, Chunks;
    var left := nrLbas % U32;
    var plan := Plan(nrLbas, startLba, maxLbas, lbaSize);
    if plan != [] {
      var k := |plan| - 1;
      ChunkAt(left, startLba, 0, maxLbas, lbaSize, k);
      TimesAssociate(k, maxLbas, lbaSize);
    }
  }

  /** What the engine's commands look like: within the device's limit when that admits 4 KiB
      worth of blocks, and all but the last a multiple of 4 KiB when blocks divide 4 KiB. */
  lemma CommandSizes(nrLbas: nat, startLba: nat, mdts: nat, lbaSize: nat, k: nat)
    requires lbaSize > 0 && MaxLbas(mdts, lbaSize) > 0 && Within32Bits(nrLbas, MaxLbas(mdts, lbaSize), lbaSize)
    requires k < |Plan(nrLbas, startLba, MaxLbas(mdts, lbaSize), lbaSize)|
    ensures var plan := Plan(nrLbas, startLba, MaxLbas(mdts, lbaSize), lbaSize);
            && (mdts > 0 && mdts >= Times(4096 / lbaSize, lbaSize) ==> Times(plan[k].lbas, lbaSize) <= mdts)
            && (4096 % lbaSize == 0 && k < |plan| - 1 ==> Times(plan[k].lbas, lbaSize) % 4096 == 0)
  {
    hide Plan, Times, MaxLbas, NumChunks, Within32Bits;
    var m := MaxLbas(mdts, lbaSize);
    var plan := Plan(nrLbas, startLba, m, lbaSize);
    PlanAt(nrLbas, startLba, m, lbaSize, k);
    TimesMonotone(plan[k].lbas, m, lbaSize);
    if mdts > 0 { MaxLbasFits(mdts, lbaSize); }
    if 4096 % lbaSize == 0 { MaxLbasWhole(mdts, lbaSize); }
    if k < |plan| - 1 {
      PlanAt(nrLbas, startLba, m, lbaSize, k + 1);
      TimesFacts(k, m);
    }
  }
}
