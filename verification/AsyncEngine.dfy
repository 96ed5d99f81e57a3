/** The asynchronous engine: a transfer is cut into commands that complete in any order, some of
    them while others are still being submitted. It changes the device and reads it exactly as
    the flat-memory device does. */
module AsyncEngine {
  import opened Basics
  import opened Device
  import opened ChunkPlan

  // ---------------------------------------------------------------- partly completed transfers

  /** Which chunk a byte of the transfer is in. */
  function ChunkOf(x: nat, chunkBytes: nat): nat
    requires chunkBytes > 0
  {
    x / chunkBytes
  }

  lemma InChunk(x: nat, chunkBytes: nat, k: nat)
    requires chunkBytes > 0
    ensures ChunkOf(x, chunkBytes) == k <==> Times(k, chunkBytes) <= x < Times(k, chunkBytes) + chunkBytes
  {
    DivMul(x, k, chunkBytes);
    DivMul(x, k + 1, chunkBytes);
    TimesAdd(k, 1, chunkBytes);
  }

  /** `m` with the chunks in `done` of the transfer of `data` to `base` carried out. */
  ghost function Mixed(m: seq<Byte>, base: nat, data: seq<Byte>, chunkBytes: nat, done: set<nat>): (r: seq<Byte>)
    requires chunkBytes > 0 && base + |data| <= |m|
    ensures |r| == |m|
  {
    seq(|m|, q requires 0 <= q < |m| =>
      if base <= q < base + |data| && ChunkOf(q - base, chunkBytes) in done then data[q - base] else m[q])
  }

  /** The bytes of chunk `k`. */
  function ChunkEnd(total: nat, chunkBytes: nat, k: nat): (e: nat)
    requires Times(k, chunkBytes) <= total
    ensures Times(k, chunkBytes) <= e <= total
  {
    Min(Times(k, chunkBytes) + chunkBytes, total)
  }

  lemma MixedStep(m: seq<Byte>, base: nat, data: seq<Byte>, chunkBytes: nat, done: set<nat>, k: nat)
    requires chunkBytes > 0 && base + |data| <= |m| && Times(k, chunkBytes) <= |data|
    ensures var from, to := Times(k, chunkBytes), ChunkEnd(|data|, chunkBytes, k);
            Mixed(m, base, data, chunkBytes, done + {k})
              == Replace(Mixed(m, base, data, chunkBytes, done), base + from, data[from..to])
  {
    hide Times, ChunkOf;
    var from, to := Times(k, chunkBytes), ChunkEnd(|data|, chunkBytes, k);
    var a := Mixed(m, base, data, chunkBytes, done + {k});
    var b := Replace(Mixed(m, base, data, chunkBytes, done), base + from, data[from..to]);
    forall q | 0 <= q < |m| ensures a[q] == b[q] {
      if base <= q < base + |data| {
        InChunk(q - base, chunkBytes, k);
      }
    }
  }

  lemma MixedNone(m: seq<Byte>, base: nat, data: seq<Byte>, chunkBytes: nat)
    requires chunkBytes > 0 && base + |data| <= |m|
    ensures Mixed(m, base, data, chunkBytes, {}) == m
  {
  }

  lemma MixedAll(m: seq<Byte>, base: nat, data: seq<Byte>, chunkBytes: nat, n: nat, done: set<nat>)
    requires chunkBytes > 0 && base + |data| <= |m| && |data| <= Times(n, chunkBytes)
    requires forall k :: 0 <= k < n ==> k in done
    ensures Mixed(m, base, data, chunkBytes, done) == Replace(m, base, data)
  {
    hide Times, ChunkOf;
    var a, b := Mixed(m, base, data, chunkBytes, done), Replace(m, base, data);
    forall q | 0 <= q < |m| ensures a[q] == b[q] {
      if base <= q < base + |data| {
        var k := ChunkOf(q - base, chunkBytes);
        InChunk(q - base, chunkBytes, k);
        if k >= n { TimesMonotone(n, k, chunkBytes); }
      }
    }
  }

  /** Where command `k` of a plan reads or writes, in bytes. */
  lemma CommandBytes(ctx: CmdContext, lbaSize: nat, lbaCount: nat, maxLbas: nat, k: nat)
    requires Fits(ctx, lbaSize, lbaCount) && lbaSize > 0 && maxLbas > 0 && Within32Bits(ctx.nrLbas, maxLbas, lbaSize)
    requires k < |Plan(ctx.nrLbas, ctx.startLba, maxLbas, lbaSize)|
    ensures var c := Plan(ctx.nrLbas, ctx.startLba, maxLbas, lbaSize)[k];
            var chunkBytes, total := Times(maxLbas, lbaSize), Times(ctx.nrLbas, lbaSize);
            && c.lbas > 0 && c.slba + c.lbas <= lbaCount && Times(k, chunkBytes) <= total
            && c.bufOffset == Times(k, chunkBytes)
            && Times(c.slba, lbaSize) == Times(ctx.startLba, lbaSize) + c.bufOffset
            && c.bufOffset + Times(c.lbas, lbaSize) == ChunkEnd(total, chunkBytes, k)
  {
    hide Times, Plan, NumChunks, Within32Bits;
    PlanAt(ctx.nrLbas, ctx.startLba, maxLbas, lbaSize, k);
    var c := Plan(ctx.nrLbas, ctx.startLba, maxLbas, lbaSize)[k];
    var done := Times(k, maxLbas);
    TimesAssociate(k, maxLbas, lbaSize);
    TimesAdd(ctx.startLba, done, lbaSize);
    TimesAdd(done, c.lbas, lbaSize);
    TimesAdd(done, maxLbas, lbaSize);
    TimesMonotone(done + c.lbas, ctx.nrLbas, lbaSize);
    TimesMonotone(c.lbas, maxLbas, lbaSize);
    if c.lbas < maxLbas { assert done + c.lbas == ctx.nrLbas; }
    else { assert Times(c.lbas, lbaSize) == Times(maxLbas, lbaSize); }
  }

  // ---------------------------------------------------------------- the engine

  /** A transfer the engine accepts: data for exactly the blocks named, commands that stay within
      32 bits, and a usable chunk size. */
  ghost predicate Ready(ctx: CmdContext, device: NvmeDevice, mdts: nat)
  {
    && device.Valid() && Fits(ctx, device.lbaSize, device.lbaCount)
    && MaxLbas(mdts, device.lbaSize) > 0
    && Within32Bits(ctx.nrLbas, MaxLbas(mdts, device.lbaSize), device.lbaSize)
  }

  class NvmeAsyncIOEngine {
    const device: NvmeDevice
    const mdts: nat

    constructor (device: NvmeDevice, mdts: nat)
      ensures this.device == device && this.mdts == mdts
    {
      this.device, this.mdts := device, mdts;
    }

    ghost function PlanOf(ctx: CmdContext): seq<Chunk>
      requires Ready(ctx, device, mdts)
    {
      Plan(ctx.nrLbas, ctx.startLba, MaxLbas(mdts, device.lbaSize), device.lbaSize)
    }

    ghost function ChunkBytes(): nat
      requires device.Valid()
    {
      Times(MaxLbas(mdts, device.lbaSize), device.lbaSize)
    }

    function Base(ctx: CmdContext): nat { Times(ctx.startLba, device.lbaSize) }

    function Total(ctx: CmdContext): nat { Times(ctx.nrLbas, device.lbaSize) }

    /** The commands submitted are the first of the plan; `pending` are those not completed yet. */
    ghost predicate Submitted(ctx: CmdContext, cmds: seq<Chunk>, pending: set<nat>)
    {
      Ready(ctx, device, mdts) && cmds <= PlanOf(ctx) && forall k :: k in pending ==> k < |cmds|
    }

    /** There is a promise for each command of the plan, kept when the command has completed. */
    ghost predicate Promised(ctx: CmdContext, cmds: seq<Chunk>, pending: set<nat>, promises: seq<bool>)
      requires Ready(ctx, device, mdts)
    {
      |promises| == |PlanOf(ctx)| && forall k :: 0 <= k < |promises| ==> (promises[k] <==> k < |cmds| && k !in pending)
    }

    ghost function Completed(cmds: seq<Chunk>, pending: set<nat>): set<nat> {
      set k: nat | k < |cmds| && k !in pending
    }

    lemma Geometry(ctx: CmdContext)
      requires Ready(ctx, device, mdts)
      ensures ChunkBytes() > 0 && Base(ctx) + Total(ctx) <= device.memory.Length
      ensures Total(ctx) <= Times(|PlanOf(ctx)|, ChunkBytes())
      ensures |PlanOf(ctx)| == NumChunks(ctx.nrLbas, MaxLbas(mdts, device.lbaSize))
    {
      var maxLbas := MaxLbas(mdts, device.lbaSize);
      TimesPositive(maxLbas, device.lbaSize);
      FitsBytes(ctx, device.lbaSize, device.lbaCount);
      PlanCount(ctx.nrLbas, ctx.startLba, maxLbas, device.lbaSize);
      NumChunksIs(ctx.nrLbas, maxLbas);
      hide Times, MaxLbas, NumChunks;
      var n := |PlanOf(ctx)|;
      TimesMonotone(ctx.nrLbas, Times(n, maxLbas), device.lbaSize);
      TimesAssociate(n, maxLbas, device.lbaSize);
    }

    function ChunkSize(ctx: CmdContext): (n: nat)
      requires Ready(ctx, device, mdts)
      ensures n > 0 && n == MaxLbas(mdts, device.lbaSize)
    {
      MaxLbas(mdts, device.lbaSize)
    }

    lemma CommandAt(ctx: CmdContext, cmds: seq<Chunk>, k: nat)
      requires Ready(ctx, device, mdts) && cmds <= PlanOf(ctx) && k < |cmds|
      ensures device.Valid() && k < |PlanOf(ctx)|
      ensures cmds[k].lbas > 0 && cmds[k].slba + cmds[k].lbas <= device.lbaCount
      ensures Times(k, ChunkBytes()) <= Total(ctx) && cmds[k].bufOffset == Times(k, ChunkBytes())
      ensures Times(cmds[k].slba, device.lbaSize) == Base(ctx) + cmds[k].bufOffset
      ensures cmds[k].bufOffset + Times(cmds[k].lbas, device.lbaSize) == ChunkEnd(Total(ctx), ChunkBytes(), k)
    {
      CommandBytes(ctx, device.lbaSize, device.lbaCount, MaxLbas(mdts, device.lbaSize), k);
    }

    /** The loop variables lead to the rest of the plan. */
    ghost predicate Onward(ctx: CmdContext, cmds: seq<Chunk>, left: nat, slba: nat, bufOffset: nat)
      requires Ready(ctx, device, mdts)
    {
      PlanOf(ctx) == cmds + Chunks(left, slba, bufOffset, MaxLbas(mdts, device.lbaSize), device.lbaSize)
    }

    lemma SubmitOne(ctx: CmdContext, cmds: seq<Chunk>, left: nat, slba: nat, bufOffset: nat, chunk: nat)
      requires Ready(ctx, device, mdts) && Onward(ctx, cmds, left, slba, bufOffset) && left > 0
      requires chunk == Min(left, MaxLbas(mdts, device.lbaSize))
      ensures |cmds| < |PlanOf(ctx)| && cmds + [Chunk(slba, chunk, bufOffset)] <= PlanOf(ctx)
      ensures Onward(ctx, cmds + [Chunk(slba, chunk, bufOffset)], left - chunk, slba + chunk,
                     (bufOffset + Times(chunk, device.lbaSize)) % U32)
    {
      hide MaxLbas, Times;
    }

    lemma CompletedSame(cmds: seq<Chunk>, pending: set<nat>, c: Chunk)
      ensures Completed(cmds + [c], pending + {|cmds|}) == Completed(cmds, pending)
    {
    }

    lemma AllSubmitted(ctx: CmdContext, cmds: seq<Chunk>, slba: nat, bufOffset: nat)
      requires Ready(ctx, device, mdts) && Onward(ctx, cmds, 0, slba, bufOffset)
      ensures cmds == PlanOf(ctx)
    {
    }

    /** A promise not kept yet is of a command that is outstanding: the wait comes to an end. */
    lemma StillPending(ctx: CmdContext, pending: set<nat>, promises: seq<bool>, i: nat)
      requires Ready(ctx, device, mdts) && Promised(ctx, PlanOf(ctx), pending, promises)
      requires i < |promises| && !promises[i]
      ensures pending != {}
    {
      hide MaxLbas, Times;
    }

    // -------------------------------------------------------------- writing

    ghost predicate Writing(m: seq<Byte>, ctx: CmdContext, cmds: seq<Chunk>, pending: set<nat>, devBuffer: array<Byte>)
      reads device.memory, devBuffer
    {
      && Submitted(ctx, cmds, pending)
      && devBuffer != device.memory && devBuffer.Length == Total(ctx) && |m| == device.memory.Length
      && ChunkBytes() > 0 && Base(ctx) + Total(ctx) <= |m|
      && device.memory[..] == Mixed(m, Base(ctx), devBuffer[..], ChunkBytes(), Completed(cmds, pending))
    }

    /** One of the outstanding commands, whichever, completes. */
    method CompleteWrite(ghost m: seq<Byte>, ctx: CmdContext, cmds: seq<Chunk>, pending: set<nat>,
                         devBuffer: array<Byte>, promises: seq<bool>)
      returns (rest: set<nat>, kept: seq<bool>)
      requires Writing(m, ctx, cmds, pending, devBuffer) && Promised(ctx, cmds, pending, promises) && pending != {}
      modifies device.memory
      ensures Writing(m, ctx, cmds, rest, devBuffer) && Promised(ctx, cmds, rest, kept) && rest < pending
      ensures |kept| == |promises| && forall j :: 0 <= j < |promises| && promises[j] ==> kept[j]
    {
      hide Times, MaxLbas, Ready, Mixed, PlanOf;
      var k :| k in pending;
      CommandAt(ctx, cmds, k);
      device.NvmWrite(cmds[k].slba, cmds[k].lbas - 1, devBuffer, cmds[k].bufOffset);
      rest, kept := pending - {k}, promises[k := true];
      MixedStep(m, Base(ctx), devBuffer[..], ChunkBytes(), Completed(cmds, pending), k);
      ghost var to := ChunkEnd(Total(ctx), ChunkBytes(), k);
      assert devBuffer[..][cmds[k].bufOffset..to] == devBuffer[cmds[k].bufOffset..to];
      assert Completed(cmds, rest) == Completed(cmds, pending) + {k};
    }

    lemma NothingWritten(ctx: CmdContext, devBuffer: array<Byte>)
      requires Ready(ctx, device, mdts) && devBuffer != device.memory && devBuffer.Length == Total(ctx)
      ensures Writing(device.memory[..], ctx, [], {}, devBuffer)
    {
      hide MaxLbas, Times, NumChunks, Mixed;
      Geometry(ctx);
      MixedNone(device.memory[..], Base(ctx), devBuffer[..], ChunkBytes());
      assert Completed([], {}) == {};
    }

    lemma NothingSubmitted(ctx: CmdContext, promises: seq<bool>)
      requires Ready(ctx, device, mdts) && forall k :: 0 <= k < |promises| ==> !promises[k]
      requires |promises| == NumChunks(ctx.nrLbas, MaxLbas(mdts, device.lbaSize))
      ensures Promised(ctx, [], {}, promises) && Onward(ctx, [], ctx.nrLbas % U32, ctx.startLba, 0)
    {
      hide MaxLbas, Times, NumChunks;
      Geometry(ctx);
    }

    lemma PromiseSubmitted(ctx: CmdContext, cmds: seq<Chunk>, pending: set<nat>, promises: seq<bool>, c: Chunk)
      requires Ready(ctx, device, mdts) && Promised(ctx, cmds, pending, promises)
      ensures Promised(ctx, cmds + [c], pending + {|cmds|}, promises)
    {
      hide Ready;
    }

    lemma StartOnward(ctx: CmdContext)
      requires Ready(ctx, device, mdts)
      ensures Onward(ctx, [], ctx.nrLbas % U32, ctx.startLba, 0)
    {
      hide MaxLbas, Times, NumChunks;
    }

    lemma AllWritten(m: seq<Byte>, ctx: CmdContext, pending: set<nat>, devBuffer: array<Byte>, promises: seq<bool>)
      requires Ready(ctx, device, mdts) && Promised(ctx, PlanOf(ctx), pending, promises)
      requires Writing(m, ctx, PlanOf(ctx), pending, devBuffer) && forall j :: 0 <= j < |promises| ==> promises[j]
      ensures Base(ctx) + Total(ctx) <= |m| && device.memory[..] == Replace(m, Base(ctx), devBuffer[..])
    {
      hide Mixed, MaxLbas, Times, NumChunks;
      Geometry(ctx);
      MixedAll(m, Base(ctx), devBuffer[..], ChunkBytes(), |PlanOf(ctx)|, Completed(PlanOf(ctx), pending));
    }

    lemma WriteSubmitted(m: seq<Byte>, ctx: CmdContext, cmds: seq<Chunk>, pending: set<nat>,
                         devBuffer: array<Byte>, c: Chunk)
      requires Writing(m, ctx, cmds, pending, devBuffer) && cmds + [c] <= PlanOf(ctx)
      ensures Writing(m, ctx, cmds + [c], pending + {|cmds|}, devBuffer)
    {
      hide Mixed, Ready;
      CompletedSame(cmds, pending, c);
    }

    /** Submit all commands, then wait for each promise in turn. */
    method SubmitWrites(ctx: CmdContext, devBuffer: array<Byte>)
      requires Ready(ctx, device, mdts) && devBuffer != device.memory && devBuffer.Length == Total(ctx)
      modifies device.memory
      ensures Base(ctx) + Total(ctx) <= device.memory.Length
      ensures device.memory[..] == Replace(old(device.memory[..]), Base(ctx), devBuffer[..])
    {
      hide Ready, MaxLbas, NumChunks, Mixed, Times, Chunks, PlanOf, Writing, Onward, Promised;
      ghost var m := device.memory[..];
      var maxLbas := ChunkSize(ctx);
      var lbasLeft: nat, slba: nat, bufOffset: nat := ctx.nrLbas % U32, ctx.startLba, 0;
      var numChunks := NumChunks(ctx.nrLbas, maxLbas);
      var promises := seq(numChunks, _ => false);
      var cmds: seq<Chunk>, pending: set<nat> := [], {};
      NothingWritten(ctx, devBuffer);
      NothingSubmitted(ctx, promises);
      while lbasLeft > 0
        invariant Ready(ctx, device, mdts) && Onward(ctx, cmds, lbasLeft, slba, bufOffset)
        invariant Writing(m, ctx, cmds, pending, devBuffer) && Promised(ctx, cmds, pending, promises)
        invariant |promises| == numChunks
      {
        var chunk := Min(lbasLeft, maxLbas);
        var c := Chunk(slba, chunk, bufOffset);
        SubmitOne(ctx, cmds, lbasLeft, slba, bufOffset, chunk);
        WriteSubmitted(m, ctx, cmds, pending, devBuffer, c);
        PromiseSubmitted(ctx, cmds, pending, promises, c);
        cmds, pending := cmds + [c], pending + {|cmds|};
        lbasLeft, slba, bufOffset := lbasLeft - chunk, slba + chunk, (bufOffset + Times(chunk, device.lbaSize)) % U32;
        var early: nat := *;
        while early > 0 && pending != {}
          invariant Ready(ctx, device, mdts)
          invariant Writing(m, ctx, cmds, pending, devBuffer) && Promised(ctx, cmds, pending, promises)
          invariant |promises| == numChunks
        {
          pending, promises := CompleteWrite(m, ctx, cmds, pending, devBuffer, promises);
          early := early - 1;
        }
      }
      AllSubmitted(ctx, cmds, slba, bufOffset);
      var i := 0;
      while i < numChunks
        invariant Ready(ctx, device, mdts) && i <= |promises| == numChunks && forall j :: 0 <= j < i ==> promises[j]
        invariant Writing(m, ctx, cmds, pending, devBuffer) && Promised(ctx, cmds, pending, promises)
      {
        while !promises[i]
          invariant Ready(ctx, device, mdts) && i < |promises| == numChunks && forall j :: 0 <= j < i ==> promises[j]
          invariant Writing(m, ctx, cmds, pending, devBuffer) && Promised(ctx, cmds, pending, promises)
          decreases pending
        {
          StillPending(ctx, pending, promises, i);
          pending, promises := CompleteWrite(m, ctx, cmds, pending, devBuffer, promises);
        }
        i := i + 1;
      }
      AllWritten(m, ctx, pending, devBuffer, promises);
    }

    // -------------------------------------------------------------- reading

    /** The device bytes of the transfer. */
    ghost function Source(ctx: CmdContext): (data: seq<Byte>)
      requires Base(ctx) + Total(ctx) <= device.memory.Length
      reads device.memory
      ensures |data| == Total(ctx)
    {
      device.memory[..][Base(ctx)..Base(ctx) + Total(ctx)]
    }

    ghost predicate Reading(b: seq<Byte>, ctx: CmdContext, cmds: seq<Chunk>, pending: set<nat>, devBuffer: array<Byte>)
      reads device.memory, devBuffer
    {
      && Submitted(ctx, cmds, pending)
      && devBuffer != device.memory && devBuffer.Length == Total(ctx) == |b|
      && ChunkBytes() > 0 && Base(ctx) + Total(ctx) <= device.memory.Length
      && devBuffer[..] == Mixed(b, 0, Source(ctx), ChunkBytes(), Completed(cmds, pending))
    }

    /** Command `k`, not completed yet, completes. */
    method ReadChunk(ghost b: seq<Byte>, ctx: CmdContext, cmds: seq<Chunk>, pending: set<nat>,
                     devBuffer: array<Byte>, k: nat)
      requires Reading(b, ctx, cmds, pending, devBuffer) && k in pending
      modifies devBuffer
      ensures Reading(b, ctx, cmds, pending - {k}, devBuffer)
    {
      hide Times, MaxLbas, Ready, Mixed, PlanOf;
      CommandAt(ctx, cmds, k);
      device.NvmRead(cmds[k].slba, cmds[k].lbas - 1, devBuffer, cmds[k].bufOffset);
      MixedStep(b, 0, Source(ctx), ChunkBytes(), Completed(cmds, pending), k);
      ghost var to := ChunkEnd(Total(ctx), ChunkBytes(), k);
      SliceSlice(device.memory[..], Base(ctx), Base(ctx) + Total(ctx), cmds[k].bufOffset, to);
      assert Completed(cmds, pending - {k}) == Completed(cmds, pending) + {k};
    }

    method CompleteRead(ghost b: seq<Byte>, ctx: CmdContext, cmds: seq<Chunk>, pending: set<nat>,
                        devBuffer: array<Byte>, promises: seq<bool>)
      returns (rest: set<nat>, kept: seq<bool>)
      requires Reading(b, ctx, cmds, pending, devBuffer) && Promised(ctx, cmds, pending, promises) && pending != {}
      modifies devBuffer
      ensures Reading(b, ctx, cmds, rest, devBuffer) && Promised(ctx, cmds, rest, kept) && rest < pending
      ensures |kept| == |promises| && forall j :: 0 <= j < |promises| && promises[j] ==> kept[j]
    {
      hide Times, MaxLbas, Ready, Mixed, PlanOf;
      var k :| k in pending;
      ReadChunk(b, ctx, cmds, pending, devBuffer, k);
      rest, kept := pending - {k}, promises[k := true];
    }

    lemma NothingRead(ctx: CmdContext, devBuffer: array<Byte>)
      requires Ready(ctx, device, mdts) && devBuffer != device.memory && devBuffer.Length == Total(ctx)
      ensures Reading(devBuffer[..], ctx, [], {}, devBuffer)
    {
      hide MaxLbas, Times, NumChunks, Mixed;
      Geometry(ctx);
      MixedNone(devBuffer[..], 0, Source(ctx), ChunkBytes());
      assert Completed([], {}) == {};
    }

    lemma AllRead(b: seq<Byte>, ctx: CmdContext, pending: set<nat>, devBuffer: array<Byte>)
      requires Ready(ctx, device, mdts) && Reading(b, ctx, PlanOf(ctx), pending, devBuffer)
      requires pending == {}
      ensures Base(ctx) + Total(ctx) <= device.memory.Length && devBuffer[..] == Source(ctx)
    {
      hide Mixed, MaxLbas, Times, NumChunks;
      Geometry(ctx);
      MixedAll(b, 0, Source(ctx), ChunkBytes(), |PlanOf(ctx)|, Completed(PlanOf(ctx), pending));
    }

    lemma AllKept(ctx: CmdContext, pending: set<nat>, promises: seq<bool>, b: seq<Byte>, devBuffer: array<Byte>)
      requires Ready(ctx, device, mdts) && Reading(b, ctx, PlanOf(ctx), pending, devBuffer)
      requires Promised(ctx, PlanOf(ctx), pending, promises)
      requires forall j :: 0 <= j < |promises| ==> promises[j]
      ensures pending == {}
    {
      hide MaxLbas, Times;
    }

    lemma ReadSubmitted(b: seq<Byte>, ctx: CmdContext, cmds: seq<Chunk>, pending: set<nat>, devBuffer: array<Byte>,
                        c: Chunk)
      requires Reading(b, ctx, cmds, pending, devBuffer) && cmds + [c] <= PlanOf(ctx)
      ensures Reading(b, ctx, cmds + [c], pending + {|cmds|}, devBuffer)
    {
      hide Mixed, Ready;
      CompletedSame(cmds, pending, c);
    }

    method SubmitReads(ctx: CmdContext, devBuffer: array<Byte>)
      requires Ready(ctx, device, mdts) && devBuffer != device.memory && devBuffer.Length == Total(ctx)
      modifies devBuffer
      ensures Base(ctx) + Total(ctx) <= device.memory.Length && devBuffer[..] == Source(ctx)
    {
      hide Ready, MaxLbas, NumChunks, Mixed, Times, Chunks, PlanOf, Reading, Onward, Promised, Source;
      ghost var b := devBuffer[..];
      var maxLbas := ChunkSize(ctx);
      var lbasLeft: nat, slba: nat, bufOffset: nat := ctx.nrLbas % U32, ctx.startLba, 0;
      var numChunks := NumChunks(ctx.nrLbas, maxLbas);
      var promises := seq(numChunks, _ => false);
      var cmds: seq<Chunk>, pending: set<nat> := [], {};
      NothingRead(ctx, devBuffer);
      NothingSubmitted(ctx, promises);
      while lbasLeft > 0
        invariant Ready(ctx, device, mdts) && Onward(ctx, cmds, lbasLeft, slba, bufOffset)
        invariant Reading(b, ctx, cmds, pending, devBuffer) && Promised(ctx, cmds, pending, promises)
        invariant |promises| == numChunks
      {
        var chunk := Min(lbasLeft, maxLbas);
        var c := Chunk(slba, chunk, bufOffset);
        SubmitOne(ctx, cmds, lbasLeft, slba, bufOffset, chunk);
        ReadSubmitted(b, ctx, cmds, pending, devBuffer, c);
        PromiseSubmitted(ctx, cmds, pending, promises, c);
        cmds, pending := cmds + [c], pending + {|cmds|};
        lbasLeft, slba, bufOffset := lbasLeft - chunk, slba + chunk, (bufOffset + Times(chunk, device.lbaSize)) % U32;
        var early: nat := *;
        while early > 0 && pending != {}
          invariant Ready(ctx, device, mdts)
          invariant Reading(b, ctx, cmds, pending, devBuffer) && Promised(ctx, cmds, pending, promises)
          invariant |promises| == numChunks
        {
          pending, promises := CompleteRead(b, ctx, cmds, pending, devBuffer, promises);
          early := early - 1;
        }
      }
      AllSubmitted(ctx, cmds, slba, bufOffset);
      var i := 0;
      while i < numChunks
        invariant Ready(ctx, device, mdts) && i <= |promises| == numChunks && forall j :: 0 <= j < i ==> promises[j]
        invariant Reading(b, ctx, cmds, pending, devBuffer) && Promised(ctx, cmds, pending, promises)
      {
        while !promises[i]
          invariant Ready(ctx, device, mdts) && i < |promises| == numChunks && forall j :: 0 <= j < i ==> promises[j]
          invariant Reading(b, ctx, cmds, pending, devBuffer) && Promised(ctx, cmds, pending, promises)
          decreases pending
        {
          StillPending(ctx, pending, promises, i);
          pending, promises := CompleteRead(b, ctx, cmds, pending, devBuffer, promises);
        }
        i := i + 1;
      }
      AllKept(ctx, pending, promises, b, devBuffer);
      AllRead(b, ctx, pending, devBuffer);
    }

    /** The read half of a read-modify-write: each command completes before the next is issued. */
    method ReadInOrder(ctx: CmdContext, devBuffer: array<Byte>)
      requires Ready(ctx, device, mdts) && devBuffer != device.memory && devBuffer.Length == Total(ctx)
      modifies devBuffer
      ensures Base(ctx) + Total(ctx) <= device.memory.Length && devBuffer[..] == Source(ctx)
    {
      hide Ready, MaxLbas, NumChunks, Mixed, Times, Chunks, PlanOf, Reading, Onward, Source;
      ghost var b := devBuffer[..];
      var maxLbas := ChunkSize(ctx);
      var lbasLeft: nat, slba: nat, bufOffset: nat := ctx.nrLbas % U32, ctx.startLba, 0;
      ghost var cmds: seq<Chunk> := [];
      NothingRead(ctx, devBuffer);
      StartOnward(ctx);
      while lbasLeft > 0
        invariant Ready(ctx, device, mdts) && Onward(ctx, cmds, lbasLeft, slba, bufOffset)
        invariant Reading(b, ctx, cmds, {}, devBuffer)
      {
        var chunk := Min(lbasLeft, maxLbas);
        ghost var c := Chunk(slba, chunk, bufOffset);
        SubmitOne(ctx, cmds, lbasLeft, slba, bufOffset, chunk);
        ReadSubmitted(b, ctx, cmds, {}, devBuffer, c);
        assert {} + {|cmds|} == {|cmds + [c]| - 1};
        ReadNow(b, ctx, cmds + [c], devBuffer, slba, chunk, bufOffset);
        cmds := cmds + [c];
        lbasLeft, slba, bufOffset := lbasLeft - chunk, slba + chunk, (bufOffset + Times(chunk, device.lbaSize)) % U32;
      }
      AllSubmitted(ctx, cmds, slba, bufOffset);
      AllRead(b, ctx, {}, devBuffer);
    }

    method ReadNow(ghost b: seq<Byte>, ctx: CmdContext, ghost cmds: seq<Chunk>, devBuffer: array<Byte>,
                   slba: nat, chunk: nat, bufOffset: nat)
      requires |cmds| > 0 && cmds[|cmds| - 1] == Chunk(slba, chunk, bufOffset)
      requires Reading(b, ctx, cmds, {|cmds| - 1}, devBuffer)
      modifies devBuffer
      ensures Reading(b, ctx, cmds, {}, devBuffer)
    {
      hide Times, MaxLbas, Ready, Mixed, PlanOf;
      ghost var k := |cmds| - 1;
      CommandAt(ctx, cmds, k);
      device.NvmRead(slba, chunk - 1, devBuffer, bufOffset);
      MixedStep(b, 0, Source(ctx), ChunkBytes(), Completed(cmds, {k}), k);
      ghost var to := ChunkEnd(Total(ctx), ChunkBytes(), k);
      SliceSlice(device.memory[..], Base(ctx), Base(ctx) + Total(ctx), bufOffset, to);
      assert Completed(cmds, {}) == Completed(cmds, {k}) + {k};
    }

    // -------------------------------------------------------------- the two operations

    method Read(ctx: CmdContext) returns (buffer: seq<Byte>)
      requires Ready(ctx, device, mdts)
      modifies device`handedOut, device`givenBack
      ensures buffer == FakeRead(device.memory[..], ctx, device.lbaSize, device.lbaCount)
      ensures device.handedOut - device.givenBack == old(device.handedOut - device.givenBack)
    {
      hide MaxLbas, NumChunks, Times, Within32Bits, FakeRead;
      var devBuffer := device.AllocateDeviceBuffer(Total(ctx));
      SubmitReads(ctx, devBuffer);
      ReadWhole(device.memory[..], ctx, device.lbaSize, device.lbaCount);
      buffer := devBuffer[..][ctx.offset..ctx.offset + ctx.nrBytes];
      device.FreeDeviceBuffer();
    }

    /** All blocks of the access, or anything where the whole of them is overwritten. */
    method FetchBlocks(ctx: CmdContext, devBuffer: array<Byte>)
      requires Ready(ctx, device, mdts) && devBuffer != device.memory && devBuffer.Length == Total(ctx)
      modifies devBuffer
      ensures Base(ctx) + Total(ctx) <= device.memory.Length
      ensures ctx.offset > 0 || ctx.nrBytes < Total(ctx) ==> devBuffer[..] == Source(ctx)
    {
      hide MaxLbas, NumChunks, Times, Within32Bits, Fits;
      var needsRmw := ctx.offset > 0 || ctx.nrBytes < Total(ctx);
      if needsRmw {
        ReadInOrder(ctx, devBuffer);
      } else {
        InMemory(ctx);
      }
    }

    lemma InMemory(ctx: CmdContext)
      requires Ready(ctx, device, mdts)
      ensures Base(ctx) + Total(ctx) <= device.memory.Length && ctx.offset + ctx.nrBytes <= Total(ctx)
    {
      hide MaxLbas, NumChunks, Times, Within32Bits;
      FitsBytes(ctx, device.lbaSize, device.lbaCount);
    }

    method Write(buffer: seq<Byte>, ctx: CmdContext)
      requires Ready(ctx, device, mdts) && |buffer| == ctx.nrBytes
      modifies device.memory, device`handedOut, device`givenBack
      ensures device.memory[..] == FakeWrite(old(device.memory[..]), ctx, device.lbaSize, device.lbaCount, buffer)
      ensures device.handedOut - device.givenBack == old(device.handedOut - device.givenBack)
    {
      hide MaxLbas, NumChunks, Times, Within32Bits, FakeWrite;
      var devBuffer := device.AllocateDeviceBuffer(Total(ctx));
      FetchBlocks(ctx, devBuffer);
      ghost var m, blocks := device.memory[..], devBuffer[..];
      InMemory(ctx);
      Memcpy(devBuffer, ctx.offset, buffer);
      SubmitWrites(ctx, devBuffer);
      WriteWhole(m, ctx, device.lbaSize, device.lbaCount, blocks, buffer);
      device.FreeDeviceBuffer();
    }
  }
}
