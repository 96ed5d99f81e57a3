/** Flat-memory devices. FakeDevice is the simple specification the I/O engines must agree with;
    NvmeDevice takes the block commands the engines issue, each modelled as one step that
    succeeds on a byte memory. */
module Device {
  import opened Basics

  type Byte = bv8

  datatype CmdContext = CmdContext(nrBytes: nat, nrLbas: nat, startLba: nat, offset: nat)

  /** The bytes lie in the LBAs named and the LBAs on the device. */
  ghost predicate Fits(ctx: CmdContext, lbaSize: nat, lbaCount: nat) {
    ctx.startLba + ctx.nrLbas <= lbaCount && ctx.offset + ctx.nrBytes <= Times(ctx.nrLbas, lbaSize)
  }

  /** The device byte an access starts at. */
  function Position(ctx: CmdContext, lbaSize: nat): nat {
    Times(ctx.startLba, lbaSize) + ctx.offset
  }

  lemma FitsBytes(ctx: CmdContext, lbaSize: nat, lbaCount: nat)
    requires Fits(ctx, lbaSize, lbaCount)
    ensures Times(ctx.startLba, lbaSize) + Times(ctx.nrLbas, lbaSize) <= Times(lbaCount, lbaSize)
    ensures Position(ctx, lbaSize) + ctx.nrBytes <= Times(lbaCount, lbaSize)
  {
    hide Times;
    TimesAdd(ctx.startLba, ctx.nrLbas, lbaSize);
    TimesMonotone(ctx.startLba + ctx.nrLbas, lbaCount, lbaSize);
  }

  function Replace<T>(m: seq<T>, at: nat, data: seq<T>): (r: seq<T>)
    requires at + |data| <= |m|
    ensures |r| == |m|
    ensures forall i :: 0 <= i < |r| ==> r[i] == if at <= i < at + |data| then data[i - at] else m[i]
  {
    m[..at] + data + m[at + |data|..]
  }

  ghost function FakeWrite(m: seq<Byte>, ctx: CmdContext, lbaSize: nat, lbaCount: nat, data: seq<Byte>): (r: seq<Byte>)
    requires |m| == Times(lbaCount, lbaSize) && Fits(ctx, lbaSize, lbaCount) && |data| == ctx.nrBytes
    ensures |r| == |m|
  {
    FitsBytes(ctx, lbaSize, lbaCount);
    Replace(m, Position(ctx, lbaSize), data)
  }

  ghost function FakeRead(m: seq<Byte>, ctx: CmdContext, lbaSize: nat, lbaCount: nat): (r: seq<Byte>)
    requires |m| == Times(lbaCount, lbaSize) && Fits(ctx, lbaSize, lbaCount)
    ensures |r| == ctx.nrBytes
  {
    FitsBytes(ctx, lbaSize, lbaCount);
    m[Position(ctx, lbaSize)..Position(ctx, lbaSize) + ctx.nrBytes]
  }

  /** What a read sees of a write before it: its bytes where they overlap, the old ones elsewhere. */
  lemma ReadAfterWrite(m: seq<Byte>, w: CmdContext, r: CmdContext, lbaSize: nat, lbaCount: nat, data: seq<Byte>, i: nat)
    requires |m| == Times(lbaCount, lbaSize) && Fits(w, lbaSize, lbaCount) && Fits(r, lbaSize, lbaCount)
    requires |data| == w.nrBytes
    requires i < r.nrBytes
    ensures var at := Position(r, lbaSize) + i - Position(w, lbaSize);
            FakeRead(FakeWrite(m, w, lbaSize, lbaCount, data), r, lbaSize, lbaCount)[i]
              == if 0 <= at < w.nrBytes then data[at] else FakeRead(m, r, lbaSize, lbaCount)[i]
  {
    hide Position, Fits, Times;
    FitsBytes(w, lbaSize, lbaCount);
    FitsBytes(r, lbaSize, lbaCount);
  }

  lemma SliceSlice<T>(m: seq<T>, a: nat, b: nat, c: nat, d: nat)
    requires a <= b <= |m| && c <= d <= b - a
    ensures m[a..b][c..d] == m[a + c..a + d]
  {
    var whole := m[a..b];
    var x, y := whole[c..d], m[a + c..a + d];
    forall i | 0 <= i < d - c ensures x[i] == y[i] {
      assert x[i] == whole[c + i] == m[a + c + i] == y[i];
    }
  }

  lemma ReplaceElsewhere<T>(m: seq<T>, at: nat, data: seq<T>, lo: nat, hi: nat)
    requires at + |data| <= |m| && lo <= hi <= |m| && (at + |data| <= lo || hi <= at)
    ensures Replace(m, at, data)[lo..hi] == m[lo..hi]
  {
  }

  /** Reading all blocks of an access and taking the bytes asked for is the flat read. */
  lemma ReadWhole(m: seq<Byte>, ctx: CmdContext, lbaSize: nat, lbaCount: nat)
    requires |m| == Times(lbaCount, lbaSize) && Fits(ctx, lbaSize, lbaCount)
    ensures Times(ctx.startLba, lbaSize) + Times(ctx.nrLbas, lbaSize) <= |m|
    ensures var from, to := Times(ctx.startLba, lbaSize), Times(ctx.startLba, lbaSize) + Times(ctx.nrLbas, lbaSize);
            m[from..to][ctx.offset..ctx.offset + ctx.nrBytes] == FakeRead(m, ctx, lbaSize, lbaCount)
  {
    hide Times;
    FitsBytes(ctx, lbaSize, lbaCount);
    var base := Times(ctx.startLba, lbaSize);
    SliceSlice(m, base, base + Times(ctx.nrLbas, lbaSize), ctx.offset, ctx.offset + ctx.nrBytes);
  }

  /** Read-modify-write: all blocks read, or nothing but bytes that are overwritten, then the new
      bytes put in place and all blocks written back. It is the flat write. */
  lemma WriteWhole(m: seq<Byte>, ctx: CmdContext, lbaSize: nat, lbaCount: nat, blocks: seq<Byte>, data: seq<Byte>)
    requires |m| == Times(lbaCount, lbaSize) && Fits(ctx, lbaSize, lbaCount)
    requires |data| == ctx.nrBytes && |blocks| == Times(ctx.nrLbas, lbaSize)
    requires Times(ctx.startLba, lbaSize) + |blocks| <= |m|
    requires ctx.offset > 0 || ctx.nrBytes < |blocks| ==>
      blocks == m[Times(ctx.startLba, lbaSize)..Times(ctx.startLba, lbaSize) + |blocks|]
    ensures Replace(m, Times(ctx.startLba, lbaSize), Replace(blocks, ctx.offset, data))
      == FakeWrite(m, ctx, lbaSize, lbaCount, data)
  {
    hide Times;
    FitsBytes(ctx, lbaSize, lbaCount);
  }

  method Memcpy(to: array<Byte>, at: nat, data: seq<Byte>)
    requires at + |data| <= to.Length
    modifies to
    ensures to[..] == Replace(old(to[..]), at, data)
  {
    forall i | 0 <= i < |data| {
      to[at + i] := data[i];
    }
  }

  class FakeDevice {
    const lbaSize: nat
    const lbaCount: nat
    const memory: array<Byte>

    ghost predicate Valid() {
      lbaSize > 0 && memory.Length == Times(lbaCount, lbaSize)
    }

    method Write(buffer: seq<Byte>, ctx: CmdContext)
      requires Valid() && Fits(ctx, lbaSize, lbaCount) && |buffer| == ctx.nrBytes
      modifies memory
      ensures memory[..] == FakeWrite(old(memory[..]), ctx, lbaSize, lbaCount, buffer)
    {
      hide Times;
      FitsBytes(ctx, lbaSize, lbaCount);
      Memcpy(memory, Position(ctx, lbaSize), buffer);
    }

    method Read(ctx: CmdContext) returns (buffer: seq<Byte>)
      requires Valid() && Fits(ctx, lbaSize, lbaCount)
      ensures buffer == FakeRead(memory[..], ctx, lbaSize, lbaCount)
    {
      hide Times;
      FitsBytes(ctx, lbaSize, lbaCount);
      var at := Position(ctx, lbaSize);
      buffer := memory[at..at + ctx.nrBytes];
    }

    constructor (lbaCount: nat, lbaSize: nat)
      requires lbaSize > 0
      ensures Valid() && this.lbaCount == lbaCount && this.lbaSize == lbaSize && fresh(memory)
    {
      this.lbaSize, this.lbaCount := lbaSize, lbaCount;
      memory := new Byte[Times(lbaCount, lbaSize)];
    }
  }

  class NvmeDevice {
    const lbaSize: nat
    const lbaCount: nat
    const memory: array<Byte>
    var handedOut: int  // device buffers handed out
    var givenBack: int

    ghost predicate Valid() {
      lbaSize > 0 && memory.Length == Times(lbaCount, lbaSize)
    }

    /** A device buffer has arbitrary contents. */
    method AllocateDeviceBuffer(nrBytes: nat) returns (buffer: array<Byte>)
      modifies `handedOut
      ensures fresh(buffer) && buffer.Length == nrBytes && handedOut == old(handedOut) + 1
    {
      buffer := new Byte[nrBytes];
      handedOut := handedOut + 1;
    }

    method FreeDeviceBuffer()
      modifies `givenBack
      ensures givenBack == old(givenBack) + 1
    {
      givenBack := givenBack + 1;
    }

    /** The count of blocks in a command is zero-based. */
    method NvmRead(slba: nat, nlb: nat, buffer: array<Byte>, at: nat)
      requires Valid() && slba + nlb + 1 <= lbaCount && at + Times(nlb + 1, lbaSize) <= buffer.Length
      requires buffer != memory
      modifies buffer
      ensures Times(slba, lbaSize) + Times(nlb + 1, lbaSize) <= memory.Length
      ensures buffer[..] == Replace(old(buffer[..]), at,
          memory[Times(slba, lbaSize)..Times(slba, lbaSize) + Times(nlb + 1, lbaSize)])
    {
      hide Times;
      Within(slba, nlb + 1);
      Memcpy(buffer, at, memory[Times(slba, lbaSize)..Times(slba, lbaSize) + Times(nlb + 1, lbaSize)]);
    }

    lemma Within(slba: nat, n: nat)
      requires Valid() && slba + n <= lbaCount
      ensures Times(slba, lbaSize) + Times(n, lbaSize) <= memory.Length
    {
      hide Times;
      TimesMonotone(slba + n, lbaCount, lbaSize);
      TimesAdd(slba, n, lbaSize);
    }

    method NvmWrite(slba: nat, nlb: nat, buffer: array<Byte>, at: nat)
      requires Valid() && slba + nlb + 1 <= lbaCount && at + Times(nlb + 1, lbaSize) <= buffer.Length
      requires buffer != memory
      modifies memory
      ensures Times(slba, lbaSize) + Times(nlb + 1, lbaSize) <= memory.Length
      ensures memory[..] == Replace(old(memory[..]), Times(slba, lbaSize), buffer[at..at + Times(nlb + 1, lbaSize)])
    {
      hide Times;
      Within(slba, nlb + 1);
      Memcpy(memory, Times(slba, lbaSize), buffer[at..at + Times(nlb + 1, lbaSize)]);
    }

    constructor (lbaCount: nat, lbaSize: nat)
      requires lbaSize > 0
      ensures Valid() && this.lbaCount == lbaCount && this.lbaSize == lbaSize && fresh(memory)
      ensures handedOut == givenBack == 0
    {
      this.lbaSize, this.lbaCount, handedOut, givenBack := lbaSize, lbaCount, 0, 0;
      memory := new Byte[Times(lbaCount, lbaSize)];
    }
  }
}
