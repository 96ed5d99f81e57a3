/** The synchronous engine: one command for a read, at most one read and one write for a write. */
module SyncEngine {
  import opened Basics
  import opened Device

  class NvmeSyncIOEngine {
    const device: NvmeDevice

    constructor (device: NvmeDevice)
      ensures this.device == device
    {
      this.device := device;
    }

    ghost predicate Ready(ctx: CmdContext) {
      device.Valid() && Fits(ctx, device.lbaSize, device.lbaCount) && ctx.nrLbas > 0
    }

    method Read(ctx: CmdContext) returns (buffer: seq<Byte>)
      requires Ready(ctx)
      modifies device`handedOut, device`givenBack
      ensures buffer == FakeRead(device.memory[..], ctx, device.lbaSize, device.lbaCount)
      ensures device.handedOut - device.givenBack == old(device.handedOut - device.givenBack)
    {
      hide Times, FakeRead;
      var allocSize := Times(ctx.nrLbas, device.lbaSize);
      var devBuffer := device.AllocateDeviceBuffer(allocSize);
      device.NvmRead(ctx.startLba, ctx.nrLbas - 1, devBuffer, 0);
      ReadWhole(device.memory[..], ctx, device.lbaSize, device.lbaCount);
      ghost var from := Times(ctx.startLba, device.lbaSize);
      assert devBuffer[..] == device.memory[..][from..from + allocSize];
      buffer := devBuffer[..][ctx.offset..ctx.offset + ctx.nrBytes];
      device.FreeDeviceBuffer();
    }

    /** All blocks of the access, or anything where the whole of them is overwritten. */
    method FetchBlocks(ctx: CmdContext, devBuffer: array<Byte>)
      requires Ready(ctx) && devBuffer != device.memory && devBuffer.Length == Times(ctx.nrLbas, device.lbaSize)
      modifies devBuffer
      ensures Times(ctx.startLba, device.lbaSize) + devBuffer.Length <= device.memory.Length
      ensures ctx.offset + ctx.nrBytes <= devBuffer.Length
      ensures ctx.offset > 0 || ctx.nrBytes < devBuffer.Length ==>
        var from := Times(ctx.startLba, device.lbaSize);
        devBuffer[..] == device.memory[..][from..from + devBuffer.Length]
    {
      hide Times;
      FitsBytes(ctx, device.lbaSize, device.lbaCount);
      if ctx.offset > 0 || ctx.nrBytes < devBuffer.Length {
        device.NvmRead(ctx.startLba, ctx.nrLbas - 1, devBuffer, 0);
      }
    }

    method Write(buffer: seq<Byte>, ctx: CmdContext)
      requires Ready(ctx) && |buffer| == ctx.nrBytes
      modifies device.memory, device`handedOut, device`givenBack
      ensures device.memory[..] == FakeWrite(old(device.memory[..]), ctx, device.lbaSize, device.lbaCount, buffer)
      ensures device.handedOut - device.givenBack == old(device.handedOut - device.givenBack)
    {
      hide Times, FakeWrite;
      var allocSize := Times(ctx.nrLbas, device.lbaSize);
      var devBuffer := device.AllocateDeviceBuffer(allocSize);
      FetchBlocks(ctx, devBuffer);
      ghost var m, blocks := device.memory[..], devBuffer[..];
      Memcpy(devBuffer, ctx.offset, buffer);
      device.NvmWrite(ctx.startLba, ctx.nrLbas - 1, devBuffer, 0);
      assert devBuffer[0..0 + allocSize] == devBuffer[..];
      WriteWhole(m, ctx, device.lbaSize, device.lbaCount, blocks, buffer);
      device.FreeDeviceBuffer();
    }
  }
}
