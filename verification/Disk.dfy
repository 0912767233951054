// Disk blocks and the disk itself.  A single block write is atomic; the ghost
// trace records every state the disk has been in, so that a property of all
// crash points of a piece of code is a property of what it adds to the trace.
module Disk {
  import opened Bytes

  const BSIZE: nat := 1024

  type Block = b: seq<Byte> | |b| == BSIZE witness Zeros(BSIZE)

  class Device {
    var blocks: seq<Block>
    ghost var trace: seq<seq<Block>>

    constructor (image: seq<Block>)
      ensures blocks == image && trace == [image]
    {
      blocks, trace := image, [image];
    }

    method Write(b: nat, data: Block)
      requires b < |blocks|
      modifies this
      ensures blocks == old(blocks)[b := data]
      ensures trace == old(trace) + [blocks]
    {
      blocks := blocks[b := data];
      trace := trace + [blocks];
    }
  }
}
