/** The reorder buffer of crates/downloader/src/block_buffer.rs. */
module BlockBuffer {
  import opened Wrappers
  import opened Codec

  type Blocks = map<u32, CompressedBlock>

  function Pushed(m: Blocks, block: CompressedBlock): Blocks {
    m[block.height := block]
  }

  /** The part of the map at `height` and above. */
  function SplitOff(m: Blocks, height: u32): Blocks {
    map k | k in m && height <= k :: m[k]
  }

  class BlockBuffer {
    var blocks: Blocks

    constructor ()
      ensures blocks == map[]
    {
      blocks := map[];
    }

    method Push(block: CompressedBlock)
      modifies this
      ensures blocks == Pushed(old(blocks), block)
    {
      blocks := blocks[block.height := block];
    }

    method PruneBelow(height: u32)
      modifies this
      ensures blocks == SplitOff(old(blocks), height)
    {
      blocks := map k | k in blocks && height <= k :: blocks[k];
    }

    method PopHeight(height: u32) returns (r: Option<CompressedBlock>)
      modifies this
      ensures r.Some? == FirstKeyIs(old(blocks), height)
      ensures r.Some? ==> r.value == old(blocks)[height] && blocks == Without(old(blocks), height)
      ensures r.None? ==> blocks == old(blocks)
    {
      if FirstKeyIs(blocks, height) {
        r := Some(blocks[height]);
        blocks := Without(blocks, height);
      } else {
        r := None;
      }
    }
  }
}
