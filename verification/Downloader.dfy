/** From L1 blocks to an ordered stream of compressed Fuel blocks, after crates/downloader/src/lib.rs.

The beacon node is a parameter: for an L1 block and its successor it yields the blobs of the watched
contract, or no sidecars at all, or an error. The receiver of the stream is represented by `room`, the
number of sends that will still succeed before it is gone. */
module Downloader {
  import opened Wrappers
  import opened Codec
  import opened BundleBuffer
  import BB = BlockBuffer

  datatype Error =
    | BadBlob(insert: InsertError)
    | UndecodableBlock
    | BeaconFailed
    | ReceiverGone
    | OutOfFuelBlockNumbers

  datatype Outcome = Ok | Err(error: Error)

  datatype Fetched = NoSidecars | Sidecars(blobs: seq<Blob>) | FetchFailed

  type Beacon = (L1Block, L1Block) -> Fetched

  datatype State = State(
    buffers: Buffers,
    blocks: BB.Blocks,
    nextFuelBlock: u32,
    sent: seq<CompressedBlock>,
    room: nat)

  function Init(nextFuelBlock: u32, room: nat): State {
    State(map[], map[], nextFuelBlock, [], room)
  }

  /** Decode and push the blocks of a bundle. A block that cannot be decoded stops the loop; the blocks
      before it stay pushed. */
  function PushAll(codec: Decoders, s: State, raw: seq<Bytes>): (State, Outcome)
    decreases |raw|
  {
    if |raw| == 0 then (s, Ok)
    else match codec.decodeBlock(raw[0])
      case None => (s, Err(UndecodableBlock))
      case Some(block) => PushAll(codec, s.(blocks := BB.Pushed(s.blocks, block)), raw[1..])
  }

  /** Send the next block and take it out of the buffer. */
  function SendHead(s: State): State
    requires s.nextFuelBlock in s.blocks && s.room > 0
  {
    s.(blocks := Without(s.blocks, s.nextFuelBlock),
       sent := s.sent + [s.blocks[s.nextFuelBlock]],
       room := s.room - 1)
  }

  /** Send the run of blocks that starts at `nextFuelBlock`. The successor of the last u32 height does not
      exist, so sending that height ends the stream. */
  function Drain(s: State): (State, Outcome)
    decreases |s.blocks|
  {
    if !FirstKeyIs(s.blocks, s.nextFuelBlock) then (s, Ok)
    else if s.room == 0 then
      (s.(blocks := Without(s.blocks, s.nextFuelBlock)), Err(ReceiverGone))
    else if s.nextFuelBlock == U32_MAX then
      (SendHead(s), Err(OutOfFuelBlockNumbers))
    else
      Drain(SendHead(s).(nextFuelBlock := s.nextFuelBlock + 1))
  }

  /** A complete bundle: push its blocks, prune, drain. */
  function Absorb(codec: Decoders, s: State, raw: seq<Bytes>): (State, Outcome) {
    var (p, pushed) := PushAll(codec, s, raw);
    if pushed.Err? then (p, pushed)
    else Drain(p.(blocks := BB.SplitOff(p.blocks, p.nextFuelBlock)))
  }

  function ProcessBlob(codec: Decoders, s: State, blob: Blob): (State, Outcome) {
    var (buffers, inserted) := Insert(codec, s.buffers, blob);
    var t := s.(buffers := buffers);
    match inserted
    case Rejected(e) => (t, Err(BadBlob(e)))
    case Incomplete => (t, Ok)
    case Complete(raw) => Absorb(codec, t, raw)
  }

  function ProcessBlobs(codec: Decoders, s: State, blobs: seq<Blob>): (State, Outcome)
    decreases |blobs|
  {
    if |blobs| == 0 then (s, Ok)
    else
      var (t, r) := ProcessBlob(codec, s, blobs[0]);
      if r.Err? then (t, r) else ProcessBlobs(codec, t, blobs[1..])
  }

  function ProcessFetched(codec: Decoders, s: State, fetched: Fetched): (State, Outcome) {
    match fetched
    case FetchFailed => (s, Err(BeaconFailed))
    case NoSidecars => (s, Ok)
    case Sidecars(blobs) => ProcessBlobs(codec, s, blobs)
  }

  /** Each L1 block but the newest is processed together with its successor; the first error ends it. */
  function StreamBlocks(codec: Decoders, beacon: Beacon, s: State, blocks: seq<L1Block>): (State, Outcome)
    decreases |blocks|
  {
    if |blocks| < 2 then (s, Ok)
    else
      var (t, r) := ProcessFetched(codec, s, beacon(blocks[0], blocks[1]));
      if r.Err? then (t, r) else StreamBlocks(codec, beacon, t, blocks[1..])
  }

  // ---------------------------------------------------------------- the imperative form

  class Downloader {
    const codec: Decoders
    const bundleBuffers: IncompleteBundleBuffers
    const blockBuffer: BB.BlockBuffer
    var nextFuelBlock: u32
    var sent: seq<CompressedBlock>
    var room: nat

    ghost predicate Valid()
      reads this, bundleBuffers
    {
      bundleBuffers.Valid() && bundleBuffers.codec == codec
    }

    function Abs(): State
      reads this, bundleBuffers, blockBuffer
    {
      State(bundleBuffers.byId, blockBuffer.blocks, nextFuelBlock, sent, room)
    }

    constructor (codec: Decoders, nextFuelBlock: u32, room: nat)
      ensures Valid() && this.codec == codec && Abs() == Init(nextFuelBlock, room)
      ensures fresh(bundleBuffers) && fresh(blockBuffer)
    {
      this.codec := codec;
      bundleBuffers := new IncompleteBundleBuffers(codec);
      blockBuffer := new BB.BlockBuffer();
      this.nextFuelBlock, this.sent, this.room := nextFuelBlock, [], room;
    }

    method PushBundle(raw: seq<Bytes>) returns (r: Outcome)
      requires Valid()
      modifies blockBuffer
      ensures Valid()
      ensures (Abs(), r) == PushAll(codec, old(Abs()), raw)
    {
      var i := 0;
      while i < |raw|
        invariant 0 <= i <= |raw|
        invariant Valid()
        invariant PushAll(codec, Abs(), raw[i..]) == PushAll(codec, old(Abs()), raw)
      {
        assert raw[i..][1..] == raw[i + 1..];
        var decoded := codec.decodeBlock(raw[i]);
        if decoded.None? {
          return Err(UndecodableBlock);
        }
        blockBuffer.Push(decoded.value);
        i := i + 1;
      }
      r := Ok;
    }

    /** The head has been popped: send it. */
    method SendPopped(block: CompressedBlock, ghost s: State) returns (r: Outcome)
      requires Valid() && FirstKeyIs(s.blocks, s.nextFuelBlock) && block == s.blocks[s.nextFuelBlock]
      requires Abs() == s.(blocks := Without(s.blocks, s.nextFuelBlock))
      modifies this
      ensures Valid()
      ensures r.Err? ==> (Abs(), r) == Drain(s)
      ensures r.Ok? ==> s.room > 0 && s.nextFuelBlock < U32_MAX
      ensures r.Ok? ==> Abs() == SendHead(s).(nextFuelBlock := s.nextFuelBlock + 1) && Drain(s) == Drain(Abs())
    {
      if room == 0 {
        return Err(ReceiverGone);
      }
      sent := sent + [block];
      room := room - 1;
      if nextFuelBlock == U32_MAX {
        return Err(OutOfFuelBlockNumbers);
      }
      nextFuelBlock := nextFuelBlock + 1;
      r := Ok;
    }

    method SendReady() returns (r: Outcome)
      requires Valid()
      modifies this, blockBuffer
      ensures Valid()
      ensures (Abs(), r) == Drain(old(Abs()))
    {
      ghost var s := Abs();
      var head := blockBuffer.PopHeight(nextFuelBlock);
      while head.Some?
        invariant Valid()
        invariant Drain(s) == Drain(old(Abs()))
        invariant head.None? ==> Abs() == s && !FirstKeyIs(s.blocks, s.nextFuelBlock)
        invariant head.Some? ==>
          && FirstKeyIs(s.blocks, s.nextFuelBlock) && head.value == s.blocks[s.nextFuelBlock]
          && Abs() == s.(blocks := Without(s.blocks, s.nextFuelBlock))
        decreases |s.blocks|
      {
        r := SendPopped(head.value, s);
        if r.Err? {
          return;
        }
        s := Abs();
        head := blockBuffer.PopHeight(nextFuelBlock);
      }
      r := Ok;
    }

    method ProcessBlock(fetched: Fetched) returns (r: Outcome)
      requires Valid()
      modifies this, bundleBuffers, blockBuffer
      ensures Valid()
      ensures (Abs(), r) == ProcessFetched(codec, old(Abs()), fetched)
    {
      if fetched.FetchFailed? { return Err(BeaconFailed); }
      if fetched.NoSidecars? { return Ok; }
      var blobs, i := fetched.blobs, 0;
      while i < |blobs|
        invariant 0 <= i <= |blobs|
        invariant Valid()
        invariant ProcessBlobs(codec, Abs(), blobs[i..]) == ProcessBlobs(codec, old(Abs()), blobs)
      {
        assert blobs[i..][1..] == blobs[i + 1..];
        ghost var s := Abs();
        var inserted := bundleBuffers.InsertBlob(blobs[i]);
        if inserted.Rejected? { return Err(BadBlob(inserted.error)); }
        if inserted.Complete? {
          r := PushBundle(inserted.blocks);
          if r.Err? { return; }
          blockBuffer.PruneBelow(nextFuelBlock);
          r := SendReady();
          if r.Err? { return; }
        }
        assert (Abs(), Ok) == ProcessBlob(codec, s, blobs[i]);
        i := i + 1;
      }
      r := Ok;
    }

    /** Any finite part of the stream of L1 blocks. */
    method StreamInner(beacon: Beacon, blocks: seq<L1Block>) returns (r: Outcome)
      requires Valid()
      modifies this, bundleBuffers, blockBuffer
      ensures Valid()
      ensures (Abs(), r) == StreamBlocks(codec, beacon, old(Abs()), blocks)
    {
      if |blocks| == 0 { return Ok; }
      var thisBlock, i := blocks[0], 1;
      while i < |blocks|
        invariant 1 <= i <= |blocks| && thisBlock == blocks[i - 1]
        invariant Valid()
        invariant StreamBlocks(codec, beacon, Abs(), blocks[i - 1..])
               == StreamBlocks(codec, beacon, old(Abs()), blocks)
      {
        assert blocks[i - 1..][1..] == blocks[i..] && blocks[i - 1..][1] == blocks[i];
        var nextBlock := blocks[i];
        r := ProcessBlock(beacon(thisBlock, nextBlock));
        if r.Err? { return; }
        thisBlock := nextBlock;
        i := i + 1;
      }
      r := Ok;
    }
  }
}
