/** The download queue and the downloader together: from any schedule of L1 requests to Fuel blocks. */
module Pipeline {
  import opened Wrappers
  import opened Codec
  import opened BundleBuffer
  import opened BundleBufferProofs
  import opened Confluence
  import opened Downloader
  import BB = BlockBuffer
  import Q = DownloadQueue
  import QP = DownloadQueueProofs

  // ---------------------------------------------------------------- lookahead pairing

  /** The pairs (this block, next block) of a sequence of L1 blocks. */
  function Pairs(blocks: seq<L1Block>): seq<(L1Block, L1Block)> {
    if |blocks| < 2 then [] else [(blocks[0], blocks[1])] + Pairs(blocks[1..])
  }

  lemma {:induction false} PairsAt(blocks: seq<L1Block>, i: nat)
    requires i + 1 < |blocks|
    ensures |Pairs(blocks)| == |blocks| - 1 && Pairs(blocks)[i] == (blocks[i], blocks[i + 1])
    decreases |blocks|
  {
    if i > 0 {
      PairsAt(blocks[1..], i - 1);
    } else if |blocks| > 2 {
      PairsAt(blocks[1..], 0);
    }
  }

  /** One call of `process_block` per pair, up to the first error. */
  function ProcessPairs(codec: Decoders, beacon: Beacon, s: State, pairs: seq<(L1Block, L1Block)>): (State, Outcome)
    decreases |pairs|
  {
    if |pairs| == 0 then (s, Ok)
    else
      var (t, r) := ProcessFetched(codec, s, beacon(pairs[0].0, pairs[0].1));
      if r.Err? then (t, r) else ProcessPairs(codec, beacon, t, pairs[1..])
  }

  lemma {:induction false} StreamProcessesPairs(codec: Decoders, beacon: Beacon, s: State, blocks: seq<L1Block>)
    ensures StreamBlocks(codec, beacon, s, blocks) == ProcessPairs(codec, beacon, s, Pairs(blocks))
    decreases |blocks|
  {
    if |blocks| < 2 {
    } else {
      var (t, r) := ProcessFetched(codec, s, beacon(blocks[0], blocks[1]));
      assert Pairs(blocks)[1..] == Pairs(blocks[1..]);
      if r.Ok? { StreamProcessesPairs(codec, beacon, t, blocks[1..]); }
    }
  }

  /** Lookahead pairing: whatever the schedule and the answers, the i-th call of `process_block` is for the L1
      blocks numbered start + i and start + i + 1, and every block emitted but the newest gets one. */
  lemma LookaheadPairing(codec: Decoders, beacon: Beacon, s: State, start: nat, evs: seq<Q.Event>)
    requires Q.Schedule(Q.Start(start), evs)
    ensures var out := Q.Run(Q.Start(start), evs).emitted; var pairs := Pairs(out);
      && StreamBlocks(codec, beacon, s, out) == ProcessPairs(codec, beacon, s, pairs)
      && |pairs| == (if |out| == 0 then 0 else |out| - 1)
      && forall i | 0 <= i < |pairs| :: pairs[i].0.number == start + i && pairs[i].1.number == start + i + 1
  {
    var out := Q.Run(Q.Start(start), evs).emitted;
    QP.InOrderEmission(start, evs);
    StreamProcessesPairs(codec, beacon, s, out);
    if |out| >= 2 { PairsAt(out, 0); }
    forall i | 0 <= i < |Pairs(out)|
      ensures Pairs(out)[i].0.number == start + i && Pairs(out)[i].1.number == start + i + 1
    {
      PairsAt(out, i);
    }
  }

  // ---------------------------------------------------------------- order, whatever L1 contains

  ghost predicate Consecutive(start: u32, sent: seq<CompressedBlock>) {
    forall i | 0 <= i < |sent| :: sent[i].height == start + i
  }

  /** What has been sent is consecutive up to the next height, and blocks are filed under their own height. */
  ghost predicate Filed(start: u32, s: State) {
    && start + |s.sent| == s.nextFuelBlock && Consecutive(start, s.sent)
    && forall k | k in s.blocks :: s.blocks[k].height == k
  }

  lemma SendKeepsFiled(start: u32, s: State)
    requires Filed(start, s) && s.nextFuelBlock in s.blocks && s.room > 0
    ensures Consecutive(start, SendHead(s).sent)
    ensures s.nextFuelBlock < U32_MAX ==> Filed(start, SendHead(s).(nextFuelBlock := s.nextFuelBlock + 1))
  {
  }

  lemma {:induction false} DrainInOrder(start: u32, s: State)
    requires Filed(start, s)
    ensures Consecutive(start, Drain(s).0.sent) && (Drain(s).1.Ok? ==> Filed(start, Drain(s).0))
    decreases |s.blocks|
  {
    if !FirstKeyIs(s.blocks, s.nextFuelBlock) || s.room == 0 || s.nextFuelBlock == U32_MAX {
      if FirstKeyIs(s.blocks, s.nextFuelBlock) && s.room > 0 { SendKeepsFiled(start, s); }
    } else {
      SendKeepsFiled(start, s);
      DrainInOrder(start, SendHead(s).(nextFuelBlock := s.nextFuelBlock + 1));
    }
  }

  lemma {:induction false} PushAllFiles(codec: Decoders, start: u32, s: State, raw: seq<Bytes>)
    requires Filed(start, s)
    ensures Filed(start, PushAll(codec, s, raw).0)
    decreases |raw|
  {
    if |raw| == 0 {
    } else if codec.decodeBlock(raw[0]).Some? {
      PushAllFiles(codec, start, s.(blocks := BB.Pushed(s.blocks, codec.decodeBlock(raw[0]).value)), raw[1..]);
    }
  }

  lemma AbsorbInOrder(codec: Decoders, start: u32, s: State, raw: seq<Bytes>)
    requires Filed(start, s)
    ensures var (t, r) := Absorb(codec, s, raw); Consecutive(start, t.sent) && (r.Ok? ==> Filed(start, t))
  {
    PushAllFiles(codec, start, s, raw);
    var p := PushAll(codec, s, raw).0;
    DrainInOrder(start, p.(blocks := BB.SplitOff(p.blocks, p.nextFuelBlock)));
  }

  lemma {:induction false} ProcessBlobsInOrder(codec: Decoders, start: u32, s: State, blobs: seq<Blob>)
    requires Filed(start, s)
    ensures var (t, r) := ProcessBlobs(codec, s, blobs); Consecutive(start, t.sent) && (r.Ok? ==> Filed(start, t))
    decreases |blobs|
  {
    if |blobs| == 0 {
    } else {
      var (buffers, inserted) := Insert(codec, s.buffers, blobs[0]);
      var t := s.(buffers := buffers);
      if inserted.Complete? { AbsorbInOrder(codec, start, t, inserted.blocks); }
      var (u, r) := ProcessBlob(codec, s, blobs[0]);
      if r.Ok? { ProcessBlobsInOrder(codec, start, u, blobs[1..]); }
    }
  }

  lemma {:induction false} StreamInOrder(codec: Decoders, beacon: Beacon, start: u32, s: State, blocks: seq<L1Block>)
    requires Filed(start, s)
    ensures Consecutive(start, StreamBlocks(codec, beacon, s, blocks).0.sent)
    decreases |blocks|
  {
    if |blocks| < 2 {
    } else {
      var fetched := beacon(blocks[0], blocks[1]);
      if fetched.Sidecars? { ProcessBlobsInOrder(codec, start, s, fetched.blobs); }
      var (t, r) := ProcessFetched(codec, s, fetched);
      if r.Ok? { StreamInOrder(codec, beacon, start, t, blocks[1..]); }
    }
  }

  /** Whatever the L1 blocks, the beacon and the blobs contain, garbage included, the Fuel blocks sent have the
      heights start, start + 1, ... */
  lemma FuelBlocksInOrder(codec: Decoders, beacon: Beacon, start: u32, room: nat, blocks: seq<L1Block>)
    ensures Consecutive(start, StreamBlocks(codec, beacon, Init(start, room), blocks).0.sent)
  {
    StreamInOrder(codec, beacon, start, Init(start, room), blocks);
  }

  // ---------------------------------------------------------------- blobs across L1 blocks

  /** The beacon answers for every pair. */
  ghost predicate BeaconAnswers(beacon: Beacon, blocks: seq<L1Block>) {
    forall i | 0 <= i < |blocks| - 1 :: !beacon(blocks[i], blocks[i + 1]).FetchFailed?
  }

  /** The L1 blocks up to the first whose beacon request fails; all of them, if none does. */
  function Answered(beacon: Beacon, blocks: seq<L1Block>): (n: seq<L1Block>)
    ensures n <= blocks
    decreases |blocks|
  {
    if |blocks| < 2 then blocks
    else if beacon(blocks[0], blocks[1]).FetchFailed? then [blocks[0]]
    else [blocks[0]] + Answered(beacon, blocks[1..])
  }

  /** Some request fails along the L1 blocks. */
  predicate BeaconFails(beacon: Beacon, blocks: seq<L1Block>) {
    |Answered(beacon, blocks)| < |blocks|
  }

  /** The beacon answers for every pair of the answered blocks, and fails for the pair that follows. */
  lemma {:induction false} AnsweredIsPrefix(beacon: Beacon, blocks: seq<L1Block>)
    ensures var n := Answered(beacon, blocks);
      && BeaconAnswers(beacon, n)
      && (|n| < |blocks| ==> |n| > 0 && beacon(blocks[|n| - 1], blocks[|n|]).FetchFailed?)
    decreases |blocks|
  {
    if |blocks| < 2 || beacon(blocks[0], blocks[1]).FetchFailed? {
    } else {
      var rest := Answered(beacon, blocks[1..]);
      AnsweredIsPrefix(beacon, blocks[1..]);
      AnswersOneMore(beacon, blocks[0], rest);
      if |rest| < |blocks| - 1 {
        assert blocks[1..][|rest| - 1] == blocks[|rest|] && blocks[1..][|rest|] == blocks[|rest| + 1];
      }
    }
  }

  lemma AnswersOneMore(beacon: Beacon, first: L1Block, rest: seq<L1Block>)
    requires BeaconAnswers(beacon, rest) && (|rest| > 0 ==> !beacon(first, rest[0]).FetchFailed?)
    ensures BeaconAnswers(beacon, [first] + rest)
  {
    var n := [first] + rest;
    forall i | 0 <= i < |n| - 1 ensures !beacon(n[i], n[i + 1]).FetchFailed? {
      if i > 0 { assert !beacon(rest[i - 1], rest[(i - 1) + 1]).FetchFailed?; }
    }
  }

  /** All blobs found along the L1 blocks, in order. */
  function Gathered(beacon: Beacon, blocks: seq<L1Block>): seq<Blob>
    decreases |blocks|
  {
    if |blocks| < 2 then []
    else
      (match beacon(blocks[0], blocks[1])
       case Sidecars(blobs) => blobs
       case _ => []) + Gathered(beacon, blocks[1..])
  }

  /** How blobs are spread over L1 blocks does not matter. */
  lemma {:induction false} StreamProcessesGathered(codec: Decoders, beacon: Beacon, s: State, blocks: seq<L1Block>)
    requires BeaconAnswers(beacon, blocks)
    ensures StreamBlocks(codec, beacon, s, blocks) == ProcessBlobs(codec, s, Gathered(beacon, blocks))
    decreases |blocks|
  {
    if |blocks| < 2 {
    } else {
      var rest := blocks[1..];
      forall i | 0 <= i < |rest| - 1 ensures !beacon(rest[i], rest[i + 1]).FetchFailed? {
        assert !beacon(blocks[i + 1], blocks[(i + 1) + 1]).FetchFailed?;
      }
      assert !beacon(blocks[0], blocks[0 + 1]).FetchFailed?;
      var fetched := beacon(blocks[0], blocks[1]);
      var (t, r) := ProcessFetched(codec, s, fetched);
      var here := if fetched.Sidecars? then fetched.blobs else [];
      ProcessBlobsAppend(codec, s, here, Gathered(beacon, rest));
      if r.Ok? { StreamProcessesGathered(codec, beacon, t, rest); }
    }
  }

  /** One failed request ends the stream, after whatever the pairs before it have led to. */
  lemma {:induction false} FailedRequestEndsStream(codec: Decoders, beacon: Beacon, s: State, blocks: seq<L1Block>)
    ensures StreamBlocks(codec, beacon, s, blocks) ==
      var (t, r) := ProcessBlobs(codec, s, Gathered(beacon, Answered(beacon, blocks)));
      (t, if r.Ok? && BeaconFails(beacon, blocks) then Err(BeaconFailed) else r)
    decreases |blocks|
  {
    if |blocks| < 2 {
    } else if beacon(blocks[0], blocks[1]).FetchFailed? {
      assert Answered(beacon, blocks) == [blocks[0]];
    } else {
      var rest := Answered(beacon, blocks[1..]);
      var fetched := beacon(blocks[0], blocks[1]);
      var here := if fetched.Sidecars? then fetched.blobs else [];
      GatheredFirst(beacon, blocks[0], rest, here);
      ProcessBlobsAppend(codec, s, here, Gathered(beacon, rest));
      FailedRequestEndsStream(codec, beacon, ProcessFetched(codec, s, fetched).0, blocks[1..]);
    }
  }

  lemma GatheredFirst(beacon: Beacon, first: L1Block, rest: seq<L1Block>, here: seq<Blob>)
    requires |rest| > 0
    requires var fetched := beacon(first, rest[0]); here == if fetched.Sidecars? then fetched.blobs else []
    ensures Gathered(beacon, [first] + rest) == here + Gathered(beacon, rest)
  {
    assert ([first] + rest)[1..] == rest;
  }

  /** The first request that fails, said without the prefix: it is the k-th, and the stream over any longer stretch is
      that over the first k pairs, with the error if nothing else has ended it. */
  lemma FirstFailureDecides(codec: Decoders, beacon: Beacon, s: State, blocks: seq<L1Block>, k: nat)
    requires k + 1 < |blocks| && beacon(blocks[k], blocks[k + 1]).FetchFailed?
    requires forall i | 0 <= i < k :: !beacon(blocks[i], blocks[i + 1]).FetchFailed?
    ensures Answered(beacon, blocks) == blocks[..k + 1]
    ensures StreamBlocks(codec, beacon, s, blocks) ==
      var (t, r) := ProcessBlobs(codec, s, Gathered(beacon, blocks[..k + 1]));
      (t, if r.Ok? then Err(BeaconFailed) else r)
  {
    AnsweredIsPrefix(beacon, blocks);
    FailedRequestEndsStream(codec, beacon, s, blocks);
    assert |Answered(beacon, blocks)| == k + 1;
  }

  // ---------------------------------------------------------------- end to end

  /** How a stream ends that still listens: with the first piece that offends, or else with the first beacon request
      that fails, or else not at all. */
  ghost function EndOfStream(codec: Decoders, cat: Catalog, d: seq<Piece>, fails: bool): Outcome
    requires Pieces(cat, d)
  {
    if EndOf(codec, cat, d).Ok? && fails then Err(BeaconFailed) else EndOf(codec, cat, d)
  }

  /** The whole pipeline: under any schedule of L1 requests, if the blobs found along the emitted L1 blocks up to the
      first failed beacon request are blobs of well-formed, coherent bundles, in any order and with any repeats, the
      Fuel blocks sent are the canonical ones from `fuelStart` to the first height not covered by a bundle fully
      delivered before the first blob that offends. If the stream still listens then, it ends with that offence, if
      there is one, or else with the failed request, if there is one. */
  lemma PipelineEmits(codec: Decoders, beacon: Beacon, cat: Catalog, canon: u32 -> CompressedBlock,
                      answer: nat -> L1Block, start: nat, fuelStart: u32, room: nat,
                      evs: seq<Q.Event>, n: nat, d: seq<Piece>) returns (t: State, r: Outcome)
    requires Q.Schedule(Q.Start(start), evs)
    requires forall i | 0 <= i < |evs| :: QP.Answers(answer, evs[i])
    requires n == |Q.Run(Q.Start(start), evs).emitted|
    requires Pieces(cat, d) && Gathered(beacon, Answered(beacon, QP.Sequential(answer, start, n))) == BlobsOf(cat, d)
    requires WellFormed(codec, cat) && Coherent(codec, cat, canon)
    ensures (t, r) == StreamBlocks(codec, beacon, Init(fuelStart, room), Q.Run(Q.Start(start), evs).emitted)
    ensures var u := BeforeOffence(codec, cat, d); var open := StillOpen(codec, cat, fuelStart, room, u);
      && (open ==> r == EndOfStream(codec, cat, d, BeaconFails(beacon, QP.Sequential(answer, start, n))))
      && EmitsCoveredRun(codec, cat, canon, fuelStart, room, u, t.sent, if open then Ok else r)
  {
    QP.RefinesSequential(answer, start, evs);
    var chain := QP.Sequential(answer, start, n);
    FailedRequestEndsStream(codec, beacon, Init(fuelStart, room), chain);
    t, r := StreamEndsExactlyWhen(codec, cat, canon, fuelStart, room, d);
    OkExactlyWhileOpen(codec, cat, canon, fuelStart, room, BeforeOffence(codec, cat, d), t.sent,
                       if StillOpen(codec, cat, fuelStart, room, BeforeOffence(codec, cat, d)) then Ok else r);
    if r.Ok? && BeaconFails(beacon, chain) { r := Err(BeaconFailed); }
  }
}
