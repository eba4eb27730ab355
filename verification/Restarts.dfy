/** What a restart loses: nothing. L1 is fixed; every session downloads from the L1 height of the block its compression
store has reached. Whatever the sessions before, the service ends where the whole of L1 reaches. */
module Restarts {
  import opened Wrappers
  import opened Codec
  import opened Stores
  import opened BlockSyncer
  import opened SyncTask
  import opened SyncTaskProofs
  import opened Replay
  import opened Pipeline
  import opened BundleBufferProofs
  import opened Confluence
  import opened Service
  import D = Downloader
  import Q = DownloadQueue
  import QP = DownloadQueueProofs
  import ReorderProofs

  // ---------------------------------------------------------------- a fixed L1

  /** The L1 blocks, what the beacon holds for them, the bundles posted, and the blobs of these found with the L1 block
      at each height. */
  datatype L1 = L1(answer: nat -> L1Block, beacon: D.Beacon, cat: Catalog, at: nat -> seq<Piece>)

  ghost predicate BlobsAt(l1: L1, h: nat) {
    match l1.beacon(l1.answer(h), l1.answer(h + 1))
    case NoSidecars => l1.at(h) == []
    case Sidecars(blobs) => Pieces(l1.cat, l1.at(h)) && blobs == BlobsOf(l1.cat, l1.at(h))
    case FetchFailed => false
  }

  /** L1 carries bundles of the network's blocks, and nothing else. */
  ghost predicate Posts(net: Network, codec: Decoders, l1: L1) {
    && BundleBufferProofs.WellFormed(codec, l1.cat) && Coherent(codec, l1.cat, net.block)
    && forall h: nat :: BlobsAt(l1, h)
  }

  /** The blobs found with the L1 blocks [a, b), in order. */
  ghost function PiecesOver(l1: L1, a: nat, b: nat): seq<Piece>
    decreases if a < b then b - a else 0
  {
    if a < b then l1.at(a) + PiecesOver(l1, a + 1, b) else []
  }

  /** The newest of n L1 blocks from `start` on is not processed: it has no successor yet. */
  function Processed(start: nat, n: nat): nat { if n == 0 then start else start + n - 1 }

  lemma BothAreKnown(l1: L1, a: seq<Piece>, b: seq<Piece>)
    requires Pieces(l1.cat, a) && Pieces(l1.cat, b)
    ensures Pieces(l1.cat, a + b) && BlobsOf(l1.cat, a + b) == BlobsOf(l1.cat, a) + BlobsOf(l1.cat, b)
  {
  }

  /** The beacon answers for every pair, and what is gathered along the blocks are the pieces `d`. */
  ghost predicate Gathers(l1: L1, chain: seq<L1Block>, d: seq<Piece>) {
    BeaconAnswers(l1.beacon, chain) && Pieces(l1.cat, d) && Gathered(l1.beacon, chain) == BlobsOf(l1.cat, d)
  }

  lemma GathersOneMore(l1: L1, h: nat, chain: seq<L1Block>, d: seq<Piece>)
    requires BlobsAt(l1, h) && |chain| > 0 && chain[0] == l1.answer(h + 1) && Gathers(l1, chain, d)
    ensures Gathers(l1, [l1.answer(h)] + chain, l1.at(h) + d)
  {
    var all := [l1.answer(h)] + chain;
    assert all[1..] == chain;
    BothAreKnown(l1, l1.at(h), d);
    forall i | 0 <= i < |all| - 1 ensures !l1.beacon(all[i], all[i + 1]).FetchFailed? {
      if i > 0 { assert all[i] == chain[i - 1] && all[i + 1] == chain[(i - 1) + 1]; }
    }
  }

  /** What is gathered along n L1 blocks are the pieces found with all but the newest. */
  lemma {:induction false} GathersPieces(l1: L1, start: nat, n: nat)
    requires forall h: nat :: BlobsAt(l1, h)
    ensures Gathers(l1, QP.Sequential(l1.answer, start, n), PiecesOver(l1, start, Processed(start, n)))
    decreases n
  {
    if n < 2 {
      assert PiecesOver(l1, start, Processed(start, n)) == [];
    } else {
      var chain := QP.Sequential(l1.answer, start + 1, n - 1);
      assert QP.Sequential(l1.answer, start, n) == [l1.answer(start)] + chain;
      GathersPieces(l1, start + 1, n - 1);
      GathersOneMore(l1, start, chain, PiecesOver(l1, start + 1, Processed(start, n)));
    }
  }

  lemma {:induction false} PieceOver(l1: L1, a: nat, b: nat, p: Piece)
    ensures p in PiecesOver(l1, a, b) <==> exists h: nat :: a <= h < b && p in l1.at(h)
    decreases if a < b then b - a else 0
  {
    if b <= a {
    } else {
      PieceOver(l1, a + 1, b, p);
      if p in l1.at(a) { assert p in PiecesOver(l1, a, b); }
      if h: nat :| a <= h < b && p in l1.at(h) { assert h == a || a + 1 <= h; }
    }
  }

  // ---------------------------------------------------------------- coverage above C

  /** The bundle holds a block above c. */
  ghost predicate HoldsAbove(codec: Decoders, cat: Catalog, id: u32, c: u32) {
    id in cat && exists h: u32 :: h > c && ReorderProofs.PushedIn(BundleBlocks(codec, cat[id]), h)
  }

  /** Before L1 height `start`, no piece is found of a bundle that holds a block above c. */
  ghost predicate NothingBefore(codec: Decoders, l1: L1, c: u32, start: nat) {
    forall h: nat, p: Piece | h < start && p in l1.at(h) :: !HoldsAbove(codec, l1.cat, p.id, c)
  }

  /** Bundles are posted after their blocks: all of a bundle with a block above c is found at the L1 height of block c
      or later. */
  ghost predicate PostedAfter(net: Network, codec: Decoders, l1: L1) {
    forall c: u32 :: NothingBefore(codec, l1, c, net.entity(c).daHeight)
  }

  /** Above c, the pieces from `start` on cover what the pieces from any earlier height cover. */
  lemma SameCoverage(codec: Decoders, l1: L1, c: u32, early: nat, start: nat, end: nat, h: u32)
    requires early <= start && NothingBefore(codec, l1, c, start) && h > c
    ensures Covered(codec, l1.cat, PiecesOver(l1, start, end), h)
      <==> Covered(codec, l1.cat, PiecesOver(l1, early, end), h)
  {
    var late, all := PiecesOver(l1, start, end), PiecesOver(l1, early, end);
    MorePieces(l1, early, start, end, end);
    CoverGrows(codec, l1.cat, late, all, h);
    if Covered(codec, l1.cat, all, h) {
      var id :| id in l1.cat && FullyDelivered(l1.cat, all, id)
             && ReorderProofs.PushedIn(BundleBlocks(codec, l1.cat[id]), h);
      assert HoldsAbove(codec, l1.cat, id, c);
      forall i: u32 | i < |l1.cat[id]| ensures Piece(id, i) in late {
        PieceOver(l1, early, end, Piece(id, i));
        PieceOver(l1, start, end, Piece(id, i));
      }
    }
  }

  /** A wider stretch of L1 holds more pieces. */
  lemma MorePieces(l1: L1, early: nat, start: nat, end: nat, later: nat)
    requires early <= start && end <= later
    ensures forall p | p in PiecesOver(l1, start, end) :: p in PiecesOver(l1, early, later)
  {
    forall p | p in PiecesOver(l1, start, end) ensures p in PiecesOver(l1, early, later) {
      PieceOver(l1, start, end, p);
      PieceOver(l1, early, later, p);
    }
  }

  lemma SameReach(codec: Decoders, l1: L1, c: u32, early: nat, start: nat, end: nat, top: u32)
    requires early <= start && NothingBefore(codec, l1, c, start)
    requires Reaches(codec, l1.cat, PiecesOver(l1, start, end), c, top)
    ensures Reaches(codec, l1.cat, PiecesOver(l1, early, end), c, top)
  {
    forall h: u32 | h > c
      ensures Covered(codec, l1.cat, PiecesOver(l1, start, end), h)
        <==> Covered(codec, l1.cat, PiecesOver(l1, early, end), h)
    {
      SameCoverage(codec, l1, c, early, start, end, h);
    }
  }

  // ---------------------------------------------------------------- sessions over a fixed L1

  /** What the queue emits in a session, up to the first beacon request that fails. */
  function AnsweredIn(hand: Hand, x: Session): seq<L1Block> {
    Answered(x.beacon, Q.Run(Q.Start(hand.daStart), x.requests).emitted)
  }

  /** The L1 height a session has processed up to. */
  function ProcessedIn(hand: Hand, x: Session): nat {
    Processed(hand.daStart, |AnsweredIn(hand, x)|)
  }

  /** The session downloads from this L1, although the beacon may fail at any time, and up to there meets nothing that
      ends the stream. */
  ghost predicate Downloads(codec: Decoders, l1: L1, hand: Hand, x: Session) {
    && (forall a, b :: x.beacon(a, b) == l1.beacon(a, b) || x.beacon(a, b).FetchFailed?)
    && Q.Schedule(Q.Start(hand.daStart), x.requests)
    && (forall i | 0 <= i < |x.requests| :: QP.Answers(l1.answer, x.requests[i]))
    && Clean(codec, l1.cat, PiecesOver(l1, hand.daStart, ProcessedIn(hand, x)))
  }

  /** Along answered blocks, another beacon that agrees or fails gathers the same. */
  lemma {:induction false} SameGathered(one: D.Beacon, other: D.Beacon, blocks: seq<L1Block>)
    requires forall a, b :: one(a, b) == other(a, b) || one(a, b).FetchFailed?
    requires BeaconAnswers(one, blocks)
    ensures Gathered(one, blocks) == Gathered(other, blocks)
    decreases |blocks|
  {
    if |blocks| < 2 {
    } else {
      var rest := blocks[1..];
      assert !one(blocks[0], blocks[0 + 1]).FetchFailed?;
      forall i | 0 <= i < |rest| - 1 ensures !one(rest[i], rest[i + 1]).FetchFailed? {
        assert !one(blocks[i + 1], blocks[(i + 1) + 1]).FetchFailed?;
      }
      SameGathered(one, other, rest);
    }
  }

  lemma DownloadGathers(l1: L1, codec: Decoders, hand: Hand, x: Session)
    requires (forall h: nat :: BlobsAt(l1, h)) && Downloads(codec, l1, hand, x)
    ensures var n := |Q.Run(Q.Start(hand.daStart), x.requests).emitted|;
      var d := PiecesOver(l1, hand.daStart, ProcessedIn(hand, x));
      Gathered(x.beacon, Answered(x.beacon, QP.Sequential(l1.answer, hand.daStart, n))) == BlobsOf(l1.cat, d)
  {
    var blocks := Q.Run(Q.Start(hand.daStart), x.requests).emitted;
    var k := |AnsweredIn(hand, x)|;
    QP.RefinesSequential(l1.answer, hand.daStart, x.requests);
    AnsweredIsPrefix(x.beacon, blocks);
    assert AnsweredIn(hand, x) == QP.Sequential(l1.answer, hand.daStart, k);
    GathersPieces(l1, hand.daStart, k);
    SameGathered(x.beacon, l1.beacon, AnsweredIn(hand, x));
  }

  lemma DownloadCarries(net: Network, codec: Decoders, l1: L1, hand: Hand, x: Session)
    requires Posts(net, codec, l1) && Downloads(codec, l1, hand, x)
    ensures var d := PiecesOver(l1, hand.daStart, ProcessedIn(hand, x));
      Carries(net, codec, hand, x, l1.answer, l1.cat, d) && BeforeOffence(codec, l1.cat, d) == d
  {
    var d := PiecesOver(l1, hand.daStart, ProcessedIn(hand, x));
    DownloadGathers(l1, codec, hand, x);
    FirstOffenceIsFirst(codec, l1.cat, d);
    assert FirstOffence(codec, l1.cat, d) == |d|;
  }

  /** Restarts lose nothing: after any sessions whatever, a session whose start-up runs through, that is not cut short
      and that processes L1 up to `end` leaves the stores caught up with all of L1 below `end`, although it downloads
      only from the L1 height of its block C on. */
  lemma RestartsLoseNothing(m: Machine, window: u32, net: Network, base: u32, first: u32, after: u32, codec: Decoders,
                            l1: L1, sys: System, xs: seq<Session>, now: System, x: Session, up: System, end: nat)
      returns (t: System)
    requires Following(m, net, base, first, after, sys) && base <= first
    requires NetworkFeedsAll(m, net, codec, sys, xs) && Fed(m, window, codec, sys, xs)
    requires now == Run(m, sys, ServiceEvents(m, codec, sys, xs))
    requires now.stores.chain.height.Some? && now.stores.comp.height.Some?
    requires Enabled(window, now, x.startUp) && FromNetwork(net, x.startUp)
    requires RunsThrough(window, now.stores, x.startUp) && up == AfterStartUp(now.stores, x.startUp)
    requires Posts(net, codec, l1) && PostedAfter(net, codec, l1)
    requires up.phase.Streaming? ==> Downloads(codec, l1, up.phase, x) && ProcessedIn(up.phase, x) == end
    requires x.room > U32_MAX && forall i :: x.fault(i) == NoFault
    ensures t == Run(m, now, SessionEvents(m, codec, now, x))
    ensures up.phase.Streaming?
    ensures CaughtUp(net, base, first, codec, l1.cat, PiecesOver(l1, 0, end), up.stores, t.stores)
  {
    var d := if up.phase.Streaming? then PiecesOver(l1, up.phase.daStart, end) else [];
    if up.phase.Streaming? { DownloadCarries(net, codec, l1, up.phase, x); }
    t := Run(m, now, SessionEvents(m, codec, now, x));
    WatchtowerCatchesUp(m, window, net, base, first, after, codec, sys, xs, now, x, up, l1.answer, l1.cat, d);
    CaughtUpWithAll(net, base, first, codec, l1, up, t.stores, end);
  }

  lemma CaughtUpWithAll(net: Network, base: u32, first: u32, codec: Decoders, l1: L1, up: System, t: Stores, end: nat)
    requires up.phase.Streaming? && up.stores.comp.height.Some?
    requires up.phase.daStart == net.entity(up.stores.comp.height.value).daHeight && PostedAfter(net, codec, l1)
    requires CaughtUp(net, base, first, codec, l1.cat, PiecesOver(l1, up.phase.daStart, end), up.stores, t)
    ensures CaughtUp(net, base, first, codec, l1.cat, PiecesOver(l1, 0, end), up.stores, t)
  {
    var c := up.stores.comp.height.value;
    assert NothingBefore(codec, l1, c, net.entity(c).daHeight);
    SameReach(codec, l1, c, 0, up.phase.daStart, end, t.comp.height.value);
  }

  // ---------------------------------------------------------------- two histories

  /** Two stores that have caught up with the same L1, by whatever history, are at the same compression height, and
      hold the same compression data, if and only if neither began its last session above where the other ended. */
  lemma CaughtUpAgreeExactlyWhen(net: Network, base: u32, first: u32, codec: Decoders, cat: Catalog, d: seq<Piece>,
                                 up1: Stores, t1: Stores, up2: Stores, t2: Stores)
    requires CaughtUp(net, base, first, codec, cat, d, up1, t1) && CaughtUp(net, base, first, codec, cat, d, up2, t2)
    ensures t1.comp == t2.comp
      <==> up1.comp.height.value <= t2.comp.height.value && up2.comp.height.value <= t1.comp.height.value
  {
    var c1, c2, top1, top2 :=
      up1.comp.height.value, up2.comp.height.value, t1.comp.height.value, t2.comp.height.value;
    if c1 <= top2 && c2 <= top1 {
      SameTop(codec, cat, d, c1, c2, top1, top2);
      OnNetworkAgree(net, base, first, t1, t2);
    }
  }

  lemma SameTop(codec: Decoders, cat: Catalog, d: seq<Piece>, c1: u32, c2: u32, top1: u32, top2: u32)
    requires Reaches(codec, cat, d, c1, top1) && Reaches(codec, cat, d, c2, top2) && c1 <= top2 && c2 <= top1
    ensures top1 == top2
  {
  }

  // ---------------------------------------------------------------- histories fed by L1 alone

  /** Every height above `from` up to C is covered by L1 below `end`. */
  ghost predicate CoveredTo(codec: Decoders, l1: L1, end: nat, from: u32, s: Stores) {
    s.comp.height.Some? && from <= s.comp.height.value &&
    forall h: u32 | from < h <= s.comp.height.value :: Covered(codec, l1.cat, PiecesOver(l1, 0, end), h)
  }

  lemma ImportClimbsByOne(m: Machine, s: Stores, block: CompressedBlock, fault: Fault)
    requires s.comp.height.Some?
    ensures var t := Import(m, s, block, fault).0;
      t.comp.height.Some? && s.comp.height.value <= t.comp.height.value <= s.comp.height.value + 1
  {
  }

  /** A stream raises C by at most its length, whatever fails. */
  lemma {:induction false} StreamClimbs(m: Machine, up: System, stream: seq<(CompressedBlock, Fault)>)
      returns (t: System)
    requires up.stores.comp.height.Some?
    ensures t == Run(m, up, Imports(m, up, stream)) && t.stores.comp.height.Some?
    ensures up.stores.comp.height.value <= t.stores.comp.height.value <= up.stores.comp.height.value + |stream|
    decreases |stream|
  {
    if |stream| == 0 || up.phase.Down? {
      t := up;
    } else {
      var ev, rest := Deliver(stream[0].0, stream[0].1), stream[1..];
      var next := Step(m, up, ev);
      ImportClimbsByOne(m, up.stores, stream[0].0, stream[0].1);
      t := StreamClimbs(m, next, rest);
      RunOfStream(m, up, stream);
    }
  }

  /** The start-up brings no compressed blocks, and the session, if it gets so far, downloads from L1 no further than
      `end`. */
  ghost predicate FedByL1(net: Network, codec: Decoders, l1: L1, end: nat, sys: System, x: Session) {
    && FromNetwork(net, x.startUp) && x.startUp.items == []
    && var up := AfterStartUp(sys.stores, x.startUp);
      up.phase.Streaming? ==> Downloads(codec, l1, up.phase, x) && ProcessedIn(up.phase, x) <= end
  }

  ghost predicate AllFedByL1(m: Machine, net: Network, codec: Decoders, l1: L1, end: nat, sys: System,
                             xs: seq<Session>)
    decreases |xs|
  {
    |xs| > 0 ==>
      && FedByL1(net, codec, l1, end, sys, xs[0])
      && AllFedByL1(m, net, codec, l1, end, Run(m, sys, SessionEvents(m, codec, sys, xs[0])), xs[1..])
  }

  /** What the downloader sends in a session is covered by what it has processed. */
  lemma StreamIsCovered(net: Network, codec: Decoders, l1: L1, end: nat, hand: Hand, x: Session, h: u32)
    requires Posts(net, codec, l1) && Downloads(codec, l1, hand, x) && ProcessedIn(hand, x) <= end
    requires hand.next <= h < hand.next + |SessionStream(codec, hand, x)|
    ensures Covered(codec, l1.cat, PiecesOver(l1, 0, end), h)
  {
    var d := PiecesOver(l1, hand.daStart, ProcessedIn(hand, x));
    DownloadCarries(net, codec, l1, hand, x);
    var sent, r := StreamIsCanonical(net, codec, hand, x, l1.answer, l1.cat, d);
    MorePieces(l1, 0, hand.daStart, ProcessedIn(hand, x), end);
    CoverGrows(codec, l1.cat, d, PiecesOver(l1, 0, end), h);
  }

  /** A start-up without compressed blocks leaves C where it is, and hands over the height after it. */
  lemma StartUpKeepsC(s: Stores, ev: StartUpEvent, up: System)
    requires up == AfterStartUp(s, ev) && ev.items == []
    ensures up.stores.comp == s.comp
    ensures up.phase.Streaming? ==> s.comp.height.Some? && up.phase.next == s.comp.height.value + 1 <= U32_MAX
  {
  }

  lemma SessionStaysCovered(m: Machine, net: Network, codec: Decoders, l1: L1, end: nat, from: u32, sys: System,
                            x: Session) returns (t: System)
    requires Posts(net, codec, l1) && FedByL1(net, codec, l1, end, sys, x)
    requires CoveredTo(codec, l1, end, from, sys.stores)
    ensures t == Run(m, sys, SessionEvents(m, codec, sys, x)) && CoveredTo(codec, l1, end, from, t.stores)
  {
    var up := AfterStartUp(sys.stores, x.startUp);
    t := Run(m, sys, SessionEvents(m, codec, sys, x));
    StartUpKeepsC(sys.stores, x.startUp, up);
    SessionRun(m, 0, codec, sys, x, up);
    if up.phase.Streaming? {
      var done := StreamClimbs(m, up, SessionStream(codec, up.phase, x));
      forall h: u32 | sys.stores.comp.height.value < h <= t.stores.comp.height.value
        ensures Covered(codec, l1.cat, PiecesOver(l1, 0, end), h)
      {
        StreamIsCovered(net, codec, l1, end, up.phase, x, h);
      }
    }
  }

  lemma {:induction false} HistoryStaysCovered(m: Machine, net: Network, codec: Decoders, l1: L1, end: nat, from: u32,
                                               sys: System, xs: seq<Session>) returns (t: System)
    requires Posts(net, codec, l1) && AllFedByL1(m, net, codec, l1, end, sys, xs)
    requires CoveredTo(codec, l1, end, from, sys.stores)
    ensures t == Run(m, sys, ServiceEvents(m, codec, sys, xs)) && CoveredTo(codec, l1, end, from, t.stores)
    decreases |xs|
  {
    if |xs| == 0 {
      t := sys;
    } else {
      var next := SessionStaysCovered(m, net, codec, l1, end, from, sys, xs[0]);
      t := HistoryStaysCovered(m, net, codec, l1, end, from, next, xs[1..]);
      RunAppend(m, sys, SessionEvents(m, codec, sys, xs[0]), ServiceEvents(m, codec, next, xs[1..]));
    }
  }

  lemma SessionFedByL1(net: Network, codec: Decoders, l1: L1, end: nat, sys: System, x: Session)
    requires Posts(net, codec, l1) && FedByL1(net, codec, l1, end, sys, x)
    ensures NetworkFeeds(net, codec, sys, x)
  {
    var up := AfterStartUp(sys.stores, x.startUp);
    if up.phase.Streaming? { DownloadCarries(net, codec, l1, up.phase, x); }
  }

  lemma {:induction false} HistoryFedByL1(m: Machine, net: Network, codec: Decoders, l1: L1, end: nat, sys: System,
                                          xs: seq<Session>)
    requires Posts(net, codec, l1) && AllFedByL1(m, net, codec, l1, end, sys, xs)
    ensures NetworkFeedsAll(m, net, codec, sys, xs)
    decreases |xs|
  {
    if |xs| == 0 {
    } else {
      SessionFedByL1(net, codec, l1, end, sys, xs[0]);
      HistoryFedByL1(m, net, codec, l1, end, Run(m, sys, SessionEvents(m, codec, sys, xs[0])), xs[1..]);
    }
  }

  /** A history fed by L1 alone whose last session is not cut short and processes L1 up to `end`. */
  ghost predicate Completes(m: Machine, window: u32, net: Network, codec: Decoders, l1: L1, end: nat, sys: System,
                            xs: seq<Session>, x: Session) {
    var now := Run(m, sys, ServiceEvents(m, codec, sys, xs));
    var up := AfterStartUp(now.stores, x.startUp);
    && Fed(m, window, codec, sys, xs) && AllFedByL1(m, net, codec, l1, end, sys, xs)
    && Enabled(window, now, x.startUp) && FedByL1(net, codec, l1, end, now, x)
    && now.stores.chain.height.Some? && now.stores.comp.height.Some? && RunsThrough(window, now.stores, x.startUp)
    && (up.phase.Streaming? ==> ProcessedIn(up.phase, x) == end)
    && x.room > U32_MAX && forall i :: x.fault(i) == NoFault
  }

  lemma CompletedHistory(m: Machine, window: u32, net: Network, base: u32, first: u32, after: u32, codec: Decoders,
                         l1: L1, end: nat, sys: System, xs: seq<Session>, x: Session)
      returns (up: System, t: System)
    requires Following(m, net, base, first, after, sys) && base <= first
    requires Posts(net, codec, l1) && PostedAfter(net, codec, l1)
    requires Completes(m, window, net, codec, l1, end, sys, xs, x)
    ensures var now := Run(m, sys, ServiceEvents(m, codec, sys, xs)); t == Run(m, now, SessionEvents(m, codec, now, x))
    ensures CaughtUp(net, base, first, codec, l1.cat, PiecesOver(l1, 0, end), up.stores, t.stores)
    ensures sys.stores.comp.height.Some? && CoveredTo(codec, l1, end, sys.stores.comp.height.value, up.stores)
  {
    var now := HistoryStaysCovered(m, net, codec, l1, end, sys.stores.comp.height.value, sys, xs);
    up := AfterStartUp(now.stores, x.startUp);
    StartUpKeepsC(now.stores, x.startUp, up);
    HistoryFedByL1(m, net, codec, l1, end, sys, xs);
    t := RestartsLoseNothing(m, window, net, base, first, after, codec, l1, sys, xs, now, x, up, end);
  }

  lemma CoveredStaysBelow(codec: Decoders, l1: L1, end: nat, from: u32, up1: Stores, c2: u32, top2: u32)
    requires CoveredTo(codec, l1, end, from, up1) && from <= c2
    requires Reaches(codec, l1.cat, PiecesOver(l1, 0, end), c2, top2)
    ensures up1.comp.height.value <= top2
  {
  }

  /** A service interrupted and restarted any number of times, at any points, ends with the compression data of any
      other, in particular of one that was never interrupted, if both are fed by the same L1 alone and have processed
      it equally far. */
  lemma HistoriesAgree(m: Machine, window: u32, net: Network, base: u32, first: u32, after: u32, codec: Decoders,
                       l1: L1, end: nat, sys: System, xs: seq<Session>, x: Session, ys: seq<Session>, y: Session)
    requires Following(m, net, base, first, after, sys) && base <= first
    requires Posts(net, codec, l1) && PostedAfter(net, codec, l1)
    requires Completes(m, window, net, codec, l1, end, sys, xs, x)
    requires Completes(m, window, net, codec, l1, end, sys, ys, y)
    ensures var now1 := Run(m, sys, ServiceEvents(m, codec, sys, xs));
      var now2 := Run(m, sys, ServiceEvents(m, codec, sys, ys));
      Run(m, now1, SessionEvents(m, codec, now1, x)).stores.comp
        == Run(m, now2, SessionEvents(m, codec, now2, y)).stores.comp
  {
    var up1, t1 := CompletedHistory(m, window, net, base, first, after, codec, l1, end, sys, xs, x);
    var up2, t2 := CompletedHistory(m, window, net, base, first, after, codec, l1, end, sys, ys, y);
    var c := sys.stores.comp.height.value;
    CoveredStaysBelow(codec, l1, end, c, up1.stores, up2.stores.comp.height.value, t2.stores.comp.height.value);
    CoveredStaysBelow(codec, l1, end, c, up2.stores, up1.stores.comp.height.value, t1.stores.comp.height.value);
    CaughtUpAgreeExactlyWhen(net, base, first, codec, l1.cat, PiecesOver(l1, 0, end), up1.stores, t1.stores,
                             up2.stores, t2.stores);
  }
}
