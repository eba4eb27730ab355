/** The whole service: download queue, downloader and two-store syncer together. */
module Service {
  import opened Wrappers
  import opened Codec
  import opened Stores
  import opened BlockSyncer
  import opened SyncTask
  import opened SyncTaskProofs
  import opened Replay
  import opened Pipeline
  import BlockSync
  import CompressionSync
  import BundleBufferProofs
  import Confluence
  import D = Downloader
  import Q = DownloadQueue
  import QP = DownloadQueueProofs

  // ---------------------------------------------------------------- from stream to schedule

  /** How many blocks of the stream the task imports before it stops. */
  function Taken(m: Machine, sys: System, stream: seq<(CompressedBlock, Fault)>): (n: nat)
    ensures n <= |stream|
    decreases |stream|
  {
    if |stream| == 0 || sys.phase.Down? then 0
    else 1 + Taken(m, Step(m, sys, Deliver(stream[0].0, stream[0].1)), stream[1..])
  }

  /** The imports the task makes of a stream. */
  function Imports(m: Machine, sys: System, stream: seq<(CompressedBlock, Fault)>): seq<Event> {
    Deliveries(stream[..Taken(m, sys, stream)])
  }

  lemma ImportsStep(m: Machine, sys: System, stream: seq<(CompressedBlock, Fault)>)
    requires |stream| > 0 && sys.phase.Streaming?
    ensures var ev := Deliver(stream[0].0, stream[0].1);
      Imports(m, sys, stream) == [ev] + Imports(m, Step(m, sys, ev), stream[1..])
  {
  }

  /** A stream of consecutive heights that starts where the task is asks it only for enabled imports. */
  lemma {:induction false} ConsecutiveStreamIsSchedule(m: Machine, window: u32, sys: System,
                                                       stream: seq<(CompressedBlock, Fault)>)
    requires sys.phase.Streaming? ==> forall i | 0 <= i < |stream| :: stream[i].0.height == sys.phase.next + i
    ensures Schedule(m, window, sys, Imports(m, sys, stream))
    decreases |stream|
  {
    if |stream| == 0 {
    } else if sys.phase.Streaming? {
      var ev, rest := Deliver(stream[0].0, stream[0].1), stream[1..];
      var next := Step(m, sys, ev);
      ImportsStep(m, sys, stream);
      forall i | 0 <= i < |rest| ensures rest[i] == stream[i + 1] {}
      ConsecutiveStreamIsSchedule(m, window, next, rest);
      assert ([ev] + Imports(m, next, rest))[1..] == Imports(m, next, rest);
    }
  }

  /** The Fuel blocks the downloader sends for the L1 blocks a queue schedule emits, each with the fault its
      import will meet. */
  function Stream(codec: Decoders, beacon: D.Beacon, daStart: nat, next: u32, room: nat, evs: seq<Q.Event>,
                  fault: nat -> Fault): seq<(CompressedBlock, Fault)> {
    var sent := D.StreamBlocks(codec, beacon, D.Init(next, room), Q.Run(Q.Start(daStart), evs).emitted).0.sent;
    seq(|sent|, i requires 0 <= i < |sent| => (sent[i], fault(i)))
  }

  // ---------------------------------------------------------------- sessions

  type StartUpEvent = ev: Event | ev.StartUp? witness StartUp([], true, [], true)

  /** One life of the service: a start-up, and for the streaming after it the schedule of L1 requests, the beacon's
      answers, how long the receiver lasts, and where imports are cut short. */
  datatype Session = Session(startUp: StartUpEvent, requests: seq<Q.Event>, beacon: D.Beacon, room: nat,
                             fault: nat -> Fault)

  type Hand = p: Phase | p.Streaming? && p.next <= U32_MAX witness Streaming(0, 0)

  /** The stream of a task that was handed over the next Fuel height and the L1 height to download from. */
  function SessionStream(codec: Decoders, hand: Hand, x: Session): seq<(CompressedBlock, Fault)> {
    Stream(codec, x.beacon, hand.daStart, hand.next, x.room, x.requests, x.fault)
  }

  /** What happens in a session: the start-up, the imports of the stream it leads to, and the end. */
  function SessionEvents(m: Machine, codec: Decoders, sys: System, x: Session): seq<Event>
  {
    var up := AfterStartUp(sys.stores, x.startUp);
    if up.phase.Down? then [x.startUp]
    else [x.startUp] + Imports(m, up, SessionStream(codec, up.phase, x)) + [Stop]
  }

  /** What happens over any number of sessions, each starting from the stores the one before has left. */
  function ServiceEvents(m: Machine, codec: Decoders, sys: System, xs: seq<Session>): seq<Event>
    decreases |xs|
  {
    if |xs| == 0 then []
    else
      var evs := SessionEvents(m, codec, sys, xs[0]);
      evs + ServiceEvents(m, codec, Run(m, sys, evs), xs[1..])
  }

  /** Every start-up receives what its fetch can deliver. */
  ghost predicate Fed(m: Machine, window: u32, codec: Decoders, sys: System, xs: seq<Session>)
    decreases |xs|
  {
    |xs| > 0 ==>
      && Enabled(window, sys, xs[0].startUp)
      && Fed(m, window, codec, Run(m, sys, SessionEvents(m, codec, sys, xs[0])), xs[1..])
  }

  /** The run of a session: the start-up, then the imports, then the stop. */
  lemma SessionRun(m: Machine, window: u32, codec: Decoders, sys: System, x: Session, up: System)
    requires up == AfterStartUp(sys.stores, x.startUp)
    ensures var evs := SessionEvents(m, codec, sys, x);
      && (up.phase.Down? ==>
            Run(m, sys, evs) == up && (Schedule(m, window, sys, evs) <==> Enabled(window, sys, x.startUp)))
      && (up.phase.Streaming? ==>
            var imports := Imports(m, up, SessionStream(codec, up.phase, x));
            && Run(m, sys, evs) == System(Run(m, up, imports).stores, Down)
            && (Schedule(m, window, sys, evs) <==>
                  Enabled(window, sys, x.startUp) && Schedule(m, window, up, imports)))
  {
    var evs := SessionEvents(m, codec, sys, x);
    if up.phase.Down? {
      assert evs == [x.startUp] + [];
      FirstThen(m, window, sys, x.startUp, []);
    } else {
      var imports := Imports(m, up, SessionStream(codec, up.phase, x));
      assert evs == [x.startUp] + (imports + [Stop]);
      FirstThen(m, window, sys, x.startUp, imports + [Stop]);
      ThenStop(m, window, up, imports);
    }
  }

  lemma FirstThen(m: Machine, window: u32, sys: System, ev: Event, rest: seq<Event>)
    ensures Run(m, sys, [ev] + rest) == Run(m, Step(m, sys, ev), rest)
    ensures Schedule(m, window, sys, [ev] + rest)
      <==> Enabled(window, sys, ev) && Schedule(m, window, Step(m, sys, ev), rest)
  {
    assert ([ev] + rest)[1..] == rest;
  }

  lemma ThenStop(m: Machine, window: u32, sys: System, evs: seq<Event>)
    ensures Run(m, sys, evs + [Stop]) == System(Run(m, sys, evs).stores, Down)
    ensures Schedule(m, window, sys, evs + [Stop]) <==> Schedule(m, window, sys, evs)
  {
    RunOneMore(m, sys, evs, Stop);
    ScheduleAppend(m, window, sys, evs, [Stop]);
    assert [Stop][1..] == [];
  }

  // ---------------------------------------------------------------- safety with no assumption on the inputs

  /** Whatever L1, the beacon and the blobs contain, whatever the schedule of requests, and wherever imports fail:
      the task only ever imports the block after the committed compression height, and its two stores stay in
      step. */
  lemma StreamStaysInStep(m: Machine, window: u32, codec: Decoders, x: Session, up: System)
    requires InStep(up) && up.phase.Streaming? && up.phase.next <= U32_MAX
    ensures var imports := Imports(m, up, SessionStream(codec, up.phase, x));
      Schedule(m, window, up, imports) && InStep(Run(m, up, imports))
  {
    var stream := SessionStream(codec, up.phase, x);
    FuelBlocksInOrder(codec, x.beacon, up.phase.next, x.room, Q.Run(Q.Start(up.phase.daStart), x.requests).emitted);
    ConsecutiveStreamIsSchedule(m, window, up, stream);
    TwoStoresStayInStep(m, window, up, Imports(m, up, stream));
  }

  lemma SessionStaysInStep(m: Machine, window: u32, codec: Decoders, sys: System, x: Session)
    requires InStep(sys) && Enabled(window, sys, x.startUp)
    ensures var evs := SessionEvents(m, codec, sys, x);
      Schedule(m, window, sys, evs) && InStep(Run(m, sys, evs)) && Run(m, sys, evs).phase.Down?
  {
    var up := AfterStartUp(sys.stores, x.startUp);
    StepKeepsInStep(m, window, sys, x.startUp);
    if up.phase.Streaming? { StreamStaysInStep(m, window, codec, x, up); }
    SessionRun(m, window, codec, sys, x, up);
  }

  /** Over any number of sessions, with anything on L1, at the beacon and in the blobs, any schedules of requests and
      any failures: every import is of the height after the committed one, every start-up finds the service down,
      and the stores stay in step. */
  lemma {:induction false} ServiceStaysInStep(m: Machine, window: u32, codec: Decoders, sys: System, xs: seq<Session>)
    requires InStep(sys) && Fed(m, window, codec, sys, xs)
    ensures var evs := ServiceEvents(m, codec, sys, xs);
      Schedule(m, window, sys, evs) && InStep(Run(m, sys, evs))
    decreases |xs|
  {
    if |xs| == 0 {
    } else {
      var evs := SessionEvents(m, codec, sys, xs[0]);
      var next := Run(m, sys, evs);
      SessionStaysInStep(m, window, codec, sys, xs[0]);
      ServiceStaysInStep(m, window, codec, next, xs[1..]);
      RunAppend(m, sys, evs, ServiceEvents(m, codec, next, xs[1..]));
      ScheduleAppend(m, window, sys, evs, ServiceEvents(m, codec, next, xs[1..]));
    }
  }

  // ---------------------------------------------------------------- following the network

  /** Stream entries are the network's compressed blocks next, next + 1, ... */
  ghost predicate CanonicalStream(net: Network, next: nat, stream: seq<(CompressedBlock, Fault)>) {
    |stream| <= U32_MAX + 1 - next && forall i: nat | i < |stream| :: stream[i].0 == net.block(next + i)
  }

  lemma CanonicalImports(m: Machine, net: Network, up: System, stream: seq<(CompressedBlock, Fault)>, next: nat)
    requires CanonicalStream(net, next, stream)
    ensures var imports := Imports(m, up, stream); forall i | 0 <= i < |imports| :: FromNetwork(net, imports[i])
  {
    var n := Taken(m, up, stream);
    forall i | 0 <= i < n ensures FromNetwork(net, Deliveries(stream[..n])[i]) {
      assert stream[..n][i] == stream[i] && stream[i].0 == net.block(next + i);
    }
  }

  /** L1 carries the network: the node's answers are fixed, and the blobs along the L1 blocks emitted in the session, up
      to the first failed beacon request, are, in whatever order and spread and with any repeats, blobs of bundles that
      hold the network's compressed blocks, if they decode. */
  ghost predicate Carries(net: Network, codec: Decoders, hand: Hand, x: Session, answer: nat -> L1Block,
                          cat: BundleBufferProofs.Catalog, d: seq<BundleBufferProofs.Piece>) {
    var chain := QP.Sequential(answer, hand.daStart, |Q.Run(Q.Start(hand.daStart), x.requests).emitted|);
    && Q.Schedule(Q.Start(hand.daStart), x.requests)
    && (forall i | 0 <= i < |x.requests| :: QP.Answers(answer, x.requests[i]))
    && BundleBufferProofs.WellFormed(codec, cat) && Confluence.Coherent(codec, cat, net.block)
    && BundleBufferProofs.Pieces(cat, d)
    && Gathered(x.beacon, Answered(x.beacon, chain)) == BundleBufferProofs.BlobsOf(cat, d)
  }

  /** Then the stream is the network's run covered by the blobs before the first that offends. */
  lemma StreamIsCanonical(net: Network, codec: Decoders, hand: Hand, x: Session, answer: nat -> L1Block,
                          cat: BundleBufferProofs.Catalog, d: seq<BundleBufferProofs.Piece>)
      returns (sent: seq<CompressedBlock>, r: D.Outcome)
    requires Carries(net, codec, hand, x, answer, cat, d)
    ensures CanonicalStream(net, hand.next, SessionStream(codec, hand, x))
    ensures |sent| == |SessionStream(codec, hand, x)|
    ensures Confluence.EmitsCoveredRun(codec, cat, net.block, hand.next, x.room,
                                       Confluence.BeforeOffence(codec, cat, d), sent, r)
  {
    var n := |Q.Run(Q.Start(hand.daStart), x.requests).emitted|;
    var t, e :=
      PipelineEmits(codec, x.beacon, cat, net.block, answer, hand.daStart, hand.next, x.room, x.requests, n, d);
    var u := Confluence.BeforeOffence(codec, cat, d);
    sent, r := t.sent, if Confluence.StillOpen(codec, cat, hand.next, x.room, u) then D.Ok else e;
  }

  ghost predicate StreamCarriesNetwork(net: Network, codec: Decoders, hand: Hand, x: Session) {
    exists answer, cat, d :: Carries(net, codec, hand, x, answer, cat, d)
  }

  /** A session fed from the network: by GraphQL in its start-up and by L1 in its stream. */
  ghost predicate NetworkFeeds(net: Network, codec: Decoders, sys: System, x: Session) {
    && FromNetwork(net, x.startUp)
    && var up := AfterStartUp(sys.stores, x.startUp);
      up.phase.Streaming? ==> StreamCarriesNetwork(net, codec, up.phase, x)
  }

  ghost predicate AllFromNetwork(net: Network, evs: seq<Event>) {
    forall i | 0 <= i < |evs| :: FromNetwork(net, evs[i])
  }

  lemma CarriedStreamIsCanonical(net: Network, codec: Decoders, hand: Hand, x: Session)
    requires StreamCarriesNetwork(net, codec, hand, x)
    ensures CanonicalStream(net, hand.next, SessionStream(codec, hand, x))
  {
    var answer, cat, d :| Carries(net, codec, hand, x, answer, cat, d);
    var sent, r := StreamIsCanonical(net, codec, hand, x, answer, cat, d);
  }

  lemma SessionIsFromNetwork(m: Machine, net: Network, codec: Decoders, sys: System, x: Session)
    requires NetworkFeeds(net, codec, sys, x)
    ensures AllFromNetwork(net, SessionEvents(m, codec, sys, x))
  {
    var up := AfterStartUp(sys.stores, x.startUp);
    if up.phase.Streaming? {
      assert CanonicalStream(net, up.phase.next, SessionStream(codec, up.phase, x)) by {
        CarriedStreamIsCanonical(net, codec, up.phase, x);
      }
      CanonicalImports(m, net, up, SessionStream(codec, up.phase, x), up.phase.next);
    }
  }

  lemma BothFromNetwork(net: Network, a: seq<Event>, b: seq<Event>)
    requires AllFromNetwork(net, a) && AllFromNetwork(net, b)
    ensures AllFromNetwork(net, a + b)
  {
  }

  /** Every session is fed from the network. */
  ghost predicate NetworkFeedsAll(m: Machine, net: Network, codec: Decoders, sys: System, xs: seq<Session>)
    decreases |xs|
  {
    |xs| > 0 ==>
      && NetworkFeeds(net, codec, sys, xs[0])
      && NetworkFeedsAll(m, net, codec, Run(m, sys, SessionEvents(m, codec, sys, xs[0])), xs[1..])
  }

  lemma {:induction false} ServiceIsFromNetwork(m: Machine, net: Network, codec: Decoders, sys: System,
                                                xs: seq<Session>)
    requires NetworkFeedsAll(m, net, codec, sys, xs)
    ensures AllFromNetwork(net, ServiceEvents(m, codec, sys, xs))
    decreases |xs|
  {
    if |xs| == 0 {
    } else {
      var evs := SessionEvents(m, codec, sys, xs[0]);
      var next := Run(m, sys, evs);
      SessionIsFromNetwork(m, net, codec, sys, xs[0]);
      ServiceIsFromNetwork(m, net, codec, next, xs[1..]);
      BothFromNetwork(net, evs, ServiceEvents(m, codec, next, xs[1..]));
    }
  }

  /** The watchtower never deviates: if GraphQL and L1 carry the network, then over any number of sessions, for every
      schedule of L1 requests, every spread and order of the blobs, and every pattern of failing imports, stops and
      restarts, the stores hold exactly what the network produced. */
  lemma WatchtowerFollowsTheNetwork(m: Machine, window: u32, net: Network, base: u32, first: u32, after: u32,
                                    codec: Decoders, sys: System, xs: seq<Session>)
    requires InStep(sys) && OnNetwork(net, base, first, sys.stores) && RoundTrips(m, net, base, first, after)
    requires after <= sys.stores.chain.height.value
    requires NetworkFeedsAll(m, net, codec, sys, xs) && Fed(m, window, codec, sys, xs)
    ensures var t := Run(m, sys, ServiceEvents(m, codec, sys, xs));
      InStep(t) && OnNetwork(net, base, first, t.stores) && after <= t.stores.chain.height.value
  {
    var evs := ServiceEvents(m, codec, sys, xs);
    assert Schedule(m, window, sys, evs) && InStep(Run(m, sys, evs)) by {
      ServiceStaysInStep(m, window, codec, sys, xs);
    }
    assert AllFromNetwork(net, evs) by { ServiceIsFromNetwork(m, net, codec, sys, xs); }
    RunsFollowTheNetwork(m, window, net, base, first, after, sys, evs);
  }

  // ---------------------------------------------------------------- reaching the streaming phase

  /** A start-up that nothing stops: neither sync is cut off, the blocks received continue the chain, C has a successor,
      and the first compressed block, if it is there, is that of C + 1, because the window of the chain's new height
      reaches back to it. */
  ghost predicate RunsThrough(window: u32, s: Stores, ev: StartUpEvent)
    requires s.chain.height.Some? && s.comp.height.Some?
  {
    var top, c := s.chain.height.value, s.comp.height.value;
    && !ev.cutBlocks && !ev.cutItems && c < U32_MAX
    && BlockSync.Continues(ev.blocks, top, |ev.blocks|)
    && (|ev.items| > 0 && ev.items[0].Some? ==> c + 1 >= top + |ev.blocks| - window)
  }

  lemma BlocksContinueExactlyWhen(chain: Chain, blocks: seq<SealedBlock>) returns (next: Chain, ok: bool)
    requires chain.height.Some?
    ensures (next, ok) == SyncBlocks(chain, blocks) && next.height.Some?
    ensures ok <==> BlockSync.Continues(blocks, chain.height.value, |blocks|)
    ensures ok ==> next.height.value == chain.height.value + |blocks|
  {
    var n: nat;
    n, next, ok := BlockSync.SyncCommitsRun(chain, blocks);
  }

  /** C reaches the last u32 height only if it has been there before: the sync stays below the chain's height. */
  lemma SyncLeavesSuccessor(window: u32, chain: Chain, comp: CompressionStore, items: seq<Option<CompressedBlock>>)
    requires chain.height.Some? && comp.height.Some? && ItemsInRange(window, chain, comp, items)
    ensures var next := SyncItems(comp, items).0;
      next.height.Some? && (next.height.value < U32_MAX <==> comp.height.value < U32_MAX)
  {
    if |items| > 0 {
      SyncItemsStayBelow(comp, items, StartHeight(chain.height.value, comp.height, window), chain.height.value - 1);
    }
  }

  lemma ItemsLinkExactlyWhen(window: u32, chain: Chain, comp: CompressionStore, items: seq<Option<CompressedBlock>>)
      returns (next: CompressionStore, ok: bool)
    requires chain.height.Some? && comp.height.Some? && ItemsInRange(window, chain, comp, items)
    ensures (next, ok) == SyncItems(comp, items) && next.height.Some?
    ensures next.height.value < U32_MAX <==> comp.height.value < U32_MAX
    ensures comp.height.value < U32_MAX ==>
      (ok <==> (|items| > 0 && items[0].Some? ==> comp.height.value + 1 >= chain.height.value - window))
  {
    next, ok := SyncItems(comp, items).0, SyncItems(comp, items).1;
    SyncLeavesSuccessor(window, chain, comp, items);
    CompressionSync.LaterSyncRejectedExactlyWhen(comp, items, chain.height.value, window);
  }

  /** From stores on the network whose chain goes back as far as the compression data, a start-up reaches the streaming
      phase exactly when it runs through, and hands over the L1 height of the network's block C. */
  lemma StartUpStreamsExactlyWhen(window: u32, net: Network, base: u32, first: u32, now: System, ev: StartUpEvent)
      returns (up: System)
    requires InStep(now) && OnNetwork(net, base, first, now.stores) && base <= first
    requires Enabled(window, now, ev) && FromNetwork(net, ev)
    ensures up == AfterStartUp(now.stores, ev) && OnNetwork(net, base, first, up.stores)
    ensures up.phase.Streaming? <==> RunsThrough(window, now.stores, ev)
    ensures up.phase.Streaming? ==> up.phase.daStart == net.entity(up.stores.comp.height.value).daHeight
  {
    var s := now.stores;
    up := AfterStartUp(s, ev);
    assert OnNetwork(net, base, first, up.stores) by { StartUpOnNetwork(window, net, base, first, now, ev); }
    StreamsExactlyWhen(s, ev);
    var chain, blocksOk := BlocksContinueExactlyWhen(s.chain, ev.blocks);
    var comp, itemsOk := ItemsLinkExactlyWhen(window, chain, s.comp, ev.items);
  }

  // ---------------------------------------------------------------- catching up with the network

  /** In step with itself and on the network, above which the laws of the compressor hold. */
  ghost predicate Following(m: Machine, net: Network, base: u32, first: u32, after: u32, sys: System) {
    && InStep(sys) && OnNetwork(net, base, first, sys.stores) && after <= sys.stores.chain.height.value
    && RoundTrips(m, net, base, first, after) && NumberedEntities(net)
  }

  lemma StepKeepsFollowing(m: Machine, window: u32, net: Network, base: u32, first: u32, after: u32, sys: System,
                           ev: Event)
    requires Following(m, net, base, first, after, sys) && Enabled(window, sys, ev) && FromNetwork(net, ev)
    ensures Following(m, net, base, first, after, Step(m, sys, ev))
  {
    StepKeepsInStep(m, window, sys, ev);
    StepOnNetwork(m, window, net, base, first, after, sys, ev);
  }

  /** One import that succeeds. */
  lemma SuccessfulDelivery(m: Machine, up: System, block: CompressedBlock, fault: Fault) returns (next: System)
    requires InStep(up) && up.phase.Streaming? && block.height == up.phase.next
    requires Import(m, up.stores, block, fault).1 == Imported(true)
    ensures next == Step(m, up, Deliver(block, fault)) && next.phase == up.phase.(next := up.phase.next + 1)
    ensures Climbs(up.stores, next.stores, 1)
  {
    next := Step(m, up, Deliver(block, fault));
    DeliverCommits(m, up, block, fault);
  }

  /** One import of the next network block that nothing cuts short. */
  lemma FaultFreeStep(m: Machine, window: u32, net: Network, base: u32, first: u32, after: u32, up: System)
      returns (next: System)
    requires Following(m, net, base, first, after, up) && up.phase.Streaming? && up.phase.next <= U32_MAX
    ensures next == Step(m, up, Deliver(net.block(up.phase.next), NoFault))
    ensures Following(m, net, base, first, after, next) && next.phase == up.phase.(next := up.phase.next + 1)
    ensures Climbs(up.stores, next.stores, 1)
  {
    var block := net.block(up.phase.next);
    FaultFreeImportSucceeds(m, net, base, first, after, up.stores, block);
    next := SuccessfulDelivery(m, up, block, NoFault);
    StepKeepsFollowing(m, window, net, base, first, after, up, Deliver(block, NoFault));
  }

  ghost predicate FaultFree(stream: seq<(CompressedBlock, Fault)>) {
    forall i | 0 <= i < |stream| :: stream[i].1 == NoFault
  }

  lemma CanonicalTail(net: Network, next: nat, stream: seq<(CompressedBlock, Fault)>)
    requires CanonicalStream(net, next, stream) && FaultFree(stream) && |stream| > 0
    ensures next <= U32_MAX && stream[0] == (net.block(next), NoFault)
    ensures CanonicalStream(net, next + 1, stream[1..]) && FaultFree(stream[1..])
  {
    assert stream[0].0 == net.block(next + 0);
    forall i: nat | i < |stream[1..]| ensures stream[1..][i].0 == net.block(next + 1 + i) {
      assert stream[i + 1].0 == net.block(next + (i + 1));
    }
  }

  /** C has risen by n, and H to at least C. */
  ghost predicate Climbs(s: Stores, t: Stores, n: nat) {
    && s.comp.height.Some? && s.chain.height.Some? && t.comp.height.Some? && t.chain.height.Some?
    && t.comp.height.value == s.comp.height.value + n
    && t.chain.height.value == Max(s.chain.height.value, t.comp.height.value)
  }

  lemma ClimbsFurther(s: Stores, next: Stores, t: Stores, n: nat)
    requires Climbs(s, next, 1) && Climbs(next, t, n)
    ensures Climbs(s, t, n + 1)
  {
  }

  lemma NothingClimbs(m: Machine, net: Network, base: u32, first: u32, after: u32, up: System)
    requires Following(m, net, base, first, after, up)
    ensures Climbs(up.stores, up.stores, 0)
  {
  }

  /** A canonical stream that no fault cuts short is imported to its end. */
  lemma {:induction false} FaultFreeStreamIsImported(m: Machine, window: u32, net: Network, base: u32, first: u32,
                                                     after: u32, up: System, stream: seq<(CompressedBlock, Fault)>)
      returns (t: System)
    requires Following(m, net, base, first, after, up) && up.phase.Streaming?
    requires CanonicalStream(net, up.phase.next, stream) && FaultFree(stream)
    ensures t == Run(m, up, Imports(m, up, stream)) && Following(m, net, base, first, after, t)
    ensures Climbs(up.stores, t.stores, |stream|)
    decreases |stream|
  {
    if |stream| == 0 {
      t := up;
      NothingClimbs(m, net, base, first, after, up);
    } else {
      CanonicalTail(net, up.phase.next, stream);
      var next := FaultFreeStep(m, window, net, base, first, after, up);
      t := FaultFreeStreamIsImported(m, window, net, base, first, after, next, stream[1..]);
      ClimbsFurther(up.stores, next.stores, t.stores, |stream[1..]|);
      assert t == Run(m, up, Imports(m, up, stream)) by { RunOfStream(m, up, stream); }
    }
  }

  /** The run of a stream: the first import, then the rest. */
  lemma RunOfStream(m: Machine, up: System, stream: seq<(CompressedBlock, Fault)>)
    requires |stream| > 0 && up.phase.Streaming?
    ensures var next := Step(m, up, Deliver(stream[0].0, stream[0].1));
      Run(m, up, Imports(m, up, stream)) == Run(m, next, Imports(m, next, stream[1..]))
  {
    var ev := Deliver(stream[0].0, stream[0].1);
    ImportsStep(m, up, stream);
    FirstThen(m, 0, up, ev, Imports(m, Step(m, up, ev), stream[1..]));
  }

  /** Height c is as far as the delivered bundles reach above `from`: every height up to it is covered, and the one
      after it is not. */
  ghost predicate Reaches(codec: Decoders, cat: BundleBufferProofs.Catalog, d: seq<BundleBufferProofs.Piece>,
                          from: u32, c: u32) {
    && from <= c
    && (forall h: u32 | from < h <= c :: Confluence.Covered(codec, cat, d, h))
    && (c < U32_MAX ==> !Confluence.Covered(codec, cat, d, c + 1))
  }

  /** Where the stream of a session ends, if the receiver stays. */
  lemma StreamReaches(net: Network, codec: Decoders, hand: Hand, x: Session, answer: nat -> L1Block,
                      cat: BundleBufferProofs.Catalog, d: seq<BundleBufferProofs.Piece>, c: u32)
      returns (top: u32)
    requires Carries(net, codec, hand, x, answer, cat, d) && x.room > U32_MAX && hand.next == c + 1
    ensures CanonicalStream(net, hand.next, SessionStream(codec, hand, x))
    ensures top == c + |SessionStream(codec, hand, x)|
    ensures Reaches(codec, cat, Confluence.BeforeOffence(codec, cat, d), c, top)
  {
    var sent, r := StreamIsCanonical(net, codec, hand, x, answer, cat, d);
    top := c + |sent|;
  }

  /** A session that reaches the streaming phase `up`, with a canonical stream up to height `top` that no fault cuts
      short. */
  lemma FaultFreeSession(m: Machine, window: u32, net: Network, base: u32, first: u32, after: u32, codec: Decoders,
                         now: System, x: Session, up: System, top: u32) returns (t: System)
    requires up == AfterStartUp(now.stores, x.startUp) && up.phase.Streaming?
    requires Following(m, net, base, first, after, up)
    requires CanonicalStream(net, up.phase.next, SessionStream(codec, up.phase, x))
    requires top == up.phase.next - 1 + |SessionStream(codec, up.phase, x)|
    requires forall i :: x.fault(i) == NoFault
    ensures t == Run(m, now, SessionEvents(m, codec, now, x))
    ensures OnNetwork(net, base, first, t.stores) && t.stores.comp.height.value == top
    ensures up.stores.chain.height.Some? && t.stores.chain.height.value == Max(up.stores.chain.height.value, top)
  {
    var stream := SessionStream(codec, up.phase, x);
    var done := FaultFreeStreamIsImported(m, window, net, base, first, after, up, stream);
    t := StreamedSession(m, codec, now, x, up);
  }

  /** The end of a session that reaches the streaming phase. */
  lemma StreamedSession(m: Machine, codec: Decoders, now: System, x: Session, up: System) returns (t: System)
    requires up == AfterStartUp(now.stores, x.startUp) && up.phase.Streaming?
    ensures t == Run(m, now, SessionEvents(m, codec, now, x))
    ensures t == System(Run(m, up, Imports(m, up, SessionStream(codec, up.phase, x))).stores, Down)
  {
    t := Run(m, now, SessionEvents(m, codec, now, x));
    SessionRun(m, 0, codec, now, x, up);
  }

  /** From the stores `up` that streaming started with to `t`: the compression store is at the last height before the
      first one that no fully delivered bundle covers, the chain at least there, and both are on the network. */
  ghost predicate CaughtUp(net: Network, base: u32, first: u32, codec: Decoders, cat: BundleBufferProofs.Catalog,
                           d: seq<BundleBufferProofs.Piece>, up: Stores, t: Stores) {
    && OnNetwork(net, base, first, t) && up.comp.height.Some? && up.chain.height.Some?
    && Reaches(codec, cat, d, up.comp.height.value, t.comp.height.value)
    && t.chain.height.value == Max(up.chain.height.value, t.comp.height.value)
  }

  lemma ReachedTop(net: Network, base: u32, first: u32, codec: Decoders, cat: BundleBufferProofs.Catalog,
                   d: seq<BundleBufferProofs.Piece>, up: Stores, t: Stores, top: u32)
    requires OnNetwork(net, base, first, t) && up.comp.height.Some? && up.chain.height.Some?
    requires t.comp.height.value == top && Reaches(codec, cat, d, up.comp.height.value, top)
    requires t.chain.height.value == Max(up.chain.height.value, top)
    ensures CaughtUp(net, base, first, codec, cat, d, up, t)
  {
  }

  /** The watchtower catches up: after any sessions whatever, one whose start-up runs through and in which neither an
      import nor the receiver is cut short streams, downloads from the L1 height of the network's block C, and leaves
      the stores caught up with what L1 carries from there, up to the first blob that offends or request that fails. */
  lemma WatchtowerCatchesUp(m: Machine, window: u32, net: Network, base: u32, first: u32, after: u32, codec: Decoders,
                            sys: System, xs: seq<Session>, now: System, x: Session, up: System,
                            answer: nat -> L1Block, cat: BundleBufferProofs.Catalog,
                            d: seq<BundleBufferProofs.Piece>)
    requires Following(m, net, base, first, after, sys) && base <= first
    requires NetworkFeedsAll(m, net, codec, sys, xs) && Fed(m, window, codec, sys, xs)
    requires now == Run(m, sys, ServiceEvents(m, codec, sys, xs))
    requires now.stores.chain.height.Some? && now.stores.comp.height.Some?
    requires Enabled(window, now, x.startUp) && FromNetwork(net, x.startUp)
    requires RunsThrough(window, now.stores, x.startUp)
    requires up == AfterStartUp(now.stores, x.startUp)
    requires up.phase.Streaming? ==> Carries(net, codec, up.phase, x, answer, cat, d)
    requires x.room > U32_MAX && forall i :: x.fault(i) == NoFault
    ensures up.phase.Streaming? && up.phase.daStart == net.entity(up.stores.comp.height.value).daHeight
    ensures BundleBufferProofs.Pieces(cat, d)
    ensures CaughtUp(net, base, first, codec, cat, Confluence.BeforeOffence(codec, cat, d), up.stores,
                     Run(m, now, SessionEvents(m, codec, now, x)).stores)
  {
    WatchtowerFollowsTheNetwork(m, window, net, base, first, after, codec, sys, xs);
    assert Following(m, net, base, first, after, up) by {
      StepKeepsFollowing(m, window, net, base, first, after, now, x.startUp);
    }
    var same := StartUpStreamsExactlyWhen(window, net, base, first, now, x.startUp);
    var top := StreamReaches(net, codec, up.phase, x, answer, cat, d, up.stores.comp.height.value);
    var t := FaultFreeSession(m, window, net, base, first, after, codec, now, x, up, top);
    ReachedTop(net, base, first, codec, cat, Confluence.BeforeOffence(codec, cat, d), up.stores, t.stores, top);
  }
}
