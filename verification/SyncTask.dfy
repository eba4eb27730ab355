/** The service around the syncer, after bin/src/cli/run/sync_task.rs: start up by syncing blocks and then
compression data from GraphQL, hand the next height to the downloader, and import what it streams until
something fails or a stop signal arrives. A run is any sequence of start-ups, imports and stops. */
module SyncTask {
  import opened Wrappers
  import opened Codec
  import opened Stores
  import opened BlockSyncer
  import opened CompressionSync

  /** `Streaming(next, daStart)`: the downloader's next Fuel block is `next`, and it was started at L1 height
      `daStart`. */
  datatype Phase = Down | Streaming(next: nat, daStart: nat)

  datatype System = System(stores: Stores, phase: Phase)

  /** A start-up receives some blocks and then some compressed blocks; `cut` says that the phase was ended there
      by a stop signal, a crash or an error of the environment. `Deliver` is one import, `Stop` a stop signal, the
      end of the stream or an error in it. */
  datatype Event =
    | StartUp(blocks: seq<SealedBlock>, cutBlocks: bool, items: seq<Option<CompressedBlock>>, cutItems: bool)
    | Deliver(block: CompressedBlock, fault: Fault)
    | Stop

  /** The L1 height recorded in the chain's block at the compression height. */
  function CompressionDaHeight(s: Stores): Option<nat> {
    if s.comp.height.Some? && s.comp.height.value in s.chain.blocks then
      Some(s.chain.blocks[s.comp.height.value].entity.daHeight)
    else
      None
  }

  /** The hand-over after both syncs: the compression height must exist, its block must be on chain, and the
      height must have a successor. The download starts at that block's L1 height. */
  function HandOver(s: Stores): Phase {
    match CompressionDaHeight(s)
    case None => Down
    case Some(daStart) =>
      if s.comp.height.value == U32_MAX then Down else Streaming(s.comp.height.value + 1, daStart)
  }

  function AfterStartUp(s: Stores, ev: Event): (up: System)
    requires ev.StartUp?
    ensures up.phase.Streaming? ==>
      up.stores.comp.height.Some? && up.phase.next == up.stores.comp.height.value + 1 <= U32_MAX
  {
    if s.chain.height.None? then System(s, Down)
    else
      var (chain, blocksOk) := SyncBlocks(s.chain, ev.blocks);
      var t := s.(chain := chain);
      if ev.cutBlocks || !blocksOk then System(t, Down)
      else
        var (comp, itemsOk) := SyncItems(t.comp, ev.items);
        var u := t.(comp := comp);
        if ev.cutItems || !itemsOk then System(u, Down) else System(u, HandOver(u))
  }

  function Step(m: Machine, sys: System, ev: Event): System {
    match ev
    case StartUp(_, _, _, _) => AfterStartUp(sys.stores, ev)
    case Deliver(block, fault) =>
      var (s, o) := Import(m, sys.stores, block, fault);
      if o.Failed? then System(s, Down)
      else System(s, if sys.phase.Streaming? then sys.phase.(next := sys.phase.next + 1) else Down)
    case Stop => System(sys.stores, Down)
  }

  /** The compressed blocks received are those of the heights asked for, all below the target. */
  ghost predicate ItemsInRange(window: u32, chain: Chain, comp: CompressionStore, items: seq<Option<CompressedBlock>>) {
    chain.height.Some? ==>
      var start := StartHeight(chain.height.value, comp.height, window);
      Faithful(start, items) && (|items| > 0 ==> start + |items| <= chain.height.value)
  }

  /** Start-ups happen while the service is down, with height-faithful compressed blocks; the stream delivers
      the block whose turn it is. Nothing is assumed about the sealed blocks. */
  ghost predicate Enabled(window: u32, sys: System, ev: Event) {
    match ev
    case StartUp(blocks, _, items, _) =>
      && sys.phase.Down?
      && ItemsInRange(window, SyncBlocks(sys.stores.chain, blocks).0, sys.stores.comp, items)
    case Deliver(block, _) => sys.phase.Streaming? && block.height == sys.phase.next
    case Stop => true
  }

  ghost predicate Schedule(m: Machine, window: u32, sys: System, evs: seq<Event>)
    decreases |evs|
  {
    |evs| > 0 ==> Enabled(window, sys, evs[0]) && Schedule(m, window, Step(m, sys, evs[0]), evs[1..])
  }

  function Run(m: Machine, sys: System, evs: seq<Event>): System
    decreases |evs|
  {
    if |evs| == 0 then sys else Run(m, Step(m, sys, evs[0]), evs[1..])
  }

  /** One start of the service, driving the syncer object through its phases. */
  method IntoTask(syncer: BlockSyncer, ev: Event) returns (phase: Phase)
    requires ev.StartUp?
    modifies syncer
    ensures System(syncer.Abs(), phase) == AfterStartUp(old(syncer.Abs()), ev)
  {
    if syncer.chain.height.None? { return Down; }
    var ok := syncer.SyncBlocksFromGraphql(ev.blocks);
    if ev.cutBlocks || !ok { return Down; }
    ok := syncer.SyncCompressionFromGraphql(ev.items);
    if ev.cutItems || !ok { return Down; }
    phase := HandOver(syncer.Abs());
  }

  /** The running service: import what the stream yields until an import fails. */
  method RunTask(syncer: BlockSyncer, from: Phase, stream: seq<(CompressedBlock, Fault)>)
      returns (phase: Phase, taken: nat)
    requires from.Streaming?
    modifies syncer
    ensures taken <= |stream|
    ensures System(syncer.Abs(), phase)
         == Run(syncer.machine, System(old(syncer.Abs()), from), Deliveries(stream[..taken]))
    ensures taken < |stream| ==> phase.Down?
    ensures forall k | 0 <= k < taken ::
      Run(syncer.machine, System(old(syncer.Abs()), from), Deliveries(stream[..k])).phase.Streaming?
  {
    phase, taken := from, 0;
    ghost var start := System(syncer.Abs(), from);
    while taken < |stream| && phase.Streaming?
      invariant 0 <= taken <= |stream|
      invariant System(syncer.Abs(), phase) == Run(syncer.machine, start, Deliveries(stream[..taken]))
      invariant forall k | 0 <= k < taken :: Run(syncer.machine, start, Deliveries(stream[..k])).phase.Streaming?
    {
      ghost var before := System(syncer.Abs(), phase);
      var o := syncer.ImportBlockFromDa(stream[taken].0, stream[taken].1);
      phase := if o.Failed? then Down else phase.(next := phase.next + 1);
      DeliverOneMore(stream, taken);
      RunOneMore(syncer.machine, start, Deliveries(stream[..taken]), Deliver(stream[taken].0, stream[taken].1));
      taken := taken + 1;
    }
  }

  function Deliveries(stream: seq<(CompressedBlock, Fault)>): seq<Event> {
    seq(|stream|, i requires 0 <= i < |stream| => Deliver(stream[i].0, stream[i].1))
  }

  lemma DeliverOneMore(stream: seq<(CompressedBlock, Fault)>, k: nat)
    requires k < |stream|
    ensures Deliveries(stream[..k + 1]) == Deliveries(stream[..k]) + [Deliver(stream[k].0, stream[k].1)]
  {
  }

  lemma {:induction false} RunOneMore(m: Machine, sys: System, evs: seq<Event>, ev: Event)
    ensures Run(m, sys, evs + [ev]) == Step(m, Run(m, sys, evs), ev)
    decreases |evs|
  {
    if |evs| == 0 {
      assert evs + [ev] == [ev];
      assert Run(m, sys, [ev]) == Run(m, Step(m, sys, ev), []);
    } else {
      assert (evs + [ev])[1..] == evs[1..] + [ev];
      RunOneMore(m, Step(m, sys, evs[0]), evs[1..], ev);
    }
  }
}
