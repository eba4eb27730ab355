/** What every run of the service keeps: the two stores stay in step. */
module SyncTaskProofs {
  import opened Wrappers
  import opened Codec
  import opened Stores
  import opened BlockSyncer
  import opened CompressionSync
  import opened SyncTask
  import OF = OrderedFetch

  /** C is absent or C <= H, and while streaming the next height is C + 1. */
  ghost predicate InStep(sys: System) {
    && (sys.stores.comp.height.Some? ==>
          sys.stores.chain.height.Some? && sys.stores.comp.height.value <= sys.stores.chain.height.value)
    && (sys.phase.Streaming? ==>
          sys.stores.comp.height.Some? && sys.phase.next == sys.stores.comp.height.value + 1)
  }

  lemma {:induction false} SyncBlocksClimbs(chain: Chain, blocks: seq<SealedBlock>)
    requires chain.height.Some?
    ensures var next := SyncBlocks(chain, blocks).0;
      next.height.Some? && next.height.value >= chain.height.value
    decreases |blocks|
  {
    if |blocks| == 0 {
    } else if CommitBlock(chain, blocks[0]).Some? {
      SyncBlocksClimbs(CommitBlock(chain, blocks[0]).value, blocks[1..]);
    }
  }

  /** A compression sync over faithful items never commits at or above the end of their range. */
  lemma {:induction false} SyncItemsStayBelow(comp: CompressionStore, items: seq<Option<CompressedBlock>>,
                                              start: nat, target: u32)
    requires Faithful(start, items) && (|items| > 0 ==> start + |items| <= target + 1)
    requires comp.height.Some? ==> comp.height.value <= target
    ensures var next := SyncItems(comp, items).0;
      && (next.height.Some? ==> next.height.value <= target)
      && (comp.height.Some? ==> next.height.Some? && next.height.value >= comp.height.value)
    decreases |items|
  {
    if |items| == 0 {
    } else {
      FaithfulFrom(start, items, 1);
      if items[0].None? {
        SyncItemsStayBelow(comp, items[1..], start + 1, target);
      } else if CommitCompression(comp, Apply(items[0].value)).Some? {
        SyncItemsStayBelow(Written(comp, Apply(items[0].value)), items[1..], start + 1, target);
      }
    }
  }

  /** What a start-up assumes of its compressed blocks is what the fetch gives: with a height-faithful fetcher, at
      any moment of the concurrent fetch from the start height to the chain's height, and however many items the
      receiver still takes, they are in range. */
  lemma FetchedItemsAreInRange(item: nat -> Option<CompressedBlock>, fetch: Fetcher, window: u32,
                               chain: Chain, comp: CompressionStore, steps: seq<OF.Step>, accepted: nat)
    requires OF.ItemFaithful(item, fetch) && ByHeight(item) && chain.height.Some?
    requires var start := StartHeight(chain.height.value, comp.height, window);
      OF.Execution(fetch, OF.Ranges(start, chain.height.value), OF.Open(), steps)
    ensures var start := StartHeight(chain.height.value, comp.height, window);
      var delivered := OF.Fetching(fetch, start, chain.height.value, steps).delivered;
      ItemsInRange(window, chain, comp, OF.Received(delivered, accepted))
  {
    var start := StartHeight(chain.height.value, comp.height, window);
    var items, cut, k := ReceivedItems(item, fetch, start, chain.height.value, steps, accepted);
  }

  lemma StartUpKeepsInStep(window: u32, sys: System, ev: Event)
    requires InStep(sys) && ev.StartUp? && Enabled(window, sys, ev)
    ensures InStep(AfterStartUp(sys.stores, ev))
  {
    var s := sys.stores;
    if s.chain.height.Some? {
      SyncBlocksClimbs(s.chain, ev.blocks);
      var chain := SyncBlocks(s.chain, ev.blocks).0;
      var start := StartHeight(chain.height.value, s.comp.height, window);
      SyncItemsStayBelow(s.comp, ev.items, start, chain.height.value);
    }
  }

  /** One import of the block whose turn it is: the chain moves to at most H + 1 and the compression store to at
      most C + 1. A successful import ends at (max(H, C + 1), C + 1): it is never a skip and never an on-chain
      import without a compression commit. No import is rejected as unlinked, and a failed one leaves either
      both stores alone or only the chain one block ahead. */
  lemma DeliverCommits(m: Machine, sys: System, block: CompressedBlock, fault: Fault)
    requires InStep(sys) && sys.phase.Streaming? && block.height == sys.phase.next
    ensures var (s, o) := Import(m, sys.stores, block, fault);
      var top, c := sys.stores.chain.height.value, sys.stores.comp.height.value;
      && (o == Imported(true) || o.Failed?)
      && o != Failed(HeightsNotLinked)
      && (o == Imported(true) ==>
            s.comp.height == Some(c + 1) && s.chain.height == Some(if c == top then top + 1 else top))
      && (o.Failed? ==>
            s.comp == sys.stores.comp &&
            (s.chain == sys.stores.chain ||
             (c == top && s.chain.height == Some(top + 1) && o == Failed(CompressionCommitFailed))))
  {
  }

  lemma StepKeepsInStep(m: Machine, window: u32, sys: System, ev: Event)
    requires InStep(sys) && Enabled(window, sys, ev)
    ensures InStep(Step(m, sys, ev))
  {
    match ev {
      case StartUp(_, _, _, _) => StartUpKeepsInStep(window, sys, ev);
      case Deliver(block, fault) => DeliverCommits(m, sys, block, fault);
      case Stop =>
    }
  }

  /** The two-store invariant over every run: any sequence of start-ups (complete, stopped, failed), imports
      (complete, failed before or between the two commits) and stops keeps C <= H, and the streamed height is
      always C + 1. */
  lemma {:induction false} TwoStoresStayInStep(m: Machine, window: u32, sys: System, evs: seq<Event>)
    requires InStep(sys) && Schedule(m, window, sys, evs)
    ensures InStep(Run(m, sys, evs))
    decreases |evs|
  {
    if |evs| == 0 {
    } else {
      StepKeepsInStep(m, window, sys, evs[0]);
      TwoStoresStayInStep(m, window, Step(m, sys, evs[0]), evs[1..]);
    }
  }

  /** So in every reachable state, importing the next streamed block commits exactly H + 1 (or nothing) on chain
      and exactly C + 1 in the compression store. */
  lemma EveryImportIsLinked(m: Machine, window: u32, sys: System, evs: seq<Event>, block: CompressedBlock, fault: Fault)
    requires InStep(sys) && Schedule(m, window, sys, evs)
    requires Enabled(window, Run(m, sys, evs), Deliver(block, fault))
    ensures var now := Run(m, sys, evs).stores; var (s, o) := Import(m, now, block, fault);
      && now.comp.height.Some? && now.chain.height.Some?
      && block.height == now.comp.height.value + 1
      && now.comp.height.value <= now.chain.height.value
      && o != Skipped && o != Imported(false) && o != Failed(HeightsNotLinked)
      && (s.chain != now.chain ==>
            && block.height == now.chain.height.value + 1 && s.chain.height == Some(block.height)
            && block.height in s.chain.blocks && s.chain.blocks[block.height].seal == DefaultSeal
            && s.chain.blocks - {block.height} == now.chain.blocks - {block.height})
      && (s.comp != now.comp ==> s.comp == Written(now.comp, Apply(block)))
  {
    TwoStoresStayInStep(m, window, sys, evs);
    DeliverCommits(m, Run(m, sys, evs), block, fault);
  }

  // ---------------------------------------------------------------- what an import puts on chain

  /** The block decompresses, against the committed registry, to transactions that end in a mint, and execution of
      those before it, with the mint's recipient and gas price, gives the entity `e`. */
  ghost predicate Assembles(m: Machine, s: Stores, block: CompressedBlock, e: Entity) {
    exists header, txs, gasPrice, recipient ::
      && m.decompress(s.comp.registry, Entities(s.chain), block)
           == Some(PartialBlock(header, txs + [Mint(gasPrice, recipient)]))
      && m.execute(Entities(s.chain), Components(header, txs, recipient, gasPrice)) == Some(e)
  }

  lemma MintIsSplitOff(m: Machine, s: Stores, block: CompressedBlock, e: Entity)
    ensures Produce(m, s, block).0 == Some(e) <==> Assembles(m, s, block, e)
  {
    if Produce(m, s, block).0 == Some(e) { ProducedIsAssembled(m, s, block, e); }
    if Assembles(m, s, block, e) { AssembledIsProduced(m, s, block, e); }
  }

  lemma ProducedIsAssembled(m: Machine, s: Stores, block: CompressedBlock, e: Entity)
    requires Produce(m, s, block).0 == Some(e)
    ensures Assembles(m, s, block, e)
  {
    var partial := m.decompress(s.comp.registry, Entities(s.chain), block).value;
    var txs, n := partial.transactions, |partial.transactions|;
    var mint := txs[n - 1];
    assert txs == txs[..n - 1] + [Mint(mint.gasPrice, mint.coinbaseRecipient)];
    assert partial == PartialBlock(partial.header, txs[..n - 1] + [Mint(mint.gasPrice, mint.coinbaseRecipient)]);
  }

  lemma AssembledIsProduced(m: Machine, s: Stores, block: CompressedBlock, e: Entity)
    requires Assembles(m, s, block, e)
    ensures Produce(m, s, block).0 == Some(e)
  {
    var header, txs, gasPrice, recipient :|
      && m.decompress(s.comp.registry, Entities(s.chain), block)
           == Some(PartialBlock(header, txs + [Mint(gasPrice, recipient)]))
      && m.execute(Entities(s.chain), Components(header, txs, recipient, gasPrice)) == Some(e);
    var all := txs + [Mint(gasPrice, recipient)];
    assert all[..|all| - 1] == txs && all[|all| - 1] == Mint(gasPrice, recipient);
  }

  /** The block is above the chain, and gives an entity the importer accepts. */
  ghost predicate Extends(m: Machine, s: Stores, block: CompressedBlock)
    requires s.chain.height.Some?
  {
    block.height > s.chain.height.value
    && exists e :: Assembles(m, s, block, e) && e.height == s.chain.height.value + 1
  }

  /** An import changes the chain exactly when the block extends it and nothing fails before the commit; and then it
      appends that entity, with the default seal. */
  lemma ChainGrowsExactlyWhen(m: Machine, s: Stores, block: CompressedBlock, fault: Fault)
    requires s.chain.height.Some?
    ensures var chain := Import(m, s, block, fault).0.chain; var top := s.chain.height.value;
      && (chain != s.chain <==> fault != AtApply && fault != AtChainCommit && Extends(m, s, block))
      && (chain != s.chain ==> forall e | Assembles(m, s, block, e) ::
            chain == Chain(Some(e.height), s.chain.blocks[e.height := SealedBlock(e, DefaultSeal)]))
  {
    var entity := Produce(m, s, block).0;
    forall e ensures Assembles(m, s, block, e) <==> entity == Some(e) { MintIsSplitOff(m, s, block, e); }
    if entity.Some? { assert Assembles(m, s, block, entity.value); }
  }

  /** The chain part of an import is done: the block is on chain already, or it is put there now. */
  ghost predicate OnChainAfter(m: Machine, s: Stores, block: CompressedBlock, fault: Fault)
    requires s.chain.height.Some?
  {
    block.height <= s.chain.height.value || (fault != AtChainCommit && Extends(m, s, block))
  }

  /** Every import of any block into any stores, to the end: it is refused without a genesis block; skipped exactly when
      the block is at or below both heights; it changes the compression store, by exactly the block and its
      registrations, exactly when the chain part is done, the block is above C and linked to it, and nothing else fails;
      and that is when it reports a compression commit. */
  lemma ImportExactly(m: Machine, s: Stores, block: CompressedBlock, fault: Fault)
    ensures var (t, o) := Import(m, s, block, fault); var c := s.comp.height;
      if s.chain.height.None? then t == s && o == Failed(NoGenesisBlock)
      else
        var known := c.Some? && block.height <= c.value && block.height <= s.chain.height.value;
        var applied := !known && fault != AtApply && OnChainAfter(m, s, block, fault);
        var commits := applied && fault != AtCompressionCommit && block.height > Latest(c)
                       && (c.Some? ==> block.height == c.value + 1);
        && (o == Skipped <==> known)
        && t.comp == (if commits then Written(s.comp, Apply(block)) else s.comp)
        && (o == Imported(true) <==> commits)
        && (o == Imported(false) <==> applied && block.height <= Latest(c))
        && (t.chain != s.chain <==> applied && block.height > s.chain.height.value)
  {
    if s.chain.height.Some? {
      ChainGrowsExactlyWhen(m, s, block, fault);
      if block.height > s.chain.height.value { ProducesExtending(m, s, block); }
    }
  }

  lemma ProducesExtending(m: Machine, s: Stores, block: CompressedBlock)
    requires s.chain.height.Some? && block.height > s.chain.height.value
    ensures var e := Produce(m, s, block).0;
      Extends(m, s, block) <==> e.Some? && e.value.height == s.chain.height.value + 1
  {
    var entity := Produce(m, s, block).0;
    forall e ensures Assembles(m, s, block, e) <==> entity == Some(e) { MintIsSplitOff(m, s, block, e); }
  }

  // ---------------------------------------------------------------- the hand-over

  /** A start-up reaches the streaming phase exactly when the chain has a height, neither sync is cut off, both report
      success, and there is compression data whose block is on chain and whose height has a successor. Then the stream
      starts there, at that block's L1 height. Otherwise the service is down, with whatever has been committed. */
  lemma StreamsExactlyWhen(s: Stores, ev: Event)
    requires ev.StartUp?
    ensures var up := AfterStartUp(s, ev);
      var (chain, blocksOk) := SyncBlocks(s.chain, ev.blocks); var (comp, itemsOk) := SyncItems(s.comp, ev.items);
      && (up.phase.Streaming? <==>
            && s.chain.height.Some? && !ev.cutBlocks && blocksOk && !ev.cutItems && itemsOk
            && comp.height.Some? && comp.height.value in chain.blocks && comp.height.value < U32_MAX)
      && (up.phase.Streaming? ==>
            up.phase == Streaming(comp.height.value + 1, chain.blocks[comp.height.value].entity.daHeight))
      && up.stores.chain == (if s.chain.height.None? then s.chain else chain)
      && up.stores.comp == (if s.chain.height.None? || ev.cutBlocks || !blocksOk then s.comp else comp)
  {
  }

  // ---------------------------------------------------------------- runs in pieces

  lemma {:induction false} RunAppend(m: Machine, sys: System, a: seq<Event>, b: seq<Event>)
    ensures Run(m, sys, a + b) == Run(m, Run(m, sys, a), b)
    decreases |a|
  {
    if |a| == 0 {
      assert a + b == b;
    } else {
      assert (a + b)[1..] == a[1..] + b;
      RunAppend(m, Step(m, sys, a[0]), a[1..], b);
    }
  }

  lemma {:induction false} ScheduleAppend(m: Machine, window: u32, sys: System, a: seq<Event>, b: seq<Event>)
    ensures Schedule(m, window, sys, a + b) <==> Schedule(m, window, sys, a) && Schedule(m, window, Run(m, sys, a), b)
    decreases |a|
  {
    if |a| == 0 {
      assert a + b == b;
    } else {
      assert (a + b)[0] == a[0] && (a + b)[1..] == a[1..] + b;
      ScheduleAppend(m, window, Step(m, sys, a[0]), a[1..], b);
    }
  }

  // ---------------------------------------------------------------- catching up

  /** How far the compression store is behind the chain. */
  function Lag(s: Stores): int
    requires s.chain.height.Some? && s.comp.height.Some?
  {
    s.chain.height.value - s.comp.height.value
  }

  /** Catch-up: a successful import lowers the lag by one while it is positive and leaves it zero once it is
      zero. The lag grows, from 0 to 1, exactly when the stores are level, the block extends the chain, and the
      import fails between its two commits. */
  lemma LagMoves(m: Machine, sys: System, block: CompressedBlock, fault: Fault)
    requires InStep(sys) && sys.phase.Streaming? && block.height == sys.phase.next
    ensures var (s, o) := Import(m, sys.stores, block, fault);
      && s.chain.height.Some? && s.comp.height.Some?
      && (o == Imported(true) ==> Lag(s) == if Lag(sys.stores) > 0 then Lag(sys.stores) - 1 else 0)
      && (Lag(s) > Lag(sys.stores) <==>
            Lag(sys.stores) == 0 && fault == AtCompressionCommit && Extends(m, sys.stores, block))
  {
    DeliverCommits(m, sys, block, fault);
    ChainGrowsExactlyWhen(m, sys.stores, block, fault);
  }

  /** With C <= H, an import is a skip, which changes nothing, exactly when its block is at or below C. */
  lemma KnownBlocksAreSkipped(m: Machine, s: Stores, block: CompressedBlock, fault: Fault)
    requires s.chain.height.Some? && s.comp.height.Some?
    requires s.comp.height.value <= s.chain.height.value
    ensures block.height <= s.comp.height.value <==> Import(m, s, block, fault) == (s, Skipped)
  {
  }

  /** Idempotence: importing any blocks at or below C again, in any order, whatever else goes wrong, changes
      nothing. */
  lemma {:induction false} ReimportsChangeNothing(m: Machine, s: Stores, imports: seq<(CompressedBlock, Fault)>)
    requires s.chain.height.Some? && s.comp.height.Some?
    requires s.comp.height.value <= s.chain.height.value
    requires forall i | 0 <= i < |imports| :: imports[i].0.height <= s.comp.height.value
    ensures ImportAll(m, s, imports) == s
    decreases |imports|
  {
    if |imports| == 0 {
    } else {
      KnownBlocksAreSkipped(m, s, imports[0].0, imports[0].1);
      ReimportsChangeNothing(m, s, imports[1..]);
    }
  }

  /** The heights of the stores never go down, whatever is imported, in any order, with any faults. */
  lemma {:induction false} HeightsNeverDrop(m: Machine, s: Stores, imports: seq<(CompressedBlock, Fault)>)
    requires s.chain.height.Some? && s.comp.height.Some?
    ensures var t := ImportAll(m, s, imports);
      && t.chain.height.Some? && t.chain.height.value >= s.chain.height.value
      && t.comp.height.Some? && t.comp.height.value >= s.comp.height.value
    decreases |imports|
  {
    if |imports| == 0 {
    } else {
      HeightsNeverDrop(m, Import(m, s, imports[0].0, imports[0].1).0, imports[1..]);
    }
  }

  function ImportAll(m: Machine, s: Stores, imports: seq<(CompressedBlock, Fault)>): Stores
    decreases |imports|
  {
    if |imports| == 0 then s else ImportAll(m, Import(m, s, imports[0].0, imports[0].1).0, imports[1..])
  }

  /** The running task imports what it is given, one block after another, as long as no import fails; and the first
      import that fails ends it. */
  lemma {:induction false} TaskStopsAtFirstFailure(m: Machine, s: Stores, from: Phase,
                                                   stream: seq<(CompressedBlock, Fault)>)
    requires from.Streaming?
    requires forall k | 0 <= k < |stream| - 1 ::
      !Import(m, ImportAll(m, s, stream[..k]), stream[k].0, stream[k].1).1.Failed?
    ensures var n := |stream|; var t := Run(m, System(s, from), Deliveries(stream));
      && t.stores == ImportAll(m, s, stream)
      && t.phase == (if n > 0 && Import(m, ImportAll(m, s, stream[..n - 1]), stream[n - 1].0, stream[n - 1].1).1.Failed?
                     then Down else from.(next := from.next + n))
    decreases |stream|
  {
    if |stream| == 0 {
    } else {
      var u, last := stream[..|stream| - 1], stream[|stream| - 1];
      forall k | 0 <= k < |u| ensures u[..k] == stream[..k] && u[k] == stream[k] {}
      TaskStopsAtFirstFailure(m, s, from, u);
      ImportAllLast(m, s, stream);
      DeliverOneMore(stream, |u|);
      assert stream[..|u| + 1] == stream;
      RunOneMore(m, System(s, from), Deliveries(u), Deliver(last.0, last.1));
      if |u| > 0 { assert u[..|u| - 1] == stream[..|u| - 1] && u[|u| - 1] == stream[|u| - 1]; }
    }
  }

  lemma {:induction false} ImportAllLast(m: Machine, s: Stores, imports: seq<(CompressedBlock, Fault)>)
    requires |imports| > 0
    ensures var u := imports[..|imports| - 1]; var last := imports[|imports| - 1];
      ImportAll(m, s, imports) == Import(m, ImportAll(m, s, u), last.0, last.1).0
    decreases |imports|
  {
    if |imports| == 1 {
      assert ImportAll(m, s, imports) == ImportAll(m, Import(m, s, imports[0].0, imports[0].1).0, []);
    } else {
      ImportAllLast(m, Import(m, s, imports[0].0, imports[0].1).0, imports[1..]);
      assert imports[1..][..|imports| - 2] == imports[..|imports| - 1][1..];
    }
  }

  // ---------------------------------------------------------------- the registry at decompression time

  /** The stores hold contiguous heights, and the registry is the fold of the committed registrations. */
  ghost predicate WellFormed(base: u32, first: u32, s: Stores) {
    ChainOk(base, s.chain) && CompressionOk(first, s.comp)
  }

  lemma {:induction false} SyncBlocksKeepsChainOk(base: u32, chain: Chain, blocks: seq<SealedBlock>)
    requires ChainOk(base, chain)
    ensures ChainOk(base, SyncBlocks(chain, blocks).0)
    decreases |blocks|
  {
    if |blocks| == 0 {
    } else if CommitBlock(chain, blocks[0]).Some? {
      CommitKeepsChainOk(base, chain, blocks[0]);
      SyncBlocksKeepsChainOk(base, CommitBlock(chain, blocks[0]).value, blocks[1..]);
    }
  }

  lemma {:induction false} SyncItemsKeepsCompressionOk(first: u32, comp: CompressionStore,
                                                       items: seq<Option<CompressedBlock>>) returns (from: u32)
    requires CompressionOk(first, comp)
    ensures CompressionOk(from, SyncItems(comp, items).0)
    ensures comp.height.Some? ==> from == first
    decreases |items|
  {
    from := first;
    if |items| == 0 {
    } else {
      if items[0].None? {
        if comp.height.None? { from := SyncItemsKeepsCompressionOk(first, comp, items[1..]); }
      } else {
        var block := items[0].value;
        if CommitCompression(comp, Apply(block)).Some? {
          CommitKeepsCompressionOk(first, comp, block);
          from := SyncItemsKeepsCompressionOk(if comp.height.None? then block.height else first,
                                              Written(comp, Apply(block)), items[1..]);
        }
      }
    }
  }

  lemma ImportKeepsWellFormed(m: Machine, base: u32, first: u32, s: Stores, block: CompressedBlock, fault: Fault)
      returns (from: u32)
    requires WellFormed(base, first, s)
    ensures WellFormed(base, from, Import(m, s, block, fault).0)
    ensures s.comp.height.Some? ==> from == first
  {
    from := first;
    var entity := Produce(m, s, block).0;
    if s.chain.height.Some? && entity.Some? {
      var sealed := SealedBlock(entity.value, DefaultSeal);
      if CommitBlock(s.chain, sealed).Some? { CommitKeepsChainOk(base, s.chain, sealed); }
    }
    if CommitCompression(s.comp, Apply(block)).Some? {
      CommitKeepsCompressionOk(first, s.comp, block);
      if s.comp.height.None? && Import(m, s, block, fault).0.comp.height.Some? { from := block.height; }
    }
  }

  lemma StepKeepsWellFormed(m: Machine, base: u32, first: u32, sys: System, ev: Event) returns (from: u32)
    requires WellFormed(base, first, sys.stores)
    ensures WellFormed(base, from, Step(m, sys, ev).stores)
    ensures sys.stores.comp.height.Some? ==> from == first
  {
    match ev {
      case StartUp(_, _, _, _) =>
        SyncBlocksKeepsChainOk(base, sys.stores.chain, ev.blocks);
        from := SyncItemsKeepsCompressionOk(first, sys.stores.comp, ev.items);
        if Step(m, sys, ev).stores.comp == sys.stores.comp { from := first; }
      case Deliver(block, fault) =>
        from := ImportKeepsWellFormed(m, base, first, sys.stores, block, fault);
      case Stop => from := first;
    }
  }

  /** Over every run, with any provider and any faults, both stores stay contiguous and the registry stays the
      fold of what has been committed: nothing of a failed import ever leaks into it. */
  lemma {:induction false} StoresStayWellFormed(m: Machine, base: u32, first: u32, sys: System, evs: seq<Event>)
      returns (from: u32)
    requires WellFormed(base, first, sys.stores)
    ensures WellFormed(base, from, Run(m, sys, evs).stores)
    ensures sys.stores.comp.height.Some? ==> from == first
    decreases |evs|
  {
    from := first;
    if |evs| == 0 {
    } else {
      from := StepKeepsWellFormed(m, base, first, sys, evs[0]);
      var next := Step(m, sys, evs[0]);
      if sys.stores.comp.height.Some? { StepKeepsCompression(m, sys, evs[0]); }
      from := StoresStayWellFormed(m, base, from, next, evs[1..]);
    }
  }

  lemma {:induction false} SyncItemsKeepsSome(comp: CompressionStore, items: seq<Option<CompressedBlock>>)
    requires comp.height.Some?
    ensures SyncItems(comp, items).0.height.Some?
    decreases |items|
  {
    if |items| == 0 {
    } else if items[0].Some? && CommitCompression(comp, Apply(items[0].value)).Some? {
      SyncItemsKeepsSome(Written(comp, Apply(items[0].value)), items[1..]);
    }
  }

  lemma StepKeepsCompression(m: Machine, sys: System, ev: Event)
    requires sys.stores.comp.height.Some?
    ensures Step(m, sys, ev).stores.comp.height.Some?
  {
    if ev.StartUp? { SyncItemsKeepsSome(sys.stores.comp, ev.items); }
  }

  /** Registry at decompression time: whenever a streamed block b is decompressed, the committed registry is
      exactly the fold of the registrations of the contiguous heights first, ..., b - 1. */
  lemma RegistryWhenDecompressing(m: Machine, window: u32, base: u32, first: u32, sys: System, evs: seq<Event>,
                                  block: CompressedBlock, fault: Fault) returns (from: u32)
    requires InStep(sys) && WellFormed(base, first, sys.stores) && Schedule(m, window, sys, evs)
    requires Enabled(window, Run(m, sys, evs), Deliver(block, fault))
    ensures var now := Run(m, sys, evs).stores;
      && from < block.height
      && (forall h: u32 :: h in now.comp.blocks <==> from <= h < block.height)
      && now.comp.registry == Fold(now.comp.blocks, from, block.height)
  {
    TwoStoresStayInStep(m, window, sys, evs);
    from := StoresStayWellFormed(m, base, first, sys, evs);
  }

  // ---------------------------------------------------------------- exactly when the order C <= H is kept

  /** The blocks a compression sync accepts from a store at height `c`: missing items are skipped as long as
      nothing has been committed, and then each block must be linked to the one before. */
  function Accepted(c: Option<u32>, items: seq<Option<CompressedBlock>>): seq<CompressedBlock>
    decreases |items|
  {
    if |items| == 0 then []
    else match items[0]
      case None => if c.Some? then [] else Accepted(c, items[1..])
      case Some(block) =>
        if c.Some? && block.height != c.value + 1 then [] else [block] + Accepted(Some(block.height), items[1..])
  }

  function WriteAll(comp: CompressionStore, blocks: seq<CompressedBlock>): CompressionStore
    decreases |blocks|
  {
    if |blocks| == 0 then comp else WriteAll(Written(comp, Apply(blocks[0])), blocks[1..])
  }

  /** The sync commits exactly the accepted blocks, one after another. */
  lemma {:induction false} SyncWritesAccepted(comp: CompressionStore, items: seq<Option<CompressedBlock>>)
    ensures SyncItems(comp, items).0 == WriteAll(comp, Accepted(comp.height, items))
    decreases |items|
  {
    if |items| == 0 {
    } else if items[0].None? {
      if comp.height.None? { SyncWritesAccepted(comp, items[1..]); }
    } else if CommitCompression(comp, Apply(items[0].value)).Some? {
      var block, rest := items[0].value, Accepted(Some(items[0].value.height), items[1..]);
      SyncWritesAccepted(Written(comp, Apply(block)), items[1..]);
      assert ([block] + rest)[1..] == rest;
    }
  }

  /** The height a sync from c accepts first. */
  function FirstHeight(c: Option<u32>, items: seq<Option<CompressedBlock>>, lead: nat): nat
    requires c.None? ==> lead < |items| && items[lead].Some?
  {
    if c.Some? then c.value + 1 else items[lead].value.height
  }

  /** After `lead` missing items, skipped only while there is no compression data, the next n are present and linked,
      and no further one is. */
  ghost predicate AcceptedRun(c: Option<u32>, items: seq<Option<CompressedBlock>>, lead: nat, n: nat) {
    && lead + n <= |items| && (c.Some? ==> lead == 0)
    && (forall i | 0 <= i < lead :: items[i].None?)
    && (c.None? && lead < |items| ==> items[lead].Some? && n > 0)
    && (forall i | lead <= i < lead + n ::
          items[i].Some? && items[i].value.height == FirstHeight(c, items, lead) + (i - lead))
    && (lead + n < |items| && items[lead + n].Some? ==>
          items[lead + n].value.height != FirstHeight(c, items, lead) + n)
  }

  /** What the sync accepts, for any items: that run; and it fails exactly when a present item follows it. */
  lemma {:induction false} SyncAcceptsRun(comp: CompressionStore, items: seq<Option<CompressedBlock>>)
      returns (lead: nat, n: nat)
    ensures AcceptedRun(comp.height, items, lead, n)
    ensures Accepted(comp.height, items) == seq(n, i requires 0 <= i < n => items[lead + i].value)
    ensures SyncItems(comp, items).1 <==> lead + n == |items| || items[lead + n].None?
    decreases |items|
  {
    lead, n := 0, 0;
    if |items| == 0 {
    } else if items[0].None? {
      if comp.height.None? {
        lead, n := SyncAcceptsRun(comp, items[1..]);
        RunAfterMissing(items, lead, n);
        lead := lead + 1;
      }
    } else if CommitCompression(comp, Apply(items[0].value)).Some? {
      lead, n := SyncAcceptsRun(Written(comp, Apply(items[0].value)), items[1..]);
      RunAfterPresent(comp.height, items, n);
      n := n + 1;
    }
  }

  /** Without compression data, a sync over faithful items always succeeds. */
  lemma FirstSyncSucceeds(start: nat, items: seq<Option<CompressedBlock>>)
    requires Faithful(start, items)
    ensures SyncItems(EmptyCompression(), items).1
  {
    var lead, n := SyncAcceptsRun(EmptyCompression(), items);
  }

  lemma RunAfterMissing(items: seq<Option<CompressedBlock>>, lead: nat, n: nat)
    requires |items| > 0 && items[0].None? && AcceptedRun(None, items[1..], lead, n)
    ensures AcceptedRun(None, items, lead + 1, n)
    ensures seq(n, i requires 0 <= i < n => items[1..][lead + i].value)
         == seq(n, i requires 0 <= i < n => items[lead + 1 + i].value)
  {
    var rest := items[1..];
    forall i | 0 <= i < |rest| ensures rest[i] == items[i + 1] {}
    forall i | lead + 1 <= i < lead + 1 + n
      ensures items[i].Some? && items[i].value.height == FirstHeight(None, items, lead + 1) + (i - (lead + 1))
    {
      assert rest[i - 1] == items[i];
    }
    forall i | 0 <= i < lead + 1 ensures items[i].None? { if i > 0 { assert rest[i - 1] == items[i]; } }
  }

  lemma RunAfterPresent(c: Option<u32>, items: seq<Option<CompressedBlock>>, n: nat)
    requires |items| > 0 && items[0].Some? && (c.Some? ==> items[0].value.height == c.value + 1)
    requires AcceptedRun(Some(items[0].value.height), items[1..], 0, n)
    ensures AcceptedRun(c, items, 0, n + 1)
    ensures [items[0].value] + seq(n, i requires 0 <= i < n => items[1..][0 + i].value)
         == seq(n + 1, i requires 0 <= i < n + 1 => items[0 + i].value)
  {
    var rest := items[1..];
    forall i | 0 <= i < |rest| ensures rest[i] == items[i + 1] {}
    forall i | 0 <= i < n + 1 ensures items[i].Some? && items[i].value.height == FirstHeight(c, items, 0) + i {
      if i > 0 { assert rest[i - 1] == items[i]; }
    }
  }

  ghost predicate Linked(c: Option<u32>, blocks: seq<CompressedBlock>) {
    && (c.Some? && |blocks| > 0 ==> blocks[0].height == c.value + 1)
    && (forall i | 0 <= i < |blocks| :: blocks[i].height == blocks[0].height + i)
  }

  lemma {:induction false} AcceptedAreLinked(c: Option<u32>, items: seq<Option<CompressedBlock>>)
    ensures Linked(c, Accepted(c, items))
    decreases |items|
  {
    if |items| == 0 {
    } else if items[0].None? {
      if c.None? { AcceptedAreLinked(c, items[1..]); }
    } else {
      var block := items[0].value;
      var rest := Accepted(Some(block.height), items[1..]);
      AcceptedAreLinked(Some(block.height), items[1..]);
      var blocks := [block] + rest;
      forall i | 0 <= i < |blocks| ensures blocks[i].height == block.height + i {
        if i > 0 { assert rest[i - 1].height == rest[0].height + (i - 1); }
      }
      assert Linked(None, blocks);
    }
  }

  lemma {:induction false} WriteAllHeight(comp: CompressionStore, blocks: seq<CompressedBlock>)
    ensures WriteAll(comp, blocks).height == if |blocks| == 0 then comp.height else Some(blocks[|blocks| - 1].height)
    decreases |blocks|
  {
    if |blocks| == 0 {
    } else {
      WriteAllHeight(Written(comp, Apply(blocks[0])), blocks[1..]);
    }
  }

  ghost predicate AllBelow(blocks: seq<CompressedBlock>, top: u32) {
    forall i | 0 <= i < |blocks| :: blocks[i].height <= top
  }

  /** C ends at or below H exactly when every block the sync accepts is at or below H: the guard that is missing
      before the commit. */
  lemma SyncKeepsOrderExactlyWhen(comp: CompressionStore, items: seq<Option<CompressedBlock>>, top: u32)
    requires comp.height.Some? ==> comp.height.value <= top
    ensures var next := SyncItems(comp, items).0;
      (next.height.Some? ==> next.height.value <= top) <==> AllBelow(Accepted(comp.height, items), top)
  {
    SyncWritesAccepted(comp, items);
    var blocks := Accepted(comp.height, items);
    WriteAllHeight(comp, blocks);
    AcceptedAreLinked(comp.height, items);
  }

  /** A start-up whose compression sync is given only blocks of the chain, among those it accepts; vacuous if it
      never gets as far. */
  ghost predicate AcceptsOnlyBelow(s: Stores, ev: Event) {
    ev.StartUp? && s.chain.height.Some? && !ev.cutBlocks && SyncBlocks(s.chain, ev.blocks).1 ==>
      AllBelow(Accepted(s.comp.height, ev.items), Latest(SyncBlocks(s.chain, ev.blocks).0.height))
  }

  /** A start-up with any provider, height-faithful or not, keeps the stores in step exactly when it accepts only
      blocks at or below the chain's height. */
  lemma StartUpKeepsOrderExactlyWhen(sys: System, ev: Event)
    requires InStep(sys) && ev.StartUp?
    ensures InStep(AfterStartUp(sys.stores, ev)) <==> AcceptsOnlyBelow(sys.stores, ev)
  {
    var s := sys.stores;
    if s.chain.height.Some? {
      SyncBlocksClimbs(s.chain, ev.blocks);
      SyncKeepsOrderExactlyWhen(s.comp, ev.items, SyncBlocks(s.chain, ev.blocks).0.height.value);
    }
  }

  /** Any provider of compressed blocks: start-ups happen while the service is down, and the stream delivers the
      block whose turn it is. */
  ghost predicate AnyProvider(m: Machine, sys: System, evs: seq<Event>)
    decreases |evs|
  {
    |evs| > 0 ==>
      && (evs[0].StartUp? ==> sys.phase.Down?)
      && (evs[0].Deliver? ==> sys.phase.Streaming? && evs[0].block.height == sys.phase.next)
      && AnyProvider(m, Step(m, sys, evs[0]), evs[1..])
  }

  ghost predicate AlwaysInStep(m: Machine, sys: System, evs: seq<Event>)
    decreases |evs|
  {
    InStep(sys) && (|evs| > 0 ==> AlwaysInStep(m, Step(m, sys, evs[0]), evs[1..]))
  }

  ghost predicate AlwaysAcceptsOnlyBelow(m: Machine, sys: System, evs: seq<Event>)
    decreases |evs|
  {
    |evs| > 0 ==>
      AcceptsOnlyBelow(sys.stores, evs[0]) && AlwaysAcceptsOnlyBelow(m, Step(m, sys, evs[0]), evs[1..])
  }

  /** Over every run with any provider: the stores are in step at every moment if and only if no start-up accepts
      a compressed block above the chain. Imports, failures and stops never break the order. */
  lemma {:induction false} OrderKeptExactlyWhen(m: Machine, sys: System, evs: seq<Event>)
    requires InStep(sys) && AnyProvider(m, sys, evs)
    ensures AlwaysInStep(m, sys, evs) <==> AlwaysAcceptsOnlyBelow(m, sys, evs)
    decreases |evs|
  {
    if |evs| == 0 {
    } else {
      var next := Step(m, sys, evs[0]);
      match evs[0] {
        case StartUp(_, _, _, _) => StartUpKeepsOrderExactlyWhen(sys, evs[0]);
        case Deliver(block, fault) => DeliverCommits(m, sys, block, fault);
        case Stop =>
      }
      if InStep(next) { OrderKeptExactlyWhen(m, next, evs[1..]); }
    }
  }

  /** An input that breaks it: the first compression commit takes whatever height the provider returns, and then
      the hand-over refuses to stream. */
  lemma UnfaithfulProviderBreaksOrder(s: Stores, block: CompressedBlock)
    requires s.chain.height.Some? && s.comp == EmptyCompression()
    requires block.height > s.chain.height.value && block.height !in s.chain.blocks
    ensures var sys := AfterStartUp(s, StartUp([], false, [Some(block)], false));
      && sys.stores.comp.height == Some(block.height)
      && sys.stores.comp.height.value > sys.stores.chain.height.value
      && sys.phase.Down?
  {
    assert SyncItems(Written(s.comp, Apply(block)), []) == (Written(s.comp, Apply(block)), true);
    assert [Some(block)][1..] == [];
  }
}
