/** Why the compression sync may start at H - window: a registry folded only from there resolves every lookup a
later block makes as the full registry would, if every key a block uses was last written within the window (one
block per second, as the comment at crates/block-syncer/src/block_syncer.rs:202 assumes). */
module RegistryWindow {
  import opened Wrappers
  import opened Codec
  import opened Stores
  import opened BlockSyncer
  import opened Replay
  import opened SyncTask
  import opened SyncTaskProofs
  import CompressionSync

  /** The two registries answer a lookup of k alike, including when neither has it. */
  predicate SameLookup(a: Registry, b: Registry, k: nat) {
    (k in a <==> k in b) && (k in a ==> a[k] == b[k])
  }

  predicate AgreeOn(a: Registry, b: Registry, keys: set<nat>) {
    forall k | k in keys :: SameLookup(a, b, k)
  }

  ghost predicate Writes(net: Network, h: u32, k: nat) {
    k in net.block(h).registrations
  }

  /** The key was written at some height in [a, b). */
  ghost predicate WrittenIn(net: Network, a: nat, b: nat, k: nat) {
    exists h: u32 :: a <= h < b && Writes(net, h, k)
  }

  lemma WrittenInStep(net: Network, a: nat, last: u32, k: nat)
    requires a <= last
    ensures WrittenIn(net, a, last + 1, k) <==> WrittenIn(net, a, last, k) || Writes(net, last, k)
  {
    if WrittenIn(net, a, last, k) {
      var h: u32 :| a <= h < last && Writes(net, h, k);
      assert a <= h < last + 1;
    }
  }

  /** A key is in the fold exactly when some folded height wrote it. */
  lemma {:induction false} FoldHasWritten(net: Network, a: nat, b: nat, k: nat)
    requires b <= U32_MAX + 1
    ensures k in NetFold(net, a, b) <==> WrittenIn(net, a, b, k)
    decreases b
  {
    if b <= a {
    } else {
      var last: u32 := b - 1;
      FoldHasWritten(net, a, last, k);
      WrittenInStep(net, a, last, k);
    }
  }

  /** A lookup depends only on the last write: folding from `late` instead of `early` changes it exactly for the keys
      written since `early` and not since `late`. */
  lemma {:induction false} LateFoldAgrees(net: Network, early: nat, late: nat, b: nat, k: nat)
    requires early <= late <= b <= U32_MAX + 1
    ensures SameLookup(NetFold(net, early, b), NetFold(net, late, b), k)
      <==> (WrittenIn(net, early, b, k) ==> WrittenIn(net, late, b, k))
    decreases b
  {
    FoldHasWritten(net, early, b, k);
    FoldHasWritten(net, late, b, k);
    if b == late {
      assert !WrittenIn(net, late, b, k);
    } else {
      var last: u32 := b - 1;
      WrittenInStep(net, early, last, k);
      WrittenInStep(net, late, last, k);
      if !Writes(net, last, k) { LateFoldAgrees(net, early, late, last, k); }
    }
  }

  /** Every key block h uses, if written since `early` at all, was written within `window` blocks of h. */
  ghost predicate UsesAreRecent(net: Network, uses: CompressedBlock -> set<nat>, window: nat, early: nat, h: u32) {
    forall k | k in uses(net.block(h)) ::
      WrittenIn(net, early, h, k) ==> exists w: u32 :: early <= w < h && h <= w + window && Writes(net, w, k)
  }

  /** Decompression reads the registry only at the keys the block uses. */
  ghost predicate ReadsOnlyUses(m: Machine, uses: CompressedBlock -> set<nat>) {
    forall a: Registry, b: Registry, e: map<u32, Entity>, block: CompressedBlock | AgreeOn(a, b, uses(block)) ::
      m.decompress(a, e, block) == m.decompress(b, e, block)
  }

  /** The windowed registry agrees with the full one: for every block above `top`, a fold that starts at or
      below top + 1 - window resolves each key the block uses as the fold from `early` does. */
  lemma WindowResolvesUses(net: Network, uses: CompressedBlock -> set<nat>, window: nat, early: u32, late: u32,
                           top: u32, h: u32, k: nat)
    requires early <= late && late + window <= top + 1 && h > top
    requires UsesAreRecent(net, uses, window, early, h) && k in uses(net.block(h))
    ensures SameLookup(NetFold(net, early, h), NetFold(net, late, h), k)
  {
    if WrittenIn(net, early, h, k) {
      var w: u32 :| early <= w < h && h <= w + window && Writes(net, w, k);
      assert late <= w < h && Writes(net, w, k);
    }
    LateFoldAgrees(net, early, late, h, k);
  }

  lemma SameProduct(m: Machine, uses: CompressedBlock -> set<nat>, s: Stores, t: Stores, block: CompressedBlock)
    requires ReadsOnlyUses(m, uses) && s.chain == t.chain
    requires AgreeOn(s.comp.registry, t.comp.registry, uses(block))
    ensures Produce(m, s, block) == Produce(m, t, block)
  {
    assert m.decompress(s.comp.registry, Entities(s.chain), block)
        == m.decompress(t.comp.registry, Entities(s.chain), block);
  }

  /** So the compressor's round-trip law carries over from the full registry to the windowed one, for all blocks
      above `top`: what the syncer needs to import them from DA. */
  lemma WindowedRoundTrip(m: Machine, net: Network, uses: CompressedBlock -> set<nat>, window: nat, base: u32,
                          early: u32, late: u32, top: u32)
    requires ReadsOnlyUses(m, uses)
    requires early <= late && late + window <= top + 1
    requires forall h: u32 | h > top :: UsesAreRecent(net, uses, window, early, h)
    requires RoundTrips(m, net, base, early, top)
    ensures RoundTrips(m, net, base, late, top)
  {
    forall h: u32, s: Stores | h > top && h >= base && h >= late
        && s.comp.registry == NetFold(net, late, h) && Entities(s.chain) == NetEntities(net, base, h)
      ensures Produce(m, s, net.block(h)).0 == Some(net.entity(h))
    {
      WindowedProduct(m, net, uses, window, base, early, late, top, h, s);
    }
  }

  lemma WindowedProduct(m: Machine, net: Network, uses: CompressedBlock -> set<nat>, window: nat, base: u32,
                        early: u32, late: u32, top: u32, h: u32, s: Stores)
    requires ReadsOnlyUses(m, uses)
    requires early <= late && late + window <= top + 1 && h > top && h >= base && h >= late
    requires UsesAreRecent(net, uses, window, early, h)
    requires RoundTrips(m, net, base, early, top)
    requires s.comp.registry == NetFold(net, late, h) && Entities(s.chain) == NetEntities(net, base, h)
    ensures Produce(m, s, net.block(h)).0 == Some(net.entity(h))
  {
    var full := s.(comp := s.comp.(registry := NetFold(net, early, h)));
    forall k | k in uses(net.block(h)) ensures SameLookup(full.comp.registry, s.comp.registry, k) {
      WindowResolvesUses(net, uses, window, early, late, top, h, k);
    }
    SameProduct(m, uses, full, s, net.block(h));
    assert Produce(m, full, net.block(h)).0 == Some(net.entity(h));
  }

  // ---------------------------------------------------------------- a cold start

  lemma {:induction false} SyncBlocksOnChain(net: Network, base: u32, chain: Chain, blocks: seq<SealedBlock>)
    requires ChainOnNetwork(net, base, chain)
    requires BlocksFromNetwork(net, blocks)
    ensures ChainOnNetwork(net, base, SyncBlocks(chain, blocks).0)
    decreases |blocks|
  {
    if |blocks| == 0 {
    } else if CommitBlock(chain, blocks[0]).Some? {
      SyncBlocksOnChain(net, base, CommitBlock(chain, blocks[0]).value, blocks[1..]);
    }
  }

  lemma FirstCommitOnNetwork(net: Network, base: u32, chain: Chain, block: CompressedBlock)
    requires ChainOnNetwork(net, base, chain)
    requires block == net.block(block.height) && block.height <= chain.height.value
    ensures OnNetwork(net, base, block.height, Stores(chain, Written(EmptyCompression(), Apply(block))))
  {
    assert NetFold(net, block.height, block.height) == map[];
    assert NetFold(net, block.height, block.height + 1) == map[] + block.registrations;
  }

  lemma PresentSyncOnNetwork(net: Network, base: u32, chain: Chain, start: nat, items: seq<Option<CompressedBlock>>)
      returns (comp: CompressionStore)
    requires ChainOnNetwork(net, base, chain)
    requires CompressionSync.Faithful(start, items) && start + |items| <= chain.height.value
    requires ItemsFromNetwork(net, items)
    requires |items| > 0 && items[0].Some?
    ensures comp == SyncItems(EmptyCompression(), items).0 && OnNetwork(net, base, start, Stores(chain, comp))
  {
    var block, rest := items[0].value, items[1..];
    var s := Stores(chain, Written(EmptyCompression(), Apply(block)));
    assert OnNetwork(net, base, start, s) by { FirstCommitOnNetwork(net, base, chain, block); }
    CompressionSync.FaithfulFrom(start, items, 1);
    comp := SyncItems(s.comp, rest).0;
    assert OnNetwork(net, base, start, s.(comp := comp)) by {
      SyncItemsOnNetwork(net, base, start, s, start + 1, rest);
    }
  }

  /** The first compression sync, if it finds anything, leaves the network's blocks from the first present
      height on. */
  lemma {:induction false} FirstSyncOnNetwork(net: Network, base: u32, chain: Chain, start: nat,
                                              items: seq<Option<CompressedBlock>>)
      returns (comp: CompressionStore)
    requires ChainOnNetwork(net, base, chain)
    requires CompressionSync.Faithful(start, items) && start + |items| <= chain.height.value
    requires ItemsFromNetwork(net, items)
    requires CompressionSync.Leading(items) < |items|
    ensures comp == SyncItems(EmptyCompression(), items).0
    ensures OnNetwork(net, base, start + CompressionSync.Leading(items), Stores(chain, comp))
    decreases |items|
  {
    if items[0].Some? {
      comp := PresentSyncOnNetwork(net, base, chain, start, items);
    } else {
      comp := FirstSyncOnNetwork(net, base, chain, start + 1, items[1..]);
    }
  }

  /** A start-up from a chain of the network and no compression data that completes the blocks sync, and whose
      compression sync finds its first block at height `first`. */
  ghost predicate FindsFirstBlock(net: Network, window: u32, base: u32, first: nat, chain: Chain, ev: Event) {
    && ChainOnNetwork(net, base, chain)
    && ev.StartUp? && !ev.cutBlocks && SyncBlocks(chain, ev.blocks).1 && FromNetwork(net, ev)
    && ItemsInRange(window, SyncBlocks(chain, ev.blocks).0, EmptyCompression(), ev.items)
    && CompressionSync.Leading(ev.items) < |ev.items|
    && first == StartHeight(Latest(SyncBlocks(chain, ev.blocks).0.height), None, window)
                  + CompressionSync.Leading(ev.items)
  }

  /** When the first block of a cold start is in the window: the start height is the least one in the window, so at most
      one height without compressed block may come before it, and none if the window reaches back to the start of the
      chain exactly; if it reaches further back, the bound cannot be met. */
  lemma FirstBlockInWindowExactlyWhen(net: Network, window: u32, base: u32, first: nat, chain: Chain, ev: Event)
    requires FindsFirstBlock(net, window, base, first, chain, ev)
    ensures var top := SyncBlocks(chain, ev.blocks).0.height; var lead := CompressionSync.Leading(ev.items);
      && top.Some?
      && (first + window <= top.value + 1 <==>
            if window < top.value then lead <= 1 else window == top.value && lead == 0)
  {
    SyncBlocksOnChain(net, base, chain, ev.blocks);
    var top := SyncBlocks(chain, ev.blocks).0.height.value;
    CompressionSync.StartHeightIsLeast(top, None, window);
    var s: u32 := if window < top then top - window else 1;
    assert CompressionSync.IsStart(top, None, window, s) by {
      assert CompressionSync.MayStart(top, None, window, s);
    }
  }

  /** What a cold start needs: a first block in the window (or at the first height that has compression data at all),
      and the compressor's laws for the blocks above. */
  ghost predicate ColdStart(m: Machine, net: Network, uses: CompressedBlock -> set<nat>, window: u32,
                            base: u32, early: u32, first: nat, chain: Chain, ev: Event) {
    && FindsFirstBlock(net, window, base, first, chain, ev)
    && var top := Latest(SyncBlocks(chain, ev.blocks).0.height);
    && early <= first && (first + window <= top + 1 || first == early)
    && ReadsOnlyUses(m, uses)
    && (forall h: u32 | h > top :: UsesAreRecent(net, uses, window, early, h))
    && RoundTrips(m, net, base, early, top)
  }

  lemma AfterColdStart(net: Network, window: u32, base: u32, first: nat, chain: Chain, ev: Event)
      returns (next: System)
    requires FindsFirstBlock(net, window, base, first, chain, ev)
    ensures next == AfterStartUp(Stores(chain, EmptyCompression()), ev)
    ensures first <= U32_MAX && OnNetwork(net, base, first, next.stores)
    ensures next.stores.chain == SyncBlocks(chain, ev.blocks).0
  {
    var grown := SyncBlocks(chain, ev.blocks).0;
    next := AfterStartUp(Stores(chain, EmptyCompression()), ev);
    assert ChainOnNetwork(net, base, grown) by { SyncBlocksOnChain(net, base, chain, ev.blocks); }
    var comp := FirstSyncOnNetwork(net, base, grown, StartHeight(grown.height.value, None, window), ev.items);
    assert next.stores == Stores(grown, comp);
  }

  /** A cold start that finds a block and is not cut off streams, if the chain goes back as far as that block. */
  lemma ColdStartStreams(net: Network, window: u32, base: u32, first: nat, chain: Chain, ev: Event) returns (up: System)
    requires FindsFirstBlock(net, window, base, first, chain, ev) && base <= first
    ensures up == AfterStartUp(Stores(chain, EmptyCompression()), ev)
    ensures up.phase.Streaming? <==> !ev.cutItems
    ensures up.phase.Streaming? ==> up.phase.daStart == net.entity(up.stores.comp.height.value).daHeight
  {
    var top := SyncBlocks(chain, ev.blocks).0.height;
    up := AfterColdStart(net, window, base, first, chain, ev);
    StreamsExactlyWhen(Stores(chain, EmptyCompression()), ev);
    FirstSyncSucceeds(StartHeight(Latest(top), None, window), ev.items);
    SyncItemsStayBelow(EmptyCompression(), ev.items, StartHeight(Latest(top), None, window), Latest(top) - 1);
  }

  /** A cold start and everything after it: through any imports, failures, stops and restarts, the stores hold
      exactly what the network produced, from the first compressed block found on. */
  lemma ColdStartFollowsTheNetwork(m: Machine, net: Network, uses: CompressedBlock -> set<nat>, window: u32,
                                   base: u32, early: u32, first: u32, chain: Chain, ev: Event, evs: seq<Event>)
    requires ColdStart(m, net, uses, window, base, early, first, chain, ev)
    requires var next := AfterStartUp(Stores(chain, EmptyCompression()), ev);
      Schedule(m, window, next, evs)
    requires forall i | 0 <= i < |evs| :: FromNetwork(net, evs[i])
    ensures var next := AfterStartUp(Stores(chain, EmptyCompression()), ev);
      OnNetwork(net, base, first, Run(m, next, evs).stores)
  {
    var sys := System(Stores(chain, EmptyCompression()), Down);
    var top := Latest(SyncBlocks(chain, ev.blocks).0.height);
    var next := AfterColdStart(net, window, base, first, chain, ev);
    assert RoundTrips(m, net, base, first, top) by {
      if first != early { WindowedRoundTrip(m, net, uses, window, base, early, first, top); }
    }
    assert InStep(next) by { StepKeepsInStep(m, window, sys, ev); }
    RunsFollowTheNetwork(m, window, net, base, first, top, next, evs);
  }
}
