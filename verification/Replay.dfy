/** Crash and replay: interrupted runs end where an uninterrupted one does. */
module Replay {
  import opened Wrappers
  import opened Codec
  import opened Stores
  import opened BlockSyncer
  import opened SyncTask
  import opened SyncTaskProofs
  import CompressionSync

  // ---------------------------------------------------------------- DA imports only

  /** The compressed block DA holds for each height. */
  type Posted = b: u32 -> CompressedBlock | forall h: u32 :: b(h).height == h
    witness (h: u32) => CompressedBlock(h, map[], [])

  /** Import the block after the committed compression height, which is where a restart resumes. */
  function Attempt(m: Machine, posted: Posted, s: Stores, fault: Fault): Stores {
    if s.comp.height.None? || s.comp.height.value == U32_MAX then s
    else Import(m, s, posted(s.comp.height.value + 1), fault).0
  }

  /** k imports in a row, none of them cut short by the environment. */
  function Uninterrupted(m: Machine, posted: Posted, s: Stores, k: nat): Stores {
    if k == 0 then s else Attempt(m, posted, Uninterrupted(m, posted, s, k - 1), NoFault)
  }

  /** Any number of attempts, each cut short or not, with a restart after each that fails. */
  function Interrupted(m: Machine, posted: Posted, s: Stores, faults: seq<Fault>): Stores
    decreases |faults|
  {
    if |faults| == 0 then s
    else Attempt(m, posted, Interrupted(m, posted, s, faults[..|faults| - 1]), faults[|faults| - 1])
  }

  /** C is present and C <= H. */
  ghost predicate Level(s: Stores) {
    s.comp.height.Some? && s.chain.height.Some? && s.comp.height.value <= s.chain.height.value
  }

  /** `t` is `s`, except that the next block may already be on chain: the state between the two commits. */
  ghost predicate SameOrHalfway(m: Machine, posted: Posted, s: Stores, t: Stores) {
    && Level(s) && t.comp == s.comp
    && (t.chain == s.chain ||
        (s.comp.height.value < U32_MAX && s.comp.height == s.chain.height &&
         ImportOnChain(m, s, posted(s.comp.height.value + 1), NoFault).0 == Some(t.chain)))
  }

  /** One more attempt from the same or the halfway state: the compression store moves only if an uninterrupted
      import would move it, to the same place. */
  lemma AttemptReplays(m: Machine, posted: Posted, u: Stores, t: Stores, fault: Fault)
    requires SameOrHalfway(m, posted, u, t)
    ensures var next := Attempt(m, posted, u, NoFault); var v := Attempt(m, posted, t, fault);
      && (v.comp == u.comp ==> SameOrHalfway(m, posted, u, v))
      && (v.comp != u.comp ==> v == next && Level(next) && next.comp.height == Some(u.comp.height.value + 1))
  {
  }

  /** Crash-replay equivalence: however often a run of DA imports is cut short, before the first commit or
      between the two, and restarted from C + 1, the compression store it has reached, at height n, is the one
      the uninterrupted run has after n, and so is the chain, except that the one block after n may already be
      on it, as the uninterrupted run would put it there. After an attempt that moved the compression store, the
      stores are exactly those of the uninterrupted run. */
  lemma {:induction false} CrashReplay(m: Machine, posted: Posted, s: Stores, faults: seq<Fault>) returns (k: nat)
    requires Level(s)
    ensures k <= |faults|
    ensures Uninterrupted(m, posted, s, k).comp.height.Some?
    ensures Uninterrupted(m, posted, s, k).comp.height.value == s.comp.height.value + k
    ensures SameOrHalfway(m, posted, Uninterrupted(m, posted, s, k), Interrupted(m, posted, s, faults))
    ensures (|faults| > 0 &&
        Interrupted(m, posted, s, faults).comp != Interrupted(m, posted, s, faults[..|faults| - 1]).comp) ==>
      Interrupted(m, posted, s, faults) == Uninterrupted(m, posted, s, k)
    decreases |faults|
  {
    if |faults| == 0 {
      k := 0;
    } else {
      k := CrashReplay(m, posted, s, faults[..|faults| - 1]);
      k := ReplayStep(m, posted, s, k, Uninterrupted(m, posted, s, k),
                      Interrupted(m, posted, s, faults[..|faults| - 1]), faults[|faults| - 1]);
    }
  }

  lemma ReplayStep(m: Machine, posted: Posted, s: Stores, k: nat, u: Stores, t: Stores, fault: Fault)
      returns (k': nat)
    requires s.comp.height.Some? && u == Uninterrupted(m, posted, s, k)
    requires u.comp.height.Some? && u.comp.height.value == s.comp.height.value + k
    requires SameOrHalfway(m, posted, u, t)
    ensures k <= k' <= k + 1
    ensures Attempt(m, posted, t, fault).comp != t.comp ==>
      Attempt(m, posted, t, fault) == Uninterrupted(m, posted, s, k')
    ensures Uninterrupted(m, posted, s, k').comp.height.Some?
    ensures Uninterrupted(m, posted, s, k').comp.height.value == s.comp.height.value + k'
    ensures SameOrHalfway(m, posted, Uninterrupted(m, posted, s, k'), Attempt(m, posted, t, fault))
  {
    assert Uninterrupted(m, posted, s, k + 1) == Attempt(m, posted, u, NoFault);
    AttemptReplays(m, posted, u, t, fault);
    if Attempt(m, posted, t, fault).comp != u.comp {
      k' := k + 1;
    } else {
      k' := k;
    }
  }

  // ---------------------------------------------------------------- all phases, against the network

  /** What the Fuel network produced: an entity and a compressed block for every height. */
  datatype Network = Network(entity: u32 -> Entity, block: Posted)

  /** The registry after writing the registrations of the network's heights [a, b). */
  function NetFold(net: Network, a: nat, b: nat): Registry
    requires b <= U32_MAX + 1
    decreases b
  {
    if b <= a then map[] else NetFold(net, a, b - 1) + net.block(b - 1).registrations
  }

  function NetEntities(net: Network, base: u32, b: u32): map<u32, Entity>
    requires base <= b
  {
    map h: u32 | base <= h < b :: net.entity(h)
  }

  /** The compressor's round-trip law for heights above `after`: decompressing a network block against the
      registry of heights first.. and executing it on the network's chain gives the network's entity. */
  ghost predicate RoundTrips(m: Machine, net: Network, base: u32, first: u32, after: u32) {
    forall h: u32, s: Stores | h > after && h >= base && h >= first ::
      s.comp.registry == NetFold(net, first, h) && Entities(s.chain) == NetEntities(net, base, h) ==>
        Produce(m, s, net.block(h)).0 == Some(net.entity(h))
  }

  /** The chain holds the network's entities base..H. Seals are not compared. */
  ghost predicate ChainOnNetwork(net: Network, base: u32, chain: Chain) {
    && chain.height.Some? && base <= chain.height.value
    && (forall h: u32 :: h in chain.blocks <==> base <= h <= chain.height.value)
    && (forall h | h in chain.blocks :: chain.blocks[h].entity == net.entity(h))
  }

  /** The compression store holds the network's compressed blocks first..C and the registry of those. */
  ghost predicate CompressionOnNetwork(net: Network, first: u32, comp: CompressionStore) {
    && comp.height.Some? && first <= comp.height.value
    && (forall h: u32 :: h in comp.blocks <==> first <= h <= comp.height.value)
    && (forall h | h in comp.blocks :: comp.blocks[h] == net.block(h))
    && comp.registry == NetFold(net, first, comp.height.value + 1)
  }

  /** The stores hold what the network produced, and C <= H. */
  ghost predicate OnNetwork(net: Network, base: u32, first: u32, s: Stores) {
    && ChainOnNetwork(net, base, s.chain) && CompressionOnNetwork(net, first, s.comp)
    && s.comp.height.value <= s.chain.height.value
  }

  /** Where a store holds the network's blocks, its fold is the network's. */
  lemma {:induction false} NetFoldIsFold(net: Network, blocks: map<u32, CompressedBlock>, a: nat, b: nat)
    requires b <= U32_MAX + 1 && forall h: u32 | a <= h < b :: h in blocks && blocks[h] == net.block(h)
    ensures NetFold(net, a, b) == Fold(blocks, a, b)
    decreases b
  {
    if b <= a {
    } else {
      NetFoldIsFold(net, blocks, a, b - 1);
    }
  }

  /** Stores on the network are well formed. */
  lemma OnNetworkIsWellFormed(net: Network, base: u32, first: u32, s: Stores)
    requires OnNetwork(net, base, first, s) && NumberedEntities(net)
    ensures WellFormed(base, first, s)
  {
    NetFoldIsFold(net, s.comp.blocks, first, s.comp.height.value + 1);
  }

  ghost predicate BlocksFromNetwork(net: Network, blocks: seq<SealedBlock>) {
    forall i | 0 <= i < |blocks| :: blocks[i].entity == net.entity(blocks[i].entity.height)
  }

  ghost predicate ItemsFromNetwork(net: Network, items: seq<Option<CompressedBlock>>) {
    forall i | 0 <= i < |items| :: items[i].Some? ==> items[i].value == net.block(items[i].value.height)
  }

  /** Everything received comes from the network, in any phase. */
  ghost predicate FromNetwork(net: Network, ev: Event) {
    match ev
    case StartUp(blocks, _, items, _) =>
      BlocksFromNetwork(net, blocks) && ItemsFromNetwork(net, items)
    case Deliver(block, _) => block == net.block(block.height)
    case Stop => true
  }

  lemma {:induction false} SyncBlocksOnNetwork(net: Network, base: u32, first: u32, s: Stores, blocks: seq<SealedBlock>)
    requires OnNetwork(net, base, first, s)
    requires BlocksFromNetwork(net, blocks)
    ensures OnNetwork(net, base, first, s.(chain := SyncBlocks(s.chain, blocks).0))
    decreases |blocks|
  {
    if |blocks| == 0 {
    } else if CommitBlock(s.chain, blocks[0]).Some? {
      CommitOnNetwork(net, base, first, s, blocks[0]);
      SyncBlocksOnNetwork(net, base, first, s.(chain := CommitBlock(s.chain, blocks[0]).value), blocks[1..]);
    }
  }

  lemma WriteKeepsCompression(net: Network, first: u32, comp: CompressionStore, block: CompressedBlock)
    requires CompressionOnNetwork(net, first, comp) && block == net.block(block.height)
    requires block.height == comp.height.value + 1
    ensures CompressionOnNetwork(net, first, Written(comp, Apply(block)))
  {
    var next := Written(comp, Apply(block));
    assert next.registry == NetFold(net, first, block.height + 1) by {
      assert comp.registry == NetFold(net, first, block.height);
    }
    forall h: u32
      ensures h in next.blocks <==> first <= h <= block.height
      ensures h in next.blocks ==> next.blocks[h] == net.block(h)
    {
      assert h in next.blocks <==> h in comp.blocks || h == block.height;
    }
  }

  lemma WriteOnNetwork(net: Network, base: u32, first: u32, s: Stores, block: CompressedBlock)
    requires OnNetwork(net, base, first, s) && block == net.block(block.height)
    requires block.height == s.comp.height.value + 1 && block.height <= s.chain.height.value
    ensures OnNetwork(net, base, first, s.(comp := Written(s.comp, Apply(block))))
  {
    assert CompressionOnNetwork(net, first, Written(s.comp, Apply(block))) by {
      WriteKeepsCompression(net, first, s.comp, block);
    }
  }

  lemma {:induction false} SyncItemsOnNetwork(net: Network, base: u32, first: u32, s: Stores, start: nat,
                                              items: seq<Option<CompressedBlock>>)
    requires OnNetwork(net, base, first, s)
    requires CompressionSync.Faithful(start, items)
    requires |items| > 0 ==> start + |items| <= s.chain.height.value
    requires ItemsFromNetwork(net, items)
    ensures OnNetwork(net, base, first, s.(comp := SyncItems(s.comp, items).0))
    decreases |items|
  {
    if |items| == 0 {
    } else if items[0].Some? && CommitCompression(s.comp, Apply(items[0].value)).Some? {
      WriteOnNetwork(net, base, first, s, items[0].value);
      CompressionSync.FaithfulFrom(start, items, 1);
      SyncItemsOnNetwork(net, base, first, s.(comp := Written(s.comp, Apply(items[0].value))), start + 1, items[1..]);
    }
  }

  lemma EntitiesOnNetwork(net: Network, base: u32, first: u32, s: Stores)
    requires OnNetwork(net, base, first, s) && s.chain.height.value < U32_MAX
    ensures Entities(s.chain) == NetEntities(net, base, s.chain.height.value + 1)
  {
  }

  lemma CommitOnNetwork(net: Network, base: u32, first: u32, s: Stores, block: SealedBlock)
    requires OnNetwork(net, base, first, s)
    requires block.entity == net.entity(block.entity.height) && CommitBlock(s.chain, block).Some?
    ensures OnNetwork(net, base, first, s.(chain := CommitBlock(s.chain, block).value))
  {
  }

  lemma ProducesEntity(m: Machine, net: Network, base: u32, first: u32, after: u32, s: Stores)
    requires OnNetwork(net, base, first, s) && RoundTrips(m, net, base, first, after)
    requires after <= s.chain.height.value < U32_MAX && s.comp.height == s.chain.height
    ensures var h: u32 := s.chain.height.value + 1;
      Produce(m, s, net.block(h)).0 == Some(net.entity(h))
  {
    EntitiesOnNetwork(net, base, first, s);
  }

  lemma ImportedBlock(m: Machine, s: Stores, block: CompressedBlock, fault: Fault)
    ensures var chain := ImportOnChain(m, s, block, fault).0; var entity := Produce(m, s, block).0;
      chain.Some? ==> entity.Some? && chain == CommitBlock(s.chain, SealedBlock(entity.value, DefaultSeal))
  {
  }

  /** What an import of the next height puts on chain is the network's block. */
  lemma ImportsNetworkBlock(m: Machine, net: Network, base: u32, first: u32, after: u32, s: Stores, fault: Fault)
    requires OnNetwork(net, base, first, s) && RoundTrips(m, net, base, first, after)
    requires after <= s.chain.height.value < U32_MAX && s.comp.height == s.chain.height
    ensures var h: u32 := s.chain.height.value + 1; var chain := ImportOnChain(m, s, net.block(h), fault).0;
      chain.Some? ==> chain == CommitBlock(s.chain, SealedBlock(net.entity(h), DefaultSeal))
  {
    ProducesEntity(m, net, base, first, after, s);
    ImportedBlock(m, s, net.block(s.chain.height.value + 1), fault);
  }

  /** The five places an import of height C + 1 can end. */
  lemma ImportEnds(m: Machine, s: Stores, block: CompressedBlock, fault: Fault)
    requires Level(s) && block.height == s.comp.height.value + 1
    ensures var t := Import(m, s, block, fault).0;
      if block.height <= s.chain.height.value then
        t == s || t == s.(comp := Written(s.comp, Apply(block)))
      else
        ExtendsTo(s, t, ImportOnChain(m, s, block, fault).0, block)
  {
  }

  lemma CatchUpOnNetwork(m: Machine, net: Network, base: u32, first: u32, s: Stores, block: CompressedBlock,
                         fault: Fault)
    requires OnNetwork(net, base, first, s) && block == net.block(block.height)
    requires block.height == s.comp.height.value + 1 && block.height <= s.chain.height.value
    ensures OnNetwork(net, base, first, Import(m, s, block, fault).0)
  {
    ImportEnds(m, s, block, fault);
    WriteOnNetwork(net, base, first, s, block);
  }

  lemma BothCommitsOnNetwork(net: Network, base: u32, first: u32, s: Stores, sealed: SealedBlock,
                             block: CompressedBlock)
    requires OnNetwork(net, base, first, s) && s.comp.height == s.chain.height
    requires sealed.entity == net.entity(sealed.entity.height) && CommitBlock(s.chain, sealed).Some?
    requires block == net.block(block.height) && block.height == s.chain.height.value + 1
    ensures var u := s.(chain := CommitBlock(s.chain, sealed).value);
      OnNetwork(net, base, first, u) && OnNetwork(net, base, first, u.(comp := Written(u.comp, Apply(block))))
  {
    CommitOnNetwork(net, base, first, s, sealed);
    WriteOnNetwork(net, base, first, s.(chain := CommitBlock(s.chain, sealed).value), block);
  }

  /** Where an extending import can end: nowhere, after the chain commit, or after both. */
  ghost predicate ExtendsTo(s: Stores, t: Stores, chain: Option<Chain>, block: CompressedBlock) {
    t == s ||
    (chain.Some? && (t == s.(chain := chain.value) ||
                     t == s.(chain := chain.value, comp := Written(s.comp, Apply(block)))))
  }

  lemma ExtendEndsOnNetwork(net: Network, base: u32, first: u32, s: Stores, t: Stores, chain: Option<Chain>,
                            block: CompressedBlock)
    requires OnNetwork(net, base, first, s) && s.comp.height == s.chain.height
    requires block == net.block(block.height) && block.height == s.chain.height.value + 1
    requires chain.Some? ==> chain == CommitBlock(s.chain, SealedBlock(net.entity(block.height), DefaultSeal))
    requires ExtendsTo(s, t, chain, block)
    ensures OnNetwork(net, base, first, t)
  {
    if chain.Some? {
      BothCommitsOnNetwork(net, base, first, s, SealedBlock(net.entity(block.height), DefaultSeal), block);
    }
  }

  lemma ExtendOnNetwork(m: Machine, net: Network, base: u32, first: u32, after: u32, s: Stores,
                        block: CompressedBlock, fault: Fault)
    requires OnNetwork(net, base, first, s) && RoundTrips(m, net, base, first, after)
    requires after <= s.chain.height.value && s.comp.height == s.chain.height
    requires block == net.block(block.height) && block.height == s.chain.height.value + 1
    ensures OnNetwork(net, base, first, Import(m, s, block, fault).0)
  {
    var t, chain := Import(m, s, block, fault).0, ImportOnChain(m, s, block, fault).0;
    assert ExtendsTo(s, t, chain, block) by { ImportEnds(m, s, block, fault); }
    assert chain.Some? ==> chain == CommitBlock(s.chain, SealedBlock(net.entity(block.height), DefaultSeal)) by {
      ImportsNetworkBlock(m, net, base, first, after, s, fault);
    }
    ExtendEndsOnNetwork(net, base, first, s, t, chain, block);
  }

  lemma ImportOnNetwork(m: Machine, net: Network, base: u32, first: u32, after: u32, s: Stores,
                        block: CompressedBlock, fault: Fault)
    requires OnNetwork(net, base, first, s) && RoundTrips(m, net, base, first, after)
    requires after <= s.chain.height.value
    requires block == net.block(block.height) && block.height == s.comp.height.value + 1
    ensures OnNetwork(net, base, first, Import(m, s, block, fault).0)
  {
    if block.height <= s.chain.height.value {
      CatchUpOnNetwork(m, net, base, first, s, block, fault);
    } else {
      ExtendOnNetwork(m, net, base, first, after, s, block, fault);
    }
  }

  /** The network files each entity under its own height. */
  ghost predicate NumberedEntities(net: Network) {
    forall h: u32 :: net.entity(h).height == h
  }

  /** An import of the next network block that nothing cuts short succeeds. */
  lemma FaultFreeImportSucceeds(m: Machine, net: Network, base: u32, first: u32, after: u32, s: Stores,
                                block: CompressedBlock)
    requires OnNetwork(net, base, first, s) && RoundTrips(m, net, base, first, after) && NumberedEntities(net)
    requires after <= s.chain.height.value
    requires block == net.block(block.height) && block.height == s.comp.height.value + 1
    ensures Import(m, s, block, NoFault).1 == Imported(true)
  {
    if s.comp.height == s.chain.height {
      assert Produce(m, s, block).0 == Some(net.entity(block.height)) by {
        ProducesEntity(m, net, base, first, after, s);
      }
    }
    ImportSucceeds(m, s, block);
  }

  lemma ImportSucceeds(m: Machine, s: Stores, block: CompressedBlock)
    requires Level(s) && block.height == s.comp.height.value + 1
    requires s.comp.height == s.chain.height ==>
      Produce(m, s, block).0.Some? && Produce(m, s, block).0.value.height == block.height
    ensures Import(m, s, block, NoFault).1 == Imported(true)
  {
  }

  lemma StartUpOnNetwork(window: u32, net: Network, base: u32, first: u32, sys: System, ev: Event)
    requires OnNetwork(net, base, first, sys.stores) && ev.StartUp?
    requires Enabled(window, sys, ev) && FromNetwork(net, ev)
    ensures OnNetwork(net, base, first, AfterStartUp(sys.stores, ev).stores)
    ensures AfterStartUp(sys.stores, ev).stores.chain.height.value >= sys.stores.chain.height.value
  {
    var s := sys.stores;
    SyncBlocksOnNetwork(net, base, first, s, ev.blocks);
    SyncBlocksClimbs(s.chain, ev.blocks);
    var t := s.(chain := SyncBlocks(s.chain, ev.blocks).0);
    assert OnNetwork(net, base, first, t.(comp := SyncItems(t.comp, ev.items).0)) by {
      SyncItemsOnNetwork(net, base, first, t, StartHeight(t.chain.height.value, t.comp.height, window), ev.items);
    }
    assert AfterStartUp(s, ev).stores == t || AfterStartUp(s, ev).stores == t.(comp := SyncItems(t.comp, ev.items).0);
  }

  lemma StepOnNetwork(m: Machine, window: u32, net: Network, base: u32, first: u32, after: u32, sys: System, ev: Event)
    requires OnNetwork(net, base, first, sys.stores) && RoundTrips(m, net, base, first, after)
    requires after <= sys.stores.chain.height.value
    requires InStep(sys) && Enabled(window, sys, ev) && FromNetwork(net, ev)
    ensures OnNetwork(net, base, first, Step(m, sys, ev).stores)
    ensures after <= Step(m, sys, ev).stores.chain.height.value
  {
    match ev {
      case StartUp(_, _, _, _) => StartUpOnNetwork(window, net, base, first, sys, ev);
      case Deliver(block, fault) =>
        ImportOnNetwork(m, net, base, first, after, sys.stores, block, fault);
        DeliverCommits(m, sys, block, fault);
      case Stop =>
    }
  }

  /** Over every run that receives only what the network produced, whichever phase each block came through, the
      stores hold exactly what the network produced. */
  lemma {:induction false} RunsFollowTheNetwork(m: Machine, window: u32, net: Network, base: u32, first: u32,
                                                after: u32, sys: System, evs: seq<Event>)
    requires OnNetwork(net, base, first, sys.stores) && RoundTrips(m, net, base, first, after)
    requires after <= sys.stores.chain.height.value
    requires InStep(sys) && Schedule(m, window, sys, evs)
    requires forall i | 0 <= i < |evs| :: FromNetwork(net, evs[i])
    ensures OnNetwork(net, base, first, Run(m, sys, evs).stores) && after <= Run(m, sys, evs).stores.chain.height.value
    decreases |evs|
  {
    if |evs| == 0 {
    } else {
      StepOnNetwork(m, window, net, base, first, after, sys, evs[0]);
      StepKeepsInStep(m, window, sys, evs[0]);
      RunsFollowTheNetwork(m, window, net, base, first, after, Step(m, sys, evs[0]), evs[1..]);
    }
  }

  /** Crash-replay across all phases: two runs from the same stores, interrupted and restarted in any two ways,
      agree on every entity and every compressed block they both hold; and if they have reached the same
      heights they hold the same entities, compressed blocks and registry. */
  lemma RunsAgree(m: Machine, window: u32, net: Network, base: u32, first: u32, after: u32, sys: System,
                  evs1: seq<Event>, evs2: seq<Event>)
    requires OnNetwork(net, base, first, sys.stores) && RoundTrips(m, net, base, first, after)
    requires after <= sys.stores.chain.height.value && InStep(sys)
    requires Schedule(m, window, sys, evs1) && Schedule(m, window, sys, evs2)
    requires forall i | 0 <= i < |evs1| :: FromNetwork(net, evs1[i])
    requires forall i | 0 <= i < |evs2| :: FromNetwork(net, evs2[i])
    ensures var s1 := Run(m, sys, evs1).stores; var s2 := Run(m, sys, evs2).stores;
      && (forall h | h in s1.chain.blocks && h in s2.chain.blocks ::
            s1.chain.blocks[h].entity == s2.chain.blocks[h].entity)
      && (s1.comp.height == s2.comp.height ==> s1.comp == s2.comp)
      && (s1.chain.height == s2.chain.height ==> Entities(s1.chain) == Entities(s2.chain))
  {
    RunsFollowTheNetwork(m, window, net, base, first, after, sys, evs1);
    RunsFollowTheNetwork(m, window, net, base, first, after, sys, evs2);
    OnNetworkAgree(net, base, first, Run(m, sys, evs1).stores, Run(m, sys, evs2).stores);
  }

  lemma OnNetworkAgree(net: Network, base: u32, first: u32, s1: Stores, s2: Stores)
    requires OnNetwork(net, base, first, s1) && OnNetwork(net, base, first, s2)
    ensures forall h | h in s1.chain.blocks && h in s2.chain.blocks ::
      s1.chain.blocks[h].entity == s2.chain.blocks[h].entity
    ensures s1.comp.height == s2.comp.height ==> s1.comp == s2.comp
    ensures s1.chain.height == s2.chain.height ==> Entities(s1.chain) == Entities(s2.chain)
  {
    if s1.comp.height == s2.comp.height { SameCompression(net, base, first, s1, s2); }
    if s1.chain.height == s2.chain.height { SameEntities(net, base, first, s1, s2); }
  }

  lemma SameCompression(net: Network, base: u32, first: u32, s1: Stores, s2: Stores)
    requires OnNetwork(net, base, first, s1) && OnNetwork(net, base, first, s2)
    requires s1.comp.height == s2.comp.height
    ensures s1.comp == s2.comp
  {
    assert s1.comp.blocks == s2.comp.blocks;
  }

  lemma SameEntities(net: Network, base: u32, first: u32, s1: Stores, s2: Stores)
    requires OnNetwork(net, base, first, s1) && OnNetwork(net, base, first, s2)
    requires s1.chain.height == s2.chain.height
    ensures Entities(s1.chain) == Entities(s2.chain)
  {
    forall h: u32 ensures h in s1.chain.blocks <==> h in s2.chain.blocks {}
  }
}
