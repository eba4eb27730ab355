/** A concrete network and machine that satisfy the laws the replay and registry theorems take as hypotheses, so that
those theorems speak of something. */
module CountingModel {
  import opened Wrappers
  import opened Codec
  import opened Stores
  import opened BlockSyncer
  import opened SyncTask
  import opened SyncTaskProofs
  import opened Replay
  import opened RegistryWindow
  import opened Service

  /** A network whose block h registers key 0 := h and is decompressed by looking key 0 up: the height is one more
      than the last registration. */
  function CountingNetwork(): Network {
    Network((h: u32) => Entity(h, 0, []), (h: u32) => CompressedBlock(h, map[0 := h], []))
  }

  function CountingMachine(): Machine {
    Machine(
      (r: Registry, e: map<u32, Entity>, b: CompressedBlock) =>
        Some(PartialBlock(b.payload, [Mint(if 0 in r then r[0] + 1 else b.height, [])])),
      (e: map<u32, Entity>, c: Components) =>
        if c.gasPrice <= U32_MAX then Some(Entity(c.gasPrice, 0, c.header)) else None)
  }

  lemma {:induction false} CountingFold(a: nat, b: nat)
    requires a <= b <= U32_MAX + 1
    ensures NetFold(CountingNetwork(), a, b) == if a == b then map[] else map[0 := b - 1]
    decreases b
  {
    if b <= a {
    } else {
      CountingFold(a, b - 1);
    }
  }

  function CountingUses(b: CompressedBlock): set<nat> { {0} }

  lemma CountingRoundTrips(base: u32, first: u32, after: u32)
    ensures RoundTrips(CountingMachine(), CountingNetwork(), base, first, after)
  {
    var m, net := CountingMachine(), CountingNetwork();
    forall h: u32, s: Stores | h > after && h >= base && h >= first
        && s.comp.registry == NetFold(net, first, h) && Entities(s.chain) == NetEntities(net, base, h)
      ensures Produce(m, s, net.block(h)).0 == Some(net.entity(h))
    {
      CountingProduces(first, h, s);
    }
  }

  lemma CountingProduces(first: u32, h: u32, s: Stores)
    requires first <= h && s.comp.registry == NetFold(CountingNetwork(), first, h)
    ensures Produce(CountingMachine(), s, CountingNetwork().block(h)).0 == Some(CountingNetwork().entity(h))
  {
    CountingFold(first, h);
  }

  lemma CountingUsesAreRecent(window: nat, early: nat, h: u32)
    requires window > 0
    ensures UsesAreRecent(CountingNetwork(), CountingUses, window, early, h)
  {
    var net := CountingNetwork();
    forall k | k in CountingUses(net.block(h)) && WrittenIn(net, early, h, k)
      ensures exists w: u32 :: early <= w < h && h <= w + window && Writes(net, w, k)
    {
      var w: u32 := h - 1;
      assert Writes(net, w, k);
    }
  }

  /** The round-trip, locality and recency laws hold together, for any window, for a machine that does need the
      registry to hold exactly the registrations before the block. */
  lemma LawsHaveAModel(base: u32, early: u32, first: u32, after: u32, window: nat)
    requires window > 0
    ensures var m, net := CountingMachine(), CountingNetwork();
      && RoundTrips(m, net, base, first, after)
      && ReadsOnlyUses(m, CountingUses)
      && (forall h: u32 :: UsesAreRecent(net, CountingUses, window, early, h))
  {
    CountingRoundTrips(base, first, after);
    forall h: u32 ensures UsesAreRecent(CountingNetwork(), CountingUses, window, early, h) {
      CountingUsesAreRecent(window, early, h);
    }
  }

  /** Level stores after block 0. */
  function CountingStores(): Stores {
    Stores(Chain(Some(0), map[0 := SealedBlock(Entity(0, 0, []), DefaultSeal)]),
           CompressionStore(Some(0), map[0 := CompressedBlock(0, map[0 := 0], [])], map[0 := 0]))
  }

  /** The lag can grow: block 1 is put on chain, and the compression commit fails. */
  lemma LagCanGrow()
    ensures var s := CountingStores();
      var t := Import(CountingMachine(), s, CountingNetwork().block(1), AtCompressionCommit).0;
      && InStep(System(s, Streaming(1, 0))) && Lag(s) == 0
      && t.chain.height == Some(1) && t.comp == s.comp && Lag(t) == 1
  {
  }

  /** And the service theorems start somewhere: these stores are in step and on the network, with all the laws. */
  lemma CountingStoresFollow()
    ensures Following(CountingMachine(), CountingNetwork(), 0, 0, 0, System(CountingStores(), Down))
  {
    CountingRoundTrips(0, 0, 0);
    CountingStoresOnNetwork();
  }

  lemma CountingStoresOnNetwork()
    ensures OnNetwork(CountingNetwork(), 0, 0, CountingStores())
  {
    var net, s := CountingNetwork(), CountingStores();
    assert ChainOnNetwork(net, 0, s.chain);
    assert s.comp.registry == NetFold(net, 0, 1) by { CountingFold(0, 1); }
  }
}
