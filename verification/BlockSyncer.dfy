/** The two-store sync state machine of crates/block-syncer/src/block_syncer.rs.

Each operation is a function of the stores and its input, and a method of the class that updates the two stores
in place. Errors of the environment, and crashes, are a parameter: `Fault` says where an import is cut short. */
module BlockSyncer {
  import opened Wrappers
  import opened Codec
  import opened Stores
  import opened CompressionTransaction

  datatype Fault = NoFault | AtApply | AtChainCommit | AtCompressionCommit

  datatype Reason =
    | NoGenesisBlock
    | ApplyFailed
    | DecompressionFailed
    | NoMintTransaction
    | ExecutionFailed
    | ChainCommitFailed
    | ImporterRejected
    | CompressionCommitFailed
    | HeightsNotLinked

  /** `Imported(true)` is an import that ended with a compression commit. */
  datatype Outcome = Skipped | Imported(committed: bool) | Failed(reason: Reason)

  function Latest(height: Option<u32>): u32 {
    match height
    case Some(h) => h
    case None => 0
  }

  // ---------------------------------------------------------------- import from DA

  /** Decompress against the committed registry, split off the mint transaction, execute. */
  function Produce(m: Machine, s: Stores, block: CompressedBlock): (Option<Entity>, Reason) {
    match m.decompress(s.comp.registry, Entities(s.chain), block)
    case None => (None, DecompressionFailed)
    case Some(partial) =>
      var n := |partial.transactions|;
      if n == 0 || !partial.transactions[n - 1].Mint? then
        (None, NoMintTransaction)
      else
        var mint := partial.transactions[n - 1];
        var components :=
          Components(partial.header, partial.transactions[..n - 1], mint.coinbaseRecipient, mint.gasPrice);
        (m.execute(Entities(s.chain), components), ExecutionFailed)
  }

  function ImportOnChain(m: Machine, s: Stores, block: CompressedBlock, fault: Fault): (Option<Chain>, Reason) {
    var (entity, reason) := Produce(m, s, block);
    if entity.None? then (None, reason)
    else if fault == AtChainCommit then (None, ChainCommitFailed)
    else (CommitBlock(s.chain, SealedBlock(entity.value, DefaultSeal)), ImporterRejected)
  }

  /** The last step of an import, with the on-chain part behind it. */
  function FinishImport(s: Stores, block: CompressedBlock, changes: Changes, fault: Fault): (Stores, Outcome) {
    if block.height <= Latest(s.comp.height) then (s, Imported(false))
    else if fault == AtCompressionCommit then (s, Failed(CompressionCommitFailed))
    else match CommitCompression(s.comp, changes)
      case None => (s, Failed(HeightsNotLinked))
      case Some(comp) => (s.(comp := comp), Imported(true))
  }

  function Import(m: Machine, s: Stores, block: CompressedBlock, fault: Fault): (Stores, Outcome) {
    match s.chain.height
    case None => (s, Failed(NoGenesisBlock))
    case Some(top) =>
      if block.height <= top && s.comp.height.Some? && block.height <= s.comp.height.value then (s, Skipped)
      else if fault == AtApply then (s, Failed(ApplyFailed))
      else
        var changes := Apply(block);
        if block.height <= top then
          FinishImport(s, block, changes, fault)
        else
          var (chain, reason) := ImportOnChain(m, s, block, fault);
          match chain
          case None => (s, Failed(reason))
          case Some(c) => FinishImport(s.(chain := c), block, changes, fault)
  }

  // ---------------------------------------------------------------- the two GraphQL syncs

  /** Commit the received blocks until the importer rejects one. */
  function SyncBlocks(chain: Chain, blocks: seq<SealedBlock>): (Chain, bool)
    decreases |blocks|
  {
    if |blocks| == 0 then (chain, true)
    else match CommitBlock(chain, blocks[0])
      case None => (chain, false)
      case Some(next) => SyncBlocks(next, blocks[1..])
  }

  /** The first height whose compressed block is asked for. */
  function StartHeight(target: u32, latest: Option<u32>, window: u32): u32 {
    var byWindow := SaturatingSub(target, window);
    var byStore := SaturatingAdd(Latest(latest), 1);
    if byWindow >= byStore then byWindow else byStore
  }

  /** Commit the received compressed blocks. A missing one ends the sync if the store has compression data,
      and is skipped if it has none yet. */
  function SyncItems(comp: CompressionStore, items: seq<Option<CompressedBlock>>): (CompressionStore, bool)
    decreases |items|
  {
    if |items| == 0 then (comp, true)
    else match items[0]
      case None => if comp.height.Some? then (comp, true) else SyncItems(comp, items[1..])
      case Some(block) =>
        match CommitCompression(comp, Apply(block))
        case None => (comp, false)
        case Some(next) => SyncItems(next, items[1..])
  }

  // ---------------------------------------------------------------- the imperative form

  class BlockSyncer {
    const machine: Machine
    var chain: Chain
    var comp: CompressionStore

    function Abs(): Stores
      reads this
    {
      Stores(chain, comp)
    }

    constructor (machine: Machine, chain: Chain, comp: CompressionStore)
      ensures this.machine == machine && Abs() == Stores(chain, comp)
    {
      this.machine, this.chain, this.comp := machine, chain, comp;
    }

    method CommitChanges(changes: Changes) returns (ok: bool)
      modifies this
      ensures chain == old(chain)
      ensures ok == CommitCompression(old(comp), changes).Some?
      ensures comp == if ok then CommitCompression(old(comp), changes).value else old(comp)
    {
      if comp.height.Some? && changes.block.height != comp.height.value + 1 {
        return false;
      }
      comp := CompressionStore(
        Some(changes.block.height),
        comp.blocks[changes.block.height := changes.block],
        comp.registry + changes.registrations);
      ok := true;
    }

    method ExecuteAndCommit(block: SealedBlock) returns (ok: bool)
      modifies this
      ensures comp == old(comp)
      ensures ok == CommitBlock(old(chain), block).Some?
      ensures chain == if ok then CommitBlock(old(chain), block).value else old(chain)
    {
      if chain.height.None? || block.entity.height != chain.height.value + 1 {
        return false;
      }
      chain := Chain(Some(block.entity.height), chain.blocks[block.entity.height := block]);
      ok := true;
    }

    /** Collect what applying the block would write. A failure on the way leaves transactions behind that nobody
        commits: neither store changes. */
    method ApplyCompression(block: CompressedBlock, fails: bool) returns (changes: Option<Changes>)
      ensures changes == if fails then None else Some(Apply(block))
    {
      var tx := new Transaction(comp.registry);
      var nested := new Transaction(tx.View());
      nested.Insert(block);
      if fails { return None; }
      nested.WriteToRegistry(block.registrations);
      nested.CommitInto(tx);
      assert tx.written == block.registrations;
      changes := Some(tx.IntoChanges());
    }

    /** Decompress through transactions of its own: what it reads is the committed registry, whatever has been applied
        and not committed. */
    method DecompressBlock(block: CompressedBlock) returns (partial: Option<PartialBlock>)
      ensures partial == machine.decompress(comp.registry, Entities(chain), block)
    {
      var tx := new Transaction(comp.registry);
      var nested := new Transaction(tx.View());
      partial := machine.decompress(nested.View(), Entities(chain), block);
    }

    method ProduceBlock(block: CompressedBlock) returns (entity: Option<Entity>, reason: Reason)
      ensures (entity, reason) == Produce(machine, Abs(), block)
    {
      var decompressed := DecompressBlock(block);
      if decompressed.None? { return None, DecompressionFailed; }
      var header, transactions := decompressed.value.header, decompressed.value.transactions;
      if |transactions| == 0 { return None, NoMintTransaction; }
      var mint := transactions[|transactions| - 1];
      if !mint.Mint? { return None, NoMintTransaction; }
      transactions := transactions[..|transactions| - 1];
      entity := machine.execute(
        Entities(chain), Components(header, transactions, mint.coinbaseRecipient, mint.gasPrice));
      reason := ExecutionFailed;
    }

    method ImportBlockFromDa(block: CompressedBlock, fault: Fault) returns (o: Outcome)
      modifies this
      ensures (Abs(), o) == Import(machine, old(Abs()), block, fault)
    {
      if chain.height.None? { return Failed(NoGenesisBlock); }
      var lessThanOnChain := block.height <= chain.height.value;
      var compressionHeight := comp.height;
      if lessThanOnChain && compressionHeight.Some? && block.height <= compressionHeight.value {
        return Skipped;
      }
      var changes := ApplyCompression(block, fault == AtApply);
      if changes.None? { return Failed(ApplyFailed); }
      if !lessThanOnChain {
        var entity, reason := ProduceBlock(block);
        if entity.None? { return Failed(reason); }
        if fault == AtChainCommit { return Failed(ChainCommitFailed); }
        var committed := ExecuteAndCommit(SealedBlock(entity.value, DefaultSeal));
        if !committed { return Failed(ImporterRejected); }
      }
      if block.height > Latest(compressionHeight) {
        if fault == AtCompressionCommit { return Failed(CompressionCommitFailed); }
        var linked := CommitChanges(changes.value);
        return if linked then Imported(true) else Failed(HeightsNotLinked);
      }
      o := Imported(false);
    }

    method SyncBlocksFromGraphql(blocks: seq<SealedBlock>) returns (ok: bool)
      modifies this
      ensures comp == old(comp)
      ensures (chain, ok) == SyncBlocks(old(chain), blocks)
    {
      var i := 0;
      while i < |blocks|
        invariant 0 <= i <= |blocks|
        invariant comp == old(comp)
        invariant SyncBlocks(chain, blocks[i..]) == SyncBlocks(old(chain), blocks)
      {
        assert blocks[i..][1..] == blocks[i + 1..];
        var committed := ExecuteAndCommit(blocks[i]);
        if !committed { return false; }
        i := i + 1;
      }
      ok := true;
    }

    method SyncCompressionFromGraphql(items: seq<Option<CompressedBlock>>) returns (ok: bool)
      modifies this
      ensures chain == old(chain)
      ensures (comp, ok) == SyncItems(old(comp), items)
    {
      var latestHeight := comp.height;
      var i := 0;
      while i < |items|
        invariant 0 <= i <= |items|
        invariant chain == old(chain)
        invariant latestHeight.Some? == comp.height.Some?
        invariant SyncItems(comp, items[i..]) == SyncItems(old(comp), items)
      {
        assert items[i..][1..] == items[i + 1..];
        match items[i] {
          case None =>
            if latestHeight.Some? { return true; }
          case Some(block) =>
            var changes := ApplyCompression(block, false);
            var linked := CommitChanges(changes.value);
            if !linked { return false; }
            latestHeight := Some(block.height);
        }
        i := i + 1;
      }
      ok := true;
    }
  }
}
