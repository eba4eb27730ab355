/** The two stores the syncer keeps in step, and the only ways they change.

A compression commit carries one height, which is either the first ever or the successor of the current one
(the linked commit called at crates/block-syncer/src/compression_database.rs:67-75). The block importer accepts
only the successor of the chain's latest height. Decompression and execution are deterministic functions of what
is committed and of their input; they are parameters of the model. */
module Stores {
  import opened Wrappers
  import opened Codec

  /** A Fuel block without its seal. Its header records the L1 height it was produced at. */
  datatype Entity = Entity(height: u32, daHeight: nat, body: Bytes)

  /** Blocks imported from DA carry a default signature. */
  datatype Seal = Signed(signature: Bytes) | DefaultSeal

  datatype SealedBlock = SealedBlock(entity: Entity, seal: Seal)

  datatype Chain = Chain(height: Option<u32>, blocks: map<u32, SealedBlock>)

  type Registry = map<nat, nat>

  datatype CompressionStore = CompressionStore(
    height: Option<u32>,
    blocks: map<u32, CompressedBlock>,
    registry: Registry)

  datatype Stores = Stores(chain: Chain, comp: CompressionStore)

  function EmptyCompression(): CompressionStore {
    CompressionStore(None, map[], map[])
  }

  function Entities(chain: Chain): map<u32, Entity> {
    map h | h in chain.blocks :: chain.blocks[h].entity
  }

  /** What applying a compressed block wants to write: itself, and its registrations. */
  datatype Changes = Changes(block: CompressedBlock, registrations: Registry)

  function Apply(block: CompressedBlock): Changes {
    Changes(block, block.registrations)
  }

  function Written(comp: CompressionStore, changes: Changes): CompressionStore {
    CompressionStore(
      Some(changes.block.height),
      comp.blocks[changes.block.height := changes.block],
      comp.registry + changes.registrations)
  }

  /** The height-linked, atomic commit. */
  function CommitCompression(comp: CompressionStore, changes: Changes): Option<CompressionStore> {
    if comp.height.None? || changes.block.height as int == comp.height.value + 1 then Some(Written(comp, changes))
    else None
  }

  /** The block importer. */
  function CommitBlock(chain: Chain, block: SealedBlock): Option<Chain> {
    if chain.height.Some? && block.entity.height as int == chain.height.value + 1 then
      Some(Chain(Some(block.entity.height), chain.blocks[block.entity.height := block]))
    else
      None
  }

  datatype Tx = Mint(gasPrice: nat, coinbaseRecipient: Bytes) | OtherTx(payload: Bytes)

  /** A decompressed block, before execution. */
  datatype PartialBlock = PartialBlock(header: Bytes, transactions: seq<Tx>)

  datatype Components = Components(header: Bytes, transactions: seq<Tx>, coinbaseRecipient: Bytes, gasPrice: nat)

  /** Decompression reads the committed registry and the chain; execution reads the chain. */
  datatype Machine = Machine(
    decompress: (Registry, map<u32, Entity>, CompressedBlock) -> Option<PartialBlock>,
    execute: (map<u32, Entity>, Components) -> Option<Entity>)

  // ---------------------------------------------------------------- well-formed stores

  /** The registry obtained by writing the registrations of heights [a, b) in order. */
  function Fold(blocks: map<u32, CompressedBlock>, a: nat, b: nat): Registry
    requires forall h: u32 | a <= h < b :: h in blocks
    requires b <= U32_MAX + 1
    decreases b
  {
    if b <= a then map[] else Fold(blocks, a, b - 1) + blocks[b - 1].registrations
  }

  /** The chain holds exactly the heights from `base` to its latest, each under its own height. */
  ghost predicate ChainOk(base: u32, chain: Chain) {
    match chain.height
    case None => chain.blocks == map[]
    case Some(top) =>
      && base <= top
      && (forall h: u32 :: h in chain.blocks <==> base <= h <= top)
      && (forall h | h in chain.blocks :: chain.blocks[h].entity.height == h)
  }

  /** The compression store holds exactly the heights from `first` to its latest, and its registry is the fold
      of their registrations. */
  ghost predicate CompressionOk(first: u32, comp: CompressionStore) {
    match comp.height
    case None => comp == EmptyCompression()
    case Some(top) =>
      && first <= top
      && (forall h: u32 :: h in comp.blocks <==> first <= h <= top)
      && (forall h | h in comp.blocks :: comp.blocks[h].height == h)
      && comp.registry == Fold(comp.blocks, first, top + 1)
  }

  lemma {:induction false} FoldFrame(m: map<u32, CompressedBlock>, n: map<u32, CompressedBlock>, a: nat, b: nat)
    requires b <= U32_MAX + 1
    requires forall h: u32 | a <= h < b :: h in m && h in n && m[h] == n[h]
    ensures Fold(m, a, b) == Fold(n, a, b)
    decreases b
  {
    if b <= a {
    } else {
      FoldFrame(m, n, a, b - 1);
    }
  }

  lemma LinkedCommitKeepsOk(first: u32, comp: CompressionStore, block: CompressedBlock)
    requires CompressionOk(first, comp) && comp.height.Some? && block.height == comp.height.value + 1
    ensures CompressionOk(first, Written(comp, Apply(block)))
  {
    var next := Written(comp, Apply(block));
    assert forall h: u32 :: h in next.blocks <==> first <= h <= block.height;
    FoldFrame(comp.blocks, next.blocks, first, block.height);
    assert Fold(next.blocks, first, block.height + 1)
        == Fold(next.blocks, first, block.height) + block.registrations;
  }

  lemma FirstCommitIsOk(block: CompressedBlock)
    ensures CompressionOk(block.height, Written(EmptyCompression(), Apply(block)))
  {
    var next := Written(EmptyCompression(), Apply(block));
    assert Fold(next.blocks, block.height, block.height) == map[];
    assert Fold(next.blocks, block.height, block.height + 1) == map[] + block.registrations;
  }

  lemma CommitKeepsCompressionOk(first: u32, comp: CompressionStore, block: CompressedBlock)
    requires CompressionOk(first, comp) && CommitCompression(comp, Apply(block)).Some?
    ensures CompressionOk(if comp.height.None? then block.height else first,
                          CommitCompression(comp, Apply(block)).value)
  {
    if comp.height.None? { FirstCommitIsOk(block); } else { LinkedCommitKeepsOk(first, comp, block); }
  }

  lemma CommitKeepsChainOk(base: u32, chain: Chain, block: SealedBlock)
    requires ChainOk(base, chain) && CommitBlock(chain, block).Some?
    ensures ChainOk(base, CommitBlock(chain, block).value)
  {
  }
}
