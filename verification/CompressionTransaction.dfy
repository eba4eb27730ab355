/** Storage transactions over the compression database, as crates/block-syncer/src/block_syncer.rs opens them: writes
are kept aside, a nested transaction commits into the one around it, and nothing reaches the database before that
one's changes are committed. A transaction borrows what is beneath it exclusively, so what it saw there when it was
opened is what it sees as long as it lives. */
module CompressionTransaction {
  import opened Wrappers
  import opened Codec
  import opened Stores

  class Transaction {
    const beneath: Registry
    var inserted: Option<CompressedBlock>
    var written: Registry

    /** The registry as it is read through the transaction. */
    function View(): Registry
      reads this
    {
      beneath + written
    }

    constructor (beneath: Registry)
      ensures this.beneath == beneath && inserted == None && written == map[]
      ensures View() == beneath
    {
      this.beneath, inserted, written := beneath, None, map[];
    }

    method Insert(block: CompressedBlock)
      modifies this
      ensures inserted == Some(block) && written == old(written)
    {
      inserted := Some(block);
    }

    method WriteToRegistry(registrations: Registry)
      modifies this
      ensures inserted == old(inserted) && written == old(written) + registrations
    {
      written := written + registrations;
    }

    /** A nested transaction commits into the one around it, which then shows what the nested one showed. */
    method CommitInto(outer: Transaction)
      requires outer != this && beneath == outer.View()
      modifies outer
      ensures outer.View() == View()
      ensures outer.inserted == if inserted.Some? then inserted else old(outer.inserted)
      ensures outer.written == old(outer.written) + written
    {
      outer.written := outer.written + written;
      if inserted.Some? { outer.inserted := inserted; }
    }

    /** What is left to commit to the database. */
    function IntoChanges(): Changes
      requires inserted.Some?
      reads this
    {
      Changes(inserted.value, written)
    }
  }
}
