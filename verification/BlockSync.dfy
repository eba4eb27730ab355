/** Which blocks the GraphQL block sync commits. */
module BlockSync {
  import opened Wrappers
  import opened Codec
  import opened Stores
  import opened BlockSyncer
  import OF = OrderedFetch

  /** The first n blocks continue the chain at height `top`; the next one, if any, does not. */
  ghost predicate Continues(blocks: seq<SealedBlock>, top: u32, n: nat) {
    && n <= |blocks|
    && (forall i | 0 <= i < n :: blocks[i].entity.height == top + 1 + i)
    && (n < |blocks| ==> blocks[n].entity.height != top + 1 + n)
  }

  /** `next` is `chain` with exactly the first n blocks added, under their heights. */
  ghost predicate Extended(chain: Chain, blocks: seq<SealedBlock>, n: nat, next: Chain)
    requires n <= |blocks| && chain.height.Some?
  {
    var top := chain.height.value;
    && next.height.Some? && next.height.value == top + n
    && (forall h: u32 :: h in next.blocks <==> h in chain.blocks || top < h <= top + n)
    && (forall h: u32 | top < h <= top + n :: next.blocks[h] == blocks[h - top - 1])
    && (forall h: u32 | h in chain.blocks && !(top < h <= top + n) :: next.blocks[h] == chain.blocks[h])
  }

  lemma ContinuesLater(blocks: seq<SealedBlock>, top: u32, n: nat)
    requires |blocks| > 0 && blocks[0].entity.height == top + 1 && Continues(blocks[1..], top + 1, n)
    ensures Continues(blocks, top, n + 1)
  {
    forall i | 0 <= i < n + 1 ensures blocks[i].entity.height == top + 1 + i {
      if i > 0 { assert blocks[i] == blocks[1..][i - 1]; }
    }
  }

  lemma ExtendedLater(chain: Chain, blocks: seq<SealedBlock>, n: nat, next: Chain)
    requires chain.height.Some? && |blocks| > 0 && CommitBlock(chain, blocks[0]).Some? && n < |blocks|
    requires Extended(CommitBlock(chain, blocks[0]).value, blocks[1..], n, next)
    ensures Extended(chain, blocks, n + 1, next)
  {
    var top := chain.height.value;
    forall h: u32 | top < h <= top + n + 1 ensures h in next.blocks && next.blocks[h] == blocks[h - top - 1] {
      if h > top + 1 { assert blocks[1..][h - (top + 1) - 1] == blocks[h - top - 1]; }
    }
  }

  /** The block sync commits exactly the longest run of received blocks that continues the chain, and succeeds if and
      only if that is all of them. */
  lemma {:induction false} SyncCommitsRun(chain: Chain, blocks: seq<SealedBlock>)
      returns (n: nat, next: Chain, ok: bool)
    requires chain.height.Some?
    ensures (next, ok) == SyncBlocks(chain, blocks)
    ensures Continues(blocks, chain.height.value, n) && Extended(chain, blocks, n, next)
    ensures ok <==> n == |blocks|
    decreases |blocks|
  {
    n, next, ok := 0, chain, |blocks| == 0;
    if |blocks| == 0 {
    } else if CommitBlock(chain, blocks[0]).Some? {
      n, next, ok := SyncCommitsRun(CommitBlock(chain, blocks[0]).value, blocks[1..]);
      ContinuesLater(blocks, chain.height.value, n);
      ExtendedLater(chain, blocks, n, next);
      n := n + 1;
    }
  }

  /** `next` is `chain` with the items of the heights [a, b) added. */
  ghost predicate AddsItems(item: nat -> SealedBlock, chain: Chain, a: nat, b: nat, next: Chain)
    requires chain.height.Some?
  {
    && next.height.Some? && next.height.value == (if a < b then b - 1 else chain.height.value)
    && (forall h: u32 :: h in next.blocks <==> h in chain.blocks || a <= h < b)
    && (forall h: u32 | a <= h < b :: next.blocks[h] == item(h))
    && (forall h: u32 | h in chain.blocks && !(a <= h < b) :: next.blocks[h] == chain.blocks[h])
  }

  lemma RunIsAdded(item: nat -> SealedBlock, chain: Chain, blocks: seq<SealedBlock>, n: nat, next: Chain)
    requires chain.height.Some? && n <= |blocks| && Extended(chain, blocks, n, next)
    requires OF.ItemsFrom(item, chain.height.value + 1, blocks)
    ensures AddsItems(item, chain, chain.height.value + 1, chain.height.value + 1 + n, next)
  {
    var top := chain.height.value;
    forall h: u32 | top < h <= top + n ensures next.blocks[h] == item(h) {
      assert blocks[h - top - 1] == item(top + 1 + (h - top - 1));
    }
  }

  /** [a, b) is the run of heights whose items are the blocks of those heights, up to `cut`. */
  ghost predicate NumberedRun(item: nat -> SealedBlock, a: nat, b: nat, cut: nat) {
    && a <= b <= cut
    && (forall h: nat | a <= h < b :: item(h).entity.height == h)
    && (b < cut ==> item(b).entity.height != b)
  }

  lemma RunIsNumbered(item: nat -> SealedBlock, top: u32, blocks: seq<SealedBlock>, n: nat)
    requires Continues(blocks, top, n) && OF.ItemsFrom(item, top + 1, blocks)
    ensures NumberedRun(item, top + 1, top + 1 + n, top + 1 + |blocks|)
  {
    forall h: nat | top + 1 <= h < top + 1 + n ensures item(h).entity.height == h {
      assert blocks[h - top - 1] == item(top + 1 + (h - top - 1));
    }
    assert n < |blocks| ==> blocks[n] == item(top + 1 + n);
  }

  lemma CommitsNext(item: nat -> SealedBlock, chain: Chain, blocks: seq<SealedBlock>)
      returns (b: nat, next: Chain, ok: bool)
    requires chain.height.Some? && OF.ItemsFrom(item, chain.height.value + 1, blocks)
    ensures (next, ok) == SyncBlocks(chain, blocks)
    ensures NumberedRun(item, chain.height.value + 1, b, chain.height.value + 1 + |blocks|)
    ensures ok <==> b == chain.height.value + 1 + |blocks|
    ensures AddsItems(item, chain, chain.height.value + 1, b, next)
  {
    var n: nat;
    n, next, ok := SyncCommitsRun(chain, blocks);
    b := CountsItems(item, chain, blocks, n, next);
  }

  lemma CountsItems(item: nat -> SealedBlock, chain: Chain, blocks: seq<SealedBlock>, n: nat, next: Chain)
      returns (b: nat)
    requires chain.height.Some? && OF.ItemsFrom(item, chain.height.value + 1, blocks)
    requires Continues(blocks, chain.height.value, n) && Extended(chain, blocks, n, next)
    ensures b == chain.height.value + 1 + n
    ensures NumberedRun(item, chain.height.value + 1, b, chain.height.value + 1 + |blocks|)
    ensures AddsItems(item, chain, chain.height.value + 1, b, next)
  {
    b := chain.height.value + 1 + n;
    RunIsAdded(item, chain, blocks, n, next);
    RunIsNumbered(item, chain.height.value, blocks, n);
  }

  /** The items of `start..cut`: which are committed. */
  lemma CommitsItems(item: nat -> SealedBlock, chain: Chain, start: u32, cut: u32, blocks: seq<SealedBlock>)
      returns (b: nat, next: Chain, ok: bool)
    requires chain.height.Some? && start == SaturatingAdd(chain.height.value, 1) && start <= cut
    requires |blocks| == cut - start && OF.ItemsFrom(item, start, blocks)
    ensures (next, ok) == SyncBlocks(chain, blocks)
    ensures NumberedRun(item, start, b, cut) && (ok <==> b == cut) && AddsItems(item, chain, start, b, next)
  {
    if chain.height.value == U32_MAX {
      b, next, ok := start, chain, true;
      assert blocks == [];
    } else {
      b, next, ok := CommitsNext(item, chain, blocks);
    }
  }

  /** Fetch and sync together: the blocks asked for are those of H + 1 up to the remote height; whatever the order of
      the answers and wherever the sync is cut off, exactly the blocks [H + 1, b) are committed, where b is the first
      height whose item is not the block of that height, or `cut`: the first failed chunk or the remote height, if
      nothing is cut off. The sync succeeds exactly in the latter case. */
  lemma SyncFromFetch(item: nat -> SealedBlock, fetch: OF.Range -> OF.Fetch<SealedBlock>, chain: Chain, remote: u32,
                      steps: seq<OF.Step>, accepted: nat) returns (b: nat, cut: u32, k: nat)
    requires OF.ItemFaithful(item, fetch) && chain.height.Some?
    requires OF.Execution(fetch, OF.Ranges(SaturatingAdd(chain.height.value, 1), remote), OF.Open(), steps)
    ensures var start := SaturatingAdd(chain.height.value, 1); var s := OF.Fetching(fetch, start, remote, steps);
      var (next, ok) := SyncBlocks(chain, OF.Received(s.delivered, accepted));
      && cut <= OF.End(start, remote) && NumberedRun(item, start, b, cut)
      && (OF.AllReceived(s, accepted) ==>
            OF.CutAt(fetch, OF.Ranges(start, remote), OF.End(start, remote), k, cut))
      && (ok <==> b == cut)
      && AddsItems(item, chain, start, b, next)
  {
    var start := SaturatingAdd(chain.height.value, 1);
    var blocks: seq<SealedBlock>;
    blocks, cut, k := OF.ReceivedRange(item, fetch, start, remote, steps, accepted);
    var next, ok;
    b, next, ok := CommitsItems(item, chain, start, cut, blocks);
  }
}
