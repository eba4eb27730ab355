/** Which compressed blocks the GraphQL compression sync commits. */
module CompressionSync {
  import opened Wrappers
  import opened Codec
  import opened Stores
  import opened BlockSyncer
  import OF = OrderedFetch

  /** The i-th item is the compressed block of height start + i, or nothing. */
  ghost predicate Faithful(start: nat, items: seq<Option<CompressedBlock>>) {
    forall i | 0 <= i < |items| :: items[i].Some? ==> items[i].value.height == start + i
  }

  /** How many items are missing before the first present one. */
  function Leading(items: seq<Option<CompressedBlock>>): (n: nat)
    ensures n <= |items|
  {
    if |items| == 0 || items[0].Some? then 0 else 1 + Leading(items[1..])
  }

  /** How many items are present before the first missing one. */
  function Present(items: seq<Option<CompressedBlock>>): (n: nat)
    ensures n <= |items|
  {
    if |items| == 0 || items[0].None? then 0 else 1 + Present(items[1..])
  }

  lemma {:induction false} PresentArePresent(items: seq<Option<CompressedBlock>>)
    ensures forall i | 0 <= i < Present(items) :: items[i].Some?
    ensures Present(items) < |items| ==> items[Present(items)].None?
    decreases |items|
  {
    if |items| == 0 {
    } else if items[0].Some? {
      PresentArePresent(items[1..]);
    }
  }

  /** `next` is `comp` with the items [0, n) committed one after another, and nothing else. */
  ghost predicate CommitsRun(comp: CompressionStore, items: seq<Option<CompressedBlock>>, n: nat, start: nat,
                             next: CompressionStore)
    requires n <= |items| && forall i | 0 <= i < n :: items[i].Some?
  {
    && (if n == 0 then next.height == comp.height else next.height.Some? && next.height.value == start + n - 1)
    && (forall i | 0 <= i < n :: items[i].value.height in next.blocks
                              && next.blocks[items[i].value.height] == items[i].value)
    && (forall h: u32 | !(start <= h < start + n) :: h in next.blocks <==> h in comp.blocks)
    && (forall h: u32 | !(start <= h < start + n) && h in comp.blocks :: next.blocks[h] == comp.blocks[h])
  }

  /** One commit before a run makes the run one longer. */
  lemma CommitsOneMore(comp: CompressionStore, items: seq<Option<CompressedBlock>>, n: nat, start: nat,
                       out: CompressionStore)
    requires |items| > 0 && items[0].Some? && items[0].value.height == start
    requires n < |items| && (forall i | 0 <= i < n :: items[1..][i].Some?)
    requires CommitsRun(Written(comp, Apply(items[0].value)), items[1..], n, start + 1, out)
    ensures forall i | 0 <= i < n + 1 :: items[i].Some?
    ensures CommitsRun(comp, items, n + 1, start, out)
  {
    forall i | 0 <= i < n + 1
      ensures items[i].Some?
      ensures items[i].value.height in out.blocks && out.blocks[items[i].value.height] == items[i].value
    {
      if i > 0 { assert items[1..][i - 1] == items[i]; }
    }
  }

  /** From a store that can take height `start`, the sync commits the maximal run of present items. */
  lemma {:induction false} SyncCommitsPresent(comp: CompressionStore, items: seq<Option<CompressedBlock>>, start: nat)
    requires Faithful(start, items)
    requires comp.height.None? ==> |items| > 0 ==> items[0].Some?
    requires comp.height.Some? ==> comp.height.value + 1 == start
    ensures SyncItems(comp, items).1
    ensures forall i | 0 <= i < Present(items) :: items[i].Some?
    ensures CommitsRun(comp, items, Present(items), start, SyncItems(comp, items).0)
    decreases |items|
  {
    PresentArePresent(items);
    if |items| == 0 {
    } else if items[0].Some? {
      var next := Written(comp, Apply(items[0].value));
      FaithfulFrom(start, items, 1);
      SyncCommitsPresent(next, items[1..], start + 1);
      CommitsOneMore(comp, items, Present(items[1..]), start, SyncItems(next, items[1..]).0);
    }
  }

  lemma FaithfulFrom(start: nat, items: seq<Option<CompressedBlock>>, k: nat)
    requires Faithful(start, items) && k <= |items|
    ensures Faithful(start + k, items[k..])
  {
    var rest := items[k..];
    forall i | 0 <= i < |rest| ensures rest[i].Some? ==> rest[i].value.height == start + k + i {
      assert rest[i] == items[k + i];
    }
  }

  /** With compression data up to c, asking for heights from max(target - window, c + 1), which saturates at the last
      u32 height: the start is c + 1 if and only if the window starts no later and c + 1 is a u32. Then the maximal run
      of present items is committed; otherwise a commit is rejected if and only if the first item is present, and the
      store is unchanged. */
  lemma LaterSyncRejectedExactlyWhen(comp: CompressionStore, items: seq<Option<CompressedBlock>>,
                                     target: u32, window: u32)
    requires comp.height.Some?
    requires Faithful(StartHeight(target, comp.height, window), items)
    ensures var c := comp.height.value; var start := StartHeight(target, comp.height, window);
      var (next, ok) := SyncItems(comp, items);
      && (start == c + 1 <==> c + 1 >= target - window && c < U32_MAX)
      && (!ok <==> start != c + 1 && |items| > 0 && items[0].Some?)
      && (start != c + 1 ==> next == comp)
      && (start == c + 1 ==>
            && (forall i | 0 <= i < Present(items) :: items[i].Some?)
            && CommitsRun(comp, items, Present(items), c + 1, next))
  {
    var start: nat := StartHeight(target, comp.height, window);
    if start == comp.height.value + 1 {
      SyncCommitsPresent(comp, items, start);
    }
  }

  // ---------------------------------------------------------------- where the sync starts

  /** Not the first height of all, in the window, and above what is there already. */
  predicate MayStart(target: u32, latest: Option<u32>, window: u32, s: u32) {
    s >= 1 && s + window >= target && (latest.Some? ==> s > latest.value)
  }

  /** The least height that may start a sync; the last u32 height, if there is none. */
  ghost predicate IsStart(target: u32, latest: Option<u32>, window: u32, s: u32) {
    if exists t: u32 :: MayStart(target, latest, window, t) then
      MayStart(target, latest, window, s) && forall t: u32 | MayStart(target, latest, window, t) :: s <= t
    else
      s == U32_MAX
  }

  /** For every target, store and window, the sync starts there and nowhere else. */
  lemma StartHeightIsLeast(target: u32, latest: Option<u32>, window: u32)
    ensures forall s: u32 :: IsStart(target, latest, window, s) <==> s == StartHeight(target, latest, window)
    ensures (exists s: u32 :: MayStart(target, latest, window, s)) <==> latest != Some(U32_MAX)
  {
    var s := StartHeight(target, latest, window);
    if latest != Some(U32_MAX) {
      assert MayStart(target, latest, window, s);
    }
  }

  // ---------------------------------------------------------------- fed by the concurrent fetch

  /** The compressed block of each height, or nothing. */
  ghost predicate ByHeight(item: nat -> Option<CompressedBlock>) {
    forall h: nat :: item(h).Some? ==> item(h).value.height == h
  }

  type Fetcher = OF.Range -> OF.Fetch<Option<CompressedBlock>>

  /** What the receiver gets of a height-faithful fetch, at any moment and however many items it takes: the items of
      `start..cut`, where `cut` is never above the target; and if the fetch has closed and the receiver takes all,
      `cut` is the target or the start of the first chunk that failed. */
  lemma ReceivedItems(item: nat -> Option<CompressedBlock>, fetch: Fetcher, start: u32, target: u32,
                      steps: seq<OF.Step>, accepted: nat)
      returns (items: seq<Option<CompressedBlock>>, cut: u32, k: nat)
    requires OF.ItemFaithful(item, fetch) && ByHeight(item)
    requires OF.Execution(fetch, OF.Ranges(start, target), OF.Open(), steps)
    ensures items == OF.Received(OF.Fetching(fetch, start, target, steps).delivered, accepted)
    ensures start <= cut <= OF.End(start, target) && |items| == cut - start
    ensures OF.ItemsFrom(item, start, items) && Faithful(start, items)
    ensures OF.AllReceived(OF.Fetching(fetch, start, target, steps), accepted) ==>
      OF.CutAt(fetch, OF.Ranges(start, target), OF.End(start, target), k, cut)
  {
    items, cut, k := OF.ReceivedRange(item, fetch, start, target, steps, accepted);
  }

  /** `next` is `comp` with the blocks of the heights [a, b) added under their heights. */
  ghost predicate Adds(item: nat -> Option<CompressedBlock>, comp: CompressionStore, a: nat, b: nat,
                       next: CompressionStore) {
    && (if a < b then next.height.Some? && next.height.value == b - 1 else next.height == comp.height)
    && (forall h: u32 | a <= h < b :: item(h).Some? && h in next.blocks && next.blocks[h] == item(h).value)
    && (forall h: u32 | !(a <= h < b) :: h in next.blocks <==> h in comp.blocks)
    && (forall h: u32 | !(a <= h < b) && h in comp.blocks :: next.blocks[h] == comp.blocks[h])
  }

  /** [a, b) is the run of present items that starts at a: it ends at the first missing one or at `cut`. */
  ghost predicate MaximalRun(item: nat -> Option<CompressedBlock>, a: nat, b: nat, cut: nat) {
    a <= b <= cut && (forall h: nat | a <= h < b :: item(h).Some?) && (b < cut ==> item(b).None?)
  }

  lemma RunIsAdded(item: nat -> Option<CompressedBlock>, comp: CompressionStore, start: nat, cut: u32,
                   items: seq<Option<CompressedBlock>>, next: CompressionStore)
    requires ByHeight(item) && start <= cut && |items| == cut - start && OF.ItemsFrom(item, start, items)
    requires forall i | 0 <= i < Present(items) :: items[i].Some?
    requires CommitsRun(comp, items, Present(items), start, next)
    ensures MaximalRun(item, start, start + Present(items), cut)
    ensures Adds(item, comp, start, start + Present(items), next)
  {
    PresentArePresent(items);
    var b := start + Present(items);
    forall h: nat | start <= h < b ensures item(h).Some? && items[h - start] == item(h) {
      assert items[h - start] == item(start + (h - start));
    }
    forall h: u32 | start <= h < b ensures h in next.blocks && next.blocks[h] == item(h).value {
      assert items[h - start].value.height == h;
    }
  }

  /** The whole compression sync with no compression data yet: whatever the order of the answers, and wherever the
      sync is cut off, it commits one contiguous run [a, b), the maximal one after the leading heights without
      compressed block, up to the first missing block or `cut`: the first failed chunk or the target, if the sync is
      not cut off. */
  lemma FirstSyncFromFetch(item: nat -> Option<CompressedBlock>, fetch: Fetcher, target: u32, window: u32,
                           steps: seq<OF.Step>, accepted: nat) returns (a: nat, b: nat, cut: u32, k: nat)
    requires OF.ItemFaithful(item, fetch) && ByHeight(item)
    requires OF.Execution(fetch, OF.Ranges(StartHeight(target, None, window), target), OF.Open(), steps)
    ensures var start := StartHeight(target, None, window); var s := OF.Fetching(fetch, start, target, steps);
      var (next, ok) := SyncItems(EmptyCompression(), OF.Received(s.delivered, accepted));
      && ok
      && IsStart(target, None, window, start) && cut <= OF.End(start, target)
      && (OF.AllReceived(s, accepted) ==>
            OF.CutAt(fetch, OF.Ranges(start, target), OF.End(start, target), k, cut))
      && start <= a && (forall h: nat | start <= h < a :: item(h).None?) && (a == b ==> b == cut)
      && MaximalRun(item, a, b, cut)
      && Adds(item, EmptyCompression(), a, b, next)
  {
    var start := StartHeight(target, None, window);
    var items: seq<Option<CompressedBlock>>;
    var next: CompressionStore;
    items, cut, k := ReceivedItems(item, fetch, start, target, steps, accepted);
    StartHeightIsLeast(target, None, window);
    a, b, next := SkipAndCommit(item, start, cut, items);
  }

  /** From no compression data, the items of `start..cut` lead to `next`, which holds the run [a, b). */
  ghost predicate FirstRun(item: nat -> Option<CompressedBlock>, start: nat, cut: u32,
                           items: seq<Option<CompressedBlock>>, a: nat, b: nat, next: CompressionStore) {
    && start <= a && (forall h: nat | start <= h < a :: item(h).None?) && (a == b ==> b == cut)
    && MaximalRun(item, a, b, cut)
    && SyncItems(EmptyCompression(), items) == (next, true) && Adds(item, EmptyCompression(), a, b, next)
  }

  lemma SkipFirst(item: nat -> Option<CompressedBlock>, start: nat, cut: u32, items: seq<Option<CompressedBlock>>,
                  a: nat, b: nat, next: CompressionStore)
    requires |items| > 0 && items[0].None? && item(start).None?
    requires FirstRun(item, start + 1, cut, items[1..], a, b, next)
    ensures FirstRun(item, start, cut, items, a, b, next)
  {
  }

  lemma CommitFirst(item: nat -> Option<CompressedBlock>, start: nat, cut: u32, items: seq<Option<CompressedBlock>>)
      returns (b: nat, next: CompressionStore)
    requires ByHeight(item) && start <= cut && |items| == cut - start && OF.ItemsFrom(item, start, items)
    requires |items| > 0 && items[0].Some?
    ensures FirstRun(item, start, cut, items, start, b, next)
  {
    b, next := start + Present(items), SyncItems(EmptyCompression(), items).0;
    SyncCommitsPresent(EmptyCompression(), items, start);
    RunIsAdded(item, EmptyCompression(), start, cut, items, next);
  }

  /** The items of `start..cut` with no compression data yet: which run [a, b) is committed. */
  lemma {:induction false} SkipAndCommit(item: nat -> Option<CompressedBlock>, start: nat, cut: u32,
                                         items: seq<Option<CompressedBlock>>)
      returns (a: nat, b: nat, next: CompressionStore)
    requires ByHeight(item) && start <= cut && |items| == cut - start && OF.ItemsFrom(item, start, items)
    ensures FirstRun(item, start, cut, items, a, b, next)
    decreases |items|
  {
    a, b, next := start, start, EmptyCompression();
    if |items| == 0 {
    } else if items[0].None? {
      assert items[0] == item(start + 0);
      ItemsFromTail(item, start, items, 1);
      a, b, next := SkipAndCommit(item, start + 1, cut, items[1..]);
      SkipFirst(item, start, cut, items, a, b, next);
    } else {
      b, next := CommitFirst(item, start, cut, items);
    }
  }

  lemma ItemsFromTail(item: nat -> Option<CompressedBlock>, start: nat, items: seq<Option<CompressedBlock>>, n: nat)
    requires OF.ItemsFrom(item, start, items) && n <= |items|
    ensures OF.ItemsFrom(item, start + n, items[n..])
  {
    forall j | 0 <= j < |items[n..]| ensures items[n..][j] == item(start + n + j) {
      assert items[n + j] == item(start + (n + j));
    }
  }

  /** The whole compression sync with data up to c. If it starts at c + 1, that is, if the window starts no later and
      c + 1 is a u32, it appends the maximal run of present blocks from there, up to the first missing block or `cut`.
      Otherwise nothing is committed, and the sync fails if and only if the first height asked for has a compressed
      block and is received. */
  lemma LaterSyncFromFetch(item: nat -> Option<CompressedBlock>, fetch: Fetcher, comp: CompressionStore, target: u32,
                           window: u32, steps: seq<OF.Step>, accepted: nat) returns (b: nat, cut: u32, k: nat)
    requires OF.ItemFaithful(item, fetch) && ByHeight(item) && comp.height.Some?
    requires OF.Execution(fetch, OF.Ranges(StartHeight(target, comp.height, window), target), OF.Open(), steps)
    ensures var start := StartHeight(target, comp.height, window); var c := comp.height.value;
      var s := OF.Fetching(fetch, start, target, steps);
      var (next, ok) := SyncItems(comp, OF.Received(s.delivered, accepted));
      && IsStart(target, comp.height, window, start) && cut <= OF.End(start, target)
      && (OF.AllReceived(s, accepted) ==>
            OF.CutAt(fetch, OF.Ranges(start, target), OF.End(start, target), k, cut))
      && (start == c + 1 <==> c + 1 >= target - window && c < U32_MAX)
      && (ok <==> start == c + 1 || start == cut || item(start).None?)
      && (start != c + 1 ==> next == comp)
      && (start == c + 1 ==> MaximalRun(item, c + 1, b, cut) && Adds(item, comp, c + 1, b, next))
  {
    var start := StartHeight(target, comp.height, window);
    var items: seq<Option<CompressedBlock>>;
    items, cut, k := ReceivedItems(item, fetch, start, target, steps, accepted);
    StartHeightIsLeast(target, comp.height, window);
    b := LaterRun(item, comp, target, window, cut, items);
  }

  /** The items of `start..cut` with data up to c: which run is appended. */
  lemma LaterRun(item: nat -> Option<CompressedBlock>, comp: CompressionStore, target: u32, window: u32, cut: u32,
                 items: seq<Option<CompressedBlock>>) returns (b: nat)
    requires comp.height.Some? && ByHeight(item)
    requires var start := StartHeight(target, comp.height, window);
      start <= cut && |items| == cut - start && OF.ItemsFrom(item, start, items) && Faithful(start, items)
    ensures var start := StartHeight(target, comp.height, window); var c := comp.height.value;
      var (next, ok) := SyncItems(comp, items);
      && (start == c + 1 <==> c + 1 >= target - window && c < U32_MAX)
      && (ok <==> start == c + 1 || start == cut || item(start).None?)
      && (start != c + 1 ==> next == comp)
      && (start == c + 1 ==> MaximalRun(item, c + 1, b, cut) && Adds(item, comp, c + 1, b, next))
  {
    var start: nat := StartHeight(target, comp.height, window);
    LaterSyncRejectedExactlyWhen(comp, items, target, window);
    b := start + Present(items);
    if start == comp.height.value + 1 {
      RunIsAdded(item, comp, start, cut, items, SyncItems(comp, items).0);
    } else {
      assert |items| > 0 ==> items[0] == item(start + 0);
    }
  }
}
