/** The chunked, concurrent, ordered fetch both GraphQL syncs use
(crates/block-syncer/src/block_syncer.rs, lines 158-185 and 221-250): chunks of 40 heights, at most 8 requests
at a time, results in order, cut at the first chunk that fails. */
module OrderedFetch {
  import opened Wrappers

  const CHUNK: nat := 40
  const BUFFERED: nat := 8

  /** A half-open range of heights. */
  datatype Range = Range(start: u32, end: u32)

  // ---------------------------------------------------------------- from heights to chunk ranges

  function Heights(a: u32, b: u32): (s: seq<u32>)
    ensures |s| == if a < b then b - a else 0
    decreases if a < b then b - a else 0
  {
    if a < b then [a] + Heights(a + 1, b) else []
  }

  function Chunks(s: seq<u32>): seq<seq<u32>> {
    if |s| == 0 then [] else [s[..Min(CHUNK, |s|)]] + Chunks(s[Min(CHUNK, |s|)..])
  }

  function RangeOf(chunk: seq<u32>): Range
    requires 0 < |chunk| <= CHUNK
  {
    Range(chunk[0], SaturatingAdd(chunk[0], |chunk|))
  }

  function RangesOf(chunks: seq<seq<u32>>): seq<Range>
    requires forall i | 0 <= i < |chunks| :: 0 < |chunks[i]| <= CHUNK
  {
    if |chunks| == 0 then [] else [RangeOf(chunks[0])] + RangesOf(chunks[1..])
  }

  lemma {:induction false} ChunkSizes(s: seq<u32>)
    ensures forall i | 0 <= i < |Chunks(s)| :: 0 < |Chunks(s)[i]| <= CHUNK
    decreases |s|
  {
    if |s| == 0 {
    } else {
      ChunkSizes(s[Min(CHUNK, |s|)..]);
    }
  }

  /** The ranges requested for `a..b`. */
  function Ranges(a: u32, b: u32): seq<Range> {
    ChunkSizes(Heights(a, b));
    RangesOf(Chunks(Heights(a, b)))
  }

  /** All heights of a sequence of ranges, in order. */
  function Spelled(rs: seq<Range>): seq<u32> {
    if |rs| == 0 then [] else Heights(rs[0].start, rs[0].end) + Spelled(rs[1..])
  }

  lemma {:induction false} HeightsAt(a: u32, b: u32)
    ensures forall i: nat | i < |Heights(a, b)| :: Heights(a, b)[i] == a + i
    decreases if a < b then b - a else 0
  {
    if b <= a {
    } else {
      HeightsAt(a + 1, b);
    }
  }

  lemma HeightsSplit(a: u32, c: u32, b: u32)
    requires a <= c <= b
    ensures Heights(a, b)[..c - a] == Heights(a, c) && Heights(a, b)[c - a..] == Heights(c, b)
  {
    HeightsAt(a, b);
    HeightsAt(a, c);
    HeightsAt(c, b);
  }

  /** The first range requested and the rest. */
  lemma RangesStep(a: u32, b: u32)
    requires a < b
    ensures var c := Min(a + CHUNK, b);
      Ranges(a, b) == [Range(a, c)] + Ranges(c, b)
  {
    var c := Min(a + CHUNK, b);
    var s := Heights(a, b);
    HeightsAt(a, b);
    HeightsAt(a, c);
    HeightsSplit(a, c, b);
    ChunkSizes(s);
    assert Min(CHUNK, |s|) == c - a;
    assert Chunks(s) == [Heights(a, c)] + Chunks(Heights(c, b));
    assert Chunks(s)[1..] == Chunks(Heights(c, b));
  }

  /** The chunk ranges of any u32 range: non-empty, 40 long except perhaps the last, without saturation, and
      together exactly the range. */
  lemma {:induction false} RangesPartition(a: u32, b: u32)
    ensures Tile(a, b, Ranges(a, b)) && Spelled(Ranges(a, b)) == Heights(a, b)
    decreases if a < b then b - a else 0
  {
    if b <= a {
    } else {
      var c: u32 := Min(a + CHUNK, b);
      RangesPartition(c, b);
      assert Ranges(a, b) == [Range(a, c)] + Ranges(c, b) by { RangesStep(a, b); }
      TileOneMore(a, c, b, Ranges(c, b));
      HeightsSplit(a, c, b);
    }
  }

  /** Non-empty ranges that together go from a to b, each 40 long, except that the last may be shorter. */
  ghost predicate Tile(a: u32, b: u32, rs: seq<Range>) {
    && (forall i | 0 <= i < |rs| :: a <= rs[i].start < rs[i].end <= b && rs[i].end - rs[i].start <= 40)
    && (forall i | 0 <= i < |rs| - 1 :: rs[i].end == rs[i + 1].start && rs[i].end - rs[i].start == 40)
    && (if a < b then |rs| > 0 && rs[0].start == a && rs[|rs| - 1].end == b else rs == [])
  }

  lemma TileOneMore(a: u32, c: u32, b: u32, rest: seq<Range>)
    requires a < b && c == Min(a + 40, b) && Tile(c, b, rest)
    ensures Tile(a, b, [Range(a, c)] + rest)
  {
    var rs := [Range(a, c)] + rest;
    forall i | 0 <= i < |rs| - 1 ensures rs[i].end == rs[i + 1].start && rs[i].end - rs[i].start == 40 {
      if i > 0 { assert rs[i] == rest[i - 1] && rs[i + 1] == rest[i]; }
    }
  }

  // ---------------------------------------------------------------- the sequential reference

  datatype Fetch<T> = Fetched(items: seq<T>) | FetchError

  /** One request after another, up to the first that fails. */
  function Sequential<T>(fetch: Range -> Fetch<T>, rs: seq<Range>): seq<T> {
    if |rs| == 0 then []
    else match fetch(rs[0])
      case FetchError => []
      case Fetched(items) => items + Sequential(fetch, rs[1..])
  }

  // ---------------------------------------------------------------- the concurrent fetch

  /** Requests [taken, started) have been started and not yet handed on; those in `done` have finished. */
  datatype Buffer<T> = Buffer(started: nat, taken: nat, done: set<nat>, delivered: seq<T>, closed: bool)

  datatype Step = Fill | Finish(i: nat) | Take

  function Open<T>(): Buffer<T> {
    Buffer(0, 0, {}, [], false)
  }

  /** `Fill` starts requests while fewer than 8 are waiting; `Finish` is the network answering any one of
      them; `Take` hands on the oldest once it has finished, or notices that there is none left. */
  predicate CanStep<T>(rs: seq<Range>, s: Buffer<T>, step: Step) {
    !s.closed &&
    match step
    case Fill => s.started < Min(|rs|, s.taken + BUFFERED)
    case Finish(i) => s.taken <= i < s.started && i !in s.done
    case Take => s.taken in s.done || s.taken >= |rs|
  }

  function Next<T>(fetch: Range -> Fetch<T>, rs: seq<Range>, s: Buffer<T>, step: Step): Buffer<T>
    requires CanStep(rs, s, step)
  {
    match step
    case Fill => s.(started := Min(|rs|, s.taken + BUFFERED))
    case Finish(i) => s.(done := s.done + {i})
    case Take =>
      if s.taken >= |rs| then s.(closed := true)
      else match fetch(rs[s.taken])
        case FetchError => s.(closed := true)
        case Fetched(items) =>
          s.(taken := s.taken + 1, done := s.done - {s.taken}, delivered := s.delivered + items)
  }

  /** The states some schedule reaches. */
  ghost predicate Execution<T>(fetch: Range -> Fetch<T>, rs: seq<Range>, s: Buffer<T>, steps: seq<Step>)
    decreases |steps|
  {
    |steps| > 0 ==>
      CanStep(rs, s, steps[0]) && Execution(fetch, rs, Next(fetch, rs, s, steps[0]), steps[1..])
  }

  ghost function Execute<T>(fetch: Range -> Fetch<T>, rs: seq<Range>, s: Buffer<T>, steps: seq<Step>): Buffer<T>
    requires Execution(fetch, rs, s, steps)
    decreases |steps|
  {
    if |steps| == 0 then s else Execute(fetch, rs, Next(fetch, rs, s, steps[0]), steps[1..])
  }

  /** What is delivered, followed by what a sequential fetch of the rest would give, is the whole. */
  ghost predicate Inv<T>(fetch: Range -> Fetch<T>, rs: seq<Range>, s: Buffer<T>) {
    && s.taken <= s.started <= |rs| && s.started - s.taken <= BUFFERED
    && (forall i | i in s.done :: s.taken <= i < s.started)
    && (if s.closed then s.delivered == Sequential(fetch, rs)
        else s.delivered + Sequential(fetch, rs[s.taken..]) == Sequential(fetch, rs))
  }

  lemma NextKeepsInv<T>(fetch: Range -> Fetch<T>, rs: seq<Range>, s: Buffer<T>, step: Step)
    requires Inv(fetch, rs, s) && CanStep(rs, s, step)
    ensures Inv(fetch, rs, Next(fetch, rs, s, step))
  {
    if step.Take? {
      if s.taken >= |rs| {
        assert s.delivered + Sequential(fetch, rs[s.taken..]) == s.delivered;
      } else {
        var rest := rs[s.taken..];
        assert rest[0] == rs[s.taken] && rest[1..] == rs[s.taken + 1..];
        match fetch(rs[s.taken]) {
          case FetchError => assert s.delivered + Sequential(fetch, rest) == s.delivered;
          case Fetched(items) =>
            assert s.delivered + (items + Sequential(fetch, rest[1..]))
                == (s.delivered + items) + Sequential(fetch, rest[1..]);
        }
      }
    }
  }

  lemma {:induction false} ExecuteKeepsInv<T>(fetch: Range -> Fetch<T>, rs: seq<Range>, s: Buffer<T>, steps: seq<Step>)
    requires Inv(fetch, rs, s) && Execution(fetch, rs, s, steps)
    ensures Inv(fetch, rs, Execute(fetch, rs, s, steps))
    decreases |steps|
  {
    if |steps| == 0 {
    } else {
      NextKeepsInv(fetch, rs, s, steps[0]);
      ExecuteKeepsInv(fetch, rs, Next(fetch, rs, s, steps[0]), steps[1..]);
    }
  }

  /** The concurrent fetch refines the sequential one: for every completion order, what has been delivered is
      a prefix of the sequential output, and all of it once the stream has closed; never more than 8 requests
      are outstanding. */
  lemma RefinesSequential<T>(fetch: Range -> Fetch<T>, rs: seq<Range>, steps: seq<Step>)
    requires Execution(fetch, rs, Open(), steps)
    ensures var s := Execute(fetch, rs, Open(), steps);
      && s.delivered <= Sequential(fetch, rs)
      && (s.closed ==> s.delivered == Sequential(fetch, rs))
      && s.started - s.taken <= 8
  {
    assert rs[0..] == rs;
    ExecuteKeepsInv(fetch, rs, Open(), steps);
  }

  /** What is still to be done: starts, answers, hand-overs, and closing. */
  ghost function Remaining<T>(rs: seq<Range>, s: Buffer<T>): int {
    (|rs| - s.started) + (|rs| - (s.taken + |s.done|)) + (|rs| - s.taken) + (if s.closed then 0 else 1)
  }

  lemma {:induction false} DoneFits(done: set<nat>, a: nat, b: nat)
    requires a <= b && forall i | i in done :: a <= i < b
    ensures |done| <= b - a
    decreases b - a
  {
    if a == b {
      assert done == {};
    } else {
      DoneFits(done - {a}, a + 1, b);
    }
  }

  /** The fetch never deadlocks and always finishes: while open it has a next step, every step brings it
      closer to closing, and what remains is never negative. */
  lemma FetchTerminates<T>(fetch: Range -> Fetch<T>, rs: seq<Range>, s: Buffer<T>)
    requires Inv(fetch, rs, s)
    ensures !s.closed ==> exists step :: CanStep(rs, s, step)
    ensures forall step | CanStep(rs, s, step) :: Remaining(rs, Next(fetch, rs, s, step)) < Remaining(rs, s)
    ensures Remaining(rs, s) >= 0
  {
    DoneFits(s.done, s.taken, s.started);
    if !s.closed {
      if s.started < Min(|rs|, s.taken + BUFFERED) {
        assert CanStep(rs, s, Fill);
      } else if s.taken in s.done || s.taken >= |rs| {
        assert CanStep(rs, s, Take);
      } else {
        assert CanStep(rs, s, Finish(s.taken));
      }
    }
  }

  // ---------------------------------------------------------------- height-faithful fetching

  /** A successful request returns one item per height, each the item of its height. */
  ghost predicate ItemFaithful<T>(item: nat -> T, fetch: Range -> Fetch<T>) {
    forall r: Range :: fetch(r).Fetched? && r.start <= r.end ==>
      |fetch(r).items| == r.end - r.start &&
      forall j | 0 <= j < |fetch(r).items| :: fetch(r).items[j] == item(r.start + j)
  }

  /** `out` lists the items of the heights a, a + 1, ..., in order. */
  ghost predicate ItemsFrom<T>(item: nat -> T, a: nat, out: seq<T>) {
    forall j | 0 <= j < |out| :: out[j] == item(a + j)
  }

  lemma ItemsAppend<T>(item: nat -> T, a: nat, x: seq<T>, y: seq<T>)
    requires ItemsFrom(item, a, x) && ItemsFrom(item, a + |x|, y)
    ensures ItemsFrom(item, a, x + y)
  {
    forall j | 0 <= j < |x + y| ensures (x + y)[j] == item(a + j) {
      if j >= |x| { assert y[j - |x|] == item(a + |x| + (j - |x|)); }
    }
  }

  /** A sequential fetch of `a..b`: the first chunk, then the rest. */
  lemma SequentialStep<T>(fetch: Range -> Fetch<T>, a: u32, b: u32)
    requires a < b
    ensures var m := Min(a + CHUNK, b); var rs := Ranges(a, b);
      && rs == [Range(a, m)] + Ranges(m, b)
      && Sequential(fetch, rs) ==
           if fetch(Range(a, m)).FetchError? then []
           else fetch(Range(a, m)).items + Sequential(fetch, Ranges(m, b))
  {
    var m := Min(a + CHUNK, b);
    RangesStep(a, b);
    assert ([Range(a, m)] + Ranges(m, b))[1..] == Ranges(m, b);
  }

  /** The first k chunks succeed; the next fails and starts at `cut`, or there is none and `cut` is the end. */
  ghost predicate CutAt<T>(fetch: Range -> Fetch<T>, rs: seq<Range>, end: u32, k: nat, cut: u32) {
    && k <= |rs|
    && (forall i | 0 <= i < k :: fetch(rs[i]).Fetched?)
    && (if k < |rs| then fetch(rs[k]).FetchError? && cut == rs[k].start else cut == end)
  }

  lemma CutOneLater<T>(fetch: Range -> Fetch<T>, first: Range, rest: seq<Range>, end: u32, k: nat, cut: u32)
    requires fetch(first).Fetched? && CutAt(fetch, rest, end, k, cut)
    ensures CutAt(fetch, [first] + rest, end, k + 1, cut)
  {
    var rs := [first] + rest;
    forall i | 0 <= i < k + 1 ensures fetch(rs[i]).Fetched? {
      if i > 0 { assert rs[i] == rest[i - 1]; }
    }
  }

  /** Where a range that may be empty ends. */
  function End(a: u32, b: u32): u32 { if a <= b then b else a }

  /** The items a fetch of `a..b` delivers are those of `a..cut`, before the k-th chunk. */
  ghost predicate DeliversUpTo<T>(item: nat -> T, fetch: Range -> Fetch<T>, a: u32, b: u32, k: nat, cut: u32) {
    var out := Sequential(fetch, Ranges(a, b));
    && a <= cut <= End(a, b) && CutAt(fetch, Ranges(a, b), End(a, b), k, cut)
    && |out| == cut - a && ItemsFrom(item, a, out)
  }

  lemma FirstChunkFails<T>(item: nat -> T, fetch: Range -> Fetch<T>, a: u32, b: u32)
    requires a < b && fetch(Range(a, Min(a + CHUNK, b))).FetchError?
    ensures DeliversUpTo(item, fetch, a, b, 0, a)
  {
    SequentialStep(fetch, a, b);
  }

  lemma FirstChunkArrives<T>(item: nat -> T, fetch: Range -> Fetch<T>, a: u32, m: u32, b: u32, k: nat, cut: u32)
    requires ItemFaithful(item, fetch) && a < b && m == Min(a + CHUNK, b) && fetch(Range(a, m)).Fetched?
    requires DeliversUpTo(item, fetch, m, b, k, cut)
    ensures DeliversUpTo(item, fetch, a, b, k + 1, cut)
  {
    assert CutAt(fetch, Ranges(a, b), b, k + 1, cut) by {
      RangesStep(a, b);
      CutOneLater(fetch, Range(a, m), Ranges(m, b), b, k, cut);
    }
    assert Sequential(fetch, Ranges(a, b)) == fetch(Range(a, m)).items + Sequential(fetch, Ranges(m, b)) by {
      SequentialStep(fetch, a, b);
    }
    FirstItems(item, fetch, a, m, Sequential(fetch, Ranges(m, b)));
  }

  lemma FirstItems<T>(item: nat -> T, fetch: Range -> Fetch<T>, a: u32, m: u32, rest: seq<T>)
    requires ItemFaithful(item, fetch) && a <= m && fetch(Range(a, m)).Fetched? && ItemsFrom(item, m, rest)
    ensures var out := fetch(Range(a, m)).items + rest; |out| == m - a + |rest| && ItemsFrom(item, a, out)
  {
    var items := fetch(Range(a, m)).items;
    assert |items| == m - a && ItemsFrom(item, a, items);
    ItemsAppend(item, a, items, rest);
  }

  /** With a height-faithful fetcher the items delivered for `a..b` are those of `a..cut`, where `cut` is the start
      of the first chunk that fails, or the end of the range if none does. */
  lemma {:induction false} CutAtFirstFailedChunk<T>(item: nat -> T, fetch: Range -> Fetch<T>, a: u32, b: u32)
      returns (cut: u32, k: nat)
    requires ItemFaithful(item, fetch)
    ensures DeliversUpTo(item, fetch, a, b, k, cut)
    decreases if a < b then b - a else 0
  {
    cut, k := a, 0;
    if b <= a {
      assert Ranges(a, b) == [];
    } else {
      var m: u32 := Min(a + CHUNK, b);
      if fetch(Range(a, m)).FetchError? {
        FirstChunkFails(item, fetch, a, b);
      } else {
        cut, k := CutAtFirstFailedChunk(item, fetch, m, b);
        FirstChunkArrives(item, fetch, a, m, b, k, cut);
        k := k + 1;
      }
    }
  }

  // ---------------------------------------------------------------- the forwarding task

  function Concat<T>(results: seq<Fetch<T>>): seq<T> {
    if |results| == 0 || results[0].FetchError? then [] else results[0].items + Concat(results[1..])
  }

  /** In order, the answers to the requests are forwarded to what a sequential fetch would give. */
  lemma {:induction false} ForwardedIsSequential<T>(fetch: Range -> Fetch<T>, rs: seq<Range>)
    ensures Concat(seq(|rs|, i requires 0 <= i < |rs| => fetch(rs[i]))) == Sequential(fetch, rs)
    decreases |rs|
  {
    var results := seq(|rs|, i requires 0 <= i < |rs| => fetch(rs[i]));
    if |rs| == 0 {
    } else {
      var rest := rs[1..];
      assert results[1..] == seq(|rest|, i requires 0 <= i < |rest| => fetch(rest[i]));
      ForwardedIsSequential(fetch, rest);
    }
  }

  /** The items of `all` a receiver gets if it takes `accepted` of them and is then gone. */
  function Received<T>(all: seq<T>, accepted: nat): seq<T> {
    all[..Min(accepted, |all|)]
  }

  /** The inner loop: send the items of one chunk after what has been sent for `seen`. */
  method SendChunk<T>(ghost seen: seq<T>, sent: seq<T>, items: seq<T>, accepted: nat) returns (now: seq<T>)
    requires sent == Received(seen, accepted)
    ensures now == Received(seen + items, accepted)
  {
    now := sent;
    var j := 0;
    while j < |items|
      invariant 0 <= j <= |items|
      invariant now == Received(seen + items[..j], accepted)
    {
      if |now| >= accepted {
        return;
      }
      assert (seen + items[..j]) + [items[j]] == seen + items[..j + 1];
      now := now + [items[j]];
      j := j + 1;
    }
    assert items[..j] == items;
  }

  /** The spawned task: forward the items of each chunk to the receiver until a chunk fails. A failed send
      leaves only the inner loop, but a receiver that is gone stays gone, so nothing is skipped: what arrives
      is a prefix of all items, as long as the receiver lasted. */
  method Forward<T>(results: seq<Fetch<T>>, accepted: nat) returns (sent: seq<T>)
    ensures sent == Received(Concat(results), accepted)
  {
    sent := [];
    var i := 0;
    ghost var seen: seq<T> := [];
    while i < |results| && results[i].Fetched?
      invariant 0 <= i <= |results|
      invariant seen + Concat(results[i..]) == Concat(results)
      invariant sent == Received(seen, accepted)
    {
      var items := results[i].items;
      assert results[i..][0] == results[i] && results[i..][1..] == results[i + 1..];
      assert (seen + items) + Concat(results[i + 1..]) == seen + Concat(results[i..]);
      sent := SendChunk(seen, sent, items, accepted);
      seen := seen + items;
      i := i + 1;
    }
    assert Concat(results[i..]) == [];
  }

  // ---------------------------------------------------------------- what a receiver has

  /** What a fetch of `start..target` has delivered after some steps. */
  ghost function Fetching<T>(fetch: Range -> Fetch<T>, start: u32, target: u32, steps: seq<Step>): Buffer<T>
    requires Execution(fetch, Ranges(start, target), Open(), steps)
  {
    Execute(fetch, Ranges(start, target), Open(), steps)
  }

  /** Everything asked for has been answered and received. */
  ghost predicate AllReceived<T>(s: Buffer<T>, accepted: nat) {
    s.closed && accepted >= |s.delivered|
  }

  /** What the receiver gets of a height-faithful fetch, at any moment and however many items it takes: the items of
      `start..cut`, where `cut` is never above the target; and if the fetch has closed and the receiver takes all,
      `cut` is the target or the start of the first chunk that failed. */
  lemma ReceivedRange<T>(item: nat -> T, fetch: Range -> Fetch<T>, start: u32, target: u32, steps: seq<Step>,
                         accepted: nat) returns (items: seq<T>, cut: u32, k: nat)
    requires ItemFaithful(item, fetch) && Execution(fetch, Ranges(start, target), Open(), steps)
    ensures items == Received(Fetching(fetch, start, target, steps).delivered, accepted)
    ensures start <= cut <= End(start, target) && |items| == cut - start && ItemsFrom(item, start, items)
    ensures AllReceived(Fetching(fetch, start, target, steps), accepted) ==>
      CutAt(fetch, Ranges(start, target), End(start, target), k, cut)
  {
    RefinesSequential(fetch, Ranges(start, target), steps);
    cut, k := CutAtFirstFailedChunk(item, fetch, start, target);
    items := Received(Fetching(fetch, start, target, steps).delivered, accepted);
    cut := start + |items|;
  }
}
