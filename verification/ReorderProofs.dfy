/** What the downloader emits, in terms of what has been pushed into the reorder buffer. */
module ReorderProofs {
  import opened Wrappers
  import opened Codec
  import opened Downloader
  import BB = BlockBuffer

  // ---------------------------------------------------------------- what has been pushed

  ghost predicate PushedIn(pushed: seq<CompressedBlock>, h: u32) {
    exists i :: 0 <= i < |pushed| && pushed[i].height == h
  }

  ghost predicate AllPushed(pushed: seq<CompressedBlock>, start: u32, h: nat) {
    forall g: u32 | start <= g <= h :: PushedIn(pushed, g)
  }

  /** The last block pushed for height h. */
  ghost function Latest(pushed: seq<CompressedBlock>, h: u32): (b: CompressedBlock)
    requires PushedIn(pushed, h)
    ensures b in pushed && b.height == h
    decreases |pushed|
  {
    var last := pushed[|pushed| - 1];
    if last.height == h then last
    else
      assert PushedIn(pushed[..|pushed| - 1], h) by {
        var i :| 0 <= i < |pushed| && pushed[i].height == h;
        assert pushed[..|pushed| - 1][i].height == h;
      }
      Latest(pushed[..|pushed| - 1], h)
  }

  lemma PushedInStep(pushed: seq<CompressedBlock>, b: CompressedBlock, h: u32)
    ensures PushedIn(pushed + [b], h) <==> PushedIn(pushed, h) || b.height == h
  {
    var all := pushed + [b];
    if PushedIn(pushed, h) {
      var i :| 0 <= i < |pushed| && pushed[i].height == h;
      assert all[i].height == h;
    }
    if b.height == h { assert all[|pushed|].height == h; }
  }

  lemma PushedStep(pushed: seq<CompressedBlock>, b: CompressedBlock, h: u32)
    ensures PushedIn(pushed + [b], h) <==> PushedIn(pushed, h) || b.height == h
    ensures PushedIn(pushed + [b], h) ==>
      Latest(pushed + [b], h) == if b.height == h then b else Latest(pushed, h)
  {
    PushedInStep(pushed, b, h);
    assert (pushed + [b])[..|pushed|] == pushed;
  }

  /** `b` is the latest version of height h. */
  ghost predicate IsLatest(pushed: seq<CompressedBlock>, h: u32, b: CompressedBlock) {
    PushedIn(pushed, h) && b == Latest(pushed, h)
  }

  // ---------------------------------------------------------------- pushing, pruning, draining

  /** The buffer holds the latest version of every pushed height from `next` on, and nothing unpushed. */
  ghost predicate Mirrors(pushed: seq<CompressedBlock>, m: BB.Blocks, next: u32) {
    && (forall h | h in m :: IsLatest(pushed, h, m[h]))
    && (forall h: u32 | PushedIn(pushed, h) && h >= next :: h in m)
  }

  function PushSeq(m: BB.Blocks, batch: seq<CompressedBlock>): BB.Blocks
    decreases |batch|
  {
    if |batch| == 0 then m else PushSeq(BB.Pushed(m, batch[0]), batch[1..])
  }

  lemma PushOneKeepsMirror(pushed: seq<CompressedBlock>, m: BB.Blocks, next: u32, b: CompressedBlock)
    requires Mirrors(pushed, m, next)
    ensures Mirrors(pushed + [b], BB.Pushed(m, b), next)
  {
    var n := BB.Pushed(m, b);
    forall h: u32 | PushedIn(pushed + [b], h) && h >= next ensures h in n {
      PushedStep(pushed, b, h);
    }
    forall h | h in n ensures IsLatest(pushed + [b], h, n[h]) {
      PushedStep(pushed, b, h);
      assert h in m || h == b.height;
    }
  }

  lemma {:induction false} PushKeepsMirror(pushed: seq<CompressedBlock>, m: BB.Blocks, next: u32,
                                           batch: seq<CompressedBlock>)
    requires Mirrors(pushed, m, next)
    ensures Mirrors(pushed + batch, PushSeq(m, batch), next)
    decreases |batch|
  {
    if |batch| == 0 {
      assert pushed + batch == pushed;
    } else {
      var b := batch[0];
      PushOneKeepsMirror(pushed, m, next, b);
      PushKeepsMirror(pushed + [b], BB.Pushed(m, b), next, batch[1..]);
      assert pushed + [b] + batch[1..] == pushed + batch;
    }
  }

  /** Push a batch of decoded blocks, prune, drain. */
  function AbsorbBlocks(s: State, batch: seq<CompressedBlock>): (State, Outcome) {
    Drain(s.(blocks := BB.SplitOff(PushSeq(s.blocks, batch), s.nextFuelBlock)))
  }

  /** In the middle of draining: heights from `start` up to the next one are sent, and every pushed height
      from there on is in the buffer. */
  ghost predicate Draining(start: u32, pushed: seq<CompressedBlock>, s: State) {
    && start <= s.nextFuelBlock
    && |s.sent| == s.nextFuelBlock - start
    && (forall i | 0 <= i < |s.sent| :: s.sent[i].height == start + i)
    && (forall h: u32 | start <= h < s.nextFuelBlock :: PushedIn(pushed, h))
    && Mirrors(pushed, s.blocks, s.nextFuelBlock)
    && (forall h | h in s.blocks :: h >= s.nextFuelBlock)
  }

  /** Between bundles: the buffer's keys are exactly the pushed heights above the next one, which itself has
      not been pushed; everything below it from `start` on has been pushed and sent once, in order. */
  ghost predicate Reordered(start: u32, pushed: seq<CompressedBlock>, s: State) {
    && start <= s.nextFuelBlock
    && |s.sent| == s.nextFuelBlock - start
    && (forall i | 0 <= i < |s.sent| :: s.sent[i].height == start + i)
    && (forall h: u32 | start <= h < s.nextFuelBlock :: PushedIn(pushed, h))
    && !PushedIn(pushed, s.nextFuelBlock)
    && (forall h: u32 :: h in s.blocks <==> PushedIn(pushed, h) && h > s.nextFuelBlock)
    && (forall h | h in s.blocks :: IsLatest(pushed, h, s.blocks[h]))
  }

  /** All of u32 from `start` on has been pushed and sent. */
  ghost predicate Exhausted(start: u32, pushed: seq<CompressedBlock>, s: State) {
    && |s.sent| == U32_MAX + 1 - start
    && (forall i | 0 <= i < |s.sent| :: s.sent[i].height == start + i)
    && (forall h: u32 | start <= h :: PushedIn(pushed, h))
  }

  lemma SendKeepsSent(start: u32, pushed: seq<CompressedBlock>, s: State)
    requires Draining(start, pushed, s) && FirstKeyIs(s.blocks, s.nextFuelBlock) && s.room > 0
    ensures var t := SendHead(s); var n := s.nextFuelBlock;
      && |t.sent| == n + 1 - start
      && (forall i | 0 <= i < |t.sent| :: t.sent[i].height == start + i)
      && (forall h: u32 | start <= h <= n :: PushedIn(pushed, h))
  {
    assert IsLatest(pushed, s.nextFuelBlock, s.blocks[s.nextFuelBlock]);
  }

  lemma SendKeepsDraining(start: u32, pushed: seq<CompressedBlock>, s: State)
    requires Draining(start, pushed, s) && FirstKeyIs(s.blocks, s.nextFuelBlock) && s.room > 0
    requires s.nextFuelBlock < U32_MAX
    ensures Draining(start, pushed, SendHead(s).(nextFuelBlock := s.nextFuelBlock + 1))
  {
    SendKeepsSent(start, pushed, s);
    SendKeepsMirror(pushed, s);
  }

  lemma SendKeepsMirror(pushed: seq<CompressedBlock>, s: State)
    requires Mirrors(pushed, s.blocks, s.nextFuelBlock) && forall h | h in s.blocks :: h >= s.nextFuelBlock
    requires s.nextFuelBlock in s.blocks && s.nextFuelBlock < U32_MAX
    ensures var blocks := Without(s.blocks, s.nextFuelBlock);
      Mirrors(pushed, blocks, s.nextFuelBlock + 1) && forall h | h in blocks :: h >= s.nextFuelBlock + 1
  {
    var blocks := Without(s.blocks, s.nextFuelBlock);
    forall h: u32 | PushedIn(pushed, h) && h > s.nextFuelBlock ensures h in blocks { assert h in s.blocks; }
    forall h | h in blocks ensures IsLatest(pushed, h, blocks[h]) && h > s.nextFuelBlock { assert h in s.blocks; }
  }

  lemma LastSendExhausts(start: u32, pushed: seq<CompressedBlock>, s: State)
    requires Draining(start, pushed, s) && FirstKeyIs(s.blocks, s.nextFuelBlock) && s.room > 0
    requires s.nextFuelBlock == U32_MAX
    ensures Exhausted(start, pushed, SendHead(s))
  {
    SendKeepsSent(start, pushed, s);
  }

  /** What a drain sends: the latest version of each height of the maximal pushed run. */
  ghost predicate SentLatest(start: u32, pushed: seq<CompressedBlock>, before: nat, sent: seq<CompressedBlock>) {
    && before <= |sent| <= U32_MAX + 1 - start
    && forall i | before <= i < |sent| :: LatestAt(start, pushed, sent, i)
  }

  ghost predicate LatestAt(start: u32, pushed: seq<CompressedBlock>, sent: seq<CompressedBlock>, i: nat)
    requires i < |sent| <= U32_MAX + 1 - start
  {
    IsLatest(pushed, start + i, sent[i])
  }

  lemma SendsLatest(start: u32, pushed: seq<CompressedBlock>, before: nat, s: State)
    requires Draining(start, pushed, s) && FirstKeyIs(s.blocks, s.nextFuelBlock) && s.room > 0
    requires SentLatest(start, pushed, before, s.sent)
    ensures SentLatest(start, pushed, before, SendHead(s).sent)
  {
    var t := SendHead(s);
    forall i | before <= i < |t.sent| ensures LatestAt(start, pushed, t.sent, i) {
      if i < |s.sent| { assert LatestAt(start, pushed, s.sent, i); }
    }
  }

  lemma DrainStops(start: u32, pushed: seq<CompressedBlock>, s: State)
    requires Draining(start, pushed, s) && !FirstKeyIs(s.blocks, s.nextFuelBlock)
    ensures Reordered(start, pushed, s)
  {
    assert s.nextFuelBlock !in s.blocks;
    forall h: u32 ensures h in s.blocks <==> PushedIn(pushed, h) && h > s.nextFuelBlock {
      if h in s.blocks { assert IsLatest(pushed, h, s.blocks[h]); }
    }
  }

  /** The result of draining `s`, with `before` blocks sent earlier. */
  ghost predicate DrainResult(start: u32, pushed: seq<CompressedBlock>, before: nat, s: State, t: State, r: Outcome) {
    && t.buffers == s.buffers && s.sent <= t.sent
    && t.room + |t.sent| == s.room + |s.sent|
    && SentLatest(start, pushed, before, t.sent)
    && (r.Ok? || r == Err(ReceiverGone) || r == Err(OutOfFuelBlockNumbers))
    && (r.Ok? ==> Reordered(start, pushed, t))
    && (r == Err(OutOfFuelBlockNumbers) ==> Exhausted(start, pushed, t))
    && (r == Err(ReceiverGone) ==>
          t.room == 0 && start + |t.sent| <= U32_MAX && AllPushed(pushed, start, start + |t.sent|))
  }

  lemma DrainFurther(start: u32, pushed: seq<CompressedBlock>, before: nat, s: State, m: State, t: State, r: Outcome)
    requires m.buffers == s.buffers && s.sent <= m.sent && m.room + |m.sent| == s.room + |s.sent|
    requires DrainResult(start, pushed, before, m, t, r)
    ensures DrainResult(start, pushed, before, s, t, r)
  {
  }

  /** The three ways the drain loop ends. */
  lemma DrainEnds(start: u32, pushed: seq<CompressedBlock>, before: nat, s: State)
    requires Draining(start, pushed, s) && SentLatest(start, pushed, before, s.sent)
    requires !FirstKeyIs(s.blocks, s.nextFuelBlock) || s.room == 0 || s.nextFuelBlock == U32_MAX
    ensures DrainResult(start, pushed, before, s, Drain(s).0, Drain(s).1)
  {
    if !FirstKeyIs(s.blocks, s.nextFuelBlock) {
      DrainStops(start, pushed, s);
    } else if s.room > 0 {
      SendsLatest(start, pushed, before, s);
      LastSendExhausts(start, pushed, s);
    } else {
      assert IsLatest(pushed, s.nextFuelBlock, s.blocks[s.nextFuelBlock]);
    }
  }

  /** One more send. */
  lemma DrainStep(start: u32, pushed: seq<CompressedBlock>, before: nat, s: State) returns (m: State)
    requires Draining(start, pushed, s) && SentLatest(start, pushed, before, s.sent)
    requires FirstKeyIs(s.blocks, s.nextFuelBlock) && s.room > 0 && s.nextFuelBlock < U32_MAX
    ensures Draining(start, pushed, m) && SentLatest(start, pushed, before, m.sent)
    ensures |m.blocks| < |s.blocks| && m.buffers == s.buffers && s.sent <= m.sent && Drain(s) == Drain(m)
    ensures m.room + |m.sent| == s.room + |s.sent|
  {
    m := SendHead(s).(nextFuelBlock := s.nextFuelBlock + 1);
    assert SentLatest(start, pushed, before, m.sent) by { SendsLatest(start, pushed, before, s); }
    assert Draining(start, pushed, m) by { SendKeepsDraining(start, pushed, s); }
    assert s.sent <= m.sent && m.room + |m.sent| == s.room + |s.sent|;
  }

  lemma {:induction false} DrainReorders(start: u32, pushed: seq<CompressedBlock>, before: nat, s: State)
    requires Draining(start, pushed, s) && SentLatest(start, pushed, before, s.sent)
    ensures DrainResult(start, pushed, before, s, Drain(s).0, Drain(s).1)
    decreases |s.blocks|
  {
    if !FirstKeyIs(s.blocks, s.nextFuelBlock) || s.room == 0 || s.nextFuelBlock == U32_MAX {
      DrainEnds(start, pushed, before, s);
    } else {
      var m := DrainStep(start, pushed, before, s);
      DrainReorders(start, pushed, before, m);
      DrainFurther(start, pushed, before, s, m, Drain(m).0, Drain(m).1);
    }
  }

  /** One complete bundle. */
  lemma AbsorbReorders(start: u32, pushed: seq<CompressedBlock>, s: State, batch: seq<CompressedBlock>)
    requires Reordered(start, pushed, s)
    ensures var (t, r) := AbsorbBlocks(s, batch);
      DrainResult(start, pushed + batch, |s.sent|, s, t, r)
  {
    var m := PushSeq(s.blocks, batch);
    PushKeepsMirror(pushed, s.blocks, s.nextFuelBlock, batch);
    var p := s.(blocks := BB.SplitOff(m, s.nextFuelBlock));
    forall h: u32 | PushedIn(pushed, h) ensures PushedIn(pushed + batch, h) {
      var i :| 0 <= i < |pushed| && pushed[i].height == h;
      assert (pushed + batch)[i].height == h;
    }
    DrainReorders(start, pushed + batch, |s.sent|, p);
  }

  // ---------------------------------------------------------------- whole runs of bundles

  function Flat(batches: seq<seq<CompressedBlock>>): seq<CompressedBlock>
    decreases |batches|
  {
    if |batches| == 0 then [] else Flat(batches[..|batches| - 1]) + batches[|batches| - 1]
  }

  /** Absorb bundle after bundle, up to the first error. */
  function AbsorbAll(s: State, batches: seq<seq<CompressedBlock>>): (State, Outcome)
    decreases |batches|
  {
    if |batches| == 0 then (s, Ok)
    else
      var (t, r) := AbsorbAll(s, batches[..|batches| - 1]);
      if r.Err? then (t, r) else AbsorbBlocks(t, batches[|batches| - 1])
  }

  /** How many bundles had been absorbed when the run from `start` to h was first complete. */
  ghost function DrainedAt(batches: seq<seq<CompressedBlock>>, start: u32, h: nat): (k: nat)
    ensures k <= |batches|
    decreases |batches|
  {
    if |batches| == 0 then 0
    else if AllPushed(Flat(batches[..|batches| - 1]), start, h) then DrainedAt(batches[..|batches| - 1], start, h)
    else |batches|
  }

  /** The i-th block sent is the latest version its height had when the run up to it was first complete. */
  ghost predicate VersionAt(start: u32, batches: seq<seq<CompressedBlock>>, sent: seq<CompressedBlock>, i: nat)
    requires i < |sent| <= U32_MAX + 1 - start
  {
    IsLatest(Flat(batches[..DrainedAt(batches, start, start + i)]), start + i, sent[i])
  }

  ghost predicate SentVersions(start: u32, batches: seq<seq<CompressedBlock>>, sent: seq<CompressedBlock>) {
    && |sent| <= U32_MAX + 1 - start
    && forall i | 0 <= i < |sent| :: VersionAt(start, batches, sent, i)
  }

  lemma {:induction false} FlatGrows(batches: seq<seq<CompressedBlock>>, k: nat, h: u32)
    requires k <= |batches| && PushedIn(Flat(batches[..k]), h)
    ensures PushedIn(Flat(batches), h)
    decreases |batches|
  {
    if k == |batches| {
      assert batches[..k] == batches;
    } else {
      var u := batches[..|batches| - 1];
      assert u[..k] == batches[..k];
      FlatGrows(u, k, h);
      var i :| 0 <= i < |Flat(u)| && Flat(u)[i].height == h;
      assert Flat(batches)[i].height == h;
    }
  }

  /** Later bundles do not change the version of what has been sent. */
  lemma VersionsStay(start: u32, batches: seq<seq<CompressedBlock>>, sent: seq<CompressedBlock>)
    requires |batches| > 0 && SentVersions(start, batches[..|batches| - 1], sent)
    ensures SentVersions(start, batches, sent)
  {
    var u := batches[..|batches| - 1];
    forall i | 0 <= i < |sent| ensures VersionAt(start, batches, sent, i) {
      assert VersionAt(start, u, sent, i);
      forall g: u32 | start <= g <= start + i ensures PushedIn(Flat(u), g) {
        assert VersionAt(start, u, sent, g - start);
        FlatGrows(u, DrainedAt(u, start, start + (g - start)), g);
      }
      assert AllPushed(Flat(u), start, start + i);
      assert u[..DrainedAt(u, start, start + i)] == batches[..DrainedAt(u, start, start + i)];
    }
  }

  lemma VersionsStep(start: u32, batches: seq<seq<CompressedBlock>>, s: State, sent: seq<CompressedBlock>)
    requires |batches| > 0
    requires var u := batches[..|batches| - 1];
      Reordered(start, Flat(u), s) && SentVersions(start, u, s.sent)
    requires s.sent <= sent && SentLatest(start, Flat(batches), |s.sent|, sent)
    ensures SentVersions(start, batches, sent)
  {
    var u := batches[..|batches| - 1];
    VersionsStay(start, batches, s.sent);
    forall i | 0 <= i < |sent| ensures VersionAt(start, batches, sent, i) {
      if i < |s.sent| {
        assert VersionAt(start, batches, s.sent, i);
      } else {
        assert LatestAt(start, Flat(batches), sent, i);
        assert !PushedIn(Flat(u), s.nextFuelBlock);
        assert !AllPushed(Flat(u), start, start + i);
        assert batches[..|batches|] == batches;
      }
    }
  }

  lemma VersionsAreOrdered(start: u32, batches: seq<seq<CompressedBlock>>, sent: seq<CompressedBlock>)
    requires SentVersions(start, batches, sent)
    ensures forall i | 0 <= i < |sent| :: sent[i].height == start + i
  {
    forall i | 0 <= i < |sent| ensures sent[i].height == start + i {
      assert VersionAt(start, batches, sent, i);
    }
  }

  /** The reorder buffer over any sequence of bundles: a gap-free run in order, each height once, in the
      version that was the latest when the run reached it. It ends only when the receiver is gone, after `room`
      blocks, or with the u32 heights. */
  lemma {:induction false} ReorderBuffer(start: u32, room: nat, batches: seq<seq<CompressedBlock>>)
    ensures var (t, r) := AbsorbAll(Init(start, room), batches);
      && SentVersions(start, batches, t.sent)
      && (forall i | 0 <= i < |t.sent| :: t.sent[i].height == start + i)
      && t.room + |t.sent| == room
      && (r.Ok? || r == Err(ReceiverGone) || r == Err(OutOfFuelBlockNumbers))
      && (r.Ok? ==> Reordered(start, Flat(batches), t))
      && (r == Err(ReceiverGone) ==> |t.sent| == room)
      && (r == Err(OutOfFuelBlockNumbers) ==> |t.sent| == U32_MAX + 1 - start)
    decreases |batches|
  {
    if |batches| == 0 {
    } else {
      var u := batches[..|batches| - 1];
      ReorderBuffer(start, room, u);
      var (s, r) := AbsorbAll(Init(start, room), u);
      if r.Ok? {
        AbsorbReorders(start, Flat(u), s, batches[|batches| - 1]);
        VersionsStep(start, batches, s, AbsorbBlocks(s, batches[|batches| - 1]).0.sent);
      } else {
        VersionsStay(start, batches, s.sent);
      }
    }
    VersionsAreOrdered(start, batches, AbsorbAll(Init(start, room), batches).0.sent);
  }
}
