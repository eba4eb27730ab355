/** How the download queue meets the tip of a truthful node's chain: where it stands when its first batch has drained,
and exactly which completion orders leave it polling cleanly. */
module DownloadQueueTip {
  import opened Wrappers
  import opened Codec
  import opened DownloadQueue
  import opened DownloadQueueProofs

  /** The first height a queue started at d cannot get from a chain that ends at `head`. */
  function Tip(d: nat, head: nat): nat { Max(d, head + 1) }

  ghost predicate AllTruthful(head: nat, evs: seq<Event>) {
    forall i | 0 <= i < |evs| :: FromChainEndingAt(head, evs[i])
  }

  function NotYets(evs: seq<Event>): nat {
    if |evs| == 0 then 0 else (if evs[0].reply.NotYet? then 1 else 0) + NotYets(evs[1..])
  }

  // ---------------------------------------------------------------- the batch

  ghost predicate Batching(s: State, d: nat, head: nat) {
    && Window(s) && Inv(s)
    && d <= s.nextToEmit <= Tip(d, head)
    && (forall h: nat | h in s.completed :: h <= head)
  }

  /** Emitting blocks of the chain stays on the chain. */
  lemma {:induction false} EmitStaysBelow(s: State, d: nat, head: nat, accepted: nat)
    requires d <= s.nextToEmit <= Tip(d, head) && forall h: nat | h in s.completed :: h <= head
    ensures var n := Emit(s, accepted);
      d <= n.nextToEmit <= Tip(d, head) && forall h: nat | h in n.completed :: h <= head
    decreases |s.completed|
  {
    if !FirstKeyIs(s.completed, s.nextToEmit) || accepted == 0 {
    } else {
      EmitStaysBelow(SendNext(s), d, head, accepted - 1);
    }
  }

  lemma BatchBlockStaysBelow(s: State, d: nat, head: nat, ev: Event)
    requires Batching(s, d, head) && Enabled(s, ev) && FromChainEndingAt(head, ev) && ev.task <= head
    ensures var n := Iterate(s, ev);
      d <= n.nextToEmit <= Tip(d, head) && forall h: nat | h in n.completed :: h <= head
  {
    RefillFillsWindow(s);
    var r := Refill(s);
    EmitStaysBelow(Joined(r, ev.task).(completed := r.completed[ev.task := ev.reply.block]), d, head, ev.accepted);
  }

  lemma BatchBlock(s: State, d: nat, head: nat, ev: Event) returns (n: State)
    requires Batching(s, d, head) && Enabled(s, ev) && FromChainEndingAt(head, ev) && ev.task <= head
    requires Iterate(s, ev).running
    ensures n == Iterate(s, ev) && Batching(n, d, head)
  {
    n := Iterate(s, ev);
    BatchBlockStaysBelow(s, d, head, ev);
    IterateKeepsWindow(s, ev);
    IterateKeepsInv(s, ev);
  }

  // ---------------------------------------------------------------- draining

  /** Polling, after k "not yet" replies to a batch that reached up to `top`: every height of the chain from the next
      one on is held, nothing below is, and every request not held any more has been answered with "not yet". */
  ghost predicate Tracked(s: State, d: nat, head: nat, top: nat, k: nat) {
    && s.mode.Poll? && s.running && k >= 1
    && d <= s.nextToEmit <= Tip(d, head)
    && (forall h: nat :: s.pending[h] <= 1)
    && (forall h: nat | h in s.pending :: h !in s.completed)
    && (forall h: nat | s.nextToEmit <= h < Tip(d, head) :: Held(s, h))
    && (forall h: nat | Held(s, h) :: s.nextToEmit <= h)
    && (forall h: nat | h in s.completed :: h <= head)
    && s.Load() == top - s.nextToEmit - k
    && (if k == 1 then s.nextDaHeight == top else d <= s.nextDaHeight <= s.nextToEmit)
  }

  /** Between passes. `found` says that the last reply was a block. */
  ghost predicate Draining(s: State, d: nat, head: nat, top: nat, k: nat, found: bool) {
    && Tracked(s, d, head, top, k) && s.nextToEmit !in s.completed
    && (k == 1 && s.pending == multiset{} ==> found)
    && (k >= 2 && !found ==> s.nextDaHeight == s.nextToEmit)
    && (k >= 2 && found && s.pending == multiset{} ==> s.nextDaHeight < s.nextToEmit)
  }

  /** With nothing in flight, the whole chain has been emitted and nothing is held. */
  lemma EmptyIsAtTip(s: State, d: nat, head: nat, top: nat, k: nat)
    requires Tracked(s, d, head, top, k) && s.nextToEmit !in s.completed && s.pending == multiset{}
    ensures s.nextToEmit == Tip(d, head) && s.completed == map[] && s.Load() == 0
  {
    assert s.nextToEmit < Tip(d, head) ==> Held(s, s.nextToEmit);
    forall h: nat ensures h !in s.completed { assert h in s.completed ==> Held(s, h); }
    assert s.completed == map[];
  }

  lemma SendKeepsTracked(s: State, d: nat, head: nat, top: nat, k: nat)
    requires Tracked(s, d, head, top, k) && FirstKeyIs(s.completed, s.nextToEmit)
    ensures Tracked(SendNext(s), d, head, top, k)
  {
    var n := SendNext(s);
    forall h: nat | n.nextToEmit <= h < Tip(d, head) ensures Held(n, h) { assert Held(s, h); }
    forall h: nat | Held(n, h) ensures n.nextToEmit <= h { assert Held(s, h); }
  }

  lemma {:induction false} EmitKeepsTracked(s: State, d: nat, head: nat, top: nat, k: nat, accepted: nat)
      returns (n: State)
    requires Tracked(s, d, head, top, k) && Emit(s, accepted).running
    ensures n == Emit(s, accepted) && Tracked(n, d, head, top, k) && n.nextToEmit !in n.completed
    ensures n.pending == s.pending && n.nextDaHeight == s.nextDaHeight
    decreases |s.completed|
  {
    if !FirstKeyIs(s.completed, s.nextToEmit) || accepted == 0 {
      n := s;
      forall h: nat | h in s.completed ensures s.nextToEmit <= h { assert Held(s, h); }
    } else {
      SendKeepsTracked(s, d, head, top, k);
      n := EmitKeepsTracked(SendNext(s), d, head, top, k, accepted - 1);
    }
  }

  lemma FileKeepsTracked(s: State, d: nat, head: nat, top: nat, k: nat, task: nat, block: L1Block)
    requires Tracked(s, d, head, top, k) && task in s.pending && task <= head
    ensures Tracked(Joined(s, task).(completed := s.completed[task := block]), d, head, top, k)
  {
    var c := Joined(s, task).(completed := s.completed[task := block]);
    assert |c.completed| == |s.completed| + 1 && |c.pending| == |s.pending| - 1;
    forall h: nat ensures Held(c, h) <==> Held(s, h) {}
  }

  /** While requests are in flight: a block. */
  lemma DrainBlock(s: State, d: nat, head: nat, top: nat, k: nat, found: bool, ev: Event) returns (n: State)
    requires Draining(s, d, head, top, k, found) && s.pending != multiset{}
    requires Enabled(s, ev) && FromChainEndingAt(head, ev) && ev.task <= head && Iterate(s, ev).running
    ensures n == Iterate(s, ev) && Draining(n, d, head, top, k, true)
  {
    assert Refill(s) == s;
    assert Held(s, ev.task);
    var c := Joined(s, ev.task).(completed := s.completed[ev.task := ev.reply.block]);
    FileKeepsTracked(s, d, head, top, k, ev.task, ev.reply.block);
    n := EmitKeepsTracked(c, d, head, top, k, ev.accepted);
    if n.pending == multiset{} { EmptyIsAtTip(n, d, head, top, k); }
  }

  /** A request above the chain can go without anything of the chain being lost. */
  lemma DropKeepsHeld(s: State, n: State, d: nat, head: nat, task: nat)
    requires n.completed == s.completed && n.pending == s.pending - multiset{task} && n.nextToEmit == s.nextToEmit
    requires d <= s.nextToEmit && head < task
    requires forall h: nat | s.nextToEmit <= h < Tip(d, head) :: Held(s, h)
    requires forall h: nat | Held(s, h) :: s.nextToEmit <= h
    ensures forall h: nat | n.nextToEmit <= h < Tip(d, head) :: Held(n, h)
    ensures forall h: nat | Held(n, h) :: n.nextToEmit <= h
  {
    forall h: nat | n.nextToEmit <= h < Tip(d, head) ensures Held(n, h) { assert Held(s, h); }
    forall h: nat | Held(n, h) ensures n.nextToEmit <= h { assert Held(s, h); }
  }

  /** While requests are in flight: "not yet". */
  lemma DrainNotYet(s: State, d: nat, head: nat, top: nat, k: nat, found: bool, ev: Event) returns (n: State)
    requires Draining(s, d, head, top, k, found) && s.pending != multiset{}
    requires Enabled(s, ev) && FromChainEndingAt(head, ev) && ev.task > head
    ensures n == Iterate(s, ev) && Draining(n, d, head, top, k + 1, false)
  {
    assert Refill(s) == s;
    n := Joined(s, ev.task).(nextDaHeight := s.nextToEmit);
    DropKeepsHeld(s, n, d, head, ev.task);
  }

  /** The first "not yet" of a batch. */
  lemma BatchNotYet(s: State, d: nat, head: nat, ev: Event) returns (n: State, top: nat)
    requires Batching(s, d, head) && Enabled(s, ev) && FromChainEndingAt(head, ev) && ev.task > head
    ensures n == Iterate(s, ev) && Draining(n, d, head, top, 1, false)
  {
    RefillFillsWindow(s);
    RefillKeepsInv(s);
    var r := Refill(s);
    n, top := Joined(r, ev.task).(mode := Poll), r.nextDaHeight;
    WindowDrops(r, n, d, head, ev.task);
    assert Emit(n, ev.accepted) == n;
  }

  lemma WindowDrops(r: State, n: State, d: nat, head: nat, task: nat)
    requires Window(r) && Inv(r) && r.nextDaHeight == r.nextToEmit + 8 && r.nextToEmit in r.pending
    requires d <= r.nextToEmit <= Tip(d, head) && forall h: nat | h in r.completed :: h <= head
    requires task in r.pending && head < task && n == Joined(r, task).(mode := Poll)
    ensures Draining(n, d, head, r.nextDaHeight, 1, false)
  {
    assert Held(r, task);
    DropKeepsHeld(r, n, d, head, task);
    assert n.pending != multiset{} by { AnotherInFlight(r, head, task); }
  }

  /** The first reply of a full batch that is "not yet" is not its only request. */
  lemma AnotherInFlight(r: State, head: nat, task: nat)
    requires Window(r) && r.nextDaHeight == r.nextToEmit + 8 && r.nextToEmit in r.pending
    requires (forall h: nat | h in r.completed :: h <= head) && task in r.pending && head < task
    ensures r.pending - multiset{task} != multiset{}
  {
    if r.pending == multiset{task} {
      forall h: nat ensures h !in r.completed { assert h in r.completed ==> Held(r, h); }
      NothingCompleted(r);
      assert false;
    }
    assert r.pending == (r.pending - multiset{task}) + multiset{task};
  }

  lemma NothingCompleted(r: State)
    requires forall h: nat :: h !in r.completed
    ensures r.Load() == |r.pending|
  {
    assert r.completed == map[];
  }

  // ---------------------------------------------------------------- after the batch has drained

  /** An empty polling queue asks for one height. */
  lemma EmptyAsks(s: State, ev: Event) returns (n: State)
    requires s.mode.Poll? && s.running && s.Load() == 0 && Enabled(s, ev)
    requires ev.reply.NotYet? || (ev.reply.Found? && ev.reply.block.number == ev.task != s.nextToEmit)
    ensures n == Iterate(s, ev) && ev.task == s.nextDaHeight
    ensures n == if ev.reply.NotYet? then s.(nextDaHeight := s.nextToEmit)
                 else s.(completed := map[ev.task := ev.reply.block], nextDaHeight := s.nextDaHeight + 1)
  {
    NothingHeld(s);
    var r := Spawn(s);
    assert r.Load() == 1 && Refill(s) == Refill(r) == r;
    assert r.pending == multiset{s.nextDaHeight};
    n := Iterate(s, ev);
    if ev.reply.Found? {
      var c := Joined(r, ev.task).(completed := r.completed[ev.task := ev.reply.block]);
      assert s.nextToEmit !in c.completed;
      assert c.completed == map[ev.task := ev.reply.block];
    }
  }

  /** Nothing in flight, a block waiting that can never be emitted. */
  ghost predicate Stuck(s: State, tip: nat) {
    && s.mode.Poll? && s.running && s.pending == multiset{} && s.completed != map[]
    && s.nextToEmit == tip && s.nextToEmit !in s.completed
  }

  lemma StuckStays(s: State, tip: nat, ev: Event)
    requires Stuck(s, tip)
    ensures Iterate(s, ev) == s && Frozen(s)
  {
    var j :| j in s.completed;
    assert |s.completed.Keys - {j}| == |s.completed| - 1;
    assert Refill(s) == s;
  }

  /** The next request of a drained batch: for a height already emitted, which sticks; or for one above the chain,
      after which the queue polls cleanly. */
  lemma DrainedAsks(s: State, d: nat, head: nat, top: nat, k: nat, found: bool, ev: Event) returns (n: State)
    requires Draining(s, d, head, top, k, found) && s.pending == multiset{}
    requires Enabled(s, ev) && FromChainEndingAt(head, ev)
    ensures n == Iterate(s, ev)
    ensures if k >= 2 && found then ev.reply.Found? && Stuck(n, Tip(d, head))
            else ev.reply.NotYet? && CleanPoll(n) && n.nextToEmit == Tip(d, head)
  {
    EmptyIsAtTip(s, d, head, top, k);
    AsksFor(s, ev);
    n := EmptyAsks(s, ev);
    NothingHeld(s);
    if ev.reply.Found? { assert ev.task in n.completed; }
  }

  lemma AsksFor(s: State, ev: Event)
    requires s.mode.Poll? && s.running && s.Load() == 0 && Enabled(s, ev)
    ensures ev.task == s.nextDaHeight
  {
    NothingHeld(s);
    var r := Spawn(s);
    assert r.Load() == 1 && Refill(s) == Refill(r) == r;
    assert r.pending == multiset{s.nextDaHeight};
  }

  lemma CleanAsks(s: State, d: nat, head: nat, ev: Event) returns (n: State)
    requires CleanPoll(s) && s.nextToEmit == Tip(d, head) && Enabled(s, ev) && FromChainEndingAt(head, ev)
    ensures n == Iterate(s, ev) && ev.reply.NotYet? && CleanPoll(n) && n.nextToEmit == Tip(d, head)
  {
    AsksFor(s, ev);
    n := EmptyAsks(s, ev);
  }

  // ---------------------------------------------------------------- whole runs

  /** Where a polling queue stands after k "not yet" replies, the last reply having been a block or not. */
  ghost predicate Polling(s: State, d: nat, head: nat, k: nat, found: bool) {
    || (exists top :: Draining(s, d, head, top, k, found))
    || (CleanPoll(s) && s.nextToEmit == Tip(d, head) && k >= 2 && !found)
    || Stuck(s, Tip(d, head))
  }

  function After(k: nat, ev: Event): nat { if ev.reply.NotYet? then k + 1 else k }

  lemma DrainingStep(s: State, d: nat, head: nat, top: nat, k: nat, found: bool, ev: Event) returns (n: State)
    requires Draining(s, d, head, top, k, found) && s.pending != multiset{}
    requires Enabled(s, ev) && FromChainEndingAt(head, ev) && Iterate(s, ev).running
    ensures n == Iterate(s, ev) && Draining(n, d, head, top, After(k, ev), ev.reply.Found?)
  {
    if ev.task <= head {
      n := DrainBlock(s, d, head, top, k, found, ev);
    } else {
      n := DrainNotYet(s, d, head, top, k, found, ev);
    }
  }

  lemma PollingStep(s: State, d: nat, head: nat, k: nat, found: bool, ev: Event) returns (n: State)
    requires Polling(s, d, head, k, found) && Enabled(s, ev) && FromChainEndingAt(head, ev) && Iterate(s, ev).running
    ensures n == Iterate(s, ev) && Polling(n, d, head, After(k, ev), ev.reply.Found?)
  {
    if top :| Draining(s, d, head, top, k, found) {
      if s.pending == multiset{} {
        n := DrainedAsks(s, d, head, top, k, found, ev);
        assert k == 1 ==> found;
      } else {
        n := DrainingStep(s, d, head, top, k, found, ev);
      }
    } else if Stuck(s, Tip(d, head)) {
      StuckStays(s, Tip(d, head), ev);
      n := s;
    } else {
      n := CleanAsks(s, d, head, ev);
    }
  }

  predicate LastIsBlock(evs: seq<Event>) { |evs| > 0 && evs[|evs| - 1].reply.Found? }

  lemma FirstReply(evs: seq<Event>)
    requires |evs| > 0
    ensures NotYets(evs) == After(NotYets(evs[1..]), evs[0])
    ensures LastIsBlock(evs) == if |evs[1..]| == 0 then evs[0].reply.Found? else LastIsBlock(evs[1..])
  {
  }

  lemma {:induction false} PollingRun(s: State, d: nat, head: nat, k: nat, found: bool, evs: seq<Event>)
      returns (k': nat, found': bool)
    requires Polling(s, d, head, k, found) && Schedule(s, evs) && AllTruthful(head, evs) && Run(s, evs).running
    ensures k' == k + NotYets(evs) && found' == if |evs| == 0 then found else LastIsBlock(evs)
    ensures Polling(Run(s, evs), d, head, k', found')
    decreases |evs|
  {
    if |evs| == 0 {
      k', found' := k, found;
    } else {
      var ev, rest := evs[0], evs[1..];
      if !Iterate(s, ev).running { StoppedStays(Iterate(s, ev), rest); }
      var n := PollingStep(s, d, head, k, found, ev);
      FirstReply(evs);
      k', found' := PollingRun(n, d, head, After(k, ev), ev.reply.Found?, rest);
    }
  }

  lemma {:induction false} BatchRun(s: State, d: nat, head: nat, evs: seq<Event>) returns (k: nat, found: bool)
    requires Batching(s, d, head) && Schedule(s, evs) && AllTruthful(head, evs) && Run(s, evs).running
    requires Run(s, evs).mode.Poll?
    ensures k == NotYets(evs) && found == LastIsBlock(evs) && Polling(Run(s, evs), d, head, k, found)
    decreases |evs|
  {
    var ev, rest := evs[0], evs[1..];
    if !Iterate(s, ev).running { StoppedStays(Iterate(s, ev), rest); }
    FirstReply(evs);
    if ev.task <= head {
      var n := BatchBlock(s, d, head, ev);
      k, found := BatchRun(n, d, head, rest);
    } else {
      var n := BatchPolls(s, d, head, ev);
      k, found := PollingRun(n, d, head, 1, false, rest);
    }
  }

  lemma BatchPolls(s: State, d: nat, head: nat, ev: Event) returns (n: State)
    requires Batching(s, d, head) && Enabled(s, ev) && FromChainEndingAt(head, ev) && ev.task > head
    ensures n == Iterate(s, ev) && Polling(n, d, head, 1, false)
  {
    var top: nat;
    n, top := BatchNotYet(s, d, head, ev);
  }

  /** Over every completion order of the answers of a truthful node whose chain ends at `head`: when the polling queue
      has nothing in flight, it has emitted everything up to `head`. If it has drained, its next request is for a
      height already emitted, and leaves it frozen, if and only if the last reply was a block and at least two
      "not yet" replies came before; otherwise the next reply is "not yet" and leaves it polling cleanly. */
  lemma DrainedBatchFreezesExactlyWhen(d: nat, head: nat, evs: seq<Event>)
    requires Schedule(Start(d), evs) && AllTruthful(head, evs)
    requires var s := Run(Start(d), evs); s.running && s.mode.Poll? && s.pending == multiset{}
    ensures var s := Run(Start(d), evs); var freezes := LastIsBlock(evs) && NotYets(evs) >= 2;
      && s.nextToEmit == Tip(d, head) == d + |s.emitted|
      && (s.completed == map[] ==>
            && (s.nextDaHeight < s.nextToEmit <==> freezes)
            && forall ev | Enabled(s, ev) && FromChainEndingAt(head, ev) ::
                 if freezes then Frozen(Iterate(s, ev)) else CleanPoll(Iterate(s, ev)))
  {
    assert Batching(Start(d), d, head);
    RunOrdered(d, Start(d), evs);
    var k, found := BatchRun(Start(d), d, head, evs);
    SettledAt(Run(Start(d), evs), d, head, k, found);
  }

  lemma SettledAt(s: State, d: nat, head: nat, k: nat, found: bool)
    requires Polling(s, d, head, k, found) && s.pending == multiset{}
    ensures s.nextToEmit == Tip(d, head)
    ensures s.completed == map[] ==>
      && (s.nextDaHeight < s.nextToEmit <==> found && k >= 2)
      && forall ev | Enabled(s, ev) && FromChainEndingAt(head, ev) ::
           if found && k >= 2 then Frozen(Iterate(s, ev)) else CleanPoll(Iterate(s, ev))
  {
    if top :| Draining(s, d, head, top, k, found) {
      EmptyIsAtTip(s, d, head, top, k);
      forall ev | Enabled(s, ev) && FromChainEndingAt(head, ev)
        ensures if found && k >= 2 then Frozen(Iterate(s, ev)) else CleanPoll(Iterate(s, ev))
      {
        var n := DrainedAsks(s, d, head, top, k, found, ev);
      }
    } else if CleanPoll(s) {
      forall ev | Enabled(s, ev) && FromChainEndingAt(head, ev) ensures CleanPoll(Iterate(s, ev)) {
        var n := CleanAsks(s, d, head, ev);
      }
    }
  }
}
