/** What every schedule of the download queue keeps, and exactly when the queue can still make progress. */
module DownloadQueueProofs {
  import opened Wrappers
  import opened Codec
  import opened DownloadQueue

  // ---------------------------------------------------------------- shapes of the two inner loops

  /** The refill loop requests consecutive heights, as many as are missing to the limit. */
  lemma {:induction false} RefillShape(s: State)
    ensures var r := Refill(s);
      && r == s.(pending := r.pending, nextDaHeight := r.nextDaHeight)
      && r.Load() == (if s.Load() < s.mode.Concurrency() then s.mode.Concurrency() else s.Load())
      && r.nextDaHeight - s.nextDaHeight == r.Load() - s.Load()
      && forall h: nat :: r.pending[h] == s.pending[h] + if s.nextDaHeight <= h < r.nextDaHeight then 1 else 0
    decreases s.mode.Concurrency() - s.Load()
  {
    if s.Load() >= s.mode.Concurrency() {
    } else {
      RefillShape(Spawn(s));
    }
  }

  /** The emit loop leaves the request side of the queue alone. */
  lemma {:induction false} EmitFrame(s: State, accepted: nat)
    ensures var r := Emit(s, accepted);
      r == s.(completed := r.completed, nextToEmit := r.nextToEmit, emitted := r.emitted, running := r.running)
    ensures s.nextToEmit <= Emit(s, accepted).nextToEmit
    ensures Emit(s, accepted).running ==> s.running
    decreases |s.completed|
  {
    if !FirstKeyIs(s.completed, s.nextToEmit) || accepted == 0 {
    } else {
      EmitFrame(SendNext(s), accepted - 1);
    }
  }

  /** Nothing is lost: a completed height stays completed or has been emitted. */
  lemma {:induction false} EmitLosesNothing(s: State, accepted: nat, k: nat)
    requires Emit(s, accepted).running && k in s.completed
    ensures k in Emit(s, accepted).completed || s.nextToEmit <= k < Emit(s, accepted).nextToEmit
    decreases |s.completed|
  {
    EmitFrame(s, accepted);
    if !FirstKeyIs(s.completed, s.nextToEmit) || accepted == 0 {
    } else {
      EmitFrame(SendNext(s), accepted - 1);
      if k != s.nextToEmit {
        EmitLosesNothing(SendNext(s), accepted - 1, k);
      }
    }
  }

  // ---------------------------------------------------------------- any provider

  /** Everything emitted so far is start, start + 1, ... and completed blocks are filed under their number. */
  ghost predicate Ordered(start: nat, s: State) {
    && start + |s.emitted| == s.nextToEmit
    && (forall i | 0 <= i < |s.emitted| :: s.emitted[i].number == start + i)
    && (forall k: nat | k in s.completed :: s.completed[k].number == k)
  }

  lemma {:induction false} EmitOrdered(start: nat, s: State, accepted: nat)
    requires Ordered(start, s)
    ensures Ordered(start, Emit(s, accepted))
    ensures s.emitted <= Emit(s, accepted).emitted
    decreases |s.completed|
  {
    if !FirstKeyIs(s.completed, s.nextToEmit) || accepted == 0 {
    } else {
      EmitOrdered(start, SendNext(s), accepted - 1);
    }
  }

  lemma AnswerOrdered(start: nat, t: State, reply: Reply, accepted: nat)
    requires Ordered(start, t)
    ensures var n := Answer(t, reply, accepted); Ordered(start, n) && t.emitted <= n.emitted
  {
    match reply
    case Found(b) => EmitOrdered(start, t.(completed := t.completed[b.number := b]), accepted);
    case NotYet => EmitOrdered(start, t.(mode := Poll), accepted);
    case RateLimited => EmitOrdered(start, t, accepted);
    case Failed =>
  }

  lemma IterateOrdered(start: nat, s: State, ev: Event)
    requires Ordered(start, s)
    ensures Ordered(start, Iterate(s, ev))
    ensures s.emitted <= Iterate(s, ev).emitted
  {
    RefillShape(s);
    var r := Refill(s);
    EmitOrdered(start, r, ev.accepted);
    AnswerOrdered(start, r.(pending := r.pending - multiset{ev.task}), ev.reply, ev.accepted);
  }

  lemma {:induction false} RunOrdered(start: nat, s: State, evs: seq<Event>)
    requires Ordered(start, s)
    ensures Ordered(start, Run(s, evs))
    ensures s.emitted <= Run(s, evs).emitted
    decreases |evs|
  {
    if |evs| == 0 {
    } else {
      IterateOrdered(start, s, evs[0]);
      RunOrdered(start, Iterate(s, evs[0]), evs[1..]);
    }
  }

  /** In-order emission: whatever the node answers, including blocks nobody asked for, and whatever the
      order of the answers, the emitted block numbers are start, start + 1, start + 2, ... */
  lemma InOrderEmission(start: nat, evs: seq<Event>)
    requires Schedule(Start(start), evs)
    ensures var out := Run(Start(start), evs).emitted;
      forall i | 0 <= i < |out| :: out[i].number == start + i
    ensures Run(Start(start), evs).nextToEmit == start + |Run(Start(start), evs).emitted|
  {
    RunOrdered(start, Start(start), evs);
  }

  // ---------------------------------------------------------------- a provider with fixed answers

  /** Every block the node returns for height h is `answer(h)`, and it carries the number h. */
  ghost predicate Answers(answer: nat -> L1Block, ev: Event) {
    ev.reply.Found? ==> ev.reply.block == answer(ev.task) && answer(ev.task).number == ev.task
  }

  ghost predicate Agrees(answer: nat -> L1Block, s: State) {
    && (forall i | 0 <= i < |s.emitted| :: s.emitted[i] == answer(s.emitted[i].number))
    && (forall k: nat | k in s.completed :: s.completed[k] == answer(k) && answer(k).number == k)
  }

  lemma {:induction false} EmitAgrees(answer: nat -> L1Block, s: State, accepted: nat)
    requires Agrees(answer, s)
    ensures Agrees(answer, Emit(s, accepted))
    decreases |s.completed|
  {
    if !FirstKeyIs(s.completed, s.nextToEmit) || accepted == 0 {
    } else {
      EmitAgrees(answer, SendNext(s), accepted - 1);
    }
  }

  lemma IterateAgrees(answer: nat -> L1Block, s: State, ev: Event)
    requires Agrees(answer, s) && Answers(answer, ev)
    ensures Agrees(answer, Iterate(s, ev))
  {
    RefillShape(s);
    var r := Refill(s);
    EmitAgrees(answer, r, ev.accepted);
    if r.pending != multiset{} {
      var t := r.(pending := r.pending - multiset{ev.task});
      match ev.reply {
        case Found(b) => EmitAgrees(answer, t.(completed := t.completed[b.number := b]), ev.accepted);
        case NotYet => EmitAgrees(answer, t.(mode := Poll), ev.accepted);
        case RateLimited => EmitAgrees(answer, t, ev.accepted);
        case Failed =>
      }
    }
  }

  lemma {:induction false} RunAgrees(answer: nat -> L1Block, s: State, evs: seq<Event>)
    requires Agrees(answer, s) && forall i | 0 <= i < |evs| :: Answers(answer, evs[i])
    ensures Agrees(answer, Run(s, evs))
    decreases |evs|
  {
    if |evs| == 0 {
    } else {
      IterateAgrees(answer, s, evs[0]);
      RunAgrees(answer, Iterate(s, evs[0]), evs[1..]);
    }
  }

  /** What a downloader that asks for one height after another would have emitted. */
  function Sequential(answer: nat -> L1Block, start: nat, n: nat): seq<L1Block> {
    seq(n, i requires 0 <= i < n => answer(start + i))
  }

  /** The concurrent queue refines the sequential downloader: same blocks, for every schedule. */
  lemma RefinesSequential(answer: nat -> L1Block, start: nat, evs: seq<Event>)
    requires Schedule(Start(start), evs)
    requires forall i | 0 <= i < |evs| :: Answers(answer, evs[i])
    ensures var out := Run(Start(start), evs).emitted;
      out == Sequential(answer, start, |out|)
  {
    RunAgrees(answer, Start(start), evs);
    RunOrdered(start, Start(start), evs);
    ListsAnswers(answer, start, Run(Start(start), evs));
  }

  lemma ListsAnswers(answer: nat -> L1Block, start: nat, s: State)
    requires Agrees(answer, s) && Ordered(start, s)
    ensures s.emitted == Sequential(answer, start, |s.emitted|)
  {
  }

  // ---------------------------------------------------------------- a faithful provider

  /** A block is only ever returned for the height it was requested at. Answers may change over time. */
  ghost predicate Faithful(ev: Event) {
    ev.reply.Found? ==> ev.reply.block.number == ev.task
  }

  ghost predicate AllFaithful(evs: seq<Event>) {
    forall i | 0 <= i < |evs| :: Faithful(evs[i])
  }

  ghost predicate Held(s: State, h: nat) {
    h in s.pending || h in s.completed
  }

  /** No height is in flight or buffered twice, and none is held that has already been emitted, except
      possibly a single one once the queue polls. */
  ghost predicate Inv(s: State) {
    && s.Load() <= 8
    && (forall h: nat :: s.pending[h] <= 1)
    && (forall h: nat | h in s.pending :: h !in s.completed)
    && s.nextToEmit !in s.completed
    && (s.mode.Batch? ==> s.nextToEmit <= s.nextDaHeight)
    && (s.mode.Batch? ==> forall h: nat | Held(s, h) :: s.nextToEmit <= h < s.nextDaHeight)
    && (s.mode.Poll? ==> s.Load() <= 1 || forall h: nat | Held(s, h) :: s.nextToEmit <= h)
  }

  /** `Inv` without the claim that the next block is not waiting: what holds before the emit loop. */
  ghost predicate PreEmit(s: State) {
    && s.running
    && s.Load() <= 8
    && (forall h: nat :: s.pending[h] <= 1)
    && (forall h: nat | h in s.pending :: h !in s.completed)
    && (s.mode.Batch? ==> s.nextToEmit <= s.nextDaHeight)
    && (s.mode.Batch? ==> forall h: nat | Held(s, h) :: s.nextToEmit <= h < s.nextDaHeight)
    && (s.mode.Poll? ==> s.Load() <= 1 || forall h: nat | Held(s, h) :: s.nextToEmit <= h)
  }

  lemma AtMostOneKey(m: map<nat, L1Block>, j: nat, k: nat)
    requires |m| <= 1 && j in m && k in m
    ensures j == k
  {
    assert |m.Keys - {k}| == |m.Keys| - 1;
  }

  lemma NothingHeld(s: State)
    requires s.Load() == 0
    ensures s.pending == multiset{} && s.completed == map[]
  {
    assert |s.completed.Keys| == 0;
  }

  /** If the next block is waiting, it is first in line. */
  lemma HeadIsFirst(s: State)
    requires PreEmit(s)
    ensures s.nextToEmit in s.completed ==> FirstKeyIs(s.completed, s.nextToEmit)
  {
    if s.nextToEmit in s.completed {
      forall j: nat | j in s.completed ensures s.nextToEmit <= j {
        if s.Load() <= 1 { AtMostOneKey(s.completed, j, s.nextToEmit); }
        assert Held(s, j);
      }
    }
  }

  /** Where the emit loop stops, the next block is not waiting. */
  lemma StoppedKeepsInv(s: State)
    requires PreEmit(s) && !FirstKeyIs(s.completed, s.nextToEmit)
    ensures Inv(s)
  {
    HeadIsFirst(s);
  }

  lemma SendKeepsPreEmit(s: State)
    requires PreEmit(s) && FirstKeyIs(s.completed, s.nextToEmit)
    ensures PreEmit(SendNext(s)) && SendNext(s).Load() == s.Load() - 1
  {
    var r := SendNext(s);
    assert Held(s, s.nextToEmit);
    forall h: nat | Held(r, h) ensures Held(s, h) && h != s.nextToEmit {}
  }

  lemma {:induction false} EmitKeepsInv(s: State, accepted: nat)
    requires PreEmit(s)
    ensures var r := Emit(s, accepted); r.running ==> Inv(r) && r.Load() <= s.Load()
    decreases |s.completed|
  {
    if !FirstKeyIs(s.completed, s.nextToEmit) {
      StoppedKeepsInv(s);
    } else if accepted > 0 {
      SendKeepsPreEmit(s);
      EmitKeepsInv(SendNext(s), accepted - 1);
    }
  }

  lemma {:induction false} RefillKeepsInv(s: State)
    requires Inv(s)
    ensures Inv(Refill(s))
    decreases s.mode.Concurrency() - s.Load()
  {
    if s.Load() >= s.mode.Concurrency() {
    } else {
      if s.mode.Poll? { NothingHeld(s); }
      assert !Held(s, s.nextDaHeight);
      var r := Spawn(s);
      forall h: nat | Held(r, h) ensures Held(s, h) || h == s.nextDaHeight {}
      RefillKeepsInv(r);
    }
  }

  /** The state between joining the request for `task` and acting on its reply. */
  function Joined(s: State, task: nat): State {
    s.(pending := s.pending - multiset{task})
  }

  /** Joining a request frees its height: from here a block found at that height can be filed. */
  lemma JoinKeepsPreEmit(s: State, task: nat)
    requires Inv(s) && s.running && task in s.pending
    ensures PreEmit(Joined(s, task)) && PreEmit(Joined(s, task).(mode := Poll))
    ensures Joined(s, task).Load() == s.Load() - 1
    ensures !Held(Joined(s, task), task)
  {
    var t := Joined(s, task);
    var p := t.(mode := Poll);
    assert Held(s, task);
    forall h: nat | Held(t, h) ensures Held(s, h) {}
    forall h: nat | Held(p, h) ensures Held(s, h) {}
  }

  lemma FileKeepsPreEmit(s: State, task: nat, block: L1Block)
    requires Inv(s) && s.running && task in s.pending
    ensures var c := Joined(s, task).(completed := s.completed[task := block]);
      PreEmit(c) && c.Load() == s.Load()
  {
    var c := Joined(s, task).(completed := s.completed[task := block]);
    assert task !in s.completed;
    assert |c.completed| == |s.completed| + 1 && |c.pending| == |s.pending| - 1;
    forall h: nat ensures Held(c, h) <==> Held(s, h) {}
  }

  lemma IterateKeepsInv(s: State, ev: Event)
    requires Inv(s) && Enabled(s, ev) && Faithful(ev)
    ensures var n := Iterate(s, ev); n.running ==> Inv(n) && n.Load() <= Refill(s).Load()
  {
    RefillKeepsInv(s);
    RefillShape(s);
    var r := Refill(s);
    if r.pending == multiset{} {
      StoppedOrEmitted(r, ev.accepted);
    } else {
      JoinKeepsPreEmit(r, ev.task);
      match ev.reply {
        case Found(b) =>
          FileKeepsPreEmit(r, ev.task, b);
          EmitKeepsInv(Joined(r, ev.task).(completed := r.completed[ev.task := b]), ev.accepted);
        case NotYet =>
          var t := Joined(r, ev.task);
          if t.mode.Batch? {
            EmitKeepsInv(t.(mode := Poll), ev.accepted);
          } else {
            PollResetKeepsInv(r, ev.task);
          }
        case RateLimited => EmitKeepsInv(Joined(r, ev.task), ev.accepted);
        case Failed =>
      }
    }
  }

  lemma StoppedOrEmitted(s: State, accepted: nat)
    requires Inv(s) && s.running
    ensures Emit(s, accepted) == s
  {
  }

  lemma PollResetKeepsInv(s: State, task: nat)
    requires Inv(s) && s.running && s.mode.Poll? && task in s.pending
    ensures Inv(Joined(s, task).(nextDaHeight := s.nextToEmit))
  {
    JoinKeepsPreEmit(s, task);
    var n := Joined(s, task).(nextDaHeight := s.nextToEmit);
    forall h: nat | Held(n, h) ensures Held(Joined(s, task), h) {}
  }

  lemma {:induction false} RunKeepsInv(s: State, evs: seq<Event>)
    requires Inv(s) && Schedule(s, evs) && AllFaithful(evs)
    ensures Run(s, evs).running ==> Inv(Run(s, evs))
    decreases |evs|
  {
    if |evs| == 0 {
    } else {
      IterateKeepsInv(s, evs[0]);
      if Iterate(s, evs[0]).running {
        RunKeepsInv(Iterate(s, evs[0]), evs[1..]);
      }
    }
  }

  /** Over every schedule with a faithful provider, in-flight heights and completed keys are pairwise
      distinct and at most 8, and filing the next block found never overwrites one that is waiting. */
  lemma NoHeightHeldTwice(start: nat, evs: seq<Event>, next: Event)
    requires Schedule(Start(start), evs) && AllFaithful(evs)
    requires Enabled(Run(Start(start), evs), next) && Faithful(next)
    ensures var r := Refill(Run(Start(start), evs));
      && r.Load() <= 8
      && (forall h: nat :: r.pending[h] <= 1)
      && (forall h: nat | h in r.pending :: h !in r.completed)
      && (Awaits(Run(Start(start), evs)) && next.reply.Found? ==> next.reply.block.number !in r.completed)
  {
    RunKeepsInv(Start(start), evs);
    RefillKeepsInv(Run(Start(start), evs));
  }

  lemma IteratePolls(s: State, ev: Event)
    requires Inv(s) && Enabled(s, ev) && Faithful(ev) && s.mode.Poll?
    ensures var n := Iterate(s, ev); n.running ==> n.mode.Poll? && n.Load() <= if s.Load() > 1 then s.Load() else 1
  {
    IterateKeepsInv(s, ev);
    RefillShape(s);
    var r := Refill(s);
    EmitFrame(r, ev.accepted);
    AnswerPolls(Joined(r, ev.task), ev.reply, ev.accepted);
  }

  lemma AnswerPolls(t: State, reply: Reply, accepted: nat)
    requires t.mode.Poll?
    ensures Answer(t, reply, accepted).mode.Poll?
  {
    EmitFrame(t, accepted);
    if reply.Found? { EmitFrame(t.(completed := t.completed[reply.block.number := reply.block]), accepted); }
  }

  /** Once polling, always polling; the load never grows until it has drained, and then stays at most 1. */
  lemma {:induction false} PollingNeverGrows(s: State, evs: seq<Event>)
    requires Inv(s) && s.mode.Poll? && Schedule(s, evs) && AllFaithful(evs)
    ensures var n := Run(s, evs); n.running ==> n.mode.Poll? && n.Load() <= if s.Load() > 1 then s.Load() else 1
    decreases |evs|
  {
    if |evs| == 0 {
    } else {
      IteratePolls(s, evs[0]);
      IterateKeepsInv(s, evs[0]);
      if Iterate(s, evs[0]).running {
        PollingNeverGrows(Iterate(s, evs[0]), evs[1..]);
      }
    }
  }

  // ---------------------------------------------------------------- one pass, exactly

  /** Heights [e, e + n) are completed. */
  ghost predicate CompletedRun(m: map<nat, L1Block>, e: nat, n: nat) {
    forall h: nat | e <= h < e + n :: h in m
  }

  ghost function RunOf(m: map<nat, L1Block>, e: nat, n: nat): seq<L1Block>
    requires CompletedRun(m, e, n)
  {
    seq(n, i requires 0 <= i < n => m[e + i])
  }

  /** The first n blocks completed from the next one on have been sent, from s to t. */
  ghost predicate Sends(s: State, t: State, n: nat) {
    && CompletedRun(s.completed, s.nextToEmit, n)
    && t.nextToEmit == s.nextToEmit + n
    && t.emitted == s.emitted + RunOf(s.completed, s.nextToEmit, n)
  }

  lemma SendsOneMore(s: State, t: State, n: nat)
    requires s.nextToEmit in s.completed && Sends(SendNext(s), t, n)
    ensures Sends(s, t, n + 1)
  {
    var e, m := s.nextToEmit, SendNext(s).completed;
    forall h: nat | e <= h < e + n + 1 ensures h in s.completed { assert h == e || h in m; }
    assert RunOf(s.completed, e, n + 1) == [s.completed[e]] + RunOf(m, e + 1, n);
  }

  /** The emit loop sends the whole run, or as much of it as is accepted; the loop ends if something is left of it. */
  lemma {:induction false} EmitExactly(s: State, accepted: nat) returns (t: State, n: nat)
    requires s.running && (s.nextToEmit in s.completed ==> FirstKeyIs(s.completed, s.nextToEmit))
    ensures t == Emit(s, accepted) && n <= accepted && Sends(s, t, n)
    ensures t.running <==> s.nextToEmit + n !in s.completed
    ensures n < accepted ==> t.running
    decreases |s.completed|
  {
    if s.nextToEmit !in s.completed || accepted == 0 {
      t, n := Emit(s, accepted), 0;
    } else {
      t, n := EmitExactly(SendNext(s), accepted - 1);
      SendsOneMore(s, t, n);
      n := n + 1;
    }
  }

  /** Something is left of the run exactly if it is longer than what is accepted. */
  lemma RunIsLonger(m: map<nat, L1Block>, e: nat, n: nat, accepted: nat)
    requires n <= accepted && CompletedRun(m, e, n) && (n < accepted ==> e + n !in m)
    ensures e + n in m <==> CompletedRun(m, e, accepted + 1)
  {
  }

  lemma EmitEndsExactlyWhen(s: State, accepted: nat) returns (t: State, n: nat)
    requires s.running && (s.nextToEmit in s.completed ==> FirstKeyIs(s.completed, s.nextToEmit))
    ensures t == Emit(s, accepted) && n <= accepted && Sends(s, t, n)
    ensures n < accepted ==> s.nextToEmit + n !in s.completed
    ensures t.running <==> !CompletedRun(s.completed, s.nextToEmit, accepted + 1)
  {
    t, n := EmitExactly(s, accepted);
    RunIsLonger(s.completed, s.nextToEmit, n, accepted);
  }

  /** The pass ends the stream: the request failed, or the receiver is gone before the completed run has been sent. */
  ghost predicate EndsPass(s: State, ev: Event) {
    Awaits(s) &&
    (ev.reply.Failed? ||
     (ev.reply.Found? && CompletedRun(s.completed[ev.task := ev.reply.block], s.nextToEmit, ev.accepted + 1)))
  }

  /** A reply without a block changes nothing after the refill, except that the request is gone, and: "not yet" switches
      a batch to polling, or resets the next height of a polling queue; a rate limit does nothing else; any other
      failure ends the stream. Nothing is emitted. */
  lemma ReplyWithoutBlock(s: State, ev: Event)
    requires Inv(s) && Enabled(s, ev) && Awaits(s) && !ev.reply.Found?
    ensures var t := Joined(Refill(s), ev.task);
      Iterate(s, ev) ==
        if ev.reply.Failed? then t.(running := false)
        else if ev.reply.RateLimited? then t
        else if s.mode.Batch? then t.(mode := Poll)
        else t.(nextDaHeight := s.nextToEmit)
    ensures Iterate(s, ev).emitted == s.emitted
  {
    RefillShape(s);
  }

  /** A block is filed under its height, and the completed run is sent. */
  lemma BlockReply(s: State, ev: Event) returns (c: State, t: State, n: nat)
    requires Inv(s) && Enabled(s, ev) && Awaits(s) && Faithful(ev) && ev.reply.Found?
    ensures c == Joined(Refill(s), ev.task).(completed := s.completed[ev.task := ev.reply.block])
    ensures c.nextToEmit == s.nextToEmit
    ensures t == Iterate(s, ev) && n <= ev.accepted && Sends(c, t, n)
    ensures n < ev.accepted ==> c.nextToEmit + n !in c.completed
    ensures t.running <==> !CompletedRun(c.completed, c.nextToEmit, ev.accepted + 1)
  {
    RefillKeepsInv(s);
    RefillShape(s);
    FileKeepsPreEmit(Refill(s), ev.task, ev.reply.block);
    c := Joined(Refill(s), ev.task).(completed := s.completed[ev.task := ev.reply.block]);
    HeadIsFirst(c);
    t, n := EmitEndsExactlyWhen(c, ev.accepted);
  }

  /** One pass ends the stream exactly when the request failed other than by a rate limit, or when a send fails: when
      the completed run from the next block on is longer than what the receiver accepts. */
  lemma PassEndsExactlyWhen(s: State, ev: Event)
    requires Inv(s) && Enabled(s, ev) && Faithful(ev)
    ensures !Iterate(s, ev).running <==> EndsPass(s, ev)
  {
    if !Awaits(s) {
      FullAndIdleSpins(s);
      assert Iterate(s, ev) == s;
    } else if ev.reply.Found? {
      var c, t, n := BlockReply(s, ev);
    } else {
      ReplyWithoutBlock(s, ev);
      assert Refill(s).running by { RefillShape(s); }
    }
  }

  lemma {:induction false} RunOneMore(s: State, evs: seq<Event>, last: Event)
    ensures Run(s, evs + [last]) == Iterate(Run(s, evs), last)
    ensures Schedule(s, evs + [last]) <==> Schedule(s, evs) && Enabled(Run(s, evs), last)
    decreases |evs|
  {
    if |evs| == 0 {
      assert evs + [last] == [last] && [last][1..] == [];
    } else {
      assert (evs + [last])[0] == evs[0] && (evs + [last])[1..] == evs[1..] + [last];
      RunOneMore(Iterate(s, evs[0]), evs[1..], last);
    }
  }

  /** Over whole runs: the stream ends with the last event exactly when that is a failed request or a failed send. */
  lemma StreamEndsExactlyWhen(start: nat, evs: seq<Event>, last: Event)
    requires Schedule(Start(start), evs + [last]) && AllFaithful(evs) && Faithful(last)
    ensures var before := Run(Start(start), evs);
      before.running && (!Run(Start(start), evs + [last]).running <==> EndsPass(before, last))
  {
    RunOneMore(Start(start), evs, last);
    ReachedInv(start, evs);
    PassEndsExactlyWhen(Run(Start(start), evs), last);
  }

  lemma ReachedInv(start: nat, evs: seq<Event>)
    requires Schedule(Start(start), evs) && AllFaithful(evs) && Run(Start(start), evs).running
    ensures Inv(Run(Start(start), evs))
  {
    RunKeepsInv(Start(start), evs);
  }

  // ---------------------------------------------------------------- the batch window

  /** Requests in flight and completed blocks together are exactly the heights [nextToEmit, nextDaHeight). */
  ghost predicate Window(s: State) {
    && s.mode.Batch? && s.running
    && s.nextToEmit <= s.nextDaHeight
    && (forall h: nat :: Held(s, h) <==> s.nextToEmit <= h < s.nextDaHeight)
    && s.Load() == s.nextDaHeight - s.nextToEmit
  }

  lemma SendKeepsWindow(s: State)
    requires PreEmit(s) && Window(s) && FirstKeyIs(s.completed, s.nextToEmit)
    ensures var r := SendNext(s);
      Window(r) && |r.emitted| + |r.completed| == |s.emitted| + |s.completed|
  {
    var r := SendNext(s);
    assert Held(s, s.nextToEmit);
    forall h: nat ensures Held(r, h) <==> r.nextToEmit <= h < r.nextDaHeight {
      assert Held(s, h) <==> s.nextToEmit <= h < s.nextDaHeight;
    }
  }

  lemma {:induction false} EmitKeepsWindow(s: State, accepted: nat) returns (r: State)
    requires PreEmit(s) && Window(s) && Emit(s, accepted).running
    ensures r == Emit(s, accepted)
    ensures Window(r) && |r.emitted| + |r.completed| == |s.emitted| + |s.completed|
    decreases |s.completed|
  {
    if !FirstKeyIs(s.completed, s.nextToEmit) || accepted == 0 {
      r := s;
    } else {
      SendKeepsPreEmit(s);
      SendKeepsWindow(s);
      r := EmitKeepsWindow(SendNext(s), accepted - 1);
    }
  }

  /** Refilling a window makes it 8 wide, with the next block to emit among the requests in flight. */
  lemma RefillFillsWindow(s: State)
    requires Inv(s) && Window(s)
    ensures var r := Refill(s);
      && r == s.(pending := r.pending, nextDaHeight := r.nextDaHeight)
      && Window(r) && r.nextDaHeight == r.nextToEmit + 8 && r.nextToEmit in r.pending
  {
    RefillShape(s);
    RefillKeepsInv(s);
    var r := Refill(s);
    forall h: nat ensures Held(r, h) <==> r.nextToEmit <= h < r.nextDaHeight {
      assert Held(s, h) <==> s.nextToEmit <= h < s.nextDaHeight;
    }
    assert Held(r, r.nextToEmit);
  }

  lemma IterateKeepsWindow(s: State, ev: Event)
    requires Inv(s) && Window(s) && Enabled(s, ev) && Faithful(ev) && ev.reply.Found?
    requires Iterate(s, ev).running
    ensures var n := Iterate(s, ev);
      Window(n) && |n.emitted| + |n.completed| == |s.emitted| + |s.completed| + 1
  {
    RefillFillsWindow(s);
    RefillKeepsInv(s);
    var r := Refill(s);
    var b := ev.reply.block;
    FileKeepsPreEmit(r, ev.task, b);
    var c := Joined(r, ev.task).(completed := r.completed[ev.task := b]);
    forall h: nat ensures Held(c, h) <==> c.nextToEmit <= h < c.nextDaHeight {
      assert Held(r, h) <==> r.nextToEmit <= h < r.nextDaHeight;
    }
    assert |c.completed| == |r.completed| + 1 && c.emitted == r.emitted;
    var n := EmitKeepsWindow(c, ev.accepted);
  }

  lemma {:induction false} RunKeepsWindow(s: State, evs: seq<Event>)
    requires Inv(s) && Window(s) && Schedule(s, evs) && AllFaithful(evs)
    requires forall i | 0 <= i < |evs| :: evs[i].reply.Found?
    requires Run(s, evs).running
    ensures var n := Run(s, evs);
      Inv(n) && Window(n) && |n.emitted| + |n.completed| == |s.emitted| + |s.completed| + |evs|
    decreases |evs|
  {
    if |evs| == 0 {
    } else {
      IterateKeepsInv(s, evs[0]);
      if !Iterate(s, evs[0]).running { StoppedStays(Iterate(s, evs[0]), evs[1..]); }
      IterateKeepsWindow(s, evs[0]);
      RunKeepsWindow(Iterate(s, evs[0]), evs[1..]);
    }
  }

  /** A queue that has ended has no further events. */
  lemma StoppedStays(s: State, evs: seq<Event>)
    requires Schedule(s, evs) && !s.running
    ensures evs == [] && Run(s, evs) == s
  {
  }

  /** Until the first reply that is not a block, the window is a partition of [nextToEmit, nextDaHeight), is
      8 wide after each refill, and the next block to emit is in flight. The loop never stalls: all but at most 7
      of the blocks received have been emitted, and any 8 more emit another. */
  lemma BatchWindow(start: nat, evs: seq<Event>)
    requires Schedule(Start(start), evs) && AllFaithful(evs)
    requires forall i | 0 <= i < |evs| :: evs[i].reply.Found?
    requires Run(Start(start), evs).running
    ensures var s := Run(Start(start), evs); var r := Refill(s);
      && Window(s) && Window(r)
      && r.nextDaHeight == r.nextToEmit + 8
      && r.nextToEmit in r.pending && r.nextToEmit !in r.completed
      && |s.emitted| + |s.completed| == |evs| && |s.completed| <= 7
      && (forall more | Schedule(s, more) && AllAnswered(more) && |more| >= 8 ::
            |Run(s, more).emitted| > |s.emitted|)
  {
    RunKeepsWindow(Start(start), evs);
    WindowProgress(Run(Start(start), evs));
  }

  lemma WindowProgress(s: State)
    requires Inv(s) && Window(s)
    ensures var r := Refill(s);
      && Window(r) && r.nextDaHeight == r.nextToEmit + 8
      && r.nextToEmit in r.pending && r.nextToEmit !in r.completed
      && |s.completed| <= 7
      && (forall more | Schedule(s, more) && AllAnswered(more) && |more| >= 8 ::
            |Run(s, more).emitted| > |s.emitted|)
  {
    RefillFillsWindow(s);
    RefillKeepsInv(s);
    WindowLeavesRoom(s);
    forall more | Schedule(s, more) && AllAnswered(more) && |more| >= 8
      ensures |Run(s, more).emitted| > |s.emitted|
    {
      HeadInFlightEmits(s, more);
    }
  }

  lemma WindowLeavesRoom(s: State)
    requires Inv(s) && Window(s)
    ensures |s.completed| <= 7
  {
    RefillFillsWindow(s);
    var r := Refill(s);
    assert |r.pending - multiset{r.nextToEmit}| == |r.pending| - 1;
  }

  // ---------------------------------------------------------------- where progress ends

  /** A reachable loop head waits for a request, unless nothing is in flight and the completed blocks fill
      the mode's limit. Then no event changes anything: the loop spins without ever suspending. */
  lemma SpinsExactlyWhen(start: nat, evs: seq<Event>)
    requires Schedule(Start(start), evs) && AllFaithful(evs)
    requires Run(Start(start), evs).running
    ensures var s := Run(Start(start), evs);
      && (!Awaits(s) <==> s.pending == multiset{} && |s.completed| >= s.mode.Concurrency())
      && (!Awaits(s) ==> !FirstKeyIs(s.completed, s.nextToEmit) && forall ev :: Iterate(s, ev) == s)
  {
    RunKeepsInv(Start(start), evs);
    FullAndIdleSpins(Run(Start(start), evs));
  }

  lemma FullAndIdleSpins(s: State)
    requires Inv(s) && s.running
    ensures !Awaits(s) <==> s.pending == multiset{} && |s.completed| >= s.mode.Concurrency()
    ensures !Awaits(s) ==> !FirstKeyIs(s.completed, s.nextToEmit) && forall ev :: Iterate(s, ev) == s
  {
    if s.Load() < s.mode.Concurrency() {
      assert Awaits(s) by {
        RefillShape(s);
        assert Refill(s).pending[s.nextDaHeight] >= 1;
      }
    } else {
      assert Refill(s) == s;
    }
  }

  /** The block to emit next is neither in flight nor waiting, but some other block is waiting. */
  ghost predicate Frozen(s: State) {
    s.completed != map[] && s.nextToEmit !in s.pending
  }

  lemma FrozenRefill(s: State)
    requires Inv(s) && Frozen(s)
    ensures Frozen(Refill(s)) && Refill(s).completed == s.completed && s.nextToEmit == Refill(s).nextToEmit
  {
    RefillShape(s);
    var k :| k in s.completed;
    assert Held(s, k);
  }

  lemma AnswerFrozen(r: State, task: nat, reply: Reply, accepted: nat)
    requires Inv(r) && Frozen(r) && task in r.pending && Faithful(Event(task, reply, accepted))
    ensures var n := Answer(Joined(r, task), reply, accepted);
      n.emitted == r.emitted && n.nextToEmit == r.nextToEmit && (n.running ==> Frozen(n))
  {
    if reply.Found? {
      var c := Joined(r, task).(completed := r.completed[task := reply.block]);
      assert task in c.completed && r.nextToEmit !in c.completed;
    }
  }

  lemma FrozenStays(s: State, ev: Event)
    requires Inv(s) && Frozen(s) && Enabled(s, ev) && Faithful(ev)
    ensures var n := Iterate(s, ev);
      n.emitted == s.emitted && n.nextToEmit == s.nextToEmit && (n.running ==> Frozen(n))
  {
    var r := Refill(s);
    assert r.emitted == s.emitted by { RefillShape(s); }
    FrozenRefill(s);
    RefillKeepsInv(s);
    if r.pending != multiset{} { AnswerFrozen(r, ev.task, ev.reply, ev.accepted); }
  }

  lemma {:induction false} FrozenForever(s: State, evs: seq<Event>)
    requires Inv(s) && Frozen(s) && Schedule(s, evs) && AllFaithful(evs)
    ensures Run(s, evs).emitted == s.emitted
    decreases |evs|
  {
    if |evs| == 0 {
    } else {
      FrozenStays(s, evs[0]);
      IterateKeepsInv(s, evs[0]);
      if Iterate(s, evs[0]).running {
        FrozenForever(Iterate(s, evs[0]), evs[1..]);
      }
    }
  }

  lemma {:induction false} EmitGrows(s: State, accepted: nat)
    ensures |Emit(s, accepted).emitted| >= |s.emitted|
    decreases |s.completed|
  {
    if !FirstKeyIs(s.completed, s.nextToEmit) || accepted == 0 {
    } else {
      EmitGrows(SendNext(s), accepted - 1);
    }
  }

  /** Where the next block is filed, it is first in line. */
  lemma FiledHeadIsFirst(r: State, block: L1Block)
    requires Inv(r) && r.running && r.nextToEmit in r.pending
    ensures FirstKeyIs(r.completed[r.nextToEmit := block], r.nextToEmit)
  {
    FileKeepsPreEmit(r, r.nextToEmit, block);
    var c := Joined(r, r.nextToEmit).(completed := r.completed[r.nextToEmit := block]);
    forall j: nat | j in c.completed ensures c.nextToEmit <= j {
      if c.Load() <= 1 { AtMostOneKey(c.completed, j, c.nextToEmit); }
      assert Held(c, j);
    }
  }

  lemma FirstIsEmitted(s: State, accepted: nat)
    requires FirstKeyIs(s.completed, s.nextToEmit) && accepted > 0
    ensures |Emit(s, accepted).emitted| > |s.emitted|
  {
    EmitGrows(SendNext(s), accepted - 1);
  }

  /** With the next block in flight, its answer emits it. */
  lemma AnswerEmits(s: State, ev: Event)
    requires Inv(s) && s.running && s.nextToEmit in Refill(s).pending
    requires Answered(ev) && ev.task == s.nextToEmit
    ensures Enabled(s, ev) && |Iterate(s, ev).emitted| > |s.emitted|
  {
    var r := Refill(s);
    assert r == s.(pending := r.pending, nextDaHeight := r.nextDaHeight) by { RefillShape(s); }
    var c := Joined(r, s.nextToEmit).(completed := r.completed[s.nextToEmit := ev.reply.block]);
    assert |Emit(c, ev.accepted).emitted| > |c.emitted| by {
      RefillKeepsInv(s);
      FiledHeadIsFirst(r, ev.reply.block);
      FirstIsEmitted(c, ev.accepted);
    }
  }

  /** With nothing waiting and the next block not in flight, "not yet" answers lead back to it. */
  lemma NotYetDrains(s: State, task: nat)
    requires Inv(s) && s.running && s.completed == map[]
    requires task in Refill(s).pending && s.nextToEmit !in Refill(s).pending
    ensures var n := Iterate(s, Event(task, NotYet, 0));
      && n.running && n.completed == map[] && n.mode.Poll? && n.emitted == s.emitted
      && (s.mode.Poll? ==> n.nextDaHeight == n.nextToEmit)
      && |n.pending| == |Refill(s).pending| - 1
  {
    RefillShape(s);
  }

  lemma Prepend(s: State, ev: Event, rest: seq<Event>)
    requires Enabled(s, ev) && Faithful(ev)
    requires Schedule(Iterate(s, ev), rest) && AllFaithful(rest)
    ensures Schedule(s, [ev] + rest) && AllFaithful([ev] + rest)
    ensures Run(s, [ev] + rest) == Run(Iterate(s, ev), rest)
  {
    assert ([ev] + rest)[1..] == rest;
  }

  /** From every reachable state that is not frozen, some answers of a faithful provider emit a block. */
  lemma {:induction false} Thaws(s: State) returns (evs: seq<Event>)
    requires Inv(s) && s.running && !Frozen(s)
    ensures Schedule(s, evs) && AllFaithful(evs) && |Run(s, evs).emitted| > |s.emitted|
    decreases if s.mode.Batch? then 1 else 0, |s.pending|, if s.nextDaHeight == s.nextToEmit then 0 else 1
  {
    if s.nextToEmit in Refill(s).pending {
      var ev := Event(s.nextToEmit, Found(L1Block(s.nextToEmit, [])), 1);
      AnswerEmits(s, ev);
      Prepend(s, ev, []);
      evs := [ev] + [];
    } else {
      var task := SomethingInFlight(s);
      var ev := Event(task, NotYet, 0);
      NotYetDrains(s, task);
      IterateKeepsInv(s, ev);
      var rest := Thaws(Iterate(s, ev));
      Prepend(s, ev, rest);
      evs := [ev] + rest;
    }
  }

  lemma SomethingInFlight(s: State) returns (task: nat)
    requires Inv(s) && !Frozen(s) && s.nextToEmit !in Refill(s).pending
    ensures s.completed == map[] && task in Refill(s).pending
    ensures s.mode.Poll? ==> |Refill(s).pending| == if |s.pending| == 0 then 1 else |s.pending|
    ensures s.mode.Poll? && |s.pending| == 0 ==> s.nextDaHeight != s.nextToEmit
  {
    RefillShape(s);
    assert s.nextToEmit !in s.pending;
    task :| task in Refill(s).pending;
    if s.Load() < s.mode.Concurrency() {
      assert Refill(s).pending[s.nextDaHeight] >= 1;
    }
  }

  /** Where all hope ends: a reachable queue can emit another block, for some answers of a faithful provider, if
      and only if it is not frozen. `AnsweredQueueEmitsExactlyWhen` is the companion for every schedule. */
  lemma ProgressBoundary(start: nat, evs: seq<Event>)
    requires Schedule(Start(start), evs) && AllFaithful(evs)
    requires Run(Start(start), evs).running
    ensures var s := Run(Start(start), evs);
      !Frozen(s) <==>
        exists more :: Schedule(s, more) && AllFaithful(more) && |Run(s, more).emitted| > |s.emitted|
  {
    var s := Run(Start(start), evs);
    RunKeepsInv(Start(start), evs);
    if Frozen(s) {
      forall more | Schedule(s, more) && AllFaithful(more) ensures Run(s, more).emitted == s.emitted {
        FrozenForever(s, more);
      }
    } else {
      var more := Thaws(s);
    }
  }

  // ---------------------------------------------------------------- progress while every request is answered

  /** The node has the block asked for, and the receiver takes at least one block in this pass. */
  ghost predicate Answered(ev: Event) {
    ev.reply.Found? && Faithful(ev) && ev.accepted > 0
  }

  ghost predicate AllAnswered(evs: seq<Event>) {
    forall i | 0 <= i < |evs| :: Answered(evs[i])
  }

  lemma IterateGrows(s: State, ev: Event)
    ensures |Iterate(s, ev).emitted| >= |s.emitted|
  {
    var r := Refill(s);
    assert r.emitted == s.emitted by { RefillShape(s); }
    if r.pending == multiset{} {
      EmitGrows(r, ev.accepted);
    } else {
      AnswerGrows(Joined(r, ev.task), ev.reply, ev.accepted);
    }
  }

  lemma AnswerGrows(t: State, reply: Reply, accepted: nat)
    ensures |Answer(t, reply, accepted).emitted| >= |t.emitted|
  {
    match reply
    case Found(block) => EmitGrows(t.(completed := t.completed[block.number := block]), accepted);
    case NotYet => EmitGrows(t.(mode := Poll), accepted);
    case RateLimited => EmitGrows(t, accepted);
    case Failed =>
  }

  lemma {:induction false} RunGrows(s: State, evs: seq<Event>)
    ensures |Run(s, evs).emitted| >= |s.emitted|
    decreases |evs|
  {
    if |evs| == 0 {
    } else {
      IterateGrows(s, evs[0]);
      RunGrows(Iterate(s, evs[0]), evs[1..]);
    }
  }

  /** A block that is not the next one is filed, and nothing new is requested: the queue is full. */
  lemma OtherAnswerIsFiled(s: State, ev: Event)
    requires Inv(s) && s.running && Refill(s).pending != multiset{}
    requires Enabled(s, ev) && Answered(ev) && ev.task != s.nextToEmit
    ensures var r := Refill(s); var n := Iterate(s, ev);
      && n == Joined(r, ev.task).(completed := r.completed[ev.task := ev.reply.block])
      && n.running && n.emitted == s.emitted && n.nextToEmit == s.nextToEmit && n.completed != map[]
      && Refill(n) == n && |n.pending| == |r.pending| - 1
      && (n.nextToEmit in n.pending <==> n.nextToEmit in r.pending)
  {
    RefillKeepsInv(s);
    RefillShape(s);
    var r := Refill(s);
    FileKeepsPreEmit(r, ev.task, ev.reply.block);
    var c := Joined(r, ev.task).(completed := r.completed[ev.task := ev.reply.block]);
    assert c.nextToEmit !in c.completed && ev.task in c.completed;
    assert Emit(c, ev.accepted) == c;
  }

  /** With the next block in flight, as many answers as there are requests in flight emit it. */
  lemma {:induction false} HeadInFlightEmits(s: State, evs: seq<Event>)
    requires Inv(s) && s.running && s.nextToEmit in Refill(s).pending
    requires Schedule(s, evs) && AllAnswered(evs) && |evs| >= |Refill(s).pending|
    ensures |Run(s, evs).emitted| > |s.emitted|
    decreases |evs|
  {
    var r := Refill(s);
    assert |r.pending| > 0;
    var ev, rest := evs[0], evs[1..];
    if ev.task == s.nextToEmit {
      AnswerEmits(s, ev);
      RunGrows(Iterate(s, ev), rest);
    } else {
      OtherAnswerIsFiled(s, ev);
      IterateKeepsInv(s, ev);
      HeadInFlightEmits(Iterate(s, ev), rest);
    }
  }

  lemma FirstAnswerFreezes(s: State, ev: Event) returns (n: State)
    requires Inv(s) && s.running && Enabled(s, ev) && Answered(ev)
    requires Refill(s).pending != multiset{} && s.nextToEmit !in Refill(s).pending
    ensures n == Iterate(s, ev) && Inv(n) && Frozen(n) && n.emitted == s.emitted
  {
    OtherAnswerIsFiled(s, ev);
    IterateKeepsInv(s, ev);
    n := Iterate(s, ev);
  }

  lemma IdleIsFrozen(s: State)
    requires Inv(s) && Refill(s).pending == multiset{}
    ensures Frozen(s)
  {
    RefillShape(s);
    assert |s.completed| > 0;
  }

  /** With the next block not in flight, the first answer freezes the queue. */
  lemma HeadMissingStalls(s: State, evs: seq<Event>)
    requires Inv(s) && s.running && s.nextToEmit !in Refill(s).pending
    requires Schedule(s, evs) && AllAnswered(evs)
    ensures Run(s, evs).emitted == s.emitted
  {
    if |evs| == 0 {
    } else if Refill(s).pending == multiset{} {
      IdleIsFrozen(s);
      FrozenForever(s, evs);
    } else {
      var n := FirstAnswerFreezes(s, evs[0]);
      FrozenForever(n, evs[1..]);
    }
  }

  /** Exactly when the loop stalls although the node has every block it is asked for: from any state reached under
      a faithful provider, every schedule of 8 or more such answers emits another block if and only if the next
      block is in flight once the queue has been refilled; otherwise no schedule of such answers ever emits one. */
  lemma AnsweredQueueEmitsExactlyWhen(start: nat, evs: seq<Event>, more: seq<Event>)
    requires Schedule(Start(start), evs) && AllFaithful(evs)
    requires Run(Start(start), evs).running
    requires Schedule(Run(Start(start), evs), more) && AllAnswered(more)
    ensures var s := Run(Start(start), evs);
      && (s.nextToEmit !in Refill(s).pending ==> Run(s, more).emitted == s.emitted)
      && (|more| >= 8 ==> (|Run(s, more).emitted| > |s.emitted| <==> s.nextToEmit in Refill(s).pending))
  {
    var s := Run(Start(start), evs);
    RunKeepsInv(Start(start), evs);
    RefillKeepsInv(s);
    if s.nextToEmit in Refill(s).pending {
      if |more| >= 8 { HeadInFlightEmits(s, more); }
    } else {
      HeadMissingStalls(s, more);
    }
  }

  // ---------------------------------------------------------------- a dropped height

  /** What is in flight once a full batch has lost its next block. */
  lemma FullWindowWithoutHead(r: State, h: nat)
    requires Inv(r) && Window(r)
    ensures h in Joined(r, r.nextToEmit).pending
      <==> r.nextToEmit < h < r.nextDaHeight && h !in r.completed
  {
    assert Held(r, h) <==> r.nextToEmit <= h < r.nextDaHeight;
    assert r.pending[h] <= 1;
  }

  lemma WindowWithoutHead(s: State)
    requires Inv(s) && Window(s)
    ensures var t := Joined(Refill(s), s.nextToEmit);
      && t == s.(nextDaHeight := s.nextToEmit + 8, pending := t.pending)
      && (forall h: nat :: h in t.pending <==> s.nextToEmit < h < s.nextToEmit + 8 && h !in s.completed)
  {
    var r := Refill(s);
    assert r == s.(nextDaHeight := s.nextToEmit + 8, pending := r.pending) by {
      RefillShape(s);
      RefillFillsWindow(s);
    }
    forall h: nat
      ensures h in Joined(r, s.nextToEmit).pending <==> s.nextToEmit < h < s.nextToEmit + 8 && h !in s.completed
    {
      RefillKeepsInv(s);
      RefillFillsWindow(s);
      FullWindowWithoutHead(r, h);
    }
  }

  /** A reply without a block drops its height: it is not requested again. If that height is the next to emit of a
      batch, the queue is frozen at once exactly when a later block is already waiting; and in any case nothing is
      emitted as long as the node has every block it is asked for. */
  lemma DroppedHeadFreezesExactlyWhen(s: State, ev: Event)
    requires Inv(s) && Window(s) && Enabled(s, ev)
    requires ev.task == s.nextToEmit && (ev.reply.NotYet? || ev.reply.RateLimited?)
    ensures var n := Iterate(s, ev);
      && n.running && n.emitted == s.emitted && n.nextToEmit == s.nextToEmit && n.completed == s.completed
      && n.mode == (if ev.reply.NotYet? then Poll else Batch)
      && n.nextDaHeight == s.nextToEmit + 8
      && (forall h: nat :: h in n.pending <==> s.nextToEmit < h < s.nextToEmit + 8 && h !in s.completed)
      && (Frozen(n) <==> s.completed != map[])
      && (forall more | Schedule(n, more) && AllAnswered(more) :: Run(n, more).emitted == s.emitted)
  {
    var n := HeadDropped(s, ev);
    forall more | Schedule(n, more) && AllAnswered(more) ensures Run(n, more).emitted == s.emitted {
      DroppedHeadStalls(n, more);
    }
  }

  lemma HeadDropped(s: State, ev: Event) returns (n: State)
    requires Inv(s) && Window(s) && Enabled(s, ev)
    requires ev.task == s.nextToEmit && (ev.reply.NotYet? || ev.reply.RateLimited?)
    ensures n == Iterate(s, ev) && Inv(n)
    ensures n == Joined(Refill(s), s.nextToEmit).(mode := if ev.reply.NotYet? then Poll else Batch)
    ensures n == s.(mode := n.mode, pending := n.pending, nextDaHeight := s.nextToEmit + 8)
    ensures forall h: nat :: h in n.pending <==> s.nextToEmit < h < s.nextToEmit + 8 && h !in s.completed
  {
    n := Iterate(s, ev);
    WindowWithoutHead(s);
    assert Refill(s).pending != multiset{} by { RefillFillsWindow(s); }
    assert Inv(n) by { IterateKeepsInv(s, ev); }
  }

  lemma DroppedHeadStalls(n: State, more: seq<Event>)
    requires Inv(n) && n.running && n.nextToEmit !in n.pending && n.nextToEmit < n.nextDaHeight
    requires Schedule(n, more) && AllAnswered(more)
    ensures Run(n, more).emitted == n.emitted
  {
    RefillShape(n);
    HeadMissingStalls(n, more);
  }

  /** The ordinary race at the tip: the request for d is answered just before block d exists. The queue is not
      frozen, so some answers would still emit d, but none will if the node has each block it is asked for next. */
  lemma RaceAtTheTipStalls(d: nat, more: seq<Event>)
    requires Schedule(Iterate(Start(d), Event(d, NotYet, 1)), more) && AllAnswered(more)
    ensures var s := Iterate(Start(d), Event(d, NotYet, 1));
      !Frozen(s) && s.mode.Poll? && Enabled(Start(d), Event(d, NotYet, 1)) && Run(s, more).emitted == []
  {
    RefillFillsWindow(Start(d));
    assert Enabled(Start(d), Event(d, NotYet, 1));
    DroppedHeadFreezesExactlyWhen(Start(d), Event(d, NotYet, 1));
  }

  // ---------------------------------------------------------------- clean polling

  /** The one-at-a-time poller between two requests. */
  ghost predicate CleanPoll(s: State) {
    s.mode.Poll? && s.running && s.Load() == 0 && s.nextDaHeight == s.nextToEmit
  }

  lemma IterateCleanPoll(s: State, ev: Event)
    requires CleanPoll(s) && Enabled(s, ev) && Faithful(ev)
    requires Polled(ev)
    ensures CleanPoll(Iterate(s, ev))
    ensures Iterate(s, ev).emitted == s.emitted + if ev.reply.Found? then [ev.reply.block] else []
  {
    NothingHeld(s);
    var r := Spawn(s);
    assert r.Load() == 1 && Refill(s) == Refill(r) == r;
    assert r.pending == multiset{s.nextDaHeight};
    if ev.reply.Found? {
      var c := Joined(r, ev.task).(completed := r.completed[ev.task := ev.reply.block]);
      assert c.completed == map[ev.task := ev.reply.block];
      var n := SendNext(c);
      assert |n.completed| == 0;
      NothingHeld(n);
      assert Emit(n, ev.accepted - 1) == n;
    }
  }

  /** The blocks a sequence of replies delivers. */
  function Delivered(evs: seq<Event>): seq<L1Block> {
    if |evs| == 0 then []
    else (if evs[0].reply.Found? then [evs[0].reply.block] else []) + Delivered(evs[1..])
  }

  lemma DeliverFirst(out: seq<L1Block>, evs: seq<Event>)
    requires |evs| > 0
    ensures out + Delivered(evs)
         == (out + if evs[0].reply.Found? then [evs[0].reply.block] else []) + Delivered(evs[1..])
  {
  }

  /** The poller's request is answered: with a block the receiver takes, or with "not yet". */
  ghost predicate Polled(ev: Event) {
    ev.reply.NotYet? || (ev.reply.Found? && ev.accepted > 0)
  }

  /** Without rate limiting, clean polling stays clean forever and emits every block as it arrives. */
  lemma {:induction false} CleanPollingForever(s: State, evs: seq<Event>)
    requires CleanPoll(s) && Schedule(s, evs) && AllFaithful(evs)
    requires forall i | 0 <= i < |evs| :: Polled(evs[i])
    ensures CleanPoll(Run(s, evs))
    ensures Run(s, evs).emitted == s.emitted + Delivered(evs)
    decreases |evs|
  {
    if |evs| == 0 {
    } else {
      IterateCleanPoll(s, evs[0]);
      CleanPollingForever(Iterate(s, evs[0]), evs[1..]);
      DeliverFirst(s.emitted, evs);
    }
  }

  // ---------------------------------------------------------------- where the code falls short of progress

  /** A drained polling queue asks for `nextDaHeight`. If a block comes back, the queue freezes exactly when
      that height is not the next to emit. */
  lemma DrainedPollFreezesExactlyWhen(s: State, ev: Event)
    requires s.mode.Poll? && s.running && s.Load() == 0
    requires Enabled(s, ev) && Faithful(ev) && ev.reply.Found? && ev.accepted > 0
    ensures Frozen(Iterate(s, ev)) <==> s.nextDaHeight != s.nextToEmit
  {
    if s.nextDaHeight == s.nextToEmit {
      IterateCleanPoll(s, ev);
      NothingHeld(Iterate(s, ev));
    } else {
      NothingHeld(s);
      var r := Spawn(s);
      assert r.Load() == 1 && Refill(s) == Refill(r) == r;
      assert r.pending == multiset{s.nextDaHeight};
      var c := Joined(r, ev.task).(completed := r.completed[ev.task := ev.reply.block]);
      assert ev.task in c.completed && s.nextToEmit !in c.completed;
    }
  }

  /** The replies of a node whose chain ends at `head`. */
  ghost predicate FromChainEndingAt(head: nat, ev: Event) {
    if ev.task <= head then ev.reply.Found? && ev.reply.block.number == ev.task else ev.reply.NotYet?
  }

  /** Only `d` and the heights [k, d + 8) are in flight, in Poll mode, and nothing has been emitted. */
  ghost predicate Probing(s: State, d: nat, k: nat) {
    && s.mode.Poll? && s.running && s.nextToEmit == d && s.emitted == [] && s.completed == map[]
    && |s.pending| == 1 + (d + 8 - k)
    && forall h: nat :: s.pending[h] == if h == d || k <= h < d + 8 then 1 else 0
  }

  lemma ProbeAnswered(s: State, d: nat, k: nat)
    requires d + 1 < k < d + 8 && Probing(s, d, k)
    ensures var ev := Event(k, NotYet, 1);
      Enabled(s, ev) && Probing(Iterate(s, ev), d, k + 1) && Iterate(s, ev).nextDaHeight == d
  {
    assert Refill(s) == s;
    assert s.pending[k] == 1;
  }

  /** The run `evs` from `s` is truthful about a chain ending at d, and ends frozen with exactly the block d
      emitted. */
  ghost predicate FreezesAfter(d: nat, s: State, evs: seq<Event>) {
    && Schedule(s, evs) && AllFaithful(evs)
    && (forall i | 0 <= i < |evs| :: FromChainEndingAt(d, evs[i]))
    && Run(s, evs).running && Frozen(Run(s, evs)) && Run(s, evs).emitted == [L1Block(d, [])]
  }

  lemma FreezesLater(d: nat, s: State, ev: Event, rest: seq<Event>)
    requires Enabled(s, ev) && FromChainEndingAt(d, ev) && FreezesAfter(d, Iterate(s, ev), rest)
    ensures FreezesAfter(d, s, [ev] + rest)
  {
    Prepend(s, ev, rest);
  }

  /** The block d arrives from the batch and is emitted; the queue has drained but `nextDaHeight` is d. */
  lemma HeadArrives(s: State, d: nat)
    requires Probing(s, d, d + 8) && s.nextDaHeight == d
    ensures var ev := Event(d, Found(L1Block(d, [])), 1); var n := Iterate(s, ev);
      && Enabled(s, ev)
      && n.mode.Poll? && n.running && n.Load() == 0 && n.emitted == [L1Block(d, [])]
      && n.nextToEmit == d + 1 && n.nextDaHeight == d
  {
    assert s.pending[d] == 1 && Refill(s) == s;
    var c := Joined(s, d).(completed := map[d := L1Block(d, [])]);
    var n := SendNext(c);
    assert |n.completed| == 0 && |n.pending| == 0;
    NothingHeld(n);
    assert Emit(c, 1) == Emit(n, 0) == n;
  }

  /** The drained queue asks for d again, and the answer cannot be emitted. */
  lemma HeadArrivesAgain(n: State, d: nat)
    requires n.mode.Poll? && n.running && n.Load() == 0 && n.emitted == [L1Block(d, [])]
    requires n.nextToEmit == d + 1 && n.nextDaHeight == d
    ensures FreezesAfter(d, n, [Event(d, Found(L1Block(d, [])), 1)] + [])
  {
    var c := AskedAgain(n, d);
    FreezesLater(d, n, Event(d, Found(L1Block(d, [])), 1), []);
  }

  lemma AskedAgain(n: State, d: nat) returns (c: State)
    requires n.mode.Poll? && n.running && n.Load() == 0 && n.nextToEmit == d + 1 && n.nextDaHeight == d
    ensures var ev := Event(d, Found(L1Block(d, [])), 1); Enabled(n, ev) && c == Iterate(n, ev)
    ensures c.running && Frozen(c) && c.emitted == n.emitted
  {
    NothingHeld(n);
    var r := Spawn(n);
    assert r.Load() == 1 && Refill(n) == Refill(r) == r;
    assert r.pending == multiset{d};
    c := Joined(r, d).(completed := map[d := L1Block(d, [])]);
    assert d in c.completed;
  }

  lemma {:induction false} LateHeadFreezes(s: State, d: nat, k: nat) returns (evs: seq<Event>)
    requires d + 1 < k <= d + 8 && Probing(s, d, k) && (k == d + 8 ==> s.nextDaHeight == d)
    ensures FreezesAfter(d, s, evs)
    decreases d + 8 - k
  {
    if k == d + 8 {
      var ev := Event(d, Found(L1Block(d, [])), 1);
      HeadArrives(s, d);
      HeadArrivesAgain(Iterate(s, ev), d);
      evs := [ev] + ([ev] + []);
      FreezesLater(d, s, ev, [ev] + []);
    } else {
      var ev := Event(k, NotYet, 1);
      ProbeAnswered(s, d, k);
      var rest := LateHeadFreezes(Iterate(s, ev), d, k + 1);
      FreezesLater(d, s, ev, rest);
      evs := [ev] + rest;
    }
  }

  lemma FirstProbe(d: nat)
    ensures Enabled(Start(d), Event(d + 1, NotYet, 1))
    ensures Probing(Iterate(Start(d), Event(d + 1, NotYet, 1)), d, d + 2)
  {
    var r := FirstRefill(d);
    var n := Joined(r, d + 1).(mode := Poll);
    assert r.pending[d + 1] == 1;
    assert Iterate(Start(d), Event(d + 1, NotYet, 1)) == n;
    forall h: nat ensures n.pending[h] == if h == d || d + 2 <= h < d + 8 then 1 else 0 {
      assert r.pending[h] == if d <= h < d + 8 then 1 else 0;
    }
  }

  lemma FirstRefill(d: nat) returns (r: State)
    ensures r == Refill(Start(d)) && r == Start(d).(pending := r.pending, nextDaHeight := d + 8)
    ensures |r.pending| == 8 && forall h: nat :: r.pending[h] == if d <= h < d + 8 then 1 else 0
  {
    r := Refill(Start(d));
    RefillShape(Start(d));
  }

  /** Progress is not guaranteed even without rate limiting: a node whose chain ends at d, answering the
      first batch truthfully but answering for d last, leaves the queue frozen after one block. */
  lemma HonestNodeCanFreezeTheQueue(d: nat) returns (evs: seq<Event>)
    ensures Schedule(Start(d), evs) && AllFaithful(evs)
    ensures forall i | 0 <= i < |evs| :: FromChainEndingAt(d, evs[i])
    ensures var s := Run(Start(d), evs);
      && s.running && s.emitted == [L1Block(d, [])]
      && forall more | Schedule(s, more) && AllFaithful(more) :: Run(s, more).emitted == s.emitted
  {
    var ev := Event(d + 1, NotYet, 1);
    FirstProbe(d);
    var rest := LateHeadFreezes(Iterate(Start(d), ev), d, d + 2);
    FreezesLater(d, Start(d), ev, rest);
    evs := [ev] + rest;
    RunKeepsInv(Start(d), evs);
    var s := Run(Start(d), evs);
    forall more | Schedule(s, more) && AllFaithful(more) ensures Run(s, more).emitted == s.emitted {
      FrozenForever(s, more);
    }
  }
}
