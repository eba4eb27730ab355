/** The concurrent L1 block fetcher of crates/downloader/src/download_queue.rs.

The source runs one infinite loop. Here a value of type `State` is the queue as it is at the head of that
loop, `Iterate` is one pass through it, and everything the loop does not decide (which request finishes
next, what the node answers, whether the receiver is still there) comes from an `Event`. The class at the
end is the loop body as the source writes it, proved equal to `Iterate`. */
module DownloadQueue {
  import opened Wrappers
  import opened Codec

  datatype Mode = Batch | Poll {
    /** How many requests may be in flight or waiting to be emitted. */
    function Concurrency(): (n: nat)
      ensures 1 <= n <= 8
    {
      match this
      case Batch => 8
      case Poll => 1
    }
  }

  /** What the node answers to one request. */
  datatype Reply =
    | Found(block: L1Block)
    | NotYet
    | RateLimited
    | Failed

  /** One choice of the environment: the request that finishes, its reply, and how many sends to the
      receiver succeed in this pass before the receiver is found to be gone. */
  datatype Event = Event(task: nat, reply: Reply, accepted: nat)

  /** The queue at the head of the loop. `pending` holds the height of every request in flight. */
  datatype State = State(
    nextDaHeight: nat,
    pending: multiset<nat>,
    completed: map<nat, L1Block>,
    mode: Mode,
    nextToEmit: nat,
    emitted: seq<L1Block>,
    running: bool)
  {
    function Load(): nat { |pending| + |completed| }
  }

  function Start(daHeight: nat): State {
    State(daHeight, multiset{}, map[], Batch, daHeight, [], true)
  }

  /** Request one more height. */
  function Spawn(s: State): State {
    s.(pending := s.pending + multiset{s.nextDaHeight}, nextDaHeight := s.nextDaHeight + 1)
  }

  /** Queue downloads up to the concurrency limit. */
  function Refill(s: State): State
    decreases s.mode.Concurrency() - s.Load()
  {
    if s.Load() < s.mode.Concurrency() then Refill(Spawn(s)) else s
  }

  /** Move the next block from `completed` to the output. */
  function SendNext(s: State): State
    requires s.nextToEmit in s.completed
  {
    s.(completed := Without(s.completed, s.nextToEmit),
       emitted := s.emitted + [s.completed[s.nextToEmit]],
       nextToEmit := s.nextToEmit + 1)
  }

  /** Send completed blocks while the first one is the next to emit. A block is taken out of `completed`
      before it is sent, and a failed send ends the loop. */
  function Emit(s: State, accepted: nat): State
    decreases |s.completed|
  {
    if FirstKeyIs(s.completed, s.nextToEmit) then
      if accepted == 0 then
        s.(completed := Without(s.completed, s.nextToEmit), running := false)
      else
        Emit(SendNext(s), accepted - 1)
    else
      s
  }

  lemma EmitUnfolds(s: State, accepted: nat)
    requires FirstKeyIs(s.completed, s.nextToEmit)
    ensures accepted == 0 ==>
      Emit(s, accepted) == s.(completed := Without(s.completed, s.nextToEmit), running := false)
    ensures accepted > 0 ==> Emit(s, accepted) == Emit(SendNext(s), accepted - 1)
  {
  }

  /** React to a reply that has just been joined. */
  function Answer(t: State, reply: Reply, accepted: nat): State {
    match reply
    case Found(block) => Emit(t.(completed := t.completed[block.number := block]), accepted)
    case NotYet =>
      if t.mode.Batch? then
        Emit(t.(mode := Poll), accepted)
      else
        t.(nextDaHeight := t.nextToEmit)
    case RateLimited => Emit(t, accepted)
    case Failed => t.(running := false)
  }

  /** The loop suspends on a request, instead of finding none in flight. */
  predicate Awaits(s: State) {
    Refill(s).pending != multiset{}
  }

  /** The event names a request that is in flight once the queue has been refilled. */
  predicate Enabled(s: State, ev: Event) {
    s.running && (Awaits(s) ==> ev.task in Refill(s).pending)
  }

  /** One pass through the loop. */
  function Iterate(s: State, ev: Event): State {
    var r := Refill(s);
    if r.pending == multiset{} then
      Emit(r, ev.accepted)
    else
      Answer(r.(pending := r.pending - multiset{ev.task}), ev.reply, ev.accepted)
  }

  /** Any schedule of events, each possible when it happens. */
  predicate Schedule(s: State, evs: seq<Event>)
    decreases |evs|
  {
    |evs| > 0 ==> Enabled(s, evs[0]) && Schedule(Iterate(s, evs[0]), evs[1..])
  }

  function Run(s: State, evs: seq<Event>): State
    decreases |evs|
  {
    if |evs| == 0 then s else Run(Iterate(s, evs[0]), evs[1..])
  }

  /** The loop as the source writes it: one field per variable it updates. */
  class Queue {
    var nextDaHeight: nat
    var pending: multiset<nat>
    var completed: map<nat, L1Block>
    var mode: Mode
    var nextToEmit: nat
    var emitted: seq<L1Block>
    var running: bool

    function Abs(): State
      reads this
    {
      State(nextDaHeight, pending, completed, mode, nextToEmit, emitted, running)
    }

    constructor StartFrom(daHeight: nat)
      ensures Abs() == Start(daHeight)
    {
      nextDaHeight, pending, completed := daHeight, multiset{}, map[];
      mode, nextToEmit, emitted, running := Batch, daHeight, [], true;
    }

    method QueueDownloads()
      modifies this
      ensures Abs() == Refill(old(Abs()))
    {
      while |pending| + |completed| < mode.Concurrency()
        invariant Refill(Abs()) == Refill(old(Abs()))
        decreases mode.Concurrency() - |pending| - |completed|
      {
        ghost var before := Abs();
        pending := pending + multiset{nextDaHeight};
        nextDaHeight := nextDaHeight + 1;
        assert Abs() == Spawn(before);
      }
    }

    /** Take the next block out of `completed` and send it. */
    method EmitNext(accepted: nat) returns (sent: bool)
      requires FirstKeyIs(completed, nextToEmit)
      modifies this
      ensures sent == (accepted > 0)
      ensures Abs() == if sent then SendNext(old(Abs()))
                       else old(Abs()).(completed := Without(old(completed), old(nextToEmit)), running := false)
    {
      var block := completed[nextToEmit];
      completed := Without(completed, nextToEmit);
      if accepted == 0 {
        running := false;
        return false;
      }
      emitted := emitted + [block];
      nextToEmit := nextToEmit + 1;
      sent := true;
    }

    method EmitCompleted(accepted: nat)
      modifies this
      ensures Abs() == Emit(old(Abs()), accepted)
    {
      var left := accepted;
      while FirstKeyIs(completed, nextToEmit)
        invariant Emit(Abs(), left) == Emit(old(Abs()), accepted)
        decreases |completed|
      {
        EmitUnfolds(Abs(), left);
        var sent := EmitNext(left);
        if !sent {
          return;
        }
        left := left - 1;
      }
    }

    /** React to the reply of a joined request: go on to the emit loop, or not. */
    method React(reply: Reply, ghost accepted: nat) returns (goOn: bool)
      modifies this
      ensures Answer(old(Abs()), reply, accepted) == if goOn then Emit(Abs(), accepted) else Abs()
    {
      goOn := true;
      match reply {
        case Found(block) =>
          completed := completed[block.number := block];
        case NotYet =>
          if mode == Batch {
            mode := Poll;
          } else {
            nextDaHeight := nextToEmit;
            goOn := false;
          }
        case RateLimited =>
        case Failed =>
          running := false;
          goOn := false;
      }
    }

    method Pass(ev: Event)
      requires Enabled(Abs(), ev)
      modifies this
      ensures Abs() == Iterate(old(Abs()), ev)
    {
      QueueDownloads();
      var goOn := true;
      if pending != multiset{} {
        pending := pending - multiset{ev.task};
        goOn := React(ev.reply, ev.accepted);
      }
      if goOn { EmitCompleted(ev.accepted); }
    }

    /** Any finite part of the infinite loop. */
    method StreamInner(evs: seq<Event>)
      requires Schedule(Abs(), evs)
      modifies this
      ensures Abs() == Run(old(Abs()), evs)
    {
      var i := 0;
      while i < |evs|
        invariant 0 <= i <= |evs|
        invariant Schedule(Abs(), evs[i..])
        invariant Run(Abs(), evs[i..]) == Run(old(Abs()), evs)
      {
        assert evs[i..][0] == evs[i] && evs[i..][1..] == evs[i + 1..];
        Pass(evs[i]);
        i := i + 1;
      }
    }
  }
}
