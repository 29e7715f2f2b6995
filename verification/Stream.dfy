/** The parallel fetch behind Result.Chunks as a step system: workers racing
    on one result, a bounded channel, three ways to stop, a goroutine that
    closes the channel, and the consumer's loop. A fetch is a destructive read:
    the server pops a batch whether or not its reply arrives. */
module Stream {
  import opened Basics
  import opened Chunks

  datatype Item = Batch(chunks: seq<Chunk>) | Fault

  /** Where a worker stands in its loop. */
  datatype Worker =
    | Checking                           // the select at the loop head
    | Fetching                           // request under way, not yet served
    | Replied(reply: seq<Option<Chunk>>)     // served, not yet decoded
    | Sending(item: Item)             // the select around the channel send
    | Returned                           // after wg.Done

  datatype Outcome = Clean | Failed | Broken

  datatype Consumer =
    | Inline(next: nat)                  // yielding the prepare response's chunks
    | Receiving                          // at `range out`
    | Yielding(rest: seq<Chunk>)             // inside one batch
    | LoopDone                           // channel closed and empty
    | Leaving(outcome: Outcome)          // before the deferred cancel
    | Ended(outcome: Outcome)

  /** One result: what came inline and what the server holds. A server may
      send null chunks; the decoder drops them. */
  datatype Setup = Setup(workers: nat, inline: seq<Chunk>, needsMore: bool, batches: seq<seq<Option<Chunk>>>)

  datatype State = State(
    queue: seq<seq<Option<Chunk>>>,          // batches the server still holds
    strays: nat,                         // given-up requests the server may still serve
    workers: seq<Worker>,
    out: seq<Item>, closed: bool,
    done: bool, stop: bool, cancelled: bool,
    consumer: Consumer,
    delivered: seq<Chunk>,                   // chunks yielded so far
    received: seq<seq<Chunk>>,               // batches the consumer took, in order
    lost: seq<seq<Chunk>>,               // batches popped that cannot arrive any more
    fetches: nat)

  datatype Move = Yield(more: bool) | Spawn | Receive | LeaveLoop | Check | Return

  datatype Act = Observe | Request | Pop | Fail | Decode | Send | Drop

  datatype Step =
    | Cancel                             // the caller's context dies
    | Close                              // Result.Close
    | CloseOut                           // the closer goroutine
    | StrayPop                           // the server serves an abandoned request
    | Consume(move: Move)
    | Work(i: nat, act: Act)

  /** The configured worker count, defaulted as the client does. */
  function WorkerCount(configured: int): (n: nat)
    ensures n >= 1 && (configured > 0 ==> n == configured) && (configured <= 0 ==> n == 4)
  {
    if configured <= 0 then 4 else configured
  }

  /** A batch as decodeChunkList returns it. */
  function Present(reply: seq<Option<Chunk>>): (chunks: seq<Chunk>)
    ensures |chunks| <= |reply|
  {
    if reply == [] then []
    else (if reply[0].Some? then [reply[0].value] else []) + Present(reply[1..])
  }

  predicate Valid(c: Setup) { c.workers >= 1 }

  function Init(c: Setup): State
  {
    State(c.batches, 0, [], [], false, false, false, false, Inline(0), [], [], [], 0)
  }

  // ---- steps -----------------------------------------------------------------------------

  predicate AllReturned(ws: seq<Worker>)
  {
    forall i :: 0 <= i < |ws| ==> ws[i].Returned?
  }

  predicate Halted(s: State) { s.cancelled || s.done || s.stop }

  predicate MoveEnabled(c: Setup, s: State, m: Move)
  {
    match m
    case Yield(_) => (s.consumer.Inline? && s.consumer.next < |c.inline|) || (s.consumer.Yielding? && s.consumer.rest != [])
    case Spawn => s.consumer.Inline? && s.consumer.next == |c.inline|
    case Receive => (s.consumer.Receiving? && s.out != []) || (s.consumer.Yielding? && s.consumer.rest == [])
    case LeaveLoop => s.consumer.Receiving? && s.out == [] && s.closed
    case Check => s.consumer.LoopDone?
    case Return => s.consumer.Leaving?
  }

  predicate ActEnabled(c: Setup, s: State, i: nat, act: Act)
  {
    i < |s.workers| &&
    match act
    case Observe => s.workers[i].Checking? && Halted(s)
    case Request => s.workers[i].Checking? && !Halted(s)
    case Pop => s.workers[i].Fetching?
    case Fail => s.workers[i].Fetching? || s.workers[i].Replied?
    case Decode => s.workers[i].Replied?
    case Send => s.workers[i].Sending? && |s.out| < c.workers
    case Drop => s.workers[i].Sending? && s.cancelled
  }

  predicate Enabled(c: Setup, s: State, a: Step)
  {
    match a
    case Cancel => !s.cancelled
    case Close => !s.stop
    case CloseOut => s.workers != [] && AllReturned(s.workers) && !s.closed
    case StrayPop => s.strays > 0
    case Consume(m) => MoveEnabled(c, s, m)
    case Work(i, act) => ActEnabled(c, s, i, act)
  }

  function ChunksOf(item: Item): seq<Chunk> { if item.Fault? then [] else item.chunks }

  /** One step of the consumer's loop. */
  function Moved(c: Setup, s: State, m: Move): State
    requires MoveEnabled(c, s, m)
  {
    match m
    case Yield(more) =>
      if s.consumer.Inline? then
        s.(delivered := s.delivered + [c.inline[s.consumer.next]],
           consumer := if more then Inline(s.consumer.next + 1) else Ended(Broken))
      else
        s.(delivered := s.delivered + [s.consumer.rest[0]],
           consumer := if more then Yielding(s.consumer.rest[1..]) else Leaving(Broken))
    case Spawn =>
      if !c.needsMore then s.(consumer := Ended(Clean))
      else s.(workers := seq(c.workers, i => Checking), consumer := Receiving)
    case Receive =>
      if s.consumer.Yielding? then s.(consumer := Receiving)
      else if s.out[0].Fault? then s.(out := s.out[1..], consumer := Leaving(Failed))
      else s.(out := s.out[1..], consumer := Yielding(s.out[0].chunks), received := s.received + [s.out[0].chunks])
    case LeaveLoop => s.(consumer := LoopDone)
    case Check => s.(consumer := Leaving(if s.cancelled then Failed else Clean))
    case Return => s.(consumer := Ended(s.consumer.outcome), cancelled := true)
  }

  /** One step of worker `i`: where it stands next. */
  function NextWorker(c: Setup, s: State, i: nat, act: Act): Worker
    requires ActEnabled(c, s, i, act)
  {
    var w := s.workers[i];
    match act
    case Observe => Returned
    case Request => Fetching
    case Pop => Replied(if s.queue == [] then [] else s.queue[0])
    case Fail => Sending(Fault)
    case Decode => if Present(w.reply) == [] then Returned else Sending(Batch(Present(w.reply)))
    case Send => if w.item.Fault? then Returned else Checking
    case Drop => Returned
  }

  /** ... and what it does to the shared state. */
  function Effect(c: Setup, s: State, i: nat, act: Act): State
    requires ActEnabled(c, s, i, act)
  {
    var w := s.workers[i];
    match act
    case Observe => s
    case Request => s.(fetches := s.fetches + 1)
    case Pop => if s.queue == [] then s else s.(queue := s.queue[1..])
    case Fail =>
      if w.Fetching? then s.(strays := s.strays + 1)
      else s.(lost := s.lost + [Present(w.reply)])
    case Decode => if Present(w.reply) == [] then s.(done := true) else s
    case Send => s.(out := s.out + [w.item])
    case Drop => s.(lost := s.lost + [ChunksOf(w.item)])
  }

  function Apply(c: Setup, s: State, a: Step): State
    requires Enabled(c, s, a)
  {
    match a
    case Cancel => s.(cancelled := true)
    case Close => s.(stop := true)
    case CloseOut => s.(closed := true)
    case StrayPop =>
      if s.queue == [] then s.(strays := s.strays - 1)
      else s.(strays := s.strays - 1, queue := s.queue[1..], lost := s.lost + [Present(s.queue[0])])
    case Consume(m) => Moved(c, s, m)
    case Work(i, act) => Effect(c, s, i, act).(workers := s.workers[i := NextWorker(c, s, i, act)])
  }

  /** `steps` leads from `s` to `t`. */
  predicate Path(c: Setup, s: State, steps: seq<Step>, t: State)
    decreases |steps|
  {
    if steps == [] then s == t
    else Enabled(c, s, steps[0]) && Path(c, Apply(c, s, steps[0]), steps[1..], t)
  }

  /** `t` is the state after some run of this result's stream. */
  predicate Reaches(c: Setup, steps: seq<Step>, t: State)
  {
    Path(c, Init(c), steps, t)
  }
}
