/** What every step of the stream keeps: the accounts of every batch, the
    order of delivery, who may have stopped and why, and a measure that every
    step uses up. */
module StreamSafety {
  import opened Basics
  import opened Chunks
  import opened Stream

  // ---- sums ---------------------------------------------------------------------------------

  function SumOf(f: Worker -> nat, ws: seq<Worker>): nat
  {
    if ws == [] then 0 else f(ws[0]) + SumOf(f, ws[1..])
  }

  lemma {:induction false} SumUpdate(f: Worker -> nat, ws: seq<Worker>, i: nat, w: Worker)
    requires i < |ws|
    ensures SumOf(f, ws[i := w]) + f(ws[i]) == SumOf(f, ws) + f(w)
    decreases |ws|
  {
    if i > 0 {
      SumUpdate(f, ws[1..], i - 1, w);
      assert ws[i := w][1..] == ws[1..][i - 1 := w];
    } else {
      assert ws[i := w][1..] == ws[1..];
    }
  }

  lemma {:induction false} SumIdle(f: Worker -> nat, n: nat)
    ensures SumOf(f, seq(n, i => Worker.Checking)) == n * f(Checking)
  {
    if n > 0 {
      SumIdle(f, n - 1);
      assert seq(n, i => Worker.Checking)[1..] == seq(n - 1, i => Worker.Checking);
      assert n * f(Checking) == (n - 1) * f(Checking) + f(Checking);
    }
  }

  // ---- accounts -----------------------------------------------------------------------------

  /** How often the batch `b` occurs. */
  function Count(b: seq<Chunk>, batches: seq<seq<Chunk>>): nat
  {
    if batches == [] then 0 else One(b, batches[0]) + Count(b, batches[1..])
  }

  function One(b: seq<Chunk>, chunks: seq<Chunk>): nat { if chunks == b then 1 else 0 }

  /** The batches as decoded. */
  function Replies(q: seq<seq<Option<Chunk>>>): seq<seq<Chunk>>
  {
    if q == [] then [] else [Present(q[0])] + Replies(q[1..])
  }

  function Contents(out: seq<Item>): seq<seq<Chunk>>
  {
    if out == [] then [] else [ChunksOf(out[0])] + Contents(out[1..])
  }

  function Held(b: seq<Chunk>, w: Worker): nat
  {
    match w
    case Replied(reply) => One(b, Present(reply))
    case Sending(item) => One(b, ChunksOf(item))
    case _ => 0
  }

  /** Every batch with data is in exactly one place. */
  ghost predicate Accounts(c: Setup, s: State, b: seq<Chunk>)
  {
    b != [] ==>
      Count(b, Replies(c.batches)) == Count(b, s.received) + Count(b, Contents(s.out)) + SumOf(w => Held(b, w), s.workers)
                                      + Count(b, Replies(s.queue)) + Count(b, s.lost)
  }

  lemma {:induction false} CountAppend(b: seq<Chunk>, xs: seq<seq<Chunk>>, x: seq<Chunk>)
    ensures Count(b, xs + [x]) == Count(b, xs) + One(b, x)
    decreases |xs|
  {
    hide One;
    if xs != [] {
      CountAppend(b, xs[1..], x);
      assert (xs + [x])[1..] == xs[1..] + [x];
    } else {
      assert (xs + [x])[1..] == [];
    }
  }

  lemma {:induction false} ContentsAppend(out: seq<Item>, item: Item)
    ensures Contents(out + [item]) == Contents(out) + [ChunksOf(item)]
    decreases |out|
  {
    hide ChunksOf;
    if out != [] {
      ContentsAppend(out[1..], item);
      assert (out + [item])[1..] == out[1..] + [item];
    } else {
      assert (out + [item])[1..] == [];
    }
  }

  lemma AccountsMove(c: Setup, s: State, m: Move, b: seq<Chunk>)
    requires Accounts(c, s, b) && MoveEnabled(c, s, m) && (s.consumer.Inline? ==> s.workers == [])
    ensures Accounts(c, Moved(c, s, m), b)
  {
    hide Replies, Held;
    match m
    case Spawn => SumIdle(w => Held(b, w), c.workers); assert Held(b, Checking) == 0 by { HeldNothing(b); }
    case Receive =>
      if s.consumer.Receiving? {
        CountAppend(b, s.received, ChunksOf(s.out[0]));
      }
    case _ =>
  }

  lemma HeldNothing(b: seq<Chunk>)
    ensures Held(b, Checking) == 0
  {
  }

  lemma AccountsAct(c: Setup, s: State, i: nat, act: Act, b: seq<Chunk>)
    requires Accounts(c, s, b) && ActEnabled(c, s, i, act)
    ensures Accounts(c, Apply(c, s, Work(i, act)), b)
  {
    hide Present, Contents, SumOf;
    if b != [] {
      SumUpdate(w => Held(b, w), s.workers, i, NextWorker(c, s, i, act));
      match act
      case Send =>
        ContentsAppend(s.out, s.workers[i].item);
        CountAppend(b, Contents(s.out), ChunksOf(s.workers[i].item));
      case Fail =>
        if s.workers[i].Replied? {
          CountAppend(b, s.lost, Present(s.workers[i].reply));
        }
      case Drop => CountAppend(b, s.lost, ChunksOf(s.workers[i].item));
      case Pop => assert Present([]) == [] by { PresentNothing(); }
      case _ =>
    }
  }

  lemma PresentNothing()
    ensures Present([]) == []
  {
  }

  lemma AccountsStep(c: Setup, s: State, a: Step, b: seq<Chunk>)
    requires Accounts(c, s, b) && Enabled(c, s, a)
    requires s.consumer.Inline? ==> s.workers == []
    ensures Accounts(c, Apply(c, s, a), b)
  {
    hide Present, Contents, SumOf, Held, Moved, MoveEnabled;
    match a
    case Consume(m) => AccountsMove(c, s, m, b);
    case Work(i, act) => AccountsAct(c, s, i, act, b);
    case StrayPop =>
      if s.queue != [] {
        CountAppend(b, s.lost, Present(s.queue[0]));
      }
    case _ =>
  }

  // ---- what was yielded ---------------------------------------------------------------------

  function Concat(batches: seq<seq<Chunk>>): seq<Chunk>
  {
    if batches == [] then [] else Concat(batches[..|batches| - 1]) + batches[|batches| - 1]
  }

  /** Inline chunks first, then whole batches in the order received. */
  predicate InOrder(c: Setup, s: State)
  {
    var due := c.inline + Concat(s.received);
    match s.consumer
    case Inline(next) => next <= |c.inline| && s.delivered == c.inline[..next] && s.received == []
    case Yielding(rest) => s.delivered + rest == due
    case Leaving(o) => if o == Broken then s.delivered <= due else s.delivered == due
    case Ended(o) => if o == Broken then s.delivered <= due else s.delivered == due
    case _ => s.delivered == due
  }

  lemma InOrderStep(c: Setup, s: State, a: Step)
    requires InOrder(c, s) && Enabled(c, s, a)
    ensures InOrder(c, Apply(c, s, a))
  {
    hide Effect, NextWorker, ActEnabled, Moved, MoveEnabled, Concat, Present;
    match a
    case Consume(m) => InOrderMove(c, s, m);
    case Work(i, act) => EffectFrame(c, s, i, act);
    case _ =>
  }

  lemma EffectFrame(c: Setup, s: State, i: nat, act: Act)
    requires ActEnabled(c, s, i, act)
    ensures var t := Effect(c, s, i, act);
            t.consumer == s.consumer && t.received == s.received && t.delivered == s.delivered
  {
  }

  lemma InOrderYield(c: Setup, s: State, more: bool)
    requires InOrder(c, s) && MoveEnabled(c, s, Yield(more))
    ensures InOrder(c, Moved(c, s, Yield(more)))
  {
    hide Concat;
    if s.consumer.Inline? {
      assert c.inline[..s.consumer.next + 1] == c.inline[..s.consumer.next] + [c.inline[s.consumer.next]];
    } else {
      var rest := s.consumer.rest;
      assert (s.delivered + [rest[0]]) + rest[1..] == s.delivered + rest;
    }
  }

  lemma InOrderReceive(c: Setup, s: State)
    requires InOrder(c, s) && MoveEnabled(c, s, Receive)
    ensures InOrder(c, Moved(c, s, Receive))
  {
    if s.consumer.Yielding? {
      assert s.delivered + [] == s.delivered;
    } else if s.out[0].Batch? {
      var chunks := s.out[0].chunks;
      assert (s.received + [chunks])[..|s.received|] == s.received;
      assert (c.inline + Concat(s.received)) + chunks == c.inline + (Concat(s.received) + chunks);
    }
  }

  lemma InOrderMove(c: Setup, s: State, m: Move)
    requires InOrder(c, s) && MoveEnabled(c, s, m)
    ensures InOrder(c, Moved(c, s, m))
  {
    match m
    case Yield(more) => InOrderYield(c, s, more);
    case Spawn => assert c.inline[..|c.inline|] == c.inline && c.inline + Concat([]) == c.inline;
    case Receive => InOrderReceive(c, s);
    case _ =>
  }

  // ---- why things stop ------------------------------------------------------------------------

  /** Something will make the stream end in an error, or the consumer has
      already broken off. */
  predicate Alarmed(s: State)
  {
    || s.cancelled
    || Fault in s.out
    || (exists i :: 0 <= i < |s.workers| && s.workers[i] == Sending(Fault))
    || (s.consumer.Leaving? && s.consumer.outcome != Clean)
  }

  /** Before the workers start, nothing of the shared state is touched. */
  predicate Untouched(c: Setup, s: State)
  {
    && s.queue == c.batches && s.strays == 0 && s.out == [] && !s.closed && !s.done
    && s.received == [] && s.lost == [] && s.fetches == 0
  }

  predicate Phases(c: Setup, s: State)
  {
    && |s.out| <= c.workers
    && (s.workers == [] ==>
          && Untouched(c, s)
          && (s.consumer.Inline? || s.consumer == Ended(Broken) || (s.consumer == Ended(Clean) && !c.needsMore)))
    && (s.workers != [] ==> |s.workers| == c.workers && c.needsMore && !s.consumer.Inline?)
    && (s.closed ==> AllReturned(s.workers))
    && (s.consumer.LoopDone? ==> s.closed && s.out == [])
    && (s.consumer.Ended? && s.workers != [] ==> s.cancelled)
  }

  lemma PhasesMove(c: Setup, s: State, m: Move)
    requires Valid(c) && Phases(c, s) && MoveEnabled(c, s, m)
    ensures Phases(c, Moved(c, s, m))
  {
    hide Present;
    if m.Spawn? && c.needsMore {
      assert |Moved(c, s, m).workers| == c.workers;
    }
  }

  lemma PhasesAct(c: Setup, s: State, i: nat, act: Act)
    requires Phases(c, s) && ActEnabled(c, s, i, act)
    ensures Phases(c, Apply(c, s, Work(i, act)))
  {
    hide Present, Untouched, NextWorker;
    assert !s.workers[i].Returned?;
  }

  lemma PhasesStep(c: Setup, s: State, a: Step)
    requires Valid(c) && Phases(c, s) && Enabled(c, s, a)
    ensures Phases(c, Apply(c, s, a))
  {
    hide Present, Effect, NextWorker, Moved, MoveEnabled, ActEnabled;
    if a.Consume? {
      PhasesMove(c, s, a.move);
    } else if a.Work? {
      PhasesAct(c, s, a.i, a.act);
    }
  }

  /** A lost batch raises an alarm, and so does a worker that returned for
      any reason but the latches. */
  predicate Causes(c: Setup, s: State)
  {
    && (s.lost != [] || s.strays > 0 ==> Alarmed(s))
    && (forall i :: 0 <= i < |s.workers| && s.workers[i].Returned? ==> s.done || s.stop || Alarmed(s))
  }

  /** A clean end finds every worker home, nothing lost and nothing in transit. */
  predicate CleanEnd(c: Setup, s: State)
  {
    s.consumer in {Leaving(Clean), Ended(Clean)} && s.workers != [] ==>
      AllReturned(s.workers) && s.closed && s.out == [] && s.lost == [] && s.strays == 0 && (s.done || s.stop)
  }

  lemma AlarmMove(c: Setup, s: State, m: Move)
    requires Phases(c, s) && Alarmed(s) && MoveEnabled(c, s, m)
    ensures Alarmed(Moved(c, s, m))
  {
    hide Present, Untouched;
    var t := Moved(c, s, m);
    if !s.cancelled && !(s.consumer.Leaving? && s.consumer.outcome != Clean) {
      if Fault in s.out {
        var j :| 0 <= j < |s.out| && s.out[j] == Fault;
        if m.Receive? && s.consumer.Receiving? && j > 0 {
          assert t.out[j - 1] == Fault;
        }
      } else {
        var i :| 0 <= i < |s.workers| && s.workers[i] == Sending(Fault);
        assert t.workers[i] == Sending(Fault);
      }
    }
  }

  lemma AlarmAct(c: Setup, s: State, i: nat, act: Act)
    requires Alarmed(s) && ActEnabled(c, s, i, act)
    ensures Alarmed(Apply(c, s, Work(i, act)))
  {
    hide Present;
    var t := Apply(c, s, Work(i, act));
    if !s.cancelled && !(s.consumer.Leaving? && s.consumer.outcome != Clean) {
      if Fault in s.out {
        var j :| 0 <= j < |s.out| && s.out[j] == Fault;
        assert t.out[j] == Fault;
      } else {
        var j :| 0 <= j < |s.workers| && s.workers[j] == Sending(Fault);
        if j != i {
          assert t.workers[j] == Sending(Fault);
        } else if act.Send? {
          assert t.out[|s.out|] == Fault;
        }
      }
    }
  }

  lemma AlarmKept(c: Setup, s: State, a: Step)
    requires Phases(c, s) && Alarmed(s) && Enabled(c, s, a)
    ensures Alarmed(Apply(c, s, a))
  {
    hide Present, Phases, Effect, NextWorker, Moved, MoveEnabled, ActEnabled;
    match a
    case Consume(m) => AlarmMove(c, s, m);
    case Work(i, act) => AlarmAct(c, s, i, act);
    case _ =>
  }

  lemma CausesStep(c: Setup, s: State, a: Step)
    requires Valid(c) && Phases(c, s) && Causes(c, s) && Enabled(c, s, a)
    ensures Causes(c, Apply(c, s, a))
  {
    hide Present, Replies, Contents, Held;
    var t := Apply(c, s, a);
    if Alarmed(s) {
      AlarmKept(c, s, a);
    } else if a.Work? && a.act.Fail? {
      assert t.workers[a.i] == Sending(Fault);
    }
  }

  lemma CleanEndMove(c: Setup, s: State, m: Move)
    requires Valid(c) && Phases(c, s) && Causes(c, s) && CleanEnd(c, s) && MoveEnabled(c, s, m)
    ensures CleanEnd(c, Moved(c, s, m))
  {
    hide Untouched;
    if m.Check? && !s.cancelled && s.workers != [] {
      assert s.workers[0].Returned?;
    }
  }

  lemma CleanEndStep(c: Setup, s: State, a: Step)
    requires Valid(c) && Phases(c, s) && Causes(c, s) && CleanEnd(c, s) && Enabled(c, s, a)
    ensures CleanEnd(c, Apply(c, s, a))
  {
    hide Phases, Causes, Moved, MoveEnabled, Effect, NextWorker;
    match a
    case Consume(m) => CleanEndMove(c, s, m);
    case Work(i, act) =>
      EffectFrame(c, s, i, act);
      assert !s.workers[i].Returned?;
    case _ =>
  }

  // ---- when a drained reply means drained ------------------------------------------------------

  predicate NoData(q: seq<seq<Option<Chunk>>>)
  {
    forall i :: 0 <= i < |q| ==> Present(q[i]) == []
  }

  /** No batch with data stands behind a batch of null chunks only. */
  predicate NullsLast(q: seq<seq<Option<Chunk>>>)
  {
    q == [] || ((Present(q[0]) == [] ==> NoData(q[1..])) && NullsLast(q[1..]))
  }

  predicate DrainedRight(s: State)
  {
    && NullsLast(s.queue)
    && (s.done ==> NoData(s.queue))
    && (forall i :: 0 <= i < |s.workers| && s.workers[i].Replied? && Present(s.workers[i].reply) == [] ==>
          NoData(s.queue))
  }

  lemma DrainedAct(c: Setup, s: State, i: nat, act: Act)
    requires DrainedRight(s) && ActEnabled(c, s, i, act)
    ensures DrainedRight(Apply(c, s, Work(i, act)))
  {
    hide Present;
    if act.Pop? && s.queue != [] {
      assert NoData(s.queue) ==> NoData(s.queue[1..]);
    }
  }

  lemma DrainedMove(c: Setup, s: State, m: Move)
    requires DrainedRight(s) && MoveEnabled(c, s, m)
    ensures DrainedRight(Moved(c, s, m))
  {
    hide Present, NoData, NullsLast;
  }

  lemma DrainedStep(c: Setup, s: State, a: Step)
    requires DrainedRight(s) && Enabled(c, s, a)
    ensures DrainedRight(Apply(c, s, a))
  {
    hide Present, NoData, MoveEnabled, ActEnabled, Moved, Effect, NextWorker;
    match a
    case Consume(m) => DrainedMove(c, s, m);
    case Work(i, act) => DrainedAct(c, s, i, act);
    case StrayPop => assert s.queue != [] && NoData(s.queue) ==> NoData(s.queue[1..]) by { NoDataTail(s.queue); }
    case _ =>
  }

  lemma NoDataTail(q: seq<seq<Option<Chunk>>>)
    ensures q != [] && NoData(q) ==> NoData(q[1..])
  {
  }

  // ---- how long it can take ---------------------------------------------------------------------

  function BatchWork(batch: seq<Option<Chunk>>): nat { |batch| + 6 }

  function ItemWork(item: Item): nat { if item.Fault? then 1 else |item.chunks| + 2 }

  function Load(w: Worker): nat
  {
    match w
    case Checking => 5
    case Fetching => 4
    case Replied(reply) => if reply == [] then 3 else 9 + |reply|
    case Sending(item) => if item.Fault? then 2 else 8 + |item.chunks|
    case Returned => 0
  }

  function QueueWork(q: seq<seq<Option<Chunk>>>): nat
  {
    if q == [] then 0 else BatchWork(q[0]) + QueueWork(q[1..])
  }

  function OutWork(out: seq<Item>): nat
  {
    if out == [] then 0 else ItemWork(out[0]) + OutWork(out[1..])
  }

  function ConsumerWork(c: Setup, k: Consumer): nat
  {
    match k
    case Inline(next) => (if next <= |c.inline| then |c.inline| - next else 0) + 5 * c.workers + 5
    case Receiving => 4
    case Yielding(rest) => 5 + |rest|
    case LoopDone => 3
    case Leaving(_) => 2
    case Ended(_) => 0
  }

  function Flag(pending: bool): nat { if pending then 1 else 0 }

  function Remaining(c: Setup, s: State): nat
  {
    QueueWork(s.queue) + s.strays + SumOf(Load, s.workers) + OutWork(s.out) + ConsumerWork(c, s.consumer)
    + Flag(!s.closed) + Flag(!s.stop) + Flag(!s.cancelled)
  }

  lemma {:induction false} OutWorkAppend(out: seq<Item>, item: Item)
    ensures OutWork(out + [item]) == OutWork(out) + ItemWork(item)
    decreases |out|
  {
    if out != [] {
      OutWorkAppend(out[1..], item);
      assert (out + [item])[1..] == out[1..] + [item];
    } else {
      assert (out + [item])[1..] == [];
    }
  }

  lemma SpawnWorks(c: Setup, s: State)
    requires MoveEnabled(c, s, Spawn) && s.workers == []
    ensures Remaining(c, Moved(c, s, Spawn)) < Remaining(c, s)
  {
    hide QueueWork, OutWork;
    SumIdle(Load, c.workers);
    assert Load(Checking) == 5;
  }

  lemma MoveWorks(c: Setup, s: State, m: Move)
    requires MoveEnabled(c, s, m) && (s.consumer.Inline? ==> s.workers == [])
    ensures Remaining(c, Moved(c, s, m)) < Remaining(c, s)
  {
    hide QueueWork, SumOf;
    if m.Spawn? {
      SpawnWorks(c, s);
    }
  }

  lemma ActWorks(c: Setup, s: State, i: nat, act: Act)
    requires ActEnabled(c, s, i, act)
    ensures Remaining(c, Apply(c, s, Work(i, act))) < Remaining(c, s)
  {
    hide SumOf, OutWork, ConsumerWork, Present, Effect, NextWorker;
    SumUpdate(Load, s.workers, i, NextWorker(c, s, i, act));
    ActShifts(c, s, i, act);
  }

  /** What a step takes off its worker is more than it adds elsewhere. */
  lemma ActShifts(c: Setup, s: State, i: nat, act: Act)
    requires ActEnabled(c, s, i, act)
    ensures var t := Effect(c, s, i, act);
            && t.consumer == s.consumer && t.cancelled == s.cancelled && t.closed == s.closed && t.stop == s.stop
            && t.workers == s.workers
            && Load(NextWorker(c, s, i, act)) + QueueWork(t.queue) + OutWork(t.out) + t.strays
               < Load(s.workers[i]) + QueueWork(s.queue) + OutWork(s.out) + s.strays
  {
    hide OutWork, Present;
    if act.Send? {
      OutWorkAppend(s.out, s.workers[i].item);
    }
  }

  /** Every step, the environment's included, uses up work. */
  lemma RemainingFalls(c: Setup, s: State, a: Step)
    requires Enabled(c, s, a) && (s.consumer.Inline? ==> s.workers == [])
    ensures Remaining(c, Apply(c, s, a)) < Remaining(c, s)
  {
    hide SumOf, OutWork, ConsumerWork, MoveEnabled, ActEnabled, Moved, Effect, NextWorker, Present;
    match a
    case Consume(m) => MoveWorks(c, s, m);
    case Work(i, act) => ActWorks(c, s, i, act);
    case _ =>
  }

  /** Requests a worker may still make before the next pop. */
  function Token(w: Worker): nat
  {
    match w
    case Checking => 1
    case Replied(reply) => if reply == [] then 0 else 1
    case Sending(item) => if item.Fault? then 0 else 1
    case _ => 0
  }

  predicate FewFetches(c: Setup, s: State)
  {
    if s.workers == [] then s.fetches == 0 && s.queue == c.batches
    else s.fetches + |s.queue| + SumOf(Token, s.workers) <= |c.batches| + c.workers
  }

  lemma FewFetchesAct(c: Setup, s: State, i: nat, act: Act)
    requires FewFetches(c, s) && ActEnabled(c, s, i, act)
    ensures FewFetches(c, Apply(c, s, Work(i, act)))
  {
    hide SumOf, Present;
    SumUpdate(Token, s.workers, i, NextWorker(c, s, i, act));
  }

  lemma FewFetchesMove(c: Setup, s: State, m: Move)
    requires Valid(c) && Phases(c, s) && FewFetches(c, s) && MoveEnabled(c, s, m)
    ensures FewFetches(c, Moved(c, s, m))
  {
    hide SumOf, Present;
    if m.Spawn? {
      SumIdle(Token, c.workers);
    }
  }

  lemma FewFetchesStep(c: Setup, s: State, a: Step)
    requires Valid(c) && Phases(c, s) && FewFetches(c, s) && Enabled(c, s, a)
    ensures FewFetches(c, Apply(c, s, a))
  {
    hide SumOf, Present, MoveEnabled, ActEnabled, Moved, Effect, NextWorker;
    match a
    case Consume(m) => FewFetchesMove(c, s, m);
    case Work(i, act) => FewFetchesAct(c, s, i, act);
    case StrayPop => assert s.workers != [];
    case _ =>
  }

  /** Only batches with chunks are sent on. */
  ghost predicate Solid(s: State)
  {
    && (forall chunks <- s.received :: chunks != [])
    && (forall item <- s.out :: item.Batch? ==> item.chunks != [])
    && (forall w <- s.workers :: w.Sending? && w.item.Batch? ==> w.item.chunks != [])
  }

  lemma SolidStep(c: Setup, s: State, a: Step)
    requires Solid(s) && Enabled(c, s, a)
    ensures Solid(Apply(c, s, a))
  {
    hide Present, MoveEnabled, ActEnabled, Moved, Effect, NextWorker;
    match a
    case Consume(m) => SolidMove(c, s, m);
    case Work(i, act) => SolidAct(c, s, i, act);
    case _ =>
  }

  lemma SolidMove(c: Setup, s: State, m: Move)
    requires Solid(s) && MoveEnabled(c, s, m)
    ensures Solid(Moved(c, s, m))
  {
  }

  lemma SolidAct(c: Setup, s: State, i: nat, act: Act)
    requires Solid(s) && ActEnabled(c, s, i, act)
    ensures Solid(Apply(c, s, Work(i, act)))
  {
    hide Present;
    assert s.workers[i] in s.workers;
  }

  // ---- every run -----------------------------------------------------------------------------------

  ghost predicate Balanced(c: Setup, s: State)
  {
    forall b :: Accounts(c, s, b)
  }

  ghost predicate Inv(c: Setup, s: State)
  {
    Balanced(c, s) && InOrder(c, s) && Phases(c, s) && Causes(c, s) && CleanEnd(c, s) && FewFetches(c, s) && Solid(s)
  }

  lemma InvInit(c: Setup)
    requires Valid(c)
    ensures Inv(c, Init(c))
  {
  }

  lemma InvStep(c: Setup, s: State, a: Step)
    requires Valid(c) && Inv(c, s) && Enabled(c, s, a)
    ensures Inv(c, Apply(c, s, a))
  {
    hide Accounts, InOrder, Causes, CleanEnd, FewFetches, Solid, Moved, MoveEnabled, Effect, NextWorker, ActEnabled;
    forall b ensures Accounts(c, Apply(c, s, a), b) {
      AccountsStep(c, s, a, b);
    }
    InOrderStep(c, s, a);
    PhasesStep(c, s, a);
    CausesStep(c, s, a);
    CleanEndStep(c, s, a);
    FewFetchesStep(c, s, a);
    SolidStep(c, s, a);
  }

  /** Every state of every run keeps the invariant, and no run is longer than
      the work there is to do. */
  lemma {:induction false} RunKeeps(c: Setup, s: State, steps: seq<Step>, t: State)
    requires Valid(c) && Inv(c, s) && Path(c, s, steps, t)
    ensures Inv(c, t) && |steps| + Remaining(c, t) <= Remaining(c, s)
    ensures DrainedRight(s) ==> DrainedRight(t)
    decreases |steps|
  {
    hide Balanced, InOrder, Causes, CleanEnd, FewFetches, Solid, DrainedRight, Apply, Enabled;
    if steps != [] {
      InvStep(c, s, steps[0]);
      RemainingFalls(c, s, steps[0]);
      if DrainedRight(s) {
        DrainedStep(c, s, steps[0]);
      }
      RunKeeps(c, Apply(c, s, steps[0]), steps[1..], t);
    }
  }
}
