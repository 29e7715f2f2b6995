/** What every run of the stream delivers, when it ends, and exactly which
    servers it can trust. */
module StreamRuns {
  import opened Basics
  import opened Chunks
  import opened Stream
  import opened StreamSafety

  /** The batches with data, as decoded. */
  function WithData(q: seq<seq<Option<Chunk>>>): seq<seq<Chunk>>
  {
    if q == [] then []
    else (if Present(q[0]) == [] then [] else [Present(q[0])]) + WithData(q[1..])
  }

  /** Everything arrived: inline chunks first, then every batch with data
      exactly once and in one piece, in some order. */
  ghost predicate Complete(c: Setup, t: State)
  {
    && t.delivered == c.inline + Concat(t.received)
    && multiset(t.received) == multiset(WithData(c.batches))
  }

  /** A server whose replies mean what the client takes them to mean: it says
      so when more is to be fetched, and no batch with data hides behind a
      batch of null chunks only, which reads as "drained". */
  predicate Whole(c: Setup)
  {
    NullsLast(c.batches) && (!c.needsMore ==> NoData(c.batches))
  }

  // ---- counting -----------------------------------------------------------------------

  lemma {:induction false} CountIsMultiplicity(b: seq<Chunk>, xs: seq<seq<Chunk>>)
    ensures multiset(xs)[b] == Count(b, xs)
    decreases |xs|
  {
    if xs != [] {
      CountIsMultiplicity(b, xs[1..]);
      assert xs == [xs[0]] + xs[1..];
    }
  }

  lemma {:induction false} WithDataCount(b: seq<Chunk>, q: seq<seq<Option<Chunk>>>)
    ensures Count(b, WithData(q)) == if b == [] then 0 else Count(b, Replies(q))
    decreases |q|
  {
    hide Present;
    if q != [] {
      WithDataCount(b, q[1..]);
      assert ([Present(q[0])] + WithData(q[1..]))[1..] == WithData(q[1..]);
      assert [] + WithData(q[1..]) == WithData(q[1..]);
    }
  }

  lemma {:induction false} NoDataCount(b: seq<Chunk>, q: seq<seq<Option<Chunk>>>)
    requires NoData(q) && b != []
    ensures Count(b, Replies(q)) == 0
    decreases |q|
  {
    hide Present;
    if q != [] {
      NoDataCount(b, q[1..]);
    }
  }

  lemma {:induction false} NothingHeld(b: seq<Chunk>, ws: seq<Worker>)
    requires AllReturned(ws)
    ensures SumOf(w => Held(b, w), ws) == 0
    decreases |ws|
  {
    if ws != [] {
      NothingHeld(b, ws[1..]);
      assert ws[0].Returned?;
    }
  }

  lemma {:induction false} SolidCount(xs: seq<seq<Chunk>>)
    requires forall x <- xs :: x != []
    ensures Count([], xs) == 0
    decreases |xs|
  {
    if xs != [] {
      assert xs[0] in xs && forall x <- xs[1..] :: x in xs;
      SolidCount(xs[1..]);
    }
  }

  // ---- safety -----------------------------------------------------------------------------

  /** What holds in every state of every run: no batch is delivered twice or
      made up, chunks come inline first and then in whole batches, and at most
      `N + W` fetches are issued. */
  lemma NeverTwice(c: Setup, steps: seq<Step>, t: State)
    requires Valid(c) && Reaches(c, steps, t)
    ensures multiset(t.received) <= multiset(WithData(c.batches))
    ensures t.delivered <= c.inline + Concat(t.received)
    ensures t.fetches <= |c.batches| + c.workers
  {
    hide Present, WithData, Concat;
    InvInit(c);
    RunKeeps(c, Init(c), steps, t);
    forall b ensures multiset(t.received)[b] <= multiset(WithData(c.batches))[b] {
      CountIsMultiplicity(b, t.received);
      CountIsMultiplicity(b, WithData(c.batches));
      WithDataCount(b, c.batches);
      assert Accounts(c, t, b);
      if b == [] {
        SolidCount(t.received);
      }
    }
    assert c.inline <= c.inline + Concat(t.received);
  }

  /** Exactly once: from a server that can be trusted, a stream that ends
      without error, break or Close has delivered everything. */
  lemma CleanIsComplete(c: Setup, steps: seq<Step>, t: State)
    requires Valid(c) && Whole(c) && Reaches(c, steps, t)
    requires t.consumer == Ended(Clean) && !t.stop
    ensures Complete(c, t)
  {
    hide Present, WithData, Concat;
    InvInit(c);
    assert DrainedRight(Init(c));
    RunKeeps(c, Init(c), steps, t);
    forall b ensures multiset(t.received)[b] == multiset(WithData(c.batches))[b] {
      CountIsMultiplicity(b, t.received);
      CountIsMultiplicity(b, WithData(c.batches));
      WithDataCount(b, c.batches);
      if b == [] {
        SolidCount(t.received);
      } else {
        assert Accounts(c, t, b);
        NothingHeld(b, t.workers);
        NoDataCount(b, t.queue);
      }
    }
  }

  // ---- progress -----------------------------------------------------------------------------

  /** The Chunks call has returned and every goroutine it started has ended. */
  predicate Finished(s: State)
  {
    s.consumer.Ended? && (s.workers != [] ==> AllReturned(s.workers) && s.closed)
  }

  /** Steps of the program and of a server that answers: nothing depends on a
      failure, a cancellation or a Close happening. */
  predicate Internal(a: Step)
  {
    !a.Cancel? && !a.Close? && !a.StrayPop? && !(a.Work? && a.act.Fail?)
  }

  /** A worker that has not returned can move, given room or a cancellation. */
  lemma WorkerMoves(c: Setup, s: State, i: nat)
    requires i < |s.workers| && !s.workers[i].Returned? && (|s.out| < c.workers || s.cancelled)
    ensures exists act: Act :: !act.Fail? && ActEnabled(c, s, i, act)
  {
    match s.workers[i]
    case Checking =>
      if Halted(s) {
        assert ActEnabled(c, s, i, Observe);
      } else {
        assert ActEnabled(c, s, i, Request);
      }
    case Fetching => assert ActEnabled(c, s, i, Pop);
    case Replied(_) => assert ActEnabled(c, s, i, Decode);
    case Sending(_) =>
      if |s.out| < c.workers {
        assert ActEnabled(c, s, i, Send);
      } else {
        assert ActEnabled(c, s, i, Drop);
      }
  }

  lemma WorkersMove(c: Setup, s: State)
    requires s.workers != [] && !s.closed && (|s.out| < c.workers || s.cancelled)
    ensures exists a :: Internal(a) && Enabled(c, s, a)
  {
    if AllReturned(s.workers) {
      assert Enabled(c, s, CloseOut) && Internal(CloseOut);
    } else {
      var i :| 0 <= i < |s.workers| && !s.workers[i].Returned?;
      WorkerMoves(c, s, i);
      var act: Act :| !act.Fail? && ActEnabled(c, s, i, act);
      assert Enabled(c, s, Work(i, act)) && Internal(Work(i, act));
    }
  }

  lemma ConsumerMoves(c: Setup, s: State)
    requires Valid(c) && Phases(c, s) && InOrder(c, s) && !s.consumer.Ended?
    ensures exists a :: Internal(a) && Enabled(c, s, a)
  {
    hide Untouched;
    match s.consumer
    case Inline(next) =>
      if next < |c.inline| {
        assert Enabled(c, s, Consume(Yield(true))) && Internal(Consume(Yield(true)));
      } else {
        assert Enabled(c, s, Consume(Spawn)) && Internal(Consume(Spawn));
      }
    case Receiving =>
      if s.out != [] {
        assert Enabled(c, s, Consume(Receive)) && Internal(Consume(Receive));
      } else if s.closed {
        assert Enabled(c, s, Consume(LeaveLoop)) && Internal(Consume(LeaveLoop));
      } else {
        WorkersMove(c, s);
      }
    case Yielding(rest) =>
      if rest != [] {
        assert Enabled(c, s, Consume(Yield(true))) && Internal(Consume(Yield(true)));
      } else {
        assert Enabled(c, s, Consume(Receive)) && Internal(Consume(Receive));
      }
    case LoopDone => assert Enabled(c, s, Consume(Check)) && Internal(Consume(Check));
    case Leaving(_) => assert Enabled(c, s, Consume(Return)) && Internal(Consume(Return));
  }

  /** Deadlock freedom: in every state of every run, after a break, an error,
      a cancellation or a Close as well, some step is enabled exactly until
      the consumer and every goroutine have ended. */
  lemma NoDeadlock(c: Setup, steps: seq<Step>, t: State)
    requires Valid(c) && Reaches(c, steps, t)
    ensures Finished(t) <==> !exists a :: Internal(a) && Enabled(c, t, a)
  {
    hide Accounts, InOrder, Causes, CleanEnd, FewFetches, Solid, Untouched;
    InvInit(c);
    RunKeeps(c, Init(c), steps, t);
    if Finished(t) {
      forall a | Internal(a) ensures !Enabled(c, t, a) {
      }
    } else if !t.consumer.Ended? {
      ConsumerMoves(c, t);
    } else {
      WorkersMove(c, t);
    }
  }

  /** Termination: a run of any kind has a bounded number of steps. */
  lemma RunsEnd(c: Setup, steps: seq<Step>, t: State)
    requires Valid(c) && Reaches(c, steps, t)
    ensures |steps| + Remaining(c, t) <= QueueWork(c.batches) + |c.inline| + 5 * c.workers + 8
  {
    InvInit(c);
    RunKeeps(c, Init(c), steps, t);
  }

  // ---- quiet runs --------------------------------------------------------------------------------

  /** Nothing goes wrong and nobody interferes. */
  predicate Quiet(a: Step)
  {
    !a.Cancel? && !a.Close? && !(a.Work? && a.act.Fail?) && a != Consume(Yield(false))
  }

  ghost predicate Calm(s: State)
  {
    && !s.stop && s.strays == 0
    && (s.cancelled ==> s.consumer.Ended?)
    && (forall item <- s.out :: item.Batch?)
    && (forall w <- s.workers :: w.Sending? ==> w.item.Batch?)
    && (s.consumer.Leaving? || s.consumer.Ended? ==> s.consumer.outcome == Clean)
  }

  lemma CalmMove(c: Setup, s: State, m: Move)
    requires Calm(s) && MoveEnabled(c, s, m) && m != Yield(false)
    ensures Calm(Moved(c, s, m))
  {
    if m.Receive? && s.consumer.Receiving? {
      assert s.out[0] in s.out;
    }
  }

  lemma CalmAct(c: Setup, s: State, i: nat, act: Act)
    requires Calm(s) && ActEnabled(c, s, i, act) && !act.Fail?
    ensures Calm(Apply(c, s, Work(i, act)))
  {
    hide Present;
    assert s.workers[i] in s.workers;
  }

  lemma {:induction false} CalmRun(c: Setup, s: State, steps: seq<Step>, t: State)
    requires Calm(s) && Path(c, s, steps, t) && forall a <- steps :: Quiet(a)
    ensures Calm(t)
    decreases |steps|
  {
    hide MoveEnabled, ActEnabled, Moved, Effect, NextWorker, Calm;
    if steps != [] {
      var a := steps[0];
      assert Quiet(a);
      match a {
        case Consume(m) => CalmMove(c, s, m);
        case Work(i, act) => CalmAct(c, s, i, act);
        case _ => CalmOther(c, s, a);
      }
      CalmRun(c, Apply(c, s, a), steps[1..], t);
    }
  }

  lemma CalmOther(c: Setup, s: State, a: Step)
    requires Calm(s) && Enabled(c, s, a) && (a.CloseOut? || a.StrayPop?)
    ensures Calm(Apply(c, s, a))
  {
  }

  /** No false alarms: when nothing fails and nobody interferes, the stream
      ends clean, with everything delivered. */
  lemma QuietIsComplete(c: Setup, steps: seq<Step>, t: State)
    requires Valid(c) && Whole(c) && Reaches(c, steps, t) && t.consumer.Ended?
    requires forall a <- steps :: Quiet(a)
    ensures t.consumer == Ended(Clean) && Complete(c, t)
  {
    CalmRun(c, Init(c), steps, t);
    CleanIsComplete(c, steps, t);
  }

  // ---- which servers can be trusted ------------------------------------------------------------------

  ghost predicate NeverShort(c: Setup)
  {
    forall steps, t :: Reaches(c, steps, t) && t.consumer == Ended(Clean) && !t.stop ==> Complete(c, t)
  }

  /** `s` has a continuation that ends clean with batches left on the server. */
  ghost predicate CanLose(c: Setup, s: State)
  {
    exists steps, t :: Path(c, s, steps, t) && t.consumer == Ended(Clean) && !t.stop && !NoData(t.queue)
  }

  lemma Step1(c: Setup, s: State, a: Step)
    requires Enabled(c, s, a) && CanLose(c, Apply(c, s, a))
    ensures CanLose(c, s)
  {
    var steps, t :| Path(c, Apply(c, s, a), steps, t) && t.consumer == Ended(Clean) && !t.stop && !NoData(t.queue);
    assert ([a] + steps)[1..] == steps;
    assert Path(c, s, [a] + steps, t);
  }

  /** The latch is closed, worker `i` and those behind it are at the loop
      head: they go home and the stream ends. */
  lemma {:induction false} GoHome(c: Setup, s: State, i: nat)
    requires i <= |s.workers| && s.workers != [] && s.done && !s.stop && !s.cancelled && !s.closed
    requires s.consumer == Receiving && s.out == [] && !NoData(s.queue)
    requires forall j :: 0 <= j < |s.workers| ==> s.workers[j] == if j < i then Returned else Checking
    ensures CanLose(c, s)
    decreases |s.workers| - i
  {
    hide NoData, CanLose;
    if i < |s.workers| {
      GoHome(c, Apply(c, s, Work(i, Observe)), i + 1);
      Step1(c, s, Work(i, Observe));
    } else {
      var s1 := Apply(c, s, CloseOut);
      var s2 := Apply(c, s1, Consume(LeaveLoop));
      var s3 := Apply(c, s2, Consume(Check));
      var s4 := Apply(c, s3, Consume(Return));
      AtEnd(c, s4);
      Step1(c, s3, Consume(Return));
      Step1(c, s2, Consume(Check));
      Step1(c, s1, Consume(LeaveLoop));
      Step1(c, s, CloseOut);
    }
  }

  lemma AtEnd(c: Setup, s: State)
    requires s.consumer == Ended(Clean) && !s.stop && !NoData(s.queue)
    ensures CanLose(c, s)
  {
    assert Path(c, s, [], s);
  }

  /** The consumer takes the rest of a batch. */
  lemma {:induction false} TakesRest(c: Setup, s: State, after: State)
    requires s.consumer.Yielding? && after == s.(consumer := Receiving, delivered := s.delivered + s.consumer.rest)
    requires CanLose(c, after)
    ensures CanLose(c, s)
    decreases |s.consumer.rest|
  {
    hide CanLose;
    var rest := s.consumer.rest;
    if rest == [] {
      assert s.delivered + rest == s.delivered;
      Step1(c, s, Consume(Receive));
    } else {
      assert s.delivered + rest == (s.delivered + [rest[0]]) + rest[1..];
      TakesRest(c, Apply(c, s, Consume(Yield(true))), after);
      Step1(c, s, Consume(Yield(true)));
    }
  }

  /** Everybody is at a loop head, the channel is empty. */
  ghost predicate Idle(c: Setup, s: State)
  {
    && s.workers == seq(c.workers, i => Checking) && s.out == [] && s.consumer == Receiving
    && !s.closed && !s.done && !s.stop && !s.cancelled
  }

  /** One worker alone, until it meets the misleading batch. */
  lemma {:induction false} LosesFrom(c: Setup, s: State)
    requires Valid(c) && Idle(c, s) && !NullsLast(s.queue)
    ensures CanLose(c, s)
    decreases |s.queue|
  {
    hide CanLose, NoData;
    var batch := s.queue[0];
    var s1 := Apply(c, s, Work(0, Request));
    var s2 := Apply(c, s1, Work(0, Pop));
    var s3 := Apply(c, s2, Work(0, Decode));
    if Present(batch) == [] {
      if !NoData(s.queue[1..]) {
        GoHome(c, s3, 1);
      } else {
        NoDataOrdered(s.queue[1..]);
      }
    } else {
      var s4 := Apply(c, s3, Work(0, Send));
      var s5 := Apply(c, s4, Consume(Receive));
      var s6 := s5.(consumer := Receiving, delivered := s5.delivered + s5.consumer.rest);
      assert s6.workers == seq(c.workers, i => Checking);
      LosesFrom(c, s6);
      TakesRest(c, s5, s6);
      Step1(c, s4, Consume(Receive));
      Step1(c, s3, Work(0, Send));
    }
    Step1(c, s2, Work(0, Decode));
    Step1(c, s1, Work(0, Pop));
    Step1(c, s, Work(0, Request));
  }

  lemma {:induction false} NoDataOrdered(q: seq<seq<Option<Chunk>>>)
    requires NoData(q)
    ensures NullsLast(q)
    decreases |q|
  {
    if q != [] {
      NoDataOrdered(q[1..]);
    }
  }

  lemma {:induction false} TakesInline(c: Setup, s: State, next: nat)
    requires Valid(c) && !Whole(c) && next <= |c.inline|
    requires s == Init(c).(consumer := Inline(next), delivered := c.inline[..next])
    ensures CanLose(c, s)
    decreases |c.inline| - next
  {
    hide CanLose, NoData, NullsLast;
    if next < |c.inline| {
      assert c.inline[..next] + [c.inline[next]] == c.inline[..next + 1];
      TakesInline(c, Apply(c, s, Consume(Yield(true))), next + 1);
      Step1(c, s, Consume(Yield(true)));
    } else {
      var s1 := Apply(c, s, Consume(Spawn));
      if c.needsMore {
        LosesFrom(c, s1);
      } else {
        if NoData(c.batches) {
          NoDataOrdered(c.batches);
        }
        AtEnd(c, s1);
      }
      Step1(c, s, Consume(Spawn));
    }
  }

  /** Data left on the server is data not delivered. */
  lemma LeftIsMissing(c: Setup, steps: seq<Step>, t: State)
    requires Valid(c) && Reaches(c, steps, t) && !NoData(t.queue)
    ensures !Complete(c, t)
  {
    hide Present, WithData;
    InvInit(c);
    RunKeeps(c, Init(c), steps, t);
    var i :| 0 <= i < |t.queue| && Present(t.queue[i]) != [];
    var b := Present(t.queue[i]);
    CountIsMultiplicity(b, t.received);
    CountIsMultiplicity(b, WithData(c.batches));
    WithDataCount(b, c.batches);
    assert Accounts(c, t, b);
    CountPositive(b, t.queue, i);
  }

  lemma {:induction false} CountPositive(b: seq<Chunk>, q: seq<seq<Option<Chunk>>>, i: nat)
    requires i < |q| && Present(q[i]) == b
    ensures Count(b, Replies(q)) > 0
    decreases i
  {
    hide Present;
    if i > 0 {
      CountPositive(b, q[1..], i - 1);
    }
  }

  /** The promise that a result is never silently short holds of a server if
      and only if its replies mean what the client takes them to mean: a batch
      of null chunks only is taken for the end of the result. */
  lemma NeverShortExactly(c: Setup)
    requires Valid(c)
    ensures NeverShort(c) <==> Whole(c)
  {
    hide Complete, NoData, NullsLast;
    if Whole(c) {
      forall steps, t | Reaches(c, steps, t) && t.consumer == Ended(Clean) && !t.stop ensures Complete(c, t) {
        CleanIsComplete(c, steps, t);
      }
    } else {
      assert c.inline[..0] == [];
      TakesInline(c, Init(c), 0);
      var steps, t :| Path(c, Init(c), steps, t) && t.consumer == Ended(Clean) && !t.stop && !NoData(t.queue);
      assert Reaches(c, steps, t);
      LeftIsMissing(c, steps, t);
    }
  }
}
