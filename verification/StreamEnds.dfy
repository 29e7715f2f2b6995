/** What the end of a stream says about its run: who broke off, what failed,
    whether it was told, and that stopping stops the fetching. */
module StreamEnds {
  import opened Basics
  import opened Chunks
  import opened Stream
  import opened StreamSafety
  import opened StreamRuns

  /** The loop over the chunks was broken off. */
  predicate BrokeOff(steps: seq<Step>) { Consume(Yield(false)) in steps }

  predicate IsFailure(a: Step) { a.Work? && a.act.Fail? }

  /** A fetch or its decoding failed. */
  predicate FetchFailed(steps: seq<Step>) { exists a <- steps :: IsFailure(a) }

  /** The caller's context died, if at all, after the check behind the loop. */
  predicate LateCancel(steps: seq<Step>)
  {
    forall i, j :: 0 <= i < |steps| && 0 <= j < |steps| && steps[i] == Cancel && steps[j] == Consume(Check) ==> j < i
  }

  /** The outcome, once decided. */
  function Decided(s: State): Option<Outcome>
  {
    if s.consumer.Leaving? || s.consumer.Ended? then Some(s.consumer.outcome) else None
  }

  predicate FaultAround(s: State)
  {
    Fault in s.out || exists i :: 0 <= i < |s.workers| && s.workers[i] == Sending(Fault)
  }

  // ---- what a state rests on, given the steps that led to it ----------------------------------

  predicate Interfered(s: State, steps: seq<Step>)
  {
    && (s.stop <==> Close in steps)
    && (Decided(s) == Some(Broken) <==> BrokeOff(steps))
    && (Cancel in steps ==> s.cancelled)
    && (s.cancelled ==> Cancel in steps || s.consumer.Ended?)
  }

  predicate Blamed(s: State, steps: seq<Step>)
  {
    && (FaultAround(s) ==> FetchFailed(steps))
    && (Decided(s) == Some(Failed) ==> FetchFailed(steps) || Cancel in steps)
  }

  predicate Alarms(s: State, steps: seq<Step>)
  {
    && (FetchFailed(steps) ==> s.workers != [] && Alarmed(s))
    && (Decided(s) == Some(Clean) ==> !FetchFailed(steps) && LateCancel(steps))
    && (Consume(Check) in steps ==> Decided(s).Some?)
  }

  lemma Longer(steps: seq<Step>, a: Step)
    ensures forall b :: b in steps + [a] <==> b in steps || b == a
    ensures FetchFailed(steps + [a]) <==> FetchFailed(steps) || IsFailure(a)
  {
    hide IsFailure;
    var all := steps + [a];
    assert forall b :: b in all <==> b in steps || b == a;
  }

  lemma InterferedStep(c: Setup, s: State, a: Step, steps: seq<Step>)
    requires Interfered(s, steps) && Enabled(c, s, a)
    ensures Interfered(Apply(c, s, a), steps + [a])
  {
    hide Present, Effect, NextWorker, FetchFailed, Moved, MoveEnabled;
    Longer(steps, a);
    match a
    case Consume(m) => MoveDecides(c, s, m);
    case Work(i, act) => EffectKeeps(c, s, i, act);
    case _ =>
  }

  lemma MoveDecides(c: Setup, s: State, m: Move)
    requires MoveEnabled(c, s, m)
    ensures var t := Moved(c, s, m);
            && t.stop == s.stop
            && (Decided(t) == Some(Broken) <==> Decided(s) == Some(Broken) || m == Yield(false))
            && t.cancelled == (s.cancelled || m.Return?)
            && (m.Return? || s.consumer.Ended? ==> t.consumer.Ended?)
  {
  }

  lemma EffectKeeps(c: Setup, s: State, i: nat, act: Act)
    requires ActEnabled(c, s, i, act)
    ensures var t := Effect(c, s, i, act); t.consumer == s.consumer && t.stop == s.stop && t.cancelled == s.cancelled
    ensures act != Send ==> Effect(c, s, i, act).out == s.out
    ensures act == Send ==> Effect(c, s, i, act).out == s.out + [s.workers[i].item]
  {
  }

  lemma FaultMoves(c: Setup, s: State, m: Move)
    requires MoveEnabled(c, s, m) && FaultAround(Moved(c, s, m))
    ensures FaultAround(s)
  {
    var t := Moved(c, s, m);
    assert forall item <- t.out :: item in s.out;
    if Fault !in t.out {
      var j :| 0 <= j < |t.workers| && t.workers[j] == Sending(Fault);
      assert s.workers[j] == Sending(Fault);
    }
  }

  lemma FaultActs(c: Setup, s: State, i: nat, act: Act)
    requires ActEnabled(c, s, i, act) && !act.Fail? && FaultAround(Apply(c, s, Work(i, act)))
    ensures FaultAround(s)
  {
    hide Present, Effect;
    EffectKeeps(c, s, i, act);
    var t := Apply(c, s, Work(i, act));
    if Fault in t.out {
      if Fault !in s.out {
        assert s.workers[i] == Sending(Fault);
      }
    } else {
      var j :| 0 <= j < |t.workers| && t.workers[j] == Sending(Fault);
      assert s.workers[j] == Sending(Fault);
    }
  }

  lemma FaultStays(c: Setup, s: State, a: Step)
    requires Enabled(c, s, a) && FaultAround(Apply(c, s, a)) && !IsFailure(a)
    ensures FaultAround(s)
  {
    hide Present, Moved, MoveEnabled, ActEnabled, Effect, NextWorker;
    match a
    case Consume(m) => FaultMoves(c, s, m);
    case Work(i, act) => FaultActs(c, s, i, act);
    case _ =>
  }

  lemma BlamedStep(c: Setup, s: State, a: Step, steps: seq<Step>)
    requires Blamed(s, steps) && Interfered(s, steps) && Enabled(c, s, a)
    ensures Blamed(Apply(c, s, a), steps + [a])
  {
    hide FetchFailed, Effect, NextWorker, FaultAround;
    Longer(steps, a);
    if FaultAround(Apply(c, s, a)) && !IsFailure(a) {
      FaultStays(c, s, a);
    }
    if a == Consume(Receive) && s.consumer.Receiving? && s.out[0].Fault? {
      FaultFirst(s);
    }
    if a.Work? {
      EffectKeeps(c, s, a.i, a.act);
    }
  }

  lemma FaultFirst(s: State)
    requires s.out != [] && s.out[0] == Fault
    ensures FaultAround(s)
  {
  }

  lemma AlarmsStep(c: Setup, s: State, a: Step, steps: seq<Step>)
    requires Valid(c) && Phases(c, s) && CleanEnd(c, s) && Causes(c, s)
    requires Interfered(s, steps) && Alarms(s, steps) && Enabled(c, s, a)
    ensures Alarms(Apply(c, s, a), steps + [a])
  {
    hide FetchFailed, LateCancel, Alarmed, Causes, Effect, NextWorker, Untouched;
    Longer(steps, a);
    if Alarmed(s) {
      AlarmKept(c, s, a);
    }
    if IsFailure(a) {
      FailAlarms(c, s, a.i);
    }
    if a.Work? {
      EffectKeeps(c, s, a.i, a.act);
    }
    if Decided(Apply(c, s, a)) == Some(Clean) {
      CleanStep(c, s, a, steps);
    }
  }

  lemma FailAlarms(c: Setup, s: State, i: nat)
    requires ActEnabled(c, s, i, Fail)
    ensures Alarmed(Apply(c, s, Work(i, Fail)))
  {
    assert Apply(c, s, Work(i, Fail)).workers[i] == Sending(Fault);
  }

  lemma CleanStep(c: Setup, s: State, a: Step, steps: seq<Step>)
    requires Valid(c) && Phases(c, s) && CleanEnd(c, s) && Interfered(s, steps) && Alarms(s, steps) && Enabled(c, s, a)
    requires Decided(Apply(c, s, a)) == Some(Clean)
    ensures !FetchFailed(steps + [a]) && LateCancel(steps + [a])
  {
    hide FetchFailed, Effect, NextWorker, Untouched, Alarmed;
    Longer(steps, a);
    if a == Consume(Check) {
      NotAlarmed(c, s);
    } else if a.Work? {
      EffectKeeps(c, s, a.i, a.act);
    }
  }

  lemma NotAlarmed(c: Setup, s: State)
    requires Phases(c, s) && s.consumer.LoopDone? && !s.cancelled
    ensures !Alarmed(s)
  {
    hide Untouched;
  }

  lemma {:induction false} RunExplains(c: Setup, before: seq<Step>, s: State, steps: seq<Step>, t: State)
    requires Valid(c) && Inv(c, s) && Interfered(s, before) && Blamed(s, before) && Alarms(s, before) && Path(c, s, steps, t)
    ensures Inv(c, t) && Interfered(t, before + steps) && Blamed(t, before + steps) && Alarms(t, before + steps)
    decreases |steps|
  {
    hide Interfered, Blamed, Alarms, Balanced, InOrder, Phases, Causes, CleanEnd, FewFetches, Solid, Apply, Enabled;
    if steps == [] {
      assert before + steps == before;
    } else {
      var a := steps[0];
      InvStep(c, s, a);
      InterferedStep(c, s, a, before);
      BlamedStep(c, s, a, before);
      AlarmsStep(c, s, a, before);
      RunExplains(c, before + [a], Apply(c, s, a), steps[1..], t);
      assert (before + [a]) + steps[1..] == before + steps;
    }
  }

  lemma Explained(c: Setup, steps: seq<Step>, t: State)
    requires Valid(c) && Reaches(c, steps, t)
    ensures Inv(c, t) && Interfered(t, steps) && Blamed(t, steps) && Alarms(t, steps)
  {
    hide Inv;
    InvInit(c);
    RunExplains(c, [], Init(c), steps, t);
    assert [] + steps == steps;
  }

  // ---- the verdict ----------------------------------------------------------------------------

  /** The verdict is about what happened: a stream is broken off exactly when
      its consumer said so, fails only if a fetch did or the context died, and
      is clean only if neither was the case; and what was yielded is whole
      unless broken off. Close was called exactly when `stop` says so. */
  lemma VerdictExactly(c: Setup, steps: seq<Step>, t: State)
    requires Valid(c) && Reaches(c, steps, t) && t.consumer.Ended?
    ensures t.consumer.outcome == Broken <==> BrokeOff(steps)
    ensures t.consumer.outcome == Failed ==> FetchFailed(steps) || Cancel in steps
    ensures t.consumer.outcome == Clean ==> !FetchFailed(steps) && LateCancel(steps)
    ensures t.consumer.outcome != Broken ==> t.delivered == c.inline + Concat(t.received)
    ensures t.stop <==> Close in steps
  {
    hide BrokeOff, FetchFailed, LateCancel;
    Explained(c, steps, t);
  }

  /** Never silently short: if a batch with data is missing at the end, the
      error was yielded, the consumer broke off itself, or Close was called. */
  lemma MissingIsReported(c: Setup, steps: seq<Step>, t: State, b: seq<Chunk>)
    requires Valid(c) && Whole(c) && Reaches(c, steps, t) && t.consumer.Ended?
    requires multiset(t.received)[b] < multiset(WithData(c.batches))[b]
    ensures t.consumer == Ended(Failed) || Consume(Yield(false)) in steps || Close in steps
  {
    VerdictExactly(c, steps, t);
    if t.consumer == Ended(Clean) && !t.stop {
      CleanIsComplete(c, steps, t);
      assert false;
    }
  }

  // ---- stopping -----------------------------------------------------------------------------------

  predicate IsRequest(a: Step) { a.Work? && a.act.Request? }

  /** What ends the fetching: the caller's context, Close, the end of the
      call, or a reply that reads as drained. */
  predicate Stops(c: Setup, s: State, a: Step)
  {
    a == Cancel || a == Close || a == Consume(Return)
    || (a.Work? && a.act == Decode && a.i < |s.workers| && s.workers[a.i].Replied? && Present(s.workers[a.i].reply) == [])
  }

  lemma StopsHalt(c: Setup, s: State, a: Step)
    requires Enabled(c, s, a) && (Stops(c, s, a) || Halted(s))
    ensures Halted(Apply(c, s, a)) && Apply(c, s, a).fetches == s.fetches && !IsRequest(a)
  {
    hide Present;
  }

  lemma {:induction false} HaltedRequests(c: Setup, s: State, steps: seq<Step>, t: State)
    requires Halted(s) && Path(c, s, steps, t)
    ensures t.fetches == s.fetches && forall a <- steps :: !IsRequest(a)
    decreases |steps|
  {
    hide Halted, Apply, Enabled, IsRequest;
    if steps != [] {
      StopsHalt(c, s, steps[0]);
      HaltedRequests(c, Apply(c, s, steps[0]), steps[1..], t);
      assert forall a <- steps :: a == steps[0] || a in steps[1..];
    }
  }

  /** Behind any of these no worker asks the server for another batch. */
  lemma StopsFetching(c: Setup, s: State, a: Step, steps: seq<Step>, t: State)
    requires Enabled(c, s, a) && Stops(c, s, a) && Path(c, Apply(c, s, a), steps, t)
    ensures t.fetches == s.fetches && forall b <- steps :: !IsRequest(b)
  {
    hide Present;
    StopsHalt(c, s, a);
    HaltedRequests(c, Apply(c, s, a), steps, t);
  }

  // ---- a fetch is a destructive read ---------------------------------------------------------------

  predicate Stepped(c: Setup, s: State, a: Step, t: State) { Enabled(c, s, a) && Apply(c, s, a) == t }

  /** A fetch that fails before the server answered still loses its batch when
      the server serves it later, and the consumer is told of the failure. */
  lemma FailedFetchLoses(batch: seq<Option<Chunk>>)
    requires Present(batch) != []
    ensures var c := Setup(1, [], true, [batch]);
            var steps := [Consume(Spawn), Work(0, Request), Work(0, Fail), StrayPop, Work(0, Send), Consume(Receive)];
            exists t :: Reaches(c, steps, t) && t.lost == [Present(batch)] && t.delivered == [] && t.consumer == Leaving(Failed)
  {
    hide Present;
    var c := Setup(1, [], true, [batch]);
    var s0 := Init(c);
    var s1 := s0.(workers := [Checking], consumer := Receiving);
    var s2 := s1.(workers := [Fetching], fetches := 1);
    var s3 := s2.(workers := [Sending(Fault)], strays := 1);
    var s4 := s3.(strays := 0, queue := [], lost := [Present(batch)]);
    var s5 := s4.(workers := [Returned], out := [Fault]);
    var s6 := s5.(out := [], consumer := Leaving(Failed));
    assert Stepped(c, s0, Consume(Spawn), s1);
    assert Stepped(c, s1, Work(0, Request), s2);
    assert Stepped(c, s2, Work(0, Fail), s3);
    assert Stepped(c, s3, StrayPop, s4);
    assert Stepped(c, s4, Work(0, Send), s5);
    assert Stepped(c, s5, Consume(Receive), s6);
    hide Stepped;
    assert Path(c, s6, [], s6);
    OneStep(c, s5, Consume(Receive), s6, [], s6);
    OneStep(c, s4, Work(0, Send), s5, [Consume(Receive)], s6);
    OneStep(c, s3, StrayPop, s4, [Work(0, Send), Consume(Receive)], s6);
    OneStep(c, s2, Work(0, Fail), s3, [StrayPop, Work(0, Send), Consume(Receive)], s6);
    OneStep(c, s1, Work(0, Request), s2, [Work(0, Fail), StrayPop, Work(0, Send), Consume(Receive)], s6);
    OneStep(c, s0, Consume(Spawn), s1, [Work(0, Request), Work(0, Fail), StrayPop, Work(0, Send), Consume(Receive)], s6);
  }

  lemma OneStep(c: Setup, s: State, a: Step, next: State, steps: seq<Step>, t: State)
    requires Stepped(c, s, a, next) && Path(c, next, steps, t)
    ensures Path(c, s, [a] + steps, t)
  {
    assert ([a] + steps)[1..] == steps;
  }
}
