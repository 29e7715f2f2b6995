/** In what order a stream's batches come, and how far it reads ahead. */
module StreamOrder {
  import opened Basics
  import opened Chunks
  import opened Stream
  import opened StreamSafety
  import opened StreamRuns

  /** The batches that hold chunks. */
  function Filled(xs: seq<seq<Chunk>>): seq<seq<Chunk>>
  {
    if xs == [] then [] else (if xs[0] == [] then [] else [xs[0]]) + Filled(xs[1..])
  }

  /** What the workers send, in the order in which they send it. */
  function Completed(c: Setup, s: State, steps: seq<Step>): seq<seq<Chunk>>
    decreases |steps|
  {
    if steps == [] || !Enabled(c, s, steps[0]) then []
    else Handed(c, s, steps[0]) + Completed(c, Apply(c, s, steps[0]), steps[1..])
  }

  function Handed(c: Setup, s: State, a: Step): seq<seq<Chunk>>
    requires Enabled(c, s, a)
  {
    if a.Work? && a.act.Send? then [ChunksOf(s.workers[a.i].item)] else []
  }

  function Arrived(s: State): seq<seq<Chunk>> { s.received + Contents(s.out) }

  lemma Regroup(a: seq<seq<Chunk>>, b: seq<seq<Chunk>>, c: seq<seq<Chunk>>)
    ensures (a + b) + c == a + (b + c)
  {
  }

  lemma {:induction false} FilledJoin(xs: seq<seq<Chunk>>, ys: seq<seq<Chunk>>)
    ensures Filled(xs + ys) == Filled(xs) + Filled(ys)
    decreases |xs|
  {
    if xs == [] {
      assert xs + ys == ys;
    } else {
      FilledJoin(xs[1..], ys);
      assert (xs + ys)[1..] == xs[1..] + ys;
      Regroup(if xs[0] == [] then [] else [xs[0]], Filled(xs[1..]), Filled(ys));
    }
  }

  lemma {:induction false} AlreadyFilled(xs: seq<seq<Chunk>>)
    requires forall x <- xs :: x != []
    ensures Filled(xs) == xs
    decreases |xs|
  {
    if xs != [] {
      assert xs[0] in xs && forall x <- xs[1..] :: x in xs;
      AlreadyFilled(xs[1..]);
    }
  }

  lemma {:induction false} NoneFilled(xs: seq<seq<Chunk>>)
    requires forall x <- xs :: x == []
    ensures Filled(xs) == []
    decreases |xs|
  {
    if xs != [] {
      assert xs[0] in xs && forall x <- xs[1..] :: x in xs;
      NoneFilled(xs[1..]);
    }
  }

  lemma {:induction false} FilledReplies(q: seq<seq<Option<Chunk>>>)
    ensures Filled(Replies(q)) == WithData(q)
    decreases |q|
  {
    hide Present;
    if q != [] {
      FilledReplies(q[1..]);
      assert ([Present(q[0])] + Replies(q[1..]))[1..] == Replies(q[1..]);
    }
  }

  // ---- first sent, first received ---------------------------------------------------------

  lemma FirstOf(received: seq<seq<Chunk>>, first: seq<Chunk>, later: seq<seq<Chunk>>)
    ensures Filled(received + ([first] + later)) == Filled((received + [first]) + later)
    ensures first == [] ==> Filled(received + ([first] + later)) == Filled(received + later)
  {
    assert received + ([first] + later) == (received + [first]) + later;
    FilledJoin(received + [first], later);
    FilledJoin(received, [first]);
    FilledJoin(received, later);
  }

  lemma TakesFirst(c: Setup, s: State, m: Move)
    requires MoveEnabled(c, s, m)
    ensures Filled(Arrived(Moved(c, s, m))) == Filled(Arrived(s))
  {
    hide Filled;
    if m.Receive? && s.consumer.Receiving? {
      FirstOf(s.received, ChunksOf(s.out[0]), Contents(s.out[1..]));
    }
  }

  lemma HandsOver(c: Setup, s: State, i: nat, act: Act)
    requires ActEnabled(c, s, i, act)
    ensures Arrived(Effect(c, s, i, act)) == Arrived(s) + Handed(c, s, Work(i, act))
  {
    hide Present, Contents;
    if act.Send? {
      ContentsAppend(s.out, s.workers[i].item);
    }
  }

  lemma ArrivedStep(c: Setup, s: State, a: Step)
    requires Enabled(c, s, a)
    ensures Filled(Arrived(Apply(c, s, a))) == Filled(Arrived(s) + Handed(c, s, a))
  {
    hide Present, Filled, Moved, MoveEnabled, ActEnabled, Effect, NextWorker, Contents;
    match a
    case Consume(m) => TakesFirst(c, s, m); assert Arrived(s) + [] == Arrived(s);
    case Work(i, act) => HandsOver(c, s, i, act);
    case _ => assert Arrived(s) + [] == Arrived(s);
  }

  lemma {:induction false} RunCompletes(c: Setup, s: State, steps: seq<Step>, t: State)
    requires Path(c, s, steps, t)
    ensures Filled(Arrived(t)) == Filled(Arrived(s)) + Filled(Completed(c, s, steps))
    decreases |steps|
  {
    hide Filled, Arrived, Apply, Enabled, Handed;
    FilledJoin([], []);
    if steps == [] {
      assert Filled([]) == [] by { NoneFilled([]); }
    } else {
      var a := steps[0];
      ArrivedStep(c, s, a);
      FilledJoin(Arrived(s), Handed(c, s, a));
      FilledJoin(Handed(c, s, a), Completed(c, Apply(c, s, a), steps[1..]));
      RunCompletes(c, Apply(c, s, a), steps[1..], t);
    }
  }

  /** Batches come in the order in which the fetches were completed: what was
      received so far and what waits in the channel is what was sent. */
  lemma FetchOrder(c: Setup, steps: seq<Step>, t: State)
    requires Valid(c) && Reaches(c, steps, t)
    ensures t.received + Filled(Contents(t.out)) == Filled(Completed(c, Init(c), steps))
    ensures t.delivered <= c.inline + Concat(Filled(Completed(c, Init(c), steps)))
  {
    InvInit(c);
    RunKeeps(c, Init(c), steps, t);
    RunCompletes(c, Init(c), steps, t);
    AlreadyFilled(t.received);
    FilledJoin(t.received, Contents(t.out));
    NeverTwice(c, steps, t);
    hide Filled, Contents, Completed, Concat;
    NoneFilled([]);
    assert Arrived(Init(c)) == [] by { assert Contents([]) == [] by { NoContents(); } }
    ConcatJoin(t.received, Filled(Contents(t.out)));
  }

  lemma NoContents()
    ensures Contents([]) == []
  {
  }

  lemma {:induction false} ConcatJoin(xs: seq<seq<Chunk>>, ys: seq<seq<Chunk>>)
    ensures Concat(xs + ys) == Concat(xs) + Concat(ys)
    decreases |ys|
  {
    if ys == [] {
      assert xs + ys == xs;
    } else {
      var n := |ys| - 1;
      ConcatJoin(xs, ys[..n]);
      assert xs + ys == (xs + ys[..n]) + [ys[n]];
      assert (xs + ys)[..|xs| + n] == xs + ys[..n];
    }
  }

  // ---- one worker ---------------------------------------------------------------------------

  function InHand(w: Worker): seq<seq<Chunk>>
  {
    match w
    case Replied(reply) => [Present(reply)]
    case Sending(item) => [ChunksOf(item)]
    case _ => []
  }

  function Hand(ws: seq<Worker>): seq<seq<Chunk>> { if |ws| == 1 then InHand(ws[0]) else [] }

  /** What was received, what is under way and what is still on the server,
      in order. */
  function Line(s: State): seq<seq<Chunk>>
  {
    Filled(Arrived(s)) + (Filled(Hand(s.workers)) + Filled(Replies(s.queue)))
  }

  lemma MoveFrame(c: Setup, s: State, m: Move)
    requires c.workers == 1 && Phases(c, s) && MoveEnabled(c, s, m)
    ensures var t := Moved(c, s, m); t.queue == s.queue && t.lost == s.lost && Hand(t.workers) == Hand(s.workers)
  {
    hide Present, Untouched, InHand;
    if m.Spawn? && c.needsMore {
      assert Moved(c, s, m).workers == [Checking];
      assert InHand(Checking) == [] by { NothingInHand(); }
    }
  }

  lemma NothingInHand()
    ensures InHand(Checking) == []
  {
  }

  lemma LineMove(c: Setup, s: State, m: Move)
    requires c.workers == 1 && Phases(c, s) && MoveEnabled(c, s, m)
    ensures Line(Moved(c, s, m)) == Line(s) && Moved(c, s, m).lost == s.lost
  {
    hide Filled, Arrived, Replies, Hand, Moved, MoveEnabled;
    TakesFirst(c, s, m);
    MoveFrame(c, s, m);
  }

  lemma LineAct(c: Setup, s: State, act: Act)
    requires |s.workers| == 1 && ActEnabled(c, s, 0, act) && Effect(c, s, 0, act).lost == []
    ensures Line(Apply(c, s, Work(0, act))) == Line(s) && s.lost == []
  {
    hide Filled, Replies, Effect, NextWorker, ActEnabled, Handed, InHand, Contents;
    var t := Apply(c, s, Work(0, act));
    var e := Effect(c, s, 0, act);
    var h := Handed(c, s, Work(0, act));
    HandsOver(c, s, 0, act);
    assert Arrived(t) == Arrived(e);
    FilledJoin(Arrived(s), h);
    PassesOn(c, s, act);
    Regroup(Filled(Arrived(s)), Filled(h), Filled(InHand(t.workers[0])) + Filled(Replies(e.queue)));
  }

  lemma Singles(x: seq<Chunk>, xs: seq<seq<Chunk>>)
    ensures Filled([]) == [] && Filled([[]]) == []
    ensures Filled([x]) + Filled(xs) == Filled([x] + xs)
  {
    FilledJoin([x], xs);
  }

  /** The worker takes the head of the queue, and hands over what it has. */
  lemma PassesOn(c: Setup, s: State, act: Act)
    requires |s.workers| == 1 && ActEnabled(c, s, 0, act) && Effect(c, s, 0, act).lost == []
    ensures var q := Effect(c, s, 0, act).queue;
            Filled(Handed(c, s, Work(0, act))) + (Filled(InHand(NextWorker(c, s, 0, act))) + Filled(Replies(q)))
            == Filled(InHand(s.workers[0])) + Filled(Replies(s.queue))
    ensures s.lost == []
  {
    hide Filled, Present;
    PresentNothing();
    match act
    case Pop =>
      if s.queue != [] {
        Singles(Present(s.queue[0]), Replies(s.queue[1..]));
      } else {
        Singles([], []);
      }
    case Send =>
      Singles([], []);
      Regroup(Filled(InHand(s.workers[0])), [], Filled(Replies(s.queue)));
    case _ => Singles([], []);
  }

  lemma LineStep(c: Setup, s: State, a: Step)
    requires c.workers == 1 && Phases(c, s) && Enabled(c, s, a) && Apply(c, s, a).lost == []
    ensures Line(Apply(c, s, a)) == Line(s) && s.lost == []
  {
    hide Filled, Replies, Present, Moved, MoveEnabled, Effect, NextWorker, ActEnabled, Hand;
    match a
    case Consume(m) => LineMove(c, s, m);
    case Work(i, act) => OneHand(c, s, i, act); LineAct(c, s, act);
    case _ =>
  }

  lemma OneHand(c: Setup, s: State, i: nat, act: Act)
    requires c.workers == 1 && Phases(c, s) && ActEnabled(c, s, i, act)
    ensures |s.workers| == 1 && i == 0
    ensures Apply(c, s, Work(0, act)).lost == Effect(c, s, 0, act).lost
  {
  }

  lemma {:induction false} RunInLine(c: Setup, s: State, steps: seq<Step>, t: State)
    requires Valid(c) && c.workers == 1 && Inv(c, s) && Path(c, s, steps, t) && t.lost == []
    ensures Line(t) == Line(s) && s.lost == []
    decreases |steps|
  {
    hide Balanced, InOrder, Phases, Causes, CleanEnd, FewFetches, Solid, Line, Apply, Enabled;
    if steps != [] {
      InvStep(c, s, steps[0]);
      RunInLine(c, Apply(c, s, steps[0]), steps[1..], t);
      LineStep(c, s, steps[0]);
    }
  }

  /** With one worker a clean stream is the result in its own order. */
  lemma OneWorkerInOrder(c: Setup, steps: seq<Step>, t: State)
    requires Valid(c) && Whole(c) && Reaches(c, steps, t) && t.consumer == Ended(Clean) && !t.stop && c.workers == 1
    ensures t.delivered == c.inline + Concat(WithData(c.batches))
  {
    hide Whole, Concat, Line, WithData;
    CleanIsComplete(c, steps, t);
    InvInit(c);
    assert DrainedRight(Init(c)) by { NothingDrained(c); }
    RunKeeps(c, Init(c), steps, t);
    NothingLeft(c, t);
    RunInLine(c, Init(c), steps, t);
    LineInit(c);
  }

  lemma NothingDrained(c: Setup)
    requires Whole(c)
    ensures DrainedRight(Init(c))
  {
  }

  lemma LineInit(c: Setup)
    ensures Line(Init(c)) == WithData(c.batches)
  {
    NoneFilled([]);
    FilledReplies(c.batches);
  }

  lemma NothingLeft(c: Setup, t: State)
    requires Valid(c) && Whole(c) && Inv(c, t) && DrainedRight(t) && t.consumer == Ended(Clean) && !t.stop && c.workers == 1
    ensures Line(t) == t.received && t.lost == []
  {
    hide Balanced, InOrder, Causes, FewFetches, Present, WithData, Replies;
    NoneFilled([]);
    AlreadyFilled(t.received);
    assert NoData(t.queue);
    FilledReplies(t.queue);
    NoneLeft(t.queue);
    assert t.out == [];
    assert Contents([]) == [];
    assert t.received + [] == t.received;
  }

  lemma {:induction false} NoneLeft(q: seq<seq<Option<Chunk>>>)
    requires NoData(q)
    ensures WithData(q) == []
    decreases |q|
  {
    hide Present;
    if q != [] {
      NoneLeft(q[1..]);
    }
  }

  // ---- reading ahead --------------------------------------------------------------------------

  /** All workers or none run, and a bounded number of batches waits. */
  lemma Crew(c: Setup, steps: seq<Step>, t: State)
    requires Valid(c) && Reaches(c, steps, t)
    ensures t.workers == [] || |t.workers| == c.workers
    ensures |t.out| <= c.workers
    ensures t.workers == [] ==> t.received == [] && t.fetches == 0 && t.queue == c.batches
  {
    InvInit(c);
    RunKeeps(c, Init(c), steps, t);
  }

  ghost predicate Leads(c: Setup, s: State, t: State) { exists steps :: Path(c, s, steps, t) }

  lemma Via(c: Setup, s: State, a: Step, t: State)
    requires Enabled(c, s, a) && Leads(c, Apply(c, s, a), t)
    ensures Leads(c, s, t)
  {
    var steps :| Path(c, Apply(c, s, a), steps, t);
    assert ([a] + steps)[1..] == steps;
    assert Path(c, s, [a] + steps, t);
  }

  /** The consumer has taken what came inline; the workers start. */
  lemma {:induction false} Starts(c: Setup, next: nat, t: State)
    requires c.needsMore && next <= |c.inline|
    requires Leads(c, Init(c).(workers := seq(c.workers, i => Checking), consumer := Receiving, delivered := c.inline), t)
    ensures Leads(c, Init(c).(consumer := Inline(next), delivered := c.inline[..next]), t)
    decreases |c.inline| - next
  {
    hide Leads;
    var s := Init(c).(consumer := Inline(next), delivered := c.inline[..next]);
    if next < |c.inline| {
      assert c.inline[..next] + [c.inline[next]] == c.inline[..next + 1];
      Starts(c, next + 1, t);
      Via(c, s, Consume(Yield(true)), t);
    } else {
      assert c.inline[..next] == c.inline;
      Via(c, s, Consume(Spawn), t);
    }
  }

  lemma Reached(c: Setup, t: State)
    requires Leads(c, Init(c).(consumer := Inline(0), delivered := c.inline[..0]), t)
    ensures exists steps :: Reaches(c, steps, t)
  {
    assert Init(c) == Init(c).(consumer := Inline(0), delivered := c.inline[..0]);
    var steps :| Path(c, Init(c), steps, t);
    assert Reaches(c, steps, t);
  }

  lemma {:induction false} AskOneByOne(c: Setup, s: State, i: nat)
    requires i <= c.workers && !Halted(s) && |s.workers| == c.workers
    requires forall j :: 0 <= j < c.workers ==> s.workers[j] == if j < i then Fetching else Checking
    ensures Leads(c, s, s.(workers := seq(c.workers, j => Fetching), fetches := s.fetches + (c.workers - i)))
    decreases c.workers - i
  {
    var t := s.(workers := seq(c.workers, j => Fetching), fetches := s.fetches + (c.workers - i));
    if i < c.workers {
      AskOneByOne(c, Apply(c, s, Work(i, Request)), i + 1);
      Via(c, s, Work(i, Request), t);
    } else {
      assert s.workers == t.workers;
      assert Path(c, s, [], t);
    }
  }

  /** As many requests as there are workers can be under way at once. */
  lemma AllFetchAtOnce(c: Setup)
    requires Valid(c) && c.needsMore
    ensures exists steps, t :: Reaches(c, steps, t) && t.fetches == c.workers
              && |t.workers| == c.workers && forall w <- t.workers :: w == Fetching
  {
    var s := Init(c).(workers := seq(c.workers, i => Checking), consumer := Receiving, delivered := c.inline);
    AskOneByOne(c, s, 0);
    var t := s.(workers := seq(c.workers, j => Fetching), fetches := c.workers);
    Starts(c, 0, t);
    Reached(c, t);
  }

  /** Worker 0 fills the channel while nobody receives. */
  lemma {:induction false} Fills(c: Setup, s: State)
    requires Valid(c) && !Halted(s) && |s.workers| == c.workers && s.workers[0] == Checking && |s.out| <= c.workers
    requires |s.queue| + |s.out| >= c.workers && forall b <- s.queue :: Present(b) != []
    ensures exists t :: Leads(c, s, t) && |t.out| == c.workers && t.received == s.received
    decreases c.workers - |s.out|
  {
    hide Present, Leads;
    if |s.out| < c.workers {
      var batch := s.queue[0];
      assert forall b <- s.queue[1..] :: b in s.queue;
      var s1 := Apply(c, s, Work(0, Request));
      var s2 := Apply(c, s1, Work(0, Pop));
      var s3 := Apply(c, s2, Work(0, Decode));
      var s4 := Apply(c, s3, Work(0, Send));
      Fills(c, s4);
      var t :| Leads(c, s4, t) && |t.out| == c.workers && t.received == s4.received;
      Via(c, s3, Work(0, Send), t);
      Via(c, s2, Work(0, Decode), t);
      Via(c, s1, Work(0, Pop), t);
      Via(c, s, Work(0, Request), t);
    } else {
      StaysPut(c, s);
    }
  }

  lemma StaysPut(c: Setup, s: State)
    ensures Leads(c, s, s)
  {
    assert Path(c, s, [], s);
  }

  /** The channel holds as many batches as there are workers, no fewer. */
  lemma ChannelFills(c: Setup)
    requires Valid(c) && c.needsMore && |c.batches| >= c.workers && forall b <- c.batches :: Present(b) != []
    ensures exists steps, t :: Reaches(c, steps, t) && |t.out| == c.workers && t.received == []
  {
    hide Present;
    var s := Init(c).(workers := seq(c.workers, i => Checking), consumer := Receiving, delivered := c.inline);
    Fills(c, s);
    var t :| Leads(c, s, t) && |t.out| == c.workers && t.received == [];
    Starts(c, 0, t);
    Reached(c, t);
  }
}
