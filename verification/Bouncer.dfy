/** quackbouncer's bookkeeping: a bounded stack of idle upstream sessions and
    a map from virtual connection ids to upstream sessions, each behind its
    own lock, and the handlers interleaved between the locks. */
module Bouncer {
  import opened Basics

  /** An upstream session, numbered in the order dialled. */
  type Session = nat

  /** A virtual connection id as the client sees it. */
  type Vid = Bytes

  // ---- the critical sections -------------------------------------------------------

  /** pool.get under the lock: the session last put back, if any. */
  function TakeIdle(idle: seq<Session>): (r: (Option<Session>, seq<Session>))
    ensures r.0.None? ==> idle == [] && r.1 == []
    ensures r.0.Some? ==> idle == r.1 + [r.0.value]
  {
    if idle == [] then (None, idle) else (Some(idle[|idle| - 1]), idle[..|idle| - 1])
  }

  /** pool.put under the lock: whether the pool keeps the session. */
  function PutIdle(idle: seq<Session>, max: nat, x: Session): (r: (bool, seq<Session>))
    ensures |idle| <= max ==> |r.1| <= max
    ensures r.0 <==> |idle| < max
    ensures r.1 == if r.0 then idle + [x] else idle
  {
    if |idle| < max then (true, idle + [x]) else (false, idle)
  }

  /** What one connect does to the pool and the map: the id maps to the idle
      session last put back, else to the dialled one. */
  function AfterConnect(idle: seq<Session>, conns: map<Vid, Session>, dialled: Option<Session>, vid: Vid)
    : (r: (seq<Session>, map<Vid, Session>))
    ensures idle != [] ==> r == (idle[..|idle| - 1], conns[vid := idle[|idle| - 1]])
    ensures idle == [] ==> r == ([], if dialled.Some? then conns[vid := dialled.value] else conns)
  {
    var (taken, rest) := TakeIdle(idle);
    var up := if taken.Some? then taken else dialled;
    (rest, if up.Some? then conns[vid := up.value] else conns)
  }

  /** What one disconnect does: the id leaves the map, its session goes back
      to the pool or is closed. */
  function AfterDisconnect(max: nat, idle: seq<Session>, conns: map<Vid, Session>, closed: set<Session>, vid: Vid)
    : (r: (seq<Session>, map<Vid, Session>, set<Session>))
    ensures r.1 == conns - {vid}
    ensures vid !in conns ==> r.0 == idle && r.2 == closed
    ensures vid in conns && |idle| < max ==> r.0 == idle + [conns[vid]] && r.2 == closed
    ensures vid in conns && |idle| >= max ==> r.0 == idle && r.2 == closed + {conns[vid]}
  {
    if vid !in conns then (idle, conns, closed)
    else
      var (kept, after) := PutIdle(idle, max, conns[vid]);
      (after, conns - {vid}, if kept then closed else closed + {conns[vid]})
  }

  // ---- handlers interleaved ------------------------------------------------------------

  /** Where a request's handler stands between critical sections. */
  datatype Handler =
    | Connecting                          // authorized, before pool.get
    | Dialling                            // nothing idle
    | Adopting(up: Session)               // has its upstream, before conns[vid] = up
    | Adopted(vid: Vid)
    | Leaving(vid: Vid)                   // disconnect, before the lookup
    | Releasing(vid: Vid, up: Session)    // took it out of the map
    | Closing(vid: Vid, up: Session)      // the pool was full
    | Released(vid: Vid)
    | Looking(vid: Vid)                   // forward, before the lookup
    | Relaying(vid: Vid, up: Session)
    | Over                                // answered with an error, or done relaying

  datatype State = State(
    max: nat, idle: seq<Session>, conns: map<Vid, Session>, handlers: seq<Handler>,
    dialled: nat,                         // sessions ever dialled
    closed: set<Session>,
    issued: map<Vid, Session>)            // every id ever handed out, and for what

  datatype Step =
    | Arrive(request: Handler)            // a new request
    | Get(h: nat) | Dial(h: nat, ok: bool) | Adopt(h: nat, vid: Vid)
    | TakeOut(h: nat) | Put(h: nat) | Close(h: nat)
    | Look(h: nat) | Finish(h: nat)

  predicate Enabled(s: State, a: Step)
  {
    match a
    case Arrive(request) => request.Connecting? || request.Leaving? || request.Looking?
    case Get(h) => h < |s.handlers| && s.handlers[h].Connecting?
    case Dial(h, _) => h < |s.handlers| && s.handlers[h].Dialling?
    case Adopt(h, vid) => h < |s.handlers| && s.handlers[h].Adopting? && vid !in s.issued
    case TakeOut(h) => h < |s.handlers| && s.handlers[h].Leaving?
    case Put(h) => h < |s.handlers| && s.handlers[h].Releasing?
    case Close(h) => h < |s.handlers| && s.handlers[h].Closing?
    case Look(h) => h < |s.handlers| && s.handlers[h].Looking?
    case Finish(h) => h < |s.handlers| && s.handlers[h].Relaying?
  }

  function Goes(s: State, h: nat, to: Handler): State
    requires h < |s.handlers|
  {
    s.(handlers := s.handlers[h := to])
  }

  function Apply(s: State, a: Step): State
    requires Enabled(s, a)
  {
    match a
    case Arrive(request) => s.(handlers := s.handlers + [request])
    case Get(h) =>
      var (up, rest) := TakeIdle(s.idle);
      Goes(s, h, if up.Some? then Adopting(up.value) else Dialling).(idle := rest)
    case Dial(h, ok) =>
      if ok then Goes(s, h, Adopting(s.dialled)).(dialled := s.dialled + 1) else Goes(s, h, Over)
    case Adopt(h, vid) =>
      var up := s.handlers[h].up;
      Goes(s, h, Adopted(vid)).(conns := s.conns[vid := up], issued := s.issued[vid := up])
    case TakeOut(h) =>
      var vid := s.handlers[h].vid;
      if vid in s.conns then Goes(s, h, Releasing(vid, s.conns[vid])).(conns := s.conns - {vid})
      else Goes(s, h, Over)
    case Put(h) =>
      var (kept, idle) := PutIdle(s.idle, s.max, s.handlers[h].up);
      Goes(s, h, if kept then Released(s.handlers[h].vid) else Closing(s.handlers[h].vid, s.handlers[h].up)).(idle := idle)
    case Close(h) => Goes(s, h, Released(s.handlers[h].vid)).(closed := s.closed + {s.handlers[h].up})
    case Look(h) =>
      var vid := s.handlers[h].vid;
      Goes(s, h, if vid in s.conns then Relaying(vid, s.conns[vid]) else Over)
    case Finish(h) => Goes(s, h, Over)
  }

  function Init(max: nat): State
  {
    State(max, [], map[], [], 0, {}, map[])
  }

  predicate Path(s: State, steps: seq<Step>, t: State)
    decreases |steps|
  {
    if steps == [] then s == t else Enabled(s, steps[0]) && Path(Apply(s, steps[0]), steps[1..], t)
  }

  // ---- ownership -------------------------------------------------------------------------

  datatype Place = IdleAt(i: nat) | MappedBy(vid: Vid) | HeldBy(h: nat) | ClosedDown

  /** A handler holds the session it is about to hand over; a forward only
      borrows one. */
  function Holds(k: Handler): Option<Session>
  {
    if k.Adopting? || k.Releasing? || k.Closing? then Some(k.up) else None
  }

  predicate At(s: State, x: Session, p: Place)
  {
    match p
    case IdleAt(i) => i < |s.idle| && s.idle[i] == x
    case MappedBy(vid) => vid in s.conns && s.conns[vid] == x
    case HeldBy(h) => h < |s.handlers| && Holds(s.handlers[h]) == Some(x)
    case ClosedDown => x in s.closed
  }

  ghost predicate Placed(s: State, x: Session)
  {
    exists p :: At(s, x, p)
  }

  /** Every session ever dialled is in exactly one place. */
  ghost predicate Owned(s: State)
  {
    && (forall x: Session :: Placed(s, x) <==> x < s.dialled)
    && (forall x: Session, p, q :: At(s, x, p) && At(s, x, q) ==> p == q)
  }

  /** The disconnect that took `vid` out of the map. */
  predicate Took(k: Handler, vid: Vid)
  {
    (k.Releasing? || k.Closing? || k.Released?) && k.vid == vid
  }

  /** The map only ever shows what was handed out. */
  ghost predicate Issued(s: State)
  {
    forall vid <- s.conns :: vid in s.issued && s.issued[vid] == s.conns[vid]
  }

  /** One disconnect at most took each id out. */
  ghost predicate TakenOnce(s: State)
  {
    && (forall h, vid :: 0 <= h < |s.handlers| && Took(s.handlers[h], vid) ==> vid in s.issued && vid !in s.conns)
    && (forall h, g, vid ::
          0 <= h < |s.handlers| && 0 <= g < |s.handlers| && Took(s.handlers[h], vid) && Took(s.handlers[g], vid) ==> h == g)
  }

  /** Handlers that looked an id up hold what it was issued for. */
  ghost predicate Looked(s: State)
  {
    forall h :: 0 <= h < |s.handlers| ==>
      var k := s.handlers[h];
      k.Relaying? || k.Releasing? || k.Closing? ==> k.vid in s.issued && s.issued[k.vid] == k.up
  }

  ghost predicate Ids(s: State)
  {
    Issued(s) && TakenOnce(s) && Looked(s)
  }

  ghost predicate Inv(s: State)
  {
    |s.idle| <= s.max && Owned(s) && Ids(s)
  }

  /** Only `x0` moved, and it is at `q` now. */
  lemma TransferKeeps(s: State, t: State, x0: Session, q: Place)
    requires Owned(s) && s.dialled == t.dialled && x0 < s.dialled
    requires forall x: Session, p :: At(t, x, p) <==> (x == x0 && p == q) || (x != x0 && At(s, x, p))
    ensures Owned(t)
  {
    forall x: Session ensures Placed(t, x) <==> x < t.dialled {
      assert Placed(s, x) <==> x < s.dialled;
      if x == x0 {
        assert At(t, x, q);
      } else if Placed(s, x) {
        var p :| At(s, x, p);
        assert At(t, x, p);
      }
    }
  }

  lemma NothingMoved(s: State, t: State)
    requires Owned(s) && s.dialled == t.dialled
    requires forall x: Session, p :: At(t, x, p) <==> At(s, x, p)
    ensures Owned(t)
  {
    forall x: Session ensures Placed(t, x) <==> x < t.dialled {
      assert Placed(s, x) <==> x < s.dialled;
      if Placed(s, x) {
        var p :| At(s, x, p);
        assert At(t, x, p);
      }
    }
  }

  lemma DialKeeps(s: State, h: nat)
    requires Owned(s) && Enabled(s, Dial(h, true))
    ensures Owned(Apply(s, Dial(h, true)))
  {
    var t, x0 := Apply(s, Dial(h, true)), s.dialled;
    assert !Placed(s, x0);
    assert forall p :: !At(s, x0, p);
    assert forall x: Session, p :: At(t, x, p) <==> (x == x0 && p == HeldBy(h)) || At(s, x, p);
    forall x: Session ensures Placed(t, x) <==> x < t.dialled {
      assert Placed(s, x) <==> x < s.dialled;
      if x == x0 {
        assert At(t, x, HeldBy(h));
      } else if Placed(s, x) {
        var p :| At(s, x, p);
        assert At(t, x, p);
      }
    }
  }

  /** The session a step moves, and where it is afterwards. */
  lemma Located(s: State, x: Session, p: Place)
    requires Owned(s) && At(s, x, p)
    ensures x < s.dialled && forall q :: At(s, x, q) ==> q == p
  {
    assert Placed(s, x);
  }

  lemma GetKeeps(s: State, h: nat)
    requires Owned(s) && Enabled(s, Get(h)) && s.idle != []
    ensures Owned(Apply(s, Get(h)))
  {
    var t, n := Apply(s, Get(h)), |s.idle| - 1;
    var x0 := s.idle[n];
    Located(s, x0, IdleAt(n));
    forall x: Session, p ensures At(t, x, p) <==> (x == x0 && p == HeldBy(h)) || (x != x0 && At(s, x, p)) {
      assert At(s, x0, p) ==> p == IdleAt(n);
    }
    TransferKeeps(s, t, x0, HeldBy(h));
  }

  lemma AdoptKeeps(s: State, h: nat, vid: Vid)
    requires Owned(s) && Issued(s) && Enabled(s, Adopt(h, vid))
    ensures Owned(Apply(s, Adopt(h, vid)))
  {
    var t, x0 := Apply(s, Adopt(h, vid)), s.handlers[h].up;
    assert vid !in s.conns;
    Located(s, x0, HeldBy(h));
    forall x: Session, p ensures At(t, x, p) <==> (x == x0 && p == MappedBy(vid)) || (x != x0 && At(s, x, p)) {
      assert At(s, x0, p) ==> p == HeldBy(h);
    }
    TransferKeeps(s, t, x0, MappedBy(vid));
  }

  lemma TakeOutKeeps(s: State, h: nat)
    requires Owned(s) && Enabled(s, TakeOut(h)) && s.handlers[h].vid in s.conns
    ensures Owned(Apply(s, TakeOut(h)))
  {
    var t, vid := Apply(s, TakeOut(h)), s.handlers[h].vid;
    var x0 := s.conns[vid];
    Located(s, x0, MappedBy(vid));
    forall x: Session, p ensures At(t, x, p) <==> (x == x0 && p == HeldBy(h)) || (x != x0 && At(s, x, p)) {
      assert At(s, x0, p) ==> p == MappedBy(vid);
    }
    TransferKeeps(s, t, x0, HeldBy(h));
  }

  lemma PutKeeps(s: State, h: nat)
    requires Owned(s) && Enabled(s, Put(h)) && |s.idle| < s.max
    ensures Owned(Apply(s, Put(h)))
  {
    var t, x0, n := Apply(s, Put(h)), s.handlers[h].up, |s.idle|;
    Located(s, x0, HeldBy(h));
    forall x: Session, p ensures At(t, x, p) <==> (x == x0 && p == IdleAt(n)) || (x != x0 && At(s, x, p)) {
      assert At(s, x0, p) ==> p == HeldBy(h);
    }
    TransferKeeps(s, t, x0, IdleAt(n));
  }

  lemma CloseKeeps(s: State, h: nat)
    requires Owned(s) && Enabled(s, Close(h))
    ensures Owned(Apply(s, Close(h)))
  {
    var t, x0 := Apply(s, Close(h)), s.handlers[h].up;
    Located(s, x0, HeldBy(h));
    forall x: Session, p ensures At(t, x, p) <==> (x == x0 && p == ClosedDown) || (x != x0 && At(s, x, p)) {
      assert At(s, x0, p) ==> p == HeldBy(h);
    }
    TransferKeeps(s, t, x0, ClosedDown);
  }

  /** A step that moves no session. */
  predicate Idles(s: State, a: Step)
    requires Enabled(s, a)
  {
    match a
    case Get(_) => s.idle == []
    case Dial(_, ok) => !ok
    case Adopt(_, _) => false
    case TakeOut(h) => s.handlers[h].vid !in s.conns
    case Put(_) => |s.idle| >= s.max
    case Close(_) => false
    case _ => true
  }

  lemma IdlesKeeps(s: State, a: Step)
    requires Owned(s) && Enabled(s, a) && Idles(s, a)
    ensures Owned(Apply(s, a))
  {
    NothingMoved(s, Apply(s, a));
  }

  lemma OwnedStep(s: State, a: Step)
    requires Owned(s) && Ids(s) && Enabled(s, a)
    ensures Owned(Apply(s, a))
  {
    hide Owned, Apply, Issued, TakenOnce, Looked;
    if Idles(s, a) {
      IdlesKeeps(s, a);
    } else {
      match a
      case Get(h) => GetKeeps(s, h);
      case Dial(h, _) => DialKeeps(s, h);
      case Adopt(h, vid) => AdoptKeeps(s, h, vid);
      case TakeOut(h) => TakeOutKeeps(s, h);
      case Put(h) => PutKeeps(s, h);
      case Close(h) => CloseKeeps(s, h);
      case _ =>
    }
  }

  lemma IssuedStep(s: State, a: Step)
    requires Issued(s) && Enabled(s, a)
    ensures Issued(Apply(s, a))
  {
    hide TakeIdle, PutIdle;
  }

  /** Steps but TakeOut change neither the map's removals nor who took what. */
  lemma SameTakers(s: State, a: Step, h: nat, vid: Vid)
    requires Enabled(s, a) && !a.TakeOut? && h < |Apply(s, a).handlers|
    ensures Took(Apply(s, a).handlers[h], vid) <==> h < |s.handlers| && Took(s.handlers[h], vid)
  {
    hide TakeIdle;
  }

  lemma TakenOnceStep(s: State, a: Step)
    requires Issued(s) && TakenOnce(s) && Enabled(s, a)
    ensures TakenOnce(Apply(s, a))
  {
    hide TakeIdle, PutIdle;
    var t := Apply(s, a);
    if !a.TakeOut? {
      forall h, vid | 0 <= h < |t.handlers| ensures Took(t.handlers[h], vid) <==> h < |s.handlers| && Took(s.handlers[h], vid) {
        SameTakers(s, a, h, vid);
      }
      hide Took;
    }
  }

  lemma LookedStep(s: State, a: Step)
    requires Issued(s) && Looked(s) && Enabled(s, a)
    ensures Looked(Apply(s, a))
  {
    hide TakeIdle, PutIdle, Issued;
    if a.TakeOut? || a.Look? {
      assert s.handlers[a.h].vid in s.conns ==> s.issued[s.handlers[a.h].vid] == s.conns[s.handlers[a.h].vid] by { LookedUp(s, s.handlers[a.h].vid); }
    }
  }

  lemma LookedUp(s: State, vid: Vid)
    requires Issued(s)
    ensures vid in s.conns ==> vid in s.issued && s.issued[vid] == s.conns[vid]
  {
  }

  lemma IdsStep(s: State, a: Step)
    requires Ids(s) && Enabled(s, a)
    ensures Ids(Apply(s, a))
  {
    hide Issued, TakenOnce, Looked, Apply;
    IssuedStep(s, a);
    TakenOnceStep(s, a);
    LookedStep(s, a);
  }

  lemma InvStep(s: State, a: Step)
    requires Inv(s) && Enabled(s, a)
    ensures Inv(Apply(s, a)) && Apply(s, a).max == s.max
    ensures forall vid <- s.issued :: vid in Apply(s, a).issued && Apply(s, a).issued[vid] == s.issued[vid]
    ensures forall vid <- s.issued :: vid !in s.conns ==> vid !in Apply(s, a).conns
  {
    hide Owned, Ids;
    OwnedStep(s, a);
    IdsStep(s, a);
  }

  lemma {:induction false} RunKeeps(s: State, steps: seq<Step>, t: State)
    requires Inv(s) && Path(s, steps, t)
    ensures Inv(t) && t.max == s.max
    ensures forall vid <- s.issued :: vid in t.issued && t.issued[vid] == s.issued[vid]
    ensures forall vid <- s.issued :: vid !in s.conns ==> vid !in t.conns
    decreases |steps|
  {
    hide Inv, Apply;
    if steps != [] {
      InvStep(s, steps[0]);
      RunKeeps(Apply(s, steps[0]), steps[1..], t);
    }
  }

  lemma InitHolds(max: nat)
    ensures Inv(Init(max))
  {
    forall x: Session ensures !Placed(Init(max), x) {
    }
  }

  // ---- what every run keeps ------------------------------------------------------------------

  /** Conservation: in every state of every interleaving, each session ever
      dialled is in exactly one place, and the pool stays within its bound. */
  lemma SessionsConserved(max: nat, steps: seq<Step>, t: State, x: Session)
    requires Path(Init(max), steps, t)
    ensures |t.idle| <= max
    ensures x < t.dialled <==> exists p :: At(t, x, p)
    ensures forall p, q :: At(t, x, p) && At(t, x, q) ==> p == q
  {
    InitHolds(max);
    RunKeeps(Init(max), steps, t);
    assert Placed(t, x) <==> x < t.dialled;
  }

  /** No two clients share an upstream session, and none is pooled or closed
      while a client is mapped to it. */
  lemma MappedExclusively(max: nat, steps: seq<Step>, t: State, vid: Vid)
    requires Path(Init(max), steps, t) && vid in t.conns
    ensures t.conns[vid] !in t.idle && t.conns[vid] !in t.closed
    ensures forall other <- t.conns :: t.conns[other] == t.conns[vid] ==> other == vid
  {
    InitHolds(max);
    RunKeeps(Init(max), steps, t);
    var x := t.conns[vid];
    assert At(t, x, MappedBy(vid));
    forall i | 0 <= i < |t.idle| ensures t.idle[i] != x {
      assert t.idle[i] == x ==> At(t, x, IdleAt(i));
    }
    assert x in t.closed ==> At(t, x, ClosedDown);
    forall other | other in t.conns && t.conns[other] == x ensures other == vid {
      assert At(t, x, MappedBy(other));
    }
  }

  /** A virtual id stands for one upstream session as long as it lives, in
      the map and in every handler that looked it up, and never comes back
      once it is gone. */
  lemma IdsAreFixed(max: nat, before: seq<Step>, s: State, after: seq<Step>, t: State, vid: Vid)
    requires Path(Init(max), before, s) && Path(s, after, t) && vid in s.issued
    ensures vid in s.conns && vid in t.conns ==> s.conns[vid] == t.conns[vid]
    ensures vid !in s.conns ==> vid !in t.conns
    ensures forall h :: 0 <= h < |t.handlers| && (t.handlers[h].Relaying? || t.handlers[h].Releasing?) && t.handlers[h].vid == vid ==>
              t.handlers[h].up == s.issued[vid]
  {
    InitHolds(max);
    RunKeeps(Init(max), before, s);
    RunKeeps(s, after, t);
  }

  /** However many disconnects of one id race, at most one gets its session
      to give back. */
  lemma ReturnedOnce(max: nat, steps: seq<Step>, t: State, vid: Vid, h: nat, g: nat)
    requires Path(Init(max), steps, t) && h < |t.handlers| && g < |t.handlers|
    requires Took(t.handlers[h], vid) && Took(t.handlers[g], vid)
    ensures h == g && vid !in t.conns
  {
    InitHolds(max);
    RunKeeps(Init(max), steps, t);
  }

  // ---- one handler alone -------------------------------------------------------------------

  lemma Onward(s: State, a: Step, steps: seq<Step>, t: State)
    requires Enabled(s, a) && Path(Apply(s, a), steps, t)
    ensures Path(s, [a] + steps, t)
  {
    assert ([a] + steps)[1..] == steps;
  }

  lemma Arrived(s: State)
    ensures Path(s, [], s)
  {
  }

  /** The steps of a connect that nothing interrupts. */
  function ConnectSteps(s: State, vid: Vid, dialSucceeds: bool): seq<Step>
  {
    var h := |s.handlers|;
    var adopt := [Adopt(h, vid)];
    [Arrive(Connecting)] + ([Get(h)] +
      if s.idle != [] then adopt else [Dial(h, dialSucceeds)] + if dialSucceeds then adopt else [])
  }

  /** A connect run alone does to pool and map what AfterConnect says. */
  lemma ConnectAlone(s: State, vid: Vid, dialSucceeds: bool) returns (t: State)
    requires vid !in s.issued
    ensures Path(s, ConnectSteps(s, vid, dialSucceeds), t)
    ensures (t.idle, t.conns) == AfterConnect(s.idle, s.conns, if dialSucceeds then Some(s.dialled) else None, vid)
    ensures t.closed == s.closed
  {
    hide Path;
    var h := |s.handlers|;
    var s1 := Apply(s, Arrive(Connecting));
    var s2 := Apply(s1, Get(h));
    var adopt := [Adopt(h, vid)];
    if s.idle != [] {
      t := AdoptAlone(s2, h, vid);
      Onward(s1, Get(h), adopt, t);
      Onward(s, Arrive(Connecting), [Get(h)] + adopt, t);
    } else {
      var s3 := Apply(s2, Dial(h, dialSucceeds));
      if dialSucceeds {
        t := AdoptAlone(s3, h, vid);
      } else {
        t := s3;
        Arrived(t);
      }
      var rest := if dialSucceeds then adopt else [];
      Onward(s2, Dial(h, dialSucceeds), rest, t);
      Onward(s1, Get(h), [Dial(h, dialSucceeds)] + rest, t);
      Onward(s, Arrive(Connecting), [Get(h)] + ([Dial(h, dialSucceeds)] + rest), t);
    }
  }

  lemma AdoptAlone(s: State, h: nat, vid: Vid) returns (t: State)
    requires Enabled(s, Adopt(h, vid))
    ensures Path(s, [Adopt(h, vid)], t) && t == Apply(s, Adopt(h, vid))
  {
    t := Apply(s, Adopt(h, vid));
    Arrived(t);
    Onward(s, Adopt(h, vid), [], t);
    assert [Adopt(h, vid)] + [] == [Adopt(h, vid)];
  }

  function DisconnectSteps(s: State, vid: Vid): seq<Step>
  {
    var h := |s.handlers|;
    [Arrive(Leaving(vid))] + ([TakeOut(h)] +
      if vid !in s.conns then [] else [Put(h)] + if |s.idle| < s.max then [] else [Close(h)])
  }

  /** A disconnect run alone does what AfterDisconnect says. */
  lemma DisconnectAlone(s: State, vid: Vid) returns (t: State)
    ensures Path(s, DisconnectSteps(s, vid), t)
    ensures (t.idle, t.conns, t.closed) == AfterDisconnect(s.max, s.idle, s.conns, s.closed, vid)
  {
    hide Path;
    var h := |s.handlers|;
    var s1 := Apply(s, Arrive(Leaving(vid)));
    var s2 := Apply(s1, TakeOut(h));
    if vid !in s.conns {
      t := s2;
      Arrived(t);
      Onward(s1, TakeOut(h), [], t);
      Onward(s, Arrive(Leaving(vid)), [TakeOut(h)] + [], t);
    } else {
      var s3 := Apply(s2, Put(h));
      var rest := if |s.idle| < s.max then [] else [Close(h)];
      if |s.idle| < s.max {
        t := s3;
        Arrived(t);
      } else {
        t := Apply(s3, Close(h));
        Arrived(t);
        Onward(s3, Close(h), [], t);
        assert [Close(h)] + [] == [Close(h)];
      }
      Onward(s2, Put(h), rest, t);
      Onward(s1, TakeOut(h), [Put(h)] + rest, t);
      Onward(s, Arrive(Leaving(vid)), [TakeOut(h)] + ([Put(h)] + rest), t);
    }
  }

  /** A forward run alone borrows the mapped session and moves nothing. */
  lemma ForwardAlone(s: State, vid: Vid) returns (t: State)
    ensures Path(s, [Arrive(Looking(vid))] + ([Look(|s.handlers|)] + []), t)
    ensures t.handlers == s.handlers + [if vid in s.conns then Relaying(vid, s.conns[vid]) else Over]
    ensures t.idle == s.idle && t.conns == s.conns && t.closed == s.closed
  {
    var h := |s.handlers|;
    var s1 := Apply(s, Arrive(Looking(vid)));
    t := Apply(s1, Look(h));
    hide Path;
    Arrived(t);
    Onward(s1, Look(h), [], t);
    Onward(s, Arrive(Looking(vid)), [Look(h)] + [], t);
  }
}
