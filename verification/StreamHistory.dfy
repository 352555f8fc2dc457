/** The order of events in a stream's life, over whole runs of the multiplexer: when
    a Read ends and why, and whether the open result was sent before the close. */
module StreamHistory {
  import opened Bytes
  import opened Framing
  import opened Streams
  import opened Multiplexer
  import opened ReaderCrash

  // ---- how a stream ends -------------------------------------------------

  /** A peer's CLSE is taken as a refusal only on a stream without a remote ID, and
      such a stream never gets one. */
  ghost predicate RefusedRight(x: Mux) {
    Distinct(x) ==>
      && (x.loop.Taking? && x.loop.sid < |x.table| && x.loop.cause == PeerRefused ==> x.table[x.loop.sid].s.remoteID == 0)
      && (forall sid :: sid in x.closing && sid < |x.table| && x.closing[sid].cause == PeerRefused ==> x.table[sid].s.remoteID == 0)
      && (forall sid :: 0 <= sid < |x.table| && x.table[sid].closer == Some(PeerRefused) ==> x.table[sid].s.remoteID == 0)
  }

  /** Where a close for a refused stream comes from. */
  lemma RefusalFrom(x: Mux, step: Step, sid: nat)
    requires sid in Apply(x, step).closing && Apply(x, step).closing[sid].cause == PeerRefused
    ensures || (sid in x.closing && x.closing[sid].cause == PeerRefused)
            || (step.Loop? && x.loop.Taking? && x.loop.cause == PeerRefused && x.loop.sid < |x.table|
                && x.table[x.loop.sid].s.localID in x.streams && x.streams[x.table[x.loop.sid].s.localID] == sid)
  {
    if x.crashed {
    } else if step.Loop? {
      LoopRefusalFrom(x, step.ok, sid);
    } else {
      OthersCloseFromOutside(x, step, sid);
    }
    hide LoopStep;
  }

  lemma LoopRefusalFrom(x: Mux, ok: bool, sid: nat)
    requires sid in LoopStep(x, ok).closing && LoopStep(x, ok).closing[sid].cause == PeerRefused
    ensures || (sid in x.closing && x.closing[sid].cause == PeerRefused)
            || (x.loop.Taking? && x.loop.cause == PeerRefused && x.loop.sid < |x.table|
                && x.table[x.loop.sid].s.localID in x.streams && x.streams[x.table[x.loop.sid].s.localID] == sid)
  {
    hide ReadNext, Dispatched, AcceptStep, Created;
    match x.loop
    case Reading => ReadNextFrame(x, ok);
    case Arrived(m) => DispatchedFrame(x, m, ok);
    case Accepting(m) => AcceptStepFrame(x, ok); CreatedClosings(x, m.arg0);
    case AcceptAcking(_) => AcceptStepFrame(x, ok);
    case _ =>
  }

  lemma TakingFrom(x: Mux, step: Step)
    requires Apply(x, step).loop.Taking? && Apply(x, step).loop.cause == PeerRefused
    ensures Apply(x, step).loop == x.loop
         || (x.loop.Closing? && step.Loop? && Apply(x, step).loop.sid == x.loop.sid
             && x.loop.sid < |x.table| && x.table[x.loop.sid].s.remoteID == 0)
  {
    if x.crashed {
    } else if step.Loop? {
      LoopTakingFrom(x, step.ok);
    } else {
      OthersKeepPlace(x, step);
    }
    hide LoopStep;
  }

  lemma LoopTakingFrom(x: Mux, ok: bool)
    requires LoopStep(x, ok).loop.Taking? && LoopStep(x, ok).loop.cause == PeerRefused
    ensures LoopStep(x, ok).loop == x.loop
         || (x.loop.Closing? && LoopStep(x, ok).loop.sid == x.loop.sid
             && x.loop.sid < |x.table| && x.table[x.loop.sid].s.remoteID == 0)
  {
    hide ReadNext, Dispatched, CloseStep, AcceptStep, AllTaken, Created;
    match x.loop
    case Reading => ReadNextFrame(x, ok);
    case Arrived(m) => DispatchedFrame(x, m, ok);
    case Closing(_) => CloseStepFrame(x);
    case Taking(_, _) => CloseStepFrame(x);
    case AwaitClose(_) => CloseStepFrame(x);
    case Accepting(_) => AcceptStepFrame(x, ok);
    case AcceptAcking(_) => AcceptStepFrame(x, ok);
    case Failing => AllTakenFrame(x);
    case _ =>
  }

  /** A stream that is being refused keeps having no remote ID. */
  lemma RefusedKeepsNoID(x: Mux, step: Step, sid: nat)
    requires RoutingInv(x) && sid < |x.table| && x.table[sid].s.remoteID == 0
    requires (sid in x.closing && x.closing[sid].cause == PeerRefused) || x.table[sid].closer == Some(PeerRefused)
          || (x.loop.Taking? && x.loop.sid == sid)
    ensures sid < |Apply(x, step).table| && Apply(x, step).table[sid].s.remoteID == 0
  {
    StepFrame(x, step, sid);
    assert x.loop.Establishing? && x.loop.sid == sid ==> Routing(x.loop, sid);
    hide Apply;
  }

  lemma StepKeepsRefused(x: Mux, step: Step)
    requires OwnerInv(x) && LoopInv(x) && IdInv(x) && RefusedRight(x)
    ensures RefusedRight(Apply(x, step))
  {
    var y := Apply(x, step);
    StepCounts(x, step);
    if Distinct(y) {
      hide Apply, OwnerInv, PlaceInv, RemoteInv;
      assert Distinct(x);
      if y.loop.Taking? && y.loop.sid < |y.table| && y.loop.cause == PeerRefused {
        TakingFrom(x, step);
        TakingKeepsNoID(x, step);
      }
      forall sid | sid in y.closing && sid < |y.table| && y.closing[sid].cause == PeerRefused ensures y.table[sid].s.remoteID == 0 {
        RefusalFrom(x, step, sid);
        ClosingKeepsNoID(x, step, sid);
      }
      forall sid | 0 <= sid < |y.table| && y.table[sid].closer == Some(PeerRefused) ensures y.table[sid].s.remoteID == 0 {
        CloserKeepsNoID(x, step, sid);
      }
    }
  }

  lemma TakingKeepsNoID(x: Mux, step: Step)
    requires PlaceInv(x) && RoutingInv(x) && RefusedRight(x) && Distinct(x)
    requires var y := Apply(x, step);
             && y.loop.Taking? && y.loop.sid < |y.table| && y.loop.cause == PeerRefused
             && (y.loop == x.loop
                 || (x.loop.Closing? && step.Loop? && y.loop.sid == x.loop.sid && x.loop.sid < |x.table| && x.table[x.loop.sid].s.remoteID == 0))
    ensures Apply(x, step).table[Apply(x, step).loop.sid].s.remoteID == 0
  {
    var sid := Apply(x, step).loop.sid;
    StepFrame(x, step, sid);
    hide Apply;
  }

  lemma ClosingKeepsNoID(x: Mux, step: Step, sid: nat)
    requires OwnerInv(x) && PlaceInv(x) && RoutingInv(x) && IdInv(x) && RefusedRight(x) && Distinct(x)
    requires || (sid in x.closing && x.closing[sid].cause == PeerRefused)
             || (step.Loop? && x.loop.Taking? && x.loop.cause == PeerRefused && x.loop.sid < |x.table|
                 && x.table[x.loop.sid].s.localID in x.streams && x.streams[x.table[x.loop.sid].s.localID] == sid)
    ensures sid < |Apply(x, step).table| && Apply(x, step).table[sid].s.remoteID == 0
  {
    assert sid < |x.table|;
    if sid in x.closing && x.closing[sid].cause == PeerRefused {
      RefusedKeepsNoID(x, step, sid);
    } else {
      assert x.table[sid].s.localID == x.table[x.loop.sid].s.localID;
      IdsDistinct(x, sid, x.loop.sid);
      RefusedKeepsNoID(x, step, sid);
    }
    hide Apply, IdInv, PlaceInv;
  }

  lemma CloserKeepsNoID(x: Mux, step: Step, sid: nat)
    requires OwnerInv(x) && RoutingInv(x) && RefusedRight(x) && Distinct(x)
    requires sid < |Apply(x, step).table| && Apply(x, step).table[sid].closer == Some(PeerRefused)
    ensures Apply(x, step).table[sid].s.remoteID == 0
  {
    hide Apply, RoutingInv, NewTrack, NewState, OpenOnce;
    if sid >= |x.table| {
      StepCounts(x, step);
      StepCreates(x, step);
      NewHasNoCloser();
    } else {
      StepFrame(x, step, sid);
      RefusedKeepsNoID(x, step, sid);
    }
  }

  lemma NewHasNoCloser()
    ensures forall s, birth, who :: NewTrack(s, birth, who).closer == None
  {
  }

  lemma {:induction false} AlwaysRefused(input: seq<Byte>, steps: seq<Step>)
    ensures RefusedRight(Exec(Start(input), steps))
  {
    if |steps| > 0 {
      AlwaysRefused(input, steps[..|steps| - 1]);
      Always(input, steps[..|steps| - 1]);
      StepKeepsRefused(Exec(Start(input), steps[..|steps| - 1]), steps[|steps| - 1]);
      hide RefusedRight, Apply, OwnerInv, LoopInv, InputInv, IdInv, TrackInv, RouteInv;
    }
  }

  predicate ClosedByPeer(t: Track) {
    t.closer == Some(PeerClosed) || t.closer == Some(PeerRefused)
  }

  /** Main result. Drain before end: when a Read reports the end, every accepted byte
      has been returned, and every later Read reports the same. The end is io.EOF
      exactly when the close that came first was a peer's CLSE on a stream with a
      nonzero remote ID, as long as no local ID has been handed out twice. */
  lemma EndsAfterDraining(input: seq<Byte>, steps: seq<Step>, sid: nat, i: nat)
    requires sid < |Exec(Start(input), steps).table|
    requires i < |Exec(Start(input), steps).table[sid].results|
    requires Exec(Start(input), steps).table[sid].results[i].End?
    ensures var x := Exec(Start(input), steps);
            var t := x.table[sid];
            && Returned(t.results[..i]) == t.accepted
            && (forall j :: i <= j < |t.results| ==> t.results[j] == t.results[i])
            && (Distinct(x) ==> (t.results[i].error == EndOfFile <==> ClosedByPeer(t) && t.s.remoteID != 0))
  {
    Always(input, steps);
    AlwaysRefused(input, steps);
    var x := Exec(Start(input), steps);
    var t := x.table[sid];
    assert TrackInv(t, Distinct(x));
    assert Distinct(x) && t.closer == Some(PeerRefused) ==> t.s.remoteID == 0;
    hide Exec, Inv, RefusedRight;
    EndsAreTheSame(t, i);
    OnlyEndsReturnNothing(t.results, i);
    hide Returned, Flat;
    assert Held(t.pc) == [] && t.s.buf == [];
    assert Flat(t.s.queue) == [] by { FlatOfNone(); }
    assert Returned(t.results) + ([] + ([] + [])) == Returned(t.results);
  }

  // ---- whether the open result comes before the close --------------------

  /** The state after the first i steps of a run. */
  function At(input: seq<Byte>, steps: seq<Step>, i: nat): Mux
    requires i <= |steps|
  {
    Exec(Start(input), steps[..i])
  }

  lemma AtNext(input: seq<Byte>, steps: seq<Step>, i: nat)
    requires i < |steps|
    ensures At(input, steps, i + 1) == Apply(At(input, steps, i), steps[i])
  {
    assert steps[..i + 1][..i] == steps[..i];
    hide Apply;
  }

  lemma AtEnd(input: seq<Byte>, steps: seq<Step>)
    ensures At(input, steps, |steps|) == Exec(Start(input), steps)
    ensures At(input, steps, 0) == Start(input)
  {
    assert steps[..|steps|] == steps;
    assert steps[..0] == [];
  }

  /** The reader has looked the stream up and has not come to its openOnce. */
  predicate Opens(loop: LoopPc, sid: nat) {
    (loop.Establishing? || loop.Opening?) && loop.sid == sid
  }

  /** Step b marks the stream closed for a Close or a Connection.Close, after the
      reader's lookup in step a, and the reader is not yet past its openOnce at c. */
  ghost predicate ClosedMidway(input: seq<Byte>, steps: seq<Step>, sid: nat, a: nat, b: nat, c: nat) {
    && a < b < c <= |steps|
    && !Opens(At(input, steps, a).loop, sid)
    && (forall i :: a < i <= c ==> Opens(At(input, steps, i).loop, sid))
    && var x := At(input, steps, b);
       && steps[b] == CloseMark(sid) && sid in x.closing && External(x.closing[sid].cause)
       && sid < |x.table| && !x.table[sid].s.closed && sid < |At(input, steps, b + 1).table| && At(input, steps, b + 1).table[sid].s.closed
  }

  /** The reader's openOnce runs and is the first one. */
  predicate SendsNil(x: Mux, step: Step, sid: nat) {
    !x.crashed && step.Loop? && x.loop.Opening? && x.loop.sid == sid && sid < |x.table| && !x.table[sid].s.openDone
  }

  /** Step c sends nil on a stream that was closed midway. */
  ghost predicate LateNil(input: seq<Byte>, steps: seq<Step>, sid: nat, a: nat, b: nat, c: nat) {
    c < |steps| && ClosedMidway(input, steps, sid, a, b, c) && SendsNil(At(input, steps, c), steps[c], sid)
  }

  ghost predicate NilCameLate(input: seq<Byte>, steps: seq<Step>, sid: nat) {
    exists a: nat, b: nat, c: nat :: LateNil(input, steps, sid, a, b, c)
  }

  predicate OpenedAndOpen(x: Mux, sid: nat) {
    sid < |x.table| && x.table[sid].s.openDone && !x.table[sid].s.closed
  }

  /** Establishment or acceptance precedes closing: at some moment the open result has
      been sent and the stream is not closed. */
  ghost predicate OpenedFirst(input: seq<Byte>, steps: seq<Step>, sid: nat) {
    exists i :: 0 <= i <= |steps| && OpenedAndOpen(At(input, steps, i), sid)
  }

  lemma AlwaysAt(input: seq<Byte>, steps: seq<Step>, i: nat)
    requires i <= |steps|
    ensures Inv(At(input, steps, i))
  {
    Always(input, steps[..i]);
    hide Exec, Inv;
  }

  /** What is looked up is open. */
  lemma LookupIsOpen(x: Mux, step: Step, sid: nat)
    requires OwnerInv(x) && !Opens(x.loop, sid) && Opens(Apply(x, step).loop, sid)
    ensures sid < |Apply(x, step).table| && !Apply(x, step).table[sid].s.closed
  {
    if step.Loop? {
      LoopLookupIsOpen(x, step.ok, sid);
    } else {
      OthersKeepPlace(x, step);
    }
    hide LoopStep, OwnerInv;
  }

  lemma LoopLookupIsOpen(x: Mux, ok: bool, sid: nat)
    requires OwnerInv(x) && !Opens(x.loop, sid) && Opens(LoopStep(x, ok).loop, sid)
    ensures sid < |LoopStep(x, ok).table| && !LoopStep(x, ok).table[sid].s.closed
  {
    if x.loop.Arrived? {
      DispatchedFrame(x, x.loop.m, ok);
      hide Dispatched;
    } else {
      hide OwnerInv;
      OpensOn(x, ok, sid);
    }
  }

  lemma OpensOn(x: Mux, ok: bool, sid: nat)
    requires !x.loop.Arrived? && Opens(LoopStep(x, ok).loop, sid)
    ensures Opens(x.loop, sid)
  {
    RoutesOn(x, ok, sid);
    if x.loop.Acking? {
      AckingFrame(x);
      hide RouteStep;
    } else {
      RoutingNext(x, ok);
      hide LoopStep;
    }
  }

  /** The step in which the reader looked the stream up. */
  lemma {:induction false} LookupMoment(input: seq<Byte>, steps: seq<Step>, n: nat, sid: nat) returns (a: nat)
    requires n <= |steps| && Opens(At(input, steps, n).loop, sid)
    ensures a < n && !Opens(At(input, steps, a).loop, sid)
    ensures forall i :: a < i <= n ==> Opens(At(input, steps, i).loop, sid)
  {
    hide *;
    AtEnd(input, steps);
    NotOpening(input, sid);
    assert n > 0;
    if Opens(At(input, steps, n - 1).loop, sid) {
      a := LookupMoment(input, steps, n - 1, sid);
    } else {
      a := n - 1;
    }
  }

  /** A stream that is closed while the reader comes to its openOnce was closed midway. */
  lemma {:induction false} MarkMoment(input: seq<Byte>, steps: seq<Step>, n: nat, sid: nat) returns (a: nat, b: nat)
    requires n <= |steps| && Opens(At(input, steps, n).loop, sid)
    requires sid < |At(input, steps, n).table| && At(input, steps, n).table[sid].s.closed
    ensures ClosedMidway(input, steps, sid, a, b, n)
  {
    hide *;
    StepBefore(input, steps, n, sid);
    if At(input, steps, n - 1).table[sid].s.closed {
      a, b := MarkMoment(input, steps, n - 1, sid);
      MidwayStill(input, steps, sid, a, b, n - 1);
    } else {
      a := LookupMoment(input, steps, n - 1, sid);
      b := n - 1;
      MidwayNow(input, steps, sid, a, b);
    }
  }

  /** The step before, while the reader comes to the openOnce of a closed stream. */
  lemma StepBefore(input: seq<Byte>, steps: seq<Step>, n: nat, sid: nat)
    requires n <= |steps| && Opens(At(input, steps, n).loop, sid)
    requires sid < |At(input, steps, n).table| && At(input, steps, n).table[sid].s.closed
    ensures n > 0
    ensures var x := At(input, steps, n - 1);
            && Opens(x.loop, sid) && sid < |x.table|
            && (!x.table[sid].s.closed ==> steps[n - 1] == CloseMark(sid) && sid in x.closing && External(x.closing[sid].cause))
  {
    hide At, Apply, Opens, Start, External;
    AtEnd(input, steps);
    NotOpening(input, sid);
    assert n > 0;
    AtNext(input, steps, n - 1);
    AlwaysAt(input, steps, n - 1);
    var x, step := At(input, steps, n - 1), steps[n - 1];
    OpensIsPlaced(x, sid);
    hide Inv, OwnerInv, RoutingInv;
    if !Opens(x.loop, sid) {
      LookupIsOpen(x, step, sid);
      assert false;
    }
    if !x.table[sid].s.closed { MarkedFromOutside(x, step, sid); }
  }

  lemma MidwayStill(input: seq<Byte>, steps: seq<Step>, sid: nat, a: nat, b: nat, c: nat)
    requires ClosedMidway(input, steps, sid, a, b, c) && c < |steps| && Opens(At(input, steps, c + 1).loop, sid)
    ensures ClosedMidway(input, steps, sid, a, b, c + 1)
  {
    hide At, Opens;
  }

  lemma MidwayNow(input: seq<Byte>, steps: seq<Step>, sid: nat, a: nat, b: nat)
    requires a < b < |steps| && !Opens(At(input, steps, a).loop, sid)
    requires forall i :: a < i <= b ==> Opens(At(input, steps, i).loop, sid)
    requires Opens(At(input, steps, b + 1).loop, sid)
    requires var x := At(input, steps, b);
             && steps[b] == CloseMark(sid) && sid in x.closing && External(x.closing[sid].cause)
             && sid < |x.table| && !x.table[sid].s.closed
             && sid < |At(input, steps, b + 1).table| && At(input, steps, b + 1).table[sid].s.closed
    ensures ClosedMidway(input, steps, sid, a, b, b + 1)
  {
    hide At, Opens;
  }

  lemma NotOpening(input: seq<Byte>, sid: nat)
    ensures !Opens(Start(input).loop, sid)
  {
  }

  lemma OpensIsPlaced(x: Mux, sid: nat)
    requires Inv(x)
    ensures OwnerInv(x) && RoutingInv(x) && (Opens(x.loop, sid) ==> sid < |x.table|)
  {
    hide OwnerInv, InputInv, IdInv, TrackInv, RouteInv, RemoteInv, RoutingInv;
  }

  /** While the reader comes to a stream's openOnce only others close the stream. */
  lemma MarkedFromOutside(x: Mux, step: Step, sid: nat)
    requires RoutingInv(x) && Opens(x.loop, sid) && sid < |x.table| && !x.table[sid].s.closed
    requires sid < |Apply(x, step).table| && Apply(x, step).table[sid].s.closed
    ensures step == CloseMark(sid) && sid in x.closing && External(x.closing[sid].cause)
  {
    StepFrame(x, step, sid);
    assert Routing(x.loop, sid);
    hide Apply;
  }

  /** A sent open result is never changed, and a closed stream never opens again. */
  lemma StepKeepsOpened(x: Mux, step: Step, sid: nat)
    requires sid < |x.table|
    ensures sid < |Apply(x, step).table|
    ensures var t, u := x.table[sid].s, Apply(x, step).table[sid].s;
            && (t.openDone ==> u.openDone && u.openCh == t.openCh)
            && (t.closed ==> u.closed)
  {
    StepFrame(x, step, sid);
    MarkedStaysClosed(x.table[sid]);
    if step.Loop? {
      LoopKeepsResult(x, step.ok, sid);
    } else if step.ReadOn? && step.sid == sid {
      ReadStepFrame(x.table[sid]);
    }
    hide LoopStep, ReadStep, SetRemote;
  }

  lemma LoopKeepsResult(x: Mux, ok: bool, sid: nat)
    requires sid < |x.table|
    ensures sid < |LoopStep(x, ok).table|
    ensures x.table[sid].s.openDone ==> LoopStep(x, ok).table[sid].s.openCh == x.table[sid].s.openCh
  {
    if x.loop.Establishing? || x.loop.Opening? || x.loop.Delivering? {
      hide ReadNext, Dispatched, CloseStep, AcceptStep, AllTaken, Created;
    } else {
      NotRoutingFrame(x, ok);
      CreatedKeepsTable(x);
      hide LoopStep, Created;
    }
  }

  lemma CreatedKeepsTable(x: Mux)
    ensures x.loop.Accepting? ==>
      var y := Created(x, x.loop.m.arg0, true); |y.table| == |x.table| + 1 && y.table[..|x.table|] == x.table
  {
    hide OpenOnce;
  }

  /** The step that sends a stream's open result. */
  lemma OpenStep(x: Mux, step: Step, sid: nat)
    requires Inv(Apply(x, step)) && Distinct(Apply(x, step))
    requires sid < |Apply(x, step).table| && Apply(x, step).table[sid].s.openDone
    requires sid < |x.table| ==> !x.table[sid].s.openDone
    ensures var u := Apply(x, step).table[sid];
            || (sid >= |x.table| && !u.s.closed && u.s.openCh == [None])
            || (SendsNil(x, step, sid) && u.s.openCh == [None] && u.s.closed == x.table[sid].s.closed)
            || (sid < |x.table| && u.s.closed && u.s.openCh != [None])
  {
    hide Inv, Apply, SendsNil;
    TrackAt(Apply(x, step), sid);
    if sid >= |x.table| {
      StepCounts(x, step);
      StepCreates(x, step);
    } else {
      OpenedBySteps(x, step, sid);
    }
  }

  lemma TrackOpened(t: Track)
    requires TrackInv(t, true)
    ensures t.s.openDone ==> t.openedBy != Nobody
    ensures t.openedBy == ByEstablish ==> t.s.openCh == [None]
    ensures t.openedBy == ByClose ==> t.s.closed && t.s.openCh != [None]
  {
    hide Conserved, EndsLast;
  }

  /** Only the reader's openOnce and a closer's run on an existing stream. */
  lemma OpenedBySteps(x: Mux, step: Step, sid: nat)
    requires sid < |x.table| && !x.table[sid].s.openDone
    requires sid < |Apply(x, step).table| && Apply(x, step).table[sid].s.openDone
    ensures var u := Apply(x, step).table[sid];
            || (SendsNil(x, step, sid) && u.openedBy == ByEstablish && u.s.closed == x.table[sid].s.closed)
            || u.openedBy == ByClose
  {
    if step.Loop? {
      LoopOpens(x, step.ok, sid);
    } else if step.ReadOn? && step.sid == sid {
      ReadStepFrame(x.table[sid]);
    }
    hide LoopStep, ReadStep, SetRemote;
  }

  lemma LoopOpens(x: Mux, ok: bool, sid: nat)
    requires sid < |x.table| && !x.table[sid].s.openDone
    ensures sid < |LoopStep(x, ok).table|
    ensures var u := LoopStep(x, ok).table[sid];
            u.s.openDone ==> x.loop.Opening? && x.loop.sid == sid && u.openedBy == ByEstablish && u.s.closed == x.table[sid].s.closed
  {
    if x.loop.Establishing? || x.loop.Opening? || x.loop.Delivering? {
      hide ReadNext, Dispatched, CloseStep, AcceptStep, AllTaken, Created;
    } else {
      NotRoutingFrame(x, ok);
      CreatedKeepsTable(x);
      hide LoopStep, Created;
    }
  }

  /** What has happened by step i still holds at step j. */
  lemma {:induction false} OpenedStays(input: seq<Byte>, steps: seq<Step>, i: nat, j: nat, sid: nat)
    requires i <= j <= |steps| && sid < |At(input, steps, i).table|
    ensures |At(input, steps, i).table| <= |At(input, steps, j).table|
    ensures var t, u := At(input, steps, i).table[sid].s, At(input, steps, j).table[sid].s;
            && (t.openDone ==> u.openDone && u.openCh == t.openCh)
            && (t.closed ==> u.closed)
    decreases j
  {
    hide At, Apply;
    if i < j {
      OpenedStays(input, steps, i, j - 1, sid);
      AtNext(input, steps, j - 1);
      StepKeepsOpened(At(input, steps, j - 1), steps[j - 1], sid);
      StepCounts(At(input, steps, j - 1), steps[j - 1]);
    }
  }

  /** The step in which a stream's open result was sent. */
  lemma {:induction false} OpenMoment(input: seq<Byte>, steps: seq<Step>, n: nat, sid: nat) returns (c: nat)
    requires n <= |steps| && sid < |At(input, steps, n).table| && At(input, steps, n).table[sid].s.openDone
    ensures c < n
    ensures sid < |At(input, steps, c + 1).table| && At(input, steps, c + 1).table[sid].s.openDone
    ensures sid < |At(input, steps, c).table| ==> !At(input, steps, c).table[sid].s.openDone
  {
    AtEnd(input, steps);
    assert n > 0;
    hide At;
    var x := At(input, steps, n - 1);
    if sid < |x.table| && x.table[sid].s.openDone {
      c := OpenMoment(input, steps, n - 1, sid);
    } else {
      c := n - 1;
    }
  }

  /** An open result nil was sent first or late. */
  lemma NilWasSent(input: seq<Byte>, steps: seq<Step>, sid: nat)
    requires var x := Exec(Start(input), steps);
             Distinct(x) && sid < |x.table| && x.table[sid].s.openCh == [None] && x.table[sid].s.openDone
    ensures OpenedFirst(input, steps, sid) || NilCameLate(input, steps, sid)
  {
    hide At, Apply, Exec, Start, ClosedMidway, SendsNil;
    AtEnd(input, steps);
    var n := |steps|;
    var c := OpenMoment(input, steps, n, sid);
    AtNext(input, steps, c);
    AlwaysAt(input, steps, c + 1);
    OpenedStays(input, steps, c + 1, n, sid);
    OpenStep(At(input, steps, c), steps[c], sid);
    hide Inv, Distinct;
    if At(input, steps, c + 1).table[sid].s.closed {
      LateFound(input, steps, sid, c);
    } else {
      assert OpenedAndOpen(At(input, steps, c + 1), sid);
    }
    hide NilCameLate;
  }

  lemma LateFound(input: seq<Byte>, steps: seq<Step>, sid: nat, c: nat)
    requires c < |steps| && SendsNil(At(input, steps, c), steps[c], sid) && At(input, steps, c).table[sid].s.closed
    ensures NilCameLate(input, steps, sid)
  {
    SendsWhileOpening(At(input, steps, c), steps[c], sid);
    hide At, ClosedMidway, SendsNil, Opens;
    var a, b := MarkMoment(input, steps, c, sid);
    assert LateNil(input, steps, sid, a, b, c);
  }

  lemma SendsWhileOpening(x: Mux, step: Step, sid: nat)
    requires SendsNil(x, step, sid)
    ensures Opens(x.loop, sid) && sid < |x.table| && !x.table[sid].s.openDone
  {
  }

  lemma SendingNil(x: Mux, step: Step, sid: nat)
    requires SendsNil(x, step, sid) && x.table[sid].s.openCh == []
    ensures sid < |Apply(x, step).table|
    ensures Apply(x, step).table[sid].s.openDone && Apply(x, step).table[sid].s.openCh == [None]
  {
    hide ReadNext, Dispatched, CloseStep, AcceptStep, AllTaken, Created;
  }

  /** Main result. As long as no local ID has been handed out twice: a stream's open
      result is nil exactly when establishment or acceptance precedes closing, or
      when a Close or Connection.Close has closed the stream between the reader's
      lookup and its openOnce, which then ran first; and never both. */
  lemma OpenResultOrder(input: seq<Byte>, steps: seq<Step>, sid: nat)
    requires sid < |Exec(Start(input), steps).table| && Distinct(Exec(Start(input), steps))
    ensures Exec(Start(input), steps).table[sid].s.openCh == [None] <==>
              OpenedFirst(input, steps, sid) || NilCameLate(input, steps, sid)
    ensures !(OpenedFirst(input, steps, sid) && NilCameLate(input, steps, sid))
  {
    hide At, Apply, Exec, Start, ClosedMidway, SendsNil, OpenedFirst, NilCameLate;
    AtEnd(input, steps);
    ResultSent(input, steps, sid);
    if Exec(Start(input), steps).table[sid].s.openCh == [None] {
      NilWasSent(input, steps, sid);
    }
    if OpenedFirst(input, steps, sid) { FirstMeansNil(input, steps, sid); }
    if NilCameLate(input, steps, sid) { LateMeansNil(input, steps, sid); }
  }

  lemma ResultSent(input: seq<Byte>, steps: seq<Step>, sid: nat)
    requires sid < |Exec(Start(input), steps).table|
    ensures var s := Exec(Start(input), steps).table[sid].s; s.openCh != [] ==> s.openDone
  {
    Always(input, steps);
    var x := Exec(Start(input), steps);
    assert TrackInv(x.table[sid], Distinct(x));
    hide Exec, Inv, Conserved, EndsLast;
  }

  lemma FirstMeansNil(input: seq<Byte>, steps: seq<Step>, sid: nat)
    requires OpenedFirst(input, steps, sid) && Distinct(Exec(Start(input), steps))
    ensures sid < |Exec(Start(input), steps).table| && Exec(Start(input), steps).table[sid].s.openCh == [None]
    ensures !NilCameLate(input, steps, sid)
  {
    hide At, Apply, Exec, Start, ClosedMidway, SendsNil;
    AtEnd(input, steps);
    var i :| 0 <= i <= |steps| && OpenedAndOpen(At(input, steps, i), sid);
    var x := At(input, steps, i);
    AlwaysAt(input, steps, i);
    OpenedStays(input, steps, i, |steps|, sid);
    TrackAt(x, sid);
    if NilCameLate(input, steps, sid) {
      var a: nat, b: nat, c: nat :| LateNil(input, steps, sid, a, b, c);
      LateIsClosed(input, steps, sid, a, b, c);
      if i <= c { OpenedStays(input, steps, i, c, sid); } else { OpenedStays(input, steps, c, i, sid); }
      assert false;
    }
  }

  lemma TrackAt(x: Mux, sid: nat)
    requires Inv(x) && sid < |x.table| && Distinct(x)
    ensures var t := x.table[sid];
            && (t.s.openDone ==> t.openedBy != Nobody)
            && (t.openedBy == ByEstablish ==> t.s.openCh == [None])
            && (t.openedBy == ByClose ==> t.s.closed && t.s.openCh != [None])
            && (!t.s.openDone ==> t.s.openCh == [])
  {
    assert TrackInv(x.table[sid], true);
    TrackOpened(x.table[sid]);
    hide Inv, Conserved, EndsLast, ClosedRight;
  }

  lemma LateIsClosed(input: seq<Byte>, steps: seq<Step>, sid: nat, a: nat, b: nat, c: nat)
    requires LateNil(input, steps, sid, a, b, c)
    ensures sid < |At(input, steps, c).table|
    ensures At(input, steps, c).table[sid].s.closed && !At(input, steps, c).table[sid].s.openDone
  {
    OpenedStays(input, steps, b + 1, c, sid);
    hide At;
  }

  lemma LateMeansNil(input: seq<Byte>, steps: seq<Step>, sid: nat)
    requires NilCameLate(input, steps, sid) && Distinct(Exec(Start(input), steps))
    ensures sid < |Exec(Start(input), steps).table| && Exec(Start(input), steps).table[sid].s.openCh == [None]
  {
    hide At, Apply, Exec, Start, ClosedMidway, SendsNil;
    AtEnd(input, steps);
    var a: nat, b: nat, c: nat :| LateNil(input, steps, sid, a, b, c);
    LateIsClosed(input, steps, sid, a, b, c);
    AlwaysAt(input, steps, c);
    OpenedStays(input, steps, c, |steps|, sid);
    TrackAt(At(input, steps, c), sid);
    AtNext(input, steps, c);
    SendingNil(At(input, steps, c), steps[c], sid);
    OpenedStays(input, steps, c + 1, |steps|, sid);
  }

  /** Without a Close or a Connection.Close the open result is nil exactly when
      establishment or acceptance precedes closing. */
  lemma NilMeansOpenedFirst(input: seq<Byte>, steps: seq<Step>, sid: nat)
    requires sid < |Exec(Start(input), steps).table| && Distinct(Exec(Start(input), steps))
    requires forall i :: 0 <= i < |steps| ==> !ClosesFromOutside(steps[i])
    ensures Exec(Start(input), steps).table[sid].s.openCh == [None] <==> OpenedFirst(input, steps, sid)
  {
    hide At, Apply, Exec, Start, OpenedFirst;
    OpenResultOrder(input, steps, sid);
    if NilCameLate(input, steps, sid) {
      var a: nat, b: nat, c: nat :| LateNil(input, steps, sid, a, b, c);
      QuietAt(input, steps, b);
      assert false;
    }
  }

  lemma QuietAt(input: seq<Byte>, steps: seq<Step>, i: nat)
    requires i <= |steps| && forall k :: 0 <= k < |steps| ==> !ClosesFromOutside(steps[k])
    ensures QuietInv(At(input, steps, i))
  {
    NoCrashWithoutOutsideClose(input, steps[..i]);
    hide Exec, QuietInv;
  }

  // ---- a run in which Open returns a closed stream without an error ------

  /** One more step of a run. */
  lemma Do(input: seq<Byte>, x: Mux, steps: seq<Step>, step: Step) returns (y: Mux, more: seq<Step>)
    requires x == Exec(Start(input), steps)
    ensures more == steps + [step] && y == Apply(x, step) && y == Exec(Start(input), more)
  {
    y, more := Apply(x, step), steps + [step];
    assert more[..|more| - 1] == steps;
    hide Apply;
  }

  /** The reader is about to establish the stream when the connection is closed. */
  lemma ClosedBeforeEstablish(m: Message) returns (x: Mux, steps: seq<Step>)
    requires m.command == OKAY && m.arg1 == 1 && Framable(m)
    ensures |steps| == 5 && x == Exec(Start(Encode(m)), steps)
    ensures !x.crashed && |x.table| == 1 && x.loop == Establishing(0, m)
    ensures x.table[0].s.closed && x.table[0].s.openCh == [] && !x.table[0].s.openDone && x.table[0].closer == Some(Shutdown)
  {
    var input := Encode(m);
    DecodeOfEncode(m, []);
    assert Encode(m) + [] == Encode(m);
    AtEnd(input, []);
    FirstStream(input);
    FirstIsFresh(input);
    hide Decode, Encode, Exec, Apply;
    x, steps := Start(input), [];
    assert steps[..0] == [];
    x, steps := Do(input, x, steps, NewStream);
    ReadsIt(x, m);
    var y;
    y, steps := Do(input, x, steps, Loop(true));
    LooksItUp(y, m);
    y, steps := Do(input, y, steps, Loop(true));
    ConnectionCloses(y, m);
    y, steps := Do(input, y, steps, CloseConnection);
    x, steps := Do(input, y, steps, CloseMark(0));
  }

  lemma FirstIsFresh(input: seq<Byte>)
    ensures var t := Apply(Start(input), NewStream).table[0];
            !t.s.closed && !t.s.openDone && t.s.openCh == [] && t.closer == None
  {
  }

  lemma ConnectionCloses(x: Mux, m: Message)
    requires !x.crashed && |x.table| == 1 && x.loop == Establishing(0, m) && x.closing == map[] && x.streams == map[1 := 0]
    requires !x.table[0].s.closed && !x.table[0].s.openDone && x.table[0].s.openCh == [] && x.table[0].closer == None
    ensures var z := Apply(Apply(x, CloseConnection), CloseMark(0));
            && !z.crashed && |z.table| == 1 && z.loop == Establishing(0, m)
            && z.table[0].s.closed && z.table[0].s.openCh == [] && !z.table[0].s.openDone && z.table[0].closer == Some(Shutdown)
  {
    var y := Apply(x, CloseConnection);
    assert x.streams[1] == 0 && 0 in x.streams.Values;
    assert 0 in y.closing && y.closing[0] == CloseCall(Shutdown, false);
  }

  lemma EstablishOpens(x: Mux, m: Message)
    requires !x.crashed && |x.table| == 1 && x.loop == Establishing(0, m) && m.command == OKAY
    requires x.table[0].s.closed && x.table[0].s.openCh == [] && !x.table[0].s.openDone
    ensures var y := Apply(x, Loop(true));
            && SendsNil(y, Loop(true), 0) && y.table[0].s.closed
            && var z := Apply(y, Loop(true));
               !z.crashed && |z.table| == 1 && z.table[0].s.closed && z.table[0].s.openCh == [None]
  {
  }

  /** The late nil is real: for every OKAY to the first stream, the connection is closed
      between the reader's lookup and its openOnce, and the open result is then nil:
      Open returns a closed stream without an error. */
  lemma ClosedStreamOpens(m: Message) returns (steps: seq<Step>)
    requires m.command == OKAY && m.arg1 == 1 && Framable(m)
    ensures var x := Exec(Start(Encode(m)), steps);
            && !x.crashed && |x.table| == 1 && x.table[0].s.closed && x.table[0].s.openCh == [None]
            && NilCameLate(Encode(m), steps, 0)
  {
    var input := Encode(m);
    var x;
    x, steps := ClosedBeforeEstablish(m);
    hide Encode, Exec, Apply, SendsNil, Start;
    EstablishOpens(x, m);
    x, steps := Do(input, x, steps, Loop(true));
    assert steps[..6] == steps;
    var y := x;
    x, steps := Do(input, x, steps, Loop(true));
    assert steps[..6] == steps[..|steps| - 1];
    assert At(input, steps, 6) == y && steps[6] == Loop(true);
    SendsWhileOpening(y, Loop(true), 0);
    var a, b := MarkMoment(input, steps, 6, 0);
    assert LateNil(input, steps, 0, a, b, 6);
  }
}
