/** Which remote ID a stream has, over whole runs of the multiplexer, and what its
    open result is once it has been closed. */
module RemoteIdentity {
  import opened Bytes
  import opened Framing
  import opened Streams
  import opened Multiplexer
  import opened StreamHistory

  // ---- the remote ID -----------------------------------------------------

  /** The reader looks the stream up for an OKAY or WRTE. */
  predicate LooksUp(x: Mux, step: Step, sid: nat) {
    && !x.crashed && step.Loop? && x.loop.Arrived? && x.loop.m.command in {OKAY, WRTE}
    && x.loop.m.arg1 in x.streams && x.streams[x.loop.m.arg1] == sid
  }

  /** The sender IDs of the OKAY and WRTE messages the stream was looked up for, in
      order. */
  function SenderIDs(input: seq<Byte>, steps: seq<Step>, sid: nat): seq<U32> {
    if |steps| == 0 then []
    else
      var x, step := Exec(Start(input), steps[..|steps| - 1]), steps[|steps| - 1];
      SenderIDs(input, steps[..|steps| - 1], sid) + if LooksUp(x, step, sid) then [x.loop.m.arg0] else []
  }

  /** The ID in the OPEN that a stream was accepted for; 0 for one a caller opened. */
  function OpenerID(input: seq<Byte>, steps: seq<Step>, sid: nat): U32 {
    if |steps| == 0 then 0
    else
      var x, step := Exec(Start(input), steps[..|steps| - 1]), steps[|steps| - 1];
      if |x.table| != sid then OpenerID(input, steps[..|steps| - 1], sid)
      else if step.Loop? && x.loop.Accepting? && !x.crashed then x.loop.m.arg0
      else 0
  }

  function FirstNonzero(ids: seq<U32>): U32 {
    if |ids| == 0 then 0 else if ids[0] != 0 then ids[0] else FirstNonzero(ids[1..])
  }

  /** It is the first nonzero one, and 0 when there is none. */
  lemma {:induction false} FirstNonzeroIsFirst(ids: seq<U32>)
    ensures FirstNonzero(ids) != 0 ==>
      exists i :: 0 <= i < |ids| && ids[i] == FirstNonzero(ids) && forall j :: 0 <= j < i ==> ids[j] == 0
    ensures FirstNonzero(ids) == 0 ==> forall j :: 0 <= j < |ids| ==> ids[j] == 0
  {
    if |ids| > 0 && ids[0] == 0 {
      FirstNonzeroIsFirst(ids[1..]);
      if FirstNonzero(ids) != 0 {
        var i :| 0 <= i < |ids[1..]| && ids[1..][i] == FirstNonzero(ids[1..]) && forall j :: 0 <= j < i ==> ids[1..][j] == 0;
        assert ids[i + 1] == FirstNonzero(ids);
        forall j | 0 <= j < i + 1 ensures ids[j] == 0 {
          if j > 0 { assert ids[1..][j - 1] == 0; }
        }
      } else {
        forall j | 0 <= j < |ids| ensures ids[j] == 0 {
          if j > 0 { assert ids[1..][j - 1] == 0; }
        }
      }
    }
  }

  lemma {:induction false} FirstNonzeroSnoc(ids: seq<U32>, id: U32)
    ensures FirstNonzero(ids + [id]) == if FirstNonzero(ids) != 0 then FirstNonzero(ids) else id
  {
    if |ids| == 0 {
      assert ids + [id] == [id];
    } else {
      assert (ids + [id])[1..] == ids[1..] + [id];
      FirstNonzeroSnoc(ids[1..], id);
    }
  }

  /** The reader has looked the stream up and not yet set its remote ID. */
  predicate AboutToEstablish(loop: LoopPc, sid: nat) {
    loop.Establishing? && loop.sid == sid
  }

  /** What the remote ID is, given the IDs the stream has been told. */
  ghost predicate IDRight(x: Mux, sid: nat, opener: U32, ids: seq<U32>) {
    && (AboutToEstablish(x.loop, sid) ==> ids != [] && ids[|ids| - 1] == x.loop.m.arg0)
    && (sid < |x.table| ==>
          x.table[sid].s.remoteID
            == FirstNonzero([opener] + if AboutToEstablish(x.loop, sid) then ids[..|ids| - 1] else ids))
    && (sid >= |x.table| ==> ids == [] && !AboutToEstablish(x.loop, sid))
  }

  lemma LookupEstablishes(x: Mux, step: Step, sid: nat)
    ensures LooksUp(x, step, sid) ==>
      var y := Apply(x, step); y.loop == Establishing(sid, x.loop.m) && y.table == x.table
    ensures AboutToEstablish(Apply(x, step).loop, sid) && !LooksUp(x, step, sid) ==>
      Apply(x, step).loop == x.loop && (step.Loop? ==> Apply(x, step) == x)
  {
    if x.crashed {
    } else if step.Loop? {
      LoopLookupEstablishes(x, step.ok, sid);
    } else {
      OthersKeepPlace(x, step);
    }
    hide LoopStep;
  }

  lemma LoopLookupEstablishes(x: Mux, ok: bool, sid: nat)
    requires !x.crashed
    ensures LooksUp(x, Loop(ok), sid) ==>
      var y := LoopStep(x, ok); y.loop == Establishing(sid, x.loop.m) && y.table == x.table
    ensures AboutToEstablish(LoopStep(x, ok).loop, sid) && !LooksUp(x, Loop(ok), sid) ==> LoopStep(x, ok) == x
  {
    if x.loop.Arrived? {
      DispatchedFrame(x, x.loop.m, ok);
    } else if AboutToEstablish(LoopStep(x, ok).loop, sid) {
      OpensOn(x, ok, sid);
      EstablishMovesOn(x, ok);
      hide LoopStep;
    }
  }

  lemma EstablishMovesOn(x: Mux, ok: bool)
    requires x.loop.Establishing? || x.loop.Opening?
    ensures LoopStep(x, ok).loop.Establishing? ==> LoopStep(x, ok) == x && x.loop.sid >= |x.table|
  {
    hide SetRemote, Opened;
  }

  /** The reader's establish on the stream itself. */
  lemma EstablishSets(x: Mux, ok: bool)
    requires !x.crashed && x.loop.Establishing? && x.loop.sid < |x.table|
    ensures var y, sid := Apply(x, Loop(ok)), x.loop.sid;
            && y.loop == Opening(sid, x.loop.m) && sid < |y.table|
            && y.table[sid].s.remoteID == if x.table[sid].s.remoteID != 0 then x.table[sid].s.remoteID else x.loop.m.arg0
  {
  }

  lemma OtherStepsKeepID(x: Mux, step: Step, sid: nat)
    requires sid < |x.table| && !(step.Loop? && AboutToEstablish(x.loop, sid) && !x.crashed)
    ensures sid < |Apply(x, step).table| && Apply(x, step).table[sid].s.remoteID == x.table[sid].s.remoteID
  {
    StepFrame(x, step, sid);
    hide LoopStep;
  }

  lemma OldIDStep(x: Mux, step: Step, sid: nat, opener: U32, ids: seq<U32>)
    requires IDRight(x, sid, opener, ids) && sid < |x.table|
    ensures IDRight(Apply(x, step), sid, opener, ids + if LooksUp(x, step, sid) then [x.loop.m.arg0] else [])
  {
    hide Apply;
    var y := Apply(x, step);
    LookupEstablishes(x, step, sid);
    if LooksUp(x, step, sid) {
      OtherStepsKeepID(x, step, sid);
      assert (ids + [x.loop.m.arg0])[..|ids|] == ids;
    } else if step.Loop? && AboutToEstablish(x.loop, sid) && !x.crashed {
      EstablishSets(x, step.ok);
      var before, id := ids[..|ids| - 1], ids[|ids| - 1];
      FirstNonzeroSnoc([opener] + before, id);
      assert [opener] + before + [id] == [opener] + ids && ids + [] == ids;
    } else {
      OtherStepsKeepID(x, step, sid);
      CrashedStays(x, step);
      assert ids + [] == ids;
      if !step.Loop? { OthersKeepPlace(x, step); }
    }
    hide FirstNonzero, LooksUp;
  }

  lemma CrashedStays(x: Mux, step: Step)
    ensures x.crashed ==> Apply(x, step) == x
  {
    hide LoopStep;
  }

  lemma NewIDStep(x: Mux, step: Step, sid: nat, opener: U32)
    requires OwnerInv(x) && sid >= |x.table| && !AboutToEstablish(x.loop, sid)
    ensures !LooksUp(x, step, sid)
    ensures IDRight(Apply(x, step), sid,
              if |x.table| != sid then opener else if step.Loop? && x.loop.Accepting? && !x.crashed then x.loop.m.arg0 else 0, [])
  {
    assert !LooksUp(x, step, sid);
    LookupEstablishes(x, step, sid);
    CrashedStays(x, step);
    if |Apply(x, step).table| > |x.table| { NewHasID(x, step); }
    StepCounts(x, step);
    hide Apply, OwnerInv, LooksUp;
    assert forall id :: FirstNonzero([id] + []) == id by { forall id ensures FirstNonzero([id] + []) == id { OneID(id); } }
    hide FirstNonzero;
  }

  lemma OneID(id: U32)
    ensures FirstNonzero([id] + []) == id
  {
    assert [id] + [] == [id] && [id][1..] == [];
  }

  lemma NewHasID(x: Mux, step: Step)
    requires |Apply(x, step).table| > |x.table|
    ensures Apply(x, step).table[|x.table|].s.remoteID
         == if step.Loop? && x.loop.Accepting? && !x.crashed then x.loop.m.arg0 else 0
  {
    if step.Loop? {
      AcceptGivesID(x, step.ok);
    }
    hide LoopStep;
  }

  lemma AcceptGivesID(x: Mux, ok: bool)
    requires |LoopStep(x, ok).table| > |x.table|
    ensures x.loop.Accepting? && LoopStep(x, ok).table[|x.table|].s.remoteID == x.loop.m.arg0
  {
    if x.loop.Establishing? || x.loop.Opening? || x.loop.Delivering? {
      if x.loop.sid < |x.table| { RoutingFrame(x, ok); }
      hide RouteStep;
    } else {
      NotRoutingFrame(x, ok);
      hide LoopStep;
    }
  }

  lemma {:induction false} IDAlwaysRight(input: seq<Byte>, steps: seq<Step>, sid: nat)
    ensures IDRight(Exec(Start(input), steps), sid, OpenerID(input, steps, sid), SenderIDs(input, steps, sid))
  {
    if |steps| > 0 {
      var before, step := steps[..|steps| - 1], steps[|steps| - 1];
      IDAlwaysRight(input, before, sid);
      Always(input, before);
      var x := Exec(Start(input), before);
      hide Apply, IDRight, LooksUp, Inv;
      if sid < |x.table| {
        OldIDStep(x, step, sid, OpenerID(input, before, sid), SenderIDs(input, before, sid));
      } else {
        OwnedAndNew(x, sid, OpenerID(input, before, sid), SenderIDs(input, before, sid));
        NewIDStep(x, step, sid, OpenerID(input, before, sid));
      }
    }
  }

  lemma OwnedAndNew(x: Mux, sid: nat, opener: U32, ids: seq<U32>)
    requires Inv(x) && sid >= |x.table| && IDRight(x, sid, opener, ids)
    ensures OwnerInv(x) && ids == [] && !AboutToEstablish(x.loop, sid)
  {
    hide OwnerInv, LoopInv, InputInv, IdInv, TrackInv, RouteInv;
  }

  /** Main result. In every run, a stream's remote ID is the first nonzero one of: the
      ID in the OPEN it was accepted for, and the sender IDs of the OKAY and WRTE
      messages the reader has looked it up for, once it has got past setting the ID
      for the last of them. */
  lemma RemoteIDIsFirst(input: seq<Byte>, steps: seq<Step>, sid: nat)
    requires sid < |Exec(Start(input), steps).table|
    ensures var x := Exec(Start(input), steps);
            !AboutToEstablish(x.loop, sid) ==>
              x.table[sid].s.remoteID == FirstNonzero([OpenerID(input, steps, sid)] + SenderIDs(input, steps, sid))
  {
    IDAlwaysRight(input, steps, sid);
    hide Exec, FirstNonzero, SenderIDs, OpenerID;
  }

  /** In other words: an accepted stream keeps the ID of its OPEN; a stream a caller
      opened has the first nonzero sender ID, and has one as soon as there is one. */
  lemma RemoteIDInWords(input: seq<Byte>, steps: seq<Step>, sid: nat)
    requires sid < |Exec(Start(input), steps).table| && !AboutToEstablish(Exec(Start(input), steps).loop, sid)
    ensures var id, opener, ids := Exec(Start(input), steps).table[sid].s.remoteID, OpenerID(input, steps, sid), SenderIDs(input, steps, sid);
            && (opener != 0 ==> id == opener)
            && (opener == 0 ==> id == FirstNonzero(ids))
            && ((exists k :: 0 <= k < |ids| && ids[k] != 0) ==> id != 0)
  {
    var opener, ids := OpenerID(input, steps, sid), SenderIDs(input, steps, sid);
    RemoteIDIsFirst(input, steps, sid);
    FirstNonzeroIsFirst(ids);
    assert ([opener] + ids)[1..] == ids;
    hide Exec, SenderIDs, OpenerID;
  }

  // ---- the open result of a closed stream --------------------------------

  /** A stream that is closed, with no close call in progress, has its open result. */
  ghost predicate ClosedSent(x: Mux) {
    forall sid :: 0 <= sid < |x.table| && x.table[sid].s.closed && sid !in x.closing ==> x.table[sid].s.openDone
  }

  /** Only a closer's openOnce ends a close call. */
  lemma ClosingEnds(x: Mux, step: Step, sid: nat)
    requires OwnerInv(x) && sid in x.closing && sid !in Apply(x, step).closing
    ensures step == CloseOpen(sid) && sid < |Apply(x, step).table| && Apply(x, step).table[sid].s.openDone
  {
    if step.Loop? {
      if !x.crashed { LoopKeepsClosing(x, step.ok, sid); }
    }
    hide LoopStep, ReadStep;
  }

  lemma LoopKeepsClosing(x: Mux, ok: bool, sid: nat)
    requires sid in x.closing
    ensures sid in LoopStep(x, ok).closing
  {
    hide ReadNext, Dispatched, AcceptStep, Created, Opened, Delivered;
    match x.loop
    case Reading => ReadNextFrame(x, ok);
    case Arrived(m) => DispatchedFrame(x, m, ok);
    case Accepting(m) => AcceptStepFrame(x, ok); CreatedClosing(x, m.arg0);
    case AcceptAcking(_) => AcceptStepFrame(x, ok);
    case _ =>
  }

  lemma CreatedClosing(x: Mux, remoteID: U32)
    ensures Created(x, remoteID, true).closing == x.closing
  {
  }

  lemma StepKeepsClosedSent(x: Mux, step: Step)
    requires OwnerInv(x) && ClosedSent(x)
    ensures ClosedSent(Apply(x, step))
  {
    var y := Apply(x, step);
    hide Apply;
    forall sid | 0 <= sid < |y.table| && y.table[sid].s.closed && sid !in y.closing ensures y.table[sid].s.openDone {
      if sid >= |x.table| {
        StepCounts(x, step);
        NewIsOpen(x, step);
      } else {
        StepFrame(x, step, sid);
        StepKeepsOpened(x, step, sid);
        if sid in x.closing { ClosingEnds(x, step, sid); }
        if !x.table[sid].s.closed { MarkKeepsClosing(x, sid); }
      }
    }
  }

  lemma NewIsOpen(x: Mux, step: Step)
    requires |Apply(x, step).table| > |x.table|
    ensures !Apply(x, step).table[|x.table|].s.closed
  {
    StepCreates(x, step);
    hide Apply;
  }

  lemma MarkKeepsClosing(x: Mux, sid: nat)
    requires sid in x.closing
    ensures sid in Apply(x, CloseMark(sid)).closing
  {
  }

  lemma {:induction false} AlwaysClosedSent(input: seq<Byte>, steps: seq<Step>)
    ensures ClosedSent(Exec(Start(input), steps))
  {
    if |steps| > 0 {
      AlwaysClosedSent(input, steps[..|steps| - 1]);
      Always(input, steps[..|steps| - 1]);
      var x := Exec(Start(input), steps[..|steps| - 1]);
      assert OwnerInv(x);
      hide Inv, OwnerInv, ClosedSent, Apply;
      StepKeepsClosedSent(x, steps[|steps| - 1]);
    }
  }

  /** The error with which each kind of close answers a waiting Open. */
  function OpenError(cause: Cause): StreamError {
    match cause
    case CallerClosed => ClosedPipe
    case AckRefused => AckFailed
    case PeerClosed => EndOfFile
    case PeerRefused => DeviceClosed
    case Shutdown => DeviceClosed
  }

  /** Main result. A stream that is closed, with no close call in progress, has sent
      exactly one open result: nil when that came first, or late as OpenResultOrder
      says, and otherwise the error of the close. A peer's CLSE on an established
      stream has none to give, for nil was sent before. */
  lemma ClosedHasResult(input: seq<Byte>, steps: seq<Step>, sid: nat)
    requires var x := Exec(Start(input), steps);
             Distinct(x) && sid < |x.table| && x.table[sid].s.closed && sid !in x.closing
    ensures var t := Exec(Start(input), steps).table[sid];
            && t.closer.Some?
            && t.s.openCh == (if OpenedFirst(input, steps, sid) || NilCameLate(input, steps, sid) then [None]
                              else [Some(OpenError(t.closer.value))])
            && (t.closer.value == PeerClosed ==> t.s.openCh == [None])
  {
    AlwaysClosedSent(input, steps);
    Always(input, steps);
    OpenResultOrder(input, steps, sid);
    var x := Exec(Start(input), steps);
    hide Exec, OpenedFirst, NilCameLate;
    ResultOf(x, sid);
    hide Inv, ClosedSent;
  }

  lemma ResultOf(x: Mux, sid: nat)
    requires Inv(x) && ClosedSent(x) && Distinct(x) && sid < |x.table| && x.table[sid].s.closed && sid !in x.closing
    ensures var t := x.table[sid];
            && t.closer.Some?
            && (t.s.openCh == [None] || (t.closer.value != PeerClosed && t.s.openCh == [Some(OpenError(t.closer.value))]))
  {
    assert TrackInv(x.table[sid], true);
    hide Inv, Conserved, EndsLast;
  }

  /** The two steps of a close call, run without interference, leave on the stream what
      closeWithError leaves. */
  lemma CloseStepsAlone(x: Mux, sid: nat)
    requires OwnerInv(x) && !x.crashed && sid in x.closing && !x.closing[sid].marked
    ensures sid < |x.table|
    ensures var y := Apply(Apply(x, CloseMark(sid)), CloseOpen(sid));
            && sid !in y.closing && |y.table| == |x.table|
            && y.table[sid].s == ClosedWith(x.table[sid].s, ErrorOf(x.closing[sid].cause))
            && y == x.(table := x.table[sid := y.table[sid]], closing := x.closing - {sid})
  {
    var z := Apply(x, CloseMark(sid));
    assert sid in z.closing && z.closing[sid].marked;
    assert z.closing - {sid} == x.closing - {sid};
    hide OpenOnce;
  }
}
