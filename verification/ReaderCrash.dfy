/** The one way the multiplexer can fail: Stream.receive sends on dataCh without
    holding the stream's lock, so a close between the lookup of a WRTE message
    and its delivery makes the reader send on a closed channel. */
module ReaderCrash {
  import opened Bytes
  import opened Framing
  import opened Streams
  import opened Multiplexer

  /** Steps in which someone other than the reader closes streams. */
  predicate ClosesFromOutside(step: Step) {
    step.CloseStream? || step.CloseConnection?
  }

  /** Without such steps, a close begins outside the peer's own CLSE only when
      the reader has failed, and then the reader has stopped. */
  ghost predicate QuietInv(x: Mux) {
    && !x.crashed
    && (x.loop != Stopped ==>
          && (forall sid :: sid in x.closing ==> !External(x.closing[sid].cause))
          && (forall sid :: 0 <= sid < |x.table| && x.table[sid].closer.Some? ==> !External(x.table[sid].closer.value)))
  }

  lemma LoopDoesNotCrash(x: Mux, ok: bool)
    requires Inv(x) && QuietInv(x)
    ensures !LoopStep(x, ok).crashed
  {
    if x.loop.Delivering? {
      assert TrackInv(x.table[x.loop.sid], Distinct(x)) && Routing(x.loop, x.loop.sid);
    }
    LoopCrashes(x, ok);
    hide OwnerInv, InputInv, IdInv, RemoteInv, RouteInv, Conserved, EndsLast, OpenedRight, LoopStep;
  }

  lemma QuietClosers(x: Mux, ok: bool, sid: nat)
    requires QuietInv(x) && x.loop != Stopped && !x.crashed && sid < |LoopStep(x, ok).table|
    ensures LoopStep(x, ok).table[sid].closer.Some? ==> !External(LoopStep(x, ok).table[sid].closer.value)
  {
    if sid < |x.table| {
      LoopFrame(x, ok, sid);
    } else {
      StepCounts(x, Loop(ok));
      StepCreates(x, Loop(ok));
    }
    hide LoopStep;
  }

  lemma StoppedStays(x: Mux, ok: bool)
    ensures x.loop == Stopped ==> LoopStep(x, ok).loop == Stopped
  {
  }

  lemma LoopStaysQuiet(x: Mux, ok: bool)
    requires Inv(x) && QuietInv(x)
    ensures QuietInv(LoopStep(x, ok))
  {
    var y := LoopStep(x, ok);
    LoopDoesNotCrash(x, ok);
    StoppedStays(x, ok);
    if y.loop != Stopped {
      QuietClosings(x, ok);
      forall sid | 0 <= sid < |y.table| && y.table[sid].closer.Some? ensures !External(y.table[sid].closer.value) {
        QuietClosers(x, ok, sid);
      }
    }
    hide LoopStep, Inv;
  }

  lemma QuietClosings(x: Mux, ok: bool)
    requires PlaceInv(x) && QuietInv(x) && x.loop != Stopped && LoopStep(x, ok).loop != Stopped
    ensures forall sid :: sid in LoopStep(x, ok).closing ==> !External(LoopStep(x, ok).closing[sid].cause)
  {
    hide ReadNext, Dispatched, AcceptStep, AllTaken, Created;
    match x.loop
    case Reading => ReadNextFrame(x, ok);
    case Arrived(m) => DispatchedFrame(x, m, ok);
    case Accepting(m) => AcceptStepFrame(x, ok); CreatedClosings(x, m.arg0);
    case AcceptAcking(_) => AcceptStepFrame(x, ok);
    case _ =>
  }

  lemma CreatedClosings(x: Mux, remoteID: U32)
    ensures Created(x, remoteID, true).closing == x.closing
  {
  }

  lemma OthersStayQuiet(x: Mux, step: Step)
    requires QuietInv(x) && !step.Loop? && !ClosesFromOutside(step)
    ensures QuietInv(Apply(x, step))
  {
    var y := Apply(x, step);
    OthersKeepPlace(x, step);
    if y.loop != Stopped {
      forall sid | sid in y.closing ensures !External(y.closing[sid].cause) {
        hide ReadStep, Created;
        if step.NewStream? { CreatedKeepsClosing(x); }
      }
      forall sid | 0 <= sid < |y.table| && y.table[sid].closer.Some? ensures !External(y.table[sid].closer.value) {
        if sid < |x.table| { StepFrame(x, step, sid); } else { StepCreates(x, step); }
        hide Apply;
      }
    }
    hide Apply;
  }

  lemma CreatedKeepsClosing(x: Mux)
    ensures Created(x, 0, false).closing == x.closing
  {
  }

  /** Main result: as long as nobody calls Stream.Close or Connection.Close, the
      reader never crashes, whatever the peer sends and however steps interleave. */
  lemma {:induction false} NoCrashWithoutOutsideClose(input: seq<Byte>, steps: seq<Step>)
    requires forall i :: 0 <= i < |steps| ==> !ClosesFromOutside(steps[i])
    ensures !Exec(Start(input), steps).crashed && QuietInv(Exec(Start(input), steps))
  {
    if |steps| > 0 {
      var before := Exec(Start(input), steps[..|steps| - 1]);
      NoCrashWithoutOutsideClose(input, steps[..|steps| - 1]);
      Always(input, steps[..|steps| - 1]);
      hide Inv, QuietInv;
      var last := steps[|steps| - 1];
      if last.Loop? {
        NotCrashed(before);
        LoopStaysQuiet(before, last.ok);
        hide LoopStep;
      } else {
        OthersStayQuiet(before, last);
        hide Apply;
      }
    }
    NotCrashed(Exec(Start(input), steps));
  }

  lemma NotCrashed(x: Mux)
    requires QuietInv(x)
    ensures !x.crashed
  {
  }

  lemma {:induction false} ExecAppend(x: Mux, a: seq<Step>, b: seq<Step>)
    ensures Exec(x, a + b) == Exec(Exec(x, a), b)
    decreases |b|
  {
    hide Apply;
    if |b| == 0 {
      assert a + b == a;
    } else {
      var last := |b| - 1;
      ExecAppend(x, a, b[..last]);
      assert (a + b)[..|a + b| - 1] == a + b[..last];
    }
  }

  lemma ExecOne(x: Mux, step: Step)
    ensures Exec(x, [step]) == Apply(x, step)
  {
    hide Apply;
    assert [step][..0] == [];
    assert Exec(x, []) == x;
  }

  /** The reader has looked the stream up and is about to handle the message. */
  lemma LookedUp(m: Message)
    requires m.command == WRTE && m.arg1 == 1 && Framable(m)
    ensures var x := Exec(Start(Encode(m)), [NewStream] + [Loop(true)] + [Loop(true)]);
            && !x.crashed && |x.table| == 1 && x.loop == Establishing(0, m) && x.closing == map[]
            && x.streams == map[1 := 0] && x.table[0].s.localID == 1
  {
    hide Decode, Encode, Exec, Apply;
    var start := Start(Encode(m));
    DecodeOfEncode(m, []);
    assert Encode(m) + [] == Encode(m);
    ExecAppend(start, [NewStream] + [Loop(true)], [Loop(true)]);
    ExecAppend(start, [NewStream], [Loop(true)]);
    ExecOne(start, NewStream);
    ExecOne(Exec(start, [NewStream]), Loop(true));
    ExecOne(Exec(start, [NewStream] + [Loop(true)]), Loop(true));
    FirstStream(Encode(m));
    var x1 := Apply(start, NewStream);
    ReadsIt(x1, m);
    LooksItUp(Apply(x1, Loop(true)), m);
  }

  lemma FirstStream(input: seq<Byte>)
    ensures var x := Apply(Start(input), NewStream);
            && !x.crashed && |x.table| == 1 && x.loop == Reading && x.closing == map[] && x.rest == input
            && x.streams == map[1 := 0] && x.table[0].s.localID == 1
  {
  }

  lemma ReadsIt(x: Mux, m: Message)
    requires !x.crashed && x.loop == Reading && Decode(x.rest) == Accepted(m, [])
    ensures Apply(x, Loop(true)) == x.(rest := [], loop := Arrived(m))
  {
    hide Decode;
  }

  lemma LooksItUp(x: Mux, m: Message)
    requires !x.crashed && x.loop == Arrived(m) && m.command in {OKAY, WRTE} && m.arg1 in x.streams
    ensures Apply(x, Loop(true)) == x.(seen := x.seen + [m], loop := Establishing(x.streams[m.arg1], m))
  {
  }

  lemma ClosedMeanwhile(x: Mux, m: Message)
    requires !x.crashed && |x.table| == 1 && x.loop == Establishing(0, m) && x.closing == map[]
    requires x.streams == map[1 := 0] && x.table[0].s.localID == 1
    ensures var y := Exec(x, [CloseStream(0)] + [CloseMark(0)]);
            !y.crashed && |y.table| == 1 && y.loop == Establishing(0, m) && y.table[0].s.closed
  {
    hide Exec;
    ExecAppend(x, [CloseStream(0)], [CloseMark(0)]);
    ExecOne(x, CloseStream(0));
    ExecOne(Exec(x, [CloseStream(0)]), CloseMark(0));
  }

  lemma ThenDelivered(x: Mux, m: Message)
    requires !x.crashed && |x.table| == 1 && x.loop == Establishing(0, m) && m.command == WRTE && x.table[0].s.closed
    ensures Exec(x, [Loop(true)] + [Loop(true)] + [Loop(true)] + [Loop(true)]).crashed
  {
    hide Exec;
    ExecAppend(x, [Loop(true)] + [Loop(true)] + [Loop(true)], [Loop(true)]);
    ExecAppend(x, [Loop(true)] + [Loop(true)], [Loop(true)]);
    ExecAppend(x, [Loop(true)], [Loop(true)]);
    ExecOne(x, Loop(true));
    ExecOne(Exec(x, [Loop(true)]), Loop(true));
    ExecOne(Exec(x, [Loop(true)] + [Loop(true)]), Loop(true));
    ExecOne(Exec(x, [Loop(true)] + [Loop(true)] + [Loop(true)]), Loop(true));
  }

  /** The crash is real: one WRTE message, and one Close between its lookup and
      its delivery. */
  lemma CrashIsReachable(m: Message)
    requires m.command == WRTE && m.arg1 == 1 && Framable(m)
    ensures exists steps :: Exec(Start(Encode(m)), steps).crashed
  {
    var start := Start(Encode(m));
    var a := [NewStream] + [Loop(true)] + [Loop(true)];
    var b := [CloseStream(0)] + [CloseMark(0)];
    var c := [Loop(true)] + [Loop(true)] + [Loop(true)] + [Loop(true)];
    LookedUp(m);
    ClosedMeanwhile(Exec(start, a), m);
    ThenDelivered(Exec(Exec(start, a), b), m);
    ExecAppend(start, a, b);
    ExecAppend(start, a + b, c);
    hide Exec, Start;
    assert Exec(start, a + b + c).crashed;
  }
}
