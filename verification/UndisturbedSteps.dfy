/** What the multiplexer's steps come to when nothing interferes: the handling of a
    message, a close and a read do what the methods of Stream and Connection do. */
module UndisturbedSteps {
  import opened Bytes
  import opened Framing
  import opened Streams
  import opened Multiplexer
  import opened RemoteIdentity

  /** So many steps of the reader. */
  function Loops(x: Mux, n: nat): Mux {
    if n == 0 then x else Apply(Loops(x, n - 1), Loop(true))
  }

  lemma ThreeLoops(x: Mux)
    ensures Loops(x, 1) == Apply(x, Loop(true))
    ensures Loops(x, 3) == Apply(Apply(Apply(x, Loop(true)), Loop(true)), Loop(true))
  {
    assert Loops(x, 0) == x;
    assert Loops(x, 1) == Apply(x, Loop(true));
    assert Loops(x, 2) == Apply(Apply(x, Loop(true)), Loop(true));
    hide Apply;
  }

  /** The reader has looked at a message for a stream that is in the map. */
  predicate Ready(x: Mux, m: Message) {
    !x.crashed && x.loop == Arrived(m) && m.arg1 in x.streams
  }

  /** An OKAY or a WRTE, with room in the queue, does to its stream what Routed says,
      and nothing to any other. */
  lemma MessageAlone(x: Mux, m: Message)
    requires OwnerInv(x) && Ready(x, m) && m.command in {OKAY, WRTE}
    requires var s := x.table[x.streams[m.arg1]].s; |s.queue| < QUEUE_CAPACITY
    ensures var sid, y := x.streams[m.arg1], Loops(x, if m.command == OKAY then 3 else 5);
            && y.loop == Reading && !y.crashed && y.streams == x.streams && y.closing == x.closing
            && sid < |y.table| && y.table == x.table[sid := y.table[sid]]
            && y.table[sid].s == Routed(x.table[sid].s, m)
            && y.table[sid].accepted == x.table[sid].accepted + if m.command == WRTE then m.payload else []
  {
    var sid := x.streams[m.arg1];
    assert !x.table[sid].s.closed;
    EstablishAlone(x, m);
    hide OwnerInv;
    var x3 := Loops(x, 3);
    if m.command == WRTE {
      DeliverAlone(x3, m, sid);
      hide Apply;
      assert Loops(x, 5) == Apply(Apply(x3, Loop(true)), Loop(true)) by { assert Loops(x, 4) == Apply(x3, Loop(true)); }
      assert x3.table[sid := Delivered(x3.table[sid], m.payload)] == x.table[sid := Delivered(x3.table[sid], m.payload)];
    } else {
      assert x.table[sid].accepted + [] == x.table[sid].accepted;
    }
  }

  lemma EstablishAlone(x: Mux, m: Message)
    requires Ready(x, m) && m.command in {OKAY, WRTE} && x.streams[m.arg1] < |x.table|
    ensures var sid, y := x.streams[m.arg1], Loops(x, 3);
            && |y.table| == |x.table|
            && y == x.(seen := x.seen + [m], loop := y.loop, table := x.table[sid := y.table[sid]])
            && y.loop == (if m.command == WRTE then Acking(sid, m) else Reading)
            && y.table[sid].s == Established(x.table[sid].s, m.arg0)
            && y.table[sid].accepted == x.table[sid].accepted
  {
    var sid := x.streams[m.arg1];
    ThreeLoops(x);
    hide Loops, Apply;
    RouteLookup(x, m);
    EstablishSteps(x.(seen := x.seen + [m], loop := Establishing(sid, m)), sid, m);
  }

  lemma RouteLookup(x: Mux, m: Message)
    requires Ready(x, m) && m.command in {OKAY, WRTE}
    ensures Apply(x, Loop(true)) == x.(seen := x.seen + [m], loop := Establishing(x.streams[m.arg1], m))
  {
  }

  lemma EstablishSteps(x: Mux, sid: nat, m: Message)
    requires !x.crashed && x.loop == Establishing(sid, m) && sid < |x.table|
    ensures var y := Apply(Apply(x, Loop(true)), Loop(true));
            && |y.table| == |x.table|
            && y == x.(loop := if m.command == WRTE then Acking(sid, m) else Reading, table := x.table[sid := y.table[sid]])
            && y.table[sid].s == Established(x.table[sid].s, m.arg0)
            && y.table[sid].accepted == x.table[sid].accepted
  {
    hide SetRemote, OpenOnce;
  }

  lemma DeliverAlone(x: Mux, m: Message, sid: nat)
    requires !x.crashed && x.loop == Acking(sid, m) && sid < |x.table|
    requires !x.table[sid].s.closed && |x.table[sid].s.queue| < QUEUE_CAPACITY
    ensures Apply(Apply(x, Loop(true)), Loop(true)) == Update(x, sid, Delivered(x.table[sid], m.payload)).(loop := Reading)
  {
    hide Delivered;
  }

  /** A CLSE takes its stream out of the map and closes it as Routed says; the reader
      then goes on. */
  lemma CloseMessageAlone(x: Mux, m: Message)
    requires OwnerInv(x) && Ready(x, m) && m.command == CLSE
    ensures var sid := x.streams[m.arg1];
            var y := Loops(Apply(Apply(Loops(x, 3), CloseMark(sid)), CloseOpen(sid)), 1);
            && y.loop == Reading && !y.crashed && y.streams == x.streams - {m.arg1} && sid !in y.closing
            && sid < |y.table| && y.table == x.table[sid := y.table[sid]]
            && y.table[sid].s == Routed(x.table[sid].s, m)
  {
    var sid := x.streams[m.arg1];
    var cause := if x.table[sid].s.remoteID != 0 then PeerClosed else PeerRefused;
    TakeAlone(x, m);
    var x3 := Loops(x, 3);
    var z := Apply(x3, CloseMark(sid));
    assert x3.table[sid].s == x.table[sid].s && !x.table[sid].s.closed;
    hide OwnerInv, Loops;
    MarkAlone(x3, sid);
    AwaitEnds(Apply(z, CloseOpen(sid)), sid);
    hide Apply;
  }

  lemma TakeAlone(x: Mux, m: Message)
    requires OwnerInv(x) && Ready(x, m) && m.command == CLSE
    ensures var sid := x.streams[m.arg1];
            && sid < |x.table|
            && Loops(x, 3) == x.(seen := x.seen + [m], streams := x.streams - {m.arg1}, loop := AwaitClose(sid),
                 closing := x.closing[sid := CloseCall(if x.table[sid].s.remoteID != 0 then PeerClosed else PeerRefused, false)])
  {
    var sid := x.streams[m.arg1];
    assert sid < |x.table| && x.table[sid].s.localID == m.arg1;
    ThreeLoops(x);
    hide OwnerInv, Loops, Apply;
    CloseLookup(x, m);
    var x1 := x.(seen := x.seen + [m], loop := Closing(sid));
    CloseDecides(x1, sid);
    TakeStep(x1, sid, if x.table[sid].s.remoteID != 0 then PeerClosed else PeerRefused);
  }

  lemma CloseLookup(x: Mux, m: Message)
    requires Ready(x, m) && m.command == CLSE
    ensures Apply(x, Loop(true)) == x.(seen := x.seen + [m], loop := Closing(x.streams[m.arg1]))
  {
  }

  lemma CloseDecides(x: Mux, sid: nat)
    requires !x.crashed && x.loop == Closing(sid) && sid < |x.table|
    ensures Apply(x, Loop(true)) == x.(loop := Taking(sid, if x.table[sid].s.remoteID != 0 then PeerClosed else PeerRefused))
  {
  }

  lemma TakeStep(x: Mux, sid: nat, cause: Cause)
    requires !x.crashed && sid < |x.table|
    requires var id := x.table[sid].s.localID; id in x.streams && x.streams[id] == sid
    ensures var id := x.table[sid].s.localID;
            Apply(x.(loop := Taking(sid, cause)), Loop(true))
              == x.(streams := x.streams - {id}, closing := x.closing[sid := CloseCall(cause, false)], loop := AwaitClose(sid))
  {
  }

  lemma MarkAlone(x: Mux, sid: nat)
    requires !x.crashed && sid in x.closing && !x.closing[sid].marked && sid < |x.table| && !x.table[sid].s.closed
    ensures var y := Apply(Apply(x, CloseMark(sid)), CloseOpen(sid));
            && |y.table| == |x.table| && y == x.(table := x.table[sid := y.table[sid]], closing := y.closing)
            && sid !in y.closing
            && y.table[sid].s == ClosedWith(x.table[sid].s, ErrorOf(x.closing[sid].cause))
  {
    hide OpenOnce;
  }

  lemma AwaitEnds(x: Mux, sid: nat)
    requires !x.crashed && x.loop == AwaitClose(sid) && sid !in x.closing
    ensures Loops(x, 1) == x.(loop := Reading)
  {
    assert Loops(x, 0) == x;
  }

  /** Stream.Close on a stream in the map: it leaves the map and is closed with
      io.ErrClosedPipe. On a stream that is not there it does nothing. */
  lemma StreamCloseAlone(x: Mux, sid: nat)
    requires OwnerInv(x) && !x.crashed && sid < |x.table|
    ensures var id := x.table[sid].s.localID;
            if id in x.streams then
              var it := x.streams[id];
              var y := Apply(Apply(Apply(x, CloseStream(sid)), CloseMark(it)), CloseOpen(it));
              && y.streams == x.streams - {id} && it !in y.closing
              && it < |y.table| && y.table == x.table[it := y.table[it]]
              && y.table[it].s == ClosedWith(x.table[it].s, Some(ClosedPipe))
            else Apply(x, CloseStream(sid)) == x
  {
    var id := x.table[sid].s.localID;
    if id in x.streams {
      var it := x.streams[id];
      var z := Apply(x, CloseStream(sid));
      assert it < |x.table| && !x.table[it].s.closed;
      assert z == x.(streams := x.streams - {id}, closing := x.closing[it := CloseCall(CallerClosed, false)]);
      hide OwnerInv;
      MarkAlone(z, it);
      hide Apply;
    }
  }

  /** An OPEN with a handler gives an accepted stream under the next ID, which has the
      peer's ID and its open result nil. */
  lemma OpenAlone(x: Mux, m: Message)
    requires !x.crashed && x.loop == Arrived(m) && m.command == OPEN
    ensures var id, y := Wrap32(x.nextLocalID + 1), Loops(x, 3);
            && y.loop == Reading && y.nextLocalID == id && |y.table| == |x.table| + 1
            && y.table[..|x.table|] == x.table
            && y.streams == x.streams[id := |x.table|]
            && y.table[|x.table|].s == OpenOnce(NewState(id, m.arg0), None)
  {
    ThreeLoops(x);
    hide Loops, Apply;
    OpenLookup(x, m);
    AcceptSteps(x.(seen := x.seen + [m], loop := Accepting(m)), m);
  }

  lemma OpenLookup(x: Mux, m: Message)
    requires !x.crashed && x.loop == Arrived(m) && m.command == OPEN
    ensures Apply(x, Loop(true)) == x.(seen := x.seen + [m], loop := Accepting(m))
  {
  }

  lemma AcceptSteps(x: Mux, m: Message)
    requires !x.crashed && x.loop == Accepting(m)
    ensures var id, y := Wrap32(x.nextLocalID + 1), Apply(Apply(x, Loop(true)), Loop(true));
            && y.loop == Reading && y.nextLocalID == id && |y.table| == |x.table| + 1
            && y.table[..|x.table|] == x.table
            && y.streams == x.streams[id := |x.table|]
            && y.table[|x.table|].s == OpenOnce(NewState(id, m.arg0), None)
  {
    hide OpenOnce, Wrap32;
  }

  /** An OPEN without a handler, and a message for a stream that is not there, change no
      stream. */
  lemma UnhandledAlone(x: Mux, m: Message, ok: bool)
    requires !x.crashed && x.loop == Arrived(m) && (if m.command == OPEN then !ok else m.arg1 !in x.streams)
    ensures Apply(x, Loop(ok)) == x.(seen := x.seen + [m], loop := Reading)
  {
  }

  /** When the acknowledgement of an accepted stream fails, the stream leaves the map and
      is closed with that failure, and the reader goes on. */
  lemma RefusedAckAlone(x: Mux, sid: nat)
    requires OwnerInv(x) && !x.crashed && x.loop == AcceptAcking(sid) && sid < |x.table|
    requires var id := x.table[sid].s.localID; id in x.streams && x.streams[id] == sid
    ensures var y := Loops(Apply(Apply(Loops(Apply(x, Loop(false)), 1), CloseMark(sid)), CloseOpen(sid)), 1);
            && y.loop == Reading && y.streams == x.streams - {x.table[sid].s.localID} && sid !in y.closing
            && sid < |y.table| && y.table == x.table[sid := y.table[sid]]
            && y.table[sid].s == ClosedWith(x.table[sid].s, Some(AckFailed))
  {
    assert !x.table[sid].s.closed;
    AckFails(x, sid);
    TakeStep(x, sid, AckRefused);
    var z := x.(loop := Taking(sid, AckRefused));
    ThreeLoops(z);
    hide OwnerInv, Loops;
    var y := Apply(z, Loop(true));
    MarkAlone(y, sid);
    AwaitEnds(Apply(Apply(y, CloseMark(sid)), CloseOpen(sid)), sid);
    hide Apply;
  }

  lemma AckFails(x: Mux, sid: nat)
    requires !x.crashed && x.loop == AcceptAcking(sid)
    ensures Apply(x, Loop(false)) == x.(loop := Taking(sid, AckRefused))
  {
  }

  /** When the reader fails, and when the connection is closed, every stream in the map is
      taken out to be closed as shut down; a failed reader then stops. */
  lemma ShutdownAlone(x: Mux)
    requires !x.crashed
    ensures var y := Apply(x, CloseConnection);
            && y == x.(streams := map[], closing := y.closing)
            && (forall id :: id in x.streams ==> x.streams[id] in y.closing && y.closing[x.streams[id]] == CloseCall(Shutdown, false))
            && (forall sid :: sid in x.closing && sid !in x.streams.Values ==> sid in y.closing && y.closing[sid] == x.closing[sid])
    ensures x.loop == Reading ==>
      Apply(Apply(x, Loop(false)), Loop(true)) == Apply(x, CloseConnection).(loop := Stopped)
  {
    forall id | id in x.streams ensures x.streams[id] in x.streams.Values {}
  }

  /** A stream that a caller opens gets the next ID and waits for its open result; when its
      OPEN cannot be sent it leaves the map again. */
  lemma NewStreamAlone(x: Mux)
    requires !x.crashed
    ensures var id, y := Wrap32(x.nextLocalID + 1), Apply(x, NewStream);
            && y.nextLocalID == id && |y.table| == |x.table| + 1 && y.table[..|x.table|] == x.table
            && y.streams == x.streams[id := |x.table|] && y.table[|x.table|].s == NewState(id, 0)
            && Apply(y, Abandon(|x.table|)) == y.(streams := x.streams - {id})
  {
    hide Wrap32;
  }

  // ---- reading -----------------------------------------------------------

  /** So many steps of one Read. */
  function Reads(t: Track, n: nat): Track {
    if n == 0 then t else ReadStep(Reads(t, n - 1))
  }

  lemma {:induction false} ReadsFront(t: Track, n: nat)
    ensures Reads(t, n + 1) == Reads(ReadStep(t), n)
  {
    if n > 0 { ReadsFront(t, n - 1); }
    hide ReadStep;
  }

  /** How a Read that is alone ends: as the method Stream.Read does, with data from the
      front of what is unread, with the end of a closed stream, or waiting. */
  ghost predicate ReadEnds(t: Track, u: Track, max: nat) {
    if Unread(t.s) != [] then
      && u.pc == Idle && |u.results| == |t.results| + 1 && u.results[..|t.results|] == t.results
      && u.results[|t.results|].Data?
      && var bytes := u.results[|t.results|].bytes;
         && bytes + Unread(u.s) == Unread(t.s)
         && (|bytes| == max || (bytes != [] && |bytes| < max && u.s.buf == []))
    else if t.s.closed then
      u.pc == Idle && u.results == t.results + [End(Ending(t.s.err))] && Unread(u.s) == []
    else
      u.pc == Waiting(max) && u.results == t.results && Unread(u.s) == [] && u.s.queue == []
  }

  lemma {:induction false} ReadsAdd(t: Track, k: nat, n: nat)
    ensures Reads(t, k + n) == Reads(Reads(t, k), n)
  {
    if n > 0 { ReadsAdd(t, k, n - 1); }
    hide ReadStep;
  }

  lemma {:induction false} ReadAlone(t: Track, max: nat) returns (n: nat)
    requires t.pc == Checking(max)
    ensures ReadEnds(t, Reads(t, n), max)
    decreases |t.s.queue|
  {
    FewReads(t);
    if t.s.buf != [] {
      n := 1;
      CopyEnds(t, max);
    } else if t.s.queue == [] {
      n := if t.s.closed then 2 else 1;
      NothingLeft(t, max);
    } else {
      var u := Reads(t, 3);
      ChunkMoves(t, max);
      var more := ReadAlone(u, max);
      n := 3 + more;
      ReadsAdd(t, 3, more);
    }
    hide ReadStep, Reads, Unread;
  }

  lemma FewReads(t: Track)
    ensures Reads(t, 1) == ReadStep(t) && Reads(t, 2) == ReadStep(ReadStep(t)) && Reads(t, 3) == ReadStep(ReadStep(ReadStep(t)))
  {
    assert Reads(t, 0) == t;
    assert Reads(t, 1) == ReadStep(t);
    assert Reads(t, 2) == ReadStep(ReadStep(t));
    hide ReadStep;
  }

  lemma CopyEnds(t: Track, max: nat)
    requires t.pc == Checking(max) && t.s.buf != []
    ensures ReadEnds(t, ReadStep(t), max)
  {
    var n := Minimum(max, |t.s.buf|);
    assert t.s.buf[..n] + (t.s.buf[n..] + Flat(t.s.queue)) == t.s.buf + Flat(t.s.queue);
    hide Flat;
  }

  lemma NothingLeft(t: Track, max: nat)
    requires t.pc == Checking(max) && t.s.buf == [] && t.s.queue == []
    ensures ReadEnds(t, if t.s.closed then ReadStep(ReadStep(t)) else ReadStep(t), max)
  {
  }

  /** Three steps move the oldest chunk into the buffer, on an open stream and on a
      closed one. */
  lemma ChunkMoves(t: Track, max: nat)
    requires t.pc == Checking(max) && t.s.buf == [] && t.s.queue != []
    ensures var u := ReadStep(ReadStep(ReadStep(t)));
            && u == t.(s := t.s.(buf := t.s.queue[0], queue := t.s.queue[1..])) && |u.s.queue| < |t.s.queue|
            && Unread(u.s) == Unread(t.s)
  {
    assert [] + t.s.queue[0] == t.s.queue[0];
    assert [] + Flat(t.s.queue) == Flat(t.s.queue);
  }
}
