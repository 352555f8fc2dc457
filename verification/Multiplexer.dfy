/** The stream multiplexer of protocol/stream.go as a transition system: one
    reader goroutine and any number of goroutines that open, read and close
    streams. A step is one critical section, one channel operation, or one
    transport read. Every list of steps is a run, because a step that is not
    enabled changes nothing. */
module Multiplexer {
  import opened Bytes
  import opened Framing
  import opened Streams

  /** Who ran the closing of a stream. */
  datatype Cause = PeerClosed | PeerRefused | CallerClosed | Shutdown | AckRefused

  /** The error each of them passes to closeWithError. */
  function ErrorOf(cause: Cause): Option<StreamError> {
    match cause
    case PeerClosed => None
    case PeerRefused => Some(DeviceClosed)
    case CallerClosed => Some(ClosedPipe)
    case Shutdown => Some(DeviceClosed)
    case AckRefused => Some(AckFailed)
  }

  predicate External(cause: Cause) {
    cause == CallerClosed || cause == Shutdown
  }

  /** Where the one goroutine reading a stream stands inside Read. */
  datatype ReadPc =
    | Idle
    | Checking(max: nat)
    | Draining(max: nat, err: Option<StreamError>)
    | Waiting(max: nat)
    | Holding(max: nat, chunk: seq<Byte>)

  datatype OpenedBy = Nobody | ByEstablish | ByClose

  /** A stream and its history. */
  datatype Track = Track(
    s: StreamState,
    birth: nat,                      // messages dispatched before it existed
    pc: ReadPc,
    accepted: seq<Byte>,             // every byte put on dataCh
    results: seq<ReadResult>,        // every result of Read
    closeCalls: nat,                 // calls of closeWithError
    closer: Option<Cause>,           // the call that closed it
    openedBy: OpenedBy)              // who sent on openCh

  /** The reader goroutine, between two of its atomic actions. */
  datatype LoopPc =
    | Reading
    | Arrived(m: Message)
    | Establishing(sid: nat, m: Message)
    | Opening(sid: nat, m: Message)
    | Acking(sid: nat, m: Message)
    | Delivering(sid: nat, m: Message)
    | Closing(sid: nat)
    | Taking(sid: nat, cause: Cause)
    | AwaitClose(sid: nat)
    | Accepting(m: Message)
    | AcceptAcking(sid: nat)
    | Failing
    | Stopped

  /** A closeWithError call in progress: before and after its critical section. */
  datatype CloseCall = CloseCall(cause: Cause, marked: bool)

  datatype Mux = Mux(
    input: seq<Byte>,                // every byte the peer will ever send
    rest: seq<Byte>,                 // those not yet read
    seen: seq<Message>,              // messages looked up so far
    table: seq<Track>,               // every stream ever created
    streams: map<U32, nat>,          // c.streams, as indexes into table
    nextLocalID: U32,
    closing: map<nat, CloseCall>,    // streams taken out of the map to be closed
    loop: LoopPc,
    crashed: bool)                   // the reader sent on a closed channel

  datatype Step =
    | Loop(ok: bool)                 // the reader; ok: its read, write or handler lookup succeeds
    | NewStream                      // OpenContext creates a stream
    | Abandon(sid: nat)              // OpenContext drops it after a failed OPEN
    | CloseStream(sid: nat)          // Stream.Close reaches closeStream
    | CloseConnection                // Connection.Close
    | CloseMark(sid: nat)            // closeWithError's critical section
    | CloseOpen(sid: nat)            // closeWithError's openOnce
    | BeginRead(sid: nat, max: nat)
    | ReadOn(sid: nat)

  function Start(input: seq<Byte>): Mux {
    Mux(input, input, [], [], map[], 0, map[], Reading, false)
  }

  function NewTrack(s: StreamState, birth: nat, who: OpenedBy): Track {
    Track(s, birth, Idle, [], [], 0, None, who)
  }

  function Opened(t: Track, result: Option<StreamError>, who: OpenedBy): Track {
    t.(s := OpenOnce(t.s, result), openedBy := if t.s.openDone then t.openedBy else who)
  }

  function Marked(t: Track, cause: Cause): Track {
    t.(s := MarkClosed(t.s, ErrorOf(cause)), closeCalls := t.closeCalls + 1,
       closer := if t.s.closed then t.closer else Some(cause))
  }

  function Delivered(t: Track, chunk: seq<Byte>): Track {
    t.(s := Enqueued(t.s, chunk), accepted := t.accepted + chunk)
  }

  function Minimum(a: nat, b: nat): nat {
    if a < b then a else b
  }

  /** Returns the front of the buffer to the caller. */
  function CopyOut(t: Track, max: nat): Track {
    var n := Minimum(max, |t.s.buf|);
    t.(s := t.s.(buf := t.s.buf[n..]), results := t.results + [Data(t.s.buf[..n])], pc := Idle)
  }

  /** Receives the oldest chunk from dataCh. */
  function TakeChunk(t: Track, max: nat): Track
    requires t.s.queue != []
  {
    t.(s := t.s.(queue := t.s.queue[1..]), pc := Holding(max, t.s.queue[0]))
  }

  function AppendChunk(t: Track, max: nat, chunk: seq<Byte>): Track {
    t.(s := t.s.(buf := t.s.buf + chunk), pc := Checking(max))
  }

  function ReportEnd(t: Track, err: Option<StreamError>): Track {
    t.(results := t.results + [End(Ending(err))], pc := Idle)
  }

  /** One critical section or channel operation of Read. */
  function ReadStep(t: Track): Track {
    match t.pc
    case Idle => t
    case Checking(max) =>
      if t.s.buf != [] then CopyOut(t, max)
      else if t.s.closed then t.(pc := Draining(max, t.s.err))
      else t.(pc := Waiting(max))
    case Draining(max, err) =>
      if t.s.queue != [] then TakeChunk(t, max) else ReportEnd(t, err)
    case Waiting(max) =>
      if t.s.queue != [] then TakeChunk(t, max)
      else if t.s.closed then t.(pc := Checking(max))
      else t
    case Holding(max, chunk) => AppendChunk(t, max, chunk)
  }

  function Update(x: Mux, sid: nat, t: Track): Mux
    requires sid < |x.table|
  {
    x.(table := x.table[sid := t])
  }

  /** newStreamLocked, with the counter wrapping at 32 bits. */
  function Created(x: Mux, remoteID: U32, accepted: bool): Mux {
    var id := Wrap32(x.nextLocalID + 1);
    var s := NewState(id, remoteID);
    var t := if accepted then NewTrack(OpenOnce(s, None), |x.seen|, ByEstablish) else NewTrack(s, |x.seen|, Nobody);
    x.(nextLocalID := id, table := x.table + [t], streams := x.streams[id := |x.table|])
  }

  /** The critical section of closeStream. */
  function Taken(x: Mux, id: U32, cause: Cause): Mux {
    if id !in x.streams then x
    else x.(streams := x.streams - {id}, closing := x.closing[x.streams[id] := CloseCall(cause, false)])
  }

  /** The critical section of closeAllStreams. */
  function AllTaken(x: Mux, cause: Cause): Mux {
    x.(streams := map[], closing := x.closing + map sid | sid in x.streams.Values :: CloseCall(cause, false))
  }

  function Dispatched(x: Mux, m: Message, handled: bool): Mux {
    var y := x.(seen := x.seen + [m]);
    if m.command == OPEN then y.(loop := if handled then Accepting(m) else Reading)
    else if m.arg1 !in x.streams then y.(loop := Reading)
    else if m.command == OKAY || m.command == WRTE then y.(loop := Establishing(x.streams[m.arg1], m))
    else if m.command == CLSE then y.(loop := Closing(x.streams[m.arg1]))
    else y.(loop := Reading)
  }

  /** ReadMessage: the next message of the input, or the end of the reader. */
  function ReadNext(x: Mux, ok: bool): Mux {
    if !ok then x.(loop := Failing)
    else match Decode(x.rest)
      case Accepted(m, rest) => x.(rest := rest, loop := Arrived(m))
      case Rejected(_, _) => x.(loop := Failing)
  }

  /** The stages of an OKAY or WRTE message: establish, acknowledge, deliver. */
  function RouteStep(x: Mux): Mux {
    match x.loop
    case Establishing(sid, m) =>
      if sid >= |x.table| then x
      else Update(x, sid, x.table[sid].(s := SetRemote(x.table[sid].s, m.arg0))).(loop := Opening(sid, m))
    case Opening(sid, m) =>
      if sid >= |x.table| then x
      else Update(x, sid, Opened(x.table[sid], None, ByEstablish)).(loop := if m.command == WRTE then Acking(sid, m) else Reading)
    case Acking(sid, m) => x.(loop := Delivering(sid, m))
    case Delivering(sid, m) =>
      if sid >= |x.table| then x
      else if x.table[sid].s.closed then x.(crashed := true)
      else if |x.table[sid].s.queue| >= QUEUE_CAPACITY then x
      else Update(x, sid, Delivered(x.table[sid], m.payload)).(loop := Reading)
    case _ => x
  }

  /** The stages of a CLSE message: look at the remote ID, take, close. */
  function CloseStep(x: Mux): Mux {
    match x.loop
    case Closing(sid) =>
      if sid >= |x.table| then x
      else x.(loop := Taking(sid, if x.table[sid].s.remoteID != 0 then PeerClosed else PeerRefused))
    case Taking(sid, cause) =>
      if sid >= |x.table| then x
      else
        var id := x.table[sid].s.localID;
        Taken(x, id, cause).(loop := if id in x.streams then AwaitClose(x.streams[id]) else Reading)
    case AwaitClose(sid) => if sid in x.closing then x else x.(loop := Reading)
    case _ => x
  }

  /** The stages of an OPEN message that has a handler: accept, acknowledge. */
  function AcceptStep(x: Mux, ok: bool): Mux {
    match x.loop
    case Accepting(m) => Created(x, m.arg0, true).(loop := AcceptAcking(|x.table|))
    case AcceptAcking(sid) => x.(loop := if ok then Reading else Taking(sid, AckRefused))
    case _ => x
  }

  function LoopStep(x: Mux, ok: bool): Mux {
    match x.loop
    case Reading => ReadNext(x, ok)
    case Arrived(m) => Dispatched(x, m, ok)
    case Establishing(_, _) => RouteStep(x)
    case Opening(_, _) => RouteStep(x)
    case Acking(_, _) => RouteStep(x)
    case Delivering(_, _) => RouteStep(x)
    case Closing(_) => CloseStep(x)
    case Taking(_, _) => CloseStep(x)
    case AwaitClose(_) => CloseStep(x)
    case Accepting(_) => AcceptStep(x, ok)
    case AcceptAcking(_) => AcceptStep(x, ok)
    case Failing => AllTaken(x, Shutdown).(loop := Stopped)
    case Stopped => x
  }

  function Apply(x: Mux, step: Step): Mux {
    if x.crashed then x
    else match step
      case Loop(ok) => LoopStep(x, ok)
      case NewStream => Created(x, 0, false)
      case Abandon(sid) => if sid < |x.table| then x.(streams := x.streams - {x.table[sid].s.localID}) else x
      case CloseStream(sid) => if sid < |x.table| then Taken(x, x.table[sid].s.localID, CallerClosed) else x
      case CloseConnection => AllTaken(x, Shutdown)
      case CloseMark(sid) =>
        if sid in x.closing && sid < |x.table| && !x.closing[sid].marked then
          Update(x, sid, Marked(x.table[sid], x.closing[sid].cause)).(closing := x.closing[sid := CloseCall(x.closing[sid].cause, true)])
        else x
      case CloseOpen(sid) =>
        if sid in x.closing && sid < |x.table| && x.closing[sid].marked then
          Update(x, sid, Opened(x.table[sid], ErrorOf(x.closing[sid].cause), ByClose)).(closing := x.closing - {sid})
        else x
      case BeginRead(sid, max) =>
        if sid < |x.table| && x.table[sid].pc == Idle then Update(x, sid, x.table[sid].(pc := Checking(max))) else x
      case ReadOn(sid) => if sid < |x.table| then Update(x, sid, ReadStep(x.table[sid])) else x
  }

  function Exec(x: Mux, steps: seq<Step>): Mux {
    if |steps| == 0 then x else Apply(Exec(x, steps[..|steps| - 1]), steps[|steps| - 1])
  }

  function Returned(results: seq<ReadResult>): seq<Byte> {
    if |results| == 0 then []
    else Returned(results[..|results| - 1])
         + match results[|results| - 1] { case Data(bytes) => bytes case End(_) => [] }
  }

  function Held(pc: ReadPc): seq<Byte> {
    if pc.Holding? then pc.chunk else []
  }

  function PayloadTo(m: Message, id: U32): seq<Byte> {
    if m.command == WRTE && m.arg1 == id then m.payload else []
  }

  /** What a list of peer messages, from index `from` on, sends to local ID id. */
  function SentTo(ms: seq<Message>, from: nat, id: U32): seq<Byte> {
    if |ms| <= from then [] else SentTo(ms[..|ms| - 1], from, id) + PayloadTo(ms[|ms| - 1], id)
  }

  /** The payload the reader has looked a stream up for but not yet delivered. */
  function InFlight(loop: LoopPc, sid: nat): seq<Byte> {
    if (loop.Establishing? || loop.Opening? || loop.Acking? || loop.Delivering?) && loop.sid == sid && loop.m.command == WRTE
    then loop.m.payload else []
  }

  predicate Routing(loop: LoopPc, sid: nat) {
    (loop.Establishing? || loop.Opening? || loop.Acking? || loop.Delivering?) && loop.sid == sid
  }

  function Undispatched(loop: LoopPc): seq<Message> {
    if loop.Arrived? then [loop.m] else []
  }

  // ---- the invariant -----------------------------------------------------

  /** Bytes are conserved: returned, buffered, in the reader's hand, queued. */
  ghost predicate Conserved(t: Track) {
    Returned(t.results) + (t.s.buf + (Held(t.pc) + Flat(t.s.queue))) == t.accepted
  }

  /** A result that ends the stream leaves nothing unread and is final. */
  ghost predicate EndsLast(t: Track) {
    && (forall i :: 0 <= i < |t.results| && t.results[i].End? ==>
          && t.s.closed && t.results[i].error == Ending(t.s.err)
          && t.s.buf == [] && t.s.queue == [] && Held(t.pc) == [])
    && (forall i, j :: 0 <= i < j < |t.results| && t.results[i].End? ==> t.results[j].End?)
  }

  ghost predicate ClosedRight(t: Track, distinct: bool) {
    && t.closeCalls == (if t.s.closed then 1 else 0)
    && (t.s.closed <==> t.closer.Some?)
    && t.s.err == (if t.s.closed then ErrorOf(t.closer.value) else None)
    && (t.pc.Draining? ==> t.s.closed && t.pc.err == t.s.err)
    && (distinct && t.closer == Some(PeerClosed) ==> t.s.remoteID != 0)
  }

  ghost predicate OpenedRight(t: Track, distinct: bool) {
    && (t.s.openDone <==> t.openedBy != Nobody)
    && (t.openedBy == Nobody ==> t.s.openCh == [])
    && (t.openedBy == ByEstablish ==> t.s.openCh == [None])
    && (t.openedBy == ByClose ==>
          t.closer.Some? && (distinct ==> t.closer.value != PeerClosed) && t.s.openCh == [ErrorOf(t.closer.value)])
  }

  /** Fewer than 2^32 streams were created, so no local ID was handed out twice.
      Only the facts about which error a close leaves depend on it. */
  predicate Distinct(x: Mux) {
    |x.table| < TWO32
  }

  ghost predicate TrackInv(t: Track, distinct: bool) {
    && |t.s.queue| <= QUEUE_CAPACITY
    && (t.pc.Draining? || t.pc.Waiting? || t.pc.Holding? ==> t.s.buf == [])
    && Conserved(t) && EndsLast(t) && ClosedRight(t, distinct) && OpenedRight(t, distinct)
  }

  /** What a stream accepted is what the peer sent to its ID since it was
      created: all of it while the stream is in the map, a prefix afterwards. */
  ghost predicate RouteInv(x: Mux, sid: nat)
    requires sid < |x.table|
  {
    var t := x.table[sid];
    var sent := SentTo(x.seen, t.birth, t.s.localID);
    && t.birth <= |x.seen|
    && t.accepted + InFlight(x.loop, sid) <= sent
    && (t.s.localID in x.streams && x.streams[t.s.localID] == sid ==> t.accepted + InFlight(x.loop, sid) == sent)
  }

  /** The part of the invariant about who may close a stream. */
  ghost predicate OwnerInv(x: Mux) {
    && (forall id :: id in x.streams ==>
          && x.streams[id] < |x.table| && x.table[x.streams[id]].s.localID == id
          && !x.table[x.streams[id]].s.closed && x.streams[id] !in x.closing)
    && (forall sid :: sid in x.closing ==>
          && sid < |x.table| && x.table[sid].s.closed == x.closing[sid].marked
          && (x.closing[sid].marked ==> x.table[sid].closer == Some(x.closing[sid].cause))
          && (Distinct(x) && x.closing[sid].cause == PeerClosed ==> x.table[sid].s.remoteID != 0 && x.table[sid].s.openDone))
  }

  /** The reader's place names an existing stream and a message meant for it. */
  ghost predicate PlaceInv(x: Mux) {
    && (x.loop.Establishing? || x.loop.Opening? || x.loop.Acking? || x.loop.Delivering? ==>
          x.loop.sid < |x.table| && x.loop.m.arg1 == x.table[x.loop.sid].s.localID && x.loop.m.command in {OKAY, WRTE})
    && (x.loop.Acking? || x.loop.Delivering? ==> x.loop.m.command == WRTE)
    && (x.loop.Closing? || x.loop.Taking? || x.loop.AwaitClose? || x.loop.AcceptAcking? ==> x.loop.sid < |x.table|)
    && (Distinct(x) && x.loop.Taking? && x.loop.cause == PeerClosed ==>
          x.table[x.loop.sid].s.remoteID != 0 && x.table[x.loop.sid].s.openDone)
    && (x.loop.Taking? ==> !External(x.loop.cause))
  }

  /** A stream with a remote ID has had its open result sent, or the reader is
      just about to send it. */
  ghost predicate RemoteInv(x: Mux) {
    forall sid :: 0 <= sid < |x.table| && x.table[sid].s.remoteID != 0 && !(x.loop.Opening? && x.loop.sid == sid) ==>
      x.table[sid].s.openDone
  }

  /** A stream the reader is routing to can only be closed by someone else. */
  ghost predicate RoutingInv(x: Mux) {
    forall sid :: 0 <= sid < |x.table| && Routing(x.loop, sid) ==>
      && (sid in x.closing ==> External(x.closing[sid].cause))
      && (x.table[sid].closer.Some? ==> External(x.table[sid].closer.value))
  }

  ghost predicate LoopInv(x: Mux) {
    PlaceInv(x) && RemoteInv(x) && RoutingInv(x)
  }

  ghost predicate InputInv(x: Mux) {
    && x.input == EncodeAll(x.seen + Undispatched(x.loop)) + x.rest
    && AllFramable(x.seen + Undispatched(x.loop))
  }

  ghost predicate IdInv(x: Mux) {
    && x.nextLocalID == Wrap32(|x.table|)
    && forall sid :: 0 <= sid < |x.table| ==> x.table[sid].s.localID == Wrap32(sid + 1)
  }

  ghost predicate Inv(x: Mux) {
    && OwnerInv(x) && LoopInv(x) && InputInv(x) && IdInv(x)
    && forall sid :: 0 <= sid < |x.table| ==> TrackInv(x.table[sid], Distinct(x)) && RouteInv(x, sid)
  }

  // ---- one stream --------------------------------------------------------

  lemma ReturnedSnoc(results: seq<ReadResult>, r: ReadResult)
    ensures Returned(results + [r]) == Returned(results) + match r { case Data(bytes) => bytes case End(_) => [] }
  {
    assert (results + [r])[..|results|] == results;
  }

  lemma CutAndJoin<T>(r: seq<T>, b: seq<T>, q: seq<T>, n: nat)
    requires n <= |b|
    ensures r + (b + q) == (r + b[..n]) + (b[n..] + q)
  {
  }

  lemma CopyOutConserves(t: Track, max: nat)
    requires Conserved(t) && !t.pc.Holding?
    ensures Conserved(CopyOut(t, max))
  {
    var n := Minimum(max, |t.s.buf|);
    ReturnedSnoc(t.results, Data(t.s.buf[..n]));
    CutAndJoin(Returned(t.results), t.s.buf, [] + Flat(t.s.queue), n);
    hide Returned, Flat;
  }

  lemma TakeChunkConserves(t: Track, max: nat)
    requires Conserved(t) && !t.pc.Holding? && t.s.queue != []
    ensures Conserved(TakeChunk(t, max))
  {
    assert [] + Flat(t.s.queue) == t.s.queue[0] + Flat(t.s.queue[1..]);
    hide Returned, Flat;
  }

  lemma AppendChunkConserves(t: Track)
    requires Conserved(t) && t.pc.Holding?
    ensures Conserved(AppendChunk(t, t.pc.max, t.pc.chunk))
  {
    hide Returned, Flat;
    var q := Flat(t.s.queue);
    assert t.s.buf + (t.pc.chunk + q) == (t.s.buf + t.pc.chunk) + ([] + q);
  }

  lemma ReportEndConserves(t: Track, err: Option<StreamError>)
    requires Conserved(t) && !t.pc.Holding?
    ensures Conserved(ReportEnd(t, err))
  {
    ReturnedSnoc(t.results, End(Ending(err)));
    hide Returned, Flat;
    assert Returned(t.results) + [] == Returned(t.results);
  }

  lemma MovingConserves(t: Track, pc: ReadPc)
    requires Conserved(t) && !t.pc.Holding? && !pc.Holding?
    ensures Conserved(t.(pc := pc))
  {
  }

  lemma ReadStepConserves(t: Track, d: bool)
    requires TrackInv(t, d)
    ensures Conserved(ReadStep(t))
  {
    assert Conserved(t);
    hide Conserved, TrackInv, Returned, Flat, CopyOut, TakeChunk, AppendChunk, ReportEnd;
    match t.pc
    case Checking(max) => CopyOutConserves(t, max); MovingConserves(t, Draining(max, t.s.err)); MovingConserves(t, Waiting(max));
    case Holding(max, chunk) => AppendChunkConserves(t);
    case Draining(max, err) => if t.s.queue == [] { ReportEndConserves(t, err); } else { TakeChunkConserves(t, max); }
    case Waiting(max) => if t.s.queue != [] { TakeChunkConserves(t, max); } else { MovingConserves(t, Checking(max)); }
    case Idle =>
  }

  lemma ReadStepRest(t: Track, d: bool)
    requires TrackInv(t, d)
    ensures var u := ReadStep(t);
            && u == t.(s := t.s.(buf := u.s.buf, queue := u.s.queue), results := u.results, pc := u.pc)
            && |u.s.queue| <= QUEUE_CAPACITY
            && (u.pc.Draining? || u.pc.Waiting? || u.pc.Holding? ==> u.s.buf == [])
            && ClosedRight(u, d) && OpenedRight(u, d)
  {
    hide Conserved, EndsLast, Flat;
  }

  /** A step of Read moves bytes forward and loses none; only the unread part,
      the results and the reader's place change. */
  lemma ReadStepKeeps(t: Track, d: bool)
    requires TrackInv(t, d)
    ensures var u := ReadStep(t);
            TrackInv(u, d) && u == t.(s := t.s.(buf := u.s.buf, queue := u.s.queue), results := u.results, pc := u.pc)
  {
    ReadStepConserves(t, d);
    ReadStepEnds(t, d);
    ReadStepRest(t, d);
    hide Conserved, EndsLast, ClosedRight, OpenedRight, ReadStep;
  }

  lemma ReadStepEnds(t: Track, d: bool)
    requires TrackInv(t, d)
    ensures EndsLast(ReadStep(t))
  {
    hide Conserved, OpenedRight, Flat;
    var u := ReadStep(t);
    if |t.results| < |u.results| {
      assert forall i :: 0 <= i < |t.results| ==> u.results[i] == t.results[i];
    } else {
      assert u.results == t.results;
    }
  }

  lemma MarkedKeeps(t: Track, d: bool, cause: Cause)
    requires TrackInv(t, d) && !t.s.closed && (d && cause == PeerClosed ==> t.s.remoteID != 0)
    ensures TrackInv(Marked(t, cause), d) && Marked(t, cause).closer == Some(cause)
  {
  }

  lemma DeliveredKeeps(t: Track, d: bool, chunk: seq<Byte>)
    requires TrackInv(t, d) && !t.s.closed && |t.s.queue| < QUEUE_CAPACITY
    ensures TrackInv(Delivered(t, chunk), d)
  {
    FlatSnoc(t.s.queue, chunk);
    assert Returned(t.results) + (t.s.buf + (Held(t.pc) + (Flat(t.s.queue) + chunk)))
        == Returned(t.results) + (t.s.buf + (Held(t.pc) + Flat(t.s.queue))) + chunk;
  }

  lemma OpenedKeeps(t: Track, d: bool, result: Option<StreamError>, who: OpenedBy)
    requires TrackInv(t, d) && who != Nobody
    requires who == ByEstablish ==> result == None
    requires who == ByClose && !t.s.openDone ==> t.closer.Some? && (d ==> t.closer.value != PeerClosed) && result == ErrorOf(t.closer.value)
    ensures TrackInv(Opened(t, result, who), d) && Opened(t, result, who).s.openDone
  {
  }

  lemma SetRemoteKeeps(t: Track, d: bool, remoteID: U32)
    requires TrackInv(t, d)
    ensures TrackInv(t.(s := SetRemote(t.s, remoteID)), d)
  {
  }

  lemma NewTrackInv(d: bool, id: U32, remoteID: U32, birth: nat)
    ensures TrackInv(NewTrack(NewState(id, remoteID), birth, Nobody), d)
    ensures TrackInv(NewTrack(OpenOnce(NewState(id, remoteID), None), birth, ByEstablish), d)
  {
  }

  // ---- what the reader's steps touch --------------------------------------

  /** While the reader handles OKAY or WRTE it changes one stream only, and of
      that one neither the ID nor anything about closing. */
  lemma RoutingFrame(x: Mux, ok: bool)
    requires x.loop.Establishing? || x.loop.Opening? || x.loop.Delivering?
    requires x.loop.sid < |x.table|
    ensures var y, sid := LoopStep(x, ok), x.loop.sid;
            && |y.table| == |x.table|
            && y == Update(x, sid, y.table[sid]).(loop := y.loop, crashed := y.crashed)
            && var t, u := y.table[sid], x.table[sid];
               && t.s.localID == u.s.localID && t.s.closed == u.s.closed && t.closer == u.closer && t.birth == u.birth
               && (t.s.remoteID == u.s.remoteID || (u.s.remoteID == 0 && x.loop.Establishing?))
               && (u.s.openDone ==> t.s.openDone) && t.closeCalls == u.closeCalls
  {
  }

  lemma ReadNextFrame(x: Mux, ok: bool)
    ensures var y := ReadNext(x, ok);
            y == x.(rest := y.rest, loop := y.loop) && (y.loop.Failing? || y.loop.Arrived?)
  {
    hide Decode;
  }

  lemma DispatchedFrame(x: Mux, m: Message, ok: bool)
    ensures var y := Dispatched(x, m, ok);
            && y == x.(seen := x.seen + [m], loop := y.loop)
            && (y.loop.Accepting? || y.loop.Reading? ||
                (y.loop.Establishing? && m.command in {OKAY, WRTE} && m.arg1 in x.streams && y.loop == Establishing(x.streams[m.arg1], m)) ||
                (y.loop.Closing? && m.arg1 in x.streams && y.loop.sid == x.streams[m.arg1]))
  {
  }

  lemma CloseStepFrame(x: Mux)
    requires x.loop.Closing? || x.loop.Taking? || x.loop.AwaitClose?
    ensures var y := CloseStep(x);
            && y == x.(streams := y.streams, closing := y.closing, loop := y.loop)
            && (forall id :: id in y.streams ==> id in x.streams && y.streams[id] == x.streams[id])
            && (y.loop == x.loop || y.loop.Reading? || (y.loop.AwaitClose? && y.loop.sid in x.streams.Values)
                || (x.loop.Closing? && x.loop.sid < |x.table|
                    && y.loop == Taking(x.loop.sid, if x.table[x.loop.sid].s.remoteID != 0 then PeerClosed else PeerRefused)))
  {
  }

  lemma AcceptStepFrame(x: Mux, ok: bool)
    requires x.loop.Accepting? || x.loop.AcceptAcking?
    ensures var y := AcceptStep(x, ok);
            && y == x.(table := y.table, streams := y.streams, nextLocalID := y.nextLocalID, loop := y.loop)
            && (x.loop.AcceptAcking? ==> y == x.(loop := y.loop) && (y.loop.Reading? || y.loop == Taking(x.loop.sid, AckRefused)))
            && (x.loop.Accepting? ==> y == Created(x, x.loop.m.arg0, true).(loop := AcceptAcking(|x.table|)))
  {
    hide OpenOnce;
  }

  lemma AllTakenFrame(x: Mux)
    ensures var y := AllTaken(x, Shutdown); y == x.(streams := map[], closing := y.closing)
  {
  }

  /** Outside the route of a message the reader changes no stream, though it may
      create one. */
  lemma NotRoutingFrame(x: Mux, ok: bool)
    requires !x.loop.Establishing? && !x.loop.Opening? && !x.loop.Delivering?
    ensures var y := LoopStep(x, ok);
            || (y.table == x.table && y.nextLocalID == x.nextLocalID)
            || (x.loop.Accepting? && y == Created(x, x.loop.m.arg0, true).(loop := AcceptAcking(|x.table|)))
  {
    hide ReadNext, Dispatched, CloseStep, AcceptStep, AllTaken, Created;
    match x.loop
    case Reading => ReadNextFrame(x, ok);
    case Arrived(m) => DispatchedFrame(x, m, ok);
    case Closing(_) => CloseStepFrame(x);
    case Taking(_, _) => CloseStepFrame(x);
    case AwaitClose(_) => CloseStepFrame(x);
    case Accepting(_) => AcceptStepFrame(x, ok);
    case AcceptAcking(_) => AcceptStepFrame(x, ok);
    case Failing => AllTakenFrame(x);
    case _ =>
  }

  // ---- every step keeps the invariant ------------------------------------

  lemma StepKeepsNewTrack(x: Mux, step: Step, sid: nat)
    requires |x.table| <= sid < |Apply(x, step).table|
    ensures TrackInv(Apply(x, step).table[sid], Distinct(Apply(x, step)))
  {
    hide TrackInv, Apply, NewTrack, NewState, OpenOnce, Distinct;
    StepCreates(x, step);
    var y := Apply(x, step);
    if x.loop.Accepting? { NewTrackInv(Distinct(y), y.nextLocalID, x.loop.m.arg0, |x.seen|); }
    NewTrackInv(Distinct(y), y.nextLocalID, 0, |x.seen|);
  }

  lemma StepKeepsOldTrack(x: Mux, step: Step, sid: nat)
    requires OwnerInv(x) && LoopInv(x) && sid < |x.table| && TrackInv(x.table[sid], Distinct(x))
    ensures |Apply(x, step).table| >= |x.table| && TrackInv(Apply(x, step).table[sid], Distinct(x))
  {
    hide TrackInv, LoopStep;
    var t := x.table[sid];
    match step
    case Loop(ok) =>
      LoopKeepsTrack(x, ok, sid);
    case CloseMark(i) =>
      if sid == i && Apply(x, step) != x { MarkedKeeps(t, Distinct(x), x.closing[sid].cause); }
    case CloseOpen(i) =>
      if sid == i && Apply(x, step) != x { OpenedKeeps(t, Distinct(x), ErrorOf(x.closing[sid].cause), ByClose); }
    case BeginRead(i, max) =>
      if sid == i && t.pc == Idle { BeginReadKeeps(t, Distinct(x), max); }
    case ReadOn(i) =>
      if sid == i { ReadStepKeeps(t, Distinct(x)); }
    case _ =>
  }

  lemma TrackInvWeakens(t: Track)
    requires TrackInv(t, true)
    ensures TrackInv(t, false)
  {
  }

  lemma BeginReadKeeps(t: Track, d: bool, max: nat)
    requires TrackInv(t, d) && t.pc == Idle
    ensures TrackInv(t.(pc := Checking(max)), d)
  {
  }

  lemma LoopKeepsTrack(x: Mux, ok: bool, sid: nat)
    requires OwnerInv(x) && LoopInv(x) && sid < |x.table| && TrackInv(x.table[sid], Distinct(x))
    ensures |LoopStep(x, ok).table| >= |x.table| && TrackInv(LoopStep(x, ok).table[sid], Distinct(x))
  {
    hide TrackInv, OwnerInv, ReadNext, Dispatched, CloseStep, AcceptStep, AllTaken, Created, Opened, Delivered, SetRemote;
    var t := x.table[sid];
    match x.loop
    case Establishing(i, m) => SetRemoteKeeps(t, Distinct(x), m.arg0);
    case Opening(i, m) => OpenedKeeps(t, Distinct(x), None, ByEstablish);
    case Delivering(i, m) =>
      if i == sid && !t.s.closed && |t.s.queue| < QUEUE_CAPACITY { DeliveredKeeps(t, Distinct(x), m.payload); }
    case Accepting(m) => AcceptStepFrame(x, ok); CreatedFrame(x, m.arg0, true);
    case _ => NotRoutingFrame(x, ok);
  }

  lemma CreatedFrame(x: Mux, remoteID: U32, accepted: bool)
    ensures |Created(x, remoteID, accepted).table| == |x.table| + 1
    ensures Created(x, remoteID, accepted).table[..|x.table|] == x.table
  {
    hide OpenOnce;
  }

  /** A step of Read does not touch what other goroutines look at. */
  lemma ReadStepFrame(t: Track)
    ensures var u := ReadStep(t);
            u == t.(s := t.s.(buf := u.s.buf, queue := u.s.queue), results := u.results, pc := u.pc)
  {
  }

  lemma TakenKeepsOwner(x: Mux, id: U32, cause: Cause)
    requires OwnerInv(x)
    requires Distinct(x) && cause == PeerClosed && id in x.streams ==>
               x.table[x.streams[id]].s.remoteID != 0 && x.table[x.streams[id]].s.openDone
    ensures OwnerInv(Taken(x, id, cause))
  {
  }

  lemma AllTakenKeepsOwner(x: Mux, cause: Cause)
    requires OwnerInv(x) && cause != PeerClosed
    ensures OwnerInv(AllTaken(x, cause))
  {
    var y := AllTaken(x, cause);
    forall sid | sid in y.closing
      ensures sid < |y.table| && y.table[sid].s.closed == y.closing[sid].marked
      ensures y.closing[sid].marked ==> y.table[sid].closer == Some(y.closing[sid].cause)
      ensures Distinct(y) && y.closing[sid].cause == PeerClosed ==> y.table[sid].s.remoteID != 0 && y.table[sid].s.openDone
    {
      if sid in x.streams.Values {
        var id :| id in x.streams && x.streams[id] == sid;
      }
    }
  }

  lemma CreatedKeepsOwner(x: Mux, remoteID: U32, accepted: bool)
    requires OwnerInv(x)
    ensures OwnerInv(Created(x, remoteID, accepted))
  {
  }

  /** Updating one stream keeps ownership when it does not close the stream. */
  lemma UpdateKeepsOwner(x: Mux, sid: nat, t: Track)
    requires OwnerInv(x) && sid < |x.table|
    requires var u := x.table[sid];
             && t.s.localID == u.s.localID && t.s.closed == u.s.closed && t.closer == u.closer
             && (u.s.remoteID != 0 ==> t.s.remoteID != 0) && (u.s.openDone ==> t.s.openDone)
    ensures OwnerInv(Update(x, sid, t))
  {
  }

  lemma PlaceIsNotOwnership(x: Mux, seen: seq<Message>, rest: seq<Byte>, loop: LoopPc, crashed: bool)
    requires OwnerInv(x)
    ensures OwnerInv(x.(seen := seen, rest := rest, loop := loop, crashed := crashed))
  {
  }

  /** Until 2^32 streams exist, local IDs are distinct and nonzero. */
  lemma IdsDistinct(x: Mux, a: nat, b: nat)
    requires IdInv(x) && Distinct(x) && a < |x.table| && b < |x.table|
    ensures x.table[a].s.localID != 0
    ensures x.table[a].s.localID == x.table[b].s.localID ==> a == b
  {
  }

  lemma TakingKeepsOwner(x: Mux, sid: nat, cause: Cause)
    requires OwnerInv(x) && LoopInv(x) && IdInv(x) && x.loop == Taking(sid, cause)
    ensures OwnerInv(Taken(x, x.table[sid].s.localID, cause))
  {
    var id := x.table[sid].s.localID;
    if Distinct(x) && id in x.streams {
      IdsDistinct(x, sid, x.streams[id]);
    }
    TakenKeepsOwner(x, id, cause);
    hide OwnerInv, IdInv;
  }

  lemma RoutingKeepsOwner(x: Mux, ok: bool)
    requires OwnerInv(x) && LoopInv(x)
    requires x.loop.Establishing? || x.loop.Opening? || x.loop.Delivering?
    ensures OwnerInv(LoopStep(x, ok))
  {
    RoutingFrame(x, ok);
    hide LoopStep;
    var y := LoopStep(x, ok);
    UpdateKeepsOwner(x, x.loop.sid, y.table[x.loop.sid]);
    PlaceIsNotOwnership(Update(x, x.loop.sid, y.table[x.loop.sid]), x.seen, x.rest, y.loop, y.crashed);
    hide OwnerInv, LoopInv;
  }

  lemma TablingKeepsOwner(x: Mux, ok: bool)
    requires OwnerInv(x) && LoopInv(x) && IdInv(x)
    requires x.loop.Taking? || x.loop.Accepting? || x.loop.Failing?
    ensures OwnerInv(LoopStep(x, ok))
  {
    hide IdInv;
    var y := LoopStep(x, ok);
    match x.loop
    case Taking(sid, cause) =>
      TakingKeepsOwner(x, sid, cause);
      var z := Taken(x, x.table[sid].s.localID, cause);
      hide OwnerInv, LoopInv;
      PlaceIsNotOwnership(z, x.seen, x.rest, y.loop, y.crashed);
      assert y == z.(seen := x.seen, rest := x.rest, loop := y.loop, crashed := y.crashed);
    case Accepting(m) =>
      CreatedKeepsOwner(x, m.arg0, true);
      var z := Created(x, m.arg0, true);
      hide OwnerInv, LoopInv;
      PlaceIsNotOwnership(z, x.seen, x.rest, y.loop, y.crashed);
      assert y == z.(seen := x.seen, rest := x.rest, loop := y.loop, crashed := y.crashed);
    case Failing =>
      AllTakenKeepsOwner(x, Shutdown);
      var z := AllTaken(x, Shutdown);
      hide OwnerInv, LoopInv;
      PlaceIsNotOwnership(z, x.seen, x.rest, y.loop, y.crashed);
      assert y == z.(seen := x.seen, rest := x.rest, loop := y.loop, crashed := y.crashed);
  }

  lemma LoopKeepsOwner(x: Mux, ok: bool)
    requires OwnerInv(x) && LoopInv(x) && IdInv(x)
    ensures OwnerInv(LoopStep(x, ok))
  {
    if x.loop.Establishing? || x.loop.Opening? || x.loop.Delivering? {
      RoutingKeepsOwner(x, ok);
      hide LoopStep, OwnerInv, LoopInv, IdInv;
    } else if x.loop.Taking? || x.loop.Accepting? || x.loop.Failing? {
      TablingKeepsOwner(x, ok);
      hide LoopStep, OwnerInv, LoopInv, IdInv;
    } else {
      MovingFrame(x, ok);
      var y := LoopStep(x, ok);
      PlaceIsNotOwnership(x, y.seen, y.rest, y.loop, y.crashed);
      hide LoopStep, OwnerInv, LoopInv, IdInv;
    }
  }

  /** The reader's other actions only move it along its own program. */
  lemma MovingFrame(x: Mux, ok: bool)
    requires !x.loop.Establishing? && !x.loop.Opening? && !x.loop.Delivering?
    requires !x.loop.Taking? && !x.loop.Accepting? && !x.loop.Failing?
    ensures var y := LoopStep(x, ok);
            y == x.(seen := y.seen, rest := y.rest, loop := y.loop)
  {
    hide ReadNext, Dispatched;
    match x.loop
    case Reading => ReadNextFrame(x, ok);
    case Arrived(m) => DispatchedFrame(x, m, ok);
    case _ =>
  }

  lemma CloseMarkKeepsOwner(x: Mux, sid: nat)
    requires OwnerInv(x) && sid in x.closing && sid < |x.table| && !x.closing[sid].marked
    ensures OwnerInv(Update(x, sid, Marked(x.table[sid], x.closing[sid].cause)).(closing := x.closing[sid := CloseCall(x.closing[sid].cause, true)]))
  {
  }

  lemma CloseOpenKeepsOwner(x: Mux, sid: nat)
    requires OwnerInv(x) && sid in x.closing && sid < |x.table| && x.closing[sid].marked
    ensures OwnerInv(Update(x, sid, Opened(x.table[sid], ErrorOf(x.closing[sid].cause), ByClose)).(closing := x.closing - {sid}))
  {
    var t := Opened(x.table[sid], ErrorOf(x.closing[sid].cause), ByClose);
    UpdateKeepsOwner(x, sid, t);
    FinishedKeepsOwner(Update(x, sid, t), sid);
    hide OwnerInv;
  }

  lemma FinishedKeepsOwner(x: Mux, sid: nat)
    requires OwnerInv(x)
    ensures OwnerInv(x.(closing := x.closing - {sid}))
  {
  }

  lemma AbandonKeepsOwner(x: Mux, id: U32)
    requires OwnerInv(x)
    ensures OwnerInv(x.(streams := x.streams - {id}))
  {
  }

  lemma StepKeepsOwner(x: Mux, step: Step)
    requires OwnerInv(x) && LoopInv(x) && IdInv(x)
    ensures OwnerInv(Apply(x, step))
  {
    hide OwnerInv, LoopStep, Taken, AllTaken, Created, Marked, Opened, ReadStep, Update;
    match step
    case Loop(ok) => if !x.crashed { LoopKeepsOwner(x, ok); }
    case NewStream => CreatedKeepsOwner(x, 0, false);
    case Abandon(sid) => if sid < |x.table| { AbandonKeepsOwner(x, x.table[sid].s.localID); }
    case CloseStream(sid) => if sid < |x.table| { TakenKeepsOwner(x, x.table[sid].s.localID, CallerClosed); }
    case CloseConnection => AllTakenKeepsOwner(x, Shutdown);
    case CloseMark(sid) =>
      if sid in x.closing && sid < |x.table| && !x.closing[sid].marked { CloseMarkKeepsOwner(x, sid); }
    case CloseOpen(sid) =>
      if sid in x.closing && sid < |x.table| && x.closing[sid].marked { CloseOpenKeepsOwner(x, sid); }
    case BeginRead(sid, max) =>
      if sid < |x.table| { UpdateKeepsOwner(x, sid, x.table[sid].(pc := Checking(max))); }
    case ReadOn(sid) =>
      if sid < |x.table| { ReadStepFrame(x.table[sid]); UpdateKeepsOwner(x, sid, ReadStep(x.table[sid])); }
  }

  /** What no step undoes, on any stream: its ID, its birth, its remote ID once
      set, its open result, and its close. Only the reader's establish sets a
      remote ID, and only a close call in progress sets the closer. */
  lemma StepFrame(x: Mux, step: Step, sid: nat)
    requires sid < |x.table|
    ensures |x.table| <= |Apply(x, step).table| <= |x.table| + 1
    ensures var t, u := x.table[sid], Apply(x, step).table[sid];
            && u.s.localID == t.s.localID && u.birth == t.birth
            && (u.s.remoteID == t.s.remoteID || (t.s.remoteID == 0 && x.loop.Establishing? && x.loop.sid == sid && step.Loop?))
            && (t.s.openDone ==> u.s.openDone)
            && ((u.s.closed == t.s.closed && u.closer == t.closer && u.closeCalls == t.closeCalls)
                || (step == CloseMark(sid) && sid in x.closing && u == Marked(t, x.closing[sid].cause)))
  {
    match step
    case Loop(ok) => LoopFrame(x, ok, sid);
    case ReadOn(i) => if i < |x.table| { ReadStepFrame(x.table[i]); }
    case _ =>
  }

  lemma LoopFrame(x: Mux, ok: bool, sid: nat)
    requires sid < |x.table|
    ensures |x.table| <= |LoopStep(x, ok).table| <= |x.table| + 1
    ensures var t, u := x.table[sid], LoopStep(x, ok).table[sid];
            && u.s.localID == t.s.localID && u.birth == t.birth
            && (u.s.remoteID == t.s.remoteID || (t.s.remoteID == 0 && x.loop.Establishing? && x.loop.sid == sid))
            && (t.s.openDone ==> u.s.openDone)
            && u.s.closed == t.s.closed && u.closer == t.closer && u.closeCalls == t.closeCalls
  {
    if x.loop.Establishing? || x.loop.Opening? || x.loop.Delivering? {
      if x.loop.sid < |x.table| {
        RoutingFrame(x, ok);
        hide LoopStep;
      }
    } else {
      NotRoutingFrame(x, ok);
      hide LoopStep;
    }
  }

  /** The stream a step may create. */
  lemma StepCreates(x: Mux, step: Step)
    requires |Apply(x, step).table| > |x.table|
    ensures |Apply(x, step).table| == |x.table| + 1
    ensures var y := Apply(x, step);
            var t := y.table[|x.table|];
            && (t == NewTrack(NewState(y.nextLocalID, 0), |x.seen|, Nobody)
                || (step.Loop? && x.loop.Accepting? && t == NewTrack(OpenOnce(NewState(y.nextLocalID, x.loop.m.arg0), None), |x.seen|, ByEstablish)))
            && y.nextLocalID == Wrap32(x.nextLocalID + 1)
            && y.streams == x.streams[y.nextLocalID := |x.table|] && y.seen == x.seen && y.closing == x.closing
  {
    StepCounts(x, step);
    if step.Loop? {
      if x.loop.Establishing? || x.loop.Opening? || x.loop.Delivering? {
        if x.loop.sid < |x.table| { RoutingFrame(x, step.ok); }
      } else {
        NotRoutingFrame(x, step.ok);
      }
      hide LoopStep, OpenOnce, Wrap32;
    } else {
      hide LoopStep, OpenOnce, Wrap32, ReadStep, Taken, AllTaken;
    }
  }

  lemma StepCounts(x: Mux, step: Step)
    ensures |Apply(x, step).table| == |x.table| ==> Apply(x, step).nextLocalID == x.nextLocalID
    ensures |x.table| <= |Apply(x, step).table| <= |x.table| + 1
  {
    match step
    case Loop(ok) =>
      if x.loop.Establishing? || x.loop.Opening? || x.loop.Delivering? {
        if x.loop.sid < |x.table| { RoutingFrame(x, ok); } 
      } else {
        NotRoutingFrame(x, ok);
        hide LoopStep;
      }
    case _ => hide ReadStep, LoopStep, Taken, AllTaken;
  }

  lemma OthersKeepPlace(x: Mux, step: Step)
    requires !step.Loop?
    ensures Apply(x, step).loop == x.loop && Apply(x, step).seen == x.seen
    ensures Apply(x, step).crashed == x.crashed
  {
    hide ReadStep;
  }

  lemma StepKeepsPlace(x: Mux, step: Step)
    requires PlaceInv(x) && RemoteInv(x) && OwnerInv(x)
    ensures PlaceInv(Apply(x, step))
  {
    if step.Loop? {
      if !x.crashed { LoopKeepsPlace(x, step.ok); }
    } else {
      OthersKeepPlace(x, step);
      StepCounts(x, step);
      if x.loop.Establishing? || x.loop.Opening? || x.loop.Acking? || x.loop.Delivering? || x.loop.Taking? {
        StepFrame(x, step, x.loop.sid);
      }
      hide Apply, OwnerInv, RemoteInv;
    }
  }

  lemma RouteKeepsPlace(x: Mux, ok: bool)
    requires PlaceInv(x) && (x.loop.Establishing? || x.loop.Opening? || x.loop.Delivering?)
    ensures PlaceInv(LoopStep(x, ok))
  {
    RoutingFrame(x, ok);
    RoutingNext(x, ok);
    hide LoopStep;
  }

  lemma CloseKeepsPlace(x: Mux)
    requires PlaceInv(x) && RemoteInv(x) && OwnerInv(x)
    requires x.loop.Closing? || x.loop.Taking? || x.loop.AwaitClose?
    ensures PlaceInv(CloseStep(x))
  {
    CloseStepFrame(x);
    hide CloseStep;
  }

  lemma DispatchKeepsPlace(x: Mux, ok: bool)
    requires OwnerInv(x) && x.loop.Arrived?
    ensures PlaceInv(Dispatched(x, x.loop.m, ok))
  {
    DispatchedFrame(x, x.loop.m, ok);
    hide Dispatched;
  }

  lemma AcceptKeepsPlace(x: Mux, ok: bool)
    requires PlaceInv(x) && (x.loop.Accepting? || x.loop.AcceptAcking?)
    ensures PlaceInv(AcceptStep(x, ok))
  {
    AcceptStepFrame(x, ok);
    if x.loop.Accepting? { CreatedFrame(x, x.loop.m.arg0, true); }
    hide AcceptStep, Created;
  }

  lemma LoopKeepsPlace(x: Mux, ok: bool)
    requires PlaceInv(x) && RemoteInv(x) && OwnerInv(x)
    ensures PlaceInv(LoopStep(x, ok))
  {
    hide ReadNext, Dispatched, RouteStep, CloseStep, AcceptStep, AllTaken, RemoteInv, OwnerInv;
    match x.loop
    case Reading => ReadNextFrame(x, ok);
    case Arrived(m) => DispatchKeepsPlace(x, ok);
    case Acking(_, _) => AckingFrame(x);
    case Establishing(_, _) => RouteKeepsPlace(x, ok);
    case Opening(_, _) => RouteKeepsPlace(x, ok);
    case Delivering(_, _) => RouteKeepsPlace(x, ok);
    case Closing(_) => CloseKeepsPlace(x);
    case Taking(_, _) => CloseKeepsPlace(x);
    case AwaitClose(_) => CloseKeepsPlace(x);
    case Accepting(_) => AcceptKeepsPlace(x, ok);
    case AcceptAcking(_) => AcceptKeepsPlace(x, ok);
    case Failing => AllTakenFrame(x);
    case _ =>
  }

  lemma AckingFrame(x: Mux)
    requires x.loop.Acking?
    ensures RouteStep(x) == x.(loop := Delivering(x.loop.sid, x.loop.m))
  {
  }

  /** The order of the reader's actions on one OKAY or WRTE. */
  lemma RoutingNext(x: Mux, ok: bool)
    requires x.loop.Establishing? || x.loop.Opening? || x.loop.Delivering?
    ensures var l := LoopStep(x, ok).loop;
            || l == x.loop || l == Reading
            || (x.loop.Establishing? && l == Opening(x.loop.sid, x.loop.m))
            || (x.loop.Opening? && x.loop.m.command == WRTE && l == Acking(x.loop.sid, x.loop.m))
  {
  }

  lemma StepKeepsRemote(x: Mux, step: Step)
    requires RemoteInv(x) && PlaceInv(x)
    ensures RemoteInv(Apply(x, step))
  {
    var y := Apply(x, step);
    hide Apply;
    forall sid | 0 <= sid < |y.table| && y.table[sid].s.remoteID != 0 && !(y.loop.Opening? && y.loop.sid == sid)
      ensures y.table[sid].s.openDone
    {
      if sid >= |x.table| {
        StepCreates(x, step);
      } else {
        StepKeepsRemoteOf(x, step, sid);
      }
    }
  }

  lemma StepKeepsRemoteOf(x: Mux, step: Step, sid: nat)
    requires RemoteInv(x) && PlaceInv(x) && sid < |x.table|
    ensures var y := Apply(x, step);
            sid < |y.table| && (y.table[sid].s.remoteID != 0 && !(y.loop.Opening? && y.loop.sid == sid) ==> y.table[sid].s.openDone)
  {
    StepFrame(x, step, sid);
    hide LoopStep, PlaceInv;
    if step.Loop? {
      RemoteLoop(x, step.ok, sid);
    } else {
      OthersKeepPlace(x, step);
      hide Apply;
    }
  }

  /** Setting the remote ID leads straight to sending the open result. */
  lemma RemoteLoop(x: Mux, ok: bool, sid: nat)
    requires sid < |x.table|
    ensures x.loop.Establishing? && x.loop.sid == sid ==> LoopStep(x, ok).loop.Opening? && LoopStep(x, ok).loop.sid == sid
    ensures x.loop.Opening? && x.loop.sid == sid ==> LoopStep(x, ok).table[sid].s.openDone
  {
    hide ReadNext, Dispatched, CloseStep, AcceptStep, AllTaken, Created;
    if x.loop.Establishing? || x.loop.Opening? {
      hide SetRemote;
    } else {
      hide LoopStep;
    }
  }

  lemma StepKeepsRouting(x: Mux, step: Step)
    requires RoutingInv(x) && PlaceInv(x) && OwnerInv(x)
    requires forall sid :: 0 <= sid < |x.table| ==> ClosedRight(x.table[sid], Distinct(x))
    ensures RoutingInv(Apply(x, step))
  {
    var y := Apply(x, step);
    forall sid | 0 <= sid < |y.table| && Routing(y.loop, sid)
      ensures sid in y.closing ==> External(y.closing[sid].cause)
      ensures y.table[sid].closer.Some? ==> External(y.table[sid].closer.value)
    {
      if step.Loop? {
        if !x.crashed { LoopKeepsRouting(x, step.ok, sid); }
      } else {
        OthersKeepPlace(x, step);
        StepFrame(x, step, sid);
        if sid in y.closing { OthersCloseFromOutside(x, step, sid); }
        hide Apply;
      }
    }
  }

  lemma OthersCloseFromOutside(x: Mux, step: Step, sid: nat)
    requires !step.Loop? && sid in Apply(x, step).closing
    ensures (sid in x.closing && x.closing[sid].cause == Apply(x, step).closing[sid].cause)
            || External(Apply(x, step).closing[sid].cause)
  {
    hide ReadStep;
  }

  lemma LoopKeepsRouting(x: Mux, ok: bool, sid: nat)
    requires RoutingInv(x) && PlaceInv(x) && OwnerInv(x)
    requires forall sid :: 0 <= sid < |x.table| ==> ClosedRight(x.table[sid], Distinct(x))
    requires var y := LoopStep(x, ok); sid < |y.table| && Routing(y.loop, sid)
    ensures var y := LoopStep(x, ok);
            && (sid in y.closing ==> External(y.closing[sid].cause))
            && (y.table[sid].closer.Some? ==> External(y.table[sid].closer.value))
  {
    var y := LoopStep(x, ok);
    if x.loop.Arrived? {
      hide ClosedRight;
      var m := x.loop.m;
      assert m.arg1 in x.streams && sid == x.streams[m.arg1];
      assert ClosedRight(x.table[sid], Distinct(x)) && sid !in x.closing && !x.table[sid].s.closed;
      LiveHasNoCloser(x.table[sid], Distinct(x));
    } else {
      RoutesOn(x, ok, sid);
      LoopFrame(x, ok, sid);
      hide LoopStep;
    }
  }

  lemma LiveHasNoCloser(t: Track, d: bool)
    requires ClosedRight(t, d) && !t.s.closed
    ensures t.closer == None
  {
  }

  lemma RoutesOn(x: Mux, ok: bool, sid: nat)
    requires !x.loop.Arrived? && Routing(LoopStep(x, ok).loop, sid)
    ensures Routing(x.loop, sid) && LoopStep(x, ok).closing == x.closing
  {
    hide ReadNext, Dispatched, CloseStep, AcceptStep, AllTaken, Created;
    match x.loop
    case Reading => ReadNextFrame(x, ok);
    case Closing(_) => CloseStepFrame(x);
    case Taking(_, _) => CloseStepFrame(x);
    case AwaitClose(_) => CloseStepFrame(x);
    case Accepting(_) => AcceptStepFrame(x, ok);
    case AcceptAcking(_) => AcceptStepFrame(x, ok);
    case _ =>
  }

  lemma ReadKeepsInput(x: Mux, ok: bool)
    requires InputInv(x) && x.loop.Reading?
    ensures InputInv(ReadNext(x, ok))
  {
    hide Encode, EncodeAll, Decode, Framable;
    assert x.seen + [] == x.seen;
    if ok && Decode(x.rest).Accepted? {
      var m := Decode(x.rest).msg;
      AcceptedIsEncoding(x.rest);
      EncodeAllSnoc(x.seen, m);
      Joined(EncodeAll(x.seen), Encode(m), Decode(x.rest).rest);
    }
  }

  /** A step other than a read and a lookup leaves the input alone. */
  lemma InputFrame(x: Mux, step: Step)
    requires step.Loop? ==> !x.loop.Reading? && !x.loop.Arrived?
    ensures var y := Apply(x, step);
            y.input == x.input && y.rest == x.rest && y.seen == x.seen && Undispatched(y.loop) == Undispatched(x.loop)
  {
    hide LoopStep, ReadStep;
    if step.Loop? { LoopInputFrame(x, step.ok); } else { OthersKeepPlace(x, step); }
  }

  lemma LoopInputFrame(x: Mux, ok: bool)
    requires !x.loop.Reading? && !x.loop.Arrived?
    ensures var y := LoopStep(x, ok);
            y.input == x.input && y.rest == x.rest && y.seen == x.seen && Undispatched(y.loop) == Undispatched(x.loop)
  {
    if x.loop.Establishing? || x.loop.Opening? || x.loop.Delivering? {
      RoutingNext(x, ok);
      if x.loop.sid < |x.table| { RoutingFrame(x, ok); hide LoopStep; }
    } else {
      hide CloseStep, AcceptStep, AllTaken, Created;
      match x.loop
      case Closing(_) => CloseStepFrame(x);
      case Taking(_, _) => CloseStepFrame(x);
      case AwaitClose(_) => CloseStepFrame(x);
      case Accepting(m) => AcceptStepFrame(x, ok); CreatedInput(x, m.arg0, true);
      case AcceptAcking(_) => AcceptStepFrame(x, ok);
      case Failing => AllTakenFrame(x);
      case _ =>
    }
  }

  lemma CreatedInput(x: Mux, remoteID: U32, accepted: bool)
    ensures var y := Created(x, remoteID, accepted);
            y.input == x.input && y.rest == x.rest && y.seen == x.seen
  {
  }

  lemma StepKeepsInput(x: Mux, step: Step)
    requires InputInv(x)
    ensures InputInv(Apply(x, step)) && Apply(x, step).input == x.input
  {
    if x.crashed {
    } else if step.Loop? && x.loop.Reading? {
      ReadKeepsInput(x, step.ok);
      ReadNextFrame(x, step.ok);
      hide ReadNext, InputInv;
    } else if step.Loop? && x.loop.Arrived? {
      DispatchedFrame(x, x.loop.m, step.ok);
      assert (x.seen + [x.loop.m]) + [] == x.seen + [x.loop.m];
      hide Dispatched, EncodeAll;
    } else {
      InputFrame(x, step);
      hide Apply, EncodeAll;
    }
  }

  lemma StepKeepsIds(x: Mux, step: Step)
    requires IdInv(x)
    ensures IdInv(Apply(x, step))
  {
    hide Apply;
    var y := Apply(x, step);
    StepCounts(x, step);
    if |y.table| > |x.table| { StepCreates(x, step); }
    forall sid | 0 <= sid < |y.table| ensures y.table[sid].s.localID == Wrap32(sid + 1) {
      if sid < |x.table| { StepFrame(x, step, sid); }
    }
    hide Wrap32;
  }

  lemma SentToSnoc(ms: seq<Message>, m: Message, from: nat, id: U32)
    requires from <= |ms|
    ensures SentTo(ms + [m], from, id) == SentTo(ms, from, id) + PayloadTo(m, id)
  {
    assert (ms + [m])[..|ms|] == ms;
  }

  /** The payload put in flight by a lookup is the one sent to the stream's ID. */
  lemma LookupRoutes(x: Mux, m: Message, ok: bool, sid: nat)
    requires x.loop.Arrived? && OwnerInv(x) && sid < |x.table|
    ensures InFlight(x.loop, sid) == []
    ensures var l, id := Dispatched(x, m, ok).loop, x.table[sid].s.localID;
            && (InFlight(l, sid) == PayloadTo(m, id) || InFlight(l, sid) == [])
            && (id in x.streams && x.streams[id] == sid ==> InFlight(l, sid) == PayloadTo(m, id))
            && (InFlight(l, sid) != [] ==> id in x.streams && x.streams[id] == sid)
  {
  }

  /** A lookup hands a WRTE payload to the stream stored under its ID, if any. */
  lemma DispatchRoutes(x: Mux, ok: bool, sid: nat)
    requires x.loop.Arrived? && OwnerInv(x) && sid < |x.table| && RouteInv(x, sid)
    ensures RouteInv(LoopStep(x, ok), sid)
  {
    SentToSnoc(x.seen, x.loop.m, x.table[sid].birth, x.table[sid].s.localID);
    LookupRoutes(x, x.loop.m, ok, sid);
    DispatchedFrame(x, x.loop.m, ok);
    hide SentTo, Dispatched, OwnerInv, InFlight, PayloadTo;
    var t := x.table[sid];
    assert t.accepted + InFlight(x.loop, sid) == t.accepted by { assert InFlight(x.loop, sid) == []; }
  }

  /** Between lookup and delivery a payload stays in flight; delivery accepts it. */
  lemma RoutingAccepts(x: Mux, ok: bool, sid: nat)
    requires PlaceInv(x) && sid < |x.table|
    requires x.loop.Establishing? || x.loop.Opening? || x.loop.Delivering?
    ensures LoopStep(x, ok).table[sid].accepted + InFlight(LoopStep(x, ok).loop, sid)
         == x.table[sid].accepted + InFlight(x.loop, sid)
  {
  }

  lemma NotRoutingAccepts(x: Mux, ok: bool, sid: nat)
    requires !x.loop.Arrived? && sid < |x.table|
    requires !x.loop.Establishing? && !x.loop.Opening? && !x.loop.Delivering?
    ensures var y := LoopStep(x, ok);
            && y.seen == x.seen && InFlight(y.loop, sid) == InFlight(x.loop, sid)
            && (x.table[sid].s.localID in y.streams && y.streams[x.table[sid].s.localID] == sid ==>
                  x.table[sid].s.localID in x.streams && x.streams[x.table[sid].s.localID] == sid)
  {
    hide ReadNext, Dispatched, CloseStep, AcceptStep, AllTaken;
    match x.loop
    case Reading => ReadNextFrame(x, ok);
    case Closing(_) => CloseStepFrame(x);
    case Taking(_, _) => CloseStepFrame(x);
    case AwaitClose(_) => CloseStepFrame(x);
    case Accepting(_) => AcceptStepFrame(x, ok);
    case AcceptAcking(_) => AcceptStepFrame(x, ok);
    case Failing => AllTakenFrame(x);
    case _ =>
  }

  lemma LoopAccepts(x: Mux, ok: bool, sid: nat)
    requires !x.loop.Arrived? && PlaceInv(x) && sid < |x.table|
    ensures var y := LoopStep(x, ok);
            && |y.table| >= |x.table| && y.seen == x.seen
            && y.table[sid].accepted + InFlight(y.loop, sid) == x.table[sid].accepted + InFlight(x.loop, sid)
            && (x.table[sid].s.localID in y.streams && y.streams[x.table[sid].s.localID] == sid ==>
                  x.table[sid].s.localID in x.streams && x.streams[x.table[sid].s.localID] == sid)
  {
    if x.loop.Establishing? || x.loop.Opening? || x.loop.Delivering? {
      RoutingFrame(x, ok);
      RoutingAccepts(x, ok, sid);
    } else {
      NotRoutingFrame(x, ok);
      NotRoutingAccepts(x, ok, sid);
    }
    hide LoopStep, InFlight;
  }

  lemma OthersAccept(x: Mux, step: Step, sid: nat)
    requires !step.Loop? && sid < |x.table|
    ensures var y := Apply(x, step);
            && |y.table| >= |x.table|
            && y.table[sid].accepted == x.table[sid].accepted
            && (x.table[sid].s.localID in y.streams && y.streams[x.table[sid].s.localID] == sid ==>
                  x.table[sid].s.localID in x.streams && x.streams[x.table[sid].s.localID] == sid)
  {
    if step.ReadOn? && step.sid < |x.table| {
      ReadStepFrame(x.table[step.sid]);
      hide ReadStep;
    }
  }

  lemma StepKeepsRoute(x: Mux, step: Step, sid: nat)
    requires OwnerInv(x) && PlaceInv(x) && sid < |Apply(x, step).table|
    requires sid < |x.table| ==> RouteInv(x, sid)
    ensures RouteInv(Apply(x, step), sid)
  {
    hide SentTo, Decode;
    if sid >= |x.table| {
      StepCreates(x, step);
      NewRoute(x, step);
    } else {
      StepFrame(x, step, sid);
      if !step.Loop? {
        OthersKeepPlace(x, step);
        OthersAccept(x, step, sid);
        hide Apply;
      } else if !x.crashed {
        if x.loop.Arrived? {
          DispatchRoutes(x, step.ok, sid);
          hide LoopStep;
        } else {
          LoopAccepts(x, step.ok, sid);
          hide LoopStep;
        }
      }
    }
  }

  lemma NewRoute(x: Mux, step: Step)
    requires PlaceInv(x) && |Apply(x, step).table| > |x.table|
    ensures RouteInv(Apply(x, step), |x.table|)
  {
    StepCreates(x, step);
    if step.Loop? {
      if x.loop.Establishing? || x.loop.Opening? || x.loop.Delivering? { RoutingFrame(x, step.ok); } else { NotRoutingFrame(x, step.ok); }
      hide LoopStep;
    } else {
      OthersKeepPlace(x, step);
      hide Apply;
    }
  }

  lemma StepKeeps(x: Mux, step: Step)
    requires Inv(x)
    ensures Inv(Apply(x, step)) && Apply(x, step).input == x.input
  {
    hide OwnerInv, PlaceInv, RemoteInv, RoutingInv, InputInv, IdInv, RouteInv, TrackInv, ClosedRight, Apply;
    var y := Apply(x, step);
    StepKeepsOwner(x, step);
    StepKeepsPlace(x, step);
    StepKeepsRemote(x, step);
    StepKeepsInput(x, step);
    StepKeepsIds(x, step);
    forall sid | 0 <= sid < |x.table| ensures ClosedRight(x.table[sid], Distinct(x)) {
      assert TrackInv(x.table[sid], Distinct(x));
      TrackClosed(x.table[sid], Distinct(x));
    }
    StepKeepsRouting(x, step);
    forall sid | 0 <= sid < |y.table| ensures TrackInv(y.table[sid], Distinct(y)) && RouteInv(y, sid) {
      StepKeepsRoute(x, step, sid);
      StepKeepsTrack(x, step, sid);
    }
  }

  lemma TrackClosed(t: Track, d: bool)
    requires TrackInv(t, d)
    ensures ClosedRight(t, d)
  {
  }

  lemma StepKeepsTrack(x: Mux, step: Step, sid: nat)
    requires OwnerInv(x) && LoopInv(x) && sid < |Apply(x, step).table|
    requires forall i :: 0 <= i < |x.table| ==> TrackInv(x.table[i], Distinct(x))
    ensures TrackInv(Apply(x, step).table[sid], Distinct(Apply(x, step)))
  {
    hide OwnerInv, LoopInv, TrackInv, Apply;
    var y := Apply(x, step);
    if sid < |x.table| {
      StepKeepsOldTrack(x, step, sid);
      if Distinct(x) && !Distinct(y) { TrackInvWeakens(y.table[sid]); }
    } else {
      StepKeepsNewTrack(x, step, sid);
    }
  }

  lemma {:induction false} Always(input: seq<Byte>, steps: seq<Step>)
    ensures Inv(Exec(Start(input), steps)) && Exec(Start(input), steps).input == input
  {
    if |steps| > 0 {
      Always(input, steps[..|steps| - 1]);
      StepKeeps(Exec(Start(input), steps[..|steps| - 1]), steps[|steps| - 1]);
      hide Inv, Apply;
    }
  }

  // ---- what the invariant means ------------------------------------------

  lemma {:induction false} SentToPrefix(ms: seq<Message>, more: seq<Message>, from: nat, id: U32)
    requires from <= |ms|
    ensures SentTo(ms, from, id) <= SentTo(ms + more, from, id)
    decreases |more|
  {
    if |more| == 0 {
      assert ms + more == ms;
    } else {
      var last := |more| - 1;
      SentToPrefix(ms, more[..last], from, id);
      assert ms + more == (ms + more[..last]) + [more[last]];
      SentToSnoc(ms + more[..last], more[last], from, id);
    }
  }

  /** What the reader has dispatched is a prefix of the messages the peer's bytes encode. */
  lemma SeenIsPrefix(x: Mux)
    requires InputInv(x)
    ensures x.seen <= DecodeAll(x.input).0
  {
    DecodeAllOfEncodeAll(x.seen + Undispatched(x.loop), x.rest);
    hide DecodeAll, EncodeAll;
  }

  /** Main result on delivery. In every run, the bytes a stream's reads returned,
      then those it still holds, are the bytes it accepted; and those are a prefix
      of what the peer's messages send to its local ID after it was created. */
  lemma ReadsFollowThePeer(input: seq<Byte>, steps: seq<Step>, sid: nat)
    requires sid < |Exec(Start(input), steps).table|
    ensures var t := Exec(Start(input), steps).table[sid];
            && Returned(t.results) + (t.s.buf + (Held(t.pc) + Flat(t.s.queue))) == t.accepted
            && t.accepted <= SentTo(DecodeAll(input).0, t.birth, t.s.localID)
            && Returned(t.results) <= SentTo(DecodeAll(input).0, t.birth, t.s.localID)
            && |t.s.queue| <= QUEUE_CAPACITY
  {
    hide SentTo, DecodeAll, Exec, Returned, Flat;
    Always(input, steps);
    var x := Exec(Start(input), steps);
    var t := x.table[sid];
    assert TrackInv(t, Distinct(x)) && RouteInv(x, sid) && InputInv(x);
    hide Inv, InputInv;
    SeenIsPrefix(x);
    var all := DecodeAll(input).0;
    assert all == x.seen + all[|x.seen|..];
    SentToPrefix(x.seen, all[|x.seen|..], t.birth, t.s.localID);
    hide EndsLast, ClosedRight, OpenedRight, InFlight;
  }

  /** While a stream is in the map and the reader is not busy with it, nothing
      the peer has sent to it is missing. */
  lemma NothingLostWhileOpen(input: seq<Byte>, steps: seq<Step>, sid: nat)
    requires var x := Exec(Start(input), steps);
             && sid < |x.table| && !Routing(x.loop, sid)
             && x.table[sid].s.localID in x.streams && x.streams[x.table[sid].s.localID] == sid
    ensures var x := Exec(Start(input), steps);
            var t := x.table[sid];
            Returned(t.results) + (t.s.buf + (Held(t.pc) + Flat(t.s.queue))) == SentTo(x.seen, t.birth, t.s.localID)
  {
    Always(input, steps);
    var x := Exec(Start(input), steps);
    assert TrackInv(x.table[sid], Distinct(x)) && RouteInv(x, sid);
    assert x.table[sid].accepted + [] == x.table[sid].accepted;
  }

  /** Exactly-once closing: closeWithError runs at most once on a stream, so its
      guard against a second call never fires; whoever holds a stream in the map
      holds it open, under its own ID, and nobody is closing it. */
  lemma ClosedAtMostOnce(input: seq<Byte>, steps: seq<Step>)
    ensures var x := Exec(Start(input), steps);
            && (forall sid :: 0 <= sid < |x.table| ==>
                  x.table[sid].closeCalls == if x.table[sid].s.closed then 1 else 0)
            && (forall id :: id in x.streams ==>
                  && x.streams[id] < |x.table| && x.table[x.streams[id]].s.localID == id
                  && !x.table[x.streams[id]].s.closed && x.streams[id] !in x.closing)
  {
    Always(input, steps);
    var x := Exec(Start(input), steps);
    forall sid | 0 <= sid < |x.table| ensures x.table[sid].closeCalls == if x.table[sid].s.closed then 1 else 0 {
      assert TrackInv(x.table[sid], Distinct(x));
    }
  }

  lemma {:induction false} OnlyEndsReturnNothing(results: seq<ReadResult>, i: nat)
    requires i <= |results| && forall j :: i <= j < |results| ==> results[j].End?
    ensures Returned(results) == Returned(results[..i])
    decreases |results|
  {
    if i == |results| {
      assert results[..i] == results;
    } else {
      OnlyEndsReturnNothing(results[..|results| - 1], i);
      assert results[..|results| - 1][..i] == results[..i];
    }
  }

  lemma FlatOfNone()
    ensures Flat([]) == []
  {
  }

  lemma EndsAreTheSame(t: Track, i: nat)
    requires EndsLast(t) && i < |t.results| && t.results[i].End?
    ensures forall j :: i <= j < |t.results| ==> t.results[j].End? && t.results[j] == t.results[i]
  {
    forall j | i <= j < |t.results| ensures t.results[j].End? && t.results[j] == t.results[i] {
      assert j == i || t.results[j].End?;
    }
  }

  /** Open discipline: openCh never carries a second value, and what it carries is nil
      exactly when the reader's establish or an accepted OPEN, rather than a closer,
      sent it; local IDs of distinct streams differ and are never zero. */
  lemma OpenResultSentOnce(input: seq<Byte>, steps: seq<Step>, sid: nat)
    requires sid < |Exec(Start(input), steps).table|
    ensures var x := Exec(Start(input), steps);
            var t := x.table[sid];
            && |t.s.openCh| == (if t.openedBy == Nobody then 0 else 1)
            && (t.s.remoteID != 0 && !(x.loop.Opening? && x.loop.sid == sid) ==> |t.s.openCh| == 1)
            && (Distinct(x) ==>
                  && (t.openedBy == ByEstablish <==> t.s.openCh == [None])
                  && t.s.localID != 0
                  && forall other :: 0 <= other < |x.table| && x.table[other].s.localID == t.s.localID ==> other == sid)
  {
    Always(input, steps);
    var x := Exec(Start(input), steps);
    assert TrackInv(x.table[sid], Distinct(x)) && RemoteInv(x);
    if Distinct(x) {
      forall other | 0 <= other < |x.table| && x.table[other].s.localID == x.table[sid].s.localID ensures other == sid {
        IdsDistinct(x, other, sid);
      }
      IdsDistinct(x, sid, sid);
    }
    hide Exec, IdInv, OwnerInv, RouteInv;
  }

  /** Nothing that happens later changes a stream's local ID, or its remote ID
      once that is set, or reopens it. */
  lemma {:induction false} IdentityIsStable(x: Mux, steps: seq<Step>, sid: nat)
    requires sid < |x.table|
    ensures |x.table| <= |Exec(x, steps).table|
    ensures var t, u := x.table[sid], Exec(x, steps).table[sid];
            && u.s.localID == t.s.localID
            && (t.s.remoteID != 0 ==> u.s.remoteID == t.s.remoteID)
            && (t.s.closed ==> u.s.closed)
  {
    if |steps| > 0 {
      var before := Exec(x, steps[..|steps| - 1]);
      IdentityIsStable(x, steps[..|steps| - 1], sid);
      StepFrame(before, steps[|steps| - 1], sid);
      MarkedStaysClosed(before.table[sid]);
      hide Apply, Marked;
    }
  }

  lemma MarkedStaysClosed(t: Track)
    ensures forall cause :: Marked(t, cause).s.closed && Marked(t, cause).s.remoteID == t.s.remoteID
  {
  }

  // ---- the send on a closed channel --------------------------------------

  lemma LoopCrashes(x: Mux, ok: bool)
    requires !x.crashed && PlaceInv(x)
    ensures LoopStep(x, ok).crashed <==> x.loop.Delivering? && x.table[x.loop.sid].s.closed
  {
    hide ReadNext, Dispatched, CloseStep, AcceptStep, AllTaken, Created;
    match x.loop
    case Reading => ReadNextFrame(x, ok);
    case Arrived(m) => DispatchedFrame(x, m, ok);
    case Closing(_) => CloseStepFrame(x);
    case Taking(_, _) => CloseStepFrame(x);
    case AwaitClose(_) => CloseStepFrame(x);
    case Accepting(m) => AcceptStepFrame(x, ok); CreatedCrash(x, m.arg0, true);
    case AcceptAcking(_) => AcceptStepFrame(x, ok);
    case Failing => AllTakenFrame(x);
    case _ =>
  }

  lemma CreatedCrash(x: Mux, remoteID: U32, accepted: bool)
    ensures Created(x, remoteID, accepted).crashed == x.crashed
  {
  }

  /** The reader crashes exactly when it delivers to a stream that was closed
      since the lookup, and then the closer is Close or Connection.Close, never
      the peer. */
  lemma CrashCondition(input: seq<Byte>, steps: seq<Step>, step: Step)
    requires !Exec(Start(input), steps).crashed
    ensures var x := Exec(Start(input), steps);
            && (x.loop.Delivering? ==> x.loop.sid < |x.table|)
            && (Apply(x, step).crashed <==>
                  step.Loop? && x.loop.Delivering? && x.table[x.loop.sid].s.closed)
            && (Apply(x, step).crashed ==>
                  x.table[x.loop.sid].closer.Some? && External(x.table[x.loop.sid].closer.value))
  {
    Always(input, steps);
    var x := Exec(Start(input), steps);
    hide Exec;
    if x.loop.Delivering? {
      assert TrackInv(x.table[x.loop.sid], Distinct(x));
      assert Routing(x.loop, x.loop.sid);
    }
    hide OwnerInv, InputInv, IdInv, RemoteInv, RouteInv, Conserved, EndsLast, OpenedRight;
    if step.Loop? {
      LoopCrashes(x, step.ok);
    } else {
      OthersKeepPlace(x, step);
    }
    hide LoopStep;
  }
}
