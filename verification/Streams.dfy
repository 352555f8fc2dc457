/** Streams of protocol/stream.go: what one stream holds, what each of its
    critical sections does, and the Stream and Connection objects themselves. */
module Streams {
  import opened Bytes
  import opened Framing
  import opened Transport

  const QUEUE_CAPACITY := 16

  datatype StreamError = EndOfFile | ClosedPipe | DeviceClosed | AckFailed

  /** The fields of a Stream. A closed stream has also closed its data channel,
      because both happen in one critical section. */
  datatype StreamState = StreamState(
    localID: U32,
    remoteID: U32,
    openDone: bool,                        // openOnce has run
    openCh: seq<Option<StreamError>>,    // values sent on openCh; None is nil
    buf: seq<Byte>,
    closed: bool,
    err: Option<StreamError>,
    queue: seq<seq<Byte>>)               // chunks in dataCh, oldest first

  function NewState(localID: U32, remoteID: U32): StreamState {
    StreamState(localID, remoteID, false, [], [], false, None, [])
  }

  function SetRemote(s: StreamState, remoteID: U32): StreamState {
    if s.remoteID == 0 then s.(remoteID := remoteID) else s
  }

  function OpenOnce(s: StreamState, result: Option<StreamError>): StreamState {
    if s.openDone then s else s.(openDone := true, openCh := s.openCh + [result])
  }

  function Established(s: StreamState, remoteID: U32): StreamState {
    OpenOnce(SetRemote(s, remoteID), None)
  }

  function MarkClosed(s: StreamState, err: Option<StreamError>): StreamState {
    if s.closed then s else s.(closed := true, err := err)
  }

  function ClosedWith(s: StreamState, err: Option<StreamError>): StreamState {
    if s.closed then s else OpenOnce(MarkClosed(s, err), err)
  }

  function Enqueued(s: StreamState, chunk: seq<Byte>): StreamState {
    s.(queue := s.queue + [chunk])
  }

  /** Establishing gives a stream its remote ID once, and the open result nil once. */
  lemma EstablishedMeaning(s: StreamState, remoteID: U32)
    ensures var t := Established(s, remoteID);
            && t.remoteID == (if s.remoteID != 0 then s.remoteID else remoteID)
            && t.openDone && t.openCh == (if s.openDone then s.openCh else s.openCh + [None])
            && t == s.(remoteID := t.remoteID, openDone := true, openCh := t.openCh)
  {
  }

  /** Closing an open stream leaves the error, and sends it when no open result was sent. */
  lemma ClosedMeaning(s: StreamState, err: Option<StreamError>)
    ensures var t := ClosedWith(s, err);
            && t.closed
            && (s.closed ==> t == s)
            && (!s.closed ==> t.err == err && t.openDone && t.openCh == if s.openDone then s.openCh else s.openCh + [err])
            && t == s.(closed := true, err := t.err, openDone := t.openDone, openCh := t.openCh)
  {
  }

  /** The message a Write sends, if the stream lets it send one. */
  function WrittenMessage(s: StreamState, p: seq<Byte>): Option<Message> {
    if s.closed || s.remoteID == 0 then None else Some(Message(WRTE, s.localID, s.remoteID, p))
  }

  /** A stream that is opened, established by the peer and written to sends the bytes
      to the ID the peer named; before that, and after a close, it sends nothing. */
  lemma EstablishedWrites(localID: U32, r: U32, p: seq<Byte>, err: Option<StreamError>)
    requires r != 0
    ensures WrittenMessage(NewState(localID, 0), p) == None
    ensures WrittenMessage(Established(NewState(localID, 0), r), p) == Some(Message(WRTE, localID, r, p))
    ensures WrittenMessage(ClosedWith(Established(NewState(localID, 0), r), err), p) == None
  {
  }

  /** Bytes accepted by the stream that no Read has taken yet. */
  function Unread(s: StreamState): seq<Byte> {
    s.buf + Flat(s.queue)
  }

  /** What Read reports for a stream whose err field is err. */
  function Ending(err: Option<StreamError>): StreamError {
    match err
    case None => EndOfFile
    case Some(e) => e
  }

  datatype ReadResult = Data(bytes: seq<Byte>) | End(error: StreamError)

  datatype SendOutcome = Sent | WouldBlock | Panics

  class Stream {
    const localID: U32
    var remoteID: U32
    var openDone: bool
    var openCh: seq<Option<StreamError>>
    var buf: seq<Byte>
    var closed: bool
    var err: Option<StreamError>
    var dataCh: seq<seq<Byte>>

    function Value(): StreamState
      reads this
    {
      StreamState(localID, remoteID, openDone, openCh, buf, closed, err, dataCh)
    }

    constructor (localID: U32, remoteID: U32)
      ensures Value() == NewState(localID, remoteID)
    {
      this.localID := localID;
      this.remoteID := remoteID;
      openDone, openCh := false, [];
      buf, closed, err, dataCh := [], false, None, [];
    }

    method SendOpenResult(result: Option<StreamError>)
      modifies this`openDone, this`openCh
      ensures Value() == OpenOnce(old(Value()), result)
      ensures openDone && openCh == if old(openDone) then old(openCh) else old(openCh) + [result]
    {
      if !openDone {
        openDone := true;
        openCh := openCh + [result];
      }
    }

    method Establish(remote: U32)
      modifies this
      ensures Value() == Established(old(Value()), remote)
      ensures remoteID == if old(remoteID) != 0 then old(remoteID) else remote
      ensures openDone && openCh == if old(openDone) then old(openCh) else old(openCh) + [None]
    {
      if remoteID == 0 {
        remoteID := remote;
      }
      SendOpenResult(None);
    }

    /** A send on dataCh: it panics on a closed channel and waits on a full one. */
    method Receive(payload: seq<Byte>) returns (outcome: SendOutcome)
      modifies this`dataCh
      ensures outcome == if closed then Panics else if |old(dataCh)| >= QUEUE_CAPACITY then WouldBlock else Sent
      ensures Value() == if outcome == Sent then Enqueued(old(Value()), payload) else old(Value())
    {
      if closed {
        return Panics;
      }
      if |dataCh| >= QUEUE_CAPACITY {
        return WouldBlock;
      }
      dataCh := dataCh + [payload];
      return Sent;
    }

    method CloseWithError(e: Option<StreamError>)
      modifies this
      ensures Value() == ClosedWith(old(Value()), e)
      ensures closed && (old(closed) ==> err == old(err) && openCh == old(openCh))
      ensures !old(closed) ==> err == e && openDone && openCh == if old(openDone) then old(openCh) else old(openCh) + [e]
    {
      if closed {
        return;
      }
      closed := true;
      err := e;
      SendOpenResult(e);
    }

    /** Read with nobody else acting on the stream. It returns data exactly when
        some is left, takes it from the front, and otherwise ends, or waits for
        a chunk or a close (None). */
    method Read(max: nat) returns (r: Option<ReadResult>)
      modifies this`buf, this`dataCh
      ensures var s, t := old(Value()), Value();
              && t == s.(buf := t.buf, queue := t.queue)
              && (match r
                  case Some(Data(bytes)) =>
                    && Unread(s) != [] && bytes + Unread(t) == Unread(s)
                    && (|bytes| == max || (bytes != [] && |bytes| < max && t.buf == []))
                  case Some(End(e)) =>
                    Unread(s) == [] && s.closed && e == Ending(s.err) && t.buf == [] && t.queue == []
                  case None =>
                    Unread(s) == [] && !s.closed && t.buf == [] && t.queue == [])
    {
      while true
        invariant Unread(Value()) == old(Unread(Value()))
        decreases |dataCh|
      {
        if |buf| > 0 {
          var n := if max < |buf| then max else |buf|;
          var bytes := buf[..n];
          buf := buf[n..];
          assert bytes + (buf + Flat(dataCh)) == old(Unread(Value()));
          return Some(Data(bytes));
        }
        if closed {
          if |dataCh| == 0 {
            return Some(End(Ending(err)));
          }
        } else if |dataCh| == 0 {
          return None;
        }
        var chunk := dataCh[0];
        dataCh := dataCh[1..];
        buf := buf + chunk;
      }
    }

    /** Write refuses a closed or unestablished stream, and otherwise sends one
        WRTE message whatever the length of p. */
    method Write(w: Writer, p: seq<Byte>) returns (n: nat, error: Option<StreamError>, sendError: Option<WriteError>)
      modifies w
      ensures (closed || remoteID == 0) <==> error == Some(ClosedPipe)
      ensures WrittenMessage(Value(), p).None? <==> error == Some(ClosedPipe)
      ensures error == None ==> w.sent == old(w.sent) + Encode(WrittenMessage(Value(), p).value)
      ensures error == Some(ClosedPipe) ==> n == 0 && w.sent == old(w.sent)
      ensures error == None ==> n == |p| && w.sent == old(w.sent) + Encode(Message(WRTE, localID, remoteID, p))
      ensures error == Some(AckFailed) ==>
                n == 0 && w.faults > old(w.faults)
                && old(w.sent) <= w.sent <= old(w.sent) + Encode(Message(WRTE, localID, remoteID, p))
      ensures error in {None, Some(ClosedPipe), Some(AckFailed)}
    {
      if closed || remoteID == 0 {
        return 0, Some(ClosedPipe), None;
      }
      sendError := WriteMessage(w, Message(WRTE, localID, remoteID, p));
      if sendError != None {
        return 0, Some(AckFailed), sendError;
      }
      return |p|, None, None;
    }
  }

  /** What a routed message does to the stream it names. */
  function Routed(s: StreamState, m: Message): StreamState {
    if m.command == OKAY then Established(s, m.arg0)
    else if m.command == WRTE then Enqueued(Established(s, m.arg0), m.payload)
    else if m.command == CLSE then ClosedWith(s, CloseReason(s))
    else s
  }

  /** The error a peer's CLSE leaves behind: none once the stream was established. */
  function CloseReason(s: StreamState): Option<StreamError> {
    if s.remoteID != 0 then None else Some(DeviceClosed)
  }

  function TrimNul(payload: seq<Byte>): seq<Byte> {
    if payload != [] && payload[|payload| - 1] == 0 then payload[..|payload| - 1] else payload
  }

  /** A service is matched without one trailing NUL: a handler registered for a name
      is found by an OPEN of the name with its NUL. */
  lemma NulIsTrimmed(service: seq<Byte>, handlers: map<seq<Byte>, nat>, handler: nat)
    requires service == [] || service[|service| - 1] != 0
    ensures TrimNul(service) == service && TrimNul(service + [0]) == service
    ensures var registered := handlers[TrimNul(service) := handler];
            TrimNul(service + [0]) in registered && registered[TrimNul(service + [0])] == handler
  {
  }

  class Connection {
    var streams: map<U32, Stream>
    var nextLocalID: U32
    var openHandlers: map<seq<Byte>, nat>    // handlers by service, each named by a number
    var readerStarted: bool
    var readerErr: Option<ReadError>
    const writer: Writer

    constructor (writer: Writer)
      ensures Valid() && streams == map[] && openHandlers == map[] && this.writer == writer
      ensures !readerStarted && readerErr == None
    {
      streams, nextLocalID, openHandlers := map[], 0, map[];
      readerStarted, readerErr := false, None;
      this.writer := writer;
    }

    /** Every stream in the table is open and is stored under its own ID. */
    ghost predicate Valid()
      reads this, streams.Values
    {
      forall id :: id in streams ==> streams[id].localID == id && !streams[id].closed
    }

    /** A nil handler removes the service; any other is stored for it and starts the
        reader, whose earlier failure is then reported. */
    method HandleOpen(service: seq<Byte>, handler: Option<nat>) returns (error: Option<ReadError>)
      requires Valid()
      modifies this`openHandlers, this`readerStarted
      ensures Valid()
      ensures openHandlers == if handler.Some? then old(openHandlers)[TrimNul(service) := handler.value]
                              else old(openHandlers) - {TrimNul(service)}
      ensures readerStarted == (old(readerStarted) || handler.Some?)
      ensures error == if handler.Some? && old(readerStarted) then readerErr else None
    {
      if handler.None? {
        openHandlers := openHandlers - {TrimNul(service)};
        return None;
      }
      openHandlers := openHandlers[TrimNul(service) := handler.value];
      error := StartReader();
    }

    method StartReader() returns (error: Option<ReadError>)
      requires Valid()
      modifies this`readerStarted
      ensures Valid() && readerStarted && error == if old(readerStarted) then readerErr else None
    {
      if readerStarted {
        return readerErr;
      }
      readerStarted := true;
      return None;
    }

    method RemoveOpenHandler(service: seq<Byte>)
      requires Valid()
      modifies this`openHandlers
      ensures Valid() && openHandlers == old(openHandlers) - {TrimNul(service)}
    {
      openHandlers := openHandlers - {TrimNul(service)};
    }

    method NewStreamLocked(remoteID: U32) returns (s: Stream)
      requires Valid()
      modifies this`streams, this`nextLocalID
      ensures Valid() && fresh(s)
      ensures nextLocalID == Wrap32(old(nextLocalID) + 1)
      ensures s.Value() == NewState(nextLocalID, remoteID)
      ensures streams == old(streams)[nextLocalID := s]
    {
      nextLocalID := Wrap32(nextLocalID + 1);
      s := new Stream(nextLocalID, remoteID);
      streams := streams[nextLocalID := s];
    }

    method NewAcceptedStream(remoteID: U32) returns (s: Stream)
      requires Valid()
      modifies this`streams, this`nextLocalID
      ensures Valid() && fresh(s)
      ensures nextLocalID == Wrap32(old(nextLocalID) + 1)
      ensures s.Value() == OpenOnce(NewState(nextLocalID, remoteID), None)
      ensures streams == old(streams)[nextLocalID := s]
    {
      s := NewStreamLocked(remoteID);
      s.SendOpenResult(None);
    }

    method RemoveStream(localID: U32)
      requires Valid()
      modifies this`streams
      ensures Valid() && streams == old(streams) - {localID}
    {
      streams := streams - {localID};
    }

    /** closeStream: whoever takes the stream out of the table closes it; a
        second close of the same ID finds nothing. */
    method CloseStream(localID: U32, e: Option<StreamError>)
      requires Valid()
      modifies this`streams, if localID in streams then {streams[localID]} else {}
      ensures Valid() && streams == old(streams) - {localID}
      ensures localID in old(streams) ==>
                var s := old(streams)[localID];
                s.Value() == ClosedWith(old(s.Value()), e) && s.closed && s.err == e
    {
      if localID in streams {
        var s := streams[localID];
        streams := streams - {localID};
        s.CloseWithError(e);
      } else {
        streams := streams - {localID};
      }
    }

    /** closeAllStreams: the table is replaced by an empty one, and every stream
        that was in it is closed. */
    method CloseAllStreams(e: Option<StreamError>)
      requires Valid()
      modifies this`streams, streams.Values
      ensures Valid() && streams == map[]
      ensures forall id :: id in old(streams) ==>
                old(streams)[id].Value() == ClosedWith(old(streams[id].Value()), e)
    {
      var taken := streams;
      streams := map[];
      var ids := taken.Keys;
      while ids != {}
        invariant ids <= taken.Keys && streams == map[]
        invariant forall id :: id in taken ==> taken[id].localID == id
        invariant forall id :: id in taken ==>
                    taken[id].Value() == if id in ids then old(taken[id].Value()) else ClosedWith(old(taken[id].Value()), e)
        decreases ids
      {
        var id :| id in ids;
        ids := ids - {id};
        taken[id].CloseWithError(e);
      }
    }

    /** Stream.Close: CLSE goes out only from an open, established stream; whatever
        stream is stored under its ID is closed and leaves the table. */
    method Close(s: Stream) returns (sendError: Option<WriteError>)
      requires Valid()
      modifies this`streams, writer, if s.localID in streams then {streams[s.localID]} else {}
      ensures Valid() && streams == old(streams) - {s.localID}
      ensures s.localID in old(streams) ==>
                old(streams)[s.localID].Value() == ClosedWith(old(streams[s.localID].Value()), Some(ClosedPipe))
      ensures old(writer.sent) <= writer.sent
                <= old(writer.sent) + Encode(Message(CLSE, s.localID, old(s.remoteID), []))
      ensures old(s.closed) || old(s.remoteID) == 0 ==> writer.sent == old(writer.sent)
      ensures !old(s.closed) && old(s.remoteID) != 0 && sendError == None ==>
                writer.sent == old(writer.sent) + Encode(Message(CLSE, s.localID, old(s.remoteID), []))
    {
      sendError := None;
      if !s.closed && s.remoteID != 0 {
        sendError := WriteMessage(writer, Message(CLSE, s.localID, s.remoteID, []));
      }
      CloseStream(s.localID, Some(ClosedPipe));
    }

    /** handleStreamMessage for every command but OPEN: only the stream named by
        arg1 changes, and only WRTE is answered. A message for an ID that is not
        in the table has no effect at all. */
    method HandleStreamMessage(m: Message) returns (outcome: SendOutcome, sendError: Option<WriteError>)
      requires Valid() && m.command != OPEN
      modifies this`streams, writer, if m.arg1 in streams then {streams[m.arg1]} else {}
      ensures Valid()
      ensures streams == if m.command == CLSE then old(streams) - {m.arg1} else old(streams)
      ensures m.arg1 !in old(streams) || m.command != WRTE ==> writer.sent == old(writer.sent) && outcome == Sent
      ensures m.arg1 in old(streams) ==>
                var s := old(streams)[m.arg1];
                && outcome != Panics
                && (outcome == Sent ==> s.Value() == Routed(old(s.Value()), m))
                && (m.command in {OKAY, WRTE} ==>
                      && s.remoteID == (if old(s.remoteID) != 0 then old(s.remoteID) else m.arg0)
                      && s.openDone && s.openCh == if old(s.openDone) then old(s.openCh) else old(s.openCh) + [None])
                && (m.command == WRTE && outcome == Sent ==> s.dataCh == old(s.dataCh) + [m.payload])
                && (m.command == CLSE ==>
                      && s.closed && s.err == (if old(s.remoteID) != 0 then None else Some(DeviceClosed))
                      && s.openDone && s.openCh == if old(s.openDone) then old(s.openCh) else old(s.openCh) + [s.err])
                && (outcome == WouldBlock ==>
                      |old(s.dataCh)| >= QUEUE_CAPACITY && s.Value() == Established(old(s.Value()), m.arg0))
                && (m.command == WRTE ==>
                      old(writer.sent) <= writer.sent <= old(writer.sent) + Encode(Message(OKAY, m.arg1, m.arg0, [])))
                && (m.command == WRTE && sendError == None ==>
                      writer.sent == old(writer.sent) + Encode(Message(OKAY, m.arg1, m.arg0, [])))
    {
      outcome, sendError := Sent, None;
      if m.arg1 !in streams {
        if m.command == CLSE {
          assert streams == streams - {m.arg1};
        }
        return;
      }
      var s := streams[m.arg1];
      if m.command == OKAY {
        s.Establish(m.arg0);
      } else if m.command == WRTE {
        s.Establish(m.arg0);
        sendError := WriteMessage(writer, Message(OKAY, s.localID, m.arg0, []));
        outcome := s.Receive(m.payload);
      } else if m.command == CLSE {
        CloseStream(s.localID, if s.remoteID != 0 then None else Some(DeviceClosed));
      }
    }

    /** handlePeerOpen: without a handler the peer gets CLSE and nothing is
        created; with one, an accepted stream is acknowledged, and a failed
        acknowledgement takes it straight back out of the table. */
    method HandlePeerOpen(m: Message) returns (accepted: Option<Stream>, sendError: Option<WriteError>, ghost made: Option<Stream>)
      requires Valid() && m.command == OPEN
      modifies this`streams, this`nextLocalID, writer
      ensures Valid()
      ensures accepted.Some? <==> TrimNul(m.payload) in openHandlers && sendError == None
      ensures TrimNul(m.payload) !in openHandlers ==> streams == old(streams) && nextLocalID == old(nextLocalID)
      ensures TrimNul(m.payload) !in openHandlers && sendError == None ==>
                writer.sent == old(writer.sent) + Encode(Message(CLSE, 0, m.arg0, []))
      ensures accepted.Some? ==>
                && fresh(accepted.value)
                && streams == old(streams)[nextLocalID := accepted.value]
                && accepted.value.Value() == OpenOnce(NewState(nextLocalID, m.arg0), None)
                && writer.sent == old(writer.sent) + Encode(Message(OKAY, nextLocalID, m.arg0, []))
      ensures TrimNul(m.payload) in openHandlers && accepted == None ==>
                && streams == old(streams) - {nextLocalID}
                && made.Some? && fresh(made.value) && made.value.localID == nextLocalID
                && made.value.closed && made.value.err == Some(AckFailed) && made.value.remoteID == m.arg0
                && old(writer.sent) <= writer.sent <= old(writer.sent) + Encode(Message(OKAY, nextLocalID, m.arg0, []))
      ensures TrimNul(m.payload) in openHandlers ==> nextLocalID == Wrap32(old(nextLocalID) + 1)
    {
      if TrimNul(m.payload) !in openHandlers {
        sendError := WriteMessage(writer, Message(CLSE, 0, m.arg0, []));
        return None, sendError, None;
      }
      var s := NewAcceptedStream(m.arg0);
      sendError := WriteMessage(writer, Message(OKAY, s.localID, m.arg0, []));
      if sendError != None {
        CloseStream(s.localID, Some(AckFailed));
        return None, sendError, Some(s);
      }
      return Some(s), None, Some(s);
    }
  }
}
