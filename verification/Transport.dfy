/** The byte transports of the program, which may read and write short, and the
    message loops of protocol/message.go that run over them. */
module Transport {
  import opened Bytes
  import opened Framing

  datatype WriteError = WriteFailed | ShortWrite

  /** An io.Writer: it may take any part of what it is offered, and may fail
      after taking some of it. Failing, and taking nothing, are faults. */
  class Writer {
    var sent: seq<Byte>
    var faults: nat

    constructor ()
      ensures sent == [] && faults == 0
    {
      sent, faults := [], 0;
    }

    method Write(p: seq<Byte>) returns (n: nat, failed: bool)
      modifies this
      ensures n <= |p| && sent == old(sent) + p[..n]
      ensures faults == old(faults) + if failed || (n == 0 && p != []) then 1 else 0
    {
      n :| 0 <= n <= |p|;
      failed := *;
      sent := sent + p[..n];
      if failed || (n == 0 && p != []) {
        faults := faults + 1;
      }
    }
  }

  /** An io.Reader over the bytes its peer sends: a read returns some nonempty
      part of them, and reports end of file only when none are left. Any other
      error is a fault. */
  class Reader {
    var pending: seq<Byte>
    var faults: nat

    constructor (bytes: seq<Byte>)
      ensures pending == bytes && faults == 0
    {
      pending, faults := bytes, 0;
    }

    method Read(max: nat) returns (chunk: seq<Byte>, error: Option<ReadError>)
      requires max > 0
      modifies this
      ensures |chunk| <= max && chunk + pending == old(pending)
      ensures error == None ==> chunk != []
      ensures error == Some(Eof) ==> old(pending) == []
      ensures error in {None, Some(Eof), Some(Broken)}
      ensures faults == old(faults) + if error == Some(Broken) then 1 else 0
    {
      var broken: bool := *;
      if broken {
        faults := faults + 1;
      }
      if pending == [] {
        return [], Some(if broken then Broken else Eof);
      }
      var n: nat :| 0 < n <= max && n <= |pending|;
      chunk := pending[..n];
      pending := pending[n..];
      error := if broken then Some(Broken) else None;
      assert chunk + pending == old(pending);
    }
  }

  /** writeFull: keeps writing until everything is out, a write fails, or a
      write makes no progress. */
  method WriteFull(w: Writer, p: seq<Byte>) returns (error: Option<WriteError>)
    modifies w
    ensures old(w.sent) <= w.sent <= old(w.sent) + p
    ensures error == None ==> w.sent == old(w.sent) + p
    ensures error == Some(ShortWrite) ==> w.sent < old(w.sent) + p
    ensures w.faults == old(w.faults) + if error == None then 0 else 1
  {
    var rest := p;
    while |rest| > 0
      invariant |rest| <= |p| && rest == p[|p| - |rest|..]
      invariant w.sent == old(w.sent) + p[..|p| - |rest|] && w.faults == old(w.faults)
      decreases |rest|
    {
      var n, failed := w.Write(rest);
      assert p[..|p| - |rest|] + rest[..n] == p[..|p| - |rest| + n];
      if failed {
        return Some(WriteFailed);
      }
      if n == 0 {
        return Some(ShortWrite);
      }
      rest := rest[n..];
    }
    return None;
  }

  /** io.ReadFull: exactly n bytes, or the reason why there are not as many. */
  method ReadFull(r: Reader, n: nat) returns (got: seq<Byte>, error: Option<ReadError>)
    modifies r
    ensures got + r.pending == old(r.pending) && |got| <= n
    ensures error == None ==> |got| == n
    ensures error == Some(Eof) ==> n > 0 && old(r.pending) == []
    ensures error == Some(UnexpectedEof) ==> 0 < |old(r.pending)| < n && r.pending == []
    ensures error in {None, Some(Eof), Some(UnexpectedEof), Some(Broken)}
    ensures r.faults >= old(r.faults) && (error == Some(Broken) ==> r.faults > old(r.faults))
  {
    got := [];
    while |got| < n
      invariant |got| <= n && got + r.pending == old(r.pending) && r.faults >= old(r.faults)
      decreases n - |got|
    {
      var chunk, e := r.Read(n - |got|);
      got := got + chunk;
      if e == Some(Eof) {
        return got, Some(if got == [] then Eof else UnexpectedEof);
      }
      // io.ReadFull ignores an error that comes with the last missing byte
      if e == Some(Broken) && |got| < n {
        return got, Some(Broken);
      }
    }
    return got, None;
  }

  /** The checksum loop, which wraps at 32 bits on every addition. */
  method ComputeChecksum(payload: seq<Byte>) returns (sum: U32)
    ensures sum == Checksum(payload)
  {
    sum := 0;
    for i := 0 to |payload|
      invariant sum == Checksum(payload[..i])
    {
      assert payload[..i + 1][..i] == payload[..i];
      sum := Wrap32(sum + payload[i]);
    }
    assert payload[..|payload|] == payload;
  }

  /** PutUint32 into a header buffer: exactly the four bytes at `at` change. */
  method PutUint32(header: array<Byte>, at: nat, n: U32)
    requires at + 4 <= header.Length
    modifies header
    ensures header[at..at + 4] == Le32(n)
    ensures forall j :: 0 <= j < header.Length && !(at <= j < at + 4) ==> header[j] == old(header[j])
  {
    header[at] := ByteOf(n, 0);
    header[at + 1] := ByteOf(n, 1);
    header[at + 2] := ByteOf(n, 2);
    header[at + 3] := ByteOf(n, 3);
  }

  /** WriteMessage: on success exactly one encoded message has gone out; on
      failure, some part of one. */
  method WriteMessage(w: Writer, m: Message) returns (error: Option<WriteError>)
    modifies w
    ensures old(w.sent) <= w.sent <= old(w.sent) + Encode(m)
    ensures error == None ==> w.sent == old(w.sent) + Encode(m)
    ensures w.faults == old(w.faults) + if error == None then 0 else 1
  {
    var checksum := ComputeChecksum(m.payload);
    var header := new Byte[HEADER_LEN](i => 0);
    PutUint32(header, 0, m.command);
    PutUint32(header, 4, m.arg0);
    PutUint32(header, 8, m.arg1);
    PutUint32(header, 12, Wrap32(|m.payload|));
    PutUint32(header, 16, checksum);
    PutUint32(header, 20, Magic(m.command));
    HeaderBuffer(header[..], m);
    error := WriteFull(w, header[..]);
    if error != None {
      return;
    }
    ghost var mid := w.sent;
    error := WriteFull(w, m.payload);
    assert old(w.sent) + Encode(m) == mid + m.payload;
  }

  lemma HeaderBuffer(h: seq<Byte>, m: Message)
    requires |h| == HEADER_LEN
    requires h[0..4] == Le32(m.command) && h[4..8] == Le32(m.arg0) && h[8..12] == Le32(m.arg1)
    requires h[12..16] == Le32(Wrap32(|m.payload|)) && h[16..20] == Le32(Checksum(m.payload))
    requires h[20..24] == Le32(Magic(m.command))
    ensures h == Header(m)
  {
    hide Checksum, Magic, Wrap32;
    forall i | 0 <= i < 6 ensures Field(h, i) == Word(m, i) {
      Le32RoundTrip(Word(m, i));
    }
    HeaderOfFields(h, m);
  }

  /** ReadMessage: unless the transport breaks, the result and the bytes left
      do not depend on how the input was cut into reads. */
  method ReadMessage(r: Reader) returns (result: Decoded)
    modifies r
    ensures result.rest == r.pending
    ensures result == Decode(old(r.pending)) || (result.Rejected? && result.error == Broken)
    ensures r.faults == old(r.faults) ==> result == Decode(old(r.pending))
    ensures r.faults >= old(r.faults)
    ensures |r.pending| <= |old(r.pending)|
  {
    hide Field, Checksum;
    var header, e := ReadFull(r, HEADER_LEN);
    if e != None {
      return Rejected(e.value, r.pending);
    }
    var body := r.pending;
    assert header == old(r.pending)[..HEADER_LEN] && body == old(r.pending)[HEADER_LEN..];
    if Field(header, 5) != Magic(Field(header, 0)) {
      return Rejected(BadMagic, r.pending);
    }
    var length := Field(header, 3);
    var payload, e2 := ReadFull(r, length);
    if e2 != None {
      return Rejected(e2.value, r.pending);
    }
    assert payload == body[..length] && r.pending == body[length..];
    var got := ComputeChecksum(payload);
    if got != Field(header, 4) {
      return Rejected(BadChecksum, r.pending);
    }
    return Accepted(Message(Field(header, 0), Field(header, 1), Field(header, 2), payload), r.pending);
  }
}
