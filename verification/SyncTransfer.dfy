/** Pushing and pulling one file over the sync: service: what goes over the wire,
    what a device makes of it, and that neither depends on how reads and writes
    are cut. */
module SyncTransfer {
  import opened Bytes
  import opened Framing
  import opened Transport

  const SEND: seq<Byte> := [0x53, 0x45, 0x4e, 0x44]
  const RECV: seq<Byte> := [0x52, 0x45, 0x43, 0x56]
  const DATA: seq<Byte> := [0x44, 0x41, 0x54, 0x41]
  const DONE: seq<Byte> := [0x44, 0x4f, 0x4e, 0x45]
  const OKAY_ID: seq<Byte> := [0x4f, 0x4b, 0x41, 0x59]
  const FAIL: seq<Byte> := [0x46, 0x41, 0x49, 0x4c]

  const SYNC_DATA_MAX := 4096
  const COMMA: Byte := 0x2c

  /** ",420": the default mode, octal 644, in decimal. */
  const MODE_SUFFIX: seq<Byte> := [COMMA, 0x34, 0x32, 0x30]

  // ---- records -----------------------------------------------------------

  function SyncHeader(id: seq<Byte>, size: U32): (h: seq<Byte>)
    requires |id| == 4
    ensures |h| == 8
  {
    id + Le32(size)
  }

  function Request(id: seq<Byte>, payload: seq<Byte>): seq<Byte>
    requires |id| == 4
  {
    SyncHeader(id, Wrap32(|payload|)) + payload
  }

  function DataRecords(chunks: seq<seq<Byte>>): seq<Byte> {
    if |chunks| == 0 then [] else Request(DATA, chunks[0]) + DataRecords(chunks[1..])
  }

  /** The DONE size of a push: the modification time, not before the epoch, as a
      32-bit number. */
  function DoneTime(mtime: int): U32 {
    Wrap32(if mtime < 0 then 0 else mtime)
  }

  /** A push up to its DONE record. */
  function PushHead(path: seq<Byte>, chunks: seq<seq<Byte>>): seq<Byte> {
    Request(SEND, path + MODE_SUFFIX) + DataRecords(chunks)
  }

  function PushBytes(path: seq<Byte>, chunks: seq<seq<Byte>>, mtime: int): seq<Byte> {
    PushHead(path, chunks) + SyncHeader(DONE, DoneTime(mtime))
  }

  datatype Header = Header(id: seq<Byte>, size: U32)

  function HeaderOf(s: seq<Byte>): Header
    requires |s| >= 8
  {
    Header(s[..4], FromLe32(s[4..8]))
  }

  /** A record on the wire: four bytes of ID, the size with its lowest byte first, and
      the payload. */
  lemma RecordLayout(id: seq<Byte>, payload: seq<Byte>)
    requires |id| == 4
    ensures var r, n := Request(id, payload), |payload| % TWO32;
            && |r| == 8 + |payload| && r[..4] == id && r[8..] == payload
            && r[4] as int + 0x100 * r[5] as int + 0x1_0000 * r[6] as int + 0x100_0000 * r[7] as int == n
  {
    Le32RoundTrip(Wrap32(|payload|));
    var r := Request(id, payload);
    assert r[4..8] == Le32(Wrap32(|payload|));
    assert r[4] == Le32(Wrap32(|payload|))[0] && r[5] == Le32(Wrap32(|payload|))[1];
    assert r[6] == Le32(Wrap32(|payload|))[2] && r[7] == Le32(Wrap32(|payload|))[3];
  }

  /** The IDs and the mode, as the text they are. */
  lemma NamesAreText()
    ensures Text(SEND) == "SEND" && Text(RECV) == "RECV" && Text(DATA) == "DATA" && Text(DONE) == "DONE"
    ensures Text(OKAY_ID) == "OKAY" && Text(FAIL) == "FAIL" && Text(MODE_SUFFIX) == ",420"
  {
  }

  function Text(s: seq<Byte>): string {
    seq(|s|, i requires 0 <= i < |s| => s[i] as char)
  }

  lemma HeaderRoundTrip(id: seq<Byte>, size: U32, rest: seq<Byte>)
    requires |id| == 4
    ensures HeaderOf(SyncHeader(id, size) + rest) == Header(id, size)
    ensures (SyncHeader(id, size) + rest)[8..] == rest
  {
    var s := SyncHeader(id, size) + rest;
    assert s[..4] == id && s[4..8] == Le32(size);
    Le32RoundTrip(size);
  }

  lemma RequestRoundTrip(id: seq<Byte>, payload: seq<Byte>, rest: seq<Byte>)
    requires |id| == 4 && |payload| < TWO32
    ensures var s := Request(id, payload) + rest;
            && |s| >= 8 + |payload| && HeaderOf(s) == Header(id, |payload|)
            && s[8..8 + |payload|] == payload && s[8 + |payload|..] == rest
  {
    HeaderRoundTrip(id, |payload|, payload + rest);
    assert Request(id, payload) + rest == SyncHeader(id, |payload|) + (payload + rest);
  }

  lemma HeaderIsBytes(s: seq<Byte>)
    requires |s| >= 8
    ensures s == SyncHeader(HeaderOf(s).id, HeaderOf(s).size) + s[8..]
  {
    FromLe32RoundTrip(s[4..8]);
    assert s == s[..4] + s[4..8] + s[8..];
  }

  // ---- the device's side of a push ---------------------------------------

  datatype Upload = Upload(path: seq<Byte>, mode: nat, content: seq<Byte>, mtime: U32)

  /** The DATA records up to DONE, with DONE's size and what follows. */
  function DecodeRecords(s: seq<Byte>): Option<(seq<Byte>, U32, seq<Byte>)>
    decreases |s|
  {
    if |s| < 8 then None
    else
      var h := HeaderOf(s);
      if h.id == DONE then Some(([], h.size, s[8..]))
      else if h.id != DATA || |s| < 8 + h.size then None
      else
        match DecodeRecords(s[8 + h.size..])
        case None => None
        case Some((content, time, rest)) => Some((s[8..8 + h.size] + content, time, rest))
  }

  /** The index of the last comma, if there is one. */
  function LastComma(s: seq<Byte>): (r: Option<nat>)
    ensures r.Some? ==> r.value < |s| && s[r.value] == COMMA && forall j :: r.value < j < |s| ==> s[j] != COMMA
    ensures r.None? ==> COMMA !in s
  {
    if |s| == 0 then None
    else if s[|s| - 1] == COMMA then Some(|s| - 1)
    else LastComma(s[..|s| - 1])
  }

  function Decimal(s: seq<Byte>): Option<nat> {
    if |s| == 0 then Some(0)
    else
      match Decimal(s[..|s| - 1])
      case None => None
      case Some(n) =>
        var d := s[|s| - 1] as int;
        if 0x30 <= d <= 0x39 then Some(10 * n + d - 0x30) else None
  }

  /** The path and the mode, which are cut at the last comma. */
  function DecodeName(name: seq<Byte>): (r: Option<(seq<Byte>, nat)>)
    ensures r.Some? ==> |r.value.0| < |name|
  {
    match LastComma(name)
    case None => None
    case Some(k) =>
      match Decimal(name[k + 1..])
      case None => None
      case Some(mode) => Some((name[..k], mode))
  }

  function DecodeUpload(s: seq<Byte>): Option<(Upload, seq<Byte>)> {
    if |s| < 8 then None
    else
      var h := HeaderOf(s);
      if h.id != SEND || |s| < 8 + h.size then None
      else
        match DecodeName(s[8..8 + h.size])
        case None => None
        case Some((path, mode)) =>
          match DecodeRecords(s[8 + h.size..])
          case None => None
          case Some((content, time, rest)) => Some((Upload(path, mode, content, time), rest))
  }

  ghost predicate FittingChunks(chunks: seq<seq<Byte>>) {
    forall i :: 0 <= i < |chunks| ==> |chunks[i]| < TWO32
  }

  lemma {:induction false} RecordsRoundTrip(chunks: seq<seq<Byte>>, time: U32, rest: seq<Byte>)
    requires FittingChunks(chunks)
    ensures DecodeRecords(DataRecords(chunks) + SyncHeader(DONE, time) + rest) == Some((Flat(chunks), time, rest))
  {
    if |chunks| == 0 {
      assert DataRecords(chunks) + SyncHeader(DONE, time) + rest == SyncHeader(DONE, time) + rest;
      HeaderRoundTrip(DONE, time, rest);
    } else {
      var tail := DataRecords(chunks[1..]) + SyncHeader(DONE, time) + rest;
      assert DataRecords(chunks) + SyncHeader(DONE, time) + rest == Request(DATA, chunks[0]) + tail;
      RequestRoundTrip(DATA, chunks[0], tail);
      RecordsRoundTrip(chunks[1..], time, rest);
    }
    hide Request, SyncHeader, HeaderOf;
  }

  lemma NameRoundTrip(path: seq<Byte>)
    ensures DecodeName(path + MODE_SUFFIX) == Some((path, 420))
  {
    hide LastComma, Decimal;
    LastCommaOf(path, [0x34, 0x32, 0x30]);
    NameTail(path);
    DefaultMode();
    assert (path + MODE_SUFFIX)[..|path|] == path;
  }

  lemma {:induction false} LastCommaOf(path: seq<Byte>, tail: seq<Byte>)
    requires COMMA !in tail
    ensures LastComma(path + [COMMA] + tail) == Some(|path|)
    decreases |tail|
  {
    var s := path + [COMMA] + tail;
    if |tail| == 0 {
      assert s[|s| - 1] == COMMA;
    } else {
      assert s[|s| - 1] == tail[|tail| - 1];
      assert s[..|s| - 1] == path + [COMMA] + tail[..|tail| - 1];
      LastCommaOf(path, tail[..|tail| - 1]);
    }
  }

  lemma NameTail(path: seq<Byte>)
    ensures (path + MODE_SUFFIX)[|path| + 1..] == [0x34, 0x32, 0x30]
    ensures path + MODE_SUFFIX == path + [COMMA] + [0x34, 0x32, 0x30]
  {
  }

  lemma DefaultMode()
    ensures Decimal([0x34, 0x32, 0x30]) == Some(420)
  {
    var d: seq<Byte> := [0x34, 0x32, 0x30];
    assert d[..2] == [0x34, 0x32] && d[..2][..1] == [0x34] && d[..2][..1][..0] == [];
    assert Decimal(d[..2][..1]) == Some(4);
    assert Decimal(d[..2]) == Some(42);
  }

  /** Main result. A device reads a push back as the path, mode 420, the content and
      the modification time, whatever the chunks and whatever follows, exactly when
      the path with its mode fits the 32-bit size field; the time is the file's, or 0
      before the epoch, modulo 2^32. */
  lemma PushRoundTrip(path: seq<Byte>, chunks: seq<seq<Byte>>, mtime: int, rest: seq<Byte>)
    requires FittingChunks(chunks)
    ensures var time := if mtime < 0 then 0 else mtime % TWO32;
            DecodeUpload(PushBytes(path, chunks, mtime) + rest) == Some((Upload(path, 420, Flat(chunks), time), rest))
            <==> |path| + 4 < TWO32
  {
    assert DoneTime(mtime) == if mtime < 0 then 0 else mtime % TWO32;
    hide PushBytes, DecodeUpload;
    if |path| + 4 < TWO32 {
      FittingPush(path, chunks, mtime, rest);
    } else {
      LongPathMisread(path, chunks, mtime, rest);
    }
  }

  lemma PushSplits(path: seq<Byte>, chunks: seq<seq<Byte>>, mtime: int, rest: seq<Byte>)
    ensures PushBytes(path, chunks, mtime) + rest
      == Request(SEND, path + MODE_SUFFIX) + (DataRecords(chunks) + SyncHeader(DONE, DoneTime(mtime)) + rest)
  {
    hide Request, DataRecords, SyncHeader;
    FourParts(Request(SEND, path + MODE_SUFFIX), DataRecords(chunks), SyncHeader(DONE, DoneTime(mtime)), rest);
  }

  lemma FourParts(a: seq<Byte>, b: seq<Byte>, c: seq<Byte>, d: seq<Byte>)
    ensures a + b + c + d == a + (b + c + d)
  {
  }

  /** The parts of an upload. */
  lemma UploadOfParts(s: seq<Byte>, name: seq<Byte>, path: seq<Byte>, mode: nat, content: seq<Byte>, time: U32, rest: seq<Byte>)
    requires |name| < TWO32 && |s| >= 8 + |name| && HeaderOf(s) == Header(SEND, |name|) && s[8..8 + |name|] == name
    requires DecodeName(name) == Some((path, mode)) && DecodeRecords(s[8 + |name|..]) == Some((content, time, rest))
    ensures DecodeUpload(s) == Some((Upload(path, mode, content, time), rest))
  {
    hide HeaderOf, DecodeName, DecodeRecords;
  }

  lemma FittingPush(path: seq<Byte>, chunks: seq<seq<Byte>>, mtime: int, rest: seq<Byte>)
    requires FittingChunks(chunks) && |path| + 4 < TWO32
    ensures DecodeUpload(PushBytes(path, chunks, mtime) + rest) ==
              Some((Upload(path, 420, Flat(chunks), DoneTime(mtime)), rest))
  {
    hide Request, SyncHeader, HeaderOf, DecodeName, DecodeRecords, DecodeUpload, DataRecords, PushBytes;
    var name := path + MODE_SUFFIX;
    var tail := DataRecords(chunks) + SyncHeader(DONE, DoneTime(mtime)) + rest;
    PushSplits(path, chunks, mtime, rest);
    RequestRoundTrip(SEND, name, tail);
    NameRoundTrip(path);
    RecordsRoundTrip(chunks, DoneTime(mtime), rest);
    UploadOfParts(Request(SEND, name) + tail, name, path, 420, Flat(chunks), DoneTime(mtime), rest);
  }

  /** The size field of a longer path has wrapped, and what is read as the path is
      shorter than the path. */
  lemma LongPathMisread(path: seq<Byte>, chunks: seq<seq<Byte>>, mtime: int, rest: seq<Byte>)
    requires |path| + 4 >= TWO32
    ensures var got := DecodeUpload(PushBytes(path, chunks, mtime) + rest);
            got.Some? ==> |got.value.0.path| < |path|
  {
    hide SyncHeader, HeaderOf, DecodeName, DecodeRecords, DataRecords, PushBytes;
    var name := path + MODE_SUFFIX;
    var tail := DataRecords(chunks) + SyncHeader(DONE, DoneTime(mtime)) + rest;
    PushSplits(path, chunks, mtime, rest);
    FourParts(SyncHeader(SEND, Wrap32(|name|)), name, tail, []);
    HeaderRoundTrip(SEND, Wrap32(|name|), name + tail);
    assert Request(SEND, name) + tail == SyncHeader(SEND, Wrap32(|name|)) + (name + tail);
    assert Wrap32(|name|) < |path|;
    hide Request;
  }

  /** The chunks a push has read are small enough, and are the start of the file. */
  ghost predicate ChunksOf(chunks: seq<seq<Byte>>, file: seq<Byte>, left: seq<Byte>) {
    && (forall i :: 0 <= i < |chunks| ==> 0 < |chunks[i]| <= SYNC_DATA_MAX)
    && Flat(chunks) + left == file
  }

  /** However the file was read, the device gets the file. */
  lemma PushedFileArrives(path: seq<Byte>, chunks: seq<seq<Byte>>, file: seq<Byte>, mtime: int)
    requires ChunksOf(chunks, file, []) && |path| + 4 < TWO32
    ensures var time := if mtime < 0 then 0 else mtime % TWO32;
            DecodeUpload(PushBytes(path, chunks, mtime)) == Some((Upload(path, 420, file, time), []))
  {
    hide DecodeUpload, PushBytes;
    PushRoundTrip(path, chunks, mtime, []);
    assert PushBytes(path, chunks, mtime) + [] == PushBytes(path, chunks, mtime);
    assert Flat(chunks) + [] == Flat(chunks);
  }

  // ---- the response to a push --------------------------------------------

  datatype Failure =
    | EmptyPath
    | DestinationExists
    | CreateFailed
    | CloseFailed
    | SendFailed
    | SourceFailed
    | ReadFailed(error: ReadError)
    | CopyFailed
    | CutFailure(error: ReadError)
    | Remote(message: seq<Byte>)
    | Unexpected(id: seq<Byte>)

  datatype Outcome = Success | Failed(why: Failure)

  /** io.ReadFull on n bytes: what stops it, if anything does. */
  function CutError(available: nat, n: nat): Option<ReadError> {
    if available >= n then None else Some(if available == 0 then Eof else UnexpectedEof)
  }

  /** What the bytes after a FAIL header say. */
  function FailOutcome(body: seq<Byte>, size: nat): Outcome {
    match CutError(|body|, size)
    case Some(e) => Failed(CutFailure(e))
    case None => Failed(Remote(body[..size]))
  }

  function Response(s: seq<Byte>): Outcome {
    match CutError(|s|, 8)
    case Some(e) => Failed(ReadFailed(e))
    case None =>
      var h := HeaderOf(s);
      if h.id == OKAY_ID then Success
      else if h.id == FAIL then FailOutcome(s[8..], h.size)
      else Failed(Unexpected(h.id))
  }

  /** A push succeeds exactly when the device answers OKAY, whatever its size field. */
  lemma OkayIsSuccess(s: seq<Byte>)
    ensures Response(s) == Success <==> |s| >= 8 && s[..4] == [0x4f, 0x4b, 0x41, 0x59]
  {
  }

  /** A FAIL record makes a push fail with its message, whatever follows; cut short, it
      makes it fail with the end of file. */
  lemma FailIsRemote(m: seq<Byte>, rest: seq<Byte>)
    requires |m| < TWO32
    ensures Response([0x46, 0x41, 0x49, 0x4c] + Le32(|m|) + m + rest) == Failed(Remote(m))
    ensures forall k :: 0 <= k < |m| ==>
      Response([0x46, 0x41, 0x49, 0x4c] + Le32(|m|) + m[..k]) == Failed(CutFailure(if k == 0 then Eof else UnexpectedEof))
  {
    hide SyncHeader, HeaderOf, Le32;
    FailHeader(|m|, m + rest);
    assert (m + rest)[..|m|] == m;
    assert SyncHeader(FAIL, |m|) == [0x46, 0x41, 0x49, 0x4c] + Le32(|m|) by { FailBytes(|m|); }
    assert [0x46, 0x41, 0x49, 0x4c] + Le32(|m|) + m + rest == SyncHeader(FAIL, |m|) + (m + rest);
    forall k | 0 <= k < |m|
      ensures Response([0x46, 0x41, 0x49, 0x4c] + Le32(|m|) + m[..k]) == Failed(CutFailure(if k == 0 then Eof else UnexpectedEof))
    {
      FailHeader(|m|, m[..k]);
    }
  }

  lemma FailBytes(n: U32)
    ensures SyncHeader(FAIL, n) == [0x46, 0x41, 0x49, 0x4c] + Le32(n)
  {
  }

  lemma FailHeader(n: U32, body: seq<Byte>)
    ensures var s := SyncHeader(FAIL, n) + body;
            && Response(s) == FailOutcome(body, n)
            && s[8..] == body
  {
    HeaderRoundTrip(FAIL, n, body);
    hide SyncHeader, HeaderOf;
  }

  /** Any other answer is refused by its ID, and a cut header by where it is cut. */
  lemma OtherAnswers(s: seq<Byte>)
    ensures |s| >= 8 && s[..4] !in {[0x4f, 0x4b, 0x41, 0x59], [0x46, 0x41, 0x49, 0x4c]} ==> Response(s) == Failed(Unexpected(s[..4]))
    ensures |s| < 8 ==> Response(s) == Failed(ReadFailed(if s == [] then Eof else UnexpectedEof))
  {
  }

  // ---- pulling -----------------------------------------------------------

  /** What a pull does on the bytes a device answers with: whether the destination is
      created, what it then holds, and the outcome. */
  datatype Pulled = Pulled(created: bool, content: seq<Byte>, outcome: Outcome)

  function PullFrom(s: seq<Byte>, created: bool, content: seq<Byte>): Pulled
    decreases |s|
  {
    match CutError(|s|, 8)
    case Some(e) => Pulled(created, content, Failed(ReadFailed(e)))
    case None =>
      var h, body := HeaderOf(s), s[8..];
      if h.id == DATA then
        if |body| < h.size then Pulled(true, content + body, Failed(CopyFailed))
        else PullFrom(body[h.size..], true, content + body[..h.size])
      else if h.id == DONE then Pulled(true, content, Success)
      else if h.id == FAIL then Pulled(created, content, FailOutcome(body, h.size))
      else Pulled(created, content, Failed(Unexpected(h.id)))
  }

  /** One unfolding of PullFrom. */
  lemma PullRecord(s: seq<Byte>, created: bool, content: seq<Byte>)
    ensures |s| < 8 ==> PullFrom(s, created, content) == Pulled(created, content, Failed(ReadFailed(CutError(|s|, 8).value)))
    ensures |s| >= 8 ==>
      var h, body := HeaderOf(s), s[8..];
      && (h.id == DATA && |body| < h.size ==> PullFrom(s, created, content) == Pulled(true, content + body, Failed(CopyFailed)))
      && (h.id == DATA && |body| >= h.size ==>
            PullFrom(s, created, content) == PullFrom(body[h.size..], true, content + body[..h.size]))
      && (h.id == DONE ==> PullFrom(s, created, content) == Pulled(true, content, Success))
      && (h.id == FAIL ==> PullFrom(s, created, content) == Pulled(created, content, FailOutcome(body, h.size)))
      && (h.id !in {DATA, DONE, FAIL} ==> PullFrom(s, created, content) == Pulled(created, content, Failed(Unexpected(h.id))))
  {
    hide HeaderOf;
  }

  /** Main result. A pull succeeds exactly on a list of DATA records ended by DONE,
      and the destination then holds their payloads joined in order. */
  lemma {:induction false} PullOfRecords(chunks: seq<seq<Byte>>, time: U32, rest: seq<Byte>, created: bool, content: seq<Byte>)
    requires FittingChunks(chunks)
    ensures PullFrom(DataRecords(chunks) + SyncHeader(DONE, time) + rest, created, content) ==
              Pulled(true, content + Flat(chunks), Success)
  {
    hide Request, SyncHeader, HeaderOf, PullFrom;
    if |chunks| == 0 {
      NoRecords(time, rest);
      HeaderRoundTrip(DONE, time, rest);
      PullRecord(SyncHeader(DONE, time) + rest, created, content);
      assert content + Flat(chunks) == content;
    } else {
      var chunk, tail := chunks[0], DataRecords(chunks[1..]) + SyncHeader(DONE, time) + rest;
      var s := Request(DATA, chunk) + tail;
      assert chunks == [chunk] + chunks[1..];
      OneMoreRecord(chunk, chunks[1..], time, rest, content);
      RequestRoundTrip(DATA, chunk, tail);
      BodyCut(s, |chunk|);
      PullRecord(s, created, content);
      PullOfRecords(chunks[1..], time, rest, true, content + chunk);
    }
  }

  lemma BodyCut(s: seq<Byte>, n: nat)
    requires |s| >= 8 + n
    ensures s[8..][..n] == s[8..8 + n] && s[8..][n..] == s[8 + n..]
  {
  }

  lemma {:induction false} SuccessIsRecords(s: seq<Byte>, created: bool, content: seq<Byte>)
      returns (chunks: seq<seq<Byte>>, time: U32, rest: seq<Byte>)
    requires PullFrom(s, created, content).outcome == Success
    ensures FittingChunks(chunks)
    ensures s == DataRecords(chunks) + SyncHeader(DONE, time) + rest
    ensures PullFrom(s, created, content).content == content + Flat(chunks)
    decreases |s|
  {
    hide SyncHeader, HeaderOf, PullFrom, Request, Flat, DataRecords;
    PullStep(s, created, content);
    var h := HeaderOf(s);
    if h.id == DONE {
      chunks, time, rest := [], h.size, s[8..];
      NoRecords(time, rest);
    } else {
      var chunk, tail := s[8..][..h.size], s[8..][h.size..];
      var later;
      later, time, rest := SuccessIsRecords(tail, true, content + chunk);
      chunks := [chunk] + later;
      OneMoreRecord(chunk, later, time, rest, content);
    }
  }

  lemma NoRecords(time: U32, rest: seq<Byte>)
    ensures DataRecords([]) + SyncHeader(DONE, time) + rest == SyncHeader(DONE, time) + rest
    ensures Flat([]) == []
  {
  }

  lemma OneMoreRecord(chunk: seq<Byte>, later: seq<seq<Byte>>, time: U32, rest: seq<Byte>, content: seq<Byte>)
    ensures Request(DATA, chunk) + (DataRecords(later) + SyncHeader(DONE, time) + rest)
      == DataRecords([chunk] + later) + SyncHeader(DONE, time) + rest
    ensures content + chunk + Flat(later) == content + Flat([chunk] + later)
  {
    assert ([chunk] + later)[1..] == later;
    hide Request, SyncHeader;
  }

  /** The first record of a pull that succeeds. */
  lemma PullStep(s: seq<Byte>, created: bool, content: seq<Byte>)
    requires PullFrom(s, created, content).outcome == Success
    ensures |s| >= 8
    ensures var h := HeaderOf(s);
            if h.id == DONE then s == SyncHeader(DONE, h.size) + s[8..] && PullFrom(s, created, content).content == content
            else
              && |s[8..]| >= h.size
              && s == Request(DATA, s[8..][..h.size]) + s[8..][h.size..]
              && PullFrom(s, created, content) == PullFrom(s[8..][h.size..], true, content + s[8..][..h.size])
  {
    hide SyncHeader, HeaderOf, Request;
    HeaderIsBytes(s);
    if HeaderOf(s).id != DONE { RecordIsBytes(s); }
  }

  lemma RecordIsBytes(s: seq<Byte>)
    requires |s| >= 8 && |s[8..]| >= HeaderOf(s).size
    ensures s == Request(HeaderOf(s).id, s[8..][..HeaderOf(s).size]) + s[8..][HeaderOf(s).size..]
  {
    HeaderIsBytes(s);
    var h, b := HeaderOf(s), s[8..];
    assert |b[..h.size]| == h.size;
    CutAndJoin(SyncHeader(h.id, h.size), b, h.size);
    hide SyncHeader, HeaderOf;
  }

  lemma CutAndJoin(a: seq<Byte>, b: seq<Byte>, n: nat)
    requires n <= |b|
    ensures a + b == a + b[..n] + b[n..]
  {
  }

  /** A pull whose records are followed by FAIL keeps what they held and fails with the
      message; without records nothing is created. */
  lemma {:induction false} PullFails(chunks: seq<seq<Byte>>, m: seq<Byte>, rest: seq<Byte>, created: bool, content: seq<Byte>)
    requires FittingChunks(chunks) && |m| < TWO32
    ensures PullFrom(DataRecords(chunks) + Request(FAIL, m) + rest, created, content)
         == Pulled(created || chunks != [], content + Flat(chunks), Failed(Remote(m)))
  {
    hide Request, SyncHeader, HeaderOf, PullFrom;
    if |chunks| == 0 {
      assert DataRecords(chunks) + Request(FAIL, m) + rest == Request(FAIL, m) + rest;
      RequestRoundTrip(FAIL, m, rest);
      PullRecord(Request(FAIL, m) + rest, created, content);
      BodyCut(Request(FAIL, m) + rest, |m|);
      assert content + Flat(chunks) == content;
    } else {
      var chunk, tail := chunks[0], DataRecords(chunks[1..]) + Request(FAIL, m) + rest;
      var s := Request(DATA, chunk) + tail;
      assert s == DataRecords(chunks) + Request(FAIL, m) + rest;
      RequestRoundTrip(DATA, chunk, tail);
      BodyCut(s, |chunk|);
      PullRecord(s, created, content);
      PullFails(chunks[1..], m, rest, true, content + chunk);
      assert content + chunk + Flat(chunks[1..]) == content + Flat(chunks);
    }
  }

  /** Until the first DATA or DONE nothing is created. */
  lemma {:induction false} CreatedByDataOrDone(s: seq<Byte>, content: seq<Byte>)
    ensures PullFrom(s, false, content).created <==>
      |s| >= 8 && (HeaderOf(s).id == DATA || HeaderOf(s).id == DONE)
  {
    if |s| >= 8 && HeaderOf(s).id == DATA && |s[8..]| >= HeaderOf(s).size {
      StaysCreated(s[8..][HeaderOf(s).size..], content + s[8..][..HeaderOf(s).size]);
    }
  }

  lemma {:induction false} StaysCreated(s: seq<Byte>, content: seq<Byte>)
    ensures PullFrom(s, true, content).created
    decreases |s|
  {
    if |s| >= 8 && HeaderOf(s).id == DATA && |s[8..]| >= HeaderOf(s).size {
      StaysCreated(s[8..][HeaderOf(s).size..], content + s[8..][..HeaderOf(s).size]);
    }
  }

  // ---- the client --------------------------------------------------------

  method WriteSyncRequest(w: Writer, id: seq<Byte>, payload: seq<Byte>) returns (error: Option<WriteError>)
    requires |id| == 4
    modifies w
    ensures old(w.sent) <= w.sent <= old(w.sent) + Request(id, payload)
    ensures error == None ==> w.sent == old(w.sent) + Request(id, payload)
    ensures w.faults == old(w.faults) + if error == None then 0 else 1
  {
    var header := new Byte[8](i => 0);
    WriteSyncHeaderTo(header, id, Wrap32(|payload|));
    error := WriteFull(w, header[..] + payload);
  }

  method WriteSyncHeader(w: Writer, id: seq<Byte>, size: U32) returns (error: Option<WriteError>)
    requires |id| == 4
    modifies w
    ensures old(w.sent) <= w.sent <= old(w.sent) + SyncHeader(id, size)
    ensures error == None ==> w.sent == old(w.sent) + SyncHeader(id, size)
    ensures w.faults == old(w.faults) + if error == None then 0 else 1
  {
    var header := new Byte[8](i => 0);
    WriteSyncHeaderTo(header, id, size);
    error := WriteFull(w, header[..]);
  }

  method WriteSyncHeaderTo(header: array<Byte>, id: seq<Byte>, size: U32)
    requires header.Length == 8 && |id| == 4
    modifies header
    ensures header[..] == SyncHeader(id, size)
  {
    for i := 0 to 4
      invariant forall j :: 0 <= j < i ==> header[j] == id[j]
    {
      header[i] := id[i];
    }
    PutUint32(header, 4, size);
    assert header[..] == header[..4] + header[4..8];
    assert header[..4] == id;
  }

  method ReadSyncHeader(r: Reader) returns (header: Header, error: Option<ReadError>)
    modifies r
    ensures error == None ==> |old(r.pending)| >= 8 && header == HeaderOf(old(r.pending)) && r.pending == old(r.pending)[8..]
    ensures error in {None, Some(Eof), Some(UnexpectedEof), Some(Broken)}
    ensures error != None && error != Some(Broken) ==> error == CutError(|old(r.pending)|, 8)
    ensures |r.pending| <= |old(r.pending)|
    ensures r.faults >= old(r.faults) && (error == Some(Broken) ==> r.faults > old(r.faults))
  {
    ghost var all := r.pending;
    var bytes, e := ReadFull(r, 8);
    if e != None {
      return Header([], 0), e;
    }
    assert all[..4] == bytes[..4] && all[4..8] == bytes[4..8] && all[8..] == r.pending;
    return Header(bytes[..4], FromLe32(bytes[4..8])), None;
  }

  /** The rest of a FAIL record. */
  method ReadFail(r: Reader, size: U32) returns (outcome: Outcome)
    modifies r
    ensures outcome == FailOutcome(old(r.pending), size) || (outcome == Failed(CutFailure(Broken)) && r.faults > old(r.faults))
    ensures r.faults >= old(r.faults)
  {
    var message, e := ReadFull(r, size);
    if e != None {
      return Failed(CutFailure(e.value));
    }
    return Failed(Remote(message));
  }

  lemma {:induction false} DataRecordsSnoc(chunks: seq<seq<Byte>>, chunk: seq<Byte>)
    ensures DataRecords(chunks + [chunk]) == DataRecords(chunks) + Request(DATA, chunk)
  {
    hide Request;
    if |chunks| > 0 {
      assert (chunks + [chunk])[1..] == chunks[1..] + [chunk];
      DataRecordsSnoc(chunks[1..], chunk);
    } else {
      assert (chunks + [chunk])[1..] == [];
    }
  }

  lemma PushHeadSnoc(path: seq<Byte>, chunks: seq<seq<Byte>>, chunk: seq<Byte>)
    ensures PushHead(path, chunks + [chunk]) == PushHead(path, chunks) + Request(DATA, chunk)
  {
    DataRecordsSnoc(chunks, chunk);
    hide DataRecords, Request;
  }

  lemma PushHeadStart(path: seq<Byte>)
    ensures PushHead(path, []) == Request(SEND, path + MODE_SUFFIX)
  {
    hide Request;
  }

  lemma ChunksSnoc(chunks: seq<seq<Byte>>, file: seq<Byte>, before: seq<Byte>, chunk: seq<Byte>, after: seq<Byte>)
    requires ChunksOf(chunks, file, before) && chunk + after == before && 0 < |chunk| <= SYNC_DATA_MAX
    ensures ChunksOf(chunks + [chunk], file, after)
  {
    FlatSnoc(chunks, chunk);
    hide Flat;
    assert Flat(chunks) + (chunk + after) == Flat(chunks) + chunk + after;
  }

  /** A push that stops early has sent the start of some push. */
  lemma PushPrefix(start: seq<Byte>, sent: seq<Byte>, path: seq<Byte>, chunks: seq<seq<Byte>>, mtime: int)
    requires start <= sent <= start + PushHead(path, chunks)
    ensures sent <= start + PushBytes(path, chunks, mtime)
  {
    hide PushHead, SyncHeader;
    assert start + PushBytes(path, chunks, mtime) == start + PushHead(path, chunks) + SyncHeader(DONE, DoneTime(mtime));
  }

  /** PushFile from the open source on: the reads of the source, the writes to the
      stream and the reads from it may all be short. */
  method PushFile(source: Reader, w: Writer, r: Reader, path: seq<Byte>, mtime: int)
      returns (outcome: Outcome, ghost chunks: seq<seq<Byte>>)
    requires source != r
    modifies source, w, r
    ensures ChunksOf(chunks, old(source.pending), source.pending)
    ensures old(w.sent) <= w.sent <= old(w.sent) + PushBytes(path, chunks, mtime)
    ensures path == [] <==> outcome == Failed(EmptyPath)
    ensures path == [] ==> w.sent == old(w.sent)
    ensures outcome !in {Failed(EmptyPath), Failed(SendFailed), Failed(SourceFailed)} ==>
      && source.pending == [] && w.sent == old(w.sent) + PushBytes(path, chunks, mtime)
      && (outcome == Response(old(r.pending)) || outcome in {Failed(ReadFailed(Broken)), Failed(CutFailure(Broken))})
    ensures path != [] && source.faults == old(source.faults) && w.faults == old(w.faults) && r.faults == old(r.faults) ==>
      source.pending == [] && w.sent == old(w.sent) + PushBytes(path, chunks, mtime) && outcome == Response(old(r.pending))
  {
    hide SyncHeader, Request, Response, PushHead, Flat, PushBytes;
    chunks := [];
    ghost var start, file := w.sent, source.pending;
    assert ChunksOf([], file, file) by { NoChunks(file); }
    if path == [] {
      return Failed(EmptyPath), [];
    }
    PushHeadStart(path);
    var e := WriteSyncRequest(w, SEND, path + MODE_SUFFIX);
    if e != None {
      PushPrefix(start, w.sent, path, [], mtime);
      return Failed(SendFailed), [];
    }
    var ok;
    ok, chunks := PushChunks(source, w, path, start, file);
    if ok != Success {
      PushPrefix(start, w.sent, path, chunks, mtime);
      return ok, chunks;
    }
    e := WriteSyncHeader(w, DONE, DoneTime(mtime));
    PushEnds(start, path, chunks, mtime);
    if e != None {
      return Failed(SendFailed), chunks;
    }
    outcome := ReadResponse(r);
  }

  lemma NoChunks(file: seq<Byte>)
    ensures ChunksOf([], file, file)
  {
    assert [] + file == file;
  }

  lemma PushEnds(start: seq<Byte>, path: seq<Byte>, chunks: seq<seq<Byte>>, mtime: int)
    ensures start + PushHead(path, chunks) + SyncHeader(DONE, DoneTime(mtime)) == start + PushBytes(path, chunks, mtime)
  {
    hide PushHead, SyncHeader;
  }

  /** The DATA loop of a push. */
  method PushChunks(source: Reader, w: Writer, path: seq<Byte>, ghost start: seq<Byte>, ghost file: seq<Byte>)
      returns (ok: Outcome, ghost chunks: seq<seq<Byte>>)
    requires w.sent == start + PushHead(path, []) && source.pending == file
    modifies source, w
    ensures ChunksOf(chunks, file, source.pending)
    ensures start <= w.sent <= start + PushHead(path, chunks)
    ensures ok in {Success, Failed(SendFailed), Failed(SourceFailed)}
    ensures ok == Success ==> source.pending == [] && w.sent == start + PushHead(path, chunks)
    ensures source.faults >= old(source.faults) && w.faults >= old(w.faults)
    ensures ok == Failed(SendFailed) ==> w.faults > old(w.faults)
    ensures ok == Failed(SourceFailed) ==> source.faults > old(source.faults)
  {
    hide Request, PushHead, Flat, ChunksOf;
    chunks := [];
    NoChunks(file);
    while true
      invariant w.sent == start + PushHead(path, chunks)
      invariant ChunksOf(chunks, file, source.pending)
      invariant source.faults == old(source.faults) && w.faults == old(w.faults)
      decreases |source.pending|
    {
      ghost var before := source.pending;
      var chunk, readError := source.Read(SYNC_DATA_MAX);
      if chunk != [] {
        var e := WriteSyncRequest(w, DATA, chunk);
        PushHeadSnoc(path, chunks, chunk);
        ChunksSnoc(chunks, file, before, chunk, source.pending);
        Assoc(start, PushHead(path, chunks), Request(DATA, chunk));
        chunks := chunks + [chunk];
        if e != None {
          return Failed(SendFailed), chunks;
        }
      } else {
        assert chunk + source.pending == source.pending;
      }
      if readError == Some(Eof) {
        return Success, chunks;
      }
      if readError != None {
        return Failed(SourceFailed), chunks;
      }
    }
  }

  lemma Assoc(a: seq<Byte>, b: seq<Byte>, c: seq<Byte>)
    ensures a + b + c == a + (b + c)
  {
  }

  /** The device's answer to a push. */
  method ReadResponse(r: Reader) returns (outcome: Outcome)
    modifies r
    ensures outcome == Response(old(r.pending)) || outcome in {Failed(ReadFailed(Broken)), Failed(CutFailure(Broken))}
    ensures r.faults == old(r.faults) ==> outcome == Response(old(r.pending))
    ensures outcome !in {Failed(EmptyPath), Failed(SendFailed), Failed(SourceFailed)}
  {
    var header, e := ReadSyncHeader(r);
    if e != None {
      return Failed(ReadFailed(e.value));
    }
    hide HeaderOf;
    if header.id == OKAY_ID {
      return Success;
    }
    if header.id == FAIL {
      outcome := ReadFail(r, header.size);
      return;
    }
    return Failed(Unexpected(header.id));
  }

  /** The local file a pull writes to. The operating system may refuse to create it,
      to write all of what it is given, or to close it; each is a refusal. */
  class Destination {
    var present: bool
    var content: seq<Byte>
    var refusals: nat

    constructor (present: bool, content: seq<Byte>)
      ensures this.present == present && this.content == content && refusals == 0
    {
      this.present, this.content, refusals := present, content, 0;
    }

    method Create(overwrite: bool) returns (error: Option<Failure>)
      modifies this
      ensures error == None ==> present && content == [] && (overwrite || !old(present))
      ensures error != None ==> present == old(present) && content == old(content)
      ensures error in {None, Some(DestinationExists), Some(CreateFailed)}
      ensures error == Some(DestinationExists) ==> present && !overwrite
      ensures refusals == old(refusals) + if error == Some(CreateFailed) then 1 else 0
    {
      var refused: bool := *;
      if refused {
        refusals := refusals + 1;
        return Some(CreateFailed);
      }
      if present && !overwrite {
        return Some(DestinationExists);
      }
      present, content := true, [];
      return None;
    }

    method Write(p: seq<Byte>) returns (n: nat, failed: bool)
      modifies this`content, this`refusals
      ensures n <= |p| && content == old(content) + p[..n]
      ensures refusals == old(refusals) + if failed || n < |p| then 1 else 0
    {
      n :| 0 <= n <= |p|;
      failed := *;
      content := content + p[..n];
      if failed || n < |p| {
        refusals := refusals + 1;
      }
    }

    method Close() returns (failed: bool)
      modifies this`refusals
      ensures refusals == old(refusals) + if failed then 1 else 0
    {
      failed := *;
      if failed {
        refusals := refusals + 1;
      }
    }
  }

  const COPY_BUFFER := 32768

  /** io.CopyN. It is disturbed when the file or the transport fails; otherwise it
      stops early only at the end of the input. */
  method CopyN(dest: Destination, r: Reader, n: nat) returns (failed: bool, ghost disturbed: bool)
    modifies dest`content, dest`refusals, r
    ensures r.faults >= old(r.faults) && dest.refusals >= old(dest.refusals)
    ensures disturbed ==> failed && (r.faults > old(r.faults) || dest.refusals > old(dest.refusals))
    ensures |r.pending| <= |old(r.pending)|
    ensures !failed ==> !disturbed && n <= |old(r.pending)|
    ensures !failed ==> dest.content == old(dest.content) + old(r.pending)[..n] && r.pending == old(r.pending)[n..]
    ensures failed && !disturbed ==> |old(r.pending)| < n && dest.content == old(dest.content) + old(r.pending)
    ensures old(dest.content) <= dest.content
    ensures dest.content <= old(dest.content) + old(r.pending)[..if n <= |old(r.pending)| then n else |old(r.pending)|]
  {
    var copied: nat := 0;
    ghost var all := r.pending;
    while copied < n
      invariant copied <= n && copied <= |all| && r.pending == all[copied..]
      invariant dest.content == old(dest.content) + all[..copied]
      invariant r.faults >= old(r.faults) && dest.refusals >= old(dest.refusals)
    {
      var left := n - copied;
      var chunk, e := r.Read(if left < COPY_BUFFER then left else COPY_BUFFER);
      assert all[..copied] + (chunk + r.pending) == all;
      assert all[..copied] + chunk == all[..copied + |chunk|];
      if chunk != [] {
        var m, writeFailed := dest.Write(chunk);
        assert all[..copied] + chunk[..m] == all[..copied + m];
        if writeFailed || m < |chunk| {
          return true, true;
        }
        copied := copied + |chunk|;
      }
      if e != None && copied < n {
        return true, e != Some(Eof);
      }
    }
    return false, false;
  }

  lemma {:induction false} ContentGrows(s: seq<Byte>, created: bool, content: seq<Byte>)
    ensures content <= PullFrom(s, created, content).content
    decreases |s|
  {
    hide HeaderOf;
    if |s| >= 8 && HeaderOf(s).id == DATA && |s[8..]| >= HeaderOf(s).size {
      ContentGrows(s[8..][HeaderOf(s).size..], true, content + s[8..][..HeaderOf(s).size]);
    }
  }

  /** The destination of a pull that has created it or not. */
  predicate Holds(present: bool, now: seq<Byte>, existed: bool, before: seq<Byte>, created: bool, content: seq<Byte>) {
    if created then present && now == content else present == existed && now == before
  }

  /** The closure createOut: the destination is created once. */
  method CreateOut(dest: Destination, created: bool, overwrite: bool) returns (error: Option<Failure>)
    modifies dest
    ensures created ==> error == None
    ensures created || error != None ==> dest.present == old(dest.present) && dest.content == old(dest.content)
    ensures !created && error == None ==> dest.present && dest.content == []
    ensures error in {None, Some(DestinationExists), Some(CreateFailed)}
    ensures error == Some(DestinationExists) ==> old(dest.present) && !overwrite
    ensures dest.refusals == old(dest.refusals) + if error == Some(CreateFailed) then 1 else 0
  {
    if created {
      return None;
    }
    error := dest.Create(overwrite);
  }

  /** The outcomes a pull can have when the operating system or the transport has
      interfered with its answer. */
  const INTERFERENCE := {Failed(ReadFailed(Broken)), Failed(CutFailure(Broken)), Failed(CopyFailed), Failed(CloseFailed),
                         Failed(CreateFailed), Failed(DestinationExists)}

  /** PullFile. Unless the operating system or the transport interferes, what it does
      depends only on the bytes of the answer, not on how they were cut. */
  method PullFile(path: seq<Byte>, w: Writer, r: Reader, dest: Destination, overwrite: bool)
      returns (outcome: Outcome, ghost disturbed: bool)
    modifies w, r, dest
    ensures path == [] ==> outcome == Failed(EmptyPath)
    ensures path != [] && old(dest.present) && !overwrite ==> outcome == Failed(DestinationExists)
    ensures path == [] || (old(dest.present) && !overwrite) ==>
      w.sent == old(w.sent) && r.pending == old(r.pending) && dest.present == old(dest.present) && dest.content == old(dest.content)
    ensures !disturbed && path != [] && (!old(dest.present) || overwrite) ==>
      var p := PullFrom(old(r.pending), false, []);
      && w.sent == old(w.sent) + Request(RECV, path) && outcome == p.outcome
      && Holds(dest.present, dest.content, old(dest.present), old(dest.content), p.created, p.content)
    ensures disturbed ==> outcome != Success
    ensures disturbed ==>
      || (dest.present == old(dest.present) && dest.content == old(dest.content))
      || (dest.present && dest.content <= PullFrom(old(r.pending), false, []).content)
    ensures disturbed ==> outcome in INTERFERENCE + {Failed(SendFailed)}
    ensures disturbed ==> w.faults > old(w.faults) || r.faults > old(r.faults) || dest.refusals > old(dest.refusals)
  {
    disturbed := false;
    if path == [] {
      return Failed(EmptyPath), false;
    }
    if !overwrite && dest.present {
      return Failed(DestinationExists), false;
    }
    hide Request, PullFrom;
    var e := WriteSyncRequest(w, RECV, path);
    if e != None {
      return Failed(SendFailed), true;
    }
    outcome, disturbed := PullRecords(r, dest, overwrite);
  }

  /** The record loop of a pull. */
  method PullRecords(r: Reader, dest: Destination, overwrite: bool) returns (outcome: Outcome, ghost disturbed: bool)
    modifies r, dest
    ensures var p := PullFrom(old(r.pending), false, []);
            if !disturbed then
              outcome == p.outcome && Holds(dest.present, dest.content, old(dest.present), old(dest.content), p.created, p.content)
            else
              && outcome != Success
              && (|| (dest.present == old(dest.present) && dest.content == old(dest.content))
                  || (dest.present && dest.content <= p.content))
    ensures disturbed ==> outcome in INTERFERENCE
    ensures disturbed ==>
      r.faults > old(r.faults) || dest.refusals > old(dest.refusals) || (old(dest.present) && !overwrite)
  {
    hide PullFrom, HeaderOf;
    var created := false;
    ghost var all, existed, before := r.pending, dest.present, dest.content;
    ghost var content := [];
    while true
      invariant PullFrom(all, false, []) == PullFrom(r.pending, created, content)
      invariant Holds(dest.present, dest.content, existed, before, created, content) && (!created ==> content == [])
      invariant r.faults >= old(r.faults) && dest.refusals >= old(dest.refusals)
      decreases |r.pending|
    {
      ghost var s := r.pending;
      PullRecord(s, created, content);
      ContentGrows(s, created, content);
      var header, re := ReadSyncHeader(r);
      if re != None {
        return Failed(ReadFailed(re.value)), re == Some(Broken);
      }
      if header.id == DATA {
        var ce := CreateOut(dest, created, overwrite);
        if ce != None {
          return Failed(ce.value), true;
        }
        created := true;
        var failed;
        failed, disturbed := CopyN(dest, r, header.size);
        if |s[8..]| >= header.size { ContentGrows(s[8..][header.size..], true, content + s[8..][..header.size]); }
        if failed {
          return Failed(CopyFailed), disturbed;
        }
        content := content + s[8..][..header.size];
      } else if header.id == DONE {
        var ce := CreateOut(dest, created, overwrite);
        if ce != None {
          return Failed(ce.value), true;
        }
        var closeFailed := dest.Close();
        if closeFailed {
          return Failed(CloseFailed), true;
        }
        return Success, false;
      } else if header.id == FAIL {
        outcome := ReadFail(r, header.size);
        return outcome, outcome == Failed(CutFailure(Broken));
      } else {
        return Failed(Unexpected(header.id)), false;
      }
    }
  }
}
