/** A pull over a multiplexed stream: what the client makes of the bytes its reads
    returned, against the WRTE payloads the peer has sent to the stream's ID. */
module PullOverStream {
  import opened Bytes
  import Framing
  import Multiplexer
  import SyncTransfer

  /** Everything the peer's bytes send to a stream, in however many WRTE messages. */
  function Sent(x: Multiplexer.Mux, sid: nat): seq<Byte>
    requires sid < |x.table|
  {
    Multiplexer.SentTo(Framing.DecodeAll(x.input).0, x.table[sid].birth, x.table[sid].s.localID)
  }

  /** What a pull has done with the bytes it has read, and with all of them. */
  function Pull(s: seq<Byte>): SyncTransfer.Pulled {
    SyncTransfer.PullFrom(s, false, [])
  }

  lemma SameHeader(s: seq<Byte>, whole: seq<Byte>)
    requires s <= whole && |s| >= 8
    ensures SyncTransfer.HeaderOf(s) == SyncTransfer.HeaderOf(whole) && s[8..] <= whole[8..]
  {
    assert s[..4] == whole[..4] && s[4..8] == whole[4..8];
  }

  /** More bytes never change what fewer have already decided. */
  lemma {:induction false} PullOfPrefix(s: seq<Byte>, whole: seq<Byte>, created: bool, content: seq<Byte>)
    requires s <= whole
    ensures var p, q := SyncTransfer.PullFrom(s, created, content), SyncTransfer.PullFrom(whole, created, content);
            && p.content <= q.content && (p.created ==> q.created)
            && (p.outcome == SyncTransfer.Success ==> q == p)
    decreases |s|
  {
    hide SyncTransfer.PullFrom, SyncTransfer.HeaderOf;
    SyncTransfer.PullRecord(s, created, content);
    SyncTransfer.PullRecord(whole, created, content);
    SyncTransfer.ContentGrows(whole, created, content);
    if created { SyncTransfer.StaysCreated(whole, content); }
    if |s| >= 8 {
      SameHeader(s, whole);
      var h := SyncTransfer.HeaderOf(s);
      var body, all := s[8..], whole[8..];
      if h.id == SyncTransfer.DATA && |all| >= h.size {
        SyncTransfer.ContentGrows(all[h.size..], true, content + all[..h.size]);
        SyncTransfer.StaysCreated(all[h.size..], content + all[..h.size]);
        if |body| >= h.size {
          assert body[..h.size] == all[..h.size] && body[h.size..] <= all[h.size..];
          PullOfPrefix(body[h.size..], all[h.size..], true, content + body[..h.size]);
        } else {
          assert body <= all[..h.size];
        }
      }
    }
  }

  /** Main result. In every run, what the client has pulled is the start of what all
      the bytes sent to the stream amount to, however they were cut into messages;
      and a pull that has succeeded has done what all of them amount to. */
  lemma PullFollowsThePeer(input: seq<Byte>, steps: seq<Multiplexer.Step>, sid: nat)
    requires sid < |Multiplexer.Exec(Multiplexer.Start(input), steps).table|
    ensures var x := Multiplexer.Exec(Multiplexer.Start(input), steps);
            var got := Multiplexer.Returned(x.table[sid].results);
            && Pull(got).content <= Pull(Sent(x, sid)).content
            && (Pull(got).outcome == SyncTransfer.Success ==> Pull(Sent(x, sid)) == Pull(got))
  {
    Multiplexer.Always(input, steps);
    Multiplexer.ReadsFollowThePeer(input, steps, sid);
    var x := Multiplexer.Exec(Multiplexer.Start(input), steps);
    PullOfPrefix(Multiplexer.Returned(x.table[sid].results), Sent(x, sid), false, []);
    hide Multiplexer.Exec, Multiplexer.Inv, Multiplexer.SentTo, Multiplexer.Returned, SyncTransfer.PullFrom, Framing.DecodeAll;
  }

  /** Main result. When the payloads sent to the stream join to DATA records and DONE,
      a pull over the stream never writes anything but the start of the joined DATA,
      and once its reads have returned the records it has succeeded with all of it. */
  lemma PulledFileArrives(input: seq<Byte>, steps: seq<Multiplexer.Step>, sid: nat,
                          chunks: seq<seq<Byte>>, time: U32, rest: seq<Byte>)
    requires SyncTransfer.FittingChunks(chunks)
    requires var x := Multiplexer.Exec(Multiplexer.Start(input), steps);
             && sid < |x.table|
             && Sent(x, sid) == SyncTransfer.DataRecords(chunks) + SyncTransfer.SyncHeader(SyncTransfer.DONE, time) + rest
    ensures var x := Multiplexer.Exec(Multiplexer.Start(input), steps);
            var got := Multiplexer.Returned(x.table[sid].results);
            && Pull(got).content <= Flat(chunks)
            && (Pull(got).outcome == SyncTransfer.Success <==> |got| >= |SyncTransfer.DataRecords(chunks)| + 8)
            && (Pull(got).outcome == SyncTransfer.Success ==> Pull(got).content == Flat(chunks))
  {
    hide Multiplexer.Exec, Multiplexer.Inv, Multiplexer.SentTo, Multiplexer.Returned, SyncTransfer.PullFrom, Framing.DecodeAll,
         SyncTransfer.DataRecords, SyncTransfer.SyncHeader, Sent;
    var x := Multiplexer.Exec(Multiplexer.Start(input), steps);
    var got := Multiplexer.Returned(x.table[sid].results);
    var records := SyncTransfer.DataRecords(chunks) + SyncTransfer.SyncHeader(SyncTransfer.DONE, time);
    PullFollowsThePeer(input, steps, sid);
    SyncTransfer.PullOfRecords(chunks, time, rest, false, []);
    assert [] + Flat(chunks) == Flat(chunks);
    ReadsAreAPrefix(input, steps, sid);
    if |got| >= |records| {
      assert got == records + got[|records|..] by { PrefixOf(records, rest, got); }
      SyncTransfer.PullOfRecords(chunks, time, got[|records|..], false, []);
    } else {
      TooFew(got, chunks, time, false, []) by { assert got <= records; }
    }
  }

  lemma ReadsAreAPrefix(input: seq<Byte>, steps: seq<Multiplexer.Step>, sid: nat)
    requires sid < |Multiplexer.Exec(Multiplexer.Start(input), steps).table|
    ensures var x := Multiplexer.Exec(Multiplexer.Start(input), steps);
            Multiplexer.Returned(x.table[sid].results) <= Sent(x, sid)
  {
    Multiplexer.Always(input, steps);
    Multiplexer.ReadsFollowThePeer(input, steps, sid);
    hide Multiplexer.Exec, Multiplexer.Inv, Multiplexer.SentTo, Multiplexer.Returned, Framing.DecodeAll;
  }

  lemma PrefixOf(a: seq<Byte>, b: seq<Byte>, s: seq<Byte>)
    requires s <= a + b && |s| >= |a|
    ensures s == a + s[|a|..]
  {
  }

  /** Part of the records is not enough to succeed. */
  lemma {:induction false} TooFew(s: seq<Byte>, chunks: seq<seq<Byte>>, time: U32, created: bool, content: seq<Byte>)
    requires SyncTransfer.FittingChunks(chunks)
    requires s < SyncTransfer.DataRecords(chunks) + SyncTransfer.SyncHeader(SyncTransfer.DONE, time)
    ensures SyncTransfer.PullFrom(s, created, content).outcome != SyncTransfer.Success
    decreases |chunks|
  {
    hide SyncTransfer.PullFrom, SyncTransfer.HeaderOf, SyncTransfer.SyncHeader, SyncTransfer.Request;
    SyncTransfer.PullRecord(s, created, content);
    var end := SyncTransfer.SyncHeader(SyncTransfer.DONE, time);
    if |chunks| == 0 {
      assert SyncTransfer.DataRecords(chunks) + end == end;
    } else if |s| >= 8 {
      var chunk, tail := chunks[0], SyncTransfer.DataRecords(chunks[1..]) + end;
      var whole := SyncTransfer.Request(SyncTransfer.DATA, chunk) + tail;
      assert whole == SyncTransfer.DataRecords(chunks) + end;
      SyncTransfer.RequestRoundTrip(SyncTransfer.DATA, chunk, tail);
      SameHeader(s, whole);
      SyncTransfer.BodyCut(whole, |chunk|);
      if |s[8..]| >= |chunk| {
        assert s[8..][|chunk|..] < tail;
        TooFew(s[8..][|chunk|..], chunks[1..], time, true, content + s[8..][..|chunk|]);
      }
    }
  }
}
