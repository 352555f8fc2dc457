/** Any number of goroutines calling Connection.writeMessage on one transport:
    each call holds writeMu while writeFull sends the header and then the
    payload in pieces of any size. A step of the system is one acquisition of
    the lock, one transport write, or one release. */
module SharedWire {
  import opened Bytes
  import opened Framing

  /** A write in progress: what writeFull has still to send. */
  datatype Sending = Sending(writer: nat, msg: Message, header: seq<Byte>, body: seq<Byte>)

  datatype State = State(
    programs: seq<seq<Message>>,     // what each writer was given to send
    todo: seq<seq<Message>>,         // the calls it has not started
    holder: Option<Sending>,         // who is inside writeMu
    wire: seq<Byte>,                 // every byte the transport took
    log: seq<(nat, Message)>,        // completed writes before the first failed one
    failed: bool)                    // some write has failed

  datatype Step =
    | Lock(writer: nat)
    | Send(n: nat, fails: bool)      // one transport write taking n bytes
    | Unlock

  function Start(programs: seq<seq<Message>>): State {
    State(programs, programs, None, [], [], false)
  }

  /** One transport write offered `rest`: the bytes it takes, never more than offered. */
  function Taken(rest: seq<Byte>, n: nat): seq<Byte> {
    if n <= |rest| then rest[..n] else rest
  }

  /** One step; a step that is not enabled changes nothing. */
  function Apply(s: State, step: Step): State {
    match step
    case Lock(w) =>
      if s.holder != None || w >= |s.todo| || s.todo[w] == [] then s
      else
        var m := s.todo[w][0];
        s.(holder := Some(Sending(w, m, Header(m), m.payload)), todo := s.todo[w := s.todo[w][1..]])
    case Send(n, fails) =>
      (match s.holder
       case None => s
       case Some(h) =>
         if h.header == [] && h.body == [] then s
         else
           var took := Taken(if h.header != [] then h.header else h.body, n);
           var wire := s.wire + took;
           if fails || took == [] then
             s.(wire := wire, holder := None, failed := true)
           else if h.header != [] then
             s.(wire := wire, holder := Some(h.(header := h.header[|took|..])))
           else
             s.(wire := wire, holder := Some(h.(body := h.body[|took|..]))))
    case Unlock =>
      (match s.holder
       case None => s
       case Some(h) =>
         if h.header != [] || h.body != [] then s
         else s.(holder := None, log := if s.failed then s.log else s.log + [(h.writer, h.msg)]))
  }

  function Exec(s: State, steps: seq<Step>): State {
    if |steps| == 0 then s else Apply(Exec(s, steps[..|steps| - 1]), steps[|steps| - 1])
  }

  function Messages(log: seq<(nat, Message)>): seq<Message> {
    seq(|log|, i requires 0 <= i < |log| => log[i].1)
  }

  /** The part of a log written by w, in order. */
  function ByWriter(log: seq<(nat, Message)>, w: nat): seq<Message> {
    if |log| == 0 then []
    else ByWriter(log[..|log| - 1], w) + if log[|log| - 1].0 == w then [log[|log| - 1].1] else []
  }

  function InHand(s: State, w: nat): seq<Message> {
    if s.holder.Some? && s.holder.value.writer == w then [s.holder.value.msg] else []
  }

  /** The wire is whole messages, plus the sent part of the one in progress. */
  ghost predicate WireInv(s: State) {
    && EncodeAll(Messages(s.log)) <= s.wire
    && (!s.failed ==> match s.holder
          case None => s.wire == EncodeAll(Messages(s.log))
          case Some(h) => s.wire + (h.header + h.body) == EncodeAll(Messages(s.log)) + Encode(h.msg))
  }

  /** Nothing a writer was given is lost, repeated or reordered. */
  ghost predicate OrderInv(s: State) {
    && |s.todo| == |s.programs|
    && (s.holder.Some? ==> s.holder.value.writer < |s.programs|)
    && forall w :: 0 <= w < |s.programs| ==> Ordered(s, w)
  }

  ghost predicate Ordered(s: State, w: nat)
    requires w < |s.programs| == |s.todo|
  {
    && ByWriter(s.log, w) <= s.programs[w]
    && (!s.failed ==> s.programs[w] == ByWriter(s.log, w) + (InHand(s, w) + s.todo[w]))
  }

  lemma MessagesSnoc(log: seq<(nat, Message)>, e: (nat, Message))
    ensures Messages(log + [e]) == Messages(log) + [e.1]
  {
  }

  lemma SendKeepsWire(s: State, n: nat, fails: bool)
    requires WireInv(s) && s.holder.Some?
    ensures WireInv(Apply(s, Send(n, fails)))
  {
    hide Header, EncodeAll, Encode, Messages;
    var h := s.holder.value;
    if h.header != [] {
      var took := Taken(h.header, n);
      assert took <= h.header;
      assert (s.wire + took) + (h.header[|took|..] + h.body) == s.wire + (h.header + h.body);
    } else {
      var took := Taken(h.body, n);
      assert took <= h.body;
      assert (s.wire + took) + ([] + h.body[|took|..]) == s.wire + ([] + h.body);
    }
  }

  lemma UnlockKeepsWire(s: State)
    requires WireInv(s) && s.holder.Some?
    ensures WireInv(Apply(s, Unlock))
  {
    var h := s.holder.value;
    MessagesSnoc(s.log, (h.writer, h.msg));
    EncodeAllSnoc(Messages(s.log), h.msg);
    hide Header, EncodeAll, Encode, Messages;
    assert s.wire + ([] + []) == s.wire;
  }

  lemma StepKeepsWire(s: State, step: Step)
    requires WireInv(s)
    ensures WireInv(Apply(s, step))
  {
    match step
    case Lock(_) => hide Header, EncodeAll, Messages;
    case Send(n, fails) => if s.holder.Some? { SendKeepsWire(s, n, fails); }
    case Unlock => if s.holder.Some? { UnlockKeepsWire(s); }
  }

  lemma StepKeepsOrder(s: State, step: Step)
    requires OrderInv(s)
    ensures OrderInv(Apply(s, step))
  {
    hide Header, Taken, ByWriter, Ordered;
    forall w | 0 <= w < |s.programs| ensures Ordered(Apply(s, step), w) {
      WriterKeepsOrder(s, step, w);
    }
  }

  lemma WriterKeepsOrder(s: State, step: Step, w: nat)
    requires |s.todo| == |s.programs| && w < |s.programs| && Ordered(s, w)
    ensures Ordered(Apply(s, step), w)
  {
    hide Header, Taken, ByWriter;
    var t := Apply(s, step);
    if step.Lock? && t != s && step.writer == w {
      assert [s.todo[w][0]] + s.todo[w][1..] == [] + s.todo[w];
    } else if step.Unlock? && t.log != s.log {
      var h := s.holder.value;
      ByWriterSnoc(s.log, (h.writer, h.msg), w);
      assert ByWriter(s.log, w) + (InHand(s, w) + s.todo[w]) == ByWriter(t.log, w) + ([] + s.todo[w]);
    }
  }

  lemma ByWriterSnoc(log: seq<(nat, Message)>, e: (nat, Message), w: nat)
    ensures ByWriter(log + [e], w) == ByWriter(log, w) + if e.0 == w then [e.1] else []
  {
    assert (log + [e])[..|log|] == log;
  }

  lemma {:induction false} Always(programs: seq<seq<Message>>, steps: seq<Step>)
    ensures WireInv(Exec(Start(programs), steps)) && OrderInv(Exec(Start(programs), steps))
    ensures Exec(Start(programs), steps).programs == programs
  {
    if |steps| == 0 {
      assert Messages([]) == [];
    } else {
      Always(programs, steps[..|steps| - 1]);
      StepKeepsWire(Exec(Start(programs), steps[..|steps| - 1]), steps[|steps| - 1]);
      StepKeepsOrder(Exec(Start(programs), steps[..|steps| - 1]), steps[|steps| - 1]);
    }
  }

  lemma {:induction false} LogFromPrograms(log: seq<(nat, Message)>, programs: seq<seq<Message>>)
    requires forall w :: 0 <= w < |programs| ==> ByWriter(log, w) <= programs[w]
    requires forall i :: 0 <= i < |log| ==> log[i].0 < |programs|
    requires forall w :: 0 <= w < |programs| ==> AllFramable(programs[w])
    ensures AllFramable(Messages(log))
  {
    if |log| > 0 {
      var last := |log| - 1;
      LogFromPrograms(log[..last], programs);
      assert Messages(log)[..last] == Messages(log[..last]);
      var w := log[last].0;
      var mine := ByWriter(log, w);
      assert mine[|mine| - 1] == log[last].1 == programs[w][|mine| - 1];
    }
  }

  lemma {:induction false} LoggedWriters(programs: seq<seq<Message>>, steps: seq<Step>)
    ensures forall i :: 0 <= i < |Exec(Start(programs), steps).log| ==>
              Exec(Start(programs), steps).log[i].0 < |programs|
  {
    if |steps| > 0 {
      LoggedWriters(programs, steps[..|steps| - 1]);
      Always(programs, steps[..|steps| - 1]);
    }
  }

  /** Main result. In every interleaving, with every short write and every
      failure: the wire reads back as the completed messages, in a merge that
      keeps each writer's order, followed by whatever comes after them; and
      while no write has failed and nobody is inside the lock there is nothing
      after them. */
  lemma WireAlwaysDecodes(programs: seq<seq<Message>>, steps: seq<Step>)
    requires forall w :: 0 <= w < |programs| ==> AllFramable(programs[w])
    ensures var s := Exec(Start(programs), steps);
            && Messages(s.log) <= DecodeAll(s.wire).0
            && (!s.failed && s.holder == None ==> DecodeAll(s.wire) == (Messages(s.log), []))
            && (forall i :: 0 <= i < |s.log| ==> s.log[i].0 < |programs|)
            && forall w :: 0 <= w < |programs| ==> ByWriter(s.log, w) <= programs[w]
  {
    hide Decode, Encode;
    var s := Exec(Start(programs), steps);
    Always(programs, steps);
    LoggedWriters(programs, steps);
    forall w | 0 <= w < |programs| ensures ByWriter(s.log, w) <= programs[w] {
      assert Ordered(s, w);
    }
    LogFromPrograms(s.log, programs);
    var whole := EncodeAll(Messages(s.log));
    var rest := s.wire[|whole|..];
    assert s.wire == whole + rest;
    DecodeAllOfEncodeAll(Messages(s.log), rest);
    if !s.failed && s.holder == None {
      NothingDecodesToNothing();
      assert rest == [];
      assert Messages(s.log) + [] == Messages(s.log);
    }
  }

  lemma NothingDecodesToNothing()
    ensures DecodeAll([]) == ([], [])
  {
  }

  /** When every call has returned without failing, the log holds exactly what
      every writer was given. */
  lemma AllSent(programs: seq<seq<Message>>, steps: seq<Step>, w: nat)
    requires w < |programs|
    requires var s := Exec(Start(programs), steps); !s.failed && s.holder == None && |s.todo| > w && s.todo[w] == []
    ensures ByWriter(Exec(Start(programs), steps).log, w) == programs[w]
  {
    Always(programs, steps);
    var s := Exec(Start(programs), steps);
    assert Ordered(s, w);
    assert ByWriter(s.log, w) + ([] + []) == ByWriter(s.log, w);
  }

  /** A call that nobody disturbs and no short write interrupts puts its message on the
      wire, whole, and on the log. */
  lemma WriteAlone(s: State, w: nat)
    requires s.holder == None && !s.failed && w < |s.todo| && s.todo[w] != []
    ensures var m := s.todo[w][0];
            var taken := Apply(s, Lock(w));
            var done := Apply(if m.payload == [] then Apply(taken, Send(HEADER_LEN, false))
                              else Apply(Apply(taken, Send(HEADER_LEN, false)), Send(|m.payload|, false)), Unlock);
            && done.wire == s.wire + Encode(m) && done.log == s.log + [(w, m)] && done.holder == None && !done.failed
            && done.todo == s.todo[w := s.todo[w][1..]]
  {
    var m := s.todo[w][0];
    assert |Header(m)| == HEADER_LEN;
    hide Header;
    assert Header(m)[..HEADER_LEN] == Header(m) && Header(m)[HEADER_LEN..] == [];
    assert m.payload[..|m.payload|] == m.payload && m.payload[|m.payload|..] == [];
    assert s.wire + Header(m) + m.payload == s.wire + (Header(m) + m.payload);
    assert s.wire + Header(m) + [] == s.wire + Header(m);
  }
}
