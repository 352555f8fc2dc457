/** A process-scoped forward: its listener, the bridges between accepted
    connections and device streams, and the shutdown protocol around them. */
module ForwardSession {

  /** The two ends of the n-th accepted connection's bridge. */
  datatype Closer = Conn(bridge: nat) | Stream(bridge: nat)

  /** What the session's lock protects, with the listener and the ends closed so far. */
  datatype Book = Book(closed: bool, listening: bool, active: set<Closer>, shut: set<Closer>)

  function Added(book: Book, c: Closer): Book {
    if book.closed then book.(shut := book.shut + {c}) else book.(active := book.active + {c})
  }

  function Removed(book: Book, c: Closer): Book {
    book.(active := book.active - {c})
  }

  function Shut(book: Book, c: Closer): Book {
    book.(shut := book.shut + {c})
  }

  /** What a Close that nobody interferes with leaves behind. */
  function ClosedBook(book: Book): Book {
    if book.closed then book else Book(true, false, book.active, book.shut + book.active)
  }

  function Of(closers: seq<Closer>): (r: set<Closer>)
    ensures forall c :: c in closers <==> c in r
  {
    set c | c in closers
  }

  class Forward {
    var closed: bool
    var listening: bool
    var active: set<Closer>
    var shut: set<Closer>

    ghost function View(): Book
      reads this
    {
      Book(closed, listening, active, shut)
    }

    constructor ()
      ensures View() == Book(false, true, {}, {})
    {
      closed, listening, active, shut := false, true, {}, {};
    }

    method Close()
      modifies this
      ensures View() == ClosedBook(old(View()))
    {
      if closed {
        return;
      }
      closed := true;
      var snapshot: seq<Closer> := [];
      var rest := active;
      while rest != {}
        invariant rest <= active && Of(snapshot) == active - rest
      {
        var c :| c in rest;
        snapshot := snapshot + [c];
        rest := rest - {c};
      }
      listening := false;
      for i := 0 to |snapshot|
        invariant closed && !listening && active == old(active)
        invariant shut == old(shut) + Of(snapshot[..i])
      {
        shut := shut + {snapshot[i]};
        assert snapshot[..i + 1] == snapshot[..i] + [snapshot[i]];
      }
      assert snapshot[..|snapshot|] == snapshot;
    }

    method AddActive(c: Closer)
      modifies this
      ensures View() == Added(old(View()), c)
    {
      if closed {
        shut := shut + {c};
        return;
      }
      active := active + {c};
    }

    method RemoveActive(c: Closer)
      modifies this
      ensures View() == Removed(old(View()), c)
    {
      active := active - {c};
    }
  }

  // ---- every interleaving ------------------------------------------------

  /** How far the goroutine serving one accepted connection has come. */
  datatype Phase =
    | Opening                 // OpenService is running
    | Refused                 // it failed
    | Opened
    | ConnAdded
    | Copying
    | ConnShut                // a copy has ended; closeBoth has closed the connection
    | BothShut                // and the stream
    | StreamRemoved
    | Leaving(bridged: bool)   // only bridgeWG.Done is left
    | Finished(bridged: bool)

  datatype AcceptLoop = Accepting | Waiting(failed: bool) | Sent(failed: bool)

  datatype Call = Entered | Closing(rest: set<Closer>, listenerClosed: bool) | Returned(first: bool)

  datatype Session = Session(
    book: Book,
    cancelled: bool,
    bridges: seq<Phase>,
    running: int,              // the wait group
    added: set<Closer>,        // closers whose addActive has completed
    accept: AcceptLoop,
    done: seq<bool>,           // values sent on done; true is an error
    calls: seq<Call>)          // calls of Close

  datatype Step =
    | Cancel
    | CallClose
    | Lock(k: nat)
    | CloseListener(k: nat)
    | CloseNext(k: nat, c: Closer)
    | Return(k: nat)
    | Accept
    | AcceptFails
    | Drained
    | OpenService(b: nat, fails: bool)
    | Advance(b: nat)

  function Start(): Session {
    Session(Book(false, true, {}, {}), false, [], 0, {}, Accepting, [], [])
  }

  /** The next statement of handleConn, once OpenService has returned. */
  function Advanced(x: Session, b: nat): Session
    requires b < |x.bridges|
  {
    match x.bridges[b]
    case Opening => x
    case Refused => x.(book := Shut(x.book, Conn(b)), bridges := x.bridges[b := Leaving(false)])
    case Opened => x.(book := Added(x.book, Conn(b)), added := x.added + {Conn(b)}, bridges := x.bridges[b := ConnAdded])
    case ConnAdded => x.(book := Added(x.book, Stream(b)), added := x.added + {Stream(b)}, bridges := x.bridges[b := Copying])
    case Copying => x.(book := Shut(x.book, Conn(b)), bridges := x.bridges[b := ConnShut])
    case ConnShut => x.(book := Shut(x.book, Stream(b)), bridges := x.bridges[b := BothShut])
    case BothShut => x.(book := Removed(x.book, Stream(b)), bridges := x.bridges[b := StreamRemoved])
    case StreamRemoved => x.(book := Removed(x.book, Conn(b)), bridges := x.bridges[b := Leaving(true)])
    case Leaving(bridged) => x.(running := x.running - 1, bridges := x.bridges[b := Finished(bridged)])
    case Finished(_) => x
  }

  function Apply(x: Session, step: Step): Session {
    match step
    case Cancel => x.(cancelled := true)
    case CallClose => x.(cancelled := true, calls := x.calls + [Entered])
    case Lock(k) =>
      if k < |x.calls| && x.calls[k].Entered? then
        if x.book.closed then x.(calls := x.calls[k := Returned(false)])
        else x.(book := x.book.(closed := true), calls := x.calls[k := Closing(x.book.active, false)])
      else x
    case CloseListener(k) =>
      if k < |x.calls| && x.calls[k].Closing? && !x.calls[k].listenerClosed then
        x.(book := x.book.(listening := false), calls := x.calls[k := Closing(x.calls[k].rest, true)])
      else x
    case CloseNext(k, c) =>
      if k < |x.calls| && x.calls[k].Closing? && x.calls[k].listenerClosed && c in x.calls[k].rest then
        x.(book := Shut(x.book, c), calls := x.calls[k := Closing(x.calls[k].rest - {c}, true)])
      else x
    case Return(k) =>
      if k < |x.calls| && x.calls[k].Closing? && x.calls[k].listenerClosed && x.calls[k].rest == {} then
        x.(calls := x.calls[k := Returned(true)])
      else x
    case Accept =>
      if x.accept.Accepting? && x.book.listening then x.(running := x.running + 1, bridges := x.bridges + [Opening]) else x
    case AcceptFails =>
      if x.accept.Accepting? then x.(accept := Waiting(!(x.cancelled || x.book.closed || !x.book.listening))) else x
    case Drained =>
      if x.accept.Waiting? && x.running == 0 then x.(accept := Sent(x.accept.failed), done := x.done + [x.accept.failed]) else x
    case OpenService(b, fails) =>
      if b < |x.bridges| && x.bridges[b].Opening? then x.(bridges := x.bridges[b := if fails then Refused else Opened]) else x
    case Advance(b) => if b < |x.bridges| then Advanced(x, b) else x
  }

  function Exec(x: Session, steps: seq<Step>): Session {
    if |steps| == 0 then x else Apply(Exec(x, steps[..|steps| - 1]), steps[|steps| - 1])
  }

  // ---- the invariant -----------------------------------------------------

  predicate First(call: Call) {
    call.Closing? || (call.Returned? && call.first)
  }

  predicate InSnapshot(x: Session, c: Closer) {
    exists k :: 0 <= k < |x.calls| && x.calls[k].Closing? && c in x.calls[k].rest
  }

  /** An added closer is closed, or registered with a session that is not closed,
      or still to be closed by the first Close. */
  ghost predicate AddedRight(x: Session) {
    forall c :: c in x.added ==>
      c in x.book.shut || (c in x.book.active && !x.book.closed) || InSnapshot(x, c)
  }

  /** A closer stays registered at most until its bridge has closed it. */
  ghost predicate ActiveRight(x: Session) {
    forall c :: c in x.book.active ==> c in x.added && c.bridge < |x.bridges| && Registers(x.bridges[c.bridge], c)
  }

  predicate Registers(p: Phase, c: Closer) {
    match p
    case ConnAdded => c.Conn?
    case Copying => true
    case ConnShut => true
    case BothShut => true
    case StreamRemoved => c.Conn?
    case _ => false
  }

  /** What each bridge has closed by the time it gets somewhere. */
  ghost predicate BridgesRight(x: Session) {
    forall b :: 0 <= b < |x.bridges| ==> match x.bridges[b]
      case ConnShut => Conn(b) in x.book.shut
      case BothShut => Conn(b) in x.book.shut && Stream(b) in x.book.shut
      case StreamRemoved => Conn(b) in x.book.shut && Stream(b) in x.book.shut
      case Leaving(bridged) => Conn(b) in x.book.shut && (bridged ==> Stream(b) in x.book.shut)
      case Finished(bridged) => Conn(b) in x.book.shut && (bridged ==> Stream(b) in x.book.shut)
      case _ => true
  }

  /** At most one Close is the first, and the flags say how far it has come. */
  ghost predicate CallsRight(x: Session) {
    && (forall k :: 0 <= k < |x.calls| && First(x.calls[k]) ==> x.book.closed)
    && (forall j, k :: 0 <= j < k < |x.calls| && First(x.calls[j]) ==> !First(x.calls[k]))
    && (forall k :: 0 <= k < |x.calls| && x.calls[k] == Returned(true) ==> !x.book.listening)
    && (forall k :: 0 <= k < |x.calls| && x.calls[k].Closing? && x.calls[k].listenerClosed ==> !x.book.listening)
    && (|x.calls| > 0 || x.book.closed ==> x.cancelled)
    && (!x.book.listening ==> x.book.closed)
  }

  function Unfinished(bridges: seq<Phase>): nat {
    if |bridges| == 0 then 0
    else Unfinished(bridges[..|bridges| - 1]) + if bridges[|bridges| - 1].Finished? then 0 else 1
  }

  ghost predicate WaitRight(x: Session) {
    && x.running == Unfinished(x.bridges)
    && x.done == (if x.accept.Sent? then [x.accept.failed] else [])
    && (x.accept.Sent? ==> x.running == 0)
  }

  ghost predicate Inv(x: Session) {
    AddedRight(x) && ActiveRight(x) && BridgesRight(x) && CallsRight(x) && WaitRight(x)
  }

  lemma {:induction false} UnfinishedUpdate(bridges: seq<Phase>, b: nat, p: Phase)
    requires b < |bridges|
    ensures Unfinished(bridges[b := p]) ==
      Unfinished(bridges) - (if bridges[b].Finished? then 0 else 1) + (if p.Finished? then 0 else 1)
  {
    var last := |bridges| - 1;
    var u := bridges[b := p];
    if b == last {
      assert u[..last] == bridges[..last];
    } else {
      assert u[..last] == bridges[..last][b := p];
      UnfinishedUpdate(bridges[..last], b, p);
    }
  }

  lemma {:induction false} NoneUnfinished(bridges: seq<Phase>)
    requires Unfinished(bridges) == 0
    ensures forall b :: 0 <= b < |bridges| ==> bridges[b].Finished?
  {
    if |bridges| > 0 { NoneUnfinished(bridges[..|bridges| - 1]); }
  }

  lemma AddedKept(x: Session, y: Session)
    requires AddedRight(x) && y.added == x.added && y.calls == x.calls
    requires x.book.shut <= y.book.shut && x.book.closed == y.book.closed
    requires forall c :: c in x.book.active && c !in y.book.active ==> c in y.book.shut
    ensures AddedRight(y)
  {
    forall c | c in x.added && InSnapshot(x, c) ensures InSnapshot(y, c) {}
    hide InSnapshot;
  }

  lemma AddKeeps(x: Session, b: nat, c: Closer, p: Phase)
    requires Inv(x) && b < |x.bridges| && c.bridge == b
    requires (x.bridges[b] == Opened && c == Conn(b) && p == ConnAdded) || (x.bridges[b] == ConnAdded && c == Stream(b) && p == Copying)
    ensures Inv(x.(book := Added(x.book, c), added := x.added + {c}, bridges := x.bridges[b := p]))
  {
    var y := x.(book := Added(x.book, c), added := x.added + {c}, bridges := x.bridges[b := p]);
    UnfinishedUpdate(x.bridges, b, p);
    assert AddedRight(y) by {
      forall d | InSnapshot(x, d) ensures InSnapshot(y, d) {}
      hide InSnapshot, ActiveRight, BridgesRight, CallsRight, WaitRight;
    }
    assert ActiveRight(y) by { hide AddedRight, BridgesRight, CallsRight, WaitRight; }
    assert BridgesRight(y) by { hide AddedRight, ActiveRight, CallsRight, WaitRight; }
    assert CallsRight(y) by { hide AddedRight, ActiveRight, BridgesRight, WaitRight; }
    hide AddedRight, ActiveRight, BridgesRight, CallsRight;
  }

  lemma AdvanceKeeps(x: Session, b: nat)
    requires Inv(x) && b < |x.bridges|
    ensures Inv(Advanced(x, b))
  {
    var y := Advanced(x, b);
    match x.bridges[b]
    case Opened => AddKeeps(x, b, Conn(b), ConnAdded);
    case ConnAdded => AddKeeps(x, b, Stream(b), Copying);
    case Opening =>
    case Finished(_) =>
    case _ =>
      UnfinishedUpdate(x.bridges, b, y.bridges[b]);
      AdvanceBooks(x, b);
      AddedKept(x, y);
      if x.accept.Sent? { NoneUnfinished(x.bridges); assert false; }
      hide AddedRight, ActiveRight, BridgesRight, CallsRight, Unfinished;
  }

  lemma AdvanceBooks(x: Session, b: nat)
    requires ActiveRight(x) && BridgesRight(x) && CallsRight(x) && b < |x.bridges|
    requires !x.bridges[b].Opened? && !x.bridges[b].ConnAdded?
    ensures var y := Advanced(x, b); ActiveRight(y) && BridgesRight(y) && CallsRight(y)
    ensures var y := Advanced(x, b);
            forall c :: c in x.book.active && c !in y.book.active ==> c in y.book.shut
  {
    AdvanceActive(x, b);
    var y := Advanced(x, b);
    assert BridgesRight(y) by { hide ActiveRight, CallsRight; }
    assert CallsRight(y) by { hide ActiveRight, BridgesRight; }
    hide CallsRight, ActiveRight, BridgesRight;
  }

  lemma AdvanceActive(x: Session, b: nat)
    requires ActiveRight(x) && BridgesRight(x) && b < |x.bridges| && !x.bridges[b].Opened? && !x.bridges[b].ConnAdded?
    ensures var y := Advanced(x, b);
            ActiveRight(y) && forall c :: c in x.book.active && c !in y.book.active ==> c in y.book.shut
  {
    var y := Advanced(x, b);
    assert forall c :: c in x.book.active && c !in y.book.active ==> c in y.book.shut by { hide ActiveRight; }
    assert y.book.active <= x.book.active && y.added == x.added && |y.bridges| == |x.bridges| by { hide ActiveRight, BridgesRight; }
    forall c | c in y.book.active ensures Registers(y.bridges[c.bridge], c) {
      assert Registers(x.bridges[c.bridge], c);
      hide ActiveRight, BridgesRight;
    }
    hide BridgesRight, Registers, Advanced;
  }

  lemma OpenKeeps(x: Session, b: nat, fails: bool)
    requires Inv(x) && b < |x.bridges| && x.bridges[b].Opening?
    ensures Inv(Apply(x, OpenService(b, fails)))
  {
    var y := Apply(x, OpenService(b, fails));
    UnfinishedUpdate(x.bridges, b, y.bridges[b]);
    AddedKept(x, y);
    assert ActiveRight(y) by { hide AddedRight, CallsRight, WaitRight; }
    assert BridgesRight(y) by { hide AddedRight, ActiveRight, CallsRight, WaitRight; }
    assert CallsRight(y) by { hide AddedRight, ActiveRight, BridgesRight, WaitRight; }
    hide AddedRight, ActiveRight, BridgesRight, CallsRight;
  }

  lemma AcceptKeeps(x: Session)
    requires Inv(x) && x.accept.Accepting?
    ensures Inv(Apply(x, Accept))
  {
    var y := Apply(x, Accept);
    assert y.bridges == x.bridges || y.bridges[..|y.bridges| - 1] == x.bridges;
    AddedKept(x, y);
    assert ActiveRight(y) by { hide AddedRight, BridgesRight, CallsRight, WaitRight; }
    assert BridgesRight(y) by { hide AddedRight, ActiveRight, CallsRight, WaitRight; }
    assert CallsRight(y) by { hide AddedRight, ActiveRight, BridgesRight, WaitRight; }
    hide AddedRight, ActiveRight, BridgesRight, CallsRight;
  }

  /** Steps of Close: what they must do to the snapshot. */
  lemma CloseKeeps(x: Session, y: Session, k: nat)
    requires Inv(x) && k < |x.calls| && |y.calls| == |x.calls| && y.calls == x.calls[k := y.calls[k]]
    requires y == x.(book := y.book, calls := y.calls)
    requires y.book.active == x.book.active && x.book.shut <= y.book.shut && (x.book.closed ==> y.book.closed)
    requires y.book.closed && !x.book.closed ==> y.calls[k].Closing? && x.book.active <= y.calls[k].rest
    requires x.calls[k].Closing? ==> x.calls[k].rest <= y.book.shut || (y.calls[k].Closing? && x.calls[k].rest <= y.calls[k].rest + y.book.shut)
    requires CallsRight(y)
    ensures Inv(y)
  {
    forall c | c in y.added
      ensures c in y.book.shut || (c in y.book.active && !y.book.closed) || InSnapshot(y, c)
    {
      if InSnapshot(x, c) {
        var j :| 0 <= j < |x.calls| && x.calls[j].Closing? && c in x.calls[j].rest;
        assert j != k ==> y.calls[j] == x.calls[j];
        if j == k && c !in y.book.shut { assert y.calls[k].Closing? && c in y.calls[k].rest; }
      } else if c in x.book.active && !x.book.closed && y.book.closed {
        assert y.calls[k].Closing? && c in y.calls[k].rest;
      }
    }
    assert ActiveRight(y) by { hide AddedRight, BridgesRight, CallsRight, WaitRight; }
    assert BridgesRight(y) by { hide AddedRight, ActiveRight, CallsRight, WaitRight; }
    hide ActiveRight, BridgesRight, CallsRight;
  }

  lemma CloseStepKeeps(x: Session, step: Step)
    requires Inv(x) && (step.Lock? || step.CloseListener? || step.CloseNext? || step.Return?)
    ensures Inv(Apply(x, step))
  {
    var y := Apply(x, step);
    if y != x {
      assert CallsRight(y) by { hide AddedRight, ActiveRight, BridgesRight, WaitRight, InSnapshot; }
      CloseKeeps(x, y, step.k);
    }
    hide Inv;
  }

  lemma CancelKeeps(x: Session, step: Step)
    requires Inv(x) && (step.Cancel? || step.CallClose?)
    ensures Inv(Apply(x, step))
  {
    var y := Apply(x, step);
    forall c | c in x.added && InSnapshot(x, c) ensures InSnapshot(y, c) {
      var k :| 0 <= k < |x.calls| && x.calls[k].Closing? && c in x.calls[k].rest;
      assert y.calls[k] == x.calls[k];
    }
    assert CallsRight(y) by { hide AddedRight, ActiveRight, BridgesRight, WaitRight, InSnapshot; }
    assert AddedRight(y) by { hide InSnapshot, ActiveRight, BridgesRight, CallsRight, WaitRight; }
    assert ActiveRight(y) by { hide AddedRight, BridgesRight, CallsRight, WaitRight, InSnapshot; }
    assert BridgesRight(y) by { hide AddedRight, ActiveRight, CallsRight, WaitRight, InSnapshot; }
    hide AddedRight, ActiveRight, BridgesRight, CallsRight;
  }

  lemma LoopKeeps(x: Session, step: Step)
    requires Inv(x) && (step.AcceptFails? || step.Drained?)
    ensures Inv(Apply(x, step))
  {
    var y := Apply(x, step);
    AddedKept(x, y);
    hide AddedRight;
  }

  lemma StepKeeps(x: Session, step: Step)
    requires Inv(x)
    ensures Inv(Apply(x, step))
  {
    match step
    case Advance(b) => if b < |x.bridges| { AdvanceKeeps(x, b); }
    case OpenService(b, fails) => if b < |x.bridges| && x.bridges[b].Opening? { OpenKeeps(x, b, fails); }
    case Accept => if x.accept.Accepting? { AcceptKeeps(x); }
    case AcceptFails => LoopKeeps(x, step);
    case Drained => LoopKeeps(x, step);
    case Cancel => CancelKeeps(x, step);
    case CallClose => CancelKeeps(x, step);
    case _ => CloseStepKeeps(x, step);
    hide Inv, Advanced;
  }

  lemma {:induction false} Always(steps: seq<Step>)
    ensures Inv(Exec(Start(), steps))
  {
    if |steps| > 0 {
      Always(steps[..|steps| - 1]);
      StepKeeps(Exec(Start(), steps[..|steps| - 1]), steps[|steps| - 1]);
      hide Inv, Apply;
    }
  }

  // ---- what holds in every interleaving ----------------------------------

  predicate CloseReturned(x: Session) {
    Returned(true) in x.calls
  }

  /** Main result. Once the first Close has returned, every closer whose addActive
      has completed is closed, also one that was added while the snapshot was
      being worked off; and the listener is closed. */
  lemma ClosedMeansClosed(steps: seq<Step>)
    requires CloseReturned(Exec(Start(), steps))
    ensures var x := Exec(Start(), steps); x.added <= x.book.shut && !x.book.listening
  {
    Always(steps);
    var x := Exec(Start(), steps);
    hide Exec, ActiveRight, BridgesRight, WaitRight;
    var k :| 0 <= k < |x.calls| && x.calls[k] == Returned(true);
    assert forall j :: 0 <= j < |x.calls| && x.calls[j].Closing? ==> First(x.calls[j]) && First(x.calls[k]);
  }

  lemma StepReturned(x: Session, step: Step)
    requires CloseReturned(x)
    ensures CloseReturned(Apply(x, step))
  {
    var k :| 0 <= k < |x.calls| && x.calls[k] == Returned(true);
    assert Apply(x, step).calls[k] == Returned(true);
  }

  /** And so it stays, whatever is added and whoever calls Close again later. */
  lemma {:induction false} ClosedForGood(before: seq<Step>, after: seq<Step>)
    requires CloseReturned(Exec(Start(), before))
    ensures var y := Exec(Start(), before + after);
            CloseReturned(y) && y.added <= y.book.shut && !y.book.listening
    decreases |after|
  {
    if |after| == 0 {
      assert before + after == before;
      ClosedMeansClosed(before);
    } else {
      var last := |after| - 1;
      assert (before + after)[..|before + after| - 1] == before + after[..last];
      ClosedForGood(before, after[..last]);
      StepReturned(Exec(Start(), before + after[..last]), after[last]);
      hide CloseReturned;
      ClosedMeansClosed(before + after);
    }
    hide Apply, CloseReturned;
  }

  /** Until a Close, what is registered is what has been added and not yet been
      closed by its own bridge: nothing is forgotten. */
  lemma OpenMeansRegistered(steps: seq<Step>)
    requires !Exec(Start(), steps).book.closed
    ensures var x := Exec(Start(), steps); x.added <= x.book.active + x.book.shut
  {
    Always(steps);
    var x := Exec(Start(), steps);
    hide Exec, ActiveRight, BridgesRight, WaitRight;
    assert forall k :: 0 <= k < |x.calls| ==> !First(x.calls[k]);
  }

  /** Main result. A value is sent on done at most once, and then no bridge runs,
      both ends of every bridge there ever was are closed, and nothing is
      registered any more. */
  lemma DoneMeansDrained(steps: seq<Step>)
    requires Exec(Start(), steps).done != []
    ensures var x := Exec(Start(), steps);
            && x.accept.Sent? && x.done == [x.accept.failed] && x.running == 0 && x.book.active == {}
            && (forall b :: 0 <= b < |x.bridges| ==> x.bridges[b].Finished? && Conn(b) in x.book.shut)
            && (forall b :: 0 <= b < |x.bridges| && x.bridges[b].bridged ==> Stream(b) in x.book.shut)
  {
    Always(steps);
    var x := Exec(Start(), steps);
    hide Exec, AddedRight, CallsRight;
    NoneUnfinished(x.bridges);
  }

  predicate Stopped(x: Session) {
    !x.accept.Accepting? || !x.book.listening
  }

  lemma StepStopped(x: Session, step: Step)
    requires Stopped(x)
    ensures Stopped(Apply(x, step)) && |Apply(x, step).bridges| == |x.bridges|
    ensures x.done != [] && WaitRight(x) ==> Apply(x, step).done == x.done
  {
    hide Unfinished, InSnapshot;
  }

  /** After the first Close has returned, or done has a value, no bridge starts;
      and a sent value stays the only one. */
  lemma {:induction false} NoBridgeAfterwards(before: seq<Step>, after: seq<Step>)
    requires CloseReturned(Exec(Start(), before)) || Exec(Start(), before).done != []
    ensures var x, y := Exec(Start(), before), Exec(Start(), before + after);
            && Stopped(y) && |y.bridges| == |x.bridges|
            && (x.done != [] ==> y.done == x.done)
    decreases |after|
  {
    if |after| == 0 {
      assert before + after == before;
      Always(before);
      if CloseReturned(Exec(Start(), before)) { ClosedMeansClosed(before); }
      hide Exec, AddedRight, ActiveRight, BridgesRight, CallsRight;
    } else {
      var last := |after| - 1;
      var steps := before + after[..last];
      assert (before + after)[..|before + after| - 1] == steps;
      NoBridgeAfterwards(before, after[..last]);
      Always(steps);
      StepStopped(Exec(Start(), steps), after[last]);
      hide Apply, Stopped, AddedRight, ActiveRight, BridgesRight, CallsRight;
    }
  }

  /** The accept loop reports an error exactly when accepting failed before anyone
      cancelled or closed the forward. */
  lemma ErrorMeansUnwanted(steps: seq<Step>)
    ensures var x := Exec(Start(), steps);
            x.accept.Accepting? ==> Apply(x, AcceptFails).accept == Waiting(!x.cancelled)
  {
    Always(steps);
    hide Exec, AddedRight, ActiveRight, BridgesRight, WaitRight;
  }

  // ---- the shutdown comes to its end -------------------------------------

  function Distance(p: Phase): nat {
    match p
    case Opening => 8
    case Opened => 7
    case ConnAdded => 6
    case Copying => 5
    case ConnShut => 4
    case BothShut => 3
    case StreamRemoved => 2
    case Refused => 2
    case Leaving(_) => 1
    case Finished(_) => 0
  }

  function Remaining(bridges: seq<Phase>): nat {
    if |bridges| == 0 then 0 else Remaining(bridges[..|bridges| - 1]) + Distance(bridges[|bridges| - 1])
  }

  lemma {:induction false} RemainingUpdate(bridges: seq<Phase>, b: nat, p: Phase)
    requires b < |bridges|
    ensures Remaining(bridges[b := p]) == Remaining(bridges) - Distance(bridges[b]) + Distance(p)
  {
    var last := |bridges| - 1;
    var u := bridges[b := p];
    if b == last {
      assert u[..last] == bridges[..last];
    } else {
      assert u[..last] == bridges[..last][b := p];
      RemainingUpdate(bridges[..last], b, p);
    }
    hide Distance;
  }

  /** Every step of a bridge brings the wait group nearer to zero, and no other
      step after the accept loop has ended takes it away again; a bridge that is
      not finished always has a next step. */
  lemma BridgesRunOut(x: Session, step: Step)
    requires Stopped(x)
    ensures Remaining(Apply(x, step).bridges) <= Remaining(x.bridges)
    ensures step.Advance? && step.b < |x.bridges| && !x.bridges[step.b].Opening? && !x.bridges[step.b].Finished? ==>
              Remaining(Apply(x, step).bridges) < Remaining(x.bridges)
    ensures step.OpenService? && step.b < |x.bridges| && x.bridges[step.b].Opening? ==>
              Remaining(Apply(x, step).bridges) < Remaining(x.bridges)
  {
    hide Remaining, InSnapshot, Added, Removed, Shut;
    var y := Apply(x, step);
    if (step.Advance? || step.OpenService?) && step.b < |x.bridges| {
      RemainingUpdate(x.bridges, step.b, y.bridges[step.b]);
      assert y.bridges == x.bridges[step.b := y.bridges[step.b]];
    } else {
      assert y.bridges == x.bridges by { hide Advanced; }
    }
  }

  /** A goroutine's own steps, in any order of the goroutines. */
  predicate OwnStep(step: Step) {
    step.OpenService? || step.Advance? || step.Drained?
  }

  lemma {:induction false} StepsConcatenate(x: Session, first: seq<Step>, second: seq<Step>)
    ensures Exec(x, first + second) == Exec(Exec(x, first), second)
  {
    if |second| == 0 {
      assert first + second == first;
    } else {
      assert (first + second)[..|first + second| - 1] == first + second[..|second| - 1];
      StepsConcatenate(x, first, second[..|second| - 1]);
    }
    hide Apply;
  }

  /** Wherever a run stands after the accept loop has ended, its bridges can run to
      their ends and done then gets its value: no reachable state is stuck. */
  lemma {:induction false} DoneStaysReachable(steps: seq<Step>) returns (more: seq<Step>)
    requires !Exec(Start(), steps).accept.Accepting?
    ensures forall i :: 0 <= i < |more| ==> OwnStep(more[i])
    ensures Exec(Start(), steps + more).done != []
    decreases Remaining(Exec(Start(), steps).bridges)
  {
    var x := Exec(Start(), steps);
    Always(steps);
    hide Exec;
    var next: Step;
    if b :| 0 <= b < |x.bridges| && !x.bridges[b].Finished? {
      next := if x.bridges[b].Opening? then OpenService(b, true) else Advance(b);
      StepsConcatenate(Start(), steps, [next]);
      ExecOne(x, next);
      BridgesRunOut(x, next);
      var rest := DoneStaysReachable(steps + [next]);
      more := [next] + rest;
      assert steps + more == steps + [next] + rest;
    } else if x.accept.Sent? {
      more := [];
      assert steps + more == steps;
    } else {
      AllFinished(x.bridges);
      more := [Drained];
      StepsConcatenate(Start(), steps, more);
      ExecOne(x, Drained);
    }
    hide Unfinished, Remaining, InSnapshot;
  }

  lemma ExecOne(x: Session, step: Step)
    ensures Exec(x, [step]) == Apply(x, step)
  {
    assert [step][..0] == [];
    assert Exec(x, []) == x;
    hide Apply;
  }

  lemma {:induction false} AllFinished(bridges: seq<Phase>)
    requires forall b :: 0 <= b < |bridges| ==> bridges[b].Finished?
    ensures Unfinished(bridges) == 0
  {
    if |bridges| > 0 { AllFinished(bridges[..|bridges| - 1]); }
  }

  // ---- a Close that nobody interferes with -------------------------------

  function CloseEach(k: nat, order: seq<Closer>): seq<Step> {
    seq(|order|, i requires 0 <= i < |order| => CloseNext(k, order[i]))
  }

  lemma {:induction false} SnapshotWorkedOff(x: Session, k: nat, order: seq<Closer>, i: nat)
    requires k < |x.calls| && x.calls[k] == Closing(Of(order), true) && i <= |order|
    requires forall a, b :: 0 <= a < b < |order| ==> order[a] != order[b]
    ensures Exec(x, CloseEach(k, order[..i])) ==
      x.(book := x.book.(shut := x.book.shut + Of(order[..i])), calls := x.calls[k := Closing(Of(order[i..]), true)])
  {
    hide Exec, Apply, CloseEach;
    if i == 0 {
      assert order[i..] == order && order[..i] == [];
      NothingToDo(x, k);
    } else {
      SnapshotWorkedOff(x, k, order, i - 1);
      var before := Exec(x, CloseEach(k, order[..i - 1]));
      OneMoreStep(x, k, order[..i]);
      assert order[..i][..i - 1] == order[..i - 1];
      CutSnapshot(order, i);
      ClosedNext(before, k, order[i - 1]);
      assert before.book.shut + {order[i - 1]} == x.book.shut + Of(order[..i]);
      hide Of;
    }
  }

  lemma NothingToDo(x: Session, k: nat)
    ensures Exec(x, CloseEach(k, [])) == x
  {
  }

  lemma OneMoreStep(x: Session, k: nat, order: seq<Closer>)
    requires |order| > 0
    ensures var last := |order| - 1;
            Exec(x, CloseEach(k, order)) == Apply(Exec(x, CloseEach(k, order[..last])), CloseNext(k, order[last]))
  {
    var last := |order| - 1;
    assert CloseEach(k, order)[..last] == CloseEach(k, order[..last]);
    hide Apply;
  }

  lemma CutSnapshot(order: seq<Closer>, i: nat)
    requires 0 < i <= |order| && forall a, b :: 0 <= a < b < |order| ==> order[a] != order[b]
    ensures Of(order[..i]) == Of(order[..i - 1]) + {order[i - 1]}
    ensures Of(order[i..]) == Of(order[i - 1..]) - {order[i - 1]} && order[i - 1] in Of(order[i - 1..])
  {
    assert order[..i] == order[..i - 1] + [order[i - 1]];
    assert order[i - 1..] == [order[i - 1]] + order[i..];
  }

  lemma ClosedNext(x: Session, k: nat, c: Closer)
    requires k < |x.calls| && x.calls[k].Closing? && x.calls[k].listenerClosed && c in x.calls[k].rest
    ensures Apply(x, CloseNext(k, c)) ==
      x.(book := x.book.(shut := x.book.shut + {c}), calls := x.calls[k := Closing(x.calls[k].rest - {c}, true)])
  {
  }

  /** Run to its end without interference, in any order of the snapshot, the steps
      of a first Close do what the method does. */
  lemma CloseAlone(x: Session, order: seq<Closer>)
    requires !x.book.closed && Of(order) == x.book.active
    requires forall a, b :: 0 <= a < b < |order| ==> order[a] != order[b]
    ensures var k := |x.calls|;
            var y := Exec(x, [CallClose, Lock(k), CloseListener(k)] + CloseEach(k, order) + [Return(k)]);
            y.book == ClosedBook(x.book) && y.calls == x.calls + [Returned(true)]
  {
    var k := |x.calls|;
    var head := [CallClose, Lock(k), CloseListener(k)];
    var x3 := Snapshotted(x);
    CloseHead(x);
    SnapshotWorkedOff(x3, k, order, |order|);
    assert order[..|order|] == order && order[|order|..] == [];
    var x4 := Exec(x3, CloseEach(k, order));
    StepsConcatenate(x, head, CloseEach(k, order));
    StepsConcatenate(x, head + CloseEach(k, order), [Return(k)]);
    ExecOne(x4, Return(k));
    assert x4.calls[k] == Closing({}, true);
    hide Exec, CloseEach, Advanced;
  }

  function Snapshotted(x: Session): Session {
    x.(cancelled := true, book := x.book.(closed := true, listening := false), calls := x.calls + [Closing(x.book.active, true)])
  }

  lemma CloseHead(x: Session)
    requires !x.book.closed
    ensures var k := |x.calls|; Exec(x, [CallClose, Lock(k), CloseListener(k)]) == Snapshotted(x)
  {
    var k := |x.calls|;
    var x1 := Apply(x, CallClose);
    var x2 := Apply(x1, Lock(k));
    assert Apply(x2, CloseListener(k)) == Snapshotted(x);
    ExecOne(x, CallClose);
    ExecOne(x1, Lock(k));
    ExecOne(x2, CloseListener(k));
    StepsConcatenate(x, [CallClose], [Lock(k)]);
    StepsConcatenate(x, [CallClose] + [Lock(k)], [CloseListener(k)]);
    assert [CallClose, Lock(k), CloseListener(k)] == [CallClose] + [Lock(k)] + [CloseListener(k)];
    hide Exec, Apply;
  }

  /** On an open forward an accepted connection whose service opens comes to be copied,
      with both its ends registered and the wait group one higher. */
  lemma BridgeAlone(x: Session)
    requires x.accept.Accepting? && x.book.listening && !x.book.closed
    ensures var b := |x.bridges|;
            Exec(x, [Accept, OpenService(b, false), Advance(b), Advance(b)])
              == x.(bridges := x.bridges + [Copying], running := x.running + 1,
                    book := x.book.(active := x.book.active + {Conn(b)} + {Stream(b)}),
                    added := x.added + {Conn(b)} + {Stream(b)})
  {
    var b := |x.bridges|;
    FourSteps(x, Accept, OpenService(b, false), Advance(b), Advance(b));
    AcceptAlone(x);
    AddTwice(x.(bridges := x.bridges + [Opened], running := x.running + 1), b);
    assert (x.bridges + [Opened])[b := Copying] == x.bridges + [Copying];
    hide Exec, Apply;
  }

  lemma AcceptAlone(x: Session)
    requires x.accept.Accepting? && x.book.listening
    ensures Apply(Apply(x, Accept), OpenService(|x.bridges|, false)) == x.(bridges := x.bridges + [Opened], running := x.running + 1)
  {
    assert (x.bridges + [Opening])[|x.bridges| := Opened] == x.bridges + [Opened];
  }

  lemma AddTwice(x: Session, b: nat)
    requires b < |x.bridges| && x.bridges[b] == Opened && !x.book.closed
    ensures Apply(Apply(x, Advance(b)), Advance(b))
      == x.(bridges := x.bridges[b := Copying], book := x.book.(active := x.book.active + {Conn(b)} + {Stream(b)}),
            added := x.added + {Conn(b)} + {Stream(b)})
  {
    assert x.bridges[b := ConnAdded][b := Copying] == x.bridges[b := Copying];
  }

  lemma FourSteps(x: Session, a: Step, b: Step, c: Step, d: Step)
    ensures Exec(x, [a, b, c, d]) == Apply(Apply(Apply(Apply(x, a), b), c), d)
  {
    ExecOne(x, a);
    StepsConcatenate(x, [a], [b]);
    ExecOne(Apply(x, a), b);
    StepsConcatenate(x, [a] + [b], [c]);
    ExecOne(Apply(Apply(x, a), b), c);
    StepsConcatenate(x, [a] + [b] + [c], [d]);
    ExecOne(Apply(Apply(Apply(x, a), b), c), d);
    assert [a] + [b] + [c] + [d] == [a, b, c, d];
    hide Apply, Exec;
  }

  /** A bridge whose copies have ended closes both ends, is no longer registered and
      leaves the wait group. */
  lemma BridgeEndsAlone(x: Session, b: nat)
    requires b < |x.bridges| && x.bridges[b] == Copying
    ensures var y := Advanced(Advanced(Advanced(Advanced(Advanced(x, b), b), b), b), b);
            && y.bridges == x.bridges[b := Finished(true)] && y.running == x.running - 1
            && y.book == x.book.(active := x.book.active - {Stream(b)} - {Conn(b)}, shut := x.book.shut + {Conn(b)} + {Stream(b)})
  {
    var x1 := Advanced(x, b);
    var x2 := Advanced(x1, b);
    var x3 := Advanced(x2, b);
    var x4 := Advanced(x3, b);
    assert x1.bridges == x.bridges[b := ConnShut] && x2.bridges == x.bridges[b := BothShut];
    assert x3.bridges == x.bridges[b := StreamRemoved] && x4.bridges == x.bridges[b := Leaving(true)];
  }
}
