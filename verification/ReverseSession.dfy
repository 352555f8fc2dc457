/** A process-scoped reverse: streams the device opens, each bridged to a host
    connection, and a Close that waits until no bridge runs. */
module ReverseSession {

  /** The two ends of the bridge for the n-th stream the device opened. */
  datatype Closer = Stream(offer: nat) | Conn(offer: nat)

  /** What the session's lock protects, with the ends closed so far. */
  datatype Book = Book(closed: bool, active: set<Closer>, activeBridges: nat, running: int, shut: set<Closer>)

  function Ends(i: nat): set<Closer> {
    {Stream(i), Conn(i)}
  }

  /** startBridge. */
  function Offered(book: Book, i: nat): Book {
    if book.closed then book.(shut := book.shut + {Stream(i)}) else book.(running := book.running + 1)
  }

  /** addBridge on a session that is not closed. */
  function Bridged(book: Book, i: nat): Book {
    book.(active := book.active + Ends(i), activeBridges := book.activeBridges + 1)
  }

  /** removeBridge. */
  function Unbridged(book: Book, i: nat): Book {
    book.(active := book.active - Ends(i), activeBridges := if book.activeBridges > 0 then book.activeBridges - 1 else 0)
  }

  function Shut(book: Book, ends: set<Closer>): Book {
    book.(shut := book.shut + ends)
  }

  class Reverse {
    var closed: bool
    var active: set<Closer>
    var activeBridges: nat
    var running: int
    var shut: set<Closer>

    ghost function View(): Book
      reads this
    {
      Book(closed, active, activeBridges, running, shut)
    }

    constructor ()
      ensures View() == Book(false, {}, 0, 0, {})
    {
      closed, active, activeBridges, running, shut := false, {}, 0, 0, {};
    }

    /** The critical section of Close: who is first, and what that one must close. */
    method BeginClose() returns (first: bool, snapshot: set<Closer>)
      modifies this
      ensures first == !old(closed) && snapshot == (if first then old(active) else {})
      ensures View() == old(View()).(closed := true)
    {
      if closed {
        return false, {};
      }
      closed := true;
      return true, active;
    }

    method StartBridge(i: nat) returns (ok: bool)
      modifies this
      ensures ok == !old(closed) && View() == Offered(old(View()), i)
    {
      if closed {
        shut := shut + {Stream(i)};
        return false;
      }
      running := running + 1;
      return true;
    }

    method AddBridge(i: nat)
      modifies this
      ensures View() == if old(closed) then Shut(old(View()), Ends(i)) else Bridged(old(View()), i)
    {
      if closed {
        shut := shut + {Stream(i)};
        shut := shut + {Conn(i)};
        assert shut == old(shut) + Ends(i);
        return;
      }
      active := active + Ends(i);
      activeBridges := activeBridges + 1;
    }

    method RemoveBridge(i: nat)
      modifies this
      ensures View() == Unbridged(old(View()), i)
    {
      active := active - Ends(i);
      if activeBridges > 0 {
        activeBridges := activeBridges - 1;
      }
    }
  }

  // ---- every interleaving ------------------------------------------------

  /** How far the handler of one offered stream has come. */
  datatype Phase =
    | TurnedAway
    | Dialling
    | DialFailed
    | Dialled
    | Rejected                    // addBridge found the session closed and has unlocked
    | HalfRejected                // it has closed the stream
    | Copying(registered: bool)
    | ConnShut(registered: bool)  // a copy has ended; closeBoth has closed the connection
    | BothShut(registered: bool)
    | Leaving(dialled: bool)      // only bridgeWG.Done is left
    | Finished(dialled: bool)

  /** A call of Close. */
  datatype Call =
    | Entered
    | Closing(rest: set<Closer>)
    | Removing
    | Waiting(failed: bool)
    | Returned(first: bool)

  datatype Session = Session(
    book: Book,
    offers: seq<Phase>,
    added: set<Closer>,        // closers whose addBridge has completed
    calls: seq<Call>,
    buffer: seq<bool>,         // done, a channel for one value; true is an error
    received: seq<bool>,
    dropped: bool)             // a value for done found it full

  datatype Step =
    | Offer
    | Dial(i: nat, fails: bool)
    | Advance(i: nat)
    | CallClose
    | Lock(k: nat)
    | CloseNext(k: nat, c: Closer)
    | SnapshotDone(k: nat)
    | RemoveReverse(k: nat, fails: bool)
    | Drained(k: nat)
    | Receive

  function Start(): Session {
    Session(Book(false, {}, 0, 0, {}), [], {}, [], [], [], false)
  }

  function At(x: Session, i: nat, book: Book, p: Phase): Session
    requires i < |x.offers|
  {
    x.(book := book, offers := x.offers[i := p])
  }

  /** The next statement of handleStream, once the dial has returned. */
  function Advanced(x: Session, i: nat): Session
    requires i < |x.offers|
  {
    match x.offers[i]
    case TurnedAway => x
    case Dialling => x
    case DialFailed => At(x, i, Shut(x.book, {Stream(i)}), Leaving(false))
    case Dialled =>
      if x.book.closed then At(x, i, x.book, Rejected)
      else At(x, i, Bridged(x.book, i), Copying(true)).(added := x.added + Ends(i))
    case Rejected => At(x, i, Shut(x.book, {Stream(i)}), HalfRejected)
    case HalfRejected => At(x, i, Shut(x.book, {Conn(i)}), Copying(false)).(added := x.added + Ends(i))
    case Copying(r) => At(x, i, Shut(x.book, {Conn(i)}), ConnShut(r))
    case ConnShut(r) => At(x, i, Shut(x.book, {Stream(i)}), BothShut(r))
    case BothShut(r) => At(x, i, Unbridged(x.book, i), Leaving(true))
    case Leaving(d) => At(x, i, x.book.(running := x.book.running - 1), Finished(d))
    case Finished(_) => x
  }

  function Apply(x: Session, step: Step): Session {
    match step
    case Offer =>
      x.(book := Offered(x.book, |x.offers|), offers := x.offers + [if x.book.closed then TurnedAway else Dialling])
    case Dial(i, fails) =>
      if i < |x.offers| && x.offers[i].Dialling? then x.(offers := x.offers[i := if fails then DialFailed else Dialled]) else x
    case Advance(i) => if i < |x.offers| then Advanced(x, i) else x
    case CallClose => x.(calls := x.calls + [Entered])
    case Lock(k) =>
      if k < |x.calls| && x.calls[k].Entered? then
        if x.book.closed then x.(calls := x.calls[k := Returned(false)])
        else x.(book := x.book.(closed := true), calls := x.calls[k := Closing(x.book.active)])
      else x
    case CloseNext(k, c) =>
      if k < |x.calls| && x.calls[k].Closing? && c in x.calls[k].rest then
        x.(book := Shut(x.book, {c}), calls := x.calls[k := Closing(x.calls[k].rest - {c})])
      else x
    case SnapshotDone(k) =>
      if k < |x.calls| && x.calls[k] == Closing({}) then x.(calls := x.calls[k := Removing]) else x
    case RemoveReverse(k, fails) =>
      if k < |x.calls| && x.calls[k].Removing? then x.(calls := x.calls[k := Waiting(fails)]) else x
    case Drained(k) =>
      if k < |x.calls| && x.calls[k].Waiting? && x.book.running == 0 then
        var y := x.(calls := x.calls[k := Returned(true)]);
        if |x.buffer| < 1 then y.(buffer := x.buffer + [x.calls[k].failed]) else y.(dropped := true)
      else x
    case Receive =>
      if |x.buffer| > 0 then x.(buffer := x.buffer[1..], received := x.received + [x.buffer[0]]) else x
  }

  function Exec(x: Session, steps: seq<Step>): Session {
    if |steps| == 0 then x else Apply(Exec(x, steps[..|steps| - 1]), steps[|steps| - 1])
  }

  // ---- the invariant -----------------------------------------------------

  predicate First(call: Call) {
    !call.Entered? && call != Returned(false)
  }

  predicate Running(p: Phase) {
    !p.TurnedAway? && !p.Finished?
  }

  predicate Registered(p: Phase) {
    match p
    case Copying(r) => r
    case ConnShut(r) => r
    case BothShut(r) => r
    case _ => false
  }

  /** A bridge that came to a closed session; it runs but is not registered. */
  predicate Late(p: Phase) {
    match p
    case Rejected => true
    case HalfRejected => true
    case Copying(r) => !r
    case ConnShut(r) => !r
    case BothShut(r) => !r
    case _ => false
  }

  function CountRunning(offers: seq<Phase>): nat {
    if |offers| == 0 then 0
    else CountRunning(offers[..|offers| - 1]) + if Running(offers[|offers| - 1]) then 1 else 0
  }

  function CountRegistered(offers: seq<Phase>): nat {
    if |offers| == 0 then 0
    else CountRegistered(offers[..|offers| - 1]) + if Registered(offers[|offers| - 1]) then 1 else 0
  }

  predicate InSnapshot(x: Session, c: Closer) {
    exists k :: 0 <= k < |x.calls| && x.calls[k].Closing? && c in x.calls[k].rest
  }

  ghost predicate AddedRight(x: Session) {
    forall c :: c in x.added ==>
      c in x.book.shut || (c in x.book.active && !x.book.closed) || InSnapshot(x, c)
  }

  /** The active set is the ends of the registered bridges. */
  ghost predicate ActiveRight(x: Session) {
    && (forall c :: c in x.book.active <==> c.offer < |x.offers| && Registered(x.offers[c.offer]))
    && x.book.active <= x.added
  }

  ghost predicate OffersRight(x: Session) {
    forall i :: 0 <= i < |x.offers| ==> ClosedBy(x.offers[i], i, x.book.shut)
  }

  /** What a bridge has closed by the time it gets somewhere. */
  predicate ClosedBy(p: Phase, i: nat, shut: set<Closer>) {
    match p
    case TurnedAway => Stream(i) in shut
    case HalfRejected => Stream(i) in shut
    case Copying(r) => r || Ends(i) <= shut
    case ConnShut(_) => Conn(i) in shut
    case BothShut(_) => Ends(i) <= shut
    case Leaving(d) => Stream(i) in shut && (d ==> Conn(i) in shut)
    case Finished(d) => Stream(i) in shut && (d ==> Conn(i) in shut)
    case _ => true
  }

  lemma StaysClosed(p: Phase, i: nat, before: set<Closer>, after: set<Closer>)
    requires before <= after && ClosedBy(p, i, before)
    ensures ClosedBy(p, i, after)
  {
  }

  ghost predicate CallsRight(x: Session) {
    && (forall k :: 0 <= k < |x.calls| && First(x.calls[k]) ==> x.book.closed)
    && (forall j, k :: 0 <= j < k < |x.calls| && First(x.calls[j]) ==> !First(x.calls[k]))
  }

  /** The wait group counts the running bridges, and the first Close has returned
      only when there were none; since then none has started. */
  ghost predicate CountsRight(x: Session) {
    && x.book.running == CountRunning(x.offers)
    && x.book.activeBridges <= CountRegistered(x.offers)
    && (!x.book.closed ==> x.book.activeBridges == CountRegistered(x.offers))
    && (!x.book.closed ==> forall i :: 0 <= i < |x.offers| ==> !Late(x.offers[i]))
    && (Returned(true) in x.calls ==> x.book.running == 0)
  }

  ghost predicate DoneRight(x: Session) {
    && !x.dropped
    && |x.buffer| + |x.received| == if Returned(true) in x.calls then 1 else 0
  }

  ghost predicate Inv(x: Session) {
    AddedRight(x) && ActiveRight(x) && OffersRight(x) && CallsRight(x) && CountsRight(x) && DoneRight(x)
  }

  lemma {:induction false} CountUpdate(offers: seq<Phase>, i: nat, p: Phase)
    requires i < |offers|
    ensures CountRunning(offers[i := p]) ==
      CountRunning(offers) - (if Running(offers[i]) then 1 else 0) + (if Running(p) then 1 else 0)
    ensures CountRegistered(offers[i := p]) ==
      CountRegistered(offers) - (if Registered(offers[i]) then 1 else 0) + (if Registered(p) then 1 else 0)
  {
    var last := |offers| - 1;
    var u := offers[i := p];
    if i == last {
      assert u[..last] == offers[..last];
    } else {
      assert u[..last] == offers[..last][i := p];
      CountUpdate(offers[..last], i, p);
    }
    hide Running, Registered;
  }

  lemma {:induction false} CountZero(offers: seq<Phase>)
    requires CountRunning(offers) == 0
    ensures forall i :: 0 <= i < |offers| ==> !Running(offers[i])
    ensures CountRegistered(offers) == 0
  {
    if |offers| > 0 { CountZero(offers[..|offers| - 1]); }
  }

  lemma AdvanceActive(x: Session, i: nat)
    requires ActiveRight(x) && i < |x.offers|
    ensures ActiveRight(Advanced(x, i))
  {
    EndsAre(i);
    AdvanceFrame(x, i);
    hide Advanced, Ends, Registered;
  }

  /** What a step does to the active set, and to the bridge's place in it. */
  lemma AdvanceFrame(x: Session, i: nat)
    requires i < |x.offers|
    ensures var y := Advanced(x, i);
            && y.offers == x.offers[i := y.offers[i]] && x.added <= y.added
            && (|| (y.book.active == x.book.active && Registered(y.offers[i]) == Registered(x.offers[i]))
                || (y.book.active == x.book.active + Ends(i) && Registered(y.offers[i]) && Ends(i) <= y.added)
                || (y.book.active == x.book.active - Ends(i) && !Registered(y.offers[i])))
  {
    hide Ends;
    var y := Advanced(x, i);
    if x.offers[i].Dialled? && !x.book.closed {
      assert y.book.active == x.book.active + Ends(i) && Registered(y.offers[i]) && Ends(i) <= y.added;
    } else if x.offers[i].BothShut? {
      assert y.book.active == x.book.active - Ends(i) && !Registered(y.offers[i]);
    } else {
      assert y.book.active == x.book.active && Registered(y.offers[i]) == Registered(x.offers[i]);
    }
    hide Advanced, Registered;
  }

  lemma EndsAre(i: nat)
    ensures forall c :: c in Ends(i) <==> c.offer == i
  {
    forall c: Closer | c.offer == i ensures c in Ends(i) {
      match c { case Stream(_) => case Conn(_) => }
    }
  }

  lemma AdvanceOffers(x: Session, i: nat)
    requires OffersRight(x) && i < |x.offers|
    ensures OffersRight(Advanced(x, i))
  {
    var y := Advanced(x, i);
    AdvanceOwn(x, i);
    hide ClosedBy, Advanced;
    forall j | 0 <= j < |y.offers| && j != i ensures ClosedBy(y.offers[j], j, y.book.shut) {
      StaysClosed(x.offers[j], j, x.book.shut, y.book.shut);
    }
  }

  lemma AdvanceOwn(x: Session, i: nat)
    requires i < |x.offers| && ClosedBy(x.offers[i], i, x.book.shut)
    ensures var y := Advanced(x, i);
            && y.offers == x.offers[i := y.offers[i]] && x.book.shut <= y.book.shut
            && ClosedBy(y.offers[i], i, y.book.shut)
  {
  }

  lemma AdvanceAdded(x: Session, i: nat)
    requires AddedRight(x) && OffersRight(x) && i < |x.offers|
    ensures AddedRight(Advanced(x, i))
  {
    var y := Advanced(x, i);
    forall c | InSnapshot(x, c) ensures InSnapshot(y, c) {}
    hide InSnapshot;
  }

  lemma AdvanceCounts(x: Session, i: nat)
    requires CountsRight(x) && DoneRight(x) && CallsRight(x) && i < |x.offers|
    ensures CountsRight(Advanced(x, i)) && DoneRight(Advanced(x, i)) && CallsRight(Advanced(x, i))
  {
    var y := Advanced(x, i);
    AdvanceNumbers(x, i);
    assert y.calls == x.calls && y.buffer == x.buffer && y.received == x.received && y.dropped == x.dropped
      && y.book.closed == x.book.closed by { hide CountsRight, DoneRight, CallsRight; }
    hide CountRunning, CountRegistered, Advanced, Late;
  }

  function One(b: bool): nat {
    if b then 1 else 0
  }

  /** What a step does to the counters, beside what it does to its bridge. */
  lemma AdvanceDelta(x: Session, i: nat)
    requires i < |x.offers|
    ensures var y := Advanced(x, i);
            var p, q := x.offers[i], y.offers[i];
            && y.offers == x.offers[i := q] && y.calls == x.calls && y.book.closed == x.book.closed
            && (Late(q) ==> Late(p) || x.book.closed)
            && y.book.running - x.book.running == One(Running(q)) - One(Running(p))
            && (!Running(p) ==> q == p)
  {
    hide Ends, Registered;
  }

  lemma AdvanceBridges(x: Session, i: nat)
    requires i < |x.offers|
    ensures var y := Advanced(x, i);
            var p, q := x.offers[i], y.offers[i];
            && (|| y.book.activeBridges - x.book.activeBridges == One(Registered(q)) - One(Registered(p))
                || (y.book.activeBridges <= x.book.activeBridges && Late(p) && Registered(q) == Registered(p))
                || (y.book.activeBridges == 0 == x.book.activeBridges && Registered(p) && !Registered(q)))
  {
    hide Ends, Running;
  }

  lemma AdvanceNumbers(x: Session, i: nat)
    requires CountsRight(x) && i < |x.offers|
    ensures CountsRight(Advanced(x, i))
  {
    AdvanceDelta(x, i);
    AdvanceBridges(x, i);
    CountUpdate(x.offers, i, Advanced(x, i).offers[i]);
    hide Advanced, CountRunning, CountRegistered, Late, Running, Registered;
    if x.book.running == 0 { CountZero(x.offers); }
    if Late(x.offers[i]) { assert x.book.closed; }
  }

  lemma AdvanceKeeps(x: Session, i: nat)
    requires Inv(x) && i < |x.offers|
    ensures Inv(Advanced(x, i))
  {
    AdvanceActive(x, i);
    AdvanceOffers(x, i);
    AdvanceAdded(x, i);
    AdvanceCounts(x, i);
    hide Advanced, AddedRight, ActiveRight, OffersRight, CallsRight, CountsRight, DoneRight;
  }

  lemma DialKeeps(x: Session, i: nat, fails: bool)
    requires Inv(x) && i < |x.offers| && x.offers[i].Dialling?
    ensures Inv(Apply(x, Dial(i, fails)))
  {
    var y := Apply(x, Dial(i, fails));
    CountUpdate(x.offers, i, y.offers[i]);
    forall c | InSnapshot(x, c) ensures InSnapshot(y, c) {}
    hide InSnapshot, CountRunning, CountRegistered;
  }

  lemma OfferKeeps(x: Session)
    requires Inv(x)
    ensures Inv(Apply(x, Offer))
  {
    var y := Apply(x, Offer);
    assert y.offers[..|x.offers|] == x.offers;
    forall c | InSnapshot(x, c) ensures InSnapshot(y, c) {}
    assert Returned(true) in x.calls ==> x.book.closed;
    hide InSnapshot;
  }

  lemma CloseAdded(x: Session, step: Step)
    requires AddedRight(x) && (step.CallClose? || step.Lock? || step.CloseNext? || step.SnapshotDone? || step.RemoveReverse? || step.Drained?)
    ensures AddedRight(Apply(x, step))
  {
    var y := Apply(x, step);
    forall c | c in y.added
      ensures c in y.book.shut || (c in y.book.active && !y.book.closed) || InSnapshot(y, c)
    {
      if InSnapshot(x, c) && c !in y.book.shut {
        var k :| 0 <= k < |x.calls| && x.calls[k].Closing? && c in x.calls[k].rest;
        assert y.calls[k].Closing? && c in y.calls[k].rest;
      } else if c in x.book.active && !x.book.closed && y.book.closed {
        assert y.calls[step.k].Closing? && c in y.calls[step.k].rest;
      }
    }
  }

  lemma CloseKeeps(x: Session, step: Step)
    requires Inv(x) && (step.CallClose? || step.Lock? || step.CloseNext? || step.SnapshotDone? || step.RemoveReverse? || step.Drained?)
    ensures Inv(Apply(x, step))
  {
    CloseAdded(x, step);
    CloseBooks(x, step);
    CloseDone(x, step);
    hide Apply, AddedRight, ActiveRight, OffersRight, CallsRight, CountsRight, DoneRight;
  }

  lemma CloseBooks(x: Session, step: Step)
    requires ActiveRight(x) && OffersRight(x) && CallsRight(x)
    requires step.CallClose? || step.Lock? || step.CloseNext? || step.SnapshotDone? || step.RemoveReverse? || step.Drained?
    ensures var y := Apply(x, step); ActiveRight(y) && OffersRight(y) && CallsRight(y)
  {
    var y := Apply(x, step);
    assert CallsRight(y) by { hide ActiveRight, OffersRight; }
    assert y.offers == x.offers && y.book.active == x.book.active;
    hide CallsRight, First;
  }

  lemma CloseDone(x: Session, step: Step)
    requires CountsRight(x) && DoneRight(x) && CallsRight(x)
    requires step.CallClose? || step.Lock? || step.CloseNext? || step.SnapshotDone? || step.RemoveReverse? || step.Drained?
    ensures var y := Apply(x, step); CountsRight(y) && DoneRight(y)
  {
    var y := Apply(x, step);
    if Returned(true) in x.calls {
      var k :| 0 <= k < |x.calls| && x.calls[k] == Returned(true);
      assert y.calls[k] == Returned(true);
      assert forall j :: 0 <= j < |x.calls| && j != k ==> !First(x.calls[j]);
    } else if step.Drained? && y != x {
      assert y.calls[step.k] == Returned(true);
    } else {
      forall k | 0 <= k < |y.calls| ensures y.calls[k] != Returned(true) {
        if k < |x.calls| { assert x.calls[k] in x.calls; }
      }
    }
  }

  lemma ReceiveKeeps(x: Session)
    requires Inv(x)
    ensures Inv(Apply(x, Receive))
  {
    var y := Apply(x, Receive);
    forall c | InSnapshot(x, c) ensures InSnapshot(y, c) {}
    hide InSnapshot;
  }

  lemma StepKeeps(x: Session, step: Step)
    requires Inv(x)
    ensures Inv(Apply(x, step))
  {
    match step
    case Offer => OfferKeeps(x);
    case Dial(i, fails) => if i < |x.offers| && x.offers[i].Dialling? { DialKeeps(x, i, fails); }
    case Advance(i) => if i < |x.offers| { AdvanceKeeps(x, i); }
    case Receive => ReceiveKeeps(x);
    case _ => CloseKeeps(x, step);
    hide Inv, Advanced;
  }

  lemma {:induction false} Always(steps: seq<Step>)
    ensures Inv(Exec(Start(), steps))
  {
    if |steps| > 0 {
      Always(steps[..|steps| - 1]);
      StepKeeps(Exec(Start(), steps[..|steps| - 1]), steps[|steps| - 1]);
      hide Inv, Apply;
    }
  }

  // ---- what holds in every interleaving ----------------------------------

  /** Main result. When the first Close has returned no bridge runs; every stream
      the device ever opened is closed, and so is every host connection that was
      dialled for one; nothing is registered. */
  lemma ClosedMeansQuiet(steps: seq<Step>)
    requires Returned(true) in Exec(Start(), steps).calls
    ensures var x := Exec(Start(), steps);
            && x.book.closed && x.book.running == 0 && x.book.active == {} && x.book.activeBridges == 0
            && (forall i :: 0 <= i < |x.offers| ==>
                  && (x.offers[i].TurnedAway? || x.offers[i].Finished?) && Stream(i) in x.book.shut
                  && (x.offers[i].Finished? && x.offers[i].dialled ==> Conn(i) in x.book.shut))
  {
    Always(steps);
    var x := Exec(Start(), steps);
    hide Exec, AddedRight, CountRunning, CountRegistered;
    CountZero(x.offers);
  }

  lemma StepClosed(x: Session, step: Step)
    requires x.book.closed
    ensures var y := Apply(x, step);
            && y.book.closed && |x.offers| <= |y.offers|
            && (forall i :: 0 <= i < |y.offers| && Running(y.offers[i]) ==> i < |x.offers| && Running(x.offers[i]))
  {
  }

  /** Once closed is set no bridge starts: whatever runs later was running then, so
      the wait covers all bridges. */
  lemma {:induction false} NoBridgeOnceClosed(before: seq<Step>, after: seq<Step>)
    requires Exec(Start(), before).book.closed
    ensures var x, y := Exec(Start(), before), Exec(Start(), before + after);
            && y.book.closed && |x.offers| <= |y.offers|
            && (forall i :: 0 <= i < |y.offers| && Running(y.offers[i]) ==> i < |x.offers| && Running(x.offers[i]))
    decreases |after|
  {
    if |after| == 0 {
      assert before + after == before;
    } else {
      var last := |after| - 1;
      assert (before + after)[..|before + after| - 1] == before + after[..last];
      NoBridgeOnceClosed(before, after[..last]);
      StepClosed(Exec(Start(), before + after[..last]), after[last]);
    }
    hide Apply, Running;
  }

  /** When the first Close starts to wait, every end whose addBridge has completed is
      closed: it waits only for copies whose ends are closed, for dials, and for
      bridges that are closing their own ends. */
  lemma WaitsForClosedEnds(steps: seq<Step>, k: nat)
    requires var x := Exec(Start(), steps); k < |x.calls| && (x.calls[k].Removing? || x.calls[k].Waiting?)
    ensures Exec(Start(), steps).added <= Exec(Start(), steps).book.shut
  {
    Always(steps);
    var x := Exec(Start(), steps);
    hide Exec, ActiveRight, OffersRight, CountsRight, DoneRight;
    assert First(x.calls[k]);
    assert forall j :: 0 <= j < |x.calls| && x.calls[j].Closing? ==> First(x.calls[j]);
  }

  function EndsOf(offers: seq<Phase>): set<Closer> {
    if |offers| == 0 then {}
    else EndsOf(offers[..|offers| - 1]) + if Registered(offers[|offers| - 1]) then Ends(|offers| - 1) else {}
  }

  lemma {:induction false} EndsMember(offers: seq<Phase>, c: Closer)
    ensures c in EndsOf(offers) <==> c.offer < |offers| && Registered(offers[c.offer])
  {
    if |offers| > 0 { EndsMember(offers[..|offers| - 1], c); }
    hide Registered;
  }

  lemma {:induction false} EndsCount(offers: seq<Phase>)
    ensures |EndsOf(offers)| == 2 * CountRegistered(offers)
  {
    if |offers| > 0 {
      var last := |offers| - 1;
      EndsCount(offers[..last]);
      EndsMember(offers[..last], Stream(last));
      EndsMember(offers[..last], Conn(last));
    }
    hide Registered;
  }

  /** Until Close, the number reported to the server is the number of registered
      bridges, each with both its ends in the active set. */
  lemma CountIsRight(steps: seq<Step>)
    ensures var x := Exec(Start(), steps);
            && x.book.active == EndsOf(x.offers)
            && x.book.activeBridges <= CountRegistered(x.offers)
            && (!x.book.closed ==> x.book.activeBridges == CountRegistered(x.offers) && |x.book.active| == 2 * x.book.activeBridges)
  {
    Always(steps);
    var x := Exec(Start(), steps);
    EndsCount(x.offers);
    forall c ensures c in x.book.active <==> c in EndsOf(x.offers) { EndsMember(x.offers, c); }
    hide Exec, EndsOf, AddedRight, OffersRight, CallsRight, DoneRight, CountRegistered, CountRunning, Registered;
  }

  /** A step that takes a bridge off the count that was never put on it. */
  predicate RemovesLate(x: Session, step: Step) {
    step.Advance? && step.i < |x.offers| && x.offers[step.i] == BothShut(false)
  }

  /** How often that happens in a run. */
  function LateRemovals(steps: seq<Step>): nat {
    if |steps| == 0 then 0
    else
      LateRemovals(steps[..|steps| - 1]) + One(RemovesLate(Exec(Start(), steps[..|steps| - 1]), steps[|steps| - 1]))
  }

  function AtLeastZero(n: int): nat {
    if n > 0 then n else 0
  }

  /** What a bridge's step does to the count, and to the number of registered bridges. */
  lemma AdvanceCountsExactly(x: Session, i: nat)
    requires i < |x.offers|
    ensures var y := Advanced(x, i);
            var a, b := x.book.activeBridges, y.book.activeBridges;
            var c, d := CountRegistered(x.offers), CountRegistered(y.offers);
            && y.book.closed == x.book.closed
            && (|| (b == a && d == c && x.offers[i] != BothShut(false))
                || (b == a + 1 && d == c + 1 && !x.book.closed && x.offers[i] == Dialled)
                || (b == AtLeastZero(a - 1) && d == c - 1 && x.offers[i] == BothShut(true))
                || (b == AtLeastZero(a - 1) && d == c && x.offers[i] == BothShut(false)))
  {
    AdvanceDelta(x, i);
    CountUpdate(x.offers, i, Advanced(x, i).offers[i]);
    hide CountRegistered, CountRunning, Ends, Running, Late;
  }

  lemma OtherStepsKeepCounts(x: Session, step: Step)
    requires !step.Advance?
    ensures var y := Apply(x, step);
            && y.book.activeBridges == x.book.activeBridges && CountRegistered(y.offers) == CountRegistered(x.offers)
            && (x.book.closed ==> y.book.closed)
  {
    var y := Apply(x, step);
    if step.Dial? && step.i < |x.offers| && x.offers[step.i].Dialling? {
      CountUpdate(x.offers, step.i, y.offers[step.i]);
    } else if step.Offer? {
      assert y.offers[..|x.offers|] == x.offers;
    } else {
      assert y.offers == x.offers;
    }
  }

  lemma OpenMeansNoLate(steps: seq<Step>)
    ensures var x := Exec(Start(), steps);
            !x.book.closed ==> forall i :: 0 <= i < |x.offers| ==> !Late(x.offers[i])
  {
    Always(steps);
    hide Exec, AddedRight, ActiveRight, OffersRight, CallsRight, DoneRight, Late;
  }

  /** Main result. In every run the count is the number of registered bridges less the
      late removals so far, never below zero; and there is none before Close. */
  lemma {:induction false} CountExactly(steps: seq<Step>)
    ensures var x := Exec(Start(), steps);
            && x.book.activeBridges == AtLeastZero(CountRegistered(x.offers) - LateRemovals(steps))
            && (!x.book.closed ==> LateRemovals(steps) == 0)
  {
    hide Exec, Apply, CountRegistered, RemovesLate, LateRemovals, Late, Start;
    if |steps| > 0 {
      var before, step := steps[..|steps| - 1], steps[|steps| - 1];
      CountExactly(before);
      OpenMeansNoLate(before);
      CountsStep(Exec(Start(), before), step);
      RunLast(steps);
      var x, y := Exec(Start(), before), Exec(Start(), steps);
      CountArithmetic(x.book.activeBridges, CountRegistered(x.offers), LateRemovals(before), x.book.closed,
        y.book.activeBridges, CountRegistered(y.offers), RemovesLate(x, step));
    } else {
      NothingCounted();
      assert steps == [];
    }
  }

  lemma NothingCounted()
    ensures var x := Exec(Start(), []);
            x.book.activeBridges == 0 && CountRegistered(x.offers) == 0 && LateRemovals([]) == 0
  {
  }

  /** a counts c bridges after l late removals; b, d and late are one step on. */
  lemma CountArithmetic(a: nat, c: nat, l: nat, closed: bool, b: nat, d: nat, late: bool)
    requires a == AtLeastZero(c - l) && (!closed ==> l == 0)
    requires || (b == a && d == c && !late)
             || (b == a + 1 && d == c + 1 && !closed && !late)
             || (b == AtLeastZero(a - 1) && d == c - 1 && !late)
             || (b == AtLeastZero(a - 1) && d == c && closed && late)
    ensures b == AtLeastZero(d - (l + One(late))) && (!closed ==> l + One(late) == 0)
  {
  }

  lemma RunLast(steps: seq<Step>)
    requires |steps| > 0
    ensures var before, step := steps[..|steps| - 1], steps[|steps| - 1];
            && Exec(Start(), steps) == Apply(Exec(Start(), before), step)
            && LateRemovals(steps) == LateRemovals(before) + One(RemovesLate(Exec(Start(), before), step))
  {
    hide Apply, RemovesLate;
  }

  /** The count, the number of registered bridges and the late removals in one step. */
  lemma CountsStep(x: Session, step: Step)
    requires !x.book.closed ==> forall i :: 0 <= i < |x.offers| ==> !Late(x.offers[i])
    ensures var y := Apply(x, step);
            var a, b := x.book.activeBridges, y.book.activeBridges;
            var c, d := CountRegistered(x.offers), CountRegistered(y.offers);
            && (x.book.closed ==> y.book.closed)
            && (|| (b == a && d == c && !RemovesLate(x, step))
                || (b == a + 1 && d == c + 1 && !x.book.closed && !RemovesLate(x, step))
                || (b == AtLeastZero(a - 1) && d == c - 1 && !RemovesLate(x, step))
                || (b == AtLeastZero(a - 1) && d == c && x.book.closed && RemovesLate(x, step)))
  {
    if step.Advance? {
      if step.i < |x.offers| {
        AdvanceCountsExactly(x, step.i);
        assert x.offers[step.i] == BothShut(false) ==> Late(x.offers[step.i]);
      }
      hide Advanced, CountRegistered;
    } else {
      OtherStepsKeepCounts(x, step);
      hide Apply, CountRegistered;
    }
  }

  /** The count is right exactly as long as no late bridge has been taken off it, or
      when no registered bridge is left. */
  lemma CountRightExactly(steps: seq<Step>)
    ensures var x := Exec(Start(), steps);
            x.book.activeBridges == CountRegistered(x.offers) <==> LateRemovals(steps) == 0 || CountRegistered(x.offers) == 0
  {
    CountExactly(steps);
    hide Exec, CountRegistered, LateRemovals;
  }

  /** done gets one value, from the first Close, and has room for it. */
  lemma DoneOnce(steps: seq<Step>)
    ensures var x := Exec(Start(), steps);
            && !x.dropped
            && |x.received| + |x.buffer| == (if Returned(true) in x.calls then 1 else 0)
  {
    Always(steps);
    hide Exec, AddedRight, ActiveRight, OffersRight, CallsRight, CountsRight;
  }

  /** After Close the number may fall behind, because a late bridge is taken off it
      too although it was never added: here one registered bridge still copies, and
      the number is zero. */
  lemma CountMayFallBehind() returns (steps: seq<Step>)
    ensures var x := Exec(Start(), steps);
            && x.offers == [Copying(true), Leaving(true)] && CountRegistered(x.offers) == 1 && x.book.activeBridges == 0
            && LateRemovals(steps) > 0
  {
    var x, before := OneRegistered();
    x, steps := LateBridge(x, before);
    hide Exec, Apply;
    assert x.offers[..1] == [Copying(true)];
    assert CountRegistered([]) == 0;
    assert CountRegistered([Copying(true)]) == 1 by { assert [Copying(true)][..0] == []; }
    CountRightExactly(steps);
  }

  lemma OneRegistered() returns (x: Session, steps: seq<Step>)
    ensures x == Exec(Start(), steps)
    ensures x.offers == [Copying(true), Dialled] && x.book.activeBridges == 1 && x.book.closed
  {
    x, steps := Start(), [];
    x, steps := Do(x, steps, Offer);
    x, steps := Do(x, steps, Offer);
    x, steps := Do(x, steps, Dial(0, false));
    x, steps := Do(x, steps, Dial(1, false));
    x, steps := Do(x, steps, Advance(0));
    assert x.offers == [Copying(true), Dialled];
    x, steps := Do(x, steps, CallClose);
    x, steps := Do(x, steps, Lock(0));
    hide Exec, Ends;
  }

  lemma LateBridge(before: Session, past: seq<Step>) returns (x: Session, steps: seq<Step>)
    requires before == Exec(Start(), past)
    requires before.offers == [Copying(true), Dialled] && before.book.activeBridges == 1 && before.book.closed
    ensures x == Exec(Start(), steps) && x.offers == [Copying(true), Leaving(true)] && x.book.activeBridges == 0
  {
    hide Exec, Ends;
    x, steps := Do(before, past, Advance(1));
    x, steps := Do(x, steps, Advance(1));
    x, steps := Do(x, steps, Advance(1));
    assert x.offers == [Copying(true), Copying(false)] && x.book.activeBridges == 1;
    x, steps := LateBridgeEnds(x, steps);
  }

  lemma LateBridgeEnds(before: Session, past: seq<Step>) returns (x: Session, steps: seq<Step>)
    requires before == Exec(Start(), past)
    requires before.offers == [Copying(true), Copying(false)] && before.book.activeBridges == 1
    ensures x == Exec(Start(), steps) && x.offers == [Copying(true), Leaving(true)] && x.book.activeBridges == 0
  {
    hide Exec, Ends;
    x, steps := Do(before, past, Advance(1));
    x, steps := Do(x, steps, Advance(1));
    x, steps := Do(x, steps, Advance(1));
  }

  /** One more step of a run. */
  lemma Do(x: Session, steps: seq<Step>, step: Step) returns (y: Session, more: seq<Step>)
    requires x == Exec(Start(), steps)
    ensures more == steps + [step] && y == Apply(x, step) && y == Exec(Start(), more)
  {
    y, more := Apply(x, step), steps + [step];
    assert more[..|more| - 1] == steps;
    hide Apply;
  }

  /** The bridges' goroutines, and the caller of Close at its end. */
  predicate OwnStep(step: Step) {
    step.Dial? || step.Advance? || step.Drained?
  }

  function Distance(p: Phase): nat {
    match p
    case TurnedAway => 0
    case Dialling => 8
    case DialFailed => 2
    case Dialled => 7
    case Rejected => 6
    case HalfRejected => 5
    case Copying(_) => 4
    case ConnShut(_) => 3
    case BothShut(_) => 2
    case Leaving(_) => 1
    case Finished(_) => 0
  }

  function Remaining(offers: seq<Phase>): nat {
    if |offers| == 0 then 0 else Remaining(offers[..|offers| - 1]) + Distance(offers[|offers| - 1])
  }

  lemma {:induction false} RemainingUpdate(offers: seq<Phase>, i: nat, p: Phase)
    requires i < |offers|
    ensures Remaining(offers[i := p]) == Remaining(offers) - Distance(offers[i]) + Distance(p)
  {
    var last := |offers| - 1;
    var u := offers[i := p];
    if i == last {
      assert u[..last] == offers[..last];
    } else {
      assert u[..last] == offers[..last][i := p];
      RemainingUpdate(offers[..last], i, p);
    }
    hide Distance;
  }

  /** Once the session is closed every step of a bridge brings the wait group nearer
      to zero, and no other step, a new offer included, takes it away again. */
  lemma BridgesRunOut(x: Session, step: Step)
    requires x.book.closed
    ensures Remaining(Apply(x, step).offers) <= Remaining(x.offers)
    ensures step.Advance? && step.i < |x.offers| && !x.offers[step.i].Dialling? && Running(x.offers[step.i]) ==>
              Remaining(Apply(x, step).offers) < Remaining(x.offers)
    ensures step.Dial? && step.i < |x.offers| && x.offers[step.i].Dialling? ==>
              Remaining(Apply(x, step).offers) < Remaining(x.offers)
  {
    hide Remaining, InSnapshot, Ends, Bridged, Unbridged, Shut, Distance, Running;
    var y := Apply(x, step);
    if step.Advance? && step.i < |x.offers| {
      AdvanceNearer(x, step.i);
      hide Advanced;
      RemainingUpdate(x.offers, step.i, y.offers[step.i]);
    } else if step.Dial? && step.i < |x.offers| {
      DialNearer();
      RemainingUpdate(x.offers, step.i, y.offers[step.i]);
    } else {
      OtherStepsKeepRemaining(x, step);
    }
  }

  lemma AdvanceNearer(x: Session, i: nat)
    requires i < |x.offers|
    ensures var p, q := x.offers[i], Advanced(x, i).offers[i];
            && Advanced(x, i).offers == x.offers[i := q] && Distance(q) <= Distance(p)
            && (!p.Dialling? && Running(p) ==> Distance(q) < Distance(p))
  {
    hide Ends;
  }

  lemma DialNearer()
    ensures Distance(Dialled) < Distance(Dialling) && Distance(DialFailed) < Distance(Dialling)
  {
  }

  lemma OtherStepsKeepRemaining(x: Session, step: Step)
    requires x.book.closed && (step.Advance? || step.Dial? ==> step.i >= |x.offers|)
    ensures Remaining(Apply(x, step).offers) == Remaining(x.offers)
  {
    var y := Apply(x, step);
    if step.Offer? {
      assert y.offers[..|x.offers|] == x.offers;
    } else {
      assert y.offers == x.offers;
    }
  }

  /** Wherever a run stands while the first Close waits, its bridges can run to
      their ends and that Close then returns: no reachable state is stuck. */
  lemma {:induction false} CloseCanReturn(steps: seq<Step>, k: nat) returns (more: seq<Step>)
    requires var x := Exec(Start(), steps); k < |x.calls| && x.calls[k].Waiting?
    ensures forall i :: 0 <= i < |more| ==> OwnStep(more[i])
    ensures var x := Exec(Start(), steps + more); k < |x.calls| && x.calls[k] == Returned(true)
    decreases Remaining(Exec(Start(), steps).offers)
  {
    hide Exec, Apply, CountRunning, Remaining, Distance;
    var x := Exec(Start(), steps);
    WaitingIsClosed(steps, k);
    if i :| 0 <= i < |x.offers| && Running(x.offers[i]) {
      var next := if x.offers[i].Dialling? then Dial(i, true) else Advance(i);
      BridgesRunOut(x, next);
      var y, longer := Do(x, steps, next);
      CallsStay(x, next);
      var rest := CloseCanReturn(longer, k);
      more := [next] + rest;
      assert steps + more == longer + rest;
    } else {
      NoneRunning(x.offers);
      DrainedReturns(x, k);
      more := [Drained(k)];
      var y, longer := Do(x, steps, Drained(k));
      assert steps + more == longer;
    }
  }

  lemma WaitingIsClosed(steps: seq<Step>, k: nat)
    requires var x := Exec(Start(), steps); k < |x.calls| && x.calls[k].Waiting?
    ensures var x := Exec(Start(), steps); x.book.closed && x.book.running == CountRunning(x.offers)
  {
    Always(steps);
    assert First(Exec(Start(), steps).calls[k]);
    hide Exec, CountRunning, CountRegistered, AddedRight, ActiveRight, OffersRight, DoneRight;
  }

  lemma DrainedReturns(x: Session, k: nat)
    requires k < |x.calls| && x.calls[k].Waiting? && x.book.running == 0
    ensures var y := Apply(x, Drained(k)); k < |y.calls| && y.calls[k] == Returned(true)
  {
  }

  lemma CallsStay(x: Session, step: Step)
    requires step.Dial? || step.Advance?
    ensures Apply(x, step).calls == x.calls
  {
  }

  lemma {:induction false} NoneRunning(offers: seq<Phase>)
    requires forall i :: 0 <= i < |offers| ==> !Running(offers[i])
    ensures CountRunning(offers) == 0
  {
    if |offers| > 0 { NoneRunning(offers[..|offers| - 1]); }
  }

  // ---- the steps are the session's methods -------------------------------

  /** Run without interference, the steps of addBridge do what the method does: one
      step on an open session, three on a closed one. */
  lemma AddBridgeAlone(x: Session, i: nat)
    requires i < |x.offers| && x.offers[i].Dialled?
    ensures if x.book.closed then
              var y := Advanced(Advanced(Advanced(x, i), i), i);
              y == x.(book := Shut(x.book, Ends(i)), offers := x.offers[i := Copying(false)], added := x.added + Ends(i))
            else
              Advanced(x, i) == x.(book := Bridged(x.book, i), offers := x.offers[i := Copying(true)], added := x.added + Ends(i))
  {
    if x.book.closed {
      var a := Advanced(x, i);
      assert a == At(x, i, x.book, Rejected);
      var b := Advanced(a, i);
      assert b == At(x, i, Shut(x.book, {Stream(i)}), HalfRejected);
      assert {Stream(i)} + {Conn(i)} == Ends(i);
      assert x.book.shut + {Stream(i)} + {Conn(i)} == x.book.shut + Ends(i);
    }
  }

  /** The other critical sections are one step each. */
  lemma StepsAreSections(x: Session, i: nat, k: nat)
    ensures Apply(x, Offer).book == Offered(x.book, |x.offers|)
    ensures i < |x.offers| && x.offers[i].BothShut? ==> Apply(x, Advance(i)).book == Unbridged(x.book, i)
    ensures k < |x.calls| && x.calls[k].Entered? ==>
      var y := Apply(x, Lock(k));
      && y.book == x.book.(closed := true)
      && y.calls[k] == if x.book.closed then Returned(false) else Closing(x.book.active)
  {
    hide Ends;
  }

  /** On an open session a stream the device opens, whose host dial succeeds, comes to be
      copied, with both its ends registered and counted. */
  lemma BridgeAlone(x: Session)
    requires !x.book.closed
    ensures var i := |x.offers|;
            var y := Apply(Apply(Apply(x, Offer), Dial(i, false)), Advance(i));
            && y.offers == x.offers + [Copying(true)] && y.added == x.added + Ends(i)
            && y.book == x.book.(active := x.book.active + Ends(i), activeBridges := x.book.activeBridges + 1, running := x.book.running + 1)
  {
    var i := |x.offers|;
    var x2 := Apply(Apply(x, Offer), Dial(i, false));
    assert x2.offers == x.offers + [Dialled];
    assert (x.offers + [Dialled])[i := Copying(true)] == x.offers + [Copying(true)];
    hide Ends;
  }

  /** A registered bridge whose copies have ended closes both ends, is no longer
      registered or counted, and leaves the wait group. */
  lemma BridgeEndsAlone(x: Session, i: nat)
    requires i < |x.offers| && x.offers[i] == Copying(true) && x.book.activeBridges > 0
    ensures var y := Advanced(Advanced(Advanced(Advanced(x, i), i), i), i);
            && y.offers == x.offers[i := Finished(true)]
            && y.book == x.book.(active := x.book.active - Ends(i), activeBridges := x.book.activeBridges - 1,
                                 running := x.book.running - 1, shut := x.book.shut + {Conn(i)} + {Stream(i)})
  {
    hide Ends;
    var x1 := Advanced(x, i);
    var x2 := Advanced(x1, i);
    var x3 := Advanced(x2, i);
    assert x1.offers == x.offers[i := ConnShut(true)] && x2.offers == x.offers[i := BothShut(true)] && x3.offers == x.offers[i := Leaving(true)];
  }

  /** What the first Close does to its snapshot, one end at a time, in any order. */
  lemma CloseNextAlone(x: Session, k: nat, c: Closer)
    requires k < |x.calls| && x.calls[k].Closing? && c in x.calls[k].rest
    ensures Apply(x, CloseNext(k, c))
      == x.(book := x.book.(shut := x.book.shut + {c}), calls := x.calls[k := Closing(x.calls[k].rest - {c})])
  {
  }

  /** With its snapshot worked off and no bridge running, it removes the reverse on the
      device and puts the outcome of that on done. */
  lemma CloseTail(x: Session, k: nat, fails: bool)
    requires k < |x.calls| && x.calls[k] == Closing({}) && x.book.running == 0 && x.buffer == []
    ensures Apply(Apply(Apply(x, SnapshotDone(k)), RemoveReverse(k, fails)), Drained(k))
      == x.(calls := x.calls[k := Returned(true)], buffer := [fails])
  {
    var x1 := Apply(x, SnapshotDone(k));
    var x2 := Apply(x1, RemoveReverse(k, fails));
    assert x2 == x.(calls := x.calls[k := Waiting(fails)]);
    assert x.calls[k := Waiting(fails)][k := Returned(true)] == x.calls[k := Returned(true)];
    assert [] + [fails] == [fails];
  }
}
