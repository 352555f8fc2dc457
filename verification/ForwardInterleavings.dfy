/** Every interleaving of forward requests on the server's registry. create
    releases the lock between its two critical sections, so other requests run
    while it listens; a step is one critical section or one call of net.Listen. */
module ForwardInterleavings {
  import opened EndpointTable

  datatype Lsn = Lsn(key: string, open: bool)

  /** How far a create has come. */
  datatype Create =
    | Requested(key: string, norebind: bool)
    | Binding(norebind: bool)
    | Bound(listener: nat, norebind: bool)
    | Named(listener: nat, norebind: bool, number: nat)
    | Succeeded(id: string)
    | Refused

  datatype Registry = Registry(
    table: Table,
    listeners: seq<Lsn>,         // every listener ever opened
    creates: seq<Create>,        // every create ever requested
    issued: nat,                 // calls of nextForwardID
    used: seq<nat>,              // numbers of the entries ever registered, in order
    conflicted: bool)            // some create found its new endpoint taken

  datatype Step =
    | Request(key: string, norebind: bool)
    | First(c: nat)
    | Listen(c: nat, key: string, fails: bool)
    | Name(c: nat)
    | Second(c: nat)
    | RemoveById(id: string)
    | RemoveByKey(key: string)
    | RemoveEvery
    | RecordError(id: string, message: string)
    | RecordSuccess(id: string)
    | SetActive(id: string, n: nat)

  function Start(): Registry {
    Registry(Table(0, map[], map[]), [], [], 0, [], false)
  }

  function Close(listeners: seq<Lsn>, handles: set<nat>): seq<Lsn> {
    seq(|listeners|, i requires 0 <= i < |listeners| => Lsn(listeners[i].key, listeners[i].open && i !in handles))
  }

  /** removeLocked. */
  function Dropped(x: Registry, e: Entry): Registry {
    x.(table := Remove(x.table, e), listeners := Close(x.listeners, {e.resource}))
  }

  /** The entry registered for a key is dropped, if there is one. */
  function DroppedAt(x: Registry, key: string): Registry {
    if key in x.table.byKey && x.table.byKey[key] in x.table.byID then Dropped(x, x.table.byID[x.table.byKey[key]]) else x
  }

  predicate InUse(x: Registry, key: string) {
    exists i :: 0 <= i < |x.listeners| && x.listeners[i].open && x.listeners[i].key == key
  }

  function Moved(x: Registry, c: nat, pc: Create): Registry
    requires c < |x.creates|
  {
    x.(creates := x.creates[c := pc])
  }

  function Resources(t: Table): set<nat> {
    set id | id in t.byID :: t.byID[id].resource
  }

  /** The second critical section of create, for a named create with its listener. */
  function Finished(x: Registry, c: nat): Registry
    requires c < |x.creates| && x.creates[c].Named? && x.creates[c].listener < |x.listeners|
  {
    var pc := x.creates[c];
    var key := x.listeners[pc.listener].key;
    var id := IdOf("fwd_", pc.number);
    var e := Entry(id, key, pc.listener, Listening, "", 0);
    if key in x.table.byKey then
      var y := x.(conflicted := true, listeners := Close(x.listeners, {pc.listener}));
      if pc.norebind then Moved(y, c, Refused)
      else
        var z := DroppedAt(y, key);
        Moved(z.(table := Insert(z.table, e), used := z.used + [pc.number]), c, Succeeded(id))
    else
      Moved(x.(table := Insert(x.table, e), used := x.used + [pc.number]), c, Succeeded(id))
  }

  function Apply(x: Registry, step: Step): Registry {
    match step
    case Request(key, norebind) => x.(creates := x.creates + [Requested(key, norebind)])
    case First(c) =>
      if c < |x.creates| && x.creates[c].Requested? then
        var pc := x.creates[c];
        if pc.key in x.table.byKey && pc.norebind then Moved(x, c, Refused)
        else Moved(DroppedAt(x, pc.key), c, Binding(pc.norebind))
      else x
    case Listen(c, key, fails) =>
      if c < |x.creates| && x.creates[c].Binding? then
        // the operating system never binds an address that is in use
        if fails || InUse(x, key) then Moved(x, c, Refused)
        else Moved(x.(listeners := x.listeners + [Lsn(key, true)]), c, Bound(|x.listeners|, x.creates[c].norebind))
      else x
    case Name(c) =>
      if c < |x.creates| && x.creates[c].Bound? then
        var n := NextCount(x.table.nextID);
        Moved(x.(table := x.table.(nextID := n), issued := x.issued + 1), c, Named(x.creates[c].listener, x.creates[c].norebind, n))
      else x
    case Second(c) =>
      if c < |x.creates| && x.creates[c].Named? && x.creates[c].listener < |x.listeners| then Finished(x, c) else x
    case RemoveById(id) => if id in x.table.byID then Dropped(x, x.table.byID[id]) else x
    case RemoveByKey(key) => DroppedAt(x, key)
    case RemoveEvery =>
      x.(table := Table(x.table.nextID, map[], map[]), listeners := Close(x.listeners, Resources(x.table)))
    case RecordError(id, message) =>
      if id in x.table.byID && message != "" then
        x.(table := Replace(x.table, x.table.byID[id].(state := Degraded, lastError := message)))
      else x
    case RecordSuccess(id) =>
      if id in x.table.byID then x.(table := Replace(x.table, x.table.byID[id].(state := Listening, lastError := ""))) else x
    case SetActive(id, n) =>
      if id in x.table.byID then x.(table := Replace(x.table, x.table.byID[id].(active := n))) else x
  }

  function Exec(x: Registry, steps: seq<Step>): Registry {
    if |steps| == 0 then x else Apply(Exec(x, steps[..|steps| - 1]), steps[|steps| - 1])
  }

  // ---- the invariant -----------------------------------------------------

  /** Each registered entry's listener is open and bound to its own endpoint. */
  ghost predicate ListenersRight(x: Registry) {
    && (forall id :: id in x.table.byID ==>
          var e := x.table.byID[id];
          e.resource < |x.listeners| && x.listeners[e.resource] == Lsn(e.key, true))
    && (forall i, j :: 0 <= i < j < |x.listeners| && x.listeners[i].open && x.listeners[j].open ==>
          x.listeners[i].key != x.listeners[j].key)
  }

  predicate Holding(pc: Create) {
    pc.Bound? || pc.Named?
  }

  /** A create between its critical sections owns an open listener of its own. */
  ghost predicate CreatesRight(x: Registry) {
    && (forall c :: 0 <= c < |x.creates| && Holding(x.creates[c]) ==>
          && x.creates[c].listener < |x.listeners| && x.listeners[x.creates[c].listener].open
          && x.creates[c].listener !in Resources(x.table))
    && (forall c, d :: 0 <= c < d < |x.creates| && Holding(x.creates[c]) && Holding(x.creates[d]) ==>
          x.creates[c].listener != x.creates[d].listener)
  }

  /** Numbers are issued once each and used at most once each. */
  ghost predicate NumbersRight(x: Registry) {
    && x.table.nextID == x.issued
    && (forall i :: 0 <= i < |x.used| ==> 0 < x.used[i] <= x.issued)
    && (forall i, j :: 0 <= i < j < |x.used| ==> x.used[i] != x.used[j])
    && (forall c :: 0 <= c < |x.creates| && x.creates[c].Named? ==>
          0 < x.creates[c].number <= x.issued && x.creates[c].number !in x.used)
    && (forall c, d :: 0 <= c < d < |x.creates| && x.creates[c].Named? && x.creates[d].Named? ==>
          x.creates[c].number != x.creates[d].number)
    && (forall id :: id in x.table.byID ==> exists n :: n in x.used && id == IdOf("fwd_", n))
  }

  ghost predicate Core(x: Registry) {
    Consistent(x.table) && StatesRight(x.table) && ListenersRight(x) && CreatesRight(x) && NumbersRight(x) && !x.conflicted
  }

  /** The counter is a uint64, so the invariant is about the first 2^64 - 1 names. */
  ghost predicate Inv(x: Registry) {
    x.issued < COUNTER_LIMIT ==> Core(x)
  }

  /** Entries never share a listener. */
  lemma ResourcesDiffer(x: Registry, id: string, e: Entry)
    requires Consistent(x.table) && ListenersRight(x)
    requires id in x.table.byID && e.id in x.table.byID && x.table.byID[e.id] == e && id != e.id
    ensures x.table.byID[id].resource != e.resource && x.table.byID[id].key != e.key
  {
  }

  lemma DroppedListeners(x: Registry, e: Entry)
    requires Consistent(x.table) && ListenersRight(x) && e.id in x.table.byID && x.table.byID[e.id] == e
    ensures ListenersRight(Dropped(x, e))
  {
    var y := Dropped(x, e);
    forall id | id in y.table.byID
      ensures y.table.byID[id].resource < |y.listeners|
      ensures y.listeners[y.table.byID[id].resource] == Lsn(y.table.byID[id].key, true)
    {
      ResourcesDiffer(x, id, e);
    }
  }

  lemma DroppedCreates(x: Registry, e: Entry)
    requires CreatesRight(x) && e.id in x.table.byID && x.table.byID[e.id] == e
    ensures CreatesRight(Dropped(x, e))
  {
    var y := Dropped(x, e);
    assert e.resource in Resources(x.table);
    assert Resources(y.table) <= Resources(x.table) by {
      forall r | r in Resources(y.table) ensures r in Resources(x.table) {
        var id :| id in y.table.byID && y.table.byID[id].resource == r;
        assert x.table.byID[id].resource == r;
      }
    }
    hide Resources;
  }

  lemma DroppedKeeps(x: Registry, e: Entry)
    requires Core(x) && e.id in x.table.byID && x.table.byID[e.id] == e
    ensures Core(Dropped(x, e))
  {
    RemoveConsistent(x.table, e);
    DroppedListeners(x, e);
    DroppedCreates(x, e);
    DroppedNumbers(x, e);
    hide Consistent, ListenersRight, CreatesRight, NumbersRight, StatesRight, Close, Remove;
  }

  lemma DroppedNumbers(x: Registry, e: Entry)
    requires NumbersRight(x) && StatesRight(x.table)
    ensures NumbersRight(Dropped(x, e)) && StatesRight(Dropped(x, e).table)
  {
    hide Close, IdOf;
  }

  lemma DroppedAtKeeps(x: Registry, key: string)
    requires Core(x)
    ensures Core(DroppedAt(x, key))
  {
    if key in x.table.byKey && x.table.byKey[key] in x.table.byID {
      assert x.table.byID[x.table.byKey[key]].id == x.table.byKey[key];
      DroppedKeeps(x, x.table.byID[x.table.byKey[key]]);
    }
    hide Core, Dropped;
  }

  lemma KeyDiffers(x: Registry, c: nat, id: string)
    requires ListenersRight(x) && CreatesRight(x) && c < |x.creates| && Holding(x.creates[c]) && id in x.table.byID
    ensures x.creates[c].listener < |x.listeners|
    ensures x.table.byID[id].key != x.listeners[x.creates[c].listener].key
  {
    assert x.table.byID[id].resource in Resources(x.table);
  }

  /** With its listener open, a create cannot find its endpoint taken. */
  lemma NoConflict(x: Registry, c: nat)
    requires Core(x) && c < |x.creates| && Holding(x.creates[c])
    ensures x.creates[c].listener < |x.listeners|
    ensures x.listeners[x.creates[c].listener].key !in x.table.byKey
  {
    var key := x.listeners[x.creates[c].listener].key;
    if key in x.table.byKey {
      KeyDiffers(x, c, x.table.byKey[key]);
      assert false;
    }
  }

  /** The entry a finishing create registers. */
  function Fresh(x: Registry, c: nat): Entry
    requires c < |x.creates| && x.creates[c].Named? && x.creates[c].listener < |x.listeners|
  {
    Entry(IdOf("fwd_", x.creates[c].number), x.listeners[x.creates[c].listener].key, x.creates[c].listener, Listening, "", 0)
  }

  lemma FinishedFrame(x: Registry, c: nat)
    requires Core(x) && c < |x.creates| && x.creates[c].Named?
    ensures x.creates[c].listener < |x.listeners|
    ensures var e := Fresh(x, c);
            && e.key !in x.table.byKey
            && Finished(x, c) == x.(table := Insert(x.table, e), used := x.used + [x.creates[c].number],
                                    creates := x.creates[c := Succeeded(e.id)])
  {
    NoConflict(x, c);
    hide Core, Insert, Close, DroppedAt;
  }

  lemma FreshId(x: Registry, c: nat)
    requires NumbersRight(x) && c < |x.creates| && x.creates[c].Named? && x.creates[c].listener < |x.listeners|
    ensures Fresh(x, c).id !in x.table.byID
  {
    var id := Fresh(x, c).id;
    if id in x.table.byID {
      var n :| n in x.used && id == IdOf("fwd_", n);
      IdsDiffer("fwd_", n, x.creates[c].number);
      assert false;
    }
  }

  lemma FinishedNumbers(x: Registry, c: nat)
    requires Core(x) && c < |x.creates| && x.creates[c].Named?
    ensures NumbersRight(Finished(x, c))
  {
    FinishedFrame(x, c);
    var y := Finished(x, c);
    forall id | id in y.table.byID ensures exists n :: n in y.used && id == IdOf("fwd_", n) {
      if id == Fresh(x, c).id {
        assert y.used[|x.used|] == x.creates[c].number;
      } else {
        var n :| n in x.used && id == IdOf("fwd_", n);
        assert n in y.used;
      }
    }
    hide Finished, Consistent, ListenersRight, CreatesRight, StatesRight, IdOf;
  }

  lemma FinishedCreates(x: Registry, c: nat)
    requires Core(x) && c < |x.creates| && x.creates[c].Named?
    ensures CreatesRight(Finished(x, c))
  {
    FinishedFrame(x, c);
    var y := Finished(x, c);
    forall r | r in Resources(y.table) ensures r in Resources(x.table) || r == x.creates[c].listener {
      var id :| id in y.table.byID && y.table.byID[id].resource == r;
      if id != Fresh(x, c).id { assert x.table.byID[id].resource == r; }
    }
    hide Finished, Resources, Insert, Consistent, ListenersRight, NumbersRight, StatesRight;
  }

  lemma FinishedListeners(x: Registry, c: nat)
    requires Core(x) && c < |x.creates| && x.creates[c].Named?
    ensures ListenersRight(Finished(x, c))
  {
    FinishedFrame(x, c);
    hide Finished, Consistent, NumbersRight, StatesRight;
  }

  lemma FinishedKeeps(x: Registry, c: nat)
    requires Core(x) && c < |x.creates| && x.creates[c].Named?
    ensures x.creates[c].listener < |x.listeners| && Core(Finished(x, c))
  {
    FinishedFrame(x, c);
    FreshId(x, c);
    InsertConsistent(x.table, Fresh(x, c));
    FinishedNumbers(x, c);
    FinishedCreates(x, c);
    FinishedListeners(x, c);
    InsertStates(x.table, Fresh(x, c));
    hide Finished, Insert, Consistent, NumbersRight, CreatesRight, ListenersRight, StatesRight;
  }

  lemma InsertStates(t: Table, e: Entry)
    requires StatesRight(t) && e.state == Listening && e.lastError == ""
    ensures StatesRight(Insert(t, e))
  {
  }

  lemma ListenBooks(x: Registry, c: nat, key: string)
    requires Consistent(x.table) && ListenersRight(x) && CreatesRight(x)
    requires c < |x.creates| && x.creates[c].Binding? && !InUse(x, key)
    ensures var y := Apply(x, Listen(c, key, false)); ListenersRight(y) && CreatesRight(y)
  {
    var y := Apply(x, Listen(c, key, false));
    assert Resources(y.table) == Resources(x.table);
    forall r | r in Resources(x.table) ensures r < |x.listeners| {
      var id :| id in x.table.byID && x.table.byID[id].resource == r;
    }
    hide Resources, Consistent;
    assert ListenersRight(y) by { hide CreatesRight; }
    assert CreatesRight(y) by { hide ListenersRight; }
    hide ListenersRight, CreatesRight;
  }

  lemma ListenKeeps(x: Registry, c: nat, key: string)
    requires Core(x) && c < |x.creates| && x.creates[c].Binding? && !InUse(x, key)
    ensures Core(Apply(x, Listen(c, key, false)))
  {
    ListenBooks(x, c, key);
    var y := Apply(x, Listen(c, key, false));
    assert NumbersRight(y) by { hide ListenersRight, CreatesRight, Consistent, StatesRight, IdOf; }
    hide ListenersRight, CreatesRight, NumbersRight, Consistent, StatesRight, InUse;
  }

  lemma ChangeResources(t: Table, e: Entry)
    requires e.id in t.byID && t.byID[e.id].resource == e.resource
    ensures Resources(Replace(t, e)) == Resources(t)
  {
    var u := Replace(t, e);
    forall r | r in Resources(t) ensures r in Resources(u) {
      var id :| id in t.byID && t.byID[id].resource == r;
      assert u.byID[id].resource == r;
    }
    forall r | r in Resources(u) ensures r in Resources(t) {
      var id :| id in u.byID && u.byID[id].resource == r;
      assert t.byID[id].resource == r;
    }
  }

  lemma ChangeBooks(x: Registry, e: Entry)
    requires ListenersRight(x) && CreatesRight(x) && StatesRight(x.table) && e.id in x.table.byID
    requires x.table.byID[e.id].key == e.key && x.table.byID[e.id].resource == e.resource
    requires e.state != Stopped && (e.state == Listening <==> e.lastError == "")
    ensures var y := x.(table := Replace(x.table, e)); ListenersRight(y) && CreatesRight(y) && StatesRight(y.table)
  {
    var y := x.(table := Replace(x.table, e));
    ChangeResources(x.table, e);
    hide Resources;
    assert CreatesRight(y) by { hide ListenersRight, StatesRight, Replace; }
    assert ListenersRight(y) by { hide CreatesRight, StatesRight; }
    hide ListenersRight, CreatesRight;
  }

  lemma ChangeKeeps(x: Registry, e: Entry)
    requires Core(x) && e.id in x.table.byID
    requires x.table.byID[e.id].key == e.key && x.table.byID[e.id].resource == e.resource
    requires e.state != Stopped && (e.state == Listening <==> e.lastError == "")
    ensures Core(x.(table := Replace(x.table, e)))
  {
    ReplaceConsistent(x.table, e);
    ChangeBooks(x, e);
    var y := x.(table := Replace(x.table, e));
    assert NumbersRight(y) by { hide ListenersRight, CreatesRight, Consistent, StatesRight, IdOf; }
    hide ListenersRight, CreatesRight, NumbersRight, Consistent, StatesRight, Replace;
  }

  lemma RemoveEveryKeeps(x: Registry)
    requires Core(x)
    ensures Core(Apply(x, RemoveEvery))
  {
    var y := Apply(x, RemoveEvery);
    assert Resources(y.table) == {};
    assert CreatesRight(y) by { hide ListenersRight, NumbersRight, Consistent, StatesRight, Resources; }
    hide Resources, CreatesRight;
  }

  lemma MovedKeeps(x: Registry, c: nat, pc: Create)
    requires Core(x) && c < |x.creates| && !Holding(pc)
    ensures Core(Moved(x, c, pc))
  {
    hide Resources, Consistent, StatesRight;
  }

  lemma NameNumbers(x: Registry, c: nat)
    requires NumbersRight(x) && c < |x.creates| && x.creates[c].Bound? && x.issued + 1 < COUNTER_LIMIT
    ensures NumbersRight(Apply(x, Name(c)))
  {
    hide IdOf;
  }

  lemma NameCreates(x: Registry, c: nat)
    requires CreatesRight(x) && ListenersRight(x) && c < |x.creates| && x.creates[c].Bound?
    ensures CreatesRight(Apply(x, Name(c))) && ListenersRight(Apply(x, Name(c)))
  {
    SameResources(x.table, Apply(x, Name(c)).table);
    hide Resources, NextCount;
    assert CreatesRight(Apply(x, Name(c))) by { hide ListenersRight; }
    hide CreatesRight;
  }

  lemma NameKeeps(x: Registry, c: nat)
    requires Core(x) && c < |x.creates| && x.creates[c].Bound? && x.issued + 1 < COUNTER_LIMIT
    ensures Core(Apply(x, Name(c)))
  {
    NameNumbers(x, c);
    NameCreates(x, c);
    NameTable(x.table, NextCount(x.table.nextID));
    hide Consistent, StatesRight, ListenersRight, CreatesRight, NumbersRight, NextCount;
  }

  lemma NameTable(t: Table, n: nat)
    requires Consistent(t) && StatesRight(t)
    ensures Consistent(t.(nextID := n)) && StatesRight(t.(nextID := n))
  {
  }

  lemma SameResources(t: Table, u: Table)
    requires t.byID == u.byID
    ensures Resources(t) == Resources(u)
  {
  }

  lemma CreateKeeps(x: Registry, step: Step)
    requires Core(x) && Apply(x, step).issued < COUNTER_LIMIT
    requires step.Request? || step.First? || step.Listen? || step.Name? || step.Second?
    ensures Core(Apply(x, step))
  {
    match step
    case Request(key, norebind) => RequestKeeps(x, key, norebind);
    case First(c) =>
      if c < |x.creates| && x.creates[c].Requested? {
        DroppedAtKeeps(x, x.creates[c].key);
        MovedKeeps(x, c, Refused);
        DroppedAtCreates(x, x.creates[c].key);
        MovedKeeps(DroppedAt(x, x.creates[c].key), c, Binding(x.creates[c].norebind));
      }
    case Listen(c, key, fails) =>
      if c < |x.creates| && x.creates[c].Binding? {
        MovedKeeps(x, c, Refused);
        if !fails && !InUse(x, key) { ListenKeeps(x, c, key); }
      }
    case Name(c) => if c < |x.creates| && x.creates[c].Bound? { NameKeeps(x, c); }
    case Second(c) => if c < |x.creates| && x.creates[c].Named? { FinishedKeeps(x, c); }
    hide Core, DroppedAt, Finished, Remove, Insert, Replace, Close, Resources, InUse;
  }

  lemma OtherKeeps(x: Registry, step: Step)
    requires Core(x)
    requires step.RemoveById? || step.RemoveByKey? || step.RemoveEvery? || step.RecordError? || step.RecordSuccess? || step.SetActive?
    ensures Core(Apply(x, step))
  {
    hide Core, DroppedAt, Finished, Remove, Insert, Replace, Close, Resources;
    match step
    case RemoveById(id) => if id in x.table.byID { OwnId(x, id); DroppedKeeps(x, x.table.byID[id]); }
    case RemoveByKey(key) => DroppedAtKeeps(x, key);
    case RemoveEvery => RemoveEveryKeeps(x);
    case RecordError(id, message) =>
      if id in x.table.byID && message != "" { OwnId(x, id); ChangeKeeps(x, x.table.byID[id].(state := Degraded, lastError := message)); }
    case RecordSuccess(id) =>
      if id in x.table.byID { OwnId(x, id); ChangeKeeps(x, x.table.byID[id].(state := Listening, lastError := "")); }
    case SetActive(id, n) =>
      if id in x.table.byID { OwnId(x, id); ChangeKeeps(x, x.table.byID[id].(active := n)); }
  }

  lemma IssuedGrows(x: Registry, step: Step)
    ensures x.issued <= Apply(x, step).issued
  {
    hide Remove, Insert, Replace, Close, Resources, InUse;
  }

  lemma StepKeeps(x: Registry, step: Step)
    requires Inv(x)
    ensures Inv(Apply(x, step))
  {
    if Apply(x, step).issued < COUNTER_LIMIT {
      IssuedGrows(x, step);
      if step.Request? || step.First? || step.Listen? || step.Name? || step.Second? { CreateKeeps(x, step); } else { OtherKeeps(x, step); }
    }
    hide Apply, Core;
  }

  lemma RequestKeeps(x: Registry, key: string, norebind: bool)
    requires Core(x)
    ensures Core(x.(creates := x.creates + [Requested(key, norebind)]))
  {
    hide Resources, Consistent, StatesRight;
  }

  lemma DroppedAtCreates(x: Registry, key: string)
    ensures DroppedAt(x, key).creates == x.creates
  {
  }

  lemma OwnId(x: Registry, id: string)
    requires Core(x) && id in x.table.byID
    ensures x.table.byID[id].id == id && x.table.byID[id].state != Stopped
    ensures x.table.byID[id].state == Listening <==> x.table.byID[id].lastError == ""
  {
  }

  lemma {:induction false} Always(steps: seq<Step>)
    ensures Inv(Exec(Start(), steps))
  {
    if |steps| > 0 {
      Always(steps[..|steps| - 1]);
      StepKeeps(Exec(Start(), steps[..|steps| - 1]), steps[|steps| - 1]);
      hide Inv, Apply;
    }
  }

  // ---- what holds in every interleaving ----------------------------------

  /** Main result. In every interleaving, while the ID counter has not wrapped:
      the two indexes are inverse to each other; every registered entry's listener
      is open and bound to that entry's endpoint, and no two open listeners share
      one; no create has ever found its freshly bound endpoint taken, so the
      branch that would register a closed listener has not run; and the
      diagnostics account for every entry. */
  lemma RegistryAlwaysRight(steps: seq<Step>)
    requires Exec(Start(), steps).issued < COUNTER_LIMIT
    ensures var x := Exec(Start(), steps);
            && Consistent(x.table) && |x.table.byID| == |x.table.byKey|
            && ListenersRight(x) && !x.conflicted
            && |InState(x.table, Listening)| + |InState(x.table, Degraded)| == |x.table.byID|
  {
    Always(steps);
    hide Exec;
    SameSize(Exec(Start(), steps).table);
    DiagnosticsAddUp(Exec(Start(), steps).table);
    hide Consistent, ListenersRight, CreatesRight, NumbersRight, StatesRight;
  }

  /** IDs are never reused: over a whole run no number is registered twice, every
      live ID carries a registered number, and "" is never an ID. */
  lemma IdsNeverReused(steps: seq<Step>)
    requires Exec(Start(), steps).issued < COUNTER_LIMIT
    ensures var x := Exec(Start(), steps);
            && (forall i, j :: 0 <= i < j < |x.used| ==> IdOf("fwd_", x.used[i]) != IdOf("fwd_", x.used[j]))
            && (forall id :: id in x.table.byID ==> exists n :: n in x.used && id == IdOf("fwd_", n))
            && "" !in x.table.byID
  {
    Always(steps);
    var x := Exec(Start(), steps);
    hide Exec, Consistent, ListenersRight, CreatesRight, StatesRight;
    forall i, j | 0 <= i < j < |x.used| ensures IdOf("fwd_", x.used[i]) != IdOf("fwd_", x.used[j]) {
      IdsDiffer("fwd_", x.used[i], x.used[j]);
    }
    if "" in x.table.byID {
      var n :| n in x.used && "" == IdOf("fwd_", n);
      IdsDiffer("fwd_", n, n);
      assert false;
    }
  }

  /** Whatever has been registered stays on record: later steps only add to it. */
  lemma {:induction false} UsedOnlyGrows(x: Registry, steps: seq<Step>)
    ensures x.used <= Exec(x, steps).used
  {
    if |steps| > 0 {
      UsedOnlyGrows(x, steps[..|steps| - 1]);
      StepUsed(Exec(x, steps[..|steps| - 1]), steps[|steps| - 1]);
      hide Apply;
    }
  }

  lemma StepUsed(x: Registry, step: Step)
    ensures x.used <= Apply(x, step).used
  {
    hide Remove, Insert, Replace, Close, InUse, Resources;
  }

  /** A create with norebind never removes or changes an entry. */
  lemma NorebindKeepsEntries(steps: seq<Step>, c: nat)
    requires var x := Exec(Start(), steps); x.issued < COUNTER_LIMIT && c < |x.creates|
    requires var pc := Exec(Start(), steps).creates[c];
             (pc.Requested? || pc.Named?) && pc.norebind
    ensures var x := Exec(Start(), steps);
            && Apply(x, First(c)).table == x.table
            && (forall id :: id in x.table.byID ==>
                  id in Apply(x, Second(c)).table.byID && Apply(x, Second(c)).table.byID[id] == x.table.byID[id])
  {
    Always(steps);
    var x := Exec(Start(), steps);
    hide Exec;
    if x.creates[c].Named? {
      FinishedFrame(x, c);
      FreshId(x, c);
    }
    hide Finished, Consistent, ListenersRight, CreatesRight, NumbersRight, StatesRight;
  }

  /** What a create whose listen fails does to the table, whatever else runs between
      its first section and the failure: nothing, exactly when its endpoint was free
      or it asked for norebind. Otherwise the entry that was there is gone; the
      failure itself changes neither table nor listeners. */
  lemma FailedCreateIsNoOp(steps: seq<Step>, c: nat, between: seq<Step>, bound: string)
    requires var x := Exec(Start(), steps); x.issued < COUNTER_LIMIT && c < |x.creates| && x.creates[c].Requested?
    requires var z := Exec(Apply(Exec(Start(), steps), First(c)), between); c < |z.creates|
    ensures var x := Exec(Start(), steps);
            var pc, y := x.creates[c], Apply(x, First(c));
            var z := Exec(y, between);
            && (y.table == x.table <==> pc.key !in x.table.byKey || pc.norebind)
            && (y.table != x.table ==> pc.key !in y.table.byKey && x.table.byKey[pc.key] !in y.table.byID)
            && (z.creates[c].Binding? ==>
                  var w := Apply(z, Listen(c, bound, true));
                  w.creates[c] == Refused && w.table == z.table && w.listeners == z.listeners)
  {
    Always(steps);
    var x := Exec(Start(), steps);
    hide Exec, ListenersRight, CreatesRight, NumbersRight, StatesRight;
    var key := x.creates[c].key;
    if key in x.table.byKey {
      RemoveConsistent(x.table, x.table.byID[x.table.byKey[key]]);
    }
    FirstIsBeginCreate(x, c);
    hide Consistent, Close, DroppedAt, InUse;
  }

  /** One more step of a run. */
  lemma Do(x: Registry, steps: seq<Step>, step: Step) returns (y: Registry, more: seq<Step>)
    requires x == Exec(Start(), steps)
    ensures more == steps + [step] && y == Apply(x, step) && y == Exec(Start(), more)
  {
    y, more := Apply(x, step), steps + [step];
    assert more[..|more| - 1] == steps;
    hide Apply;
  }

  /** The first create of a run, up to its second section. */
  function Listened(key: string): Registry {
    Registry(Table(1, map[], map[]), [Lsn(key, true)], [Named(0, false, 1)], 1, [], false)
  }

  lemma FirstListens(key: string) returns (steps: seq<Step>)
    ensures Exec(Start(), steps) == Listened(key)
  {
    assert Exec(Start(), []) == Start();
    hide Exec;
    var x;
    x, steps := Start(), [];
    x, steps := Do(x, steps, Request(key, false));
    assert x == Start().(creates := [Requested(key, false)]);
    x, steps := Do(x, steps, First(0));
    assert x == Start().(creates := [Binding(false)]);
    x, steps := ListensAndIsNamed(x, steps, key);
  }

  lemma ListensAndIsNamed(before: Registry, past: seq<Step>, key: string) returns (x: Registry, steps: seq<Step>)
    requires before == Exec(Start(), past) && before == Start().(creates := [Binding(false)])
    ensures x == Exec(Start(), steps) && x == Listened(key)
  {
    hide Exec;
    x, steps := Do(before, past, Listen(0, key, false));
    assert x == Start().(creates := [Bound(0, false)], listeners := [Lsn(key, true)]);
    x, steps := Do(x, steps, Name(0));
  }

  /** A forward is registered for a key. */
  lemma OneForward(key: string) returns (x: Registry, steps: seq<Step>)
    ensures x == Exec(Start(), steps) && |x.creates| == 1 && x.creates[0].Succeeded?
    ensures x.table.byID.Keys == {x.creates[0].id} && x.table.byKey == map[key := x.creates[0].id]
    ensures x.table.byID[x.creates[0].id].id == x.creates[0].id && x.table.byID[x.creates[0].id].key == key
  {
    steps := FirstListens(key);
    x := Listened(key);
    x, steps := Do(x, steps, Second(0));
    FirstFinishes(key);
    hide Exec, Apply, Listened;
  }

  lemma FirstFinishes(key: string)
    ensures var y := Apply(Listened(key), Second(0));
            && |y.creates| == 1 && y.creates[0].Succeeded?
            && y.table.byID.Keys == {y.creates[0].id} && y.table.byKey == map[key := y.creates[0].id]
            && y.table.byID[y.creates[0].id].id == y.creates[0].id && y.table.byID[y.creates[0].id].key == key
  {
    hide IdOf;
  }

  /** The failing input: a forward is registered; a second create for its endpoint,
      without norebind, fails to listen, and the first forward is gone. */
  lemma FailedCreateRemovesForward(key: string) returns (before: seq<Step>, after: seq<Step>)
    ensures var x, y := Exec(Start(), before), Exec(Start(), after);
            && before <= after && key in x.table.byKey && x.table.byID != map[]
            && |y.creates| == 2 && y.creates[0].Succeeded? && y.creates[1] == Refused
            && y.table.byID == map[] && y.table.byKey == map[]
  {
    hide Exec, Close;
    var x;
    x, before := OneForward(key);
    after := before;
    var id := x.creates[0].id;
    assert id in x.table.byID;
    x, after := Do(x, after, Request(key, false));
    x, after := Do(x, after, First(1));
    assert x.table.byID == map[] && x.table.byKey == map[] && x.creates[1] == Binding(false);
    x, after := Do(x, after, Listen(1, key, true));
  }

  /** Without the operating system's promise the second phase could go wrong: from
      any state, a create with an open listener registers an entry whose listener
      is open exactly when it does not find its endpoint taken. */
  lemma ConflictRegistersClosedListener(x: Registry, c: nat)
    requires c < |x.creates| && x.creates[c].Named? && !x.creates[c].norebind
    requires x.creates[c].listener < |x.listeners| && x.listeners[x.creates[c].listener].open
    ensures var y := Apply(x, Second(c));
            var e := Fresh(x, c);
            && e.id in y.table.byID && y.table.byID[e.id] == e && e.resource < |y.listeners|
            && (y.listeners[e.resource].open <==> e.key !in x.table.byKey)
  {
    hide Remove, IdOf, Resources;
  }

  // ---- the steps are the registry's methods ------------------------------

  lemma ClosingNothing(listeners: seq<Lsn>)
    ensures Close(listeners, {}) == listeners
  {
  }

  lemma ClosingTwice(listeners: seq<Lsn>, a: set<nat>, b: set<nat>)
    ensures Close(Close(listeners, a), b) == Close(listeners, a + b)
  {
  }

  lemma DroppedAtFrees(x: Registry, key: string)
    ensures DroppedAt(x, key) == x.(table := Freed(x.table, key), listeners := Close(x.listeners, HeldFor(x.table, key)))
  {
    ClosingNothing(x.listeners);
    hide Close, Remove;
  }

  /** The first step of a create does to the table and to the listeners what
      BeginCreate does, and is refused when BeginCreate refuses. */
  lemma FirstIsBeginCreate(x: Registry, c: nat)
    requires c < |x.creates| && x.creates[c].Requested?
    ensures var y, pc := Apply(x, First(c)), x.creates[c];
            && y.table == Began(x.table, pc.key, pc.norebind)
            && y.listeners == Close(x.listeners, if pc.norebind then {} else HeldFor(x.table, pc.key))
            && (y.creates[c] == Refused <==> pc.key in x.table.byKey && pc.norebind)
  {
    DroppedAtFrees(x, x.creates[c].key);
    ClosingNothing(x.listeners);
    hide Close, Remove, DroppedAt;
  }

  /** The last step of a create does what FinishCreate does with its entry. */
  lemma SecondIsFinishCreate(x: Registry, c: nat)
    requires c < |x.creates| && x.creates[c].Named? && x.creates[c].listener < |x.listeners|
    ensures var y, pc, e := Apply(x, Second(c)), x.creates[c], Fresh(x, c);
            && y.table == Completed(x.table, e, pc.norebind)
            && y.listeners == Close(x.listeners, (if e.key in x.table.byKey then {e.resource} else {})
                                               + (if pc.norebind then {} else HeldFor(x.table, e.key)))
            && (y.creates[c] == Refused <==> e.key in x.table.byKey && pc.norebind)
  {
    var pc, e := x.creates[c], Fresh(x, c);
    var z := x.(conflicted := true, listeners := Close(x.listeners, {pc.listener}));
    DroppedAtFrees(z, e.key);
    ClosingNothing(x.listeners);
    ClosingTwice(x.listeners, {pc.listener}, HeldFor(x.table, e.key));
    assert {pc.listener} + {} == {pc.listener};
    hide Close, Remove, Insert, IdOf, DroppedAt;
  }

  /** Removal by endpoint frees the endpoint and closes what it held, as remove does. */
  lemma RemoveByKeyIsRemove(x: Registry, key: string)
    ensures var y := Apply(x, RemoveByKey(key));
            y.table == Freed(x.table, key) && y.listeners == Close(x.listeners, HeldFor(x.table, key))
  {
    DroppedAtFrees(x, key);
    hide DroppedAt;
  }

  /** A create that comes to its second section gets through: it holds its endpoint, with
      its listener open, and every other entry is untouched. */
  lemma SecondRegisters(steps: seq<Step>, c: nat)
    requires var x := Exec(Start(), steps); x.issued < COUNTER_LIMIT && c < |x.creates| && x.creates[c].Named?
    ensures var x := Exec(Start(), steps);
            var y := Apply(x, Second(c));
            && x.creates[c].listener < |x.listeners|
            && var e := Fresh(x, c);
               && y.creates[c] == Succeeded(e.id) && TakesOver(x.table, y.table, e)
               && e.key !in x.table.byKey && e.resource < |y.listeners| && y.listeners[e.resource] == Lsn(e.key, true)
  {
    Always(steps);
    var x := Exec(Start(), steps);
    hide Exec;
    NoConflict(x, c);
    FreshId(x, c);
    FinishedFrame(x, c);
    CompletedTakesOver(x.table, Fresh(x, c), x.creates[c].norebind);
    assert Freed(x.table, Fresh(x, c).key) == x.table;
    assert x.listeners[x.creates[c].listener].open;
    hide Core, Finished, TakesOver, Resources, IdOf, Insert;
  }

  /** What is recorded about a registered entry is on that entry, and on no other. */
  lemma RecordsAreRecorded(steps: seq<Step>, id: string, message: string, n: nat)
    requires var x := Exec(Start(), steps); x.issued < COUNTER_LIMIT && id in x.table.byID
    ensures var x := Exec(Start(), steps);
            var e := x.table.byID[id];
            && (message != "" ==> Apply(x, RecordError(id, message)).table == x.table.(byID := x.table.byID[id := e.(state := Degraded, lastError := message)]))
            && Apply(x, RecordSuccess(id)).table == x.table.(byID := x.table.byID[id := e.(state := Listening, lastError := "")])
            && Apply(x, SetActive(id, n)).table == x.table.(byID := x.table.byID[id := e.(active := n)])
  {
    Always(steps);
    var x := Exec(Start(), steps);
    hide Exec;
    OwnId(x, id);
    hide Core;
  }

  // ---- nothing is leaked -------------------------------------------------

  predicate HeldByCreate(x: Registry, l: nat) {
    exists c :: 0 <= c < |x.creates| && Holding(x.creates[c]) && x.creates[c].listener == l
  }

  /** Every open listener is registered or in the hands of a running create. */
  ghost predicate NoLeak(x: Registry) {
    forall l :: 0 <= l < |x.listeners| && x.listeners[l].open ==> l in Resources(x.table) || HeldByCreate(x, l)
  }

  lemma DroppedLeaksNothing(x: Registry, e: Entry)
    requires NoLeak(x) && e.id in x.table.byID && x.table.byID[e.id] == e
    ensures NoLeak(Dropped(x, e))
  {
    var y := Dropped(x, e);
    forall l | 0 <= l < |y.listeners| && y.listeners[l].open ensures l in Resources(y.table) || HeldByCreate(y, l) {
      assert x.listeners[l].open && l != e.resource;
      if HeldByCreate(x, l) {
        var c :| 0 <= c < |x.creates| && Holding(x.creates[c]) && x.creates[c].listener == l;
        assert Holding(y.creates[c]) && y.creates[c].listener == l;
      } else {
        var id :| id in x.table.byID && x.table.byID[id].resource == l;
        assert y.table.byID[id].resource == l;
      }
    }
  }

  lemma DroppedAtLeaksNothing(x: Registry, key: string)
    requires Core(x) && NoLeak(x)
    ensures NoLeak(DroppedAt(x, key))
  {
    if key in x.table.byKey { DroppedLeaksNothing(x, x.table.byID[x.table.byKey[key]]); }
    hide NoLeak, Dropped;
  }

  /** A create that keeps what it holds leaks nothing. */
  lemma MovedLeaksNothing(x: Registry, y: Registry)
    requires NoLeak(x) && y.listeners == x.listeners && Resources(x.table) <= Resources(y.table)
    requires |x.creates| <= |y.creates|
    requires forall c :: 0 <= c < |x.creates| && Holding(x.creates[c]) ==>
      (Holding(y.creates[c]) && y.creates[c].listener == x.creates[c].listener) || x.creates[c].listener in Resources(y.table)
    ensures NoLeak(y)
  {
    forall l | 0 <= l < |y.listeners| && y.listeners[l].open ensures l in Resources(y.table) || HeldByCreate(y, l) {
      if HeldByCreate(x, l) {
        var c :| 0 <= c < |x.creates| && Holding(x.creates[c]) && x.creates[c].listener == l;
        if Holding(y.creates[c]) && y.creates[c].listener == l { assert HeldByCreate(y, l); }
      }
    }
    hide Resources;
  }

  lemma ListenLeaksNothing(x: Registry, c: nat, key: string)
    requires NoLeak(x) && c < |x.creates| && x.creates[c].Binding? && !InUse(x, key)
    ensures NoLeak(Apply(x, Listen(c, key, false)))
  {
    var y := Apply(x, Listen(c, key, false));
    SameResources(x.table, y.table);
    hide Resources, InUse;
    forall l | 0 <= l < |y.listeners| && y.listeners[l].open ensures l in Resources(y.table) || HeldByCreate(y, l) {
      if l == |x.listeners| {
        assert Holding(y.creates[c]) && y.creates[c].listener == l;
      } else if HeldByCreate(x, l) {
        var d :| 0 <= d < |x.creates| && Holding(x.creates[d]) && x.creates[d].listener == l;
        assert y.creates[d] == x.creates[d];
      }
    }
  }

  lemma FinishedLeaksNothing(x: Registry, c: nat)
    requires Core(x) && NoLeak(x) && c < |x.creates| && x.creates[c].Named?
    ensures x.creates[c].listener < |x.listeners| && NoLeak(Finished(x, c))
  {
    FinishedFrame(x, c);
    FreshId(x, c);
    var e, y := Fresh(x, c), Finished(x, c);
    InsertResources(x.table, e);
    hide Core, Finished, Insert, Resources, NoLeak;
    MovedLeaksNothing(x, y);
  }

  lemma InsertResources(t: Table, e: Entry)
    requires e.id !in t.byID
    ensures Resources(t) <= Resources(Insert(t, e)) && e.resource in Resources(Insert(t, e))
  {
    var u := Insert(t, e);
    assert u.byID[e.id].resource == e.resource;
    forall r | r in Resources(t) ensures r in Resources(u) {
      var id :| id in t.byID && t.byID[id].resource == r;
      assert u.byID[id].resource == r;
    }
  }

  lemma EveryLeaksNothing(x: Registry)
    requires NoLeak(x)
    ensures NoLeak(Apply(x, RemoveEvery))
  {
    var y := Apply(x, RemoveEvery);
    forall l | 0 <= l < |y.listeners| && y.listeners[l].open ensures HeldByCreate(y, l) {
      assert HeldByCreate(x, l);
      var c :| 0 <= c < |x.creates| && Holding(x.creates[c]) && x.creates[c].listener == l;
      assert y.creates[c] == x.creates[c];
    }
    hide Resources;
  }

  lemma ChangeLeaksNothing(x: Registry, e: Entry)
    requires NoLeak(x) && e.id in x.table.byID && x.table.byID[e.id].resource == e.resource
    ensures NoLeak(x.(table := Replace(x.table, e)))
  {
    ChangeResources(x.table, e);
    hide Resources, Replace, NoLeak;
    MovedLeaksNothing(x, x.(table := Replace(x.table, e)));
  }

  lemma FirstLeaksNothing(x: Registry, c: nat)
    requires Core(x) && NoLeak(x) && c < |x.creates| && x.creates[c].Requested?
    ensures NoLeak(Apply(x, First(c)))
  {
    var key := x.creates[c].key;
    DroppedAtLeaksNothing(x, key);
    DroppedAtCreates(x, key);
    hide Core, DroppedAt, NoLeak, Resources;
    MovedLeaksNothing(x, Moved(x, c, Refused));
    MovedLeaksNothing(DroppedAt(x, key), Moved(DroppedAt(x, key), c, Binding(x.creates[c].norebind)));
  }

  lemma CreateLeaksNothing(x: Registry, step: Step)
    requires Core(x) && NoLeak(x)
    requires step.Request? || step.First? || step.Listen? || step.Name? || step.Second?
    ensures NoLeak(Apply(x, step))
  {
    hide Core, NoLeak, Resources, InUse, Finished, DroppedAt;
    match step
    case First(c) => if c < |x.creates| && x.creates[c].Requested? { FirstLeaksNothing(x, c); }
    case Listen(c, key, fails) =>
      if c < |x.creates| && x.creates[c].Binding? {
        MovedLeaksNothing(x, Moved(x, c, Refused));
        if !fails && !InUse(x, key) { ListenLeaksNothing(x, c, key); }
      }
    case Second(c) => if c < |x.creates| && x.creates[c].Named? { FinishedLeaksNothing(x, c); }
    case Name(c) => QuietLeaksNothing(x, step);
    case Request(_, _) => QuietLeaksNothing(x, step);
  }

  lemma QuietLeaksNothing(x: Registry, step: Step)
    requires NoLeak(x) && (step.Name? || step.Request?)
    ensures NoLeak(Apply(x, step))
  {
    SameResources(x.table, Apply(x, step).table);
    hide NoLeak, Resources;
    MovedLeaksNothing(x, Apply(x, step));
  }

  lemma StepLeaksNothing(x: Registry, step: Step)
    requires Core(x) && NoLeak(x)
    ensures NoLeak(Apply(x, step))
  {
    hide Core, NoLeak, DroppedAt, Finished, Resources, Close, Remove, Insert, Replace;
    match step
    case RemoveById(id) => if id in x.table.byID { OwnId(x, id); DroppedLeaksNothing(x, x.table.byID[id]); }
    case RemoveByKey(key) => DroppedAtLeaksNothing(x, key);
    case RemoveEvery => EveryLeaksNothing(x);
    case RecordError(id, message) =>
      if id in x.table.byID { OwnId(x, id); ChangeLeaksNothing(x, x.table.byID[id].(state := Degraded, lastError := message)); }
    case RecordSuccess(id) =>
      if id in x.table.byID { OwnId(x, id); ChangeLeaksNothing(x, x.table.byID[id].(state := Listening, lastError := "")); }
    case SetActive(id, n) =>
      if id in x.table.byID { OwnId(x, id); ChangeLeaksNothing(x, x.table.byID[id].(active := n)); }
    case _ => CreateLeaksNothing(x, step);
  }

  /** Main result. No create, failed or not, and no removal ever leaves a listener
      open that nobody holds. */
  lemma {:induction false} NothingLeaks(steps: seq<Step>)
    requires Exec(Start(), steps).issued < COUNTER_LIMIT
    ensures NoLeak(Exec(Start(), steps))
  {
    if |steps| > 0 {
      var last := |steps| - 1;
      IssuedGrows(Exec(Start(), steps[..last]), steps[last]);
      NothingLeaks(steps[..last]);
      Always(steps[..last]);
      StepLeaksNothing(Exec(Start(), steps[..last]), steps[last]);
      hide Core, NoLeak, Apply;
    }
  }
}
