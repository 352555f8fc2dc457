/** Every interleaving of reverse requests on the server's registry. Between the
    two critical sections of create the device is dialled and a session is set
    up; unlike listeners, two sessions may be set up for one endpoint at once. */
module ReverseInterleavings {
  import opened EndpointTable

  datatype Create =
    | Requested(key: string, norebind: bool)
    | Dialling(key: string, norebind: bool)
    | Named(key: string, norebind: bool, number: nat)
    | Live(key: string, norebind: bool, number: nat, session: nat)
    | Succeeded(id: string)
    | Refused

  datatype Registry = Registry(
    table: Table,
    sessions: seq<bool>,         // every session ever set up, and whether it is open
    creates: seq<Create>,
    issued: nat,                 // calls of nextReverseID
    used: seq<nat>)              // numbers of the entries ever registered, in order

  datatype Step =
    | Request(key: string, norebind: bool)
    | First(c: nat)
    | Name(c: nat, dialFails: bool)
    | SetUp(c: nat, fails: bool)
    | Second(c: nat)
    | RemoveById(id: string)
    | RemoveByKey(key: string)
    | RemoveEvery
    | RecordActive(id: string, n: nat)
    | RecordError(id: string, message: string)

  function Start(): Registry {
    Registry(Table(0, map[], map[]), [], [], 0, [])
  }

  function Close(sessions: seq<bool>, handles: set<nat>): seq<bool> {
    seq(|sessions|, i requires 0 <= i < |sessions| => sessions[i] && i !in handles)
  }

  function Resources(t: Table): set<nat> {
    set id | id in t.byID :: t.byID[id].resource
  }

  /** removeLocked. */
  function Dropped(x: Registry, e: Entry): Registry {
    x.(table := Remove(x.table, e), sessions := Close(x.sessions, {e.resource}))
  }

  function DroppedAt(x: Registry, key: string): Registry {
    if key in x.table.byKey && x.table.byKey[key] in x.table.byID then Dropped(x, x.table.byID[x.table.byKey[key]]) else x
  }

  function Moved(x: Registry, c: nat, pc: Create): Registry
    requires c < |x.creates|
  {
    x.(creates := x.creates[c := pc])
  }

  function Fresh(pc: Create): Entry
    requires pc.Live?
  {
    Entry(IdOf("rev_", pc.number), pc.key, pc.session, Listening, "", 0)
  }

  function Registered(x: Registry, c: nat): Registry
    requires c < |x.creates| && x.creates[c].Live?
  {
    var pc := x.creates[c];
    Moved(x.(table := Insert(x.table, Fresh(pc)), used := x.used + [pc.number]), c, Succeeded(Fresh(pc).id))
  }

  /** The second critical section of create. */
  function Finished(x: Registry, c: nat): Registry
    requires c < |x.creates| && x.creates[c].Live?
  {
    var pc := x.creates[c];
    if pc.key in x.table.byKey && pc.norebind then
      Moved(x.(sessions := Close(x.sessions, {pc.session})), c, Refused)
    else
      Registered(DroppedAt(x, pc.key), c)
  }

  function Apply(x: Registry, step: Step): Registry {
    match step
    case Request(key, norebind) => x.(creates := x.creates + [Requested(key, norebind)])
    case First(c) =>
      if c < |x.creates| && x.creates[c].Requested? then
        var pc := x.creates[c];
        if pc.key in x.table.byKey && pc.norebind then Moved(x, c, Refused)
        else Moved(DroppedAt(x, pc.key), c, Dialling(pc.key, pc.norebind))
      else x
    case Name(c, dialFails) =>
      if c < |x.creates| && x.creates[c].Dialling? then
        if dialFails then Moved(x, c, Refused)
        else
          var n := NextCount(x.table.nextID);
          Moved(x.(table := x.table.(nextID := n), issued := x.issued + 1), c, Named(x.creates[c].key, x.creates[c].norebind, n))
      else x
    case SetUp(c, fails) =>
      if c < |x.creates| && x.creates[c].Named? then
        var pc := x.creates[c];
        if fails then Moved(x, c, Refused)
        else Moved(x.(sessions := x.sessions + [true]), c, Live(pc.key, pc.norebind, pc.number, |x.sessions|))
      else x
    case Second(c) => if c < |x.creates| && x.creates[c].Live? then Finished(x, c) else x
    case RemoveById(id) => if id in x.table.byID then Dropped(x, x.table.byID[id]) else x
    case RemoveByKey(key) => DroppedAt(x, key)
    case RemoveEvery =>
      x.(table := Table(x.table.nextID, map[], map[]), sessions := Close(x.sessions, Resources(x.table)))
    case RecordActive(id, n) =>
      if id in x.table.byID then
        var e := x.table.byID[id];
        x.(table := Replace(x.table, e.(active := n, state := if e.state == Degraded && e.lastError == "" then Listening else e.state)))
      else x
    case RecordError(id, message) =>
      if id in x.table.byID && message != "" then
        x.(table := Replace(x.table, x.table.byID[id].(state := Degraded, lastError := message)))
      else x
  }

  function Exec(x: Registry, steps: seq<Step>): Registry {
    if |steps| == 0 then x else Apply(Exec(x, steps[..|steps| - 1]), steps[|steps| - 1])
  }

  // ---- the invariant -----------------------------------------------------

  /** Registered entries have open sessions, each its own; a create that has set
      up its session still owns it alone; and no other session is open. */
  ghost predicate SessionsRight(x: Registry) {
    && (forall id :: id in x.table.byID ==> x.table.byID[id].resource < |x.sessions| && x.sessions[x.table.byID[id].resource])
    && (forall i, j :: i in x.table.byID && j in x.table.byID && x.table.byID[i].resource == x.table.byID[j].resource ==> i == j)
    && (forall c :: 0 <= c < |x.creates| && x.creates[c].Live? ==>
          x.creates[c].session < |x.sessions| && x.sessions[x.creates[c].session] && x.creates[c].session !in Resources(x.table))
    && (forall c, d :: 0 <= c < d < |x.creates| && x.creates[c].Live? && x.creates[d].Live? ==>
          x.creates[c].session != x.creates[d].session)
  }

  ghost predicate NoLeak(x: Registry) {
    forall s :: 0 <= s < |x.sessions| && x.sessions[s] ==> s in Resources(x.table) || HeldByCreate(x, s)
  }

  predicate HeldByCreate(x: Registry, s: nat) {
    exists c :: 0 <= c < |x.creates| && x.creates[c].Live? && x.creates[c].session == s
  }

  predicate Numbered(pc: Create) {
    pc.Named? || pc.Live?
  }

  ghost predicate NumbersRight(x: Registry) {
    && x.table.nextID == x.issued
    && (forall i :: 0 <= i < |x.used| ==> 0 < x.used[i] <= x.issued)
    && (forall i, j :: 0 <= i < j < |x.used| ==> x.used[i] != x.used[j])
    && (forall c :: 0 <= c < |x.creates| && Numbered(x.creates[c]) ==>
          0 < x.creates[c].number <= x.issued && x.creates[c].number !in x.used)
    && (forall c, d :: 0 <= c < d < |x.creates| && Numbered(x.creates[c]) && Numbered(x.creates[d]) ==>
          x.creates[c].number != x.creates[d].number)
    && (forall id :: id in x.table.byID ==> exists n :: n in x.used && id == IdOf("rev_", n))
  }

  ghost predicate Core(x: Registry) {
    Consistent(x.table) && StatesRight(x.table) && SessionsRight(x) && NoLeak(x) && NumbersRight(x)
  }

  ghost predicate Inv(x: Registry) {
    x.issued < COUNTER_LIMIT ==> Core(x)
  }

  lemma ResourcesRemove(t: Table, e: Entry)
    requires e.id in t.byID && t.byID[e.id] == e
    requires forall id :: id in t.byID && id != e.id ==> t.byID[id].resource != e.resource
    ensures Resources(Remove(t, e)) == Resources(t) - {e.resource}
  {
    var u := Remove(t, e);
    forall r | r in Resources(t) && r != e.resource ensures r in Resources(u) {
      var id :| id in t.byID && t.byID[id].resource == r;
      assert u.byID[id].resource == r;
    }
    forall r | r in Resources(u) ensures r in Resources(t) && r != e.resource {
      var id :| id in u.byID && u.byID[id].resource == r;
      assert t.byID[id].resource == r;
    }
  }

  lemma ResourcesInsert(t: Table, e: Entry)
    requires e.id !in t.byID
    ensures Resources(Insert(t, e)) == Resources(t) + {e.resource}
  {
    var u := Insert(t, e);
    forall r | r in Resources(t) + {e.resource} ensures r in Resources(u) {
      if r == e.resource { assert u.byID[e.id].resource == r; }
      else { var id :| id in t.byID && t.byID[id].resource == r; assert u.byID[id].resource == r; }
    }
    forall r | r in Resources(u) ensures r in Resources(t) + {e.resource} {
      var id :| id in u.byID && u.byID[id].resource == r;
      if id != e.id { assert t.byID[id].resource == r; }
    }
  }

  lemma ResourcesReplace(t: Table, e: Entry)
    requires e.id in t.byID && t.byID[e.id].resource == e.resource
    ensures Resources(Replace(t, e)) == Resources(t)
  {
    var u := Replace(t, e);
    forall r | r in Resources(t) ensures r in Resources(u) {
      var id :| id in t.byID && t.byID[id].resource == r;
      assert u.byID[id].resource == r;
    }
    forall r | r in Resources(u) ensures r in Resources(t) {
      var id :| id in u.byID && u.byID[id].resource == r;
      assert t.byID[id].resource == r;
    }
  }

  lemma DroppedSessions(x: Registry, e: Entry)
    requires SessionsRight(x) && NoLeak(x) && e.id in x.table.byID && x.table.byID[e.id] == e
    ensures SessionsRight(Dropped(x, e)) && NoLeak(Dropped(x, e))
  {
    var y := Dropped(x, e);
    ResourcesRemove(x.table, e);
    assert e.resource in Resources(x.table);
    assert SessionsRight(y) by { hide Resources, NoLeak; }
    forall s | 0 <= s < |y.sessions| && y.sessions[s] ensures s in Resources(y.table) || HeldByCreate(y, s) {
      assert x.sessions[s] && (s in Resources(x.table) || HeldByCreate(x, s));
      if HeldByCreate(x, s) {
        var c :| 0 <= c < |x.creates| && x.creates[c].Live? && x.creates[c].session == s;
        assert y.creates[c].Live? && y.creates[c].session == s;
      }
    }
  }

  lemma DroppedKeeps(x: Registry, e: Entry)
    requires Core(x) && e.id in x.table.byID && x.table.byID[e.id] == e
    ensures Core(Dropped(x, e))
  {
    RemoveConsistent(x.table, e);
    DroppedSessions(x, e);
    DroppedNumbers(x, e);
    hide Consistent, SessionsRight, NoLeak, NumbersRight, StatesRight, Close, Remove;
  }

  lemma DroppedNumbers(x: Registry, e: Entry)
    requires NumbersRight(x) && StatesRight(x.table)
    ensures NumbersRight(Dropped(x, e)) && StatesRight(Dropped(x, e).table)
  {
    hide Close, IdOf;
  }

  lemma DroppedAtKeeps(x: Registry, key: string)
    requires Core(x)
    ensures Core(DroppedAt(x, key)) && key !in DroppedAt(x, key).table.byKey
    ensures DroppedAt(x, key).creates == x.creates && DroppedAt(x, key).used == x.used && DroppedAt(x, key).issued == x.issued
  {
    if key in x.table.byKey {
      var e := x.table.byID[x.table.byKey[key]];
      assert e.id == x.table.byKey[key] && e.key == key;
      RemoveConsistent(x.table, e);
      DroppedKeeps(x, e);
    }
    hide Core, Close;
  }

  /** A create that does not hold a session moves on. */
  lemma MovedKeeps(x: Registry, c: nat, pc: Create)
    requires Core(x) && c < |x.creates| && !x.creates[c].Live? && !Numbered(pc)
    ensures Core(Moved(x, c, pc))
  {
    hide Resources, Consistent, StatesRight;
    var y := Moved(x, c, pc);
    forall s | HeldByCreate(x, s) ensures HeldByCreate(y, s) {
      var d :| 0 <= d < |x.creates| && x.creates[d].Live? && x.creates[d].session == s;
      assert y.creates[d] == x.creates[d];
    }
  }

  lemma RequestKeeps(x: Registry, key: string, norebind: bool)
    requires Core(x)
    ensures Core(x.(creates := x.creates + [Requested(key, norebind)]))
  {
    hide Resources, Consistent, StatesRight;
    var y := x.(creates := x.creates + [Requested(key, norebind)]);
    forall s | HeldByCreate(x, s) ensures HeldByCreate(y, s) {
      var d :| 0 <= d < |x.creates| && x.creates[d].Live? && x.creates[d].session == s;
      assert y.creates[d] == x.creates[d];
    }
  }

  lemma NameNumbers(x: Registry, c: nat)
    requires NumbersRight(x) && c < |x.creates| && x.creates[c].Dialling? && x.issued + 1 < COUNTER_LIMIT
    ensures NumbersRight(Apply(x, Name(c, false)))
  {
    hide IdOf;
  }

  /** The sessions and entries do not change when a create takes its number. */
  lemma NameSessions(x: Registry, c: nat)
    requires SessionsRight(x) && NoLeak(x) && c < |x.creates| && x.creates[c].Dialling?
    ensures SessionsRight(Apply(x, Name(c, false))) && NoLeak(Apply(x, Name(c, false)))
  {
    var y := Apply(x, Name(c, false));
    assert Resources(y.table) == Resources(x.table);
    hide Resources, NextCount;
    forall s | HeldByCreate(x, s) ensures HeldByCreate(y, s) {
      var d :| 0 <= d < |x.creates| && x.creates[d].Live? && x.creates[d].session == s;
      assert y.creates[d] == x.creates[d];
    }
    hide HeldByCreate;
  }

  lemma NameKeeps(x: Registry, c: nat)
    requires Core(x) && c < |x.creates| && x.creates[c].Dialling? && x.issued + 1 < COUNTER_LIMIT
    ensures Core(Apply(x, Name(c, false)))
  {
    NameNumbers(x, c);
    NameSessions(x, c);
    NameTable(x.table, NextCount(x.table.nextID));
    hide SessionsRight, NoLeak, NumbersRight, Consistent, StatesRight, NextCount;
  }

  lemma NameTable(t: Table, n: nat)
    requires Consistent(t) && StatesRight(t)
    ensures Consistent(t.(nextID := n)) && StatesRight(t.(nextID := n))
  {
  }

  lemma SetUpKeeps(x: Registry, c: nat)
    requires Core(x) && c < |x.creates| && x.creates[c].Named?
    ensures Core(Apply(x, SetUp(c, false)))
  {
    var y := Apply(x, SetUp(c, false));
    SetUpSessions(x, c);
    assert NumbersRight(y) by { hide IdOf, Resources, SessionsRight, NoLeak, Consistent, StatesRight; }
    hide SessionsRight, NoLeak, NumbersRight, Consistent, StatesRight;
  }

  lemma SetUpSessions(x: Registry, c: nat)
    requires SessionsRight(x) && NoLeak(x) && c < |x.creates| && x.creates[c].Named?
    ensures SessionsRight(Apply(x, SetUp(c, false))) && NoLeak(Apply(x, SetUp(c, false)))
  {
    var y := Apply(x, SetUp(c, false));
    forall r | r in Resources(x.table) ensures r < |x.sessions| {
      var id :| id in x.table.byID && x.table.byID[id].resource == r;
    }
    assert Resources(y.table) == Resources(x.table);
    hide Resources;
    forall s | 0 <= s < |y.sessions| && y.sessions[s] ensures s in Resources(y.table) || HeldByCreate(y, s) {
      if s == |x.sessions| {
        assert y.creates[c].Live? && y.creates[c].session == s;
      } else if HeldByCreate(x, s) {
        var d :| 0 <= d < |x.creates| && x.creates[d].Live? && x.creates[d].session == s;
        assert y.creates[d] == x.creates[d];
      }
    }
  }

  lemma RefusedSessions(x: Registry, c: nat)
    requires SessionsRight(x) && NoLeak(x) && c < |x.creates| && x.creates[c].Live?
    ensures var y := Moved(x.(sessions := Close(x.sessions, {x.creates[c].session})), c, Refused); SessionsRight(y) && NoLeak(y)
  {
    var y := Moved(x.(sessions := Close(x.sessions, {x.creates[c].session})), c, Refused);
    forall id | id in x.table.byID ensures x.table.byID[id].resource in Resources(x.table) {}
    assert Resources(y.table) == Resources(x.table);
    hide Resources;
    assert SessionsRight(y) by { hide NoLeak; }
    forall s | 0 <= s < |y.sessions| && y.sessions[s] ensures s in Resources(y.table) || HeldByCreate(y, s) {
      if HeldByCreate(x, s) {
        var d :| 0 <= d < |x.creates| && x.creates[d].Live? && x.creates[d].session == s;
        assert d != c && y.creates[d] == x.creates[d];
      }
    }
    hide SessionsRight;
  }

  lemma RefusedKeeps(x: Registry, c: nat)
    requires Core(x) && c < |x.creates| && x.creates[c].Live?
    ensures Core(Moved(x.(sessions := Close(x.sessions, {x.creates[c].session})), c, Refused))
  {
    RefusedSessions(x, c);
    var y := Moved(x.(sessions := Close(x.sessions, {x.creates[c].session})), c, Refused);
    assert NumbersRight(y) by { hide IdOf, Resources, SessionsRight, NoLeak, Consistent, StatesRight; }
    hide SessionsRight, NoLeak, NumbersRight, Consistent, StatesRight, Close;
  }

  lemma FreshId(x: Registry, c: nat)
    requires NumbersRight(x) && c < |x.creates| && x.creates[c].Live?
    ensures Fresh(x.creates[c]).id !in x.table.byID
  {
    var id := Fresh(x.creates[c]).id;
    if id in x.table.byID {
      var n :| n in x.used && id == IdOf("rev_", n);
      IdsDiffer("rev_", n, x.creates[c].number);
      assert false;
    }
  }

  lemma RegisteredNumbers(x: Registry, c: nat)
    requires NumbersRight(x) && c < |x.creates| && x.creates[c].Live?
    ensures NumbersRight(Registered(x, c))
  {
    var y := Registered(x, c);
    forall id | id in y.table.byID ensures exists n :: n in y.used && id == IdOf("rev_", n) {
      if id == Fresh(x.creates[c]).id {
        assert y.used[|x.used|] == x.creates[c].number;
      } else {
        var n :| n in x.used && id == IdOf("rev_", n);
        assert n in y.used;
      }
    }
    hide IdOf;
  }

  lemma RegisteredSessions(x: Registry, c: nat)
    requires SessionsRight(x) && NoLeak(x) && c < |x.creates| && x.creates[c].Live? && Fresh(x.creates[c]).id !in x.table.byID
    ensures SessionsRight(Registered(x, c)) && NoLeak(Registered(x, c))
  {
    var y := Registered(x, c);
    ResourcesInsert(x.table, Fresh(x.creates[c]));
    forall id | id in x.table.byID ensures x.table.byID[id].resource in Resources(x.table) {}
    hide Resources, IdOf;
    assert SessionsRight(y) by { hide NoLeak; }
    forall s | 0 <= s < |y.sessions| && y.sessions[s] ensures s in Resources(y.table) || HeldByCreate(y, s) {
      if HeldByCreate(x, s) {
        var d :| 0 <= d < |x.creates| && x.creates[d].Live? && x.creates[d].session == s;
        if d != c { assert y.creates[d] == x.creates[d]; }
      }
    }
  }

  lemma RegisteredKeeps(x: Registry, c: nat)
    requires Core(x) && c < |x.creates| && x.creates[c].Live? && x.creates[c].key !in x.table.byKey
    ensures Core(Registered(x, c))
  {
    FreshId(x, c);
    InsertConsistent(x.table, Fresh(x.creates[c]));
    RegisteredNumbers(x, c);
    RegisteredSessions(x, c);
    InsertStates(x.table, Fresh(x.creates[c]));
    hide SessionsRight, NoLeak, NumbersRight, Consistent, StatesRight, IdOf, Insert;
  }

  lemma InsertStates(t: Table, e: Entry)
    requires StatesRight(t) && e.state == Listening && e.lastError == ""
    ensures StatesRight(Insert(t, e))
  {
  }

  lemma FinishedKeeps(x: Registry, c: nat)
    requires Core(x) && c < |x.creates| && x.creates[c].Live?
    ensures Core(Finished(x, c))
  {
    var pc := x.creates[c];
    if pc.key in x.table.byKey && pc.norebind {
      RefusedKeeps(x, c);
    } else {
      DroppedAtKeeps(x, pc.key);
      RegisteredKeeps(DroppedAt(x, pc.key), c);
    }
    hide Core, Registered, DroppedAt, Close;
  }

  lemma ChangeKeeps(x: Registry, e: Entry)
    requires Core(x) && e.id in x.table.byID
    requires x.table.byID[e.id].key == e.key && x.table.byID[e.id].resource == e.resource
    requires e.state != Stopped && (e.state == Listening <==> e.lastError == "")
    ensures Core(x.(table := Replace(x.table, e)))
  {
    ReplaceConsistent(x.table, e);
    ResourcesReplace(x.table, e);
    var y := x.(table := Replace(x.table, e));
    ChangeSessions(x, e);
    ChangeStates(x, e);
    assert NumbersRight(y) by { hide SessionsRight, NoLeak, Consistent, StatesRight, IdOf; }
    hide Resources, SessionsRight, NoLeak, Consistent, NumbersRight, StatesRight, Replace;
  }

  lemma ChangeSessions(x: Registry, e: Entry)
    requires SessionsRight(x) && NoLeak(x) && e.id in x.table.byID && x.table.byID[e.id].resource == e.resource
    ensures SessionsRight(x.(table := Replace(x.table, e))) && NoLeak(x.(table := Replace(x.table, e)))
  {
    ResourcesReplace(x.table, e);
    var y := x.(table := Replace(x.table, e));
    SameHolders(x, y);
    ReplaceSame(x.table, e);
    hide Resources, HeldByCreate, Replace;
    assert SessionsRight(y) by { hide NoLeak; }
    hide SessionsRight;
  }

  lemma ReplaceSame(t: Table, e: Entry)
    requires e.id in t.byID && t.byID[e.id].resource == e.resource
    ensures Replace(t, e).byID.Keys == t.byID.Keys
    ensures forall id :: id in t.byID ==> Replace(t, e).byID[id].resource == t.byID[id].resource
  {
  }

  lemma SameHolders(x: Registry, y: Registry)
    requires x.creates == y.creates
    ensures forall s :: HeldByCreate(y, s) == HeldByCreate(x, s)
  {
  }

  lemma ChangeStates(x: Registry, e: Entry)
    requires StatesRight(x.table) && e.id in x.table.byID && e.state != Stopped && (e.state == Listening <==> e.lastError == "")
    ensures StatesRight(Replace(x.table, e))
  {
  }

  lemma RemoveEverySessions(x: Registry)
    requires SessionsRight(x) && NoLeak(x)
    ensures SessionsRight(Apply(x, RemoveEvery)) && NoLeak(Apply(x, RemoveEvery))
  {
    var y := Apply(x, RemoveEvery);
    assert Resources(y.table) == {};
    forall s | HeldByCreate(x, s) ensures HeldByCreate(y, s) {
      var d :| 0 <= d < |x.creates| && x.creates[d].Live? && x.creates[d].session == s;
      assert y.creates[d] == x.creates[d];
    }
    hide Resources, HeldByCreate;
  }

  lemma RemoveEveryKeeps(x: Registry)
    requires Core(x)
    ensures Core(Apply(x, RemoveEvery))
  {
    var y := Apply(x, RemoveEvery);
    RemoveEverySessions(x);
    assert NumbersRight(y) by { hide SessionsRight, NoLeak, Consistent, StatesRight, Close, Resources; }
    hide SessionsRight, NoLeak, NumbersRight, Close, Resources;
  }

  lemma OwnId(x: Registry, id: string)
    requires Core(x) && id in x.table.byID
    ensures x.table.byID[id].id == id && x.table.byID[id].state != Stopped
    ensures x.table.byID[id].state == Listening <==> x.table.byID[id].lastError == ""
  {
  }

  lemma CreateKeeps(x: Registry, step: Step)
    requires Core(x) && Apply(x, step).issued < COUNTER_LIMIT
    requires step.Request? || step.First? || step.Name? || step.SetUp? || step.Second?
    ensures Core(Apply(x, step))
  {
    hide Core, DroppedAt, Finished, Remove, Insert, Replace, Close, Resources;
    match step
    case Request(key, norebind) => RequestKeeps(x, key, norebind);
    case First(c) =>
      if c < |x.creates| && x.creates[c].Requested? {
        var pc := x.creates[c];
        DroppedAtKeeps(x, pc.key);
        MovedKeeps(x, c, Refused);
        MovedKeeps(DroppedAt(x, pc.key), c, Dialling(pc.key, pc.norebind));
      }
    case Name(c, dialFails) =>
      if c < |x.creates| && x.creates[c].Dialling? {
        if dialFails { MovedKeeps(x, c, Refused); } else { NameKeeps(x, c); }
      }
    case SetUp(c, fails) =>
      if c < |x.creates| && x.creates[c].Named? {
        if fails { MovedKeeps(x, c, Refused); } else { SetUpKeeps(x, c); }
      }
    case Second(c) => if c < |x.creates| && x.creates[c].Live? { FinishedKeeps(x, c); }
  }

  lemma OtherKeeps(x: Registry, step: Step)
    requires Core(x)
    requires step.RemoveById? || step.RemoveByKey? || step.RemoveEvery? || step.RecordActive? || step.RecordError?
    ensures Core(Apply(x, step))
  {
    hide Core, DroppedAt, Finished, Remove, Insert, Replace, Close, Resources;
    match step
    case RemoveById(id) => if id in x.table.byID { OwnId(x, id); DroppedKeeps(x, x.table.byID[id]); }
    case RemoveByKey(key) => DroppedAtKeeps(x, key);
    case RemoveEvery => RemoveEveryKeeps(x);
    case RecordActive(id, n) =>
      if id in x.table.byID { OwnId(x, id); ChangeKeeps(x, x.table.byID[id].(active := n)); }
    case RecordError(id, message) =>
      if id in x.table.byID && message != "" { OwnId(x, id); ChangeKeeps(x, x.table.byID[id].(state := Degraded, lastError := message)); }
  }

  lemma StepKeeps(x: Registry, step: Step)
    requires Inv(x)
    ensures Inv(Apply(x, step))
  {
    if Apply(x, step).issued < COUNTER_LIMIT {
      IssuedGrows(x, step);
      if step.Request? || step.First? || step.Name? || step.SetUp? || step.Second? { CreateKeeps(x, step); } else { OtherKeeps(x, step); }
    }
    hide Apply, Core;
  }

  lemma IssuedGrows(x: Registry, step: Step)
    ensures x.issued <= Apply(x, step).issued
  {
    hide Remove, Insert, Replace, Close, Resources;
  }

  lemma {:induction false} Always(steps: seq<Step>)
    ensures Inv(Exec(Start(), steps))
  {
    if |steps| > 0 {
      Always(steps[..|steps| - 1]);
      StepKeeps(Exec(Start(), steps[..|steps| - 1]), steps[|steps| - 1]);
      hide Inv, Apply;
    }
  }

  // ---- the steps are the registry's methods ------------------------------

  lemma ClosingNothing(sessions: seq<bool>)
    ensures Close(sessions, {}) == sessions
  {
  }

  lemma DroppedAtFrees(x: Registry, key: string)
    ensures DroppedAt(x, key) == x.(table := Freed(x.table, key), sessions := Close(x.sessions, HeldFor(x.table, key)))
  {
    ClosingNothing(x.sessions);
    hide Close, Remove;
  }

  /** The first step of a create does to the table and to the sessions what
      BeginCreate does, and is refused when BeginCreate refuses. */
  lemma FirstIsBeginCreate(x: Registry, c: nat)
    requires c < |x.creates| && x.creates[c].Requested?
    ensures var y, pc := Apply(x, First(c)), x.creates[c];
            && y.table == Began(x.table, pc.key, pc.norebind)
            && y.sessions == Close(x.sessions, if pc.norebind then {} else HeldFor(x.table, pc.key))
            && (y.creates[c] == Refused <==> pc.key in x.table.byKey && pc.norebind)
  {
    DroppedAtFrees(x, x.creates[c].key);
    ClosingNothing(x.sessions);
    hide Close, Remove, DroppedAt;
  }

  /** The last step of a create does what FinishCreate does with its entry. */
  lemma SecondIsFinishCreate(x: Registry, c: nat)
    requires c < |x.creates| && x.creates[c].Live?
    ensures var y, pc, e := Apply(x, Second(c)), x.creates[c], Fresh(x.creates[c]);
            && y.table == Completed(x.table, e, pc.norebind)
            && y.sessions == Close(x.sessions, if e.key !in x.table.byKey then {} else if pc.norebind then {e.resource} else HeldFor(x.table, e.key))
            && (y.creates[c] == Refused <==> e.key in x.table.byKey && pc.norebind)
  {
    DroppedAtFrees(x, x.creates[c].key);
    ClosingNothing(x.sessions);
    hide Close, Remove, Insert, IdOf, DroppedAt;
  }

  /** Removal by endpoint frees the endpoint and closes what it held, as remove does. */
  lemma RemoveByKeyIsRemove(x: Registry, key: string)
    ensures var y := Apply(x, RemoveByKey(key));
            y.table == Freed(x.table, key) && y.sessions == Close(x.sessions, HeldFor(x.table, key))
  {
    DroppedAtFrees(x, key);
    hide DroppedAt;
  }

  // ---- what holds in every interleaving ----------------------------------

  /** Main result. In every interleaving, while the ID counter has not wrapped:
      the indexes are inverse to each other; every registered entry has an open
      session of its own; an open session is always registered or in the hands of
      a running create, so none is ever leaked; and the diagnostics add up. */
  lemma RegistryAlwaysRight(steps: seq<Step>)
    requires Exec(Start(), steps).issued < COUNTER_LIMIT
    ensures var x := Exec(Start(), steps);
            && Consistent(x.table) && |x.table.byID| == |x.table.byKey|
            && SessionsRight(x) && NoLeak(x)
            && |InState(x.table, Listening)| + |InState(x.table, Degraded)| == |x.table.byID|
  {
    Always(steps);
    hide Exec;
    SameSize(Exec(Start(), steps).table);
    DiagnosticsAddUp(Exec(Start(), steps).table);
    hide Consistent, SessionsRight, NoLeak, NumbersRight, StatesRight;
  }

  /** IDs are never reused: over a whole run no number is registered twice, every
      live ID carries a registered number, and "" is never an ID. */
  lemma IdsNeverReused(steps: seq<Step>)
    requires Exec(Start(), steps).issued < COUNTER_LIMIT
    ensures var x := Exec(Start(), steps);
            && (forall i, j :: 0 <= i < j < |x.used| ==> IdOf("rev_", x.used[i]) != IdOf("rev_", x.used[j]))
            && (forall id :: id in x.table.byID ==> exists n :: n in x.used && id == IdOf("rev_", n))
            && "" !in x.table.byID
  {
    Always(steps);
    var x := Exec(Start(), steps);
    hide Exec, Consistent, SessionsRight, NoLeak, StatesRight;
    forall i, j | 0 <= i < j < |x.used| ensures IdOf("rev_", x.used[i]) != IdOf("rev_", x.used[j]) {
      IdsDiffer("rev_", x.used[i], x.used[j]);
    }
    if "" in x.table.byID {
      var n :| n in x.used && "" == IdOf("rev_", n);
      IdsDiffer("rev_", n, n);
      assert false;
    }
  }

  lemma FreeKeyDropsNothing(x: Registry, key: string)
    ensures key !in x.table.byKey ==> DroppedAt(x, key) == x
  {
  }

  /** A create with norebind never removes or changes an entry. */
  lemma NorebindKeepsEntries(steps: seq<Step>, c: nat)
    requires var x := Exec(Start(), steps); x.issued < COUNTER_LIMIT && c < |x.creates|
    requires var pc := Exec(Start(), steps).creates[c];
             (pc.Requested? || pc.Live?) && pc.norebind
    ensures var x := Exec(Start(), steps);
            && Apply(x, First(c)).table == x.table
            && (forall id :: id in x.table.byID ==>
                  id in Apply(x, Second(c)).table.byID && Apply(x, Second(c)).table.byID[id] == x.table.byID[id])
  {
    Always(steps);
    var x := Exec(Start(), steps);
    hide Exec, IdOf, Close, DroppedAt, Finished, Resources;
    FreeKeyDropsNothing(x, x.creates[c].key);
    if x.creates[c].Live? {
      FreshId(x, c);
      if x.creates[c].key in x.table.byKey { FinishedRefuses(x, c); } else { FinishedRegisters(x, c); }
    }
    hide Core;
  }

  /** What the second critical section decides when two creates race for one
      endpoint: with norebind the newcomer is refused, its own session is closed
      and the table is untouched; otherwise the newcomer holds the endpoint and
      the entry it found is gone. */
  lemma RaceDecided(steps: seq<Step>, c: nat)
    requires var x := Exec(Start(), steps); x.issued < COUNTER_LIMIT && c < |x.creates| && x.creates[c].Live?
    ensures var x := Exec(Start(), steps);
            var y, pc := Apply(x, Second(c)), x.creates[c];
            if pc.key in x.table.byKey && pc.norebind then
              && y.creates[c] == Refused && y.table == x.table
              && pc.session < |y.sessions| && !y.sessions[pc.session]
            else
              && y.creates[c] == Succeeded(Fresh(pc).id) && TakesOver(x.table, y.table, Fresh(pc))
  {
    Always(steps);
    var x := Exec(Start(), steps);
    hide Exec, Resources, IdOf, TakesOver;
    var pc := x.creates[c];
    assert pc.session < |x.sessions| && Core(x);
    hide Core, SessionsRight, DroppedAt, Close, Finished;
    if pc.key in x.table.byKey && pc.norebind {
      FinishedRefuses(x, c);
    } else {
      FinishedRegisters(x, c);
      EntryTakesOver(x, c);
    }
  }

  lemma EntryTakesOver(x: Registry, c: nat)
    requires Core(x) && c < |x.creates| && x.creates[c].Live?
    ensures var e := Fresh(x.creates[c]); TakesOver(x.table, Insert(DroppedAt(x, e.key).table, e), e)
  {
    hide DroppedAt, IdOf, SessionsRight, NoLeak, StatesRight, NumbersRight, TakesOver;
    FreshId(x, c);
    DroppedAtOnly(x, x.creates[c].key);
    InsertTakesOver(x.table, DroppedAt(x, x.creates[c].key).table, Fresh(x.creates[c]));
  }

  lemma FinishedRefuses(x: Registry, c: nat)
    requires c < |x.creates| && x.creates[c].Live? && x.creates[c].key in x.table.byKey && x.creates[c].norebind
    ensures var y := Finished(x, c);
            && y.table == x.table && y.creates == x.creates[c := Refused] && |y.sessions| == |x.sessions|
            && (x.creates[c].session < |x.sessions| ==> !y.sessions[x.creates[c].session])
  {
  }

  lemma FinishedRegisters(x: Registry, c: nat)
    requires c < |x.creates| && x.creates[c].Live? && !(x.creates[c].key in x.table.byKey && x.creates[c].norebind)
    ensures var e := Fresh(x.creates[c]);
            var y, d := Finished(x, c), DroppedAt(x, e.key);
            && y.table == Insert(d.table, e) && y.creates == x.creates[c := Succeeded(e.id)]
            && (e.key !in x.table.byKey ==> d == x)
  {
    DroppedAtEntries(x, x.creates[c].key);
    hide Close, Insert, IdOf;
  }

  /** Dropping the holder of a key removes that entry and no other. */
  lemma DroppedAtOnly(x: Registry, key: string)
    requires Consistent(x.table)
    ensures var y := DroppedAt(x, key);
            && key !in y.table.byKey && y.creates == x.creates
            && (key in x.table.byKey ==> x.table.byKey[key] !in y.table.byID && x.table.byKey[key] in x.table.byID)
            && (forall id :: id in x.table.byID && x.table.byID[id].key != key ==> id in y.table.byID && y.table.byID[id] == x.table.byID[id])
  {
    hide Close;
    if key in x.table.byKey { RemoveConsistent(x.table, x.table.byID[x.table.byKey[key]]); }
  }

  /** What is recorded about a registered entry is on that entry, and on no other. */
  lemma RecordsAreRecorded(steps: seq<Step>, id: string, message: string, n: nat)
    requires var x := Exec(Start(), steps); x.issued < COUNTER_LIMIT && id in x.table.byID
    ensures var x := Exec(Start(), steps);
            var e := x.table.byID[id];
            && (message != "" ==> Apply(x, RecordError(id, message)).table == x.table.(byID := x.table.byID[id := e.(state := Degraded, lastError := message)]))
            && Apply(x, RecordActive(id, n)).table == x.table.(byID := x.table.byID[id := e.(active := n)])
  {
    Always(steps);
    var x := Exec(Start(), steps);
    hide Exec;
    OwnId(x, id);
    hide Core;
  }

  /** Everything a step can do to a registered entry that stays registered. */
  lemma DegradedStep(x: Registry, step: Step, id: string)
    requires Core(x) && id in x.table.byID && x.table.byID[id].state == Degraded && id in Apply(x, step).table.byID
    requires step.Second? && step.c < |x.creates| && x.creates[step.c].Live? ==> Fresh(x.creates[step.c]).id != id
    ensures Apply(x, step).table.byID[id].state == Degraded
  {
    hide Core, Close, Resources, IdOf, DroppedAt, Finished, Insert;
    OwnId(x, id);
    match step
    case Second(c) => if c < |x.creates| && x.creates[c].Live? { FinishedEntries(x, c); }
    case First(c) => if c < |x.creates| && x.creates[c].Requested? { DroppedAtEntries(x, x.creates[c].key); }
    case RemoveByKey(key) => DroppedAtEntries(x, key);
    case RecordActive(other, n) => if other in x.table.byID { OwnId(x, other); }
    case RecordError(other, message) => if other in x.table.byID { OwnId(x, other); }
    case _ =>
  }

  lemma LateIdsAreNew(x: Registry, step: Step, n: nat)
    requires Core(x) && n in x.used && step.Second? && step.c < |x.creates| && x.creates[step.c].Live?
    ensures Fresh(x.creates[step.c]).id != IdOf("rev_", n)
  {
    IdsDiffer("rev_", n, x.creates[step.c].number);
    hide Consistent, SessionsRight, NoLeak, StatesRight, IdOf;
  }

  lemma UsedStep(x: Registry, step: Step, n: nat)
    requires n in x.used
    ensures n in Apply(x, step).used
  {
    hide Remove, Insert, Replace, Close, Resources;
  }

  lemma GoneStaysGone(x: Registry, step: Step, id: string)
    requires Core(x) && id !in x.table.byID && id in Apply(x, step).table.byID
    ensures step.Second? && step.c < |x.creates| && x.creates[step.c].Live? && Fresh(x.creates[step.c]).id == id
  {
    hide Core, Close, Resources, IdOf, DroppedAt, Finished, Insert;
    match step
    case Second(c) => if c < |x.creates| && x.creates[c].Live? { FinishedEntries(x, c); }
    case First(c) => if c < |x.creates| && x.creates[c].Requested? { DroppedAtEntries(x, x.creates[c].key); }
    case RemoveByKey(key) => DroppedAtEntries(x, key);
    case RecordActive(other, n) => if other in x.table.byID { OwnId(x, other); }
    case RecordError(other, message) => if other in x.table.byID { OwnId(x, other); }
    case _ =>
  }

  /** Dropping leaves the other entries as they are. */
  lemma DroppedAtEntries(x: Registry, key: string)
    ensures var y := DroppedAt(x, key);
            && y.creates == x.creates
            && (forall id :: id in y.table.byID ==> id in x.table.byID && y.table.byID[id] == x.table.byID[id])
  {
    hide Close;
  }

  lemma FinishedEntries(x: Registry, c: nat)
    requires c < |x.creates| && x.creates[c].Live?
    ensures var y := Finished(x, c);
            forall id :: id in y.table.byID && id != Fresh(x.creates[c]).id ==> id in x.table.byID && y.table.byID[id] == x.table.byID[id]
  {
    DroppedAtEntries(x, x.creates[c].key);
    hide Close, DroppedAt, IdOf;
  }

  /** A degraded reverse stays degraded for as long as it is registered: the branch
      of recordReverseActive that would make it listening again asks for an empty
      error text, which a registered degraded entry never has. */
  lemma {:induction false} DegradedForGood(before: seq<Step>, after: seq<Step>, n: nat)
    requires var x := Exec(Start(), before);
             n in x.used && (IdOf("rev_", n) in x.table.byID ==> x.table.byID[IdOf("rev_", n)].state == Degraded)
    requires Exec(Start(), before + after).issued < COUNTER_LIMIT
    ensures var y := Exec(Start(), before + after);
            n in y.used && (IdOf("rev_", n) in y.table.byID ==> y.table.byID[IdOf("rev_", n)].state == Degraded)
    decreases |after|
  {
    if |after| == 0 {
      assert before + after == before;
    } else {
      var last := |after| - 1;
      var steps := before + after[..last];
      assert (before + after)[..|before + after| - 1] == steps;
      var x, step, id := Exec(Start(), steps), after[last], IdOf("rev_", n);
      IssuedGrows(x, step);
      DegradedForGood(before, after[..last], n);
      Always(steps);
      hide Exec;
      UsedStep(x, step, n);
      if step.Second? && step.c < |x.creates| && x.creates[step.c].Live? { LateIdsAreNew(x, step, n); }
      if id in Apply(x, step).table.byID {
        if id in x.table.byID { DegradedStep(x, step, id); } else { GoneStaysGone(x, step, id); }
      }
      hide Apply, Core, IdOf;
    }
  }
}
