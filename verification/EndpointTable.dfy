/** The table both server registries keep under their lock: entries by ID, and
    the ID of the entry registered for each endpoint key. */
module EndpointTable {
  const COUNTER_LIMIT: int := 0x1_0000_0000_0000_0000

  datatype State = Listening | Degraded | Stopped

  /** A registered forward or reverse; resource is its listener or its session. */
  datatype Entry = Entry(id: string, key: string, resource: nat, state: State, lastError: string, active: nat)

  datatype Table = Table(nextID: nat, byID: map<string, Entry>, byKey: map<string, string>)

  datatype Error = BadRequest | RebindDisallowed | NotFound

  datatype Diagnostics = Diagnostics(total: nat, listening: nat, degraded: nat, activeConnections: nat)

  function Digits(n: nat): string {
    (if n < 10 then [] else Digits(n / 10)) + ["0123456789"[n % 10]]
  }

  /** "fwd_" or "rev_" followed by the counter in decimal. */
  function IdOf(prefix: string, n: nat): string {
    prefix + Digits(n)
  }

  /** The counter is a uint64. */
  function NextCount(n: nat): nat {
    (n + 1) % COUNTER_LIMIT
  }

  function Insert(t: Table, e: Entry): Table {
    t.(byID := t.byID[e.id := e], byKey := t.byKey[e.key := e.id])
  }

  function Remove(t: Table, e: Entry): Table {
    t.(byID := t.byID - {e.id}, byKey := t.byKey - {e.key})
  }

  function Replace(t: Table, e: Entry): Table {
    t.(byID := t.byID[e.id := e])
  }

  /** The entry registered for a key is removed, if there is one. */
  function Freed(t: Table, key: string): Table {
    if key in t.byKey && t.byKey[key] in t.byID then Remove(t, t.byID[t.byKey[key]]) else t
  }

  /** What that entry held. */
  function HeldFor(t: Table, key: string): set<nat> {
    if key in t.byKey && t.byKey[key] in t.byID then {t.byID[t.byKey[key]].resource} else {}
  }

  /** The table after the first critical section of create. */
  function Began(t: Table, key: string, norebind: bool): Table {
    if key in t.byKey && norebind then t else Freed(t, key)
  }

  /** The table after the second one, for the entry the create has made. */
  function Completed(t: Table, e: Entry, norebind: bool): Table {
    if e.key in t.byKey && norebind then t else Insert(Freed(t, e.key), e)
  }

  /** byID and byKey are inverse bijections between live IDs and endpoint keys. */
  ghost predicate Consistent(t: Table) {
    && (forall id :: id in t.byID ==> t.byID[id].id == id && t.byID[id].key in t.byKey && t.byKey[t.byID[id].key] == id)
    && (forall key :: key in t.byKey ==> t.byKey[key] in t.byID && t.byID[t.byKey[key]].key == key)
  }

  /** Every registered entry is listening without an error or degraded with one. */
  ghost predicate StatesRight(t: Table) {
    forall id :: id in t.byID ==>
      && t.byID[id].state != Stopped
      && (t.byID[id].state == Listening <==> t.byID[id].lastError == "")
  }

  lemma InsertConsistent(t: Table, e: Entry)
    requires Consistent(t) && e.id !in t.byID && e.key !in t.byKey
    ensures Consistent(Insert(t, e))
  {
  }

  lemma RemoveConsistent(t: Table, e: Entry)
    requires Consistent(t) && e.id in t.byID && t.byID[e.id].key == e.key
    ensures Consistent(Remove(t, e)) && e.id !in Remove(t, e).byID && e.key !in Remove(t, e).byKey
    ensures |Remove(t, e).byID| == |t.byID| - 1
  {
    var u := Remove(t, e);
    forall id | id in u.byID ensures u.byID[id].key in u.byKey && u.byKey[u.byID[id].key] == id {
      assert t.byKey[t.byID[id].key] == id;
    }
    assert u.byID.Keys == t.byID.Keys - {e.id};
  }

  lemma ReplaceConsistent(t: Table, e: Entry)
    requires Consistent(t) && e.id in t.byID && t.byID[e.id].key == e.key
    ensures Consistent(Replace(t, e))
  {
  }

  /** The two indexes have the same size. */
  lemma SameSize(t: Table)
    requires Consistent(t)
    ensures |t.byID| == |t.byKey| && t.byKey.Values == t.byID.Keys
    decreases |t.byID|
  {
    if t.byID == map[] {
      assert t.byKey == map[] by {
        if key :| key in t.byKey { assert t.byKey[key] in t.byID; }
      }
    } else {
      var id :| id in t.byID;
      var e := t.byID[id];
      var u := Remove(t, e);
      RemoveConsistent(t, e);
      SameSize(u);
      assert u.byKey.Keys == t.byKey.Keys - {e.key};
      forall k | k in t.byKey.Values ensures k in t.byID.Keys {
        var key :| key in t.byKey && t.byKey[key] == k;
      }
      forall k | k in t.byID.Keys ensures k in t.byKey.Values {
        assert t.byKey[t.byID[k].key] == k;
      }
    }
  }

  lemma {:induction false} DigitsNonempty(n: nat)
    ensures Digits(n) != []
  {
  }

  lemma {:induction false} DigitsInjective(a: nat, b: nat)
    requires Digits(a) == Digits(b)
    ensures a == b
    decreases a
  {
    var da, db := Digits(a), Digits(b);
    assert da[|da| - 1] == "0123456789"[a % 10] && db[|db| - 1] == "0123456789"[b % 10];
    assert a % 10 == b % 10;
    var ta, tb := da[..|da| - 1], db[..|db| - 1];
    assert ta == if a < 10 then [] else Digits(a / 10);
    assert tb == if b < 10 then [] else Digits(b / 10);
    if a >= 10 {
      DigitsNonempty(a / 10);
      if b >= 10 { DigitsInjective(a / 10, b / 10); }
    }
  }

  /** Different counter values give different IDs, and no ID is empty. */
  lemma IdsDiffer(prefix: string, a: nat, b: nat)
    ensures IdOf(prefix, a) == IdOf(prefix, b) <==> a == b
    ensures IdOf(prefix, a) != ""
  {
    if IdOf(prefix, a) == IdOf(prefix, b) {
      assert IdOf(prefix, a)[|prefix|..] == Digits(a) && IdOf(prefix, b)[|prefix|..] == Digits(b);
      DigitsInjective(a, b);
    }
    DigitsNonempty(a);
  }

  /** The registered entries in one state. */
  function InState(t: Table, s: State): set<string> {
    set id | id in t.byID && t.byID[id].state == s
  }

  /** The active connections of the entries with these IDs. */
  ghost function ActiveOf(t: Table, ids: set<string>): nat
    requires ids <= t.byID.Keys
  {
    if ids == {} then 0
    else
      var id :| id in ids;
      t.byID[id].active + ActiveOf(t, ids - {id})
  }

  /** The order in which entries are visited does not matter. */
  lemma {:induction false} ActiveOfAny(t: Table, ids: set<string>, x: string)
    requires ids <= t.byID.Keys && x in ids
    ensures ActiveOf(t, ids) == t.byID[x].active + ActiveOf(t, ids - {x})
    decreases |ids|
  {
    var id :| id in ids && ActiveOf(t, ids) == t.byID[id].active + ActiveOf(t, ids - {id});
    if id != x {
      ActiveOfAny(t, ids - {id}, x);
      ActiveOfAny(t, ids - {x}, id);
      assert ids - {id} - {x} == ids - {x} - {id};
    }
  }

  /** In a right table the diagnostics add up: every registered entry is counted
      as listening or as degraded, and none as both. */
  lemma DiagnosticsAddUp(t: Table)
    requires StatesRight(t)
    ensures |InState(t, Listening)| + |InState(t, Degraded)| == |t.byID|
  {
    assert InState(t, Listening) + InState(t, Degraded) == t.byID.Keys;
    assert InState(t, Listening) !! InState(t, Degraded);
  }

  lemma VisitNone(t: Table)
    ensures InState(t, Listening) - t.byID.Keys == {} && InState(t, Degraded) - t.byID.Keys == {}
    ensures ActiveOf(t, {}) == 0
  {
  }

  lemma VisitOne(t: Table, rest: set<string>, id: string)
    requires rest <= t.byID.Keys && id in rest
    ensures |InState(t, Listening) - (rest - {id})| == |InState(t, Listening) - rest| + if t.byID[id].state == Listening then 1 else 0
    ensures |InState(t, Degraded) - (rest - {id})| == |InState(t, Degraded) - rest| + if t.byID[id].state == Degraded then 1 else 0
    ensures ActiveOf(t, rest) == t.byID[id].active + ActiveOf(t, rest - {id})
  {
    ActiveOfAny(t, rest, id);
    VisitState(t, rest, id, Listening);
    VisitState(t, rest, id, Degraded);
  }

  lemma VisitState(t: Table, rest: set<string>, id: string, s: State)
    requires rest <= t.byID.Keys && id in rest
    ensures |InState(t, s) - (rest - {id})| == |InState(t, s) - rest| + if t.byID[id].state == s then 1 else 0
  {
    if t.byID[id].state == s {
      assert InState(t, s) - (rest - {id}) == (InState(t, s) - rest) + {id};
    } else {
      assert InState(t, s) - (rest - {id}) == InState(t, s) - rest;
    }
  }

  // ---- what create leaves in the table -----------------------------------

  /** An entry is registered; the entry that held its endpoint is gone, and the
      entries for other endpoints are untouched. */
  ghost predicate TakesOver(before: Table, after: Table, e: Entry) {
    && e.id in after.byID && after.byID[e.id] == e
    && e.key in after.byKey && after.byKey[e.key] == e.id
    && (e.key in before.byKey ==> before.byKey[e.key] !in after.byID)
    && (forall id :: id in before.byID && before.byID[id].key != e.key ==> id in after.byID && after.byID[id] == before.byID[id])
  }

  lemma InsertTakesOver(t: Table, d: Table, e: Entry)
    requires e.id !in t.byID && e.key !in d.byKey
    requires e.key in t.byKey ==> t.byKey[e.key] !in d.byID && t.byKey[e.key] in t.byID
    requires forall id :: id in t.byID && t.byID[id].key != e.key ==> id in d.byID && d.byID[id] == t.byID[id]
    ensures TakesOver(t, Insert(d, e), e)
  {
  }

  /** A create that gets through holds its endpoint alone, and the indexes stay inverse. */
  lemma CompletedTakesOver(t: Table, e: Entry, norebind: bool)
    requires Consistent(t) && e.id !in t.byID && !(e.key in t.byKey && norebind)
    ensures TakesOver(t, Completed(t, e, norebind), e) && Consistent(Completed(t, e, norebind))
  {
    FreedIsFree(t, e.key);
    InsertTakesOver(t, Freed(t, e.key), e);
    InsertConsistent(Freed(t, e.key), e);
    hide Consistent, Freed, TakesOver, Insert;
  }

  /** Freeing an endpoint removes the entry that holds it, and no other. */
  lemma FreedIsFree(t: Table, key: string)
    requires Consistent(t)
    ensures var d := Freed(t, key);
            && Consistent(d) && key !in d.byKey && d.byID.Keys <= t.byID.Keys
            && (key in t.byKey ==> t.byKey[key] in t.byID && t.byKey[key] !in d.byID)
            && (forall id :: id in t.byID && t.byID[id].key != key ==> id in d.byID && d.byID[id] == t.byID[id])
  {
    if key in t.byKey { RemoveConsistent(t, t.byID[t.byKey[key]]); }
  }

  // ---- the IDs are decimal -----------------------------------------------

  function FromDigits(s: string): nat {
    if |s| == 0 then 0
    else
      10 * FromDigits(s[..|s| - 1]) + if '0' <= s[|s| - 1] <= '9' then s[|s| - 1] as int - '0' as int else 0
  }

  /** The digits of a counter are its decimal notation, without leading zeros. */
  lemma {:induction false} DigitsAreDecimal(n: nat)
    ensures FromDigits(Digits(n)) == n && (forall i :: 0 <= i < |Digits(n)| ==> '0' <= Digits(n)[i] <= '9')
    ensures |Digits(n)| > 0 && (n > 0 ==> Digits(n)[0] != '0')
  {
    var d := Digits(n);
    assert d[..|d| - 1] == if n < 10 then [] else Digits(n / 10);
    if n >= 10 { DigitsAreDecimal(n / 10); }
  }
}
