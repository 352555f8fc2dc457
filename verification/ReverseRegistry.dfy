/** The server's table of reverses, internal/server/reverse_registry.go, one
    method for each critical section. */
module ReverseRegistry {
  import opened Bytes
  import opened EndpointTable

  /** A registered reverse. Its session, its client and its context are named by
      one handle; the registry below records what has been closed. */
  class ReverseEntry {
    const id: string
    const key: string
    const session: nat
    var state: State
    var lastError: string
    var activeConnections: nat

    constructor (id: string, key: string, session: nat)
      ensures this.id == id && this.key == key && this.session == session
      ensures state == Listening && lastError == "" && activeConnections == 0
    {
      this.id, this.key, this.session := id, key, session;
      state, lastError, activeConnections := Listening, "", 0;
    }

    function Value(): Entry
      reads this
    {
      Entry(id, key, session, state, lastError, activeConnections)
    }
  }

  /** What a report of the number of active connections makes of an entry. */
  function WithActive(e: Entry, active: nat): Entry {
    e.(active := active, state := if e.state == Degraded && e.lastError == "" then Listening else e.state)
  }

  class Registry {
    var nextID: nat
    var byID: map<string, ReverseEntry>
    var byRemote: map<string, string>
    var cancelled: set<nat>
    var closedSessions: set<nat>
    var closedClients: set<nat>
    ghost var table: Table    // what the registry holds, as a value

    constructor ()
      ensures Valid() && table == Table(0, map[], map[])
      ensures cancelled == {} && closedSessions == {} && closedClients == {}
    {
      nextID, byID, byRemote := 0, map[], map[];
      cancelled, closedSessions, closedClients := {}, {}, {};
      table := Table(0, map[], map[]);
    }

    ghost predicate Tied()
      reads this`nextID, this`byID, this`byRemote, this`table, byID.Values
    {
      && table.nextID == nextID && table.byKey == byRemote && table.byID.Keys == byID.Keys
      && forall id :: id in byID ==> TiedAt(byID[id], id, table.byID[id])
    }

    static ghost predicate TiedAt(entry: ReverseEntry, id: string, e: Entry)
      reads entry
    {
      && entry.id == id == e.id && entry.key == e.key && entry.session == e.resource
      && entry.state == e.state && entry.lastError == e.lastError && entry.activeConnections == e.active
    }

    ghost predicate Valid()
      reads this`nextID, this`byID, this`byRemote, this`table, byID.Values
    {
      Tied() && Consistent(table)
    }

    ghost predicate Holds(entry: ReverseEntry)
      reads this`byID
    {
      entry.id in byID && byID[entry.id] == entry
    }

    /** The two deletions of removeLocked. */
    method Unindex(entry: ReverseEntry)
      requires Tied() && Holds(entry)
      modifies this`byID, this`byRemote, this`table
      ensures Tied() && table == Remove(old(table), entry.Value())
      ensures byID == old(byID) - {entry.id} && entry !in byID.Values
    {
      table := table.(byID := table.byID - {entry.id}, byKey := table.byKey - {entry.key});
      byID := byID - {entry.id};
      byRemote := byRemote - {entry.key};
    }

    /** Since the earlier state, what belongs to these handles has been shut down, and
        nothing else. */
    twostate predicate Released(handles: set<nat>)
      reads this`cancelled, this`closedSessions, this`closedClients
    {
      && cancelled == old(cancelled) + handles
      && closedSessions == old(closedSessions) + handles
      && closedClients == old(closedClients) + handles
    }

    /** removeLocked: the entry leaves both indexes; its context is cancelled and
        its session and client are closed. A failed cleanup is recorded on the
        entry, which is no longer registered. */
    method RemoveLocked(entry: ReverseEntry)
      requires Valid() && Holds(entry)
      modifies this`byID, this`byRemote, this`table, this`cancelled, this`closedSessions, this`closedClients, entry`state, entry`lastError
      ensures Valid() && table == Remove(old(table), old(entry.Value()))
      ensures byID == old(byID) - {entry.id}
      ensures CleanedUp(entry, old(entry.lastError)) && Released({entry.session})
    {
      RemovableEntry(entry);
      hide Consistent, Remove;
      Unindex(entry);
      hide Tied, Holds;
      Stop(entry);
    }

    /** A removed entry is stopped, with the error text it had, unless its cleanup
        failed; then it is degraded and says so. */
    ghost predicate CleanedUp(entry: ReverseEntry, lastError: string)
      reads entry
    {
      || (entry.state == Stopped && entry.lastError == lastError)
      || (entry.state == Degraded && "cleanup failed: " <= entry.lastError)
    }

    method Stop(entry: ReverseEntry)
      modifies this`cancelled, this`closedSessions, this`closedClients, entry`state, entry`lastError
      ensures CleanedUp(entry, old(entry.lastError)) && Released({entry.session})
    {
      entry.state := Stopped;
      cancelled := cancelled + {entry.session};
      closedSessions := closedSessions + {entry.session};
      var cleanupFails: bool := *;
      if cleanupFails {
        entry.state := Degraded;
        var text: string := *;
        entry.lastError := "cleanup failed: " + text;
      }
      closedClients := closedClients + {entry.session};
    }

    lemma RemovableEntry(entry: ReverseEntry)
      requires Valid() && Holds(entry)
      ensures Consistent(Remove(table, entry.Value()))
    {
      RemoveConsistent(table, entry.Value());
    }

    method NextReverseID() returns (id: string)
      requires Valid()
      modifies this`nextID, this`table
      ensures Valid() && table == old(table).(nextID := NextCount(old(nextID)))
      ensures id == IdOf("rev_", nextID)
    {
      nextID := NextCount(nextID);
      table := table.(nextID := nextID);
      id := IdOf("rev_", nextID);
    }

    /** The first critical section of create, before the target is even dialled. */
    method BeginCreate(key: string, norebind: bool) returns (r: Result<(), Error>)
      requires Valid()
      modifies this`byID, this`byRemote, this`table, this`cancelled, this`closedSessions, this`closedClients, byID.Values`state, byID.Values`lastError
      ensures Valid()
      ensures r == if key in old(byRemote) && norebind then Err(RebindDisallowed) else Ok(())
      ensures table == Began(old(table), key, norebind)
      ensures Released(if norebind then {} else HeldFor(old(table), key))
    {
      if key in byRemote {
        if norebind {
          return Err(RebindDisallowed);
        }
        RegisteredUnderOwnID(byRemote[key]);
        RemoveLocked(byID[byRemote[key]]);
      }
      return Ok(());
    }

    /** The second critical section of create. Another create may have registered
        the endpoint in the meantime: with norebind the new session is shut down
        and the other one stays, without it the other one is removed. */
    method FinishCreate(entry: ReverseEntry, norebind: bool) returns (r: Result<ReverseEntry, Error>)
      requires Valid() && entry.id !in byID
      modifies this`byID, this`byRemote, this`table, this`cancelled, this`closedSessions, this`closedClients, byID.Values`state, byID.Values`lastError
      ensures Valid()
      ensures r == if entry.key in old(byRemote) && norebind then Err(RebindDisallowed) else Ok(entry)
      ensures table == Completed(old(table), entry.Value(), norebind)
      ensures Released(if entry.key !in old(byRemote) then {} else if norebind then {entry.session} else HeldFor(old(table), entry.key))
    {
      if entry.key in byRemote {
        if norebind {
          closedSessions := closedSessions + {entry.session};
          closedClients := closedClients + {entry.session};
          cancelled := cancelled + {entry.session};
          return Err(RebindDisallowed);
        }
        RegisteredUnderOwnID(byRemote[entry.key]);
        ghost var gone := table.byID[byRemote[entry.key]];
        assert gone.key == entry.key;
        RemoveLocked(byID[byRemote[entry.key]]);
      }
      Register(entry);
      return Ok(entry);
    }

    method Register(entry: ReverseEntry)
      requires Valid() && entry.id !in byID && entry.key !in byRemote
      modifies this`byID, this`byRemote, this`table
      ensures Valid() && table == Insert(old(table), entry.Value())
    {
      InsertConsistent(table, entry.Value());
      hide Consistent;
      table := Insert(table, entry.Value());
      byID := byID[entry.id := entry];
      byRemote := byRemote[entry.key := entry.id];
    }

    /** remove: exactly one selector; the entry it names goes, and nothing else. */
    method RemoveOne(id: string, remote: Option<string>) returns (r: Result<nat, Error>)
      requires Valid()
      modifies this`byID, this`byRemote, this`table, this`cancelled, this`closedSessions, this`closedClients, byID.Values`state, byID.Values`lastError
      ensures Valid()
      ensures r == if (id != "") == remote.Some? then Err(BadRequest)
                   else if (if remote.Some? then remote.value in old(byRemote) else id in old(byID)) then Ok(1)
                   else Err(NotFound)
      ensures r.Err? ==> table == old(table) && Released({})
      ensures r.Ok? ==>
                var gone := old(byID)[if remote.Some? then old(byRemote)[remote.value] else id];
                && table == Remove(old(table), old(gone.Value())) && Released({gone.session})
                && CleanedUp(gone, old(gone.lastError))
      ensures r.Ok? && remote.Some? ==> table == Freed(old(table), remote.value)
    {
      if (id != "") == remote.Some? {
        return Err(BadRequest);
      }
      var which := id;
      if remote.Some? {
        if remote.value !in byRemote {
          return Err(NotFound);
        }
        which := byRemote[remote.value];
      }
      if which !in byID {
        return Err(NotFound);
      }
      RegisteredUnderOwnID(which);
      RemoveLocked(byID[which]);
      return Ok(1);
    }

    /** recordReverseActive: only a registered ID is updated. The branch that makes
        a degraded entry listening again asks for an empty error text. */
    method RecordActive(entry: ReverseEntry, active: nat)
      requires Valid() && (entry.id in byID ==> Holds(entry))
      modifies entry`activeConnections, entry`state, this`table
      ensures Valid()
      ensures entry.id !in byID ==> entry.Value() == old(entry.Value()) && table == old(table)
      ensures entry.id in byID ==>
                && entry.Value() == WithActive(old(entry.Value()), active)
                && entry.activeConnections == active && entry.lastError == old(entry.lastError)
                && entry.state == (if old(entry.state) == Degraded && old(entry.lastError) == "" then Listening else old(entry.state))
                && table == Replace(old(table), WithActive(old(entry.Value()), active))
    {
      if entry.id !in byID {
        return;
      }
      entry.activeConnections := active;
      if entry.state == Degraded && entry.lastError == "" {
        entry.state := Listening;
      }
      Follow(entry);
    }

    /** recordReverseError: only a registered ID is updated. */
    method RecordError(entry: ReverseEntry, message: string)
      requires Valid() && (entry.id in byID ==> Holds(entry))
      modifies entry`state, entry`lastError, this`table
      ensures Valid()
      ensures entry.id !in byID ==> entry.Value() == old(entry.Value()) && table == old(table)
      ensures entry.id in byID ==> table == Replace(old(table), old(entry.Value()).(state := Degraded, lastError := message))
    {
      if entry.id !in byID {
        return;
      }
      entry.state := Degraded;
      entry.lastError := message;
      Follow(entry);
    }

    /** Brings the table up to date after a change to one entry's own fields. */
    ghost method Follow(entry: ReverseEntry)
      requires Consistent(table)
      requires forall id :: id in byID ==> byID[id].id == id
      requires table.nextID == nextID && table.byKey == byRemote && table.byID.Keys == byID.Keys
      requires forall id :: id in byID && byID[id] != entry ==>
                 TiedAt(byID[id], id, table.byID[id])
      requires Holds(entry) ==> table.byID[entry.id].key == entry.key
      modifies this`table
      ensures Valid() && table == if Holds(entry) then Replace(old(table), entry.Value()) else old(table)
    {
      if Holds(entry) {
        ReplaceConsistent(table, entry.Value());
        table := Replace(table, entry.Value());
      } else {
        assert forall id :: id in byID ==> byID[id].id == id && byID[id] != entry;
      }
    }

    /** Of the entries `all`, those in `gone` have been removed and stopped. */
    ghost predicate Swept(all: map<string, ReverseEntry>, gone: set<string>)
      reads this`byID, this`closedSessions, all.Values
    {
      && gone <= all.Keys && byID == all - gone
      && forall id :: id in gone ==> all[id].state != Listening && all[id].session in closedSessions
    }

    method RemoveNext(ghost all: map<string, ReverseEntry>, ghost gone: set<string>) returns (ghost more: set<string>)
      requires Valid() && Swept(all, gone) && byID != map[]
      modifies this`byID, this`byRemote, this`table, this`cancelled, this`closedSessions, this`closedClients, all.Values`state, all.Values`lastError
      ensures Valid() && Swept(all, more) && |more| == |gone| + 1 && |byID| < |old(byID)|
    {
      var id :| id in byID;
      assert byID[id] in all.Values by { assert id in all && byID[id] == all[id]; }
      RegisteredUnderOwnID(id);
      hide Valid;
      RemoveLocked(byID[id]);
      more := gone + {id};
      assert byID == all - more;
      assert byID.Keys == old(byID).Keys - {id};
    }

    /** removeAll: the count is exact, both indexes end up empty, and every entry
        was stopped and its session closed. */
    method RemoveAll() returns (removed: nat)
      requires Valid()
      modifies this`byID, this`byRemote, this`table, this`cancelled, this`closedSessions, this`closedClients, byID.Values`state, byID.Values`lastError
      ensures Valid() && byID == map[] && byRemote == map[]
      ensures removed == |old(byID)|
      ensures forall id :: id in old(byID) ==>
                old(byID)[id].state != Listening && old(byID)[id].session in closedSessions
    {
      removed := 0;
      ghost var all, gone := byID, {};
      assert Swept(all, {}) by { assert all - {} == all; }
      hide Valid, Swept;
      while byID != map[]
        invariant Valid() && Swept(all, gone) && removed == |gone|
        decreases |byID|
      {
        gone := RemoveNext(all, gone);
        removed := removed + 1;
      }
      AllGone(all, gone);
    }

    lemma AllGone(all: map<string, ReverseEntry>, gone: set<string>)
      requires Valid() && Swept(all, gone) && byID == map[]
      ensures gone == all.Keys && |gone| == |all| && byRemote == map[]
      ensures forall id :: id in all ==> all[id].state != Listening && all[id].session in closedSessions
    {
      assert forall id :: id in all && id !in gone ==> id in byID;
      SameSize(table);
    }

    lemma RegisteredUnderOwnID(id: string)
      requires Valid() && id in byID
      ensures byID[id].id == id
    {
      assert TiedAt(byID[id], id, table.byID[id]);
    }

    /** diagnostics: one pass over the entries, counting what the table holds. */
    method Diagnose() returns (d: Diagnostics)
      requires Valid()
      ensures d == Diagnostics(|byID|, |InState(table, Listening)|, |InState(table, Degraded)|,
                               ActiveOf(table, table.byID.Keys))
    {
      hide InState, ActiveOf, Consistent;
      var rest := byID.Keys;
      var listening, degraded, connections := 0, 0, 0;
      VisitNone(table);
      while rest != {}
        invariant rest <= byID.Keys
        invariant listening == |InState(table, Listening) - rest| && degraded == |InState(table, Degraded) - rest|
        invariant connections + ActiveOf(table, rest) == ActiveOf(table, table.byID.Keys)
        decreases rest
      {
        var id :| id in rest;
        VisitOne(table, rest, id);
        if byID[id].state == Listening {
          listening := listening + 1;
        } else if byID[id].state == Degraded {
          degraded := degraded + 1;
        }
        connections := connections + byID[id].activeConnections;
        rest := rest - {id};
      }
      assert InState(table, Listening) - {} == InState(table, Listening) && InState(table, Degraded) - {} == InState(table, Degraded);
      return Diagnostics(|byID|, listening, degraded, connections);
    }
  }
}
