/** The server's table of forwards, internal/server/forward_registry.go, one
    method for each critical section. */
module ForwardRegistry {
  import opened Bytes
  import opened EndpointTable

  /** A registered forward. Its listener and its connections are named by
      handles; the registry below records which handles have been closed. */
  class ForwardEntry {
    const id: string
    const key: string
    const listener: nat
    var state: State
    var lastError: string
    var active: set<nat>
    var activeConnections: nat

    constructor (id: string, key: string, listener: nat)
      ensures this.id == id && this.key == key && this.listener == listener
      ensures state == Listening && lastError == "" && active == {} && activeConnections == 0
    {
      this.id, this.key, this.listener := id, key, listener;
      state, lastError, active, activeConnections := Listening, "", {}, 0;
    }

    function Value(): Entry
      reads this
    {
      Entry(id, key, listener, state, lastError, activeConnections)
    }
  }

  class Registry {
    var nextID: nat
    var byID: map<string, ForwardEntry>
    var byLocal: map<string, string>
    var closedListeners: set<nat>
    var closedConns: set<nat>
    ghost var table: Table    // what the registry holds, as a value

    constructor ()
      ensures Valid() && table == Table(0, map[], map[])
      ensures closedListeners == {} && closedConns == {}
    {
      nextID, byID, byLocal := 0, map[], map[];
      closedListeners, closedConns := {}, {};
      table := Table(0, map[], map[]);
    }

    ghost predicate Tied()
      reads this`nextID, this`byID, this`byLocal, this`table, byID.Values
    {
      && table.nextID == nextID && table.byKey == byLocal && table.byID.Keys == byID.Keys
      && forall id :: id in byID ==> TiedAt(byID[id], id, table.byID[id])
    }

    static ghost predicate TiedAt(entry: ForwardEntry, id: string, e: Entry)
      reads entry
    {
      && entry.id == id == e.id && entry.key == e.key && entry.listener == e.resource
      && entry.state == e.state && entry.lastError == e.lastError
      && |entry.active| == entry.activeConnections == e.active
    }

    ghost predicate Valid()
      reads this`nextID, this`byID, this`byLocal, this`table, byID.Values
    {
      Tied() && Consistent(table)
    }

    ghost predicate Holds(entry: ForwardEntry)
      reads this`byID
    {
      entry.id in byID && byID[entry.id] == entry
    }

    /** The connections of the entry registered for a key. */
    function ActiveFor(key: string): set<nat>
      reads this`byID, this`byLocal, byID.Values
    {
      if key in byLocal && byLocal[key] in byID then byID[byLocal[key]].active else {}
    }

    /** The two deletions of removeLocked. */
    method Unindex(entry: ForwardEntry)
      requires Tied() && Holds(entry)
      modifies this`byID, this`byLocal, this`table
      ensures Tied() && table == Remove(old(table), entry.Value())
      ensures byID == old(byID) - {entry.id} && entry !in byID.Values
    {
      table := table.(byID := table.byID - {entry.id}, byKey := table.byKey - {entry.key});
      byID := byID - {entry.id};
      byLocal := byLocal - {entry.key};
    }

    /** removeLocked: the entry leaves both indexes and is stopped; its listener
        and every connection it had are closed, and nothing else is. */
    method RemoveLocked(entry: ForwardEntry)
      requires Valid() && Holds(entry)
      modifies this`byID, this`byLocal, this`table, this`closedListeners, this`closedConns, entry`state
      ensures Valid() && table == Remove(old(table), old(entry.Value()))
      ensures byID == old(byID) - {entry.id} && entry.state == Stopped
      ensures closedListeners == old(closedListeners) + {entry.listener}
      ensures closedConns == old(closedConns) + entry.active
    {
      RemovableEntry(entry);
      hide Consistent, Remove;
      Unindex(entry);
      hide Tied, Holds;
      Stop(entry);
    }

    method Stop(entry: ForwardEntry)
      modifies this`closedListeners, this`closedConns, entry`state
      ensures entry.state == Stopped
      ensures closedListeners == old(closedListeners) + {entry.listener}
      ensures closedConns == old(closedConns) + entry.active
    {
      entry.state := Stopped;
      closedListeners := closedListeners + {entry.listener};
      CloseConns(entry.active);
    }

    method CloseConns(active: set<nat>)
      modifies this`closedConns
      ensures closedConns == old(closedConns) + active
    {
      var rest := active;
      while rest != {}
        invariant rest <= active && closedConns == old(closedConns) + (active - rest)
        decreases rest
      {
        var c :| c in rest;
        closedConns := closedConns + {c};
        rest := rest - {c};
      }
    }

    lemma RemovableEntry(entry: ForwardEntry)
      requires Valid() && Holds(entry)
      ensures Consistent(Remove(table, entry.Value()))
    {
      RemoveConsistent(table, entry.Value());
    }

    method NextForwardID() returns (id: string)
      requires Valid()
      modifies this`nextID, this`table
      ensures Valid() && table == old(table).(nextID := NextCount(old(nextID)))
      ensures id == IdOf("fwd_", nextID)
    {
      nextID := NextCount(nextID);
      table := table.(nextID := nextID);
      id := IdOf("fwd_", nextID);
    }

    /** The first critical section of create: a norebind create that finds its
        endpoint taken is refused; any other removes what it finds, before it
        knows whether it will be able to listen. */
    method BeginCreate(key: string, norebind: bool) returns (r: Result<(), Error>)
      requires Valid()
      modifies this`byID, this`byLocal, this`table, this`closedListeners, this`closedConns, byID.Values`state
      ensures Valid()
      ensures r == if key in old(byLocal) && norebind then Err(RebindDisallowed) else Ok(())
      ensures table == Began(old(table), key, norebind)
      ensures closedListeners == old(closedListeners) + if norebind then {} else HeldFor(old(table), key)
      ensures closedConns == old(closedConns) + if key in old(byLocal) && !norebind then old(ActiveFor(key)) else {}
    {
      if key in byLocal {
        if norebind {
          return Err(RebindDisallowed);
        }
        RegisteredUnderOwnID(byLocal[key]);
        RemoveLocked(byID[byLocal[key]]);
      }
      return Ok(());
    }

    /** The second critical section of create. When the endpoint was taken in the
        meantime the new listener is closed, and without norebind the entry is
        then registered with that closed listener. */
    method FinishCreate(entry: ForwardEntry, norebind: bool) returns (r: Result<ForwardEntry, Error>)
      requires Valid() && entry.id !in byID && entry.activeConnections == |entry.active|
      modifies this`byID, this`byLocal, this`table, this`closedListeners, this`closedConns, byID.Values`state
      ensures Valid()
      ensures r == if entry.key in old(byLocal) && norebind then Err(RebindDisallowed) else Ok(entry)
      ensures table == Completed(old(table), entry.Value(), norebind)
      ensures closedListeners == old(closedListeners)
                + (if entry.key in old(byLocal) then {entry.listener} else {})
                + (if norebind then {} else HeldFor(old(table), entry.key))
      ensures closedConns == old(closedConns) + if entry.key in old(byLocal) && !norebind then old(ActiveFor(entry.key)) else {}
    {
      if entry.key in byLocal {
        closedListeners := closedListeners + {entry.listener};
        if norebind {
          return Err(RebindDisallowed);
        }
        RegisteredUnderOwnID(byLocal[entry.key]);
        ghost var gone := table.byID[byLocal[entry.key]];
        assert gone.key == entry.key;
        RemoveLocked(byID[byLocal[entry.key]]);
      }
      Register(entry);
      return Ok(entry);
    }

    method Register(entry: ForwardEntry)
      requires Valid() && entry.id !in byID && entry.key !in byLocal && entry.activeConnections == |entry.active|
      modifies this`byID, this`byLocal, this`table
      ensures Valid() && table == Insert(old(table), entry.Value())
    {
      InsertConsistent(table, entry.Value());
      hide Consistent;
      table := Insert(table, entry.Value());
      byID := byID[entry.id := entry];
      byLocal := byLocal[entry.key := entry.id];
    }

    /** remove: exactly one selector; the entry it names goes, and nothing else. */
    method RemoveOne(id: string, local: Option<string>) returns (r: Result<nat, Error>)
      requires Valid()
      modifies this`byID, this`byLocal, this`table, this`closedListeners, this`closedConns, byID.Values`state
      ensures Valid()
      ensures r == if (id != "") == local.Some? then Err(BadRequest)
                   else if (if local.Some? then local.value in old(byLocal) else id in old(byID)) then Ok(1)
                   else Err(NotFound)
      ensures r.Err? ==> table == old(table) && closedListeners == old(closedListeners) && closedConns == old(closedConns)
      ensures r.Ok? ==>
                var gone := old(byID)[if local.Some? then old(byLocal)[local.value] else id];
                && table == Remove(old(table), old(gone.Value())) && gone.state == Stopped
                && closedListeners == old(closedListeners) + {gone.listener}
                && closedConns == old(closedConns) + old(gone.active)
      ensures r.Ok? && local.Some? ==> table == Freed(old(table), local.value)
    {
      if (id != "") == local.Some? {
        return Err(BadRequest);
      }
      var which := id;
      if local.Some? {
        if local.value !in byLocal {
          return Err(NotFound);
        }
        which := byLocal[local.value];
      }
      if which !in byID {
        return Err(NotFound);
      }
      RegisteredUnderOwnID(which);
      RemoveLocked(byID[which]);
      return Ok(1);
    }

    method AddActive(entry: ForwardEntry, conn: nat)
      requires Valid() && entry.activeConnections == |entry.active|
      modifies entry`active, entry`activeConnections, this`table
      ensures Valid() && entry.active == old(entry.active) + {conn} && entry.activeConnections == |entry.active|
      ensures table == if Holds(entry) then Replace(old(table), old(entry.Value()).(active := |entry.active|)) else old(table)
    {
      entry.active := entry.active + {conn};
      entry.activeConnections := |entry.active|;
      Follow(entry);
    }

    method RemoveActive(entry: ForwardEntry, conn: nat)
      requires Valid() && entry.activeConnections == |entry.active|
      modifies entry`active, entry`activeConnections, this`table
      ensures Valid() && entry.active == old(entry.active) - {conn} && entry.activeConnections == |entry.active|
      ensures table == if Holds(entry) then Replace(old(table), old(entry.Value()).(active := |entry.active|)) else old(table)
    {
      entry.active := entry.active - {conn};
      entry.activeConnections := |entry.active|;
      Follow(entry);
    }

    /** recordForwardError, which also changes an entry that is no longer registered. */
    method RecordError(entry: ForwardEntry, message: string)
      requires Valid() && entry.activeConnections == |entry.active|
      modifies entry`state, entry`lastError, this`table
      ensures Valid() && entry.state == Degraded && entry.lastError == message
      ensures table == if Holds(entry) then Replace(old(table), old(entry.Value()).(state := Degraded, lastError := message)) else old(table)
    {
      entry.state := Degraded;
      entry.lastError := message;
      Follow(entry);
    }

    method RecordSuccess(entry: ForwardEntry)
      requires Valid() && entry.activeConnections == |entry.active|
      modifies entry`state, entry`lastError, this`table
      ensures Valid() && entry.state == Listening && entry.lastError == ""
      ensures table == if Holds(entry) then Replace(old(table), old(entry.Value()).(state := Listening, lastError := "")) else old(table)
    {
      entry.state := Listening;
      entry.lastError := "";
      Follow(entry);
    }

    /** Brings the table up to date after a change to one entry's own fields. */
    ghost method Follow(entry: ForwardEntry)
      requires Consistent(table) && entry.activeConnections == |entry.active|
      requires forall id :: id in byID ==> byID[id].id == id
      requires table.nextID == nextID && table.byKey == byLocal && table.byID.Keys == byID.Keys
      requires forall id :: id in byID && byID[id] != entry ==>
                 TiedAt(byID[id], id, table.byID[id])
      requires Holds(entry) ==> table.byID[entry.id].key == entry.key
      modifies this`table
      ensures Valid() && table == if Holds(entry) then Replace(old(table), entry.Value()) else old(table)
    {
      if Holds(entry) {
        ReplaceConsistent(table, entry.Value());
        table := Replace(table, entry.Value());
      } else {
        assert forall id :: id in byID ==> byID[id].id == id && byID[id] != entry;
      }
    }

    /** Of the entries `all`, those in `gone` have been removed and stopped. */
    ghost predicate Swept(all: map<string, ForwardEntry>, gone: set<string>)
      reads this`byID, this`closedListeners, all.Values
    {
      && gone <= all.Keys && byID == all - gone
      && forall id :: id in gone ==> all[id].state == Stopped && all[id].listener in closedListeners
    }

    method RemoveNext(ghost all: map<string, ForwardEntry>, ghost gone: set<string>) returns (ghost more: set<string>)
      requires Valid() && Swept(all, gone) && byID != map[]
      modifies this`byID, this`byLocal, this`table, this`closedListeners, this`closedConns, all.Values`state
      ensures Valid() && Swept(all, more) && |more| == |gone| + 1 && |byID| < |old(byID)|
    {
      var id :| id in byID;
      assert byID[id] in all.Values by { assert id in all && byID[id] == all[id]; }
      RegisteredUnderOwnID(id);
      hide Valid;
      RemoveLocked(byID[id]);
      more := gone + {id};
      assert byID == all - more;
      assert byID.Keys == old(byID).Keys - {id};
    }

    /** removeAll: the count is exact, both indexes end up empty, and every entry
        was stopped and its listener closed. */
    method RemoveAll() returns (removed: nat)
      requires Valid()
      modifies this`byID, this`byLocal, this`table, this`closedListeners, this`closedConns, byID.Values`state
      ensures Valid() && byID == map[] && byLocal == map[]
      ensures removed == |old(byID)|
      ensures forall id :: id in old(byID) ==>
                old(byID)[id].state == Stopped && old(byID)[id].listener in closedListeners
    {
      removed := 0;
      ghost var all, gone := byID, {};
      assert Swept(all, {}) by { assert all - {} == all; }
      hide Valid, Swept;
      while byID != map[]
        invariant Valid() && Swept(all, gone) && removed == |gone|
        decreases |byID|
      {
        gone := RemoveNext(all, gone);
        removed := removed + 1;
      }
      AllGone(all, gone);
    }

    lemma AllGone(all: map<string, ForwardEntry>, gone: set<string>)
      requires Valid() && Swept(all, gone) && byID == map[]
      ensures gone == all.Keys && |gone| == |all| && byLocal == map[]
      ensures forall id :: id in all ==> all[id].state == Stopped && all[id].listener in closedListeners
    {
      assert forall id :: id in all && id !in gone ==> id in byID;
      SameSize(table);
    }

    lemma RegisteredUnderOwnID(id: string)
      requires Valid() && id in byID
      ensures byID[id].id == id
    {
      assert TiedAt(byID[id], id, table.byID[id]);
    }

    /** diagnostics: one pass over the entries, counting what the table holds. */
    method Diagnose() returns (d: Diagnostics)
      requires Valid()
      ensures d == Diagnostics(|byID|, |InState(table, Listening)|, |InState(table, Degraded)|,
                               ActiveOf(table, table.byID.Keys))
    {
      hide InState, ActiveOf, Consistent;
      var rest := byID.Keys;
      var listening, degraded, connections := 0, 0, 0;
      VisitNone(table);
      while rest != {}
        invariant rest <= byID.Keys
        invariant listening == |InState(table, Listening) - rest| && degraded == |InState(table, Degraded) - rest|
        invariant connections + ActiveOf(table, rest) == ActiveOf(table, table.byID.Keys)
        decreases rest
      {
        var id :| id in rest;
        VisitOne(table, rest, id);
        if byID[id].state == Listening {
          listening := listening + 1;
        } else if byID[id].state == Degraded {
          degraded := degraded + 1;
        }
        connections := connections + byID[id].activeConnections;
        rest := rest - {id};
      }
      assert InState(table, Listening) - {} == InState(table, Listening) && InState(table, Degraded) - {} == InState(table, Degraded);
      return Diagnostics(|byID|, listening, degraded, connections);
    }
  }
}
