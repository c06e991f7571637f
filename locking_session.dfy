/**
 * The locking session-state provider.
 *
 * A session is one Redis hash with the fields
 *   "data"     the serialized item collection,
 *   "init"     true while the session was created uninitialized and not yet read,
 *   "lockId"   the token of the request holding the session exclusively,
 *   "lockedAt" when that request took it.
 * The functions below give each operation's effect on the store; the class
 * `LockingSessionStore` performs the operations step by step on its store
 * and is proved to agree with them.
 */
module LockingSession {
  import opened Common
  import opened Text
  import opened Config
  import opened Codec
  import opened Store
  import opened Connection
  import opened SessionState

  const DataField: string := "data"
  const InitField: string := "init"
  const LockIdField: string := "lockId"
  const LockedAtField: string := "lockedAt"

  /**
   * The fields ReleaseItemExclusive and SetAndReleaseItemExclusive remove:
   * "lockAt" is not the field the lock time is stored under.
   */
  const ReleasedFields: set<string> := {"lockId", "lockAt"}

  /**
   * Initialize: the flag is on only when `writeExceptionsToEventLog` is
   * present and upper-cases to "TRUE"; the application name falls back to
   * the virtual path.
   */
  function Initialize(config: Settings, virtualPath: string, timeoutMinutes: int): (c: SessionConfig)
    ensures c.writeExceptionsToEventLog <==> "writeExceptionsToEventLog" in config && EqualsIgnoreCase(config["writeExceptionsToEventLog"], "TRUE")
    ensures "writeExceptionsToEventLog" !in config ==> !c.writeExceptionsToEventLog
    ensures c.app == ApplicationName(config, virtualPath) && c.timeoutMinutes == timeoutMinutes
  {
    SessionConfig(ApplicationName(config, virtualPath), timeoutMinutes, UpperIsTrue(Lookup(config, "writeExceptionsToEventLog")))
  }

  /** Every session hash that holds a lock token also holds the lock time. */
  ghost predicate LockFieldsPaired(db: Db<Hash>) {
    forall k :: k in db.data && LockIdField in db.data[k] ==> LockedAtField in db.data[k]
  }

  /** What an unlocked read that found no data hands back. */
  function FreshItem(timeoutMinutes: int, actions: Actions): (r: ReadResult)
    ensures r.item == Some(NewStoreData(timeoutMinutes)) && !r.locked && r.lockAge == 0 && r.lockId == None && r.actions == actions
  {
    ReadResult(Some(NewStoreData(timeoutMinutes)), false, 0, None, actions)
  }

  /**
   * GetSessionStoreItem on the session under `key`, at time `now`, with
   * `freshLock` the Guid.NewGuid() an exclusive read would take.
   */
  function Read(db: Db<Hash>, key: string, exclusive: bool, now: int, freshLock: Guid, timeoutMinutes: int): (o: Outcome<ReadResult, Db<Hash>>)
    // a locked session: no data, the holder's token and the lock's age; nothing is written
    ensures var h := HashOf(db, key);
      LockIdField in h ==> (
        o.state == db &&
        (o.result.Ok? <==> LockedAtField in h && h[LockedAtField].Time? && h[LockIdField].Token?) &&
        (o.result.Ok? ==> o.result.value == ReadResult(None, true, now - h[LockedAtField].t, Some(h[LockIdField].g), NoActions)))
    ensures o.result.Ok? && o.result.value.locked ==> LockIdField in HashOf(db, key) && o.state == db
    // an uninitialized session: the init marker, and only it, is removed, and no lock is taken
    ensures var h := HashOf(db, key);
      LockIdField !in h && InitField in h && h[InitField] == Flag(true) ==>
        o == Outcome(Ok(FreshItem(timeoutMinutes, InitializeItem)), RemoveFields(db, key, {InitField}))
    ensures o.result.Ok? && o.result.value.actions == InitializeItem ==> InitField !in HashOf(o.state, key)
    // an unlocked session with data: an exclusive read takes the lock, a shared one writes nothing
    ensures var h := HashOf(db, key);
      LockIdField !in h && (InitField !in h || h[InitField] == Flag(false)) && DataField in h ==> (
        o.state == (if exclusive then SetFields(db, key, map[LockedAtField := Time(now), LockIdField := Token(freshLock)]) else db) &&
        (o.result.Ok? <==> h[DataField].Bytes? && Deserialize(h[DataField].blob).Ok?) &&
        (o.result.Ok? ==> o.result.value == ReadResult(Some(StoreData(Deserialize(h[DataField].blob).value, timeoutMinutes)), false, 0,
                                                       if exclusive then Some(freshLock) else None, NoActions)))
    // a session with none of the three fields, or no session at all: a fresh empty item, nothing written
    ensures var h := HashOf(db, key);
      LockIdField !in h && InitField !in h && DataField !in h ==> o == Outcome(Ok(FreshItem(timeoutMinutes, NoActions)), db)
    ensures key !in db.data ==> o == Outcome(Ok(FreshItem(timeoutMinutes, NoActions)), db)
    // a shared read never locks and writes nothing but the consumed init marker
    ensures !exclusive ==> o.state == db || o.state == RemoveFields(db, key, {InitField})
    ensures o.result.Ok? && !o.result.value.locked ==> o.result.value.lockId == (if o.state == db || !exclusive || o.result.value.actions == InitializeItem then None else Some(freshLock))
    ensures forall k :: k != key ==> HashOf(o.state, k) == HashOf(db, k)
    ensures db.Valid() ==> o.state.Valid()
    ensures NoEmptyHashes(db) ==> NoEmptyHashes(o.state)
    ensures LockFieldsPaired(db) ==> LockFieldsPaired(o.state)
  {
    var h := HashOf(db, key);
    if LockIdField in h then
      if LockedAtField !in h then Outcome(Err(MissingField(LockedAtField)), db)
      else if !h[LockedAtField].Time? then Outcome(Err(MalformedField(LockedAtField)), db)
      else if !h[LockIdField].Token? then Outcome(Err(MalformedField(LockIdField)), db)
      else Outcome(Ok(ReadResult(None, true, now - h[LockedAtField].t, Some(h[LockIdField].g), NoActions)), db)
    else if InitField in h && !h[InitField].Flag? then Outcome(Err(MalformedField(InitField)), db)
    else if InitField in h && h[InitField].b then
      Outcome(Ok(FreshItem(timeoutMinutes, InitializeItem)), RemoveFields(db, key, {InitField}))
    else if DataField in h then
      var locked := if exclusive then SetFields(db, key, map[LockedAtField := Time(now), LockIdField := Token(freshLock)]) else db;
      if !h[DataField].Bytes? then Outcome(Err(MalformedField(DataField)), locked)
      else
        match Deserialize(h[DataField].blob)
        case Ok(items) =>
          Outcome(Ok(ReadResult(Some(StoreData(items, timeoutMinutes)), false, 0, if exclusive then Some(freshLock) else None, NoActions)), locked)
        case Err(f) => Outcome(Err(f), locked)
    else Outcome(Ok(FreshItem(timeoutMinutes, NoActions)), db)
  }

  /**
   * The lock check ReleaseItemExclusive runs, and SetAndReleaseItemExclusive
   * runs first: when the session holds a token equal to the presented one,
   * "lockId" and "lockAt" are removed. A null presented token fails once a
   * token is stored.
   */
  function Release(db: Db<Hash>, key: string, lockId: Option<Guid>): (o: Outcome<(), Db<Hash>>)
    ensures var h := HashOf(db, key);
      (LockIdField in h && lockId.Some? && h[LockIdField] == Token(lockId.value)) ==
        (o.result.Ok? && o.state != db)
    ensures var h := HashOf(db, key);
      LockIdField in h && lockId.Some? && h[LockIdField] == Token(lockId.value) ==>
        (o.state == RemoveFields(db, key, ReleasedFields) && LockIdField !in HashOf(o.state, key))
    ensures o.result.Err? <==> LockIdField in HashOf(db, key) && (lockId.None? || !HashOf(db, key)[LockIdField].Token?)
    ensures o.result.Err? ==> o.state == db
    ensures o.result.Err? && lockId.None? ==> o.result.failure == NullLockId
    // "lockedAt" is not among the removed fields, so it outlives the lock
    ensures var h := HashOf(db, key);
      LockedAtField in h ==> LockedAtField in HashOf(o.state, key) && HashOf(o.state, key)[LockedAtField] == h[LockedAtField]
    ensures forall k :: k != key ==> HashOf(o.state, k) == HashOf(db, k)
    ensures db.Valid() ==> o.state.Valid()
    ensures NoEmptyHashes(db) ==> NoEmptyHashes(o.state)
    ensures LockFieldsPaired(db) ==> LockFieldsPaired(o.state)
  {
    var h := HashOf(db, key);
    if LockIdField !in h then Outcome(Ok(()), db)
    else if lockId.None? then Outcome(Err(NullLockId), db)
    else if !h[LockIdField].Token? then Outcome(Err(MalformedField(LockIdField)), db)
    else if h[LockIdField].g == lockId.value then
      assert RemoveFields(db, key, ReleasedFields) != db by {
        assert LockIdField !in HashOf(RemoveFields(db, key, ReleasedFields), key);
      }
      Outcome(Ok(()), RemoveFields(db, key, ReleasedFields))
    else Outcome(Ok(()), db)
  }

  /**
   * SetAndReleaseItemExclusive: the lock check of `Release`, then, when the
   * item collection is a SessionStateItemCollection (`items` is Some), "data"
   * is written and the session's expiry set, whether or not the token matched.
   */
  function Commit(db: Db<Hash>, key: string, items: Option<Items>, lockId: Option<Guid>, timeoutMinutes: int): (o: Outcome<(), Db<Hash>>)
    ensures o.result == Release(db, key, lockId).result
    ensures Release(db, key, lockId).result.Ok? && items.Some? && TtlSeconds(timeoutMinutes) > 0 ==> (
      var h := HashOf(o.state, key);
      DataField in h && h[DataField] == Bytes(Serialize(items.value)) && Deserialize(h[DataField].blob) == Ok(items.value) &&
      key in o.state.ttl && o.state.ttl[key] == TtlSeconds(timeoutMinutes))
    // an expiry that is not positive deletes the session
    ensures Release(db, key, lockId).result.Ok? && items.Some? && TtlSeconds(timeoutMinutes) <= 0 ==>
      key !in o.state.data && key !in o.state.ttl
    ensures items.None? || o.result.Err? ==> o == Release(db, key, lockId)
    // the init marker is never touched while the session stays
    ensures key in o.state.data ==> (InitField in HashOf(o.state, key)) == (InitField in HashOf(db, key))
    ensures key in o.state.data && InitField in HashOf(db, key) ==> HashOf(o.state, key)[InitField] == HashOf(db, key)[InitField]
    ensures forall k :: k != key ==> HashOf(o.state, k) == HashOf(db, k)
    ensures db.Valid() ==> o.state.Valid()
    ensures NoEmptyHashes(db) ==> NoEmptyHashes(o.state)
    ensures LockFieldsPaired(db) ==> LockFieldsPaired(o.state)
  {
    var released := Release(db, key, lockId);
    if released.result.Err? || items.None? then released
    else Outcome(Ok(()), WriteData(released.state, key, items.value, timeoutMinutes))
  }

  /**
   * The writes of SetAndReleaseItemExclusive once the lock check passed:
   * HSET of "data", then EXPIRE of the session.
   */
  function WriteData(db: Db<Hash>, key: string, items: Items, timeoutMinutes: int): (d: Db<Hash>)
    ensures TtlSeconds(timeoutMinutes) > 0 ==>
      HashOf(d, key) == HashOf(db, key)[DataField := Bytes(Serialize(items))] &&
      key in d.data && key in d.ttl && d.ttl[key] == TtlSeconds(timeoutMinutes)
    ensures TtlSeconds(timeoutMinutes) <= 0 ==> key !in d.data && key !in d.ttl
    ensures forall k :: k != key ==> HashOf(d, k) == HashOf(db, k)
    ensures db.Valid() ==> d.Valid()
    ensures NoEmptyHashes(db) ==> NoEmptyHashes(d)
    ensures LockFieldsPaired(db) ==> LockFieldsPaired(d)
  {
    var fields := map[DataField := Bytes(Serialize(items))];
    assert DataField in fields;
    assert HashOf(db, key) + fields == HashOf(db, key)[DataField := Bytes(Serialize(items))];
    SetFields(db, key, fields).Expire(key, TtlSeconds(timeoutMinutes))
  }

  /**
   * RemoveItem: the session is deleted exactly when its stored token equals
   * the presented one. A null presented token, or a session with no stored
   * token (the Guid is built from null), fails.
   */
  function Remove(db: Db<Hash>, key: string, lockId: Option<Guid>): (o: Outcome<(), Db<Hash>>)
    ensures var h := HashOf(db, key);
      o.state == (if lockId.Some? && LockIdField in h && h[LockIdField] == Token(lockId.value) then db.Delete(key) else db)
    ensures var h := HashOf(db, key);
      o.result.Ok? <==> lockId.Some? && LockIdField in h && h[LockIdField].Token?
    ensures lockId.None? ==> o.result == Err(NullLockId)
    ensures lockId.Some? && LockIdField !in HashOf(db, key) ==> o.result.Err? && o.result.failure.ArgumentNull?
    ensures db.Valid() ==> o.state.Valid()
    ensures NoEmptyHashes(db) ==> NoEmptyHashes(o.state)
    ensures LockFieldsPaired(db) ==> LockFieldsPaired(o.state)
  {
    var h := HashOf(db, key);
    if lockId.None? then Outcome(Err(NullLockId), db)
    else if LockIdField !in h then Outcome(Err(ArgumentNull("b")), db)
    else if !h[LockIdField].Token? then Outcome(Err(MalformedField(LockIdField)), db)
    else if h[LockIdField].g == lockId.value then Outcome(Ok(()), db.Delete(key))
    else Outcome(Ok(()), db)
  }

  /**
   * ResetItemTimeout: only the session's expiry changes, and only if the
   * session exists; an expiry that is not positive deletes the session.
   */
  function ResetTimeout(db: Db<Hash>, key: string, timeoutMinutes: int): (d: Db<Hash>)
    ensures TtlSeconds(timeoutMinutes) > 0 ==> d.data == db.data
    ensures TtlSeconds(timeoutMinutes) <= 0 ==> d.data == db.data - {key}
    ensures key in db.data && TtlSeconds(timeoutMinutes) > 0 ==> key in d.ttl && d.ttl[key] == TtlSeconds(timeoutMinutes)
    ensures key in db.data && TtlSeconds(timeoutMinutes) <= 0 ==> d == db.Delete(key)
    ensures forall k :: k != key ==> (k in d.ttl <==> k in db.ttl) && (k in d.ttl ==> d.ttl[k] == db.ttl[k])
    ensures key !in db.data ==> d == db
    ensures db.Valid() ==> d.Valid()
  {
    db.Expire(key, TtlSeconds(timeoutMinutes))
  }

  /**
   * CreateUninitializedItem: "data" becomes the serialized empty collection
   * and "init" true, other fields stay, and the expiry is `timeout * 60`;
   * an expiry that is not positive deletes the session at once.
   */
  function CreateUninitialized(db: Db<Hash>, key: string, timeoutMinutes: int): (d: Db<Hash>)
    ensures TtlSeconds(timeoutMinutes) > 0 ==>
      HashOf(d, key) == HashOf(db, key)[DataField := Bytes(Serialize(map[]))][InitField := Flag(true)] &&
      key in d.ttl && d.ttl[key] == TtlSeconds(timeoutMinutes)
    ensures TtlSeconds(timeoutMinutes) <= 0 ==> key !in d.data && key !in d.ttl
    ensures forall k :: k != key ==> HashOf(d, k) == HashOf(db, k)
    ensures forall k :: k != key ==> (k in d.ttl <==> k in db.ttl) && (k in d.ttl ==> d.ttl[k] == db.ttl[k])
    ensures db.Valid() ==> d.Valid()
    ensures NoEmptyHashes(db) ==> NoEmptyHashes(d)
    ensures LockFieldsPaired(db) ==> LockFieldsPaired(d)
  {
    var fields := map[DataField := Bytes(Serialize(map[])), InitField := Flag(true)];
    assert DataField in fields;
    assert HashOf(db, key) + fields == HashOf(db, key)[DataField := Bytes(Serialize(map[]))][InitField := Flag(true)];
    SetFields(db, key, fields).Expire(key, TtlSeconds(timeoutMinutes))
  }

  /** The provider: its settings, its static connection and the Redis database it works on. */
  class LockingSessionStore {
    var db: Db<Hash>
    const config: SessionConfig
    const conn: Manager

    ghost predicate Valid()
      reads this, conn
    {
      db.Valid() && NoEmptyHashes(db) && LockFieldsPaired(db) && conn.Valid()
    }

    constructor (config: SessionConfig, conn: Manager)
      requires conn.Valid()
      ensures Valid() && this.config == config && this.conn == conn && db == EmptyDb()
    {
      this.config := config;
      this.conn := conn;
      db := EmptyDb();
    }

    /** GetItem: a shared read. */
    method GetItem(id: string, now: int, outcome: OpenOutcome) returns (r: Result<ReadResult>)
      requires Valid()
      modifies this, conn
      ensures Valid()
      ensures var a := Acquire(old(conn.handle), old(conn.created), outcome);
        conn.handle == Some(a.handle) && conn.created == a.created &&
        Outcome(r, db) == Guarded(config.writeExceptionsToEventLog, a.result, old(db),
                                  Read(old(db), Key(config.app, id), false, now, 0, config.timeoutMinutes))
    {
      r := GetSessionStoreItem(false, id, now, 0, outcome);
    }

    /** GetItemExclusive: an exclusive read; `freshLock` is the token it would take. */
    method GetItemExclusive(id: string, now: int, freshLock: Guid, outcome: OpenOutcome) returns (r: Result<ReadResult>)
      requires Valid()
      modifies this, conn
      ensures Valid()
      ensures var a := Acquire(old(conn.handle), old(conn.created), outcome);
        conn.handle == Some(a.handle) && conn.created == a.created &&
        Outcome(r, db) == Guarded(config.writeExceptionsToEventLog, a.result, old(db),
                                  Read(old(db), Key(config.app, id), true, now, freshLock, config.timeoutMinutes))
    {
      r := GetSessionStoreItem(true, id, now, freshLock, outcome);
    }

    method GetSessionStoreItem(exclusive: bool, id: string, now: int, freshLock: Guid, outcome: OpenOutcome) returns (r: Result<ReadResult>)
      requires Valid()
      modifies this, conn
      ensures Valid()
      ensures var a := Acquire(old(conn.handle), old(conn.created), outcome);
        conn.handle == Some(a.handle) && conn.created == a.created &&
        Outcome(r, db) == Guarded(config.writeExceptionsToEventLog, a.result, old(db),
                                  Read(old(db), Key(config.app, id), exclusive, now, freshLock, config.timeoutMinutes))
    {
      var connected := conn.GetConnection(outcome);
      if connected.Err? {
        return Err(Surface(config.writeExceptionsToEventLog, connected.failure));
      }
      ghost var db0 := db;
      var key := Key(config.app, id);
      var dict := HashOf(db, key);
      var result: Result<ReadResult>;
      if LockIdField in dict {
        if LockedAtField !in dict {
          result := Err(MissingField(LockedAtField));
        } else if !dict[LockedAtField].Time? {
          result := Err(MalformedField(LockedAtField));
        } else if !dict[LockIdField].Token? {
          result := Err(MalformedField(LockIdField));
        } else {
          var lockAge := now - dict[LockedAtField].t;
          result := Ok(ReadResult(None, true, lockAge, Some(dict[LockIdField].g), NoActions));
        }
      } else if InitField in dict && !dict[InitField].Flag? {
        result := Err(MalformedField(InitField));
      } else if InitField in dict && dict[InitField].b {
        db := RemoveFields(db, key, {InitField});
        result := Ok(FreshItem(config.timeoutMinutes, InitializeItem));
      } else if DataField in dict {
        var lockId: Option<Guid> := None;
        if exclusive {
          lockId := Some(freshLock);
          db := SetFields(db, key, map[LockedAtField := Time(now), LockIdField := Token(freshLock)]);
        }
        if !dict[DataField].Bytes? {
          result := Err(MalformedField(DataField));
        } else {
          var items := Deserialize(dict[DataField].blob);
          if items.Err? {
            result := Err(items.failure);
          } else {
            result := Ok(ReadResult(Some(StoreData(items.value, config.timeoutMinutes)), false, 0, lockId, NoActions));
          }
        }
      } else {
        result := Ok(FreshItem(config.timeoutMinutes, NoActions));
      }
      assert Outcome(result, db) == Read(db0, key, exclusive, now, freshLock, config.timeoutMinutes);
      r := SurfaceResult(config.writeExceptionsToEventLog, result);
    }

    /** The lock check: HGET "lockId", compare with the presented token, HDEL on a match. */
    method ReleaseLock(key: string, lockId: Option<Guid>) returns (result: Result<()>)
      requires Valid()
      modifies this
      ensures Valid()
      ensures Outcome(result, db) == Release(old(db), key, lockId)
    {
      var h := HashOf(db, key);
      if LockIdField !in h {
        return Ok(());
      }
      if lockId.None? {
        return Err(NullLockId);
      }
      if !h[LockIdField].Token? {
        return Err(MalformedField(LockIdField));
      }
      if h[LockIdField].g == lockId.value {
        db := RemoveFields(db, key, ReleasedFields);
      }
      result := Ok(());
    }

    method ReleaseItemExclusive(id: string, lockId: Option<Guid>, outcome: OpenOutcome) returns (r: Result<()>)
      requires Valid()
      modifies this, conn
      ensures Valid()
      ensures var a := Acquire(old(conn.handle), old(conn.created), outcome);
        conn.handle == Some(a.handle) && conn.created == a.created &&
        Outcome(r, db) == Guarded(config.writeExceptionsToEventLog, a.result, old(db), Release(old(db), Key(config.app, id), lockId))
    {
      var connected := conn.GetConnection(outcome);
      if connected.Err? {
        return Err(Surface(config.writeExceptionsToEventLog, connected.failure));
      }
      var result := ReleaseLock(Key(config.app, id), lockId);
      r := SurfaceResult(config.writeExceptionsToEventLog, result);
    }

    method SetAndReleaseItemExclusive(id: string, items: Option<Items>, lockId: Option<Guid>, outcome: OpenOutcome) returns (r: Result<()>)
      requires Valid()
      modifies this, conn
      ensures Valid()
      ensures var a := Acquire(old(conn.handle), old(conn.created), outcome);
        conn.handle == Some(a.handle) && conn.created == a.created &&
        Outcome(r, db) == Guarded(config.writeExceptionsToEventLog, a.result, old(db),
                                  Commit(old(db), Key(config.app, id), items, lockId, config.timeoutMinutes))
    {
      var connected := conn.GetConnection(outcome);
      if connected.Err? {
        return Err(Surface(config.writeExceptionsToEventLog, connected.failure));
      }
      var key := Key(config.app, id);
      ghost var db0 := db;
      var result := ReleaseLock(key, lockId);
      if result.Ok? && items.Some? {
        var fields := map[DataField := Bytes(Serialize(items.value))];
        assert DataField in fields;
        db := SetFields(db, key, fields);
        db := db.Expire(key, TtlSeconds(config.timeoutMinutes));
      }
      assert Outcome(result, db) == Commit(db0, key, items, lockId, config.timeoutMinutes);
      r := SurfaceResult(config.writeExceptionsToEventLog, result);
    }

    method RemoveItem(id: string, lockId: Option<Guid>, outcome: OpenOutcome) returns (r: Result<()>)
      requires Valid()
      modifies this, conn
      ensures Valid()
      ensures var a := Acquire(old(conn.handle), old(conn.created), outcome);
        conn.handle == Some(a.handle) && conn.created == a.created &&
        Outcome(r, db) == Guarded(config.writeExceptionsToEventLog, a.result, old(db), Remove(old(db), Key(config.app, id), lockId))
    {
      var connected := conn.GetConnection(outcome);
      if connected.Err? {
        return Err(Surface(config.writeExceptionsToEventLog, connected.failure));
      }
      var key := Key(config.app, id);
      var h := HashOf(db, key);
      var result: Result<()>;
      if lockId.None? {
        result := Err(NullLockId);
      } else if LockIdField !in h {
        result := Err(ArgumentNull("b"));
      } else if !h[LockIdField].Token? {
        result := Err(MalformedField(LockIdField));
      } else {
        if h[LockIdField].g == lockId.value {
          db := db.Delete(key);
        }
        result := Ok(());
      }
      r := SurfaceResult(config.writeExceptionsToEventLog, result);
    }

    method ResetItemTimeout(id: string, outcome: OpenOutcome) returns (r: Result<()>)
      requires Valid()
      modifies this, conn
      ensures Valid()
      ensures var a := Acquire(old(conn.handle), old(conn.created), outcome);
        conn.handle == Some(a.handle) && conn.created == a.created &&
        Outcome(r, db) == Guarded(config.writeExceptionsToEventLog, a.result, old(db),
                                  Outcome(Ok(()), ResetTimeout(old(db), Key(config.app, id), config.timeoutMinutes)))
    {
      var connected := conn.GetConnection(outcome);
      if connected.Err? {
        return Err(Surface(config.writeExceptionsToEventLog, connected.failure));
      }
      db := db.Expire(Key(config.app, id), TtlSeconds(config.timeoutMinutes));
      r := Ok(());
    }

    method CreateUninitializedItem(id: string, timeoutMinutes: int, outcome: OpenOutcome) returns (r: Result<()>)
      requires Valid()
      modifies this, conn
      ensures Valid()
      ensures var a := Acquire(old(conn.handle), old(conn.created), outcome);
        conn.handle == Some(a.handle) && conn.created == a.created &&
        Outcome(r, db) == Guarded(config.writeExceptionsToEventLog, a.result, old(db),
                                  Outcome(Ok(()), CreateUninitialized(old(db), Key(config.app, id), timeoutMinutes)))
    {
      var connected := conn.GetConnection(outcome);
      if connected.Err? {
        return Err(Surface(config.writeExceptionsToEventLog, connected.failure));
      }
      var key := Key(config.app, id);
      ghost var before := db;
      db := SetFields(db, key, map[DataField := Bytes(Serialize(map[])), InitField := Flag(true)]);
      db := db.Expire(key, TtlSeconds(timeoutMinutes));
      assert db == CreateUninitialized(before, key, timeoutMinutes);
      r := Ok(());
    }
  }

  /** A session hash with no lock whose data reads back as `items`. */
  predicate UnlockedWithData(h: Hash, items: Items) {
    LockIdField !in h && (InitField !in h || h[InitField] == Flag(false)) &&
    DataField in h && h[DataField].Bytes? && Deserialize(h[DataField].blob) == Ok(items)
  }

  /**
   * An exclusive read of an unlocked session takes the lock; any later read
   * reports the session locked by that token, with the age measured from the
   * first read, and writes nothing.
   */
  lemma ExclusiveReadLocks(db: Db<Hash>, key: string, items: Items, now1: int, token: Guid,
                           exclusive2: bool, now2: int, token2: Guid, timeoutMinutes: int)
    requires UnlockedWithData(HashOf(db, key), items)
    ensures var o1 := Read(db, key, true, now1, token, timeoutMinutes);
      o1.result == Ok(ReadResult(Some(StoreData(items, timeoutMinutes)), false, 0, Some(token), NoActions)) &&
      var o2 := Read(o1.state, key, exclusive2, now2, token2, timeoutMinutes);
      o2 == Outcome(Ok(ReadResult(None, true, now2 - now1, Some(token), NoActions)), o1.state)
  {
    var o1 := Read(db, key, true, now1, token, timeoutMinutes);
    assert HashOf(o1.state, key) == HashOf(db, key) + map[LockedAtField := Time(now1), LockIdField := Token(token)];
  }

  /** A shared read of an unlocked session returns its data with a null token and writes nothing. */
  lemma SharedReadWritesNothing(db: Db<Hash>, key: string, items: Items, now: int, token: Guid, timeoutMinutes: int)
    requires UnlockedWithData(HashOf(db, key), items)
    ensures Read(db, key, false, now, token, timeoutMinutes) ==
      Outcome(Ok(ReadResult(Some(StoreData(items, timeoutMinutes)), false, 0, None, NoActions)), db)
  {
  }

  /**
   * Releasing with the token the exclusive read took unlocks the session:
   * the next read is not locked. The lock time stays behind, because the
   * removal names "lockAt".
   */
  lemma ReleaseUnlocks(db: Db<Hash>, key: string, items: Items, now1: int, token: Guid,
                       exclusive2: bool, now2: int, token2: Guid, timeoutMinutes: int)
    requires UnlockedWithData(HashOf(db, key), items)
    ensures var o1 := Read(db, key, true, now1, token, timeoutMinutes);
      var released := Release(o1.state, key, Some(token));
      released.result.Ok? &&
      LockIdField !in HashOf(released.state, key) &&
      HashOf(released.state, key)[LockedAtField] == Time(now1) &&
      var o2 := Read(released.state, key, exclusive2, now2, token2, timeoutMinutes);
      o2.result.Ok? && !o2.result.value.locked && o2.result.value.item == Some(StoreData(items, timeoutMinutes))
  {
    var o1 := Read(db, key, true, now1, token, timeoutMinutes);
    var h1 := HashOf(db, key) + map[LockedAtField := Time(now1), LockIdField := Token(token)];
    assert HashOf(o1.state, key) == h1;
    var released := Release(o1.state, key, Some(token));
    assert HashOf(released.state, key) == h1 - ReleasedFields;
    assert UnlockedWithData(HashOf(released.state, key), items);
  }

  /** A token that does not match leaves the lock in place and the store as it was. */
  lemma ReleaseWithOtherTokenKeepsLock(db: Db<Hash>, key: string, held: Guid, presented: Guid)
    requires LockIdField in HashOf(db, key) && HashOf(db, key)[LockIdField] == Token(held)
    requires presented != held
    ensures Release(db, key, Some(presented)) == Outcome(Ok(()), db)
  {
  }

  /**
   * SetAndReleaseItemExclusive writes the data even when the presented token
   * is not the one holding the lock, and the lock is then still held.
   */
  lemma CommitWritesDespiteForeignLock(db: Db<Hash>, key: string, items: Items, held: Guid, presented: Guid, timeoutMinutes: int)
    requires LockIdField in HashOf(db, key) && HashOf(db, key)[LockIdField] == Token(held)
    requires presented != held
    ensures var o := Commit(db, key, Some(items), Some(presented), timeoutMinutes);
      var h := HashOf(o.state, key);
      o.result.Ok? &&
      (TtlSeconds(timeoutMinutes) > 0 ==> DataField in h && h[DataField] == Bytes(Serialize(items)) &&
                                          LockIdField in h && h[LockIdField] == Token(held)) &&
      (TtlSeconds(timeoutMinutes) <= 0 ==> key !in o.state.data)
  {
    var o := Commit(db, key, Some(items), Some(presented), timeoutMinutes);
    if TtlSeconds(timeoutMinutes) > 0 {
      assert HashOf(o.state, key) == HashOf(db, key) + map[DataField := Bytes(Serialize(items))];
    }
  }

  /**
   * The life of a new session: created uninitialized, the first read hands
   * out an empty item with InitializeItem and consumes the marker, and a
   * second read finds the (empty) data with no action. With an expiry that
   * is not positive the session is gone at once and the first read finds
   * nothing.
   */
  lemma InitConsumedOnce(db: Db<Hash>, key: string, timeoutMinutes: int,
                         exclusive1: bool, now1: int, token1: Guid,
                         exclusive2: bool, now2: int, token2: Guid)
    requires LockIdField !in HashOf(db, key)
    ensures var created := CreateUninitialized(db, key, timeoutMinutes);
      var o1 := Read(created, key, exclusive1, now1, token1, timeoutMinutes);
      TtlSeconds(timeoutMinutes) <= 0 ==> o1 == Outcome(Ok(FreshItem(timeoutMinutes, NoActions)), created)
    ensures var created := CreateUninitialized(db, key, timeoutMinutes);
      var o1 := Read(created, key, exclusive1, now1, token1, timeoutMinutes);
      TtlSeconds(timeoutMinutes) > 0 ==>
      o1.result == Ok(FreshItem(timeoutMinutes, InitializeItem)) &&
      var o2 := Read(o1.state, key, exclusive2, now2, token2, timeoutMinutes);
      o2.result == Ok(ReadResult(Some(StoreData(map[], timeoutMinutes)), false, 0, if exclusive2 then Some(token2) else None, NoActions))
  {
    if TtlSeconds(timeoutMinutes) <= 0 {
      return;
    }
    var created := CreateUninitialized(db, key, timeoutMinutes);
    var h := HashOf(db, key)[DataField := Bytes(Serialize(map[]))][InitField := Flag(true)];
    assert HashOf(created, key) == h;
    var o1 := Read(created, key, exclusive1, now1, token1, timeoutMinutes);
    assert HashOf(o1.state, key) == h - {InitField};
    assert UnlockedWithData(HashOf(o1.state, key), map[]);
  }

  /**
   * Uninitialized session, first read, commit of `items` with the null token
   * the first read handed out, then an exclusive read: the read returns
   * `items` with a fresh token and reports the session not locked. With an
   * expiry that is not positive every write deletes the session, and the
   * last read finds a fresh empty item.
   */
  lemma NewSessionRoundTrip(db: Db<Hash>, key: string, items: Items, timeoutMinutes: int,
                            now1: int, token1: Guid, now2: int, token2: Guid)
    requires LockIdField !in HashOf(db, key)
    ensures var created := CreateUninitialized(db, key, timeoutMinutes);
      var o1 := Read(created, key, true, now1, token1, timeoutMinutes);
      var committed := Commit(o1.state, key, Some(items), o1.result.value.lockId, timeoutMinutes);
      var o2 := Read(committed.state, key, true, now2, token2, timeoutMinutes);
      o1.result.Ok? && committed.result.Ok? &&
      o2.result == Ok(if TtlSeconds(timeoutMinutes) > 0 then ReadResult(Some(StoreData(items, timeoutMinutes)), false, 0, Some(token2), NoActions)
                      else FreshItem(timeoutMinutes, NoActions))
  {
    if TtlSeconds(timeoutMinutes) <= 0 {
      NewSessionDropped(db, key, items, timeoutMinutes, now1, token1, now2, token2);
    } else {
      NewSessionKept(db, key, items, timeoutMinutes, now1, token1, now2, token2);
    }
  }

  /** NewSessionRoundTrip with an expiry that is not positive: nothing is kept. */
  lemma NewSessionDropped(db: Db<Hash>, key: string, items: Items, timeoutMinutes: int,
                          now1: int, token1: Guid, now2: int, token2: Guid)
    requires LockIdField !in HashOf(db, key) && TtlSeconds(timeoutMinutes) <= 0
    ensures var created := CreateUninitialized(db, key, timeoutMinutes);
      var o1 := Read(created, key, true, now1, token1, timeoutMinutes);
      var committed := Commit(o1.state, key, Some(items), o1.result.value.lockId, timeoutMinutes);
      var o2 := Read(committed.state, key, true, now2, token2, timeoutMinutes);
      o1.result.Ok? && committed.result.Ok? && o2.result == Ok(FreshItem(timeoutMinutes, NoActions))
  {
    var created := CreateUninitialized(db, key, timeoutMinutes);
    var o1 := Read(created, key, true, now1, token1, timeoutMinutes);
    assert o1 == Outcome(Ok(FreshItem(timeoutMinutes, NoActions)), created);
  }

  /** NewSessionRoundTrip with a positive expiry: the committed items come back. */
  lemma NewSessionKept(db: Db<Hash>, key: string, items: Items, timeoutMinutes: int,
                       now1: int, token1: Guid, now2: int, token2: Guid)
    requires LockIdField !in HashOf(db, key) && TtlSeconds(timeoutMinutes) > 0
    ensures var created := CreateUninitialized(db, key, timeoutMinutes);
      var o1 := Read(created, key, true, now1, token1, timeoutMinutes);
      var committed := Commit(o1.state, key, Some(items), o1.result.value.lockId, timeoutMinutes);
      var o2 := Read(committed.state, key, true, now2, token2, timeoutMinutes);
      o1.result.Ok? && committed.result.Ok? &&
      o2.result == Ok(ReadResult(Some(StoreData(items, timeoutMinutes)), false, 0, Some(token2), NoActions))
  {
    var created := CreateUninitialized(db, key, timeoutMinutes);
    var h := HashOf(db, key)[DataField := Bytes(Serialize(map[]))][InitField := Flag(true)];
    assert HashOf(created, key) == h;
    var o1 := Read(created, key, true, now1, token1, timeoutMinutes);
    assert HashOf(o1.state, key) == h - {InitField};
    assert o1.result.value.lockId == None;
    CommitUnlocked(o1.state, key, items, timeoutMinutes);
    var committed := Commit(o1.state, key, Some(items), None, timeoutMinutes);
    assert HashOf(committed.state, key) == (h - {InitField}) + map[DataField := Bytes(Serialize(items))];
    assert UnlockedWithData(HashOf(committed.state, key), items);
  }

  /** A commit with the null token on an unlocked session with a positive expiry writes "data" and nothing else into it. */
  lemma CommitUnlocked(db: Db<Hash>, key: string, items: Items, timeoutMinutes: int)
    requires LockIdField !in HashOf(db, key) && TtlSeconds(timeoutMinutes) > 0
    ensures var o := Commit(db, key, Some(items), None, timeoutMinutes);
      o.result.Ok? && HashOf(o.state, key) == HashOf(db, key) + map[DataField := Bytes(Serialize(items))]
  {
    var o := Commit(db, key, Some(items), None, timeoutMinutes);
    assert Release(db, key, None) == Outcome(Ok(()), db);
    assert HashOf(o.state, key) == HashOf(db, key) + map[DataField := Bytes(Serialize(items))];
  }

  /** RemoveItem with the token holding the lock deletes the whole session; with another token nothing changes. */
  lemma RemoveNeedsToken(db: Db<Hash>, key: string, held: Guid, presented: Guid)
    requires LockIdField in HashOf(db, key) && HashOf(db, key)[LockIdField] == Token(held)
    ensures Remove(db, key, Some(held)) == Outcome(Ok(()), db.Delete(key))
    ensures key !in Remove(db, key, Some(held)).state.data
    ensures presented != held ==> Remove(db, key, Some(presented)) == Outcome(Ok(()), db)
  {
  }
}
