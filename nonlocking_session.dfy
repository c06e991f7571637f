/**
 * The non-locking session-state provider: one Redis string per session
 * holding the serialized item collection. Nothing is ever locked; the last
 * write wins.
 */
module NonLockingSession {
  import opened Common
  import opened Config
  import opened Codec
  import opened Store
  import opened Connection
  import opened SessionState

  /**
   * Initialize: `writeExceptionsToEventLog` defaults to "true" when missing
   * or empty and is parsed with Convert.ToBoolean, so any other text than
   * "true"/"false" (in any case) makes Initialize fail.
   */
  function Initialize(config: Settings, virtualPath: string, timeoutMinutes: int): (c: Result<SessionConfig>)
    ensures c.Ok? ==> c.value.app == ApplicationName(config, virtualPath) && c.value.timeoutMinutes == timeoutMinutes
    ensures Lookup(config, "writeExceptionsToEventLog") in {None, Some("")} ==> c.Ok? && c.value.writeExceptionsToEventLog
    ensures "writeExceptionsToEventLog" in config && config["writeExceptionsToEventLog"] != "" ==>
      (c.Ok? <==> ParseBool(config["writeExceptionsToEventLog"]).Ok?) &&
      (c.Ok? ==> c.value.writeExceptionsToEventLog == ParseBool(config["writeExceptionsToEventLog"]).value)
  {
    var flag := GetConfigValue(Lookup(config, "writeExceptionsToEventLog"), Some("true"));
    ParseBoolLiterals();
    match ParseBool(flag.value)
    case Ok(on) => Ok(SessionConfig(ApplicationName(config, virtualPath), timeoutMinutes, on))
    case Err(f) => Err(f)
  }

  /**
   * GetSessionStoreItem, the same for GetItem and GetItemExclusive: a missing
   * session is a fresh empty item, a present one its decoded blob; never
   * locked, no token, no action; nothing is written.
   */
  function Read(db: Db<Blob>, key: string, timeoutMinutes: int): (r: Result<ReadResult>)
    ensures r.Ok? ==> !r.value.locked && r.value.lockAge == 0 && r.value.lockId == None && r.value.actions == NoActions
    ensures r.Ok? ==> r.value.item.Some? && r.value.item.value.timeout == timeoutMinutes
    ensures key !in db.data ==> r == Ok(ReadResult(Some(NewStoreData(timeoutMinutes)), false, 0, None, NoActions))
    ensures key in db.data ==> (
      (r.Ok? <==> Deserialize(db.data[key]).Ok?) &&
      (r.Ok? ==> r.value.item.value.items == Deserialize(db.data[key]).value))
  {
    if key !in db.data then Ok(ReadResult(Some(NewStoreData(timeoutMinutes)), false, 0, None, NoActions))
    else
      match Deserialize(db.data[key])
      case Ok(items) => Ok(ReadResult(Some(StoreData(items, timeoutMinutes)), false, 0, None, NoActions))
      case Err(f) => Err(f)
  }

  /**
   * SetAndReleaseItemExclusive: when the collection is a
   * SessionStateItemCollection the string is overwritten and the expiry set;
   * the presented token plays no part.
   */
  function Commit(db: Db<Blob>, key: string, items: Option<Items>, timeoutMinutes: int): (d: Db<Blob>)
    ensures items.Some? && TtlSeconds(timeoutMinutes) > 0 ==>
              key in d.data && Deserialize(d.data[key]) == Ok(items.value) && key in d.ttl && d.ttl[key] == TtlSeconds(timeoutMinutes)
    ensures items.Some? && TtlSeconds(timeoutMinutes) <= 0 ==> key !in d.data && key !in d.ttl
    ensures items.None? ==> d == db
    ensures forall k :: k != key ==> (k in d.data <==> k in db.data) && (k in d.data ==> d.data[k] == db.data[k])
    ensures db.Valid() ==> d.Valid()
  {
    if items.None? then db else db.Put(key, Serialize(items.value)).Expire(key, TtlSeconds(timeoutMinutes))
  }

  /** CreateUninitializedItem: the serialized empty collection with an expiry, and no marker. */
  function CreateUninitialized(db: Db<Blob>, key: string, timeoutMinutes: int): (d: Db<Blob>)
    ensures TtlSeconds(timeoutMinutes) > 0 ==>
              key in d.data && Deserialize(d.data[key]) == Ok(map[]) && key in d.ttl && d.ttl[key] == TtlSeconds(timeoutMinutes)
    ensures TtlSeconds(timeoutMinutes) <= 0 ==> key !in d.data && key !in d.ttl
    ensures forall k :: k != key ==> (k in d.data <==> k in db.data) && (k in d.data ==> d.data[k] == db.data[k])
    ensures db.Valid() ==> d.Valid()
  {
    db.Put(key, Serialize(map[])).Expire(key, TtlSeconds(timeoutMinutes))
  }

  class NonLockingSessionStore {
    var db: Db<Blob>
    const config: SessionConfig
    const conn: Manager

    ghost predicate Valid()
      reads this, conn
    {
      db.Valid() && conn.Valid()
    }

    constructor (config: SessionConfig, conn: Manager)
      requires conn.Valid()
      ensures Valid() && this.config == config && this.conn == conn && db == EmptyDb()
    {
      this.config := config;
      this.conn := conn;
      db := EmptyDb();
    }

    /** GetItem and GetItemExclusive both run this. */
    method GetSessionStoreItem(id: string, outcome: OpenOutcome) returns (r: Result<ReadResult>)
      requires Valid()
      modifies conn
      ensures Valid()
      ensures var a := Acquire(old(conn.handle), old(conn.created), outcome);
        conn.handle == Some(a.handle) && conn.created == a.created &&
        Outcome(r, db) == Guarded(config.writeExceptionsToEventLog, a.result, db,
                                  Outcome(Read(db, Key(config.app, id), config.timeoutMinutes), db))
    {
      var connected := conn.GetConnection(outcome);
      if connected.Err? {
        return Err(Surface(config.writeExceptionsToEventLog, connected.failure));
      }
      var key := Key(config.app, id);
      var result: Result<ReadResult>;
      if key !in db.data {
        result := Ok(ReadResult(Some(NewStoreData(config.timeoutMinutes)), false, 0, None, NoActions));
      } else {
        var items := Deserialize(db.data[key]);
        if items.Err? {
          result := Err(items.failure);
        } else {
          result := Ok(ReadResult(Some(StoreData(items.value, config.timeoutMinutes)), false, 0, None, NoActions));
        }
      }
      r := SurfaceResult(config.writeExceptionsToEventLog, result);
    }

    method GetItem(id: string, outcome: OpenOutcome) returns (r: Result<ReadResult>)
      requires Valid()
      modifies conn
      ensures Valid()
      ensures var a := Acquire(old(conn.handle), old(conn.created), outcome);
        conn.handle == Some(a.handle) && conn.created == a.created &&
        Outcome(r, db) == Guarded(config.writeExceptionsToEventLog, a.result, db,
                                  Outcome(Read(db, Key(config.app, id), config.timeoutMinutes), db))
    {
      r := GetSessionStoreItem(id, outcome);
    }

    /** Takes no lock: the same call as GetItem, so the same result. */
    method GetItemExclusive(id: string, outcome: OpenOutcome) returns (r: Result<ReadResult>)
      requires Valid()
      modifies conn
      ensures Valid()
      ensures var a := Acquire(old(conn.handle), old(conn.created), outcome);
        conn.handle == Some(a.handle) && conn.created == a.created &&
        Outcome(r, db) == Guarded(config.writeExceptionsToEventLog, a.result, db,
                                  Outcome(Read(db, Key(config.app, id), config.timeoutMinutes), db))
    {
      r := GetSessionStoreItem(id, outcome);
    }

    /** A no-op: there is no lock to release, and no connection is acquired. */
    method ReleaseItemExclusive(id: string, lockId: Option<Guid>)
      ensures unchanged(this, conn)
    {
    }

    method SetAndReleaseItemExclusive(id: string, items: Option<Items>, lockId: Option<Guid>, outcome: OpenOutcome) returns (r: Result<()>)
      requires Valid()
      modifies this, conn
      ensures Valid()
      ensures var a := Acquire(old(conn.handle), old(conn.created), outcome);
        conn.handle == Some(a.handle) && conn.created == a.created &&
        Outcome(r, db) == Guarded(config.writeExceptionsToEventLog, a.result, old(db),
                                  Outcome(Ok(()), Commit(old(db), Key(config.app, id), items, config.timeoutMinutes)))
    {
      var connected := conn.GetConnection(outcome);
      if connected.Err? {
        return Err(Surface(config.writeExceptionsToEventLog, connected.failure));
      }
      if items.Some? {
        var key := Key(config.app, id);
        db := db.Put(key, Serialize(items.value));
        db := db.Expire(key, TtlSeconds(config.timeoutMinutes));
      }
      r := Ok(());
    }

    /** RemoveItem: deletes the session whatever token is presented. */
    method RemoveItem(id: string, lockId: Option<Guid>, outcome: OpenOutcome) returns (r: Result<()>)
      requires Valid()
      modifies this, conn
      ensures Valid()
      ensures var a := Acquire(old(conn.handle), old(conn.created), outcome);
        conn.handle == Some(a.handle) && conn.created == a.created &&
        Outcome(r, db) == Guarded(config.writeExceptionsToEventLog, a.result, old(db),
                                  Outcome(Ok(()), old(db).Delete(Key(config.app, id))))
    {
      var connected := conn.GetConnection(outcome);
      if connected.Err? {
        return Err(Surface(config.writeExceptionsToEventLog, connected.failure));
      }
      db := db.Delete(Key(config.app, id));
      r := Ok(());
    }

    method ResetItemTimeout(id: string, outcome: OpenOutcome) returns (r: Result<()>)
      requires Valid()
      modifies this, conn
      ensures Valid()
      ensures var a := Acquire(old(conn.handle), old(conn.created), outcome);
        conn.handle == Some(a.handle) && conn.created == a.created &&
        Outcome(r, db) == Guarded(config.writeExceptionsToEventLog, a.result, old(db),
                                  Outcome(Ok(()), old(db).Expire(Key(config.app, id), TtlSeconds(config.timeoutMinutes))))
    {
      var connected := conn.GetConnection(outcome);
      if connected.Err? {
        return Err(Surface(config.writeExceptionsToEventLog, connected.failure));
      }
      db := db.Expire(Key(config.app, id), TtlSeconds(config.timeoutMinutes));
      r := Ok(());
    }

    method CreateUninitializedItem(id: string, timeoutMinutes: int, outcome: OpenOutcome) returns (r: Result<()>)
      requires Valid()
      modifies this, conn
      ensures Valid()
      ensures var a := Acquire(old(conn.handle), old(conn.created), outcome);
        conn.handle == Some(a.handle) && conn.created == a.created &&
        Outcome(r, db) == Guarded(config.writeExceptionsToEventLog, a.result, old(db),
                                  Outcome(Ok(()), CreateUninitialized(old(db), Key(config.app, id), timeoutMinutes)))
    {
      var connected := conn.GetConnection(outcome);
      if connected.Err? {
        return Err(Surface(config.writeExceptionsToEventLog, connected.failure));
      }
      var key := Key(config.app, id);
      db := db.Put(key, Serialize(map[]));
      db := db.Expire(key, TtlSeconds(timeoutMinutes));
      r := Ok(());
    }
  }

  /**
   * The last of two commits decides what a read sees; with an expiry that is
   * not positive the commit deletes the session and the read finds a fresh
   * empty item.
   */
  lemma LastWriterWins(db: Db<Blob>, key: string, first: Items, second: Items, timeoutMinutes: int)
    ensures var d := Commit(Commit(db, key, Some(first), timeoutMinutes), key, Some(second), timeoutMinutes);
      Read(d, key, timeoutMinutes) ==
        Ok(ReadResult(Some(if TtlSeconds(timeoutMinutes) > 0 then StoreData(second, timeoutMinutes) else NewStoreData(timeoutMinutes)),
                      false, 0, None, NoActions))
  {
  }

  /** After RemoveItem, whatever token was presented, a read finds a fresh empty item. */
  lemma ReadAfterRemove(db: Db<Blob>, key: string, timeoutMinutes: int)
    ensures Read(db.Delete(key), key, timeoutMinutes) == Ok(ReadResult(Some(NewStoreData(timeoutMinutes)), false, 0, None, NoActions))
  {
  }

  /**
   * A session created uninitialized reads back as an empty item with no
   * action: there is no init marker (and with an expiry that is not positive
   * there is no session, which reads the same way).
   */
  lemma ReadAfterCreate(db: Db<Blob>, key: string, timeoutMinutes: int)
    ensures Read(CreateUninitialized(db, key, timeoutMinutes), key, timeoutMinutes) ==
      Ok(ReadResult(Some(StoreData(map[], timeoutMinutes)), false, 0, None, NoActions))
  {
  }
}
