/**
 * What the two session-state providers share: the Redis key of a session,
 * the answer a read hands the ASP.NET session module, the provider settings
 * and the expiry written for a session.
 */
module SessionState {
  import opened Common
  import opened Text
  import opened Config
  import opened Codec
  import opened Store

  const KeyPrefix: string := "application:"
  const KeyInfix: string := ":session:"

  /** `string.Format("application:{0}:session:{1}", ApplicationName, id)`. */
  function Key(app: string, id: string): (k: string)
    ensures k == KeyPrefix + app + KeyInfix + id
    ensures |k| == |KeyPrefix| + |app| + |KeyInfix| + |id|
  {
    KeyPrefix + app + KeyInfix + id
  }

  /** Under one application name, distinct session ids have distinct keys. */
  lemma KeyInjective(app: string, id1: string, id2: string)
    requires Key(app, id1) == Key(app, id2)
    ensures id1 == id2
  {
    var n := |KeyPrefix + app + KeyInfix|;
    assert id1 == Key(app, id1)[n..];
    assert id2 == Key(app, id2)[n..];
  }

  /**
   * Across application names the key is not collision-free: an application
   * name that itself contains ":session:" shares keys with a shorter one.
   */
  lemma KeyCollidesAcrossApplications()
    ensures Key("a:session:b", "c") == Key("a", "b:session:c")
  {
  }

  /** SessionStateActions. */
  datatype Actions = NoActions | InitializeItem

  /**
   * What GetItem and GetItemExclusive return: the store data (None is a null
   * return) and the out-parameters locked, lockAge (in ticks), lockId and actions.
   */
  datatype ReadResult = ReadResult(item: Option<StoreData>, locked: bool, lockAge: int, lockId: Option<Guid>, actions: Actions)

  /** The settings a session provider works with after Initialize. */
  datatype SessionConfig = SessionConfig(app: string, timeoutMinutes: int, writeExceptionsToEventLog: bool)

  /** `timeout * 60` in the source's unchecked `int` arithmetic: the EXPIRE seconds of a session. */
  function TtlSeconds(timeoutMinutes: int): (s: int)
    ensures Int32Min <= timeoutMinutes * 60 <= Int32Max ==> s == timeoutMinutes * 60
    ensures Int32Min <= s <= Int32Max
  {
    Wrap32(timeoutMinutes * 60)
  }
}
