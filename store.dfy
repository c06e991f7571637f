/**
 * The Redis database the providers talk to, as in-memory state.
 *
 * A key holds one kind of value: a hash (field name to value), a string,
 * a set or a list; `Db<V>` is the keyspace of one kind together with the
 * time-to-live of each key that has one. The field values of hashes are
 * typed: the byte layouts of BitConverter, Guid and Encoding.Unicode are
 * abstracted into the kind of value they encode.
 */
module Store {
  import opened Common
  import opened Codec

  /** A Guid, identified by its value. */
  type Guid = nat

  datatype Value =
    | Text(s: string)   // Encoding.Unicode bytes of a string
    | Flag(b: bool)     // BitConverter bytes of a bool
    | Count(n: int)     // BitConverter bytes of an int
    | Time(t: int)      // BitConverter bytes of DateTime.ToBinary(), as ticks
    | Token(g: Guid)    // Guid.ToByteArray()
    | Bytes(blob: Blob) // a serialized session item collection

  type Hash = map<string, Value>

  /** One keyspace: the value under each key and, for keys that expire, the seconds set by EXPIRE. */
  datatype Db<V> = Db(data: map<string, V>, ttl: map<string, int>) {

    /** Only a key that exists can carry a time-to-live. */
    ghost predicate Valid() {
      ttl.Keys <= data.Keys
    }

    /** DEL: the key and its time-to-live are gone; every other key is untouched. */
    function Delete(key: string): (d: Db<V>)
      ensures d.data == data - {key} && d.ttl == ttl - {key}
      ensures Valid() ==> d.Valid()
    {
      Db(data - {key}, ttl - {key})
    }

    /**
     * EXPIRE: sets the time-to-live of an existing key; a time-to-live that is
     * not positive deletes the key at once; a missing key is left missing.
     */
    function Expire(key: string, seconds: int): (d: Db<V>)
      ensures key in data && seconds > 0 ==> d.data == data && d.ttl == ttl[key := seconds]
      ensures key in data && seconds <= 0 ==> d == Delete(key)
      ensures key !in data ==> d == this
      ensures Valid() ==> d.Valid()
    {
      if key !in data then this
      else if seconds <= 0 then Delete(key)
      else Db(data, ttl[key := seconds])
    }

    /** SET: replaces the value and, as Redis does, discards any time-to-live. */
    function Put(key: string, v: V): (d: Db<V>)
      ensures d.data == data[key := v] && d.ttl == ttl - {key}
      ensures Valid() ==> d.Valid()
    {
      Db(data[key := v], ttl - {key})
    }
  }

  function EmptyDb<V>(): (d: Db<V>)
    ensures d.Valid() && d.data == map[]
  {
    Db(map[], map[])
  }

  /** HGETALL: the fields of a hash; a missing key reads as no fields. */
  function HashOf(db: Db<Hash>, key: string): Hash {
    if key in db.data then db.data[key] else map[]
  }

  /** Redis never keeps a hash with no fields. */
  ghost predicate NoEmptyHashes(db: Db<Hash>) {
    forall k :: k in db.data ==> db.data[k] != map[]
  }

  /**
   * HSET/HMSET: the given fields are written over the hash, creating it if
   * needed; other fields, other keys and the time-to-live are kept.
   */
  function SetFields(db: Db<Hash>, key: string, fields: Hash): (d: Db<Hash>)
    ensures fields != map[] ==> key in d.data && d.data[key] == HashOf(db, key) + fields
    ensures forall k :: k != key ==> HashOf(d, k) == HashOf(db, k)
    ensures d.data.Keys == db.data.Keys + (if fields == map[] then {} else {key})
    ensures d.ttl == db.ttl
    ensures db.Valid() ==> d.Valid()
    ensures NoEmptyHashes(db) ==> NoEmptyHashes(d)
  {
    if fields == map[] then db else Db(db.data[key := HashOf(db, key) + fields], db.ttl)
  }

  /**
   * HDEL: the named fields are removed; a hash left with no fields is deleted
   * together with its time-to-live.
   */
  function RemoveFields(db: Db<Hash>, key: string, names: set<string>): (d: Db<Hash>)
    ensures HashOf(d, key) == HashOf(db, key) - names
    ensures forall k :: k != key ==> HashOf(d, k) == HashOf(db, k)
    ensures d.data.Keys <= db.data.Keys
    ensures forall k :: k in d.data ==> k in db.data && (k in d.ttl <==> k in db.ttl) && (k in d.ttl ==> d.ttl[k] == db.ttl[k])
    ensures db.Valid() ==> d.Valid()
    ensures NoEmptyHashes(db) ==> NoEmptyHashes(d)
  {
    if key !in db.data then db
    else
      var h := db.data[key] - names;
      if h == map[] then db.Delete(key) else Db(db.data[key := h], db.ttl)
  }

  /** SMEMBERS: the members of a set; a missing key reads as the empty set. */
  function Members(sets: map<string, set<string>>, key: string): set<string> {
    if key in sets then sets[key] else {}
  }

  /** SADD of one member. */
  function SetAdd(sets: map<string, set<string>>, key: string, member: string): (r: map<string, set<string>>)
    ensures Members(r, key) == Members(sets, key) + {member}
    ensures forall k :: k != key ==> Members(r, k) == Members(sets, k)
  {
    sets[key := Members(sets, key) + {member}]
  }

  /** SREM of one member; a set left empty is deleted. */
  function SetRemove(sets: map<string, set<string>>, key: string, member: string): (r: map<string, set<string>>)
    ensures Members(r, key) == Members(sets, key) - {member}
    ensures forall k :: k != key ==> Members(r, k) == Members(sets, k)
  {
    var s := Members(sets, key) - {member};
    if s == {} then sets - {key} else sets[key := s]
  }

  /**
   * LRANGE list start stop: both ends inclusive; a negative index counts
   * from the end; an end past the list is clamped to its last element.
   */
  function Range<T>(list: seq<T>, start: int, stop: int): (r: seq<T>)
    ensures |r| <= |list|
    ensures 0 <= start <= stop + 1 && 0 <= stop < |list| ==> r == list[start..stop + 1]
    ensures 0 <= start && stop >= |list| ==> r == list[if start < |list| then start else |list|..]
    ensures start > stop >= 0 ==> r == []
  {
    var n := |list|;
    var s := if start < 0 then (if n + start < 0 then 0 else n + start) else start;
    var e0 := if stop < 0 then n + stop else stop;
    var e := if e0 > n - 1 then n - 1 else e0;
    if s > e || s >= n then [] else list[s..e + 1]
  }

  /** LRANGE 0 -1: the elements of a list; a missing key reads as the empty list. */
  function ListOf(lists: map<string, seq<string>>, key: string): seq<string> {
    if key in lists then lists[key] else []
  }

  /** RPUSH of one element. */
  function ListPush(lists: map<string, seq<string>>, key: string, x: string): (r: map<string, seq<string>>)
    ensures ListOf(r, key) == ListOf(lists, key) + [x]
    ensures forall k :: k != key ==> ListOf(r, k) == ListOf(lists, k)
  {
    lists[key := ListOf(lists, key) + [x]]
  }

  /** A list with every element equal to `x` taken out and the others kept in order. */
  function Without(list: seq<string>, x: string): (r: seq<string>)
    ensures x !in r
    ensures forall y :: y != x ==> (y in r <==> y in list)
    ensures multiset(r) == multiset(list)[x := 0]
    ensures |r| <= |list|
  {
    if list == [] then []
    else
      assert list == [list[0]] + list[1..];
      (if list[0] == x then [] else [list[0]]) + Without(list[1..], x)
  }

  /** LREM works element by element: removing from a concatenation removes from each part, in order. */
  lemma {:induction false} WithoutAppend(a: seq<string>, b: seq<string>, x: string)
    ensures Without(a + b, x) == Without(a, x) + Without(b, x)
  {
    if a == [] {
      assert a + b == b;
    } else {
      assert (a + b)[1..] == a[1..] + b;
      WithoutAppend(a[1..], b, x);
    }
  }

  /** A list that does not hold `x` is left as it is. */
  lemma {:induction false} WithoutAbsent(list: seq<string>, x: string)
    requires x !in list
    ensures Without(list, x) == list
  {
    if list != [] {
      WithoutAbsent(list[1..], x);
    }
  }

  /** LREM key 0 x: removes every occurrence of `x`; a list left empty is deleted. */
  function ListRemove(lists: map<string, seq<string>>, key: string, x: string): (r: map<string, seq<string>>)
    ensures ListOf(r, key) == Without(ListOf(lists, key), x)
    ensures forall k :: k != key ==> ListOf(r, k) == ListOf(lists, k)
  {
    var l := Without(ListOf(lists, key), x);
    if l == [] then lists - {key} else lists[key := l]
  }

  /** GET of a counter read with int.TryParse: a missing key reads as 0. */
  function CounterOf(counters: map<string, int>, key: string): int {
    if key in counters then counters[key] else 0
  }

  /** INCRBY (DECR is a delta of -1); a missing counter starts from 0. */
  function Increment(counters: map<string, int>, key: string, delta: int): (r: map<string, int>)
    ensures CounterOf(r, key) == CounterOf(counters, key) + delta
    ensures forall k :: k != key ==> CounterOf(r, k) == CounterOf(counters, k)
  {
    counters[key := CounterOf(counters, key) + delta]
  }
}
