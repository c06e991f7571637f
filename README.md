# Redis providers for ASP.NET, modelled in Dafny

This project models the ASP.NET providers of AspNetRedisProviders. Each provider keeps its state in Redis:

- **Locking session store** (`RedisSessionStateStoreProvider`): one Redis hash per session.
  - Fields: `data` (the serialized item collection), `init` (the marker of a session created uninitialized), and `lockId`/`lockedAt` (the exclusive lock).
  - Operations: shared and exclusive reads, release, commit, removal, timeout reset and uninitialized creation.
- **Non-locking session store** (`NonLockingRedisSessionStateStoreProvider`): one Redis string per session. Nothing is locked, and the last write wins.
- **Role provider** (`RedisRoleProvider`): the set of role names plus two families of sets (the users of a role and the roles of a user), kept as a two-way index.
- **Membership provider** (`RedisMembershipProvider`):
  - one hash per user, keyed by the lower-cased user name;
  - string keys from e-mail address and provider key to user name;
  - a list of user names and a user counter;
  - failed-attempt counting with a time window and lock-out;
  - password encoding, validation, password change and deletion;
  - the paged listing of users.
- **Profile provider** (`RedisProfileProvider`):
  - one hash per profile, holding the serialized property values and the activity and update dates;
  - the paged listing of profiles through `name:isAuthenticated` entries in one of three lists.
- **Connection handling** (the `GetConnection` method that every provider repeats): create the shared connection on first use; hand it out as it is while it is opening or open; replace it with a new one when it is closing or closed; open it when it is brand new ("shiny"), whether it was just created or was left shiny by an earlier call.

How the model is built:

- **Redis.** Redis is a value (`Store`):
  - keys with hash, string, set, list and counter values;
  - expiry times in seconds;
  - a hash that loses its last field and a set that loses its last member disappear.
- **Providers.** Each provider is a class. Its store and its connection manager are fields, and its public operations are methods whose contracts tie the new state and the result to pure specification functions (`Read`, `Commit`, `Enroll`, `Validate`, `WriteProfile`, …). The properties the providers promise are lemmas about those functions.
- **Outside inputs become parameters.** This covers:
  - the clock (`now`, in 100 ns ticks);
  - `Guid.NewGuid` (`freshLock`, `freshKey`);
  - the password validation event (`cancelled`);
  - whether the socket opens (`OpenOutcome`).
- **Error reporting.** An exception inside a `try` becomes an `Err` result. When `writeExceptionsToEventLog` is set, it surfaces as the generic provider exception instead (`Common.Surface`).

Three behaviours of the source worth knowing:

- **Exclusive read of an unlocked session.** The read returns the data with `locked == false` and hands out a fresh lock token (`LockingSession.ExclusiveReadLocks`).
- **Session keys.** Session keys `application:{app}:session:{id}` are not collision-free across applications: an application name that contains `:session:` collides with another (`SessionState.KeyCollidesAcrossApplications`).
- **Releasing a lock.** Releasing removes the fields `lockId` and `lockAt`, while the lock time is stored under `lockedAt`. So the lock time stays behind after a release (`LockingSession.ReleaseUnlocks`). It is harmless, because only `lockId` is consulted.

## Model

| member | source | states |
|---|---|---|
| Common.Surface | RedisProviders/RedisSessionStateStoreProvider.cs:154-162 | with the event-log flag every failure becomes the generic provider exception, otherwise it is rethrown unchanged |
| Common.SurfaceResult | RedisProviders/RedisRoleProvider.cs:64-77 | a successful result passes through, a failure is surfaced as by `Surface` |
| Common.Wrap32 | RedisProviders/RedisSessionStateStoreProvider.cs:210 | unchecked 32-bit int arithmetic (`timeout * 60`, `pageIndex * pageSize`): the result lies in the 32-bit range, is congruent to the exact value modulo 2^32, and equals it when the exact value fits |
| Common.Somes | RedisProviders/RedisMembershipProvider.cs:292-298 | the values of the present entries: never more than there are entries, and as many exactly when every entry is present |
| Common.SomesAppend | RedisProviders/RedisMembershipProvider.cs:289-298 | taking the present values distributes over concatenation, so a listing can be extended one entry at a time |
| Text.Lower | RedisProviders/RedisMembershipProvider.cs:822-825 | string.ToLower on ASCII letters: the same length, each character lower-cased |
| Text.Upper | RedisProviders/RedisSessionStateStoreProvider.cs:57-63 | string.ToUpper on ASCII letters: the same length, each character upper-cased |
| Text.LowerIdempotent | RedisProviders/RedisMembershipProvider.cs:822-825 | lower-casing twice is lower-casing once |
| Text.LowerIgnoresCase | RedisProviders/RedisMembershipProvider.cs:822-825 | two names that differ only in letter case lower-case alike |
| Text.TrimStart | RedisProviders/RedisMembershipProvider.cs:81-85 | the text left is a suffix of the input and does not start with white space |
| Text.TrimEnd | RedisProviders/RedisMembershipProvider.cs:81-85 | the text left is a prefix of the input and does not end with white space |
| Text.TrimStartCutsWhiteSpace | RedisProviders/RedisMembershipProvider.cs:81-85 | everything TrimStart cuts off is white space |
| Text.TrimEndCutsWhiteSpace | RedisProviders/RedisMembershipProvider.cs:81-85 | everything TrimEnd cuts off is white space |
| Text.Trim | RedisProviders/RedisMembershipProvider.cs:81-85 | string.Trim: the result neither starts nor ends with white space, and a text without white space at its ends comes back unchanged |
| Text.TrimKeepsMiddle | RedisProviders/RedisMembershipProvider.cs:81-85 | what Trim keeps occurs in the input with only white space before and after it |
| Text.TrimOffset | RedisProviders/RedisMembershipProvider.cs:81-85 | the offset at which what Trim keeps starts, with only white space before it and after it |
| Text.TrimEndOfSuffix | RedisProviders/RedisMembershipProvider.cs:81-85 | trimming the end of a suffix cuts off white space of the whole text only |
| Text.TrimStartSkips | RedisProviders/RedisMembershipProvider.cs:81-85 | a leading white-space character is dropped by TrimStart |
| Text.TrimEndSkips | RedisProviders/RedisMembershipProvider.cs:81-85 | a trailing white-space character is dropped by TrimEnd |
| Text.TrimPadded | RedisProviders/RedisMembershipProvider.cs:81-85 | a space before and a tab after a text with no white space at its ends are both removed |
| Text.SubstringBasics | RedisProviders/RedisRoleProvider.cs:266-285 | every string contains the empty string and itself |
| Text.SubstringAt | RedisProviders/RedisRoleProvider.cs:266-285 | an occurrence at an offset witnesses containment |
| Config.GetConfigValue | RedisProviders/RedisMembershipProvider.cs:113-116 | the default is used exactly when the configured value is null or empty; otherwise the configured value is returned |
| Config.ParseBool | RedisProviders/RedisMembershipProvider.cs:81-85 | Convert.ToBoolean: true exactly when the trimmed text is "true" in any letter case, false exactly when it is "false" in any letter case; anything else fails with a format error |
| Config.ParseBoolLiterals | RedisProviders/RedisMembershipProvider.cs:81-85 | the default texts "true" and "false" parse to their values |
| Config.ParseBoolPadded | RedisProviders/RedisMembershipProvider.cs:81-85 | white space around a flag does not change how it parses |
| Config.UpperIsTrue | RedisProviders/RedisSessionStateStoreProvider.cs:57-63 | the flag is on iff the value is present and upper-cases to "TRUE" |
| Config.ParseInt | RedisProviders/RedisMembershipProvider.cs:76-79 | Convert.ToInt32 and int.Parse: a result is always within the 32-bit range; a failure is a format error or, for a well-formed value out of range, an overflow (`ParseIntShape` says which) |
| Config.ParseIntShape | RedisProviders/RedisMembershipProvider.cs:76-79 | after trimming and an optional sign there must be a non-empty run of digits, else a format error; such a run gives its signed value when that fits in 32 bits, and an overflow otherwise |
| Config.ParseIntDigits | RedisProviders/RedisMembershipProvider.cs:76-79 | a plain run of digits within the 32-bit range parses to the number it denotes |
| Config.ParseIntTrimmed | RedisProviders/RedisMembershipProvider.cs:76-79 | a trimmed, optionally signed run of digits within the 32-bit range parses to its signed value |
| Config.SignLength | RedisProviders/RedisMembershipProvider.cs:76-79 | the length of the optional leading sign never exceeds the text |
| Config.Decimal | RedisProviders/RedisMembershipProvider.cs:76-79 | int.ToString of a natural number: a non-empty text that starts and ends with a digit |
| Config.DecimalValue | RedisProviders/RedisMembershipProvider.cs:76-79 | the decimal text of a natural number is all digits and denotes that number |
| Config.IntText | RedisProviders/RedisMembershipProvider.cs:76-79 | int.ToString: a non-empty text with no white space at either end |
| Config.IntTextShape | RedisProviders/RedisMembershipProvider.cs:76-79 | the text of an integer is trimmed, and after its sign come digits whose signed value is the integer |
| Config.ParseIntRoundTrip | RedisProviders/RedisMembershipProvider.cs:76-79 | every 32-bit value parses back from its decimal text, negative values included |
| Config.ParseIntOverflow | RedisProviders/RedisMembershipProvider.cs:76-79 | the decimal text of every value outside the 32-bit range fails with an overflow, not a format error |
| Config.ConfiguredInt | RedisProviders/RedisRoleProvider.cs:43-44 | a missing or empty numeric setting leaves the provider default; otherwise it succeeds and fails exactly as the conversion of the configured text does |
| Config.ApplicationName | RedisProviders/RedisSessionStateStoreProvider.cs:52 | the application name is the virtual path exactly when the setting is missing, empty or equal to it; otherwise it is the setting |
| Codec.Serialize | RedisProviders/RedisSessionStateStoreProvider.cs:300-314 | the blob written for a collection is never empty and deserializes back to the same collection |
| Codec.Deserialize | RedisProviders/RedisSessionStateStoreProvider.cs:316-332 | an empty blob reads as the empty collection; a non-empty blob that is not a serialized collection fails |
| Codec.NewStoreData | RedisProviders/RedisSessionStateStoreProvider.cs:265-271 | CreateNewStoreData: an empty item collection with the given timeout |
| Store.Db.Delete | RedisProviders/RedisSessionStateStoreProvider.cs:233 | DEL removes the key and its expiry, nothing else |
| Store.Db.Expire | RedisProviders/RedisSessionStateStoreProvider.cs:210 | EXPIRE with a positive time sets the expiry of an existing key and keeps its value; with a time that is not positive it deletes the key; a missing key is left as it is |
| Store.Db.Put | RedisProviders/NonLockingRedisSessionStateStoreProvider.cs:127 | SET replaces the value and clears the expiry |
| Store.SetFields | RedisProviders/RedisSessionStateStoreProvider.cs:147 | HMSET merges the fields into the key's hash, leaving every other key's hash and every expiry unchanged |
| Store.RemoveFields | RedisProviders/RedisSessionStateStoreProvider.cs:176 | HDEL removes exactly the named fields; a hash left empty disappears |
| Store.SetAdd | RedisProviders/RedisRoleProvider.cs:185-186 | SADD adds the member to that key's set only |
| Store.SetRemove | RedisProviders/RedisRoleProvider.cs:210-211 | SREM removes the member from that key's set only |
| Store.Range | RedisProviders/RedisMembershipProvider.cs:285 | LRANGE start stop returns the elements from start to stop inclusive, clipped to the list |
| Store.ListPush | RedisProviders/RedisMembershipProvider.cs:218 | RPUSH appends to that key's list only |
| Store.Without | RedisProviders/RedisMembershipProvider.cs:250 | the list with every copy of one element taken out: the element's count drops to zero and every other element keeps its number of copies |
| Store.WithoutAppend | RedisProviders/RedisMembershipProvider.cs:250 | removal distributes over concatenation, so the kept elements stay in their order |
| Store.WithoutAbsent | RedisProviders/RedisMembershipProvider.cs:250 | removing an element the list does not hold leaves the list as it is |
| Store.ListRemove | RedisProviders/RedisMembershipProvider.cs:250 | LREM removes every occurrence from that key's list only |
| Store.Increment | RedisProviders/RedisMembershipProvider.cs:219 | INCR adds to that key's counter only |
| Paging.PageAsWritten | RedisProviders/RedisMembershipProvider.cs:283-285 | the page as requested: LRANGE from pageIndex*pageSize to pageIndex*pageSize+pageSize |
| Paging.PageAsWrittenOneTooMany | RedisProviders/RedisMembershipProvider.cs:283-285 | when the list is long enough, the page as written holds pageSize+1 entries |
| Paging.PageAsWrittenExample | RedisProviders/RedisProfileProvider.cs:129-130 | page 0 of size 1 of ["a","b","c"] returns ["a","b"] |
| Paging.PageSizeZero | RedisProviders/RedisMembershipProvider.cs:283-285 | with page size 0 the request as written returns the first entry, the end `start + pageSize - 1` alone would return the whole list, and the corrected page is empty |
| Paging.Page | RedisProviders/RedisProfileProvider.cs:147 | the corrected page: LRANGE to one before the next page's start, and empty when the page size is zero or less |
| Paging.PageBounds | RedisProviders/RedisMembershipProvider.cs:283-284 | for in-range arguments, the start and end offsets are computed without 32-bit overflow |
| Paging.PageIsSlice | RedisProviders/RedisMembershipProvider.cs:283-285 | the corrected page is exactly the slice [pageIndex*pageSize, (pageIndex+1)*pageSize) of the list and holds at most pageSize entries |
| Paging.SlicesJoin | RedisProviders/RedisProfileProvider.cs:129-130 | two adjacent slices cut to the list join into one |
| Paging.PagesTile | RedisProviders/RedisProfileProvider.cs:129-130 | two consecutive corrected pages join into the slice spanning both: no entry is skipped or repeated |
| Connection.Acquire | RedisProviders/RedisSessionStateStoreProvider.cs:349-387 | GetConnection: a missing connection is created; an opening or open one is handed out as it is; a closing or closed one is replaced; a shiny one is opened. A failed open raises ConnectionFailed for a socket error and the other failure otherwise, and leaves the connection in whatever state the failure reports |
| Connection.AcquireStable | RedisProviders/RedisMembershipProvider.cs:852-891 | once a connection was obtained, asking again gives the same connection |
| Connection.AcquireRecovers | RedisProviders/RedisRoleProvider.cs:310-347 | after a failed open that leaves the connection closing or closed, the next call constructs a fresh connection and opens it |
| Connection.AcquireRetriesInPlace | RedisProviders/RedisSessionStateStoreProvider.cs:373-384 | after a failed open that leaves the connection shiny, the next call opens that same connection again and constructs nothing |
| Connection.AcquireHandsOutUnopened | RedisProviders/RedisSessionStateStoreProvider.cs:357-358 | after a failed open that leaves the connection opening or open, the next call hands it out without opening it |
| Connection.Guarded | RedisProviders/RedisProfileProvider.cs:253-291 | a failed connection surfaces its failure and changes nothing; otherwise the operation's own outcome, surfaced |
| Connection.Manager.GetConnection | RedisProviders/NonLockingRedisSessionStateStoreProvider.cs:256-294 | the shared handle becomes the one `Acquire` selects and the result is `Acquire`'s |
| Connection.Manager.constructor | RedisProviders/RedisSessionStateStoreProvider.cs:28 | no connection yet, and nothing constructed |
| SessionState.Key | RedisProviders/RedisSessionStateStoreProvider.cs:344-347 | the session key is application:{app}:session:{id} |
| SessionState.KeyInjective | RedisProviders/NonLockingRedisSessionStateStoreProvider.cs:251-254 | within one application distinct session ids have distinct keys |
| SessionState.KeyCollidesAcrossApplications | RedisProviders/RedisSessionStateStoreProvider.cs:344-347 | two different (application, id) pairs can share a key |
| SessionState.TtlSeconds | RedisProviders/RedisSessionStateStoreProvider.cs:210 | the expiry is the timeout in minutes times 60, as a 32-bit value |
| LockingSession.Initialize | RedisProviders/RedisSessionStateStoreProvider.cs:32-64 | application name with the virtual-path fallback; the event-log flag only for "TRUE" in any case, off when missing |
| LockingSession.FreshItem | RedisProviders/RedisSessionStateStoreProvider.cs:152 | a fresh empty item, not locked, no token |
| LockingSession.Read | RedisProviders/RedisSessionStateStoreProvider.cs:87-163 | a locked session reports locked, its token and age, and writes nothing; a marked session consumes the marker and gives a fresh item with InitializeItem; data is decoded, and an exclusive read writes a new lock; a missing key gives a fresh item; other sessions are untouched |
| LockingSession.Release | RedisProviders/RedisSessionStateStoreProvider.cs:165-189 | the lock fields are removed iff the presented token matches the stored one; a null token against a held lock fails; otherwise nothing changes |
| LockingSession.Commit | RedisProviders/RedisSessionStateStoreProvider.cs:191-222 | the lock check of the release; then, whenever there is a collection and whether or not the token matched, the data is written and the expiry set, or, with an expiry that is not positive, the session deleted; the init marker is never touched while the session stays; other sessions are untouched |
| LockingSession.WriteData | RedisProviders/RedisSessionStateStoreProvider.cs:201-211 | HSET of "data" and EXPIRE: with a positive expiry the hash gets the serialized data and the expiry is set; otherwise the session is deleted; other sessions are untouched |
| LockingSession.Remove | RedisProviders/RedisSessionStateStoreProvider.cs:224-245 | the session is deleted iff the presented token equals the stored one; a null token or a missing lock field fails |
| LockingSession.ResetTimeout | RedisProviders/RedisSessionStateStoreProvider.cs:247-263 | a positive expiry changes only the expiry of an existing session; one that is not positive deletes it; a missing session is left as it is |
| LockingSession.CreateUninitialized | RedisProviders/RedisSessionStateStoreProvider.cs:273-296 | the empty serialized collection and the init marker are written over the hash and the expiry set; an expiry that is not positive deletes the session at once; other sessions are untouched |
| LockingSession.LockingSessionStore.GetItem | RedisProviders/RedisSessionStateStoreProvider.cs:75-79 | a shared read, through the connection guard |
| LockingSession.LockingSessionStore.GetItemExclusive | RedisProviders/RedisSessionStateStoreProvider.cs:81-85 | an exclusive read, through the connection guard |
| LockingSession.LockingSessionStore.GetSessionStoreItem | RedisProviders/RedisSessionStateStoreProvider.cs:87-163 | the store and the result become those of `Read`, through the connection guard |
| LockingSession.LockingSessionStore.ReleaseLock | RedisProviders/RedisSessionStateStoreProvider.cs:169-178 | the lock check and removal shared by release and commit, equal to `Release` |
| LockingSession.LockingSessionStore.ReleaseItemExclusive | RedisProviders/RedisSessionStateStoreProvider.cs:165-189 | the store and result become those of `Release` |
| LockingSession.LockingSessionStore.SetAndReleaseItemExclusive | RedisProviders/RedisSessionStateStoreProvider.cs:191-222 | the store and result become those of `Commit` |
| LockingSession.LockingSessionStore.RemoveItem | RedisProviders/RedisSessionStateStoreProvider.cs:224-245 | the store and result become those of `Remove` |
| LockingSession.LockingSessionStore.ResetItemTimeout | RedisProviders/RedisSessionStateStoreProvider.cs:247-263 | the store becomes `ResetTimeout` of the old one |
| LockingSession.LockingSessionStore.CreateUninitializedItem | RedisProviders/RedisSessionStateStoreProvider.cs:273-296 | the store becomes `CreateUninitialized` of the old one |
| LockingSession.LockingSessionStore.constructor | RedisProviders/RedisSessionStateStoreProvider.cs:32-64 | the provider starts with the given settings, an empty session store and the given connection |
| LockingSession.ExclusiveReadLocks | RedisProviders/RedisSessionStateStoreProvider.cs:111-151 | an exclusive read of an unlocked session returns its data with a new token; every later read reports it locked by that token, with the age since the first read |
| LockingSession.SharedReadWritesNothing | RedisProviders/RedisSessionStateStoreProvider.cs:134-151 | a shared read of unlocked data returns it with no token and leaves the store as it was |
| LockingSession.ReleaseUnlocks | RedisProviders/RedisSessionStateStoreProvider.cs:165-189 | releasing with the token of the exclusive read unlocks the session for the next read; the lock time stays behind |
| LockingSession.ReleaseWithOtherTokenKeepsLock | RedisProviders/RedisSessionStateStoreProvider.cs:174-177 | a release with a different token changes nothing |
| LockingSession.CommitWritesDespiteForeignLock | RedisProviders/RedisSessionStateStoreProvider.cs:196-211 | a commit with another request's token writes the data and leaves that request's lock in place; with an expiry that is not positive the session is deleted instead |
| LockingSession.InitConsumedOnce | RedisProviders/RedisSessionStateStoreProvider.cs:122-132 | after uninitialized creation the first read gives InitializeItem and the second read the empty data with no action; with an expiry that is not positive the first read finds a fresh item |
| LockingSession.NewSessionRoundTrip | RedisProviders/RedisSessionStateStoreProvider.cs:273-296 | create, read, commit, read: the committed items come back with the new token; with an expiry that is not positive every write deletes the session, so the last read finds a fresh empty item |
| LockingSession.NewSessionDropped | RedisProviders/RedisSessionStateStoreProvider.cs:273-296 | the round trip with an expiry that is not positive ends in a fresh empty item |
| LockingSession.NewSessionKept | RedisProviders/RedisSessionStateStoreProvider.cs:273-296 | the round trip with a positive expiry returns the committed items, unlocked |
| LockingSession.CommitUnlocked | RedisProviders/RedisSessionStateStoreProvider.cs:191-222 | a commit with the null token on an unlocked session with a positive expiry succeeds and adds only "data" to the hash |
| LockingSession.RemoveNeedsToken | RedisProviders/RedisSessionStateStoreProvider.cs:224-245 | removal with the held token deletes the session, and removal with another token leaves it |
| NonLockingSession.Initialize | RedisProviders/NonLockingRedisSessionStateStoreProvider.cs:31-57 | application name with fallback; the event-log flag defaults to true and is parsed with Convert.ToBoolean, so other text fails |
| NonLockingSession.Read | RedisProviders/NonLockingRedisSessionStateStoreProvider.cs:85-115 | never locked and never a token; a missing session gives a fresh item, a present one its decoded collection |
| NonLockingSession.Commit | RedisProviders/NonLockingRedisSessionStateStoreProvider.cs:119-140 | with a collection the string is overwritten (it reads back as that collection) and the expiry set, or, with an expiry that is not positive, the session deleted; no collection changes nothing; other keys are untouched |
| NonLockingSession.CreateUninitialized | RedisProviders/NonLockingRedisSessionStateStoreProvider.cs:185-203 | the empty collection is written with an expiry and no marker; an expiry that is not positive deletes the session |
| NonLockingSession.NonLockingSessionStore.GetSessionStoreItem | RedisProviders/NonLockingRedisSessionStateStoreProvider.cs:85-115 | the result is `Read`'s, through the connection guard; nothing is written |
| NonLockingSession.NonLockingSessionStore.GetItem | RedisProviders/NonLockingRedisSessionStateStoreProvider.cs:73-77 | the same result as GetSessionStoreItem |
| NonLockingSession.NonLockingSessionStore.GetItemExclusive | RedisProviders/NonLockingRedisSessionStateStoreProvider.cs:79-83 | the same result as GetItem: nothing is locked |
| NonLockingSession.NonLockingSessionStore.ReleaseItemExclusive | RedisProviders/NonLockingRedisSessionStateStoreProvider.cs:117 | releasing does nothing: neither the store nor the connection changes |
| NonLockingSession.NonLockingSessionStore.SetAndReleaseItemExclusive | RedisProviders/NonLockingRedisSessionStateStoreProvider.cs:119-140 | the store becomes `Commit` of the old one, whatever token is presented |
| NonLockingSession.NonLockingSessionStore.RemoveItem | RedisProviders/NonLockingRedisSessionStateStoreProvider.cs:142-158 | the session key is deleted whatever token is presented |
| NonLockingSession.NonLockingSessionStore.ResetItemTimeout | RedisProviders/NonLockingRedisSessionStateStoreProvider.cs:160-176 | only the session's expiry changes |
| NonLockingSession.NonLockingSessionStore.CreateUninitializedItem | RedisProviders/NonLockingRedisSessionStateStoreProvider.cs:185-203 | the store becomes `CreateUninitialized` of the old one |
| NonLockingSession.NonLockingSessionStore.constructor | RedisProviders/NonLockingRedisSessionStateStoreProvider.cs:31-57 | the provider starts with the given settings, an empty session store and the given connection |
| NonLockingSession.LastWriterWins | RedisProviders/NonLockingRedisSessionStateStoreProvider.cs:119-140 | of two commits the second decides what a read returns: its items, or a fresh empty item when the expiry is not positive |
| NonLockingSession.ReadAfterRemove | RedisProviders/NonLockingRedisSessionStateStoreProvider.cs:142-158 | after removal a read gives a fresh empty item |
| NonLockingSession.ReadAfterCreate | RedisProviders/NonLockingRedisSessionStateStoreProvider.cs:185-203 | an uninitialized session reads back as an empty item with no action |
| Roles.KeyFamiliesDisjoint | RedisProviders/RedisRoleProvider.cs:295-308 | the roles key, a role's users key and a user's roles key never coincide |
| Roles.RoleUsersKeyInjective | RedisProviders/RedisRoleProvider.cs:300-303 | distinct roles have distinct user-set keys |
| Roles.UserRolesKeyInjective | RedisProviders/RedisRoleProvider.cs:305-308 | distinct users have distinct role-set keys |
| Roles.RolesKey | RedisProviders/RedisRoleProvider.cs:295-298 | the role names live under application:{app}:roles |
| Roles.RoleUsersKey | RedisProviders/RedisRoleProvider.cs:300-303 | a role's users live under application:{app}:role:{role}:users, the role name as given |
| Roles.UserRolesKey | RedisProviders/RedisRoleProvider.cs:305-308 | a user's roles live under application:{app}:user:{user}:roles, the user name as given |
| Roles.UsersInRole | RedisProviders/RedisRoleProvider.cs:226-244 | SMEMBERS of a role's users: the role's set, and, in an index with no empty sets, empty exactly when the role has no set |
| Roles.RolesForUser | RedisProviders/RedisRoleProvider.cs:80-98 | SMEMBERS of a user's roles: the user's set, and, in an index with no empty sets, empty exactly when the user has no set |
| Roles.SetMapsEqual | RedisProviders/RedisRoleProvider.cs:15-17 | two indexes of non-empty sets with the same members under every key are equal |
| Roles.Elements | RedisProviders/RedisRoleProvider.cs:246-264 | the members of a listing are the elements of the array |
| Roles.ViewsDetermine | RedisProviders/RedisRoleProvider.cs:15-17 | the role index is determined by the role names and its two membership views |
| Roles.UserHasRole | RedisProviders/RedisRoleProvider.cs:60-78 | true iff the user is in the role's user set; in a consistent index, iff the role is in the user's role set |
| Roles.RoleNamed | RedisProviders/RedisRoleProvider.cs:156-174 | true iff the role is in the set of role names |
| Roles.RoleCreated | RedisProviders/RedisRoleProvider.cs:100-116 | the role joins the set of role names and nothing else changes |
| Roles.CreateRoleIdempotent | RedisProviders/RedisRoleProvider.cs:105 | creating a role twice is creating it once |
| Roles.MatchingUsers | RedisProviders/RedisRoleProvider.cs:266-285 | the role's users whose names contain the match string; a null match string fails once there is a user to test |
| Roles.AddPair | RedisProviders/RedisRoleProvider.cs:185-186 | the pair is added in both directions and nothing else |
| Roles.RemovePair | RedisProviders/RedisRoleProvider.cs:210-211 | the pair is removed in both directions and nothing else |
| Roles.AddUsers | RedisProviders/RedisRoleProvider.cs:183-187 | one role's inner loop keeps the role names and keeps every set non-empty (what it adds is stated by `AddUsersMembers`) |
| Roles.AddPairs | RedisProviders/RedisRoleProvider.cs:176-199 | AddUsersToRoles keeps the role names and keeps every set non-empty (what it adds is stated by `AddPairsMembers`) |
| Roles.RemoveUsers | RedisProviders/RedisRoleProvider.cs:208-212 | one role's inner loop keeps the role names and keeps every set non-empty (what it removes is stated by `RemoveUsersMembers`) |
| Roles.RemovePairs | RedisProviders/RedisRoleProvider.cs:201-224 | RemoveUsersFromRoles keeps the role names and keeps every set non-empty (what it removes is stated by `RemovePairsMembers`) |
| Roles.StripRole | RedisProviders/RedisRoleProvider.cs:133-138 | the DeleteRole loop touches neither the role names nor the users of any role, and keeps every set non-empty (what it removes is stated by `StripRoleMembers`) |
| Roles.AddUsersMembers | RedisProviders/RedisRoleProvider.cs:183-187 | one role's inner loop adds exactly that role with each listed user |
| Roles.AddPairsMembers | RedisProviders/RedisRoleProvider.cs:176-199 | AddUsersToRoles adds exactly the cross product of roles and users, in both directions |
| Roles.RemoveUsersMembers | RedisProviders/RedisRoleProvider.cs:208-212 | one role's inner loop removes exactly that role with each listed user |
| Roles.RemovePairsMembers | RedisProviders/RedisRoleProvider.cs:201-224 | RemoveUsersFromRoles removes exactly the cross product, in both directions |
| Roles.StripRoleMembers | RedisProviders/RedisRoleProvider.cs:134-138 | the DeleteRole loop removes the role from exactly the listed users' role sets |
| Roles.RemoveRole | RedisProviders/RedisRoleProvider.cs:134-141 | the role leaves the role names and each member's role set, and its user set is deleted; other roles keep their users |
| Roles.StripRoleReachesRemoveRole | RedisProviders/RedisRoleProvider.cs:132-138 | whatever order SMEMBERS lists the users in, the loop reaches `RemoveRole` |
| Roles.RoleDeleted | RedisProviders/RedisRoleProvider.cs:118-154 | a populated role is refused with throwOnPopulatedRole and nothing changes; otherwise the role is removed and the answer is true |
| Roles.AddPairsConsistent | RedisProviders/RedisRoleProvider.cs:176-199 | adding users to roles keeps the two directions in agreement |
| Roles.RemovePairsConsistent | RedisProviders/RedisRoleProvider.cs:201-224 | removing users from roles keeps the two directions in agreement |
| Roles.RemoveRoleConsistent | RedisProviders/RedisRoleProvider.cs:118-154 | deleting a role keeps the two directions in agreement |
| Roles.CreateRoleConsistent | RedisProviders/RedisRoleProvider.cs:100-116 | creating a role keeps the two directions in agreement |
| Roles.AddPairsIdempotent | RedisProviders/RedisRoleProvider.cs:176-199 | adding the same users to the same roles twice is the same as once |
| Roles.RemoveUndoesAdd | RedisProviders/RedisRoleProvider.cs:201-224 | removing pairs just added restores an index that held none of them |
| Roles.PasswordAsWritten | RedisProviders/RedisRoleProvider.cs:45 | as written: a configured non-empty password is replaced by null |
| Roles.PasswordAsWrittenDropsPassword | RedisProviders/RedisRoleProvider.cs:45 | "secret" is dropped, and the empty string is kept |
| Roles.Password | RedisProviders/RedisSessionStateStoreProvider.cs:51 | corrected: null when missing or empty, otherwise the configured password |
| Roles.Initialize | RedisProviders/RedisRoleProvider.cs:34-58 | port (default 6379) and then db (default 0) are converted by int.Parse, and the first failure is the result; on success the application name is `ApplicationName`, the password is `Password` of the setting (null exactly when missing or empty), and the flag is on exactly when the setting is present and equals "TRUE" in any letter case |
| Roles.InitializeDefaultPort | RedisProviders/RedisRoleProvider.cs:43-44 | with neither port nor db configured, Initialize succeeds with port 6379 and db 0 |
| Roles.InitializeBadPort | RedisProviders/RedisRoleProvider.cs:43 | a port "abc" fails Initialize with a format error |
| Roles.Listing | RedisProviders/RedisRoleProvider.cs:226-264 | SMEMBERS as an array: each member exactly once |
| Roles.RoleStore.AddToRole | RedisProviders/RedisRoleProvider.cs:183-187 | the index becomes `AddUsers` of the old one |
| Roles.RoleStore.AddUsersToRoles | RedisProviders/RedisRoleProvider.cs:176-199 | through the connection guard, the index becomes `AddPairs` of the old one |
| Roles.RoleStore.RemoveFromRole | RedisProviders/RedisRoleProvider.cs:208-212 | the index becomes `RemoveUsers` of the old one |
| Roles.RoleStore.RemoveUsersFromRoles | RedisProviders/RedisRoleProvider.cs:201-224 | through the connection guard, the index becomes `RemovePairs` of the old one |
| Roles.RoleStore.DeleteRole | RedisProviders/RedisRoleProvider.cs:118-154 | through the connection guard, the outcome is `RoleDeleted` |
| Roles.RoleStore.CreateRole | RedisProviders/RedisRoleProvider.cs:100-116 | through the connection guard, the index becomes `RoleCreated` |
| Roles.RoleStore.GetAllRoles | RedisProviders/RedisRoleProvider.cs:246-264 | through GetConnection, every role name exactly once, and the index unchanged; a failed connection surfaces through the catch |
| Roles.RoleStore.GetUsersInRole | RedisProviders/RedisRoleProvider.cs:226-244 | through GetConnection, every user of the role exactly once (none for a role without users), and the index unchanged |
| Roles.RoleStore.IsUserInRole | RedisProviders/RedisRoleProvider.cs:60-78 | through GetConnection and the catch, the answer is `UserHasRole`, and the index is unchanged |
| Roles.RoleStore.RoleExists | RedisProviders/RedisRoleProvider.cs:156-174 | through GetConnection and the catch, the answer is `RoleNamed`, and the index is unchanged |
| Roles.RoleStore.FindUsersInRole | RedisProviders/RedisRoleProvider.cs:266-285 | through GetConnection and the catch, every user `MatchingUsers` selects exactly once; a null match string against a populated role surfaces as the catch makes it; the index is unchanged |
| Roles.RoleStore.GetRolesForUser | RedisProviders/RedisRoleProvider.cs:80-98 | through GetConnection, every role of the user exactly once (none for a user without roles), and the index unchanged |
| Roles.RoleStore.constructor | RedisProviders/RedisRoleProvider.cs:34-58 | the provider starts with the given settings, an empty index and the given connection |
| MembershipRecord.UserKey | RedisProviders/RedisMembershipProvider.cs:822-825 | the user key is application:{app}:user:{lower-cased name} |
| MembershipRecord.UserKeyIgnoresCase | RedisProviders.Tests/MembershipProviderTests.cs:36-40 | names differing only in case share a key |
| MembershipRecord.UserKeyInjective | RedisProviders/RedisMembershipProvider.cs:822-825 | names with the same key are equal after lower-casing |
| MembershipRecord.EmailKey | RedisProviders/RedisMembershipProvider.cs:827-830 | the e-mail lookup lives under application:{app}:user:email:{email} |
| MembershipRecord.ProviderKey | RedisProviders/RedisMembershipProvider.cs:832-835 | the provider-key lookup lives under application:{app}:user:providerkey:{key} |
| MembershipRecord.UsersKey | RedisProviders/RedisMembershipProvider.cs:837-840 | the users list lives under application:{app}:users |
| MembershipRecord.UsersCountKey | RedisProviders/RedisMembershipProvider.cs:842-845 | the user count lives under application:{app}:usercount |
| MembershipRecord.UsersOnlineKey | RedisProviders/RedisMembershipProvider.cs:847-850 | the online set lives under application:{app}:useronline |
| MembershipRecord.ListingKeysDistinct | RedisProviders/RedisMembershipProvider.cs:837-850 | the users list, the user count and the online set are three different keys, and none of them is a user's hash |
| MembershipRecord.UserKeyMeetsEmailKey | RedisProviders/RedisMembershipProvider.cs:822-830 | the hash of a user named "email:" followed by some text is the key of the e-mail lookup for that text lower-cased |
| MembershipRecord.OrEmpty | RedisProviders/RedisMembershipProvider.cs:793-821 | a null text field reads as the empty string |
| MembershipRecord.TextField | RedisProviders/RedisMembershipProvider.cs:778 | a text field reads iff present and textual; a missing field fails |
| MembershipRecord.FlagField | RedisProviders/RedisMembershipProvider.cs:783 | a boolean field reads iff present and boolean |
| MembershipRecord.CountField | RedisProviders/RedisMembershipProvider.cs:631 | a counter field reads iff present and an integer |
| MembershipRecord.TimeField | RedisProviders/RedisMembershipProvider.cs:785 | a date field reads iff present and a date |
| MembershipRecord.TokenField | RedisProviders/RedisMembershipProvider.cs:779 | a Guid field reads iff present and a Guid |
| MembershipRecord.ParsePasswordFormat | RedisProviders/RedisMembershipProvider.cs:85-102 | missing means Hashed; "Hashed", "Encrypted" and "Clear" select their format; anything else is refused with "Password format not supported." |
| MembershipRecord.EncodePassword | RedisProviders/RedisMembershipProvider.cs:715-736 | a Clear password is stored as given |
| MembershipRecord.CheckPassword | RedisProviders/RedisMembershipProvider.cs:697-713 | Clear compares as given; Hashed compares the encoding of the attempt with the stored value |
| MembershipRecord.EncodedPasswordChecks | RedisProviders/RedisMembershipProvider.cs:697-736 | a password checks against its own encoding in every format |
| MembershipRecord.CreateUserDictionary | RedisProviders/RedisMembershipProvider.cs:793-821 | exactly the record fields: zero counters, unlocked, every date the creation date, absent texts as "", key, name and encoded password |
| MembershipRecord.UserFromRecord | RedisProviders/RedisMembershipProvider.cs:775-791 | the read succeeds exactly when all twelve indexed fields are present with their kinds (`UserReadable`); each of the twelve user fields is the stored value of its field; a failure names a missing or malformed field among them, and a missing Username fails first |
| MembershipRecord.RecordRoundTrip | RedisProviders/RedisMembershipProvider.cs:775-821 | the record CreateUser writes reads back as the user it describes |
| MembershipRecord.OtherFieldKeepsUser | RedisProviders/RedisMembershipProvider.cs:775-791 | a field the reader does not look at does not change the user read |
| MembershipRecord.LoginDateRead | RedisProviders/RedisMembershipProvider.cs:786 | a written LastLoginDate is the login date read back |
| MembershipRecord.PasswordChangeDateRead | RedisProviders/RedisMembershipProvider.cs:788 | a written LastPasswordChangeDate is the password-change date read back |
| MembershipRecord.FailureFields | RedisProviders/RedisMembershipProvider.cs:610-694 | outside the window the count restarts at 1; inside it the count grows, and reaching the maximum locks the user out; missing fields fail |
| MembershipRecord.FailureCountBounded | RedisProviders/RedisMembershipProvider.cs:642-683 | after one failure the count is between 1 and the old count plus one |
| MembershipRecord.RepeatedFailures | RedisProviders/RedisMembershipProvider.cs:610-694 | repeated failures keep a readable counter |
| MembershipRecord.RepeatedFailuresCount | RedisProviders/RedisMembershipProvider.cs:668-682 | within the window, k failures from zero count k while below the maximum |
| MembershipRecord.LockoutAfterMaxAttempts | RedisProviders/RedisMembershipProvider.cs:670-674 | maxAttempts+1 failures within the window lock the user out |
| MembershipRecord.LateFailureRestarts | RedisProviders/RedisMembershipProvider.cs:644-656 | a failure after the window restarts the count at 1 with the window starting now |
| MembershipRecord.PairValue | RedisProviders/RedisMembershipProvider.cs:763 | Convert.ToByte(pair, 16): two hex digits give their byte, a '+' before one hex digit gives that digit; a leading '-' is an argument error, any other pair a format error |
| MembershipRecord.SignedPairs | RedisProviders/RedisMembershipProvider.cs:763 | "+f" converts to 15, "-1" is refused as a negative value, "0x" is a format error |
| MembershipRecord.HexDecode | RedisProviders/RedisMembershipProvider.cs:759-765 | the byte count is half the text length |
| MembershipRecord.HexDecodeSucceeds | RedisProviders/RedisMembershipProvider.cs:759-765 | decoding succeeds iff every pair converts (two hex digits, or '+' and one), and byte i is the value of pair i |
| MembershipRecord.HexRoundTrip | RedisProviders/RedisMembershipProvider.cs:759-765 | the hex text of a byte string decodes back to it |
| MembershipRecord.PairOfByte | RedisProviders/RedisMembershipProvider.cs:759-765 | the two hex digits a byte is written as read back as that byte |
| MembershipRecord.HexToByte | RedisProviders/RedisMembershipProvider.cs:759-765 | the array loop succeeds iff every pair converts and fills the array with `HexDecode`'s bytes |
| MembershipRecord.HexValue | RedisProviders/RedisMembershipProvider.cs:759-765 | a hex digit is worth less than 16 |
| MembershipRecord.HexDigitValue | RedisProviders/RedisMembershipProvider.cs:759-765 | the digit written for a value below 16 reads back as that value |
| MembershipRecord.HexEncode | RedisProviders/RedisMembershipProvider.cs:759-765 | two hex digits per byte |
| Membership.Setting | RedisProviders/RedisMembershipProvider.cs:113-116 | a missing or empty setting gives the default, otherwise the configured value |
| Membership.Initialize | RedisProviders/RedisMembershipProvider.cs:58-111 | succeeds exactly when every integer and boolean setting converts, the format is supported, and an auto-generated key is not combined with Hashed or Encrypted; an unsupported format and the auto-generated key give their own messages; the application name, the format, the four integers (as `Limits` converts them), the expression and the five flags (as `Flags` converts them) are those of the configuration |
| Membership.Assemble | RedisProviders/RedisMembershipProvider.cs:76-110 | the first conversion that failed, in the order Initialize converts, is the failure; then the machine-key check; otherwise every converted value lands in its own setting |
| Membership.Limits | RedisProviders/RedisMembershipProvider.cs:76-79 | the four integer settings with their defaults "5", "10", "1" and "7": all convert exactly when each does, and each is its own conversion |
| Membership.Flags | RedisProviders/RedisMembershipProvider.cs:81-85 | the five boolean settings with their defaults: all convert exactly when each does, and each is its own conversion |
| Membership.DigitDefault | RedisProviders/RedisMembershipProvider.cs:76-79 | a one-digit default converts to that digit |
| Membership.InitializeDefaults | RedisProviders/RedisMembershipProvider.cs:75-85 | an empty configuration gives the documented defaults |
| Membership.TenDefault | RedisProviders/RedisMembershipProvider.cs:77 | the two-digit default "10" converts to ten |
| Membership.FindUser | RedisProviders/RedisMembershipProvider.cs:381-406 | null iff the user's hash is empty; otherwise the user read from the record, or its failure |
| Membership.LookupKeysDistinct | RedisProviders/RedisMembershipProvider.cs:827-835 | an e-mail key is never a provider key |
| Membership.AddLookups | RedisProviders/RedisMembershipProvider.cs:217-221 | the provider key, and a non-empty e-mail, map to the user name; other string keys are unchanged |
| Membership.Enroll | RedisProviders/RedisMembershipProvider.cs:212-222 | the record is merged into the user's hash, the name is appended to the list, the counter is incremented and the lookups are set; nothing else changes |
| Membership.Register | RedisProviders/RedisMembershipProvider.cs:172-234 | cancelled gives InvalidPassword; a taken e-mail gives DuplicateEmail; an existing user gives DuplicateUserName; otherwise success with the enrolled user; no refusal changes anything |
| Membership.EnrollReadsBack | RedisProviders/RedisMembershipProvider.cs:233 | after enrolment, GetUser returns the new user |
| Membership.EnrolledRecord | RedisProviders/RedisMembershipProvider.cs:212-222 | the hash of a user enrolled where there was none is exactly the new record |
| Membership.Validate | RedisProviders/RedisMembershipProvider.cs:564-608 | true iff the record is present, approved, not locked out and the password checks, and then LastLoginDate is now; a wrong password records a failure; only the user's hash changes |
| Membership.RecordFailure | RedisProviders/RedisMembershipProvider.cs:610-694 | the user's hash gets the `FailureFields` update; nothing else changes |
| Membership.FalseOnError | RedisProviders/RedisMembershipProvider.cs:599-607 | with the event-log flag a failure becomes false; otherwise the outcome is unchanged |
| Membership.Unregister | RedisProviders/RedisMembershipProvider.cs:236-266 | the user's hash is deleted; with deleteAllRelatedData and a user found, exactly the e-mail and provider keys, the name's entries in the users list (LREM), one from the count and the online entry go too, and everything else in the directory is unchanged; the answer is true |
| Membership.WritePassword | RedisProviders/RedisMembershipProvider.cs:134-135 | the password and a date field are set in the user's hash only |
| Membership.PasswordChangeAsWritten | RedisProviders/RedisMembershipProvider.cs:118-147 | as written: true requires a valid old password and no cancellation, and then the date goes to LastPasswordChangedDate |
| Membership.PasswordChange | RedisProviders/RedisMembershipProvider.cs:118-147 | corrected: true iff the old password validates and the change is not cancelled; then the new encoding and LastPasswordChangeDate are written |
| Membership.UserAt | RedisProviders/RedisMembershipProvider.cs:292-298 | one listed name: null iff its hash is empty, else the user read from the record |
| Membership.CollectUsers | RedisProviders/RedisMembershipProvider.cs:289-300 | the listing fails unless every listed user reads, holds at most one user per name, and never two users whose names differ only in letter case: the second one fails the collection's Add |
| Membership.Found | RedisProviders/RedisMembershipProvider.cs:292-298 | the user a listed name reaches: some exactly when its hash is non-empty and reads back, and then that user |
| Membership.Reached | RedisProviders/RedisMembershipProvider.cs:289-298 | the users the listed names reach, never more than the names |
| Membership.ReachedSnoc | RedisProviders/RedisMembershipProvider.cs:289-298 | one more name adds its user, if it reaches one, at the end |
| Membership.NamesReadSnoc | RedisProviders/RedisMembershipProvider.cs:289-300 | every listed name reads exactly when every name but the last reads and the last does too |
| Membership.DistinctNamesPrefix | RedisProviders/RedisMembershipProvider.cs:289-300 | a run of users with distinct names has distinct names in every prefix |
| Membership.AddDistinct | RedisProviders/RedisMembershipProvider.cs:297 | a user whose name was not collected keeps the collected names distinct |
| Membership.CollectedNotDistinct | RedisProviders/RedisMembershipProvider.cs:297 | a user whose name was already collected, up to case, makes the names repeat |
| Membership.CollectUsersExact | RedisProviders/RedisMembershipProvider.cs:289-300 | the listing succeeds exactly when every listed name reads and no two users reached share a name up to case, and then it holds exactly the users reached, in list order |
| Membership.ListedTwiceRefused | RedisProviders/RedisMembershipProvider.cs:289-300 | a name listed twice whose hash holds a user fails the listing with a duplicate-key error |
| Membership.CollectStopsAtFailure | RedisProviders/RedisMembershipProvider.cs:289-300 | once a prefix of the names fails, the whole listing fails the same way |
| Membership.CollectStep | RedisProviders/RedisMembershipProvider.cs:289-300 | one more listed name extends the users by the one it reaches, skips an empty hash, or fails on an unreadable user or a name already collected |
| Membership.CollectUsersNoneSkipped | RedisProviders/RedisMembershipProvider.cs:294-298 | when every listed hash is non-empty, there is one user per name |
| Membership.ReadUsers | RedisProviders/RedisMembershipProvider.cs:289-300 | the loop over the listed names computes `CollectUsers` |
| Membership.AllUsers | RedisProviders/RedisMembershipProvider.cs:278-313 | the users of the page, never two with the same name up to case, at most one per listed name, and the total from the user counter; the page is the corrected one |
| Membership.AllUsersExact | RedisProviders/RedisMembershipProvider.cs:278-313 | the page succeeds exactly when every listed name reads and the users reached have distinct names, and then holds exactly those users, in list order |
| Membership.AllUsersPageSize | RedisProviders/RedisMembershipProvider.cs:283-285 | with the corrected page, at most pageSize users |
| Membership.CreateUserIgnoresCase | RedisProviders.Tests/MembershipProviderTests.cs:36-40 | once "abc" exists, creating "ABC" gives DuplicateUserName |
| Membership.CreateThenValidate | RedisProviders.Tests/MembershipProviderTests.cs:83-90 | a user just created approved validates with the password it was created with, provided an Encrypted format decrypts what it encrypts |
| Membership.LockedOutRefused | RedisProviders/RedisMembershipProvider.cs:581-582 | a locked-out user never validates and nothing changes |
| Membership.WrongPasswordCounted | RedisProviders/RedisMembershipProvider.cs:592-595 | a wrong password counts as a failed attempt |
| Membership.CreateThenDelete | RedisProviders/RedisMembershipProvider.cs:236-266 | creating and then deleting with related data leaves no user hash, no lookup keys, no list entry and the count where it was |
| Membership.DeleteOtherCaseKeepsListEntry | RedisProviders/RedisMembershipProvider.cs:242-250 | deleting "ABC" after creating "abc" removes the record (lower-cased key) but leaves "abc" in the user list (removed by the name as typed) |
| Membership.EnrollThenDeleteOtherCase | RedisProviders/RedisMembershipProvider.cs:242-250 | deleting a just-enrolled user under another spelling of the name removes the user hash but not the list entry |
| Membership.LowerAbc | RedisProviders.Tests/MembershipProviderTests.cs:36-40 | "ABC" lower-cases to "abc" |
| Membership.ChangePasswordAsWrittenKeepsDate | RedisProviders/RedisMembershipProvider.cs:135 | as written, the password-change date read back is unchanged after a successful change |
| Membership.WrittenChangeRead | RedisProviders/RedisMembershipProvider.cs:775-791 | the user after a login and the as-written password writes reads back with only the login date changed |
| Membership.ChangePasswordRecordsDate | RedisProviders/RedisMembershipProvider.cs:788 | corrected, the date read back is the time of the change |
| Membership.CorrectedChangeRead | RedisProviders/RedisMembershipProvider.cs:775-791 | with the change date under the field the record reads, both the login and the change date read back |
| Membership.MergeOne | RedisProviders/RedisMembershipProvider.cs:134-135 | HMSET of one field is HSET of that field |
| Membership.LoginRecorded | RedisProviders/RedisMembershipProvider.cs:584-590 | a successful validation records now as the last login |
| Membership.MembershipStore.CreateUser | RedisProviders/RedisMembershipProvider.cs:172-234 | through the connection guard, the directory and the status become those of `Register` |
| Membership.MembershipStore.WriteUser | RedisProviders/RedisMembershipProvider.cs:212-222 | the writes of CreateUser leave the directory as `Enroll` |
| Membership.MembershipStore.UpdateFailureCount | RedisProviders/RedisMembershipProvider.cs:610-694 | the directory becomes that of `RecordFailure` |
| Membership.MembershipStore.ValidateUser | RedisProviders/RedisMembershipProvider.cs:564-608 | through the connection guard, the outcome is `Validate` with `FalseOnError` |
| Membership.MembershipStore.DeleteUser | RedisProviders/RedisMembershipProvider.cs:236-266 | through the connection guard, the outcome is `Unregister` with `FalseOnError` |
| Membership.MembershipStore.ChangePassword | RedisProviders/RedisMembershipProvider.cs:118-147 | the outcome is `PasswordChange` |
| Membership.MembershipStore.GetAllUsers | RedisProviders/RedisMembershipProvider.cs:278-313 | through the connection guard, the result is `AllUsers` and nothing changes |
| Membership.MembershipStore.constructor | RedisProviders/RedisMembershipProvider.cs:58-111 | the provider starts with the given settings and cipher, an empty directory and the given connection |
| Profiles.ProfileKey | RedisProviders/RedisProfileProvider.cs:220-223 | the key is application:{app}:profile:{lower-cased name}:{authenticated or anonymous} |
| Profiles.AuthenticationSeparatesProfiles | RedisProviders/RedisProfileProvider.cs:220-223 | the authenticated and anonymous profiles of a name are different keys |
| Profiles.ProfileKeyInjective | RedisProviders/RedisProfileProvider.cs:220-223 | two names share a profile key iff they are equal after lower-casing |
| Profiles.ListKey | RedisProviders/RedisProfileProvider.cs:131-146 | Anonymous and Authenticated select their lists; All and any other option select the list of all profiles |
| Profiles.ListKeysDistinct | RedisProviders/RedisProfileProvider.cs:225-238 | the three profile lists are different keys |
| Profiles.ProfilesKey | RedisProviders/RedisProfileProvider.cs:225-228 | the list of all profile entries lives under application:{app}:profiles |
| Profiles.ProfilesAuthenticatedKey | RedisProviders/RedisProfileProvider.cs:230-233 | the list of authenticated entries lives under application:{app}:profiles:authenticated |
| Profiles.ProfilesAnonymousKey | RedisProviders/RedisProfileProvider.cs:235-238 | the list of anonymous entries lives under application:{app}:profiles:anonymous |
| Profiles.ProfilesCountKey | RedisProviders/RedisProfileProvider.cs:240-243 | the profile count lives under application:{app}:profilecount |
| Profiles.Initialize | RedisProviders/RedisProfileProvider.cs:34-54 | port, then db, are converted by Convert.ToInt32 and the first failure is the result; then the flag, default "true", is parsed by Convert.ToBoolean; on success the application name falls back to the virtual path and port and db are the configured values |
| Profiles.ActivityFields | RedisProviders/RedisProfileProvider.cs:199-207 | LastActivityDate is now, and LastUpdatedDate is now unless only activity is recorded |
| Profiles.PropertyValues | RedisProviders/RedisProfileProvider.cs:61-87 | one value per requested property: the stored JSON when present, none otherwise; a stored value that does not read fails |
| Profiles.ReadProfile | RedisProviders/RedisProfileProvider.cs:61-87 | the property values, then the activity date is written to the profile's hash |
| Profiles.NamesExact | RedisProviders/RedisProfileProvider.cs:95-101 | a name is among the property names iff some value carries it |
| Profiles.PropertyFields | RedisProviders/RedisProfileProvider.cs:95-101 | the dictionary holds exactly the property names, each with its JSON |
| Profiles.PropertyFieldsDistinct | RedisProviders/RedisProfileProvider.cs:100 | building the dictionary succeeds iff the names are distinct |
| Profiles.PropertyValuesStopAtFailure | RedisProviders/RedisProfileProvider.cs:61-87 | once a prefix of the requested names fails, the whole request fails the same way |
| Profiles.PropertyValuesStep | RedisProviders/RedisProfileProvider.cs:61-87 | one more requested name adds its value, or nothing found, or fails on a field that is not text |
| Profiles.PropertyFieldsStopAtFailure | RedisProviders/RedisProfileProvider.cs:95-101 | once a prefix of the values repeats a name, the whole dictionary fails the same way |
| Profiles.PropertyFieldsStep | RedisProviders/RedisProfileProvider.cs:95-101 | one more value adds its text field, or fails on a name already present |
| Profiles.WriteProfile | RedisProviders/RedisProfileProvider.cs:89-107 | the values and both dates are merged into the profile's hash; other hashes, lists and counters are unchanged |
| Profiles.SetThenGet | RedisProviders/RedisProfileProvider.cs:61-107 | a property written reads back as its JSON |
| Profiles.ReadTouchesMissingProfile | RedisProviders/RedisProfileProvider.cs:84-86 | reading a missing profile creates a hash holding only LastActivityDate |
| Profiles.Split | RedisProviders/RedisProfileProvider.cs:155 | String.Split gives at least one part, and no part holds the separator |
| Profiles.SplitWithout | RedisProviders/RedisProfileProvider.cs:155 | a text without the separator splits into itself alone |
| Profiles.SplitAtFirst | RedisProviders/RedisProfileProvider.cs:155 | splitting at a first separator gives the text before it, then the split of the rest |
| Profiles.ParseEntry | RedisProviders/RedisProfileProvider.cs:154-156 | an entry without ':' fails with an index error; otherwise the name is the first part and the flag is Convert.ToBoolean of the second |
| Profiles.EntryRoundTrip | RedisProviders/RedisProfileProvider.cs:154-156 | name:flag, with no ':' in the name, parses back to name and flag |
| Profiles.EntryWithColonInName | RedisProviders/RedisProfileProvider.cs:155-156 | a name holding ':' is cut short, or the entry fails to parse |
| Profiles.ProfileFromRecord | RedisProviders/RedisProfileProvider.cs:209-218 | a profile reads iff Username, IsAnonymous and both dates are present and typed, and then it carries them |
| Profiles.WrittenProfileNotListable | RedisProviders/RedisProfileProvider.cs:89-107 | a profile written only through SetPropertyValues has no Username, so the listing cannot read it |
| Profiles.UnnamedFields | RedisProviders/RedisProfileProvider.cs:95-101 | property values none of which is called "Username" write no "Username" field |
| Profiles.UnnamedMerge | RedisProviders/RedisProfileProvider.cs:209-218 | a profile hash without "Username" does not read back as a profile |
| Profiles.EntryProfile | RedisProviders/RedisProfileProvider.cs:154-162 | one list entry: parsed, its hash fetched, and, when non-empty, read as a profile |
| Profiles.CollectProfiles | RedisProviders/RedisProfileProvider.cs:152-163 | the listing fails unless every entry reads, holds at most one profile per entry, and never two profiles whose user names differ only in letter case: the second one fails the collection's Add |
| Profiles.Found | RedisProviders/RedisProfileProvider.cs:154-162 | the profile an entry reaches: some exactly when the entry parses and its hash is non-empty and reads back, and then that profile |
| Profiles.Reached | RedisProviders/RedisProfileProvider.cs:152-163 | the profiles the entries reach, never more than the entries |
| Profiles.ReachedSnoc | RedisProviders/RedisProfileProvider.cs:152-163 | one more entry adds its profile, if it reaches one, at the end |
| Profiles.AddDistinct | RedisProviders/RedisProfileProvider.cs:161 | a profile whose name was not collected keeps the collected names distinct |
| Profiles.DistinctPrefix | RedisProviders/RedisProfileProvider.cs:152-163 | a run with distinct user names has distinct names in every prefix |
| Profiles.EntriesReadSnoc | RedisProviders/RedisProfileProvider.cs:152-163 | every entry reads exactly when every entry but the last reads and the last does too |
| Profiles.CollectedNotDistinct | RedisProviders/RedisProfileProvider.cs:161 | a profile whose user name was already collected, up to case, makes the names repeat |
| Profiles.CollectProfilesExact | RedisProviders/RedisProfileProvider.cs:152-163 | the listing succeeds exactly when every entry reads and no two profiles reached share a user name up to case, and then it holds exactly the profiles reached, in list order |
| Profiles.SameNameTwiceRefused | RedisProviders/RedisProfileProvider.cs:152-163 | two entries reaching profiles of the same user name up to case, such as the anonymous and the authenticated profile of one name, fail the listing on the second |
| Profiles.CollectStopsAtFailure | RedisProviders/RedisProfileProvider.cs:152-163 | once a prefix of the entries fails, the whole listing fails the same way |
| Profiles.CollectStep | RedisProviders/RedisProfileProvider.cs:152-163 | one more entry extends the profiles by the one it reaches, skips an empty hash, or fails on an unreadable entry or a name already collected |
| Profiles.AllProfiles | RedisProviders/RedisProfileProvider.cs:124-177 | the profiles of the page of the selected list, never two with the same user name up to case, at most one per entry, and the total from the profile counter; the page is the corrected one |
| Profiles.AllProfilesExact | RedisProviders/RedisProfileProvider.cs:124-177 | the page succeeds exactly when every entry reads and the profiles reached have distinct user names, and then holds exactly those profiles, in list order |
| Profiles.AllProfilesPageSize | RedisProviders/RedisProfileProvider.cs:129-130 | with the corrected page, at most pageSize profiles |
| Profiles.PropertiesLeaveListings | RedisProviders/RedisProfileProvider.cs:89-107 | reading and writing properties never touch the profile lists or counter, so a list that was empty stays empty |
| Profiles.ProfileStore.UpdateActivityDate | RedisProviders/RedisProfileProvider.cs:199-207 | the activity fields are merged into the profile's hash |
| Profiles.ProfileStore.GetPropertyValues | RedisProviders/RedisProfileProvider.cs:61-87 | through the connection guard (with no event-log handling), the outcome is `ReadProfile` |
| Profiles.ProfileStore.SetPropertyValues | RedisProviders/RedisProfileProvider.cs:89-107 | duplicate names fail before any write; otherwise, through the connection guard, the store becomes `WriteProfile` |
| Profiles.ProfileStore.GetAllProfiles | RedisProviders/RedisProfileProvider.cs:124-177 | through the connection guard, the result is `AllProfiles` and nothing changes |
| Profiles.ProfileStore.constructor | RedisProviders/RedisProfileProvider.cs:34-54 | the provider starts with the given settings, no profile data and the given connection |
| Profiles.ReadEntries | RedisProviders/RedisProfileProvider.cs:152-163 | the loop over the listed entries computes `CollectProfiles` |

## Left out

- Redis itself: the modelled store holds each kind of value in its own map. So a command against a key of the wrong type, which Redis refuses, is not modelled.
- The null-hash branch of the locking GetSessionStoreItem: Hashes.GetAll returns an empty dictionary for a missing key, and the empty case is what is modelled.
- Byte encodings:
  - Encoding.Unicode strings are read and written as text values;
  - BitConverter booleans, integers and dates become typed values;
  - a field of the wrong type stands for bytes that do not convert.
- Encoding mismatches that depend on the client library's string encoding are not modelled:
  - Hashes.Set with a string and Strings.Set of the user name;
  - Lists.Remove with a string against Unicode bytes in the list.
- Failed conversions: the binary formatter, the JSON serializer and BitConverter are not modelled. A value that does not deserialize is an error value.
- Cryptography:
  - HMACSHA1 and the Encrypted format's cipher are an uninterpreted `Cipher` parameter;
  - UnEncodePassword is not part of this model.
- Event-log writes, OnConnectionError and the TCP connection are left out. Connection success is a parameter.
- Concurrency:
  - Parallel.ForEach is modelled as a loop in list order, so the order of the result collection is not modelled;
  - AggregateException wrapping is not modelled;
  - two requests racing on one session are not modelled.
- Host, port, db and password parsing in the session and membership providers. The Defaults class is not part of this model, so the profile provider's default port and db are kept as `None`.
- Roles.Initialize: the flag is modelled from the upper-case comparison; the password is the corrected reading, and the as-written reading is `Roles.PasswordAsWritten`.
- Membership operations that are not modelled:
  - GetPassword, ResetPassword, UnlockUser, UpdateUser, ChangePasswordQuestionAndAnswer;
  - the online-user sorted set, so GetNumberOfUsersOnline, SetLastActivityDate and GetUser with userIsOnline;
  - GetUser by provider key;
  - GetUserNameByEmail except as the e-mail lookup inside CreateUser.
- Membership stubs that throw NotImplementedException (FindUsersByEmail, FindUsersByName) are not modelled.
- Profile operations that throw NotImplementedException are not modelled: DeleteProfiles, DeleteInactiveProfiles, GetAllInactiveProfiles, FindProfilesByUserName, FindInactiveProfilesByUserName, GetNumberOfInactiveProfiles.
- The output-cache and web-event providers are not part of this model.
- Membership.MembershipStore.CreateUser:
  - the ProviderError status of the catch block is not modelled, because the writes cannot fail once the connection is obtained;
  - the final GetUser re-read is proved equal to the enrolled user (`Membership.EnrollReadsBack`).
- Repeated GetConnection calls within one operation are collapsed into one, justified by `Connection.AcquireStable`.
- A Hashes.Set with an empty dictionary writes nothing.
- Dates are integer ticks; time zones, DateTime.Now against UtcNow, and the text format of dates are not modelled. ProfileInfo's size is always 0 and is not modelled.
- A Guid's text form is its decimal number.
- Counters are unbounded (Redis INCR is 64-bit).
- Case folding is ASCII only. That covers ToLower and ToUpper, the letter case Convert.ToBoolean ignores, and the comparer with which MembershipUserCollection and ProfileInfoCollection refuse a second name (compared here by `Lower`).
- Keys never expire on their own: there is no clock in the store, so an expiry is recorded but never fires.
- Config.ParseBool: trims only the white space below U+0080 (tab to carriage return, and space); the null character and the other white space that .NET also trims are not modelled.
- Config.ParseInt: trims only the white space below U+0080 and takes only '+' and '-' as signs; a culture's own sign symbols are not modelled.
- Membership.AllUsers: runs the corrected page end (`Paging.Page`); the page as written is `Paging.PageAsWritten`, which returns one entry too many.
- Membership.MembershipStore.GetAllUsers: runs the corrected page end through `Membership.AllUsers`; the page as written is `Paging.PageAsWritten`.
- Membership.MembershipStore.ChangePassword: runs the corrected date field (`Membership.PasswordChange`); the code as written is `Membership.PasswordChangeAsWritten`, after which the change date does not read back.
- Profiles.AllProfiles: runs the corrected page end (`Paging.Page`); the page as written is `Paging.PageAsWritten`.
- Profiles.ProfileStore.GetAllProfiles: runs the corrected page end through `Profiles.AllProfiles`; the page as written is `Paging.PageAsWritten`.
- Membership.MembershipStore.ChangePassword: the connection of the preceding ValidateUser call is the same connection (AcquireStable). Validation itself is modelled by `Validate`.
- MembershipRecord.EncodePassword: states only the Clear case outright; the Hashed and Encrypted encodings are an uninterpreted cipher.
- MembershipRecord.HexDecode: HexToByte on an odd-length key ignores the last digit, as the source does; a refused pair is reported by its kind (format or negative value), without Convert.ToByte's message text.

## Findings

| source | as written | input that shows it | evidently intended | confidence | as-written member | corrected member |
|---|---|---|---|---|---|---|
| RedisProviders/RedisRoleProvider.cs:45 | the password is kept only when the configured value is null or empty | password "secret" becomes null | null when missing or empty, otherwise the configured value, as the other providers do | not executed | Roles.PasswordAsWritten | Roles.Password |
| RedisProviders/RedisMembershipProvider.cs:283-285 | LRANGE from pageIndex*pageSize to pageIndex*pageSize+pageSize, an inclusive end | list ["a","b","c"], page 0 of size 1, gives ["a","b"] | a page of at most pageSize entries, ending one before the next page's start, and empty for a page size of zero (also RedisProfileProvider.cs:129-130) | not executed | Paging.PageAsWritten | Paging.Page |
| RedisProviders/RedisMembershipProvider.cs:135 | ChangePassword writes the date under "LastPasswordChangedDate", as text | a successful change: GetUser still reports the old LastPasswordChangeDate (read at line 788) | the change date under "LastPasswordChangeDate", which is what the user record reads | not executed | Membership.PasswordChangeAsWritten | Membership.PasswordChange |
