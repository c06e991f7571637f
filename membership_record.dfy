/**
 * The membership provider's per-user logic: the Redis keys it derives, the
 * user hash CreateUser writes and GetUser reads back, the password formats,
 * the failed-attempt window with its lockout, and the hex decoding of the
 * machine validation key.
 */
module MembershipRecord {
  import opened Common
  import opened Text
  import opened Config
  import opened Store

  const Prefix: string := "application:"

  /** `application:{app}:user:{username.ToLower()}`: the user hash. */
  function UserKey(app: string, username: string): (k: string)
    ensures k == Prefix + app + ":user:" + Lower(username)
  {
    Prefix + app + ":user:" + Lower(username)
  }

  /** `application:{app}:user:email:{email}`: the user name registered under an e-mail address. */
  function EmailKey(app: string, email: string): (k: string)
    ensures k == "application:" + app + ":user:email:" + email
  {
    Prefix + app + ":user:email:" + email
  }


  /** `application:{app}:user:providerkey:{providerUserKey}`: the user name registered under a provider key. */
  function ProviderKey(app: string, key: Guid): (k: string)
    ensures k == "application:" + app + ":user:providerkey:" + Decimal(key)
  {
    Prefix + app + ":user:providerkey:" + Decimal(key)
  }

  /** `application:{app}:users`: the list of user names in creation order. */
  function UsersKey(app: string): (k: string)
    ensures k == "application:" + app + ":users"
  {
    Prefix + app + ":users"
  }

  /** `application:{app}:usercount`: the counter of users. */
  function UsersCountKey(app: string): (k: string)
    ensures k == "application:" + app + ":usercount"
  {
    Prefix + app + ":usercount"
  }

  /** `application:{app}:useronline`: the sorted set of users by last activity. */
  function UsersOnlineKey(app: string): (k: string)
    ensures k == "application:" + app + ":useronline"
  {
    Prefix + app + ":useronline"
  }

  /**
   * The users list, the user count and the online set are three different
   * keys, and none of them is the hash of any user.
   */
  lemma ListingKeysDistinct(app: string, username: string)
    ensures UsersKey(app) != UsersCountKey(app) && UsersKey(app) != UsersOnlineKey(app) && UsersCountKey(app) != UsersOnlineKey(app)
    ensures UserKey(app, username) !in {UsersKey(app), UsersCountKey(app), UsersOnlineKey(app)}
  {
    var n := |Prefix + app + ":user"|;
    assert UsersKey(app)[n] == 's';
    assert UsersCountKey(app)[n] == 'c';
    assert UsersOnlineKey(app)[n] == 'o';
    assert UserKey(app, username)[n] == ':';
  }

  /**
   * The user hash of a name that starts with "email:" is the very key the
   * e-mail lookup of the rest of that name, lower-cased, is stored under.
   */
  lemma UserKeyMeetsEmailKey(app: string, rest: string)
    ensures UserKey(app, "email:" + rest) == EmailKey(app, Lower(rest))
  {
    assert Lower("email:" + rest) == "email:" + Lower(rest);
  }

  /** User names that differ only in letter case share one user hash. */
  lemma UserKeyIgnoresCase(app: string, a: string, b: string)
    requires |a| == |b|
    requires forall i :: 0 <= i < |a| ==> LowerChar(a[i]) == LowerChar(b[i])
    ensures UserKey(app, a) == UserKey(app, b)
  {
    LowerIgnoresCase(a, b);
  }

  /** Within one application, user names that lower-case differently have distinct user hashes. */
  lemma UserKeyInjective(app: string, a: string, b: string)
    requires UserKey(app, a) == UserKey(app, b)
    ensures Lower(a) == Lower(b)
  {
    var n := |Prefix + app + ":user:"|;
    assert UserKey(app, a) == (Prefix + app + ":user:") + Lower(a);
    assert UserKey(app, b) == (Prefix + app + ":user:") + Lower(b);
    assert Lower(a) == UserKey(app, a)[n..];
    assert Lower(b) == UserKey(app, b)[n..];
  }

  /** The fields a user hash is read back from; each read fails like the BitConverter or indexer call it models. */
  function TextField(h: Hash, name: string): (r: Result<string>)
    ensures r.Ok? <==> name in h && h[name].Text?
    ensures r.Ok? ==> h[name] == Text(r.value)
    ensures name !in h ==> r == Err(MissingField(name))
  {
    if name !in h then Err(MissingField(name))
    else if h[name].Text? then Ok(h[name].s)
    else Err(MalformedField(name))
  }

  function FlagField(h: Hash, name: string): (r: Result<bool>)
    ensures r.Ok? <==> name in h && h[name].Flag?
    ensures r.Ok? ==> h[name] == Flag(r.value)
    ensures name !in h ==> r == Err(MissingField(name))
  {
    if name !in h then Err(MissingField(name))
    else if h[name].Flag? then Ok(h[name].b)
    else Err(MalformedField(name))
  }

  function CountField(h: Hash, name: string): (r: Result<int>)
    ensures r.Ok? <==> name in h && h[name].Count?
    ensures r.Ok? ==> h[name] == Count(r.value)
    ensures name !in h ==> r == Err(MissingField(name))
  {
    if name !in h then Err(MissingField(name))
    else if h[name].Count? then Ok(h[name].n)
    else Err(MalformedField(name))
  }

  function TimeField(h: Hash, name: string): (r: Result<int>)
    ensures r.Ok? <==> name in h && h[name].Time?
    ensures r.Ok? ==> h[name] == Time(r.value)
    ensures name !in h ==> r == Err(MissingField(name))
  {
    if name !in h then Err(MissingField(name))
    else if h[name].Time? then Ok(h[name].t)
    else Err(MalformedField(name))
  }

  function TokenField(h: Hash, name: string): (r: Result<Guid>)
    ensures r.Ok? <==> name in h && h[name].Token?
    ensures r.Ok? ==> h[name] == Token(r.value)
    ensures name !in h ==> r == Err(MissingField(name))
  {
    if name !in h then Err(MissingField(name))
    else if h[name].Token? then Ok(h[name].g)
    else Err(MalformedField(name))
  }

  /** MembershipPasswordFormat. */
  datatype PasswordFormat = Clear | Hashed | Encrypted

  const UnsupportedFormatMessage: string := "Password format not supported."

  /**
   * The `passwordFormat` switch of Initialize: a missing entry means Hashed;
   * the three names are matched exactly; anything else, the empty string
   * included, is refused.
   */
  function ParsePasswordFormat(v: Option<string>): (r: Result<PasswordFormat>)
    ensures v == None ==> r == Ok(Hashed)
    ensures v == Some("Hashed") ==> r == Ok(Hashed)
    ensures v == Some("Encrypted") ==> r == Ok(Encrypted)
    ensures v == Some("Clear") ==> r == Ok(Clear)
    ensures r.Err? <==> v.Some? && v.value !in {"Hashed", "Encrypted", "Clear"}
    ensures r.Err? ==> r.failure == ProviderFailure(UnsupportedFormatMessage)
  {
    var name := if v == None then "Hashed" else v.value;
    if name == "Hashed" then Ok(Hashed)
    else if name == "Encrypted" then Ok(Encrypted)
    else if name == "Clear" then Ok(Clear)
    else Err(ProviderFailure(UnsupportedFormatMessage))
  }

  /**
   * The cryptography behind EncodePassword and UnEncodePassword, taken as
   * given: the keyed hash, and encryption and decryption with the machine key
   * (each including its Base64 and Unicode conversions).
   */
  datatype Cipher = Cipher(hash: string -> string, encrypt: string -> string, decrypt: string -> string)

  /** EncodePassword: Clear keeps the password, Encrypted encrypts it, Hashed hashes it. */
  function EncodePassword(format: PasswordFormat, cipher: Cipher, password: string): (e: string)
    ensures format == Clear ==> e == password
  {
    match format
    case Clear => password
    case Encrypted => cipher.encrypt(password)
    case Hashed => cipher.hash(password)
  }

  /**
   * CheckPassword: Encrypted decrypts the stored password, Hashed hashes the
   * offered one; then the two strings are compared.
   */
  function CheckPassword(format: PasswordFormat, cipher: Cipher, password: string, stored: string): (ok: bool)
    ensures format == Clear ==> (ok <==> password == stored)
    ensures format == Hashed ==> (ok <==> EncodePassword(format, cipher, password) == stored)
  {
    match format
    case Clear => password == stored
    case Encrypted => password == cipher.decrypt(stored)
    case Hashed => cipher.hash(password) == stored
  }

  /** A password checks against its own encoding, provided decryption undoes encryption. */
  lemma EncodedPasswordChecks(format: PasswordFormat, cipher: Cipher, password: string)
    requires format == Encrypted ==> cipher.decrypt(cipher.encrypt(password)) == password
    ensures CheckPassword(format, cipher, password, EncodePassword(format, cipher, password))
  {
  }

  /** What GetUser hands back: the fields of a MembershipUser. */
  datatype User = User(
    name: string, key: Guid, email: string, question: string, comment: string,
    isApproved: bool, isLockedOut: bool,
    created: int, lastLogin: int, lastActivity: int, lastPasswordChange: int, lastLockedOut: int)

  function OrEmpty(s: Option<string>): (r: string)
    ensures s.Some? ==> r == s.value
    ensures s.None? ==> r == ""
  {
    if s.Some? then s.value else ""
  }

  /** The names of the 18 fields CreateUserDictionary writes. */
  const RecordFields: set<string> := {
    "Id", "Username", "Password", "Email", "PasswordQuestion", "PasswordAnswer", "IsApproved", "Comment",
    "CreationDate", "LastPasswordChangeDate", "LastActivityDate", "LastLoginDate", "IsLockedOut",
    "LastLockedOutDate", "FailedPasswordAttemptCount", "FailedPasswordAttemptWindowStart",
    "FailedPasswordAnswerAttemptCount", "FailedPasswordAnswerAttemptWindowStart"}

  /**
   * CreateUserDictionary: the user hash of a new user. Both failure counts
   * are 0, the user is not locked out, every date is the creation date, the
   * comment is empty and a null e-mail, question or answer is stored empty.
   */
  function CreateUserDictionary(username: string, encodedPassword: string, email: Option<string>,
                                question: Option<string>, answer: Option<string>, isApproved: bool,
                                key: Guid, createDate: int): (h: Hash)
    ensures h.Keys == RecordFields
    ensures h["FailedPasswordAttemptCount"] == Count(0) && h["FailedPasswordAnswerAttemptCount"] == Count(0)
    ensures h["IsLockedOut"] == Flag(false) && h["IsApproved"] == Flag(isApproved)
    ensures h["CreationDate"] == h["LastPasswordChangeDate"] == h["LastActivityDate"] == h["LastLoginDate"] ==
            h["LastLockedOutDate"] == h["FailedPasswordAttemptWindowStart"] ==
            h["FailedPasswordAnswerAttemptWindowStart"] == Time(createDate)
    ensures h["Email"] == Text(OrEmpty(email)) && h["PasswordQuestion"] == Text(OrEmpty(question))
    ensures h["PasswordAnswer"] == Text(OrEmpty(answer)) && h["Comment"] == Text("")
    ensures h["Id"] == Token(key) && h["Username"] == Text(username) && h["Password"] == Text(encodedPassword)
  {
    var h := map[
      "Id" := Token(key),
      "Username" := Text(username),
      "Password" := Text(encodedPassword),
      "Email" := Text(OrEmpty(email)),
      "PasswordQuestion" := Text(OrEmpty(question)),
      "PasswordAnswer" := Text(OrEmpty(answer)),
      "IsApproved" := Flag(isApproved),
      "Comment" := Text(""),
      "CreationDate" := Time(createDate),
      "LastPasswordChangeDate" := Time(createDate),
      "LastActivityDate" := Time(createDate),
      "LastLoginDate" := Time(createDate),
      "IsLockedOut" := Flag(false),
      "LastLockedOutDate" := Time(createDate),
      "FailedPasswordAttemptCount" := Count(0),
      "FailedPasswordAttemptWindowStart" := Time(createDate),
      "FailedPasswordAnswerAttemptCount" := Count(0),
      "FailedPasswordAnswerAttemptWindowStart" := Time(createDate)];
    assert h.Keys == RecordFields;
    h
  }

  /** The fields UserFromRecord reads. */
  const UserFields: set<string> := {
    "Username", "Id", "Email", "PasswordQuestion", "Comment", "IsApproved", "IsLockedOut",
    "CreationDate", "LastLoginDate", "LastActivityDate", "LastPasswordChangeDate", "LastLockedOutDate"}

  /**
   * Each field CreateMembershipUserFromDictionary indexes is present and
   * holds what its conversion expects: Unicode text, a Guid, a bool or a
   * DateTime.
   */
  predicate UserReadable(h: Hash) {
    "Username" in h && h["Username"].Text? && "Id" in h && h["Id"].Token? &&
    "Email" in h && h["Email"].Text? && "PasswordQuestion" in h && h["PasswordQuestion"].Text? &&
    "Comment" in h && h["Comment"].Text? &&
    "IsApproved" in h && h["IsApproved"].Flag? && "IsLockedOut" in h && h["IsLockedOut"].Flag? &&
    "CreationDate" in h && h["CreationDate"].Time? && "LastLoginDate" in h && h["LastLoginDate"].Time? &&
    "LastActivityDate" in h && h["LastActivityDate"].Time? &&
    "LastPasswordChangeDate" in h && h["LastPasswordChangeDate"].Time? &&
    "LastLockedOutDate" in h && h["LastLockedOutDate"].Time?
  }

  /**
   * CreateMembershipUserFromDictionary: the user read back from its hash,
   * field by field in constructor-argument order; the first field that is
   * missing or of the wrong kind is the failure.
   */
  function UserFromRecord(h: Hash): (r: Result<User>)
    ensures r.Ok? <==> UserReadable(h)
    ensures r.Ok? ==> "Username" in h && h["Username"] == Text(r.value.name)
    ensures r.Ok? ==> "Id" in h && h["Id"] == Token(r.value.key)
    ensures r.Ok? ==> "Email" in h && h["Email"] == Text(r.value.email)
    ensures r.Ok? ==> "PasswordQuestion" in h && h["PasswordQuestion"] == Text(r.value.question)
    ensures r.Ok? ==> "Comment" in h && h["Comment"] == Text(r.value.comment)
    ensures r.Ok? ==> "IsApproved" in h && h["IsApproved"] == Flag(r.value.isApproved)
    ensures r.Ok? ==> "IsLockedOut" in h && h["IsLockedOut"] == Flag(r.value.isLockedOut)
    ensures r.Ok? ==> "CreationDate" in h && h["CreationDate"] == Time(r.value.created)
    ensures r.Ok? ==> "LastLoginDate" in h && h["LastLoginDate"] == Time(r.value.lastLogin)
    ensures r.Ok? ==> "LastActivityDate" in h && h["LastActivityDate"] == Time(r.value.lastActivity)
    ensures r.Ok? ==> "LastPasswordChangeDate" in h && h["LastPasswordChangeDate"] == Time(r.value.lastPasswordChange)
    ensures r.Ok? ==> "LastLockedOutDate" in h && h["LastLockedOutDate"] == Time(r.value.lastLockedOut)
    ensures r.Err? ==> (r.failure.MissingField? || r.failure.MalformedField?) && r.failure.name in UserFields
    ensures "Username" !in h ==> r == Err(MissingField("Username"))
  {
    var name :- TextField(h, "Username");
    var key :- TokenField(h, "Id");
    var email :- TextField(h, "Email");
    var question :- TextField(h, "PasswordQuestion");
    var comment :- TextField(h, "Comment");
    var isApproved :- FlagField(h, "IsApproved");
    var isLockedOut :- FlagField(h, "IsLockedOut");
    var created :- TimeField(h, "CreationDate");
    var lastLogin :- TimeField(h, "LastLoginDate");
    var lastActivity :- TimeField(h, "LastActivityDate");
    var lastPasswordChange :- TimeField(h, "LastPasswordChangeDate");
    var lastLockedOut :- TimeField(h, "LastLockedOutDate");
    Ok(User(name, key, email, question, comment, isApproved, isLockedOut,
            created, lastLogin, lastActivity, lastPasswordChange, lastLockedOut))
  }

  /** A freshly written user hash reads back as the user it describes. */
  lemma RecordRoundTrip(username: string, encodedPassword: string, email: Option<string>,
                        question: Option<string>, answer: Option<string>, isApproved: bool,
                        key: Guid, createDate: int)
    ensures UserFromRecord(CreateUserDictionary(username, encodedPassword, email, question, answer, isApproved, key, createDate))
      == Ok(User(username, key, OrEmpty(email), OrEmpty(question), "", isApproved, false,
                 createDate, createDate, createDate, createDate, createDate))
  {
    var h := CreateUserDictionary(username, encodedPassword, email, question, answer, isApproved, key, createDate);
    assert TextField(h, "Username") == Ok(username);
    assert TimeField(h, "CreationDate") == Ok(createDate);
  }

  /** Writing a field the user record does not read leaves the user read back unchanged. */
  lemma OtherFieldKeepsUser(h: Hash, name: string, v: Value)
    requires name !in UserFields
    ensures UserFromRecord(h[name := v]) == UserFromRecord(h)
  {
    var g := h[name := v];
    assert TextField(g, "Username") == TextField(h, "Username");
    assert TokenField(g, "Id") == TokenField(h, "Id");
    assert TextField(g, "Email") == TextField(h, "Email");
    assert TextField(g, "PasswordQuestion") == TextField(h, "PasswordQuestion");
    assert TextField(g, "Comment") == TextField(h, "Comment");
    assert FlagField(g, "IsApproved") == FlagField(h, "IsApproved");
    assert FlagField(g, "IsLockedOut") == FlagField(h, "IsLockedOut");
    assert TimeField(g, "CreationDate") == TimeField(h, "CreationDate");
    assert TimeField(g, "LastLoginDate") == TimeField(h, "LastLoginDate");
    assert TimeField(g, "LastActivityDate") == TimeField(h, "LastActivityDate");
    assert TimeField(g, "LastPasswordChangeDate") == TimeField(h, "LastPasswordChangeDate");
    assert TimeField(g, "LastLockedOutDate") == TimeField(h, "LastLockedOutDate");
  }

  /** A new LastLoginDate is the last login the user reports, and nothing else changes. */
  lemma LoginDateRead(h: Hash, t: int)
    requires UserFromRecord(h).Ok?
    ensures UserFromRecord(h["LastLoginDate" := Time(t)]) == Ok(UserFromRecord(h).value.(lastLogin := t))
  {
    var g := h["LastLoginDate" := Time(t)];
    assert TextField(g, "Username") == TextField(h, "Username");
    assert TimeField(g, "LastLoginDate") == Ok(t);
    assert TimeField(g, "LastPasswordChangeDate") == TimeField(h, "LastPasswordChangeDate");
  }

  /** A new LastPasswordChangeDate is the change date the user reports, and nothing else changes. */
  lemma PasswordChangeDateRead(h: Hash, t: int)
    requires UserFromRecord(h).Ok?
    ensures UserFromRecord(h["LastPasswordChangeDate" := Time(t)]) == Ok(UserFromRecord(h).value.(lastPasswordChange := t))
  {
    var g := h["LastPasswordChangeDate" := Time(t)];
    assert TextField(g, "Username") == TextField(h, "Username");
    assert TimeField(g, "LastLoginDate") == TimeField(h, "LastLoginDate");
    assert TimeField(g, "LastPasswordChangeDate") == Ok(t);
  }

  /** Which counter a failure updates: a wrong password or a wrong password answer. */
  datatype FailureKind = PasswordFailure | AnswerFailure

  function FailureCountName(kind: FailureKind): string {
    if kind == PasswordFailure then "FailedPasswordAttemptCount" else "FailedPasswordAnswerAttemptCount"
  }

  function WindowStartName(kind: FailureKind): string {
    if kind == PasswordFailure then "FailedPasswordAttemptWindowStart" else "FailedPasswordAnswerAttemptWindowStart"
  }

  /** DateTime ticks (100 ns) in a minute. */
  const TicksPerMinute: int := 600_000_000

  /** The window is still open at `now` for a failure count that started at `windowStart`. */
  predicate InWindow(windowStart: int, now: int, windowMinutes: int) {
    now <= windowStart + windowMinutes * TicksPerMinute
  }

  /**
   * UpdateFailureCount, the fields it writes: a first failure or one after
   * the window has closed starts a new count of 1 at `now`; otherwise a count
   * already at the maximum locks the user out and keeps the count, and a
   * lower count goes up by one inside the same window.
   */
  function FailureFields(h: Hash, kind: FailureKind, now: int, windowMinutes: int, maxAttempts: int): (r: Result<Hash>)
    ensures r.Ok? <==> CountField(h, FailureCountName(kind)).Ok? && TimeField(h, WindowStartName(kind)).Ok?
    ensures r.Ok? ==> (
      var count := CountField(h, FailureCountName(kind)).value;
      var start := TimeField(h, WindowStartName(kind)).value;
      if count == 0 || !InWindow(start, now, windowMinutes) then
        r.value == map[FailureCountName(kind) := Count(1), WindowStartName(kind) := Time(now)]
      else if count >= maxAttempts then
        r.value == map["IsLockedOut" := Flag(true)]
      else
        r.value == map[FailureCountName(kind) := Count(count + 1)])
  {
    var count :- CountField(h, FailureCountName(kind));
    var start :- TimeField(h, WindowStartName(kind));
    if count == 0 || now > start + windowMinutes * TicksPerMinute then
      Ok(map[FailureCountName(kind) := Count(1), WindowStartName(kind) := Time(now)])
    else if count >= maxAttempts then
      Ok(map["IsLockedOut" := Flag(true)])
    else
      Ok(map[FailureCountName(kind) := Count(count + 1)])
  }

  /** The user hash after one failure (HMSET of FailureFields). */
  function AfterFailure(h: Hash, kind: FailureKind, now: int, windowMinutes: int, maxAttempts: int): Result<Hash> {
    var f :- FailureFields(h, kind, now, windowMinutes, maxAttempts);
    Ok(h + f)
  }

  /** A well-formed failure state: both fields of the counter are present. */
  predicate HasCounter(h: Hash, kind: FailureKind) {
    FailureCountName(kind) in h && h[FailureCountName(kind)].Count? &&
    WindowStartName(kind) in h && h[WindowStartName(kind)].Time?
  }

  /**
   * The count never climbs past the larger of 1 and the maximum: it is reset
   * to 1, left alone at the lockout, or raised while still below the maximum.
   */
  lemma FailureCountBounded(h: Hash, kind: FailureKind, now: int, windowMinutes: int, maxAttempts: int)
    requires HasCounter(h, kind)
    requires h[FailureCountName(kind)].n <= if maxAttempts < 1 then 1 else maxAttempts
    ensures var a := AfterFailure(h, kind, now, windowMinutes, maxAttempts);
      a.Ok? && HasCounter(a.value, kind) &&
      a.value[FailureCountName(kind)].n <= if maxAttempts < 1 then 1 else maxAttempts
  {
  }

  /** The hash after `n` failures of one kind at the same instant. */
  function RepeatedFailures(h: Hash, kind: FailureKind, now: int, windowMinutes: int, maxAttempts: int, n: nat): (r: Result<Hash>)
    requires HasCounter(h, kind)
    ensures r.Ok? && HasCounter(r.value, kind)
    decreases n
  {
    if n == 0 then Ok(h)
    else
      var before := RepeatedFailures(h, kind, now, windowMinutes, maxAttempts, n - 1);
      AfterFailure(before.value, kind, now, windowMinutes, maxAttempts)
  }

  /**
   * Starting from no failures, `k` failures within one window leave the count
   * at `k` and the window at the first of them, while `k` does not exceed the
   * maximum.
   */
  lemma {:induction false} RepeatedFailuresCount(h: Hash, kind: FailureKind, now: int, windowMinutes: int, maxAttempts: int, k: nat)
    requires HasCounter(h, kind) && h[FailureCountName(kind)] == Count(0)
    requires 0 <= windowMinutes && 1 <= k <= maxAttempts
    ensures var r := RepeatedFailures(h, kind, now, windowMinutes, maxAttempts, k).value;
      r[FailureCountName(kind)] == Count(k) && r[WindowStartName(kind)] == Time(now)
    decreases k
  {
    if k > 1 {
      RepeatedFailuresCount(h, kind, now, windowMinutes, maxAttempts, k - 1);
    }
  }

  /**
   * The lockout: `maxAttempts + 1` failures inside one window, starting from
   * none, lock the user out.
   */
  lemma LockoutAfterMaxAttempts(h: Hash, kind: FailureKind, now: int, windowMinutes: int, maxAttempts: int)
    requires HasCounter(h, kind) && h[FailureCountName(kind)] == Count(0)
    requires 0 <= windowMinutes && 1 <= maxAttempts
    ensures var r := RepeatedFailures(h, kind, now, windowMinutes, maxAttempts, maxAttempts + 1).value;
      "IsLockedOut" in r && r["IsLockedOut"] == Flag(true)
  {
    RepeatedFailuresCount(h, kind, now, windowMinutes, maxAttempts, maxAttempts);
  }

  /** A failure after the window has closed starts over, whatever the count was. */
  lemma LateFailureRestarts(h: Hash, kind: FailureKind, now: int, windowMinutes: int, maxAttempts: int)
    requires HasCounter(h, kind) && !InWindow(h[WindowStartName(kind)].t, now, windowMinutes)
    ensures var a := AfterFailure(h, kind, now, windowMinutes, maxAttempts);
      a.Ok? && a.value[FailureCountName(kind)] == Count(1) && a.value[WindowStartName(kind)] == Time(now) &&
      ("IsLockedOut" in h ==> a.value["IsLockedOut"] == h["IsLockedOut"])
  {
  }

  /** A byte as the number it holds. */
  newtype Byte = b: int | 0 <= b < 256

  predicate IsHexDigit(c: char) {
    '0' <= c <= '9' || 'a' <= c <= 'f' || 'A' <= c <= 'F'
  }

  function HexValue(c: char): (v: nat)
    requires IsHexDigit(c)
    ensures v < 16
  {
    if '0' <= c <= '9' then c as int - '0' as int
    else if 'a' <= c <= 'f' then c as int - 'a' as int + 10
    else c as int - 'A' as int + 10
  }

  /**
   * The pairs `Convert.ToByte(pair, 16)` converts: two hex digits, or a '+'
   * sign before a single hex digit.
   */
  predicate PairConverts(hi: char, lo: char) {
    (hi == '+' || IsHexDigit(hi)) && IsHexDigit(lo)
  }

  /**
   * `Convert.ToByte(pair, 16)` for a two-character string: no white space is
   * skipped; a leading '-' is refused outright in base 16; a leading '+' is
   * skipped and the one digit after it is the value; otherwise both
   * characters must be hex digits. Anything else is a format error.
   */
  function PairValue(hi: char, lo: char): (r: Result<Byte>)
    ensures r.Ok? <==> PairConverts(hi, lo)
    ensures r.Ok? && hi == '+' ==> r.value as int == HexValue(lo)
    ensures r.Ok? && hi != '+' ==> r.value as int == HexValue(hi) * 16 + HexValue(lo)
    ensures r.Err? ==> r.failure == if hi == '-' then NegativeInBase else InvalidFormat
  {
    if hi == '-' then Err(NegativeInBase)
    else if hi == '+' then
      if IsHexDigit(lo) then Ok(HexValue(lo) as Byte) else Err(InvalidFormat)
    else if IsHexDigit(hi) && IsHexDigit(lo) then Ok((HexValue(hi) * 16 + HexValue(lo)) as Byte)
    else Err(InvalidFormat)
  }

  /** A signed single digit converts, and a negative sign is refused. */
  lemma SignedPairs()
    ensures PairValue('+', 'f') == Ok(15)
    ensures PairValue('-', '1') == Err(NegativeInBase)
    ensures PairValue('0', 'x') == Err(InvalidFormat)
  {
  }

  /**
   * The bytes HexToByte produces: one per pair of characters, an odd last
   * character ignored; the first pair that does not convert fails.
   */
  function HexDecode(s: string): (r: Result<seq<Byte>>)
    ensures r.Ok? ==> |r.value| == |s| / 2
    decreases |s|
  {
    if |s| < 2 then Ok([])
    else
      var b :- PairValue(s[0], s[1]);
      var rest :- HexDecode(s[2..]);
      Ok([b] + rest)
  }

  /** Every pair of characters, up to `|s| / 2` pairs, converts. */
  predicate AllPairsConvert(s: string) {
    forall i :: 0 <= i < |s| / 2 ==> PairConverts(s[2 * i], s[2 * i + 1])
  }

  /** HexDecode fails exactly when some pair does not convert, and otherwise decodes pair by pair. */
  lemma {:induction false} HexDecodeSucceeds(s: string)
    ensures HexDecode(s).Ok? <==> AllPairsConvert(s)
    ensures HexDecode(s).Ok? ==> forall i :: 0 <= i < |s| / 2 ==> PairValue(s[2 * i], s[2 * i + 1]) == Ok(HexDecode(s).value[i])
    decreases |s|
  {
    if |s| >= 2 {
      var t := s[2..];
      HexDecodeSucceeds(t);
      assert |t| / 2 == |s| / 2 - 1;
      forall i | 1 <= i < |s| / 2 ensures s[2 * i] == t[2 * (i - 1)] && s[2 * i + 1] == t[2 * (i - 1) + 1] {
      }
      if PairConverts(s[0], s[1]) && AllPairsConvert(t) {
        forall i | 0 <= i < |s| / 2 ensures PairConverts(s[2 * i], s[2 * i + 1]) {
          if i > 0 {
            assert PairConverts(t[2 * (i - 1)], t[2 * (i - 1) + 1]);
          }
        }
      }
      if AllPairsConvert(s) {
        forall i | 0 <= i < |t| / 2 ensures PairConverts(t[2 * i], t[2 * i + 1]) {
          assert PairConverts(s[2 * (i + 1)], s[2 * (i + 1) + 1]);
        }
        assert 0 < |s| / 2;
        assert PairConverts(s[2 * 0], s[2 * 0 + 1]);
      }
      if HexDecode(s).Ok? {
        var d := HexDecode(s).value;
        assert d == [PairValue(s[0], s[1]).value] + HexDecode(t).value;
        forall i | 0 <= i < |s| / 2 ensures PairValue(s[2 * i], s[2 * i + 1]) == Ok(d[i]) {
          if i > 0 {
            assert d[i] == HexDecode(t).value[i - 1];
          }
        }
      }
    }
  }

  const HexDigits: string := "0123456789ABCDEF"

  /** Two upper-case hex digits per byte: the text HexToByte reads a key from. */
  function HexEncode(bytes: seq<Byte>): (s: string)
    ensures |s| == 2 * |bytes|
  {
    if bytes == [] then []
    else [HexDigits[bytes[0] / 16], HexDigits[bytes[0] % 16]] + HexEncode(bytes[1..])
  }

  /** Each hex digit is read back as its position in the digit string. */
  lemma HexDigitValue(d: int)
    requires 0 <= d < 16
    ensures IsHexDigit(HexDigits[d]) && HexValue(HexDigits[d]) == d
  {
  }

  /** HexToByte undoes hex encoding. */
  lemma {:induction false} HexRoundTrip(bytes: seq<Byte>)
    ensures HexDecode(HexEncode(bytes)) == Ok(bytes)
  {
    if bytes != [] {
      var s := HexEncode(bytes);
      var b := bytes[0];
      assert s[0] == HexDigits[b / 16] && s[1] == HexDigits[b % 16];
      assert s[2..] == HexEncode(bytes[1..]);
      HexRoundTrip(bytes[1..]);
      PairOfByte(b);
      assert [b] + bytes[1..] == bytes;
    }
  }

  /** The two digits a byte is written as read back as that byte. */
  lemma PairOfByte(b: Byte)
    ensures PairValue(HexDigits[b / 16], HexDigits[b % 16]) == Ok(b)
  {
    HexDigitValue((b / 16) as int);
    HexDigitValue((b % 16) as int);
    assert (b / 16) as int * 16 + (b % 16) as int == b as int;
  }

  /**
   * HexToByte: the array of `|hex| / 2` bytes, byte `i` the value of
   * characters `2i` and `2i + 1`; a pair that does not convert fails.
   */
  method HexToByte(hex: string) returns (r: Result<array<Byte>>)
    ensures r.Ok? <==> AllPairsConvert(hex)
    ensures r.Ok? ==> r.value.Length == |hex| / 2 && HexDecode(hex) == Ok(r.value[..])
  {
    HexDecodeSucceeds(hex);
    var returnBytes := new Byte[|hex| / 2];
    var i := 0;
    while i < returnBytes.Length
      invariant 0 <= i <= returnBytes.Length
      invariant forall j :: 0 <= j < i ==> PairValue(hex[2 * j], hex[2 * j + 1]) == Ok(returnBytes[j])
    {
      var b := PairValue(hex[2 * i], hex[2 * i + 1]);
      if b.Err? {
        assert i < |hex| / 2 && !PairConverts(hex[2 * i], hex[2 * i + 1]);
        return Err(b.failure);
      }
      returnBytes[i] := b.value;
      i := i + 1;
    }
    assert AllPairsConvert(hex);
    assert forall j :: 0 <= j < |hex| / 2 ==> returnBytes[..][j] == HexDecode(hex).value[j];
    assert returnBytes[..] == HexDecode(hex).value;
    r := Ok(returnBytes);
  }
}
