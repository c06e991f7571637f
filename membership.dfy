/**
 * The membership provider over the store: the user hashes and the keys kept
 * beside them (the e-mail and provider-key lookups, the users list, the user
 * count and the online set), the operations that read and write them, and
 * the provider class that holds them together with the shared connection.
 */
module Membership {
  import opened Common
  import opened Text
  import opened Config
  import opened Store
  import opened Paging
  import opened Connection
  import opened MembershipRecord

  /** The membership keys, by kind of Redis value. */
  datatype Directory = Directory(
    hashes: Db<Hash>,                      // application:{app}:user:{lower name}
    strings: map<string, string>,          // e-mail and provider-key lookups → user name
    counters: map<string, int>,            // usercount
    lists: map<string, seq<string>>,       // users
    online: map<string, set<string>>)      // useronline (members only; scores are not modelled)

  function EmptyDirectory(): (d: Directory)
    ensures d.hashes.Valid() && d.hashes.data == map[]
  {
    Directory(EmptyDb(), map[], map[], map[], map[])
  }

  /** The provider settings after Initialize. */
  datatype MembershipConfig = MembershipConfig(
    app: string,
    maxInvalidPasswordAttempts: int,
    passwordAttemptWindow: int,
    minRequiredNonAlphanumericCharacters: int,
    minRequiredPasswordLength: int,
    passwordStrengthRegularExpression: string,
    enablePasswordReset: bool,
    enablePasswordRetrieval: bool,
    requiresQuestionAndAnswer: bool,
    requiresUniqueEmail: bool,
    writeExceptionsToEventLog: bool,
    passwordFormat: PasswordFormat)

  const AutoGeneratedKeyMessage: string := "Hashed or Encrypted passwords are not supported with auto-generated keys."

  /** A setting as GetConfigValue hands it over: the default when missing or empty. */
  function Setting(config: Settings, name: string, default: string): (v: string)
    ensures Lookup(config, name) in {None, Some("")} ==> v == default
    ensures Lookup(config, name).Some? && Lookup(config, name) != Some("") ==> Some(v) == Lookup(config, name)
  {
    var v := GetConfigValue(Lookup(config, name), Some(default));
    if v.Some? then v.value else default
  }

  /** Every integer and boolean setting converts. */
  predicate SettingsConvert(config: Settings) {
    Limits(config).Ok? && Flags(config).Ok?
  }

  /**
   * Initialize: the integer and boolean settings with their defaults, then
   * the password format (a missing one is Hashed, an unknown one is refused),
   * then the machine-key check: Hashed and Encrypted are refused when the
   * validation key is auto-generated.
   */
  function Initialize(config: Settings, virtualPath: string, autoGeneratedKey: bool): (r: Result<MembershipConfig>)
    ensures r.Ok? <==> SettingsConvert(config) && ParsePasswordFormat(Lookup(config, "passwordFormat")).Ok? &&
                       (autoGeneratedKey ==> ParsePasswordFormat(Lookup(config, "passwordFormat")).value == Clear)
    ensures SettingsConvert(config) && ParsePasswordFormat(Lookup(config, "passwordFormat")).Err? ==>
              r == Err(ProviderFailure(UnsupportedFormatMessage))
    ensures SettingsConvert(config) && autoGeneratedKey && ParsePasswordFormat(Lookup(config, "passwordFormat")) in {Ok(Hashed), Ok(Encrypted)} ==>
              r == Err(ProviderFailure(AutoGeneratedKeyMessage))
    ensures r.Ok? ==> r.value.app == ApplicationName(config, virtualPath)
    ensures r.Ok? ==> Ok(r.value.passwordFormat) == ParsePasswordFormat(Lookup(config, "passwordFormat"))
    ensures r.Ok? ==> var c := r.value;
      Limits(config) == Ok((c.maxInvalidPasswordAttempts, c.passwordAttemptWindow,
                            c.minRequiredNonAlphanumericCharacters, c.minRequiredPasswordLength))
    ensures r.Ok? ==> r.value.passwordStrengthRegularExpression == Setting(config, "passwordStrengthRegularExpression", "")
    ensures r.Ok? ==> var c := r.value;
      Flags(config) == Ok((c.enablePasswordReset, c.enablePasswordRetrieval, c.requiresQuestionAndAnswer,
                           c.requiresUniqueEmail, c.writeExceptionsToEventLog))
  {
    Assemble(ApplicationName(config, virtualPath), Limits(config), Flags(config),
             ParsePasswordFormat(Lookup(config, "passwordFormat")),
             Setting(config, "passwordStrengthRegularExpression", ""), autoGeneratedKey)
  }

  /**
   * The configuration Initialize builds once the settings are converted: the
   * first conversion that failed, in the order Initialize converts them, then
   * the machine-key check, then every value in its place.
   */
  function Assemble(app: string, limits: Result<(int, int, int, int)>, flags: Result<(bool, bool, bool, bool, bool)>,
                    format: Result<PasswordFormat>, expression: string, autoGeneratedKey: bool): (r: Result<MembershipConfig>)
    ensures r.Ok? <==> limits.Ok? && flags.Ok? && format.Ok? && (autoGeneratedKey ==> format.value == Clear)
    ensures limits.Err? ==> r == Err(limits.failure)
    ensures limits.Ok? && flags.Err? ==> r == Err(flags.failure)
    ensures limits.Ok? && flags.Ok? && format.Err? ==> r == Err(format.failure)
    ensures limits.Ok? && flags.Ok? && autoGeneratedKey && format in {Ok(Hashed), Ok(Encrypted)} ==>
              r == Err(ProviderFailure(AutoGeneratedKeyMessage))
    ensures r.Ok? ==> var c := r.value;
      c.app == app && Ok(c.passwordFormat) == format && c.passwordStrengthRegularExpression == expression &&
      limits == Ok((c.maxInvalidPasswordAttempts, c.passwordAttemptWindow,
                    c.minRequiredNonAlphanumericCharacters, c.minRequiredPasswordLength)) &&
      flags == Ok((c.enablePasswordReset, c.enablePasswordRetrieval, c.requiresQuestionAndAnswer,
                   c.requiresUniqueEmail, c.writeExceptionsToEventLog))
  {
    if limits.Err? then Err(limits.failure)
    else if flags.Err? then Err(flags.failure)
    else if format.Err? then Err(format.failure)
    else if autoGeneratedKey && format.value != Clear then Err(ProviderFailure(AutoGeneratedKeyMessage))
    else Ok(MembershipConfig(app, limits.value.0, limits.value.1, limits.value.2, limits.value.3, expression,
                             flags.value.0, flags.value.1, flags.value.2, flags.value.3, flags.value.4,
                             format.value))
  }



  /**
   * The integer settings of Initialize, in the order it converts them:
   * maxInvalidPasswordAttempts, passwordAttemptWindow,
   * minRequiredNonAlphanumericCharacters, minRequiredPasswordLength.
   */
  function Limits(config: Settings): (r: Result<(int, int, int, int)>)
    ensures r.Ok? <==> ParseInt(Setting(config, "maxInvalidPasswordAttempts", "5")).Ok? &&
                       ParseInt(Setting(config, "passwordAttemptWindow", "10")).Ok? &&
                       ParseInt(Setting(config, "minRequiredNonAlphanumericCharacters", "1")).Ok? &&
                       ParseInt(Setting(config, "minRequiredPasswordLength", "7")).Ok?
    ensures r.Ok? ==> Ok(r.value.0) == ParseInt(Setting(config, "maxInvalidPasswordAttempts", "5")) &&
                      Ok(r.value.1) == ParseInt(Setting(config, "passwordAttemptWindow", "10")) &&
                      Ok(r.value.2) == ParseInt(Setting(config, "minRequiredNonAlphanumericCharacters", "1")) &&
                      Ok(r.value.3) == ParseInt(Setting(config, "minRequiredPasswordLength", "7"))
  {
    var maxAttempts :- ParseInt(Setting(config, "maxInvalidPasswordAttempts", "5"));
    var window :- ParseInt(Setting(config, "passwordAttemptWindow", "10"));
    var minNonAlphanumeric :- ParseInt(Setting(config, "minRequiredNonAlphanumericCharacters", "1"));
    var minLength :- ParseInt(Setting(config, "minRequiredPasswordLength", "7"));
    Ok((maxAttempts, window, minNonAlphanumeric, minLength))
  }

  /**
   * The boolean settings of Initialize, in the order it converts them:
   * enablePasswordReset, enablePasswordRetrieval, requiresQuestionAndAnswer,
   * requiresUniqueEmail, writeExceptionsToEventLog.
   */
  function Flags(config: Settings): (r: Result<(bool, bool, bool, bool, bool)>)
    ensures r.Ok? <==> ParseBool(Setting(config, "enablePasswordReset", "true")).Ok? &&
                       ParseBool(Setting(config, "enablePasswordRetrieval", "true")).Ok? &&
                       ParseBool(Setting(config, "requiresQuestionAndAnswer", "false")).Ok? &&
                       ParseBool(Setting(config, "requiresUniqueEmail", "true")).Ok? &&
                       ParseBool(Setting(config, "writeExceptionsToEventLog", "true")).Ok?
    ensures r.Ok? ==> Ok(r.value.0) == ParseBool(Setting(config, "enablePasswordReset", "true")) &&
                      Ok(r.value.1) == ParseBool(Setting(config, "enablePasswordRetrieval", "true")) &&
                      Ok(r.value.2) == ParseBool(Setting(config, "requiresQuestionAndAnswer", "false")) &&
                      Ok(r.value.3) == ParseBool(Setting(config, "requiresUniqueEmail", "true")) &&
                      Ok(r.value.4) == ParseBool(Setting(config, "writeExceptionsToEventLog", "true"))
  {
    var reset :- ParseBool(Setting(config, "enablePasswordReset", "true"));
    var retrieval :- ParseBool(Setting(config, "enablePasswordRetrieval", "true"));
    var questionAndAnswer :- ParseBool(Setting(config, "requiresQuestionAndAnswer", "false"));
    var uniqueEmail :- ParseBool(Setting(config, "requiresUniqueEmail", "true"));
    var toEventLog :- ParseBool(Setting(config, "writeExceptionsToEventLog", "true"));
    Ok((reset, retrieval, questionAndAnswer, uniqueEmail, toEventLog))
  }

  /** With nothing configured and a fixed machine key, every default applies. */
  lemma InitializeDefaults(virtualPath: string)
    ensures Initialize(map[], virtualPath, false) ==
      Ok(MembershipConfig(virtualPath, 5, 10, 1, 7, "", true, true, false, true, true, Hashed))
  {
    DigitDefault('5');
    TenDefault();
    DigitDefault('1');
    DigitDefault('7');
    ParseBoolLiterals();
  }

  /** The two-digit default "10" parses to ten. */
  lemma TenDefault()
    ensures ParseInt("10") == Ok(10)
  {
    assert DigitsValue("10") == 10 by {
      assert "10"[..1] == "1";
      assert "1"[..0] == "";
    }
    ParseIntDigits("10");
  }

  /** A single digit parses to its value. */
  lemma DigitDefault(c: char)
    requires IsDigit(c)
    ensures ParseInt([c]) == Ok(c as int - '0' as int)
  {
    assert [c][..0] == "";
    ParseIntDigits([c]);
  }

  /**
   * GetUser(username, false) without its catch: HGETALL of the user hash; an
   * empty hash is no user, a present one is read field by field.
   */
  function FindUser(d: Directory, app: string, username: string): (r: Result<Option<User>>)
    ensures r == Ok(None) <==> HashOf(d.hashes, UserKey(app, username)) == map[]
    ensures r.Ok? && r.value.Some? ==> UserFromRecord(HashOf(d.hashes, UserKey(app, username))) == Ok(r.value.value)
    ensures r.Err? <==> HashOf(d.hashes, UserKey(app, username)) != map[] && UserFromRecord(HashOf(d.hashes, UserKey(app, username))).Err?
  {
    var h := HashOf(d.hashes, UserKey(app, username));
    if h == map[] then Ok(None)
    else
      var u :- UserFromRecord(h);
      Ok(Some(u))
  }

  /** The providerUserKey argument: null, a Guid, or an object of another type. */
  datatype ProviderUserKey = NoKey | GuidKey(g: Guid) | OtherKey

  /** MembershipCreateStatus, the values CreateUser reaches. */
  datatype CreateStatus = Success | InvalidPassword | DuplicateEmail | DuplicateUserName | InvalidProviderUserKey

  /** The arguments of CreateUser. */
  datatype NewUser = NewUser(username: string, password: string, email: Option<string>, question: Option<string>,
                             answer: Option<string>, isApproved: bool, providerUserKey: ProviderUserKey)

  /** What CreateUser hands back: the status and the user read back (null unless created). */
  datatype Created = Created(status: CreateStatus, user: Option<User>)

  /** GetUserNameByEmail(email) != null: a null e-mail looks up the key with an empty e-mail. */
  predicate EmailTaken(d: Directory, app: string, email: Option<string>) {
    EmailKey(app, OrEmpty(email)) in d.strings
  }

  /** The e-mail and provider-key lookups never share a key: they differ right after ":user:". */
  lemma LookupKeysDistinct(app: string, email: string, key: Guid)
    ensures EmailKey(app, email) != ProviderKey(app, key)
  {
    var n := |Prefix + app + ":user:"|;
    assert EmailKey(app, email)[n] == 'e';
    assert ProviderKey(app, key)[n] == 'p';
  }

  /** The lookups CreateUser sets: the provider key, and the e-mail unless it is empty. */
  function AddLookups(strings: map<string, string>, app: string, username: string, email: string, key: Guid): (r: map<string, string>)
    ensures ProviderKey(app, key) in r && r[ProviderKey(app, key)] == username
    ensures email != "" ==> EmailKey(app, email) in r && r[EmailKey(app, email)] == username
    ensures forall k :: k != ProviderKey(app, key) && (email == "" || k != EmailKey(app, email)) ==>
              (k in r <==> k in strings) && (k in r ==> r[k] == strings[k])
  {
    var s := strings[ProviderKey(app, key) := username];
    LookupKeysDistinct(app, email, key);
    if email != "" then s[EmailKey(app, email) := username] else s
  }

  /**
   * The writes of a successful CreateUser: HMSET of the user hash, SET of the
   * provider key, RPUSH onto the users list, INCR of the count, and SET of
   * the e-mail key when the e-mail is not empty.
   */
  function Enroll(d: Directory, app: string, u: NewUser, encodedPassword: string, key: Guid, now: int): (e: Directory)
    ensures HashOf(e.hashes, UserKey(app, u.username)) ==
            HashOf(d.hashes, UserKey(app, u.username)) + CreateUserDictionary(u.username, encodedPassword, u.email, u.question, u.answer, u.isApproved, key, now)
    ensures forall k :: k != UserKey(app, u.username) ==> HashOf(e.hashes, k) == HashOf(d.hashes, k)
    ensures ListOf(e.lists, UsersKey(app)) == ListOf(d.lists, UsersKey(app)) + [u.username]
    ensures CounterOf(e.counters, UsersCountKey(app)) == CounterOf(d.counters, UsersCountKey(app)) + 1
    ensures ProviderKey(app, key) in e.strings && e.strings[ProviderKey(app, key)] == u.username
    ensures OrEmpty(u.email) != "" ==> EmailKey(app, OrEmpty(u.email)) in e.strings && e.strings[EmailKey(app, OrEmpty(u.email))] == u.username
    ensures forall k :: k != ProviderKey(app, key) && (OrEmpty(u.email) == "" || k != EmailKey(app, OrEmpty(u.email))) ==>
              (k in e.strings <==> k in d.strings) && (k in e.strings ==> e.strings[k] == d.strings[k])
    ensures e.online == d.online
    ensures d.hashes.Valid() ==> e.hashes.Valid()
  {
    var record := CreateUserDictionary(u.username, encodedPassword, u.email, u.question, u.answer, u.isApproved, key, now);
    Directory(SetFields(d.hashes, UserKey(app, u.username), record),
              AddLookups(d.strings, app, u.username, OrEmpty(u.email), key),
              Increment(d.counters, UsersCountKey(app), 1),
              ListPush(d.lists, UsersKey(app), u.username),
              d.online)
  }

  /**
   * CreateUser once the connection is open, in the order of its checks: a
   * cancelled password validation, a taken e-mail (when unique e-mails are
   * required), an existing user (a failure reading it propagates), a
   * provider key that is not a Guid; otherwise the writes of Enroll and the
   * user read back. `freshKey` stands for Guid.NewGuid().
   */
  function Register(d: Directory, cfg: MembershipConfig, cipher: Cipher, u: NewUser, cancelled: bool, freshKey: Guid, now: int): (o: Outcome<Created, Directory>)
    ensures cancelled ==> o == Outcome(Ok(Created(InvalidPassword, None)), d)
    ensures !cancelled && cfg.requiresUniqueEmail && EmailTaken(d, cfg.app, u.email) ==> o == Outcome(Ok(Created(DuplicateEmail, None)), d)
    ensures o.result.Ok? && o.result.value.status == DuplicateUserName <==>
              !cancelled && !(cfg.requiresUniqueEmail && EmailTaken(d, cfg.app, u.email)) &&
              FindUser(d, cfg.app, u.username).Ok? && FindUser(d, cfg.app, u.username).value.Some?
    ensures o.result.Err? <==>
              !cancelled && !(cfg.requiresUniqueEmail && EmailTaken(d, cfg.app, u.email)) && FindUser(d, cfg.app, u.username).Err?
    ensures o.result.Err? ==> o.result.failure == FindUser(d, cfg.app, u.username).failure
    ensures o.result.Ok? && o.result.value.status != Success ==> o.state == d && o.result.value.user == None
    ensures o.result.Err? ==> o.state == d
    ensures o.result.Ok? && o.result.value.status == Success <==>
              !cancelled && !(cfg.requiresUniqueEmail && EmailTaken(d, cfg.app, u.email)) &&
              FindUser(d, cfg.app, u.username) == Ok(None) && !u.providerUserKey.OtherKey?
    ensures o.result.Ok? && o.result.value.status == Success ==> (
      var key := if u.providerUserKey.GuidKey? then u.providerUserKey.g else freshKey;
      o.state == Enroll(d, cfg.app, u, EncodePassword(cfg.passwordFormat, cipher, u.password), key, now) &&
      o.result.value.user == Some(User(u.username, key, OrEmpty(u.email), OrEmpty(u.question), "", u.isApproved, false,
                                       now, now, now, now, now)))
  {
    if cancelled then Outcome(Ok(Created(InvalidPassword, None)), d)
    else if cfg.requiresUniqueEmail && EmailTaken(d, cfg.app, u.email) then Outcome(Ok(Created(DuplicateEmail, None)), d)
    else
      match FindUser(d, cfg.app, u.username)
      case Err(f) => Outcome(Err(f), d)
      case Ok(Some(_)) => Outcome(Ok(Created(DuplicateUserName, None)), d)
      case Ok(None) =>
        if u.providerUserKey.OtherKey? then Outcome(Ok(Created(InvalidProviderUserKey, None)), d)
        else
          var key := if u.providerUserKey.GuidKey? then u.providerUserKey.g else freshKey;
          var encoded := EncodePassword(cfg.passwordFormat, cipher, u.password);
          var e := Enroll(d, cfg.app, u, encoded, key, now);
          EnrollReadsBack(d, cfg.app, u, encoded, key, now);
          match FindUser(e, cfg.app, u.username)
          case Err(f) => Outcome(Err(f), e)
          case Ok(user) => Outcome(Ok(Created(Success, user)), e)
  }

  /** A user enrolled where no user hash was reads back as the user described. */
  lemma EnrollReadsBack(d: Directory, app: string, u: NewUser, encodedPassword: string, key: Guid, now: int)
    requires HashOf(d.hashes, UserKey(app, u.username)) == map[]
    ensures FindUser(Enroll(d, app, u, encodedPassword, key, now), app, u.username) ==
            Ok(Some(User(u.username, key, OrEmpty(u.email), OrEmpty(u.question), "", u.isApproved, false, now, now, now, now, now)))
  {
    var record := CreateUserDictionary(u.username, encodedPassword, u.email, u.question, u.answer, u.isApproved, key, now);
    RecordRoundTrip(u.username, encodedPassword, u.email, u.question, u.answer, u.isApproved, key, now);
    assert map[] + record == record;
  }

  /**
   * ValidateUser once the connection is open, before its catch: no stored
   * password is an unknown user; a locked-out user is refused whatever the
   * password; a matching password logs an approved user in (LastLoginDate)
   * and refuses an unapproved one; a wrong password counts a failure.
   */
  function Validate(d: Directory, cfg: MembershipConfig, cipher: Cipher, username: string, password: string, now: int): (o: Outcome<bool, Directory>)
    ensures var h := HashOf(d.hashes, UserKey(cfg.app, username));
      o.result == Ok(true) <==>
        "Password" in h && h["Password"].Text? && "IsApproved" in h && h["IsApproved"] == Flag(true) &&
        "IsLockedOut" in h && h["IsLockedOut"] == Flag(false) && CheckPassword(cfg.passwordFormat, cipher, password, h["Password"].s)
    ensures o.result == Ok(true) ==> o.state == d.(hashes := SetFields(d.hashes, UserKey(cfg.app, username), map["LastLoginDate" := Time(now)]))
    ensures "Password" !in HashOf(d.hashes, UserKey(cfg.app, username)) ==> o == Outcome(Ok(false), d)
    ensures o.result.Err? ==> o.state == d
    ensures o.state == d.(hashes := o.state.hashes)
    ensures forall k :: k != UserKey(cfg.app, username) ==> HashOf(o.state.hashes, k) == HashOf(d.hashes, k)
    ensures d.hashes.Valid() ==> o.state.hashes.Valid()
  {
    var key := UserKey(cfg.app, username);
    var h := HashOf(d.hashes, key);
    if "Password" !in h then Outcome(Ok(false), d)
    else
      match (TextField(h, "Password"), FlagField(h, "IsApproved"), FlagField(h, "IsLockedOut"))
      case (Err(f), _, _) => Outcome(Err(f), d)
      case (Ok(_), Err(f), _) => Outcome(Err(f), d)
      case (Ok(_), Ok(_), Err(f)) => Outcome(Err(f), d)
      case (Ok(stored), Ok(isApproved), Ok(isLockedOut)) =>
        if isLockedOut then Outcome(Ok(false), d)
        else if CheckPassword(cfg.passwordFormat, cipher, password, stored) then
          if isApproved then Outcome(Ok(true), d.(hashes := SetFields(d.hashes, key, map["LastLoginDate" := Time(now)])))
          else Outcome(Ok(false), d)
        else
          var failed := RecordFailure(d, cfg, username, PasswordFailure, now);
          Outcome(if failed.result.Ok? then Ok(false) else Err(failed.result.failure), failed.state)
  }

  /** UpdateFailureCount once the connection is open: HMSET of the failure fields. */
  function RecordFailure(d: Directory, cfg: MembershipConfig, username: string, kind: FailureKind, now: int): (o: Outcome<(), Directory>)
    ensures var h := HashOf(d.hashes, UserKey(cfg.app, username));
      var a := AfterFailure(h, kind, now, cfg.passwordAttemptWindow, cfg.maxInvalidPasswordAttempts);
      (o.result.Ok? <==> a.Ok?) &&
      (a.Ok? ==> HashOf(o.state.hashes, UserKey(cfg.app, username)) == a.value) &&
      (a.Err? ==> o.state == d && o.result == Err(a.failure))
    ensures o.state == d.(hashes := o.state.hashes)
    ensures forall k :: k != UserKey(cfg.app, username) ==> HashOf(o.state.hashes, k) == HashOf(d.hashes, k)
    ensures d.hashes.Valid() ==> o.state.hashes.Valid()
  {
    var key := UserKey(cfg.app, username);
    var h := HashOf(d.hashes, key);
    var f := FailureFields(h, kind, now, cfg.passwordAttemptWindow, cfg.maxInvalidPasswordAttempts);
    if f.Err? then Outcome(Err(f.failure), d)
    else
      var hashes := SetFields(d.hashes, key, f.value);
      assert HashOf(hashes, key) == h + f.value;
      Outcome(Ok(()), d.(hashes := hashes))
  }

  /** A catch block that turns a failure into `false` when failures go to the event log. */
  function FalseOnError<S>(writeToEventLog: bool, o: Outcome<bool, S>): (c: Outcome<bool, S>)
    ensures c.state == o.state
    ensures o.result.Ok? || !writeToEventLog ==> c == o
    ensures o.result.Err? && writeToEventLog ==> c.result == Ok(false)
  {
    if o.result.Err? && writeToEventLog then Outcome(Ok(false), o.state) else o
  }

  /**
   * DeleteUser once the connection is open, before its catch: the user hash
   * is always deleted; with deleteAllRelatedData and an existing user the
   * e-mail key, the provider key, every list entry with this name (as
   * typed), one from the count and the online entry go too.
   */
  function Unregister(d: Directory, app: string, username: string, deleteAll: bool): (o: Outcome<bool, Directory>)
    ensures o.result.Err? <==> FindUser(d, app, username).Err?
    ensures o.result.Err? ==> o.state == d
    ensures o.result.Ok? ==> o.result.value && HashOf(o.state.hashes, UserKey(app, username)) == map[]
    ensures forall k :: k != UserKey(app, username) ==> HashOf(o.state.hashes, k) == HashOf(d.hashes, k)
    ensures o.result.Ok? && !(deleteAll && FindUser(d, app, username).value.Some?) ==>
              o.state == d.(hashes := d.hashes.Delete(UserKey(app, username)))
    ensures o.result.Ok? && deleteAll && FindUser(d, app, username).value.Some? ==> (
      var user := FindUser(d, app, username).value.value;
      EmailKey(app, user.email) !in o.state.strings && ProviderKey(app, user.key) !in o.state.strings &&
      username !in ListOf(o.state.lists, UsersKey(app)) &&
      CounterOf(o.state.counters, UsersCountKey(app)) == CounterOf(d.counters, UsersCountKey(app)) - 1 &&
      username !in Members(o.state.online, UsersOnlineKey(app)))
    ensures o.result.Ok? && deleteAll && FindUser(d, app, username).value.Some? ==> (
      var user := FindUser(d, app, username).value.value;
      o.state == d.(hashes := d.hashes.Delete(UserKey(app, username)),
                    strings := d.strings - {EmailKey(app, user.email), ProviderKey(app, user.key)},
                    lists := ListRemove(d.lists, UsersKey(app), username),
                    counters := Increment(d.counters, UsersCountKey(app), -1),
                    online := SetRemove(d.online, UsersOnlineKey(app), username)))
    ensures d.hashes.Valid() ==> o.state.hashes.Valid()
  {
    match FindUser(d, app, username)
    case Err(f) => Outcome(Err(f), d)
    case Ok(found) =>
      var removed := d.(hashes := d.hashes.Delete(UserKey(app, username)));
      if deleteAll && found.Some? then
        Outcome(Ok(true), removed.(strings := d.strings - {EmailKey(app, found.value.email), ProviderKey(app, found.value.key)},
                                   lists := ListRemove(d.lists, UsersKey(app), username),
                                   counters := Increment(d.counters, UsersCountKey(app), -1),
                                   online := SetRemove(d.online, UsersOnlineKey(app), username)))
      else Outcome(Ok(true), removed)
  }

  /** HMSET of one field is HSET of that field. */
  lemma MergeOne(h: Hash, name: string, v: Value)
    ensures h + map[name := v] == h[name := v]
  {
    assert (h + map[name := v]).Keys == h.Keys + {name};
  }

  /** The two HSETs of ChangePassword: the encoded password, then a change date under `dateField`. */
  function WritePassword(hashes: Db<Hash>, key: string, encoded: string, dateField: string, date: Value): (r: Db<Hash>)
    ensures HashOf(r, key) == HashOf(hashes, key)["Password" := Text(encoded)][dateField := date]
    ensures forall k :: k != key ==> HashOf(r, k) == HashOf(hashes, k)
    ensures hashes.Valid() ==> r.Valid()
  {
    var h1 := SetFields(hashes, key, map["Password" := Text(encoded)]);
    MergeOne(HashOf(hashes, key), "Password", Text(encoded));
    assert HashOf(h1, key) == HashOf(hashes, key)["Password" := Text(encoded)];
    var r := SetFields(h1, key, map[dateField := date]);
    MergeOne(HashOf(h1, key), dateField, date);
    assert HashOf(r, key) == HashOf(h1, key)[dateField := date];
    r
  }

  /**
   * ChangePassword as written: after ValidateUser it stores the new encoded
   * password and a culture-formatted date string under
   * "LastPasswordChangedDate", a field nothing reads: the record's
   * LastPasswordChangeDate is left as it was.
   */
  function PasswordChangeAsWritten(d: Directory, cfg: MembershipConfig, cipher: Cipher, username: string,
                                   oldPassword: string, newPassword: string, cancelled: bool, now: int, stamp: string,
                                   connected: Result<Handle>): (o: Outcome<bool, Directory>)
    ensures o.result == Ok(true) ==> connected.Ok? && Validate(d, cfg, cipher, username, oldPassword, now).result == Ok(true) && !cancelled
    ensures o.result == Ok(true) ==> (
      var v := Validate(d, cfg, cipher, username, oldPassword, now).state;
      var key := UserKey(cfg.app, username);
      HashOf(o.state.hashes, key) ==
        HashOf(v.hashes, key)["Password" := Text(EncodePassword(cfg.passwordFormat, cipher, newPassword))]["LastPasswordChangedDate" := Text(stamp)])
  {
    var flag := cfg.writeExceptionsToEventLog;
    var v := FalseOnError(flag, Guarded(flag, connected, d, Validate(d, cfg, cipher, username, oldPassword, now)));
    if v.result.Err? || !v.result.value then v
    else if cancelled then Outcome(Err(PasswordCancelled), v.state)
    else
      var encoded := EncodePassword(cfg.passwordFormat, cipher, newPassword);
      Outcome(Ok(true), v.state.(hashes := WritePassword(v.state.hashes, UserKey(cfg.app, username), encoded,
                                                         "LastPasswordChangedDate", Text(stamp))))
  }

  /**
   * ChangePassword as evidently intended: the same, but the change date is
   * stored under "LastPasswordChangeDate", the field the user record is read
   * from. The cancelled password validation is thrown outside the catch.
   */
  function PasswordChange(d: Directory, cfg: MembershipConfig, cipher: Cipher, username: string,
                          oldPassword: string, newPassword: string, cancelled: bool, now: int,
                          connected: Result<Handle>): (o: Outcome<bool, Directory>)
    ensures o.result == Ok(true) <==> connected.Ok? && Validate(d, cfg, cipher, username, oldPassword, now).result == Ok(true) && !cancelled
    ensures connected.Ok? && Validate(d, cfg, cipher, username, oldPassword, now).result == Ok(true) && cancelled ==>
              o.result == Err(PasswordCancelled)
    ensures o.result == Ok(true) ==> (
      var v := Validate(d, cfg, cipher, username, oldPassword, now).state;
      var key := UserKey(cfg.app, username);
      HashOf(o.state.hashes, key) ==
        HashOf(v.hashes, key)["Password" := Text(EncodePassword(cfg.passwordFormat, cipher, newPassword))]["LastPasswordChangeDate" := Time(now)] &&
      forall k :: k != key ==> HashOf(o.state.hashes, k) == HashOf(d.hashes, k))
    ensures o.result.Err? && o.result != Err(PasswordCancelled) ==> !cfg.writeExceptionsToEventLog
    ensures o.state == d.(hashes := o.state.hashes)
    ensures d.hashes.Valid() ==> o.state.hashes.Valid()
  {
    var flag := cfg.writeExceptionsToEventLog;
    var v := FalseOnError(flag, Guarded(flag, connected, d, Validate(d, cfg, cipher, username, oldPassword, now)));
    if v.result.Err? || !v.result.value then v
    else if cancelled then Outcome(Err(PasswordCancelled), v.state)
    else
      var encoded := EncodePassword(cfg.passwordFormat, cipher, newPassword);
      Outcome(Ok(true), v.state.(hashes := WritePassword(v.state.hashes, UserKey(cfg.app, username), encoded,
                                                         "LastPasswordChangeDate", Time(now))))
  }

  /** A listed name whose hash is gone is skipped; one whose hash is present must read back. */
  predicate Readable(hashes: Db<Hash>, app: string, name: string) {
    HashOf(hashes, UserKey(app, name)) == map[] || UserFromRecord(HashOf(hashes, UserKey(app, name))).Ok?
  }

  /** The user a listed name stands for: none when its hash is empty, else the hash read back. */
  function UserAt(hashes: Db<Hash>, app: string, name: string): (r: Result<Option<User>>)
    ensures r.Ok? <==> Readable(hashes, app, name)
    ensures r.Ok? ==> (r.value.None? <==> HashOf(hashes, UserKey(app, name)) == map[])
    ensures r.Ok? && r.value.Some? ==> UserFromRecord(HashOf(hashes, UserKey(app, name))) == Ok(r.value.value)
  {
    var h := HashOf(hashes, UserKey(app, name));
    if h == map[] then Ok(None)
    else
      var user :- UserFromRecord(h);
      Ok(Some(user))
  }

  /**
   * MembershipUserCollection keys its users by UserName ignoring case: a
   * user named like one already collected is refused.
   */
  predicate NameCollected(users: seq<User>, name: string) {
    exists i :: 0 <= i < |users| && Lower(users[i].name) == Lower(name)
  }

  /** No two users whose names differ only in letter case. */
  predicate DistinctNames(users: seq<User>) {
    forall i, j :: 0 <= i < j < |users| ==> Lower(users[i].name) != Lower(users[j].name)
  }

  /**
   * The users behind a run of listed names, in list order: an empty hash is
   * skipped, and the first hash that does not read back, or the first user
   * whose name was already collected, is the failure.
   */
  function CollectUsers(hashes: Db<Hash>, app: string, names: seq<string>): (r: Result<seq<User>>)
    ensures r.Ok? ==> forall i :: 0 <= i < |names| ==> Readable(hashes, app, names[i])
    ensures r.Ok? ==> |r.value| <= |names| && DistinctNames(r.value)
  {
    if names == [] then Ok([])
    else
      var init := names[..|names| - 1];
      var last := names[|names| - 1];
      NamesReadSnoc(hashes, app, names);
      var users :- CollectUsers(hashes, app, init);
      var found :- UserAt(hashes, app, last);
      if found.None? then Ok(users)
      else if NameCollected(users, found.value.name) then Err(DuplicateKey(found.value.name))
      else
        AddDistinct(users, found.value);
        Ok(users + [found.value])
  }

  /** One more listed name: the run so far, extended by the user it reaches or stopped by its failure. */
  lemma CollectStep(hashes: Db<Hash>, app: string, names: seq<string>, i: nat, users: seq<User>)
    requires i < |names|
    requires CollectUsers(hashes, app, names[..i]) == Ok(users)
    ensures var r := CollectUsers(hashes, app, names[..i + 1]);
      match UserAt(hashes, app, names[i])
      case Err(f) => r == Err(f)
      case Ok(None) => r == Ok(users)
      case Ok(Some(u)) =>
        r == if NameCollected(users, u.name) then Err(DuplicateKey(u.name)) else Ok(users + [u])
  {
    var run := names[..i + 1];
    assert run[..|run| - 1] == names[..i];
    assert run[|run| - 1] == names[i];
  }

  /** The user a listed name reaches, if its hash holds one that reads back. */
  function Found(hashes: Db<Hash>, app: string, name: string): (u: Option<User>)
    ensures u.Some? <==> HashOf(hashes, UserKey(app, name)) != map[] && UserFromRecord(HashOf(hashes, UserKey(app, name))).Ok?
    ensures u.Some? ==> Ok(u.value) == UserFromRecord(HashOf(hashes, UserKey(app, name)))
    ensures u.Some? <==> UserAt(hashes, app, name).Ok? && UserAt(hashes, app, name).value.Some?
    ensures u.Some? ==> UserAt(hashes, app, name) == Ok(u)
  {
    match UserAt(hashes, app, name)
    case Ok(u) => u
    case Err(_) => None
  }

  /** The users the listed names reach, in list order. */
  function Reached(hashes: Db<Hash>, app: string, names: seq<string>): (us: seq<User>)
    ensures |us| <= |names|
  {
    Somes(seq(|names|, i requires 0 <= i < |names| => Found(hashes, app, names[i])))
  }

  /** Reached over a run that ends in one more name. */
  lemma ReachedSnoc(hashes: Db<Hash>, app: string, names: seq<string>)
    requires names != []
    ensures var init := names[..|names| - 1];
      Reached(hashes, app, names) ==
        Reached(hashes, app, init) + (if Found(hashes, app, names[|names| - 1]).Some? then [Found(hashes, app, names[|names| - 1]).value] else [])
  {
    var init := names[..|names| - 1];
    var all := seq(|names|, i requires 0 <= i < |names| => Found(hashes, app, names[i]));
    var front := seq(|init|, i requires 0 <= i < |init| => Found(hashes, app, init[i]));
    var last := [Found(hashes, app, names[|names| - 1])];
    assert all == front + last;
    SomesAppend(front, last);
    assert last[1..] == [];
  }

  /**
   * What the listing of a run of names yields: it succeeds exactly when
   * every listed hash is empty or reads back and no two users reached share
   * a name up to letter case, and then it holds exactly the users reached,
   * in list order.
   */
  lemma {:induction false} CollectUsersExact(hashes: Db<Hash>, app: string, names: seq<string>)
    ensures CollectUsers(hashes, app, names).Ok? <==>
      (forall i :: 0 <= i < |names| ==> Readable(hashes, app, names[i])) && DistinctNames(Reached(hashes, app, names))
    ensures CollectUsers(hashes, app, names).Ok? ==> CollectUsers(hashes, app, names).value == Reached(hashes, app, names)
  {
    if names == [] {
      assert Reached(hashes, app, names) == [];
    } else {
      var init := names[..|names| - 1];
      var last := names[|names| - 1];
      assert forall i :: 0 <= i < |init| ==> init[i] == names[i];
      CollectUsersExact(hashes, app, init);
      ReachedSnoc(hashes, app, names);
      var reached := Reached(hashes, app, names);
      var before := Reached(hashes, app, init);
      assert before == reached[..|before|];
      DistinctNamesPrefix(before, reached);
      var prev := CollectUsers(hashes, app, init);
      var found := UserAt(hashes, app, last);
      NamesReadSnoc(hashes, app, names);
      var r := CollectUsers(hashes, app, names);
      if prev.Err? {
        assert r == Err(prev.failure);
      } else if found.Err? {
        assert r == Err(found.failure);
      } else if found.value.None? {
        assert r == prev;
        assert reached == before + [];
      } else {
        var u := found.value.value;
        assert reached == before + [u];
        if NameCollected(before, u.name) {
          assert r.Err?;
          CollectedNotDistinct(before, u);
        } else {
          assert r == Ok(before + [u]);
          AddDistinct(before, u);
        }
      }
    }
  }

  /** Every listed name reads exactly when every name but the last does and the last does too. */
  lemma NamesReadSnoc(hashes: Db<Hash>, app: string, names: seq<string>)
    requires names != []
    ensures var init := names[..|names| - 1];
      (forall i :: 0 <= i < |names| ==> Readable(hashes, app, names[i])) <==>
        (forall i :: 0 <= i < |init| ==> Readable(hashes, app, init[i])) && Readable(hashes, app, names[|names| - 1])
  {
    var init := names[..|names| - 1];
    assert forall i :: 0 <= i < |init| ==> init[i] == names[i];
  }

  /** A run of users with distinct names has distinct names in every prefix. */
  lemma DistinctNamesPrefix(before: seq<User>, all: seq<User>)
    requires |before| <= |all| && before == all[..|before|]
    ensures DistinctNames(all) ==> DistinctNames(before)
  {
    assert forall i :: 0 <= i < |before| ==> before[i] == all[i];
  }

  /** A user whose name was not collected keeps the collected names distinct. */
  lemma AddDistinct(users: seq<User>, u: User)
    requires DistinctNames(users) && !NameCollected(users, u.name)
    ensures DistinctNames(users + [u])
  {
    var all := users + [u];
    forall i, j | 0 <= i < j < |all|
      ensures Lower(all[i].name) != Lower(all[j].name)
    {
      if j == |users| {
        assert all[i] == users[i];
      }
    }
  }

  /** A user whose name was already collected makes the names of the run repeat. */
  lemma CollectedNotDistinct(users: seq<User>, u: User)
    requires NameCollected(users, u.name)
    ensures !DistinctNames(users + [u])
  {
    var i :| 0 <= i < |users| && Lower(users[i].name) == Lower(u.name);
    var all := users + [u];
    assert all[i] == users[i] && all[|users|] == u;
  }

  /** A name listed twice whose hash holds a user fails the listing on the second occurrence. */
  lemma ListedTwiceRefused(hashes: Db<Hash>, app: string, name: string)
    requires HashOf(hashes, UserKey(app, name)) != map[]
    requires UserFromRecord(HashOf(hashes, UserKey(app, name))).Ok?
    ensures CollectUsers(hashes, app, [name, name]) == Err(DuplicateKey(UserFromRecord(HashOf(hashes, UserKey(app, name))).value.name))
  {
    assert [name, name][..1] == [name];
    assert [name][..0] == [];
    var u := UserFromRecord(HashOf(hashes, UserKey(app, name))).value;
    assert UserAt(hashes, app, name) == Ok(Some(u));
    var one: seq<string> := [name];
    assert one[..|one| - 1] == [];
    assert !NameCollected([], u.name);
    assert [] + [u] == [u];
    assert CollectUsers(hashes, app, one) == Ok([u]);
    assert NameCollected([u], u.name) by {
      assert [u][0] == u;
    }
  }

  /** When every listed name has a user hash, no name is skipped: one user per name. */
  lemma {:induction false} CollectUsersNoneSkipped(hashes: Db<Hash>, app: string, names: seq<string>)
    requires CollectUsers(hashes, app, names).Ok?
    requires forall i :: 0 <= i < |names| ==> HashOf(hashes, UserKey(app, names[i])) != map[]
    ensures |CollectUsers(hashes, app, names).value| == |names|
  {
    if names != [] {
      var init := names[..|names| - 1];
      assert forall i :: 0 <= i < |init| ==> init[i] == names[i];
      CollectUsersNoneSkipped(hashes, app, init);
    }
  }

  /** One page of GetAllUsers and the stored user count (0 when there is none). */
  datatype UserPage = UserPage(users: seq<User>, total: int)

  /** GetAllUsers once the connection is open, before its catch, with the corrected page end. */
  function AllUsers(d: Directory, app: string, pageIndex: int, pageSize: int): (r: Result<UserPage>)
    ensures r.Ok? <==> CollectUsers(d.hashes, app, Page(ListOf(d.lists, UsersKey(app)), pageIndex, pageSize)).Ok?
    ensures r.Ok? ==> r.value.total == CounterOf(d.counters, UsersCountKey(app))
    ensures r.Ok? ==> |r.value.users| <= |Page(ListOf(d.lists, UsersKey(app)), pageIndex, pageSize)|
    ensures r.Ok? ==> DistinctNames(r.value.users)
  {
    var names := Page(ListOf(d.lists, UsersKey(app)), pageIndex, pageSize);
    var users :- CollectUsers(d.hashes, app, names);
    Ok(UserPage(users, CounterOf(d.counters, UsersCountKey(app))))
  }

  /** The users of a page are exactly the users its names reach, in list order, when no two share a name. */
  lemma AllUsersExact(d: Directory, app: string, pageIndex: int, pageSize: int)
    ensures var names := Page(ListOf(d.lists, UsersKey(app)), pageIndex, pageSize);
      (AllUsers(d, app, pageIndex, pageSize).Ok? <==>
         (forall i :: 0 <= i < |names| ==> Readable(d.hashes, app, names[i])) && DistinctNames(Reached(d.hashes, app, names))) &&
      (AllUsers(d, app, pageIndex, pageSize).Ok? ==> AllUsers(d, app, pageIndex, pageSize).value.users == Reached(d.hashes, app, names))
  {
    CollectUsersExact(d.hashes, app, Page(ListOf(d.lists, UsersKey(app)), pageIndex, pageSize));
  }

  /** A page of users never holds more than pageSize users. */
  lemma AllUsersPageSize(d: Directory, app: string, pageIndex: int, pageSize: int)
    requires InBounds(pageIndex, pageSize)
    requires AllUsers(d, app, pageIndex, pageSize).Ok?
    ensures |AllUsers(d, app, pageIndex, pageSize).value.users| <= pageSize
  {
    PageIsSlice(ListOf(d.lists, UsersKey(app)), pageIndex, pageSize);
  }

  /** The user hash of a user just enrolled where there was none is exactly the new record. */
  lemma EnrolledRecord(d: Directory, app: string, u: NewUser, encodedPassword: string, key: Guid, now: int)
    requires HashOf(d.hashes, UserKey(app, u.username)) == map[]
    ensures HashOf(Enroll(d, app, u, encodedPassword, key, now).hashes, UserKey(app, u.username)) ==
            CreateUserDictionary(u.username, encodedPassword, u.email, u.question, u.answer, u.isApproved, key, now)
  {
    var record := CreateUserDictionary(u.username, encodedPassword, u.email, u.question, u.answer, u.isApproved, key, now);
    assert map[] + record == record;
  }

  /**
   * User names are compared without case: once "abc" is created, creating
   * a name that lower-cases the same reports DuplicateUserName and writes
   * nothing (unless its e-mail is already taken, which is checked first).
   */
  lemma CreateUserIgnoresCase(d: Directory, cfg: MembershipConfig, cipher: Cipher, first: NewUser, second: NewUser,
                              key1: Guid, key2: Guid, now1: int, now2: int)
    requires Register(d, cfg, cipher, first, false, key1, now1).result.Ok?
    requires Register(d, cfg, cipher, first, false, key1, now1).result.value.status == Success
    requires Lower(first.username) == Lower(second.username)
    requires !(cfg.requiresUniqueEmail && EmailTaken(Register(d, cfg, cipher, first, false, key1, now1).state, cfg.app, second.email))
    ensures var e := Register(d, cfg, cipher, first, false, key1, now1).state;
      Register(e, cfg, cipher, second, false, key2, now2) == Outcome(Ok(Created(DuplicateUserName, None)), e)
  {
    var e := Register(d, cfg, cipher, first, false, key1, now1).state;
    var key := if first.providerUserKey.GuidKey? then first.providerUserKey.g else key1;
    EnrollReadsBack(d, cfg.app, first, EncodePassword(cfg.passwordFormat, cipher, first.password), key, now1);
    assert UserKey(cfg.app, second.username) == UserKey(cfg.app, first.username);
  }

  /** "ABC" lower-cases to "abc". */
  lemma LowerAbc()
    ensures Lower("ABC") == Lower("abc") == "abc"
  {
    assert LowerChar('A') == 'a' && LowerChar('B') == 'b' && LowerChar('C') == 'c';
  }

  /**
   * A user created approved validates with the password it was created with,
   * provided an Encrypted format decrypts what it encrypts.
   */
  lemma CreateThenValidate(d: Directory, cfg: MembershipConfig, cipher: Cipher, u: NewUser, key: Guid, now: int, later: int)
    requires Register(d, cfg, cipher, u, false, key, now).result.Ok?
    requires Register(d, cfg, cipher, u, false, key, now).result.value.status == Success
    requires u.isApproved
    requires cfg.passwordFormat == Encrypted ==> cipher.decrypt(cipher.encrypt(u.password)) == u.password
    ensures Validate(Register(d, cfg, cipher, u, false, key, now).state, cfg, cipher, u.username, u.password, later).result == Ok(true)
  {
    var k := if u.providerUserKey.GuidKey? then u.providerUserKey.g else key;
    var encoded := EncodePassword(cfg.passwordFormat, cipher, u.password);
    EnrolledRecord(d, cfg.app, u, encoded, k, now);
    EncodedPasswordChecks(cfg.passwordFormat, cipher, u.password);
  }

  /** A locked-out user is refused and nothing is written, whatever the password. */
  lemma LockedOutRefused(d: Directory, cfg: MembershipConfig, cipher: Cipher, username: string, password: string, now: int)
    requires var h := HashOf(d.hashes, UserKey(cfg.app, username));
      "Password" in h && h["Password"].Text? && "IsApproved" in h && h["IsApproved"].Flag? && "IsLockedOut" in h && h["IsLockedOut"] == Flag(true)
    ensures Validate(d, cfg, cipher, username, password, now) == Outcome(Ok(false), d)
  {
  }

  /** A wrong password is refused and counted as a failure on the user hash. */
  lemma WrongPasswordCounted(d: Directory, cfg: MembershipConfig, cipher: Cipher, username: string, password: string, now: int)
    requires var h := HashOf(d.hashes, UserKey(cfg.app, username));
      "Password" in h && h["Password"].Text? && "IsApproved" in h && h["IsApproved"].Flag? &&
      "IsLockedOut" in h && h["IsLockedOut"] == Flag(false) && HasCounter(h, PasswordFailure) &&
      !CheckPassword(cfg.passwordFormat, cipher, password, h["Password"].s)
    ensures var h := HashOf(d.hashes, UserKey(cfg.app, username));
      var o := Validate(d, cfg, cipher, username, password, now);
      o.result == Ok(false) &&
      HashOf(o.state.hashes, UserKey(cfg.app, username)) == AfterFailure(h, PasswordFailure, now, cfg.passwordAttemptWindow, cfg.maxInvalidPasswordAttempts).value
  {
  }

  /**
   * Deleting a user just created, with all related data, leaves no user
   * hash, no lookup keys, no list entry and the count where it was.
   */
  lemma CreateThenDelete(d: Directory, cfg: MembershipConfig, cipher: Cipher, u: NewUser, key: Guid, now: int)
    requires Register(d, cfg, cipher, u, false, key, now).result.Ok?
    requires Register(d, cfg, cipher, u, false, key, now).result.value.status == Success
    ensures var e := Register(d, cfg, cipher, u, false, key, now).state;
      var o := Unregister(e, cfg.app, u.username, true);
      var k := if u.providerUserKey.GuidKey? then u.providerUserKey.g else key;
      o.result == Ok(true) && FindUser(o.state, cfg.app, u.username) == Ok(None) &&
      ProviderKey(cfg.app, k) !in o.state.strings && EmailKey(cfg.app, OrEmpty(u.email)) !in o.state.strings &&
      u.username !in ListOf(o.state.lists, UsersKey(cfg.app)) &&
      CounterOf(o.state.counters, UsersCountKey(cfg.app)) == CounterOf(d.counters, UsersCountKey(cfg.app))
  {
    var k := if u.providerUserKey.GuidKey? then u.providerUserKey.g else key;
    EnrollReadsBack(d, cfg.app, u, EncodePassword(cfg.passwordFormat, cipher, u.password), k, now);
  }

  /**
   * The list entry is removed by the name as typed, the user hash by its
   * lower-cased key: deleting "ABC" after creating "abc" removes the user
   * but leaves "abc" in the users list.
   */
  lemma DeleteOtherCaseKeepsListEntry(d: Directory, cfg: MembershipConfig, cipher: Cipher, u: NewUser, key: Guid, now: int)
    requires u.username == "abc"
    requires Register(d, cfg, cipher, u, false, key, now).result.Ok?
    requires Register(d, cfg, cipher, u, false, key, now).result.value.status == Success
    ensures var e := Register(d, cfg, cipher, u, false, key, now).state;
      var o := Unregister(e, cfg.app, "ABC", true);
      o.result == Ok(true) && FindUser(o.state, cfg.app, "abc") == Ok(None) &&
      "abc" in ListOf(o.state.lists, UsersKey(cfg.app))
  {
    var k := if u.providerUserKey.GuidKey? then u.providerUserKey.g else key;
    LowerAbc();
    EnrollThenDeleteOtherCase(d, cfg.app, u, EncodePassword(cfg.passwordFormat, cipher, u.password), k, now, "ABC");
  }

  /** Deleting a just-enrolled user under another spelling of the name removes the user hash but not the list entry. */
  lemma EnrollThenDeleteOtherCase(d: Directory, app: string, u: NewUser, encodedPassword: string, key: Guid, now: int, other: string)
    requires HashOf(d.hashes, UserKey(app, u.username)) == map[]
    requires Lower(other) == Lower(u.username) && other != u.username
    ensures var o := Unregister(Enroll(d, app, u, encodedPassword, key, now), app, other, true);
      o.result == Ok(true) && FindUser(o.state, app, u.username) == Ok(None) &&
      u.username in ListOf(o.state.lists, UsersKey(app))
  {
    var e := Enroll(d, app, u, encodedPassword, key, now);
    EnrollReadsBack(d, app, u, encodedPassword, key, now);
    assert UserKey(app, other) == UserKey(app, u.username);
    assert u.username in ListOf(e.lists, UsersKey(app));
  }

  /** The user hash after a login and the two writes of ChangePassword as written reads back with only the login changed. */
  lemma WrittenChangeRead(h: Hash, now: int, encoded: string, stamp: string)
    requires UserFromRecord(h).Ok?
    ensures UserFromRecord(h["LastLoginDate" := Time(now)]["Password" := Text(encoded)]["LastPasswordChangedDate" := Text(stamp)]) ==
            Ok(UserFromRecord(h).value.(lastLogin := now))
  {
    var h1 := h["LastLoginDate" := Time(now)];
    LoginDateRead(h, now);
    OtherFieldKeepsUser(h1, "Password", Text(encoded));
    OtherFieldKeepsUser(h1["Password" := Text(encoded)], "LastPasswordChangedDate", Text(stamp));
  }

  /** The same with the change date under LastPasswordChangeDate: both dates are read back. */
  lemma CorrectedChangeRead(h: Hash, now: int, encoded: string)
    requires UserFromRecord(h).Ok?
    ensures UserFromRecord(h["LastLoginDate" := Time(now)]["Password" := Text(encoded)]["LastPasswordChangeDate" := Time(now)]) ==
            Ok(UserFromRecord(h).value.(lastLogin := now, lastPasswordChange := now))
  {
    var h1 := h["LastLoginDate" := Time(now)];
    LoginDateRead(h, now);
    OtherFieldKeepsUser(h1, "Password", Text(encoded));
    PasswordChangeDateRead(h1["Password" := Text(encoded)], now);
  }

  /**
   * As written, a successful ChangePassword leaves the change date the user
   * record reports untouched: the date goes to a field nothing reads.
   */
  lemma ChangePasswordAsWrittenKeepsDate(d: Directory, cfg: MembershipConfig, cipher: Cipher, username: string,
                                         oldPassword: string, newPassword: string, now: int, stamp: string, connected: Result<Handle>)
    requires connected.Ok? && Validate(d, cfg, cipher, username, oldPassword, now).result == Ok(true)
    requires UserFromRecord(HashOf(d.hashes, UserKey(cfg.app, username))).Ok?
    ensures var o := PasswordChangeAsWritten(d, cfg, cipher, username, oldPassword, newPassword, false, now, stamp, connected);
      var r := UserFromRecord(HashOf(o.state.hashes, UserKey(cfg.app, username)));
      o.result == Ok(true) && r.Ok? &&
      r.value.lastPasswordChange == UserFromRecord(HashOf(d.hashes, UserKey(cfg.app, username))).value.lastPasswordChange
  {
    var key := UserKey(cfg.app, username);
    var o := PasswordChangeAsWritten(d, cfg, cipher, username, oldPassword, newPassword, false, now, stamp, connected);
    LoginRecorded(d, cfg, cipher, username, oldPassword, now);
    WrittenChangeRead(HashOf(d.hashes, key), now, EncodePassword(cfg.passwordFormat, cipher, newPassword), stamp);
  }

  /**
   * Corrected, a successful ChangePassword makes the user record report the
   * change date, and the new password is the one that checks.
   */
  lemma ChangePasswordRecordsDate(d: Directory, cfg: MembershipConfig, cipher: Cipher, username: string,
                                  oldPassword: string, newPassword: string, now: int, connected: Result<Handle>)
    requires connected.Ok? && Validate(d, cfg, cipher, username, oldPassword, now).result == Ok(true)
    requires UserFromRecord(HashOf(d.hashes, UserKey(cfg.app, username))).Ok?
    requires cfg.passwordFormat == Encrypted ==> cipher.decrypt(cipher.encrypt(newPassword)) == newPassword
    ensures var o := PasswordChange(d, cfg, cipher, username, oldPassword, newPassword, false, now, connected);
      var h := HashOf(o.state.hashes, UserKey(cfg.app, username));
      var r := UserFromRecord(h);
      o.result == Ok(true) && r.Ok? && r.value.lastPasswordChange == now &&
      "Password" in h && h["Password"].Text? && CheckPassword(cfg.passwordFormat, cipher, newPassword, h["Password"].s)
  {
    var key := UserKey(cfg.app, username);
    var encoded := EncodePassword(cfg.passwordFormat, cipher, newPassword);
    var o := PasswordChange(d, cfg, cipher, username, oldPassword, newPassword, false, now, connected);
    LoginRecorded(d, cfg, cipher, username, oldPassword, now);
    CorrectedChangeRead(HashOf(d.hashes, key), now, encoded);
    var h := HashOf(o.state.hashes, key);
    assert h["Password"] == Text(encoded);
    EncodedPasswordChecks(cfg.passwordFormat, cipher, newPassword);
    assert CheckPassword(cfg.passwordFormat, cipher, newPassword, h["Password"].s);
  }

  /** A successful validation sets LastLoginDate on the user hash and changes nothing else. */
  lemma LoginRecorded(d: Directory, cfg: MembershipConfig, cipher: Cipher, username: string, password: string, now: int)
    requires Validate(d, cfg, cipher, username, password, now).result == Ok(true)
    ensures var key := UserKey(cfg.app, username);
      HashOf(Validate(d, cfg, cipher, username, password, now).state.hashes, key) == HashOf(d.hashes, key)["LastLoginDate" := Time(now)]
  {
    MergeOne(HashOf(d.hashes, UserKey(cfg.app, username)), "LastLoginDate", Time(now));
  }

  /** Once a prefix of the names fails to read back, the whole run fails the same way. */
  lemma {:induction false} CollectStopsAtFailure(hashes: Db<Hash>, app: string, names: seq<string>, j: nat)
    requires j <= |names|
    requires CollectUsers(hashes, app, names[..j]).Err?
    ensures CollectUsers(hashes, app, names) == CollectUsers(hashes, app, names[..j])
    decreases |names| - j
  {
    if j == |names| {
      assert names[..j] == names;
    } else {
      var init := names[..|names| - 1];
      assert init[..j] == names[..j];
      CollectStopsAtFailure(hashes, app, init, j);
    }
  }

  /**
   * The users behind a run of names, one user hash at a time, added to the
   * collection; an empty hash is skipped.
   */
  method ReadUsers(hashes: Db<Hash>, app: string, names: seq<string>) returns (r: Result<seq<User>>)
    ensures r == CollectUsers(hashes, app, names)
  {
    var users: seq<User> := [];
    var i := 0;
    while i < |names|
      invariant 0 <= i <= |names|
      invariant CollectUsers(hashes, app, names[..i]) == Ok(users)
    {
      CollectStep(hashes, app, names, i, users);
      var found := UserAt(hashes, app, names[i]);
      if found.Err? {
        CollectStopsAtFailure(hashes, app, names, i + 1);
        return Err(found.failure);
      }
      if found.value.Some? {
        var user := found.value.value;
        if NameCollected(users, user.name) {
          CollectStopsAtFailure(hashes, app, names, i + 1);
          return Err(DuplicateKey(user.name));
        }
        users := users + [user];
      }
      i := i + 1;
    }
    assert names[..i] == names;
    r := Ok(users);
  }

  /**
   * The membership provider: its settings, the password transforms of the
   * machine key, the store it writes and the shared connection. Every
   * repeated GetConnection inside one operation returns the handle the
   * first one did (Connection.AcquireStable), so each operation acquires
   * once, at its first store access.
   */
  class MembershipStore {
    var dir: Directory
    const config: MembershipConfig
    const cipher: Cipher
    const conn: Manager

    ghost predicate Valid()
      reads this, conn
    {
      dir.hashes.Valid() && conn.Valid()
    }

    constructor (config: MembershipConfig, cipher: Cipher, conn: Manager)
      requires conn.Valid()
      ensures Valid() && this.config == config && this.cipher == cipher && this.conn == conn && dir == EmptyDirectory()
    {
      this.config := config;
      this.cipher := cipher;
      this.conn := conn;
      dir := EmptyDirectory();
    }

    /**
     * CreateUser: a cancelled password validation returns InvalidPassword
     * before any store access; otherwise Register, with failures surfaced
     * by GetUser's and GetUserNameByEmail's catch blocks.
     */
    method CreateUser(u: NewUser, cancelled: bool, freshKey: Guid, now: int, outcome: OpenOutcome) returns (r: Result<Created>)
      requires Valid()
      modifies this, conn
      ensures Valid()
      ensures cancelled ==> r == Ok(Created(InvalidPassword, None)) && dir == old(dir) &&
                            conn.handle == old(conn.handle) && conn.created == old(conn.created)
      ensures !cancelled ==> var a := Acquire(old(conn.handle), old(conn.created), outcome);
        conn.handle == Some(a.handle) && conn.created == a.created &&
        Outcome(r, dir) == Guarded(config.writeExceptionsToEventLog, a.result, old(dir),
                                   Register(old(dir), config, cipher, u, false, freshKey, now))
    {
      var flag := config.writeExceptionsToEventLog;
      if cancelled {
        return Ok(Created(InvalidPassword, None));
      }
      var connected := conn.GetConnection(outcome);
      if connected.Err? {
        return Err(Surface(flag, connected.failure));
      }
      if config.requiresUniqueEmail && EmailKey(config.app, OrEmpty(u.email)) in dir.strings {
        return Ok(Created(DuplicateEmail, None));
      }
      var existing := FindUser(dir, config.app, u.username);
      if existing.Err? {
        return Err(Surface(flag, existing.failure));
      }
      if existing.value.Some? {
        return Ok(Created(DuplicateUserName, None));
      }
      if u.providerUserKey.OtherKey? {
        return Ok(Created(InvalidProviderUserKey, None));
      }
      var key := if u.providerUserKey.GuidKey? then u.providerUserKey.g else freshKey;
      var encoded := EncodePassword(config.passwordFormat, cipher, u.password);
      ghost var before := dir;
      WriteUser(u, encoded, key, now);
      EnrollReadsBack(before, config.app, u, encoded, key, now);
      // GetUser reads back the record just written, which always succeeds
      var readBack := FindUser(dir, config.app, u.username);
      r := Ok(Created(Success, readBack.value));
      assert Register(before, config, cipher, u, false, freshKey, now) == Outcome(r, dir);
    }

    /** The writes of a successful CreateUser, one command at a time. */
    method WriteUser(u: NewUser, encoded: string, key: Guid, now: int)
      requires Valid()
      modifies this
      ensures Valid()
      ensures dir == Enroll(old(dir), config.app, u, encoded, key, now)
    {
      var record := CreateUserDictionary(u.username, encoded, u.email, u.question, u.answer, u.isApproved, key, now);
      dir := dir.(hashes := SetFields(dir.hashes, UserKey(config.app, u.username), record));
      dir := dir.(strings := dir.strings[ProviderKey(config.app, key) := u.username]);
      dir := dir.(lists := ListPush(dir.lists, UsersKey(config.app), u.username));
      dir := dir.(counters := Increment(dir.counters, UsersCountKey(config.app), 1));
      if OrEmpty(u.email) != "" {
        dir := dir.(strings := dir.strings[EmailKey(config.app, OrEmpty(u.email)) := u.username]);
      }
    }

    /** UpdateFailureCount, called once the connection is open; its catch surfaces a failure. */
    method UpdateFailureCount(username: string, kind: FailureKind, now: int) returns (r: Result<()>)
      requires Valid()
      modifies this
      ensures Valid()
      ensures var o := RecordFailure(old(dir), config, username, kind, now);
        dir == o.state && r == SurfaceResult(config.writeExceptionsToEventLog, o.result)
    {
      var flag := config.writeExceptionsToEventLog;
      var key := UserKey(config.app, username);
      var h := HashOf(dir.hashes, key);
      var fields := FailureFields(h, kind, now, config.passwordAttemptWindow, config.maxInvalidPasswordAttempts);
      if fields.Err? {
        return Err(Surface(flag, fields.failure));
      }
      dir := dir.(hashes := SetFields(dir.hashes, key, fields.value));
      r := Ok(());
    }

    /** ValidateUser: Validate, with a failure turned into `false` when it goes to the event log. */
    method ValidateUser(username: string, password: string, now: int, outcome: OpenOutcome) returns (r: Result<bool>)
      requires Valid()
      modifies this, conn
      ensures Valid()
      ensures var a := Acquire(old(conn.handle), old(conn.created), outcome);
        conn.handle == Some(a.handle) && conn.created == a.created &&
        Outcome(r, dir) == FalseOnError(config.writeExceptionsToEventLog,
                             Guarded(config.writeExceptionsToEventLog, a.result, old(dir),
                                     Validate(old(dir), config, cipher, username, password, now)))
    {
      var flag := config.writeExceptionsToEventLog;
      var connected := conn.GetConnection(outcome);
      if connected.Err? {
        return if flag then Ok(false) else Err(connected.failure);
      }
      var key := UserKey(config.app, username);
      var h := HashOf(dir.hashes, key);
      if "Password" !in h {
        return Ok(false);
      }
      var stored := TextField(h, "Password");
      if stored.Err? {
        return if flag then Ok(false) else Err(stored.failure);
      }
      var isApproved := FlagField(h, "IsApproved");
      if isApproved.Err? {
        return if flag then Ok(false) else Err(isApproved.failure);
      }
      var isLockedOut := FlagField(h, "IsLockedOut");
      if isLockedOut.Err? {
        return if flag then Ok(false) else Err(isLockedOut.failure);
      }
      if isLockedOut.value {
        return Ok(false);
      }
      if CheckPassword(config.passwordFormat, cipher, password, stored.value) {
        if isApproved.value {
          dir := dir.(hashes := SetFields(dir.hashes, key, map["LastLoginDate" := Time(now)]));
          return Ok(true);
        }
        return Ok(false);
      }
      var failed := UpdateFailureCount(username, PasswordFailure, now);
      if failed.Err? {
        return if flag then Ok(false) else Err(failed.failure);
      }
      r := Ok(false);
    }

    /** DeleteUser: Unregister, with a failure turned into `false` when it goes to the event log. */
    method DeleteUser(username: string, deleteAll: bool, outcome: OpenOutcome) returns (r: Result<bool>)
      requires Valid()
      modifies this, conn
      ensures Valid()
      ensures var a := Acquire(old(conn.handle), old(conn.created), outcome);
        conn.handle == Some(a.handle) && conn.created == a.created &&
        Outcome(r, dir) == FalseOnError(config.writeExceptionsToEventLog,
                             Guarded(config.writeExceptionsToEventLog, a.result, old(dir),
                                     Unregister(old(dir), config.app, username, deleteAll)))
    {
      var flag := config.writeExceptionsToEventLog;
      var connected := conn.GetConnection(outcome);
      if connected.Err? {
        return if flag then Ok(false) else Err(connected.failure);
      }
      var found := FindUser(dir, config.app, username);
      if found.Err? {
        return if flag then Ok(false) else Err(found.failure);
      }
      var strings := dir.strings;
      dir := dir.(hashes := dir.hashes.Delete(UserKey(config.app, username)));
      if deleteAll && found.value.Some? {
        var user := found.value.value;
        dir := dir.(strings := strings - {EmailKey(config.app, user.email), ProviderKey(config.app, user.key)});
        dir := dir.(lists := ListRemove(dir.lists, UsersKey(config.app), username));
        dir := dir.(counters := Increment(dir.counters, UsersCountKey(config.app), -1));
        dir := dir.(online := SetRemove(dir.online, UsersOnlineKey(config.app), username));
      }
      r := Ok(true);
    }

    /**
     * ChangePassword: ValidateUser with the old password, then the cancelled
     * validation of the new one, then the two writes (with the change date
     * under the field the record is read from).
     */
    method ChangePassword(username: string, oldPassword: string, newPassword: string, cancelled: bool, now: int,
                          outcome: OpenOutcome) returns (r: Result<bool>)
      requires Valid()
      modifies this, conn
      ensures Valid()
      ensures var a := Acquire(old(conn.handle), old(conn.created), outcome);
        conn.handle == Some(a.handle) && conn.created == a.created &&
        Outcome(r, dir) == PasswordChange(old(dir), config, cipher, username, oldPassword, newPassword, cancelled, now, a.result)
    {
      r := ValidateUser(username, oldPassword, now, outcome);
      if r.Err? || !r.value {
        return;
      }
      if cancelled {
        return Err(PasswordCancelled);
      }
      var encoded := EncodePassword(config.passwordFormat, cipher, newPassword);
      dir := dir.(hashes := WritePassword(dir.hashes, UserKey(config.app, username), encoded, "LastPasswordChangeDate", Time(now)));
      r := Ok(true);
    }

    /**
     * GetAllUsers: the names of one page (corrected end), each read back in
     * list order, skipping names whose hash is gone; the first that does not
     * read back fails the call.
     */
    method GetAllUsers(pageIndex: int, pageSize: int, outcome: OpenOutcome) returns (r: Result<UserPage>)
      requires Valid()
      modifies conn
      ensures Valid()
      ensures var a := Acquire(old(conn.handle), old(conn.created), outcome);
        conn.handle == Some(a.handle) && conn.created == a.created &&
        Outcome(r, dir) == Guarded(config.writeExceptionsToEventLog, a.result, dir,
                                   Outcome(AllUsers(dir, config.app, pageIndex, pageSize), dir))
    {
      var flag := config.writeExceptionsToEventLog;
      var connected := conn.GetConnection(outcome);
      if connected.Err? {
        return Err(Surface(flag, connected.failure));
      }
      var names := Page(ListOf(dir.lists, UsersKey(config.app)), pageIndex, pageSize);
      var users := ReadUsers(dir.hashes, config.app, names);
      if users.Err? {
        return Err(Surface(flag, users.failure));
      }
      r := Ok(UserPage(users.value, CounterOf(dir.counters, UsersCountKey(config.app))));
    }
  }
}
