/**
 * The profile provider: one hash per profile, keyed by application, lower-
 * cased user name and whether the user is authenticated, holding one
 * JSON-serialized field per property plus the activity dates; and the
 * listing of profiles by the lists of "name:authenticated" entries.
 */
module Profiles {
  import opened Common
  import opened Text
  import opened Config
  import opened Store
  import opened Paging
  import opened Connection

  const Prefix: string := "application:"

  function Suffix(isAuthenticated: bool): string {
    if isAuthenticated then "authenticated" else "anonymous"
  }

  /** GetProfileKey. */
  function ProfileKey(app: string, name: string, isAuthenticated: bool): (k: string)
    ensures k == Prefix + app + ":profile:" + Lower(name) + ":" + Suffix(isAuthenticated)
  {
    Prefix + app + ":profile:" + Lower(name) + ":" + Suffix(isAuthenticated)
  }

  /** An authenticated and an anonymous user of the same name have different profiles. */
  lemma AuthenticationSeparatesProfiles(app: string, name: string)
    ensures ProfileKey(app, name, true) != ProfileKey(app, name, false)
  {
    assert |ProfileKey(app, name, true)| != |ProfileKey(app, name, false)|;
  }

  /** Under one application and one authentication state, names differing only in case share a profile, and only they do. */
  lemma ProfileKeyInjective(app: string, a: string, b: string, isAuthenticated: bool)
    ensures ProfileKey(app, a, isAuthenticated) == ProfileKey(app, b, isAuthenticated) <==> Lower(a) == Lower(b)
  {
    if ProfileKey(app, a, isAuthenticated) == ProfileKey(app, b, isAuthenticated) {
      var n := |Prefix + app + ":profile:"|;
      var ka := ProfileKey(app, a, isAuthenticated);
      var kb := ProfileKey(app, b, isAuthenticated);
      assert |a| == |b| by {
        assert |ka| == n + |Lower(a)| + 1 + |Suffix(isAuthenticated)|;
      }
      assert Lower(a) == ka[n..n + |a|];
      assert Lower(b) == kb[n..n + |b|];
    }
  }

  /** `application:{app}:profiles`: the list of every profile entry. */
  function ProfilesKey(app: string): (k: string)
    ensures k == "application:" + app + ":profiles"
  {
    Prefix + app + ":profiles"
  }

  /** `application:{app}:profiles:authenticated`: the list of authenticated profile entries. */
  function ProfilesAuthenticatedKey(app: string): (k: string)
    ensures k == "application:" + app + ":profiles:authenticated"
  {
    Prefix + app + ":profiles:authenticated"
  }

  /** `application:{app}:profiles:anonymous`: the list of anonymous profile entries. */
  function ProfilesAnonymousKey(app: string): (k: string)
    ensures k == "application:" + app + ":profiles:anonymous"
  {
    Prefix + app + ":profiles:anonymous"
  }

  /** `application:{app}:profilecount`: the counter of profiles. */
  function ProfilesCountKey(app: string): (k: string)
    ensures k == "application:" + app + ":profilecount"
  {
    Prefix + app + ":profilecount"
  }

  /** ProfileAuthenticationOption, including a value outside the enumeration. */
  datatype AuthOption = All | Anonymous | Authenticated | OtherOption(n: int)

  /** The list GetAllProfiles pages through: All and any unknown option use the all-profiles list. */
  function ListKey(app: string, option: AuthOption): (k: string)
    ensures option == Anonymous ==> k == ProfilesAnonymousKey(app)
    ensures option == Authenticated ==> k == ProfilesAuthenticatedKey(app)
    ensures option != Anonymous && option != Authenticated ==> k == ProfilesKey(app)
  {
    match option
    case Anonymous => ProfilesAnonymousKey(app)
    case Authenticated => ProfilesAuthenticatedKey(app)
    case _ => ProfilesKey(app)
  }

  /** The three list keys are pairwise distinct. */
  lemma ListKeysDistinct(app: string)
    ensures ProfilesKey(app) != ProfilesAuthenticatedKey(app)
    ensures ProfilesKey(app) != ProfilesAnonymousKey(app)
    ensures ProfilesAuthenticatedKey(app) != ProfilesAnonymousKey(app)
  {
    var n := |Prefix + app + ":profiles:"|;
    assert ProfilesAuthenticatedKey(app)[n] == 'a' && ProfilesAnonymousKey(app)[n] == 'a';
    assert ProfilesAuthenticatedKey(app)[n + 1] == 'u' && ProfilesAnonymousKey(app)[n + 1] == 'n';
  }

  /** The profile keys by kind of Redis value. */
  datatype ProfileData = ProfileData(
    hashes: Db<Hash>,                 // one hash per profile
    counters: map<string, int>,       // profilecount
    lists: map<string, seq<string>>)  // profiles, profiles:authenticated, profiles:anonymous

  function EmptyProfileData(): (p: ProfileData)
    ensures p.hashes.Valid() && p.hashes.data == map[]
  {
    ProfileData(EmptyDb(), map[], map[])
  }

  /**
   * The settings of the provider after Initialize. A port or db of `None`
   * stands for the library default, `Defaults.Port` or `Defaults.Db`.
   */
  datatype ProfileConfig = ProfileConfig(app: string, port: Option<int>, db: Option<int>, writeExceptionsToEventLog: bool)

  /**
   * Initialize: port, then db, through `Convert.ToInt32`, then the
   * application name and the event-log switch (default "true", parsed by
   * `Convert.ToBoolean`); the first conversion that throws is the failure.
   */
  function Initialize(config: Settings, virtualPath: string): (c: Result<ProfileConfig>)
    ensures c.Ok? <==> ConfiguredInt(config, "port").Ok? && ConfiguredInt(config, "db").Ok? &&
                       ParseBool(GetConfigValue(Lookup(config, "writeExceptionsToEventLog"), Some("true")).value).Ok?
    ensures ConfiguredInt(config, "port").Err? ==> c == Err(ConfiguredInt(config, "port").failure)
    ensures ConfiguredInt(config, "port").Ok? && ConfiguredInt(config, "db").Err? ==> c == Err(ConfiguredInt(config, "db").failure)
    ensures c.Ok? ==> c.value.port == ConfiguredInt(config, "port").value && c.value.db == ConfiguredInt(config, "db").value
    ensures c.Ok? ==> c.value.app == ApplicationName(config, virtualPath)
    ensures (ConfiguredInt(config, "port").Ok? && ConfiguredInt(config, "db").Ok? &&
             Lookup(config, "writeExceptionsToEventLog") in {None, Some("")}) ==>
      c.Ok? && c.value.writeExceptionsToEventLog
    ensures (ConfiguredInt(config, "port").Ok? && ConfiguredInt(config, "db").Ok? &&
             "writeExceptionsToEventLog" in config && config["writeExceptionsToEventLog"] != "") ==>
      (c.Ok? <==> ParseBool(config["writeExceptionsToEventLog"]).Ok?) &&
      (c.Ok? ==> c.value.writeExceptionsToEventLog == ParseBool(config["writeExceptionsToEventLog"]).value) &&
      (c.Err? ==> c.failure == InvalidFormat)
  {
    var flag := GetConfigValue(Lookup(config, "writeExceptionsToEventLog"), Some("true"));
    ParseBoolLiterals();
    match ConfiguredInt(config, "port")
    case Err(f) => Err(f)
    case Ok(port) =>
      match ConfiguredInt(config, "db")
      case Err(f) => Err(f)
      case Ok(db) =>
        match ParseBool(flag.value)
        case Ok(on) => Ok(ProfileConfig(ApplicationName(config, virtualPath), port, db, on))
        case Err(f) => Err(f)
  }

  /** The fields UpdateActivityDate writes: LastActivityDate, and LastUpdatedDate unless only the activity is recorded. */
  function ActivityFields(now: int, activityOnly: bool): (f: Hash)
    ensures "LastActivityDate" in f && f["LastActivityDate"] == Time(now)
    ensures "LastUpdatedDate" in f <==> !activityOnly
    ensures !activityOnly ==> f["LastUpdatedDate"] == Time(now)
    ensures forall name :: name in f ==> name == "LastActivityDate" || name == "LastUpdatedDate"
  {
    if activityOnly then map["LastActivityDate" := Time(now)]
    else map["LastActivityDate" := Time(now), "LastUpdatedDate" := Time(now)]
  }

  /**
   * The stored JSON of each requested property, in request order: a property
   * without a field is left unset, and a field that does not hold text does
   * not deserialize.
   */
  function PropertyValues(h: Hash, names: seq<string>): (r: Result<seq<Option<string>>>)
    ensures r.Ok? <==> forall i :: 0 <= i < |names| && names[i] in h ==> h[names[i]].Text?
    ensures r.Ok? ==> |r.value| == |names|
    ensures r.Ok? ==> forall i :: 0 <= i < |names| ==>
              (r.value[i].Some? <==> names[i] in h) && (r.value[i].Some? ==> h[names[i]] == Text(r.value[i].value))
  {
    if names == [] then Ok([])
    else
      var init := names[..|names| - 1];
      var name := names[|names| - 1];
      assert forall i :: 0 <= i < |init| ==> init[i] == names[i];
      var values :- PropertyValues(h, init);
      if name !in h then Ok(values + [None])
      else if h[name].Text? then Ok(values + [Some(h[name].s)])
      else Err(MalformedField(name))
  }

  /** One more requested name: the values so far, extended by its value or stopped by a malformed field. */
  lemma PropertyValuesStep(h: Hash, names: seq<string>, i: nat, values: seq<Option<string>>)
    requires i < |names|
    requires PropertyValues(h, names[..i]) == Ok(values)
    ensures PropertyValues(h, names[..i + 1]) ==
      if names[i] !in h then Ok(values + [None])
      else if h[names[i]].Text? then Ok(values + [Some(h[names[i]].s)])
      else Err(MalformedField(names[i]))
  {
    var run := names[..i + 1];
    assert run[..|run| - 1] == names[..i];
    assert run[|run| - 1] == names[i];
  }

  /**
   * GetPropertyValues once the connection is open: the values of the
   * profile hash, then UpdateActivityDate(activityOnly: true). There is no
   * catch: a failure propagates as it is.
   */
  function ReadProfile(p: ProfileData, app: string, username: string, isAuthenticated: bool, names: seq<string>, now: int)
    : (o: Outcome<seq<Option<string>>, ProfileData>)
    ensures var key := ProfileKey(app, username, isAuthenticated);
      o.result == PropertyValues(HashOf(p.hashes, key), names) &&
      (o.result.Err? ==> o.state == p) &&
      (o.result.Ok? ==> o.state == p.(hashes := SetFields(p.hashes, key, ActivityFields(now, true))))
  {
    var key := ProfileKey(app, username, isAuthenticated);
    match PropertyValues(HashOf(p.hashes, key), names)
    case Err(f) => Outcome(Err(f), p)
    case Ok(values) => Outcome(Ok(values), p.(hashes := SetFields(p.hashes, key, ActivityFields(now, true))))
  }

  /** A property value to store: its name and the JSON of its value. */
  datatype PropertyValue = PropertyValue(name: string, json: string)

  /** The names of a run of property values. */
  function Names(values: seq<PropertyValue>): set<string> {
    if values == [] then {} else Names(values[..|values| - 1]) + {values[|values| - 1].name}
  }

  /** A name is among the names exactly when some property value carries it. */
  lemma {:induction false} NamesExact(values: seq<PropertyValue>, name: string)
    ensures name in Names(values) <==> exists i :: 0 <= i < |values| && values[i].name == name
  {
    if values != [] {
      var init := values[..|values| - 1];
      NamesExact(init, name);
      if exists i :: 0 <= i < |init| && init[i].name == name {
        var i :| 0 <= i < |init| && init[i].name == name;
        assert values[i].name == name;
      }
      if exists i :: 0 <= i < |values| && values[i].name == name {
        var i :| 0 <= i < |values| && values[i].name == name;
        if i < |init| {
          assert init[i].name == name;
        }
      }
    }
  }

  /** Every property value has a distinct name. */
  predicate DistinctNames(values: seq<PropertyValue>) {
    forall i, j :: 0 <= i < j < |values| ==> values[i].name != values[j].name
  }

  /**
   * The dictionary SetPropertyValues builds: one text field per property,
   * keyed by its name; a repeated name is refused by Dictionary.Add.
   */
  function PropertyFields(values: seq<PropertyValue>): (r: Result<Hash>)
    ensures r.Ok? ==> r.value.Keys == Names(values)
    ensures r.Ok? ==> forall i :: 0 <= i < |values| ==> values[i].name in r.value && r.value[values[i].name] == Text(values[i].json)
  {
    if values == [] then Ok(map[])
    else
      var init := values[..|values| - 1];
      var last := values[|values| - 1];
      var fields :- PropertyFields(init);
      if last.name in fields then Err(DuplicateKey(last.name))
      else
        assert forall i :: 0 <= i < |init| ==> init[i] == values[i];
        Ok(fields[last.name := Text(last.json)])
  }

  /** One more value: the fields so far, extended by its field or stopped by a repeated name. */
  lemma PropertyFieldsStep(values: seq<PropertyValue>, i: nat, fields: Hash)
    requires i < |values|
    requires PropertyFields(values[..i]) == Ok(fields)
    ensures PropertyFields(values[..i + 1]) ==
      if values[i].name in fields then Err(DuplicateKey(values[i].name))
      else Ok(fields[values[i].name := Text(values[i].json)])
  {
    var run := values[..i + 1];
    assert run[..|run| - 1] == values[..i];
    assert run[|run| - 1] == values[i];
  }

  /** Building the dictionary succeeds exactly when no name repeats. */
  lemma {:induction false} PropertyFieldsDistinct(values: seq<PropertyValue>)
    ensures PropertyFields(values).Ok? <==> DistinctNames(values)
  {
    if values != [] {
      var init := values[..|values| - 1];
      var last := values[|values| - 1];
      assert forall i :: 0 <= i < |init| ==> init[i] == values[i];
      PropertyFieldsDistinct(init);
      NamesExact(init, last.name);
      if PropertyFields(init).Ok? && last.name in PropertyFields(init).value {
        var i :| 0 <= i < |init| && init[i].name == last.name;
        assert values[i].name == values[|values| - 1].name;
      }
      if PropertyFields(init).Ok? && last.name !in PropertyFields(init).value {
        forall i, j | 0 <= i < j < |values|
          ensures values[i].name != values[j].name
        {
          if j == |values| - 1 {
            assert init[i].name == values[i].name;
          } else {
            assert init[i].name != init[j].name;
          }
        }
      }
    }
  }

  /**
   * SetPropertyValues: the dictionary (a repeated name fails before the
   * connection is asked for), then HMSET of it and
   * UpdateActivityDate(activityOnly: false).
   */
  function WriteProfile(p: ProfileData, app: string, username: string, isAuthenticated: bool, fields: Hash, now: int): (q: ProfileData)
    ensures var key := ProfileKey(app, username, isAuthenticated);
      HashOf(q.hashes, key) == HashOf(p.hashes, key) + fields + ActivityFields(now, false) &&
      (forall k :: k != key ==> HashOf(q.hashes, k) == HashOf(p.hashes, k)) &&
      q.lists == p.lists && q.counters == p.counters
    ensures p.hashes.Valid() ==> q.hashes.Valid()
  {
    var key := ProfileKey(app, username, isAuthenticated);
    var h1 := SetFields(p.hashes, key, fields);
    assert HashOf(h1, key) == HashOf(p.hashes, key) + fields;
    p.(hashes := SetFields(h1, key, ActivityFields(now, false)))
  }

  /**
   * What was stored is what is read back: after SetPropertyValues, every
   * requested property that was written reads back as its JSON, except the
   * two activity dates, which UpdateActivityDate overwrites.
   */
  lemma {:induction false} SetThenGet(p: ProfileData, app: string, username: string, isAuthenticated: bool,
                                      values: seq<PropertyValue>, names: seq<string>, now: int, later: int)
    requires PropertyFields(values).Ok?
    requires forall i :: 0 <= i < |values| ==> values[i].name != "LastActivityDate" && values[i].name != "LastUpdatedDate"
    requires forall j :: 0 <= j < |names| ==> exists i :: 0 <= i < |values| && values[i].name == names[j]
    ensures var q := WriteProfile(p, app, username, isAuthenticated, PropertyFields(values).value, now);
      var o := ReadProfile(q, app, username, isAuthenticated, names, later);
      o.result.Ok? &&
      forall i, j :: 0 <= i < |values| && 0 <= j < |names| && values[i].name == names[j] ==> o.result.value[j] == Some(values[i].json)
  {
    var key := ProfileKey(app, username, isAuthenticated);
    var fields := PropertyFields(values).value;
    var q := WriteProfile(p, app, username, isAuthenticated, fields, now);
    var h := HashOf(q.hashes, key);
    forall i | 0 <= i < |values|
      ensures values[i].name in h && h[values[i].name] == Text(values[i].json)
    {
      assert values[i].name !in ActivityFields(now, false);
    }
    forall j | 0 <= j < |names|
      ensures names[j] in h && h[names[j]].Text?
    {
      var i :| 0 <= i < |values| && values[i].name == names[j];
    }
  }

  /** A profile read creates the hash with a LastActivityDate even when the profile did not exist. */
  lemma ReadTouchesMissingProfile(p: ProfileData, app: string, username: string, isAuthenticated: bool, names: seq<string>, now: int)
    requires HashOf(p.hashes, ProfileKey(app, username, isAuthenticated)) == map[]
    ensures var o := ReadProfile(p, app, username, isAuthenticated, names, now);
      o.result == Ok(seq(|names|, i => None)) &&
      HashOf(o.state.hashes, ProfileKey(app, username, isAuthenticated)) == map["LastActivityDate" := Time(now)]
  {
    var o := ReadProfile(p, app, username, isAuthenticated, names, now);
    assert o.result.value == seq(|names|, i => None);
    assert map[] + ActivityFields(now, true) == map["LastActivityDate" := Time(now)];
  }

  /**
   * String.Split on one separator: the pieces between separators, so there
   * is always at least one, and one more than there are separators.
   */
  function Split(s: string, sep: char): (parts: seq<string>)
    ensures |parts| >= 1
    ensures forall i :: 0 <= i < |parts| ==> sep !in parts[i]
  {
    if s == [] then [""]
    else
      var rest := Split(s[1..], sep);
      if s[0] == sep then [""] + rest else [[s[0]] + rest[0]] + rest[1..]
  }

  /** Text without the separator is one piece. */
  lemma {:induction false} SplitWithout(s: string, sep: char)
    requires sep !in s
    ensures Split(s, sep) == [s]
  {
    if s != [] {
      SplitWithout(s[1..], sep);
      assert [s[0]] + s[1..] == s;
    }
  }

  /** A separator after text without one splits off that text as the first piece. */
  lemma {:induction false} SplitAtFirst(a: string, b: string, sep: char)
    requires sep !in a
    ensures Split(a + [sep] + b, sep) == [a] + Split(b, sep)
  {
    if a == [] {
      assert a + [sep] + b == [sep] + b;
      assert ([sep] + b)[1..] == b;
    } else {
      var s := a + [sep] + b;
      assert s[1..] == a[1..] + [sep] + b;
      SplitAtFirst(a[1..], b, sep);
      assert [a[0]] + a[1..] == a;
    }
  }

  /** An entry of a profiles list, "name:authenticated", with the flag parsed by Convert.ToBoolean. */
  datatype Entry = Entry(name: string, isAuthenticated: bool)

  function ParseEntry(entry: string): (r: Result<Entry>)
    ensures var parts := Split(entry, ':');
      (|parts| < 2 ==> r == Err(IndexOutOfRange)) &&
      (|parts| >= 2 ==> (r.Ok? <==> ParseBool(parts[1]).Ok?) && (r.Ok? ==> r.value == Entry(parts[0], ParseBool(parts[1]).value)))
  {
    var parts := Split(entry, ':');
    if |parts| < 2 then Err(IndexOutOfRange)
    else
      var isAuthenticated :- ParseBool(parts[1]);
      Ok(Entry(parts[0], isAuthenticated))
  }

  /** An entry written as name, ':' and a flag reads back as that name and flag when the name has no ':'. */
  lemma EntryRoundTrip(name: string, flag: string)
    requires ':' !in name && ':' !in flag
    requires ParseBool(flag).Ok?
    ensures ParseEntry(name + ":" + flag) == Ok(Entry(name, ParseBool(flag).value))
  {
    SplitAtFirst(name, flag, ':');
    SplitWithout(flag, ':');
    assert name + ":" + flag == name + [':'] + flag;
  }

  /**
   * A ':' inside the name moves the flag out of place: for the entry of a
   * name "a:b" the piece "b" is read as the flag, so the entry fails unless
   * "b" itself reads as a flag, and then names the profile of "a".
   */
  lemma EntryWithColonInName(a: string, b: string, flag: string)
    requires ':' !in a && ':' !in b && ':' !in flag
    ensures ParseBool(b).Err? ==> ParseEntry(a + ":" + b + ":" + flag) == Err(InvalidFormat)
    ensures ParseBool(b).Ok? ==> ParseEntry(a + ":" + b + ":" + flag) == Ok(Entry(a, ParseBool(b).value))
  {
    var rest := b + [':'] + flag;
    assert a + ":" + b + ":" + flag == a + [':'] + rest;
    SplitAtFirst(a, rest, ':');
    SplitAtFirst(b, flag, ':');
    SplitWithout(flag, ':');
    assert Split(a + ":" + b + ":" + flag, ':') == [a, b, flag];
  }

  /** CreateProfileInfoFromDictionary: ProfileInfo with a size of 0. */
  datatype ProfileInfo = ProfileInfo(username: string, isAnonymous: bool, lastActivity: int, lastUpdated: int)

  function ProfileFromRecord(h: Hash): (r: Result<ProfileInfo>)
    ensures r.Ok? <==> "Username" in h && h["Username"].Text? && "IsAnonymous" in h && h["IsAnonymous"].Flag? &&
                       "LastActivityDate" in h && h["LastActivityDate"].Time? && "LastUpdatedDate" in h && h["LastUpdatedDate"].Time?
    ensures r.Ok? ==> r.value == ProfileInfo(h["Username"].s, h["IsAnonymous"].b, h["LastActivityDate"].t, h["LastUpdatedDate"].t)
  {
    if "Username" !in h then Err(MissingField("Username"))
    else if !h["Username"].Text? then Err(MalformedField("Username"))
    else if "IsAnonymous" !in h then Err(MissingField("IsAnonymous"))
    else if !h["IsAnonymous"].Flag? then Err(MalformedField("IsAnonymous"))
    else if "LastActivityDate" !in h then Err(MissingField("LastActivityDate"))
    else if !h["LastActivityDate"].Time? then Err(MalformedField("LastActivityDate"))
    else if "LastUpdatedDate" !in h then Err(MissingField("LastUpdatedDate"))
    else if !h["LastUpdatedDate"].Time? then Err(MalformedField("LastUpdatedDate"))
    else Ok(ProfileInfo(h["Username"].s, h["IsAnonymous"].b, h["LastActivityDate"].t, h["LastUpdatedDate"].t))
  }

  /** A profile this provider wrote holds no Username field, so it cannot be listed. */
  lemma WrittenProfileNotListable(p: ProfileData, app: string, username: string, isAuthenticated: bool, values: seq<PropertyValue>, now: int)
    requires "Username" !in HashOf(p.hashes, ProfileKey(app, username, isAuthenticated))
    requires PropertyFields(values).Ok?
    requires forall i :: 0 <= i < |values| ==> values[i].name != "Username"
    ensures var q := WriteProfile(p, app, username, isAuthenticated, PropertyFields(values).value, now);
      ProfileFromRecord(HashOf(q.hashes, ProfileKey(app, username, isAuthenticated))).Err?
  {
    var key := ProfileKey(app, username, isAuthenticated);
    UnnamedFields(values);
    UnnamedMerge(HashOf(p.hashes, key), PropertyFields(values).value, now);
  }

  lemma UnnamedMerge(before: Hash, fields: Hash, now: int)
    requires "Username" !in before && "Username" !in fields
    ensures ProfileFromRecord(before + fields + ActivityFields(now, false)) == Err(MissingField("Username"))
  {
    assert "Username" !in ActivityFields(now, false);
  }

  lemma UnnamedFields(values: seq<PropertyValue>)
    requires PropertyFields(values).Ok?
    requires forall i :: 0 <= i < |values| ==> values[i].name != "Username"
    ensures "Username" !in PropertyFields(values).value
  {
    NamesExact(values, "Username");
  }

  /** The profile an entry names is either absent (empty) or complete. */
  predicate EntryReadable(hashes: Db<Hash>, app: string, e: Entry) {
    var h := HashOf(hashes, ProfileKey(app, e.name, e.isAuthenticated));
    h == map[] || ProfileFromRecord(h).Ok?
  }

  /** One listed entry: parsed, then its profile hash read; an empty hash is skipped. */
  function EntryProfile(hashes: Db<Hash>, app: string, entry: string): (r: Result<Option<ProfileInfo>>)
    ensures r.Ok? <==> ParseEntry(entry).Ok? && EntryReadable(hashes, app, ParseEntry(entry).value)
    ensures r.Ok? && r.value.Some? ==>
      var e := ParseEntry(entry).value;
      ProfileFromRecord(HashOf(hashes, ProfileKey(app, e.name, e.isAuthenticated))) == Ok(r.value.value)
  {
    var e :- ParseEntry(entry);
    var h := HashOf(hashes, ProfileKey(app, e.name, e.isAuthenticated));
    if h == map[] then Ok(None)
    else
      var info :- ProfileFromRecord(h);
      Ok(Some(info))
  }

  /**
   * ProfileInfoCollection keys its profiles by UserName ignoring case: a
   * profile named like one already collected is refused.
   */
  predicate NameCollected(infos: seq<ProfileInfo>, name: string) {
    exists i :: 0 <= i < |infos| && Lower(infos[i].username) == Lower(name)
  }

  /** No two profiles whose user names differ only in letter case. */
  predicate DistinctUserNames(infos: seq<ProfileInfo>) {
    forall i, j :: 0 <= i < j < |infos| ==> Lower(infos[i].username) != Lower(infos[j].username)
  }

  /** A profile whose name was not collected keeps the collected names distinct. */
  lemma AddDistinct(infos: seq<ProfileInfo>, p: ProfileInfo)
    requires DistinctUserNames(infos) && !NameCollected(infos, p.username)
    ensures DistinctUserNames(infos + [p])
  {
    var all := infos + [p];
    forall i, j | 0 <= i < j < |all|
      ensures Lower(all[i].username) != Lower(all[j].username)
    {
      if j == |infos| {
        assert all[i] == infos[i];
      }
    }
  }

  /**
   * The profiles behind a run of entries, in list order; the first entry
   * that fails, or the first profile whose name was already collected,
   * fails the run.
   */
  function CollectProfiles(hashes: Db<Hash>, app: string, entries: seq<string>): (r: Result<seq<ProfileInfo>>)
    ensures r.Ok? ==> forall i :: 0 <= i < |entries| ==> EntryProfile(hashes, app, entries[i]).Ok?
    ensures r.Ok? ==> |r.value| <= |entries| && DistinctUserNames(r.value)
  {
    if entries == [] then Ok([])
    else
      var init := entries[..|entries| - 1];
      EntriesReadSnoc(hashes, app, entries);
      match CollectProfiles(hashes, app, init)
      case Err(f) => Err(f)
      case Ok(infos) =>
        match EntryProfile(hashes, app, entries[|entries| - 1])
        case Err(f) => Err(f)
        case Ok(None) => Ok(infos)
        case Ok(Some(p)) =>
          if NameCollected(infos, p.username) then Err(DuplicateKey(p.username))
          else
            AddDistinct(infos, p);
            Ok(infos + [p])
  }

  /** The profile an entry reaches, if it parses and names a hash that reads back. */
  function Found(hashes: Db<Hash>, app: string, entry: string): (f: Option<ProfileInfo>)
    ensures f.Some? <==> EntryProfile(hashes, app, entry).Ok? && EntryProfile(hashes, app, entry).value.Some?
    ensures f.Some? ==> EntryProfile(hashes, app, entry) == Ok(f)
  {
    match EntryProfile(hashes, app, entry)
    case Ok(f) => f
    case Err(_) => None
  }

  /** The profiles the entries reach, in list order. */
  function Reached(hashes: Db<Hash>, app: string, entries: seq<string>): (infos: seq<ProfileInfo>)
    ensures |infos| <= |entries|
  {
    Somes(seq(|entries|, i requires 0 <= i < |entries| => Found(hashes, app, entries[i])))
  }

  /** Reached over a run that ends in one more entry. */
  lemma ReachedSnoc(hashes: Db<Hash>, app: string, entries: seq<string>)
    requires entries != []
    ensures var init := entries[..|entries| - 1];
      var f := Found(hashes, app, entries[|entries| - 1]);
      Reached(hashes, app, entries) == Reached(hashes, app, init) + (if f.Some? then [f.value] else [])
  {
    var init := entries[..|entries| - 1];
    var all := seq(|entries|, i requires 0 <= i < |entries| => Found(hashes, app, entries[i]));
    var front := seq(|init|, i requires 0 <= i < |init| => Found(hashes, app, init[i]));
    var last := [Found(hashes, app, entries[|entries| - 1])];
    assert all == front + last;
    SomesAppend(front, last);
    assert last[1..] == [];
  }

  /**
   * What the listing of a run of entries yields: it succeeds exactly when
   * every entry reads and no two profiles reached share a user name up to
   * letter case, and then it holds exactly the profiles reached, in list
   * order.
   */
  lemma {:induction false} CollectProfilesExact(hashes: Db<Hash>, app: string, entries: seq<string>)
    ensures CollectProfiles(hashes, app, entries).Ok? <==>
      (forall i :: 0 <= i < |entries| ==> EntryProfile(hashes, app, entries[i]).Ok?) && DistinctUserNames(Reached(hashes, app, entries))
    ensures CollectProfiles(hashes, app, entries).Ok? ==> CollectProfiles(hashes, app, entries).value == Reached(hashes, app, entries)
  {
    if entries == [] {
      assert Reached(hashes, app, entries) == [];
    } else {
      var init := entries[..|entries| - 1];
      var last := entries[|entries| - 1];
      assert forall i :: 0 <= i < |init| ==> init[i] == entries[i];
      CollectProfilesExact(hashes, app, init);
      ReachedSnoc(hashes, app, entries);
      var reached := Reached(hashes, app, entries);
      var before := Reached(hashes, app, init);
      assert before == reached[..|before|];
      DistinctPrefix(before, reached);
      var prev := CollectProfiles(hashes, app, init);
      var found := EntryProfile(hashes, app, last);
      EntriesReadSnoc(hashes, app, entries);
      var r := CollectProfiles(hashes, app, entries);
      if prev.Err? {
        assert r == Err(prev.failure);
      } else if found.Err? {
        assert r == Err(found.failure);
      } else if found.value.None? {
        assert r == prev;
        assert reached == before + [];
      } else {
        var p := found.value.value;
        assert reached == before + [p];
        if NameCollected(before, p.username) {
          assert r.Err?;
          CollectedNotDistinct(before, p);
        } else {
          assert r == Ok(before + [p]);
          AddDistinct(before, p);
        }
      }
    }
  }

  /** Every entry of a run reads exactly when every entry but the last does and the last does too. */
  lemma EntriesReadSnoc(hashes: Db<Hash>, app: string, entries: seq<string>)
    requires entries != []
    ensures var init := entries[..|entries| - 1];
      (forall i :: 0 <= i < |entries| ==> EntryProfile(hashes, app, entries[i]).Ok?) <==>
        (forall i :: 0 <= i < |init| ==> EntryProfile(hashes, app, init[i]).Ok?) &&
        EntryProfile(hashes, app, entries[|entries| - 1]).Ok?
  {
    var init := entries[..|entries| - 1];
    assert forall i :: 0 <= i < |init| ==> init[i] == entries[i];
  }

  /** A profile whose name was already collected makes the names of the run repeat. */
  lemma CollectedNotDistinct(infos: seq<ProfileInfo>, p: ProfileInfo)
    requires NameCollected(infos, p.username)
    ensures !DistinctUserNames(infos + [p])
  {
    var i :| 0 <= i < |infos| && Lower(infos[i].username) == Lower(p.username);
    var all := infos + [p];
    assert all[i] == infos[i] && all[|infos|] == p;
  }

  /** A run of profiles with distinct names has distinct names in every prefix. */
  lemma DistinctPrefix(before: seq<ProfileInfo>, all: seq<ProfileInfo>)
    requires |before| <= |all| && before == all[..|before|]
    ensures DistinctUserNames(all) ==> DistinctUserNames(before)
  {
    assert forall i :: 0 <= i < |before| ==> before[i] == all[i];
  }

  /**
   * Two listed entries whose profiles carry the same user name up to case,
   * such as the anonymous and the authenticated profile of one name in the
   * all-profiles list, fail the listing on the second.
   */
  lemma SameNameTwiceRefused(hashes: Db<Hash>, app: string, first: string, second: string)
    requires Found(hashes, app, first).Some? && Found(hashes, app, second).Some?
    requires Lower(Found(hashes, app, first).value.username) == Lower(Found(hashes, app, second).value.username)
    ensures CollectProfiles(hashes, app, [first, second]) == Err(DuplicateKey(Found(hashes, app, second).value.username))
  {
    var entries := [first, second];
    var p := Found(hashes, app, first).value;
    assert entries[..0] == [];
    CollectStep(hashes, app, entries, 0, []);
    assert entries[..1] == [first];
    CollectStep(hashes, app, entries, 1, [] + [p]);
    assert NameCollected([] + [p], Found(hashes, app, second).value.username) by {
      assert ([] + [p])[0] == p;
    }
    assert entries[..2] == entries;
  }

  /** One more entry: the run so far, extended by what the entry reaches or stopped by its failure. */
  lemma CollectStep(hashes: Db<Hash>, app: string, entries: seq<string>, i: nat, infos: seq<ProfileInfo>)
    requires i < |entries|
    requires CollectProfiles(hashes, app, entries[..i]) == Ok(infos)
    ensures var r := CollectProfiles(hashes, app, entries[..i + 1]);
      match EntryProfile(hashes, app, entries[i])
      case Err(f) => r == Err(f)
      case Ok(None) => r == Ok(infos)
      case Ok(Some(p)) =>
        r == if NameCollected(infos, p.username) then Err(DuplicateKey(p.username)) else Ok(infos + [p])
  {
    var run := entries[..i + 1];
    assert run[..|run| - 1] == entries[..i];
    assert run[|run| - 1] == entries[i];
  }

  /** Once a prefix of the entries fails, the whole run fails the same way. */
  lemma {:induction false} CollectStopsAtFailure(hashes: Db<Hash>, app: string, entries: seq<string>, j: nat)
    requires j <= |entries|
    requires CollectProfiles(hashes, app, entries[..j]).Err?
    ensures CollectProfiles(hashes, app, entries) == CollectProfiles(hashes, app, entries[..j])
    decreases |entries| - j
  {
    if j == |entries| {
      assert entries[..j] == entries;
    } else {
      var init := entries[..|entries| - 1];
      assert init[..j] == entries[..j];
      CollectStopsAtFailure(hashes, app, init, j);
    }
  }

  /** One page of GetAllProfiles and the stored profile count (0 when there is none). */
  datatype ProfilePage = ProfilePage(profiles: seq<ProfileInfo>, total: int)

  /** GetAllProfiles once the connection is open, before its catch, with the corrected page end. */
  function AllProfiles(p: ProfileData, app: string, option: AuthOption, pageIndex: int, pageSize: int): (r: Result<ProfilePage>)
    ensures r.Ok? <==> CollectProfiles(p.hashes, app, Page(ListOf(p.lists, ListKey(app, option)), pageIndex, pageSize)).Ok?
    ensures r.Ok? ==> r.value.total == CounterOf(p.counters, ProfilesCountKey(app))
    ensures r.Ok? ==> |r.value.profiles| <= |Page(ListOf(p.lists, ListKey(app, option)), pageIndex, pageSize)|
    ensures r.Ok? ==> DistinctUserNames(r.value.profiles)
  {
    var entries := Page(ListOf(p.lists, ListKey(app, option)), pageIndex, pageSize);
    var profiles :- CollectProfiles(p.hashes, app, entries);
    Ok(ProfilePage(profiles, CounterOf(p.counters, ProfilesCountKey(app))))
  }

  /** The profiles of a page are exactly the profiles its entries reach, in list order, when no two share a name. */
  lemma AllProfilesExact(p: ProfileData, app: string, option: AuthOption, pageIndex: int, pageSize: int)
    ensures var entries := Page(ListOf(p.lists, ListKey(app, option)), pageIndex, pageSize);
      (AllProfiles(p, app, option, pageIndex, pageSize).Ok? <==>
         (forall i :: 0 <= i < |entries| ==> EntryProfile(p.hashes, app, entries[i]).Ok?) && DistinctUserNames(Reached(p.hashes, app, entries))) &&
      (AllProfiles(p, app, option, pageIndex, pageSize).Ok? ==>
         AllProfiles(p, app, option, pageIndex, pageSize).value.profiles == Reached(p.hashes, app, entries))
  {
    CollectProfilesExact(p.hashes, app, Page(ListOf(p.lists, ListKey(app, option)), pageIndex, pageSize));
  }

  /** A page of profiles never holds more than pageSize profiles. */
  lemma AllProfilesPageSize(p: ProfileData, app: string, option: AuthOption, pageIndex: int, pageSize: int)
    requires InBounds(pageIndex, pageSize)
    requires AllProfiles(p, app, option, pageIndex, pageSize).Ok?
    ensures |AllProfiles(p, app, option, pageIndex, pageSize).value.profiles| <= pageSize
  {
    PageIsSlice(ListOf(p.lists, ListKey(app, option)), pageIndex, pageSize);
  }

  /** Neither reading nor writing properties touches the lists or the count: listing sees only what others wrote. */
  lemma PropertiesLeaveListings(p: ProfileData, app: string, username: string, isAuthenticated: bool,
                                names: seq<string>, fields: Hash, now: int, option: AuthOption, pageIndex: int, pageSize: int)
    ensures var o := ReadProfile(p, app, username, isAuthenticated, names, now);
      o.state.lists == p.lists && o.state.counters == p.counters
    ensures var q := WriteProfile(p, app, username, isAuthenticated, fields, now);
      q.lists == p.lists && q.counters == p.counters
    ensures ListOf(p.lists, ListKey(app, option)) == [] ==>
      AllProfiles(p, app, option, pageIndex, pageSize) == Ok(ProfilePage([], CounterOf(p.counters, ProfilesCountKey(app))))
  {
  }

  /** The profile provider: its settings, the profile data and the shared connection. */
  class ProfileStore {
    var data: ProfileData
    const config: ProfileConfig
    const conn: Manager

    ghost predicate Valid()
      reads this, conn
    {
      data.hashes.Valid() && conn.Valid()
    }

    constructor (config: ProfileConfig, conn: Manager)
      requires conn.Valid()
      ensures Valid() && this.config == config && this.conn == conn && data == EmptyProfileData()
    {
      this.config := config;
      this.conn := conn;
      data := EmptyProfileData();
    }

    /** UpdateActivityDate, called once the connection is open. */
    method UpdateActivityDate(username: string, isAuthenticated: bool, activityOnly: bool, now: int)
      requires Valid()
      modifies this
      ensures Valid()
      ensures data == old(data).(hashes := SetFields(old(data).hashes, ProfileKey(config.app, username, isAuthenticated),
                                                      ActivityFields(now, activityOnly)))
    {
      var fields: Hash := map["LastActivityDate" := Time(now)];
      if !activityOnly {
        fields := fields["LastUpdatedDate" := Time(now)];
      }
      data := data.(hashes := SetFields(data.hashes, ProfileKey(config.app, username, isAuthenticated), fields));
    }

    /** GetPropertyValues: one value per requested property, in request order; no catch. */
    method GetPropertyValues(username: string, isAuthenticated: bool, names: seq<string>, now: int, outcome: OpenOutcome)
      returns (r: Result<seq<Option<string>>>)
      requires Valid()
      modifies this, conn
      ensures Valid()
      ensures var a := Acquire(old(conn.handle), old(conn.created), outcome);
        conn.handle == Some(a.handle) && conn.created == a.created &&
        Outcome(r, data) == Guarded(false, a.result, old(data), ReadProfile(old(data), config.app, username, isAuthenticated, names, now))
    {
      var connected := conn.GetConnection(outcome);
      if connected.Err? {
        return Err(connected.failure);
      }
      var h := HashOf(data.hashes, ProfileKey(config.app, username, isAuthenticated));
      var values: seq<Option<string>> := [];
      var i := 0;
      label Loop:
      while i < |names|
        invariant 0 <= i <= |names|
        invariant PropertyValues(h, names[..i]) == Ok(values)
        invariant unchanged@Loop(this, conn)
      {
        PropertyValuesStep(h, names, i, values);
        if names[i] in h {
          if !h[names[i]].Text? {
            PropertyValuesStopAtFailure(h, names, i + 1);
            return Err(MalformedField(names[i]));
          }
          values := values + [Some(h[names[i]].s)];
        } else {
          values := values + [None];
        }
        i := i + 1;
      }
      assert names[..i] == names;
      UpdateActivityDate(username, isAuthenticated, true, now);
      r := Ok(values);
    }

    /**
     * SetPropertyValues: the dictionary is built first, so a repeated name
     * fails before the connection is asked for; no catch.
     */
    method SetPropertyValues(username: string, isAuthenticated: bool, values: seq<PropertyValue>, now: int, outcome: OpenOutcome)
      returns (r: Result<()>)
      requires Valid()
      modifies this, conn
      ensures Valid()
      ensures PropertyFields(values).Err? ==>
        r == Err(PropertyFields(values).failure) && data == old(data) &&
        conn.handle == old(conn.handle) && conn.created == old(conn.created)
      ensures PropertyFields(values).Ok? ==>
        var a := Acquire(old(conn.handle), old(conn.created), outcome);
        conn.handle == Some(a.handle) && conn.created == a.created &&
        Outcome(r, data) == Guarded(false, a.result, old(data),
                                    Outcome(Ok(()), WriteProfile(old(data), config.app, username, isAuthenticated, PropertyFields(values).value, now)))
    {
      var fields: Hash := map[];
      var i := 0;
      label Loop:
      while i < |values|
        invariant 0 <= i <= |values|
        invariant PropertyFields(values[..i]) == Ok(fields)
        invariant unchanged@Loop(this, conn)
      {
        PropertyFieldsStep(values, i, fields);
        if values[i].name in fields {
          PropertyFieldsStopAtFailure(values, i + 1);
          return Err(DuplicateKey(values[i].name));
        }
        fields := fields[values[i].name := Text(values[i].json)];
        i := i + 1;
      }
      assert values[..i] == values;
      var connected := conn.GetConnection(outcome);
      if connected.Err? {
        return Err(connected.failure);
      }
      data := data.(hashes := SetFields(data.hashes, ProfileKey(config.app, username, isAuthenticated), fields));
      UpdateActivityDate(username, isAuthenticated, false, now);
      r := Ok(());
    }

    /**
     * GetAllProfiles: the entries of one page (corrected end) of the list the
     * option selects, each parsed and its profile read in list order.
     */
    method GetAllProfiles(option: AuthOption, pageIndex: int, pageSize: int, outcome: OpenOutcome) returns (r: Result<ProfilePage>)
      requires Valid()
      modifies conn
      ensures Valid()
      ensures var a := Acquire(old(conn.handle), old(conn.created), outcome);
        conn.handle == Some(a.handle) && conn.created == a.created &&
        Outcome(r, data) == Guarded(config.writeExceptionsToEventLog, a.result, data,
                                    Outcome(AllProfiles(data, config.app, option, pageIndex, pageSize), data))
    {
      var flag := config.writeExceptionsToEventLog;
      var connected := conn.GetConnection(outcome);
      if connected.Err? {
        return Err(Surface(flag, connected.failure));
      }
      var entries := Page(ListOf(data.lists, ListKey(config.app, option)), pageIndex, pageSize);
      var profiles := ReadEntries(data.hashes, config.app, entries);
      if profiles.Err? {
        return Err(Surface(flag, profiles.failure));
      }
      r := Ok(ProfilePage(profiles.value, CounterOf(data.counters, ProfilesCountKey(config.app))));
    }
  }

  /** The profiles behind a run of list entries, one entry at a time. */
  method ReadEntries(hashes: Db<Hash>, app: string, entries: seq<string>) returns (r: Result<seq<ProfileInfo>>)
    ensures r == CollectProfiles(hashes, app, entries)
  {
    var profiles: seq<ProfileInfo> := [];
    var i := 0;
    while i < |entries|
      invariant 0 <= i <= |entries|
      invariant CollectProfiles(hashes, app, entries[..i]) == Ok(profiles)
    {
      CollectStep(hashes, app, entries, i, profiles);
      var found := EntryProfile(hashes, app, entries[i]);
      if found.Err? {
        CollectStopsAtFailure(hashes, app, entries, i + 1);
        return Err(found.failure);
      }
      if found.value.Some? {
        var info := found.value.value;
        if NameCollected(profiles, info.username) {
          CollectStopsAtFailure(hashes, app, entries, i + 1);
          return Err(DuplicateKey(info.username));
        }
        profiles := profiles + [info];
      }
      i := i + 1;
    }
    assert entries[..i] == entries;
    r := Ok(profiles);
  }

  /** Once a prefix of the requested names fails, the whole request fails the same way. */
  lemma {:induction false} PropertyValuesStopAtFailure(h: Hash, names: seq<string>, j: nat)
    requires j <= |names|
    requires PropertyValues(h, names[..j]).Err?
    ensures PropertyValues(h, names) == PropertyValues(h, names[..j])
    decreases |names| - j
  {
    if j == |names| {
      assert names[..j] == names;
    } else {
      var init := names[..|names| - 1];
      assert init[..j] == names[..j];
      PropertyValuesStopAtFailure(h, init, j);
    }
  }

  /** Once a prefix of the property values repeats a name, the whole dictionary fails the same way. */
  lemma {:induction false} PropertyFieldsStopAtFailure(values: seq<PropertyValue>, j: nat)
    requires j <= |values|
    requires PropertyFields(values[..j]).Err?
    ensures PropertyFields(values) == PropertyFields(values[..j])
    decreases |values| - j
  {
    if j == |values| {
      assert values[..j] == values;
    } else {
      var init := values[..|values| - 1];
      assert init[..j] == values[..j];
      PropertyFieldsStopAtFailure(init, j);
    }
  }
}
