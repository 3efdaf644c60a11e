/** Resolution of the connection settings: a profile from the profile store
    (or the built-in demo credentials), then command-line overrides, then
    environment variables, then validation; and the mapping of the resolved
    environment name onto the API's regions. */
module Config {
  import opened Results
  import opened Strings
  import Decimal

  const DemoProfile := "demo"
  const DemoToken := "TMO"
  const DemoDatabase := "API Sandbox"
  const DefaultEnvironment := "us"
  const DefaultTimeout := 30
  const TokenVariable := "TMO_API_TOKEN"
  const DatabaseVariable := "TMO_DATABASE"
  const UserAgentVariable := "TMO_USER_AGENT"

  const TokenRequiredMessage :=
    "Token is required. Provide via --profile, --token, TMO_API_TOKEN env var, or run 'tmoapi init'."
  const DatabaseRequiredMessage :=
    "Database is required. Provide via --profile, --database, TMO_DATABASE env var, or run 'tmoapi init'."

  type Section = map<string, string>

  /** The profile store as the config parser holds it once the file is read:
      the named sections in file order, and the `DEFAULT` section whose keys
      every named section inherits. Keys are already lower-cased. */
  datatype ProfileStore = ProfileStore(sections: seq<(string, Section)>, defaults: Section)

  /** The process environment. */
  type Environ = map<string, string>

  /** The parsed command line; `None` is an option that was not given (or,
      for `profile`, an attribute that is missing). */
  datatype CliArgs = CliArgs(
    profile: Option<string>,
    token: Option<string>,
    database: Option<string>,
    environment: Option<string>,
    userAgent: Option<string>,
    debug: bool)

  /** The dictionary `resolve_config_values` returns. */
  datatype ConfigValues = ConfigValues(token: string, database: string, environment: string, timeout: int)

  /** The values seeded from the profile or the demo fallback, before overrides. */
  datatype Seed = Seed(token: Option<string>, database: Option<string>, environment: string, timeout: int)

  datatype Region = US | CANADA | AUSTRALIA

  /** What the client is constructed with. */
  datatype ClientSettings = ClientSettings(
    token: string,
    database: string,
    region: Region,
    timeout: int,
    debug: bool,
    userAgent: Option<string>)

  /** `config.sections()`. */
  function ProfileNames(store: ProfileStore): (names: seq<string>)
    ensures |names| == |store.sections|
    ensures forall i :: 0 <= i < |names| ==> names[i] == store.sections[i].0
  {
    seq(|store.sections|, i requires 0 <= i < |store.sections| => store.sections[i].0)
  }

  /** `config[name]` when `config.has_section(name)`. */
  function FindSection(sections: seq<(string, Section)>, name: string): (r: Option<Section>)
    ensures r.Some? <==> exists i :: 0 <= i < |sections| && sections[i].0 == name
    ensures r.Some? ==> exists i :: 0 <= i < |sections| && sections[i] == (name, r.value)
    decreases |sections|
  {
    if |sections| == 0 then None
    else if sections[0].0 == name then Some(sections[0].1)
    else
      var r := FindSection(sections[1..], name);
      assert forall i :: 1 <= i < |sections| ==> sections[i] == sections[1..][i - 1];
      r
  }

  predicate HasSection(store: ProfileStore, name: string) {
    name in ProfileNames(store)
  }

  /** A section's lookup: its own value wins, a key it lacks is inherited from the
      `DEFAULT` section, and a key neither has is missing. */
  function SectionGet(store: ProfileStore, section: Section, key: string): (r: Option<string>)
    ensures r == (var merged := store.defaults + section; if key in merged then Some(merged[key]) else None)
  {
    if key in section then Some(section[key])
    else if key in store.defaults then Some(store.defaults[key])
    else None
  }

  /** `os.getenv(name)`. */
  function GetEnv(env: Environ, name: string): Option<string> {
    if name in env then Some(env[name]) else None
  }

  /** Python's truth value of an optional string: present and non-empty. */
  predicate NonEmpty(s: Option<string>) {
    s.Some? && s.value != ""
  }

  function ProfileOf(args: CliArgs): string {
    args.profile.GetOr(DemoProfile)
  }

  function ProfileNotFoundMessage(profile: string, configPath: string, available: seq<string>): string {
    "Profile '" + profile + "' not found in " + configPath + ". " +
    "Available profiles: " + (if |available| > 0 then Join(", ", available) else "none") + ". " +
    "Run 'tmoapi init' to create the config file."
  }

  /** The profile's integer timeout: 30 when the key is missing, the value `int()`
      reads otherwise, and a `ValueError` naming the text when `int()` rejects it. */
  function SectionTimeout(store: ProfileStore, section: Section): (r: Result<int>)
    ensures SectionGet(store, section, "timeout").None? ==> r == Ok(DefaultTimeout)
    ensures SectionGet(store, section, "timeout").Some? ==>
      var raw := SectionGet(store, section, "timeout").value;
      && (r.Ok? <==> Decimal.ParseInt(raw).Some?)
      && (r.Ok? ==> Some(r.value) == Decimal.ParseInt(raw))
      && (r.Err? ==> r.error == ValueError("invalid literal for int() with base 10: '" + raw + "'"))
  {
    match SectionGet(store, section, "timeout")
    case None => Ok(DefaultTimeout)
    case Some(raw) =>
      match Decimal.ParseInt(raw)
      case Some(n) => Ok(n)
      case None => Err(ValueError("invalid literal for int() with base 10: '" + raw + "'"))
  }

  /** A timeout stored as the text `str()` writes for an integer is read back as that integer. */
  lemma StoredTimeoutRead(store: ProfileStore, section: Section, n: int)
    requires SectionGet(store, section, "timeout") == Some(Decimal.IntToString(n))
    ensures SectionTimeout(store, section) == Ok(n)
  {
    Decimal.ParseIntRoundTrip(n);
  }

  /** The seeding step: the stored profile, else the demo credentials for `demo`, else failure. */
  function SeedValues(store: ProfileStore, profile: string, configPath: string): Result<Seed> {
    match FindSection(store.sections, profile)
    case Some(section) =>
      (match SectionTimeout(store, section)
       case Ok(timeout) =>
         Ok(Seed(SectionGet(store, section, "token"), SectionGet(store, section, "database"),
                 SectionGet(store, section, "environment").GetOr(DefaultEnvironment), timeout))
       case Err(e) => Err(e))
    case None =>
      if profile == DemoProfile then Ok(Seed(Some(DemoToken), Some(DemoDatabase), DefaultEnvironment, DefaultTimeout))
      else Err(ValidationError(ProfileNotFoundMessage(profile, configPath, ProfileNames(store))))
  }

  /** The first candidate that is present and non-empty: the precedence order stated declaratively. */
  function FirstNonEmpty(candidates: seq<Option<string>>): (r: Option<string>)
    ensures r.Some? ==> r.value != "" && Some(r.value) in candidates
    ensures r.Some? ==> exists i :: 0 <= i < |candidates| && candidates[i] == r &&
                          forall j :: 0 <= j < i ==> !NonEmpty(candidates[j])
    ensures r.None? <==> forall i :: 0 <= i < |candidates| ==> !NonEmpty(candidates[i])
    decreases |candidates|
  {
    if |candidates| == 0 then None
    else if NonEmpty(candidates[0]) then candidates[0]
    else
      var r := FirstNonEmpty(candidates[1..]);
      assert forall i :: 1 <= i < |candidates| ==> candidates[i] == candidates[1..][i - 1];
      if r.Some? then
        var i :| 0 <= i < |candidates[1..]| && candidates[1..][i] == r &&
                  forall j :: 0 <= j < i ==> !NonEmpty(candidates[1..][j]);
        assert candidates[i + 1] == r;
        assert forall j :: 0 <= j < i + 1 ==> !NonEmpty(candidates[j]) by {
          forall j | 0 <= j < i + 1 ensures !NonEmpty(candidates[j]) {
            if j > 0 {
              assert candidates[j] == candidates[1..][j - 1];
            }
          }
        }
        r
      else r
  }

  /** The specification of `resolve_config_values`, step by step as the source orders it. */
  function Resolve(store: ProfileStore, args: CliArgs, env: Environ, configPath: string): Result<ConfigValues> {
    match SeedValues(store, ProfileOf(args), configPath)
    case Err(e) => Err(e)
    case Ok(seed) =>
      var token := if NonEmpty(args.token) then args.token else seed.token;
      var token := if NonEmpty(token) then token else GetEnv(env, TokenVariable);
      var database := if NonEmpty(args.database) then args.database else seed.database;
      var database := if NonEmpty(database) then database else GetEnv(env, DatabaseVariable);
      var environment := if NonEmpty(args.environment) then args.environment.value else seed.environment;
      if !NonEmpty(token) then Err(ValidationError(TokenRequiredMessage))
      else if !NonEmpty(database) then Err(ValidationError(DatabaseRequiredMessage))
      else Ok(ConfigValues(token.value, database.value, environment, seed.timeout))
  }

  /** `resolve_config_values(args)`: updates a working record step by step. */
  method ResolveConfigValues(store: ProfileStore, args: CliArgs, env: Environ, configPath: string)
    returns (r: Result<ConfigValues>)
    ensures r == Resolve(store, args, env, configPath)
  {
    var token: Option<string> := None;
    var database: Option<string> := None;
    var environment := DefaultEnvironment;
    var timeout := DefaultTimeout;
    var profile := ProfileOf(args);
    var section := FindSection(store.sections, profile);
    if section.Some? {
      var t := SectionTimeout(store, section.value);
      if t.Err? {
        return Err(t.error);
      }
      token := SectionGet(store, section.value, "token");
      database := SectionGet(store, section.value, "database");
      environment := SectionGet(store, section.value, "environment").GetOr(DefaultEnvironment);
      timeout := t.value;
    } else if profile == DemoProfile {
      token, database, environment := Some(DemoToken), Some(DemoDatabase), DefaultEnvironment;
    } else {
      return Err(ValidationError(ProfileNotFoundMessage(profile, configPath, ProfileNames(store))));
    }
    if NonEmpty(args.token) {
      token := args.token;
    }
    if NonEmpty(args.database) {
      database := args.database;
    }
    if NonEmpty(args.environment) {
      environment := args.environment.value;
    }
    if !NonEmpty(token) {
      token := GetEnv(env, TokenVariable);
    }
    if !NonEmpty(database) {
      database := GetEnv(env, DatabaseVariable);
    }
    if !NonEmpty(token) {
      return Err(ValidationError(TokenRequiredMessage));
    }
    if !NonEmpty(database) {
      return Err(ValidationError(DatabaseRequiredMessage));
    }
    return Ok(ConfigValues(token.value, database.value, environment, timeout));
  }

  /** Every successful resolution carries a non-empty token and database. */
  lemma ResolvedIsComplete(store: ProfileStore, args: CliArgs, env: Environ, configPath: string)
    requires Resolve(store, args, env, configPath).Ok?
    ensures Resolve(store, args, env, configPath).value.token != ""
    ensures Resolve(store, args, env, configPath).value.database != ""
  {
  }

  /** The token and the database each follow the precedence "command line, then the
      seeded profile value, then the environment variable"; resolution fails for the
      token before it looks at the database. */
  lemma ResolvePrecedence(store: ProfileStore, args: CliArgs, env: Environ, configPath: string)
    requires SeedValues(store, ProfileOf(args), configPath).Ok?
    ensures var seed := SeedValues(store, ProfileOf(args), configPath).value;
      var token := FirstNonEmpty([args.token, seed.token, GetEnv(env, TokenVariable)]);
      var database := FirstNonEmpty([args.database, seed.database, GetEnv(env, DatabaseVariable)]);
      Resolve(store, args, env, configPath) ==
        if token.None? then Err(ValidationError(TokenRequiredMessage))
        else if database.None? then Err(ValidationError(DatabaseRequiredMessage))
        else Ok(ConfigValues(token.value, database.value,
                             FirstNonEmpty([args.environment]).GetOr(seed.environment), seed.timeout))
  {
    var seed := SeedValues(store, ProfileOf(args), configPath).value;
    FirstOfThree(args.token, seed.token, GetEnv(env, TokenVariable));
    FirstOfThree(args.database, seed.database, GetEnv(env, DatabaseVariable));
    FirstOfOne(args.environment);
  }

  lemma FirstOfThree(a: Option<string>, b: Option<string>, c: Option<string>)
    ensures FirstNonEmpty([a, b, c]) ==
      if NonEmpty(a) then a else if NonEmpty(b) then b else if NonEmpty(c) then c else None
  {
    assert [a, b, c][1..] == [b, c];
    assert [b, c][1..] == [c];
    FirstOfOne(c);
    assert FirstNonEmpty([b, c]) == if NonEmpty(b) then b else FirstNonEmpty([c]);
  }

  lemma FirstOfOne(a: Option<string>)
    ensures FirstNonEmpty([a]) == if NonEmpty(a) then a else None
  {
    assert [a][1..] == [];
  }

  /** A non-empty command-line token or database always wins over the profile and the environment. */
  lemma OverrideWins(store: ProfileStore, args: CliArgs, env: Environ, configPath: string)
    requires Resolve(store, args, env, configPath).Ok?
    ensures NonEmpty(args.token) ==> Resolve(store, args, env, configPath).value.token == args.token.value
    ensures NonEmpty(args.database) ==> Resolve(store, args, env, configPath).value.database == args.database.value
    ensures NonEmpty(args.environment) ==> Resolve(store, args, env, configPath).value.environment == args.environment.value
  {
  }

  /** With a stored profile and no override, the profile's own non-empty token and database
      are used and the environment variables are never consulted. */
  lemma StoredProfileUsed(store: ProfileStore, args: CliArgs, env: Environ, configPath: string, section: Section)
    requires FindSection(store.sections, ProfileOf(args)) == Some(section)
    requires SectionTimeout(store, section).Ok?
    requires !NonEmpty(args.token) && !NonEmpty(args.database) && !NonEmpty(args.environment)
    requires NonEmpty(SectionGet(store, section, "token")) && NonEmpty(SectionGet(store, section, "database"))
    ensures Resolve(store, args, env, configPath) ==
      Ok(ConfigValues(SectionGet(store, section, "token").value, SectionGet(store, section, "database").value,
                      SectionGet(store, section, "environment").GetOr(DefaultEnvironment),
                      SectionTimeout(store, section).value))
    ensures forall env' :: Resolve(store, args, env', configPath) == Resolve(store, args, env, configPath)
  {
  }

  /** The token's environment variable is consulted only when the token is still
      empty after the profile and the command line: otherwise its value cannot matter. */
  lemma EnvironmentOnlyWhenEmpty(store: ProfileStore, args: CliArgs, env: Environ, env': Environ, configPath: string)
    requires SeedValues(store, ProfileOf(args), configPath).Ok?
    requires NonEmpty(args.token) || NonEmpty(SeedValues(store, ProfileOf(args), configPath).value.token)
    requires GetEnv(env, DatabaseVariable) == GetEnv(env', DatabaseVariable)
    ensures Resolve(store, args, env, configPath) == Resolve(store, args, env', configPath)
  {
  }

  /** An absent `demo` profile falls back to the built-in demo credentials. */
  lemma DemoFallback(store: ProfileStore, args: CliArgs, env: Environ, configPath: string)
    requires ProfileOf(args) == DemoProfile && !HasSection(store, DemoProfile)
    requires !NonEmpty(args.token) && !NonEmpty(args.database) && !NonEmpty(args.environment)
    ensures Resolve(store, args, env, configPath) == Ok(ConfigValues(DemoToken, DemoDatabase, DefaultEnvironment, DefaultTimeout))
  {
    assert FindSection(store.sections, DemoProfile).None?;
  }

  /** Any other absent profile fails, naming the profiles the store does have. */
  lemma UnknownProfileFails(store: ProfileStore, args: CliArgs, env: Environ, configPath: string)
    requires !HasSection(store, ProfileOf(args)) && ProfileOf(args) != DemoProfile
    ensures Resolve(store, args, env, configPath) ==
      Err(ValidationError(ProfileNotFoundMessage(ProfileOf(args), configPath, ProfileNames(store))))
  {
    assert FindSection(store.sections, ProfileOf(args)).None?;
  }

  /** The message for a store with sections `a` and `b`. */
  lemma UnknownProfileMessageExample(env: Environ)
    ensures Resolve(ProfileStore([("a", map[]), ("b", map[])], map[]),
                    CliArgs(Some("missing"), None, None, None, None, false), env, "/home/u/.tmorc") ==
      Err(ValidationError(ProfileNotFoundMessage("missing", "/home/u/.tmorc", ["a", "b"])))
    ensures Join(", ", ["a", "b"]) == "a, b"
  {
    var store := ProfileStore([("a", map[]), ("b", map[])], map[]);
    var args := CliArgs(Some("missing"), None, None, None, None, false);
    assert ProfileNames(store) == ["a", "b"];
    assert !HasSection(store, "missing");
    assert Join(", ", ["a", "b"]) == "a, b" by {
      assert ["a", "b"][1..] == ["b"];
    }
    UnknownProfileFails(store, args, env, "/home/u/.tmorc");
  }

  /** A timeout the profile states but `int()` rejects fails the whole resolution,
      before any override is looked at. */
  lemma BadTimeoutFails(store: ProfileStore, args: CliArgs, env: Environ, configPath: string, section: Section)
    requires FindSection(store.sections, ProfileOf(args)) == Some(section)
    requires SectionGet(store, section, "timeout").Some?
    requires Decimal.ParseInt(SectionGet(store, section, "timeout").value).None?
    ensures Resolve(store, args, env, configPath).Err?
    ensures Resolve(store, args, env, configPath).error.ValueError?
  {
  }

  /** The alias table of `create_client_from_args`. */
  const RegionAliases: map<string, Region> := map[
    "us" := US, "usa" := US,
    "can" := CANADA, "canada" := CANADA,
    "aus" := AUSTRALIA, "australia" := AUSTRALIA
  ]

  /** The region of an environment name: the region of its lower-cased alias, or US for any other name. */
  function RegionOf(environment: string): (r: Region)
    ensures r == CANADA <==> Lower(environment) in {"can", "canada"}
    ensures r == AUSTRALIA <==> Lower(environment) in {"aus", "australia"}
    ensures r == US <==> Lower(environment) !in {"can", "canada", "aus", "australia"}
  {
    var key := Lower(environment);
    if key in RegionAliases then RegionAliases[key] else US
  }

  /** The mapping ignores letter case. */
  lemma RegionCaseInsensitive(environment: string)
    ensures RegionOf(environment) == RegionOf(Lower(environment))
  {
    LowerIdempotent(environment);
  }

  /** `create_client_from_args` up to the client constructor: the resolved values,
      the region, and the user agent from the command line or `TMO_USER_AGENT`. */
  method ClientSettingsFromArgs(store: ProfileStore, args: CliArgs, env: Environ, configPath: string)
    returns (r: Result<ClientSettings>)
    ensures Resolve(store, args, env, configPath).Err? ==>
      r == Err(Resolve(store, args, env, configPath).error)
    ensures Resolve(store, args, env, configPath).Ok? ==>
      var v := Resolve(store, args, env, configPath).value;
      r == Ok(ClientSettings(v.token, v.database, RegionOf(v.environment), v.timeout, args.debug,
                             if NonEmpty(args.userAgent) then args.userAgent else GetEnv(env, UserAgentVariable)))
  {
    var values := ResolveConfigValues(store, args, env, configPath);
    if values.Err? {
      return Err(values.error);
    }
    var v := values.value;
    var userAgent := if NonEmpty(args.userAgent) then args.userAgent else GetEnv(env, UserAgentVariable);
    return Ok(ClientSettings(v.token, v.database, RegionOf(v.environment), v.timeout, args.debug, userAgent));
  }
}
