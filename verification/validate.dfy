/** Schema-driven healing of the configuration (`validate.py`) and the
    start-up that uses it (`config.py`): every schema key gets the user's
    value when one of its allowed types accepts it, and its default
    otherwise; the login credentials are reset when unusable; the file is
    written back only when something changed. The environment, the key
    generator, the password hasher and the regular expressions of the
    address, URL and key types are inputs. */
module Validate {
  import opened Wrappers
  import opened Strings
  import opened Config
  import Auth

  const DefaultUsername: string := "admin"
  const DefaultPassword: string := "stacks"

  /** The type names a schema rule may list; any other name accepts nothing. */
  datatype TypeTag = StringType | IntegerType | BoolType | NullType | PortRange | Key32 | Ip | Url | Logging | BcryptHash
                   | Unknown(name: string)

  /** One key's rules: the allowed types in order, the default (`None` when
      absent), and the optional bounds. */
  datatype Rules = Rules(types: seq<TypeTag>, default: Value, min: Option<int>, max: Option<int>, maxLength: Option<int>)

  /** A schema section: a mapping from keys to rules, or anything else. */
  datatype Section = Keys(rules: map<string, Rules>) | NotKeys

  /** The process environment and the effects `_validate_value` relies on:
      `RESET_ADMIN` (lowercased) being `true`, the `USERNAME`, `PASSWORD`
      and `SOLVERR_URL` variables, the next generated key, the hasher, the
      three regular expressions and the log level names. */
  datatype Env = Env(
    resetAdmin: bool,
    username: Option<string>,
    password: Option<string>,
    solverUrl: Option<string>,
    newKey: string,
    hash: string -> string,
    isKey32: string -> bool,
    isIp: string -> bool,
    isUrl: string -> bool,
    logLevels: set<string>)

  /** The default sentinels `_apply_default` replaces. */
  const Sentinels: set<string> := {"GENERATE_32_BIT_KEY", "HASH_PASSWORD", "USERNAME", "FLARESOLVERR"}

  /** `_apply_default`: a sentinel becomes a generated key, the hashed
      default password, the default username or the solver URL; any other
      default is returned verbatim. */
  function ApplyDefault(default: Value, env: Env): (r: Value)
    ensures !(default.Str? && default.s in Sentinels) ==> r == default
    ensures default == Str("GENERATE_32_BIT_KEY") ==> r == Str(env.newKey)
    ensures default == Str("HASH_PASSWORD") ==> r == Str(env.hash(env.password.GetOr(DefaultPassword)))
    ensures default == Str("USERNAME") ==> r == Str(env.username.GetOr(DefaultUsername))
    ensures default == Str("FLARESOLVERR") ==> r == (if env.solverUrl.Some? then Str(env.solverUrl.value) else Null)
  {
    match default
    case Str("GENERATE_32_BIT_KEY") => Str(env.newKey)
    case Str("HASH_PASSWORD") => Str(env.hash(env.password.GetOr(DefaultPassword)))
    case Str("USERNAME") => Str(env.username.GetOr(DefaultUsername))
    case Str("FLARESOLVERR") => if env.solverUrl.Some? then Str(env.solverUrl.value) else Null
    case _ => default
  }

  /** Python's `isinstance(v, int)`, true for booleans too, and the number. */
  predicate IsInt(v: Value) {
    v.Int? || v.Bool?
  }

  function IntOf(v: Value): int
    requires IsInt(v)
  {
    if v.Int? then v.i else if v.b then 1 else 0
  }

  /** Whether type `t` accepts `v` under the key's rules. A bcrypt hash must be a string. */
  predicate Accepts(t: TypeTag, v: Value, rules: Rules, env: Env) {
    match t
    case StringType => v.Str? && (rules.maxLength.None? || |v.s| <= rules.maxLength.value)
    case IntegerType => IsInt(v) && (rules.min.None? || IntOf(v) >= rules.min.value) && (rules.max.None? || IntOf(v) <= rules.max.value)
    case BoolType => v.Bool?
    case NullType => v.Null?
    case PortRange => IsInt(v) && 0 <= IntOf(v) <= 65535
    case Key32 => v.Str? && env.isKey32(v.s)
    case Ip => v.Str? && env.isIp(v.s)
    case Url => v.Str? && env.isUrl(v.s)
    case Logging => v.Str? && Upper(v.s) in env.logLevels
    case BcryptHash => v.Str? && Auth.IsValidBcryptHash(v.s) && !env.resetAdmin
    case Unknown(_) => false
  }

  /** Tries the types in order: the first that accepts returns the value. */
  function TryTypes(types: seq<TypeTag>, v: Value, rules: Rules, env: Env): (r: Value)
    ensures (exists i :: 0 <= i < |types| && Accepts(types[i], v, rules, env)) ==> r == v
    ensures (forall i :: 0 <= i < |types| ==> !Accepts(types[i], v, rules, env)) ==> r == ApplyDefault(rules.default, env)
    decreases |types|
  {
    if |types| == 0 then ApplyDefault(rules.default, env)
    else if Accepts(types[0], v, rules, env) then v
    else
      var r := TryTypes(types[1..], v, rules, env);
      assert forall i :: 1 <= i < |types| ==> types[i] == types[1..][i - 1];
      r
  }

  /** `_validate_value`: the value itself when an allowed type accepts it, the default otherwise. */
  function ValidateValue(v: Value, rules: Rules, env: Env): (r: Value)
    ensures (exists i :: 0 <= i < |rules.types| && Accepts(rules.types[i], v, rules, env)) ==> r == v
    ensures (forall i :: 0 <= i < |rules.types| ==> !Accepts(rules.types[i], v, rules, env)) ==> r == ApplyDefault(rules.default, env)
  {
    TryTypes(rules.types, v, rules, env)
  }

  /** Validating a validated value changes nothing, without `RESET_ADMIN`
      and with the generated key and hash being the same inputs. */
  lemma ValidateValueIdempotent(v: Value, rules: Rules, env: Env)
    requires !env.resetAdmin
    ensures ValidateValue(ValidateValue(v, rules, env), rules, env) == ValidateValue(v, rules, env)
  {
  }

  /** The effects a second pass may draw afresh: a new key and a new salt. */
  function Fresh(env: Env, key: string, hash: string -> string): Env {
    env.(newKey := key, hash := hash)
  }

  /** The applied default is a value its own rules accept. */
  predicate DefaultAccepted(rules: Rules, env: Env) {
    exists i :: 0 <= i < |rules.types| && Accepts(rules.types[i], ApplyDefault(rules.default, env), rules, env)
  }

  /** Fresh effects do not change which values a type accepts. */
  lemma AcceptsIgnoresFresh(t: TypeTag, v: Value, rules: Rules, env: Env, key: string, hash: string -> string)
    ensures Accepts(t, v, rules, Fresh(env, key, hash)) == Accepts(t, v, rules, env)
  {
  }

  /** A second pass drawing a fresh key and salt keeps the first pass's value
      whenever the applied default is one its rules accept: a kept user
      value is accepted again, and so is the default. */
  lemma ValidateValueStable(v: Value, rules: Rules, env: Env, key: string, hash: string -> string)
    requires DefaultAccepted(rules, env)
    ensures ValidateValue(ValidateValue(v, rules, env), rules, Fresh(env, key, hash)) == ValidateValue(v, rules, env)
  {
    var once := ValidateValue(v, rules, env);
    var i :| 0 <= i < |rules.types| && Accepts(rules.types[i], ApplyDefault(rules.default, env), rules, env);
    if exists j :: 0 <= j < |rules.types| && Accepts(rules.types[j], v, rules, env) {
      var j :| 0 <= j < |rules.types| && Accepts(rules.types[j], v, rules, env);
      AcceptsIgnoresFresh(rules.types[j], v, rules, env, key, hash);
    } else {
      assert once == ApplyDefault(rules.default, env);
      AcceptsIgnoresFresh(rules.types[i], once, rules, env, key, hash);
    }
  }

  /** Under `RESET_ADMIN` a hash-only key is never accepted, so every pass
      stores a new hash of the password: with a fresh salt the second pass
      differs from the first. */
  lemma ResetAdminRehashes(v: Value, rules: Rules, env: Env, hash: string -> string)
    requires env.resetAdmin && rules.types == [BcryptHash] && rules.default == Str("HASH_PASSWORD")
    requires hash(env.password.GetOr(DefaultPassword)) != env.hash(env.password.GetOr(DefaultPassword))
    ensures ValidateValue(ValidateValue(v, rules, env), rules, Fresh(env, env.newKey, hash)) != ValidateValue(v, rules, env)
  {
    assert !Accepts(rules.types[0], v, rules, env);
    var once := ValidateValue(v, rules, env);
    assert !Accepts(rules.types[0], once, rules, Fresh(env, env.newKey, hash));
  }

  /** Booleans pass as integers: `True` is accepted where 1 is, even as a port. */
  lemma BooleanIsInteger(rules: Rules, env: Env)
    requires rules.types == [PortRange]
    ensures ValidateValue(Bool(true), rules, env) == Bool(true)
  {
    assert Accepts(rules.types[0], Bool(true), rules, env);
  }

  /** The user's section: its mapping, or an empty one when it is missing or not a mapping. */
  function UserSection(config: map<string, Value>, section: string): map<string, Value> {
    if section in config && config[section].Dict? then config[section].entries else map[]
  }

  /** `_validate`: exactly the mapping-typed sections of the schema, each
      with exactly its keys, every value the user's when accepted and the
      default otherwise; whatever else the user wrote is dropped. */
  function Validate(config: map<string, Value>, schema: map<string, Section>, env: Env): (r: map<string, Value>)
    ensures forall s :: s in r <==> s in schema && schema[s].Keys?
    ensures forall s :: s in r ==> r[s].Dict? && forall k :: k in r[s].entries <==> k in schema[s].rules
    ensures forall s, k :: s in r && k in schema[s].rules ==>
      r[s].entries[k] == Entry(UserSection(config, s), k)
      || r[s].entries[k] == ApplyDefault(schema[s].rules[k].default, env)
  {
    map s | s in schema && schema[s].Keys? ::
      Dict(map k | k in schema[s].rules :: ValidateValue(Entry(UserSection(config, s), k), schema[s].rules[k], env))
  }

  /** Healing is idempotent: a healed configuration is healed already. */
  lemma ValidateIdempotent(config: map<string, Value>, schema: map<string, Section>, env: Env)
    requires !env.resetAdmin
    ensures Validate(Validate(config, schema, env), schema, env) == Validate(config, schema, env)
  {
    var once := Validate(config, schema, env);
    var twice := Validate(once, schema, env);
    forall s | s in once
      ensures twice[s] == once[s]
    {
      SectionIdempotent(config, schema, env, s);
    }
  }

  /** One healed section is healed already. */
  lemma SectionIdempotent(config: map<string, Value>, schema: map<string, Section>, env: Env, s: string)
    requires !env.resetAdmin && s in schema && schema[s].Keys?
    ensures Validate(Validate(config, schema, env), schema, env)[s] == Validate(config, schema, env)[s]
  {
    var once := Validate(config, schema, env);
    var twice := Validate(once, schema, env);
    var rules := schema[s].rules;
    assert UserSection(once, s) == once[s].entries;
    forall k | k in rules
      ensures twice[s].entries[k] == once[s].entries[k]
    {
      var v := Entry(UserSection(config, s), k);
      assert once[s].entries[k] == ValidateValue(v, rules[k], env);
      assert twice[s].entries[k] == ValidateValue(once[s].entries[k], rules[k], env);
      ValidateValueIdempotent(v, rules[k], env);
    }
    assert twice[s].entries == once[s].entries;
  }

  // ---- the code as written, for the findings ----

  /** `is_valid_bcrypt_hash` on any value as written: falsy values are not
      hashes, and a truthy non-string raises (it has no `startswith`). */
  function BcryptAsWritten(v: Value): Option<bool> {
    if !Truthy(v) then Some(false)
    else if v.Str? then Some(Auth.IsValidBcryptHash(v.s))
    else None
  }

  /** A type test as written: `None` when it raises. */
  function AcceptsAsWritten(t: TypeTag, v: Value, rules: Rules, env: Env): Option<bool> {
    if t == BcryptHash then
      match BcryptAsWritten(v)
      case None => None
      case Some(ok) => Some(ok && !env.resetAdmin)
    else Some(Accepts(t, v, rules, env))
  }

  /** `_validate_value` as written: `None` when a type test raises. */
  function ValidateValueAsWritten(v: Value, rules: Rules, env: Env): Option<Value> {
    TryTypesAsWritten(rules.types, v, rules, env)
  }

  function TryTypesAsWritten(types: seq<TypeTag>, v: Value, rules: Rules, env: Env): (r: Option<Value>)
    ensures r.Some? ==> r.value == TryTypes(types, v, rules, env)
    decreases |types|
  {
    if |types| == 0 then Some(ApplyDefault(rules.default, env))
    else match AcceptsAsWritten(types[0], v, rules, env)
      case None => None
      case Some(true) => Some(v)
      case Some(false) => TryTypesAsWritten(types[1..], v, rules, env)
  }

  /** One section of `_validate` as written: the user's section is read
      with `.get`, which raises when it is present but not a mapping (a bare
      `login:` line reads as `None`); a value test may raise too. */
  function SectionAsWritten(config: map<string, Value>, s: string, rules: map<string, Rules>, env: Env): Option<map<string, Value>> {
    if rules != map[] && s in config && !config[s].Dict? then None
    else if exists k :: k in rules && ValidateValueAsWritten(Entry(UserSection(config, s), k), rules[k], env).None? then None
    else Some(map k | k in rules :: ValidateValueAsWritten(Entry(UserSection(config, s), k), rules[k], env).value)
  }

  /** `_validate` as written: `None` when some section raises. */
  function ValidateAsWritten(config: map<string, Value>, schema: map<string, Section>, env: Env): (r: Option<map<string, Value>>)
    ensures r.Some? ==> forall s :: s in r.value <==> s in schema && schema[s].Keys?
    ensures r.Some? ==> forall s :: s in r.value ==> r.value[s].Dict?
  {
    if exists s :: s in schema && schema[s].Keys? && SectionAsWritten(config, s, schema[s].rules, env).None? then None
    else Some(map s | s in schema && schema[s].Keys? :: Dict(SectionAsWritten(config, s, schema[s].rules, env).value))
  }

  /** Where the code as written does not raise, it heals as the model does. */
  lemma AsWrittenAgrees(config: map<string, Value>, schema: map<string, Section>, env: Env)
    requires ValidateAsWritten(config, schema, env).Some?
    ensures ValidateAsWritten(config, schema, env).value == Validate(config, schema, env)
  {
    var w := ValidateAsWritten(config, schema, env).value;
    var r := Validate(config, schema, env);
    forall s | s in r
      ensures w[s] == r[s]
    {
      SectionAgrees(config, s, schema[s].rules, env);
    }
  }

  lemma SectionAgrees(config: map<string, Value>, s: string, rules: map<string, Rules>, env: Env)
    requires SectionAsWritten(config, s, rules, env).Some?
    ensures SectionAsWritten(config, s, rules, env).value
      == map k | k in rules :: ValidateValue(Entry(UserSection(config, s), k), rules[k], env)
  {
  }

  /** A section left empty in the file stops start-up instead of being filled with its defaults. */
  lemma AsWrittenEmptySectionRaises(rules: Rules, env: Env)
    ensures ValidateAsWritten(map["login" := Null], map["login" := Keys(map["username" := rules])], env).None?
    ensures Validate(map["login" := Null], map["login" := Keys(map["username" := rules])], env)["login"].entries["username"]
      == ValidateValue(Null, rules, env)
  {
    var schema := map["login" := Keys(map["username" := rules])];
    assert "username" in schema["login"].rules;
    assert SectionAsWritten(map["login" := Null], "login", schema["login"].rules, env).None?;
  }

  /** A numeric password stops start-up instead of being reset to the hashed default. */
  lemma AsWrittenNumericHashRaises(env: Env)
    ensures var rules := Rules([BcryptHash], Str("HASH_PASSWORD"), None, None, None);
      && ValidateValueAsWritten(Int(12345), rules, env).None?
      && ValidateValue(Int(12345), rules, env) == Str(env.hash(env.password.GetOr(DefaultPassword)))
  {
    var rules := Rules([BcryptHash], Str("HASH_PASSWORD"), None, None, None);
    assert !Accepts(rules.types[0], Int(12345), rules, env);
  }

  // ---- credentials and start-up ----

  /** Whether `ensure_login_credentials` resets: `RESET_ADMIN`, or an empty
      username or password, or a password that is not a bcrypt hash. */
  predicate NeedsReset(data: map<string, Value>, env: Env) {
    var username := Get(Dict(data), ["login", "username"], Null);
    var password := Get(Dict(data), ["login", "password"], Null);
    env.resetAdmin || !Truthy(username) || !Truthy(password) || !(password.Str? && Auth.IsValidBcryptHash(password.s))
  }

  /** No reset happens exactly when `RESET_ADMIN` is off and the login
      section holds a non-empty username and a bcrypt-shaped password. */
  lemma NeedsResetIff(data: map<string, Value>, env: Env)
    ensures !NeedsReset(data, env) <==>
      (&& !env.resetAdmin && "login" in data && data["login"].Dict?
       && Truthy(Entry(data["login"].entries, "username"))
       && Entry(data["login"].entries, "password").Str?
       && Auth.IsValidBcryptHash(Entry(data["login"].entries, "password").s))
  {
    assert ["login", "username"][1..] == ["username"];
    assert ["login", "password"][1..] == ["password"];
  }

  /** Whether deciding on a reset raises: with `RESET_ADMIN` off and a
      non-empty username, the bcrypt check calls `startswith` on a truthy
      password that is not a string. */
  predicate CheckRaises(data: map<string, Value>, env: Env) {
    var username := Get(Dict(data), ["login", "username"], Null);
    var password := Get(Dict(data), ["login", "password"], Null);
    !env.resetAdmin && Truthy(username) && BcryptAsWritten(password).None?
  }

  /** `ensure_login_credentials`: the data and whether it reset (and so
      saved); `None` when the bcrypt check or writing the login section
      raises. */
  function EnsureLoginCredentials(data: map<string, Value>, env: Env): (r: Option<(map<string, Value>, bool)>)
    ensures CheckRaises(data, env) ==> r.None?
    ensures !NeedsReset(data, env) ==> r == Some((data, false))
    ensures NeedsReset(data, env) && !CheckRaises(data, env) && ("login" !in data || data["login"].Dict?) ==>
      && r.Some? && r.value.1
      && Get(Dict(r.value.0), ["login", "username"], Null) == Str(env.username.GetOr(DefaultUsername))
      && Get(Dict(r.value.0), ["login", "password"], Null) == Str(env.hash(env.password.GetOr(DefaultPassword)))
      && forall s :: s != "login" ==> (s in r.value.0 <==> s in data) && (s in data ==> r.value.0[s] == data[s])
  {
    if CheckRaises(data, env) then None
    else if !NeedsReset(data, env) then Some((data, false))
    else
      var user := Str(env.username.GetOr(DefaultUsername));
      var pass := Str(env.hash(env.password.GetOr(DefaultPassword)));
      if "login" in data && !data["login"].Dict? then
        assert Set(data, ["login", "username"], user).None? by { SetSucceedsIff(data, ["login", "username"], user); assert ["login", "username"][..1] == ["login"]; }
        None
      else
        SetSucceedsIff(data, ["login", "username"], user);
        assert ["login", "username"][..1] == ["login"];
        var d1 := Set(data, ["login", "username"], user).value;
        SetSucceedsIff(d1, ["login", "password"], pass);
        assert ["login", "password"][..1] == ["login"];
        var d2 := Set(d1, ["login", "password"], pass).value;
        GetAfterSet(data, ["login", "username"], user, Null);
        GetAfterSet(d1, ["login", "password"], pass, Null);
        SetLeavesOtherPaths(d1, ["login", "password"], pass, ["login", "username"], 1);
        Some((d2, true))
  }

  /** A numeric password under a set username: the check raises unless
      `RESET_ADMIN` is on, when the credentials are reset. */
  lemma NumericLoginPasswordRaises(env: Env)
    ensures var data := map["login" := Dict(map["username" := Str("admin"), "password" := Int(12345)])];
      && (!env.resetAdmin ==> EnsureLoginCredentials(data, env).None?)
      && (env.resetAdmin ==> EnsureLoginCredentials(data, env).Some? && EnsureLoginCredentials(data, env).value.1)
  {
    var data := map["login" := Dict(map["username" := Str("admin"), "password" := Int(12345)])];
    assert ["login", "username"][1..] == ["username"];
    assert ["login", "password"][1..] == ["password"];
    assert Get(Dict(data), ["login", "password"], Null) == Int(12345);
    assert Get(Dict(data), ["login", "username"], Null) == Str("admin");
  }

  /** `Config.__init__`: heal the loaded data, then the credentials; the
      data kept and the number of writes of the file, or `None` when the
      credential check raises. */
  function Startup(loaded: map<string, Value>, schema: map<string, Section>, env: Env): (r: Option<(map<string, Value>, nat)>)
    ensures var healed := Validate(loaded, schema, env);
      && (r.None? <==> CheckRaises(healed, env))
      && (!NeedsReset(healed, env) ==> r.Some? && r.value.0 == healed)
      && (r.Some? ==> (r.value.1 == 0 <==> PyEq(Dict(r.value.0), Dict(loaded)) && !NeedsReset(healed, env)))
      && (r.Some? ==> r.value.1 <= 2)
  {
    var healed := Validate(loaded, schema, env);
    assert "login" in healed ==> healed["login"].Dict?;
    if CheckRaises(healed, env) then None
    else
      var (data, reset) := EnsureLoginCredentials(healed, env).value;
      Some((data, (if reset then 1 else 0) + (if !PyEq(Dict(data), Dict(loaded)) then 1 else 0)))
  }

  /** A start-up that needed no credential reset leaves a file the next
      start-up neither changes nor writes. */
  lemma SecondStartupQuiet(loaded: map<string, Value>, schema: map<string, Section>, env: Env)
    requires !NeedsReset(Validate(loaded, schema, env), env)
    ensures var first := Startup(loaded, schema, env).value.0;
      Startup(first, schema, env) == Some((first, 0))
  {
    ValidateIdempotent(loaded, schema, env);
    PyEqReflexive(Dict(Validate(loaded, schema, env)));
  }
}
