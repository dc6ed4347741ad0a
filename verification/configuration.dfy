/** `ConfigurationExtensions`: required settings looked up in the process
    environment first and in the application configuration second. Both
    sources are maps from key to value; a key that is absent reads as null. */
module ConfigurationExtensions {
  import opened Wrappers
  import opened Text

  /** The process environment, or the flattened application configuration. */
  type Settings = map<string, string>

  /** `Environment.GetEnvironmentVariable(key)` or
      `configuration.GetValue<string>(key)`: null when the key is absent. */
  function Lookup(s: Settings, key: string): (v: NullableString)
    ensures v.Some? <==> key in s
    ensures v.Some? ==> v.value == s[key]
  {
    if key in s then Some(s[key]) else None
  }

  /** Keys of the two required connection strings, as environment variable
      and as configuration key. */
  const DefaultConnectionEnv: string := "ConnectionStrings__DefaultConnection"
  const DefaultConnectionConfig: string := "ConnectionStrings:DefaultConnection"
  const RedisConnectionEnv: string := "ConnectionStrings__RedisConnection"
  const RedisConnectionConfig: string := "ConnectionStrings:RedisConnection"

  /** The `InvalidOperationException` raised for a missing setting; it names
      both places that were consulted. */
  datatype ConfigError = MissingConfiguration(configKey: string, envVariable: string)

  /** `sub` occurs in `s` starting at position `at`. */
  predicate OccursAt(sub: string, s: string, at: nat) {
    at + |sub| <= |s| && s[at..at + |sub|] == sub
  }

  const MessageHead: string := "Configuração obrigatória ausente: '"
  const MessageMiddle: string := "' ou variável de ambiente '"

  /** The exception's message: it names the configuration key first and the
      environment variable second, each between quotes. */
  function Message(e: ConfigError): (m: string)
    ensures OccursAt(e.configKey, m, |MessageHead|)
    ensures OccursAt(e.envVariable, m, |MessageHead| + |e.configKey| + |MessageMiddle|)
    ensures |m| == |MessageHead| + |e.configKey| + |MessageMiddle| + |e.envVariable| + 1
  {
    var m := MessageHead + e.configKey + MessageMiddle + e.envVariable + "'";
    assert m[|MessageHead|..|MessageHead| + |e.configKey|] == e.configKey;
    assert m[|MessageHead| + |e.configKey| + |MessageMiddle|..|MessageHead| + |e.configKey| + |MessageMiddle| + |e.envVariable|]
        == e.envVariable;
    m
  }

  /** `GetRequiredConfiguration`: an environment variable that is set wins,
      even when blank; the configuration is consulted only when it is unset.
      The chosen value is returned verbatim unless it is null or blank. */
  function GetRequiredConfiguration(env: Settings, config: Settings, envVariable: string, configKey: string)
    : (r: Result<string, ConfigError>)
    ensures envVariable in env ==>
      (r.Success? <==> !AllWhiteSpace(env[envVariable])) && (r.Success? ==> r.value == env[envVariable])
    ensures envVariable !in env ==>
      (r.Success? <==> configKey in config && !AllWhiteSpace(config[configKey]))
      && (r.Success? ==> r.value == config[configKey])
    ensures r.Success? ==> r.value != "" && !AllWhiteSpace(r.value)
    ensures r.Failure? ==> r.error == MissingConfiguration(configKey, envVariable)
  {
    var value := match Lookup(env, envVariable)
                 case Some(v) => Some(v)
                 case None => Lookup(config, configKey);
    if IsNullOrWhiteSpace(value) then Failure(MissingConfiguration(configKey, envVariable))
    else Success(value.value)
  }

  /** A set but blank environment variable hides a valid configuration value. */
  lemma BlankEnvironmentHidesConfiguration(env: Settings, config: Settings, envVariable: string, configKey: string)
    requires envVariable in env && AllWhiteSpace(env[envVariable])
    requires configKey in config && !AllWhiteSpace(config[configKey])
    ensures GetRequiredConfiguration(env, config, envVariable, configKey).Failure?
  {
  }

  /** Once the environment variable is set, the configuration does not
      matter. */
  lemma EnvironmentOverridesConfiguration(env: Settings, config: Settings, config': Settings,
                                          envVariable: string, configKey: string)
    requires envVariable in env
    ensures GetRequiredConfiguration(env, config, envVariable, configKey)
         == GetRequiredConfiguration(env, config', envVariable, configKey)
  {
  }

  /** The lookup reads nothing but its own two keys. */
  lemma LookupReadsOnlyItsKeys(env: Settings, config: Settings, env': Settings, config': Settings,
                               envVariable: string, configKey: string)
    requires Lookup(env, envVariable) == Lookup(env', envVariable)
    requires Lookup(config, configKey) == Lookup(config', configKey)
    ensures GetRequiredConfiguration(env, config, envVariable, configKey)
         == GetRequiredConfiguration(env', config', envVariable, configKey)
  {
  }

  /** `GetDatabaseConnectionString`: the required setting under the
      `DefaultConnection` keys. */
  function GetDatabaseConnectionString(env: Settings, config: Settings): (r: Result<string, ConfigError>)
    ensures r.Success? <==> if DefaultConnectionEnv in env then !AllWhiteSpace(env[DefaultConnectionEnv])
                            else DefaultConnectionConfig in config && !AllWhiteSpace(config[DefaultConnectionConfig])
    ensures r.Success? ==> !AllWhiteSpace(r.value)
    ensures r.Success? ==>
      || (DefaultConnectionEnv in env && r.value == env[DefaultConnectionEnv])
      || (DefaultConnectionEnv !in env && DefaultConnectionConfig in config && r.value == config[DefaultConnectionConfig])
    ensures r.Failure? ==> r.error == MissingConfiguration(DefaultConnectionConfig, DefaultConnectionEnv)
  {
    GetRequiredConfiguration(env, config, DefaultConnectionEnv, DefaultConnectionConfig)
  }

  /** `GetRedisConnectionString`: the required setting under the
      `RedisConnection` keys. */
  function GetRedisConnectionString(env: Settings, config: Settings): (r: Result<string, ConfigError>)
    ensures r.Success? <==> if RedisConnectionEnv in env then !AllWhiteSpace(env[RedisConnectionEnv])
                            else RedisConnectionConfig in config && !AllWhiteSpace(config[RedisConnectionConfig])
    ensures r.Success? ==> !AllWhiteSpace(r.value)
    ensures r.Success? ==>
      || (RedisConnectionEnv in env && r.value == env[RedisConnectionEnv])
      || (RedisConnectionEnv !in env && RedisConnectionConfig in config && r.value == config[RedisConnectionConfig])
    ensures r.Failure? ==> r.error == MissingConfiguration(RedisConnectionConfig, RedisConnectionEnv)
  {
    GetRequiredConfiguration(env, config, RedisConnectionEnv, RedisConnectionConfig)
  }

  /** The two connection strings use disjoint keys: setting or removing the
      Redis keys never changes the database connection string, and the other
      way round. */
  lemma ConnectionStringsIndependent(env: Settings, config: Settings, value: string, value': string)
    ensures GetDatabaseConnectionString(env[RedisConnectionEnv := value], config[RedisConnectionConfig := value'])
         == GetDatabaseConnectionString(env, config)
    ensures GetRedisConnectionString(env[DefaultConnectionEnv := value], config[DefaultConnectionConfig := value'])
         == GetRedisConnectionString(env, config)
  {
    assert DefaultConnectionEnv != RedisConnectionEnv by {
      assert DefaultConnectionEnv[19] != RedisConnectionEnv[19];
    }
    assert DefaultConnectionConfig != RedisConnectionConfig by {
      assert DefaultConnectionConfig[18] != RedisConnectionConfig[18];
    }
    LookupReadsOnlyItsKeys(env[RedisConnectionEnv := value], config[RedisConnectionConfig := value'], env, config,
                           DefaultConnectionEnv, DefaultConnectionConfig);
    LookupReadsOnlyItsKeys(env[DefaultConnectionEnv := value], config[DefaultConnectionConfig := value'], env, config,
                           RedisConnectionEnv, RedisConnectionConfig);
  }
}
