/** The auth-service configuration: every variable is required except the
    broker list; the two TTLs go through `parseDurationWithDays` as written,
    wrap-around included. */
module AuthServiceConfig {
  import opened Wrappers
  import opened EnvConfig

  datatype Config = Config(port: string, jwt: JwtConfig, db: DbConfig, kafkaBrokers: Option<seq<string>>, kafkaTopic: string)

  /** The required variables, in the order `Load` reads them. */
  const Required: seq<string> := [
    "APP_PORT", "DB_HOST", "DB_PORT", "DB_USER", "DB_PASSWORD", "DB_NAME", "DB_SSLMODE",
    "ACCESS_SECRET", "ACCESS_EXP", "REFRESH_SECRET", "REFRESH_EXP", "KAFKA_TOPIC_EMAIL"]

  /** `Load`: reads the required variables left to right, the first missing
      one panics; the broker list may be absent. */
  function Load(env: Env): (r: Result<Config, Panic>)
    ensures r.Ok? <==> AllPresent(env, Required)
    ensures r.Err? ==> r.error == MissingEnv(FirstMissing(env, Required))
  {
    var v :- GetAll(env, Required);
    Ok(Config(v[0],
              JwtConfig(v[7], ParseDurationWithDaysAsWritten(v[8]), v[9], ParseDurationWithDaysAsWritten(v[10])),
              DbConfig(v[1], v[2], v[3], v[4], v[5], v[6]),
              SplitAndTrimSpec(OptionalEnv(env, "KAFKA_BROKERS")), v[11]))
  }

  /** Each field of a loaded configuration is the variable of its name; the
      TTLs are parsed, and the broker list is optional. */
  lemma LoadFields(env: Env)
    requires Load(env).Ok?
    ensures var c := Load(env).value;
      && c.port == env["APP_PORT"]
      && c.db == DbConfig(env["DB_HOST"], env["DB_PORT"], env["DB_USER"], env["DB_PASSWORD"], env["DB_NAME"], env["DB_SSLMODE"])
      && c.jwt == JwtConfig(env["ACCESS_SECRET"], ParseDurationWithDaysAsWritten(env["ACCESS_EXP"]),
                            env["REFRESH_SECRET"], ParseDurationWithDaysAsWritten(env["REFRESH_EXP"]))
      && c.kafkaTopic == env["KAFKA_TOPIC_EMAIL"]
      && c.kafkaBrokers == SplitAndTrimSpec(OptionalEnv(env, "KAFKA_BROKERS"))
  {
    assert Required[0] == "APP_PORT" && Required[1] == "DB_HOST" && Required[2] == "DB_PORT";
    assert Required[3] == "DB_USER" && Required[4] == "DB_PASSWORD" && Required[5] == "DB_NAME";
    assert Required[6] == "DB_SSLMODE" && Required[7] == "ACCESS_SECRET" && Required[8] == "ACCESS_EXP";
    assert Required[9] == "REFRESH_SECRET" && Required[10] == "REFRESH_EXP" && Required[11] == "KAFKA_TOPIC_EMAIL";
  }

  /** The wrap-around of `parseDurationWithDays` reaches the loaded
      configuration: `ACCESS_EXP=106752d` gives access tokens a negative
      lifetime, so every one of them is expired when it is issued. */
  lemma LongAccessTtlIsNegative(env: Env)
    requires Load(env).Ok? && env["ACCESS_EXP"] == "106752d"
    ensures Load(env).value.jwt.accessExp < 0
  {
    LoadFields(env);
    DaysWrapAround();
  }
}
