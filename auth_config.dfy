/** The configuration of the older auth service: the database settings and
    the JWT secrets and TTLs, all required. */
module AuthConfig {
  import opened Wrappers
  import opened EnvConfig

  datatype Config = Config(jwt: JwtConfig, db: DbConfig)

  /** The required variables, in the order `Load` reads them. */
  const Required: seq<string> := [
    "DB_HOST", "DB_PORT", "DB_USER", "DB_PASSWORD", "DB_NAME", "DB_SSLMODE",
    "ACCESS_SECRET", "ACCESS_EXP", "REFRESH_SECRET", "REFRESH_EXP"]

  /** `Load`: reads the variables left to right, the first missing one panics. */
  function Load(env: Env): (r: Result<Config, Panic>)
    ensures r.Ok? <==> AllPresent(env, Required)
    ensures r.Err? ==> r.error == MissingEnv(FirstMissing(env, Required))
  {
    var v :- GetAll(env, Required);
    Ok(Config(JwtConfig(v[6], ParseDurationWithDaysAsWritten(v[7]), v[8], ParseDurationWithDaysAsWritten(v[9])),
              DbConfig(v[0], v[1], v[2], v[3], v[4], v[5])))
  }

  /** Each field of a loaded configuration is the variable of its name, the TTLs parsed. */
  lemma LoadFields(env: Env)
    requires Load(env).Ok?
    ensures var c := Load(env).value;
      && c.db == DbConfig(env["DB_HOST"], env["DB_PORT"], env["DB_USER"], env["DB_PASSWORD"], env["DB_NAME"], env["DB_SSLMODE"])
      && c.jwt == JwtConfig(env["ACCESS_SECRET"], ParseDurationWithDaysAsWritten(env["ACCESS_EXP"]),
                            env["REFRESH_SECRET"], ParseDurationWithDaysAsWritten(env["REFRESH_EXP"]))
  {
    assert Required[0] == "DB_HOST" && Required[1] == "DB_PORT" && Required[2] == "DB_USER";
    assert Required[3] == "DB_PASSWORD" && Required[4] == "DB_NAME" && Required[5] == "DB_SSLMODE";
    assert Required[6] == "ACCESS_SECRET" && Required[7] == "ACCESS_EXP";
    assert Required[8] == "REFRESH_SECRET" && Required[9] == "REFRESH_EXP";
  }

  /** The wrap-around of `parseDurationWithDays` reaches the loaded
      configuration: `ACCESS_EXP=106752d` gives access tokens a negative
      lifetime, so every one of them is expired when it is issued. */
  lemma LongAccessTtlIsNegative(env: Env)
    requires Load(env).Ok? && env["ACCESS_EXP"] == "106752d"
    ensures Load(env).value.jwt.accessExp < 0
  {
    LoadFields(env);
    DaysWrapAround();
  }
}
