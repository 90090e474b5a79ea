/** The link-service configuration: every variable is required except the
    broker list. */
module LinkConfig {
  import opened Wrappers
  import opened EnvConfig

  datatype Config = Config(port: string, db: DbConfig, domain: string, authAddr: string,
                           kafkaBrokers: Option<seq<string>>, kafkaTopic: string)

  /** The required variables, in the order `Load` reads them. */
  const Required: seq<string> := [
    "APP_PORT", "DB_HOST", "DB_PORT", "DB_USER", "DB_PASSWORD", "DB_NAME", "DB_SSLMODE",
    "KAFKA_TOPIC_EMAIL", "DOMAIN", "AUTH_SERVICE_ADDR"]

  /** `Load`: reads the required variables left to right, the first missing
      one panics; the broker list may be absent. */
  function Load(env: Env): (r: Result<Config, Panic>)
    ensures r.Ok? <==> AllPresent(env, Required)
    ensures r.Err? ==> r.error == MissingEnv(FirstMissing(env, Required))
  {
    var v :- GetAll(env, Required);
    Ok(Config(v[0], DbConfig(v[1], v[2], v[3], v[4], v[5], v[6]), v[8], v[9],
              SplitAndTrimSpec(OptionalEnv(env, "KAFKA_BROKERS")), v[7]))
  }

  /** Each field of a loaded configuration is the variable of its name; the
      broker list is optional. */
  lemma LoadFields(env: Env)
    requires Load(env).Ok?
    ensures var c := Load(env).value;
      && c.port == env["APP_PORT"]
      && c.db == DbConfig(env["DB_HOST"], env["DB_PORT"], env["DB_USER"], env["DB_PASSWORD"], env["DB_NAME"], env["DB_SSLMODE"])
      && c.domain == env["DOMAIN"] && c.authAddr == env["AUTH_SERVICE_ADDR"]
      && c.kafkaTopic == env["KAFKA_TOPIC_EMAIL"]
      && c.kafkaBrokers == SplitAndTrimSpec(OptionalEnv(env, "KAFKA_BROKERS"))
  {
    assert Required[0] == "APP_PORT" && Required[1] == "DB_HOST" && Required[2] == "DB_PORT";
    assert Required[3] == "DB_USER" && Required[4] == "DB_PASSWORD" && Required[5] == "DB_NAME";
    assert Required[6] == "DB_SSLMODE" && Required[7] == "KAFKA_TOPIC_EMAIL";
    assert Required[8] == "DOMAIN" && Required[9] == "AUTH_SERVICE_ADDR";
  }
}
