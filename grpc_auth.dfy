/** What the gRPC interceptors see of a call and what they decide. */
module GrpcAuth {
  import opened Wrappers
  import opened Uuid
  import opened GoStrings

  /** Incoming metadata: lower-case keys to their values, as `metadata.MD`. */
  type Metadata = map<string, seq<string>>

  /** The interceptor's verdict: the handler runs, with `user_id` placed in
      the context or with the context as it came, or the call fails with
      `codes.Unauthenticated` and a message. */
  datatype Outcome = Handled(userId: Option<Uuid>) | Unauthenticated(message: string)

  const BearerPrefix: string := "Bearer "

  /** `md.Get("authorization")`: no values when the key is absent. */
  function AuthHeaders(md: Metadata): seq<string> {
    if "authorization" in md then md["authorization"] else []
  }

  /** A method table `map[string]bool`; an absent method reads as false. */
  predicate Listed(table: map<string, bool>, fullMethod: string) {
    fullMethod in table && table[fullMethod]
  }

  /** The token a Bearer header carries. */
  function BearerToken(header: string): (t: string)
    requires HasPrefix(header, BearerPrefix)
    ensures header == BearerPrefix + t
  {
    TrimPrefix(header, BearerPrefix)
  }
}
