/**
 Shared vocabulary of the sentinel client model: optional values, errors,
 opaque identities for pools and strategy functions, and the two foreign
 answers `ensureMaster` depends on (the sentinel's reply and the pool
 factory's result).
 */
module SentinelTypes {

  datatype Option<+T> = None | Some(value: T)

  /** A value or the error that replaced it. */
  datatype Result<+T> = Success(value: T) | Failure(error: Error)

  /** The Go `error` returned by the client: either one produced by a
      collaborator and passed through unchanged, or the client's own
      malformed-reply error. */
  datatype Error = Foreign(message: string) | MalformedMaster {
    function Message(): string {
      match this
      case Foreign(m) => m
      case MalformedMaster => "malformed SENTINEL MASTER response"
    }
  }

  /** The Go `error` result of a call: `nil` or an error value. */
  datatype Outcome = Pass | Fail(error: Error)

  /** A connection pool is opaque: only its identity matters here. */
  type PoolId = nat

  /** Identity of a strategy function (`radix.DialFunc`, `radix.PoolFunc`)
      supplied at construction; the model never calls them. */
  type StrategyId = nat

  /** Identity of a `radix.Action` handed to `Do`. */
  type ActionId = nat

  /** What the `SENTINEL MASTER <name>` round trip produced: the command
      failed, or the reply decoded into a field -> value map. */
  datatype Reply = ReplyError(message: string) | ReplyMap(fields: map<string, string>)

  /** What the pool factory `pfn` returned when (and if) it was asked. */
  datatype Built = BuildError(message: string) | BuildOk(pool: PoolId)

  /** The arguments a call to the pool factory was made with. */
  datatype PoolRequest = PoolRequest(network: string, addr: string)
}
