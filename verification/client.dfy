/**
 The sentinel client's state and its operations: the `ensureMaster`
 failover step and the delegating `Do`, `Get` and `Close`. Each call is one
 atomic transition on an immutable state record; the client's lock only
 orders these transitions and is not modelled.
 */
module SentinelClient {
  import opened SentinelTypes
  import opened MasterReply

  /** The client's fields. `closed` is a log of every `Close` call made on
      a pool by this client, oldest first. */
  datatype Client = Client(
    p: Option<PoolId>,     // the current pool; None is Go's nil
    pAddr: string,         // the address the current pool is believed to serve
    addrs: seq<string>,    // the known sentinel addresses
    name: string,          // the monitored master's name
    dfn: StrategyId,       // dials sentinel instances
    pfn: StrategyId,       // builds a pool for an address
    closed: seq<PoolId>)

  /** Everything but the pool and the closed log is the same. */
  predicate SameConfig(c: Client, c': Client) {
    && c'.pAddr == c.pAddr
    && c'.addrs == c.addrs
    && c'.name == c.name
    && c'.dfn == c.dfn
    && c'.pfn == c.pfn
  }

  /** The current pool has not been closed by this client. */
  predicate CurrentOpen(c: Client) {
    c.p.Some? ==> c.p.value !in c.closed
  }

  /** What one `ensureMaster` call did: the state after it, the error it
      returned, and the call it made to the pool factory, if any. */
  datatype Step = Step(client: Client, result: Outcome, request: Option<PoolRequest>)

  /** The network every pool is built for. */
  const PoolNetwork := "tcp"

  /** The address the sentinel reports, as `ensureMaster` reads it. */
  function Resolve(reply: Reply): (r: Result<string>)
    ensures reply.ReplyError? ==> r == Failure(Foreign(reply.message))
    ensures reply.ReplyMap? ==> r == MasterAddr(reply.fields)
  {
    match reply
    case ReplyError(msg) => Failure(Foreign(msg))
    case ReplyMap(m) => MasterAddr(m)
  }

  /** `ensureMaster`: re-resolves the master through the sentinel's reply
      and, when its address differs from the stored one, asks the factory
      for a new pool, closes the old pool and installs the new one. */
  function EnsureMaster(c: Client, reply: Reply, built: Built): (r: Step)
    ensures SameConfig(c, r.client)
    ensures r.result.Fail? ==> r.client == c
    ensures r.request.Some? <==> Resolve(reply).Success? && Resolve(reply).value != c.pAddr
    ensures r.request.Some? ==> r.request.value == PoolRequest(PoolNetwork, Resolve(reply).value)
    ensures r.client.p != c.p ==> r.request.Some? && built.BuildOk? && r.client.p == Some(built.pool)
    ensures r.client.closed == c.closed || (c.p.Some? && r.client.closed == c.closed + [c.p.value])
  {
    var lastAddr := c.pAddr;
    match Resolve(reply)
    case Failure(e) => Step(c, Fail(e), None)
    case Success(newAddr) =>
      if newAddr == lastAddr then
        Step(c, Pass, None)
      else
        var request := PoolRequest(PoolNetwork, newAddr);
        match built
        case BuildError(msg) => Step(c, Fail(Foreign(msg)), Some(request))
        case BuildOk(newPool) =>
          var closed := if c.p.Some? then c.closed + [c.p.value] else c.closed;
          Step(c.(p := Some(newPool), closed := closed), Pass, Some(request))
  }

  /** A call a pool receives from the client. */
  datatype PoolCall = PoolDo(action: ActionId) | PoolGet | PoolClose

  /** Where a delegating call went: to the current pool, or nowhere because
      the pool is nil (a nil-interface call, which panics in Go). */
  datatype Dispatch = Dispatched(pool: PoolId, call: PoolCall) | NilPool

  /** `Do`: runs the action on the current pool. */
  function Do(c: Client, a: ActionId): (r: Dispatch)
    ensures r.NilPool? <==> c.p.None?
    ensures r.Dispatched? ==> r == Dispatched(c.p.value, PoolDo(a))
  {
    if c.p.Some? then Dispatched(c.p.value, PoolDo(a)) else NilPool
  }

  /** `Get`: takes a connection from the current pool. */
  function Get(c: Client): (r: Dispatch)
    ensures r.NilPool? <==> c.p.None?
    ensures r.Dispatched? ==> r == Dispatched(c.p.value, PoolGet)
  {
    if c.p.Some? then Dispatched(c.p.value, PoolGet) else NilPool
  }

  /** The state after a delegating call and where the call went. */
  datatype Delegated = Delegated(client: Client, dispatch: Dispatch)

  /** `Close`: closes the current pool but leaves it installed. */
  function Close(c: Client): (r: Delegated)
    ensures r.dispatch.NilPool? <==> c.p.None?
    ensures r.dispatch.Dispatched? ==> r.dispatch == Dispatched(c.p.value, PoolClose)
    ensures r.client.p == c.p && SameConfig(c, r.client)
    ensures c.p.Some? ==> r.client.closed == c.closed + [c.p.value]
    ensures c.p.None? ==> r.client == c
  {
    if c.p.Some? then
      Delegated(c.(closed := c.closed + [c.p.value]), Dispatched(c.p.value, PoolClose))
    else
      Delegated(c, NilPool)
  }

  // ---------------------------------------------------------------------
  // ensureMaster, branch by branch

  /** A failed `SENTINEL MASTER` round trip is returned as is; no pool is
      built and none is closed. */
  lemma CommandErrorLeavesStateUnchanged(c: Client, msg: string, built: Built)
    ensures EnsureMaster(c, ReplyError(msg), built) == Step(c, Fail(Foreign(msg)), None)
  {
  }

  /** A reply whose `ip` or `port` is missing or empty fails with the
      malformed-reply error; no pool is built and none is closed. */
  lemma MalformedReplyLeavesStateUnchanged(c: Client, m: map<string, string>, built: Built)
    requires Field(m, "ip") == "" || Field(m, "port") == ""
    ensures EnsureMaster(c, ReplyMap(m), built) == Step(c, Fail(MalformedMaster), None)
    ensures EnsureMaster(c, ReplyMap(m), built).result.error.Message() == "malformed SENTINEL MASTER response"
  {
  }

  /** When the reported address equals the stored one the call succeeds,
      the factory is not asked, and nothing changes. */
  lemma UnchangedAddressIsNoOp(c: Client, m: map<string, string>, built: Built)
    requires WellFormed(m)
    requires Field(m, "ip") + ":" + Field(m, "port") == c.pAddr
    ensures EnsureMaster(c, ReplyMap(m), built) == Step(c, Pass, None)
  {
  }

  /** When the factory fails for a new address its error is returned and
      the current pool stays installed and open. */
  lemma FactoryErrorKeepsPool(c: Client, m: map<string, string>, msg: string)
    requires WellFormed(m)
    requires Field(m, "ip") + ":" + Field(m, "port") != c.pAddr
    ensures var r := EnsureMaster(c, ReplyMap(m), BuildError(msg));
            && r.client == c
            && r.result == Fail(Foreign(msg))
            && r.request == Some(PoolRequest("tcp", Field(m, "ip") + ":" + Field(m, "port")))
  {
  }

  /** A successful swap installs the new pool, closes the old pool once if
      there was one and nothing otherwise, and leaves `pAddr` as it was. */
  lemma SwapClosesOnlyOldPool(c: Client, m: map<string, string>, newPool: PoolId)
    requires WellFormed(m)
    requires Field(m, "ip") + ":" + Field(m, "port") != c.pAddr
    ensures var r := EnsureMaster(c, ReplyMap(m), BuildOk(newPool));
            && r.result == Pass
            && r.request == Some(PoolRequest("tcp", Field(m, "ip") + ":" + Field(m, "port")))
            && r.client.p == Some(newPool)
            && r.client.pAddr == c.pAddr
            && SameConfig(c, r.client)
            && (c.p.Some? ==> r.client.closed == c.closed + [c.p.value])
            && (c.p.None? ==> r.client.closed == c.closed)
  {
  }

  /** The call fails exactly when the round trip fails, the reply is
      malformed, or the factory fails for a new address. */
  lemma ResultFailsIff(c: Client, reply: Reply, built: Built)
    ensures EnsureMaster(c, reply, built).result.Fail? <==>
              || reply.ReplyError?
              || !WellFormed(reply.fields)
              || (MasterAddr(reply.fields).value != c.pAddr && built.BuildError?)
  {
  }

  /** The state changes exactly when a differing address was resolved and
      the factory produced a pool. */
  lemma StateChangesIffSwap(c: Client, reply: Reply, built: Built)
    ensures EnsureMaster(c, reply, built).client != c <==>
              && Resolve(reply).Success?
              && Resolve(reply).value != c.pAddr
              && built.BuildOk?
  {
  }

  /** `pAddr` is never written, so repeating a call whose reply differs
      from it builds and swaps again, closing the pool the first call
      installed. */
  lemma SecondCallSwapsAgain(c: Client, m: map<string, string>, pool1: PoolId, pool2: PoolId)
    requires WellFormed(m)
    requires Field(m, "ip") + ":" + Field(m, "port") != c.pAddr
    ensures var r1 := EnsureMaster(c, ReplyMap(m), BuildOk(pool1));
            var r2 := EnsureMaster(r1.client, ReplyMap(m), BuildOk(pool2));
            && r2.request == r1.request
            && r2.request.Some?
            && r2.client.p == Some(pool2)
            && r2.client.closed == r1.client.closed + [pool1]
  {
  }

  /** A concrete failover: a client for group "bucket0" whose `pAddr` has
      its Go zero value hears twice that the master is 10.0.0.5:6379. Both
      calls ask the factory for that address and swap, and `pAddr` stays
      empty. */
  lemma RepeatedReportScenario(pool0: PoolId, pool1: PoolId, pool2: PoolId)
    ensures var c := Client(Some(pool0), "", [], "bucket0", 0, 0, []);
            var m := map["ip" := "10.0.0.5", "port" := "6379"];
            var r1 := EnsureMaster(c, ReplyMap(m), BuildOk(pool1));
            var r2 := EnsureMaster(r1.client, ReplyMap(m), BuildOk(pool2));
            && r1.request == Some(PoolRequest("tcp", "10.0.0.5:6379"))
            && r2.request == r1.request
            && r2.client.p == Some(pool2)
            && r2.client.closed == [pool0, pool1]
            && r2.client.pAddr == ""
  {
    var m := map["ip" := "10.0.0.5", "port" := "6379"];
    assert Field(m, "ip") == "10.0.0.5" && Field(m, "port") == "6379";
    assert Field(m, "ip") + ":" + Field(m, "port") == "10.0.0.5:6379";
    assert |"10.0.0.5:6379"| > 0;
  }

  /** A swap keeps the current pool open provided the factory hands out a
      pool this client has never closed. */
  lemma EnsureMasterKeepsCurrentOpen(c: Client, reply: Reply, built: Built)
    requires CurrentOpen(c)
    requires built.BuildOk? ==> built.pool !in c.closed && Some(built.pool) != c.p
    ensures CurrentOpen(EnsureMaster(c, reply, built).client)
  {
  }

  // ---------------------------------------------------------------------
  // Do, Get and Close against ensureMaster

  /** After a swap, application calls reach the new pool. */
  lemma CallsAfterSwapReachNewPool(c: Client, m: map<string, string>, newPool: PoolId, a: ActionId)
    requires WellFormed(m)
    requires Field(m, "ip") + ":" + Field(m, "port") != c.pAddr
    ensures var c' := EnsureMaster(c, ReplyMap(m), BuildOk(newPool)).client;
            && Do(c', a) == Dispatched(newPool, PoolDo(a))
            && Get(c') == Dispatched(newPool, PoolGet)
  {
  }

  /** A failed call of any kind leaves application calls on the pool they
      reached before. */
  lemma FailedEnsureMasterKeepsServing(c: Client, reply: Reply, built: Built, a: ActionId)
    requires EnsureMaster(c, reply, built).result.Fail?
    ensures var c' := EnsureMaster(c, reply, built).client;
            Do(c', a) == Do(c, a) && Get(c') == Get(c)
  {
  }

  /** `Close` closes the current pool without uninstalling it: afterwards
      `Do` still reaches that closed pool. */
  lemma CloseLeavesClosedPoolInstalled(c: Client, a: ActionId)
    requires c.p.Some?
    ensures var c' := Close(c).client;
            && !CurrentOpen(c')
            && Do(c', a) == Dispatched(c.p.value, PoolDo(a))
  {
  }

  /** Because `Close` leaves the pool installed, a later swap closes the
      same pool a second time. */
  lemma CloseThenSwapClosesTwice(c: Client, m: map<string, string>, newPool: PoolId)
    requires c.p.Some?
    requires WellFormed(m)
    requires Field(m, "ip") + ":" + Field(m, "port") != c.pAddr
    ensures var c' := EnsureMaster(Close(c).client, ReplyMap(m), BuildOk(newPool)).client;
            multiset(c'.closed)[c.p.value] == multiset(c.closed)[c.p.value] + 2
  {
  }
}
