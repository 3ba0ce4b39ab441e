/**
 Repeated `ensureMaster` calls: what a sequence of sentinel replies and
 factory results does to the client, and what it never touches.
 */
module Failover {
  import opened SentinelTypes
  import opened MasterReply
  import opened SentinelClient

  /** One `ensureMaster` call's inputs. */
  datatype Event = Event(reply: Reply, built: Built)

  /** The state after a run of calls and the factory requests they made,
      in order. */
  datatype Trace = Trace(client: Client, requests: seq<PoolRequest>)

  /** Applies `ensureMaster` to each event in turn. */
  function Run(c: Client, evs: seq<Event>): (t: Trace)
    ensures SameConfig(c, t.client)
    ensures |c.closed| <= |t.client.closed| <= |c.closed| + |evs|
    ensures t.client.closed[..|c.closed|] == c.closed
    ensures |t.requests| <= |evs|
    ensures forall i :: 0 <= i < |t.requests| ==> t.requests[i].network == PoolNetwork
    decreases |evs|
  {
    if |evs| == 0 then
      Trace(c, [])
    else
      var s := EnsureMaster(c, evs[0].reply, evs[0].built);
      var rest := Run(s.client, evs[1..]);
      var mine := if s.request.Some? then [s.request.value] else [];
      assert rest.client.closed[..|c.closed|] == c.closed by {
        assert s.client.closed[..|c.closed|] == c.closed;
        assert rest.client.closed[..|s.client.closed|] == s.client.closed;
      }
      Trace(rest.client, mine + rest.requests)
  }

  /** Since `pAddr` is never written, every call whose reply names a master
      other than the stored address asks the factory again, for that
      address, however often the same master has been reported before. */
  lemma {:induction false} EveryDifferingReplyRebuilds(c: Client, evs: seq<Event>)
    requires forall i :: 0 <= i < |evs| ==>
               Resolve(evs[i].reply).Success? && Resolve(evs[i].reply).value != c.pAddr
    ensures |Run(c, evs).requests| == |evs|
    ensures forall i :: 0 <= i < |evs| ==>
              Run(c, evs).requests[i] == PoolRequest(PoolNetwork, Resolve(evs[i].reply).value)
    decreases |evs|
  {
    if |evs| > 0 {
      var s := EnsureMaster(c, evs[0].reply, evs[0].built);
      assert s.client.pAddr == c.pAddr;
      assert forall i :: 0 <= i < |evs[1..]| ==> evs[1..][i] == evs[i + 1];
      EveryDifferingReplyRebuilds(s.client, evs[1..]);
    }
  }

  /** The pool a swap retires: the current one, if any. A proof helper
      that keeps `SwapChainClosesPrevious` cheap. */
  function Retired(p: Option<PoolId>): (ps: seq<PoolId>)
    ensures p.None? <==> ps == []
    ensures p.Some? ==> ps == [p.value]
  {
    if p.Some? then [p.value] else []
  }

  /** One call with a differing address and a successful build. */
  lemma SwapStep(c: Client, e: Event)
    requires Resolve(e.reply).Success? && Resolve(e.reply).value != c.pAddr
    requires e.built.BuildOk?
    ensures EnsureMaster(c, e.reply, e.built).client ==
              c.(p := Some(e.built.pool), closed := c.closed + Retired(c.p))
  {
  }

  /** A non-empty run is its first call followed by the rest. */
  lemma RunUnfold(c: Client, evs: seq<Event>)
    requires |evs| > 0
    ensures Run(c, evs).client == Run(EnsureMaster(c, evs[0].reply, evs[0].built).client, evs[1..]).client
  {
  }

  /** Every reply names a master other than `addr`, and every build
      succeeds. */
  predicate AllSwap(evs: seq<Event>, addr: string) {
    forall i :: 0 <= i < |evs| ==>
      && Resolve(evs[i].reply).Success?
      && Resolve(evs[i].reply).value != addr
      && evs[i].built.BuildOk?
  }

  /** The pools a run of successful builds produced, in order, except the
      last: the ones a later call of the run supersedes. */
  function Superseded(evs: seq<Event>): (ps: seq<PoolId>)
    requires forall i :: 0 <= i < |evs| ==> evs[i].built.BuildOk?
    ensures |evs| > 0 ==> |ps| == |evs| - 1
    ensures forall i :: 0 <= i < |ps| ==> i + 1 < |evs| && ps[i] == evs[i].built.pool
  {
    if |evs| <= 1 then [] else [evs[0].built.pool] + Superseded(evs[1..])
  }

  /** When every reply names another master and every build succeeds, the
      last built pool ends up installed. */
  lemma {:induction false} SwapChainInstallsLast(c: Client, evs: seq<Event>)
    requires |evs| > 0
    requires AllSwap(evs, c.pAddr)
    ensures Run(c, evs).client.p == Some(evs[|evs| - 1].built.pool)
    decreases |evs|
  {
    SwapStep(c, evs[0]);
    RunUnfold(c, evs);
    if |evs| > 1 {
      var c1 := EnsureMaster(c, evs[0].reply, evs[0].built).client;
      var tail := evs[1..];
      assert forall i :: 0 <= i < |tail| ==> tail[i] == evs[i + 1];
      SwapChainInstallsLast(c1, tail);
    }
  }

  /** When every reply names another master and every build succeeds,
      every pool that was current before a call is closed, in order: the
      initial one (if any) and each built pool but the last. */
  lemma {:induction false} SwapChainClosesPrevious(c: Client, evs: seq<Event>)
    requires |evs| > 0
    requires AllSwap(evs, c.pAddr)
    ensures Run(c, evs).client.closed == c.closed + Retired(c.p) + Superseded(evs)
    decreases |evs|
  {
    SwapStep(c, evs[0]);
    RunUnfold(c, evs);
    var tail := evs[1..];
    if |tail| > 0 {
      var c1 := EnsureMaster(c, evs[0].reply, evs[0].built).client;
      assert forall i :: 0 <= i < |tail| ==> tail[i] == evs[i + 1];
      SwapChainClosesPrevious(c1, tail);
      var pre, b0, rest := c.closed + Retired(c.p), evs[0].built.pool, Superseded(tail);
      assert Superseded(evs) == [b0] + rest;
      ConcatAssoc(pre, [b0], rest);
    }
  }

  /** Sequence concatenation is associative. A proof helper that keeps
      `SwapChainClosesPrevious` cheap. */
  lemma ConcatAssoc<T>(a: seq<T>, b: seq<T>, c: seq<T>)
    ensures a + b + c == a + (b + c)
  {
  }
}
