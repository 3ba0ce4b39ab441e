# Sentinel client failover step, in Dafny

A model of the failover core of the `sentinel2` package of radix.v2, a Go
client for Redis. The client holds one connection pool for the current
master of a Redis Sentinel group and exposes `Do`, `Get` and `Close`. These
calls go straight to that pool. The package's `ensureMaster` method asks a
sentinel `SENTINEL MASTER <name>`. When the reported master address differs
from the stored one, it builds a pool for the new address, closes the old
pool and installs the new one.

Each call is one atomic transition on an immutable `Client` record:

- `p` is the current pool. It is an opaque id, and `None` stands for Go's nil.
- `pAddr`, `addrs`, `name`, `dfn` and `pfn` are the remaining fields of `sentinelClient`.
- `closed` is a log of every pool the client has closed.

The model does not run the sentinel round trip or the pool factory. Both
are inputs to `EnsureMaster`:

- the reply is a command error or a field -> value map;
- the factory result is an error or a fresh pool id.

The `Step` it returns records the factory request that was made, if any. So
"the factory was not called" can be stated.

Files:

- `types.dfy` (`SentinelTypes`): options, results, errors, opaque ids, the two foreign inputs.
- `master_reply.dfy` (`MasterReply`): reading the reply with Go map semantics.
  - A missing key reads as `""`.
  - The fields compose into `ip:port`.
  - A last-colon split serves as the partner definition that recovers `ip` and `port`.
- `client.dfy` (`SentinelClient`): the client state, `EnsureMaster`, `Do`, `Get` and `Close`.
  - One lemma per branch of `ensureMaster`.
  - Lemmas that relate the delegating calls to a swap.
- `failover.dfy` (`Failover`): runs of repeated `ensureMaster` calls.

Behaviour modelled as written, where it differs from its comments:

- `pAddr` is never assigned. The comment at sentinel2/sentinel.go:54-55 says a
  swap also updates `pAddr`, but the swap at lines 109-114 sets only `p`.
  So `EnsureMaster` leaves `pAddr` as it was. A reply that keeps naming a
  master other than `pAddr` rebuilds and swaps the pool on every call
  (`SecondCallSwapsAgain`, `EveryDifferingReplyRebuilds`).
- Had `pAddr` been swapped as the comment at sentinel2/sentinel.go:54-55
  says, an identical second report of the same new master would be a
  no-op. The code never writes `pAddr`, so it swaps again
  (`RepeatedReportScenario`).
- Line 99 joins `ip` and `port` with a colon and does not bracket an IPv6
  `ip`. A reply with `ip` `::1` and port `6379` composes into `::1:6379`,
  which a Go dialer rejects with "too many colons in address";
  `net.JoinHostPort` would give `[::1]:6379` (`UnbracketedIpv6Address`).
  The model composes the address as written.
- No address book is kept: `addrs` is never read or written by these calls.
- The old pool is closed inside the locked region at lines 109-114, not
  after the lock is released. Without concurrency this is the same
  transition.
- `Close` closes the current pool but leaves it installed. `Do` then still
  reaches the closed pool, and a later swap closes it a second time
  (`CloseLeavesClosedPoolInstalled`, `CloseThenSwapClosesTwice`).
- With a nil pool, `Do`, `Get` and `Close` would call a method on a nil Go
  interface, which panics. The model returns `NilPool` for this case.

## Model

| member | source | states |
|---|---|---|
| MasterReply.Field | sentinel2/sentinel.go:96 | a key present in the reply reads as its value; a missing key reads as the empty string |
| MasterReply.MasterAddr | sentinel2/sentinel.go:96-99 | fails with the malformed-reply error exactly when `ip` or `port` reads as empty; otherwise the address is `ip`, one colon, then `port` |
| MasterReply.JoinSplit | sentinel2/sentinel.go:99 | joining a host and a colon-free port with `:` and splitting at the last colon gives back both parts, even when the host holds colons |
| MasterReply.UnbracketedIpv6Address | sentinel2/sentinel.go:99 | an IPv6 `ip` is joined to the port without brackets: `::1` and `6379` compose into `::1:6379` |
| MasterReply.MasterAddrRoundTrip | sentinel2/sentinel.go:96-99 | for a well-formed reply whose port has no colon, the composed address splits back into exactly the reply's `ip` and `port` |
| SentinelClient.Resolve | sentinel2/sentinel.go:92-98 | a failed round trip yields that command's error unchanged; a decoded reply yields what `MasterAddr` makes of it |
| SentinelClient.EnsureMaster | sentinel2/sentinel.go:87-117 | never changes `pAddr`, `addrs`, `name`, `dfn` or `pfn`; a failing call leaves the whole state unchanged; the factory is asked, with `tcp` and the resolved address, exactly when the resolved address differs from `pAddr`; `p` changes only to a pool the factory built; the closed log is unchanged or gains exactly the old pool |
| SentinelClient.Do | sentinel2/sentinel.go:66-70 | the action goes to the current pool; there is nowhere to send it exactly when the pool is nil; the state is not changed |
| SentinelClient.Get | sentinel2/sentinel.go:79-83 | the request goes to the current pool; there is nowhere to send it exactly when the pool is nil; the state is not changed |
| SentinelClient.Close | sentinel2/sentinel.go:72-77 | closes the current pool and logs it, but keeps it installed and changes no other field; with a nil pool nothing changes |
| SentinelClient.CommandErrorLeavesStateUnchanged | sentinel2/sentinel.go:93-95 | a failed `SENTINEL MASTER` round trip returns its error; the state is unchanged and the factory is not asked |
| SentinelClient.MalformedReplyLeavesStateUnchanged | sentinel2/sentinel.go:96-97 | a reply with `ip` or `port` missing or empty returns the malformed-reply error, whose message is `malformed SENTINEL MASTER response`; the state is unchanged and the factory is not asked |
| SentinelClient.UnchangedAddressIsNoOp | sentinel2/sentinel.go:99-102 | when `ip:port` equals the stored address the call succeeds; the factory is not asked and nothing changes |
| SentinelClient.FactoryErrorKeepsPool | sentinel2/sentinel.go:104-107 | when the factory, asked with `tcp` and the new address, fails, its error is returned; the current pool stays installed and is not closed |
| SentinelClient.SwapClosesOnlyOldPool | sentinel2/sentinel.go:109-114 | a successful swap installs the new pool; the old pool is closed once if it is non-nil, nothing is closed if it is nil, and `pAddr` keeps its value |
| SentinelClient.ResultFailsIff | sentinel2/sentinel.go:93-107 | the call returns an error exactly when the round trip fails, the reply is malformed, or the factory fails for a differing address |
| SentinelClient.StateChangesIffSwap | sentinel2/sentinel.go:100-114 | the state changes exactly when a differing address was resolved and the factory produced a pool |
| SentinelClient.SecondCallSwapsAgain | sentinel2/sentinel.go:88-114 | repeating a call with the same differing reply asks the factory again for the same address and swaps again, closing the pool the first call installed |
| SentinelClient.RepeatedReportScenario | sentinel2/sentinel.go:99-114 | a client whose `pAddr` is empty, told twice that the master is `10.0.0.5:6379`, asks the factory for `tcp` and that address both times, closes its first two pools in order and keeps `pAddr` empty |
| SentinelClient.EnsureMasterKeepsCurrentOpen | sentinel2/sentinel.go:109-114 | if the factory hands out a pool the client never closed, the installed pool is still one the client has not closed after the call |
| SentinelClient.CallsAfterSwapReachNewPool | sentinel2/sentinel.go:66-114 | after a successful swap, `Do` and `Get` reach the newly built pool |
| SentinelClient.FailedEnsureMasterKeepsServing | sentinel2/sentinel.go:93-107 | after any failing call, `Do` and `Get` reach the same pool as before it |
| SentinelClient.CloseLeavesClosedPoolInstalled | sentinel2/sentinel.go:66-77 | after `Close`, the installed pool is one the client has closed, and `Do` still reaches it |
| SentinelClient.CloseThenSwapClosesTwice | sentinel2/sentinel.go:72-114 | `Close` followed by a swap closes the same pool twice |
| Failover.Run | sentinel2/sentinel.go:87-117 | a run of calls never changes `pAddr`, `addrs`, `name`, `dfn` or `pfn`; the closed log only grows, by at most one pool per call; each factory request is for `tcp` |
| Failover.EveryDifferingReplyRebuilds | sentinel2/sentinel.go:88-104 | when every reply names a master other than `pAddr`, each call asks the factory, for the address that call resolved, however often that master was reported before |
| Failover.SwapChainInstallsLast | sentinel2/sentinel.go:104-114 | when every reply names another master and every build succeeds, the pool built by the last call is the one installed |
| Failover.SwapChainClosesPrevious | sentinel2/sentinel.go:109-113 | when every reply names another master and every build succeeds, the closed log gains the initial pool (if non-nil) and then every built pool but the last, in order: each pool is closed when the next call supersedes it |

## Left out

- Locking (`sync.RWMutex`) and reader/writer interleaving: each call is one atomic transition. The lock decides only the order of these transitions.
- The `SENTINEL MASTER` round trip's wire encoding and decoding: its only modelled output is the error-or-map input.
- The pool implementation behind `radix.Pool`: pools are opaque ids. The results of `Do`, `Get` and `Close` on a pool are the pool's own business, so the model records only which pool receives which call.
- The dial and pool strategy functions `dfn` and `pfn`: they are opaque ids and never called. The factory's answer is an input.
- A factory that returns a nil pool with a nil error: pools built by the factory are always non-nil ids.
- `sentinelAddrs` (sentinel2/sentinel.go:121-153): its body is only a comment showing a sample reply, with no parsing and no result, so it has no behaviour to model.
- Construction and the master registry (`NewClient`, `GetMaster`, `PutMaster`): these appear only in the doc comment at sentinel2/sentinel.go:7-39, not in the code.
- sentinel.go has no address-book logic, no watchdog loop and no dial timeout, so none is modelled.
- pubsub/sub_test.go: integration tests that need a live Redis server, real timeouts and goroutines.
