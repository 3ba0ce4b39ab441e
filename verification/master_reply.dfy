/**
 Interpretation of the `SENTINEL MASTER <name>` reply: the two required
 fields are read with Go map semantics and composed into the master's
 `ip:port` address.
 */
module MasterReply {
  import opened SentinelTypes

  /** Go map indexing: a missing key reads as the zero value `""`. */
  function Field(m: map<string, string>, key: string): (v: string)
    ensures key in m ==> v == m[key]
    ensures key !in m ==> v == ""
  {
    if key in m then m[key] else ""
  }

  /** The reply is usable when both `ip` and `port` read as non-empty. */
  predicate WellFormed(m: map<string, string>) {
    Field(m, "ip") != "" && Field(m, "port") != ""
  }

  /** The master address a reply names, or the malformed-reply error. */
  function MasterAddr(m: map<string, string>): (r: Result<string>)
    ensures r.Failure? <==> !WellFormed(m)
    ensures r.Failure? ==> r.error == MalformedMaster
    ensures r.Success? ==>
              var ip, port := Field(m, "ip"), Field(m, "port");
              && |r.value| == |ip| + 1 + |port|
              && r.value[..|ip|] == ip
              && r.value[|ip|] == ':'
              && r.value[|ip| + 1..] == port
  {
    if Field(m, "ip") == "" || Field(m, "port") == "" then
      Failure(MalformedMaster)
    else
      Success(Field(m, "ip") + ":" + Field(m, "port"))
  }

  /** Position of the last occurrence of `c` in `s`, if any. */
  function LastIndexOf(s: string, c: char): (r: Option<nat>)
    ensures r.Some? ==> r.value < |s| && s[r.value] == c
    ensures r.Some? ==> forall j :: r.value < j < |s| ==> s[j] != c
    ensures r.None? ==> forall j :: 0 <= j < |s| ==> s[j] != c
    decreases |s|
  {
    if |s| == 0 then None
    else if s[|s| - 1] == c then Some(|s| - 1)
    else LastIndexOf(s[..|s| - 1], c)
  }

  /** Splits an address at its last colon into host and port. This is the
      partner definition the composition is checked against, not Go's
      `net.SplitHostPort`, which rejects an unbracketed host holding a
      colon. */
  function SplitAtLastColon(addr: string): (r: Option<(string, string)>)
    ensures r.None? <==> ':' !in addr
    ensures r.Some? ==> addr == r.value.0 + ":" + r.value.1 && ':' !in r.value.1
  {
    match LastIndexOf(addr, ':')
    case None => None
    case Some(i) =>
      assert addr == addr[..i] + ":" + addr[i + 1..];
      Some((addr[..i], addr[i + 1..]))
  }

  /** Joining a host and a colon-free port and splitting the result at its
      last colon gives back the two parts, even when the host itself holds
      colons (an address a Go dialer would still reject). */
  lemma JoinSplit(host: string, port: string)
    requires ':' !in port
    ensures SplitAtLastColon(host + ":" + port) == Some((host, port))
  {
    var addr := host + ":" + port;
    assert addr[|host|] == ':';
    var k := LastIndexOf(addr, ':');
    assert k.Some?;
    assert k.value == |host|;
    assert addr[..|host|] == host;
    assert addr[|host| + 1..] == port;
  }

  /** The address `MasterAddr` composes names exactly the reply's `ip` and
      `port` fields: splitting it recovers them. */
  lemma MasterAddrRoundTrip(m: map<string, string>)
    requires WellFormed(m)
    requires ':' !in Field(m, "port")
    ensures MasterAddr(m).Success?
    ensures SplitAtLastColon(MasterAddr(m).value) == Some((Field(m, "ip"), Field(m, "port")))
  {
    JoinSplit(Field(m, "ip"), Field(m, "port"));
  }

  /** The composition does not bracket an IPv6 `ip`: the reply
      `ip = "::1"`, `port = "6379"` names the address `::1:6379`, which a
      Go dialer rejects ("too many colons"), where `net.JoinHostPort` would
      give `[::1]:6379`. */
  lemma UnbracketedIpv6Address()
    ensures MasterAddr(map["ip" := "::1", "port" := "6379"]) == Success("::1:6379")
  {
    var m := map["ip" := "::1", "port" := "6379"];
    assert Field(m, "ip") == "::1" && Field(m, "port") == "6379";
    assert Field(m, "ip") + ":" + Field(m, "port") == "::1:6379";
  }
}
