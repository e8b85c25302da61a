/** Reachability of the game server (is_mc_online): TCP probes of the
    container's DNS name, then of its network address, then of the host
    loopback, stopping at the first that answers. */
module Reachability {
  import opened Wrappers
  import opened Docker
  import opened Addresses

  /** Host of the last-resort probe, for a server published on the host network. */
  const Loopback: string := "127.0.0.1"

  /** Separator of the diagnostic summary. */
  const Separator: string := "; "

  /** Outcome of one TCP connection attempt to MC_PORT (is_tcp_open): it
      either connects, or reports the text of the error; it never raises. */
  datatype ProbeResult = Open | Closed(error: string)

  /** One entry of `targets_tried`: the host probed and what the probe said. */
  datatype Attempt = Attempt(host: string, result: ProbeResult)

  /** The triple returned: whether the server answered, the host reported,
      and the diagnostic text (None when online). */
  datatype Verdict = Verdict(online: bool, target: string, lastError: Option<string>)

  /** The container address is probed only when it is non-empty and differs
      from the DNS name already probed. */
  predicate ProbesContainerIp(ip: Option<string>) {
    Truthy(ip) && ip.value != ContainerName
  }

  /** The hosts that may be probed, in order. */
  function Candidates(ip: Option<string>): (hosts: seq<string>)
    ensures 2 <= |hosts| <= 3
    ensures hosts[0] == ContainerName && hosts[|hosts| - 1] == Loopback
    ensures |hosts| == 3 <==> ProbesContainerIp(ip)
    ensures |hosts| == 3 ==> hosts[1] == ip.value
  {
    [ContainerName] + (if ProbesContainerIp(ip) then [ip.value] else []) + [Loopback]
  }

  /** Probes `hosts` in order and stops after the first that answers: the
      attempts are a prefix of `hosts`, every attempt but the last failed,
      and the list stops early only at a success. */
  function ProbeInOrder(probe: string -> ProbeResult, hosts: seq<string>): (tried: seq<Attempt>)
    ensures |tried| <= |hosts|
    ensures |hosts| > 0 ==> |tried| > 0
    ensures forall k :: 0 <= k < |tried| ==> tried[k] == Attempt(hosts[k], probe(hosts[k]))
    ensures forall k :: 0 <= k < |tried| - 1 ==> tried[k].result.Closed?
    ensures 0 < |tried| < |hosts| ==> tried[|tried| - 1].result.Open?
  {
    if hosts == [] then []
    else
      var first := Attempt(hosts[0], probe(hosts[0]));
      if first.result.Open? then [first]
      else [first] + ProbeInOrder(probe, hosts[1..])
  }

  /** The attempts made for a container address `ip`. */
  function Attempts(probe: string -> ProbeResult, ip: Option<string>): seq<Attempt>
  {
    ProbeInOrder(probe, Candidates(ip))
  }

  /** One part of the summary: `host: ok` or `host: <error>`. */
  function Describe(a: Attempt): string
  {
    a.host + ": " + match a.result
      case Open => "ok"
      case Closed(e) => e
  }

  /** `sep.join(parts)`. */
  function Join(parts: seq<string>, sep: string): string
  {
    if |parts| == 0 then ""
    else if |parts| == 1 then parts[0]
    else parts[0] + sep + Join(parts[1..], sep)
  }

  /** The diagnostic summary: every attempt described, in order, joined by "; ". */
  function Summary(tried: seq<Attempt>): string
  {
    Join(seq(|tried|, k requires 0 <= k < |tried| => Describe(tried[k])), Separator)
  }

  /** The verdict drawn from the attempts: the host that answered, or, when
      none did, the first host tried together with the summary. */
  function Conclude(tried: seq<Attempt>): Verdict
    requires |tried| > 0
  {
    if tried[|tried| - 1].result.Open? then Verdict(true, tried[|tried| - 1].host, None)
    else Verdict(false, tried[0].host, Some(Summary(tried)))
  }

  /** Reference definition of the verdict for a container address `ip`. */
  function McOnline(probe: string -> ProbeResult, ip: Option<string>): Verdict
  {
    Conclude(Attempts(probe, ip))
  }

  /** is_mc_online. `probe` answers for each host on MC_PORT; `inspected` is
      what inspecting the container yields, from which its address is taken
      once the DNS name has failed. `tried` is the list of attempts made. */
  method IsMcOnline(probe: string -> ProbeResult, inspected: Lookup<Attrs>)
    returns (online: bool, target: string, lastError: Option<string>, ghost tried: seq<Attempt>)
    ensures tried == Attempts(probe, ContainerIp(inspected, None))
    ensures Verdict(online, target, lastError) == McOnline(probe, ContainerIp(inspected, None))
  {
    var targetsTried: seq<Attempt> := [];
    var dnsHost := ContainerName;
    var result := probe(dnsHost);
    targetsTried := targetsTried + [Attempt(dnsHost, result)];
    if result.Open? {
      return true, dnsHost, None, targetsTried;
    }

    var containerIp := GetContainerIp(inspected, None);
    if Truthy(containerIp) && containerIp.value != dnsHost {
      result := probe(containerIp.value);
      targetsTried := targetsTried + [Attempt(containerIp.value, result)];
      if result.Open? {
        return true, containerIp.value, None, targetsTried;
      }
    }

    result := probe(Loopback);
    targetsTried := targetsTried + [Attempt(Loopback, result)];
    if result.Open? {
      return true, Loopback, None, targetsTried;
    }

    var summary := Summary(targetsTried);
    return false, targetsTried[0].host, Some(summary), targetsTried;
  }

  // Properties of the verdict, for every probe outcome and every container address.

  /** The DNS name is always probed first; when it answers, the verdict names
      it and nothing else is probed. */
  lemma DnsNameFirst(probe: string -> ProbeResult, ip: Option<string>)
    ensures |Attempts(probe, ip)| > 0
    ensures Attempts(probe, ip)[0] == Attempt(ContainerName, probe(ContainerName))
    ensures probe(ContainerName).Open? ==>
              Attempts(probe, ip) == [Attempt(ContainerName, Open)]
              && McOnline(probe, ip) == Verdict(true, ContainerName, None)
  {
  }

  /** The container address is probed, second, exactly when it is non-empty,
      differs from the DNS name and the DNS name failed; when it answers, the
      verdict names it and the loopback is not probed. Otherwise only the DNS
      name and the loopback are probed. */
  lemma ContainerIpSecond(probe: string -> ProbeResult, ip: Option<string>)
    ensures ProbesContainerIp(ip) ==> (|Attempts(probe, ip)| >= 2 <==> probe(ContainerName).Closed?)
    ensures ProbesContainerIp(ip) && probe(ContainerName).Closed? ==>
              && Attempts(probe, ip)[1] == Attempt(ip.value, probe(ip.value))
              && (probe(ip.value).Open? ==>
                    |Attempts(probe, ip)| == 2 && McOnline(probe, ip) == Verdict(true, ip.value, None))
    ensures !ProbesContainerIp(ip) ==>
              forall k :: 0 <= k < |Attempts(probe, ip)| ==>
                Attempts(probe, ip)[k].host == ContainerName || Attempts(probe, ip)[k].host == Loopback
  {
  }

  /** The loopback, the last candidate, is probed exactly when every earlier
      candidate failed; when it answers, the verdict names it. */
  lemma LoopbackLast(probe: string -> ProbeResult, ip: Option<string>)
    ensures var hosts := Candidates(ip);
            |Attempts(probe, ip)| == |hosts| <==> forall k :: 0 <= k < |hosts| - 1 ==> probe(hosts[k]).Closed?
    ensures |Attempts(probe, ip)| == |Candidates(ip)| ==>
              && Attempts(probe, ip)[|Attempts(probe, ip)| - 1] == Attempt(Loopback, probe(Loopback))
              && (probe(Loopback).Open? ==> McOnline(probe, ip) == Verdict(true, Loopback, None))
  {
  }

  /** The server is reported offline exactly when every candidate failed; the
      verdict then names the DNS name, all two or three candidates were
      probed, and the diagnostic is the summary of those attempts. */
  lemma TotalFailure(probe: string -> ProbeResult, ip: Option<string>)
    ensures var hosts := Candidates(ip);
            !McOnline(probe, ip).online <==> forall k :: 0 <= k < |hosts| ==> probe(hosts[k]).Closed?
    ensures !McOnline(probe, ip).online ==>
              var tried := Attempts(probe, ip);
              && |tried| == |Candidates(ip)|
              && 2 <= |tried| <= 3
              && McOnline(probe, ip).target == tried[0].host == ContainerName
              && McOnline(probe, ip).lastError == Some(Summary(tried))
  {
  }

  /** When online, there is no diagnostic, the reported host is the one whose
      probe answered, it was the last probed, and every earlier probe failed.
      When offline, the diagnostic is non-empty and opens with the DNS name. */
  lemma OnlineNamesWinner(probe: string -> ProbeResult, ip: Option<string>)
    ensures var v, tried := McOnline(probe, ip), Attempts(probe, ip);
            v.online ==>
              && v.lastError == None
              && probe(v.target).Open?
              && v.target == tried[|tried| - 1].host
              && forall k :: 0 <= k < |tried| - 1 ==> tried[k].result.Closed?
    ensures var v := McOnline(probe, ip);
            !v.online ==> v.lastError.Some? && ContainerName + ": " <= v.lastError.value
  {
  }

  /** The diagnostic is present and non-empty exactly when the server is
      reported offline. */
  lemma DiagnosticIffOffline(probe: string -> ProbeResult, ip: Option<string>)
    ensures Truthy(McOnline(probe, ip).lastError) <==> !McOnline(probe, ip).online
  {
  }

  /** Joining one more part appends the separator and that part. */
  lemma {:induction false} JoinAppend(parts: seq<string>, sep: string, last: string)
    requires |parts| > 0
    ensures Join(parts + [last], sep) == Join(parts, sep) + sep + last
  {
    if |parts| == 1 {
      assert parts + [last] == [parts[0], last];
      assert Join([last], sep) == last;
    } else {
      assert (parts + [last])[1..] == parts[1..] + [last];
      JoinAppend(parts[1..], sep, last);
    }
  }

  /** The summary opens with the first host probed, so it is never empty. */
  lemma SummaryStartsWithFirstHost(tried: seq<Attempt>)
    requires |tried| > 0
    ensures tried[0].host + ": " <= Summary(tried)
    ensures |Summary(tried)| > 0
  {
  }

  /** Each attempt adds `; host: outcome` to the summary, so the summary lists
      the attempts in the order they were made. */
  lemma SummaryExtends(tried: seq<Attempt>, a: Attempt)
    requires |tried| > 0
    ensures Summary(tried + [a]) == Summary(tried) + Separator + Describe(a)
  {
    var parts := seq(|tried|, k requires 0 <= k < |tried| => Describe(tried[k]));
    var parts' := seq(|tried + [a]|, k requires 0 <= k < |tried + [a]| => Describe((tried + [a])[k]));
    assert parts' == parts + [Describe(a)];
    JoinAppend(parts, Separator, Describe(a));
  }

  /** The summary of a total failure spells out every host and its error. */
  lemma FailureSummary(probe: string -> ProbeResult, ip: Option<string>)
    requires !McOnline(probe, ip).online
    ensures var hosts := Candidates(ip);
            && (|hosts| == 2 ==>
                  McOnline(probe, ip).lastError.value ==
                    ContainerName + ": " + probe(ContainerName).error + Separator
                    + Loopback + ": " + probe(Loopback).error)
            && (|hosts| == 3 ==>
                  McOnline(probe, ip).lastError.value ==
                    ContainerName + ": " + probe(ContainerName).error + Separator
                    + ip.value + ": " + probe(ip.value).error + Separator
                    + Loopback + ": " + probe(Loopback).error)
  {
    TotalFailure(probe, ip);
    var tried := Attempts(probe, ip);
    assert Summary(tried[..1]) == Describe(tried[0]);
    SummaryExtends(tried[..1], tried[1]);
    assert tried[..1] + [tried[1]] == tried[..2];
    if |tried| == 3 {
      SummaryExtends(tried[..2], tried[2]);
      assert tried[..2] + [tried[2]] == tried;
    } else {
      assert tried[..2] == tried;
    }
  }
}
