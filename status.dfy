/** The composite status report (the /status handler). */
module StatusReport {
  import opened Wrappers
  import opened Docker
  import opened Addresses
  import opened Reachability

  /** The JSON values the report holds. */
  datatype Json = JString(s: string) | JBool(b: bool) | JNull

  /** A nullable string as JSON. */
  function OptionalString(s: Option<string>): Json
  {
    match s
    case Some(v) => JString(v)
    case None => JNull
  }

  /** The container fields of the report, for each outcome of the lookup. */
  function ContainerFields(inspected: Lookup<Attrs>): set<string>
  {
    if inspected.Failed? then {"container_error"} else {"container_status", "health"}
  }

  /** status. `inspected` is what looking the container up and reading its
      inspection data yields; it feeds both the container fields and the
      address used by the reachability check. The method has no precondition
      and no failure outcome: every sub-check degrades to a field. */
  method Status(inspected: Lookup<Attrs>, probe: string -> ProbeResult) returns (report: map<string, Json>)
    ensures var v := McOnline(probe, ContainerIp(inspected, None));
            report.Keys == ContainerFields(inspected) + {"minecraft_online", "mc_target"}
                           + (if v.online then {} else {"mc_last_error"})
    ensures inspected.Found? ==>
              && report["container_status"] == JString(inspected.value.stateStatus.GetOr("unknown"))
              && report["health"] == OptionalString(inspected.value.healthStatus)
    ensures inspected.NotFound? ==>
              report["container_status"] == JString("not_found") && report["health"] == JNull
    ensures inspected.Failed? ==> report["container_error"] == JString(inspected.error)
    ensures var v := McOnline(probe, ContainerIp(inspected, None));
            && report["minecraft_online"] == JBool(v.online)
            && report["mc_target"] == JString(v.target)
            && (!v.online ==> report["mc_last_error"] == JString(v.lastError.value))
  {
    report := map[];
    match inspected {
      case Found(attrs) =>
        report := report["container_status" := JString(attrs.stateStatus.GetOr("unknown"))];
        report := report["health" := OptionalString(attrs.healthStatus)];
      case NotFound(_) =>
        report := report["container_status" := JString("not_found")];
        report := report["health" := JNull];
      case Failed(e) =>
        report := report["container_error" := JString(e)];
    }

    var online, target, lastError, tried := IsMcOnline(probe, inspected);
    report := report["minecraft_online" := JBool(online)];
    report := report["mc_target" := JString(target)];
    DiagnosticIffOffline(probe, ContainerIp(inspected, None));
    if Truthy(lastError) {
      report := report["mc_last_error" := JString(lastError.value)];
    }
  }
}
