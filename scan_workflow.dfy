/** The scan workflow: pick the targets (the pending list of an interrupted scan, or a discovery
    sweep of the network), scan each in turn (ports, then services, OS and the detailed checks
    for a host with open ports), clear the checkpoint and hand a non-empty result to the report
    writer. The stages are injected functions. */
module ScanWorkflow {
  import opened Wrappers
  import opened Errors
  import opened Json
  import opened State
  import opened Resume

  /** The report the results are written to. */
  const ReportPath := "scan_results.xlsx"

  /** The number of top ports a workflow scans when it is given none. */
  const DefaultTopPorts := 100

  /** The checkpoint written once the targets are done: `{"pending_ips": []}`. */
  const ClearedState := Object(map[PendingKey := Array([])])

  /** One host's entry in the results: the keys "ip", "open_ports", "services", "os", "checks". */
  datatype HostRecord = HostRecord(
    ip: string,
    openPorts: seq<int>,
    services: map<int, string>,
    os: Option<string>,
    checks: map<string, bool>)

  /** The stage executors the workflow calls: host discovery of a network, the port scan of an
      address with a top-ports count, service detection, OS fingerprinting and the detailed
      checks. Each returns its value or raises. */
  datatype Stages = Stages(
    discover: string -> Result<seq<string>, Error>,
    portScan: (string, int) -> Result<seq<int>, Error>,
    detect: (string, seq<int>) -> Result<map<int, string>, Error>,
    fingerprint: string -> Result<Option<string>, Error>,
    checks: string -> Result<map<string, bool>, Error>)

  /** A per-target stage call, with its arguments. */
  datatype StageCall =
    | PortScanCall(ip: string, topPorts: int)
    | DetectCall(ip: string, ports: seq<int>)
    | FingerprintCall(ip: string)
    | ChecksCall(ip: string)

  // ---------------------------------------------------------------------------------------------
  // Choosing the targets
  // ---------------------------------------------------------------------------------------------

  /** `for ip in targets` over the pending value read from the state file: a list of strings is
      walked as it is and a string letter by letter; a number, a boolean or null is not iterable;
      other iterables (an object, a list holding non-strings) are outside the model. */
  function Targets(pending: Json): (r: Result<seq<string>, Error>)
    ensures pending.Array? && (forall k | 0 <= k < |pending.items| :: pending.items[k].Str?) ==>
              r.Ok? && |r.value| == |pending.items| && forall k | 0 <= k < |r.value| :: r.value[k] == pending.items[k].s
    ensures pending.Null? || pending.Bool? || pending.Number? ==> r == Err(NotIterable)
    ensures pending.Str? ==> r.Ok? && |r.value| == |pending.s| && forall k | 0 <= k < |r.value| :: r.value[k] == [pending.s[k]]
  {
    match pending
    case Array(items) =>
      if forall k | 0 <= k < |items| :: items[k].Str? then Ok(seq(|items|, k requires 0 <= k < |items| => items[k].s))
      else Err(UnsupportedTargets)
    case Str(s) => Ok(seq(|s|, k requires 0 <= k < |s| => [s[k]]))
    case Object(_) => Err(UnsupportedTargets)
    case _ => Err(NotIterable)
  }

  /** The target list of `run`, given what `load_state()` returns: the pending list when the
      state says to resume, a discovery of the network otherwise. Errors of either raise. */
  function Plan(loaded: Result<Option<Json>, Error>, discover: string -> Result<seq<string>, Error>, cidr: string)
    : (r: Result<seq<string>, Error>)
    ensures ShouldResume(loaded).Err? ==> r == Err(ShouldResume(loaded).error)
    ensures ShouldResume(loaded) == Ok(true) ==> GetPendingIps(loaded).Ok? && r == Targets(GetPendingIps(loaded).value)
    ensures ShouldResume(loaded) == Ok(false) ==> r == discover(cidr)
  {
    var resume :- ShouldResume(loaded);
    if resume then
      ResumeMeansPending(loaded);
      Targets(GetPendingIps(loaded).value)
    else discover(cidr)
  }

  /** Resuming from a stored list of addresses scans exactly those addresses, in their order. */
  lemma ResumedListIsScanned(fields: map<string, Json>, hosts: seq<string>, discover: string -> Result<seq<string>, Error>, cidr: string)
    requires hosts != [] && PendingKey in fields
    requires fields[PendingKey] == Array(seq(|hosts|, k requires 0 <= k < |hosts| => Str(hosts[k])))
    ensures Plan(Ok(Some(Object(fields))), discover, cidr) == Ok(hosts)
  {
    var items := seq(|hosts|, k requires 0 <= k < |hosts| => Str(hosts[k]));
    StoredListResumes(fields, items);
    assert Targets(Array(items)).value == hosts;
  }

  /** With no state file the network is discovered. */
  lemma FreshScanDiscovers(discover: string -> Result<seq<string>, Error>, cidr: string)
    ensures Plan(Ok(None), discover, cidr) == discover(cidr)
  {
  }

  // ---------------------------------------------------------------------------------------------
  // Scanning the targets
  // ---------------------------------------------------------------------------------------------

  /** The port scan of `ip` succeeds with at least one open port. */
  predicate HasOpenPorts(st: Stages, topPorts: int, ip: string) {
    st.portScan(ip, topPorts).Ok? && st.portScan(ip, topPorts).value != []
  }

  /** `rec` holds, field by field, what the stages return for its address. */
  predicate IsRecordOf(rec: HostRecord, st: Stages, topPorts: int) {
    st.portScan(rec.ip, topPorts) == Ok(rec.openPorts) && rec.openPorts != [] &&
    st.detect(rec.ip, rec.openPorts) == Ok(rec.services) &&
    st.fingerprint(rec.ip) == Ok(rec.os) && st.checks(rec.ip) == Ok(rec.checks)
  }

  /** Every check-stage call is for an address whose port scan found open ports, and every port
      scan is made with the workflow's count. */
  predicate CallsGuarded(calls: seq<StageCall>, st: Stages, topPorts: int) {
    forall c | c in calls ::
      (c.PortScanCall? ==> c.topPorts == topPorts) &&
      (!c.PortScanCall? ==> HasOpenPorts(st, topPorts, c.ip)) &&
      (c.DetectCall? ==> st.portScan(c.ip, topPorts) == Ok(c.ports))
  }

  /** One pass of the loop body: what it appends, or the exception it raises, and the calls it
      makes. */
  datatype HostScan = HostScan(result: Result<Option<HostRecord>, Error>, calls: seq<StageCall>)

  /** The loop body for one target: the port scan first; no open ports skips the target; then
      services, OS and checks, and the record of their results. */
  function ScanHost(ip: string, st: Stages, topPorts: int): HostScan {
    var c0 := [PortScanCall(ip, topPorts)];
    match st.portScan(ip, topPorts)
    case Err(e) => HostScan(Err(e), c0)
    case Ok(ports) =>
      if ports == [] then HostScan(Ok(None), c0)
      else
        var c1 := c0 + [DetectCall(ip, ports)];
        match st.detect(ip, ports)
        case Err(e) => HostScan(Err(e), c1)
        case Ok(services) =>
          var c2 := c1 + [FingerprintCall(ip)];
          match st.fingerprint(ip)
          case Err(e) => HostScan(Err(e), c2)
          case Ok(os) =>
            var c3 := c2 + [ChecksCall(ip)];
            match st.checks(ip)
            case Err(e) => HostScan(Err(e), c3)
            case Ok(checks) => HostScan(Ok(Some(HostRecord(ip, ports, services, os, checks))), c3)
  }

  /** One target's pass begins with its port scan, made with the workflow's count; it skips the
      target exactly when that scan finds no port; a record it appends holds the target's stage
      results; the other stages run only after a scan that found ports; and all stages
      succeeding appends a record. */
  lemma ScanHostGuarded(ip: string, st: Stages, topPorts: int)
    ensures var h := ScanHost(ip, st, topPorts);
            |h.calls| >= 1 && h.calls[0] == PortScanCall(ip, topPorts) && CallsGuarded(h.calls, st, topPorts)
    ensures ScanHost(ip, st, topPorts).result == Ok(None) <==> st.portScan(ip, topPorts) == Ok([])
    ensures var h := ScanHost(ip, st, topPorts);
            h.result.Ok? && h.result.value.Some? ==> h.result.value.value.ip == ip && IsRecordOf(h.result.value.value, st, topPorts)
    ensures (HasOpenPorts(st, topPorts, ip) && st.detect(ip, st.portScan(ip, topPorts).value).Ok? &&
             st.fingerprint(ip).Ok? && st.checks(ip).Ok?) ==>
            ScanHost(ip, st, topPorts).result.Ok? && ScanHost(ip, st, topPorts).result.value.Some?
    ensures st.portScan(ip, topPorts).Err? ==>
            ScanHost(ip, st, topPorts) == HostScan(Err(st.portScan(ip, topPorts).error), [PortScanCall(ip, topPorts)])
  {
  }

  /** What the whole loop yields: the records or the first exception, and the calls made. */
  datatype Scanned = Scanned(result: Result<seq<HostRecord>, Error>, calls: seq<StageCall>)

  /** The loop over `targets`, target by target; the first exception ends it. */
  function ScanAll(targets: seq<string>, st: Stages, topPorts: int): Scanned
    decreases |targets|
  {
    if targets == [] then Scanned(Ok([]), [])
    else
      var prev := ScanAll(targets[..|targets| - 1], st, topPorts);
      if prev.result.Err? then prev
      else
        var h := ScanHost(targets[|targets| - 1], st, topPorts);
        match h.result
        case Err(e) => Scanned(Err(e), prev.calls + h.calls)
        case Ok(None) => Scanned(prev.result, prev.calls + h.calls)
        case Ok(Some(rec)) => Scanned(Ok(prev.result.value + [rec]), prev.calls + h.calls)
  }

  /** The targets whose port scan finds open ports, in target order. */
  function Kept(targets: seq<string>, st: Stages, topPorts: int): (r: seq<string>)
    ensures |r| <= |targets|
    ensures forall t :: t in r <==> t in targets && HasOpenPorts(st, topPorts, t)
    decreases |targets|
  {
    if targets == [] then []
    else
      var last := targets[|targets| - 1];
      var init := targets[..|targets| - 1];
      assert targets == init + [last];
      Kept(init, st, topPorts) + (if HasOpenPorts(st, topPorts, last) then [last] else [])
  }

  /** A completed loop holds one record per target with open ports, in target order, each made
      of that target's stage results; every call it made is guarded as the loop promises. */
  lemma {:induction false} ScanAllRecordsKeptTargets(targets: seq<string>, st: Stages, topPorts: int)
    ensures CallsGuarded(ScanAll(targets, st, topPorts).calls, st, topPorts)
    ensures var sc := ScanAll(targets, st, topPorts);
            sc.result.Ok? ==> var recs := sc.result.value; var kept := Kept(targets, st, topPorts);
              |recs| == |kept| && forall k | 0 <= k < |recs| :: recs[k].ip == kept[k] && IsRecordOf(recs[k], st, topPorts)
    decreases |targets|
  {
    if targets != [] {
      var init := targets[..|targets| - 1];
      ScanAllRecordsKeptTargets(init, st, topPorts);
      var prev := ScanAll(init, st, topPorts);
      if prev.result.Ok? {
        var h := ScanHost(targets[|targets| - 1], st, topPorts);
        ScanHostGuarded(targets[|targets| - 1], st, topPorts);
        assert forall c | c in prev.calls + h.calls :: c in prev.calls || c in h.calls;
      }
    }
  }

  /** The loop ends in an exception exactly when some target's stages raise, and then it is the
      exception of the first such target. */
  lemma {:induction false} ScanAllFailsAtFirstError(targets: seq<string>, st: Stages, topPorts: int)
    ensures var sc := ScanAll(targets, st, topPorts);
            sc.result.Err? <==> exists k | 0 <= k < |targets| :: ScanHost(targets[k], st, topPorts).result.Err?
    ensures var sc := ScanAll(targets, st, topPorts);
            sc.result.Err? ==> exists k | 0 <= k < |targets| ::
              ScanHost(targets[k], st, topPorts).result == Err(sc.result.error) &&
              forall j | 0 <= j < k :: ScanHost(targets[j], st, topPorts).result.Ok?
    decreases |targets|
  {
    if targets != [] {
      var init := targets[..|targets| - 1];
      ScanAllFailsAtFirstError(init, st, topPorts);
      assert forall k | 0 <= k < |init| :: init[k] == targets[k];
    }
  }

  /** An exception part-way through the loop is the exception of the whole loop, with the same
      calls: nothing after the failing target runs. */
  lemma {:induction false} ScanAllStopsAtError(targets: seq<string>, i: nat, st: Stages, topPorts: int)
    requires i <= |targets| && ScanAll(targets[..i], st, topPorts).result.Err?
    ensures ScanAll(targets, st, topPorts) == ScanAll(targets[..i], st, topPorts)
    decreases |targets| - i
  {
    if i < |targets| {
      assert targets[..i + 1][..i] == targets[..i];
      ScanAllStopsAtError(targets, i + 1, st, topPorts);
    } else {
      assert targets[..i] == targets;
    }
  }

  /** The results never outnumber the targets. */
  lemma ResultsAtMostTargets(targets: seq<string>, st: Stages, topPorts: int)
    requires ScanAll(targets, st, topPorts).result.Ok?
    ensures |ScanAll(targets, st, topPorts).result.value| <= |targets|
  {
    ScanAllRecordsKeptTargets(targets, st, topPorts);
  }

  /** The body of the `for ip in targets` loop of `run` for one target: the port scan, then, when
      it finds open ports, services, OS and checks, and the record of their results. An
      exception from a stage ends the pass at once. */
  method ScanOne(ip: string, st: Stages, topPorts: int) returns (h: HostScan)
    ensures h == ScanHost(ip, st, topPorts)
  {
    var calls := [PortScanCall(ip, topPorts)];
    var scanned := st.portScan(ip, topPorts);
    if scanned.Err? {
      return HostScan(Err(scanned.error), calls);
    }
    var openPorts := scanned.value;
    if openPorts == [] {
      return HostScan(Ok(None), calls);
    }
    calls := calls + [DetectCall(ip, openPorts)];
    var services := st.detect(ip, openPorts);
    if services.Err? {
      return HostScan(Err(services.error), calls);
    }
    calls := calls + [FingerprintCall(ip)];
    var osInfo := st.fingerprint(ip);
    if osInfo.Err? {
      return HostScan(Err(osInfo.error), calls);
    }
    calls := calls + [ChecksCall(ip)];
    var checks := st.checks(ip);
    if checks.Err? {
      return HostScan(Err(checks.error), calls);
    }
    h := HostScan(Ok(Some(HostRecord(ip, openPorts, services.value, osInfo.value, checks.value))), calls);
  }

  /** The `for ip in targets` loop of `run`: one pass per target, in order; the results are the
      records the passes append, and the first exception leaves the loop. */
  method ScanTargets(targets: seq<string>, st: Stages, topPorts: int)
    returns (r: Result<seq<HostRecord>, Error>, calls: seq<StageCall>)
    ensures Scanned(r, calls) == ScanAll(targets, st, topPorts)
  {
    var results: seq<HostRecord> := [];
    calls := [];
    for i := 0 to |targets|
      invariant ScanAll(targets[..i], st, topPorts) == Scanned(Ok(results), calls)
    {
      assert targets[..i + 1][..i] == targets[..i];
      var h := ScanOne(targets[i], st, topPorts);
      calls := calls + h.calls;
      if h.result.Err? {
        ScanAllStopsAtError(targets, i + 1, st, topPorts);
        return Err(h.result.error), calls;
      }
      if h.result.value.Some? {
        results := results + [h.result.value.value];
      }
    }
    assert targets[..|targets|] == targets;
    r := Ok(results);
  }

  // ---------------------------------------------------------------------------------------------
  // ScanWorkflow.run
  // ---------------------------------------------------------------------------------------------

  /** `ScanWorkflow(network_cidr, top_ports=100)`, with its stages and the state store it uses.
      `reports` records every report handed to the writer, with its path. */
  class ScanWorkflow {
    const networkCidr: string
    const topPorts: int
    const stages: Stages
    const store: StateManager
    ghost var reports: seq<(string, seq<HostRecord>)>

    constructor (networkCidr: string, stages: Stages, store: StateManager, topPorts: int := DefaultTopPorts)
      ensures this.networkCidr == networkCidr && this.topPorts == topPorts
      ensures this.stages == stages && this.store == store && reports == []
    {
      this.networkCidr := networkCidr;
      this.topPorts := topPorts;
      this.stages := stages;
      this.store := store;
      reports := [];
    }

    /** `ScanWorkflow.run()`. The targets are chosen from the saved state; an exception from the
        choice or from any stage ends the run with no checkpoint written and no report. A loop
        that completes is followed by exactly one save, of the cleared checkpoint to the default
        path; the results are reported only when there are some, and returned. */
    method Run() returns (r: Result<seq<HostRecord>, Error>, calls: seq<StageCall>)
      modifies this, store
      ensures var plan := Plan(old(store.LoadState(None)), stages.discover, networkCidr);
              plan.Err? ==> r == Err(plan.error) && calls == [] && unchanged(store) && reports == old(reports)
      ensures var plan := Plan(old(store.LoadState(None)), stages.discover, networkCidr);
              plan.Ok? ==> var sc := ScanAll(plan.value, stages, topPorts);
                calls == sc.calls &&
                (sc.result.Err? ==> r == Err(sc.result.error) && unchanged(store) && reports == old(reports)) &&
                (sc.result.Ok? ==>
                  var saved := SaveTo(old(store.files), store.failing, DefaultPath, store.codec.encode(ClearedState));
                  store.saves == old(store.saves) + [(DefaultPath, ClearedState)] && store.files == saved.files &&
                  (saved.result.Err? ==> r == Err(saved.result.error) && reports == old(reports)) &&
                  (saved.result.Ok? ==>
                     r == Ok(sc.result.value) &&
                     reports == old(reports) + (if sc.result.value != [] then [(ReportPath, sc.result.value)] else [])))
    {
      calls := [];
      var resume := ShouldResume(store.LoadState(None));
      if resume.Err? {
        return Err(resume.error), calls;
      }
      var chosen: Result<seq<string>, Error>;
      if resume.value {
        var pending := GetPendingIps(store.LoadState(None));
        ResumeMeansPending(store.LoadState(None));
        chosen := Targets(pending.value);
      } else {
        chosen := stages.discover(networkCidr);
      }
      if chosen.Err? {
        return Err(chosen.error), calls;
      }
      var targets := chosen.value;

      var results: Result<seq<HostRecord>, Error>;
      results, calls := ScanTargets(targets, stages, topPorts);
      if results.Err? {
        return results, calls;
      }

      var saved := store.SaveState(ClearedState, None);
      if saved.Err? {
        return Err(saved.error), calls;
      }
      if results.value != [] {
        reports := reports + [(ReportPath, results.value)];
      }
      r := results;
    }
  }

  /** The checkpoint save at the end of a run can only fail with StateError: the default path
      always has a temporary name. */
  lemma ClearingFailsOnlyWithStateError(files: map<string, string>, failing: set<string>, content: string)
    ensures var s := SaveTo(files, failing, DefaultPath, content);
            s.result.Err? ==> s.result.error == StateError
    ensures var s := SaveTo(files, failing, DefaultPath, content);
            s.result.Ok? <==> "scan_state.tmp" !in failing && DefaultPath !in failing
  {
    DefaultTempPath();
  }
}
