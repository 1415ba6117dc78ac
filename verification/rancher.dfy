/** The Rancher probe: one line per host agent with its container count, then
    one line per monitored service of the configured stack. HTTP requests,
    credentials and configuration reading are outside; their answers are inputs. */
module Rancher {
  import opened Wrappers
  import opened Severity
  import opened Text

  /** A host record together with the number of instances its `instances`
      link lists. */
  datatype Host = Host(hostname: string, state: string, instanceCount: nat)

  datatype Service = Service(name: string, healthState: string, currentScale: nat)

  datatype Stack = Stack(name: string, serviceIds: seq<string>)

  /** The resolved configuration values the checks use. */
  datatype Config = Config(envName: string, stackName: string, monitored: seq<string>)

  /** A code and the word printed after it. */
  datatype Verdict = Verdict(status: Status, text: string)

  /** Hosts start out UNKNOWN and are always overwritten: `active` is OK,
      anything else CRITICAL. */
  function HostVerdict(state: string): (v: Verdict)
    ensures v.status == OK <==> state == "active"
    ensures v.status == CRITICAL <==> state != "active"
    ensures v.text == Label(v.status)
  {
    var initial := Verdict(UNKNOWN, "UNKNOWN");
    var checked := if state != "active" then Verdict(CRITICAL, "CRITICAL") else initial;
    if state == "active" then Verdict(OK, "OK") else checked
  }

  /** Services: `healthy` is OK, `unhealthy` CRITICAL, any other health state
      keeps the initial UNKNOWN. A service is never WARNING. */
  function ServiceVerdict(health: string): (v: Verdict)
    ensures v.status == OK <==> health == "healthy"
    ensures v.status == CRITICAL <==> health == "unhealthy"
    ensures v.status == UNKNOWN <==> health != "healthy" && health != "unhealthy"
    ensures v.status != WARNING
    ensures v.text == Label(v.status)
  {
    var initial := Verdict(UNKNOWN, "UNKNOWN");
    var healthy := if health == "healthy" then Verdict(OK, "OK") else initial;
    if health == "unhealthy" then Verdict(CRITICAL, "CRITICAL") else healthy
  }

  /** `<code> rancher_agent_<host> - <word> host <host> running containers: <n>` */
  function AgentLine(h: Host): string {
    var v := HostVerdict(h.state);
    IntToString(v.status) + " " + AgentText(h) + " " + NatToString(h.instanceCount)
  }

  /** The words between an agent line's code and its container count. */
  function AgentText(h: Host): string {
    "rancher_agent_" + h.hostname + " - " + HostVerdict(h.state).text + " host " + h.hostname + " running containers:"
  }

  /** `<code> <env>_<stack>_<service> - <word> running instances: <n>` */
  function ServiceLine(cfg: Config, svc: Service): string {
    IntToString(ServiceVerdict(svc.healthState).status) + " " + ServiceText(cfg, svc) + " " + NatToString(svc.currentScale)
  }

  /** The words between a service line's code and its scale. */
  function ServiceText(cfg: Config, svc: Service): string {
    cfg.envName + "_" + cfg.stackName + "_" + svc.name + " - " + ServiceVerdict(svc.healthState).text + " running instances:"
  }

  /** A collector reads an agent line's first field as the host's status, which
      is OK or CRITICAL and never WARNING or UNKNOWN. */
  lemma AgentLineStatus(h: Host)
    ensures ParseNat(FirstField(AgentLine(h))) == Some(HostVerdict(h.state).status)
    ensures HostVerdict(h.state).status in {OK, CRITICAL}
  {
    var code := IntToString(HostVerdict(h.state).status);
    var rest := AgentText(h) + " " + NatToString(h.instanceCount);
    assert AgentLine(h) == code + " " + rest;
    FirstFieldOf(code, rest);
    ParseNatToString(HostVerdict(h.state).status);
  }

  /** The last field of an agent line is the host's container count. */
  lemma AgentLineCount(h: Host)
    ensures ParseNat(LastField(AgentLine(h))) == Some(h.instanceCount)
  {
    var front := IntToString(HostVerdict(h.state).status) + " " + AgentText(h);
    LastFieldOf(front, NatToString(h.instanceCount));
    ParseNatToString(h.instanceCount);
  }

  /** A collector reads a service line's first field as the service's status. */
  lemma ServiceLineStatus(cfg: Config, svc: Service)
    ensures ParseNat(FirstField(ServiceLine(cfg, svc))) == Some(ServiceVerdict(svc.healthState).status)
  {
    var code := IntToString(ServiceVerdict(svc.healthState).status);
    var rest := ServiceText(cfg, svc) + " " + NatToString(svc.currentScale);
    assert ServiceLine(cfg, svc) == code + " " + rest;
    FirstFieldOf(code, rest);
    ParseNatToString(ServiceVerdict(svc.healthState).status);
  }

  /** The last field of a service line is the service's current scale. */
  lemma ServiceLineScale(cfg: Config, svc: Service)
    ensures ParseNat(LastField(ServiceLine(cfg, svc))) == Some(svc.currentScale)
  {
    var front := IntToString(ServiceVerdict(svc.healthState).status) + " " + ServiceText(cfg, svc);
    LastFieldOf(front, NatToString(svc.currentScale));
    ParseNatToString(svc.currentScale);
  }

  /** Index of the first stack at or after `from` with the given name. */
  function FindStackFrom(stacks: seq<Stack>, name: string, from: nat): (r: Option<nat>)
    requires from <= |stacks|
    ensures r.Some? ==>
      && from <= r.value < |stacks|
      && stacks[r.value].name == name
      && forall k :: from <= k < r.value ==> stacks[k].name != name
    ensures r.None? ==> forall k :: from <= k < |stacks| ==> stacks[k].name != name
    decreases |stacks| - from
  {
    if from == |stacks| then None
    else if stacks[from].name == name then Some(from)
    else FindStackFrom(stacks, name, from + 1)
  }

  /** The stack the probe inspects: the first one carrying the configured name. */
  function FindStack(stacks: seq<Stack>, name: string): (r: Option<nat>)
    ensures r.Some? ==>
      && r.value < |stacks|
      && stacks[r.value].name == name
      && forall k :: 0 <= k < r.value ==> stacks[k].name != name
    ensures r.None? <==> forall k :: 0 <= k < |stacks| ==> stacks[k].name != name
  {
    FindStackFrom(stacks, name, 0)
  }

  /** The services whose name is on the monitored list, in their original order. */
  function Monitored(svcs: seq<Service>, names: seq<string>): (r: seq<Service>)
    ensures |r| <= |svcs|
    ensures forall k :: 0 <= k < |r| ==> r[k] in svcs && r[k].name in names
    ensures forall i :: 0 <= i < |svcs| && svcs[i].name in names ==> svcs[i] in r
  {
    if |svcs| == 0 then []
    else if svcs[0].name in names then [svcs[0]] + Monitored(svcs[1..], names)
    else Monitored(svcs[1..], names)
  }

  /** The filter of a concatenation is the filter of each part in turn. With
      `Monitored`'s own contract on single services, this pins the result down
      as the in-order subsequence of monitored entries, duplicates included. */
  lemma {:induction false} MonitoredAppend(a: seq<Service>, b: seq<Service>, names: seq<string>)
    ensures Monitored(a + b, names) == Monitored(a, names) + Monitored(b, names)
  {
    if |a| > 0 {
      assert (a + b)[1..] == a[1..] + b;
      MonitoredAppend(a[1..], b, names);
    } else {
      assert a + b == b;
    }
  }

  /** The service loop: a line for each service on the monitored list. */
  function ServiceLines(cfg: Config, svcs: seq<Service>): seq<string> {
    if |svcs| == 0 then []
    else (if svcs[0].name in cfg.monitored then [ServiceLine(cfg, svcs[0])] else []) + ServiceLines(cfg, svcs[1..])
  }

  /** The service lines are exactly the lines of the monitored services, one
      each, in stack order. */
  lemma {:induction false} ServiceLinesAreMonitored(cfg: Config, svcs: seq<Service>)
    ensures |ServiceLines(cfg, svcs)| == |Monitored(svcs, cfg.monitored)|
    ensures forall k :: 0 <= k < |ServiceLines(cfg, svcs)| ==>
      ServiceLines(cfg, svcs)[k] == ServiceLine(cfg, Monitored(svcs, cfg.monitored)[k])
  {
    if |svcs| > 0 {
      ServiceLinesAreMonitored(cfg, svcs[1..]);
    }
  }

  /** The lines of a concatenation are the lines of each part in turn. */
  lemma {:induction false} ServiceLinesAppend(cfg: Config, a: seq<Service>, b: seq<Service>)
    ensures ServiceLines(cfg, a + b) == ServiceLines(cfg, a) + ServiceLines(cfg, b)
  {
    if |a| > 0 {
      assert (a + b)[1..] == a[1..] + b;
      ServiceLinesAppend(cfg, a[1..], b);
    } else {
      assert a + b == b;
    }
  }

  /** The records the per-id service requests return, in `serviceIds` order. */
  function FetchServices(ids: seq<string>, fetch: string -> Service): (svcs: seq<Service>)
    ensures |svcs| == |ids|
    ensures forall k :: 0 <= k < |ids| ==> svcs[k] == fetch(ids[k])
  {
    seq(|ids|, k requires 0 <= k < |ids| => fetch(ids[k]))
  }

  /** Output lines and exit code of one run. */
  datatype Output = Output(lines: seq<string>, exitCode: int)

  /** A run: agent lines for every host in order, then, if a stack carries the
      configured name, the monitored services of the first such stack. The
      probe exits 0 whatever it found, including when no stack matches. */
  function RunRancher(cfg: Config, hosts: seq<Host>, stacks: seq<Stack>, fetch: string -> Service): (out: Output)
    ensures out.exitCode == 0
    ensures |out.lines| >= |hosts|
    ensures forall k :: 0 <= k < |hosts| ==> out.lines[k] == AgentLine(hosts[k])
    ensures FindStack(stacks, cfg.stackName).None? ==> |out.lines| == |hosts|
    ensures FindStack(stacks, cfg.stackName).Some? ==>
      out.lines[|hosts|..] == ServiceLines(cfg, FetchServices(stacks[FindStack(stacks, cfg.stackName).value].serviceIds, fetch))
  {
    var agentLines := seq(|hosts|, k requires 0 <= k < |hosts| => AgentLine(hosts[k]));
    match FindStack(stacks, cfg.stackName)
    case None => Output(agentLines, 0)
    case Some(i) =>
      var svcs := FetchServices(stacks[i].serviceIds, fetch);
      var lines := agentLines + ServiceLines(cfg, svcs);
      assert lines[|hosts|..] == ServiceLines(cfg, svcs);
      Output(lines, 0)
  }
}
