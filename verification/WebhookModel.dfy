/** The GitLab pipeline webhook: one event searches three log tables in order, updates the log it
    finds, and on a terminal status updates that log's parent. */
module WebhookModel {
  import opened Wrappers
  import opened ProviderSchema

  /** The three log tables, in the order the handler tries them. */
  datatype Kind = Build | Helm | Docker

  /** A row of `build_logs`, `helm_sync_logs` or `docker_sync_logs`; only the second has a chart. */
  datatype Log = Log(
    parentId: nat, pipelineId: Option<string>, chartName: Option<string>, chartVersion: Option<string>,
    pipelineUrl: Option<string>, statusFlag: int, statusText: Option<string>, finishedAt: Option<Timestamp>)

  /** The status columns of `image_versions`, `helm_chart_sources` or `docker_image_sources`;
      `succeededAt` is `built_at` or `last_synced_at`. */
  datatype Parent = Parent(statusFlag: int, statusText: Option<string>, succeededAt: Option<Timestamp>)

  datatype ChartVersion = ChartVersion(
    sourceId: nat, chartName: string, version: string,
    isSynced: bool, statusFlag: int, statusText: Option<string>, lastSyncedAt: Option<Timestamp>)

  datatype Tables = Tables(
    buildLogs: map<nat, Log>, helmLogs: map<nat, Log>, dockerLogs: map<nat, Log>,
    imageVersions: map<nat, Parent>, helmSources: map<nat, Parent>, dockerSources: map<nat, Parent>,
    chartVersions: map<nat, ChartVersion>)

  /** A delivery, with the clock readings the handler takes while processing it. */
  datatype Event = Event(
    objectKind: string, pipelineId: string, status: string, webUrl: string,
    finishedAt: Timestamp, parentAt: Timestamp, versionAt: Timestamp)

  datatype Response = Ignored | Updated(kind: Kind, id: nat) | PassedOn | Raised

  function FlagOf(status: string): int {
    match status
    case "success" => 0
    case "failed" => 1
    case "warning" => 2
    case "running" => 3
    case "pending" => 4
    case "created" => 4
    case "canceled" => 1
    case "skipped" => 2
    case _ => 4
  }

  predicate Terminal(e: Event) {
    e.status in ["success", "failed", "canceled"]
  }

  predicate Succeeded(e: Event) {
    e.status == "success"
  }

  function UrlOf(e: Event): string {
    e.webUrl + "/-/pipelines/" + e.pipelineId
  }

  predicate Present(s: Option<string>) {
    s.Some? && s.value != ""
  }

  // ----- Lookups

  datatype Lookup = NoRow | OneRow(id: nat) | ManyRows

  /** `scalar_one_or_none`, which raises on a second row. */
  function OneOrNone(ids: set<nat>): (r: Lookup)
    ensures r.OneRow? ==> r.id in ids
  {
    if ids == {} then NoRow
    else if ids == {LeastOf(ids)} then OneRow(LeastOf(ids))
    else ManyRows
  }

  function LogIds(logs: map<nat, Log>, pipelineId: string): set<nat> {
    set i | i in logs && logs[i].pipelineId == Some(pipelineId)
  }

  function ChartIds(charts: map<nat, ChartVersion>, log: Log): set<nat>
    requires log.chartName.Some? && log.chartVersion.Some?
  {
    set i | i in charts && charts[i].sourceId == log.parentId && charts[i].chartName == log.chartName.value
            && charts[i].version == log.chartVersion.value
  }

  function Logs(t: Tables, k: Kind): map<nat, Log> {
    match k
    case Build => t.buildLogs
    case Helm => t.helmLogs
    case Docker => t.dockerLogs
  }

  function Parents(t: Tables, k: Kind): map<nat, Parent> {
    match k
    case Build => t.imageVersions
    case Helm => t.helmSources
    case Docker => t.dockerSources
  }

  function WithLog(t: Tables, k: Kind, id: nat, log: Log): Tables {
    match k
    case Build => t.(buildLogs := t.buildLogs[id := log])
    case Helm => t.(helmLogs := t.helmLogs[id := log])
    case Docker => t.(dockerLogs := t.dockerLogs[id := log])
  }

  function WithParent(t: Tables, k: Kind, id: nat, parent: Parent): Tables {
    match k
    case Build => t.(imageVersions := t.imageVersions[id := parent])
    case Helm => t.(helmSources := t.helmSources[id := parent])
    case Docker => t.(dockerSources := t.dockerSources[id := parent])
  }

  // ----- One event

  function ApplyToLog(e: Event, log: Log): Log {
    log.(statusFlag := FlagOf(e.status), statusText := Some(e.status), pipelineUrl := Some(UrlOf(e)),
         finishedAt := if Terminal(e) then Some(e.finishedAt) else log.finishedAt)
  }

  function ApplyToParent(e: Event, parent: Parent): Parent {
    Parent(FlagOf(e.status), Some(e.status), if Succeeded(e) then Some(e.parentAt) else parent.succeededAt)
  }

  function ApplyToChart(e: Event, chart: ChartVersion): ChartVersion {
    chart.(isSynced := true, statusFlag := 0, statusText := Some("Synced"), lastSyncedAt := Some(e.versionAt))
  }

  /** The chart version a successful event on a log marks. */
  function MarkedChart(t: Tables, e: Event, k: Kind, log: Log): (r: Lookup)
    ensures r.OneRow? ==> r.id in t.chartVersions
  {
    if k == Helm && Succeeded(e) && Present(log.chartName) && Present(log.chartVersion)
    then OneOrNone(ChartIds(t.chartVersions, log)) else NoRow
  }

  /** Updating one log and, on a terminal status, what hangs on it. */
  function UpdateLog(t: Tables, e: Event, k: Kind, id: nat): Result<Tables, ()>
    requires id in Logs(t, k)
  {
    var log := Logs(t, k)[id];
    var logged := WithLog(t, k, id, ApplyToLog(e, log));
    var parented :=
      if Terminal(e) && log.parentId in Parents(t, k)
      then WithParent(logged, k, log.parentId, ApplyToParent(e, Parents(t, k)[log.parentId])) else logged;
    match MarkedChart(t, e, k, log)
    case NoRow => Success(parented)
    case ManyRows => Failure(())
    case OneRow(v) => Success(parented.(chartVersions := t.chartVersions[v := ApplyToChart(e, t.chartVersions[v])]))
  }

  datatype Route = Routed(kind: Kind, id: nat) | Unrouted | Ambiguous

  /** The log a pipeline id belongs to: build logs first, then helm, then docker. */
  function RouteOf(t: Tables, pipelineId: string): Route {
    match OneOrNone(LogIds(t.buildLogs, pipelineId))
    case ManyRows => Ambiguous
    case OneRow(id) => Routed(Build, id)
    case NoRow =>
      match OneOrNone(LogIds(t.helmLogs, pipelineId))
      case ManyRows => Ambiguous
      case OneRow(id) => Routed(Helm, id)
      case NoRow =>
        match OneOrNone(LogIds(t.dockerLogs, pipelineId))
        case ManyRows => Ambiguous
        case OneRow(id) => Routed(Docker, id)
        case NoRow => Unrouted
  }

  lemma RouteFound(t: Tables, pipelineId: string)
    ensures var r := RouteOf(t, pipelineId);
      r.Routed? ==> r.id in Logs(t, r.kind) && Logs(t, r.kind)[r.id].pipelineId == Some(pipelineId)
  {
  }

  /** What one delivery does; a raised exception leaves the database as it was. */
  function Step(t: Tables, e: Event): (Tables, Response) {
    if e.objectKind != "pipeline" then (t, Ignored)
    else
      match RouteOf(t, e.pipelineId)
      case Ambiguous => (t, Raised)
      case Unrouted => (t, PassedOn)
      case Routed(k, id) =>
        RouteFound(t, e.pipelineId);
        match UpdateLog(t, e, k, id)
        case Failure(_) => (t, Raised)
        case Success(u) => (u, Updated(k, id))
  }

  function Run(t: Tables, events: seq<Event>): Tables {
    if events == [] then t
    else Step(Run(t, events[..|events| - 1]), events[|events| - 1]).0
  }

  // ----- The handler

  class WebhookHandler {
    var buildLogs: map<nat, Log>
    var helmSyncLogs: map<nat, Log>
    var dockerSyncLogs: map<nat, Log>
    var imageVersions: map<nat, Parent>
    var helmChartSources: map<nat, Parent>
    var dockerImageSources: map<nat, Parent>
    var helmChartVersions: map<nat, ChartVersion>

    function View(): Tables
      reads this
    {
      Tables(buildLogs, helmSyncLogs, dockerSyncLogs, imageVersions, helmChartSources, dockerImageSources,
             helmChartVersions)
    }

    /** `gitlab_webhook`, up to the point where it hands over to the pipeline runs. */
    method Handle(e: Event) returns (response: Response)
      modifies this
      ensures (View(), response) == Step(old(View()), e)
    {
      if e.objectKind != "pipeline" {
        return Ignored;
      }
      var statusFlag := FlagOf(e.status);
      var url := UrlOf(e);

      match OneOrNone(LogIds(buildLogs, e.pipelineId)) {
        case ManyRows => return Raised;
        case OneRow(id) =>
          var log := buildLogs[id].(statusFlag := statusFlag, statusText := Some(e.status), pipelineUrl := Some(url));
          if Terminal(e) {
            log := log.(finishedAt := Some(e.finishedAt));
            if log.parentId in imageVersions {
              var version := imageVersions[log.parentId].(statusFlag := statusFlag, statusText := Some(e.status));
              if Succeeded(e) {
                version := version.(succeededAt := Some(e.parentAt));
              }
              imageVersions := imageVersions[log.parentId := version];
            }
          }
          buildLogs := buildLogs[id := log];
          return Updated(Build, id);
        case NoRow =>
      }

      match OneOrNone(LogIds(helmSyncLogs, e.pipelineId)) {
        case ManyRows => return Raised;
        case OneRow(id) =>
          response := HandleHelm(e, id);
          return;
        case NoRow =>
      }

      match OneOrNone(LogIds(dockerSyncLogs, e.pipelineId)) {
        case ManyRows => return Raised;
        case OneRow(id) =>
          var log := dockerSyncLogs[id].(statusFlag := statusFlag, statusText := Some(e.status),
                                         pipelineUrl := Some(url));
          if Terminal(e) {
            log := log.(finishedAt := Some(e.finishedAt));
            if log.parentId in dockerImageSources {
              var source := dockerImageSources[log.parentId].(statusFlag := statusFlag, statusText := Some(e.status));
              if Succeeded(e) {
                source := source.(succeededAt := Some(e.parentAt));
              }
              dockerImageSources := dockerImageSources[log.parentId := source];
            }
          }
          dockerSyncLogs := dockerSyncLogs[id := log];
          return Updated(Docker, id);
        case NoRow =>
      }
      response := PassedOn;
    }

    /** The helm branch; a second matching chart version raises before the commit. */
    method HandleHelm(e: Event, id: nat) returns (response: Response)
      requires id in helmSyncLogs
      modifies this`helmSyncLogs, this`helmChartSources, this`helmChartVersions
      ensures match UpdateLog(old(View()), e, Helm, id)
        case Failure(_) => response == Raised && View() == old(View())
        case Success(t) => response == Updated(Helm, id) && View() == t
    {
      var logs, sources := helmSyncLogs, helmChartSources;
      var log := helmSyncLogs[id].(statusFlag := FlagOf(e.status), statusText := Some(e.status),
                                   pipelineUrl := Some(UrlOf(e)));
      if Terminal(e) {
        log := log.(finishedAt := Some(e.finishedAt));
        if log.parentId in helmChartSources {
          var source := helmChartSources[log.parentId].(statusFlag := FlagOf(e.status), statusText := Some(e.status));
          if Succeeded(e) {
            source := source.(succeededAt := Some(e.parentAt));
          }
          helmChartSources := helmChartSources[log.parentId := source];
        }
      }
      helmSyncLogs := helmSyncLogs[id := log];
      if Terminal(e) && Succeeded(e) && Present(log.chartName) && Present(log.chartVersion) {
        var versions := OneOrNone(ChartIds(helmChartVersions, log));
        match versions {
          case NoRow =>
          case ManyRows =>
            helmSyncLogs, helmChartSources := logs, sources;
            return Raised;
          case OneRow(v) =>
            helmChartVersions := helmChartVersions[v := ApplyToChart(e, helmChartVersions[v])];
        }
      }
      response := Updated(Helm, id);
    }
  }
}
