/** Whole histories of webhook deliveries: what every log, parent and chart version ends up as,
    and which reorderings of deliveries are invisible. */
module WebhookHistory {
  import opened Wrappers
  import opened ProviderSchema
  import opened WebhookModel

  // ----- Deliveries never change where deliveries go

  /** Same rows with the same identifying columns; only status columns may differ. */
  ghost predicate SameShape(s: Tables, t: Tables) {
    && (forall k :: Logs(s, k).Keys == Logs(t, k).Keys && Parents(s, k).Keys == Parents(t, k).Keys)
    && (forall k, i :: i in Logs(s, k) && i in Logs(t, k) ==> SameIdentity(Logs(s, k)[i], Logs(t, k)[i]))
    && s.chartVersions.Keys == t.chartVersions.Keys
    && (forall v :: v in s.chartVersions && v in t.chartVersions ==> SameChart(s.chartVersions[v], t.chartVersions[v]))
  }

  predicate SameIdentity(a: Log, b: Log) {
    a.parentId == b.parentId && a.pipelineId == b.pipelineId && a.chartName == b.chartName
        && a.chartVersion == b.chartVersion
  }

  predicate SameChart(a: ChartVersion, b: ChartVersion) {
    a.sourceId == b.sourceId && a.chartName == b.chartName && a.version == b.version
  }

  lemma SetLog(t: Tables, k: Kind, id: nat, log: Log)
    ensures Logs(WithLog(t, k, id, log), k) == Logs(t, k)[id := log]
    ensures forall j :: j != k ==> Logs(WithLog(t, k, id, log), j) == Logs(t, j)
    ensures forall j :: Parents(WithLog(t, k, id, log), j) == Parents(t, j)
    ensures WithLog(t, k, id, log).chartVersions == t.chartVersions
  {
  }

  lemma SetParent(t: Tables, k: Kind, id: nat, parent: Parent)
    ensures Parents(WithParent(t, k, id, parent), k) == Parents(t, k)[id := parent]
    ensures forall j :: j != k ==> Parents(WithParent(t, k, id, parent), j) == Parents(t, j)
    ensures forall j :: Logs(WithParent(t, k, id, parent), j) == Logs(t, j)
    ensures WithParent(t, k, id, parent).chartVersions == t.chartVersions
  {
  }

  /** Everything a delivery changes, given the log it takes effect on. */
  ghost predicate Changed(t: Tables, u: Tables, e: Event, k: Kind, id: nat)
    requires id in Logs(t, k)
  {
    var log := Logs(t, k)[id];
    && Logs(u, k) == Logs(t, k)[id := ApplyToLog(e, log)]
    && (forall j :: j != k ==> Logs(u, j) == Logs(t, j) && Parents(u, j) == Parents(t, j))
    && Parents(u, k) == (if Terminal(e) && log.parentId in Parents(t, k)
                         then Parents(t, k)[log.parentId := ApplyToParent(e, Parents(t, k)[log.parentId])]
                             else Parents(t, k))
    && u.chartVersions == (match MarkedChart(t, e, k, log)
                           case OneRow(v) => t.chartVersions[v := ApplyToChart(e, t.chartVersions[v])]
                           case _ => t.chartVersions)
  }

  lemma {:induction false} UpdateChanges(t: Tables, e: Event, k: Kind, id: nat)
    requires id in Logs(t, k) && UpdateLog(t, e, k, id).Success?
    ensures Changed(t, UpdateLog(t, e, k, id).value, e, k, id)
  {
    var log := Logs(t, k)[id];
    var logged := WithLog(t, k, id, ApplyToLog(e, log));
    SetLog(t, k, id, ApplyToLog(e, log));
    if log.parentId in Parents(t, k) {
      SetParent(logged, k, log.parentId, ApplyToParent(e, Parents(t, k)[log.parentId]));
    }
  }

  /** A delivery changes nothing, or what its effect says. */
  lemma {:induction false} StepChanges(t: Tables, e: Event)
    ensures var r := Effect(t, e);
      if r.Routed? then r.id in Logs(t, r.kind) && Changed(t, Step(t, e).0, e, r.kind, r.id) else Step(t, e).0 == t
  {
    RouteFound(t, e.pipelineId);
    var r := RouteOf(t, e.pipelineId);
    if e.objectKind == "pipeline" && r.Routed? && UpdateLog(t, e, r.kind, r.id).Success? {
      UpdateChanges(t, e, r.kind, r.id);
    }
  }

  lemma {:induction false} ChangedKeepsShape(t: Tables, u: Tables, e: Event, k: Kind, id: nat)
    requires id in Logs(t, k) && Changed(t, u, e, k, id)
    ensures SameShape(t, u)
  {
    forall j ensures Logs(t, j).Keys == Logs(u, j).Keys && Parents(t, j).Keys == Parents(u, j).Keys {
      if j != k { assert Logs(u, j) == Logs(t, j); }
    }
    forall j, i | i in Logs(t, j) && i in Logs(u, j) ensures SameIdentity(Logs(t, j)[i], Logs(u, j)[i]) {
      if j != k { assert Logs(u, j) == Logs(t, j); }
    }
  }

  lemma {:induction false} StepKeepsShape(t: Tables, e: Event)
    ensures SameShape(t, Step(t, e).0)
  {
    StepChanges(t, e);
    var r := Effect(t, e);
    if r.Routed? {
      ChangedKeepsShape(t, Step(t, e).0, e, r.kind, r.id);
    }
  }

  lemma {:induction false} RunKeepsShape(t: Tables, events: seq<Event>)
    ensures SameShape(t, Run(t, events))
  {
    if events != [] {
      var init := Run(t, events[..|events| - 1]);
      RunKeepsShape(t, events[..|events| - 1]);
      StepKeepsShape(init, events[|events| - 1]);
      ShapeTransitive(t, init, Run(t, events));
    }
  }

  lemma ShapeTransitive(s: Tables, t: Tables, u: Tables)
    requires SameShape(s, t) && SameShape(t, u)
    ensures SameShape(s, u)
  {
    forall k, i | i in Logs(s, k) && i in Logs(u, k) ensures SameIdentity(Logs(s, k)[i], Logs(u, k)[i]) {
      assert i in Logs(t, k);
    }
    forall v | v in s.chartVersions && v in u.chartVersions ensures SameChart(s.chartVersions[v], u.chartVersions[v]) {
      assert v in t.chartVersions;
    }
  }

  lemma RouteStable(s: Tables, t: Tables, pipelineId: string)
    requires SameShape(s, t)
    ensures RouteOf(s, pipelineId) == RouteOf(t, pipelineId)
  {
    forall k ensures LogIds(Logs(s, k), pipelineId) == LogIds(Logs(t, k), pipelineId) {
      forall i | i in Logs(s, k) ensures i in LogIds(Logs(s, k), pipelineId) <==> i in LogIds(Logs(t, k), pipelineId) {
        assert SameIdentity(Logs(s, k)[i], Logs(t, k)[i]);
      }
    }
    assert Logs(s, Build) == s.buildLogs && Logs(s, Helm) == s.helmLogs && Logs(s, Docker) == s.dockerLogs;
    assert Logs(t, Build) == t.buildLogs && Logs(t, Helm) == t.helmLogs && Logs(t, Docker) == t.dockerLogs;
  }

  /** The log a delivery takes effect on; none when it is ignored, passed on or raises. */
  function Effect(t: Tables, e: Event): Route {
    if e.objectKind != "pipeline" then Unrouted
    else
      RouteFound(t, e.pipelineId);
      var r := RouteOf(t, e.pipelineId);
      if r.Routed? && MarkedChart(t, e, r.kind, Logs(t, r.kind)[r.id]).ManyRows? then Ambiguous else r
  }

  lemma MarkedStable(s: Tables, t: Tables, e: Event, k: Kind, a: Log, b: Log)
    requires SameShape(s, t) && SameIdentity(a, b)
    ensures MarkedChart(s, e, k, a) == MarkedChart(t, e, k, b)
  {
    if Present(a.chartName) && Present(a.chartVersion) {
      forall v | v in s.chartVersions ensures v in ChartIds(s.chartVersions, a) <==> v in ChartIds(t.chartVersions, b) {
        assert SameChart(s.chartVersions[v], t.chartVersions[v]);
      }
      assert ChartIds(s.chartVersions, a) == ChartIds(t.chartVersions, b);
    }
  }

  lemma EffectStable(s: Tables, t: Tables, e: Event)
    requires SameShape(s, t)
    ensures Effect(s, e) == Effect(t, e)
  {
    if e.objectKind == "pipeline" {
      RouteStable(s, t, e.pipelineId);
      RouteFound(s, e.pipelineId);
      RouteFound(t, e.pipelineId);
      var r := RouteOf(s, e.pipelineId);
      if r.Routed? {
        MarkedStable(s, t, e, r.kind, Logs(s, r.kind)[r.id], Logs(t, r.kind)[r.id]);
      }
    }
  }

  lemma EffectFound(t: Tables, e: Event)
    ensures var r := Effect(t, e);
      r.Routed? ==>
        && e.objectKind == "pipeline"
        && r.id in Logs(t, r.kind) && Logs(t, r.kind)[r.id].pipelineId == Some(e.pipelineId)
  {
  }

  // ----- Where a delivery goes, in columns

  predicate NoLog(logs: map<nat, Log>, pipelineId: string) {
    forall i :: i in logs ==> logs[i].pipelineId != Some(pipelineId)
  }

  predicate OnlyLog(logs: map<nat, Log>, pipelineId: string, id: nat) {
    id in logs && forall i :: i in logs ==> (logs[i].pipelineId == Some(pipelineId) <==> i == id)
  }

  /** Two chart versions answer to the log's chart. */
  predicate TwoVersions(t: Tables, log: Log) {
    && log.chartName.Some? && log.chartVersion.Some? && log.chartName.value != "" && log.chartVersion.value != ""
    && exists v, w :: v in t.chartVersions && w in t.chartVersions && v != w
                      && AnswersTo(t.chartVersions[v], log) && AnswersTo(t.chartVersions[w], log)
  }

  predicate AnswersTo(chart: ChartVersion, log: Log) {
    && chart.sourceId == log.parentId
    && Some(chart.chartName) == log.chartName && Some(chart.version) == log.chartVersion
  }

  lemma OnlyLogFound(logs: map<nat, Log>, pipelineId: string, id: nat)
    ensures OneOrNone(LogIds(logs, pipelineId)) == OneRow(id) <==> OnlyLog(logs, pipelineId, id)
    ensures OneOrNone(LogIds(logs, pipelineId)) == NoRow <==> NoLog(logs, pipelineId)
  {
    var ids := LogIds(logs, pipelineId);
    assert forall i :: i in ids <==> i in logs && logs[i].pipelineId == Some(pipelineId);
    if OnlyLog(logs, pipelineId, id) {
      assert ids == {id};
    }
    if ids == {id} {
      assert forall i :: i in ids ==> i == id;
    }
    if ids != {} {
      assert LeastOf(ids) in ids;
    }
  }

  lemma ManyVersions(t: Tables, log: Log)
    requires Present(log.chartName) && Present(log.chartVersion)
    ensures OneOrNone(ChartIds(t.chartVersions, log)).ManyRows? <==> TwoVersions(t, log)
  {
    var ids := ChartIds(t.chartVersions, log);
    assert forall v :: v in ids <==> v in t.chartVersions && AnswersTo(t.chartVersions[v], log);
    if OneOrNone(ids).ManyRows? {
      var v := LeastOf(ids);
      assert ids == {v} + (ids - {v});
      var w :| w in ids - {v};
    }
  }

  /** A delivery takes effect on the only build log of its pipeline; where there is no build log,
      on the only helm log; where there is neither, on the only docker log; and on a helm log not,
      when a success finds two versions of its chart. */
  lemma {:induction false} RoutedExactly(t: Tables, e: Event, id: nat)
    ensures Effect(t, e) == Routed(Build, id) <==>
      e.objectKind == "pipeline" && OnlyLog(t.buildLogs, e.pipelineId, id)
    ensures Effect(t, e) == Routed(Helm, id) <==>
      && e.objectKind == "pipeline" && NoLog(t.buildLogs, e.pipelineId) && OnlyLog(t.helmLogs, e.pipelineId, id)
      && !(e.status == "success" && TwoVersions(t, t.helmLogs[id]))
    ensures Effect(t, e) == Routed(Docker, id) <==>
      && e.objectKind == "pipeline" && NoLog(t.buildLogs, e.pipelineId) && NoLog(t.helmLogs, e.pipelineId)
      && OnlyLog(t.dockerLogs, e.pipelineId, id)
  {
    hide LogIds, OneOrNone, ChartIds, OnlyLog, NoLog, TwoVersions;
    OnlyLogFound(t.buildLogs, e.pipelineId, id);
    OnlyLogFound(t.helmLogs, e.pipelineId, id);
    OnlyLogFound(t.dockerLogs, e.pipelineId, id);
    RouteFound(t, e.pipelineId);
    var r := RouteOf(t, e.pipelineId);
    if r == Routed(Helm, id) {
      assert Logs(t, Helm)[id] == t.helmLogs[id];
      if Present(t.helmLogs[id].chartName) && Present(t.helmLogs[id].chartVersion) {
        ManyVersions(t, t.helmLogs[id]);
      } else {
        NotTwoVersions(t, t.helmLogs[id]);
      }
    }
  }

  lemma NotTwoVersions(t: Tables, log: Log)
    requires !Present(log.chartName) || !Present(log.chartVersion)
    ensures !TwoVersions(t, log)
  {
  }

  /** The answer says what happened: the log updated, a foreign event ignored, an unknown pipeline
      passed on, and else an error that changed nothing. */
  lemma {:induction false} AnswerExactly(t: Tables, e: Event)
    ensures var (u, answer) := Step(t, e);
      && (answer == Ignored <==> e.objectKind != "pipeline")
      && (answer == PassedOn <==>
            && e.objectKind == "pipeline" && NoLog(t.buildLogs, e.pipelineId)
            && NoLog(t.helmLogs, e.pipelineId) && NoLog(t.dockerLogs, e.pipelineId))
      && (forall k, id :: answer == Updated(k, id) <==> Effect(t, e) == Routed(k, id))
      && (!answer.Updated? ==> u == t)
  {
    hide LogIds, OneOrNone, ChartIds, OnlyLog, NoLog;
    OnlyLogFound(t.buildLogs, e.pipelineId, 0);
    OnlyLogFound(t.helmLogs, e.pipelineId, 0);
    OnlyLogFound(t.dockerLogs, e.pipelineId, 0);
    RouteFound(t, e.pipelineId);
  }

  // ----- Logs

  /** The deliveries that take effect on one log. */
  function EventsOfLog(t: Tables, events: seq<Event>, k: Kind, id: nat): seq<Event> {
    if events == [] then []
    else
      var e := events[|events| - 1];
      EventsOfLog(t, events[..|events| - 1], k, id) + (if Effect(t, e) == Routed(k, id) then [e] else [])
  }

  function FoldLog(log: Log, events: seq<Event>): Log {
    if events == [] then log else ApplyToLog(events[|events| - 1], FoldLog(log, events[..|events| - 1]))
  }

  lemma {:induction false} StepLog(t: Tables, e: Event, k: Kind, id: nat)
    requires id in Logs(t, k)
    ensures id in Logs(Step(t, e).0, k)
    ensures Logs(Step(t, e).0, k)[id] ==
      if Effect(t, e) == Routed(k, id) then ApplyToLog(e, Logs(t, k)[id]) else Logs(t, k)[id]
  {
    StepChanges(t, e);
    var r := Effect(t, e);
    if r.Routed? {
      ChangedLog(t, Step(t, e).0, e, r.kind, r.id, k, id);
    }
  }

  lemma ChangedLog(t: Tables, u: Tables, e: Event, k: Kind, id: nat, j: Kind, i: nat)
    requires id in Logs(t, k) && Changed(t, u, e, k, id) && i in Logs(t, j)
    ensures i in Logs(u, j)
    ensures Logs(u, j)[i] == if (j, i) == (k, id) then ApplyToLog(e, Logs(t, j)[i]) else Logs(t, j)[i]
  {
  }

  /** After any history every log is the fold of the deliveries routed to it, and of no others. */
  lemma {:induction false} LogIsFold(t: Tables, events: seq<Event>, k: Kind, id: nat)
    requires id in Logs(t, k)
    ensures id in Logs(Run(t, events), k)
    ensures Logs(Run(t, events), k)[id] == FoldLog(Logs(t, k)[id], EventsOfLog(t, events, k, id))
  {
    if events != [] {
      var init, e := events[..|events| - 1], events[|events| - 1];
      LogIsFold(t, init, k, id);
      RunKeepsShape(t, init);
      EffectStable(t, Run(t, init), e);
      StepLog(Run(t, init), e, k, id);
      var before := EventsOfLog(t, init, k, id);
      if Effect(t, e) == Routed(k, id) {
        assert (before + [e])[..|before|] == before;
      } else {
        assert before + [] == before;
      }
    }
  }

  /** Folding deliveries into a log keeps the status of the last one and the time of the last
      terminal one. */
  lemma {:induction false} FoldLogLast(log: Log, events: seq<Event>)
    ensures SameIdentity(log, FoldLog(log, events))
    ensures events == [] ==> FoldLog(log, events) == log
    ensures events != [] ==> ShowsStatusOf(FoldLog(log, events), events[|events| - 1])
    ensures (forall i :: 0 <= i < |events| ==> !Ends(events[i])) ==>
      FoldLog(log, events).finishedAt == log.finishedAt
    ensures forall i :: 0 <= i < |events| && LastTerminal(events, i) ==>
      FoldLog(log, events).finishedAt == Some(events[i].finishedAt)
  {
    hide ApplyToLog, ShowsStatusOf, Ends, SameIdentity, LastTerminal;
    SameLog(log);
    if events != [] {
      var n := |events| - 1;
      var init := events[..n];
      FoldLogLast(log, init);
      Shown(log, events[n], FoldLog(log, init));
      assert forall i :: 0 <= i < n ==> init[i] == events[i];
      forall i | 0 <= i < |events| && LastTerminal(events, i)
        ensures FoldLog(log, events).finishedAt == Some(events[i].finishedAt)
      {
        LastTerminalStep(events, i);
      }
    }
  }

  lemma SameLog(log: Log)
    ensures SameIdentity(log, log)
  {
  }

  /** One delivery on top of what a log has become. */
  lemma Shown(log: Log, e: Event, before: Log)
    requires SameIdentity(log, before)
    ensures SameIdentity(log, ApplyToLog(e, before)) && ShowsStatusOf(ApplyToLog(e, before), e)
    ensures ApplyToLog(e, before).finishedAt == if Ends(e) then Some(e.finishedAt) else before.finishedAt
  {
  }

  lemma LastTerminalStep(events: seq<Event>, i: nat)
    requires i < |events| && LastTerminal(events, i)
    ensures var n := |events| - 1; if i == n then Ends(events[n]) else !Ends(events[n]) && LastTerminal(events[..n], i)
  {
  }

  /** The log shows the delivery: its status text, the flag that belongs to it, and its address. */
  predicate ShowsStatusOf(log: Log, e: Event) {
    && log.statusText == Some(e.status)
    && log.statusFlag in {0, 1, 2, 3, 4}
    && (log.statusFlag == 0 <==> e.status == "success")
    && (log.statusFlag == 1 <==> e.status == "failed" || e.status == "canceled")
    && (log.statusFlag == 2 <==> e.status == "warning" || e.status == "skipped")
    && (log.statusFlag == 3 <==> e.status == "running")
    && log.pipelineUrl == Some(e.webUrl + "/-/pipelines/" + e.pipelineId)
  }

  /** The delivery reports the end of its pipeline. */
  predicate Ends(e: Event) {
    e.status == "success" || e.status == "failed" || e.status == "canceled"
  }

  predicate LastTerminal(events: seq<Event>, i: nat)
    requires i < |events|
  {
    Ends(events[i]) && forall j :: i < j < |events| ==> !Ends(events[j])
  }

  /** After any history a log shows status, flag and address of the last delivery routed to it,
      and the time of the last terminal one; without such deliveries it is as it was. */
  lemma {:induction false} LogAfterHistory(t: Tables, events: seq<Event>, k: Kind, id: nat)
    requires id in Logs(t, k)
    ensures id in Logs(Run(t, events), k)
    ensures var mine := EventsOfLog(t, events, k, id);
      var before, after := Logs(t, k)[id], Logs(Run(t, events), k)[id];
      && SameIdentity(before, after)
      && (mine == [] ==> after == before)
      && (mine != [] ==> ShowsStatusOf(after, mine[|mine| - 1]))
      && ((forall i :: 0 <= i < |mine| ==> !Ends(mine[i])) ==> after.finishedAt == before.finishedAt)
      && (forall i :: 0 <= i < |mine| && LastTerminal(mine, i) ==> after.finishedAt == Some(mine[i].finishedAt))
  {
    LogIsFold(t, events, k, id);
    FoldLogLast(Logs(t, k)[id], EventsOfLog(t, events, k, id));
  }

  /** The pipeline deliveries that carry one pipeline id, in order. */
  function ForPipeline(events: seq<Event>, pipelineId: string): seq<Event> {
    if events == [] then []
    else
      var e := events[|events| - 1];
      ForPipeline(events[..|events| - 1], pipelineId)
      + (if e.objectKind == "pipeline" && e.pipelineId == pipelineId then [e] else [])
  }

  lemma {:induction false} EventsOfLogByPipeline(t: Tables, events: seq<Event>, k: Kind, id: nat, pipelineId: string)
    requires id in Logs(t, k) && Logs(t, k)[id].pipelineId == Some(pipelineId)
    ensures EventsOfLog(t, events, k, id) == EventsOfLog(t, ForPipeline(events, pipelineId), k, id)
  {
    if events != [] {
      var init, e := events[..|events| - 1], events[|events| - 1];
      EventsOfLogByPipeline(t, init, k, id, pipelineId);
      EffectFound(t, e);
      var mine := ForPipeline(init, pipelineId);
      if e.objectKind == "pipeline" && e.pipelineId == pipelineId {
        assert (mine + [e])[..|mine|] == mine;
      } else {
        assert mine + [] == mine;
        assert EventsOfLog(t, init, k, id) + [] == EventsOfLog(t, init, k, id);
      }
    }
  }

  lemma {:induction false} NoPipelineNoEvents(t: Tables, events: seq<Event>, k: Kind, id: nat)
    requires id in Logs(t, k) && Logs(t, k)[id].pipelineId.None?
    ensures EventsOfLog(t, events, k, id) == []
  {
    if events != [] {
      NoPipelineNoEvents(t, events[..|events| - 1], k, id);
      EffectFound(t, events[|events| - 1]);
    }
  }

  /** Two interleavings with the same deliveries per pipeline, each in its order, end in the
      same log tables. */
  lemma {:induction false} InterleavingInvisible(t: Tables, a: seq<Event>, b: seq<Event>)
    requires forall pipelineId :: ForPipeline(a, pipelineId) == ForPipeline(b, pipelineId)
    ensures forall k :: Logs(Run(t, a), k) == Logs(Run(t, b), k)
  {
    RunKeepsShape(t, a);
    RunKeepsShape(t, b);
    forall k, id | id in Logs(t, k) ensures Logs(Run(t, a), k)[id] == Logs(Run(t, b), k)[id] {
      LogIsFold(t, a, k, id);
      LogIsFold(t, b, k, id);
      match Logs(t, k)[id].pipelineId {
        case None =>
          NoPipelineNoEvents(t, a, k, id);
          NoPipelineNoEvents(t, b, k, id);
        case Some(p) =>
          EventsOfLogByPipeline(t, a, k, id, p);
          EventsOfLogByPipeline(t, b, k, id, p);
      }
    }
  }

  // ----- Parents

  /** The delivery takes effect on a log of kind `k` whose parent is `id`, and is terminal. */
  predicate TouchesParent(t: Tables, e: Event, k: Kind, id: nat) {
    EffectFound(t, e);
    var r := Effect(t, e);
    r.Routed? && r.kind == k && Logs(t, k)[r.id].parentId == id && Ends(e)
  }

  function EventsOfParent(t: Tables, events: seq<Event>, k: Kind, id: nat): seq<Event> {
    if events == [] then []
    else
      var e := events[|events| - 1];
      EventsOfParent(t, events[..|events| - 1], k, id) + (if TouchesParent(t, e, k, id) then [e] else [])
  }

  function FoldParent(parent: Parent, events: seq<Event>): Parent {
    if events == [] then parent else ApplyToParent(events[|events| - 1], FoldParent(parent, events[..|events| - 1]))
  }

  lemma {:induction false} StepParent(t: Tables, e: Event, k: Kind, id: nat)
    requires id in Parents(t, k)
    ensures id in Parents(Step(t, e).0, k)
    ensures Parents(Step(t, e).0, k)[id] ==
      if TouchesParent(t, e, k, id) then ApplyToParent(e, Parents(t, k)[id]) else Parents(t, k)[id]
  {
    StepChanges(t, e);
    EffectFound(t, e);
    var r := Effect(t, e);
    if r.Routed? {
      ChangedParent(t, Step(t, e).0, e, r.kind, r.id, k, id);
    }
  }

  lemma ChangedParent(t: Tables, u: Tables, e: Event, k: Kind, id: nat, j: Kind, i: nat)
    requires id in Logs(t, k) && Changed(t, u, e, k, id) && i in Parents(t, j)
    ensures i in Parents(u, j)
    ensures Parents(u, j)[i] ==
      if j == k && Logs(t, k)[id].parentId == i && Terminal(e) then ApplyToParent(e, Parents(t, j)[i])
          else Parents(t, j)[i]
  {
  }

  lemma TouchesStable(s: Tables, t: Tables, e: Event, k: Kind, id: nat)
    requires SameShape(s, t)
    ensures TouchesParent(s, e, k, id) <==> TouchesParent(t, e, k, id)
  {
    EffectStable(s, t, e);
    EffectFound(s, e);
    EffectFound(t, e);
    var r := Effect(s, e);
    if r.Routed? {
      assert SameIdentity(Logs(s, r.kind)[r.id], Logs(t, r.kind)[r.id]);
    }
  }

  /** Every parent is the fold of the terminal deliveries over all of its logs. */
  lemma {:induction false} ParentIsFold(t: Tables, events: seq<Event>, k: Kind, id: nat)
    requires id in Parents(t, k)
    ensures id in Parents(Run(t, events), k)
    ensures Parents(Run(t, events), k)[id] == FoldParent(Parents(t, k)[id], EventsOfParent(t, events, k, id))
  {
    if events != [] {
      var init, e := events[..|events| - 1], events[|events| - 1];
      ParentIsFold(t, init, k, id);
      RunKeepsShape(t, init);
      TouchesStable(t, Run(t, init), e, k, id);
      StepParent(Run(t, init), e, k, id);
      var before := EventsOfParent(t, init, k, id);
      if TouchesParent(t, e, k, id) {
        assert (before + [e])[..|before|] == before;
      } else {
        assert before + [] == before;
      }
    }
  }

  lemma {:induction false} EventsOfParentTerminal(t: Tables, events: seq<Event>, k: Kind, id: nat)
    ensures forall i :: 0 <= i < |EventsOfParent(t, events, k, id)| ==> Ends(EventsOfParent(t, events, k, id)[i])
  {
    if events != [] {
      EventsOfParentTerminal(t, events[..|events| - 1], k, id);
    }
  }

  predicate LastSuccess(events: seq<Event>, i: nat)
    requires i < |events|
  {
    events[i].status == "success" && forall j :: i < j < |events| ==> events[j].status != "success"
  }

  lemma {:induction false} FoldParentLast(parent: Parent, events: seq<Event>)
    ensures events != [] ==>
      FoldParent(parent, events).statusText == Some(events[|events| - 1].status)
      && FoldParent(parent, events).statusFlag == FlagOf(events[|events| - 1].status)
    ensures (forall i :: 0 <= i < |events| ==> events[i].status != "success") ==>
      FoldParent(parent, events).succeededAt == parent.succeededAt
    ensures forall i :: 0 <= i < |events| && LastSuccess(events, i) ==>
      FoldParent(parent, events).succeededAt == Some(events[i].parentAt)
  {
    hide FlagOf;
    if events != [] {
      var n := |events| - 1;
      var init := events[..n];
      FoldParentLast(parent, init);
      assert forall i :: 0 <= i < n ==> init[i] == events[i];
      ParentTakes(FoldParent(parent, init), events[n]);
      assert forall i :: 0 <= i < n && LastSuccess(events, i) ==> LastSuccess(init, i);
    }
  }

  lemma ParentTakes(parent: Parent, e: Event)
    ensures var after := ApplyToParent(e, parent);
      && after.statusText == Some(e.status) && after.statusFlag == FlagOf(e.status)
      && after.succeededAt == if e.status == "success" then Some(e.parentAt) else parent.succeededAt
  {
    hide FlagOf;
  }

  /** A parent touched by a history carries the status of the last terminal delivery over all of
      its logs, flag 0 or 1; its success time is that of the last success, if there was one. */
  lemma {:induction false} ParentAfterHistory(t: Tables, events: seq<Event>, k: Kind, id: nat)
    requires id in Parents(t, k)
    ensures id in Parents(Run(t, events), k)
    ensures var mine := EventsOfParent(t, events, k, id);
      var before, after := Parents(t, k)[id], Parents(Run(t, events), k)[id];
      && (mine == [] ==> after == before)
      && (mine != [] ==> after.statusText == Some(mine[|mine| - 1].status) && after.statusFlag in {0, 1}
                         && (after.statusFlag == 0 <==> mine[|mine| - 1].status == "success"))
      && ((forall i :: 0 <= i < |mine| ==> mine[i].status != "success") ==> after.succeededAt == before.succeededAt)
      && (forall i :: 0 <= i < |mine| && LastSuccess(mine, i) ==> after.succeededAt == Some(mine[i].parentAt))
  {
    ParentIsFold(t, events, k, id);
    EventsOfParentTerminal(t, events, k, id);
    FoldParentLast(Parents(t, k)[id], EventsOfParent(t, events, k, id));
  }

  /** Parents, unlike logs, see the order across pipelines: two builds of one version, one
      successful and one failed, leave it in the state of whichever reported last. */
  lemma ParentsSeeInterleaving(version: nat, success: Event, failure: Event)
    requires success.objectKind == failure.objectKind == "pipeline"
    requires success.status == "success" && failure.status == "failed" && success.pipelineId != failure.pipelineId
    ensures var t := TwoBuilds(version, success.pipelineId, failure.pipelineId);
      && version in Parents(Run(t, [success, failure]), Build) && version in Parents(Run(t, [failure, success]), Build)
      && Parents(Run(t, [success, failure]), Build)[version].statusFlag == 1
      && Parents(Run(t, [failure, success]), Build)[version].statusFlag == 0
  {
    var t := TwoBuilds(version, success.pipelineId, failure.pipelineId);
    TwoBuildsRoutes(version, success.pipelineId, failure.pipelineId);
    assert Effect(t, success) == Routed(Build, 0) && Effect(t, failure) == Routed(Build, 1);
    assert TouchesParent(t, success, Build, version) && TouchesParent(t, failure, Build, version);
    TwoEvents(t, success, failure, version);
    TwoEvents(t, failure, success, version);
  }

  function TwoBuilds(version: nat, p: string, q: string): Tables {
    var log := Log(version, Some(p), None, None, None, 4, None, None);
    Tables(map[0 := log, 1 := log.(pipelineId := Some(q))], map[], map[],
           map[version := Parent(4, None, None)], map[], map[], map[])
  }

  lemma TwoBuildsRoutes(version: nat, p: string, q: string)
    requires p != q
    ensures RouteOf(TwoBuilds(version, p, q), p) == Routed(Build, 0)
    ensures RouteOf(TwoBuilds(version, p, q), q) == Routed(Build, 1)
  {
    var t := TwoBuilds(version, p, q);
    assert LogIds(t.buildLogs, p) == {0};
    assert LogIds(t.buildLogs, q) == {1};
  }

  lemma TwoEvents(t: Tables, a: Event, b: Event, id: nat)
    requires id in Parents(t, Build) && TouchesParent(t, a, Build, id) && TouchesParent(t, b, Build, id)
    ensures id in Parents(Run(t, [a, b]), Build)
    ensures Parents(Run(t, [a, b]), Build)[id].statusFlag == FlagOf(b.status)
  {
    assert [a, b][..1] == [a] && [a][..0] == [];
    assert EventsOfParent(t, [a], Build, id) == [a];
    assert EventsOfParent(t, [a, b], Build, id) == [a, b];
    ParentIsFold(t, [a, b], Build, id);
    FoldParentLast(Parents(t, Build)[id], [a, b]);
  }

  // ----- Chart versions

  /** The delivery is a success that takes effect on a helm log naming this chart version. */
  predicate MarksChart(t: Tables, e: Event, v: nat) {
    EffectFound(t, e);
    var r := Effect(t, e);
    r.Routed? && MarkedChart(t, e, r.kind, Logs(t, r.kind)[r.id]) == OneRow(v)
  }

  lemma MarksStable(s: Tables, t: Tables, e: Event, v: nat)
    requires SameShape(s, t)
    ensures MarksChart(s, e, v) <==> MarksChart(t, e, v)
  {
    EffectStable(s, t, e);
    EffectFound(s, e);
    EffectFound(t, e);
    var r := Effect(s, e);
    if r.Routed? {
      MarkedStable(s, t, e, r.kind, Logs(s, r.kind)[r.id], Logs(t, r.kind)[r.id]);
    }
  }

  lemma {:induction false} StepChart(t: Tables, e: Event, v: nat)
    requires v in t.chartVersions
    ensures v in Step(t, e).0.chartVersions
    ensures Step(t, e).0.chartVersions[v] ==
      if MarksChart(t, e, v) then ApplyToChart(e, t.chartVersions[v]) else t.chartVersions[v]
  {
    StepChanges(t, e);
    EffectFound(t, e);
  }

  /** The delivery is a success, routed to a helm log whose chart columns are both set and name
      this chart version of the log's source. */
  predicate NamesChart(t: Tables, e: Event, v: nat)
    requires v in t.chartVersions
  {
    EffectFound(t, e);
    var r := Effect(t, e);
    && r.Routed? && r.kind == Helm && e.status == "success"
    && var log, chart := t.helmLogs[r.id], t.chartVersions[v];
       && Present(log.chartName) && Present(log.chartVersion)
       && log.parentId == chart.sourceId && log.chartName.value == chart.chartName
           && log.chartVersion.value == chart.version
  }

  lemma {:induction false} MarksIfNamed(t: Tables, e: Event, v: nat)
    requires v in t.chartVersions
    ensures MarksChart(t, e, v) <==> NamesChart(t, e, v)
  {
    EffectFound(t, e);
    var r := Effect(t, e);
    if r.Routed? && r.kind == Helm && Succeeded(e) {
      var log := t.helmLogs[r.id];
      if Present(log.chartName) && Present(log.chartVersion) {
        assert v in ChartIds(t.chartVersions, log) <==> NamesChart(t, e, v);
      }
    }
  }

  /** A chart version is synced after a history exactly when it was before, or some delivery was
      a success for a helm log whose chart name and version, both set, name it. */
  lemma {:induction false} SyncedExactly(t: Tables, events: seq<Event>, v: nat)
    requires v in t.chartVersions
    ensures v in Run(t, events).chartVersions
    ensures Run(t, events).chartVersions[v].isSynced <==>
      t.chartVersions[v].isSynced || exists i :: 0 <= i < |events| && NamesChart(t, events[i], v)
  {
    if events != [] {
      var n := |events| - 1;
      var init := events[..n];
      SyncedExactly(t, init, v);
      RunKeepsShape(t, init);
      MarksStable(t, Run(t, init), events[n], v);
      MarksIfNamed(t, events[n], v);
      StepChart(Run(t, init), events[n], v);
      SomeNamesStep(t, events, v);
    }
  }

  lemma SomeNamesStep(t: Tables, events: seq<Event>, v: nat)
    requires v in t.chartVersions && events != []
    ensures var n := |events| - 1;
      (exists i :: 0 <= i < |events| && NamesChart(t, events[i], v)) <==>
        (exists i :: 0 <= i < n && NamesChart(t, events[..n][i], v)) || NamesChart(t, events[n], v)
  {
    hide NamesChart;
    var n := |events| - 1;
    assert forall i :: 0 <= i < n ==> events[..n][i] == events[i];
  }

  /** The last delivery that names the chart version. */
  predicate LastNaming(t: Tables, events: seq<Event>, v: nat, i: nat)
    requires v in t.chartVersions && i < |events|
  {
    NamesChart(t, events[i], v) && forall j :: i < j < |events| ==> !NamesChart(t, events[j], v)
  }

  function FoldChart(t: Tables, events: seq<Event>, v: nat): ChartVersion
    requires v in t.chartVersions
  {
    if events == [] then t.chartVersions[v]
    else
      var n := |events| - 1;
      var before := FoldChart(t, events[..n], v);
      if NamesChart(t, events[n], v) then ApplyToChart(events[n], before) else before
  }

  lemma {:induction false} ChartIsFold(t: Tables, events: seq<Event>, v: nat)
    requires v in t.chartVersions
    ensures v in Run(t, events).chartVersions && Run(t, events).chartVersions[v] == FoldChart(t, events, v)
  {
    hide NamesChart, MarksChart, Step, SameShape;
    if events != [] {
      var n := |events| - 1;
      ChartIsFold(t, events[..n], v);
      RunKeepsShape(t, events[..n]);
      MarksStable(t, Run(t, events[..n]), events[n], v);
      MarksIfNamed(t, events[n], v);
      StepChart(Run(t, events[..n]), events[n], v);
    }
  }

  lemma {:induction false} FoldChartLast(t: Tables, events: seq<Event>, v: nat)
    requires v in t.chartVersions
    ensures (forall i :: 0 <= i < |events| ==> !NamesChart(t, events[i], v)) ==>
      FoldChart(t, events, v) == t.chartVersions[v]
    ensures forall i :: 0 <= i < |events| && LastNaming(t, events, v, i) ==>
      FoldChart(t, events, v) == MarkedAt(t.chartVersions[v], events[i].versionAt)
  {
    hide NamesChart, ApplyToChart, MarkedAt, LastNaming, SameChart;
    if events != [] {
      var n := |events| - 1;
      var init := events[..n];
      FoldChartLast(t, init, v);
      assert forall i :: 0 <= i < n ==> init[i] == events[i];
      OnlyMarks(t, init, v);
      Marks(t.chartVersions[v], FoldChart(t, init, v), events[n]);
      forall i | 0 <= i < |events| && LastNaming(t, events, v, i)
        ensures FoldChart(t, events, v) == MarkedAt(t.chartVersions[v], events[i].versionAt)
      {
        LastNamingStep(t, events, v, i);
      }
    }
  }

  lemma LastNamingStep(t: Tables, events: seq<Event>, v: nat, i: nat)
    requires v in t.chartVersions && i < |events| && LastNaming(t, events, v, i)
    ensures var n := |events| - 1;
      if i == n then NamesChart(t, events[n], v)
      else !NamesChart(t, events[n], v) && LastNaming(t, events[..n], v, i)
  {
    hide NamesChart;
  }

  lemma Marks(chart: ChartVersion, before: ChartVersion, e: Event)
    requires SameChart(chart, before)
    ensures ApplyToChart(e, before) == MarkedAt(chart, e.versionAt)
  {
  }

  /** Marking writes four columns. */
  function MarkedAt(chart: ChartVersion, at: Timestamp): ChartVersion {
    ChartVersion(chart.sourceId, chart.chartName, chart.version, true, 0, Some("Synced"), Some(at))
  }

  lemma {:induction false} OnlyMarks(t: Tables, events: seq<Event>, v: nat)
    requires v in t.chartVersions
    ensures SameChart(t.chartVersions[v], FoldChart(t, events, v))
  {
    hide NamesChart;
    if events != [] {
      OnlyMarks(t, events[..|events| - 1], v);
    }
  }

  /** After any history a chart version is as the last delivery that names it marked it: synced,
      flag 0, "Synced", at that delivery's time; and as it was when none does. */
  lemma {:induction false} ChartAfterHistory(t: Tables, events: seq<Event>, v: nat)
    requires v in t.chartVersions
    ensures v in Run(t, events).chartVersions
    ensures (forall i :: 0 <= i < |events| ==> !NamesChart(t, events[i], v)) ==>
      Run(t, events).chartVersions[v] == t.chartVersions[v]
    ensures forall i :: 0 <= i < |events| && LastNaming(t, events, v, i) ==>
      Run(t, events).chartVersions[v] == MarkedAt(t.chartVersions[v], events[i].versionAt)
  {
    ChartIsFold(t, events, v);
    FoldChartLast(t, events, v);
  }
}
