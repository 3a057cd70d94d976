/** Recovery of tracked task runs: retry, retry-all and requeue by an administrator, interleaved
    with the workers that claim, pulse and finish runs. */
module SyncRuns {
  import opened Wrappers
  import opened ProviderSchema

  datatype Status = Queued | Running | Succeeded | Failed | FailedPermanent | Superseded

  datatype Payload = Payload(args: seq<Json>, kwargs: map<string, Json>)

  datatype SyncRun = SyncRun(
    taskName: string, entityType: Option<string>, entityId: Option<nat>, status: Status,
    attempts: nat, maxAttempts: nat, payload: Option<Payload>,
    heartbeatAt: Option<Timestamp>, createdAt: Option<Timestamp>)

  /** One call of the enqueue helper. */
  datatype Message = Message(taskName: string, args: seq<Json>, kwargs: map<string, Json>, entityType: Option<string>,
                             entityId: Option<nat>)

  /** `writable` tells whether the helper's own best-effort row write gets through. */
  datatype Store = Store(runs: map<nat, SyncRun>, next: nat, enqueued: seq<Message>, writable: bool)

  datatype Response = Done | NotFound | Conflict | UnknownTask | Retried(retried: nat, total: nat)

  const STUCK_AFTER_SECONDS := 5 * 60
  const TASK_MAX_RETRIES := 3

  predicate IsStuck(run: SyncRun, now: Timestamp) {
    if run.status == Queued then run.createdAt.Some? && now - run.createdAt.value >= STUCK_AFTER_SECONDS
    else run.status == Running && run.heartbeatAt.Some? && now - run.heartbeatAt.value >= STUCK_AFTER_SECONDS
  }

  predicate Recoverable(run: SyncRun) {
    run.status in {Failed, FailedPermanent}
  }

  // ----- Enqueueing

  function MessageOf(run: SyncRun): Message {
    var payload := run.payload.GetOr(Payload([], map[]));
    Message(run.taskName, payload.args, payload.kwargs, run.entityType, run.entityId)
  }

  function QueuedRun(m: Message, now: Timestamp): SyncRun {
    SyncRun(m.taskName, m.entityType, m.entityId, Queued, 0, TASK_MAX_RETRIES, Some(Payload(m.args, m.kwargs)), None,
            Some(now))
  }

  function Enqueue(s: Store, m: Message, now: Timestamp): Store {
    var t := s.(enqueued := s.enqueued + [m]);
    if s.writable then t.(runs := s.runs[s.next := QueuedRun(m, now)], next := s.next + 1) else t
  }

  // ----- Administrator actions

  function Retry(s: Store, tasks: set<string>, id: nat, now: Timestamp): (Store, Response) {
    if id !in s.runs then (s, NotFound)
    else if !Recoverable(s.runs[id]) then (s, Conflict)
    else if s.runs[id].taskName !in tasks then (s, UnknownTask)
    else (Enqueue(s, MessageOf(s.runs[id]), now), Done)
  }

  /** The old row is superseded and committed before the task name is looked up. */
  function Requeue(s: Store, tasks: set<string>, id: nat, now: Timestamp): (Store, Response) {
    if id !in s.runs then (s, NotFound)
    else if !IsStuck(s.runs[id], now) then (s, Conflict)
    else
      var t := s.(runs := s.runs[id := s.runs[id].(status := Superseded)]);
      if s.runs[id].taskName !in tasks then (t, UnknownTask)
      else (Enqueue(t, MessageOf(s.runs[id]), now), Done)
  }

  function Ascending(ids: set<nat>): seq<nat> {
    if ids == {} then [] else [LeastOf(ids)] + Ascending(ids - {LeastOf(ids)})
  }

  function FailedPermanentIds(s: Store): set<nat> {
    set i | i in s.runs && s.runs[i].status == FailedPermanent
  }

  /** The messages of the rows whose task name resolves, in scan order. */
  function MessagesOf(runs: map<nat, SyncRun>, tasks: set<string>, ids: seq<nat>): seq<Message>
    requires forall k :: 0 <= k < |ids| ==> ids[k] in runs
  {
    if ids == [] then []
    else
      var run := runs[ids[|ids| - 1]];
      MessagesOf(runs, tasks, ids[..|ids| - 1]) + (if run.taskName in tasks then [MessageOf(run)] else [])
  }

  function EnqueueAll(s: Store, messages: seq<Message>, now: Timestamp): Store {
    if messages == [] then s
    else Enqueue(EnqueueAll(s, messages[..|messages| - 1], now), messages[|messages| - 1], now)
  }

  function RetryAll(s: Store, tasks: set<string>, now: Timestamp): (Store, Response) {
    AscendingSpec(FailedPermanentIds(s));
    var ids := Ascending(FailedPermanentIds(s));
    var messages := MessagesOf(s.runs, tasks, ids);
    (EnqueueAll(s, messages, now), Retried(|messages|, |ids|))
  }

  lemma {:induction false} AscendingSpec(ids: set<nat>)
    ensures forall k :: 0 <= k < |Ascending(ids)| ==> Ascending(ids)[k] in ids
    ensures forall i :: i in ids ==> i in Ascending(ids)
    ensures |Ascending(ids)| == |ids|
    ensures forall j, k :: 0 <= j < k < |Ascending(ids)| ==> Ascending(ids)[j] < Ascending(ids)[k]
  {
    if ids != {} {
      var least := LeastOf(ids);
      AscendingSpec(ids - {least});
      AscendingPrepended(ids, least, Ascending(ids - {least}));
      assert Ascending(ids) == [least] + Ascending(ids - {least});
    }
  }

  lemma AscendingPrepended(ids: set<nat>, least: nat, rest: seq<nat>)
    requires IsLeast(ids, least)
    requires forall k :: 0 <= k < |rest| ==> rest[k] in ids - {least}
    requires forall i :: i in ids - {least} ==> i in rest
    requires |rest| == |ids - {least}|
    requires forall j, k :: 0 <= j < k < |rest| ==> rest[j] < rest[k]
    ensures var all := [least] + rest;
      && (forall k :: 0 <= k < |all| ==> all[k] in ids) && (forall i :: i in ids ==> i in all)
      && |all| == |ids| && (forall j, k :: 0 <= j < k < |all| ==> all[j] < all[k])
  {
  }

  class SyncRunAdmin {
    const tasks: set<string>
    var runs: map<nat, SyncRun>
    var next: nat
    var enqueued: seq<Message>
    var writable: bool

    constructor (tasks: set<string>)
      ensures this.tasks == tasks
    {
      this.tasks := tasks;
    }

    function View(): Store
      reads this
    {
      Store(runs, next, enqueued, writable)
    }

    /** `_reenqueue`: false when the task name is unknown. */
    method Reenqueue(run: SyncRun, now: Timestamp) returns (known: bool)
      modifies this`runs, this`next, this`enqueued
      ensures known <==> run.taskName in tasks
      ensures View() == if known then Enqueue(old(View()), MessageOf(run), now) else old(View())
    {
      known := run.taskName in tasks;
      if known {
        var args, kwargs := [], map[];
        if run.payload.Some? {
          args, kwargs := run.payload.value.args, run.payload.value.kwargs;
        }
        var message := Message(run.taskName, args, kwargs, run.entityType, run.entityId);
        enqueued := enqueued + [message];
        if writable {
          runs, next := runs[next := QueuedRun(message, now)], next + 1;
        }
      }
    }

    method RetrySyncRun(id: nat, now: Timestamp) returns (response: Response)
      modifies this`runs, this`next, this`enqueued
      ensures (View(), response) == Retry(old(View()), tasks, id, now)
    {
      if id !in runs {
        return NotFound;
      }
      if !Recoverable(runs[id]) {
        return Conflict;
      }
      var known := Reenqueue(runs[id], now);
      response := if known then Done else UnknownTask;
    }

    method RetryAllFailed(now: Timestamp) returns (response: Response)
      modifies this`runs, this`next, this`enqueued
      ensures (View(), response) == RetryAll(old(View()), tasks, now)
    {
      hide MessagesOf, EnqueueAll, Enqueue, MessageOf, Ascending;
      ghost var start := View();
      NoMessages(start, tasks, now);
      AscendingSpec(FailedPermanentIds(View()));
      var ids := Ascending(FailedPermanentIds(View()));
      var selected := runs;
      var retried := 0;
      for k := 0 to |ids|
        invariant View() == EnqueueAll(start, MessagesOf(start.runs, tasks, ids[..k]), now)
        invariant retried == |MessagesOf(start.runs, tasks, ids[..k])|
      {
        RetryAllStep(start, tasks, ids, k, now);
        var known := Reenqueue(selected[ids[k]], now);
        if known {
          retried := retried + 1;
        }
      }
      assert ids[..|ids|] == ids;
      response := Retried(retried, |ids|);
    }

    method RequeueSyncRun(id: nat, now: Timestamp) returns (response: Response)
      modifies this`runs, this`next, this`enqueued
      ensures (View(), response) == Requeue(old(View()), tasks, id, now)
    {
      if id !in runs {
        return NotFound;
      }
      if !IsStuck(runs[id], now) {
        return Conflict;
      }
      var run := runs[id];
      runs := runs[id := run.(status := Superseded)];
      var known := Reenqueue(run, now);
      response := if known then Done else UnknownTask;
    }
  }

  lemma NoMessages(s: Store, tasks: set<string>, now: Timestamp)
    ensures MessagesOf(s.runs, tasks, []) == [] && EnqueueAll(s, [], now) == s
  {
  }

  lemma RetryAllStep(s: Store, tasks: set<string>, ids: seq<nat>, k: nat, now: Timestamp)
    requires k < |ids| && forall j :: 0 <= j < |ids| ==> ids[j] in s.runs
    ensures var run := s.runs[ids[k]];
      var before, after := MessagesOf(s.runs, tasks, ids[..k]), MessagesOf(s.runs, tasks, ids[..k + 1]);
      if run.taskName in tasks then
        |after| == |before| + 1 && EnqueueAll(s, after, now) == Enqueue(EnqueueAll(s, before, now), MessageOf(run), now)
      else after == before
  {
    assert ids[..k + 1][..k] == ids[..k];
    var before := MessagesOf(s.runs, tasks, ids[..k]);
    assert (before + [MessageOf(s.runs[ids[k]])])[..|before|] == before;
    assert before + [] == before;
  }

  // ----- Workers

  function NewestOf(ids: set<nat>): (newest: nat)
    requires ids != {}
    ensures newest in ids && forall i :: i in ids ==> i <= newest
  {
    AscendingSpec(ids);
    LastIsNewest(ids);
    Ascending(ids)[|ids| - 1]
  }

  lemma LastIsNewest(ids: set<nat>)
    requires ids != {}
    ensures |Ascending(ids)| == |ids|
    ensures var newest := Ascending(ids)[|ids| - 1]; newest in ids && forall i :: i in ids ==> i <= newest
  {
    AscendingSpec(ids);
    var all := Ascending(ids);
    forall i | i in ids ensures i <= all[|ids| - 1] {
      var k :| 0 <= k < |all| && all[k] == i;
    }
  }

  function QueuedOf(s: Store, task: string): set<nat> {
    set i | i in s.runs && s.runs[i].taskName == task && s.runs[i].status == Queued
  }

  function FailedOf(s: Store, task: string, entityType: Option<string>, entityId: Option<nat>): set<nat> {
    set i | i in s.runs && s.runs[i].taskName == task && s.runs[i].entityType == entityType
            && s.runs[i].entityId == entityId && s.runs[i].status == Failed
  }

  /** `_claim_or_create_run`: the newest queued row, else the newest failed one, else a new row. */
  function StartRun(s: Store, task: string, entityType: Option<string>, entityId: Option<nat>,
                    payload: Option<Payload>, now: Timestamp): Store
  {
    var queued := QueuedOf(s, task);
    var failed := FailedOf(s, task, entityType, entityId);
    if queued != {} then
      var id := NewestOf(queued);
      s.(runs := s.runs[id := s.runs[id].(status := Running, attempts := s.runs[id].attempts + 1,
                                          entityType := entityType, entityId := entityId, heartbeatAt := Some(now))])
    else if failed != {} then
      var id := NewestOf(failed);
      s.(runs := s.runs[id := s.runs[id].(status := Running, attempts := s.runs[id].attempts + 1,
                                          heartbeatAt := Some(now))])
    else
      s.(runs := s.runs[s.next := SyncRun(task, entityType, entityId, Running, 1, TASK_MAX_RETRIES, payload, Some(now),
                                          Some(now))],
         next := s.next + 1)
  }

  function FinishRun(s: Store, id: nat, success: bool): Store {
    if id !in s.runs || s.runs[id].status != Running then s
    else
      var run := s.runs[id];
      s.(runs := s.runs[id := run.(status := if success then Succeeded
                                             else if run.attempts >= run.maxAttempts then FailedPermanent else Failed)])
  }

  function Pulse(s: Store, id: nat, now: Timestamp): Store {
    if id !in s.runs || s.runs[id].status != Running then s
    else s.(runs := s.runs[id := s.runs[id].(heartbeatAt := Some(now))])
  }

  // ----- Histories

  datatype Event =
    | AdminRetry(id: nat, now: Timestamp)
    | AdminRetryAll(now: Timestamp)
    | AdminRequeue(id: nat, now: Timestamp)
    | WorkerStart(task: string, entityType: Option<string>, entityId: Option<nat>, payload: Option<Payload>,
                  now: Timestamp)
    | WorkerPulse(id: nat, now: Timestamp)
    | WorkerFinish(id: nat, success: bool)
    | SetWritable(writable: bool)

  function Step(s: Store, tasks: set<string>, e: Event): Store {
    match e
    case AdminRetry(id, now) => Retry(s, tasks, id, now).0
    case AdminRetryAll(now) => RetryAll(s, tasks, now).0
    case AdminRequeue(id, now) => Requeue(s, tasks, id, now).0
    case WorkerStart(task, entityType, entityId, payload, now) => StartRun(s, task, entityType, entityId, payload, now)
    case WorkerPulse(id, now) => Pulse(s, id, now)
    case WorkerFinish(id, success) => FinishRun(s, id, success)
    case SetWritable(w) => s.(writable := w)
  }

  function After(s: Store, tasks: set<string>, history: seq<Event>): Store {
    if history == [] then s else Step(After(s, tasks, history[..|history| - 1]), tasks, history[|history| - 1])
  }

  ghost predicate IdsBounded(s: Store) {
    forall i :: i in s.runs ==> i < s.next
  }

  lemma {:induction false} EnqueueAllSpec(s: Store, messages: seq<Message>, now: Timestamp)
    requires IdsBounded(s)
    ensures var t := EnqueueAll(s, messages, now);
      && IdsBounded(t) && s.next <= t.next && t.enqueued == s.enqueued + messages
      && (forall i :: i in s.runs ==> i in t.runs && t.runs[i] == s.runs[i])
  {
    if messages != [] {
      EnqueueAllSpec(s, messages[..|messages| - 1], now);
      assert messages == messages[..|messages| - 1] + [messages[|messages| - 1]];
    }
  }

  /** No event, of an administrator or a worker, touches a superseded row. */
  lemma {:induction false} StepKeepsSuperseded(s: Store, tasks: set<string>, e: Event, id: nat)
    requires IdsBounded(s)
    ensures IdsBounded(Step(s, tasks, e))
    ensures id in s.runs && s.runs[id].status == Superseded ==>
      id in Step(s, tasks, e).runs && Step(s, tasks, e).runs[id] == s.runs[id]
  {
    match e {
      case AdminRetryAll(now) =>
        AscendingSpec(FailedPermanentIds(s));
        EnqueueAllSpec(s, MessagesOf(s.runs, tasks, Ascending(FailedPermanentIds(s))), now);
      case _ =>
    }
  }

  /** Superseded is absorbing over every history: the row never changes again. */
  lemma {:induction false} SupersededForever(s: Store, tasks: set<string>, history: seq<Event>, id: nat)
    requires IdsBounded(s)
    ensures IdsBounded(After(s, tasks, history))
    ensures id in s.runs && s.runs[id].status == Superseded ==>
      id in After(s, tasks, history).runs && After(s, tasks, history).runs[id] == s.runs[id]
  {
    if history != [] {
      var n := |history| - 1;
      SupersededForever(s, tasks, history[..n], id);
      StepKeepsSuperseded(After(s, tasks, history[..n]), tasks, history[n], id);
    }
  }

  // ----- Counting

  /** The messages an event sends from a state. */
  function Sent(s: Store, tasks: set<string>, e: Event): seq<Message> {
    match e
    case AdminRetry(id, _) =>
      if id in s.runs && Recoverable(s.runs[id]) && s.runs[id].taskName in tasks then [MessageOf(s.runs[id])] else []
    case AdminRequeue(id, now) =>
      if id in s.runs && IsStuck(s.runs[id], now) && s.runs[id].taskName in tasks then [MessageOf(s.runs[id])] else []
    case AdminRetryAll(_) =>
      AscendingSpec(FailedPermanentIds(s));
      MessagesOf(s.runs, tasks, Ascending(FailedPermanentIds(s)))
    case _ => []
  }

  function AllSent(s: Store, tasks: set<string>, history: seq<Event>): seq<Message> {
    if history == [] then []
    else
      var n := |history| - 1;
      AllSent(s, tasks, history[..n]) + Sent(After(s, tasks, history[..n]), tasks, history[n])
  }

  /** What was enqueued over a history is, in order, one message for every action or batch item
      that passed its guard and whose task resolves, carrying the row's stored arguments. */
  lemma {:induction false} EnqueuesAccounted(s: Store, tasks: set<string>, history: seq<Event>)
    requires IdsBounded(s)
    ensures After(s, tasks, history).enqueued == s.enqueued + AllSent(s, tasks, history)
  {
    if history != [] {
      var n := |history| - 1;
      EnqueuesAccounted(s, tasks, history[..n]);
      SupersededForever(s, tasks, history[..n], 0);
      var before := After(s, tasks, history[..n]);
      StepSends(before, tasks, history[n]);
      var sent := Sent(before, tasks, history[n]);
      assert (s.enqueued + AllSent(s, tasks, history[..n])) + sent ==
        s.enqueued + (AllSent(s, tasks, history[..n]) + sent);
    }
  }

  /** How many calls or batch items of one event pass their guard and resolve: by the columns of
      the rows, for a batch the number of such rows. */
  function Passing(s: Store, tasks: set<string>, e: Event): nat {
    match e
    case AdminRetry(id, _) =>
      if id in s.runs && s.runs[id].status in {Failed, FailedPermanent} && s.runs[id].taskName in tasks then 1 else 0
    case AdminRequeue(id, now) =>
      if id in s.runs && IsStuck(s.runs[id], now) && s.runs[id].taskName in tasks then 1 else 0
    case AdminRetryAll(_) => |set i | i in s.runs && s.runs[i].status == FailedPermanent && s.runs[i].taskName in tasks|
    case _ => 0
  }

  /** How many messages the answer to an event claims to have sent. */
  function Claimed(s: Store, tasks: set<string>, e: Event): nat {
    var response :=
      match e
      case AdminRetry(id, now) => Retry(s, tasks, id, now).1
      case AdminRequeue(id, now) => Requeue(s, tasks, id, now).1
      case AdminRetryAll(now) => RetryAll(s, tasks, now).1
      case _ => NotFound;
    match response
    case Done => 1
    case Retried(retried, _) => retried
    case _ => 0
  }

  function AllPassing(s: Store, tasks: set<string>, history: seq<Event>): nat {
    if history == [] then 0
    else
      var n := |history| - 1;
      AllPassing(s, tasks, history[..n]) + Passing(After(s, tasks, history[..n]), tasks, history[n])
  }

  function AllClaimed(s: Store, tasks: set<string>, history: seq<Event>): nat {
    if history == [] then 0
    else
      var n := |history| - 1;
      AllClaimed(s, tasks, history[..n]) + Claimed(After(s, tasks, history[..n]), tasks, history[n])
  }

  lemma {:induction false} StepCounted(s: Store, tasks: set<string>, e: Event)
    requires IdsBounded(s)
    ensures |Step(s, tasks, e).enqueued| == |s.enqueued| + Passing(s, tasks, e)
    ensures Claimed(s, tasks, e) == Passing(s, tasks, e)
  {
    match e {
      case AdminRetryAll(now) =>
        RetryAllCounts(s, tasks, now);
        assert (set i | i in FailedPermanentIds(s) && s.runs[i].taskName in tasks)
          == (set i | i in s.runs && s.runs[i].status == FailedPermanent && s.runs[i].taskName in tasks);
      case _ =>
    }
  }

  /** Over every history the enqueues number the calls and batch items that passed their guard
      and resolve, and the answers to the administrator claim exactly that many. */
  lemma {:induction false} EnqueuesCounted(s: Store, tasks: set<string>, history: seq<Event>)
    requires IdsBounded(s)
    ensures |After(s, tasks, history).enqueued| == |s.enqueued| + AllPassing(s, tasks, history)
    ensures AllClaimed(s, tasks, history) == AllPassing(s, tasks, history)
  {
    if history != [] {
      var n := |history| - 1;
      EnqueuesCounted(s, tasks, history[..n]);
      SupersededForever(s, tasks, history[..n], 0);
      StepCounted(After(s, tasks, history[..n]), tasks, history[n]);
    }
  }

  lemma {:induction false} StepSends(s: Store, tasks: set<string>, e: Event)
    requires IdsBounded(s)
    ensures Step(s, tasks, e).enqueued == s.enqueued + Sent(s, tasks, e)
  {
    if e.AdminRetryAll? {
      AscendingSpec(FailedPermanentIds(s));
      EnqueueAllSpec(s, MessagesOf(s.runs, tasks, Ascending(FailedPermanentIds(s))), e.now);
    }
  }

  function Resolvable(runs: map<nat, SyncRun>, tasks: set<string>, ids: seq<nat>): set<nat> {
    set i | i in ids && i in runs && runs[i].taskName in tasks
  }

  lemma ResolvableStep(runs: map<nat, SyncRun>, tasks: set<string>, ids: seq<nat>)
    requires ids != [] && ids[|ids| - 1] in runs && ids[|ids| - 1] !in ids[..|ids| - 1]
    ensures |Resolvable(runs, tasks, ids)| ==
      |Resolvable(runs, tasks, ids[..|ids| - 1])| + if runs[ids[|ids| - 1]].taskName in tasks then 1 else 0
  {
    var init, last := ids[..|ids| - 1], ids[|ids| - 1];
    assert ids == init + [last];
    assert Resolvable(runs, tasks, ids) ==
      Resolvable(runs, tasks, init) + (if runs[last].taskName in tasks then {last} else {});
  }

  lemma {:induction false} MessagesCount(runs: map<nat, SyncRun>, tasks: set<string>, ids: seq<nat>)
    requires forall k :: 0 <= k < |ids| ==> ids[k] in runs
    requires forall j, k :: 0 <= j < k < |ids| ==> ids[j] != ids[k]
    ensures |MessagesOf(runs, tasks, ids)| == |Resolvable(runs, tasks, ids)|
  {
    if ids != [] {
      MessagesCount(runs, tasks, ids[..|ids| - 1]);
      ResolvableStep(runs, tasks, ids);
    }
  }

  /** `retried` is the number of messages sent, and of dead rows whose task resolves; `total` is
      the number of dead rows, none of which is changed. */
  lemma {:induction false} RetryAllCounts(s: Store, tasks: set<string>, now: Timestamp)
    requires IdsBounded(s)
    ensures var (t, r) := RetryAll(s, tasks, now);
      && r.Retried?
      && |t.enqueued| == |s.enqueued| + r.retried
      && r.retried == |set i | i in FailedPermanentIds(s) && s.runs[i].taskName in tasks|
      && r.total == |FailedPermanentIds(s)|
      && (forall i :: i in s.runs ==> i in t.runs && t.runs[i] == s.runs[i])
  {
    var dead := FailedPermanentIds(s);
    AscendingSpec(dead);
    var ids := Ascending(dead);
    EnqueueAllSpec(s, MessagesOf(s.runs, tasks, ids), now);
    MessagesCount(s.runs, tasks, ids);
    assert Resolvable(s.runs, tasks, ids) == (set i | i in dead && s.runs[i].taskName in tasks);
  }

  /** The event requeues this row: it finds it stuck and supersedes it. */
  predicate Requeues(s: Store, e: Event, id: nat) {
    e.AdminRequeue? && e.id == id && id in s.runs && IsStuck(s.runs[id], e.now)
  }

  function RequeueCount(s: Store, tasks: set<string>, history: seq<Event>, id: nat): nat {
    if history == [] then 0
    else
      var n := |history| - 1;
      RequeueCount(s, tasks, history[..n], id)
      + if Requeues(After(s, tasks, history[..n]), history[n], id) then 1 else 0
  }

  /** Over every history a row is requeued at most once, and once it was it is superseded. */
  lemma {:induction false} RequeuedAtMostOnce(s: Store, tasks: set<string>, history: seq<Event>, id: nat)
    requires IdsBounded(s)
    ensures RequeueCount(s, tasks, history, id) <= 1
    ensures RequeueCount(s, tasks, history, id) == 1 ==>
      id in After(s, tasks, history).runs && After(s, tasks, history).runs[id].status == Superseded
  {
    if history != [] {
      var n := |history| - 1;
      RequeuedAtMostOnce(s, tasks, history[..n], id);
      SupersededForever(s, tasks, history[..n], id);
      StepKeepsSuperseded(After(s, tasks, history[..n]), tasks, history[n], id);
    }
  }

  /** Superseding is committed before the task is resolved: requeueing a stuck row of an unknown
      task supersedes it without enqueueing anything in its place. */
  lemma SupersededWithoutSuccessor(s: Store, tasks: set<string>, id: nat, now: Timestamp)
    requires id in s.runs && IsStuck(s.runs[id], now)
    ensures var (t, r) := Requeue(s, tasks, id, now);
      && id in t.runs
      && (t.enqueued == s.enqueued <==> s.runs[id].taskName !in tasks)
      && (s.runs[id].taskName !in tasks ==>
          r == UnknownTask && t.runs[id].status == Superseded && t.runs.Keys == s.runs.Keys)
  {
  }

  // ----- What is sent, in columns

  /** The message is the row's task with its stored arguments, none where no payload is stored. */
  predicate CarriesStored(run: SyncRun, m: Message) {
    && m.taskName == run.taskName && m.entityType == run.entityType && m.entityId == run.entityId
    && match run.payload
       case None => m.args == [] && m.kwargs == map[]
       case Some(p) => m.args == p.args && m.kwargs == p.kwargs
  }

  /** The action is one on this row, which passes its guard: a failed row retried, a dead row in a
      batch, or a row requeued that has waited, or not been heard of, for five minutes. */
  predicate ActsOn(e: Event, run: SyncRun, id: nat) {
    match e
    case AdminRetry(i, _) => i == id && run.status in {Failed, FailedPermanent}
    case AdminRetryAll(_) => run.status == FailedPermanent
    case AdminRequeue(i, now) =>
      i == id && ((run.status == Queued && run.createdAt.Some? && now - run.createdAt.value >= 300)
                  || (run.status == Running && run.heartbeatAt.Some? && now - run.heartbeatAt.value >= 300))
    case _ => false
  }

  lemma {:induction false} BatchRow(runs: map<nat, SyncRun>, tasks: set<string>, ids: seq<nat>, m: Message)
    returns (k: nat)
    requires (forall k :: 0 <= k < |ids| ==> ids[k] in runs) && m in MessagesOf(runs, tasks, ids)
    ensures k < |ids| && runs[ids[k]].taskName in tasks && m == MessageOf(runs[ids[k]])
  {
    hide MessageOf;
    var n := |ids| - 1;
    if m in MessagesOf(runs, tasks, ids[..n]) {
      k := BatchRow(runs, tasks, ids[..n], m);
    } else {
      k := n;
    }
  }

  lemma {:induction false} BatchMessage(runs: map<nat, SyncRun>, tasks: set<string>, ids: seq<nat>, k: nat)
    requires (forall k :: 0 <= k < |ids| ==> ids[k] in runs) && k < |ids| && runs[ids[k]].taskName in tasks
    ensures MessageOf(runs[ids[k]]) in MessagesOf(runs, tasks, ids)
  {
    hide MessageOf;
    var n := |ids| - 1;
    if k < n {
      BatchMessage(runs, tasks, ids[..n], k);
    }
  }

  lemma MessageCarries(run: SyncRun)
    ensures CarriesStored(run, MessageOf(run))
    ensures forall m :: CarriesStored(run, m) ==> m == MessageOf(run)
  {
  }

  /** What an event sends, and nothing else: the stored arguments of the rows it acts on and whose
      task is known. */
  lemma {:induction false} SentCarries(s: Store, tasks: set<string>, e: Event)
    ensures forall m :: m in Sent(s, tasks, e) ==> exists id :: SentFor(s, tasks, e, id, m)
    ensures forall id :: id in s.runs && ActsOn(e, s.runs[id], id) && s.runs[id].taskName in tasks ==>
      exists m :: m in Sent(s, tasks, e) && SentFor(s, tasks, e, id, m)
  {
    if e.AdminRetryAll? {
      BatchSends(s, tasks, e);
      BatchSendsAll(s, tasks, e);
    } else if e.AdminRetry? || e.AdminRequeue? {
      hide MessageOf, CarriesStored;
      forall m | m in Sent(s, tasks, e) ensures exists id :: SentFor(s, tasks, e, id, m) {
        MessageCarries(s.runs[e.id]);
        assert SentFor(s, tasks, e, e.id, m);
      }
      forall id | id in s.runs && ActsOn(e, s.runs[id], id) && s.runs[id].taskName in tasks
        ensures exists m :: m in Sent(s, tasks, e) && SentFor(s, tasks, e, id, m)
      {
        MessageCarries(s.runs[id]);
        assert Sent(s, tasks, e)[0] == MessageOf(s.runs[id]);
        assert SentFor(s, tasks, e, id, MessageOf(s.runs[id]));
      }
    }
  }

  ghost predicate SentFor(s: Store, tasks: set<string>, e: Event, id: nat, m: Message) {
    && id in s.runs && ActsOn(e, s.runs[id], id)
    && s.runs[id].taskName in tasks && CarriesStored(s.runs[id], m)
  }

  lemma {:induction false} BatchSent(s: Store, tasks: set<string>, e: Event) returns (ids: seq<nat>)
    requires e.AdminRetryAll?
    ensures forall k :: 0 <= k < |ids| ==> ids[k] in s.runs && s.runs[ids[k]].status == FailedPermanent
    ensures forall id :: id in s.runs && s.runs[id].status == FailedPermanent ==> id in ids
    ensures Sent(s, tasks, e) == MessagesOf(s.runs, tasks, ids)
  {
    hide MessagesOf, Ascending;
    AscendingSpec(FailedPermanentIds(s));
    ids := Ascending(FailedPermanentIds(s));
    assert forall k :: 0 <= k < |ids| ==> ids[k] in FailedPermanentIds(s);
    assert forall id :: id in s.runs && s.runs[id].status == FailedPermanent ==> id in FailedPermanentIds(s);
  }

  lemma {:induction false} BatchSends(s: Store, tasks: set<string>, e: Event)
    requires e.AdminRetryAll?
    ensures forall m :: m in Sent(s, tasks, e) ==> exists id :: SentFor(s, tasks, e, id, m)
  {
    hide CarriesStored, MessagesOf, Sent, MessageOf;
    var ids := BatchSent(s, tasks, e);
    forall m | m in Sent(s, tasks, e) ensures exists id :: SentFor(s, tasks, e, id, m) {
      var k := BatchRow(s.runs, tasks, ids, m);
      MessageCarries(s.runs[ids[k]]);
      assert SentFor(s, tasks, e, ids[k], m);
    }
  }

  lemma {:induction false} BatchSendsAll(s: Store, tasks: set<string>, e: Event)
    requires e.AdminRetryAll?
    ensures forall id :: id in s.runs && ActsOn(e, s.runs[id], id) && s.runs[id].taskName in tasks ==>
      exists m :: m in Sent(s, tasks, e) && SentFor(s, tasks, e, id, m)
  {
    hide CarriesStored, MessagesOf, Sent, MessageOf;
    var ids := BatchSent(s, tasks, e);
    forall id | id in s.runs && ActsOn(e, s.runs[id], id) && s.runs[id].taskName in tasks
      ensures exists m :: m in Sent(s, tasks, e) && SentFor(s, tasks, e, id, m)
    {
      assert id in ids;
      var k :| 0 <= k < |ids| && ids[k] == id;
      BatchMessage(s.runs, tasks, ids, k);
      MessageCarries(s.runs[id]);
      assert SentFor(s, tasks, e, id, MessageOf(s.runs[id]));
    }
  }

  /** Some action of the history, when it came, sent the message for some row. */
  ghost predicate SentSometime(s: Store, tasks: set<string>, history: seq<Event>, m: Message) {
    exists k, id :: 0 <= k < |history| && SentFor(After(s, tasks, history[..k]), tasks, history[k], id, m)
  }

  lemma {:induction false} SentEarlier(s: Store, tasks: set<string>, history: seq<Event>, m: Message)
    requires history != [] && SentSometime(s, tasks, history[..|history| - 1], m)
    ensures SentSometime(s, tasks, history, m)
  {
    hide SentFor, After;
    var init := history[..|history| - 1];
    var k, id :| 0 <= k < |init| && SentFor(After(s, tasks, init[..k]), tasks, init[k], id, m);
    assert init[..k] == history[..k] && init[k] == history[k];
    assert SentFor(After(s, tasks, history[..k]), tasks, history[k], id, m);
  }

  /** Over every history, every message sent carries the task name, the entity and the arguments
      stored at that moment in a row that an administrator's action was on. */
  lemma {:induction false} EveryMessageCarries(s: Store, tasks: set<string>, history: seq<Event>, m: Message)
    requires IdsBounded(s) && m in After(s, tasks, history).enqueued
    ensures m in s.enqueued || SentSometime(s, tasks, history, m)
  {
    if history != [] {
      hide Step, SentFor, Sent, IdsBounded, SentSometime;
      var n := |history| - 1;
      var before := After(s, tasks, history[..n]);
      SupersededForever(s, tasks, history[..n], 0);
      StepSends(before, tasks, history[n]);
      if m in before.enqueued {
        EveryMessageCarries(s, tasks, history[..n], m);
        if SentSometime(s, tasks, history[..n], m) {
          SentEarlier(s, tasks, history, m);
        }
      } else {
        SentCarries(before, tasks, history[n]);
        var id :| SentFor(before, tasks, history[n], id, m);
        SentLast(s, tasks, history, id, m);
      }
    }
  }

  lemma SentLast(s: Store, tasks: set<string>, history: seq<Event>, id: nat, m: Message)
    requires history != []
    requires SentFor(After(s, tasks, history[..|history| - 1]), tasks, history[|history| - 1], id, m)
    ensures SentSometime(s, tasks, history, m)
  {
    hide SentFor, After;
  }

  // ----- The row that a successful call leaves

  /** A fresh queued row for the same work: same task, entity and payload, an empty payload where
      none was stored. */
  predicate QueuedAgain(run: SyncRun, copy: SyncRun, now: Timestamp) {
    && copy.taskName == run.taskName && copy.entityType == run.entityType && copy.entityId == run.entityId
    && copy.payload == Some(if run.payload.Some? then run.payload.value else Payload([], map[]))
    && copy.status == Queued && copy.attempts == 0 && copy.maxAttempts == 3
    && copy.heartbeatAt == None && copy.createdAt == Some(now)
  }

  /** Retry, by the columns of the row: who is refused and why, and what a success leaves. */
  lemma {:induction false} RetryExactly(s: Store, tasks: set<string>, id: nat, now: Timestamp)
    ensures var (t, answer) := Retry(s, tasks, id, now);
      && (answer == NotFound <==> id !in s.runs)
      && (answer == Conflict <==> id in s.runs && s.runs[id].status !in {Failed, FailedPermanent})
      && (answer == UnknownTask <==>
            id in s.runs && s.runs[id].status in {Failed, FailedPermanent} && s.runs[id].taskName !in tasks)
      && (answer != Done ==> t == s)
      && (answer == Done ==>
            && t.runs.Keys == (if s.writable then s.runs.Keys + {s.next} else s.runs.Keys)
            && (forall i :: i in s.runs && i != s.next ==> t.runs[i] == s.runs[i])
            && (s.writable ==> QueuedAgain(s.runs[id], t.runs[s.next], now)))
  {
  }

  /** Requeue likewise; a row that passed is superseded whatever the answer. */
  lemma {:induction false} RequeueExactly(s: Store, tasks: set<string>, id: nat, now: Timestamp)
    requires IdsBounded(s)
    ensures var (t, answer) := Requeue(s, tasks, id, now);
      && (answer == NotFound <==> id !in s.runs)
      && (answer == Conflict <==> id in s.runs && !ActsOn(AdminRequeue(id, now), s.runs[id], id))
      && (answer == UnknownTask <==>
            && id in s.runs && ActsOn(AdminRequeue(id, now), s.runs[id], id)
            && s.runs[id].taskName !in tasks)
      && (answer in {NotFound, Conflict} ==> t == s)
      && (answer in {UnknownTask, Done} ==>
            && id in t.runs && t.runs[id] == s.runs[id].(status := Superseded)
            && (forall i :: i in s.runs && i != id ==> i in t.runs && t.runs[i] == s.runs[i]))
      && (answer == Done && s.writable ==> s.next in t.runs && QueuedAgain(s.runs[id], t.runs[s.next], now))
  {
  }

  /** Retry-all leaves a fresh queued row for every dead row whose task is known. */
  lemma {:induction false} RetryAllCopies(s: Store, tasks: set<string>, now: Timestamp, id: nat)
    requires IdsBounded(s) && s.writable
    requires id in s.runs && s.runs[id].status == FailedPermanent && s.runs[id].taskName in tasks
    ensures var t := RetryAll(s, tasks, now).0;
      exists j :: j in t.runs && j !in s.runs && QueuedAgain(s.runs[id], t.runs[j], now)
  {
    hide CarriesStored, QueuedAgain, EnqueueAll, MessagesOf, Ascending, QueuedRun;
    AscendingSpec(FailedPermanentIds(s));
    var messages := MessagesOf(s.runs, tasks, Ascending(FailedPermanentIds(s)));
    SentCarries(s, tasks, AdminRetryAll(now));
    var m :| m in messages && SentFor(s, tasks, AdminRetryAll(now), id, m) && CarriesStored(s.runs[id], m);
    var k :| 0 <= k < |messages| && messages[k] == m;
    EnqueueAllRows(s, messages, now);
    CarriedIsQueued(s.runs[id], m, now);
    assert s.next + k !in s.runs && messages[s.next + k - s.next] == m;
  }

  lemma CarriedIsQueued(run: SyncRun, m: Message, now: Timestamp)
    requires CarriesStored(run, m)
    ensures QueuedAgain(run, QueuedRun(m, now), now)
  {
  }

  lemma {:induction false} EnqueueAllRows(s: Store, messages: seq<Message>, now: Timestamp)
    requires IdsBounded(s) && s.writable
    ensures var t := EnqueueAll(s, messages, now);
      && t.writable && t.next == s.next + |messages|
      && (forall i :: s.next <= i < s.next + |messages| ==>
            i in t.runs && t.runs[i] == QueuedRun(messages[i - s.next], now))
  {
    hide QueuedRun;
    if messages != [] {
      EnqueueAllRows(s, messages[..|messages| - 1], now);
    }
  }

  // ----- Attempts

  /** The row is the newest one that the task can take up: queued under its name, or, with `failed`,
      failed under its name and entity. */
  ghost predicate Newest(s: Store, task: string, failed: Option<(Option<string>, Option<nat>)>, id: nat) {
    Candidate(s, task, failed, id) && forall i: nat :: Candidate(s, task, failed, i) ==> i <= id
  }

  predicate Candidate(s: Store, task: string, failed: Option<(Option<string>, Option<nat>)>, id: nat) {
    id in s.runs && s.runs[id].taskName == task &&
    match failed
    case None => s.runs[id].status == Queued
    case Some((entityType, entityId)) =>
      s.runs[id].status == Failed && s.runs[id].entityType == entityType && s.runs[id].entityId == entityId
  }

  /** One attempt more, and nothing else but the entity and the sign of life. */
  predicate Attempted(before: SyncRun, after: SyncRun, now: Timestamp) {
    && after.status == Running && after.attempts == before.attempts + 1 && after.heartbeatAt == Some(now)
    && after.taskName == before.taskName && after.maxAttempts == before.maxAttempts
    && after.payload == before.payload && after.createdAt == before.createdAt
  }

  ghost predicate OnlyRow(s: Store, t: Store, id: nat) {
    && t.enqueued == s.enqueued && t.writable == s.writable
    && id in t.runs && t.runs.Keys == s.runs.Keys + {id}
    && forall i :: i in s.runs && i != id ==> t.runs[i] == s.runs[i]
  }

  /** The row that a starting worker works under, among the ones that were there. */
  ghost predicate TakenUp(s: Store, t: Store, task: string, entityType: Option<string>, entityId: Option<nat>,
                          now: Timestamp, id: nat)
  {
    && id in s.runs && OnlyRow(s, t, id) && t.next == s.next && Attempted(s.runs[id], t.runs[id], now)
    && t.runs[id].entityType == entityType && t.runs[id].entityId == entityId
    && (|| Newest(s, task, None, id)
        || (Newest(s, task, Some((entityType, entityId)), id) && !exists i :: Candidate(s, task, None, i)))
  }

  /** A row of its own, where there is none to take up. */
  ghost predicate StartedAnew(s: Store, t: Store, task: string, entityType: Option<string>, entityId: Option<nat>,
                              payload: Option<Payload>, now: Timestamp)
  {
    && OnlyRow(s, t, s.next) && t.next == s.next + 1
    && t.runs[s.next] == SyncRun(task, entityType, entityId, Running, 1, 3, payload, Some(now), Some(now))
    && !exists i :: Candidate(s, task, None, i) || Candidate(s, task, Some((entityType, entityId)), i)
  }

  /** Which row a starting worker takes up: the newest queued one of its task, else the newest one
      that failed for the same entity, else a row of its own; always exactly one. */
  lemma {:induction false} StartExactly(s: Store, task: string, entityType: Option<string>, entityId: Option<nat>,
                                        payload: Option<Payload>, now: Timestamp)
    requires IdsBounded(s)
    ensures var t := StartRun(s, task, entityType, entityId, payload, now);
      || StartedAnew(s, t, task, entityType, entityId, payload, now)
      || exists id :: TakenUp(s, t, task, entityType, entityId, now, id)
  {
    hide Candidate, QueuedOf, FailedOf, NewestOf, OnlyRow, Attempted;
    CandidatesFound(s, task, entityType, entityId);
    StartedRow(s, task, entityType, entityId, payload, now);
    var t := StartRun(s, task, entityType, entityId, payload, now);
    var queued, failed := QueuedOf(s, task), FailedOf(s, task, entityType, entityId);
    if queued != {} {
      assert Newest(s, task, None, NewestOf(queued));
      assert TakenUp(s, t, task, entityType, entityId, now, NewestOf(queued));
    } else if failed != {} {
      assert Newest(s, task, Some((entityType, entityId)), NewestOf(failed));
      assert TakenUp(s, t, task, entityType, entityId, now, NewestOf(failed));
    }
  }

  lemma CandidatesFound(s: Store, task: string, entityType: Option<string>, entityId: Option<nat>)
    ensures forall i :: i in QueuedOf(s, task) <==> Candidate(s, task, None, i)
    ensures forall i :: i in FailedOf(s, task, entityType, entityId) <==>
      Candidate(s, task, Some((entityType, entityId)), i)
  {
  }

  lemma {:induction false} StartedRow(s: Store, task: string, entityType: Option<string>, entityId: Option<nat>,
                                      payload: Option<Payload>, now: Timestamp)
    requires IdsBounded(s)
    ensures var t := StartRun(s, task, entityType, entityId, payload, now);
      var queued, failed := QueuedOf(s, task), FailedOf(s, task, entityType, entityId);
      if queued == {} && failed == {} then
        && OnlyRow(s, t, s.next) && t.next == s.next + 1
        && t.runs[s.next] == SyncRun(task, entityType, entityId, Running, 1, 3, payload, Some(now), Some(now))
      else
        var id := if queued != {} then NewestOf(queued) else NewestOf(failed);
        && id in s.runs && OnlyRow(s, t, id) && t.next == s.next && Attempted(s.runs[id], t.runs[id], now)
        && t.runs[id].entityType == entityType && t.runs[id].entityId == entityId
  {
    var queued, failed := QueuedOf(s, task), FailedOf(s, task, entityType, entityId);
    if queued != {} {
      assert NewestOf(queued) in queued;
    } else if failed != {} {
      assert NewestOf(failed) in failed;
    }
    hide NewestOf;
  }

  /** A finished run: succeeded, or dead when its attempts are used up, else failed. */
  lemma FinishExactly(s: Store, id: nat, success: bool)
    ensures var t := FinishRun(s, id, success);
      && (id !in s.runs || s.runs[id].status != Running ==> t == s)
      && (id in s.runs && s.runs[id].status == Running ==>
            && OnlyRow(s, t, id) && t.next == s.next
            && t.runs[id] == s.runs[id].(status := t.runs[id].status)
            && (t.runs[id].status == Succeeded <==> success)
            && (t.runs[id].status == FailedPermanent <==> !success && s.runs[id].attempts >= s.runs[id].maxAttempts)
            && (t.runs[id].status == Failed <==> !success && s.runs[id].attempts < s.runs[id].maxAttempts))
  {
  }

  /** A row no longer waiting was attempted at least once and at most as often as it may be; it is
      dead only when it was attempted that often, and merely failed only when it was not. */
  predicate AttemptsFit(run: SyncRun) {
    match run.status
    case Queued => run.attempts == 0 && run.maxAttempts == 3
    case Superseded => run.attempts <= run.maxAttempts == 3
    case FailedPermanent => run.attempts == run.maxAttempts == 3
    case Failed => 1 <= run.attempts < run.maxAttempts == 3
    case _ => 1 <= run.attempts <= run.maxAttempts == 3
  }

  ghost predicate AllFit(s: Store) {
    forall i :: i in s.runs ==> AttemptsFit(s.runs[i])
  }

  lemma {:induction false} EnqueueAllFit(s: Store, messages: seq<Message>, now: Timestamp)
    requires AllFit(s)
    ensures AllFit(EnqueueAll(s, messages, now))
  {
    if messages != [] {
      EnqueueAllFit(s, messages[..|messages| - 1], now);
    }
  }

  lemma {:induction false} StepFits(s: Store, tasks: set<string>, e: Event)
    requires AllFit(s)
    ensures AllFit(Step(s, tasks, e))
  {
    match e {
      case AdminRetryAll(now) =>
        AscendingSpec(FailedPermanentIds(s));
        EnqueueAllFit(s, MessagesOf(s.runs, tasks, Ascending(FailedPermanentIds(s))), now);
      case _ =>
    }
  }

  /** Over every history of administrators and workers no row is attempted more than three times,
      and a row is dead exactly when it failed for the third time. */
  lemma {:induction false} AttemptsBounded(s: Store, tasks: set<string>, history: seq<Event>)
    requires AllFit(s)
    ensures AllFit(After(s, tasks, history))
  {
    if history != [] {
      var n := |history| - 1;
      AttemptsBounded(s, tasks, history[..n]);
      StepFits(After(s, tasks, history[..n]), tasks, history[n]);
    }
  }
}
