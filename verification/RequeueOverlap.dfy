/** Requeue as its three database round trips, so that two requests may overlap: the row is read,
    marked superseded, and the task enqueued, with other work in between. */
module RequeueOverlap {
  import opened Wrappers
  import opened ProviderSchema
  import opened SyncRuns

  datatype Phase = HasRead | HasCommitted | HasFinished

  /** A request that passed its guard, with the row as it read it. */
  datatype Call = Call(id: nat, run: SyncRun, phase: Phase)

  datatype State = State(store: Store, calls: map<nat, Call>)

  datatype Round =
    | Other(event: Event)
    | ReadRow(request: nat, id: nat, now: Timestamp)
    | CommitRow(request: nat)
    | EnqueueRow(request: nat, now: Timestamp)

  predicate Passes(s: State, r: Round, id: nat) {
    r.ReadRow? && r.id == id && r.request !in s.calls && id in s.store.runs && IsStuck(s.store.runs[id], r.now)
  }

  /** The commit writes the status column whatever the row has become since it was read. */
  function Next(s: State, tasks: set<string>, r: Round): State {
    match r
    case Other(e) => if e.AdminRequeue? then s else s.(store := Step(s.store, tasks, e))
    case ReadRow(q, id, _) =>
      if Passes(s, r, id) then s.(calls := s.calls[q := Call(id, s.store.runs[id], HasRead)]) else s
    case CommitRow(q) =>
      if q in s.calls && s.calls[q].phase == HasRead && s.calls[q].id in s.store.runs then
        var id := s.calls[q].id;
        State(s.store.(runs := s.store.runs[id := s.store.runs[id].(status := Superseded)]),
              s.calls[q := s.calls[q].(phase := HasCommitted)])
      else s
    case EnqueueRow(q, now) =>
      if q in s.calls && s.calls[q].phase == HasCommitted then
        var run := s.calls[q].run;
        State(if run.taskName in tasks then Enqueue(s.store, MessageOf(run), now) else s.store,
              s.calls[q := s.calls[q].(phase := HasFinished)])
      else s
  }

  function Later(s: State, tasks: set<string>, rounds: seq<Round>): State {
    if rounds == [] then s else Next(Later(s, tasks, rounds[..|rounds| - 1]), tasks, rounds[|rounds| - 1])
  }

  /** A call whose three rounds follow one another is the requeue step. */
  lemma {:induction false} UninterruptedCall(s: State, tasks: set<string>, request: nat, id: nat, now: Timestamp)
    requires request !in s.calls
    ensures Later(s, tasks, [ReadRow(request, id, now), CommitRow(request), EnqueueRow(request, now)]).store
      == Requeue(s.store, tasks, id, now).0
  {
    var rounds := [ReadRow(request, id, now), CommitRow(request), EnqueueRow(request, now)];
    assert rounds[..2][..1] == rounds[..1] && rounds[..1][..0] == [];
    var s1 := Next(s, tasks, rounds[0]);
    var s2 := Next(s1, tasks, rounds[1]);
    assert Later(s, tasks, rounds[..1]) == s1;
    assert Later(s, tasks, rounds[..2]) == s2;
    assert Later(s, tasks, rounds) == Next(s2, tasks, rounds[2]);
  }

  // ----- At most once

  /** Every call knows its row, and a committed one left it superseded. */
  ghost predicate Sound(s: State) {
    && IdsBounded(s.store)
    && (forall q :: q in s.calls ==>
          && s.calls[q].id in s.store.runs
          && (s.calls[q].phase != HasRead ==> s.store.runs[s.calls[q].id].status == Superseded))
  }

  lemma {:induction false} StepKeepsRows(s: Store, tasks: set<string>, e: Event)
    requires IdsBounded(s)
    ensures forall i :: i in s.runs ==> i in Step(s, tasks, e).runs
  {
    if e.AdminRetryAll? {
      AscendingSpec(FailedPermanentIds(s));
      EnqueueAllSpec(s, MessagesOf(s.runs, tasks, Ascending(FailedPermanentIds(s))), e.now);
    }
  }

  lemma {:induction false} NextKeepsSound(s: State, tasks: set<string>, r: Round)
    requires Sound(s)
    ensures Sound(Next(s, tasks, r))
  {
    if r.Other? {
      hide Step;
      StepKeepsRows(s.store, tasks, r.event);
      StepKeepsSuperseded(s.store, tasks, r.event, 0);
      forall q | q in s.calls && s.calls[q].phase != HasRead
        ensures Next(s, tasks, r).store.runs[s.calls[q].id].status == Superseded
      {
        StepKeepsSuperseded(s.store, tasks, r.event, s.calls[q].id);
      }
    }
  }

  lemma {:induction false} LaterSound(s: State, tasks: set<string>, rounds: seq<Round>)
    requires Sound(s)
    ensures Sound(Later(s, tasks, rounds))
  {
    if rounds != [] {
      LaterSound(s, tasks, rounds[..|rounds| - 1]);
      NextKeepsSound(Later(s, tasks, rounds[..|rounds| - 1]), tasks, rounds[|rounds| - 1]);
    }
  }

  /** The requests that have passed the guard on a row. */
  function CallsOn(s: State, id: nat): set<nat> {
    set q | q in s.calls && s.calls[q].id == id
  }

  /** The round is a read that passes while another request has read the row and not committed. */
  ghost predicate OverlapsAt(s: State, r: Round, id: nat) {
    Passes(s, r, id) && exists q :: q in s.calls && s.calls[q].id == id && s.calls[q].phase == HasRead
  }

  ghost predicate Overlapped(s: State, tasks: set<string>, rounds: seq<Round>, id: nat) {
    exists n :: 0 <= n < |rounds| && OverlapsAt(Later(s, tasks, rounds[..n]), rounds[n], id)
  }

  lemma {:induction false} OverlappedStep(s: State, tasks: set<string>, rounds: seq<Round>, id: nat)
    requires rounds != []
    ensures var n := |rounds| - 1;
      Overlapped(s, tasks, rounds, id) <==>
        Overlapped(s, tasks, rounds[..n], id) || OverlapsAt(Later(s, tasks, rounds[..n]), rounds[n], id)
  {
    hide OverlapsAt, Later;
    var n := |rounds| - 1;
    forall k | 0 <= k < n ensures rounds[..n][k] == rounds[k] && rounds[..n][..k] == rounds[..k] {
    }
  }

  /** A read that passes finds every other call on the row still uncommitted, since a committed one
      has superseded the row. */
  lemma {:induction false} PassingStep(s: State, tasks: set<string>, r: Round, id: nat)
    requires Sound(s)
    ensures CallsOn(Next(s, tasks, r), id) == if Passes(s, r, id) then CallsOn(s, id) + {r.request} else CallsOn(s, id)
    ensures Passes(s, r, id) ==> r.request !in CallsOn(s, id) && (OverlapsAt(s, r, id) <==> CallsOn(s, id) != {})
  {
    CallsOnNext(s, tasks, r, id);
    if Passes(s, r, id) {
      forall q | q in s.calls && s.calls[q].id == id ensures s.calls[q].phase == HasRead && q in CallsOn(s, id) {
      }
      assert forall q :: q in CallsOn(s, id) ==> q in s.calls && s.calls[q].id == id;
    }
  }

  lemma CallsOnNext(s: State, tasks: set<string>, r: Round, id: nat)
    ensures CallsOn(Next(s, tasks, r), id) == if Passes(s, r, id) then CallsOn(s, id) + {r.request} else CallsOn(s, id)
  {
    var u := Next(s, tasks, r);
    forall q
      ensures q in CallsOn(u, id) <==> q in CallsOn(s, id) || (Passes(s, r, id) && q == r.request)
    {
      hide Step, Enqueue;
    }
  }

  /** Over every history of rounds, a row is requeued at most once exactly when no two requeue
      calls on it overlap. */
  lemma {:induction false} RequeuedOnceExactly(s: State, tasks: set<string>, rounds: seq<Round>, id: nat)
    requires Sound(s) && CallsOn(s, id) == {}
    ensures |CallsOn(Later(s, tasks, rounds), id)| <= 1 <==> !Overlapped(s, tasks, rounds, id)
  {
    if rounds == [] {
      assert !Overlapped(s, tasks, [], id);
    } else {
      hide Next, Sound, Overlapped, Passes, OverlapsAt, CallsOn;
      var n := |rounds| - 1;
      RequeuedOnceExactly(s, tasks, rounds[..n], id);
      LaterSound(s, tasks, rounds[..n]);
      OverlappedStep(s, tasks, rounds, id);
      PassingStep(Later(s, tasks, rounds[..n]), tasks, rounds[n], id);
      PassesToOverlap(Later(s, tasks, rounds[..n]), rounds[n], id);
      var before := CallsOn(Later(s, tasks, rounds[..n]), id);
      if Passes(Later(s, tasks, rounds[..n]), rounds[n], id) {
        assert |before + {rounds[n].request}| == |before| + 1;
      }
    }
  }

  lemma PassesToOverlap(s: State, r: Round, id: nat)
    ensures OverlapsAt(s, r, id) ==> Passes(s, r, id)
    ensures Passes(s, r, id) ==> r.ReadRow?
  {
  }

  /** The rounds after the read send the message of the row as it was read. */
  lemma {:induction false} CallFinishes(s: State, tasks: set<string>, request: nat, now: Timestamp)
    requires request in s.calls && s.calls[request].phase == HasRead && s.calls[request].id in s.store.runs
    requires s.calls[request].run.taskName in tasks
    ensures var u := Next(Next(s, tasks, CommitRow(request)), tasks, EnqueueRow(request, now));
      && u.store.enqueued == s.store.enqueued + [MessageOf(s.calls[request].run)]
      && (forall i :: i in s.store.runs ==> i in u.store.runs)
      && u.calls == s.calls[request := s.calls[request].(phase := HasFinished)]
  {
    hide MessageOf;
  }

  /** Two requests on one stuck row that both read before either commits: the task is enqueued
      twice, with the same arguments. */
  lemma {:induction false} OverlapEnqueuesTwice(s: State, tasks: set<string>, id: nat, now: Timestamp)
    requires 0 !in s.calls && 1 !in s.calls
    requires id in s.store.runs && IsStuck(s.store.runs[id], now) && s.store.runs[id].taskName in tasks
    ensures var rounds := [ReadRow(0, id, now), ReadRow(1, id, now), CommitRow(0), EnqueueRow(0, now),
                           CommitRow(1), EnqueueRow(1, now)];
      var message := MessageOf(s.store.runs[id]);
      Later(s, tasks, rounds).store.enqueued == s.store.enqueued + [message, message]
  {
    hide MessageOf, IsStuck;
    var rounds := [ReadRow(0, id, now), ReadRow(1, id, now), CommitRow(0), EnqueueRow(0, now),
                   CommitRow(1), EnqueueRow(1, now)];
    var call := Call(id, s.store.runs[id], HasRead);
    var read := State(s.store, s.calls[0 := call][1 := call]);
    var u := SixRounds(s, tasks, rounds);
    assert Next(Next(s, tasks, rounds[0]), tasks, rounds[1]) == read;
    FinishTwice(read, tasks, call, now);
  }

  lemma {:induction false} FinishTwice(s: State, tasks: set<string>, call: Call, now: Timestamp)
    requires 0 in s.calls && 1 in s.calls && s.calls[0] == s.calls[1] == call && call.phase == HasRead
    requires call.id in s.store.runs && call.run.taskName in tasks
    ensures var u := Next(Next(s, tasks, CommitRow(0)), tasks, EnqueueRow(0, now));
      Next(Next(u, tasks, CommitRow(1)), tasks, EnqueueRow(1, now)).store.enqueued
        == s.store.enqueued + [MessageOf(call.run), MessageOf(call.run)]
  {
    hide Next, MessageOf;
    CallFinishes(s, tasks, 0, now);
    CallFinishes(Next(Next(s, tasks, CommitRow(0)), tasks, EnqueueRow(0, now)), tasks, 1, now);
  }

  lemma {:induction false} SixRounds(s: State, tasks: set<string>, rounds: seq<Round>) returns (u: State)
    requires |rounds| == 6
    ensures u == Next(Next(s, tasks, rounds[0]), tasks, rounds[1])
    ensures Later(s, tasks, rounds) ==
      Next(Next(Next(Next(u, tasks, rounds[2]), tasks, rounds[3]), tasks, rounds[4]), tasks, rounds[5])
  {
    hide Next;
    u := Next(Next(s, tasks, rounds[0]), tasks, rounds[1]);
    assert rounds[..0] == [] && rounds[..6] == rounds;
    LaterStep(s, tasks, rounds, 0);
    LaterStep(s, tasks, rounds, 1);
    LaterStep(s, tasks, rounds, 2);
    LaterStep(s, tasks, rounds, 3);
    LaterStep(s, tasks, rounds, 4);
    LaterStep(s, tasks, rounds, 5);
  }

  lemma {:induction false} LaterStep(s: State, tasks: set<string>, rounds: seq<Round>, k: nat)
    requires k < |rounds|
    ensures Later(s, tasks, rounds[..k + 1]) == Next(Later(s, tasks, rounds[..k]), tasks, rounds[k])
  {
    assert rounds[..k + 1][..k] == rounds[..k];
  }
}
