/** What the answers and refusals of the job and queue commands mean, and which jobs of a run have
    a result (`src/utteran_control/job_repository.py`, `src/utteran_control/store.py`). */
module JobOutcomes {
  import opened Basics
  import opened ControlTables
  import opened JobCommands
  import opened JobInvariants
  import opened JobRuns
  import opened JobEffects

  // ---------------------------------------------------------------- answers

  /** The view is the row of this operation after the command. */
  ghost predicate Shows(e: Tables, view: View, id: nat) {
    && view.id == id && id in e.operations && view.operation == e.operations[id]
    && view.item == if id in e.items then Some(e.items[id]) else None
  }

  ghost predicate ShowsQueue(e: Tables, response: Response) {
    response.QueueResponse? && response.revision == e.queueRevision && response.running == e.running && response.items == e.items
  }

  /** The answer shows the job or operation of the command, or the new one, or the queue. */
  ghost predicate AnswerShows(db: Tables, c: Command, e: Tables, outcome: Outcome) {
    match c
    case Submit(_, _, _) => outcome.Ok? && outcome.response.OperationResponse? && outcome.response.status == 201
                              && Shows(e, outcome.response.operation, db.nextId)
    case AcceptBatch(_, _, snapshots, _) =>
      && outcome.Ok? && outcome.response.BatchResponse? && outcome.response.status == 202
      && outcome.response.queueRevision == e.queueRevision && |outcome.response.jobs| == |snapshots|
      && forall k: nat | k < |snapshots| :: Shows(e, outcome.response.jobs[k], db.nextId + k)
    case CancelJob(job, _, _) =>
      && outcome.Ok? && outcome.response.JobResponse? && Shows(e, outcome.response.job, job)
      && outcome.response.status == if job in db.operations && db.operations[job].status in {Succeeded, Failed, Cancelled, Interrupted}
                                    then 200 else 202
    case RetryJob(_, _, _) => outcome.Ok? && outcome.response.JobResponse? && outcome.response.status == 202
                              && Shows(e, outcome.response.job, db.nextId)
    case Revalidated(job, _, _, _) => outcome.Ok? && outcome.response.JobResponse? && outcome.response.status == 202
                                      && Shows(e, outcome.response.job, job)
    case SetHold(id, _, _, _) => outcome.Ok? && outcome.response.OperationResponse? && outcome.response.status == 200
                                 && Shows(e, outcome.response.operation, id)
    case Transition(id, _, _, _, _, _) => outcome.Ok? && outcome.response.OperationResponse? && outcome.response.status == 200
                                          && Shows(e, outcome.response.operation, id)
    case Reorder(_, _, _) => outcome.Ok? && ShowsQueue(e, outcome.response)
    case HoldItem(_, _, _, _) => outcome.Ok? && ShowsQueue(e, outcome.response)
    case SetDispatch(_, _, _) => outcome.Ok? && ShowsQueue(e, outcome.response)
    case BlockJob(job, _) => outcome.Viewed? && Shows(e, outcome.view, job)
    case RecordLaunch(id, _, _) => outcome.Viewed? && Shows(e, outcome.view, id)
    case FinishAttempt(job, _, _, _) => outcome.Viewed? && Shows(e, outcome.view, job)
    case FlagUnconfirmed(job, _) => outcome.Viewed? && Shows(e, outcome.view, job)
    case BeginAttempt(id, _, _) => outcome.Granted? && e.lease == Some(Lease(id, outcome.attempt, outcome.fence))
    case Recover(_) => outcome == Recovered
  }

  lemma {:induction false} NewViewsAre(db: Tables, first: nat, n: nat)
    requires forall id | first <= id < first + n :: id in db.operations
    ensures |NewViews(db, first, n)| == n
    ensures forall k: nat | k < n :: Shows(db, NewViews(db, first, n)[k], first + k)
  {
    if n > 0 { NewViewsAre(db, first, n - 1); }
  }

  /** A command that is carried out answers with the rows it leaves. */
  lemma AnswersShowTheState(db: Tables, c: Command)
    requires Inv(db) && Unanswered(db, c)
    ensures var r := Execute(db, c); r.1.Err? || AnswerShows(db, c, r.0, r.1)
  {
    PlainShows(db, c);
    var plain, r := Plain(db, c), Execute(db, c);
    if !r.1.Err? && KeyOf(c).Some? {
      assert r.1 == plain.1 && r.0 == plain.0.(replays := r.0.replays);
      if c.AcceptBatch? {
        forall k: nat | k < |c.snapshots| ensures Shows(r.0, r.1.response.jobs[k], db.nextId + k) {
          assert Shows(plain.0, plain.1.response.jobs[k], db.nextId + k);
        }
      }
    }
  }

  /** The commands of the worker side, which need no key. */
  ghost predicate OfAttempt(c: Command) {
    c.BeginAttempt? || c.RecordLaunch? || c.FinishAttempt? || c.FlagUnconfirmed? || c.Recover? || c.BlockJob?
  }

  lemma PlainShows(db: Tables, c: Command)
    requires Inv(db)
    ensures var r := Plain(db, c); r.1.Err? || AnswerShows(db, c, r.0, r.1)
  {
    match c
    case AcceptBatch(_, _, snapshots, rerunOf) => BatchShows(db, c);
    case CancelJob(job, _, _) => if job in db.operations { FinalStatuses(db.operations[job].status); }
    case _ => if OfAttempt(c) { AttemptShows(db, c); } else { RequestShows(db, c); }
  }

  lemma AttemptShows(db: Tables, c: Command)
    requires Inv(db) && OfAttempt(c)
    ensures var r := Plain(db, c); r.1.Err? || AnswerShows(db, c, r.0, r.1)
  {
    if c.BlockJob? {
      var job := c.job;
      assert OperationOk(db, job);
      if job in db.items && db.items[job].blocked { assert db.items[job := db.items[job].(blocked := true)] == db.items; }
    }
  }

  lemma RequestShows(db: Tables, c: Command)
    requires Inv(db) && !OfAttempt(c) && !c.AcceptBatch? && !c.CancelJob?
    ensures var r := Plain(db, c); r.1.Err? || AnswerShows(db, c, r.0, r.1)
  {
    if c.Reorder? || c.HoldItem? || c.SetDispatch? { QueueShows(db, c); } else { JobShows(db, c); }
  }

  lemma QueueShows(db: Tables, c: Command)
    requires Inv(db) && (c.Reorder? || c.HoldItem? || c.SetDispatch?)
    ensures var r := Plain(db, c); r.1.Err? || AnswerShows(db, c, r.0, r.1)
  {
  }

  lemma JobShows(db: Tables, c: Command)
    requires Inv(db) && (c.Submit? || c.RetryJob? || c.Revalidated? || c.SetHold? || c.Transition?)
    ensures var r := Plain(db, c); r.1.Err? || AnswerShows(db, c, r.0, r.1)
  {
  }

  lemma BatchShows(db: Tables, c: Command)
    requires Inv(db) && c.AcceptBatch?
    ensures var r := Plain(db, c); r.1.Err? || AnswerShows(db, c, r.0, r.1)
  {
    InsertAllKeeps(db, c.snapshots, |c.snapshots|);
    var e := QueueChanged(InsertAll(db, c.snapshots, |c.snapshots|));
    NewViewsAre(e, db.nextId, |c.snapshots|);
  }

  // ---------------------------------------------------------------- refusals

  /** The operation that a command names. */
  ghost function Named(c: Command): Option<nat> {
    match c
    case AcceptBatch(_, _, _, rerunOf) => rerunOf
    case CancelJob(job, _, _) => Some(job)
    case RetryJob(job, _, _) => Some(job)
    case BlockJob(job, _) => Some(job)
    case Revalidated(job, _, _, _) => Some(job)
    case HoldItem(item, _, _, _) => Some(item)
    case SetHold(operation, _, _, _) => Some(operation)
    case BeginAttempt(operation, _, _) => Some(operation)
    case RecordLaunch(operation, _, _) => Some(operation)
    case FinishAttempt(job, _, _, _) => Some(job)
    case FlagUnconfirmed(job, _) => Some(job)
    case Transition(operation, _, _, _, _, _) => Some(operation)
    case _ => None
  }

  /** The fence that a command presents. */
  ghost function Presented(c: Command): Option<nat> {
    match c
    case RecordLaunch(_, fence, _) => Some(fence)
    case FinishAttempt(_, fence, _, _) => Some(fence)
    case FlagUnconfirmed(_, fence) => Some(fence)
    case Transition(_, _, _, _, token, _) => token
    case _ => None
  }

  /** The revision that a command expects, of the queue or of what it names. */
  ghost predicate ExpectsWrongly(db: Tables, c: Command) {
    match c
    case Reorder(revision, _, _) => db.queueRevision != revision
    case HoldItem(_, revision, _, _) => db.queueRevision != revision
    case SetDispatch(revision, _, _) => db.queueRevision != revision
    case CancelJob(job, revision, _) => job in db.operations && db.operations[job].revision != revision
    case RetryJob(job, revision, _) => job in db.operations && db.operations[job].revision != revision
    case BlockJob(job, revision) => job in db.operations && db.operations[job].revision != revision
    case Revalidated(job, revision, _, _) => job in db.operations && db.operations[job].revision != revision
    case SetHold(id, revision, _, _) => id in db.operations && db.operations[id].revision != revision
    case BeginAttempt(id, revision, _) => id in db.operations && db.operations[id].revision != revision
    case Transition(id, revision, _, _, _, _) => id in db.operations && db.operations[id].revision != revision
    case _ => false
  }

  /** What each refusal says about the tables. None of them says that the store is corrupt. */
  ghost predicate RefusalMeans(db: Tables, c: Command, error: Error) {
    match error
    case NotFound =>
      Named(c).Some? && (Named(c).value !in db.operations || db.operations[Named(c).value].snapshot.None?
                         || (c.HoldItem? && c.item !in db.items))
    case RevisionConflict => ExpectsWrongly(db, c)
    case FencingStale =>
      Named(c).Some? && (db.lease.None? || db.lease.value.operation != Named(c).value || Presented(c) != Some(db.lease.value.fence))
    case QueuePaused => c.BeginAttempt? && !db.running
    case SlotOccupied => c.BeginAttempt? && db.lease.Some?
    case NotDispatchable => (c.Revalidated? && c.failed) || (c.BeginAttempt? && !First(db.items, c.operation))
                            || (c.BeginAttempt? && c.operation in db.operations && db.operations[c.operation].snapshot.None?)
    case IdempotencyConflict => !Unanswered(db, c)
    case RequestInvalid => c.Submit? || c.AcceptBatch? || c.Reorder? || c.FinishAttempt? || (c.Transition? && c.reason.Reserved?)
    case StateRefused => c.Reorder? || (Named(c).Some? && Named(c).value in db.operations)
    case StoreCorrupt => false
  }

  /** Every refusal means what it says, and from consistent tables no command finds them corrupt. */
  lemma RefusalsAreMeant(db: Tables, c: Command)
    requires Inv(db)
    ensures var outcome := Execute(db, c).1; outcome.Err? ==> RefusalMeans(db, c, outcome.error)
  {
    PlainRefusal(db, c);
    if WellSized(c) && KeyOf(c).Some? {
      KeyRefusal(db, KeyOf(c).value.0, KeyOf(c).value.1, Plain(db, c));
    }
  }

  lemma KeyRefusal(db: Tables, scope: Scope, digest: Digest, plain: Result)
    ensures var outcome := Keyed(db, scope, digest, plain).1;
            outcome.Err? ==> outcome == plain.1 || (outcome.error.IdempotencyConflict? && scope in db.replays)
  {
  }

  lemma PlainRefusal(db: Tables, c: Command)
    requires Inv(db)
    ensures var outcome := Plain(db, c).1; outcome.Err? ==> RefusalMeans(db, c, outcome.error)
  {
    if OfAttempt(c) { AttemptRefusal(db, c); } else { RequestRefusal(db, c); }
  }

  lemma AttemptRefusal(db: Tables, c: Command)
    requires Inv(db) && OfAttempt(c)
    ensures var outcome := Plain(db, c).1; outcome.Err? ==> RefusalMeans(db, c, outcome.error)
  {
    if Named(c).Some? { assert OperationOk(db, Named(c).value); }
    if db.lease.Some? { assert OperationOk(db, db.lease.value.operation); }
  }

  lemma RequestRefusal(db: Tables, c: Command)
    requires Inv(db) && !OfAttempt(c)
    ensures var outcome := Plain(db, c).1; outcome.Err? ==> RefusalMeans(db, c, outcome.error)
  {
    if Named(c).Some? { assert OperationOk(db, Named(c).value); }
  }

  // ---------------------------------------------------------------- requests under a key

  /** The same request: the same command with the same arguments, whatever its key. A submission
      and a batch are what their bodies are. */
  ghost predicate SameRequest(c: Command, d: Command) {
    match (c, d)
    case (Submit(_, a, _), Submit(_, b, _)) => a == b
    case (AcceptBatch(_, a, _, _), AcceptBatch(_, b, _, _)) => a == b
    case (CancelJob(_, _, _), CancelJob(_, _, _)) => c.job == d.job && c.revision == d.revision
    case (RetryJob(_, _, _), RetryJob(_, _, _)) => c.job == d.job && c.revision == d.revision
    case (Revalidated(_, _, _, _), Revalidated(_, _, _, _)) => c.job == d.job && c.revision == d.revision
    case (Reorder(_, _, _), Reorder(_, _, _)) => c.revision == d.revision && c.items == d.items
    case (HoldItem(_, _, _, _), HoldItem(_, _, _, _)) => c.item == d.item && c.revision == d.revision && c.held == d.held
    case (SetHold(_, _, _, _), SetHold(_, _, _, _)) => c.operation == d.operation && c.revision == d.revision && c.held == d.held
    case (SetDispatch(_, _, _), SetDispatch(_, _, _)) => c.revision == d.revision && c.running == d.running
    case (Transition(_, _, _, _, _, _), Transition(_, _, _, _, _, _)) =>
      && c.operation == d.operation && c.revision == d.revision && c.target == d.target && c.reason == d.reason && c.token == d.token
    case _ => false
  }

  /** Digests are equal exactly for the same request. */
  lemma DigestsTellRequestsApart(c: Command, d: Command)
    requires KeyOf(c).Some? && KeyOf(d).Some?
    ensures KeyOf(c).value.1 == KeyOf(d).value.1 <==> SameRequest(c, d)
  {
  }

  // ---------------------------------------------------------------- results over a run

  /** A fenced success with evidence of this running job that is accepted. */
  ghost predicate Completes(db: Tables, c: Command, id: nat) {
    && c.FinishAttempt? && c.job == id && c.ending.Success? && c.evidence
    && id in db.operations && db.operations[id].status.Running?
    && db.lease.Some? && db.lease.value.operation == id && db.lease.value.fence == c.fence
  }

  /** A result row appears with the attempt of the lease, and no row ever changes. */
  ghost predicate ResultStep(db: Tables, c: Command, e: Tables, id: nat) {
    && (id in e.results <==> id in db.results || Completes(db, c, id))
    && (id in db.results ==> e.results[id] == db.results[id])
    && (id !in db.results && id in e.results ==> e.results[id] == db.lease.value.attempt)
  }

  lemma StepResults(db: Tables, c: Command, id: nat)
    requires Inv(db)
    ensures ResultStep(db, c, Execute(db, c).0, id)
  {
    assert OperationOk(db, id);
    if c.FinishAttempt? {
      FinishEffect(db, c.job, c.fence, c.ending, c.evidence);
    } else {
      OthersLinkNothing(db, c);
    }
  }

  lemma OthersLinkNothing(db: Tables, c: Command)
    requires Inv(db) && !c.FinishAttempt?
    ensures Execute(db, c).0.results == db.results
  {
    PlainLinksNothing(db, c);
  }

  lemma PlainLinksNothing(db: Tables, c: Command)
    requires Inv(db) && !c.FinishAttempt?
    ensures Plain(db, c).0.results == db.results
  {
    match c
    case AcceptBatch(_, _, snapshots, _) => InsertAllKeeps(db, snapshots, |snapshots|);
    case Reorder(revision, ids, _) => ReorderResultIs(db, revision, ids);
    case Recover(decisions) => RecoverFrame(db, decisions);
    case _ => if OfAttempt(c) { AttemptLinksNothing(db, c); } else { RequestLinksNothing(db, c); }
  }

  lemma AttemptLinksNothing(db: Tables, c: Command)
    requires Inv(db) && OfAttempt(c) && !c.FinishAttempt? && !c.Recover?
    ensures Plain(db, c).0.results == db.results
  {
  }

  lemma RequestLinksNothing(db: Tables, c: Command)
    requires Inv(db) && !OfAttempt(c) && !c.AcceptBatch? && !c.Reorder?
    ensures Plain(db, c).0.results == db.results
  {
    match c
    case Transition(id, _, target, _, _, _) => TransitionLinksNothing(db, c);
    case CancelJob(job, _, _) =>
    case HoldItem(_, _, _, _) =>
    case SetHold(_, _, _, _) =>
    case _ => RowLinksNothing(db, c);
  }

  lemma TransitionLinksNothing(db: Tables, c: Command)
    requires Inv(db) && c.Transition?
    ensures Plain(db, c).0.results == db.results
  {
    TransitionResultIs(db, c.operation, c.revision, c.target, c.reason, c.token);
    assert Plain(db, c) == TransitionResult(db, c.operation, c.revision, c.target, c.reason, c.token);
  }

  lemma RowLinksNothing(db: Tables, c: Command)
    requires Inv(db) && (c.Submit? || c.RetryJob? || c.Revalidated? || c.SetDispatch?)
    ensures Plain(db, c).0.results == db.results
  {
  }

  ghost predicate CompletesAt(states: seq<Tables>, commands: seq<Command>, i: nat, id: nat) {
    i < |commands| && i < |states| && Completes(states[i], commands[i], id)
  }

  /** In a run a job has a result exactly when a fenced success with evidence found it running:
      neither a failure, nor a cancelled worker, nor a finish after a recorded cancel, nor a generic
      transition links one. */
  lemma ResultIffCompleted(states: seq<Tables>, commands: seq<Command>, outcomes: seq<Outcome>, n: nat, id: nat)
    requires Run(states, commands, outcomes) && n < |states|
    ensures id in states[n].results <==> exists i: nat :: i < n && CompletesAt(states, commands, i, id)
  {
    RunFacts(states, commands, outcomes);
    ResultsFrom(states, commands, outcomes, n, id);
  }

  lemma {:induction false} ResultsFrom(states: seq<Tables>, commands: seq<Command>, outcomes: seq<Outcome>, n: nat, id: nat)
    requires Run(states, commands, outcomes) && Facts(states, commands, outcomes) && n < |states|
    ensures id in states[n].results <==> exists i: nat :: i < n && CompletesAt(states, commands, i, id)
  {
    if n > 0 {
      ResultsFrom(states, commands, outcomes, n - 1, id);
      var i := n - 1;
      assert Step(states[i], commands[i], states[i + 1], outcomes[i]);
      StepResults(states[i], commands[i], id);
      assert CompletesAt(states, commands, i, id) <==> Completes(states[i], commands[i], id);
    }
  }

  /** How an accepted finish leaves a job, for good. */
  lemma FinishedForGood(states: seq<Tables>, commands: seq<Command>, outcomes: seq<Outcome>, m: nat, n: nat)
    requires Run(states, commands, outcomes) && m < n < |states| && commands[m].FinishAttempt? && outcomes[m].Viewed?
    ensures var c := commands[m];
            && c.job in states[m].operations && c.job in states[n].operations
            && var before, after := states[m].operations[c.job].status, states[n].operations[c.job].status;
               && (before.Running? || before.Cancelling?)
               && (after.Succeeded? <==> before.Running? && c.ending.Success?)
               && (after.Cancelled? <==> before.Cancelling? && !c.ending.Failure?)
               && (after.Failed? <==> c.ending.Failure? || (before.Running? && c.ending.WorkerCancelled?))
  {
    RunFacts(states, commands, outcomes);
    StateKept(states, commands, outcomes, m);
    var c := commands[m];
    assert Step(states[m], c, states[m + 1], outcomes[m]);
    FinishEffect(states[m], c.job, c.fence, c.ending, c.evidence);
    FinalStaysFrom(states, commands, outcomes, m + 1, n, c.job);
  }
}
