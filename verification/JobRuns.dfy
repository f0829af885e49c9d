/** Whole runs of the job and queue commands, in any order and with any arguments. */
module JobRuns {
  import opened Basics
  import opened ControlTables
  import opened JobCommands
  import opened JobInvariants

  function Empty(): Tables {
    Tables(map[], map[], None, map[], map[], true, 1, 0, 0, 0, map[])
  }

  lemma EmptyKept()
    ensures Inv(Empty())
  {
    forall id ensures OperationOk(Empty(), id) { }
  }

  // ---------------------------------------------------------------- one step, in summary

  /** Succeeded without a linked result. */
  ghost predicate Unlinked(db: Tables, id: nat) {
    id in db.operations && db.operations[id].status.Succeeded? && id !in db.results
  }

  /** A generic transition of this job to succeeded that nothing stops: no answer under its key,
      a reason of the caller's own, and none of the guards. */
  predicate SucceedsUnlinked(db: Tables, c: Command, id: nat) {
    && c.Transition? && c.operation == id && c.target.Succeeded?
    && (c.key.Some? ==> c.key.value !in db.replays)
    && c.reason.Open? && TransitionError(db, id, c.revision, c.target, c.token).None?
  }

  ghost predicate LinkStep(db: Tables, r: Result, c: Command, id: nat) {
    Unlinked(r.0, id) <==> Unlinked(db, id) || SucceedsUnlinked(db, c, id)
  }

  /** An answered key is in the table with its answer; a known key decides the answer and nothing
      changes. */
  ghost predicate KeyStep(db: Tables, r: Result, c: Command) {
    KeyOf(c).Some? ==>
      var scope, digest := KeyOf(c).value.0, KeyOf(c).value.1;
      && (r.1.Ok? ==> scope in r.0.replays && r.0.replays[scope] == Replay(digest, r.1.response))
      && (r.1.Ok? ==> (r.1.replayed <==> scope in db.replays))
      && (scope in db.replays && WellSized(c) ==>
            && r.0 == db
            && r.1 == if db.replays[scope].digest == digest then Ok(db.replays[scope].response, true) else Err(IdempotencyConflict))
  }

  /** Operations of a command that creates none, and which successes it leaves without a result. */
  ghost predicate Links(db: Tables, r: Result, c: Command) {
    && (!c.Submit? && !c.AcceptBatch? && !c.RetryJob? ==> r.0.operations.Keys == db.operations.Keys)
    && forall id {:trigger LinkStep(db, r, c, id)} :: LinkStep(db, r, c, id)
  }

  type Operations = map<nat, Operation>
  type Results = map<nat, nat>

  ghost predicate SameLink(db: Tables, operations: Operations, results: Results, id: nat) {
    (id in operations && operations[id].status.Succeeded? && id !in results) <==> Unlinked(db, id)
  }

  ghost predicate SameLinks(db: Tables, operations: Operations, results: Results) {
    forall id {:trigger SameLink(db, operations, results, id)} :: SameLink(db, operations, results, id)
  }

  lemma FromSame(db: Tables, r: Result, c: Command)
    requires SameLinks(db, r.0.operations, r.0.results) && !c.Transition?
    requires !c.Submit? && !c.AcceptBatch? && !c.RetryJob? ==> r.0.operations.Keys == db.operations.Keys
    ensures Links(db, r, c)
  {
    forall id ensures LinkStep(db, r, c, id) { assert SameLink(db, r.0.operations, r.0.results, id); }
  }

  lemma SameItself(db: Tables)
    ensures SameLinks(db, db.operations, db.results)
  {
  }

  lemma SameAfterInsert(db: Tables, snapshot: Option<nat>, retryOf: Option<nat>)
    requires Inv(db)
    ensures SameLinks(db, Inserted(db, snapshot, retryOf).operations, db.results)
  {
    assert OperationOk(db, db.nextId);
  }

  lemma SameAfterInsertAll(db: Tables, snapshots: seq<nat>, n: nat)
    requires Inv(db) && n <= |snapshots|
    ensures SameLinks(db, InsertAll(db, snapshots, n).operations, db.results)
  {
    InsertAllKeeps(db, snapshots, n);
    var e := InsertAll(db, snapshots, n);
    forall id ensures SameLink(db, e.operations, db.results, id) { assert OperationOk(db, id); }
  }

  lemma SameAfterRecord(db: Tables, id: nat, status: Status, flag: Option<nat>)
    requires id in db.operations && (status == db.operations[id].status || (!status.Succeeded? && !db.operations[id].status.Succeeded?))
    ensures SameLinks(db, Recorded(db, id, status, flag).operations, db.results)
    ensures Recorded(db, id, status, flag).operations.Keys == db.operations.Keys
  {
  }

  lemma SameAfterReflag(db: Tables, id: nat, held: bool, blocked: bool)
    requires Inv(db) && id in db.operations && Waiting(db.operations[id].status)
    ensures id in db.items
    ensures SameLinks(db, Reflagged(db, id, held, blocked).operations, db.results)
    ensures Reflagged(db, id, held, blocked).operations.Keys == db.operations.Keys
  {
    assert OperationOk(db, id);
    SameAfterRecord(db, id, StatusOf(db.items[id].(held := held, blocked := blocked)), None);
  }

  lemma SameAfterHoldAll(db: Tables)
    requires Inv(db)
    ensures SameLinks(db, HoldAll(db).operations, db.results) && HoldAll(db).operations.Keys == db.operations.Keys
  {
    forall id ensures SameLink(db, HoldAll(db).operations, db.results, id) { assert OperationOk(db, id); }
  }

  lemma SameAfterHolder(db: Tables, decisions: Decisions)
    requires Inv(db)
    ensures SameLinks(db, RecoverHolder(db, decisions).operations, db.results)
    ensures RecoverHolder(db, decisions).operations.Keys == db.operations.Keys && RecoverHolder(db, decisions).results == db.results
  {
    SameItself(db);
    if db.lease.Some? {
      var id := db.lease.value.operation;
      assert OperationOk(db, id);
      SameAfterRecord(ReleasedFrom(db, id, Lost), id, Interrupted, None);
      var own := (id, db.lease.value.fence);
      SameAfterRecord(db, id, db.operations[id].status,
                      if own in decisions && decisions[own].Required? then Some(FlagOf(decisions[own].reason)) else None);
      forall j ensures SameLink(db, RecoverHolder(db, decisions).operations, db.results, j) { }
    }
  }

  lemma SameAfterRecover(db: Tables, decisions: Decisions)
    requires Inv(db)
    ensures var e := RecoverHolder(HoldAll(db), decisions);
            SameLinks(db, e.operations, e.results) && e.operations.Keys == db.operations.Keys
  {
    HoldAllKeeps(db);
    var h := HoldAll(db);
    SameAfterHoldAll(db);
    SameAfterHolder(h, decisions);
    var e := RecoverHolder(h, decisions);
    forall id ensures SameLink(db, e.operations, e.results, id) {
      assert SameLink(db, h.operations, db.results, id) && SameLink(h, e.operations, h.results, id);
    }
  }

  /** The command creates no operation and leaves no success without a result. */
  ghost predicate Neutral(db: Tables, r: Result) {
    SameLinks(db, r.0.operations, r.0.results) && r.0.operations.Keys == db.operations.Keys
  }

  lemma SameAfterCancel(db: Tables, job: nat)
    requires Inv(db) && job in db.operations
    ensures var e := CancelChange(db, job);
            SameLinks(db, e.operations, e.results) && e.operations.Keys == db.operations.Keys
  {
    SameItself(db);
    var s := db.operations[job].status;
    if Waiting(s) {
      SameAfterRecord(ReleasedFrom(db, job, Released), job, Cancelled, None);
      SameAfterRecord(db, job, Cancelled, None);
    } else if s.Running? {
      SameAfterRecord(db, job, Cancelling, None);
    }
  }

  lemma FinishLinks(db: Tables, job: nat, fence: nat, ending: Ending, evidence: bool)
    requires Inv(db)
    ensures Neutral(db, FinishResult(db, job, fence, ending, evidence))
  {
    var r := FinishResult(db, job, fence, ending, evidence);
    SameItself(db);
    if r.1.Viewed? {
      var target := EndingStatus(db.operations[job].status, ending);
      if !target.Succeeded? {
        SameAfterRecord(db, job, target, None);
      } else {
        forall id ensures SameLink(db, r.0.operations, r.0.results, id) { }
      }
    }
  }

  lemma TransitionLinks(db: Tables, c: Command)
    requires Inv(db) && c.Transition? && (c.key.Some? ==> c.key.value !in db.replays)
    ensures Links(db, Plain(db, c), c)
  {
    var r := Plain(db, c);
    if c.reason.Open? && TransitionError(db, c.operation, c.revision, c.target, c.token).None? {
      TransitionSource(db, c.operation, c.target);
      TransitionShape(db, c.operation, c.target);
      assert r.0.operations == db.operations[c.operation := r.0.operations[c.operation]];
    } else {
      assert r.0 == db;
    }
    forall id ensures LinkStep(db, r, c, id) { }
  }

  /** `c` leads from `db` to `e` with this outcome. */
  ghost predicate Step(db: Tables, c: Command, e: Tables, outcome: Outcome) {
    Inv(db) && Execute(db, c) == (e, outcome)
  }

  lemma PlainLinks(db: Tables, c: Command)
    requires Inv(db) && !c.Transition?
    ensures Links(db, Plain(db, c), c)
  {
    match c {
      case BlockJob(job, revision) => BlockLinks(db, job, revision);
      case Revalidated(job, revision, _, failed) => RevalidatedLinks(db, job, revision, failed);
      case HoldItem(item, revision, held, _) => HoldLinks(db, item, revision, held);
      case SetHold(operation, revision, held, _) => HoldLinks(db, operation, revision, held);
      case FinishAttempt(job, fence, ending, evidence) => FinishLinks(db, job, fence, ending, evidence);
      case Recover(decisions) => SameAfterRecover(db, decisions);
      case BeginAttempt(_, _, _) => AttemptLinks(db, c);
      case FlagUnconfirmed(_, _) => AttemptLinks(db, c);
      case RecordLaunch(_, _, _) => QueueLinks(db, c);
      case Reorder(_, _, _) => QueueLinks(db, c);
      case SetDispatch(_, _, _) => QueueLinks(db, c);
      case _ => JobLinks(db, c);
    }
    FromSame(db, Plain(db, c), c);
  }

  lemma JobLinks(db: Tables, c: Command)
    requires Inv(db) && (c.Submit? || c.AcceptBatch? || c.CancelJob? || c.RetryJob?)
    ensures SameLinks(db, Plain(db, c).0.operations, Plain(db, c).0.results)
    ensures c.CancelJob? ==> Neutral(db, Plain(db, c))
  {
    SameItself(db);
    match c
    case Submit(_, _, _) => SameAfterInsert(db, None, None);
    case AcceptBatch(_, _, snapshots, _) =>
      InsertAllKeeps(db, snapshots, |snapshots|);
      SameAfterInsertAll(db, snapshots, |snapshots|);
    case CancelJob(job, _, _) => if job in db.operations { SameAfterCancel(db, job); }
    case RetryJob(job, _, _) => if job in db.operations { SameAfterInsert(db, db.operations[job].snapshot, Some(job)); }
  }

  lemma BlockLinks(db: Tables, job: nat, revision: nat)
    requires Inv(db)
    ensures Neutral(db, BlockResult(db, job, revision))
  {
    SameItself(db);
    assert OperationOk(db, job);
    if job in db.operations && Waiting(db.operations[job].status) { SameAfterReflag(db, job, db.items[job].held, true); }
  }

  lemma RevalidatedLinks(db: Tables, job: nat, revision: nat, failed: bool)
    requires Inv(db)
    ensures Neutral(db, RevalidatedResult(db, job, revision, failed))
  {
    SameItself(db);
    assert OperationOk(db, job);
    if job in db.operations && Waiting(db.operations[job].status) { SameAfterReflag(db, job, db.items[job].held, false); }
  }

  lemma HoldLinks(db: Tables, id: nat, revision: nat, held: bool)
    requires Inv(db)
    ensures Neutral(db, HoldItemResult(db, id, revision, held)) && Neutral(db, SetHoldResult(db, id, revision, held))
  {
    SameItself(db);
    assert OperationOk(db, id);
    if id in db.operations && Waiting(db.operations[id].status) { SameAfterReflag(db, id, held, db.items[id].blocked); }
  }

  lemma QueueLinks(db: Tables, c: Command)
    requires Inv(db) && (c.Reorder? || c.SetDispatch? || c.RecordLaunch?)
    ensures Neutral(db, Plain(db, c))
  {
  }

  lemma AttemptLinks(db: Tables, c: Command)
    requires Inv(db) && (c.BeginAttempt? || c.FlagUnconfirmed?)
    ensures Neutral(db, Plain(db, c))
  {
  }

  /** A key leaves the operations and results to its command. */
  lemma KeyLinks(db: Tables, scope: Scope, digest: Digest, plain: Result, c: Command)
    requires if scope in db.replays then forall id :: !SucceedsUnlinked(db, c, id) else Links(db, plain, c)
    ensures Links(db, Keyed(db, scope, digest, plain), c)
  {
    var r := Keyed(db, scope, digest, plain);
    forall id ensures LinkStep(db, r, c, id) {
      if scope !in db.replays { assert LinkStep(db, plain, c, id); }
    }
  }

  lemma StepLinks(db: Tables, c: Command)
    requires Inv(db)
    ensures Links(db, Execute(db, c), c)
  {
    if !WellSized(c) {
      SameItself(db);
      FromSame(db, (db, Err(RequestInvalid)), c);
    } else {
      if !c.Transition? {
        PlainLinks(db, c);
      } else if c.key.Some? ==> c.key.value !in db.replays {
        TransitionLinks(db, c);
      }
      if KeyOf(c).Some? { KeyLinks(db, KeyOf(c).value.0, KeyOf(c).value.1, Plain(db, c), c); }
    }
  }

  lemma StepKey(db: Tables, c: Command)
    requires Inv(db)
    ensures KeyStep(db, Execute(db, c), c)
  {
    if KeyOf(c).Some? { PlainIsFresh(db, c); }
  }

  /** A command that is not answered from the table gives a new answer. */
  lemma PlainIsFresh(db: Tables, c: Command)
    requires Inv(db)
    ensures Plain(db, c).1.Ok? ==> !Plain(db, c).1.replayed
  {
  }

  // ---------------------------------------------------------------- what is created

  function JobIds(db: Tables): set<nat> {
    set id | id in db.operations && db.operations[id].snapshot.Some?
  }

  /** Jobs created by one command: a fresh batch its size, a fresh retry one. */
  function Created(c: Command, outcome: Outcome): nat {
    if !outcome.Ok? || outcome.replayed then 0
    else match c
      case AcceptBatch(_, _, snapshots, _) => |snapshots|
      case RetryJob(_, _, _) => 1
      case _ => 0
  }

  lemma InsertedCount(db: Tables, snapshot: nat)
    requires Inv(db)
    ensures |JobIds(Inserted(db, Some(snapshot), None))| == |JobIds(db)| + 1
  {
    assert OperationOk(db, db.nextId);
    assert JobIds(Inserted(db, Some(snapshot), None)) == JobIds(db) + {db.nextId};
  }

  lemma {:induction false} InsertAllCount(db: Tables, snapshots: seq<nat>, n: nat)
    requires Inv(db) && n <= |snapshots|
    ensures |JobIds(InsertAll(db, snapshots, n))| == |JobIds(db)| + n
  {
    if n > 0 {
      InsertAllCount(db, snapshots, n - 1);
      InsertAllKeeps(db, snapshots, n - 1);
      InsertedCount(InsertAll(db, snapshots, n - 1), snapshots[n - 1]);
    }
  }

  lemma CreationStep(db: Tables, c: Command)
    requires Inv(db)
    ensures |JobIds(Execute(db, c).0)| == |JobIds(db)| + Created(c, Execute(db, c).1)
  {
    PlainCreates(db, c);
    if WellSized(c) && KeyOf(c).Some? { KeyCreates(db, c, KeyOf(c).value.0, KeyOf(c).value.1, Plain(db, c)); }
  }

  lemma KeyCreates(db: Tables, c: Command, scope: Scope, digest: Digest, plain: Result)
    requires |JobIds(plain.0)| == |JobIds(db)| + Created(c, plain.1)
    ensures var r := Keyed(db, scope, digest, plain); |JobIds(r.0)| == |JobIds(db)| + Created(c, r.1)
  {
    assert JobIds(Keyed(db, scope, digest, plain).0) == if scope in db.replays then JobIds(db) else JobIds(plain.0);
  }

  lemma PlainCreates(db: Tables, c: Command)
    requires Inv(db)
    ensures |JobIds(Plain(db, c).0)| == |JobIds(db)| + Created(c, Plain(db, c).1)
  {
    match c
    case Submit(_, _, valid) => SubmitCreates(db, valid);
    case AcceptBatch(_, _, snapshots, rerunOf) => AcceptCreates(db, snapshots, rerunOf);
    case RetryJob(job, revision, _) => RetryCreates(db, job, revision);
    case _ =>
      PlainKeeps(db, c);
      if c.Transition? { TransitionCreates(db, c); } else { PlainLinks(db, c); }
      SameJobs(db, Plain(db, c).0);
  }

  lemma TransitionCreates(db: Tables, c: Command)
    requires Inv(db) && c.Transition?
    ensures Plain(db, c).0.operations.Keys == db.operations.Keys
  {
    if c.reason.Open? && TransitionError(db, c.operation, c.revision, c.target, c.token).None? {
      TransitionSource(db, c.operation, c.target);
      TransitionShape(db, c.operation, c.target);
    }
  }

  lemma SameJobs(db: Tables, e: Tables)
    requires Evolves(db, e) && e.operations.Keys == db.operations.Keys
    ensures JobIds(e) == JobIds(db)
  {
    forall id ensures id in JobIds(e) <==> id in JobIds(db) { assert OperationEvolves(db, e, id); }
  }

  lemma SubmitCreates(db: Tables, valid: bool)
    requires Inv(db)
    ensures JobIds(SubmitResult(db, valid).0) == JobIds(db)
  {
    assert OperationOk(db, db.nextId);
  }

  lemma AcceptCreates(db: Tables, snapshots: seq<nat>, rerunOf: Option<nat>)
    requires Inv(db)
    ensures var r := AcceptBatchResult(db, snapshots, rerunOf);
            |JobIds(r.0)| == |JobIds(db)| + if r.1.Ok? then |snapshots| else 0
  {
    InsertAllCount(db, snapshots, |snapshots|);
    var r := AcceptBatchResult(db, snapshots, rerunOf);
    if r.1.Ok? { assert JobIds(r.0) == JobIds(InsertAll(db, snapshots, |snapshots|)); }
  }

  lemma RetryCreates(db: Tables, job: nat, revision: nat)
    requires Inv(db)
    ensures var r := RetryResult(db, job, revision);
            |JobIds(r.0)| == |JobIds(db)| + if r.1.Ok? then 1 else 0
  {
    assert OperationOk(db, db.nextId);
    var r := RetryResult(db, job, revision);
    if r.1.Ok? { assert JobIds(r.0) == JobIds(db) + {db.nextId}; }
  }

  // ---------------------------------------------------------------- dispatch

  ghost function NextDispatchable(db: Tables): Option<(nat, nat)>
    requires Inv(db)
  {
    if !db.running || db.lease.Some? || !exists id :: First(db.items, id) then None
    else
      var id :| First(db.items, id);
      assert OperationOk(db, id);
      if db.operations[id].snapshot.None? then None else Some((id, db.operations[id].revision))
  }

  lemma FirstIsUnique(db: Tables, a: nat, b: nat)
    requires Inv(db) && First(db.items, a) && First(db.items, b)
    ensures a == b
  {
    assert a != b ==> !SamePlace(db.items, a, b);
  }

  /** The hint names exactly the job, and the revision, that `begin_attempt` would accept. */
  lemma HintAgreesWithGuard(db: Tables, id: nat, revision: nat, owner: nat)
    requires Inv(db)
    ensures NextDispatchable(db) == Some((id, revision)) <==> BeginResult(db, id, revision, owner).1.Granted?
  {
    assert OperationOk(db, id);
    if First(db.items, id) {
      forall other | First(db.items, other) ensures other == id { FirstIsUnique(db, id, other); }
    }
  }

  /** A granted job is the first eligible one in queue order; the items before it are held or
      blocked. */
  lemma GrantTakesFirstEligible(db: Tables, id: nat, revision: nat, owner: nat)
    requires Inv(db) && BeginResult(db, id, revision, owner).1.Granted?
    ensures id in QueueOrder(db) && db.running && db.lease.None?
    ensures forall k, j | 0 <= j < k < |QueueOrder(db)| && QueueOrder(db)[k] == id ::
              QueueOrder(db)[j] in db.items && !Eligible(db.items[QueueOrder(db)[j]])
  {
    WaitingPlaced(db);
    var waiting := WaitingItems(db.items);
    var order := QueueOrder(db);
    OrderListsAll(db.items, waiting);
    OrderAscends(db.items, waiting);
    assert id in waiting;
    forall k, j | 0 <= j < k < |order| && order[k] == id ensures order[j] in db.items && !Eligible(db.items[order[j]]) {
      assert Before(db.items, order[j], order[k]);
    }
  }

  // ---------------------------------------------------------------- runs

  /** What is known of a step without looking at the command. */
  ghost predicate StepFacts(db: Tables, c: Command, e: Tables, outcome: Outcome) {
    && Inv(db) && Inv(e) && Evolves(db, e) && Links(db, (e, outcome), c) && KeyStep(db, (e, outcome), c)
    && |JobIds(e)| == |JobIds(db)| + Created(c, outcome)
  }

  lemma StepHolds(db: Tables, c: Command, e: Tables, outcome: Outcome)
    requires Step(db, c, e, outcome)
    ensures StepFacts(db, c, e, outcome)
  {
    CommandKeeps(db, c);
    StepLinks(db, c);
    StepKey(db, c);
    CreationStep(db, c);
  }

  /** A run: the tables before and after each command, and its outcome. */
  ghost predicate Run(states: seq<Tables>, commands: seq<Command>, outcomes: seq<Outcome>) {
    && |states| == |commands| + 1 && |outcomes| == |commands| && states[0] == Empty()
    && forall i {:trigger Step(states[i], commands[i], states[i + 1], outcomes[i])} | 0 <= i < |commands| ::
         Step(states[i], commands[i], states[i + 1], outcomes[i])
  }

  ghost predicate Facts(states: seq<Tables>, commands: seq<Command>, outcomes: seq<Outcome>) {
    && |states| == |commands| + 1 && |outcomes| == |commands| && states[0] == Empty() && Inv(states[|commands|])
    && forall i {:trigger StepFacts(states[i], commands[i], states[i + 1], outcomes[i])} | 0 <= i < |commands| ::
         StepFacts(states[i], commands[i], states[i + 1], outcomes[i])
  }

  lemma RunFacts(states: seq<Tables>, commands: seq<Command>, outcomes: seq<Outcome>)
    requires Run(states, commands, outcomes)
    ensures Facts(states, commands, outcomes)
  {
    forall i | 0 <= i < |commands| ensures StepFacts(states[i], commands[i], states[i + 1], outcomes[i]) {
      assert Step(states[i], commands[i], states[i + 1], outcomes[i]);
      StepHolds(states[i], commands[i], states[i + 1], outcomes[i]);
    }
    EmptyKept();
    if |commands| > 0 {
      var last := |commands| - 1;
      assert StepFacts(states[last], commands[last], states[last + 1], outcomes[last]);
    }
  }

  lemma FactAt(states: seq<Tables>, commands: seq<Command>, outcomes: seq<Outcome>, i: nat)
    requires Facts(states, commands, outcomes) && i < |commands|
    ensures StepFacts(states[i], commands[i], states[i + 1], outcomes[i])
  {
    assert StepFacts(states[i], commands[i], states[i + 1], outcomes[i]);
  }

  lemma StateKept(states: seq<Tables>, commands: seq<Command>, outcomes: seq<Outcome>, n: nat)
    requires Facts(states, commands, outcomes) && n < |states|
    ensures Inv(states[n])
  {
    if n < |commands| { assert StepFacts(states[n], commands[n], states[n + 1], outcomes[n]); }
  }

  // ---------------------------------------------------------------- statuses over a run

  /** In every reachable state: a waiting job's status is what its flags say, exactly one job, the
      lease holder, is active, it is the one active queue item, and only succeeded jobs have a
      result. */
  lemma EveryStateIsConsistent(states: seq<Tables>, commands: seq<Command>, outcomes: seq<Outcome>, n: nat, id: nat)
    requires Run(states, commands, outcomes) && n < |states| && id in states[n].operations
    ensures var db := states[n]; var s := db.operations[id].status;
            && (Waiting(s) <==> id in db.items && !db.items[id].active)
            && (Waiting(s) ==> s == (if db.items[id].blocked then Blocked else if db.items[id].held then Held else Queued))
            && (Active(s) <==> db.lease.Some? && db.lease.value.operation == id)
            && (Active(s) <==> id in db.items && db.items[id].active)
            && (id in db.results ==> s.Succeeded?)
  {
    RunFacts(states, commands, outcomes);
    StateKept(states, commands, outcomes, n);
    assert OperationOk(states[n], id);
  }

  /** A final job never changes again. */
  lemma FinalStays(states: seq<Tables>, commands: seq<Command>, outcomes: seq<Outcome>, m: nat, n: nat, id: nat)
    requires Run(states, commands, outcomes)
    requires m <= n < |states| && id in states[m].operations && Final(states[m].operations[id].status)
    ensures id in states[n].operations && states[n].operations[id] == states[m].operations[id]
  {
    RunFacts(states, commands, outcomes);
    FinalStaysFrom(states, commands, outcomes, m, n, id);
  }

  lemma {:induction false} FinalStaysFrom(states: seq<Tables>, commands: seq<Command>, outcomes: seq<Outcome>, m: nat, n: nat, id: nat)
    requires Facts(states, commands, outcomes)
    requires m <= n < |states| && id in states[m].operations && Final(states[m].operations[id].status)
    ensures id in states[n].operations && states[n].operations[id] == states[m].operations[id]
    decreases n
  {
    if m < n {
      FinalStaysFrom(states, commands, outcomes, m, n - 1, id);
      FactAt(states, commands, outcomes, n - 1);
      assert OperationEvolves(states[n - 1], states[n], id);
    }
  }

  predicate PastCancel(s: Status) {
    s.Cancelling? || s.Cancelled? || s.Failed? || s.Interrupted?
  }

  /** Once a cancel is recorded on a running job it never succeeds and never has a result. */
  lemma CancellingNeverSucceeds(states: seq<Tables>, commands: seq<Command>, outcomes: seq<Outcome>, m: nat, n: nat, id: nat)
    requires Run(states, commands, outcomes)
    requires m <= n < |states| && id in states[m].operations && states[m].operations[id].status.Cancelling?
    ensures id in states[n].operations && PastCancel(states[n].operations[id].status) && id !in states[n].results
  {
    RunFacts(states, commands, outcomes);
    PastCancelStays(states, commands, outcomes, m, n, id);
    StateKept(states, commands, outcomes, n);
    assert OperationOk(states[n], id);
  }

  lemma {:induction false} PastCancelStays(states: seq<Tables>, commands: seq<Command>, outcomes: seq<Outcome>, m: nat, n: nat, id: nat)
    requires Facts(states, commands, outcomes)
    requires m <= n < |states| && id in states[m].operations && states[m].operations[id].status.Cancelling?
    ensures id in states[n].operations && PastCancel(states[n].operations[id].status)
    decreases n
  {
    if m < n {
      PastCancelStays(states, commands, outcomes, m, n - 1, id);
      FactAt(states, commands, outcomes, n - 1);
      assert OperationEvolves(states[n - 1], states[n], id);
    }
  }

  /** A job succeeds without a linked result exactly when a generic transition, and not the fenced
      reconciliation, took it there. */
  lemma SucceededHasResult(states: seq<Tables>, commands: seq<Command>, outcomes: seq<Outcome>, n: nat, id: nat)
    requires Run(states, commands, outcomes) && n < |states|
    ensures Unlinked(states[n], id) <==> exists i {:trigger commands[i]} :: 0 <= i < n && SucceedsUnlinked(states[i], commands[i], id)
  {
    RunFacts(states, commands, outcomes);
    UnlinkedFrom(states, commands, outcomes, n, id);
  }

  lemma {:induction false} UnlinkedFrom(states: seq<Tables>, commands: seq<Command>, outcomes: seq<Outcome>, n: nat, id: nat)
    requires Facts(states, commands, outcomes) && n < |states|
    ensures Unlinked(states[n], id) <==> exists i {:trigger commands[i]} :: 0 <= i < n && SucceedsUnlinked(states[i], commands[i], id)
  {
    if n > 0 {
      UnlinkedFrom(states, commands, outcomes, n - 1, id);
      LinkAt(states, commands, outcomes, n - 1, id);
    }
  }

  lemma LinkAt(states: seq<Tables>, commands: seq<Command>, outcomes: seq<Outcome>, i: nat, id: nat)
    requires Facts(states, commands, outcomes) && i < |commands|
    ensures Unlinked(states[i + 1], id) <==> Unlinked(states[i], id) || SucceedsUnlinked(states[i], commands[i], id)
  {
    FactAt(states, commands, outcomes, i);
    assert LinkStep(states[i], (states[i + 1], outcomes[i]), commands[i], id);
  }

  /** Such a transition is open to whoever holds the lease of a running job. */
  lemma TransitionCanSucceedUnlinked(db: Tables, id: nat)
    requires Inv(db) && id in db.operations && db.operations[id].status.Running?
    ensures db.lease.Some?
    ensures var c := Transition(id, db.operations[id].revision, Succeeded, Open(0), Some(db.lease.value.fence), None);
            SucceedsUnlinked(db, c, id) && Unlinked(Execute(db, c).0, id)
  {
    assert OperationOk(db, id);
  }

  // ---------------------------------------------------------------- idempotency over a run

  lemma {:induction false} AnswersStay(states: seq<Tables>, commands: seq<Command>, outcomes: seq<Outcome>, m: nat, n: nat, scope: Scope)
    requires Facts(states, commands, outcomes) && m <= n < |states| && scope in states[m].replays
    ensures scope in states[n].replays && states[n].replays[scope] == states[m].replays[scope]
    decreases n
  {
    if m < n {
      AnswersStay(states, commands, outcomes, m, n - 1, scope);
      FactAt(states, commands, outcomes, n - 1);
    }
  }

  /** Once a keyed command was answered, whatever happens in between: the same request gets the
      same answer and changes nothing, and another request under the key is a conflict and changes
      nothing. Only a batch outside the size limit gets another answer, and changes nothing either. */
  lemma RepeatsGetTheFirstAnswer(states: seq<Tables>, commands: seq<Command>, outcomes: seq<Outcome>, i: nat, j: nat)
    requires Run(states, commands, outcomes) && i < j < |commands| && KeyOf(commands[i]).Some? && KeyOf(commands[j]).Some?
    requires KeyOf(commands[i]).value.0 == KeyOf(commands[j]).value.0
    requires outcomes[i].Ok?
    ensures states[j + 1] == states[j]
    ensures outcomes[j] ==
            if !WellSized(commands[j]) then Err(RequestInvalid)
            else if KeyOf(commands[i]).value.1 == KeyOf(commands[j]).value.1 then Ok(outcomes[i].response, true) else Err(IdempotencyConflict)
  {
    RunFacts(states, commands, outcomes);
    assert StepFacts(states[i], commands[i], states[i + 1], outcomes[i]);
    AnswersStay(states, commands, outcomes, i + 1, j, KeyOf(commands[i]).value.0);
    assert StepFacts(states[j], commands[j], states[j + 1], outcomes[j]);
    assert Step(states[j], commands[j], states[j + 1], outcomes[j]);
  }

  /** No key is fresh twice. */
  lemma FreshKeysAreDistinct(states: seq<Tables>, commands: seq<Command>, outcomes: seq<Outcome>, i: nat, j: nat)
    requires Run(states, commands, outcomes) && i < j < |commands| && KeyOf(commands[i]).Some? && KeyOf(commands[j]).Some?
    requires outcomes[i].Ok? && outcomes[j].Ok? && !outcomes[j].replayed
    ensures KeyOf(commands[i]).value.0 != KeyOf(commands[j]).value.0
  {
    RunFacts(states, commands, outcomes);
    assert StepFacts(states[i], commands[i], states[i + 1], outcomes[i]);
    assert StepFacts(states[j], commands[j], states[j + 1], outcomes[j]);
    AnswersStay(states, commands, outcomes, i + 1, j, KeyOf(commands[i]).value.0);
  }

  ghost function TotalCreated(commands: seq<Command>, outcomes: seq<Outcome>, n: nat): nat
    requires n <= |commands| == |outcomes|
  {
    if n == 0 then 0 else TotalCreated(commands, outcomes, n - 1) + Created(commands[n - 1], outcomes[n - 1])
  }

  /** The number of jobs is the sum of the sizes of the fresh batches plus the fresh retries;
      repeats, conflicts and every other command create none. */
  lemma JobsAreAccountedFor(states: seq<Tables>, commands: seq<Command>, outcomes: seq<Outcome>, n: nat)
    requires Run(states, commands, outcomes) && n < |states|
    ensures |JobIds(states[n])| == TotalCreated(commands, outcomes, n)
  {
    RunFacts(states, commands, outcomes);
    JobsCounted(states, commands, outcomes, n);
  }

  lemma {:induction false} JobsCounted(states: seq<Tables>, commands: seq<Command>, outcomes: seq<Outcome>, n: nat)
    requires Facts(states, commands, outcomes) && n < |states|
    ensures |JobIds(states[n])| == TotalCreated(commands, outcomes, n)
  {
    if n == 0 {
      assert JobIds(Empty()) == {};
    } else {
      JobsCounted(states, commands, outcomes, n - 1);
      FactAt(states, commands, outcomes, n - 1);
    }
  }
}
