/** The job and queue commands as transactions on the control tables
    (`src/utteran_control/job_repository.py`, `src/utteran_control/store.py`). A command that
    raises leaves the tables as they were. */
module JobCommands {
  import opened Basics
  import opened ControlTables
  import R = Recovery

  const MAX_BATCH: nat := 100

  /** The flag of an exit that could not be confirmed, and those of recovery. */
  const TERMINATION_FAILED: nat := 0

  function FlagOf(reason: R.Reason): nat {
    match reason
    case OwnerLost => 1
    case PidIsReused => 2
    case OwnerUnverified => 3
    case LaunchUnconfirmed => 4
    case ChildAlive => 5
  }

  datatype Error =
    | RequestInvalid | NotFound | RevisionConflict | StateRefused | IdempotencyConflict
    | NotDispatchable | QueuePaused | SlotOccupied | FencingStale | StoreCorrupt

  datatype Outcome =
    | Ok(response: Response, replayed: bool)
    | Viewed(view: View)
    | Granted(attempt: nat, fence: nat)
    | Recovered
    | Err(error: Error)

  datatype Ending = Success | Failure | WorkerCancelled

  type Decisions = map<(nat, nat), R.Decision>

  datatype Command =
    | Submit(scope: Scope, body: nat, valid: bool)
    | AcceptBatch(scope: Scope, request: nat, snapshots: seq<nat>, rerunOf: Option<nat>)
    | CancelJob(job: nat, revision: nat, scope: Scope)
    | RetryJob(job: nat, revision: nat, scope: Scope)
    | BlockJob(job: nat, revision: nat)
    | Revalidated(job: nat, revision: nat, scope: Scope, failed: bool)
    | Reorder(revision: nat, items: seq<nat>, scope: Scope)
    | HoldItem(item: nat, revision: nat, held: bool, scope: Scope)
    | SetHold(operation: nat, revision: nat, held: bool, key: Option<Scope>)
    | SetDispatch(revision: nat, running: bool, key: Option<Scope>)
    | BeginAttempt(operation: nat, revision: nat, owner: nat)
    | RecordLaunch(operation: nat, fence: nat, child: Option<nat>)
    | FinishAttempt(job: nat, fence: nat, ending: Ending, evidence: bool)
    | FlagUnconfirmed(job: nat, fence: nat)
    | Recover(decisions: Decisions)
    | Transition(operation: nat, revision: nat, target: Status, reason: Reason, token: Option<nat>, key: Option<Scope>)

  type Result = (Tables, Outcome)

  // ---------------------------------------------------------------- shared pieces

  function ViewOf(db: Tables, id: nat): View
    requires id in db.operations
  {
    View(id, db.operations[id], if id in db.items then Some(db.items[id]) else None)
  }

  /** The first answer under this key, a conflict, or nothing yet. One key has one kind of
      answer, and digests of different kinds differ. */
  function Lookup(db: Tables, scope: Scope, digest: Digest): Option<Outcome> {
    if scope !in db.replays then None
    else if db.replays[scope].digest != digest then Some(Err(IdempotencyConflict))
    else Some(Ok(db.replays[scope].response, true))
  }

  /** A command under a key: its first answer again, or the command itself, whose answer is kept
      in the same transaction. */
  function Keyed(db: Tables, scope: Scope, digest: Digest, plain: Result): Result {
    var replay := Lookup(db, scope, digest);
    if replay.Some? then (db, replay.value)
    else if plain.1.Ok? then (WithAnswer(plain.0, scope, digest, plain.1.response), plain.1)
    else plain
  }

  function WithAnswer(db: Tables, scope: Scope, digest: Digest, response: Response): Tables {
    db.(replays := db.replays[scope := Replay(digest, response)])
  }

  function Answered(db: Tables, response: Response): Result {
    (db, Ok(response, false))
  }

  function AnsweredJob(db: Tables, status: nat, job: nat): Result
    requires job in db.operations
  {
    Answered(db, JobResponse(status, ViewOf(db, job)))
  }

  function AnsweredOperation(db: Tables, status: nat, id: nat): Result
    requires id in db.operations
  {
    Answered(db, OperationResponse(status, ViewOf(db, id)))
  }

  function AnsweredQueue(db: Tables): Result {
    Answered(db, QueueResponse(db.queueRevision, db.running, db.items))
  }

  /** Existence, snapshot and revision of a job, in that order. */
  function CheckJob(db: Tables, job: nat, revision: nat): (error: Option<Error>)
    ensures error.None? <==> job in db.operations && db.operations[job].snapshot.Some? && db.operations[job].revision == revision
  {
    if job !in db.operations || db.operations[job].snapshot.None? then Some(NotFound)
    else if db.operations[job].revision != revision then Some(RevisionConflict)
    else None
  }

  predicate Holds(db: Tables, id: nat, fence: nat) {
    id in db.operations && db.lease.Some? && db.lease.value.operation == id && db.lease.value.fence == fence
  }

  // ---------------------------------------------------------------- submissions

  function InsertAll(db: Tables, snapshots: seq<nat>, n: nat): Tables
    requires n <= |snapshots|
  {
    if n == 0 then db else Inserted(InsertAll(db, snapshots, n - 1), Some(snapshots[n - 1]), None)
  }

  /** The views of the `n` operations from `first` on. */
  function NewViews(db: Tables, first: nat, n: nat): seq<View>
    requires forall id | first <= id < first + n :: id in db.operations
  {
    if n == 0 then [] else NewViews(db, first, n - 1) + [ViewOf(db, first + n - 1)]
  }

  lemma {:induction false} InsertAllKeeps(db: Tables, snapshots: seq<nat>, n: nat)
    requires Inv(db) && n <= |snapshots|
    ensures var e := InsertAll(db, snapshots, n);
            && Inv(e) && e.nextId == db.nextId + n && e == db.(operations := e.operations, items := e.items, nextId := e.nextId, enqueued := e.enqueued)
            && (forall id :: id in e.operations <==> id in db.operations || db.nextId <= id < db.nextId + n)
            && (forall id | id in db.operations :: e.operations[id] == db.operations[id])
            && (forall id | db.nextId <= id < db.nextId + n :: e.operations[id] == Operation(Queued, 1, None, Some(snapshots[id - db.nextId]), None))
  {
    if n > 0 {
      InsertAllKeeps(db, snapshots, n - 1);
      var m := InsertAll(db, snapshots, n - 1);
      InsertKeeps(m, Some(snapshots[n - 1]), None);
      assert OperationOk(db, db.nextId + n - 1);
    }
  }

  function SubmitResult(db: Tables, valid: bool): (r: Result)
    ensures r.0.replays == db.replays && SameSlot(db, r.0)
  {
    if !valid then (db, Err(RequestInvalid))
    else AnsweredOperation(QueueChanged(Inserted(db, None, None)), 201, db.nextId)
  }

  function RerunError(db: Tables, rerunOf: Option<nat>): Option<Error> {
    if rerunOf.None? then None
    else if rerunOf.value !in db.operations || db.operations[rerunOf.value].snapshot.None? then Some(NotFound)
    else if !Final(db.operations[rerunOf.value].status) then Some(StateRefused)
    else None
  }

  function AcceptBatchResult(db: Tables, snapshots: seq<nat>, rerunOf: Option<nat>): Result
    requires Inv(db)
  {
    if RerunError(db, rerunOf).Some? then (db, Err(RerunError(db, rerunOf).value))
    else
      InsertAllKeeps(db, snapshots, |snapshots|);
      var e := QueueChanged(InsertAll(db, snapshots, |snapshots|));
      Answered(e, BatchResponse(202, NewViews(e, db.nextId, |snapshots|), e.queueRevision))
  }

  // ---------------------------------------------------------------- job commands

  function CancelResult(db: Tables, job: nat, revision: nat): (r: Result)
    ensures r.0.replays == db.replays
  {
    var error := CheckJob(db, job, revision);
    if error.Some? then (db, Err(error.value))
    else
      var s := db.operations[job].status;
      if s.Running? && (db.lease.None? || db.lease.value.operation != job) then (db, Err(StoreCorrupt))
      else AnsweredJob(CancelChange(db, job), if Final(s) then 200 else 202, job)
  }

  /** A waiting job ends at once, a running one starts to cancel, any other stays as it is. */
  function CancelChange(db: Tables, job: nat): (e: Tables)
    requires job in db.operations
    ensures job in e.operations && e.replays == db.replays
  {
    var s := db.operations[job].status;
    if Waiting(s) then QueueChanged(Ended(db, job, Cancelled, Released))
    else if s.Running? then Recorded(db, job, Cancelling, None)
    else db
  }

  function RetryResult(db: Tables, job: nat, revision: nat): (r: Result)
    ensures r.0.replays == db.replays && SameSlot(db, r.0)
  {
    var error := CheckJob(db, job, revision);
    if error.Some? then (db, Err(error.value))
    else if db.operations[job].status !in {Failed, Cancelled, Interrupted} then (db, Err(StateRefused))
    else AnsweredJob(QueueChanged(Inserted(db, db.operations[job].snapshot, Some(job))), 202, db.nextId)
  }

  function BlockResult(db: Tables, job: nat, revision: nat): (r: Result)
    ensures SameSlot(db, r.0)
  {
    var error := CheckJob(db, job, revision);
    if error.Some? then (db, Err(error.value))
    else if !Waiting(db.operations[job].status) then (db, Err(StateRefused))
    else if job !in db.items then (db, Err(StoreCorrupt))
    else if db.operations[job].status.Blocked? then
      (db.(items := db.items[job := db.items[job].(blocked := true)]), Viewed(ViewOf(db, job)))
    else
      var e := QueueChanged(Reflagged(db, job, db.items[job].held, true));
      (e, Viewed(ViewOf(e, job)))
  }

  function RevalidatedResult(db: Tables, job: nat, revision: nat, failed: bool): (r: Result)
    ensures r.0.replays == db.replays && SameSlot(db, r.0)
  {
    var error := CheckJob(db, job, revision);
    if error.Some? then (db, Err(error.value))
    else if !db.operations[job].status.Blocked? then (db, Err(StateRefused))
    else if failed then (db, Err(NotDispatchable))
    else if job !in db.items then (db, Err(StoreCorrupt))
    else AnsweredJob(QueueChanged(Reflagged(db, job, db.items[job].held, false)), 202, job)
  }

  // ---------------------------------------------------------------- queue commands

  function WaitingItems(items: map<nat, Item>): set<nat> {
    set id | id in items && !items[id].active
  }

  ghost predicate Placed(items: map<nat, Item>, ids: set<nat>) {
    forall id | id in ids :: id in items && items[id].place.Some?
  }

  ghost predicate Least(items: map<nat, Item>, ids: set<nat>, id: nat)
    requires Placed(items, ids)
  {
    id in ids && forall other | other in ids :: items[id].place.value <= items[other].place.value
  }

  lemma {:induction false} LeastExists(items: map<nat, Item>, ids: set<nat>)
    requires Placed(items, ids) && ids != {}
    ensures exists id :: Least(items, ids, id)
    decreases |ids|
  {
    var x :| x in ids;
    var rest := ids - {x};
    if rest == {} {
      assert ids == {x};
      assert Least(items, ids, x);
    } else {
      LeastExists(items, rest);
      var y :| Least(items, rest, y);
      var z := if items[x].place.value <= items[y].place.value then x else y;
      forall other | other in ids ensures items[z].place.value <= items[other].place.value {
        assert other == x || other in rest;
      }
      assert Least(items, ids, z);
    }
  }

  /** Items by ascending place. */
  ghost function Order(items: map<nat, Item>, ids: set<nat>): seq<nat>
    requires Placed(items, ids)
    decreases |ids|
  {
    if ids == {} then []
    else
      LeastExists(items, ids);
      var first :| Least(items, ids, first);
      [first] + Order(items, ids - {first})
  }

  /** The item with place `k` of the given ones moved to `slots[k]`. */
  function Assigned(items: map<nat, Item>, ids: seq<nat>, slots: seq<int>, k: nat): map<nat, Item>
    requires k <= |ids| && k <= |slots| && forall id | id in ids :: id in items
  {
    if k == 0 then items
    else
      var m := Assigned(items, ids, slots, k - 1);
      m[ids[k - 1] := items[ids[k - 1]].(place := Some(slots[k - 1]))]
  }

  ghost function PlacesOf(items: map<nat, Item>, ids: seq<nat>): (slots: seq<int>)
    requires forall id | id in ids :: id in items && items[id].place.Some?
    ensures |slots| == |ids|
  {
    seq(|ids|, k requires 0 <= k < |ids| => items[ids[k]].place.value)
  }

  lemma {:induction false} OrderListsAll(items: map<nat, Item>, ids: set<nat>)
    requires Placed(items, ids)
    ensures forall id :: id in Order(items, ids) <==> id in ids
    ensures |Order(items, ids)| == |ids|
    decreases |ids|
  {
    if ids != {} {
      LeastExists(items, ids);
      var first := Order(items, ids)[0];
      OrderListsAll(items, ids - {first});
    }
  }

  /** The waiting items in queue order. */
  ghost function QueueOrder(db: Tables): seq<nat>
    requires Inv(db)
  {
    WaitingPlaced(db);
    Order(db.items, WaitingItems(db.items))
  }

  ghost function Reordered(db: Tables, ids: seq<nat>): map<nat, Item>
    requires Inv(db) && Elements(ids) == WaitingItems(db.items) && NoRepeats(ids)
  {
    ReorderIsDefined(db, ids);
    Assigned(db.items, ids, PlacesOf(db.items, QueueOrder(db)), |ids|)
  }

  lemma ReorderIsDefined(db: Tables, ids: seq<nat>)
    requires Inv(db) && Elements(ids) == WaitingItems(db.items) && NoRepeats(ids)
    ensures |QueueOrder(db)| == |ids|
    ensures forall id | id in QueueOrder(db) :: id in db.items && db.items[id].place.Some? && !db.items[id].active
    ensures forall id | id in ids :: id in db.items && !db.items[id].active
  {
    WaitingPlaced(db);
    OrderListsAll(db.items, WaitingItems(db.items));
    ElementsSize(ids);
    assert forall id | id in ids :: id in Elements(ids);
  }

  lemma WaitingPlaced(db: Tables)
    requires Inv(db)
    ensures Placed(db.items, WaitingItems(db.items))
  {
    forall id | id in WaitingItems(db.items) ensures db.items[id].place.Some? { assert PlaceOk(db, id); }
  }

  ghost function ReorderResult(db: Tables, revision: nat, ids: seq<nat>): (r: Result)
    requires Inv(db)
    ensures SameSlot(db, r.0)
  {
    if !NoRepeats(ids) then (db, Err(RequestInvalid))
    else if db.queueRevision != revision then (db, Err(RevisionConflict))
    else if exists id :: id in ids && id in db.items && db.items[id].active then (db, Err(StateRefused))
    else if Elements(ids) != WaitingItems(db.items) then (db, Err(RequestInvalid))
    else
      if ids == QueueOrder(db) then AnsweredQueue(db)
      else AnsweredQueue(QueueChanged(db.(items := Reordered(db, ids))))
  }

  function HoldItemResult(db: Tables, item: nat, revision: nat, held: bool): (r: Result)
    ensures r.0.replays == db.replays && SameSlot(db, r.0)
  {
    if db.queueRevision != revision then (db, Err(RevisionConflict))
    else if item !in db.items || item !in db.operations then (db, Err(NotFound))
    else if db.items[item].active || !Waiting(db.operations[item].status) then (db, Err(StateRefused))
    else if db.items[item].held == held then AnsweredQueue(db)
    else AnsweredQueue(QueueChanged(Reflagged(db, item, held, db.items[item].blocked)))
  }

  function SetHoldResult(db: Tables, id: nat, revision: nat, held: bool): (r: Result)
    ensures r.0.replays == db.replays && SameSlot(db, r.0)
  {
    if id !in db.operations then (db, Err(NotFound))
    else if db.operations[id].revision != revision then (db, Err(RevisionConflict))
    else if id !in db.items || db.items[id].active || !Waiting(db.operations[id].status) || db.items[id].held == held then (db, Err(StateRefused))
    else AnsweredOperation(QueueChanged(Reflagged(db, id, held, db.items[id].blocked)), 200, id)
  }

  function SetDispatchResult(db: Tables, revision: nat, running: bool): (r: Result)
    ensures r.0.replays == db.replays && SameSlot(db, r.0)
  {
    if db.queueRevision != revision then (db, Err(RevisionConflict))
    else AnsweredQueue(if db.running == running then db else QueueChanged(db.(running := running)))
  }

  // ---------------------------------------------------------------- dispatch and attempts

  predicate Eligible(item: Item) {
    !item.active && !item.held && !item.blocked
  }

  /** The first eligible waiting item. */
  predicate First(items: map<nat, Item>, id: nat) {
    && id in items && Eligible(items[id]) && items[id].place.Some?
    && forall other | other in items && Eligible(items[other]) && items[other].place.Some? ::
         items[id].place.value <= items[other].place.value
  }

  function Begun(db: Tables, id: nat, owner: nat): Tables
    requires id in db.operations && id in db.items
  {
    var attempt, fence := db.nextId, db.fences + 1;
    QueueChanged(Recorded(
      db.(attempts := db.attempts[attempt := Attempt(id, fence, owner, Intended, None, Live)],
          lease := Some(Lease(id, attempt, fence)),
          items := db.items[id := db.items[id].(active := true, place := None)],
          nextId := attempt + 1, fences := fence), id, Running, None))
  }

  function BeginResult(db: Tables, id: nat, revision: nat, owner: nat): Result {
    if id !in db.operations then (db, Err(NotFound))
    else if db.operations[id].revision != revision then (db, Err(RevisionConflict))
    else if Running !in Allowed(db.operations[id].status) then (db, Err(StateRefused))
    else if !db.running then (db, Err(QueuePaused))
    else if id !in db.items || db.items[id].held || db.items[id].blocked then (db, Err(NotDispatchable))
    else if db.operations[id].snapshot.None? || !First(db.items, id) then (db, Err(NotDispatchable))
    else if db.lease.Some? then (db, Err(SlotOccupied))
    else (Begun(db, id, owner), Granted(db.nextId, db.fences + 1))
  }

  function RecordLaunchResult(db: Tables, id: nat, fence: nat, child: Option<nat>): Result {
    if id !in db.operations then (db, Err(NotFound))
    else if !Holds(db, id, fence) then (db, Err(FencingStale))
    else
      var attempt := db.lease.value.attempt;
      if attempt !in db.attempts then (db, Err(StoreCorrupt))
      else if !db.attempts[attempt].launch.Intended? then (db, Err(StateRefused))
      else
        var launch := if child.Some? then Confirmed else LaunchFailed;
        var e := Recorded(db.(attempts := db.attempts[attempt := db.attempts[attempt].(launch := launch, child := child)]),
                          id, db.operations[id].status, db.operations[id].flag);
        (e, Viewed(ViewOf(e, id)))
  }

  /** The terminal status of a finished attempt; a recorded cancel wins over completion. */
  function EndingStatus(current: Status, ending: Ending): Status {
    if current.Cancelling? then (if ending.Failure? then Failed else Cancelled)
    else if ending.Success? then Succeeded else Failed
  }

  function FinishResult(db: Tables, job: nat, fence: nat, ending: Ending, evidence: bool): Result {
    if ending.Success? != evidence then (db, Err(RequestInvalid))
    else if job !in db.operations then (db, Err(NotFound))
    else if !Holds(db, job, fence) then (db, Err(FencingStale))
    else if !Active(db.operations[job].status) then (db, Err(StoreCorrupt))
    else
      var target := EndingStatus(db.operations[job].status, ending);
      if target !in Allowed(db.operations[job].status) then (db, Err(StateRefused))
      else
        var e := Ended(db, job, target, Released);
        var f := QueueChanged(if target.Succeeded? then e.(results := e.results[job := db.lease.value.attempt]) else e);
        (f, Viewed(ViewOf(f, job)))
  }

  function FlagResult(db: Tables, job: nat, fence: nat): (r: Result)
    ensures SameSlot(db, r.0)
  {
    if job !in db.operations then (db, Err(NotFound))
    else if !Holds(db, job, fence) then (db, Err(FencingStale))
    else
      var o := db.operations[job];
      var e := if o.flag == Some(TERMINATION_FAILED) then db else Recorded(db, job, o.status, Some(TERMINATION_FAILED));
      (e, Viewed(ViewOf(e, job)))
  }

  // ---------------------------------------------------------------- recovery

  predicate Unheld(items: map<nat, Item>, id: nat) {
    id in items && !items[id].active && !items[id].held
  }

  /** Every waiting item is held; a queued job becomes held, a blocked one stays blocked. */
  function HoldAll(db: Tables): Tables {
    db.(items := map id | id in db.items :: if Unheld(db.items, id) then db.items[id].(held := true) else db.items[id],
        operations := map id | id in db.operations ::
          if Unheld(db.items, id) then
            var o := db.operations[id];
            o.(status := if o.status.Queued? then Held else o.status, revision := o.revision + 1, flag := None)
          else db.operations[id])
  }

  /** The holder of the slot, given what was decided about the lease that was observed. */
  function RecoverHolder(db: Tables, decisions: Decisions): Tables {
    if db.lease.None? || db.lease.value.operation !in db.operations then db
    else
      var id := db.lease.value.operation;
      if (id, db.lease.value.fence) !in decisions then db
      else
        match decisions[(id, db.lease.value.fence)]
        case OwnerAlive => db
        case Interrupt => Ended(db, id, Interrupted, Lost)
        case Required(reason) =>
          var o := db.operations[id];
          if o.flag == Some(FlagOf(reason)) then db else Recorded(db, id, o.status, Some(FlagOf(reason)))
  }

  predicate QueueTouched(db: Tables, decisions: Decisions) {
    || db.running || (exists id :: Unheld(db.items, id) && id in db.items)
    || (db.lease.Some? && db.lease.value.operation in db.operations
        && (db.lease.value.operation, db.lease.value.fence) in decisions
        && decisions[(db.lease.value.operation, db.lease.value.fence)].Interrupt?)
  }

  function RecoverResult(db: Tables, decisions: Decisions): Result {
    var e := RecoverHolder(HoldAll(db), decisions).(running := false);
    (if QueueTouched(db, decisions) then QueueChanged(e) else e, Recovered)
  }

  // ---------------------------------------------------------------- the older interface

  /** The tables after an accepted transition. */
  function TransitionChange(db: Tables, id: nat, target: Status): (e: Tables)
    requires id in db.operations && (Waiting(db.operations[id].status) && !target.Cancelled? ==> id in db.items)
    ensures id in e.operations
  {
    var s := db.operations[id].status;
    if target.Cancelling? then Recorded(db, id, Cancelling, None)
    else if Active(s) then QueueChanged(Ended(db, id, target, if target.Interrupted? then Lost else Released))
    else if target.Cancelled? || !Waiting(s) then QueueChanged(Ended(db, id, target, Released))
    else QueueChanged(Reflagged(db, id, if target.Blocked? then db.items[id].held else target.Held?, target.Blocked?))
  }

  /** Why a transition is refused. */
  function TransitionError(db: Tables, id: nat, revision: nat, target: Status, fence: Option<nat>): (error: Option<Error>)
    ensures error.None? ==> id in db.operations && target in Allowed(db.operations[id].status) && !target.Running?
    ensures error.None? && Waiting(db.operations[id].status) && !target.Cancelled? ==> id in db.items
  {
    if id !in db.operations then Some(NotFound)
    else if db.operations[id].revision != revision then Some(RevisionConflict)
    else
      var s := db.operations[id].status;
      if target.Running? || target !in Allowed(s) then Some(StateRefused)
      else if Active(s) then
        if db.lease.None? || db.lease.value.operation != id then Some(StoreCorrupt)
        else if !target.Cancelling? && fence != Some(db.lease.value.fence) then Some(FencingStale)
        else None
      else if target.Cancelled? then None
      else if id !in db.items then Some(StoreCorrupt)
      else if s.Blocked? && target.Held? != db.items[id].held then Some(StateRefused)
      else None
  }

  /** One table-checked transition; it never enters running. */
  function TransitionResult(db: Tables, id: nat, revision: nat, target: Status, reason: Reason, fence: Option<nat>): (r: Result)
    ensures r.0.replays == db.replays
  {
    var error := TransitionError(db, id, revision, target, fence);
    if reason.Reserved? then (db, Err(RequestInvalid))
    else if error.Some? then (db, Err(error.value))
    else AnsweredOperation(TransitionChange(db, id, target), 200, id)
  }

  // ---------------------------------------------------------------- every command

  /** The key and digest of a command that has them. */
  function KeyOf(c: Command): Option<(Scope, Digest)> {
    match c
    case Submit(scope, body, _) => Some((scope, OfSubmit(body)))
    case AcceptBatch(scope, request, _, _) => Some((scope, OfBatch(request)))
    case CancelJob(job, revision, scope) => Some((scope, OfCancel(job, revision)))
    case RetryJob(job, revision, scope) => Some((scope, OfRetry(job, revision)))
    case Revalidated(job, revision, scope, _) => Some((scope, OfRevalidate(job, revision)))
    case Reorder(revision, items, scope) => Some((scope, OfReorder(revision, items)))
    case HoldItem(item, revision, held, scope) => Some((scope, OfItemHold(item, revision, held)))
    case SetHold(operation, revision, held, key) => WithDigest(key, OfSetHold(operation, revision, held))
    case SetDispatch(revision, running, key) => WithDigest(key, OfDispatch(revision, running))
    case Transition(operation, revision, target, reason, token, key) =>
      WithDigest(key, OfTransition(operation, revision, target, reason, token))
    case _ => None
  }

  function WithDigest(key: Option<Scope>, digest: Digest): Option<(Scope, Digest)> {
    if key.Some? then Some((key.value, digest)) else None
  }

  /** A batch outside the size limit is refused before its key is looked up. */
  predicate WellSized(c: Command) {
    c.AcceptBatch? ==> 1 <= |c.snapshots| <= MAX_BATCH
  }

  /** The command without its key. */
  ghost function Plain(db: Tables, c: Command): Result
    requires Inv(db)
  {
    match c
    case Submit(_, _, valid) => SubmitResult(db, valid)
    case AcceptBatch(_, _, snapshots, rerunOf) => AcceptBatchResult(db, snapshots, rerunOf)
    case CancelJob(job, revision, _) => CancelResult(db, job, revision)
    case RetryJob(job, revision, _) => RetryResult(db, job, revision)
    case BlockJob(job, revision) => BlockResult(db, job, revision)
    case Revalidated(job, revision, _, failed) => RevalidatedResult(db, job, revision, failed)
    case Reorder(revision, items, _) => ReorderResult(db, revision, items)
    case HoldItem(item, revision, held, _) => HoldItemResult(db, item, revision, held)
    case SetHold(operation, revision, held, _) => SetHoldResult(db, operation, revision, held)
    case SetDispatch(revision, running, _) => SetDispatchResult(db, revision, running)
    case BeginAttempt(operation, revision, owner) => BeginResult(db, operation, revision, owner)
    case RecordLaunch(operation, fence, child) => RecordLaunchResult(db, operation, fence, child)
    case FinishAttempt(job, fence, ending, evidence) => FinishResult(db, job, fence, ending, evidence)
    case FlagUnconfirmed(job, fence) => FlagResult(db, job, fence)
    case Recover(decisions) => RecoverResult(db, decisions)
    case Transition(operation, revision, target, reason, token, _) =>
      TransitionResult(db, operation, revision, target, reason, token)
  }

  ghost function Execute(db: Tables, c: Command): Result
    requires Inv(db)
  {
    if !WellSized(c) then (db, Err(RequestInvalid))
    else if KeyOf(c).None? then Plain(db, c)
    else Keyed(db, KeyOf(c).value.0, KeyOf(c).value.1, Plain(db, c))
  }
}
