/** What each job and queue command does to the rows of the control tables, and what a run may
    conclude from it (`src/utteran_control/job_repository.py`, `src/utteran_control/store.py`). */
module JobEffects {
  import opened Basics
  import opened ControlTables
  import opened JobCommands
  import opened JobInvariants
  import opened JobRuns
  import R = Recovery

  // ---------------------------------------------------------------- what stays

  /** The rows of every other job. */
  ghost predicate OthersStay(db: Tables, e: Tables, id: nat) {
    && e.operations - {id} == db.operations - {id}
    && e.items - {id} == db.items - {id}
    && e.results - {id} == db.results - {id}
  }

  /** The slot, its attempts, the dispatch switch and all results. */
  ghost predicate SlotStays(db: Tables, e: Tables) {
    e.lease == db.lease && e.attempts == db.attempts && e.fences == db.fences && e.running == db.running
    && e.results == db.results
  }

  ghost predicate NothingNew(db: Tables, e: Tables) {
    e.nextId == db.nextId && e.enqueued == db.enqueued
  }

  /** Everything but the remembered answers. */
  ghost predicate AllStays(db: Tables, e: Tables) {
    e == db.(replays := e.replays)
  }

  /** Not yet answered under the command's key. */
  ghost predicate Unanswered(db: Tables, c: Command) {
    KeyOf(c).Some? ==> KeyOf(c).value.0 !in db.replays
  }

  /** A command whose key is new does what it does without one, and is remembered if accepted. */
  lemma ExecutesPlain(db: Tables, c: Command)
    requires Inv(db) && Unanswered(db, c) && WellSized(c)
    ensures var plain, r := Plain(db, c), Execute(db, c);
            && r.1 == plain.1 && r.0 == plain.0.(replays := r.0.replays)
            && (r.1.Err? ==> r.0 == plain.0)
  {
  }

  ghost predicate IsJob(db: Tables, job: nat, revision: nat) {
    job in db.operations && db.operations[job].snapshot.Some? && db.operations[job].revision == revision
  }

  // ---------------------------------------------------------------- the fenced end of an attempt

  /** The lease holder leaves queue and slot with a new revision and no flag, and its attempt ends. */
  ghost predicate LeavesSlot(db: Tables, e: Tables, job: nat, status: Status, state: AttemptState)
    requires job in db.operations && db.lease.Some? && db.lease.value.attempt in db.attempts
  {
    var attempt := db.lease.value.attempt;
    && e.operations == db.operations[job := db.operations[job].(status := status, revision := db.operations[job].revision + 1, flag := None)]
    && e.items == db.items - {job} && e.lease == None
    && e.attempts == db.attempts[attempt := db.attempts[attempt].(state := state)]
    && NothingNew(db, e) && e.fences == db.fences && e.running == db.running
    && e.queueRevision == db.queueRevision + 1
  }

  /** The attempt is released, and its result is linked exactly if the job succeeds. */
  ghost predicate AttemptEnded(db: Tables, e: Tables, job: nat, status: Status)
    requires job in db.operations && db.lease.Some? && db.lease.value.attempt in db.attempts
  {
    && LeavesSlot(db, e, job, status, Released) && e.replays == db.replays && job !in db.results
    && e.results == if status.Succeeded? then db.results[job := db.lease.value.attempt] else db.results
  }

  lemma AttemptEnds(db: Tables, job: nat, status: Status)
    requires Inv(db) && db.lease.Some? && db.lease.value.operation == job
    ensures job in db.operations && db.lease.value.attempt in db.attempts && Active(db.operations[job].status)
    ensures var e := Ended(db, job, status, Released);
            AttemptEnded(db, QueueChanged(if status.Succeeded? then e.(results := e.results[job := db.lease.value.attempt]) else e), job, status)
  {
    assert OperationOk(db, job);
  }

  /** Accepted exactly for the job and fence of the lease, with evidence exactly for a success. A
      recorded cancel wins over anything but a failure; otherwise only a success succeeds. */
  lemma FinishEffect(db: Tables, job: nat, fence: nat, ending: Ending, evidence: bool)
    requires Inv(db)
    ensures var (e, outcome) := Execute(db, FinishAttempt(job, fence, ending, evidence));
            if (ending.Success? <==> evidence) && db.lease.Some?
               && db.lease.value.operation == job && db.lease.value.fence == fence
            then
              && job in db.operations && db.lease.value.attempt in db.attempts && outcome.Viewed?
              && var s := db.operations[job].status;
                 && (s.Running? || s.Cancelling?)
                 && (s.Running? && ending.Success? ==> AttemptEnded(db, e, job, Succeeded))
                 && (s.Running? && !ending.Success? ==> AttemptEnded(db, e, job, Failed))
                 && (s.Cancelling? && ending.Failure? ==> AttemptEnded(db, e, job, Failed))
                 && (s.Cancelling? && !ending.Failure? ==> AttemptEnded(db, e, job, Cancelled))
            else outcome.Err? && e == db
  {
    assert Plain(db, FinishAttempt(job, fence, ending, evidence)) == FinishResult(db, job, fence, ending, evidence);
    if Holds(db, job, fence) {
      assert db.lease.value.operation == job;
      AttemptEnds(db, job, EndingStatus(db.operations[job].status, ending));
    } else if db.lease.Some? && db.lease.value.operation == job {
      AttemptEnds(db, job, Failed);
    }
  }

  // ---------------------------------------------------------------- attempts

  /** Granted exactly for a queued job at its revision that has a snapshot and is the first of the
      eligible items, while dispatch runs and the slot is free. */
  lemma BeginEffect(db: Tables, id: nat, revision: nat, owner: nat)
    requires Inv(db)
    ensures var (e, outcome) := Execute(db, BeginAttempt(id, revision, owner));
            if IsJob(db, id, revision) && db.operations[id].status.Queued? && db.running && db.lease.None?
               && forall other | other in db.items && other != id :: ComesAfter(db.items, id, other)
            then
              var o, fence := db.operations[id], db.fences + 1;
              && outcome == Granted(db.nextId, fence)
              && e == db.(operations := db.operations[id := o.(status := Running, revision := o.revision + 1, flag := None)],
                          items := db.items[id := Item(None, true, false, false)],
                          lease := Some(Lease(id, db.nextId, fence)),
                          attempts := db.attempts[db.nextId := Attempt(id, fence, owner, Intended, None, Live)],
                          nextId := db.nextId + 1, fences := fence, queueRevision := db.queueRevision + 1)
            else outcome.Err? && e == db
  {
    assert OperationOk(db, id);
    if id in db.items {
      assert PlaceOk(db, id);
      forall other | other in db.items && other != id && Eligible(db.items[id])
        ensures ComesAfter(db.items, id, other)
           <==> (Eligible(db.items[other]) && db.items[other].place.Some? ==> db.items[id].place.value <= db.items[other].place.value)
      {
        assert PlaceOk(db, other) && !SamePlace(db.items, id, other);
      }
    }
  }

  /** An item that waits unhindered has a later place. */
  ghost predicate ComesAfter(items: map<nat, Item>, id: nat, other: nat) {
    && other in items
    && (!items[other].active && !items[other].held && !items[other].blocked ==>
          id in items && items[id].place.Some? && items[other].place.Some?
          && items[id].place.value < items[other].place.value)
  }

  /** Accepted exactly for the fenced attempt whose launch is still intended, which becomes
      confirmed with its child, or failed without one. */
  lemma LaunchEffect(db: Tables, id: nat, fence: nat, child: Option<nat>)
    requires Inv(db)
    ensures var (e, outcome) := Execute(db, RecordLaunch(id, fence, child));
            if db.lease.Some? && db.lease.value.operation == id && db.lease.value.fence == fence
               && db.lease.value.attempt in db.attempts && db.attempts[db.lease.value.attempt].launch.Intended?
            then
              var k := db.lease.value.attempt;
              && outcome.Viewed? && id in db.operations
              && e == db.(operations := db.operations[id := db.operations[id].(revision := db.operations[id].revision + 1)],
                          attempts := db.attempts[k := db.attempts[k].(
                            launch := if child.Some? then Confirmed else LaunchFailed, child := child)])
            else outcome.Err? && e == db
  {
    if db.lease.Some? { assert OperationOk(db, db.lease.value.operation); }
  }

  /** Accepted exactly for the fenced job, which is flagged once and keeps the slot. */
  lemma FlagEffect(db: Tables, job: nat, fence: nat)
    requires Inv(db)
    ensures var (e, outcome) := Execute(db, FlagUnconfirmed(job, fence));
            if db.lease.Some? && db.lease.value.operation == job && db.lease.value.fence == fence
            then
              && outcome.Viewed? && job in db.operations
              && var o := db.operations[job];
                 e == if o.flag == Some(0) then db
                      else db.(operations := db.operations[job := o.(revision := o.revision + 1, flag := Some(0))])
            else outcome.Err? && e == db
  {
    if db.lease.Some? { assert OperationOk(db, db.lease.value.operation); }
  }

  // ---------------------------------------------------------------- new jobs

  /** A new operation waits under a fresh number behind every item of the queue. */
  ghost predicate Appended(db: Tables, e: Tables, id: nat, snapshot: Option<nat>, retryOf: Option<nat>) {
    && id !in db.operations && id in e.operations && id in e.items
    && e.operations[id] == Operation(Queued, 1, None, snapshot, retryOf)
    && e.items[id].place.Some? && e.items[id] == Item(e.items[id].place, false, false, false)
    && forall other | other in db.items && db.items[other].place.Some? :: db.items[other].place.value < e.items[id].place.value
  }

  lemma InsertAppends(db: Tables, snapshot: Option<nat>, retryOf: Option<nat>)
    requires Inv(db)
    ensures var e := Inserted(db, snapshot, retryOf);
            Appended(db, e, db.nextId, snapshot, retryOf) && OthersStay(db, e, db.nextId)
  {
    assert OperationOk(db, db.nextId);
    forall other | other in db.items && db.items[other].place.Some? ensures db.items[other].place.value <= db.enqueued {
      assert PlaceOk(db, other);
    }
  }

  /** A valid submission appends one operation without a snapshot. */
  lemma SubmitEffect(db: Tables, scope: Scope, body: nat, valid: bool)
    requires Inv(db) && Unanswered(db, Submit(scope, body, valid))
    ensures var (e, outcome) := Execute(db, Submit(scope, body, valid));
            if valid then
              && outcome.Ok? && Appended(db, e, db.nextId, None, None) && OthersStay(db, e, db.nextId)
              && SlotStays(db, e) && e.queueRevision == db.queueRevision + 1
            else outcome.Err? && e == db
  {
    InsertAppends(db, None, None);
  }

  /** A retry appends one job with the snapshot of a failed, cancelled or interrupted one that it
      is linked to, and leaves that one as it is. */
  lemma RetryEffect(db: Tables, job: nat, revision: nat, scope: Scope)
    requires Inv(db) && Unanswered(db, RetryJob(job, revision, scope))
    ensures var (e, outcome) := Execute(db, RetryJob(job, revision, scope));
            if IsJob(db, job, revision)
               && (db.operations[job].status.Failed? || db.operations[job].status.Cancelled? || db.operations[job].status.Interrupted?)
            then
              && outcome.Ok? && Appended(db, e, db.nextId, db.operations[job].snapshot, Some(job)) && OthersStay(db, e, db.nextId)
              && SlotStays(db, e) && e.queueRevision == db.queueRevision + 1
            else outcome.Err? && e == db
  {
    if job in db.operations { InsertAppends(db, db.operations[job].snapshot, Some(job)); }
  }

  /** One queued job for each snapshot, in their order. */
  ghost predicate OperationsAppended(db: Tables, e: Tables, snapshots: seq<nat>) {
    && (forall id :: id in e.operations <==> id in db.operations || db.nextId <= id < db.nextId + |snapshots|)
    && (forall id | id in db.operations :: e.operations[id] == db.operations[id])
    && (forall id | db.nextId <= id < db.nextId + |snapshots| ::
          e.operations[id] == Operation(Queued, 1, None, Some(snapshots[id - db.nextId]), None))
  }

  /** One unhindered item for each of them, at the next places. */
  ghost predicate ItemsAppended(db: Tables, e: Tables, n: nat) {
    && e.enqueued == db.enqueued + n && e.nextId == db.nextId + n
    && (forall id :: id in e.items <==> id in db.items || db.nextId <= id < db.nextId + n)
    && (forall id | id in db.items :: e.items[id] == db.items[id])
    && (forall id | db.nextId <= id < db.nextId + n ::
          e.items[id] == Item(Some(db.enqueued + 1 + id - db.nextId), false, false, false))
  }

  /** The numbers are new and the places are behind every item of the queue. */
  ghost predicate BatchAppended(db: Tables, e: Tables, snapshots: seq<nat>) {
    && OperationsAppended(db, e, snapshots) && ItemsAppended(db, e, |snapshots|)
    && (forall id | id in db.operations :: id < db.nextId)
    && (forall id | id in db.items :: !PlacedAfter(db.items[id], db.enqueued))
  }

  ghost predicate PlacedAfter(item: Item, place: int) {
    item.place.Some? && item.place.value > place
  }

  lemma OneMoreItem(db: Tables, m: Tables, n: nat, snapshot: Option<nat>)
    requires ItemsAppended(db, m, n) && m.nextId !in db.items
    ensures ItemsAppended(db, Inserted(m, snapshot, None), n + 1)
  {
  }

  lemma {:induction false} InsertAllPlaces(db: Tables, snapshots: seq<nat>, n: nat)
    requires Inv(db) && n <= |snapshots|
    ensures ItemsAppended(db, InsertAll(db, snapshots, n), n)
  {
    if n > 0 {
      InsertAllPlaces(db, snapshots, n - 1);
      var m := InsertAll(db, snapshots, n - 1);
      assert OperationOk(db, m.nextId);
      OneMoreItem(db, m, n - 1, Some(snapshots[n - 1]));
    }
  }

  lemma InsertAllAppends(db: Tables, snapshots: seq<nat>)
    requires Inv(db)
    ensures BatchAppended(db, InsertAll(db, snapshots, |snapshots|), snapshots)
  {
    InsertAllOperations(db, snapshots);
    InsertAllPlaces(db, snapshots, |snapshots|);
    NumbersAndPlaces(db);
  }

  lemma InsertAllOperations(db: Tables, snapshots: seq<nat>)
    requires Inv(db)
    ensures OperationsAppended(db, InsertAll(db, snapshots, |snapshots|), snapshots)
  {
    InsertAllKeeps(db, snapshots, |snapshots|);
  }

  lemma NumbersAndPlaces(db: Tables)
    requires Inv(db)
    ensures forall id | id in db.operations :: id < db.nextId
    ensures forall id | id in db.items :: !PlacedAfter(db.items[id], db.enqueued)
  {
    forall id | id in db.operations ensures id < db.nextId { assert OperationOk(db, id); }
    forall id | id in db.items ensures !PlacedAfter(db.items[id], db.enqueued) { assert PlaceOk(db, id); }
  }

  /** A batch of one to a hundred snapshots, whose source is a finished job if it has one, appends
      one job for each snapshot in their order. */
  lemma AcceptEffect(db: Tables, scope: Scope, request: nat, snapshots: seq<nat>, rerunOf: Option<nat>)
    requires Inv(db) && Unanswered(db, AcceptBatch(scope, request, snapshots, rerunOf))
    ensures var (e, outcome) := Execute(db, AcceptBatch(scope, request, snapshots, rerunOf));
            if 1 <= |snapshots| <= 100 && (rerunOf.Some? ==> IsFinishedJob(db, rerunOf.value)) then
              outcome.Ok? && BatchAppended(db, e, snapshots) && SlotStays(db, e) && e.queueRevision == db.queueRevision + 1
            else outcome.Err? && e == db
  {
    RerunErrorIff(db, rerunOf);
    InsertAllKeeps(db, snapshots, |snapshots|);
    InsertAllAppends(db, snapshots);
    var m := InsertAll(db, snapshots, |snapshots|);
    AppendedWhatever(db, m, Execute(db, AcceptBatch(scope, request, snapshots, rerunOf)).0, snapshots);
  }

  lemma RerunErrorIff(db: Tables, rerunOf: Option<nat>)
    ensures RerunError(db, rerunOf).None? <==> (rerunOf.Some? ==> IsFinishedJob(db, rerunOf.value))
  {
    if rerunOf.Some? && rerunOf.value in db.operations { FinalStatuses(db.operations[rerunOf.value].status); }
  }

  lemma AppendedWhatever(db: Tables, m: Tables, e: Tables, snapshots: seq<nat>)
    requires BatchAppended(db, m, snapshots)
    ensures e.operations == m.operations && e.items == m.items && e.enqueued == m.enqueued && e.nextId == m.nextId ==>
              BatchAppended(db, e, snapshots)
  {
  }

  ghost predicate IsFinishedJob(db: Tables, job: nat) {
    && job in db.operations && db.operations[job].snapshot.Some?
    && db.operations[job].status in {Succeeded, Failed, Cancelled, Interrupted}
  }

  // ---------------------------------------------------------------- job commands

  /** A waiting job leaves the queue as cancelled, a running one becomes cancelling where it is. */
  ghost predicate CancelRecorded(db: Tables, e: Tables, job: nat)
    requires job in db.operations
  {
    var o := db.operations[job];
    && job in e.operations && OthersStay(db, e, job) && SlotStays(db, e) && NothingNew(db, e)
    && e.operations[job] == o.(status := if o.status.Running? then Cancelling else Cancelled, revision := o.revision + 1, flag := None)
    && (if o.status.Running? then e.items == db.items else job !in e.items)
    && e.queueRevision == if o.status.Running? then db.queueRevision else db.queueRevision + 1
  }

  lemma CancelRecords(db: Tables, job: nat)
    requires Inv(db) && job in db.operations && (Waiting(db.operations[job].status) || db.operations[job].status.Running?)
    ensures CancelRecorded(db, CancelChange(db, job), job)
  {
    assert OperationOk(db, job);
  }

  /** A cancel ends a waiting job, starts to cancel a running one, and leaves any other as it is. */
  lemma CancelEffect(db: Tables, job: nat, revision: nat, scope: Scope)
    requires Inv(db) && Unanswered(db, CancelJob(job, revision, scope))
    ensures var (e, outcome) := Execute(db, CancelJob(job, revision, scope));
            if IsJob(db, job, revision) then
              outcome.Ok? && if db.operations[job].status in {Queued, Held, Blocked, Running} then CancelRecorded(db, e, job) else AllStays(db, e)
            else outcome.Err? && e == db
  {
    assert OperationOk(db, job);
    if job in db.operations {
      var s := db.operations[job].status;
      if Waiting(s) || s.Running? { CancelRecords(db, job); }
    }
  }

  /** The flags of one waiting item become these, and its status follows them. */
  ghost predicate FlagsSet(db: Tables, e: Tables, id: nat, held: bool, blocked: bool) {
    && id in db.operations && id in e.operations && id in db.items && id in e.items
    && e.items[id] == Item(db.items[id].place, false, held, blocked)
    && e.operations[id] == db.operations[id].(
         status := if blocked then Blocked else if held then Held else Queued,
         revision := db.operations[id].revision + 1, flag := None)
    && OthersStay(db, e, id) && SlotStays(db, e) && NothingNew(db, e) && e.queueRevision == db.queueRevision + 1
  }

  lemma ReflagSets(db: Tables, id: nat, held: bool, blocked: bool)
    requires Inv(db) && id in db.operations && id in db.items && !db.items[id].active
    ensures FlagsSet(db, QueueChanged(Reflagged(db, id, held, blocked)), id, held, blocked)
  {
  }

  ghost predicate WaitsWith(db: Tables, id: nat) {
    id in db.operations && db.operations[id].status in {Queued, Held, Blocked}
  }

  lemma WaitingHasItem(db: Tables, id: nat)
    requires Inv(db)
    ensures WaitsWith(db, id) <==> id in db.items && !db.items[id].active
    ensures WaitsWith(db, id) ==> (db.operations[id].status.Blocked? <==> db.items[id].blocked)
  {
    assert OperationOk(db, id);
  }

  /** A waiting job is blocked and stays held if it was; a blocked one stays as it is. */
  lemma BlockEffect(db: Tables, job: nat, revision: nat)
    requires Inv(db)
    ensures var (e, outcome) := Execute(db, BlockJob(job, revision));
            if IsJob(db, job, revision) && WaitsWith(db, job) then
              && outcome.Viewed?
              && if db.operations[job].status.Blocked? then e == db
                 else job in db.items && FlagsSet(db, e, job, db.items[job].held, true)
            else outcome.Err? && e == db
  {
    WaitingHasItem(db, job);
    if WaitsWith(db, job) {
      ReflagSets(db, job, db.items[job].held, true);
      assert db.operations[job].status.Blocked? ==> db.items[job := db.items[job].(blocked := true)] == db.items;
    }
  }

  /** A validated blocked job loses its block and is held again if it was. */
  lemma RevalidatedEffect(db: Tables, job: nat, revision: nat, scope: Scope, failed: bool)
    requires Inv(db) && Unanswered(db, Revalidated(job, revision, scope, failed))
    ensures var (e, outcome) := Execute(db, Revalidated(job, revision, scope, failed));
            if IsJob(db, job, revision) && db.operations[job].status.Blocked? && !failed then
              outcome.Ok? && job in db.items && FlagsSet(db, e, job, db.items[job].held, false)
            else outcome.Err? && e == db
  {
    WaitingHasItem(db, job);
    if WaitsWith(db, job) { ReflagSets(db, job, db.items[job].held, false); }
  }

  lemma FlagsSetWhatever(db: Tables, m: Tables, e: Tables, id: nat, held: bool, blocked: bool)
    requires FlagsSet(db, m, id, held, blocked) && e == m.(replays := e.replays)
    ensures FlagsSet(db, e, id, held, blocked)
  {
  }

  lemma HoldItemResultIs(db: Tables, item: nat, revision: nat, held: bool)
    requires Inv(db)
    ensures var r := HoldItemResult(db, item, revision, held);
            if db.queueRevision == revision && WaitsWith(db, item) then
              && r.1.Ok? && item in db.items
              && if db.items[item].held == held then r.0 == db else FlagsSet(db, r.0, item, held, db.items[item].blocked)
            else r.1.Err? && r.0 == db
  {
    WaitingHasItem(db, item);
    if WaitsWith(db, item) { ReflagSets(db, item, held, db.items[item].blocked); }
  }

  /** An item that waits is held or released at the queue's revision and stays blocked if it was;
      asking for what already is changes nothing. */
  lemma HoldItemEffect(db: Tables, item: nat, revision: nat, held: bool, scope: Scope)
    requires Inv(db) && Unanswered(db, HoldItem(item, revision, held, scope))
    ensures var r := Execute(db, HoldItem(item, revision, held, scope));
            if db.queueRevision == revision && WaitsWith(db, item) then
              && r.1.Ok? && item in db.items
              && if db.items[item].held == held then AllStays(db, r.0) else FlagsSet(db, r.0, item, held, db.items[item].blocked)
            else r.1.Err? && r.0 == db
  {
    var c := HoldItem(item, revision, held, scope);
    ExecutesPlain(db, c);
    HoldItemResultIs(db, item, revision, held);
    var m := HoldItemResult(db, item, revision, held).0;
    if item in db.items && FlagsSet(db, m, item, held, db.items[item].blocked) {
      FlagsSetWhatever(db, m, Execute(db, c).0, item, held, db.items[item].blocked);
    }
  }

  lemma SetHoldResultIs(db: Tables, id: nat, revision: nat, held: bool)
    requires Inv(db)
    ensures var r := SetHoldResult(db, id, revision, held);
            if WaitsWith(db, id) && db.operations[id].revision == revision && id in db.items && db.items[id].held != held then
              r.1.Ok? && FlagsSet(db, r.0, id, held, db.items[id].blocked)
            else r.1.Err? && r.0 == db
  {
    WaitingHasItem(db, id);
    if WaitsWith(db, id) { ReflagSets(db, id, held, db.items[id].blocked); }
  }

  /** An operation that waits is held or released at its own revision; asking for what already is
      is refused. */
  lemma SetHoldEffect(db: Tables, id: nat, revision: nat, held: bool, key: Option<Scope>)
    requires Inv(db) && Unanswered(db, SetHold(id, revision, held, key))
    ensures var r := Execute(db, SetHold(id, revision, held, key));
            if WaitsWith(db, id) && db.operations[id].revision == revision && id in db.items && db.items[id].held != held then
              r.1.Ok? && FlagsSet(db, r.0, id, held, db.items[id].blocked)
            else r.1.Err? && r.0 == db
  {
    var c := SetHold(id, revision, held, key);
    ExecutesPlain(db, c);
    SetHoldResultIs(db, id, revision, held);
    var m := SetHoldResult(db, id, revision, held).0;
    if id in db.items && FlagsSet(db, m, id, held, db.items[id].blocked) {
      FlagsSetWhatever(db, m, Execute(db, c).0, id, held, db.items[id].blocked);
    }
  }

  // ---------------------------------------------------------------- queue commands

  /** Dispatch is switched at the queue's revision; switching to what already is changes nothing. */
  lemma DispatchEffect(db: Tables, revision: nat, running: bool, key: Option<Scope>)
    requires Inv(db) && Unanswered(db, SetDispatch(revision, running, key))
    ensures var (e, outcome) := Execute(db, SetDispatch(revision, running, key));
            if db.queueRevision == revision then
              && outcome.Ok?
              && e == db.(running := running, replays := e.replays,
                          queueRevision := if db.running == running then revision else revision + 1)
            else outcome.Err? && e == db
  {
  }

  /** Every waiting item and no other, each once. */
  ghost predicate ListsWaiting(db: Tables, ids: seq<nat>) {
    && (forall i, j | 0 <= i < j < |ids| :: ids[i] != ids[j])
    && (forall id | id in ids :: id in db.items && !db.items[id].active)
    && (forall id | id in db.items && !db.items[id].active :: id in ids)
  }

  lemma ListsWaitingIff(db: Tables, ids: seq<nat>)
    ensures ListsWaiting(db, ids) <==> NoRepeats(ids) && Elements(ids) == WaitingItems(db.items)
  {
    forall id: nat ensures id in Elements(ids) <==> id in ids { }
    forall id: nat ensures id in WaitingItems(db.items) <==> id in db.items && !db.items[id].active { }
    if ListsWaiting(db, ids) {
      forall id: nat ensures id in Elements(ids) <==> id in WaitingItems(db.items) { assert id in Elements(ids) <==> id in ids; }
      assert Elements(ids) == WaitingItems(db.items);
    }
    if Elements(ids) == WaitingItems(db.items) {
      forall id: nat ensures id in ids <==> id in db.items && !db.items[id].active { assert id in Elements(ids) <==> id in WaitingItems(db.items); }
    }
  }

  lemma AscendingIsOrder(db: Tables, ids: seq<nat>)
    requires Inv(db) && NoRepeats(ids) && Elements(ids) == WaitingItems(db.items)
    ensures ids == QueueOrder(db) <==> Ascending(db.items, ids)
  {
    WaitingPlaced(db);
    OrderAscends(db.items, WaitingItems(db.items));
    if Ascending(db.items, ids) { OrderIsUnique(db.items, WaitingItems(db.items), ids); }
  }

  ghost predicate OnlyPlacesChange(items: map<nat, Item>, after: map<nat, Item>) {
    && after.Keys == items.Keys
    && forall id {:trigger after[id]} | id in items ::
         after[id] == if items[id].active then items[id] else items[id].(place := after[id].place)
  }

  /** Places ascend along the listing, and nothing else changes. */
  ghost predicate ReorderedTo(db: Tables, e: Tables, ids: seq<nat>) {
    && e == db.(items := e.items, queueRevision := e.queueRevision, replays := e.replays)
    && OnlyPlacesChange(db.items, e.items) && Ascending(e.items, ids)
    && e.queueRevision == if Ascending(db.items, ids) then db.queueRevision else db.queueRevision + 1
  }

  lemma ReorderedItemsAscend(db: Tables, ids: seq<nat>)
    requires Inv(db) && NoRepeats(ids) && Elements(ids) == WaitingItems(db.items)
    ensures OnlyPlacesChange(db.items, Reordered(db, ids)) && Ascending(Reordered(db, ids), ids)
  {
    ReorderAscends(db, ids);
    ReorderGivesTheOrder(db, ids);
  }

  lemma NewOrder(db: Tables, items: map<nat, Item>, ids: seq<nat>)
    requires OnlyPlacesChange(db.items, items) && Ascending(items, ids)
    ensures !Ascending(db.items, ids) ==> ReorderedTo(db, QueueChanged(db.(items := items)), ids)
    ensures Ascending(db.items, ids) ==> ReorderedTo(db, db, ids)
  {
  }

  lemma NoneActive(db: Tables, ids: seq<nat>)
    requires Elements(ids) == WaitingItems(db.items)
    ensures !exists id :: id in ids && id in db.items && db.items[id].active
  {
    forall id | id in ids && id in db.items ensures !db.items[id].active { assert id in Elements(ids); }
  }

  lemma ReorderResultIs(db: Tables, revision: nat, ids: seq<nat>)
    requires Inv(db)
    ensures var r := ReorderResult(db, revision, ids);
            if db.queueRevision == revision && NoRepeats(ids) && Elements(ids) == WaitingItems(db.items)
            then r.1.Ok? && ReorderedTo(db, r.0, ids)
            else r.1.Err? && r.0 == db
  {
    if NoRepeats(ids) && Elements(ids) == WaitingItems(db.items) {
      NoneActive(db, ids);
      AscendingIsOrder(db, ids);
      ReorderedItemsAscend(db, ids);
      NewOrder(db, Reordered(db, ids), ids);
    }
  }

  /** A listing of exactly the waiting items, each once, becomes the queue order at the queue's
      revision. */
  lemma ReorderEffect(db: Tables, revision: nat, ids: seq<nat>, scope: Scope)
    requires Inv(db) && Unanswered(db, Reorder(revision, ids, scope))
    ensures var (e, outcome) := Execute(db, Reorder(revision, ids, scope));
            if db.queueRevision == revision && ListsWaiting(db, ids) then outcome.Ok? && ReorderedTo(db, e, ids)
            else outcome.Err? && e == db
  {
    ListsWaitingIff(db, ids);
    ReorderResultIs(db, revision, ids);
    assert Plain(db, Reorder(revision, ids, scope)) == ReorderResult(db, revision, ids);
  }

  // ---------------------------------------------------------------- the generic transition

  /** From which statuses the state table leads to each status. */
  ghost function SourcesOf(target: Status): set<Status> {
    match target
    case Queued => {Held, Blocked}
    case Held => {Queued, Blocked}
    case Blocked => {Queued}
    case Running => {Queued}
    case Cancelling => {Running}
    case Succeeded => {Running}
    case Failed => {Running, Cancelling}
    case Cancelled => {Queued, Held, Blocked, Cancelling}
    case Interrupted => {Running, Cancelling}
  }

  lemma TableIsSources(s: Status, target: Status)
    ensures target in Allowed(s) <==> s in SourcesOf(target)
  {
  }

  /** Accepted exactly with an open reason, at the operation's revision, along the state table and
      not into running; with the fence of the lease when it ends the active job; and a blocked job
      returns only to what its hold says. */
  ghost predicate TransitionAccepted(db: Tables, id: nat, revision: nat, target: Status, reason: Reason, token: Option<nat>) {
    && reason.Open? && id in db.operations && db.operations[id].revision == revision
    && var s := db.operations[id].status;
       && s in SourcesOf(target) && !target.Running?
       && (s in {Running, Cancelling} && !target.Cancelling? ==> db.lease.Some? && token == Some(db.lease.value.fence))
       && (s.Blocked? && !target.Cancelled? ==> id in db.items && (target.Held? <==> db.items[id].held))
  }

  lemma TransitionAcceptedIff(db: Tables, id: nat, revision: nat, target: Status, reason: Reason, token: Option<nat>)
    requires Inv(db)
    ensures TransitionAccepted(db, id, revision, target, reason, token)
       <==> reason.Open? && TransitionError(db, id, revision, target, token).None?
  {
    if id in db.operations {
      TableIsSources(db.operations[id].status, target);
      assert OperationOk(db, id);
    }
  }

  /** What an accepted transition does to the tables. */
  ghost predicate Transitioned(db: Tables, e: Tables, id: nat, target: Status)
    requires id in db.operations
  {
    var o := db.operations[id];
    var next := o.(status := target, revision := o.revision + 1, flag := None);
    && e.results == db.results
    && if target.Cancelling? then e == db.(operations := db.operations[id := next], replays := e.replays)
       else if o.status in {Running, Cancelling} then
         && db.lease.Some? && db.lease.value.attempt in db.attempts
         && LeavesSlot(db, e, id, target, if target.Interrupted? then Lost else Released)
       else if target.Cancelled? then
         e == db.(operations := db.operations[id := next], items := db.items - {id},
                  queueRevision := db.queueRevision + 1, replays := e.replays)
       else id in db.items && FlagsSet(db, e, id, if target.Blocked? then db.items[id].held else target.Held?, target.Blocked?)
  }

  lemma ChangeTransitions(db: Tables, id: nat, target: Status)
    requires Inv(db) && id in db.operations && db.operations[id].status in SourcesOf(target) && !target.Running?
    ensures Waiting(db.operations[id].status) ==> id in db.items
    ensures Transitioned(db, TransitionChange(db, id, target), id, target)
  {
    assert OperationOk(db, id);
    var s := db.operations[id].status;
    if Waiting(s) && !target.Cancelled? {
      ReflagSets(db, id, if target.Blocked? then db.items[id].held else target.Held?, target.Blocked?);
    }
  }

  lemma TransitionedWhatever(db: Tables, m: Tables, e: Tables, id: nat, target: Status)
    requires id in db.operations && Transitioned(db, m, id, target) && e == m.(replays := e.replays)
    ensures Transitioned(db, e, id, target)
  {
  }

  lemma TransitionResultIs(db: Tables, id: nat, revision: nat, target: Status, reason: Reason, token: Option<nat>)
    requires Inv(db)
    ensures var r := TransitionResult(db, id, revision, target, reason, token);
            if TransitionAccepted(db, id, revision, target, reason, token) then r.1.Ok? && Transitioned(db, r.0, id, target)
            else r.1.Err? && r.0 == db
  {
    TransitionAcceptedIff(db, id, revision, target, reason, token);
    if TransitionAccepted(db, id, revision, target, reason, token) { ChangeTransitions(db, id, target); }
  }

  lemma TransitionEffect(db: Tables, id: nat, revision: nat, target: Status, reason: Reason, token: Option<nat>, key: Option<Scope>)
    requires Inv(db) && Unanswered(db, Transition(id, revision, target, reason, token, key))
    ensures var r := Execute(db, Transition(id, revision, target, reason, token, key));
            if TransitionAccepted(db, id, revision, target, reason, token) then r.1.Ok? && Transitioned(db, r.0, id, target)
            else r.1.Err? && r.0 == db
  {
    var c := Transition(id, revision, target, reason, token, key);
    ExecutesPlain(db, c);
    TransitionResultIs(db, id, revision, target, reason, token);
    if TransitionAccepted(db, id, revision, target, reason, token) {
      TransitionedWhatever(db, TransitionResult(db, id, revision, target, reason, token).0, Execute(db, c).0, id, target);
    }
  }

  // ---------------------------------------------------------------- recovery

  /** What recovery does to one row: a waiting item is held, and its job with it. */
  ghost predicate RowRecovered(db: Tables, e: Tables, id: nat) {
    && (id in e.operations <==> id in db.operations)
    && (id in e.items <==> id in db.items)
    && (id in db.items ==> e.items[id] == if db.items[id].active then db.items[id] else db.items[id].(held := true))
    && (id in db.operations ==>
          var o := db.operations[id];
          e.operations[id] ==
            if id in db.items && !db.items[id].active && !db.items[id].held
            then o.(status := if o.status.Queued? then Held else o.status, revision := o.revision + 1, flag := None)
            else o)
  }

  ghost predicate RowsRecovered(db: Tables, e: Tables, holder: Option<nat>) {
    forall id: nat {:trigger RowRecovered(db, e, id)} | holder != Some(id) :: RowRecovered(db, e, id)
  }

  /** The decision for the lease, if it was observed with its fence. */
  ghost function DecisionFor(db: Tables, decisions: Decisions): Option<R.Decision> {
    if db.lease.None? || (db.lease.value.operation, db.lease.value.fence) !in decisions then None
    else Some(decisions[(db.lease.value.operation, db.lease.value.fence)])
  }

  /** The lease holder loses the slot exactly when its attempt is interrupted, and is flagged with
      the reason exactly when recovery is required. */
  ghost predicate HolderRecovered(db: Tables, e: Tables, decision: Option<R.Decision>)
    requires db.lease.Some? && db.lease.value.operation in db.operations && db.lease.value.attempt in db.attempts
  {
    var id, attempt := db.lease.value.operation, db.lease.value.attempt;
    var o := db.operations[id];
    && id in e.operations
    && if decision == Some(R.Interrupt) then
         && e.operations[id] == o.(status := Interrupted, revision := o.revision + 1, flag := None)
         && id !in e.items && e.lease == None
         && e.attempts == db.attempts[attempt := db.attempts[attempt].(state := Lost)]
       else
         && id in e.items && id in db.items && e.items[id] == db.items[id] && e.lease == db.lease && e.attempts == db.attempts
         && e.operations[id] ==
              if decision.Some? && decision.value.Required? && o.flag != Some(FlagOf(decision.value.reason))
              then o.(revision := o.revision + 1, flag := Some(FlagOf(decision.value.reason))) else o
  }

  lemma FlagsDiffer(a: R.Reason, b: R.Reason)
    ensures FlagOf(a) == FlagOf(b) <==> a == b
    ensures FlagOf(a) != TERMINATION_FAILED
  {
  }

  lemma HolderRecovers(db: Tables, decisions: Decisions)
    requires Inv(db) && db.lease.Some?
    ensures db.lease.value.operation in db.operations && db.lease.value.attempt in db.attempts
    ensures HolderRecovered(db, RecoverHolder(HoldAll(db), decisions), DecisionFor(db, decisions))
  {
    assert OperationOk(db, db.lease.value.operation);
  }

  lemma RowRecovers(db: Tables, decisions: Decisions, id: nat)
    requires Inv(db) && (db.lease.None? || db.lease.value.operation != id)
    ensures RowRecovered(db, RecoverHolder(HoldAll(db), decisions), id)
  {
    assert OperationOk(db, id);
    var h := HoldAll(db);
    var e := RecoverHolder(h, decisions);
    assert RowRecovered(db, h, id);
    assert (id in e.operations <==> id in h.operations) && (id in e.items <==> id in h.items);
    assert (id in h.operations ==> e.operations[id] == h.operations[id]) && (id in h.items ==> e.items[id] == h.items[id]);
  }

  /** Recovery stops dispatch, holds everything that waits, and treats the lease holder as was
      decided for its own fence; the queue has a new revision exactly if dispatch ran, something
      waited unheld, or the holder is interrupted. */
  lemma RecoverEffect(db: Tables, decisions: Decisions)
    requires Inv(db)
    ensures var (e, outcome) := Execute(db, Recover(decisions));
            && outcome == Recovered && !e.running && e.results == db.results && NothingNew(db, e)
            && e.fences == db.fences && e.replays == db.replays
            && RowsRecovered(db, e, if db.lease.Some? then Some(db.lease.value.operation) else None)
            && (if db.lease.Some? then
                  && db.lease.value.operation in db.operations && db.lease.value.attempt in db.attempts
                  && HolderRecovered(db, e, DecisionFor(db, decisions))
                else e.lease == None && e.attempts == db.attempts)
            && e.queueRevision == db.queueRevision +
                 if db.running || DecisionFor(db, decisions) == Some(R.Interrupt)
                    || exists id :: id in db.items && !db.items[id].active && !db.items[id].held then 1 else 0
  {
    var m := RecoverHolder(HoldAll(db), decisions);
    var e := RecoverResult(db, decisions).0;
    assert Execute(db, Recover(decisions)) == (e, Recovered);
    RecoverFrame(db, decisions);
    RowsRecover(db, decisions, m, e);
    if db.lease.Some? {
      HolderRecovers(db, decisions);
      HolderWhatever(db, m, e, DecisionFor(db, decisions));
    }
    TouchedIff(db, decisions);
  }

  lemma RowsRecover(db: Tables, decisions: Decisions, m: Tables, e: Tables)
    requires Inv(db) && m == RecoverHolder(HoldAll(db), decisions) && e.operations == m.operations && e.items == m.items
    ensures RowsRecovered(db, e, if db.lease.Some? then Some(db.lease.value.operation) else None)
  {
    forall id: nat | db.lease.None? || db.lease.value.operation != id ensures RowRecovered(db, e, id) {
      RowRecovers(db, decisions, id);
      assert RowRecovered(db, m, id);
    }
  }

  lemma HolderWhatever(db: Tables, m: Tables, e: Tables, decision: Option<R.Decision>)
    requires db.lease.Some? && db.lease.value.operation in db.operations && db.lease.value.attempt in db.attempts
    requires HolderRecovered(db, m, decision)
    requires e.operations == m.operations && e.items == m.items && e.lease == m.lease && e.attempts == m.attempts
    ensures HolderRecovered(db, e, decision)
  {
  }

  lemma RecoverFrame(db: Tables, decisions: Decisions)
    ensures var m := RecoverHolder(HoldAll(db), decisions);
            && m.results == db.results && NothingNew(db, m) && m.fences == db.fences && m.replays == db.replays
            && m.queueRevision == db.queueRevision && (db.lease.None? ==> m.lease.None? && m.attempts == db.attempts)
  {
  }

  lemma TouchedIff(db: Tables, decisions: Decisions)
    requires Inv(db)
    ensures QueueTouched(db, decisions)
       <==> db.running || DecisionFor(db, decisions) == Some(R.Interrupt)
            || exists id :: id in db.items && !db.items[id].active && !db.items[id].held
  {
    if id :| id in db.items && !db.items[id].active && !db.items[id].held { assert Unheld(db.items, id); }
    if db.lease.Some? { assert OperationOk(db, db.lease.value.operation); }
  }
}
