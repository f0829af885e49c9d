/** The tables of the control store that jobs live in, what they always satisfy, and the state
    table (`src/utteran_control/store.py`, `src/utteran_control/transitions.py`). */
module ControlTables {
  import opened Basics

  datatype Status = Queued | Held | Blocked | Running | Cancelling | Succeeded | Failed | Cancelled | Interrupted

  predicate Waiting(s: Status) {
    s.Queued? || s.Held? || s.Blocked?
  }

  predicate Active(s: Status) {
    s.Running? || s.Cancelling?
  }

  /** The job rows of the state table. */
  function Allowed(s: Status): set<Status> {
    match s
    case Queued => {Held, Blocked, Cancelled, Running}
    case Held => {Queued, Cancelled}
    case Blocked => {Queued, Held, Cancelled}
    case Running => {Cancelling, Succeeded, Failed, Interrupted}
    case Cancelling => {Cancelled, Failed, Interrupted}
    case _ => {}
  }

  predicate Final(s: Status) {
    Allowed(s) == {}
  }

  /** Final statuses are exactly those that neither wait nor hold the slot. */
  lemma FinalStatuses(s: Status)
    ensures Final(s) <==> !Waiting(s) && !Active(s)
  {
    match s
    case Queued => assert Held in Allowed(s);
    case Held => assert Queued in Allowed(s);
    case Blocked => assert Queued in Allowed(s);
    case Running => assert Failed in Allowed(s);
    case Cancelling => assert Failed in Allowed(s);
    case _ =>
  }

  /** A job with its frozen snapshot; an operation of the older interface has none. `flag` is the
      reason for which recovery is required. */
  datatype Operation = Operation(status: Status, revision: nat, flag: Option<nat>, snapshot: Option<nat>, retryOf: Option<nat>)

  /** The queue item of an operation, which shares its number. A waiting item has a place. */
  datatype Item = Item(place: Option<int>, active: bool, held: bool, blocked: bool)

  datatype Launch = Intended | Confirmed | LaunchFailed

  datatype AttemptState = Live | Released | Lost

  datatype Attempt = Attempt(operation: nat, fence: nat, owner: nat, launch: Launch, child: Option<nat>, state: AttemptState)

  /** The lease of the one heavy slot. */
  datatype Lease = Lease(operation: nat, attempt: nat, fence: nat)

  datatype Scope = Scope(endpoint: nat, key: nat)

  /** The reason of a transition. Some belong to the store and are refused from a caller. */
  datatype Reason = Reserved(code: nat) | Open(code: nat)

  /** Digests hold what they digest. A submission's digest is its caller's. */
  datatype Digest =
    | OfSubmit(body: nat) | OfSetHold(operation: nat, revision: nat, held: bool)
    | OfTransition(operation: nat, revision: nat, target: Status, reason: Reason, token: Option<nat>)
    | OfBatch(request: nat) | OfCancel(job: nat, revision: nat) | OfRetry(job: nat, revision: nat) | OfRevalidate(job: nat, revision: nat)
    | OfReorder(revision: nat, items: seq<nat>) | OfItemHold(item: nat, revision: nat, held: bool) | OfDispatch(revision: nat, running: bool)

  datatype View = View(id: nat, operation: Operation, item: Option<Item>)

  datatype Response =
    | BatchResponse(status: nat, jobs: seq<View>, queueRevision: nat)
    | JobResponse(status: nat, job: View)
    | OperationResponse(status: nat, operation: View)
    | QueueResponse(revision: nat, running: bool, items: map<nat, Item>)

  datatype Replay = Replay(digest: Digest, response: Response)

  datatype Tables = Tables(
    operations: map<nat, Operation>, items: map<nat, Item>,
    lease: Option<Lease>, attempts: map<nat, Attempt>, results: map<nat, nat>,
    running: bool, queueRevision: nat,
    nextId: nat, enqueued: nat, fences: nat,
    replays: map<Scope, Replay>)

  // ---------------------------------------------------------------- what always holds

  /** Blockers decide before a hold, and a hold before readiness. */
  function StatusOf(item: Item): Status {
    if item.blocked then Blocked else if item.held then Held else Queued
  }

  ghost predicate OperationOk(db: Tables, id: nat) {
    && (id in db.operations ==> id < db.nextId)
    && (id in db.items || id in db.results ==> id in db.operations)
    && (id in db.operations ==>
          var s := db.operations[id].status;
          && (Waiting(s) <==> id in db.items && !db.items[id].active)
          && (Waiting(s) ==> s == StatusOf(db.items[id]))
          && (Active(s) <==> id in db.items && db.items[id].active)
          && (Active(s) <==> db.lease.Some? && db.lease.value.operation == id)
          && (id in db.results ==> s.Succeeded?))
  }

  ghost predicate PlaceOk(db: Tables, id: nat)
    requires id in db.items
  {
    if db.items[id].active then db.items[id].place.None?
    else db.items[id].place.Some? && 0 < db.items[id].place.value <= db.enqueued
  }

  predicate SamePlace(items: map<nat, Item>, a: nat, b: nat)
    requires a in items && b in items
  {
    items[a].place.Some? && items[a].place == items[b].place
  }

  /** The uniqueness of the place column. */
  ghost predicate PlacesDistinct(items: map<nat, Item>) {
    forall a, b {:trigger SamePlace(items, a, b)} | a in items && b in items && a != b :: !SamePlace(items, a, b)
  }

  ghost predicate LeaseOk(db: Tables) {
    db.lease.Some? ==>
      var l := db.lease.value;
      && l.operation in db.operations && l.attempt in db.attempts && l.attempt < db.nextId && l.fence <= db.fences
      && db.attempts[l.attempt].operation == l.operation && db.attempts[l.attempt].fence == l.fence
      && db.attempts[l.attempt].state.Live?
  }

  ghost predicate Inv(db: Tables) {
    && (forall id {:trigger OperationOk(db, id)} :: OperationOk(db, id))
    && (forall id {:trigger PlaceOk(db, id)} | id in db.items :: PlaceOk(db, id))
    && PlacesDistinct(db.items)
    && LeaseOk(db)
  }

  /** One step of one operation. Blocking a held job is the one change outside the table. */
  ghost predicate StatusStep(a: Operation, b: Operation) {
    && a.revision <= b.revision && b.snapshot == a.snapshot && b.retryOf == a.retryOf
    && (b == a || a.revision < b.revision)
    && (b.status == a.status || b.status in Allowed(a.status) || (a.status.Held? && b.status.Blocked?))
    && (Final(a.status) ==> b == a)
  }

  ghost predicate OperationEvolves(db: Tables, e: Tables, id: nat) {
    id in db.operations ==> id in e.operations && StatusStep(db.operations[id], e.operations[id])
  }

  ghost predicate ReplaysGrow(r: map<Scope, Replay>, t: map<Scope, Replay>) {
    forall k | k in r :: k in t && t[k] == r[k]
  }

  /** Across a command: operations take at most one allowed step, and answers stay. */
  ghost predicate Evolves(db: Tables, e: Tables) {
    && (forall id {:trigger OperationEvolves(db, e, id)} :: OperationEvolves(db, e, id))
    && (forall id | id in db.results :: id in e.results)
    && ReplaysGrow(db.replays, e.replays)
  }

  /** The slot with its attempts and fences is left alone. */
  ghost predicate SameSlot(db: Tables, e: Tables) {
    e.lease == db.lease && e.attempts == db.attempts && db.fences == e.fences && db.nextId <= e.nextId
  }

  // ---------------------------------------------------------------- the moves of the commands

  function Recorded(db: Tables, id: nat, status: Status, flag: Option<nat>): Tables
    requires id in db.operations
  {
    var o := db.operations[id];
    db.(operations := db.operations[id := o.(status := status, revision := o.revision + 1, flag := flag)])
  }

  function QueueChanged(db: Tables): Tables {
    db.(queueRevision := db.queueRevision + 1)
  }

  /** A new waiting job at the tail of the queue. */
  function Inserted(db: Tables, snapshot: Option<nat>, retryOf: Option<nat>): Tables {
    db.(operations := db.operations[db.nextId := Operation(Queued, 1, None, snapshot, retryOf)],
        items := db.items[db.nextId := Item(Some(db.enqueued + 1), false, false, false)],
        nextId := db.nextId + 1, enqueued := db.enqueued + 1)
  }

  /** Drops the queue item and, if `id` holds it, the lease with its attempt. */
  function ReleasedFrom(db: Tables, id: nat, state: AttemptState): Tables {
    var d := db.(items := db.items - {id});
    if db.lease.Some? && db.lease.value.operation == id then
      var l := db.lease.value;
      d.(lease := None, attempts := if l.attempt in d.attempts then d.attempts[l.attempt := d.attempts[l.attempt].(state := state)] else d.attempts)
    else d
  }

  /** A waiting item with new flags, recorded under the status they give. */
  function Reflagged(db: Tables, id: nat, held: bool, blocked: bool): Tables
    requires id in db.operations && id in db.items
  {
    var item := db.items[id].(held := held, blocked := blocked);
    Recorded(db.(items := db.items[id := item]), id, StatusOf(item), None)
  }

  lemma InsertKeeps(db: Tables, snapshot: Option<nat>, retryOf: Option<nat>)
    requires Inv(db)
    ensures Inv(Inserted(db, snapshot, retryOf)) && Evolves(db, Inserted(db, snapshot, retryOf))
    ensures var e := Inserted(db, snapshot, retryOf);
            forall id | id in db.operations :: id in e.operations && e.operations[id] == db.operations[id]
  {
    var e := Inserted(db, snapshot, retryOf);
    assert OperationOk(db, db.nextId);
    forall id ensures OperationOk(e, id) { assert OperationOk(db, id); }
    forall id | id in e.items ensures PlaceOk(e, id) {
      if id in db.items { assert PlaceOk(db, id); }
    }
    forall a, b | a in e.items && b in e.items && a != b ensures !SamePlace(e.items, a, b) {
      if a in db.items { assert PlaceOk(db, a); }
      if b in db.items { assert PlaceOk(db, b); }
      if a != db.nextId && b != db.nextId { assert !SamePlace(db.items, a, b); }
    }
    forall id ensures OperationEvolves(db, e, id) { assert OperationOk(db, id); }
  }

  function Ended(db: Tables, id: nat, status: Status, state: AttemptState): Tables
    requires id in db.operations
  {
    Recorded(ReleasedFrom(db, id, state), id, status, None)
  }

  /** A waiting job ends, or the active one does. */
  lemma EndKeeps(db: Tables, id: nat, status: Status, state: AttemptState)
    requires Inv(db) && id in db.operations && status in Allowed(db.operations[id].status) && Final(status)
    ensures Inv(Ended(db, id, status, state))
  {
    var e := Ended(db, id, status, state);
    assert OperationOk(db, id);
    FinalStatuses(status);
    forall j ensures OperationOk(e, j) { assert OperationOk(db, j); }
    forall j | j in e.items ensures PlaceOk(e, j) { assert PlaceOk(db, j); }
    forall a, b | a in e.items && b in e.items && a != b ensures !SamePlace(e.items, a, b) {
      assert !SamePlace(db.items, a, b);
    }
  }

  lemma EndEvolves(db: Tables, id: nat, status: Status, state: AttemptState)
    requires id in db.operations && status in Allowed(db.operations[id].status)
    ensures Evolves(db, Ended(db, id, status, state))
  {
    var e := Ended(db, id, status, state);
    forall j ensures OperationEvolves(db, e, j) { }
  }

  /** The result row of a job that succeeds. */
  lemma ResultKeeps(db: Tables, id: nat, attempt: nat)
    requires Inv(db) && id in db.operations && db.operations[id].status.Succeeded?
    ensures Inv(db.(results := db.results[id := attempt]))
  {
    var e := db.(results := db.results[id := attempt]);
    forall j ensures OperationOk(e, j) { assert OperationOk(db, j); }
    forall j | j in e.items ensures PlaceOk(e, j) { assert PlaceOk(db, j); }
  }

  /** The active job records something without leaving the slot. */
  lemma ActiveRecordKeeps(db: Tables, id: nat, status: Status, flag: Option<nat>)
    requires Inv(db) && id in db.operations && Active(db.operations[id].status)
    requires status == db.operations[id].status || status.Cancelling?
    ensures Inv(Recorded(db, id, status, flag)) && Evolves(db, Recorded(db, id, status, flag))
  {
    var e := Recorded(db, id, status, flag);
    assert OperationOk(db, id);
    FinalStatuses(db.operations[id].status);
    forall j ensures OperationOk(e, j) { assert OperationOk(db, j); }
    forall j | j in e.items ensures PlaceOk(e, j) { assert PlaceOk(db, j); }
    forall j ensures OperationEvolves(db, e, j) { }
  }

  /** New flags on a waiting item; a blocked item only loses its block on purpose. */
  lemma ReflagKeeps(db: Tables, id: nat, held: bool, blocked: bool)
    requires Inv(db) && id in db.operations && id in db.items && !db.items[id].active
    ensures Inv(Reflagged(db, id, held, blocked)) && Evolves(db, Reflagged(db, id, held, blocked))
  {
    var e := Reflagged(db, id, held, blocked);
    assert OperationOk(db, id);
    FinalStatuses(db.operations[id].status);
    forall j ensures OperationOk(e, j) { assert OperationOk(db, j); }
    forall j | j in e.items ensures PlaceOk(e, j) { assert PlaceOk(db, j); }
    forall a, b | a in e.items && b in e.items && a != b ensures !SamePlace(e.items, a, b) {
      assert !SamePlace(db.items, a, b);
    }
    forall j ensures OperationEvolves(db, e, j) { }
  }

  /** Changes outside operations, items, lease and attempts. */
  lemma FrameKeeps(db: Tables, m: Tables, e: Tables)
    requires Inv(m) && Evolves(db, m)
    requires e == m.(queueRevision := e.queueRevision, running := e.running, replays := e.replays) && ReplaysGrow(m.replays, e.replays)
    ensures Inv(e) && Evolves(db, e)
  {
    forall j ensures OperationOk(e, j) { assert OperationOk(m, j); }
    forall j | j in e.items ensures PlaceOk(e, j) { assert PlaceOk(m, j); }
    forall j ensures OperationEvolves(db, e, j) { assert OperationEvolves(db, m, j); }
  }

  lemma NothingEvolves(db: Tables)
    ensures Evolves(db, db)
  {
    forall id ensures OperationEvolves(db, db, id) { }
  }
}
