/** The store object (`src/utteran_control/job_repository.py`, `src/utteran_control/store.py`):
    every command updates the tables step by step inside one transaction, and is proved to do
    what the command's function says. */
module JobStore {
  import opened Basics
  import opened ControlTables
  import opened JobCommands
  import opened JobInvariants
  import R = Recovery

  // ---------------------------------------------------------------- sorting and reordering

  method LeastOf(items: map<nat, Item>, ids: set<nat>) returns (least: nat)
    requires Placed(items, ids) && ids != {}
    ensures Least(items, ids, least)
  {
    least :| least in ids;
    var left := ids - {least};
    while left != {}
      invariant left <= ids && least in ids
      invariant forall other | other in ids - left :: items[least].place.value <= items[other].place.value
      decreases |left|
    {
      var id :| id in left;
      left := left - {id};
      if items[id].place.value < items[least].place.value { least := id; }
    }
  }

  lemma LeastIsUnique(items: map<nat, Item>, ids: set<nat>, a: nat, b: nat)
    requires Placed(items, ids) && PlacesDistinct(items) && Least(items, ids, a) && Least(items, ids, b)
    ensures a == b
  {
    assert a != b ==> !SamePlace(items, a, b);
  }

  method Sorted(items: map<nat, Item>, ids: set<nat>) returns (order: seq<nat>)
    requires Placed(items, ids) && PlacesDistinct(items)
    ensures order == Order(items, ids)
  {
    order := [];
    var left := ids;
    while left != {}
      invariant left <= ids && order + Order(items, left) == Order(items, ids)
      decreases |left|
    {
      var first := LeastOf(items, left);
      LeastExists(items, left);
      LeastIsUnique(items, left, first, Order(items, left)[0]);
      assert order + Order(items, left) == order + [first] + Order(items, left - {first});
      order := order + [first];
      left := left - {first};
    }
  }

  predicate SlotsDistinct(slots: seq<int>) {
    forall i, j | 0 <= i < j < |slots| :: slots[i] != slots[j]
  }

  /** Moving some items to distinct slots that no other item has keeps the places unique. */
  lemma PartlyAssignedDistinct(items: map<nat, Item>, ids: seq<nat>, slots: seq<int>, k: nat)
    requires k <= |ids| == |slots| && NoRepeats(ids) && (forall id | id in ids :: id in items)
    requires PlacesDistinct(items) && SlotsDistinct(slots)
    requires forall id, j | id in items && items[id].place.Some? && 0 <= j < |slots| :: id in ids[..k] || items[id].place.value != slots[j]
    ensures PlacesDistinct(Assigned(items, ids, slots, k))
  {
    AssignedAt(items, ids, slots, k);
    var m := Assigned(items, ids, slots, k);
    forall a, b | a in m && b in m && a != b ensures !SamePlace(m, a, b) {
      assert !SamePlace(items, a, b);
      if a in ids[..k] { var i :| 0 <= i < k && ids[i] == a; assert m[a].place == Some(slots[i]); }
      if b in ids[..k] { var j :| 0 <= j < k && ids[j] == b; assert m[b].place == Some(slots[j]); }
    }
  }

  lemma {:induction false} ReassignedSame(items: map<nat, Item>, middle: map<nat, Item>, ids: seq<nat>, slots: seq<int>)
    requires |ids| == |slots| && NoRepeats(ids) && (forall id | id in ids :: id in items) && middle.Keys == items.Keys
    requires forall id | id in items && id !in ids :: middle[id] == items[id]
    requires forall id | id in ids :: middle[id] == items[id].(place := middle[id].place)
    ensures Assigned(middle, ids, slots, |ids|) == Assigned(items, ids, slots, |ids|)
  {
    AssignedAt(items, ids, slots, |ids|);
    AssignedAt(middle, ids, slots, |ids|);
    assert ids[..|ids|] == ids;
    var a, b := Assigned(middle, ids, slots, |ids|), Assigned(items, ids, slots, |ids|);
    forall id | id in items ensures a[id] == b[id] {
      if id in ids { var j :| 0 <= j < |ids| && ids[j] == id; }
    }
  }

  /** One update loop: the items of `ids` move to `slots` one after the other, and every single
      update leaves the places unique. */
  method Move(items: map<nat, Item>, ids: seq<nat>, slots: seq<int>) returns (r: map<nat, Item>)
    requires |ids| == |slots| && NoRepeats(ids) && PlacesDistinct(items) && SlotsDistinct(slots)
    requires forall id | id in ids :: id in items
    requires forall id, j | id in items && items[id].place.Some? && 0 <= j < |slots| :: items[id].place.value != slots[j]
    ensures r == Assigned(items, ids, slots, |ids|) && PlacesDistinct(r)
  {
    r := items;
    for index := 0 to |ids|
      invariant r == Assigned(items, ids, slots, index) && PlacesDistinct(r)
    {
      AssignedOutside(items, ids, slots, index, ids[index]);
      r := r[ids[index] := r[ids[index]].(place := Some(slots[index]))];
      PartlyAssignedDistinct(items, ids, slots, index + 1);
    }
  }

  /** A reordering parks the items at negative places first, so that no place is ever taken twice. */
  method Replace(items: map<nat, Item>, ids: seq<nat>, slots: seq<int>) returns (r: map<nat, Item>)
    requires |ids| == |slots| && NoRepeats(ids) && PlacesDistinct(items) && SlotsDistinct(slots)
    requires forall id | id in ids :: id in items
    requires forall id | id in items && items[id].place.Some? :: id in ids && items[id].place.value > 0
    requires forall j | 0 <= j < |slots| :: slots[j] > 0
    ensures r == Assigned(items, ids, slots, |ids|) && PlacesDistinct(r)
  {
    var parked := seq(|ids|, j => -(j + 1));
    var middle := Move(items, ids, parked);
    ParkedPlaces(items, ids, parked);
    r := Move(middle, ids, slots);
    ReassignedSame(items, middle, ids, slots);
  }

  lemma ParkedPlaces(items: map<nat, Item>, ids: seq<nat>, parked: seq<int>)
    requires |ids| == |parked| && NoRepeats(ids) && (forall id | id in ids :: id in items)
    requires forall j | 0 <= j < |parked| :: parked[j] < 0
    requires forall id | id in items && items[id].place.Some? :: id in ids
    ensures var m := Assigned(items, ids, parked, |ids|);
            && m.Keys == items.Keys
            && (forall id | id in items && id !in ids :: m[id] == items[id])
            && (forall id | id in ids :: m[id] == items[id].(place := m[id].place))
            && (forall id | id in m && m[id].place.Some? :: m[id].place.value < 0)
  {
    AssignedAt(items, ids, parked, |ids|);
    assert ids[..|ids|] == ids;
    forall id | id in ids ensures var m := Assigned(items, ids, parked, |ids|); m[id] == items[id].(place := m[id].place) && m[id].place.Some? && m[id].place.value < 0 {
      var i :| 0 <= i < |ids| && ids[i] == id;
    }
  }

  // ---------------------------------------------------------------- the store

  /** Row `id` when all rows but those of `left` have been held. */
  ghost predicate HeldRow(before: Tables, now: Tables, left: set<nat>, id: nat) {
    && (id in now.items <==> id in before.items) && (id in now.operations <==> id in before.operations)
    && (id in before.items ==>
          now.items[id] == if Unheld(before.items, id) && id !in left then before.items[id].(held := true) else before.items[id])
    && (id in before.operations ==>
          now.operations[id] ==
            var o := before.operations[id];
            if Unheld(before.items, id) && id !in left then o.(status := if o.status.Queued? then Held else o.status, revision := o.revision + 1, flag := None)
            else o)
  }

  ghost predicate HeldBut(before: Tables, now: Tables, left: set<nat>) {
    && now == before.(items := now.items, operations := now.operations)
    && forall id {:trigger HeldRow(before, now, left, id)} :: HeldRow(before, now, left, id)
  }

  lemma HeldStep(before: Tables, middle: Tables, left: set<nat>, id: nat)
    requires HeldBut(before, middle, left) && id in left && Unheld(before.items, id) && id in before.operations
    requires id in middle.items && id in middle.operations
    ensures var s := middle.operations[id].status;
            HeldBut(before, Recorded(middle.(items := middle.items[id := middle.items[id].(held := true)]), id, if s.Queued? then Held else s, None), left - {id})
  {
    var s := middle.operations[id].status;
    var now := Recorded(middle.(items := middle.items[id := middle.items[id].(held := true)]), id, if s.Queued? then Held else s, None);
    forall j ensures HeldRow(before, now, left - {id}, j) { assert HeldRow(before, middle, left, j); }
  }

  lemma HeldAll(before: Tables, now: Tables)
    requires HeldBut(before, now, {})
    ensures now == HoldAll(before)
  {
    forall id ensures (id in now.items <==> id in HoldAll(before).items) && (id in now.operations <==> id in HoldAll(before).operations) {
      assert HeldRow(before, now, {}, id);
    }
    forall id | id in now.items ensures now.items[id] == HoldAll(before).items[id] { assert HeldRow(before, now, {}, id); }
    forall id | id in now.operations ensures now.operations[id] == HoldAll(before).operations[id] { assert HeldRow(before, now, {}, id); }
    assert now.items == HoldAll(before).items && now.operations == HoldAll(before).operations;
  }

  class JobControlStore {
    var tables: Tables

    constructor ()
      ensures tables == Tables(map[], map[], None, map[], map[], true, 1, 0, 0, 0, map[]) && Inv(tables)
    {
      tables := Tables(map[], map[], None, map[], map[], true, 1, 0, 0, 0, map[]);
      new;
      forall id ensures OperationOk(tables, id) { }
    }

    // -------------------------------------------------------------- private steps

    method Record(id: nat, status: Status, flag: Option<nat>)
      requires id in tables.operations
      modifies this
      ensures tables == Recorded(old(tables), id, status, flag)
    {
      var o := tables.operations[id];
      tables := tables.(operations := tables.operations[id := o.(status := status, revision := o.revision + 1, flag := flag)]);
    }

    method TouchQueue()
      modifies this
      ensures tables == QueueChanged(old(tables))
    {
      tables := tables.(queueRevision := tables.queueRevision + 1);
    }

    method InsertJob(snapshot: Option<nat>, retryOf: Option<nat>) returns (id: nat)
      modifies this
      ensures tables == Inserted(old(tables), snapshot, retryOf) && id == old(tables).nextId
    {
      id := tables.nextId;
      tables := tables.(operations := tables.operations[id := Operation(Queued, 1, None, snapshot, retryOf)], nextId := id + 1);
      tables := tables.(enqueued := tables.enqueued + 1);
      tables := tables.(items := tables.items[id := Item(Some(tables.enqueued), false, false, false)]);
    }

    method Release(id: nat, state: AttemptState)
      modifies this
      ensures tables == ReleasedFrom(old(tables), id, state)
    {
      var lease := tables.lease;
      tables := tables.(items := tables.items - {id});
      if lease.Some? && lease.value.operation == id {
        tables := tables.(lease := None);
        if lease.value.attempt in tables.attempts {
          tables := tables.(attempts := tables.attempts[lease.value.attempt := tables.attempts[lease.value.attempt].(state := state)]);
        }
      }
    }

    /** Keeps the answer under its key in the same transaction. */
    method Answer(scope: Scope, digest: Digest, response: Response) returns (r: Outcome)
      modifies this
      ensures tables == WithAnswer(old(tables), scope, digest, response) && r == Ok(response, false)
    {
      tables := tables.(replays := tables.replays[scope := Replay(digest, response)]);
      r := Ok(response, false);
    }

    // -------------------------------------------------------------- submissions

    /** The same for a caller that may have given no key. */
    method AnswerTo(key: Option<Scope>, digest: Digest, response: Response) returns (r: Outcome)
      modifies this
      ensures tables == if key.Some? then WithAnswer(old(tables), key.value, digest, response) else old(tables)
      ensures r == Ok(response, false)
    {
      r := Ok(response, false);
      if key.Some? { r := Answer(key.value, digest, response); }
    }

    function Answered(key: Option<Scope>, digest: Digest): Option<Outcome>
      reads this
    {
      if key.Some? then Lookup(tables, key.value, digest) else None
    }

    method InsertJobs(snapshots: seq<nat>)
      modifies this
      ensures tables == InsertAll(old(tables), snapshots, |snapshots|)
    {
      for k := 0 to |snapshots|
        invariant tables == InsertAll(old(tables), snapshots, k)
      {
        var _ := InsertJob(Some(snapshots[k]), None);
      }
    }

    method AcceptBatch(scope: Scope, request: nat, snapshots: seq<nat>, rerunOf: Option<nat>) returns (r: Outcome)
      requires Inv(tables)
      modifies this
      ensures (tables, r) == Execute(old(tables), Command.AcceptBatch(scope, request, snapshots, rerunOf)) && Inv(tables)
    {
      CommandKeeps(tables, Command.AcceptBatch(scope, request, snapshots, rerunOf));
      if !(1 <= |snapshots| <= MAX_BATCH) { return Err(RequestInvalid); }
      var replay := Lookup(tables, scope, OfBatch(request));
      if replay.Some? { return replay.value; }
      if rerunOf.Some? {
        if rerunOf.value !in tables.operations || tables.operations[rerunOf.value].snapshot.None? { return Err(NotFound); }
        if !Final(tables.operations[rerunOf.value].status) { return Err(StateRefused); }
      }
      InsertAllKeeps(tables, snapshots, |snapshots|);
      var first := tables.nextId;
      InsertJobs(snapshots);
      TouchQueue();
      r := Answer(scope, OfBatch(request), BatchResponse(202, NewViews(tables, first, |snapshots|), tables.queueRevision));
    }

    // -------------------------------------------------------------- job commands

    method CancelJob(job: nat, revision: nat, scope: Scope) returns (r: Outcome)
      requires Inv(tables)
      modifies this
      ensures (tables, r) == Execute(old(tables), Command.CancelJob(job, revision, scope)) && Inv(tables)
    {
      CommandKeeps(tables, Command.CancelJob(job, revision, scope));
      var digest := OfCancel(job, revision);
      var replay := Lookup(tables, scope, digest);
      if replay.Some? { return replay.value; }
      var error := CheckJob(tables, job, revision);
      if error.Some? { return Err(error.value); }
      var status := tables.operations[job].status;
      if Final(status) {
        r := Answer(scope, digest, JobResponse(200, ViewOf(tables, job)));
        return;
      }
      if status.Cancelling? {
        r := Answer(scope, digest, JobResponse(202, ViewOf(tables, job)));
        return;
      }
      if Waiting(status) {
        Release(job, Released);
        Record(job, Cancelled, None);
        TouchQueue();
      } else {
        if tables.lease.None? || tables.lease.value.operation != job { return Err(StoreCorrupt); }
        Record(job, Cancelling, None);
      }
      r := Answer(scope, digest, JobResponse(202, ViewOf(tables, job)));
    }

    method RetryJob(job: nat, revision: nat, scope: Scope) returns (r: Outcome)
      requires Inv(tables)
      modifies this
      ensures (tables, r) == Execute(old(tables), Command.RetryJob(job, revision, scope)) && Inv(tables)
    {
      CommandKeeps(tables, Command.RetryJob(job, revision, scope));
      var digest := OfRetry(job, revision);
      var replay := Lookup(tables, scope, digest);
      if replay.Some? { return replay.value; }
      var error := CheckJob(tables, job, revision);
      if error.Some? { return Err(error.value); }
      if tables.operations[job].status !in {Failed, Cancelled, Interrupted} { return Err(StateRefused); }
      var id := InsertJob(tables.operations[job].snapshot, Some(job));
      TouchQueue();
      r := Answer(scope, digest, JobResponse(202, ViewOf(tables, id)));
    }

    method BlockJob(job: nat, revision: nat) returns (r: Outcome)
      requires Inv(tables)
      modifies this
      ensures (tables, r) == BlockResult(old(tables), job, revision) && Inv(tables)
    {
      BlockKeeps(tables, job, revision);
      assert OperationOk(tables, job);
      var error := CheckJob(tables, job, revision);
      if error.Some? { return Err(error.value); }
      var status := tables.operations[job].status;
      if !Waiting(status) { return Err(StateRefused); }
      ghost var before := tables;
      tables := tables.(items := tables.items[job := tables.items[job].(blocked := true)]);
      if !status.Blocked? {
        Record(job, Blocked, None);
        TouchQueue();
      } else {
        assert tables == before;
      }
      r := Viewed(ViewOf(tables, job));
    }

    /** What a failed revalidation writes, the block reason, is rolled back with its transaction. */
    method RevalidateJob(job: nat, revision: nat, scope: Scope, failed: bool) returns (r: Outcome)
      requires Inv(tables)
      modifies this
      ensures (tables, r) == Execute(old(tables), Command.Revalidated(job, revision, scope, failed)) && Inv(tables)
    {
      CommandKeeps(tables, Command.Revalidated(job, revision, scope, failed));
      assert OperationOk(tables, job);
      var digest := OfRevalidate(job, revision);
      var replay := Lookup(tables, scope, digest);
      if replay.Some? { return replay.value; }
      var error := CheckJob(tables, job, revision);
      if error.Some? { return Err(error.value); }
      if !tables.operations[job].status.Blocked? { return Err(StateRefused); }
      if failed { return Err(NotDispatchable); }
      var held := tables.items[job].held;
      tables := tables.(items := tables.items[job := tables.items[job].(blocked := false)]);
      Record(job, if held then Held else Queued, None);
      TouchQueue();
      r := Answer(scope, digest, JobResponse(202, ViewOf(tables, job)));
    }

    // -------------------------------------------------------------- queue commands

    method Reorder(revision: nat, ids: seq<nat>, scope: Scope) returns (r: Outcome)
      requires Inv(tables)
      modifies this
      ensures (tables, r) == Execute(old(tables), Command.Reorder(revision, ids, scope)) && Inv(tables)
    {
      CommandKeeps(tables, Command.Reorder(revision, ids, scope));
      var digest := OfReorder(revision, ids);
      var replay := Lookup(tables, scope, digest);
      if replay.Some? { return replay.value; }
      if !NoRepeats(ids) { return Err(RequestInvalid); }
      if tables.queueRevision != revision { return Err(RevisionConflict); }
      if exists id :: id in ids && id in tables.items && tables.items[id].active { return Err(StateRefused); }
      if Elements(ids) != WaitingItems(tables.items) { return Err(RequestInvalid); }
      WaitingPlaced(tables);
      var waiting := Sorted(tables.items, WaitingItems(tables.items));
      if ids != waiting {
        var items := ReorderItems(ids, waiting);
        tables := tables.(items := items);
        TouchQueue();
      }
      r := Answer(scope, digest, QueueResponse(tables.queueRevision, tables.running, tables.items));
    }

    method ReorderItems(ids: seq<nat>, waiting: seq<nat>) returns (items: map<nat, Item>)
      requires Inv(tables) && Elements(ids) == WaitingItems(tables.items) && NoRepeats(ids) && waiting == QueueOrder(tables)
      ensures items == Reordered(tables, ids)
    {
      ReorderIsDefined(tables, ids);
      WaitingPlaced(tables);
      OrderAscends(tables.items, WaitingItems(tables.items));
      var rows := tables.items;
      assert forall k | 0 <= k < |waiting| :: waiting[k] in waiting;
      var slots := seq(|waiting|, k requires 0 <= k < |waiting| && waiting[k] in rows && rows[waiting[k]].place.Some? => rows[waiting[k]].place.value);
      assert slots == PlacesOf(rows, waiting);
      assert SlotsDistinct(slots) by {
        assert forall i, j | 0 <= i < j < |waiting| :: Before(tables.items, waiting[i], waiting[j]);
      }
      assert forall k | 0 <= k < |slots| :: slots[k] > 0 by {
        forall k | 0 <= k < |slots| ensures slots[k] > 0 { assert waiting[k] in waiting && PlaceOk(tables, waiting[k]); }
      }
      forall id | id in tables.items && tables.items[id].place.Some? ensures id in ids && tables.items[id].place.value > 0 {
        assert PlaceOk(tables, id);
        assert id in Elements(ids);
      }
      items := Replace(tables.items, ids, slots);
    }

    method HoldItem(item: nat, revision: nat, held: bool, scope: Scope) returns (r: Outcome)
      requires Inv(tables)
      modifies this
      ensures (tables, r) == Execute(old(tables), Command.HoldItem(item, revision, held, scope)) && Inv(tables)
    {
      CommandKeeps(tables, Command.HoldItem(item, revision, held, scope));
      assert OperationOk(tables, item);
      var digest := OfItemHold(item, revision, held);
      var replay := Lookup(tables, scope, digest);
      if replay.Some? { return replay.value; }
      if tables.queueRevision != revision { return Err(RevisionConflict); }
      if item !in tables.items { return Err(NotFound); }
      var status := tables.operations[item].status;
      if tables.items[item].active || !Waiting(status) { return Err(StateRefused); }
      if tables.items[item].held != held {
        tables := tables.(items := tables.items[item := tables.items[item].(held := held)]);
        Record(item, if tables.items[item].blocked then status else if held then Held else Queued, None);
        TouchQueue();
      }
      r := Answer(scope, digest, QueueResponse(tables.queueRevision, tables.running, tables.items));
    }

    method SetHold(id: nat, revision: nat, held: bool, key: Option<Scope>) returns (r: Outcome)
      requires Inv(tables)
      modifies this
      ensures (tables, r) == Execute(old(tables), Command.SetHold(id, revision, held, key)) && Inv(tables)
    {
      CommandKeeps(tables, Command.SetHold(id, revision, held, key));
      assert OperationOk(tables, id);
      var digest := OfSetHold(id, revision, held);
      var replay := Answered(key, digest);
      if replay.Some? { return replay.value; }
      if id !in tables.operations { return Err(NotFound); }
      if tables.operations[id].revision != revision { return Err(RevisionConflict); }
      var status := tables.operations[id].status;
      if id !in tables.items || tables.items[id].active || !Waiting(status) || tables.items[id].held == held { return Err(StateRefused); }
      tables := tables.(items := tables.items[id := tables.items[id].(held := held)]);
      Record(id, if tables.items[id].blocked then status else if held then Held else Queued, None);
      TouchQueue();
      r := AnswerTo(key, digest, OperationResponse(200, ViewOf(tables, id)));
    }

    method SetDispatch(revision: nat, running: bool, key: Option<Scope>) returns (r: Outcome)
      requires Inv(tables)
      modifies this
      ensures (tables, r) == Execute(old(tables), Command.SetDispatch(revision, running, key)) && Inv(tables)
    {
      CommandKeeps(tables, Command.SetDispatch(revision, running, key));
      var digest := OfDispatch(revision, running);
      var replay := Answered(key, digest);
      if replay.Some? { return replay.value; }
      if tables.queueRevision != revision { return Err(RevisionConflict); }
      if tables.running != running {
        tables := tables.(running := running);
        TouchQueue();
      }
      r := AnswerTo(key, digest, QueueResponse(tables.queueRevision, tables.running, tables.items));
    }

    // -------------------------------------------------------------- dispatch and attempts

    method BeginAttempt(id: nat, revision: nat, owner: nat) returns (r: Outcome)
      requires Inv(tables)
      modifies this
      ensures (tables, r) == BeginResult(old(tables), id, revision, owner) && Inv(tables)
    {
      BeginKeeps(tables, id, revision, owner);
      if id !in tables.operations { return Err(NotFound); }
      if tables.operations[id].revision != revision { return Err(RevisionConflict); }
      if Running !in Allowed(tables.operations[id].status) { return Err(StateRefused); }
      if !tables.running { return Err(QueuePaused); }
      if id !in tables.items || tables.items[id].held || tables.items[id].blocked { return Err(NotDispatchable); }
      if tables.operations[id].snapshot.None? || !First(tables.items, id) { return Err(NotDispatchable); }
      if tables.lease.Some? { return Err(SlotOccupied); }
      var attempt := tables.nextId;
      tables := tables.(nextId := attempt + 1, fences := tables.fences + 1);
      var fence := tables.fences;
      tables := tables.(attempts := tables.attempts[attempt := Attempt(id, fence, owner, Intended, None, Live)]);
      tables := tables.(lease := Some(Lease(id, attempt, fence)));
      tables := tables.(items := tables.items[id := tables.items[id].(active := true, place := None)]);
      Record(id, Running, None);
      TouchQueue();
      r := Granted(attempt, fence);
    }

    method RecordLaunch(id: nat, fence: nat, child: Option<nat>) returns (r: Outcome)
      requires Inv(tables)
      modifies this
      ensures (tables, r) == RecordLaunchResult(old(tables), id, fence, child) && Inv(tables)
    {
      LaunchKeeps(tables, id, fence, child);
      if id !in tables.operations { return Err(NotFound); }
      if !Holds(tables, id, fence) { return Err(FencingStale); }
      var attempt := tables.lease.value.attempt;
      if !tables.attempts[attempt].launch.Intended? { return Err(StateRefused); }
      tables := tables.(attempts := tables.attempts[attempt :=
                          tables.attempts[attempt].(launch := if child.Some? then Confirmed else LaunchFailed, child := child)]);
      Record(id, tables.operations[id].status, tables.operations[id].flag);
      r := Viewed(ViewOf(tables, id));
    }

    method FinishAttempt(job: nat, fence: nat, ending: Ending, evidence: bool) returns (r: Outcome)
      requires Inv(tables)
      modifies this
      ensures (tables, r) == FinishResult(old(tables), job, fence, ending, evidence) && Inv(tables)
    {
      FinishKeeps(tables, job, fence, ending, evidence);
      if ending.Success? != evidence { return Err(RequestInvalid); }
      if job !in tables.operations { return Err(NotFound); }
      if !Holds(tables, job, fence) { return Err(FencingStale); }
      var attempt := tables.lease.value.attempt;
      var status := tables.operations[job].status;
      if !Active(status) { return Err(StoreCorrupt); }
      var target;
      if status.Cancelling? && !ending.Failure? { target := Cancelled; }
      else if status.Cancelling? { target := Failed; }
      else if ending.Success? { target := Succeeded; }
      else { target := Failed; }
      if target !in Allowed(status) { return Err(StateRefused); }
      Release(job, Released);
      if target.Succeeded? { tables := tables.(results := tables.results[job := attempt]); }
      Record(job, target, None);
      TouchQueue();
      r := Viewed(ViewOf(tables, job));
    }

    method FlagUnconfirmed(job: nat, fence: nat) returns (r: Outcome)
      requires Inv(tables)
      modifies this
      ensures (tables, r) == FlagResult(old(tables), job, fence) && Inv(tables)
    {
      FlagKeeps(tables, job, fence);
      if job !in tables.operations { return Err(NotFound); }
      if !Holds(tables, job, fence) { return Err(FencingStale); }
      if tables.operations[job].flag != Some(TERMINATION_FAILED) {
        Record(job, tables.operations[job].status, Some(TERMINATION_FAILED));
      }
      r := Viewed(ViewOf(tables, job));
    }

    method Submit(scope: Scope, body: nat, valid: bool) returns (r: Outcome)
      requires Inv(tables)
      modifies this
      ensures (tables, r) == Execute(old(tables), Command.Submit(scope, body, valid)) && Inv(tables)
    {
      CommandKeeps(tables, Command.Submit(scope, body, valid));
      var replay := Lookup(tables, scope, OfSubmit(body));
      if replay.Some? { return replay.value; }
      if !valid { return Err(RequestInvalid); }
      var id := InsertJob(None, None);
      TouchQueue();
      r := Answer(scope, OfSubmit(body), OperationResponse(201, ViewOf(tables, id)));
    }

    /** The active job starts to cancel or gives up the slot. */
    method MoveActive(id: nat, target: Status)
      requires Inv(tables) && id in tables.operations && Active(tables.operations[id].status)
      requires target in Allowed(tables.operations[id].status)
      modifies this
      ensures tables == TransitionChange(old(tables), id, target)
    {
      if target.Cancelling? {
        Record(id, target, None);
      } else {
        Release(id, if target.Interrupted? then Lost else Released);
        Record(id, target, None);
        TouchQueue();
      }
    }

    /** A waiting job ends, or its item gets the flags of its new status. */
    method MoveWaiting(id: nat, target: Status)
      requires Inv(tables) && id in tables.operations && Waiting(tables.operations[id].status) && id in tables.items
      requires target in Allowed(tables.operations[id].status) && !target.Running?
      requires tables.operations[id].status.Blocked? && !target.Cancelled? ==> target.Held? == tables.items[id].held
      modifies this
      ensures tables == TransitionChange(old(tables), id, target)
    {
      if target.Cancelled? {
        Release(id, Released);
      } else if target.Held? {
        tables := tables.(items := tables.items[id := tables.items[id].(held := true, blocked := false)]);
      } else if target.Blocked? {
        tables := tables.(items := tables.items[id := tables.items[id].(blocked := true)]);
      } else {
        tables := tables.(items := tables.items[id := tables.items[id].(held := false, blocked := false)]);
      }
      Record(id, target, None);
      TouchQueue();
    }

    method Transition(id: nat, revision: nat, target: Status, reason: Reason, token: Option<nat>, key: Option<Scope>) returns (r: Outcome)
      requires Inv(tables)
      modifies this
      ensures (tables, r) == Execute(old(tables), Command.Transition(id, revision, target, reason, token, key)) && Inv(tables)
    {
      CommandKeeps(tables, Command.Transition(id, revision, target, reason, token, key));
      assert OperationOk(tables, id);
      var digest := OfTransition(id, revision, target, reason, token);
      var replay := Answered(key, digest);
      if replay.Some? { return replay.value; }
      if reason.Reserved? { return Err(RequestInvalid); }
      if id !in tables.operations { return Err(NotFound); }
      if tables.operations[id].revision != revision { return Err(RevisionConflict); }
      var current := tables.operations[id].status;
      if target.Running? || target !in Allowed(current) { return Err(StateRefused); }
      if Active(current) {
        if !target.Cancelling? && token != Some(tables.lease.value.fence) { return Err(FencingStale); }
        MoveActive(id, target);
      } else {
        if !target.Cancelled? && current.Blocked? && target.Held? != tables.items[id].held { return Err(StateRefused); }
        MoveWaiting(id, target);
      }
      r := AnswerTo(key, digest, OperationResponse(200, ViewOf(tables, id)));
    }

    /** The read-only hint of the dispatcher. */
    method NextDispatchable() returns (hint: Option<(nat, nat)>)
      requires Inv(tables)
      ensures hint.Some? ==> forall owner :: BeginResult(tables, hint.value.0, hint.value.1, owner).1.Granted?
      ensures hint.None? ==> forall id, revision, owner :: !BeginResult(tables, id, revision, owner).1.Granted?
    {
      if !tables.running || tables.lease.Some? { return None; }
      var rows := tables.items;
      var eligible := set id | id in rows && Eligible(rows[id]);
      if eligible == {} {
        assert forall id :: First(rows, id) ==> id in eligible;
        return None;
      }
      forall id | id in eligible ensures rows[id].place.Some? { assert PlaceOk(tables, id); }
      var first := LeastOf(rows, eligible);
      assert OperationOk(tables, first);
      assert First(rows, first);
      forall id | First(rows, id) ensures id == first {
        assert Least(rows, eligible, id);
        LeastIsUnique(rows, eligible, id, first);
      }
      if tables.operations[first].snapshot.None? { return None; }
      hint := Some((first, tables.operations[first].revision));
    }

    // -------------------------------------------------------------- recovery

    /** Holds the waiting items that are not held yet, one by one. */
    method HoldWaiting() returns (any: bool)
      requires Inv(tables)
      modifies this
      ensures tables == HoldAll(old(tables)) && (any <==> exists id :: Unheld(old(tables).items, id) && id in old(tables).items)
    {
      ghost var before := tables;
      var left := set id | id in tables.items && Unheld(tables.items, id);
      any := left != {};
      ghost var all := left;
      assert forall id :: id in all <==> Unheld(before.items, id);
      if any {
        var some :| some in left;
        assert Unheld(before.items, some) && some in before.items;
      }
      while left != {}
        invariant left <= all
        invariant HeldBut(before, tables, left)
        decreases |left|
      {
        var id :| id in left;
        assert OperationOk(before, id) && HeldRow(before, tables, left, id);
        ghost var middle := tables;
        tables := tables.(items := tables.items[id := tables.items[id].(held := true)]);
        var status := tables.operations[id].status;
        Record(id, if status.Queued? then Held else status, None);
        HeldStep(before, middle, left, id);
        left := left - {id};
      }
      HeldAll(before, tables);
    }

    /** The one active row. */
    method RecoverOne(id: nat, decisions: Decisions) returns (interrupted: bool)
      requires tables.lease.Some? && tables.lease.value.operation == id && id in tables.operations
      modifies this
      ensures tables == RecoverHolder(old(tables), decisions)
      ensures interrupted <==> (id, old(tables).lease.value.fence) in decisions && decisions[(id, old(tables).lease.value.fence)].Interrupt?
    {
      interrupted := false;
      var observed := (id, tables.lease.value.fence);
      if observed !in decisions { return; }
      match decisions[observed]
      case OwnerAlive =>
      case Interrupt =>
        Release(id, Lost);
        Record(id, Interrupted, None);
        interrupted := true;
      case Required(reason) =>
        if tables.operations[id].flag != Some(FlagOf(reason)) {
          Record(id, tables.operations[id].status, Some(FlagOf(reason)));
        }
    }

    /** All active rows; there is at most one, the lease holder. */
    method RecoverActive(decisions: Decisions) returns (interrupted: bool)
      requires Inv(tables)
      modifies this
      ensures tables == RecoverHolder(old(tables), decisions)
      ensures interrupted <==> old(tables).lease.Some? && old(tables).lease.value.operation in old(tables).operations
                               && (old(tables).lease.value.operation, old(tables).lease.value.fence) in decisions
                               && decisions[(old(tables).lease.value.operation, old(tables).lease.value.fence)].Interrupt?
    {
      interrupted := false;
      var h := tables;
      var active := set id | id in h.operations && Active(h.operations[id].status);
      forall id ensures id in active <==> h.lease.Some? && id == h.lease.value.operation { assert OperationOk(h, id); }
      assert h.lease.Some? ==> h.lease.value.operation in active;
      if active != {} {
        var id :| id in active;
        interrupted := RecoverOne(id, decisions);
      }
    }

    /** Explicit startup recovery with what was decided about the leases observed before it. */
    method Recover(decisions: Decisions) returns (r: Outcome)
      requires Inv(tables)
      modifies this
      ensures (tables, r) == RecoverResult(old(tables), decisions) && Inv(tables)
    {
      RecoverKeeps(tables, decisions);
      ghost var before := tables;
      var touched := tables.running;
      NothingEvolves(tables);
      FrameKeeps(tables, tables, tables.(running := false));
      tables := tables.(running := false);
      HoldAllKeeps(tables);
      var any := HoldWaiting();
      touched := touched || any;
      var interrupted := RecoverActive(decisions);
      touched := touched || interrupted;
      if touched { TouchQueue(); }
      r := Recovered;
    }
  }
}
