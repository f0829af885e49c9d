/** Every command keeps what the control tables always satisfy. */
module JobInvariants {
  import opened Basics
  import opened ControlTables
  import opened JobCommands

  ghost predicate Keeps(db: Tables, r: Result) {
    Inv(r.0) && Evolves(db, r.0)
  }

  /** A key adds an answer and nothing else. */
  lemma KeyKeeps(db: Tables, scope: Scope, digest: Digest, plain: Result)
    requires Inv(db) && Keeps(db, plain) && plain.0.replays == db.replays
    ensures Keeps(db, Keyed(db, scope, digest, plain))
  {
    NothingEvolves(db);
    if scope !in db.replays && plain.1.Ok? {
      FrameKeeps(db, plain.0, WithAnswer(plain.0, scope, digest, plain.1.response));
    }
  }

  lemma QueueChangedKeeps(db: Tables, m: Tables)
    requires Inv(m) && Evolves(db, m)
    ensures Inv(QueueChanged(m)) && Evolves(db, QueueChanged(m))
  {
    FrameKeeps(db, m, QueueChanged(m));
  }

  // ---------------------------------------------------------------- submissions

  lemma SubmitKeeps(db: Tables, valid: bool)
    requires Inv(db)
    ensures Keeps(db, SubmitResult(db, valid))
  {
    NothingEvolves(db);
    InsertKeeps(db, None, None);
    QueueChangedKeeps(db, Inserted(db, None, None));
  }

  lemma AcceptKeeps(db: Tables, snapshots: seq<nat>, rerunOf: Option<nat>)
    requires Inv(db)
    ensures Keeps(db, AcceptBatchResult(db, snapshots, rerunOf)) && AcceptBatchResult(db, snapshots, rerunOf).0.replays == db.replays
  {
    NothingEvolves(db);
    InsertAllKeeps(db, snapshots, |snapshots|);
    var m := InsertAll(db, snapshots, |snapshots|);
    forall id ensures OperationEvolves(db, m, id) { }
    QueueChangedKeeps(db, m);
  }

  // ---------------------------------------------------------------- job commands

  lemma CancelChangeKeeps(db: Tables, job: nat)
    requires Inv(db) && job in db.operations
    ensures Inv(CancelChange(db, job)) && Evolves(db, CancelChange(db, job))
  {
    NothingEvolves(db);
    var s := db.operations[job].status;
    FinalStatuses(s);
    if Waiting(s) {
      EndKeeps(db, job, Cancelled, Released);
      EndEvolves(db, job, Cancelled, Released);
      QueueChangedKeeps(db, Ended(db, job, Cancelled, Released));
    } else if s.Running? {
      ActiveRecordKeeps(db, job, Cancelling, None);
    }
  }

  lemma CancelKeeps(db: Tables, job: nat, revision: nat)
    requires Inv(db)
    ensures Keeps(db, CancelResult(db, job, revision))
  {
    NothingEvolves(db);
    if job in db.operations { CancelChangeKeeps(db, job); }
  }

  lemma RetryKeeps(db: Tables, job: nat, revision: nat)
    requires Inv(db)
    ensures Keeps(db, RetryResult(db, job, revision))
  {
    NothingEvolves(db);
    if CheckJob(db, job, revision).None? {
      InsertKeeps(db, db.operations[job].snapshot, Some(job));
      QueueChangedKeeps(db, Inserted(db, db.operations[job].snapshot, Some(job)));
    }
  }

  lemma ReflagQueueKeeps(db: Tables, id: nat, held: bool, blocked: bool)
    requires Inv(db) && id in db.operations && id in db.items && Waiting(db.operations[id].status)
    ensures Inv(QueueChanged(Reflagged(db, id, held, blocked))) && Evolves(db, QueueChanged(Reflagged(db, id, held, blocked)))
  {
    assert OperationOk(db, id);
    ReflagKeeps(db, id, held, blocked);
    QueueChangedKeeps(db, Reflagged(db, id, held, blocked));
  }

  lemma BlockKeeps(db: Tables, job: nat, revision: nat)
    requires Inv(db)
    ensures Keeps(db, BlockResult(db, job, revision))
  {
    NothingEvolves(db);
    if CheckJob(db, job, revision).None? && Waiting(db.operations[job].status) {
      assert OperationOk(db, job);
      if db.operations[job].status.Blocked? {
        assert db.items[job := db.items[job].(blocked := true)] == db.items;
      } else {
        ReflagQueueKeeps(db, job, db.items[job].held, true);
      }
    }
  }

  lemma RevalidatedKeeps(db: Tables, job: nat, revision: nat, failed: bool)
    requires Inv(db)
    ensures Keeps(db, RevalidatedResult(db, job, revision, failed))
  {
    NothingEvolves(db);
    if CheckJob(db, job, revision).None? && db.operations[job].status.Blocked? {
      assert OperationOk(db, job);
      ReflagQueueKeeps(db, job, db.items[job].held, false);
    }
  }

  // ---------------------------------------------------------------- the order of the queue

  lemma {:induction false} AssignedOutside(items: map<nat, Item>, ids: seq<nat>, slots: seq<int>, k: nat, id: nat)
    requires k <= |ids| && k <= |slots| && (forall x | x in ids :: x in items)
    ensures id in Assigned(items, ids, slots, k) <==> id in items
    ensures id in items && (forall j | 0 <= j < k :: ids[j] != id) ==> Assigned(items, ids, slots, k)[id] == items[id]
  {
    if k > 0 { AssignedOutside(items, ids, slots, k - 1, id); }
  }

  lemma {:induction false} AssignedInside(items: map<nat, Item>, ids: seq<nat>, slots: seq<int>, k: nat, j: nat)
    requires j < k <= |ids| && k <= |slots| && NoRepeats(ids) && (forall x | x in ids :: x in items)
    ensures ids[j] in Assigned(items, ids, slots, k) && Assigned(items, ids, slots, k)[ids[j]] == items[ids[j]].(place := Some(slots[j]))
  {
    if j < k - 1 { AssignedInside(items, ids, slots, k - 1, j); }
  }

  lemma AssignedAt(items: map<nat, Item>, ids: seq<nat>, slots: seq<int>, k: nat)
    requires k <= |ids| && k <= |slots| && NoRepeats(ids) && forall id | id in ids :: id in items
    ensures var m := Assigned(items, ids, slots, k);
            && m.Keys == items.Keys
            && (forall id | id in items && id !in ids[..k] :: m[id] == items[id])
            && (forall j | 0 <= j < k :: m[ids[j]] == items[ids[j]].(place := Some(slots[j])))
  {
    var m := Assigned(items, ids, slots, k);
    forall id: nat ensures id in m <==> id in items { AssignedOutside(items, ids, slots, k, id); }
    forall id | id in items && id !in ids[..k] ensures m[id] == items[id] {
      assert forall j | 0 <= j < k :: ids[..k][j] == ids[j];
      AssignedOutside(items, ids, slots, k, id);
    }
    forall j | 0 <= j < k ensures m[ids[j]] == items[ids[j]].(place := Some(slots[j])) { AssignedInside(items, ids, slots, k, j); }
  }

  ghost predicate Before(items: map<nat, Item>, a: nat, b: nat) {
    && a in items && b in items && items[a].place.Some? && items[b].place.Some?
    && items[a].place.value < items[b].place.value
  }

  ghost predicate Ascending(items: map<nat, Item>, ids: seq<nat>) {
    forall i, j {:trigger Before(items, ids[i], ids[j])} | 0 <= i < j < |ids| :: Before(items, ids[i], ids[j])
  }

  lemma {:induction false} OrderAscends(items: map<nat, Item>, ids: set<nat>)
    requires Placed(items, ids) && PlacesDistinct(items)
    ensures Ascending(items, Order(items, ids))
    decreases |ids|
  {
    if ids != {} {
      LeastExists(items, ids);
      var first := Order(items, ids)[0];
      var rest := ids - {first};
      OrderAscends(items, rest);
      OrderListsAll(items, rest);
      forall x | x in Order(items, rest) ensures Before(items, first, x) {
        assert x in rest && !SamePlace(items, first, x);
      }
    }
  }

  /** There is one ascending listing. */
  lemma {:induction false} OrderIsUnique(items: map<nat, Item>, ids: set<nat>, listing: seq<nat>)
    requires Placed(items, ids) && Elements(listing) == ids && Ascending(items, listing)
    ensures listing == Order(items, ids)
    decreases |ids|
  {
    assert listing != [] ==> listing[0] in Elements(listing);
    if ids != {} {
      LeastExists(items, ids);
      var first := Order(items, ids)[0];
      assert first in Elements(listing);
      var k :| 0 <= k < |listing| && listing[k] == first;
      assert k > 0 ==> Before(items, listing[0], listing[k]);
      assert k == 0;
      var rest := listing[1..];
      assert listing == [first] + rest;
      assert forall j | 0 <= j < |rest| :: rest[j] == listing[j + 1] && Before(items, listing[0], listing[j + 1]);
      assert Elements(rest) == ids - {first} by {
        forall x ensures x in Elements(rest) <==> x in ids - {first} { assert x in Elements(listing) <==> x in listing; }
      }
      assert Ascending(items, rest) by {
        forall i, j | 0 <= i < j < |rest| ensures Before(items, rest[i], rest[j]) {
          assert Before(items, listing[i + 1], listing[j + 1]);
        }
      }
      OrderIsUnique(items, ids - {first}, rest);
    }
  }

  /** The items after the waiting ones were assigned the slots, item by item. */
  ghost predicate Rearranged(items: map<nat, Item>, after: map<nat, Item>, ids: seq<nat>, order: seq<nat>) {
    && after.Keys == items.Keys && |order| == |ids|
    && (forall id {:trigger after[id]} | id in items && items[id].active :: after[id] == items[id])
    && (forall j {:trigger ids[j]} {:trigger order[j]} | 0 <= j < |ids| ::
          ids[j] in items && order[j] in items && !items[ids[j]].active && !items[order[j]].active
          && after[ids[j]] == items[ids[j]].(place := items[order[j]].place))
  }

  lemma AssignedRearranges(items: map<nat, Item>, ids: seq<nat>, order: seq<nat>)
    requires NoRepeats(ids) && |order| == |ids|
    requires forall id | id in ids :: id in items && !items[id].active
    requires forall id | id in order :: id in items && !items[id].active && items[id].place.Some?
    ensures Rearranged(items, Assigned(items, ids, PlacesOf(items, order), |ids|), ids, order)
  {
    AssignedAt(items, ids, PlacesOf(items, order), |ids|);
    assert ids[..|ids|] == ids;
    assert forall j | 0 <= j < |ids| :: ids[j] in ids && order[j] in order;
  }

  lemma RearrangedAscends(items: map<nat, Item>, after: map<nat, Item>, ids: seq<nat>, order: seq<nat>)
    requires Rearranged(items, after, ids, order) && Ascending(items, order)
    ensures Ascending(after, ids)
  {
    forall i, j | 0 <= i < j < |ids| ensures Before(after, ids[i], ids[j]) {
      assert Before(items, order[i], order[j]);
    }
  }

  lemma RearrangedDistinct(items: map<nat, Item>, after: map<nat, Item>, ids: seq<nat>)
    requires Ascending(after, ids) && (forall id {:trigger after[id]} | id in after && id !in ids :: after[id].place.None?)
    ensures PlacesDistinct(after)
  {
    forall a, b | a in after && b in after && a != b ensures !SamePlace(after, a, b) {
      if a in ids && b in ids {
        var i :| 0 <= i < |ids| && ids[i] == a;
        var j :| 0 <= j < |ids| && ids[j] == b;
        assert i < j ==> Before(after, ids[i], ids[j]);
        assert j < i ==> Before(after, ids[j], ids[i]);
      }
    }
  }

  /** The requested order lists the waiting items ascending after the slots were assigned. */
  lemma ReorderAscends(db: Tables, ids: seq<nat>)
    requires Inv(db) && Elements(ids) == WaitingItems(db.items) && NoRepeats(ids)
    ensures Rearranged(db.items, Reordered(db, ids), ids, QueueOrder(db)) && Ascending(Reordered(db, ids), ids)
  {
    WaitingPlaced(db);
    ReorderIsDefined(db, ids);
    OrderAscends(db.items, WaitingItems(db.items));
    AssignedRearranges(db.items, ids, QueueOrder(db));
    RearrangedAscends(db.items, Reordered(db, ids), ids, QueueOrder(db));
  }

  /** Only places change, and only those of waiting items. */
  lemma ReorderedItems(db: Tables, ids: seq<nat>)
    requires Inv(db) && Elements(ids) == WaitingItems(db.items) && NoRepeats(ids)
    ensures var items := Reordered(db, ids);
            && items.Keys == db.items.Keys
            && (forall id {:trigger items[id]} | id in db.items ::
                  && items[id] == (if db.items[id].active then db.items[id] else db.items[id].(place := items[id].place))
                  && PlaceOk(db.(items := items), id))
  {
    ReorderAscends(db, ids);
    ReorderIsDefined(db, ids);
    forall id | id in db.items
      ensures var items := Reordered(db, ids);
              && items[id] == (if db.items[id].active then db.items[id] else db.items[id].(place := items[id].place))
              && PlaceOk(db.(items := items), id)
    {
      assert PlaceOk(db, id);
      if !db.items[id].active {
        assert id in Elements(ids);
        var j :| 0 <= j < |ids| && ids[j] == id;
        assert PlaceOk(db, QueueOrder(db)[j]);
      }
    }
  }

  /** What a reordering does: the waiting items take the requested order and keep their flags,
      active items stay as they are, and the places in use are the same ones as before. */
  lemma ReorderGivesTheOrder(db: Tables, ids: seq<nat>)
    requires Inv(db) && Elements(ids) == WaitingItems(db.items) && NoRepeats(ids)
    ensures var items := Reordered(db, ids);
            && items.Keys == db.items.Keys && WaitingItems(items) == WaitingItems(db.items)
            && (forall id {:trigger items[id]} | id in db.items ::
                  items[id] == if db.items[id].active then db.items[id] else db.items[id].(place := items[id].place))
            && Placed(items, WaitingItems(items)) && Order(items, WaitingItems(items)) == ids
            && PlacesDistinct(items)
            && (forall id {:trigger items[id]} | id in items :: PlaceOk(db.(items := items), id))
  {
    ReorderAscends(db, ids);
    ReorderedItems(db, ids);
    ReorderedOrder(db, Reordered(db, ids), ids);
  }

  lemma ReorderedOrder(db: Tables, items: map<nat, Item>, ids: seq<nat>)
    requires Inv(db) && Elements(ids) == WaitingItems(db.items) && items.Keys == db.items.Keys && Ascending(items, ids)
    requires forall id {:trigger items[id]} | id in db.items :: items[id].active == db.items[id].active && PlaceOk(db.(items := items), id)
    ensures WaitingItems(items) == WaitingItems(db.items) && Placed(items, WaitingItems(items)) && Order(items, WaitingItems(items)) == ids
    ensures PlacesDistinct(items)
  {
    assert WaitingItems(items) == WaitingItems(db.items);
    forall id | id in items && id !in ids ensures items[id].place.None? {
      assert id !in Elements(ids);
      assert PlaceOk(db.(items := items), id);
    }
    RearrangedDistinct(db.items, items, ids);
    forall id | id in WaitingItems(items) ensures items[id].place.Some? { assert PlaceOk(db.(items := items), id); }
    OrderIsUnique(items, WaitingItems(items), ids);
  }

  lemma ReorderedKeeps(db: Tables, ids: seq<nat>)
    requires Inv(db) && Elements(ids) == WaitingItems(db.items) && NoRepeats(ids)
    ensures var e := QueueChanged(db.(items := Reordered(db, ids))); Inv(e) && Evolves(db, e) && e.replays == db.replays
  {
    ReorderGivesTheOrder(db, ids);
    var m := db.(items := Reordered(db, ids));
    forall id ensures OperationOk(m, id) { assert OperationOk(db, id); }
    forall id ensures OperationEvolves(db, m, id) { }
    QueueChangedKeeps(db, m);
  }

  lemma ReorderKeeps(db: Tables, revision: nat, ids: seq<nat>)
    requires Inv(db)
    ensures Keeps(db, ReorderResult(db, revision, ids)) && ReorderResult(db, revision, ids).0.replays == db.replays
  {
    NothingEvolves(db);
    if NoRepeats(ids) && Elements(ids) == WaitingItems(db.items) { ReorderedKeeps(db, ids); }
  }

  lemma HoldItemKeeps(db: Tables, item: nat, revision: nat, held: bool)
    requires Inv(db)
    ensures Keeps(db, HoldItemResult(db, item, revision, held))
  {
    NothingEvolves(db);
    if item in db.items && item in db.operations && Waiting(db.operations[item].status) {
      ReflagQueueKeeps(db, item, held, db.items[item].blocked);
    }
  }

  lemma SetHoldKeeps(db: Tables, id: nat, revision: nat, held: bool)
    requires Inv(db)
    ensures Keeps(db, SetHoldResult(db, id, revision, held))
  {
    NothingEvolves(db);
    if id in db.items && id in db.operations && Waiting(db.operations[id].status) {
      ReflagQueueKeeps(db, id, held, db.items[id].blocked);
    }
  }

  lemma SetDispatchKeeps(db: Tables, revision: nat, running: bool)
    requires Inv(db)
    ensures Keeps(db, SetDispatchResult(db, revision, running))
  {
    NothingEvolves(db);
    FrameKeeps(db, db, QueueChanged(db.(running := running)));
  }

  // ---------------------------------------------------------------- attempts

  lemma BegunKeeps(db: Tables, id: nat, owner: nat)
    requires Inv(db) && id in db.operations && db.operations[id].status.Queued? && db.lease.None?
    requires id in db.items
    ensures Inv(Begun(db, id, owner)) && Evolves(db, Begun(db, id, owner))
  {
    var e := Begun(db, id, owner);
    assert OperationOk(db, id);
    forall j ensures OperationOk(e, j) { assert OperationOk(db, j); }
    forall j | j in e.items ensures PlaceOk(e, j) { assert PlaceOk(db, j); }
    forall a, b | a in e.items && b in e.items && a != b ensures !SamePlace(e.items, a, b) { assert !SamePlace(db.items, a, b); }
    forall j ensures OperationEvolves(db, e, j) { }
  }

  lemma BeginKeeps(db: Tables, id: nat, revision: nat, owner: nat)
    requires Inv(db)
    ensures Keeps(db, BeginResult(db, id, revision, owner))
  {
    NothingEvolves(db);
    if BeginResult(db, id, revision, owner).1.Granted? { BegunKeeps(db, id, owner); }
  }

  lemma LaunchKeeps(db: Tables, id: nat, fence: nat, child: Option<nat>)
    requires Inv(db)
    ensures Keeps(db, RecordLaunchResult(db, id, fence, child))
  {
    NothingEvolves(db);
    if RecordLaunchResult(db, id, fence, child).1.Viewed? {
      var attempt := db.lease.value.attempt;
      var m := db.(attempts := db.attempts[attempt := db.attempts[attempt].(launch := if child.Some? then Confirmed else LaunchFailed, child := child)]);
      assert OperationOk(db, id);
      forall j ensures OperationOk(m, j) { assert OperationOk(db, j); }
      forall j | j in m.items ensures PlaceOk(m, j) { assert PlaceOk(db, j); }
      ActiveRecordKeeps(m, id, db.operations[id].status, db.operations[id].flag);
      var e := RecordLaunchResult(db, id, fence, child).0;
      forall j ensures OperationEvolves(db, e, j) { assert OperationEvolves(m, e, j); }
    }
  }

  lemma FinishKeeps(db: Tables, job: nat, fence: nat, ending: Ending, evidence: bool)
    requires Inv(db)
    ensures Keeps(db, FinishResult(db, job, fence, ending, evidence))
  {
    NothingEvolves(db);
    if FinishResult(db, job, fence, ending, evidence).1.Viewed? {
      var target := EndingStatus(db.operations[job].status, ending);
      var m := Ended(db, job, target, Released);
      EndKeeps(db, job, target, Released);
      EndEvolves(db, job, target, Released);
      if target.Succeeded? {
        var attempt := db.lease.value.attempt;
        ResultKeeps(m, job, attempt);
        var n := m.(results := m.results[job := attempt]);
        forall j ensures OperationEvolves(db, n, j) { assert OperationEvolves(db, m, j); }
        QueueChangedKeeps(db, n);
      } else {
        QueueChangedKeeps(db, m);
      }
    }
  }

  lemma FlagKeeps(db: Tables, job: nat, fence: nat)
    requires Inv(db)
    ensures Keeps(db, FlagResult(db, job, fence))
  {
    NothingEvolves(db);
    if job in db.operations && Holds(db, job, fence) {
      assert OperationOk(db, job);
      ActiveRecordKeeps(db, job, db.operations[job].status, Some(TERMINATION_FAILED));
    }
  }

  // ---------------------------------------------------------------- recovery

  lemma HoldAllKeeps(db: Tables)
    requires Inv(db)
    ensures Inv(HoldAll(db)) && Evolves(db, HoldAll(db))
    ensures forall id | id in db.operations && !Waiting(db.operations[id].status) :: HoldAll(db).operations[id] == db.operations[id]
  {
    var e := HoldAll(db);
    forall j ensures OperationOk(e, j) { assert OperationOk(db, j); }
    forall j | j in e.items ensures PlaceOk(e, j) { assert PlaceOk(db, j); }
    forall a, b | a in e.items && b in e.items && a != b ensures !SamePlace(e.items, a, b) { assert !SamePlace(db.items, a, b); }
    forall j ensures OperationEvolves(db, e, j) {
      assert OperationOk(db, j);
      if j in db.operations { FinalStatuses(db.operations[j].status); }
    }
    forall id | id in db.operations && !Waiting(db.operations[id].status) ensures e.operations[id] == db.operations[id] {
      assert OperationOk(db, id);
    }
  }

  lemma HolderKeeps(db: Tables, decisions: Decisions)
    requires Inv(db)
    ensures Inv(RecoverHolder(db, decisions)) && Evolves(db, RecoverHolder(db, decisions))
    ensures db.lease.None? ==> RecoverHolder(db, decisions) == db
    ensures db.lease.Some? ==> forall id | id in db.operations && id != db.lease.value.operation ::
              RecoverHolder(db, decisions).operations[id] == db.operations[id]
  {
    NothingEvolves(db);
    if db.lease.Some? {
      var id := db.lease.value.operation;
      assert OperationOk(db, id);
      EndKeeps(db, id, Interrupted, Lost);
      EndEvolves(db, id, Interrupted, Lost);
      if (id, db.lease.value.fence) in decisions && decisions[(id, db.lease.value.fence)].Required? {
        ActiveRecordKeeps(db, id, db.operations[id].status, Some(FlagOf(decisions[(id, db.lease.value.fence)].reason)));
      }
    }
  }

  lemma RecoverMiddle(db: Tables, decisions: Decisions)
    requires Inv(db)
    ensures Inv(RecoverHolder(HoldAll(db), decisions)) && Evolves(db, RecoverHolder(HoldAll(db), decisions))
  {
    HoldAllKeeps(db);
    var h := HoldAll(db);
    HolderKeeps(h, decisions);
    var m := RecoverHolder(h, decisions);
    forall j ensures OperationEvolves(db, m, j) {
      assert OperationEvolves(db, h, j) && OperationEvolves(h, m, j) && OperationOk(db, j);
    }
  }

  lemma RecoverKeeps(db: Tables, decisions: Decisions)
    requires Inv(db)
    ensures Keeps(db, RecoverResult(db, decisions))
  {
    RecoverMiddle(db, decisions);
    FrameKeeps(db, RecoverHolder(HoldAll(db), decisions), RecoverResult(db, decisions).0);
  }

  // ---------------------------------------------------------------- the older interface

  lemma TransitionChangeKeeps(db: Tables, id: nat, target: Status)
    requires Inv(db) && id in db.operations && target in Allowed(db.operations[id].status) && !target.Running?
    requires Waiting(db.operations[id].status) && !target.Cancelled? ==> id in db.items
    ensures Inv(TransitionChange(db, id, target)) && Evolves(db, TransitionChange(db, id, target))
  {
    var s := db.operations[id].status;
    FinalStatuses(s);
    FinalStatuses(target);
    if target.Cancelling? {
      ActiveRecordKeeps(db, id, Cancelling, None);
    } else if Final(target) {
      var state := if target.Interrupted? then Lost else Released;
      EndKeeps(db, id, target, state);
      EndEvolves(db, id, target, state);
      QueueChangedKeeps(db, Ended(db, id, target, state));
    } else {
      ReflagQueueKeeps(db, id, if target.Blocked? then db.items[id].held else target.Held?, target.Blocked?);
    }
  }

  lemma TransitionKeeps(db: Tables, id: nat, revision: nat, target: Status, reason: Reason, fence: Option<nat>)
    requires Inv(db)
    ensures Keeps(db, TransitionResult(db, id, revision, target, reason, fence))
  {
    NothingEvolves(db);
    if TransitionError(db, id, revision, target, fence).None? { TransitionChangeKeeps(db, id, target); }
  }

  /** Every command, whatever its arguments, keeps the invariant and moves each operation by at
      most one step of the state table, or from held to blocked. */
  lemma CommandKeeps(db: Tables, c: Command)
    requires Inv(db)
    ensures Keeps(db, Execute(db, c))
  {
    NothingEvolves(db);
    PlainKeeps(db, c);
    if KeyOf(c).Some? {
      PlainKeepsAnswers(db, c);
      KeyKeeps(db, KeyOf(c).value.0, KeyOf(c).value.1, Plain(db, c));
    }
  }

  lemma PlainKeeps(db: Tables, c: Command)
    requires Inv(db)
    ensures Keeps(db, Plain(db, c))
  {
    match c
    case Submit(_, _, valid) => SubmitKeeps(db, valid);
    case AcceptBatch(_, _, snapshots, rerunOf) => AcceptKeeps(db, snapshots, rerunOf);
    case CancelJob(job, revision, _) => CancelKeeps(db, job, revision);
    case RetryJob(job, revision, _) => RetryKeeps(db, job, revision);
    case BlockJob(job, revision) => BlockKeeps(db, job, revision);
    case Revalidated(job, revision, _, failed) => RevalidatedKeeps(db, job, revision, failed);
    case Reorder(revision, items, _) => ReorderKeeps(db, revision, items);
    case HoldItem(item, revision, held, _) => HoldItemKeeps(db, item, revision, held);
    case SetHold(operation, revision, held, _) => SetHoldKeeps(db, operation, revision, held);
    case SetDispatch(revision, running, _) => SetDispatchKeeps(db, revision, running);
    case _ => AttemptKeeps(db, c);
  }

  lemma AttemptKeeps(db: Tables, c: Command)
    requires Inv(db) && (c.BeginAttempt? || c.RecordLaunch? || c.FinishAttempt? || c.FlagUnconfirmed? || c.Recover? || c.Transition?)
    ensures Keeps(db, Plain(db, c))
  {
    match c
    case BeginAttempt(operation, revision, owner) => BeginKeeps(db, operation, revision, owner);
    case RecordLaunch(operation, fence, child) => LaunchKeeps(db, operation, fence, child);
    case FinishAttempt(job, fence, ending, evidence) => FinishKeeps(db, job, fence, ending, evidence);
    case FlagUnconfirmed(job, fence) => FlagKeeps(db, job, fence);
    case Recover(decisions) => RecoverKeeps(db, decisions);
    case Transition(operation, revision, target, reason, token, _) => TransitionKeeps(db, operation, revision, target, reason, token);
  }

  /** Only a key writes an answer. */
  lemma PlainKeepsAnswers(db: Tables, c: Command)
    requires Inv(db) && KeyOf(c).Some?
    ensures Plain(db, c).0.replays == db.replays
  {
    match c
    case Submit(_, _, _) =>
    case AcceptBatch(_, _, snapshots, rerunOf) => AcceptKeeps(db, snapshots, rerunOf);
    case CancelJob(_, _, _) =>
    case RetryJob(_, _, _) =>
    case Revalidated(_, _, _, _) =>
    case Reorder(revision, items, _) => ReorderKeeps(db, revision, items);
    case HoldItem(_, _, _, _) =>
    case SetHold(_, _, _, _) =>
    case SetDispatch(_, _, _) =>
    case Transition(_, _, _, _, _, _) =>
    case _ =>
  }

  lemma PlainRefusal(db: Tables, c: Command)
    requires Inv(db)
    ensures Plain(db, c).1.Err? ==> Plain(db, c).0 == db
    ensures Plain(db, c).1.Ok? ==> !Plain(db, c).1.replayed
  {
  }

  /** A refused or repeated command changes nothing. */
  lemma RefusalChangesNothing(db: Tables, c: Command)
    requires Inv(db)
    ensures Execute(db, c).1.Err? || (Execute(db, c).1.Ok? && Execute(db, c).1.replayed) ==> Execute(db, c).0 == db
  {
    PlainRefusal(db, c);
    var r := Plain(db, c);
    assert KeyOf(c).Some? ==> Execute(db, c) == if WellSized(c) then Keyed(db, KeyOf(c).value.0, KeyOf(c).value.1, r) else (db, Err(RequestInvalid));
  }

  // ---------------------------------------------------------------- the transition table

  /** A step of an operation that the transition table does not have. */
  predicate OffTable(a: Operation, b: Operation) {
    b.status != a.status && b.status !in Allowed(a.status)
  }

  /** A block request for this job that nothing stops. */
  predicate BlocksHeld(db: Tables, c: Command, id: nat) {
    c.BlockJob? && c.job == id && CheckJob(db, id, c.revision).None? && db.operations[id].status.Held?
  }

  /** Blocking a held job leaves the transition table, and nothing else does. */
  lemma OnlyBlockLeavesTheTable(db: Tables, c: Command, id: nat)
    requires Inv(db) && id in db.operations
    ensures var e := Execute(db, c).0;
            id in e.operations && (OffTable(db.operations[id], e.operations[id]) <==> BlocksHeld(db, c, id))
  {
    CommandKeeps(db, c);
    assert OperationEvolves(db, Execute(db, c).0, id) && OperationOk(db, id);
    if db.operations[id].status.Held? {
      if c.BlockJob? { BlockTakesHeld(db, c, id); } else { StaysUnblocked(db, c, id); }
    }
  }

  lemma BlockTakesHeld(db: Tables, c: Command, id: nat)
    requires Inv(db) && id in db.operations && db.operations[id].status.Held? && c.BlockJob?
    ensures var o := BlockResult(db, c.job, c.revision).0.operations[id]; o.status == if BlocksHeld(db, c, id) then Blocked else Held
  {
    assert OperationOk(db, id);
  }

  ghost predicate Unblocked(e: Tables, id: nat) {
    id in e.operations ==> !e.operations[id].status.Blocked?
  }

  lemma StaysUnblocked(db: Tables, c: Command, id: nat)
    requires Inv(db) && id in db.operations && db.operations[id].status.Held? && !c.BlockJob?
    ensures Unblocked(Plain(db, c).0, id)
  {
    assert OperationOk(db, id);
    match c
    case AcceptBatch(_, _, snapshots, _) => InsertAllKeeps(db, snapshots, |snapshots|);
    case Recover(decisions) => RecoverStaysUnblocked(db, decisions, id);
    case Transition(_, _, _, _, _, _) => TransitionStaysUnblocked(db, c, id);
    case BeginAttempt(_, _, _) => AttemptStaysUnblocked(db, c, id);
    case RecordLaunch(_, _, _) => AttemptStaysUnblocked(db, c, id);
    case FinishAttempt(job, fence, ending, evidence) => FinishStaysUnblocked(db, job, fence, ending, evidence, id);
    case FlagUnconfirmed(job, fence) => FlagStaysUnblocked(db, job, fence, id);
    case Submit(_, _, _) => JobStaysUnblocked(db, c, id);
    case CancelJob(_, _, _) => JobStaysUnblocked(db, c, id);
    case RetryJob(_, _, _) => JobStaysUnblocked(db, c, id);
    case Revalidated(_, _, _, _) => JobStaysUnblocked(db, c, id);
    case _ => QueueStaysUnblocked(db, c, id);
  }

  lemma AttemptStaysUnblocked(db: Tables, c: Command, id: nat)
    requires Inv(db) && id in db.operations && db.operations[id].status.Held?
    requires c.BeginAttempt? || c.RecordLaunch?
    ensures Unblocked(Plain(db, c).0, id)
  {
    assert OperationOk(db, id);
  }

  lemma FinishStaysUnblocked(db: Tables, job: nat, fence: nat, ending: Ending, evidence: bool, id: nat)
    requires OperationOk(db, id) && id in db.operations && db.operations[id].status.Held?
    ensures Unblocked(FinishResult(db, job, fence, ending, evidence).0, id)
  {
    assert !Holds(db, id, fence);
  }

  lemma FlagStaysUnblocked(db: Tables, job: nat, fence: nat, id: nat)
    requires OperationOk(db, id) && id in db.operations && db.operations[id].status.Held?
    ensures Unblocked(FlagResult(db, job, fence).0, id)
  {
    assert !Holds(db, id, fence);
  }

  lemma JobStaysUnblocked(db: Tables, c: Command, id: nat)
    requires Inv(db) && id in db.operations && db.operations[id].status.Held?
    requires c.Submit? || c.CancelJob? || c.RetryJob? || c.Revalidated?
    ensures Unblocked(Plain(db, c).0, id)
  {
    assert OperationOk(db, id);
  }

  lemma QueueStaysUnblocked(db: Tables, c: Command, id: nat)
    requires Inv(db) && id in db.operations && db.operations[id].status.Held?
    requires c.Reorder? || c.HoldItem? || c.SetHold? || c.SetDispatch?
    ensures Unblocked(Plain(db, c).0, id)
  {
    assert OperationOk(db, id);
  }

  lemma TransitionShape(db: Tables, id: nat, target: Status)
    requires id in db.operations && (Active(db.operations[id].status) || Waiting(db.operations[id].status))
    requires Waiting(db.operations[id].status) && !target.Cancelled? ==> id in db.items && (target.Queued? || target.Held? || target.Blocked?)
    requires db.operations[id].status.Blocked? && !target.Cancelled? ==> target.Held? == db.items[id].held
    ensures var e := TransitionChange(db, id, target);
            && e.results == db.results && e.operations == db.operations[id := e.operations[id]]
            && e.operations[id].status == target
  {
  }

  lemma TransitionSource(db: Tables, id: nat, target: Status)
    requires Inv(db) && id in db.operations && target in Allowed(db.operations[id].status)
    ensures Active(db.operations[id].status) || Waiting(db.operations[id].status)
    ensures Waiting(db.operations[id].status) && !target.Cancelled? && !target.Running? ==> target.Queued? || target.Held? || target.Blocked?
    ensures !db.operations[id].status.Succeeded? && id !in db.results
  {
    assert OperationOk(db, id);
    FinalStatuses(db.operations[id].status);
  }

  lemma TransitionStaysUnblocked(db: Tables, c: Command, id: nat)
    requires Inv(db) && id in db.operations && db.operations[id].status.Held? && c.Transition?
    ensures Unblocked(Plain(db, c).0, id)
  {
    if c.reason.Open? && TransitionError(db, c.operation, c.revision, c.target, c.token).None? {
      TransitionSource(db, c.operation, c.target);
      TransitionShape(db, c.operation, c.target);
    }
  }

  lemma RecoverStaysUnblocked(db: Tables, decisions: Decisions, id: nat)
    requires Inv(db) && id in db.operations && db.operations[id].status.Held?
    ensures Unblocked(RecoverResult(db, decisions).0, id)
  {
    assert OperationOk(db, id);
    HoldAllKeeps(db);
    HolderKeeps(HoldAll(db), decisions);
  }
}
