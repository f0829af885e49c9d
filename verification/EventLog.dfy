/** The event log with compaction (`src/utteran_control/events_repository.py`,
    `src/utteran_control/store.py`) and the client's reducer (`src/utteran_contracts/events.py`),
    within one epoch. */
module EventLog {
  import opened Basics

  datatype Resource = Queue | Operation(id: nat)

  /** One state change. Its sequence number is its position in the history, from one. */
  datatype Row = Row(resource: Resource, revision: nat, status: nat, time: int)

  // ---------------------------------------------------------------- the history

  /** The last revision of `r` among the first `n` events; 0 before its first. */
  ghost function LastRevision(h: seq<Row>, n: nat, r: Resource): nat
    requires n <= |h|
  {
    if n == 0 then 0 else if h[n - 1].resource == r then h[n - 1].revision else LastRevision(h, n - 1, r)
  }

  ghost function LastStatus(h: seq<Row>, n: nat, r: Resource): nat
    requires n <= |h|
  {
    if n == 0 then 0 else if h[n - 1].resource == r then h[n - 1].status else LastStatus(h, n - 1, r)
  }

  /** Every event carries the next revision of its resource. */
  ghost predicate Sequenced(h: seq<Row>) {
    forall i {:trigger Numbered(h, i)} | 0 <= i < |h| :: Numbered(h, i)
  }

  ghost predicate Numbered(h: seq<Row>, i: nat)
    requires i < |h|
  {
    h[i].revision == LastRevision(h, i, h[i].resource) + 1
  }

  lemma {:induction false} RevisionsGrow(h: seq<Row>, m: nat, n: nat, r: Resource)
    requires Sequenced(h) && m <= n <= |h|
    ensures LastRevision(h, m, r) <= LastRevision(h, n, r)
  {
    if m < n {
      RevisionsGrow(h, m, n - 1, r);
      assert Numbered(h, n - 1);
    }
  }

  lemma {:induction false} HistoryPrefix(h: seq<Row>, more: seq<Row>, n: nat, r: Resource)
    requires n <= |h|
    ensures LastRevision(h + more, n, r) == LastRevision(h, n, r)
    ensures LastStatus(h + more, n, r) == LastStatus(h, n, r)
  {
    if n > 0 { HistoryPrefix(h, more, n - 1, r); }
  }

  /** A revision at event `i` that is the last one among `n` events has their last status. */
  lemma {:induction false} LastOneHasStatus(h: seq<Row>, i: nat, n: nat)
    requires Sequenced(h) && i < n <= |h| && h[i].revision == LastRevision(h, n, h[i].resource)
    ensures LastStatus(h, n, h[i].resource) == h[i].status
  {
    if i < n - 1 {
      var r := h[i].resource;
      RevisionsGrow(h, i + 1, n - 1, r);
      assert Numbered(h, n - 1);
      assert h[n - 1].resource != r;
      LastOneHasStatus(h, i, n - 1);
    }
  }

  // ---------------------------------------------------------------- the store

  /** The whole history, the cursor floor, and the sequence numbers whose rows are still kept. */
  datatype Server = Server(history: seq<Row>, floor: nat, kept: set<nat>)

  /** Everything above the floor is still in the log. */
  ghost predicate Retains(s: Server) {
    && Sequenced(s.history) && s.floor <= |s.history|
    && (forall q {:trigger q in s.kept} | s.floor < q <= |s.history| :: q in s.kept)
    && (forall q | q in s.kept :: 1 <= q <= |s.history|)
  }

  ghost function Appended(s: Server, row: Row): Server {
    s.(history := s.history + [row], kept := s.kept + {|s.history| + 1})
  }

  /** Rows in (floor, limit] go, except those of protected operations; the floor rises to limit. */
  ghost function Compacted(s: Server, limit: nat, protected: set<nat>): Server
    requires Retains(s) && limit <= |s.history|
  {
    if limit <= s.floor then s
    else s.(floor := limit, kept := set q | q in s.kept && !Dropped(s, limit, protected, q))
  }

  ghost predicate Dropped(s: Server, limit: nat, protected: set<nat>, q: nat) {
    s.floor < q <= limit && 1 <= q <= |s.history|
    && !(s.history[q - 1].resource.Operation? && s.history[q - 1].resource.id in protected)
  }

  lemma AppendRetains(s: Server, row: Row)
    requires Retains(s) && row.revision == LastRevision(s.history, |s.history|, row.resource) + 1
    ensures Retains(Appended(s, row))
  {
    var h := s.history + [row];
    forall i | 0 <= i < |h| ensures Numbered(h, i) {
      HistoryPrefix(s.history, [row], i, h[i].resource);
      if i < |s.history| { assert Numbered(s.history, i); }
    }
  }

  /** Compaction keeps everything above the new floor, never lowers the floor, and never drops a
      row of a protected operation. */
  lemma CompactionRetains(s: Server, limit: nat, protected: set<nat>)
    requires Retains(s) && limit <= |s.history|
    ensures var t := Compacted(s, limit, protected);
            && Retains(t) && s.floor <= t.floor && t.history == s.history
            && (forall q | q in s.kept && s.history[q - 1].resource.Operation? && s.history[q - 1].resource.id in protected :: q in t.kept)
  {
  }

  const RETENTION_SECONDS: int := 7 * 24 * 3600

  datatype Operation = Op(revision: nat, status: nat, final: bool, recoveryRequired: bool)

  /** What may be compacted: a final operation that needs no recovery. */
  predicate Protected(o: Operation) {
    o.recoveryRequired || !o.final
  }

  datatype Entry = Entry(number: nat, row: Row)

  datatype EventPage = Page(events: seq<Entry>, next: nat, hasMore: bool) | CursorExpired | CursorInvalid

  datatype Report = Report(deleted: nat, keptProtected: nat, floorCursor: nat) | RequestInvalid

  predicate Matches(row: Row, filter: Option<Resource>) {
    filter.None? || row.resource == filter.value
  }

  /** The kept row `q` is the event it was. */
  ghost predicate RowAgrees(outbox: map<nat, Row>, h: seq<Row>, q: nat) {
    q in outbox ==> 1 <= q <= |h| && outbox[q] == h[q - 1]
  }

  ghost predicate RowsAgree(outbox: map<nat, Row>, h: seq<Row>) {
    forall q: nat {:trigger RowAgrees(outbox, h, q)} {:trigger outbox[q]} :: RowAgrees(outbox, h, q)
  }

  /** An operation exists once it has an event, with the revision and status of its last one. */
  ghost predicate OperationAgrees(operations: map<nat, Operation>, h: seq<Row>, id: nat) {
    && (id in operations <==> LastRevision(h, |h|, Operation(id)) > 0)
    && (id in operations ==>
          operations[id].revision == LastRevision(h, |h|, Operation(id)) && operations[id].status == LastStatus(h, |h|, Operation(id)))
  }

  ghost predicate OperationsAgree(operations: map<nat, Operation>, h: seq<Row>) {
    forall id: nat {:trigger OperationAgrees(operations, h, id)} :: OperationAgrees(operations, h, id)
  }

  lemma OperationsAppend(operations: map<nat, Operation>, h: seq<Row>, row: Row, o: Operation)
    requires OperationsAgree(operations, h) && row.revision > 0
    requires row.resource.Operation? ==> o.revision == row.revision && o.status == row.status
    ensures OperationsAgree(if row.resource.Operation? then operations[row.resource.id := o] else operations, h + [row])
  {
    var after := if row.resource.Operation? then operations[row.resource.id := o] else operations;
    forall id: nat ensures OperationAgrees(after, h + [row], id) {
      assert OperationAgrees(operations, h, id);
      HistoryPrefix(h, [row], |h|, Operation(id));
    }
  }

  function ProtectedIds(operations: map<nat, Operation>): set<nat> {
    set id | id in operations && Protected(operations[id])
  }

  function Between(numbers: set<nat>, floor: nat, limit: int): set<nat> {
    set q | q in numbers && floor < q <= limit
  }

  lemma CompactOutbox(s: Server, outbox: map<nat, Row>, limit: nat, protected: set<nat>, dropped: set<nat>)
    requires Retains(s) && s.floor < limit <= |s.history| && RowsAgree(outbox, s.history) && s.kept == outbox.Keys
    requires dropped == set q | q in outbox.Keys && s.floor < q <= limit && !(outbox[q].resource.Operation? && outbox[q].resource.id in protected)
    ensures Server(s.history, limit, (outbox - dropped).Keys) == Compacted(s, limit, protected)
    ensures Retains(Server(s.history, limit, (outbox - dropped).Keys)) && RowsAgree(outbox - dropped, s.history)
  {
    CompactionRetains(s, limit, protected);
    assert forall q | q in outbox :: q in dropped <==> Dropped(s, limit, protected, q);
    assert (outbox - dropped).Keys == Compacted(s, limit, protected).kept;
    forall q: nat ensures RowAgrees(outbox - dropped, s.history, q) { assert RowAgrees(outbox, s.history, q); }
  }

  /** No row up to `n` is among the newest `keepLatest`, beyond `maxDelete` above the floor, or
      recorded at or after the cutoff or behind such a row. */
  ghost predicate MayGoUpTo(high: nat, floor: nat, outbox: map<nat, Row>, n: int, cutoff: int, keepLatest: int, maxDelete: int) {
    && n <= high - keepLatest && n <= floor + maxDelete
    && forall q: nat {:trigger outbox[q]} | q in outbox && q <= n :: outbox[q].time < cutoff
  }

  /** The greatest number that compaction may go up to. */
  ghost predicate IsLimit(high: nat, floor: nat, outbox: map<nat, Row>, n: int, cutoff: int, keepLatest: int, maxDelete: int) {
    && MayGoUpTo(high, floor, outbox, n, cutoff, keepLatest, maxDelete)
    && forall m: int {:trigger MayGoUpTo(high, floor, outbox, m, cutoff, keepLatest, maxDelete)} |
         MayGoUpTo(high, floor, outbox, m, cutoff, keepLatest, maxDelete) :: m <= n
  }

  /** The queue, or an operation in a final state that needs no recovery. */
  ghost predicate IsDone(operations: map<nat, Operation>, r: Resource) {
    r.Operation? && r.id in operations ==> operations[r.id].final && !operations[r.id].recoveryRequired
  }

  class EventStore {
    var high: nat
    var floor: nat
    var outbox: map<nat, Row>
    var operations: map<nat, Operation>
    var queueRevision: nat
    ghost var history: seq<Row>

    ghost function Abstract(): Server
      reads this
    {
      Server(history, floor, outbox.Keys)
    }

    ghost predicate Valid()
      reads this
    {
      && high == |history| && Retains(Abstract()) && RowsAgree(outbox, history)
      && queueRevision == LastRevision(history, high, Queue) && OperationsAgree(operations, history)
    }

    constructor ()
      ensures Valid() && Abstract() == Server([], 0, {})
    {
      high, floor, outbox, operations, queueRevision, history := 0, 0, map[], map[], 0, [];
    }

    /** A new revision of an operation (its first one creates it) and its event. */
    method Record(id: nat, status: nat, final: bool, recoveryRequired: bool, now: int)
      requires Valid()
      modifies this
      ensures Valid()
      ensures Abstract() == Appended(old(Abstract()), Row(Operation(id), LastRevision(old(history), |old(history)|, Operation(id)) + 1, status, now))
      ensures operations == old(operations)[id :=
                Op(LastRevision(old(history), |old(history)|, Operation(id)) + 1, status, final, recoveryRequired)]
    {
      var revision := (if id in operations then operations[id].revision else 0) + 1;
      var row := Row(Operation(id), revision, status, now);
      assert OperationAgrees(operations, history, id);
      AppendRetains(Abstract(), row);
      OperationsAppend(operations, history, row, Op(revision, status, final, recoveryRequired));
      operations := operations[id := Op(revision, status, final, recoveryRequired)];
      HistoryPrefix(history, [row], high, Queue);
      high := high + 1;
      outbox := outbox[high := row];
      history := history + [row];
    }

    method QueueChanged(dispatch: nat, now: int)
      requires Valid()
      modifies this
      ensures Valid()
      ensures Abstract() == Appended(old(Abstract()), Row(Queue, LastRevision(old(history), |old(history)|, Queue) + 1, dispatch, now))
      ensures operations == old(operations)
    {
      queueRevision := queueRevision + 1;
      var row := Row(Queue, queueRevision, dispatch, now);
      AppendRetains(Abstract(), row);
      OperationsAppend(operations, history, row, Op(0, 0, false, false));
      high := high + 1;
      outbox := outbox[high := row];
      history := history + [row];
    }

    /** The smallest number of a row recorded at or after `cutoff`. */
    method FirstYoung(cutoff: int) returns (first: Option<nat>)
      requires Valid()
      ensures first.None? <==> forall q {:trigger outbox[q]} | q in outbox :: outbox[q].time < cutoff
      ensures first.Some? ==> first.value in outbox && outbox[first.value].time >= cutoff
      ensures first.Some? ==> forall q {:trigger outbox[q]} | q in outbox && q < first.value :: outbox[q].time < cutoff
    {
      first := None;
      for q := 1 to high + 1
        invariant first.None? ==> forall p {:trigger outbox[p]} | p in outbox && p < q :: outbox[p].time < cutoff
        invariant first.Some? ==> first.value in outbox && outbox[first.value].time >= cutoff
        invariant first.Some? ==> forall p {:trigger outbox[p]} | p in outbox && p < first.value :: outbox[p].time < cutoff
      {
        if first.None? && q in outbox && outbox[q].time >= cutoff { first := Some(q); }
      }
    }

    /** How far compaction may go: outside the newest rows, a bounded number, and only rows
        recorded before `cutoff`. */
    method CompactionLimit(cutoff: int, keepLatest: int, maxDelete: int) returns (limit: int)
      requires Valid() && keepLatest >= 0
      ensures IsLimit(high, floor, outbox, limit, cutoff, keepLatest, maxDelete)
    {
      var young := FirstYoung(cutoff);
      limit := if high - keepLatest <= floor + maxDelete then high - keepLatest else floor + maxDelete;
      var oldest := if young.Some? then young.value - 1 else high;
      if oldest < limit { limit := oldest; }
      forall m: int | limit < m ensures !MayGoUpTo(high, floor, outbox, m, cutoff, keepLatest, maxDelete) {
        if young.Some? && young.value <= m { assert outbox[young.value].time >= cutoff; }
      }
    }

    /** Deletes the bounded old prefix of the log, up to the greatest limit, and raises the floor
        to it in one step: all rows of the queue and of operations that are done go, no others. */
    method Compact(now: int, retentionSeconds: int, keepLatest: int, maxDelete: int)
      returns (r: Report, ghost limit: int, ghost gone: set<nat>)
      requires Valid()
      modifies `outbox, `floor
      ensures Valid()
      ensures r.RequestInvalid? <==> retentionSeconds < 7 * 86400 || keepLatest < 0 || maxDelete < 1
      ensures r.RequestInvalid? ==> Abstract() == old(Abstract()) && outbox == old(outbox)
      ensures r.Report? ==> IsLimit(high, old(floor), old(outbox), limit, now - retentionSeconds, keepLatest, maxDelete)
      ensures r.Report? ==> floor == (if limit > old(floor) then limit else old(floor)) && outbox == old(outbox) - gone
      ensures r.Report? ==> forall q :: q in gone <==> q in old(outbox) && old(floor) < q <= limit && IsDone(operations, old(outbox)[q].resource)
      ensures r.Report? ==> r == Report(|gone|, |Between(old(outbox).Keys, old(floor), limit) - gone|, floor)
      ensures r.Report? ==> forall q | q in outbox && q > old(floor) && IsDone(operations, outbox[q].resource) ::
                || (exists young :: young in old(outbox) && young <= q && old(outbox)[young].time >= now - retentionSeconds)
                || q > high - keepLatest || q > old(floor) + maxDelete
      ensures r.Report? && limit > old(floor) ==>
                0 <= limit <= high && Abstract() == Compacted(old(Abstract()), limit, ProtectedIds(operations))
    {
      limit, gone := 0, {};
      if retentionSeconds < RETENTION_SECONDS || keepLatest < 0 || maxDelete < 1 { return RequestInvalid, 0, {}; }
      var bound := CompactionLimit(now - retentionSeconds, keepLatest, maxDelete);
      limit := bound;
      forall q | q in outbox && q > limit
        ensures || (exists young :: young in outbox && young <= q && outbox[young].time >= now - retentionSeconds)
                || q > high - keepLatest || q > floor + maxDelete
      {
        assert !MayGoUpTo(high, floor, outbox, q, now - retentionSeconds, keepLatest, maxDelete);
      }
      if bound <= floor {
        assert Between(outbox.Keys, floor, limit) == {};
        return Report(0, 0, floor), bound, {};
      }
      r, gone := DeletePrefix(bound);
    }

    method DeletePrefix(limit: nat) returns (r: Report, ghost gone: set<nat>)
      requires Valid() && floor < limit <= high
      modifies `outbox, `floor
      ensures Valid() && floor == limit
      ensures Abstract() == Compacted(old(Abstract()), limit, ProtectedIds(operations))
      ensures outbox == old(outbox) - gone
      ensures forall q :: q in gone <==> q in old(outbox) && old(floor) < q <= limit && IsDone(operations, old(outbox)[q].resource)
      ensures r == Report(|gone|, |Between(old(outbox).Keys, old(floor), limit) - gone|, limit)
    {
      var protected := ProtectedIds(operations);
      var range := Between(outbox.Keys, floor, limit);
      var dropped := set q | q in range && !(outbox[q].resource.Operation? && outbox[q].resource.id in protected);
      CompactOutbox(Abstract(), outbox, limit, protected, dropped);
      gone := dropped;
      r := Report(|dropped|, |range - dropped|, limit);
      outbox := outbox - dropped;
      floor := limit;
    }

    /** A page of the rows after a cursor, in order; the next cursor covers all that was scanned. */
    method ReadEvents(after: Option<nat>, filter: Option<Resource>, limit: nat) returns (page: EventPage)
      requires Valid() && limit >= 1
      ensures page.CursorExpired? <==> after.Some? && after.value < floor
      ensures page.CursorInvalid? <==> after.Some? && after.value > high
      ensures page.Page? ==>
                var start := if after.Some? then after.value else floor;
                && start <= page.next <= high && |page.events| <= limit
                && (page.hasMore ==> page.next > start)
                && (!page.hasMore ==> page.next == high)
                && (forall i, j | 0 <= i < j < |page.events| :: page.events[i].number < page.events[j].number)
                && (forall e :: e in page.events <==>
                      && start < e.number <= page.next && e.row == history[e.number - 1]
                      && (filter.None? || e.row.resource == filter.value))
    {
      if after.Some? && after.value < floor { return CursorExpired; }
      if after.Some? && after.value > high { return CursorInvalid; }
      var start := if after.Some? then after.value else floor;
      var events: seq<Entry> := [];
      for q := start + 1 to high + 1
        invariant |events| <= limit
        invariant forall i, j | 0 <= i < j < |events| :: events[i].number < events[j].number
        invariant forall e :: e in events <==> start < e.number < q && Matches(e.row, filter) && e.row == history[e.number - 1]
      {
        assert q in Abstract().kept;
        var row := outbox[q];
        if Matches(row, filter) {
          if |events| == limit { return Page(events, events[limit - 1].number, true); }
          assert forall e | e in events :: e.number < q;
          events := events + [Entry(q, row)];
        }
      }
      page := Page(events, high, false);
    }
  }

  // ---------------------------------------------------------------- the client

  /** The reducer's fields. */
  datatype View = View(epoch: Option<nat>, cursor: nat, revisions: map<nat, nat>, statuses: map<nat, nat>, queueRevision: nat, seen: set<nat>)

  datatype Outcome = Applied | Duplicate | Stale | Resync

  function Revision(v: View, id: nat): nat {
    if id in v.revisions then v.revisions[id] else 0
  }

  function ApplyResource(v: View, id: nat, revision: nat, status: nat): View {
    if revision <= Revision(v, id) then v
    else v.(revisions := v.revisions[id := revision], statuses := v.statuses[id := status])
  }

  /** An event that is neither of another epoch nor a duplicate. */
  function ApplyRow(v: View, number: nat, row: Row): View {
    var w := v.(seen := v.seen + {number}, cursor := number);
    match row.resource
    case Queue => if row.revision <= v.queueRevision then w else w.(queueRevision := row.revision)
    case Operation(id) => ApplyResource(w, id, row.revision, row.status)
  }

  function ApplyEvent(v: View, epoch: nat, number: nat, row: Row): View {
    if v.epoch != Some(epoch) || number in v.seen || number <= v.cursor then v else ApplyRow(v, number, row)
  }

  datatype SyncResource = SyncResource(id: nat, revision: nat, status: nat)

  /** One page of a point-in-time snapshot; every page repeats the cursor and the queue. */
  datatype SyncPage = SyncPage(epoch: nat, cursor: nat, resources: seq<SyncResource>, queueRevision: nat)

  function ApplyResources(v: View, resources: seq<SyncResource>, n: nat): View
    requires n <= |resources|
  {
    if n == 0 then v
    else
      var r := resources[n - 1];
      ApplyResource(ApplyResources(v, resources, n - 1), r.id, r.revision, r.status)
  }

  function Larger(a: nat, b: nat): nat {
    if a >= b then a else b
  }

  function ApplySync(v: View, page: SyncPage): View {
    var w := if v.epoch == Some(page.epoch) then v else v.(epoch := Some(page.epoch), cursor := 0, seen := {}, revisions := map[], statuses := map[]);
    var x := ApplyResources(w.(cursor := Larger(w.cursor, page.cursor)), page.resources, |page.resources|);
    x.(queueRevision := Larger(x.queueRevision, page.queueRevision))
  }

  function ApplyPages(v: View, pages: seq<SyncPage>, n: nat): View
    requires n <= |pages|
  {
    if n == 0 then v else ApplySync(ApplyPages(v, pages, n - 1), pages[n - 1])
  }

  class EventReducer {
    var epoch: Option<nat>
    var cursor: nat
    var revisions: map<nat, nat>
    var statuses: map<nat, nat>
    var queueRevision: nat
    var seen: set<nat>

    ghost function Current(): View
      reads this
    {
      View(epoch, cursor, revisions, statuses, queueRevision, seen)
    }

    constructor ()
      ensures Current() == View(None, 0, map[], map[], 0, {})
    {
      epoch, cursor, revisions, statuses, queueRevision, seen := None, 0, map[], map[], 0, {};
    }

    method ApplySyncPage(page: SyncPage)
      modifies this
      ensures Current() == ApplySync(old(Current()), page)
    {
      if epoch != Some(page.epoch) {
        epoch, cursor, seen := Some(page.epoch), 0, {};
        revisions, statuses := map[], map[];
      }
      cursor := if cursor >= page.cursor then cursor else page.cursor;
      ghost var start := Current();
      for i := 0 to |page.resources|
        invariant Current() == ApplyResources(start, page.resources, i)
      {
        var _ := ApplyResourceGet(page.resources[i].id, page.resources[i].revision, page.resources[i].status);
      }
      queueRevision := if queueRevision >= page.queueRevision then queueRevision else page.queueRevision;
    }

    method ApplyResourceGet(id: nat, revision: nat, status: nat) returns (outcome: Outcome)
      modifies this
      ensures Current() == ApplyResource(old(Current()), id, revision, status)
      ensures outcome == if revision <= Revision(old(Current()), id) then Stale else Applied
    {
      if revision <= (if id in revisions then revisions[id] else 0) { return Stale; }
      revisions := revisions[id := revision];
      statuses := statuses[id := status];
      outcome := Applied;
    }

    method ApplyEventRow(eventEpoch: nat, number: nat, row: Row) returns (outcome: Outcome)
      modifies this
      ensures Current() == ApplyEvent(old(Current()), eventEpoch, number, row)
      ensures outcome.Resync? <==> old(epoch) != Some(eventEpoch)
      ensures outcome.Duplicate? <==> old(epoch) == Some(eventEpoch) && (number in old(seen) || number <= old(cursor))
      ensures !outcome.Resync? && !outcome.Duplicate? ==>
                var known := match row.resource case Queue => old(queueRevision) case Operation(id) => Revision(old(Current()), id);
                outcome == if row.revision <= known then Stale else Applied
    {
      if epoch != Some(eventEpoch) { return Resync; }
      if number in seen || number <= cursor { return Duplicate; }
      seen := seen + {number};
      cursor := number;
      match row.resource
      case Queue =>
        if row.revision <= queueRevision { return Stale; }
        queueRevision := row.revision;
        outcome := Applied;
      case Operation(id) =>
        outcome := ApplyResourceGet(id, row.revision, row.status);
    }
  }

  // ---------------------------------------------------------------- what the client knows

  /** The client's entry for an operation is one of its real states. */
  ghost predicate Real(v: View, h: seq<Row>, id: nat) {
    id in v.revisions ==>
      id in v.statuses && exists i {:trigger h[i]} :: 0 <= i < |h| && h[i] == Row(Operation(id), v.revisions[id], v.statuses[id], h[i].time)
  }

  /** For every resource the client knows a real state that is at least as new as its last one
      at or below the cursor. */
  ghost predicate KnowsOperation(v: View, h: seq<Row>, id: nat) {
    Real(v, h, id) && (v.cursor <= |h| ==> LastRevision(h, v.cursor, Operation(id)) <= Revision(v, id))
  }

  ghost predicate Knows(v: View, h: seq<Row>) {
    && v.cursor <= |h| && (forall q | q in v.seen :: q <= v.cursor)
    && LastRevision(h, v.cursor, Queue) <= v.queueRevision <= LastRevision(h, |h|, Queue)
    && forall id {:trigger KnowsOperation(v, h, id)} :: KnowsOperation(v, h, id)
  }

  /** A caught-up client has every operation's and the queue's current state. */
  lemma CaughtUpEqualsServer(v: View, h: seq<Row>, id: nat)
    requires Sequenced(h) && Knows(v, h) && v.cursor == |h|
    ensures v.queueRevision == LastRevision(h, |h|, Queue)
    ensures Revision(v, id) == LastRevision(h, |h|, Operation(id))
    ensures id in v.revisions ==> id in v.statuses && v.statuses[id] == LastStatus(h, |h|, Operation(id))
  {
    assert KnowsOperation(v, h, id);
    if id in v.revisions {
      var i :| 0 <= i < |h| && h[i] == Row(Operation(id), v.revisions[id], v.statuses[id], h[i].time);
      RevisionsGrow(h, i + 1, |h|, Operation(id));
      LastOneHasStatus(h, i, |h|);
    }
  }

  // ---------------------------------------------------------------- what keeps that knowledge

  lemma {:induction false} LastIsReal(h: seq<Row>, n: nat, r: Resource) returns (i: nat)
    requires n <= |h| && LastRevision(h, n, r) > 0
    ensures i < n && h[i] == Row(r, LastRevision(h, n, r), LastStatus(h, n, r), h[i].time)
  {
    if h[n - 1].resource == r { i := n - 1; } else { i := LastIsReal(h, n - 1, r); }
  }

  /** The state of an operation at some point of the history, as a GET or a sync row gives it. */
  ghost predicate StateAt(h: seq<Row>, n: nat, id: nat, revision: nat, status: nat)
    requires n <= |h|
  {
    revision > 0 && revision == LastRevision(h, n, Operation(id)) && status == LastStatus(h, n, Operation(id))
  }

  lemma AppendKeepsKnowledge(v: View, h: seq<Row>, row: Row)
    requires Sequenced(h) && Sequenced(h + [row]) && Knows(v, h)
    ensures Knows(v, h + [row])
  {
    HistoryPrefix(h, [row], v.cursor, Queue);
    HistoryPrefix(h, [row], |h|, Queue);
    RevisionsGrow(h + [row], |h|, |h| + 1, Queue);
    forall id ensures KnowsOperation(v, h + [row], id) {
      assert KnowsOperation(v, h, id);
      HistoryPrefix(h, [row], v.cursor, Operation(id));
      if id in v.revisions {
        var i :| 0 <= i < |h| && h[i] == Row(Operation(id), v.revisions[id], v.statuses[id], h[i].time);
        assert (h + [row])[i] == h[i];
      }
    }
  }

  lemma GetKeepsKnowledge(v: View, h: seq<Row>, n: nat, id: nat, revision: nat, status: nat)
    requires Sequenced(h) && Knows(v, h) && n <= |h| && StateAt(h, n, id, revision, status)
    ensures Knows(ApplyResource(v, id, revision, status), h)
  {
    var i := LastIsReal(h, n, Operation(id));
    var w := ApplyResource(v, id, revision, status);
    forall j ensures KnowsOperation(w, h, j) { assert KnowsOperation(v, h, j); }
  }

  lemma {:induction false} ResourcesLearned(v: View, resources: seq<SyncResource>, n: nat, h: seq<Row>, at: nat, id: nat)
    requires Sequenced(h) && at <= |h| && n <= |resources| && Real(v, h, id)
    requires forall r | r in resources :: StateAt(h, at, r.id, r.revision, r.status)
    ensures var w := ApplyResources(v, resources, n);
            && Real(w, h, id) && Revision(v, id) <= Revision(w, id)
            && (forall i | 0 <= i < n && resources[i].id == id :: resources[i].revision <= Revision(w, id))
            && w == v.(revisions := w.revisions, statuses := w.statuses)
  {
    if n > 0 {
      ResourcesLearned(v, resources, n - 1, h, at, id);
      var r := resources[n - 1];
      assert r in resources;
      var i := LastIsReal(h, at, Operation(r.id));
    }
  }

  /** The pages of the snapshot taken when the history had `at` events: every page shows the same
      cursor and queue, and together they show every operation once it exists. */
  ghost predicate Snapshot(pages: seq<SyncPage>, epoch: nat, h: seq<Row>, at: nat) {
    && pages != [] && at <= |h|
    && (forall p | p in pages :: p.epoch == epoch && p.cursor == at && p.queueRevision == LastRevision(h, at, Queue)
                                 && forall r | r in p.resources :: StateAt(h, at, r.id, r.revision, r.status))
    && (forall id {:trigger Listed(pages, id)} | LastRevision(h, at, Operation(id)) > 0 :: Listed(pages, id))
  }

  ghost predicate Listed(pages: seq<SyncPage>, id: nat) {
    exists k, i {:trigger pages[k].resources[i]} :: 0 <= k < |pages| && 0 <= i < |pages[k].resources| && pages[k].resources[i].id == id
  }

  function Unsynced(): View {
    View(None, 0, map[], map[], 0, {})
  }

  /** The client knows this epoch only, or has not synced yet and has at most read resources. */
  ghost predicate OneEpoch(v: View, epoch: nat) {
    v.epoch == Some(epoch) || v == Unsynced().(revisions := v.revisions, statuses := v.statuses)
  }

  /** A sync of another epoch starts over, whatever was known; only the queue's revision stays. */
  lemma OtherEpochStartsOver(v: View, page: SyncPage)
    requires v.epoch != Some(page.epoch)
    ensures ApplySync(v, page) == ApplySync(Unsynced().(queueRevision := v.queueRevision), page)
    ensures ApplySync(v, page).epoch == Some(page.epoch) && ApplySync(v, page).cursor == page.cursor
  {
    AppliedResources(Unsynced().(epoch := Some(page.epoch), cursor := page.cursor, queueRevision := v.queueRevision),
                     page.resources, |page.resources|);
  }

  lemma {:induction false} PagesLearned(v: View, pages: seq<SyncPage>, n: nat, epoch: nat, h: seq<Row>, at: nat, id: nat)
    requires Sequenced(h) && Knows(v, h) && OneEpoch(v, epoch) && Snapshot(pages, epoch, h, at) && n <= |pages|
    ensures var w := ApplyPages(v, pages, n);
            && (n == 0 ==> w == v)
            && (n > 0 ==> w.epoch == Some(epoch) && w.cursor == Larger(v.cursor, at)
                          && w.queueRevision == Larger(v.queueRevision, LastRevision(h, at, Queue)))
            && w.seen == v.seen
            && Real(w, h, id) && (v.epoch.Some? ==> Revision(v, id) <= Revision(w, id))
            && (forall k, i {:trigger pages[k].resources[i]} | 0 <= k < n && 0 <= i < |pages[k].resources| && pages[k].resources[i].id == id ::
                  pages[k].resources[i].revision <= Revision(w, id))
  {
    if n == 0 {
      assert KnowsOperation(v, h, id);
    } else {
      PagesLearned(v, pages, n - 1, epoch, h, at, id);
      var u, page := ApplyPages(v, pages, n - 1), pages[n - 1];
      assert page in pages;
      var w := if u.epoch == Some(epoch) then u else u.(epoch := Some(epoch), cursor := 0, seen := {}, revisions := map[], statuses := map[]);
      ResourcesLearned(w.(cursor := Larger(w.cursor, at)), page.resources, |page.resources|, h, at, id);
    }
  }

  /** A whole snapshot, however old it is by the time its last page is applied. */
  lemma SyncKeepsKnowledge(v: View, pages: seq<SyncPage>, epoch: nat, h: seq<Row>, at: nat)
    requires Sequenced(h) && Knows(v, h) && OneEpoch(v, epoch) && Snapshot(pages, epoch, h, at)
    ensures var w := ApplyPages(v, pages, |pages|);
            Knows(w, h) && w.epoch == Some(epoch) && w.cursor == Larger(v.cursor, at)
  {
    var w := ApplyPages(v, pages, |pages|);
    PagesLearned(v, pages, |pages|, epoch, h, at, 0);
    RevisionsGrow(h, at, |h|, Queue);
    forall id ensures KnowsOperation(w, h, id) {
      PagesLearned(v, pages, |pages|, epoch, h, at, id);
      assert KnowsOperation(v, h, id);
      if v.cursor < at && LastRevision(h, at, Operation(id)) > 0 {
        assert Listed(pages, id);
        var k, i :| 0 <= k < |pages| && 0 <= i < |pages[k].resources| && pages[k].resources[i].id == id;
        assert pages[k] in pages && pages[k].resources[i] in pages[k].resources;
      }
    }
  }

  /** A revision that only the rows of a snapshot have given. */
  ghost predicate AsListed(v: View, h: seq<Row>, at: nat, id: nat)
    requires at <= |h|
  {
    id in v.revisions ==> v.revisions[id] == LastRevision(h, at, Operation(id))
  }

  lemma {:induction false} RowsAsListed(v: View, resources: seq<SyncResource>, n: nat, h: seq<Row>, at: nat, id: nat)
    requires at <= |h| && n <= |resources| && AsListed(v, h, at, id)
    requires forall r | r in resources :: StateAt(h, at, r.id, r.revision, r.status)
    ensures AsListed(ApplyResources(v, resources, n), h, at, id)
  {
    if n > 0 {
      RowsAsListed(v, resources, n - 1, h, at, id);
      assert resources[n - 1] in resources;
    }
  }

  lemma {:induction false} PagesAsListed(v: View, pages: seq<SyncPage>, n: nat, epoch: nat, h: seq<Row>, at: nat, id: nat)
    requires v.epoch == None && Snapshot(pages, epoch, h, at) && 1 <= n <= |pages|
    ensures ApplyPages(v, pages, n).epoch == Some(epoch) && AsListed(ApplyPages(v, pages, n), h, at, id)
    ensures ApplyPages(v, pages, n).cursor >= at
  {
    if n > 1 { PagesAsListed(v, pages, n - 1, epoch, h, at, id); }
    var u, page := ApplyPages(v, pages, n - 1), pages[n - 1];
    assert page in pages;
    var w := if u.epoch == Some(epoch) then u else u.(epoch := Some(epoch), cursor := 0, seen := {}, revisions := map[], statuses := map[]);
    RowsAsListed(w.(cursor := Larger(w.cursor, at)), page.resources, |page.resources|, h, at, id);
    AppliedResources(w.(cursor := Larger(w.cursor, at)), page.resources, |page.resources|);
  }

  lemma {:induction false} AppliedResources(v: View, resources: seq<SyncResource>, n: nat)
    requires n <= |resources|
    ensures var w := ApplyResources(v, resources, n); w == v.(revisions := w.revisions, statuses := w.statuses)
  {
    if n > 0 { AppliedResources(v, resources, n - 1); }
  }

  /** The first sync forgets what was read before it: a resource is known afterwards at exactly
      the revision of the snapshot, even if a GET had shown a newer one. */
  lemma FirstSyncForgets(v: View, pages: seq<SyncPage>, epoch: nat, h: seq<Row>, at: nat, id: nat)
    requires Sequenced(h) && Knows(v, h) && OneEpoch(v, epoch) && v.epoch == None && Snapshot(pages, epoch, h, at)
    ensures Revision(ApplyPages(v, pages, |pages|), id) == LastRevision(h, at, Operation(id))
  {
    var w := ApplyPages(v, pages, |pages|);
    SyncKeepsKnowledge(v, pages, epoch, h, at);
    PagesAsListed(v, pages, |pages|, epoch, h, at, id);
    assert KnowsOperation(w, h, id);
  }

  /** A later sync never rolls a resource back. */
  lemma LaterSyncKeepsRevisions(v: View, pages: seq<SyncPage>, epoch: nat, h: seq<Row>, at: nat, id: nat)
    requires Sequenced(h) && Knows(v, h) && v.epoch == Some(epoch) && Snapshot(pages, epoch, h, at)
    ensures Revision(v, id) <= Revision(ApplyPages(v, pages, |pages|), id)
    ensures LastRevision(h, at, Operation(id)) <= Revision(ApplyPages(v, pages, |pages|), id)
  {
    PagesLearned(v, pages, |pages|, epoch, h, at, id);
    if LastRevision(h, at, Operation(id)) > 0 {
      assert Listed(pages, id);
      var k, i :| 0 <= k < |pages| && 0 <= i < |pages[k].resources| && pages[k].resources[i].id == id;
      assert pages[k] in pages && pages[k].resources[i] in pages[k].resources;
    }
  }

  /** The event is no news: the client knows its resource at that revision, or the event applied
      in its place is a later one of the same resource. */
  ghost predicate Skippable(v: View, skipped: Row, applied: Row) {
    skipped.resource == applied.resource
    || skipped.revision <= match skipped.resource case Queue => v.queueRevision case Operation(id) => Revision(v, id)
  }

  ghost predicate AllSkippable(v: View, h: seq<Row>, from: nat, to: nat, applied: Row)
    requires from <= to <= |h|
  {
    forall i {:trigger h[i]} | from <= i < to :: Skippable(v, h[i], applied)
  }

  lemma {:induction false} SkippedRevision(v: View, h: seq<Row>, n: nat, q: nat, r: Resource)
    requires Sequenced(h) && v.cursor <= n < q <= |h| && Knows(v, h) && AllSkippable(v, h, v.cursor, n, h[q - 1])
    requires r != h[q - 1].resource
    ensures LastRevision(h, n, r) <= match r case Queue => v.queueRevision case Operation(id) => Revision(v, id)
  {
    if n == v.cursor {
      if r.Operation? { assert KnowsOperation(v, h, r.id); }
    } else {
      SkippedRevision(v, h, n - 1, q, r);
      assert Skippable(v, h[n - 1], h[q - 1]);
    }
  }

  /** Applying event `q` after a gap keeps the client's knowledge exactly when every event in the
      gap is no news to it; the reducer itself does not check. */
  lemma GapKeepsKnowledgeIff(v: View, h: seq<Row>, q: nat)
    requires Sequenced(h) && Knows(v, h) && v.cursor < q <= |h|
    ensures Knows(ApplyRow(v, q, h[q - 1]), h) <==> AllSkippable(v, h, v.cursor, q - 1, h[q - 1])
  {
    var w, row := ApplyRow(v, q, h[q - 1]), h[q - 1];
    assert Numbered(h, q - 1);
    RevisionsGrow(h, q, |h|, row.resource);
    if AllSkippable(v, h, v.cursor, q - 1, row) {
      if row.resource != Queue { SkippedRevision(v, h, q - 1, q, Queue); }
      forall id ensures KnowsOperation(w, h, id) {
        assert KnowsOperation(v, h, id);
        if row.resource != Operation(id) { SkippedRevision(v, h, q - 1, q, Operation(id)); }
      }
    }
    if Knows(w, h) {
      forall i {:trigger h[i]} | v.cursor <= i < q - 1 ensures Skippable(v, h[i], row) {
        RevisionsGrow(h, i + 1, q, h[i].resource);
        if h[i].resource.Operation? { assert KnowsOperation(w, h, h[i].resource.id); }
      }
    }
  }

  /** The next event in order leaves no gap. */
  lemma NextEventKeepsKnowledge(v: View, h: seq<Row>, epoch: nat, q: nat)
    requires Sequenced(h) && Knows(v, h) && 1 <= q <= v.cursor + 1 && q <= |h|
    ensures Knows(ApplyEvent(v, epoch, q, h[q - 1]), h)
  {
    if v.cursor < q {
      GapKeepsKnowledgeIff(v, h, q);
      assert AllSkippable(v, h, v.cursor, q - 1, h[q - 1]);
    }
  }

  /** Two consecutive events in the wrong order: the client ends with the same resources as in
      the right order exactly when the first one was no news. Otherwise its change is lost until
      the next sync or GET, although the reducer is documented as independent of arrival order. */
  lemma SwappedEventsAgreeIff(v: View, h: seq<Row>, epoch: nat, q: nat)
    requires Sequenced(h) && Knows(v, h) && v.epoch == Some(epoch) && q == v.cursor + 1 && q + 1 <= |h|
    ensures var right := ApplyEvent(ApplyEvent(v, epoch, q, h[q - 1]), epoch, q + 1, h[q]);
            var wrong := ApplyEvent(ApplyEvent(v, epoch, q + 1, h[q]), epoch, q, h[q - 1]);
            SameState(right, wrong) <==> Skippable(v, h[q - 1], h[q])
  {
    assert ApplyEvent(ApplyEvent(v, epoch, q + 1, h[q]), epoch, q, h[q - 1]) == ApplyRow(v, q + 1, h[q]);
    assert ApplyEvent(v, epoch, q, h[q - 1]) == ApplyRow(v, q, h[q - 1]);
    if h[q - 1].resource == h[q].resource {
      SameResourceAgrees(v, h, q);
    } else {
      OtherResourceAgreesIff(v, h, q);
    }
  }

  /** Two views that differ at most in cursor and seen numbers. */
  predicate SameState(v: View, w: View) {
    v.revisions == w.revisions && v.statuses == w.statuses && v.queueRevision == w.queueRevision
  }

  lemma SameResourceAgrees(v: View, h: seq<Row>, q: nat)
    requires Sequenced(h) && 1 <= q && q + 1 <= |h| && h[q - 1].resource == h[q].resource
    ensures SameState(ApplyRow(ApplyRow(v, q, h[q - 1]), q + 1, h[q]), ApplyRow(v, q + 1, h[q]))
  {
    assert Numbered(h, q - 1) && Numbered(h, q);
    assert h[q].revision == h[q - 1].revision + 1;
    if h[q].resource.Operation? {
      var id, first := h[q].resource.id, ApplyRow(v, q, h[q - 1]);
      assert first.revisions[id := h[q].revision] == v.revisions[id := h[q].revision];
      assert first.statuses[id := h[q].status] == v.statuses[id := h[q].status];
    }
  }

  lemma OtherResourceAgreesIff(v: View, h: seq<Row>, q: nat)
    requires 1 <= q && q + 1 <= |h| && h[q - 1].resource != h[q].resource
    ensures SameState(ApplyRow(ApplyRow(v, q, h[q - 1]), q + 1, h[q]), ApplyRow(v, q + 1, h[q])) <==> Skippable(v, h[q - 1], h[q])
  {
    if h[q - 1].resource.Operation? {
      var id, first := h[q - 1].resource.id, ApplyRow(v, q, h[q - 1]);
      assert Revision(ApplyRow(first, q + 1, h[q]), id) == Revision(first, id);
      assert Revision(ApplyRow(v, q + 1, h[q]), id) == Revision(v, id);
    }
  }

  /** An operation starts and another one ends; the rows arrive in the wrong order. */
  lemma SwappedExample() returns (h: seq<Row>, right: View, wrong: View)
    ensures Sequenced(h) && |h| == 2
    ensures right == ApplyEvent(ApplyEvent(Unsynced().(epoch := Some(0)), 0, 1, h[0]), 0, 2, h[1])
    ensures wrong == ApplyEvent(ApplyEvent(Unsynced().(epoch := Some(0)), 0, 2, h[1]), 0, 1, h[0])
    ensures right.revisions == map[0 := 1, 1 := 1] && wrong.revisions == map[1 := 1] && right.cursor == wrong.cursor == 2
    ensures Knows(right, h) && !Knows(wrong, h)
  {
    h := [Row(Operation(0), 1, 0, 0), Row(Operation(1), 1, 0, 0)];
    var v := Unsynced().(epoch := Some(0));
    var first := ApplyEvent(v, 0, 1, h[0]);
    right := ApplyEvent(first, 0, 2, h[1]);
    wrong := ApplyEvent(ApplyEvent(v, 0, 2, h[1]), 0, 1, h[0]);
    assert wrong == ApplyRow(v, 2, h[1]);
    assert Numbered(h, 0) && Numbered(h, 1);
    forall id ensures KnowsOperation(v, h, id) { }
    NextEventKeepsKnowledge(v, h, 0, 1);
    NextEventKeepsKnowledge(first, h, 0, 2);
    assert !Skippable(v, h[0], h[1]);
    GapKeepsKnowledgeIff(v, h, 2);
  }

  // ---------------------------------------------------------------- whole runs

  datatype World = World(server: Server, view: View)

  datatype Step =
    | Append(row: Row)
    | Compaction(limit: nat, protected: set<nat>)
    | Sync(at: nat, pages: seq<SyncPage>)
    | Deliver(number: nat)
    | Get(at: nat, id: nat, revision: nat, status: nat)

  /** What may happen: the store appends and compacts; a snapshot or a GET answers with a present
      or past state; the stream delivers the row after the client's cursor, or an older one again. */
  ghost predicate Next(w: World, epoch: nat, step: Step, x: World) {
    var h := w.server.history;
    match step
    case Append(row) =>
      row.revision == LastRevision(h, |h|, row.resource) + 1 && x == World(Appended(w.server, row), w.view)
    case Compaction(limit, protected) =>
      Retains(w.server) && limit <= |h| && x == World(Compacted(w.server, limit, protected), w.view)
    case Sync(at, pages) =>
      Snapshot(pages, epoch, h, at) && x == World(w.server, ApplyPages(w.view, pages, |pages|))
    case Deliver(number) =>
      number in w.server.kept && 1 <= number <= w.view.cursor + 1 && number <= |h|
      && x == World(w.server, ApplyEvent(w.view, epoch, number, h[number - 1]))
    case Get(at, id, revision, status) =>
      at <= |h| && StateAt(h, at, id, revision, status) && x == World(w.server, ApplyResource(w.view, id, revision, status))
  }

  ghost predicate Run(worlds: seq<World>, steps: seq<Step>, epoch: nat) {
    && |worlds| == |steps| + 1 && worlds[0] == World(Server([], 0, {}), Unsynced())
    && forall i {:trigger steps[i]} | 0 <= i < |steps| :: Next(worlds[i], epoch, steps[i], worlds[i + 1])
  }

  lemma NextKeeps(w: World, epoch: nat, step: Step, x: World)
    requires Retains(w.server) && Knows(w.view, w.server.history) && OneEpoch(w.view, epoch) && Next(w, epoch, step, x)
    ensures Retains(x.server) && Knows(x.view, x.server.history) && OneEpoch(x.view, epoch)
    ensures w.server.floor <= x.server.floor && w.view.cursor <= x.view.cursor
  {
    var h := w.server.history;
    match step
    case Append(row) => AppendRetains(w.server, row); AppendKeepsKnowledge(w.view, h, row);
    case Compaction(limit, protected) => CompactionRetains(w.server, limit, protected);
    case Sync(at, pages) => SyncKeepsKnowledge(w.view, pages, epoch, h, at);
    case Deliver(number) => NextEventKeepsKnowledge(w.view, h, epoch, number);
    case Get(at, id, revision, status) => GetKeepsKnowledge(w.view, h, at, id, revision, status);
  }

  /** In every run: all rows above the floor are in the log, so a client at or above the floor can
      always read on; the client knows, for each operation and the queue, a real state at least as
      new as the last at or below its cursor; and one whose cursor is the last event is equal to
      the server. */
  lemma {:induction false} EveryRunKeepsKnowledge(worlds: seq<World>, steps: seq<Step>, epoch: nat, n: nat)
    requires Run(worlds, steps, epoch) && n < |worlds|
    ensures Retains(worlds[n].server) && Knows(worlds[n].view, worlds[n].server.history) && OneEpoch(worlds[n].view, epoch)
    ensures var s, v := worlds[n].server, worlds[n].view;
            && (s.floor <= v.cursor < |s.history| ==> v.cursor + 1 in s.kept)
            && (v.cursor == |s.history| ==>
                  && v.queueRevision == LastRevision(s.history, |s.history|, Queue)
                  && forall id {:trigger Revision(v, id)} ::
                       Revision(v, id) == LastRevision(s.history, |s.history|, Operation(id))
                       && (id in v.revisions ==> id in v.statuses && v.statuses[id] == LastStatus(s.history, |s.history|, Operation(id))))
  {
    if n > 0 {
      EveryRunKeepsKnowledge(worlds, steps, epoch, n - 1);
      NextKeeps(worlds[n - 1], epoch, steps[n - 1], worlds[n]);
    } else {
      forall id ensures KnowsOperation(worlds[0].view, worlds[0].server.history, id) { }
    }
    var s, v := worlds[n].server, worlds[n].view;
    if v.cursor == |s.history| {
      forall id { CaughtUpEqualsServer(v, s.history, id); }
      CaughtUpEqualsServer(v, s.history, 0);
    }
  }

  /** A run in which the first sync rolls a resource back: an operation is recorded twice, a GET
      shows its second revision, and the snapshot is from between the two. */
  lemma RolledBackExample(epoch: nat) returns (worlds: seq<World>, steps: seq<Step>)
    ensures Run(worlds, steps, epoch) && |steps| == 4 && steps[2].Get? && steps[3].Sync?
    ensures Revision(worlds[3].view, 0) == 2 && Revision(worlds[4].view, 0) == 1
  {
    var row1, row2 := Row(Operation(0), 1, 0, 0), Row(Operation(0), 2, 1, 0);
    var pages := [SyncPage(epoch, 1, [SyncResource(0, 1, 0)], 0)];
    var s0 := Server([], 0, {});
    var s1, s2 := Appended(s0, row1), Appended(Appended(s0, row1), row2);
    var read := ApplyResource(Unsynced(), 0, 2, 1);
    steps := [Append(row1), Append(row2), Get(2, 0, 2, 1), Sync(1, pages)];
    worlds := [World(s0, Unsynced()), World(s1, Unsynced()), World(s2, Unsynced()), World(s2, read),
               World(s2, ApplyPages(read, pages, 1))];
    assert s2.history == [row1, row2];
    OldSnapshot(pages, epoch, s2.history);
    OldSnapshotSets(read, pages, epoch);
  }

  lemma OldSnapshot(pages: seq<SyncPage>, epoch: nat, h: seq<Row>)
    requires pages == [SyncPage(epoch, 1, [SyncResource(0, 1, 0)], 0)] && |h| == 2 && h[0] == Row(Operation(0), 1, 0, 0)
    ensures Snapshot(pages, epoch, h, 1)
  {
    assert LastRevision(h, 0, Queue) == LastRevision(h, 0, Operation(0)) == 0;
    assert StateAt(h, 1, 0, 1, 0);
    assert pages[0].resources[0].id == 0 && Listed(pages, 0);
    forall id: nat | LastRevision(h, 1, Operation(id)) > 0 ensures Listed(pages, id) {
      assert LastRevision(h, 0, Operation(id)) == 0;
    }
  }

  lemma OldSnapshotSets(v: View, pages: seq<SyncPage>, epoch: nat)
    requires pages == [SyncPage(epoch, 1, [SyncResource(0, 1, 0)], 0)] && v.epoch == None
    ensures ApplyPages(v, pages, 1).revisions == map[0 := 1]
  {
    var w := v.(epoch := Some(epoch), cursor := 1, seen := {}, revisions := map[], statuses := map[]);
    assert ApplyResources(w, pages[0].resources, 0) == w;
    assert ApplyResources(w, pages[0].resources, 1) == ApplyResource(w, 0, 1, 0);
    assert ApplyPages(v, pages, 0) == v;
  }

  /** A row of an operation that a compaction protected stays below the floor for good: no later
      compaction deletes it, and no read reaches it. */
  lemma ProtectedRowsStay(s: Server, limit: nat, protected: set<nat>, q: nat)
    requires Retains(s) && limit <= |s.history| && q in s.kept && q <= s.floor
    ensures q in Compacted(s, limit, protected).kept && q <= Compacted(s, limit, protected).floor
  {
  }
}
