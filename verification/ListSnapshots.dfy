/** Point-in-time listings (`_ListSnapshots` and `list_jobs` of
    `src/utteran_control/job_repository.py`): a bounded registry of immutable snapshots and the
    cursors that page through them. A cursor is a term that holds what its signature binds. */
module ListSnapshots {
  import opened Basics

  datatype Snapshot<T> = Snapshot(id: nat, scope: nat, revision: nat, items: seq<T>)

  datatype Entry<T> = Entry(time: int, snapshot: Snapshot<T>)

  datatype Lookup<T> = Found(snapshot: Snapshot<T>) | CursorExpired | CursorInvalid

  const MAX_LIST: nat := 100

  datatype Cursor = Cursor(snapshot: nat, offset: nat, limit: nat, scope: nat)

  datatype Page<T> = Page(revision: nat, items: seq<T>, next: Option<Cursor>)

  datatype ListResult<T> = Listed(page: Page<T>) | RequestInvalid | TooLarge | Expired | Refused

  /** The slice [offset, offset + limit) as far as it goes, and the cursor for what comes after. */
  function PageAt<T>(s: Snapshot<T>, offset: nat, limit: nat): Page<T> {
    var end := offset + limit;
    Page(s.revision,
         if offset >= |s.items| then [] else if end < |s.items| then s.items[offset..end] else s.items[offset..],
         if end < |s.items| then Some(Cursor(s.id, end, limit, s.scope)) else None)
  }

  /** A page shows the items of the snapshot from its offset on, at most `limit` of them, and its
      cursor leads to the first one after them, if there is one. */
  lemma PageShows<T>(s: Snapshot<T>, offset: nat, limit: nat)
    ensures var page := PageAt(s, offset, limit);
            && page.revision == s.revision && |page.items| <= limit
            && (forall k | 0 <= k < |page.items| :: offset + k < |s.items| && page.items[k] == s.items[offset + k])
            && (page.next.None? <==> offset + limit >= |s.items|)
            && (page.next.None? ==> offset + |page.items| == |s.items| || (page.items == [] && offset > |s.items|))
            && (page.next.Some? ==> |page.items| == limit && page.next.value == Cursor(s.id, offset + limit, limit, s.scope))
  {
  }

  function TotalItems<T>(entries: seq<Entry<T>>): nat {
    if entries == [] then 0 else |entries[0].snapshot.items| + TotalItems(entries[1..])
  }

  /** The entries that have not outlived `ttl`, in their order. */
  ghost function Living<T>(entries: seq<Entry<T>>, now: int, ttl: int): seq<Entry<T>> {
    if entries == [] then []
    else (if now - entries[0].time >= ttl then [] else [entries[0]]) + Living(entries[1..], now, ttl)
  }

  lemma {:induction false} LivingMembers<T>(entries: seq<Entry<T>>, now: int, ttl: int, e: Entry<T>)
    ensures e in Living(entries, now, ttl) <==> e in entries && now - e.time < ttl
  {
    if entries != [] {
      LivingMembers(entries[1..], now, ttl, e);
      assert entries == [entries[0]] + entries[1..];
    }
  }

  lemma {:induction false} LivingAppend<T>(entries: seq<Entry<T>>, e: Entry<T>, now: int, ttl: int)
    ensures Living(entries + [e], now, ttl) == Living(entries, now, ttl) + (if now - e.time >= ttl then [] else [e])
  {
    if entries == [] {
      assert [e][1..] == [];
      assert entries + [e] == [e];
    } else {
      LivingAppend(entries[1..], e, now, ttl);
      assert (entries + [e])[1..] == entries[1..] + [e];
    }
  }

  lemma {:induction false} LivingLength<T>(entries: seq<Entry<T>>, now: int, ttl: int)
    ensures |Living(entries, now, ttl)| <= |entries| && TotalItems(Living(entries, now, ttl)) <= TotalItems(entries)
  {
    if entries != [] {
      LivingLength(entries[1..], now, ttl);
      var rest := Living(entries[1..], now, ttl);
      if now - entries[0].time < ttl { assert ([entries[0]] + rest)[1..] == rest; } else { assert [] + rest == rest; }
    }
  }

  lemma {:induction false} TotalAppend<T>(entries: seq<Entry<T>>, e: Entry<T>)
    ensures TotalItems(entries + [e]) == TotalItems(entries) + |e.snapshot.items|
  {
    if entries == [] {
      assert entries + [e] == [e] && [e][1..] == [];
    } else {
      TotalAppend(entries[1..], e);
      assert (entries + [e])[1..] == entries[1..] + [e];
    }
  }

  /** At most one entry per snapshot, oldest first in insertion order. */
  ghost predicate Distinct<T>(entries: seq<Entry<T>>) {
    forall i, j | 0 <= i < j < |entries| :: entries[i].snapshot.id != entries[j].snapshot.id
  }

  lemma {:induction false} LivingDistinct<T>(entries: seq<Entry<T>>, now: int, ttl: int)
    requires Distinct(entries)
    ensures Distinct(Living(entries, now, ttl))
  {
    if entries != [] {
      var rest := entries[1..];
      LivingDistinct(rest, now, ttl);
      var living := Living(rest, now, ttl);
      forall i | 0 <= i < |living| ensures living[i].snapshot.id != entries[0].snapshot.id {
        LivingMembers(rest, now, ttl, living[i]);
        assert living[i] in rest;
      }
    }
  }

  /** Room for one more snapshot with `more` items. */
  predicate Room<T>(entries: seq<Entry<T>>, capacity: nat, totalItems: nat, more: nat) {
    |entries| < capacity && TotalItems(entries) + more <= totalItems
  }

  /** The registry's settings. */
  datatype Limits = Limits(ttl: int, capacity: nat, totalItems: nat, maxItems: nat)

  /** What is retained, and the next snapshot id. */
  datatype State<T> = State(entries: seq<Entry<T>>, nextId: nat)

  /** A reader of the registry: a first page of the jobs of that moment, or a later page. */
  datatype Reader<T> =
    | Lists(scope: nat, revision: nat, jobs: seq<T>, limit: int, now: int)
    | Reads(cursor: Cursor, limit: int, scope: nat, now: int)

  /** The longest suffix that leaves room. */
  function Newest<T>(living: seq<Entry<T>>, l: Limits, more: nat): seq<Entry<T>> {
    if living == [] || Room(living, l.capacity, l.totalItems, more) then living else Newest(living[1..], l, more)
  }

  function SnapshotOf<T>(id: nat, scope: nat, revision: nat, jobs: seq<T>): Snapshot<T> {
    Snapshot(id, scope, if revision > 1 then revision else 1, jobs)
  }

  /** The registry after a reader. */
  ghost function Served<T>(l: Limits, s: State<T>, r: Reader<T>): State<T> {
    match r
    case Lists(scope, revision, jobs, limit, now) =>
      if !(1 <= limit <= MAX_LIST) || |jobs| > l.maxItems then s
      else if |jobs| <= limit then s.(nextId := s.nextId + 1)
      else State(Newest(Living(s.entries, now, l.ttl), l, |jobs|) + [Entry(now, SnapshotOf(s.nextId, scope, revision, jobs))], s.nextId + 1)
    case Reads(cursor, limit, scope, now) =>
      if !(1 <= limit <= MAX_LIST) || cursor.limit != limit || cursor.scope != scope then s
      else s.(entries := Living(s.entries, now, l.ttl))
  }

  ghost function ServedAll<T>(l: Limits, s: State<T>, readers: seq<Reader<T>>): State<T> {
    if readers == [] then s else Served(l, ServedAll(l, s, readers[..|readers| - 1]), readers[|readers| - 1])
  }

  lemma {:induction false} NewestIs<T>(living: seq<Entry<T>>, k: nat, l: Limits, more: nat)
    requires k <= |living| && (k == |living| || Room(living[k..], l.capacity, l.totalItems, more))
    requires forall j | 0 <= j < k :: !Room(living[j..], l.capacity, l.totalItems, more)
    ensures Newest(living, l, more) == living[k..]
    decreases k
  {
    assert living[0..] == living;
    if k > 0 {
      assert !Room(living[0..], l.capacity, l.totalItems, more);
      forall j | 0 <= j < k - 1 ensures !Room(living[1..][j..], l.capacity, l.totalItems, more) {
        assert living[1..][j..] == living[j + 1..];
      }
      assert living[1..][k - 1..] == living[k..];
      NewestIs(living[1..], k - 1, l, more);
    }
  }

  /** An entry makes room for the new one exactly when there is none beside it and those after it. */
  lemma {:induction false} NewestKeeps<T>(living: seq<Entry<T>>, j: nat, l: Limits, more: nat)
    requires Distinct(living) && j < |living|
    ensures living[j] in Newest(living, l, more) <==> Room(living[j..], l.capacity, l.totalItems, more)
    decreases |living|
  {
    assert living[0..] == living;
    if Room(living, l.capacity, l.totalItems, more) {
      SuffixRoom(living, j, l, more);
    } else if j == 0 {
      NewestWithin(living[1..], l, more);
      forall i | 0 <= i < |living[1..]| ensures living[1..][i] != living[0] { assert living[1..][i] == living[i + 1]; }
    } else {
      assert living[1..][j - 1] == living[j] && living[1..][j - 1..] == living[j..];
      NewestKeeps(living[1..], j - 1, l, more);
    }
  }

  lemma {:induction false} NewestWithin<T>(living: seq<Entry<T>>, l: Limits, more: nat)
    ensures forall e | e in Newest(living, l, more) :: e in living
    decreases |living|
  {
    if living != [] && !Room(living, l.capacity, l.totalItems, more) { NewestWithin(living[1..], l, more); }
  }

  lemma {:induction false} SuffixRoom<T>(living: seq<Entry<T>>, j: nat, l: Limits, more: nat)
    requires j <= |living| && Room(living, l.capacity, l.totalItems, more)
    ensures Room(living[j..], l.capacity, l.totalItems, more)
    decreases j
  {
    assert living[0..] == living;
    if j > 0 {
      SuffixRoom(living[1..], j - 1, l, more);
      assert living[1..][j - 1..] == living[j..];
    }
  }

  class Registry<T(==)> {
    const ttl: int
    const capacity: nat
    const totalItems: nat
    const maxItems: nat
    var entries: seq<Entry<T>>
    /** Random snapshot ids are fresh; here they are drawn from a counter. */
    var nextId: nat

    constructor (ttl: int, capacity: nat, totalItems: nat, maxItems: nat)
      ensures this.ttl == ttl && this.capacity == capacity && this.totalItems == totalItems && this.maxItems == maxItems
      ensures entries == [] && Valid()
    {
      this.ttl, this.capacity, this.totalItems, this.maxItems := ttl, capacity, totalItems, maxItems;
      entries, nextId := [], 0;
    }

    function Settings(): Limits {
      Limits(ttl, capacity, totalItems, maxItems)
    }

    ghost function Now(): State<T>
      reads this
    {
      State(entries, nextId)
    }

    ghost predicate Valid()
      reads this
    {
      && Distinct(entries) && (forall e | e in entries :: e.snapshot.id < nextId)
      && (capacity > 0 ==> |entries| <= capacity)
      && (maxItems <= totalItems ==> TotalItems(entries) <= totalItems)
    }

    method Purge(now: int)
      requires Valid()
      modifies `entries
      ensures Valid() && entries == Living(old(entries), now, ttl)
      ensures forall e :: e in entries <==> e in old(entries) && now - e.time < ttl
    {
      var kept: seq<Entry<T>> := [];
      for i := 0 to |entries|
        invariant entries == old(entries)
        invariant kept == Living(entries[..i], now, ttl)
      {
        var e := entries[i];
        LivingAppend(entries[..i], e, now, ttl);
        assert entries[..i + 1] == entries[..i] + [e];
        if !(now - e.time >= ttl) { kept := kept + [e]; }
      }
      assert entries[..|entries|] == entries;
      LivingKeeps(entries, now, ttl);
      LivingLength(entries, now, ttl);
      entries := kept;
    }

    /** Expired entries go first; then the shortest oldest-first prefix of `evicted` entries
        that makes room, or everything. */
    method Put(snapshot: Snapshot<T>, now: int) returns (ghost evicted: nat)
      requires Valid() && |snapshot.items| <= maxItems && snapshot.id < nextId && forall e | e in entries :: e.snapshot.id != snapshot.id
      modifies `entries
      ensures var living := Living(old(entries), now, ttl);
              && evicted <= |living| && entries == living[evicted..] + [Entry(now, snapshot)]
              && (Room(living[evicted..], capacity, totalItems, |snapshot.items|) || evicted == |living|)
              && forall k | 0 <= k < evicted ::
                   |living| - k >= capacity || TotalItems(living[k..]) + |snapshot.items| > totalItems
      ensures entries == Newest(Living(old(entries), now, ttl), Settings(), |snapshot.items|) + [Entry(now, snapshot)]
      ensures Valid() && Entry(now, snapshot) in entries
      ensures forall e | e in entries :: e in old(entries) || e == Entry(now, snapshot)
    {
      Purge(now);
      ghost var living := entries;
      evicted := Evict(|snapshot.items|);
      NewestIs(living, evicted, Settings(), |snapshot.items|);
      DistinctAppend(living, evicted, Entry(now, snapshot));
      PutRespectsBounds(living, evicted, snapshot, now, capacity, totalItems);
      entries := entries + [Entry(now, snapshot)];
      assert entries[|entries| - 1] == Entry(now, snapshot);
    }

    method Evict(more: nat) returns (ghost evicted: nat)
      modifies `entries
      ensures evicted <= |old(entries)| && entries == old(entries)[evicted..]
      ensures Room(entries, capacity, totalItems, more) || evicted == |old(entries)|
      ensures forall k | 0 <= k < evicted :: !Room(old(entries)[k..], capacity, totalItems, more)
    {
      evicted := 0;
      while entries != [] && (|entries| >= capacity || TotalItems(entries) + more > totalItems)
        invariant evicted <= |old(entries)| && entries == old(entries)[evicted..]
        invariant forall k | 0 <= k < evicted :: !Room(old(entries)[k..], capacity, totalItems, more)
        decreases |entries|
      {
        entries := entries[1..];
        evicted := evicted + 1;
      }
    }

    method Get(id: nat, scope: nat, now: int) returns (r: Lookup<T>)
      requires Valid()
      modifies `entries
      ensures Valid() && entries == Living(old(entries), now, ttl)
      ensures forall e :: e in entries <==> e in old(entries) && now - e.time < ttl
      ensures r.CursorExpired? <==> forall e | e in entries :: e.snapshot.id != id
      ensures r.Found? ==> r.snapshot.scope == scope && Holds(entries, r.snapshot) && r.snapshot.id == id
      ensures r.CursorInvalid? ==> exists e :: e in entries && e.snapshot.id == id && e.snapshot.scope != scope
    {
      Purge(now);
      for i := 0 to |entries|
        invariant forall j | 0 <= j < i :: entries[j].snapshot.id != id
      {
        if entries[i].snapshot.id == id {
          assert entries[i] in entries;
          if entries[i].snapshot.scope != scope { return CursorInvalid; }
          return Found(entries[i].snapshot);
        }
      }
      r := CursorExpired;
    }

    /** The first page materialises the jobs; only a listing with more pages is retained. */
    method FirstPage(limit: int, scope: nat, jobs: seq<T>, revision: nat, now: int) returns (r: ListResult<T>, ghost snapshot: Snapshot<T>)
      requires Valid()
      modifies `entries, `nextId
      ensures Valid() && old(nextId) <= nextId && Now() == Served(Settings(), old(Now()), Lists(scope, revision, jobs, limit, now))
      ensures snapshot == Snapshot(old(nextId), scope, snapshot.revision, jobs)
      ensures snapshot.revision >= 1 && (revision >= 1 ==> snapshot.revision == revision)
      ensures forall e | e in entries :: e in old(entries) || e == Entry(now, snapshot)
      ensures if !(1 <= limit <= MAX_LIST) then r.RequestInvalid? && entries == old(entries)
              else if |jobs| > maxItems then r.TooLarge? && entries == old(entries)
              else
                && r == Listed(PageAt(snapshot, 0, limit)) && snapshot.id < nextId
                && (|jobs| > limit ==> Entry(now, snapshot) in entries)
                && (|jobs| <= limit ==> entries == old(entries))
    {
      var s := SnapshotOf(nextId, scope, revision, jobs);
      snapshot := s;
      if !(1 <= limit <= MAX_LIST) { return RequestInvalid, s; }
      if |jobs| > maxItems { return TooLarge, s; }
      nextId := nextId + 1;
      if |jobs| > limit { var _ := Put(s, now); }
      r := Listed(PageAt(s, 0, limit));
    }

    /** Later pages slice the retained snapshot. */
    method NextPage(c: Cursor, limit: int, scope: nat, now: int) returns (r: ListResult<T>)
      requires Valid()
      modifies `entries
      ensures Valid() && Now() == Served(Settings(), old(Now()), Reads(c, limit, scope, now))
      ensures forall e | e in entries :: e in old(entries)
      ensures r.RequestInvalid? <==> !(1 <= limit <= MAX_LIST)
      ensures 1 <= limit <= MAX_LIST && (c.limit != limit || c.scope != scope) ==> r.Refused?
      ensures 1 <= limit <= MAX_LIST && c.limit == limit && c.scope == scope ==>
                if r.Expired? then forall e | e in old(entries) && e.snapshot.id == c.snapshot :: now - e.time >= ttl
                else exists e :: e in old(entries) && e.snapshot.id == c.snapshot && now - e.time < ttl
                                 && r == if e.snapshot.scope == scope then Listed(PageAt(e.snapshot, c.offset, limit)) else Refused
    {
      if !(1 <= limit <= MAX_LIST) { return RequestInvalid; }
      if c.limit != limit || c.scope != scope { return Refused; }
      var found := Get(c.snapshot, scope, now);
      match found
      case CursorExpired => r := Expired;
      case CursorInvalid => r := Refused;
      case Found(s) => r := Listed(PageAt(s, c.offset, limit));
    }
  }

  ghost predicate Holds<T>(entries: seq<Entry<T>>, s: Snapshot<T>) {
    exists e :: e in entries && e.snapshot == s
  }

  lemma DistinctAppend<T>(living: seq<Entry<T>>, k: nat, e: Entry<T>)
    requires Distinct(living) && k <= |living| && forall x | x in living :: x.snapshot.id != e.snapshot.id
    ensures Distinct(living[k..] + [e])
  {
    forall i | 0 <= i < |living[k..]| ensures living[k..][i].snapshot.id != e.snapshot.id {
      assert living[k..][i] == living[k + i];
    }
  }

  lemma LivingKeeps<T>(entries: seq<Entry<T>>, now: int, ttl: int)
    requires Distinct(entries)
    ensures Distinct(Living(entries, now, ttl))
    ensures forall e :: e in Living(entries, now, ttl) <==> e in entries && now - e.time < ttl
  {
    LivingDistinct(entries, now, ttl);
    forall e ensures e in Living(entries, now, ttl) <==> e in entries && now - e.time < ttl { LivingMembers(entries, now, ttl, e); }
  }

  /** What `Put` leaves is within both bounds whenever the registry has any capacity and the
      snapshot fits the item cap at all. Otherwise the new snapshot stands alone above a bound. */
  lemma PutRespectsBounds<T>(living: seq<Entry<T>>, evicted: nat, snapshot: Snapshot<T>, now: int, capacity: nat, totalItems: nat)
    requires evicted <= |living| && (Room(living[evicted..], capacity, totalItems, |snapshot.items|) || evicted == |living|)
    ensures var after := living[evicted..] + [Entry(now, snapshot)];
            && (|after| <= capacity <==> capacity > 0)
            && (TotalItems(after) <= totalItems <==> |snapshot.items| <= totalItems)
  {
    TotalAppend(living[evicted..], Entry(now, snapshot));
    if evicted == |living| { assert living[evicted..] == []; }
  }

  // ---------------------------------------------------------------- what a reader costs the others

  ghost predicate Sane<T>(s: State<T>) {
    Distinct(s.entries) && forall e | e in s.entries :: e.snapshot.id < s.nextId
  }

  /** An entry survives a reader who looks at the registry if it is young enough, and a new
      listing if there is room beside it and those listed after it. */
  ghost predicate Survives<T>(l: Limits, s: State<T>, r: Reader<T>, e: Entry<T>) {
    match r
    case Lists(_, _, jobs, limit, now) =>
      1 <= limit < |jobs| <= l.maxItems && limit <= MAX_LIST ==>
        now - e.time < l.ttl && RoomBeside(Living(s.entries, now, l.ttl), e, l, |jobs|)
    case Reads(cursor, limit, scope, now) =>
      1 <= limit <= MAX_LIST && cursor.limit == limit && cursor.scope == scope ==> now - e.time < l.ttl
  }

  ghost predicate RoomBeside<T>(living: seq<Entry<T>>, e: Entry<T>, l: Limits, more: nat) {
    exists j {:trigger living[j]} :: 0 <= j < |living| && living[j] == e && Room(living[j..], l.capacity, l.totalItems, more)
  }

  /** A retained snapshot is lost exactly by age or by eviction. */
  lemma SurvivesIff<T>(l: Limits, s: State<T>, r: Reader<T>, e: Entry<T>)
    requires Sane(s) && e in s.entries
    ensures e in Served(l, s, r).entries <==> Survives(l, s, r, e)
  {
    LivingKeeps(s.entries, r.now, l.ttl);
    if r.Lists? {
      var living := Living(s.entries, r.now, l.ttl);
      var added := Entry(r.now, SnapshotOf(s.nextId, r.scope, r.revision, r.jobs));
      assert e != added;
      PutKeepsIff(living, l, |r.jobs|, added, e);
    }
  }

  lemma PutKeepsIff<T>(living: seq<Entry<T>>, l: Limits, more: nat, last: Entry<T>, e: Entry<T>)
    requires Distinct(living) && e != last
    ensures e in Newest(living, l, more) + [last] <==> RoomBeside(living, e, l, more)
  {
    NewestWithin(living, l, more);
    if e in living {
      var j :| 0 <= j < |living| && living[j] == e;
      NewestKeeps(living, j, l, more);
    }
  }

  lemma PutSane<T>(living: seq<Entry<T>>, l: Limits, more: nat, last: Entry<T>)
    requires Distinct(living) && forall e | e in living :: e.snapshot.id < last.snapshot.id
    ensures Distinct(Newest(living, l, more) + [last])
    ensures forall e | e in Newest(living, l, more) + [last] :: e in living || e == last
  {
    NewestWithin(living, l, more);
    NewestSuffix(living, l, more);
    var kept := Newest(living, l, more);
    assert forall i | 0 <= i < |kept| :: kept[i] in kept;
  }

  /** What a later page with its own limit and scope leaves. */
  ghost function Purged<T>(l: Limits, s: State<T>, now: int): State<T> {
    s.(entries := Living(s.entries, now, l.ttl))
  }

  lemma PurgedSane<T>(l: Limits, s: State<T>, now: int)
    requires Sane(s)
    ensures Sane(Purged(l, s, now))
    ensures forall e | e in Purged(l, s, now).entries :: e in s.entries
  {
    LivingDistinct(s.entries, now, l.ttl);
    forall e | e in Living(s.entries, now, l.ttl) ensures e in s.entries && e.snapshot.id < s.nextId {
      LivingMembers(s.entries, now, l.ttl, e);
    }
  }

  lemma ServedSane<T>(l: Limits, s: State<T>, r: Reader<T>)
    requires Sane(s)
    ensures Sane(Served(l, s, r)) && s.nextId <= Served(l, s, r).nextId
    ensures forall e | e in Served(l, s, r).entries :: e in s.entries || s.nextId <= e.snapshot.id
  {
    PurgedSane(l, s, r.now);
    if r.Lists? {
      PutSane(Living(s.entries, r.now, l.ttl), l, |r.jobs|, Entry(r.now, SnapshotOf(s.nextId, r.scope, r.revision, r.jobs)));
    }
  }

  lemma {:induction false} NewestSuffix<T>(living: seq<Entry<T>>, l: Limits, more: nat)
    requires Distinct(living)
    ensures Distinct(Newest(living, l, more))
    decreases |living|
  {
    if living != [] && !Room(living, l.capacity, l.totalItems, more) { NewestSuffix(living[1..], l, more); }
  }

  // ---------------------------------------------------------------- following a listing

  method Interfere<T(==)>(registry: Registry<T>, others: seq<Reader<T>>)
    requires registry.Valid()
    modifies registry`entries, registry`nextId
    ensures registry.Valid() && registry.Now() == ServedAll(registry.Settings(), old(registry.Now()), others)
    ensures old(registry.nextId) <= registry.nextId
    ensures forall e | e in registry.entries :: e in old(registry.entries) || old(registry.nextId) <= e.snapshot.id
  {
    for i := 0 to |others|
      invariant registry.Valid() && registry.Now() == ServedAll(registry.Settings(), old(registry.Now()), others[..i])
      invariant old(registry.nextId) <= registry.nextId
      invariant forall e | e in registry.entries :: e in old(registry.entries) || old(registry.nextId) <= e.snapshot.id
    {
      assert others[..i + 1][..i] == others[..i];
      match others[i]
      case Lists(scope, revision, jobs, limit, now) => var _, _ := registry.FirstPage(limit, scope, jobs, revision, now);
      case Reads(cursor, limit, scope, now) => var _ := registry.NextPage(cursor, limit, scope, now);
    }
    assert others[..|others|] == others;
  }

  /** What happens to the registry before a later page, and when that page is read. */
  datatype Visit<T> = Visit(others: seq<Reader<T>>, now: int)

  /** The registry after page `k` of a reader, whose later pages are read at these visits. */
  ghost function StateAt<T>(l: Limits, s: State<T>, first: Reader<T>, visits: seq<Visit<T>>, k: nat): State<T>
    requires first.Lists? && k <= |visits|
  {
    if k == 0 then Served(l, s, first)
    else Purged(l, ServedAll(l, StateAt(l, s, first, visits, k - 1), visits[k - 1].others), visits[k - 1].now)
  }

  /** A later page of a snapshot that is retained in one entry at most. */
  method ReadOn<T(==)>(registry: Registry<T>, c: Cursor, now: int, ghost entry: Entry<T>) returns (r: ListResult<T>)
    requires registry.Valid() && 1 <= c.limit <= MAX_LIST && entry.snapshot.id == c.snapshot && entry.snapshot.scope == c.scope
    requires forall e | e in registry.entries && e.snapshot.id == c.snapshot :: e == entry
    modifies registry`entries
    ensures registry.Valid() && registry.Now() == Purged(registry.Settings(), old(registry.Now()), now)
    ensures forall e | e in registry.entries :: e in old(registry.entries)
    ensures r == if entry in registry.entries then Listed(PageAt(entry.snapshot, c.offset, c.limit)) else Expired
  {
    ghost var before := registry.entries;
    r := registry.NextPage(c, c.limit, c.scope, now);
    LivingKeeps(before, now, registry.ttl);
  }

  /** Where page `k` starts. */
  function PageStart(k: nat, limit: int): (r: int)
    ensures limit > 0 ==> k <= r
  {
    if k == 0 then 0 else PageStart(k - 1, limit) + limit
  }

  lemma {:induction false} LaterStarts(j: nat, k: nat, limit: nat)
    requires j <= k
    ensures PageStart(j, limit) <= PageStart(k, limit)
    decreases k
  {
    if j < k { LaterStarts(j, k - 1, limit); }
  }

  /** The first `k + 1` pages of a snapshot, or those before an expired page `k`. */
  ghost predicate Collected<T>(collected: seq<T>, r: ListResult<T>, s: Snapshot<T>, limit: nat, k: nat)
    requires limit > 0
  {
    var n := PageStart(if r.Listed? then k + 1 else k, limit);
    && (r.Listed? || r.Expired?)
    && collected == s.items[..if |s.items| <= n then |s.items| else n]
    && (r.Listed? ==> r.page.next == if n < |s.items| then Some(Cursor(s.id, n, limit, s.scope)) else None)
  }

  lemma OneMorePage<T>(collected: seq<T>, r: ListResult<T>, s: Snapshot<T>, limit: nat, k: nat)
    requires limit > 0 && k > 0 && PageStart(k, limit) < |s.items| && collected == s.items[..PageStart(k, limit)]
    requires r.Expired? || r == Listed(PageAt(s, PageStart(k, limit), limit))
    ensures Collected(if r.Listed? then collected + r.page.items else collected, r, s, limit, k)
  {
    assert PageStart(k + 1, limit) == PageStart(k, limit) + limit;
  }

  /** The snapshot of the first page is still retained after page `k`. */
  ghost predicate RetainedAt<T>(l: Limits, s: State<T>, first: Reader<T>, visits: seq<Visit<T>>, k: nat)
    requires first.Lists? && k <= |visits|
  {
    Entry(first.now, SnapshotOf(s.nextId, first.scope, first.revision, first.jobs)) in StateAt(l, s, first, visits, k).entries
  }

  /** How far a reader has come after page `k`: retained at every later page so far, but for
      an expired page `k`. */
  ghost predicate ReadTo<T>(l: Limits, s: State<T>, first: Reader<T>, visits: seq<Visit<T>>, k: nat, ended: ListResult<T>)
    requires first.Lists? && k <= |visits|
  {
    && (forall j: nat {:trigger RetainedAt(l, s, first, visits, j)} | 1 <= j <= k && (j < k || ended.Listed?) ::
          RetainedAt(l, s, first, visits, j))
    && (ended.Expired? ==> 1 <= k && PageStart(k, first.limit) < |first.jobs| && !RetainedAt(l, s, first, visits, k))
  }

  lemma OneMoreRead<T>(l: Limits, s: State<T>, first: Reader<T>, visits: seq<Visit<T>>, k: nat,
                       before: ListResult<T>, ended: ListResult<T>, state: State<T>)
    requires first.Lists? && 1 <= k <= |visits| && before.Listed? && ReadTo(l, s, first, visits, k - 1, before)
    requires state == Purged(l, ServedAll(l, StateAt(l, s, first, visits, k - 1), visits[k - 1].others), visits[k - 1].now)
    requires (ended.Listed? || ended.Expired?) && PageStart(k, first.limit) < |first.jobs|
    requires ended.Listed? <==> Entry(first.now, SnapshotOf(s.nextId, first.scope, first.revision, first.jobs)) in state.entries
    ensures state == StateAt(l, s, first, visits, k) && ReadTo(l, s, first, visits, k, ended)
  {
    assert ended.Listed? <==> RetainedAt(l, s, first, visits, k);
  }

  /** A page that is still needed comes when the snapshot is no longer retained. */
  ghost predicate Outlived<T>(l: Limits, s: State<T>, first: Reader<T>, visits: seq<Visit<T>>)
    requires first.Lists?
  {
    exists k: nat {:trigger RetainedAt(l, s, first, visits, k)} ::
      1 <= k <= |visits| && PageStart(k, first.limit) < |first.jobs| && !RetainedAt(l, s, first, visits, k)
  }

  /** When there is no next page to read, the whole listing is there or the cursor has expired. */
  lemma Ended<T>(l: Limits, s: State<T>, first: Reader<T>, visits: seq<Visit<T>>, k: nat, collected: seq<T>, ended: ListResult<T>)
    requires first.Lists? && first.limit > 0 && k <= |visits| && ReadTo(l, s, first, visits, k, ended)
    requires Collected(collected, ended, SnapshotOf(s.nextId, first.scope, first.revision, first.jobs), first.limit, k)
    requires ended.Listed? ==> ended.page.next.None?
    ensures ended.Listed? || ended.Expired?
    ensures ended.Listed? ==> collected == first.jobs
    ensures ended.Expired? ==> collected <= first.jobs
    ensures ended.Expired? <==> Outlived(l, s, first, visits)
  {
    if ended.Listed? {
      forall j: nat | 1 <= j <= |visits| && PageStart(j, first.limit) < |first.jobs| ensures RetainedAt(l, s, first, visits, j) {
        if j > k { LaterStarts(k + 1, j, first.limit); }
      }
    }
  }

  /** At most this entry holds the snapshot. */
  ghost predicate OnlyEntry<T>(entries: seq<Entry<T>>, entry: Entry<T>) {
    forall e | e in entries && e.snapshot.id == entry.snapshot.id :: e == entry
  }

  /** Others come first, then page `k`. */
  method TurnPage<T(==)>(registry: Registry<T>, before: seq<T>, r: ListResult<T>, others: seq<Reader<T>>, now: int,
                         ghost entry: Entry<T>, ghost limit: nat, ghost k: nat, ghost l: Limits)
    returns (collected: seq<T>, ended: ListResult<T>)
    requires registry.Settings() == l
    requires registry.Valid() && 1 <= limit <= MAX_LIST && k > 0 && entry.snapshot.id < registry.nextId && OnlyEntry(registry.entries, entry)
    requires r.Listed? && r.page.next.Some? && Collected(before, r, entry.snapshot, limit, k - 1)
    modifies registry`entries, registry`nextId
    ensures registry.Valid() && entry.snapshot.id < registry.nextId && OnlyEntry(registry.entries, entry)
    ensures registry.Now() == Purged(l, ServedAll(l, old(registry.Now()), others), now)
    ensures Collected(collected, ended, entry.snapshot, limit, k) && PageStart(k, limit) < |entry.snapshot.items|
    ensures ended.Listed? <==> entry in registry.entries
  {
    Interfere(registry, others);
    ended := ReadOn(registry, r.page.next.value, now, entry);
    collected := before;
    if ended.Listed? { collected := collected + ended.page.items; }
    OneMorePage(before, ended, entry.snapshot, limit, k);
  }

  /** A listing of `first` that began at state `s`, after page `k`. */
  ghost predicate Following<T>(registry: Registry<T>, s: State<T>, first: Reader<T>, visits: seq<Visit<T>>, k: nat,
                               collected: seq<T>, ended: ListResult<T>)
    requires first.Lists? && first.limit > 0
    reads registry
  {
    var snapshot := SnapshotOf(s.nextId, first.scope, first.revision, first.jobs);
    && registry.Valid() && snapshot.id < registry.nextId && OnlyEntry(registry.entries, Entry(first.now, snapshot))
    && k <= |visits| && registry.Now() == StateAt(registry.Settings(), s, first, visits, k)
    && Collected(collected, ended, snapshot, first.limit, k) && ReadTo(registry.Settings(), s, first, visits, k, ended)
  }

  /** The first page of a listing that is to be followed. */
  method Start<T(==)>(registry: Registry<T>, jobs: seq<T>, revision: nat, limit: nat, scope: nat, now: int, ghost visits: seq<Visit<T>>)
    returns (collected: seq<T>, r: ListResult<T>)
    requires registry.Valid() && 1 <= limit <= MAX_LIST && |jobs| <= registry.maxItems
    modifies registry`entries, registry`nextId
    ensures Following(registry, old(registry.Now()), Lists(scope, revision, jobs, limit, now), visits, 0, collected, r) && r.Listed?
  {
    ghost var s;
    r, s := registry.FirstPage(limit, scope, jobs, revision, now);
    collected := r.page.items;
  }

  /** The next page of a listing that is being followed. */
  method Continue<T(==)>(registry: Registry<T>, before: seq<T>, r: ListResult<T>, visits: seq<Visit<T>>, k: nat,
                         ghost s: State<T>, ghost first: Reader<T>)
    returns (collected: seq<T>, ended: ListResult<T>)
    requires first.Lists? && 1 <= first.limit <= MAX_LIST && r.Listed? && r.page.next.Some? && k < |visits|
    requires Following(registry, s, first, visits, k, before, r)
    modifies registry`entries, registry`nextId
    ensures Following(registry, s, first, visits, k + 1, collected, ended)
  {
    ghost var entry, l := Entry(first.now, SnapshotOf(s.nextId, first.scope, first.revision, first.jobs)), registry.Settings();
    collected, ended := TurnPage(registry, before, r, visits[k].others, visits[k].now, entry, first.limit, k + 1, l);
    OneMoreRead(l, s, first, visits, k + 1, r, ended, registry.Now());
  }

  /** Follows `next` from the first page on, while others read and list before each page and jobs
      change at will. What is collected is the jobs of the first moment, once each and in
      order, or a prefix of them when the cursor expires; and it expires exactly when the
      snapshot is no longer retained at a page that is still needed. */
  method Follow<T(==)>(registry: Registry<T>, jobs: seq<T>, revision: nat, limit: nat, scope: nat,
                       now: int, visits: seq<Visit<T>>)
    returns (collected: seq<T>, ended: ListResult<T>)
    requires registry.Valid() && 1 <= limit <= MAX_LIST && |jobs| <= registry.maxItems && |jobs| <= |visits|
    modifies registry`entries, registry`nextId
    ensures registry.Valid() && (ended.Listed? || ended.Expired?)
    ensures ended.Listed? ==> collected == jobs
    ensures ended.Expired? ==> collected <= jobs
    ensures ended.Expired? <==> Outlived(registry.Settings(), old(registry.Now()), Lists(scope, revision, jobs, limit, now), visits)
  {
    ghost var first, start := Lists(scope, revision, jobs, limit, now), registry.Now();
    collected, ended := Start(registry, jobs, revision, limit, scope, now, visits);
    var k := 0;
    while ended.Listed? && ended.page.next.Some?
      invariant k <= |visits| && Following(registry, start, first, visits, k, collected, ended)
      decreases |visits| - k
    {
      collected, ended := Continue(registry, collected, ended, visits, k, start, first);
      k := k + 1;
    }
    Ended(registry.Settings(), start, first, visits, k, collected, ended);
  }

  /** Nobody else in the way and no page later than the time to live: the snapshot is retained. */
  lemma {:induction false} QuietRetains<T>(l: Limits, s: State<T>, first: Reader<T>, visits: seq<Visit<T>>, k: nat)
    requires Sane(s) && first.Lists? && 1 <= first.limit < |first.jobs| <= l.maxItems && first.limit <= MAX_LIST && k <= |visits|
    requires forall j | 0 <= j < k :: visits[j].others == [] && visits[j].now - first.now < l.ttl
    ensures RetainedAt(l, s, first, visits, k)
    ensures Sane(StateAt(l, s, first, visits, k))
  {
    if k == 0 {
      ServedSane(l, s, first);
    } else {
      QuietRetains(l, s, first, visits, k - 1);
      var before := StateAt(l, s, first, visits, k - 1);
      assert ServedAll(l, before, visits[k - 1].others) == before;
      PurgedSane(l, before, visits[k - 1].now);
      LivingKeeps(before.entries, visits[k - 1].now, l.ttl);
    }
  }
}
