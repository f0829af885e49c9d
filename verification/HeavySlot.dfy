/** The single heavy slot under crashes: dispatchers that begin, spawn, report and finish
    (`src/utteran_gui/job_dispatcher.py`), workers that exit when they like, and recoveries that
    look at processes and decide (`src/utteran_control/store.py`, `src/utteran_control/recovery.py`). */
module HeavySlot {
  import opened Basics
  import opened ControlTables
  import opened JobCommands
  import opened JobInvariants
  import R = Recovery
  import E = JobEffects

  /** What a dispatcher is doing with its grant. `Checked` knows that the child has exited or that
      none was spawned. */
  datatype Phase = Idle | Holding(lease: Lease) | Spawned(lease: Lease, child: nat) | Checked(lease: Lease)

  /** A lease row as a recovery read it, to be judged later. */
  datatype LeaseRead = LeaseRead(operation: nat, attempt: nat, fence: nat, launch: Launch, owner: nat, child: Option<nat>)

  /** `alive` are the dispatchers that run, `phase` is what each does, `children` are the workers
      that run, and `spawned` the one child an attempt ever had. */
  datatype World = World(
    db: Tables,
    alive: set<nat>, phase: map<nat, Phase>,
    children: set<nat>, spawned: map<nat, nat>, nextChild: nat,
    seen: set<LeaseRead>, decided: set<Decisions>)

  datatype Action =
    | Begin(owner: nat, job: nat, revision: nat)
    | Spawn(owner: nat)
    | SpawnFails(owner: nat)
    | FailureUnreported(owner: nat)
    | Confirm(owner: nat)
    | Poll(owner: nat)
    | Finish(owner: nat, ending: Ending)
    | GiveUp(owner: nat, flagged: bool)
    | OwnerStarts(owner: nat)
    | OwnerCrashes(owner: nat)
    | ChildExits(child: nat)
    | ReadLease
    | Judge(read: LeaseRead, ownerSeen: R.Observation, childSeen: R.Observation)
    | CommitRecovery(decisions: Decisions)
    | Other(command: Command)

  function LaunchOf(l: Launch): R.LaunchState {
    match l
    case Intended => R.Intended
    case Confirmed => R.Confirmed
    case LaunchFailed => R.Failed
  }

  function DecisionOn(read: LeaseRead, owner: R.Observation, child: R.Observation): R.Decision {
    R.Decide(R.SafeCheck(owner), LaunchOf(read.launch), if read.child.Some? then Some(R.SafeCheck(child)) else None)
  }

  /** Commands that neither give nor take the slot: everything but begin, launch reports, finish,
      recovery, and ending an active job with its fencing token. */
  predicate Bystander(c: Command) {
    && !c.BeginAttempt? && !c.RecordLaunch? && !c.FinishAttempt? && !c.Recover?
    && (c.Transition? ==> c.token.None?)
  }

  function PhaseOf(w: World, owner: nat): Phase {
    if owner in w.phase then w.phase[owner] else Idle
  }

  /** One step. An honest verifier says gone only of a process that does not run. */
  ghost predicate Next(w: World, a: Action, x: World)
    requires Inv(w.db)
  {
    match a
    case Begin(owner, job, revision) =>
      var r := BeginResult(w.db, job, revision, owner);
      && owner in w.alive && PhaseOf(w, owner).Idle?
      && x == w.(db := r.0, phase := w.phase[owner := if r.1.Granted? then Holding(Lease(job, r.1.attempt, r.1.fence)) else Idle])
    case Spawn(owner) =>
      && owner in w.alive && PhaseOf(w, owner).Holding?
      && x == w.(children := w.children + {w.nextChild}, spawned := w.spawned[PhaseOf(w, owner).lease.attempt := w.nextChild],
                 nextChild := w.nextChild + 1, phase := w.phase[owner := Spawned(PhaseOf(w, owner).lease, w.nextChild)])
    case SpawnFails(owner) =>
      && owner in w.alive && PhaseOf(w, owner).Holding?
      && var l := PhaseOf(w, owner).lease;
         x == w.(db := RecordLaunchResult(w.db, l.operation, l.fence, None).0, phase := w.phase[owner := Checked(l)])
    case FailureUnreported(owner) =>
      && owner in w.alive && PhaseOf(w, owner).Holding?
      && x == w.(phase := w.phase[owner := Checked(PhaseOf(w, owner).lease)])
    case Confirm(owner) =>
      && owner in w.alive && PhaseOf(w, owner).Spawned?
      && var l := PhaseOf(w, owner).lease;
         x == w.(db := RecordLaunchResult(w.db, l.operation, l.fence, Some(PhaseOf(w, owner).child)).0)
    case Poll(owner) =>
      && owner in w.alive && PhaseOf(w, owner).Spawned? && PhaseOf(w, owner).child !in w.children
      && x == w.(phase := w.phase[owner := Checked(PhaseOf(w, owner).lease)])
    case Finish(owner, ending) =>
      && owner in w.alive && PhaseOf(w, owner).Checked?
      && var l := PhaseOf(w, owner).lease;
         x == w.(db := FinishResult(w.db, l.operation, l.fence, ending, ending.Success?).0, phase := w.phase[owner := Idle])
    case GiveUp(owner, flagged) =>
      && owner in w.alive && !PhaseOf(w, owner).Idle?
      && var l := PhaseOf(w, owner).lease;
         x == w.(db := if flagged then FlagResult(w.db, l.operation, l.fence).0 else w.db, phase := w.phase[owner := Idle])
    case OwnerStarts(owner) => owner !in w.phase && x == w.(alive := w.alive + {owner}, phase := w.phase[owner := Idle])
    case OwnerCrashes(owner) => x == w.(alive := w.alive - {owner})
    case ChildExits(child) => x == w.(children := w.children - {child})
    case ReadLease =>
      && w.db.lease.Some? && w.db.lease.value.attempt in w.db.attempts
      && var l, t := w.db.lease.value, w.db.attempts[w.db.lease.value.attempt];
         x == w.(seen := w.seen + {LeaseRead(l.operation, l.attempt, l.fence, t.launch, t.owner, t.child)})
    case Judge(read, owner, child) =>
      && read in w.seen
      && (owner == R.Reports(R.Gone) ==> read.owner !in w.alive)
      && (child == R.Reports(R.Gone) && read.child.Some? ==> read.child.value !in w.children)
      && x == w.(decided := w.decided + {map[(read.operation, read.fence) := DecisionOn(read, owner, child)]})
    case CommitRecovery(decisions) => (decisions == map[] || decisions in w.decided) && x == w.(db := RecoverResult(w.db, decisions).0)
    case Other(c) => Bystander(c) && x == w.(db := Execute(w.db, c).0)
  }

  // ---------------------------------------------------------------- commands and the lease

  lemma EndedWaitingSameSlot(db: Tables, id: nat)
    requires Inv(db) && id in db.operations && Waiting(db.operations[id].status)
    ensures SameSlot(db, Ended(db, id, Cancelled, Released))
  {
    assert OperationOk(db, id);
    FinalStatuses(db.operations[id].status);
  }

  lemma BystanderSameSlot(db: Tables, c: Command)
    requires Inv(db) && Bystander(c)
    ensures SameSlot(db, Execute(db, c).0)
  {
    PlainSameSlot(db, c);
  }

  lemma PlainSameSlot(db: Tables, c: Command)
    requires Inv(db) && Bystander(c)
    ensures SameSlot(db, Plain(db, c).0)
  {
    match c
    case AcceptBatch(_, _, snapshots, _) => InsertAllKeeps(db, snapshots, |snapshots|);
    case CancelJob(job, _, _) => if job in db.operations && Waiting(db.operations[job].status) { EndedWaitingSameSlot(db, job); }
    case Transition(operation, revision, target, reason, _, _) => TransitionSameSlot(db, operation, revision, target, reason);
    case _ =>
  }

  lemma TransitionSameSlot(db: Tables, id: nat, revision: nat, target: Status, reason: Reason)
    requires Inv(db)
    ensures SameSlot(db, TransitionResult(db, id, revision, target, reason, None).0)
  {
    if TransitionError(db, id, revision, target, None).None? { ChangeSameSlot(db, id, target); }
  }

  lemma ChangeSameSlot(db: Tables, id: nat, target: Status)
    requires Inv(db) && id in db.operations && target in Allowed(db.operations[id].status)
    requires target.Cancelling? || !Active(db.operations[id].status)
    requires Waiting(db.operations[id].status) && !target.Cancelled? ==> id in db.items
    ensures SameSlot(db, TransitionChange(db, id, target))
  {
    FinalStatuses(db.operations[id].status);
    if Waiting(db.operations[id].status) { EndedWaitingSameSlot(db, id); }
  }

  // ---------------------------------------------------------------- what every step keeps

  /** A running child is the one the lease's attempt spawned. */
  ghost predicate ChildOk(w: World, child: nat) {
    child in w.children ==>
      && child < w.nextChild && w.db.lease.Some?
      && w.db.lease.value.attempt in w.spawned && w.spawned[w.db.lease.value.attempt] == child
  }

  /** A running dispatcher with a grant holds the lease, and knows what it spawned. */
  ghost predicate OwnerOk(w: World, owner: nat) {
    owner in w.alive ==>
      && owner in w.phase
      && (!w.phase[owner].Idle? ==>
            var l := w.phase[owner].lease;
            && w.db.lease == Some(l) && l.attempt in w.db.attempts && w.db.attempts[l.attempt].owner == owner
            && match w.phase[owner]
               case Holding(_) => l.attempt !in w.spawned && w.db.attempts[l.attempt].launch.Intended?
               case Spawned(_, child) => l.attempt in w.spawned && w.spawned[l.attempt] == child && !w.db.attempts[l.attempt].launch.LaunchFailed?
               case Checked(_) => l.attempt in w.spawned ==> w.spawned[l.attempt] !in w.children)
  }

  /** What the journal says about an attempt's launch is true. */
  ghost predicate AttemptOk(w: World, a: nat) {
    && (a in w.spawned ==> a in w.db.attempts && w.spawned[a] < w.nextChild)
    && (a in w.db.attempts ==>
          var t := w.db.attempts[a];
          && a < w.db.nextId && t.fence <= w.db.fences && t.owner in w.phase
          && (t.launch.LaunchFailed? ==> a !in w.spawned)
          && (t.launch.Confirmed? ==> a in w.spawned && t.child == Some(w.spawned[a])))
  }

  ghost predicate SameFence(db: Tables, a: nat, b: nat)
    requires a in db.attempts && b in db.attempts
  {
    db.attempts[a].fence == db.attempts[b].fence
  }

  ghost predicate FencesDistinct(db: Tables) {
    forall a, b {:trigger SameFence(db, a, b)} | a in db.attempts && b in db.attempts && a != b :: !SameFence(db, a, b)
  }

  /** A read row is still right about what it says for certain. */
  ghost predicate ReadOk(w: World, r: LeaseRead) {
    && r.attempt in w.db.attempts
    && var t := w.db.attempts[r.attempt];
       && t.operation == r.operation && t.fence == r.fence && t.owner == r.owner
       && (r.launch.LaunchFailed? ==> t.launch.LaunchFailed?)
       && (r.launch.Confirmed? ==> t.launch.Confirmed? && t.child == r.child)
  }

  /** Nothing of this attempt runs or will run. */
  ghost predicate Over(w: World, a: nat)
    requires a in w.db.attempts
  {
    && w.db.attempts[a].owner in w.phase && w.db.attempts[a].owner !in w.alive
    && (a in w.spawned ==> w.spawned[a] !in w.children)
  }

  predicate Interrupts(d: Decisions, operation: nat, fence: nat) {
    (operation, fence) in d && d[(operation, fence)].Interrupt?
  }

  /** An interruption was decided only about attempts that are over. */
  ghost predicate DecisionOk(w: World, d: Decisions) {
    && (forall k | k in d :: k.1 <= w.db.fences)
    && forall a {:trigger Over(w, a)} | a in w.db.attempts && Interrupts(d, w.db.attempts[a].operation, w.db.attempts[a].fence) :: Over(w, a)
  }

  ghost predicate Kept(w: World) {
    && Inv(w.db)
    && (forall c {:trigger ChildOk(w, c)} :: ChildOk(w, c))
    && (forall o {:trigger OwnerOk(w, o)} :: OwnerOk(w, o))
    && (forall a {:trigger AttemptOk(w, a)} :: AttemptOk(w, a))
    && FencesDistinct(w.db)
    && (forall r {:trigger ReadOk(w, r)} | r in w.seen :: ReadOk(w, r))
    && (forall d {:trigger DecisionOk(w, d)} | d in w.decided :: DecisionOk(w, d))
  }

  /** A step that leaves lease, attempts, processes and recoveries alone. */
  lemma SameSlotKeeps(w: World, x: World)
    requires Kept(w) && Inv(x.db) && SameSlot(w.db, x.db)
    requires x == w.(db := x.db)
    ensures Kept(x)
  {
    forall c ensures ChildOk(x, c) { assert ChildOk(w, c); }
    forall o ensures OwnerOk(x, o) { assert OwnerOk(w, o); }
    forall a ensures AttemptOk(x, a) { assert AttemptOk(w, a); }
    forall a, b | a in x.db.attempts && b in x.db.attempts && a != b ensures !SameFence(x.db, a, b) { assert !SameFence(w.db, a, b); }
    forall r | r in x.seen ensures ReadOk(x, r) { assert ReadOk(w, r); }
    forall d | d in x.decided ensures DecisionOk(x, d) {
      assert DecisionOk(w, d);
      forall a | a in x.db.attempts && Interrupts(d, x.db.attempts[a].operation, x.db.attempts[a].fence) ensures Over(x, a) {
        assert Over(w, a);
      }
    }
  }

  /** The slot is given up when its attempt is over for everyone but its dispatcher, who is idle. */
  lemma ReleaseKeeps(w: World, x: World, a: nat, state: AttemptState)
    requires Kept(w) && Inv(x.db) && w.db.lease.Some? && a == w.db.lease.value.attempt && a in w.db.attempts
    requires x.db.lease.None? && x.db.attempts == w.db.attempts[a := w.db.attempts[a].(state := state)]
    requires x.db.fences == w.db.fences && x.db.nextId == w.db.nextId
    requires x == w.(db := x.db, phase := x.phase) && x.phase.Keys == w.phase.Keys
    requires forall o | o in w.phase :: x.phase[o] == w.phase[o] || x.phase[o].Idle?
    requires a in w.spawned ==> w.spawned[a] !in w.children
    requires forall o | o in w.alive && o in w.phase && !x.phase[o].Idle? :: w.db.attempts[a].owner != o
    ensures Kept(x) && x.children == {}
  {
    forall c ensures c !in x.children { assert ChildOk(w, c); }
    forall o ensures OwnerOk(x, o) { assert OwnerOk(w, o); }
    forall b ensures AttemptOk(x, b) { assert AttemptOk(w, b); }
    forall b, c | b in x.db.attempts && c in x.db.attempts && b != c ensures !SameFence(x.db, b, c) { assert !SameFence(w.db, b, c); }
    forall r | r in x.seen ensures ReadOk(x, r) { assert ReadOk(w, r); }
    forall d | d in x.decided ensures DecisionOk(x, d) {
      assert DecisionOk(w, d);
      forall b | b in x.db.attempts && Interrupts(d, x.db.attempts[b].operation, x.db.attempts[b].fence) ensures Over(x, b) {
        assert Over(w, b);
      }
    }
  }

  // ---------------------------------------------------------------- the steps

  lemma BeginStep(w: World, owner: nat, job: nat, revision: nat, x: World)
    requires Kept(w) && Next(w, Begin(owner, job, revision), x)
    ensures Kept(x)
  {
    var r := BeginResult(w.db, job, revision, owner);
    BeginKeeps(w.db, job, revision, owner);
    assert OwnerOk(w, owner);
    if r.1.Granted? {
      var a := r.1.attempt;
      assert x.db.attempts == w.db.attempts[a := Attempt(job, r.1.fence, owner, Intended, None, Live)];
      assert AttemptOk(w, a);
      forall c ensures ChildOk(x, c) { assert ChildOk(w, c); }
      forall o ensures OwnerOk(x, o) { assert OwnerOk(w, o); }
      forall b ensures AttemptOk(x, b) { assert AttemptOk(w, b); }
      forall b, c | b in x.db.attempts && c in x.db.attempts && b != c ensures !SameFence(x.db, b, c) {
        assert AttemptOk(w, b) && AttemptOk(w, c);
        if b != a && c != a { assert !SameFence(w.db, b, c); }
      }
      forall read | read in x.seen ensures ReadOk(x, read) { assert ReadOk(w, read); }
      forall d | d in w.decided ensures !Interrupts(d, job, r.1.fence) { assert DecisionOk(w, d); }
      BeginDecisions(w, x, a);
    } else {
      assert x == w.(phase := w.phase[owner := Idle]);
      forall o ensures OwnerOk(x, o) { assert OwnerOk(w, o); }
      PhaseKeeps(w, x);
    }
  }

  lemma BeginDecisions(w: World, x: World, a: nat)
    requires Kept(w) && x.decided == w.decided && x.alive == w.alive && x.spawned == w.spawned && x.children == w.children
    requires x.db.fences >= w.db.fences && forall o | o in w.phase :: o in x.phase
    requires a !in w.db.attempts && a in x.db.attempts && x.db.attempts == w.db.attempts[a := x.db.attempts[a]]
    requires forall d | d in w.decided :: !Interrupts(d, x.db.attempts[a].operation, x.db.attempts[a].fence)
    ensures forall d | d in x.decided :: DecisionOk(x, d)
  {
    forall d | d in x.decided ensures DecisionOk(x, d) {
      assert DecisionOk(w, d);
      forall b | b in x.db.attempts && Interrupts(d, x.db.attempts[b].operation, x.db.attempts[b].fence) ensures Over(x, b) {
        assert b != a && Over(w, b);
      }
    }
  }

  /** Only phases change, and only in ways that keep each of them right. */
  lemma PhaseKeeps(w: World, x: World)
    requires Kept(w) && x == w.(phase := x.phase) && x.phase.Keys >= w.phase.Keys
    requires forall o :: OwnerOk(x, o)
    ensures Kept(x)
  {
    forall c ensures ChildOk(x, c) { assert ChildOk(w, c); }
    forall b ensures AttemptOk(x, b) { assert AttemptOk(w, b); }
    forall read | read in x.seen ensures ReadOk(x, read) { assert ReadOk(w, read); }
    forall d | d in x.decided ensures DecisionOk(x, d) {
      assert DecisionOk(w, d);
      forall b | b in x.db.attempts && Interrupts(d, x.db.attempts[b].operation, x.db.attempts[b].fence) ensures Over(x, b) { assert Over(w, b); }
    }
  }

  lemma SpawnStep(w: World, owner: nat, x: World)
    requires Kept(w) && Next(w, Spawn(owner), x)
    ensures Kept(x)
  {
    assert OwnerOk(w, owner);
    var a := w.phase[owner].lease.attempt;
    forall c ensures ChildOk(x, c) { assert ChildOk(w, c); }
    forall o ensures OwnerOk(x, o) { assert OwnerOk(w, o); }
    forall b ensures AttemptOk(x, b) { assert AttemptOk(w, b); }
    forall read | read in x.seen ensures ReadOk(x, read) { assert ReadOk(w, read); }
    forall d | d in x.decided ensures DecisionOk(x, d) {
      assert DecisionOk(w, d);
      forall b | b in x.db.attempts && Interrupts(d, x.db.attempts[b].operation, x.db.attempts[b].fence) ensures Over(x, b) {
        assert Over(w, b) && AttemptOk(w, b);
      }
    }
  }

  /** A launch report of the dispatcher that holds the grant. */
  lemma LaunchStep(w: World, owner: nat, child: Option<nat>, x: World)
    requires Kept(w) && owner in w.alive && !PhaseOf(w, owner).Idle?
    requires var l := PhaseOf(w, owner).lease;
             x == w.(db := RecordLaunchResult(w.db, l.operation, l.fence, child).0, phase := x.phase)
    requires if child.Some? then PhaseOf(w, owner) == Spawned(PhaseOf(w, owner).lease, child.value) && x.phase == w.phase
             else PhaseOf(w, owner).Holding? && x.phase == w.phase[owner := Checked(PhaseOf(w, owner).lease)]
    ensures Kept(x)
  {
    assert OwnerOk(w, owner);
    var l := w.phase[owner].lease;
    LaunchKeeps(w.db, l.operation, l.fence, child);
    LaunchEffect(w.db, l, child);
    var a := l.attempt;
    assert AttemptOk(w, a);
    forall c ensures ChildOk(x, c) { assert ChildOk(w, c); }
    forall o ensures OwnerOk(x, o) { assert OwnerOk(w, o); }
    forall b ensures AttemptOk(x, b) { assert AttemptOk(w, b); }
    forall b, c | b in x.db.attempts && c in x.db.attempts && b != c ensures !SameFence(x.db, b, c) { assert !SameFence(w.db, b, c); }
    forall read | read in x.seen ensures ReadOk(x, read) { assert ReadOk(w, read); }
    SameAttemptsDecided(w, x);
  }

  lemma LaunchEffect(db: Tables, l: Lease, child: Option<nat>)
    requires Inv(db) && db.lease == Some(l)
    ensures var e := RecordLaunchResult(db, l.operation, l.fence, child).0;
            && e.lease == db.lease && e.fences == db.fences && e.nextId == db.nextId
            && e.attempts == if db.attempts[l.attempt].launch.Intended?
                             then db.attempts[l.attempt := db.attempts[l.attempt].(launch := if child.Some? then Confirmed else LaunchFailed, child := child)]
                             else db.attempts
  {
    assert OperationOk(db, l.operation);
  }

  /** Decisions stay right while attempts keep operation, fence and owner, and processes end. */
  lemma SameAttemptsDecided(w: World, x: World)
    requires Kept(w) && x.decided == w.decided && x.alive <= w.alive && x.children <= w.children && x.spawned == w.spawned
    requires x.db.fences == w.db.fences && x.db.attempts.Keys == w.db.attempts.Keys && x.phase.Keys == w.phase.Keys
    requires forall a | a in w.db.attempts ::
               x.db.attempts[a].operation == w.db.attempts[a].operation && x.db.attempts[a].fence == w.db.attempts[a].fence
               && x.db.attempts[a].owner == w.db.attempts[a].owner
    ensures forall d | d in x.decided :: DecisionOk(x, d)
  {
    forall d | d in x.decided ensures DecisionOk(x, d) {
      assert DecisionOk(w, d);
      forall b | b in x.db.attempts && Interrupts(d, x.db.attempts[b].operation, x.db.attempts[b].fence) ensures Over(x, b) { assert Over(w, b); }
    }
  }

  /** The failure to spawn is not committed; the dispatcher goes on all the same. */
  lemma UnreportedStep(w: World, owner: nat, x: World)
    requires Kept(w) && Next(w, FailureUnreported(owner), x)
    ensures Kept(x)
  {
    forall o ensures OwnerOk(x, o) { assert OwnerOk(w, o); }
    PhaseKeeps(w, x);
  }

  lemma PollStep(w: World, owner: nat, x: World)
    requires Kept(w) && Next(w, Poll(owner), x)
    ensures Kept(x)
  {
    forall o ensures OwnerOk(x, o) { assert OwnerOk(w, o); }
    PhaseKeeps(w, x);
  }

  lemma FinishStep(w: World, owner: nat, ending: Ending, x: World)
    requires Kept(w) && Next(w, Finish(owner, ending), x)
    ensures Kept(x) && (x.db.lease.None? ==> x.children == {})
  {
    assert OwnerOk(w, owner);
    var l := w.phase[owner].lease;
    FinishKeeps(w.db, l.operation, l.fence, ending, ending.Success?);
    FinishEffect(w.db, l, ending);
    if x.db.lease.None? {
      forall o | o in w.alive && o in w.phase && !x.phase[o].Idle? ensures w.db.attempts[l.attempt].owner != o { assert OwnerOk(w, o); }
      ReleaseKeeps(w, x, l.attempt, Released);
    } else {
      forall o ensures OwnerOk(x, o) { assert OwnerOk(w, o); }
      PhaseKeeps(w, x);
    }
  }

  lemma FinishEffect(db: Tables, l: Lease, ending: Ending)
    requires Inv(db) && db.lease == Some(l)
    ensures var e := FinishResult(db, l.operation, l.fence, ending, ending.Success?).0;
            e == db || (e.lease.None? && e.attempts == db.attempts[l.attempt := db.attempts[l.attempt].(state := Released)]
                        && e.fences == db.fences && e.nextId == db.nextId)
  {
  }

  lemma GiveUpStep(w: World, owner: nat, flagged: bool, x: World)
    requires Kept(w) && Next(w, GiveUp(owner, flagged), x)
    ensures Kept(x)
  {
    var l := PhaseOf(w, owner).lease;
    var y := w.(db := x.db);
    if flagged {
      FlagKeeps(w.db, l.operation, l.fence);
    }
    SameSlotKeeps(w, y);
    forall o ensures OwnerOk(x, o) { assert OwnerOk(y, o); }
    PhaseKeeps(y, x);
  }

  /** Processes start and end. */
  lemma ProcessStep(w: World, a: Action, x: World)
    requires Kept(w) && Next(w, a, x) && (a.OwnerStarts? || a.OwnerCrashes? || a.ChildExits?)
    ensures Kept(x)
  {
    forall c ensures ChildOk(x, c) { assert ChildOk(w, c); }
    forall o ensures OwnerOk(x, o) { assert OwnerOk(w, o); }
    forall b ensures AttemptOk(x, b) { assert AttemptOk(w, b); }
    forall read | read in x.seen ensures ReadOk(x, read) { assert ReadOk(w, read); }
    forall d | d in x.decided ensures DecisionOk(x, d) {
      assert DecisionOk(w, d);
      forall b | b in x.db.attempts && Interrupts(d, x.db.attempts[b].operation, x.db.attempts[b].fence) ensures Over(x, b) { assert Over(w, b); }
    }
  }

  lemma ReadStep(w: World, x: World)
    requires Kept(w) && Next(w, ReadLease, x)
    ensures Kept(x)
  {
    forall c ensures ChildOk(x, c) { assert ChildOk(w, c); }
    forall o ensures OwnerOk(x, o) { assert OwnerOk(w, o); }
    forall b ensures AttemptOk(x, b) { assert AttemptOk(w, b); }
    forall read | read in x.seen ensures ReadOk(x, read) { if read in w.seen { assert ReadOk(w, read); } }
    SameAttemptsDecided(w, x);
  }

  /** An honest verifier and the decision rule interrupt only attempts that are over. */
  lemma JudgeStep(w: World, read: LeaseRead, owner: R.Observation, child: R.Observation, x: World)
    requires Kept(w) && Next(w, Judge(read, owner, child), x)
    ensures Kept(x)
  {
    assert ReadOk(w, read);
    var a := read.attempt;
    assert AttemptOk(w, a);
    var d0: Decisions := map[(read.operation, read.fence) := DecisionOn(read, owner, child)];
    R.InterruptsOnEvidenceOnly(owner, LaunchOf(read.launch), if read.child.Some? then Some(child) else None);
    forall c ensures ChildOk(x, c) { assert ChildOk(w, c); }
    forall o ensures OwnerOk(x, o) { assert OwnerOk(w, o); }
    forall b ensures AttemptOk(x, b) { assert AttemptOk(w, b); }
    forall r | r in x.seen ensures ReadOk(x, r) { assert ReadOk(w, r); }
    forall d | d in x.decided ensures DecisionOk(x, d) {
      if d == d0 {
        forall b | b in x.db.attempts && Interrupts(d, x.db.attempts[b].operation, x.db.attempts[b].fence) ensures Over(x, b) {
          assert b != a ==> !SameFence(w.db, a, b);
          assert b == a;
        }
      } else {
        assert DecisionOk(w, d);
        forall b | b in x.db.attempts && Interrupts(d, x.db.attempts[b].operation, x.db.attempts[b].fence) ensures Over(x, b) { assert Over(w, b); }
      }
    }
  }

  lemma RecoverEffect(db: Tables, decisions: Decisions)
    requires Inv(db)
    ensures var e := RecoverResult(db, decisions).0;
            && e.fences == db.fences && e.nextId == db.nextId
            && (if db.lease.Some? && Interrupts(decisions, db.lease.value.operation, db.lease.value.fence)
                then e.lease.None? && e.attempts == db.attempts[db.lease.value.attempt := db.attempts[db.lease.value.attempt].(state := Lost)]
                else e.lease == db.lease && e.attempts == db.attempts)
  {
    HoldAllKeeps(db);
  }

  lemma RecoverStep(w: World, decisions: Decisions, x: World)
    requires Kept(w) && Next(w, CommitRecovery(decisions), x)
    ensures Kept(x) && (w.db.lease.Some? && x.db.lease.None? ==> x.children == {})
  {
    RecoverKeeps(w.db, decisions);
    RecoverEffect(w.db, decisions);
    assert decisions == map[] || DecisionOk(w, decisions);
    if w.db.lease.Some? && x.db.lease.None? {
      var a := w.db.lease.value.attempt;
      assert Over(w, a);
      ReleaseKeeps(w, x, a, Lost);
    } else {
      SameSlotKeeps(w, x);
    }
  }

  lemma NextKeeps(w: World, a: Action, x: World)
    requires Kept(w) && Next(w, a, x)
    ensures Kept(x) && (w.db.lease.Some? && x.db.lease.None? ==> x.children == {})
  {
    match a
    case Begin(owner, job, revision) => BeginStep(w, owner, job, revision, x); BeginNeverFrees(w.db, job, revision, owner);
    case Spawn(owner) => SpawnStep(w, owner, x);
    case SpawnFails(owner) => LaunchStep(w, owner, None, x); OwnerLease(w, owner); LaunchEffect(w.db, PhaseOf(w, owner).lease, None);
    case FailureUnreported(owner) => UnreportedStep(w, owner, x);
    case Confirm(owner) =>
      LaunchStep(w, owner, Some(PhaseOf(w, owner).child), x);
      OwnerLease(w, owner);
      LaunchEffect(w.db, PhaseOf(w, owner).lease, Some(PhaseOf(w, owner).child));
    case Poll(owner) => PollStep(w, owner, x);
    case Finish(owner, ending) => FinishStep(w, owner, ending, x);
    case GiveUp(owner, flagged) => GiveUpStep(w, owner, flagged, x);
    case OwnerStarts(_) => ProcessStep(w, a, x);
    case OwnerCrashes(_) => ProcessStep(w, a, x);
    case ChildExits(_) => ProcessStep(w, a, x);
    case ReadLease => ReadStep(w, x);
    case Judge(read, owner, child) => JudgeStep(w, read, owner, child, x);
    case CommitRecovery(decisions) => RecoverStep(w, decisions, x);
    case Other(c) => CommandKeeps(w.db, c); BystanderSameSlot(w.db, c); SameSlotKeeps(w, x);
  }

  lemma OwnerLease(w: World, owner: nat)
    requires Kept(w) && owner in w.alive && !PhaseOf(w, owner).Idle?
    ensures w.db.lease == Some(PhaseOf(w, owner).lease)
  {
    assert OwnerOk(w, owner);
  }

  lemma BeginNeverFrees(db: Tables, id: nat, revision: nat, owner: nat)
    ensures db.lease.Some? ==> BeginResult(db, id, revision, owner).0.lease.Some?
  {
  }

  // ---------------------------------------------------------------- whole runs

  function Start(): World {
    World(Tables(map[], map[], None, map[], map[], true, 1, 0, 0, 0, map[]), {}, map[], {}, map[], 0, {}, {})
  }

  ghost predicate Linked(w: World, a: Action, x: World) {
    Inv(w.db) && Next(w, a, x)
  }

  ghost predicate Run(worlds: seq<World>, actions: seq<Action>) {
    && |worlds| == |actions| + 1 && worlds[0] == Start()
    && forall i {:trigger Linked(worlds[i], actions[i], worlds[i + 1])} | 0 <= i < |actions| :: Linked(worlds[i], actions[i], worlds[i + 1])
  }

  lemma LinkedAt(worlds: seq<World>, actions: seq<Action>, i: nat)
    requires Run(worlds, actions) && i < |actions|
    ensures Linked(worlds[i], actions[i], worlds[i + 1])
  {
    assert Linked(worlds[i], actions[i], worlds[i + 1]);
  }

  lemma StartKept()
    ensures Kept(Start())
  {
    forall id ensures OperationOk(Start().db, id) { }
  }

  lemma {:induction false} RunKeeps(worlds: seq<World>, actions: seq<Action>, n: nat)
    requires Run(worlds, actions) && n < |worlds|
    ensures Kept(worlds[n])
  {
    if n == 0 {
      StartKept();
    } else {
      RunKeeps(worlds, actions, n - 1);
      LinkedAt(worlds, actions, n - 1);
      NextKeeps(worlds[n - 1], actions[n - 1], worlds[n]);
    }
  }

  /** Whatever crashes, exits, reports and recoveries interleave: there are never two running
      workers, and a running worker belongs to the attempt that holds the lease of an active job. */
  lemma AtMostOneWorker(worlds: seq<World>, actions: seq<Action>, n: nat)
    requires Run(worlds, actions) && n < |worlds|
    ensures forall c, d | c in worlds[n].children && d in worlds[n].children :: c == d
    ensures worlds[n].children != {} ==>
              var db := worlds[n].db;
              db.lease.Some? && db.lease.value.operation in db.operations && Active(db.operations[db.lease.value.operation].status)
  {
    RunKeeps(worlds, actions, n);
    var w := worlds[n];
    forall c, d | c in w.children && d in w.children ensures c == d { assert ChildOk(w, c) && ChildOk(w, d); }
    if w.children != {} {
      var c :| c in w.children;
      assert ChildOk(w, c) && OperationOk(w.db, w.db.lease.value.operation);
    }
  }

  /** The slot is given up only when no worker runs. */
  lemma SlotFreedOnlyWhenEmpty(worlds: seq<World>, actions: seq<Action>, i: nat)
    requires Run(worlds, actions) && i < |actions| && worlds[i].db.lease.Some? && worlds[i + 1].db.lease.None?
    ensures worlds[i + 1].children == {}
  {
    RunKeeps(worlds, actions, i);
    LinkedAt(worlds, actions, i);
    NextKeeps(worlds[i], actions[i], worlds[i + 1]);
  }

  // ---------------------------------------------------------------- the slot is not lost

  /** From every reachable world a running dispatcher whose worker has exited frees the slot in two
      steps, whatever the worker's ending: it polls and finishes. */
  lemma DispatcherCanFinish(w: World, owner: nat, ending: Ending) returns (polled: World, finished: World)
    requires Kept(w) && owner in w.alive && PhaseOf(w, owner).Spawned? && PhaseOf(w, owner).child !in w.children
    ensures Next(w, Poll(owner), polled) && Kept(polled) && Next(polled, Finish(owner, ending), finished) && Kept(finished)
    ensures finished.db.lease.None? && PhaseOf(finished, owner).Idle?
    ensures var l := PhaseOf(w, owner).lease; finished.db == FinishResult(w.db, l.operation, l.fence, ending, ending.Success?).0
  {
    OwnerLease(w, owner);
    var l := PhaseOf(w, owner).lease;
    polled := w.(phase := w.phase[owner := Checked(l)]);
    NextKeeps(w, Poll(owner), polled);
    var r := FinishResult(w.db, l.operation, l.fence, ending, ending.Success?);
    E.FinishEffect(w.db, l.operation, l.fence, ending, ending.Success?);
    assert Execute(w.db, FinishAttempt(l.operation, l.fence, ending, ending.Success?)) == r;
    finished := polled.(db := r.0, phase := polled.phase[owner := Idle]);
    NextKeeps(polled, Finish(owner, ending), finished);
  }

  /** What a recovery reads of the lease as it is now. */
  function ReadNow(db: Tables): LeaseRead
    requires db.lease.Some? && db.lease.value.attempt in db.attempts
  {
    var l, t := db.lease.value, db.attempts[db.lease.value.attempt];
    LeaseRead(l.operation, l.attempt, l.fence, t.launch, t.owner, t.child)
  }

  /** An honest look at the lease's processes leads to this decision. */
  ghost predicate HonestlyDecided(w: World, owner: R.Observation, child: R.Observation)
    requires w.db.lease.Some? && w.db.lease.value.attempt in w.db.attempts
  {
    var read := ReadNow(w.db);
    && (owner == R.Reports(R.Gone) ==> read.owner !in w.alive)
    && (child == R.Reports(R.Gone) && read.child.Some? ==> read.child.value !in w.children)
    && DecisionOn(read, owner, child).Interrupt?
  }

  /** A recovery that looks now can free the slot if and only if the dispatcher is gone and either
      its launch is known to have failed or its confirmed worker has exited. A dispatcher that dies
      between its grant and its report leaves a slot that no recovery frees. */
  lemma RecoveryFreesIff(w: World)
    requires Kept(w) && w.db.lease.Some?
    ensures w.db.lease.value.attempt in w.db.attempts
    ensures var t := w.db.attempts[w.db.lease.value.attempt];
            (exists owner, child :: HonestlyDecided(w, owner, child))
            <==> t.owner !in w.alive
                 && (t.launch.LaunchFailed? || (t.launch.Confirmed? && t.child.Some? && t.child.value !in w.children))
  {
    var read := ReadNow(w.db);
    forall owner, child
      ensures DecisionOn(read, owner, child).Interrupt?
         <==> owner == R.Reports(R.Gone)
              && (read.launch.LaunchFailed? || (read.launch.Confirmed? && read.child.Some? && child == R.Reports(R.Gone)))
    {
      R.InterruptsOnEvidenceOnly(owner, LaunchOf(read.launch), if read.child.Some? then Some(child) else None);
    }
    var t := w.db.attempts[w.db.lease.value.attempt];
    if t.owner !in w.alive && (t.launch.LaunchFailed? || (t.launch.Confirmed? && t.child.Some? && t.child.value !in w.children)) {
      var child := if t.launch.LaunchFailed? then R.Raises else R.Reports(R.Gone);
      assert HonestlyDecided(w, R.Reports(R.Gone), child);
    }
  }

  /** Such a recovery reads, judges and commits, and the slot is free. */
  lemma RecoveryFrees(w: World, owner: R.Observation, child: R.Observation) returns (seen: World, judged: World, freed: World)
    requires Kept(w) && w.db.lease.Some? && w.db.lease.value.attempt in w.db.attempts && HonestlyDecided(w, owner, child)
    ensures Next(w, ReadLease, seen) && Kept(seen) && Next(seen, Judge(ReadNow(w.db), owner, child), judged) && Kept(judged)
    ensures exists d :: Next(judged, CommitRecovery(d), freed)
    ensures Kept(freed) && freed.db.lease.None? && freed.children == {}
  {
    var read := ReadNow(w.db);
    var d: Decisions := map[(read.operation, read.fence) := DecisionOn(read, owner, child)];
    seen := w.(seen := w.seen + {read});
    NextKeeps(w, ReadLease, seen);
    judged := seen.(decided := seen.decided + {d});
    NextKeeps(seen, Judge(read, owner, child), judged);
    freed := judged.(db := RecoverResult(judged.db, d).0);
    assert Next(judged, CommitRecovery(d), freed);
    RecoverEffect(judged.db, d);
    assert Interrupts(d, judged.db.lease.value.operation, judged.db.lease.value.fence);
    NextKeeps(judged, CommitRecovery(d), freed);
  }

  lemma OneMoreAction(worlds: seq<World>, actions: seq<Action>, a: Action, x: World)
    requires Run(worlds, actions) && Linked(worlds[|actions|], a, x)
    ensures Run(worlds + [x], actions + [a])
  {
    var longer, more := worlds + [x], actions + [a];
    forall i | 0 <= i < |more| ensures Linked(longer[i], more[i], longer[i + 1]) {
      if i < |actions| { LinkedAt(worlds, actions, i); }
    }
  }

  /** A run up to a running worker. */
  lemma WorkerStarts() returns (worlds: seq<World>, actions: seq<Action>)
    ensures Run(worlds, actions) && Running(worlds[|actions|])
  {
    StartKept();
    var w1, w2 := Batched();
    var w3 := FirstGrant(w2);
    NextKeeps(w2, Begin(0, 0, 1), w3);
    var w4, w5 := Launched(w3);
    NextKeeps(w3, Spawn(0), w4);
    NextKeeps(w4, Confirm(0), w5);
    worlds, actions := Extended([Start()], [], OwnerStarts(0), w1);
    worlds, actions := Extended(worlds, actions, Other(FirstBatch()), w2);
    worlds, actions := Extended(worlds, actions, Begin(0, 0, 1), w3);
    worlds, actions := Extended(worlds, actions, Spawn(0), w4);
    worlds, actions := Extended(worlds, actions, Confirm(0), w5);
  }

  lemma Extended(worlds: seq<World>, actions: seq<Action>, a: Action, x: World) returns (longer: seq<World>, more: seq<Action>)
    requires Run(worlds, actions) && Linked(worlds[|actions|], a, x)
    ensures Run(longer, more) && |more| == |actions| + 1 && longer[|more|] == x
    ensures forall w :: w in longer <==> w in worlds || w == x
  {
    longer, more := worlds + [x], actions + [a];
    OneMoreAction(worlds, actions, a, x);
  }

  /** Job 0 runs in the one worker, of the one dispatcher that runs. */
  ghost predicate Running(w: World) {
    && Kept(w) && w.alive == {0} && w.children == {0}
    && 0 in w.phase && w.phase[0].Spawned? && w.phase[0].child == 0 && w.phase[0].lease.operation == 0
    && 0 in w.db.operations && w.db.operations[0].status.Running? && w.db.results == map[]
  }

  /** One job from its batch to its result: there are runs in which a worker starts, and whose slot
      is free again at the end. */
  lemma OneJobRuns(ending: Ending) returns (worlds: seq<World>, actions: seq<Action>)
    ensures Run(worlds, actions) && exists w :: w in worlds && w.children == {0}
    ensures var db := worlds[|actions|].db;
            && db.lease.None? && 0 in db.operations
            && db.operations[0].status == (if ending.Success? then Succeeded else Failed)
            && (0 in db.results <==> ending.Success?)
  {
    worlds, actions := WorkerStarts();
    var running := worlds[|actions|];
    assert running in worlds;
    var exited, polled, x := Completed(running, ending);
    worlds, actions := Extended(worlds, actions, ChildExits(0), exited);
    worlds, actions := Extended(worlds, actions, Poll(0), polled);
    worlds, actions := Extended(worlds, actions, Finish(0, ending), x);
  }

  /** One job that waits. */
  function FirstBatch(): Command {
    AcceptBatch(Scope(0, 0), 0, [0], None)
  }

  lemma Batched() returns (started: World, x: World)
    ensures Next(Start(), OwnerStarts(0), started) && Kept(started) && Next(started, Other(FirstBatch()), x) && Kept(x)
    ensures x.alive == {0} && x.phase == map[0 := Idle] && x.children == {} && x.nextChild == 0
    ensures x.db.running && x.db.lease.None? && x.db.fences == 0 && x.db.results == map[]
    ensures x.db.operations == map[0 := Operation(Queued, 1, None, Some(0), None)]
    ensures x.db.items == map[0 := Item(Some(1), false, false, false)]
  {
    StartKept();
    started := Start().(alive := {0}, phase := map[0 := Idle]);
    NextKeeps(Start(), OwnerStarts(0), started);
    E.AcceptEffect(started.db, Scope(0, 0), 0, [0], None);
    x := started.(db := Execute(started.db, FirstBatch()).0);
    NextKeeps(started, Other(FirstBatch()), x);
  }

  lemma Completed(w: World, ending: Ending) returns (exited: World, polled: World, x: World)
    requires Running(w)
    ensures Next(w, ChildExits(0), exited) && Kept(exited) && Next(exited, Poll(0), polled) && Kept(polled)
    ensures Next(polled, Finish(0, ending), x)
    ensures x.db.lease.None? && 0 in x.db.operations && x.db.operations[0].status == if ending.Success? then Succeeded else Failed
    ensures 0 in x.db.results <==> ending.Success?
  {
    exited := w.(children := {});
    NextKeeps(w, ChildExits(0), exited);
    OwnerLease(exited, 0);
    polled, x := DispatcherCanFinish(exited, 0, ending);
    FinishedJob(w.db, w.phase[0].lease.fence, ending);
  }

  lemma FinishedJob(db: Tables, fence: nat, ending: Ending)
    requires Inv(db) && db.lease.Some? && db.lease.value.operation == 0 && db.lease.value.fence == fence
    requires 0 in db.operations && db.operations[0].status.Running? && db.results == map[]
    ensures var e := FinishResult(db, 0, fence, ending, ending.Success?).0;
            && 0 in e.operations && e.operations[0].status == (if ending.Success? then Succeeded else Failed)
            && (0 in e.results <==> ending.Success?)
  {
    E.FinishEffect(db, 0, fence, ending, ending.Success?);
    assert Execute(db, FinishAttempt(0, fence, ending, ending.Success?)) == FinishResult(db, 0, fence, ending, ending.Success?);
  }

  lemma FirstGrant(w: World) returns (x: World)
    requires Kept(w) && w.alive == {0} && w.phase == map[0 := Idle] && w.db.running && w.db.lease.None? && w.db.fences == 0
    requires w.db.operations == map[0 := Operation(Queued, 1, None, Some(0), None)]
    requires w.db.items == map[0 := Item(Some(1), false, false, false)]
    ensures Next(w, Begin(0, 0, 1), x) && x == w.(db := x.db, phase := x.phase)
    ensures x.phase == map[0 := Holding(Lease(0, w.db.nextId, 1))] && x.db.lease == Some(Lease(0, w.db.nextId, 1))
    ensures x.db.operations.Keys == {0} && x.db.operations[0].status.Running? && x.db.results == w.db.results
  {
    FirstBegun(w.db);
    var r := BeginResult(w.db, 0, 1, 0);
    x := w.(db := r.0, phase := w.phase[0 := Holding(Lease(0, r.1.attempt, r.1.fence))]);
  }

  lemma FirstBegun(db: Tables)
    requires Inv(db) && db.running && db.lease.None? && db.fences == 0
    requires db.operations == map[0 := Operation(Queued, 1, None, Some(0), None)]
    requires db.items == map[0 := Item(Some(1), false, false, false)]
    ensures var r := BeginResult(db, 0, 1, 0);
            && r.1 == Granted(db.nextId, 1) && r.0.lease == Some(Lease(0, db.nextId, 1)) && r.0.results == db.results
            && r.0.operations.Keys == {0} && r.0.operations[0].status.Running?
  {
    E.BeginEffect(db, 0, 1, 0);
    assert Execute(db, BeginAttempt(0, 1, 0)) == BeginResult(db, 0, 1, 0);
    assert forall other | other in db.items && other != 0 :: E.ComesAfter(db.items, 0, other);
  }

  lemma Launched(w: World) returns (x: World, y: World)
    requires Kept(w) && w.alive == {0} && 0 in w.phase && w.phase[0].Holding? && w.children == {} && w.nextChild == 0
    requires w.db.lease == Some(w.phase[0].lease) && w.phase[0].lease.operation in w.db.operations
    ensures Next(w, Spawn(0), x) && x == w.(children := {0}, spawned := x.spawned, nextChild := 1, phase := x.phase)
    ensures Next(x, Confirm(0), y) && y == x.(db := y.db) && x.phase == w.phase[0 := Spawned(w.phase[0].lease, 0)]
    ensures y.db.lease == w.db.lease && y.db.results == w.db.results && y.db.operations.Keys == w.db.operations.Keys
    ensures y.db.operations[w.phase[0].lease.operation].status == w.db.operations[w.phase[0].lease.operation].status
  {
    var l := w.phase[0].lease;
    assert OwnerOk(w, 0);
    x := w.(children := w.children + {0}, spawned := w.spawned[l.attempt := 0], nextChild := 1, phase := w.phase[0 := Spawned(l, 0)]);
    E.LaunchEffect(w.db, l.operation, l.fence, Some(0));
    var r := RecordLaunchResult(w.db, l.operation, l.fence, Some(0));
    assert Execute(w.db, RecordLaunch(l.operation, l.fence, Some(0))) == r;
    y := x.(db := r.0);
  }
}
