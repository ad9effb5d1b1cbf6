/** What each step of the recovery queue does, no more and no less: confirmations, expiry, dispatch and
    collection. */
module RecoveryExact {
  import opened Common
  import opened Entities
  import opened Cluster
  import opened Scheduler
  import opened Recovery
  import opened RecoveryRuns
  import Leadership

  // ----- Confirmations -------------------------------------------------------------

  /** A confirmation is accepted exactly when the node, the block and the row of that very copy exist. It
      records that copy and no other, keeps when it was planned, and closes the copies of that block
      on their way to that node. */
  lemma ConfirmationIsExact(s: Store, b: Id, n: Id)
    ensures var r := MarkStored(s, b, n);
            && (r.Ok? <==> n in s.nodes && b in s.blocks && (b, n) in s.copies)
            && (r.Err? ==> r == Err(NotFound))
            && (r.Ok? ==>
                  var v := r.value;
                  && v == s.(copies := v.copies, tasks := v.tasks)
                  && v.copies.Keys == s.copies.Keys
                  && v.copies[(b, n)].state == Stored && v.copies[(b, n)].createdAt == s.copies[(b, n)].createdAt
                  && (forall c :: c in s.copies && c != (b, n) ==> v.copies[c] == s.copies[c])
                  && StoredOn(v.copies, b) == StoredOn(s.copies, b) + {n}
                  && (forall a: Id :: a != b ==> StoredOn(v.copies, a) == StoredOn(s.copies, a)))
  {
    var r := MarkStored(s, b, n);
    if r.Ok? {
      forall a: Id ensures StoredOn(r.value.copies, a) == StoredOn(s.copies, a) + (if a == b then {n} else {}) {
        StoredAfter(s.copies, r.value.copies, b, n, a);
      }
    }
  }

  lemma StoredAfter(before: Copies, after: Copies, b: Id, n: Id, a: Id)
    requires after.Keys == before.Keys && (b, n) in before && after[(b, n)].state == Stored
    requires forall c :: c in before && c != (b, n) ==> after[c] == before[c]
    ensures StoredOn(after, a) == StoredOn(before, a) + (if a == b then {n} else {})
  {
    forall m: Id ensures m in StoredOn(after, a) <==> m in StoredOn(before, a) || (a == b && m == n) {
      assert m in StoredOn(after, a) <==> (a, m) in after && after[(a, m)].state == Stored;
      assert m in StoredOn(before, a) <==> (a, m) in before && before[(a, m)].state == Stored;
    }
  }

  /** Which tasks a confirmation closes: the copies of that block in flight to that node. */
  lemma ConfirmationClosesExactly(s: Store, b: Id, n: Id, t: Id)
    requires MarkStored(s, b, n).Ok? && t in s.tasks
    ensures var v := MarkStored(s, b, n).value;
            var closed := s.tasks[t].block == b && s.tasks[t].target == Some(n) && s.tasks[t].state.InFlight?;
            && v.tasks.Keys == s.tasks.Keys
            && (closed ==> v.tasks[t].state.Done? && v.tasks[t].attempts == s.tasks[t].attempts)
            && (!closed ==> v.tasks[t] == s.tasks[t])
  {
  }

  predicate IsStored(s: Store, c: (Id, Id)) { c in s.copies && s.copies[c].state == Stored }

  /** No step of the queue but the confirmation of a copy makes it stored. */
  lemma StoredByConfirmationOnly(s: Store, e: Event, p: Policy, c: (Id, Id))
    requires Inv(s, p) && !IsStored(s, c) && IsStored(Step(s, e, p), c) && !e.Other?
    ensures e == Storing(c.0, c.1)
  {
    match e
    case Scanning(f, th, at) => if Scan(s, f, p, th, at).Ok? { ScanKeepsInv(s, f, p, th, at); }
    case Dispatching(f, th, at) => if Dispatch(s, f, p, th, at).Ok? { DispatchStoresNothing(s, f, p, th, at, c); }
    case Storing(b, n) => ConfirmationIsExact(s, b, n);
    case Discarding(copies, expiresAt) =>
      if forall d :: d in copies ==> d in s.copies { EnqueueDeletesKeepsInv(s, copies, expiresAt, p); }
    case Collected(_) =>
  }

  /** The rows a launch adds are planned ones. */
  lemma {:induction false} LaunchedArePending(s: Store, r: seq<Assignment>, jobs: map<Id, Id>, now: Time, ttl: Time, c: (Id, Id))
    requires c in LaunchAll(s, r, jobs, now, ttl).copies && c !in s.copies
    ensures LaunchAll(s, r, jobs, now, ttl).copies[c] == Copy(Pending, now)
    decreases |r|
  {
    var before := LaunchAll(s, r[..|r| - 1], jobs, now, ttl);
    if c in before.copies { LaunchedArePending(s, r[..|r| - 1], jobs, now, ttl, c); }
  }

  lemma DispatchStoresNothing(s: Store, f: Leadership.Fencing, p: Policy, th: Thresholds, now: Time, c: (Id, Id))
    requires Dispatch(s, f, p, th, now).Ok? && !IsStored(s, c)
    ensures !IsStored(Dispatch(s, f, p, th, now).value.0, c)
  {
    var ready := Prepared(s, p, th, now);
    var r, jobs := Assigned(ready, p, th, now), Jobs(ready.tasks, Queue(ready.tasks));
    LaunchedCopies(ready, r, jobs, now, p.taskTtl);
    if c in LaunchAll(ready, r, jobs, now, p.taskTtl).copies && c !in ready.copies { LaunchedArePending(ready, r, jobs, now, p.taskTtl, c); }
  }

  /** In every run of the queue a copy becomes stored by a confirmation of that very copy, or by what its
      node reports. */
  lemma {:induction false} StoredInRunsByConfirmation(s: Store, events: seq<Event>, p: Policy, c: (Id, Id)) returns (k: nat)
    requires Inv(s, p) && !IsStored(s, c) && IsStored(Run(s, events, p), c)
    ensures k < |events| && (events[k] == Storing(c.0, c.1) || events[k].Other?)
    ensures !IsStored(Run(s, events[..k], p), c) && IsStored(Run(s, events[..k + 1], p), c)
    decreases |events|
  {
    var v := Step(s, events[0], p);
    if IsStored(v, c) {
      k := 0;
      if !events[0].Other? { StoredByConfirmationOnly(s, events[0], p, c); }
      assert events[..0] == [] && events[..1][0] == events[0] && events[..1][1..] == [];
    } else {
      StepKeepsInv(s, events[0], p);
      var j := StoredInRunsByConfirmation(v, events[1..], p, c);
      k := j + 1;
      assert events[..k][1..] == events[1..][..j] && events[..k + 1][1..] == events[1..][..j + 1];
    }
  }

  // ----- Expiry ----------------------------------------------------------------

  /** Exactly the copies in flight whose time has passed are returned to wait, or given up after their
      last attempt; exactly the planned rows they were to fill go. */
  lemma ExpiryIsExact(s: Store, now: Time, maxAttempts: int)
    ensures var v := Expire(s, now, maxAttempts);
            && v == s.(tasks := v.tasks, copies := v.copies) && v.tasks.Keys == s.tasks.Keys
            && (forall t :: t in s.tasks ==>
                  var task := s.tasks[t];
                  var over := task.state.InFlight? && task.expiresAt.Some? && task.expiresAt.value < now;
                  && (!over ==> v.tasks[t] == task)
                  && (over ==> v.tasks[t].attempts == task.attempts && v.tasks[t].block == task.block && v.tasks[t].kind == task.kind)
                  && (over ==> (v.tasks[t].state.Waiting? <==> task.attempts < maxAttempts) && (v.tasks[t].state.Failed? <==> task.attempts >= maxAttempts))
                  && (v.tasks[t].state.Waiting? && over ==> v.tasks[t].target.None? && v.tasks[t].source.None?))
            && (forall c :: c in v.copies ==> c in s.copies && v.copies[c] == s.copies[c])
            && (forall c :: c in s.copies ==>
                  (c !in v.copies <==> s.copies[c].state.Pending? && exists t :: t in s.tasks && IsOverdueTo(s.tasks[t], now, c)))
  {
    var stale := Stale(s.tasks, now);
    var planned := Abandoned(s.tasks, stale);
    forall c: (Id, Id) ensures c in planned <==> exists t :: t in s.tasks && IsOverdueTo(s.tasks[t], now, c) {
      if t :| t in s.tasks && IsOverdueTo(s.tasks[t], now, c) { assert t in stale; }
    }
  }

  /** A task in flight past its time, towards that copy. */
  predicate IsOverdueTo(task: Task, now: Time, c: (Id, Id)) {
    && task.state.InFlight? && task.expiresAt.Some? && task.expiresAt.value < now
    && task.target.Some? && c == (task.block, task.target.value)
  }

  // ----- Dispatch ------------------------------------------------------------

  /** An assignment for the block of a waiting task sends that task. */
  lemma AssignedIsSent(s: Store, p: Policy, th: Thresholds, now: Time, t: Id, i: nat)
    requires Core(s, p) && IsWaitingCopy(s.tasks, t)
    requires i < |Assigned(s, p, th, now)| && Assigned(s, p, th, now)[i].block == s.tasks[t].block
    ensures t in Launched(s, p, th, now).tasks
    ensures Launched(s, p, th, now).tasks[t] == SentTask(s.tasks[t], Assigned(s, p, th, now)[i], now, p.taskTtl)
  {
    var r := Assigned(s, p, th, now);
    var jobs := Jobs(s.tasks, Queue(s.tasks));
    AssignedHaveJobs(s, p, th, now);
    AssignedOncePerBlock(s, p, th, now);
    assert r[i] in r;
    assert jobs[r[i].block] == t by { assert IsWaitingCopy(s.tasks, jobs[r[i].block]); }
    LaunchedTasks(s, r, jobs, now, p.taskTtl, t);
    var j :| 0 <= j < |r| && r[j].block == s.tasks[t].block && Launched(s, p, th, now).tasks[t] == SentTask(s.tasks[t], r[j], now, p.taskTtl);
    SameBlockSamePlace(r, i, j);
  }

  lemma {:induction false} CountedCopies(r: seq<Assignment>, block: Id)
    ensures CopiesOf(r, block) > 0 <==> exists i :: 0 <= i < |r| && r[i].block == block
    decreases |r|
  {
    if r != [] {
      CountedCopies(r[..|r| - 1], block);
      if i :| 0 <= i < |r| && r[i].block == block { assert i < |r| - 1 ==> r[..|r| - 1][i].block == block; }
    }
  }

  /** Why a copy that is needed is not ordered: the pass is full, nobody has the block to copy it from, or
      every live node has it or is as busy as it may be. */
  ghost predicate HasToWait(s: Store, r: seq<Assignment>, b: Id, p: Policy, th: Thresholds, now: Time) {
    || |r| >= p.maxPerPass
    || (forall n: Id :: !Usable(s, b, n, now, th))
    || forall n :: n in s.nodes && StateOfNode(s.nodes[n], now, th).Alive? && !Usable(s, b, n, now, th) ==>
                     |BusyWith(s.tasks, n)| + CountTo(r, n) >= p.maxPerNode
  }

  lemma BusyIsCounted(tasks: Tasks, n: Id)
    ensures LoadOf(InFlightByTarget(tasks), n) == |BusyWith(tasks, n)|
  {
    var targets := set t | t in tasks && tasks[t].state.InFlight? && tasks[t].target.Some? :: tasks[t].target.value;
    if n !in targets { assert BusyWith(tasks, n) == {}; }
  }

  lemma AliveAreCandidates(s: Store, th: Thresholds, now: Time, n: Id)
    requires n in s.nodes && StateOfNode(s.nodes[n], now, th).Alive?
    ensures exists c :: c in Candidates(s, th, now) && c.0 == n
  {
    var ids := set m | m in s.nodes && StateOfNode(s.nodes[m], now, th).Alive?;
    AscendingLists(ids);
    assert n in Ascending(ids);
    var i :| 0 <= i < |Ascending(ids)| && Ascending(ids)[i] == n;
    assert Candidates(s, th, now)[i].0 == n;
  }

  lemma GapIsQueued(s: Store, p: Policy, th: Thresholds, now: Time, t: Id)
    requires IsWaitingCopy(s.tasks, t)
    ensures GapOf(s, s.tasks[t].block, now, th, p.factor) in Gaps(s, Queue(s.tasks), p, th, now)
  {
    AscendingLists(WaitingCopies(s.tasks));
    assert t in Queue(s.tasks);
    var k :| 0 <= k < |Queue(s.tasks)| && Queue(s.tasks)[k] == t;
    assert Gaps(s, Queue(s.tasks), p, th, now)[k] == GapOf(s, s.tasks[t].block, now, th, p.factor);
  }

  /** A live node that is no target for a block nobody was ordered to copy is as busy as it may be. */
  lemma NoTargetIsBusy(s: Store, p: Policy, th: Thresholds, now: Time, gap: Gap, r: seq<Assignment>, n: Id)
    requires NoTarget(gap, r, LimitsOf(s, p, th, now)) && CopiesOf(r, gap.block) == 0 && n !in gap.holders
    requires n in s.nodes && StateOfNode(s.nodes[n], now, th).Alive?
    ensures |BusyWith(s.tasks, n)| + CountTo(r, n) >= p.maxPerNode
  {
    var env := LimitsOf(s, p, th, now);
    AliveAreCandidates(s, th, now, n);
    BusyIsCounted(s.tasks, n);
    LoadsCount(env.inFlight, r, n);
    CountedCopies(r, gap.block);
    assert !Taken(gap, r, n);
  }

  lemma NotAssignedHasToWait(s: Store, p: Policy, th: Thresholds, now: Time, t: Id)
    requires Core(s, p) && IsWaitingCopy(s.tasks, t) && GapOf(s, s.tasks[t].block, now, th, p.factor).Missing() > 0
    requires forall i :: 0 <= i < |Assigned(s, p, th, now)| ==> Assigned(s, p, th, now)[i].block != s.tasks[t].block
    ensures HasToWait(s, Assigned(s, p, th, now), s.tasks[t].block, p, th, now)
  {
    var b := s.tasks[t].block;
    var r := Assigned(s, p, th, now);
    var env := LimitsOf(s, p, th, now);
    var gap := GapOf(s, b, now, th, p.factor);
    GapIsQueued(s, p, th, now, t);
    WorkConserving(Gaps(s, Queue(s.tasks), p, th, now), env, gap);
    CountedCopies(r, b);
    HoldersAreUsable(s, b, now, th, p.factor);
    if |r| < p.maxPerPass && gap.holders != [] {
      forall n | n in s.nodes && StateOfNode(s.nodes[n], now, th).Alive? && !Usable(s, b, n, now, th)
        ensures |BusyWith(s.tasks, n)| + CountTo(r, n) >= p.maxPerNode
      {
        NoTargetIsBusy(s, p, th, now, gap, r, n);
      }
    } else if gap.holders == [] {
      forall n: Id ensures !Usable(s, b, n, now, th) { assert n !in gap.holders; }
    }
  }

  lemma SameGap(s: Store, v: Store, b: Id, now: Time, th: Thresholds, factor: nat)
    requires v == s.(tasks := v.tasks)
    ensures GapOf(v, b, now, th, factor) == GapOf(s, b, now, th, factor)
  {
    forall n: Id ensures Usable(v, b, n, now, th) == Usable(s, b, n, now, th) {}
    assert UsableOn(v, b, now, th) == UsableOn(s, b, now, th);
    forall n: Id ensures DomainOf(v, n) == DomainOf(s, n) {}
  }

  /** The task is on its way as ordered: from there to there, for so long, as one more attempt. */
  predicate IsUnderWay(before: Task, after: Task, a: Assignment, now: Time, ttl: Time) {
    && after.block == before.block && after.kind == before.kind && after.state.InFlight?
    && after.source == Some(a.source) && after.target == Some(a.target)
    && after.attempts == before.attempts + 1 && after.expiresAt == Some(now + ttl)
  }

  /** What a dispatch does to a task. One that is not waiting once the overdue ones are back stays as it
      is; a waiting copy that is no longer needed is closed; one that is needed is sent under the next
      attempt and its deadline, by an order of this dispatch, or stays because it has to wait. */
  lemma DispatchSettlesEveryTask(s: Store, f: Leadership.Fencing, p: Policy, th: Thresholds, now: Time, t: Id)
    requires Inv(s, p) && Dispatch(s, f, p, th, now).Ok? && t in s.tasks
    ensures var (v, r) := Dispatch(s, f, p, th, now).value;
            var back := Expire(s, now, p.maxAttempts);
            && t in v.tasks && t in back.tasks
            && var b := back.tasks[t].block;
               if !IsWaitingCopy(back.tasks, t) then v.tasks[t] == back.tasks[t]
               else if !StillNeeded(back, b, p, th, now) then v.tasks[t] == back.tasks[t].(state := Done)
               else || (v.tasks[t] == back.tasks[t] && HasToWait(Prepared(s, p, th, now), r, b, p, th, now))
                    || exists a :: a in r && a.block == b && IsUnderWay(back.tasks[t], v.tasks[t], a, now, p.taskTtl)
  {
    var ready := Prepared(s, p, th, now);
    PreparedKeepsInv(s, p, th, now);
    LaunchOfTask(ready, p, th, now, t);
    if IsWaitingCopy(ready.tasks, t) {
      var r := Assigned(ready, p, th, now);
      if i :| 0 <= i < |r| && r[i].block == ready.tasks[t].block {
        AssignedIsSent(ready, p, th, now, t, i);
        assert r[i] in r && IsUnderWay(ready.tasks[t], Launched(ready, p, th, now).tasks[t], r[i], now, p.taskTtl);
      } else {
        SameGap(Expire(s, now, p.maxAttempts), ready, ready.tasks[t].block, now, th, p.factor);
        NotAssignedHasToWait(ready, p, th, now, t);
        assert !IsSent(ready.tasks[t], Launched(ready, p, th, now).tasks[t], r, now, p.taskTtl);
      }
    }
  }

  // ----- Scanning ------------------------------------------------------------

  /** A node heard from recently enough not to be dead; one under suspicion counts. */
  predicate IsHeard(s: Store, n: Id, th: Thresholds, now: Time) {
    n in s.nodes && s.nodes[n].lastHeartbeat.Some? && now < s.nodes[n].lastHeartbeat.value + th.deadAfter
  }

  lemma UsableExactly(s: Store, b: Id, n: Id, now: Time, th: Thresholds)
    ensures Usable(s, b, n, now, th) <==> IsStored(s, (b, n)) && IsHeard(s, n, th, now)
  {
  }

  /** The nodes a copy can be read from. */
  function Sources(s: Store, b: Id, th: Thresholds, now: Time): set<Id> { set n | n in StoredOn(s.copies, b) && IsHeard(s, n, th, now) }

  /** The row is a readable copy, or has been none for longer than the grace period. */
  predicate HasAged(s: Store, b: Id, n: Id, p: Policy, th: Thresholds, now: Time)
    requires (b, n) in s.copies
  {
    || (IsStored(s, (b, n)) && IsHeard(s, n, th, now))
    || if s.copies[(b, n)].state == Pending then s.copies[(b, n)].createdAt + p.grace <= now
       else n in s.nodes && s.nodes[n].lastHeartbeat.Some? && s.nodes[n].lastHeartbeat.value + th.deadAfter + p.grace <= now
  }

  /** A block that needs another copy: its file is visible, fewer rows than the factor are stored, fewer than
      that can be read, and whatever is not there has been absent for long enough. */
  ghost predicate NeedsCopy(s: Store, b: Id, p: Policy, th: Thresholds, now: Time) {
    && b in s.blocks && s.blocks[b].file.Some? && s.blocks[b].file.value in s.files && s.files[s.blocks[b].file.value].state.Committed?
    && |StoredOn(s.copies, b)| < p.factor && |Sources(s, b, th, now)| < p.factor
    && forall n: Id :: (b, n) in s.copies ==> HasAged(s, b, n, p, th, now)
  }

  lemma NeedsCopyExactly(s: Store, b: Id, p: Policy, th: Thresholds, now: Time)
    ensures NeedsCopy(s, b, p, th, now) <==> IsShort(s, b, p.factor) && WorthEnqueuing(s, b, p, th, now)
  {
    forall n: Id ensures Usable(s, b, n, now, th) <==> IsStored(s, (b, n)) && IsHeard(s, n, th, now) { UsableExactly(s, b, n, now, th); }
    forall n: Id ensures n in StoredOn(s.copies, b) <==> IsStored(s, (b, n)) {}
    forall n: Id ensures n in UsableOn(s, b, now, th) <==> n in Sources(s, b, th, now) {}
    assert UsableOn(s, b, now, th) == Sources(s, b, th, now);
    AscendingLists(UsableOn(s, b, now, th));
    forall n: Id ensures n in CopiesOn(s.copies, b) <==> (b, n) in s.copies {}
  }

  /** After a scan the blocks with a live task are exactly those that had one and those that need a copy. */
  lemma ScanQueuesExactly(s: Store, f: Leadership.Fencing, p: Policy, th: Thresholds, now: Time, b: Id)
    requires Inv(s, p) && Scan(s, f, p, th, now).Ok?
    ensures HasActiveTask(Scan(s, f, p, th, now).value.tasks, b) <==> HasActiveTask(s.tasks, b) || NeedsCopy(s, b, p, th, now)
  {
    var v := Scan(s, f, p, th, now).value;
    NeedsCopyExactly(s, b, p, th, now);
    ScanKeepsInv(s, f, p, th, now);
    if NeedsCopy(s, b, p, th, now) { ScanMissesNothing(s, f, p, th, now, b); }
    if HasActiveTask(s.tasks, b) { StaysActive(s, v, b); }
    if HasActiveTask(v.tasks, b) {
      var t :| t in v.tasks && IsActive(v.tasks, t, b);
      if t !in s.tasks { ScanInventsNothing(s, f, p, th, now, t); } else { assert IsActive(s.tasks, t, b); }
    }
  }

  /** The grace period holds a scan back: a planned copy younger than it, or a lost one whose node has not
      been silent for longer than it takes to be dead and the grace on top, keeps a block out of
      the queue, however few copies it has left. */
  lemma GraceHoldsBack(s: Store, f: Leadership.Fencing, p: Policy, th: Thresholds, now: Time, b: Id, n: Id, t: Id)
    requires Inv(s, p) && Scan(s, f, p, th, now).Ok? && (b, n) in s.copies
    requires if s.copies[(b, n)].state == Pending then now < s.copies[(b, n)].createdAt + p.grace
             else !Usable(s, b, n, now, th) && (n in s.nodes && s.nodes[n].lastHeartbeat.Some? ==>
                                                  now < s.nodes[n].lastHeartbeat.value + th.deadAfter + p.grace)
    ensures t in Scan(s, f, p, th, now).value.tasks && t !in s.tasks ==> Scan(s, f, p, th, now).value.tasks[t].block != b
  {
    if t in Scan(s, f, p, th, now).value.tasks && t !in s.tasks {
      ScanInventsNothing(s, f, p, th, now, t);
      assert n in CopiesOn(s.copies, b);
    }
  }

  /** Scanning and dispatching are done by the leader only, and by it always. */
  lemma GuardedExactly(s: Store, f: Leadership.Fencing, p: Policy, th: Thresholds, now: Time)
    ensures Scan(s, f, p, th, now).Ok? <==> Leadership.RequireLeadership(s.lease, f, now).Ok?
    ensures Dispatch(s, f, p, th, now).Ok? <==> Leadership.RequireLeadership(s.lease, f, now).Ok?
  {
  }

  // ----- Deletion ------------------------------------------------------------

  /** A copy gets its delete order, on its way to its node at once, exactly if its block has no live task. */
  lemma DeleteOrderIsExact(s: Store, c: (Id, Id), expiresAt: Time)
    requires s.next !in s.tasks
    ensures var v := EnqueueDelete(s, c, expiresAt);
            var busy := exists t :: t in s.tasks && s.tasks[t].block == c.0 && (s.tasks[t].state.Waiting? || s.tasks[t].state.InFlight?);
            && (busy ==> v == s)
            && (!busy ==>
                  && v == s.(tasks := v.tasks, next := s.next + 1) && v.tasks.Keys == s.tasks.Keys + {s.next}
                  && (forall t :: t in s.tasks ==> v.tasks[t] == s.tasks[t])
                  && v.tasks[s.next].kind.Delete? && v.tasks[s.next].state.InFlight? && v.tasks[s.next].block == c.0
                  && v.tasks[s.next].target == Some(c.1) && v.tasks[s.next].expiresAt == Some(expiresAt))
  {
    if t :| t in s.tasks && s.tasks[t].block == c.0 && s.tasks[t].Live() { assert IsActive(s.tasks, t, c.0); }
  }

  // ----- Collection ------------------------------------------------------------

  /** A confirmed collection takes the named blocks, their copies and their tasks, and nothing else. */
  lemma CollectionIsExact(s: Store, ids: set<Id>)
    ensures var v := ConfirmCollected(s, ids);
            && v == s.(blocks := v.blocks, copies := v.copies, tasks := v.tasks)
            && v.blocks.Keys == s.blocks.Keys - ids
            && (forall b :: b in v.blocks ==> v.blocks[b] == s.blocks[b])
            && (forall b: Id :: StoredOn(v.copies, b) == if b in ids then {} else StoredOn(s.copies, b))
            && (forall c :: c in v.copies <==> c in s.copies && c.0 !in ids)
            && (forall t :: t in v.tasks <==> t in s.tasks && s.tasks[t].block !in ids)
            && (forall t :: t in v.tasks ==> v.tasks[t] == s.tasks[t])
  {
    var v := ConfirmCollected(s, ids);
    forall b: Id ensures StoredOn(v.copies, b) == if b in ids then {} else StoredOn(s.copies, b) {
      forall n: Id ensures n in StoredOn(v.copies, b) <==> b !in ids && n in StoredOn(s.copies, b) {
        assert n in StoredOn(v.copies, b) <==> (b, n) in v.copies && v.copies[(b, n)].state == Stored;
        assert n in StoredOn(s.copies, b) <==> (b, n) in s.copies && s.copies[(b, n)].state == Stored;
      }
    }
  }
}
