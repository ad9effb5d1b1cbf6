/** What the recovery queue keeps through every scan, dispatch, confirmation, expiry and collection. */
module RecoveryRuns {
  import opened Common
  import opened Entities
  import opened Cluster
  import opened Scheduler
  import opened Recovery
  import Leadership

  // ----- The invariant ---------------------------------------------------------

  /** The partial unique index of the task table. */
  ghost predicate OneLivePerBlock(tasks: Tasks) {
    forall t, u :: t in tasks && u in tasks && t != u && tasks[t].Live() && tasks[u].Live() ==> tasks[t].block != tasks[u].block
  }

  /** Foreign keys, and the key counter ahead of every key in use. */
  ghost predicate References(s: Store) {
    && (forall c :: c in s.copies ==> c.0 in s.blocks && c.1 in s.nodes)
    && (forall t :: t in s.tasks ==> t < s.next && s.tasks[t].block in s.blocks)
  }

  function Bound(p: Policy): nat { Max(1, p.maxAttempts) }

  ghost predicate TaskOk(s: Store, task: Task, p: Policy) {
    && (task.state.InFlight? ==> task.target.Some? && task.expiresAt.Some?)
    && (task.kind.Replicate? ==>
          && task.attempts <= Bound(p)
          && (task.state.Waiting? ==> task.attempts < Bound(p))
          && (task.state.InFlight? ==> task.attempts >= 1 && task.target.value in s.nodes && (task.block, task.target.value) in s.copies))
  }

  ghost predicate TasksOk(s: Store, p: Policy) { forall t :: t in s.tasks ==> TaskOk(s, s.tasks[t], p) }

  ghost predicate Core(s: Store, p: Policy) { OneLivePerBlock(s.tasks) && References(s) && TasksOk(s, p) }

  /** The copies on their way to a node. */
  function CopiesTo(tasks: Tasks, n: Id): set<Id> {
    set t | t in tasks && tasks[t].kind.Replicate? && tasks[t].state.InFlight? && tasks[t].target == Some(n)
  }

  ghost predicate Caps(tasks: Tasks, p: Policy) { forall n: Id :: |CopiesTo(tasks, n)| <= p.maxPerNode }

  ghost predicate Inv(s: Store, p: Policy) { Core(s, p) && Caps(s.tasks, p) }

  lemma FewerCopies(before: Tasks, after: Tasks, p: Policy)
    requires Caps(before, p)
    requires forall n: Id :: CopiesTo(after, n) <= CopiesTo(before, n)
    ensures Caps(after, p)
  {
    forall n: Id ensures |CopiesTo(after, n)| <= p.maxPerNode { SubsetIsSmaller(CopiesTo(after, n), CopiesTo(before, n)); }
  }

  // ----- Queueing ------------------------------------------------------------

  lemma NewTaskKeepsInv(s: Store, task: Task, p: Policy)
    requires Inv(s, p) && !HasActiveTask(s.tasks, task.block) && task.block in s.blocks && TaskOk(s, task, p)
    requires task.kind.Replicate? ==> !task.state.InFlight?
    ensures Inv(s.(tasks := s.tasks[s.next := task], next := s.next + 1), p)
  {
    var after := s.tasks[s.next := task];
    forall t | t in s.tasks && s.tasks[t].Live() ensures s.tasks[t].block != task.block { assert !IsActive(s.tasks, t, task.block); }
    FewerCopies(s.tasks, after, p);
  }

  /** Only the task table grows. */
  ghost predicate OnlyAddsTasks(s: Store, v: Store) {
    && v == s.(tasks := v.tasks, next := v.next)
    && forall t :: t in s.tasks ==> t in v.tasks && v.tasks[t] == s.tasks[t]
  }

  lemma EnqueueOneKeepsInv(s: Store, b: Id, p: Policy, th: Thresholds, now: Time)
    requires Inv(s, p) && b in s.blocks
    ensures Inv(EnqueueOne(s, b, p, th, now), p) && OnlyAddsTasks(s, EnqueueOne(s, b, p, th, now))
  {
    if EnqueueOne(s, b, p, th, now) != s {
      NewTaskKeepsInv(s, NewCopyTask(b, GapOf(s, b, now, th, p.factor).current), p);
    }
  }

  lemma {:induction false} EnqueueAllKeepsInv(s: Store, blocks: seq<Id>, p: Policy, th: Thresholds, now: Time)
    requires Inv(s, p) && forall b :: b in blocks ==> b in s.blocks
    ensures Inv(EnqueueAll(s, blocks, p, th, now), p) && OnlyAddsTasks(s, EnqueueAll(s, blocks, p, th, now))
    decreases |blocks|
  {
    if blocks != [] {
      var front := blocks[..|blocks| - 1];
      EnqueueAllKeepsInv(s, front, p, th, now);
      EnqueueOneKeepsInv(EnqueueAll(s, front, p, th, now), blocks[|blocks| - 1], p, th, now);
    }
  }

  lemma EnqueueDeleteKeepsInv(s: Store, c: (Id, Id), expiresAt: Time, p: Policy)
    requires Inv(s, p) && c.0 in s.blocks
    ensures Inv(EnqueueDelete(s, c, expiresAt), p) && OnlyAddsTasks(s, EnqueueDelete(s, c, expiresAt))
  {
    if !HasActiveTask(s.tasks, c.0) {
      NewTaskKeepsInv(s, Task(c.0, Delete, InFlight, None, Some(c.1), 0, 1, Some(expiresAt)), p);
    }
  }

  lemma {:induction false} EnqueueDeletesKeepsInv(s: Store, copies: seq<(Id, Id)>, expiresAt: Time, p: Policy)
    requires Inv(s, p) && forall c :: c in copies ==> c.0 in s.blocks
    ensures Inv(EnqueueDeletes(s, copies, expiresAt), p) && OnlyAddsTasks(s, EnqueueDeletes(s, copies, expiresAt))
    decreases |copies|
  {
    if copies != [] {
      EnqueueDeletesKeepsInv(s, copies[..|copies| - 1], expiresAt, p);
      EnqueueDeleteKeepsInv(EnqueueDeletes(s, copies[..|copies| - 1], expiresAt), copies[|copies| - 1], expiresAt, p);
    }
  }

  // ----- Expiring and closing ----------------------------------------------------

  /** A task that did not expire keeps its planned row: rows are dropped for expired tasks only, and
      no two live tasks are about the same block. */
  lemma ExpireKeepsTask(s: Store, now: Time, p: Policy, t: Id)
    requires Core(s, p) && t in s.tasks
    ensures var v := Expire(s, now, p.maxAttempts); t in v.tasks && TaskOk(v, v.tasks[t], p)
  {
    var stale := Stale(s.tasks, now);
    var task := s.tasks[t];
    assert TaskOk(s, task, p);
    if t !in stale && task.state.InFlight? {
      var c := (task.block, task.target.value);
      forall u | u in stale ensures s.tasks[u].block != task.block { assert s.tasks[u].Live() && task.Live(); }
      assert c !in Abandoned(s.tasks, stale);
    }
  }

  lemma ExpireKeepsCore(s: Store, now: Time, p: Policy)
    requires Core(s, p)
    ensures Core(Expire(s, now, p.maxAttempts), p)
  {
    var v := Expire(s, now, p.maxAttempts);
    forall t | t in v.tasks ensures TaskOk(v, v.tasks[t], p) { ExpireKeepsTask(s, now, p, t); }
    forall t, u | t in v.tasks && u in v.tasks && t != u && v.tasks[t].Live() && v.tasks[u].Live()
      ensures v.tasks[t].block != v.tasks[u].block
    {
      assert s.tasks[t].Live() && s.tasks[u].Live();
    }
  }

  lemma ExpireKeepsCaps(s: Store, now: Time, p: Policy)
    requires Caps(s.tasks, p)
    ensures Caps(Expire(s, now, p.maxAttempts).tasks, p)
  {
    FewerCopies(s.tasks, Expire(s, now, p.maxAttempts).tasks, p);
  }

  lemma CloseKeepsInv(s: Store, p: Policy, th: Thresholds, now: Time)
    requires Inv(s, p)
    ensures Inv(CloseSatisfied(s, p, th, now), p)
  {
    var v := CloseSatisfied(s, p, th, now);
    forall t | t in v.tasks ensures TaskOk(v, v.tasks[t], p) { assert TaskOk(s, s.tasks[t], p); }
    forall t, u | t in v.tasks && u in v.tasks && t != u && v.tasks[t].Live() && v.tasks[u].Live()
      ensures v.tasks[t].block != v.tasks[u].block
    {
      assert s.tasks[t].Live() && s.tasks[u].Live();
    }
    FewerCopies(s.tasks, v.tasks, p);
  }

  lemma PreparedKeepsInv(s: Store, p: Policy, th: Thresholds, now: Time)
    requires Inv(s, p)
    ensures Inv(Prepared(s, p, th, now), p)
  {
    ExpireKeepsCore(s, now, p);
    ExpireKeepsCaps(s, now, p);
    CloseKeepsInv(Expire(s, now, p.maxAttempts), p, th, now);
  }

  // ----- Launching -------------------------------------------------------------

  /** Each job is the one waiting task of its block. */
  ghost predicate JobsOf(tasks: Tasks, jobs: map<Id, Id>) {
    forall b :: b in jobs ==> IsWaitingCopy(tasks, jobs[b]) && tasks[jobs[b]].block == b
  }

  lemma {:induction false} JobsAreRight(tasks: Tasks, waiting: seq<Id>)
    requires forall t :: t in waiting ==> t in tasks
    requires forall t :: t in waiting ==> IsWaitingCopy(tasks, t)
    ensures JobsOf(tasks, Jobs(tasks, waiting))
    ensures forall t :: t in waiting ==> tasks[t].block in Jobs(tasks, waiting)
  {
    if waiting != [] {
      var front, last := waiting[..|waiting| - 1], waiting[|waiting| - 1];
      JobsAreRight(tasks, front);
      assert waiting == front + [last];
      assert IsWaitingCopy(tasks, last);
      assert Jobs(tasks, waiting) == Jobs(tasks, front)[tasks[last].block := last];
    }
  }

  ghost predicate HasJob(r: seq<Assignment>, jobs: map<Id, Id>) { forall a :: a in r ==> a.block in jobs }

  ghost predicate IsSent(task: Task, sent: Task, r: seq<Assignment>, now: Time, ttl: Time) {
    exists i :: 0 <= i < |r| && r[i].block == task.block && sent == SentTask(task, r[i], now, ttl)
  }

  /** A task is sent at most once, by the assignment of its block. */
  ghost predicate LaunchedTask(s: Store, v: Store, r: seq<Assignment>, jobs: map<Id, Id>, now: Time, ttl: Time, t: Id)
    requires t in s.tasks && t in v.tasks
  {
    if exists a :: a in r && a.block in jobs && jobs[a.block] == t
    then IsSent(s.tasks[t], v.tasks[t], r, now, ttl)
    else v.tasks[t] == s.tasks[t]
  }

  lemma LaunchedLater(s: Store, mid: Store, v: Store, front: seq<Assignment>, a: Assignment, jobs: map<Id, Id>,
                      now: Time, ttl: Time, t: Id)
    requires t in s.tasks && t in mid.tasks && t in v.tasks && v.tasks[t] == mid.tasks[t]
    requires !(a.block in jobs && jobs[a.block] == t) && LaunchedTask(s, mid, front, jobs, now, ttl, t)
    ensures LaunchedTask(s, v, front + [a], jobs, now, ttl, t)
  {
    var r := front + [a];
    if exists b :: b in r && b.block in jobs && jobs[b.block] == t {
      var b :| b in r && b.block in jobs && jobs[b.block] == t;
      assert b in front;
      var i :| 0 <= i < |front| && front[i].block == s.tasks[t].block && mid.tasks[t] == SentTask(s.tasks[t], front[i], now, ttl);
      assert r[i] == front[i];
    } else {
      forall b | b in front ensures !(b.block in jobs && jobs[b.block] == t) { assert b in r; }
    }
  }

  lemma LaunchedNow(s: Store, mid: Store, v: Store, front: seq<Assignment>, a: Assignment, jobs: map<Id, Id>,
                    now: Time, ttl: Time, t: Id)
    requires t in s.tasks && t in mid.tasks && v == Launch(mid, a, jobs, now, ttl)
    requires OncePerBlock(front + [a]) && JobsOf(s.tasks, jobs)
    requires a.block in jobs && jobs[a.block] == t && LaunchedTask(s, mid, front, jobs, now, ttl, t)
    ensures t in v.tasks && LaunchedTask(s, v, front + [a], jobs, now, ttl, t)
  {
    var r := front + [a];
    forall b | b in front && b.block in jobs ensures jobs[b.block] != t {
      var i :| 0 <= i < |front| && front[i] == b;
      assert r[i].block != r[|front|].block;
    }
    assert r[|front|] == a && a in r;
  }

  lemma {:induction false} LaunchedTasks(s: Store, r: seq<Assignment>, jobs: map<Id, Id>, now: Time, ttl: Time, t: Id)
    requires OncePerBlock(r) && JobsOf(s.tasks, jobs) && t in s.tasks
    ensures t in LaunchAll(s, r, jobs, now, ttl).tasks
    ensures LaunchedTask(s, LaunchAll(s, r, jobs, now, ttl), r, jobs, now, ttl, t)
    decreases |r|
  {
    if r != [] {
      var front, a := r[..|r| - 1], r[|r| - 1];
      LaunchedTasks(s, front, jobs, now, ttl, t);
      assert r == front + [a];
      var mid := LaunchAll(s, front, jobs, now, ttl);
      if a.block in jobs && jobs[a.block] == t {
        LaunchedNow(s, mid, LaunchAll(s, r, jobs, now, ttl), front, a, jobs, now, ttl, t);
      } else {
        LaunchedLater(s, mid, LaunchAll(s, r, jobs, now, ttl), front, a, jobs, now, ttl, t);
      }
    }
  }

  /** Rows already there stay as they are; every assignment has a row afterwards. */
  lemma {:induction false} LaunchedCopies(s: Store, r: seq<Assignment>, jobs: map<Id, Id>, now: Time, ttl: Time)
    ensures var v := LaunchAll(s, r, jobs, now, ttl);
            && v == s.(tasks := v.tasks, copies := v.copies)
            && (forall c :: c in s.copies ==> c in v.copies && v.copies[c] == s.copies[c])
            && (forall a :: a in r ==> (a.block, a.target) in v.copies)
            && (forall c :: c in v.copies && c !in s.copies ==> exists a :: a in r && c == (a.block, a.target))
    decreases |r|
  {
    if r != [] {
      LaunchedCopies(s, r[..|r| - 1], jobs, now, ttl);
      assert r == r[..|r| - 1] + [r[|r| - 1]];
    }
  }

  // ----- What is assigned --------------------------------------------------------

  lemma GapsAreDistinct(s: Store, p: Policy, th: Thresholds, now: Time)
    requires OneLivePerBlock(s.tasks)
    ensures DistinctBlocks(Gaps(s, Queue(s.tasks), p, th, now))
  {
    var queue := Queue(s.tasks);
    AscendingLists(WaitingCopies(s.tasks));
    forall t | t in queue ensures t in s.tasks && s.tasks[t].Live() { assert IsWaitingCopy(s.tasks, t); }
    forall i | 0 <= i < |queue| ensures queue[i] in s.tasks && s.tasks[queue[i]].Live() { assert queue[i] in queue; }
    forall i, j | 0 <= i < j < |queue| ensures s.tasks[queue[i]].block != s.tasks[queue[j]].block {
      assert queue[i] in queue && queue[j] in queue && queue[i] != queue[j];
    }
  }

  lemma CandidatesAreAlive(s: Store, th: Thresholds, now: Time)
    ensures forall c :: c in Candidates(s, th, now) ==> c.0 in s.nodes && StateOfNode(s.nodes[c.0], now, th).Alive?
  {
    var ids := set n | n in s.nodes && StateOfNode(s.nodes[n], now, th).Alive?;
    AscendingLists(ids);
    forall c | c in Candidates(s, th, now) ensures c.0 in ids {
      var i :| 0 <= i < |Candidates(s, th, now)| && Candidates(s, th, now)[i] == c;
      assert Ascending(ids)[i] in Ascending(ids);
    }
  }

  /** An assignment is for the block of some waiting task and goes to a live node. */
  ghost predicate Sensible(s: Store, a: Assignment, th: Thresholds, now: Time) {
    && (exists t :: IsWaitingCopy(s.tasks, t) && s.tasks[t].block == a.block)
    && a.target in s.nodes && StateOfNode(s.nodes[a.target], now, th).Alive?
    && Usable(s, a.block, a.source, now, th) && !Usable(s, a.block, a.target, now, th)
  }

  lemma HoldersAreUsable(s: Store, b: Id, now: Time, th: Thresholds, factor: nat)
    ensures forall n: Id :: n in GapOf(s, b, now, th, factor).holders <==> Usable(s, b, n, now, th)
  {
    AscendingLists(UsableOn(s, b, now, th));
    forall n: Id ensures n in UsableOn(s, b, now, th) <==> Usable(s, b, n, now, th) {}
  }

  lemma AssignedAreSensible(s: Store, p: Policy, th: Thresholds, now: Time, i: nat)
    requires i < |Assigned(s, p, th, now)|
    ensures Sensible(s, Assigned(s, p, th, now)[i], th, now)
  {
    var gaps := Gaps(s, Queue(s.tasks), p, th, now);
    var env := LimitsOf(s, p, th, now);
    var r := Assigned(s, p, th, now);
    EveryAssignmentIsBest(gaps, env);
    assert GoodAssignment(multiset(gaps), r, i, env);
    var a := r[i];
    assert a.gap in gaps;
    var k :| 0 <= k < |gaps| && gaps[k] == a.gap;
    var t := Queue(s.tasks)[k];
    assert t in Queue(s.tasks) && s.tasks[t].block == a.block;
    HoldersAreUsable(s, a.block, now, th, p.factor);
    CandidatesAreAlive(s, th, now);
    assert a.gap == GapOf(s, a.block, now, th, p.factor) && a.source in a.gap.holders;
    var c :| Eligible(a.gap, r[..i], env, c) && c.0 == a.target;
  }

  lemma AssignedHaveJobs(s: Store, p: Policy, th: Thresholds, now: Time)
    ensures HasJob(Assigned(s, p, th, now), Jobs(s.tasks, Queue(s.tasks)))
    ensures JobsOf(s.tasks, Jobs(s.tasks, Queue(s.tasks)))
  {
    var r := Assigned(s, p, th, now);
    JobsAreRight(s.tasks, Queue(s.tasks));
    AscendingLists(WaitingCopies(s.tasks));
    forall a | a in r ensures a.block in Jobs(s.tasks, Queue(s.tasks)) {
      var i :| 0 <= i < |r| && r[i] == a;
      AssignedAreSensible(s, p, th, now, i);
      var t :| IsWaitingCopy(s.tasks, t) && s.tasks[t].block == a.block;
      assert t in WaitingCopies(s.tasks);
    }
  }

  lemma AssignedOncePerBlock(s: Store, p: Policy, th: Thresholds, now: Time)
    requires OneLivePerBlock(s.tasks)
    ensures OncePerBlock(Assigned(s, p, th, now))
  {
    GapsAreDistinct(s, p, th, now);
    NoBlockTwice(Gaps(s, Queue(s.tasks), p, th, now), LimitsOf(s, p, th, now));
  }

  // ----- Dispatch keeps the invariant ---------------------------------------------

  ghost function Launched(s: Store, p: Policy, th: Thresholds, now: Time): Store {
    LaunchAll(s, Assigned(s, p, th, now), Jobs(s.tasks, Queue(s.tasks)), now, p.taskTtl)
  }

  /** What launching does to one task. */
  lemma LaunchOfTask(s: Store, p: Policy, th: Thresholds, now: Time, t: Id)
    requires OneLivePerBlock(s.tasks) && t in s.tasks
    ensures t in Launched(s, p, th, now).tasks
    ensures var v := Launched(s, p, th, now);
            v.tasks[t] == s.tasks[t] ||
            (IsWaitingCopy(s.tasks, t) && IsSent(s.tasks[t], v.tasks[t], Assigned(s, p, th, now), now, p.taskTtl))
  {
    AssignedHaveJobs(s, p, th, now);
    AssignedOncePerBlock(s, p, th, now);
    LaunchedTasks(s, Assigned(s, p, th, now), Jobs(s.tasks, Queue(s.tasks)), now, p.taskTtl, t);
  }

  lemma LaunchKeepsTask(s: Store, p: Policy, th: Thresholds, now: Time, t: Id)
    requires Core(s, p) && t in s.tasks
    ensures t in Launched(s, p, th, now).tasks && TaskOk(Launched(s, p, th, now), Launched(s, p, th, now).tasks[t], p)
  {
    var v := Launched(s, p, th, now);
    var r := Assigned(s, p, th, now);
    LaunchOfTask(s, p, th, now, t);
    LaunchedCopies(s, r, Jobs(s.tasks, Queue(s.tasks)), now, p.taskTtl);
    assert TaskOk(s, s.tasks[t], p);
    if v.tasks[t] != s.tasks[t] {
      var i :| 0 <= i < |r| && r[i].block == s.tasks[t].block && v.tasks[t] == SentTask(s.tasks[t], r[i], now, p.taskTtl);
      AssignedAreSensible(s, p, th, now, i);
      assert r[i] in r;
    }
  }

  lemma LaunchKeepsOneLive(s: Store, p: Policy, th: Thresholds, now: Time)
    requires OneLivePerBlock(s.tasks)
    ensures OneLivePerBlock(Launched(s, p, th, now).tasks)
  {
    var v := Launched(s, p, th, now);
    LaunchAddsNoTask(s, Assigned(s, p, th, now), Jobs(s.tasks, Queue(s.tasks)), now, p.taskTtl);
    forall t | t in v.tasks ensures t in s.tasks && v.tasks[t].block == s.tasks[t].block && (v.tasks[t].Live() ==> s.tasks[t].Live()) {
      LaunchOfTask(s, p, th, now, t);
    }
  }

  lemma {:induction false} LaunchAddsNoTask(s: Store, r: seq<Assignment>, jobs: map<Id, Id>, now: Time, ttl: Time)
    ensures LaunchAll(s, r, jobs, now, ttl).tasks.Keys == s.tasks.Keys
    decreases |r|
  {
    if r != [] { LaunchAddsNoTask(s, r[..|r| - 1], jobs, now, ttl); }
  }

  lemma LaunchKeepsReferences(s: Store, p: Policy, th: Thresholds, now: Time)
    requires Core(s, p)
    ensures References(Launched(s, p, th, now))
  {
    var v := Launched(s, p, th, now);
    var r := Assigned(s, p, th, now);
    LaunchAddsNoTask(s, r, Jobs(s.tasks, Queue(s.tasks)), now, p.taskTtl);
    LaunchedCopies(s, r, Jobs(s.tasks, Queue(s.tasks)), now, p.taskTtl);
    forall t | t in v.tasks ensures v.tasks[t].block in v.blocks && t < v.next { LaunchOfTask(s, p, th, now, t); }
    forall c | c in v.copies && c !in s.copies ensures c.0 in v.blocks && c.1 in v.nodes {
      var a :| a in r && c == (a.block, a.target);
      var i :| 0 <= i < |r| && r[i] == a;
      AssignedAreSensible(s, p, th, now, i);
    }
  }

  lemma LaunchKeepsCore(s: Store, p: Policy, th: Thresholds, now: Time)
    requires Core(s, p)
    ensures Core(Launched(s, p, th, now), p)
  {
    var v := Launched(s, p, th, now);
    LaunchKeepsOneLive(s, p, th, now);
    LaunchKeepsReferences(s, p, th, now);
    LaunchAddsNoTask(s, Assigned(s, p, th, now), Jobs(s.tasks, Queue(s.tasks)), now, p.taskTtl);
    forall t | t in v.tasks ensures TaskOk(v, v.tasks[t], p) { LaunchKeepsTask(s, p, th, now, t); }
  }

  // ----- The caps ------------------------------------------------------------

  lemma OneMoreCopy(before: Tasks, after: Tasks, n: Id, t: Id, extra: nat)
    requires CopiesTo(after, n) <= CopiesTo(before, n) + (if extra == 0 then {} else {t})
    ensures |CopiesTo(after, n)| <= |CopiesTo(before, n)| + extra
  {
    SubsetIsSmaller(CopiesTo(after, n), CopiesTo(before, n) + (if extra == 0 then {} else {t}));
  }

  lemma {:induction false} LaunchedCount(s: Store, r: seq<Assignment>, jobs: map<Id, Id>, now: Time, ttl: Time, n: Id)
    ensures |CopiesTo(LaunchAll(s, r, jobs, now, ttl).tasks, n)| <= |CopiesTo(s.tasks, n)| + CountTo(r, n)
    decreases |r|
  {
    if r != [] {
      var front, a := r[..|r| - 1], r[|r| - 1];
      LaunchedCount(s, front, jobs, now, ttl, n);
      var mid := LaunchAll(s, front, jobs, now, ttl);
      OneMoreCopy(mid.tasks, LaunchAll(s, r, jobs, now, ttl).tasks, n,
                  if a.block in jobs then jobs[a.block] else 0, if a.target == n then 1 else 0);
    }
  }

  lemma CountedInFlight(tasks: Tasks, n: Id)
    ensures LoadOf(InFlightByTarget(tasks), n) == |BusyWith(tasks, n)| >= |CopiesTo(tasks, n)|
  {
    SubsetIsSmaller(CopiesTo(tasks, n), BusyWith(tasks, n));
    forall t | t in BusyWith(tasks, n) ensures n in InFlightByTarget(tasks) { assert tasks[t].target.value == n; }
    if n !in InFlightByTarget(tasks) { assert BusyWith(tasks, n) == {}; }
  }

  /** The cap holds across passes: the scheduler starts from what is already in flight. */
  lemma LaunchKeepsCaps(s: Store, p: Policy, th: Thresholds, now: Time)
    requires Caps(s.tasks, p)
    ensures Caps(Launched(s, p, th, now).tasks, p)
  {
    var r := Assigned(s, p, th, now);
    forall n: Id ensures |CopiesTo(Launched(s, p, th, now).tasks, n)| <= p.maxPerNode {
      LaunchedCount(s, r, Jobs(s.tasks, Queue(s.tasks)), now, p.taskTtl, n);
      CountedInFlight(s.tasks, n);
      CapsHold(Gaps(s, Queue(s.tasks), p, th, now), LimitsOf(s, p, th, now), n);
    }
  }

  lemma DispatchKeepsInv(s: Store, fencing: Leadership.Fencing, p: Policy, th: Thresholds, now: Time)
    requires Inv(s, p) && Dispatch(s, fencing, p, th, now).Ok?
    ensures Inv(Dispatch(s, fencing, p, th, now).value.0, p)
  {
    var ready := Prepared(s, p, th, now);
    PreparedKeepsInv(s, p, th, now);
    LaunchKeepsCore(ready, p, th, now);
    LaunchKeepsCaps(ready, p, th, now);
  }

  // ----- The other steps -----------------------------------------------------------

  lemma StoredKeepsTask(s: Store, b: Id, n: Id, p: Policy, t: Id)
    requires Core(s, p) && MarkStored(s, b, n).Ok? && t in s.tasks
    ensures var v := MarkStored(s, b, n).value; t in v.tasks && TaskOk(v, v.tasks[t], p)
  {
    assert TaskOk(s, s.tasks[t], p);
  }

  lemma StoredKeepsInv(s: Store, b: Id, n: Id, p: Policy)
    requires Inv(s, p) && MarkStored(s, b, n).Ok?
    ensures Inv(MarkStored(s, b, n).value, p)
  {
    var v := MarkStored(s, b, n).value;
    forall t | t in v.tasks ensures TaskOk(v, v.tasks[t], p) { StoredKeepsTask(s, b, n, p, t); }
    forall t, u | t in v.tasks && u in v.tasks && t != u && v.tasks[t].Live() && v.tasks[u].Live()
      ensures v.tasks[t].block != v.tasks[u].block
    {
      assert s.tasks[t].Live() && s.tasks[u].Live();
    }
    FewerCopies(s.tasks, v.tasks, p);
  }

  lemma CollectedKeepsInv(s: Store, ids: set<Id>, p: Policy)
    requires Inv(s, p)
    ensures Inv(ConfirmCollected(s, ids), p)
  {
    var v := ConfirmCollected(s, ids);
    forall t | t in v.tasks ensures TaskOk(v, v.tasks[t], p) { assert TaskOk(s, s.tasks[t], p); }
    FewerCopies(s.tasks, v.tasks, p);
  }

  /** What every other command may do to these tables: the lease, files, node states and copy states
      change, rows of blocks, nodes and copies appear; the task table is not touched. */
  ghost predicate LeavesQueue(s: Store, v: Store) {
    && v.tasks == s.tasks && v.next == s.next
    && s.blocks.Keys <= v.blocks.Keys && s.nodes.Keys <= v.nodes.Keys && s.copies.Keys <= v.copies.Keys
    && (forall c :: c in v.copies ==> c.0 in v.blocks && c.1 in v.nodes)
  }

  lemma OthersKeepInv(s: Store, v: Store, p: Policy)
    requires Inv(s, p) && LeavesQueue(s, v)
    ensures Inv(v, p)
  {
    forall t | t in v.tasks ensures TaskOk(v, v.tasks[t], p) { assert TaskOk(s, s.tasks[t], p); }
  }

  // ----- Runs ----------------------------------------------------------------

  /** Any instance may scan or dispatch with whatever lease it believes in; nodes report at any time. */
  datatype Event =
    | Scanning(fencing: Leadership.Fencing, th: Thresholds, at: Time)
    | Dispatching(fencing: Leadership.Fencing, th: Thresholds, at: Time)
    | Storing(block: Id, node: Id)
    | Discarding(copies: seq<(Id, Id)>, expiresAt: Time)
    | Collected(ids: set<Id>)
    | Other(after: Store)

  ghost function Step(s: Store, e: Event, p: Policy): Store {
    match e
    case Scanning(f, th, at) => (match Scan(s, f, p, th, at) case Ok(v) => v case Err(_) => s)
    case Dispatching(f, th, at) => (match Dispatch(s, f, p, th, at) case Ok(v) => v.0 case Err(_) => s)
    case Storing(b, n) => (match MarkStored(s, b, n) case Ok(v) => v case Err(_) => s)
    case Discarding(copies, expiresAt) => if forall c :: c in copies ==> c in s.copies then EnqueueDeletes(s, copies, expiresAt) else s
    case Collected(ids) => ConfirmCollected(s, ids)
    case Other(v) => if LeavesQueue(s, v) then v else s
  }

  ghost function Run(s: Store, events: seq<Event>, p: Policy): Store
    decreases |events|
  {
    if events == [] then s else Run(Step(s, events[0], p), events[1..], p)
  }

  lemma ScanKeepsInv(s: Store, f: Leadership.Fencing, p: Policy, th: Thresholds, at: Time)
    requires Inv(s, p) && Scan(s, f, p, th, at).Ok?
    ensures Inv(Scan(s, f, p, th, at).value, p) && OnlyAddsTasks(s, Scan(s, f, p, th, at).value)
  {
    AscendingLists(ShortBlocks(s, p.factor));
    EnqueueAllKeepsInv(s, Ascending(ShortBlocks(s, p.factor)), p, th, at);
  }

  lemma StepKeepsInv(s: Store, e: Event, p: Policy)
    requires Inv(s, p)
    ensures Inv(Step(s, e, p), p)
  {
    match e
    case Scanning(f, th, at) => if Scan(s, f, p, th, at).Ok? { ScanKeepsInv(s, f, p, th, at); }
    case Dispatching(f, th, at) => if Dispatch(s, f, p, th, at).Ok? { DispatchKeepsInv(s, f, p, th, at); }
    case Storing(b, n) => if MarkStored(s, b, n).Ok? { StoredKeepsInv(s, b, n, p); }
    case Discarding(copies, expiresAt) =>
      if forall c :: c in copies ==> c in s.copies { EnqueueDeletesKeepsInv(s, copies, expiresAt, p); }
    case Collected(ids) => CollectedKeepsInv(s, ids, p);
    case Other(v) => if LeavesQueue(s, v) { OthersKeepInv(s, v, p); }
  }

  /** In every run: one live task per block, no node over its cap, a planned row behind every copy on
      its way, and no task sent more often than allowed. */
  lemma {:induction false} QueueInEveryRun(s: Store, events: seq<Event>, p: Policy)
    requires Inv(s, p)
    ensures Inv(Run(s, events, p), p)
    decreases |events|
  {
    if events != [] {
      StepKeepsInv(s, events[0], p);
      QueueInEveryRun(Step(s, events[0], p), events[1..], p);
    }
  }

  lemma EmptyQueueIsSound(s: Store, p: Policy)
    requires s.tasks == map[] && forall c :: c in s.copies ==> c.0 in s.blocks && c.1 in s.nodes
    ensures Inv(s, p)
  {
    forall n: Id ensures CopiesTo(s.tasks, n) == {} {}
  }

  // ----- What the invariant buys ------------------------------------------------------

  /** The confirmation of a copy on its way is accepted, records the copy and closes its task. */
  lemma ConfirmationCloses(s: Store, p: Policy, t: Id)
    requires Inv(s, p) && t in s.tasks && s.tasks[t].kind.Replicate? && s.tasks[t].state.InFlight?
    ensures var task := s.tasks[t];
            && task.target.Some?
            && var r := MarkStored(s, task.block, task.target.value);
               && r.Ok? && t in r.value.tasks && r.value.tasks[t].state.Done?
               && (task.block, task.target.value) in r.value.copies && r.value.copies[(task.block, task.target.value)].state == Stored
               && forall u :: u in s.tasks && u != t ==> u in r.value.tasks && r.value.tasks[u] == s.tasks[u]
  {
    assert TaskOk(s, s.tasks[t], p);
    forall u | u in s.tasks && u != t && s.tasks[u].Live() ensures s.tasks[u].block != s.tasks[t].block {
      assert s.tasks[t].Live();
    }
  }

  /** A stored copy stays recorded as stored, except when the collector deletes its block or the
      node itself (or its silence) says otherwise. */
  lemma StoredCopiesStay(s: Store, e: Event, p: Policy, c: (Id, Id))
    requires Inv(s, p) && c in s.copies && s.copies[c].state == Stored && !e.Other? && (e.Collected? ==> c.0 !in e.ids)
    ensures c in Step(s, e, p).copies && Step(s, e, p).copies[c].state == Stored
  {
    match e
    case Scanning(f, th, at) => if Scan(s, f, p, th, at).Ok? { ScanKeepsInv(s, f, p, th, at); }
    case Dispatching(f, th, at) =>
      if Dispatch(s, f, p, th, at).Ok? {
        var ready := Prepared(s, p, th, at);
        LaunchedCopies(ready, Assigned(ready, p, th, at), Jobs(ready.tasks, Queue(ready.tasks)), at, p.taskTtl);
      }
    case Discarding(copies, expiresAt) =>
      if forall d :: d in copies ==> d in s.copies { EnqueueDeletesKeepsInv(s, copies, expiresAt, p); }
    case _ =>
  }

  /** Twice the attempts left, plus the stage reached; a closed task has nothing left. */
  function Measure(task: Task, p: Policy): int {
    match task.state
    case Waiting => 2 * (Bound(p) - task.attempts) + 1
    case InFlight => 2 * (Bound(p) - task.attempts) + 2
    case Done => 0
    case Failed => 0
  }

  /** One step leaves a copy task alone, deletes it with its block, or brings it closer to its end. */
  ghost predicate Advances(before: Task, v: Store, t: Id, p: Policy) {
    t in v.tasks ==>
      v.tasks[t] == before || (v.tasks[t].kind == before.kind && 0 <= Measure(v.tasks[t], p) < Measure(before, p))
  }

  lemma PreparedAdvances(s: Store, p: Policy, th: Thresholds, now: Time, t: Id)
    requires TasksOk(s, p) && t in s.tasks && s.tasks[t].kind.Replicate?
    ensures Advances(s.tasks[t], Prepared(s, p, th, now), t, p)
    ensures t in Prepared(s, p, th, now).tasks && Prepared(s, p, th, now).tasks[t].kind.Replicate?
  {
    assert TaskOk(s, s.tasks[t], p);
  }

  lemma LaunchAdvances(s: Store, p: Policy, th: Thresholds, now: Time, t: Id)
    requires Core(s, p) && t in s.tasks && s.tasks[t].kind.Replicate?
    ensures Advances(s.tasks[t], Launched(s, p, th, now), t, p)
  {
    LaunchOfTask(s, p, th, now, t);
    assert TaskOk(s, s.tasks[t], p);
  }

  lemma StepAdvances(s: Store, e: Event, p: Policy, t: Id)
    requires Inv(s, p) && t in s.tasks && s.tasks[t].kind.Replicate?
    ensures Advances(s.tasks[t], Step(s, e, p), t, p)
  {
    assert TaskOk(s, s.tasks[t], p);
    match e
    case Scanning(f, th, at) => if Scan(s, f, p, th, at).Ok? { ScanKeepsInv(s, f, p, th, at); }
    case Dispatching(f, th, at) =>
      if Dispatch(s, f, p, th, at).Ok? {
        PreparedKeepsInv(s, p, th, at);
        PreparedAdvances(s, p, th, at, t);
        LaunchAdvances(Prepared(s, p, th, at), p, th, at, t);
      }
    case Discarding(copies, expiresAt) =>
      if forall c :: c in copies ==> c in s.copies { EnqueueDeletesKeepsInv(s, copies, expiresAt, p); }
    case _ =>
  }

  /** How many steps of a run change a given task. */
  ghost function Changes(s: Store, events: seq<Event>, p: Policy, t: Id): nat
    decreases |events|
  {
    if events == [] || t !in s.tasks then 0 else
    var v := Step(s, events[0], p);
    (if t in v.tasks && v.tasks[t] != s.tasks[t] then 1 else 0) + Changes(v, events[1..], p, t)
  }

  /** Every copy task reaches its end after boundedly many changes, however the run goes on. */
  lemma {:induction false} CopyTasksEnd(s: Store, events: seq<Event>, p: Policy, t: Id)
    requires Inv(s, p) && t in s.tasks && s.tasks[t].kind.Replicate?
    ensures Changes(s, events, p, t) <= Measure(s.tasks[t], p)
    decreases |events|
  {
    assert TaskOk(s, s.tasks[t], p);
    if events != [] {
      StepKeepsInv(s, events[0], p);
      StepAdvances(s, events[0], p, t);
      if t in Step(s, events[0], p).tasks {
        CopyTasksEnd(Step(s, events[0], p), events[1..], p, t);
      }
    }
  }

  // ----- What a scan and a dispatch decide -----------------------------------------------

  lemma EnqueuedOne(s: Store, b: Id, p: Policy, th: Thresholds, now: Time)
    ensures WorthEnqueuing(s, b, p, th, now) ==> HasActiveTask(EnqueueOne(s, b, p, th, now).tasks, b)
  {
    if WorthEnqueuing(s, b, p, th, now) && !HasActiveTask(s.tasks, b) {
      assert IsActive(EnqueueOne(s, b, p, th, now).tasks, s.next, b);
    }
  }

  lemma StaysActive(s: Store, v: Store, b: Id)
    requires OnlyAddsTasks(s, v) && HasActiveTask(s.tasks, b)
    ensures HasActiveTask(v.tasks, b)
  {
    var t :| t in s.tasks && IsActive(s.tasks, t, b);
    assert IsActive(v.tasks, t, b);
  }

  lemma WorthIsAboutCopies(s: Store, v: Store, b: Id, p: Policy, th: Thresholds, now: Time)
    requires v.copies == s.copies && v.nodes == s.nodes
    ensures WorthEnqueuing(v, b, p, th, now) == WorthEnqueuing(s, b, p, th, now)
    ensures GapOf(v, b, now, th, p.factor) == GapOf(s, b, now, th, p.factor)
  {
    assert UsableOn(v, b, now, th) == UsableOn(s, b, now, th);
    var nodes := Ascending(UsableOn(s, b, now, th));
    forall i | 0 <= i < |nodes| ensures DomainOf(v, nodes[i]) == DomainOf(s, nodes[i]) {}
    assert GapOf(v, b, now, th, p.factor) == GapOf(s, b, now, th, p.factor);
  }

  lemma {:induction false} EnqueuedAll(s: Store, blocks: seq<Id>, p: Policy, th: Thresholds, now: Time, b: Id)
    requires Inv(s, p) && (forall a :: a in blocks ==> a in s.blocks) && b in blocks && WorthEnqueuing(s, b, p, th, now)
    ensures HasActiveTask(EnqueueAll(s, blocks, p, th, now).tasks, b)
    decreases |blocks|
  {
    var front, last := blocks[..|blocks| - 1], blocks[|blocks| - 1];
    assert blocks == front + [last];
    var mid := EnqueueAll(s, front, p, th, now);
    EnqueueAllKeepsInv(s, front, p, th, now);
    EnqueueOneKeepsInv(mid, last, p, th, now);
    if b == last {
      WorthIsAboutCopies(s, mid, b, p, th, now);
      EnqueuedOne(mid, b, p, th, now);
    } else {
      EnqueuedAll(s, front, p, th, now, b);
      StaysActive(mid, EnqueueOne(mid, last, p, th, now), b);
    }
  }

  /** After a scan every block whose gap has settled has a live task. */
  lemma ScanMissesNothing(s: Store, f: Leadership.Fencing, p: Policy, th: Thresholds, now: Time, b: Id)
    requires Inv(s, p) && Scan(s, f, p, th, now).Ok? && IsShort(s, b, p.factor) && WorthEnqueuing(s, b, p, th, now)
    ensures HasActiveTask(Scan(s, f, p, th, now).value.tasks, b)
  {
    AscendingLists(ShortBlocks(s, p.factor));
    EnqueuedAll(s, Ascending(ShortBlocks(s, p.factor)), p, th, now, b);
  }

  lemma {:induction false} EnqueuedForAReason(s: Store, blocks: seq<Id>, p: Policy, th: Thresholds, now: Time, t: Id)
    requires Inv(s, p) && (forall a :: a in blocks ==> a in s.blocks)
    requires t in EnqueueAll(s, blocks, p, th, now).tasks && t !in s.tasks
    ensures var task := EnqueueAll(s, blocks, p, th, now).tasks[t];
            && task.block in blocks && WorthEnqueuing(s, task.block, p, th, now) && !HasActiveTask(s.tasks, task.block)
            && task == NewCopyTask(task.block, GapOf(s, task.block, now, th, p.factor).current)
    decreases |blocks|
  {
    if blocks != [] {
      var front, last := blocks[..|blocks| - 1], blocks[|blocks| - 1];
      var mid := EnqueueAll(s, front, p, th, now);
      assert blocks == front + [last];
      EnqueueAllKeepsInv(s, front, p, th, now);
      EnqueueOneKeepsInv(mid, last, p, th, now);
      if t in mid.tasks {
        EnqueuedForAReason(s, front, p, th, now, t);
      } else {
        WorthIsAboutCopies(s, mid, last, p, th, now);
        if HasActiveTask(s.tasks, last) { StaysActive(s, mid, last); }
      }
    }
  }

  /** A scan only creates tasks for settled gaps that had none. */
  lemma ScanInventsNothing(s: Store, f: Leadership.Fencing, p: Policy, th: Thresholds, now: Time, t: Id)
    requires Inv(s, p) && Scan(s, f, p, th, now).Ok? && t in Scan(s, f, p, th, now).value.tasks && t !in s.tasks
    ensures var task := Scan(s, f, p, th, now).value.tasks[t];
            && IsShort(s, task.block, p.factor) && WorthEnqueuing(s, task.block, p, th, now) && !HasActiveTask(s.tasks, task.block)
            && task.kind.Replicate? && task.state.Waiting? && task.attempts == 0
            && task.atSchedule == GapOf(s, task.block, now, th, p.factor).current
  {
    AscendingLists(ShortBlocks(s, p.factor));
    EnqueuedForAReason(s, Ascending(ShortBlocks(s, p.factor)), p, th, now, t);
  }

  /** Every copy a dispatch orders is one that is needed, from a usable copy to a live node without
      one; its task is in flight towards that node and its row exists. */
  lemma DispatchedCopies(s: Store, f: Leadership.Fencing, p: Policy, th: Thresholds, now: Time, i: nat)
    requires Inv(s, p) && Dispatch(s, f, p, th, now).Ok? && i < |Dispatch(s, f, p, th, now).value.1|
    ensures var (v, r) := Dispatch(s, f, p, th, now).value;
            && Sensible(Prepared(s, p, th, now), r[i], th, now)
            && (r[i].block, r[i].target) in v.copies
            && exists t :: t in v.tasks && v.tasks[t].kind.Replicate? && v.tasks[t].state.InFlight?
                           && v.tasks[t].block == r[i].block && v.tasks[t].target == Some(r[i].target)
  {
    var ready := Prepared(s, p, th, now);
    PreparedKeepsInv(s, p, th, now);
    AssignedAreSensible(ready, p, th, now, i);
    DispatchedTask(ready, p, th, now, i);
  }

  lemma DispatchedTask(s: Store, p: Policy, th: Thresholds, now: Time, i: nat)
    requires Core(s, p) && i < |Assigned(s, p, th, now)|
    ensures var v := Launched(s, p, th, now);
            var a := Assigned(s, p, th, now)[i];
            && (a.block, a.target) in v.copies
            && exists t :: t in v.tasks && v.tasks[t].kind.Replicate? && v.tasks[t].state.InFlight?
                           && v.tasks[t].block == a.block && v.tasks[t].target == Some(a.target)
  {
    var r := Assigned(s, p, th, now);
    var jobs := Jobs(s.tasks, Queue(s.tasks));
    AssignedHaveJobs(s, p, th, now);
    AssignedOncePerBlock(s, p, th, now);
    LaunchedCopies(s, r, jobs, now, p.taskTtl);
    assert r[i] in r;
    var t := jobs[r[i].block];
    LaunchedTasks(s, r, jobs, now, p.taskTtl, t);
    var v := Launched(s, p, th, now);
    var j :| 0 <= j < |r| && r[j].block == s.tasks[t].block && v.tasks[t] == SentTask(s.tasks[t], r[j], now, p.taskTtl);
    SameBlockSamePlace(r, i, j);
  }

  lemma SameBlockSamePlace(r: seq<Assignment>, i: nat, j: nat)
    requires OncePerBlock(r) && i < |r| && j < |r| && r[i].block == r[j].block
    ensures i == j
  {
  }

  /** The collector asks for one order per copy of an orphan, but a block with a live task gets no
      other: only the first of its copies is ordered, the rest wait for a later pass. */
  lemma OneDeleteOrderPerBlock(s: Store, copies: seq<(Id, Id)>, b: Id, expiresAt: Time)
    requires copies != [] && forall c :: c in copies ==> c.0 == b
    ensures EnqueueDeletes(s, copies, expiresAt) == EnqueueDelete(s, copies[0], expiresAt)
    ensures HasActiveTask(EnqueueDeletes(s, copies, expiresAt).tasks, b)
    decreases |copies|
  {
    var front := copies[..|copies| - 1];
    if front == [] {
      assert EnqueueDeletes(s, front, expiresAt) == s;
      if !HasActiveTask(s.tasks, b) { assert IsActive(EnqueueDelete(s, copies[0], expiresAt).tasks, s.next, b); }
    } else {
      OneDeleteOrderPerBlock(s, front, b, expiresAt);
      assert copies[|copies| - 1] in copies;
    }
  }
}
