/** The commands of the recovery queue as they run: loops over the rows of one transaction, each
    proved to do what its specification in Recovery says. */
module RecoveryCommands {
  import opened Common
  import opened Entities
  import opened Cluster
  import opened Scheduler
  import opened Recovery
  import Leadership

  function Elements<T>(s: seq<T>): set<T> { set x | x in s }

  lemma ElementsOfNext<T>(s: seq<T>, i: nat)
    requires i < |s|
    ensures Elements(s[..i + 1]) == Elements(s[..i]) + {s[i]}
  {
    assert s[..i + 1] == s[..i] + [s[i]];
  }

  /** Only one ascending list has the elements of a given set. */
  lemma {:induction false} AscendingIsUnique(l: seq<Id>, ids: set<Id>)
    requires forall i, j :: 0 <= i < j < |l| ==> l[i] < l[j]
    requires forall a :: a in l <==> a in ids
    ensures l == Ascending(ids)
    decreases |l|
  {
    var m := Ascending(ids);
    AscendingLists(ids);
    if l == [] {
      assert ids == {};
    } else {
      assert l[0] in ids;
      assert m != [] && m[0] in ids;
      assert l[0] == m[0] by {
        var i :| 0 <= i < |m| && m[i] == l[0];
        var j :| 0 <= j < |l| && l[j] == m[0];
      }
      forall a ensures a in l[1..] <==> a in ids - {l[0]} {
        assert l == [l[0]] + l[1..];
      }
      AscendingIsUnique(l[1..], ids - {l[0]});
      assert m == [m[0]] + Ascending(ids - {m[0]});
    }
  }

  lemma ExpiredNext(tasks: Tasks, done: set<Id>, t: Id, maxAttempts: int)
    requires t in tasks && t !in done
    ensures ExpiredTasks(tasks, done + {t}, maxAttempts)
         == ExpiredTasks(tasks, done, maxAttempts)[t := ExpiredTask(tasks[t], maxAttempts)]
  {
  }

  lemma AbandonedNext(tasks: Tasks, done: set<Id>, t: Id)
    requires t in tasks
    ensures Abandoned(tasks, done + {t})
         == Abandoned(tasks, done) + (if tasks[t].target.Some? then {(tasks[t].block, tasks[t].target.value)} else {})
  {
    var after := Abandoned(tasks, done + {t});
    forall c | c in Abandoned(tasks, done) ensures c in after {
      var u :| u in done && u in tasks && tasks[u].target.Some? && c == (tasks[u].block, tasks[u].target.value);
      assert u in done + {t};
    }
    if tasks[t].target.Some? { assert t in done + {t}; }
  }

  /** A list of waiting tasks that are still needed, in ascending order. */
  ghost predicate NeededSoFar(s: Store, waiting: seq<Id>, kept: seq<Id>, p: Policy, th: Thresholds, now: Time) {
    && (forall i, j :: 0 <= i < j < |kept| ==> kept[i] < kept[j])
    && (forall t :: t in kept <==> t in waiting && t in s.tasks && StillNeeded(s, s.tasks[t].block, p, th, now))
  }

  lemma NeededNext(s: Store, waiting: seq<Id>, i: nat, kept: seq<Id>, p: Policy, th: Thresholds, now: Time)
    requires i < |waiting| && NeededSoFar(s, waiting[..i], kept, p, th, now) && waiting[i] in s.tasks
    requires forall i, j :: 0 <= i < j < |waiting| ==> waiting[i] < waiting[j]
    ensures NeededSoFar(s, waiting[..i + 1],
                        if StillNeeded(s, s.tasks[waiting[i]].block, p, th, now) then kept + [waiting[i]] else kept, p, th, now)
  {
    assert waiting[..i + 1] == waiting[..i] + [waiting[i]];
    forall k | 0 <= k < |kept| ensures kept[k] < waiting[i] {
      assert kept[k] in kept;
      var m :| 0 <= m < i && waiting[..i][m] == kept[k];
    }
  }

  /** Closing the satisfied tasks of a set of tasks. */
  function Closed(s: Store, among: set<Id>, p: Policy, th: Thresholds, now: Time): Tasks {
    map t | t in s.tasks ::
      if t in among && !StillNeeded(s, s.tasks[t].block, p, th, now) then s.tasks[t].(state := Done) else s.tasks[t]
  }

  lemma ClosedNext(s: Store, among: set<Id>, t: Id, p: Policy, th: Thresholds, now: Time)
    requires t in s.tasks && t !in among
    ensures Closed(s, among + {t}, p, th, now)
         == if StillNeeded(s, s.tasks[t].block, p, th, now) then Closed(s, among, p, th, now)
            else Closed(s, among, p, th, now)[t := s.tasks[t].(state := Done)]
    ensures t in Closed(s, among, p, th, now) && Closed(s, among, p, th, now)[t] == s.tasks[t]
  {
  }

  lemma ClosedIsCloseSatisfied(s: Store, p: Policy, th: Thresholds, now: Time)
    ensures Closed(s, WaitingCopies(s.tasks), p, th, now) == CloseSatisfied(s, p, th, now).tasks
  {
  }

  /** What is left waiting after the satisfied tasks are closed is what the loop kept. */
  lemma KeptIsQueue(s: Store, kept: seq<Id>, p: Policy, th: Thresholds, now: Time)
    requires NeededSoFar(s, Queue(s.tasks), kept, p, th, now)
    ensures kept == Queue(CloseSatisfied(s, p, th, now).tasks)
  {
    var after := CloseSatisfied(s, p, th, now).tasks;
    AscendingLists(WaitingCopies(s.tasks));
    forall t ensures t in kept <==> t in WaitingCopies(after) {
      assert t in Queue(s.tasks) <==> t in WaitingCopies(s.tasks);
    }
    AscendingIsUnique(kept, WaitingCopies(after));
  }

  /** Gaps and jobs only depend on which block a task is about. */
  lemma {:induction false} SameJobs(a: Tasks, b: Tasks, waiting: seq<Id>)
    requires forall t :: t in waiting ==> t in a
    requires forall t :: t in waiting ==> t in b && a[t].block == b[t].block
    ensures Jobs(a, waiting) == Jobs(b, waiting)
  {
    if waiting != [] { SameJobs(a, b, waiting[..|waiting| - 1]); }
  }

  lemma SameGaps(s: Store, v: Store, waiting: seq<Id>, p: Policy, th: Thresholds, now: Time)
    requires v == s.(tasks := v.tasks)
    requires forall t :: t in waiting ==> t in s.tasks
    requires forall t :: t in waiting ==> t in v.tasks && v.tasks[t].block == s.tasks[t].block
    ensures Gaps(s, waiting, p, th, now) == Gaps(v, waiting, p, th, now)
  {
    forall b: Id ensures GapOf(s, b, now, th, p.factor) == GapOf(v, b, now, th, p.factor) { SameGap(s, v, b, p, th, now); }
  }

  lemma SameGap(s: Store, v: Store, b: Id, p: Policy, th: Thresholds, now: Time)
    requires v == s.(tasks := v.tasks)
    ensures GapOf(s, b, now, th, p.factor) == GapOf(v, b, now, th, p.factor)
    ensures StillNeeded(s, b, p, th, now) == StillNeeded(v, b, p, th, now)
  {
    assert UsableOn(v, b, now, th) == UsableOn(s, b, now, th);
    var g, h := GapOf(s, b, now, th, p.factor), GapOf(v, b, now, th, p.factor);
    forall i | 0 <= i < |g.holderDomains| ensures g.holderDomains[i] == h.holderDomains[i] {}
    assert g.holderDomains == h.holderDomains;
  }

  /** What the triage loop has collected from the first tasks of the list. */
  ghost predicate Triaged(s: Store, waiting: seq<Id>, kept: seq<Id>, gaps: seq<Gap>, jobs: map<Id, Id>,
                          p: Policy, th: Thresholds, now: Time) {
    && NeededSoFar(s, waiting, kept, p, th, now)
    && (forall t :: t in kept ==> t in s.tasks)
    && gaps == Gaps(s, kept, p, th, now) && jobs == Jobs(s.tasks, kept)
  }

  lemma GapsNext(s: Store, kept: seq<Id>, t: Id, p: Policy, th: Thresholds, now: Time)
    requires (forall u :: u in kept ==> u in s.tasks) && t in s.tasks
    ensures Gaps(s, kept + [t], p, th, now) == Gaps(s, kept, p, th, now) + [GapOf(s, s.tasks[t].block, now, th, p.factor)]
  {
  }

  lemma JobsNext(tasks: Tasks, kept: seq<Id>, t: Id)
    requires (forall u :: u in kept ==> u in tasks) && t in tasks
    ensures Jobs(tasks, kept + [t]) == Jobs(tasks, kept)[tasks[t].block := t]
  {
    assert (kept + [t])[..|kept|] == kept;
  }

  lemma TriagedNext(s: Store, waiting: seq<Id>, i: nat, kept: seq<Id>, gaps: seq<Gap>, jobs: map<Id, Id>,
                    p: Policy, th: Thresholds, now: Time)
    requires i < |waiting| && Triaged(s, waiting[..i], kept, gaps, jobs, p, th, now) && waiting[i] in s.tasks
    requires forall i, j :: 0 <= i < j < |waiting| ==> waiting[i] < waiting[j]
    ensures var b := s.tasks[waiting[i]].block;
            if StillNeeded(s, b, p, th, now)
            then Triaged(s, waiting[..i + 1], kept + [waiting[i]], gaps + [GapOf(s, b, now, th, p.factor)], jobs[b := waiting[i]], p, th, now)
            else Triaged(s, waiting[..i + 1], kept, gaps, jobs, p, th, now)
  {
    NeededNext(s, waiting, i, kept, p, th, now);
    GapsNext(s, kept, waiting[i], p, th, now);
    JobsNext(s.tasks, kept, waiting[i]);
  }

  lemma TriagedAll(s: Store, kept: seq<Id>, gaps: seq<Gap>, jobs: map<Id, Id>, p: Policy, th: Thresholds, now: Time)
    requires Triaged(s, Queue(s.tasks), kept, gaps, jobs, p, th, now)
    ensures var v := CloseSatisfied(s, p, th, now);
            gaps == Gaps(v, Queue(v.tasks), p, th, now) && jobs == Jobs(v.tasks, Queue(v.tasks))
  {
    var v := CloseSatisfied(s, p, th, now);
    KeptIsQueue(s, kept, p, th, now);
    SameJobs(s.tasks, v.tasks, kept);
    SameGaps(s, v, kept, p, th, now);
  }

  /** Where the triage loop is after the first i tasks. */
  ghost predicate TriageState(s: Store, current: Store, i: nat, kept: seq<Id>, gaps: seq<Gap>, jobs: map<Id, Id>,
                              p: Policy, th: Thresholds, now: Time)
  {
    var waiting := Queue(s.tasks);
    && i <= |waiting|
    && current == s.(tasks := Closed(s, Elements(waiting[..i]), p, th, now))
    && Triaged(s, waiting[..i], kept, gaps, jobs, p, th, now)
  }

  lemma TriageStep(s: Store, current: Store, i: nat, kept: seq<Id>, gaps: seq<Gap>, jobs: map<Id, Id>,
                   p: Policy, th: Thresholds, now: Time)
    requires TriageState(s, current, i, kept, gaps, jobs, p, th, now) && i < |Queue(s.tasks)|
    ensures var t := Queue(s.tasks)[i];
            && t in current.tasks
            && var b := current.tasks[t].block;
               if StillNeeded(current, b, p, th, now)
               then TriageState(s, current, i + 1, kept + [t], gaps + [GapOf(current, b, now, th, p.factor)], jobs[b := t], p, th, now)
               else TriageState(s, current.(tasks := current.tasks[t := current.tasks[t].(state := Done)]), i + 1, kept, gaps, jobs, p, th, now)
  {
    var waiting := Queue(s.tasks);
    var t := waiting[i];
    AscendingLists(WaitingCopies(s.tasks));
    assert t in waiting && t !in waiting[..i] && IsWaitingCopy(s.tasks, t);
    ElementsOfNext(waiting, i);
    ClosedNext(s, Elements(waiting[..i]), t, p, th, now);
    TriagedNext(s, waiting, i, kept, gaps, jobs, p, th, now);
    SameGap(s, current, s.tasks[t].block, p, th, now);
  }

  lemma TriageStart(s: Store, p: Policy, th: Thresholds, now: Time)
    ensures TriageState(s, s, 0, [], [], map[], p, th, now)
  {
    assert Closed(s, {}, p, th, now) == s.tasks;
  }

  lemma TriageEnd(s: Store, current: Store, kept: seq<Id>, gaps: seq<Gap>, jobs: map<Id, Id>, p: Policy, th: Thresholds, now: Time)
    requires TriageState(s, current, |Queue(s.tasks)|, kept, gaps, jobs, p, th, now)
    ensures current == CloseSatisfied(s, p, th, now)
    ensures gaps == Gaps(current, Queue(current.tasks), p, th, now) && jobs == Jobs(current.tasks, Queue(current.tasks))
  {
    var waiting := Queue(s.tasks);
    AscendingLists(WaitingCopies(s.tasks));
    assert waiting[..|waiting|] == waiting;
    assert Elements(waiting) == WaitingCopies(s.tasks);
    ClosedIsCloseSatisfied(s, p, th, now);
    TriagedAll(s, kept, gaps, jobs, p, th, now);
  }

  class RecoveryDb {
    var lease: Option<Leadership.Lease>
    var files: Files
    var blocks: Blocks
    var copies: Copies
    var nodes: Nodes
    var tasks: Tasks
    var next: Id

    function Snapshot(): Store reads this { Store(lease, files, blocks, copies, nodes, tasks, next) }

    /** Queues a copy, or says that the block already has a live task. */
    method Enqueue(b: Id, copiesNow: nat) returns (queued: bool)
      modifies this`tasks, this`next
      ensures queued <==> !HasActiveTask(old(tasks), b)
      ensures queued ==> tasks == old(tasks)[old(next) := NewCopyTask(b, copiesNow)] && next == old(next) + 1
      ensures !queued ==> tasks == old(tasks) && next == old(next)
    {
      if HasActiveTask(tasks, b) {
        return false;
      }
      tasks := tasks[next := NewCopyTask(b, copiesNow)];
      next := next + 1;
      return true;
    }

    method ScanAndEnqueue(fencing: Leadership.Fencing, p: Policy, th: Thresholds, now: Time) returns (r: Result<nat>)
      modifies this`tasks, this`next
      ensures match Scan(old(Snapshot()), fencing, p, th, now)
              case Ok(after) => Snapshot() == after && r == Ok(next - old(next))
              case Err(e) => r == Err(e) && Snapshot() == old(Snapshot())
    {
      var leads := Leadership.RequireLeadership(lease, fencing, now);
      if leads.Err? {
        return Err(leads.error);
      }
      ghost var begin := Snapshot();
      var short := Ascending(ShortBlocks(Snapshot(), p.factor));
      var queued: nat := 0;
      for i := 0 to |short|
        invariant Snapshot() == EnqueueAll(begin, short[..i], p, th, now)
        invariant next == begin.next + queued
      {
        assert short[..i + 1][..i] == short[..i];
        var b := short[i];
        if !HasSettled(Snapshot(), b, now, th, p.grace) {
          continue;
        }
        var gap := GapOf(Snapshot(), b, now, th, p.factor);
        if gap.Missing() <= 0 {
          continue;
        }
        var added := Enqueue(b, gap.current);
        if added { queued := queued + 1; }
      }
      assert short[..|short|] == short;
      return Ok(queued);
    }

    method ExpireStale(now: Time, maxAttempts: int) returns (abandoned: seq<(Id, Id)>)
      modifies this`tasks
      ensures tasks == ExpiredTasks(old(tasks), Stale(old(tasks), now), maxAttempts)
      ensures Elements(abandoned) == Abandoned(old(tasks), Stale(old(tasks), now))
    {
      ghost var begin := tasks;
      var stale := Ascending(Stale(tasks, now));
      AscendingLists(Stale(tasks, now));
      abandoned := [];
      for i := 0 to |stale|
        invariant tasks == ExpiredTasks(begin, Elements(stale[..i]), maxAttempts)
        invariant Elements(abandoned) == Abandoned(begin, Elements(stale[..i]))
      {
        var t := stale[i];
        assert t in stale && t !in stale[..i];
        ElementsOfNext(stale, i);
        ExpiredNext(begin, Elements(stale[..i]), t, maxAttempts);
        AbandonedNext(begin, Elements(stale[..i]), t);
        var task := tasks[t];
        if task.target.Some? {
          abandoned := abandoned + [(task.block, task.target.value)];
        }
        if task.attempts >= maxAttempts {
          tasks := tasks[t := task.(state := Failed)];
        } else {
          tasks := tasks[t := task.(state := Waiting, target := None, source := None, expiresAt := None)];
        }
      }
      assert Elements(stale[..|stale|]) == Stale(begin, now);
    }

    method DropPlanned(planned: seq<(Id, Id)>)
      modifies this`copies
      ensures copies == DropPending(old(copies), Elements(planned))
    {
      for i := 0 to |planned|
        invariant copies == DropPending(old(copies), Elements(planned[..i]))
      {
        ElementsOfNext(planned, i);
        var c := planned[i];
        if c in copies && copies[c].state.Pending? {
          copies := copies - {c};
        }
      }
      assert planned[..|planned|] == planned;
    }

    /** Closes the task of a gap that is gone. */
    method TriageOne(t: Id, p: Policy, th: Thresholds, now: Time) returns (gap: Option<Gap>)
      requires t in tasks
      modifies this`tasks
      ensures var b := old(tasks)[t].block;
              if StillNeeded(old(Snapshot()), b, p, th, now)
              then Snapshot() == old(Snapshot()) && gap == Some(GapOf(old(Snapshot()), b, now, th, p.factor))
              else Snapshot() == old(Snapshot()).(tasks := old(tasks)[t := old(tasks)[t].(state := Done)]) && gap == None
    {
      var b := tasks[t].block;
      if !IsShort(Snapshot(), b, p.factor) {
        tasks := tasks[t := tasks[t].(state := Done)];
        return None;
      }
      var found := GapOf(Snapshot(), b, now, th, p.factor);
      if found.Missing() <= 0 {
        tasks := tasks[t := tasks[t].(state := Done)];
        return None;
      }
      return Some(found);
    }

    /** Closes the tasks whose gap is gone; the rest become gaps, each with its task. */
    method Triage(p: Policy, th: Thresholds, now: Time) returns (gaps: seq<Gap>, jobs: map<Id, Id>)
      modifies this`tasks
      ensures Snapshot() == CloseSatisfied(old(Snapshot()), p, th, now)
      ensures gaps == Gaps(Snapshot(), Queue(tasks), p, th, now) && jobs == Jobs(tasks, Queue(tasks))
    {
      ghost var begin := Snapshot();
      var waiting := Queue(tasks);
      gaps, jobs := [], map[];
      ghost var kept: seq<Id> := [];
      TriageStart(begin, p, th, now);
      for i := 0 to |waiting|
        invariant TriageState(begin, Snapshot(), i, kept, gaps, jobs, p, th, now)
      {
        TriageStep(begin, Snapshot(), i, kept, gaps, jobs, p, th, now);
        var t := waiting[i];
        var b := tasks[t].block;
        var gap := TriageOne(t, p, th, now);
        if gap.None? {
          continue;
        }
        gaps, jobs := gaps + [gap.value], jobs[b := t];
        kept := kept + [t];
      }
      TriageEnd(begin, Snapshot(), kept, gaps, jobs, p, th, now);
    }

    method LaunchOne(a: Assignment, jobs: map<Id, Id>, now: Time, ttl: Time)
      modifies this`copies, this`tasks
      ensures Snapshot() == Launch(old(Snapshot()), a, jobs, now, ttl)
    {
      if (a.block, a.target) !in copies {
        copies := copies[(a.block, a.target) := Copy(Pending, now)];
      }
      if a.block in jobs && jobs[a.block] in tasks {
        var t := jobs[a.block];
        tasks := tasks[t := SentTask(tasks[t], a, now, ttl)];
      }
    }

    method LaunchPlan(plan: seq<Assignment>, jobs: map<Id, Id>, now: Time, ttl: Time)
      modifies this`copies, this`tasks
      ensures Snapshot() == LaunchAll(old(Snapshot()), plan, jobs, now, ttl)
    {
      ghost var ready := Snapshot();
      for i := 0 to |plan|
        invariant Snapshot() == LaunchAll(ready, plan[..i], jobs, now, ttl)
      {
        assert plan[..i + 1][..i] == plan[..i];
        LaunchOne(plan[i], jobs, now, ttl);
      }
      assert plan[..|plan|] == plan;
    }

    method ReturnExpired(now: Time, maxAttempts: int)
      modifies this`copies, this`tasks
      ensures Snapshot() == Expire(old(Snapshot()), now, maxAttempts)
    {
      var abandoned := ExpireStale(now, maxAttempts);
      DropPlanned(abandoned);
    }

    method DispatchCopies(fencing: Leadership.Fencing, p: Policy, th: Thresholds, now: Time) returns (r: Result<seq<Assignment>>)
      modifies this`copies, this`tasks
      ensures match Dispatch(old(Snapshot()), fencing, p, th, now)
              case Ok(after) => Snapshot() == after.0 && r == Ok(after.1)
              case Err(e) => r == Err(e) && Snapshot() == old(Snapshot())
    {
      var leads := Leadership.RequireLeadership(lease, fencing, now);
      if leads.Err? {
        return Err(leads.error);
      }
      ReturnExpired(now, p.maxAttempts);
      var gaps, jobs := Triage(p, th, now);
      var plan := AssignTargets(gaps, Candidates(Snapshot(), th, now), InFlightByTarget(tasks), p.maxPerNode,
                                Some(p.maxPerPass), 1);
      LaunchPlan(plan, jobs, now, p.taskTtl);
      return Ok(plan);
    }

    /** Closes the task of this copy, if there was one; says whether it did. */
    method CompleteForBlock(b: Id, n: Id) returns (closed: bool)
      modifies this`tasks
      ensures tasks == map t | t in old(tasks) ::
                if old(tasks)[t].block == b && old(tasks)[t].target == Some(n) && old(tasks)[t].state.InFlight?
                then old(tasks)[t].(state := Done, expiresAt := None) else old(tasks)[t]
      ensures closed <==> tasks != old(tasks)
    {
      var open := set t | t in tasks && tasks[t].block == b && tasks[t].target == Some(n) && tasks[t].state.InFlight?;
      ghost var begin := tasks;
      tasks := map t | t in tasks :: if t in open then tasks[t].(state := Done, expiresAt := None) else tasks[t];
      closed := open != {};
      if closed {
        ghost var t :| t in open;
        assert tasks[t] != begin[t];
      }
    }

    method MarkBlockStored(b: Id, n: Id) returns (r: Result<()>)
      modifies this`copies, this`tasks
      ensures match MarkStored(old(Snapshot()), b, n)
              case Ok(after) => Snapshot() == after && r == Ok(())
              case Err(e) => r == Err(e) && Snapshot() == old(Snapshot())
    {
      if n !in nodes {
        return Err(NotFound);
      }
      if b !in blocks || (b, n) !in copies {
        return Err(NotFound);
      }
      copies := copies[(b, n) := copies[(b, n)].(state := Stored)];
      var _ := CompleteForBlock(b, n);
      return Ok(());
    }

    method ConfirmGc(ids: set<Id>)
      modifies this`blocks, this`copies, this`tasks
      ensures Snapshot() == ConfirmCollected(old(Snapshot()), ids)
    {
      copies := map c | c in copies && c.0 !in ids :: copies[c];
      blocks := map b | b in blocks && b !in ids :: blocks[b];
      tasks := map t | t in tasks && tasks[t].block !in ids :: tasks[t];
    }
  }
}
