/** The queue of recovery copies: scan for gaps, dispatch under the caps, close what was confirmed,
    return what was not (commands/rereplication.py, SqlRereplicationRepository, commands/internal.py). */
module Recovery {
  import opened Common
  import opened Entities
  import opened Cluster
  import opened Scheduler
  import Leadership

  datatype TaskKind = Replicate | Delete

  /** PENDING, IN_FLIGHT, DONE and FAILED of the task table. */
  datatype TaskState = Waiting | InFlight | Done | Failed

  datatype Task = Task(block: Id, kind: TaskKind, state: TaskState, source: Option<Id>, target: Option<Id>,
                       atSchedule: nat, attempts: nat, expiresAt: Option<Time>) {
    predicate Live() { state.Waiting? || state.InFlight? }
  }

  type Tasks = map<Id, Task>

  datatype Policy = Policy(factor: nat, grace: Time, maxPerNode: nat, maxPerPass: int, taskTtl: Time, maxAttempts: int)

  /** The tables the queue touches. `next` is the primary key the next INSERT mints. */
  datatype Store = Store(lease: Option<Leadership.Lease>, files: Files, blocks: Blocks, copies: Copies, nodes: Nodes,
                         tasks: Tasks, next: Id)

  // ----- Detection -----------------------------------------------------------

  function HeartbeatOf(s: Store, n: Id): Option<Time> { if n in s.nodes then s.nodes[n].lastHeartbeat else None }

  function DomainOf(s: Store, n: Id): string { if n in s.nodes then s.nodes[n].domain else "" }

  /** A stored copy on a node that is not dead; a suspect node counts. */
  predicate Usable(s: Store, b: Id, n: Id, now: Time, th: Thresholds) {
    && (b, n) in s.copies && s.copies[(b, n)].state == Stored
    && !StateFor(HeartbeatOf(s, n), now, th, None).Dead?
  }

  function UsableOn(s: Store, b: Id, now: Time, th: Thresholds): set<Id> {
    set n | n in CopiesOn(s.copies, b) && Usable(s, b, n, now, th)
  }

  /** A block of a committed file with fewer stored rows than the factor. */
  predicate IsShort(s: Store, b: Id, factor: nat) {
    && b in s.blocks && s.blocks[b].file.Some? && s.blocks[b].file.value in s.files
    && s.files[s.blocks[b].file.value].state.Committed?
    && |StoredOn(s.copies, b)| < factor
  }

  function ShortBlocks(s: Store, factor: nat): set<Id> { set b | b in s.blocks && IsShort(s, b, factor) }

  /** Every absent copy has been absent for longer than the grace period. */
  predicate HasSettled(s: Store, b: Id, now: Time, th: Thresholds, grace: Time) {
    forall n | n in CopiesOn(s.copies, b) ::
      Usable(s, b, n, now, th) ||
      (if (b, n) in s.copies && s.copies[(b, n)].state == Pending then now - s.copies[(b, n)].createdAt >= grace
       else HeartbeatOf(s, n).Some? && now - HeartbeatOf(s, n).value >= th.deadAfter + grace)
  }

  function GapOf(s: Store, b: Id, now: Time, th: Thresholds, factor: nat): Gap {
    var nodes := Ascending(UsableOn(s, b, now, th));
    Gap(b, |nodes|, factor, nodes, seq(|nodes|, i requires 0 <= i < |nodes| => DomainOf(s, nodes[i])))
  }

  predicate IsActive(tasks: Tasks, t: Id, b: Id) { t in tasks && tasks[t].block == b && tasks[t].Live() }

  predicate HasActiveTask(tasks: Tasks, b: Id) { exists t | t in tasks :: IsActive(tasks, t, b) }

  predicate WorthEnqueuing(s: Store, b: Id, p: Policy, th: Thresholds, now: Time) {
    HasSettled(s, b, now, th, p.grace) && GapOf(s, b, now, th, p.factor).Missing() > 0
  }

  function NewCopyTask(b: Id, copies: nat): Task { Task(b, Replicate, Waiting, None, None, copies, 0, None) }

  function EnqueueOne(s: Store, b: Id, p: Policy, th: Thresholds, now: Time): Store {
    if !WorthEnqueuing(s, b, p, th, now) || HasActiveTask(s.tasks, b) then s
    else s.(tasks := s.tasks[s.next := NewCopyTask(b, GapOf(s, b, now, th, p.factor).current)], next := s.next + 1)
  }

  function EnqueueAll(s: Store, blocks: seq<Id>, p: Policy, th: Thresholds, now: Time): Store {
    if blocks == [] then s
    else EnqueueOne(EnqueueAll(s, blocks[..|blocks| - 1], p, th, now), blocks[|blocks| - 1], p, th, now)
  }

  function Scan(s: Store, fencing: Leadership.Fencing, p: Policy, th: Thresholds, now: Time): Result<Store> {
    var leads := Leadership.RequireLeadership(s.lease, fencing, now);
    if leads.Err? then Err(leads.error)
    else Ok(EnqueueAll(s, Ascending(ShortBlocks(s, p.factor)), p, th, now))
  }

  // ----- Dispatch ------------------------------------------------------------

  function Stale(tasks: Tasks, now: Time): set<Id> {
    set t | t in tasks && tasks[t].state.InFlight? && tasks[t].expiresAt.Some? && tasks[t].expiresAt.value < now
  }

  function ExpiredTask(task: Task, maxAttempts: int): Task {
    if task.attempts >= maxAttempts then task.(state := Failed)
    else task.(state := Waiting, target := None, source := None, expiresAt := None)
  }

  function ExpiredTasks(tasks: Tasks, stale: set<Id>, maxAttempts: int): Tasks {
    map t | t in tasks :: if t in stale then ExpiredTask(tasks[t], maxAttempts) else tasks[t]
  }

  /** The planned copies that never got written. */
  function Abandoned(tasks: Tasks, stale: set<Id>): set<(Id, Id)> {
    set t | t in stale && t in tasks && tasks[t].target.Some? :: (tasks[t].block, tasks[t].target.value)
  }

  function DropPending(copies: Copies, planned: set<(Id, Id)>): Copies {
    map c | c in copies && !(c in planned && copies[c].state.Pending?) :: copies[c]
  }

  function Expire(s: Store, now: Time, maxAttempts: int): Store {
    var stale := Stale(s.tasks, now);
    s.(tasks := ExpiredTasks(s.tasks, stale, maxAttempts), copies := DropPending(s.copies, Abandoned(s.tasks, stale)))
  }

  predicate IsWaitingCopy(tasks: Tasks, t: Id) { t in tasks && tasks[t].kind.Replicate? && tasks[t].state.Waiting? }

  function WaitingCopies(tasks: Tasks): set<Id> { set t | t in tasks && IsWaitingCopy(tasks, t) }

  /** The gap may have closed by itself since the task was queued. */
  predicate StillNeeded(s: Store, b: Id, p: Policy, th: Thresholds, now: Time) {
    IsShort(s, b, p.factor) && GapOf(s, b, now, th, p.factor).Missing() > 0
  }

  function CloseSatisfied(s: Store, p: Policy, th: Thresholds, now: Time): Store {
    s.(tasks := map t | t in s.tasks ::
         if IsWaitingCopy(s.tasks, t) && !StillNeeded(s, s.tasks[t].block, p, th, now)
         then s.tasks[t].(state := Done) else s.tasks[t])
  }

  function Gaps(s: Store, waiting: seq<Id>, p: Policy, th: Thresholds, now: Time): (r: seq<Gap>)
    requires forall t :: t in waiting ==> t in s.tasks
    ensures |r| == |waiting|
    ensures forall i :: 0 <= i < |r| ==> r[i] == GapOf(s, s.tasks[waiting[i]].block, now, th, p.factor)
  {
    seq(|waiting|, i requires 0 <= i < |waiting| => GapOf(s, s.tasks[waiting[i]].block, now, th, p.factor))
  }

  /** Which task asked for the copy of each block. */
  function Jobs(tasks: Tasks, waiting: seq<Id>): map<Id, Id>
    requires forall t :: t in waiting ==> t in tasks
  {
    if waiting == [] then map[] else
    var last := waiting[|waiting| - 1];
    Jobs(tasks, waiting[..|waiting| - 1])[tasks[last].block := last]
  }

  function Candidates(s: Store, th: Thresholds, now: Time): seq<Candidate> {
    var alive := Ascending(set n | n in s.nodes && StateOfNode(s.nodes[n], now, th).Alive?);
    seq(|alive|, i requires 0 <= i < |alive| => (alive[i], DomainOf(s, alive[i])))
  }

  function BusyWith(tasks: Tasks, n: Id): set<Id> { set t | t in tasks && tasks[t].state.InFlight? && tasks[t].target == Some(n) }

  function InFlightByTarget(tasks: Tasks): map<Id, nat> {
    var targets := set t | t in tasks && tasks[t].state.InFlight? && tasks[t].target.Some? :: tasks[t].target.value;
    map n | n in targets :: |BusyWith(tasks, n)|
  }

  function SentTask(task: Task, a: Assignment, now: Time, ttl: Time): Task {
    task.(state := InFlight, source := Some(a.source), target := Some(a.target), expiresAt := Some(now + ttl),
          attempts := task.attempts + 1)
  }

  /** Registers the planned copy, unless the row is already there, and sends the task off. */
  function Launch(s: Store, a: Assignment, jobs: map<Id, Id>, now: Time, ttl: Time): Store {
    var copies := if (a.block, a.target) in s.copies then s.copies else s.copies[(a.block, a.target) := Copy(Pending, now)];
    var tasks := if a.block in jobs && jobs[a.block] in s.tasks
                 then s.tasks[jobs[a.block] := SentTask(s.tasks[jobs[a.block]], a, now, ttl)] else s.tasks;
    s.(copies := copies, tasks := tasks)
  }

  function LaunchAll(s: Store, r: seq<Assignment>, jobs: map<Id, Id>, now: Time, ttl: Time): Store {
    if r == [] then s else Launch(LaunchAll(s, r[..|r| - 1], jobs, now, ttl), r[|r| - 1], jobs, now, ttl)
  }

  /** The state in which targets are chosen: expired tasks returned, satisfied ones closed. */
  function Prepared(s: Store, p: Policy, th: Thresholds, now: Time): Store {
    CloseSatisfied(Expire(s, now, p.maxAttempts), p, th, now)
  }

  /** The tasks that are still waiting, in a fixed order; the assignment does not depend on it. */
  function Queue(tasks: Tasks): (r: seq<Id>)
    ensures forall t :: t in r ==> IsWaitingCopy(tasks, t)
  {
    AscendingLists(WaitingCopies(tasks));
    Ascending(WaitingCopies(tasks))
  }

  function LimitsOf(s: Store, p: Policy, th: Thresholds, now: Time): Limits {
    Limits(Candidates(s, th, now), InFlightByTarget(s.tasks), p.maxPerNode, Some(p.maxPerPass), 1)
  }

  function Assigned(s: Store, p: Policy, th: Thresholds, now: Time): seq<Assignment> {
    Pass(Prioritise(Gaps(s, Queue(s.tasks), p, th, now)), [], LimitsOf(s, p, th, now))
  }

  function Dispatch(s: Store, fencing: Leadership.Fencing, p: Policy, th: Thresholds, now: Time): Result<(Store, seq<Assignment>)> {
    var leads := Leadership.RequireLeadership(s.lease, fencing, now);
    if leads.Err? then Err(leads.error) else
    var ready := Prepared(s, p, th, now);
    var r := Assigned(ready, p, th, now);
    Ok((LaunchAll(ready, r, Jobs(ready.tasks, Queue(ready.tasks)), now, p.taskTtl), r))
  }

  // ----- Closing, deleting -----------------------------------------------------

  /** The destination says it has the block: the row becomes STORED and the task is closed. */
  function MarkStored(s: Store, b: Id, n: Id): Result<Store> {
    if n !in s.nodes || b !in s.blocks || (b, n) !in s.copies then Err(NotFound) else
    Ok(s.(copies := s.copies[(b, n) := s.copies[(b, n)].(state := Stored)],
          tasks := map t | t in s.tasks ::
            if s.tasks[t].block == b && s.tasks[t].target == Some(n) && s.tasks[t].state.InFlight?
            then s.tasks[t].(state := Done, expiresAt := None) else s.tasks[t]))
  }

  function EnqueueDelete(s: Store, c: (Id, Id), expiresAt: Time): Store {
    if HasActiveTask(s.tasks, c.0) then s
    else s.(tasks := s.tasks[s.next := Task(c.0, Delete, InFlight, None, Some(c.1), 0, 1, Some(expiresAt))], next := s.next + 1)
  }

  function EnqueueDeletes(s: Store, copies: seq<(Id, Id)>, expiresAt: Time): Store {
    if copies == [] then s else EnqueueDelete(EnqueueDeletes(s, copies[..|copies| - 1], expiresAt), copies[|copies| - 1], expiresAt)
  }

  /** Deleting block rows takes their copies and, by the foreign key, their tasks with them. */
  function ConfirmCollected(s: Store, ids: set<Id>): Store {
    s.(blocks := map b | b in s.blocks && b !in ids :: s.blocks[b],
       copies := map c | c in s.copies && c.0 !in ids :: s.copies[c],
       tasks := map t | t in s.tasks && s.tasks[t].block !in ids :: s.tasks[t])
  }
}
