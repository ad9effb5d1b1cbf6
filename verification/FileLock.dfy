/** Shared and exclusive file leases with per-file epochs
    (domain/filelock.py, commands/filelock.py and their repository). */
module FileLocks {
  import opened Common

  datatype LockMode = Shared | Exclusive

  datatype FileLock = FileLock(holder: Id, mode: LockMode, epoch: nat, expiresAt: Time) {
    predicate IsExpired(now: Time) { now >= expiresAt }
  }

  /** What a write carries: who took the lock and which grant it was. */
  datatype LockFencing = LockFencing(holder: Id, epoch: nat)

  datatype Decision = Grant | RenewExisting | Conflict(holder: Id, mode: LockMode, remaining: Time)

  /** The rows of one file in storage order. The schema allows one row per holder. */
  type Rows = seq<FileLock>

  function Live(rows: Rows, now: Time): (r: Rows)
    ensures forall l :: l in r <==> l in rows && !l.IsExpired(now)
  {
    if rows == [] then [] else
    (if rows[0].IsExpired(now) then [] else [rows[0]]) + Live(rows[1..], now)
  }

  function OfHolder(rows: Rows, holder: Id): (r: Option<FileLock>)
    ensures r.Some? ==> r.value in rows && r.value.holder == holder
    ensures r.None? ==> forall l :: l in rows ==> l.holder != holder
  {
    if rows == [] then None else if rows[0].holder == holder then Some(rows[0]) else OfHolder(rows[1..], holder)
  }

  function FirstExclusive(rows: Rows): (r: Option<FileLock>)
    ensures r.Some? ==> r.value in rows && r.value.mode.Exclusive?
    ensures r.None? ==> forall l :: l in rows ==> l.mode.Shared?
  {
    if rows == [] then None else if rows[0].mode.Exclusive? then Some(rows[0]) else FirstExclusive(rows[1..])
  }

  /** Highest epoch among the rows of a file, expired ones included; 0 when there are none. */
  function MaxEpoch(rows: Rows): (m: nat)
    ensures forall l :: l in rows ==> l.epoch <= m
  {
    if rows == [] then 0 else Max(rows[0].epoch, MaxEpoch(rows[1..]))
  }

  function Obstacle(lock: FileLock, now: Time): Decision {
    Conflict(lock.holder, lock.mode, Max(0, lock.expiresAt - now))
  }

  function CanAcquire(existing: Rows, holder: Id, mode: LockMode, now: Time): Decision {
    var live := Live(existing, now);
    match OfHolder(live, holder)
    case Some(mine) => if mine.mode == mode then RenewExisting else Obstacle(mine, now)
    case None =>
      if live == [] then Grant
      else if mode.Exclusive? then Obstacle(live[0], now)
      else match FirstExclusive(live) case None => Grant case Some(other) => Obstacle(other, now)
  }

  /** Replaces the holder's row, or adds one at the end. */
  function Upsert(rows: Rows, lock: FileLock): Rows {
    if rows == [] then [lock]
    else if rows[0].holder == lock.holder then [lock] + rows[1..]
    else [rows[0]] + Upsert(rows[1..], lock)
  }

  function Without(rows: Rows, holder: Id): Rows {
    if rows == [] then [] else if rows[0].holder == holder then rows[1..] else [rows[0]] + Without(rows[1..], holder)
  }

  // ----- Commands ------------------------------------------------------------

  function Granted(rows: Rows, holder: Id, mode: LockMode, ttl: Time, now: Time): FileLock {
    FileLock(holder, mode, MaxEpoch(rows) + 1, now + ttl)
  }

  function Acquire(rows: Rows, holder: Id, mode: LockMode, ttl: Time, now: Time): Result<Rows> {
    if CanAcquire(rows, holder, mode, now).Conflict? then Err(FileLocked)
    else Ok(Upsert(rows, Granted(rows, holder, mode, ttl, now)))
  }

  /** Whether a write may go ahead, decided inside the transaction of the write. */
  function RequireLock(rows: Rows, fencing: Option<LockFencing>, now: Time): Result<()> {
    var live := Live(rows, now);
    match fencing
    case None => if live == [] then Ok(()) else Err(FileLocked)
    case Some(f) =>
      match OfHolder(live, f.holder)
      case None => Err(StaleLock)
      case Some(mine) =>
        if mine.epoch != f.epoch then Err(StaleLock)
        else if mine.mode.Shared? then Err(FileLocked)
        else Ok(())
  }

  /** The lock table: the rows of every file that has any. */
  class LockTable {
    var rows: map<Id, Rows>

    function RowsOf(file: Id): Rows reads this {
      if file in rows then rows[file] else []
    }

    method AcquireLock(file: Id, holder: Id, mode: LockMode, ttl: Time, now: Time) returns (r: Result<FileLock>)
      modifies this
      ensures match Acquire(old(RowsOf(file)), holder, mode, ttl, now)
              case Err(e) => r == Err(e) && rows == old(rows)
              case Ok(after) =>
                && r == Ok(Granted(old(RowsOf(file)), holder, mode, ttl, now))
                && rows == old(rows)[file := after]
    {
      var existing := RowsOf(file);
      var decision := CanAcquire(existing, holder, mode, now);
      if decision.Conflict? {
        return Err(FileLocked);
      }
      var epoch := MaxEpoch(existing) + 1;
      var lock := FileLock(holder, mode, epoch, now + ttl);
      rows := rows[file := Upsert(existing, lock)];
      return Ok(lock);
    }

    method ReleaseLock(file: Id, holder: Id) returns (released: bool)
      modifies this
      ensures released <==> OfHolder(old(RowsOf(file)), holder).Some?
      ensures rows == if released then old(rows)[file := Without(old(RowsOf(file)), holder)] else old(rows)
    {
      var existing := RowsOf(file);
      if OfHolder(existing, holder).None? {
        return false;
      }
      rows := rows[file := Without(existing, holder)];
      return true;
    }
  }

  // ----- What the table keeps ------------------------------------------------

  ghost predicate OneRowPerHolder(rows: Rows) {
    forall i, j :: 0 <= i < j < |rows| ==> rows[i].holder != rows[j].holder
  }

  ghost predicate DistinctEpochs(rows: Rows) {
    forall i, j :: 0 <= i < j < |rows| ==> rows[i].epoch != rows[j].epoch
  }

  /** At instant `now` the live locks are all shared, or one exclusive lock alone. */
  ghost predicate Exclusion(rows: Rows, now: Time) {
    forall a, b :: a in rows && b in rows && a != b && !a.IsExpired(now) && !b.IsExpired(now) ==>
                     a.mode.Shared? && b.mode.Shared?
  }

  ghost predicate Sound(rows: Rows, now: Time) {
    OneRowPerHolder(rows) && DistinctEpochs(rows) && Exclusion(rows, now)
  }

  lemma HeadAndTail<T>(s: seq<T>)
    requires s != []
    ensures forall x :: x in s <==> x == s[0] || x in s[1..]
  {
    assert s == [s[0]] + s[1..];
  }

  lemma {:induction false} UpsertRows(rows: Rows, lock: FileLock)
    requires OneRowPerHolder(rows)
    ensures forall l :: l in Upsert(rows, lock) <==> l == lock || (l in rows && l.holder != lock.holder)
    ensures OneRowPerHolder(Upsert(rows, lock))
  {
    if rows != [] {
      HeadAndTail(rows);
      HeadAndTail(Upsert(rows, lock));
      if rows[0].holder == lock.holder {
        forall l | l in rows[1..] ensures l.holder != lock.holder {
          var i :| 0 <= i < |rows[1..]| && rows[1..][i] == l;
          assert rows[i + 1] == l;
        }
      } else {
        UpsertRows(rows[1..], lock);
        UpsertedHead(rows, lock);
      }
    }
  }

  lemma UpsertedHead(rows: Rows, lock: FileLock)
    requires rows != [] && OneRowPerHolder(rows) && rows[0].holder != lock.holder
    requires var rest := Upsert(rows[1..], lock);
             OneRowPerHolder(rest) && forall l :: l in rest <==> l == lock || (l in rows[1..] && l.holder != lock.holder)
    ensures OneRowPerHolder(Upsert(rows, lock))
  {
    var rest := Upsert(rows[1..], lock);
    forall j | 0 <= j < |rest| ensures rest[j].holder != rows[0].holder {
      assert rest[j] in rest;
      if rest[j] != lock {
        var i :| 0 <= i < |rows[1..]| && rows[1..][i] == rest[j];
        assert rows[i + 1] == rest[j];
      }
    }
  }

  lemma {:induction false} UpsertEpochs(rows: Rows, lock: FileLock)
    requires OneRowPerHolder(rows) && DistinctEpochs(rows) && forall l :: l in rows ==> l.epoch < lock.epoch
    ensures DistinctEpochs(Upsert(rows, lock))
  {
    if rows != [] {
      HeadAndTail(rows);
      if rows[0].holder != lock.holder {
        UpsertRows(rows[1..], lock);
        UpsertEpochs(rows[1..], lock);
        var rest := Upsert(rows[1..], lock);
        forall j | 0 <= j < |rest| ensures rest[j].epoch != rows[0].epoch {
          assert rest[j] in rest;
          if rest[j] != lock {
            var i :| 0 <= i < |rows[1..]| && rows[1..][i] == rest[j];
            assert rows[i + 1] == rest[j];
          }
        }
      }
    }
  }

  lemma {:induction false} WithoutRows(rows: Rows, holder: Id)
    requires OneRowPerHolder(rows)
    ensures forall l :: l in Without(rows, holder) <==> l in rows && l.holder != holder
    ensures OneRowPerHolder(Without(rows, holder))
  {
    if rows != [] && rows[0].holder != holder {
      WithoutRows(rows[1..], holder);
      assert rows == [rows[0]] + rows[1..];
    } else if rows != [] {
      assert rows == [rows[0]] + rows[1..];
    }
  }

  lemma {:induction false} WithoutEpochs(rows: Rows, holder: Id)
    requires OneRowPerHolder(rows) && DistinctEpochs(rows)
    ensures DistinctEpochs(Without(rows, holder))
  {
    if rows != [] && rows[0].holder != holder {
      var rest := Without(rows[1..], holder);
      WithoutRows(rows[1..], holder);
      WithoutEpochs(rows[1..], holder);
      forall j | 0 <= j < |rest| ensures rest[j].epoch != rows[0].epoch {
        assert rest[j] in rest;
      }
    }
  }

  lemma SameHolderSameRow(rows: Rows, a: FileLock, b: FileLock)
    requires OneRowPerHolder(rows) && a in rows && b in rows && a.holder == b.holder
    ensures a == b
  {
    var i :| 0 <= i < |rows| && rows[i] == a;
    var j :| 0 <= j < |rows| && rows[j] == b;
  }

  /** A lock is refused exactly when a live lock is in the way: one's own in another mode,
      any other one for an exclusive request, an exclusive one for a shared request. */
  lemma RefusedExactlyOnConflict(rows: Rows, holder: Id, mode: LockMode, ttl: Time, now: Time)
    requires Sound(rows, now)
    ensures Acquire(rows, holder, mode, ttl, now).Err? <==>
            exists l :: l in rows && !l.IsExpired(now) &&
                        if l.holder == holder then l.mode != mode else (mode.Exclusive? || l.mode.Exclusive?)
  {
    var live := Live(rows, now);
    match OfHolder(live, holder) {
      case Some(mine) =>
        forall l | l in rows && l.holder == holder ensures l == mine { SameHolderSameRow(rows, l, mine); }
      case None =>
        if live != [] { assert live[0] in live; }
    }
  }

  /** A write passes with no live lock, or as the sole live exclusive holder at its exact epoch. */
  lemma WritePassesExactly(rows: Rows, fencing: Option<LockFencing>, now: Time)
    requires Sound(rows, now)
    ensures RequireLock(rows, fencing, now).Ok? <==>
            match fencing
            case None => forall l :: l in rows ==> l.IsExpired(now)
            case Some(f) =>
              exists mine :: mine in rows && !mine.IsExpired(now) && mine.holder == f.holder && mine.epoch == f.epoch
                             && mine.mode.Exclusive? && forall l :: l in rows && !l.IsExpired(now) ==> l == mine
  {
    var live := Live(rows, now);
    if live != [] { assert live[0] in live; }
    if fencing.Some? {
      match OfHolder(live, fencing.value.holder) {
        case None =>
        case Some(mine) =>
          forall l | l in rows && l.holder == mine.holder ensures l == mine { SameHolderSameRow(rows, l, mine); }
      }
    }
  }

  lemma AcquireKeepsSound(rows: Rows, holder: Id, mode: LockMode, ttl: Time, now: Time)
    requires Sound(rows, now) && Acquire(rows, holder, mode, ttl, now).Ok?
    ensures Sound(Acquire(rows, holder, mode, ttl, now).value, now)
  {
    var lock := Granted(rows, holder, mode, ttl, now);
    UpsertRows(rows, lock);
    UpsertEpochs(rows, lock);
    RefusedExactlyOnConflict(rows, holder, mode, ttl, now);
  }

  /** After a grant its holder's writes pass under one epoch only, the next one after every lock on
      record, and only while the lock is exclusive and has not expired. */
  lemma GrantAuthorisesExactly(rows: Rows, holder: Id, mode: LockMode, ttl: Time, now: Time, epoch: nat, at: Time)
    requires Sound(rows, now) && Acquire(rows, holder, mode, ttl, now).Ok? && now <= at
    ensures RequireLock(Acquire(rows, holder, mode, ttl, now).value, Some(LockFencing(holder, epoch)), at).Ok?
       <==> mode.Exclusive? && epoch == MaxEpoch(rows) + 1 && at < now + ttl
  {
    var grant := Granted(rows, holder, mode, ttl, now);
    var after := Acquire(rows, holder, mode, ttl, now).value;
    AcquireKeepsSound(rows, holder, mode, ttl, now);
    UpsertRows(rows, grant);
    assert Sound(after, at);
    WritePassesExactly(after, Some(LockFencing(holder, epoch)), at);
    forall l | l in after && l.holder == holder ensures l == grant { SameHolderSameRow(after, l, grant); }
    if mode.Exclusive? && at < now + ttl { assert grant in after && !grant.IsExpired(at); }
  }

  /** What a grant keeps out, and for how long: another client's request is refused exactly while the
      granted lock lives and one of the two is exclusive, or because of a lock that was there before. */
  lemma GrantExcludesExactly(rows: Rows, holder: Id, mode: LockMode, ttl: Time, now: Time, other: Id, wanted: LockMode, ttlWanted: Time, at: Time)
    requires Sound(rows, now) && Acquire(rows, holder, mode, ttl, now).Ok? && now <= at && other != holder
    ensures Acquire(Acquire(rows, holder, mode, ttl, now).value, other, wanted, ttlWanted, at).Err? <==>
            || (at < now + ttl && (mode.Exclusive? || wanted.Exclusive?))
            || exists l :: l in rows && l.holder != holder && !l.IsExpired(at) &&
                           if l.holder == other then l.mode != wanted else (wanted.Exclusive? || l.mode.Exclusive?)
  {
    var grant := Granted(rows, holder, mode, ttl, now);
    var after := Acquire(rows, holder, mode, ttl, now).value;
    AcquireKeepsSound(rows, holder, mode, ttl, now);
    UpsertRows(rows, grant);
    assert Sound(after, at);
    RefusedExactlyOnConflict(after, other, wanted, ttlWanted, at);
    assert grant in after;
  }

  // ----- Runs ----------------------------------------------------------------

  /** Anything a client may ask for, at the instant the server looks at its clock. */
  datatype Event =
    | Take(file: Id, holder: Id, mode: LockMode, ttl: Time, at: Time)
    | Release(file: Id, holder: Id, at: Time)
    | Write(file: Id, fencing: Option<LockFencing>, at: Time)

  datatype World = World(now: Time, table: map<Id, Rows>) {
    function RowsOf(file: Id): Rows { if file in table then table[file] else [] }
  }

  function Step(w: World, e: Event): World {
    match e
    case Take(file, holder, mode, ttl, at) =>
      (match Acquire(w.RowsOf(file), holder, mode, ttl, at)
       case Ok(after) => World(at, w.table[file := after])
       case Err(_) => w.(now := at))
    case Release(file, holder, at) =>
      if OfHolder(w.RowsOf(file), holder).Some?
      then World(at, w.table[file := Without(w.RowsOf(file), holder)]) else w.(now := at)
    case Write(_, _, at) => w.(now := at)
  }

  function Run(w: World, events: seq<Event>): World
    decreases |events|
  {
    if events == [] then w else Run(Step(w, events[0]), events[1..])
  }

  /** The clock never goes back. */
  ghost predicate Clocked(now: Time, events: seq<Event>)
    decreases |events|
  {
    events == [] || (now <= events[0].at && Clocked(events[0].at, events[1..]))
  }

  ghost predicate Inv(w: World) {
    forall file :: Sound(w.RowsOf(file), w.now)
  }

  lemma StepKeepsInv(w: World, e: Event)
    requires Inv(w) && w.now <= e.at
    ensures Inv(Step(w, e))
  {
    forall file ensures Sound(Step(w, e).RowsOf(file), e.at) {
      var rows := w.RowsOf(file);
      assert Sound(rows, w.now);
      assert Sound(rows, e.at);
      if e.file == file {
        match e {
          case Take(_, holder, mode, ttl, at) =>
            if Acquire(rows, holder, mode, ttl, at).Ok? { AcquireKeepsSound(rows, holder, mode, ttl, at); }
          case Release(_, holder, at) =>
            WithoutRows(rows, holder);
            WithoutEpochs(rows, holder);
          case Write(_, _, _) =>
        }
      }
    }
  }

  /** In every run, at every later instant, the live locks of a file exclude each other
      and its epochs are pairwise distinct. */
  lemma {:induction false} ExclusionInEveryRun(w: World, events: seq<Event>)
    requires Inv(w) && Clocked(w.now, events)
    ensures Inv(Run(w, events))
    ensures forall file, t :: t >= Run(w, events).now ==> Exclusion(Run(w, events).RowsOf(file), t)
    decreases |events|
  {
    if events == [] {
      forall file, t | t >= w.now ensures Exclusion(w.RowsOf(file), t) {
        assert Sound(w.RowsOf(file), w.now);
      }
    } else {
      StepKeepsInv(w, events[0]);
      ExclusionInEveryRun(Step(w, events[0]), events[1..]);
    }
  }

  lemma EmptyTableIsSound(now: Time)
    ensures Inv(World(now, map[]))
  {
  }

  /** The table remembers that `holder` was once granted epoch `epoch` or a later one. */
  ghost predicate Remembers(rows: Rows, holder: Id, epoch: nat) {
    exists l :: l in rows && l.holder == holder && epoch <= l.epoch
  }

  /** The grant (holder, epoch) can no longer authorise anything. */
  ghost predicate Superseded(rows: Rows, holder: Id, epoch: nat, now: Time) {
    exists l :: l in rows && l.holder == holder && (epoch < l.epoch || (epoch == l.epoch && l.IsExpired(now)))
  }

  ghost predicate NeverReleases(events: seq<Event>, file: Id, holder: Id) {
    forall e :: e in events ==> !(e.Release? && e.file == file && e.holder == holder)
  }

  lemma StepRemembers(w: World, e: Event, file: Id, holder: Id, epoch: nat)
    requires Inv(w) && w.now <= e.at && NeverReleases([e], file, holder)
    ensures Remembers(w.RowsOf(file), holder, epoch) ==> Remembers(Step(w, e).RowsOf(file), holder, epoch)
    ensures Superseded(w.RowsOf(file), holder, epoch, w.now) ==>
            Superseded(Step(w, e).RowsOf(file), holder, epoch, e.at)
  {
    assert e in [e];
    var rows := w.RowsOf(file);
    assert Sound(rows, w.now);
    if e.file == file {
      match e {
        case Take(_, h, mode, ttl, at) => UpsertRows(rows, Granted(rows, h, mode, ttl, at));
        case Release(_, h, _) => WithoutRows(rows, h);
        case Write(_, _, _) =>
      }
      var after := Step(w, e).RowsOf(file);
      forall l | l in rows && l.holder == holder
        ensures exists m :: m in after && m.holder == holder && (m == l || l.epoch < m.epoch)
      {
        if l !in after {
          assert e.Take? && e.holder == holder;
          assert Granted(rows, holder, e.mode, e.ttl, e.at) in after;
        }
      }
    }
  }

  lemma {:induction false} RunRemembers(w: World, events: seq<Event>, file: Id, holder: Id, epoch: nat)
    requires Inv(w) && Clocked(w.now, events) && NeverReleases(events, file, holder)
    ensures Inv(Run(w, events))
    ensures Remembers(w.RowsOf(file), holder, epoch) ==> Remembers(Run(w, events).RowsOf(file), holder, epoch)
    ensures Superseded(w.RowsOf(file), holder, epoch, w.now) ==>
            Superseded(Run(w, events).RowsOf(file), holder, epoch, Run(w, events).now)
    decreases |events|
  {
    if events != [] {
      StepKeepsInv(w, events[0]);
      assert events[0] in events;
      StepRemembers(w, events[0], file, holder, epoch);
      RunRemembers(Step(w, events[0]), events[1..], file, holder, epoch);
    }
  }

  /** Successive grants to one holder rise, whatever others do, unless it released in between. */
  lemma GrantsRise(w: World, first: Event, events: seq<Event>, again: Event)
    requires Inv(w) && Clocked(w.now, [first]) && Clocked(first.at, events)
    requires first.Take? && Acquire(w.RowsOf(first.file), first.holder, first.mode, first.ttl, first.at).Ok?
    requires NeverReleases(events, first.file, first.holder)
    requires again.Take? && again.file == first.file && again.holder == first.holder
    ensures Granted(w.RowsOf(first.file), first.holder, first.mode, first.ttl, first.at).epoch
          < Granted(Run(Step(w, first), events).RowsOf(first.file), again.holder, again.mode, again.ttl, again.at).epoch
  {
    var rows := w.RowsOf(first.file);
    var lock := Granted(rows, first.holder, first.mode, first.ttl, first.at);
    assert Sound(rows, w.now);
    UpsertRows(rows, lock);
    StepKeepsInv(w, first);
    assert lock in Step(w, first).RowsOf(first.file);
    RunRemembers(Step(w, first), events, first.file, first.holder, lock.epoch);
  }

  /** Once another client takes the file, the exclusive grant it took over from is rejected for ever,
      as long as the frozen holder does not itself release. */
  lemma FrozenHolderIsRejected(w: World, grant: FileLock, file: Id, takeover: Event, events: seq<Event>, at: Time)
    requires Inv(w) && grant in w.RowsOf(file) && grant.mode.Exclusive?
    requires takeover.Take? && takeover.file == file && takeover.holder != grant.holder
    requires Clocked(w.now, [takeover]) && Clocked(takeover.at, events)
    requires Acquire(w.RowsOf(file), takeover.holder, takeover.mode, takeover.ttl, takeover.at).Ok?
    requires NeverReleases(events, file, grant.holder)
    requires Run(Step(w, takeover), events).now <= at
    ensures RequireLock(Run(Step(w, takeover), events).RowsOf(file), Some(LockFencing(grant.holder, grant.epoch)), at)
         == Err(StaleLock)
  {
    var rows := w.RowsOf(file);
    assert Sound(rows, w.now);
    assert Sound(rows, takeover.at);
    RefusedExactlyOnConflict(rows, takeover.holder, takeover.mode, takeover.ttl, takeover.at);
    assert grant.IsExpired(takeover.at);
    UpsertRows(rows, Granted(rows, takeover.holder, takeover.mode, takeover.ttl, takeover.at));
    assert grant in Step(w, takeover).RowsOf(file);
    StepKeepsInv(w, takeover);
    RunRemembers(Step(w, takeover), events, file, grant.holder, grant.epoch);
    var later := Run(Step(w, takeover), events);
    assert Sound(later.RowsOf(file), later.now);
    var row :| row in later.RowsOf(file) && row.holder == grant.holder
               && (grant.epoch < row.epoch || (grant.epoch == row.epoch && row.IsExpired(later.now)));
    match OfHolder(Live(later.RowsOf(file), at), grant.holder) {
      case None =>
      case Some(mine) => SameHolderSameRow(later.RowsOf(file), mine, row);
    }
  }

  // ----- A holder that releases and comes back --------------------------------

  /** How often the file is granted, or renewed, during a run. */
  function Grants(w: World, events: seq<Event>, file: Id): nat
    decreases |events|
  {
    if events == [] then 0 else
    var e := events[0];
    (if e.Take? && e.file == file && Acquire(w.RowsOf(file), e.holder, e.mode, e.ttl, e.at).Ok? then 1 else 0)
    + Grants(Step(w, e), events[1..], file)
  }

  ghost predicate NobodyReleases(events: seq<Event>, file: Id) {
    forall e :: e in events ==> !(e.Release? && e.file == file)
  }

  lemma {:induction false} HighestEpoch(rows: Rows, l: FileLock)
    requires l in rows && forall other :: other in rows ==> other.epoch <= l.epoch
    ensures MaxEpoch(rows) == l.epoch
  {
    HeadAndTail(rows);
    if l in rows[1..] { HighestEpoch(rows[1..], l); } else { TailIsLower(rows[1..], l.epoch); }
  }

  lemma {:induction false} TailIsLower(rows: Rows, bound: nat)
    requires forall l :: l in rows ==> l.epoch <= bound
    ensures MaxEpoch(rows) <= bound
  {
    if rows != [] { TailIsLower(rows[1..], bound); }
  }

  lemma GrantIsHighest(rows: Rows, holder: Id, mode: LockMode, ttl: Time, now: Time)
    requires OneRowPerHolder(rows)
    ensures MaxEpoch(Upsert(rows, Granted(rows, holder, mode, ttl, now))) == MaxEpoch(rows) + 1
  {
    var lock := Granted(rows, holder, mode, ttl, now);
    UpsertRows(rows, lock);
    HighestEpoch(Upsert(rows, lock), lock);
  }

  /** While nobody lets go of a file, its highest epoch counts the grants. */
  lemma {:induction false} EpochsCountGrants(w: World, events: seq<Event>, file: Id)
    requires Inv(w) && Clocked(w.now, events) && NobodyReleases(events, file)
    ensures MaxEpoch(Run(w, events).RowsOf(file)) == MaxEpoch(w.RowsOf(file)) + Grants(w, events, file)
    decreases |events|
  {
    if events != [] {
      var e := events[0];
      assert e in events;
      assert Sound(w.RowsOf(file), w.now);
      if e.Take? && e.file == file { GrantIsHighest(w.RowsOf(file), e.holder, e.mode, e.ttl, e.at); }
      StepKeepsInv(w, e);
      EpochsCountGrants(Step(w, e), events[1..], file);
    }
  }

  /** Exactly when the pair of a holder that let go of its lock is accepted again after it came back:
      the new lock is exclusive and alive, and the pair's epoch is the next one after the highest still
      on record. If nobody lets go of the file meanwhile, that depends on what the release left behind
      and on how often the file was granted since: the epochs of others have to make up the difference. */
  lemma ReleasedPairRevivesExactly(w: World, l: FileLock, release: Event, events: seq<Event>, again: Event, write: Time)
    requires Inv(w) && release.Release? && l in w.RowsOf(release.file) && release.holder == l.holder
    requires Clocked(w.now, [release]) && Clocked(release.at, events) && Run(Step(w, release), events).now <= again.at <= write
    requires again.Take? && again.file == release.file && again.holder == l.holder
    requires Acquire(Run(Step(w, release), events).RowsOf(again.file), again.holder, again.mode, again.ttl, again.at).Ok?
    ensures var v := Run(Step(w, release), events);
            var accepted := RequireLock(Step(v, again).RowsOf(again.file), Some(LockFencing(l.holder, l.epoch)), write).Ok?;
            var alive := again.mode.Exclusive? && write < again.at + again.ttl;
            && (accepted <==> alive && l.epoch == MaxEpoch(v.RowsOf(again.file)) + 1)
            && (NobodyReleases(events, again.file) ==>
                  (accepted <==>
                     && alive
                     && l.epoch == MaxEpoch(Without(w.RowsOf(again.file), l.holder)) + Grants(Step(w, release), events, again.file) + 1))
  {
    var file := release.file;
    var freed := Step(w, release);
    var v := Run(freed, events);
    assert freed.RowsOf(file) == Without(w.RowsOf(file), l.holder);
    StepKeepsInv(w, release);
    ExclusionInEveryRun(freed, events);
    assert Sound(v.RowsOf(file), v.now);
    assert Sound(v.RowsOf(file), again.at);
    GrantAuthorisesExactly(v.RowsOf(file), l.holder, again.mode, again.ttl, again.at, l.epoch, write);
    if NobodyReleases(events, file) { EpochsCountGrants(freed, events, file); }
  }

  /** The table forgets: coming straight back revives the pair exactly if the released lock was next
      after all the others. */
  lemma ComingStraightBackRevivesExactly(rows: Rows, l: FileLock, ttl: Time, at: Time, write: Time)
    requires Sound(rows, at) && l in rows && at <= write
    requires Acquire(Without(rows, l.holder), l.holder, Exclusive, ttl, at).Ok?
    ensures RequireLock(Acquire(Without(rows, l.holder), l.holder, Exclusive, ttl, at).value, Some(LockFencing(l.holder, l.epoch)), write).Ok?
       <==> MaxEpoch(Without(rows, l.holder)) + 1 == l.epoch && write < at + ttl
  {
    WithoutRows(rows, l.holder);
    WithoutEpochs(rows, l.holder);
    GrantAuthorisesExactly(Without(rows, l.holder), l.holder, Exclusive, ttl, at, l.epoch, write);
  }

  /** Releasing forgets the epoch: a holder that lets go and comes back is granted the same pair again,
      so a write it started before letting go is accepted. */
  lemma ReleaseForgetsTheEpoch()
    ensures var w := Run(World(0, map[]), [Take(7, 1, Exclusive, 10, 0), Release(7, 1, 1), Take(7, 1, Exclusive, 10, 2)]);
            && Granted([], 1, Exclusive, 10, 0).epoch == 1
            && RequireLock(w.RowsOf(7), Some(LockFencing(1, 1)), 3) == Ok(())
  {
    var a := FileLock(1, Exclusive, 1, 10);
    var w0 := World(0, map[]);
    var w1 := Step(w0, Take(7, 1, Exclusive, 10, 0));
    assert w1.table == map[7 := [a]];
    var w2 := Step(w1, Release(7, 1, 1));
    assert w2.table == map[7 := []];
    var b := FileLock(1, Exclusive, 1, 12);
    var w3 := Step(w2, Take(7, 1, Exclusive, 10, 2));
    assert w3.table == map[7 := [b]];
    var tail := [Take(7, 1, Exclusive, 10, 2)];
    assert Run(w2, tail) == Run(w3, []);
    var mid := [Release(7, 1, 1), Take(7, 1, Exclusive, 10, 2)];
    assert mid[1..] == tail;
    var all := [Take(7, 1, Exclusive, 10, 0), Release(7, 1, 1), Take(7, 1, Exclusive, 10, 2)];
    assert all[1..] == mid;
  }
}
