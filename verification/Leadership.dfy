/** The leader lease and its fencing epoch (domain/leadership.py, commands/leadership.py
    and SqlLeadershipRepository). Nothing here assumes anything about clocks: every instance
    passes the instant it believes in, and the results hold for any choice of instants. */
module Leadership {
  import opened Common

  datatype Fencing = Fencing(leader: Id, epoch: nat)

  datatype Lease = Lease(leader: Option<Id>, epoch: nat, expiresAt: Option<Time>) {
    predicate IsExpired(now: Time) { expiresAt.None? || now >= expiresAt.value }
    predicate HeldBy(instance: Id, now: Time) { leader == Some(instance) && !IsExpired(now) }
  }

  const FREE := Lease(None, 0, None)

  datatype Action = Renew | Take | StandBy

  function Decide(lease: Lease, instance: Id, now: Time): Action {
    if lease.HeldBy(instance, now) then Renew else if lease.IsExpired(now) then Take else StandBy
  }

  /** The row after an instance tried to hold the lease, and what the attempt returned. */
  function Hold(row: Option<Lease>, instance: Id, ttl: Time, now: Time): (Option<Lease>, Option<Lease>) {
    var lease := if row.Some? then row.value else FREE;
    match Decide(lease, instance, now)
    case Renew => var held := lease.(expiresAt := Some(now + ttl)); (Some(held), Some(held))
    case Take => var held := Lease(Some(instance), lease.epoch + 1, Some(now + ttl)); (Some(held), Some(held))
    case StandBy => (row, None)
  }

  /** The check every guarded command makes inside its own transaction. */
  function RequireLeadership(row: Option<Lease>, fencing: Fencing, now: Time): Result<()> {
    if row.None? || row.value.leader.None? then Err(NotLeader)
    else if row.value.leader.value != fencing.leader || row.value.epoch != fencing.epoch || row.value.IsExpired(now)
    then Err(StaleEpoch)
    else Ok(())
  }

  function Leave(row: Option<Lease>, fencing: Fencing): Option<Lease> {
    if row.Some? && row.value.leader == Some(fencing.leader) && row.value.epoch == fencing.epoch
    then Some(Lease(None, fencing.epoch, None)) else row
  }

  /** The single row of the leadership table. */
  class LeadershipTable {
    var row: Option<Lease>

    method AcquireOrRenew(instance: Id, ttl: Time, now: Time) returns (r: Option<Lease>)
      modifies this
      ensures (row, r) == Hold(old(row), instance, ttl, now)
    {
      var lease := if row.Some? then row.value else FREE;
      var action := Decide(lease, instance, now);
      if action.Renew? {
        // The update repeats leader and epoch in its condition; under the row lock it always matches.
        assert lease.leader == Some(instance);
        lease := lease.(expiresAt := Some(now + ttl));
        row := Some(lease);
        return Some(lease);
      }
      if action.Take? {
        var epoch := lease.epoch + 1;
        lease := Lease(Some(instance), epoch, Some(now + ttl));
        row := Some(lease);
        return Some(lease);
      }
      return None;
    }

    method ReleaseLeadership(fencing: Fencing)
      modifies this
      ensures row == Leave(old(row), fencing)
    {
      if row.Some? && row.value.leader == Some(fencing.leader) && row.value.epoch == fencing.epoch {
        row := Some(row.value.(leader := None, expiresAt := None));
      }
    }
  }
}
