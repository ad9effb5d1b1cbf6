/** Every execution of acquisitions, guarded writes and releases: the fencing epoch keeps stale leaders
    out whatever the clocks of the instances say. */
module LeadershipRuns {
  import opened Common
  import opened Leadership

  /** Holding the lease authorises guarded writes under the pair it returns until it expires, and not
      after; it is refused exactly while another instance holds it, and then changes nothing. */
  lemma HoldAuthorisesExactly(row: Option<Lease>, instance: Id, ttl: Time, now: Time, at: Time)
    ensures var (after, held) := Hold(row, instance, ttl, now);
            && (held.None? <==> row.Some? && !row.value.IsExpired(now) && row.value.leader != Some(instance))
            && (held.None? ==> after == row)
            && (held.Some? ==> after == held && held.value.leader == Some(instance))
            && (held.Some? ==>
                  (RequireLeadership(after, Fencing(instance, held.value.epoch), at).Ok? <==> at < now + ttl))
  {
  }

  /** What an attempt makes of the lease: its live holder only moves the expiry, under the same epoch;
      an expired or missing lease goes to whoever asks, under the next epoch. */
  lemma RenewalKeepsTheEpoch(row: Option<Lease>, instance: Id, ttl: Time, now: Time)
    ensures var (after, held) := Hold(row, instance, ttl, now);
            && (row.Some? && row.value.HeldBy(instance, now) ==>
                  held == Some(Lease(Some(instance), row.value.epoch, Some(now + ttl))))
            && (row.None? || row.value.IsExpired(now) ==>
                  held == Some(Lease(Some(instance), (if row.Some? then row.value.epoch else 0) + 1, Some(now + ttl))))
  {
  }

  /** Leaving frees the lease for anybody at once, under the next epoch, exactly if it comes from the pair
      on record; a leaving instance that has been replaced changes nothing. */
  lemma LeavingFreesExactly(row: Option<Lease>, fencing: Fencing, other: Id, ttl: Time, now: Time)
    ensures var after := Leave(row, fencing);
            var holds := row.Some? && row.value.leader == Some(fencing.leader) && row.value.epoch == fencing.epoch;
            && (!holds ==> after == row)
            && (holds ==> Hold(after, other, ttl, now).1 == Some(Lease(Some(other), fencing.epoch + 1, Some(now + ttl))))
            && (holds ==> RequireLeadership(after, fencing, now).Err?)
  {
  }

  /** Instances attempt to hold the lease, issue guarded writes with whatever pair they
      carry, and shut down, in any order and at any claimed instants. */
  datatype Event =
    | TryHold(instance: Id, ttl: Time, at: Time)
    | Write(fencing: Fencing, payload: Id, at: Time)
    | ShutDown(fencing: Fencing)

  datatype Entry = Entry(author: Fencing, payload: Id)

  /** The lease row with the history of acquisitions and of accepted writes. */
  datatype World = World(row: Option<Lease>, grants: seq<Fencing>, accepted: seq<Entry>) {
    function Epoch(): nat { if row.Some? then row.value.epoch else 0 }
  }

  const START := World(None, [], [])

  function Step(w: World, e: Event): World {
    match e
    case TryHold(instance, ttl, at) =>
      var (after, held) := Hold(w.row, instance, ttl, at);
      if held.Some? && held.value.epoch != w.Epoch()
      then World(after, w.grants + [Fencing(instance, held.value.epoch)], w.accepted)
      else w.(row := after)
    case Write(fencing, payload, at) =>
      if RequireLeadership(w.row, fencing, at).Ok? then w.(accepted := w.accepted + [Entry(fencing, payload)]) else w
    case ShutDown(fencing) => w.(row := Leave(w.row, fencing))
  }

  function Run(w: World, events: seq<Event>): World
    decreases |events|
  {
    if events == [] then w else Run(Step(w, events[0]), events[1..])
  }

  ghost predicate Inv(w: World) {
    && (forall i, j :: 0 <= i < j < |w.grants| ==> w.grants[i].epoch < w.grants[j].epoch)
    && (forall g :: g in w.grants ==> 0 < g.epoch <= w.Epoch())
    && (w.row.Some? && w.row.value.leader.Some? ==> Fencing(w.row.value.leader.value, w.row.value.epoch) in w.grants)
    && (forall e :: e in w.accepted ==> e.author in w.grants)
    && (forall i, j :: 0 <= i < j < |w.accepted| ==> w.accepted[i].author.epoch <= w.accepted[j].author.epoch)
  }

  lemma TryHoldKeepsInv(w: World, e: Event)
    requires Inv(w) && e.TryHold?
    ensures Inv(Step(w, e)) && w.Epoch() <= Step(w, e).Epoch()
  {
    var lease := if w.row.Some? then w.row.value else FREE;
    if Decide(lease, e.instance, e.at).Take? {
      var grant := Fencing(e.instance, lease.epoch + 1);
      assert Step(w, e) == World(Some(Lease(Some(e.instance), lease.epoch + 1, Some(e.at + e.ttl))), w.grants + [grant], w.accepted);
      GrantedLater(w.grants, grant, w.Epoch());
    } else {
      assert Step(w, e).grants == w.grants && Step(w, e).accepted == w.accepted && Step(w, e).Epoch() == w.Epoch();
    }
  }

  lemma GrantedLater(grants: seq<Fencing>, grant: Fencing, epoch: nat)
    requires (forall i, j :: 0 <= i < j < |grants| ==> grants[i].epoch < grants[j].epoch)
    requires (forall g :: g in grants ==> 0 < g.epoch <= epoch) && epoch < grant.epoch
    ensures forall i, j :: 0 <= i < j < |grants + [grant]| ==> (grants + [grant])[i].epoch < (grants + [grant])[j].epoch
    ensures forall g :: g in grants + [grant] <==> g in grants || g == grant
  {
  }

  lemma WriteKeepsInv(w: World, e: Event)
    requires Inv(w) && e.Write?
    ensures Inv(Step(w, e))
  {
    if RequireLeadership(w.row, e.fencing, e.at).Ok? {
      assert e.fencing in w.grants;
      forall x | x in w.accepted ensures x.author.epoch <= e.fencing.epoch { assert x.author in w.grants; }
    }
  }

  lemma ShutDownKeepsInv(w: World, e: Event)
    requires Inv(w) && e.ShutDown?
    ensures Inv(Step(w, e)) && w.Epoch() <= Step(w, e).Epoch()
  {
  }

  lemma StepKeepsInv(w: World, e: Event)
    requires Inv(w)
    ensures Inv(Step(w, e))
    ensures w.Epoch() <= Step(w, e).Epoch()
  {
    match e
    case TryHold(_, _, _) => TryHoldKeepsInv(w, e);
    case Write(_, _, _) => WriteKeepsInv(w, e);
    case ShutDown(_) => ShutDownKeepsInv(w, e);
  }

  /** The epoch never goes down, every epoch is granted at most once, and the accepted writes
      carry nondecreasing epochs with a single author each. */
  lemma {:induction false} FencingInEveryRun(w: World, events: seq<Event>)
    requires Inv(w)
    ensures var r := Run(w, events);
            && Inv(r)
            && w.Epoch() <= r.Epoch()
            && (forall a, b :: a in r.grants && b in r.grants && a.epoch == b.epoch ==> a == b)
            && (forall a, b :: a in r.accepted && b in r.accepted && a.author.epoch == b.author.epoch ==> a.author == b.author)
    decreases |events|
  {
    if events == [] {
      forall a, b | a in w.grants && b in w.grants && a.epoch == b.epoch ensures a == b {
        var i :| 0 <= i < |w.grants| && w.grants[i] == a;
        var j :| 0 <= j < |w.grants| && w.grants[j] == b;
      }
    } else {
      StepKeepsInv(w, events[0]);
      FencingInEveryRun(Step(w, events[0]), events[1..]);
    }
  }

  lemma StartIsSound()
    ensures Inv(START)
  {
  }

  /** A pair older than the current epoch changes nothing, now or after any later events. */
  lemma StalePairChangesNothing(w: World, events: seq<Event>, fencing: Fencing, payload: Id, at: Time)
    requires Inv(w) && fencing.epoch < w.Epoch()
    ensures var r := Run(w, events); Step(r, Write(fencing, payload, at)) == r
  {
    FencingInEveryRun(w, events);
  }

  /** Whoever takes the lease, the previous leader included, takes it under a new epoch,
      so every pair handed out before is stale from then on. */
  lemma TakingTheLeaseFencesEverybody(w: World, instance: Id, ttl: Time, at: Time, events: seq<Event>, previous: Fencing, payload: Id, when: Time)
    requires Inv(w) && previous in w.grants
    requires Decide(if w.row.Some? then w.row.value else FREE, instance, at).Take?
    ensures var r := Run(Step(w, TryHold(instance, ttl, at)), events); Step(r, Write(previous, payload, when)) == r
  {
    StepKeepsInv(w, TryHold(instance, ttl, at));
    StalePairChangesNothing(Step(w, TryHold(instance, ttl, at)), events, previous, payload, when);
  }

  // ----- How long a pair lasts -----------------------------------------------

  /** The pair on record, expired or not. */
  ghost predicate IsCurrent(w: World, fencing: Fencing) {
    w.row.Some? && w.row.value.leader == Some(fencing.leader) && w.row.value.epoch == fencing.epoch
  }

  /** What ends a current pair: an attempt, by anybody, after it has expired, and its own leaving. */
  ghost predicate Ends(w: World, e: Event, fencing: Fencing) {
    match e
    case TryHold(_, _, at) => w.row.Some? && w.row.value.IsExpired(at)
    case Write(_, _, _) => false
    case ShutDown(f) => f == fencing
  }

  ghost predicate NeverEnds(w: World, events: seq<Event>, fencing: Fencing)
    decreases |events|
  {
    events == [] || (!Ends(w, events[0], fencing) && NeverEnds(Step(w, events[0]), events[1..], fencing))
  }

  /** The pair was on record once and no attempt can bring it back. */
  ghost predicate IsOver(w: World, fencing: Fencing) {
    w.row.Some? && (fencing.epoch < w.row.value.epoch || (fencing.epoch == w.row.value.epoch && w.row.value == Lease(None, fencing.epoch, None)))
  }

  lemma StepOfCurrent(w: World, e: Event, fencing: Fencing)
    requires IsCurrent(w, fencing)
    ensures if Ends(w, e, fencing) then IsOver(Step(w, e), fencing) else IsCurrent(Step(w, e), fencing)
  {
    if e.TryHold? { RenewalKeepsTheEpoch(w.row, e.instance, e.ttl, e.at); }
  }

  lemma {:induction false} OverForEver(w: World, events: seq<Event>, fencing: Fencing)
    requires IsOver(w, fencing)
    ensures IsOver(Run(w, events), fencing)
    decreases |events|
  {
    if events != [] {
      if events[0].TryHold? { RenewalKeepsTheEpoch(w.row, events[0].instance, events[0].ttl, events[0].at); }
      OverForEver(Step(w, events[0]), events[1..], fencing);
    }
  }

  /** A pair stays on record, through any number of renewals by its holder, attempts by others before it
      expires and writes by anybody, if and only if nobody asks for the lease after it has expired
      and the holder does not leave. */
  lemma {:induction false} CurrentUntilEnded(w: World, events: seq<Event>, fencing: Fencing)
    requires IsCurrent(w, fencing)
    ensures IsCurrent(Run(w, events), fencing) <==> NeverEnds(w, events, fencing)
    decreases |events|
  {
    if events != [] {
      StepOfCurrent(w, events[0], fencing);
      if Ends(w, events[0], fencing) {
        OverForEver(Step(w, events[0]), events[1..], fencing);
      } else {
        CurrentUntilEnded(Step(w, events[0]), events[1..], fencing);
      }
    }
  }

  /** So the writes a leader began under its pair are accepted, after any events, exactly as long as
      nothing has ended the pair and its last renewal has not run out. */
  lemma AcceptedUntilEnded(w: World, events: seq<Event>, fencing: Fencing, payload: Id, at: Time)
    requires IsCurrent(w, fencing)
    ensures var v := Run(w, events);
            Step(v, Write(fencing, payload, at)) == v.(accepted := v.accepted + [Entry(fencing, payload)])
            <==> NeverEnds(w, events, fencing) && v.row.Some? && !v.row.value.IsExpired(at)
  {
    CurrentUntilEnded(w, events, fencing);
    var v := Run(w, events);
    if RequireLeadership(v.row, fencing, at).Err? { assert Step(v, Write(fencing, payload, at)) == v; }
    assert |v.accepted + [Entry(fencing, payload)]| == |v.accepted| + 1;
  }

  /** Attempts of other instances before the expiry move nothing, and those of the holder only push it on. */
  lemma AttemptBeforeExpiry(w: World, instance: Id, ttl: Time, at: Time, fencing: Fencing)
    requires IsCurrent(w, fencing) && !w.row.value.IsExpired(at)
    ensures var v := Step(w, TryHold(instance, ttl, at));
            v == if instance == fencing.leader then w.(row := Some(w.row.value.(expiresAt := Some(at + ttl)))) else w
  {
  }
}
