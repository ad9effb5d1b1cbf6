/** The garbage collector: it works from a list that may be stale when it acts (scripts/gc.py,
    list_orphans, confirm_gc). */
module Collector {
  import opened Common
  import opened Entities
  import opened BlockTable
  import opened Tables
  import opened Namespace
  import opened NamespaceRuns
  import opened LifecycleRuns
  import Append
  import Partition

  /** The block, if it is still there, belongs to a file that can never be visible. */
  ghost predicate Doomed(db: Db, b: Id, now: Time) {
    b in db.blocks ==> db.blocks[b].file.Some? && IsDead(db.files, db.blocks[b].file.value, now)
  }

  /** Ids are never handed out twice: this command does not mint the given one. */
  ghost predicate DoesNotMint(c: Command, b: Id) {
    && (c.Create? ==> forall s :: s in c.slots ==> s.id != b)
    && (c.PlanAppend? ==> forall s :: s in c.slots ==> s.id != b)
  }

  ghost predicate NeverMinted(events: seq<Timed>, b: Id) { forall e :: e in events ==> DoesNotMint(e.0, b) }

  /** A reservation's blocks are orphans exactly when its commit would be refused as expired. */
  lemma OrphanedExactlyWhenExpired(db: Db, b: Id, f: Id, quorum: nat, now: Time)
    requires b in BlocksOf(db.blocks, f) && f in db.files && db.files[f].state.Writing?
    ensures b in ListOrphans(db.blocks, db.files, now)
       <==> CommitFile(db, db.files[f].owner, f, quorum, now) == Err(ReservationExpired)
  {
  }

  /** The collector is told about a block exactly if it is in no file, or in one that is neither visible nor
      could become visible by being committed now. */
  lemma ListedExactlyWhenLost(db: Db, b: Id, now: Time)
    requires BlocksRefer(db) && b in db.blocks
    ensures b in ListOrphans(db.blocks, db.files, now) <==>
            db.blocks[b].file.None?
            || (!db.files[db.blocks[b].file.value].state.Committed?
                && CommitFile(db, db.files[db.blocks[b].file.value].owner, db.blocks[b].file.value, 0, now).Err?)
  {
    if db.blocks[b].file.Some? { assert !SomeBelowQuorum(db, db.blocks[b].file.value, 0); }
  }

  /** A confirmed collection takes the named blocks with all their copies, and nothing else. */
  lemma CollectedExactly(db: Db, ids: set<Id>)
    ensures var v := Collected(db, ids);
            && v == db.(blocks := v.blocks, replicas := v.replicas)
            && (forall b: Id :: Get(v.blocks, b) == if b in ids then None else Get(db.blocks, b))
            && (forall b: Id, n: Id :: Get(v.replicas, (b, n)) == if b in ids then None else Get(db.replicas, (b, n)))
  {
  }

  lemma {:induction false} InsertLeaves(blocks: Blocks, rows: seq<(Id, Block)>, b: Id)
    requires forall r :: r in rows ==> r.0 != b
    ensures Get(InsertBlocks(blocks, rows), b) == Get(blocks, b)
  {
    if rows != [] {
      assert rows[|rows| - 1] in rows;
      InsertLeaves(blocks, rows[..|rows| - 1], b);
    }
  }

  lemma CreateLeavesBlock(db: Db, c: Command, now: Time, ttl: Time, b: Id)
    requires c.Create? && DoesNotMint(c, b)
    ensures Get(Step(db, c, now, ttl).blocks, b) == Get(db.blocks, b)
  {
    var v := Step(db, c, now, ttl);
    if v.blocks != db.blocks {
      var sizes := Partition.PlanSizes(c.size, c.blockSize);
      var used := c.slots[..|sizes|];
      var rows := FileRows(c.file, used, sizes, c.overhead);
      forall r | r in rows ensures r.0 != b {
        var k :| 0 <= k < |rows| && rows[k] == r;
        assert used[k] in c.slots;
      }
      InsertLeaves(db.blocks, rows, b);
    }
  }

  lemma PlanLeavesBlock(db: Db, c: Command, now: Time, ttl: Time, b: Id)
    requires c.PlanAppend? && DoesNotMint(c, b)
    ensures Get(Step(db, c, now, ttl).blocks, b) == Get(db.blocks, b)
  {
    var v := Step(db, c, now, ttl);
    if v.blocks != db.blocks {
      var cut := Append.CutOfFile(db, c.file, c.overhead);
      var sizes := Partition.PlanSizes(cut.tailPlain + c.added, db.files[c.file].blockSize);
      var used := c.slots[..|sizes|];
      var rows := Append.PlanRows(used, sizes, cut.start, c.overhead);
      forall r | r in rows ensures r.0 != b {
        var k :| 0 <= k < |rows| && rows[k] == r;
        assert used[k] in c.slots;
      }
      InsertLeaves(db.blocks, rows, b);
    }
  }

  lemma CommitAppendLeavesDoomed(db: Db, c: Command, now: Time, ttl: Time, b: Id)
    requires c.CommitAppend? && Doomed(db, b, now)
    ensures Get(Step(db, c, now, ttl).blocks, b) == Get(db.blocks, b)
  {
    if b in db.blocks && FromPlan(db, c.file, c.ids, c.tail) {
      assert b in c.ids ==> OwnBlock(db, c.file, b);
    }
  }

  lemma StepKeepsDoomed(db: Db, c: Command, now: Time, ttl: Time, b: Id)
    requires Inv(db, now, ttl) && Doomed(db, b, now) && DoesNotMint(c, b)
    ensures Doomed(Step(db, c, now, ttl), b, now)
  {
    if b in db.blocks { DeadStaysDead(db, c, now, ttl, db.blocks[b].file.value); }
    match c
    case Create(_, _, _, _, _, _, _) => CreateLeavesBlock(db, c, now, ttl, b);
    case PlanAppend(_, _, _, _, _) => PlanLeavesBlock(db, c, now, ttl, b);
    case CommitAppend(_, _, _, _, _, _) => CommitAppendLeavesDoomed(db, c, now, ttl, b);
    case _ =>
  }

  lemma TimeKeepsDoomed(db: Db, b: Id, now: Time, later: Time)
    requires Doomed(db, b, now) && now <= later
    ensures Doomed(db, b, later)
  {
  }

  /** Whatever happens after the list was made, a block listed because its file was deleted or its
      reservation had expired never belongs to a committed file again. */
  lemma {:induction false} DoomedForEver(db: Db, b: Id, now: Time, events: seq<Timed>, ttl: Time)
    requires Inv(db, now, ttl) && Doomed(db, b, now) && Clocked(now, events) && NeverMinted(events, b)
    ensures Doomed(Run(db, events, ttl), b, LastInstant(now, events))
    decreases |events|
  {
    if events != [] {
      var at := events[0].1;
      assert events[0] in events;
      TimeKeepsInv(db, now, at, ttl);
      TimeKeepsDoomed(db, b, now, at);
      StepKeepsDoomed(db, events[0].0, at, ttl, b);
      StepKeepsInv(db, events[0].0, at, ttl);
      DoomedForEver(Step(db, events[0].0, at, ttl), b, at, events[1..], ttl);
    }
  }

  /** The block, if it is still there, belongs to no file. */
  ghost predicate Loose(db: Db, b: Id) { b in db.blocks ==> db.blocks[b].file.None? }

  /** No commit of an append names the block: it is in no plan that is still to be committed. */
  ghost predicate NeverNamed(events: seq<Timed>, b: Id) { forall e :: e in events ==> !(e.0.CommitAppend? && b in e.0.ids) }

  lemma StepKeepsLoose(db: Db, c: Command, now: Time, ttl: Time, b: Id)
    requires Loose(db, b) && DoesNotMint(c, b) && !(c.CommitAppend? && b in c.ids)
    ensures Loose(Step(db, c, now, ttl), b)
  {
    match c
    case Create(_, _, _, _, _, _, _) => CreateLeavesBlock(db, c, now, ttl, b);
    case PlanAppend(_, _, _, _, _) => PlanLeavesBlock(db, c, now, ttl, b);
    case _ =>
  }

  /** A block listed for being loose stays loose until a commit names it. */
  lemma {:induction false} LooseForEver(db: Db, b: Id, events: seq<Timed>, ttl: Time)
    requires Loose(db, b) && NeverMinted(events, b) && NeverNamed(events, b)
    ensures Loose(Run(db, events, ttl), b)
    decreases |events|
  {
    if events != [] {
      assert events[0] in events;
      StepKeepsLoose(db, events[0].0, events[0].1, ttl, b);
      LooseForEver(Step(db, events[0].0, events[0].1, ttl), b, events[1..], ttl);
    }
  }

  /** Acting on a stale list loses no visible data: however late the confirmation comes, and whatever
      other collectors confirm meanwhile, every committed file keeps all its blocks and all their
      copies. Only of loose blocks one has to know that no append still to be committed names them. */
  lemma CollectorIsSafe(db: Db, listed: set<Id>, now: Time, events: seq<Timed>, ttl: Time)
    requires Inv(db, now, ttl) && Clocked(now, events)
    requires listed <= ListOrphans(db.blocks, db.files, now)
    requires forall b :: b in listed ==> NeverMinted(events, b) && (db.blocks[b].file.None? ==> NeverNamed(events, b))
    ensures var v := Run(db, events, ttl);
            var after := Collected(v, listed);
            forall f :: f in v.files && v.files[f].state.Committed? ==>
              && BlocksOf(after.blocks, f) == BlocksOf(v.blocks, f)
              && forall b :: b in BlocksOf(v.blocks, f) ==>
                   after.blocks[b] == v.blocks[b] && Holders(after.replicas, b) == Holders(v.replicas, b)
  {
    var v := Run(db, events, ttl);
    var after := Collected(v, listed);
    forall b | b in listed ensures Loose(v, b) || Doomed(v, b, LastInstant(now, events)) {
      if db.blocks[b].file.None? { LooseForEver(db, b, events, ttl); } else { DoomedForEver(db, b, now, events, ttl); }
    }
    forall f | f in v.files && v.files[f].state.Committed?
      ensures BlocksOf(after.blocks, f) == BlocksOf(v.blocks, f)
      ensures forall b :: b in BlocksOf(v.blocks, f) ==> after.blocks[b] == v.blocks[b] && Holders(after.replicas, b) == Holders(v.replicas, b)
    {
      forall b | b in BlocksOf(v.blocks, f) ensures b !in listed {}
      forall b | b in BlocksOf(v.blocks, f) ensures Holders(after.replicas, b) == Holders(v.replicas, b) {
        SameHolders(v.replicas, after.replicas, b);
      }
    }
  }

  lemma SameHolders(before: Replicas, after: Replicas, b: Id)
    requires forall n: Id :: Get(after, (b, n)) == Get(before, (b, n))
    ensures Holders(after, b) == Holders(before, b)
  {
    forall n: Id ensures n in Holders(after, b) <==> n in Holders(before, b) {
      assert Get(after, (b, n)) == Get(before, (b, n));
      assert n in Holders(after, b) <==> (b, n) in after && after[(b, n)] == Stored;
      assert n in Holders(before, b) <==> (b, n) in before && before[(b, n)] == Stored;
    }
  }

  // ----- The script ------------------------------------------------------------

  /** An orphan as the collector sees it: the block and the nodes listed with it. */
  type Orphan = (Id, seq<Id>)

  predicate GoneEverywhere(o: Orphan, gone: set<(Id, Id)>) { forall n | n in o.1 :: (o.0, n) in gone }

  /** Deletes every listed copy and confirms what is gone from all of them. `gone` are the deletions
      answered with success or "not found". */
  method Collect(orphans: seq<Orphan>, gone: set<(Id, Id)>, dryRun: bool) returns (confirmed: seq<Id>, failures: nat)
    ensures dryRun ==> confirmed == []
    ensures !dryRun ==> forall b :: b in confirmed <==> exists o :: o in orphans && o.0 == b && GoneEverywhere(o, gone)
    ensures !dryRun && failures == 0 ==> forall o :: o in orphans ==> GoneEverywhere(o, gone)
  {
    confirmed, failures := [], 0;
    for i := 0 to |orphans|
      invariant dryRun ==> confirmed == []
      invariant !dryRun ==> forall b :: b in confirmed <==> exists o :: o in orphans[..i] && o.0 == b && GoneEverywhere(o, gone)
      invariant !dryRun && failures == 0 ==> forall o :: o in orphans[..i] ==> GoneEverywhere(o, gone)
    {
      assert orphans[..i + 1] == orphans[..i] + [orphans[i]];
      var orphan := orphans[i];
      if dryRun {
        continue;
      }
      var allGone, failed := DeleteCopies(orphan, gone);
      failures := failures + failed;
      if allGone {
        confirmed := confirmed + [orphan.0];
      }
    }
    assert orphans[..|orphans|] == orphans;
  }

  method DeleteCopies(orphan: Orphan, gone: set<(Id, Id)>) returns (allGone: bool, failed: nat)
    ensures allGone <==> GoneEverywhere(orphan, gone)
    ensures failed == 0 <==> allGone
  {
    allGone, failed := true, 0;
    for i := 0 to |orphan.1|
      invariant allGone <==> forall n :: n in orphan.1[..i] ==> (orphan.0, n) in gone
      invariant failed == 0 <==> allGone
    {
      assert orphan.1[..i + 1] == orphan.1[..i] + [orphan.1[i]];
      if (orphan.0, orphan.1[i]) !in gone {
        allGone, failed := false, failed + 1;
      }
    }
    assert orphan.1[..|orphan.1|] == orphan.1;
  }
}
