/** The other commands as seen by the append protocol: none of them touches the blocks of a followed
    file or of an uncommitted plan, so the results about appends hold among all of them. */
module AppendSetting {
  import opened Common
  import opened Entities
  import opened BlockTable
  import opened Tables
  import opened Partition
  import R = AppendRuns
  import AppendSafety
  import L = LifecycleRuns
  import N = Namespace

  /** Blocks and copies are as they were; files keep their size and block size. */
  ghost predicate KeepsBlocks(db: Db, v: Db) {
    && v.blocks == db.blocks && v.replicas == db.replicas
    && forall f :: f in db.files ==> f in v.files && v.files[f].size == db.files[f].size && v.files[f].blockSize == db.files[f].blockSize
  }

  /** Recorded copies of blocks that matter have bytes behind them. */
  lemma CopiesHaveBytes(w: R.World, b: Id)
    requires R.Inv(w) && (R.Attached(w, b) || R.Planned(w, b))
    ensures Holders(w.db.replicas, b) != {} ==> b in w.disk
  {
    if R.Attached(w, b) {
      var f := w.db.blocks[b].file.value;
      assert R.FileOk(w, f);
      assert b in BlocksOf(w.db.blocks, f);
      assert R.Order(w, f)[w.db.blocks[b].index] == b;
    } else {
      var c :| c in w.sessions && !w.sessions[c].done && b in w.sessions[c].plan.ids;
      assert R.SessionOk(w, w.sessions[c]);
      var k :| 0 <= k < |w.sessions[c].plan.ids| && w.sessions[c].plan.ids[k] == b;
      assert R.PlannedOk(w, b, w.sessions[c].plan.start + k);
    }
  }

  lemma KeepingBlocksLeavesAlone(w: R.World, v: Db)
    requires R.Inv(w) && KeepsBlocks(w.db, v)
    ensures R.LeavesAlone(w, v, w.disk)
  {
    forall b | R.Attached(w, b) || R.Planned(w, b) ensures Holders(v.replicas, b) != {} ==> b in w.disk { CopiesHaveBytes(w, b); }
  }

  lemma MvKeepsBlocks(db: Db, c: L.Command, now: Time, ttl: Time)
    requires c.Mv?
    ensures KeepsBlocks(db, L.Step(db, c, now, ttl))
  {
    var r := N.Mv(db, c.owner, c.src, c.dst, now);
    if r.Ok? {
      var (origin, parent, name) := N.PlanMove(db, c.owner, c.src, c.dst, now).value;
    }
  }

  lemma RmdirKeepsBlocks(db: Db, c: L.Command, now: Time, ttl: Time)
    requires c.Rmdir?
    ensures KeepsBlocks(db, L.Step(db, c, now, ttl))
  {
  }

  lemma CommitKeepsBlocks(db: Db, c: L.Command, now: Time, ttl: Time)
    requires c.Commit?
    ensures KeepsBlocks(db, L.Step(db, c, now, ttl))
  {
  }

  lemma CommandKeepsBlocks(db: Db, c: L.Command, now: Time, ttl: Time)
    requires c.Mkdir? || c.Rmdir? || c.Rm? || c.Mv? || c.Commit? || c.Abort? || c.Locks?
    ensures KeepsBlocks(db, L.Step(db, c, now, ttl))
  {
    match c
    case Mv(_, _, _) => MvKeepsBlocks(db, c, now, ttl);
    case Rmdir(_, _, _) => RmdirKeepsBlocks(db, c, now, ttl);
    case Commit(_, _, _) => CommitKeepsBlocks(db, c, now, ttl);
    case _ =>
  }

  /** Namespace commands, commits, aborts and lock changes are among the other commands of an append run. */
  lemma NamespaceLeavesAppendsAlone(w: R.World, c: L.Command, now: Time, ttl: Time)
    requires R.Inv(w) && (c.Mkdir? || c.Rmdir? || c.Rm? || c.Mv? || c.Commit? || c.Abort? || c.Locks?)
    ensures R.Step(w, R.Other(L.Step(w.db, c, now, ttl), w.disk)) == w.(db := L.Step(w.db, c, now, ttl))
  {
    CommandKeepsBlocks(w.db, c, now, ttl);
    KeepingBlocksLeavesAlone(w, L.Step(w.db, c, now, ttl));
  }

  lemma CollectionKeeps(db: Db, ids: set<Id>, b: Id)
    requires b !in ids
    ensures Get(L.Collected(db, ids).blocks, b) == Get(db.blocks, b)
    ensures Holders(L.Collected(db, ids).replicas, b) <= Holders(db.replicas, b)
  {
    FewerHolders(db.replicas, L.Collected(db, ids).replicas, b);
  }

  lemma FewerHolders(before: Replicas, after: Replicas, b: Id)
    requires forall r :: r in after ==> r in before && after[r] == before[r]
    ensures Holders(after, b) <= Holders(before, b)
  {
  }

  /** So is a collection that takes no block of a followed file or of an uncommitted plan. */
  lemma CollectionLeavesAppendsAlone(w: R.World, ids: set<Id>)
    requires R.Inv(w) && forall b :: b in ids ==> !R.Attached(w, b) && !R.Planned(w, b)
    ensures R.LeavesAlone(w, L.Collected(w.db, ids), w.disk)
  {
    var v := L.Collected(w.db, ids);
    forall b | R.Attached(w, b) || R.Planned(w, b)
      ensures Get(v.blocks, b) == Get(w.db.blocks, b) && (Holders(v.replicas, b) != {} ==> b in w.disk)
    {
      CopiesHaveBytes(w, b);
      CollectionKeeps(w.db, ids, b);
    }
  }

  lemma ReplacedTailIsUnused(w: R.World, b: Id, events: seq<R.Event>)
    requires R.Inv(w) && AppendSafety.IsReplacedTail(w, b)
    ensures !R.Attached(R.Run(w, events), b) && !R.Planned(R.Run(w, events), b)
  {
    var v := R.Run(w, events);
    AppendSafety.ReplacedTailIsLoose(w, b);
    AppendSafety.DetachedForEver(w, events, b);
    if R.Planned(v, b) { AppendSafety.PlannedIsNew(v, b); }
  }

  /** The tails that appends have replaced may be collected from a list as old as one likes: after any
      further appends, confirming them is still such a command. */
  lemma ReplacedTailsMayBeCollected(w: R.World, ids: set<Id>, events: seq<R.Event>)
    requires R.Inv(w) && forall b :: b in ids ==> AppendSafety.IsReplacedTail(w, b)
    ensures var v := R.Run(w, events);
            R.Step(v, R.Other(L.Collected(v.db, ids), v.disk)) == v.(db := L.Collected(v.db, ids))
  {
    var v := R.Run(w, events);
    AppendSafety.InvInEveryRun(w, events);
    forall b | b in ids ensures !R.Attached(v, b) && !R.Planned(v, b) { ReplacedTailIsUnused(w, b, events); }
    CollectionLeavesAppendsAlone(v, ids);
  }

  /** A new file brings its own blocks, under ids never used. */
  ghost predicate NewToWorld(w: R.World, c: L.Command) {
    && c.Create? && (forall s :: s in c.slots ==> s.id !in w.ever)
    && (forall b :: b in w.db.blocks ==> w.db.blocks[b].file != Some(c.file))
  }

  lemma CreatedRows(db: Db, c: L.Command, now: Time, ttl: Time) returns (used: seq<Slot>, rows: seq<(Id, Block)>)
    requires c.Create? && L.Step(db, c, now, ttl) != db
    ensures c.file !in db.files && |rows| == |used| && FreshSlots(db.blocks, used) && used == c.slots[..Min(|used|, |c.slots|)]
    ensures forall k :: 0 <= k < |rows| ==> rows[k].0 == used[k].id && rows[k].1.file == Some(c.file) && rows[k].1.index == k
    ensures var v := L.Step(db, c, now, ttl);
            && v.blocks == InsertBlocks(db.blocks, rows) && v.replicas == InsertCopies(db.replicas, PlannedCopies(used))
            && forall f :: f in db.files ==> f in v.files && v.files[f].size == db.files[f].size && v.files[f].blockSize == db.files[f].blockSize
  {
    var sizes := PlanSizes(c.size, c.blockSize);
    used := c.slots[..|sizes|];
    rows := N.FileRows(c.file, used, sizes, c.overhead);
  }

  lemma NewBlocksAreUnique(before: Blocks, after: Blocks, file: Id, rows: seq<(Id, Block)>)
    requires UniqueIndexes(before) && forall b :: b in before ==> Get(after, b) == Get(before, b) && before[b].file != Some(file)
    requires forall k :: 0 <= k < |rows| ==> rows[k].1.file == Some(file) && rows[k].1.index == k
    requires forall b :: b in after && b !in before ==> exists k :: 0 <= k < |rows| && rows[k].0 == b && after[b] == rows[k].1
    ensures UniqueIndexes(after)
  {
    forall b | b in before ensures b in after && after[b] == before[b] { assert Get(after, b) == Get(before, b); }
  }

  lemma PlannedCopiesAreNew(db: Db, used: seq<Slot>, rows: seq<(Id, Block)>)
    requires FreshSlots(db.blocks, used) && |rows| == |used| && forall k :: 0 <= k < |rows| ==> rows[k].0 == used[k].id
    requires forall r :: r in db.replicas ==> r.0 in db.blocks
    ensures forall c :: c in PlannedCopies(used) ==> c.0 !in db.blocks && exists k :: 0 <= k < |rows| && rows[k].0 == c.0
    ensures forall b :: b in db.blocks ==> Holders(InsertCopies(db.replicas, PlannedCopies(used)), b) == Holders(db.replicas, b)
  {
    forall c | c in PlannedCopies(used) ensures c.0 !in db.blocks && exists k :: 0 <= k < |rows| && rows[k].0 == c.0 {
      var t, n :| t in used && n in t.nodes && c == (t.id, n);
      var k :| 0 <= k < |used| && used[k] == t;
      assert rows[k].0 == c.0;
    }
  }

  /** What a creation does to the tables of blocks and copies. */
  ghost predicate Creates(db: Db, v: Db, file: Id, used: seq<Slot>, rows: seq<(Id, Block)>) {
    && |rows| == |used|
    && (forall k :: 0 <= k < |rows| ==> rows[k].0 == used[k].id && rows[k].1.file == Some(file))
    && (forall b :: b in db.blocks ==> Get(v.blocks, b) == Get(db.blocks, b) && Holders(v.replicas, b) == Holders(db.replicas, b))
    && (forall b :: b in v.blocks && b !in db.blocks ==> exists k :: 0 <= k < |rows| && rows[k].0 == b && v.blocks[b] == rows[k].1)
  }

  lemma CreationTables(w: R.World, c: L.Command, now: Time, ttl: Time) returns (used: seq<Slot>, rows: seq<(Id, Block)>)
    requires R.TablesOk(w) && NewToWorld(w, c) && L.Step(w.db, c, now, ttl) != w.db
    ensures c.file !in w.db.files && used == c.slots[..Min(|used|, |c.slots|)]
    ensures var v := L.Step(w.db, c, now, ttl);
            && Creates(w.db, v, c.file, used, rows) && UniqueIndexes(v.blocks)
            && (forall r :: r in v.replicas ==> r.0 in v.blocks)
            && forall f :: f in w.db.files ==> f in v.files && v.files[f].size == w.db.files[f].size && v.files[f].blockSize == w.db.files[f].blockSize
  {
    var v := L.Step(w.db, c, now, ttl);
    used, rows := CreatedRows(w.db, c, now, ttl);
    InsertedRows(w.db.blocks, used, rows);
    NewBlocksAreUnique(w.db.blocks, v.blocks, c.file, rows);
    PlannedCopiesAreNew(w.db, used, rows);
    CreatedReferences(w.db, v, used, rows);
  }

  lemma CreatedReferences(db: Db, v: Db, used: seq<Slot>, rows: seq<(Id, Block)>)
    requires v.replicas == InsertCopies(db.replicas, PlannedCopies(used)) && (forall r :: r in db.replicas ==> r.0 in db.blocks)
    requires forall c :: c in PlannedCopies(used) ==> exists k :: 0 <= k < |rows| && rows[k].0 == c.0
    requires forall b :: b in db.blocks ==> Get(v.blocks, b) == Get(db.blocks, b)
    requires forall k :: 0 <= k < |rows| ==> rows[k].0 in v.blocks
    ensures forall r :: r in v.replicas ==> r.0 in v.blocks
  {
    forall b | b in db.blocks ensures b in v.blocks { assert Get(v.blocks, b) == Get(db.blocks, b); }
  }

  /** And so is the creation of another file. */
  lemma CreationLeavesAppendsAlone(w: R.World, c: L.Command, now: Time, ttl: Time)
    requires R.Inv(w) && NewToWorld(w, c)
    ensures R.LeavesAlone(w, L.Step(w.db, c, now, ttl), w.disk)
  {
    if L.Step(w.db, c, now, ttl) == w.db {
      KeepingBlocksLeavesAlone(w, w.db);
    } else {
      var used, rows := CreationTables(w, c, now, ttl);
      CreatedLeavesAlone(w, c, L.Step(w.db, c, now, ttl), used, rows);
    }
  }

  lemma CreatedLeavesAlone(w: R.World, c: L.Command, v: Db, used: seq<Slot>, rows: seq<(Id, Block)>)
    requires R.Inv(w) && NewToWorld(w, c) && c.file !in w.db.files && used == c.slots[..Min(|used|, |c.slots|)]
    requires Creates(w.db, v, c.file, used, rows) && UniqueIndexes(v.blocks)
    requires forall r :: r in v.replicas ==> r.0 in v.blocks
    requires forall f :: f in w.db.files ==> f in v.files && v.files[f].size == w.db.files[f].size && v.files[f].blockSize == w.db.files[f].blockSize
    ensures R.LeavesAlone(w, v, w.disk)
  {
    CreationKeepsOld(w, c, v, used, rows);
    CreationBringsNew(w, c, v, used, rows);
  }

  lemma CreationKeepsOld(w: R.World, c: L.Command, v: Db, used: seq<Slot>, rows: seq<(Id, Block)>)
    requires R.Inv(w) && forall b :: b in w.db.blocks ==> Get(v.blocks, b) == Get(w.db.blocks, b) && Holders(v.replicas, b) == Holders(w.db.replicas, b)
    ensures forall b :: R.Attached(w, b) || R.Planned(w, b) ==>
              Get(v.blocks, b) == Get(w.db.blocks, b) && (Holders(v.replicas, b) != {} ==> b in w.disk)
  {
    forall b | R.Attached(w, b) || R.Planned(w, b)
      ensures Get(v.blocks, b) == Get(w.db.blocks, b) && (Holders(v.replicas, b) != {} ==> b in w.disk)
    {
      CopiesHaveBytes(w, b);
      if R.Planned(w, b) {
        var d :| d in w.sessions && !w.sessions[d].done && b in w.sessions[d].plan.ids;
        assert R.SessionOk(w, w.sessions[d]);
        var k :| 0 <= k < |w.sessions[d].plan.ids| && w.sessions[d].plan.ids[k] == b;
        assert R.PlannedOk(w, b, w.sessions[d].plan.start + k);
      }
    }
  }

  lemma CreationBringsNew(w: R.World, c: L.Command, v: Db, used: seq<Slot>, rows: seq<(Id, Block)>)
    requires R.Inv(w) && NewToWorld(w, c) && c.file !in w.db.files && used == c.slots[..Min(|used|, |c.slots|)]
    requires Creates(w.db, v, c.file, used, rows)
    ensures forall b :: b in v.blocks && b in w.ever ==> b in w.db.blocks && v.blocks[b] == w.db.blocks[b]
    ensures forall b :: b in v.blocks && v.blocks[b].file.Some? && v.blocks[b].file.value in w.initial ==> R.Attached(w, b)
  {
    forall b | b in w.db.blocks ensures b in v.blocks && v.blocks[b] == w.db.blocks[b] { assert Get(v.blocks, b) == Get(w.db.blocks, b); }
    forall b | b in v.blocks && b !in w.db.blocks ensures b !in w.ever && v.blocks[b].file == Some(c.file) {
      var k :| 0 <= k < |rows| && rows[k].0 == b && v.blocks[b] == rows[k].1;
      assert used[k] in c.slots;
    }
  }
}
