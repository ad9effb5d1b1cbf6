/** Exactly when the two phases of an append go through, and all they leave in the tables. */
module AppendExact {
  import opened Common
  import opened Entities
  import opened BlockTable
  import opened Partition
  import FileLocks
  import opened Tables
  import opened Append

  // ----- The end of a file -----------------------------------------------------

  ghost predicate IsLastOf(blocks: Blocks, file: Id, b: Id) {
    b in BlocksOf(blocks, file) && forall c :: c in BlocksOf(blocks, file) ==> Before(blocks, c, b)
  }

  /** The last block of a file, if it has room left. */
  ghost predicate IsPartialLast(db: Db, file: Id, overhead: nat, b: Id) {
    file in db.files && IsLastOf(db.blocks, file, b) && db.blocks[b].size - overhead < db.files[file].blockSize
  }

  /** An append rewrites the partial last block, from its position, or starts after all blocks. */
  ghost predicate StartsAt(db: Db, file: Id, overhead: nat, cut: Cut) {
    match cut.tail
    case Some(b) => IsPartialLast(db, file, overhead, b) && cut.tailPlain == db.blocks[b].size - overhead && cut.start == db.blocks[b].index
    case None => (forall b :: !IsPartialLast(db, file, overhead, b)) && cut.tailPlain == 0 && cut.start == |BlocksOf(db.blocks, file)|
  }

  lemma {:induction false} ListedInOrder(blocks: Blocks, ids: set<Id>)
    requires ids <= blocks.Keys
    ensures |ByIndex(blocks, ids)| == |ids|
    ensures ids != {} ==>
              var last := ByIndex(blocks, ids)[|ids| - 1];
              last in ids && forall c :: c in ids ==> Before(blocks, c, last)
    decreases |ids|
  {
    if ids != {} {
      var l := ByIndex(blocks, ids);
      var rest := ids - {l[0]};
      ListedInOrder(blocks, rest);
      assert l == [l[0]] + ByIndex(blocks, rest);
      if rest != {} {
        var last := ByIndex(blocks, rest)[|rest| - 1];
        assert l[|ids| - 1] == last;
        forall c | c in ids ensures Before(blocks, c, last) { assert c == l[0] || c in rest; }
      } else {
        assert ids == {l[0]};
      }
    }
  }

  lemma LastIsUnique(blocks: Blocks, file: Id, a: Id, b: Id)
    requires IsLastOf(blocks, file, a) && IsLastOf(blocks, file, b)
    ensures a == b
  {
    assert Before(blocks, a, b) && Before(blocks, b, a);
  }

  /** The cut the planning command finds is where the append has to start, and the only such place. */
  lemma CutIsTheEnd(db: Db, file: Id, overhead: nat, cut: Cut)
    requires file in db.files
    ensures StartsAt(db, file, overhead, cut) <==> cut == CutOfFile(db, file, overhead)
  {
    var ids := BlocksOf(db.blocks, file);
    var found := CutOfFile(db, file, overhead);
    ListedInOrder(db.blocks, ids);
    if ids != {} {
      var last := ListForFile(db.blocks, file)[|ids| - 1];
      assert IsLastOf(db.blocks, file, last);
      forall b | IsLastOf(db.blocks, file, b) ensures b == last { LastIsUnique(db.blocks, file, b, last); }
    }
    assert StartsAt(db, file, overhead, found);
  }

  // ----- Planning ------------------------------------------------------------

  /** A committed file whose directory row exists, with the lock in order: what both phases ask for. */
  ghost predicate IsOpen(db: Db, file: Id, fencing: Option<FileLocks.LockFencing>, now: Time) {
    && file in db.files && db.files[file].state.Committed? && db.files[file].directory in db.directories
    && FileLocks.RequireLock(db.LocksOf(file), fencing, now).Ok?
  }

  /** Some node has a stored copy of the block that is rewritten. */
  ghost predicate TailIsReadable(db: Db, cut: Cut) {
    cut.tail.Some? ==> exists n: Id :: (cut.tail.value, n) in db.replicas && db.replicas[(cut.tail.value, n)] == Stored
  }

  lemma StoredSomewhere(replicas: Replicas, b: Id)
    ensures Holders(replicas, b) != {} <==> exists n: Id :: (b, n) in replicas && replicas[(b, n)] == Stored
  {
    if n: Id :| (b, n) in replicas && replicas[(b, n)] == Stored { assert n in Holders(replicas, b); }
    if Holders(replicas, b) != {} { var n :| n in Holders(replicas, b); }
  }

  lemma EnoughSlots(db: Db, slots: seq<Slot>, bytes: nat, blockSize: nat)
    requires blockSize > 0
    ensures |PlanSizes(bytes, blockSize)| == BlocksFor(bytes, blockSize)
    ensures var n := |PlanSizes(bytes, blockSize)|;
            HasSlots(db, slots, n) <==> n <= |slots| && FreshSlots(db.blocks, slots[..n])
  {
    PlanHasBlocksFor(bytes, blockSize);
    SlotsAreFresh(db, slots, |PlanSizes(bytes, blockSize)|);
  }

  lemma AdmittedIsOpen(db: Db, file: Id, fencing: Option<FileLocks.LockFencing>, now: Time)
    ensures Admit(db, file, fencing, now).Ok? <==> IsOpen(db, file, fencing, now)
  {
  }

  /** What a layout that is reached answers: a plan exactly if the slots suffice and the tail is readable. */
  ghost predicate AnswersExactly(db: Db, file: Id, cut: Cut, bytes: nat, slots: seq<Slot>, r: Result<AppendPlan>) {
    && file in db.files && db.files[file].blockSize > 0
    && var n := BlocksFor(bytes, db.files[file].blockSize);
       && (r.Ok? <==> HasSlots(db, slots, n) && TailIsReadable(db, cut))
       && (r.Ok? ==> r.value == AppendPlan(file, db.files[file].blockSize, cut.tail, cut.start, SlotIds(slots[..n])))
       && (r.Err? && HasSlots(db, slots, n) ==> r == Err(NotFound))
  }

  lemma PlanAtAnswers(db: Db, file: Id, cut: Cut, bytes: nat, overhead: nat, slots: seq<Slot>)
    requires file in db.files && db.files[file].blockSize > 0
    ensures AnswersExactly(db, file, cut, bytes, slots, PlanAt(db, file, cut, bytes, overhead, slots).1)
  {
    EnoughSlots(db, slots, bytes, db.files[file].blockSize);
    if cut.tail.Some? { StoredSomewhere(db.replicas, cut.tail.value); }
  }

  /** The loose blocks of so many bytes, cut as their partition, from a position on. */
  ghost predicate LooseLaid(db: Db, v: Db, slots: seq<Slot>, bytes: nat, blockSize: nat, start: nat, overhead: nat)
    requires blockSize > 0
  {
    var sizes := PlanSizes(bytes, blockSize);
    |sizes| <= |slots| && Laid(db, v, None, slots[..|sizes|], sizes, start, overhead)
  }

  lemma PlanRowsAreLaid(db: Db, used: seq<Slot>, sizes: seq<nat>, start: nat, overhead: nat)
    requires CopiesRefer(db) && FreshSlots(db.blocks, used) && |used| == |sizes|
    ensures var v := db.(blocks := InsertBlocks(db.blocks, PlanRows(used, sizes, start, overhead)),
                         replicas := InsertCopies(db.replicas, PlannedCopies(used)));
            Laid(db, v, None, used, sizes, start, overhead)
  {
    var rows := PlanRows(used, sizes, start, overhead);
    var v := db.(blocks := InsertBlocks(db.blocks, rows), replicas := InsertCopies(db.replicas, PlannedCopies(used)));
    RowsAreLaid(db, v, None, used, sizes, start, overhead, rows);
  }

  lemma PlanAtTables(db: Db, file: Id, cut: Cut, bytes: nat, overhead: nat, slots: seq<Slot>)
    requires file in db.files && db.files[file].blockSize > 0
    ensures var sizes := PlanSizes(bytes, db.files[file].blockSize);
            PlanAt(db, file, cut, bytes, overhead, slots).0 ==
            if |sizes| <= |slots| && FreshSlots(db.blocks, slots[..|sizes|])
            then db.(blocks := InsertBlocks(db.blocks, PlanRows(slots[..|sizes|], sizes, cut.start, overhead)),
                     replicas := InsertCopies(db.replicas, PlannedCopies(slots[..|sizes|])))
            else db
  {
  }

  /** What it leaves: the loose blocks, whether or not the tail is readable, if the slots suffice. */
  ghost predicate LeavesExactly(db: Db, v: Db, file: Id, cut: Cut, bytes: nat, overhead: nat, slots: seq<Slot>) {
    && file in db.files && db.files[file].blockSize > 0
    && v == db.(blocks := v.blocks, replicas := v.replicas)
    && if HasSlots(db, slots, BlocksFor(bytes, db.files[file].blockSize))
       then LooseLaid(db, v, slots, bytes, db.files[file].blockSize, cut.start, overhead) else v == db
  }

  lemma PlanAtLeaves(db: Db, file: Id, cut: Cut, bytes: nat, overhead: nat, slots: seq<Slot>)
    requires CopiesRefer(db) && file in db.files && db.files[file].blockSize > 0
    ensures LeavesExactly(db, PlanAt(db, file, cut, bytes, overhead, slots).0, file, cut, bytes, overhead, slots)
  {
    var sizes := PlanSizes(bytes, db.files[file].blockSize);
    EnoughSlots(db, slots, bytes, db.files[file].blockSize);
    PlanAtTables(db, file, cut, bytes, overhead, slots);
    if HasSlots(db, slots, |sizes|) { PlanRowsAreLaid(db, slots[..|sizes|], sizes, cut.start, overhead); }
  }

  /** Bytes are added to an open file, from where it ends: the layout is reached. */
  ghost predicate Reaches(db: Db, file: Id, added: int, fencing: Option<FileLocks.LockFencing>, now: Time, cut: Cut) {
    added > 0 && IsOpen(db, file, fencing, now) && db.files[file].blockSize > 0 && cut.tailPlain + added >= 0
  }

  lemma PlanIsAtTheCut(db: Db, file: Id, added: int, overhead: nat, slots: seq<Slot>, fencing: Option<FileLocks.LockFencing>, now: Time, cut: Cut)
    requires Reaches(db, file, added, fencing, now, cut) && StartsAt(db, file, overhead, cut)
    ensures PlanAppend(db, file, added, overhead, slots, fencing, now) == PlanAt(db, file, cut, cut.tailPlain + added, overhead, slots)
  {
    AdmittedIsOpen(db, file, fencing, now);
    CutIsTheEnd(db, file, overhead, cut);
  }

  lemma RefusedEarly(db: Db, file: Id, added: int, overhead: nat, slots: seq<Slot>, fencing: Option<FileLocks.LockFencing>, now: Time, cut: Cut)
    requires !Reaches(db, file, added, fencing, now, cut) && (file in db.files ==> StartsAt(db, file, overhead, cut))
    ensures PlanAppend(db, file, added, overhead, slots, fencing, now).0 == db
    ensures PlanAppend(db, file, added, overhead, slots, fencing, now).1.Err?
  {
    AdmittedIsOpen(db, file, fencing, now);
    if file in db.files { CutIsTheEnd(db, file, overhead, cut); }
  }

  /** A plan is made exactly when bytes are added to an open file, the slots suffice, and the last partial
      block, if there is one, has a stored copy on some node; and the plan says where to write what. */
  lemma PlanGoesThroughExactly(db: Db, file: Id, added: int, overhead: nat, slots: seq<Slot>, fencing: Option<FileLocks.LockFencing>, now: Time, cut: Cut)
    requires file in db.files ==> StartsAt(db, file, overhead, cut)
    ensures var r := PlanAppend(db, file, added, overhead, slots, fencing, now).1;
            if Reaches(db, file, added, fencing, now, cut) then AnswersExactly(db, file, cut, cut.tailPlain + added, slots, r) else r.Err?
  {
    if Reaches(db, file, added, fencing, now, cut) {
      PlanIsAtTheCut(db, file, added, overhead, slots, fencing, now, cut);
      PlanAtAnswers(db, file, cut, cut.tailPlain + added, overhead, slots);
    } else {
      RefusedEarly(db, file, added, overhead, slots, fencing, now, cut);
    }
  }

  /** A plan leaves loose blocks that continue the file, cut as a partition of the bytes to write and planned
      on the chosen nodes, and nothing else. A refusal leaves nothing, save that of a tail that nobody
      can read: it comes too late, and the loose blocks stay. */
  lemma PlanLeavesExactly(db: Db, file: Id, added: int, overhead: nat, slots: seq<Slot>, fencing: Option<FileLocks.LockFencing>, now: Time, cut: Cut)
    requires CopiesRefer(db) && (file in db.files ==> StartsAt(db, file, overhead, cut))
    ensures var v := PlanAppend(db, file, added, overhead, slots, fencing, now).0;
            if Reaches(db, file, added, fencing, now, cut)
            then LeavesExactly(db, v, file, cut, cut.tailPlain + added, overhead, slots) else v == db
  {
    if Reaches(db, file, added, fencing, now, cut) {
      PlanIsAtTheCut(db, file, added, overhead, slots, fencing, now, cut);
      PlanAtLeaves(db, file, cut, cut.tailPlain + added, overhead, slots);
    } else {
      RefusedEarly(db, file, added, overhead, slots, fencing, now, cut);
    }
  }

  // ----- Committing ------------------------------------------------------------

  /** The blocks a file has after its commit: the named ones that exist, and its own but the old tail. */
  ghost predicate EndsIn(db: Db, file: Id, ids: seq<Id>, oldTail: Option<Id>, b: Id) {
    b in db.blocks && (b in ids || (db.blocks[b].file == Some(file) && oldTail != Some(b)))
  }

  /** A commit goes through exactly when the file is open, every named block that exists has its quorum of
      stored copies, and no two blocks of the file end up at one position. */
  lemma CommitGoesThroughExactly(db: Db, file: Id, ids: seq<Id>, newSize: int, oldTail: Option<Id>, quorum: nat,
                                 fencing: Option<FileLocks.LockFencing>, now: Time)
    requires UniqueIndexes(db.blocks)
    ensures CommitAppend(db, file, ids, newSize, oldTail, quorum, fencing, now).Ok? <==>
            && IsOpen(db, file, fencing, now)
            && (forall b :: b in ids && b in db.blocks ==> |Holders(db.replicas, b)| >= quorum)
            && forall a, b :: EndsIn(db, file, ids, oldTail, a) && EndsIn(db, file, ids, oldTail, b) && a != b ==>
                                db.blocks[a].index != db.blocks[b].index
  {
    AdmittedIsOpen(db, file, fencing, now);
    var after := Attach(Detach(db.blocks, oldTail), ids, file);
    CommittedRow(db, file, ids, oldTail);
    forall b ensures b in after && after[b].file == Some(file) <==> EndsIn(db, file, ids, oldTail, b) {}
    forall a, b | a in after && b in after && a != b && after[a].file.Some? && after[a].file == after[b].file && after[a].file != Some(file)
      ensures after[a].index != after[b].index
    {
      assert after[a] == db.blocks[a] && after[b] == db.blocks[b];
    }
    if forall b :: b in ids && b in db.blocks ==> |Holders(db.replicas, b)| >= quorum {
      forall b | b in ids ensures !BelowQuorum(db, b, quorum) {}
    } else {
      var b :| b in ids && b in db.blocks && |Holders(db.replicas, b)| < quorum;
      assert BelowQuorum(db, b, quorum);
    }
  }

  lemma CommittedRow(db: Db, file: Id, ids: seq<Id>, oldTail: Option<Id>)
    ensures var after := Attach(Detach(db.blocks, oldTail), ids, file);
            && after.Keys == db.blocks.Keys
            && forall b :: b in db.blocks ==>
                 after[b] == db.blocks[b].(file := if b in ids then Some(file) else if oldTail == Some(b) then None else db.blocks[b].file)
  {
  }

  /** All a commit changes: who owns the named blocks and the old tail, and the size of the file. */
  lemma CommitLeavesExactly(db: Db, file: Id, ids: seq<Id>, newSize: int, oldTail: Option<Id>, quorum: nat,
                            fencing: Option<FileLocks.LockFencing>, now: Time)
    requires CommitAppend(db, file, ids, newSize, oldTail, quorum, fencing, now).Ok?
    ensures var v := CommitAppend(db, file, ids, newSize, oldTail, quorum, fencing, now).value;
            && file in db.files && v == db.(files := v.files, blocks := v.blocks)
            && v.files == db.files[file := db.files[file].(size := newSize)]
            && v.blocks.Keys == db.blocks.Keys
            && (forall b :: b in BlocksOf(v.blocks, file) <==> EndsIn(db, file, ids, oldTail, b))
            && (forall b :: b in db.blocks ==> v.blocks[b].index == db.blocks[b].index && v.blocks[b].size == db.blocks[b].size)
            && (forall b :: b in db.blocks && b !in ids ==> v.blocks[b].file == if oldTail == Some(b) then None else db.blocks[b].file)
  {
    CommittedRow(db, file, ids, oldTail);
  }
}
