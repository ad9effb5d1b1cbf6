/** Appending to a file of immutable blocks: a plan creates loose blocks, the client uploads
    them, a commit swaps the old tail for the new blocks (commands/files.py, client/cli.py). */
module Append {
  import opened Common
  import opened Entities
  import opened BlockTable
  import opened Partition
  import opened FileLocks
  import opened Tables

  /** What the client gets back from planning an append. */
  datatype AppendPlan = AppendPlan(file: Id, blockSize: nat, tail: Option<Id>, start: nat, ids: seq<Id>)

  /** Where the new bytes go: the partial last block to rewrite, if any, its clear size and
      the index of the first block to write. */
  datatype Cut = Cut(tail: Option<Id>, tailPlain: int, start: nat)

  function CutOf(blocks: Blocks, order: seq<Id>, blockSize: int, overhead: nat): Cut
    requires forall b :: b in order ==> b in blocks
  {
    if order == [] then Cut(None, 0, 0) else
    var last := order[|order| - 1];
    var plain := blocks[last].size - overhead;
    if plain < blockSize then Cut(Some(last), plain, blocks[last].index) else Cut(None, 0, |order|)
  }

  lemma ListedBlocksExist(blocks: Blocks, ids: set<Id>)
    requires ids <= blocks.Keys
    ensures forall b :: b in ByIndex(blocks, ids) <==> b in ids
    decreases |ids|
  {
    if ids != {} {
      var l := ByIndex(blocks, ids);
      ListedBlocksExist(blocks, ids - {l[0]});
      assert l == [l[0]] + ByIndex(blocks, ids - {l[0]});
    }
  }

  function PlanRows(slots: seq<Slot>, sizes: seq<nat>, start: nat, overhead: nat): (r: seq<(Id, Block)>)
    requires |slots| == |sizes|
    ensures |r| == |slots|
    ensures forall k :: 0 <= k < |r| ==> r[k] == (slots[k].id, Block(None, start + k, sizes[k] + overhead))
  {
    seq(|slots|, k requires 0 <= k < |slots| => (slots[k].id, Block(None, start + k, sizes[k] + overhead)))
  }

  /** Checks shared by both phases, in the order they are made. */
  function Admit(db: Db, file: Id, fencing: Option<LockFencing>, now: Time): Result<()> {
    if file !in db.files || !db.files[file].state.Committed? then Err(NotFound)
    else if db.files[file].directory !in db.directories then Err(NotFound)
    else RequireLock(db.LocksOf(file), fencing, now)
  }

  function CutOfFile(db: Db, file: Id, overhead: nat): Cut
    requires file in db.files
  {
    ListedBlocksExist(db.blocks, BlocksOf(db.blocks, file));
    CutOf(db.blocks, ListForFile(db.blocks, file), db.files[file].blockSize, overhead)
  }

  /** Lays out the blocks for so many bytes from the cut on. The plan is committed before the tail's copies
      are looked up, so the last failure leaves the loose blocks behind. */
  function PlanAt(db: Db, file: Id, cut: Cut, bytes: nat, overhead: nat, slots: seq<Slot>): (Db, Result<AppendPlan>)
    requires file in db.files && db.files[file].blockSize > 0
  {
    var blockSize := db.files[file].blockSize;
    var sizes := PlanSizes(bytes, blockSize);
    if |slots| < |sizes| then (db, Err(NoDataNodeAvailable)) else
    var used := slots[..|sizes|];
    if !FreshSlots(db.blocks, used) then (db, Err(IntegrityViolation)) else
    var after := db.(blocks := InsertBlocks(db.blocks, PlanRows(used, sizes, cut.start, overhead)),
                     replicas := InsertCopies(db.replicas, PlannedCopies(used)));
    if cut.tail.Some? && Holders(db.replicas, cut.tail.value) == {} then (after, Err(NotFound))
    else (after, Ok(AppendPlan(file, blockSize, cut.tail, cut.start, SlotIds(used))))
  }

  /** First phase. `slots` are the ids and targets minted on the way; running out of them is the
      placement policy giving up. */
  function PlanAppend(db: Db, file: Id, added: int, overhead: nat, slots: seq<Slot>,
                      fencing: Option<LockFencing>, now: Time): (Db, Result<AppendPlan>)
  {
    if added <= 0 then (db, Err(InvalidState)) else
    var admitted := Admit(db, file, fencing, now);
    if admitted.Err? then (db, Err(admitted.error)) else
    var blockSize := db.files[file].blockSize;
    var cut := CutOfFile(db, file, overhead);
    if cut.tailPlain + added < 0 || blockSize <= 0 then (db, Err(InvalidBlockSize))
    else PlanAt(db, file, cut, cut.tailPlain + added, overhead, slots)
  }

  predicate BelowQuorum(db: Db, block: Id, quorum: nat) {
    block in db.blocks && |Holders(db.replicas, block)| < quorum
  }

  /** Second phase: detach the old tail, attach the new blocks, set the size, all or nothing. */
  function CommitAppend(db: Db, file: Id, ids: seq<Id>, newSize: int, oldTail: Option<Id>, quorum: nat,
                        fencing: Option<LockFencing>, now: Time): Result<Db>
  {
    var admitted := Admit(db, file, fencing, now);
    if admitted.Err? then Err(admitted.error)
    else if exists b | b in ids :: BelowQuorum(db, b, quorum) then Err(BlocksNotStored)
    else
      var after := Attach(Detach(db.blocks, oldTail), ids, file);
      if !UniqueIndexes(after) then Err(IntegrityViolation)
      else Ok(db.(blocks := after, files := db.files[file := db.files[file].(size := newSize)]))
  }

  /** The loop that turns the partition into loose blocks and their planned copies. */
  method LayOut(specs: seq<BlockSpec>, slots: seq<Slot>, start: nat, overhead: nat)
    returns (rows: seq<(Id, Block)>, copies: set<(Id, Id)>)
    requires |specs| == |slots|
    requires forall k :: 0 <= k < |specs| ==> specs[k].index == k
    ensures rows == PlanRows(slots, SpecSizes(specs), start, overhead)
    ensures copies == PlannedCopies(slots)
  {
    rows, copies := [], {};
    for k := 0 to |specs|
      invariant rows == PlanRows(slots, SpecSizes(specs), start, overhead)[..k]
      invariant copies == PlannedCopies(slots[..k])
    {
      var spec := specs[k];
      rows := rows + [(slots[k].id, Block(None, start + spec.index, spec.size + overhead))];
      copies := copies + set n | n in slots[k].nodes :: (slots[k].id, n);
      assert slots[..k + 1] == slots[..k] + [slots[k]];
    }
    assert slots[..|specs|] == slots;
  }

  method AppendToFile(uow: UnitOfWork, file: Id, added: int, overhead: nat, slots: seq<Slot>,
                      fencing: Option<LockFencing>, now: Time)
    returns (r: Result<AppendPlan>)
    modifies uow
    ensures (uow.Snapshot(), r) == PlanAppend(old(uow.Snapshot()), file, added, overhead, slots, fencing, now)
  {
    if added <= 0 {
      return Err(InvalidState);
    }
    var begin := uow.Snapshot();
    var admitted := Admit(begin, file, fencing, now);
    if admitted.Err? {
      return Err(admitted.error);
    }
    var blockSize := uow.files[file].blockSize;
    var cut := CutOfFile(begin, file, overhead);
    var specs := PlanBlocks(cut.tailPlain + added, blockSize);
    if specs.Err? {
      return Err(specs.error);
    }
    if |slots| < |specs.value| {
      return Err(NoDataNodeAvailable);
    }
    var used := slots[..|specs.value|];
    IndexesOfPlan(specs.value, cut.tailPlain + added, blockSize);
    var rows, copies := LayOut(specs.value, used, cut.start, overhead);
    if !FreshSlots(uow.blocks, used) {
      return Err(IntegrityViolation);
    }
    uow.blocks := InsertBlocks(uow.blocks, rows);
    uow.replicas := InsertCopies(uow.replicas, copies);
    if cut.tail.Some? && Holders(begin.replicas, cut.tail.value) == {} {
      return Err(NotFound);
    }
    return Ok(AppendPlan(file, blockSize, cut.tail, cut.start, SlotIds(used)));
  }

  method CommitAppendCommand(uow: UnitOfWork, file: Id, ids: seq<Id>, newSize: int, oldTail: Option<Id>, quorum: nat,
                             fencing: Option<LockFencing>, now: Time)
    returns (r: Result<()>)
    modifies uow
    ensures match CommitAppend(old(uow.Snapshot()), file, ids, newSize, oldTail, quorum, fencing, now)
            case Ok(after) => r == Ok(()) && uow.Snapshot() == after
            case Err(e) => r == Err(e) && uow.Snapshot() == old(uow.Snapshot())
  {
    var begin := uow.Snapshot();
    var admitted := Admit(begin, file, fencing, now);
    if admitted.Err? {
      return Err(admitted.error);
    }
    if exists b | b in ids :: BelowQuorum(begin, b, quorum) {
      return Err(BlocksNotStored);
    }
    uow.blocks := Detach(uow.blocks, oldTail);
    uow.blocks := Attach(uow.blocks, ids, file);
    uow.files := uow.files[file := uow.files[file].(size := newSize)];
    if !UniqueIndexes(uow.blocks) {
      uow.Rollback(begin);
      return Err(IntegrityViolation);
    }
    return Ok(());
  }
}
