/** The metadata database: one field per table, and the transaction that commands run in. */
module Tables {
  import opened Common
  import opened Entities
  import opened BlockTable
  import opened FileLocks

  /** What every table holds at one instant. */
  datatype Db = Db(directories: Directories, files: Files, blocks: Blocks, replicas: Replicas, locks: map<Id, Rows>) {
    function LocksOf(file: Id): Rows { if file in locks then locks[file] else [] }
  }

  /** The unit of work handed to a command (SqlUnitOfWork). */
  class UnitOfWork {
    var directories: Directories
    var files: Files
    var blocks: Blocks
    var replicas: Replicas
    var locks: map<Id, Rows>

    function Snapshot(): Db reads this {
      Db(directories, files, blocks, replicas, locks)
    }

    /** Leaving a unit of work without committing undoes everything it did. */
    method Rollback(begin: Db)
      modifies this
      ensures Snapshot() == begin
    {
      directories, files, blocks, replicas, locks := begin.directories, begin.files, begin.blocks, begin.replicas, begin.locks;
    }
  }

  /** What `new_id` and the placement policy answered for one planned block. */
  datatype Slot = Slot(id: Id, nodes: seq<Id>)

  /** Fresh primary keys: what the INSERTs of a plan need in order not to fail. */
  predicate FreshSlots(blocks: Blocks, slots: seq<Slot>) {
    && (forall i, j | 0 <= i < j < |slots| :: slots[i].id != slots[j].id)
    && (forall i | 0 <= i < |slots| :: slots[i].id !in blocks)
  }

  /** Inserting rows under fresh ids: every block is an old one, or one of the new rows. */
  lemma InsertedRows(blocks: Blocks, slots: seq<Slot>, rows: seq<(Id, Block)>)
    requires |rows| == |slots| && FreshSlots(blocks, slots) && forall k :: 0 <= k < |rows| ==> rows[k].0 == slots[k].id
    ensures forall b :: b in blocks ==> Get(InsertBlocks(blocks, rows), b) == Get(blocks, b)
    ensures forall b :: b in InsertBlocks(blocks, rows) && b !in blocks ==>
              exists k :: 0 <= k < |rows| && rows[k].0 == b && InsertBlocks(blocks, rows)[b] == rows[k].1
    ensures forall k :: 0 <= k < |rows| ==> rows[k].0 !in blocks && Get(InsertBlocks(blocks, rows), rows[k].0) == Some(rows[k].1)
  {
    InsertedBlocks(blocks, rows);
    forall b | b in blocks ensures Get(InsertBlocks(blocks, rows), b) == Get(blocks, b) {
      forall r | r in rows ensures r.0 != b { var k :| 0 <= k < |rows| && rows[k] == r; }
    }
    forall b | b in InsertBlocks(blocks, rows) && b !in blocks
      ensures exists k :: 0 <= k < |rows| && rows[k].0 == b && InsertBlocks(blocks, rows)[b] == rows[k].1
    {
      var r :| r in rows && r.0 == b;
      var k :| 0 <= k < |rows| && rows[k] == r;
    }
  }

  function SlotIds(slots: seq<Slot>): (r: seq<Id>)
    ensures |r| == |slots|
    ensures forall i :: 0 <= i < |r| ==> r[i] == slots[i].id
  {
    seq(|slots|, i requires 0 <= i < |slots| => slots[i].id)
  }

  /** One PENDING row for every copy of the plan. */
  function PlannedCopies(slots: seq<Slot>): set<(Id, Id)> {
    set s, n | s in slots && n in s.nodes :: (s.id, n)
  }

  function InsertCopies(replicas: Replicas, copies: set<(Id, Id)>): Replicas {
    replicas + map c | c in copies :: Pending
  }

  /** Enough slots, and the ones that will be used have ids nobody has. */
  ghost predicate HasSlots(db: Db, slots: seq<Slot>, n: nat) {
    && n <= |slots|
    && (forall i, j :: 0 <= i < j < n ==> slots[i].id != slots[j].id)
    && forall i :: 0 <= i < n ==> slots[i].id !in db.blocks
  }

  lemma SlotsAreFresh(db: Db, slots: seq<Slot>, n: nat)
    ensures HasSlots(db, slots, n) <==> n <= |slots| && FreshSlots(db.blocks, slots[..n])
  {
  }

  /** What planning blocks leaves in the two tables: one row per slot, at consecutive positions, with
      the nodes of its slot as planned copies and none stored; every other row as it was. */
  ghost predicate Laid(db: Db, v: Db, owner: Option<Id>, slots: seq<Slot>, sizes: seq<nat>, start: nat, overhead: nat) {
    && |sizes| == |slots|
    && v.blocks.Keys == db.blocks.Keys + (set s | s in slots :: s.id)
    && (forall b :: b in db.blocks ==> b in v.blocks && v.blocks[b] == db.blocks[b])
    && (forall k :: 0 <= k < |slots| ==>
          && slots[k].id !in db.blocks && slots[k].id in v.blocks
          && v.blocks[slots[k].id] == Block(owner, start + k, sizes[k] + overhead))
    && (forall c :: c in db.replicas ==> c in v.replicas && v.replicas[c] == db.replicas[c])
    && (forall c :: c in v.replicas && c !in db.replicas ==> c.0 !in db.blocks)
    && (forall k, n: Id :: 0 <= k < |slots| ==> Get(v.replicas, (slots[k].id, n)) == if n in slots[k].nodes then Some(Pending) else None)
  }

  /** The copies table refers to blocks that exist. */
  ghost predicate CopiesRefer(db: Db) { forall c :: c in db.replicas ==> c.0 in db.blocks }

  /** The blocks table refers to files that exist. */
  ghost predicate BlocksRefer(db: Db) { forall b :: b in db.blocks && db.blocks[b].file.Some? ==> db.blocks[b].file.value in db.files }

  lemma NewCopies(db: Db, slots: seq<Slot>, k: nat, n: Id)
    requires FreshSlots(db.blocks, slots) && CopiesRefer(db) && k < |slots|
    ensures Get(InsertCopies(db.replicas, PlannedCopies(slots)), (slots[k].id, n)) == if n in slots[k].nodes then Some(Pending) else None
  {
    var c := (slots[k].id, n);
    if n in slots[k].nodes { assert c in PlannedCopies(slots); }
    if c in PlannedCopies(slots) {
      var s, m :| s in slots && m in s.nodes && c == (s.id, m);
      var j :| 0 <= j < |slots| && slots[j] == s;
      assert j == k;
    }
  }

  lemma {:induction false} RowsAreLaid(db: Db, v: Db, owner: Option<Id>, slots: seq<Slot>, sizes: seq<nat>, start: nat, overhead: nat, rows: seq<(Id, Block)>)
    requires FreshSlots(db.blocks, slots) && CopiesRefer(db) && |rows| == |slots| == |sizes|
    requires forall k :: 0 <= k < |rows| ==> rows[k] == (slots[k].id, Block(owner, start + k, sizes[k] + overhead))
    requires v.blocks == InsertBlocks(db.blocks, rows) && v.replicas == InsertCopies(db.replicas, PlannedCopies(slots))
    ensures Laid(db, v, owner, slots, sizes, start, overhead)
  {
    InsertedRows(db.blocks, slots, rows);
    InsertedBlocks(db.blocks, rows);
    forall b | b in db.blocks ensures b in v.blocks && v.blocks[b] == db.blocks[b] { assert Get(v.blocks, b) == Get(db.blocks, b); }
    RowIds(slots, rows);
    forall c | c in PlannedCopies(slots) ensures c.0 !in db.blocks {
      var s, m :| s in slots && m in s.nodes && c == (s.id, m);
      var j :| 0 <= j < |slots| && slots[j] == s;
    }
    forall k, n: Id | 0 <= k < |slots|
      ensures Get(v.replicas, (slots[k].id, n)) == if n in slots[k].nodes then Some(Pending) else None
    {
      NewCopies(db, slots, k, n);
    }
    forall k | 0 <= k < |slots| ensures slots[k].id !in db.blocks && Get(v.blocks, slots[k].id) == Some(rows[k].1) {
      assert Get(v.blocks, rows[k].0) == Some(rows[k].1);
    }
  }

  lemma RowIds(slots: seq<Slot>, rows: seq<(Id, Block)>)
    requires |rows| == |slots| && forall k :: 0 <= k < |rows| ==> rows[k].0 == slots[k].id
    ensures (set r | r in rows :: r.0) == set s | s in slots :: s.id
  {
    var ids := set s | s in slots :: s.id;
    var keys := set r | r in rows :: r.0;
    forall i ensures i in ids <==> i in keys {
      if i in ids {
        var s :| s in slots && s.id == i;
        var k :| 0 <= k < |slots| && slots[k] == s;
        assert rows[k] in rows;
      }
      if i in keys {
        var r :| r in rows && r.0 == i;
        var k :| 0 <= k < |rows| && rows[k] == r;
        assert slots[k] in slots;
      }
    }
  }
}
