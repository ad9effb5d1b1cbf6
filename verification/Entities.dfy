/** Rows of the metadata tables (domain/entities.py, repositories/models.py). */
module Entities {
  import opened Common

  datatype FileState = Writing | Committed | Deleted

  datatype Directory = Directory(parent: Option<Id>, name: string, owner: Id, live: bool)

  datatype File = File(directory: Id, name: string, owner: Id, size: int, blockSize: int,
                       state: FileState, createdAt: Time, expiresAt: Option<Time>) {
    /** Only a reservation can expire. */
    predicate IsExpired(now: Time) { state.Writing? && expiresAt.Some? && expiresAt.value <= now }

    predicate HoldsName(now: Time) { state.Committed? || (state.Writing? && !IsExpired(now)) }
  }

  /** A block without a file is loose: planned by an append, or detached from its file.
      `size` is what it takes on disk, cipher overhead included. */
  datatype Block = Block(file: Option<Id>, index: nat, size: int)

  datatype ReplicaState = Pending | Stored | Missing

  type Directories = map<Id, Directory>
  type Files = map<Id, File>
  type Blocks = map<Id, Block>
  type Replicas = map<(Id, Id), ReplicaState>

  /** The nodes that hold a stored copy of a block; the table has one row per (block, node). */
  function Holders(replicas: Replicas, block: Id): set<Id> {
    set r | r in replicas && r.0 == block && replicas[r] == Stored :: r.1
  }

  /** UNIQUE (file_id, index): two blocks of a file never share a position. */
  predicate UniqueIndexes(blocks: Blocks) {
    forall a, b | a in blocks && b in blocks && a != b ::
      blocks[a].file.Some? && blocks[a].file == blocks[b].file ==> blocks[a].index != blocks[b].index
  }
}

/** The queries and updates of SqlBlockRepository that files are made of. */
module BlockTable {
  import opened Common
  import opened Entities

  function BlocksOf(blocks: Blocks, file: Id): set<Id> {
    set b | b in blocks && blocks[b].file == Some(file)
  }

  predicate Before(blocks: Blocks, a: Id, b: Id)
    requires a in blocks && b in blocks
  {
    blocks[a].index < blocks[b].index || (blocks[a].index == blocks[b].index && a <= b)
  }

  ghost predicate IsFirst(blocks: Blocks, ids: set<Id>, a: Id)
    requires ids <= blocks.Keys
  {
    a in ids && forall b :: b in ids ==> Before(blocks, a, b)
  }

  lemma {:induction false} FirstExists(blocks: Blocks, ids: set<Id>)
    requires ids != {} && ids <= blocks.Keys
    ensures exists a :: IsFirst(blocks, ids, a)
    decreases |ids|
  {
    var x :| x in ids;
    if ids == {x} {
      assert IsFirst(blocks, ids, x);
    } else {
      FirstExists(blocks, ids - {x});
      var a :| IsFirst(blocks, ids - {x}, a);
      var best := if Before(blocks, a, x) then a else x;
      forall b | b in ids ensures Before(blocks, best, b) {
        if b != x { assert b in ids - {x}; assert Before(blocks, a, b); }
      }
      assert IsFirst(blocks, ids, best);
    }
  }

  /** The given blocks in order of index. */
  function ByIndex(blocks: Blocks, ids: set<Id>): seq<Id>
    requires ids <= blocks.Keys
    decreases |ids|
  {
    if ids == {} then [] else
    FirstExists(blocks, ids);
    assert exists a :: a in ids && forall b :: b in ids ==> Before(blocks, a, b) by {
      var a :| IsFirst(blocks, ids, a);
    }
    var a :| a in ids && forall b :: b in ids ==> Before(blocks, a, b);
    [a] + ByIndex(blocks, ids - {a})
  }

  function ListForFile(blocks: Blocks, file: Id): seq<Id> {
    ByIndex(blocks, BlocksOf(blocks, file))
  }

  /** The blocks of a file occupy exactly the positions 0, 1, 2, ... and are listed in that order. */
  ghost predicate IsContiguous(blocks: Blocks, file: Id, order: seq<Id>) {
    && (forall b :: b in BlocksOf(blocks, file) ==> blocks[b].index < |order| && order[blocks[b].index] == b)
    && (forall i :: 0 <= i < |order| ==> order[i] in BlocksOf(blocks, file) && blocks[order[i]].index == i)
  }

  lemma {:induction false} ByIndexIs(blocks: Blocks, ids: set<Id>, order: seq<Id>, from: nat)
    requires ids <= blocks.Keys
    requires forall b :: b in ids <==> b in order
    requires forall i :: 0 <= i < |order| ==> order[i] in blocks && blocks[order[i]].index == from + i
    ensures ByIndex(blocks, ids) == order
    decreases |order|
  {
    if order == [] {
      assert ids == {};
    } else {
      assert order[0] in ids;
      forall b | b in ids && b != order[0] ensures !Before(blocks, b, order[0]) {
        var i :| 0 <= i < |order| && order[i] == b;
      }
      forall b ensures b in ids - {order[0]} <==> b in order[1..] {
        if b in order[1..] {
          var i :| 0 <= i < |order[1..]| && order[1..][i] == b;
          assert order[i + 1] == b;
        }
        if b in ids && b != order[0] {
          var i :| 0 <= i < |order| && order[i] == b;
          assert order[1..][i - 1] == b;
        }
      }
      ByIndexIs(blocks, ids - {order[0]}, order[1..], from + 1);
      FirstExists(blocks, ids);
    }
  }

  /** A contiguous order is the only one the ordered query can return. */
  lemma ListingIs(blocks: Blocks, file: Id, order: seq<Id>)
    requires IsContiguous(blocks, file, order)
    ensures ListForFile(blocks, file) == order
  {
    forall b ensures b in BlocksOf(blocks, file) <==> b in order {
      if b in BlocksOf(blocks, file) { assert order[blocks[b].index] == b; }
    }
    ByIndexIs(blocks, BlocksOf(blocks, file), order, 0);
  }

  /** What the collector is told about: loose blocks, and blocks of deleted files and expired reservations. */
  predicate IsOrphan(files: Files, block: Block, now: Time) {
    block.file.None? || (block.file.value in files &&
      (files[block.file.value].state.Deleted? || files[block.file.value].IsExpired(now)))
  }

  function ListOrphans(blocks: Blocks, files: Files, now: Time): set<Id> {
    set b | b in blocks && IsOrphan(files, blocks[b], now)
  }

  // ----- Updates -------------------------------------------------------------

  function Detach(blocks: Blocks, block: Option<Id>): Blocks {
    if block.Some? && block.value in blocks then blocks[block.value := blocks[block.value].(file := None)] else blocks
  }

  /** Ids that no longer exist are silently skipped, as an UPDATE ... WHERE id IN (...) does. */
  function Attach(blocks: Blocks, ids: seq<Id>, file: Id): Blocks {
    map b | b in blocks :: if b in ids then blocks[b].(file := Some(file)) else blocks[b]
  }

  function InsertBlocks(blocks: Blocks, rows: seq<(Id, Block)>): Blocks {
    if rows == [] then blocks else InsertBlocks(blocks, rows[..|rows| - 1])[rows[|rows| - 1].0 := rows[|rows| - 1].1]
  }

  lemma {:induction false} InsertedBlocks(blocks: Blocks, rows: seq<(Id, Block)>)
    requires forall i, j :: 0 <= i < j < |rows| ==> rows[i].0 != rows[j].0
    ensures InsertBlocks(blocks, rows).Keys == blocks.Keys + set r | r in rows :: r.0
    ensures forall i :: 0 <= i < |rows| ==> InsertBlocks(blocks, rows)[rows[i].0] == rows[i].1
    ensures forall b :: b in blocks && (forall r :: r in rows ==> r.0 != b) ==> InsertBlocks(blocks, rows)[b] == blocks[b]
  {
    if rows != [] {
      var n := |rows| - 1;
      InsertedBlocks(blocks, rows[..n]);
      assert rows == rows[..n] + [rows[n]];
    }
  }
}
