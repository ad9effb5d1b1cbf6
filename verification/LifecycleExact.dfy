/** Exactly when a reservation is granted, committed or aborted, and all that leaves in the tables. */
module LifecycleExact {
  import opened Common
  import opened Entities
  import opened BlockTable
  import opened Partition
  import opened Tables
  import opened Tree
  import opened FileNames
  import opened Paths
  import opened Namespace
  import opened NamespaceRuns
  import opened LifecycleRuns

  // ----- create --------------------------------------------------------------

  /** The name can be written to: no directory has it, and it has a visible file or no live reservation. */
  ghost predicate IsWritable(db: Db, dir: Id, name: string, now: Time) {
    && (forall d :: !IsChildOf(db.directories, d, dir, name))
    && (Visible(db.files, dir, name) || forall f :: !LiveReservation(db.files, f, dir, name, now))
  }

  lemma WritableIsChecked(db: Db, dir: Id, name: string, now: Time, ttl: Time)
    requires ReservationsOk(db.files, now, ttl)
    ensures var shown := GetLiveByName(db.files, dir, name);
            IsWritable(db, dir, name, now) <==>
            && GetChild(db.directories, dir, name).None?
            && !(shown.Some? && shown.value in db.files && db.files[shown.value].state.Writing? && !db.files[shown.value].IsExpired(now))
  {
    ChildIs(db.directories, dir, name);
    VisibleIsShown(db.files, dir, name);
    ShownFile(db.files, dir, name);
    ShownSpeaksForAll(db.files, dir, name, now, now, ttl);
    ReservedIsShown(db.files, dir, name, now);
  }

  /** A reservation is granted exactly if the directory exists, the name can be written to, the size and the
      block size make sense and there are slots for all the blocks. */
  lemma CreateGoesThroughExactly(db: Db, owner: Id, path: Path, size: int, blockSize: int, ttl: Time, overhead: nat,
                                 file: Id, slots: seq<Slot>, now: Time)
    requires Inv(db, now, ttl)
    ensures CreateFile(db, owner, path, size, blockSize, ttl, overhead, file, slots, now).Ok? <==>
            && !path.IsRoot() && DirectoryFor(db.directories, owner, path.Parent()).Ok?
            && IsWritable(db, DirectoryFor(db.directories, owner, path.Parent()).value, Name(path), now)
            && size >= 0 && blockSize > 0 && HasSlots(db, slots, BlocksFor(size, blockSize)) && file !in db.files
  {
    if !path.IsRoot() && DirectoryFor(db.directories, owner, path.Parent()).Ok? {
      WritableIsChecked(db, DirectoryFor(db.directories, owner, path.Parent()).value, Name(path), now, ttl);
      if size >= 0 && blockSize > 0 {
        PlanHasBlocksFor(size, blockSize);
        SlotsAreFresh(db, slots, BlocksFor(size, blockSize));
      }
    }
  }

  lemma CreatedTables(db: Db, owner: Id, path: Path, size: int, blockSize: int, ttl: Time, overhead: nat,
                      file: Id, slots: seq<Slot>, now: Time)
    requires CreateFile(db, owner, path, size, blockSize, ttl, overhead, file, slots, now).Ok?
    ensures size >= 0 && blockSize > 0 && file !in db.files
    ensures var v := CreateFile(db, owner, path, size, blockSize, ttl, overhead, file, slots, now).value;
            var sizes := PlanSizes(size, blockSize);
            && v == db.(files := v.files, blocks := v.blocks, replicas := v.replicas)
            && |sizes| <= |slots| && FreshSlots(db.blocks, slots[..|sizes|])
            && v.blocks == InsertBlocks(db.blocks, FileRows(file, slots[..|sizes|], sizes, overhead))
            && v.replicas == InsertCopies(db.replicas, PlannedCopies(slots[..|sizes|]))
  {
  }

  /** The blocks of a new file: its partition, in order, each planned on the nodes of its slot and stored
      nowhere; all other blocks and copies as they were. */
  ghost predicate FileLaid(db: Db, v: Db, file: Id, slots: seq<Slot>, size: nat, blockSize: nat, overhead: nat)
    requires blockSize > 0
  {
    var sizes := PlanSizes(size, blockSize);
    && |sizes| <= |slots| && Laid(db, v, Some(file), slots[..|sizes|], sizes, 0, overhead)
    && ListForFile(v.blocks, file) == SlotIds(slots[..|sizes|])
    && IsPartition(sizes, blockSize) && Sum(sizes) == size
    && forall b :: b in ListForFile(v.blocks, file) ==> Holders(v.replicas, b) == {}
  }

  lemma FileRowsAreLaid(db: Db, v: Db, file: Id, used: seq<Slot>, sizes: seq<nat>, overhead: nat)
    requires CopiesRefer(db) && FreshSlots(db.blocks, used) && |used| == |sizes|
    requires v.blocks == InsertBlocks(db.blocks, FileRows(file, used, sizes, overhead))
    requires v.replicas == InsertCopies(db.replicas, PlannedCopies(used))
    ensures Laid(db, v, Some(file), used, sizes, 0, overhead)
  {
    RowsAreLaid(db, v, Some(file), used, sizes, 0, overhead, FileRows(file, used, sizes, overhead));
  }

  lemma InsertedFileIsLaid(db: Db, v: Db, file: Id, slots: seq<Slot>, size: nat, blockSize: nat, overhead: nat)
    requires CopiesRefer(db) && BlocksRefer(db) && file !in db.files && blockSize > 0
    requires var sizes := PlanSizes(size, blockSize);
             && |sizes| <= |slots| && FreshSlots(db.blocks, slots[..|sizes|])
             && v.blocks == InsertBlocks(db.blocks, FileRows(file, slots[..|sizes|], sizes, overhead))
             && v.replicas == InsertCopies(db.replicas, PlannedCopies(slots[..|sizes|]))
    ensures FileLaid(db, v, file, slots, size, blockSize, overhead)
  {
    var sizes := PlanSizes(size, blockSize);
    FileRowsAreLaid(db, v, file, slots[..|sizes|], sizes, overhead);
    PlanIsTheOnlyPartition(sizes, size, blockSize);
    LaidFileIsListed(db, v, file, slots[..|sizes|], sizes, overhead);
  }

  /** A creation that goes through lays out the whole file. */
  lemma CreatedBlocks(db: Db, owner: Id, path: Path, size: int, blockSize: int, ttl: Time, overhead: nat,
                      file: Id, slots: seq<Slot>, now: Time)
    requires BlocksRefer(db) && CopiesRefer(db)
    requires CreateFile(db, owner, path, size, blockSize, ttl, overhead, file, slots, now).Ok?
    ensures size >= 0 && blockSize > 0
    ensures FileLaid(db, CreateFile(db, owner, path, size, blockSize, ttl, overhead, file, slots, now).value,
                     file, slots, size, blockSize, overhead)
  {
    CreatedTables(db, owner, path, size, blockSize, ttl, overhead, file, slots, now);
    InsertedFileIsLaid(db, CreateFile(db, owner, path, size, blockSize, ttl, overhead, file, slots, now).value,
                       file, slots, size, blockSize, overhead);
  }

  lemma LaidFileIsListed(db: Db, v: Db, file: Id, used: seq<Slot>, sizes: seq<nat>, overhead: nat)
    requires Laid(db, v, Some(file), used, sizes, 0, overhead) && forall b :: b in db.blocks ==> db.blocks[b].file != Some(file)
    requires forall i, j :: 0 <= i < j < |used| ==> used[i].id != used[j].id
    ensures ListForFile(v.blocks, file) == SlotIds(used)
    ensures forall b :: b in SlotIds(used) ==> Holders(v.replicas, b) == {}
  {
    var order := SlotIds(used);
    forall b | b in BlocksOf(v.blocks, file) ensures v.blocks[b].index < |order| && order[v.blocks[b].index] == b {
      assert b !in db.blocks;
      var s :| s in used && s.id == b;
      var k :| 0 <= k < |used| && used[k] == s;
      assert v.blocks[used[k].id].index == 0 + k;
    }
    ListingIs(v.blocks, file, order);
    forall b | b in order ensures Holders(v.replicas, b) == {} {
      var k :| 0 <= k < |order| && order[k] == b;
      forall n: Id ensures n !in Holders(v.replicas, b) { assert Get(v.replicas, (used[k].id, n)) != Some(Stored); }
    }
  }

  /** The row of a new file; of the others at most the expired reservation it replaces is closed. */
  lemma CreatedRow(db: Db, owner: Id, path: Path, size: int, blockSize: int, ttl: Time, overhead: nat,
                   file: Id, slots: seq<Slot>, now: Time)
    requires IsForest(db.directories) && CreateFile(db, owner, path, size, blockSize, ttl, overhead, file, slots, now).Ok?
    ensures var v := CreateFile(db, owner, path, size, blockSize, ttl, overhead, file, slots, now).value;
            var parent := DirectoryFor(db.directories, owner, path.Parent());
            && !path.IsRoot() && parent.Ok? && v.directories == db.directories && v.locks == db.locks
            && v.files.Keys == db.files.Keys + {file}
            && v.files[file] == File(parent.value, Name(path), owner, size, blockSize, Writing, now, Some(now + ttl))
            && forall g :: g in db.files && g != file ==>
                 v.files[g] == db.files[g]
                 || (IsAt(db.files[g], parent.value, Name(path)) && db.files[g].IsExpired(now)
                     && v.files[g] == db.files[g].(state := Deleted, expiresAt := None))
  {
    var parent := CreateEffect(db, owner, path, size, blockSize, ttl, overhead, file, slots, now);
    ShownFile(db.files, DirectoryFor(db.directories, owner, path.Parent()).value, Name(path));
  }

  // ----- commit --------------------------------------------------------------

  /** A commit goes through exactly if it comes from the owner, in time, with every block at its quorum,
      whether or not the name has a visible file already. */
  lemma CommitGoesThroughExactly(db: Db, owner: Id, file: Id, quorum: nat, now: Time)
    ensures CommitFile(db, owner, file, quorum, now).Ok? <==>
            && file in db.files && db.files[file].owner == owner && db.files[file].state.Writing?
            && (db.files[file].expiresAt.Some? ==> now < db.files[file].expiresAt.value)
            && forall b :: b in db.blocks && db.blocks[b].file == Some(file) ==> |Holders(db.replicas, b)| >= quorum
  {
    if SomeBelowQuorum(db, file, quorum) {
      var b :| b in BlocksOf(db.blocks, file) && |Holders(db.replicas, b)| < quorum;
    } else {
      forall b | b in db.blocks && db.blocks[b].file == Some(file) ensures |Holders(db.replicas, b)| >= quorum {
        assert b in BlocksOf(db.blocks, file);
      }
    }
  }

  /** From then on the name shows the committed file, and no other is visible under it. */
  lemma CommittedIsShown(db: Db, owner: Id, file: Id, quorum: nat, now: Time)
    requires OneCommitted(db.files) && CommitFile(db, owner, file, quorum, now).Ok?
    ensures var v := CommitFile(db, owner, file, quorum, now).value;
            && file in v.files && file in db.files
            && GetLiveByName(v.files, db.files[file].directory, db.files[file].name) == Some(file) && IsVisible(v.files, Some(file))
            && forall g :: g in v.files && v.files[g].state.Committed? && IsAt(v.files[g], db.files[file].directory, db.files[file].name) ==> g == file
  {
    CommitFileEffect(db, owner, file, quorum, now);
    var v := CommitFile(db, owner, file, quorum, now).value;
    ShownFile(v.files, db.files[file].directory, db.files[file].name);
    assert file in CommittedAt(v.files, db.files[file].directory, db.files[file].name);
  }

  /** A file is not visible before its bytes are there: right after its creation a commit goes through
      only if it has no bytes or no copy is asked for. */
  lemma NewFileNeedsItsBlocks(db: Db, owner: Id, path: Path, size: int, blockSize: int, ttl: Time, overhead: nat,
                              file: Id, slots: seq<Slot>, now: Time, quorum: nat, at: Time)
    requires IsForest(db.directories) && BlocksRefer(db) && CopiesRefer(db)
    requires CreateFile(db, owner, path, size, blockSize, ttl, overhead, file, slots, now).Ok? && at < now + ttl
    ensures CommitFile(CreateFile(db, owner, path, size, blockSize, ttl, overhead, file, slots, now).value, owner, file, quorum, at).Ok?
       <==> size == 0 || quorum == 0
  {
    var v := CreateFile(db, owner, path, size, blockSize, ttl, overhead, file, slots, now).value;
    CreatedRow(db, owner, path, size, blockSize, ttl, overhead, file, slots, now);
    CreatedBlocks(db, owner, path, size, blockSize, ttl, overhead, file, slots, now);
    CommitGoesThroughExactly(v, owner, file, quorum, at);
    var order := ListForFile(v.blocks, file);
    var used := slots[..|PlanSizes(size, blockSize)|];
    if size > 0 {
      assert order[0] in order;
      assert v.blocks[used[0].id].file == Some(file);
    } else {
      forall b | b in v.blocks ensures v.blocks[b].file != Some(file) {
        assert b in db.blocks;
      }
    }
  }

  // ----- abort ---------------------------------------------------------------

  /** An abort goes through exactly if it comes from the owner and the file is not committed; it closes that
      reservation and nothing else, and doing it again changes nothing. */
  lemma AbortIsExact(db: Db, owner: Id, file: Id)
    ensures var r := AbortFile(db, owner, file);
            && (r.Ok? <==> file in db.files && db.files[file].owner == owner && !db.files[file].state.Committed?)
            && (r.Ok? ==>
                  && r.value == db.(files := r.value.files) && r.value.files.Keys == db.files.Keys
                  && r.value.files[file].state.Deleted?
                  && (db.files[file].state.Deleted? ==> r.value == db)
                  && (forall g :: g in db.files && g != file ==> r.value.files[g] == db.files[g])
                  && AbortFile(r.value, owner, file) == r)
  {
  }
}
