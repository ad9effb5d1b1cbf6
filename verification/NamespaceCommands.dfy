/** The commands of the namespace and of the file lifecycle as transactions over the tables. A command
    that raises leaves the tables as it found them. */
module NamespaceCommands {
  import opened Common
  import opened Entities
  import opened BlockTable
  import opened Partition
  import opened Tables
  import opened Tree
  import opened FileNames
  import opened Paths
  import N = Namespace

  method MakeDirectories(uow: UnitOfWork, owner: Id, path: Path, parents: bool, key: Id, now: Time) returns (r: Result<()>)
    modifies uow
    ensures match N.Mkdir(old(uow.Snapshot()), owner, path, parents, key, now)
            case Ok(after) => r == Ok(()) && uow.Snapshot() == after
            case Err(e) => r == Err(e) && uow.Snapshot() == old(uow.Snapshot())
  {
    if path.IsRoot() {
      return Err(AlreadyExists);
    }
    var begin := uow.Snapshot();
    var root := GetRoot(uow.directories, owner);
    if root.None? {
      return Err(NotFound);
    }
    var current, next := root.value, key;
    var names := path.segments;
    for i := 0 to |names|
      invariant uow.Snapshot() == begin.(directories := uow.directories)
      invariant N.MkdirFrom(uow.directories, begin.files, owner, current, names[i..], parents, next, now)
             == N.MkdirFrom(begin.directories, begin.files, owner, root.value, names, parents, key, now)
    {
      var name, isLast := names[i], i == |names| - 1;
      assert names[i..][1..] == names[i + 1..];
      var child := GetChild(uow.directories, current, name);
      if child.Some? {
        if isLast && !parents {
          uow.Rollback(begin);
          return Err(AlreadyExists);
        }
        current := child.value;
        continue;
      }
      if !isLast && !parents {
        uow.Rollback(begin);
        return Err(NotFound);
      }
      if ShownHolds(uow.files, current, name, now) {
        uow.Rollback(begin);
        return Err(AlreadyExists);
      }
      uow.directories := uow.directories[next := Directory(Some(current), name, owner, true)];
      current, next := next, next + 1;
    }
    return Ok(());
  }

  method RemoveDirectory(uow: UnitOfWork, owner: Id, path: Path, recursive: bool) returns (r: Result<()>)
    requires IsForest(uow.directories)
    modifies uow
    ensures match N.Rmdir(old(uow.Snapshot()), owner, path, recursive)
            case Ok(after) => r == Ok(()) && uow.Snapshot() == after
            case Err(e) => r == Err(e) && uow.Snapshot() == old(uow.Snapshot())
  {
    if path.IsRoot() {
      return Err(InvalidPath);
    }
    var found := N.DirectoryFor(uow.directories, owner, path);
    if found.Err? {
      return Err(found.error);
    }
    var d := found.value;
    FindIsInverse(uow.directories, owner, path.segments, d);
    assert IsLive(uow.directories, d);
    if N.CountChildren(uow.Snapshot(), d) > 0 && !recursive {
      return Err(DirectoryNotEmpty);
    }
    var below := ListDescendants(uow.directories, d);
    var gone := below + {d};
    uow.files := N.MarkManyDeleted(uow.files, N.FilesIn(uow.files, gone));
    uow.directories := WithoutTree(uow.directories, gone);
    return Ok(());
  }

  method RemoveFile(uow: UnitOfWork, owner: Id, path: Path) returns (r: Result<()>)
    modifies uow
    ensures match N.Rm(old(uow.Snapshot()), owner, path)
            case Ok(after) => r == Ok(()) && uow.Snapshot() == after
            case Err(e) => r == Err(e) && uow.Snapshot() == old(uow.Snapshot())
  {
    var found := N.EntryFor(uow.Snapshot(), owner, path);
    if found.Err? {
      return Err(found.error);
    }
    if found.value.directory.Some? {
      return Err(InvalidPath);
    }
    if !N.IsVisible(uow.files, found.value.file) {
      return Err(NotFound);
    }
    uow.files := N.MarkDeleted(uow.files, found.value.file.value);
    return Ok(());
  }

  method MoveEntry(uow: UnitOfWork, owner: Id, src: Path, dst: Path, now: Time) returns (r: Result<()>)
    modifies uow
    ensures match N.Mv(old(uow.Snapshot()), owner, src, dst, now)
            case Ok(after) => r == Ok(()) && uow.Snapshot() == after
            case Err(e) => r == Err(e) && uow.Snapshot() == old(uow.Snapshot())
  {
    var plan := N.PlanMove(uow.Snapshot(), owner, src, dst, now);
    if plan.Err? {
      return Err(plan.error);
    }
    var (origin, parent, name) := plan.value;
    if origin.directory.Some? {
      uow.directories := N.MoveDirectory(uow.directories, origin.directory.value, parent, name);
    } else if origin.file.Some? {
      uow.files := N.MoveFile(uow.files, origin.file.value, parent, name);
    }
    return Ok(());
  }

  /** The loop that turns the partition into the blocks of a file and their planned copies. */
  method PlanFile(file: Id, specs: seq<BlockSpec>, slots: seq<Slot>, overhead: nat)
    returns (rows: seq<(Id, Block)>, copies: set<(Id, Id)>)
    requires |specs| == |slots|
    requires forall k :: 0 <= k < |specs| ==> specs[k].index == k
    ensures rows == N.FileRows(file, slots, SpecSizes(specs), overhead)
    ensures copies == PlannedCopies(slots)
  {
    rows, copies := [], {};
    for k := 0 to |specs|
      invariant rows == N.FileRows(file, slots, SpecSizes(specs), overhead)[..k]
      invariant copies == PlannedCopies(slots[..k])
    {
      var spec := specs[k];
      rows := rows + [(slots[k].id, Block(Some(file), spec.index, spec.size + overhead))];
      copies := copies + set n | n in slots[k].nodes :: (slots[k].id, n);
      assert slots[..k + 1] == slots[..k] + [slots[k]];
    }
    assert slots[..|specs|] == slots;
  }

  method CreateReservation(uow: UnitOfWork, owner: Id, path: Path, size: int, blockSize: Option<int>, default: int, ttl: Time,
                           overhead: nat, file: Id, slots: seq<Slot>, now: Time)
    returns (r: Result<()>)
    modifies uow
    ensures match N.CreateFile(old(uow.Snapshot()), owner, path, size, N.Effective(blockSize, default), ttl, overhead, file, slots, now)
            case Ok(after) => r == Ok(()) && uow.Snapshot() == after
            case Err(e) => r == Err(e) && uow.Snapshot() == old(uow.Snapshot())
  {
    if path.IsRoot() {
      return Err(InvalidPath);
    }
    var effective := N.Effective(blockSize, default);
    var begin := uow.Snapshot();
    var parent := N.DirectoryFor(uow.directories, owner, path.Parent());
    if parent.Err? {
      return Err(parent.error);
    }
    var name := N.Name(path);
    var shown := GetLiveByName(uow.files, parent.value, name);
    if shown.Some? && shown.value in uow.files && uow.files[shown.value].state.Writing? {
      if !uow.files[shown.value].IsExpired(now) {
        return Err(AlreadyExists);
      }
      uow.files := N.MarkDeleted(uow.files, shown.value);
    }
    if GetChild(uow.directories, parent.value, name).Some? {
      uow.Rollback(begin);
      return Err(InvalidPath);
    }
    var specs := PlanBlocks(size, effective);
    if specs.Err? {
      uow.Rollback(begin);
      return Err(specs.error);
    }
    if |slots| < |specs.value| {
      uow.Rollback(begin);
      return Err(NoDataNodeAvailable);
    }
    var used := slots[..|specs.value|];
    IndexesOfPlan(specs.value, size, effective);
    var rows, copies := PlanFile(file, specs.value, used, overhead);
    if file in begin.files || !FreshSlots(uow.blocks, used) {
      uow.Rollback(begin);
      return Err(IntegrityViolation);
    }
    uow.files := uow.files[file := File(parent.value, name, owner, size, effective, Writing, now, Some(now + ttl))];
    uow.blocks := InsertBlocks(uow.blocks, rows);
    uow.replicas := InsertCopies(uow.replicas, copies);
    return Ok(());
  }

  method CommitReservation(uow: UnitOfWork, owner: Id, file: Id, quorum: nat, now: Time) returns (r: Result<()>)
    modifies uow
    ensures match N.CommitFile(old(uow.Snapshot()), owner, file, quorum, now)
            case Ok(after) => r == Ok(()) && uow.Snapshot() == after
            case Err(e) => r == Err(e) && uow.Snapshot() == old(uow.Snapshot())
  {
    if file !in uow.files || uow.files[file].owner != owner {
      return Err(NotFound);
    }
    var allowed := N.CanCommit(uow.Snapshot(), file, quorum, now);
    if allowed.Err? {
      return Err(allowed.error);
    }
    var row := uow.files[file];
    var previous := GetLiveByName(uow.files, row.directory, row.name);
    if previous.Some? && previous.value != file && N.IsVisible(uow.files, previous) {
      uow.files := N.MarkDeleted(uow.files, previous.value);
    }
    uow.files := uow.files[file := row.(state := Committed, expiresAt := None)];
    return Ok(());
  }

  method AbortReservation(uow: UnitOfWork, owner: Id, file: Id) returns (r: Result<()>)
    modifies uow
    ensures match N.AbortFile(old(uow.Snapshot()), owner, file)
            case Ok(after) => r == Ok(()) && uow.Snapshot() == after
            case Err(e) => r == Err(e) && uow.Snapshot() == old(uow.Snapshot())
  {
    if file !in uow.files || uow.files[file].owner != owner {
      return Err(NotFound);
    }
    if uow.files[file].state.Committed? {
      return Err(InvalidState);
    }
    if uow.files[file].state.Writing? {
      uow.files := N.MarkDeleted(uow.files, file);
    }
    return Ok(());
  }
}
