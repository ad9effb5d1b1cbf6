/** Reservations, commits and the collector, in every run of the whole command set. */
module LifecycleRuns {
  import opened Common
  import opened Entities
  import opened BlockTable
  import opened Tables
  import opened Tree
  import opened FileNames
  import opened Paths
  import opened Namespace
  import opened NamespaceRuns
  import FileLocks
  import Append

  // ----- create, commit, abort ----------------------------------------------------

  /** What a reservation that is granted has made sure of. */
  lemma CreateEffect(db: Db, owner: Id, path: Path, size: int, blockSize: int, ttl: Time, overhead: nat,
                     file: Id, slots: seq<Slot>, now: Time) returns (parent: Id)
    requires IsForest(db.directories) && CreateFile(db, owner, path, size, blockSize, ttl, overhead, file, slots, now).Ok?
    ensures !path.IsRoot() && file !in db.files && IsLive(db.directories, parent)
    ensures GetChild(db.directories, parent, Name(path)).None?
    ensures var v := CreateFile(db, owner, path, size, blockSize, ttl, overhead, file, slots, now).value;
            var shown := GetLiveByName(db.files, parent, Name(path));
            var closed := if shown.Some? && shown.value in db.files && db.files[shown.value].state.Writing?
                          then MarkDeleted(db.files, shown.value) else db.files;
            && v.directories == db.directories
            && v.files == closed[file := File(parent, Name(path), owner, size, blockSize, Writing, now, Some(now + ttl))]
            && (shown.Some? && shown.value in db.files && db.files[shown.value].state.Writing? ==> db.files[shown.value].IsExpired(now))
  {
    parent := DirectoryFor(db.directories, owner, path.Parent()).value;
    DirectoryIs(db, owner, path.Parent(), parent);
  }

  ghost predicate LiveReservation(files: Files, f: Id, dir: Id, name: string, now: Time) {
    f in files && IsAt(files[f], dir, name) && files[f].state.Writing? && !files[f].IsExpired(now)
  }

  /** A reservation is refused as taken exactly when the name has no committed file and some reservation
      on it is alive; over a committed file any number of reservations may be open. */
  lemma RefusedExactlyWhenReserved(db: Db, owner: Id, path: Path, size: int, blockSize: int, ttl: Time, overhead: nat,
                                   file: Id, slots: seq<Slot>, now: Time)
    requires ReservationsOk(db.files, now, ttl) && !path.IsRoot() && DirectoryFor(db.directories, owner, path.Parent()).Ok?
    ensures var parent := DirectoryFor(db.directories, owner, path.Parent()).value;
            CreateFile(db, owner, path, size, blockSize, ttl, overhead, file, slots, now) == Err(AlreadyExists)
            <==> !Visible(db.files, parent, Name(path)) && exists f :: LiveReservation(db.files, f, parent, Name(path), now)
  {
    var parent := DirectoryFor(db.directories, owner, path.Parent()).value;
    VisibleIsShown(db.files, parent, Name(path));
    ShownFile(db.files, parent, Name(path));
    ShownSpeaksForAll(db.files, parent, Name(path), now, now, ttl);
    ReservedIsShown(db.files, parent, Name(path), now);
  }

  lemma ReservedIsShown(files: Files, dir: Id, name: string, now: Time)
    requires ShownHolds(files, dir, name, now) <==> exists f :: Holds(files, f, dir, name, now)
    ensures !Visible(files, dir, name) ==>
              (ShownHolds(files, dir, name, now) <==> exists f :: LiveReservation(files, f, dir, name, now))
  {
    if !Visible(files, dir, name) {
      forall f ensures Holds(files, f, dir, name, now) <==> LiveReservation(files, f, dir, name, now) {}
    }
  }

  lemma ReserveKeepsInv(dirs: Directories, files: Files, file: Id, row: File, now: Time, ttl: Time)
    requires NamesOk(dirs, files, now, ttl) && OneCommitted(files) && IsLive(dirs, row.directory) && file !in files
    requires row.state.Writing? && row.createdAt == now && row.expiresAt == Some(now + ttl)
    requires GetChild(dirs, row.directory, row.name).None?
    ensures NamesOk(dirs, files[file := row], now, ttl) && OneCommitted(files[file := row])
  {
    ChildIs(dirs, row.directory, row.name);
    var after := files[file := row];
    forall d, f | IsLive(dirs, d) && dirs[d].parent.Some? ensures !Holds(after, f, dirs[d].parent.value, dirs[d].name, now) {
      assert !Holds(files, f, dirs[d].parent.value, dirs[d].name, now);
      assert !IsChildOf(dirs, d, row.directory, row.name);
    }
  }

  lemma CreateKeepsInv(db: Db, owner: Id, path: Path, size: int, blockSize: int, ttl: Time, overhead: nat,
                       file: Id, slots: seq<Slot>, now: Time)
    requires Inv(db, now, ttl) && CreateFile(db, owner, path, size, blockSize, ttl, overhead, file, slots, now).Ok?
    ensures Inv(CreateFile(db, owner, path, size, blockSize, ttl, overhead, file, slots, now).value, now, ttl)
  {
    var parent := CreateEffect(db, owner, path, size, blockSize, ttl, overhead, file, slots, now);
    var shown := GetLiveByName(db.files, parent, Name(path));
    var closed := db;
    if shown.Some? && shown.value in db.files && db.files[shown.value].state.Writing? {
      DeleteKeepsInv(db, shown.value, now, ttl);
      closed := db.(files := MarkDeleted(db.files, shown.value));
    }
    ReserveKeepsInv(db.directories, closed.files, file,
                    File(parent, Name(path), owner, size, blockSize, Writing, now, Some(now + ttl)), now, ttl);
  }

  /** What a commit that goes through has made sure of, and all it changes. */
  lemma CommitFileEffect(db: Db, owner: Id, file: Id, quorum: nat, now: Time)
    requires OneCommitted(db.files) && CommitFile(db, owner, file, quorum, now).Ok?
    ensures file in db.files && db.files[file].state.Writing? && !db.files[file].IsExpired(now)
    ensures forall b :: b in BlocksOf(db.blocks, file) ==> |Holders(db.replicas, b)| >= quorum
    ensures var v := CommitFile(db, owner, file, quorum, now).value;
            && v == db.(files := v.files) && v.files.Keys == db.files.Keys
            && v.files[file] == db.files[file].(state := Committed, expiresAt := None)
            && forall f :: f in db.files && f != file ==>
                 v.files[f] == if db.files[f].state.Committed? && IsAt(db.files[f], db.files[file].directory, db.files[file].name)
                               then db.files[f].(state := Deleted, expiresAt := None) else db.files[f]
  {
    var row := db.files[file];
    ShownFile(db.files, row.directory, row.name);
    forall f | f in db.files && f != file && db.files[f].state.Committed? && IsAt(db.files[f], row.directory, row.name)
      ensures GetLiveByName(db.files, row.directory, row.name) == Some(f)
    {
      assert f in CommittedAt(db.files, row.directory, row.name);
    }
  }

  lemma CommitKeepsNames(dirs: Directories, files: Files, after: Files, file: Id, now: Time, ttl: Time)
    requires NamesOk(dirs, files, now, ttl) && file in files && files[file].state.Writing? && !files[file].IsExpired(now)
    requires after.Keys == files.Keys && after[file] == files[file].(state := Committed, expiresAt := None)
    requires forall f :: f in files && f != file ==> after[f] == files[f] || after[f] == files[f].(state := Deleted, expiresAt := None)
    ensures NamesOk(dirs, after, now, ttl)
  {
    forall d, f | IsLive(dirs, d) && dirs[d].parent.Some? ensures !Holds(after, f, dirs[d].parent.value, dirs[d].name, now) {
      assert !Holds(files, f, dirs[d].parent.value, dirs[d].name, now);
    }
  }

  lemma CommitFileKeepsInv(db: Db, owner: Id, file: Id, quorum: nat, now: Time, ttl: Time)
    requires Inv(db, now, ttl) && CommitFile(db, owner, file, quorum, now).Ok?
    ensures Inv(CommitFile(db, owner, file, quorum, now).value, now, ttl)
  {
    CommitFileEffect(db, owner, file, quorum, now);
    CommitKeepsNames(db.directories, db.files, CommitFile(db, owner, file, quorum, now).value.files, file, now, ttl);
  }

  // ----- Runs ----------------------------------------------------------------

  /** Any command, at the instant the server looks at its clock. Reservations all last the same. */
  datatype Command =
    | Mkdir(owner: Id, path: Path, parents: bool, key: Id)
    | Rmdir(owner: Id, path: Path, recursive: bool)
    | Rm(owner: Id, path: Path)
    | Mv(owner: Id, src: Path, dst: Path)
    | Create(owner: Id, path: Path, size: int, blockSize: int, overhead: nat, file: Id, slots: seq<Slot>)
    | Commit(owner: Id, file: Id, quorum: nat)
    | Abort(owner: Id, file: Id)
    | PlanAppend(file: Id, added: int, overhead: nat, slots: seq<Slot>, fencing: Option<FileLocks.LockFencing>)
    | CommitAppend(file: Id, ids: seq<Id>, newSize: int, tail: Option<Id>, quorum: nat, fencing: Option<FileLocks.LockFencing>)
    | Replicas(replicas: Replicas)
    | Locks(locks: map<Id, FileLocks.Rows>)
    | ConfirmGc(blocks: set<Id>)

  ghost predicate FreshKey(dirs: Directories, key: Id) { forall d :: d in dirs ==> d < key }

  /** The blocks an append names come from a plan for that file: they are loose or already its own. */
  ghost predicate OwnBlock(db: Db, file: Id, b: Id) {
    b in db.blocks ==> db.blocks[b].file == None || db.blocks[b].file == Some(file)
  }

  ghost predicate FromPlan(db: Db, file: Id, ids: seq<Id>, tail: Option<Id>) {
    (forall b :: b in ids ==> OwnBlock(db, file, b)) && (tail.Some? ==> OwnBlock(db, file, tail.value))
  }

  /** Deleting block rows takes their copies with them. */
  function Collected(db: Db, ids: set<Id>): Db {
    db.(blocks := map b | b in db.blocks && b !in ids :: db.blocks[b],
        replicas := map c | c in db.replicas && c.0 !in ids :: db.replicas[c])
  }

  function Kept(db: Db, r: Result<Db>): Db { if r.Ok? then r.value else db }

  ghost function Step(db: Db, c: Command, now: Time, ttl: Time): Db {
    match c
    case Mkdir(owner, path, parents, key) =>
      if FreshKey(db.directories, key) then Kept(db, Namespace.Mkdir(db, owner, path, parents, key, now)) else db
    case Rmdir(owner, path, recursive) => Kept(db, Namespace.Rmdir(db, owner, path, recursive))
    case Rm(owner, path) => Kept(db, Namespace.Rm(db, owner, path))
    case Mv(owner, src, dst) => Kept(db, Namespace.Mv(db, owner, src, dst, now))
    case Create(owner, path, size, blockSize, overhead, file, slots) =>
      Kept(db, CreateFile(db, owner, path, size, blockSize, ttl, overhead, file, slots, now))
    case Commit(owner, file, quorum) => Kept(db, CommitFile(db, owner, file, quorum, now))
    case Abort(owner, file) => Kept(db, AbortFile(db, owner, file))
    case PlanAppend(file, added, overhead, slots, fencing) => Append.PlanAppend(db, file, added, overhead, slots, fencing, now).0
    case CommitAppend(file, ids, newSize, tail, quorum, fencing) =>
      if FromPlan(db, file, ids, tail) then Kept(db, Append.CommitAppend(db, file, ids, newSize, tail, quorum, fencing, now)) else db
    case Replicas(replicas) => db.(replicas := replicas)
    case Locks(locks) => db.(locks := locks)
    case ConfirmGc(blocks) => Collected(db, blocks)
  }

  /** A command and the instant it runs at. */
  type Timed = (Command, Time)

  ghost predicate Clocked(now: Time, events: seq<Timed>)
    decreases |events|
  {
    events == [] || (now <= events[0].1 && Clocked(events[0].1, events[1..]))
  }

  function LastInstant(now: Time, events: seq<Timed>): Time { if events == [] then now else events[|events| - 1].1 }

  ghost function Run(db: Db, events: seq<Timed>, ttl: Time): Db
    decreases |events|
  {
    if events == [] then db else Run(Step(db, events[0].0, events[0].1, ttl), events[1..], ttl)
  }

  /** Only sizes of files change, if anything, and no directory. */
  ghost predicate SameNames(db: Db, v: Db) {
    && v.directories == db.directories && v.files.Keys == db.files.Keys
    && forall f :: f in db.files ==> v.files[f] == db.files[f].(size := v.files[f].size)
  }

  lemma SameNamesKeepInv(db: Db, v: Db, now: Time, ttl: Time)
    requires Inv(db, now, ttl) && SameNames(db, v)
    ensures Inv(v, now, ttl)
  {
    forall d, f | IsLive(v.directories, d) && v.directories[d].parent.Some?
      ensures !Holds(v.files, f, v.directories[d].parent.value, v.directories[d].name, now)
    {
      assert !Holds(db.files, f, db.directories[d].parent.value, db.directories[d].name, now);
    }
  }

  lemma AppendKeepsNames(db: Db, c: Command, now: Time, ttl: Time)
    requires c.PlanAppend? || c.CommitAppend? || c.Replicas? || c.Locks? || c.ConfirmGc?
    ensures SameNames(db, Step(db, c, now, ttl))
  {
    if c.PlanAppend? { PlanKeepsFiles(db, c.file, c.added, c.overhead, c.slots, c.fencing, now); }
  }

  lemma PlanKeepsFiles(db: Db, file: Id, added: int, overhead: nat, slots: seq<Slot>, fencing: Option<FileLocks.LockFencing>, now: Time)
    ensures var v := Append.PlanAppend(db, file, added, overhead, slots, fencing, now).0;
            v == db.(blocks := v.blocks, replicas := v.replicas)
  {
  }

  lemma RmKeepsInv(db: Db, owner: Id, path: Path, now: Time, ttl: Time)
    requires Inv(db, now, ttl) && Namespace.Rm(db, owner, path).Ok?
    ensures Inv(Namespace.Rm(db, owner, path).value, now, ttl)
  {
    DeleteKeepsInv(db, EntryFor(db, owner, path).value.file.value, now, ttl);
  }

  lemma RmdirKeepsInv(db: Db, owner: Id, path: Path, recursive: bool, now: Time, ttl: Time)
    requires Inv(db, now, ttl) && Namespace.Rmdir(db, owner, path, recursive).Ok?
    ensures Inv(Namespace.Rmdir(db, owner, path, recursive).value, now, ttl)
  {
    var d := DirectoryFor(db.directories, owner, path).value;
    DirectoryIs(db, owner, path, d);
    assert IsLive(db.directories, d);
    RemovedKeepsInv(db, d, now, ttl);
  }

  lemma AbortKeepsInv(db: Db, owner: Id, file: Id, now: Time, ttl: Time)
    requires Inv(db, now, ttl)
    ensures Inv(Kept(db, AbortFile(db, owner, file)), now, ttl)
  {
    DeleteKeepsInv(db, file, now, ttl);
  }

  lemma StepKeepsInv(db: Db, c: Command, now: Time, ttl: Time)
    requires Inv(db, now, ttl)
    ensures Inv(Step(db, c, now, ttl), now, ttl)
  {
    match c
    case Mkdir(owner, path, parents, key) =>
      if FreshKey(db.directories, key) { MkdirKeepsInv(db, owner, path, parents, key, now, ttl); }
    case Rmdir(owner, path, recursive) =>
      if Namespace.Rmdir(db, owner, path, recursive).Ok? { RmdirKeepsInv(db, owner, path, recursive, now, ttl); }
    case Rm(owner, path) => if Namespace.Rm(db, owner, path).Ok? { RmKeepsInv(db, owner, path, now, ttl); }
    case Mv(owner, src, dst) => if Namespace.Mv(db, owner, src, dst, now).Ok? { MvKeepsInv(db, owner, src, dst, now, ttl); }
    case Create(owner, path, size, blockSize, overhead, file, slots) =>
      if CreateFile(db, owner, path, size, blockSize, ttl, overhead, file, slots, now).Ok? {
        CreateKeepsInv(db, owner, path, size, blockSize, ttl, overhead, file, slots, now);
      }
    case Commit(owner, file, quorum) =>
      if CommitFile(db, owner, file, quorum, now).Ok? { CommitFileKeepsInv(db, owner, file, quorum, now, ttl); }
    case Abort(owner, file) => AbortKeepsInv(db, owner, file, now, ttl);
    case _ =>
      AppendKeepsNames(db, c, now, ttl);
      SameNamesKeepInv(db, Step(db, c, now, ttl), now, ttl);
  }

  /** In every run with a clock that does not go back: the live directories are a forest, at most one
      file is committed under a name, committed files hang from live directories, and no live directory
      shares its name with a committed file or a reservation that can still commit. */
  lemma {:induction false} NamesInEveryRun(db: Db, now: Time, events: seq<Timed>, ttl: Time)
    requires Inv(db, now, ttl) && Clocked(now, events)
    ensures Inv(Run(db, events, ttl), LastInstant(now, events), ttl)
    decreases |events|
  {
    if events != [] {
      TimeKeepsInv(db, now, events[0].1, ttl);
      StepKeepsInv(db, events[0].0, events[0].1, ttl);
      NamesInEveryRun(Step(db, events[0].0, events[0].1, ttl), events[0].1, events[1..], ttl);
    }
  }

  lemma EmptyStartIsSound(db: Db, now: Time, ttl: Time)
    requires db.files == map[]
    requires forall d :: d in db.directories ==> db.directories[d].parent.None?
    requires forall d, e :: d in db.directories && e in db.directories && d != e ==> db.directories[d].owner != db.directories[e].owner
    ensures Inv(db, now, ttl)
  {
    forall d | IsLive(db.directories, d) ensures HasPath(db.directories, d) { assert IsPath(db.directories, d, []); }
  }

  // ----- Copy-on-write -----------------------------------------------------------

  lemma SizesKeepVisible(db: Db, v: Db, dir: Id, name: string)
    requires SameNames(db, v) && Visible(db.files, dir, name)
    ensures Visible(v.files, dir, name)
  {
    var f :| f in db.files && IsAt(db.files[f], dir, name) && db.files[f].state.Committed?;
    assert v.files[f].state.Committed?;
  }

  lemma CommitKeepsVisible(db: Db, owner: Id, file: Id, quorum: nat, now: Time, dir: Id, name: string)
    requires OneCommitted(db.files) && CommitFile(db, owner, file, quorum, now).Ok? && Visible(db.files, dir, name)
    ensures Visible(CommitFile(db, owner, file, quorum, now).value.files, dir, name)
  {
    CommitFileEffect(db, owner, file, quorum, now);
    var v := CommitFile(db, owner, file, quorum, now).value;
    var f :| f in db.files && IsAt(db.files[f], dir, name) && db.files[f].state.Committed?;
    if IsAt(db.files[file], dir, name) { assert v.files[file].state.Committed?; } else { assert v.files[f].state.Committed?; }
  }

  lemma CreateKeepsVisible(db: Db, c: Command, now: Time, ttl: Time, dir: Id, name: string)
    requires IsForest(db.directories) && c.Create? && Visible(db.files, dir, name)
    ensures Visible(Step(db, c, now, ttl).files, dir, name)
  {
    var f :| f in db.files && IsAt(db.files[f], dir, name) && db.files[f].state.Committed?;
    if CreateFile(db, c.owner, c.path, c.size, c.blockSize, ttl, c.overhead, c.file, c.slots, now).Ok? {
      var parent := CreateEffect(db, c.owner, c.path, c.size, c.blockSize, ttl, c.overhead, c.file, c.slots, now);
      assert Step(db, c, now, ttl).files[f] == db.files[f];
    }
  }

  /** The path is the one of that name in that directory. */
  predicate IsPathOf(db: Db, owner: Id, path: Path, dir: Id, name: string) {
    !path.IsRoot() && DirectoryFor(db.directories, owner, path.Parent()) == Ok(dir) && Name(path) == name
  }

  /** The commands that take a visible name away: removing it, removing a directory above it, and
      moving its file. */
  ghost predicate TakesAway(db: Db, c: Command, now: Time, dir: Id, name: string) {
    match c
    case Rm(owner, path) => IsPathOf(db, owner, path, dir, name)
    case Rmdir(owner, path, recursive) =>
      Namespace.Rmdir(db, owner, path, recursive).Ok? &&
      var d := DirectoryFor(db.directories, owner, path).value; d == dir || Below(db.directories, d, dir)
    case Mv(owner, src, dst) => Namespace.Mv(db, owner, src, dst, now).Ok? && IsPathOf(db, owner, src, dir, name)
    case _ => false
  }

  lemma RmHidesExactly(db: Db, owner: Id, path: Path, now: Time, ttl: Time, dir: Id, name: string)
    requires Inv(db, now, ttl) && Visible(db.files, dir, name)
    ensures Visible(Kept(db, Namespace.Rm(db, owner, path)).files, dir, name) <==> !IsPathOf(db, owner, path, dir, name)
  {
    RmExactlyWhenVisible(db, owner, path, now, ttl);
    var f :| f in db.files && IsAt(db.files[f], dir, name) && db.files[f].state.Committed?;
    if Namespace.Rm(db, owner, path).Ok? {
      var v := Namespace.Rm(db, owner, path).value;
      var parent := DirectoryFor(db.directories, owner, path.Parent()).value;
      ShownFile(db.files, parent, Name(path));
      if !IsPathOf(db, owner, path, dir, name) { assert v.files[f].state.Committed?; }
    }
  }

  lemma RmdirHidesExactly(db: Db, owner: Id, path: Path, recursive: bool, now: Time, ttl: Time, dir: Id, name: string)
    requires Inv(db, now, ttl) && Visible(db.files, dir, name) && Namespace.Rmdir(db, owner, path, recursive).Ok?
    ensures var d := DirectoryFor(db.directories, owner, path).value;
            Visible(Namespace.Rmdir(db, owner, path, recursive).value.files, dir, name) <==> d != dir && !Below(db.directories, d, dir)
  {
    var d := DirectoryFor(db.directories, owner, path).value;
    var v := Namespace.Rmdir(db, owner, path, recursive).value;
    RemovedFiles(db, d);
    var f :| f in db.files && IsAt(db.files[f], dir, name) && db.files[f].state.Committed?;
    assert IsLive(db.directories, dir);
    if d != dir && !Below(db.directories, d, dir) { assert v.files[f].state.Committed?; }
  }

  /** A file that moves comes from the name its path shows, and goes to one that was free. */
  lemma MovedFile(db: Db, owner: Id, src: Path, dst: Path, now: Time, ttl: Time)
    requires Inv(db, now, ttl) && Namespace.Mv(db, owner, src, dst, now).Ok?
    ensures var (origin, parent, name) := PlanMove(db, owner, src, dst, now).value;
            && !src.IsRoot() && DirectoryFor(db.directories, owner, src.Parent()).Ok?
            && (forall g :: !Holds(db.files, g, parent, name, now))
            && (origin.directory.Some? ==> GetChild(db.directories, DirectoryFor(db.directories, owner, src.Parent()).value, Name(src)).Some?)
            && (origin.directory.None? ==>
                  && origin.file.Some? && origin.file.value in db.files && db.files[origin.file.value].state.Committed?
                  && IsAt(db.files[origin.file.value], DirectoryFor(db.directories, owner, src.Parent()).value, Name(src)))
  {
    var move := PlannedMoveIsSound(db, owner, src, dst, now, ttl);
    ShownFile(db.files, DirectoryFor(db.directories, owner, src.Parent()).value, Name(src));
  }

  lemma MvHidesExactly(db: Db, owner: Id, src: Path, dst: Path, now: Time, ttl: Time, dir: Id, name: string)
    requires Inv(db, now, ttl) && Visible(db.files, dir, name) && Namespace.Mv(db, owner, src, dst, now).Ok?
    ensures Visible(Namespace.Mv(db, owner, src, dst, now).value.files, dir, name) <==> !IsPathOf(db, owner, src, dir, name)
  {
    var (origin, parent, target) := PlanMove(db, owner, src, dst, now).value;
    var v := Namespace.Mv(db, owner, src, dst, now).value;
    MovedFile(db, owner, src, dst, now, ttl);
    var f :| f in db.files && IsAt(db.files[f], dir, name) && db.files[f].state.Committed?;
    assert Holds(db.files, f, dir, name, now);
    if origin.directory.Some? {
      VisibleIsNotShadowed(db, dir, name, now, ttl);
      assert v.files == db.files;
    } else {
      assert v.files == MoveFile(db.files, origin.file.value, parent, target);
      if IsPathOf(db, owner, src, dir, name) { assert origin.file.value == f; } else { assert v.files[f] == db.files[f]; }
    }
  }

  lemma OverwritesKeepVisible(db: Db, c: Command, now: Time, ttl: Time, dir: Id, name: string)
    requires Inv(db, now, ttl) && Visible(db.files, dir, name) && !c.Rm? && !c.Rmdir? && !c.Mv?
    ensures Visible(Step(db, c, now, ttl).files, dir, name)
  {
    match c
    case Create(_, _, _, _, _, _, _) => CreateKeepsVisible(db, c, now, ttl, dir, name);
    case Commit(owner, file, quorum) =>
      if CommitFile(db, owner, file, quorum, now).Ok? { CommitKeepsVisible(db, owner, file, quorum, now, dir, name); }
    case Mkdir(owner, path, parents, key) =>
    case Abort(owner, file) =>
      var f :| f in db.files && IsAt(db.files[f], dir, name) && db.files[f].state.Committed?;
      assert Step(db, c, now, ttl).files[f] == db.files[f];
    case _ =>
      AppendKeepsNames(db, c, now, ttl);
      SizesKeepVisible(db, Step(db, c, now, ttl), dir, name);
  }

  /** A step hides a visible name exactly if it takes it away. */
  lemma StepHidesExactly(db: Db, c: Command, now: Time, ttl: Time, dir: Id, name: string)
    requires Inv(db, now, ttl) && Visible(db.files, dir, name)
    ensures Visible(Step(db, c, now, ttl).files, dir, name) <==> !TakesAway(db, c, now, dir, name)
  {
    match c
    case Rm(owner, path) => RmHidesExactly(db, owner, path, now, ttl, dir, name);
    case Rmdir(owner, path, recursive) =>
      if Namespace.Rmdir(db, owner, path, recursive).Ok? { RmdirHidesExactly(db, owner, path, recursive, now, ttl, dir, name); }
    case Mv(owner, src, dst) =>
      if Namespace.Mv(db, owner, src, dst, now).Ok? { MvHidesExactly(db, owner, src, dst, now, ttl, dir, name); }
    case _ => OverwritesKeepVisible(db, c, now, ttl, dir, name);
  }

  ghost predicate NeverTakenAway(db: Db, events: seq<Timed>, ttl: Time, dir: Id, name: string)
    decreases |events|
  {
    events == [] ||
    (!TakesAway(db, events[0].0, events[0].1, dir, name)
     && NeverTakenAway(Step(db, events[0].0, events[0].1, ttl), events[1..], ttl, dir, name))
  }

  ghost predicate VisibleThroughout(db: Db, events: seq<Timed>, ttl: Time, dir: Id, name: string) {
    forall k :: 0 <= k <= |events| ==> Visible(Run(db, events[..k], ttl).files, dir, name)
  }

  lemma ThroughoutIsStepwise(db: Db, events: seq<Timed>, ttl: Time, dir: Id, name: string)
    requires events != [] && Visible(db.files, dir, name)
    ensures VisibleThroughout(db, events, ttl, dir, name)
       <==> VisibleThroughout(Step(db, events[0].0, events[0].1, ttl), events[1..], ttl, dir, name)
  {
    var next := Step(db, events[0].0, events[0].1, ttl);
    forall k | 0 <= k <= |events|
      ensures Run(db, events[..k], ttl) == if k == 0 then db else Run(next, events[1..][..k - 1], ttl)
    {
      if k > 0 { assert events[..k][1..] == events[1..][..k - 1]; }
    }
    if VisibleThroughout(db, events, ttl, dir, name) {
      forall k | 0 <= k <= |events[1..]| ensures Visible(Run(next, events[1..][..k], ttl).files, dir, name) {
        assert Visible(Run(db, events[..k + 1], ttl).files, dir, name);
      }
    }
  }

  /** In every run, whatever is created, overwritten, aborted, appended to or moved elsewhere, a visible
      name is visible at every moment if and only if no event takes that very name away. */
  lemma {:induction false} VisibleUntilRemoved(db: Db, now: Time, events: seq<Timed>, ttl: Time, dir: Id, name: string)
    requires Inv(db, now, ttl) && Clocked(now, events) && Visible(db.files, dir, name)
    ensures VisibleThroughout(db, events, ttl, dir, name) <==> NeverTakenAway(db, events, ttl, dir, name)
    decreases |events|
  {
    if events == [] {
      assert events[..0] == [];
    } else {
      var (c, at) := events[0];
      var next := Step(db, c, at, ttl);
      TimeKeepsInv(db, now, at, ttl);
      StepKeepsInv(db, c, at, ttl);
      StepHidesExactly(db, c, at, ttl, dir, name);
      ThroughoutIsStepwise(db, events, ttl, dir, name);
      if TakesAway(db, c, at, dir, name) {
        assert events[1..][..0] == [];
        assert !Visible(Run(next, events[1..][..0], ttl).files, dir, name);
      } else {
        VisibleUntilRemoved(next, at, events[1..], ttl, dir, name);
      }
    }
  }

  /** A deleted file stays deleted; an expired reservation is never committed. */
  ghost predicate IsDead(files: Files, f: Id, now: Time) {
    f in files && (files[f].state.Deleted? || files[f].IsExpired(now))
  }

  lemma MvKeepsDead(db: Db, c: Command, now: Time, ttl: Time, f: Id)
    requires Inv(db, now, ttl) && IsDead(db.files, f, now) && c.Mv?
    ensures f in Step(db, c, now, ttl).files && Step(db, c, now, ttl).files[f] == db.files[f]
  {
    if Namespace.Mv(db, c.owner, c.src, c.dst, now).Ok? {
      var move := PlannedMoveIsSound(db, c.owner, c.src, c.dst, now, ttl);
    }
  }

  lemma CreateKeepsDead(db: Db, c: Command, now: Time, ttl: Time, f: Id)
    requires IsForest(db.directories) && IsDead(db.files, f, now) && c.Create?
    ensures f in Step(db, c, now, ttl).files
    ensures Step(db, c, now, ttl).files[f] == db.files[f] || Step(db, c, now, ttl).files[f].state.Deleted?
  {
    if CreateFile(db, c.owner, c.path, c.size, c.blockSize, ttl, c.overhead, c.file, c.slots, now).Ok? {
      var parent := CreateEffect(db, c.owner, c.path, c.size, c.blockSize, ttl, c.overhead, c.file, c.slots, now);
    }
  }

  lemma CommitKeepsDead(db: Db, c: Command, now: Time, ttl: Time, f: Id)
    requires OneCommitted(db.files) && IsDead(db.files, f, now) && c.Commit?
    ensures f in Step(db, c, now, ttl).files && Step(db, c, now, ttl).files[f] == db.files[f]
  {
    if CommitFile(db, c.owner, c.file, c.quorum, now).Ok? { CommitFileEffect(db, c.owner, c.file, c.quorum, now); }
  }

  lemma RemovalKeepsDead(db: Db, c: Command, now: Time, ttl: Time, f: Id)
    requires IsDead(db.files, f, now) && (c.Rmdir? || c.Rm? || c.Abort? || c.Mkdir?)
    ensures f in Step(db, c, now, ttl).files
    ensures Step(db, c, now, ttl).files[f] == db.files[f] || Step(db, c, now, ttl).files[f].state.Deleted?
  {
  }

  lemma DeadStaysDead(db: Db, c: Command, now: Time, ttl: Time, f: Id)
    requires Inv(db, now, ttl) && IsDead(db.files, f, now)
    ensures IsDead(Step(db, c, now, ttl).files, f, now)
    ensures db.files[f].state.Deleted? ==> Step(db, c, now, ttl).files[f].state.Deleted?
  {
    match c
    case Mv(_, _, _) => MvKeepsDead(db, c, now, ttl, f);
    case Create(_, _, _, _, _, _, _) => CreateKeepsDead(db, c, now, ttl, f);
    case Commit(_, _, _) => CommitKeepsDead(db, c, now, ttl, f);
    case Rmdir(_, _, _) => RemovalKeepsDead(db, c, now, ttl, f);
    case Rm(_, _) => RemovalKeepsDead(db, c, now, ttl, f);
    case Abort(_, _) => RemovalKeepsDead(db, c, now, ttl, f);
    case Mkdir(_, _, _, _) => RemovalKeepsDead(db, c, now, ttl, f);
    case _ => AppendKeepsNames(db, c, now, ttl);
  }
}
