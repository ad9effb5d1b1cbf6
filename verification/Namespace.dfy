/** What the commands of the namespace and of the file lifecycle do to the database: mkdir, rmdir, rm,
    mv, create, commit and abort (commands/namespace.py, commands/files.py, domain/rules.py).
    Every path is one of the caller's own tree and its permissions have been checked. */
module Namespace {
  import opened Common
  import opened Entities
  import opened BlockTable
  import opened Partition
  import opened Tables
  import opened Tree
  import opened FileNames
  import opened Paths

  // ----- Resolution ------------------------------------------------------------

  /** What hangs at a path: a directory, the file its name shows, or nothing. */
  datatype Entry = Entry(directory: Option<Id>, file: Option<Id>) {
    predicate Exists() { directory.Some? || file.Some? }
  }

  function DirectoryFor(dirs: Directories, owner: Id, path: Path): Result<Id> {
    match Find(dirs, owner, path.segments)
    case None => Err(NotFound)
    case Some(None) => Err(NotFound)
    case Some(Some(d)) => Ok(d)
  }

  function Name(path: Path): string
    requires !path.IsRoot()
  {
    path.segments[|path.segments| - 1]
  }

  function EntryFor(db: Db, owner: Id, path: Path): Result<Entry> {
    if path.IsRoot() then
      (match DirectoryFor(db.directories, owner, path) case Err(e) => Err(e) case Ok(root) => Ok(Entry(Some(root), None)))
    else
      match DirectoryFor(db.directories, owner, path.Parent())
      case Err(e) => Err(e)
      case Ok(parent) =>
        var child := GetChild(db.directories, parent, Name(path));
        if child.Some? then Ok(Entry(child, None)) else Ok(Entry(None, GetLiveByName(db.files, parent, Name(path))))
  }

  function IsVisible(files: Files, f: Option<Id>): bool { f.Some? && f.value in files && files[f.value].state.Committed? }

  function MarkDeleted(files: Files, f: Id): Files {
    if f in files then files[f := files[f].(state := Deleted, expiresAt := None)] else files
  }

  // ----- mkdir ---------------------------------------------------------------

  /** The rest of the walk, from the directory reached so far. New directories take the keys
      key, key + 1, ... in turn. */
  function MkdirFrom(dirs: Directories, files: Files, owner: Id, current: Id, names: seq<string>, parents: bool,
                     key: Id, now: Time): Result<Directories>
    decreases |names|
  {
    if names == [] then Ok(dirs) else
    match GetChild(dirs, current, names[0])
    case Some(child) =>
      if |names| == 1 && !parents then Err(AlreadyExists)
      else MkdirFrom(dirs, files, owner, child, names[1..], parents, key, now)
    case None =>
      if |names| > 1 && !parents then Err(NotFound)
      else if ShownHolds(files, current, names[0], now) then Err(AlreadyExists)
      else MkdirFrom(dirs[key := Directory(Some(current), names[0], owner, true)], files, owner, key, names[1..],
                     parents, key + 1, now)
  }

  function Mkdir(db: Db, owner: Id, path: Path, parents: bool, key: Id, now: Time): Result<Db> {
    if path.IsRoot() then Err(AlreadyExists) else
    match GetRoot(db.directories, owner)
    case None => Err(NotFound)
    case Some(root) =>
      match MkdirFrom(db.directories, db.files, owner, root, path.segments, parents, key, now)
      case Err(e) => Err(e)
      case Ok(dirs) => Ok(db.(directories := dirs))
  }

  // ----- rmdir and rm ------------------------------------------------------------

  function SubdirectoriesOf(dirs: Directories, d: Id): set<Id> { ChildrenOf(dirs, {d}) }

  function CommittedIn(files: Files, d: Id): set<Id> { set f | f in files && files[f].directory == d && files[f].state.Committed? }

  function CountChildren(db: Db, d: Id): nat { |SubdirectoriesOf(db.directories, d)| + |CommittedIn(db.files, d)| }

  function FilesIn(files: Files, dirs: set<Id>): set<Id> { set f | f in files && files[f].directory in dirs && !files[f].state.Deleted? }

  function MarkManyDeleted(files: Files, gone: set<Id>): Files {
    map f | f in files :: if f in gone then files[f].(state := Deleted, expiresAt := None) else files[f]
  }

  ghost function Removed(db: Db, d: Id): Db {
    var gone := Descendants(db.directories, d) + {d};
    db.(files := MarkManyDeleted(db.files, FilesIn(db.files, gone)), directories := WithoutTree(db.directories, gone))
  }

  ghost function Rmdir(db: Db, owner: Id, path: Path, recursive: bool): Result<Db> {
    if path.IsRoot() then Err(InvalidPath) else
    match DirectoryFor(db.directories, owner, path)
    case Err(e) => Err(e)
    case Ok(d) => if CountChildren(db, d) > 0 && !recursive then Err(DirectoryNotEmpty) else Ok(Removed(db, d))
  }

  function Rm(db: Db, owner: Id, path: Path): Result<Db> {
    match EntryFor(db, owner, path)
    case Err(e) => Err(e)
    case Ok(found) =>
      if found.directory.Some? then Err(InvalidPath)
      else if !IsVisible(db.files, found.file) then Err(NotFound)
      else Ok(db.(files := MarkDeleted(db.files, found.file.value)))
  }

  // ----- mv ------------------------------------------------------------------

  datatype MoveKind = NoEntry | OntoDirectory | OntoFile

  /** Where the moved entry ends up: its new parent and its new name. */
  datatype Move = Move(parent: Path, name: string)

  function DecideMove(src: Path, dst: Path, kind: MoveKind): Result<Move> {
    if src.IsRoot() then Err(InvalidPath)
    else if dst.IsRoot() then Err(AlreadyExists)
    else match kind
      case OntoDirectory => Ok(Move(dst, Name(src)))
      case OntoFile => Err(AlreadyExists)
      case NoEntry => Ok(Move(dst.Parent(), Name(dst)))
  }

  function CheckMove(src: Path, move: Move, isDirectory: bool): Result<Path> {
    match Child(move.parent, move.name)
    case Err(e) => Err(e)
    case Ok(target) =>
      if target == src then Err(AlreadyExists)
      else if isDirectory && src.IsAncestorOf(target) then Err(InvalidPath)
      else Ok(target)
  }

  function KindOf(db: Db, entry: Entry, now: Time): MoveKind {
    if entry.directory.Some? then OntoDirectory
    else if entry.file.Some? && entry.file.value in db.files && db.files[entry.file.value].HoldsName(now) then OntoFile
    else NoEntry
  }

  /** Everything mv checks before it changes a row: what it moves, and to which parent and name. */
  function PlanMove(db: Db, owner: Id, src: Path, dst: Path, now: Time): Result<(Entry, Id, string)> {
    match EntryFor(db, owner, src)
    case Err(e) => Err(e)
    case Ok(origin) =>
      if !origin.Exists() then Err(NotFound)
      else if origin.file.Some? && !IsVisible(db.files, origin.file) then Err(NotFound)
      else
        match EntryFor(db, owner, dst)
        case Err(e) => Err(e)
        case Ok(destination) =>
          match DecideMove(src, dst, KindOf(db, destination, now))
          case Err(e) => Err(e)
          case Ok(move) =>
            match CheckMove(src, move, origin.directory.Some?)
            case Err(e) => Err(e)
            case Ok(_) =>
              match DirectoryFor(db.directories, owner, move.parent)
              case Err(e) => Err(e)
              case Ok(parent) =>
                if GetChild(db.directories, parent, move.name).Some? then Err(AlreadyExists)
                else if ShownHolds(db.files, parent, move.name, now) then Err(AlreadyExists)
                else Ok((origin, parent, move.name))
  }

  function MoveDirectory(dirs: Directories, d: Id, parent: Id, name: string): Directories {
    if d in dirs then dirs[d := dirs[d].(parent := Some(parent), name := name)] else dirs
  }

  function MoveFile(files: Files, f: Id, parent: Id, name: string): Files {
    if f in files then files[f := files[f].(directory := parent, name := name)] else files
  }

  function Mv(db: Db, owner: Id, src: Path, dst: Path, now: Time): Result<Db> {
    match PlanMove(db, owner, src, dst, now)
    case Err(e) => Err(e)
    case Ok((origin, parent, name)) =>
      if origin.directory.Some? then Ok(db.(directories := MoveDirectory(db.directories, origin.directory.value, parent, name)))
      else if origin.file.Some? then Ok(db.(files := MoveFile(db.files, origin.file.value, parent, name)))
      else Ok(db)
  }

  // ----- create, commit, abort ----------------------------------------------------

  /** One row per block of the partition, owned by the file from the start. */
  function FileRows(file: Id, slots: seq<Slot>, sizes: seq<nat>, overhead: nat): (r: seq<(Id, Block)>)
    requires |slots| == |sizes|
    ensures |r| == |slots|
    ensures forall k :: 0 <= k < |r| ==> r[k] == (slots[k].id, Block(Some(file), k, sizes[k] + overhead))
  {
    seq(|slots|, k requires 0 <= k < |slots| => (slots[k].id, Block(Some(file), k, sizes[k] + overhead)))
  }

  /** A falsy block size means the default one. */
  function Effective(blockSize: Option<int>, default: int): int {
    if blockSize.Some? && blockSize.value != 0 then blockSize.value else default
  }

  /** The reservation and its blocks; a live reservation under the same name refuses it, an expired
      one is closed on the way, a committed file does not matter. */
  function CreateFile(db: Db, owner: Id, path: Path, size: int, blockSize: int, ttl: Time, overhead: nat,
                      file: Id, slots: seq<Slot>, now: Time): Result<Db>
  {
    if path.IsRoot() then Err(InvalidPath) else
    match DirectoryFor(db.directories, owner, path.Parent())
    case Err(e) => Err(e)
    case Ok(parent) =>
      var shown := GetLiveByName(db.files, parent, Name(path));
      var writing := shown.Some? && shown.value in db.files && db.files[shown.value].state.Writing?;
      if writing && !db.files[shown.value].IsExpired(now) then Err(AlreadyExists) else
      var files := if writing then MarkDeleted(db.files, shown.value) else db.files;
      if GetChild(db.directories, parent, Name(path)).Some? then Err(InvalidPath)
      else if size < 0 || blockSize <= 0 then Err(InvalidBlockSize)
      else
        var sizes := PlanSizes(size, blockSize);
        if |slots| < |sizes| then Err(NoDataNodeAvailable)
        else if file in db.files || !FreshSlots(db.blocks, slots[..|sizes|]) then Err(IntegrityViolation)
        else
          var used := slots[..|sizes|];
          Ok(db.(files := files[file := File(parent, Name(path), owner, size, blockSize, Writing, now, Some(now + ttl))],
                 blocks := InsertBlocks(db.blocks, FileRows(file, used, sizes, overhead)),
                 replicas := InsertCopies(db.replicas, PlannedCopies(used))))
  }

  predicate SomeBelowQuorum(db: Db, file: Id, quorum: nat) {
    exists b | b in BlocksOf(db.blocks, file) :: |Holders(db.replicas, b)| < quorum
  }

  /** The order of the checks matters: an expired reservation is gone even if its blocks are there. */
  function CanCommit(db: Db, file: Id, quorum: nat, now: Time): Result<()>
    requires file in db.files
  {
    if !db.files[file].state.Writing? then Err(InvalidState)
    else if db.files[file].IsExpired(now) then Err(ReservationExpired)
    else if SomeBelowQuorum(db, file, quorum) then Err(BlocksNotStored)
    else Ok(())
  }

  /** Retires the committed file of that name, if it is another one, in the same step. */
  function CommitFile(db: Db, owner: Id, file: Id, quorum: nat, now: Time): Result<Db> {
    if file !in db.files || db.files[file].owner != owner then Err(NotFound) else
    match CanCommit(db, file, quorum, now)
    case Err(e) => Err(e)
    case Ok(_) =>
      var row := db.files[file];
      var previous := GetLiveByName(db.files, row.directory, row.name);
      var files := if previous.Some? && previous.value != file && IsVisible(db.files, previous)
                   then MarkDeleted(db.files, previous.value) else db.files;
      Ok(db.(files := files[file := row.(state := Committed, expiresAt := None)]))
  }

  function AbortFile(db: Db, owner: Id, file: Id): Result<Db> {
    if file !in db.files || db.files[file].owner != owner then Err(NotFound)
    else if db.files[file].state.Committed? then Err(InvalidState)
    else if db.files[file].state.Writing? then Ok(db.(files := MarkDeleted(db.files, file)))
    else Ok(db)
  }
}
