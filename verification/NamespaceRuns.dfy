/** What the tree and the names keep through every interleaving of the commands. */
module NamespaceRuns {
  import opened Common
  import opened Entities
  import opened Tables
  import opened Tree
  import opened FileNames
  import opened Paths
  import opened Namespace

  /** A file that is not deleted hangs from a live directory. */
  ghost predicate FilesHang(dirs: Directories, files: Files) {
    forall f :: f in files && !files[f].state.Deleted? ==> IsLive(dirs, files[f].directory)
  }

  /** The partial unique index of the files table. */
  ghost predicate OneCommitted(files: Files) {
    forall f, g :: f in files && g in files && f != g && files[f].state.Committed? && files[g].state.Committed? ==>
      !(files[f].directory == files[g].directory && files[f].name == files[g].name)
  }

  /** No live directory shares its name with a committed file or a reservation that can still commit. */
  ghost predicate NamesApart(dirs: Directories, files: Files, now: Time) {
    forall d, f :: IsLive(dirs, d) && dirs[d].parent.Some? ==> !Holds(files, f, dirs[d].parent.value, dirs[d].name, now)
  }

  ghost predicate NamesOk(dirs: Directories, files: Files, now: Time, ttl: Time) {
    FilesHang(dirs, files) && ReservationsOk(files, now, ttl) && NamesApart(dirs, files, now)
  }

  ghost predicate Inv(db: Db, now: Time, ttl: Time) {
    IsForest(db.directories) && OneCommitted(db.files) && NamesOk(db.directories, db.files, now, ttl)
  }

  lemma TimeKeepsInv(db: Db, now: Time, later: Time, ttl: Time)
    requires Inv(db, now, ttl) && now <= later
    ensures Inv(db, later, ttl)
  {
    forall d, f | IsLive(db.directories, d) && db.directories[d].parent.Some?
      ensures !Holds(db.files, f, db.directories[d].parent.value, db.directories[d].name, later)
    {
      assert !Holds(db.files, f, db.directories[d].parent.value, db.directories[d].name, now);
    }
  }

  lemma DirectoryIs(db: Db, owner: Id, path: Path, d: Id)
    requires IsForest(db.directories)
    ensures DirectoryFor(db.directories, owner, path) == Ok(d)
       <==> IsPath(db.directories, d, path.segments) && db.directories[d].owner == owner
  {
    FindIsInverse(db.directories, owner, path.segments, d);
  }

  // ----- mkdir ---------------------------------------------------------------

  ghost predicate Grows(dirs: Directories, after: Directories) {
    forall d :: d in dirs ==> d in after && after[d] == dirs[d]
  }

  lemma NewDirectory(dirs: Directories, files: Files, current: Id, name: string, key: Id, now: Time, ttl: Time)
    requires IsForest(dirs) && NamesOk(dirs, files, now, ttl) && IsLive(dirs, current) && key !in dirs
    requires GetChild(dirs, current, name).None? && !ShownHolds(files, current, name, now)
    ensures var after := dirs[key := Directory(Some(current), name, dirs[current].owner, true)];
            IsForest(after) && NamesOk(after, files, now, ttl) && Grows(dirs, after)
  {
    var after := dirs[key := Directory(Some(current), name, dirs[current].owner, true)];
    ChildIs(dirs, current, name);
    AddKeepsForest(dirs, after, key, current, name);
    ShownSpeaksForAll(files, current, name, now, now, ttl);
    forall d, f | IsLive(after, d) && after[d].parent.Some? ensures !Holds(files, f, after[d].parent.value, after[d].name, now) {
      if d != key { assert !Holds(files, f, dirs[d].parent.value, dirs[d].name, now); }
    }
  }

  lemma OnlyChild(dirs: Directories, d: Id, parent: Id, name: string)
    requires IsForest(dirs) && IsChildOf(dirs, d, parent, name)
    ensures GetChild(dirs, parent, name) == Some(d)
  {
    ChildIs(dirs, parent, name);
  }

  /** The walk of mkdir leaves a forest, keeps every directory, and the path exists afterwards. */
  lemma {:induction false} MkdirWalk(dirs: Directories, files: Files, owner: Id, current: Id, names: seq<string>, parents: bool,
                                     key: Id, now: Time, ttl: Time)
    requires IsForest(dirs) && NamesOk(dirs, files, now, ttl) && IsLive(dirs, current) && dirs[current].owner == owner
    requires forall d :: d in dirs ==> d < key
    ensures var r := MkdirFrom(dirs, files, owner, current, names, parents, key, now);
            r.Ok? ==>
              && IsForest(r.value) && NamesOk(r.value, files, now, ttl) && Grows(dirs, r.value)
              && Walk(r.value, current, names).Some?
    decreases |names|
  {
    if names != [] {
      ChildIs(dirs, current, names[0]);
      match GetChild(dirs, current, names[0])
      case Some(child) =>
        MkdirWalk(dirs, files, owner, child, names[1..], parents, key, now, ttl);
        MkdirChild(dirs, MkdirFrom(dirs, files, owner, current, names, parents, key, now), current, names, child);
      case None =>
        if !(|names| > 1 && !parents) && !ShownHolds(files, current, names[0], now) {
          NewDirectory(dirs, files, current, names[0], key, now, ttl);
          var next := dirs[key := Directory(Some(current), names[0], owner, true)];
          MkdirWalk(next, files, owner, key, names[1..], parents, key + 1, now, ttl);
          MkdirChild(next, MkdirFrom(dirs, files, owner, current, names, parents, key, now), current, names, key);
        }
    }
  }

  lemma MkdirChild(dirs: Directories, r: Result<Directories>, current: Id, names: seq<string>, child: Id)
    requires names != [] && IsChildOf(dirs, child, current, names[0])
    requires r.Ok? ==> IsForest(r.value) && Grows(dirs, r.value) && Walk(r.value, child, names[1..]).Some?
    ensures r.Ok? ==> Walk(r.value, current, names).Some?
  {
    if r.Ok? {
      assert r.value[child] == dirs[child];
      OnlyChild(r.value, child, current, names[0]);
    }
  }

  lemma MkdirKeepsInv(db: Db, owner: Id, path: Path, parents: bool, key: Id, now: Time, ttl: Time)
    requires Inv(db, now, ttl) && forall d :: d in db.directories ==> d < key
    ensures var r := Mkdir(db, owner, path, parents, key, now);
            r.Ok? ==> Inv(r.value, now, ttl) && Grows(db.directories, r.value.directories)
                      && Find(r.value.directories, owner, path.segments).Some?
                      && Find(r.value.directories, owner, path.segments).value.Some?
  {
    RootIs(db.directories, owner);
    if Mkdir(db, owner, path, parents, key, now).Ok? {
      var root := GetRoot(db.directories, owner).value;
      MkdirWalk(db.directories, db.files, owner, root, path.segments, parents, key, now, ttl);
      SameRoot(db.directories, Mkdir(db, owner, path, parents, key, now).value.directories, owner);
    }
  }

  lemma SameRoot(dirs: Directories, after: Directories, owner: Id)
    requires Grows(dirs, after) && IsForest(after) && GetRoot(dirs, owner).Some?
    ensures GetRoot(after, owner) == GetRoot(dirs, owner)
  {
    RootIs(dirs, owner);
    var root := GetRoot(dirs, owner).value;
    assert after[root] == dirs[root];
    RootIs(after, owner);
    assert IsRootOf(after, root, owner);
  }

  /** d is one of the directories the walk goes through. */
  ghost predicate OnTheWay(dirs: Directories, from: Id, names: seq<string>, d: Id) {
    exists k :: 0 <= k <= |names| && Walk(dirs, from, names[..k]) == Some(d)
  }

  lemma OneStepBack(dirs: Directories, from: Id, names: seq<string>, child: Id, d: Id)
    requires names != [] && GetChild(dirs, from, names[0]) == Some(child) && OnTheWay(dirs, child, names[1..], d)
    ensures OnTheWay(dirs, from, names, d)
  {
    var k :| 0 <= k <= |names[1..]| && Walk(dirs, child, names[1..][..k]) == Some(d);
    assert names[..k + 1][1..] == names[1..][..k];
    assert Walk(dirs, from, names[..k + 1]) == Some(d);
  }

  lemma AtOnce(dirs: Directories, from: Id, names: seq<string>)
    ensures OnTheWay(dirs, from, names, from)
  {
    assert Walk(dirs, from, names[..0]) == Some(from);
  }

  /** A child that is still there after the rest of the walk carries it on. */
  lemma CarriesOn(before: Directories, after: Directories, from: Id, names: seq<string>, child: Id, d: Id)
    requires names != [] && IsForest(after) && Grows(before, after) && IsChildOf(before, child, from, names[0])
    requires OnTheWay(after, child, names[1..], d)
    ensures OnTheWay(after, from, names, d)
  {
    assert after[child] == before[child];
    OnlyChild(after, child, from, names[0]);
    OneStepBack(after, from, names, child, d);
  }

  /** Every directory mkdir creates lies on the path it was asked for. */
  lemma {:induction false} MkdirOnlyOnTheWay(dirs: Directories, files: Files, owner: Id, current: Id, names: seq<string>, parents: bool,
                                             key: Id, now: Time, ttl: Time, d: Id)
    requires IsForest(dirs) && NamesOk(dirs, files, now, ttl) && IsLive(dirs, current) && dirs[current].owner == owner
    requires forall e :: e in dirs ==> e < key
    requires MkdirFrom(dirs, files, owner, current, names, parents, key, now).Ok? && d !in dirs
    requires d in MkdirFrom(dirs, files, owner, current, names, parents, key, now).value
    ensures OnTheWay(MkdirFrom(dirs, files, owner, current, names, parents, key, now).value, current, names, d)
    decreases |names|
  {
    var after := MkdirFrom(dirs, files, owner, current, names, parents, key, now).value;
    ChildIs(dirs, current, names[0]);
    match GetChild(dirs, current, names[0])
    case Some(child) =>
      MkdirWalk(dirs, files, owner, child, names[1..], parents, key, now, ttl);
      MkdirOnlyOnTheWay(dirs, files, owner, child, names[1..], parents, key, now, ttl, d);
      CarriesOn(dirs, after, current, names, child, d);
    case None =>
      NewDirectory(dirs, files, current, names[0], key, now, ttl);
      var next := dirs[key := Directory(Some(current), names[0], owner, true)];
      MkdirWalk(next, files, owner, key, names[1..], parents, key + 1, now, ttl);
      if d == key {
        AtOnce(after, key, names[1..]);
      } else {
        MkdirOnlyOnTheWay(next, files, owner, key, names[1..], parents, key + 1, now, ttl, d);
      }
      CarriesOn(next, after, current, names, key, d);
  }

  /** What mkdir leaves behind: the path exists, every directory there was is as it was, and every new
      one lies on the path; no file changes. */
  lemma MkdirIsExact(db: Db, owner: Id, path: Path, parents: bool, key: Id, now: Time, ttl: Time)
    requires Inv(db, now, ttl) && (forall d :: d in db.directories ==> d < key) && Mkdir(db, owner, path, parents, key, now).Ok?
    ensures var v := Mkdir(db, owner, path, parents, key, now).value;
            && v == db.(directories := v.directories) && Grows(db.directories, v.directories)
            && (exists d :: Find(v.directories, owner, path.segments) == Some(Some(d)))
            && GetRoot(v.directories, owner).Some?
            && forall d :: d in v.directories && d !in db.directories ==>
                 OnTheWay(v.directories, GetRoot(v.directories, owner).value, path.segments, d)
  {
    MkdirKeepsInv(db, owner, path, parents, key, now, ttl);
    RootIs(db.directories, owner);
    var root := GetRoot(db.directories, owner).value;
    var v := Mkdir(db, owner, path, parents, key, now).value;
    SameRoot(db.directories, v.directories, owner);
    forall d | d in v.directories && d !in db.directories ensures OnTheWay(v.directories, root, path.segments, d) {
      MkdirOnlyOnTheWay(db.directories, db.files, owner, root, path.segments, parents, key, now, ttl, d);
    }
  }

  lemma {:induction false} MkdirOfExisting(dirs: Directories, files: Files, owner: Id, current: Id, names: seq<string>, key: Id, now: Time)
    requires Walk(dirs, current, names).Some?
    ensures MkdirFrom(dirs, files, owner, current, names, true, key, now) == Ok(dirs)
    decreases |names|
  {
    if names != [] {
      MkdirOfExisting(dirs, files, owner, GetChild(dirs, current, names[0]).value, names[1..], key, now);
    }
  }

  /** Creating a path with its parents is idempotent. */
  lemma MkdirTwice(db: Db, owner: Id, path: Path, key: Id, now: Time, ttl: Time, again: Id, later: Time)
    requires Inv(db, now, ttl) && (forall d :: d in db.directories ==> d < key)
    requires Mkdir(db, owner, path, true, key, now).Ok?
    ensures var v := Mkdir(db, owner, path, true, key, now).value; Mkdir(v, owner, path, true, again, later) == Ok(v)
  {
    MkdirKeepsInv(db, owner, path, true, key, now, ttl);
    var v := Mkdir(db, owner, path, true, key, now).value;
    MkdirOfExisting(v.directories, v.files, owner, GetRoot(v.directories, owner).value, path.segments, again, later);
  }

  // ----- rmdir and rm ------------------------------------------------------------

  /** The files of the removed directories are deleted, the other files are untouched. */
  lemma RemovedFiles(db: Db, d: Id)
    ensures forall f :: f in db.files ==>
              f in Removed(db, d).files
              && (if db.files[f].directory == d || (IsLive(db.directories, db.files[f].directory) && Below(db.directories, d, db.files[f].directory))
                  then Removed(db, d).files[f].state.Deleted?
                  else Removed(db, d).files[f] == db.files[f])
    ensures Removed(db, d).files.Keys == db.files.Keys
  {
  }

  lemma FewerNamesStayApart(dirs: Directories, files: Files, left: Directories, kept: Files, now: Time)
    requires NamesApart(dirs, files, now)
    requires forall d :: IsLive(left, d) ==> IsLive(dirs, d) && left[d] == dirs[d]
    requires forall f :: f in kept && !kept[f].state.Deleted? ==> f in files && kept[f] == files[f]
    ensures NamesApart(left, kept, now)
  {
    forall d, f | IsLive(left, d) && left[d].parent.Some? ensures !Holds(kept, f, left[d].parent.value, left[d].name, now) {
      assert !Holds(files, f, dirs[d].parent.value, dirs[d].name, now);
    }
  }

  lemma RemovedKeepsNames(db: Db, d: Id, now: Time, ttl: Time)
    requires NamesOk(db.directories, db.files, now, ttl) && OneCommitted(db.files)
    requires forall e :: IsLive(Removed(db, d).directories, e) <==> IsLive(db.directories, e) && e != d && !Below(db.directories, d, e)
    ensures NamesOk(Removed(db, d).directories, Removed(db, d).files, now, ttl) && OneCommitted(Removed(db, d).files)
  {
    RemovedFiles(db, d);
    FewerNamesStayApart(db.directories, db.files, Removed(db, d).directories, Removed(db, d).files, now);
  }

  lemma RemovedKeepsInv(db: Db, d: Id, now: Time, ttl: Time)
    requires Inv(db, now, ttl) && IsLive(db.directories, d)
    ensures Inv(Removed(db, d), now, ttl)
  {
    RemoveKeepsForest(db.directories, d);
    RemovedKeepsNames(db, d, now, ttl);
  }

  /** rmdir removes exactly the directory and its live descendants, deletes exactly the files in them,
      and leaves every other directory with the path it had. */
  lemma RmdirIsExact(db: Db, owner: Id, path: Path, recursive: bool, now: Time, ttl: Time)
    requires Inv(db, now, ttl) && Rmdir(db, owner, path, recursive).Ok?
    ensures var v := Rmdir(db, owner, path, recursive).value;
            var d := DirectoryFor(db.directories, owner, path);
            && d.Ok? && IsPath(db.directories, d.value, path.segments) && Inv(v, now, ttl)
            && (forall e :: IsLive(v.directories, e) <==> IsLive(db.directories, e) && e != d.value && !Below(db.directories, d.value, e))
            && (forall e, names :: IsLive(v.directories, e) && IsPath(db.directories, e, names) ==> IsPath(v.directories, e, names))
            && (forall f :: f in db.files ==>
                  f in v.files &&
                  if db.files[f].state.Deleted? || IsLive(v.directories, db.files[f].directory) then v.files[f].state.Deleted? == db.files[f].state.Deleted?
                  else v.files[f].state.Deleted?)
            && (forall f :: f in db.files && IsLive(v.directories, db.files[f].directory) ==> v.files[f] == db.files[f])
  {
    var d := DirectoryFor(db.directories, owner, path).value;
    DirectoryIs(db, owner, path, d);
    assert IsLive(db.directories, d);
    RemoveKeepsForest(db.directories, d);
    RemovedFiles(db, d);
    RemovedKeepsInv(db, d, now, ttl);
  }

  ghost predicate Visible(files: Files, dir: Id, name: string) {
    exists f :: f in files && IsAt(files[f], dir, name) && files[f].state.Committed?
  }

  lemma VisibleIsShown(files: Files, dir: Id, name: string)
    ensures Visible(files, dir, name) <==> IsVisible(files, GetLiveByName(files, dir, name))
  {
    ShownFile(files, dir, name);
    if Visible(files, dir, name) {
      var f :| f in files && IsAt(files[f], dir, name) && files[f].state.Committed?;
      assert f in CommittedAt(files, dir, name);
    }
  }

  /** A visible file is never hidden behind a directory of the same name. */
  lemma VisibleIsNotShadowed(db: Db, dir: Id, name: string, now: Time, ttl: Time)
    requires Inv(db, now, ttl) && Visible(db.files, dir, name)
    ensures GetChild(db.directories, dir, name).None?
  {
    ChildIs(db.directories, dir, name);
    var f :| f in db.files && IsAt(db.files[f], dir, name) && db.files[f].state.Committed?;
    assert Holds(db.files, f, dir, name, now);
  }

  /** rm goes through exactly when the path names a visible file; it deletes that one file. */
  lemma RmExactlyWhenVisible(db: Db, owner: Id, path: Path, now: Time, ttl: Time)
    requires Inv(db, now, ttl)
    ensures Rm(db, owner, path).Ok? <==>
              !path.IsRoot() && DirectoryFor(db.directories, owner, path.Parent()).Ok?
              && Visible(db.files, DirectoryFor(db.directories, owner, path.Parent()).value, Name(path))
    ensures Rm(db, owner, path).Ok? ==>
              var f := GetLiveByName(db.files, DirectoryFor(db.directories, owner, path.Parent()).value, Name(path));
              && f.Some? && f.value in db.files && db.files[f.value].state.Committed?
              && Rm(db, owner, path).value == db.(files := db.files[f.value := db.files[f.value].(state := Deleted, expiresAt := None)])
  {
    if !path.IsRoot() && DirectoryFor(db.directories, owner, path.Parent()).Ok? {
      var parent := DirectoryFor(db.directories, owner, path.Parent()).value;
      VisibleIsShown(db.files, parent, Name(path));
      if Visible(db.files, parent, Name(path)) { VisibleIsNotShadowed(db, parent, Name(path), now, ttl); }
    }
  }

  lemma DeleteKeepsInv(db: Db, f: Id, now: Time, ttl: Time)
    requires Inv(db, now, ttl)
    ensures Inv(db.(files := MarkDeleted(db.files, f)), now, ttl)
  {
    var files := MarkDeleted(db.files, f);
    forall d, g | IsLive(db.directories, d) && db.directories[d].parent.Some?
      ensures !Holds(files, g, db.directories[d].parent.value, db.directories[d].name, now)
    {
      assert !Holds(db.files, g, db.directories[d].parent.value, db.directories[d].name, now);
    }
  }

  // ----- mv ------------------------------------------------------------------

  lemma EntryIs(db: Db, owner: Id, path: Path)
    requires IsForest(db.directories) && EntryFor(db, owner, path).Ok?
    ensures var e := EntryFor(db, owner, path).value;
            && (e.directory.Some? ==> IsPath(db.directories, e.directory.value, path.segments)
                                      && db.directories[e.directory.value].owner == owner)
            && (e.file.Some? ==> !path.IsRoot() && e.file.value in db.files && db.files[e.file.value].name == Name(path)
                                 && IsPath(db.directories, db.files[e.file.value].directory, path.Parent().segments))
  {
    if path.IsRoot() {
      DirectoryIs(db, owner, path, DirectoryFor(db.directories, owner, path).value);
    } else {
      var parent := DirectoryFor(db.directories, owner, path.Parent()).value;
      DirectoryIs(db, owner, path.Parent(), parent);
      ChildIs(db.directories, parent, Name(path));
      ShownFile(db.files, parent, Name(path));
      var child := GetChild(db.directories, parent, Name(path));
      if child.Some? {
        PathOfChild(db.directories, child.value, parent, Name(path), path.Parent().segments);
        assert path.Parent().segments + [Name(path)] == path.segments;
      }
    }
  }

  /** What a move that goes ahead has made sure of. */
  ghost predicate Movable(db: Db, owner: Id, src: Path, move: Move, origin: Entry, parent: Id, now: Time) {
    && IsPath(db.directories, parent, move.parent.segments) && db.directories[parent].owner == owner
    && !src.IsRoot()
    && (origin.directory.Some? ==>
          && IsPath(db.directories, origin.directory.value, src.segments)
          && db.directories[origin.directory.value].owner == owner
          && !IsPrefix(src.segments, move.parent.segments))
    && (origin.directory.None? ==> origin.file.Some? && origin.file.value in db.files && db.files[origin.file.value].state.Committed?)
    && (forall d :: !IsChildOf(db.directories, d, parent, move.name))
    && (forall f :: !Holds(db.files, f, parent, move.name, now))
  }

  lemma NotBelowItself(src: Path, move: Move)
    requires CheckMove(src, move, true).Ok?
    ensures !IsPrefix(src.segments, move.parent.segments)
  {
    var target := CheckMove(src, move, true).value;
    var n := |src.segments|;
    assert n <= |move.parent.segments| ==> target.segments[..n] == move.parent.segments[..n];
  }

  lemma PlannedMoveIsSound(db: Db, owner: Id, src: Path, dst: Path, now: Time, ttl: Time) returns (move: Move)
    requires Inv(db, now, ttl) && PlanMove(db, owner, src, dst, now).Ok?
    ensures DecideMove(src, dst, KindOf(db, EntryFor(db, owner, dst).value, now)) == Ok(move)
    ensures var (origin, parent, name) := PlanMove(db, owner, src, dst, now).value;
            move.name == name && Movable(db, owner, src, move, origin, parent, now)
  {
    var origin := EntryFor(db, owner, src).value;
    var destination := EntryFor(db, owner, dst).value;
    move := DecideMove(src, dst, KindOf(db, destination, now)).value;
    var parent := DirectoryFor(db.directories, owner, move.parent).value;
    EntryIs(db, owner, src);
    DirectoryIs(db, owner, move.parent, parent);
    ChildIs(db.directories, parent, move.name);
    ShownSpeaksForAll(db.files, parent, move.name, now, now, ttl);
    if origin.directory.Some? { NotBelowItself(src, move); }
  }

  lemma MovedDirectoryKeepsInv(db: Db, owner: Id, src: Path, move: Move, origin: Entry, parent: Id, now: Time, ttl: Time)
    requires Inv(db, now, ttl) && Movable(db, owner, src, move, origin, parent, now) && origin.directory.Some?
    ensures var after := MoveDirectory(db.directories, origin.directory.value, parent, move.name);
            && Moved(db.directories, after, origin.directory.value, parent, move.name)
            && Inv(db.(directories := after), now, ttl)
  {
    var d := origin.directory.value;
    var after := MoveDirectory(db.directories, d, parent, move.name);
    MoveKeepsForest(db.directories, after, d, parent, move.name, src.segments, move.parent.segments);
    forall e, f | IsLive(after, e) && after[e].parent.Some? ensures !Holds(db.files, f, after[e].parent.value, after[e].name, now) {
      if e == d { assert !Holds(db.files, f, parent, move.name, now); }
      else { assert !Holds(db.files, f, db.directories[e].parent.value, db.directories[e].name, now); }
    }
  }

  lemma MovedFileKeepsInv(db: Db, owner: Id, src: Path, move: Move, origin: Entry, parent: Id, now: Time, ttl: Time)
    requires Inv(db, now, ttl) && Movable(db, owner, src, move, origin, parent, now) && origin.directory.None?
    ensures Inv(db.(files := MoveFile(db.files, origin.file.value, parent, move.name)), now, ttl)
  {
    var f := origin.file.value;
    var files := MoveFile(db.files, f, parent, move.name);
    forall g | g in db.files && g != f && db.files[g].state.Committed?
      ensures !(db.files[g].directory == parent && db.files[g].name == move.name)
    {
      assert !Holds(db.files, g, parent, move.name, now);
    }
    forall d, g | IsLive(db.directories, d) && db.directories[d].parent.Some?
      ensures !Holds(files, g, db.directories[d].parent.value, db.directories[d].name, now)
    {
      assert !Holds(db.files, g, db.directories[d].parent.value, db.directories[d].name, now);
      assert !IsChildOf(db.directories, d, parent, move.name);
    }
  }

  lemma MvKeepsInv(db: Db, owner: Id, src: Path, dst: Path, now: Time, ttl: Time)
    requires Inv(db, now, ttl) && Mv(db, owner, src, dst, now).Ok?
    ensures Inv(Mv(db, owner, src, dst, now).value, now, ttl)
  {
    var (origin, parent, name) := PlanMove(db, owner, src, dst, now).value;
    var move := PlannedMoveIsSound(db, owner, src, dst, now, ttl);
    if origin.directory.Some? {
      MovedDirectoryKeepsInv(db, owner, src, move, origin, parent, now, ttl);
    } else {
      MovedFileKeepsInv(db, owner, src, move, origin, parent, now, ttl);
    }
  }

  lemma MovedPath(db: Db, owner: Id, src: Path, move: Move, origin: Entry, parent: Id, now: Time, ttl: Time, e: Id, names: seq<string>)
    requires Inv(db, now, ttl) && Movable(db, owner, src, move, origin, parent, now) && origin.directory.Some?
    requires IsPath(db.directories, e, names)
    ensures var v := MoveDirectory(db.directories, origin.directory.value, parent, move.name);
            var after := if db.directories[e].owner == owner
                         then Substituted(names, src.segments, move.parent.segments + [move.name]) else names;
            IsPath(v, e, after) && Find(v, db.directories[e].owner, after) == Some(Some(e))
  {
    var d := origin.directory.value;
    var v := MoveDirectory(db.directories, d, parent, move.name);
    MovedDirectoryKeepsInv(db, owner, src, move, origin, parent, now, ttl);
    MoveSubstitutesPaths(db.directories, v, d, parent, move.name, src.segments, move.parent.segments, e, names);
    var after := if db.directories[e].owner == owner
                 then Substituted(names, src.segments, move.parent.segments + [move.name]) else names;
    LinksAreWalked(v, e, after);
  }

  lemma MvIsMove(db: Db, owner: Id, src: Path, dst: Path, now: Time)
    requires Mv(db, owner, src, dst, now).Ok? && EntryFor(db, owner, src).value.directory.Some?
    ensures PlanMove(db, owner, src, dst, now).Ok?
    ensures var (origin, parent, name) := PlanMove(db, owner, src, dst, now).value;
            && origin == EntryFor(db, owner, src).value && origin.directory.Some?
            && Mv(db, owner, src, dst, now).value.directories == MoveDirectory(db.directories, origin.directory.value, parent, name)
  {
  }

  /** The path the moved entry gets: inside an existing directory under its own name, else the one given. */
  ghost function TargetOf(db: Db, owner: Id, src: Path, dst: Path): seq<string> {
    var destination := EntryFor(db, owner, dst);
    if destination.Ok? && destination.value.directory.Some? && !src.IsRoot() then dst.segments + [Name(src)] else dst.segments
  }

  lemma DecidedTarget(db: Db, owner: Id, src: Path, dst: Path, now: Time, move: Move)
    requires EntryFor(db, owner, dst).Ok? && DecideMove(src, dst, KindOf(db, EntryFor(db, owner, dst).value, now)) == Ok(move)
    ensures move.parent.segments + [move.name] == TargetOf(db, owner, src, dst)
  {
    if !dst.IsRoot() { assert dst.Parent().segments + [Name(dst)] == dst.segments; }
  }

  lemma PlannedDestination(db: Db, owner: Id, src: Path, dst: Path, now: Time)
    requires PlanMove(db, owner, src, dst, now).Ok?
    ensures EntryFor(db, owner, dst).Ok?
  {
  }

  /** Moving a directory rewrites the absolute paths of its subtree by prefix substitution, in the
      caller's tree only, and every other path stays as it was; afterwards resolution agrees. */
  lemma MvSubstitutesPaths(db: Db, owner: Id, src: Path, dst: Path, now: Time, ttl: Time, e: Id, names: seq<string>)
    requires Inv(db, now, ttl) && Mv(db, owner, src, dst, now).Ok? && EntryFor(db, owner, src).value.directory.Some?
    requires IsPath(db.directories, e, names)
    ensures var v := Mv(db, owner, src, dst, now).value.directories;
            var after := if db.directories[e].owner == owner
                         then Substituted(names, src.segments, TargetOf(db, owner, src, dst)) else names;
            IsPath(v, e, after) && Find(v, db.directories[e].owner, after) == Some(Some(e))
  {
    MvIsMove(db, owner, src, dst, now);
    PlannedDestination(db, owner, src, dst, now);
    var (origin, parent, name) := PlanMove(db, owner, src, dst, now).value;
    var move := PlannedMoveIsSound(db, owner, src, dst, now, ttl);
    DecidedTarget(db, owner, src, dst, now, move);
    MovedPath(db, owner, src, move, origin, parent, now, ttl, e, names);
  }
}
