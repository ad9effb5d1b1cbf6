/** Exactly when mkdir, rmdir and mv go through, and where a moved file arrives. */
module NamespaceExact {
  import opened Common
  import opened Entities
  import opened Tables
  import opened Tree
  import opened FileNames
  import opened Paths
  import opened Namespace
  import opened NamespaceRuns

  /** Nothing has the name: no live directory, no visible file and no reservation that can still commit. */
  ghost predicate IsFree(db: Db, dir: Id, name: string, now: Time) {
    (forall d :: !IsChildOf(db.directories, d, dir, name)) && (forall f :: !Holds(db.files, f, dir, name, now))
  }

  lemma FreeIsChecked(db: Db, dir: Id, name: string, now: Time, ttl: Time)
    requires ReservationsOk(db.files, now, ttl)
    ensures IsFree(db, dir, name, now) <==> GetChild(db.directories, dir, name).None? && !ShownHolds(db.files, dir, name, now)
  {
    ChildIs(db.directories, dir, name);
    ShownSpeaksForAll(db.files, dir, name, now, now, ttl);
  }

  // ----- mkdir ---------------------------------------------------------------

  /** Directories new to the table have nothing in them. */
  ghost predicate IsBeyond(dirs: Directories, files: Files, d: Id, name: string, now: Time) {
    GetChild(dirs, d, name).None? && !ShownHolds(files, d, name, now)
  }

  lemma NothingBeyond(dirs: Directories, files: Files, d: Id, name: string, now: Time, ttl: Time)
    requires ReservationsOk(files, now, ttl) && (forall e :: IsLive(dirs, e) ==> dirs[e].parent != Some(d))
    requires forall f :: f in files && !files[f].state.Deleted? ==> files[f].directory != d
    ensures IsBeyond(dirs, files, d, name, now)
  {
    ChildIs(dirs, d, name);
    ShownSpeaksForAll(files, d, name, now, now, ttl);
  }

  /** Once the walk makes a directory, nothing can stop it. */
  lemma {:induction false} RestIsMade(dirs: Directories, files: Files, owner: Id, current: Id, names: seq<string>, key: Id, now: Time, ttl: Time)
    requires ReservationsOk(files, now, ttl) && current < key
    requires forall e: Id :: IsLive(dirs, e) ==> e < key && (dirs[e].parent.Some? ==> dirs[e].parent.value < current)
    requires forall f :: f in files && !files[f].state.Deleted? ==> files[f].directory < current
    ensures MkdirFrom(dirs, files, owner, current, names, true, key, now).Ok?
    decreases |names|
  {
    if names != [] {
      NothingBeyond(dirs, files, current, names[0], now, ttl);
      var next := dirs[key := Directory(Some(current), names[0], owner, true)];
      RestIsMade(next, files, owner, key, names[1..], key + 1, now, ttl);
    }
  }

  /** A file holds the first name of the path that is not a directory yet. */
  ghost predicate FileInTheWay(dirs: Directories, files: Files, from: Id, names: seq<string>, now: Time) {
    exists k, d: Id :: IsFirstMissing(dirs, from, names, k, d) && exists f :: Holds(files, f, d, names[k], now)
  }

  ghost predicate IsFirstMissing(dirs: Directories, from: Id, names: seq<string>, k: int, d: Id) {
    && 0 <= k < |names| && Walk(dirs, from, names[..k]) == Some(d)
    && forall e :: !IsChildOf(dirs, e, d, names[k])
  }

  lemma MissingBelow(dirs: Directories, from: Id, names: seq<string>, child: Id, k: int, d: Id)
    requires names != [] && GetChild(dirs, from, names[0]) == Some(child)
    ensures IsFirstMissing(dirs, from, names, k, d) <==> k > 0 && IsFirstMissing(dirs, child, names[1..], k - 1, d)
  {
    ChildIs(dirs, from, names[0]);
    if 0 < k < |names| {
      assert names[..k][1..] == names[1..][..k - 1];
      assert names[1..][k - 1] == names[k];
    } else if k == 0 {
      assert names[..0] == [];
    }
  }

  lemma SameFileInTheWay(dirs: Directories, files: Files, from: Id, names: seq<string>, child: Id, now: Time)
    requires names != [] && GetChild(dirs, from, names[0]) == Some(child)
    ensures FileInTheWay(dirs, files, from, names, now) <==> FileInTheWay(dirs, files, child, names[1..], now)
  {
    if FileInTheWay(dirs, files, from, names, now) {
      var k, d: Id :| IsFirstMissing(dirs, from, names, k, d) && exists f :: Holds(files, f, d, names[k], now);
      MissingBelow(dirs, from, names, child, k, d);
      assert IsFirstMissing(dirs, child, names[1..], k - 1, d);
    }
    if FileInTheWay(dirs, files, child, names[1..], now) {
      var k, d: Id :| IsFirstMissing(dirs, child, names[1..], k, d) && exists f :: Holds(files, f, d, names[1..][k], now);
      MissingBelow(dirs, from, names, child, k + 1, d);
      assert names[1..][k] == names[k + 1];
      assert IsFirstMissing(dirs, from, names, k + 1, d);
    }
  }

  lemma MissingAtOnce(dirs: Directories, files: Files, from: Id, names: seq<string>, now: Time)
    requires names != [] && GetChild(dirs, from, names[0]).None?
    ensures FileInTheWay(dirs, files, from, names, now) <==> exists f :: Holds(files, f, from, names[0], now)
  {
    ChildIs(dirs, from, names[0]);
    assert names[..0] == [];
    assert IsFirstMissing(dirs, from, names, 0, from);
    forall k | 0 < k <= |names| ensures Walk(dirs, from, names[..k]).None? { assert names[..k][0] == names[0]; }
  }

  lemma {:induction false} WalkMakesExactly(dirs: Directories, files: Files, owner: Id, current: Id, names: seq<string>, key: Id, now: Time, ttl: Time)
    requires IsForest(dirs) && NamesOk(dirs, files, now, ttl) && IsLive(dirs, current) && forall d :: d in dirs ==> d < key
    ensures MkdirFrom(dirs, files, owner, current, names, true, key, now).Ok? <==> !FileInTheWay(dirs, files, current, names, now)
    decreases |names|
  {
    if names != [] {
      ChildIs(dirs, current, names[0]);
      match GetChild(dirs, current, names[0])
      case Some(child) =>
        SameFileInTheWay(dirs, files, current, names, child, now);
        WalkMakesExactly(dirs, files, owner, child, names[1..], key, now, ttl);
      case None =>
        MissingAtOnce(dirs, files, current, names, now);
        ShownSpeaksForAll(files, current, names[0], now, now, ttl);
        var next := dirs[key := Directory(Some(current), names[0], owner, true)];
        forall f | f in files && !files[f].state.Deleted? ensures files[f].directory < key {
          assert IsLive(dirs, files[f].directory);
        }
        forall e | IsLive(dirs, e) && dirs[e].parent.Some? ensures dirs[e].parent.value < key {
          assert IsLive(dirs, dirs[e].parent.value);
        }
        RestIsMade(next, files, owner, key, names[1..], key + 1, now, ttl);
    }
  }

  /** Without parents only the last name may be missing. */
  lemma {:induction false} OnlyTheLastIsMade(dirs: Directories, files: Files, owner: Id, current: Id, names: seq<string>, key: Id, now: Time)
    requires names != []
    ensures var front, last := names[..|names| - 1], names[|names| - 1];
            MkdirFrom(dirs, files, owner, current, names, false, key, now).Ok?
            <==> Walk(dirs, current, front).Some? && GetChild(dirs, Walk(dirs, current, front).value, last).None?
                 && !ShownHolds(files, Walk(dirs, current, front).value, last, now)
    decreases |names|
  {
    if |names| > 1 {
      assert names[..|names| - 1][1..] == names[1..][..|names| - 2];
      if GetChild(dirs, current, names[0]).Some? {
        OnlyTheLastIsMade(dirs, files, owner, GetChild(dirs, current, names[0]).value, names[1..], key, now);
      }
    } else {
      assert names[1..] == [];
    }
  }

  /** mkdir goes through, without parents, exactly if the parent is there and the name is free; with parents,
      exactly if no file holds the first name on the way that is not a directory. */
  lemma MkdirGoesThroughExactly(db: Db, owner: Id, path: Path, parents: bool, key: Id, now: Time, ttl: Time)
    requires Inv(db, now, ttl) && forall d :: d in db.directories ==> d < key
    ensures Mkdir(db, owner, path, parents, key, now).Ok? <==>
            && !path.IsRoot() && GetRoot(db.directories, owner).Some?
            && if parents then !FileInTheWay(db.directories, db.files, GetRoot(db.directories, owner).value, path.segments, now)
               else DirectoryFor(db.directories, owner, path.Parent()).Ok?
                    && IsFree(db, DirectoryFor(db.directories, owner, path.Parent()).value, Name(path), now)
  {
    RootIs(db.directories, owner);
    if !path.IsRoot() && GetRoot(db.directories, owner).Some? {
      var root := GetRoot(db.directories, owner).value;
      if parents {
        WalkMakesExactly(db.directories, db.files, owner, root, path.segments, key, now, ttl);
      } else {
        OnlyTheLastIsMade(db.directories, db.files, owner, root, path.segments, key, now);
        if DirectoryFor(db.directories, owner, path.Parent()).Ok? {
          FreeIsChecked(db, DirectoryFor(db.directories, owner, path.Parent()).value, Name(path), now, ttl);
        }
      }
    }
  }

  // ----- rmdir ---------------------------------------------------------------

  /** A directory with no live subdirectory and no visible file. Open reservations do not count. */
  ghost predicate IsEmpty(db: Db, d: Id) {
    && (forall e :: IsLive(db.directories, e) ==> db.directories[e].parent != Some(d))
    && forall f :: f in db.files && db.files[f].state.Committed? ==> db.files[f].directory != d
  }

  lemma NoChildrenExactly(db: Db, d: Id)
    ensures CountChildren(db, d) == 0 <==> IsEmpty(db, d)
  {
    if e :| IsLive(db.directories, e) && db.directories[e].parent == Some(d) { assert e in SubdirectoriesOf(db.directories, d); }
    if f :| f in db.files && db.files[f].state.Committed? && db.files[f].directory == d { assert f in CommittedIn(db.files, d); }
    if IsEmpty(db, d) { assert SubdirectoriesOf(db.directories, d) == {} && CommittedIn(db.files, d) == {}; }
  }

  lemma RmdirGoesThroughExactly(db: Db, owner: Id, path: Path, recursive: bool)
    ensures Rmdir(db, owner, path, recursive).Ok? <==>
            && !path.IsRoot() && DirectoryFor(db.directories, owner, path).Ok?
            && (recursive || IsEmpty(db, DirectoryFor(db.directories, owner, path).value))
  {
    if DirectoryFor(db.directories, owner, path).Ok? { NoChildrenExactly(db, DirectoryFor(db.directories, owner, path).value); }
  }

  // ----- mv ------------------------------------------------------------------

  /** Where a moved entry goes: inside an existing directory under its own name, else to the path given. */
  function Destination(db: Db, owner: Id, src: Path, dst: Path): Move
    requires !src.IsRoot() && !dst.IsRoot()
  {
    if DirectoryFor(db.directories, owner, dst).Ok? then Move(dst, Name(src)) else Move(dst.Parent(), Name(dst))
  }

  lemma ResolvedByStep(dirs: Directories, owner: Id, path: Path)
    requires !path.IsRoot()
    ensures DirectoryFor(dirs, owner, path).Ok? <==>
            DirectoryFor(dirs, owner, path.Parent()).Ok?
            && GetChild(dirs, DirectoryFor(dirs, owner, path.Parent()).value, Name(path)).Some?
    ensures DirectoryFor(dirs, owner, path).Ok? ==>
              GetChild(dirs, DirectoryFor(dirs, owner, path.Parent()).value, Name(path)) == Some(DirectoryFor(dirs, owner, path).value)
  {
    if GetRoot(dirs, owner).Some? {
      var root := GetRoot(dirs, owner).value;
      var front, last := path.Parent().segments, [Name(path)];
      assert front + last == path.segments;
      WalkSplits(dirs, root, front, last);
      if Walk(dirs, root, front).Some? {
        var parent := Walk(dirs, root, front).value;
        assert last[1..] == [];
        assert Walk(dirs, parent, last) == GetChild(dirs, parent, last[0]);
      }
    }
  }

  /** A directory or a visible file to be moved. */
  ghost predicate IsThere(db: Db, owner: Id, src: Path) {
    && !src.IsRoot() && DirectoryFor(db.directories, owner, src.Parent()).Ok?
    && var parent := DirectoryFor(db.directories, owner, src.Parent()).value;
       GetChild(db.directories, parent, Name(src)).Some? || Visible(db.files, parent, Name(src))
  }

  /** The target: a name that is free in a directory that exists, not below the moved directory itself. */
  ghost predicate CanArrive(db: Db, owner: Id, src: Path, dst: Path, now: Time)
    requires !src.IsRoot() && !dst.IsRoot()
  {
    var move := Destination(db, owner, src, dst);
    && DirectoryFor(db.directories, owner, move.parent).Ok?
    && IsFree(db, DirectoryFor(db.directories, owner, move.parent).value, move.name, now) && IsValidName(move.name)
    && (DirectoryFor(db.directories, owner, src).Ok? ==> !src.IsAncestorOf(Path(move.parent.segments + [move.name])))
  }

  lemma SourceIsFound(db: Db, owner: Id, src: Path)
    requires !src.IsRoot()
    ensures IsThere(db, owner, src) <==>
            && EntryFor(db, owner, src).Ok? && EntryFor(db, owner, src).value.Exists()
            && (EntryFor(db, owner, src).value.file.Some? ==> IsVisible(db.files, EntryFor(db, owner, src).value.file))
    ensures EntryFor(db, owner, src).Ok? ==> (EntryFor(db, owner, src).value.directory.Some? <==> DirectoryFor(db.directories, owner, src).Ok?)
  {
    ResolvedByStep(db.directories, owner, src);
    if DirectoryFor(db.directories, owner, src.Parent()).Ok? {
      VisibleIsShown(db.files, DirectoryFor(db.directories, owner, src.Parent()).value, Name(src));
    }
  }

  /** The destination as mv decides it, and its kind. */
  lemma DestinationIsDecided(db: Db, owner: Id, src: Path, dst: Path, now: Time, ttl: Time)
    requires Inv(db, now, ttl) && !src.IsRoot() && !dst.IsRoot()
    ensures var move := Destination(db, owner, src, dst);
            CanArrive(db, owner, src, dst, now) ==>
              EntryFor(db, owner, dst).Ok? && DecideMove(src, dst, KindOf(db, EntryFor(db, owner, dst).value, now)) == Ok(move)
    ensures EntryFor(db, owner, dst).Ok? && DecideMove(src, dst, KindOf(db, EntryFor(db, owner, dst).value, now)).Ok? ==>
              DecideMove(src, dst, KindOf(db, EntryFor(db, owner, dst).value, now)) == Ok(Destination(db, owner, src, dst))
  {
    ResolvedByStep(db.directories, owner, dst);
    if DirectoryFor(db.directories, owner, dst.Parent()).Ok? {
      var parent := DirectoryFor(db.directories, owner, dst.Parent()).value;
      FreeIsChecked(db, parent, Name(dst), now, ttl);
    }
  }

  /** What is checked of the target path: it is not the source, nor below a directory that moves. */
  lemma TargetIsChecked(src: Path, move: Move, isDirectory: bool)
    ensures var target := Path(move.parent.segments + [move.name]);
            CheckMove(src, move, isDirectory).Ok? <==> IsValidName(move.name) && target != src && !(isDirectory && src.IsAncestorOf(target))
  {
  }

  /** The place the source is in is not free. */
  lemma SourceIsTaken(db: Db, owner: Id, src: Path, now: Time)
    requires IsThere(db, owner, src)
    ensures !IsFree(db, DirectoryFor(db.directories, owner, src.Parent()).value, Name(src), now)
  {
    var parent := DirectoryFor(db.directories, owner, src.Parent()).value;
    ChildIs(db.directories, parent, Name(src));
    if Visible(db.files, parent, Name(src)) {
      var f :| f in db.files && IsAt(db.files[f], parent, Name(src)) && db.files[f].state.Committed?;
      assert Holds(db.files, f, parent, Name(src), now);
    }
  }

  /** mv goes through exactly if the source is a directory or a visible file, the target's directory exists,
      the target's name is free there, and no directory moves below itself. */
  lemma MvGoesThroughExactly(db: Db, owner: Id, src: Path, dst: Path, now: Time, ttl: Time)
    requires Inv(db, now, ttl)
    ensures Mv(db, owner, src, dst, now).Ok? <==>
            IsThere(db, owner, src) && !dst.IsRoot() && CanArrive(db, owner, src, dst, now)
  {
    if !src.IsRoot() && !dst.IsRoot() {
      var move := Destination(db, owner, src, dst);
      SourceIsFound(db, owner, src);
      DestinationIsDecided(db, owner, src, dst, now, ttl);
      TargetIsChecked(src, move, DirectoryFor(db.directories, owner, src).Ok?);
      if DirectoryFor(db.directories, owner, move.parent).Ok? {
        FreeIsChecked(db, DirectoryFor(db.directories, owner, move.parent).value, move.name, now, ttl);
      }
      if IsThere(db, owner, src) {
        SourceIsTaken(db, owner, src, now);
        if Path(move.parent.segments + [move.name]) == src { assert move.parent.segments == src.Parent().segments; }
      }
    }
  }

  /** The directory a moved entry arrives in. */
  function ArrivesIn(db: Db, owner: Id, src: Path, dst: Path): Id
    requires !src.IsRoot() && !dst.IsRoot() && DirectoryFor(db.directories, owner, Destination(db, owner, src, dst).parent).Ok?
  {
    DirectoryFor(db.directories, owner, Destination(db, owner, src, dst).parent).value
  }

  /** The one visible file of a name. */
  lemma VisibleFile(db: Db, dir: Id, name: string, f: Id)
    requires OneCommitted(db.files) && f in db.files && IsAt(db.files[f], dir, name) && db.files[f].state.Committed?
    ensures GetLiveByName(db.files, dir, name) == Some(f)
  {
    ShownFile(db.files, dir, name);
    assert f in CommittedAt(db.files, dir, name);
  }

  lemma MovedFileRows(db: Db, owner: Id, src: Path, dst: Path, now: Time, ttl: Time, f: Id)
    requires Inv(db, now, ttl) && Mv(db, owner, src, dst, now).Ok? && !src.IsRoot() && DirectoryFor(db.directories, owner, src.Parent()).Ok?
    requires f in db.files && db.files[f].state.Committed?
    requires IsAt(db.files[f], DirectoryFor(db.directories, owner, src.Parent()).value, Name(src))
    ensures !dst.IsRoot() && DirectoryFor(db.directories, owner, Destination(db, owner, src, dst).parent).Ok?
    ensures var (d, name) := (ArrivesIn(db, owner, src, dst), Destination(db, owner, src, dst).name);
            && IsFree(db, d, name, now)
            && Mv(db, owner, src, dst, now).value == db.(files := db.files[f := db.files[f].(directory := d, name := name)])
  {
    MvGoesThroughExactly(db, owner, src, dst, now, ttl);
    DestinationIsDecided(db, owner, src, dst, now, ttl);
    var parent := DirectoryFor(db.directories, owner, src.Parent()).value;
    assert Visible(db.files, parent, Name(src));
    VisibleIsNotShadowed(db, parent, Name(src), now, ttl);
    VisibleFile(db, parent, Name(src), f);
  }

  /** A moved file arrives: its new path resolves to the same file, visible, with everything but its place
      as it was, blocks and copies included; the old name shows no visible file; every other file and
      every directory is as it was. */
  lemma MovedFileArrives(db: Db, owner: Id, src: Path, dst: Path, now: Time, ttl: Time, f: Id)
    requires Inv(db, now, ttl) && Mv(db, owner, src, dst, now).Ok? && !src.IsRoot() && DirectoryFor(db.directories, owner, src.Parent()).Ok?
    requires f in db.files && db.files[f].state.Committed?
    requires IsAt(db.files[f], DirectoryFor(db.directories, owner, src.Parent()).value, Name(src))
    ensures var v := Mv(db, owner, src, dst, now).value;
            && !dst.IsRoot()
            && var move := Destination(db, owner, src, dst);
               && EntryFor(v, owner, Path(move.parent.segments + [move.name])) == Ok(Entry(None, Some(f)))
               && f in v.files && v.files[f].state.Committed?
               && v.files[f] == db.files[f].(directory := v.files[f].directory, name := move.name)
               && !Visible(v.files, DirectoryFor(db.directories, owner, src.Parent()).value, Name(src))
               && v == db.(files := v.files) && v.files.Keys == db.files.Keys
               && forall g :: g in db.files && g != f ==> v.files[g] == db.files[g]
  {
    MovedFileRows(db, owner, src, dst, now, ttl, f);
    var v := Mv(db, owner, src, dst, now).value;
    var move := Destination(db, owner, src, dst);
    var d := ArrivesIn(db, owner, src, dst);
    var target := Path(move.parent.segments + [move.name]);
    assert target.Parent() == move.parent && Name(target) == move.name;
    ChildIs(db.directories, d, move.name);
    MvKeepsInv(db, owner, src, dst, now, ttl);
    VisibleFile(v, d, move.name, f);
    var parent := DirectoryFor(db.directories, owner, src.Parent()).value;
    assert Holds(db.files, f, parent, Name(src), now);
    assert !Holds(db.files, f, d, move.name, now);
    forall g | g in v.files && v.files[g].state.Committed? ensures !IsAt(v.files[g], parent, Name(src)) {
      if g != f { assert db.files[g] == v.files[g]; }
    }
  }

  /** A moved directory keeps its owner; no file and no other directory is touched. */
  lemma MovedDirectoryRows(db: Db, owner: Id, src: Path, dst: Path, now: Time, ttl: Time)
    requires Inv(db, now, ttl) && Mv(db, owner, src, dst, now).Ok? && DirectoryFor(db.directories, owner, src).Ok?
    ensures var v := Mv(db, owner, src, dst, now).value;
            var moved := DirectoryFor(db.directories, owner, src).value;
            && !src.IsRoot() && !dst.IsRoot() && DirectoryFor(db.directories, owner, Destination(db, owner, src, dst).parent).Ok?
            && moved in db.directories
            && v == db.(directories := db.directories[moved :=
                 db.directories[moved].(parent := Some(ArrivesIn(db, owner, src, dst)), name := Destination(db, owner, src, dst).name)])
  {
    MvGoesThroughExactly(db, owner, src, dst, now, ttl);
    DestinationIsDecided(db, owner, src, dst, now, ttl);
    ResolvedByStep(db.directories, owner, src);
    DirectoryIs(db, owner, src, DirectoryFor(db.directories, owner, src).value);
  }
}
