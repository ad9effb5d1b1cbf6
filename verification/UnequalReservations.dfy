/** Reservations of different lengths over one name, which only a changed configuration can bring about:
    when the file a name shows stops speaking for the others, and what follows. */
module UnequalReservations {
  import opened Common
  import opened Entities
  import opened Tables
  import opened Tree
  import opened FileNames
  import opened Paths
  import opened Namespace
  import opened NamespaceRuns
  import opened LifecycleRuns

  /** The path names an entry of this directory. */
  ghost predicate IsEntry(db: Db, owner: Id, path: Path, parent: Id) {
    && !path.IsRoot() && DirectoryFor(db.directories, owner, path.Parent()) == Ok(parent)
    && GetChild(db.directories, parent, Name(path)).None?
  }

  /** An empty file to be uploaded to that path. */
  function Reserve(owner: Id, path: Path, file: Id): Command { Create(owner, path, 0, 1, 0, file, []) }

  function Reserved(owner: Id, path: Path, parent: Id, now: Time, ttl: Time): File
    requires !path.IsRoot()
  {
    File(parent, Name(path), owner, 0, 1, Writing, now, Some(now + ttl))
  }

  /** Only the files change. */
  ghost predicate FilesBecome(db: Db, v: Db, files: Files) { v.directories == db.directories && v.files == files }

  lemma ReserveGoesThrough(db: Db, owner: Id, path: Path, parent: Id, file: Id, now: Time, ttl: Time)
    requires IsEntry(db, owner, path, parent) && file !in db.files
    requires CommittedAt(db.files, parent, Name(path)) != {} || WritingAt(db.files, parent, Name(path)) == {}
    ensures FilesBecome(db, Step(db, Reserve(owner, path, file), now, ttl), db.files[file := Reserved(owner, path, parent, now, ttl)])
  {
    ShownFile(db.files, parent, Name(path));
  }

  lemma CommitGoesThrough(db: Db, owner: Id, file: Id, now: Time, ttl: Time)
    requires file in db.files && db.files[file].owner == owner && db.files[file].state.Writing? && !db.files[file].IsExpired(now)
    requires CommittedAt(db.files, db.files[file].directory, db.files[file].name) == {}
    ensures FilesBecome(db, Step(db, Commit(owner, file, 0), now, ttl), db.files[file := db.files[file].(state := Committed, expiresAt := None)])
  {
    ShownFile(db.files, db.files[file].directory, db.files[file].name);
  }

  lemma RmGoesThrough(db: Db, owner: Id, path: Path, parent: Id, file: Id, now: Time, ttl: Time)
    requires IsEntry(db, owner, path, parent) && CommittedAt(db.files, parent, Name(path)) == {file}
    ensures FilesBecome(db, Step(db, Rm(owner, path), now, ttl), db.files[file := db.files[file].(state := Deleted, expiresAt := None)])
  {
    ShownFile(db.files, parent, Name(path));
    var shown := GetLiveByName(db.files, parent, Name(path)).value;
    assert shown in CommittedAt(db.files, parent, Name(path));
  }

  /** A file is uploaded and committed. */
  ghost function Uploaded(db: Db, owner: Id, path: Path, first: Id, at: Time, ttl: Time): Db {
    Step(Step(db, Reserve(owner, path, first), at, ttl), Commit(owner, first, 0), at, ttl)
  }

  /** A file is uploaded and committed, two overwrites of it are begun, and it is removed. */
  ghost function TwoOverwrites(db: Db, owner: Id, path: Path, first: Id, second: Id, third: Id, at: Time, ttl: Time,
                               later: Time, ttlLater: Time, last: Time, ttlLast: Time): Db
  {
    var b := Uploaded(db, owner, path, first, at, ttl);
    var c := Step(b, Reserve(owner, path, second), later, ttlLater);
    var d := Step(c, Reserve(owner, path, third), last, ttlLast);
    Step(d, Rm(owner, path), last, ttlLast)
  }

  /** Nothing is known under the name. */
  ghost predicate IsUnused(files: Files, dir: Id, name: string) { CommittedAt(files, dir, name) == {} && WritingAt(files, dir, name) == {} }

  ghost predicate AreNew(files: Files, first: Id, second: Id, third: Id) {
    first !in files && second !in files && third !in files && first != second && first != third && second != third
  }

  lemma UploadGoesThrough(db: Db, owner: Id, path: Path, parent: Id, first: Id, at: Time, ttl: Time)
    requires IsEntry(db, owner, path, parent) && IsUnused(db.files, parent, Name(path)) && first !in db.files && ttl > 0
    ensures var row := Reserved(owner, path, parent, at, ttl);
            FilesBecome(db, Uploaded(db, owner, path, first, at, ttl), db.files[first := row.(state := Committed, expiresAt := None)])
  {
    var a := Step(db, Reserve(owner, path, first), at, ttl);
    ReserveGoesThrough(db, owner, path, parent, first, at, ttl);
    assert CommittedAt(a.files, parent, Name(path)) == CommittedAt(db.files, parent, Name(path));
    CommitGoesThrough(a, owner, first, at, ttl);
  }

  /** A reservation over a committed file leaves that file as it is. */
  lemma OverwriteGoesThrough(db: Db, owner: Id, path: Path, parent: Id, first: Id, file: Id, now: Time, ttl: Time)
    requires IsEntry(db, owner, path, parent) && file !in db.files && CommittedAt(db.files, parent, Name(path)) == {first}
    ensures var v := Step(db, Reserve(owner, path, file), now, ttl);
            && FilesBecome(db, v, db.files[file := Reserved(owner, path, parent, now, ttl)])
            && CommittedAt(v.files, parent, Name(path)) == {first}
            && WritingAt(v.files, parent, Name(path)) == WritingAt(db.files, parent, Name(path)) + {file}
  {
    ReserveGoesThrough(db, owner, path, parent, file, now, ttl);
    var v := Step(db, Reserve(owner, path, file), now, ttl);
    assert CommittedAt(v.files, parent, Name(path)) == CommittedAt(db.files, parent, Name(path));
  }

  lemma UploadedOnly(files: Files, owner: Id, path: Path, parent: Id, first: Id, at: Time, ttl: Time)
    requires !path.IsRoot() && IsUnused(files, parent, Name(path)) && first !in files
    ensures var after := files[first := Reserved(owner, path, parent, at, ttl).(state := Committed, expiresAt := None)];
            CommittedAt(after, parent, Name(path)) == {first} && WritingAt(after, parent, Name(path)) == {}
  {
    var after := files[first := Reserved(owner, path, parent, at, ttl).(state := Committed, expiresAt := None)];
    assert CommittedAt(after, parent, Name(path)) == CommittedAt(files, parent, Name(path)) + {first};
    assert WritingAt(after, parent, Name(path)) == WritingAt(files, parent, Name(path));
  }

  /** What that leaves: two reservations and nothing else under the name. */
  lemma TwoReservationsRemain(db: Db, owner: Id, path: Path, parent: Id, first: Id, second: Id, third: Id, at: Time, ttl: Time,
                              later: Time, ttlLater: Time, last: Time, ttlLast: Time)
    requires IsEntry(db, owner, path, parent) && IsUnused(db.files, parent, Name(path)) && AreNew(db.files, first, second, third) && ttl > 0
    ensures var v := TwoOverwrites(db, owner, path, first, second, third, at, ttl, later, ttlLater, last, ttlLast);
            && v.directories == db.directories
            && CommittedAt(v.files, parent, Name(path)) == {} && WritingAt(v.files, parent, Name(path)) == {second, third}
            && v.files[second] == Reserved(owner, path, parent, later, ttlLater)
            && v.files[third] == Reserved(owner, path, parent, last, ttlLast)
  {
    var b := Uploaded(db, owner, path, first, at, ttl);
    UploadGoesThrough(db, owner, path, parent, first, at, ttl);
    UploadedOnly(db.files, owner, path, parent, first, at, ttl);
    var c := Step(b, Reserve(owner, path, second), later, ttlLater);
    OverwriteGoesThrough(b, owner, path, parent, first, second, later, ttlLater);
    var d := Step(c, Reserve(owner, path, third), last, ttlLast);
    OverwriteGoesThrough(c, owner, path, parent, first, third, last, ttlLast);
    RmGoesThrough(d, owner, path, parent, first, last, ttlLast);
    OneDeleted(d.files, parent, Name(path), first);
  }

  lemma OneDeleted(files: Files, dir: Id, name: string, first: Id)
    requires CommittedAt(files, dir, name) == {first}
    ensures first in files && files[first].state.Committed?
    ensures var after := files[first := files[first].(state := Deleted, expiresAt := None)];
            CommittedAt(after, dir, name) == {} && WritingAt(after, dir, name) == WritingAt(files, dir, name)
  {
    assert first in CommittedAt(files, dir, name);
    var after := files[first := files[first].(state := Deleted, expiresAt := None)];
    forall f ensures f !in CommittedAt(after, dir, name) { assert f != first ==> f !in CommittedAt(files, dir, name); }
    forall f ensures f in WritingAt(after, dir, name) <==> f in WritingAt(files, dir, name) {}
  }

  /** After that the name speaks for all its files exactly if the older overwrite does not outlive the
      newer one; otherwise it stays hidden from the end of the newer one until its own. */
  lemma UnequalReservationsHide(db: Db, owner: Id, path: Path, parent: Id, first: Id, second: Id, third: Id, at: Time, ttl: Time,
                                later: Time, ttlLater: Time, last: Time, ttlLast: Time)
    requires IsEntry(db, owner, path, parent) && IsUnused(db.files, parent, Name(path)) && AreNew(db.files, first, second, third)
    requires ttl > 0 && at <= later < last
    ensures var v := TwoOverwrites(db, owner, path, first, second, third, at, ttl, later, ttlLater, last, ttlLast);
            && (ShownDecides(v.files, parent, Name(path)) <==> later + ttlLater <= last + ttlLast)
            && forall now :: !ShownHolds(v.files, parent, Name(path), now) && Holds(v.files, second, parent, Name(path), now)
                        <==> last + ttlLast <= now < later + ttlLater
  {
    TwoReservationsRemain(db, owner, path, parent, first, second, third, at, ttl, later, ttlLater, last, ttlLast);
    var v := TwoOverwrites(db, owner, path, first, second, third, at, ttl, later, ttlLater, last, ttlLast);
    var name := Name(path);
    ShownFile(v.files, parent, name);
    var shown := GetLiveByName(v.files, parent, name).value;
    assert third in WritingAt(v.files, parent, name);
    assert shown == third;
    ShownSpeaksExactly(v.files, parent, name);
    assert second in WritingAt(v.files, parent, name);
  }

  // ----- What a hidden reservation leads to ---------------------------------------

  lemma {:induction false} MkdirOfLast(dirs: Directories, files: Files, owner: Id, current: Id, names: seq<string>, parent: Id, key: Id, now: Time)
    requires names != [] && Walk(dirs, current, names[..|names| - 1]) == Some(parent)
    requires GetChild(dirs, parent, names[|names| - 1]).None? && !ShownHolds(files, parent, names[|names| - 1], now)
    ensures MkdirFrom(dirs, files, owner, current, names, false, key, now)
         == Ok(dirs[key := Directory(Some(parent), names[|names| - 1], owner, true)])
    decreases |names|
  {
    if |names| > 1 {
      assert names[..|names| - 1][1..] == names[1..][..|names| - 2];
      MkdirOfLast(dirs, files, owner, GetChild(dirs, current, names[0]).value, names[1..], parent, key, now);
    } else {
      assert names[1..] == [];
    }
  }

  /** While a reservation is hidden a directory can take its name, and the reservation can still be
      committed: a live directory and a visible file under one name. */
  lemma HiddenReservationCollides(db: Db, owner: Id, path: Path, parent: Id, file: Id, key: Id, now: Time, ttl: Time)
    requires IsEntry(db, owner, path, parent) && FreshKey(db.directories, key)
    requires file in db.files && db.files[file].owner == owner && CommittedAt(db.files, parent, Name(path)) == {}
    requires !ShownHolds(db.files, parent, Name(path), now) && Holds(db.files, file, parent, Name(path), now)
    ensures var v := Step(Step(db, Mkdir(owner, path, false, key), now, ttl), Commit(owner, file, 0), now, ttl);
            && IsChildOf(v.directories, key, parent, Name(path)) && Visible(v.files, parent, Name(path))
            && !NamesApart(v.directories, v.files, now)
  {
    var name := Name(path);
    MkdirOfLast(db.directories, db.files, owner, GetRoot(db.directories, owner).value, path.segments, parent, key, now);
    var made := Step(db, Mkdir(owner, path, false, key), now, ttl);
    assert made == db.(directories := db.directories[key := Directory(Some(parent), name, owner, true)]);
    assert file !in CommittedAt(db.files, parent, name);
    CommitGoesThrough(made, owner, file, now, ttl);
    var v := Step(made, Commit(owner, file, 0), now, ttl);
    assert v.files[file].state.Committed? && IsAt(v.files[file], parent, name);
    assert Holds(v.files, file, parent, name, now);
  }
}
