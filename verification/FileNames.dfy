/** Which file a name shows (SqlFileRepository.get_live_by_name and the naming rules of domain/rules.py). */
module FileNames {
  import opened Common
  import opened Entities
  import opened Tree

  predicate IsAt(file: File, dir: Id, name: string) { file.directory == dir && file.name == name }

  function CommittedAt(files: Files, dir: Id, name: string): set<Id> {
    set f | f in files && IsAt(files[f], dir, name) && files[f].state.Committed?
  }

  function WritingAt(files: Files, dir: Id, name: string): set<Id> {
    set f | f in files && IsAt(files[f], dir, name) && files[f].state.Writing?
  }

  predicate IsNewest(files: Files, ids: set<Id>, f: Id) {
    f in ids && f in files && forall g | g in ids :: g in files ==> files[g].createdAt <= files[f].createdAt
  }

  function Newest(files: Files, ids: set<Id>): set<Id> { set f | f in ids && IsNewest(files, ids, f) }

  /** The committed file if there is one, otherwise the newest reservation, expired or not. */
  function GetLiveByName(files: Files, dir: Id, name: string): Option<Id> {
    if CommittedAt(files, dir, name) != {} then First(CommittedAt(files, dir, name))
    else First(Newest(files, WritingAt(files, dir, name)))
  }

  lemma {:induction false} NewestExists(files: Files, ids: set<Id>)
    requires ids != {} && ids <= files.Keys
    ensures Newest(files, ids) != {}
    decreases |ids|
  {
    var x :| x in ids;
    if ids == {x} {
      assert IsNewest(files, ids, x);
      assert x in Newest(files, ids);
    } else {
      NewestExists(files, ids - {x});
      var y :| y in Newest(files, ids - {x});
      var best := if files[x].createdAt <= files[y].createdAt then y else x;
      forall g | g in ids ensures files[g].createdAt <= files[best].createdAt { if g != x { assert g in ids - {x}; } }
      assert best in Newest(files, ids);
    }
  }

  /** What the query returns: a committed file if any, else a newest reservation if any. */
  lemma ShownFile(files: Files, dir: Id, name: string)
    ensures match GetLiveByName(files, dir, name)
            case None => CommittedAt(files, dir, name) == {} && WritingAt(files, dir, name) == {}
            case Some(f) =>
              f in files && IsAt(files[f], dir, name)
              && if CommittedAt(files, dir, name) != {} then files[f].state.Committed?
                 else files[f].state.Writing? && IsNewest(files, WritingAt(files, dir, name), f)
  {
    FirstIsIn(CommittedAt(files, dir, name));
    FirstIsIn(Newest(files, WritingAt(files, dir, name)));
    if WritingAt(files, dir, name) != {} { NewestExists(files, WritingAt(files, dir, name)); }
  }

  /** Every reservation was created in the past and lasts the same time. */
  ghost predicate ReservationsOk(files: Files, now: Time, ttl: Time) {
    forall f :: f in files && files[f].state.Writing? ==>
      files[f].createdAt <= now && files[f].expiresAt == Some(files[f].createdAt + ttl)
  }

  ghost predicate Holds(files: Files, f: Id, dir: Id, name: string, now: Time) {
    f in files && IsAt(files[f], dir, name) && files[f].HoldsName(now)
  }

  predicate ShownHolds(files: Files, dir: Id, name: string, now: Time) {
    var shown := GetLiveByName(files, dir, name);
    shown.Some? && shown.value in files && files[shown.value].HoldsName(now)
  }

  /** Asking the one file a name shows is asking all its files, at every instant. */
  ghost predicate ShownDecides(files: Files, dir: Id, name: string) {
    forall now :: ShownHolds(files, dir, name, now) <==> exists f :: Holds(files, f, dir, name, now)
  }

  /** A reservation without a deadline never expires. */
  predicate Outlasts(a: Option<Time>, b: Option<Time>) { b.Some? && (a.None? || b.value < a.value) }

  /** No reservation of the name expires later than the one it shows. */
  predicate NoneOutlastsShown(files: Files, dir: Id, name: string) {
    var shown := GetLiveByName(files, dir, name);
    shown.Some? && shown.value in files ==>
      forall f | f in WritingAt(files, dir, name) :: !Outlasts(files[f].expiresAt, files[shown.value].expiresAt)
  }

  /** Exactly when the shown file speaks for all: the name has a committed file, or none of its
      reservations outlasts the newest one. */
  lemma ShownSpeaksExactly(files: Files, dir: Id, name: string)
    ensures ShownDecides(files, dir, name) <==> CommittedAt(files, dir, name) != {} || NoneOutlastsShown(files, dir, name)
  {
    ShownFile(files, dir, name);
    if CommittedAt(files, dir, name) != {} || NoneOutlastsShown(files, dir, name) {
      forall now ensures ShownHolds(files, dir, name, now) <==> exists f :: Holds(files, f, dir, name, now) {
        ShownHoldsForAll(files, dir, name, now);
      }
    } else {
      var shown := GetLiveByName(files, dir, name).value;
      var f :| f in WritingAt(files, dir, name) && Outlasts(files[f].expiresAt, files[shown].expiresAt);
      var late := files[shown].expiresAt.value;
      assert Holds(files, f, dir, name, late) && !ShownHolds(files, dir, name, late);
    }
  }

  lemma ShownHoldsForAll(files: Files, dir: Id, name: string, now: Time)
    requires CommittedAt(files, dir, name) != {} || NoneOutlastsShown(files, dir, name)
    ensures ShownHolds(files, dir, name, now) <==> exists f :: Holds(files, f, dir, name, now)
  {
    ShownFile(files, dir, name);
    var shown := GetLiveByName(files, dir, name);
    if shown.Some? && files[shown.value].HoldsName(now) { assert Holds(files, shown.value, dir, name, now); }
    if f :| Holds(files, f, dir, name, now) {
      if files[f].state.Committed? { assert f in CommittedAt(files, dir, name); }
      else { assert f in WritingAt(files, dir, name); }
    }
  }

  /** So it does while all reservations last the same: if the newest has expired, so have the others. */
  lemma ShownSpeaksForAll(files: Files, dir: Id, name: string, now: Time, at: Time, ttl: Time)
    requires ReservationsOk(files, at, ttl)
    ensures ShownHolds(files, dir, name, now) <==> exists f :: Holds(files, f, dir, name, now)
  {
    ShownFile(files, dir, name);
    ShownHoldsForAll(files, dir, name, now);
  }
}
