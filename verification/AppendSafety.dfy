/** What every execution of the append protocol keeps: appends are serialisable. */
module AppendSafety {
  import opened Common
  import opened Entities
  import opened BlockTable
  import opened Partition
  import opened Tables
  import opened Append
  import opened AppendRuns
  import opened AppendPlanning
  import opened AppendCommitting

  /** What a commit that goes through is known to have checked. */
  lemma CommitEffect(w: World, e: Event)
    requires e.Commit? && TablesOk(w) && StepCommit(w, e) != w
    ensures e.session in w.sessions && e.quorum > 0
    ensures var s := w.sessions[e.session];
            var v := StepCommit(w, e);
            && s.plan.file in w.log && s.plan.file in w.db.files
            && UniqueIndexes(After(w, s))
            && (forall b :: b in s.plan.ids && b in w.db.blocks ==> Holders(w.db.replicas, b) != {})
            && v == w.(db := w.db.(blocks := After(w, s), files := w.db.files[s.plan.file := w.db.files[s.plan.file].(size := s.seen + |s.data|)]),
                       sessions := w.sessions[e.session := s.(done := true)],
                       log := w.log[s.plan.file := if s.done then w.log[s.plan.file] else w.log[s.plan.file] + [s.data]],
                       ever := w.ever + set b | b in s.plan.ids)
  {
    var s := w.sessions[e.session];
    forall b | b in s.plan.ids && b in w.db.blocks ensures Holders(w.db.replicas, b) != {} {
      assert !BelowQuorum(w.db, b, e.quorum);
    }
  }

  lemma CommitKeepsTables(w: World, e: Event)
    requires e.Commit? && TablesOk(w)
    ensures TablesOk(StepCommit(w, e)) && SameSetting(w, StepCommit(w, e))
  {
    if StepCommit(w, e) != w {
      CommitEffect(w, e);
      AfterRows(w, w.sessions[e.session]);
    }
  }

  lemma FirstCommitIsReady(w: World, e: Event)
    requires e.Commit? && TablesOk(w) && StepCommit(w, e) != w && e.session in w.sessions
    requires var s := w.sessions[e.session]; !s.done && SessionOk(w, s) && FileOk(w, s.plan.file)
    ensures Ready(w, w.sessions[e.session]) && w.sessions[e.session].base == |Log(w, w.sessions[e.session].plan.file)|
    ensures Extends(w, StepCommit(w, e), e.session)
  {
    var s := w.sessions[e.session];
    CommitEffect(w, e);
    CommitKeepsTables(w, e);
    if s.base < |Log(w, s.plan.file)| {
      StalePlanAborts(w, s, s.seen + |s.data|, e.quorum, e.fencing, e.at);
    }
    forall b | b in s.plan.ids ensures b in w.disk {
      var k :| 0 <= k < |s.plan.ids| && s.plan.ids[k] == b;
      assert PlannedOk(w, b, s.plan.start + k);
    }
  }

  /** A second commit of the same plan changes the size the file claims and nothing else. */
  lemma ReplayIsInert(w: World, e: Event)
    requires e.Commit? && TablesOk(w) && StepCommit(w, e) != w && e.session in w.sessions
    requires var s := w.sessions[e.session]; s.done && SessionOk(w, s) && FileOk(w, s.plan.file)
    ensures var v := StepCommit(w, e); v == w.(db := w.db.(files := v.db.files))
  {
    var s := w.sessions[e.session];
    CommitEffect(w, e);
    ReplayMovesNothing(w, s);
    forall b | b in s.plan.ids ensures b in w.ever { assert KnownBlock(w, Order(w, s.plan.file), b); }
    assert w.ever + (set b | b in s.plan.ids) == w.ever;
    assert w.log[s.plan.file := w.log[s.plan.file]] == w.log;
  }

  ghost predicate OnlySizes(w: World, v: World) {
    SameSetting(w, v) && v == w.(db := w.db.(files := v.db.files))
  }

  lemma OnlySizesSameFile(w: World, v: World, f: Id)
    requires OnlySizes(w, v)
    ensures SameFile(w, v, f) && v.ever == w.ever && Log(v, f) == Log(w, f)
  {
  }

  lemma ReplayKeepsPending(w: World, v: World, s: Session)
    requires OnlySizes(w, v) && PendingOk(w, s)
    ensures PendingOk(v, s)
  {
    KeepsPending(w, v, s);
  }

  lemma ReplayKeepsOvertaken(w: World, v: World, s: Session)
    requires OnlySizes(w, v)
    ensures Overtaken(w, s) ==> Overtaken(v, s)
  {
  }

  lemma ReplayKeepsContinues(w: World, v: World, s: Session)
    requires OnlySizes(w, v) && FileOk(w, s.plan.file) && Continues(w, s)
    ensures Continues(v, s)
  {
    OnlySizesSameFile(w, v, s.plan.file);
    KeepsContinues(w, v, s);
  }

  lemma ReplayKeepsSettled(w: World, v: World, s: Session)
    requires OnlySizes(w, v) && FileOk(w, s.plan.file) && Settled(w, s)
    ensures Settled(v, s)
  {
    OnlySizesSameFile(w, v, s.plan.file);
    KeepsSettled(w, v, s);
  }

  lemma ReplayKeepsSession(w: World, v: World, s: Session)
    requires OnlySizes(w, v) && SessionOk(w, s) && FileOk(w, s.plan.file)
    ensures SessionOk(v, s)
  {
    OnlySizesSameFile(w, v, s.plan.file);
    if s.done {
      ReplayKeepsSettled(w, v, s);
    } else {
      ReplayKeepsPending(w, v, s);
      ReplayKeepsOvertaken(w, v, s);
      if s.base == |Log(w, s.plan.file)| { ReplayKeepsContinues(w, v, s); }
    }
  }

  lemma ReplayKeepsFile(w: World, v: World, f: Id)
    requires OnlySizes(w, v) && FileOk(w, f)
    ensures FileOk(v, f)
  {
    OnlySizesSameFile(w, v, f);
    KeepsFile(w, v, f);
  }

  lemma ReplayKeepsInv(w: World, v: World)
    requires Inv(w) && OnlySizes(w, v) && TablesOk(v)
    ensures Inv(v)
  {
    forall f | f in v.initial ensures FileOk(v, f) { ReplayKeepsFile(w, v, f); }
    forall c | c in v.sessions ensures SessionOk(v, v.sessions[c]) {
      FileOfSession(w, c);
      ReplayKeepsSession(w, v, w.sessions[c]);
    }
  }

  lemma CommitKeepsInv(w: World, e: Event)
    requires Inv(w) && e.Commit?
    ensures Inv(StepCommit(w, e))
  {
    if StepCommit(w, e) != w {
      CommitEffect(w, e);
      CommitKeepsTables(w, e);
      FileOfSession(w, e.session);
      if w.sessions[e.session].done {
        ReplayIsInert(w, e);
        ReplayKeepsInv(w, StepCommit(w, e));
      } else {
        FirstCommitIsReady(w, e);
        ExtendsKeepsInv(w, StepCommit(w, e), e.session);
      }
    }
  }

  lemma StepKeepsInv(w: World, e: Event)
    requires Inv(w)
    ensures Inv(Step(w, e))
  {
    match e
    case Plan(_, _, _, _, _, _, _) => PlanKeepsInv(w, e);
    case Upload(_, _, _) => UploadKeepsInv(w, e);
    case Commit(_, _, _, _) => CommitKeepsInv(w, e);
    case Other(db, disk) => if LeavesAlone(w, db, disk) { OtherKeepsInv(w, db, disk); }
  }

  /** The bytes a reader sees: the blocks of the file in order of index. */
  function ContentOf(w: World, f: Id): Bytes { Flatten(Contents(w.disk, Order(w, f))) }

  /** In every run, at every moment, a file holds its initial content followed by the appends
      committed so far in commit order; its indexes are 0, 1, ..., its blocks are cut as a file of
      that length is cut, and the committed appends only ever grow. */
  lemma {:induction false} AppendsAreSerialisable(w: World, events: seq<Event>)
    requires Inv(w)
    ensures var v := Run(w, events);
            && Inv(v) && v.initial == w.initial
            && (forall f :: f in w.initial ==>
                  && ContentOf(v, f) == w.initial[f] + Flatten(Log(v, f))
                  && Log(w, f) <= Log(v, f)
                  && IsContiguous(v.db.blocks, f, Order(v, f))
                  && Lengths(Contents(v.disk, Order(v, f))) == PlanSizes(|ContentOf(v, f)|, BlockSize(v, f)))
    decreases |events|
  {
    if events == [] {
      forall f | f in w.initial
        ensures Lengths(Contents(w.disk, Order(w, f))) == PlanSizes(|ContentOf(w, f)|, BlockSize(w, f))
      {
        assert FileOk(w, f);
        var blocks := Contents(w.disk, Order(w, f));
        FlattenLength(blocks);
        PlanIsTheOnlyPartition(Lengths(blocks), Sum(Lengths(blocks)), BlockSize(w, f));
      }
    } else {
      StepKeepsInv(w, events[0]);
      AppendsAreSerialisable(Step(w, events[0]), events[1..]);
      LogOnlyGrows(w, events[0]);
    }
  }

  lemma {:induction false} InvInEveryRun(w: World, events: seq<Event>)
    requires Inv(w)
    ensures Inv(Run(w, events))
    decreases |events|
  {
    if events != [] {
      StepKeepsInv(w, events[0]);
      InvInEveryRun(Step(w, events[0]), events[1..]);
    }
  }

  lemma LogOnlyGrows(w: World, e: Event)
    ensures Step(w, e).initial == w.initial
    ensures forall f :: Log(w, f) <= Log(Step(w, e), f)
  {
  }

  /** A file nobody has touched yet: any set of well-cut files is a legal start. */
  lemma StartIsSound(w: World)
    requires TablesOk(w) && w.sessions == map[] && (forall f :: f in w.initial ==> FileOk(w, f))
    ensures Inv(w)
  {
  }

  // ----- Detached blocks -----------------------------------------------------

  /** A block that an append has taken out of its file. */
  ghost predicate IsReplacedTail(w: World, b: Id) {
    exists c :: c in w.sessions && w.sessions[c].done && w.sessions[c].plan.tail == Some(b)
  }

  lemma ReplacedTailIsLoose(w: World, b: Id)
    requires Inv(w) && IsReplacedTail(w, b)
    ensures NotAttached(w, b)
  {
    var c :| c in w.sessions && w.sessions[c].done && w.sessions[c].plan.tail == Some(b);
    assert SessionOk(w, w.sessions[c]);
  }

  lemma CommitLeavesDetached(w: World, e: Event, b: Id)
    requires Inv(w) && e.Commit? && NotAttached(w, b)
    ensures NotAttached(StepCommit(w, e), b)
  {
    if StepCommit(w, e) != w {
      CommitEffect(w, e);
      FileOfSession(w, e.session);
      if w.sessions[e.session].done {
        ReplayIsInert(w, e);
      } else {
        FirstCommitIsReady(w, e);
        ExtendsRows(w, StepCommit(w, e), e.session);
        if b !in w.sessions[e.session].plan.ids && w.sessions[e.session].plan.tail != Some(b) {
          assert Get(StepCommit(w, e).db.blocks, b) == Get(w.db.blocks, b);
        }
      }
    }
  }

  lemma PlanLeavesDetached(w: World, e: Event, b: Id)
    requires TablesOk(w) && e.Plan? && NotAttached(w, b)
    ensures NotAttached(StepPlan(w, e), b)
  {
    PlanTables(w, e);
    if b in w.db.blocks { assert Get(StepPlan(w, e).db.blocks, b) == Get(w.db.blocks, b); }
  }

  lemma StepLeavesDetached(w: World, e: Event, b: Id)
    requires Inv(w) && NotAttached(w, b)
    ensures NotAttached(Step(w, e), b)
  {
    match e
    case Plan(_, _, _, _, _, _, _) => PlanLeavesDetached(w, e, b);
    case Upload(_, _, _) => if StepUpload(w, e) != w { UploadChanges(w, e); }
    case Commit(_, _, _, _) => CommitLeavesDetached(w, e, b);
    case Other(db, disk) =>
  }

  /** A block that was in a file and is loose is never attached again, whatever is planned, committed or
      committed once more. */
  lemma {:induction false} DetachedForEver(w: World, events: seq<Event>, b: Id)
    requires Inv(w) && NotAttached(w, b)
    ensures Inv(Run(w, events)) && NotAttached(Run(w, events), b)
    decreases |events|
  {
    if events != [] {
      StepKeepsInv(w, events[0]);
      StepLeavesDetached(w, events[0], b);
      DetachedForEver(Step(w, events[0]), events[1..], b);
    }
  }

  lemma PlannedIsNew(w: World, b: Id)
    requires Inv(w) && Planned(w, b)
    ensures b !in w.ever
  {
    var c :| c in w.sessions && !w.sessions[c].done && b in w.sessions[c].plan.ids;
    assert SessionOk(w, w.sessions[c]);
    var k :| 0 <= k < |w.sessions[c].plan.ids| && w.sessions[c].plan.ids[k] == b;
    assert PlannedOk(w, b, w.sessions[c].plan.start + k);
  }
}
