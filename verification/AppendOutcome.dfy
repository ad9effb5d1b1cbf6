/** When a commit goes through, which size it leaves behind, and what a collector run between the
    plan and the commit costs. */
module AppendOutcome {
  import opened Common
  import opened Entities
  import opened BlockTable
  import opened Partition
  import FileLocks
  import opened Tables
  import opened Append
  import opened AppendRuns
  import opened AppendPlanning
  import opened AppendCommitting
  import opened AppendSafety

  // ----- When a commit goes through -------------------------------------------

  lemma SwapIsUnique(w: World, s: Session)
    requires UniqueIndexes(w.db.blocks) && FileOk(w, s.plan.file) && PendingOk(w, s) && Continues(w, s)
    ensures UniqueIndexes(After(w, s))
  {
    CommittedRows(w, s);
    AfterRows(w, s);
    var after := After(w, s);
    var order := NewOrder(w, s);
    forall a, b | a in after && b in after && a != b && after[a].file.Some? && after[a].file == after[b].file
      ensures after[a].index != after[b].index
    {
      if after[a].file == Some(s.plan.file) {
        assert a in BlocksOf(after, s.plan.file) && b in BlocksOf(after, s.plan.file);
      } else {
        assert after[a] == w.db.blocks[a] && after[b] == w.db.blocks[b];
      }
    }
  }

  lemma CurrentCommitSucceeds(w: World, s: Session, newSize: int, quorum: nat, fencing: Option<FileLocks.LockFencing>, at: Time)
    requires UniqueIndexes(After(w, s)) && Admit(w.db, s.plan.file, fencing, at).Ok?
    requires forall b :: b in s.plan.ids ==> !BelowQuorum(w.db, b, quorum)
    ensures CommitAppend(w.db, s.plan.file, s.plan.ids, newSize, s.plan.tail, quorum, fencing, at).Ok?
  {
  }

  /** Once the file, the lock and the quorum are in order, a first commit goes through exactly when
      no other append was committed after the plan was made. */
  lemma CommitSucceedsExactlyWhenCurrent(w: World, c: Id, newSize: int, quorum: nat, fencing: Option<FileLocks.LockFencing>, at: Time)
    requires Inv(w) && c in w.sessions && !w.sessions[c].done
    requires Admit(w.db, w.sessions[c].plan.file, fencing, at).Ok?
    requires forall b :: b in w.sessions[c].plan.ids ==> !BelowQuorum(w.db, b, quorum)
    ensures var s := w.sessions[c];
            CommitAppend(w.db, s.plan.file, s.plan.ids, newSize, s.plan.tail, quorum, fencing, at).Ok?
            <==> s.base == |Log(w, s.plan.file)|
  {
    FileOfSession(w, c);
    SucceedsExactlyWhenCurrent(w, w.sessions[c], newSize, quorum, fencing, at);
  }

  lemma SucceedsExactlyWhenCurrent(w: World, s: Session, newSize: int, quorum: nat, fencing: Option<FileLocks.LockFencing>, at: Time)
    requires UniqueIndexes(w.db.blocks) && FileOk(w, s.plan.file) && SessionOk(w, s) && !s.done
    requires Admit(w.db, s.plan.file, fencing, at).Ok?
    requires forall b :: b in s.plan.ids ==> !BelowQuorum(w.db, b, quorum)
    ensures CommitAppend(w.db, s.plan.file, s.plan.ids, newSize, s.plan.tail, quorum, fencing, at).Ok?
            <==> s.base == |Log(w, s.plan.file)|
  {
    if s.base < |Log(w, s.plan.file)| {
      StalePlanAborts(w, s, newSize, quorum, fencing, at);
    } else {
      SwapIsUnique(w, s);
      CurrentCommitSucceeds(w, s, newSize, quorum, fencing, at);
    }
  }

  // ----- The size a commit leaves behind --------------------------------------

  ghost predicate SizeIsRight(w: World, f: Id) {
    f in w.db.files && w.db.files[f].size == |ContentOf(w, f)|
  }

  lemma GrownContent(w: World, v: World, c: Id)
    requires Extends(w, v, c) && Ready(w, w.sessions[c])
    ensures var s := w.sessions[c]; ContentOf(v, s.plan.file) == ContentOf(w, s.plan.file) + s.data
  {
    ExtendsOrder(w, v, c);
    CommittedBytes(w, w.sessions[c]);
  }

  /** The commit trusts the size its client read before planning: afterwards the size is the right
      one exactly when that was the length of the file. */
  lemma CommittedSizeIsRightExactlyWhenSeenIs(w: World, e: Event)
    requires Inv(w) && e.Commit? && e.session in w.sessions && !w.sessions[e.session].done && StepCommit(w, e) != w
    ensures var s := w.sessions[e.session];
            SizeIsRight(StepCommit(w, e), s.plan.file) <==> s.seen == |ContentOf(w, s.plan.file)|
  {
    var s := w.sessions[e.session];
    CommitEffect(w, e);
    FileOfSession(w, e.session);
    FirstCommitIsReady(w, e);
    GrownContent(w, StepCommit(w, e), e.session);
  }

  /** A client that reads the size and plans in one go, and commits each plan once. */
  ghost predicate Careful(w: World, e: Event) {
    && (e.Plan? ==> e.file in w.db.files && e.seen == w.db.files[e.file].size)
    && (e.Commit? ==> e.session in w.sessions ==> !w.sessions[e.session].done)
  }

  ghost predicate AllCareful(w: World, events: seq<Event>)
    decreases |events|
  {
    events == [] || (Careful(w, events[0]) && AllCareful(Step(w, events[0]), events[1..]))
  }

  ghost predicate SeenIsRight(w: World, s: Session) {
    !s.done && s.base == |Log(w, s.plan.file)| ==> s.seen == |ContentOf(w, s.plan.file)|
  }

  ghost predicate SizesInv(w: World) {
    && (forall f :: f in w.initial ==> SizeIsRight(w, f))
    && (forall c :: c in w.sessions ==> SeenIsRight(w, w.sessions[c]))
  }

  ghost predicate SameContent(w: World, v: World, f: Id) {
    ContentOf(v, f) == ContentOf(w, f) && |Log(v, f)| == |Log(w, f)|
  }

  lemma UntouchedFile(w: World, v: World, f: Id)
    requires SameSetting(w, v) && SameFile(w, v, f) && FileOk(w, f)
    ensures SameContent(w, v, f)
  {
    KeepsFile(w, v, f);
  }

  /** Only a commit that goes through changes what a reader of the file sees. */
  lemma OnlyCommitsChangeContent(w: World, e: Event, f: Id)
    requires Inv(w) && f in w.initial && !e.Commit?
    ensures SameContent(w, Step(w, e), f)
  {
    assert FileOk(w, f);
    match e
    case Plan(_, _, _, _, _, _, _) => PlanLeavesFile(w, e, f); UntouchedFile(w, Step(w, e), f);
    case Upload(_, _, _) => if Step(w, e) != w { UploadChanges(w, e); UploadLeavesFile(w, e, f); UntouchedFile(w, Step(w, e), f); }
    case Other(db, disk) => if LeavesAlone(w, db, disk) { OtherLeavesFile(w, db, disk, f); UntouchedFile(w, Step(w, e), f); }
  }

  /** Readers of a file see the same bytes until an append to that very file is committed. */
  lemma ContentChangesOnlyByItsCommits(w: World, e: Event, f: Id)
    requires Inv(w) && f in w.initial
    ensures Log(Step(w, e), f) == Log(w, f) ==> ContentOf(Step(w, e), f) == ContentOf(w, f)
  {
    StepKeepsInv(w, e);
    LogOnlyGrows(w, e);
    assert FileOk(w, f) && FileOk(Step(w, e), f);
  }

  lemma NonCommitKeepsFileSize(w: World, e: Event, f: Id)
    requires f in w.db.files && f in w.initial && !e.Commit?
    ensures f in Step(w, e).db.files && Step(w, e).db.files[f].size == w.db.files[f].size
  {
    match e
    case Plan(_, _, _, _, _, _, _) => PlanFiles(w, e);
    case Upload(_, _, _) => if Step(w, e) != w { UploadChanges(w, e); }
    case Other(db, disk) => if LeavesAlone(w, db, disk) { OtherKeepsSize(w, db, disk, f); }
  }

  lemma OtherKeepsSize(w: World, db: Db, disk: map<Id, Bytes>, f: Id)
    requires LeavesAlone(w, db, disk) && f in w.db.files && f in w.initial
    ensures f in db.files && db.files[f].size == w.db.files[f].size
  {
  }

  lemma PlanFiles(w: World, e: Event)
    requires e.Plan?
    ensures StepPlan(w, e).db.files == w.db.files && StepPlan(w, e).log == w.log
  {
    if e.file in w.overhead {
      var used, rows := PlanEffect(w.db, e.file, |e.data|, w.overhead[e.file], e.slots, e.fencing, e.at);
    }
  }

  lemma NonCommitSessions(w: World, e: Event, c: Id)
    requires !e.Commit? && c in Step(w, e).sessions
    ensures (c in w.sessions && Step(w, e).sessions[c] == w.sessions[c]) || (e.Plan? && NewSession(w, e) && c == e.session)
  {
    if e.Plan? { PlanSessions(w, e); }
  }

  lemma NewSessionSeen(w: World, e: Event)
    requires Inv(w) && NewSession(w, e) && Careful(w, e) && SizesInv(w)
    ensures SeenIsRight(Step(w, e), StepPlan(w, e).sessions[e.session])
  {
    var used, rows, s, cut := NewSessionPlan(w, e);
    OnlyCommitsChangeContent(w, e, e.file);
  }

  lemma NonCommitKeepsSizes(w: World, e: Event)
    requires Inv(w) && SizesInv(w) && Careful(w, e) && !e.Commit?
    ensures SizesInv(Step(w, e))
  {
    var v := Step(w, e);
    LogOnlyGrows(w, e);
    forall f | f in v.initial ensures SizeIsRight(v, f) {
      assert SizeIsRight(w, f);
      assert f in w.db.files;
      OnlyCommitsChangeContent(w, e, f);
      NonCommitKeepsFileSize(w, e, f);
    }
    forall c | c in v.sessions ensures SeenIsRight(v, v.sessions[c]) {
      NonCommitSessions(w, e, c);
      if c in w.sessions && v.sessions[c] == w.sessions[c] {
        assert SeenIsRight(w, w.sessions[c]);
        FileOfSession(w, c);
        OnlyCommitsChangeContent(w, e, w.sessions[c].plan.file);
      } else {
        NewSessionSeen(w, e);
      }
    }
  }

  lemma CommitKeepsOtherContent(w: World, v: World, c: Id, f: Id)
    requires Extends(w, v, c) && Ready(w, w.sessions[c]) && FileOk(w, f) && f != w.sessions[c].plan.file
    ensures SameContent(w, v, f)
  {
    ExtendsIsSwap(w, v, c);
    ExtendsLeavesOtherFile(w, v, c, f);
    UntouchedFile(w, v, f);
  }

  /** A first commit goes through: what it changes, and the size it writes. */
  ghost predicate Commits(w: World, v: World, c: Id) {
    && Extends(w, v, c) && Ready(w, w.sessions[c])
    && var s := w.sessions[c];
       && s.base == |Log(w, s.plan.file)|
       && v.db.files == w.db.files[s.plan.file := w.db.files[s.plan.file].(size := s.seen + |s.data|)]
  }

  lemma CommitKeepsSizeOf(w: World, v: World, c: Id, f: Id)
    requires Commits(w, v, c) && FileOk(w, f) && SizeIsRight(w, f) && SeenIsRight(w, w.sessions[c])
    ensures SizeIsRight(v, f)
  {
    if f == w.sessions[c].plan.file { GrownContent(w, v, c); } else { CommitKeepsOtherContent(w, v, c, f); }
  }

  lemma CommitKeepsSeen(w: World, v: World, c: Id, d: Id)
    requires Commits(w, v, c) && d in w.sessions && SeenIsRight(w, w.sessions[d])
    requires FileOk(w, w.sessions[d].plan.file) && w.sessions[d].base <= |Log(w, w.sessions[d].plan.file)|
    ensures d in v.sessions && SeenIsRight(v, v.sessions[d])
  {
    if d != c && w.sessions[d].plan.file != w.sessions[c].plan.file {
      CommitKeepsOtherContent(w, v, c, w.sessions[d].plan.file);
    }
  }

  lemma CarefulCommit(w: World, e: Event)
    requires Inv(w) && Careful(w, e) && e.Commit? && StepCommit(w, e) != w
    ensures Commits(w, StepCommit(w, e), e.session)
  {
    CommitEffect(w, e);
    FileOfSession(w, e.session);
    FirstCommitIsReady(w, e);
  }

  lemma CommitKeepsSession(w: World, v: World, c: Id, d: Id)
    requires Inv(w) && SizesInv(w) && Commits(w, v, c) && d in w.sessions
    ensures d in v.sessions && SeenIsRight(v, v.sessions[d])
  {
    FileOfSession(w, d);
    CommitKeepsSeen(w, v, c, d);
  }

  lemma CommitSetting(w: World, v: World, c: Id)
    requires Commits(w, v, c)
    ensures v.initial == w.initial && v.sessions.Keys == w.sessions.Keys
  {
  }

  lemma CommitKeepsFileSize(w: World, v: World, c: Id, f: Id)
    requires Inv(w) && SizesInv(w) && Commits(w, v, c) && f in w.initial
    ensures SizeIsRight(v, f)
  {
    CommitKeepsSizeOf(w, v, c, f);
  }

  lemma CommitKeepsSizes(w: World, v: World, c: Id)
    requires Inv(w) && SizesInv(w) && Commits(w, v, c)
    ensures SizesInv(v)
  {
    CommitSetting(w, v, c);
    forall f | f in w.initial ensures SizeIsRight(v, f) { CommitKeepsFileSize(w, v, c, f); }
    forall d | d in w.sessions ensures SeenIsRight(v, v.sessions[d]) { CommitKeepsSession(w, v, c, d); }
  }

  lemma StepKeepsSizes(w: World, e: Event)
    requires Inv(w) && SizesInv(w) && Careful(w, e)
    ensures SizesInv(Step(w, e))
  {
    if e.Commit? {
      if StepCommit(w, e) != w { CarefulCommit(w, e); CommitKeepsSizes(w, StepCommit(w, e), e.session); }
    } else {
      NonCommitKeepsSizes(w, e);
    }
  }

  ghost predicate SizeTellsTheTruth(w: World, f: Id) {
    && f in w.initial && f in w.db.files && w.db.files[f].size == |w.initial[f]| + |Flatten(Log(w, f))|
    && |PlanSizes(w.db.files[f].size, BlockSize(w, f))| == |Order(w, f)|
  }

  lemma SizesNow(w: World, f: Id)
    requires FileOk(w, f) && SizeIsRight(w, f)
    ensures SizeTellsTheTruth(w, f)
  {
    BlockCountIsReal(w, f);
  }

  lemma {:induction false} SizesInvInEveryRun(w: World, events: seq<Event>)
    requires Inv(w) && SizesInv(w) && AllCareful(w, events)
    ensures Inv(Run(w, events)) && SizesInv(Run(w, events)) && Run(w, events).initial == w.initial
    decreases |events|
  {
    if events != [] {
      StepKeepsInv(w, events[0]);
      LogOnlyGrows(w, events[0]);
      StepKeepsSizes(w, events[0]);
      SizesInvInEveryRun(Step(w, events[0]), events[1..]);
    }
  }

  /** While every client is careful the recorded size is the length of the content, so the block
      count derived from the size is the real one. */
  lemma SizesStayRight(w: World, events: seq<Event>)
    requires Inv(w) && SizesInv(w) && AllCareful(w, events)
    ensures forall f :: f in w.initial ==> SizeTellsTheTruth(Run(w, events), f)
  {
    SizesInvInEveryRun(w, events);
    AllSizesNow(Run(w, events));
  }

  lemma AllSizesNow(w: World)
    requires Inv(w) && SizesInv(w)
    ensures forall f :: f in w.initial ==> SizeTellsTheTruth(w, f)
  {
    forall f | f in w.initial ensures SizeTellsTheTruth(w, f) { SizesNow(w, f); }
  }

  lemma BlockCountIsReal(w: World, f: Id)
    requires FileOk(w, f)
    ensures |PlanSizes(|ContentOf(w, f)|, BlockSize(w, f))| == |Order(w, f)|
  {
    var blocks := Contents(w.disk, Order(w, f));
    FlattenLength(blocks);
    PlanIsTheOnlyPartition(Lengths(blocks), Sum(Lengths(blocks)), BlockSize(w, f));
  }

  // ----- A collector run between the plan and the commit ------------------------

  function Without(blocks: Blocks, gone: set<Id>): Blocks { map b | b in blocks && b !in gone :: blocks[b] }

  lemma CollectedRows(w: World, s: Session, gone: set<Id>)
    ensures Attach(Detach(Without(w.db.blocks, gone), s.plan.tail), s.plan.ids, s.plan.file) == Without(After(w, s), gone)
  {
    AfterRows(w, s);
  }

  lemma CollectedCommit(w: World, s: Session, gone: set<Id>, newSize: int, quorum: nat, fencing: Option<FileLocks.LockFencing>, at: Time)
    requires Admit(w.db, s.plan.file, fencing, at).Ok? && UniqueIndexes(After(w, s))
    requires forall b :: b in s.plan.ids && b !in gone ==> !BelowQuorum(w.db, b, quorum)
    ensures var r := CommitAppend(w.db.(blocks := Without(w.db.blocks, gone)), s.plan.file, s.plan.ids, newSize, s.plan.tail, quorum, fencing, at);
            r.Ok? && r.value.blocks == Without(After(w, s), gone)
  {
    CollectedRows(w, s, gone);
    var db := w.db.(blocks := Without(w.db.blocks, gone));
    forall b | b in s.plan.ids ensures !BelowQuorum(db, b, quorum) {
      assert b in db.blocks ==> b !in gone;
    }
  }

  /** Loose blocks count as orphans, and a block whose row is gone passes the quorum check. A current
      plan that lost blocks therefore still commits, and the file is left with exactly the planned
      blocks if and only if the collector took none of them. */
  lemma CollectedPlanCommitsShort(w: World, c: Id, gone: set<Id>, newSize: int, quorum: nat,
                                  fencing: Option<FileLocks.LockFencing>, at: Time)
    requires Inv(w) && c in w.sessions && !w.sessions[c].done && w.sessions[c].base == |Log(w, w.sessions[c].plan.file)|
    requires forall b :: b in gone ==> !Attached(w, b)
    requires var plan := w.sessions[c].plan;
             Admit(w.db, plan.file, fencing, at).Ok? && forall b :: b in plan.ids && b !in gone ==> !BelowQuorum(w.db, b, quorum)
    ensures var s := w.sessions[c];
            var db := w.db.(blocks := Without(w.db.blocks, gone));
            var r := CommitAppend(db, s.plan.file, s.plan.ids, newSize, s.plan.tail, quorum, fencing, at);
            && r.Ok? && s.plan.start <= |Order(w, s.plan.file)|
            && (BlocksOf(r.value.blocks, s.plan.file) == (set b | b in NewOrder(w, s)) <==> forall b :: b in s.plan.ids ==> b !in gone)
  {
    FileOfSession(w, c);
    CollectedPlan(w, w.sessions[c], gone, newSize, quorum, fencing, at);
  }

  lemma CollectedPlan(w: World, s: Session, gone: set<Id>, newSize: int, quorum: nat, fencing: Option<FileLocks.LockFencing>, at: Time)
    requires UniqueIndexes(w.db.blocks) && FileOk(w, s.plan.file) && PendingOk(w, s) && Continues(w, s)
    requires forall b :: b in gone ==> !Attached(w, b)
    requires Admit(w.db, s.plan.file, fencing, at).Ok? && forall b :: b in s.plan.ids && b !in gone ==> !BelowQuorum(w.db, b, quorum)
    ensures var r := CommitAppend(w.db.(blocks := Without(w.db.blocks, gone)), s.plan.file, s.plan.ids, newSize, s.plan.tail, quorum, fencing, at);
            && r.Ok? && s.plan.start <= |Order(w, s.plan.file)|
            && (BlocksOf(r.value.blocks, s.plan.file) == (set b | b in NewOrder(w, s)) <==> forall b :: b in s.plan.ids ==> b !in gone)
  {
    SwapIsUnique(w, s);
    CommittedRows(w, s);
    CollectedListing(w, s, gone);
    CollectedCommit(w, s, gone, newSize, quorum, fencing, at);
  }

  lemma CollectedListing(w: World, s: Session, gone: set<Id>)
    requires s.plan.start <= |Order(w, s.plan.file)| && s.plan.file in w.initial
    requires IsContiguous(After(w, s), s.plan.file, NewOrder(w, s))
    requires IsContiguous(w.db.blocks, s.plan.file, Order(w, s.plan.file))
    requires forall b :: b in gone ==> !Attached(w, b)
    ensures BlocksOf(Without(After(w, s), gone), s.plan.file) == (set b | b in NewOrder(w, s))
       <==> forall b :: b in s.plan.ids ==> b !in gone
  {
    var listed := set b | b in NewOrder(w, s);
    var left := BlocksOf(Without(After(w, s), gone), s.plan.file);
    forall b ensures b in left <==> b in listed && b !in gone {
      if b in BlocksOf(After(w, s), s.plan.file) { assert NewOrder(w, s)[After(w, s)[b].index] == b; }
    }
    forall b | b in Order(w, s.plan.file) ensures b !in gone { assert Attached(w, b); }
    forall b | b in listed && b in gone ensures b in s.plan.ids {}
    forall b | b in s.plan.ids ensures b in listed {
      var k :| 0 <= k < |s.plan.ids| && s.plan.ids[k] == b;
      assert NewOrder(w, s)[s.plan.start + k] == b;
    }
  }
}
