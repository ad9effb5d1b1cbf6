/** Planning an append keeps the protocol's invariant: it adds loose blocks under ids never seen, and
    the new session starts exactly where the file ends. */
module AppendPlanning {
  import opened Common
  import opened Entities
  import opened BlockTable
  import opened Partition
  import FileLocks
  import opened Tables
  import opened Append
  import opened AppendRuns

  /** Inserting the rows of a plan: what the tables look like afterwards. */
  ghost predicate PlanInserted(db: Db, after: Db, slots: seq<Slot>, rows: seq<(Id, Block)>) {
    && |rows| == |slots| && FreshSlots(db.blocks, slots)
    && (forall k :: 0 <= k < |rows| ==> rows[k].0 == slots[k].id && rows[k].1.file == None)
    && after == db.(blocks := InsertBlocks(db.blocks, rows), replicas := InsertCopies(db.replicas, PlannedCopies(slots)))
  }

  lemma PlanRowsInserted(db: Db, after: Db, slots: seq<Slot>, rows: seq<(Id, Block)>)
    requires PlanInserted(db, after, slots, rows)
    ensures forall b :: b in db.blocks ==> Get(after.blocks, b) == Get(db.blocks, b)
    ensures forall b :: b in after.blocks && b !in db.blocks ==> after.blocks[b].file == None && exists s :: s in slots && s.id == b
    ensures forall k :: 0 <= k < |rows| ==> rows[k].0 !in db.blocks && Get(after.blocks, rows[k].0) == Some(rows[k].1)
  {
    InsertedRows(db.blocks, slots, rows);
    forall b | b in after.blocks && b !in db.blocks
      ensures after.blocks[b].file == None && exists s :: s in slots && s.id == b
    {
      var k :| 0 <= k < |rows| && rows[k].0 == b && after.blocks[b] == rows[k].1;
      assert slots[k] in slots;
    }
  }

  lemma InsertedCopies(db: Db, after: Db, slots: seq<Slot>, rows: seq<(Id, Block)>)
    requires PlanInserted(db, after, slots, rows)
    requires forall r :: r in db.replicas ==> r.0 in db.blocks
    ensures forall b: Id :: Holders(after.replicas, b) == Holders(db.replicas, b)
    ensures forall r :: r in after.replicas ==> r.0 in after.blocks
  {
    InsertedBlocks(db.blocks, rows);
    forall c | c in PlannedCopies(slots) ensures c.0 in after.blocks && c !in db.replicas {
      var t, n :| t in slots && n in t.nodes && c == (t.id, n);
      var k :| 0 <= k < |slots| && slots[k] == t;
      assert rows[k] in rows;
    }
    forall b: Id ensures Holders(after.replicas, b) == Holders(db.replicas, b) {
      forall n: Id ensures n in Holders(after.replicas, b) <==> n in Holders(db.replicas, b) {
        assert n in Holders(after.replicas, b) <==> (b, n) in after.replicas && after.replicas[(b, n)] == Stored;
        assert n in Holders(db.replicas, b) <==> (b, n) in db.replicas && db.replicas[(b, n)] == Stored;
      }
    }
  }

  /** The rows and the answer of a plan that goes through. */
  ghost predicate PlanMade(db: Db, file: Id, added: int, overhead: nat, used: seq<Slot>, rows: seq<(Id, Block)>, plan: AppendPlan) {
    && file in db.files && db.files[file].blockSize > 0 && added > 0
    && var cut := CutOfFile(db, file, overhead);
       var sizes := PlanSizes(Max(0, cut.tailPlain + added), db.files[file].blockSize);
       && 0 <= cut.tailPlain + added && |used| == |sizes|
       && rows == PlanRows(used, sizes, cut.start, overhead)
       && plan == AppendPlan(file, db.files[file].blockSize, cut.tail, cut.start, SlotIds(used))
  }

  /** A plan either leaves the database as it was or inserts its loose blocks. */
  lemma PlanEffect(db: Db, file: Id, added: int, overhead: nat, slots: seq<Slot>, fencing: Option<FileLocks.LockFencing>, at: Time)
    returns (used: seq<Slot>, rows: seq<(Id, Block)>)
    ensures var (after, r) := PlanAppend(db, file, added, overhead, slots, fencing, at);
            && ((after == db && r.Err?) || PlanInserted(db, after, used, rows))
            && used == slots[..Min(|used|, |slots|)]
            && (r.Ok? ==> PlanMade(db, file, added, overhead, used, rows, r.value))
  {
    var (after, r) := PlanAppend(db, file, added, overhead, slots, fencing, at);
    used, rows := [], [];
    if after != db || r.Ok? {
      var cut := CutOfFile(db, file, overhead);
      var sizes := PlanSizes(cut.tailPlain + added, db.files[file].blockSize);
      used := slots[..|sizes|];
      rows := PlanRows(used, sizes, cut.start, overhead);
    }
  }

  /** Where the plan cuts is where the bytes on disk end. */
  lemma CutIsWhereTheFileEnds(w: World, f: Id)
    requires TablesOk(w) && f in w.initial && FileOk(w, f)
    ensures var order := Order(w, f);
            var cut := CutOfFile(w.db, f, w.overhead[f]);
            && cut.start == Kept(Lengths(Contents(w.disk, order)), BlockSize(w, f))
            && cut.tail == (if cut.start < |order| then Some(order[cut.start]) else None)
            && cut.tailPlain == |TailBytesOf(w.disk, cut.tail)|
            && (cut.tail.Some? ==> cut.tail.value in w.disk && cut.tail.value in w.ever)
  {
    var order := Order(w, f);
    if order != [] {
      var last := order[|order| - 1];
      assert last in order;
      assert w.db.blocks[last].index == |order| - 1;
      assert Lengths(Contents(w.disk, order))[|order| - 1] == |w.disk[last]|;
    }
  }

  /** Planning only adds loose blocks under ids never seen before, with no copy recorded. */
  ghost predicate OnlyPlans(w: World, v: World) {
    && TablesOk(w) && v.disk == w.disk && v.log == w.log && v.ever == w.ever && SameSetting(w, v)
    && (forall b :: b in w.db.blocks ==> Get(v.db.blocks, b) == Get(w.db.blocks, b))
    && (forall b :: b in v.db.blocks && b !in w.db.blocks ==> v.db.blocks[b].file == None && b !in w.ever && b !in w.disk)
    && (forall b: Id :: Holders(v.db.replicas, b) == Holders(w.db.replicas, b))
  }

  /** A planning step leaves the tables alone or inserts its rows, under ids that nobody has seen. */
  lemma PlanStep(w: World, e: Event) returns (used: seq<Slot>, rows: seq<(Id, Block)>)
    requires e.Plan?
    ensures var v := StepPlan(w, e);
            && v == w.(db := v.db, sessions := v.sessions)
            && (v.db == w.db || PlanInserted(w.db, v.db, used, rows))
            && (v.db != w.db ==> forall s :: s in used ==> s.id !in w.disk && s.id !in w.ever)
  {
    used, rows := [], [];
    var v := StepPlan(w, e);
    if v.db != w.db {
      used, rows := PlanEffect(w.db, e.file, |e.data|, w.overhead[e.file], e.slots, e.fencing, e.at);
      forall s | s in used ensures s.id !in w.disk && s.id !in w.ever { assert s in e.slots; }
    }
  }

  lemma InsertedTables(w: World, v: World, used: seq<Slot>, rows: seq<(Id, Block)>)
    requires TablesOk(w) && v == w.(db := v.db, sessions := v.sessions) && PlanInserted(w.db, v.db, used, rows)
    requires forall s :: s in used ==> s.id !in w.disk && s.id !in w.ever
    ensures TablesOk(v) && OnlyPlans(w, v)
  {
    PlanRowsInserted(w.db, v.db, used, rows);
    InsertedCopies(w.db, v.db, used, rows);
    LooseStayUnique(w.db.blocks, v.db.blocks);
  }

  lemma PlanTables(w: World, e: Event)
    requires e.Plan? && TablesOk(w)
    ensures TablesOk(StepPlan(w, e)) && OnlyPlans(w, StepPlan(w, e))
  {
    var used, rows := PlanStep(w, e);
    if StepPlan(w, e).db != w.db { InsertedTables(w, StepPlan(w, e), used, rows); }
  }

  lemma LooseStayUnique(before: Blocks, after: Blocks)
    requires UniqueIndexes(before)
    requires forall b :: b in before ==> Get(after, b) == Get(before, b)
    requires forall b :: b in after && b !in before ==> after[b].file == None
    ensures UniqueIndexes(after)
  {
    forall a, b | a in after && b in after && a != b && after[a].file.Some? && after[a].file == after[b].file
      ensures after[a].index != after[b].index
    {
      assert Get(after, a) == Get(before, a) && Get(after, b) == Get(before, b);
    }
  }

  /** Loose rows added to the table leave a file as it was. */
  lemma LooseRowsLeaveFile(w: World, v: World, f: Id)
    requires v.disk == w.disk && Log(v, f) == Log(w, f)
    requires forall b :: b in w.db.blocks ==> Get(v.db.blocks, b) == Get(w.db.blocks, b)
    requires forall b :: b in v.db.blocks && b !in w.db.blocks ==> v.db.blocks[b].file == None
    ensures SameFile(w, v, f)
  {
    forall b | b in w.db.blocks ensures b in v.db.blocks && v.db.blocks[b] == w.db.blocks[b] {
      assert Get(v.db.blocks, b) == Get(w.db.blocks, b);
    }
  }

  lemma PlanLeavesFile(w: World, e: Event, f: Id)
    requires e.Plan? && TablesOk(w) && f in w.initial && FileOk(w, f)
    ensures SameSetting(w, StepPlan(w, e)) && SameFile(w, StepPlan(w, e), f) && FileOk(StepPlan(w, e), f)
  {
    PlanTables(w, e);
    LooseRowsLeaveFile(w, StepPlan(w, e), f);
    KeepsFile(w, StepPlan(w, e), f);
  }

  lemma PlanKeepsPending(w: World, e: Event, s: Session)
    requires e.Plan? && TablesOk(w) && PendingOk(w, s)
    ensures PendingOk(StepPlan(w, e), s)
    ensures forall b :: b in s.plan.ids ==> Get(StepPlan(w, e).db.blocks, b) == Get(w.db.blocks, b)
  {
    PlanTables(w, e);
    forall b | b in s.plan.ids
      ensures b in w.db.blocks && (Holders(w.db.replicas, b) != {} ==> b in w.disk)
    {
      var k :| 0 <= k < |s.plan.ids| && s.plan.ids[k] == b;
      assert PlannedOk(w, b, s.plan.start + k);
    }
    KeepsPending(w, StepPlan(w, e), s);
  }

  lemma PlanKeepsSettled(w: World, e: Event, s: Session)
    requires e.Plan? && TablesOk(w) && s.plan.file in w.initial && FileOk(w, s.plan.file) && Settled(w, s)
    ensures Settled(StepPlan(w, e), s)
  {
    var v := StepPlan(w, e);
    PlanTables(w, e);
    PlanLeavesFile(w, e, s.plan.file);
    forall b | b in w.ever && b in v.db.blocks ensures b in w.db.blocks && v.db.blocks[b] == w.db.blocks[b] {
      assert Get(v.db.blocks, b) == Get(w.db.blocks, b);
    }
    KeepsSettled(w, v, s);
  }

  lemma PlanKeepsSession(w: World, e: Event, s: Session)
    requires e.Plan? && TablesOk(w) && s.plan.file in w.initial && FileOk(w, s.plan.file) && SessionOk(w, s)
    ensures SessionOk(StepPlan(w, e), s)
  {
    var v := StepPlan(w, e);
    PlanTables(w, e);
    PlanLeavesFile(w, e, s.plan.file);
    if s.done {
      PlanKeepsSettled(w, e, s);
    } else {
      PlanKeepsPending(w, e, s);
      if s.base == |Log(w, s.plan.file)| { KeepsContinues(w, v, s); } else { KeepsFile(w, v, s.plan.file); }
    }
  }

  ghost predicate NewSession(w: World, e: Event) {
    e.Plan? && e.session !in w.sessions && e.session in StepPlan(w, e).sessions
  }

  /** A session and its rows as the plan of an append makes them from the cut. */
  ghost predicate FromCut(w: World, v: World, f: Id, s: Session, used: seq<Slot>, rows: seq<(Id, Block)>, cut: Cut) {
    var sizes := PlanSizes(Max(0, cut.tailPlain + |s.data|), BlockSize(w, f));
    && s.data != [] && !s.done && s.base == |Log(w, f)|
    && |used| == |sizes| && rows == PlanRows(used, sizes, cut.start, Overhead(w, f))
    && s.plan == AppendPlan(f, BlockSize(w, f), cut.tail, cut.start, SlotIds(used))
    && PlanInserted(w.db, v.db, used, rows)
  }

  lemma NewSessionIs(w: World, e: Event)
    requires NewSession(w, e)
    ensures e.file in w.log && e.file in w.overhead
    ensures var (after, r) := PlanAppend(w.db, e.file, |e.data|, w.overhead[e.file], e.slots, e.fencing, e.at);
            && r.Ok? && StepPlan(w, e).db == after
            && StepPlan(w, e).sessions[e.session] == Session(r.value, e.seen, e.data, |w.log[e.file]|, false)
  {
  }

  lemma NewSessionPlan(w: World, e: Event) returns (used: seq<Slot>, rows: seq<(Id, Block)>, s: Session, cut: Cut)
    requires NewSession(w, e) && TablesOk(w)
    ensures e.file in w.initial && e.file in w.db.files && cut == CutOfFile(w.db, e.file, w.overhead[e.file])
    ensures s == StepPlan(w, e).sessions[e.session] && s.seen == e.seen && s.data == e.data
    ensures FromCut(w, StepPlan(w, e), e.file, s, used, rows, cut)
  {
    NewSessionIs(w, e);
    used, rows := PlanEffect(w.db, e.file, |e.data|, w.overhead[e.file], e.slots, e.fencing, e.at);
    s := StepPlan(w, e).sessions[e.session];
    cut := CutOfFile(w.db, e.file, w.overhead[e.file]);
    PlanMadeIsFromCut(w, StepPlan(w, e), e.file, s, used, rows, cut);
  }

  lemma PlanMadeIsFromCut(w: World, v: World, f: Id, s: Session, used: seq<Slot>, rows: seq<(Id, Block)>, cut: Cut)
    requires f in w.overhead && f in w.log && PlanMade(w.db, f, |s.data|, w.overhead[f], used, rows, s.plan)
    requires PlanInserted(w.db, v.db, used, rows) && s.base == |w.log[f]| && !s.done
    requires cut == CutOfFile(w.db, f, w.overhead[f])
    ensures FromCut(w, v, f, s, used, rows, cut)
  {
  }

  lemma NoCopiesOfUnknown(w: World, b: Id)
    requires TablesOk(w) && b !in w.db.blocks
    ensures Holders(w.db.replicas, b) == {}
  {
  }

  /** A session just planned: it starts where the file ends, with one fresh row for every piece. */
  ghost predicate PlannedAs(w: World, v: World, f: Id, s: Session, used: seq<Slot>, rows: seq<(Id, Block)>) {
    var order := Order(w, f);
    var start := Kept(Lengths(Contents(w.disk, order)), BlockSize(w, f));
    var tail := if start < |order| then Some(order[start]) else None;
    var sizes := PlanSizes(|TailBytesOf(w.disk, tail)| + |s.data|, BlockSize(w, f));
    && s.data != [] && !s.done && s.base == |Log(w, f)|
    && |used| == |sizes| && rows == PlanRows(used, sizes, start, Overhead(w, f))
    && s.plan == AppendPlan(f, BlockSize(w, f), tail, start, SlotIds(used))
    && PlanInserted(w.db, v.db, used, rows)
  }

  /** The cut of the plan is where the file ends. */
  ghost predicate CutsAtEnd(w: World, f: Id, cut: Cut) {
    var order := Order(w, f);
    && cut.start == Kept(Lengths(Contents(w.disk, order)), BlockSize(w, f))
    && cut.tail == (if cut.start < |order| then Some(order[cut.start]) else None)
    && cut.tailPlain == |TailBytesOf(w.disk, cut.tail)|
  }

  lemma PlannedFromCut(w: World, v: World, f: Id, s: Session, used: seq<Slot>, rows: seq<(Id, Block)>, cut: Cut)
    requires CutsAtEnd(w, f, cut) && FromCut(w, v, f, s, used, rows, cut)
    ensures PlannedAs(w, v, f, s, used, rows)
  {
  }

  lemma CutOfFileCutsAtEnd(w: World, f: Id, cut: Cut)
    requires TablesOk(w) && f in w.initial && FileOk(w, f) && cut == CutOfFile(w.db, f, w.overhead[f])
    ensures CutsAtEnd(w, f, cut) && (cut.tail.Some? ==> cut.tail.value in w.ever)
  {
    CutIsWhereTheFileEnds(w, f);
  }

  lemma NewSessionIsPlanned(w: World, v: World, e: Event) returns (used: seq<Slot>, rows: seq<(Id, Block)>, s: Session)
    requires NewSession(w, e) && v == StepPlan(w, e) && TablesOk(w) && e.file in w.initial && FileOk(w, e.file)
    ensures s == v.sessions[e.session] && PlannedAs(w, v, e.file, s, used, rows)
    ensures s.plan.tail.Some? ==> s.plan.tail.value in w.ever
  {
    var cut;
    used, rows, s, cut := NewSessionPlan(w, e);
    CutOfFileCutsAtEnd(w, e.file, cut);
    PlannedFromCut(w, v, e.file, s, used, rows, cut);
  }

  lemma NewRow(w: World, v: World, f: Id, s: Session, used: seq<Slot>, rows: seq<(Id, Block)>, k: nat)
    requires PlannedAs(w, v, f, s, used, rows) && k < |s.plan.ids|
    ensures k < |rows| && rows[k].0 == s.plan.ids[k] && s.plan.ids[k] !in w.db.blocks
    ensures s.plan.ids[k] in v.db.blocks && v.db.blocks[s.plan.ids[k]] == rows[k].1
  {
    PlanRowsInserted(w.db, v.db, used, rows);
    assert Get(v.db.blocks, rows[k].0) == Some(rows[k].1);
  }

  lemma NewRowIsPlanned(w: World, v: World, f: Id, s: Session, used: seq<Slot>, rows: seq<(Id, Block)>, k: nat)
    requires OnlyPlans(w, v) && PlannedAs(w, v, f, s, used, rows) && k < |s.plan.ids|
    ensures PlannedOk(v, s.plan.ids[k], s.plan.start + k)
  {
    NewRow(w, v, f, s, used, rows, k);
    NoCopiesOfUnknown(w, s.plan.ids[k]);
  }

  lemma PlannedIsPending(w: World, v: World, f: Id, s: Session, used: seq<Slot>, rows: seq<(Id, Block)>)
    requires OnlyPlans(w, v) && PlannedAs(w, v, f, s, used, rows)
    ensures PendingOk(v, s)
    ensures forall b :: b in s.plan.ids ==> b !in w.db.blocks && b !in w.ever
  {
    forall k | 0 <= k < |s.plan.ids| ensures PlannedOk(v, s.plan.ids[k], s.plan.start + k) && s.plan.ids[k] !in w.db.blocks {
      NewRow(w, v, f, s, used, rows, k);
      NewRowIsPlanned(w, v, f, s, used, rows, k);
    }
  }

  lemma NewRowIsPiece(w: World, v: World, f: Id, s: Session, used: seq<Slot>, rows: seq<(Id, Block)>, pieces: seq<Bytes>, k: nat)
    requires OnlyPlans(w, v) && f in w.initial && PlannedAs(w, v, f, s, used, rows) && k < |s.plan.ids|
    requires Lengths(pieces) == PlanSizes(|TailBytesOf(w.disk, s.plan.tail)| + |s.data|, BlockSize(w, f)) && |pieces| == |s.plan.ids|
    ensures PieceOk(v, f, s.plan.ids[k], pieces[k])
  {
    NewRow(w, v, f, s, used, rows, k);
    assert Lengths(pieces)[k] == |pieces[k]|;
  }

  lemma PlannedPieces(w: World, v: World, f: Id, s: Session, used: seq<Slot>, rows: seq<(Id, Block)>)
    requires OnlyPlans(w, v) && PlannedAs(w, v, f, s, used, rows) && f in w.initial
    ensures |s.plan.ids| == |Pieces(v, s)|
    ensures forall k :: 0 <= k < |s.plan.ids| ==> PieceOk(v, f, s.plan.ids[k], Pieces(v, s)[k])
  {
    var pieces := Pieces(v, s);
    SlicesRejoin(TailBytesOf(w.disk, s.plan.tail) + s.data, s.plan.blockSize);
    assert |Lengths(pieces)| == |pieces|;
    forall k | 0 <= k < |s.plan.ids| ensures PieceOk(v, f, s.plan.ids[k], pieces[k]) {
      NewRowIsPiece(w, v, f, s, used, rows, pieces, k);
    }
  }

  lemma PlannedContinues(w: World, v: World, f: Id, s: Session, used: seq<Slot>, rows: seq<(Id, Block)>)
    requires OnlyPlans(w, v) && PlannedAs(w, v, f, s, used, rows) && f in w.initial && FileOk(w, f)
    ensures Continues(v, s)
  {
    LooseRowsLeaveFile(w, v, f);
    KeepsFile(w, v, f);
    PlannedPieces(w, v, f, s, used, rows);
  }

  lemma PlannedIsOk(w: World, v: World, f: Id, s: Session, used: seq<Slot>, rows: seq<(Id, Block)>)
    requires OnlyPlans(w, v) && PlannedAs(w, v, f, s, used, rows) && f in w.initial && FileOk(w, f)
    requires s.plan.tail.Some? ==> s.plan.tail.value in w.ever
    ensures SessionOk(v, s) && forall b :: b in s.plan.ids ==> b !in w.db.blocks && b !in w.ever
  {
    PlannedIsPending(w, v, f, s, used, rows);
    PlannedContinues(w, v, f, s, used, rows);
  }

  lemma NewSessionIsOk(w: World, e: Event)
    requires NewSession(w, e) && TablesOk(w) && e.file in w.initial && FileOk(w, e.file)
    ensures SessionOk(StepPlan(w, e), StepPlan(w, e).sessions[e.session])
    ensures forall b :: b in StepPlan(w, e).sessions[e.session].plan.ids ==> b !in w.db.blocks && b !in w.ever
  {
    var used, rows, s := NewSessionIsPlanned(w, StepPlan(w, e), e);
    PlanTables(w, e);
    PlannedIsOk(w, StepPlan(w, e), e.file, s, used, rows);
  }

  lemma KnownIds(w: World, s: Session)
    requires SessionOk(w, s)
    ensures forall b :: b in s.plan.ids ==> b in w.db.blocks || b in w.ever
  {
    if !s.done {
      forall b | b in s.plan.ids ensures b in w.db.blocks {
        var k :| 0 <= k < |s.plan.ids| && s.plan.ids[k] == b;
        assert PlannedOk(w, b, s.plan.start + k);
      }
    }
  }

  lemma PlanSessions(w: World, e: Event)
    requires e.Plan?
    ensures forall c :: c in w.sessions ==> c in StepPlan(w, e).sessions && StepPlan(w, e).sessions[c] == w.sessions[c]
    ensures forall c :: c in StepPlan(w, e).sessions && c !in w.sessions ==> c == e.session && NewSession(w, e)
  {
  }

  /** A session whose blocks nobody knows yet is apart from all the others. */
  lemma NewcomerIsDisjoint(w: World, v: World, c: Id)
    requires Disjoint(w) && c in v.sessions
    requires forall d :: d in v.sessions && d != c ==> d in w.sessions && v.sessions[d] == w.sessions[d]
    requires forall d :: d in w.sessions ==> forall b :: b in w.sessions[d].plan.ids ==> b in w.db.blocks || b in w.ever
    requires forall b :: b in v.sessions[c].plan.ids ==> b !in w.db.blocks && b !in w.ever
    ensures Disjoint(v)
  {
  }

  lemma PlanKeepsDisjoint(w: World, e: Event)
    requires e.Plan? && TablesOk(w) && Disjoint(w)
    requires forall f :: f in w.initial ==> FileOk(w, f)
    requires forall c :: c in w.sessions ==> forall b :: b in w.sessions[c].plan.ids ==> b in w.db.blocks || b in w.ever
    ensures Disjoint(StepPlan(w, e))
  {
    PlanSessions(w, e);
    if NewSession(w, e) {
      NewSessionFile(w, e);
      NewSessionIsOk(w, e);
      NewcomerIsDisjoint(w, StepPlan(w, e), e.session);
    }
  }

  lemma NewSessionFile(w: World, e: Event)
    requires NewSession(w, e) && TablesOk(w)
    ensures e.file in w.initial
  {
    var used, rows, s, cut := NewSessionPlan(w, e);
  }

  lemma PlanKeepsSessionOf(w: World, e: Event, c: Id)
    requires Inv(w) && e.Plan? && c in StepPlan(w, e).sessions
    ensures SessionOk(StepPlan(w, e), StepPlan(w, e).sessions[c])
  {
    PlanSessions(w, e);
    if c in w.sessions {
      assert SessionOk(w, w.sessions[c]) && FileOk(w, w.sessions[c].plan.file);
      PlanKeepsSession(w, e, w.sessions[c]);
    } else {
      var used, rows, s, cut := NewSessionPlan(w, e);
      assert FileOk(w, e.file);
      NewSessionIsOk(w, e);
    }
  }

  lemma PlanKeepsInv(w: World, e: Event)
    requires Inv(w) && e.Plan?
    ensures Inv(StepPlan(w, e))
  {
    var v := StepPlan(w, e);
    PlanTables(w, e);
    forall c | c in w.sessions ensures forall b :: b in w.sessions[c].plan.ids ==> b in w.db.blocks || b in w.ever {
      KnownIds(w, w.sessions[c]);
    }
    PlanKeepsDisjoint(w, e);
    forall f | f in w.initial ensures FileOk(v, f) { PlanLeavesFile(w, e, f); }
    forall c | c in v.sessions ensures SessionOk(v, v.sessions[c]) { PlanKeepsSessionOf(w, e, c); }
  }
}
