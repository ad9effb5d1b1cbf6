/** Any number of clients planning, uploading and committing appends, interleaved with every
    other command. UNIQUE (file_id, index) alone makes the committed appends serialisable. */
module AppendRuns {
  import opened Common
  import opened Entities
  import opened BlockTable
  import opened Partition
  import opened FileLocks
  import opened Tables
  import opened Append

  /** A client's append in progress. `seen` is the file size it read before planning, in a
      separate request; `base` counts the appends committed when it planned. */
  datatype Session = Session(plan: AppendPlan, seen: int, data: Bytes, base: nat, done: bool)

  /** The database and the (clear) bytes on disk, with the history of committed appends.
      `initial` holds the content every followed file had at the start and `overhead` what its
      cipher adds to a block; `ever` are the blocks that have been part of a followed file. */
  datatype World = World(db: Db, disk: map<Id, Bytes>, sessions: map<Id, Session>,
                         initial: map<Id, Bytes>, overhead: map<Id, nat>, log: map<Id, seq<Bytes>>, ever: set<Id>)

  datatype Event =
    | Plan(session: Id, file: Id, seen: int, data: Bytes, slots: seq<Slot>, fencing: Option<LockFencing>, at: Time)
    | Upload(session: Id, k: nat, node: Id)
    | Commit(session: Id, quorum: nat, fencing: Option<LockFencing>, at: Time)
    | Other(db: Db, disk: map<Id, Bytes>)

  // ----- Steps ---------------------------------------------------------------

  /** The bytes of a block, nothing when it is not on disk. */
  function BytesOf(disk: map<Id, Bytes>, b: Id): Bytes { if b in disk then disk[b] else [] }

  function TailBytesOf(disk: map<Id, Bytes>, tail: Option<Id>): Bytes {
    if tail.Some? then BytesOf(disk, tail.value) else []
  }

  function StepPlan(w: World, e: Event): World
    requires e.Plan?
  {
    if e.session in w.sessions || e.file !in w.log || e.file !in w.overhead || (exists s | s in e.slots :: s.id in w.disk || s.id in w.ever) then w else
    var (db, r) := PlanAppend(w.db, e.file, |e.data|, w.overhead[e.file], e.slots, e.fencing, e.at);
    match r
    case Err(_) => w.(db := db)
    case Ok(plan) =>
      w.(db := db, sessions := w.sessions[e.session := Session(plan, e.seen, e.data, |w.log[e.file]|, false)])
  }

  /** One copy of one planned block reaches a node, which stores it and says so. Blocks already on
      disk are never overwritten. */
  function StepUpload(w: World, e: Event): World
    requires e.Upload?
  {
    if e.session !in w.sessions then w else
    var s := w.sessions[e.session];
    if e.k >= |s.plan.ids| || (s.plan.tail.Some? && s.plan.tail.value !in w.disk) then w else
    var id := s.plan.ids[e.k];
    var bytes := Window(TailBytesOf(w.disk, s.plan.tail) + s.data, s.plan.blockSize, e.k);
    w.(disk := if id in w.disk then w.disk else w.disk[id := bytes],
       db := if (id, e.node) in w.db.replicas then w.db.(replicas := w.db.replicas[(id, e.node) := Stored]) else w.db)
  }

  function StepCommit(w: World, e: Event): World
    requires e.Commit?
  {
    if e.session !in w.sessions || e.quorum == 0 || w.sessions[e.session].plan.file !in w.log then w else
    var s := w.sessions[e.session];
    var f := s.plan.file;
    match CommitAppend(w.db, f, s.plan.ids, s.seen + |s.data|, s.plan.tail, e.quorum, e.fencing, e.at)
    case Err(_) => w
    case Ok(db) =>
      w.(db := db, sessions := w.sessions[e.session := s.(done := true)],
         log := w.log[f := if s.done then w.log[f] else w.log[f] + [s.data]],
         ever := w.ever + set b | b in s.plan.ids)
  }

  ghost predicate Planned(w: World, b: Id) {
    exists c :: c in w.sessions && !w.sessions[c].done && b in w.sessions[c].plan.ids
  }

  ghost predicate Attached(w: World, b: Id) {
    b in w.db.blocks && w.db.blocks[b].file.Some? && w.db.blocks[b].file.value in w.initial
  }

  /** What every other command does to this part of the database. The blocks of followed files and
      those of uncommitted plans stay as they are, bytes included, and a copy of them is only recorded
      where there are bytes. Loose blocks of no uncommitted plan may be collected, never reused. */
  ghost predicate LeavesAlone(w: World, db: Db, disk: map<Id, Bytes>) {
    && (forall f :: f in w.initial && f in w.db.files ==>
          f in db.files && db.files[f].size == w.db.files[f].size && db.files[f].blockSize == w.db.files[f].blockSize)
    && (forall b :: Attached(w, b) || Planned(w, b) ==>
          Get(db.blocks, b) == Get(w.db.blocks, b) && Get(disk, b) == Get(w.disk, b)
          && (Holders(db.replicas, b) != {} ==> b in disk))
    && (forall b :: b in db.blocks && b in w.ever ==> b in w.db.blocks && db.blocks[b] == w.db.blocks[b])
    && (forall b :: b in db.blocks && db.blocks[b].file.Some? && db.blocks[b].file.value in w.initial ==> Attached(w, b))
    && UniqueIndexes(db.blocks)
    && (forall r :: r in db.replicas ==> r.0 in db.blocks)
  }

  ghost function Step(w: World, e: Event): World {
    match e
    case Plan(_, _, _, _, _, _, _) => StepPlan(w, e)
    case Upload(_, _, _) => StepUpload(w, e)
    case Commit(_, _, _, _) => StepCommit(w, e)
    case Other(db, disk) => if LeavesAlone(w, db, disk) then w.(db := db, disk := disk) else w
  }

  ghost function Run(w: World, events: seq<Event>): World
    decreases |events|
  {
    if events == [] then w else Run(Step(w, events[0]), events[1..])
  }

  // ----- What every run keeps ------------------------------------------------

  function Order(w: World, f: Id): seq<Id> { ListForFile(w.db.blocks, f) }

  function Contents(disk: map<Id, Bytes>, order: seq<Id>): (r: seq<Bytes>)
    ensures |r| == |order|
    ensures forall i :: 0 <= i < |r| ==> r[i] == BytesOf(disk, order[i])
  {
    seq(|order|, i requires 0 <= i < |order| => BytesOf(disk, order[i]))
  }

  function BlockSize(w: World, f: Id): nat {
    if f in w.db.files && w.db.files[f].blockSize > 0 then w.db.files[f].blockSize else 1
  }

  function Overhead(w: World, f: Id): nat { if f in w.overhead then w.overhead[f] else 0 }

  function Log(w: World, f: Id): seq<Bytes> { if f in w.log then w.log[f] else [] }

  ghost predicate TablesOk(w: World) {
    && w.overhead.Keys == w.initial.Keys && w.log.Keys == w.initial.Keys
    && (forall f :: f in w.initial ==> f in w.db.files && w.db.files[f].blockSize > 0)
    && UniqueIndexes(w.db.blocks)
    && (forall r :: r in w.db.replicas ==> r.0 in w.db.blocks)
  }

  /** Every listed block is on disk with the size its row says. */
  ghost predicate OnDisk(w: World, f: Id, order: seq<Id>) {
    forall b :: b in order ==>
      b in w.disk && b in w.ever && b in w.db.blocks && w.db.blocks[b].size == |w.disk[b]| + Overhead(w, f)
  }

  /** The file holds its initial content followed by the committed appends, cut as planned. */
  ghost predicate FileOk(w: World, f: Id) {
    var order := Order(w, f);
    && f in w.initial
    && IsContiguous(w.db.blocks, f, order)
    && OnDisk(w, f, order)
    && IsPartition(Lengths(Contents(w.disk, order)), BlockSize(w, f))
    && Flatten(Contents(w.disk, order)) == w.initial[f] + Flatten(Log(w, f))
  }

  /** The slices a session uploads. */
  ghost function Pieces(w: World, s: Session): seq<Bytes> {
    Slices(TailBytesOf(w.disk, s.plan.tail) + s.data, BlockSize(w, s.plan.file))
  }

  /** An uncommitted block is loose, at its final position, and has copies only if it has bytes. */
  ghost predicate PlannedOk(w: World, id: Id, index: nat) {
    && id in w.db.blocks && w.db.blocks[id].file == None && w.db.blocks[id].index == index
    && id !in w.ever
    && (Holders(w.db.replicas, id) != {} ==> id in w.disk)
  }

  ghost predicate PieceOk(w: World, f: Id, id: Id, piece: Bytes) {
    && id in w.db.blocks && w.db.blocks[id].size == |piece| + Overhead(w, f)
    && (id in w.disk ==> w.disk[id] == piece)
  }

  ghost predicate PendingOk(w: World, s: Session) {
    && s.plan.ids != []
    && (forall j, k :: 0 <= j < k < |s.plan.ids| ==> s.plan.ids[j] != s.plan.ids[k])
    && (forall k :: 0 <= k < |s.plan.ids| ==> PlannedOk(w, s.plan.ids[k], s.plan.start + k))
  }

  /** Nothing was committed since the plan: it continues exactly where the file ends, and its
      blocks hold their pieces of the old tail and the new bytes. */
  ghost predicate Continues(w: World, s: Session) {
    var order := Order(w, s.plan.file);
    var pieces := Pieces(w, s);
    && s.data != [] && s.plan.blockSize == BlockSize(w, s.plan.file)
    && s.plan.start == Kept(Lengths(Contents(w.disk, order)), s.plan.blockSize)
    && s.plan.tail == (if s.plan.start < |order| then Some(order[s.plan.start]) else None)
    && |s.plan.ids| == |pieces|
    && (forall k :: 0 <= k < |s.plan.ids| ==> PieceOk(w, s.plan.file, s.plan.ids[k], pieces[k]))
  }

  /** The position the plan starts at is taken by a block it does not replace. */
  ghost predicate Overtaken(w: World, s: Session) {
    var order := Order(w, s.plan.file);
    s.plan.start < |order| && s.plan.tail != Some(order[s.plan.start])
  }

  ghost predicate NotAttached(w: World, b: Id) {
    b in w.ever && (b in w.db.blocks ==> w.db.blocks[b].file == None)
  }

  /** All the blocks of a committed plan but the last are in place. */
  ghost predicate FrontInPlace(order: seq<Id>, start: nat, ids: seq<Id>) {
    start + |ids| <= |order| && forall k :: 0 <= k < |ids| - 1 ==> ids[k] == order[start + k]
  }

  /** The last one is in place too, or a later append has replaced it. */
  ghost predicate LastSettled(w: World, order: seq<Id>, index: nat, last: Id)
    requires index < |order|
  {
    order[index] == last || (last !in order && (last in w.db.blocks ==> w.db.blocks[last].index == index))
  }

  ghost predicate KnownBlock(w: World, order: seq<Id>, b: Id) {
    b in w.ever && (b in w.db.blocks ==> w.db.blocks[b].file == None || b in order)
  }

  /** Where a committed plan stands. */
  ghost predicate Settled(w: World, s: Session) {
    var order := Order(w, s.plan.file);
    var n := |s.plan.ids|;
    && n > 0
    && (forall b :: b in s.plan.ids ==> KnownBlock(w, order, b))
    && (s.plan.tail.Some? ==> NotAttached(w, s.plan.tail.value))
    && FrontInPlace(order, s.plan.start, s.plan.ids)
    && LastSettled(w, order, s.plan.start + n - 1, s.plan.ids[n - 1])
  }

  ghost predicate SessionOk(w: World, s: Session) {
    var commits := |Log(w, s.plan.file)|;
    && s.plan.file in w.initial && s.base <= commits
    && (s.plan.tail.Some? ==> s.plan.tail.value in w.ever)
    && (if s.done then Settled(w, s)
        else PendingOk(w, s) && if s.base == commits then Continues(w, s) else Overtaken(w, s))
  }

  ghost predicate Disjoint(w: World) {
    forall c, d :: c in w.sessions && d in w.sessions && c != d ==>
      forall b :: b in w.sessions[c].plan.ids ==> b !in w.sessions[d].plan.ids
  }

  ghost predicate Inv(w: World) {
    && TablesOk(w)
    && (forall f :: f in w.initial ==> FileOk(w, f))
    && (forall c :: c in w.sessions ==> SessionOk(w, w.sessions[c]))
    && Disjoint(w)
  }

  // ----- Frames --------------------------------------------------------------

  ghost predicate SameSetting(w: World, v: World) {
    && w.overhead == v.overhead && w.initial == v.initial && w.ever <= v.ever
    && (forall f :: f in w.initial ==> BlockSize(v, f) == BlockSize(w, f))
  }

  /** A file whose rows and bytes are untouched. */
  ghost predicate SameFile(w: World, v: World, f: Id) {
    && BlocksOf(w.db.blocks, f) == BlocksOf(v.db.blocks, f)
    && (forall b :: b in BlocksOf(w.db.blocks, f) ==> v.db.blocks[b] == w.db.blocks[b])
    && (forall b :: b in BlocksOf(w.db.blocks, f) ==> Get(v.disk, b) == Get(w.disk, b))
    && Log(v, f) == Log(w, f)
  }

  lemma KeepsOrder(w: World, v: World, f: Id)
    requires SameFile(w, v, f) && IsContiguous(w.db.blocks, f, Order(w, f))
    ensures IsContiguous(v.db.blocks, f, Order(w, f))
    ensures Order(v, f) == Order(w, f)
    ensures forall b :: b in Order(w, f) ==> b in BlocksOf(w.db.blocks, f)
  {
    ListingIs(v.db.blocks, f, Order(w, f));
  }

  lemma KeepsContents(w: World, v: World, f: Id, order: seq<Id>)
    requires SameFile(w, v, f) && forall b :: b in order ==> b in BlocksOf(w.db.blocks, f)
    ensures Contents(v.disk, order) == Contents(w.disk, order)
    ensures w.overhead == v.overhead && w.ever <= v.ever && OnDisk(w, f, order) ==> OnDisk(v, f, order)
  {
    forall b | b in order ensures Get(v.disk, b) == Get(w.disk, b) {}
    forall i | 0 <= i < |order| ensures Contents(v.disk, order)[i] == Contents(w.disk, order)[i] {
      assert order[i] in order;
      assert Get(v.disk, order[i]) == Get(w.disk, order[i]);
    }
    assert Contents(v.disk, order) == Contents(w.disk, order);
  }

  lemma KeepsFile(w: World, v: World, f: Id)
    requires SameSetting(w, v) && SameFile(w, v, f) && FileOk(w, f)
    ensures FileOk(v, f)
    ensures Order(v, f) == Order(w, f) && Contents(v.disk, Order(v, f)) == Contents(w.disk, Order(w, f))
  {
    KeepsOrder(w, v, f);
    KeepsContents(w, v, f, Order(w, f));
  }

  /** The tail of a plan that still continues its file is the file's last block. */
  lemma TailIsListed(w: World, s: Session)
    requires FileOk(w, s.plan.file) && Continues(w, s) && s.plan.tail.Some?
    ensures s.plan.tail.value in BlocksOf(w.db.blocks, s.plan.file) && s.plan.tail.value in w.disk
  {
    assert Order(w, s.plan.file)[s.plan.start] == s.plan.tail.value;
  }

  lemma KeepsContinues(w: World, v: World, s: Session)
    requires SameSetting(w, v) && SameFile(w, v, s.plan.file) && FileOk(w, s.plan.file) && Continues(w, s)
    requires forall b :: b in s.plan.ids ==> Get(v.db.blocks, b) == Get(w.db.blocks, b)
    requires forall b :: b in s.plan.ids ==> Get(v.disk, b) == Get(w.disk, b)
    ensures Continues(v, s)
  {
    KeepsFile(w, v, s.plan.file);
    if s.plan.tail.Some? {
      TailIsListed(w, s);
      assert Get(v.disk, s.plan.tail.value) == Get(w.disk, s.plan.tail.value);
    }
    assert Pieces(v, s) == Pieces(w, s);
    forall k | 0 <= k < |s.plan.ids| ensures PieceOk(v, s.plan.file, s.plan.ids[k], Pieces(v, s)[k]) {
      var id := s.plan.ids[k];
      assert PieceOk(w, s.plan.file, id, Pieces(w, s)[k]);
      assert Get(v.db.blocks, id) == Get(w.db.blocks, id) && Get(v.disk, id) == Get(w.disk, id);
    }
  }

  lemma KeepsPending(w: World, v: World, s: Session)
    requires PendingOk(w, s)
    requires forall b :: b in s.plan.ids ==> Get(v.db.blocks, b) == Get(w.db.blocks, b) && (b in v.ever ==> b in w.ever)
    requires forall b :: b in s.plan.ids ==> (Holders(v.db.replicas, b) != {} ==> b in v.disk)
    ensures PendingOk(v, s)
  {
    forall k | 0 <= k < |s.plan.ids| ensures PlannedOk(v, s.plan.ids[k], s.plan.start + k) {
      var id := s.plan.ids[k];
      assert PlannedOk(w, id, s.plan.start + k);
      assert Get(v.db.blocks, id) == Get(w.db.blocks, id);
    }
  }

  lemma KeepsSettled(w: World, v: World, s: Session)
    requires w.ever <= v.ever && SameFile(w, v, s.plan.file) && IsContiguous(w.db.blocks, s.plan.file, Order(w, s.plan.file))
    requires Settled(w, s)
    requires forall b :: b in w.ever && b in v.db.blocks ==> b in w.db.blocks && v.db.blocks[b] == w.db.blocks[b]
    ensures Settled(v, s)
  {
    KeepsOrder(w, v, s.plan.file);
    var order := Order(w, s.plan.file);
    forall b | b in s.plan.ids ensures KnownBlock(v, order, b) { assert KnownBlock(w, order, b); }
    assert KnownBlock(w, order, s.plan.ids[|s.plan.ids| - 1]);
  }

  // ----- One step at a time --------------------------------------------------

  lemma PlannedIds(w: World, c: Id)
    requires c in w.sessions && !w.sessions[c].done
    ensures forall b :: b in w.sessions[c].plan.ids ==> Planned(w, b)
  {
  }

  lemma ListedAreAttached(w: World, f: Id)
    requires f in w.initial
    ensures forall b :: b in BlocksOf(w.db.blocks, f) ==> Attached(w, b)
  {
  }

  lemma OtherLeavesFile(w: World, db: Db, disk: map<Id, Bytes>, f: Id)
    requires LeavesAlone(w, db, disk) && f in w.initial
    ensures SameFile(w, w.(db := db, disk := disk), f)
  {
    ListedAreAttached(w, f);
    forall b | b in BlocksOf(w.db.blocks, f)
      ensures b in BlocksOf(db.blocks, f) && db.blocks[b] == w.db.blocks[b] && Get(disk, b) == Get(w.disk, b)
    {
      assert Attached(w, b);
      assert Get(db.blocks, b) == Get(w.db.blocks, b);
    }
    forall b | b in BlocksOf(db.blocks, f) ensures b in BlocksOf(w.db.blocks, f) {
      assert Attached(w, b);
      assert Get(db.blocks, b) == Get(w.db.blocks, b);
    }
  }

  lemma OtherKeepsSession(w: World, db: Db, disk: map<Id, Bytes>, c: Id)
    requires Inv(w) && LeavesAlone(w, db, disk) && c in w.sessions
    ensures SessionOk(w.(db := db, disk := disk), w.sessions[c])
  {
    var v := w.(db := db, disk := disk);
    var s := w.sessions[c];
    assert SessionOk(w, s) && FileOk(w, s.plan.file);
    OtherLeavesFile(w, db, disk, s.plan.file);
    if s.done {
      KeepsSettled(w, v, s);
    } else {
      PlannedIds(w, c);
      KeepsPending(w, v, s);
      if s.base == |Log(w, s.plan.file)| { KeepsContinues(w, v, s); } else { KeepsFile(w, v, s.plan.file); }
    }
  }

  lemma OtherKeepsFile(w: World, db: Db, disk: map<Id, Bytes>, f: Id)
    requires TablesOk(w) && FileOk(w, f) && LeavesAlone(w, db, disk)
    ensures FileOk(w.(db := db, disk := disk), f)
  {
    OtherLeavesFile(w, db, disk, f);
    KeepsFile(w, w.(db := db, disk := disk), f);
  }

  lemma OtherKeepsInv(w: World, db: Db, disk: map<Id, Bytes>)
    requires Inv(w) && LeavesAlone(w, db, disk)
    ensures Inv(w.(db := db, disk := disk))
  {
    var v := w.(db := db, disk := disk);
    forall f | f in w.initial ensures FileOk(v, f) { OtherKeepsFile(w, db, disk, f); }
    forall c | c in w.sessions ensures SessionOk(v, w.sessions[c]) { OtherKeepsSession(w, db, disk, c); }
  }

  /** An upload adds the bytes of one planned block, or another copy of them. */
  lemma UploadChanges(w: World, e: Event)
    requires e.Upload? && StepUpload(w, e) != w
    ensures e.session in w.sessions && e.k < |w.sessions[e.session].plan.ids|
    ensures var v := StepUpload(w, e);
            var s := w.sessions[e.session];
            var id := s.plan.ids[e.k];
            && v == w.(db := v.db, disk := v.disk) && v.db == w.db.(replicas := v.db.replicas)
            && v.db.replicas.Keys == w.db.replicas.Keys
            && (forall b :: b != id ==> Get(v.disk, b) == Get(w.disk, b) && Holders(v.db.replicas, b) == Holders(w.db.replicas, b))
            && Get(v.disk, id) == (if id in w.disk then Get(w.disk, id)
                                   else Some(Window(TailBytesOf(w.disk, s.plan.tail) + s.data, s.plan.blockSize, e.k)))
  {
  }

  lemma UploadLeavesFile(w: World, e: Event, f: Id)
    requires e.Upload? && StepUpload(w, e) != w && f in w.initial && FileOk(w, f)
    ensures SameFile(w, StepUpload(w, e), f) && FileOk(StepUpload(w, e), f)
  {
    UploadChanges(w, e);
    forall b | b in BlocksOf(w.db.blocks, f) ensures b in w.disk {
      assert Order(w, f)[w.db.blocks[b].index] == b;
    }
    KeepsFile(w, StepUpload(w, e), f);
  }

  /** The piece that arrived, and the pieces that were there. */
  lemma UploadedPieces(w: World, e: Event, pieces: seq<Bytes>)
    requires e.Upload? && StepUpload(w, e) != w && e.session in w.sessions
    requires var s := w.sessions[e.session]; Continues(w, s) && PendingOk(w, s) && pieces == Pieces(w, s) && s.plan.blockSize > 0
    ensures var s := w.sessions[e.session];
            forall k :: 0 <= k < |s.plan.ids| ==> PieceOk(StepUpload(w, e), s.plan.file, s.plan.ids[k], pieces[k])
  {
    var v := StepUpload(w, e);
    var s := w.sessions[e.session];
    UploadChanges(w, e);
    WindowIsPiece(TailBytesOf(w.disk, s.plan.tail) + s.data, s.plan.blockSize, e.k);
    forall k | 0 <= k < |s.plan.ids| ensures PieceOk(v, s.plan.file, s.plan.ids[k], pieces[k]) {
      assert PieceOk(w, s.plan.file, s.plan.ids[k], pieces[k]);
      assert s.plan.ids[k] == s.plan.ids[e.k] ==> k == e.k;
      assert k != e.k ==> Get(v.disk, s.plan.ids[k]) == Get(w.disk, s.plan.ids[k]);
    }
  }

  lemma UploadedPiece(w: World, e: Event)
    requires e.Upload? && StepUpload(w, e) != w && e.session in w.sessions
    requires var s := w.sessions[e.session]; Continues(w, s) && PendingOk(w, s) && s.plan.file in w.initial && FileOk(w, s.plan.file)
    ensures Continues(StepUpload(w, e), w.sessions[e.session])
  {
    var v := StepUpload(w, e);
    var s := w.sessions[e.session];
    UploadChanges(w, e);
    UploadLeavesFile(w, e, s.plan.file);
    KeepsFile(w, v, s.plan.file);
    if s.plan.tail.Some? {
      TailIsListed(w, s);
      assert Get(v.disk, s.plan.tail.value) == Get(w.disk, s.plan.tail.value);
    }
    UploadedPieces(w, e, Pieces(w, s));
  }

  lemma UploadKeepsPending(w: World, e: Event, s: Session)
    requires e.Upload? && StepUpload(w, e) != w && PendingOk(w, s)
    ensures PendingOk(StepUpload(w, e), s)
  {
    UploadChanges(w, e);
    var v := StepUpload(w, e);
    var id := w.sessions[e.session].plan.ids[e.k];
    forall b | b in s.plan.ids && Holders(v.db.replicas, b) != {} ensures b in v.disk {
      var k :| 0 <= k < |s.plan.ids| && s.plan.ids[k] == b;
      assert PlannedOk(w, b, s.plan.start + k);
      assert b != id ==> Get(v.disk, b) == Get(w.disk, b);
    }
    KeepsPending(w, v, s);
  }

  lemma UploadKeepsContinues(w: World, e: Event, c: Id)
    requires e.Upload? && StepUpload(w, e) != w && c in w.sessions && Disjoint(w)
    requires var s := w.sessions[c]; Continues(w, s) && PendingOk(w, s) && s.plan.file in w.initial && FileOk(w, s.plan.file)
    ensures Continues(StepUpload(w, e), w.sessions[c])
  {
    UploadChanges(w, e);
    if c == e.session {
      UploadedPiece(w, e);
    } else {
      assert w.sessions[e.session].plan.ids[e.k] in w.sessions[e.session].plan.ids;
      UploadLeavesFile(w, e, w.sessions[c].plan.file);
      KeepsContinues(w, StepUpload(w, e), w.sessions[c]);
    }
  }

  lemma UploadKeepsSession(w: World, e: Event, c: Id)
    requires Inv(w) && e.Upload? && StepUpload(w, e) != w && c in w.sessions
    ensures SessionOk(StepUpload(w, e), w.sessions[c])
  {
    var v := StepUpload(w, e);
    var s := w.sessions[c];
    UploadChanges(w, e);
    assert SessionOk(w, s) && FileOk(w, s.plan.file);
    UploadLeavesFile(w, e, s.plan.file);
    KeepsFile(w, v, s.plan.file);
    if s.done {
      KeepsSettled(w, v, s);
    } else {
      UploadKeepsPending(w, e, s);
      if s.base == |Log(w, s.plan.file)| { UploadKeepsContinues(w, e, c); }
    }
  }

  lemma UploadKeepsInv(w: World, e: Event)
    requires Inv(w) && e.Upload?
    ensures Inv(StepUpload(w, e))
  {
    var v := StepUpload(w, e);
    if v != w {
      UploadChanges(w, e);
      forall f | f in w.initial ensures FileOk(v, f) { assert FileOk(w, f); UploadLeavesFile(w, e, f); }
      forall c | c in w.sessions ensures SessionOk(v, w.sessions[c]) { UploadKeepsSession(w, e, c); }
    }
  }
}
