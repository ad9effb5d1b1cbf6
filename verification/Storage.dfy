/** The block store of a data node: write-once files made visible by a rename, and what survives a
    crash at any point (data_node/storage.py). */
module Storage {
  import opened Common

  /** The four files a block id may have: the block, its metadata, and a temporary of each. */
  datatype Kind = Blk | BlkTmp | Meta | MetaTmp

  /** Block bytes, complete metadata, or a metadata file still being written. */
  datatype Content = Data(bytes: Bytes) | Described(size: nat, digest: Digest<Bytes>) | Unfinished

  type Disk = map<(Id, Kind), Content>

  predicate IsVisible(disk: Disk, id: Id) { (id, Blk) in disk }

  function MetaOf(bytes: Bytes): Content { Described(|bytes|, Sha256(bytes)) }

  /** A visible block has metadata with its exact size and checksum. */
  predicate IsSound(disk: Disk, id: Id) {
    (id, Blk) in disk ==>
      disk[(id, Blk)].Data? && (id, Meta) in disk && disk[(id, Meta)] == MetaOf(disk[(id, Blk)].bytes)
  }

  // ----- The operations, uninterrupted --------------------------------------------

  function Without(disk: Disk, id: Id, kind: Kind): Disk { map f | f in disk && f != (id, kind) :: disk[f] }

  /** os.replace: the source disappears, the target is its content. */
  function Renamed(disk: Disk, id: Id, from: Kind, to: Kind): Disk {
    if (id, from) in disk then Without(disk, id, from)[(id, to) := disk[(id, from)]] else disk
  }

  function Written(disk: Disk, id: Id, bytes: Bytes): Disk {
    Without(Without(disk, id, BlkTmp), id, MetaTmp)[(id, Meta) := MetaOf(bytes)][(id, Blk) := Data(bytes)]
  }

  class BlockStorage {
    var disk: Disk

    method WriteMeta(id: Id, meta: Content)
      modifies this
      ensures disk == Without(old(disk), id, MetaTmp)[(id, Meta) := meta]
    {
      disk := disk[(id, MetaTmp) := Unfinished];
      disk := disk[(id, MetaTmp) := meta];
      disk := Renamed(disk, id, MetaTmp, Meta);
    }

    /** Immutable, verified and atomic: an existing block is never touched, a wrong checksum leaves
        nothing behind but what was there, and the block appears whole. */
    method Write(id: Id, chunks: seq<Bytes>, expected: Digest<Bytes>) returns (r: Result<Content>)
      modifies this
      ensures old(IsVisible(disk, id)) ==> r == Err(AlreadyExists) && disk == old(disk)
      ensures !old(IsVisible(disk, id)) && expected != Sha256(Flatten(chunks)) ==>
                r == Err(IntegrityViolation) && disk == Without(old(disk), id, BlkTmp)
      ensures !old(IsVisible(disk, id)) && expected == Sha256(Flatten(chunks)) ==>
                r == Ok(MetaOf(Flatten(chunks))) && disk == Written(old(disk), id, Flatten(chunks))
    {
      if IsVisible(disk, id) {
        return Err(AlreadyExists);
      }
      ghost var begin := disk;
      var received: Bytes := [];
      disk := disk[(id, BlkTmp) := Data([])];
      for i := 0 to |chunks|
        invariant received == Flatten(chunks[..i])
        invariant disk == begin[(id, BlkTmp) := Data(received)]
      {
        assert chunks[..i + 1] == chunks[..i] + [chunks[i]];
        FlattenConcat(chunks[..i], [chunks[i]]);
        assert Flatten([chunks[i]]) == chunks[i] + Flatten([]);
        received := received + chunks[i];
        disk := disk[(id, BlkTmp) := Data(received)];
      }
      assert chunks[..|chunks|] == chunks;
      if expected != Sha256(received) {
        disk := Without(disk, id, BlkTmp);
        return Err(IntegrityViolation);
      }
      WriteMeta(id, MetaOf(received));
      disk := Renamed(disk, id, BlkTmp, Blk);
      return Ok(MetaOf(received));
    }

    /** Idempotent: deleting what is not there is not an error. */
    method Delete(id: Id) returns (existed: bool)
      modifies this
      ensures existed <==> (id, Blk) in old(disk) || (id, Meta) in old(disk)
      ensures disk == Without(Without(old(disk), id, Blk), id, Meta)
    {
      existed := (id, Blk) in disk || (id, Meta) in disk;
      disk := Without(disk, id, Blk);
      disk := Without(disk, id, Meta);
    }
  }

  // ----- Listing -------------------------------------------------------------

  function VisibleIds(disk: Disk): set<Id> { set f | f in disk && f.1.Blk? :: f.0 }

  function SizeOf(disk: Disk, id: Id): nat {
    if (id, Blk) in disk && disk[(id, Blk)].Data? then |disk[(id, Blk)].bytes| else 0
  }

  /** Bytes of a set of blocks. */
  ghost function UsedBy(disk: Disk, ids: set<Id>): nat {
    if ids == {} then 0 else var id :| id in ids; SizeOf(disk, id) + UsedBy(disk, ids - {id})
  }

  lemma {:induction false} UsedByOneMore(disk: Disk, ids: set<Id>, id: Id)
    requires id in ids
    ensures UsedBy(disk, ids) == SizeOf(disk, id) + UsedBy(disk, ids - {id})
    decreases |ids|
  {
    var first :| first in ids && UsedBy(disk, ids) == SizeOf(disk, first) + UsedBy(disk, ids - {first});
    if first != id {
      UsedByOneMore(disk, ids - {first}, id);
      UsedByOneMore(disk, ids - {id}, first);
      assert ids - {first} - {id} == ids - {id} - {first};
    }
  }

  /** The entries of a directory listing, each once, in whatever order. */
  ghost predicate Lists(disk: Disk, entries: seq<(Id, Kind)>) {
    && (forall f :: f in entries <==> f in disk)
    && forall i, j :: 0 <= i < j < |entries| ==> entries[i] != entries[j]
  }

  function BlocksAmong(entries: seq<(Id, Kind)>): set<Id> { set f | f in entries && f.1.Blk? :: f.0 }

  lemma NextEntry(entries: seq<(Id, Kind)>, i: nat)
    requires i < |entries| && forall i, j :: 0 <= i < j < |entries| ==> entries[i] != entries[j]
    ensures BlocksAmong(entries[..i + 1]) == BlocksAmong(entries[..i]) + (if entries[i].1.Blk? then {entries[i].0} else {})
    ensures entries[i].1.Blk? ==> entries[i].0 !in BlocksAmong(entries[..i])
  {
    assert entries[..i + 1] == entries[..i] + [entries[i]];
    forall f | f in entries[..i] ensures f != entries[i] {
      var k :| 0 <= k < i && entries[..i][k] == f;
      assert entries[k] == f;
    }
  }

  lemma NextCounted(disk: Disk, entries: seq<(Id, Kind)>, i: nat)
    requires i < |entries| && forall i, j :: 0 <= i < j < |entries| ==> entries[i] != entries[j]
    ensures var before, after := BlocksAmong(entries[..i]), BlocksAmong(entries[..i + 1]);
            && UsedBy(disk, after) == UsedBy(disk, before) + (if entries[i].1.Blk? then SizeOf(disk, entries[i].0) else 0)
            && |after| == |before| + (if entries[i].1.Blk? then 1 else 0)
  {
    NextEntry(entries, i);
    var before, after := BlocksAmong(entries[..i]), BlocksAmong(entries[..i + 1]);
    if entries[i].1.Blk? {
      UsedByOneMore(disk, after, entries[i].0);
      assert after - {entries[i].0} == before;
    } else {
      assert after == before;
    }
  }

  /** Counting the disk itself: exactly the visible blocks, and exactly their bytes. */
  method Stats(disk: Disk, entries: seq<(Id, Kind)>) returns (used: nat, count: nat)
    requires Lists(disk, entries)
    ensures used == UsedBy(disk, VisibleIds(disk)) && count == |VisibleIds(disk)|
  {
    used, count := 0, 0;
    for i := 0 to |entries|
      invariant used == UsedBy(disk, BlocksAmong(entries[..i])) && count == |BlocksAmong(entries[..i])|
    {
      NextCounted(disk, entries, i);
      var entry := entries[i];
      if entry.1.Blk? {
        used := used + SizeOf(disk, entry.0);
        count := count + 1;
      }
    }
    assert BlocksAmong(entries[..|entries|]) == VisibleIds(disk);
  }

  /** The full block report: every visible block once, in order, and nothing else. */
  method ListBlockIds(disk: Disk, entries: seq<(Id, Kind)>) returns (ids: seq<Id>)
    requires Lists(disk, entries)
    ensures forall id :: id in ids <==> IsVisible(disk, id)
    ensures forall i, j :: 0 <= i < j < |ids| ==> ids[i] < ids[j]
  {
    var found: set<Id> := {};
    for i := 0 to |entries|
      invariant found == BlocksAmong(entries[..i])
    {
      NextEntry(entries, i);
      if entries[i].1.Blk? {
        found := found + {entries[i].0};
      }
    }
    assert BlocksAmong(entries[..|entries|]) == VisibleIds(disk);
    AscendingLists(found);
    forall id ensures id in found <==> IsVisible(disk, id) { assert IsVisible(disk, id) <==> (id, Blk) in disk; }
    return Ascending(found);
  }

  // ----- Crashes -------------------------------------------------------------

  /** Where the operation on a block id stands, between two changes of the disk. */
  datatype Stage =
    | Receiving(expected: Digest<Bytes>, bytes: Bytes)
    | Verified(bytes: Bytes)
    | MetaOpen(bytes: Bytes)
    | MetaWritten(bytes: Bytes)
    | MetaInPlace(bytes: Bytes)
    | BlockUnlinked

  /** At most one operation per block id is under way; operations on different ids interleave. */
  datatype World = World(disk: Disk, running: map<Id, Stage>)

  datatype Event =
    | BeginWrite(id: Id, expected: Digest<Bytes>)
    | Append(id: Id, chunk: Bytes)
    | Advance(id: Id)
    | Fail(id: Id)
    | BeginDelete(id: Id)
    | Crash

  /** The next change an operation makes: check the bytes, write the metadata aside, rename it, rename
      the block; or, for a deletion, unlink the metadata. */
  function AdvanceOne(w: World, id: Id): World
    requires id in w.running
  {
    match w.running[id]
    case Receiving(expected, bytes) =>
      if Sha256(bytes) != expected then World(Without(w.disk, id, BlkTmp), w.running - {id})
      else w.(running := w.running[id := Verified(bytes)])
    case Verified(bytes) => World(w.disk[(id, MetaTmp) := Unfinished], w.running[id := MetaOpen(bytes)])
    case MetaOpen(bytes) => World(w.disk[(id, MetaTmp) := MetaOf(bytes)], w.running[id := MetaWritten(bytes)])
    case MetaWritten(bytes) => World(Renamed(w.disk, id, MetaTmp, Meta), w.running[id := MetaInPlace(bytes)])
    case MetaInPlace(bytes) => World(Renamed(w.disk, id, BlkTmp, Blk), w.running - {id})
    case BlockUnlinked => World(Without(w.disk, id, Meta), w.running - {id})
  }

  function Step(w: World, e: Event): World {
    match e
    case BeginWrite(id, expected) =>
      if id in w.running || IsVisible(w.disk, id) then w
      else World(w.disk[(id, BlkTmp) := Data([])], w.running[id := Receiving(expected, [])])
    case Append(id, chunk) =>
      if id in w.running && w.running[id].Receiving? then
        var bytes := w.running[id].bytes + chunk;
        World(w.disk[(id, BlkTmp) := Data(bytes)], w.running[id := Receiving(w.running[id].expected, bytes)])
      else w
    case Advance(id) => if id in w.running then AdvanceOne(w, id) else w
    case Fail(id) =>
      if id in w.running && !w.running[id].BlockUnlinked? then World(Without(w.disk, id, BlkTmp), w.running - {id}) else w
    case BeginDelete(id) =>
      if id in w.running then w else World(Without(w.disk, id, Blk), w.running[id := BlockUnlinked])
    case Crash => w.(running := map[])
  }

  function Run(w: World, events: seq<Event>): World
    decreases |events|
  {
    if events == [] then w else Run(Step(w, events[0]), events[1..])
  }

  /** What the files of an operation under way look like. */
  predicate StageOk(disk: Disk, id: Id, stage: Stage) {
    && (id, Blk) !in disk
    && match stage
       case Receiving(_, bytes) => (id, BlkTmp) in disk && disk[(id, BlkTmp)] == Data(bytes)
       case Verified(bytes) => (id, BlkTmp) in disk && disk[(id, BlkTmp)] == Data(bytes)
       case MetaOpen(bytes) => (id, BlkTmp) in disk && disk[(id, BlkTmp)] == Data(bytes)
       case MetaWritten(bytes) =>
         (id, BlkTmp) in disk && disk[(id, BlkTmp)] == Data(bytes) && (id, MetaTmp) in disk && disk[(id, MetaTmp)] == MetaOf(bytes)
       case MetaInPlace(bytes) =>
         (id, BlkTmp) in disk && disk[(id, BlkTmp)] == Data(bytes) && (id, Meta) in disk && disk[(id, Meta)] == MetaOf(bytes)
       case BlockUnlinked => true
  }

  ghost predicate Inv(w: World) {
    && (forall id :: IsSound(w.disk, id))
    && (forall id :: id in w.running ==> StageOk(w.disk, id, w.running[id]))
  }

  ghost predicate SameFiles(disk: Disk, after: Disk, id: Id) {
    forall k: Kind :: Get(after, (id, k)) == Get(disk, (id, k))
  }

  lemma OthersUntouched(w: World, e: Event, id: Id)
    requires e.Crash? || e.id != id
    ensures SameFiles(w.disk, Step(w, e).disk, id)
    ensures !e.Crash? ==> Get(Step(w, e).running, id) == Get(w.running, id)
  {
  }

  lemma OthersStayVisible(w: World, e: Event, id: Id)
    requires e.Crash? || e.id != id
    ensures Get(Step(w, e).disk, (id, Blk)) == Get(w.disk, (id, Blk))
  {
    OthersUntouched(w, e, id);
  }

  lemma SameFilesSameFacts(disk: Disk, after: Disk, id: Id)
    requires SameFiles(disk, after, id)
    ensures IsSound(disk, id) ==> IsSound(after, id)
    ensures forall stage: Stage :: StageOk(disk, id, stage) ==> StageOk(after, id, stage)
  {
    assert Get(after, (id, Blk)) == Get(disk, (id, Blk));
    assert Get(after, (id, BlkTmp)) == Get(disk, (id, BlkTmp));
    assert Get(after, (id, Meta)) == Get(disk, (id, Meta));
    assert Get(after, (id, MetaTmp)) == Get(disk, (id, MetaTmp));
  }

  lemma OwnStep(w: World, e: Event)
    requires !e.Crash? && IsSound(w.disk, e.id) && (e.id in w.running ==> StageOk(w.disk, e.id, w.running[e.id]))
    ensures var v := Step(w, e); IsSound(v.disk, e.id) && (e.id in v.running ==> StageOk(v.disk, e.id, v.running[e.id]))
  {
  }

  lemma StepKeepsInv(w: World, e: Event)
    requires Inv(w)
    ensures Inv(Step(w, e))
  {
    var v := Step(w, e);
    forall id ensures IsSound(v.disk, id) && (id in v.running ==> StageOk(v.disk, id, v.running[id])) {
      assert IsSound(w.disk, id);
      if e.Crash? || e.id != id {
        OthersUntouched(w, e, id);
        SameFilesSameFacts(w.disk, v.disk, id);
      } else {
        OwnStep(w, e);
      }
    }
  }

  /** At every point of every run, crashes included, a visible block has its exact metadata. */
  lemma {:induction false} SoundAtEveryCrashPoint(w: World, events: seq<Event>)
    requires Inv(w)
    ensures Inv(Run(w, events))
    ensures forall id :: IsSound(Run(w, events).disk, id)
    decreases |events|
  {
    if events != [] {
      StepKeepsInv(w, events[0]);
      SoundAtEveryCrashPoint(Step(w, events[0]), events[1..]);
    }
  }

  lemma EmptyDiskIsSound()
    ensures Inv(World(map[], map[]))
  {
  }

  /** A visible block keeps its bytes until it is deleted. */
  lemma VisibleBytesNeverChange(w: World, e: Event, id: Id)
    requires Inv(w) && IsVisible(w.disk, id) && !(e.BeginDelete? && e.id == id)
    ensures IsVisible(Step(w, e).disk, id) && Step(w, e).disk[(id, Blk)] == w.disk[(id, Blk)]
  {
    if e.Crash? || e.id != id {
      OthersStayVisible(w, e, id);
    } else {
      assert id in w.running ==> StageOk(w.disk, id, w.running[id]);
    }
  }

  ghost predicate NotDeleted(events: seq<Event>, id: Id) { forall e :: e in events ==> !(e.BeginDelete? && e.id == id) }

  lemma {:induction false} VisibleBytesStay(w: World, events: seq<Event>, id: Id)
    requires Inv(w) && IsVisible(w.disk, id) && NotDeleted(events, id)
    ensures IsVisible(Run(w, events).disk, id) && Run(w, events).disk[(id, Blk)] == w.disk[(id, Blk)]
    decreases |events|
  {
    if events != [] {
      assert events[0] in events;
      StepKeepsInv(w, events[0]);
      VisibleBytesNeverChange(w, events[0], id);
      VisibleBytesStay(Step(w, events[0]), events[1..], id);
    }
  }

  /** A block only ever becomes visible with bytes that passed the check of the write that brought them. */
  lemma AppearsOnlyVerified(w: World, e: Event, id: Id)
    requires Inv(w) && !IsVisible(w.disk, id) && IsVisible(Step(w, e).disk, id)
    ensures e == Advance(id) && id in w.running && w.running[id].MetaInPlace?
    ensures Step(w, e).disk[(id, Blk)] == Data(w.running[id].bytes)
  {
    if e.Crash? || e.id != id {
      OthersStayVisible(w, e, id);
    } else {
      assert id in w.running ==> StageOk(w.disk, id, w.running[id]);
    }
  }

  /** Bytes that do not match the announced checksum are dropped, and no block appears. */
  lemma RejectedLeavesNothing(w: World, id: Id)
    requires Inv(w) && id in w.running && w.running[id].Receiving? && w.running[id].expected != Sha256(w.running[id].bytes)
    ensures var v := Step(w, Advance(id));
            !IsVisible(v.disk, id) && (id, BlkTmp) !in v.disk && id !in v.running
  {
    assert StageOk(w.disk, id, w.running[id]);
  }

  /** Bytes with the announced checksum become visible, whole and described, when the write has made its
      remaining changes and nothing comes in between. */
  lemma VerifiedWriteAppears(w: World, id: Id)
    requires id in w.running && w.running[id].Receiving? && w.running[id].expected == Sha256(w.running[id].bytes) && Inv(w)
    ensures var v := Run(w, [Advance(id), Advance(id), Advance(id), Advance(id), Advance(id)]);
            var bytes := w.running[id].bytes;
            && id !in v.running && Get(v.disk, (id, Blk)) == Some(Data(bytes)) && Get(v.disk, (id, Meta)) == Some(MetaOf(bytes))
  {
    var bytes := w.running[id].bytes;
    assert StageOk(w.disk, id, w.running[id]);
    var a := Step(w, Advance(id));
    assert a.running[id] == Verified(bytes);
    var b := Step(a, Advance(id));
    assert b.running[id] == MetaOpen(bytes);
    var c := Step(b, Advance(id));
    assert c.running[id] == MetaWritten(bytes) && Get(c.disk, (id, MetaTmp)) == Some(MetaOf(bytes));
    var d := Step(c, Advance(id));
    assert d.running[id] == MetaInPlace(bytes) && Get(d.disk, (id, Meta)) == Some(MetaOf(bytes)) && Get(d.disk, (id, BlkTmp)) == Some(Data(bytes));
    RunFive(w, Advance(id));
  }

  lemma RunFive(w: World, e: Event)
    ensures Run(w, [e, e, e, e, e]) == Step(Step(Step(Step(Step(w, e), e), e), e), e)
  {
    assert [e, e, e, e, e][1..] == [e, e, e, e] && [e, e, e, e][1..] == [e, e, e] && [e, e, e][1..] == [e, e] && [e, e][1..] == [e] && [e][1..] == [];
    assert Run(w, [e, e, e, e, e]) == Run(Step(w, e), [e, e, e, e]);
    assert Run(Step(w, e), [e, e, e, e]) == Run(Step(Step(w, e), e), [e, e, e]);
    assert Run(Step(Step(w, e), e), [e, e, e]) == Run(Step(Step(Step(w, e), e), e), [e, e]);
    assert Run(Step(Step(Step(w, e), e), e), [e, e]) == Run(Step(Step(Step(Step(w, e), e), e), e), [e]);
  }

  // ----- Two operations on one block id --------------------------------------

  /** A step in which a deletion does not wait for the operation under way on its id. */
  function RaceStep(w: World, e: Event): World {
    if e.BeginDelete? then w.(disk := Without(Without(w.disk, e.id, Blk), e.id, Meta)) else Step(w, e)
  }

  function RaceRun(w: World, events: seq<Event>): World
    decreases |events|
  {
    if events == [] then w else RaceRun(RaceStep(w, events[0]), events[1..])
  }

  /** Anything on other ids, and deletions of this one. */
  ghost predicate OnlyDeletes(events: seq<Event>, id: Id) {
    forall e :: e in events ==> !e.Crash? && (e.id == id ==> e.BeginDelete?)
  }

  /** The write of the id is between its two renames; its metadata is there unless it was deleted. */
  ghost predicate BetweenRenames(w: World, id: Id, bytes: Bytes, deleted: bool) {
    && (id, Blk) !in w.disk && Get(w.disk, (id, BlkTmp)) == Some(Data(bytes)) && Get(w.running, id) == Some(MetaInPlace(bytes))
    && Get(w.disk, (id, Meta)) == if deleted then None else Some(MetaOf(bytes))
  }

  lemma OthersDoNotMatter(w: World, e: Event, id: Id)
    requires !e.Crash? && e.id != id
    ensures SameFiles(w.disk, RaceStep(w, e).disk, id) && Get(RaceStep(w, e).running, id) == Get(w.running, id)
  {
    if !e.BeginDelete? { OthersUntouched(w, e, id); }
  }

  lemma RaceStepBetween(w: World, e: Event, id: Id, bytes: Bytes, deleted: bool)
    requires BetweenRenames(w, id, bytes, deleted) && OnlyDeletes([e], id)
    ensures BetweenRenames(RaceStep(w, e), id, bytes, deleted || (e.BeginDelete? && e.id == id))
  {
    assert e in [e];
    if e.id != id {
      OthersDoNotMatter(w, e, id);
      var v := RaceStep(w, e);
      assert Get(v.disk, (id, Blk)) == Get(w.disk, (id, Blk));
      assert Get(v.disk, (id, BlkTmp)) == Get(w.disk, (id, BlkTmp));
      assert Get(v.disk, (id, Meta)) == Get(w.disk, (id, Meta));
    }
  }

  lemma {:induction false} RaceBetween(w: World, events: seq<Event>, id: Id, bytes: Bytes, deleted: bool)
    requires BetweenRenames(w, id, bytes, deleted) && OnlyDeletes(events, id)
    ensures BetweenRenames(RaceRun(w, events), id, bytes, deleted || BeginDelete(id) in events)
    decreases |events|
  {
    if events != [] {
      assert events == [events[0]] + events[1..];
      assert events[0] in events;
      RaceStepBetween(w, events[0], id, bytes, deleted);
      RaceBetween(RaceStep(w, events[0]), events[1..], id, bytes, deleted || events[0] == BeginDelete(id));
    }
  }

  /** Whatever happens to other blocks between the two renames of a write, its last rename leaves a sound
      block if and only if nobody deleted that id in between: a deletion takes the metadata along, and
      the block then appears without any. So one operation per id at a time is needed. */
  lemma LastRenameIsSoundExactly(w: World, events: seq<Event>, id: Id, bytes: Bytes)
    requires BetweenRenames(w, id, bytes, false) && OnlyDeletes(events, id)
    ensures var v := Step(RaceRun(w, events), Advance(id));
            IsVisible(v.disk, id) && (IsSound(v.disk, id) <==> BeginDelete(id) !in events)
  {
    var u := RaceRun(w, events);
    RaceBetween(w, events, id, bytes, false);
    var v := Step(u, Advance(id));
    assert id in u.running && (id, BlkTmp) in u.disk;
    assert v.disk[(id, Blk)] == Data(bytes);
    assert Get(v.disk, (id, Meta)) == Get(u.disk, (id, Meta));
  }

  /** Every sound write comes by such a moment. */
  lemma MetaInPlaceIsBetweenRenames(w: World, id: Id)
    requires Inv(w) && id in w.running && w.running[id].MetaInPlace?
    ensures BetweenRenames(w, id, w.running[id].bytes, false)
  {
    assert StageOk(w.disk, id, w.running[id]);
  }
}
