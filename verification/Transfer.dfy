/** Moving a file between a local disk and the data nodes, block by block and out of order
    (client/transfer.py). */
module Transfer {
  import opened Common
  import opened Partition
  import opened Range

  // ----- Upload --------------------------------------------------------------

  /** A block of a write plan: its place in the file, the size it will take on disk, the nodes the client
      can reach it on, and the addresses its first node forwards it to. */
  datatype PlannedBlock = PlannedBlock(id: Id, index: nat, size: int, replicas: seq<Id>, pipeline: seq<string>)

  /** Where a block lies in the local file, who gets its bytes and who they are forwarded to. */
  datatype Slot = Slot(id: Id, index: nat, size: int, offset: int, first: Id, pipeline: seq<string>)

  function InsertByIndex(b: PlannedBlock, sorted: seq<PlannedBlock>): seq<PlannedBlock> {
    if sorted == [] || b.index <= sorted[0].index then [b] + sorted else [sorted[0]] + InsertByIndex(b, sorted[1..])
  }

  /** The blocks in order of index, equal ones in the order they came. */
  function SortedByIndex(blocks: seq<PlannedBlock>): seq<PlannedBlock> {
    if blocks == [] then [] else InsertByIndex(blocks[0], SortedByIndex(blocks[1..]))
  }

  ghost predicate Rises(blocks: seq<PlannedBlock>) {
    forall i, j :: 0 <= i < j < |blocks| ==> blocks[i].index < blocks[j].index
  }

  ghost predicate DistinctIndexes(blocks: seq<PlannedBlock>) {
    forall i, j :: 0 <= i < j < |blocks| ==> blocks[i].index != blocks[j].index
  }

  lemma {:induction false} InsertedInOrder(b: PlannedBlock, sorted: seq<PlannedBlock>)
    ensures |InsertByIndex(b, sorted)| == |sorted| + 1
    ensures forall c :: c in InsertByIndex(b, sorted) <==> c == b || c in sorted
    ensures Rises(sorted) && (forall c :: c in sorted ==> c.index != b.index) ==> Rises(InsertByIndex(b, sorted))
  {
    if sorted != [] {
      assert sorted == [sorted[0]] + sorted[1..];
      if b.index > sorted[0].index {
        InsertedInOrder(b, sorted[1..]);
        var rest := InsertByIndex(b, sorted[1..]);
        if Rises(sorted) {
          forall j | 0 <= j < |rest| ensures sorted[0].index < rest[j].index { assert rest[j] in rest; }
        }
      }
    }
  }

  lemma {:induction false} SortingKeeps(blocks: seq<PlannedBlock>)
    ensures |SortedByIndex(blocks)| == |blocks|
    ensures forall b :: b in SortedByIndex(blocks) <==> b in blocks
    ensures DistinctIndexes(blocks) ==> Rises(SortedByIndex(blocks))
  {
    if blocks != [] {
      SortingKeeps(blocks[1..]);
      InsertedInOrder(blocks[0], SortedByIndex(blocks[1..]));
      assert blocks == [blocks[0]] + blocks[1..];
      if DistinctIndexes(blocks) {
        forall c | c in SortedByIndex(blocks[1..]) ensures c.index != blocks[0].index {
          var j :| 0 <= j < |blocks[1..]| && blocks[1..][j] == c;
          assert blocks[j + 1] == c;
        }
      }
    }
  }

  function ClearSize(b: PlannedBlock, overhead: int): int { b.size - overhead }

  /** Sum of the clear sizes before a block. */
  function OffsetOf(blocks: seq<PlannedBlock>, overhead: int, k: nat): int
    requires k <= |blocks|
  {
    if k == 0 then 0 else OffsetOf(blocks, overhead, k - 1) + ClearSize(blocks[k - 1], overhead)
  }

  function SlotOf(blocks: seq<PlannedBlock>, overhead: int, k: nat): Slot
    requires k < |blocks| && blocks[k].replicas != []
  {
    var b := blocks[k];
    Slot(b.id, b.index, ClearSize(b, overhead), OffsetOf(blocks, overhead, k), b.replicas[0], b.pipeline)
  }

  method WriteSlots(blocks: seq<PlannedBlock>, overhead: int) returns (r: Result<seq<Slot>>)
    ensures r.Err? <==> exists b :: b in blocks && b.replicas == []
    ensures r.Err? ==> r.error == TransferFailed
    ensures r.Ok? ==> |r.value| == |blocks| == |SortedByIndex(blocks)|
    ensures r.Ok? ==> forall k :: 0 <= k < |blocks| ==>
              SortedByIndex(blocks)[k].replicas != [] && r.value[k] == SlotOf(SortedByIndex(blocks), overhead, k)
  {
    var slots: seq<Slot> := [];
    var offset := 0;
    var sorted := SortedByIndex(blocks);
    SortingKeeps(blocks);
    for i := 0 to |sorted|
      invariant |slots| == i && offset == OffsetOf(sorted, overhead, i)
      invariant forall k :: 0 <= k < i ==> sorted[k].replicas != [] && slots[k] == SlotOf(sorted, overhead, k)
    {
      var b := sorted[i];
      assert b in sorted;
      if b.replicas == [] {
        return Err(TransferFailed);
      }
      var clear := b.size - overhead;
      slots := slots + [Slot(b.id, b.index, clear, offset, b.replicas[0], b.pipeline)];
      offset := offset + clear;
    }
    return Ok(slots);
  }

  /** The plan has one block for every position of a partition, in whatever order. */
  ghost predicate IsWritePlan(blocks: seq<PlannedBlock>, overhead: int, sizes: seq<nat>) {
    && |blocks| == |sizes| && DistinctIndexes(blocks)
    && forall b :: b in blocks ==> b.index < |sizes| && ClearSize(b, overhead) == sizes[b.index]
  }

  lemma {:induction false} RisingFromBelow(blocks: seq<PlannedBlock>, k: nat)
    requires Rises(blocks) && k < |blocks|
    ensures k <= blocks[k].index
  {
    if k > 0 { RisingFromBelow(blocks, k - 1); }
  }

  lemma {:induction false} RisingFromAbove(blocks: seq<PlannedBlock>, k: nat, n: nat)
    requires Rises(blocks) && k < |blocks| == n && forall i :: 0 <= i < n ==> blocks[i].index < n
    ensures blocks[k].index <= k
    decreases n - k
  {
    if k + 1 < n { RisingFromAbove(blocks, k + 1, n); }
  }

  /** Whatever the order of the plan, the blocks are uploaded from where the partition puts them. */
  lemma {:induction false} SlotsFollowThePartition(blocks: seq<PlannedBlock>, overhead: int, sizes: seq<nat>, k: nat)
    requires IsWritePlan(blocks, overhead, sizes) && k < |sizes|
    ensures var sorted := SortedByIndex(blocks);
            && |sorted| == |sizes| && sorted[k] in blocks && sorted[k].index == k
            && ClearSize(sorted[k], overhead) == sizes[k] && OffsetOf(sorted, overhead, k) == Start(sizes, k)
  {
    var sorted := SortedByIndex(blocks);
    SortingKeeps(blocks);
    forall i | 0 <= i < |sorted| ensures sorted[i].index < |sizes| { assert sorted[i] in sorted; }
    RisingFromBelow(sorted, k);
    RisingFromAbove(sorted, k, |sizes|);
    assert sorted[k] in sorted;
    if k == 0 {
      assert sizes[..0] == [];
    } else {
      SlotsFollowThePartition(blocks, overhead, sizes, k - 1);
      StartOfNext(sizes, k - 1);
    }
  }

  /** The bytes of a slot; reading past the end of the local file gives what there is. */
  function Piece(content: Bytes, offset: int, size: int): Bytes
    requires 0 <= offset && 0 <= size
  {
    content[Min(offset, |content|)..Min(offset + size, |content|)]
  }

  /** What the nodes hold after the uploads listed in `order` have completed. */
  function Stored(content: Bytes, sizes: seq<nat>, order: seq<nat>): map<nat, Bytes> {
    if order == [] then map[] else
    var k := order[|order| - 1];
    var before := Stored(content, sizes, order[..|order| - 1]);
    if k < |sizes| then before[k := Piece(content, Start(sizes, k), sizes[k])] else before
  }

  lemma {:induction false} StoredPieces(content: Bytes, sizes: seq<nat>, order: seq<nat>, k: nat)
    requires k < |sizes|
    ensures k in Stored(content, sizes, order) <==> k in order
    ensures k in order ==> Stored(content, sizes, order)[k] == Piece(content, Start(sizes, k), sizes[k])
    decreases |order|
  {
    if order != [] {
      StoredPieces(content, sizes, order[..|order| - 1], k);
      assert order == order[..|order| - 1] + [order[|order| - 1]];
    }
  }

  lemma {:induction false} PlannedStarts(size: nat, blockSize: nat, k: nat)
    requires blockSize > 0 && k < |PlanSizes(size, blockSize)|
    ensures Start(PlanSizes(size, blockSize), k) == k * blockSize <= size
    ensures PlanSizes(size, blockSize)[k] == Min(blockSize, size - k * blockSize)
    decreases size
  {
    var sizes := PlanSizes(size, blockSize);
    if k == 0 {
      assert sizes[..0] == [];
    } else {
      PlannedStarts(size - blockSize, blockSize, k - 1);
      assert sizes[..k] == [blockSize] + PlanSizes(size - blockSize, blockSize)[..k - 1];
      OneMoreFits(k - 1, blockSize);
    }
  }

  /** Whatever the order the uploads finish in, block k holds the k-th slice of the file. */
  lemma UploadCutsTheFile(content: Bytes, blockSize: nat, order: seq<nat>, k: nat)
    requires blockSize > 0 && k < |PlanSizes(|content|, blockSize)| && k in order
    ensures k in Stored(content, PlanSizes(|content|, blockSize), order)
    ensures k < |Slices(content, blockSize)| == |PlanSizes(|content|, blockSize)|
    ensures Stored(content, PlanSizes(|content|, blockSize), order)[k] == Slices(content, blockSize)[k]
  {
    var sizes := PlanSizes(|content|, blockSize);
    StoredPieces(content, sizes, order, k);
    SlicesRejoin(content, blockSize);
    assert |Lengths(Slices(content, blockSize))| == |Slices(content, blockSize)|;
    PlannedStarts(|content|, blockSize, k);
    SliceIsWindow(content, blockSize, k);
  }

  // ----- The destination file ------------------------------------------------------

  /** Writing at an offset, extending the file with zeros if it is too short. */
  function WriteAt(file: Bytes, offset: nat, data: Bytes): (r: Bytes)
    ensures data == [] ==> r == file
    ensures data != [] ==> |r| == Max(|file|, offset + |data|)
    ensures data != [] ==> forall k :: 0 <= k < |r| ==>
              r[k] == if offset <= k < offset + |data| then data[k - offset] else if k < |file| then file[k] else 0
  {
    if data == [] then file else
    seq(Max(|file|, offset + |data|), k requires 0 <= k < Max(|file|, offset + |data|) =>
      if offset <= k < offset + |data| then data[k - offset] else if k < |file| then file[k] else 0)
  }

  function Zeros(n: nat): (r: Bytes)
    ensures |r| == n
    ensures forall k :: 0 <= k < n ==> r[k] == 0
  {
    seq(n, k => 0)
  }

  ghost predicate HasAt(file: Bytes, offset: nat, data: Bytes) {
    data == [] || (offset + |data| <= |file| && forall k :: 0 <= k < |data| ==> file[offset + k] == data[k])
  }

  lemma WriteKeepsApart(file: Bytes, offset: nat, data: Bytes, at: nat, other: Bytes)
    requires HasAt(file, at, other) && (at + |other| <= offset || offset + |data| <= at)
    ensures HasAt(WriteAt(file, offset, data), at, other)
  {
  }

  lemma WriteExtends(file: Bytes, at: nat, got: Bytes, data: Bytes)
    requires HasAt(file, at, got)
    ensures HasAt(WriteAt(file, at + |got|, data), at, got + data)
  {
    WriteKeepsApart(file, at + |got|, data, at, got);
  }

  // ----- Download ------------------------------------------------------------

  /** Bytes as a node stores them: in clear, or sealed by a cipher bound to the block's index. */
  datatype StoredForm = Plain(bytes: Bytes) | Sealed(index: nat, bytes: Bytes)

  function Form(encrypted: bool, index: nat, clear: Bytes): StoredForm {
    if encrypted then Sealed(index, clear) else Plain(clear)
  }

  /** A read plan: for every block its checksum, its clear size and how many replicas can serve it. */
  datatype ReadBlock = ReadBlock(checksum: Digest<StoredForm>, size: nat, replicas: nat)

  datatype ReadPlan = ReadPlan(blocks: seq<ReadBlock>, encrypted: bool, total: nat)

  /** One worker per block: the attempt it is at and the clear bytes of that attempt already written. */
  datatype Progress = Trying(attempt: nat, got: Bytes) | Finished

  /** The file on the local disk and the workers; `failed` once some block ran out of replicas. */
  datatype World = World(file: Bytes, workers: seq<Progress>, failed: bool)

  /** Replies arrive in pieces, in any interleaving. Pieces are written before the block is verified. */
  datatype Event =
    | Receive(block: nat, bytes: Bytes)
    | Verify(block: nat)
    | Break(block: nat)

  function Sizes(plan: ReadPlan): (r: seq<nat>)
    ensures |r| == |plan.blocks|
    ensures forall k :: 0 <= k < |r| ==> r[k] == plan.blocks[k].size
  {
    seq(|plan.blocks|, k requires 0 <= k < |plan.blocks| => plan.blocks[k].size)
  }

  function NextReplica(w: World, plan: ReadPlan, i: nat): World
    requires i < |w.workers| && i < |plan.blocks| && w.workers[i].Trying?
  {
    var attempt := w.workers[i].attempt + 1;
    w.(workers := w.workers[i := Trying(attempt, [])], failed := w.failed || attempt >= plan.blocks[i].replicas)
  }

  /** One step of a worker. */
  function Step(w: World, plan: ReadPlan, e: Event): World {
    var i := e.block;
    if i >= |w.workers| || i >= |plan.blocks| || !w.workers[i].Trying? || w.failed then w else
    var got := w.workers[i].got;
    match e
    case Receive(_, bytes) =>
      w.(file := WriteAt(w.file, Start(Sizes(plan), i) + |got|, bytes),
         workers := w.workers[i := Trying(w.workers[i].attempt, got + bytes)])
    case Verify(_) =>
      if Sha256(Form(plan.encrypted, i, got)) == plan.blocks[i].checksum && |got| == plan.blocks[i].size
      then w.(workers := w.workers[i := Finished])
      else NextReplica(w, plan, i)
    case Break(_) => NextReplica(w, plan, i)
  }

  function Run(w: World, plan: ReadPlan, events: seq<Event>): World
    decreases |events|
  {
    if events == [] then w else Run(Step(w, plan, events[0]), plan, events[1..])
  }

  /** A piece that does not take the reply past the size of its block. */
  predicate Fits(w: World, plan: ReadPlan, e: Event) {
    e.Receive? && e.block < |w.workers| && e.block < |plan.blocks| && w.workers[e.block].Trying? ==>
      |w.workers[e.block].got| + |e.bytes| <= plan.blocks[e.block].size
  }

  /** No reply is ever longer than its block. */
  predicate AllFit(w: World, plan: ReadPlan, events: seq<Event>)
    decreases |events|
  {
    events == [] || (Fits(w, plan, events[0]) && AllFit(Step(w, plan, events[0]), plan, events[1..]))
  }

  /** The file is reserved whole before the first byte arrives. */
  function StartOf(plan: ReadPlan): (w: World) {
    World(Zeros(plan.total), seq(|plan.blocks|, k => Trying(0, [])), exists b | b in plan.blocks :: b.replicas == 0)
  }

  predicate Returned(w: World) { !w.failed && forall i | 0 <= i < |w.workers| :: w.workers[i].Finished? }

  /** The plan describes these blocks. */
  ghost predicate Describes(plan: ReadPlan, blocks: seq<Bytes>) {
    && |plan.blocks| == |blocks|
    && forall k :: 0 <= k < |blocks| ==>
         plan.blocks[k].size == |blocks[k]| && plan.blocks[k].checksum == Sha256(Form(plan.encrypted, k, blocks[k]))
  }

  ghost predicate WorkerOk(w: World, plan: ReadPlan, blocks: seq<Bytes>, i: nat)
    requires i < |w.workers| && i < |blocks| && i < |plan.blocks|
  {
    match w.workers[i]
    case Finished => HasAt(w.file, Start(Sizes(plan), i), blocks[i])
    case Trying(_, got) => |got| <= plan.blocks[i].size && HasAt(w.file, Start(Sizes(plan), i), got)
  }

  /** Nothing but zeros past the last block, and no more of them than were reserved. */
  ghost predicate TailOk(file: Bytes, content: nat, total: nat) {
    && total <= |file| <= Max(total, content)
    && forall k :: content <= k < |file| ==> file[k] == 0
  }

  ghost predicate Inv(w: World, plan: ReadPlan, blocks: seq<Bytes>) {
    && Describes(plan, blocks) && |w.workers| == |blocks|
    && TailOk(w.file, Sum(Sizes(plan)), plan.total)
    && forall i :: 0 <= i < |blocks| ==> WorkerOk(w, plan, blocks, i)
  }

  lemma RegionsApart(sizes: seq<nat>, i: nat, j: nat)
    requires i < |sizes| && j < |sizes| && i != j
    ensures Start(sizes, i) + sizes[i] <= Start(sizes, j) || Start(sizes, j) + sizes[j] <= Start(sizes, i)
  {
    StartOfNext(sizes, i);
    StartOfNext(sizes, j);
    if i < j { StartsRise(sizes, i + 1, j); } else { StartsRise(sizes, j + 1, i); }
  }

  lemma RegionInside(sizes: seq<nat>, i: nat)
    requires i < |sizes|
    ensures Start(sizes, i) + sizes[i] <= Sum(sizes)
  {
    StartOfNext(sizes, i);
    StartsRise(sizes, i + 1, |sizes|);
    assert sizes[..|sizes|] == sizes;
  }

  lemma ReceiveKeepsOther(w: World, plan: ReadPlan, blocks: seq<Bytes>, e: Event, j: nat)
    requires Inv(w, plan, blocks) && e.Receive? && e.block < |w.workers| && w.workers[e.block].Trying? && !w.failed && j < |blocks|
    requires Fits(w, plan, e) && j != e.block
    ensures WorkerOk(Step(w, plan, e), plan, blocks, j)
  {
    var got := w.workers[e.block].got;
    assert WorkerOk(w, plan, blocks, j) && WorkerOk(w, plan, blocks, e.block);
    RegionsApart(Sizes(plan), e.block, j);
    var other := if w.workers[j].Finished? then blocks[j] else w.workers[j].got;
    WriteKeepsApart(w.file, Start(Sizes(plan), e.block) + |got|, e.bytes, Start(Sizes(plan), j), other);
  }

  lemma ReceiveKeepsOwn(w: World, plan: ReadPlan, blocks: seq<Bytes>, e: Event)
    requires Inv(w, plan, blocks) && e.Receive? && e.block < |w.workers| && w.workers[e.block].Trying? && !w.failed
    requires Fits(w, plan, e)
    ensures WorkerOk(Step(w, plan, e), plan, blocks, e.block)
  {
    assert WorkerOk(w, plan, blocks, e.block);
    WriteExtends(w.file, Start(Sizes(plan), e.block), w.workers[e.block].got, e.bytes);
  }

  lemma StepKeepsInv(w: World, plan: ReadPlan, blocks: seq<Bytes>, e: Event)
    requires Inv(w, plan, blocks) && Fits(w, plan, e)
    ensures Inv(Step(w, plan, e), plan, blocks)
  {
    var v := Step(w, plan, e);
    var i := e.block;
    if i < |w.workers| && w.workers[i].Trying? && !w.failed {
      assert WorkerOk(w, plan, blocks, i);
      if e.Receive? {
        RegionInside(Sizes(plan), i);
        forall j | 0 <= j < |blocks| ensures WorkerOk(v, plan, blocks, j) {
          if j == i { ReceiveKeepsOwn(w, plan, blocks, e); } else { ReceiveKeepsOther(w, plan, blocks, e, j); }
        }
      } else {
        forall j | 0 <= j < |blocks| ensures WorkerOk(v, plan, blocks, j) { assert WorkerOk(w, plan, blocks, j); }
      }
    }
  }

  lemma {:induction false} RunKeepsInv(w: World, plan: ReadPlan, blocks: seq<Bytes>, events: seq<Event>)
    requires Inv(w, plan, blocks) && AllFit(w, plan, events)
    ensures Inv(Run(w, plan, events), plan, blocks)
    decreases |events|
  {
    if events != [] {
      StepKeepsInv(w, plan, blocks, events[0]);
      RunKeepsInv(Step(w, plan, events[0]), plan, blocks, events[1..]);
    }
  }

  lemma {:induction false} RegionsMakeTheFile(file: Bytes, blocks: seq<Bytes>, n: nat)
    requires n <= |blocks| && forall i :: 0 <= i < n ==> HasAt(file, Start(Lengths(blocks), i), blocks[i])
    ensures HasAt(file, 0, Flatten(blocks[..n]))
    decreases n
  {
    if n > 0 {
      RegionsMakeTheFile(file, blocks, n - 1);
      FlattenOfNext(blocks, n - 1);
      StartIsLength(blocks, n - 1);
    }
  }

  /** Whenever the download returns, whatever the interleaving and however many replicas failed or sent
      corrupt bytes on the way, the file is the content, followed by zeros if more was reserved. */
  lemma DownloadReturnsTheContent(plan: ReadPlan, blocks: seq<Bytes>, events: seq<Event>)
    requires Describes(plan, blocks) && AllFit(StartOf(plan), plan, events) && Returned(Run(StartOf(plan), plan, events))
    ensures var content := Flatten(blocks);
            var w := Run(StartOf(plan), plan, events);
            && w.file == content + Zeros(Max(0, plan.total - |content|))
            && (w.file == content <==> plan.total <= |content|)
  {
    var w := Run(StartOf(plan), plan, events);
    var content := Flatten(blocks);
    assert Sizes(plan) == Lengths(blocks);
    FlattenLength(blocks);
    RunKeepsInv(StartOf(plan), plan, blocks, events);
    forall i | 0 <= i < |blocks| ensures HasAt(w.file, Start(Lengths(blocks), i), blocks[i]) { assert WorkerOk(w, plan, blocks, i); }
    RegionsMakeTheFile(w.file, blocks, |blocks|);
    assert blocks[..|blocks|] == blocks;
    FileIsContent(w.file, content, plan.total);
  }

  lemma FileIsContent(file: Bytes, content: Bytes, total: nat)
    requires HasAt(file, 0, content) && TailOk(file, |content|, total)
    ensures file == content + Zeros(Max(0, total - |content|))
    ensures file == content <==> total <= |content|
  {
    forall k | 0 <= k < |content| ensures file[k] == content[k] { assert file[0 + k] == content[k]; }
  }

  /** A file that is uploaded and downloaded again comes back as it was. */
  lemma RoundTrip(content: Bytes, blockSize: nat, uploads: seq<nat>, plan: ReadPlan, events: seq<Event>)
    requires blockSize > 0 && (forall k :: 0 <= k < |PlanSizes(|content|, blockSize)| <==> k in uploads)
    requires var stored := Stored(content, PlanSizes(|content|, blockSize), uploads);
             && |plan.blocks| == |PlanSizes(|content|, blockSize)| && plan.total == |content|
             && forall k :: 0 <= k < |plan.blocks| ==>
                  k in stored && plan.blocks[k].size == |stored[k]| && plan.blocks[k].checksum == Sha256(Form(plan.encrypted, k, stored[k]))
    requires AllFit(StartOf(plan), plan, events) && Returned(Run(StartOf(plan), plan, events))
    ensures Run(StartOf(plan), plan, events).file == content
  {
    var blocks := Slices(content, blockSize);
    SlicesRejoin(content, blockSize);
    assert |Lengths(blocks)| == |blocks|;
    forall k | 0 <= k < |blocks|
      ensures Get(Stored(content, PlanSizes(|content|, blockSize), uploads), k) == Some(blocks[k])
    {
      UploadCutsTheFile(content, blockSize, uploads, k);
    }
    DownloadReturnsTheContent(plan, blocks, events);
  }

  // ----- Replies longer than their block ------------------------------------------

  /** Some worker holds more bytes than its block has: this attempt of it cannot be verified. */
  ghost predicate Overfull(w: World, plan: ReadPlan) {
    w.failed || exists i :: 0 <= i < |w.workers| && i < |plan.blocks| && w.workers[i].Trying? && |w.workers[i].got| > plan.blocks[i].size
  }

  ghost predicate AtMostOneReplica(plan: ReadPlan) { forall k :: 0 <= k < |plan.blocks| ==> plan.blocks[k].replicas <= 1 }

  lemma StepKeepsOverfull(w: World, plan: ReadPlan, e: Event)
    requires AtMostOneReplica(plan) && Overfull(w, plan)
    ensures Overfull(Step(w, plan, e), plan)
  {
    if !w.failed {
      var i :| 0 <= i < |w.workers| && i < |plan.blocks| && w.workers[i].Trying? && |w.workers[i].got| > plan.blocks[i].size;
      var v := Step(w, plan, e);
      assert v.failed || (v.workers[i].Trying? && |v.workers[i].got| >= |w.workers[i].got|);
    }
  }

  lemma {:induction false} OverfullNeverReturns(w: World, plan: ReadPlan, events: seq<Event>)
    requires AtMostOneReplica(plan) && Overfull(w, plan) && |w.workers| == |plan.blocks|
    ensures !Returned(Run(w, plan, events))
    decreases |events|
  {
    if events != [] {
      StepKeepsOverfull(w, plan, events[0]);
      OverfullNeverReturns(Step(w, plan, events[0]), plan, events[1..]);
    }
  }

  /** Without a second replica to turn to, a download that returns never got a reply that was too long. */
  lemma {:induction false} ReturnedMeansAllFit(w: World, plan: ReadPlan, events: seq<Event>)
    requires AtMostOneReplica(plan) && |w.workers| == |plan.blocks| && Returned(Run(w, plan, events))
    ensures AllFit(w, plan, events)
    decreases |events|
  {
    if events != [] {
      var next := Step(w, plan, events[0]);
      if !Fits(w, plan, events[0]) { OverfullNeverReturns(next, plan, events[1..]); }
      ReturnedMeansAllFit(next, plan, events[1..]);
    }
  }

  lemma {:induction false} FailedStaysFailed(w: World, plan: ReadPlan, events: seq<Event>)
    requires w.failed
    ensures !Returned(Run(w, plan, events))
    decreases |events|
  {
    if events != [] { FailedStaysFailed(Step(w, plan, events[0]), plan, events[1..]); }
  }

  lemma {:induction false} RunSplits(w: World, plan: ReadPlan, a: seq<Event>, b: seq<Event>)
    ensures Run(w, plan, a + b) == Run(Run(w, plan, a), plan, b)
    decreases |a|
  {
    if a == [] {
      assert a + b == b;
    } else {
      assert (a + b)[1..] == a[1..] + b;
      RunSplits(Step(w, plan, a[0]), plan, a[1..], b);
    }
  }

  lemma RunTwo(w: World, plan: ReadPlan, a: Event, b: Event)
    ensures Run(w, plan, [a, b]) == Step(Step(w, plan, a), plan, b)
  {
    assert [a, b][1..] == [b] && [b][1..] == [];
    assert Run(Step(w, plan, a), plan, [b]) == Run(Step(Step(w, plan, a), plan, b), plan, []);
  }

  /** One whole reply and its verification. */
  function Reply(k: nat, bytes: Bytes): seq<Event> { [Receive(k, bytes), Verify(k)] }

  lemma ReceiveEffect(w: World, plan: ReadPlan, k: nat, attempt: nat, got: Bytes, bytes: Bytes)
    requires k < |w.workers| && k < |plan.blocks| && w.workers[k] == Trying(attempt, got) && !w.failed
    ensures Step(w, plan, Receive(k, bytes))
         == World(WriteAt(w.file, Start(Sizes(plan), k) + |got|, bytes), w.workers[k := Trying(attempt, got + bytes)], false)
  {
  }

  lemma EmptyFirst(bytes: Bytes)
    ensures [] + bytes == bytes
  {
  }

  predicate Accepts(plan: ReadPlan, k: nat, bytes: Bytes)
    requires k < |plan.blocks|
  {
    Sha256(Form(plan.encrypted, k, bytes)) == plan.blocks[k].checksum && |bytes| == plan.blocks[k].size
  }

  lemma VerifyEffect(u: World, plan: ReadPlan, k: nat, attempt: nat, bytes: Bytes)
    requires k < |u.workers| && k < |plan.blocks| && u.workers[k] == Trying(attempt, bytes) && !u.failed
    ensures Step(u, plan, Verify(k))
         == World(u.file, u.workers[k := if Accepts(plan, k, bytes) then Finished else Trying(attempt + 1, [])],
                  !Accepts(plan, k, bytes) && attempt + 1 >= plan.blocks[k].replicas)
  {
  }

  lemma WorkerMovesOn(workers: seq<Progress>, k: nat, first: Progress, second: Progress)
    requires k < |workers|
    ensures workers[k := first][k := second] == workers[k := second]
  {
  }

  lemma ReplyEffect(w: World, plan: ReadPlan, k: nat, attempt: nat, bytes: Bytes)
    requires k < |w.workers| && k < |plan.blocks| && w.workers[k] == Trying(attempt, []) && !w.failed
    ensures Run(w, plan, Reply(k, bytes))
         == World(WriteAt(w.file, Start(Sizes(plan), k), bytes),
                  w.workers[k := if Accepts(plan, k, bytes) then Finished else Trying(attempt + 1, [])],
                  !Accepts(plan, k, bytes) && attempt + 1 >= plan.blocks[k].replicas)
  {
    RunTwo(w, plan, Receive(k, bytes), Verify(k));
    ReceiveEffect(w, plan, k, attempt, [], bytes);
    EmptyFirst(bytes);
    var u := World(WriteAt(w.file, Start(Sizes(plan), k), bytes), w.workers[k := Trying(attempt, bytes)], false);
    assert Step(w, plan, Receive(k, bytes)) == u;
    VerifyEffect(u, plan, k, attempt, bytes);
    WorkerMovesOn(w.workers, k, Trying(attempt, bytes), if Accepts(plan, k, bytes) then Finished else Trying(attempt + 1, []));
  }

  // ----- A download that returns ---------------------------------------------------

  lemma {:induction false} FittingSplits(w: World, plan: ReadPlan, a: seq<Event>, b: seq<Event>)
    ensures AllFit(w, plan, a + b) <==> AllFit(w, plan, a) && AllFit(Run(w, plan, a), plan, b)
    decreases |a|
  {
    if a == [] {
      assert a + b == b;
    } else {
      assert (a + b)[1..] == a[1..] + b;
      FittingSplits(Step(w, plan, a[0]), plan, a[1..], b);
    }
  }

  function Breaks(k: nat, count: nat): seq<Event> { if count == 0 then [] else Breaks(k, count - 1) + [Break(k)] }

  /** Replicas that fail are passed over while there are more. */
  lemma {:induction false} BreaksEffect(w: World, plan: ReadPlan, k: nat, count: nat)
    requires k < |w.workers| && k < |plan.blocks| && w.workers[k] == Trying(0, []) && !w.failed && count < plan.blocks[k].replicas
    ensures Run(w, plan, Breaks(k, count)) == w.(workers := w.workers[k := Trying(count, [])])
    ensures AllFit(w, plan, Breaks(k, count))
  {
    if count > 0 {
      BreaksEffect(w, plan, k, count - 1);
      var before := Run(w, plan, Breaks(k, count - 1));
      RunSplits(w, plan, Breaks(k, count - 1), [Break(k)]);
      FittingSplits(w, plan, Breaks(k, count - 1), [Break(k)]);
      assert [Break(k)][1..] == [];
      assert Run(before, plan, [Break(k)]) == Run(Step(before, plan, Break(k)), plan, []);
      WorkerMovesOn(w.workers, k, Trying(count - 1, []), Trying(count, []));
    }
  }

  lemma ReplyFits(w: World, plan: ReadPlan, k: nat, attempt: nat, bytes: Bytes)
    requires k < |w.workers| && k < |plan.blocks| && w.workers[k] == Trying(attempt, []) && |bytes| <= plan.blocks[k].size
    ensures AllFit(w, plan, Reply(k, bytes))
  {
    assert Reply(k, bytes)[1..] == [Verify(k)] && [Verify(k)][1..] == [];
    assert AllFit(Step(w, plan, Receive(k, bytes)), plan, [Verify(k)]);
  }

  /** The first n blocks in turn, each from its first good replica after some that fail. */
  function Served(blocks: seq<Bytes>, failures: seq<nat>, n: nat): seq<Event>
    requires n <= |blocks| && |failures| == |blocks|
  {
    if n == 0 then [] else Served(blocks, failures, n - 1) + (Breaks(n - 1, failures[n - 1]) + Reply(n - 1, blocks[n - 1]))
  }

  ghost predicate ServedUpTo(w: World, count: nat, n: nat) {
    && !w.failed && |w.workers| == count
    && forall k :: 0 <= k < count ==> w.workers[k] == if k < n then Finished else Trying(0, [])
  }

  lemma OneMoreServed(w: World, plan: ReadPlan, blocks: seq<Bytes>, count: nat, n: nat)
    requires Describes(plan, blocks) && n < |blocks| && ServedUpTo(w, |blocks|, n) && count < plan.blocks[n].replicas
    ensures ServedUpTo(Run(w, plan, Breaks(n, count) + Reply(n, blocks[n])), |blocks|, n + 1)
    ensures AllFit(w, plan, Breaks(n, count) + Reply(n, blocks[n]))
  {
    BreaksEffect(w, plan, n, count);
    var tried := Run(w, plan, Breaks(n, count));
    ReplyEffect(tried, plan, n, count, blocks[n]);
    ReplyFits(tried, plan, n, count, blocks[n]);
    RunSplits(w, plan, Breaks(n, count), Reply(n, blocks[n]));
    FittingSplits(w, plan, Breaks(n, count), Reply(n, blocks[n]));
  }

  lemma {:induction false} AllServed(plan: ReadPlan, blocks: seq<Bytes>, failures: seq<nat>, n: nat)
    requires Describes(plan, blocks) && n <= |blocks| && |failures| == |blocks|
    requires forall k :: 0 <= k < |blocks| ==> failures[k] < plan.blocks[k].replicas
    ensures ServedUpTo(Run(StartOf(plan), plan, Served(blocks, failures, n)), |blocks|, n)
    ensures AllFit(StartOf(plan), plan, Served(blocks, failures, n))
  {
    if n > 0 {
      var w := Run(StartOf(plan), plan, Served(blocks, failures, n - 1));
      AllServed(plan, blocks, failures, n - 1);
      OneMoreServed(w, plan, blocks, failures[n - 1], n - 1);
      RunSplits(StartOf(plan), plan, Served(blocks, failures, n - 1), Breaks(n - 1, failures[n - 1]) + Reply(n - 1, blocks[n - 1]));
      FittingSplits(StartOf(plan), plan, Served(blocks, failures, n - 1), Breaks(n - 1, failures[n - 1]) + Reply(n - 1, blocks[n - 1]));
    } else {
      forall b | b in plan.blocks ensures b.replicas > 0 { var k :| 0 <= k < |plan.blocks| && plan.blocks[k] == b; }
    }
  }

  /** One good replica of every block is enough: however many fail before it, the download returns, with
      the content. */
  lemma GoodReplicasReturn(plan: ReadPlan, blocks: seq<Bytes>, failures: seq<nat>)
    requires Describes(plan, blocks) && plan.total == |Flatten(blocks)| && |failures| == |blocks|
    requires forall k :: 0 <= k < |blocks| ==> failures[k] < plan.blocks[k].replicas
    ensures var w := Run(StartOf(plan), plan, Served(blocks, failures, |blocks|));
            Returned(w) && w.file == Flatten(blocks)
  {
    AllServed(plan, blocks, failures, |blocks|);
    DownloadReturnsTheContent(plan, blocks, Served(blocks, failures, |blocks|));
  }

  // ----- Plans that a reply can damage -----------------------------------------------

  /** Every block but one arrives whole at the first attempt. */
  function Others(blocks: seq<Bytes>, i: nat, n: nat): seq<Event>
    requires n <= |blocks|
  {
    if n == 0 then [] else Others(blocks, i, n - 1) + (if n - 1 == i then [] else Reply(n - 1, blocks[n - 1]))
  }

  /** All but block i of the first n blocks are finished, the rest not begun. */
  ghost predicate FinishedBut(w: World, count: nat, i: nat, n: nat) {
    && !w.failed && |w.workers| == count
    && forall k :: 0 <= k < count ==> w.workers[k] == if k < n && k != i then Finished else Trying(0, [])
  }

  lemma OneMoreFinishes(w: World, plan: ReadPlan, blocks: seq<Bytes>, i: nat, n: nat)
    requires Describes(plan, blocks) && n < |blocks| && n != i && FinishedBut(w, |blocks|, i, n)
    ensures FinishedBut(Run(w, plan, Reply(n, blocks[n])), |blocks|, i, n + 1)
  {
    ReplyEffect(w, plan, n, 0, blocks[n]);
  }

  lemma {:induction false} OthersFinish(plan: ReadPlan, blocks: seq<Bytes>, i: nat, n: nat)
    requires Describes(plan, blocks) && i < |blocks| && n <= |blocks| && forall b :: b in plan.blocks ==> b.replicas > 0
    ensures FinishedBut(Run(StartOf(plan), plan, Others(blocks, i, n)), |blocks|, i, n)
  {
    if n > 0 {
      OthersFinish(plan, blocks, i, n - 1);
      RunSplits(StartOf(plan), plan, Others(blocks, i, n - 1), if n - 1 == i then [] else Reply(n - 1, blocks[n - 1]));
      if n - 1 != i { OneMoreFinishes(Run(StartOf(plan), plan, Others(blocks, i, n - 1)), plan, blocks, i, n - 1); }
    }
  }

  /** Too long for its block and for the whole file, and wrong in every byte of the content. */
  function Overlong(content: Bytes, offset: nat, total: nat): Bytes
    requires offset <= |content|
  {
    seq(Max(total, |content|) + 1 - offset, k requires 0 <= k < Max(total, |content|) + 1 - offset =>
      if offset + k < |content| && content[offset + k] == 1 then 0 else 1)
  }

  /** All blocks but one are finished; that one is served wrongly first and well the second time. */
  function SpillingRun(plan: ReadPlan, blocks: seq<Bytes>, i: nat): seq<Event>
    requires |plan.blocks| == |blocks| && i < |blocks| && Start(Sizes(plan), i) <= |Flatten(blocks)|
  {
    Others(blocks, i, |blocks|)
    + (Reply(i, Overlong(Flatten(blocks), Start(Sizes(plan), i), plan.total)) + Reply(i, blocks[i]))
  }

  /** A reply that is too long is written before it is verified: with a second replica left, the download
      returns although everything behind that block is damaged and the file has grown. */
  lemma OverlongReplySpills(plan: ReadPlan, blocks: seq<Bytes>, i: nat)
    requires Describes(plan, blocks) && i < |blocks| && plan.blocks[i].replicas > 1 && forall b :: b in plan.blocks ==> b.replicas > 0
    ensures Start(Sizes(plan), i) + |blocks[i]| <= |Flatten(blocks)|
    ensures var content := Flatten(blocks);
            var w := Run(StartOf(plan), plan, SpillingRun(plan, blocks, i));
            && Returned(w) && |w.file| > Max(plan.total, |content|)
            && forall k :: Start(Sizes(plan), i) + |blocks[i]| <= k < |content| ==> w.file[k] != content[k]
  {
    var content := Flatten(blocks);
    var offset := Start(Sizes(plan), i);
    SizesOfContent(plan, blocks, i);
    var bad := Overlong(content, offset, plan.total);
    var w := Run(StartOf(plan), plan, Others(blocks, i, |blocks|));
    OthersFinish(plan, blocks, i, |blocks|);
    RunSplits(StartOf(plan), plan, Others(blocks, i, |blocks|), Reply(i, bad) + Reply(i, blocks[i]));
    RunSplits(w, plan, Reply(i, bad), Reply(i, blocks[i]));
    ReplyEffect(w, plan, i, 0, bad);
    var spilled := Run(w, plan, Reply(i, bad));
    ReplyEffect(spilled, plan, i, 1, blocks[i]);
    LateDamage(w.file, content, offset, bad, blocks[i], plan.total);
  }

  lemma SizesOfContent(plan: ReadPlan, blocks: seq<Bytes>, i: nat)
    requires Describes(plan, blocks) && i < |blocks|
    ensures Start(Sizes(plan), i) + |blocks[i]| <= |Flatten(blocks)|
  {
    assert Sizes(plan) == Lengths(blocks);
    FlattenLength(blocks);
    RegionInside(Sizes(plan), i);
  }

  lemma Spilled(file: Bytes, content: Bytes, offset: nat, total: nat)
    requires offset <= |content|
    ensures var spilled := WriteAt(file, offset, Overlong(content, offset, total));
            |spilled| > Max(total, |content|) && forall k :: offset <= k < |content| ==> spilled[k] != content[k]
  {
    var bad := Overlong(content, offset, total);
    forall k | offset <= k < |content| ensures WriteAt(file, offset, bad)[k] != content[k] {
      assert bad[k - offset] != content[k];
    }
  }

  lemma NothingBehindChanges(file: Bytes, offset: nat, good: Bytes, k: nat)
    requires offset + |good| <= k < |file|
    ensures |WriteAt(file, offset, good)| == |file| && WriteAt(file, offset, good)[k] == file[k]
  {
  }

  lemma LateDamage(file: Bytes, content: Bytes, offset: nat, bad: Bytes, good: Bytes, total: nat)
    requires offset + |good| <= |content| && bad == Overlong(content, offset, total)
    ensures var after := WriteAt(WriteAt(file, offset, bad), offset, good);
            |after| > Max(total, |content|) && forall k :: offset + |good| <= k < |content| ==> after[k] != content[k]
  {
    var spilled := WriteAt(file, offset, bad);
    Spilled(file, content, offset, total);
    NothingBehindChanges(spilled, offset, good, |content|);
    forall k | offset + |good| <= k < |content| ensures WriteAt(spilled, offset, good)[k] != content[k] {
      NothingBehindChanges(spilled, offset, good, k);
    }
  }

  /** A download of the plan is right, whatever replies it gets, whenever it returns. */
  ghost predicate AlwaysRight(plan: ReadPlan, blocks: seq<Bytes>) {
    forall events ::
      Returned(Run(StartOf(plan), plan, events)) ==>
        Run(StartOf(plan), plan, events).file == Flatten(blocks) + Zeros(Max(0, plan.total - |Flatten(blocks)|))
  }

  /** Exactly the plans for which no reply, however long, can damage a download that returns: some block
      has no replica, so that none returns, or no block has a second one. */
  lemma RightWhateverArrivesExactly(plan: ReadPlan, blocks: seq<Bytes>)
    requires Describes(plan, blocks)
    ensures AlwaysRight(plan, blocks) <==> (exists b :: b in plan.blocks && b.replicas == 0) || AtMostOneReplica(plan)
  {
    if exists b :: b in plan.blocks && b.replicas == 0 {
      forall events ensures !Returned(Run(StartOf(plan), plan, events)) { FailedStaysFailed(StartOf(plan), plan, events); }
    } else if AtMostOneReplica(plan) {
      forall events | Returned(Run(StartOf(plan), plan, events))
        ensures Run(StartOf(plan), plan, events).file == Flatten(blocks) + Zeros(Max(0, plan.total - |Flatten(blocks)|))
      {
        ReturnedMeansAllFit(StartOf(plan), plan, events);
        DownloadReturnsTheContent(plan, blocks, events);
      }
    } else {
      var i :| 0 <= i < |plan.blocks| && plan.blocks[i].replicas > 1;
      OverlongReplySpills(plan, blocks, i);
      assert !AlwaysRight(plan, blocks) by {
        assert Returned(Run(StartOf(plan), plan, SpillingRun(plan, blocks, i)));
      }
    }
  }
}
