/** Splitting a file into blocks of a fixed size (domain/partition.py). */
module Partition {
  import opened Common

  datatype BlockSpec = BlockSpec(index: nat, size: nat, offset: nat)

  /** Sizes of the blocks of a file: full blocks, then what is left over. */
  function PlanSizes(size: nat, blockSize: nat): seq<nat>
    requires blockSize > 0
  {
    if size == 0 then [] else if size <= blockSize then [size] else [blockSize] + PlanSizes(size - blockSize, blockSize)
  }

  /** Position and size of every block, computed from its index alone; they just cover the file. */
  ghost predicate IsPlan(specs: seq<BlockSpec>, size: nat, blockSize: nat) {
    && (specs != [] ==> (|specs| - 1) * blockSize < size)
    && size <= |specs| * blockSize
    && forall k :: 0 <= k < |specs| ==> IsBlockAt(specs[k], k, size, blockSize)
  }

  ghost predicate IsBlockAt(spec: BlockSpec, k: nat, size: nat, blockSize: nat) {
    spec.index == k && spec.offset == k * blockSize && spec.size == Min(blockSize, size - spec.offset)
  }

  lemma IndexesOfPlan(specs: seq<BlockSpec>, size: nat, blockSize: nat)
    requires IsPlan(specs, size, blockSize)
    ensures forall k :: 0 <= k < |specs| ==> specs[k].index == k
  {
    forall k | 0 <= k < |specs| ensures specs[k].index == k { assert IsBlockAt(specs[k], k, size, blockSize); }
  }

  /** Rounded-up division finds the least number of blocks that covers the file. */
  lemma {:induction false} RoundedUp(size: nat, blockSize: nat, n: nat)
    requires blockSize > 0 && (n > 0 ==> (n - 1) * blockSize < size) && size <= n * blockSize
    ensures n == (size + blockSize - 1) / blockSize
  {
    var q := (size + blockSize - 1) / blockSize;
    assert q < n ==> q * blockSize <= (n - 1) * blockSize;
    assert n < q ==> (n + 1) * blockSize <= q * blockSize;
  }

  /** How many blocks that many bytes take. */
  function BlocksFor(bytes: nat, blockSize: nat): nat
    requires blockSize > 0
  {
    (bytes + blockSize - 1) / blockSize
  }

  lemma PlanHasBlocksFor(bytes: nat, blockSize: nat)
    requires blockSize > 0
    ensures |PlanSizes(bytes, blockSize)| == BlocksFor(bytes, blockSize)
  {
    PlanCovers(bytes, blockSize);
    RoundedUp(bytes, blockSize, |PlanSizes(bytes, blockSize)|);
  }

  method BlockCountFor(size: int, blockSize: int) returns (r: Result<nat>)
    ensures r.Err? <==> size < 0 || blockSize <= 0
    ensures r.Err? ==> r.error == InvalidBlockSize
    ensures r.Ok? ==> r.value == |PlanSizes(size, blockSize)|
  {
    if size < 0 || blockSize <= 0 {
      return Err(InvalidBlockSize);
    }
    PlanHasBlocksFor(size, blockSize);
    return Ok((size + blockSize - 1) / blockSize);
  }

  lemma {:induction false} PlanCovers(size: nat, blockSize: nat)
    requires blockSize > 0
    ensures var n := |PlanSizes(size, blockSize)|;
            (n > 0 ==> (n - 1) * blockSize < size) && size <= n * blockSize
    decreases size
  {
    if blockSize < size {
      PlanCovers(size - blockSize, blockSize);
      var n := |PlanSizes(size - blockSize, blockSize)|;
      OneMoreFits(n - 1, blockSize);
      OneMoreFits(n, blockSize);
    }
  }

  lemma NextSize(specs: seq<BlockSpec>, spec: BlockSpec, left: nat, all: seq<nat>, blockSize: nat)
    requires blockSize > 0 && left > 0 && spec.size == Min(blockSize, left)
    requires SpecSizes(specs) + PlanSizes(left, blockSize) == all
    ensures SpecSizes(specs + [spec]) + PlanSizes(left - spec.size, blockSize) == all
  {
    assert SpecSizes(specs + [spec]) == SpecSizes(specs) + [spec.size];
    assert PlanSizes(left, blockSize) == [spec.size] + PlanSizes(left - spec.size, blockSize);
  }

  lemma OneMoreFits(n: int, blockSize: nat)
    ensures (n + 1) * blockSize == n * blockSize + blockSize
  {
  }

  method PlanBlocks(size: int, blockSize: int) returns (r: Result<seq<BlockSpec>>)
    ensures r.Err? <==> size < 0 || blockSize <= 0
    ensures r.Err? ==> r.error == InvalidBlockSize
    ensures r.Ok? ==> IsPlan(r.value, size, blockSize)
    ensures r.Ok? ==> SpecSizes(r.value) == PlanSizes(size, blockSize)
  {
    if size < 0 || blockSize <= 0 {
      return Err(InvalidBlockSize);
    }
    var specs: seq<BlockSpec> := [];
    var offset, index := 0, 0;
    while offset < size
      invariant 0 <= offset <= size && 0 <= index == |specs|
      invariant if offset < size then offset == |specs| * blockSize
                else (specs != [] ==> (|specs| - 1) * blockSize < size) && size <= |specs| * blockSize
      invariant SpecSizes(specs) + PlanSizes(size - offset, blockSize) == PlanSizes(size, blockSize)
      invariant forall k :: 0 <= k < |specs| ==> IsBlockAt(specs[k], k, size, blockSize)
    {
      var current := Min(blockSize, size - offset);
      NextSize(specs, BlockSpec(index, current, offset), size - offset, PlanSizes(size, blockSize), blockSize);
      OneMoreFits(|specs|, blockSize);
      specs := specs + [BlockSpec(index, current, offset)];
      offset, index := offset + current, index + 1;
    }
    return Ok(specs);
  }

  function SpecSizes(specs: seq<BlockSpec>): (r: seq<nat>)
    ensures |r| == |specs|
    ensures forall k :: 0 <= k < |r| ==> r[k] == specs[k].size
  {
    seq(|specs|, k requires 0 <= k < |specs| => specs[k].size)
  }

  /** Every block is full except the last, which holds between one byte and a full block. */
  ghost predicate IsPartition(sizes: seq<nat>, blockSize: nat) {
    && (forall i :: 0 <= i < |sizes| - 1 ==> sizes[i] == blockSize)
    && (sizes != [] ==> 0 < sizes[|sizes| - 1] <= blockSize)
  }

  /** The plan is a partition of the file, and the only one. */
  lemma {:induction false} PlanIsTheOnlyPartition(sizes: seq<nat>, size: nat, blockSize: nat)
    requires blockSize > 0
    ensures IsPartition(sizes, blockSize) && Sum(sizes) == size <==> sizes == PlanSizes(size, blockSize)
    decreases size
  {
    if sizes == [] {
    } else if size <= blockSize {
      LastIsCounted(sizes);
      if |sizes| == 1 { assert sizes == [sizes[0]]; } else { LastIsCounted(sizes[1..]); }
    } else {
      PlanIsTheOnlyPartition(sizes[1..], size - blockSize, blockSize);
      assert sizes == [sizes[0]] + sizes[1..];
    }
  }

  lemma {:induction false} LastIsCounted(sizes: seq<nat>)
    requires sizes != []
    ensures Sum(sizes) >= sizes[|sizes| - 1]
  {
    if |sizes| > 1 { LastIsCounted(sizes[1..]); }
  }

  // ----- Appending -----------------------------------------------------------

  /** Whether an append has to rewrite the last block: it exists and is not full. */
  predicate RewritesTail(sizes: seq<nat>, blockSize: nat) {
    sizes != [] && sizes[|sizes| - 1] < blockSize
  }

  /** How many leading blocks an append leaves alone. */
  function Kept(sizes: seq<nat>, blockSize: nat): (k: nat)
    ensures k <= |sizes|
  {
    if RewritesTail(sizes, blockSize) then |sizes| - 1 else |sizes|
  }

  function TailSize(sizes: seq<nat>, blockSize: nat): nat {
    if RewritesTail(sizes, blockSize) then sizes[|sizes| - 1] else 0
  }

  lemma JoinedPartition(full: seq<nat>, last: seq<nat>, blockSize: nat)
    requires last != [] && IsPartition(last, blockSize) && forall i :: 0 <= i < |full| ==> full[i] == blockSize
    ensures IsPartition(full + last, blockSize)
  {
    forall i | 0 <= i < |full + last| ensures (full + last)[i] == if i < |full| then full[i] else last[i - |full|] {}
  }

  lemma {:induction false} PartitionIsPlan(sizes: seq<nat>, blockSize: nat)
    requires blockSize > 0 && IsPartition(sizes, blockSize)
    ensures sizes == PlanSizes(Sum(sizes), blockSize)
  {
    PlanIsTheOnlyPartition(sizes, Sum(sizes), blockSize);
  }

  lemma {:induction false} FullBlocksFirst(full: seq<nat>, last: seq<nat>, blockSize: nat)
    requires blockSize > 0 && last != [] && IsPartition(last, blockSize)
    requires forall i :: 0 <= i < |full| ==> full[i] == blockSize
    ensures full + last == PlanSizes(Sum(full) + Sum(last), blockSize)
  {
    SumConcat(full, last);
    JoinedPartition(full, last, blockSize);
    PartitionIsPlan(full + last, blockSize);
  }

  lemma KeptAndTail(sizes: seq<nat>, blockSize: nat)
    ensures Sum(sizes) == Sum(sizes[..Kept(sizes, blockSize)]) + TailSize(sizes, blockSize)
  {
    var k := Kept(sizes, blockSize);
    assert sizes == sizes[..k] + sizes[k..];
    SumConcat(sizes[..k], sizes[k..]);
    if k < |sizes| { assert sizes[k..] == [sizes[k]]; }
  }

  lemma KeptAreFull(sizes: seq<nat>, blockSize: nat)
    requires IsPartition(sizes, blockSize)
    ensures forall i :: 0 <= i < Kept(sizes, blockSize) ==> sizes[i] == blockSize
  {
  }

  /** Rewriting the tail and adding blocks yields the plan of the longer file. */
  lemma AppendKeepsPlan(sizes: seq<nat>, added: nat, blockSize: nat)
    requires blockSize > 0 && added > 0 && IsPartition(sizes, blockSize)
    ensures sizes[..Kept(sizes, blockSize)] + PlanSizes(TailSize(sizes, blockSize) + added, blockSize)
         == PlanSizes(Sum(sizes) + added, blockSize)
  {
    var tail := TailSize(sizes, blockSize) + added;
    var full := sizes[..Kept(sizes, blockSize)];
    KeptAreFull(sizes, blockSize);
    KeptAndTail(sizes, blockSize);
    FullThenPlan(full, tail, blockSize);
  }

  lemma FullThenPlan(full: seq<nat>, left: nat, blockSize: nat)
    requires blockSize > 0 && left > 0 && forall i :: 0 <= i < |full| ==> full[i] == blockSize
    ensures full + PlanSizes(left, blockSize) == PlanSizes(Sum(full) + left, blockSize)
  {
    var last := PlanSizes(left, blockSize);
    PlanIsTheOnlyPartition(last, left, blockSize);
    FullBlocksFirst(full, last, blockSize);
  }

  // ----- Cutting the bytes ---------------------------------------------------

  /** The bytes of a file, cut block by block. */
  function Slices(content: Bytes, blockSize: nat): seq<Bytes>
    requires blockSize > 0
    decreases |content|
  {
    if content == [] then [] else
    if |content| <= blockSize then [content] else [content[..blockSize]] + Slices(content[blockSize..], blockSize)
  }

  lemma {:induction false} SlicesRejoin(content: Bytes, blockSize: nat)
    requires blockSize > 0
    ensures Flatten(Slices(content, blockSize)) == content
    ensures Lengths(Slices(content, blockSize)) == PlanSizes(|content|, blockSize)
    decreases |content|
  {
    if |content| > blockSize {
      var rest := content[blockSize..];
      SlicesRejoin(rest, blockSize);
      assert Slices(content, blockSize)[1..] == Slices(rest, blockSize);
      assert Lengths(Slices(content, blockSize)) == [blockSize] + Lengths(Slices(rest, blockSize));
    }
  }

  lemma SliceOfRest(content: Bytes, d: nat, a: nat, b: nat)
    requires d <= |content| && a <= b <= |content| - d
    ensures content[d..][a..b] == content[d + a..d + b]
  {
  }

  /** The window the client cuts for the k-th new block is the k-th slice. */
  lemma {:induction false} SliceIsWindow(content: Bytes, blockSize: nat, k: nat)
    requires blockSize > 0 && k < |Slices(content, blockSize)|
    ensures 0 <= k * blockSize <= |content|
    ensures Slices(content, blockSize)[k] == content[k * blockSize..Min(k * blockSize + blockSize, |content|)]
    decreases k
  {
    if k == 0 {
      assert k * blockSize == 0;
    } else {
      var rest, from := content[blockSize..], (k - 1) * blockSize;
      SliceIsWindow(rest, blockSize, k - 1);
      OneMoreFits(k - 1, blockSize);
      assert k * blockSize == blockSize + from;
      SliceOfRest(content, blockSize, from, Min(from + blockSize, |rest|));
    }
  }

  /** The k-th window of a byte string, clamped at its end. */
  function Window(content: Bytes, blockSize: nat, k: nat): Bytes {
    var from := Min(k * blockSize, |content|);
    content[from..Min(from + blockSize, |content|)]
  }

  lemma WindowIsPiece(content: Bytes, blockSize: nat, k: nat)
    requires blockSize > 0 && k < |Slices(content, blockSize)|
    ensures Window(content, blockSize, k) == Slices(content, blockSize)[k]
  {
    SliceIsWindow(content, blockSize, k);
  }

  /** The client's loop over the blocks of a plan: each one takes its window of the old tail and the
      new bytes. */
  method CutSlices(content: Bytes, count: nat, blockSize: nat) returns (pieces: seq<Bytes>)
    requires blockSize > 0 && count == |PlanSizes(|content|, blockSize)|
    ensures pieces == Slices(content, blockSize) && Flatten(pieces) == content
  {
    SlicesRejoin(content, blockSize);
    ghost var slices := Slices(content, blockSize);
    assert |Lengths(slices)| == |slices| == count;
    pieces := [];
    for k := 0 to count
      invariant pieces == slices[..k]
    {
      WindowIsPiece(content, blockSize, k);
      pieces := pieces + [Window(content, blockSize, k)];
    }
    assert slices[..count] == slices;
  }

  /** The block contents after an append: the kept blocks, then the old tail and the new bytes cut again. */
  function Appended(blocks: seq<Bytes>, data: Bytes, blockSize: nat): seq<Bytes>
    requires blockSize > 0
  {
    var k := Kept(Lengths(blocks), blockSize);
    blocks[..k] + Slices(Flatten(blocks[k..]) + data, blockSize)
  }

  /** An append adds its bytes at the end and nothing else changes. */
  lemma AppendedBytes(blocks: seq<Bytes>, data: Bytes, blockSize: nat)
    requires blockSize > 0
    ensures Flatten(Appended(blocks, data, blockSize)) == Flatten(blocks) + data
  {
    AppendedAt(blocks, Kept(Lengths(blocks), blockSize), data, blockSize);
  }

  lemma AppendedAt(blocks: seq<Bytes>, k: nat, data: Bytes, blockSize: nat)
    requires blockSize > 0 && k <= |blocks|
    ensures Flatten(blocks[..k] + Slices(Flatten(blocks[k..]) + data, blockSize)) == Flatten(blocks) + data
  {
    var head, tail := Flatten(blocks[..k]), Flatten(blocks[k..]);
    assert Flatten(blocks) == head + tail by {
      FlattenConcat(blocks[..k], blocks[k..]);
      assert blocks == blocks[..k] + blocks[k..];
    }
    SlicesRejoin(tail + data, blockSize);
    FlattenConcat(blocks[..k], Slices(tail + data, blockSize));
    assert head + (tail + data) == head + tail + data;
  }

  lemma TailBytes(blocks: seq<Bytes>, blockSize: nat)
    ensures var k := Kept(Lengths(blocks), blockSize);
            && Flatten(blocks[k..]) == (if k < |blocks| then blocks[k] else [])
            && |Flatten(blocks[k..])| == TailSize(Lengths(blocks), blockSize)
  {
    var k := Kept(Lengths(blocks), blockSize);
    if k < |blocks| { assert blocks[k..] == [blocks[k]]; }
  }

  lemma AppendedSizes(blocks: seq<Bytes>, data: Bytes, blockSize: nat)
    requires blockSize > 0 && data != [] && IsPartition(Lengths(blocks), blockSize)
    ensures Lengths(Appended(blocks, data, blockSize)) == PlanSizes(|Flatten(blocks)| + |data|, blockSize)
  {
    var k := Kept(Lengths(blocks), blockSize);
    var content := Flatten(blocks[k..]) + data;
    TailBytes(blocks, blockSize);
    assert Lengths(Appended(blocks, data, blockSize)) == Lengths(blocks)[..k] + PlanSizes(|content|, blockSize) by {
      LengthsConcat(blocks[..k], Slices(content, blockSize));
      SlicesRejoin(content, blockSize);
      assert Lengths(blocks[..k]) == Lengths(blocks)[..k];
    }
    AppendKeepsPlan(Lengths(blocks), |data|, blockSize);
    FlattenLength(blocks);
  }

  lemma PlannedIsPartition(sizes: seq<nat>, size: nat, blockSize: nat)
    requires blockSize > 0 && sizes == PlanSizes(size, blockSize)
    ensures IsPartition(sizes, blockSize)
  {
    PlanIsTheOnlyPartition(sizes, size, blockSize);
  }

  lemma AppendedBytesAndSizes(blocks: seq<Bytes>, data: Bytes, blockSize: nat)
    requires blockSize > 0 && data != [] && IsPartition(Lengths(blocks), blockSize)
    ensures Flatten(Appended(blocks, data, blockSize)) == Flatten(blocks) + data
    ensures Lengths(Appended(blocks, data, blockSize)) == PlanSizes(|Flatten(blocks)| + |data|, blockSize)
  {
    AppendedBytes(blocks, data, blockSize);
    AppendedSizes(blocks, data, blockSize);
  }

  /** An append turns one well-cut file into another and adds its bytes at the end. */
  lemma AppendedFile(blocks: seq<Bytes>, data: Bytes, blockSize: nat)
    requires blockSize > 0 && data != [] && IsPartition(Lengths(blocks), blockSize)
    ensures Flatten(Appended(blocks, data, blockSize)) == Flatten(blocks) + data
    ensures IsPartition(Lengths(Appended(blocks, data, blockSize)), blockSize)
  {
    AppendedBytesAndSizes(blocks, data, blockSize);
    PlannedIsPartition(Lengths(Appended(blocks, data, blockSize)), |Flatten(blocks)| + |data|, blockSize);
  }
}
