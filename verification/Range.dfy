/** Reading part of a file: which blocks to fetch and what to keep of each one
    (domain/partition.py, the range endpoint and the client's read command). */
module Range {
  import opened Common

  /** A block that meets the requested range; `skip` and `take` count clear bytes. */
  datatype BlockSlice = BlockSlice(index: nat, skip: nat, take: nat)

  function Start(clear: seq<nat>, k: nat): nat
    requires k <= |clear|
  {
    Sum(clear[..k])
  }

  lemma StartOfNext(clear: seq<nat>, k: nat)
    requires k < |clear|
    ensures Start(clear, k + 1) == Start(clear, k) + clear[k]
  {
    assert clear[..k + 1] == clear[..k] + [clear[k]];
    SumConcat(clear[..k], [clear[k]]);
    assert Sum([clear[k]]) == clear[k] + Sum([]);
  }

  lemma {:induction false} StartsRise(clear: seq<nat>, j: nat, k: nat)
    requires j <= k <= |clear|
    ensures Start(clear, j) <= Start(clear, k)
    decreases k - j
  {
    if j < k {
      StartOfNext(clear, k - 1);
      StartsRise(clear, j, k - 1);
    }
  }

  /** Block k holds at least one byte of [from, to). */
  predicate Meets(clear: seq<nat>, k: nat, from: int, to: int)
    requires k < |clear|
  {
    Max(Start(clear, k), from) < Min(Start(clear, k) + clear[k], to)
  }

  /** The slice is exactly the intersection of its block with [from, to). */
  predicate IsIntersection(clear: seq<nat>, slice: BlockSlice, from: int, to: int) {
    && slice.index < |clear| && Meets(clear, slice.index, from, to)
    && var start := Start(clear, slice.index);
       && start + slice.skip == Max(start, from)
       && start + slice.skip + slice.take == Min(start + clear[slice.index], to)
  }

  predicate IsListed(slices: seq<BlockSlice>, k: nat) { exists i | 0 <= i < |slices| :: slices[i].index == k }

  /** Exactly the blocks among the first n that meet the range, once each and in order. */
  ghost predicate IsRange(clear: seq<nat>, n: nat, slices: seq<BlockSlice>, from: int, to: int)
    requires n <= |clear|
  {
    && (forall i, j :: 0 <= i < j < |slices| ==> slices[i].index < slices[j].index)
    && (forall i :: 0 <= i < |slices| ==> slices[i].index < n && IsIntersection(clear, slices[i], from, to))
    && (forall k: nat :: k < n && Meets(clear, k, from, to) ==> IsListed(slices, k))
  }

  function ClearSizes(sizes: seq<int>, overhead: int): (r: seq<int>)
    ensures |r| == |sizes|
    ensures forall i :: 0 <= i < |r| ==> r[i] == sizes[i] - overhead
  {
    seq(|sizes|, i requires 0 <= i < |sizes| => sizes[i] - overhead)
  }

  predicate NoneNegative(sizes: seq<int>) { forall i | 0 <= i < |sizes| :: sizes[i] >= 0 }

  function Naturals(sizes: seq<int>): (r: seq<nat>)
    requires NoneNegative(sizes)
    ensures r == sizes
  {
    seq(|sizes|, i requires 0 <= i < |sizes| => var c: nat := sizes[i]; c)
  }

  /** The slice the loop takes from block k, if any. */
  function SliceAt(k: nat, start: nat, end: nat, from: int, to: int): seq<BlockSlice> {
    var skip := Max(0, from - start);
    var take := Min(end, to) - (start + skip);
    if end > from && start < to && take > 0 then [BlockSlice(k, skip, take)] else []
  }

  function Chosen(clear: seq<nat>, n: nat, from: int, to: int): seq<BlockSlice>
    requires n <= |clear|
  {
    if n == 0 then [] else
    Chosen(clear, n - 1, from, to) + SliceAt(n - 1, Start(clear, n - 1), Start(clear, n - 1) + clear[n - 1], from, to)
  }

  lemma SliceIsIntersection(clear: seq<nat>, k: nat, from: int, to: int)
    requires k < |clear| && 0 <= from
    ensures var s := SliceAt(k, Start(clear, k), Start(clear, k) + clear[k], from, to);
            if Meets(clear, k, from, to) then |s| == 1 && s[0].index == k && IsIntersection(clear, s[0], from, to) else s == []
  {
  }

  /** Adding the slice of block k, or nothing when the block does not meet the range. */
  lemma NextBlock(clear: seq<nat>, k: nat, before: seq<BlockSlice>, piece: seq<BlockSlice>, from: int, to: int)
    requires k < |clear| && IsRange(clear, k, before, from, to)
    requires if Meets(clear, k, from, to)
             then |piece| == 1 && piece[0].index == k && IsIntersection(clear, piece[0], from, to) else piece == []
    ensures IsRange(clear, k + 1, before + piece, from, to)
  {
    var after := before + piece;
    forall j: nat | j < k + 1 && Meets(clear, j, from, to) ensures IsListed(after, j) {
      if j == k {
        assert after[|before|].index == k;
      } else {
        assert IsListed(before, j);
        var i :| 0 <= i < |before| && before[i].index == j;
        assert after[i].index == j;
      }
    }
  }

  /** What the loop chooses is exactly the blocks that meet the range. */
  lemma {:induction false} ChosenIsRange(clear: seq<nat>, n: nat, from: int, to: int)
    requires n <= |clear| && 0 <= from
    ensures IsRange(clear, n, Chosen(clear, n, from, to), from, to)
    decreases n
  {
    if n > 0 {
      var piece := SliceAt(n - 1, Start(clear, n - 1), Start(clear, n - 1) + clear[n - 1], from, to);
      ChosenIsRange(clear, n - 1, from, to);
      SliceIsIntersection(clear, n - 1, from, to);
      NextBlock(clear, n - 1, Chosen(clear, n - 1, from, to), piece, from, to);
    }
  }

  lemma ChosenNext(clear: seq<nat>, k: nat, from: int, to: int)
    requires k < |clear|
    ensures Start(clear, k + 1) == Start(clear, k) + clear[k]
    ensures Chosen(clear, k + 1, from, to)
         == Chosen(clear, k, from, to) + SliceAt(k, Start(clear, k), Start(clear, k) + clear[k], from, to)
  {
    StartOfNext(clear, k);
  }

  /** Once the range has ended nothing more is chosen. */
  lemma {:induction false} ChosenStops(clear: seq<nat>, n: nat, m: nat, from: int, to: int)
    requires n <= m <= |clear| && Start(clear, n) >= to
    ensures Chosen(clear, m, from, to) == Chosen(clear, n, from, to)
    decreases m
  {
    if n < m {
      StartsRise(clear, n, m - 1);
      ChosenStops(clear, n, m - 1, from, to);
    }
  }

  /** The blocks to fetch for [offset, offset + length), with what to keep of each one. */
  method PlanRange(sizes: seq<int>, offset: int, length: int, overhead: int) returns (r: Result<seq<BlockSlice>>)
    ensures r.Err? <==> offset < 0 || length < 0 || !NoneNegative(ClearSizes(sizes, overhead))
    ensures r.Err? ==> r.error == InvalidArgument
    ensures r.Ok? ==> IsRange(Naturals(ClearSizes(sizes, overhead)), |sizes|, r.value, offset, offset + length)
  {
    if offset < 0 || length < 0 || !NoneNegative(ClearSizes(sizes, overhead)) {
      return Err(InvalidArgument);
    }
    var clear := Naturals(ClearSizes(sizes, overhead));
    ChosenIsRange(clear, |clear|, offset, offset + length);
    var slices := ScanBlocks(clear, offset, length);
    return Ok(slices);
  }

  method ScanBlocks(clear: seq<nat>, offset: nat, length: nat) returns (slices: seq<BlockSlice>)
    ensures slices == Chosen(clear, |clear|, offset, offset + length)
  {
    slices := [];
    if length == 0 {
      assert Start(clear, 0) == 0;
      NothingOfNothing(clear, |clear|, offset);
      return;
    }
    var end := offset + length;
    var start := 0;
    for index := 0 to |clear|
      invariant start == Start(clear, index) && slices == Chosen(clear, index, offset, end)
    {
      ChosenNext(clear, index, offset, end);
      var blockEnd := start + clear[index];
      if blockEnd > offset && start < end {
        var skip := Max(0, offset - start);
        var take := Min(blockEnd, end) - (start + skip);
        if take > 0 {
          slices := slices + [BlockSlice(index, skip, take)];
        }
      }
      start := blockEnd;
      if start >= end {
        ChosenStops(clear, index + 1, |clear|, offset, end);
        return;
      }
    }
  }

  lemma {:induction false} NothingOfNothing(clear: seq<nat>, n: nat, at: nat)
    requires n <= |clear|
    ensures Chosen(clear, n, at, at) == []
    decreases n
  {
    if n > 0 { NothingOfNothing(clear, n - 1, at); }
  }

  // ----- Putting the pieces together ------------------------------------------

  predicate Fits(blocks: seq<Bytes>, slice: BlockSlice) {
    slice.index < |blocks| && slice.skip + slice.take <= |blocks[slice.index]|
  }

  function Cut(blocks: seq<Bytes>, slice: BlockSlice): Bytes
    requires Fits(blocks, slice)
  {
    blocks[slice.index][slice.skip..slice.skip + slice.take]
  }

  function Recombined(blocks: seq<Bytes>, slices: seq<BlockSlice>): Bytes
    requires forall i :: 0 <= i < |slices| ==> Fits(blocks, slices[i])
  {
    if slices == [] then [] else Recombined(blocks, slices[..|slices| - 1]) + Cut(blocks, slices[|slices| - 1])
  }

  /** The bytes of [from, to) that exist. */
  function Part(content: Bytes, from: nat, to: nat): Bytes
    requires from <= to
  {
    content[Min(from, |content|)..Min(to, |content|)]
  }

  lemma PartOfConcat(a: Bytes, b: Bytes, from: nat, to: nat)
    requires from <= to
    ensures Part(a + b, from, to) == Part(a, from, to) + Part(b, Max(0, from - |a|), Max(0, to - |a|))
  {
  }

  lemma SlicesFit(blocks: seq<Bytes>, n: nat, slices: seq<BlockSlice>, from: int, to: int)
    requires n <= |blocks| && IsRange(Lengths(blocks), n, slices, from, to)
    ensures forall i :: 0 <= i < |slices| ==> Fits(blocks, slices[i])
  {
    forall i | 0 <= i < |slices| ensures Fits(blocks, slices[i]) {
      assert IsIntersection(Lengths(blocks), slices[i], from, to);
    }
  }

  lemma StartIsLength(blocks: seq<Bytes>, k: nat)
    requires k <= |blocks|
    ensures Start(Lengths(blocks), k) == |Flatten(blocks[..k])|
  {
    FlattenLength(blocks[..k]);
    assert Lengths(blocks)[..k] == Lengths(blocks[..k]);
  }

  lemma FlattenOfNext(blocks: seq<Bytes>, k: nat)
    requires k < |blocks|
    ensures Flatten(blocks[..k + 1]) == Flatten(blocks[..k]) + blocks[k]
  {
    assert blocks[..k + 1] == blocks[..k] + [blocks[k]];
    FlattenConcat(blocks[..k], [blocks[k]]);
    assert Flatten([blocks[k]]) == blocks[k] + Flatten([]);
  }

  lemma DropLast(clear: seq<nat>, n: nat, slices: seq<BlockSlice>, from: int, to: int)
    requires 0 < n <= |clear| && IsRange(clear, n, slices, from, to) && slices != [] && slices[|slices| - 1].index == n - 1
    ensures IsRange(clear, n - 1, slices[..|slices| - 1], from, to)
  {
    var front := slices[..|slices| - 1];
    forall k: nat | k < n - 1 && Meets(clear, k, from, to) ensures IsListed(front, k) {
      assert IsListed(slices, k);
      var i :| 0 <= i < |slices| && slices[i].index == k;
      assert front[i].index == k;
    }
  }

  /** The last listed slice is block n - 1 exactly when that block meets the range. */
  lemma LastSlice(clear: seq<nat>, n: nat, slices: seq<BlockSlice>, from: int, to: int)
    requires 0 < n <= |clear| && IsRange(clear, n, slices, from, to)
    ensures Meets(clear, n - 1, from, to) ==> slices != [] && slices[|slices| - 1].index == n - 1
                                              && IsRange(clear, n - 1, slices[..|slices| - 1], from, to)
    ensures !Meets(clear, n - 1, from, to) ==> IsRange(clear, n - 1, slices, from, to)
  {
    if Meets(clear, n - 1, from, to) {
      assert IsListed(slices, n - 1);
      DropLast(clear, n, slices, from, to);
    } else {
      forall i | 0 <= i < |slices| ensures slices[i].index != n - 1 {
        assert IsIntersection(clear, slices[i], from, to);
      }
    }
  }

  /** What one more block contributes to a range. */
  function Contribution(blocks: seq<Bytes>, k: nat, from: nat, to: nat): Bytes
    requires k < |blocks| && from <= to
  {
    var done := |Flatten(blocks[..k])|;
    Part(blocks[k], Max(0, from - done), Max(0, to - done))
  }

  lemma PartOfNext(blocks: seq<Bytes>, k: nat, from: nat, to: nat)
    requires k < |blocks| && from <= to
    ensures Part(Flatten(blocks[..k + 1]), from, to) == Part(Flatten(blocks[..k]), from, to) + Contribution(blocks, k, from, to)
  {
    FlattenOfNext(blocks, k);
    PartOfConcat(Flatten(blocks[..k]), blocks[k], from, to);
  }

  lemma CutIsContribution(blocks: seq<Bytes>, slice: BlockSlice, from: nat, to: nat)
    requires from <= to && IsIntersection(Lengths(blocks), slice, from, to)
    ensures Fits(blocks, slice) && Cut(blocks, slice) == Contribution(blocks, slice.index, from, to)
  {
    StartIsLength(blocks, slice.index);
  }

  lemma UnmetIsEmpty(blocks: seq<Bytes>, k: nat, from: nat, to: nat)
    requires k < |blocks| && from <= to && !Meets(Lengths(blocks), k, from, to)
    ensures Contribution(blocks, k, from, to) == []
  {
    StartIsLength(blocks, k);
  }

  lemma {:induction false} RecombinedPrefix(blocks: seq<Bytes>, n: nat, slices: seq<BlockSlice>, from: nat, to: nat)
    requires n <= |blocks| && from <= to && IsRange(Lengths(blocks), n, slices, from, to)
    requires forall i :: 0 <= i < |slices| ==> Fits(blocks, slices[i])
    ensures Recombined(blocks, slices) == Part(Flatten(blocks[..n]), from, to)
    decreases n
  {
    if n == 0 {
      assert slices == [];
    } else {
      PartOfNext(blocks, n - 1, from, to);
      LastSlice(Lengths(blocks), n, slices, from, to);
      if Meets(Lengths(blocks), n - 1, from, to) {
        RecombinedPrefix(blocks, n - 1, slices[..|slices| - 1], from, to);
        CutIsContribution(blocks, slices[|slices| - 1], from, to);
      } else {
        RecombinedPrefix(blocks, n - 1, slices, from, to);
        UnmetIsEmpty(blocks, n - 1, from, to);
      }
    }
  }

  /** Cutting the chosen blocks and joining the pieces yields exactly the requested bytes. */
  lemma RangeReadIsExact(blocks: seq<Bytes>, slices: seq<BlockSlice>, offset: nat, length: nat)
    requires IsRange(Lengths(blocks), |blocks|, slices, offset, offset + length)
    ensures forall i :: 0 <= i < |slices| ==> Fits(blocks, slices[i])
    ensures Recombined(blocks, slices) == Part(Flatten(blocks), offset, offset + length)
  {
    SlicesFit(blocks, |blocks|, slices, offset, offset + length);
    RecombinedPrefix(blocks, |blocks|, slices, offset, offset + length);
    assert blocks[..|blocks|] == blocks;
  }

  // ----- The endpoint and the client -------------------------------------------

  /** How many bytes the endpoint asks for: to the end by default, never past the recorded size. */
  function Clamped(requested: Option<int>, offset: int, size: int): nat {
    var asked := if requested.None? then size - offset else requested.value;
    Max(0, Min(asked, Max(0, size - offset)))
  }

  /** Stored sizes of the blocks of a file, cipher overhead included. */
  function StoredSizes(blocks: seq<Bytes>, overhead: nat): (r: seq<int>)
    ensures |r| == |blocks|
    ensures ClearSizes(r, overhead) == Lengths(blocks)
  {
    seq(|blocks|, i requires 0 <= i < |blocks| => |blocks[i]| + overhead)
  }

  /** The client's loop: cut every fetched block and write the piece out. */
  method WriteSlices(blocks: seq<Bytes>, slices: seq<BlockSlice>) returns (out: Bytes)
    requires forall i :: 0 <= i < |slices| ==> Fits(blocks, slices[i])
    ensures out == Recombined(blocks, slices)
  {
    out := [];
    for i := 0 to |slices|
      invariant out == Recombined(blocks, slices[..i])
    {
      out := out + blocks[slices[i].index][slices[i].skip..slices[i].skip + slices[i].take];
      assert slices[..i + 1][..i] == slices[..i];
    }
    assert slices[..|slices|] == slices;
  }

  /** The whole read: plan the range, fetch each chosen block in order, keep its slice. */
  method ReadRange(blocks: seq<Bytes>, size: int, overhead: nat, offset: int, requested: Option<int>)
    returns (r: Result<Bytes>)
    ensures r.Err? <==> offset < 0
    ensures r.Ok? ==> r.value == Part(Flatten(blocks), offset, offset + Clamped(requested, offset, size))
  {
    var length := Clamped(requested, offset, size);
    var plan := PlanRange(StoredSizes(blocks, overhead), offset, length, overhead);
    if plan.Err? {
      return Err(plan.error);
    }
    RangeReadIsExact(blocks, plan.value, offset, length);
    var out := WriteSlices(blocks, plan.value);
    return Ok(out);
  }

  /** When the recorded size is the real one the answer has the announced length, and a read
      without a length returns the rest of the file. */
  lemma AnnouncedLengthIsDelivered(content: Bytes, offset: nat, requested: Option<int>)
    ensures |Part(content, offset, offset + Clamped(requested, offset, |content|))| == Clamped(requested, offset, |content|)
    ensures requested.None? && offset <= |content| ==>
              Part(content, offset, offset + Clamped(requested, offset, |content|)) == content[offset..]
  {
  }
}
