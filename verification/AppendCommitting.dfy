/** Committing an append: a plan overtaken by another one is refused whole, a plan that still continues
    its file swaps the tail for its blocks, and committing it again moves nothing. */
module AppendCommitting {
  import opened Common
  import opened Entities
  import opened BlockTable
  import opened Partition
  import FileLocks
  import opened Append
  import opened AppendRuns

  function After(w: World, s: Session): Blocks {
    Attach(Detach(w.db.blocks, s.plan.tail), s.plan.ids, s.plan.file)
  }

  lemma AfterRows(w: World, s: Session)
    ensures After(w, s).Keys == w.db.blocks.Keys
    ensures forall b :: b in w.db.blocks ==>
              After(w, s)[b] == w.db.blocks[b].(file := if b in s.plan.ids then Some(s.plan.file)
                                                        else if s.plan.tail == Some(b) then None else w.db.blocks[b].file)
  {
  }

  /** A plan that predates another committed append is refused whole: the position it starts at
      is taken by a block it does not detach. */
  lemma StalePlanAborts(w: World, s: Session, newSize: int, quorum: nat, fencing: Option<FileLocks.LockFencing>, at: Time)
    requires s.plan.file in w.initial && FileOk(w, s.plan.file) && SessionOk(w, s)
    requires !s.done && s.base < |Log(w, s.plan.file)|
    ensures CommitAppend(w.db, s.plan.file, s.plan.ids, newSize, s.plan.tail, quorum, fencing, at).Err?
  {
    var squatter := Order(w, s.plan.file)[s.plan.start];
    var first := s.plan.ids[0];
    assert PlannedOk(w, first, s.plan.start + 0);
    AfterRows(w, s);
    assert After(w, s)[squatter].file == After(w, s)[first].file == Some(s.plan.file);
    assert !UniqueIndexes(After(w, s));
  }

  lemma ReplayedBlocksAreListed(w: World, s: Session)
    requires IsContiguous(w.db.blocks, s.plan.file, Order(w, s.plan.file))
    requires Settled(w, s) && UniqueIndexes(After(w, s))
    ensures forall b :: b in s.plan.ids && b in w.db.blocks ==> b in BlocksOf(w.db.blocks, s.plan.file)
  {
    var order := Order(w, s.plan.file);
    var last := |s.plan.ids| - 1;
    AfterRows(w, s);
    forall b | b in s.plan.ids && b in w.db.blocks ensures b in order {
      var k :| 0 <= k < |s.plan.ids| && s.plan.ids[k] == b;
      if k < last {
        assert order[s.plan.start + k] == b;
      } else {
        assert order[s.plan.start + last] in order;
      }
    }
  }

  /** Committing the same plan again can only succeed without moving a block. */
  lemma ReplayMovesNothing(w: World, s: Session)
    requires FileOk(w, s.plan.file) && Settled(w, s) && UniqueIndexes(After(w, s))
    ensures After(w, s) == w.db.blocks
  {
    ReplayedBlocksAreListed(w, s);
    AfterRows(w, s);
  }

  /** The listing after a commit that continues the file: the kept blocks, then the new ones. */
  ghost function NewOrder(w: World, s: Session): seq<Id>
    requires s.plan.start <= |Order(w, s.plan.file)|
  {
    Order(w, s.plan.file)[..s.plan.start] + s.plan.ids
  }

  /** Swapping the tail of a contiguous file for loose blocks at the right positions. */
  lemma SwapTail(blocks: Blocks, f: Id, order: seq<Id>, start: nat, tail: Option<Id>, ids: seq<Id>)
    requires IsContiguous(blocks, f, order) && |order| - 1 <= start <= |order|
    requires tail == (if start < |order| then Some(order[start]) else None)
    requires forall k :: 0 <= k < |ids| ==> ids[k] in blocks && blocks[ids[k]].file == None && blocks[ids[k]].index == start + k
    ensures IsContiguous(Attach(Detach(blocks, tail), ids, f), f, order[..start] + ids)
    ensures ListForFile(Attach(Detach(blocks, tail), ids, f), f) == order[..start] + ids
  {
    var after := Attach(Detach(blocks, tail), ids, f);
    var neworder := order[..start] + ids;
    forall i | 0 <= i < |neworder| ensures neworder[i] in BlocksOf(after, f) && after[neworder[i]].index == i {
      if i < start {
        assert order[i] in BlocksOf(blocks, f) && blocks[order[i]].index == i;
        assert tail.Some? ==> blocks[tail.value].index == start;
      } else {
        assert neworder[i] == ids[i - start];
      }
    }
    forall b | b in BlocksOf(after, f) ensures after[b].index < |neworder| && neworder[after[b].index] == b {
      if b in ids {
        var k :| 0 <= k < |ids| && ids[k] == b;
        assert neworder[start + k] == b;
      } else {
        assert b in BlocksOf(blocks, f);
      }
    }
    ListingIs(after, f, neworder);
  }

  lemma CommittedRows(w: World, s: Session)
    requires FileOk(w, s.plan.file) && PendingOk(w, s) && Continues(w, s)
    ensures s.plan.start <= |Order(w, s.plan.file)|
    ensures IsContiguous(After(w, s), s.plan.file, NewOrder(w, s))
    ensures ListForFile(After(w, s), s.plan.file) == NewOrder(w, s)
  {
    var order := Order(w, s.plan.file);
    forall k | 0 <= k < |s.plan.ids|
      ensures s.plan.ids[k] in w.db.blocks && w.db.blocks[s.plan.ids[k]].file == None && w.db.blocks[s.plan.ids[k]].index == s.plan.start + k
    {
      assert PlannedOk(w, s.plan.ids[k], s.plan.start + k);
    }
    SwapTail(w.db.blocks, s.plan.file, order, s.plan.start, s.plan.tail, s.plan.ids);
  }

  lemma TailIsRest(w: World, s: Session)
    requires FileOk(w, s.plan.file) && Continues(w, s)
    ensures s.plan.start == Kept(Lengths(Contents(w.disk, Order(w, s.plan.file))), BlockSize(w, s.plan.file)) <= |Order(w, s.plan.file)|
    ensures TailBytesOf(w.disk, s.plan.tail) == Flatten(Contents(w.disk, Order(w, s.plan.file))[s.plan.start..])
  {
    TailBytes(Contents(w.disk, Order(w, s.plan.file)), BlockSize(w, s.plan.file));
    if s.plan.tail.Some? { TailIsListed(w, s); }
  }

  lemma NewContents(w: World, s: Session)
    requires Continues(w, s) && s.plan.start <= |Order(w, s.plan.file)| && forall b :: b in s.plan.ids ==> b in w.disk
    ensures Contents(w.disk, NewOrder(w, s)) == Contents(w.disk, Order(w, s.plan.file))[..s.plan.start] + Pieces(w, s)
  {
    var pieces := Pieces(w, s);
    forall k | 0 <= k < |s.plan.ids| ensures BytesOf(w.disk, s.plan.ids[k]) == pieces[k] {
      assert PieceOk(w, s.plan.file, s.plan.ids[k], pieces[k]);
      assert s.plan.ids[k] in s.plan.ids;
    }
  }

  lemma CommittedContents(w: World, s: Session)
    requires Continues(w, s) && FileOk(w, s.plan.file)
    requires forall b :: b in s.plan.ids ==> b in w.disk
    ensures s.plan.start <= |Order(w, s.plan.file)|
    ensures Contents(w.disk, NewOrder(w, s))
         == Appended(Contents(w.disk, Order(w, s.plan.file)), s.data, BlockSize(w, s.plan.file))
  {
    TailIsRest(w, s);
    NewContents(w, s);
  }

  /** With every block at quorum the bytes are those of the file followed by the new ones. */
  lemma CommittedBytes(w: World, s: Session)
    requires FileOk(w, s.plan.file) && Continues(w, s)
    requires forall b :: b in s.plan.ids ==> b in w.disk
    ensures s.plan.start <= |Order(w, s.plan.file)|
    ensures Flatten(Contents(w.disk, NewOrder(w, s))) == Flatten(Contents(w.disk, Order(w, s.plan.file))) + s.data
    ensures IsPartition(Lengths(Contents(w.disk, NewOrder(w, s))), BlockSize(w, s.plan.file))
  {
    CommittedContents(w, s);
    AppendedFile(Contents(w.disk, Order(w, s.plan.file)), s.data, BlockSize(w, s.plan.file));
  }

  /** A plan whose commit is about to go through for the first time. */
  ghost predicate Ready(w: World, s: Session) {
    && !s.done && s.plan.file in w.initial && s.plan.file in w.log && s.plan.file in w.db.files
    && PendingOk(w, s) && Continues(w, s) && FileOk(w, s.plan.file)
    && (forall b :: b in s.plan.ids ==> b in w.disk)
  }

  /** What its commit does to the world. */
  ghost predicate Extends(w: World, v: World, c: Id) {
    && c in w.sessions && w.sessions[c].plan.file in w.log
    && var s := w.sessions[c];
       && SameSetting(w, v)
       && v == w.(db := v.db, sessions := w.sessions[c := s.(done := true)],
                  log := w.log[s.plan.file := w.log[s.plan.file] + [s.data]], ever := w.ever + set b | b in s.plan.ids)
       && v.db == w.db.(blocks := After(w, s), files := v.db.files)
  }

  /** The rows a commit changes: its own blocks and the tail it replaces. */
  lemma ExtendsRows(w: World, v: World, c: Id)
    requires Extends(w, v, c) && Ready(w, w.sessions[c])
    ensures forall b :: b !in w.sessions[c].plan.ids && w.sessions[c].plan.tail != Some(b) ==> Get(v.db.blocks, b) == Get(w.db.blocks, b)
    ensures forall b :: b in w.sessions[c].plan.ids ==>
              b !in w.ever && b in w.db.blocks && w.db.blocks[b].file == None && v.db.blocks[b] == w.db.blocks[b].(file := Some(w.sessions[c].plan.file))
    ensures w.sessions[c].plan.tail.Some? ==>
              var t := w.sessions[c].plan.tail.value;
              t in w.ever && t in BlocksOf(w.db.blocks, w.sessions[c].plan.file) && v.db.blocks[t] == w.db.blocks[t].(file := None)
    ensures v.db.blocks.Keys == w.db.blocks.Keys
  {
    var s := w.sessions[c];
    AfterRows(w, s);
    forall b | b in s.plan.ids ensures b !in w.ever && b in w.db.blocks && w.db.blocks[b].file == None {
      var k :| 0 <= k < |s.plan.ids| && s.plan.ids[k] == b;
      assert PlannedOk(w, b, s.plan.start + k);
    }
    if s.plan.tail.Some? {
      TailIsListed(w, s);
      assert s.plan.tail.value in Order(w, s.plan.file);
    }
  }

  lemma ExtendsOrder(w: World, v: World, c: Id)
    requires Extends(w, v, c) && Ready(w, w.sessions[c])
    ensures w.sessions[c].plan.start <= |Order(w, w.sessions[c].plan.file)|
    ensures Order(v, w.sessions[c].plan.file) == NewOrder(w, w.sessions[c])
    ensures IsContiguous(v.db.blocks, w.sessions[c].plan.file, NewOrder(w, w.sessions[c]))
  {
    CommittedRows(w, w.sessions[c]);
  }

  lemma ExtendsOnDisk(w: World, v: World, c: Id)
    requires Extends(w, v, c) && Ready(w, w.sessions[c]) && w.sessions[c].plan.start <= |Order(w, w.sessions[c].plan.file)|
    ensures OnDisk(v, w.sessions[c].plan.file, NewOrder(w, w.sessions[c]))
  {
    var s := w.sessions[c];
    ExtendsRows(w, v, c);
    forall b | b in NewOrder(w, s)
      ensures b in v.disk && b in v.ever && b in v.db.blocks && v.db.blocks[b].size == |v.disk[b]| + Overhead(v, s.plan.file)
    {
      if b in s.plan.ids {
        var k :| 0 <= k < |s.plan.ids| && s.plan.ids[k] == b;
        assert PieceOk(w, s.plan.file, s.plan.ids[k], Pieces(w, s)[k]);
      } else {
        assert b in Order(w, s.plan.file);
      }
    }
  }

  lemma ContentGrows(initial: Bytes, log: seq<Bytes>, data: Bytes, before: Bytes, after: Bytes)
    requires before == initial + Flatten(log) && after == before + data
    ensures after == initial + Flatten(log + [data])
  {
    FlattenConcat(log, [data]);
    assert Flatten([data]) == data + Flatten([]);
  }

  lemma ExtendedContent(w: World, v: World, c: Id)
    requires Extends(w, v, c) && Ready(w, w.sessions[c]) && w.sessions[c].plan.start <= |Order(w, w.sessions[c].plan.file)|
    ensures var f := w.sessions[c].plan.file;
            Flatten(Contents(v.disk, NewOrder(w, w.sessions[c]))) == v.initial[f] + Flatten(Log(v, f))
  {
    var s := w.sessions[c];
    CommittedBytes(w, s);
    ContentGrows(w.initial[s.plan.file], Log(w, s.plan.file), s.data,
                 Flatten(Contents(w.disk, Order(w, s.plan.file))), Flatten(Contents(w.disk, NewOrder(w, s))));
  }

  lemma ExtendedFile(w: World, v: World, c: Id)
    requires Extends(w, v, c) && Ready(w, w.sessions[c])
    ensures FileOk(v, w.sessions[c].plan.file)
  {
    ExtendsOrder(w, v, c);
    ExtendsOnDisk(w, v, c);
    ExtendedContent(w, v, c);
    CommittedBytes(w, w.sessions[c]);
  }

  /** What the rest of the proof needs to know about a commit: which rows and positions changed. */
  ghost predicate Swapped(w: World, v: World, s: Session) {
    var f := s.plan.file;
    var order := Order(w, f);
    && s.plan.ids != [] && |order| - 1 <= s.plan.start <= |order|
    && s.plan.tail == (if s.plan.start < |order| then Some(order[s.plan.start]) else None)
    && IsContiguous(w.db.blocks, f, order)
    && (forall b :: b in order ==> b in w.ever)
    && Order(v, f) == order[..s.plan.start] + s.plan.ids
    && v.db.blocks.Keys == w.db.blocks.Keys
    && (forall b :: b in s.plan.ids ==> b !in w.ever && b in w.db.blocks && w.db.blocks[b].file == None && v.db.blocks[b] == w.db.blocks[b].(file := Some(f)))
    && (forall b :: b in w.db.blocks && b !in s.plan.ids ==>
          v.db.blocks[b] == if s.plan.tail == Some(b) then w.db.blocks[b].(file := None) else w.db.blocks[b])
  }

  lemma ExtendsIsSwap(w: World, v: World, c: Id)
    requires Extends(w, v, c) && Ready(w, w.sessions[c])
    ensures Swapped(w, v, w.sessions[c])
  {
    ExtendsOrder(w, v, c);
    ExtendsRows(w, v, c);
    AfterRows(w, w.sessions[c]);
  }

  lemma SwapLeavesOtherFile(w: World, v: World, s: Session, g: Id)
    requires Swapped(w, v, s) && g != s.plan.file
    ensures BlocksOf(v.db.blocks, g) == BlocksOf(w.db.blocks, g)
    ensures forall b :: b in BlocksOf(w.db.blocks, g) ==> v.db.blocks[b] == w.db.blocks[b]
  {
    if s.plan.tail.Some? {
      assert s.plan.tail.value in BlocksOf(w.db.blocks, s.plan.file);
    }
    forall b ensures b in BlocksOf(v.db.blocks, g) <==> b in BlocksOf(w.db.blocks, g) {}
  }

  lemma JoinedFront(order: seq<Id>, start: nat, ids: seq<Id>, after: seq<Id>)
    requires start <= |order| && ids != [] && after == order[..start] + ids
    ensures FrontInPlace(after, start, ids) && after[start + |ids| - 1] == ids[|ids| - 1]
    ensures forall b :: b in ids ==> b in after
  {
    forall b | b in ids ensures b in after {
      var k :| 0 <= k < |ids| && ids[k] == b;
      assert after[start + k] == b;
    }
  }

  lemma SwapDetachesTail(w: World, v: World, s: Session)
    requires Swapped(w, v, s) && s.plan.tail.Some? && w.ever <= v.ever
    ensures NotAttached(v, s.plan.tail.value)
  {
    assert s.plan.tail.value in Order(w, s.plan.file);
  }

  lemma SwapSettlesItself(w: World, v: World, s: Session)
    requires Swapped(w, v, s) && (forall b :: b in s.plan.ids ==> b in v.ever) && w.ever <= v.ever
    ensures Settled(v, s.(done := true))
  {
    JoinedFront(Order(w, s.plan.file), s.plan.start, s.plan.ids, Order(v, s.plan.file));
    if s.plan.tail.Some? { SwapDetachesTail(w, v, s); }
  }

  lemma SwapListing(w: World, v: World, s: Session)
    requires Swapped(w, v, s)
    ensures forall b :: b in Order(v, s.plan.file) <==> b in s.plan.ids || (b in Order(w, s.plan.file) && s.plan.tail != Some(b))
    ensures forall i :: 0 <= i < s.plan.start ==> Order(v, s.plan.file)[i] == Order(w, s.plan.file)[i]
  {
    var order := Order(w, s.plan.file);
    var after := Order(v, s.plan.file);
    forall b | b in order && s.plan.tail != Some(b) ensures b in after {
      var i :| 0 <= i < |order| && order[i] == b;
      assert after[i] == b;
    }
    forall b | b in s.plan.ids ensures b in after {
      var i :| 0 <= i < |s.plan.ids| && s.plan.ids[i] == b;
      assert after[s.plan.start + i] == b;
    }
    forall b | b in after && b !in s.plan.ids ensures b in order && s.plan.tail != Some(b) {
      var i :| 0 <= i < |after| && after[i] == b;
      assert i < s.plan.start;
      assert order[i] == b && w.db.blocks[b].index == i;
    }
  }

  lemma SwapKeepsLast(w: World, v: World, s: Session, index: nat, last: Id)
    requires Swapped(w, v, s) && index < |Order(w, s.plan.file)| && last in w.ever
    requires LastSettled(w, Order(w, s.plan.file), index, last)
    ensures index < |Order(v, s.plan.file)| && LastSettled(v, Order(v, s.plan.file), index, last)
  {
    SwapListing(w, v, s);
    var order := Order(w, s.plan.file);
    if index >= s.plan.start {
      assert order[index] == s.plan.tail.value;
      assert w.db.blocks[order[index]].index == index;
    }
  }

  lemma SwapKeepsFront(w: World, v: World, s: Session, start: nat, ids: seq<Id>)
    requires Swapped(w, v, s) && FrontInPlace(Order(w, s.plan.file), start, ids)
    ensures FrontInPlace(Order(v, s.plan.file), start, ids)
  {
    SwapListing(w, v, s);
  }

  lemma SwapKeepsKnown(w: World, v: World, s: Session, b: Id)
    requires Swapped(w, v, s) && w.ever <= v.ever && b in w.ever
    ensures NotAttached(w, b) ==> NotAttached(v, b)
    ensures KnownBlock(w, Order(w, s.plan.file), b) ==> KnownBlock(v, Order(v, s.plan.file), b)
  {
    SwapListing(w, v, s);
  }

  lemma SwapKeepsSettled(w: World, v: World, s: Session, t: Session)
    requires Swapped(w, v, s) && w.ever <= v.ever && t.plan.file == s.plan.file && Settled(w, t)
    ensures Settled(v, t)
  {
    var n := |t.plan.ids|;
    SwapKeepsFront(w, v, s, t.plan.start, t.plan.ids);
    assert t.plan.ids[n - 1] in t.plan.ids;
    SwapKeepsLast(w, v, s, t.plan.start + n - 1, t.plan.ids[n - 1]);
    forall b | b in t.plan.ids ensures KnownBlock(v, Order(v, s.plan.file), b) { SwapKeepsKnown(w, v, s, b); }
    if t.plan.tail.Some? { SwapKeepsKnown(w, v, s, t.plan.tail.value); }
  }

  lemma SwapOvertakes(w: World, v: World, s: Session, t: Session)
    requires Swapped(w, v, s) && t.plan.file == s.plan.file && (t.plan.tail.Some? ==> t.plan.tail.value in w.ever)
    requires Overtaken(w, t) || t.plan.start == s.plan.start
    ensures Overtaken(v, t)
  {
    var order := Order(w, s.plan.file);
    var after := Order(v, s.plan.file);
    if t.plan.start < s.plan.start {
      assert after[t.plan.start] == order[t.plan.start];
    } else {
      assert after[t.plan.start] == s.plan.ids[t.plan.start - s.plan.start];
    }
  }

  /** Other uncommitted plans keep their blocks: the ids of two plans never meet. */
  lemma SwapKeepsPending(w: World, v: World, s: Session, t: Session)
    requires Swapped(w, v, s) && PendingOk(w, t) && v.disk == w.disk && v.db.replicas == w.db.replicas
    requires forall b :: b in t.plan.ids ==> b !in s.plan.ids
    requires forall b :: b in v.ever ==> b in w.ever || b in s.plan.ids
    requires s.plan.tail.Some? ==> s.plan.tail.value in w.ever
    ensures PendingOk(v, t)
    ensures forall b :: b in t.plan.ids ==> Get(v.db.blocks, b) == Get(w.db.blocks, b)
  {
    forall k | 0 <= k < |t.plan.ids|
      ensures PlannedOk(v, t.plan.ids[k], t.plan.start + k) && Get(v.db.blocks, t.plan.ids[k]) == Get(w.db.blocks, t.plan.ids[k])
    {
      assert PlannedOk(w, t.plan.ids[k], t.plan.start + k);
      assert t.plan.ids[k] in t.plan.ids;
    }
  }

  lemma SwapKeepsForeign(w: World, v: World, s: Session, t: Session)
    requires Swapped(w, v, s) && w.ever <= v.ever && t.plan.file != s.plan.file
    requires IsContiguous(w.db.blocks, t.plan.file, Order(w, t.plan.file)) && Settled(w, t)
    requires Order(v, t.plan.file) == Order(w, t.plan.file)
    ensures Settled(v, t)
  {
    var order := Order(w, t.plan.file);
    var n := |t.plan.ids|;
    if s.plan.tail.Some? { assert s.plan.tail.value in BlocksOf(w.db.blocks, s.plan.file); }
    forall b | b in t.plan.ids ensures KnownBlock(v, order, b) { assert KnownBlock(w, order, b); }
    assert KnownBlock(w, order, t.plan.ids[n - 1]);
    if t.plan.tail.Some? { assert NotAttached(w, t.plan.tail.value); }
  }

  lemma ExtendsKeepsSibling(w: World, v: World, c: Id, t: Session)
    requires Extends(w, v, c) && Swapped(w, v, w.sessions[c]) && w.sessions[c].base == |Log(w, w.sessions[c].plan.file)|
    requires SessionOk(w, t) && t.plan.file == w.sessions[c].plan.file
    requires !t.done && t.base == |Log(w, t.plan.file)| ==> t.plan.start == w.sessions[c].plan.start
    requires forall b :: b in t.plan.ids ==> b !in w.sessions[c].plan.ids
    ensures SessionOk(v, t)
  {
    var s := w.sessions[c];
    if s.plan.tail.Some? { assert s.plan.tail.value in Order(w, s.plan.file); }
    if t.done {
      SwapKeepsSettled(w, v, s, t);
    } else {
      SwapKeepsPending(w, v, s, t);
      SwapOvertakes(w, v, s, t);
    }
  }

  lemma ExtendsKeepsForeignContinues(w: World, v: World, c: Id, t: Session)
    requires Extends(w, v, c) && SameFile(w, v, t.plan.file) && FileOk(w, t.plan.file) && Continues(w, t)
    requires forall b :: b in t.plan.ids ==> Get(v.db.blocks, b) == Get(w.db.blocks, b)
    ensures Continues(v, t)
  {
    KeepsContinues(w, v, t);
  }

  lemma ExtendsKeepsForeign(w: World, v: World, c: Id, t: Session)
    requires Extends(w, v, c) && Swapped(w, v, w.sessions[c])
    requires SessionOk(w, t) && t.plan.file != w.sessions[c].plan.file && FileOk(w, t.plan.file)
    requires SameFile(w, v, t.plan.file)
    requires forall b :: b in t.plan.ids ==> b !in w.sessions[c].plan.ids
    ensures SessionOk(v, t)
  {
    var s := w.sessions[c];
    if s.plan.tail.Some? { assert s.plan.tail.value in Order(w, s.plan.file); }
    KeepsOrder(w, v, t.plan.file);
    if t.done {
      SwapKeepsForeign(w, v, s, t);
    } else {
      SwapKeepsPending(w, v, s, t);
      if t.base == |Log(w, t.plan.file)| { ExtendsKeepsForeignContinues(w, v, c, t); }
    }
  }

  lemma ExtendsLeavesOtherFile(w: World, v: World, c: Id, f: Id)
    requires Extends(w, v, c) && Swapped(w, v, w.sessions[c]) && f != w.sessions[c].plan.file
    ensures SameFile(w, v, f)
  {
    SwapLeavesOtherFile(w, v, w.sessions[c], f);
  }

  lemma ExtendsKeepsSession(w: World, v: World, c: Id, d: Id)
    requires Extends(w, v, c) && Ready(w, w.sessions[c])
    requires d in w.sessions && d != c && SessionOk(w, w.sessions[d]) && FileOk(w, w.sessions[d].plan.file)
    requires w.sessions[c].base == |Log(w, w.sessions[c].plan.file)|
    requires forall b :: b in w.sessions[d].plan.ids ==> b !in w.sessions[c].plan.ids
    ensures SessionOk(v, w.sessions[d])
  {
    ExtendsIsSwap(w, v, c);
    if w.sessions[d].plan.file == w.sessions[c].plan.file {
      ExtendsKeepsSibling(w, v, c, w.sessions[d]);
    } else {
      ExtendsLeavesOtherFile(w, v, c, w.sessions[d].plan.file);
      ExtendsKeepsForeign(w, v, c, w.sessions[d]);
    }
  }

  lemma ExtendsKeepsItself(w: World, v: World, c: Id)
    requires Extends(w, v, c) && Ready(w, w.sessions[c]) && SessionOk(w, w.sessions[c])
    ensures c in v.sessions && SessionOk(v, v.sessions[c])
  {
    ExtendsIsSwap(w, v, c);
    SwapSettlesItself(w, v, w.sessions[c]);
    assert v.sessions[c] == w.sessions[c].(done := true);
  }

  lemma ExtendsKeepsFile(w: World, v: World, c: Id, f: Id)
    requires Extends(w, v, c) && Ready(w, w.sessions[c]) && FileOk(w, f)
    ensures FileOk(v, f)
  {
    if f == w.sessions[c].plan.file {
      ExtendedFile(w, v, c);
    } else {
      ExtendsIsSwap(w, v, c);
      ExtendsLeavesOtherFile(w, v, c, f);
      KeepsFile(w, v, f);
    }
  }

  lemma ExtendsKeepsEverySession(w: World, v: World, c: Id, d: Id)
    requires Extends(w, v, c) && Ready(w, w.sessions[c]) && d in w.sessions && Disjoint(w)
    requires w.sessions[c].base == |Log(w, w.sessions[c].plan.file)|
    requires SessionOk(w, w.sessions[d]) && FileOk(w, w.sessions[d].plan.file)
    ensures d in v.sessions && SessionOk(v, v.sessions[d])
  {
    if d == c {
      ExtendsKeepsItself(w, v, c);
    } else {
      assert v.sessions[d] == w.sessions[d];
      ExtendsKeepsSession(w, v, c, d);
    }
  }

  lemma ExtendsKeepsDisjoint(w: World, v: World, c: Id)
    requires Extends(w, v, c) && Disjoint(w)
    ensures Disjoint(v) && v.sessions.Keys == w.sessions.Keys
  {
    forall d | d in v.sessions ensures v.sessions[d].plan == w.sessions[d].plan {}
  }

  lemma ExtendsKeepsInv(w: World, v: World, c: Id)
    requires Inv(w) && Extends(w, v, c) && Ready(w, w.sessions[c]) && TablesOk(v)
    requires w.sessions[c].base == |Log(w, w.sessions[c].plan.file)|
    ensures Inv(v)
  {
    ExtendsKeepsDisjoint(w, v, c);
    forall f | f in v.initial ensures FileOk(v, f) { ExtendsKeepsFile(w, v, c, f); }
    forall d | d in v.sessions ensures SessionOk(v, v.sessions[d]) {
      FileOfSession(w, d);
      ExtendsKeepsEverySession(w, v, c, d);
    }
  }

  lemma FileOfSession(w: World, d: Id)
    requires Inv(w) && d in w.sessions
    ensures SessionOk(w, w.sessions[d]) && FileOk(w, w.sessions[d].plan.file)
  {
    assert SessionOk(w, w.sessions[d]);
  }
}
