/** Vocabulary shared by every component: identifiers, time, outcomes of a command. */
module Common {

  /** A row identifier or a token. Only equality and a total order are ever used. */
  type Id = nat

  /** An instant. Every command receives the clock as an argument. */
  type Time = int

  newtype Byte = b: int | 0 <= b < 256
  type Bytes = seq<Byte>

  datatype Option<+T> = None | Some(value: T)

  /** The exceptions of the original, one constructor each. */
  datatype Error =
    | NotFound
    | AlreadyExists
    | InvalidPath
    | InvalidState
    | ReservationExpired
    | BlocksNotStored
    | DirectoryNotEmpty
    | InvalidBlockSize
    | InvalidArgument
    | IntegrityViolation
    | FileLocked
    | StaleLock
    | NotLeader
    | StaleEpoch
    | NoDataNodeAvailable
    | TransferFailed

  /** A command either produces a value or raises; a raise rolls the transaction back. */
  datatype Result<+T> = Ok(value: T) | Err(error: Error)

  function Min(a: int, b: int): int { if a <= b then a else b }

  function Max(a: int, b: int): int { if a <= b then b else a }

  /** A checksum, taken to determine what it was computed from. */
  datatype Digest<T> = Sha256(of: T)

  function Get<K, V>(m: map<K, V>, k: K): Option<V> { if k in m then Some(m[k]) else None }

  /** Concatenation of a list of byte strings, in order. */
  function Flatten(parts: seq<Bytes>): Bytes {
    if parts == [] then [] else parts[0] + Flatten(parts[1..])
  }

  lemma {:induction false} FlattenConcat(a: seq<Bytes>, b: seq<Bytes>)
    ensures Flatten(a + b) == Flatten(a) + Flatten(b)
  {
    if a == [] {
      assert a + b == b;
    } else {
      assert (a + b)[0] == a[0] && (a + b)[1..] == a[1..] + b;
      FlattenConcat(a[1..], b);
      assert a[0] + (Flatten(a[1..]) + Flatten(b)) == a[0] + Flatten(a[1..]) + Flatten(b);
    }
  }

  function Sum(sizes: seq<nat>): nat {
    if sizes == [] then 0 else sizes[0] + Sum(sizes[1..])
  }

  lemma {:induction false} SumConcat(a: seq<nat>, b: seq<nat>)
    ensures Sum(a + b) == Sum(a) + Sum(b)
  {
    if a == [] {
      assert a + b == b;
    } else {
      SumConcat(a[1..], b);
      assert (a + b)[1..] == a[1..] + b;
    }
  }

  function Lengths(parts: seq<Bytes>): (r: seq<nat>)
    ensures |r| == |parts|
    ensures forall i :: 0 <= i < |r| ==> r[i] == |parts[i]|
  {
    seq(|parts|, i requires 0 <= i < |parts| => |parts[i]|)
  }

  lemma LengthsConcat(a: seq<Bytes>, b: seq<Bytes>)
    ensures Lengths(a + b) == Lengths(a) + Lengths(b)
  {
  }

  lemma {:induction false} FlattenLength(parts: seq<Bytes>)
    ensures |Flatten(parts)| == Sum(Lengths(parts))
  {
    if parts != [] {
      FlattenLength(parts[1..]);
      assert Lengths(parts)[1..] == Lengths(parts[1..]);
    }
  }

  lemma {:induction false} SubsetIsSmaller<T>(a: set<T>, b: set<T>)
    requires a <= b
    ensures |a| <= |b|
    decreases |a|
  {
    if a != {} {
      var x :| x in a;
      SubsetIsSmaller(a - {x}, b - {x});
    }
  }

  // ----- Listing a set of ids --------------------------------------------------

  predicate IsLeast(ids: set<Id>, a: Id) { a in ids && forall b | b in ids :: a <= b }

  lemma LeastOfMore(ids: set<Id>, x: Id, a: Id)
    requires x in ids && IsLeast(ids - {x}, a)
    ensures IsLeast(ids, if a <= x then a else x)
  {
    forall b | b in ids && b != x ensures a <= b { assert b in ids - {x}; }
  }

  lemma {:induction false} LeastExists(ids: set<Id>)
    requires ids != {}
    ensures exists a :: IsLeast(ids, a)
    decreases |ids|
  {
    var x :| x in ids;
    if ids == {x} {
      assert IsLeast(ids, x);
    } else {
      LeastExists(ids - {x});
      var a :| IsLeast(ids - {x}, a);
      LeastOfMore(ids, x, a);
    }
  }

  /** The ids of a set in ascending order: the order a query lists its rows in. */
  function Ascending(ids: set<Id>): seq<Id>
    decreases |ids|
  {
    if ids == {} then [] else
    LeastExists(ids);
    var a :| a in ids && IsLeast(ids, a);
    [a] + Ascending(ids - {a})
  }

  lemma {:induction false} AscendingLists(ids: set<Id>)
    ensures forall a :: a in Ascending(ids) <==> a in ids
    ensures forall i, j :: 0 <= i < j < |Ascending(ids)| ==> Ascending(ids)[i] < Ascending(ids)[j]
    ensures |Ascending(ids)| == |ids|
    decreases |ids|
  {
    if ids != {} {
      var l := Ascending(ids);
      var rest := Ascending(ids - {l[0]});
      AscendingLists(ids - {l[0]});
      assert l == [l[0]] + rest;
      forall j | 0 <= j < |rest| ensures l[0] < rest[j] { assert rest[j] in rest; }
    }
  }
}
