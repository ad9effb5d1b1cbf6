/** Sharing the recovery queue out among the target nodes: a greedy pass with three brakes
    (domain/rereplication.py). */
module Scheduler {
  import opened Common

  /** A block short of copies. `holders` are the nodes with a usable copy. */
  datatype Gap = Gap(block: Id, current: nat, target: int, holders: seq<Id>, holderDomains: seq<string>) {
    function Missing(): nat { Max(0, target - current) }
  }

  datatype Assignment = Assignment(block: Id, source: Id, target: Id, gap: Gap)

  /** A candidate node and its fault domain; a dict in the original, so ids are distinct. */
  type Candidate = (Id, string)

  datatype Limits = Limits(candidates: seq<Candidate>, inFlight: map<Id, nat>, perTarget: int,
                           total: Option<int>, perBlock: int)

  // ----- Priority ------------------------------------------------------------

  predicate KeyLeq(a: Gap, b: Gap) { a.current < b.current || (a.current == b.current && a.block <= b.block) }

  function Insert(g: Gap, queue: seq<Gap>): seq<Gap> {
    if queue == [] || KeyLeq(g, queue[0]) then [g] + queue else [queue[0]] + Insert(g, queue[1..])
  }

  /** Fewest copies first, block id as tie-break; gaps with equal keys keep their order. */
  function Prioritise(gaps: seq<Gap>): seq<Gap> {
    if gaps == [] then [] else Insert(gaps[0], Prioritise(gaps[1..]))
  }

  ghost predicate Ordered(queue: seq<Gap>) {
    forall i, j :: 0 <= i < j < |queue| ==> KeyLeq(queue[i], queue[j])
  }

  lemma {:induction false} InsertedIn(g: Gap, queue: seq<Gap>)
    ensures multiset(Insert(g, queue)) == multiset(queue) + multiset{g}
    ensures Ordered(queue) ==> Ordered(Insert(g, queue))
  {
    if queue != [] && !KeyLeq(g, queue[0]) {
      InsertedIn(g, queue[1..]);
      assert queue == [queue[0]] + queue[1..];
      var rest := Insert(g, queue[1..]);
      forall h | h in rest && Ordered(queue) ensures KeyLeq(queue[0], h) {
        assert h in multiset(rest);
        if h != g { assert h in multiset(queue[1..]); }
      }
    } else {
      assert [g] + queue == Insert(g, queue);
    }
  }

  lemma {:induction false} PrioritiseSorts(gaps: seq<Gap>)
    ensures Ordered(Prioritise(gaps)) && multiset(Prioritise(gaps)) == multiset(gaps)
  {
    if gaps != [] {
      PrioritiseSorts(gaps[1..]);
      InsertedIn(gaps[0], Prioritise(gaps[1..]));
      assert gaps == [gaps[0]] + gaps[1..];
    }
  }

  ghost predicate DistinctBlocks(gaps: seq<Gap>) {
    forall i, j :: 0 <= i < j < |gaps| ==> gaps[i].block != gaps[j].block
  }

  lemma {:induction false} DistinctIsUpToOrder(a: seq<Gap>, b: seq<Gap>)
    requires multiset(a) == multiset(b) && DistinctBlocks(a)
    ensures DistinctBlocks(b)
  {
    forall i, j | 0 <= i < j < |b| && b[i].block == b[j].block ensures false {
      assert b[i] in multiset(a) && b[j] in multiset(a);
      if b[i] == b[j] {
        assert b == b[..i] + [b[i]] + b[i + 1..];
        assert b[j] == b[i + 1..][j - i - 1];
        assert multiset(b)[b[i]] >= 2;
        AtMostOnce(a, b[i]);
      }
    }
  }

  lemma {:induction false} AtMostOnce(a: seq<Gap>, g: Gap)
    requires DistinctBlocks(a)
    ensures multiset(a)[g] <= 1
  {
    if a != [] {
      assert a == [a[0]] + a[1..];
      AtMostOnce(a[1..], g);
      if a[0] == g { assert g !in a[1..]; }
    }
  }

  lemma SamePlace(a: seq<Gap>, i: nat, j: nat)
    requires DistinctBlocks(a) && i < |a| && j < |a| && KeyLeq(a[i], a[j]) && KeyLeq(a[j], a[i])
    ensures i == j
  {
  }

  lemma SameHead(a: seq<Gap>, b: seq<Gap>)
    requires Ordered(a) && Ordered(b) && multiset(a) == multiset(b) && DistinctBlocks(a) && a != []
    ensures b != [] && a[0] == b[0]
  {
    assert a[0] in multiset(b);
    var i :| 0 <= i < |b| && b[i] == a[0];
    assert b[0] in multiset(a);
    var k :| 0 <= k < |a| && a[k] == b[0];
    SamePlace(a, 0, k);
  }

  lemma TailOfMultiset<T>(s: seq<T>)
    requires s != []
    ensures multiset(s[1..]) == multiset(s) - multiset{s[0]}
  {
    assert s == [s[0]] + s[1..];
  }

  /** Two sorted queues of the same gaps are the same queue. */
  lemma {:induction false} SortedIsUnique(a: seq<Gap>, b: seq<Gap>)
    requires Ordered(a) && Ordered(b) && multiset(a) == multiset(b) && DistinctBlocks(a)
    ensures a == b
  {
    if a == [] {
      assert |multiset(b)| == 0;
    } else {
      SameHead(a, b);
      TailOfMultiset(a);
      TailOfMultiset(b);
      SortedIsUnique(a[1..], b[1..]);
      assert a == [a[0]] + a[1..] && b == [b[0]] + b[1..];
    }
  }

  // ----- Loads ---------------------------------------------------------------

  function LoadOf(load: map<Id, nat>, n: Id): nat { if n in load then load[n] else 0 }

  /** The copies each target is busy with once the given assignments are made. */
  function Loads(inFlight: map<Id, nat>, done: seq<Assignment>): map<Id, nat> {
    if done == [] then inFlight else
    var load := Loads(inFlight, done[..|done| - 1]);
    var n := done[|done| - 1].target;
    load[n := LoadOf(load, n) + 1]
  }

  function CountTo(done: seq<Assignment>, n: Id): nat {
    if done == [] then 0 else CountTo(done[..|done| - 1], n) + if done[|done| - 1].target == n then 1 else 0
  }

  lemma {:induction false} LoadsCount(inFlight: map<Id, nat>, done: seq<Assignment>, n: Id)
    ensures LoadOf(Loads(inFlight, done), n) == LoadOf(inFlight, n) + CountTo(done, n)
  {
    if done != [] { LoadsCount(inFlight, done[..|done| - 1], n); }
  }

  lemma {:induction false} LoadsOnlyGrow(inFlight: map<Id, nat>, done: seq<Assignment>, k: nat, n: Id)
    requires k <= |done|
    ensures LoadOf(Loads(inFlight, done[..k]), n) <= LoadOf(Loads(inFlight, done), n)
    decreases |done|
  {
    if k == |done| {
      assert done[..k] == done;
    } else {
      assert done[..|done| - 1][..k] == done[..k];
      LoadsOnlyGrow(inFlight, done[..|done| - 1], k, n);
    }
  }

  // ----- One choice ----------------------------------------------------------

  predicate Taken(gap: Gap, done: seq<Assignment>, n: Id) {
    exists a | a in done :: a.block == gap.block && a.target == n
  }

  predicate Admissible(gap: Gap, done: seq<Assignment>, env: Limits, n: Id) {
    n !in gap.holders && !Taken(gap, done, n) && LoadOf(Loads(env.inFlight, done), n) < env.perTarget
  }

  /** The domain already has a copy of the block, or one on its way. */
  predicate Covered(gap: Gap, done: seq<Assignment>, env: Limits, domain: string) {
    domain in gap.holderDomains || exists c | c in env.candidates :: c.1 == domain && Taken(gap, done, c.0)
  }

  function Keep<T>(xs: seq<T>, p: T -> bool): seq<T> {
    if xs == [] then [] else (if p(xs[0]) then [xs[0]] else []) + Keep(xs[1..], p)
  }

  lemma {:induction false} Kept<T>(xs: seq<T>, p: T -> bool)
    ensures forall x :: x in Keep(xs, p) <==> x in xs && p(x)
  {
    if xs != [] {
      Kept(xs[1..], p);
      assert xs == [xs[0]] + xs[1..];
    }
  }

  predicate Ahead(load: map<Id, nat>, n: Id, m: Id) {
    LoadOf(load, n) < LoadOf(load, m) || (LoadOf(load, n) == LoadOf(load, m) && n <= m)
  }

  /** The least busy of the given nodes, least id on a tie. */
  function Least(load: map<Id, nat>, nodes: seq<Candidate>): Id
    requires nodes != []
  {
    if |nodes| == 1 then nodes[0].0 else
    var n := Least(load, nodes[1..]);
    if Ahead(load, nodes[0].0, n) then nodes[0].0 else n
  }

  lemma {:induction false} LeastIsLeast(load: map<Id, nat>, nodes: seq<Candidate>)
    requires nodes != []
    ensures exists c :: c in nodes && c.0 == Least(load, nodes)
    ensures forall c :: c in nodes ==> Ahead(load, Least(load, nodes), c.0)
  {
    if |nodes| == 1 {
      assert nodes[0] in nodes;
    } else {
      LeastIsLeast(load, nodes[1..]);
      var c :| c in nodes[1..] && c.0 == Least(load, nodes[1..]);
      assert nodes == [nodes[0]] + nodes[1..];
    }
  }

  function Choose(gap: Gap, done: seq<Assignment>, env: Limits): Option<Id> {
    var available := Keep(env.candidates, (c: Candidate) => Admissible(gap, done, env, c.0));
    if available == [] then None else
    var preferred := Keep(available, (c: Candidate) => !Covered(gap, done, env, c.1));
    Some(Least(Loads(env.inFlight, done), if preferred != [] then preferred else available))
  }

  /** An admissible candidate, in a domain without a copy if there is any such candidate. */
  ghost predicate Eligible(gap: Gap, done: seq<Assignment>, env: Limits, c: Candidate) {
    && c in env.candidates && Admissible(gap, done, env, c.0)
    && (Covered(gap, done, env, c.1) ==>
          forall m :: m in env.candidates && Admissible(gap, done, env, m.0) ==> Covered(gap, done, env, m.1))
  }

  ghost predicate IsBest(gap: Gap, done: seq<Assignment>, env: Limits, n: Id) {
    && (exists c :: Eligible(gap, done, env, c) && c.0 == n)
    && forall m :: Eligible(gap, done, env, m) ==> Ahead(Loads(env.inFlight, done), n, m.0)
  }

  /** The choice is the best target there is, and there is a choice whenever some candidate is admissible. */
  lemma ChoiceIsBest(gap: Gap, done: seq<Assignment>, env: Limits)
    ensures Choose(gap, done, env).None? <==> forall c :: c in env.candidates ==> !Admissible(gap, done, env, c.0)
    ensures Choose(gap, done, env).Some? ==> IsBest(gap, done, env, Choose(gap, done, env).value)
  {
    var admits := (c: Candidate) => Admissible(gap, done, env, c.0);
    var uncovered := (c: Candidate) => !Covered(gap, done, env, c.1);
    var available := Keep(env.candidates, admits);
    Kept(env.candidates, admits);
    var preferred := Keep(available, uncovered);
    Kept(available, uncovered);
    if available == [] {
      forall c | c in env.candidates ensures !Admissible(gap, done, env, c.0) { assert c !in available; }
    } else {
      assert available[0] in available;
      var chosen := if preferred != [] then preferred else available;
      forall c ensures Eligible(gap, done, env, c) <==> c in chosen {
        if preferred != [] { assert preferred[0] in preferred; }
      }
      LeastIsLeast(Loads(env.inFlight, done), chosen);
    }
  }

  lemma BestIsUnique(gap: Gap, done: seq<Assignment>, env: Limits, n: Id, m: Id)
    requires IsBest(gap, done, env, n) && IsBest(gap, done, env, m)
    ensures n == m
  {
  }

  // ----- The pass ------------------------------------------------------------

  /** Up to `tries` copies of one block. */
  function Serve(gap: Gap, tries: nat, done: seq<Assignment>, env: Limits): seq<Assignment>
    requires gap.holders != []
  {
    if tries == 0 then done else
    match Choose(gap, done, env)
    case None => done
    case Some(n) => Serve(gap, tries - 1, done + [Assignment(gap.block, gap.holders[0], n, gap)], env)
  }

  predicate Full(done: seq<Assignment>, env: Limits) { env.total.Some? && |done| >= env.total.value }

  function Tries(gap: Gap, env: Limits): nat { Max(0, Min(gap.Missing(), env.perBlock)) }

  function Pass(queue: seq<Gap>, done: seq<Assignment>, env: Limits): seq<Assignment> {
    if queue == [] || Full(done, env) then done
    else if queue[0].holders == [] then Pass(queue[1..], done, env)
    else Pass(queue[1..], Serve(queue[0], Tries(queue[0], env), done, env), env)
  }

  lemma LoadsNext(inFlight: map<Id, nat>, done: seq<Assignment>, a: Assignment)
    ensures Loads(inFlight, done + [a]) == Loads(inFlight, done)[a.target := LoadOf(Loads(inFlight, done), a.target) + 1]
  {
    assert (done + [a])[..|done|] == done;
  }

  /** The inner loop: up to `tries` copies of one block. */
  method ServeGap(gap: Gap, tries: nat, before: seq<Assignment>, loadBefore: map<Id, nat>, env: Limits)
    returns (r: seq<Assignment>, load: map<Id, nat>)
    requires gap.holders != [] && loadBefore == Loads(env.inFlight, before)
    ensures r == Serve(gap, tries, before, env) && load == Loads(env.inFlight, r)
  {
    r, load := before, loadBefore;
    var source := gap.holders[0];
    for k := 0 to tries
      invariant Serve(gap, tries - k, r, env) == Serve(gap, tries, before, env)
      invariant load == Loads(env.inFlight, r)
    {
      var target := Choose(gap, r, env);
      if target.None? {
        return;
      }
      var assignment := Assignment(gap.block, source, target.value, gap);
      LoadsNext(env.inFlight, r, assignment);
      r := r + [assignment];
      load := load[target.value := LoadOf(load, target.value) + 1];
    }
  }

  method AssignTargets(gaps: seq<Gap>, candidates: seq<Candidate>, inFlight: map<Id, nat>, perTarget: int,
                       total: Option<int>, perBlock: int)
    returns (r: seq<Assignment>)
    ensures r == Pass(Prioritise(gaps), [], Limits(candidates, inFlight, perTarget, total, perBlock))
  {
    var env := Limits(candidates, inFlight, perTarget, total, perBlock);
    r := [];
    var load := inFlight;
    var queue := Prioritise(gaps);
    for i := 0 to |queue|
      invariant Pass(queue[i..], r, env) == Pass(queue, [], env)
      invariant load == Loads(inFlight, r)
    {
      if total.Some? && |r| >= total.value {
        return;
      }
      var gap := queue[i];
      assert queue[i..][0] == gap && queue[i..][1..] == queue[i + 1..];
      if gap.holders == [] {
        continue;
      }
      r, load := ServeGap(gap, Max(0, Min(gap.Missing(), perBlock)), r, load, env);
    }
  }

  // ----- What a pass guarantees ----------------------------------------------

  /** The i-th assignment copies a listed block from a holder to the best target of that moment. */
  ghost predicate GoodAssignment(gaps: multiset<Gap>, r: seq<Assignment>, i: nat, env: Limits)
    requires i < |r|
  {
    var a := r[i];
    && a.gap in gaps && a.block == a.gap.block && a.gap.holders != [] && a.source == a.gap.holders[0]
    && IsBest(a.gap, r[..i], env, a.target)
  }

  ghost predicate AllGood(gaps: multiset<Gap>, r: seq<Assignment>, env: Limits) {
    forall i :: 0 <= i < |r| ==> GoodAssignment(gaps, r, i, env)
  }

  lemma ExtendGood(gaps: multiset<Gap>, r: seq<Assignment>, a: Assignment, env: Limits)
    requires AllGood(gaps, r, env) && GoodAssignment(gaps, r + [a], |r|, env)
    ensures AllGood(gaps, r + [a], env)
  {
    forall i | 0 <= i < |r| + 1 ensures GoodAssignment(gaps, r + [a], i, env) {
      if i < |r| {
        assert GoodAssignment(gaps, r, i, env);
        assert (r + [a])[..i] == r[..i];
      }
    }
  }

  lemma {:induction false} ServeIsGood(gaps: multiset<Gap>, gap: Gap, tries: nat, done: seq<Assignment>, env: Limits)
    requires gap in gaps && gap.holders != [] && AllGood(gaps, done, env)
    ensures AllGood(gaps, Serve(gap, tries, done, env), env)
    ensures done <= Serve(gap, tries, done, env) && |Serve(gap, tries, done, env)| <= |done| + tries
    decreases tries
  {
    if tries > 0 {
      ChoiceIsBest(gap, done, env);
      match Choose(gap, done, env)
      case None =>
      case Some(n) =>
        var a := Assignment(gap.block, gap.holders[0], n, gap);
        assert (done + [a])[..|done|] == done;
        ExtendGood(gaps, done, a, env);
        ServeIsGood(gaps, gap, tries - 1, done + [a], env);
    }
  }

  lemma {:induction false} PassIsGood(gaps: multiset<Gap>, queue: seq<Gap>, done: seq<Assignment>, env: Limits)
    requires (forall g :: g in queue ==> g in gaps) && AllGood(gaps, done, env)
    ensures AllGood(gaps, Pass(queue, done, env), env) && done <= Pass(queue, done, env)
    decreases |queue|
  {
    if queue != [] && !Full(done, env) {
      if queue[0].holders == [] {
        PassIsGood(gaps, queue[1..], done, env);
      } else {
        ServeIsGood(gaps, queue[0], Tries(queue[0], env), done, env);
        PassIsGood(gaps, queue[1..], Serve(queue[0], Tries(queue[0], env), done, env), env);
      }
    }
  }

  /** Sources hold the block, targets do not, no target gets the same block twice, a domain without
      a copy is used whenever an admissible node has one, and the least busy node wins. */
  lemma EveryAssignmentIsBest(gaps: seq<Gap>, env: Limits)
    ensures AllGood(multiset(gaps), Pass(Prioritise(gaps), [], env), env)
  {
    PrioritiseSorts(gaps);
    forall g | g in Prioritise(gaps) ensures g in multiset(gaps) { assert g in multiset(Prioritise(gaps)); }
    PassIsGood(multiset(gaps), Prioritise(gaps), [], env);
  }

  /** How many copies a node is busy with once the given assignments are made. */
  function Busy(env: Limits, done: seq<Assignment>, n: Id): nat { LoadOf(env.inFlight, n) + CountTo(done, n) }

  /** A node that could take the copy: no holder, not about to get this block, and below its cap. */
  predicate CouldTake(gap: Gap, done: seq<Assignment>, env: Limits, n: Id) {
    n !in gap.holders && (forall b | b in done :: !(b.block == gap.block && b.target == n)) && Busy(env, done, n) < env.perTarget
  }

  /** No holder and no new copy of the block is in that domain. */
  predicate IsFresh(gap: Gap, done: seq<Assignment>, env: Limits, domain: string) {
    domain !in gap.holderDomains
    && forall b, c | b in done && c in env.candidates :: !(b.block == gap.block && b.target == c.0 && c.1 == domain)
  }

  lemma CouldTakeIsAdmissible(gap: Gap, done: seq<Assignment>, env: Limits, n: Id)
    ensures CouldTake(gap, done, env, n) <==> Admissible(gap, done, env, n)
  {
    LoadsCount(env.inFlight, done, n);
  }

  lemma FreshIsUncovered(gap: Gap, done: seq<Assignment>, env: Limits, domain: string)
    ensures IsFresh(gap, done, env, domain) <==> !Covered(gap, done, env, domain)
  {
  }

  /** What a target had to be: a candidate that could take the copy, in a fresh domain if any other that
      could is in one, and then no busier than any of those, the lowest id among equals. */
  lemma TargetsAreSpread(gaps: seq<Gap>, env: Limits, i: nat, other: Candidate)
    requires i < |Pass(Prioritise(gaps), [], env)| && other in env.candidates
    ensures var r := Pass(Prioritise(gaps), [], env);
            var a, done := r[i], r[..i];
            exists t :: && t in env.candidates && t.0 == a.target && CouldTake(a.gap, done, env, t.0)
                        && (CouldTake(a.gap, done, env, other.0) && IsFresh(a.gap, done, env, other.1) ==> IsFresh(a.gap, done, env, t.1))
                        && (CouldTake(a.gap, done, env, other.0) && (IsFresh(a.gap, done, env, other.1) || !IsFresh(a.gap, done, env, t.1)) ==>
                              Busy(env, done, t.0) < Busy(env, done, other.0) || (Busy(env, done, t.0) == Busy(env, done, other.0) && t.0 <= other.0))
  {
    var r := Pass(Prioritise(gaps), [], env);
    EveryAssignmentIsBest(gaps, env);
    assert GoodAssignment(multiset(gaps), r, i, env);
    BestIsSpread(r[i], r[..i], env, other);
  }

  lemma BestIsSpread(a: Assignment, done: seq<Assignment>, env: Limits, other: Candidate)
    requires IsBest(a.gap, done, env, a.target) && other in env.candidates
    ensures exists t :: && t in env.candidates && t.0 == a.target && CouldTake(a.gap, done, env, t.0)
                        && (CouldTake(a.gap, done, env, other.0) && IsFresh(a.gap, done, env, other.1) ==> IsFresh(a.gap, done, env, t.1))
                        && (CouldTake(a.gap, done, env, other.0) && (IsFresh(a.gap, done, env, other.1) || !IsFresh(a.gap, done, env, t.1)) ==>
                              Busy(env, done, t.0) < Busy(env, done, other.0) || (Busy(env, done, t.0) == Busy(env, done, other.0) && t.0 <= other.0))
  {
    var t :| Eligible(a.gap, done, env, t) && t.0 == a.target;
    CouldTakeIsAdmissible(a.gap, done, env, t.0);
    CouldTakeIsAdmissible(a.gap, done, env, other.0);
    FreshIsUncovered(a.gap, done, env, t.1);
    FreshIsUncovered(a.gap, done, env, other.1);
    LoadsCount(env.inFlight, done, t.0);
    LoadsCount(env.inFlight, done, other.0);
    if CouldTake(a.gap, done, env, other.0) && (IsFresh(a.gap, done, env, other.1) || !IsFresh(a.gap, done, env, t.1)) {
      assert Eligible(a.gap, done, env, other);
    }
  }

  lemma {:induction false} GoodKeepsCaps(gaps: multiset<Gap>, r: seq<Assignment>, env: Limits, n: Id)
    requires AllGood(gaps, r, env)
    ensures CountTo(r, n) > 0 ==> LoadOf(env.inFlight, n) + CountTo(r, n) <= env.perTarget
    decreases |r|
  {
    if r != [] {
      var front := r[..|r| - 1];
      forall i | 0 <= i < |front| ensures GoodAssignment(gaps, front, i, env) {
        assert GoodAssignment(gaps, r, i, env);
        assert front[..i] == r[..i];
      }
      GoodKeepsCaps(gaps, front, env, n);
      assert GoodAssignment(gaps, r, |r| - 1, env);
      LoadsCount(env.inFlight, front, n);
    }
  }

  /** No node is ever given more copies than the cap, counting those already in flight. */
  lemma CapsHold(gaps: seq<Gap>, env: Limits, n: Id)
    ensures var r := Pass(Prioritise(gaps), [], env);
            CountTo(r, n) > 0 ==> LoadOf(env.inFlight, n) + CountTo(r, n) <= env.perTarget
  {
    EveryAssignmentIsBest(gaps, env);
    GoodKeepsCaps(multiset(gaps), Pass(Prioritise(gaps), [], env), env, n);
  }

  /** The cap on a whole pass is only looked at between blocks. */
  lemma {:induction false} PassRespectsTotal(queue: seq<Gap>, done: seq<Assignment>, env: Limits)
    requires env.total.Some? && (done == [] || |done| < env.total.value + Max(1, env.perBlock))
    ensures var r := Pass(queue, done, env); r == [] || |r| < env.total.value + Max(1, env.perBlock)
    decreases |queue|
  {
    if queue != [] && !Full(done, env) {
      if queue[0].holders == [] {
        PassRespectsTotal(queue[1..], done, env);
      } else {
        ServeLength(queue[0], Tries(queue[0], env), done, env);
        PassRespectsTotal(queue[1..], Serve(queue[0], Tries(queue[0], env), done, env), env);
      }
    }
  }

  lemma {:induction false} ServeLength(gap: Gap, tries: nat, done: seq<Assignment>, env: Limits)
    requires gap.holders != []
    ensures done <= Serve(gap, tries, done, env) && |Serve(gap, tries, done, env)| <= |done| + tries
    ensures forall i :: |done| <= i < |Serve(gap, tries, done, env)| ==> Serve(gap, tries, done, env)[i].gap == gap
    decreases tries
  {
    if tries > 0 {
      match Choose(gap, done, env)
      case None =>
      case Some(n) =>
        ServeLength(gap, tries - 1, done + [Assignment(gap.block, gap.holders[0], n, gap)], env);
    }
  }

  // ----- Order ---------------------------------------------------------------

  ghost predicate ByPriority(r: seq<Assignment>) {
    forall i, j :: 0 <= i < j < |r| ==> KeyLeq(r[i].gap, r[j].gap)
  }

  lemma {:induction false} PassKeepsOrder(queue: seq<Gap>, done: seq<Assignment>, env: Limits)
    requires Ordered(queue) && ByPriority(done)
    requires forall i, j :: 0 <= i < |done| && 0 <= j < |queue| ==> KeyLeq(done[i].gap, queue[j])
    ensures ByPriority(Pass(queue, done, env))
    decreases |queue|
  {
    if queue != [] && !Full(done, env) {
      if queue[0].holders == [] {
        PassKeepsOrder(queue[1..], done, env);
      } else {
        ServeLength(queue[0], Tries(queue[0], env), done, env);
        PassKeepsOrder(queue[1..], Serve(queue[0], Tries(queue[0], env), done, env), env);
      }
    }
  }

  /** Blocks with fewer copies are served first. */
  lemma FewestCopiesFirst(gaps: seq<Gap>, env: Limits)
    ensures ByPriority(Pass(Prioritise(gaps), [], env))
    ensures var r := Pass(Prioritise(gaps), [], env);
            forall i, j :: 0 <= i < j < |r| ==>
              r[i].gap.current < r[j].gap.current || (r[i].gap.current == r[j].gap.current && r[i].gap.block <= r[j].gap.block)
  {
    PrioritiseSorts(gaps);
    PassKeepsOrder(Prioritise(gaps), [], env);
    var r := Pass(Prioritise(gaps), [], env);
    forall i, j | 0 <= i < j < |r|
      ensures r[i].gap.current < r[j].gap.current || (r[i].gap.current == r[j].gap.current && r[i].gap.block <= r[j].gap.block)
    {
      assert KeyLeq(r[i].gap, r[j].gap);
    }
  }

  // ----- One copy per block ----------------------------------------------------

  ghost predicate OncePerBlock(r: seq<Assignment>) {
    forall i, j :: 0 <= i < j < |r| ==> r[i].block != r[j].block
  }

  lemma ServeOnce(gap: Gap, tries: nat, done: seq<Assignment>, env: Limits)
    requires gap.holders != [] && tries <= 1 && OncePerBlock(done)
    requires forall i :: 0 <= i < |done| ==> done[i].block != gap.block
    ensures OncePerBlock(Serve(gap, tries, done, env))
    ensures forall a :: a in Serve(gap, tries, done, env) ==> a in done || a.block == gap.block
  {
    if tries == 1 && Choose(gap, done, env).Some? {
      var next := done + [Assignment(gap.block, gap.holders[0], Choose(gap, done, env).value, gap)];
      assert Serve(gap, tries, done, env) == Serve(gap, 0, next, env);
    }
  }

  lemma {:induction false} PassOncePerBlock(queue: seq<Gap>, done: seq<Assignment>, env: Limits)
    requires env.perBlock <= 1 && DistinctBlocks(queue) && OncePerBlock(done)
    requires forall a, g :: a in done && g in queue ==> a.block != g.block
    ensures OncePerBlock(Pass(queue, done, env))
    decreases |queue|
  {
    if queue != [] && !Full(done, env) {
      var next := if queue[0].holders == [] then done else Serve(queue[0], Tries(queue[0], env), done, env);
      if queue[0].holders != [] { ServeOnce(queue[0], Tries(queue[0], env), done, env); }
      forall a, g | a in next && g in queue[1..] ensures a.block != g.block {
        assert g in queue;
        var j :| 0 <= j < |queue[1..]| && queue[1..][j] == g;
        assert queue[j + 1] == g && queue[0].block != queue[j + 1].block;
      }
      PassOncePerBlock(queue[1..], next, env);
    }
  }

  /** With one copy per block, as the queue's unique index demands, no block is assigned twice. */
  lemma NoBlockTwice(gaps: seq<Gap>, env: Limits)
    requires env.perBlock <= 1 && DistinctBlocks(gaps)
    ensures OncePerBlock(Pass(Prioritise(gaps), [], env))
  {
    PrioritiseSorts(gaps);
    DistinctIsUpToOrder(gaps, Prioritise(gaps));
    PassOncePerBlock(Prioritise(gaps), [], env);
  }

  // ----- Nothing is left undone for no reason ----------------------------------

  function CopiesOf(r: seq<Assignment>, block: Id): nat {
    if r == [] then 0 else CopiesOf(r[..|r| - 1], block) + if r[|r| - 1].block == block then 1 else 0
  }

  ghost predicate NoTarget(gap: Gap, r: seq<Assignment>, env: Limits) {
    forall c :: c in env.candidates ==> !Admissible(gap, r, env, c.0)
  }

  /** The gap got all the copies it may get in one pass, or nothing can serve it. */
  ghost predicate Settled(gap: Gap, r: seq<Assignment>, env: Limits) {
    gap.holders == [] || CopiesOf(r, gap.block) >= Tries(gap, env) || NoTarget(gap, r, env)
  }

  lemma {:induction false} CopiesOnlyGrow(r: seq<Assignment>, k: nat, block: Id)
    requires k <= |r|
    ensures CopiesOf(r[..k], block) <= CopiesOf(r, block)
    decreases |r|
  {
    if k == |r| {
      assert r[..k] == r;
    } else {
      assert r[..|r| - 1][..k] == r[..k];
      CopiesOnlyGrow(r[..|r| - 1], k, block);
    }
  }

  /** What could not be served then cannot be served later in the pass: loads only grow. */
  lemma StaysSettled(gap: Gap, done: seq<Assignment>, r: seq<Assignment>, env: Limits)
    requires done <= r && Settled(gap, done, env)
    ensures Settled(gap, r, env)
  {
    assert r[..|done|] == done;
    CopiesOnlyGrow(r, |done|, gap.block);
    if NoTarget(gap, done, env) {
      forall c | c in env.candidates ensures !Admissible(gap, r, env, c.0) {
        assert !Admissible(gap, done, env, c.0);
        LoadsOnlyGrow(env.inFlight, r, |done|, c.0);
        if Taken(gap, done, c.0) {
          var a :| a in done && a.block == gap.block && a.target == c.0;
          assert a in r;
        }
      }
    }
  }

  lemma {:induction false} ServeSettles(gap: Gap, tries: nat, done: seq<Assignment>, env: Limits)
    requires gap.holders != []
    ensures CopiesOf(Serve(gap, tries, done, env), gap.block) >= CopiesOf(done, gap.block) + tries
         || NoTarget(gap, Serve(gap, tries, done, env), env)
    decreases tries
  {
    if tries > 0 {
      ChoiceIsBest(gap, done, env);
      match Choose(gap, done, env)
      case None =>
      case Some(n) =>
        var next := done + [Assignment(gap.block, gap.holders[0], n, gap)];
        assert next[..|next| - 1] == done;
        ServeSettles(gap, tries - 1, next, env);
    }
  }

  lemma {:induction false} PassGrows(queue: seq<Gap>, done: seq<Assignment>, env: Limits)
    ensures done <= Pass(queue, done, env)
    decreases |queue|
  {
    if queue != [] && !Full(done, env) {
      if queue[0].holders == [] {
        PassGrows(queue[1..], done, env);
      } else {
        ServeLength(queue[0], Tries(queue[0], env), done, env);
        PassGrows(queue[1..], Serve(queue[0], Tries(queue[0], env), done, env), env);
      }
    }
  }

  lemma {:induction false} PassSettles(queue: seq<Gap>, done: seq<Assignment>, env: Limits, gap: Gap)
    requires gap in queue && !Full(Pass(queue, done, env), env)
    ensures Settled(gap, Pass(queue, done, env), env)
    decreases |queue|
  {
    PassGrows(queue, done, env);
    if !Full(done, env) {
      var next := if queue[0].holders == [] then done else Serve(queue[0], Tries(queue[0], env), done, env);
      if gap == queue[0] {
        if gap.holders != [] { ServeSettles(gap, Tries(gap, env), done, env); }
        PassGrows(queue[1..], next, env);
        StaysSettled(gap, next, Pass(queue[1..], next, env), env);
      } else {
        assert gap in queue[1..];
        PassSettles(queue[1..], next, env, gap);
      }
    }
  }

  /** Unless the pass ran into its total cap, every gap was served in full or cannot be served:
      it has no copy to read from, or no candidate is admissible even when the pass ends. */
  lemma WorkConserving(gaps: seq<Gap>, env: Limits, gap: Gap)
    requires gap in gaps
    ensures var r := Pass(Prioritise(gaps), [], env);
            && (Full(r, env) || Settled(gap, r, env))
            && ((env.total.None? || |r| < env.total.value) && gap.holders != []
                && CopiesOf(r, gap.block) < Min(gap.target - gap.current, env.perBlock) ==>
                  forall c :: c in env.candidates ==> !CouldTake(gap, r, env, c.0))
  {
    PrioritiseSorts(gaps);
    assert gap in multiset(Prioritise(gaps));
    var r := Pass(Prioritise(gaps), [], env);
    if !Full(r, env) { PassSettles(Prioritise(gaps), [], env, gap); }
    forall c | c in env.candidates ensures CouldTake(gap, r, env, c.0) <==> Admissible(gap, r, env, c.0) {
      CouldTakeIsAdmissible(gap, r, env, c.0);
    }
  }

  // ----- Two control nodes that see the same decide the same -------------------

  ghost predicate SameCandidates(a: Limits, b: Limits) {
    && a == b.(candidates := a.candidates)
    && forall c :: c in a.candidates <==> c in b.candidates
  }

  lemma ChoiceIgnoresOrder(gap: Gap, done: seq<Assignment>, a: Limits, b: Limits)
    requires SameCandidates(a, b)
    ensures Choose(gap, done, a) == Choose(gap, done, b)
  {
    ChoiceIsBest(gap, done, a);
    ChoiceIsBest(gap, done, b);
    forall n: Id ensures Admissible(gap, done, a, n) <==> Admissible(gap, done, b, n) {}
    forall d: string ensures Covered(gap, done, a, d) <==> Covered(gap, done, b, d) {}
    forall c ensures Eligible(gap, done, a, c) <==> Eligible(gap, done, b, c) {}
    if Choose(gap, done, a).Some? {
      BestIsUnique(gap, done, a, Choose(gap, done, a).value, Choose(gap, done, b).value);
    }
  }

  lemma {:induction false} ServeIgnoresOrder(gap: Gap, tries: nat, done: seq<Assignment>, a: Limits, b: Limits)
    requires gap.holders != [] && SameCandidates(a, b)
    ensures Serve(gap, tries, done, a) == Serve(gap, tries, done, b)
    decreases tries
  {
    if tries > 0 {
      ChoiceIgnoresOrder(gap, done, a, b);
      match Choose(gap, done, a)
      case None =>
      case Some(n) => ServeIgnoresOrder(gap, tries - 1, done + [Assignment(gap.block, gap.holders[0], n, gap)], a, b);
    }
  }

  lemma {:induction false} PassIgnoresOrder(queue: seq<Gap>, done: seq<Assignment>, a: Limits, b: Limits)
    requires SameCandidates(a, b)
    ensures Pass(queue, done, a) == Pass(queue, done, b)
    decreases |queue|
  {
    if queue != [] && !Full(done, a) {
      if queue[0].holders == [] {
        PassIgnoresOrder(queue[1..], done, a, b);
      } else {
        ServeIgnoresOrder(queue[0], Tries(queue[0], a), done, a, b);
        PassIgnoresOrder(queue[1..], Serve(queue[0], Tries(queue[0], a), done, a), a, b);
      }
    }
  }

  /** The result depends on which gaps and candidates there are, not on the order they come in. */
  lemma OrderDoesNotMatter(gaps: seq<Gap>, others: seq<Gap>, a: Limits, b: Limits)
    requires multiset(gaps) == multiset(others) && DistinctBlocks(gaps) && SameCandidates(a, b)
    ensures Pass(Prioritise(gaps), [], a) == Pass(Prioritise(others), [], b)
  {
    PrioritiseSorts(gaps);
    PrioritiseSorts(others);
    DistinctIsUpToOrder(gaps, Prioritise(gaps));
    SortedIsUnique(Prioritise(gaps), Prioritise(others));
    PassIgnoresOrder(Prioritise(gaps), [], a, b);
  }
}
