/** Nodes that register, beat, report and fall silent, and what that does to the recorded copies
    (commands/control_plane.py, domain/membership.py, domain/divergence.py). */
module Membership {
  import opened Common
  import opened Entities
  import opened Cluster
  import Leadership

  datatype Members = Members(nodes: Nodes, copies: Copies)

  // ----- Divergence ------------------------------------------------------------

  datatype Divergence = Divergence(unknown: set<Id>, missing: set<Id>, confirmed: set<Id>)

  /** Only a full report authorises the conclusion that something is missing. */
  function Compare(expected: set<Id>, reported: set<Id>, isFull: bool): Divergence {
    Divergence(reported - expected, if isFull then expected - reported else {}, reported * expected)
  }

  function SetStates(copies: Copies, blocks: set<Id>, n: Id, state: ReplicaState): Copies {
    map c | c in copies :: if c.1 == n && c.0 in blocks then copies[c].(state := state) else copies[c]
  }

  predicate IsExpected(copies: Copies, b: Id, n: Id) { (b, n) in copies && copies[(b, n)].state != Pending }

  /** The blocks the metadata expects on a node: STORED or MISSING, not those still being written. */
  function ExpectedOn(copies: Copies, n: Id): set<Id> { set c | c in copies && c.1 == n && copies[c].state != Pending :: c.0 }

  function LoseStored(copies: Copies, n: Id): Copies {
    map c | c in copies :: if c.1 == n && copies[c].state == Stored then copies[c].(state := Missing) else copies[c]
  }

  // ----- Registration ------------------------------------------------------------

  datatype Rejoin = NewNode | SameBoot | WipedDisk

  function ClassifyRejoin(existing: Option<Node>, bootId: string): Rejoin {
    if existing.None? then NewNode
    else if existing.value.bootId != "" && existing.value.bootId == bootId then SameBoot
    else WipedDisk
  }

  function ByUrl(nodes: Nodes, url: string): set<Id> { set n | n in nodes && nodes[n].url == url }

  /** The row of a node that comes back: by the id it sends, else by its address. */
  function Existing(nodes: Nodes, url: string, id: Option<Id>): Option<Id> {
    if id.Some? && id.value in nodes then id
    else if ByUrl(nodes, url) == {} then None else Some(Ascending(ByUrl(nodes, url))[0])
  }

  function Register(m: Members, url: string, domain: string, bootId: string, id: Option<Id>, key: Id, now: Time): (Members, Id, Rejoin) {
    var existing := Existing(m.nodes, url, id);
    var n := if existing.Some? then existing.value else if id.Some? then id.value else key;
    var kind := ClassifyRejoin(Get(m.nodes, n), bootId);
    var row := if n in m.nodes then m.nodes[n].(url := url, domain := domain, bootId := bootId, state := Alive)
               else Node(url, domain, bootId, Alive, now, None, 0);
    var copies := if kind.WipedDisk? then LoseStored(m.copies, n) else m.copies;
    (Members(m.nodes[n := row], copies), n, kind)
  }

  // ----- Heartbeats and reports ----------------------------------------------------

  datatype Beat = Beat(requestFullReport: bool, unknown: set<Id>)

  /** A beat from a boot the metadata does not know changes nothing. */
  function Heartbeat(m: Members, n: Id, bootId: string, sequence: int, added: set<Id>, removed: set<Id>, now: Time): (Members, Result<Beat>) {
    if n !in m.nodes then (m, Err(NotFound)) else
    var node := m.nodes[n];
    if node.bootId != "" && bootId != "" && node.bootId != bootId then (m, Ok(Beat(true, {}))) else
    var report := Compare(ExpectedOn(m.copies, n), added, false);
    var gap := sequence > node.lastSequence + 1 && node.lastSequence > 0;
    (Members(m.nodes[n := node.(lastHeartbeat := Some(now), lastSequence := sequence, state := Alive)],
             SetStates(SetStates(m.copies, report.confirmed, n, Stored), removed, n, Missing)),
     Ok(Beat(report.unknown != {} || gap, report.unknown)))
  }

  function Report(m: Members, n: Id, isFull: bool, reported: set<Id>): Result<(Members, Divergence)> {
    if n !in m.nodes then Err(NotFound) else
    var report := Compare(ExpectedOn(m.copies, n), reported, isFull);
    Ok((m.(copies := SetStates(SetStates(m.copies, report.confirmed, n, Stored), report.missing, n, Missing)), report))
  }

  // ----- Evaluation --------------------------------------------------------------

  predicate LosesCopies(node: Node, now: Time, th: Thresholds) {
    StateOfNode(node, now, th).Dead? && !node.state.Dead?
  }

  function EvaluateNode(m: Members, n: Id, now: Time, th: Thresholds): Members {
    if n !in m.nodes then m else
    var node := m.nodes[n];
    Members(m.nodes[n := node.(state := StateOfNode(node, now, th))],
            if LosesCopies(node, now, th) then LoseStored(m.copies, n) else m.copies)
  }

  function EvaluateAll(m: Members, ids: seq<Id>, now: Time, th: Thresholds): Members {
    if ids == [] then m else EvaluateNode(EvaluateAll(m, ids[..|ids| - 1], now, th), ids[|ids| - 1], now, th)
  }

  /** Without a fencing pair the check is skipped. */
  function Evaluate(m: Members, lease: Option<Leadership.Lease>, fencing: Option<Leadership.Fencing>, now: Time, th: Thresholds): Result<Members> {
    var leads := if fencing.None? then Ok(()) else Leadership.RequireLeadership(lease, fencing.value, now);
    if leads.Err? then Err(leads.error) else Ok(EvaluateAll(m, Ascending(m.nodes.Keys), now, th))
  }

  /** The tables of nodes and copies, and the commands that update them. */
  class ControlPlane {
    var nodes: Nodes
    var copies: Copies
    var lease: Option<Leadership.Lease>

    function Snapshot(): Members reads this { Members(nodes, copies) }

    method RegisterNode(url: string, domain: string, bootId: string, id: Option<Id>, key: Id, now: Time)
      returns (n: Id, kind: Rejoin)
      modifies this`nodes, this`copies
      ensures (Snapshot(), n, kind) == Register(old(Snapshot()), url, domain, bootId, id, key, now)
    {
      var existing := Existing(nodes, url, id);
      n := if existing.Some? then existing.value else if id.Some? then id.value else key;
      kind := ClassifyRejoin(Get(nodes, n), bootId);
      if n in nodes {
        nodes := nodes[n := nodes[n].(url := url, domain := domain, bootId := bootId, state := Alive)];
      } else {
        nodes := nodes[n := Node(url, domain, bootId, Alive, now, None, 0)];
      }
      if kind.WipedDisk? {
        copies := LoseStored(copies, n);
      }
    }

    method RecordHeartbeat(n: Id, bootId: string, sequence: int, added: set<Id>, removed: set<Id>, now: Time)
      returns (r: Result<Beat>)
      modifies this`nodes, this`copies
      ensures (Snapshot(), r) == Heartbeat(old(Snapshot()), n, bootId, sequence, added, removed, now)
    {
      if n !in nodes {
        return Err(NotFound);
      }
      var node := nodes[n];
      if node.bootId != "" && bootId != "" && node.bootId != bootId {
        return Ok(Beat(true, {}));
      }
      nodes := nodes[n := node.(lastHeartbeat := Some(now), lastSequence := sequence)];
      if !node.state.Alive? {
        nodes := nodes[n := nodes[n].(state := Alive)];
      }
      assert nodes == old(nodes)[n := node.(lastHeartbeat := Some(now), lastSequence := sequence, state := Alive)];
      var report := Compare(ExpectedOn(copies, n), added, false);
      copies := SetStates(copies, report.confirmed, n, Stored);
      copies := SetStates(copies, removed, n, Missing);
      return Ok(Beat(report.unknown != {} || (sequence > node.lastSequence + 1 && node.lastSequence > 0), report.unknown));
    }

    method ApplyBlockReport(n: Id, isFull: bool, reported: set<Id>) returns (r: Result<Divergence>)
      modifies this`copies
      ensures match Report(old(Snapshot()), n, isFull, reported)
              case Ok(after) => Snapshot() == after.0 && r == Ok(after.1)
              case Err(e) => Snapshot() == old(Snapshot()) && r == Err(e)
    {
      if n !in nodes {
        return Err(NotFound);
      }
      var report := Compare(ExpectedOn(copies, n), reported, isFull);
      copies := SetStates(copies, report.confirmed, n, Stored);
      copies := SetStates(copies, report.missing, n, Missing);
      return Ok(report);
    }

    method EvaluateMembership(fencing: Option<Leadership.Fencing>, now: Time, th: Thresholds) returns (r: Result<()>)
      modifies this`nodes, this`copies
      ensures match Evaluate(old(Snapshot()), lease, fencing, now, th)
              case Ok(after) => Snapshot() == after && r == Ok(())
              case Err(e) => Snapshot() == old(Snapshot()) && r == Err(e)
    {
      if fencing.Some? {
        var leads := Leadership.RequireLeadership(lease, fencing.value, now);
        if leads.Err? {
          return Err(leads.error);
        }
      }
      ghost var begin := Snapshot();
      var ids := Ascending(nodes.Keys);
      for i := 0 to |ids|
        invariant Snapshot() == EvaluateAll(begin, ids[..i], now, th)
      {
        assert ids[..i + 1][..i] == ids[..i];
        var n := ids[i];
        if n !in nodes {
          continue;
        }
        var current := StateOfNode(nodes[n], now, th);
        if current == nodes[n].state {
          assert nodes[n := nodes[n].(state := current)] == nodes;
          continue;
        }
        var lost := current.Dead? && !nodes[n].state.Dead?;
        nodes := nodes[n := nodes[n].(state := current)];
        if lost {
          copies := LoseStored(copies, n);
        }
      }
      assert ids[..|ids|] == ids;
      return Ok(());
    }
  }

  // ----- What one step does to the copies ---------------------------------------------

  lemma ExpectedIs(copies: Copies, n: Id)
    ensures forall b: Id :: b in ExpectedOn(copies, n) <==> IsExpected(copies, b, n)
  {
    forall b: Id | IsExpected(copies, b, n) ensures b in ExpectedOn(copies, n) { assert (b, n) in copies; }
  }

  /** After a full report the stored copies of a node are exactly the reported ones the metadata
      expected; what was expected and not reported is missing; nothing else changes. */
  lemma FullReportIsExact(m: Members, n: Id, reported: set<Id>)
    requires n in m.nodes
    ensures var v := Report(m, n, true, reported).value.0;
            && v.copies.Keys == m.copies.Keys && v.nodes == m.nodes
            && (forall b: Id :: (b, n) in v.copies ==>
                  (v.copies[(b, n)].state == Stored <==> b in reported && IsExpected(m.copies, b, n))
                  && (v.copies[(b, n)].state == Missing <==> b !in reported && IsExpected(m.copies, b, n)))
            && (forall c :: c in m.copies && c.1 != n ==> v.copies[c] == m.copies[c])
  {
    ExpectedIs(m.copies, n);
  }

  /** An incremental report never marks anything missing, and leaves what it does not mention alone. */
  lemma IncrementalReportIsMild(m: Members, n: Id, reported: set<Id>)
    requires n in m.nodes
    ensures var v := Report(m, n, false, reported).value.0;
            && v.copies.Keys == m.copies.Keys
            && forall c :: c in m.copies ==>
                 v.copies[c] == if c.1 == n && c.0 in reported && m.copies[c].state != Pending then m.copies[c].(state := Stored) else m.copies[c]
  {
    ExpectedIs(m.copies, n);
  }

  /** A heartbeat only touches the blocks it mentions; only those it says are gone become missing. */
  lemma HeartbeatTouchesOnlyMentioned(m: Members, n: Id, bootId: string, sequence: int, added: set<Id>, removed: set<Id>, now: Time)
    ensures var v := Heartbeat(m, n, bootId, sequence, added, removed, now).0;
            && v.copies.Keys == m.copies.Keys
            && forall c :: c in m.copies ==>
                 && (c.1 != n || (c.0 !in added && c.0 !in removed) ==> v.copies[c] == m.copies[c])
                 && (v.copies[c].state == Missing && m.copies[c].state != Missing ==> c.1 == n && c.0 in removed)
  {
    ExpectedIs(m.copies, n);
  }

  /** A node is judged by its silence since its last heartbeat, or since it registered if it never spoke. */
  lemma SilenceDecides(node: Node, now: Time, th: Thresholds)
    ensures var silence := now - if node.lastHeartbeat.Some? then node.lastHeartbeat.value else node.registeredAt;
            && (StateOfNode(node, now, th).Alive? <==> silence < th.suspectAfter && silence < th.deadAfter)
            && (StateOfNode(node, now, th).Dead? <==> th.deadAfter <= silence)
  {
  }

  /** The known boot of a known node: another boot has to register first. */
  predicate IsHeard(m: Members, n: Id, bootId: string) {
    n in m.nodes && (m.nodes[n].bootId == "" || bootId == "" || m.nodes[n].bootId == bootId)
  }

  /** What a heartbeat that is heard records: the node is alive as of now, for as long as it may be silent
      without suspicion; the copies it added and the metadata expects are stored, those it removed are
      missing; no other node and no other copy changes. */
  lemma HeartbeatIsExact(m: Members, n: Id, bootId: string, sequence: int, added: set<Id>, removed: set<Id>, now: Time)
    ensures var v := Heartbeat(m, n, bootId, sequence, added, removed, now).0;
            && (!IsHeard(m, n, bootId) ==> v == m)
            && (IsHeard(m, n, bootId) ==>
                  && v.nodes == m.nodes[n := m.nodes[n].(lastHeartbeat := Some(now), lastSequence := sequence, state := Alive)]
                  && (forall later, th: Thresholds :: later < now + th.suspectAfter && later < now + th.deadAfter ==>
                        StateOfNode(v.nodes[n], later, th).Alive?)
                  && v.copies.Keys == m.copies.Keys
                  && forall c :: c in m.copies ==>
                       v.copies[c] == if c.1 == n && c.0 in removed then m.copies[c].(state := Missing)
                                      else if c.1 == n && c.0 in added && m.copies[c].state != Pending then m.copies[c].(state := Stored)
                                      else m.copies[c])
  {
    ExpectedIs(m.copies, n);
  }

  /** What a heartbeat is answered: which of the blocks it added the metadata does not expect there, and
      whether a full report is due because of them, of a lost heartbeat or of an unknown boot. */
  lemma HeartbeatIsAnswered(m: Members, n: Id, bootId: string, sequence: int, added: set<Id>, removed: set<Id>, now: Time)
    ensures var r := Heartbeat(m, n, bootId, sequence, added, removed, now).1;
            && (r.Ok? <==> n in m.nodes)
            && (r.Err? ==> r == Err(NotFound))
            && (r.Ok? && !IsHeard(m, n, bootId) ==> r.value == Beat(true, {}))
            && (r.Ok? && IsHeard(m, n, bootId) ==>
                  && (forall b: Id :: b in r.value.unknown <==> b in added && !IsExpected(m.copies, b, n))
                  && (r.value.requestFullReport <==>
                        (exists b: Id :: b in added && !IsExpected(m.copies, b, n))
                        || (m.nodes[n].lastSequence > 0 && sequence > m.nodes[n].lastSequence + 1)))
  {
    ExpectedIs(m.copies, n);
    var report := Compare(ExpectedOn(m.copies, n), added, false);
    forall b: Id ensures b in report.unknown <==> b in added && !IsExpected(m.copies, b, n) {}
    if report.unknown != {} { var b :| b in report.unknown; }
  }

  /** What a report is answered: the blocks nobody expects there, and for a full one those that are gone. */
  lemma ReportIsAnswered(m: Members, n: Id, isFull: bool, reported: set<Id>)
    ensures var r := Report(m, n, isFull, reported);
            && (r.Ok? <==> n in m.nodes)
            && (r.Ok? ==>
                  && (forall b: Id :: b in r.value.1.unknown <==> b in reported && !IsExpected(m.copies, b, n))
                  && (forall b: Id :: b in r.value.1.confirmed <==> b in reported && IsExpected(m.copies, b, n))
                  && (forall b: Id :: b in r.value.1.missing <==> isFull && b !in reported && IsExpected(m.copies, b, n)))
  {
    ExpectedIs(m.copies, n);
  }

  lemma {:induction false} EvaluationKeepsRows(m: Members, ids: seq<Id>, now: Time, th: Thresholds)
    ensures var v := EvaluateAll(m, ids, now, th);
            && v.nodes.Keys == m.nodes.Keys && v.copies.Keys == m.copies.Keys
            && (forall c :: c in m.copies ==> v.copies[c] == m.copies[c] || (m.copies[c].state == Stored && v.copies[c].state == Missing))
            && (forall n :: n in m.nodes ==> v.nodes[n].bootId == m.nodes[n].bootId)
    decreases |ids|
  {
    if ids != [] { EvaluationKeepsRows(m, ids[..|ids| - 1], now, th); }
  }

  /** A node keeps its identity: the id it sends wins if it is known, then its address; only a node
      unknown by both is new. Registration changes no other node. */
  lemma RegistrationKeepsIdentity(m: Members, url: string, domain: string, bootId: string, id: Option<Id>, key: Id, now: Time)
    ensures var (v, n, kind) := Register(m, url, domain, bootId, id, key, now);
            && (id.Some? && id.value in m.nodes ==> n == id.value)
            && (!(id.Some? && id.value in m.nodes) && (exists k :: k in m.nodes && m.nodes[k].url == url) ==>
                  n in m.nodes && m.nodes[n].url == url)
            && n in v.nodes && v.nodes[n].url == url && v.nodes[n].domain == domain && v.nodes[n].bootId == bootId && v.nodes[n].state == Alive
            && (n in m.nodes ==> v.nodes[n].lastHeartbeat == m.nodes[n].lastHeartbeat && v.nodes[n].registeredAt == m.nodes[n].registeredAt
                                 && v.nodes[n].lastSequence == m.nodes[n].lastSequence)
            && (n !in m.nodes ==> v.nodes[n] == Node(url, domain, bootId, Alive, now, None, 0) && n == if id.Some? then id.value else key)
            && (forall k :: k in m.nodes && k != n ==> k in v.nodes && v.nodes[k] == m.nodes[k])
            && v.nodes.Keys == m.nodes.Keys + {n}
  {
    AscendingLists(ByUrl(m.nodes, url));
    if k :| k in m.nodes && m.nodes[k].url == url {
      assert k in ByUrl(m.nodes, url);
      assert Ascending(ByUrl(m.nodes, url))[0] in Ascending(ByUrl(m.nodes, url));
    }
  }

  /** Coming back with another boot id gives up every copy the node was thought to have. */
  lemma WipedDiskLosesAll(m: Members, url: string, domain: string, bootId: string, id: Option<Id>, key: Id, now: Time)
    ensures var (v, n, kind) := Register(m, url, domain, bootId, id, key, now);
            && v.copies.Keys == m.copies.Keys
            && (kind.WipedDisk? <==> n in m.nodes && (m.nodes[n].bootId == "" || m.nodes[n].bootId != bootId))
            && (kind.NewNode? <==> n !in m.nodes)
            && (forall c :: c in m.copies ==>
                  v.copies[c] == if kind.WipedDisk? && c.1 == n && m.copies[c].state == Stored then m.copies[c].(state := Missing) else m.copies[c])
  {
  }

  // ----- Outages -------------------------------------------------------------

  datatype Event =
    | Registering(url: string, domain: string, bootId: string, id: Option<Id>, key: Id, at: Time)
    | Beating(node: Id, bootId: string, sequence: int, added: set<Id>, removed: set<Id>, at: Time)
    | Reporting(node: Id, isFull: bool, reported: set<Id>)
    | Evaluating(lease: Option<Leadership.Lease>, fencing: Option<Leadership.Fencing>, at: Time, th: Thresholds)

  function Step(m: Members, e: Event): Members {
    match e
    case Registering(url, domain, bootId, id, key, at) => Register(m, url, domain, bootId, id, key, at).0
    case Beating(n, bootId, sequence, added, removed, at) => Heartbeat(m, n, bootId, sequence, added, removed, at).0
    case Reporting(n, isFull, reported) => (match Report(m, n, isFull, reported) case Ok(r) => r.0 case Err(_) => m)
    case Evaluating(lease, fencing, at, th) => (match Evaluate(m, lease, fencing, at, th) case Ok(v) => v case Err(_) => m)
  }

  function Run(m: Members, events: seq<Event>): Members
    decreases |events|
  {
    if events == [] then m else Run(Step(m, events[0]), events[1..])
  }

  lemma StepKeepsRows(m: Members, e: Event)
    ensures Step(m, e).copies.Keys == m.copies.Keys
    ensures m.nodes.Keys <= Step(m, e).nodes.Keys
  {
    match e
    case Registering(_, _, _, _, _, _) =>
    case Beating(_, _, _, _, _, _) =>
    case Reporting(_, _, _) =>
    case Evaluating(lease, fencing, at, th) => EvaluationKeepsRows(m, Ascending(m.nodes.Keys), at, th);
  }

  /** A row the metadata expects on a node is never forgotten: no step deletes it or takes it back to
      being written. */
  lemma StepKeepsExpected(m: Members, e: Event, b: Id, n: Id)
    requires IsExpected(m.copies, b, n)
    ensures IsExpected(Step(m, e).copies, b, n)
  {
    match e
    case Registering(_, _, _, _, _, _) =>
    case Beating(_, _, _, _, _, _) =>
    case Reporting(_, _, _) =>
    case Evaluating(lease, fencing, at, th) => EvaluationKeepsRows(m, Ascending(m.nodes.Keys), at, th);
  }

  lemma {:induction false} RunKeepsExpected(m: Members, events: seq<Event>, b: Id, n: Id)
    requires IsExpected(m.copies, b, n) && n in m.nodes
    ensures IsExpected(Run(m, events).copies, b, n) && n in Run(m, events).nodes
    decreases |events|
  {
    if events != [] {
      StepKeepsRows(m, events[0]);
      StepKeepsExpected(m, events[0], b, n);
      RunKeepsExpected(Step(m, events[0]), events[1..], b, n);
    }
  }

  /** Outages of a node whose disk is intact lose nothing: after any silence, evaluation, heartbeat,
      registration and report, one full report of its disk restores every copy it was known to have
      and still has, and the stored copies are then exactly the expected ones on the disk. */
  lemma OutagesAreLossless(m: Members, events: seq<Event>, n: Id, disk: set<Id>)
    requires n in m.nodes
    ensures var v := Run(m, events);
            && n in v.nodes
            && var after := Report(v, n, true, disk).value.0;
               && (forall b: Id :: b in disk && (b, n) in m.copies && m.copies[(b, n)].state == Stored ==>
                     (b, n) in after.copies && after.copies[(b, n)].state == Stored)
               && (forall b: Id :: (b, n) in after.copies ==>
                     (after.copies[(b, n)].state == Stored <==> b in disk && IsExpected(v.copies, b, n)))
  {
    RunKeepsNode(m, events, n);
    var v := Run(m, events);
    FullReportIsExact(v, n, disk);
    forall b: Id | b in disk && (b, n) in m.copies && m.copies[(b, n)].state == Stored
      ensures (b, n) in v.copies && IsExpected(v.copies, b, n)
    {
      RunKeepsExpected(m, events, b, n);
    }
  }

  lemma {:induction false} RunKeepsNode(m: Members, events: seq<Event>, n: Id)
    requires n in m.nodes
    ensures n in Run(m, events).nodes
    decreases |events|
  {
    if events != [] {
      StepKeepsRows(m, events[0]);
      RunKeepsNode(Step(m, events[0]), events[1..], n);
    }
  }

  /** What an evaluation of the given nodes leaves behind. */
  ghost predicate Evaluated(m: Members, v: Members, ids: seq<Id>, now: Time, th: Thresholds) {
    && v.nodes.Keys == m.nodes.Keys && v.copies.Keys == m.copies.Keys
    && (forall n :: n in m.nodes ==> v.nodes[n] == if n in ids then m.nodes[n].(state := StateOfNode(m.nodes[n], now, th)) else m.nodes[n])
    && (forall c :: c in m.copies ==>
          v.copies[c] == if c.1 in ids && c.1 in m.nodes && LosesCopies(m.nodes[c.1], now, th) && m.copies[c].state == Stored
                         then m.copies[c].(state := Missing) else m.copies[c])
  }

  lemma {:induction false} EvaluatedAll(m: Members, ids: seq<Id>, now: Time, th: Thresholds)
    requires forall i, j :: 0 <= i < j < |ids| ==> ids[i] != ids[j]
    ensures Evaluated(m, EvaluateAll(m, ids, now, th), ids, now, th)
    decreases |ids|
  {
    if ids != [] {
      var front, last := ids[..|ids| - 1], ids[|ids| - 1];
      EvaluatedAll(m, front, now, th);
      assert ids == front + [last] && last !in front;
    }
  }

  /** An evaluation records for every node the state its silence deserves, and the copies that become
      missing are exactly the stored ones of the nodes that just died. */
  lemma EvaluationIsExact(m: Members, lease: Option<Leadership.Lease>, fencing: Option<Leadership.Fencing>, now: Time, th: Thresholds)
    ensures Evaluate(m, lease, fencing, now, th).Ok? <==> fencing.None? || Leadership.RequireLeadership(lease, fencing.value, now).Ok?
    ensures Evaluate(m, lease, fencing, now, th).Ok? ==>
            var v := Evaluate(m, lease, fencing, now, th).value;
            && (forall n :: n in m.nodes ==> n in v.nodes && v.nodes[n] == m.nodes[n].(state := StateOfNode(m.nodes[n], now, th)))
            && (forall c :: c in m.copies && c.1 in m.nodes ==>
                  && c in v.copies
                  && (v.copies[c] != m.copies[c] <==>
                        !m.nodes[c.1].state.Dead? && StateOfNode(m.nodes[c.1], now, th).Dead? && m.copies[c].state == Stored)
                  && (v.copies[c] != m.copies[c] ==> v.copies[c] == m.copies[c].(state := Missing)))
  {
    AscendingLists(m.nodes.Keys);
    EvaluatedAll(m, Ascending(m.nodes.Keys), now, th);
  }
}
