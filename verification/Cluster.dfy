/** Nodes and the copies they are known to have (domain/membership.py). */
module Cluster {
  import opened Common
  import opened Entities

  datatype NodeState = Alive | Suspect | Dead

  datatype Thresholds = Thresholds(suspectAfter: Time, deadAfter: Time)

  datatype Node = Node(url: string, domain: string, bootId: string, state: NodeState, registeredAt: Time, lastHeartbeat: Option<Time>,
                       lastSequence: int)

  datatype Copy = Copy(state: ReplicaState, createdAt: Time)

  type Nodes = map<Id, Node>

  /** One row per (block, node). */
  type Copies = map<(Id, Id), Copy>

  /** The state a node deserves for how long it has been silent. A node that has not spoken yet
      counts from its registration, when the caller knows it. */
  function StateFor(lastHeartbeat: Option<Time>, now: Time, t: Thresholds, registeredAt: Option<Time>): NodeState {
    var reference := if lastHeartbeat.Some? then lastHeartbeat else registeredAt;
    if reference.None? then Dead
    else if now - reference.value >= t.deadAfter then Dead
    else if now - reference.value >= t.suspectAfter then Suspect
    else Alive
  }

  function StateOfNode(node: Node, now: Time, t: Thresholds): NodeState {
    StateFor(node.lastHeartbeat, now, t, Some(node.registeredAt))
  }

  function CopiesOn(copies: Copies, block: Id): set<Id> { set r | r in copies && r.0 == block :: r.1 }

  function StoredOn(copies: Copies, block: Id): set<Id> {
    set r | r in copies && r.0 == block && copies[r].state == Stored :: r.1
  }
}
