/** Nodes beating, reporting, registering and dying, as seen by the recovery queue. */
module RecoverySetting {
  import opened Recovery
  import R = RecoveryRuns
  import M = Membership

  function AfterMembership(s: Store, e: M.Event): Store {
    var v := M.Step(M.Members(s.nodes, s.copies), e);
    s.(nodes := v.nodes, copies := v.copies)
  }

  /** Nothing that happens to a node touches the queue or drops a row it relies on: what holds in every
      run of the queue holds with all of it going on. */
  lemma MembershipLeavesQueue(s: Store, e: M.Event, p: Policy)
    requires R.Inv(s, p)
    ensures R.Step(s, R.Other(AfterMembership(s, e)), p) == AfterMembership(s, e)
    ensures R.Inv(AfterMembership(s, e), p)
  {
    M.StepKeepsRows(M.Members(s.nodes, s.copies), e);
    R.OthersKeepInv(s, AfterMembership(s, e), p);
  }
}
