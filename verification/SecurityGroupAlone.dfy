/** What the interleaved model of the security-group update calls running a request alone is what one
    try of the request does, told as a client sees it: rule contents, not ids. */
module SecurityGroupAlone {
  import opened SecurityGroupRules
  import opened SecurityGroupUpdate
  import opened SecurityGroupOutcomes
  import Race = SecurityGroupRace

  function WantOf(req: Request): Race.Want {
    Race.Want(req.name, req.description, set c | c in req.rules)
  }

  ghost function ViewOf(row: Row, w: World): Race.View {
    Race.View(Race.Row(row.name, row.description, row.version), w.name, set c | c in Contents(w.rules))
  }

  /** A successful try that changes the row it read takes both stores, if they agreed on the name, where
      `Race.Alone` says. */
  lemma AloneIsOneTry(req: Request, plan: Plan, w: World, binding: Binding)
    requires Valid(w) && TryOnce(req, plan, w, [], binding).end.Returned?
    requires plan.row.value.name == w.name && Committed(req, plan.row.value) != plan.row.value
    ensures var t := TryOnce(req, plan, w, [], binding);
            ViewOf(t.end.committed, t.world) == Race.Alone(WantOf(req), ViewOf(plan.row.value, w))
  {
    var t := TryOnce(req, plan, w, [], binding);
    TryShape(req, plan, w, [], binding);
    SuccessfulRequest(req, [plan], w, [], binding);
    assert (set c | c in Contents(t.world.rules)) == (set c | c in req.rules);
  }
}
