/** What a rolled-back admission leaves in an ARC policy, for the policy alone and inside a node. */
module ArcRollback {
  import opened Status
  import opened Blocks
  import opened Recency
  import opened PolicyOps
  import opened ArcPolicy
  import opened EvictionPolicy
  import opened NodeModel
  import NodeHistory
  import ArcBounds

  /** The policy less the ghost that an insertion pays with. */
  function Trimmed(a: ArcState): ArcState {
    match a.GhostToTrim()
    case None => a
    case Some(l) => a.DropOldest(l)
  }

  lemma UnlinkPushed(a: ArcState, key: BlockKey)
    requires a.ListsValid() && key !in a.pos
    ensures a.PushFront(key, T1).Unlink(key) == a
  {
    WithoutDistinct(a.t1, key);
    assert ([key] + a.t1)[1..] == a.t1;
    assert a.pos[key := T1] - {key} == a.pos;
  }

  lemma DropCommutes(a: ArcState, key: BlockKey, l: ListId)
    requires a.ListsValid() && key !in a.pos && l in {B1, B2}
    ensures a.PushFront(key, T1).DropOldest(l) == a.DropOldest(l).PushFront(key, T1)
  {
    if a.List(l) != [] {
      var oldest := a.List(l)[|a.List(l)| - 1];
      assert oldest in a.List(l);
      assert a.pos[key := T1] - {oldest} == (a.pos - {oldest})[key := T1];
    }
  }

  /** Inserting a new key and taking it back costs the trimmed ghost and the tie-break, no more. */
  lemma RollbackIs(a: ArcState, key: BlockKey)
    requires a.Valid() && a.reserved.None? && key !in a.pos
    ensures a.Admit(key).Forget(key) == Trimmed(a).(lastHitInB2 := false)
  {
    var paid := Trimmed(a);
    if a.GhostToTrim().Some? {
      DropOldestKeeps(a, a.GhostToTrim().value);
      DropCommutes(a, key, a.GhostToTrim().value);
    }
    UnlinkPushed(paid, key);
    assert a.Admit(key) == paid.PushFront(key, T1).(lastHitInB2 := false);
  }

  /** A rolled-back admission restores the policy if and only if the key was unknown, no ghost had to
      be trimmed, and the last hit was not in B2. */
  lemma RollbackRestoresIff(a: ArcState, key: BlockKey)
    requires a.Valid() && a.reserved.None? && !a.IsResident(key)
    ensures a.Admit(key).Forget(key) == a <==>
            key !in a.pos && !a.lastHitInB2 && (a.GhostToTrim().None? || a.List(a.GhostToTrim().value) == [])
  {
    if key in a.pos {
      UseKeeps(a, key);
      assert key !in a.Admit(key).Forget(key).pos;
    } else {
      RollbackIs(a, key);
    }
  }

  /** The ghost of `g` in a policy for one block: inserting `k` and taking it back forgets `g`. */
  lemma RollbackLosesGhost(g: BlockKey, k: BlockKey)
    requires g != k
    ensures var a := Fresh(1).Admit(g).(reserved := Some(Reservation(g, T1))).Demote(g, T1);
            && a.Valid() && a.reserved.None? && !a.IsResident(k) && a.b1 == [g]
            && a.Admit(k).Forget(k).b1 == [] && a.Admit(k).Forget(k) != a
  {
    var full := Fresh(1).Admit(g);
    assert full.t1 == [g] && full.pos == map[g := T1];
    ArcPolicy.AdmitKeeps(Fresh(1), g);
    var chosen := full.(reserved := Some(Reservation(g, T1)));
    DemoteKeeps(chosen, g, T1);
    var a := chosen.Demote(g, T1);
    assert Without([g], g) == [];
    assert a.b1 == [g] + [];
    RollbackIs(a, k);
    assert a.GhostToTrim() == Some(B1);
  }

  // ---- Inside a node ----

  ghost function Ghosts(a: ArcState): set<BlockKey> {
    set k | k in a.pos && a.pos[k] in {B1, B2}
  }

  lemma KnownKeys(a: ArcState, key: BlockKey)
    ensures key in a.pos <==> key in a.Residents() || key in Ghosts(a)
  {
    if key in a.pos {
      match a.pos[key]
      case T1 => assert key in a.Residents();
      case T2 => assert key in a.Residents();
      case B1 => assert key in Ghosts(a);
      case B2 => assert key in Ghosts(a);
    }
  }

  /** Only a commit makes a ghost. */
  lemma StepGhosts(a: ArcState, op: PolicyOp)
    requires a.Valid()
    ensures Ghosts(ArcBounds.Step(a, op)) <= Ghosts(a) + (if op.Commit? then {op.key} else {})
  {
    match op
    case Access(k) => if k in a.pos && !a.IsReserved(k) { UseKeeps(a, k); }
    case Insert(k) => if k in a.pos && !a.IsReserved(k) { UseKeeps(a, k); }
    case Commit(k) => if a.IsReserved(k) { DemoteKeeps(a, k, a.reserved.value.source); }
    case _ =>
  }

  lemma CalledGhosts(a: ArcState, calls: seq<PolicyOp>)
    requires a.Valid() && |calls| <= 2
    ensures forall k :: k in Ghosts(NodeHistory.Called(a, calls)) ==> k in Ghosts(a) || Commit(k) in calls
  {
    if |calls| > 0 {
      StepGhosts(a, calls[0]);
      if |calls| > 1 {
        ArcBounds.StepValid(a, calls[0]);
        StepGhosts(ArcBounds.Step(a, calls[0]), calls[1]);
      }
    }
  }

  /** Every ghost is a block that SSD holds. */
  ghost predicate GhostsOnSsd(s: State) {
    s.policy.Arc? ==> Ghosts(s.policy.arc) <= s.ssd.Keys
  }

  lemma GhostsOnSsdStep(cfg: Config, s: State, e: Event)
    requires PolicyInv(s.policy, s.dram.Keys) && s.policy.Arc? && Enabled(cfg, s, e) && GhostsOnSsd(s)
    ensures GhostsOnSsd(Apply(cfg, s, e))
  {
    if !e.Restart? {
      NodeHistory.StepCalls(cfg, s, e);
      CalledGhosts(s.policy.arc, NodeHistory.Calls(s, e));
    }
  }

  lemma {:induction false} GhostsStayOnSsd(cfg: Config, s: State, log: seq<Event>)
    requires Inv(cfg, s) && Legal(cfg, s, log) && s.policy.Arc? && GhostsOnSsd(s)
    ensures GhostsOnSsd(Run(cfg, s, log)) && Run(cfg, s, log).policy.Arc?
  {
    if log != [] {
      var before := log[..|log| - 1];
      GhostsStayOnSsd(cfg, s, before);
      RunKeepsInv(cfg, s, before);
      NodeHistory.ArcStep(cfg, Run(cfg, s, before), log[|log| - 1]);
      GhostsOnSsdStep(cfg, Run(cfg, s, before), log[|log| - 1]);
    }
  }

  /** In every run of a node with ARC, a put that was rolled back after its admission leaves the
      residents in order and the target size as they were: it cost at most the one ghost that the
      insertion would have trimmed, and the B2 tie-break. */
  lemma RollbackInNode(cfg: Config, s: State, log: seq<Event>, e: Event)
    requires Inv(cfg, s) && s.policy.Arc? && GhostsOnSsd(s) && Legal(cfg, s, log + [e]) && e.AbortAdmit?
    ensures Run(cfg, s, log).policy.Arc? && Run(cfg, s, log + [e]).policy.Arc?
    ensures var a := Run(cfg, s, log).policy.arc; var b := Run(cfg, s, log + [e]).policy.arc;
            && b == Trimmed(a).(lastHitInB2 := false)
            && b.p == a.p && b.t1 == a.t1 && b.t2 == a.t2 && a.Total() - 1 <= b.Total() <= a.Total()
  {
    RunStep(cfg, s, log, e);
    GhostsStayOnSsd(cfg, s, log);
    RunKeepsInv(cfg, s, log);
    RollbackStep(cfg, Run(cfg, s, log), e);
  }

  lemma RollbackStep(cfg: Config, s: State, e: Event)
    requires Inv(cfg, s) && s.policy.Arc? && GhostsOnSsd(s) && Enabled(cfg, s, e) && e.AbortAdmit?
    ensures var a := s.policy.arc;
            Apply(cfg, s, e).policy == Arc(Trimmed(a).(lastHitInB2 := false))
  {
    Agreement(cfg, s, e.key);
    KnownKeys(s.policy.arc, e.key);
    RollbackIs(s.policy.arc, e.key);
  }
}
