/** The two policy classes in use: any sequence of interface calls takes them through the runs of the
    specification, insertions that failed left out. */
module PolicyRuns {
  import opened Status
  import opened PolicyOps
  import opened EvictionPolicy
  import L = LruPolicy
  import A = ArcPolicy
  import ArcBounds

  lemma PolicyRunMore(s: PolicyState, ops: seq<PolicyOp>, op: PolicyOp)
    ensures PolicyRun(s, ops + [op]) == PolicyStep(PolicyRun(s, ops), op)
  {
    assert (ops + [op])[..|ops|] == ops;
  }

  /** One call. A commit is preceded by its preflight, as in the node. */
  method CallLru(p: L.LruEviction, op: PolicyOp) returns (took: bool)
    requires p.Valid()
    modifies p, p.env
    ensures p.Valid() && old(p.env.injected) <= p.env.injected
    ensures took ==> Lru(p.State()) == PolicyStep(Lru(old(p.State())), op)
    ensures !took ==> p.State() == old(p.State()) && op.Insert? && old(p.env.injected) < p.env.injected
  {
    took := true;
    match op
    case Access(k) => p.OnAccess(k);
    case Insert(k) =>
      var status := p.OnInsert(k);
      took := status != OutOfCapacity;
    case Remove(k) => p.OnRemove(k);
    case Select(excluded) =>
      var _ := p.SelectVictim(excluded);
    case Commit(k) =>
      var ready := p.ValidateVictimCommit(k);
      if ready == OK {
        p.CommitVictim(k);
      }
    case Cancel(k) =>
      var _ := p.CancelVictim(k);
  }

  method CallArc(p: A.ArcEviction, op: PolicyOp) returns (took: bool)
    requires p.Valid()
    modifies p, p.env
    ensures p.Valid() && old(p.env.injected) <= p.env.injected
    ensures took ==> Arc(p.State()) == PolicyStep(Arc(old(p.State())), op)
    ensures !took ==> p.State() == old(p.State()) && op.Insert? && old(p.env.injected) < p.env.injected
  {
    took := true;
    match op
    case Access(k) => p.OnAccess(k);
    case Insert(k) =>
      var status := p.OnInsert(k);
      took := status != OutOfCapacity;
    case Remove(k) => p.OnRemove(k);
    case Select(excluded) =>
      var _ := p.SelectVictim(excluded);
    case Commit(k) =>
      var ready := p.ValidateVictimCommit(k);
      if ready == OK {
        p.CommitVictim(k);
      }
    case Cancel(k) =>
      var _ := p.CancelVictim(k);
  }

  /** LRU: the class refines the interface the node relies on. `done` are the calls that took effect. */
  method DriveLru(p: L.LruEviction, ops: seq<PolicyOp>) returns (ghost done: seq<PolicyOp>)
    requires p.Valid()
    modifies p, p.env
    ensures p.Valid() && Lru(p.State()) == PolicyRun(Lru(old(p.State())), done)
    ensures p.env.injected == old(p.env.injected) ==> done == ops
  {
    done := [];
    for i := 0 to |ops|
      invariant p.Valid() && old(p.env.injected) <= p.env.injected
      invariant Lru(p.State()) == PolicyRun(Lru(old(p.State())), done)
      invariant p.env.injected == old(p.env.injected) ==> done == ops[..i]
    {
      var took := CallLru(p, ops[i]);
      if took {
        PolicyRunMore(Lru(old(p.State())), done, ops[i]);
        done := done + [ops[i]];
      }
    }
  }

  /** ARC: the same, and from a new policy the bounds hold whenever entering keys found room. */
  method DriveArc(p: A.ArcEviction, ops: seq<PolicyOp>, ghost capacity: nat) returns (ghost done: seq<PolicyOp>)
    requires p.Valid() && p.State() == A.Fresh(capacity)
    modifies p, p.env
    ensures p.Valid() && Arc(p.State()) == PolicyRun(Arc(A.Fresh(capacity)), done)
    ensures p.env.injected == old(p.env.injected) ==> done == ops
    ensures ArcBounds.EntersWithRoom(A.Fresh(capacity), done) ==> p.State().Bounded()
  {
    done := [];
    for i := 0 to |ops|
      invariant p.Valid() && old(p.env.injected) <= p.env.injected
      invariant Arc(p.State()) == PolicyRun(Arc(A.Fresh(capacity)), done)
      invariant p.State() == ArcBounds.Run(A.Fresh(capacity), done)
      invariant p.env.injected == old(p.env.injected) ==> done == ops[..i]
    {
      var took := CallArc(p, ops[i]);
      if took {
        PolicyRunMore(Arc(A.Fresh(capacity)), done, ops[i]);
        assert (done + [ops[i]])[..|done|] == done;
        done := done + [ops[i]];
      }
    }
    if ArcBounds.EntersWithRoom(A.Fresh(capacity), done) {
      ArcBounds.EveryRunBounded(capacity, done);
    }
  }
}
