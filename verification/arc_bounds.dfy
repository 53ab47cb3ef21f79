/** Runs of the ARC policy: the bounds it promises, and exactly when it keeps them. */
module ArcBounds {
  import opened Blocks
  import opened PolicyOps
  import opened ArcPolicy
  import P = EvictionPolicy

  /** A call of the interface, on an ARC policy. */
  function Step(s: ArcState, op: PolicyOp): ArcState {
    P.PolicyStep(P.Arc(s), op).arc
  }

  function Run(s: ArcState, ops: seq<PolicyOp>): ArcState {
    if ops == [] then s else Step(Run(s, ops[..|ops| - 1]), ops[|ops| - 1])
  }

  /** The step brings a key into T1 or T2. */
  predicate Enters(s: ArcState, op: PolicyOp) {
    match op
    case Insert(k) => !s.IsResident(k)
    case Access(k) => k in s.pos && !s.IsResident(k)
    case _ => false
  }

  /** Whenever a key enters, fewer than `c` keys are resident. */
  predicate EntersWithRoom(s: ArcState, ops: seq<PolicyOp>) {
    ops == [] ||
    var before := ops[..|ops| - 1];
    && EntersWithRoom(s, before)
    && (Enters(Run(s, before), ops[|ops| - 1]) ==> Run(s, before).ResidentCount() < s.c)
  }

  lemma StepValid(s: ArcState, op: PolicyOp)
    requires s.Valid()
    ensures Step(s, op).Valid() && Step(s, op).c == s.c
  {
    match op
    case Access(k) => if !s.IsReserved(k) && k in s.pos { UseKeeps(s, k); }
    case Insert(k) => if !s.IsReserved(k) { AdmitKeeps(s, k); }
    case Remove(k) => ForgetKeeps(s, k);
    case Select(excluded) => ChooseVictimIsResident(s, excluded);
    case Commit(k) => if s.IsReserved(k) { DemoteKeeps(s, k, s.reserved.value.source); }
    case Cancel(k) =>
  }

  /** The trimming rule makes exactly the room that a new key needs. */
  lemma AdmitNewBounded(s: ArcState, key: BlockKey)
    requires s.Valid() && s.Bounded() && key !in s.pos && s.ResidentCount() < s.c
    ensures s.AdmitNew(key).Bounded()
  {
  }

  /** Inserting a key keeps the bounds if and only if it is already resident or finds room. */
  lemma AdmitBoundedIff(s: ArcState, key: BlockKey)
    requires s.Valid() && s.Bounded() && !s.IsReserved(key)
    ensures s.Admit(key).Bounded() <==> s.IsResident(key) || s.ResidentCount() < s.c
  {
    if key in s.pos {
      UseKeeps(s, key);
    } else if s.ResidentCount() < s.c {
      AdmitNewBounded(s, key);
    }
  }

  lemma ForgetShrinks(s: ArcState, key: BlockKey)
    requires s.Valid() && s.Bounded()
    ensures s.Forget(key).Bounded()
  {
    UnlinkKeeps(s, key);
  }

  lemma StepBounded(s: ArcState, op: PolicyOp)
    requires s.Valid() && s.Bounded()
    requires Enters(s, op) ==> s.ResidentCount() < s.c
    ensures Step(s, op).Bounded()
  {
    match op
    case Access(k) => if !s.IsReserved(k) && k in s.pos { UseKeeps(s, k); }
    case Insert(k) => if !s.IsReserved(k) { AdmitBoundedIff(s, k); }
    case Remove(k) => ForgetShrinks(s, k);
    case Select(_) =>
    case Commit(k) => if s.IsReserved(k) { DemoteKeeps(s, k, s.reserved.value.source); }
    case Cancel(_) =>
  }

  /** Over every run in which entering keys find room, the four lists stay duplicate-free, disjoint
      and bounded, and 0 <= p <= c. */
  lemma {:induction false} EveryRunBounded(capacity: nat, ops: seq<PolicyOp>)
    requires EntersWithRoom(Fresh(capacity), ops)
    ensures Run(Fresh(capacity), ops).Valid()
    ensures Run(Fresh(capacity), ops).Bounded()
    ensures Run(Fresh(capacity), ops).c == Fresh(capacity).c
  {
    if ops != [] {
      var before, last := ops[..|ops| - 1], ops[|ops| - 1];
      EveryRunBounded(capacity, before);
      StepValid(Run(Fresh(capacity), before), last);
      StepBounded(Run(Fresh(capacity), before), last);
    }
  }

  /** A key that enters without room breaks the bounds at once. */
  lemma EnteringOverflows(s: ArcState, op: PolicyOp)
    requires s.Valid() && Enters(s, op) && s.c <= s.ResidentCount()
    ensures !Step(s, op).Bounded()
  {
    if op.key in s.pos {
      UseKeeps(s, op.key);
    }
  }

  /** Every state on the way is within the bounds. */
  predicate BoundedThroughout(s: ArcState, ops: seq<PolicyOp>) {
    Run(s, ops).Bounded() && (ops == [] || BoundedThroughout(s, ops[..|ops| - 1]))
  }

  /** The bounds hold throughout a run if and only if every entering key finds room. */
  lemma {:induction false} BoundedIffRoom(capacity: nat, ops: seq<PolicyOp>)
    ensures BoundedThroughout(Fresh(capacity), ops) <==> EntersWithRoom(Fresh(capacity), ops)
    ensures Run(Fresh(capacity), ops).Valid() && Run(Fresh(capacity), ops).c == Fresh(capacity).c
  {
    if ops != [] {
      var before, last := ops[..|ops| - 1], ops[|ops| - 1];
      var s := Run(Fresh(capacity), before);
      BoundedIffRoom(capacity, before);
      StepValid(s, last);
      if Enters(s, last) && s.c <= s.ResidentCount() {
        EnteringOverflows(s, last);
      } else if BoundedThroughout(Fresh(capacity), before) {
        StepBounded(s, last);
      }
    }
  }

  /** Once |T1| + |B1| is over `c`, a new key is never paid for: the bookkeeping just grows. */
  lemma OverflowIsNeverTrimmed(s: ArcState, key: BlockKey)
    requires s.Valid() && key !in s.pos && |s.t1| + |s.b1| > s.c
    ensures s.Admit(key).Total() == s.Total() + 1
    ensures |s.Admit(key).t1| + |s.Admit(key).b1| == |s.t1| + |s.b1| + 1
  {
    assert !s.IsReserved(key);
  }

  /** Two inserts into a policy for one block break the bounds: the residency condition is needed. */
  lemma BoundFailsWithoutRoom(a: BlockKey, b: BlockKey)
    requires a != b
    ensures var ops := [Insert(a), Insert(b)];
            !EntersWithRoom(Fresh(1), ops) && !Run(Fresh(1), ops).Bounded()
  {
    var ops := [Insert(a), Insert(b)];
    assert ops[..1] == [Insert(a)];
    assert Run(Fresh(1), [Insert(a)]) == Step(Run(Fresh(1), []), Insert(a)) by {
      assert [Insert(a)][..0] == [];
    }
    assert Run(Fresh(1), [Insert(a)]).t1 == [a];
    assert Run(Fresh(1), ops) == Step(Run(Fresh(1), [Insert(a)]), Insert(b));
    assert Run(Fresh(1), ops).t1 == [b, a];
  }
}
