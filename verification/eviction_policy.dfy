/** The calls of the eviction policy interface (include/tidepool/store/eviction_policy.h). */
module PolicyOps {
  import opened Status
  import opened Blocks

  datatype PolicyOp =
    | Access(key: BlockKey)
    | Insert(key: BlockKey)
    | Remove(key: BlockKey)
    | Select(excluded: Option<BlockKey>)
    | Commit(key: BlockKey)
    | Cancel(key: BlockKey)
}

/** The interface itself: a node has no policy, LRU or ARC. */
module EvictionPolicy {
  import opened Status
  import opened Faults
  import opened Blocks
  import opened PolicyOps
  import L = LruPolicy
  import A = ArcPolicy

  datatype PolicyState = NoPolicy | Lru(lru: L.LruState) | Arc(arc: A.ArcState) {

    ghost predicate Valid() {
      match this
      case NoPolicy => true
      case Lru(s) => s.Valid()
      case Arc(s) => s.Valid()
    }

    ghost function Residents(): set<BlockKey> {
      match this
      case NoPolicy => {}
      case Lru(s) => s.Residents()
      case Arc(s) => s.Residents()
    }

    function Reserved(): Option<BlockKey> {
      match this
      case NoPolicy => None
      case Lru(s) => s.reserved
      case Arc(s) => if s.reserved.Some? then Some(s.reserved.value.key) else None
    }

    function Touch(key: BlockKey): PolicyState {
      match this
      case NoPolicy => NoPolicy
      case Lru(s) => Lru(s.Touch(key))
      case Arc(s) => Arc(s.Touch(key))
    }

    function Admit(key: BlockKey): PolicyState {
      match this
      case NoPolicy => NoPolicy
      case Lru(s) => Lru(s.Admit(key))
      case Arc(s) => Arc(s.Admit(key))
    }

    function Forget(key: BlockKey): PolicyState {
      match this
      case NoPolicy => NoPolicy
      case Lru(s) => Lru(s.Forget(key))
      case Arc(s) => Arc(s.Forget(key))
    }

    function Victim(excluded: Option<BlockKey>): Option<BlockKey> {
      match this
      case NoPolicy => None
      case Lru(s) => s.Victim(excluded)
      case Arc(s) => if s.ChooseVictim(excluded).Some? then Some(s.ChooseVictim(excluded).value.key) else None
    }

    function Reserve(excluded: Option<BlockKey>): PolicyState {
      match this
      case NoPolicy => NoPolicy
      case Lru(s) => Lru(s.(reserved := s.Victim(excluded)))
      case Arc(s) => Arc(s.(reserved := s.ChooseVictim(excluded)))
    }

    function Cancelled(): PolicyState {
      match this
      case NoPolicy => NoPolicy
      case Lru(s) => Lru(s.(reserved := None))
      case Arc(s) => Arc(s.(reserved := None))
    }

    /** The reserved victim has left DRAM. */
    function Committed(): PolicyState {
      match this
      case NoPolicy => NoPolicy
      case Lru(s) => if s.reserved.None? then this else Lru(s.Forget(s.reserved.value))
      case Arc(s) => if s.reserved.None? then this else Arc(s.Demote(s.reserved.value.key, s.reserved.value.source))
    }

    /** A new policy of the same kind. */
    function Reset(): PolicyState {
      match this
      case NoPolicy => NoPolicy
      case Lru(_) => Lru(L.LruState([], None))
      case Arc(s) => Arc(A.Fresh(s.c))
    }
  }

  lemma TouchKeeps(s: PolicyState, key: BlockKey)
    requires s.Valid()
    ensures s.Touch(key).Valid() && s.Touch(key).Reserved() == s.Reserved()
    ensures key in s.Residents() ==> s.Touch(key).Residents() == s.Residents()
  {
    match s
    case NoPolicy =>
    case Lru(l) => L.MoveToFrontKeeps(l, key);
    case Arc(a) => if key in a.pos && !a.IsReserved(key) { A.UseKeeps(a, key); }
  }

  lemma AdmitKeeps(s: PolicyState, key: BlockKey)
    requires s.Valid()
    ensures s.Admit(key).Valid() && s.Admit(key).Reserved() == s.Reserved()
    ensures s != NoPolicy ==> s.Admit(key).Residents() == s.Residents() + {key}
  {
    match s
    case NoPolicy =>
    case Lru(l) => L.MoveToFrontKeeps(l, key);
    case Arc(a) => if !a.IsReserved(key) { A.AdmitKeeps(a, key); }
  }

  lemma ForgetKeeps(s: PolicyState, key: BlockKey)
    requires s.Valid()
    ensures s.Forget(key).Valid()
    ensures s.Reserved() != Some(key) ==> s.Forget(key).Reserved() == s.Reserved()
    ensures s.Forget(key).Residents() == s.Residents() - {key}
  {
    match s
    case NoPolicy =>
    case Lru(l) => L.ForgetKeeps(l, key);
    case Arc(a) => A.ForgetKeeps(a, key);
  }

  /** Selection finds a resident other than the excluded key whenever there is one. */
  lemma ReserveKeeps(s: PolicyState, excluded: Option<BlockKey>)
    requires s.Valid()
    ensures s.Reserve(excluded).Valid() && s.Reserve(excluded).Reserved() == s.Victim(excluded)
    ensures s.Reserve(excluded).Residents() == s.Residents()
    ensures s.Victim(excluded).None? <==> forall k :: k in s.Residents() ==> excluded == Some(k)
    ensures s.Victim(excluded).Some? ==> s.Victim(excluded).value in s.Residents() && s.Victim(excluded) != excluded
  {
    match s
    case NoPolicy =>
    case Lru(l) =>
    case Arc(a) => A.ChooseVictimIsResident(a, excluded);
  }

  lemma CommittedKeeps(s: PolicyState)
    requires s.Valid() && s.Reserved().Some?
    ensures s.Committed().Valid() && s.Committed().Reserved().None?
    ensures s.Committed().Residents() == s.Residents() - {s.Reserved().value}
  {
    match s
    case Lru(l) => L.ForgetKeeps(l, l.reserved.value);
    case Arc(a) => A.DemoteKeeps(a, a.reserved.value.key, a.reserved.value.source);
  }

  // ---- Two-phase victim safety ----

  function PolicyStep(s: PolicyState, op: PolicyOp): PolicyState {
    match op
    case Access(k) => s.Touch(k)
    case Insert(k) => s.Admit(k)
    case Remove(k) => s.Forget(k)
    case Select(excluded) => if s.Reserved().Some? then s else s.Reserve(excluded)
    case Commit(k) => if s.Reserved() == Some(k) then s.Committed() else s
    case Cancel(k) => if s.Reserved() == Some(k) then s.Cancelled() else s
  }

  function PolicyRun(s: PolicyState, ops: seq<PolicyOp>): PolicyState {
    if ops == [] then s else PolicyStep(PolicyRun(s, ops[..|ops| - 1]), ops[|ops| - 1])
  }

  /** The calls a node may make while it migrates the reserved `victim`. */
  predicate LeavesVictim(op: PolicyOp, victim: BlockKey) {
    match op
    case Remove(k) => k != victim
    case Commit(k) => k != victim
    case Cancel(k) => k != victim
    case _ => true
  }

  lemma StepKeepsReservation(s: PolicyState, op: PolicyOp)
    requires s.Valid() && s.Reserved().Some? && LeavesVictim(op, s.Reserved().value)
    ensures PolicyStep(s, op).Valid() && PolicyStep(s, op).Reserved() == s.Reserved()
    ensures s.Arc? ==> PolicyStep(s, op).Arc? && PolicyStep(s, op).arc.reserved == s.arc.reserved
  {
    match op
    case Access(k) => TouchKeeps(s, k);
    case Insert(k) => AdmitKeeps(s, k);
      if s.Arc? && !s.arc.IsReserved(k) { A.AdmitKeeps(s.arc, k); }
    case Remove(k) => ForgetKeeps(s, k);
    case _ =>
  }

  /** Any interleaving of other calls keeps the reserved key resident, in the list it was chosen
      from, so the commit that follows cannot fail. */
  lemma {:induction false} ReservationSurvives(s: PolicyState, ops: seq<PolicyOp>)
    requires s.Valid() && s.Reserved().Some?
    requires forall i :: 0 <= i < |ops| ==> LeavesVictim(ops[i], s.Reserved().value)
    ensures PolicyRun(s, ops).Valid()
    ensures PolicyRun(s, ops).Reserved() == s.Reserved() && s.Reserved().value in PolicyRun(s, ops).Residents()
    ensures s.Arc? ==> PolicyRun(s, ops).Arc? && PolicyRun(s, ops).arc.reserved == s.arc.reserved
    ensures s.Arc? ==> PolicyRun(s, ops).arc.Holds(s.arc.reserved.value.key, s.arc.reserved.value.source)
  {
    if ops != [] {
      ReservationSurvives(s, ops[..|ops| - 1]);
      StepKeepsReservation(PolicyRun(s, ops[..|ops| - 1]), ops[|ops| - 1]);
    }
  }

  /** Cancelling right after selecting restores the exact prior state. */
  lemma CancelRestores(s: PolicyState, excluded: Option<BlockKey>)
    requires s.Valid() && s.Reserved().None? && s.Victim(excluded).Some?
    ensures PolicyRun(s, [Select(excluded), Cancel(s.Victim(excluded).value)]) == s
  {
    var ops := [Select(excluded), Cancel(s.Victim(excluded).value)];
    assert ops[..1] == [Select(excluded)] && [Select(excluded)][..0] == [];
    assert PolicyRun(s, ops[..1]) == PolicyStep(PolicyRun(s, []), Select(excluded));
  }

  // ---- The interface ----

  /** What a node holds: the interface over the state of whichever policy it was given, or none.
      LruEviction and ArcEviction are proved to make exactly these transitions. */
  class EvictionPolicy {
    const env: Environment
    var state: PolicyState

    constructor (env: Environment, initial: PolicyState)
      ensures this.env == env && state == initial
    {
      this.env, state := env, initial;
    }

    method OnAccess(key: BlockKey)
      modifies this
      ensures state == old(state).Touch(key)
    {
      state := state.Touch(key);
    }

    method OnInsert(key: BlockKey) returns (status: StatusCode)
      modifies this, env
      ensures state == if status == OK then old(state).Admit(key) else old(state)
      ensures status == InvalidArgument <==> old(state).Reserved() == Some(key)
      ensures status in {OK, InvalidArgument, OutOfCapacity}
      ensures old(env.injected) <= env.injected
      ensures status == OutOfCapacity ==> old(env.injected) < env.injected
    {
      if state.Reserved() == Some(key) {
        return InvalidArgument;
      }
      var failed := env.Fails();
      if failed {
        return OutOfCapacity;
      }
      state := state.Admit(key);
      return OK;
    }

    method OnRemove(key: BlockKey)
      modifies this
      ensures state == old(state).Forget(key)
    {
      state := state.Forget(key);
    }

    method SelectVictim(excluded: Option<BlockKey>) returns (r: Result<BlockKey>)
      modifies this
      ensures old(state).Reserved().Some? ==> r == Failure(AlreadyExists) && state == old(state)
      ensures old(state).Reserved().None? ==> state == old(state).Reserve(excluded)
      ensures old(state).Reserved().None? ==>
        r == match old(state).Victim(excluded)
             case None => Failure(NotFound)
             case Some(victim) => Success(victim)
    {
      if state.Reserved().Some? {
        return Failure(AlreadyExists);
      }
      var victim := state.Victim(excluded);
      state := state.Reserve(excluded);
      return match victim
             case None => Failure(NotFound)
             case Some(v) => Success(v);
    }

    method ValidateVictimCommit(key: BlockKey) returns (status: StatusCode)
      ensures status == if state.Reserved() == Some(key) then OK else InvalidArgument
    {
      return if state.Reserved() == Some(key) then OK else InvalidArgument;
    }

    /** Terminates the process unless `key` is the reserved victim. */
    method CommitVictim(key: BlockKey)
      requires state.Reserved() == Some(key)
      modifies this
      ensures state == old(state).Committed()
    {
      state := state.Committed();
    }

    method CancelVictim(key: BlockKey) returns (status: StatusCode)
      modifies this
      ensures status == if old(state).Reserved() == Some(key) then OK else InvalidArgument
      ensures state == if status == OK then old(state).Cancelled() else old(state)
    {
      if state.Reserved() != Some(key) {
        return InvalidArgument;
      }
      state := state.Cancelled();
      return OK;
    }
  }
}
