/** Least-recently-used replacement (src/store/eviction/lru_eviction.cpp). */
module LruPolicy {
  import opened Status
  import opened Faults
  import opened Blocks
  import opened Recency

  /** What the policy remembers: residents, most recent first, and the reserved victim. */
  datatype LruState = LruState(order: seq<BlockKey>, reserved: Option<BlockKey>) {

    ghost predicate Valid() {
      && Distinct(order)
      && (reserved.Some? ==> reserved.value in order)
    }

    ghost function Residents(): set<BlockKey> {
      set k | k in order
    }

    /** `key` was used: a resident that is not reserved becomes the most recent. */
    function Touch(key: BlockKey): LruState {
      if key in order && reserved != Some(key) then MoveToFront(key) else this
    }

    /** `key` entered DRAM. */
    function Admit(key: BlockKey): LruState {
      if reserved == Some(key) then this else MoveToFront(key)
    }

    function MoveToFront(key: BlockKey): LruState {
      this.(order := [key] + Without(order, key))
    }

    /** `key` left DRAM, and a reservation of it is void. */
    function Forget(key: BlockKey): LruState {
      LruState(Without(order, key), if reserved == Some(key) then None else reserved)
    }

    function Victim(excluded: Option<BlockKey>): Option<BlockKey> {
      OldestExcept(order, excluded)
    }
  }

  lemma MoveToFrontKeeps(s: LruState, key: BlockKey)
    requires s.Valid()
    ensures s.MoveToFront(key).Valid()
    ensures s.MoveToFront(key).Residents() == s.Residents() + {key}
  {
    WithoutDistinct(s.order, key);
    PushDistinct(Without(s.order, key), key);
  }

  lemma ForgetKeeps(s: LruState, key: BlockKey)
    requires s.Valid()
    ensures s.Forget(key).Valid()
    ensures s.Forget(key).Residents() == s.Residents() - {key}
  {
    WithoutDistinct(s.order, key);
  }

  class LruEviction {
    const env: Environment
    var order: seq<BlockKey>
    var pos: set<BlockKey>  // the keys of the key-to-node map
    var reserved: Option<BlockKey>

    ghost function State(): LruState
      reads this
    {
      LruState(order, reserved)
    }

    ghost predicate Valid()
      reads this
    {
      && State().Valid()
      && pos == State().Residents()
    }

    constructor (env: Environment)
      ensures Valid() && this.env == env
      ensures State() == LruState([], None)
    {
      this.env := env;
      order, pos, reserved := [], {}, None;
    }

    method OnAccess(key: BlockKey)
      requires Valid()
      modifies this
      ensures Valid() && State() == old(State()).Touch(key)
    {
      if key !in pos {
        return;
      }
      if reserved == Some(key) {
        return;
      }
      MoveToFrontKeeps(State(), key);
      order := [key] + Without(order, key);
    }

    method OnInsert(key: BlockKey) returns (status: StatusCode)
      requires Valid()
      modifies this, env
      ensures Valid()
      ensures status == OK ==> old(reserved) != Some(key) && State() == old(State()).Admit(key)
      ensures status != OK ==> State() == old(State())
      ensures status == InvalidArgument <==> old(reserved) == Some(key)
      ensures old(env.injected) <= env.injected
      ensures status == OutOfCapacity ==> old(env.injected) < env.injected
      ensures status in {OK, InvalidArgument, OutOfCapacity}
    {
      MoveToFrontKeeps(State(), key);
      if key in pos {
        if reserved == Some(key) {
          return InvalidArgument;
        }
        order := [key] + Without(order, key);
        return OK;
      }
      var failed := env.Fails();
      if failed {
        return OutOfCapacity;
      }
      WithoutDistinct(order, key);
      order := [key] + order;
      pos := pos + {key};
      return OK;
    }

    method OnRemove(key: BlockKey)
      requires Valid()
      modifies this
      ensures Valid() && State() == old(State()).Forget(key)
    {
      ForgetKeeps(State(), key);
      WithoutDistinct(order, key);
      if key !in pos {
        return;
      }
      if reserved == Some(key) {
        reserved := None;
      }
      order := Without(order, key);
      pos := pos - {key};
    }

    method SelectVictim(excluded: Option<BlockKey>) returns (r: Result<BlockKey>)
      requires Valid()
      modifies this
      ensures Valid()
      ensures old(reserved).Some? ==> r == Failure(AlreadyExists) && State() == old(State())
      ensures old(reserved).None? ==>
        match old(State()).Victim(excluded)
        case None => r == Failure(NotFound) && State() == old(State())
        case Some(victim) => r == Success(victim) && State() == old(State()).(reserved := Some(victim))
    {
      if reserved.Some? {
        return Failure(AlreadyExists);
      }
      if order == [] {
        return Failure(NotFound);
      }
      var candidate := |order|;
      assert order[..candidate] == order;
      while candidate > 0 && excluded == Some(order[candidate - 1])
        invariant 0 <= candidate <= |order|
        invariant OldestExcept(order, excluded) == OldestExcept(order[..candidate], excluded)
      {
        assert order[..candidate][..candidate - 1] == order[..candidate - 1];
        candidate := candidate - 1;
      }
      if candidate == 0 {
        return Failure(NotFound);
      }
      reserved := Some(order[candidate - 1]);
      return Success(order[candidate - 1]);
    }

    method ValidateVictimCommit(key: BlockKey) returns (status: StatusCode)
      requires Valid()
      ensures status == if reserved == Some(key) then OK else InvalidArgument
    {
      if reserved != Some(key) {
        return InvalidArgument;
      }
      assert key in pos;
      return OK;
    }

    /** Terminates the process unless `key` is the reserved victim. */
    method CommitVictim(key: BlockKey)
      requires Valid()
      requires reserved == Some(key)
      modifies this
      ensures Valid() && State() == old(State()).Forget(key)
    {
      ForgetKeeps(State(), key);
      order := Without(order, key);
      pos := pos - {key};
      reserved := None;
    }

    method CancelVictim(key: BlockKey) returns (status: StatusCode)
      requires Valid()
      modifies this
      ensures Valid()
      ensures status == if old(reserved) == Some(key) then OK else InvalidArgument
      ensures State() == if status == OK then old(State()).(reserved := None) else old(State())
    {
      if reserved != Some(key) {
        return InvalidArgument;
      }
      reserved := None;
      return OK;
    }
  }
}
