/** The node-local directory (src/store/index/local_index.cpp). */
module LocalIndex {
  import opened Status
  import opened Faults
  import opened Blocks

  class LocalIndex {
    const env: Environment
    var table: map<BlockKey, Location>

    constructor (env: Environment)
      ensures this.env == env && table == map[]
    {
      this.env, table := env, map[];
    }

    method Upsert(key: BlockKey, loc: Location) returns (status: StatusCode)
      modifies this, env
      ensures old(env.injected) <= env.injected
      ensures status == OK || (status == OutOfCapacity && old(env.injected) < env.injected)
      ensures table == if status == OK then old(table)[key := loc] else old(table)
    {
      var failed := env.Fails();
      if failed {
        return OutOfCapacity;
      }
      table := table[key := loc];
      return OK;
    }

    method InsertIfAbsent(key: BlockKey, loc: Location) returns (status: StatusCode)
      modifies this, env
      ensures old(env.injected) <= env.injected
      ensures status == OK || (status == OutOfCapacity && old(env.injected) < env.injected)
      ensures table == if status == OK && key !in old(table) then old(table)[key := loc] else old(table)
    {
      if key in table {
        return OK;
      }
      var failed := env.Fails();
      if failed {
        return OutOfCapacity;
      }
      table := table[key := loc];
      return OK;
    }

    method ValidateRelocate(key: BlockKey, expected: TierType) returns (status: StatusCode)
      ensures status == if key !in table then NotFound else if table[key].tier != expected then Internal else OK
    {
      if key !in table {
        return NotFound;
      }
      if table[key].tier != expected {
        return Internal;
      }
      return OK;
    }

    /** Terminates the process unless the key is indexed in the expected tier. */
    method RelocateExisting(key: BlockKey, expected: TierType, newTier: TierType, newHandle: nat)
      requires key in table && table[key].tier == expected
      modifies this
      ensures table == old(table)[key := Location(newTier, newHandle)]
    {
      table := table[key := Location(newTier, newHandle)];
    }

    method Find(key: BlockKey) returns (r: Result<Location>)
      ensures r == if key in table then Success(table[key]) else Failure(NotFound)
    {
      if key !in table {
        return Failure(NotFound);
      }
      return Success(table[key]);
    }

    /** Terminates the process if the key is absent. */
    method RemoveExisting(key: BlockKey)
      requires key in table
      modifies this
      ensures table == old(table) - {key}
    {
      table := table - {key};
    }

    method Swap(other: LocalIndex)
      modifies this, other
      ensures table == old(other.table) && other.table == old(table)
    {
      table, other.table := other.table, table;
    }
  }
}
