/** The in-memory tier (src/store/tier/dram/dram_tier.cpp). */
module DramTier {
  import opened Status
  import opened Faults
  import opened Blocks
  import opened Buffers
  import opened MapSums
  import opened TierListing

  datatype Entry = Entry(block: Block, handle: nat)

  function EntrySize(e: Entry): nat {
    e.block.Size()
  }

  ghost function Bytes(dram: map<BlockKey, Entry>): nat {
    Sum(dram, EntrySize)
  }

  function InfoOf(e: Entry): BlockInfo {
    BlockInfo(e.block.metadata, e.block.Size(), e.handle)
  }

  ghost function Infos(store: map<BlockKey, Entry>): map<BlockKey, BlockInfo> {
    map k | k in store :: InfoOf(store[k])
  }

  class DramTier {
    const env: Environment
    const capacityBytes: u64
    var store: map<BlockKey, Entry>
    var nextHandle: nat
    var numBlocks: nat
    var usedBytes: nat

    /** The counters say exactly what is stored. */
    ghost predicate Valid()
      reads this
    {
      && numBlocks == |store|
      && usedBytes == Bytes(store)
    }

    constructor (env: Environment, capacityBytes: u64)
      ensures Valid() && this.env == env && this.capacityBytes == capacityBytes
      ensures store == map[] && nextHandle == 1
    {
      this.env, this.capacityBytes := env, capacityBytes;
      store, nextHandle, numBlocks, usedBytes := map[], 1, 0, 0;
    }

    method Probe(key: BlockKey) returns (r: Result<BlockInfo>)
      ensures r == if key in store
                   then Success(BlockInfo(store[key].block.metadata, store[key].block.Size(), store[key].handle))
                   else Failure(NotFound)
    {
      if key !in store {
        return Failure(NotFound);
      }
      return Success(BlockInfo(store[key].block.metadata, store[key].block.Size(), store[key].handle));
    }

    method Put(key: BlockKey, block: Block) returns (status: StatusCode, handle: nat)
      requires Valid()
      modifies this, env
      ensures Valid()
      ensures old(env.injected) <= env.injected
      ensures status == OK || (status == OutOfCapacity && old(env.injected) < env.injected)
      ensures status != OK ==> store == old(store) && nextHandle == old(nextHandle)
      ensures status == OK ==> handle == old(nextHandle) && nextHandle == old(nextHandle) + 1
      ensures status == OK ==> store == old(store)[key := Entry(block, handle)]
    {
      handle := 0;
      var failed := env.Fails();
      if failed {
        return OutOfCapacity, handle;
      }
      CountPut(store, key, Entry(block, nextHandle));
      SumPut(store, EntrySize, key, Entry(block, nextHandle));
      var newSize := block.Size();
      handle := nextHandle;
      if key in store {
        var oldSize := store[key].block.Size();
        store := store[key := Entry(block, handle)];
        if newSize >= oldSize {
          usedBytes := usedBytes + (newSize - oldSize);
        } else {
          usedBytes := usedBytes - (oldSize - newSize);
        }
      } else {
        failed := env.Fails();
        if failed {
          return OutOfCapacity, 0;
        }
        store := store[key := Entry(block, handle)];
        numBlocks := numBlocks + 1;
        usedBytes := usedBytes + newSize;
      }
      nextHandle := nextHandle + 1;
      return OK, handle;
    }

    method Get(key: BlockKey, dst: MutableBuffer) returns (status: StatusCode, view: BlockView)
      ensures key in store ==> status == ReadStatus(dst, store[key].block)
      ensures key !in store ==> status == if dst.Dangling() then InvalidArgument else NotFound
      ensures view == if status == OK then ViewOf(store[key].block) else EMPTY_VIEW
      ensures status == OK ==> key in store && view.data == store[key].block.data && |view.data| <= dst.capacity
      ensures key in store ==>
        && (status == InvalidArgument <==> dst.isNull && dst.capacity != 0)
        && (status == OutOfCapacity <==> (dst.capacity == 0 || !dst.isNull) && dst.capacity < |store[key].block.data|)
        && status in {OK, InvalidArgument, OutOfCapacity}
    {
      if dst.isNull && dst.capacity != 0 {
        return InvalidArgument, EMPTY_VIEW;
      }
      if key !in store {
        return NotFound, EMPTY_VIEW;
      }
      var block := store[key].block;
      if dst.capacity < block.Size() {
        return OutOfCapacity, EMPTY_VIEW;
      }
      return OK, BlockView(block.data, block.metadata);
    }

    method ValidateEraseExisting(key: BlockKey) returns (status: StatusCode)
      ensures status == if key in store then OK else Internal
    {
      if key !in store {
        return Internal;
      }
      return OK;
    }

    /** Terminates the process if the key is absent. */
    method EraseExisting(key: BlockKey)
      requires Valid()
      requires key in store
      modifies this
      ensures Valid()
      ensures store == old(store) - {key} && nextHandle == old(nextHandle)
      ensures numBlocks == old(numBlocks) - 1
    {
      SumRemove(store, EntrySize, key);
      CountRemove(store, key);
      usedBytes := usedBytes - store[key].block.Size();
      numBlocks := numBlocks - 1;
      store := store - {key};
    }

    method VisitEntries() returns (status: StatusCode, entries: seq<(BlockKey, BlockInfo)>)
      modifies env
      ensures old(env.injected) <= env.injected
      ensures status == OK || (status == OutOfCapacity && old(env.injected) < env.injected)
      ensures status == OK ==> Lists(entries, Infos(store))
    {
      entries := [];
      var failed := env.Fails();
      if failed {
        return OutOfCapacity, entries;
      }
      var todo := store.Keys;
      ghost var listed: map<BlockKey, BlockInfo> := map[];
      while todo != {}
        invariant todo <= store.Keys && old(env.injected) <= env.injected
        invariant Lists(entries, listed)
        invariant listed == map k | k in store && k !in todo :: InfoOf(store[k])
        decreases |todo|
      {
        var k :| k in todo;
        ListsMore(entries, listed, k, InfoOf(store[k]));
        entries := entries + [(k, InfoOf(store[k]))];
        listed := listed[k := InfoOf(store[k])];
        todo := todo - {k};
      }
      assert listed == Infos(store);
      return OK, entries;
    }
  }
}
