/** Where a put or a read leaves a block, what it may move out for that, and why it is refused, in terms of
    the bytes and fields of the blocks (src/store/storage_node.cpp). */
module NodePuts {
  import opened Status
  import opened Blocks
  import opened MapSums
  import opened EvictionPolicy
  import opened NodeModel
  import opened StorageNode
  import D = DramTier

  lemma LastStep(cfg: Config, s: State, log: seq<Event>, e: Event, u: State) returns (before: State)
    requires Reaches(cfg, s, log + [e], u)
    ensures Reaches(cfg, s, log, before) && Enabled(cfg, before, e) && u == Apply(cfg, before, e)
  {
    var states: seq<State> :| IsRun(cfg, s, log + [e], u, states);
    var shorter := states[..|log| + 1];
    before := states[|log|];
    assert StepAt(cfg, states, log + [e], |log|);
    forall i
      ensures StepAt(cfg, shorter, log, i)
    {
      assert StepAt(cfg, states, log + [e], i);
    }
    assert IsRun(cfg, s, log, before, shorter);
  }

  /** A put that succeeds leaves its block in DRAM, and the index says so, if there is DRAM and the block is
      no larger than its capacity; otherwise on SSD, and nowhere in DRAM. */
  lemma PutLands(cfg: Config, s: State, u: State, key: BlockKey, block: Block, log: seq<Event>)
    requires PutLog(cfg, s, key, block, OK, log) && Reaches(cfg, s, log, u)
    ensures key in u.index
    ensures if cfg.hasDram && (cfg.capacity == 0 || |block.data| <= cfg.capacity)
            then key in u.dram && u.dram[key].block == block && u.index[key].tier == DramType
            else key !in u.dram && key in u.ssd && u.ssd[key] == block && u.index[key].tier == SsdType
  {
    if HoldsInDram(cfg, block.Size()) {
      var room :| HotPut(room, ReplacedBy(s, key), key, block, OK, log);
      var before := LastStep(cfg, s, room, PutDram(key, block), u);
    } else {
      assert [] + [PutSsd(key, block)] == [PutSsd(key, block)];
      var before := LastStep(cfg, s, [], PutSsd(key, block), u);
    }
  }

  /** A read that promotes leaves the same block in DRAM and on SSD. */
  lemma PromotionLands(cfg: Config, s: State, u: State, key: BlockKey, log: seq<Event>)
    requires Inv(cfg, s) && key !in s.dram && GetLog(s, key, OK, true, log) && Reaches(cfg, s, log, u)
    ensures key in s.ssd && key in u.dram && u.dram[key].block == s.ssd[key] && key in u.ssd && u.ssd[key] == s.ssd[key]
    ensures key in u.index && u.index[key].tier == DramType
  {
    var room :| PromotionLog(room, key, s.ssd[key], true, log);
    var before := LastStep(cfg, s, room, Promote(key), u);
    DemotedRun(cfg, s, room, before, None, s.ssd[key].Size(), key);
  }

  // ---- What is moved out ----

  /** Demotions take blocks out of DRAM and change nothing on SSD for a key that is not in DRAM. */
  lemma {:induction false} DemotedRun(cfg: Config, s: State, log: seq<Event>, u: State,
                                      replaced: Option<BlockKey>, incoming: nat, key: BlockKey)
    requires OnlyDemotions(log, replaced, incoming) && Reaches(cfg, s, log, u)
    ensures u.dram.Keys <= s.dram.Keys
    ensures key !in s.dram && key in s.ssd ==> key in u.ssd && u.ssd[key] == s.ssd[key]
    decreases |log|
  {
    if log == [] {
      var states: seq<State> :| IsRun(cfg, s, log, u, states);
    } else {
      var rest, e := log[..|log| - 1], log[|log| - 1];
      assert rest + [e] == log;
      var before := LastStep(cfg, s, rest, e, u);
      DemotedRun(cfg, s, rest, before, replaced, incoming, key);
    }
  }

  lemma VictimIsNotReplaced(policy: PolicyState, replaced: Option<BlockKey>)
    ensures policy.Victim(replaced).Some? ==> policy.Victim(replaced) != replaced
  {
  }

  /** No put moves out the block of its own key. */
  lemma {:induction false} RoomSparesKey(cfg: Config, s: State, log: seq<Event>, u: State, key: BlockKey, incoming: nat)
    requires OnlyDemotions(log, ReplacedBy(s, key), incoming) && Reaches(cfg, s, log, u)
    ensures forall i :: 0 <= i < |log| ==> log[i].victim != key
    decreases |log|
  {
    if log != [] {
      var rest, e := log[..|log| - 1], log[|log| - 1];
      assert rest + [e] == log;
      var before := LastStep(cfg, s, rest, e, u);
      RoomSparesKey(cfg, s, rest, before, key, incoming);
      DemotedRun(cfg, s, rest, before, ReplacedBy(s, key), incoming, key);
      VictimIsNotReplaced(before.policy, ReplacedBy(s, key));
      assert forall i :: 0 <= i < |log| ==> i == |log| - 1 || log[i] == rest[i];
    }
  }

  lemma PutSparesItsKey(cfg: Config, s: State, u: State, key: BlockKey, block: Block, status: StatusCode, log: seq<Event>, i: nat)
    requires PutLog(cfg, s, key, block, status, log) && Reaches(cfg, s, log, u) && i < |log| && log[i].Demote?
    ensures log[i].victim != key
  {
    var room :| HotPut(room, ReplacedBy(s, key), key, block, status, log);
    if log == room {
      RoomSparesKey(cfg, s, room, u, key, block.Size());
    } else {
      var e := log[|room|];
      assert log == room + [e];
      var before := LastStep(cfg, s, room, e, u);
      RoomSparesKey(cfg, s, room, before, key, block.Size());
    }
  }

  lemma FirstStep(cfg: Config, s: State, log: seq<Event>, u: State)
    requires Reaches(cfg, s, log, u) && log != []
    ensures Enabled(cfg, s, log[0])
  {
    var states: seq<State> :| IsRun(cfg, s, log, u, states);
    assert StepAt(cfg, states, log, 0);
  }

  /** The bytes in DRAM if the block were put there now. */
  ghost function BytesAfter(s: State, key: BlockKey, block: Block): int {
    D.Bytes(s.dram) + |block.data| - if key in s.dram then |s.dram[key].block.data| else 0
  }

  /** A put whose bytes fit moves nothing out: it commits its own write, and needs neither policy nor SSD. */
  lemma FittingPut(cfg: Config, s: State, u: State, key: BlockKey, block: Block, status: StatusCode, log: seq<Event>)
    requires cfg.hasDram && (cfg.capacity == 0 || BytesAfter(s, key, block) <= cfg.capacity)
    ensures PutStatus(cfg, s, key, block) == OK
    ensures PutLog(cfg, s, key, block, status, log) && Reaches(cfg, s, log, u) ==>
            forall i :: 0 <= i < |log| ==> !log[i].Demote?
    ensures PutLog(cfg, s, key, block, OK, log) && Reaches(cfg, s, log, u) ==> log == [PutDram(key, block)]
  {
    FootprintIs(s.dram, ReplacedBy(s, key), block.Size());
    SumAtLeastOne(s.dram, key);
    if PutLog(cfg, s, key, block, status, log) && Reaches(cfg, s, log, u) {
      FittingLog(cfg, s, u, key, block, status, log);
    }
    if PutLog(cfg, s, key, block, OK, log) && Reaches(cfg, s, log, u) {
      FittingLog(cfg, s, u, key, block, OK, log);
    }
  }

  lemma SumAtLeastOne(dram: map<BlockKey, D.Entry>, key: BlockKey)
    ensures key in dram ==> |dram[key].block.data| <= D.Bytes(dram)
  {
    if key in dram {
      SumRemove(dram, D.EntrySize, key);
    }
  }

  lemma FittingLog(cfg: Config, s: State, u: State, key: BlockKey, block: Block, status: StatusCode, log: seq<Event>)
    requires cfg.hasDram && HoldsInDram(cfg, block.Size())
    requires cfg.capacity == 0 || Footprint(s.dram, ReplacedBy(s, key), block.Size()) <= cfg.capacity
    requires PutLog(cfg, s, key, block, status, log) && Reaches(cfg, s, log, u)
    ensures forall i :: 0 <= i < |log| ==> !log[i].Demote?
    ensures status == OK ==> log == [PutDram(key, block)]
  {
    var room :| HotPut(room, ReplacedBy(s, key), key, block, status, log);
    if log != [] {
      FirstStep(cfg, s, log, u);
    }
  }

  /** So overwriting a DRAM block by one that is no larger always succeeds and moves nothing out. */
  lemma OverwriteInPlace(cfg: Config, s: State, u: State, key: BlockKey, block: Block, log: seq<Event>)
    requires Inv(cfg, s) && key in s.dram && |block.data| <= |s.dram[key].block.data|
    ensures PutStatus(cfg, s, key, block) == OK
    ensures PutLog(cfg, s, key, block, OK, log) && Reaches(cfg, s, log, u) ==> log == [PutDram(key, block)]
  {
    FittingPut(cfg, s, u, key, block, OK, log);
  }

  // ---- Refusals ----

  /** Without a failure a put is refused for want of capacity exactly if no tier can hold it, or if DRAM needs
      room and has no policy, no SSD behind it, or more bytes than 64 bits count. */
  lemma OutOfCapacityIff(cfg: Config, s: State, key: BlockKey, block: Block)
    ensures PutStatus(cfg, s, key, block) == OutOfCapacity <==>
            if cfg.hasDram && (cfg.capacity == 0 || |block.data| <= cfg.capacity)
            then && cfg.capacity != 0 && cfg.capacity < BytesAfter(s, key, block)
                 && (s.policy == NoPolicy || !cfg.hasSsd || TWO_64 <= BytesAfter(s, key, block))
            else !cfg.hasSsd
    ensures PutStatus(cfg, s, key, block) in {OK, OutOfCapacity, InvalidArgument}
  {
    FootprintIs(s.dram, ReplacedBy(s, key), block.Size());
  }

  // ---- Over runs ----

  /** Over every run the bytes in DRAM keep to a capacity that is not zero, and every block on SSD has the
      model of its key and its token count, or 0. */
  lemma BudgetKept(cfg: Config, s: State, log: seq<Event>, key: BlockKey)
    requires Inv(cfg, s) && Legal(cfg, s, log)
    ensures cfg.capacity != 0 ==> D.Bytes(Run(cfg, s, log).dram) <= cfg.capacity
    ensures key in Run(cfg, s, log).ssd ==>
            var m := Run(cfg, s, log).ssd[key].metadata;
            m.modelFingerprint == key.modelFingerprint && m.numTokens in {0, key.prefixLen}
  {
    RunKeepsInv(cfg, s, log);
  }

  /** Under LRU the block that a step uses becomes the most recent. */
  lemma UsedIsFirst(cfg: Config, s: State, e: Event)
    requires Inv(cfg, s) && Enabled(cfg, s, e) && s.policy.Lru? && (e.PutDram? || e.Promote? || e.Hit?)
    ensures var u := Apply(cfg, s, e).policy; u.Lru? && u.lru.order != [] && u.lru.order[0] == e.key
  {
    Agreement(cfg, s, e.key);
    assert e.key in s.policy.lru.order <==> e.key in s.policy.Residents();
  }
}
