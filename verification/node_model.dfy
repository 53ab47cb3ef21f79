/** What a storage node stores, as values: the committed steps it can take, the agreement between
    its four structures, and the plain map it stands for (src/store/storage_node.cpp). */
module NodeModel {
  import opened Status
  import opened Blocks
  import opened EvictionPolicy
  import opened DramTier
  import opened MapSums

  /** `capacity` zero means that DRAM is unlimited; `handleOf` is the SSD tier's stable handle. */
  datatype Config = Config(hasDram: bool, hasSsd: bool, capacity: u64, handleOf: BlockKey -> nat)

  datatype State = State(
    index: map<BlockKey, Location>,
    dram: map<BlockKey, Entry>,
    nextHandle: nat,
    ssd: map<BlockKey, Block>,
    policy: PolicyState)

  /** DRAM bytes after `incoming` more, less those of the block being replaced. */
  ghost function Footprint(dram: map<BlockKey, Entry>, replaced: Option<BlockKey>, incoming: nat): nat {
    incoming + if replaced.Some? then Bytes(dram - {replaced.value}) else Bytes(dram)
  }

  ghost predicate Fits(cfg: Config, dram: map<BlockKey, Entry>, key: BlockKey, size: nat) {
    cfg.capacity == 0 || Footprint(dram, Some(key), size) <= cfg.capacity
  }

  // ---- Agreement ----

  /** The index that a full recovery would build: DRAM first, then what only SSD holds. */
  ghost function Recovered(cfg: Config, dram: map<BlockKey, Entry>, ssd: map<BlockKey, Block>)
    : map<BlockKey, Location>
  {
    map k | k in dram.Keys + ssd.Keys ::
      if k in dram then Location(DramType, dram[k].handle) else Location(SsdType, cfg.handleOf(k))
  }

  /** The next handle is larger than every handle in use. */
  ghost predicate HandlesValid(dram: map<BlockKey, Entry>, nextHandle: nat) {
    forall k :: k in dram ==> dram[k].handle < nextHandle
  }

  /** The index, the two stores and the byte budget agree. */
  ghost predicate StoreInv(cfg: Config, index: map<BlockKey, Location>, dram: map<BlockKey, Entry>,
                           nextHandle: nat, ssd: map<BlockKey, Block>)
  {
    && index == Recovered(cfg, dram, ssd)
    && HandlesValid(dram, nextHandle)
    && (cfg.capacity != 0 ==> Bytes(dram) <= cfg.capacity)
    && (!cfg.hasDram ==> dram == map[])
    && (!cfg.hasSsd ==> ssd == map[])
    && (forall k :: k in ssd ==> Consistent(k, ssd[k].metadata))
  }

  /** The policy, if there is one, counts exactly the DRAM keys as resident and reserves none. */
  ghost predicate PolicyInv(policy: PolicyState, keys: set<BlockKey>) {
    && policy.Valid()
    && policy.Reserved().None?
    && (policy != NoPolicy ==> policy.Residents() == keys)
  }

  /** What holds between any two public calls. */
  ghost predicate Inv(cfg: Config, s: State) {
    && StoreInv(cfg, s.index, s.dram, s.nextHandle, s.ssd)
    && PolicyInv(s.policy, s.dram.Keys)
  }

  /** The agreement of the four structures, spelled out key by key. */
  lemma Agreement(cfg: Config, s: State, key: BlockKey)
    requires Inv(cfg, s)
    ensures key in s.index <==> key in s.dram || key in s.ssd
    ensures key in s.index && s.index[key].tier == DramType <==> key in s.dram
    ensures s.policy != NoPolicy ==> (key in s.dram <==> key in s.policy.Residents())
    ensures key in s.index && s.index[key].tier == SsdType ==> key in s.ssd && key !in s.dram
    ensures key in s.dram ==> s.index[key].handle == s.dram[key].handle
    ensures key in s.index && s.index[key].tier == SsdType ==> s.index[key].handle == cfg.handleOf(key)
  {
  }

  /** The value the node answers for each key: the one in the tier that the index names. */
  ghost function Logical(s: State): map<BlockKey, Block> {
    map k | k in s.index && (if s.index[k].tier == DramType then k in s.dram else k in s.ssd) ::
      if s.index[k].tier == DramType then s.dram[k].block else s.ssd[k]
  }

  // ---- Committed steps ----

  datatype Event =
    | PutDram(key: BlockKey, block: Block)
    | PutSsd(key: BlockKey, block: Block)
    | Demote(victim: BlockKey, replaced: Option<BlockKey>, incoming: nat)
    | Promote(key: BlockKey)
    | Hit(key: BlockKey)
    | AbortWrite(key: BlockKey, block: Block)
    | AbortAdmit(key: BlockKey, block: Block)
    | Reopen
    | Restart

  /** When the code may commit the step. */
  ghost predicate Enabled(cfg: Config, s: State, e: Event) {
    match e
    case PutDram(k, b) => cfg.hasDram && Fits(cfg, s.dram, k, b.Size())
    case PutSsd(k, b) => cfg.hasSsd && Consistent(k, b.metadata) && (cfg.hasDram ==> 0 < cfg.capacity < b.Size())
    case Demote(v, replaced, incoming) =>
      && cfg.hasSsd && s.policy.Victim(replaced) == Some(v) && v in s.dram
      && (replaced.Some? ==> replaced.value in s.dram)
      && 0 < cfg.capacity < Footprint(s.dram, replaced, incoming)
      && Consistent(v, s.dram[v].block.metadata)
    case Promote(k) =>
      && cfg.hasDram && s.policy != NoPolicy
      && k in s.ssd && k !in s.dram && Fits(cfg, s.dram, k, s.ssd[k].Size())
    case Hit(k) => k in s.dram
    case AbortWrite(k, b) => cfg.hasDram && k !in s.dram && Fits(cfg, s.dram, k, b.Size())
    case AbortAdmit(k, b) => cfg.hasDram && k !in s.index && Fits(cfg, s.dram, k, b.Size())
    case Reopen => true
    case Restart => true
  }

  ghost function Apply(cfg: Config, s: State, e: Event): State {
    match e
    case PutDram(k, b) =>
      State(
        s.index[k := Location(DramType, s.nextHandle)],
        s.dram[k := Entry(b, s.nextHandle)],
        s.nextHandle + 1,
        s.ssd,
        if k in s.dram then s.policy.Touch(k) else s.policy.Admit(k))
    case PutSsd(k, b) =>
      State(
        s.index[k := Location(SsdType, cfg.handleOf(k))],
        s.dram - {k},
        s.nextHandle,
        s.ssd[k := b],
        if k in s.dram then s.policy.Forget(k) else s.policy)
    case Demote(v, replaced, _) =>
      if v !in s.dram then s
      else
        State(
          s.index[v := Location(SsdType, cfg.handleOf(v))],
          s.dram - {v},
          s.nextHandle,
          s.ssd[v := s.dram[v].block],
          s.policy.Reserve(replaced).Committed())
    case Promote(k) =>
      if k !in s.ssd then s
      else
        State(
          s.index[k := Location(DramType, s.nextHandle)],
          s.dram[k := Entry(s.ssd[k], s.nextHandle)],
          s.nextHandle + 1,
          s.ssd,
          s.policy.Admit(k))
    case Hit(k) => s.(policy := s.policy.Touch(k))
    case AbortWrite(_, _) => s.(nextHandle := s.nextHandle + 1)
    case AbortAdmit(k, _) => s.(nextHandle := s.nextHandle + 1, policy := s.policy.Admit(k).Forget(k))
    case Reopen => s.(index := Recovered(cfg, s.dram, s.ssd))
    case Restart => State(Recovered(cfg, map[], s.ssd), map[], 1, s.ssd, s.policy.Reset())
  }

  lemma AddEntryKeeps(cfg: Config, index: map<BlockKey, Location>, dram: map<BlockKey, Entry>,
                      nextHandle: nat, ssd: map<BlockKey, Block>, key: BlockKey, block: Block)
    requires StoreInv(cfg, index, dram, nextHandle, ssd)
    requires cfg.hasDram && Fits(cfg, dram, key, block.Size())
    ensures StoreInv(cfg, index[key := Location(DramType, nextHandle)],
                     dram[key := Entry(block, nextHandle)], nextHandle + 1, ssd)
  {
    SumPut(dram, EntrySize, key, Entry(block, nextHandle));
    assert index[key := Location(DramType, nextHandle)] ==
           Recovered(cfg, dram[key := Entry(block, nextHandle)], ssd);
  }

  lemma MoveToSsdKeeps(cfg: Config, index: map<BlockKey, Location>, dram: map<BlockKey, Entry>,
                       nextHandle: nat, ssd: map<BlockKey, Block>, key: BlockKey, block: Block)
    requires StoreInv(cfg, index, dram, nextHandle, ssd)
    requires cfg.hasSsd && Consistent(key, block.metadata)
    ensures StoreInv(cfg, index[key := Location(SsdType, cfg.handleOf(key))],
                     dram - {key}, nextHandle, ssd[key := block])
  {
    if key in dram {
      SumRemove(dram, EntrySize, key);
    } else {
      assert dram - {key} == dram;
    }
    assert index[key := Location(SsdType, cfg.handleOf(key))] == Recovered(cfg, dram - {key}, ssd[key := block]);
  }

  lemma ApplyKeepsStores(cfg: Config, s: State, e: Event)
    requires Inv(cfg, s) && Enabled(cfg, s, e)
    ensures var u := Apply(cfg, s, e); StoreInv(cfg, u.index, u.dram, u.nextHandle, u.ssd)
  {
    match e
    case PutDram(k, b) => AddEntryKeeps(cfg, s.index, s.dram, s.nextHandle, s.ssd, k, b);
    case PutSsd(k, b) => MoveToSsdKeeps(cfg, s.index, s.dram, s.nextHandle, s.ssd, k, b);
    case Demote(v, _, _) => MoveToSsdKeeps(cfg, s.index, s.dram, s.nextHandle, s.ssd, v, s.dram[v].block);
    case Promote(k) => AddEntryKeeps(cfg, s.index, s.dram, s.nextHandle, s.ssd, k, s.ssd[k]);
    case _ =>
  }

  lemma TouchKeepsPolicy(policy: PolicyState, keys: set<BlockKey>, key: BlockKey)
    requires PolicyInv(policy, keys) && key in keys
    ensures PolicyInv(policy.Touch(key), keys)
  {
    TouchKeeps(policy, key);
  }

  lemma AdmitKeepsPolicy(policy: PolicyState, keys: set<BlockKey>, key: BlockKey)
    requires PolicyInv(policy, keys)
    ensures PolicyInv(policy.Admit(key), keys + {key})
  {
    AdmitKeeps(policy, key);
  }

  lemma ForgetKeepsPolicy(policy: PolicyState, keys: set<BlockKey>, key: BlockKey)
    requires PolicyInv(policy, keys)
    ensures PolicyInv(policy.Forget(key), keys - {key})
  {
    ForgetKeeps(policy, key);
  }

  lemma DemoteKeepsPolicy(policy: PolicyState, keys: set<BlockKey>, replaced: Option<BlockKey>)
    requires PolicyInv(policy, keys) && policy.Victim(replaced).Some?
    ensures PolicyInv(policy.Reserve(replaced).Committed(), keys - {policy.Victim(replaced).value})
  {
    ReserveKeeps(policy, replaced);
    CommittedKeeps(policy.Reserve(replaced));
  }

  lemma ApplyKeepsPolicy(cfg: Config, s: State, e: Event)
    requires PolicyInv(s.policy, s.dram.Keys)
    requires e.Demote? ==> s.policy.Victim(e.replaced) == Some(e.victim) && e.victim in s.dram
    requires e.Promote? ==> e.key in s.ssd
    requires e.Hit? ==> e.key in s.dram
    requires e.AbortAdmit? ==> e.key !in s.dram
    ensures PolicyInv(Apply(cfg, s, e).policy, Apply(cfg, s, e).dram.Keys)
  {
    var keys, after := s.dram.Keys, Apply(cfg, s, e).dram.Keys;
    match e
    case PutDram(k, b) =>
      assert after == keys + {k};
      if k in s.dram {
        assert after == keys;
        TouchKeepsPolicy(s.policy, keys, k);
      } else {
        AdmitKeepsPolicy(s.policy, keys, k);
      }
    case PutSsd(k, b) =>
      assert after == keys - {k};
      if k in s.dram {
        ForgetKeepsPolicy(s.policy, keys, k);
      } else {
        assert after == keys;
      }
    case Demote(v, replaced, _) =>
      assert after == keys - {v};
      DemoteKeepsPolicy(s.policy, keys, replaced);
    case Promote(k) =>
      assert after == keys + {k};
      AdmitKeepsPolicy(s.policy, keys, k);
    case Hit(k) =>
      TouchKeepsPolicy(s.policy, keys, k);
    case AbortAdmit(k, _) =>
      AdmitKeepsPolicy(s.policy, keys, k);
      ForgetKeepsPolicy(s.policy.Admit(k), keys + {k}, k);
      assert keys + {k} - {k} == keys;
    case _ =>
  }

  /** Every committed step keeps the agreement. */
  lemma ApplyKeepsInv(cfg: Config, s: State, e: Event)
    requires Inv(cfg, s) && Enabled(cfg, s, e)
    ensures Inv(cfg, Apply(cfg, s, e))
  {
    ApplyKeepsStores(cfg, s, e);
    ApplyKeepsPolicy(cfg, s, e);
  }

  // ---- The plain map ----

  /** What callers may rely on: the value of each key, and the part that survives a crash. */
  datatype Abstract = Abstract(live: map<BlockKey, Block>, durable: map<BlockKey, Block>)

  ghost function Abs(s: State): Abstract {
    Abstract(Logical(s), s.ssd)
  }

  /** Only puts change a value; demotion makes it durable; a restart falls back to what is durable. */
  ghost function Effect(a: Abstract, e: Event): Abstract {
    match e
    case PutDram(k, b) => a.(live := a.live[k := b])
    case PutSsd(k, b) => Abstract(a.live[k := b], a.durable[k := b])
    case Demote(v, _, _) => if v in a.live then a.(durable := a.durable[v := a.live[v]]) else a
    case Restart => a.(live := a.durable)
    case _ => a
  }

  ghost function Merged(dram: map<BlockKey, Entry>, ssd: map<BlockKey, Block>): map<BlockKey, Block> {
    map k | k in dram.Keys + ssd.Keys :: if k in dram then dram[k].block else ssd[k]
  }

  /** Under the agreement the logical value is DRAM's where DRAM has one, and SSD's otherwise. */
  lemma LogicalIsMerged(cfg: Config, s: State)
    requires StoreInv(cfg, s.index, s.dram, s.nextHandle, s.ssd)
    ensures Logical(s) == Merged(s.dram, s.ssd)
  {
  }

  lemma MergedAdd(dram: map<BlockKey, Entry>, ssd: map<BlockKey, Block>, key: BlockKey, entry: Entry)
    ensures Merged(dram[key := entry], ssd) == Merged(dram, ssd)[key := entry.block]
  {
  }

  lemma MergedMove(dram: map<BlockKey, Entry>, ssd: map<BlockKey, Block>, key: BlockKey, block: Block)
    ensures Merged(dram - {key}, ssd[key := block]) == Merged(dram, ssd)[key := block]
  {
  }

  lemma ApplyMerges(cfg: Config, s: State, e: Event)
    requires e.Demote? ==> e.victim in s.dram
    requires e.Promote? ==> e.key in s.ssd && e.key !in s.dram
    ensures var u := Apply(cfg, s, e);
            Abstract(Merged(u.dram, u.ssd), u.ssd) == Effect(Abstract(Merged(s.dram, s.ssd), s.ssd), e)
  {
    var live := Merged(s.dram, s.ssd);
    match e
    case PutDram(k, b) => MergedAdd(s.dram, s.ssd, k, Entry(b, s.nextHandle));
    case PutSsd(k, b) => MergedMove(s.dram, s.ssd, k, b);
    case Demote(v, _, _) =>
      MergedMove(s.dram, s.ssd, v, s.dram[v].block);
      assert live[v := s.dram[v].block] == live;
    case Promote(k) =>
      MergedAdd(s.dram, s.ssd, k, Entry(s.ssd[k], s.nextHandle));
      assert live[k := s.ssd[k]] == live;
    case Restart => assert Merged(map[], s.ssd) == s.ssd;
    case _ =>
  }

  /** The node refines the plain map, step by step. */
  lemma ApplyRefines(cfg: Config, s: State, e: Event)
    requires Inv(cfg, s) && Enabled(cfg, s, e)
    ensures Abs(Apply(cfg, s, e)) == Effect(Abs(s), e)
  {
    ApplyKeepsStores(cfg, s, e);
    LogicalIsMerged(cfg, s);
    LogicalIsMerged(cfg, Apply(cfg, s, e));
    ApplyMerges(cfg, s, e);
  }

  // ---- Runs ----

  ghost function Run(cfg: Config, s: State, log: seq<Event>): State {
    if log == [] then s else Apply(cfg, Run(cfg, s, log[..|log| - 1]), log[|log| - 1])
  }

  /** Every step of the log was one the code may commit. */
  ghost predicate Legal(cfg: Config, s: State, log: seq<Event>) {
    log == [] ||
    (Legal(cfg, s, log[..|log| - 1]) && Enabled(cfg, Run(cfg, s, log[..|log| - 1]), log[|log| - 1]))
  }

  ghost function Effects(a: Abstract, log: seq<Event>): Abstract {
    if log == [] then a else Effect(Effects(a, log[..|log| - 1]), log[|log| - 1])
  }

  lemma {:induction false} RunKeepsInv(cfg: Config, s: State, log: seq<Event>)
    requires Inv(cfg, s) && Legal(cfg, s, log)
    ensures Inv(cfg, Run(cfg, s, log))
  {
    if log != [] {
      RunKeepsInv(cfg, s, log[..|log| - 1]);
      ApplyKeepsInv(cfg, Run(cfg, s, log[..|log| - 1]), log[|log| - 1]);
    }
  }

  /** Over every run, whatever failed in between, the node is the plain map. */
  lemma {:induction false} RunRefines(cfg: Config, s: State, log: seq<Event>)
    requires Inv(cfg, s) && Legal(cfg, s, log)
    ensures Abs(Run(cfg, s, log)) == Effects(Abs(s), log)
  {
    if log != [] {
      var before := log[..|log| - 1];
      RunRefines(cfg, s, before);
      RunKeepsInv(cfg, s, before);
      ApplyRefines(cfg, Run(cfg, s, before), log[|log| - 1]);
    }
  }

  lemma RunStep(cfg: Config, s: State, log: seq<Event>, e: Event)
    ensures Run(cfg, s, log + [e]) == Apply(cfg, Run(cfg, s, log), e)
    ensures Legal(cfg, s, log + [e]) <==> Legal(cfg, s, log) && Enabled(cfg, Run(cfg, s, log), e)
  {
    assert (log + [e])[..|log|] == log;
  }

  lemma {:induction false} RunAppend(cfg: Config, s: State, log: seq<Event>, more: seq<Event>)
    ensures Run(cfg, s, log + more) == Run(cfg, Run(cfg, s, log), more)
    ensures Legal(cfg, s, log + more) <==> Legal(cfg, s, log) && Legal(cfg, Run(cfg, s, log), more)
  {
    if more == [] {
      assert log + more == log;
    } else {
      RunAppend(cfg, s, log, more[..|more| - 1]);
      assert (log + more)[..|log + more| - 1] == log + more[..|more| - 1];
    }
  }

  /** Step `i` of a run given by its states. */
  ghost predicate StepAt(cfg: Config, states: seq<State>, log: seq<Event>, i: int) {
    0 <= i < |log| && i + 1 < |states| ==>
      Enabled(cfg, states[i], log[i]) && states[i + 1] == Apply(cfg, states[i], log[i])
  }

  /** The log leads from `s` to `u`, every step being one the code may commit. */
  ghost predicate Reaches(cfg: Config, s: State, log: seq<Event>, u: State) {
    exists states: seq<State> :: IsRun(cfg, s, log, u, states)
  }

  ghost predicate IsRun(cfg: Config, s: State, log: seq<Event>, u: State, states: seq<State>) {
    && |states| == |log| + 1 && states[0] == s && states[|log|] == u
    && forall i :: StepAt(cfg, states, log, i)
  }

  lemma ReachesSelf(cfg: Config, s: State)
    ensures Reaches(cfg, s, [], s)
  {
    assert IsRun(cfg, s, [], s, [s]);
  }

  lemma ReachesStep(cfg: Config, s: State, log: seq<Event>, u: State, e: Event)
    requires Reaches(cfg, s, log, u) && Enabled(cfg, u, e)
    ensures Reaches(cfg, s, log + [e], Apply(cfg, u, e))
  {
    var states :| IsRun(cfg, s, log, u, states);
    var more := states + [Apply(cfg, u, e)];
    forall i
      ensures StepAt(cfg, more, log + [e], i)
    {
      assert StepAt(cfg, states, log, i);
    }
    assert IsRun(cfg, s, log + [e], Apply(cfg, u, e), more);
  }

  /** The two views of a run agree. */
  lemma {:induction false} ReachesIsRun(cfg: Config, s: State, log: seq<Event>, u: State)
    ensures Reaches(cfg, s, log, u) <==> Legal(cfg, s, log) && u == Run(cfg, s, log)
  {
    if log == [] {
      ReachesSelf(cfg, s);
    } else {
      var before, last := log[..|log| - 1], log[|log| - 1];
      assert before + [last] == log;
      if Reaches(cfg, s, log, u) {
        var states :| IsRun(cfg, s, log, u, states);
        var shorter := states[..|log|];
        forall i
          ensures StepAt(cfg, shorter, before, i)
        {
          assert StepAt(cfg, states, log, i);
        }
        assert IsRun(cfg, s, before, states[|log| - 1], shorter);
        ReachesIsRun(cfg, s, before, states[|log| - 1]);
        assert StepAt(cfg, states, log, |log| - 1);
      } else if Legal(cfg, s, log) {
        ReachesIsRun(cfg, s, before, Run(cfg, s, before));
        ReachesStep(cfg, s, before, Run(cfg, s, before), last);
      }
    }
  }

  lemma ReachesAppend(cfg: Config, s: State, log: seq<Event>, u: State, more: seq<Event>, w: State)
    requires Reaches(cfg, s, log, u) && Reaches(cfg, u, more, w)
    ensures Reaches(cfg, s, log + more, w)
  {
    ReachesIsRun(cfg, s, log, u);
    ReachesIsRun(cfg, u, more, w);
    RunAppend(cfg, s, log, more);
    ReachesIsRun(cfg, s, log + more, w);
  }
}
