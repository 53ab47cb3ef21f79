/** Whole runs of a storage node: what a crash loses, which block leaves DRAM first, and how large
    the policy's bookkeeping can get. */
module NodeHistory {
  import opened Status
  import opened Blocks
  import opened Recency
  import opened EvictionPolicy
  import opened DramTier
  import opened MapSums
  import opened NodeModel
  import L = LruPolicy
  import A = ArcPolicy
  import ArcBounds
  import opened PolicyOps

  // ---- Crash recovery ----

  /** The step makes the current value of `key` durable. */
  predicate Commits(e: Event, key: BlockKey) {
    (e.PutSsd? && e.key == key) || (e.Demote? && e.victim == key)
  }

  /** The last value given to `key` has not reached SSD. */
  predicate Dirty(log: seq<Event>, key: BlockKey) {
    if log == [] then false
    else
      var e := log[|log| - 1];
      if e.PutDram? && e.key == key then true
      else if Commits(e, key) || e.Restart? then false
      else Dirty(log[..|log| - 1], key)
  }

  /** Two maps give a key the same value, or none. */
  ghost predicate Same(a: map<BlockKey, Block>, b: map<BlockKey, Block>, key: BlockKey) {
    (key in a <==> key in b) && (key in a ==> a[key] == b[key])
  }

  /** A dirty key has a value, and a clean one has the value that SSD holds. */
  lemma {:induction false} DirtyOrDurable(a: Abstract, log: seq<Event>, key: BlockKey)
    requires Same(a.live, a.durable, key)
    ensures if Dirty(log, key) then key in Effects(a, log).live
            else Same(Effects(a, log).live, Effects(a, log).durable, key)
  {
    if log != [] {
      DirtyOrDurable(a, log[..|log| - 1], key);
    }
  }

  lemma {:induction false} CommittedAt(a: Abstract, log: seq<Event>, key: BlockKey, i: nat)
    requires i < |log| && Commits(log[i], key) && (log[i].Demote? ==> key in Effects(a, log[..i]).live)
    requires forall j :: i < j < |log| ==> !Commits(log[j], key)
    ensures key in Effects(a, log).durable && key in Effects(a, log[..i + 1]).live
    ensures Effects(a, log).durable[key] == Effects(a, log[..i + 1]).live[key]
  {
    var before := log[..|log| - 1];
    if i == |log| - 1 {
      assert log[..i + 1] == log;
    } else {
      assert before[..i] == log[..i] && before[..i + 1] == log[..i + 1];
      CommittedAt(a, before, key, i);
      assert !Commits(log[|log| - 1], key);
    }
  }

  lemma {:induction false} NeverCommitted(a: Abstract, log: seq<Event>, key: BlockKey)
    requires forall j :: 0 <= j < |log| ==> !Commits(log[j], key)
    ensures Same(Effects(a, log).durable, a.durable, key)
  {
    if log != [] {
      NeverCommitted(a, log[..|log| - 1], key);
      assert !Commits(log[|log| - 1], key);
    }
  }

  /** A crash after any run, then recovery: the agreement holds again and the node answers exactly
      what was durable. */
  lemma RestartAnswersDurable(cfg: Config, s: State, log: seq<Event>)
    requires Inv(cfg, s) && Legal(cfg, s, log)
    ensures Inv(cfg, Run(cfg, s, log + [Restart]))
    ensures Logical(Run(cfg, s, log + [Restart])) == Run(cfg, s, log).ssd == Effects(Abs(s), log).durable
  {
    RunStep(cfg, s, log, Restart);
    RunKeepsInv(cfg, s, log);
    RunRefines(cfg, s, log);
    ApplyKeepsInv(cfg, Run(cfg, s, log), Restart);
    ApplyRefines(cfg, Run(cfg, s, log), Restart);
  }

  /** A crash loses a value only if the value never reached SSD. */
  lemma CrashLosesOnlyDirty(cfg: Config, s: State, log: seq<Event>, key: BlockKey)
    requires Inv(cfg, s) && Legal(cfg, s, log) && Same(Logical(s), s.ssd, key)
    requires !Dirty(log, key)
    ensures Same(Logical(Run(cfg, s, log + [Restart])), Logical(Run(cfg, s, log)), key)
  {
    RestartAnswersDurable(cfg, s, log);
    RunRefines(cfg, s, log);
    DirtyOrDurable(Abs(s), log, key);
  }

  lemma {:induction false} LegalPrefix(cfg: Config, s: State, log: seq<Event>, i: nat)
    requires Legal(cfg, s, log) && i <= |log|
    ensures Legal(cfg, s, log[..i])
    ensures i < |log| ==> Enabled(cfg, Run(cfg, s, log[..i]), log[i])
  {
    if i == |log| {
      assert log[..i] == log;
    } else if i < |log| - 1 {
      var before := log[..|log| - 1];
      LegalPrefix(cfg, s, before, i);
      assert before[..i] == log[..i];
    }
  }

  /** After a crash a key has the value it had when it was last committed to SSD, dirty or not. */
  lemma CrashRestoresLastCommit(cfg: Config, s: State, log: seq<Event>, key: BlockKey, i: nat)
    requires Inv(cfg, s) && Legal(cfg, s, log)
    requires i < |log| && Commits(log[i], key) && forall j :: i < j < |log| ==> !Commits(log[j], key)
    ensures var atCommit := Logical(Run(cfg, s, log[..i + 1])); var after := Logical(Run(cfg, s, log + [Restart]));
            key in atCommit && key in after && after[key] == atCommit[key]
  {
    RestartAnswersDurable(cfg, s, log);
    LegalPrefix(cfg, s, log, i);
    LegalPrefix(cfg, s, log, i + 1);
    RunKeepsInv(cfg, s, log[..i]);
    RunRefines(cfg, s, log[..i]);
    RunRefines(cfg, s, log[..i + 1]);
    Agreement(cfg, Run(cfg, s, log[..i]), key);
    CommittedAt(Abs(s), log, key, i);
  }

  /** A key that never reached SSD during the run is after a crash what SSD had before it. */
  lemma CrashRestoresOldest(cfg: Config, s: State, log: seq<Event>, key: BlockKey)
    requires Inv(cfg, s) && Legal(cfg, s, log)
    requires forall j :: 0 <= j < |log| ==> !Commits(log[j], key)
    ensures Same(Logical(Run(cfg, s, log + [Restart])), s.ssd, key)
  {
    RestartAnswersDurable(cfg, s, log);
    NeverCommitted(Abs(s), log, key);
  }

  /** No step changes which policy a node has, or how large it was made. */
  lemma ResetIsKept(cfg: Config, s: State, e: Event)
    requires Inv(cfg, s) && Enabled(cfg, s, e)
    ensures Apply(cfg, s, e).policy.Reset() == s.policy.Reset()
  {
    if s.policy.Arc? {
      ArcStep(cfg, s, e);
    }
  }

  lemma {:induction false} ResetIsKeptOverRuns(cfg: Config, s: State, log: seq<Event>)
    requires Inv(cfg, s) && Legal(cfg, s, log)
    ensures Run(cfg, s, log).policy.Reset() == s.policy.Reset()
  {
    if log != [] {
      ResetIsKeptOverRuns(cfg, s, log[..|log| - 1]);
      RunKeepsInv(cfg, s, log[..|log| - 1]);
      ResetIsKept(cfg, Run(cfg, s, log[..|log| - 1]), log[|log| - 1]);
    }
  }

  // ---- Handles ----

  ghost predicate OwnHandle(dram: map<BlockKey, Entry>, a: BlockKey, b: BlockKey) {
    a in dram && b in dram && a != b ==> dram[a].handle != dram[b].handle
  }

  /** No two DRAM blocks share a handle. */
  ghost predicate HandlesUnique(dram: map<BlockKey, Entry>) {
    forall a, b :: OwnHandle(dram, a, b)
  }

  lemma NewHandleUnique(dram: map<BlockKey, Entry>, nextHandle: nat, key: BlockKey, block: Block)
    requires HandlesUnique(dram) && HandlesValid(dram, nextHandle)
    ensures HandlesUnique(dram[key := Entry(block, nextHandle)])
  {
    var more := dram[key := Entry(block, nextHandle)];
    forall a, b
      ensures OwnHandle(more, a, b)
    {
      assert OwnHandle(dram, a, b);
    }
  }

  lemma FewerHandlesUnique(dram: map<BlockKey, Entry>, key: BlockKey)
    requires HandlesUnique(dram)
    ensures HandlesUnique(dram - {key})
  {
    forall a, b
      ensures OwnHandle(dram - {key}, a, b)
    {
      assert OwnHandle(dram, a, b);
    }
  }

  lemma HandlesStep(cfg: Config, s: State, e: Event)
    requires HandlesUnique(s.dram) && HandlesValid(s.dram, s.nextHandle)
    ensures HandlesUnique(Apply(cfg, s, e).dram)
  {
    match e
    case PutDram(k, b) => NewHandleUnique(s.dram, s.nextHandle, k, b);
    case PutSsd(k, _) => FewerHandlesUnique(s.dram, k);
    case Demote(v, _, _) => FewerHandlesUnique(s.dram, v);
    case Promote(k) => if k in s.ssd { NewHandleUnique(s.dram, s.nextHandle, k, s.ssd[k]); }
    case _ =>
  }

  /** Handles stay unique over every run. */
  lemma {:induction false} HandlesStayUnique(cfg: Config, s: State, log: seq<Event>)
    requires Inv(cfg, s) && Legal(cfg, s, log) && HandlesUnique(s.dram)
    ensures HandlesUnique(Run(cfg, s, log).dram)
  {
    if log != [] {
      var before := log[..|log| - 1];
      HandlesStayUnique(cfg, s, before);
      RunKeepsInv(cfg, s, before);
      HandlesStep(cfg, Run(cfg, s, before), log[|log| - 1]);
    }
  }

  // ---- LRU ----

  /** The step uses a block in DRAM. */
  predicate Uses(e: Event, key: BlockKey) {
    (e.PutDram? || e.Promote? || e.Hit?) && e.key == key
  }

  /** When a block was last used, -1 if never. */
  function LastUse(log: seq<Event>, key: BlockKey): (r: int)
    ensures -1 <= r < |log|
  {
    if log == [] then -1
    else if Uses(log[|log| - 1], key) then |log| - 1
    else LastUse(log[..|log| - 1], key)
  }

  /** The list goes from the latest use to the earliest. */
  predicate LatestFirst(order: seq<BlockKey>, log: seq<Event>) {
    order == [] ||
    ((forall k :: k in order[1..] ==> LastUse(log, k) < LastUse(log, order[0])) && LatestFirst(order[1..], log))
  }

  lemma {:induction false} LatestFirstAt(order: seq<BlockKey>, log: seq<Event>, i: nat, j: nat)
    requires LatestFirst(order, log) && i < j < |order|
    ensures LastUse(log, order[j]) < LastUse(log, order[i])
  {
    if i == 0 {
      assert order[j] == order[1..][j - 1];
    } else {
      LatestFirstAt(order[1..], log, i - 1, j - 1);
    }
  }

  lemma {:induction false} LatestFirstWithout(order: seq<BlockKey>, log: seq<Event>, key: BlockKey)
    requires LatestFirst(order, log)
    ensures LatestFirst(Without(order, key), log)
  {
    if order != [] {
      LatestFirstWithout(order[1..], log, key);
    }
  }

  lemma {:induction false} LatestFirstLater(order: seq<BlockKey>, log: seq<Event>, e: Event)
    requires LatestFirst(order, log) && forall k :: k in order ==> !Uses(e, k)
    ensures LatestFirst(order, log + [e])
  {
    assert (log + [e])[..|log|] == log;
    if order != [] {
      LatestFirstLater(order[1..], log, e);
      assert forall k :: k in order ==> LastUse(log + [e], k) == LastUse(log, k);
    }
  }

  /** Moving the used block to the front keeps the list in order of use. */
  lemma LatestFirstUsed(order: seq<BlockKey>, log: seq<Event>, e: Event, key: BlockKey)
    requires LatestFirst(order, log) && Uses(e, key)
    ensures LatestFirst([key] + Without(order, key), log + [e])
  {
    var rest := Without(order, key);
    LatestFirstWithout(order, log, key);
    LatestFirstLater(rest, log, e);
    assert (log + [e])[..|log|] == log;
    assert ([key] + rest)[1..] == rest;
  }

  /** A rolled-back admission leaves the LRU order as it was. */
  lemma AdmitForgetRestores(l: L.LruState, key: BlockKey)
    requires l.Valid() && l.reserved.None? && key !in l.order
    ensures l.Admit(key).Forget(key) == l
  {
    WithoutDistinct(l.order, key);
    assert ([key] + l.order)[1..] == l.order;
  }

  lemma LruStep(cfg: Config, s: State, log: seq<Event>, e: Event)
    requires Inv(cfg, s) && Enabled(cfg, s, e) && s.policy.Lru? && LatestFirst(s.policy.lru.order, log)
    ensures Apply(cfg, s, e).policy.Lru? && LatestFirst(Apply(cfg, s, e).policy.lru.order, log + [e])
  {
    var l := s.policy.lru;
    assert forall k :: k in l.order <==> k in s.policy.Residents();
    match e
    case PutDram(k, _) => LatestFirstUsed(l.order, log, e, k);
    case Promote(k) => LatestFirstUsed(l.order, log, e, k);
    case Hit(k) => LatestFirstUsed(l.order, log, e, k);
    case PutSsd(k, _) => LatestFirstWithout(l.order, log, k); LatestFirstLater(Without(l.order, k), log, e);
      LatestFirstLater(l.order, log, e);
    case Demote(v, _, _) => LatestFirstWithout(l.order, log, v); LatestFirstLater(Without(l.order, v), log, e);
    case AbortAdmit(k, _) => AdmitForgetRestores(l, k); LatestFirstLater(l.order, log, e);
    case _ => LatestFirstLater(l.order, log, e);
  }

  lemma EmptyOrder(l: L.LruState)
    ensures l.Residents() == {} <==> l.order == []
  {
    assert l.order != [] ==> l.order[0] in l.Residents();
  }

  /** Over every run, failures included, the LRU list is the history's order of last use. */
  lemma {:induction false} LruFollowsHistory(cfg: Config, s: State, log: seq<Event>)
    requires Inv(cfg, s) && s.policy.Lru? && s.dram == map[] && Legal(cfg, s, log)
    ensures Run(cfg, s, log).policy.Lru? && LatestFirst(Run(cfg, s, log).policy.lru.order, log)
  {
    if log == [] {
      EmptyOrder(s.policy.lru);
    } else {
      var before, e := log[..|log| - 1], log[|log| - 1];
      LruFollowsHistory(cfg, s, before);
      RunKeepsInv(cfg, s, before);
      LruStep(cfg, Run(cfg, s, before), before, e);
      assert before + [e] == log;
    }
  }

  lemma OldestLeaves(order: seq<BlockKey>, log: seq<Event>, replaced: Option<BlockKey>, key: BlockKey)
    requires LatestFirst(order, log) && key in order && replaced != Some(key)
    requires OldestExcept(order, replaced).Some? && OldestExcept(order, replaced).value != key
    ensures LastUse(log, OldestExcept(order, replaced).value) < LastUse(log, key)
  {
    var i := OldestExceptIsLast(order, replaced);
    var j :| 0 <= j < |order| && order[j] == key;
    LatestFirstAt(order, log, j, i);
  }

  lemma VictimIsOldest(cfg: Config, s: State, log: seq<Event>, e: Event, key: BlockKey)
    requires Inv(cfg, s) && s.policy.Lru? && LatestFirst(s.policy.lru.order, log) && Enabled(cfg, s, e) && e.Demote?
    requires key in s.dram && key != e.victim && e.replaced != Some(key)
    ensures LastUse(log, e.victim) < LastUse(log, key)
  {
    assert key in s.policy.Residents();
    OldestLeaves(s.policy.lru.order, log, e.replaced, key);
  }

  /** The block that a demotion moves out is the one whose last use is oldest, the block being
      replaced aside. */
  lemma DemotedIsOldest(cfg: Config, s: State, log: seq<Event>, e: Event, key: BlockKey)
    requires Inv(cfg, s) && s.policy.Lru? && s.dram == map[] && Legal(cfg, s, log + [e]) && e.Demote?
    requires key in Run(cfg, s, log).dram && key != e.victim && e.replaced != Some(key)
    ensures LastUse(log, e.victim) < LastUse(log, key)
  {
    RunStep(cfg, s, log, e);
    LruFollowsHistory(cfg, s, log);
    RunKeepsInv(cfg, s, log);
    VictimIsOldest(cfg, Run(cfg, s, log), log, e, key);
  }

  // ---- A victim that SSD refuses ----

  /** The least recently used block. */
  ghost predicate IsOldest(s: State, v: BlockKey) {
    s.policy.Lru? && s.policy.lru.order != [] && s.policy.lru.order[|s.policy.lru.order| - 1] == v
  }

  /** A DRAM block whose metadata do not fit its key, next in line to leave. */
  ghost predicate Blocked(s: State, v: BlockKey) {
    IsOldest(s, v) && v in s.dram && !Consistent(v, s.dram[v].block.metadata)
  }

  /** The step neither uses nor overwrites `v` nor makes room for that, and is no restart. */
  predicate Ignores(e: Event, v: BlockKey) {
    !Uses(e, v) && !(e.PutSsd? && e.key == v) && !(e.Demote? && e.replaced == Some(v)) && !e.Restart?
  }

  lemma {:induction false} LastWithout(order: seq<BlockKey>, key: BlockKey)
    requires order != [] && order[|order| - 1] != key
    ensures var r := Without(order, key); r != [] && r[|r| - 1] == order[|order| - 1]
  {
    if |order| > 1 {
      LastWithout(order[1..], key);
    }
  }

  lemma FrontKeepsLast(l: L.LruState, key: BlockKey)
    requires l.order != [] && l.order[|l.order| - 1] != key
    ensures var r := l.MoveToFront(key).order; r != [] && r[|r| - 1] == l.order[|l.order| - 1]
  {
    LastWithout(l.order, key);
  }

  lemma ForgetKeepsLast(l: L.LruState, key: BlockKey)
    requires l.order != [] && l.order[|l.order| - 1] != key
    ensures var r := l.Forget(key).order; r != [] && r[|r| - 1] == l.order[|l.order| - 1]
  {
    LastWithout(l.order, key);
  }

  /** Taking back the admission of a key that is not in DRAM leaves an LRU policy as it was. */
  lemma AbortRestores(policy: PolicyState, keys: set<BlockKey>, key: BlockKey)
    requires PolicyInv(policy, keys) && policy.Lru? && key !in keys
    ensures policy.Admit(key).Forget(key) == policy
  {
    assert key in policy.lru.order <==> key in policy.Residents();
    AdmitForgetRestores(policy.lru, key);
  }

  lemma OldestStep(cfg: Config, s: State, e: Event, v: BlockKey)
    requires IsOldest(s, v) && Ignores(e, v) && !e.Demote?
    requires e.AbortAdmit? ==> s.policy.Admit(e.key).Forget(e.key) == s.policy
    ensures IsOldest(Apply(cfg, s, e), v)
  {
    var l := s.policy.lru;
    match e
    case PutDram(k, _) => FrontKeepsLast(l, k);
    case Promote(k) => FrontKeepsLast(l, k);
    case Hit(k) => FrontKeepsLast(l, k);
    case PutSsd(k, _) => ForgetKeepsLast(l, k);
    case _ =>
  }

  /** Nothing is demoted past such a block, and it stays next in line. */
  lemma BlockedStep(cfg: Config, s: State, e: Event, v: BlockKey)
    requires Inv(cfg, s) && Enabled(cfg, s, e) && Blocked(s, v) && Ignores(e, v)
    ensures !e.Demote? && Blocked(Apply(cfg, s, e), v) && Apply(cfg, s, e).dram[v] == s.dram[v]
  {
    assert !e.Demote?;
    if e.AbortAdmit? {
      Agreement(cfg, s, e.key);
      AbortRestores(s.policy, s.dram.Keys, e.key);
    }
    OldestStep(cfg, s, e, v);
  }

  /** Over every run that does not use or overwrite it, an oldest block that SSD refuses stays where
      it is and no block at all leaves DRAM. */
  lemma {:induction false} BlockedForever(cfg: Config, s: State, log: seq<Event>, v: BlockKey)
    requires Inv(cfg, s) && Legal(cfg, s, log) && Blocked(s, v)
    requires forall i :: 0 <= i < |log| ==> Ignores(log[i], v)
    ensures Blocked(Run(cfg, s, log), v) && Run(cfg, s, log).dram[v] == s.dram[v]
    ensures forall i :: 0 <= i < |log| ==> !log[i].Demote?
  {
    if log != [] {
      var before := log[..|log| - 1];
      assert forall i :: 0 <= i < |before| ==> before[i] == log[i];
      BlockedForever(cfg, s, before, v);
      RunKeepsInv(cfg, s, before);
      BlockedStep(cfg, Run(cfg, s, before), log[|log| - 1], v);
      assert forall i :: 0 <= i < |log| ==> i == |log| - 1 || log[i] == before[i];
    }
  }

  // ---- ARC ----

  ghost predicate SizesAtLeast(s: State, least: nat) {
    && (forall k :: k in s.dram ==> least <= EntrySize(s.dram[k]))
    && (forall k :: k in s.ssd ==> least <= s.ssd[k].Size())
  }

  predicate WritesAtLeast(e: Event, least: nat) {
    e.PutDram? || e.PutSsd? || e.AbortWrite? || e.AbortAdmit? ==> least <= e.block.Size()
  }

  lemma CountIsSum(a: A.ArcState)
    requires a.Valid()
    ensures a.ResidentCount() == |a.Residents()|
  {
    DistinctCount(a.t1);
    DistinctCount(a.t2);
    assert a.Residents() == (set k | k in a.t1) + (set k | k in a.t2);
    assert (set k | k in a.t1) !! (set k | k in a.t2);
  }

  lemma {:induction false} DistinctCount(order: seq<BlockKey>)
    requires Distinct(order)
    ensures |set k | k in order| == |order|
  {
    if order != [] {
      Uncons(order);
      DistinctCount(order[1..]);
      assert (set k | k in order) == {order[0]} + (set k | k in order[1..]);
    }
  }

  lemma FewerThan(n: nat, least: nat, capacity: nat, c: nat)
    requires 0 < least && (n + 1) * least <= capacity && capacity / least <= c
    ensures n < c
  {
    assert capacity < (capacity / least + 1) * least;
    if c <= n {
      MulMonotone(capacity / least + 1, n + 1, least);
    }
  }

  lemma MulMonotone(a: nat, b: nat, c: nat)
    requires a <= b
    ensures a * c <= b * c
  {
  }

  /** DRAM holds so many blocks of a least size that one more still fits the capacity. */
  lemma OneMoreFits(dram: map<BlockKey, Entry>, key: BlockKey, size: nat, least: nat, capacity: nat)
    requires forall k :: k in dram ==> least <= EntrySize(dram[k])
    requires key !in dram && least <= size && Footprint(dram, Some(key), size) <= capacity
    ensures (|dram| + 1) * least <= capacity
  {
    RemoveAbsent(dram, key);
    SumAtLeast(dram, EntrySize, least);
    OneMore(|dram|, least);
  }

  lemma FewBlocks(dram: map<BlockKey, Entry>, key: BlockKey, size: nat, least: nat, capacity: nat, c: nat)
    requires forall k :: k in dram ==> least <= EntrySize(dram[k])
    requires key !in dram && 0 < least <= size && Footprint(dram, Some(key), size) <= capacity && capacity / least <= c
    ensures |dram| < c
  {
    var n := |dram|;
    OneMoreFits(dram, key, size, least, capacity);
    FewerThan(n, least, capacity, c);
  }

  lemma ResidentsCounted(policy: PolicyState, dram: map<BlockKey, Entry>)
    requires PolicyInv(policy, dram.Keys) && policy.Arc?
    ensures policy.arc.ResidentCount() == |dram|
  {
    CountIsSum(policy.arc);
  }

  /** The step brings a block into DRAM, if only for a moment. */
  ghost predicate Enters(s: State, e: Event) {
    ((e.PutDram? || e.AbortAdmit?) && e.key !in s.dram) || (e.Promote? && e.key in s.ssd)
  }

  ghost function EnteringSize(s: State, e: Event): nat
    requires Enters(s, e)
  {
    if e.Promote? then s.ssd[e.key].Size() else e.block.Size()
  }

  lemma EnteringFits(cfg: Config, s: State, e: Event, least: nat, c: nat)
    requires Enabled(cfg, s, e) && Enters(s, e) && 0 < cfg.capacity
    requires 0 < least && SizesAtLeast(s, least) && WritesAtLeast(e, least) && cfg.capacity / least <= c
    ensures |s.dram| < c
  {
    FewBlocks(s.dram, e.key, EnteringSize(s, e), least, cfg.capacity, c);
  }

  /** A block that fits beside the others finds fewer than `c` of them. */
  lemma EntersWithRoom(cfg: Config, s: State, e: Event, least: nat)
    requires PolicyInv(s.policy, s.dram.Keys) && s.policy.Arc? && Enabled(cfg, s, e) && Enters(s, e)
    requires 0 < least && SizesAtLeast(s, least) && WritesAtLeast(e, least)
    requires 0 < cfg.capacity && cfg.capacity / least <= s.policy.arc.c
    ensures s.policy.arc.ResidentCount() < s.policy.arc.c
  {
    EnteringFits(cfg, s, e, least, s.policy.arc.c);
    ResidentsCounted(s.policy, s.dram);
  }

  /** What a step does to an ARC policy, as calls of its interface. */
  ghost function Calls(s: State, e: Event): seq<PolicyOp> {
    match e
    case PutDram(k, _) => if k in s.dram then [Access(k)] else [Insert(k)]
    case PutSsd(k, _) => if k in s.dram then [Remove(k)] else []
    case Demote(v, replaced, _) => [Select(replaced), Commit(v)]
    case Promote(k) => [Insert(k)]
    case Hit(k) => [Access(k)]
    case AbortAdmit(k, _) => [Insert(k), Remove(k)]
    case _ => []
  }

  /** One call, or two of which the second does not enter. */
  ghost function Called(a: A.ArcState, calls: seq<PolicyOp>): A.ArcState {
    if |calls| == 0 then a
    else if |calls| == 1 then ArcBounds.Step(a, calls[0])
    else ArcBounds.Step(ArcBounds.Step(a, calls[0]), calls[1])
  }

  lemma StepCalls(cfg: Config, s: State, e: Event)
    requires PolicyInv(s.policy, s.dram.Keys) && s.policy.Arc? && Enabled(cfg, s, e) && !e.Restart?
    ensures Apply(cfg, s, e).policy == Arc(Called(s.policy.arc, Calls(s, e)))
  {
    assert s.policy.arc.reserved.None?;
  }

  lemma CalledKeeps(a: A.ArcState, calls: seq<PolicyOp>)
    requires a.Valid()
    ensures Called(a, calls).Valid() && Called(a, calls).c == a.c
  {
    if |calls| > 0 {
      ArcBounds.StepValid(a, calls[0]);
      if |calls| > 1 {
        ArcBounds.StepValid(ArcBounds.Step(a, calls[0]), calls[1]);
      }
    }
  }

  lemma CalledBounded(a: A.ArcState, calls: seq<PolicyOp>)
    requires a.Valid() && a.Bounded()
    requires |calls| > 0 && ArcBounds.Enters(a, calls[0]) ==> a.ResidentCount() < a.c
    requires |calls| > 1 ==> calls[1].Commit? || calls[1].Remove?
    ensures Called(a, calls).Bounded()
  {
    if |calls| > 0 {
      ArcBounds.StepValid(a, calls[0]);
      ArcBounds.StepBounded(a, calls[0]);
      if |calls| > 1 {
        ArcBounds.StepBounded(ArcBounds.Step(a, calls[0]), calls[1]);
      }
    }
  }

  /** No step changes the size an ARC policy was made for. */
  lemma ArcStep(cfg: Config, s: State, e: Event)
    requires PolicyInv(s.policy, s.dram.Keys) && s.policy.Arc? && Enabled(cfg, s, e)
    ensures Apply(cfg, s, e).policy.Arc? && Apply(cfg, s, e).policy.arc.c == s.policy.arc.c
  {
    if !e.Restart? {
      StepCalls(cfg, s, e);
      CalledKeeps(s.policy.arc, Calls(s, e));
    }
  }

  lemma ArcStepBounded(cfg: Config, s: State, e: Event, least: nat)
    requires PolicyInv(s.policy, s.dram.Keys) && s.policy.Arc? && s.policy.arc.Bounded() && Enabled(cfg, s, e)
    requires 0 < least && SizesAtLeast(s, least) && WritesAtLeast(e, least)
    requires 0 < cfg.capacity && cfg.capacity / least <= s.policy.arc.c
    ensures Apply(cfg, s, e).policy.Arc? && Apply(cfg, s, e).policy.arc.Bounded()
  {
    if !e.Restart? {
      var a, calls := s.policy.arc, Calls(s, e);
      StepCalls(cfg, s, e);
      if |calls| > 0 && ArcBounds.Enters(a, calls[0]) {
        assert calls[0].key !in s.policy.Residents();
        EntersWithRoom(cfg, s, e, least);
      }
      CalledBounded(a, calls);
    }
  }

  lemma SizesStay(cfg: Config, s: State, e: Event, least: nat)
    requires Enabled(cfg, s, e) && SizesAtLeast(s, least) && WritesAtLeast(e, least)
    ensures SizesAtLeast(Apply(cfg, s, e), least)
  {
  }

  /** DRAM can hold more than `c` blocks of the least size. */
  predicate Roomier(cfg: Config, least: nat, c: nat) {
    cfg.capacity == 0 || least == 0 || c < cfg.capacity / least
  }

  /** With blocks of at least `least` bytes and a DRAM that holds no more than `c` of them, ARC stays
      within its bounds over every run of the node. */
  lemma {:induction false} ArcBoundedInNode(cfg: Config, s: State, log: seq<Event>, least: nat)
    requires Inv(cfg, s) && Legal(cfg, s, log) && s.policy.Arc? && s.policy.arc.Bounded()
    requires SizesAtLeast(s, least) && forall i :: 0 <= i < |log| ==> WritesAtLeast(log[i], least)
    requires !Roomier(cfg, least, s.policy.arc.c)
    ensures Run(cfg, s, log).policy.Arc? && Run(cfg, s, log).policy.arc.Bounded()
    ensures Run(cfg, s, log).policy.arc.c == s.policy.arc.c && SizesAtLeast(Run(cfg, s, log), least)
  {
    if log != [] {
      var before, e := log[..|log| - 1], log[|log| - 1];
      assert forall i :: 0 <= i < |before| ==> WritesAtLeast(before[i], least) by {
        forall i | 0 <= i < |before|
          ensures WritesAtLeast(before[i], least)
        {
          assert WritesAtLeast(log[i], least);
        }
      }
      assert WritesAtLeast(e, least);
      ArcBoundedInNode(cfg, s, before, least);
      RunKeepsInv(cfg, s, before);
      var u := Run(cfg, s, before);
      ArcStep(cfg, u, e);
      ArcStepBounded(cfg, u, e, least);
      SizesStay(cfg, u, e, least);
    }
  }

  // The condition on the sizes is needed: without it a run breaks the bound.

  function NthKey(i: nat): BlockKey
    requires i < TWO_64
  {
    BlockKey(i, 0, 0)
  }

  function Plain(size: nat): Block
    requires size < TWO_63
  {
    Block(BlockMetadata(0, 0, 0, 0, 0, 0), seq(size, _ => 0))
  }

  ghost function Puts(n: nat, size: nat): (log: seq<Event>)
    requires n <= TWO_64 && size < TWO_63
    ensures |log| == n && forall i :: 0 <= i < n ==> log[i] == PutDram(NthKey(i), Plain(size))
  {
    if n == 0 then [] else Puts(n - 1, size) + [PutDram(NthKey(n - 1), Plain(size))]
  }

  /** The bytes of `n` blocks of `size` bytes. */
  function Weight(n: nat, size: nat): nat {
    if n == 0 then 0 else Weight(n - 1, size) + size
  }

  lemma {:induction false} WeightIs(n: nat, size: nat)
    ensures Weight(n, size) == n * size
  {
    if n > 0 {
      WeightIs(n - 1, size);
      OneMore(n - 1, size);
    }
  }

  /** DRAM holds the first `n` keys, each with `size` bytes. */
  ghost predicate HoldsPuts(dram: map<BlockKey, Entry>, n: nat, size: nat) {
    |dram| == n && Bytes(dram) == Weight(n, size) && forall k :: k in dram ==> k.prefixHash < n
  }

  /** DRAM is large enough for `n` blocks of `size` bytes. */
  predicate RoomFor(cfg: Config, n: nat, size: nat) {
    cfg.capacity == 0 || Weight(n, size) <= cfg.capacity
  }

  lemma RoomForFewer(cfg: Config, n: nat, size: nat)
    requires RoomFor(cfg, n + 1, size)
    ensures RoomFor(cfg, n, size)
  {
  }

  lemma PutOneMore(cfg: Config, s: State, n: nat, size: nat)
    requires HoldsPuts(s.dram, n, size) && cfg.hasDram && n < TWO_64 && size < TWO_63 && RoomFor(cfg, n + 1, size)
    ensures var e := PutDram(NthKey(n), Plain(size));
            Enabled(cfg, s, e) && HoldsPuts(Apply(cfg, s, e).dram, n + 1, size)
  {
    var key, entry := NthKey(n), Entry(Plain(size), s.nextHandle);
    RemoveAbsent(s.dram, key);
    SumPut(s.dram, EntrySize, key, entry);
    CountPut(s.dram, key, entry);
  }

  lemma PutsOneMore(cfg: Config, s: State, log: seq<Event>, n: nat, size: nat)
    requires cfg.hasDram && n < TWO_64 && size < TWO_63 && RoomFor(cfg, n + 1, size)
    requires Legal(cfg, s, log) && HoldsPuts(Run(cfg, s, log).dram, n, size)
    ensures var more := log + [PutDram(NthKey(n), Plain(size))];
            Legal(cfg, s, more) && HoldsPuts(Run(cfg, s, more).dram, n + 1, size)
  {
    PutOneMore(cfg, Run(cfg, s, log), n, size);
    RunStep(cfg, s, log, PutDram(NthKey(n), Plain(size)));
  }

  lemma HoldsNone(size: nat)
    ensures HoldsPuts(map[], 0, size)
  {
    SumEmpty<BlockKey, Entry>(EntrySize);
  }

  /** Putting `n` blocks of one size into an empty node, as long as they fit. */
  lemma {:induction false} PutsFit(cfg: Config, s: State, n: nat, size: nat)
    requires s.dram == map[] && cfg.hasDram && n <= TWO_64 && size < TWO_63 && RoomFor(cfg, n, size)
    ensures Legal(cfg, s, Puts(n, size)) && HoldsPuts(Run(cfg, s, Puts(n, size)).dram, n, size)
  {
    if n == 0 {
      HoldsNone(size);
    } else {
      RoomForFewer(cfg, n - 1, size);
      PutsFit(cfg, s, n - 1, size);
      PutsOneMore(cfg, s, Puts(n - 1, size), n - 1, size);
    }
  }

  lemma RoomierHolds(cfg: Config, least: nat, c: nat)
    requires Roomier(cfg, least, c)
    ensures RoomFor(cfg, c + 1, least)
  {
    if cfg.capacity != 0 && least != 0 {
      MulMonotone(c + 1, cfg.capacity / least, least);
    }
    WeightIs(c + 1, least);
  }

  /** Unless DRAM is limited to `c` blocks of the least size, some run of a new node overflows ARC. */
  lemma ArcOverflowsInNode(cfg: Config, s: State, least: nat)
    requires Inv(cfg, s) && s.dram == map[] && cfg.hasDram && s.policy.Arc? && s.policy.arc.c < TWO_64
    requires least < TWO_63 && Roomier(cfg, least, s.policy.arc.c)
    ensures var log := Puts(s.policy.arc.c + 1, least);
            && Legal(cfg, s, log) && (forall i :: 0 <= i < |log| ==> WritesAtLeast(log[i], least))
            && Run(cfg, s, log).policy.Arc? && !Run(cfg, s, log).policy.arc.Bounded()
  {
    var n := s.policy.arc.c + 1;
    RoomierHolds(cfg, least, s.policy.arc.c);
    PutsFit(cfg, s, n, least);
    Overfull(cfg, s, Puts(n, least));
  }

  lemma Overfull(cfg: Config, s: State, log: seq<Event>)
    requires Inv(cfg, s) && Legal(cfg, s, log) && s.policy.Arc? && s.policy.arc.c < |Run(cfg, s, log).dram|
    ensures Run(cfg, s, log).policy.Arc? && !Run(cfg, s, log).policy.arc.Bounded()
  {
    RunKeepsInv(cfg, s, log);
    KeepsSize(cfg, s, log);
    ResidentsCounted(Run(cfg, s, log).policy, Run(cfg, s, log).dram);
  }

  lemma {:induction false} KeepsSize(cfg: Config, s: State, log: seq<Event>)
    requires Inv(cfg, s) && Legal(cfg, s, log) && s.policy.Arc?
    ensures Run(cfg, s, log).policy.Arc? && Run(cfg, s, log).policy.arc.c == s.policy.arc.c
  {
    if log != [] {
      KeepsSize(cfg, s, log[..|log| - 1]);
      RunKeepsInv(cfg, s, log[..|log| - 1]);
      ArcStep(cfg, Run(cfg, s, log[..|log| - 1]), log[|log| - 1]);
    }
  }
}
