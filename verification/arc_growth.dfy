/** How many keys an ARC policy keeps books on: exactly when it stays at `2c`, and what becomes of it in
    a node where it does not. */
module ArcGrowth {
  import opened Status
  import opened Blocks
  import opened MapSums
  import opened PolicyOps
  import opened ArcPolicy
  import opened EvictionPolicy
  import opened NodeModel
  import opened NodeHistory
  import opened ArcRollback
  import D = DramTier
  import ArcBounds

  // ---- The policy alone ----

  /** A new key will shorten a ghost list. */
  predicate Pays(s: ArcState) {
    if |s.t1| + |s.b1| == s.c then s.b1 != []
    else |s.t1| + |s.b1| < s.c && s.b2 != []
  }

  /** The call brings a key that the policy does not know. */
  predicate BringsNew(s: ArcState, op: PolicyOp) {
    op.Insert? && op.key !in s.pos
  }

  /** A new key at the limit is paid for. */
  predicate PaysThroughout(s: ArcState, ops: seq<PolicyOp>) {
    ops == [] ||
    var before := ops[..|ops| - 1];
    var u := ArcBounds.Run(s, before);
    PaysThroughout(s, before) && (BringsNew(u, ops[|ops| - 1]) && u.Total() == 2 * u.c ==> Pays(u))
  }

  /** No state on the way knows more than `2c` keys. */
  predicate WithinThroughout(s: ArcState, ops: seq<PolicyOp>) {
    ArcBounds.Run(s, ops).Total() <= 2 * s.c && (ops == [] || WithinThroughout(s, ops[..|ops| - 1]))
  }

  lemma InsertTotal(s: ArcState, key: BlockKey)
    requires s.Valid() && s.Total() <= 2 * s.c
    ensures s.Admit(key).Total() <= 2 * s.c <==> (key !in s.pos && s.Total() == 2 * s.c ==> Pays(s))
  {
    if key in s.pos && !s.IsReserved(key) {
      UseKeeps(s, key);
    }
  }

  /** What a call does to the number of known keys: at the limit, only a new key can raise it, and it does
      unless it is paid for. */
  lemma TotalStep(s: ArcState, op: PolicyOp)
    requires s.Valid() && s.Total() <= 2 * s.c
    ensures ArcBounds.Step(s, op).Total() <= 2 * s.c <==> (BringsNew(s, op) && s.Total() == 2 * s.c ==> Pays(s))
  {
    match op
    case Access(k) => if k in s.pos && !s.IsReserved(k) { UseKeeps(s, k); }
    case Insert(k) => InsertTotal(s, k);
    case Remove(k) => UnlinkKeeps(s, k);
    case Commit(k) => if s.IsReserved(k) { DemoteKeeps(s, k, s.reserved.value.source); }
    case _ =>
  }

  /** Over every run, the policy keeps to `2c` keys if and only if each new key at the limit finds a
      ghost to replace. */
  lemma {:induction false} TotalIffPaid(capacity: nat, ops: seq<PolicyOp>)
    ensures WithinThroughout(Fresh(capacity), ops) <==> PaysThroughout(Fresh(capacity), ops)
    ensures ArcBounds.Run(Fresh(capacity), ops).Valid() && ArcBounds.Run(Fresh(capacity), ops).c == Fresh(capacity).c
  {
    if ops != [] {
      var before, last := ops[..|ops| - 1], ops[|ops| - 1];
      var s := ArcBounds.Run(Fresh(capacity), before);
      TotalIffPaid(capacity, before);
      ArcBounds.StepValid(s, last);
      if WithinThroughout(Fresh(capacity), before) {
        TotalStep(s, last);
      }
    }
  }

  lemma InsertThree(s: ArcState, a: BlockKey, b: BlockKey, d: BlockKey)
    ensures ArcBounds.Run(s, [Insert(a), Insert(b), Insert(d)]) == s.Admit(a).Admit(b).Admit(d)
  {
    var x, y, z := Insert(a), Insert(b), Insert(d);
    assert [x, y, z][..2] == [x, y] && [x, y][..1] == [x] && [x][..0] == [];
    assert ArcBounds.Run(s, [x]) == ArcBounds.Step(s, x);
  }

  lemma AdmitUnpaid(s: ArcState, key: BlockKey)
    requires key !in s.pos && s.reserved.None? && s.GhostToTrim().None?
    ensures s.Admit(key) == s.(t1 := [key] + s.t1, pos := s.pos[key := T1], lastHitInB2 := false)
  {
  }

  /** Three keys in a policy for one block. */
  lemma TotalFails(a: BlockKey, b: BlockKey, d: BlockKey)
    requires a != b && b != d && a != d
    ensures ArcBounds.Run(Fresh(1), [Insert(a), Insert(b), Insert(d)]).Total() == 3
  {
    InsertThree(Fresh(1), a, b, d);
    AdmitUnpaid(Fresh(1), a);
    AdmitUnpaid(Fresh(1).Admit(a), b);
    AdmitUnpaid(Fresh(1).Admit(a).Admit(b), d);
  }

  // ---- Inside a node ----

  /** T1 and B1 have outgrown the size that the trimming rule compares them with. */
  predicate Overflowing(a: ArcState) {
    a.c < |a.t1| + |a.b1|
  }

  /** A put of a key that the policy does not know, or room made for one. */
  ghost predicate Feeds(s: State, e: Event) {
    s.policy.Arc? && ((e.PutDram? && e.key !in s.policy.arc.pos) || e.Demote?)
  }

  lemma DemoteInNode(cfg: Config, s: State, e: Event)
    requires PolicyInv(s.policy, s.dram.Keys) && s.policy.Arc? && Enabled(cfg, s, e) && e.Demote?
    ensures Apply(cfg, s, e).policy.Arc?
    ensures var a, b := s.policy.arc, Apply(cfg, s, e).policy.arc;
            && b.c == a.c && b.Total() == a.Total() && |b.t1| + |b.b1| == |a.t1| + |a.b1| && b.pos.Keys == a.pos.Keys
  {
    var chosen := s.policy.arc.(reserved := s.policy.arc.ChooseVictim(e.replaced));
    ChooseVictimIsResident(s.policy.arc, e.replaced);
    DemoteKeeps(chosen, e.victim, chosen.reserved.value.source);
  }

  lemma PutInNode(cfg: Config, s: State, e: Event)
    requires PolicyInv(s.policy, s.dram.Keys) && s.policy.Arc? && e.PutDram? && e.key !in s.policy.arc.pos
    ensures Apply(cfg, s, e).policy == Arc(s.policy.arc.AdmitNew(e.key))
  {
    assert e.key !in s.policy.Residents();
  }

  /** While T1 and B1 overflow, every new key is one more, and making room takes none away. */
  lemma FeedStep(cfg: Config, s: State, e: Event)
    requires Inv(cfg, s) && Enabled(cfg, s, e) && Feeds(s, e) && Overflowing(s.policy.arc)
    ensures Apply(cfg, s, e).policy.Arc?
    ensures var a, b := s.policy.arc, Apply(cfg, s, e).policy.arc;
            && Overflowing(b) && b.c == a.c && b.Total() == a.Total() + (if e.PutDram? then 1 else 0)
            && b.pos.Keys == a.pos.Keys + (if e.PutDram? then {e.key} else {})
  {
    if e.Demote? {
      DemoteInNode(cfg, s, e);
    } else {
      PutInNode(cfg, s, e);
      ArcBounds.OverflowIsNeverTrimmed(s.policy.arc, e.key);
    }
  }

  ghost predicate FeedsThroughout(cfg: Config, s: State, log: seq<Event>) {
    log == [] ||
    (FeedsThroughout(cfg, s, log[..|log| - 1]) && Feeds(Run(cfg, s, log[..|log| - 1]), log[|log| - 1]))
  }

  function CountPuts(log: seq<Event>): nat {
    if log == [] then 0 else CountPuts(log[..|log| - 1]) + if log[|log| - 1].PutDram? then 1 else 0
  }

  /** Over every run of puts of new keys, with whatever demotions they need, an overflowing policy gains
      one key for each put, although DRAM keeps to its capacity. */
  lemma {:induction false} EveryPutIsKept(cfg: Config, s: State, log: seq<Event>)
    requires Inv(cfg, s) && Legal(cfg, s, log) && FeedsThroughout(cfg, s, log) && s.policy.Arc? && Overflowing(s.policy.arc)
    ensures var u := Run(cfg, s, log);
            && Inv(cfg, u) && u.policy.Arc? && Overflowing(u.policy.arc)
            && u.policy.arc.Total() == s.policy.arc.Total() + CountPuts(log)
  {
    if log != [] {
      var before := log[..|log| - 1];
      EveryPutIsKept(cfg, s, before);
      FeedStep(cfg, Run(cfg, s, before), log[|log| - 1]);
      ApplyKeepsInv(cfg, Run(cfg, s, before), log[|log| - 1]);
    }
  }

  // ---- Without limit ----

  /** The node's policy is ARC and knows `n` keys. */
  predicate Knows(s: State, n: nat) {
    s.policy.Arc? && s.policy.arc.Total() == n
  }

  ghost predicate AllPlain(dram: map<BlockKey, D.Entry>, size: nat)
    requires size < TWO_63
  {
    forall k :: k in dram ==> k.prefixHash < TWO_64 && k == NthKey(k.prefixHash) && dram[k].block == Plain(size)
  }

  ghost predicate KnownBelow(a: ArcState, n: nat) {
    forall k :: k in a.pos ==> k.prefixHash < n
  }

  /** The policy knows `n` keys, the first ones, and DRAM holds some of them. */
  ghost predicate Fed(s: State, n: nat, size: nat)
    requires size < TWO_63
  {
    s.policy.Arc? && s.policy.arc.Total() == n && KnownBelow(s.policy.arc, n) && AllPlain(s.dram, size)
  }

  /** The first puts all stay in T1, and nothing is trimmed. */
  ghost predicate Started(s: State, n: nat, size: nat, c: nat)
    requires size < TWO_63
  {
    Fed(s, n, size) && s.policy.arc.t2 == [] && s.policy.arc.b1 == [] && s.policy.arc.b2 == [] && s.policy.arc.c == c
  }

  lemma StartsEmpty(s: State, size: nat)
    requires s.dram == map[] && s.policy.Arc? && s.policy == s.policy.Reset() && size < TWO_63
    ensures Started(s, 0, size, s.policy.arc.c)
  {
  }

  lemma FirstPut(cfg: Config, s: State, n: nat, size: nat, c: nat)
    requires PolicyInv(s.policy, s.dram.Keys) && n < TWO_64 && size < TWO_63 && Started(s, n, size, c)
    ensures Started(Apply(cfg, s, PutDram(NthKey(n), Plain(size))), n + 1, size, c)
  {
    PutInNode(cfg, s, PutDram(NthKey(n), Plain(size)));
    assert s.policy.arc.GhostToTrim().None?;
  }

  lemma FirstPutsLegal(cfg: Config, s: State, n: nat, size: nat)
    requires Inv(cfg, s) && s.dram == map[] && cfg.hasDram && n <= TWO_64 && size < TWO_63 && RoomFor(cfg, n, size)
    ensures Legal(cfg, s, Puts(n, size)) && Inv(cfg, Run(cfg, s, Puts(n, size)))
  {
    PutsFit(cfg, s, n, size);
    RunKeepsInv(cfg, s, Puts(n, size));
  }

  lemma {:induction false} FirstPuts(cfg: Config, s: State, n: nat, size: nat)
    requires Inv(cfg, s) && s.dram == map[] && s.policy.Arc? && s.policy == s.policy.Reset()
    requires cfg.hasDram && n <= TWO_64 && size < TWO_63 && RoomFor(cfg, n, size)
    ensures Started(Run(cfg, s, Puts(n, size)), n, size, s.policy.arc.c)
  {
    if n == 0 {
      StartsEmpty(s, size);
    } else {
      RoomForFewer(cfg, n - 1, size);
      FirstPuts(cfg, s, n - 1, size);
      FirstPutsLegal(cfg, s, n - 1, size);
      FirstPut(cfg, Run(cfg, s, Puts(n - 1, size)), n - 1, size, s.policy.arc.c);
      RunStep(cfg, s, Puts(n - 1, size), PutDram(NthKey(n - 1), Plain(size)));
    }
  }

  /** One more key, given room. */
  lemma FeedPut(cfg: Config, s: State, n: nat, size: nat)
    requires Inv(cfg, s) && cfg.hasDram && n < TWO_64 && size < TWO_63 && Fed(s, n, size) && Overflowing(s.policy.arc)
    requires cfg.capacity == 0 || Footprint(s.dram, None, size) <= cfg.capacity
    ensures var e := PutDram(NthKey(n), Plain(size)); Enabled(cfg, s, e) && Feeds(s, e) && Fed(Apply(cfg, s, e), n + 1, size)
  {
    var e := PutDram(NthKey(n), Plain(size));
    assert e.key !in s.policy.Residents();
    RemoveAbsent(s.dram, e.key);
    FeedStep(cfg, s, e);
  }

  lemma FeedMore(cfg: Config, s: State, log: seq<Event>, e: Event)
    requires Legal(cfg, s, log) && FeedsThroughout(cfg, s, log)
    requires Enabled(cfg, Run(cfg, s, log), e) && Feeds(Run(cfg, s, log), e)
    ensures Legal(cfg, s, log + [e]) && FeedsThroughout(cfg, s, log + [e])
    ensures CountPuts(log + [e]) == CountPuts(log) + if e.PutDram? then 1 else 0
  {
    RunStep(cfg, s, log, e);
    assert (log + [e])[..|log|] == log;
  }

  /** One more key, for which a block is moved out if it does not fit. */
  lemma FeedOne(cfg: Config, s: State, n: nat, size: nat) returns (log: seq<Event>)
    requires Inv(cfg, s) && cfg.hasDram && cfg.hasSsd && n < TWO_64 && size < TWO_63 && RoomFor(cfg, 1, size)
    requires Fed(s, n, size) && Overflowing(s.policy.arc)
    ensures Legal(cfg, s, log) && FeedsThroughout(cfg, s, log)
    ensures Fed(Run(cfg, s, log), n + 1, size)
  {
    var put := PutDram(NthKey(n), Plain(size));
    log := [];
    var u := s;
    if 0 < cfg.capacity < Footprint(s.dram, None, size) {
      var demote := MakeWay(cfg, s, size);
      DemoteInNode(cfg, s, demote);
      ApplyKeepsInv(cfg, s, demote);
      FeedMore(cfg, s, [], demote);
      RunStep(cfg, s, [], demote);
      log, u := [] + [demote], Apply(cfg, s, demote);
    }
    FeedPut(cfg, u, n, size);
    FeedMore(cfg, s, log, put);
    RunStep(cfg, s, log, put);
    log := log + [put];
  }

  /** A full DRAM of equal blocks has one to move out, and then there is room for another. */
  lemma MakeWay(cfg: Config, s: State, size: nat) returns (e: Event)
    requires Inv(cfg, s) && cfg.hasSsd && size < TWO_63 && RoomFor(cfg, 1, size)
    requires s.policy.Arc? && AllPlain(s.dram, size)
    requires 0 < cfg.capacity < Footprint(s.dram, None, size)
    ensures e.Demote? && e.replaced == None && e.incoming == size && Enabled(cfg, s, e)
    ensures Footprint(Apply(cfg, s, e).dram, None, size) <= cfg.capacity
  {
    if s.dram == map[] {
      SumEmpty<BlockKey, D.Entry>(D.EntrySize);
      assert false;
    }
    var k :| k in s.dram;
    assert k in s.policy.Residents();
    ReserveKeeps(s.policy, None);
    var v := s.policy.Victim(None).value;
    SumRemove(s.dram, D.EntrySize, v);
    e := Demote(v, None, size);
  }

  /** The run is legal, and after it an overflowing policy knows `n` keys. */
  ghost predicate Grows(cfg: Config, s: State, log: seq<Event>, n: nat, size: nat)
    requires size < TWO_63
  {
    && Legal(cfg, s, log) && Inv(cfg, Run(cfg, s, log))
    && Fed(Run(cfg, s, log), n, size) && Overflowing(Run(cfg, s, log).policy.arc)
  }

  /** The first puts, one more than the policy is made for. */
  lemma GrowFirst(cfg: Config, s: State, size: nat, n: nat) returns (log: seq<Event>)
    requires Inv(cfg, s) && s.dram == map[] && s.policy.Arc? && s.policy == s.policy.Reset()
    requires cfg.hasDram && size < TWO_63 && n == s.policy.arc.c + 1 <= TWO_64 && RoomFor(cfg, n, size)
    ensures Grows(cfg, s, log, n, size)
  {
    FirstPuts(cfg, s, n, size);
    FirstPutsLegal(cfg, s, n, size);
    log := Puts(n, size);
  }

  /** And one more key. */
  lemma GrowMore(cfg: Config, s: State, before: seq<Event>, n: nat, size: nat) returns (log: seq<Event>)
    requires cfg.hasDram && cfg.hasSsd && n < TWO_64 && size < TWO_63 && RoomFor(cfg, 1, size)
    requires Grows(cfg, s, before, n, size)
    ensures Grows(cfg, s, log, n + 1, size)
  {
    var u := Run(cfg, s, before);
    var more := FeedOne(cfg, u, n, size);
    EveryPutIsKept(cfg, u, more);
    RunAppend(cfg, s, before, more);
    log := before + more;
  }

  lemma {:induction false} GrowTo(cfg: Config, s: State, size: nat, n: nat) returns (log: seq<Event>)
    requires Inv(cfg, s) && s.dram == map[] && s.policy.Arc? && s.policy == s.policy.Reset()
    requires cfg.hasDram && cfg.hasSsd && size < TWO_63
    requires RoomFor(cfg, s.policy.arc.c + 1, size) && RoomFor(cfg, 1, size)
    requires s.policy.arc.c < n <= TWO_64
    ensures Grows(cfg, s, log, n, size)
    decreases n
  {
    if n == s.policy.arc.c + 1 {
      log := GrowFirst(cfg, s, size, n);
    } else {
      log := GrowTo(cfg, s, size, n - 1);
      log := GrowMore(cfg, s, log, n - 1, size);
    }
  }

  /** Unless DRAM is limited to `c` blocks of the least size, a node with SSD has, for every number of
      keys that differ in their prefix hash, a run after which the policy knows that many. */
  lemma ArcGrowsInNode(cfg: Config, s: State, least: nat, n: nat) returns (log: seq<Event>)
    requires Inv(cfg, s) && s.dram == map[] && s.policy.Arc? && s.policy == s.policy.Reset()
    requires cfg.hasDram && cfg.hasSsd && least < TWO_63 && Roomier(cfg, least, s.policy.arc.c)
    requires s.policy.arc.c < n <= TWO_64
    ensures Legal(cfg, s, log) && Knows(Run(cfg, s, log), n) && AllPlain(Run(cfg, s, log).dram, least)
  {
    RoomierHolds(cfg, least, s.policy.arc.c);
    RoomForOne(cfg, s.policy.arc.c + 1, least);
    log := GrowTo(cfg, s, least, n);
  }

  lemma {:induction false} RoomForOne(cfg: Config, n: nat, size: nat)
    requires 0 < n && RoomFor(cfg, n, size)
    ensures RoomFor(cfg, 1, size)
  {
    if n > 1 {
      RoomForFewer(cfg, n - 1, size);
      RoomForOne(cfg, n - 1, size);
    }
  }

  // ---- Without SSD ----

  lemma NoGhosts(a: ArcState)
    requires a.Valid() && Ghosts(a) == {}
    ensures a.Total() == a.ResidentCount()
  {
    DistinctCount(a.b1);
    DistinctCount(a.b2);
    assert (set k | k in a.b1) <= Ghosts(a) && (set k | k in a.b2) <= Ghosts(a);
  }

  /** Without SSD the policy knows the DRAM keys and no others, over every run. */
  lemma NoSinkNoGhosts(cfg: Config, s: State, log: seq<Event>)
    requires Inv(cfg, s) && Legal(cfg, s, log) && !cfg.hasSsd && s.policy.Arc? && GhostsOnSsd(s)
    ensures Run(cfg, s, log).policy.Arc? && Run(cfg, s, log).policy.arc.Total() == |Run(cfg, s, log).dram|
  {
    GhostsStayOnSsd(cfg, s, log);
    RunKeepsInv(cfg, s, log);
    var u := Run(cfg, s, log);
    NoGhosts(u.policy.arc);
    ResidentsCounted(u.policy, u.dram);
  }

  lemma {:induction false} SizesRun(cfg: Config, s: State, log: seq<Event>, least: nat)
    requires Legal(cfg, s, log) && SizesAtLeast(s, least) && forall i :: 0 <= i < |log| ==> WritesAtLeast(log[i], least)
    ensures SizesAtLeast(Run(cfg, s, log), least)
  {
    if log != [] {
      var before := log[..|log| - 1];
      forall i | 0 <= i < |before|
        ensures WritesAtLeast(before[i], least)
      {
        assert WritesAtLeast(log[i], least);
      }
      SizesRun(cfg, s, before, least);
      assert WritesAtLeast(log[|log| - 1], least);
      SizesStay(cfg, Run(cfg, s, before), log[|log| - 1], least);
    }
  }

  lemma AtMost(n: nat, least: nat, capacity: nat)
    requires 0 < least && n * least <= capacity
    ensures n <= capacity / least
  {
    assert capacity < (capacity / least + 1) * least;
    if capacity / least < n {
      MulMonotone(capacity / least + 1, n, least);
    }
  }

  /** So it keeps to `n` keys if DRAM holds no more blocks of the least size than that. */
  lemma NoSinkWithin(cfg: Config, s: State, log: seq<Event>, least: nat, n: nat)
    requires Inv(cfg, s) && Legal(cfg, s, log) && !cfg.hasSsd && s.policy.Arc? && GhostsOnSsd(s)
    requires SizesAtLeast(s, least) && forall i :: 0 <= i < |log| ==> WritesAtLeast(log[i], least)
    requires !Roomier(cfg, least, n)
    ensures Run(cfg, s, log).policy.Arc? && Run(cfg, s, log).policy.arc.Total() <= n
  {
    var u := Run(cfg, s, log);
    NoSinkNoGhosts(cfg, s, log);
    SizesRun(cfg, s, log, least);
    RunKeepsInv(cfg, s, log);
    SumAtLeast(u.dram, D.EntrySize, least);
    AtMost(|u.dram|, least, cfg.capacity);
  }

  /** And after `n` puts that fit, ARC knows `n` keys. */
  lemma AsManyAsFit(cfg: Config, s: State, size: nat, n: nat)
    requires Inv(cfg, s) && s.dram == map[] && s.policy.Arc? && s.policy == s.policy.Reset()
    requires cfg.hasDram && size < TWO_63 && n <= TWO_64 && RoomFor(cfg, n, size)
    ensures Legal(cfg, s, Puts(n, size))
    ensures Run(cfg, s, Puts(n, size)).policy.Arc? && Run(cfg, s, Puts(n, size)).policy.arc.Total() == n
  {
    FirstPuts(cfg, s, n, size);
    FirstPutsLegal(cfg, s, n, size);
  }

  /** So some run of a new node has more than `n` if DRAM holds more. */
  lemma NoSinkExceeds(cfg: Config, s: State, least: nat, n: nat)
    requires Inv(cfg, s) && s.dram == map[] && s.policy.Arc? && s.policy == s.policy.Reset()
    requires cfg.hasDram && least < TWO_63 && n < TWO_64 && Roomier(cfg, least, n)
    ensures exists log: seq<Event> :: Legal(cfg, s, log) && Knows(Run(cfg, s, log), n + 1)
  {
    RoomierHolds(cfg, least, n);
    AsManyAsFit(cfg, s, least, n + 1);
    assert Knows(Run(cfg, s, Puts(n + 1, least)), n + 1);
  }
}
