/** When room can be made in DRAM: which blocks must go, and whether SSD accepts every one of them. */
module NodeRoom {
  import opened Status
  import opened Blocks
  import opened MapSums
  import opened Recency
  import opened EvictionPolicy
  import opened NodeModel
  import D = DramTier

  /** Every DRAM block could be written to SSD. */
  ghost predicate AllConsistent(dram: map<BlockKey, D.Entry>) {
    forall k :: k in dram ==> Consistent(k, dram[k].block.metadata)
  }

  /** The policy's victims, moved out one after another until the bytes fit, are all acceptable to SSD. */
  ghost predicate Clears(capacity: nat, dram: map<BlockKey, D.Entry>, policy: PolicyState,
                         replaced: Option<BlockKey>, incoming: nat)
    decreases |dram|
  {
    Footprint(dram, replaced, incoming) <= capacity ||
    match policy.Victim(replaced)
    case None => false
    case Some(v) =>
      && v in dram && Consistent(v, dram[v].block.metadata)
      && (CountRemove(dram, v); Clears(capacity, dram - {v}, policy.Reserve(replaced).Committed(), replaced, incoming))
  }

  /** What an attempt to make room comes to if nothing fails. */
  ghost function RoomStatus(cfg: Config, s: State, replaced: Option<BlockKey>, incoming: nat): StatusCode {
    var footprint := Footprint(s.dram, replaced, incoming);
    if cfg.capacity == 0 || footprint <= cfg.capacity then OK
    else if TWO_64 <= footprint || s.policy == NoPolicy || !cfg.hasSsd then OutOfCapacity
    else if Clears(cfg.capacity, s.dram, s.policy, replaced, incoming) then OK
    else InvalidArgument
  }

  lemma ClearsStep(capacity: nat, dram: map<BlockKey, D.Entry>, policy: PolicyState,
                   replaced: Option<BlockKey>, incoming: nat, v: BlockKey)
    requires capacity < Footprint(dram, replaced, incoming) && policy.Victim(replaced) == Some(v)
    requires v in dram && Consistent(v, dram[v].block.metadata)
    ensures Clears(capacity, dram, policy, replaced, incoming) <==>
            Clears(capacity, dram - {v}, policy.Reserve(replaced).Committed(), replaced, incoming)
  {
  }

  /** A demotion on the way does not change that. */
  lemma RoomAfterDemotion(cfg: Config, s: State, v: BlockKey, replaced: Option<BlockKey>, incoming: nat)
    requires Enabled(cfg, s, Demote(v, replaced, incoming)) && Footprint(s.dram, replaced, incoming) < TWO_64
    requires s.policy != NoPolicy
    ensures RoomStatus(cfg, Apply(cfg, s, Demote(v, replaced, incoming)), replaced, incoming) ==
            RoomStatus(cfg, s, replaced, incoming)
  {
    FootprintFalls(s.dram, v, replaced, incoming);
    ClearsStep(cfg.capacity, s.dram, s.policy, replaced, incoming, v);
  }

  /** A victim that SSD does not accept ends the attempt. */
  lemma RoomAtBadVictim(cfg: Config, s: State, v: BlockKey, replaced: Option<BlockKey>, incoming: nat)
    requires cfg.hasSsd && s.policy != NoPolicy && 0 < cfg.capacity < Footprint(s.dram, replaced, incoming) < TWO_64
    requires s.policy.Victim(replaced) == Some(v) && v in s.dram && !Consistent(v, s.dram[v].block.metadata)
    ensures RoomStatus(cfg, s, replaced, incoming) == InvalidArgument
  {
  }

  lemma FootprintFalls(dram: map<BlockKey, D.Entry>, v: BlockKey, replaced: Option<BlockKey>, incoming: nat)
    ensures Footprint(dram - {v}, replaced, incoming) <= Footprint(dram, replaced, incoming)
  {
    if replaced.Some? {
      SumSubmap(dram - {v} - {replaced.value}, dram - {replaced.value}, D.EntrySize);
    } else {
      SumSubmap(dram - {v}, dram, D.EntrySize);
    }
  }

  /** A block that is larger than what must be kept always leaves something to demote. */
  lemma VictimExists(capacity: nat, dram: map<BlockKey, D.Entry>, policy: PolicyState,
                     replaced: Option<BlockKey>, incoming: nat)
    requires PolicyInv(policy, dram.Keys) && policy != NoPolicy
    requires replaced.Some? ==> replaced.value in dram
    requires incoming <= capacity < Footprint(dram, replaced, incoming)
    ensures policy.Victim(replaced).Some? && policy.Victim(replaced).value in dram && policy.Victim(replaced) != replaced
  {
    ReserveKeeps(policy, replaced);
    SumEmpty<BlockKey, D.Entry>(D.EntrySize);
    var rest := if replaced.Some? then dram - {replaced.value} else dram;
    assert rest != map[];
    var k :| k in rest;
    assert k in policy.Residents() && replaced != Some(k);
  }

  /** If SSD accepts every DRAM block, room is always made. */
  lemma {:induction false} ConsistentClears(capacity: nat, dram: map<BlockKey, D.Entry>, policy: PolicyState,
                                            replaced: Option<BlockKey>, incoming: nat)
    requires PolicyInv(policy, dram.Keys) && policy != NoPolicy && AllConsistent(dram)
    requires (replaced.Some? ==> replaced.value in dram) && incoming <= capacity
    ensures Clears(capacity, dram, policy, replaced, incoming)
    decreases |dram|
  {
    if capacity < Footprint(dram, replaced, incoming) {
      VictimExists(capacity, dram, policy, replaced, incoming);
      var v := policy.Victim(replaced).value;
      DemoteKeepsPolicy(policy, dram.Keys, replaced);
      CountRemove(dram, v);
      assert (dram - {v}).Keys == dram.Keys - {v};
      ConsistentClears(capacity, dram - {v}, policy.Reserve(replaced).Committed(), replaced, incoming);
    }
  }

  // ---- LRU ----

  /** The residents that may have to go, most recent first. */
  function Others(order: seq<BlockKey>, replaced: Option<BlockKey>): seq<BlockKey> {
    if replaced.Some? then Without(order, replaced.value) else order
  }

  ghost predicate Acceptable(dram: map<BlockKey, D.Entry>, out: seq<BlockKey>) {
    forall k :: k in out ==> k in dram && Consistent(k, dram[k].block.metadata)
  }

  ghost function Less(dram: map<BlockKey, D.Entry>, out: seq<BlockKey>): map<BlockKey, D.Entry> {
    map k | k in dram && k !in out :: dram[k]
  }

  lemma LessOne(dram: map<BlockKey, D.Entry>, out: seq<BlockKey>, v: BlockKey)
    requires v !in out
    ensures Less(dram, out + [v]) == Less(dram - {v}, out)
    ensures Acceptable(dram, out + [v]) <==>
            v in dram && Consistent(v, dram[v].block.metadata) && Acceptable(dram - {v}, out)
  {
    assert v in out + [v];
    assert forall k :: k in out ==> k in out + [v];
  }

  /** Moving these out is enough, and SSD accepts them. */
  ghost predicate OutClears(capacity: nat, dram: map<BlockKey, D.Entry>, out: seq<BlockKey>,
                            replaced: Option<BlockKey>, incoming: nat)
  {
    Acceptable(dram, out) && Footprint(Less(dram, out), replaced, incoming) <= capacity
  }

  lemma OutOne(capacity: nat, dram: map<BlockKey, D.Entry>, out: seq<BlockKey>, v: BlockKey,
               replaced: Option<BlockKey>, incoming: nat)
    requires v !in out
    ensures OutClears(capacity, dram, out + [v], replaced, incoming) <==>
            v in dram && Consistent(v, dram[v].block.metadata) && OutClears(capacity, dram - {v}, out, replaced, incoming)
  {
    LessOne(dram, out, v);
  }

  /** The `n` oldest of them, most recent first. */
  function Oldest(others: seq<BlockKey>, n: nat): seq<BlockKey>
    requires n <= |others|
  {
    others[|others| - n..]
  }

  /** Moving out the `n` oldest is enough, and SSD accepts them. */
  ghost predicate OldestClear(capacity: nat, dram: map<BlockKey, D.Entry>, order: seq<BlockKey>,
                              replaced: Option<BlockKey>, incoming: nat, n: nat)
  {
    var others := Others(order, replaced);
    n <= |others| && OutClears(capacity, dram, Oldest(others, n), replaced, incoming)
  }

  lemma {:induction false} LastStays<T(!new)>(s: seq<T>, x: T)
    requires s != [] && s[|s| - 1] != x
    ensures var r := Without(s, x); r != [] && r[|r| - 1] == s[|s| - 1] && r[..|r| - 1] == Without(s[..|s| - 1], x)
  {
    if |s| > 1 {
      LastStays(s[1..], x);
      assert s[1..][..|s| - 2] == s[..|s| - 1][1..];
    }
  }

  lemma {:induction false} LastGoes<T(!new)>(s: seq<T>, x: T)
    requires s != [] && s[|s| - 1] == x
    ensures Without(s, x) == Without(s[..|s| - 1], x)
  {
    if |s| > 1 {
      LastGoes(s[1..], x);
      assert s[1..][..|s| - 2] == s[..|s| - 1][1..];
    }
  }

  /** The victim is the last of them. */
  lemma {:induction false} VictimIsLast(order: seq<BlockKey>, replaced: Option<BlockKey>)
    ensures OldestExcept(order, replaced) ==
            var others := Others(order, replaced); if others == [] then None else Some(others[|others| - 1])
  {
    if order != [] && replaced.Some? {
      if order[|order| - 1] == replaced.value {
        LastGoes(order, replaced.value);
        VictimIsLast(order[..|order| - 1], replaced);
      } else {
        LastStays(order, replaced.value);
      }
    }
  }

  lemma {:induction false} WithoutCommutes<T(!new)>(s: seq<T>, x: T, y: T)
    ensures Without(Without(s, x), y) == Without(Without(s, y), x)
  {
    if s != [] {
      WithoutCommutes(s[1..], x, y);
    }
  }

  /** When it has gone, the others are the same less the last. */
  lemma OthersAfter(order: seq<BlockKey>, replaced: Option<BlockKey>)
    requires Distinct(order) && Others(order, replaced) != []
    ensures var others := Others(order, replaced);
            Others(Without(order, others[|others| - 1]), replaced) == others[..|others| - 1]
  {
    var others := Others(order, replaced);
    var v := others[|others| - 1];
    if replaced.Some? {
      WithoutCommutes(order, v, replaced.value);
      WithoutDistinct(order, replaced.value);
    }
    LastGoes(others, v);
    PopDistinct(others);
    WithoutDistinct(others[..|others| - 1], v);
  }

  lemma OldestOfRest(others: seq<BlockKey>, n: nat)
    requires n < |others|
    ensures Oldest(others, n + 1) == Oldest(others[..|others| - 1], n) + [others[|others| - 1]]
    ensures others[|others| - 1] !in others[..|others| - 1] ==> others[|others| - 1] !in Oldest(others[..|others| - 1], n)
  {
    var rest := others[..|others| - 1];
    assert rest == rest[..|rest| - n] + Oldest(rest, n);
  }

  /** The `n + 1` oldest are the `n` oldest once the oldest has gone, and it. */
  lemma OldestMore(order: seq<BlockKey>, replaced: Option<BlockKey>, n: nat, fewer: seq<BlockKey>)
    requires Distinct(order) && n < |Others(order, replaced)|
    requires fewer == Others(Without(order, Others(order, replaced)[|Others(order, replaced)| - 1]), replaced)
    ensures var others := Others(order, replaced);
            var v := others[|others| - 1];
            && |fewer| == |others| - 1 && v !in Oldest(fewer, n)
            && Oldest(others, n + 1) == Oldest(fewer, n) + [v]
  {
    OthersAfter(order, replaced);
    LastApart(order, replaced);
    OldestOfRest(Others(order, replaced), n);
  }

  lemma OneMoreOut(capacity: nat, dram: map<BlockKey, D.Entry>, order: seq<BlockKey>,
                   replaced: Option<BlockKey>, incoming: nat, n: nat)
    requires Distinct(order) && Others(order, replaced) != []
    ensures var others := Others(order, replaced);
            var v := others[|others| - 1];
            OldestClear(capacity, dram, order, replaced, incoming, n + 1) <==>
            && v in dram && Consistent(v, dram[v].block.metadata)
            && OldestClear(capacity, dram - {v}, Without(order, v), replaced, incoming, n)
  {
    var others := Others(order, replaced);
    var v := others[|others| - 1];
    if n < |others| {
      var fewer := Others(Without(order, v), replaced);
      OldestMore(order, replaced, n, fewer);
      OutOne(capacity, dram, Oldest(fewer, n), v, replaced, incoming);
    } else {
      OthersAfter(order, replaced);
    }
  }

  lemma LastApart(order: seq<BlockKey>, replaced: Option<BlockKey>)
    requires Distinct(order) && Others(order, replaced) != []
    ensures var others := Others(order, replaced); others[|others| - 1] !in others[..|others| - 1]
  {
    if replaced.Some? {
      WithoutDistinct(order, replaced.value);
    }
    PopDistinct(Others(order, replaced));
  }

  /** Under LRU, room is made if and only if the oldest blocks that must go all fit their keys. */
  lemma {:induction false} LruClears(capacity: nat, dram: map<BlockKey, D.Entry>, policy: PolicyState,
                                     replaced: Option<BlockKey>, incoming: nat)
    requires PolicyInv(policy, dram.Keys) && policy.Lru?
    ensures Clears(capacity, dram, policy, replaced, incoming) <==>
            exists n: nat :: OldestClear(capacity, dram, policy.lru.order, replaced, incoming, n)
    decreases |dram|
  {
    var order := policy.lru.order;
    var others := Others(order, replaced);
    VictimIsLast(order, replaced);
    NoneOut(capacity, dram, order, replaced, incoming);
    if capacity < Footprint(dram, replaced, incoming) && others != [] {
      var v := others[|others| - 1];
      LruDemotes(dram, policy, replaced, v);
      OneMoreOutForAll(capacity, dram, order, replaced, incoming);
      if Consistent(v, dram[v].block.metadata) {
        LruClears(capacity, dram - {v}, policy.Reserve(replaced).Committed(), replaced, incoming);
        ClearsStep(capacity, dram, policy, replaced, incoming, v);
      }
    }
  }

  lemma LruDemotes(dram: map<BlockKey, D.Entry>, policy: PolicyState, replaced: Option<BlockKey>, v: BlockKey)
    requires PolicyInv(policy, dram.Keys) && policy.Lru? && policy.Victim(replaced) == Some(v)
    ensures v in dram && |dram - {v}| < |dram|
    ensures var next := policy.Reserve(replaced).Committed();
            PolicyInv(next, (dram - {v}).Keys) && next.Lru? && next.lru.order == Without(policy.lru.order, v)
  {
    ReserveKeeps(policy, replaced);
    CountRemove(dram, v);
    DemoteKeepsPolicy(policy, dram.Keys, replaced);
    assert (dram - {v}).Keys == dram.Keys - {v};
  }

  lemma NoneOut(capacity: nat, dram: map<BlockKey, D.Entry>, order: seq<BlockKey>, replaced: Option<BlockKey>, incoming: nat)
    ensures OldestClear(capacity, dram, order, replaced, incoming, 0) <==> Footprint(dram, replaced, incoming) <= capacity
  {
    var others := Others(order, replaced);
    assert Oldest(others, 0) == [];
    assert Less(dram, []) == dram;
  }

  lemma OneMoreOutForAll(capacity: nat, dram: map<BlockKey, D.Entry>, order: seq<BlockKey>,
                         replaced: Option<BlockKey>, incoming: nat)
    requires Distinct(order) && Others(order, replaced) != []
    requires !OldestClear(capacity, dram, order, replaced, incoming, 0)
    ensures var others := Others(order, replaced);
            var v := others[|others| - 1];
            (exists n: nat :: OldestClear(capacity, dram, order, replaced, incoming, n)) <==>
            && v in dram && Consistent(v, dram[v].block.metadata)
            && exists n: nat :: OldestClear(capacity, dram - {v}, Without(order, v), replaced, incoming, n)
  {
    var others := Others(order, replaced);
    var v := others[|others| - 1];
    if n: nat :| OldestClear(capacity, dram, order, replaced, incoming, n) {
      OneMoreOut(capacity, dram, order, replaced, incoming, n - 1);
    }
    if n: nat :| OldestClear(capacity, dram - {v}, Without(order, v), replaced, incoming, n) {
      OneMoreOut(capacity, dram, order, replaced, incoming, n);
    }
  }
}
