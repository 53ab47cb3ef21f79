/** One storage node (src/store/storage_node.cpp): DRAM over SSD, an index and an eviction policy.
    Tiers are hottest first, of distinct types: none, DRAM, SSD, or DRAM and SSD.

    A branch whose guard is proved false is written as an assertion of the negated guard, and a
    std::terminate as a precondition of the call that would reach it. */
module StorageNode {
  import opened Status
  import opened Faults
  import opened Blocks
  import opened Buffers
  import opened TierListing
  import opened MapSums
  import opened EvictionPolicy
  import opened NodeModel
  import opened NodeRoom
  import D = DramTier
  import S = SsdTier
  import I = LocalIndex

  /** Every event of the log is a demotion that makes room for the same write. */
  ghost predicate OnlyDemotions(log: seq<Event>, replaced: Option<BlockKey>, incoming: nat) {
    forall i :: 0 <= i < |log| ==> log[i].Demote? && log[i].replaced == replaced && log[i].incoming == incoming
  }

  // ---- What a call did, and what its database was meanwhile ----

  /** The step writes the database, once. */
  predicate Commits(e: Event) {
    e.PutSsd? || e.Demote?
  }

  function Writes(log: seq<Event>): nat {
    if log == [] then 0 else Writes(log[..|log| - 1]) + if Commits(log[|log| - 1]) then 1 else 0
  }

  lemma {:induction false} WritesAppend(log: seq<Event>, more: seq<Event>)
    ensures Writes(log + more) == Writes(log) + Writes(more)
  {
    if more == [] {
      assert log + more == log;
    } else {
      WritesAppend(log, more[..|more| - 1]);
      assert (log + more)[..|log + more| - 1] == log + more[..|more| - 1];
    }
  }

  lemma WritesMore(log: seq<Event>, e: Event)
    ensures Writes(log + [e]) == Writes(log) + if Commits(e) then 1 else 0
  {
    assert (log + [e])[..|log|] == log;
  }

  ghost predicate PrefixIs(cfg: Config, s0: State, log: seq<Event>, disk: S.Database, i: nat, n: nat, u: State) {
    && 0 < n <= |log| && Commits(log[n - 1]) && Writes(log[..n]) == i + 1
    && Reaches(cfg, s0, log[..n], u) && S.Encodes(disk, u.ssd)
  }

  /** The database is the one after the `i`-th step of the log that writes one. */
  ghost predicate AtPrefix(cfg: Config, s0: State, log: seq<Event>, disk: S.Database, i: nat) {
    exists n: nat, u: State :: PrefixIs(cfg, s0, log, disk, i, n, u)
  }

  ghost predicate DiskAt(cfg: Config, s0: State, log: seq<Event>, before: seq<S.Database>, after: seq<S.Database>, j: int) {
    |before| <= j < |after| ==> AtPrefix(cfg, s0, log, after[j], j - |before|)
  }

  /** The databases written meanwhile are those after the writing steps of the log, in their order. */
  ghost predicate Durably(cfg: Config, s0: State, log: seq<Event>, before: seq<S.Database>, after: seq<S.Database>) {
    before <= after && |after| == |before| + Writes(log) && forall j :: DiskAt(cfg, s0, log, before, after, j)
  }

  /** The log leads from `s0` to `u`, and so does every database held on the way. */
  ghost predicate Took(cfg: Config, s0: State, log: seq<Event>, u: State, before: seq<S.Database>, after: seq<S.Database>) {
    Reaches(cfg, s0, log, u) && Durably(cfg, s0, log, before, after)
  }

  lemma TookNothing(cfg: Config, s: State, disks: seq<S.Database>)
    ensures Took(cfg, s, [], s, disks, disks)
  {
    ReachesSelf(cfg, s);
  }

  lemma AtWholeLog(cfg: Config, s0: State, log: seq<Event>, e: Event, u: State, disk: S.Database)
    requires Reaches(cfg, s0, log + [e], u) && S.Encodes(disk, u.ssd) && Commits(e)
    ensures AtPrefix(cfg, s0, log + [e], disk, Writes(log))
  {
    WritesMore(log, e);
    assert (log + [e])[..|log| + 1] == log + [e];
    assert PrefixIs(cfg, s0, log + [e], disk, Writes(log), |log| + 1, u);
  }

  lemma AtLaterPrefix(cfg: Config, s0: State, log: seq<Event>, s: State, more: seq<Event>, disk: S.Database, i: nat)
    requires Reaches(cfg, s0, log, s) && AtPrefix(cfg, s, more, disk, i)
    ensures AtPrefix(cfg, s0, log + more, disk, Writes(log) + i)
  {
    var n: nat, u: State :| PrefixIs(cfg, s, more, disk, i, n, u);
    ReachesAppend(cfg, s0, log, s, more[..n], u);
    WritesAppend(log, more[..n]);
    assert (log + more)[..|log| + n] == log + more[..n];
    assert PrefixIs(cfg, s0, log + more, disk, Writes(log) + i, |log| + n, u);
  }

  lemma AtEarlierPrefix(cfg: Config, s0: State, log: seq<Event>, more: seq<Event>, disk: S.Database, i: nat)
    requires AtPrefix(cfg, s0, log, disk, i)
    ensures AtPrefix(cfg, s0, log + more, disk, i)
  {
    var n: nat, u: State :| PrefixIs(cfg, s0, log, disk, i, n, u);
    assert (log + more)[..n] == log[..n];
    assert PrefixIs(cfg, s0, log + more, disk, i, n, u);
  }

  /** One more step that does not write the database. */
  lemma TookQuietly(cfg: Config, s0: State, log: seq<Event>, s: State, e: Event, before: seq<S.Database>, after: seq<S.Database>)
    requires Took(cfg, s0, log, s, before, after) && Enabled(cfg, s, e) && !Commits(e)
    ensures Took(cfg, s0, log + [e], Apply(cfg, s, e), before, after)
  {
    ReachesStep(cfg, s0, log, s, e);
    WritesMore(log, e);
    forall j
      ensures DiskAt(cfg, s0, log + [e], before, after, j)
    {
      assert DiskAt(cfg, s0, log, before, after, j);
      if |before| <= j < |after| {
        AtEarlierPrefix(cfg, s0, log, [e], after[j], j - |before|);
      }
    }
  }

  /** One more step that writes the database once. */
  lemma TookWriting(cfg: Config, s0: State, log: seq<Event>, s: State, e: Event,
                    before: seq<S.Database>, after: seq<S.Database>, disk: S.Database)
    requires Took(cfg, s0, log, s, before, after) && Enabled(cfg, s, e) && Commits(e)
    requires S.Encodes(disk, Apply(cfg, s, e).ssd)
    ensures Took(cfg, s0, log + [e], Apply(cfg, s, e), before, after + [disk])
  {
    ReachesStep(cfg, s0, log, s, e);
    WritesMore(log, e);
    AtWholeLog(cfg, s0, log, e, Apply(cfg, s, e), disk);
    forall j
      ensures DiskAt(cfg, s0, log + [e], before, after + [disk], j)
    {
      assert DiskAt(cfg, s0, log, before, after, j);
      if |before| <= j < |after| {
        AtEarlierPrefix(cfg, s0, log, [e], after[j], j - |before|);
      }
    }
  }

  /** One call after another. */
  lemma TookAppend(cfg: Config, s0: State, log: seq<Event>, s: State, more: seq<Event>, u: State,
                   before: seq<S.Database>, between: seq<S.Database>, after: seq<S.Database>)
    requires Took(cfg, s0, log, s, before, between) && Took(cfg, s, more, u, between, after)
    ensures Took(cfg, s0, log + more, u, before, after)
  {
    ReachesAppend(cfg, s0, log, s, more, u);
    WritesAppend(log, more);
    forall j
      ensures DiskAt(cfg, s0, log + more, before, after, j)
    {
      assert DiskAt(cfg, s0, log, before, between, j) && DiskAt(cfg, s, more, between, after, j);
      if |before| <= j < |between| {
        assert after[j] == between[j];
        AtEarlierPrefix(cfg, s0, log, more, after[j], j - |before|);
      } else if |between| <= j < |after| {
        AtLaterPrefix(cfg, s0, log, s, more, after[j], j - |between|);
      }
    }
  }

  lemma CancelUndoes(s: PolicyState, excluded: Option<BlockKey>)
    requires s.Reserved().None?
    ensures s.Reserve(excluded).Cancelled() == s
  {
  }

  /** Everything a demotion relies on, from the agreement. */
  lemma DemoteReady(cfg: Config, s: State, replaced: Option<BlockKey>, incoming: nat)
    requires Inv(cfg, s) && cfg.hasSsd && s.policy != NoPolicy
    requires replaced.Some? ==> replaced.value in s.dram
    requires 0 < cfg.capacity && incoming <= cfg.capacity < Footprint(s.dram, replaced, incoming)
    ensures s.policy.Reserved().None? && s.policy.Victim(replaced).Some?
    ensures s.policy.Reserve(replaced).Reserved() == s.policy.Victim(replaced)
    ensures s.policy.Reserve(replaced).Cancelled() == s.policy
    ensures var v := s.policy.Victim(replaced).value;
            && v in s.dram && v in s.index && s.index[v].tier == DramType && Some(v) != replaced
            && (Consistent(v, s.dram[v].block.metadata) ==>
                  && Enabled(cfg, s, Demote(v, replaced, incoming))
                  && Inv(cfg, Apply(cfg, s, Demote(v, replaced, incoming))))
  {
    VictimExists(cfg.capacity, s.dram, s.policy, replaced, incoming);
    ReserveKeeps(s.policy, replaced);
    CancelUndoes(s.policy, replaced);
    var v := s.policy.Victim(replaced).value;
    Agreement(cfg, s, v);
    if Consistent(v, s.dram[v].block.metadata) {
      ApplyKeepsInv(cfg, s, Demote(v, replaced, incoming));
    }
  }

  /** `log` is a run of demotions from `s0` to `s` that spares the replaced block. */
  ghost predicate MadeRoom(cfg: Config, s0: State, s: State, log: seq<Event>,
                           replaced: Option<BlockKey>, incoming: nat)
  {
    && Reaches(cfg, s0, log, s) && OnlyDemotions(log, replaced, incoming) && (log == [] ==> s == s0)
    && Spares(s0.dram, s.dram, replaced)
    && (s.policy == NoPolicy <==> s0.policy == NoPolicy)
    && (log != [] ==> cfg.hasSsd && s0.policy != NoPolicy)
  }

  /** DRAM lost some blocks, but not the replaced one. */
  ghost predicate Spares(before: map<BlockKey, D.Entry>, after: map<BlockKey, D.Entry>, replaced: Option<BlockKey>) {
    && after.Keys <= before.Keys && (forall k :: k in after ==> after[k] == before[k])
    && (replaced.Some? ==> replaced.value in before && replaced.value in after)
  }

  lemma SparesMore(before: map<BlockKey, D.Entry>, after: map<BlockKey, D.Entry>, replaced: Option<BlockKey>, v: BlockKey)
    requires Spares(before, after, replaced) && replaced != Some(v)
    ensures Spares(before, after - {v}, replaced)
  {
  }

  lemma MadeNoRoom(cfg: Config, s: State, replaced: Option<BlockKey>, incoming: nat, disks: seq<S.Database>)
    requires replaced.Some? ==> replaced.value in s.dram
    ensures MadeRoom(cfg, s, s, [], replaced, incoming) && Took(cfg, s, [], s, disks, disks)
  {
    TookNothing(cfg, s, disks);
  }

  lemma MadeMoreRoom(cfg: Config, s0: State, s: State, log: seq<Event>, v: BlockKey, replaced: Option<BlockKey>,
                     incoming: nat, before: seq<S.Database>, after: seq<S.Database>, disk: S.Database)
    requires MadeRoom(cfg, s0, s, log, replaced, incoming) && Took(cfg, s0, log, s, before, after)
    requires Enabled(cfg, s, Demote(v, replaced, incoming)) && Some(v) != replaced && s.policy != NoPolicy
    requires S.Encodes(disk, Apply(cfg, s, Demote(v, replaced, incoming)).ssd)
    ensures var e := Demote(v, replaced, incoming);
            && MadeRoom(cfg, s0, Apply(cfg, s, e), log + [e], replaced, incoming)
            && Took(cfg, s0, log + [e], Apply(cfg, s, e), before, after + [disk])
  {
    TookWriting(cfg, s0, log, s, Demote(v, replaced, incoming), before, after, disk);
    SparesMore(s0.dram, s.dram, replaced, v);
  }

  lemma FootprintIs(dram: map<BlockKey, D.Entry>, replaced: Option<BlockKey>, incoming: nat)
    requires replaced.Some? ==> replaced.value in dram
    ensures var size := if replaced.Some? then dram[replaced.value].block.Size() else 0;
            size <= D.Bytes(dram) && Footprint(dram, replaced, incoming) == D.Bytes(dram) - size + incoming
  {
    if replaced.Some? {
      SumRemove(dram, D.EntrySize, replaced.value);
    }
  }

  /** The DRAM footprint after the write, if 64 bits can count it. */
  function ProjectedBytes(used: nat, replaced: nat, incoming: nat): (r: Option<nat>)
    ensures used >= replaced && used - replaced + incoming < TWO_64 ==> r == Some(used - replaced + incoming)
    ensures r.Some? ==> replaced <= used && r.value == used - replaced + incoming < TWO_64
  {
    if used < replaced then None
    else if incoming > TWO_64 - 1 - (used - replaced) then None
    else Some(used - replaced + incoming)
  }

  /** The status is the expected one, unless something failed and so did the call. */
  predicate ComesTo(status: StatusCode, expected: StatusCode, loud: bool) {
    status == expected || (loud && status != OK)
  }

  /** Room is needed, and SSD refuses the block that would have to go first. */
  ghost predicate Stuck(cfg: Config, s: State, replaced: Option<BlockKey>, incoming: nat) {
    && cfg.hasSsd && 0 < cfg.capacity < Footprint(s.dram, replaced, incoming) < TWO_64
    && s.policy.Victim(replaced).Some?
    && var v := s.policy.Victim(replaced).value; v in s.dram && !Consistent(v, s.dram[v].block.metadata)
  }

  /** One round's decision, and the round itself. */
  datatype Verdict = Enough | Refused | NeedVictim

  datatype Round = Fitting | Stopped(code: StatusCode) | Demoted

  /** What a rolled-back DRAM put leaves behind: nothing, a used-up handle, or also the trace of an
      admission in the policy's bookkeeping. */
  datatype Residue = Nothing | Handle | Admission

  /** Demotions change no value. */
  lemma RoomKeepsValues(cfg: Config, s0: State, s: State, log: seq<Event>, replaced: Option<BlockKey>, incoming: nat)
    requires Inv(cfg, s0) && MadeRoom(cfg, s0, s, log, replaced, incoming)
    ensures Logical(s) == Logical(s0)
  {
    ReachesIsRun(cfg, s0, log, s);
    RunRefines(cfg, s0, log);
    DemotionsChangeNothing(Abs(s0), log, replaced, incoming);
  }

  lemma {:induction false} DemotionsChangeNothing(a: Abstract, log: seq<Event>, replaced: Option<BlockKey>, incoming: nat)
    requires OnlyDemotions(log, replaced, incoming)
    ensures Effects(a, log).live == a.live
  {
    if log != [] {
      DemotionsChangeNothing(a, log[..|log| - 1], replaced, incoming);
      assert log[|log| - 1].Demote?;
    }
  }

  lemma FitsAfterRoom(cfg: Config, dram: map<BlockKey, D.Entry>, key: BlockKey, incoming: nat)
    requires cfg.capacity == 0 || Footprint(dram, if key in dram then Some(key) else None, incoming) <= cfg.capacity
    ensures Fits(cfg, dram, key, incoming)
  {
    if key !in dram {
      assert dram - {key} == dram;
    }
  }

  /** What a DRAM put adds to the log after making room. */
  ghost function HotTail(key: BlockKey, block: Block, done: bool, left: Residue): seq<Event> {
    if done then [PutDram(key, block)]
    else match left
      case Nothing => []
      case Handle => [AbortWrite(key, block)]
      case Admission => [AbortAdmit(key, block)]
  }

  lemma AtMostOneStep(cfg: Config, s: State, u: State, tail: seq<Event>, disks: seq<S.Database>)
    requires Inv(cfg, s) && (tail == [] ==> u == s)
    requires tail != [] ==> |tail| == 1 && Enabled(cfg, s, tail[0]) && u == Apply(cfg, s, tail[0]) && !Commits(tail[0])
    ensures Inv(cfg, u) && Took(cfg, s, tail, u, disks, disks)
  {
    if tail == [] {
      TookNothing(cfg, s, disks);
    } else {
      var e := tail[0];
      assert tail == [e];
      OneStep(cfg, s, e, disks);
    }
  }

  /** How a DRAM put can end, once there is room: written, or rolled back up to what is left behind. */
  ghost predicate Landed(cfg: Config, s: State, u: State, key: BlockKey, block: Block, done: bool, left: Residue) {
    if done then u == Apply(cfg, s, PutDram(key, block))
    else
      match left
      case Nothing => u == s
      case Handle => u == s.(nextHandle := s.nextHandle + 1) && key !in s.dram
      case Admission =>
        u == s.(nextHandle := s.nextHandle + 1, policy := s.policy.Admit(key).Forget(key)) && key !in s.index
  }

  lemma HotOutcome(cfg: Config, s: State, u: State, key: BlockKey, block: Block, done: bool, left: Residue,
                   disks: seq<S.Database>)
    requires Inv(cfg, s) && cfg.hasDram && Fits(cfg, s.dram, key, block.Size()) && Landed(cfg, s, u, key, block, done, left)
    ensures Inv(cfg, u) && Took(cfg, s, HotTail(key, block, done, left), u, disks, disks)
  {
    AtMostOneStep(cfg, s, u, HotTail(key, block, done, left), disks);
  }

  lemma OneStep(cfg: Config, s: State, e: Event, disks: seq<S.Database>)
    requires Inv(cfg, s) && Enabled(cfg, s, e) && !Commits(e)
    ensures Inv(cfg, Apply(cfg, s, e)) && Took(cfg, s, [e], Apply(cfg, s, e), disks, disks)
  {
    ApplyKeepsInv(cfg, s, e);
    TookNothing(cfg, s, disks);
    TookQuietly(cfg, s, [], s, e, disks, disks);
    assert [] + [e] == [e];
  }

  lemma OneWrite(cfg: Config, s: State, e: Event, disks: seq<S.Database>, disk: S.Database)
    requires Inv(cfg, s) && Enabled(cfg, s, e) && Commits(e) && S.Encodes(disk, Apply(cfg, s, e).ssd)
    ensures Inv(cfg, Apply(cfg, s, e)) && Took(cfg, s, [e], Apply(cfg, s, e), disks, disks + [disk])
  {
    ApplyKeepsInv(cfg, s, e);
    TookNothing(cfg, s, disks);
    TookWriting(cfg, s, [], s, e, disks, disks, disk);
    assert [] + [e] == [e];
  }

  predicate HoldsInDram(cfg: Config, size: nat) {
    cfg.hasDram && (cfg.capacity == 0 || size <= cfg.capacity)
  }

  /** The DRAM block that a put of `key` replaces. */
  ghost function ReplacedBy(s: State, key: BlockKey): Option<BlockKey> {
    if key in s.dram then Some(key) else None
  }

  ghost predicate HotPut(room: seq<Event>, replaced: Option<BlockKey>, key: BlockKey, block: Block,
                         status: StatusCode, log: seq<Event>)
  {
    && OnlyDemotions(room, replaced, block.Size())
    && (if status == OK then log == room + [PutDram(key, block)]
        else log == room || log == room + [AbortWrite(key, block)] || log == room + [AbortAdmit(key, block)])
  }

  /** The steps a Put commits: demotions and the DRAM write, or the SSD write alone. A failed Put
      commits no write. */
  ghost predicate PutLog(cfg: Config, s: State, key: BlockKey, block: Block, status: StatusCode, log: seq<Event>) {
    if HoldsInDram(cfg, block.Size())
    then exists room: seq<Event> :: HotPut(room, ReplacedBy(s, key), key, block, status, log)
    else log == if status == OK then [PutSsd(key, block)] else []
  }

  lemma HotPutLog(cfg: Config, s: State, key: BlockKey, block: Block, status: StatusCode,
                  room: seq<Event>, tail: seq<Event>)
    requires HoldsInDram(cfg, block.Size())
    requires OnlyDemotions(room, ReplacedBy(s, key), block.Size())
    requires status == OK ==> tail == [PutDram(key, block)]
    requires status != OK ==> tail == [] || tail == [AbortWrite(key, block)] || tail == [AbortAdmit(key, block)]
    ensures PutLog(cfg, s, key, block, status, room + tail)
  {
    assert room + [] == room;
    assert HotPut(room, ReplacedBy(s, key), key, block, status, room + tail);
  }

  /** What a Put on an open node comes to if nothing fails. */
  ghost function PutStatus(cfg: Config, s: State, key: BlockKey, block: Block): StatusCode {
    if HoldsInDram(cfg, block.Size()) then RoomStatus(cfg, s, ReplacedBy(s, key), block.Size())
    else if !cfg.hasSsd then OutOfCapacity
    else if Consistent(key, block.metadata) then OK
    else InvalidArgument
  }

  /** A Put for which the first victim cannot be moved out. */
  ghost predicate PutStuck(cfg: Config, s: State, key: BlockKey, block: Block) {
    HoldsInDram(cfg, block.Size()) && Stuck(cfg, s, ReplacedBy(s, key), block.Size())
  }

  /** The DRAM copy that a promotion made, or what it left on the way. */
  ghost predicate PromotionLog(room: seq<Event>, key: BlockKey, block: Block, promoted: bool, log: seq<Event>) {
    && OnlyDemotions(room, None, block.Size())
    && (if promoted then log == room + [Promote(key)] else log == room || log == room + [AbortWrite(key, block)])
  }

  /** The steps a Get commits: a DRAM hit is recorded, an SSD hit may be promoted. */
  ghost predicate GetLog(s: State, key: BlockKey, status: StatusCode, promoted: bool, log: seq<Event>) {
    if status != OK then log == []
    else if key in s.dram then log == [Hit(key)]
    else key in s.ssd && exists room: seq<Event> :: PromotionLog(room, key, s.ssd[key], promoted, log)
  }

  /** An SSD hit is promoted if nothing fails. */
  ghost predicate Promotes(cfg: Config, s: State, size: nat) {
    HoldsInDram(cfg, size) && s.policy != NoPolicy && RoomStatus(cfg, s, None, size) == OK
  }

  /** After making room for a block that only SSD holds, it is still there and still not in DRAM. */
  lemma StillCold(cfg: Config, s0: State, s: State, log: seq<Event>, key: BlockKey, incoming: nat)
    requires Inv(cfg, s0) && Inv(cfg, s) && MadeRoom(cfg, s0, s, log, None, incoming)
    requires key in s0.ssd && key !in s0.dram
    ensures key in s.ssd && key !in s.dram && s.ssd[key] == s0.ssd[key]
    ensures key in s.index && s.index[key].tier == SsdType
  {
    RoomKeepsValues(cfg, s0, s, log, None, incoming);
    LogicalIsMerged(cfg, s0);
    LogicalIsMerged(cfg, s);
    assert key in Merged(s.dram, s.ssd) && Merged(s.dram, s.ssd)[key] == s0.ssd[key];
    Agreement(cfg, s, key);
  }

  /** Making room for a put does not move the key that is put. */
  lemma LocationStays(cfg: Config, s0: State, s: State, log: seq<Event>, key: BlockKey, incoming: nat)
    requires Inv(cfg, s0) && Inv(cfg, s) && MadeRoom(cfg, s0, s, log, ReplacedBy(s0, key), incoming)
    ensures key in s.dram <==> key in s0.dram
    ensures key in s.index <==> key in s0.index
    ensures key in s.index ==> s.index[key] == s0.index[key]
  {
    RoomKeepsValues(cfg, s0, s, log, ReplacedBy(s0, key), incoming);
    LogicalIsMerged(cfg, s0);
    LogicalIsMerged(cfg, s);
    assert key in Merged(s.dram, s.ssd) <==> key in Merged(s0.dram, s0.ssd);
    Agreement(cfg, s0, key);
    Agreement(cfg, s, key);
  }

  /** What a read answers, given the plain map it stands for; `quiet` says that nothing failed. */
  ghost predicate Answers(live: map<BlockKey, Block>, key: BlockKey, dst: MutableBuffer, quiet: bool,
                          status: StatusCode, view: BlockView)
  {
    && (status == OK ==> key in live && view == ViewOf(live[key]) && ReadStatus(dst, live[key]) == OK)
    && (status != OK ==> view == EMPTY_VIEW)
    && (quiet ==> status == if key in live then ReadStatus(dst, live[key]) else NotFound)
  }

  lemma MissAnswers(cfg: Config, s: State, key: BlockKey, dst: MutableBuffer)
    requires Inv(cfg, s) && key !in s.index
    ensures Answers(Logical(s), key, dst, true, NotFound, EMPTY_VIEW)
    ensures GetLog(s, key, NotFound, false, [])
  {
  }

  lemma HotAnswers(cfg: Config, s: State, key: BlockKey, dst: MutableBuffer, status: StatusCode, view: BlockView)
    requires Inv(cfg, s) && key in s.dram
    requires status == ReadStatus(dst, s.dram[key].block)
    requires view == if status == OK then ViewOf(s.dram[key].block) else EMPTY_VIEW
    ensures Answers(Logical(s), key, dst, true, status, view)
    ensures GetLog(s, key, status, false, if status == OK then [Hit(key)] else [])
  {
  }

  lemma ColdAnswers(cfg: Config, s: State, key: BlockKey, dst: MutableBuffer, quiet: bool,
                    status: StatusCode, view: BlockView, promoted: bool, log: seq<Event>)
    requires Inv(cfg, s) && key in s.ssd && key !in s.dram
    requires status == OK ==> ReadStatus(dst, s.ssd[key]) == OK
    requires quiet ==> status == ReadStatus(dst, s.ssd[key])
    requires view == if status == OK then ViewOf(s.ssd[key]) else EMPTY_VIEW
    requires if status == OK then exists room: seq<Event> :: PromotionLog(room, key, s.ssd[key], promoted, log)
             else log == []
    ensures Answers(Logical(s), key, dst, quiet, status, view)
    ensures GetLog(s, key, status, promoted, log)
  {
  }

  /** What a promotion's write adds to the log. */
  ghost function PromotionTail(key: BlockKey, block: Block, promoted: bool, wrote: bool): seq<Event> {
    if promoted then [Promote(key)] else if wrote then [AbortWrite(key, block)] else []
  }

  /** How a promotion can end, once there is room. */
  ghost predicate PromotionLanded(cfg: Config, s: State, u: State, key: BlockKey, promoted: bool, wrote: bool) {
    if promoted then u == Apply(cfg, s, Promote(key)) else u == s.(nextHandle := s.nextHandle + if wrote then 1 else 0)
  }

  lemma PromotionOutcome(cfg: Config, s: State, u: State, key: BlockKey, block: Block,
                         promoted: bool, wrote: bool, disks: seq<S.Database>)
    requires Inv(cfg, s) && cfg.hasDram && s.policy != NoPolicy
    requires key in s.ssd && key !in s.dram && block == s.ssd[key] && Fits(cfg, s.dram, key, block.Size())
    requires PromotionLanded(cfg, s, u, key, promoted, wrote)
    ensures Inv(cfg, u) && Took(cfg, s, PromotionTail(key, block, promoted, wrote), u, disks, disks)
  {
    AtMostOneStep(cfg, s, u, PromotionTail(key, block, promoted, wrote), disks);
  }

  /** Where a node is in its life: `encoded` says that the database is what the SSD tier last saw. */
  datatype Lifecycle = Lifecycle(ready: bool, published: bool, ssdOpen: bool, encoded: bool)

  /** What holds between any two public calls, open or not. */
  ghost predicate Coherent(cfg: Config, life: Lifecycle, s: State) {
    && (life.ssdOpen ==> life.ready)
    && (life.ready ==> life.published && (cfg.hasDram || cfg.hasSsd) && (cfg.hasSsd ==> life.ssdOpen))
    && (life.published ==> Inv(cfg, s) && life.encoded)
    && (!life.published ==> s.dram == map[] && PolicyInv(s.policy, {}))
  }

  // ---- Recovery ----

  /** A database that the SSD tier's Open accepts. */
  ghost predicate Reopens(disk: S.Database) {
    S.Intact(disk) && S.DiskBytes(disk) < TWO_64
  }

  ghost function Reversed(tiers: seq<TierType>): seq<TierType> {
    if tiers == [] then [] else Reversed(tiers[1..]) + [tiers[0]]
  }

  lemma ReversedEnds(tiers: seq<TierType>, count: nat)
    requires count <= |tiers|
    ensures Reversed(tiers[count..count]) == [] && Reversed(tiers[0..count]) == Reversed(tiers[..count])
  {
    assert tiers[count..count] == [] && tiers[0..count] == tiers[..count];
  }

  lemma ReversedMore(tiers: seq<TierType>, left: nat, count: nat)
    requires left < count <= |tiers|
    ensures Reversed(tiers[left..count]) == Reversed(tiers[left + 1..count]) + [tiers[left]]
  {
    assert tiers[left..count][1..] == tiers[left + 1..count];
  }

  /** What a tier lists of itself. */
  ghost function Inventory(tier: TierType, s: State, handleOf: BlockKey -> nat): map<BlockKey, BlockInfo> {
    if tier == DramType then D.Infos(s.dram) else S.Infos(s.ssd, handleOf)
  }

  /** The index `base` with a colder tier's blocks added. */
  ghost function Joined(base: map<BlockKey, Location>, tier: TierType, infos: map<BlockKey, BlockInfo>)
    : map<BlockKey, Location>
  {
    map k | k in base.Keys + infos.Keys :: if k in base then base[k] else Location(tier, infos[k].handle)
  }

  lemma JoinOne(base: map<BlockKey, Location>, tier: TierType, listed: map<BlockKey, BlockInfo>,
                key: BlockKey, info: BlockInfo)
    requires key !in listed
    ensures var before := Joined(base, tier, listed);
            Joined(base, tier, listed[key := info]) ==
            if key in before then before else before[key := Location(tier, info.handle)]
  {
  }

  /** The index built from the given tiers, hottest first. */
  ghost function JoinedTiers(tiers: seq<TierType>, s: State, handleOf: BlockKey -> nat): map<BlockKey, Location> {
    if tiers == [] then map[]
    else
      var last := tiers[|tiers| - 1];
      Joined(JoinedTiers(tiers[..|tiers| - 1], s, handleOf), last, Inventory(last, s, handleOf))
  }

  lemma JoinedNext(tiers: seq<TierType>, i: nat, s: State, handleOf: BlockKey -> nat)
    requires i < |tiers|
    ensures JoinedTiers(tiers[..i + 1], s, handleOf) ==
            Joined(JoinedTiers(tiers[..i], s, handleOf), tiers[i], Inventory(tiers[i], s, handleOf))
  {
    assert tiers[..i + 1][..i] == tiers[..i];
  }

  lemma JoinedEnds(tiers: seq<TierType>, s: State, handleOf: BlockKey -> nat)
    ensures JoinedTiers(tiers[..0], s, handleOf) == map[]
    ensures JoinedTiers(tiers[..|tiers|], s, handleOf) == JoinedTiers(tiers, s, handleOf)
  {
    assert tiers[..|tiers|] == tiers;
  }

  lemma JoinedHot(cfg: Config, s: State)
    ensures JoinedTiers([DramType], s, cfg.handleOf) == Recovered(cfg, s.dram, map[])
  {
    JoinedNext([DramType], 0, s, cfg.handleOf);
    assert Joined(map[], DramType, D.Infos(s.dram)) == Recovered(cfg, s.dram, map[]);
  }

  lemma JoinedCold(cfg: Config, dram: map<BlockKey, D.Entry>, ssd: map<BlockKey, Block>)
    ensures Joined(Recovered(cfg, dram, map[]), SsdType, S.Infos(ssd, cfg.handleOf)) == Recovered(cfg, dram, ssd)
  {
  }

  /** Recovering tier by tier, hottest first, finds for each key its hottest copy. */
  lemma JoinedIsRecovered(cfg: Config, tiers: seq<TierType>, s: State)
    requires tiers == (if cfg.hasDram then [DramType] else []) + (if cfg.hasSsd then [SsdType] else [])
    requires (!cfg.hasDram ==> s.dram == map[]) && (!cfg.hasSsd ==> s.ssd == map[])
    ensures JoinedTiers(tiers, s, cfg.handleOf) == Recovered(cfg, s.dram, s.ssd)
  {
    JoinedHot(cfg, s);
    if cfg.hasSsd {
      var last := |tiers| - 1;
      JoinedNext(tiers, last, s, cfg.handleOf);
      JoinedCold(cfg, s.dram, s.ssd);
      assert tiers[..last + 1] == tiers;
      if cfg.hasDram {
        assert tiers[..last] == [DramType];
      } else {
        assert Recovered(cfg, map[], map[]) == map[];
      }
    } else if !cfg.hasDram {
      assert Recovered(cfg, map[], map[]) == map[];
    }
  }

  /** The whole database decoded: each block fits its key. */
  lemma EncodedConsistent(disk: S.Database, contents: map<BlockKey, Block>)
    requires S.Encodes(disk, contents)
    ensures forall k :: k in contents ==> Consistent(k, contents[k].metadata)
  {
    forall k | k in contents
      ensures Consistent(k, contents[k].metadata)
    {
      assert S.HasRecord(disk, contents, k);
    }
  }

  /** A first Open establishes the agreement; a later one finds the index it had. */
  lemma OpenEstablishes(cfg: Config, life: Lifecycle, s: State, u: State)
    requires Coherent(cfg, life, s) && !life.ready && (cfg.hasDram || cfg.hasSsd)
    requires u == s.(index := Recovered(cfg, s.dram, u.ssd), ssd := u.ssd)
    requires (life.published ==> u.ssd == s.ssd) && (!cfg.hasSsd ==> u.ssd == map[])
    requires forall k :: k in u.ssd ==> Consistent(k, u.ssd[k].metadata)
    ensures Coherent(cfg, Lifecycle(true, true, cfg.hasSsd, true), u)
    ensures life.published ==> u == s
    ensures !life.published ==> u.index == Recovered(cfg, map[], u.ssd)
  {
    if !life.published {
      SumEmpty<BlockKey, D.Entry>(D.EntrySize);
    }
  }

  class StorageNode {
    const env: Environment
    const dram: D.DramTier?
    const ssd: S.SsdTier?
    const policy: EvictionPolicy
    const index: I.LocalIndex
    const handleOf: BlockKey -> nat
    var ready: bool
    ghost var published: bool  // an Open has succeeded

    ghost function Cfg(): Config {
      Config(dram != null, ssd != null, if dram == null then 0 else dram.capacityBytes, handleOf)
    }

    /** The node's stored state as a value. */
    ghost function Snap(): State
      reads this, index, dram, ssd, policy
    {
      State(
        index.table,
        if dram == null then map[] else dram.store,
        if dram == null then 1 else dram.nextHandle,
        if ssd == null then map[] else ssd.contents,
        policy.state)
    }

    /** The databases that the SSD tier has held. */
    ghost function Disks(): seq<S.Database>
      reads this, ssd
    {
      if ssd == null then [] else ssd.history
    }

    ghost predicate Wired()
      reads this, index, dram, ssd, policy
    {
      && index.env == env
      && policy.env == env
      && (dram != null ==> dram.env == env && dram.Valid())
      && (ssd != null ==> ssd.env == env && ssd.handleOf == handleOf && ssd.Valid())
    }

    ghost function Life(): Lifecycle
      reads this, ssd
    {
      Lifecycle(ready, published, ssd != null && ssd.open, ssd != null ==> S.Encodes(ssd.disk, ssd.contents))
    }

    /** A node over an empty DRAM tier and an empty policy; the SSD tier may hold records. */
    constructor (env: Environment, dram: D.DramTier?, ssd: S.SsdTier?, policy: EvictionPolicy, handleOf: BlockKey -> nat)
      requires dram != null ==> dram.env == env && dram.Valid() && dram.store == map[]
      requires ssd != null ==> ssd.env == env && ssd.handleOf == handleOf && ssd.Valid() && !ssd.open
      requires policy.env == env && PolicyInv(policy.state, {})
      ensures Wired() && Coherent(Cfg(), Life(), Snap()) && !ready && !published
      ensures this.env == env && this.dram == dram && this.ssd == ssd && this.policy == policy
      ensures this.handleOf == handleOf && fresh(index)
    {
      this.env, this.dram, this.ssd, this.policy, this.handleOf := env, dram, ssd, policy, handleOf;
      index := new I.LocalIndex(env);
      ready, published := false, false;
    }

    /** Copies a DRAM block out through the tier's read interface. */
    method ReadBlockLocked(key: BlockKey) returns (r: Result<Block>)
      requires dram != null && key in dram.store
      modifies env
      ensures old(env.injected) <= env.injected
      ensures r == Success(dram.store[key].block) || (r == Failure(OutOfCapacity) && old(env.injected) < env.injected)
    {
      var info := dram.Probe(key);
      assert info.Success?;
      var failed := env.Fails();
      if failed {
        return Failure(OutOfCapacity);
      }
      var dst := MutableBuffer(info.value.payloadSize == 0, info.value.payloadSize);
      var status, view := dram.Get(key, dst);
      assert status == OK && |view.data| == info.value.payloadSize;
      return Success(Block(view.metadata, view.data));
    }

    /** The migration of a chosen victim: read, preflight, persist, commit or cancel. */
    method MigrateVictim(v: BlockKey) returns (status: StatusCode)
      requires Wired() && dram != null && ssd != null && ssd.open
      requires policy.state.Reserved() == Some(v)
      requires v in dram.store && v in index.table && index.table[v].tier == DramType
      modifies index, env, dram, ssd, policy
      ensures Wired() && ssd.open && old(env.injected) <= env.injected
      ensures dram.nextHandle == old(dram.nextHandle)
      ensures status == OK ==>
        && index.table == old(index.table)[v := Location(SsdType, handleOf(v))]
        && dram.store == old(dram.store) - {v} && dram.numBlocks < old(dram.numBlocks)
        && ssd.contents == old(ssd.contents)[v := old(dram.store)[v].block]
        && policy.state == old(policy.state).Committed()
        && Consistent(v, old(dram.store)[v].block.metadata) && ssd.history == old(ssd.history) + [ssd.disk]
      ensures status != OK ==>
        && status in {OutOfCapacity, InvalidArgument, IoError}
        && index.table == old(index.table) && dram.store == old(dram.store) && ssd.contents == old(ssd.contents)
        && policy.state == old(policy.state).Cancelled() && ssd.history == old(ssd.history)
        && (old(env.injected) < env.injected ||
            (status == InvalidArgument && !Consistent(v, dram.store[v].block.metadata)))
    {
      var preflight := index.ValidateRelocate(v, DramType);
      assert preflight == OK;
      var block := ReadBlockLocked(v);
      if block.Failure? {
        var cancelled := policy.CancelVictim(v);
        assert cancelled == OK;
        return block.code;
      }
      preflight := dram.ValidateEraseExisting(v);
      assert preflight == OK;
      preflight := policy.ValidateVictimCommit(v);
      assert preflight == OK;
      var stored, handle := ssd.Put(v, block.value);
      if stored != OK {
        var cancelled := policy.CancelVictim(v);
        assert cancelled == OK;
        return stored;
      }
      CommitDemotion(v, handle);
      return OK;
    }

    /** After the persistence commit point nothing can fail: each precondition here would otherwise
        terminate the process. */
    method CommitDemotion(v: BlockKey, handle: nat)
      requires Wired() && dram != null && policy.state.Reserved() == Some(v)
      requires v in dram.store && v in index.table && index.table[v].tier == DramType
      modifies index, dram, policy
      ensures Wired() && dram.nextHandle == old(dram.nextHandle)
      ensures dram.store == old(dram.store) - {v} && dram.numBlocks < old(dram.numBlocks)
      ensures index.table == old(index.table)[v := Location(SsdType, handle)]
      ensures policy.state == old(policy.state).Committed()
    {
      dram.EraseExisting(v);
      index.RelocateExisting(v, DramType, SsdType, handle);
      policy.CommitVictim(v);
    }

    /** Reserve, preflight, persist, commit: moves the policy's victim from DRAM to SSD. */
    method DemoteOneVictimLocked(replaced: Option<BlockKey>, ghost incoming: nat)
      returns (status: StatusCode, ghost victim: BlockKey)
      requires Wired() && dram != null && ssd != null && ssd.open && policy.state != NoPolicy
      requires Inv(Cfg(), Snap())
      requires replaced.Some? ==> replaced.value in dram.store
      requires 0 < dram.capacityBytes && incoming <= dram.capacityBytes < Footprint(dram.store, replaced, incoming)
      modifies index, env, dram, ssd, policy
      ensures Wired() && ssd.open && Inv(Cfg(), Snap()) && old(env.injected) <= env.injected
      ensures status == OK ==>
        && Enabled(Cfg(), old(Snap()), Demote(victim, replaced, incoming))
        && Snap() == Apply(Cfg(), old(Snap()), Demote(victim, replaced, incoming))
        && dram.numBlocks < old(dram.numBlocks) && Some(victim) != replaced
      ensures Disks() == if status == OK then old(Disks()) + [ssd.disk] else old(Disks())
      ensures status != OK ==> Snap() == old(Snap()) && status in {OutOfCapacity, InvalidArgument, IoError}
      ensures old(policy.state).Victim(replaced) == Some(victim) && victim in old(dram.store)
      ensures status != OK ==>
        || old(env.injected) < env.injected
        || (status == InvalidArgument && !Consistent(victim, old(dram.store)[victim].block.metadata))
    {
      DemoteReady(Cfg(), Snap(), replaced, incoming);
      victim := policy.state.Victim(replaced).value;
      var selected := policy.SelectVictim(replaced);
      status := MigrateVictim(selected.value);
    }

    /** Demotes victims until `incoming` bytes fit. */
    method MakeDramRoomForLocked(incoming: nat, replaced: Option<BlockKey>)
      returns (status: StatusCode, ghost log: seq<Event>)
      requires Wired() && dram != null && (ssd != null ==> ssd.open) && Inv(Cfg(), Snap())
      requires replaced.Some? ==> replaced.value in dram.store
      requires dram.capacityBytes != 0 ==> incoming <= dram.capacityBytes
      modifies index, env, dram, ssd, policy
      ensures Wired() && (ssd != null ==> ssd.open) && old(env.injected) <= env.injected
      ensures Inv(Cfg(), Snap()) && MadeRoom(Cfg(), old(Snap()), Snap(), log, replaced, incoming)
      ensures Took(Cfg(), old(Snap()), log, Snap(), old(Disks()), Disks())
      ensures status == OK ==>
        dram.capacityBytes == 0 || Footprint(dram.store, replaced, incoming) <= dram.capacityBytes
      ensures ComesTo(status, RoomStatus(Cfg(), old(Snap()), replaced, incoming), old(env.injected) < env.injected)
    {
      log := [];
      ghost var s0, disks := Snap(), Disks();
      MadeNoRoom(Cfg(), s0, replaced, incoming, disks);
      var replacedBytes := 0;
      if replaced.Some? {
        var info := dram.Probe(replaced.value);
        assert info.Success?;
        replacedBytes := info.value.payloadSize;
      }
      while true
        invariant Wired() && (ssd != null ==> ssd.open) && old(env.injected) <= env.injected
        invariant Inv(Cfg(), Snap()) && MadeRoom(Cfg(), s0, Snap(), log, replaced, incoming)
        invariant Took(Cfg(), s0, log, Snap(), disks, Disks())
        invariant RoomStatus(Cfg(), Snap(), replaced, incoming) == RoomStatus(Cfg(), s0, replaced, incoming)
        decreases dram.numBlocks
      {
        ghost var s, before := Snap(), Disks();
        var round, victim := MakeRoomRound(incoming, replaced, replacedBytes);
        if round == Fitting {
          return OK, log;
        }
        if round.Stopped? {
          return round.code, log;
        }
        MadeMoreRoom(Cfg(), s0, s, log, victim, replaced, incoming, disks, before, ssd.disk);
        log := log + [Demote(victim, replaced, incoming)];
      }
    }

    /** One round: nothing more to do, no way to go on, or one victim moved out. */
    method MakeRoomRound(incoming: nat, replaced: Option<BlockKey>, replacedBytes: nat)
      returns (round: Round, ghost victim: BlockKey)
      requires Wired() && dram != null && (ssd != null ==> ssd.open) && Inv(Cfg(), Snap())
      requires replaced.Some? ==> replaced.value in dram.store
      requires replacedBytes == if replaced.Some? then dram.store[replaced.value].block.Size() else 0
      requires dram.capacityBytes != 0 ==> incoming <= dram.capacityBytes
      modifies index, env, dram, ssd, policy
      ensures Wired() && (ssd != null ==> ssd.open) && old(env.injected) <= env.injected && Inv(Cfg(), Snap())
      ensures !round.Demoted? ==> Snap() == old(Snap()) && Disks() == old(Disks())
      ensures round.Fitting? ==>
        dram.capacityBytes == 0 || Footprint(dram.store, replaced, incoming) <= dram.capacityBytes
      ensures round.Stopped? ==>
        && round.code != OK
        && (old(env.injected) < env.injected || round.code == RoomStatus(Cfg(), old(Snap()), replaced, incoming))
      ensures !round.Stopped? ==>
        RoomStatus(Cfg(), Snap(), replaced, incoming) == RoomStatus(Cfg(), old(Snap()), replaced, incoming)
      ensures round.Demoted? ==>
        && ssd != null && Disks() == old(Disks()) + [ssd.disk] && old(policy.state) != NoPolicy
        && Enabled(Cfg(), old(Snap()), Demote(victim, replaced, incoming))
        && Snap() == Apply(Cfg(), old(Snap()), Demote(victim, replaced, incoming))
        && dram.numBlocks < old(dram.numBlocks) && Some(victim) != replaced
    {
      var needed := RoomNeeded(incoming, replaced, replacedBytes);
      victim := *;
      if needed == Enough {
        return Fitting, victim;
      }
      if needed == Refused {
        return Stopped(OutOfCapacity), victim;
      }
      var demoted;
      demoted, victim := DemoteForRoom(incoming, replaced);
      if demoted != OK {
        return Stopped(demoted), victim;
      }
      return Demoted, victim;
    }

    /** The demotion of a round, which must make progress. */
    method DemoteForRoom(ghost incoming: nat, replaced: Option<BlockKey>) returns (status: StatusCode, ghost victim: BlockKey)
      requires Wired() && dram != null && ssd != null && ssd.open && policy.state != NoPolicy
      requires Inv(Cfg(), Snap())
      requires replaced.Some? ==> replaced.value in dram.store
      requires 0 < dram.capacityBytes && incoming <= dram.capacityBytes < Footprint(dram.store, replaced, incoming) < TWO_64
      modifies index, env, dram, ssd, policy
      ensures Wired() && ssd.open && Inv(Cfg(), Snap()) && old(env.injected) <= env.injected
      ensures status == OK ==>
        && Enabled(Cfg(), old(Snap()), Demote(victim, replaced, incoming))
        && Snap() == Apply(Cfg(), old(Snap()), Demote(victim, replaced, incoming))
        && dram.numBlocks < old(dram.numBlocks) && Some(victim) != replaced
        && RoomStatus(Cfg(), Snap(), replaced, incoming) == RoomStatus(Cfg(), old(Snap()), replaced, incoming)
      ensures Disks() == if status == OK then old(Disks()) + [ssd.disk] else old(Disks())
      ensures status != OK ==> Snap() == old(Snap())
      ensures status != OK ==>
        old(env.injected) < env.injected || status == RoomStatus(Cfg(), old(Snap()), replaced, incoming)
    {
      ghost var s := Snap();
      var usedBefore, blocksBefore := dram.usedBytes, dram.numBlocks;
      status, victim := DemoteOneVictimLocked(replaced, incoming);
      if status == OK {
        assert !(dram.usedBytes >= usedBefore && dram.numBlocks >= blocksBefore);
        RoomAfterDemotion(Cfg(), s, victim, replaced, incoming);
      } else if !Consistent(victim, s.dram[victim].block.metadata) {
        RoomAtBadVictim(Cfg(), s, victim, replaced, incoming);
      }
    }

    /** One round's decision: the bytes fit, they never will, or one more victim must go. */
    method RoomNeeded(incoming: nat, replaced: Option<BlockKey>, replacedBytes: nat) returns (r: Verdict)
      requires Wired() && dram != null
      requires replaced.Some? ==> replaced.value in dram.store
      requires replacedBytes == if replaced.Some? then dram.store[replaced.value].block.Size() else 0
      ensures var footprint := Footprint(dram.store, replaced, incoming);
              r == if dram.capacityBytes == 0 then Enough
                   else if footprint >= TWO_64 then Refused
                   else if footprint <= dram.capacityBytes then Enough
                   else if policy.state == NoPolicy || ssd == null then Refused
                   else NeedVictim
      ensures r == Refused ==> RoomStatus(Cfg(), Snap(), replaced, incoming) == OutOfCapacity
    {
      if dram.capacityBytes == 0 {
        return Enough;
      }
      FootprintIs(dram.store, replaced, incoming);
      var projected := ProjectedBytes(dram.usedBytes, replacedBytes, incoming);
      if projected.None? {
        return Refused;
      }
      if projected.value <= dram.capacityBytes {
        return Enough;
      }
      if policy.state == NoPolicy {
        return Refused;
      }
      if ssd == null {
        return Refused;
      }
      return NeedVictim;
    }

    /** Takes back a DRAM write of a key that was not there before. */
    method UndoWrite(key: BlockKey)
      requires Wired() && dram != null && key in dram.store
      modifies dram
      ensures Wired() && dram.store == old(dram.store) - {key} && dram.nextHandle == old(dram.nextHandle)
    {
      var preflight := dram.ValidateEraseExisting(key);
      assert preflight == OK;
      dram.EraseExisting(key);
    }

    /** The DRAM write and, for a key new to DRAM, its admission to the policy. */
    method WriteAndAdmit(key: BlockKey, block: Block, needsPolicyInsert: bool)
      returns (status: StatusCode, handle: nat, ghost wrote: bool)
      requires Wired() && dram != null && policy.state.Reserved().None?
      requires needsPolicyInsert ==> key !in dram.store
      modifies env, dram, policy
      ensures Wired() && old(env.injected) <= env.injected
      ensures status == OK ==>
        && handle == old(dram.nextHandle) && dram.nextHandle == handle + 1
        && dram.store == old(dram.store)[key := D.Entry(block, handle)]
        && policy.state == if needsPolicyInsert then old(policy.state).Admit(key) else old(policy.state)
      ensures status != OK ==>
        && dram.store == old(dram.store) && policy.state == old(policy.state)
        && dram.nextHandle == old(dram.nextHandle) + (if wrote then 1 else 0) && (wrote ==> needsPolicyInsert)
        && status == OutOfCapacity && old(env.injected) < env.injected
    {
      wrote := false;
      status, handle := dram.Put(key, block);
      if status != OK {
        return;
      }
      wrote := true;
      if needsPolicyInsert && policy.state != NoPolicy {
        status := policy.OnInsert(key);
        if status != OK {
          PutRemove(old(dram.store), key, D.Entry(block, handle));
          UndoWrite(key);
        }
      }
    }

    /** A DRAM put once there is room: write, admit, index, or roll back. */
    method WriteHot(key: BlockKey, block: Block, existing: Result<Location>)
      returns (status: StatusCode, ghost left: Residue)
      requires Wired() && dram != null && policy.state.Reserved().None?
      requires existing == if key in index.table then Success(index.table[key]) else Failure(NotFound)
      requires key in dram.store <==> key in index.table && index.table[key].tier == DramType
      modifies index, env, dram, policy
      ensures Wired() && old(env.injected) <= env.injected
      ensures status == OK ==>
        && index.table == old(index.table)[key := Location(DramType, old(dram.nextHandle))]
        && dram.store == old(dram.store)[key := D.Entry(block, old(dram.nextHandle))]
        && dram.nextHandle == old(dram.nextHandle) + 1
        && policy.state == if key in old(dram.store) then old(policy.state).Touch(key) else old(policy.state).Admit(key)
      ensures status != OK ==>
        && index.table == old(index.table) && dram.store == old(dram.store)
        && dram.nextHandle == old(dram.nextHandle) + (if left == Nothing then 0 else 1)
        && policy.state == (if left == Admission then old(policy.state).Admit(key).Forget(key) else old(policy.state))
        && (left == Admission ==> key !in index.table) && (left == Handle ==> key !in dram.store)
        && status == OutOfCapacity && old(env.injected) < env.injected
    {
      left := Nothing;
      if existing.Success? {
        var preflight := index.ValidateRelocate(key, existing.value.tier);
        assert preflight == OK;
      }
      var needsPolicyInsert := existing.Failure? || existing.value.tier != DramType;
      var stored, handle, wrote := WriteAndAdmit(key, block, needsPolicyInsert);
      if stored != OK {
        return stored, if wrote then Handle else Nothing;
      }
      status := PublishHot(key, existing, handle);
      if status != OK {
        PutRemove(old(dram.store), key, D.Entry(block, handle));
        left := Admission;
      }
    }

    /** Makes a written block the indexed one, or undoes the write if the index cannot grow. */
    method PublishHot(key: BlockKey, existing: Result<Location>, handle: nat) returns (status: StatusCode)
      requires Wired() && dram != null && key in dram.store
      requires existing == if key in index.table then Success(index.table[key]) else Failure(NotFound)
      modifies index, env, dram, policy
      ensures Wired() && dram.nextHandle == old(dram.nextHandle) && old(env.injected) <= env.injected
      ensures status == OK ==>
        && index.table == old(index.table)[key := Location(DramType, handle)] && dram.store == old(dram.store)
        && policy.state == if existing.Success? && existing.value.tier == DramType
                           then old(policy.state).Touch(key) else old(policy.state)
      ensures status != OK ==>
        && existing.Failure? && status == OutOfCapacity && old(env.injected) < env.injected
        && index.table == old(index.table) && dram.store == old(dram.store) - {key}
        && policy.state == old(policy.state).Forget(key)
    {
      if existing.Failure? {
        status := index.Upsert(key, Location(DramType, handle));
        if status != OK {
          policy.OnRemove(key);
          UndoWrite(key);
        }
        return;
      }
      index.RelocateExisting(key, existing.value.tier, DramType, handle);
      if existing.value.tier == DramType && policy.state != NoPolicy {
        policy.OnAccess(key);
      }
      return OK;
    }

    /** Put of a block that DRAM can hold. */
    method PutHotLocked(key: BlockKey, block: Block)
      returns (status: StatusCode, ghost room: seq<Event>, ghost tail: seq<Event>)
      requires Wired() && dram != null && (ssd != null ==> ssd.open) && Inv(Cfg(), Snap())
      requires dram.capacityBytes != 0 ==> block.Size() <= dram.capacityBytes
      modifies index, env, dram, ssd, policy
      ensures Wired() && (ssd != null ==> ssd.open) && Inv(Cfg(), Snap()) && old(env.injected) <= env.injected
      ensures Took(Cfg(), old(Snap()), room + tail, Snap(), old(Disks()), Disks())
      ensures OnlyDemotions(room, ReplacedBy(old(Snap()), key), block.Size())
      ensures status == OK ==> tail == [PutDram(key, block)]
      ensures status != OK ==> tail == [] || tail == [AbortWrite(key, block)] || tail == [AbortAdmit(key, block)]
      ensures ComesTo(status, RoomStatus(Cfg(), old(Snap()), ReplacedBy(old(Snap()), key), block.Size()),
                      old(env.injected) < env.injected)
    {
      ghost var s0, disks := Snap(), Disks();
      var existing;
      status, existing, room := MakeRoomToPut(key, block.Size());
      tail := [];
      if status != OK {
        assert room + [] == room;
        return;
      }
      status, tail := CommitAfterRoom(key, block, existing, s0, room, disks);
    }

    /** The write, after a run that made room for it. */
    method CommitAfterRoom(key: BlockKey, block: Block, existing: Result<Location>,
                           ghost s0: State, ghost room: seq<Event>, ghost disks: seq<S.Database>)
      returns (status: StatusCode, ghost tail: seq<Event>)
      requires Wired() && dram != null && Inv(Cfg(), Snap()) && Took(Cfg(), s0, room, Snap(), disks, Disks())
      requires existing == if key in index.table then Success(index.table[key]) else Failure(NotFound)
      requires Fits(Cfg(), dram.store, key, block.Size())
      modifies index, env, dram, policy
      ensures Wired() && Inv(Cfg(), Snap()) && Took(Cfg(), s0, room + tail, Snap(), disks, Disks())
      ensures status == OK ==> tail == [PutDram(key, block)]
      ensures status != OK ==> tail == [] || tail == [AbortWrite(key, block)] || tail == [AbortAdmit(key, block)]
      ensures old(env.injected) <= env.injected && (status != OK ==> old(env.injected) < env.injected)
    {
      ghost var s, held := Snap(), Disks();
      status, tail := CommitHot(key, block, existing);
      TookAppend(Cfg(), s0, room, s, tail, Snap(), disks, held, Disks());
    }

    /** Looks the key up and makes room for its new block; what was found is still so afterwards. */
    method MakeRoomToPut(key: BlockKey, size: nat)
      returns (status: StatusCode, existing: Result<Location>, ghost room: seq<Event>)
      requires Wired() && dram != null && (ssd != null ==> ssd.open) && Inv(Cfg(), Snap())
      requires dram.capacityBytes != 0 ==> size <= dram.capacityBytes
      modifies index, env, dram, ssd, policy
      ensures Wired() && (ssd != null ==> ssd.open) && Inv(Cfg(), Snap()) && old(env.injected) <= env.injected
      ensures Took(Cfg(), old(Snap()), room, Snap(), old(Disks()), Disks())
      ensures OnlyDemotions(room, ReplacedBy(old(Snap()), key), size)
      ensures existing == if key in index.table then Success(index.table[key]) else Failure(NotFound)
      ensures status == OK ==> Fits(Cfg(), dram.store, key, size)
      ensures ComesTo(status, RoomStatus(Cfg(), old(Snap()), ReplacedBy(old(Snap()), key), size),
                      old(env.injected) < env.injected)
    {
      ghost var s0 := Snap();
      existing := index.Find(key);
      Agreement(Cfg(), s0, key);
      var replaced := if existing.Success? && existing.value.tier == DramType then Some(key) else None;
      status, room := MakeDramRoomForLocked(size, replaced);
      LocationStays(Cfg(), s0, Snap(), room, key, size);
      if status == OK {
        FitsAfterRoom(Cfg(), dram.store, key, size);
      }
    }

    /** The same, as one of the ways in which a put can end. */
    method LandHot(key: BlockKey, block: Block, existing: Result<Location>) returns (status: StatusCode, ghost left: Residue)
      requires Wired() && dram != null && policy.state.Reserved().None?
      requires existing == if key in index.table then Success(index.table[key]) else Failure(NotFound)
      requires key in dram.store <==> key in index.table && index.table[key].tier == DramType
      modifies index, env, dram, policy
      ensures Wired() && old(env.injected) <= env.injected && (status != OK ==> old(env.injected) < env.injected)
      ensures Landed(Cfg(), old(Snap()), Snap(), key, block, status == OK, left)
    {
      status, left := WriteHot(key, block, existing);
    }

    /** The write of PutHotLocked, as a committed step. */
    method CommitHot(key: BlockKey, block: Block, existing: Result<Location>) returns (status: StatusCode, ghost tail: seq<Event>)
      requires Wired() && dram != null && Inv(Cfg(), Snap())
      requires existing == if key in index.table then Success(index.table[key]) else Failure(NotFound)
      requires Fits(Cfg(), dram.store, key, block.Size())
      modifies index, env, dram, policy
      ensures Wired() && Inv(Cfg(), Snap()) && Took(Cfg(), old(Snap()), tail, Snap(), old(Disks()), Disks())
      ensures status == OK ==> tail == [PutDram(key, block)]
      ensures status != OK ==> tail == [] || tail == [AbortWrite(key, block)] || tail == [AbortAdmit(key, block)]
      ensures old(env.injected) <= env.injected && (status != OK ==> old(env.injected) < env.injected)
    {
      ghost var s := Snap();
      Agreement(Cfg(), s, key);
      ghost var left;
      status, left := LandHot(key, block, existing);
      tail := HotTail(key, block, status == OK, left);
      HotOutcome(Cfg(), s, Snap(), key, block, status == OK, left, Disks());
    }

    /** Put on a node without DRAM. The index entry is made first and rolled back if the write fails. */
    method PutWithoutDramLocked(key: BlockKey, block: Block) returns (status: StatusCode)
      requires Wired() && ssd != null && ssd.open
      requires key in index.table ==> index.table[key].tier == SsdType
      modifies index, env, ssd
      ensures Wired() && ssd.open && old(env.injected) <= env.injected
      ensures status == OK ==>
        && index.table == old(index.table)[key := Location(SsdType, handleOf(key))]
        && ssd.contents == old(ssd.contents)[key := block] && Consistent(key, block.metadata)
      ensures Disks() == if status == OK then old(Disks()) + [ssd.disk] else old(Disks())
      ensures status != OK ==>
        && index.table == old(index.table) && ssd.contents == old(ssd.contents)
        && (old(env.injected) < env.injected || (status == InvalidArgument && !Consistent(key, block.metadata)))
    {
      var existing := index.Find(key);
      if existing.Success? {
        var preflight := index.ValidateRelocate(key, existing.value.tier);
        assert preflight == OK;
        index.RelocateExisting(key, existing.value.tier, SsdType, 0);
      } else {
        status := index.Upsert(key, Location(SsdType, 0));
        if status != OK {
          return;
        }
      }
      var handle;
      status, handle := ssd.Put(key, block);
      if status != OK {
        if existing.Failure? {
          PutRemove(old(index.table), key, Location(SsdType, 0));
          index.RemoveExisting(key);
        } else {
          PutPut(old(index.table), key, Location(SsdType, 0), existing.value);
          PutSame(old(index.table), key);
          index.RelocateExisting(key, SsdType, existing.value.tier, existing.value.handle);
        }
        return;
      }
      PutPut(old(index.table), key, Location(SsdType, 0), Location(SsdType, handle));
      index.RelocateExisting(key, SsdType, SsdType, handle);
    }

    /** Put of a block larger than all of DRAM: straight to SSD, dropping any DRAM copy. */
    method PutOversizedLocked(key: BlockKey, block: Block) returns (status: StatusCode)
      requires Wired() && dram != null && ssd != null && ssd.open
      requires key in dram.store <==> key in index.table && index.table[key].tier == DramType
      modifies index, env, dram, ssd, policy
      ensures Wired() && ssd.open && old(env.injected) <= env.injected
      ensures dram.nextHandle == old(dram.nextHandle)
      ensures Disks() == if status == OK then old(Disks()) + [ssd.disk] else old(Disks())
      ensures status == OK ==>
        && index.table == old(index.table)[key := Location(SsdType, handleOf(key))]
        && ssd.contents == old(ssd.contents)[key := block] && Consistent(key, block.metadata)
        && dram.store == old(dram.store) - {key}
        && policy.state == if key in old(dram.store) then old(policy.state).Forget(key) else old(policy.state)
      ensures status != OK ==>
        && index.table == old(index.table) && ssd.contents == old(ssd.contents) && dram.store == old(dram.store)
        && policy.state == old(policy.state)
        && (old(env.injected) < env.injected || (status == InvalidArgument && !Consistent(key, block.metadata)))
    {
      var existing;
      status, existing := PrepareOversized(key);
      if status != OK {
        return;
      }
      var handle;
      status, handle := ssd.Put(key, block);
      if status != OK {
        if existing.Failure? {
          PutRemove(old(index.table), key, Location(SsdType, 0));
          index.RemoveExisting(key);
        }
        return;
      }
      PutPut(old(index.table), key, Location(SsdType, 0), Location(SsdType, handle));
      PublishOversized(key, existing, handle);
    }

    /** The preflight of an oversized put: an existing entry is checked, a missing one is made. */
    method PrepareOversized(key: BlockKey) returns (status: StatusCode, existing: Result<Location>)
      requires Wired() && dram != null
      requires key in dram.store <==> key in index.table && index.table[key].tier == DramType
      modifies index, env
      ensures Wired() && old(env.injected) <= env.injected && (status != OK ==> old(env.injected) < env.injected)
      ensures existing == if key in old(index.table) then Success(old(index.table)[key]) else Failure(NotFound)
      ensures index.table == if status == OK && existing.Failure?
                             then old(index.table)[key := Location(SsdType, 0)] else old(index.table)
    {
      existing := index.Find(key);
      if existing.Success? {
        status := index.ValidateRelocate(key, existing.value.tier);
        assert status == OK;
        if existing.value.tier == DramType {
          status := dram.ValidateEraseExisting(key);
          assert status == OK;
        }
      } else {
        status := index.Upsert(key, Location(SsdType, 0));
      }
    }

    method PublishOversized(key: BlockKey, existing: Result<Location>, handle: nat)
      requires Wired() && dram != null && key in index.table
      requires index.table[key].tier == if existing.Success? then existing.value.tier else SsdType
      requires existing.Success? && existing.value.tier == DramType <==> key in dram.store
      modifies index, dram, policy
      ensures Wired() && dram.nextHandle == old(dram.nextHandle) && dram.store == old(dram.store) - {key}
      ensures index.table == old(index.table)[key := Location(SsdType, handle)]
      ensures policy.state == if key in old(dram.store) then old(policy.state).Forget(key) else old(policy.state)
    {
      if existing.Success? && existing.value.tier == DramType {
        dram.EraseExisting(key);
        policy.OnRemove(key);
      } else {
        RemoveAbsent(dram.store, key);
      }
      if existing.Success? {
        index.RelocateExisting(key, existing.value.tier, SsdType, handle);
      } else {
        index.RelocateExisting(key, SsdType, SsdType, handle);
      }
    }

    /** A put that goes to SSD only, as a committed step. */
    method PutColdLocked(key: BlockKey, block: Block) returns (status: StatusCode, ghost log: seq<Event>)
      requires Wired() && ssd != null && ssd.open && Inv(Cfg(), Snap()) && !HoldsInDram(Cfg(), block.Size())
      modifies index, env, dram, ssd, policy
      ensures Wired() && ssd.open && Inv(Cfg(), Snap()) && old(env.injected) <= env.injected
      ensures Took(Cfg(), old(Snap()), log, Snap(), old(Disks()), Disks())
      ensures log == if status == OK then [PutSsd(key, block)] else []
      ensures ComesTo(status, if Consistent(key, block.metadata) then OK else InvalidArgument, old(env.injected) < env.injected)
    {
      ghost var s := Snap();
      Agreement(Cfg(), s, key);
      TookNothing(Cfg(), s, Disks());
      if dram == null {
        status := PutWithoutDramLocked(key, block);
      } else {
        status := PutOversizedLocked(key, block);
      }
      log := [];
      if status == OK {
        log := [PutSsd(key, block)];
        if dram == null {
          RemoveAbsent(s.dram, key);
        }
        OneWrite(Cfg(), s, PutSsd(key, block), old(Disks()), ssd.disk);
      }
    }

    /** Stores a block under a key. `log` is what the call committed. */
    method Put(key: BlockKey, block: Block) returns (status: StatusCode, ghost log: seq<Event>)
      requires Wired() && Coherent(Cfg(), Life(), Snap())
      modifies index, env, dram, ssd, policy
      ensures Wired() && Coherent(Cfg(), Life(), Snap()) && Life() == old(Life())
      ensures old(env.injected) <= env.injected
      ensures Took(Cfg(), old(Snap()), log, Snap(), old(Disks()), Disks())
      ensures !ready ==> status == Unavailable && log == []
      ensures ready ==> PutLog(Cfg(), old(Snap()), key, block, status, log)
      ensures ready ==> ComesTo(status, PutStatus(Cfg(), old(Snap()), key, block), old(env.injected) < env.injected)
      ensures !ready ==> Snap() == old(Snap()) && (ssd != null ==> ssd.disk == old(ssd.disk)) && Disks() == old(Disks())
    {
      log := [];
      TookNothing(Cfg(), Snap(), Disks());
      if !ready {
        return Unavailable, log;
      }
      if dram == null {
        status, log := PutColdLocked(key, block);
        return;
      }
      if dram.capacityBytes != 0 && block.Size() > dram.capacityBytes {
        if ssd == null {
          return OutOfCapacity, log;
        }
        status, log := PutColdLocked(key, block);
        return;
      }
      ghost var room, tail;
      status, room, tail := PutHotLocked(key, block);
      log := room + tail;
      HotPutLog(Cfg(), old(Snap()), key, block, status, room, tail);
    }

    /** The DRAM copy of a promotion: write, admit, and only then name DRAM in the index. */
    method WritePromoted(key: BlockKey, block: Block) returns (promoted: bool, ghost wrote: bool)
      requires Wired() && dram != null && policy.state.Reserved().None? && key !in dram.store
      requires key in index.table && index.table[key].tier == SsdType && key in Snap().ssd && block == Snap().ssd[key]
      modifies index, env, dram, policy
      ensures Wired() && old(env.injected) <= env.injected && (!promoted ==> old(env.injected) < env.injected)
      ensures PromotionLanded(Cfg(), old(Snap()), Snap(), key, promoted, wrote)
    {
      var stored, handle;
      stored, handle, wrote := WriteAndAdmit(key, block, true);
      if stored != OK {
        return false, wrote;
      }
      index.RelocateExisting(key, SsdType, DramType, handle);
      return true, wrote;
    }

    /** The write of a promotion, as a committed step. */
    method CommitPromotion(key: BlockKey, block: Block) returns (promoted: bool, ghost tail: seq<Event>)
      requires Wired() && dram != null && Inv(Cfg(), Snap())
      requires policy.state != NoPolicy && key in Snap().ssd && key !in dram.store && block == Snap().ssd[key]
      requires key in index.table && index.table[key].tier == SsdType
      requires Fits(Cfg(), dram.store, key, block.Size())
      modifies index, env, dram, policy
      ensures Wired() && Inv(Cfg(), Snap()) && Took(Cfg(), old(Snap()), tail, Snap(), old(Disks()), Disks())
      ensures if promoted then tail == [Promote(key)] else tail == [] || tail == [AbortWrite(key, block)]
      ensures old(env.injected) <= env.injected && (!promoted ==> old(env.injected) < env.injected)
    {
      ghost var s, wrote := Snap(), false;
      promoted, wrote := WritePromoted(key, block);
      tail := PromotionTail(key, block, promoted, wrote);
      PromotionOutcome(Cfg(), s, Snap(), key, block, promoted, wrote, Disks());
    }

    /** Best-effort promotion of the block just read; SSD keeps its copy. */
    method TryPromoteToDramLocked(key: BlockKey, view: BlockView) returns (promoted: bool, ghost log: seq<Event>)
      requires Wired() && ssd != null && ssd.open && Inv(Cfg(), Snap())
      requires key in ssd.contents && (dram != null ==> key !in dram.store) && view == ViewOf(ssd.contents[key])
      modifies index, env, dram, ssd, policy
      ensures Wired() && ssd.open && Inv(Cfg(), Snap()) && old(env.injected) <= env.injected
      ensures Took(Cfg(), old(Snap()), log, Snap(), old(Disks()), Disks())
      ensures exists room: seq<Event> :: PromotionLog(room, key, old(ssd.contents)[key], promoted, log)
      ensures promoted ==> Promotes(Cfg(), old(Snap()), |view.data|)
      ensures !promoted && Promotes(Cfg(), old(Snap()), |view.data|) ==> old(env.injected) < env.injected
    {
      ghost var s0 := Snap();
      log := [];
      TookNothing(Cfg(), s0, Disks());
      Agreement(Cfg(), s0, key);
      assert PromotionLog([], key, ssd.contents[key], false, []);
      if dram == null || policy.state == NoPolicy {
        return false, log;
      }
      if dram.capacityBytes != 0 && |view.data| > dram.capacityBytes {
        return false, log;
      }
      var preflight := index.ValidateRelocate(key, SsdType);
      assert preflight == OK;
      var already := dram.Probe(key);
      assert already == Failure(NotFound);
      var failed := env.Fails();
      if failed {
        return false, log;
      }
      ghost var room;
      promoted, room, log := PromoteLocked(key, Block(view.metadata, view.data));
    }

    /** Room and write of a promotion. */
    method PromoteLocked(key: BlockKey, block: Block)
      returns (promoted: bool, ghost room: seq<Event>, ghost log: seq<Event>)
      requires Wired() && dram != null && ssd != null && ssd.open && Inv(Cfg(), Snap()) && policy.state != NoPolicy
      requires key in ssd.contents && key !in dram.store && block == ssd.contents[key]
      requires dram.capacityBytes != 0 ==> block.Size() <= dram.capacityBytes
      modifies index, env, dram, ssd, policy
      ensures Wired() && ssd.open && Inv(Cfg(), Snap()) && old(env.injected) <= env.injected
      ensures Took(Cfg(), old(Snap()), log, Snap(), old(Disks()), Disks())
      ensures PromotionLog(room, key, block, promoted, log)
      ensures promoted ==> RoomStatus(Cfg(), old(Snap()), None, block.Size()) == OK
      ensures !promoted ==>
        old(env.injected) < env.injected || RoomStatus(Cfg(), old(Snap()), None, block.Size()) != OK
    {
      ghost var s0, disks := Snap(), Disks();
      var made;
      made, room := MakeRoomToPromote(key, block);
      promoted, log := PromoteAfterRoom(key, block, made, s0, room, disks);
    }

    /** The write of a promotion, after a run that was to make room for it. */
    method PromoteAfterRoom(key: BlockKey, block: Block, made: bool,
                            ghost s0: State, ghost room: seq<Event>, ghost disks: seq<S.Database>)
      returns (promoted: bool, ghost log: seq<Event>)
      requires Wired() && dram != null && Inv(Cfg(), Snap()) && Took(Cfg(), s0, room, Snap(), disks, Disks())
      requires policy.state != NoPolicy && key in Snap().ssd && key !in dram.store && block == Snap().ssd[key]
      requires key in index.table && index.table[key].tier == SsdType
      requires (made ==> Fits(Cfg(), dram.store, key, block.Size())) && OnlyDemotions(room, None, block.Size())
      modifies index, env, dram, policy
      ensures Wired() && Inv(Cfg(), Snap()) && Took(Cfg(), s0, log, Snap(), disks, Disks())
      ensures PromotionLog(room, key, block, promoted, log)
      ensures old(env.injected) <= env.injected
      ensures if made then !promoted ==> old(env.injected) < env.injected else !promoted
    {
      if !made {
        return false, room;
      }
      ghost var s, held, tail := Snap(), Disks(), [];
      promoted, tail := CommitPromotion(key, block);
      log := room + tail;
      assert room + [] == room;
      TookAppend(Cfg(), s0, room, s, tail, Snap(), disks, held, Disks());
    }

    /** Room for a block that only SSD holds, which stays there meanwhile. */
    method MakeRoomToPromote(key: BlockKey, block: Block) returns (made: bool, ghost room: seq<Event>)
      requires Wired() && dram != null && ssd != null && ssd.open && Inv(Cfg(), Snap()) && policy.state != NoPolicy
      requires key in ssd.contents && key !in dram.store && block == ssd.contents[key]
      requires dram.capacityBytes != 0 ==> block.Size() <= dram.capacityBytes
      modifies index, env, dram, ssd, policy
      ensures Wired() && ssd.open && Inv(Cfg(), Snap()) && old(env.injected) <= env.injected
      ensures Took(Cfg(), old(Snap()), room, Snap(), old(Disks()), Disks()) && OnlyDemotions(room, None, block.Size())
      ensures policy.state != NoPolicy
      ensures key in ssd.contents && key !in dram.store && block == ssd.contents[key]
      ensures key in index.table && index.table[key].tier == SsdType
      ensures made ==> Fits(Cfg(), dram.store, key, block.Size())
      ensures made ==> RoomStatus(Cfg(), old(Snap()), None, block.Size()) == OK
      ensures !made ==>
        old(env.injected) < env.injected || RoomStatus(Cfg(), old(Snap()), None, block.Size()) != OK
    {
      ghost var s0 := Snap();
      var status;
      status, room := MakeDramRoomForLocked(block.Size(), None);
      made := status == OK;
      StillCold(Cfg(), s0, Snap(), room, key, block.Size());
      if made {
        FitsAfterRoom(Cfg(), dram.store, key, block.Size());
      }
    }

    /** A read from DRAM, which the policy is told of. */
    method GetHotLocked(key: BlockKey, dst: MutableBuffer)
      returns (status: StatusCode, view: BlockView, ghost log: seq<Event>)
      requires Wired() && dram != null && Inv(Cfg(), Snap()) && key in dram.store
      modifies policy
      ensures Wired() && Inv(Cfg(), Snap()) && Took(Cfg(), old(Snap()), log, Snap(), old(Disks()), Disks())
      ensures Answers(Logical(old(Snap())), key, dst, true, status, view)
      ensures GetLog(old(Snap()), key, status, false, log)
    {
      ghost var s := Snap();
      TookNothing(Cfg(), s, Disks());
      log := [];
      status, view := dram.Get(key, dst);
      HotAnswers(Cfg(), s, key, dst, status, view);
      if status == OK {
        policy.OnAccess(key);
        OneStep(Cfg(), s, Hit(key), Disks());
        log := [Hit(key)];
      }
    }

    /** A read from SSD, which may promote the block. */
    method GetColdLocked(key: BlockKey, dst: MutableBuffer)
      returns (status: StatusCode, view: BlockView, promoted: bool, ghost log: seq<Event>)
      requires Wired() && ssd != null && ssd.open && Inv(Cfg(), Snap())
      requires key in ssd.contents && (dram != null ==> key !in dram.store)
      modifies index, env, dram, ssd, policy
      ensures Wired() && ssd.open && Inv(Cfg(), Snap()) && old(env.injected) <= env.injected
      ensures Took(Cfg(), old(Snap()), log, Snap(), old(Disks()), Disks())
      ensures Answers(Logical(old(Snap())), key, dst, env.injected == old(env.injected), status, view)
      ensures GetLog(old(Snap()), key, status, promoted, log)
      ensures promoted ==> status == OK && Promotes(Cfg(), old(Snap()), |view.data|)
      ensures status == OK && !promoted && Promotes(Cfg(), old(Snap()), |view.data|) ==>
        old(env.injected) < env.injected
    {
      ghost var s := Snap();
      TookNothing(Cfg(), s, Disks());
      promoted, log := false, [];
      status, view := ssd.Get(key, dst);
      if status == OK {
        promoted, log := TryPromoteToDramLocked(key, view);
      }
      ColdAnswers(Cfg(), s, key, dst, env.injected == old(env.injected), status, view, promoted, log);
    }

    /** A read on an open node: the index says where to look. */
    method GetLocked(key: BlockKey, dst: MutableBuffer)
      returns (status: StatusCode, view: BlockView, promoted: bool, ghost log: seq<Event>)
      requires Wired() && (ssd != null ==> ssd.open) && Inv(Cfg(), Snap())
      modifies index, env, dram, ssd, policy
      ensures Wired() && (ssd != null ==> ssd.open) && Inv(Cfg(), Snap()) && old(env.injected) <= env.injected
      ensures Took(Cfg(), old(Snap()), log, Snap(), old(Disks()), Disks())
      ensures Answers(Logical(old(Snap())), key, dst, env.injected == old(env.injected), status, view)
      ensures GetLog(old(Snap()), key, status, promoted, log)
      ensures promoted ==> status == OK && key !in old(Snap()).dram && Promotes(Cfg(), old(Snap()), |view.data|)
      ensures status == OK && key !in old(Snap()).dram && !promoted && Promotes(Cfg(), old(Snap()), |view.data|) ==>
        old(env.injected) < env.injected
    {
      var loc := index.Find(key);
      Agreement(Cfg(), Snap(), key);
      if loc.Failure? {
        TookNothing(Cfg(), Snap(), Disks());
        MissAnswers(Cfg(), Snap(), key, dst);
        return loc.code, EMPTY_VIEW, false, [];
      }
      if loc.value.tier == DramType {
        promoted := false;
        status, view, log := GetHotLocked(key, dst);
      } else {
        status, view, promoted, log := GetColdLocked(key, dst);
      }
    }

    /** Reads the value of a key. `log` is what the call committed. */
    method Get(key: BlockKey, dst: MutableBuffer)
      returns (status: StatusCode, view: BlockView, promoted: bool, ghost log: seq<Event>)
      requires Wired() && Coherent(Cfg(), Life(), Snap())
      modifies index, env, dram, ssd, policy
      ensures Wired() && Coherent(Cfg(), Life(), Snap()) && Life() == old(Life())
      ensures old(env.injected) <= env.injected
      ensures Took(Cfg(), old(Snap()), log, Snap(), old(Disks()), Disks())
      ensures !ready ==> status == Unavailable && view == EMPTY_VIEW && log == []
      ensures !ready ==> Snap() == old(Snap()) && (ssd != null ==> ssd.disk == old(ssd.disk)) && Disks() == old(Disks())
      ensures ready ==> Answers(Logical(old(Snap())), key, dst, env.injected == old(env.injected), status, view)
      ensures ready ==> GetLog(old(Snap()), key, status, promoted, log)
      ensures promoted ==> status == OK && key !in old(Snap()).dram && Promotes(Cfg(), old(Snap()), |view.data|)
      ensures status == OK && key !in old(Snap()).dram && !promoted && Promotes(Cfg(), old(Snap()), |view.data|) ==>
        old(env.injected) < env.injected
      ensures status == OK ==>
        var live := Logical(old(Snap()));
        key in live && view.data == live[key].data && view.metadata == live[key].metadata && |view.data| <= dst.capacity
      ensures ready && env.injected == old(env.injected) && key in Logical(old(Snap())) ==>
        && (status == InvalidArgument <==> dst.isNull && dst.capacity != 0)
        && (status == OutOfCapacity <==>
              (dst.capacity == 0 || !dst.isNull) && dst.capacity < |Logical(old(Snap()))[key].data|)
        && status in {OK, InvalidArgument, OutOfCapacity}
      ensures ready && env.injected == old(env.injected) && key !in Logical(old(Snap())) ==> status == NotFound
    {
      if !ready {
        TookNothing(Cfg(), Snap(), Disks());
        return Unavailable, EMPTY_VIEW, false, [];
      }
      status, view, promoted, log := GetLocked(key, dst);
    }

    // ---- Life cycle ----

    /** The tiers, hottest first. */
    function Tiers(): seq<TierType> {
      (if dram == null then [] else [DramType]) + (if ssd == null then [] else [SsdType])
    }

    /** The tier's own Open and IsReady. DRAM inherits both defaults. */
    method OpenTier(tier: TierType) returns (status: StatusCode)
      requires Wired() && tier in Tiers()
      modifies env, ssd
      ensures Wired() && old(env.injected) <= env.injected
      ensures tier == DramType ==> status == OK && env.injected == old(env.injected) && (ssd != null ==> unchanged(ssd))
      ensures ssd != null ==> ssd.disk == old(ssd.disk) && ssd.history == old(ssd.history)
      ensures ssd != null && old(S.Encodes(ssd.disk, ssd.contents)) ==> ssd.contents == old(ssd.contents)
      ensures tier == SsdType ==> if status == OK then ssd.open else ssd.open == old(ssd.open)
      ensures tier == SsdType && env.injected == old(env.injected) ==> (status == OK <==> old(ssd.open) || Reopens(ssd.disk))
      ensures env.injected == old(env.injected) && status != OK ==> status == Corruption
    {
      if tier == DramType {
        return OK;
      }
      status := ssd.Open();
      assert status == OK ==> ssd.open;
    }

    /** Opens the tiers in order, up to the first failure. */
    method OpenTiers() returns (status: StatusCode, count: nat)
      requires Wired() && (ssd != null ==> !ssd.open)
      modifies env, ssd
      ensures Wired() && old(env.injected) <= env.injected && count <= |Tiers()|
      ensures status == OK ==> count == |Tiers()| && (ssd != null ==> ssd.open)
      ensures status != OK ==> count < |Tiers()| && (ssd != null ==> !ssd.open)
      ensures ssd != null ==> ssd.disk == old(ssd.disk) && ssd.history == old(ssd.history)
      ensures ssd != null && old(S.Encodes(ssd.disk, ssd.contents)) ==> ssd.contents == old(ssd.contents)
      ensures env.injected == old(env.injected) ==> (status == OK <==> ssd == null || Reopens(ssd.disk))
      ensures env.injected == old(env.injected) && status != OK ==> status == Corruption
    {
      count := 0;
      while count < |Tiers()|
        invariant Wired() && old(env.injected) <= env.injected && count <= |Tiers()|
        invariant ssd != null ==> ssd.open == (count == |Tiers()|)
        invariant ssd != null ==> ssd.disk == old(ssd.disk) && ssd.history == old(ssd.history)
        invariant ssd != null && old(S.Encodes(ssd.disk, ssd.contents)) ==> ssd.contents == old(ssd.contents)
        invariant env.injected == old(env.injected) && count == |Tiers()| ==> ssd == null || Reopens(ssd.disk)
      {
        status := OpenTier(Tiers()[count]);
        if status != OK {
          return;
        }
        count := count + 1;
      }
      status := OK;
    }

    /** Closes the first `count` tiers, last one first. */
    method CloseTiers(count: nat) returns (ghost closes: seq<TierType>)
      requires Wired() && count <= |Tiers()|
      modifies ssd
      ensures Wired() && closes == Reversed(Tiers()[..count])
      ensures ssd != null ==> ssd.disk == old(ssd.disk) && ssd.contents == old(ssd.contents) && ssd.history == old(ssd.history)
      ensures ssd != null ==> ssd.open == (old(ssd.open) && count < |Tiers()|)
    {
      var tiers, left := Tiers(), count;
      closes := [];
      ReversedEnds(tiers, count);
      while left > 0
        invariant 0 <= left <= count && Wired()
        invariant closes == Reversed(tiers[left..count])
        invariant ssd != null ==> ssd.disk == old(ssd.disk) && ssd.contents == old(ssd.contents) && ssd.history == old(ssd.history)
        invariant ssd != null ==> ssd.open == (old(ssd.open) && (left == count || count < |tiers|))
      {
        left := left - 1;
        ReversedMore(tiers, left, count);
        closes := closes + [tiers[left]];
        CloseTier(tiers[left]);
      }
    }

    method CloseTier(tier: TierType)
      requires Wired() && tier in Tiers()
      modifies ssd
      ensures Wired()
      ensures ssd != null ==> ssd.disk == old(ssd.disk) && ssd.contents == old(ssd.contents) && ssd.history == old(ssd.history)
      ensures ssd != null ==> ssd.open == (old(ssd.open) && tier != SsdType)
    {
      if tier == SsdType {
        var closed := ssd.Close();
        assert closed == OK;
      }
    }

    method VisitTier(tier: TierType) returns (status: StatusCode, entries: seq<(BlockKey, BlockInfo)>)
      requires Wired() && tier in Tiers() && (ssd != null ==> ssd.open)
      modifies env
      ensures old(env.injected) <= env.injected && (status != OK ==> old(env.injected) < env.injected)
      ensures status == OK ==> Lists(entries, Inventory(tier, Snap(), handleOf))
    {
      if tier == DramType {
        status, entries := dram.VisitEntries();
      } else {
        status, entries := ssd.VisitEntries();
      }
    }

    /** The visitor of Open: what one tier holds joins the recovered index unless a hotter tier has it. */
    method Absorb(recovered: I.LocalIndex, tier: TierType, entries: seq<(BlockKey, BlockInfo)>,
                  ghost infos: map<BlockKey, BlockInfo>)
      returns (status: StatusCode)
      requires recovered.env == env && Lists(entries, infos)
      modifies recovered, env
      ensures old(env.injected) <= env.injected && (status != OK ==> old(env.injected) < env.injected)
      ensures status == OK ==> recovered.table == Joined(old(recovered.table), tier, infos)
    {
      ghost var listed: map<BlockKey, BlockInfo> := map[];
      assert entries[..0] == [];
      assert recovered.table == Joined(recovered.table, tier, listed);
      var i := 0;
      while i < |entries|
        invariant i <= |entries| && old(env.injected) <= env.injected && Lists(entries[..i], listed)
        invariant recovered.table == Joined(old(recovered.table), tier, listed)
      {
        var (key, info) := entries[i];
        status := recovered.InsertIfAbsent(key, Location(tier, info.handle));
        if status != OK {
          return;
        }
        ListsNext(entries, infos, i, listed);
        JoinOne(old(recovered.table), tier, listed, key, info);
        listed := listed[key := info];
        i := i + 1;
      }
      assert entries[..i] == entries;
      ListsUnique(entries, infos, listed);
      status := OK;
    }

    /** Builds the index of what the open tiers hold, aside. */
    method RecoverIndex() returns (status: StatusCode, recovered: I.LocalIndex)
      requires Wired() && (ssd != null ==> ssd.open)
      modifies env
      ensures fresh(recovered) && recovered.env == env
      ensures old(env.injected) <= env.injected && (status != OK ==> old(env.injected) < env.injected)
      ensures status == OK ==> recovered.table == Recovered(Cfg(), Snap().dram, Snap().ssd)
    {
      recovered := new I.LocalIndex(env);
      status := RecoverTiers(recovered, Snap());
      JoinedIsRecovered(Cfg(), Tiers(), Snap());
    }

    /** Walks the tiers, hottest first, into an index that starts empty. */
    method RecoverTiers(recovered: I.LocalIndex, ghost s: State) returns (status: StatusCode)
      requires Wired() && (ssd != null ==> ssd.open) && s == Snap()
      requires recovered.env == env && recovered != index && recovered.table == map[]
      modifies recovered, env
      ensures old(env.injected) <= env.injected && (status != OK ==> old(env.injected) < env.injected)
      ensures status == OK ==> recovered.table == JoinedTiers(Tiers(), s, handleOf)
    {
      var i, count := 0, |Tiers()|;
      JoinedEnds(Tiers(), s, handleOf);
      while i < count
        invariant i <= count && old(env.injected) <= env.injected
        invariant recovered.table == JoinedTiers(Tiers()[..i], s, handleOf)
      {
        status := RecoverTier(recovered, i, s);
        if status != OK {
          return;
        }
        i := i + 1;
      }
      status := OK;
    }

    method RecoverTier(recovered: I.LocalIndex, i: nat, ghost s: State) returns (status: StatusCode)
      requires Wired() && (ssd != null ==> ssd.open) && s == Snap() && i < |Tiers()|
      requires recovered.env == env && recovered != index && recovered.table == JoinedTiers(Tiers()[..i], s, handleOf)
      modifies recovered, env
      ensures old(env.injected) <= env.injected && (status != OK ==> old(env.injected) < env.injected)
      ensures status == OK ==> recovered.table == JoinedTiers(Tiers()[..i + 1], s, handleOf)
    {
      var tier := Tiers()[i];
      var entries;
      status, entries := VisitTier(tier);
      if status == OK {
        status := Absorb(recovered, tier, entries, Inventory(tier, s, handleOf));
        JoinedNext(Tiers(), i, s, handleOf);
      }
    }

    /** Opens the tiers and builds the index aside, or closes what it opened. */
    method OpenAndRecover()
      returns (status: StatusCode, recovered: I.LocalIndex, ghost opens: seq<TierType>, ghost closes: seq<TierType>)
      requires Wired() && (ssd != null ==> !ssd.open)
      modifies env, ssd
      ensures Wired() && old(env.injected) <= env.injected && recovered.env == env
      ensures ssd != null ==> ssd.disk == old(ssd.disk) && ssd.open == (status == OK) && ssd.history == old(ssd.history)
      ensures ssd != null && old(S.Encodes(ssd.disk, ssd.contents)) ==> ssd.contents == old(ssd.contents)
      ensures status == OK ==> closes == [] && opens == Tiers()
      ensures status == OK ==> fresh(recovered) && recovered.table == Recovered(Cfg(), Snap().dram, Snap().ssd)
      ensures status != OK ==> opens <= Tiers() && closes == Reversed(opens)
      ensures env.injected == old(env.injected) ==> (status == OK <==> ssd == null || Reopens(ssd.disk))
      ensures env.injected == old(env.injected) && status != OK ==> status == Corruption
    {
      var count;
      status, count := OpenTiers();
      opens, closes := Tiers()[..count], [];
      if status == OK {
        status, recovered := RecoverIndex();
      } else {
        recovered := index;
      }
      if status != OK {
        closes := CloseTiers(count);
      }
    }

    /** Opens the node. A failure closes again exactly the tiers it opened, last one first, and leaves
        the index as it was. */
    method Open() returns (status: StatusCode, ghost opens: seq<TierType>, ghost closes: seq<TierType>)
      requires Wired() && Coherent(Cfg(), Life(), Snap())
      modifies this, index, env, ssd
      ensures Wired() && Coherent(Cfg(), Life(), Snap()) && old(env.injected) <= env.injected
      ensures ssd != null ==> ssd.disk == old(ssd.disk) && ssd.history == old(ssd.history)
      ensures status == OK <==> ready
      ensures old(ready) ==> status == OK
      ensures old(published) ==> Snap() == old(Snap()) && published
      ensures status == OK ==> closes == [] && opens == (if old(ready) then [] else Tiers())
      ensures status == OK && !old(published) ==>
        Snap() == old(Snap()).(index := Recovered(Cfg(), map[], Snap().ssd), ssd := Snap().ssd)
      ensures status != OK ==> opens <= Tiers() && closes == Reversed(opens) && published == old(published)
      ensures status != OK ==> Snap() == old(Snap()).(ssd := Snap().ssd)
      ensures Tiers() == [] ==> status == Internal
      ensures Tiers() != [] && env.injected == old(env.injected) ==>
        (status == OK <==> old(ready) || ssd == null || Reopens(ssd.disk))
      ensures Tiers() != [] && env.injected == old(env.injected) && status != OK ==> status == Corruption
    {
      opens, closes := [], [];
      if ready {
        return OK, opens, closes;
      }
      if Tiers() == [] {
        return Internal, opens, closes;
      }
      var recovered;
      status, recovered, opens, closes := OpenAndRecover();
      if status != OK {
        return;
      }
      if ssd != null {
        EncodedConsistent(ssd.disk, ssd.contents);
      }
      index.Swap(recovered);
      OpenEstablishes(Cfg(), old(Life()), old(Snap()), Snap());
      ready, published := true, true;
    }

    /** Closes every tier, last one first. Nothing stored changes. */
    method Close() returns (status: StatusCode, ghost closes: seq<TierType>)
      requires Wired() && Coherent(Cfg(), Life(), Snap())
      modifies this, ssd
      ensures Wired() && Coherent(Cfg(), Life(), Snap()) && Snap() == old(Snap()) && Disks() == old(Disks())
      ensures status == OK && !ready && published == old(published) && closes == Reversed(Tiers())
      ensures ssd != null ==> ssd.disk == old(ssd.disk) && !ssd.open
    {
      closes := CloseTiers(|Tiers()|);
      assert Tiers()[..|Tiers()|] == Tiers();
      ready := false;
      status := OK;
    }
  }
}
