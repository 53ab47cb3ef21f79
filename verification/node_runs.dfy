/** A storage node in use: any sequence of calls, whatever fails on the way, is explained by a plain
    map, and a new process over the same database starts from what was durable. */
module NodeRuns {
  import opened Status
  import opened Faults
  import opened Blocks
  import opened Buffers
  import opened EvictionPolicy
  import opened NodeModel
  import opened NodeRoom
  import opened StorageNode
  import NodeHistory
  import MapSums
  import BlockCodec
  import BlockKeyText
  import D = DramTier
  import L = LruPolicy
  import S = SsdTier

  datatype Request =
    | AskPut(key: BlockKey, block: Block)
    | AskGet(key: BlockKey, dst: MutableBuffer)
    | AskOpen
    | AskClose

  /** A request and its answer. */
  datatype Call = Call(request: Request, status: StatusCode, view: BlockView)

  /** The reference: a map that is open or not. */
  datatype PlainMap = PlainMap(ready: bool, live: map<BlockKey, Block>)

  /** Where a run is between two calls: whether the node is open, what it stores, and its database. */
  datatype Moment = Moment(ready: bool, state: State, disk: S.Database)

  ghost function PlainOf(m: Moment): PlainMap {
    PlainMap(m.ready, Logical(m.state))
  }

  /** The node has tiers, and its database is acceptable. */
  ghost predicate CanOpen(cfg: Config, disk: S.Database) {
    if cfg.hasSsd then Reopens(disk) else cfg.hasDram
  }

  /** The answers that the plain map allows; `quiet` says that nothing failed during the call. */
  ghost predicate Allows(cfg: Config, m: Moment, c: Call, quiet: bool) {
    match c.request
    case AskPut(key, block) =>
      if m.ready then ComesTo(c.status, PutStatus(cfg, m.state, key, block), !quiet)
      else c.status == Unavailable
    case AskGet(key, dst) =>
      if m.ready then Answers(Logical(m.state), key, dst, quiet, c.status, c.view)
      else c.status == Unavailable && c.view == EMPTY_VIEW
    case AskOpen =>
      if m.ready then c.status == OK
      else
        && (quiet ==> (c.status == OK <==> CanOpen(cfg, m.disk)))
        && (quiet && c.status != OK ==> c.status == if cfg.hasDram || cfg.hasSsd then Corruption else Internal)
    case AskClose => c.status == OK
  }

  /** The plain map after a call: only a put that was acknowledged changes a value. */
  ghost function After(p: PlainMap, c: Call): PlainMap {
    match c.request
    case AskPut(key, block) => if c.status == OK then p.(live := p.live[key := block]) else p
    case AskGet(_, _) => p
    case AskOpen => p.(ready := c.status == OK)
    case AskClose => p.(ready := false)
  }

  /** The steps that the call committed. */
  ghost predicate Did(cfg: Config, m: Moment, c: Call, log: seq<Event>) {
    if !m.ready then log == []
    else
      match c.request
      case AskPut(key, block) => PutLog(cfg, m.state, key, block, c.status, log)
      case AskGet(key, _) =>
        GetLog(m.state, key, c.status, false, log) || GetLog(m.state, key, c.status, true, log)
      case _ => log == []
  }

  /** One call takes the run from `m` to `w`. */
  ghost predicate Happens(cfg: Config, m: Moment, c: Call, quiet: bool, log: seq<Event>, w: Moment) {
    && Allows(cfg, m, c, quiet) && Did(cfg, m, c, log)
    && Reaches(cfg, m.state, log, w.state) && PlainOf(w) == After(PlainOf(m), c)
    && (w.disk == m.disk || S.Encodes(w.disk, w.state.ssd))
  }

  ghost predicate CallAt(cfg: Config, moments: seq<Moment>, calls: seq<Call>, quiet: seq<bool>, logs: seq<seq<Event>>, i: int) {
    0 <= i < |calls| && i < |quiet| && i < |logs| && i + 1 < |moments| ==>
      Happens(cfg, moments[i], calls[i], quiet[i], logs[i], moments[i + 1])
  }

  ghost predicate IsTrace(cfg: Config, m: Moment, calls: seq<Call>, quiet: seq<bool>, w: Moment,
                          moments: seq<Moment>, logs: seq<seq<Event>>)
  {
    && |moments| == |calls| + 1 && |quiet| == |calls| && |logs| == |calls| && moments[0] == m && moments[|calls|] == w
    && forall i :: CallAt(cfg, moments, calls, quiet, logs, i)
  }

  /** The plain map allows every one of the calls, in order, and they take it from `m` to `w`. */
  ghost predicate Explains(cfg: Config, m: Moment, calls: seq<Call>, quiet: seq<bool>, w: Moment) {
    exists moments: seq<Moment>, logs: seq<seq<Event>> :: IsTrace(cfg, m, calls, quiet, w, moments, logs)
  }

  lemma ExplainsNone(cfg: Config, m: Moment)
    ensures Explains(cfg, m, [], [], m)
  {
    assert IsTrace(cfg, m, [], [], m, [m], []);
  }

  /** One more call, if the earlier ones were explained. */
  lemma ExplainsMore(cfg: Config, m: Moment, calls: seq<Call>, quiet: seq<bool>, w: Moment,
                     c: Call, q: bool, log: seq<Event>, next: Moment)
    requires Explains(cfg, m, calls, quiet, w) && Happens(cfg, w, c, q, log, next)
    ensures Explains(cfg, m, calls + [c], quiet + [q], next)
  {
    var moments: seq<Moment>, logs: seq<seq<Event>> :| IsTrace(cfg, m, calls, quiet, w, moments, logs);
    var moments', logs' := moments + [next], logs + [log];
    forall i
      ensures CallAt(cfg, moments', calls + [c], quiet + [q], logs', i)
    {
      assert CallAt(cfg, moments, calls, quiet, logs, i);
    }
    assert IsTrace(cfg, m, calls + [c], quiet + [q], next, moments', logs');
  }

  lemma EffectsLast(a: Abstract, log: seq<Event>, e: Event)
    ensures Effects(a, log + [e]) == Effect(Effects(a, log), e)
  {
    assert (log + [e])[..|log|] == log;
  }

  /** Demotions and then one more step: the values are what that step makes of them. */
  lemma AfterDemotions(a: Abstract, room: seq<Event>, replaced: Option<BlockKey>, incoming: nat, e: Event)
    requires OnlyDemotions(room, replaced, incoming) && !e.Restart?
    ensures Effects(a, room).live == a.live
    ensures Effects(a, room + [e]).live == Effect(a, e).live
  {
    DemotionsChangeNothing(a, room, replaced, incoming);
    EffectsLast(a, room, e);
  }

  /** The value-level meaning of what a Put commits. */
  lemma PutEffect(cfg: Config, s: State, key: BlockKey, block: Block, status: StatusCode, log: seq<Event>, a: Abstract)
    requires PutLog(cfg, s, key, block, status, log)
    ensures Effects(a, log).live == if status == OK then a.live[key := block] else a.live
  {
    if HoldsInDram(cfg, block.Size()) {
      var room :| HotPut(room, ReplacedBy(s, key), key, block, status, log);
      HotPutEffect(room, ReplacedBy(s, key), key, block, status, log, a);
    } else if status == OK {
      OneEffect(a, PutSsd(key, block));
    }
  }

  lemma HotPutEffect(room: seq<Event>, replaced: Option<BlockKey>, key: BlockKey, block: Block,
                     status: StatusCode, log: seq<Event>, a: Abstract)
    requires HotPut(room, replaced, key, block, status, log)
    ensures Effects(a, log).live == if status == OK then a.live[key := block] else a.live
  {
    var e := if status == OK then PutDram(key, block)
             else if log == room + [AbortWrite(key, block)] then AbortWrite(key, block)
             else AbortAdmit(key, block);
    AfterDemotions(a, room, replaced, block.Size(), e);
  }

  lemma OneEffect(a: Abstract, e: Event)
    ensures Effects(a, [e]) == Effect(a, e)
  {
    EffectsLast(a, [], e);
    assert [] + [e] == [e];
  }

  lemma PromotionEffect(room: seq<Event>, key: BlockKey, block: Block, promoted: bool, log: seq<Event>, a: Abstract)
    requires PromotionLog(room, key, block, promoted, log)
    ensures Effects(a, log).live == a.live
  {
    AfterDemotions(a, room, None, block.Size(), if promoted then Promote(key) else AbortWrite(key, block));
  }

  lemma GetEffect(s: State, key: BlockKey, status: StatusCode, promoted: bool, log: seq<Event>, a: Abstract)
    requires GetLog(s, key, status, promoted, log)
    ensures Effects(a, log).live == a.live
  {
    if status == OK {
      if key in s.dram {
        OneEffect(a, Hit(key));
      } else {
        var room :| PromotionLog(room, key, s.ssd[key], promoted, log);
        PromotionEffect(room, key, s.ssd[key], promoted, log, a);
      }
    }
  }

  lemma ReachesRefines(cfg: Config, s: State, log: seq<Event>, u: State)
    requires Inv(cfg, s) && Reaches(cfg, s, log, u)
    ensures Abs(u) == Effects(Abs(s), log)
  {
    ReachesIsRun(cfg, s, log, u);
    RunRefines(cfg, s, log);
  }

  /** Put and Get, seen through the plain map. */
  lemma PutRefines(cfg: Config, s: State, u: State, key: BlockKey, block: Block, status: StatusCode, log: seq<Event>)
    requires Inv(cfg, s) && Reaches(cfg, s, log, u) && PutLog(cfg, s, key, block, status, log)
    ensures Logical(u) == if status == OK then Logical(s)[key := block] else Logical(s)
  {
    ReachesRefines(cfg, s, log, u);
    PutEffect(cfg, s, key, block, status, log, Abs(s));
  }

  lemma GetRefines(cfg: Config, s: State, u: State, key: BlockKey, status: StatusCode, promoted: bool, log: seq<Event>)
    requires Inv(cfg, s) && Reaches(cfg, s, log, u) && GetLog(s, key, status, promoted, log)
    ensures Logical(u) == Logical(s)
  {
    ReachesRefines(cfg, s, log, u);
    GetEffect(s, key, status, promoted, log, Abs(s));
  }

  // ---- The node behind the run ----

  /** What a node that has never been open would store once it is: its database, and nothing in DRAM. */
  ghost function Booted(cfg: Config, s: State, contents: map<BlockKey, Block>): State {
    State(Recovered(cfg, map[], contents), map[], s.nextHandle, contents, s.policy)
  }

  ghost function Base(node: StorageNode): State
    reads node, node.index, node.dram, node.ssd, node.policy
  {
    if node.published then node.Snap()
    else Booted(node.Cfg(), node.Snap(), if node.ssd == null then map[] else S.Decoded(node.ssd.disk))
  }

  ghost function Now(node: StorageNode): Moment
    reads node, node.index, node.dram, node.ssd, node.policy
  {
    Moment(node.ready, Base(node), if node.ssd == null then map[] else node.ssd.disk)
  }

  /** What a node that has never been open will store keeps the agreement, and is its database. */
  lemma BootedInv(cfg: Config, s: State, contents: map<BlockKey, Block>)
    requires PolicyInv(s.policy, {}) && (!cfg.hasSsd ==> contents == map[])
    requires forall k :: k in contents ==> Consistent(k, contents[k].metadata)
    ensures Inv(cfg, Booted(cfg, s, contents)) && Logical(Booted(cfg, s, contents)) == contents
  {
    MapSums.SumEmpty<BlockKey, D.Entry>(D.EntrySize);
    assert Merged(map[], contents) == contents;
    LogicalIsMerged(cfg, Booted(cfg, s, contents));
  }

  lemma DecodedConsistent(disk: S.Database)
    ensures forall k :: k in S.Decoded(disk) ==> Consistent(k, S.Decoded(disk)[k].metadata)
  {
    if exists contents :: S.Encodes(disk, contents) {
      EncodedConsistent(disk, S.Decoded(disk));
    }
  }

  /** Every node, opened or not, starts a run from a state that keeps the agreement. */
  lemma BaseInv(node: StorageNode)
    requires node.Wired() && Coherent(node.Cfg(), node.Life(), node.Snap())
    ensures Inv(node.Cfg(), Base(node))
    ensures !node.published && node.ssd != null ==> Logical(Base(node)) == S.Decoded(node.ssd.disk)
  {
    if !node.published {
      if node.ssd != null {
        DecodedConsistent(node.ssd.disk);
      }
      BootedInv(node.Cfg(), node.Snap(), if node.ssd == null then map[] else S.Decoded(node.ssd.disk));
    }
  }

  /** A node that is not ready is left alone by Put and Get. */
  lemma IdleHappens(cfg: Config, m: Moment, c: Call, quiet: bool)
    requires !m.ready && c.status == Unavailable && c.view == EMPTY_VIEW && (c.request.AskPut? || c.request.AskGet?)
    ensures Happens(cfg, m, c, quiet, [], m)
  {
    ReachesSelf(cfg, m.state);
  }

  lemma PutHappens(cfg: Config, s: State, u: State, key: BlockKey, block: Block, status: StatusCode,
                   quiet: bool, log: seq<Event>, before: S.Database, after: S.Database)
    requires after == before || S.Encodes(after, u.ssd)
    requires Inv(cfg, s) && Reaches(cfg, s, log, u) && PutLog(cfg, s, key, block, status, log)
    requires ComesTo(status, PutStatus(cfg, s, key, block), !quiet)
    ensures Happens(cfg, Moment(true, s, before), Call(AskPut(key, block), status, EMPTY_VIEW), quiet, log, Moment(true, u, after))
  {
    PutRefines(cfg, s, u, key, block, status, log);
  }

  lemma GetHappens(cfg: Config, s: State, u: State, key: BlockKey, dst: MutableBuffer, status: StatusCode,
                   view: BlockView, promoted: bool, quiet: bool, log: seq<Event>, before: S.Database, after: S.Database)
    requires after == before || S.Encodes(after, u.ssd)
    requires Inv(cfg, s) && Reaches(cfg, s, log, u) && GetLog(s, key, status, promoted, log)
    requires Answers(Logical(s), key, dst, quiet, status, view)
    ensures Happens(cfg, Moment(true, s, before), Call(AskGet(key, dst), status, view), quiet, log, Moment(true, u, after))
  {
    GetRefines(cfg, s, u, key, status, promoted, log);
  }

  lemma LifeHappens(cfg: Config, m: Moment, c: Call, quiet: bool, ready: bool)
    requires (c.request.AskOpen? && Allows(cfg, m, c, quiet) && ready == (c.status == OK)) ||
             (c.request.AskClose? && c.status == OK && !ready)
    ensures Happens(cfg, m, c, quiet, [], m.(ready := ready))
  {
    ReachesSelf(cfg, m.state);
  }

  method ServePut(node: StorageNode, key: BlockKey, block: Block) returns (c: Call, ghost log: seq<Event>)
    requires node.Wired() && Coherent(node.Cfg(), node.Life(), node.Snap())
    modifies node.index, node.env, node.dram, node.ssd, node.policy
    ensures node.Wired() && Coherent(node.Cfg(), node.Life(), node.Snap())
    ensures old(node.env.injected) <= node.env.injected && c.request == AskPut(key, block)
    ensures Took(node.Cfg(), old(Base(node)), log, Base(node), old(node.Disks()), node.Disks())
    ensures Happens(node.Cfg(), old(Now(node)), c, node.env.injected == old(node.env.injected), log, Now(node))
  {
    ghost var m := Now(node);
    var status;
    status, log := node.Put(key, block);
    c := Call(AskPut(key, block), status, EMPTY_VIEW);
    ghost var quiet := node.env.injected == old(node.env.injected);
    if node.ready {
      PutHappens(node.Cfg(), m.state, node.Snap(), key, block, status, quiet, log, m.disk, Now(node).disk);
    } else {
      IdleHappens(node.Cfg(), m, c, quiet);
      TookNothing(node.Cfg(), m.state, node.Disks());
    }
  }

  method ServeGet(node: StorageNode, key: BlockKey, dst: MutableBuffer) returns (c: Call, ghost log: seq<Event>)
    requires node.Wired() && Coherent(node.Cfg(), node.Life(), node.Snap())
    modifies node.index, node.env, node.dram, node.ssd, node.policy
    ensures node.Wired() && Coherent(node.Cfg(), node.Life(), node.Snap())
    ensures old(node.env.injected) <= node.env.injected && c.request == AskGet(key, dst)
    ensures Took(node.Cfg(), old(Base(node)), log, Base(node), old(node.Disks()), node.Disks())
    ensures Happens(node.Cfg(), old(Now(node)), c, node.env.injected == old(node.env.injected), log, Now(node))
  {
    ghost var m := Now(node);
    var status, view, promoted;
    status, view, promoted, log := node.Get(key, dst);
    c := Call(AskGet(key, dst), status, view);
    ghost var quiet := node.env.injected == old(node.env.injected);
    if node.ready {
      GetHappens(node.Cfg(), m.state, node.Snap(), key, dst, status, view, promoted, quiet, log, m.disk, Now(node).disk);
    } else {
      IdleHappens(node.Cfg(), m, c, quiet);
      TookNothing(node.Cfg(), m.state, node.Disks());
    }
  }

  method ServeOpen(node: StorageNode) returns (c: Call)
    requires node.Wired() && Coherent(node.Cfg(), node.Life(), node.Snap())
    modifies node, node.index, node.env, node.ssd
    ensures node.Wired() && Coherent(node.Cfg(), node.Life(), node.Snap())
    ensures old(node.env.injected) <= node.env.injected && c.request == AskOpen
    ensures Base(node) == old(Base(node)) && node.Disks() == old(node.Disks())
    ensures Happens(node.Cfg(), old(Now(node)), c, node.env.injected == old(node.env.injected), [], Now(node))
  {
    ghost var m := Now(node);
    var status, _, _ := node.Open();
    c := Call(AskOpen, status, EMPTY_VIEW);
    if status == OK && node.ssd != null {
      S.DecodedIs(node.ssd.disk, node.ssd.contents);
    }
    LifeHappens(node.Cfg(), m, c, node.env.injected == old(node.env.injected), node.ready);
  }

  method ServeClose(node: StorageNode) returns (c: Call)
    requires node.Wired() && Coherent(node.Cfg(), node.Life(), node.Snap())
    modifies node, node.ssd
    ensures node.Wired() && Coherent(node.Cfg(), node.Life(), node.Snap()) && c.request == AskClose
    ensures Base(node) == old(Base(node)) && node.Disks() == old(node.Disks())
    ensures Happens(node.Cfg(), old(Now(node)), c, true, [], Now(node))
  {
    ghost var m := Now(node);
    var status, _ := node.Close();
    c := Call(AskClose, status, EMPTY_VIEW);
    LifeHappens(node.Cfg(), m, c, true, false);
  }

  /** One call on any node, open or not, opened before or never. */
  method ServeOne(node: StorageNode, r: Request) returns (c: Call, ghost log: seq<Event>)
    requires node.Wired() && Coherent(node.Cfg(), node.Life(), node.Snap())
    modifies node, node.index, node.env, node.dram, node.ssd, node.policy
    ensures node.Wired() && Coherent(node.Cfg(), node.Life(), node.Snap())
    ensures old(node.env.injected) <= node.env.injected && c.request == r
    ensures Took(node.Cfg(), old(Base(node)), log, Base(node), old(node.Disks()), node.Disks())
    ensures Happens(node.Cfg(), old(Now(node)), c, node.env.injected == old(node.env.injected), log, Now(node))
  {
    log := [];
    TookNothing(node.Cfg(), Base(node), node.Disks());
    match r
    case AskPut(key, block) =>
      c, log := ServePut(node, key, block);
    case AskGet(key, dst) =>
      c, log := ServeGet(node, key, dst);
    case AskOpen =>
      c := ServeOpen(node);
    case AskClose =>
      c := ServeClose(node);
  }

  lemma OneMoreCall(cfg: Config, m: Moment, calls: seq<Call>, quiet: seq<bool>, log: seq<Event>, w: Moment,
                    c: Call, q: bool, more: seq<Event>, next: Moment,
                    before: seq<S.Database>, between: seq<S.Database>, after: seq<S.Database>)
    requires Explains(cfg, m, calls, quiet, w) && Happens(cfg, w, c, q, more, next)
    requires Took(cfg, m.state, log, w.state, before, between) && Took(cfg, w.state, more, next.state, between, after)
    ensures Explains(cfg, m, calls + [c], quiet + [q], next)
    ensures Took(cfg, m.state, log + more, next.state, before, after)
    ensures Loud(quiet + [q]) == Loud(quiet) + if q then 0 else 1
  {
    TookAppend(cfg, m.state, log, w.state, more, next.state, before, between, after);
    ExplainsMore(cfg, m, calls, quiet, w, c, q, more, next);
    LoudMore(quiet, q);
  }

  /** Any sequence of calls on any node, a new one over any database included: what it answers is what
      the plain map would answer, call by call, and what it committed is a run of the model whose every
      prefix the database went through. `quiet` says of each call that it met no failure. */
  method Serve(node: StorageNode, requests: seq<Request>)
    returns (calls: seq<Call>, ghost quiet: seq<bool>, ghost log: seq<Event>)
    requires node.Wired() && Coherent(node.Cfg(), node.Life(), node.Snap())
    modifies node, node.index, node.env, node.dram, node.ssd, node.policy
    ensures node.Wired() && Coherent(node.Cfg(), node.Life(), node.Snap())
    ensures |calls| == |requests| && forall i :: 0 <= i < |calls| ==> calls[i].request == requests[i]
    ensures Took(node.Cfg(), old(Base(node)), log, Base(node), old(node.Disks()), node.Disks())
    ensures Explains(node.Cfg(), old(Now(node)), calls, quiet, Now(node))
    ensures Loud(quiet) <= node.env.injected - old(node.env.injected)
    ensures Inv(node.Cfg(), old(Base(node))) && Inv(node.Cfg(), Base(node))
    decreases |requests|
  {
    if requests == [] {
      BaseInv(node);
      TookNothing(node.Cfg(), Base(node), node.Disks());
      ExplainsNone(node.Cfg(), Now(node));
      return [], [], [];
    }
    calls, quiet, log := Serve(node, requests[..|requests| - 1]);
    ghost var m, held, failures := Now(node), node.Disks(), node.env.injected;
    var c, more := ServeOne(node, requests[|requests| - 1]);
    ghost var q := node.env.injected == failures;
    OneMoreCall(node.Cfg(), old(Now(node)), calls, quiet, log, m, c, q, more, Now(node), old(node.Disks()), held, node.Disks());
    calls, quiet, log := calls + [c], quiet + [q], log + more;
    BaseInv(node);
  }

  // ---- Puts that must be acknowledged ----

  /** Every DRAM write of the log fits its key. */
  ghost predicate WritesConsistent(log: seq<Event>) {
    forall i :: 0 <= i < |log| ==> WriteConsistent(log[i])
  }

  predicate WriteConsistent(e: Event) {
    e.PutDram? ==> Consistent(e.key, e.block.metadata)
  }

  lemma ConsistentStep(cfg: Config, s: State, e: Event)
    requires Inv(cfg, s) && AllConsistent(s.dram) && WriteConsistent(e)
    ensures AllConsistent(Apply(cfg, s, e).dram)
  {
  }

  lemma KindStep(cfg: Config, s: State, e: Event)
    ensures Apply(cfg, s, e).policy == NoPolicy <==> s.policy == NoPolicy
  {
  }

  /** DRAM blocks stay acceptable to SSD as long as every block put is. */
  lemma {:induction false} ConsistentRun(cfg: Config, s: State, log: seq<Event>)
    requires Inv(cfg, s) && Legal(cfg, s, log) && AllConsistent(s.dram) && WritesConsistent(log)
    ensures AllConsistent(Run(cfg, s, log).dram) && (Run(cfg, s, log).policy == NoPolicy <==> s.policy == NoPolicy)
  {
    if log != [] {
      var before := log[..|log| - 1];
      forall i | 0 <= i < |before|
        ensures WriteConsistent(before[i])
      {
        assert WriteConsistent(log[i]);
      }
      ConsistentRun(cfg, s, before);
      RunKeepsInv(cfg, s, before);
      assert WriteConsistent(log[|log| - 1]);
      ConsistentStep(cfg, Run(cfg, s, before), log[|log| - 1]);
      KindStep(cfg, Run(cfg, s, before), log[|log| - 1]);
    }
  }

  predicate AskConsistent(r: Request) {
    r.AskPut? ==> Consistent(r.key, r.block.metadata)
  }

  lemma RoomWritesNothing(room: seq<Event>, replaced: Option<BlockKey>, incoming: nat, e: Event, log: seq<Event>)
    requires OnlyDemotions(room, replaced, incoming) && WriteConsistent(e) && (log == room || log == room + [e])
    ensures WritesConsistent(log)
  {
  }

  lemma DidConsistently(cfg: Config, m: Moment, c: Call, log: seq<Event>)
    requires Did(cfg, m, c, log) && AskConsistent(c.request)
    ensures WritesConsistent(log)
  {
    if m.ready {
      match c.request
      case AskPut(key, block) =>
        if HoldsInDram(cfg, block.Size()) {
          var room :| HotPut(room, ReplacedBy(m.state, key), key, block, c.status, log);
          var e := if log == room + [PutDram(key, block)] then PutDram(key, block)
                   else if log == room + [AbortWrite(key, block)] then AbortWrite(key, block)
                   else AbortAdmit(key, block);
          RoomWritesNothing(room, ReplacedBy(m.state, key), block.Size(), e, log);
        }
      case AskGet(key, _) =>
        if c.status == OK && key !in m.state.dram {
          GetWritesNothing(m.state, key, log);
        }
      case _ =>
    }
  }

  lemma GetWritesNothing(s: State, key: BlockKey, log: seq<Event>)
    requires key !in s.dram && (GetLog(s, key, OK, false, log) || GetLog(s, key, OK, true, log))
    ensures WritesConsistent(log)
  {
    var promoted := GetLog(s, key, OK, true, log);
    var room :| PromotionLog(room, key, s.ssd[key], promoted, log);
    RoomWritesNothing(room, None, s.ssd[key].Size(), if promoted then Promote(key) else AbortWrite(key, s.ssd[key]), log);
  }

  /** A node that can make room for every block it is given: LRU or ARC over SSD, or no DRAM at all. */
  ghost predicate Capable(cfg: Config, s: State) {
    cfg.hasSsd && cfg.capacity < TWO_63 && (cfg.hasDram ==> s.policy != NoPolicy) && AllConsistent(s.dram)
  }

  lemma NotRefused(cfg: Config, s: State, key: BlockKey, block: Block)
    requires Inv(cfg, s) && Capable(cfg, s) && Consistent(key, block.metadata)
    ensures PutStatus(cfg, s, key, block) == OK
  {
    if HoldsInDram(cfg, block.Size()) && cfg.capacity != 0 {
      FootprintIs(s.dram, ReplacedBy(s, key), block.Size());
      ConsistentClears(cfg.capacity, s.dram, s.policy, ReplacedBy(s, key), block.Size());
    }
  }

  lemma CapableStays(cfg: Config, m: Moment, c: Call, quiet: bool, log: seq<Event>, w: Moment)
    requires Inv(cfg, m.state) && Capable(cfg, m.state) && AskConsistent(c.request) && Happens(cfg, m, c, quiet, log, w)
    ensures Inv(cfg, w.state) && Capable(cfg, w.state)
  {
    DidConsistently(cfg, m, c, log);
    ReachesIsRun(cfg, m.state, log, w.state);
    ConsistentRun(cfg, m.state, log);
    RunKeepsInv(cfg, m.state, log);
  }

  lemma {:induction false} CapableThroughout(cfg: Config, calls: seq<Call>, quiet: seq<bool>,
                                             moments: seq<Moment>, logs: seq<seq<Event>>, n: nat)
    requires n <= |calls| && |moments| == |calls| + 1
    requires IsTrace(cfg, moments[0], calls, quiet, moments[|calls|], moments, logs)
    requires Inv(cfg, moments[0].state) && Capable(cfg, moments[0].state)
    requires forall i :: 0 <= i < |calls| ==> AskConsistent(calls[i].request)
    ensures Inv(cfg, moments[n].state) && Capable(cfg, moments[n].state)
  {
    if n > 0 {
      CapableThroughout(cfg, calls, quiet, moments, logs, n - 1);
      assert CallAt(cfg, moments, calls, quiet, logs, n - 1);
      CapableStays(cfg, moments[n - 1], calls[n - 1], quiet[n - 1], logs[n - 1], moments[n]);
    }
  }

  /** Whether the node is open before call `i`, as its answers say. */
  function ReadyBefore(ready: bool, calls: seq<Call>, i: nat): bool
    requires i <= |calls|
  {
    if i == 0 then ready
    else
      match calls[i - 1].request
      case AskOpen => calls[i - 1].status == OK
      case AskClose => false
      case _ => ReadyBefore(ready, calls, i - 1)
  }

  lemma {:induction false} ReadyThroughout(cfg: Config, calls: seq<Call>, quiet: seq<bool>,
                                           moments: seq<Moment>, logs: seq<seq<Event>>, n: nat)
    requires n <= |calls| && |moments| == |calls| + 1
    requires IsTrace(cfg, moments[0], calls, quiet, moments[|calls|], moments, logs)
    ensures moments[n].ready == ReadyBefore(moments[0].ready, calls, n)
  {
    if n > 0 {
      ReadyThroughout(cfg, calls, quiet, moments, logs, n - 1);
      assert CallAt(cfg, moments, calls, quiet, logs, n - 1);
    }
  }

  /** In every run of a capable node that is given acceptable blocks only, each put on the open node
      that meets no failure is acknowledged, whatever failed in other calls. */
  lemma QuietPutsSucceed(cfg: Config, m: Moment, calls: seq<Call>, quiet: seq<bool>, w: Moment, i: nat)
    requires Explains(cfg, m, calls, quiet, w) && Inv(cfg, m.state) && Capable(cfg, m.state)
    requires forall j :: 0 <= j < |calls| ==> AskConsistent(calls[j].request)
    requires i < |calls| && |quiet| == |calls| && calls[i].request.AskPut? && quiet[i] && ReadyBefore(m.ready, calls, i)
    ensures calls[i].status == OK
  {
    var moments: seq<Moment>, logs: seq<seq<Event>> :| IsTrace(cfg, m, calls, quiet, w, moments, logs);
    CapableThroughout(cfg, calls, quiet, moments, logs, i);
    ReadyThroughout(cfg, calls, quiet, moments, logs, i);
    assert CallAt(cfg, moments, calls, quiet, logs, i);
    NotRefused(cfg, moments[i].state, calls[i].request.key, calls[i].request.block);
  }

  // ---- Reads ----

  /** The values before call `i`: those at the start, and every acknowledged put since. */
  function LiveBefore(live: map<BlockKey, Block>, calls: seq<Call>, i: nat): map<BlockKey, Block>
    requires i <= |calls|
  {
    if i == 0 then live
    else
      var before := LiveBefore(live, calls, i - 1);
      match calls[i - 1].request
      case AskPut(key, block) => if calls[i - 1].status == OK then before[key := block] else before
      case _ => before
  }

  lemma {:induction false} LiveThroughout(cfg: Config, calls: seq<Call>, quiet: seq<bool>,
                                          moments: seq<Moment>, logs: seq<seq<Event>>, n: nat)
    requires n <= |calls| && |moments| == |calls| + 1
    requires IsTrace(cfg, moments[0], calls, quiet, moments[|calls|], moments, logs)
    ensures Logical(moments[n].state) == LiveBefore(Logical(moments[0].state), calls, n)
  {
    if n > 0 {
      LiveThroughout(cfg, calls, quiet, moments, logs, n - 1);
      assert CallAt(cfg, moments, calls, quiet, logs, n - 1);
    }
  }

  /** In every run, whatever fails, a read that succeeds returns the last acknowledged put of its key, and no
      more bytes than the caller has room for. One on the open node that meets no failure misses exactly
      the keys never put, refuses a null pointer with a size, then a buffer that is too small, and
      succeeds otherwise. */
  lemma ReadsAreExact(cfg: Config, m: Moment, calls: seq<Call>, quiet: seq<bool>, w: Moment, i: nat)
    requires Explains(cfg, m, calls, quiet, w) && i < |calls| && |quiet| == |calls| && calls[i].request.AskGet?
    ensures var c, live := calls[i], LiveBefore(Logical(m.state), calls, i);
            var key, dst := c.request.key, c.request.dst;
            && (c.status == OK ==>
                  && key in live && c.view.data == live[key].data && c.view.metadata == live[key].metadata
                  && |c.view.data| <= dst.capacity)
            && (quiet[i] && ReadyBefore(m.ready, calls, i) ==>
                  c.status == if key !in live then NotFound
                              else if dst.isNull && dst.capacity != 0 then InvalidArgument
                              else if dst.capacity < |live[key].data| then OutOfCapacity
                              else OK)
  {
    var moments: seq<Moment>, logs: seq<seq<Event>> :| IsTrace(cfg, m, calls, quiet, w, moments, logs);
    ReadyThroughout(cfg, calls, quiet, moments, logs, i);
    LiveThroughout(cfg, calls, quiet, moments, logs, i);
    assert CallAt(cfg, moments, calls, quiet, logs, i);
  }

  // ---- A victim that SSD refuses ----

  /** While an oldest block that SSD refuses is next in line, every put that needs room is stuck: it
      fails and changes nothing (StorageNode.Put), so the block stays next in line. */
  lemma BlockedPutsAreStuck(cfg: Config, s: State, log: seq<Event>, v: BlockKey, key: BlockKey, block: Block)
    requires Inv(cfg, s) && Legal(cfg, s, log) && NodeHistory.Blocked(s, v)
    requires forall i :: 0 <= i < |log| ==> NodeHistory.Ignores(log[i], v)
    requires cfg.hasSsd && key != v && HoldsInDram(cfg, block.Size())
    requires var u := Run(cfg, s, log); 0 < cfg.capacity < Footprint(u.dram, ReplacedBy(u, key), block.Size()) < TWO_64
    ensures PutStuck(cfg, Run(cfg, s, log), key, block) && PutStatus(cfg, Run(cfg, s, log), key, block) == InvalidArgument
  {
    NodeHistory.BlockedForever(cfg, s, log, v);
    BlockedIsStuck(cfg, Run(cfg, s, log), v, key, block);
    StuckPutFails(cfg, Run(cfg, s, log), key, block);
  }

  lemma BlockedIsStuck(cfg: Config, s: State, v: BlockKey, key: BlockKey, block: Block)
    requires NodeHistory.Blocked(s, v) && cfg.hasSsd && key != v && HoldsInDram(cfg, block.Size())
    requires 0 < cfg.capacity < Footprint(s.dram, ReplacedBy(s, key), block.Size()) < TWO_64
    ensures PutStuck(cfg, s, key, block)
  {
  }

  /** A stuck put commits nothing, whatever else fails. */
  lemma StuckPutCommitsNothing(cfg: Config, s: State, u: State, key: BlockKey, block: Block, status: StatusCode, log: seq<Event>)
    requires Inv(cfg, s) && PutStuck(cfg, s, key, block)
    requires PutLog(cfg, s, key, block, status, log) && Reaches(cfg, s, log, u)
    ensures log == []
  {
    if log != [] {
      var states: seq<State> :| IsRun(cfg, s, log, u, states);
      assert StepAt(cfg, states, log, 0);
      StuckStart(cfg, s, key, block, status, log);
      assert false;
    }
  }

  lemma StuckStart(cfg: Config, s: State, key: BlockKey, block: Block, status: StatusCode, log: seq<Event>)
    requires Inv(cfg, s) && PutStuck(cfg, s, key, block) && PutLog(cfg, s, key, block, status, log) && log != []
    ensures !Enabled(cfg, s, log[0])
  {
    var replaced := ReplacedBy(s, key);
    var room :| HotPut(room, replaced, key, block, status, log);
    if room != [] {
      assert log[0] == room[0];
    } else {
      Agreement(cfg, s, key);
      assert key !in s.dram ==> s.dram - {key} == s.dram;
    }
  }

  lemma StuckPutFails(cfg: Config, s: State, key: BlockKey, block: Block)
    requires PutStuck(cfg, s, key, block)
    ensures PutStatus(cfg, s, key, block) == InvalidArgument
  {
    var replaced := ReplacedBy(s, key);
    RoomAtBadVictim(cfg, s, s.policy.Victim(replaced).value, replaced, block.Size());
  }

  /** One put of a block that does not fit its key, into a new LRU node, is enough to get there. */
  lemma BlockedIsReachable(cfg: Config, s: State, v: BlockKey, bad: Block, key: BlockKey, block: Block)
    requires Inv(cfg, s) && s.dram == map[] && s.policy.Lru? && cfg.hasDram && cfg.hasSsd
    requires !Consistent(v, bad.metadata) && key != v
    requires bad.Size() <= cfg.capacity && block.Size() <= cfg.capacity < bad.Size() + block.Size() < TWO_64
    ensures var log := [PutDram(v, bad)];
            && Legal(cfg, s, log) && NodeHistory.Blocked(Run(cfg, s, log), v)
            && PutStuck(cfg, Run(cfg, s, log), key, block) && PutStatus(cfg, Run(cfg, s, log), key, block) == InvalidArgument
  {
    var u := Apply(cfg, s, PutDram(v, bad));
    FirstBlock(cfg, s, v, bad);
    RunStep(cfg, s, [], PutDram(v, bad));
    assert [] + [PutDram(v, bad)] == [PutDram(v, bad)];
    assert key !in u.dram && v in u.dram;
    StuckPutFails(cfg, u, key, block);
  }

  /** An empty LRU node after one put. */
  lemma FirstBlock(cfg: Config, s: State, v: BlockKey, block: Block)
    requires Inv(cfg, s) && s.dram == map[] && s.policy.Lru? && cfg.hasDram && block.Size() <= cfg.capacity
    ensures Enabled(cfg, s, PutDram(v, block))
    ensures var u := Apply(cfg, s, PutDram(v, block));
            && u.dram == map[v := D.Entry(block, s.nextHandle)] && D.Bytes(u.dram) == block.Size()
            && u.policy.Lru? && u.policy.lru.order == [v]
  {
    MapSums.SumEmpty<BlockKey, D.Entry>(D.EntrySize);
    MapSums.SumPut(s.dram, D.EntrySize, v, D.Entry(block, s.nextHandle));
    MapSums.RemoveAbsent(s.dram, v);
    NodeHistory.EmptyOrder(s.policy.lru);
  }

  /** Whether one block in DRAM blocks a put that needs its room is decided by the model and the token count
      of that block, and by nothing else. */
  lemma OneBlockBlocksIff(cfg: Config, s: State, v: BlockKey, first: Block, key: BlockKey, block: Block)
    requires Inv(cfg, s) && s.dram == map[] && s.policy.Lru? && cfg.hasDram && cfg.hasSsd && key != v
    requires first.Size() <= cfg.capacity && block.Size() <= cfg.capacity < first.Size() + block.Size() < TWO_64
    ensures var log := [PutDram(v, first)];
            && Legal(cfg, s, log)
            && PutStatus(cfg, Run(cfg, s, log), key, block) ==
               if || first.metadata.modelFingerprint != v.modelFingerprint
                  || (first.metadata.numTokens != 0 && first.metadata.numTokens != v.prefixLen)
               then InvalidArgument else OK
  {
    var u := Apply(cfg, s, PutDram(v, first));
    FirstBlock(cfg, s, v, first);
    RunStep(cfg, s, [], PutDram(v, first));
    assert [] + [PutDram(v, first)] == [PutDram(v, first)];
    if Consistent(v, first.metadata) {
      ApplyKeepsInv(cfg, s, PutDram(v, first));
      ConsistentClears(cfg.capacity, u.dram, u.policy, None, block.Size());
    } else {
      assert key !in u.dram && v in u.dram;
      StuckPutFails(cfg, u, key, block);
    }
  }

  /** On SSD alone, the same decides whether a put is accepted. */
  lemma ColdPutIff(cfg: Config, s: State, key: BlockKey, block: Block)
    requires cfg.hasSsd && !(cfg.hasDram && (cfg.capacity == 0 || |block.data| <= cfg.capacity))
    ensures PutStatus(cfg, s, key, block) ==
            if || block.metadata.modelFingerprint != key.modelFingerprint
               || (block.metadata.numTokens != 0 && block.metadata.numTokens != key.prefixLen)
            then InvalidArgument else OK
  {
  }

  /** A new node with one byte of DRAM, LRU and SSD. */
  ghost function TinyConfig(): Config {
    Config(true, true, 1, (k: BlockKey) => 0)
  }

  ghost function TinyNode(): State {
    State(map[], map[], 1, map[], Lru(L.LruState([], None)))
  }

  /** A block of one byte. */
  function ByteFor(numTokens: u32, modelFingerprint: u32): Block {
    Block(BlockMetadata(numTokens, 0, 0, 0, 0, modelFingerprint), [0])
  }

  /** For instance: a one-byte block under a key of model 5 and length 128 blocks the node if it was made for
      model 6, or for 7 tokens; not if it says 128 tokens, or 0. */
  lemma BlockedExample()
    ensures Inv(TinyConfig(), TinyNode())
    ensures var key, next := BlockKey(1, 128, 5), BlockKey(2, 128, 5);
            var Comes := (first: Block) => PutStatus(TinyConfig(), Run(TinyConfig(), TinyNode(), [PutDram(key, first)]), next, ByteFor(0, 5));
            && Comes(ByteFor(128, 6)) == InvalidArgument && Comes(ByteFor(7, 5)) == InvalidArgument
            && Comes(ByteFor(128, 5)) == OK && Comes(ByteFor(0, 5)) == OK
  {
    var cfg, s, key, next := TinyConfig(), TinyNode(), BlockKey(1, 128, 5), BlockKey(2, 128, 5);
    MapSums.SumEmpty<BlockKey, D.Entry>(D.EntrySize);
    assert s.index == Recovered(cfg, s.dram, s.ssd);
    OneBlockBlocksIff(cfg, s, key, ByteFor(128, 6), next, ByteFor(0, 5));
    OneBlockBlocksIff(cfg, s, key, ByteFor(7, 5), next, ByteFor(0, 5));
    OneBlockBlocksIff(cfg, s, key, ByteFor(128, 5), next, ByteFor(0, 5));
    OneBlockBlocksIff(cfg, s, key, ByteFor(0, 5), next, ByteFor(0, 5));
  }

  /** Under LRU, a put that DRAM can hold succeeds, if nothing fails, exactly if 64 bits count the bytes
      and the oldest blocks that must go for it all fit their keys. */
  lemma LruPutIff(cfg: Config, s: State, key: BlockKey, block: Block)
    requires Inv(cfg, s) && s.policy.Lru? && cfg.hasSsd && cfg.capacity != 0 && HoldsInDram(cfg, block.Size())
    ensures PutStatus(cfg, s, key, block) == OK <==>
            && Footprint(s.dram, ReplacedBy(s, key), block.Size()) < TWO_64
            && exists n: nat :: OldestClear(cfg.capacity, s.dram, s.policy.lru.order, ReplacedBy(s, key), block.Size(), n)
  {
    LruClears(cfg.capacity, s.dram, s.policy, ReplacedBy(s, key), block.Size());
  }

  // ---- Restart ----

  /** A database that a node has written is refused only if 64 bits cannot count its bytes. */
  lemma WrittenReopens(disk: S.Database, contents: map<BlockKey, Block>)
    requires S.Encodes(disk, contents)
    ensures Reopens(disk) <==> S.DiskBytes(disk) < TWO_64
  {
    S.EncodesIntact(disk, contents);
  }

  /** The database after one more record of the largest size. */
  lemma OneMoreHuge(disk: S.Database, contents: map<BlockKey, Block>, i: nat) returns (more: S.Database, grown: map<BlockKey, Block>)
    requires S.Encodes(disk, contents) && i < 3 && BlockKey(i, 0, 0) !in contents
    ensures S.Encodes(more, grown) && S.DiskBytes(more) == S.DiskBytes(disk) + TWO_63 + 35
    ensures grown.Keys == contents.Keys + {BlockKey(i, 0, 0)}
  {
    var key := BlockKey(i, 0, 0);
    var data := seq(TWO_63 - 1, _ => 0);
    var block := Block(BlockMetadata(0, 0, 0, 0, 0, 0), data);
    S.EncodesPut(disk, contents, key, block);
    S.EncodedRecord(disk, contents, key);
    S.DiskPut(disk, BlockKeyText.ToString(key), BlockCodec.Serialized(block));
    BlockCodec.ParseSerialized(block);
    more := disk[BlockKeyText.ToString(key) := BlockCodec.Serialized(block)];
    grown := contents[key := block];
  }

  /** Three blocks of the largest size: a database that the tier could have written and that it refuses. */
  lemma HugeDatabase() returns (disk: S.Database, contents: map<BlockKey, Block>)
    ensures S.Encodes(disk, contents) && !Reopens(disk)
  {
    disk, contents := map[], map[];
    S.EncodesNothing();
    MapSums.SumEmpty<string, BlockCodec.Blob>(S.BlobSize);
    disk, contents := OneMoreHuge(disk, contents, 0);
    disk, contents := OneMoreHuge(disk, contents, 1);
    disk, contents := OneMoreHuge(disk, contents, 2);
  }

  /** The objects of a new process, configured as before, over a database. */
  method Rebuild(node: StorageNode, env: Environment, disk: S.Database) returns (again: StorageNode)
    ensures fresh(again) && fresh(again.index) && fresh(again.policy)
    ensures again.Wired() && Coherent(again.Cfg(), again.Life(), again.Snap()) && !again.ready && !again.published
    ensures again.env == env && again.Cfg() == node.Cfg() && again.handleOf == node.handleOf
    ensures again.ssd != null ==> fresh(again.ssd) && again.ssd.disk == disk
    ensures again.Snap().dram == map[] && again.Snap().nextHandle == 1
    ensures again.policy.state == node.policy.state.Reset()
  {
    var dram: D.DramTier? := null;
    if node.dram != null {
      dram := new D.DramTier(env, node.dram.capacityBytes);
    }
    var ssd: S.SsdTier? := null;
    if node.ssd != null {
      ssd := new S.SsdTier(env, node.handleOf, disk);
    }
    var policy := new EvictionPolicy(env, node.policy.state.Reset());
    again := new StorageNode(env, dram, ssd, policy, node.handleOf);
  }

  /** A crash and a new process over the database it left: exactly the restart of the model from any
      state with that database. */
  method Reboot(node: StorageNode, env: Environment, disk: S.Database, ghost s: State)
    returns (again: StorageNode, status: StatusCode)
    requires if node.ssd == null then s.ssd == map[] else S.Encodes(disk, s.ssd)
    requires s.policy.Reset() == node.policy.state.Reset()
    modifies env
    ensures fresh(again) && again.Wired() && Coherent(again.Cfg(), again.Life(), again.Snap())
    ensures again.Cfg() == node.Cfg()
    ensures status == OK ==> again.ready && again.Snap() == Apply(node.Cfg(), s, Restart)
    ensures env.injected == old(env.injected) && again.Tiers() != [] ==>
      (status == OK <==> node.ssd == null || Reopens(disk))
  {
    again := Rebuild(node, env, disk);
    var answer, _, _ := again.Open();
    status := answer;
    if status == OK && again.ssd != null {
      S.EncodesUnique(disk, again.ssd.contents, s.ssd);
    }
  }

  /** A crash at any instant of a call, or of a whole sequence of calls: the j-th database written
      meanwhile is the one after the j-th writing step of the log, and a new process over it starts as
      after a crash at the end of that prefix. */
  lemma CrashAnywhere(cfg: Config, s: State, log: seq<Event>, u: State, before: seq<S.Database>, after: seq<S.Database>, j: nat)
    returns (n: nat)
    requires Inv(cfg, s) && Took(cfg, s, log, u, before, after) && |before| <= j < |after|
    ensures 0 < n <= |log| && Commits(log[n - 1]) && Writes(log[..n]) == j - |before| + 1
    ensures Legal(cfg, s, log[..n]) && S.Encodes(after[j], Run(cfg, s, log[..n]).ssd)
    ensures Run(cfg, s, log[..n]).policy.Reset() == s.policy.Reset()
    ensures var r := Run(cfg, s, log[..n] + [Restart]);
            Inv(cfg, r) && Logical(r) == Effects(Abs(s), log[..n]).durable == S.Decoded(after[j])
  {
    assert DiskAt(cfg, s, log, before, after, j);
    var m: nat, w: State :| PrefixIs(cfg, s, log, after[j], j - |before|, m, w);
    n := m;
    ReachesIsRun(cfg, s, log[..n], w);
    NodeHistory.ResetIsKeptOverRuns(cfg, s, log[..n]);
    NodeHistory.RestartAnswersDurable(cfg, s, log[..n]);
    S.DecodedIs(after[j], w.ssd);
  }

  lemma WritesGrow(log: seq<Event>, m: nat, n: nat)
    requires m <= n <= |log|
    ensures Writes(log[..m]) <= Writes(log[..n])
  {
    WritesAppend(log[..m], log[m..n]);
    assert log[..m] + log[m..n] == log[..n];
  }

  /** So a later database is the one after a longer prefix. */
  lemma LaterIsLonger(log: seq<Event>, n: nat, m: nat)
    requires n <= |log| && m <= |log| && Writes(log[..n]) < Writes(log[..m])
    ensures n < m
  {
    if m <= n {
      WritesGrow(log, m, n);
    }
  }
}
