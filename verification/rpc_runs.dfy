/** The client against a server whose store changes: any sequence of gets, puts, pings and closes, over
    connections that stall, break and are made anew, with puts that take effect late or never. */
module RpcRuns {
  import opened Status
  import opened Faults
  import opened Blocks
  import opened WireCodec
  import opened WireMessages
  import opened WireStreams
  import opened TcpConnection
  import opened WireFraming
  import opened TcpConnector
  import opened RpcServer

  // ---- The calls and what they may answer ----

  datatype Rpc = RpcGet(key: BlockKey) | RpcPut(key: BlockKey, block: Block) | RpcPing | RpcClose

  /** A call and its result. */
  datatype Outcome = Outcome(rpc: Rpc, status: StatusCode, value: Option<Block>)

  ghost predicate AnsweredAt(plan: Plan, status: StatusCode, k: nat, n: nat) {
    status == PutAnswer(plan.refuse(k, n))
  }

  /** The status is what the server said to some put: acknowledged, or refused with a reason. */
  ghost predicate Answered(plan: Plan, status: StatusCode) {
    exists k: nat, n: nat :: AnsweredAt(plan, status, k, n)
  }

  /** What a call may answer, given what was acknowledged and what is in doubt, and what it adds to that.
      `quiet` says that the server was there and nothing failed. */
  ghost predicate Permits(plan: Plan, limits: Limits, l: Ledger, o: Outcome, quiet: bool, l': Ledger) {
    match o.rpc
    case RpcGet(key) =>
      && l' == l
      && (o.status == OK <==> o.value.Some?)
      && (o.value.Some? ==> Tells(l, key, o.value.value))
      && (o.status == NotFound ==> key !in l.acked)
      && (quiet ==> o.status in {OK, NotFound})
    case RpcPut(key, block) =>
      && (if o.status == OK then l' == l.(acked := l.acked[key := block])
          else l' == l || (!quiet && l' == l.(doubtful := l.doubtful + {Update(key, block)})))
      && (quiet ==> if CanShip(block, limits) then Answered(plan, o.status) else o.status != OK)
    case RpcPing => l' == l && (quiet ==> o.status == OK)
    case RpcClose => l' == l
  }

  ghost predicate CallAt(plan: Plan, limits: Limits, ledgers: seq<Ledger>, outcomes: seq<Outcome>, quiet: seq<bool>, i: int) {
    0 <= i < |outcomes| && i < |quiet| && i + 1 < |ledgers| ==>
      Permits(plan, limits, ledgers[i], outcomes[i], quiet[i], ledgers[i + 1])
  }

  ghost predicate IsHistory(plan: Plan, limits: Limits, l: Ledger, outcomes: seq<Outcome>, quiet: seq<bool>, l': Ledger,
                            ledgers: seq<Ledger>)
  {
    && |ledgers| == |outcomes| + 1 && |quiet| == |outcomes| && ledgers[0] == l && ledgers[|outcomes|] == l'
    && forall i :: CallAt(plan, limits, ledgers, outcomes, quiet, i)
  }

  /** Every call answers what the calls before it permit. */
  ghost predicate Justified(plan: Plan, limits: Limits, l: Ledger, outcomes: seq<Outcome>, quiet: seq<bool>, l': Ledger) {
    exists ledgers: seq<Ledger> :: IsHistory(plan, limits, l, outcomes, quiet, l', ledgers)
  }

  lemma JustifiedNone(plan: Plan, limits: Limits, l: Ledger)
    ensures Justified(plan, limits, l, [], [], l)
  {
    assert IsHistory(plan, limits, l, [], [], l, [l]);
  }

  lemma OneMore(plan: Plan, limits: Limits, l: Ledger, outcomes: seq<Outcome>, quiet: seq<bool>, w: Ledger,
                o: Outcome, q: bool, next: Ledger)
    requires Justified(plan, limits, l, outcomes, quiet, w) && Permits(plan, limits, w, o, q, next)
    ensures Justified(plan, limits, l, outcomes + [o], quiet + [q], next)
    ensures Loud(quiet + [q]) == Loud(quiet) + if q then 0 else 1
  {
    var ledgers: seq<Ledger> :| IsHistory(plan, limits, l, outcomes, quiet, w, ledgers);
    forall i
      ensures CallAt(plan, limits, ledgers + [next], outcomes + [o], quiet + [q], i)
    {
      assert CallAt(plan, limits, ledgers, outcomes, quiet, i);
    }
    assert IsHistory(plan, limits, l, outcomes + [o], quiet + [q], next, ledgers + [next]);
    LoudMore(quiet, q);
  }

  /** One outcome for each call, in order. */
  predicate OutcomesOf(outcomes: seq<Outcome>, rpcs: seq<Rpc>) {
    |outcomes| == |rpcs| && forall i :: 0 <= i < |rpcs| ==> outcomes[i].rpc == rpcs[i]
  }

  lemma OutcomesMore(outcomes: seq<Outcome>, rpcs: seq<Rpc>, o: Outcome)
    requires rpcs != [] && OutcomesOf(outcomes, rpcs[..|rpcs| - 1]) && o.rpc == rpcs[|rpcs| - 1]
    ensures OutcomesOf(outcomes + [o], rpcs)
  {
  }

  /** The server never refuses a put. */
  ghost predicate Willing(plan: Plan) {
    forall k, n :: !Refuses(plan.refuse(k, n))
  }

  /** In every run against a willing server, each put of a block that can be sent and that meets no
      failure is acknowledged, whatever failed in other calls. */
  lemma QuietPutsAreAcknowledged(plan: Plan, limits: Limits, l: Ledger, outcomes: seq<Outcome>, quiet: seq<bool>, l': Ledger, i: nat)
    requires Justified(plan, limits, l, outcomes, quiet, l') && Willing(plan)
    requires i < |outcomes| && |quiet| == |outcomes| && quiet[i] && outcomes[i].rpc.RpcPut? && CanShip(outcomes[i].rpc.block, limits)
    ensures outcomes[i].status == OK
  {
    var ledgers: seq<Ledger> :| IsHistory(plan, limits, l, outcomes, quiet, l', ledgers);
    assert CallAt(plan, limits, ledgers, outcomes, quiet, i);
    var k: nat, n: nat :| AnsweredAt(plan, outcomes[i].status, k, n);
  }

  // ---- The server's side between two calls ----

  ghost predicate LateOk(l: Ledger, s: Session, limits: Limits, n: nat) {
    Doubted(l, s.late(n)) && LateShippable(s.late(n), limits)
  }

  /** The store bears out the ledger, and whatever may still take effect is in doubt. */
  ghost predicate ServerOk(l: Ledger, s: Session, fs: seq<Frame>, doubts: seq<Update>, limits: Limits) {
    && Truthful(l, StoreAfter(s, fs)) && Shippable(StoreAfter(s, fs), limits)
    && (forall n :: LateOk(l, s, limits, n))
    && Doubted(l, doubts) && LateShippable(doubts, limits)
  }

  /** The store that the next request meets. */
  lemma ServerMeets(l: Ledger, s: Session, fs: seq<Frame>, doubts: seq<Update>, limits: Limits, f: Frame)
    requires ServerOk(l, s, fs, doubts, limits)
    ensures Truthful(l, StoreAt(s, fs + [f])) && Shippable(StoreAt(s, fs + [f]), limits)
  {
    StoreAfterMore(s, fs, f);
    assert LateOk(l, s, limits, |fs|);
    LateIsTruthful(l, StoreAfter(s, fs), s.late(|fs|));
    LateStaysShippable(StoreAfter(s, fs), s.late(|fs|), limits);
  }

  lemma LateStillOk(l: Ledger, s: Session, limits: Limits, l': Ledger, doubts: seq<Update>)
    requires (forall n :: LateOk(l, s, limits, n)) && l.doubtful <= l'.doubtful && Doubted(l, doubts)
    ensures (forall n :: LateOk(l', s, limits, n)) && Doubted(l', doubts)
  {
    forall n: nat
      ensures LateOk(l', s, limits, n)
    {
      assert LateOk(l, s, limits, n);
    }
  }

  /** A request that stores nothing. */
  lemma ServerReads(l: Ledger, s: Session, fs: seq<Frame>, doubts: seq<Update>, limits: Limits, f: Frame)
    requires ServerOk(l, s, fs, doubts, limits) && PutOf(f).None?
    ensures ServerOk(l, s, fs + [f], doubts, limits)
  {
    StoreAfterMore(s, fs, f);
    ServerMeets(l, s, fs, doubts, limits, f);
  }

  /** The ledger after a put: acknowledged, refused, not sent, or in doubt. */
  ghost function PutLedger(l: Ledger, u: Update, trace: Trace): Ledger {
    if trace.answer.Some? then
      if trace.answer.value.header.status == 0 then l.(acked := l.acked[u.key := u.block]) else l
    else if trace.written == |FrameBytes(trace.request)| then l.(doubtful := l.doubtful + {u})
    else l
  }

  lemma PutShips(store: Store, u: Update, limits: Limits)
    requires Shippable(store, limits) && CanShip(u.block, limits)
    ensures Shippable(store[u.key := u.block], limits)
  {
    var store' := store[u.key := u.block];
    forall key
      ensures Ships(store', limits, key)
    {
      assert Ships(store, limits, key);
    }
  }

  /** An answered put: the server stored the block exactly if it said so. */
  lemma ServerStores(l: Ledger, s: Session, doubts: seq<Update>, limits: Limits, trace: Trace, u: Update)
    requires ServerOk(l, s, trace.asked, doubts, limits) && PutOf(trace.request) == Some(u) && CanShip(u.block, limits)
    requires trace.answer.Some? && trace.answer.value == ReplyIn(s, trace.asked + [trace.request])
    ensures ServerOk(PutLedger(l, u, trace), s, trace.asked + [trace.request], doubts, limits)
  {
    var fs := trace.asked + [trace.request];
    StoreAfterMore(s, trace.asked, trace.request);
    ServerMeets(l, s, trace.asked, doubts, limits, trace.request);
    PutShips(StoreAt(s, fs), u, limits);
    AckedIsTruthful(l, StoreAt(s, fs), u);
    LateStillOk(l, s, limits, PutLedger(l, u, trace), doubts);
  }

  /** An unanswered put that went out whole: stored or not, the ledger covers it. */
  lemma ServerMayStore(l: Ledger, s: Session, doubts: seq<Update>, limits: Limits, trace: Trace, u: Update)
    requires ServerOk(l, s, trace.asked, doubts, limits) && PutOf(trace.request) == Some(u) && CanShip(u.block, limits)
    requires trace.answer.None? && trace.written == |FrameBytes(trace.request)|
    ensures ServerOk(PutLedger(l, u, trace), s, trace.asked, doubts, limits)
    ensures ServerOk(PutLedger(l, u, trace), s, trace.asked + [trace.request], doubts, limits)
  {
    var fs := trace.asked + [trace.request];
    StoreAfterMore(s, trace.asked, trace.request);
    ServerMeets(l, s, trace.asked, doubts, limits, trace.request);
    PutShips(StoreAt(s, fs), u, limits);
    DoubtIsTruthful(l, StoreAt(s, fs), u);
    DoubtIsTruthful(l, StoreAfter(s, trace.asked), u);
    LateStillOk(l, s, limits, PutLedger(l, u, trace), doubts);
  }

  lemma PutConcludes(l: Ledger, s: Session, doubts: seq<Update>, limits: Limits, trace: Trace, u: Update)
    requires ServerOk(l, s, trace.asked, doubts, limits) && PutOf(trace.request) == Some(u) && CanShip(u.block, limits)
    requires trace.answer.Some? ==> Follows(trace.peer, s) && Accepts(limits, trace)
    ensures var l', whole := PutLedger(l, u, trace), trace.written == |FrameBytes(trace.request)|;
            && (whole ==> ServerOk(l', s, trace.asked + [trace.request], doubts, limits))
            && (trace.answer.None? ==> ServerOk(l', s, trace.asked, doubts, limits))
            && (trace.answer.None? && whole ==> u in l'.doubtful)
  {
    if trace.answer.Some? {
      assert FollowsAt(trace.peer, s, trace.asked + [trace.request]);
      ServerStores(l, s, doubts, limits, trace, u);
    } else if trace.written == |FrameBytes(trace.request)| {
      ServerMayStore(l, s, doubts, limits, trace, u);
    }
  }

  /** With the server there and nothing failing, a put is answered. */
  lemma PutIsAnswered(s: Session, trace: Trace, id: u64, key: BlockKey, block: Block, limits: Limits)
    requires Follows(trace.peer, s) && IsPut(trace.request, id, key, block, limits) && id != 0 && Roomy(limits)
    ensures AnsweredWell(trace, limits) && RemoteStatus(Reply(trace)) == PutAnswer(s.refuse(|trace.asked|))
  {
    assert FollowsAt(trace.peer, s, trace.asked + [trace.request]);
    StoreAfterMore(s, trace.asked, trace.request);
    PutAnswered(StoreAt(s, trace.asked + [trace.request]), s.refuse(|trace.asked|), trace.request, limits);
  }

  lemma PingIsAnswered(l: Ledger, s: Session, doubts: seq<Update>, trace: Trace, id: u64, limits: Limits)
    requires ServerOk(l, s, trace.asked, doubts, limits) && trace.request == RequestFrame(PING, id, []) && id != 0 && Roomy(limits)
    ensures ServerOk(l, s, trace.asked + [trace.request], doubts, limits)
    ensures Follows(trace.peer, s) ==> AnsweredWell(trace, limits) && RemoteStatus(Reply(trace)) == OK
  {
    ServerReads(l, s, trace.asked, doubts, limits, trace.request);
    assert Follows(trace.peer, s) ==> FollowsAt(trace.peer, s, trace.asked + [trace.request]);
    StoreAfterMore(s, trace.asked, trace.request);
    PingAnswered(StoreAt(s, trace.asked + [trace.request]), s.refuse(|trace.asked|), id, limits);
  }

  /** A get meets a store that bears out the ledger, and is told what that store holds. */
  lemma GetIsAnswered(l: Ledger, s: Session, doubts: seq<Update>, trace: Trace, id: u64, key: BlockKey, limits: Limits)
    requires ServerOk(l, s, trace.asked, doubts, limits) && id != 0 && Roomy(limits)
    requires trace.request == RequestFrame(GET, id, KeyBytes(key))
    ensures ServerOk(l, s, trace.asked + [trace.request], doubts, limits)
    ensures Follows(trace.peer, s) ==> AnsweredWell(trace, limits)
    ensures Follows(trace.peer, s) ==>
      exists store :: Truthful(l, store) && |Reply(trace).payload| < TWO_63 && GetResult(Reply(trace)) == Lookup(store, key)
  {
    var fs := trace.asked + [trace.request];
    ServerReads(l, s, trace.asked, doubts, limits, trace.request);
    ServerMeets(l, s, trace.asked, doubts, limits, trace.request);
    assert Follows(trace.peer, s) ==> FollowsAt(trace.peer, s, fs);
    StoreAfterMore(s, trace.asked, trace.request);
    assert Ships(StoreAt(s, fs), limits, key);
    GetAnswered(StoreAt(s, fs), s.refuse(|trace.asked|), id, key, limits);
    GetResultIs(StoreAt(s, fs), s.refuse(|trace.asked|), id, key);
  }

  lemma LookupIsTold(l: Ledger, store: Store, key: BlockKey, r: Result<Block>)
    requires Truthful(l, store) && r == Lookup(store, key)
    ensures r.Success? ==> Tells(l, key, r.value)
    ensures r == Failure(NotFound) ==> key !in l.acked
    ensures r.Success? || r == Failure(NotFound)
  {
    assert Vouches(l, store, key);
  }

  /** A connection is gone: what it did is in the store, and what it may yet do is among the doubts. */
  lemma ServerMovesOn(l: Ledger, s: Session, fs: seq<Frame>, doubts: seq<Update>, limits: Limits, more: seq<Update>)
    requires ServerOk(l, s, fs, doubts, limits) && Doubted(l, more) && LateShippable(more, limits)
    ensures ServerOk(l, Idle(StoreAfter(s, fs)), [], doubts + more, limits)
  {
    var s' := Idle(StoreAfter(s, fs));
    forall n: nat
      ensures LateOk(l, s', limits, n)
    {
      assert s'.late(n) == [];
    }
  }

  /** Between two connections. */
  function Idle(store: Store): Session {
    Session(store, (n: nat) => [], (n: nat) => 0)
  }

  // ---- What went out ----

  /** The whole frames among the bytes sent: the last request counts only if all of it went out. */
  lemma FramesSent(asked: seq<Frame>, request: Frame, written: nat)
    requires AllWellSized(asked) && WellSized(request) && written <= |FrameBytes(request)|
    ensures FramesIn(StreamOf(asked) + FrameBytes(request)[..written]) ==
            if written == |FrameBytes(request)| then asked + [request] else asked
  {
    FramesInPrefix(asked, FrameBytes(request)[..written]);
    if written < |FrameBytes(request)| {
      PartialFrame(request, written);
      assert asked + [] == asked;
    } else {
      assert FrameBytes(request)[..written] == FrameBytes(request) + [];
      FirstFrame(request, []);
      assert [request] + FramesIn([]) == [request];
    }
  }

  /** A connection was lost after `written` bytes of a request: whether or not the server serves that
      request, the ledger covers it. */
  ghost predicate Unsettled(l: Ledger, s: Session, before: seq<Frame>, doubts: seq<Update>, limits: Limits,
                            request: Frame, written: nat)
  {
    && AllWellSized(before) && WellSized(request) && written <= |FrameBytes(request)|
    && ServerOk(l, s, before, doubts, limits)
    && (written == |FrameBytes(request)| ==>
          && ServerOk(l, s, before + [request], doubts, limits)
          && (PutOf(request).Some? ==> PutOf(request).value in l.doubtful && CanShip(PutOf(request).value.block, limits)))
  }

  /** The requests of a lost connection that the server serves: all, or all but one that was outstanding. */
  function Served(frames: seq<Frame>, count: nat, took: bool): seq<Frame> {
    if took || |frames| <= count then frames else frames[..count]
  }

  /** The put that is left, if the outstanding request was one. */
  function Unserved(frames: seq<Frame>, count: nat, took: bool): seq<Update> {
    if took || |frames| <= count then []
    else
      match PutOf(frames[count])
      case None => []
      case Some(u) => [u]
  }

  lemma ServerSettles(l: Ledger, s: Session, before: seq<Frame>, doubts: seq<Update>, limits: Limits,
                      request: Frame, written: nat, frames: seq<Frame>, took: bool)
    requires Unsettled(l, s, before, doubts, limits, request, written)
    requires frames == FramesIn(StreamOf(before) + FrameBytes(request)[..written])
    ensures var store := StoreAfter(s, Served(frames, |before|, took));
            ServerOk(l, Idle(store), [], doubts + Unserved(frames, |before|, took), limits)
  {
    FramesSent(before, request, written);
    if frames != before {
      assert frames[..|before|] == before && frames[|before|] == request;
    }
    ServerMovesOn(l, s, Served(frames, |before|, took), doubts, limits, Unserved(frames, |before|, took));
  }

  /** A put that failed after its frame went out whole: the server may have served it or not, so it took
      effect or did not, and the client has it in doubt either way. */
  lemma FailedPutTakesEffectOrNot(l: Ledger, s: Session, t: Trace, u: Update)
    requires AllWellSized(t.asked) && WellSized(t.request) && PutOf(t.request) == Some(u) && !Refuses(s.refuse(|t.asked|))
    requires t.answer.None? && t.written == |FrameBytes(t.request)|
    ensures var frames := FramesIn(StreamOf(t.asked) + FrameBytes(t.request)[..t.written]);
            && StoreAfter(s, Served(frames, |t.asked|, true)) == StoreAt(s, t.asked + [t.request])[u.key := u.block]
            && StoreAfter(s, Served(frames, |t.asked|, false)) == StoreAfter(s, t.asked)
            && Unserved(frames, |t.asked|, false) == [u]
    ensures u in PutLedger(l, u, t).doubtful
  {
    FramesSent(t.asked, t.request, t.written);
    StoreAfterMore(s, t.asked, t.request);
    assert (t.asked + [t.request])[..|t.asked|] == t.asked;
  }

  /** The refusals of a session are those that the plan has for the connection. */
  ghost predicate RefusesAs(s: Session, plan: Plan, k: nat) {
    forall n :: s.refuse(n) == plan.refuse(k, n)
  }

  /** What a put that was sent did, against the server of the session. */
  ghost predicate PutFacts(limits: Limits, t: Trace, id: u64, key: BlockKey, block: Block,
                           status: StatusCode, quiet: bool)
  {
    && id != 0 && AllWellSized(t.asked) && t.written <= |FrameBytes(t.request)|
    && IsPut(t.request, id, key, block, limits)
    && (t.answer.Some? ==> Accepts(limits, t))
    && (quiet && AnsweredWell(t, limits) ==> t.answer.Some? && status == RemoteStatus(t.answer.value))
    && (status == OK <==> t.answer.Some? && t.answer.value.header.status == 0)
  }

  /** Everything that follows from that. */
  lemma PutPermits(plan: Plan, k: nat, l: Ledger, s: Session, doubts: seq<Update>, limits: Limits, t: Trace, id: u64,
                   key: BlockKey, block: Block, status: StatusCode, quiet: bool, now: seq<Frame>, l': Ledger)
    requires Roomy(limits) && ServerOk(l, s, t.asked, doubts, limits) && l' == PutLedger(l, Update(key, block), t)
    requires PutFacts(limits, t, id, key, block, status, quiet) && (quiet ==> RefusesAs(s, plan, k))
    requires quiet || t.answer.Some? ==> Follows(t.peer, s)
    ensures Permits(plan, limits, l, Outcome(RpcPut(key, block), status, None), quiet, l')
    ensures t.written in {0, |FrameBytes(t.request)|} && now == AskedAfter(t) ==> ServerOk(l', s, now, doubts, limits)
    ensures t.answer.None? ==> Unsettled(l', s, t.asked, doubts, limits, t.request, t.written)
  {
    PutConcludes(l, s, doubts, limits, t, Update(key, block));
    if quiet {
      PutIsAnswered(s, t, id, key, block, limits);
      assert AnsweredAt(plan, status, k, |t.asked|);
    }
  }

  /** The requests on the connection after a call, if it is still there. */
  ghost function AskedThen(asked: seq<Frame>, trace: Option<Trace>): seq<Frame> {
    if trace.Some? then AskedAfter(trace.value) else asked
  }

  /** What a get did. */
  ghost predicate GetFacts(limits: Limits, t: Trace, id: u64, key: BlockKey, r: Result<Block>, quiet: bool) {
    && id != 0 && AllWellSized(t.asked) && t.written <= |FrameBytes(t.request)|
    && t.request == RequestFrame(GET, id, KeyBytes(key))
    && (t.answer.Some? ==> Accepts(limits, t))
    && (IsResult(r, t.answer) || (r.Failure? && Local(r.code)))
    && (quiet && AnsweredWell(t, limits) ==> IsResult(r, t.answer))
  }

  /** Everything that follows from that. */
  lemma GetPermits(plan: Plan, l: Ledger, s: Session, doubts: seq<Update>, limits: Limits, t: Trace, id: u64,
                   key: BlockKey, r: Result<Block>, quiet: bool, now: seq<Frame>)
    requires Roomy(limits) && ServerOk(l, s, t.asked, doubts, limits) && GetFacts(limits, t, id, key, r, quiet)
    requires quiet || t.answer.Some? ==> Follows(t.peer, s)
    ensures Permits(plan, limits, l, GetOutcome(key, r), quiet, l)
    ensures now == t.asked || now == AskedAfter(t) ==> ServerOk(l, s, now, doubts, limits)
    ensures Unsettled(l, s, t.asked, doubts, limits, t.request, t.written)
  {
    GetIsAnswered(l, s, doubts, t, id, key, limits);
    if IsResult(r, t.answer) {
      var store :| Truthful(l, store) && GetResult(Reply(t)) == Lookup(store, key);
      LookupIsTold(l, store, key, r);
    }
  }

  function GetOutcome(key: BlockKey, r: Result<Block>): Outcome {
    Outcome(RpcGet(key), r.Code(), if r.Success? then Some(r.value) else None)
  }

  /** What a ping did. */
  ghost predicate PingFacts(limits: Limits, t: Trace, id: u64, status: StatusCode, quiet: bool) {
    && id != 0 && AllWellSized(t.asked) && t.written <= |FrameBytes(t.request)|
    && t.request == RequestFrame(PING, id, [])
    && (t.answer.Some? ==> Accepts(limits, t))
    && (quiet && AnsweredWell(t, limits) ==> t.answer.Some? && status == RemoteStatus(t.answer.value))
  }

  lemma PingPermits(plan: Plan, l: Ledger, s: Session, doubts: seq<Update>, limits: Limits, t: Trace, id: u64,
                    status: StatusCode, quiet: bool, now: seq<Frame>)
    requires Roomy(limits) && ServerOk(l, s, t.asked, doubts, limits) && PingFacts(limits, t, id, status, quiet)
    requires quiet || t.answer.Some? ==> Follows(t.peer, s)
    ensures Permits(plan, limits, l, Outcome(RpcPing, status, None), quiet, l)
    ensures now == t.asked || now == AskedAfter(t) ==> ServerOk(l, s, now, doubts, limits)
    ensures Unsettled(l, s, t.asked, doubts, limits, t.request, t.written)
  {
    PingIsAnswered(l, s, doubts, t, id, limits);
  }

  // ---- Client and server together ----

  /** An answer came over the socket at hand. */
  ghost predicate FromLink(t: Trace, link: Socket?) {
    if link == null then t.answer.None? else t.peer == link.peer
  }

  /** The server's choices, for the k-th connection: whether it can be reached, which late puts take
      effect before its n-th request, which puts it refuses, and whether the last request of a broken
      connection was still served. */
  datatype Plan = Plan(up: nat -> bool, late: (nat, nat) -> seq<Update>, refuse: (nat, nat) -> u16, took: nat -> bool)

  ghost predicate AlwaysUp(plan: Plan) {
    forall k :: plan.up(k)
  }

  /** The late puts of the plan that are possible at all. */
  function Only(late: seq<Update>, doubts: seq<Update>): (r: seq<Update>)
    ensures forall u :: u in r ==> u in doubts
  {
    if late == [] then []
    else if late[|late| - 1] in doubts then Only(late[..|late| - 1], doubts) + [late[|late| - 1]]
    else Only(late[..|late| - 1], doubts)
  }

  function Accept(store: Store, plan: Plan, k: nat, doubts: seq<Update>): Session {
    Session(store, (n: nat) => Only(plan.late(k, n), doubts), (n: nat) => plan.refuse(k, n))
  }

  lemma ServerAccepts(l: Ledger, store: Store, plan: Plan, k: nat, doubts: seq<Update>, limits: Limits)
    requires ServerOk(l, Idle(store), [], doubts, limits)
    ensures ServerOk(l, Accept(store, plan, k, doubts), [], doubts, limits)
  {
    var s := Accept(store, plan, k, doubts);
    forall n: nat
      ensures LateOk(l, s, limits, n)
    {
      assert s.late(n) == Only(plan.late(k, n), doubts);
      assert forall i :: 0 <= i < |s.late(n)| ==> s.late(n)[i] in s.late(n);
    }
  }

  class Deployment {
    const c: TcpConnector
    const plan: Plan
    var session: Session  // of the connection at hand, or between two
    var doubts: seq<Update>  // puts of broken connections that have not been served
    var accepted: nat

    /** `l` is what the client knows. */
    ghost predicate Valid(l: Ledger)
      reads this, c, c.Parts()
    {
      && c.Valid() && c.Configured() && Roomy(c.limits)
      && ServerOk(l, session, c.asked, doubts, c.limits)
      && (if c.Link() != null then Follows(c.Link().peer, session) && 0 < accepted && RefusesAs(session, plan, accepted - 1)
          else session == Idle(session.store))
    }

    constructor (c: TcpConnector, plan: Plan, store: Store)
      requires c.Valid() && c.Link() == null && c.Configured() && Roomy(c.limits) && Shippable(store, c.limits)
      ensures Valid(Ledger(store, {})) && this.c == c && this.plan == plan
    {
      this.c, this.plan := c, plan;
      session, doubts, accepted := Idle(store), [], 0;
      new;
      InitiallyOk(store, c.limits);
    }

    /** The server's move before a call: it accepts a connection if there is none and it can be reached. */
    method Connect(ghost l: Ledger)
      requires Valid(l)
      modifies this, c
      ensures Valid(l) && fresh(c.Parts() - old(c.Parts()))
      ensures old(c.Link()) != null ==> c.Link() == old(c.Link())
      ensures c.Link() != null <==> old(c.Link()) != null || plan.up(old(accepted))
    {
      if c.connection != null || c.offered != null {
        return;
      }
      if plan.up(accepted) {
        ServerAccepts(l, session.store, plan, accepted, doubts, c.limits);
        session := Accept(session.store, plan, accepted, doubts);
        var s := session;
        var socket := new Socket(c.env, InOrder(fs => ReplyIn(s, fs)));
        FollowsOrderly(socket.peer, session);
        c.Offer(socket);
      }
      accepted := accepted + 1;
    }

    /** The socket at hand, and how many requests it has carried. */
    method Mark(ghost l: Ledger) returns (link: Socket?, count: nat)
      requires Valid(l)
      ensures link == c.Link() && count == |c.asked|
    {
      link := if c.connection != null then c.connection.socket else c.offered;
      count := 0;
      if link != null {
        FramesInStream(c.asked);
        count := |FramesIn(link.sent)|;
      }
    }

    /** The server's move after a call that lost its connection: it has served every request on it, the
        last one perhaps not, or not yet. */
    method Settle(link: Socket, count: nat, ghost l: Ledger, ghost before: seq<Frame>, ghost request: Frame, ghost written: nat)
      requires c.Valid() && c.Link() == null && c.Configured() && Roomy(c.limits)
      requires Unsettled(l, session, before, doubts, c.limits, request, written) && count == |before|
      requires link.sent == StreamOf(before) + FrameBytes(request)[..written]
      modifies this
      ensures Valid(l)
    {
      var frames := FramesIn(link.sent);
      var took := plan.took(accepted);
      ServerSettles(l, session, before, doubts, c.limits, request, written, frames, took);
      session := Idle(StoreAfter(session, Served(frames, count, took)));
      doubts := doubts + Unserved(frames, count, took);
    }

    method Put(key: BlockKey, block: Block, ghost l: Ledger) returns (status: StatusCode, ghost quiet: bool, ghost l': Ledger)
      requires Valid(l)
      modifies this, c, c.Parts(), c.env
      ensures Valid(l') && old(c.env.injected) <= c.env.injected && fresh(c.Parts() - old(c.Parts()))
      ensures Permits(plan, c.limits, l, Outcome(RpcPut(key, block), status, None), quiet, l')
      ensures quiet <==> old(c.env.injected) == c.env.injected && (old(c.Link()) != null || plan.up(old(accepted)))
    {
      Connect(l);
      status, quiet, l' := PutOn(key, block, l);
    }

    method PutOn(key: BlockKey, block: Block, ghost l: Ledger) returns (status: StatusCode, ghost quiet: bool, ghost l': Ledger)
      requires Valid(l)
      modifies this, c, c.Parts(), c.env
      ensures Valid(l') && old(c.env.injected) <= c.env.injected && fresh(c.Parts() - old(c.Parts()))
      ensures Permits(plan, c.limits, l, Outcome(RpcPut(key, block), status, None), quiet, l')
      ensures quiet <==> old(c.env.injected) == c.env.injected && old(c.Link()) != null
    {
      var link, count := Mark(l);
      ghost var before := c.asked;
      ghost var trace;
      status, quiet, trace, l' := TryPut(key, block, l);
      if link != null && c.connection == null && c.offered == null {
        Settle(link, count, l', before, trace.value.request, trace.value.written);
      }
    }

    /** The call and its entry in the ledger; the server may still have to settle. */
    method TryPut(key: BlockKey, block: Block, ghost l: Ledger)
      returns (status: StatusCode, ghost quiet: bool, ghost trace: Option<Trace>, ghost l': Ledger)
      requires Valid(l)
      modifies c, c.Parts(), c.env
      ensures c.Valid() && old(c.env.injected) <= c.env.injected && fresh(c.Parts() - old(c.Parts()))
      ensures Permits(plan, c.limits, l, Outcome(RpcPut(key, block), status, None), quiet, l')
      ensures quiet <==> old(c.env.injected) == c.env.injected && old(c.Link()) != null
      ensures c.Link() == null || c.Link() == old(c.Link())
      ensures c.Link() == old(c.Link()) ==> Valid(l')
      ensures c.Link() != old(c.Link()) ==>
        && trace.Some?
        && Unsettled(l', session, old(c.asked), doubts, c.limits, trace.value.request, trace.value.written)
        && old(c.Link()).sent == StreamOf(old(c.asked)) + FrameBytes(trace.value.request)[..trace.value.written]
    {
      status, quiet, trace, l' := LogPut(key, block, l);
    }

    method LogPut(key: BlockKey, block: Block, ghost l: Ledger)
      returns (status: StatusCode, ghost quiet: bool, ghost trace: Option<Trace>, ghost l': Ledger)
      requires c.Valid() && c.Configured() && Roomy(c.limits) && ServerOk(l, session, c.asked, doubts, c.limits)
      requires c.Link() != null ==> Follows(c.Link().peer, session) && 0 < accepted && RefusesAs(session, plan, accepted - 1)
      modifies c, c.Parts(), c.env
      ensures c.Valid() && old(c.env.injected) <= c.env.injected && fresh(c.Parts() - old(c.Parts()))
      ensures Permits(plan, c.limits, l, Outcome(RpcPut(key, block), status, None), quiet, l')
      ensures quiet <==> old(c.env.injected) == c.env.injected && old(c.Link()) != null
      ensures c.Link() == null || c.Link() == old(c.Link())
      ensures c.Link() == old(c.Link()) ==> ServerOk(l', session, c.asked, doubts, c.limits)
      ensures c.Link() != old(c.Link()) ==>
        && trace.Some?
        && Unsettled(l', session, old(c.asked), doubts, c.limits, trace.value.request, trace.value.written)
        && old(c.Link()).sent == StreamOf(old(c.asked)) + FrameBytes(trace.value.request)[..trace.value.written]
    {
      ghost var id, k := c.nextRequestId, if accepted == 0 then 0 else accepted - 1;
      status, quiet, trace := SendPut(key, block);
      l' := l;
      if trace.Some? {
        l' := PutLedger(l, Update(key, block), trace.value);
        PutPermits(plan, k, l, session, doubts, c.limits, trace.value, id, key, block, status, quiet, c.asked, l');
      }
    }

    /** The call itself. */
    method SendPut(key: BlockKey, block: Block)
      returns (status: StatusCode, ghost quiet: bool, ghost trace: Option<Trace>)
      requires c.Valid() && c.Configured()
      modifies c, c.Parts(), c.env
      ensures c.Valid() && old(c.env.injected) <= c.env.injected && fresh(c.Parts() - old(c.Parts()))
      ensures quiet <==> old(c.env.injected) == c.env.injected && old(c.Link()) != null
      ensures c.Link() == null || c.Link() == old(c.Link())
      ensures trace.None? ==> c.Link() == old(c.Link()) && status != OK
      ensures quiet ==> (trace.Some? <==> CanShip(block, c.limits))
      ensures trace.Some? ==>
        && PutFacts(c.limits, trace.value, old(c.nextRequestId), key, block, status, quiet)
        && trace.value.asked == old(c.asked) && FromLink(trace.value, old(c.Link()))
      ensures c.Link() == old(c.Link()) ==>
        && c.asked == AskedThen(old(c.asked), trace)
        && (trace.Some? ==> trace.value.written in {0, |FrameBytes(trace.value.request)|})
      ensures c.Link() != old(c.Link()) ==>
        && trace.value.answer.None?
        && old(c.Link()).sent == StreamOf(old(c.asked)) + FrameBytes(trace.value.request)[..trace.value.written]
    {
      ghost var linked := c.Link() != null;
      status, trace := c.Put(key, block);
      quiet := old(c.env.injected) == c.env.injected && linked;
    }

    method Get(key: BlockKey, ghost l: Ledger) returns (r: Result<Block>, ghost quiet: bool)
      requires Valid(l)
      modifies this, c, c.Parts(), c.env
      ensures Valid(l) && old(c.env.injected) <= c.env.injected && fresh(c.Parts() - old(c.Parts()))
      ensures Permits(plan, c.limits, l, GetOutcome(key, r), quiet, l)
      ensures quiet <==> old(c.env.injected) == c.env.injected && (old(c.Link()) != null || plan.up(old(accepted)))
    {
      Connect(l);
      r, quiet := GetOn(key, l);
    }

    method GetOn(key: BlockKey, ghost l: Ledger) returns (r: Result<Block>, ghost quiet: bool)
      requires Valid(l)
      modifies this, c, c.Parts(), c.env
      ensures Valid(l) && old(c.env.injected) <= c.env.injected && fresh(c.Parts() - old(c.Parts()))
      ensures Permits(plan, c.limits, l, GetOutcome(key, r), quiet, l)
      ensures quiet <==> old(c.env.injected) == c.env.injected && old(c.Link()) != null
    {
      var link, count := Mark(l);
      ghost var before := c.asked;
      ghost var trace;
      r, quiet, trace := TryGet(key, l);
      if link != null && c.connection == null && c.offered == null {
        Settle(link, count, l, before, trace.request, trace.written);
      }
    }

    method TryGet(key: BlockKey, ghost l: Ledger) returns (r: Result<Block>, ghost quiet: bool, ghost trace: Trace)
      requires Valid(l)
      modifies c, c.Parts(), c.env
      ensures c.Valid() && old(c.env.injected) <= c.env.injected && fresh(c.Parts() - old(c.Parts()))
      ensures Permits(plan, c.limits, l, GetOutcome(key, r), quiet, l)
      ensures quiet <==> old(c.env.injected) == c.env.injected && old(c.Link()) != null
      ensures c.Link() == null || c.Link() == old(c.Link())
      ensures c.Link() == old(c.Link()) ==> Valid(l)
      ensures c.Link() != old(c.Link()) ==>
        && Unsettled(l, session, old(c.asked), doubts, c.limits, trace.request, trace.written)
        && old(c.Link()).sent == StreamOf(old(c.asked)) + FrameBytes(trace.request)[..trace.written]
    {
      r, quiet, trace := LogGet(key, l);
    }

    method LogGet(key: BlockKey, ghost l: Ledger) returns (r: Result<Block>, ghost quiet: bool, ghost trace: Trace)
      requires c.Valid() && c.Configured() && Roomy(c.limits) && ServerOk(l, session, c.asked, doubts, c.limits)
      requires c.Link() != null ==> Follows(c.Link().peer, session)
      modifies c, c.Parts(), c.env
      ensures c.Valid() && old(c.env.injected) <= c.env.injected && fresh(c.Parts() - old(c.Parts()))
      ensures Permits(plan, c.limits, l, GetOutcome(key, r), quiet, l)
      ensures quiet <==> old(c.env.injected) == c.env.injected && old(c.Link()) != null
      ensures c.Link() == null || c.Link() == old(c.Link())
      ensures c.Link() == old(c.Link()) ==> ServerOk(l, session, c.asked, doubts, c.limits)
      ensures c.Link() != old(c.Link()) ==>
        && Unsettled(l, session, old(c.asked), doubts, c.limits, trace.request, trace.written)
        && old(c.Link()).sent == StreamOf(old(c.asked)) + FrameBytes(trace.request)[..trace.written]
    {
      ghost var id := c.nextRequestId;
      r, quiet, trace := SendGet(key);
      GetPermits(plan, l, session, doubts, c.limits, trace, id, key, r, quiet, c.asked);
    }

    method SendGet(key: BlockKey) returns (r: Result<Block>, ghost quiet: bool, ghost trace: Trace)
      requires c.Valid() && c.Configured()
      modifies c, c.Parts(), c.env
      ensures c.Valid() && old(c.env.injected) <= c.env.injected && fresh(c.Parts() - old(c.Parts()))
      ensures quiet <==> old(c.env.injected) == c.env.injected && old(c.Link()) != null
      ensures c.Link() == null || c.Link() == old(c.Link())
      ensures GetFacts(c.limits, trace, old(c.nextRequestId), key, r, quiet)
      ensures trace.asked == old(c.asked) && FromLink(trace, old(c.Link()))
      ensures c.Link() != null ==> c.asked == AskedAfter(trace)
      ensures c.Link() == old(c.Link()) == null ==> c.asked == old(c.asked)
      ensures c.Link() != old(c.Link()) ==>
        old(c.Link()).sent == StreamOf(old(c.asked)) + FrameBytes(trace.request)[..trace.written]
    {
      ghost var linked := c.Link() != null;
      r, trace := c.Get(key);
      quiet := old(c.env.injected) == c.env.injected && linked;
    }

    method Ping(ghost l: Ledger) returns (status: StatusCode, ghost quiet: bool)
      requires Valid(l)
      modifies this, c, c.Parts(), c.env
      ensures Valid(l) && old(c.env.injected) <= c.env.injected && fresh(c.Parts() - old(c.Parts()))
      ensures Permits(plan, c.limits, l, Outcome(RpcPing, status, None), quiet, l)
      ensures quiet <==> old(c.env.injected) == c.env.injected && (old(c.Link()) != null || plan.up(old(accepted)))
    {
      Connect(l);
      status, quiet := PingOn(l);
    }

    method PingOn(ghost l: Ledger) returns (status: StatusCode, ghost quiet: bool)
      requires Valid(l)
      modifies this, c, c.Parts(), c.env
      ensures Valid(l) && old(c.env.injected) <= c.env.injected && fresh(c.Parts() - old(c.Parts()))
      ensures Permits(plan, c.limits, l, Outcome(RpcPing, status, None), quiet, l)
      ensures quiet <==> old(c.env.injected) == c.env.injected && old(c.Link()) != null
    {
      var link, count := Mark(l);
      ghost var before := c.asked;
      ghost var trace;
      status, quiet, trace := TryPing(l);
      if link != null && c.connection == null && c.offered == null {
        Settle(link, count, l, before, trace.request, trace.written);
      }
    }

    method TryPing(ghost l: Ledger) returns (status: StatusCode, ghost quiet: bool, ghost trace: Trace)
      requires Valid(l)
      modifies c, c.Parts(), c.env
      ensures c.Valid() && old(c.env.injected) <= c.env.injected && fresh(c.Parts() - old(c.Parts()))
      ensures Permits(plan, c.limits, l, Outcome(RpcPing, status, None), quiet, l)
      ensures quiet <==> old(c.env.injected) == c.env.injected && old(c.Link()) != null
      ensures c.Link() == null || c.Link() == old(c.Link())
      ensures c.Link() == old(c.Link()) ==> Valid(l)
      ensures c.Link() != old(c.Link()) ==>
        && Unsettled(l, session, old(c.asked), doubts, c.limits, trace.request, trace.written)
        && old(c.Link()).sent == StreamOf(old(c.asked)) + FrameBytes(trace.request)[..trace.written]
    {
      status, quiet, trace := LogPing(l);
    }

    method LogPing(ghost l: Ledger) returns (status: StatusCode, ghost quiet: bool, ghost trace: Trace)
      requires c.Valid() && c.Configured() && Roomy(c.limits) && ServerOk(l, session, c.asked, doubts, c.limits)
      requires c.Link() != null ==> Follows(c.Link().peer, session)
      modifies c, c.Parts(), c.env
      ensures c.Valid() && old(c.env.injected) <= c.env.injected && fresh(c.Parts() - old(c.Parts()))
      ensures Permits(plan, c.limits, l, Outcome(RpcPing, status, None), quiet, l)
      ensures quiet <==> old(c.env.injected) == c.env.injected && old(c.Link()) != null
      ensures c.Link() == null || c.Link() == old(c.Link())
      ensures c.Link() == old(c.Link()) ==> ServerOk(l, session, c.asked, doubts, c.limits)
      ensures c.Link() != old(c.Link()) ==>
        && Unsettled(l, session, old(c.asked), doubts, c.limits, trace.request, trace.written)
        && old(c.Link()).sent == StreamOf(old(c.asked)) + FrameBytes(trace.request)[..trace.written]
    {
      ghost var id := c.nextRequestId;
      status, quiet, trace := SendPing();
      PingPermits(plan, l, session, doubts, c.limits, trace, id, status, quiet, c.asked);
    }

    method SendPing() returns (status: StatusCode, ghost quiet: bool, ghost trace: Trace)
      requires c.Valid() && c.Configured()
      modifies c, c.Parts(), c.env
      ensures c.Valid() && old(c.env.injected) <= c.env.injected && fresh(c.Parts() - old(c.Parts()))
      ensures quiet <==> old(c.env.injected) == c.env.injected && old(c.Link()) != null
      ensures c.Link() == null || c.Link() == old(c.Link())
      ensures PingFacts(c.limits, trace, old(c.nextRequestId), status, quiet)
      ensures trace.asked == old(c.asked) && FromLink(trace, old(c.Link()))
      ensures c.Link() != null ==> c.asked == AskedAfter(trace)
      ensures c.Link() == old(c.Link()) == null ==> c.asked == old(c.asked)
      ensures c.Link() != old(c.Link()) ==>
        old(c.Link()).sent == StreamOf(old(c.asked)) + FrameBytes(trace.request)[..trace.written]
    {
      ghost var linked := c.Link() != null;
      status, trace := c.Ping();
      quiet := old(c.env.injected) == c.env.injected && linked;
    }

    /** The client lets its connection go; every request on it has been answered, hence served. */
    method Close(ghost l: Ledger)
      requires Valid(l)
      modifies this, c, c.Parts()
      ensures Valid(l) && fresh(c.Parts() - old(c.Parts()))
    {
      var link, held := null, c.connection != null;
      if held {
        link := c.connection.socket;
        FramesInStream(c.asked);
        ServerMovesOn(l, session, c.asked, doubts, c.limits, []);
        session := Idle(StoreAfter(session, FramesIn(link.sent)));
        assert doubts + [] == doubts;
      }
      c.Close();
    }

    method One(rpc: Rpc, ghost l: Ledger) returns (o: Outcome, ghost quiet: bool, ghost l': Ledger)
      requires Valid(l)
      modifies this, c, c.Parts(), c.env
      ensures Valid(l') && old(c.env.injected) <= c.env.injected && fresh(c.Parts() - old(c.Parts()))
      ensures o.rpc == rpc && Permits(plan, c.limits, l, o, quiet, l')
      ensures AlwaysUp(plan) && !quiet ==> old(c.env.injected) < c.env.injected
    {
      l' := l;
      match rpc
      case RpcGet(key) =>
        var r;
        r, quiet := Get(key, l);
        o := GetOutcome(key, r);
      case RpcPut(key, block) =>
        var status;
        status, quiet, l' := Put(key, block, l);
        o := Outcome(rpc, status, None);
      case RpcPing =>
        var status;
        status, quiet := Ping(l);
        o := Outcome(rpc, status, None);
      case RpcClose =>
        Close(l);
        o, quiet := Outcome(rpc, OK, None), true;
    }

    /** Any sequence of calls: a successful get returns the last acknowledged put of its key or one that
        is in doubt, nothing acknowledged is ever not found, a put that failed changed nothing or is in
        doubt, and a call that meets no failure is answered and leaves no doubt. */
    method Run(rpcs: seq<Rpc>, ghost l: Ledger) returns (outcomes: seq<Outcome>, ghost quiet: seq<bool>, ghost l': Ledger)
      requires Valid(l)
      modifies this, c, c.Parts(), c.env
      ensures Valid(l') && old(c.env.injected) <= c.env.injected && fresh(c.Parts() - old(c.Parts()))
      ensures OutcomesOf(outcomes, rpcs)
      ensures Justified(plan, c.limits, l, outcomes, quiet, l')
      ensures AlwaysUp(plan) ==> Loud(quiet) <= c.env.injected - old(c.env.injected)
      decreases |rpcs|
    {
      if rpcs == [] {
        JustifiedNone(plan, c.limits, l);
        return [], [], l;
      }
      ghost var w;
      outcomes, quiet, w := Run(rpcs[..|rpcs| - 1], l);
      var o;
      ghost var q;
      o, q, l' := One(rpcs[|rpcs| - 1], w);
      OneMore(plan, c.limits, l, outcomes, quiet, w, o, q, l');
      OutcomesMore(outcomes, rpcs, o);
      outcomes, quiet := outcomes + [o], quiet + [q];
    }
  }

  lemma InitiallyOk(store: Store, limits: Limits)
    requires Shippable(store, limits)
    ensures ServerOk(Ledger(store, {}), Idle(store), [], [], limits)
  {
    var l, s := Ledger(store, {}), Idle(store);
    forall n: nat
      ensures LateOk(l, s, limits, n)
    {
      assert s.late(n) == [];
    }
    forall key
      ensures Vouches(l, store, key)
    {
    }
  }
}
