/** A server behind the wire protocol, as the client sees it: a store that puts change, answers in order,
    puts of broken connections that take effect late or never, and what a client may conclude. */
module RpcServer {
  import opened Status
  import opened Blocks
  import opened WireCodec
  import opened WireMessages
  import opened TcpConnection
  import opened WireFraming
  import opened TcpConnector
  import BlockCodec

  type Store = map<BlockKey, Block>

  // ---- One connection ----

  /** A connection as the server lives through it: the store when it was accepted, the puts of earlier,
      broken connections that take effect just before its n-th request, and the status with which the
      server refuses its n-th request if that is a put. */
  datatype Session = Session(store: Store, late: nat -> seq<Update>, refuse: nat -> u16)

  function Applied(store: Store, late: seq<Update>): Store {
    if late == [] then store
    else Applied(store, late[..|late| - 1])[late[|late| - 1].key := late[|late| - 1].block]
  }

  predicate Refuses(code: u16) {
    1 <= code <= 10
  }

  /** What the client is told of a put, given the server's refusal of it, if any. */
  function PutAnswer(refusal: u16): (status: StatusCode)
    ensures status == OK <==> !Refuses(refusal)
  {
    if Refuses(refusal) then FromWireStatus(refusal).value else OK
  }

  /** The store after a request. */
  function Handle(store: Store, refusal: u16, f: Frame): Store {
    match PutOf(f)
    case None => store
    case Some(u) => if Refuses(refusal) then store else store[u.key := u.block]
  }

  /** What the server has to say to a request: 2 on the wire is a miss, 3 a request without sense. */
  function Response(store: Store, refusal: u16, f: Frame): (m: Message)
    ensures |PayloadOf(m)| < TWO_64
  {
    if f.header.opcode == PING then PingReply
    else if f.header.opcode == PUT then
      if PutOf(f).None? then ErrorReply(PUT, 3, [])
      else if Refuses(refusal) then ErrorReply(PUT, refusal, [])
      else PutReply
    else
      match DecodeBlockKey(f.payload)
      case Failure(_) => ErrorReply(GET, 3, [])
      case Success(key) =>
        if key in store then GetReply(BlockCodec.Serialized(store[key]))
        else ErrorReply(GET, 2, [])
  }

  /** The store after the requests of a connection. */
  function StoreAfter(s: Session, fs: seq<Frame>): Store
    decreases |fs|, 1
  {
    if fs == [] then s.store else Handle(StoreAt(s, fs), s.refuse(|fs| - 1), fs[|fs| - 1])
  }

  /** The store that the last of the requests meets. */
  function StoreAt(s: Session, fs: seq<Frame>): Store
    requires fs != []
    decreases |fs|, 0
  {
    Applied(StoreAfter(s, fs[..|fs| - 1]), s.late(|fs| - 1))
  }

  function ReplyIn(s: Session, fs: seq<Frame>): Frame {
    if fs == [] then FrameOf(PingReply, 0)
    else FrameOf(Response(StoreAt(s, fs), s.refuse(|fs| - 1), fs[|fs| - 1]), fs[|fs| - 1].header.requestId)
  }

  ghost predicate FollowsAt(peer: Peer, s: Session, fs: seq<Frame>) {
    peer.InOrder? && peer.reply(fs) == ReplyIn(s, fs)
  }

  /** The peer answers as the server of the session. */
  ghost predicate Follows(peer: Peer, s: Session) {
    peer.InOrder? && forall fs :: FollowsAt(peer, s, fs)
  }

  lemma FollowsOrderly(peer: Peer, s: Session)
    requires Follows(peer, s)
    ensures Orderly(peer)
  {
    forall fs
      ensures RepliesWhole(peer, fs)
    {
      assert FollowsAt(peer, s, fs);
    }
  }

  lemma StoreAfterMore(s: Session, fs: seq<Frame>, f: Frame)
    ensures StoreAt(s, fs + [f]) == Applied(StoreAfter(s, fs), s.late(|fs|))
    ensures StoreAfter(s, fs + [f]) == Handle(StoreAt(s, fs + [f]), s.refuse(|fs|), f)
    ensures ReplyIn(s, fs + [f]) == FrameOf(Response(StoreAt(s, fs + [f]), s.refuse(|fs|), f), f.header.requestId)
  {
    assert (fs + [f])[..|fs|] == fs;
  }

  // ---- What the client knows ----

  /** The puts that were acknowledged, and those of which the client cannot know whether they took effect. */
  datatype Ledger = Ledger(acked: Store, doubtful: set<Update>)

  /** A value that the client may be told for a key. */
  predicate Tells(l: Ledger, key: BlockKey, block: Block) {
    (key in l.acked && l.acked[key] == block) || Update(key, block) in l.doubtful
  }

  predicate Vouches(l: Ledger, store: Store, key: BlockKey) {
    (key in l.acked ==> key in store) && (key in store ==> Tells(l, key, store[key]))
  }

  /** Nothing acknowledged is missing, and nothing is there that was not put. */
  ghost predicate Truthful(l: Ledger, store: Store) {
    forall key :: Vouches(l, store, key)
  }

  ghost predicate Doubted(l: Ledger, late: seq<Update>) {
    forall i :: 0 <= i < |late| ==> late[i] in l.doubtful
  }

  lemma {:induction false} LateIsTruthful(l: Ledger, store: Store, late: seq<Update>)
    requires Truthful(l, store) && Doubted(l, late)
    ensures Truthful(l, Applied(store, late))
  {
    if late != [] {
      LateIsTruthful(l, store, late[..|late| - 1]);
      forall key
        ensures Vouches(l, Applied(store, late), key)
      {
        assert Vouches(l, Applied(store, late[..|late| - 1]), key);
      }
    }
  }

  lemma AckedIsTruthful(l: Ledger, store: Store, u: Update)
    requires Truthful(l, store)
    ensures Truthful(l.(acked := l.acked[u.key := u.block]), store[u.key := u.block])
  {
    var l', store' := l.(acked := l.acked[u.key := u.block]), store[u.key := u.block];
    forall key
      ensures Vouches(l', store', key)
    {
      assert Vouches(l, store, key);
    }
  }

  lemma DoubtIsTruthful(l: Ledger, store: Store, u: Update)
    requires Truthful(l, store)
    ensures Truthful(l.(doubtful := l.doubtful + {u}), store)
    ensures Truthful(l.(doubtful := l.doubtful + {u}), store[u.key := u.block])
  {
    var l', store' := l.(doubtful := l.doubtful + {u}), store[u.key := u.block];
    forall key
      ensures Vouches(l', store, key)
    {
      assert Vouches(l, store, key);
    }
    forall key
      ensures Vouches(l', store', key)
    {
      assert Vouches(l, store, key);
    }
  }

  // ---- Blocks that fit the wire ----

  predicate Ships(store: Store, limits: Limits, key: BlockKey) {
    key in store ==> CanShip(store[key], limits)
  }

  ghost predicate Shippable(store: Store, limits: Limits) {
    forall key :: Ships(store, limits, key)
  }

  ghost predicate LateShippable(late: seq<Update>, limits: Limits) {
    forall i :: 0 <= i < |late| ==> CanShip(late[i].block, limits)
  }

  lemma {:induction false} LateStaysShippable(store: Store, late: seq<Update>, limits: Limits)
    requires Shippable(store, limits) && LateShippable(late, limits)
    ensures Shippable(Applied(store, late), limits)
  {
    if late != [] {
      LateStaysShippable(store, late[..|late| - 1], limits);
      forall key
        ensures Ships(Applied(store, late), limits, key)
      {
        assert Ships(Applied(store, late[..|late| - 1]), limits, key);
      }
    }
  }

  /** The limits leave room for a key and for an empty error message. */
  predicate Roomy(limits: Limits) {
    HEADER_BYTES + KEY_BYTES <= limits.maxFrameBytes && HEADER_BYTES + KEY_BYTES <= limits.sizeMax
  }

  // ---- The three requests ----

  function Lookup(store: Store, key: BlockKey): Result<Block> {
    if key in store then Success(store[key]) else Failure(NotFound)
  }

  lemma GetReplyMeans(store: Store, refusal: u16, id: u64, key: BlockKey)
    ensures var f := RequestFrame(GET, id, KeyBytes(key));
            var m := Response(store, refusal, f);
            && Handle(store, refusal, f) == store
            && (key in store ==> m == GetReply(BlockCodec.Serialized(store[key])))
            && (key !in store ==> m == ErrorReply(GET, 2, []))
  {
    KeyBijection(KeyBytes(key), key);
  }

  /** What the client makes of the reply to a get. */
  lemma GetResultIs(store: Store, refusal: u16, id: u64, key: BlockKey)
    ensures var f := RequestFrame(GET, id, KeyBytes(key));
            var reply := FrameOf(Response(store, refusal, f), id);
            |reply.payload| < TWO_63 ==> GetResult(reply) == Lookup(store, key)
  {
    GetReplyMeans(store, refusal, id, key);
    if key in store {
      BlockCodec.ParseSerialized(store[key]);
    }
  }

  lemma GetAnswered(store: Store, refusal: u16, id: u64, key: BlockKey, limits: Limits)
    requires Roomy(limits) && id != 0 && (key in store ==> CanShip(store[key], limits))
    ensures var f := RequestFrame(GET, id, KeyBytes(key));
            var reply := FrameOf(Response(store, refusal, f), id);
            ValidRequest(f, limits) && Writable(reply, limits) && Answers(f, reply) && ValidResponse(reply, limits)
  {
    GetReplyMeans(store, refusal, id, key);
    if key in store {
      BlockReturns(store[key], id, limits);
      BlockCodec.ParseSerialized(store[key]);
    } else {
      SentIsAccepted(ErrorReply(GET, 2, []), id, limits);
    }
  }

  lemma PutAnswered(store: Store, refusal: u16, f: Frame, limits: Limits)
    requires PutOf(f).Some? && f.header.requestId != 0 && Roomy(limits)
    ensures var reply := FrameOf(Response(store, refusal, f), f.header.requestId);
            && Writable(reply, limits) && Answers(f, reply) && ValidResponse(reply, limits)
            && RemoteStatus(reply) == PutAnswer(refusal)
  {
    if Refuses(refusal) {
      SentIsAccepted(ErrorReply(PUT, refusal, []), f.header.requestId, limits);
    } else {
      SentIsAccepted(PutReply, f.header.requestId, limits);
    }
  }

  lemma PingAnswered(store: Store, refusal: u16, id: u64, limits: Limits)
    requires Roomy(limits) && id != 0
    ensures var f := RequestFrame(PING, id, []);
            var reply := FrameOf(Response(store, refusal, f), id);
            && ValidRequest(f, limits) && Writable(reply, limits) && Answers(f, reply) && ValidResponse(reply, limits)
            && RemoteStatus(reply) == OK && Handle(store, refusal, f) == store
  {
    SentIsAccepted(PingReply, id, limits);
  }
}
