/** Adaptive replacement (src/store/eviction/arc_eviction.cpp), after Megiddo and Modha, FAST'03.
    The target size `p` is a real number: rounding of doubles is not modelled. */
module ArcPolicy {
  import opened Status
  import opened Faults
  import opened Blocks
  import opened Recency

  datatype ListId = T1 | T2 | B1 | B2

  datatype Reservation = Reservation(key: BlockKey, source: ListId)

  function Max(a: real, b: real): real {
    if a < b then b else a
  }

  function Min(a: real, b: real): real {
    if a < b then a else b
  }

  /** `s` is duplicate-free and holds exactly the keys that `pos` places on list `l`. */
  ghost predicate Agrees(pos: map<BlockKey, ListId>, l: ListId, s: seq<BlockKey>) {
    && Distinct(s)
    && forall k {:trigger k in s} :: k in s <==> k in pos && pos[k] == l
  }

  /** T1 and T2 hold residents seen once and more often, B1 and B2 the ghosts of their victims.
      `pos` names the list of every known key. */
  datatype ArcState = ArcState(
    c: nat,
    p: real,
    lastHitInB2: bool,
    t1: seq<BlockKey>,
    t2: seq<BlockKey>,
    b1: seq<BlockKey>,
    b2: seq<BlockKey>,
    pos: map<BlockKey, ListId>,
    reserved: Option<Reservation>) {

    /** The lists are duplicate-free and `pos` agrees exactly with them, so they are disjoint. */
    ghost predicate ListsValid() {
      && Agrees(pos, T1, t1)
      && Agrees(pos, T2, t2)
      && Agrees(pos, B1, b1)
      && Agrees(pos, B2, b2)
    }

    ghost predicate Valid() {
      && 1 <= c
      && 0.0 <= p <= c as real
      && ListsValid()
      && (reserved.Some? ==> reserved.value.source in {T1, T2} && Holds(reserved.value.key, reserved.value.source))
    }

    predicate Holds(key: BlockKey, l: ListId) {
      key in pos && pos[key] == l
    }

    predicate IsResident(key: BlockKey) {
      key in pos && pos[key] in {T1, T2}
    }

    ghost function Residents(): set<BlockKey> {
      set k | k in pos && pos[k] in {T1, T2}
    }

    predicate IsReserved(key: BlockKey) {
      reserved.Some? && reserved.value.key == key
    }

    function ResidentCount(): nat {
      |t1| + |t2|
    }

    function Total(): nat {
      |t1| + |t2| + |b1| + |b2|
    }

    /** The bounds that ARC promises on its bookkeeping. */
    predicate Bounded() {
      && |t1| + |t2| <= c
      && |t1| + |b1| <= c
      && Total() <= 2 * c
    }

    function List(l: ListId): seq<BlockKey> {
      match l
      case T1 => t1
      case T2 => t2
      case B1 => b1
      case B2 => b2
    }

    function WithList(l: ListId, s: seq<BlockKey>): ArcState {
      match l
      case T1 => this.(t1 := s)
      case T2 => this.(t2 := s)
      case B1 => this.(b1 := s)
      case B2 => this.(b2 := s)
    }

    function Unlink(key: BlockKey): ArcState {
      if key !in pos then this
      else WithList(pos[key], Without(List(pos[key]), key)).(pos := pos - {key})
    }

    function PushFront(key: BlockKey, l: ListId): ArcState {
      WithList(l, [key] + List(l)).(pos := pos[key := l])
    }

    /** `key` goes to the front of `l`. */
    function Move(key: BlockKey, l: ListId): ArcState {
      Unlink(key).PushFront(key, l)
    }

    /** A recency ghost was wanted again: favour T1. */
    function AdaptUp(): ArcState {
      var ratio := if b1 == [] then 1.0 else Max(|b2| as real / |b1| as real, 1.0);
      this.(p := Min(c as real, p + ratio), lastHitInB2 := false)
    }

    /** A frequency ghost was wanted again: favour T2. */
    function AdaptDown(): ArcState {
      var ratio := if b2 == [] then 1.0 else Max(|b1| as real / |b2| as real, 1.0);
      this.(p := Max(0.0, p - ratio), lastHitInB2 := true)
    }

    function Adapt(l: ListId): ArcState {
      match l
      case B1 => AdaptUp()
      case B2 => AdaptDown()
      case _ => this
    }

    /** A known key was used: it now counts as frequent. */
    function Use(key: BlockKey): ArcState
      requires key in pos
    {
      Adapt(pos[key]).Move(key, T2)
    }

    function Touch(key: BlockKey): ArcState {
      if key !in pos then this.(lastHitInB2 := false)
      else if IsReserved(key) then this
      else Use(key)
    }

    /** The ghost list a new key must shorten, if any. */
    function GhostToTrim(): Option<ListId> {
      if |t1| + |b1| == c then
        if |t1| < c then Some(B1) else None
      else if |t1| + |b1| < c && Total() >= 2 * c then Some(B2)
      else None
    }

    function DropOldest(l: ListId): ArcState {
      var s := List(l);
      if s == [] then this
      else WithList(l, s[..|s| - 1]).(pos := pos - {s[|s| - 1]})
    }

    function AdmitNew(key: BlockKey): ArcState {
      var pushed := PushFront(key, T1);
      var trimmed := match GhostToTrim()
                     case None => pushed
                     case Some(l) => pushed.DropOldest(l);
      trimmed.(lastHitInB2 := false)
    }

    function Admit(key: BlockKey): ArcState {
      if IsReserved(key) then this
      else if key in pos then Use(key)
      else AdmitNew(key)
    }

    function Forget(key: BlockKey): ArcState {
      Unlink(key).(reserved := if key in pos && IsReserved(key) then None else reserved)
    }

    /** REPLACE prefers T1 when it is over its target. */
    function PrefersT1(): bool {
      if t1 == [] then false
      else if t2 == [] then true
      else if lastHitInB2 then |t1| as real >= p
      else |t1| as real > p
    }

    function VictimIn(l: ListId, excluded: Option<BlockKey>): Option<Reservation> {
      match OldestExcept(List(l), excluded)
      case None => None
      case Some(k) => Some(Reservation(k, l))
    }

    function ChooseVictim(excluded: Option<BlockKey>): Option<Reservation> {
      var (first, second) := if PrefersT1() then (T1, T2) else (T2, T1);
      if VictimIn(first, excluded).Some? then VictimIn(first, excluded) else VictimIn(second, excluded)
    }

    /** The reserved victim leaves DRAM and becomes a ghost. */
    function Demote(key: BlockKey, source: ListId): ArcState {
      Move(key, if source == T1 then B1 else B2).(reserved := None, lastHitInB2 := false)
    }
  }

  function Fresh(capacityBlocks: nat): ArcState {
    ArcState(if capacityBlocks == 0 then 1 else capacityBlocks, 0.0, false, [], [], [], [], map[], None)
  }

  lemma AgreesRemove(pos: map<BlockKey, ListId>, l: ListId, s: seq<BlockKey>, key: BlockKey)
    requires Agrees(pos, l, s)
    ensures key in pos && pos[key] == l ==> Agrees(pos - {key}, l, Without(s, key)) && |Without(s, key)| == |s| - 1
    ensures key !in pos || pos[key] != l ==> Agrees(pos - {key}, l, s)
  {
    WithoutDistinct(s, key);
    assert key in s <==> key in pos && pos[key] == l;
  }

  lemma AgreesAdd(pos: map<BlockKey, ListId>, l: ListId, s: seq<BlockKey>, key: BlockKey, dst: ListId)
    requires Agrees(pos, l, s) && key !in pos
    ensures Agrees(pos[key := dst], l, if l == dst then [key] + s else s)
  {
    assert key !in s;
    PushDistinct(s, key);
  }

  lemma AgreesDropLast(pos: map<BlockKey, ListId>, l: ListId, s: seq<BlockKey>)
    requires Agrees(pos, l, s) && s != []
    ensures var oldest := s[|s| - 1]; oldest in pos && pos[oldest] == l && Agrees(pos - {oldest}, l, s[..|s| - 1])
  {
    var rest, oldest := s[..|s| - 1], s[|s| - 1];
    PopDistinct(s);
    assert s == rest + [oldest] && oldest in s;
    assert forall k {:trigger k in rest} :: k in rest <==> k in s && k != oldest;
  }

  lemma UnlinkKeeps(s: ArcState, key: BlockKey)
    requires s.ListsValid()
    ensures s.Unlink(key).ListsValid()
    ensures key in s.pos ==> s.Unlink(key).Total() == s.Total() - 1
    ensures |s.Unlink(key).t1| == |s.t1| - (if s.Holds(key, T1) then 1 else 0)
    ensures |s.Unlink(key).t2| == |s.t2| - (if s.Holds(key, T2) then 1 else 0)
    ensures |s.Unlink(key).b1| == |s.b1| - (if s.Holds(key, B1) then 1 else 0)
    ensures |s.Unlink(key).b2| == |s.b2| - (if s.Holds(key, B2) then 1 else 0)
  {
    AgreesRemove(s.pos, T1, s.t1, key);
    AgreesRemove(s.pos, T2, s.t2, key);
    AgreesRemove(s.pos, B1, s.b1, key);
    AgreesRemove(s.pos, B2, s.b2, key);
  }

  lemma PushFrontKeeps(s: ArcState, key: BlockKey, l: ListId)
    requires s.ListsValid() && key !in s.pos
    ensures s.PushFront(key, l).ListsValid()
  {
    AgreesAdd(s.pos, T1, s.t1, key, l);
    AgreesAdd(s.pos, T2, s.t2, key, l);
    AgreesAdd(s.pos, B1, s.b1, key, l);
    AgreesAdd(s.pos, B2, s.b2, key, l);
  }

  /** Moving a known key touches its old and its new list only. */
  lemma MoveKeeps(s: ArcState, key: BlockKey, l: ListId)
    requires s.ListsValid() && key in s.pos
    ensures s.Move(key, l).ListsValid()
    ensures s.Move(key, l).pos == s.pos[key := l]
    ensures s.Move(key, l).Total() == s.Total()
  {
    UnlinkKeeps(s, key);
    PushFrontKeeps(s.Unlink(key), key, l);
  }

  /** Using a known key makes it the most recent of T2 and costs no bookkeeping. */
  lemma UseKeeps(s: ArcState, key: BlockKey)
    requires s.Valid() && !s.IsReserved(key) && key in s.pos
    ensures s.Use(key).Valid() && s.Use(key).c == s.c && s.Use(key).reserved == s.reserved
    ensures s.Use(key).pos == s.pos[key := T2]
    ensures s.Use(key).Residents() == s.Residents() + {key}
    ensures s.Use(key).Total() == s.Total()
    ensures s.Use(key).ResidentCount() == s.ResidentCount() + (if s.IsResident(key) then 0 else 1)
    ensures |s.Use(key).t1| + |s.Use(key).b1| <= |s.t1| + |s.b1|
  {
    var a := s.Adapt(s.pos[key]);
    assert a.Valid();
    MoveKeeps(a, key, T2);
    UnlinkKeeps(a, key);
  }

  lemma DropOldestKeeps(s: ArcState, l: ListId)
    requires s.ListsValid()
    ensures s.DropOldest(l).ListsValid()
    ensures s.List(l) != [] ==> s.DropOldest(l).pos == s.pos - {s.List(l)[|s.List(l)| - 1]}
    ensures s.List(l) != [] ==> s.Holds(s.List(l)[|s.List(l)| - 1], l)
  {
    if s.List(l) != [] {
      AgreesDropLast(s.pos, l, s.List(l));
      var oldest := s.List(l)[|s.List(l)| - 1];
      AgreesRemove(s.pos, T1, s.t1, oldest);
      AgreesRemove(s.pos, T2, s.t2, oldest);
      AgreesRemove(s.pos, B1, s.b1, oldest);
      AgreesRemove(s.pos, B2, s.b2, oldest);
    }
  }

  lemma AdmitNewKeeps(s: ArcState, key: BlockKey)
    requires s.Valid() && key !in s.pos
    ensures s.AdmitNew(key).Valid() && s.AdmitNew(key).c == s.c && s.AdmitNew(key).reserved == s.reserved
    ensures s.AdmitNew(key).Residents() == s.Residents() + {key}
  {
    PushFrontKeeps(s, key, T1);
    if s.GhostToTrim().Some? {
      DropOldestKeeps(s.PushFront(key, T1), s.GhostToTrim().value);
    }
  }

  lemma AdmitKeeps(s: ArcState, key: BlockKey)
    requires s.Valid() && !s.IsReserved(key)
    ensures s.Admit(key).Valid() && s.Admit(key).c == s.c && s.Admit(key).reserved == s.reserved
    ensures s.Admit(key).Residents() == s.Residents() + {key}
  {
    if key in s.pos {
      UseKeeps(s, key);
    } else {
      AdmitNewKeeps(s, key);
    }
  }

  lemma ForgetKeeps(s: ArcState, key: BlockKey)
    requires s.Valid()
    ensures s.Forget(key).Valid() && s.Forget(key).c == s.c
    ensures s.Forget(key).Residents() == s.Residents() - {key}
  {
    UnlinkKeeps(s, key);
  }

  /** Committing moves exactly the victim, T1 to B1 or T2 to B2, and nothing else. */
  lemma DemoteKeeps(s: ArcState, key: BlockKey, source: ListId)
    requires s.Valid() && s.reserved == Some(Reservation(key, source))
    ensures s.Demote(key, source).Valid() && s.Demote(key, source).c == s.c
    ensures s.Demote(key, source).Residents() == s.Residents() - {key}
    ensures s.Demote(key, source).pos == s.pos[key := if source == T1 then B1 else B2]
    ensures source == T1 ==> s.Demote(key, T1).t2 == s.t2 && s.Demote(key, T1).b2 == s.b2
    ensures source == T1 ==> s.Demote(key, T1).t1 == Without(s.t1, key) && s.Demote(key, T1).b1 == [key] + s.b1
    ensures source == T2 ==> s.Demote(key, T2).t1 == s.t1 && s.Demote(key, T2).b1 == s.b1
    ensures source == T2 ==> s.Demote(key, T2).t2 == Without(s.t2, key) && s.Demote(key, T2).b2 == [key] + s.b2
    ensures s.Demote(key, source).Total() == s.Total()
    ensures s.Demote(key, source).ResidentCount() == s.ResidentCount() - 1
    ensures |s.Demote(key, source).t1| + |s.Demote(key, source).b1| == |s.t1| + |s.b1|
  {
    MoveKeeps(s, key, if source == T1 then B1 else B2);
    WithoutDistinct(s.List(source), key);
    assert key in s.List(source);
  }

  /** A victim exists unless every resident is the excluded key, and it is never that key. */
  lemma ChooseVictimIsResident(s: ArcState, excluded: Option<BlockKey>)
    requires s.Valid()
    ensures s.ChooseVictim(excluded).None? <==> forall k :: k in s.Residents() ==> excluded == Some(k)
    ensures s.ChooseVictim(excluded).Some? ==>
      var v := s.ChooseVictim(excluded).value;
      v.source in {T1, T2} && s.Holds(v.key, v.source) && v.key in s.Residents() && Some(v.key) != excluded
  {
    if s.ChooseVictim(excluded).Some? {
      var v := s.ChooseVictim(excluded).value;
      assert v.key in s.List(v.source);
    } else {
      assert OldestExcept(s.t1, excluded).None? && OldestExcept(s.t2, excluded).None?;
      forall k | k in s.Residents()
        ensures excluded == Some(k)
      {
        assert k in s.t1 || k in s.t2;
      }
    }
  }

  class ArcEviction {
    const env: Environment
    const c: nat
    var p: real
    var lastHitInB2: bool
    var t1: seq<BlockKey>
    var t2: seq<BlockKey>
    var b1: seq<BlockKey>
    var b2: seq<BlockKey>
    var pos: map<BlockKey, ListId>
    var reserved: Option<Reservation>

    ghost function State(): ArcState
      reads this
    {
      ArcState(c, p, lastHitInB2, t1, t2, b1, b2, pos, reserved)
    }

    ghost predicate Valid()
      reads this
    {
      State().Valid()
    }

    constructor (env: Environment, capacityBlocks: nat)
      ensures Valid() && this.env == env
      ensures State() == Fresh(capacityBlocks)
      ensures c == (if capacityBlocks == 0 then 1 else capacityBlocks) && p == 0.0 && !lastHitInB2 && pos == map[]
    {
      this.env := env;
      c := if capacityBlocks == 0 then 1 else capacityBlocks;
      p, lastHitInB2 := 0.0, false;
      t1, t2, b1, b2 := [], [], [], [];
      pos, reserved := map[], None;
    }

    function ListRef(l: ListId): (r: seq<BlockKey>)
      reads this
      ensures r == State().List(l)
    {
      match l
      case T1 => t1
      case T2 => t2
      case B1 => b1
      case B2 => b2
    }

    method SetList(l: ListId, s: seq<BlockKey>)
      modifies this`t1, this`t2, this`b1, this`b2
      ensures State() == old(State()).WithList(l, s)
    {
      match l
      case T1 => t1 := s;
      case T2 => t2 := s;
      case B1 => b1 := s;
      case B2 => b2 := s;
    }

    /** Splices `key` from its list to the front of `dst`. Terminates the process if it has no list. */
    method Relink(key: BlockKey, dst: ListId)
      requires key in pos
      modifies this`t1, this`t2, this`b1, this`b2, this`pos
      ensures State() == old(State()).Move(key, dst)
    {
      var src := pos[key];
      SetList(src, Without(ListRef(src), key));
      SetList(dst, [key] + ListRef(dst));
      pos := pos[key := dst];
      assert pos == (old(pos) - {key})[key := dst];
    }

    method AdaptUp()
      modifies this`p
      ensures State() == old(State()).AdaptUp().(lastHitInB2 := lastHitInB2)
    {
      var ratio := if b1 == [] then 1.0 else Max(|b2| as real / |b1| as real, 1.0);
      p := Min(c as real, p + ratio);
    }

    method AdaptDown()
      modifies this`p
      ensures State() == old(State()).AdaptDown().(lastHitInB2 := lastHitInB2)
    {
      var ratio := if b2 == [] then 1.0 else Max(|b1| as real / |b2| as real, 1.0);
      p := Max(0.0, p - ratio);
    }

    /** The part that OnAccess and OnInsert share: a key already on one of the lists. */
    method UseKnown(key: BlockKey)
      requires key in pos
      modifies this
      ensures State() == old(State()).Use(key)
    {
      match pos[key]
      case T1 => Relink(key, T2);
      case T2 => Relink(key, T2);
      case B1 =>
        AdaptUp();
        lastHitInB2 := false;
        Relink(key, T2);
      case B2 =>
        AdaptDown();
        lastHitInB2 := true;
        Relink(key, T2);
    }

    method OnAccess(key: BlockKey)
      requires Valid()
      modifies this
      ensures Valid() && State() == old(State()).Touch(key)
    {
      if key !in pos {
        lastHitInB2 := false;
        return;
      }
      if reserved.Some? && reserved.value.key == key {
        return;
      }
      UseKeeps(State(), key);
      UseKnown(key);
    }

    method GhostToTrimForInsert() returns (l: Option<ListId>)
      ensures l == State().GhostToTrim()
    {
      var l1 := |t1| + |b1|;
      if l1 == c {
        if |t1| < c {
          return Some(B1);
        }
      } else if l1 < c {
        var total := |t1| + |t2| + |b1| + |b2|;
        if total >= 2 * c {
          return Some(B2);
        }
      }
      return None;
    }

    method EraseLru(l: ListId)
      modifies this`t1, this`t2, this`b1, this`b2, this`pos
      ensures State() == old(State()).DropOldest(l)
    {
      var list := ListRef(l);
      if list == [] {
        return;
      }
      pos := pos - {list[|list| - 1]};
      SetList(l, list[..|list| - 1]);
    }

    method OnInsert(key: BlockKey) returns (status: StatusCode)
      requires Valid()
      modifies this, env
      ensures Valid()
      ensures status == OK ==> !old(State()).IsReserved(key) && State() == old(State()).Admit(key)
      ensures status != OK ==> State() == old(State())
      ensures status == InvalidArgument <==> old(State()).IsReserved(key)
      ensures old(env.injected) <= env.injected
      ensures status == OutOfCapacity ==> old(env.injected) < env.injected
      ensures status in {OK, InvalidArgument, OutOfCapacity}
    {
      if key in pos {
        if reserved.Some? && reserved.value.key == key {
          return InvalidArgument;
        }
        UseKeeps(State(), key);
        UseKnown(key);
        return OK;
      }
      AdmitNewKeeps(State(), key);
      var trim := GhostToTrimForInsert();
      var failed := env.Fails();
      if failed {
        return OutOfCapacity;
      }
      t1 := [key] + t1;
      pos := pos[key := T1];
      if trim.Some? {
        EraseLru(trim.value);
      }
      lastHitInB2 := false;
      return OK;
    }

    method OnRemove(key: BlockKey)
      requires Valid()
      modifies this
      ensures Valid() && State() == old(State()).Forget(key)
    {
      ForgetKeeps(State(), key);
      if key !in pos {
        return;
      }
      if reserved.Some? && reserved.value.key == key {
        reserved := None;
      }
      var l := pos[key];
      SetList(l, Without(ListRef(l), key));
      pos := pos - {key};
    }

    method Choose(l: ListId, excluded: Option<BlockKey>) returns (r: Option<Reservation>)
      ensures r == State().VictimIn(l, excluded)
    {
      var list := ListRef(l);
      var i := |list|;
      assert list[..i] == list;
      while i > 0
        invariant 0 <= i <= |list|
        invariant OldestExcept(list, excluded) == OldestExcept(list[..i], excluded)
      {
        i := i - 1;
        if excluded != Some(list[i]) {
          return Some(Reservation(list[i], l));
        }
        assert list[..i + 1][..i] == list[..i];
      }
      return None;
    }

    method SelectVictim(excluded: Option<BlockKey>) returns (r: Result<BlockKey>)
      requires Valid()
      modifies this
      ensures Valid()
      ensures old(reserved).Some? ==> r == Failure(AlreadyExists) && State() == old(State())
      ensures old(reserved).None? ==>
        match old(State()).ChooseVictim(excluded)
        case None => r == Failure(NotFound) && State() == old(State())
        case Some(v) => r == Success(v.key) && State() == old(State()).(reserved := Some(v))
      ensures old(reserved).None? && excluded.None? && t1 != [] && t2 != [] ==>
        r == Success(if |t1| as real > p || (|t1| as real == p && lastHitInB2) then t1[|t1| - 1] else t2[|t2| - 1])
    {
      ChooseVictimIsResident(State(), excluded);
      if reserved.Some? {
        return Failure(AlreadyExists);
      }
      if t1 == [] && t2 == [] {
        return Failure(NotFound);
      }
      var useT1 := LooksInT1();
      r := Reserve(if useT1 then T1 else T2, if useT1 then T2 else T1, excluded);
    }

    /** REPLACE: T1 if it is over its target, or just at it after a hit in B2. */
    method LooksInT1() returns (useT1: bool)
      ensures useT1 == State().PrefersT1()
      ensures t1 != [] && t2 != [] ==> (useT1 <==> |t1| as real > p || (|t1| as real == p && lastHitInB2))
    {
      if t1 == [] {
        useT1 := false;
      } else if t2 == [] {
        useT1 := true;
      } else if lastHitInB2 {
        useT1 := |t1| as real >= p;
      } else {
        useT1 := |t1| as real > p;
      }
    }

    /** Reserves the oldest key of one list other than the excluded one, or else of the other. */
    method Reserve(first: ListId, second: ListId, excluded: Option<BlockKey>) returns (r: Result<BlockKey>)
      modifies this`reserved
      ensures var victim := if old(State()).VictimIn(first, excluded).Some? then old(State()).VictimIn(first, excluded)
                            else old(State()).VictimIn(second, excluded);
              match victim
              case None => r == Failure(NotFound) && State() == old(State())
              case Some(v) => r == Success(v.key) && State() == old(State()).(reserved := Some(v))
    {
      var reservation := Choose(first, excluded);
      if reservation.None? {
        reservation := Choose(second, excluded);
      }
      if reservation.None? {
        return Failure(NotFound);
      }
      reserved := reservation;
      return Success(reservation.value.key);
    }

    method ValidateVictimCommit(key: BlockKey) returns (status: StatusCode)
      requires Valid()
      ensures status == if State().IsReserved(key) then OK else InvalidArgument
    {
      if reserved.None? || reserved.value.key != key {
        return InvalidArgument;
      }
      assert key in pos && pos[key] == reserved.value.source;
      return OK;
    }

    /** Terminates the process unless `key` is the reserved victim. */
    method CommitVictim(key: BlockKey)
      requires Valid() && State().IsReserved(key)
      modifies this
      ensures Valid() && State() == old(State()).Demote(key, old(reserved).value.source)
    {
      DemoteKeeps(State(), key, reserved.value.source);
      var destination := if reserved.value.source == T1 then B1 else B2;
      Relink(key, destination);
      reserved := None;
      lastHitInB2 := false;
    }

    method CancelVictim(key: BlockKey) returns (status: StatusCode)
      requires Valid()
      modifies this
      ensures Valid()
      ensures status == if old(State()).IsReserved(key) then OK else InvalidArgument
      ensures State() == if status == OK then old(State()).(reserved := None) else old(State())
    {
      if reserved.None? || reserved.value.key != key {
        return InvalidArgument;
      }
      reserved := None;
      return OK;
    }
  }
}
