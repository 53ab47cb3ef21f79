/** What ARC does with its lists: from which one it evicts, how its target moves, and which ghost it
    gives up. Everything here is said in terms of the lists, the target `p` and the B2 flag. */
module ArcReplace {
  import opened Status
  import opened Blocks
  import opened Recency
  import opened PolicyOps
  import opened ArcPolicy
  import opened EvictionPolicy
  import opened NodeModel
  import ArcBounds

  // ---- REPLACE ----

  /** With both lists in use, the oldest of T1 goes if T1 is over its target, or just at it after a hit
      in B2; otherwise the oldest of T2. */
  lemma ReplaceRule(s: ArcState)
    requires s.t1 != [] && s.t2 != []
    ensures s.ChooseVictim(None) ==
            if |s.t1| as real > s.p || (|s.t1| as real == s.p && s.lastHitInB2)
            then Some(Reservation(s.t1[|s.t1| - 1], T1)) else Some(Reservation(s.t2[|s.t2| - 1], T2))
  {
  }

  /** T1 is where REPLACE looks first. */
  predicate LooksInT1(t1: seq<BlockKey>, t2: seq<BlockKey>, p: real, lastHitInB2: bool) {
    t1 != [] && (t2 == [] || |t1| as real > p || (|t1| as real == p && lastHitInB2))
  }

  /** Every key of the list is the excluded one. */
  ghost predicate OnlyExcluded(list: seq<BlockKey>, excluded: Option<BlockKey>) {
    forall k :: k in list ==> excluded == Some(k)
  }

  /** The victim is from the list that REPLACE looks in first unless that has nothing but the excluded
      key, and every key of its list that is older is the excluded one. */
  lemma ReplaceRuleExcluding(s: ArcState, excluded: Option<BlockKey>) returns (i: nat)
    requires s.ChooseVictim(excluded).Some?
    ensures var v := s.ChooseVictim(excluded).value;
            && v.source in {T1, T2}
            && (v.source == T1 <==>
                  if LooksInT1(s.t1, s.t2, s.p, s.lastHitInB2) then !OnlyExcluded(s.t1, excluded)
                  else OnlyExcluded(s.t2, excluded))
            && var list := if v.source == T1 then s.t1 else s.t2;
            i < |list| && list[i] == v.key && forall j :: i < j < |list| ==> excluded == Some(list[j])
  {
    var v := s.ChooseVictim(excluded).value;
    var list := if v.source == T1 then s.t1 else s.t2;
    assert OldestExcept(list, excluded) == Some(v.key);
    i := OldestExceptIsLast(list, excluded);
  }

  /** The same for a demotion in a node: the key being put is the excluded one. */
  lemma ArcDemotes(cfg: Config, s: State, e: Event) returns (i: nat)
    requires s.policy.Arc? && Enabled(cfg, s, e) && e.Demote?
    ensures var a := s.policy.arc;
            var fromT1 := if LooksInT1(a.t1, a.t2, a.p, a.lastHitInB2) then !OnlyExcluded(a.t1, e.replaced)
                          else OnlyExcluded(a.t2, e.replaced);
            var list := if fromT1 then a.t1 else a.t2;
            i < |list| && list[i] == e.victim && forall j :: i < j < |list| ==> e.replaced == Some(list[j])
  {
    i := ReplaceRuleExcluding(s.policy.arc, e.replaced);
  }

  /** The calls that move the `n` oldest keys of a list out, oldest first. */
  function MovesOut(list: seq<BlockKey>, n: nat): seq<PolicyOp>
    requires n <= |list|
  {
    if n == 0 then [] else MovesOut(list, n - 1) + [Select(None), Commit(list[|list| - n])]
  }

  lemma RunOneMore(s: ArcState, ops: seq<PolicyOp>, x: PolicyOp)
    ensures ArcBounds.Run(s, ops + [x]) == ArcBounds.Step(ArcBounds.Run(s, ops), x)
  {
    assert (ops + [x])[..|ops|] == ops;
  }

  lemma RunTwoMore(s: ArcState, ops: seq<PolicyOp>, x: PolicyOp, y: PolicyOp)
    ensures ArcBounds.Run(s, ops + [x, y]) == ArcBounds.Step(ArcBounds.Step(ArcBounds.Run(s, ops), x), y)
  {
    RunOneMore(s, ops, x);
    RunOneMore(s, ops + [x], y);
    assert ops + [x] + [y] == ops + [x, y];
  }

  lemma {:induction false} WithoutLast(list: seq<BlockKey>)
    requires Distinct(list) && list != []
    ensures Without(list, list[|list| - 1]) == list[..|list| - 1]
  {
    if |list| > 1 {
      Uncons(list);
      WithoutLast(list[1..]);
      assert list[..|list| - 1] == [list[0]] + list[1..][..|list| - 2];
      assert list[|list| - 1] in list[1..];
    }
  }

  /** `u` is `s` after the `n` oldest keys of `from` went to the front of `ghosts`, in their order. */
  ghost predicate Shifted(from: seq<BlockKey>, ghosts: seq<BlockKey>, n: nat, from': seq<BlockKey>, ghosts': seq<BlockKey>) {
    n <= |from| && from' == from[..|from| - n] && ghosts' == from[|from| - n..] + ghosts
  }

  lemma ShiftedNone(from: seq<BlockKey>, ghosts: seq<BlockKey>)
    ensures Shifted(from, ghosts, 0, from, ghosts)
  {
  }

  lemma ShiftedMore(from: seq<BlockKey>, ghosts: seq<BlockKey>, n: nat, from': seq<BlockKey>, ghosts': seq<BlockKey>)
    requires Shifted(from, ghosts, n, from', ghosts') && n < |from|
    ensures from' != [] && from'[|from'| - 1] == from[|from| - (n + 1)]
    ensures Shifted(from, ghosts, n + 1, from'[..|from'| - 1], [from'[|from'| - 1]] + ghosts')
  {
    assert [from'[|from'| - 1]] + from[|from| - n..] == from[|from| - (n + 1)..];
  }

  /** One round of REPLACE that finds its victim at the end of T1. */
  lemma OneOutOfT1(s: ArcState, v: BlockKey)
    requires s.Valid() && s.reserved.None? && s.t1 != [] && s.t2 != [] && |s.t1| as real > s.p && v == s.t1[|s.t1| - 1]
    ensures var u := ArcBounds.Step(ArcBounds.Step(s, Select(None)), Commit(v));
            && u.Valid() && u.reserved.None? && u.t1 == s.t1[..|s.t1| - 1] && u.b1 == [v] + s.b1
            && u.t2 == s.t2 && u.b2 == s.b2 && u.p == s.p && u.c == s.c && !u.lastHitInB2
  {
    var chosen := s.(reserved := Some(Reservation(v, T1)));
    ReplaceRule(s);
    assert v in s.t1;
    DemoteKeeps(chosen, v, T1);
    WithoutLast(s.t1);
    assert ArcBounds.Step(s, Select(None)) == chosen;
  }

  /** `u` is `s` after the `n` oldest keys of T1 became ghosts. */
  ghost predicate T1Shifted(s: ArcState, n: nat, u: ArcState) {
    && u.Valid() && u.reserved.None? && Shifted(s.t1, s.b1, n, u.t1, u.b1)
    && u.t2 == s.t2 && u.b2 == s.b2 && u.p == s.p && u.c == s.c && (n > 0 ==> !u.lastHitInB2)
  }

  lemma OneMoreOutOfT1(s: ArcState, n: nat, u: ArcState)
    requires s.t2 != [] && n < |s.t1| && (|s.t1| - n) as real > s.p && T1Shifted(s, n, u)
    ensures T1Shifted(s, n + 1, ArcBounds.Step(ArcBounds.Step(u, Select(None)), Commit(s.t1[|s.t1| - (n + 1)])))
  {
    ShiftedMore(s.t1, s.b1, n, u.t1, u.b1);
    OneOutOfT1(u, s.t1[|s.t1| - (n + 1)]);
  }

  /** While T2 is in use and T1 is over its target, REPLACE takes the keys of T1, oldest first, makes
      ghosts of them in that order and touches no key of T2. */
  lemma {:induction false} T1GoesFirst(s: ArcState, n: nat)
    requires s.Valid() && s.reserved.None? && s.t2 != []
    requires n <= |s.t1| && (n > 0 ==> (|s.t1| - (n - 1)) as real > s.p)
    ensures T1Shifted(s, n, ArcBounds.Run(s, MovesOut(s.t1, n)))
  {
    if n > 0 {
      T1GoesFirst(s, n - 1);
      OneMoreOutOfT1(s, n - 1, ArcBounds.Run(s, MovesOut(s.t1, n - 1)));
      RunTwoMore(s, MovesOut(s.t1, n - 1), Select(None), Commit(s.t1[|s.t1| - n]));
    } else {
      ShiftedNone(s.t1, s.b1);
    }
  }

  /** How many keys T1 is over its target. */
  lemma {:induction false} Excess(count: nat, p: real) returns (n: nat)
    requires 0.0 <= p
    ensures n <= count && (count - n) as real <= p && (n > 0 ==> (count - (n - 1)) as real > p)
  {
    if count as real <= p {
      n := 0;
    } else {
      n := Excess(count - 1, p);
      n := n + 1;
    }
  }

  /** The oldest of T2 is next. */
  lemma T2IsNext(s: ArcState)
    requires s.t2 != [] && (s.t1 == [] || |s.t1| as real < s.p || (|s.t1| as real == s.p && !s.lastHitInB2))
    ensures s.ChooseVictim(None) == Some(Reservation(s.t2[|s.t2| - 1], T2))
  {
    if s.t1 != [] {
      ReplaceRule(s);
    }
  }

  /** So it goes on until T1 is at its target or below, and then the oldest of T2 is next. */
  lemma T1GoesDownToTarget(s: ArcState) returns (n: nat, u: ArcState)
    requires s.Valid() && s.reserved.None? && s.t2 != [] && |s.t1| as real > s.p
    ensures 0 < n <= |s.t1| && u == ArcBounds.Run(s, MovesOut(s.t1, n))
    ensures u.t1 == s.t1[..|s.t1| - n] && u.t2 == s.t2 && |u.t1| as real <= s.p < (|u.t1| + 1) as real
    ensures u.ChooseVictim(None) == Some(Reservation(s.t2[|s.t2| - 1], T2))
  {
    n := Excess(|s.t1|, s.p);
    T1GoesFirst(s, n);
    u := ArcBounds.Run(s, MovesOut(s.t1, n));
    T2IsNext(u);
  }

  lemma OneOutOfT2(s: ArcState, v: BlockKey)
    requires s.Valid() && s.reserved.None? && s.t2 != [] && v == s.t2[|s.t2| - 1]
    requires s.t1 == [] || |s.t1| as real < s.p || (|s.t1| as real == s.p && !s.lastHitInB2)
    ensures var u := ArcBounds.Step(ArcBounds.Step(s, Select(None)), Commit(v));
            && u.Valid() && u.reserved.None? && u.t2 == s.t2[..|s.t2| - 1] && u.b2 == [v] + s.b2
            && u.t1 == s.t1 && u.b1 == s.b1 && u.p == s.p && u.c == s.c && !u.lastHitInB2
  {
    var chosen := s.(reserved := Some(Reservation(v, T2)));
    T2IsNext(s);
    assert v in s.t2;
    DemoteKeeps(chosen, v, T2);
    WithoutLast(s.t2);
    assert ArcBounds.Step(s, Select(None)) == chosen;
  }

  /** `u` is `s` after the `n` oldest keys of T2 became ghosts. */
  ghost predicate T2Shifted(s: ArcState, n: nat, u: ArcState) {
    && u.Valid() && u.reserved.None? && Shifted(s.t2, s.b2, n, u.t2, u.b2)
    && u.t1 == s.t1 && u.b1 == s.b1 && u.p == s.p && u.c == s.c && (u.lastHitInB2 ==> s.lastHitInB2)
  }

  lemma OneMoreOutOfT2(s: ArcState, n: nat, u: ArcState)
    requires n < |s.t2| && T2Shifted(s, n, u)
    requires s.t1 == [] || |s.t1| as real < s.p || (|s.t1| as real == s.p && !s.lastHitInB2)
    ensures T2Shifted(s, n + 1, ArcBounds.Step(ArcBounds.Step(u, Select(None)), Commit(s.t2[|s.t2| - (n + 1)])))
  {
    ShiftedMore(s.t2, s.b2, n, u.t2, u.b2);
    OneOutOfT2(u, s.t2[|s.t2| - (n + 1)]);
  }

  /** And while T1 is at its target or below, REPLACE takes the keys of T2, oldest first, until none is
      left, and touches no key of T1. */
  lemma {:induction false} T2GoesNext(s: ArcState, n: nat)
    requires s.Valid() && s.reserved.None? && n <= |s.t2|
    requires s.t1 == [] || |s.t1| as real < s.p || (|s.t1| as real == s.p && !s.lastHitInB2)
    ensures T2Shifted(s, n, ArcBounds.Run(s, MovesOut(s.t2, n)))
  {
    if n > 0 {
      T2GoesNext(s, n - 1);
      OneMoreOutOfT2(s, n - 1, ArcBounds.Run(s, MovesOut(s.t2, n - 1)));
      RunTwoMore(s, MovesOut(s.t2, n - 1), Select(None), Commit(s.t2[|s.t2| - n]));
    } else {
      ShiftedNone(s.t2, s.b2);
    }
  }

  // ---- Uses ----

  /** A used key becomes the first of T2, and every list keeps its order otherwise. */
  lemma UseMoves(s: ArcState, key: BlockKey)
    requires s.Valid() && key in s.pos
    ensures var u := s.Use(key);
            && u.t2 == [key] + Without(s.t2, key) && u.t1 == Without(s.t1, key)
            && u.b1 == Without(s.b1, key) && u.b2 == Without(s.b2, key)
  {
    WithoutDistinct(s.t1, key);
    WithoutDistinct(s.t2, key);
    WithoutDistinct(s.b1, key);
    WithoutDistinct(s.b2, key);
    assert key in s.t1 <==> s.Holds(key, T1);
    assert key in s.t2 <==> s.Holds(key, T2);
    assert key in s.b1 <==> s.Holds(key, B1);
    assert key in s.b2 <==> s.Holds(key, B2);
  }

  /** A hit in B1 raises the target, by one or by |B2| / |B1| if that is more, but not above `c`. */
  lemma HitInB1Raises(s: ArcState, key: BlockKey)
    requires s.Valid() && s.Holds(key, B1)
    ensures |s.b1| > 0
    ensures var step := if |s.b2| > |s.b1| then |s.b2| as real / |s.b1| as real else 1.0;
            s.Use(key).p == if s.p + step > s.c as real then s.c as real else s.p + step
    ensures s.p < s.c as real ==> s.p < s.Use(key).p
    ensures !s.Use(key).lastHitInB2
  {
    assert key in s.b1;
    RatioOverOne(|s.b2|, |s.b1|);
  }

  /** A hit in B2 lowers it likewise, but not below zero. */
  lemma HitInB2Lowers(s: ArcState, key: BlockKey)
    requires s.Valid() && s.Holds(key, B2)
    ensures |s.b2| > 0
    ensures var step := if |s.b1| > |s.b2| then |s.b1| as real / |s.b2| as real else 1.0;
            s.Use(key).p == if s.p - step < 0.0 then 0.0 else s.p - step
    ensures s.p > 0.0 ==> s.p > s.Use(key).p
    ensures s.Use(key).lastHitInB2
  {
    assert key in s.b2;
    RatioOverOne(|s.b1|, |s.b2|);
  }

  lemma RatioOverOne(a: nat, b: nat)
    requires b > 0
    ensures a as real / b as real > 1.0 <==> a > b
  {
    var q := a as real / b as real;
    assert q * b as real == a as real;
    if a > b {
      if q <= 1.0 {
        RealMonotone(q, 1.0, b as real);
      }
    } else if q > 1.0 {
      RealStrict(1.0, q, b as real);
    }
  }

  lemma RealMonotone(x: real, y: real, z: real)
    requires x <= y && 0.0 <= z
    ensures x * z <= y * z
  {
  }

  lemma RealStrict(x: real, y: real, z: real)
    requires x < y && 0.0 < z
    ensures x * z < y * z
  {
  }

  /** A hit on a resident moves neither the target nor the flag. */
  lemma HitOnResident(s: ArcState, key: BlockKey)
    requires s.IsResident(key)
    ensures s.Use(key).p == s.p && s.Use(key).lastHitInB2 == s.lastHitInB2
  {
  }

  /** A new key becomes the first of T1. It costs the oldest key of B1 if T1 and B1 hold `c` keys, and the
      oldest of B2 if they hold fewer but all lists together `2c`; nothing else changes but the flag. */
  lemma NewKeyCosts(s: ArcState, key: BlockKey)
    requires key !in s.pos && s.reserved.None?
    ensures var u, l1 := s.Admit(key), |s.t1| + |s.b1|;
            && u.t1 == [key] + s.t1 && u.t2 == s.t2 && u.p == s.p && u.c == s.c && !u.lastHitInB2
            && u.b1 == (if l1 == s.c && s.b1 != [] then s.b1[..|s.b1| - 1] else s.b1)
            && u.b2 == (if l1 < s.c && l1 + |s.t2| + |s.b2| >= 2 * s.c && s.b2 != [] then s.b2[..|s.b2| - 1] else s.b2)
  {
  }

  // ---- The flag ----

  predicate HitsB2(s: ArcState, op: PolicyOp) {
    (op.Access? || op.Insert?) && op.key in s.pos && s.pos[op.key] == B2
  }

  /** The call forgets a hit in B2: a hit in B1, a key that is not known, or a victim that has gone. */
  predicate ForgetsHit(s: ArcState, op: PolicyOp) {
    match op
    case Access(k) => k !in s.pos || s.pos[k] == B1
    case Insert(k) => k !in s.pos || s.pos[k] == B1
    case Commit(k) => s.reserved.Some? && s.reserved.value.key == k
    case _ => false
  }

  lemma FlagStep(s: ArcState, op: PolicyOp)
    requires s.Valid()
    ensures ArcBounds.Step(s, op).lastHitInB2 <==> HitsB2(s, op) || (s.lastHitInB2 && !ForgetsHit(s, op))
  {
  }

  /** Call `i` was a hit in B2, and none since has forgotten it. */
  ghost predicate Remembered(s: ArcState, ops: seq<PolicyOp>, i: int) {
    && 0 <= i < |ops| && HitsB2(ArcBounds.Run(s, ops[..i]), ops[i])
    && forall j :: i < j < |ops| ==> !ForgetsHit(ArcBounds.Run(s, ops[..j]), ops[j])
  }

  lemma RememberedMore(s: ArcState, ops: seq<PolicyOp>, op: PolicyOp, i: int)
    ensures Remembered(s, ops + [op], i) <==>
            || (i == |ops| && HitsB2(ArcBounds.Run(s, ops), op))
            || (Remembered(s, ops, i) && !ForgetsHit(ArcBounds.Run(s, ops), op))
  {
    var more := ops + [op];
    assert more[..|ops|] == ops && more[|ops|] == op;
    assert forall j :: 0 <= j < |ops| ==> more[..j] == ops[..j] && more[j] == ops[j];
  }

  ghost predicate SomeRemembered(s: ArcState, ops: seq<PolicyOp>) {
    exists i :: Remembered(s, ops, i)
  }

  lemma SomeRememberedMore(s: ArcState, ops: seq<PolicyOp>, op: PolicyOp)
    ensures SomeRemembered(s, ops + [op]) <==>
            HitsB2(ArcBounds.Run(s, ops), op) || (SomeRemembered(s, ops) && !ForgetsHit(ArcBounds.Run(s, ops), op))
  {
    if SomeRemembered(s, ops) {
      var i :| Remembered(s, ops, i);
      RememberedMore(s, ops, op, i);
    }
    if SomeRemembered(s, ops + [op]) {
      var i :| Remembered(s, ops + [op], i);
      RememberedMore(s, ops, op, i);
    }
    RememberedMore(s, ops, op, |ops|);
  }

  /** Over every run of a new policy, the flag says that some hit in B2 has not been forgotten since. */
  lemma {:induction false} FlagFollowsHistory(capacity: nat, ops: seq<PolicyOp>)
    ensures ArcBounds.Run(Fresh(capacity), ops).Valid()
    ensures ArcBounds.Run(Fresh(capacity), ops).lastHitInB2 <==> SomeRemembered(Fresh(capacity), ops)
  {
    if ops != [] {
      var s, before, op := Fresh(capacity), ops[..|ops| - 1], ops[|ops| - 1];
      FlagFollowsHistory(capacity, before);
      ArcBounds.StepValid(ArcBounds.Run(s, before), op);
      FlagStep(ArcBounds.Run(s, before), op);
      assert before + [op] == ops;
      SomeRememberedMore(s, before, op);
    }
  }
}
