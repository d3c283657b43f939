/**
 Who dies when the COLD tier is over budget, when a swap-out kills anybody at all, how often a
 victim is pruned, and exactly when an activation loses its own session.
 */
module ColdTier {
  import opened Wrappers
  import opened Powers
  import opened Foreign
  import opened LruList
  import opened SessionState
  import opened SessionSpec

  // ---- the eviction loop of the COLD tier ----

  /** The excluded session is the youngest of the COLD list, or not in it. */
  ghost predicate ExcludesAtMostLast(l: seq<Node>, excludeId: int) {
    forall i :: 0 <= i < |l| - 1 ==> l[i].id != excludeId
  }

  lemma KillOldest(s: State)
    requires Inv(s) && s.cold != []
    ensures var r := KillSession(s, s.cold[0].id);
      && Inv(r) && OnlyColdLost(s, r)
      && r.cold == s.cold[1..] && r.sessions == s.sessions - {s.cold[0].id}
      && (forall i :: 0 <= i <= |r.cold| ==> SumBytes(r.sessions, r.cold[i..]) == SumBytes(s.sessions, s.cold[i + 1..]))
  {
    var id := s.cold[0].id;
    assert s.cold[0] in s.cold;
    KillColdVictim(s, id);
    KillColdLosesOnlyCold(s, id);
    SwappedFacts(s, id);
    var r := KillSession(s, id);
    assert IndexOf(s.cold, s.cold[0].it) == 0;
    assert r.cold == s.cold[1..];
    forall i | 0 <= i <= |r.cold|
      ensures SumBytes(r.sessions, r.cold[i..]) == SumBytes(s.sessions, s.cold[i + 1..])
    {
      assert r.cold[i..] == s.cold[i + 1..];
      SumSame(r.sessions, s.sessions, r.cold[i..]);
    }
  }

  lemma {:induction false} SumOfTail(ss: Sessions, l: seq<Node>, j: nat)
    requires j <= |l|
    ensures SumBytes(ss, l[j..]) <= SumBytes(ss, l)
  {
    SumAppend(ss, l[..j], l[j..]);
    assert l[..j] + l[j..] == l;
  }

  /** Eviction kills a prefix of the COLD list, oldest first, and keeps the rest in order. */
  lemma {:induction false} EvictColdDropsPrefix(s: State, excludeId: int) returns (k: nat)
    requires Inv(s) && ExcludesAtMostLast(s.cold, excludeId)
    ensures k <= |s.cold| && EvictCold(s, excludeId).cold == s.cold[k..]
    ensures var r := EvictCold(s, excludeId);
      SumBytes(r.sessions, r.cold) == SumBytes(s.sessions, s.cold[k..])
    decreases |s.cold|
  {
    hide Inv, KillSession, SumBytes;
    if s.coldUsed <= s.coldLimit || s.cold == [] || (s.cold[0].id == excludeId && |s.cold| == 1) {
      k := 0;
      assert s.cold[0..] == s.cold;
    } else {
      KillOldest(s);
      var t := KillSession(s, s.cold[0].id);
      var k1 := EvictColdDropsPrefix(t, excludeId);
      k := k1 + 1;
      assert t.cold[k1..] == s.cold[k..];
      assert EvictCold(s, excludeId) == EvictCold(t, excludeId);
    }
  }

  lemma KillSecond(s: State)
    requires Inv(s) && |s.cold| > 1
    ensures var r := KillSession(s, s.cold[1].id);
      && Inv(r) && OnlyColdLost(s, r)
      && r.cold == [s.cold[0]] + s.cold[2..] && r.sessions == s.sessions - {s.cold[1].id}
      && (forall n :: n in r.cold ==> BytesOf(r.sessions, n.id) == BytesOf(s.sessions, n.id))
  {
    var id := s.cold[1].id;
    assert s.cold[1] in s.cold;
    KillColdVictim(s, id);
    KillColdLosesOnlyCold(s, id);
    KillSecondList(s);
    var r := KillSession(s, id);
    forall n | n in r.cold
      ensures n.id in r.sessions
    {
    }
    hide Inv, KillSession, OnlyColdLost;
  }

  lemma KillSecondList(s: State)
    requires Inv(s) && |s.cold| > 1
    ensures var r := KillSession(s, s.cold[1].id);
      r.cold == [s.cold[0]] + s.cold[2..] && r.sessions == s.sessions - {s.cold[1].id}
  {
    hide Metas, Contexts, Swaps, SumBytes, PathFor;
    assert s.cold[1] in s.cold;
    SwappedFacts(s, s.cold[1].id);
    assert s.cold[0].it != s.cold[1].it && s.sessions[s.cold[1].id].lruIt == s.cold[1].it;
    hide Inv, ListOk;
    SecondErased(s.cold);
  }

  lemma SecondErased(l: seq<Node>)
    requires |l| > 1 && l[0].it != l[1].it
    ensures Has(l, l[1].it) && Erase(l, l[1].it) == [l[0]] + l[2..]
  {
    assert IndexOf(l, l[1].it) == 1;
  }

  /** What has to fit the budget for the session at `j` to stay: itself, all younger ones, and the excluded one. */
  ghost function Beside(s: State, excludeId: int, j: nat): nat
    requires j < |s.cold|
  {
    SumBytes(s.sessions, s.cold[j..]) + if excludeId in Ids(s.cold[..j]) then BytesOf(s.sessions, excludeId) else 0
  }

  lemma BesideFits(s: State, excludeId: int, j: nat)
    requires Inv(s) && j < |s.cold|
    ensures Beside(s, excludeId, j) <= s.coldUsed
  {
    var before := s.cold[..j];
    assert before + s.cold[j..] == s.cold;
    SumAppend(s.sessions, before, s.cold[j..]);
    if excludeId in Ids(before) {
      var i :| 0 <= i < |before| && before[i].id == excludeId;
      SumOfOne(s.sessions, before, i);
    }
  }

  lemma {:induction false} SumOfOne(ss: Sessions, l: seq<Node>, i: nat)
    requires i < |l|
    ensures BytesOf(ss, l[i].id) <= SumBytes(ss, l)
  {
    if i == 0 {
    } else {
      SumOfOne(ss, l[1..], i - 1);
    }
  }

  lemma BesideAfterOldest(s: State, excludeId: int, j: nat)
    requires Inv(s) && 0 < j < |s.cold| && s.cold[0].id != excludeId
    ensures var r := KillSession(s, s.cold[0].id);
      && r.cold == s.cold[1..] && Inv(r) && r.coldLimit == s.coldLimit
      && Beside(r, excludeId, j - 1) == Beside(s, excludeId, j)
  {
    KillOldest(s);
    hide Inv, KillSession, SumBytes, Ids, OnlyColdLost;
    IdsAfterFirst(s.cold, j, excludeId);
  }

  lemma IdsAfterFirst(l: seq<Node>, j: nat, id: int)
    requires 0 < j <= |l| && l[0].id != id
    ensures id in Ids(l[..j]) <==> id in Ids(l[1..][..j - 1])
  {
    assert Ids(l[..j]) == [l[0].id] + Ids(l[1..][..j - 1]);
  }

  lemma BesideAfterSecond(s: State, excludeId: int, j: nat)
    requires Inv(s) && j < |s.cold| && |s.cold| > 1 && j != 1 && s.cold[0].id == excludeId
    ensures var r := KillSession(s, s.cold[1].id); var j1 := if j == 0 then 0 else j - 1;
      && Inv(r) && r.coldLimit == s.coldLimit && j1 < |r.cold| == |s.cold| - 1 && r.cold[j1].id == s.cold[j].id
      && (j > 1 ==> Beside(r, excludeId, j1) == Beside(s, excludeId, j))
  {
    hide Inv, KillSession, BytesOf;
    KillSecond(s);
    if j > 1 {
      BesideSecondGone(s, KillSession(s, s.cold[1].id), j);
    }
  }

  lemma BesideSecondGone(s: State, r: State, j: nat)
    requires 1 < j < |s.cold| && r.cold == [s.cold[0]] + s.cold[2..]
    requires forall n :: n in r.cold ==> BytesOf(r.sessions, n.id) == BytesOf(s.sessions, n.id)
    ensures Beside(r, s.cold[0].id, j - 1) == Beside(s, s.cold[0].id, j)
  {
    hide BytesOf, SumBytes;
    var tail := s.cold[j..];
    assert r.cold[j - 1..] == tail;
    forall n | n in tail
      ensures BytesOf(r.sessions, n.id) == BytesOf(s.sessions, n.id)
    {
      assert n in r.cold;
    }
    SumSame(r.sessions, s.sessions, tail);
    assert r.cold[0] in r.cold;
    assert Ids(s.cold[..j])[0] == s.cold[0].id && Ids(r.cold[..j - 1])[0] == s.cold[0].id;
  }

  /**
   A swapped session survives the eviction loop if and only if it is the excluded one, or it fits into the
   budget together with everything younger and the excluded one.
   */
  lemma {:induction false} SparedByColdEviction(s: State, excludeId: int, j: nat)
    requires Inv(s) && j < |s.cold|
    ensures s.cold[j].id in EvictCold(s, excludeId).sessions <==>
            Beside(s, excludeId, j) <= s.coldLimit || s.cold[j].id == excludeId
    decreases |s.cold|
  {
    hide Inv, SumBytes, ListOk, KillSession, Beside;
    ColdFacts(s, j);
    BesideFits(s, excludeId, j);
    if s.coldUsed <= s.coldLimit {
    } else if s.cold[0].id != excludeId {
      KillOldest(s);
      var t := KillSession(s, s.cold[0].id);
      assert EvictCold(s, excludeId) == EvictCold(t, excludeId);
      if j == 0 {
        EvictColdLosesOnlyCold(t, excludeId);
        BesideOldest(s, excludeId);
      } else {
        BesideAfterOldest(s, excludeId, j);
        SparedByColdEviction(t, excludeId, j - 1);
      }
    } else if |s.cold| > 1 {
      KillSecond(s);
      var t := KillSession(s, s.cold[1].id);
      assert EvictCold(s, excludeId) == EvictCold(t, excludeId);
      if j == 1 {
        EvictColdLosesOnlyCold(t, excludeId);
        BesideSecond(s);
      } else {
        BesideAfterSecond(s, excludeId, j);
        SparedByColdEviction(t, excludeId, if j == 0 then 0 else j - 1);
      }
    }
  }

  lemma BesideOldest(s: State, excludeId: int)
    requires Inv(s) && s.cold != []
    ensures Beside(s, excludeId, 0) == s.coldUsed
  {
    assert s.cold[0..] == s.cold;
  }

  lemma BesideSecond(s: State)
    requires Inv(s) && |s.cold| > 1
    ensures Beside(s, s.cold[0].id, 1) == s.coldUsed && s.cold[1].id != s.cold[0].id
  {
    assert s.cold[0] in s.cold && s.cold[1] in s.cold;
    assert Ids(s.cold[..1])[0] == s.cold[0].id;
  }

  /**
   A swapped session survives the eviction loop if and only if it and everything younger fit
   into the budget together, or it is the excluded one.
   */
  lemma SurvivesColdEviction(s: State, excludeId: int, j: nat)
    requires Inv(s) && ExcludesAtMostLast(s.cold, excludeId) && j < |s.cold|
    ensures s.cold[j].id in EvictCold(s, excludeId).sessions <==>
            SumBytes(s.sessions, s.cold[j..]) <= s.coldLimit || s.cold[j].id == excludeId
  {
    hide Inv, SumBytes, EvictCold;
    SparedByColdEviction(s, excludeId, j);
  }

  /**
   A new COLD budget is the one asked for. A swapped session survives it if and only if it fits together with
   everything younger; a swapped session -1, which reads as the excluded one, survives and takes its bytes from
   the others. Whoever is not swapped stays as it is, and so does every survivor.
   */
  lemma NewBudget(s: State, bytes: nat)
    requires Inv(s)
    ensures var r := SetColdLimit(s, bytes);
      && r.coldLimit == bytes && r.hotLimit == s.hotLimit && r.hot == s.hot && r.w.ctxs == s.w.ctxs
      && (forall id :: id in r.sessions ==> id in s.sessions && r.sessions[id] == s.sessions[id])
      && (forall id :: id in s.sessions && !IsSwapped(s, id) ==> id in r.sessions)
      && (forall j :: 0 <= j < |s.cold| ==>
            (s.cold[j].id in r.sessions <==>
               s.cold[j].id == -1 ||
               SumBytes(s.sessions, s.cold[j..]) + (if -1 in Ids(s.cold[..j]) then BytesOf(s.sessions, -1) else 0) <= bytes))
      && (!IsSwapped(s, -1) ==> forall j :: 0 <= j < |s.cold| ==>
            (s.cold[j].id in r.sessions <==> SumBytes(s.sessions, s.cold[j..]) <= bytes))
  {
    var t := Budgeted(s, bytes);
    EvictColdLosesOnlyCold(t, -1);
    hide Inv, SumBytes, EvictCold;
    forall j | 0 <= j < |s.cold|
      ensures s.cold[j].id in EvictCold(t, -1).sessions <==> s.cold[j].id == -1 || Beside(s, -1, j) <= bytes
      ensures !IsSwapped(s, -1) ==> s.cold[j].id != -1 && -1 !in Ids(s.cold[..j])
    {
      SparedByColdEviction(t, -1, j);
      if !IsSwapped(s, -1) {
        ColdIdsAreSwapped(s, -1, j);
      }
    }
  }

  lemma ColdIdsAreSwapped(s: State, id: int, j: nat)
    requires Inv(s) && j < |s.cold| && !IsSwapped(s, id)
    ensures s.cold[j].id != id && id !in Ids(s.cold[..j])
  {
    forall i | 0 <= i < |s.cold|
      ensures s.cold[i].id != id
    {
      assert s.cold[i] in s.cold;
    }
  }

  lemma ColdFacts(s: State, j: nat)
    requires Inv(s) && j < |s.cold|
    ensures IsSwapped(s, s.cold[j].id)
    ensures s.coldUsed == SumBytes(s.sessions, s.cold) == SumBytes(s.sessions, s.cold[0..])
    ensures SumBytes(s.sessions, s.cold[j..]) <= s.coldUsed
  {
    assert s.cold[0..] == s.cold;
    assert s.cold[j] in s.cold;
    SumOfTail(s.sessions, s.cold, j);
  }

  // ---- swapOut: killing others is the last resort ----

  lemma {:induction false} SaveLoopExit(env: Env, w: World, ctx: CtxId, path: string, tokens: seq<Token>,
                                       used: int, limit: nat)
    requires ctx in w.ctxs
    ensures var r := SaveLoop(env, w, ctx, path, tokens, used, limit);
      && (r.bytes.Some? ==> r.bytes.value + used <= limit || |r.tokens| <= MIN_KEEP_TOKENS)
      && (if r.rounds == [] then r.tokens == tokens else |r.tokens| >= MIN_KEEP_TOKENS)
      && |r.tokens| + |r.rounds| <= |tokens|
    decreases |tokens|
  {
    hide SaveLoop, PruneCells;
    var goesOn, p := SaveLoopRound(env, w, ctx, path, tokens, used, limit);
    if !goesOn {
    } else {
      SaveLoopExit(env, p.w, ctx, path, p.tokens, used, limit);
    }
  }

  /** What the victim was charged still fits beside what was there before. */
  ghost predicate Fits(env: Env, s: State, id: int)
    requires Inv(s) && IsHot(s, id)
  {
    var v := SaveOf(env, s, id);
    v.bytes.Some? && v.bytes.value + s.coldUsed <= s.coldLimit
  }

  lemma DemoteSums(s: State, id: int, bytes: nat)
    requires Inv(s) && IsHot(s, id)
    ensures var t := Demote(s, id, bytes);
      && |t.cold| == |s.cold| + 1 && t.cold[..|s.cold|] == s.cold && t.cold[|s.cold|].id == id
      && ExcludesAtMostLast(t.cold, id)
      && (forall j :: 0 <= j <= |s.cold| ==> SumBytes(t.sessions, t.cold[j..]) == SumBytes(s.sessions, s.cold[j..]) + bytes)
  {
    var t := Demote(s, id, bytes);
    ListKeep(s.sessions, s.sessions - {id}, s.cold, InColdList, id);
    forall j | 0 <= j <= |s.cold|
      ensures SumBytes(t.sessions, t.cold[j..]) == SumBytes(s.sessions, s.cold[j..]) + bytes
    {
      assert t.cold[j..] == s.cold[j..] + [t.cold[|s.cold|]];
      SumPush(t.sessions, s.cold[j..], t.cold[|s.cold|]);
      SumFrame(s.sessions, t.sessions, s.cold[j..], id);
    }
  }

  /** The state in which a successful swap-out enters the COLD eviction loop. */
  ghost function Demoted(env: Env, s: State, id: int): (t: State)
    requires Inv(s) && IsHot(s, id) && SaveOf(env, s, id).bytes.Some?
    ensures Inv(t) && SwapOut(env, s, id) == SwapOutcome(EvictCold(t, id), true)
  {
    var b := SaveOf(env, s, id).bytes.value;
    DemoteKeepsInv(AfterSave(env, s, id), id, b);
    Demote(AfterSave(env, s, id), id, b)
  }

  lemma DemotedSums(env: Env, s: State, id: int)
    requires Inv(s) && IsHot(s, id) && SaveOf(env, s, id).bytes.Some?
    ensures var b := SaveOf(env, s, id).bytes.value; var t := Demoted(env, s, id);
      && |t.cold| == |s.cold| + 1 && t.cold[..|s.cold|] == s.cold && t.cold[|s.cold|].id == id
      && t.coldLimit == s.coldLimit
      && t.sessions.Keys == s.sessions.Keys
      && ExcludesAtMostLast(t.cold, id)
      && (forall j :: 0 <= j <= |s.cold| ==> SumBytes(t.sessions, t.cold[j..]) == SumBytes(s.sessions, s.cold[j..]) + b)
  {
    hide Inv, SaveOf, AfterSave, Demoted, Demote, SumBytes, ExcludesAtMostLast;
    var b := SaveOf(env, s, id).bytes.value;
    var s1 := AfterSave(env, s, id);
    AfterSaveBytes(env, s, id);
    DemoteSums(s1, id, b);
    DemotedIsDemote(env, s, id);
    forall j | 0 <= j <= |s.cold|
      ensures SumBytes(s1.sessions, s1.cold[j..]) == SumBytes(s.sessions, s.cold[j..])
    {
      SumSame(s1.sessions, s.sessions, s.cold[j..]);
    }
  }

  lemma DemotedIsDemote(env: Env, s: State, id: int)
    requires Inv(s) && IsHot(s, id) && SaveOf(env, s, id).bytes.Some?
    ensures var t := Demote(AfterSave(env, s, id), id, SaveOf(env, s, id).bytes.value);
      Demoted(env, s, id) == t && t.sessions.Keys == AfterSave(env, s, id).sessions.Keys
      && t.coldLimit == AfterSave(env, s, id).coldLimit
  {
    hide Inv, SaveOf, AfterSave, PathFor, Erase;
  }

  /** The save loop leaves the COLD tier and all byte counts alone. */
  lemma AfterSaveBytes(env: Env, s: State, id: int)
    requires Inv(s) && IsHot(s, id)
    ensures var r := AfterSave(env, s, id);
      && r.cold == s.cold && r.coldLimit == s.coldLimit && r.coldUsed == s.coldUsed
      && r.sessions.Keys == s.sessions.Keys
      && (forall k :: BytesOf(r.sessions, k) == BytesOf(s.sessions, k))
  {
    hide Inv, SaveOf;
  }

  /**
   A successful swap-out never kills the session it swapped out; it kills nobody at all if and
   only if that session fits the budget or no other session was swapped; and when it does not
   fit, the session had been pruned down to at most 64 tokens first.
   */
  lemma KillingIsLastResort(env: Env, s: State, id: int)
    requires Inv(s) && IsHot(s, id) && SwapOut(env, s, id).ok
    ensures var r := SwapOut(env, s, id).s;
      && id in r.sessions
      && r.sessions.Keys <= s.sessions.Keys
      && (r.sessions.Keys == s.sessions.Keys <==> Fits(env, s, id) || s.cold == [])
      && (!Fits(env, s, id) ==> |SaveOf(env, s, id).tokens| <= MIN_KEEP_TOKENS)
  {
    SaveExit(env, s, id);
    SwapOutShrinksHot(env, s, id);
    DemotedSums(env, s, id);
    var t := Demoted(env, s, id);
    assert t.coldUsed == s.coldUsed + SaveOf(env, s, id).bytes.value by {
      assert s.cold[0..] == s.cold && t.cold[0..] == t.cold;
    }
    ExcludedSurvives(t, id);
    EvictColdLosesOnlyCold(t, id);
    LossAddsNobody(t, EvictCold(t, id));
    EvictionSparesAll(t, id);
  }

  ghost predicate ExcludesLast(l: seq<Node>, id: int) {
    ExcludesAtMostLast(l, id) && l != [] && l[|l| - 1].id == id
  }

  lemma ExcludedSurvives(t: State, id: int)
    requires Inv(t) && ExcludesLast(t.cold, id)
    ensures id in EvictCold(t, id).sessions
  {
    SurvivesColdEviction(t, id, |t.cold| - 1);
  }

  lemma OldestDies(t: State, id: int)
    requires Inv(t) && ExcludesLast(t.cold, id) && t.coldUsed > t.coldLimit && |t.cold| > 1
    ensures t.cold[0].id in t.sessions && t.cold[0].id !in EvictCold(t, id).sessions
  {
    assert t.cold[0] in t.cold;
    SurvivesColdEviction(t, id, 0);
    assert t.cold[0..] == t.cold;
  }

  lemma LossAddsNobody(t: State, r: State)
    requires OnlyColdLost(t, r)
    ensures r.sessions.Keys <= t.sessions.Keys
  {
    forall id | id in r.sessions
      ensures id in t.sessions
    {
    }
  }

  /** The loop kills nobody if and only if the budget holds or only the excluded session is listed. */
  lemma EvictionSparesAll(t: State, id: int)
    requires Inv(t) && ExcludesLast(t.cold, id)
    ensures EvictCold(t, id).sessions.Keys == t.sessions.Keys <==> t.coldUsed <= t.coldLimit || |t.cold| == 1
  {
    if t.coldUsed > t.coldLimit && |t.cold| > 1 {
      OldestDies(t, id);
    }
  }

  lemma SaveExit(env: Env, s: State, id: int)
    requires Inv(s) && IsHot(s, id)
    ensures var v := SaveOf(env, s, id);
      && (v.bytes.Some? ==> Fits(env, s, id) || |v.tokens| <= MIN_KEEP_TOKENS)
      && (v.rounds != [] ==> |v.tokens| >= MIN_KEEP_TOKENS)
      && |v.tokens| + |v.rounds| <= |s.sessions[id].tokens|
  {
    HotFacts(s, id);
    var m := s.sessions[id];
    SaveLoopExit(env, s.w, m.ctx.value, PathFor(s.swapDir, id), m.tokens, s.coldUsed, s.coldLimit);
  }

  lemma SwapOutFailsOnlyOnSave(env: Env, s: State, id: int)
    requires Inv(s) && IsHot(s, id) && !SwapOut(env, s, id).ok
    ensures !SavesNeverFail(env)
  {
    HotFacts(s, id);
    var m := s.sessions[id];
    SaveLoopFailsOnlyOnSave(env, s.w, m.ctx.value, PathFor(s.swapDir, id), m.tokens, s.coldUsed, s.coldLimit);
  }

  lemma {:induction false} SaveLoopFailsOnlyOnSave(env: Env, w: World, ctx: CtxId, path: string, tokens: seq<Token>,
                                                  used: int, limit: nat)
    requires ctx in w.ctxs
    ensures SaveLoop(env, w, ctx, path, tokens, used, limit).bytes.None? ==> !SavesNeverFail(env)
    decreases |tokens|
  {
    hide SaveLoop, PruneCells;
    var goesOn, p := SaveLoopRound(env, w, ctx, path, tokens, used, limit);
    if !goesOn {
    } else {
      SaveLoopFailsOnlyOnSave(env, p.w, ctx, path, p.tokens, used, limit);
    }
  }

  // ---- the pruning bound ----

  /** Rounds it takes to prune a history of `n` tokens down to the minimum. */
  function Rounds(n: nat): nat
    decreases n
  {
    if n <= MIN_KEEP_TOKENS then 0 else 1 + Rounds(n - RemoveCount(n))
  }

  lemma {:induction false} RoundsMonotone(m: nat, n: nat)
    requires m <= n
    ensures Rounds(m) <= Rounds(n)
    decreases n
  {
    if m <= MIN_KEEP_TOKENS {
    } else {
      assert m - RemoveCount(m) <= n - RemoveCount(n);
      RoundsMonotone(m - RemoveCount(m), n - RemoveCount(n));
    }
  }

  /** Three rounds halve a history. */
  lemma {:induction false} RoundsLogarithmic(n: nat, k: nat)
    requires n <= MIN_KEEP_TOKENS * Power(2, k)
    ensures Rounds(n) <= 3 * k
    decreases k
  {
    if k == 0 || n <= MIN_KEEP_TOKENS {
    } else {
      var half := MIN_KEEP_TOKENS * Power(2, k - 1);
      RoundsLogarithmic(half, k - 1);
      var n1 := n - RemoveCount(n);
      assert Rounds(n) == 1 + Rounds(n1);
      if n1 > MIN_KEEP_TOKENS {
        var n2 := n1 - RemoveCount(n1);
        assert Rounds(n1) == 1 + Rounds(n2);
        if n2 > MIN_KEEP_TOKENS {
          var n3 := n2 - RemoveCount(n2);
          assert n3 <= half;
          assert Rounds(n2) == 1 + Rounds(n3);
          RoundsMonotone(n3, half);
        }
      }
    }
  }

  lemma {:induction false} SaveLoopRounds(env: Env, w: World, ctx: CtxId, path: string, tokens: seq<Token>,
                                         used: int, limit: nat)
    requires ctx in w.ctxs
    ensures |SaveLoop(env, w, ctx, path, tokens, used, limit).rounds| <= Rounds(|tokens|)
    decreases |tokens|
  {
    hide SaveLoop, PruneCells;
    var goesOn, p := SaveLoopRound(env, w, ctx, path, tokens, used, limit);
    if !goesOn {
    } else {
      SaveLoopRounds(env, p.w, ctx, path, p.tokens, used, limit);
    }
  }

  /**
   A victim of at most 64 * 2^k tokens is pruned at most 3k times, every prune drops at least
   one token, and a pruned history keeps at least 64.
   */
  lemma PruningIsLogarithmic(env: Env, s: State, id: int, k: nat)
    requires Inv(s) && IsHot(s, id) && |s.sessions[id].tokens| <= MIN_KEEP_TOKENS * Power(2, k)
    ensures var v := SaveOf(env, s, id);
      && |v.rounds| <= 3 * k
      && |v.tokens| + |v.rounds| <= |s.sessions[id].tokens|
      && (v.rounds != [] ==> |v.tokens| >= MIN_KEEP_TOKENS)
  {
    var m := s.sessions[id];
    HotFacts(s, id);
    SaveLoopRounds(env, s.w, m.ctx.value, PathFor(s.swapDir, id), m.tokens, s.coldUsed, s.coldLimit);
    SaveExit(env, s, id);
    RoundsLogarithmic(|m.tokens|, k);
  }

  /** Of `n` tokens at least (3/4)^rounds are kept. */
  ghost predicate KeepsThreeQuarters(n: nat, kept: nat, rounds: nat) {
    Power(4, rounds) * kept >= Power(3, rounds) * n
  }

  lemma OneMoreRound(n: nat, kept: nat, last: nat, rounds: nat)
    requires 4 * kept >= 3 * n && KeepsThreeQuarters(kept, last, rounds)
    ensures KeepsThreeQuarters(n, last, rounds + 1)
  {
    var p4, p3 := Power(4, rounds), Power(3, rounds);
    assert p3 * (4 * kept) >= p3 * (3 * n);
    assert 4 * p4 * last == 4 * (p4 * last) && 4 * (p3 * kept) == p3 * (4 * kept);
  }

  lemma {:induction false} SaveLoopKeeps(env: Env, w: World, ctx: CtxId, path: string, tokens: seq<Token>,
                                        used: int, limit: nat)
    requires ctx in w.ctxs
    ensures var r := SaveLoop(env, w, ctx, path, tokens, used, limit);
      && KeepsThreeQuarters(|tokens|, |r.tokens|, |r.rounds|)
      && (r.rounds == [] <==>
            !env.saveOk(w.tick) || env.stateSize(w.tick + 1) + used <= limit || |tokens| <= MIN_KEEP_TOKENS)
    decreases |tokens|
  {
    hide SaveLoop, PruneCells;
    var goesOn, p := SaveLoopRound(env, w, ctx, path, tokens, used, limit);
    if !goesOn {
    } else {
      SaveLoopKeeps(env, p.w, ctx, path, p.tokens, used, limit);
      var r := SaveLoop(env, p.w, ctx, path, p.tokens, used, limit);
      hide KeepsThreeQuarters;
      OneMoreRound(|tokens|, |p.tokens|, |r.tokens|, |r.rounds|);
    }
  }

  /**
   The rounds of a save loop that starts at tick `t` and in the end keeps `kept` tokens, by what the world
   answers. A round takes three ticks: the file is written, the state measured, the cache pruned. It finds
   what is kept in the end and what is still to be dropped; it happens because the save succeeded, the state
   did not fit and more than the minimum was left. It drops a quarter, rounded down, or what is above the
   minimum if that is less.
   */
  ghost predicate RoundsAre(env: Env, t: nat, used: int, limit: nat, rounds: seq<Round>, kept: nat) {
    forall i :: 0 <= i < |rounds| ==> RoundAt(env, t, used, limit, rounds, kept, i)
  }

  ghost predicate RoundAt(env: Env, t: nat, used: int, limit: nat, rounds: seq<Round>, kept: nat, i: nat)
    requires i < |rounds|
  {
    RoundIs(env, t + 3 * i, used, limit, rounds[i], kept + Total(rounds[i..]))
  }

  ghost predicate RoundIs(env: Env, t: nat, used: int, limit: nat, r: Round, found: nat) {
    && env.saveOk(t) && env.stateSize(t + 1) + used > limit && found > 64
    && r.n == (if found / 4 < found - 64 then found / 4 else found - 64)
    && (r.refused ==> !env.seqRmOk(t + 2))
  }

  lemma RoundsCons(env: Env, t: nat, used: int, limit: nat, r: Round, rounds: seq<Round>, kept: nat)
    requires RoundIs(env, t, used, limit, r, kept + r.n + Total(rounds))
    requires RoundsAre(env, t + 3, used, limit, rounds, kept)
    ensures RoundsAre(env, t, used, limit, [r] + rounds, kept) && Total([r] + rounds) == r.n + Total(rounds)
  {
    var all := [r] + rounds;
    assert all[1..] == rounds;
    hide RoundAt;
    assert RoundAt(env, t, used, limit, all, kept, 0) by {
      hide *;
      assert all[0..] == all;
      FirstRoundAt(env, t, used, limit, all, kept);
    }
    forall i | 0 < i < |all|
      ensures RoundAt(env, t, used, limit, all, kept, i)
    {
      LaterRoundAt(env, t, used, limit, r, rounds, kept, i);
    }
  }

  lemma FirstRoundAt(env: Env, t: nat, used: int, limit: nat, all: seq<Round>, kept: nat)
    requires all != [] && RoundIs(env, t, used, limit, all[0], kept + Total(all))
    ensures RoundAt(env, t, used, limit, all, kept, 0)
  {
    hide RoundIs, Total;
    assert all[0..] == all;
  }

  lemma LaterRoundAt(env: Env, t: nat, used: int, limit: nat, r: Round, rounds: seq<Round>, kept: nat, i: nat)
    requires 0 < i <= |rounds| && RoundAt(env, t + 3, used, limit, rounds, kept, i - 1)
    ensures RoundAt(env, t, used, limit, [r] + rounds, kept, i)
  {
    hide RoundIs, Total;
    var all := [r] + rounds;
    assert all[i] == rounds[i - 1] && all[i..] == rounds[i - 1..];
    assert t + 3 + 3 * (i - 1) == t + 3 * i;
  }

  /** How the loop ends, at the tick `t` of its last save. */
  ghost predicate SaveEnds(env: Env, t: nat, path: string, used: int, limit: nat, v: Saved) {
    if env.saveOk(t) then
      && v.bytes == Some(env.stateSize(t + 1)) && v.w.tick == t + 2
      && (env.stateSize(t + 1) + used <= limit || |v.tokens| <= 64)
    else
      && v.bytes == None && v.w.tick == t + 1
      && (env.failedSaveWrites(t) ==> path in v.w.files && v.w.files[path] == Torn)
  }

  lemma {:induction false} SaveLoopIs(env: Env, w: World, ctx: CtxId, path: string, tokens: seq<Token>, used: int, limit: nat)
    requires ctx in w.ctxs
    ensures var r := SaveLoop(env, w, ctx, path, tokens, used, limit);
      && |r.tokens| + Total(r.rounds) == |tokens| && RoundsAre(env, w.tick, used, limit, r.rounds, |r.tokens|)
      && SaveEnds(env, w.tick + 3 * |r.rounds|, path, used, limit, r)
    decreases |tokens|
  {
    hide SaveLoop, PruneCells, RoundsAre, RoundIs, SaveEnds;
    var goesOn, p := SaveLoopRound(env, w, ctx, path, tokens, used, limit);
    var r := SaveLoop(env, w, ctx, path, tokens, used, limit);
    if !goesOn {
      NoRounds(env, w.tick, used, limit, |tokens|);
      LoopStops(env, w, ctx, path, tokens, used, limit);
    } else {
      SaveLoopIs(env, p.w, ctx, path, p.tokens, used, limit);
      var rest := SaveLoop(env, p.w, ctx, path, p.tokens, used, limit);
      FirstRound(env, w, ctx, path, tokens, used, limit, p);
      RoundsCons(env, w.tick, used, limit, Round(RemoveCount(|tokens|), p.refused), rest.rounds, |r.tokens|);
      assert p.w.tick + 3 * |rest.rounds| == w.tick + 3 * |r.rounds|;
      EndsAlike(env, w.tick + 3 * |r.rounds|, path, used, limit, rest, r);
    }
  }

  lemma EndsAlike(env: Env, t: nat, path: string, used: int, limit: nat, v: Saved, r: Saved)
    requires SaveEnds(env, t, path, used, limit, v)
    requires r.w == v.w && r.tokens == v.tokens && r.bytes == v.bytes
    ensures SaveEnds(env, t, path, used, limit, r)
  {
  }

  lemma LoopStops(env: Env, w: World, ctx: CtxId, path: string, tokens: seq<Token>, used: int, limit: nat)
    requires ctx in w.ctxs
    requires !(env.saveOk(w.tick) && env.stateSize(w.tick + 1) + used > limit && |tokens| > MIN_KEEP_TOKENS)
    ensures SaveEnds(env, w.tick, path, used, limit, SaveLoop(env, w, ctx, path, tokens, used, limit))
  {
    hide Prune, SaveLoop;
    SaveLoopUnfolds(env, w, ctx, path, tokens, used, limit);
    if !env.saveOk(w.tick) {
      TornSave(env, w, ctx, path, tokens);
    }
  }

  lemma TornSave(env: Env, w: World, ctx: CtxId, path: string, tokens: seq<Token>)
    requires ctx in w.ctxs && !env.saveOk(w.tick)
    ensures var w1 := SaveFile(env, w, ctx, path, tokens).0;
      w1.tick == w.tick + 1 && (env.failedSaveWrites(w.tick) ==> path in w1.files && w1.files[path] == Torn)
  {
  }

  lemma FirstRound(env: Env, w: World, ctx: CtxId, path: string, tokens: seq<Token>, used: int, limit: nat, p: Pruned)
    requires ctx in w.ctxs && env.saveOk(w.tick) && env.stateSize(w.tick + 1) + used > limit && |tokens| > MIN_KEEP_TOKENS
    requires p == Prune(env, StateSize(env, SaveFile(env, w, ctx, path, tokens).0).0, ctx, tokens, RemoveCount(|tokens|))
    ensures RoundIs(env, w.tick, used, limit, Round(RemoveCount(|tokens|), p.refused), |tokens|)
  {
    hide SeqRm, ShiftRange;
  }

  lemma NoRounds(env: Env, t: nat, used: int, limit: nat, kept: nat)
    ensures Total([]) == 0 && RoundsAre(env, t, used, limit, [], kept)
  {
  }

  /**
   The save loop of a swap-out, by the world alone. Prune `i` happens at the `i`-th time that the save succeeds,
   the state does not fit the budget and the history has more than 64 tokens; it drops a quarter, rounded down, or
   down to 64 if that is less. The loop ends at the first save that fails, fits or has at most 64 tokens left; the
   size charged is the one measured then. A failed save may have ruined the file.
   */
  lemma PruningIsExact(env: Env, s: State, id: int)
    requires Inv(s) && IsHot(s, id)
    ensures var v := SaveOf(env, s, id); var t := s.w.tick;
      && |v.tokens| + Total(v.rounds) == |s.sessions[id].tokens|
      && (forall i :: 0 <= i < |v.rounds| ==>
            RoundIs(env, t + 3 * i, s.coldUsed, s.coldLimit, v.rounds[i], |v.tokens| + Total(v.rounds[i..])))
      && SaveEnds(env, t + 3 * |v.rounds|, PathFor(s.swapDir, id), s.coldUsed, s.coldLimit, v)
  {
    hide Inv, PathFor, RoundIs, SaveEnds, SaveOf, IsHot, Total;
    SaveOfIs(env, s, id);
    var v := SaveOf(env, s, id);
    forall i | 0 <= i < |v.rounds|
      ensures RoundIs(env, s.w.tick + 3 * i, s.coldUsed, s.coldLimit, v.rounds[i], |v.tokens| + Total(v.rounds[i..]))
    {
      assert RoundAt(env, s.w.tick, s.coldUsed, s.coldLimit, v.rounds, |v.tokens|, i);
    }
  }

  lemma SaveOfIs(env: Env, s: State, id: int)
    requires Inv(s) && IsHot(s, id)
    ensures var v := SaveOf(env, s, id); var t := s.w.tick;
      && |v.tokens| + Total(v.rounds) == |s.sessions[id].tokens|
      && RoundsAre(env, t, s.coldUsed, s.coldLimit, v.rounds, |v.tokens|)
      && SaveEnds(env, t + 3 * |v.rounds|, PathFor(s.swapDir, id), s.coldUsed, s.coldLimit, v)
  {
    hide SaveLoop, Inv, PathFor, RoundsAre, SaveEnds, Total;
    HotFacts(s, id);
    var m := s.sessions[id];
    SaveLoopIs(env, s.w, m.ctx.value, PathFor(s.swapDir, id), m.tokens, s.coldUsed, s.coldLimit);
  }

  /**
   Every prune drops at most a quarter of the history it finds, so of all prunes together at least
   (3/4)^rounds is kept; a victim that fits, or has at most 64 tokens, is not pruned.
   */
  lemma PruningIsGentle(env: Env, s: State, id: int)
    requires Inv(s) && IsHot(s, id)
    ensures var v := SaveOf(env, s, id); var n := |s.sessions[id].tokens|; var t := s.w.tick;
      && KeepsThreeQuarters(n, |v.tokens|, |v.rounds|)
      && (v.rounds == [] <==> !env.saveOk(t) || env.stateSize(t + 1) + s.coldUsed <= s.coldLimit || n <= MIN_KEEP_TOKENS)
  {
    hide SaveLoop, Inv, KeepsThreeQuarters, PathFor;
    HotFacts(s, id);
    var m := s.sessions[id];
    SaveLoopKeeps(env, s.w, m.ctx.value, PathFor(s.swapDir, id), m.tokens, s.coldUsed, s.coldLimit);
  }

  // ---- when an activation loses its own session ----

  /** One swap-out moves a swapped session's tail: everything younger, plus the victim. */
  lemma SwapOutTail(env: Env, s: State, victim: int, j: nat) returns (j1: nat)
    requires Inv(s) && IsHot(s, victim) && SwapOut(env, s, victim).ok && j < |s.cold|
    ensures SaveOf(env, s, victim).bytes.Some?
    ensures var r := SwapOut(env, s, victim).s;
            var tail := SumBytes(s.sessions, s.cold[j..]) + SaveOf(env, s, victim).bytes.value;
      && (s.cold[j].id in r.sessions <==> tail <= s.coldLimit)
      && (s.cold[j].id in r.sessions ==>
            j1 < |r.cold| && r.cold[j1].id == s.cold[j].id && SumBytes(r.sessions, r.cold[j1..]) == tail)
  {
    SwapOutShrinksHot(env, s, victim);
    DemotedSums(env, s, victim);
    var t := Demoted(env, s, victim);
    assert t.cold[j] == t.cold[..|s.cold|][j];
    assert s.cold[j] in s.cold;
    j1 := TailAfterEviction(t, victim, j);
  }

  lemma TailAfterEviction(t: State, excludeId: int, j: nat) returns (j1: nat)
    requires Inv(t) && ExcludesAtMostLast(t.cold, excludeId) && j < |t.cold| - 1
    ensures var r := EvictCold(t, excludeId); var tail := SumBytes(t.sessions, t.cold[j..]);
      && (t.cold[j].id in r.sessions <==> tail <= t.coldLimit)
      && (t.cold[j].id in r.sessions ==>
            j1 < |r.cold| && r.cold[j1].id == t.cold[j].id && SumBytes(r.sessions, r.cold[j1..]) == tail)
  {
    hide EvictCold, KillSession, SumBytes;
    var id := t.cold[j].id;
    assert t.cold[j] in t.cold;
    SurvivesColdEviction(t, excludeId, j);
    var r := EvictCold(t, excludeId);
    var k := EvictColdDropsPrefix(t, excludeId);
    EvictColdLosesOnlyCold(t, excludeId);
    j1 := 0;
    if id in r.sessions {
      j1 := SwappedIndex(r, id);
      assert t.cold[k + j1] == t.cold[j];
      assert k + j1 == j;
      assert r.cold[j1..] == t.cold[j..];
      SumSurvivors(t, r, r.cold[j1..]);
    }
  }

  /** Where a swapped session stands in the COLD list. */
  lemma SwappedIndex(s: State, id: int) returns (j: nat)
    requires Inv(s) && IsSwapped(s, id)
    ensures j < |s.cold| && s.cold[j] == Node(s.sessions[id].lruIt, id)
    ensures forall i :: 0 <= i < |s.cold| && s.cold[i].id == id ==> i == j
  {
    assert Node(s.sessions[id].lruIt, id) in s.cold;
    j :| 0 <= j < |s.cold| && s.cold[j] == Node(s.sessions[id].lruIt, id);
    forall i | 0 <= i < |s.cold| && s.cold[i].id == id
      ensures i == j
    {
      assert s.cold[i] in s.cold;
    }
  }

  lemma SumSurvivors(t: State, r: State, l: seq<Node>)
    requires OnlyColdLost(t, r) && Inv(r) && forall n :: n in l ==> n in r.cold
    ensures SumBytes(r.sessions, l) == SumBytes(t.sessions, l)
  {
  }

  /**
   Room made in the HOT tier for a swapped session spares that session if and only if no swap-out
   happened, or everything swapped out meanwhile fits the COLD budget beside the session itself
   and all sessions younger than it.
   */
  lemma {:induction false} SurvivesHotEviction(env: Env, s: State, excludeId: int, j: nat)
    requires Inv(s) && j < |s.cold|
    ensures var e := EvictHot(env, s, excludeId);
            s.cold[j].id in e.s.sessions <==>
            e.swaps == 0 || SumBytes(s.sessions, s.cold[j..]) + e.charged <= s.coldLimit
    ensures EvictHot(env, s, excludeId).swaps == 0 ==> EvictHot(env, s, excludeId).charged == 0
    decreases |s.hot|
  {
    ColdFacts(s, j);
    hide Inv, SwapOut, SaveOf, SumBytes, HotVictim, IsSwapped, IsHot, EvictHot;
    var id := s.cold[j].id;
    var victim := EvictHotRound(env, s, excludeId);
    SwappedIsKnown(s, id);
    if victim == -1 {
    } else {
      SwapOutFrame(env, s, victim);
      var o := SwapOut(env, s, victim);
      if o.ok {
        var j1 := SwapOutTail(env, s, victim, j);
        if id in o.s.sessions {
          SurvivesHotEviction(env, o.s, excludeId, j1);
        } else {
          EvictHotAddsNobody(env, o.s, excludeId);
        }
      }
    }
  }

  lemma SwappedIsKnown(s: State, id: int)
    requires IsSwapped(s, id)
    ensures id in s.sessions && !IsHot(s, id)
  {
  }

  lemma DanglesShape(env: Env, s: State, id: int)
    requires Inv(s)
    ensures var e := EvictHot(env, s, id);
            Activate(env, s, id).Dangling? <==>
            IsSwapped(s, id) && id !in e.s.sessions && env.initOk(e.s.w.tick)
  {
    hide Inv, EvictHot;
    if id in s.sessions && !IsHot(s, id) {
      EvictHotLeavesCold(env, s, id, id);
    }
  }

  /** Exactly when `activateForInfer` goes on with an entry that its own eviction killed. */
  lemma DanglesExactlyWhen(env: Env, s: State, id: int)
    requires Inv(s)
    ensures Activate(env, s, id).Dangling? <==>
            exists j :: 0 <= j < |s.cold| && s.cold[j].id == id &&
              var e := EvictHot(env, s, id);
              e.swaps > 0 && env.initOk(e.s.w.tick) && SumBytes(s.sessions, s.cold[j..]) + e.charged > s.coldLimit
  {
    DanglesShape(env, s, id);
    hide Activate, EvictHot, SumBytes;
    if IsSwapped(s, id) {
      var j := SwappedIndex(s, id);
      hide Inv;
      SurvivesHotEviction(env, s, id, j);
    } else {
      forall i | 0 <= i < |s.cold|
        ensures s.cold[i].id != id
      {
        assert s.cold[i] in s.cold;
      }
    }
  }

  /**
   A session never dangles if it was never swapped out, if no room has to be made for it, or if
   everything swapped out on its behalf fits the COLD budget.
   */
  lemma NeverDangles(env: Env, s: State, id: int)
    requires Inv(s)
    requires !IsSwapped(s, id) || |s.hot| < s.hotLimit || s.coldUsed + EvictHot(env, s, id).charged <= s.coldLimit
    ensures !Activate(env, s, id).Dangling?
  {
    DanglesExactlyWhen(env, s, id);
    forall i | 0 <= i < |s.cold| && s.cold[i].id == id
      ensures IsSwapped(s, id) && SumBytes(s.sessions, s.cold[i..]) <= s.coldUsed
    {
      ColdFacts(s, i);
    }
  }

  // ---- when a session can be lost at all ----

  /** Nothing fails while saving or making contexts, and every saved state has `size` bytes. */
  ghost predicate Steady(env: Env, size: nat) {
    && SavesNeverFail(env)
    && (forall t :: env.initOk(t))
    && (forall t :: env.stateSize(t) == size)
  }

  lemma {:induction false} SteadySaveLoop(env: Env, w: World, ctx: CtxId, path: string, tokens: seq<Token>,
                                         used: int, limit: nat, size: nat)
    requires ctx in w.ctxs && Steady(env, size)
    ensures SaveLoop(env, w, ctx, path, tokens, used, limit).bytes == Some(size)
    decreases |tokens|
  {
    hide SaveLoop, PruneCells;
    var goesOn, p := SaveLoopRound(env, w, ctx, path, tokens, used, limit);
    if !goesOn {
    } else {
      SteadySaveLoop(env, p.w, ctx, path, p.tokens, used, limit, size);
    }
  }

  lemma SteadySave(env: Env, s: State, id: int, size: nat)
    requires Inv(s) && IsHot(s, id) && Steady(env, size)
    ensures SaveOf(env, s, id).bytes == Some(size) && SwapOut(env, s, id).ok
  {
    HotFacts(s, id);
    var m := s.sessions[id];
    SteadySaveLoop(env, s.w, m.ctx.value, PathFor(s.swapDir, id), m.tokens, s.coldUsed, s.coldLimit, size);
    hide SaveLoop, Steady, Inv;
  }

  /** A world in which every call succeeds and every saved state has `size` bytes. */
  function AllWell(size: nat): Env {
    Env(_ => true, _ => true, _ => false, _ => size, _ => true, _ => true, _ => true, _ => 0, _ => 0, _ => 0,
        _ => false, _ => false)
  }

  lemma DanglesWhenAllIsWell(s: State, id: int)
    requires Inv(s) && IsSwapped(s, id) && |s.hot| >= s.hotLimit && HotVictim(s.hot, id) != -1
    ensures Activate(AllWell(s.coldLimit + 1), s, id).Dangling?
  {
    var env, size := AllWell(s.coldLimit + 1), s.coldLimit + 1;
    var victim := HotVictim(s.hot, id);
    assert Steady(env, size) && forall t :: env.initOk(t);
    hide AllWell, Inv, SwapOut, SaveOf, SumBytes, HotVictim, Activate, Steady, IsSwapped;
    VictimIsHot(s, id);
    SteadySave(env, s, victim, size);
    SwapOutShrinksHot(env, s, victim);
    assert EvictHot(env, s, id).charged >= size && EvictHot(env, s, id).swaps > 0;
    hide EvictHot;
    var j := SwappedIndex(s, id);
    DanglesExactlyWhen(env, s, id);
  }

  /**
   What a caller can look at beforehand: whatever the foreign code does, an activation cannot lose
   its own session if and only if the session is not swapped out, the HOT tier has room, or there
   is no victim to take out of it.
   */
  lemma SafeToActivate(s: State, id: int)
    requires Inv(s)
    ensures (forall env :: !Activate(env, s, id).Dangling?) <==>
            !IsSwapped(s, id) || |s.hot| < s.hotLimit || HotVictim(s.hot, id) == -1
  {
    hide Activate, Inv;
    if !IsSwapped(s, id) || |s.hot| < s.hotLimit || HotVictim(s.hot, id) == -1 {
      forall env: Env
        ensures !Activate(env, s, id).Dangling?
      {
        DanglesExactlyWhen(env, s, id);
        DanglesShape(env, s, id);
      }
    } else {
      DanglesWhenAllIsWell(s, id);
    }
  }
}
