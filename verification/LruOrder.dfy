/**
 One global LRU order: the COLD list followed by the HOT list is sorted by time of last use, unless
 a new HOT limit skips a session -1 that was used before somebody it takes out.
 Hence the HOT victim is the least recently used HOT session, and whoever is killed for the
 COLD budget was used no later than every listed session that is kept.
 */
module LruOrder {
  import opened Foreign
  import opened LruList
  import opened SessionState
  import opened SessionSpec
  import opened InferSpec
  import opened ColdTier

  function StampOf(ss: Sessions, n: Node): int {
    if n.id in ss then ss[n.id].lastUsedMs else 0
  }

  ghost predicate SortedBy(ss: Sessions, l: seq<Node>) {
    forall i, j :: 0 <= i < j < |l| ==> StampOf(ss, l[i]) <= StampOf(ss, l[j])
  }

  ghost predicate NotAfter(ss: Sessions, l: seq<Node>, now: int) {
    forall i :: 0 <= i < |l| ==> StampOf(ss, l[i]) <= now
  }

  function ByAge(s: State): seq<Node> {
    s.cold + s.hot
  }

  /** Sorted, and nobody was last used later than now. */
  ghost predicate Ordered(env: Env, s: State) {
    SortedBy(s.sessions, ByAge(s)) && NotAfter(s.sessions, ByAge(s), env.clock(s.w.tick))
  }

  /** Erasing one node from the middle of a sorted list. */
  lemma ErasedSorted(ss: Sessions, tt: Sessions, a: seq<Node>, h: seq<Node>, b: seq<Node>, it: nat, now: int)
    requires Has(h, it)
    requires SortedBy(ss, a + h + b) && NotAfter(ss, a + h + b, now)
    requires forall n :: n in a + Erase(h, it) + b ==> StampOf(tt, n) == StampOf(ss, n)
    ensures SortedBy(tt, a + Erase(h, it) + b) && NotAfter(tt, a + Erase(h, it) + b, now)
  {
    var l, m := a + h + b, a + Erase(h, it) + b;
    var skip := |a| + IndexOf(h, it);
    forall i | 0 <= i < |m|
      ensures StampOf(tt, m[i]) == StampOf(ss, l[if i < skip then i else i + 1])
    {
      assert m[i] in m;
    }
  }

  lemma SameStampsSorted(ss: Sessions, l: seq<Node>, tt: Sessions, m: seq<Node>, now: int)
    requires |m| == |l| && forall i :: 0 <= i < |m| ==> StampOf(tt, m[i]) == StampOf(ss, l[i])
    requires SortedBy(ss, l) && NotAfter(ss, l, now)
    ensures SortedBy(tt, m) && NotAfter(tt, m, now)
  {
  }

  lemma PushSorted(ss: Sessions, l: seq<Node>, tt: Sessions, n: Node, now: int)
    requires forall i :: 0 <= i < |l| ==> StampOf(tt, l[i]) == StampOf(ss, l[i])
    requires SortedBy(ss, l) && NotAfter(ss, l, now) && StampOf(tt, n) == now
    ensures SortedBy(tt, l + [n]) && NotAfter(tt, l + [n], now)
  {
  }

  lemma LaterStillOrdered(ss: Sessions, l: seq<Node>, now: int, later: int)
    requires NotAfter(ss, l, now) && now <= later
    ensures NotAfter(ss, l, later)
  {
  }

  // ---- the operations ----

  lemma KillHotShape(s: State, id: int)
    requires Inv(s) && IsHot(s, id)
    ensures Has(s.hot, s.sessions[id].lruIt)
    ensures var r := KillSession(s, id);
      && r.hot == Erase(s.hot, s.sessions[id].lruIt) && r.cold == s.cold && r.w.tick == s.w.tick
      && (forall n :: n in r.cold || n in r.hot ==> StampOf(r.sessions, n) == StampOf(s.sessions, n))
  {
    HotFacts(s, id);
    var r := KillSession(s, id);
    ListRemove(s.sessions, r.sessions, s.hot, InHotList, id);
    ListKeep(s.sessions, r.sessions, s.cold, InColdList, id);
    hide Inv, Erase, IndexOf;
  }

  lemma KillHotOrdered(env: Env, s: State, id: int)
    requires Inv(s) && IsHot(s, id) && Ordered(env, s)
    ensures Ordered(env, KillSession(s, id))
  {
    hide Inv, ListOk, KillSession, Erase, SortedBy, NotAfter, StampOf, IndexOf;
    KillHotShape(s, id);
    var r := KillSession(s, id);
    var it := s.sessions[id].lruIt;
    assert ByAge(s) == s.cold + s.hot + [] && ByAge(r) == s.cold + Erase(s.hot, it) + [];
    ErasedSorted(s.sessions, r.sessions, s.cold, s.hot, [], it, env.clock(s.w.tick));
  }

  lemma KillSwappedShape(s: State, id: int)
    requires Inv(s) && IsSwapped(s, id)
    ensures Has(s.cold, s.sessions[id].lruIt)
    ensures var r := KillSession(s, id);
      && r.cold == Erase(s.cold, s.sessions[id].lruIt) && r.hot == s.hot && r.w.tick == s.w.tick
      && (forall n :: n in r.cold || n in r.hot ==> StampOf(r.sessions, n) == StampOf(s.sessions, n))
  {
    SwappedFacts(s, id);
    var r := KillSession(s, id);
    ListRemove(s.sessions, r.sessions, s.cold, InColdList, id);
    ListKeep(s.sessions, r.sessions, s.hot, InHotList, id);
    hide Inv, Erase, IndexOf;
  }

  lemma KillSwappedOrdered(env: Env, s: State, id: int)
    requires Inv(s) && IsSwapped(s, id) && Ordered(env, s)
    ensures Ordered(env, KillSession(s, id))
  {
    hide Inv, ListOk, KillSession, Erase, SortedBy, NotAfter, StampOf, IndexOf;
    KillSwappedShape(s, id);
    var r := KillSession(s, id);
    var it := s.sessions[id].lruIt;
    assert ByAge(s) == [] + s.cold + s.hot && ByAge(r) == [] + Erase(s.cold, it) + s.hot;
    ErasedSorted(s.sessions, r.sessions, [], s.cold, s.hot, it, env.clock(s.w.tick));
  }

  lemma KillNewOrdered(env: Env, s: State, id: int)
    requires Inv(s) && id in s.sessions && s.sessions[id].Place() == Unlisted && Ordered(env, s)
    ensures Ordered(env, KillSession(s, id))
  {
    var r := KillSession(s, id);
    ListKeep(s.sessions, r.sessions, s.hot, InHotList, id);
    ListKeep(s.sessions, r.sessions, s.cold, InColdList, id);
    hide Inv, ListOk, KillSession;
    var l := ByAge(s);
    forall i | 0 <= i < |l|
      ensures StampOf(r.sessions, l[i]) == StampOf(s.sessions, l[i])
    {
      assert l[i] in (if i < |s.cold| then s.cold else s.hot);
    }
    SameStampsSorted(s.sessions, l, r.sessions, ByAge(r), env.clock(s.w.tick));
  }

  lemma KillOrdered(env: Env, s: State, id: int)
    requires Inv(s) && Ordered(env, s)
    ensures Ordered(env, KillSession(s, id))
  {
    hide Ordered;
    if IsHot(s, id) {
      KillHotOrdered(env, s, id);
    } else if IsSwapped(s, id) {
      KillSwappedOrdered(env, s, id);
    } else if id in s.sessions {
      KillNewOrdered(env, s, id);
    }
  }

  lemma {:induction false} EvictColdOrdered(env: Env, s: State, excludeId: int)
    requires Inv(s) && Ordered(env, s)
    ensures Ordered(env, EvictCold(s, excludeId))
    decreases |s.cold|
  {
    hide Inv, Ordered, KillSession;
    if s.coldUsed <= s.coldLimit || s.cold == [] {
    } else if s.cold[0].id == excludeId && |s.cold| == 1 {
    } else {
      var victim := if s.cold[0].id == excludeId then s.cold[1].id else s.cold[0].id;
      KillColdVictim(s, victim);
      KillOrdered(env, s, victim);
      EvictColdOrdered(env, KillSession(s, victim), excludeId);
      assert EvictCold(s, excludeId) == EvictCold(KillSession(s, victim), excludeId);
    }
  }

  /** Appending a session that was just used to the end of the HOT list. */
  lemma PushedOrdered(env: Env, s: State, r: State, id: int, it: nat)
    requires MonotoneClock(env) && Ordered(env, s)
    requires OthersSame(s.sessions, r.sessions, id) && id in r.sessions
    requires forall n :: n in ByAge(s) ==> n.id != id
    requires r.cold == s.cold && r.hot == s.hot + [Node(it, id)]
    requires exists t :: s.w.tick <= t <= r.w.tick && r.sessions[id].lastUsedMs == env.clock(t)
    ensures Ordered(env, r)
  {
    var t :| s.w.tick <= t <= r.w.tick && r.sessions[id].lastUsedMs == env.clock(t);
    var l := ByAge(s);
    LaterStillOrdered(s.sessions, l, env.clock(s.w.tick), env.clock(t));
    forall i | 0 <= i < |l|
      ensures StampOf(r.sessions, l[i]) == StampOf(s.sessions, l[i])
    {
      assert l[i] in l;
    }
    PushSorted(s.sessions, l, r.sessions, Node(it, id), env.clock(t));
    assert ByAge(r) == l + [Node(it, id)];
    LaterStillOrdered(r.sessions, ByAge(r), env.clock(t), env.clock(r.w.tick));
  }

  lemma TouchOrdered(env: Env, s: State, id: int)
    requires MonotoneClock(env) && Inv(s) && IsHot(s, id) && Ordered(env, s)
    ensures Ordered(env, TouchHot(env, s, id))
  {
    HotFacts(s, id);
    var gone := KillSession(s, id);
    KillOrdered(env, s, id);
    ListRemove(s.sessions, gone.sessions, s.hot, InHotList, id);
    ListKeep(s.sessions, gone.sessions, s.cold, InColdList, id);
    var r := TouchHot(env, s, id);
    assert r.sessions[id].lastUsedMs == env.clock(s.w.tick);
    PushedOrdered(env, gone, r, id, s.nextIt);
  }

  /** The HOT session at position `v` was used no later than any before it. */
  ghost predicate OldestAt(s: State, v: nat) {
    v <= 1 && v < |s.hot| && (v == 1 ==> StampOf(s.sessions, s.hot[1]) <= StampOf(s.sessions, s.hot[0]))
  }

  lemma DemoteShape(s: State, v: nat, bytes: nat)
    requires Inv(s) && v < |s.hot|
    ensures IsHot(s, s.hot[v].id)
    ensures var r := Demote(s, s.hot[v].id, bytes);
      && r.hot == s.hot[..v] + s.hot[v + 1..] && r.cold == s.cold + [Node(s.nextIt, s.hot[v].id)]
      && r.w.tick == s.w.tick && (forall n :: StampOf(r.sessions, n) == StampOf(s.sessions, n))
  {
    assert s.hot[v] in s.hot;
    HotFacts(s, s.hot[v].id);
  }

  /** An oldest session of the HOT list moves to the back of the COLD list: no reordering. */
  lemma DemoteOrdered(env: Env, s: State, v: nat, bytes: nat)
    requires Inv(s) && Ordered(env, s) && OldestAt(s, v)
    ensures IsHot(s, s.hot[v].id) && Ordered(env, Demote(s, s.hot[v].id, bytes))
  {
    hide Inv, Demote, StampOf, SortedBy, NotAfter;
    DemoteShape(s, v, bytes);
    var id := s.hot[v].id;
    var r := Demote(s, id, bytes);
    MovedStamps(s.sessions, s.cold, s.hot, v, Node(s.nextIt, id));
    SameStampsSorted(s.sessions, ByAge(s), r.sessions, ByAge(r), env.clock(s.w.tick));
  }

  /** Moving the node at `v`, under a new handle, in front of the list: every position keeps its stamp. */
  lemma MovedStamps(ss: Sessions, cold: seq<Node>, hot: seq<Node>, v: nat, n: Node)
    requires v <= 1 && v < |hot| && n.id == hot[v].id && SortedBy(ss, cold + hot)
    requires v == 1 ==> StampOf(ss, hot[1]) <= StampOf(ss, hot[0])
    ensures var l, m := cold + hot, cold + [n] + (hot[..v] + hot[v + 1..]);
      |m| == |l| && forall i :: 0 <= i < |m| ==> StampOf(ss, m[i]) == StampOf(ss, l[i])
  {
    var l, m := cold + hot, cold + [n] + (hot[..v] + hot[v + 1..]);
    var c := |cold|;
    assert l[c] == hot[0] && (v == 1 ==> l[c + 1] == hot[1] && m[c + 1] == hot[0]);
    assert forall i :: 0 <= i < |m| && i != c && i != c + v ==> m[i] == l[i];
  }

  /** Steps that leave the lists and all stamps alone. */
  lemma UnlistedOrdered(env: Env, s: State, r: State)
    requires MonotoneClock(env) && Ordered(env, s)
    requires r.hot == s.hot && r.cold == s.cold && r.w.tick >= s.w.tick
    requires forall n :: n in ByAge(s) ==> StampOf(r.sessions, n) == StampOf(s.sessions, n)
    ensures Ordered(env, r)
  {
  }

  lemma {:induction false} SaveLoopTicks(env: Env, w: World, ctx: CtxId, path: string, tokens: seq<Token>,
                                        used: int, limit: nat)
    requires ctx in w.ctxs
    ensures SaveLoop(env, w, ctx, path, tokens, used, limit).w.tick >= w.tick
    decreases |tokens|
  {
    hide SaveLoop, PruneCells;
    var goesOn, p := SaveLoopRound(env, w, ctx, path, tokens, used, limit);
    if !goesOn {
    } else {
      SaveLoopTicks(env, p.w, ctx, path, p.tokens, used, limit);
    }
  }

  lemma AfterSaveKeepsStamps(env: Env, s: State, id: int)
    requires Inv(s) && IsHot(s, id)
    ensures var r := AfterSave(env, s, id);
      && r.hot == s.hot && r.cold == s.cold && r.w.tick >= s.w.tick
      && (forall n :: StampOf(r.sessions, n) == StampOf(s.sessions, n))
  {
    HotFacts(s, id);
    var m := s.sessions[id];
    SaveLoopTicks(env, s.w, m.ctx.value, PathFor(s.swapDir, id), m.tokens, s.coldUsed, s.coldLimit);
    hide Inv, SaveLoop;
  }

  lemma AfterSaveOrdered(env: Env, s: State, id: int)
    requires MonotoneClock(env) && Inv(s) && IsHot(s, id) && Ordered(env, s)
    ensures Ordered(env, AfterSave(env, s, id))
    ensures AfterSave(env, s, id).hot == s.hot
  {
    AfterSaveKeepsStamps(env, s, id);
    hide *;
    UnlistedOrdered(env, s, AfterSave(env, s, id));
  }

  lemma SwapOutOrdered(env: Env, s: State, v: nat)
    requires MonotoneClock(env) && Inv(s) && Ordered(env, s) && OldestAt(s, v)
    ensures IsHot(s, s.hot[v].id) && Ordered(env, SwapOut(env, s, s.hot[v].id).s)
  {
    DemoteShape(s, v, 0);
    var id := s.hot[v].id;
    AfterSaveOrdered(env, s, id);
    AfterSaveKeepsStamps(env, s, id);
    var saved := SaveOf(env, s, id);
    var s1 := AfterSave(env, s, id);
    hide Ordered, Inv, AfterSave, SaveOf;
    if saved.bytes.Some? {
      var t := Demoted(env, s, id);
      DemoteOrdered(env, s1, v, saved.bytes.value);
      EvictColdOrdered(env, t, id);
    }
  }

  /** A successful swap-out takes the victim's node out of the HOT list, and no other. */
  lemma SwapOutHot(env: Env, s: State, v: nat)
    requires Inv(s) && v < |s.hot|
    ensures IsHot(s, s.hot[v].id)
    ensures SwapOut(env, s, s.hot[v].id).ok ==>
            SwapOut(env, s, s.hot[v].id).s.hot == s.hot[..v] + s.hot[v + 1..]
  {
    DemoteShape(s, v, 0);
    var id := s.hot[v].id;
    AfterSaveKeepsStamps(env, s, id);
    var saved := SaveOf(env, s, id);
    var s1 := AfterSave(env, s, id);
    hide Inv, AfterSave, SaveOf, StampOf;
    if saved.bytes.Some? {
      var t := Demoted(env, s, id);
      DemoteShape(s1, v, saved.bytes.value);
      EvictColdLosesOnlyCold(t, id);
    }
  }

  /** `excludeId` is no HOT session, so the loop always evicts from the front. */
  ghost predicate NobodySkipped(s: State, excludeId: int) {
    !IsHot(s, excludeId)
  }

  lemma FrontIsVictim(s: State, excludeId: int)
    requires Inv(s) && NobodySkipped(s, excludeId) && s.hot != []
    ensures IsHot(s, s.hot[0].id)
    ensures HotVictim(s.hot, excludeId) == s.hot[0].id
  {
  }

  /** Where the victim stands: in front, or behind the excluded session. */
  lemma VictimAt(s: State, excludeId: int) returns (v: nat)
    requires Inv(s)
    ensures v == if s.hot != [] && s.hot[0].id == excludeId then 1 else 0
    ensures HotVictim(s.hot, excludeId) == if v < |s.hot| then s.hot[v].id else -1
  {
    v := if s.hot != [] && s.hot[0].id == excludeId then 1 else 0;
    if v == 1 && |s.hot| > 1 {
      assert s.hot[0] in s.hot && s.hot[1] in s.hot;
      assert s.hot[1..][0].id != excludeId;
    }
  }

  /**
   Nobody whom eviction takes out of the HOT tier was used later than the session it skips.  With the
   HOT list at `n` sessions the ones in reach stand at most at position `n - hotLimit + 1`.
   */
  ghost predicate SkipsNoOlder(s: State, excludeId: int) {
    SkipsNoOlderIn(s.sessions, s.hot, s.hotLimit, excludeId)
  }

  ghost predicate SkipsNoOlderIn(ss: Sessions, l: seq<Node>, limit: nat, excludeId: int) {
    forall i, j :: 0 <= i < j < |l| && l[i].id == excludeId && j + limit <= |l| + 1 ==>
      StampOf(ss, l[j]) <= StampOf(ss, l[i])
  }

  lemma OneTakenSkipsNoOlder(ss: Sessions, l: seq<Node>, tt: Sessions, v: nat, limit: nat, excludeId: int)
    requires v < |l| && SkipsNoOlderIn(ss, l, limit, excludeId)
    requires forall i :: 0 <= i < |l| && i != v ==> StampOf(tt, l[i]) == StampOf(ss, l[i])
    ensures SkipsNoOlderIn(tt, l[..v] + l[v + 1..], limit, excludeId)
  {
    hide StampOf;
    var m := l[..v] + l[v + 1..];
    forall i, j | 0 <= i < j < |m| && m[i].id == excludeId && j + limit <= |m| + 1
      ensures StampOf(tt, m[j]) <= StampOf(tt, m[i])
    {
      var i0, j0 := if i < v then i else i + 1, if j < v then j else j + 1;
      assert m[i] == l[i0] && m[j] == l[j0];
    }
  }

  lemma NobodySkippedSkipsNoOlder(s: State, excludeId: int)
    requires Inv(s) && NobodySkipped(s, excludeId)
    ensures SkipsNoOlder(s, excludeId)
  {
    forall i | 0 <= i < |s.hot|
      ensures s.hot[i].id != excludeId
    {
      assert s.hot[i] in s.hot;
    }
  }

  lemma SwapOutKeepsHotStamps(env: Env, s: State, v: nat)
    requires Inv(s) && v < |s.hot| && IsHot(s, s.hot[v].id) && SwapOut(env, s, s.hot[v].id).ok
    ensures forall i :: 0 <= i < |s.hot| && i != v ==>
              StampOf(SwapOut(env, s, s.hot[v].id).s.sessions, s.hot[i]) == StampOf(s.sessions, s.hot[i])
  {
    SwapOutFrame(env, s, s.hot[v].id);
    forall i | 0 <= i < |s.hot| && i != v
      ensures s.hot[i].id != s.hot[v].id && IsHot(s, s.hot[i].id)
    {
      assert s.hot[i] in s.hot && s.hot[v] in s.hot;
    }
    hide SwapOut, Inv;
  }

  lemma SwapOutSkipsNoOlder(env: Env, s: State, excludeId: int, v: nat)
    requires Inv(s) && SkipsNoOlder(s, excludeId) && v < |s.hot| && IsHot(s, s.hot[v].id)
    requires SwapOut(env, s, s.hot[v].id).ok
    ensures SkipsNoOlder(SwapOut(env, s, s.hot[v].id).s, excludeId)
  {
    SwapOutHot(env, s, v);
    SwapOutKeepsHotStamps(env, s, v);
    SwapOutFrame(env, s, s.hot[v].id);
    hide SwapOut, Inv, StampOf, SkipsNoOlderIn;
    OneTakenSkipsNoOlder(s.sessions, s.hot, SwapOut(env, s, s.hot[v].id).s.sessions, v, s.hotLimit, excludeId);
  }

  lemma VictimIsOldest(s: State, excludeId: int) returns (v: nat)
    requires Inv(s) && SkipsNoOlder(s, excludeId)
    ensures HotVictim(s.hot, excludeId) == if v < |s.hot| then s.hot[v].id else -1
    ensures v < |s.hot| && |s.hot| >= s.hotLimit ==> OldestAt(s, v)
  {
    v := VictimAt(s, excludeId);
    hide Inv, HotVictim, StampOf;
  }

  lemma {:induction false} EvictHotOrdered(env: Env, s: State, excludeId: int)
    requires MonotoneClock(env) && Inv(s) && Ordered(env, s) && SkipsNoOlder(s, excludeId)
    ensures Ordered(env, EvictHot(env, s, excludeId).s)
    decreases |s.hot|
  {
    hide Inv, Ordered, SwapOut, HotVictim, SaveOf, SkipsNoOlder, OldestAt;
    var v := VictimIsOldest(s, excludeId);
    if |s.hot| < s.hotLimit || v >= |s.hot| {
    } else {
      var victim := s.hot[v].id;
      if victim != -1 {
        SwapOutOrdered(env, s, v);
        SwapOutShrinksHot(env, s, victim);
        var o := SwapOut(env, s, victim);
        if o.ok {
          SwapOutSkipsNoOlder(env, s, excludeId, v);
          EvictHotOrdered(env, o.s, excludeId);
        }
      }
    }
  }

  // ---- a new HOT limit while session -1 is HOT ----

  lemma SwapOutColdLast(env: Env, s: State, id: int)
    requires Inv(s) && IsHot(s, id) && SwapOut(env, s, id).ok
    ensures var r := SwapOut(env, s, id).s;
      && r.cold != [] && r.cold[|r.cold| - 1].id == id
      && id in r.sessions && r.sessions[id].lastUsedMs == s.sessions[id].lastUsedMs
  {
    SwapOutShrinksHot(env, s, id);
    DemotedSums(env, s, id);
    DemotedStamp(env, s, id);
    var t := Demoted(env, s, id);
    hide Inv, SaveOf, Demoted, SumBytes, SwapOut, EvictCold, ExcludesAtMostLast;
    ExcludedSurvives(t, id);
    EvictColdLosesOnlyCold(t, id);
    var k := EvictColdDropsPrefix(t, id);
    var j := SwappedIndex(EvictCold(t, id), id);
  }

  lemma DemotedStamp(env: Env, s: State, id: int)
    requires Inv(s) && IsHot(s, id) && SaveOf(env, s, id).bytes.Some?
    ensures var t := Demoted(env, s, id);
      IsSwapped(t, id) && t.sessions[id].lastUsedMs == s.sessions[id].lastUsedMs
  {
    hide SaveLoop, Inv;
  }

  lemma TakenOut(env: Env, s: State, v: nat) returns (o: State)
    requires Inv(s) && SavesNeverFail(env) && v < |s.hot|
    ensures IsHot(s, s.hot[v].id) && SwapOut(env, s, s.hot[v].id) == SwapOutcome(o, true)
    ensures Inv(o) && o.hotLimit == s.hotLimit && o.hot == s.hot[..v] + s.hot[v + 1..]
    ensures forall i :: 0 <= i < |s.hot| && i != v ==> StampOf(o.sessions, s.hot[i]) == StampOf(s.sessions, s.hot[i])
    ensures EndsWith(o.cold, s.hot[v].id) && StampOf(o.sessions, o.cold[|o.cold| - 1]) == StampOf(s.sessions, s.hot[v])
  {
    SwapOutHot(env, s, v);
    hide Inv, SwapOut;
    var id := s.hot[v].id;
    o := SwapOut(env, s, id).s;
    if !SwapOut(env, s, id).ok {
      SwapOutFailsOnlyOnSave(env, s, id);
    }
    SwapOutColdLast(env, s, id);
    SwapOutKeepsHotStamps(env, s, v);
    SwapOutFrame(env, s, id);
  }

  ghost predicate EndsWith(l: seq<Node>, id: int) {
    l != [] && l[|l| - 1].id == id
  }

  /** Evictions that reach past the skipped session -1 put somebody who stood behind it into the COLD list. */
  lemma {:induction false} ReachesPast(env: Env, s: State, i: nat, j: nat) returns (k: nat)
    requires Inv(s) && SavesNeverFail(env)
    requires i < j < |s.hot| && s.hot[i].id == -1 && j + s.hotLimit <= |s.hot| + 1
    ensures j <= k < |s.hot|
    ensures var r := EvictHot(env, s, -1).s;
      && EndsWith(r.cold, s.hot[k].id) && StampOf(r.sessions, r.cold[|r.cold| - 1]) == StampOf(s.sessions, s.hot[k])
      && s.hot[i] in r.hot && StampOf(r.sessions, s.hot[i]) == StampOf(s.sessions, s.hot[i])
    decreases |s.hot|
  {
    hide Inv, SwapOut, HotVictim, SaveOf, StampOf, EvictHot;
    var v := VictimAt(s, -1);
    SkippedOnce(s, i);
    var o := TakenOut(env, s, v);
    EvictHotGoesOn(env, s, -1, o);
    if v == 0 {
      assert o.hot[i - 1] == s.hot[i];
      k := ReachesPast(env, o, i - 1, j - 1);
      k := k + 1;
      assert o.hot[k - 1] == s.hot[k];
    } else {
      assert i == 0 && o.hot[0] == s.hot[0];
      if j > 1 || (|o.hot| >= o.hotLimit && |o.hot| > 1) {
        k := ReachesPast(env, o, 0, if j > 1 then j - 1 else 1);
        k := k + 1;
        assert o.hot[k - 1] == s.hot[k];
      } else {
        k := 1;
        EvictHotStops(env, o, -1);
      }
    }
  }

  lemma SortedPair(ss: Sessions, l: seq<Node>, i: nat, j: nat)
    requires SortedBy(ss, l) && i <= j < |l|
    ensures StampOf(ss, l[i]) <= StampOf(ss, l[j])
  {
  }

  lemma EvictHotGoesOn(env: Env, s: State, excludeId: int, o: State)
    requires Inv(s) && |s.hot| >= s.hotLimit && s.hot != [] && HotVictim(s.hot, excludeId) != -1
    requires IsHot(s, HotVictim(s.hot, excludeId)) && SwapOut(env, s, HotVictim(s.hot, excludeId)) == SwapOutcome(o, true)
    ensures Inv(o) && EvictHot(env, s, excludeId).s == EvictHot(env, o, excludeId).s
  {
    hide Inv, SwapOut, HotVictim, SaveOf;
  }

  lemma EvictHotStops(env: Env, s: State, excludeId: int)
    requires Inv(s)
    requires |s.hot| < s.hotLimit || (|s.hot| == 1 && s.hot[0].id == excludeId)
    ensures EvictHot(env, s, excludeId).s == s
  {
    var _ := VictimAt(s, excludeId);
    hide Inv, SwapOut, HotVictim, SaveOf;
  }

  /** Session -1 has one node, so a victim is never it. */
  lemma SkippedOnce(s: State, i: nat)
    requires Inv(s) && i < |s.hot| && s.hot[i].id == -1
    ensures forall k :: 0 <= k < |s.hot| && k != i ==> s.hot[k].id != -1
  {
    forall k | 0 <= k < |s.hot| && k != i
      ensures s.hot[k].id != -1
    {
      assert s.hot[k] in s.hot && s.hot[i] in s.hot;
    }
  }

  /**
   A new HOT limit keeps the order if nobody whom it takes out of the HOT tier was used later than a
   HOT session -1, which it skips; while saves succeed, only then.
   */
  lemma SetHotLimitOrdered(env: Env, s: State, count: nat)
    requires MonotoneClock(env) && Inv(s) && Ordered(env, s)
    ensures SkipsNoOlder(Limited(s, count), -1) ==> Ordered(env, SetHotLimit(env, s, count))
    ensures SavesNeverFail(env) && Ordered(env, SetHotLimit(env, s, count)) ==> SkipsNoOlder(Limited(s, count), -1)
  {
    hide Inv, EvictHot, Ordered, SkipsNoOlder, MonotoneClock, SavesNeverFail;
    var s0 := Limited(s, count);
    LimitedOrdered(env, s, count);
    if SkipsNoOlder(s0, -1) {
      EvictHotOrdered(env, s0, -1);
    } else if SavesNeverFail(env) {
      SkippingSomebodyOlder(env, s0);
    }
  }

  lemma LimitedOrdered(env: Env, s: State, count: nat)
    requires Inv(s) && Ordered(env, s)
    ensures Ordered(env, Limited(s, count))
  {
    hide Inv, StampOf;
  }

  lemma SkippingSomebodyOlder(env: Env, s: State)
    requires Inv(s) && SavesNeverFail(env) && Ordered(env, s) && !SkipsNoOlder(s, -1)
    ensures !Ordered(env, EvictHot(env, s, -1).s)
  {
    OrderedTiers(env, s);
    hide Inv, EvictHot, Ordered, SortedBy, StampOf, SavesNeverFail;
    var i, j :| 0 <= i < j < |s.hot| && s.hot[i].id == -1 && j + s.hotLimit <= |s.hot| + 1
                && StampOf(s.sessions, s.hot[j]) > StampOf(s.sessions, s.hot[i]);
    var k := ReachesPast(env, s, i, j);
    SortedPair(s.sessions, s.hot, j, k);
    var r := EvictHot(env, s, -1).s;
    if Ordered(env, r) {
      OrderedTiers(env, r);
      SortedAcross(r, s.hot[i]);
    }
  }

  lemma OrderedTiers(env: Env, s: State)
    requires Ordered(env, s)
    ensures SortedBy(s.sessions, ByAge(s)) && SortedBy(s.sessions, s.hot)
  {
    var l := ByAge(s);
    assert forall i :: 0 <= i < |s.hot| ==> l[|s.cold| + i] == s.hot[i];
  }

  lemma SortedAcross(s: State, n: Node)
    requires SortedBy(s.sessions, ByAge(s)) && s.cold != [] && n in s.hot
    ensures StampOf(s.sessions, s.cold[|s.cold| - 1]) <= StampOf(s.sessions, n)
  {
    var i :| 0 <= i < |s.hot| && s.hot[i] == n;
    var l := ByAge(s);
    assert l[|s.cold| - 1] == s.cold[|s.cold| - 1] && l[|s.cold| + i] == n;
  }

  lemma AdmitOrdered(env: Env, s: State, id: int)
    requires MonotoneClock(env) && Inv(s) && Ordered(env, s) && !IsHot(s, id)
    ensures !Admit(env, s, id).Dangling? ==> Ordered(env, Admit(env, s, id).s)
  {
    var r := Admit(env, s, id);
    if id in s.sessions {
      var gone := KillSession(s, id);
      KillOrdered(env, s, id);
      if r.Active? {
        if IsSwapped(s, id) {
          SwappedFacts(s, id);
          ListRemove(s.sessions, gone.sessions, s.cold, InColdList, id);
          ListKeep(s.sessions, gone.sessions, s.hot, InHotList, id);
        } else {
          ListKeep(s.sessions, gone.sessions, s.cold, InColdList, id);
          ListKeep(s.sessions, gone.sessions, s.hot, InHotList, id);
        }
        AdmittedShape(env, s, id);
        PushedOrdered(env, gone, r.s, id, s.nextIt);
      } else if r.Refused? {
        RefusedOrdered(env, s, id);
      }
    } else if r.Refused? {
      RefusedOrdered(env, s, id);
    }
  }

  lemma AdmittedShape(env: Env, s: State, id: int)
    requires Inv(s) && !IsHot(s, id) && Admit(env, s, id).Active?
    ensures id in s.sessions
    ensures var r := Admit(env, s, id).s; var gone := KillSession(s, id);
      && OthersSame(gone.sessions, r.sessions, id) && id in r.sessions
      && r.cold == gone.cold && r.hot == gone.hot + [Node(s.nextIt, id)]
      && gone.w.tick == s.w.tick
      && exists t :: gone.w.tick <= t <= r.w.tick && r.sessions[id].lastUsedMs == env.clock(t)
  {
    var r := Admit(env, s, id).s;
    assert r.sessions[id].lastUsedMs == env.clock(r.w.tick - 1);
  }

  lemma RefusedOrdered(env: Env, s: State, id: int)
    requires MonotoneClock(env) && Inv(s) && Ordered(env, s) && !IsHot(s, id)
    requires Admit(env, s, id).Refused?
    ensures Ordered(env, Admit(env, s, id).s)
  {
    hide Ordered, ByAge;
    UnlistedOrdered(env, s, Admit(env, s, id).s);
  }

  lemma ActivateOrdered(env: Env, s: State, id: int)
    requires MonotoneClock(env) && Inv(s) && Ordered(env, s)
    ensures !Activate(env, s, id).Dangling? ==> Ordered(env, Activate(env, s, id).s)
  {
    if IsHot(s, id) {
      TouchOrdered(env, s, id);
    } else if id in s.sessions {
      EvictHotLeavesCold(env, s, id, id);
      NobodySkippedSkipsNoOlder(s, id);
      EvictHotOrdered(env, s, id);
      AdmitOrdered(env, EvictHot(env, s, id).s, id);
    }
  }

  lemma RecordOrdered(env: Env, s: State, id: int, tokens: seq<Token>)
    requires MonotoneClock(env) && Inv(s) && IsHot(s, id) && Ordered(env, s)
    ensures Ordered(env, RecordTokens(env, s, id, tokens))
  {
    var m := s.sessions[id];
    var s1 := s.(sessions := s.sessions[id := m.(tokens := m.tokens + tokens)]);
    RecordKeepsInv(s, id, tokens);
    UnlistedOrdered(env, s, s1);
    TouchOrdered(env, s1, id);
  }

  lemma {:induction false} DecodeLoopTicks(env: Env, w: World, ctx: CtxId, left: nat)
    requires ctx in w.ctxs
    ensures DecodeLoop(env, w, ctx, left).w.tick >= w.tick
    decreases left
  {
    if left == 0 {
    } else {
      var (w1, cancel) := CancelRequested(env, w);
      var (w2, tok) := Sample(env, w1);
      var (w3, ok) := Decode(env, w2, ctx, [tok]);
      if !cancel && !env.isEog(tok) && ok {
        DecodeLoopTicks(env, w3, ctx, left - 1);
      }
    }
  }

  lemma GenerateOrdered(env: Env, s: State, id: int, ctx: CtxId, prompt: seq<Token>, maxTokens: nat)
    requires MonotoneClock(env) && Inv(s) && HoldsContext(s, id, ctx) && ctx in s.w.ctxs && Ordered(env, s)
    ensures Ordered(env, Generate(env, s, id, ctx, prompt, maxTokens).s)
  {
    hide Ordered, RecordTokens, DecodeLoop;
    var (w1, ok) := Decode(env, s.w, ctx, prompt);
    WorldKeepsInv(s, w1, id);
    var s1 := s.(w := w1);
    UnlistedOrdered(env, s, s1);
    if ok {
      var s2 := RecordTokens(env, s1, id, prompt);
      RecordedStaysHot(env, s1, id, prompt);
      RecordOrdered(env, s1, id, prompt);
      var d := DecodeLoop(env, s2.w, ctx, maxTokens);
      DecodeLoopTicks(env, s2.w, ctx, maxTokens);
      WorldKeepsInv(s2, d.w, id);
      UnlistedOrdered(env, s2, s2.(w := d.w));
      RecordOrdered(env, s2.(w := d.w), id, d.generated);
    }
  }

  lemma InferOrdered(env: Env, s: State, id: int, prompt: seq<Token>, maxTokens: nat)
    requires MonotoneClock(env) && Inv(s) && Ordered(env, s)
    ensures Infer(env, s, id, prompt, maxTokens).Answer? ==> Ordered(env, Infer(env, s, id, prompt, maxTokens).s)
  {
    ActivateOrdered(env, s, id);
    var a := Activate(env, s, id);
    if a.Active? {
      ActivateGivesHot(env, s, id);
      hide Ordered, Activate;
      GenerateOrdered(env, a.s, id, a.ctx, prompt, maxTokens);
    }
  }

  // ---- what the order is for ----

  /** The HOT victim is the least recently used HOT session. */
  lemma HotVictimIsLru(env: Env, s: State, excludeId: int, other: int)
    requires Inv(s) && Ordered(env, s) && NobodySkipped(s, excludeId) && IsHot(s, other)
    ensures IsHot(s, HotVictim(s.hot, excludeId))
    ensures s.sessions[HotVictim(s.hot, excludeId)].lastUsedMs <= s.sessions[other].lastUsedMs
  {
    assert Node(s.sessions[other].lruIt, other) in s.hot;
    FrontIsVictim(s, excludeId);
    var i :| 0 <= i < |s.hot| && s.hot[i].id == other;
    var l := ByAge(s);
    assert l[|s.cold|] == s.hot[0] && l[|s.cold| + i] == s.hot[i];
    assert StampOf(s.sessions, l[|s.cold|]) <= StampOf(s.sessions, l[|s.cold| + i]);
  }

  /** Everybody killed for the COLD budget was last used no later than any listed session that is kept. */
  lemma KilledAreLru(env: Env, s: State, excludeId: int, dead: int, kept: int)
    requires Inv(s) && Ordered(env, s) && ExcludesAtMostLast(s.cold, excludeId)
    requires dead in s.sessions && dead !in EvictCold(s, excludeId).sessions
    requires IsSwapped(s, kept) || IsHot(s, kept)
    requires kept in EvictCold(s, excludeId).sessions
    ensures s.sessions[dead].lastUsedMs <= s.sessions[kept].lastUsedMs
  {
    EvictColdLosesOnlyCold(s, excludeId);
    hide EvictCold, SumBytes;
    var l := ByAge(s);
    var d := SwappedIndex(s, dead);
    if IsSwapped(s, kept) {
      var k := KilledBefore(s, excludeId, d, kept);
      assert l[d] == s.cold[d] && l[k] == s.cold[k];
    } else {
      assert Node(s.sessions[kept].lruIt, kept) in s.hot;
      var i :| 0 <= i < |s.hot| && s.hot[i].id == kept;
      assert l[d] == s.cold[d] && l[|s.cold| + i] == s.hot[i];
    }
  }

  lemma KilledBefore(s: State, excludeId: int, d: nat, kept: int) returns (k: nat)
    requires Inv(s) && ExcludesAtMostLast(s.cold, excludeId) && d < |s.cold|
    requires s.cold[d].id !in EvictCold(s, excludeId).sessions
    requires IsSwapped(s, kept) && kept in EvictCold(s, excludeId).sessions
    ensures d < k < |s.cold| && s.cold[k].id == kept
  {
    hide Inv, EvictCold, SumBytes, IsSwapped, ExcludesAtMostLast;
    k := SwappedIndex(s, kept);
    SurvivesColdEviction(s, excludeId, d);
    SurvivesColdEviction(s, excludeId, k);
    if s.cold[k].id == excludeId {
      ExcludedIsLast(s.cold, excludeId, k);
    }
    if k < d {
      TailOfTail(s.cold, k, d);
      SumOfTail(s.sessions, s.cold[k..], d - k);
    }
  }

  lemma TailOfTail(l: seq<Node>, k: nat, d: nat)
    requires k <= d <= |l|
    ensures l[k..][d - k..] == l[d..]
  {
  }

  lemma ExcludedIsLast(l: seq<Node>, excludeId: int, k: nat)
    requires ExcludesAtMostLast(l, excludeId) && k < |l| && l[k].id == excludeId
    ensures k == |l| - 1
  {
  }
}
