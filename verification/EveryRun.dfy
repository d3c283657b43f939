/**
 Safety over whole runs: structure, COLD budget, HOT bound, LRU order and swap files, in every
 state that any sequence of calls can reach.
 */
module EveryRun {
  import opened Foreign
  import opened LruList
  import opened SessionState
  import opened SessionSpec
  import opened InferSpec
  import opened Views
  import opened ColdTier
  import opened LruOrder
  import opened Runs

  // ---- structure ----

  /**
   In every reachable state: the HOT list holds exactly the HOT sessions and the COLD list exactly
   the swapped ones, each session once, under the handle stored in its entry; the live contexts are
   exactly those of the HOT sessions, no two of which share one; the byte counter is the sum over
   the COLD list; and every swapped session has an intact file under its own path.
   */
  lemma EveryRunIsWellFormed(env: Env, swapDir: string, nCtx: nat, ops: seq<Op>)
    requires Exec(env, swapDir, nCtx, ops).Live?
    ensures var s := Exec(env, swapDir, nCtx, ops).s;
      && (forall id :: IsHot(s, id) <==> id in Ids(s.hot))
      && (forall id :: IsSwapped(s, id) <==> id in Ids(s.cold))
      && (forall i, j :: 0 <= i < j < |s.hot| ==> s.hot[i].id != s.hot[j].id)
      && (forall i, j :: 0 <= i < j < |s.cold| ==> s.cold[i].id != s.cold[j].id)
      && (forall n :: n in s.hot || n in s.cold ==> n.id in s.sessions && s.sessions[n.id].lruIt == n.it)
      && (forall c :: c in s.w.ctxs <==> exists id :: Owns(s.sessions, id, c))
      && (forall id, c :: Owns(s.sessions, id, c) ==> IsHot(s, id))
      && (forall id :: IsHot(s, id) ==> s.sessions[id].ctx.Some? && s.sessions[id].ctx.value in s.w.ctxs)
      && (forall a, b, c :: Owns(s.sessions, a, c) && Owns(s.sessions, b, c) ==> a == b)
      && s.coldUsed == SumBytes(s.sessions, s.cold)
      && (forall id :: IsSwapped(s, id) ==> PathFor(s.swapDir, id) in s.w.files && s.w.files[PathFor(s.swapDir, id)].SwapFile?)
  {
    hide Exec;
    var s := Exec(env, swapDir, nCtx, ops).s;
    forall id | IsHot(s, id)
      ensures s.sessions[id].ctx.Some? && s.sessions[id].ctx.value in s.w.ctxs
    {
      HotFacts(s, id);
    }
  }

  // ---- frames ----

  /** What a call made for one HOT session leaves alone. */
  ghost predicate OnlyHotTouched(s: State, r: State, id: int) {
    && r.cold == s.cold && r.coldUsed == s.coldUsed && r.coldLimit == s.coldLimit
    && |r.hot| == |s.hot| && r.hotLimit == s.hotLimit
    && r.w.files == s.w.files && r.swapDir == s.swapDir
    && r.sessions.Keys == s.sessions.Keys
    && (forall k :: k in s.sessions && k != id ==> r.sessions[k] == s.sessions[k])
    && IsHot(s, id) && IsHot(r, id)
  }

  lemma OnlyHotTouchedTwice(s: State, t: State, r: State, id: int)
    requires OnlyHotTouched(s, t, id) && OnlyHotTouched(t, r, id)
    ensures OnlyHotTouched(s, r, id)
  {
  }

  lemma RecordFrame(env: Env, s: State, id: int, tokens: seq<Token>)
    requires Inv(s) && IsHot(s, id)
    ensures OnlyHotTouched(s, RecordTokens(env, s, id, tokens), id)
  {
    HotFacts(s, id);
    hide Inv;
  }

  /** Prefill, decode loop and recording leave the COLD tier, the limits, the files and all others alone. */
  lemma GenerateFrame(env: Env, s: State, id: int, ctx: CtxId, prompt: seq<Token>, maxTokens: nat)
    requires Inv(s) && HoldsContext(s, id, ctx) && ctx in s.w.ctxs
    ensures var r := Generate(env, s, id, ctx, prompt, maxTokens).s;
      OnlyHotTouched(s, r, id) && forall k :: IsSwapped(s, k) <==> IsSwapped(r, k)
  {
    hide Inv, RecordTokens, DecodeLoop, AppendTokens;
    var r := Generate(env, s, id, ctx, prompt, maxTokens).s;
    var (w1, ok) := Decode(env, s.w, ctx, prompt);
    var s1 := s.(w := w1);
    WorldKeepsInv(s, w1, id);
    if ok {
      var s2 := RecordTokens(env, s1, id, prompt);
      RecordedStaysHot(env, s1, id, prompt);
      RecordFrame(env, s1, id, prompt);
      var d := DecodeLoop(env, s2.w, ctx, maxTokens);
      var s3 := s2.(w := d.w);
      WorldKeepsInv(s2, d.w, id);
      RecordFrame(env, s3, id, d.generated);
      OnlyHotTouchedTwice(s1, s2, r, id);
    }
    assert forall k :: k != id ==> (IsSwapped(s, k) <==> IsSwapped(r, k));
  }

  // ---- the COLD budget ----

  ghost predicate WithinBudget(s: State) {
    s.coldUsed <= s.coldLimit || |s.cold| <= 1
  }

  lemma KillKeepsBudget(s: State, id: int)
    requires Inv(s) && WithinBudget(s)
    ensures WithinBudget(KillSession(s, id))
  {
  }

  lemma SwapOutKeepsBudget(env: Env, s: State, id: int)
    requires Inv(s) && IsHot(s, id) && WithinBudget(s)
    ensures WithinBudget(SwapOut(env, s, id).s)
  {
  }

  lemma {:induction false} EvictHotKeepsBudget(env: Env, s: State, excludeId: int)
    requires Inv(s) && WithinBudget(s)
    ensures WithinBudget(EvictHot(env, s, excludeId).s)
    decreases |s.hot|
  {
    hide Inv, SwapOut, SaveOf;
    if |s.hot| < s.hotLimit || s.hot == [] {
    } else {
      var victim := HotVictim(s.hot, excludeId);
      if victim != -1 {
        VictimIsHot(s, excludeId);
        SwapOutKeepsBudget(env, s, victim);
        SwapOutShrinksHot(env, s, victim);
        if SwapOut(env, s, victim).ok {
          EvictHotKeepsBudget(env, SwapOut(env, s, victim).s, excludeId);
        }
      }
    }
  }

  lemma AdmitKeepsBudget(env: Env, s: State, id: int)
    requires Inv(s) && !IsHot(s, id) && WithinBudget(s)
    ensures !Admit(env, s, id).Dangling? ==> WithinBudget(Admit(env, s, id).s)
  {
  }

  lemma ActivateKeepsBudget(env: Env, s: State, id: int)
    requires Inv(s) && WithinBudget(s)
    ensures !Activate(env, s, id).Dangling? ==> WithinBudget(Activate(env, s, id).s)
  {
    hide EvictHot, WithinBudget, Admit;
    if id in s.sessions && !IsHot(s, id) {
      EvictHotLeavesCold(env, s, id, id);
      EvictHotKeepsBudget(env, s, id);
      AdmitKeepsBudget(env, EvictHot(env, s, id).s, id);
    } else {
      TouchKeepsBudget(env, s, id);
    }
  }

  lemma TouchKeepsBudget(env: Env, s: State, id: int)
    requires Inv(s) && WithinBudget(s)
    ensures IsHot(s, id) ==> WithinBudget(TouchHot(env, s, id))
  {
  }

  lemma InferKeepsBudget(env: Env, s: State, id: int, prompt: seq<Token>, maxTokens: nat)
    requires Inv(s) && WithinBudget(s)
    ensures Infer(env, s, id, prompt, maxTokens).Answer? ==> WithinBudget(Infer(env, s, id, prompt, maxTokens).s)
  {
    hide Inv, Activate, Generate;
    ActivateKeepsBudget(env, s, id);
    var a := Activate(env, s, id);
    if a.Active? {
      ActivateGivesHot(env, s, id);
      GenerateFrame(env, a.s, id, a.ctx, prompt, maxTokens);
    }
  }

  lemma ApplyKeepsBudget(env: Env, s: State, op: Op)
    requires Inv(s) && WithinBudget(s)
    ensures Apply(env, s, op).Some? ==> WithinBudget(Apply(env, s, op).value)
  {
    hide Inv, Infer, EvictHot, EvictCold, KillSession;
    match op
    case Create(id) =>
    case Kill(id) => KillKeepsBudget(s, id);
    case HotLimit(count) => EvictHotKeepsBudget(env, Limited(s, count), -1);
    case ColdLimit(bytes) =>
    case Inference(id, prompt, maxTokens) => InferKeepsBudget(env, s, id, prompt, maxTokens);
  }

  lemma {:induction false} ColdBudgetInEveryRun(env: Env, swapDir: string, nCtx: nat, ops: seq<Op>)
    requires Exec(env, swapDir, nCtx, ops).Live?
    ensures var s := Exec(env, swapDir, nCtx, ops).s; s.coldUsed <= s.coldLimit || |s.cold| <= 1
    decreases |ops|
  {
    if ops == [] {
    } else {
      hide Inv, Apply, Noted;
      var r := Exec(env, swapDir, nCtx, ops[..|ops| - 1]);
      ColdBudgetInEveryRun(env, swapDir, nCtx, ops[..|ops| - 1]);
      ApplyKeepsBudget(env, r.s, ops[|ops| - 1]);
    }
  }

  // ---- the HOT bound ----

  /** Session -1, which reads as "no victim", is not among the sessions that eviction has to take out. */
  ghost predicate SentinelOutOfReach(s: State) {
    forall i :: 0 <= i <= |s.hot| - s.hotLimit && i < |s.hot| ==> s.hot[i].id != -1
  }

  /** HOT eviction gets below the limit if and only if no swap-out failed and session -1 was not in reach. */
  lemma {:induction false} EvictHotMakesRoom(env: Env, s: State, excludeId: int)
    requires Inv(s) && NobodySkipped(s, excludeId) && s.hotLimit >= 1
    ensures var e := EvictHot(env, s, excludeId);
      && (|e.s.hot| < e.s.hotLimit <==> !e.failed && SentinelOutOfReach(s))
      && (e.failed ==> !SavesNeverFail(env))
      && |e.s.hot| <= |s.hot| && e.s.hotLimit == s.hotLimit
    decreases |s.hot|
  {
    hide Inv, SwapOut, SaveOf, HotVictim;
    if |s.hot| < s.hotLimit || s.hot == [] {
    } else {
      FrontIsVictim(s, excludeId);
      var victim := s.hot[0].id;
      if victim != -1 {
        SwapOutShrinksHot(env, s, victim);
        SwapOutFrame(env, s, victim);
        SwapOutHot(env, s, 0);
        var o := SwapOut(env, s, victim);
        if o.ok {
          EvictHotMakesRoom(env, o.s, excludeId);
          ReachMovesUp(s, o.s);
        } else {
          FailedSwapOutKeepsHot(env, s, victim);
          SwapOutFailsOnlyOnSave(env, s, victim);
        }
      }
    }
  }

  lemma ReachMovesUp(s: State, o: State)
    requires s.hot != [] && s.hot[0].id != -1 && o.hot == s.hot[..0] + s.hot[1..] && o.hotLimit == s.hotLimit >= 1
    ensures SentinelOutOfReach(s) <==> SentinelOutOfReach(o)
  {
    assert forall i :: 0 <= i < |o.hot| ==> o.hot[i] == s.hot[i + 1];
    if SentinelOutOfReach(o) {
      forall i | 0 <= i <= |s.hot| - s.hotLimit && i < |s.hot|
        ensures s.hot[i].id != -1
      {
        assert i > 0 ==> o.hot[i - 1] == s.hot[i];
      }
    }
  }

  lemma FailedSwapOutKeepsHot(env: Env, s: State, id: int)
    requires Inv(s) && IsHot(s, id) && !SwapOut(env, s, id).ok
    ensures var r := SwapOut(env, s, id).s;
      r.hot == s.hot && r.hotLimit == s.hotLimit && r.cold == s.cold && r.coldUsed == s.coldUsed
  {
  }

  /** With session -1 in the HOT tier everybody else can be taken out, down to it alone. */
  lemma {:induction false} EvictHotAround(env: Env, s: State)
    requires Inv(s) && IsHot(s, -1) && SavesNeverFail(env) && s.hotLimit >= 1
    ensures var r := EvictHot(env, s, -1).s;
      && (|r.hot| < r.hotLimit <==> s.hotLimit > 1) && |r.hot| <= r.hotLimit && r.hotLimit == s.hotLimit
    decreases |s.hot|
  {
    hide Inv, SwapOut, SaveOf, HotVictim;
    var i := HotIndex(s, -1);
    SkippedOnce(s, i);
    var v := VictimAt(s, -1);
    if |s.hot| < s.hotLimit || v >= |s.hot| {
    } else {
      var victim := s.hot[v].id;
      SwapOutHot(env, s, v);
      SwapOutShrinksHot(env, s, victim);
      SwapOutFrame(env, s, victim);
      if SwapOut(env, s, victim).ok {
        HotIsNotSwapped(s, -1);
        EvictHotAround(env, SwapOut(env, s, victim).s);
      } else {
        SwapOutFailsOnlyOnSave(env, s, victim);
      }
    }
  }

  lemma HotIsNotSwapped(s: State, id: int)
    requires IsHot(s, id)
    ensures !IsSwapped(s, id)
  {
  }

  lemma HotIndex(s: State, id: int) returns (i: nat)
    requires Inv(s) && IsHot(s, id)
    ensures i < |s.hot| && s.hot[i].id == id
  {
    assert Node(s.sessions[id].lruIt, id) in s.hot;
    i :| 0 <= i < |s.hot| && s.hot[i].id == id;
  }

  /**
   While saves succeed, a new limit takes hold, and the HOT tier ends strictly below it unless the
   limit is one and session -1 is HOT.
   */
  lemma SetHotLimitMakesRoom(env: Env, s: State, count: nat)
    requires Inv(s) && SavesNeverFail(env)
    ensures var limit := if count < 1 then 1 else count; var r := SetHotLimit(env, s, count);
      && r.hotLimit == limit && |r.hot| <= limit
      && (|r.hot| < limit <==> !IsHot(s, -1) || limit > 1)
  {
    hide Inv, EvictHot;
    var s0 := Limited(s, count);
    if IsHot(s0, -1) {
      EvictHotAround(env, s0);
    } else {
      EvictHotMakesRoom(env, s0, -1);
      NoSentinelInHot(s0);
    }
  }

  lemma NoSentinelInHot(s: State)
    requires Inv(s) && !IsHot(s, -1)
    ensures SentinelOutOfReach(s)
  {
    forall i | 0 <= i < |s.hot|
      ensures s.hot[i].id != -1
    {
      assert s.hot[i] in s.hot;
    }
  }

  ghost predicate HotBound(s: State) {
    1 <= s.hotLimit && |s.hot| <= s.hotLimit
  }

  lemma FrontIsHot(s: State)
    requires Inv(s) && s.hot != []
    ensures IsHot(s, s.hot[0].id)
  {
    assert s.hot[0] in s.hot;
  }

  /** The session in front of the HOT list cannot be taken out: it reads as "no victim", or its save fails. */
  ghost predicate FrontStays(env: Env, s: State)
    requires Inv(s) && s.hot != []
  {
    FrontIsHot(s);
    s.hot[0].id == -1 || SaveOf(env, s, s.hot[0].id).bytes.None?
  }

  /** When an activation that could not make room goes on. */
  ghost function GoesOnAt(env: Env, s: State): nat
    requires Inv(s) && s.hot != []
  {
    FrontIsHot(s);
    if s.hot[0].id == -1 then s.w.tick else SaveOf(env, s, s.hot[0].id).w.tick
  }

  /** From tick `t` on, a context can be made for the session, and if it is swapped it can be loaded and fits. */
  ghost predicate Admissible(env: Env, s: State, id: int, t: nat)
    requires id in s.sessions
  {
    env.initOk(t) && (IsSwapped(s, id) ==> env.loadOk(t + 1) && |ViewOf(s, id).tokens| <= s.nCtx)
  }

  lemma AdmitActiveIff(env: Env, s: State, id: int)
    requires Inv(s) && id in s.sessions && !IsHot(s, id)
    ensures Admit(env, s, id).Active? <==> Admissible(env, s, id, s.w.tick)
  {
    if IsSwapped(s, id) {
      AdmitOutcome(env, s, id);
    }
  }

  /** Eviction that cannot take out the front: the HOT list and the COLD session stay as they are. */
  lemma EvictionStuck(env: Env, s: State, id: int)
    requires Inv(s) && id in s.sessions && !IsHot(s, id)
    requires |s.hot| == s.hotLimit && s.hot != [] && FrontStays(env, s)
    ensures var r := EvictHot(env, s, id).s;
      && id in r.sessions && r.sessions[id] == s.sessions[id] && ViewOf(r, id) == ViewOf(s, id)
      && r.hot == s.hot && r.hotLimit == s.hotLimit && r.nCtx == s.nCtx && r.w.tick == GoesOnAt(env, s)
  {
    hide Inv, SwapOut, SaveOf, ViewOf, HotVictim, AfterSave;
    FrontIsVictim(s, id);
    var front := s.hot[0].id;
    if front != -1 {
      SwapOutShrinksHot(env, s, front);
      SwapOutFrame(env, s, front);
      SwapOutPrunesViews(env, s, front);
      StuckTick(env, s, front);
    }
  }

  lemma StuckTick(env: Env, s: State, id: int)
    requires Inv(s) && IsHot(s, id) && SaveOf(env, s, id).bytes.None?
    ensures var o := SwapOut(env, s, id);
      !o.ok && o.s.hot == s.hot && o.s.w.tick == SaveOf(env, s, id).w.tick
  {
    hide Inv, SaveOf;
  }

  /**
   An activation of a COLD session in a HOT tier within its limit ends above the limit if and only if
   the tier is full, its front cannot be taken out, and the session can be admitted all the same.
   */
  lemma ActivateHotBound(env: Env, s: State, id: int)
    requires Inv(s) && HotBound(s) && id in s.sessions && !IsHot(s, id)
    ensures var a := Activate(env, s, id);
      && (!a.Dangling? ==>
            (HotBound(a.s) <==> !(|s.hot| == s.hotLimit && FrontStays(env, s) && Admissible(env, s, id, GoesOnAt(env, s)))))
      && (|s.hot| == s.hotLimit && FrontStays(env, s) ==>
            !a.Dangling? && (a.Active? <==> Admissible(env, s, id, GoesOnAt(env, s))))
  {
    hide Inv, EvictHot, Admit, FrontStays, ViewOf;
    var e := EvictHot(env, s, id).s;
    EvictHotLeavesCold(env, s, id, id);
    AdmitPushesOne(env, e, id);
    if |s.hot| < s.hotLimit {
      EvictHotStops(env, s, id);
    } else if FrontStays(env, s) {
      EvictionStuck(env, s, id);
      AdmitActiveIff(env, e, id);
      StillThere(env, e, id);
    } else {
      EvictionMakesRoom(env, s, id);
    }
  }

  lemma StillThere(env: Env, s: State, id: int)
    requires Inv(s) && id in s.sessions && !IsHot(s, id)
    ensures !Admit(env, s, id).Dangling?
  {
    hide Inv;
  }

  lemma EvictionMakesRoom(env: Env, s: State, id: int)
    requires Inv(s) && id in s.sessions && !IsHot(s, id)
    requires |s.hot| == s.hotLimit && s.hot != [] && !FrontStays(env, s)
    ensures var r := EvictHot(env, s, id).s; |r.hot| == |s.hot| - 1 && r.hotLimit == s.hotLimit
  {
    FrontIsVictim(s, id);
    var front := s.hot[0].id;
    OneEviction(env, s, id, front);
    SwapOutSaves(env, s, front);
    SwapOutShrinksHot(env, s, front);
    SwapOutFrame(env, s, front);
    hide Inv, EvictHot, SwapOut, SaveOf;
  }

  /** The next `k` evictions for a new HOT limit all succeed. */
  ghost predicate SavesThrough(env: Env, s: State, k: nat)
    requires Inv(s)
    decreases k
  {
    k == 0 ||
    (var victim := HotVictim(s.hot, -1);
     victim != -1 &&
     (VictimIsHot(s, -1);
      var o := SwapOut(env, s, victim);
      o.ok && SavesThrough(env, o.s, k - 1)))
  }

  /** Eviction for a new limit gets down to it if and only if the saves it takes succeed. */
  lemma {:induction false} EvictHotDownTo(env: Env, s: State)
    requires Inv(s) && s.hotLimit >= 1
    ensures var r := EvictHot(env, s, -1).s;
      && r.hotLimit == s.hotLimit && |r.hot| <= |s.hot|
      && (|r.hot| <= r.hotLimit <==> |s.hot| <= s.hotLimit || SavesThrough(env, s, |s.hot| - s.hotLimit))
    decreases |s.hot|
  {
    hide Inv, SwapOut, SaveOf, HotVictim, EvictHot;
    var victim := EvictHotRound(env, s, -1);
    if victim == -1 {
      VictimAmongTwo(s);
    } else {
      SwapOutFrame(env, s, victim);
      var o := SwapOut(env, s, victim);
      if o.ok {
        EvictHotDownTo(env, o.s);
      } else {
        FailedSwapOutKeepsHot(env, s, victim);
      }
    }
  }

  lemma VictimAmongTwo(s: State)
    requires Inv(s)
    ensures |s.hot| > 1 ==> HotVictim(s.hot, -1) != -1
  {
    if |s.hot| > 1 {
      var v := VictimAt(s, -1);
      assert s.hot[0] in s.hot && s.hot[1] in s.hot;
    }
  }

  /**
   A call that takes the HOT tier above its limit: it makes a COLD session HOT while the tier is full and
   its front cannot be taken out, or it sets a limit below the tier's size and a save on the way down fails.
   */
  ghost predicate Overfills(env: Env, s: State, op: Op)
    requires Inv(s)
  {
    match op
    case Inference(id, _, _) =>
      && id in s.sessions && !IsHot(s, id)
      && |s.hot| == s.hotLimit && s.hot != [] && FrontStays(env, s) && Admissible(env, s, id, GoesOnAt(env, s))
    case HotLimit(count) =>
      var s0 := Limited(s, count);
      |s.hot| > s0.hotLimit && !SavesThrough(env, s0, |s.hot| - s0.hotLimit)
    case _ => false
  }

  lemma TouchKeepsSize(env: Env, s: State, id: int)
    requires Inv(s) && IsHot(s, id)
    ensures var r := TouchHot(env, s, id);
      |r.hot| == |s.hot| && r.hotLimit == s.hotLimit && r.sessions.Keys == s.sessions.Keys
  {
  }

  lemma AdmitPushesOne(env: Env, s: State, id: int)
    requires Inv(s) && !IsHot(s, id)
    ensures var a := Admit(env, s, id);
      !a.Dangling? ==>
        && |a.s.hot| == |s.hot| + (if a.Active? then 1 else 0) && a.s.hotLimit == s.hotLimit
        && a.s.sessions.Keys == s.sessions.Keys
  {
    hide Inv, Erase, PathFor;
  }

  lemma InferHotBound(env: Env, s: State, id: int, prompt: seq<Token>, maxTokens: nat)
    requires Inv(s) && Infer(env, s, id, prompt, maxTokens).Answer?
    ensures var a := Activate(env, s, id); var r := Infer(env, s, id, prompt, maxTokens);
      !a.Dangling? && (HotBound(r.s) <==> HotBound(a.s))
  {
    hide Inv, Activate, Generate;
    var a := Activate(env, s, id);
    if a.Active? {
      ActivateGivesHot(env, s, id);
      GenerateFrame(env, a.s, id, a.ctx, prompt, maxTokens);
    }
  }

  lemma KillHot(s: State, id: int)
    requires Inv(s)
    ensures var r := KillSession(s, id); |r.hot| <= |s.hot| && r.hotLimit == s.hotLimit
  {
    hide Inv, Erase, PathFor;
  }

  lemma InferenceHotBound(env: Env, s: State, op: Op)
    requires Inv(s) && HotBound(s) && op.Inference?
    ensures var a := Activate(env, s, op.id);
      && (!a.Dangling? ==> (HotBound(a.s) <==> !Overfills(env, s, op)))
      && (Overfills(env, s, op) ==> a.Active?)
  {
    hide Inv, EvictHot, Admit, TouchHot, FrontStays, Admissible, GoesOnAt;
    var id := op.id;
    if id in s.sessions && !IsHot(s, id) {
      ActivateHotBound(env, s, id);
    } else if id in s.sessions {
      TouchKeepsSize(env, s, id);
    }
  }

  lemma LimitHotBound(env: Env, s: State, count: nat)
    requires Inv(s)
    ensures HotBound(SetHotLimit(env, s, count)) <==> !Overfills(env, s, HotLimit(count))
  {
    hide Inv, EvictHot, SavesThrough;
    EvictHotDownTo(env, Limited(s, count));
  }

  lemma OthersNeverOverfill(env: Env, s: State, op: Op)
    requires Inv(s) && (op.Create? || op.Kill? || op.ColdLimit?)
    ensures !Overfills(env, s, op)
  {
    hide Inv;
  }

  /** One call breaks the bound if and only if it overfills the HOT tier. */
  lemma ApplyHotBound(env: Env, s: State, op: Op)
    requires Inv(s) && HotBound(s) && Apply(env, s, op).Some?
    ensures HotBound(Apply(env, s, op).value) <==> !Overfills(env, s, op)
  {
    hide Inv, Infer, EvictCold, KillSession, Activate, SetHotLimit, Overfills;
    match op
    case Create(id) => OthersNeverOverfill(env, s, op);
    case Kill(id) =>
      KillHot(s, id);
      OthersNeverOverfill(env, s, op);
    case HotLimit(count) => LimitHotBound(env, s, count);
    case ColdLimit(bytes) =>
      EvictColdLosesOnlyCold(Budgeted(s, bytes), -1);
      OthersNeverOverfill(env, s, op);
    case Inference(id, prompt, maxTokens) =>
      InferenceHotBound(env, s, op);
      InferHotBound(env, s, id, prompt, maxTokens);
  }

  ghost predicate BoundAfter(env: Env, swapDir: string, nCtx: nat, ops: seq<Op>) {
    var r := Exec(env, swapDir, nCtx, ops); r.Live? ==> HotBound(r.s)
  }

  ghost predicate OverfillsAfter(env: Env, swapDir: string, nCtx: nat, ops: seq<Op>, op: Op) {
    var r := Exec(env, swapDir, nCtx, ops); r.Live? && Overfills(env, r.s, op)
  }

  lemma BoundAfterOneMore(env: Env, swapDir: string, nCtx: nat, ops: seq<Op>, op: Op)
    requires BoundAfter(env, swapDir, nCtx, ops)
    ensures BoundAfter(env, swapDir, nCtx, ops + [op]) <==> !OverfillsAfter(env, swapDir, nCtx, ops, op)
  {
    hide Inv, Apply, Noted, HotBound, Overfills;
    var r := Exec(env, swapDir, nCtx, ops);
    ExecOneMore(env, swapDir, nCtx, ops, op);
    if r.Live? {
      if Overfills(env, r.s, op) {
        OverfillingIsDefined(env, r.s, op);
      }
      if Apply(env, r.s, op).Some? {
        ApplyHotBound(env, r.s, op);
      }
    }
  }

  lemma OverfillingIsDefined(env: Env, s: State, op: Op)
    requires Inv(s) && Overfills(env, s, op)
    ensures HotBound(s) ==> Apply(env, s, op).Some?
  {
    if op.Inference? && HotBound(s) {
      InferenceHotBound(env, s, op);
    }
    hide Inv, Activate, Generate, Overfills, SetHotLimit;
  }

  /** After every prefix of the calls. */
  ghost predicate BoundThroughout(env: Env, swapDir: string, nCtx: nat, ops: seq<Op>) {
    forall n :: 0 <= n <= |ops| ==> BoundAfter(env, swapDir, nCtx, ops[..n])
  }

  ghost predicate NeverOverfills(env: Env, swapDir: string, nCtx: nat, ops: seq<Op>) {
    forall n :: 0 <= n < |ops| ==> !OverfillsAfter(env, swapDir, nCtx, ops[..n], ops[n])
  }

  lemma BoundAtStart(env: Env, swapDir: string, nCtx: nat)
    ensures BoundThroughout(env, swapDir, nCtx, []) && NeverOverfills(env, swapDir, nCtx, [])
  {
    hide BoundAfter, OverfillsAfter;
    BoundFresh(env, swapDir, nCtx);
    var none: seq<Op> := [];
    assert none[..0] == none;
  }

  lemma BoundFresh(env: Env, swapDir: string, nCtx: nat)
    ensures BoundAfter(env, swapDir, nCtx, [])
  {
    hide Step, Inv;
  }

  lemma BoundSplits(env: Env, swapDir: string, nCtx: nat, ops: seq<Op>, op: Op)
    ensures BoundThroughout(env, swapDir, nCtx, ops + [op]) <==>
            BoundThroughout(env, swapDir, nCtx, ops) && BoundAfter(env, swapDir, nCtx, ops + [op])
    ensures NeverOverfills(env, swapDir, nCtx, ops + [op]) <==>
            NeverOverfills(env, swapDir, nCtx, ops) && !OverfillsAfter(env, swapDir, nCtx, ops, op)
    ensures BoundThroughout(env, swapDir, nCtx, ops) ==> BoundAfter(env, swapDir, nCtx, ops)
  {
    hide BoundAfter, OverfillsAfter;
    assert ops[..|ops|] == ops;
    var all := ops + [op];
    assert all[..|all|] == all && all[..|ops|] == ops && all[|ops|] == op;
    forall n | 0 <= n <= |ops|
      ensures all[..n] == ops[..n]
    {
    }
  }

  /**
   Whatever fails, the HOT tier stays within its limit throughout a run if and only if no call overfills
   it: makes a COLD session HOT while the tier is full and its front is session -1 or cannot be saved, or
   sets a lower limit and fails to save one of those it has to take out.
   */
  lemma {:induction false} HotBoundInEveryRun(env: Env, swapDir: string, nCtx: nat, ops: seq<Op>)
    ensures BoundThroughout(env, swapDir, nCtx, ops) <==> NeverOverfills(env, swapDir, nCtx, ops)
    decreases |ops|
  {
    hide BoundAfter, OverfillsAfter, BoundThroughout, NeverOverfills;
    if ops == [] {
      BoundAtStart(env, swapDir, nCtx);
    } else {
      var before, op := ops[..|ops| - 1], ops[|ops| - 1];
      HotBoundInEveryRun(env, swapDir, nCtx, before);
      assert ops == before + [op];
      BoundSplits(env, swapDir, nCtx, before, op);
      if BoundThroughout(env, swapDir, nCtx, before) {
        BoundAfterOneMore(env, swapDir, nCtx, before, op);
      }
    }
  }

  /**
   With the HOT tier at its limit, one session is swapped out to make room: its least recently used
   one. A swapped session asked for then dangles if and only if that swap-out succeeds, a context can
   be made, and what was written exceeds the budget together with the session and all younger ones.
   */
  lemma DanglesInAFullTier(env: Env, s: State, j: nat, victim: int)
    requires Inv(s) && |s.hot| == s.hotLimit > 0 && j < |s.cold|
    requires victim == s.hot[0].id && victim != -1 && IsHot(s, victim)
    ensures var v := SaveOf(env, s, victim);
            Activate(env, s, s.cold[j].id).Dangling? <==>
            v.bytes.Some? && env.initOk(SwapOut(env, s, victim).s.w.tick) &&
            SumBytes(s.sessions, s.cold[j..]) + v.bytes.value > s.coldLimit
  {
    var id := s.cold[j].id;
    ColdFacts(s, j);
    FrontIsVictim(s, id);
    SwapOutShrinksHot(env, s, victim);
    SwapOutFrame(env, s, victim);
    DanglesShape(env, s, id);
    SurvivesHotEviction(env, s, id, j);
    OneEviction(env, s, id, victim);
  }

  lemma OneEviction(env: Env, s: State, excludeId: int, victim: int)
    requires Inv(s) && IsHot(s, victim) && victim != -1
    requires |s.hot| == s.hotLimit > 0 && HotVictim(s.hot, excludeId) == victim
    ensures var v := SaveOf(env, s, victim); var e := EvictHot(env, s, excludeId);
      && e.s == SwapOut(env, s, victim).s
      && (if v.bytes.Some? then e.swaps == 1 && e.charged == v.bytes.value else e.swaps == 0)
  {
    SwapOutShrinksHot(env, s, victim);
    SwapOutFrame(env, s, victim);
    SwapOutSaves(env, s, victim);
    hide Inv, SwapOut, SaveOf, HotVictim;
    var o := SwapOut(env, s, victim);
    if o.ok {
      assert EvictHot(env, o.s, excludeId) == HotEviction(o.s, 0, 0, false, []);
    }
  }

  lemma SwapOutSaves(env: Env, s: State, id: int)
    requires Inv(s) && IsHot(s, id)
    ensures SwapOut(env, s, id).ok <==> SaveOf(env, s, id).bytes.Some?
  {
  }

  // ---- LRU order ----

  lemma CreateOrdered(env: Env, s: State, id: int)
    requires MonotoneClock(env) && Inv(s) && Ordered(env, s)
    ensures Ordered(env, CreateSession(env, s, id))
  {
  }

  lemma LimitOrdered(env: Env, s: State, r: State)
    requires Ordered(env, s) && r.sessions == s.sessions && r.hot == s.hot && r.cold == s.cold && r.w == s.w
    ensures Ordered(env, r)
  {
  }

  /** A new HOT limit that takes somebody out who was used later than a HOT session -1. */
  ghost predicate Disorders(s: State, op: Op)
    requires Inv(s)
  {
    op.HotLimit? && !SkipsNoOlder(Limited(s, op.count), -1)
  }

  /** One call keeps the order unless it is such a new limit; while saves succeed that one breaks it. */
  lemma ApplyOrdered(env: Env, s: State, op: Op)
    requires MonotoneClock(env) && Inv(s) && Ordered(env, s) && Apply(env, s, op).Some?
    ensures !Disorders(s, op) ==> Ordered(env, Apply(env, s, op).value)
    ensures SavesNeverFail(env) && Disorders(s, op) ==> !Ordered(env, Apply(env, s, op).value)
  {
    hide Inv, Ordered, Infer, EvictCold, KillSession, CreateSession, SetHotLimit, SkipsNoOlder;
    match op
    case Create(id) => CreateOrdered(env, s, id);
    case Kill(id) => KillOrdered(env, s, id);
    case HotLimit(count) => SetHotLimitOrdered(env, s, count);
    case ColdLimit(bytes) =>
      LimitOrdered(env, s, Budgeted(s, bytes));
      EvictColdOrdered(env, Budgeted(s, bytes), -1);
    case Inference(id, prompt, maxTokens) => InferOrdered(env, s, id, prompt, maxTokens);
  }

  ghost predicate OrderedAfter(env: Env, swapDir: string, nCtx: nat, ops: seq<Op>) {
    var r := Exec(env, swapDir, nCtx, ops); r.Live? ==> Ordered(env, r.s)
  }

  ghost predicate DisordersAfter(env: Env, swapDir: string, nCtx: nat, ops: seq<Op>, op: Op) {
    var r := Exec(env, swapDir, nCtx, ops); r.Live? && Disorders(r.s, op)
  }

  lemma OrderedAfterOneMore(env: Env, swapDir: string, nCtx: nat, ops: seq<Op>, op: Op)
    requires MonotoneClock(env) && OrderedAfter(env, swapDir, nCtx, ops)
    ensures !DisordersAfter(env, swapDir, nCtx, ops, op) ==> OrderedAfter(env, swapDir, nCtx, ops + [op])
    ensures SavesNeverFail(env) && DisordersAfter(env, swapDir, nCtx, ops, op) ==>
            !OrderedAfter(env, swapDir, nCtx, ops + [op])
  {
    hide Inv, Noted, Ordered, Infer, EvictCold, KillSession, CreateSession, SetHotLimit, SkipsNoOlder;
    var r := Exec(env, swapDir, nCtx, ops);
    ExecOneMore(env, swapDir, nCtx, ops, op);
    if r.Live? && Apply(env, r.s, op).Some? {
      ApplyOrdered(env, r.s, op);
    }
  }

  /** After every prefix of the calls. */
  ghost predicate OrderedThroughout(env: Env, swapDir: string, nCtx: nat, ops: seq<Op>) {
    forall n :: 0 <= n <= |ops| ==> OrderedAfter(env, swapDir, nCtx, ops[..n])
  }

  ghost predicate NeverDisorders(env: Env, swapDir: string, nCtx: nat, ops: seq<Op>) {
    forall n :: 0 <= n < |ops| ==> !DisordersAfter(env, swapDir, nCtx, ops[..n], ops[n])
  }

  lemma OrderedAtStart(env: Env, swapDir: string, nCtx: nat)
    ensures OrderedThroughout(env, swapDir, nCtx, []) && NeverDisorders(env, swapDir, nCtx, [])
  {
    hide OrderedAfter, DisordersAfter;
    OrderedFresh(env, swapDir, nCtx);
    var none: seq<Op> := [];
    assert none[..0] == none;
  }

  lemma OrderedFresh(env: Env, swapDir: string, nCtx: nat)
    ensures OrderedAfter(env, swapDir, nCtx, [])
  {
    hide Step, Inv;
  }

  lemma OrderSplits(env: Env, swapDir: string, nCtx: nat, ops: seq<Op>, op: Op)
    ensures OrderedThroughout(env, swapDir, nCtx, ops + [op]) <==>
            OrderedThroughout(env, swapDir, nCtx, ops) && OrderedAfter(env, swapDir, nCtx, ops + [op])
    ensures NeverDisorders(env, swapDir, nCtx, ops + [op]) <==>
            NeverDisorders(env, swapDir, nCtx, ops) && !DisordersAfter(env, swapDir, nCtx, ops, op)
    ensures OrderedThroughout(env, swapDir, nCtx, ops) ==> OrderedAfter(env, swapDir, nCtx, ops)
  {
    hide OrderedAfter, DisordersAfter;
    assert ops[..|ops|] == ops;
    var all := ops + [op];
    assert all[..|all|] == all && all[..|ops|] == ops && all[|ops|] == op;
    forall n | 0 <= n <= |ops|
      ensures all[..n] == ops[..n]
    {
    }
  }

  /**
   With a clock that never runs backwards, the COLD list followed by the HOT list is sorted by time of
   last use throughout a run, whatever fails, if no new HOT limit takes somebody out who was used later
   than a HOT session -1; while saves succeed, only then.
   */
  lemma {:induction false} LruOrderInEveryRun(env: Env, swapDir: string, nCtx: nat, ops: seq<Op>)
    requires MonotoneClock(env)
    ensures NeverDisorders(env, swapDir, nCtx, ops) ==> OrderedThroughout(env, swapDir, nCtx, ops)
    ensures SavesNeverFail(env) && OrderedThroughout(env, swapDir, nCtx, ops) ==> NeverDisorders(env, swapDir, nCtx, ops)
    decreases |ops|
  {
    hide OrderedAfter, DisordersAfter, OrderedThroughout, NeverDisorders, MonotoneClock, SavesNeverFail;
    if ops == [] {
      OrderedAtStart(env, swapDir, nCtx);
    } else {
      var before, op := ops[..|ops| - 1], ops[|ops| - 1];
      LruOrderInEveryRun(env, swapDir, nCtx, before);
      assert ops == before + [op];
      OrderSplits(env, swapDir, nCtx, before, op);
      if OrderedThroughout(env, swapDir, nCtx, before) {
        OrderedAfterOneMore(env, swapDir, nCtx, before, op);
      }
    }
  }

  // ---- swap files ----

  ghost predicate FileOf(s: State, id: int, path: string) {
    IsSwapped(s, id) && PathFor(s.swapDir, id) == path
  }

  /** Every swap file belongs to a swapped session. */
  ghost predicate NoStrayFiles(s: State) {
    forall p :: p in s.w.files ==> exists id :: FileOf(s, id, p)
  }

  lemma KillKeepsOwner(s: State, id: int, k: int, p: string)
    requires Inv(s) && FileOf(s, k, p) && p in KillSession(s, id).w.files
    ensures FileOf(KillSession(s, id), k, p)
  {
  }

  lemma KillLeavesNoStray(s: State, id: int)
    requires Inv(s) && NoStrayFiles(s)
    ensures NoStrayFiles(KillSession(s, id))
  {
    var r := KillSession(s, id);
    assert forall p :: p in r.w.files ==> p in s.w.files;
    forall p | p in r.w.files
      ensures exists k :: FileOf(r, k, p)
    {
      hide Inv, KillSession, FileOf;
      var k :| FileOf(s, k, p);
      KillKeepsOwner(s, id, k, p);
    }
  }

  lemma {:induction false} EvictColdLeavesNoStray(s: State, excludeId: int)
    requires Inv(s) && NoStrayFiles(s)
    ensures NoStrayFiles(EvictCold(s, excludeId))
    decreases |s.cold|
  {
    hide Inv, NoStrayFiles, KillSession;
    if s.coldUsed <= s.coldLimit || s.cold == [] {
    } else if s.cold[0].id == excludeId && |s.cold| == 1 {
    } else {
      var victim := if s.cold[0].id == excludeId then s.cold[1].id else s.cold[0].id;
      KillColdVictim(s, victim);
      KillLeavesNoStray(s, victim);
      EvictColdLeavesNoStray(KillSession(s, victim), excludeId);
      assert EvictCold(s, excludeId) == EvictCold(KillSession(s, victim), excludeId);
    }
  }

  lemma DemotedFiles(env: Env, s: State, id: int)
    requires Inv(s) && IsHot(s, id) && SaveOf(env, s, id).bytes.Some?
    ensures var t := Demoted(env, s, id); var path := PathFor(s.swapDir, id);
      && FileOf(t, id, path)
      && (forall p :: p in t.w.files && p != path ==> p in s.w.files)
      && (forall k, p :: FileOf(s, k, p) ==> FileOf(t, k, p))
  {
    AfterSaveFiles(env, s, id);
    var b := SaveOf(env, s, id).bytes.value;
    var s1 := AfterSave(env, s, id);
    DemoteFiles(s1, id, b);
    assert Demoted(env, s, id) == Demote(s1, id, b);
    hide *;
    forall k, p | FileOf(s, k, p)
      ensures FileOf(Demoted(env, s, id), k, p)
    {
      assert FileOf(s1, k, p);
    }
  }

  lemma DemoteFiles(s: State, id: int, bytes: nat)
    requires Inv(s) && IsHot(s, id)
    ensures var t := Demote(s, id, bytes);
      && FileOf(t, id, PathFor(s.swapDir, id))
      && t.w.files == s.w.files
      && (forall k, p :: FileOf(s, k, p) ==> FileOf(t, k, p))
  {
  }

  lemma AfterSaveFiles(env: Env, s: State, id: int)
    requires Inv(s) && IsHot(s, id)
    ensures var r := AfterSave(env, s, id);
      && r.swapDir == s.swapDir
      && (forall p :: p in r.w.files && p != PathFor(s.swapDir, id) ==> p in s.w.files)
      && (forall k, p :: FileOf(s, k, p) ==> FileOf(r, k, p))
  {
  }

  lemma SwapOutLeavesNoStray(env: Env, s: State, id: int)
    requires Inv(s) && IsHot(s, id) && NoStrayFiles(s) && SavesNeverFail(env)
    ensures NoStrayFiles(SwapOut(env, s, id).s)
  {
    hide Inv, SaveOf, FileOf, SwapOut;
    if SwapOut(env, s, id).ok {
      SwapOutShrinksHot(env, s, id);
      DemotedFiles(env, s, id);
      var t := Demoted(env, s, id);
      forall p | p in t.w.files
        ensures exists k :: FileOf(t, k, p)
      {
        if p != PathFor(s.swapDir, id) {
          var k :| FileOf(s, k, p);
        }
      }
      EvictColdLeavesNoStray(t, id);
    } else {
      SwapOutFailsOnlyOnSave(env, s, id);
    }
  }

  lemma {:induction false} EvictHotLeavesNoStray(env: Env, s: State, excludeId: int)
    requires Inv(s) && NoStrayFiles(s) && SavesNeverFail(env)
    ensures NoStrayFiles(EvictHot(env, s, excludeId).s)
    decreases |s.hot|
  {
    hide Inv, SwapOut, SaveOf, NoStrayFiles;
    if |s.hot| < s.hotLimit || s.hot == [] {
    } else {
      var victim := HotVictim(s.hot, excludeId);
      if victim != -1 {
        VictimIsHot(s, excludeId);
        SwapOutLeavesNoStray(env, s, victim);
        SwapOutShrinksHot(env, s, victim);
        if SwapOut(env, s, victim).ok {
          EvictHotLeavesNoStray(env, SwapOut(env, s, victim).s, excludeId);
        }
      }
    }
  }

  lemma AdmitKeepsOwner(env: Env, s: State, id: int, k: int, p: string)
    requires Inv(s) && !IsHot(s, id) && !Admit(env, s, id).Dangling?
    requires FileOf(s, k, p) && p in Admit(env, s, id).s.w.files
    ensures FileOf(Admit(env, s, id).s, k, p)
  {
  }

  lemma AdmitAddsNoFile(env: Env, s: State, id: int)
    requires Inv(s) && !IsHot(s, id) && !Admit(env, s, id).Dangling?
    ensures Admit(env, s, id).s.w.files.Keys <= s.w.files.Keys
  {
    hide Inv, Erase, PathFor;
  }

  lemma AdmitLeavesNoStray(env: Env, s: State, id: int)
    requires Inv(s) && !IsHot(s, id) && NoStrayFiles(s) && !Admit(env, s, id).Dangling?
    ensures NoStrayFiles(Admit(env, s, id).s)
  {
    hide Inv, Admit, FileOf;
    var r := Admit(env, s, id).s;
    AdmitAddsNoFile(env, s, id);
    forall p | p in r.w.files
      ensures exists k :: FileOf(r, k, p)
    {
      var k :| FileOf(s, k, p);
      AdmitKeepsOwner(env, s, id, k, p);
    }
  }

  lemma SameFilesNoStray(s: State, r: State)
    requires NoStrayFiles(s) && r.w.files == s.w.files && r.swapDir == s.swapDir
    requires forall k :: IsSwapped(s, k) ==> IsSwapped(r, k)
    ensures NoStrayFiles(r)
  {
    forall p | p in r.w.files
      ensures exists k :: FileOf(r, k, p)
    {
      var k :| FileOf(s, k, p);
      assert FileOf(r, k, p);
    }
  }

  lemma ActivateLeavesNoStray(env: Env, s: State, id: int)
    requires Inv(s) && NoStrayFiles(s) && SavesNeverFail(env)
    ensures !Activate(env, s, id).Dangling? ==> NoStrayFiles(Activate(env, s, id).s)
  {
    hide NoStrayFiles;
    if id in s.sessions && !IsHot(s, id) {
      EvictHotLeavesCold(env, s, id, id);
      EvictHotLeavesNoStray(env, s, id);
      if !Activate(env, s, id).Dangling? {
        AdmitLeavesNoStray(env, EvictHot(env, s, id).s, id);
      }
    } else if id in s.sessions {
      SameFilesNoStray(s, TouchHot(env, s, id));
    }
  }

  lemma InferLeavesNoStray(env: Env, s: State, id: int, prompt: seq<Token>, maxTokens: nat)
    requires Inv(s) && NoStrayFiles(s) && SavesNeverFail(env)
    ensures Infer(env, s, id, prompt, maxTokens).Answer? ==> NoStrayFiles(Infer(env, s, id, prompt, maxTokens).s)
  {
    hide Inv, NoStrayFiles, Activate, Generate;
    ActivateLeavesNoStray(env, s, id);
    var a := Activate(env, s, id);
    if a.Active? {
      ActivateGivesHot(env, s, id);
      GenerateFrame(env, a.s, id, a.ctx, prompt, maxTokens);
      SameFilesNoStray(a.s, Generate(env, a.s, id, a.ctx, prompt, maxTokens).s);
    }
  }

  lemma ApplyLeavesNoStray(env: Env, s: State, op: Op)
    requires Inv(s) && NoStrayFiles(s) && SavesNeverFail(env)
    ensures Apply(env, s, op).Some? ==> NoStrayFiles(Apply(env, s, op).value)
  {
    hide Inv, NoStrayFiles, Infer, EvictHot, EvictCold, KillSession;
    match op
    case Create(id) => SameFilesNoStray(s, CreateSession(env, s, id));
    case Kill(id) => KillLeavesNoStray(s, id);
    case HotLimit(count) =>
      SameFilesNoStray(s, Limited(s, count));
      EvictHotLeavesNoStray(env, Limited(s, count), -1);
    case ColdLimit(bytes) =>
      SameFilesNoStray(s, Budgeted(s, bytes));
      EvictColdLeavesNoStray(Budgeted(s, bytes), -1);
    case Inference(id, prompt, maxTokens) => InferLeavesNoStray(env, s, id, prompt, maxTokens);
  }

  lemma {:induction false} NoStrayFilesInEveryRun(env: Env, swapDir: string, nCtx: nat, ops: seq<Op>)
    requires SavesNeverFail(env)
    requires Exec(env, swapDir, nCtx, ops).Live?
    ensures NoStrayFiles(Exec(env, swapDir, nCtx, ops).s)
    decreases |ops|
  {
    if ops == [] {
    } else {
      hide Inv, Apply, Noted, NoStrayFiles;
      var r := Exec(env, swapDir, nCtx, ops[..|ops| - 1]);
      NoStrayFilesInEveryRun(env, swapDir, nCtx, ops[..|ops| - 1]);
      ApplyLeavesNoStray(env, r.s, ops[|ops| - 1]);
    }
  }

  /** While saves succeed, the swap files in existence are exactly those of the swapped sessions. */
  lemma SwapFilesMatchSessions(env: Env, swapDir: string, nCtx: nat, ops: seq<Op>, path: string)
    requires SavesNeverFail(env)
    requires Exec(env, swapDir, nCtx, ops).Live?
    ensures var s := Exec(env, swapDir, nCtx, ops).s;
            path in s.w.files <==> exists id :: FileOf(s, id, path)
  {
    var s := Exec(env, swapDir, nCtx, ops).s;
    NoStrayFilesInEveryRun(env, swapDir, nCtx, ops);
    if id :| FileOf(s, id, path) {
      SwappedFacts(s, id);
    }
  }
}
