/**
 What each method of `SessionManager` does to the state, as functions.

 The class in SessionManager.dfy is proved to do exactly this, so everything proved
 about these functions is proved about it.
 */
module SessionSpec {
  import opened Wrappers
  import opened Foreign
  import opened LruList
  import opened SessionState

  ghost predicate IsHot(s: State, id: int) {
    id in s.sessions && s.sessions[id].tier.HOT?
  }

  ghost predicate IsSwapped(s: State, id: int) {
    id in s.sessions && s.sessions[id].Place() == InColdList
  }

  lemma HotFacts(s: State, id: int)
    requires Inv(s) && IsHot(s, id)
    ensures Has(s.hot, s.sessions[id].lruIt)
    ensures s.sessions[id].ctx.Some? && s.sessions[id].ctx.value in s.w.ctxs
  {
    ListRemove(s.sessions, s.sessions - {id}, s.hot, InHotList, id);
    assert Owns(s.sessions, id, s.sessions[id].ctx.value);
  }

  lemma SwappedFacts(s: State, id: int)
    requires Inv(s) && IsSwapped(s, id)
    ensures Has(s.cold, s.sessions[id].lruIt)
    ensures s.sessions[id].swapFilePath == PathFor(s.swapDir, id)
  {
  }

  /** Live contexts and HOT sessions match one to one. */
  lemma LiveContextsAreOwned(s: State)
    requires Inv(s)
    ensures forall id, c :: Owns(s.sessions, id, c) ==> c in s.w.ctxs && s.sessions[id].tier.HOT?
    ensures forall c :: c in s.w.ctxs ==> exists id :: Owns(s.sessions, id, c)
    ensures forall a, b, c :: Owns(s.sessions, a, c) && Owns(s.sessions, b, c) ==> a == b
  {
  }

  lemma EntryId(s: State, id: int)
    requires Inv(s) && id in s.sessions
    ensures s.sessions[id].id == id
  {
  }

  /** The bytes of a swapped session are part of the counter, so subtracting them cannot underflow. */
  lemma SwappedBytes(s: State, id: int)
    requires Inv(s) && IsSwapped(s, id)
    ensures s.sessions[id].swapFileBytes <= s.coldUsed
  {
    var it := s.sessions[id].lruIt;
    ListRemove(s.sessions, s.sessions - {id}, s.cold, InColdList, id);
    SumErase(s.sessions, s.cold, it);
  }

  // ---- createSession, killSession ----

  function CreateSession(env: Env, s: State, id: int): (r: State)
    requires Inv(s)
  {
    if id in s.sessions then s
    else
      var (w1, now) := NowMs(env, s.w);
      s.(w := w1, sessions := s.sessions[id := Meta(id, COLD, None, [], "", 0, now, 0)])
  }

  function KillSession(s: State, id: int): (r: State)
    requires Inv(s)
  {
    if id !in s.sessions then s
    else
      var m := s.sessions[id];
      if m.tier.HOT? then
        HotFacts(s, id);
        s.(sessions := s.sessions - {id}, hot := Erase(s.hot, m.lruIt), w := FreeContext(s.w, m.ctx.value))
      else if m.swapFilePath != "" then
        SwappedFacts(s, id);
        s.(sessions := s.sessions - {id}, cold := Erase(s.cold, m.lruIt),
           coldUsed := s.coldUsed - m.swapFileBytes, w := RemoveFile(s.w, m.swapFilePath))
      else
        s.(sessions := s.sessions - {id})
  }

  // ---- touchHot, recordTokens ----

  function TouchHot(env: Env, s: State, id: int): (r: State)
    requires Inv(s) && IsHot(s, id)
  {
    HotFacts(s, id);
    var m := s.sessions[id];
    var (w1, now) := NowMs(env, s.w);
    s.(w := w1,
       hot := Erase(s.hot, m.lruIt) + [Node(s.nextIt, id)],
       nextIt := s.nextIt + 1,
       sessions := s.sessions[id := m.(lruIt := s.nextIt, lastUsedMs := now)])
  }

  function RecordTokens(env: Env, s: State, id: int, tokens: seq<Token>): (r: State)
    requires Inv(s)
  {
    if id !in s.sessions then s
    else
      var m := s.sessions[id];
      var s1 := s.(sessions := s.sessions[id := m.(tokens := m.tokens + tokens)]);
      RecordKeepsInv(s, id, tokens);
      if m.tier.HOT? then TouchHot(env, s1, id) else s1
  }

  lemma RecordKeepsInv(s: State, id: int, tokens: seq<Token>)
    requires Inv(s) && id in s.sessions
    ensures Inv(s.(sessions := s.sessions[id := s.sessions[id].(tokens := s.sessions[id].tokens + tokens)]))
  {
    TokensKeepInv(s, id, s.sessions[id].tokens + tokens);
  }

  /** No part of the invariant depends on a session's token vector. */
  lemma TokensKeepInv(s: State, id: int, tokens: seq<Token>)
    requires Inv(s) && id in s.sessions
    ensures Inv(s.(sessions := s.sessions[id := s.sessions[id].(tokens := tokens)]))
  {
    var ss := s.sessions;
    var tt := ss[id := ss[id].(tokens := tokens)];
    ListSame(ss, tt, s.hot, InHotList, id);
    ListSame(ss, tt, s.cold, InColdList, id);
    ContextsKeep(ss, tt, s.w, s.w, id);
    SumSame(ss, tt, s.cold);
  }

  lemma {:induction false} SumSame(ss: Sessions, tt: Sessions, l: seq<Node>)
    requires forall n :: n in l ==> BytesOf(ss, n.id) == BytesOf(tt, n.id)
    ensures SumBytes(ss, l) == SumBytes(tt, l)
  {
    if l == [] {
    } else {
      assert l[0] in l;
      SumSame(ss, tt, l[1..]);
    }
  }

  // ---- pruneOldestTokens and the save loop of swapOut ----

  /** How many tokens one round of the save loop drops from a history of `n`. */
  function RemoveCount(n: nat): (k: nat)
    requires n > MIN_KEEP_TOKENS
    ensures 1 <= k <= n - MIN_KEEP_TOKENS
  {
    var quarter := if n / 4 < 1 then 1 else n / 4;
    if quarter < n - MIN_KEEP_TOKENS then quarter else n - MIN_KEEP_TOKENS
  }

  /** The cache side of one prune: the removal may be refused, the rest moves down in any case. */
  function PruneCells(cells: seq<Cell>, n: nat, refused: bool): seq<Cell> {
    SeqAdd(if refused then cells else SeqRm(cells, 0, n), n, -1, 0 - n)
  }

  datatype Pruned = Pruned(w: World, tokens: seq<Token>, refused: bool)

  /** `pruneOldestTokens`: nobody looks at the answer of `llama_memory_seq_rm`. */
  function Prune(env: Env, w: World, ctx: CtxId, tokens: seq<Token>, n: nat): (r: Pruned)
    requires ctx in w.ctxs
    ensures r.w.ctxs.Keys == w.ctxs.Keys && r.w.nextCtx == w.nextCtx && r.w.files == w.files
    ensures forall c :: c in w.ctxs && c != ctx ==> r.w.ctxs[c] == w.ctxs[c]
    ensures 0 < n < |tokens| ==> r.tokens == tokens[n..] && r.w.ctxs[ctx] == PruneCells(w.ctxs[ctx], n, r.refused)
  {
    if n == 0 || n >= |tokens| then Pruned(w, tokens, false)
    else
      var (w1, removed) := RemoveRange(env, w, ctx, 0, n);
      Pruned(ShiftRange(w1, ctx, n, -1, 0 - n), tokens[n..], !removed)
  }

  /** One prune of the save loop: how many tokens, and whether the cache refused to remove them. */
  datatype Round = Round(n: nat, refused: bool)

  /** How many tokens the rounds drop together. */
  function Total(rounds: seq<Round>): nat {
    if rounds == [] then 0 else rounds[0].n + Total(rounds[1..])
  }

  /** Outcome of the save loop; `bytes` is absent when a save failed, `rounds` are its prunes in order. */
  datatype Saved = Saved(w: World, tokens: seq<Token>, bytes: Option<nat>, rounds: seq<Round>)

  function SaveLoop(env: Env, w: World, ctx: CtxId, path: string, tokens: seq<Token>, used: int, limit: nat): (r: Saved)
    requires ctx in w.ctxs
    ensures r.w.ctxs.Keys == w.ctxs.Keys && r.w.nextCtx == w.nextCtx
    ensures forall c :: c in w.ctxs && c != ctx ==> r.w.ctxs[c] == w.ctxs[c]
    ensures forall p :: p != path ==>
              (p in w.files <==> p in r.w.files) && (p in w.files ==> r.w.files[p] == w.files[p])
    ensures r.bytes.Some? ==> path in r.w.files && r.w.files[path] == SwapFile(r.w.ctxs[ctx], r.tokens)
    decreases |tokens|
  {
    var (w1, ok) := SaveFile(env, w, ctx, path, tokens);
    if !ok then Saved(w1, tokens, None, [])
    else
      var (w2, bytes) := StateSize(env, w1);
      if bytes + used <= limit || |tokens| <= MIN_KEEP_TOKENS then Saved(w2, tokens, Some(bytes), [])
      else
        var n := RemoveCount(|tokens|);
        var p := Prune(env, w2, ctx, tokens, n);
        var r := SaveLoop(env, p.w, ctx, path, p.tokens, used, limit);
        r.(rounds := [Round(n, p.refused)] + r.rounds)
  }

  /** One round of the save loop, for use where `SaveLoop` itself is hidden. */
  lemma SaveLoopRound(env: Env, w: World, ctx: CtxId, path: string, tokens: seq<Token>, used: int, limit: nat)
    returns (goesOn: bool, p: Pruned)
    requires ctx in w.ctxs
    ensures goesOn <==> env.saveOk(w.tick) && env.stateSize(w.tick + 1) + used > limit && |tokens| > MIN_KEEP_TOKENS
    ensures goesOn ==> var n := RemoveCount(|tokens|);
      && p == Prune(env, StateSize(env, SaveFile(env, w, ctx, path, tokens).0).0, ctx, tokens, n)
      && p.tokens == tokens[n..] && ctx in p.w.ctxs && p.w.tick == w.tick + 3
      && p.w.ctxs[ctx] == PruneCells(w.ctxs[ctx], n, p.refused)
      && var r := SaveLoop(env, p.w, ctx, path, p.tokens, used, limit);
         SaveLoop(env, w, ctx, path, tokens, used, limit) == r.(rounds := [Round(n, p.refused)] + r.rounds)
    ensures !goesOn ==> var r := SaveLoop(env, w, ctx, path, tokens, used, limit);
      && r.rounds == [] && r.tokens == tokens && r.w.ctxs == w.ctxs && r.w.tick >= w.tick
      && r.bytes == (if env.saveOk(w.tick) then Some(env.stateSize(w.tick + 1)) else None)
  {
    hide PruneCells, Prune, SaveLoop;
    SaveLoopUnfolds(env, w, ctx, path, tokens, used, limit);
    goesOn := env.saveOk(w.tick) && env.stateSize(w.tick + 1) + used > limit && |tokens| > MIN_KEEP_TOKENS;
    var w2 := StateSize(env, SaveFile(env, w, ctx, path, tokens).0).0;
    p := Pruned(w, [], false);
    if goesOn {
      p := Prune(env, w2, ctx, tokens, RemoveCount(|tokens|));
      PruneTakesTick(env, w2, ctx, tokens, RemoveCount(|tokens|));
    }
  }

  lemma PruneTakesTick(env: Env, w: World, ctx: CtxId, tokens: seq<Token>, n: nat)
    requires ctx in w.ctxs && 0 < n < |tokens|
    ensures Prune(env, w, ctx, tokens, n).w.tick == w.tick + 1
  {
  }

  lemma SaveLoopUnfolds(env: Env, w: World, ctx: CtxId, path: string, tokens: seq<Token>, used: int, limit: nat)
    requires ctx in w.ctxs
    ensures var (w1, ok) := SaveFile(env, w, ctx, path, tokens);
            var (w2, bytes) := StateSize(env, w1);
            SaveLoop(env, w, ctx, path, tokens, used, limit) ==
              if !ok then Saved(w1, tokens, None, [])
              else if bytes + used <= limit || |tokens| <= MIN_KEEP_TOKENS then Saved(w2, tokens, Some(bytes), [])
              else
                var n := RemoveCount(|tokens|);
                var p := Prune(env, w2, ctx, tokens, n);
                var r := SaveLoop(env, p.w, ctx, path, p.tokens, used, limit);
                r.(rounds := [Round(n, p.refused)] + r.rounds)
  {
    hide Prune;
  }

  /** The save loop as `swapOut` enters it for session `id`. */
  function SaveOf(env: Env, s: State, id: int): Saved
    requires Inv(s) && IsHot(s, id)
  {
    HotFacts(s, id);
    var m := s.sessions[id];
    SaveLoop(env, s.w, m.ctx.value, PathFor(s.swapDir, id), m.tokens, s.coldUsed, s.coldLimit)
  }

  /** State after the save loop: the victim is still HOT, with what the loop left of it. */
  function AfterSave(env: Env, s: State, id: int): (r: State)
    requires Inv(s) && IsHot(s, id)
    ensures Inv(r) && IsHot(r, id)
  {
    var v := SaveOf(env, s, id);
    TokensKeepInv(s, id, v.tokens);
    var s1 := s.(sessions := s.sessions[id := s.sessions[id].(tokens := v.tokens)]);
    WorldKeepsInv(s1, v.w, id);
    s1.(w := v.w)
  }

  /** Foreign calls made for one HOT session keep the invariant. */
  lemma WorldKeepsInv(s: State, w1: World, id: int)
    requires Inv(s) && IsHot(s, id)
    requires w1.ctxs.Keys == s.w.ctxs.Keys && w1.nextCtx == s.w.nextCtx
    requires forall p :: p != PathFor(s.swapDir, id) ==>
             (p in s.w.files <==> p in w1.files) && (p in s.w.files ==> w1.files[p] == s.w.files[p])
    ensures Inv(s.(w := w1))
  {
    ContextsKeep(s.sessions, s.sessions, s.w, w1, id);
    SwapsOther(s.sessions, s.sessions, s.w, w1, s.swapDir, id);
  }

  /** The victim moves from the HOT list to the end of the COLD list and gives up its context. */
  function Demote(s: State, id: int, bytes: nat): (r: State)
    requires Inv(s) && IsHot(s, id)
  {
    HotFacts(s, id);
    var m := s.sessions[id];
    s.(w := FreeContext(s.w, m.ctx.value),
       hot := Erase(s.hot, m.lruIt),
       cold := s.cold + [Node(s.nextIt, id)],
       nextIt := s.nextIt + 1,
       coldUsed := s.coldUsed + bytes,
       sessions := s.sessions[id := m.(ctx := None, tier := COLD, swapFilePath := PathFor(s.swapDir, id),
                                       swapFileBytes := bytes, lruIt := s.nextIt)])
  }

  // ---- evictColdIfNeeded ----

  function EvictCold(s: State, excludeId: int): (r: State)
    requires Inv(s)
    ensures Inv(r)
    ensures r.coldUsed <= r.coldLimit || |r.cold| <= 1
    decreases |s.cold|
  {
    if s.coldUsed <= s.coldLimit || s.cold == [] then s
    else if s.cold[0].id == excludeId && |s.cold| == 1 then s
    else
      var victim := if s.cold[0].id == excludeId then s.cold[1].id else s.cold[0].id;
      KillColdVictim(s, victim);
      EvictCold(KillSession(s, victim), excludeId)
  }

  /** Killing a listed COLD session takes the branch that shortens the COLD list. */
  lemma KillColdVictim(s: State, id: int)
    requires Inv(s) && exists n :: n in s.cold && n.id == id
    ensures IsSwapped(s, id)
    ensures Inv(KillSession(s, id))
    ensures |KillSession(s, id).cold| == |s.cold| - 1
  {
    KillKeepsInv(s, id);
  }

  // ---- swapOut, evictHotIfNeeded ----

  datatype SwapOutcome = SwapOutcome(s: State, ok: bool)

  function SwapOut(env: Env, s: State, id: int): (r: SwapOutcome)
    requires Inv(s) && IsHot(s, id)
    ensures Inv(r.s)
  {
    var v := SaveOf(env, s, id);
    var s1 := AfterSave(env, s, id);
    if v.bytes.None? then SwapOutcome(s1, false)
    else
      DemoteKeepsInv(s1, id, v.bytes.value);
      SwapOutcome(EvictCold(Demote(s1, id, v.bytes.value), id), true)
  }

  /** First HOT session that is not `excludeId`, or -1. */
  function HotVictim(hot: seq<Node>, excludeId: int): (victim: int)
    ensures victim != -1 ==> victim != excludeId && exists n :: n in hot && n.id == victim
  {
    if hot == [] then -1
    else if hot[0].id != excludeId then hot[0].id
    else HotVictim(hot[1..], excludeId)
  }

  lemma VictimIsHot(s: State, excludeId: int)
    requires Inv(s) && HotVictim(s.hot, excludeId) != -1
    ensures IsHot(s, HotVictim(s.hot, excludeId))
  {
  }

  /** The prunes of one victim. */
  datatype Pruning = Pruning(id: int, rounds: seq<Round>)

  /**
   `charged` adds up what the `swaps` successful swap-outs wrote; `failed` tells a swap-out failed;
   `log` lists every victim with its prunes.
   */
  datatype HotEviction = HotEviction(s: State, swaps: nat, charged: nat, failed: bool, log: seq<Pruning>)

  function EvictHot(env: Env, s: State, excludeId: int): (r: HotEviction)
    requires Inv(s)
    ensures Inv(r.s)
    decreases |s.hot|
  {
    if |s.hot| < s.hotLimit || s.hot == [] then HotEviction(s, 0, 0, false, [])
    else
      var victim := HotVictim(s.hot, excludeId);
      if victim == -1 then HotEviction(s, 0, 0, false, [])
      else
        var o := SwapOut(env, s, victim);
        var v := SaveOf(env, s, victim);
        if !o.ok then HotEviction(o.s, 0, 0, true, [Pruning(victim, v.rounds)])
        else
          SwapOutShrinksHot(env, s, victim);
          var r := EvictHot(env, o.s, excludeId);
          r.(swaps := r.swaps + 1, charged := r.charged + v.bytes.value, log := [Pruning(victim, v.rounds)] + r.log)
  }

  /** One round of HOT eviction, for use where `EvictHot` itself is hidden. */
  lemma EvictHotRound(env: Env, s: State, excludeId: int) returns (victim: int)
    requires Inv(s)
    ensures victim == if |s.hot| < s.hotLimit || s.hot == [] then -1 else HotVictim(s.hot, excludeId)
    ensures victim == -1 ==> EvictHot(env, s, excludeId) == HotEviction(s, 0, 0, false, [])
    ensures victim != -1 ==>
      && IsHot(s, victim) && victim != excludeId
      && var o := SwapOut(env, s, victim); var v := SaveOf(env, s, victim);
      && (if o.ok then
            && |o.s.hot| == |s.hot| - 1 && v.bytes.Some?
            && var r := EvictHot(env, o.s, excludeId);
               EvictHot(env, s, excludeId) ==
                 r.(swaps := r.swaps + 1, charged := r.charged + v.bytes.value, log := [Pruning(victim, v.rounds)] + r.log)
          else EvictHot(env, s, excludeId) == HotEviction(o.s, 0, 0, true, [Pruning(victim, v.rounds)]))
  {
    hide Inv, SwapOut, SaveOf, HotVictim, IsHot;
    victim := if |s.hot| < s.hotLimit || s.hot == [] then -1 else HotVictim(s.hot, excludeId);
    if victim != -1 {
      VictimIsHot(s, excludeId);
      SwapOutShrinksHot(env, s, victim);
    }
  }

  // ---- limits ----

  function Limited(s: State, count: nat): (r: State)
    requires Inv(s)
    ensures Inv(r)
  {
    s.(hotLimit := if count < 1 then 1 else count)
  }

  function SetHotLimit(env: Env, s: State, count: nat): (r: State)
    requires Inv(s)
    ensures Inv(r)
  {
    EvictHot(env, Limited(s, count), -1).s
  }

  function Budgeted(s: State, bytes: nat): (r: State)
    requires Inv(s)
    ensures Inv(r)
  {
    s.(coldLimit := bytes)
  }

  function SetColdLimit(s: State, bytes: nat): (r: State)
    requires Inv(s)
    ensures Inv(r)
  {
    EvictCold(Budgeted(s, bytes), -1)
  }

  // ---- activateForInfer ----

  /**
   `Refused` is the null return.  `Dangling` is the path on which the session was killed by
   the eviction made on its behalf and its entry is then used: undefined behaviour.
   */
  datatype Activation = Refused(s: State) | Active(s: State, ctx: CtxId) | Dangling(s: State)

  ghost predicate HoldsContext(s: State, id: int, ctx: CtxId) {
    IsHot(s, id) && s.sessions[id].ctx == Some(ctx)
  }

  function Activate(env: Env, s: State, id: int): (r: Activation)
    requires Inv(s)
    ensures r.Active? ==> HoldsContext(r.s, id, r.ctx)
  {
    if id !in s.sessions then Refused(s)
    else if s.sessions[id].tier.HOT? then
      HotFacts(s, id);
      Active(TouchHot(env, s, id), s.sessions[id].ctx.value)
    else
      EvictHotLeavesCold(env, s, id, id);
      Admit(env, EvictHot(env, s, id).s, id)
  }

  /** The rest of an activation, once room has been made in the HOT tier. */
  function Admit(env: Env, s: State, id: int): (r: Activation)
    requires Inv(s) && !IsHot(s, id)
    ensures r.Active? ==> HoldsContext(r.s, id, r.ctx)
  {
    var (w1, c) := InitContext(env, s.w);
    if c.None? then Refused(s.(w := w1))
    else if id !in s.sessions then Dangling(s.(w := w1))
    else if s.sessions[id].swapFilePath == "" then Promote(env, s, w1, id, c.value, s.sessions[id].tokens)
    else
      var (w2, loaded) := LoadFile(env, w1, c.value, s.sessions[id].swapFilePath, s.nCtx);
      if loaded.None? then FailedSwapIn(s, FreeContext(w2, c.value), id)
      else SwapIn(env, s, w2, id, c.value, loaded.value)
  }

  /** `vector::resize`: cut off, or padded with zeros. */
  function Resized(tokens: seq<Token>, n: nat): (r: seq<Token>)
    ensures |r| == n
  {
    if n <= |tokens| then tokens[..n] else tokens + seq(n - |tokens|, _ => 0)
  }

  /** The token buffer has been resized for the load that then failed. */
  function FailedSwapIn(s: State, w: World, id: int): Activation
    requires id in s.sessions
  {
    Refused(s.(w := w, sessions := s.sessions[id := s.sessions[id].(tokens := Resized(s.sessions[id].tokens, s.nCtx))]))
  }

  function SwapIn(env: Env, s: State, w: World, id: int, ctx: CtxId, tokens: seq<Token>): (r: Activation)
    requires Inv(s) && IsSwapped(s, id)
    ensures r.Active? && r.ctx == ctx && HoldsContext(r.s, id, ctx)
  {
    SwappedFacts(s, id);
    var m := s.sessions[id];
    Promote(env,
            s.(cold := Erase(s.cold, m.lruIt), coldUsed := s.coldUsed - m.swapFileBytes,
               sessions := s.sessions[id := m.(swapFileBytes := 0)]),
            RemoveFile(w, m.swapFilePath), id, ctx, tokens)
  }

  function Promote(env: Env, s: State, w: World, id: int, ctx: CtxId, tokens: seq<Token>): (r: Activation)
    requires id in s.sessions
    ensures r.Active? && r.ctx == ctx && HoldsContext(r.s, id, ctx)
  {
    var (w1, now) := NowMs(env, w);
    Active(s.(w := w1,
              hot := s.hot + [Node(s.nextIt, id)],
              nextIt := s.nextIt + 1,
              sessions := s.sessions[id := s.sessions[id].(tokens := tokens, ctx := Some(ctx), tier := HOT,
                                                           lruIt := s.nextIt, lastUsedMs := now)]),
           ctx)
  }

  /** The state between a successful load and the promotion. */
  function Loaded(s: State, w: World, id: int, tokens: seq<Token>): State
    requires Inv(s) && IsSwapped(s, id)
  {
    SwappedFacts(s, id);
    var m := s.sessions[id];
    s.(w := RemoveFile(w, m.swapFilePath), cold := Erase(s.cold, m.lruIt), coldUsed := s.coldUsed - m.swapFileBytes,
       sessions := s.sessions[id := m.(swapFileBytes := 0, tokens := tokens)])
  }

  /** `Promote` sets the world itself. */
  lemma PromoteSetsWorld(env: Env, s: State, w: World, id: int, ctx: CtxId, tokens: seq<Token>)
    requires id in s.sessions
    ensures Promote(env, s.(w := w), w, id, ctx, tokens) == Promote(env, s, w, id, ctx, tokens)
  {
  }

  lemma SwapInIsPromote(env: Env, s: State, w: World, id: int, ctx: CtxId, tokens: seq<Token>)
    requires Inv(s) && IsSwapped(s, id)
    ensures var t := Loaded(s, w, id, tokens);
      id in t.sessions && Promote(env, t, t.w, id, ctx, tokens) == SwapIn(env, s, w, id, ctx, tokens)
  {
    hide Inv, Erase;
  }

  // ---- every operation keeps the invariant ----

  lemma CreateKeepsInv(env: Env, s: State, id: int)
    requires Inv(s)
    ensures Inv(CreateSession(env, s, id))
  {
    if id !in s.sessions {
      var r := CreateSession(env, s, id);
      ListKeep(s.sessions, r.sessions, s.hot, InHotList, id);
      ListKeep(s.sessions, r.sessions, s.cold, InColdList, id);
      ContextsKeep(s.sessions, r.sessions, s.w, r.w, id);
      SumFrame(s.sessions, r.sessions, s.cold, id);
    }
  }

  lemma KillKeepsInv(s: State, id: int)
    requires Inv(s)
    ensures Inv(KillSession(s, id))
    ensures id in s.sessions && s.sessions[id].Place() == InColdList ==>
            |KillSession(s, id).cold| == |s.cold| - 1
  {
    if id in s.sessions {
      if s.sessions[id].tier.HOT? {
        KillHotKeepsInv(s, id);
      } else if s.sessions[id].swapFilePath != "" {
        KillSwappedKeepsInv(s, id);
      } else {
        KillNewKeepsInv(s, id);
      }
    }
  }

  lemma KillHotKeepsInv(s: State, id: int)
    requires Inv(s) && IsHot(s, id)
    ensures Inv(KillSession(s, id))
  {
    HotFacts(s, id);
    var m := s.sessions[id];
    var r := KillSession(s, id);
    ListRemove(s.sessions, r.sessions, s.hot, InHotList, id);
    ListKeep(s.sessions, r.sessions, s.cold, InColdList, id);
    EraseBelow(s.hot, m.lruIt, s.nextIt);
    ContextsDrop(s.sessions, r.sessions, s.w, id);
    SumFrame(s.sessions, r.sessions, s.cold, id);
  }

  lemma KillSwappedKeepsInv(s: State, id: int)
    requires Inv(s) && IsSwapped(s, id)
    ensures Inv(KillSession(s, id)) && |KillSession(s, id).cold| == |s.cold| - 1
  {
    SwappedFacts(s, id);
    var m := s.sessions[id];
    var r := KillSession(s, id);
    ListRemove(s.sessions, r.sessions, s.cold, InColdList, id);
    ListKeep(s.sessions, r.sessions, s.hot, InHotList, id);
    EraseBelow(s.cold, m.lruIt, s.nextIt);
    ContextsKeep(s.sessions, r.sessions, s.w, r.w, id);
    SwapsOther(s.sessions, r.sessions, s.w, r.w, s.swapDir, id);
    SumErase(s.sessions, s.cold, m.lruIt);
    SumFrame(s.sessions, r.sessions, r.cold, id);
  }

  lemma KillNewKeepsInv(s: State, id: int)
    requires Inv(s) && id in s.sessions && s.sessions[id].Place() == Unlisted
    ensures Inv(KillSession(s, id))
  {
    var r := KillSession(s, id);
    ListKeep(s.sessions, r.sessions, s.hot, InHotList, id);
    ListKeep(s.sessions, r.sessions, s.cold, InColdList, id);
    ContextsKeep(s.sessions, r.sessions, s.w, r.w, id);
    SumFrame(s.sessions, r.sessions, s.cold, id);
  }

  lemma TouchKeepsLists(env: Env, s: State, id: int)
    requires Inv(s) && IsHot(s, id)
    ensures Lists(TouchHot(env, s, id))
  {
    HotFacts(s, id);
    var gone := s.sessions - {id};
    var r := TouchHot(env, s, id);
    var rest := Erase(s.hot, s.sessions[id].lruIt);
    ListRemove(s.sessions, gone, s.hot, InHotList, id);
    EraseBelow(s.hot, s.sessions[id].lruIt, s.nextIt);
    ListPush(gone, r.sessions, rest, InHotList, id);
    ListKeep(s.sessions, r.sessions, s.cold, InColdList, id);
  }

  lemma TouchKeepsInv(env: Env, s: State, id: int)
    requires Inv(s) && IsHot(s, id)
    ensures Inv(TouchHot(env, s, id))
  {
    var r := TouchHot(env, s, id);
    TouchKeepsLists(env, s, id);
    ContextsKeep(s.sessions, r.sessions, s.w, r.w, id);
    ListKeep(s.sessions, s.sessions - {id}, s.cold, InColdList, id);
    SumFrame(s.sessions, r.sessions, s.cold, id);
  }

  lemma DemoteKeepsLists(s: State, id: int, bytes: nat)
    requires Inv(s) && IsHot(s, id)
    ensures Lists(Demote(s, id, bytes))
  {
    hide Contexts, Swaps, SumBytes, PathFor;
    HotFacts(s, id);
    var r := Demote(s, id, bytes);
    ListRemove(s.sessions, r.sessions, s.hot, InHotList, id);
    EraseBelow(s.hot, s.sessions[id].lruIt, s.nextIt);
    ListPush(s.sessions, r.sessions, s.cold, InColdList, id);
  }

  lemma DemoteKeepsInv(s: State, id: int, bytes: nat)
    requires Inv(s) && IsHot(s, id)
    requires PathFor(s.swapDir, id) in s.w.files && s.w.files[PathFor(s.swapDir, id)].SwapFile?
    ensures Inv(Demote(s, id, bytes))
  {
    hide ListOk, PathFor, SumBytes, Contexts;
    var r := Demote(s, id, bytes);
    DemoteKeepsLists(s, id, bytes);
    ContextsDrop(s.sessions, r.sessions, s.w, id);
    SwapsOther(s.sessions, r.sessions, s.w, r.w, s.swapDir, id);
    ListKeep(s.sessions, s.sessions - {id}, s.cold, InColdList, id);
    SumPush(r.sessions, s.cold, Node(s.nextIt, id));
    SumFrame(s.sessions, r.sessions, s.cold, id);
  }

  /** All that eviction from the COLD tier may do: drop swapped sessions, their files and their bytes. */
  ghost predicate OnlyColdLost(s: State, r: State) {
    && r.hot == s.hot && r.hotLimit == s.hotLimit && r.coldLimit == s.coldLimit
    && r.swapDir == s.swapDir && r.nCtx == s.nCtx && r.nextIt == s.nextIt
    && r.w.ctxs == s.w.ctxs && r.w.tick == s.w.tick && r.w.nextCtx == s.w.nextCtx
    && (forall id :: id in r.sessions ==> id in s.sessions && r.sessions[id] == s.sessions[id])
    && (forall id :: id in s.sessions && !IsSwapped(s, id) ==> id in r.sessions)
  }

  lemma KillColdLosesOnlyCold(s: State, id: int)
    requires Inv(s) && IsSwapped(s, id)
    ensures OnlyColdLost(s, KillSession(s, id))
  {
  }

  lemma OnlyColdLostTransitive(s: State, t: State, r: State)
    requires OnlyColdLost(s, t) && OnlyColdLost(t, r)
    ensures OnlyColdLost(s, r)
  {
  }

  lemma {:induction false} EvictColdLosesOnlyCold(s: State, excludeId: int)
    requires Inv(s)
    ensures OnlyColdLost(s, EvictCold(s, excludeId))
    decreases |s.cold|
  {
    if s.coldUsed <= s.coldLimit || s.cold == [] {
    } else if s.cold[0].id == excludeId && |s.cold| == 1 {
    } else {
      var victim := if s.cold[0].id == excludeId then s.cold[1].id else s.cold[0].id;
      KillColdVictim(s, victim);
      var t := KillSession(s, victim);
      var r := EvictCold(t, excludeId);
      assert EvictCold(s, excludeId) == r;
      EvictColdLosesOnlyCold(t, excludeId);
      KillColdLosesOnlyCold(s, victim);
      OnlyColdLostTransitive(s, t, r);
    }
  }

  lemma SwapOutShrinksHot(env: Env, s: State, id: int)
    requires Inv(s) && IsHot(s, id)
    ensures SwapOut(env, s, id).ok ==> |SwapOut(env, s, id).s.hot| == |s.hot| - 1
    ensures SwapOut(env, s, id).ok ==> SaveOf(env, s, id).bytes.Some?
  {
    var v := SaveOf(env, s, id);
    var s1 := AfterSave(env, s, id);
    if v.bytes.Some? {
      DemoteKeepsInv(s1, id, v.bytes.value);
      EvictColdLosesOnlyCold(Demote(s1, id, v.bytes.value), id);
    }
  }

  /** What a swap-out leaves unchanged. */
  lemma SwapOutFrame(env: Env, s: State, id: int)
    requires Inv(s) && IsHot(s, id)
    ensures var r := SwapOut(env, s, id).s;
      && r.hotLimit == s.hotLimit && r.coldLimit == s.coldLimit && r.swapDir == s.swapDir && r.nCtx == s.nCtx
      && r.w.nextCtx == s.w.nextCtx
      && (forall k :: k in r.sessions && k != id ==> k in s.sessions && r.sessions[k] == s.sessions[k])
      && (forall k :: k in s.sessions && k != id && !IsSwapped(s, k) ==> k in r.sessions)
      && (if SwapOut(env, s, id).ok then !IsHot(r, id) else r.sessions.Keys == s.sessions.Keys)
  {
    hide Inv, SaveLoop, PathFor, Erase;
    var v := SaveOf(env, s, id);
    var s1 := AfterSave(env, s, id);
    if v.bytes.Some? {
      DemoteKeepsInv(s1, id, v.bytes.value);
      EvictColdLosesOnlyCold(Demote(s1, id, v.bytes.value), id);
    }
  }

  /** A session that is not HOT comes out of HOT eviction unchanged, unless it was swapped out and got killed. */
  lemma {:induction false} EvictHotLeavesCold(env: Env, s: State, excludeId: int, id: int)
    requires Inv(s) && id in s.sessions && !IsHot(s, id)
    ensures var r := EvictHot(env, s, excludeId).s;
      && !IsHot(r, id)
      && (id in r.sessions ==> r.sessions[id] == s.sessions[id])
      && (!IsSwapped(s, id) ==> id in r.sessions)
    decreases |s.hot|
  {
    if |s.hot| < s.hotLimit || s.hot == [] {
    } else {
      var victim := HotVictim(s.hot, excludeId);
      if victim != -1 {
        SwapOutFrame(env, s, victim);
        SwapOutShrinksHot(env, s, victim);
        var o := SwapOut(env, s, victim);
        if o.ok {
          if id in o.s.sessions {
            EvictHotLeavesCold(env, o.s, excludeId, id);
          } else {
            EvictHotAddsNobody(env, o.s, excludeId);
          }
        }
      }
    }
  }

  lemma {:induction false} EvictHotAddsNobody(env: Env, s: State, excludeId: int)
    requires Inv(s)
    ensures EvictHot(env, s, excludeId).s.sessions.Keys <= s.sessions.Keys
    ensures var r := EvictHot(env, s, excludeId).s;
      && r.hotLimit == s.hotLimit && r.coldLimit == s.coldLimit && r.swapDir == s.swapDir && r.nCtx == s.nCtx
      && r.w.nextCtx == s.w.nextCtx
    decreases |s.hot|
  {
    hide Inv, SwapOut, SaveOf, HotVictim;
    if |s.hot| < s.hotLimit || s.hot == [] {
    } else {
      var victim := HotVictim(s.hot, excludeId);
      if victim != -1 {
        VictimIsHot(s, excludeId);
        SwapOutFrame(env, s, victim);
        SwapOutShrinksHot(env, s, victim);
        var o := SwapOut(env, s, victim);
        if o.ok {
          EvictHotAddsNobody(env, o.s, excludeId);
        }
      }
    }
  }

  // ---- activateForInfer keeps the invariant on every path ----

  lemma InitKeepsInv(env: Env, s: State)
    requires Inv(s)
    requires InitContext(env, s.w).1.None?
    ensures Inv(s.(w := InitContext(env, s.w).0))
  {
  }

  lemma PromoteKeepsInv(env: Env, s: State, w: World, id: int, tokens: seq<Token>)
    requires Inv(s) && id in s.sessions && s.sessions[id].Place() == Unlisted
    requires w.ctxs.Keys == s.w.ctxs.Keys + {s.w.nextCtx} && w.nextCtx == s.w.nextCtx + 1 && w.files == s.w.files
    ensures Inv(Promote(env, s, w, id, s.w.nextCtx, tokens).s)
  {
    var r := Promote(env, s, w, id, s.w.nextCtx, tokens).s;
    ListPush(s.sessions, r.sessions, s.hot, InHotList, id);
    ListKeep(s.sessions, r.sessions, s.cold, InColdList, id);
    ContextsAdopt(s.sessions, r.sessions, s.w, r.w, id);
    SumFrame(s.sessions, r.sessions, s.cold, id);
  }

  lemma SwapInKeepsLists(env: Env, s: State, w: World, id: int, ctx: CtxId, tokens: seq<Token>)
    requires Inv(s) && IsSwapped(s, id)
    ensures Lists(SwapIn(env, s, w, id, ctx, tokens).s)
  {
    SwappedFacts(s, id);
    var r := SwapIn(env, s, w, id, ctx, tokens).s;
    ListRemove(s.sessions, r.sessions, s.cold, InColdList, id);
    EraseBelow(s.cold, s.sessions[id].lruIt, s.nextIt);
    ListKeep(s.sessions, s.sessions - {id}, s.hot, InHotList, id);
    ListPush(s.sessions, r.sessions, s.hot, InHotList, id);
  }

  lemma SwapInKeepsInv(env: Env, s: State, w: World, id: int, tokens: seq<Token>)
    requires Inv(s) && IsSwapped(s, id)
    requires w.ctxs.Keys == s.w.ctxs.Keys + {s.w.nextCtx} && w.nextCtx == s.w.nextCtx + 1 && w.files == s.w.files
    ensures Inv(SwapIn(env, s, w, id, s.w.nextCtx, tokens).s)
  {
    hide ListOk, PathFor, SumBytes, Contexts, Erase, IndexOf;
    SwappedFacts(s, id);
    var m := s.sessions[id];
    var r := SwapIn(env, s, w, id, s.w.nextCtx, tokens).s;
    SwapInKeepsLists(env, s, w, id, s.w.nextCtx, tokens);
    ContextsAdopt(s.sessions, r.sessions, s.w, r.w, id);
    SwapsOther(s.sessions, r.sessions, s.w, r.w, s.swapDir, id);
    SumErase(s.sessions, s.cold, m.lruIt);
    ListRemove(s.sessions, r.sessions, s.cold, InColdList, id);
    SumFrame(s.sessions, r.sessions, r.cold, id);
  }

  /** The context made for a load that fails is freed again. */
  lemma FailedSwapInKeepsInv(s: State, w: World, id: int)
    requires Inv(s) && IsSwapped(s, id)
    requires w.ctxs.Keys == s.w.ctxs.Keys && w.nextCtx >= s.w.nextCtx && w.files == s.w.files
    ensures Inv(FailedSwapIn(s, w, id).s)
  {
    TokensKeepInv(s, id, Resized(s.sessions[id].tokens, s.nCtx));
    var s1 := s.(sessions := FailedSwapIn(s, w, id).s.sessions);
    assert Inv(s1);
    assert Contexts(s1.sessions, w) by {
      forall ctx: CtxId | ctx in w.ctxs
        ensures ctx < w.nextCtx && exists k :: Owns(s1.sessions, k, ctx)
      {
        assert ctx in s1.w.ctxs;
      }
    }
  }

  lemma AdmitKeepsInv(env: Env, s: State, id: int)
    requires Inv(s) && !IsHot(s, id)
    ensures !Admit(env, s, id).Dangling? ==> Inv(Admit(env, s, id).s)
  {
    var (w1, c) := InitContext(env, s.w);
    if c.None? {
      InitKeepsInv(env, s);
    } else if id in s.sessions {
      assert s.w.nextCtx !in s.w.ctxs;
      if s.sessions[id].swapFilePath == "" {
        PromoteKeepsInv(env, s, w1, id, s.sessions[id].tokens);
      } else {
        var (w2, loaded) := LoadFile(env, w1, c.value, s.sessions[id].swapFilePath, s.nCtx);
        if loaded.None? {
          assert FreeContext(w2, c.value).ctxs.Keys == s.w.ctxs.Keys;
          FailedSwapInKeepsInv(s, FreeContext(w2, c.value), id);
        } else {
          SwapInKeepsInv(env, s, w2, id, loaded.value);
        }
      }
    }
  }

  lemma ActivateKeepsInv(env: Env, s: State, id: int)
    requires Inv(s)
    ensures !Activate(env, s, id).Dangling? ==> Inv(Activate(env, s, id).s)
  {
    if id !in s.sessions {
    } else if s.sessions[id].tier.HOT? {
      TouchKeepsInv(env, s, id);
    } else {
      EvictHotLeavesCold(env, s, id, id);
      AdmitKeepsInv(env, EvictHot(env, s, id).s, id);
    }
  }

  /** On success the session is HOT and the context returned is its own. */
  lemma ActivateGivesHot(env: Env, s: State, id: int)
    requires Inv(s) && Activate(env, s, id).Active?
    ensures var r := Activate(env, s, id);
            Inv(r.s) && IsHot(r.s, id) && r.s.sessions[id].ctx == Some(r.ctx) && r.ctx in r.s.w.ctxs
  {
    ActivateKeepsInv(env, s, id);
    HotFacts(Activate(env, s, id).s, id);
  }
}
