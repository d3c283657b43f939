/**
 `SessionManager` with the fields and loops it has, proved to do what SessionSpec.dfy says.
 */
module SessionManager {
  import opened Wrappers
  import opened Foreign
  import opened LruList
  import opened SessionState
  import Spec = SessionSpec
  import Llama

  class SessionMeta {
    var id: int
    var tier: Tier
    var ctx: Option<CtxId>
    var tokens: seq<Token>
    var swapFilePath: string
    var swapFileBytes: nat
    var lastUsedMs: int
    var lruIt: nat

    constructor (id: int, now: int)
      ensures Value() == Meta(id, COLD, None, [], "", 0, now, 0)
    {
      this.id, tier, ctx, tokens := id, COLD, None, [];
      swapFilePath, swapFileBytes, lastUsedMs, lruIt := "", 0, now, 0;
    }

    ghost function Value(): Meta
      reads this
    {
      Meta(id, tier, ctx, tokens, swapFilePath, swapFileBytes, lastUsedMs, lruIt)
    }
  }

  /** What `activateForInfer` hands back; `UseAfterErase` is the path into undefined behaviour. */
  datatype Handle = Null | Context(ctx: CtxId) | UseAfterErase

  method Pick(ids: set<int>) returns (id: int)
    requires ids != {}
    ensures id in ids
  {
    NoMembersMeansEmpty(ids);
    id :| id in ids;
  }

  lemma NoMembersMeansEmpty(ids: set<int>)
    ensures (forall k :: k !in ids) ==> ids == {}
  {
    if forall k :: k !in ids {
      assert ids <= {};
    }
  }

  class Manager {
    const llama: Llama.Runtime
    const swapDir: string
    const nCtx: nat
    var sessions: map<int, SessionMeta>
    var hotLru: seq<Node>
    var hotLimit: nat
    var coldLru: seq<Node>
    var coldLimitBytes: nat
    var coldUsedBytes: nat
    var nextIt: nat

    /** No two ids share an entry. */
    ghost predicate Unshared()
      reads this
    {
      forall a, b :: a in sessions && b in sessions && a != b ==> sessions[a] != sessions[b]
    }

    ghost function View(): State
      reads this, llama, sessions.Values
    {
      State(llama.w, swapDir, nCtx, map id | id in sessions :: sessions[id].Value(),
            hotLru, hotLimit, coldLru, coldLimitBytes, coldUsedBytes, nextIt)
    }

    ghost predicate Valid()
      reads this, llama, sessions.Values
    {
      Unshared() && Inv(View())
    }

    /** The abstract effect of changing one entry in place. */
    twostate lemma OneEntryChanged(id: int)
      requires sessions == old(sessions) && id in sessions && Unshared()
      requires forall m :: m in sessions.Values && m != sessions[id] ==> unchanged(m)
      ensures View().sessions == old(View()).sessions[id := sessions[id].Value()]
    {
      forall k | k in sessions && k != id
        ensures sessions[k].Value() == old(sessions[k].Value())
      {
        assert sessions[k] in sessions.Values;
      }
    }

    twostate lemma NoEntryChanged()
      requires sessions == old(sessions)
      requires forall m :: m in sessions.Values ==> unchanged(m)
      ensures View().sessions == old(View()).sessions
    {
      forall k | k in sessions
        ensures sessions[k].Value() == old(sessions[k].Value())
      {
        assert sessions[k] in sessions.Values;
      }
    }

    constructor (llama: Llama.Runtime, swapDir: string, nCtx: nat)
      requires llama.w == World(0, map[], 0, map[])
      ensures Valid() && View() == Initial(swapDir, nCtx)
      ensures this.llama == llama && sessions == map[]
    {
      this.llama, this.swapDir, this.nCtx := llama, swapDir, nCtx;
      sessions, hotLru, coldLru := map[], [], [];
      hotLimit, coldLimitBytes, coldUsedBytes, nextIt := DEFAULT_HOT_LIMIT, DEFAULT_COLD_LIMIT_BYTES, 0, 0;
    }

    method CreateSession(requestedId: int) returns (ok: bool)
      requires Valid()
      modifies this, llama
      ensures Valid() && fresh(sessions.Values - old(sessions.Values))
      ensures View() == Spec.CreateSession(llama.env, old(View()), requestedId)
      ensures ok == (requestedId !in old(sessions))
    {
      if requestedId in sessions {
        return false;
      }
      Spec.CreateKeepsInv(llama.env, View(), requestedId);
      var now := llama.NowMs();
      var meta := new SessionMeta(requestedId, now);
      sessions := sessions[requestedId := meta];
      assert View().sessions == old(View()).sessions[requestedId := meta.Value()];
      return true;
    }

    method KillSession(id: int) returns (ok: bool)
      requires Valid()
      modifies this, llama
      ensures Valid()
      ensures View() == Spec.KillSession(old(View()), id)
      ensures ok == (id in old(sessions)) && sessions == old(sessions) - {id}
    {
      hide Inv, Erase, Has, IndexOf, PathFor;
      if id !in sessions {
        assert sessions == sessions - {id};
        return false;
      }
      var meta := sessions[id];
      ghost var s := View();
      assert s.sessions[id] == meta.Value();
      Spec.KillKeepsInv(s, id);
      if meta.tier.HOT? {
        Spec.HotFacts(s, id);
        hotLru := Erase(hotLru, meta.lruIt);
        llama.FreeContext(meta.ctx.value);
      } else if meta.swapFilePath != "" {
        Spec.SwappedFacts(s, id);
        Spec.SwappedBytes(s, id);
        coldLru := Erase(coldLru, meta.lruIt);
        coldUsedBytes := coldUsedBytes - meta.swapFileBytes;
        llama.RemoveFile(meta.swapFilePath);
      }
      sessions := sessions - {id};
      assert View().sessions == s.sessions - {id};
      return true;
    }

    method TouchHot(meta: SessionMeta)
      requires Valid() && meta.id in sessions && sessions[meta.id] == meta && meta.tier.HOT?
      modifies this`hotLru, this`nextIt, llama, meta`lruIt, meta`lastUsedMs
      ensures Valid()
      ensures View() == Spec.TouchHot(llama.env, old(View()), old(meta.id))
    {
      hide Inv;
      Spec.HotFacts(View(), meta.id);
      Spec.TouchKeepsInv(llama.env, View(), meta.id);
      hotLru := Erase(hotLru, meta.lruIt);
      hotLru := hotLru + [Node(nextIt, meta.id)];
      meta.lruIt := nextIt;
      nextIt := nextIt + 1;
      meta.lastUsedMs := llama.NowMs();
      OneEntryChanged(meta.id);
    }

    method RecordTokens(id: int, newTokens: seq<Token>)
      requires Valid()
      modifies this`hotLru, this`nextIt, llama, sessions.Values
      ensures Valid()
      ensures View() == Spec.RecordTokens(llama.env, old(View()), id, newTokens)
    {
      if id !in sessions {
        return;
      }
      var meta := sessions[id];
      assert View().sessions[id] == meta.Value();
      Spec.RecordKeepsInv(View(), id, newTokens);
      meta.tokens := meta.tokens + newTokens;
      OneEntryChanged(id);
      if meta.tier.HOT? {
        TouchHot(meta);
      }
    }

    method PruneOldestTokens(meta: SessionMeta, nTokensToRemove: nat)
      requires meta.ctx.Some? && meta.ctx.value in llama.w.ctxs
      modifies llama, meta`tokens
      ensures var p := Spec.Prune(llama.env, old(llama.w), meta.ctx.value, old(meta.tokens), nTokensToRemove);
              llama.w == p.w && meta.tokens == p.tokens
    {
      if nTokensToRemove == 0 || nTokensToRemove >= |meta.tokens| {
        return;
      }
      var _ := llama.RemoveRange(meta.ctx.value, 0, nTokensToRemove);
      llama.ShiftRange(meta.ctx.value, nTokensToRemove, -1, 0 - nTokensToRemove);
      meta.tokens := meta.tokens[nTokensToRemove..];
    }

    /** The loop of `swapOut`: save, measure, and prune until the state fits or is down to the minimum. */
    method SaveLoop(meta: SessionMeta, path: string) returns (saved: bool, bytes: nat)
      requires meta.ctx.Some? && meta.ctx.value in llama.w.ctxs
      modifies llama, meta`tokens
      ensures var v := Spec.SaveLoop(llama.env, old(llama.w), meta.ctx.value, path, old(meta.tokens), coldUsedBytes, coldLimitBytes);
              llama.w == v.w && meta.tokens == v.tokens && v.bytes == if saved then Some(bytes) else None
    {
      hide Spec.SaveLoop, Spec.Prune;
      var ctx := meta.ctx.value;
      bytes := 0;
      while true
        invariant ctx in llama.w.ctxs
        invariant var u := Spec.SaveLoop(llama.env, llama.w, ctx, path, meta.tokens, coldUsedBytes, coldLimitBytes);
                  var v := Spec.SaveLoop(llama.env, old(llama.w), ctx, path, old(meta.tokens), coldUsedBytes, coldLimitBytes);
                  u.w == v.w && u.tokens == v.tokens && u.bytes == v.bytes
        decreases |meta.tokens|
      {
        Spec.SaveLoopUnfolds(llama.env, llama.w, ctx, path, meta.tokens, coldUsedBytes, coldLimitBytes);
        var written := llama.SaveFile(ctx, path, meta.tokens);
        if !written {
          return false, 0;
        }
        bytes := llama.StateSize();
        if bytes + coldUsedBytes <= coldLimitBytes {
          break;
        }
        if |meta.tokens| <= MIN_KEEP_TOKENS {
          break;
        }
        var toRemove := if |meta.tokens| / 4 < 1 then 1 else |meta.tokens| / 4;
        toRemove := if toRemove < |meta.tokens| - MIN_KEEP_TOKENS then toRemove else |meta.tokens| - MIN_KEEP_TOKENS;
        PruneOldestTokens(meta, toRemove);
      }
      return true, bytes;
    }

    method SwapOut(meta: SessionMeta) returns (ok: bool)
      requires Valid() && meta.id in sessions && sessions[meta.id] == meta && meta.tier.HOT?
      modifies this, llama, meta
      ensures Valid() && sessions.Values <= old(sessions.Values)
      ensures Spec.SwapOutcome(View(), ok) == Spec.SwapOut(llama.env, old(View()), old(meta.id))
    {
      hide Inv;
      ghost var s, id := View(), meta.id;
      assert s.sessions[id] == meta.Value();
      Spec.HotFacts(s, id);
      var path := PathFor(swapDir, meta.id);
      var saved, bytes := SaveLoop(meta, path);
      OneEntryChanged(id);
      assert View() == Spec.AfterSave(llama.env, s, id);
      if !saved {
        return false;
      }
      Demote(meta, path, bytes);
      EvictColdIfNeeded(meta.id);
      return true;
    }

    /** The part of `swapOut` after the loop: the session trades its context for a place in the COLD list. */
    method Demote(meta: SessionMeta, path: string, bytes: nat)
      requires Valid() && meta.id in sessions && sessions[meta.id] == meta && meta.tier.HOT?
      requires path == PathFor(swapDir, meta.id) && path in llama.w.files && llama.w.files[path].SwapFile?
      modifies this`hotLru, this`coldLru, this`nextIt, this`coldUsedBytes, llama, meta
      ensures Valid() && meta.id == old(meta.id)
      ensures View() == Spec.Demote(old(View()), old(meta.id), bytes)
    {
      hide Inv, Erase, IndexOf, Has, PathFor;
      ghost var s, id := View(), meta.id;
      assert s.sessions[id] == meta.Value();
      Spec.HotFacts(s, id);
      Spec.DemoteKeepsInv(s, id, bytes);
      hotLru := Erase(hotLru, meta.lruIt);
      llama.FreeContext(meta.ctx.value);
      meta.ctx := None;
      meta.tier := COLD;
      meta.swapFilePath := path;
      meta.swapFileBytes := bytes;
      coldLru := coldLru + [Node(nextIt, meta.id)];
      meta.lruIt := nextIt;
      nextIt := nextIt + 1;
      coldUsedBytes := coldUsedBytes + bytes;
      OneEntryChanged(id);
    }

    method EvictColdIfNeeded(excludeId: int)
      requires Valid()
      modifies this, llama
      ensures Valid() && sessions.Values <= old(sessions.Values)
      ensures View() == Spec.EvictCold(old(View()), excludeId)
    {
      while coldUsedBytes > coldLimitBytes && coldLru != []
        invariant Valid() && sessions.Values <= old(sessions.Values)
        invariant Spec.EvictCold(View(), excludeId) == Spec.EvictCold(old(View()), excludeId)
        decreases |coldLru|
      {
        var victim := coldLru[0].id;
        if victim == excludeId {
          if |coldLru| == 1 {
            break;
          }
          victim := coldLru[1].id;
        }
        Spec.KillColdVictim(View(), victim);
        var _ := KillSession(victim);
      }
    }

    method FindHotVictim(excludeId: int) returns (victim: int)
      ensures victim == Spec.HotVictim(hotLru, excludeId)
    {
      victim := -1;
      var i := 0;
      assert hotLru[0..] == hotLru;
      while i < |hotLru|
        invariant 0 <= i <= |hotLru| && victim == -1
        invariant Spec.HotVictim(hotLru[i..], excludeId) == Spec.HotVictim(hotLru, excludeId)
      {
        if hotLru[i].id != excludeId {
          return hotLru[i].id;
        }
        assert hotLru[i..][1..] == hotLru[i + 1..];
        i := i + 1;
      }
    }

    method EvictHotIfNeeded(excludeId: int)
      requires Valid()
      modifies this, llama, sessions.Values
      ensures Valid() && sessions.Values <= old(sessions.Values)
      ensures View() == Spec.EvictHot(llama.env, old(View()), excludeId).s
    {
      hide Spec.EvictHot, Inv, Spec.SwapOut;
      while |hotLru| >= hotLimit && hotLru != []
        invariant Valid() && sessions.Values <= old(sessions.Values)
        invariant Spec.EvictHot(llama.env, View(), excludeId).s == Spec.EvictHot(llama.env, old(View()), excludeId).s
        decreases |hotLru|
      {
        ghost var s := View();
        ghost var _ := Spec.EvictHotRound(llama.env, s, excludeId);
        var victim := FindHotVictim(excludeId);
        if victim == -1 {
          break;
        }
        Spec.EntryId(s, victim);
        assert s.sessions[victim] == sessions[victim].Value();
        var ok := SwapOut(sessions[victim]);
        if !ok {
          break;
        }
      }
      if |hotLru| < hotLimit || hotLru == [] {
        ghost var _ := Spec.EvictHotRound(llama.env, View(), excludeId);
      }
    }

    method SetHotLimit(count: nat)
      requires Valid()
      modifies this, llama, sessions.Values
      ensures Valid() && sessions.Values <= old(sessions.Values)
      ensures View() == Spec.SetHotLimit(llama.env, old(View()), count)
    {
      hotLimit := if count < 1 then 1 else count;
      assert View() == Spec.Limited(old(View()), count);
      EvictHotIfNeeded(-1);
    }

    method SetColdLimit(bytes: nat)
      requires Valid()
      modifies this, llama
      ensures Valid() && sessions.Values <= old(sessions.Values)
      ensures View() == Spec.SetColdLimit(old(View()), bytes)
    {
      coldLimitBytes := bytes;
      assert View() == Spec.Budgeted(old(View()), bytes);
      EvictColdIfNeeded(-1);
    }

    method ActivateForInfer(id: int) returns (h: Handle)
      requires Valid()
      modifies this, llama, sessions.Values
      ensures sessions.Values <= old(sessions.Values) && Unshared()
      ensures var a := Spec.Activate(llama.env, old(View()), id);
              View() == a.s && (h == match a
                                     case Refused(_) => Null
                                     case Active(_, c) => Context(c)
                                     case Dangling(_) => UseAfterErase)
      ensures !h.UseAfterErase? ==> Valid()
    {
      hide Inv, Spec.EvictHot, Spec.Admit, Spec.TouchHot;
      Spec.ActivateKeepsInv(llama.env, View(), id);
      if id !in sessions {
        return Null;
      }
      var meta := sessions[id];
      ghost var s := View();
      Spec.EntryId(s, id);
      assert s.sessions[id] == meta.Value();
      if meta.tier.HOT? {
        Spec.HotFacts(s, id);
        TouchHot(meta);
        return Context(meta.ctx.value);
      }
      EvictHotIfNeeded(id);
      Spec.EvictHotLeavesCold(llama.env, s, id, id);
      h := Admit(id);
    }

    /** The part of `activateForInfer` after the HOT eviction; the entry is looked up again to see if it survived. */
    method Admit(id: int) returns (h: Handle)
      requires Valid() && !Spec.IsHot(View(), id)
      modifies this, llama, sessions.Values
      ensures sessions == old(sessions) && Unshared()
      ensures var a := Spec.Admit(llama.env, old(View()), id);
              View() == a.s && (h == match a
                                     case Refused(_) => Null
                                     case Active(_, c) => Context(c)
                                     case Dangling(_) => UseAfterErase)
    {
      hide Inv, Erase, IndexOf, Spec.Resized, Spec.Promote, Spec.SwapIn, Has, PathFor;
      ghost var s := View();
      var ctx := llama.InitContext();
      NoEntryChanged();
      if ctx.None? {
        return Null;
      }
      if id !in sessions {
        return UseAfterErase;
      }
      var meta := sessions[id];
      Spec.EntryId(s, id);
      assert s.sessions[id] == meta.Value();
      if meta.swapFilePath != "" {
        Spec.SwappedFacts(s, id);
        Spec.SwappedBytes(s, id);
        ghost var w := llama.w;
        var ok := LoadSwapped(meta, ctx.value);
        OneEntryChanged(id);
        if !ok {
          return Null;
        }
        ghost var w1 := Foreign.LoadFile(llama.env, w, ctx.value, meta.swapFilePath, nCtx).0;
        assert View() == Spec.Loaded(s, w1, id, meta.tokens);
        Spec.SwapInIsPromote(llama.env, s, w1, id, ctx.value, meta.tokens);
      } else {
        Spec.PromoteSetsWorld(llama.env, s, llama.w, id, ctx.value, meta.tokens);
      }
      Promote(meta, id, ctx.value);
      return Context(ctx.value);
    }

    /** The end of `activateForInfer`: the session takes the context and joins the HOT list. */
    method Promote(meta: SessionMeta, id: int, ctx: CtxId)
      requires id in sessions && sessions[id] == meta && meta.id == id && Unshared()
      modifies this`hotLru, this`nextIt, llama, meta
      ensures View() == Spec.Promote(llama.env, old(View()), old(llama.w), id, ctx, old(meta.tokens)).s
    {
      meta.ctx := Some(ctx);
      meta.tier := HOT;
      hotLru := hotLru + [Node(nextIt, id)];
      meta.lruIt := nextIt;
      nextIt := nextIt + 1;
      meta.lastUsedMs := llama.NowMs();
      OneEntryChanged(id);
    }

    /** The swap-in block of `activateForInfer`: on failure the new context is freed again. */
    method LoadSwapped(meta: SessionMeta, ctx: CtxId) returns (ok: bool)
      requires ctx in llama.w.ctxs && Has(coldLru, meta.lruIt) && meta.swapFileBytes <= coldUsedBytes
      modifies llama, this`coldLru, this`coldUsedBytes, meta`tokens, meta`swapFileBytes
      ensures var (w1, loaded) := Foreign.LoadFile(llama.env, old(llama.w), ctx, meta.swapFilePath, nCtx);
        && ok == loaded.Some?
        && (!ok ==> llama.w == Foreign.FreeContext(w1, ctx) && meta.tokens == Spec.Resized(old(meta.tokens), nCtx)
                    && unchanged(this) && meta.swapFileBytes == old(meta.swapFileBytes))
        && (ok ==> llama.w == Foreign.RemoveFile(w1, meta.swapFilePath) && meta.tokens == loaded.value
                   && meta.swapFileBytes == 0 && coldLru == Erase(old(coldLru), meta.lruIt)
                   && coldUsedBytes == old(coldUsedBytes) - old(meta.swapFileBytes))
    {
      meta.tokens := Spec.Resized(meta.tokens, nCtx);
      var loaded := llama.LoadFile(ctx, meta.swapFilePath, |meta.tokens|);
      if loaded.None? {
        llama.FreeContext(ctx);
        return false;
      }
      meta.tokens := loaded.value;
      coldLru := Erase(coldLru, meta.lruIt);
      coldUsedBytes := coldUsedBytes - meta.swapFileBytes;
      meta.swapFileBytes := 0;
      llama.RemoveFile(meta.swapFilePath);
      return true;
    }

    /** The destructor: frees the contexts of all HOT sessions, after which no context is left. */
    method Destroy()
      requires Valid()
      modifies llama
      ensures llama.w == old(llama.w).(ctxs := map[])
    {
      ghost var s := View();
      hide Inv, Contexts;
      Spec.LiveContextsAreOwned(s);
      var ids: set<int> := sessions.Keys;
      while ids != {}
        invariant ids <= sessions.Keys && llama.w == s.w.(ctxs := llama.w.ctxs)
        invariant forall id, c :: Owns(s.sessions, id, c) && id in ids ==> c in llama.w.ctxs
        invariant forall c :: c in llama.w.ctxs ==> exists id :: Owns(s.sessions, id, c) && id in ids
        decreases |ids|
      {
        var id := Pick(ids);
        var meta := sessions[id];
        assert s.sessions[id] == old(sessions[id].Value());
        if meta.tier.HOT? && meta.ctx.Some? {
          assert Owns(s.sessions, id, meta.ctx.value);
          llama.FreeContext(meta.ctx.value);
        }
        ids := ids - {id};
      }
      assert llama.w.ctxs == map[];
    }
  }
}
