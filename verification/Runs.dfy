/**
 Whole runs: any sequence of create, kill, limit and infer calls on a fresh manager, under any
 resolution of what the foreign code does.
 */
module Runs {
  import opened Wrappers
  import opened Foreign
  import opened SessionState
  import opened SessionSpec
  import opened InferSpec
  import opened Views

  datatype Op =
    | Create(id: int)
    | Kill(id: int)
    | HotLimit(count: nat)
    | ColdLimit(bytes: nat)
    | Inference(id: int, prompt: seq<Token>, maxTokens: nat)

  /**
   `history` is everything ever recorded for an id since it was created; `lagging` are the ids one of
   whose decode loops ended on a decode that failed and left its token out of the cache, `leading` those
   one of whose prefills failed and left tokens in the cache; `rounds` are the prunes of each id since it
   was created.  `Crashed` is a run that reached undefined behaviour.
   */
  datatype Run =
    | Live(s: State, history: map<int, seq<Token>>, lagging: set<int>, leading: set<int>,
           rounds: map<int, seq<Round>>)
    | Crashed

  function HistoryOf(history: map<int, seq<Token>>, id: int): seq<Token> {
    if id in history then history[id] else []
  }

  function PrunesOf(rounds: map<int, seq<Round>>, id: int): seq<Round> {
    if id in rounds then rounds[id] else []
  }

  /** The manager's state after one call, if the call is defined behaviour. */
  function Apply(env: Env, s: State, op: Op): (r: Option<State>)
    requires Inv(s)
    ensures r.Some? ==> Inv(r.value)
  {
    match op
    case Create(id) =>
      CreateKeepsInv(env, s, id);
      Some(CreateSession(env, s, id))
    case Kill(id) =>
      KillKeepsInv(s, id);
      Some(KillSession(s, id))
    case HotLimit(count) => Some(SetHotLimit(env, s, count))
    case ColdLimit(bytes) => Some(SetColdLimit(s, bytes))
    case Inference(id, prompt, maxTokens) =>
      InferKeepsInv(env, s, id, prompt, maxTokens);
      match Infer(env, s, id, prompt, maxTokens)
      case Undefined(_) => None
      case Answer(s1, _, _, _, _, _) => Some(s1)
  }

  /** The evictions that one call makes. */
  function Evictions(env: Env, s: State, op: Op): seq<Pruning>
    requires Inv(s)
  {
    match op
    case HotLimit(count) => EvictHot(env, Limited(s, count), -1).log
    case Inference(id, _, _) => ActivationLog(env, s, id)
    case _ => []
  }

  function OneAdded(rounds: map<int, seq<Round>>, p: Pruning): map<int, seq<Round>> {
    rounds[p.id := PrunesOf(rounds, p.id) + p.rounds]
  }

  function AddRounds(rounds: map<int, seq<Round>>, log: seq<Pruning>): map<int, seq<Round>>
    decreases |log|
  {
    if log == [] then rounds
    else AddRounds(OneAdded(rounds, log[0]), log[1..])
  }

  function Step(env: Env, r: Run, op: Op): (q: Run)
    requires r.Live? ==> Inv(r.s)
    ensures q.Live? ==> Inv(q.s)
  {
    if r.Crashed? then r
    else
      match Apply(env, r.s, op)
      case None => Crashed
      case Some(s1) => Noted(env, r, op, s1)
  }

  /** The bookkeeping of a run beside the state `s1` that one call leads to. */
  function Noted(env: Env, r: Run, op: Op, s1: State): (q: Run)
    requires r.Live? && Inv(r.s)
    ensures q.Live? && q.s == s1
  {
    match op
    case Create(id) =>
      if id in r.s.sessions then r.(s := s1)
      else Live(s1, r.history[id := []], r.lagging - {id}, r.leading - {id}, r.rounds[id := []])
    case Inference(id, prompt, maxTokens) =>
      var a := Infer(env, r.s, id, prompt, maxTokens);
      var rounds := AddRounds(r.rounds, Evictions(env, r.s, op));
      if a.Undefined? then r.(s := s1, rounds := rounds)
      else
        Live(s1, r.history[id := HistoryOf(r.history, id) + a.recorded],
             if a.lost then r.lagging + {id} else r.lagging,
             if a.leftover then r.leading + {id} else r.leading, rounds)
    case _ => r.(s := s1, rounds := AddRounds(r.rounds, Evictions(env, r.s, op)))
  }

  function Exec(env: Env, swapDir: string, nCtx: nat, ops: seq<Op>): (r: Run)
    ensures r.Live? ==> Inv(r.s)
  {
    if ops == [] then Live(Initial(swapDir, nCtx), map[], {}, {}, map[])
    else Step(env, Exec(env, swapDir, nCtx, ops[..|ops| - 1]), ops[|ops| - 1])
  }

  lemma ExecOneMore(env: Env, swapDir: string, nCtx: nat, ops: seq<Op>, op: Op)
    ensures Exec(env, swapDir, nCtx, ops + [op]) == Step(env, Exec(env, swapDir, nCtx, ops), op)
  {
    assert (ops + [op])[..|ops|] == ops;
  }

  // ---- infer and the stored views ----

  /** The generated tokens that are in the cache: all but the last one if that one is lost. */
  function InCache(generated: seq<Token>, lost: bool): seq<Token> {
    if lost && generated != [] then generated[..|generated| - 1] else generated
  }

  lemma InCacheCons(tok: Token, generated: seq<Token>, lost: bool)
    requires lost ==> generated != []
    ensures InCache([tok] + generated, lost) == [tok] + InCache(generated, lost)
  {
  }

  /** One round: the loop stops without a token, fails on a token, or decodes a token and goes on. */
  lemma DecodeRound(env: Env, w: World, ctx: CtxId, left: nat) returns (goesOn: bool, w3: World, tok: Token)
    requires ctx in w.ctxs
    ensures goesOn ==>
      && left > 0 && ctx in w3.ctxs && w3.ctxs[ctx] == AppendTokens(w.ctxs[ctx], [tok])
      && var r := DecodeLoop(env, w3, ctx, left - 1);
         DecodeLoop(env, w, ctx, left) == r.(generated := [tok] + r.generated)
    ensures !goesOn ==>
      var r := DecodeLoop(env, w, ctx, left);
      r.w.ctxs[ctx] == AppendTokens(w.ctxs[ctx], InCache(r.generated, r.lost)) && (r.lost ==> r.generated != [])
  {
    goesOn, w3, tok := false, w, 0;
    AppendNothing(w.ctxs[ctx]);
    if left > 0 {
      var (w1, cancel) := CancelRequested(env, w);
      var (w2, t) := Sample(env, w1);
      var (w4, ok) := Decode(env, w2, ctx, [t]);
      if !cancel && !env.isEog(t) && ok {
        goesOn, w3, tok := true, w4, t;
      }
    }
  }

  /** The cache takes up every generated token, or all but the last one if its decode failed and left it out. */
  lemma {:induction false} DecodeLoopCells(env: Env, w: World, ctx: CtxId, left: nat)
    requires ctx in w.ctxs
    ensures var d := DecodeLoop(env, w, ctx, left);
      && (d.lost ==> d.generated != [])
      && d.w.ctxs[ctx] == AppendTokens(w.ctxs[ctx], InCache(d.generated, d.lost))
    decreases left
  {
    hide DecodeLoop, AppendTokens;
    var goesOn, w3, tok := DecodeRound(env, w, ctx, left);
    if !goesOn {
    } else {
      var r := DecodeLoop(env, w3, ctx, left - 1);
      DecodeLoopCells(env, w3, ctx, left - 1);
      InCacheCons(tok, r.generated, r.lost);
      AppendAppend(w.ctxs[ctx], [tok], InCache(r.generated, r.lost));
    }
  }

  lemma AppendNothing(cells: seq<Cell>)
    ensures AppendTokens(cells, []) == cells
  {
  }

  lemma RecordKeepsViews(env: Env, s: State, id: int, tokens: seq<Token>)
    requires Inv(s) && IsHot(s, id)
    ensures var r := RecordTokens(env, s, id, tokens);
      && r.sessions.Keys == s.sessions.Keys
      && ViewOf(r, id) == View(ViewOf(s, id).cells, ViewOf(s, id).tokens + tokens)
      && (forall k :: k in r.sessions && k != id ==> ViewOf(r, k) == ViewOf(s, k))
  {
  }

  /** Foreign calls on one session's context are invisible to the others. */
  lemma CellsOfOneChange(s: State, w1: World, id: int)
    requires Inv(s) && IsHot(s, id)
    requires w1.ctxs.Keys == s.w.ctxs.Keys && w1.files == s.w.files
    requires forall c :: c in s.w.ctxs && Some(c) != s.sessions[id].ctx ==> w1.ctxs[c] == s.w.ctxs[c]
    ensures var r := s.(w := w1);
      && (forall k :: k in r.sessions && k != id ==> ViewOf(r, k) == ViewOf(s, k))
      && ViewOf(r, id).tokens == ViewOf(s, id).tokens
  {
    var r := s.(w := w1);
    forall k | k in r.sessions && k != id
      ensures ViewOf(r, k) == ViewOf(s, k)
    {
      NoSharing(s, k, id);
      if IsHot(s, k) {
        HotFacts(s, k);
      }
    }
  }

  /** Decoding keeps up with recording: what lies below stays, a lag stays. */
  lemma GrowTracked(v: View, tokens: seq<Token>, depth: nat)
    requires Tracked(v, depth)
    ensures Tracked(View(AppendTokens(v.cells, tokens), v.tokens + tokens), depth)
  {
    TrackedNextPos(v, depth);
    var under :| Stale(v, under, depth);
    hide NextPos;
    LayoutAppend(v.tokens, tokens);
    assert Stale(View(AppendTokens(v.cells, tokens), v.tokens + tokens), under, depth);
  }

  /** `infer` on `id`: other sessions are pruned at most; the session itself may be, then grows by `recorded`. */
  ghost predicate InferEffect(s: State, id: int, a: Inference, log: seq<Pruning>)
    requires a.Answer?
  {
    && (forall k :: k in a.s.sessions && k != id ==>
          k in s.sessions && PrunedBy(ViewOf(s, k), ViewOf(a.s, k), RoundsOf(log, k)))
    && (a.lost || a.leftover || a.recorded != [] ==> id in a.s.sessions)
    && (id in a.s.sessions ==>
          id in s.sessions && exists u :: PrunedBy(ViewOf(s, id), u, RoundsOf(log, id)) && GrownFrom(u, ViewOf(a.s, id), a))
  }

  /**
   The cache grows with the token vector, unless the last token is lost or a failed prefill left tokens
   behind; a lag and a lead stay unless the other one comes about as well.
   */
  ghost predicate GrownFrom(u: View, v: View, a: Inference)
    requires a.Answer?
  {
    && v.tokens == u.tokens + a.recorded
    && !(a.lost && a.leftover)
    && (forall depth: nat :: Tracked(u, depth) ==>
          if a.lost then Lagging(v) else if a.leftover then Leading(v) else Tracked(v, depth))
    && (Lagging(u) && !a.leftover ==> Lagging(v))
    && (Leading(u) && !a.lost ==> Leading(v))
  }

  lemma InferRecords(env: Env, s: State, id: int, prompt: seq<Token>, maxTokens: nat)
    requires Inv(s) && Infer(env, s, id, prompt, maxTokens).Answer?
    ensures InferEffect(s, id, Infer(env, s, id, prompt, maxTokens), ActivationLog(env, s, id))
  {
    hide Inv, Activate, ActivationLog, Generate, ViewOf, InferEffect;
    var a := Activate(env, s, id);
    var r := Infer(env, s, id, prompt, maxTokens);
    ActivatePrunesViews(env, s, id);
    if a.Active? {
      ActivateGivesHot(env, s, id);
      GenerateGrows(env, a.s, id, a.ctx, prompt, maxTokens);
    } else {
      assert r == Answer(a.s, false, [], [], false, false);
      if id in r.s.sessions {
        NothingGrown(ViewOf(a.s, id), r);
      }
    }
    EffectIf(s, a.s, id, r, ActivationLog(env, s, id));
  }

  lemma EffectIf(s: State, t: State, id: int, a: Inference, log: seq<Pruning>)
    requires a.Answer? && ViewsPruned(s, t, log) && a.s.sessions.Keys == t.sessions.Keys
    requires forall k :: k in a.s.sessions && k != id ==> ViewOf(t, k) == ViewOf(a.s, k)
    requires if id in a.s.sessions then GrownFrom(ViewOf(t, id), ViewOf(a.s, id), a)
             else !a.lost && !a.leftover && a.recorded == []
    ensures InferEffect(s, id, a, log)
  {
    hide ViewOf, PrunedBy, GrownFrom, RoundsOf;
    if id in a.s.sessions {
      assert PrunedBy(ViewOf(s, id), ViewOf(t, id), RoundsOf(log, id));
    }
  }

  /** What prefill, decode loop and recording make of the session's cache and token vector. */
  lemma GenerateView(env: Env, s: State, id: int, ctx: CtxId, prompt: seq<Token>, maxTokens: nat)
    requires Inv(s) && HoldsContext(s, id, ctx) && ctx in s.w.ctxs
    ensures var a := Generate(env, s, id, ctx, prompt, maxTokens); var u := ViewOf(s, id);
      && a.s.sessions.Keys == s.sessions.Keys
      && (forall k :: k in a.s.sessions && k != id ==> ViewOf(s, k) == ViewOf(a.s, k))
      && (if env.decodeOk(s.w.tick) then
            && (a.lost ==> a.emitted != []) && !a.leftover && a.recorded == prompt + a.emitted
            && ViewOf(a.s, id) == View(AppendTokens(AppendTokens(u.cells, prompt), InCache(a.emitted, a.lost)),
                                       u.tokens + prompt + a.emitted)
          else
            && a == Answer(a.s, false, [], [], false, LeftOver(env, s.w.tick, prompt) != [])
            && ViewOf(a.s, id) == View(AppendTokens(u.cells, LeftOver(env, s.w.tick, prompt)), u.tokens))
  {
    var (w1, ok) := Decode(env, s.w, ctx, prompt);
    var s1 := s.(w := w1);
    WorldKeepsInv(s, w1, id);
    CellsOfOneChange(s, w1, id);
    hide Inv, DecodeLoop, AppendTokens, RecordTokens;
    if ok {
      var s2 := RecordTokens(env, s1, id, prompt);
      RecordedStaysHot(env, s1, id, prompt);
      RecordKeepsViews(env, s1, id, prompt);
      var d := DecodeLoop(env, s2.w, ctx, maxTokens);
      DecodeLoopCells(env, s2.w, ctx, maxTokens);
      var s3 := s2.(w := d.w);
      WorldKeepsInv(s2, d.w, id);
      CellsOfOneChange(s2, d.w, id);
      RecordKeepsViews(env, s3, id, d.generated);
    }
  }

  lemma GenerateGrows(env: Env, s: State, id: int, ctx: CtxId, prompt: seq<Token>, maxTokens: nat)
    requires Inv(s) && HoldsContext(s, id, ctx) && ctx in s.w.ctxs
    ensures var a := Generate(env, s, id, ctx, prompt, maxTokens);
      && a.s.sessions.Keys == s.sessions.Keys
      && (forall k :: k in a.s.sessions && k != id ==> ViewOf(s, k) == ViewOf(a.s, k))
      && GrownFrom(ViewOf(s, id), ViewOf(a.s, id), a)
  {
    hide Inv, Generate, AppendTokens, GrownFrom, ViewOf;
    GenerateView(env, s, id, ctx, prompt, maxTokens);
    var a := Generate(env, s, id, ctx, prompt, maxTokens);
    if env.decodeOk(s.w.tick) {
      LoopView(ViewOf(s, id), prompt, a, ViewOf(a.s, id));
    } else {
      LeftOverView(ViewOf(s, id), LeftOver(env, s.w.tick, prompt), a, ViewOf(a.s, id));
    }
  }

  lemma NothingGrown(u: View, a: Inference)
    requires a.Answer? && a.recorded == [] && !a.lost && !a.leftover
    ensures GrownFrom(u, u, a)
  {
    hide Tracked, Lagging, Leading;
  }

  lemma LeftOverView(u: View, left: seq<Token>, a: Inference, v: View)
    requires a.Answer? && a.recorded == [] && !a.lost && a.leftover == (left != [])
    requires v == View(AppendTokens(u.cells, left), u.tokens)
    ensures GrownFrom(u, v, a)
  {
    if left == [] {
      AppendNothing(u.cells);
      NothingGrown(u, a);
    } else {
      NextPosAppend(u.cells, left);
      hide AppendTokens, NextPos, Tracked;
      forall depth: nat | Tracked(u, depth)
        ensures Leading(v)
      {
        TrackedNextPos(u, depth);
      }
    }
  }

  lemma LoopView(u: View, prompt: seq<Token>, a: Inference, v: View)
    requires a.Answer? && (a.lost ==> a.emitted != []) && !a.leftover && a.recorded == prompt + a.emitted
    requires v.cells == AppendTokens(AppendTokens(u.cells, prompt), InCache(a.emitted, a.lost))
    requires v.tokens == u.tokens + prompt + a.emitted
    ensures GrownFrom(u, v, a)
  {
    var t := prompt + InCache(a.emitted, a.lost);
    AppendAppend(u.cells, prompt, InCache(a.emitted, a.lost));
    NextPosAppend(u.cells, t);
    assert u.tokens + prompt + a.emitted == u.tokens + (prompt + a.emitted);
    hide AppendTokens, NextPos, Tracked;
    forall depth: nat | Tracked(u, depth)
      ensures if a.lost then Lagging(v) else Tracked(v, depth)
    {
      TrackedNextPos(u, depth);
      GrowTracked(u, t, depth);
    }
  }

  // ---- transparency of swapping ----

  /** What failed decodes did to a session: `lag` for a token left out, `lead` for tokens left behind. */
  datatype Drift = Drift(lag: bool, lead: bool)

  function DriftOf(r: Run, id: int): Drift
    requires r.Live?
  {
    Drift(id in r.lagging, id in r.leading)
  }

  ghost predicate ConsistentView(v: View, history: seq<Token>, drift: Drift, rounds: seq<Round>) {
    && Left(v.tokens, history, Total(rounds))
    && (!drift.lag && !drift.lead ==> Tracked(v, Depth(0, rounds)))
    && (drift.lag && !drift.lead ==> Lagging(v))
    && (drift.lead && !drift.lag ==> Leading(v))
  }

  ghost predicate Consistent(r: Run)
    requires r.Live?
  {
    forall id :: id in r.s.sessions ==>
      id in r.history && ConsistentView(ViewOf(r.s, id), r.history[id], DriftOf(r, id), PrunesOf(r.rounds, id))
  }

  lemma {:induction false} AddedRounds(rounds: map<int, seq<Round>>, log: seq<Pruning>, id: int)
    ensures PrunesOf(AddRounds(rounds, log), id) == PrunesOf(rounds, id) + RoundsOf(log, id)
    decreases |log|
  {
    hide PrunesOf, AddRounds, RoundsOf, OneAdded;
    if log == [] {
      AddsNothing(rounds, id);
    } else {
      AddsOneFirst(rounds, log, id);
      var rounds1, own := OneAdded(rounds, log[0]), if log[0].id == id then log[0].rounds else [];
      AddedRounds(rounds1, log[1..], id);
      AddedRound(rounds, log[0], id);
      assert PrunesOf(rounds, id) + own + RoundsOf(log[1..], id) == PrunesOf(rounds, id) + (own + RoundsOf(log[1..], id));
    }
  }

  lemma AddsNothing(rounds: map<int, seq<Round>>, id: int)
    ensures AddRounds(rounds, []) == rounds && RoundsOf([], id) == []
    ensures PrunesOf(rounds, id) + [] == PrunesOf(rounds, id)
  {
  }

  lemma AddsOneFirst(rounds: map<int, seq<Round>>, log: seq<Pruning>, id: int)
    requires log != []
    ensures AddRounds(rounds, log) == AddRounds(OneAdded(rounds, log[0]), log[1..])
    ensures RoundsOf(log, id) == (if log[0].id == id then log[0].rounds else []) + RoundsOf(log[1..], id)
  {
  }

  lemma AddedRound(rounds: map<int, seq<Round>>, p: Pruning, id: int)
    ensures PrunesOf(OneAdded(rounds, p), id) == PrunesOf(rounds, id) + if p.id == id then p.rounds else []
  {
  }

  lemma PrunedStaysConsistent(v: View, u: View, history: seq<Token>, drift: Drift, a: seq<Round>, b: seq<Round>)
    requires ConsistentView(v, history, drift, a) && PrunedBy(v, u, b)
    ensures ConsistentView(u, history, drift, a + b)
  {
    hide Tracked, Lagging, Leading, Depth, Left, Total;
    LeftTwice(history, v.tokens, u.tokens, Total(a), Total(b));
    TotalConcat(a, b);
    DepthConcat(0, a, b);
  }

  /** Calls that do nothing to the views but prune them. */
  lemma PruningKeepsConsistent(r: Run, s1: State, log: seq<Pruning>)
    requires r.Live? && Consistent(r) && ViewsPruned(r.s, s1, log)
    ensures Consistent(r.(s := s1, rounds := AddRounds(r.rounds, log)))
  {
    hide ConsistentView, PrunedBy, ViewOf, RoundsOf, AddRounds;
    forall k | k in s1.sessions
      ensures k in r.history
      ensures ConsistentView(ViewOf(s1, k), r.history[k], DriftOf(r, k), PrunesOf(AddRounds(r.rounds, log), k))
    {
      AddedRounds(r.rounds, log, k);
      PrunedStaysConsistent(ViewOf(r.s, k), ViewOf(s1, k), r.history[k], DriftOf(r, k),
                            PrunesOf(r.rounds, k), RoundsOf(log, k));
    }
  }

  lemma CreateKeepsConsistent(env: Env, r: Run, id: int)
    requires r.Live? && Inv(r.s) && Consistent(r)
    ensures Consistent(Noted(env, r, Create(id), CreateSession(env, r.s, id)))
  {
    if id !in r.s.sessions {
      var s1 := CreateSession(env, r.s, id);
      assert ViewOf(s1, id) == View([], []);
      forall k | k in s1.sessions && k != id
        ensures ViewOf(s1, k) == ViewOf(r.s, k)
      {
      }
      assert Stale(View([], []), [], 0);
      hide Inv, ViewOf, Tracked, Lagging, Leading;
    }
  }

  /** Calls that leave the views alone. */
  lemma SameViewsKeepConsistent(env: Env, r: Run, op: Op, s1: State)
    requires r.Live? && Inv(r.s) && Consistent(r) && SameViews(r.s, s1) && (op.Kill? || op.ColdLimit?)
    ensures Consistent(Noted(env, r, op, s1))
  {
    hide Inv, ViewOf, ConsistentView;
    assert Noted(env, r, op, s1) == r.(s := s1);
  }

  lemma KillKeepsConsistent(env: Env, r: Run, id: int)
    requires r.Live? && Inv(r.s) && Consistent(r)
    ensures Consistent(Noted(env, r, Kill(id), KillSession(r.s, id)))
  {
    hide *;
    KillKeepsViews(r.s, id);
    SameViewsKeepConsistent(env, r, Kill(id), KillSession(r.s, id));
  }

  lemma HotLimitKeepsConsistent(env: Env, r: Run, count: nat)
    requires r.Live? && Inv(r.s) && Consistent(r)
    ensures Consistent(Noted(env, r, HotLimit(count), SetHotLimit(env, r.s, count)))
  {
    hide Inv, ViewOf, EvictHot, Consistent, ViewsPruned, SameViews;
    var s0 := Limited(r.s, count);
    LimitsKeepViews(r.s, count, 0);
    EvictHotPrunesViews(env, s0, -1);
    var e := EvictHot(env, s0, -1);
    SameThenViewsPruned(r.s, s0, e.s, e.log);
    PruningKeepsConsistent(r, e.s, e.log);
  }

  lemma ColdLimitKeepsConsistent(env: Env, r: Run, bytes: nat)
    requires r.Live? && Inv(r.s) && Consistent(r)
    ensures Consistent(Noted(env, r, ColdLimit(bytes), SetColdLimit(r.s, bytes)))
  {
    hide Inv, Consistent, EvictCold, Noted;
    EvictColdKeepsViews(Budgeted(r.s, bytes), -1);
    LimitsKeepViews(r.s, 0, bytes);
    SameViewsTwice(r.s, Budgeted(r.s, bytes), SetColdLimit(r.s, bytes));
    SameViewsKeepConsistent(env, r, ColdLimit(bytes), SetColdLimit(r.s, bytes));
  }

  lemma LimitsKeepViews(s: State, count: nat, bytes: nat)
    requires Inv(s)
    ensures SameViews(s, Limited(s, count)) && SameViews(s, Budgeted(s, bytes))
  {
    hide Inv;
  }

  lemma SameViewsTwice(s: State, t: State, r: State)
    requires SameViews(s, t) && SameViews(t, r)
    ensures SameViews(s, r)
  {
    hide ViewOf;
  }

  lemma LeftGrows(a: seq<Token>, b: seq<Token>, n: nat, t: seq<Token>)
    requires Left(a, b, n)
    ensures Left(a + t, b + t, n)
  {
  }

  lemma GrownStaysConsistent(u: View, v: View, history: seq<Token>, drift: Drift, rounds: seq<Round>, a: Inference)
    requires a.Answer? && ConsistentView(u, history, drift, rounds) && GrownFrom(u, v, a)
    ensures ConsistentView(v, history + a.recorded, Drift(drift.lag || a.lost, drift.lead || a.leftover), rounds)
  {
    LeftGrows(u.tokens, history, Total(rounds), a.recorded);
    hide Tracked, Lagging, Leading, Depth, Left, Total;
  }

  lemma InferredView(s: State, id: int, a: Inference, log: seq<Pruning>, history: seq<Token>, drift: Drift,
                     rounds: seq<Round>)
    requires a.Answer? && InferEffect(s, id, a, log) && id in a.s.sessions
    requires id in s.sessions && ConsistentView(ViewOf(s, id), history, drift, rounds)
    ensures ConsistentView(ViewOf(a.s, id), history + a.recorded, Drift(drift.lag || a.lost, drift.lead || a.leftover),
                           rounds + RoundsOf(log, id))
  {
    hide ConsistentView, PrunedBy, GrownFrom, ViewOf, RoundsOf;
    var u :| PrunedBy(ViewOf(s, id), u, RoundsOf(log, id)) && GrownFrom(u, ViewOf(a.s, id), a);
    PrunedStaysConsistent(ViewOf(s, id), u, history, drift, rounds, RoundsOf(log, id));
    GrownStaysConsistent(u, ViewOf(a.s, id), history, drift, rounds + RoundsOf(log, id), a);
  }

  lemma OtherView(s: State, id: int, a: Inference, log: seq<Pruning>, k: int)
    requires a.Answer? && InferEffect(s, id, a, log) && k in a.s.sessions
    ensures k in s.sessions
    ensures k != id ==> PrunedBy(ViewOf(s, k), ViewOf(a.s, k), RoundsOf(log, k))
  {
    hide PrunedBy, GrownFrom, ViewOf, RoundsOf;
  }

  lemma InferKeepsConsistent(env: Env, r: Run, id: int, prompt: seq<Token>, maxTokens: nat)
    requires r.Live? && Inv(r.s) && Consistent(r)
    requires Infer(env, r.s, id, prompt, maxTokens).Answer?
    ensures Consistent(Noted(env, r, Inference(id, prompt, maxTokens), Infer(env, r.s, id, prompt, maxTokens).s))
  {
    hide Inv, Infer, ActivationLog, ConsistentView, PrunedBy, InferEffect, ViewOf, AddRounds, RoundsOf;
    var a := Infer(env, r.s, id, prompt, maxTokens);
    var log := ActivationLog(env, r.s, id);
    InferRecords(env, r.s, id, prompt, maxTokens);
    var q := Noted(env, r, Inference(id, prompt, maxTokens), a.s);
    forall k | k in q.s.sessions
      ensures k in q.history
      ensures ConsistentView(ViewOf(q.s, k), q.history[k], DriftOf(q, k), PrunesOf(q.rounds, k))
    {
      AddedRounds(r.rounds, log, k);
      OtherView(r.s, id, a, log, k);
      if k == id {
        InferredView(r.s, id, a, log, r.history[id], DriftOf(r, id), PrunesOf(r.rounds, id));
      } else {
        PrunedStaysConsistent(ViewOf(r.s, k), ViewOf(a.s, k), r.history[k], DriftOf(r, k), PrunesOf(r.rounds, k),
                              RoundsOf(log, k));
      }
    }
  }

  lemma StepKeepsConsistent(env: Env, r: Run, op: Op)
    requires r.Live? && Inv(r.s) && Consistent(r)
    ensures Step(env, r, op).Live? ==> Consistent(Step(env, r, op))
  {
    hide Inv, Consistent, Noted, CreateSession, KillSession, SetHotLimit, SetColdLimit, Infer;
    match op
    case Create(id) => CreateKeepsConsistent(env, r, id);
    case Kill(id) => KillKeepsConsistent(env, r, id);
    case HotLimit(count) => HotLimitKeepsConsistent(env, r, count);
    case ColdLimit(bytes) => ColdLimitKeepsConsistent(env, r, bytes);
    case Inference(id, prompt, maxTokens) =>
      if Infer(env, r.s, id, prompt, maxTokens).Answer? {
        InferKeepsConsistent(env, r, id, prompt, maxTokens);
      }
  }

  lemma {:induction false} RunsAreConsistent(env: Env, swapDir: string, nCtx: nat, ops: seq<Op>)
    ensures var r := Exec(env, swapDir, nCtx, ops); r.Live? ==> Consistent(r)
    decreases |ops|
  {
    if ops == [] {
    } else {
      hide Inv, Step, Consistent;
      var r := Exec(env, swapDir, nCtx, ops[..|ops| - 1]);
      RunsAreConsistent(env, swapDir, nCtx, ops[..|ops| - 1]);
      if r.Live? {
        StepKeepsConsistent(env, r, ops[|ops| - 1]);
      }
    }
  }

  /**
   Swapping is transparent.  In every run, whatever fails on the way, the tokens a session has
   stored are those recorded for it since it was created, less the first ones, as many as its prunes
   dropped.  Its KV cache (live or saved) holds those same
   tokens at positions 0, 1, 2, ... if and only if no decode loop of the session ended on a decode that
   failed and left its token out, no prefill failed and left tokens behind, and every prune that the
   cache refused was made good: the session's later prunes dropped at least as many tokens.  Only for a
   session that has seen both kinds of failed decode the failures do not decide: they may cancel out.
   */
  lemma SwappingIsTransparent(env: Env, swapDir: string, nCtx: nat, ops: seq<Op>, id: int)
    requires Exec(env, swapDir, nCtx, ops).Live?
    requires id in Exec(env, swapDir, nCtx, ops).s.sessions
    ensures var r := Exec(env, swapDir, nCtx, ops);
      && id in r.history
      && var dropped := Total(PrunesOf(r.rounds, id));
      && dropped <= |r.history[id]| && ViewOf(r.s, id).tokens == r.history[id][dropped..]
      && (!(id in r.lagging && id in r.leading) ==>
            (Aligned(ViewOf(r.s, id)) <==>
             id !in r.lagging && id !in r.leading && MadeGood(PrunesOf(r.rounds, id))))
  {
    var r := Exec(env, swapDir, nCtx, ops);
    RunsAreConsistent(env, swapDir, nCtx, ops);
    hide Exec, ViewOf, Aligned, Lagging, Leading, Tracked, MadeGood, Depth, Total;
    var rounds := PrunesOf(r.rounds, id);
    NothingStaleIff(0, rounds);
    if id in r.lagging || id in r.leading {
      if !(id in r.lagging && id in r.leading) {
        DriftedIsNotAligned(ViewOf(r.s, id));
      }
    } else {
      AlignedIfNothingStale(ViewOf(r.s, id), Depth(0, rounds));
    }
  }
}
