/**
 Runs on which a promise that holds elsewhere fails: the reason for the conditions in ColdTier.dfy,
 Runs.dfy and EveryRun.dfy.
 */
module CornerCases {
  import opened Wrappers
  import opened Foreign
  import opened LruList
  import opened SessionState
  import opened SessionSpec
  import opened InferSpec
  import opened Views
  import opened ColdTier
  import opened LruOrder
  import opened Runs
  import opened EveryRun

  /** Room made in a HOT tier of one: its session is swapped out and charged `size` bytes. */
  lemma EvictTheOnlyOne(env: Env, s: State, victim: int, excludeId: int, size: nat)
    requires Inv(s) && Steady(env, size) && IsHot(s, victim) && victim != -1 && victim != excludeId
    requires |s.hot| == 1 == s.hotLimit && s.hot[0].id == victim
    ensures var e := EvictHot(env, s, excludeId);
      && SwapOut(env, s, victim).ok && e.s == SwapOut(env, s, victim).s
      && e.swaps == 1 && e.charged == size && e.s.hot == []
      && e.log == [Pruning(victim, SaveOf(env, s, victim).rounds)]
      && SaveOf(env, s, victim).bytes == Some(size)
  {
    SteadySave(env, s, victim, size);
    SwapOutShrinksHot(env, s, victim);
    SwapOutFrame(env, s, victim);
    hide Inv, SwapOut, SaveOf, Steady;
    var o := SwapOut(env, s, victim);
    assert HotVictim(s.hot, excludeId) == victim;
    assert EvictHot(env, o.s, excludeId) == HotEviction(o.s, 0, 0, false, []);
  }

  /** An inference on a session that was never swapped out, once there is room, makes it HOT. */
  lemma AdmitNew(env: Env, s: State, id: int)
    requires Inv(s) && id in s.sessions && s.sessions[id].Place() == Unlisted && env.initOk(s.w.tick)
    ensures var a := Admit(env, s, id);
      && a.Active? && |a.s.hot| == |s.hot| + 1
      && a.s.cold == s.cold && a.s.coldUsed == s.coldUsed && a.s.coldLimit == s.coldLimit && a.s.hotLimit == s.hotLimit
      && a.s.sessions.Keys == s.sessions.Keys
      && (forall k :: k in s.sessions && k != id ==> a.s.sessions[k] == s.sessions[k])
  {
  }

  /** Inference after activation: the session stays HOT, the tiers keep their sizes. */
  lemma InferAfterActivation(env: Env, s: State, id: int, prompt: seq<Token>, maxTokens: nat)
    requires Inv(s) && Activate(env, s, id).Active?
    ensures var a := Activate(env, s, id).s; var r := Infer(env, s, id, prompt, maxTokens);
      && r.Answer? && Inv(r.s) && IsHot(r.s, id)
      && r.s.cold == a.cold && r.s.coldUsed == a.coldUsed && r.s.coldLimit == a.coldLimit
      && |r.s.hot| == |a.hot| && r.s.hotLimit == a.hotLimit
      && r.s.sessions.Keys == a.sessions.Keys
      && (forall k :: IsSwapped(a, k) <==> IsSwapped(r.s, k))
  {
    ActivateGivesHot(env, s, id);
    var a := Activate(env, s, id);
    GenerateFrame(env, a.s, id, a.ctx, prompt, maxTokens);
    GenerateReports(env, a.s, id, a.ctx, prompt, maxTokens);
  }

  // ---- an activation that loses its own session ----

  ghost predicate Tiers(s: State, ids: set<int>, coldLimit: nat, coldUsed: nat) {
    Inv(s) && s.sessions.Keys == ids && s.hotLimit == 1 && s.coldLimit == coldLimit && s.coldUsed == coldUsed
  }

  lemma OnlyHot(s: State, id: int)
    requires Inv(s) && IsHot(s, id) && |s.hot| == 1
    ensures s.hot[0].id == id
  {
  }

  /** The first session becomes HOT. */
  lemma FirstInference(env: Env, s: State, id: int, prompt: seq<Token>, maxTokens: nat, ids: set<int>, c: nat, size: nat)
    requires Steady(env, size) && Tiers(s, ids, c, 0) && id in ids && s.sessions[id].Place() == Unlisted
    requires s.hot == [] && s.cold == []
    ensures var r := Infer(env, s, id, prompt, maxTokens);
      r.Answer? && Tiers(r.s, ids, c, 0) && IsHot(r.s, id) && |r.s.hot| == 1 && r.s.cold == []
  {
    hide Inv, Admit;
    assert EvictHot(env, s, id).s == s;
    AdmitNew(env, s, id);
    InferAfterActivation(env, s, id, prompt, maxTokens);
  }

  lemma SwappedOutAlone(env: Env, s: State, victim: int, size: nat)
    requires Inv(s) && IsHot(s, victim) && s.cold == [] && size <= s.coldLimit
    requires SwapOut(env, s, victim).ok && SaveOf(env, s, victim).bytes == Some(size)
    ensures var r := SwapOut(env, s, victim).s;
      && r.sessions.Keys == s.sessions.Keys && IsSwapped(r, victim)
      && |r.cold| == 1 && r.cold[0].id == victim && r.coldUsed == size
  {
  }

  /** The second session becomes HOT, and the first one is swapped out. */
  lemma SecondInference(env: Env, s: State, first: int, id: int, prompt: seq<Token>, maxTokens: nat,
                        ids: set<int>, c: nat, size: nat)
    requires Steady(env, size) && Tiers(s, ids, c, 0) && size <= c
    requires IsHot(s, first) && first != -1 && |s.hot| == 1 && s.cold == []
    requires id in ids && s.sessions[id].Place() == Unlisted
    ensures var r := Infer(env, s, id, prompt, maxTokens);
      && r.Answer? && Tiers(r.s, ids, c, size) && IsHot(r.s, id) && |r.s.hot| == 1
      && IsSwapped(r.s, first) && |r.s.cold| == 1 && r.s.cold[0].id == first
  {
    OnlyHot(s, first);
    EvictTheOnlyOne(env, s, first, id, size);
    SwappedOutAlone(env, s, first, size);
    EvictHotLeavesCold(env, s, id, id);
    EvictHotAddsNobody(env, s, id);
    hide Inv, Admit, EvictHot, SwapOut;
    var e := EvictHot(env, s, id).s;
    AdmitNew(env, e, id);
    InferAfterActivation(env, s, id, prompt, maxTokens);
  }

  /** The first session is asked again: making room for it kills it. */
  lemma ThirdInference(env: Env, s: State, first: int, second: int, prompt: seq<Token>, maxTokens: nat,
                       ids: set<int>, c: nat, size: nat)
    requires Steady(env, size) && Tiers(s, ids, c, size) && c < 2 * size
    requires IsHot(s, second) && second != -1 && second != first && |s.hot| == 1
    requires IsSwapped(s, first) && |s.cold| == 1 && s.cold[0].id == first
    ensures Infer(env, s, first, prompt, maxTokens).Undefined?
  {
    OnlyHot(s, second);
    EvictTheOnlyOne(env, s, second, first, size);
    DanglesExactlyWhen(env, s, first);
    assert s.cold[0..] == s.cold;
    assert SumBytes(s.sessions, s.cold[0..]) == size;
  }

  function TwoSessions(c: nat, first: seq<Token>, second: seq<Token>, third: seq<Token>, maxTokens: nat): seq<Op> {
    Opening(c, 1, 2) +
    [Inference(1, first, maxTokens), Inference(2, second, maxTokens), Inference(1, third, maxTokens)]
  }

  function Opening(c: nat, a: int, b: int): seq<Op> {
    [HotLimit(1), ColdLimit(c), Create(a), Create(b)]
  }

  lemma Limits(env: Env, swapDir: string, nCtx: nat, c: nat)
    ensures Step(env, Step(env, Live(Initial(swapDir, nCtx), map[], {}, {}, map[]), HotLimit(1)), ColdLimit(c)) ==
            Live(Initial(swapDir, nCtx).(hotLimit := 1, coldLimit := c), map[], {}, {}, map[])
  {
  }

  lemma Creation(env: Env, r: Run, id: int)
    requires r.Live? && Inv(r.s) && id !in r.s.sessions
    ensures var q := Step(env, r, Create(id));
      && q.Live? && Inv(q.s) && q.s.sessions.Keys == r.s.sessions.Keys + {id}
      && q.s.hot == r.s.hot && q.s.cold == r.s.cold && q.s.hotLimit == r.s.hotLimit
      && q.s.coldLimit == r.s.coldLimit && q.s.coldUsed == r.s.coldUsed
      && q.s.sessions[id].Place() == Unlisted
      && (forall k :: k in r.s.sessions ==> q.s.sessions[k] == r.s.sessions[k])
  {
  }

  lemma ExecFour(env: Env, swapDir: string, nCtx: nat, a: Op, b: Op, c: Op, d: Op)
    ensures Exec(env, swapDir, nCtx, [a, b, c, d]) ==
            Step(env, Step(env, Step(env, Step(env, Exec(env, swapDir, nCtx, []), a), b), c), d)
  {
    hide Step, Inv;
    assert [a, b, c, d][..3] == [a, b, c] && [a, b, c][..2] == [a, b] && [a, b][..1] == [a] && [a][..0] == [];
    assert Exec(env, swapDir, nCtx, [a]) == Step(env, Exec(env, swapDir, nCtx, []), a);
    assert Exec(env, swapDir, nCtx, [a, b]) == Step(env, Exec(env, swapDir, nCtx, [a]), b);
    assert Exec(env, swapDir, nCtx, [a, b, c]) == Step(env, Exec(env, swapDir, nCtx, [a, b]), c);
  }

  lemma Setup(env: Env, swapDir: string, nCtx: nat, c: nat, a: int, b: int)
    requires a != b
    ensures var r := Exec(env, swapDir, nCtx, Opening(c, a, b));
      && r.Live? && Tiers(r.s, {a, b}, c, 0) && r.s.hot == [] && r.s.cold == []
      && r.s.sessions[a].Place() == Unlisted && r.s.sessions[b].Place() == Unlisted
  {
    ExecFour(env, swapDir, nCtx, HotLimit(1), ColdLimit(c), Create(a), Create(b));
    var r0 := Exec(env, swapDir, nCtx, []);
    Limits(env, swapDir, nCtx, c);
    var r2 := Step(env, Step(env, r0, HotLimit(1)), ColdLimit(c));
    hide Inv, Step, Exec;
    Creation(env, r2, a);
    var r3 := Step(env, r2, Create(a));
    Creation(env, r3, b);
    assert r3.s.sessions.Keys == {a} && Step(env, r3, Create(b)).s.sessions.Keys == {a, b};
  }

  lemma StepInfers(env: Env, r: Run, id: int, prompt: seq<Token>, maxTokens: nat)
    requires r.Live? && Inv(r.s)
    ensures var q := Step(env, r, Inference(id, prompt, maxTokens)); var a := Infer(env, r.s, id, prompt, maxTokens);
      && (a.Undefined? ==> q.Crashed?)
      && (a.Answer? ==> q.Live? && q.s == a.s)
  {
  }

  /**
   Two sessions take turns in a HOT tier of one, each saved state has `size` bytes, and the COLD
   budget holds one of them but not two: the third request uses an entry its own eviction killed.
   */
  lemma TakingTurnsDangles(env: Env, swapDir: string, nCtx: nat, size: nat, c: nat,
                           first: seq<Token>, second: seq<Token>, third: seq<Token>, maxTokens: nat)
    requires Steady(env, size) && size <= c < 2 * size
    ensures Exec(env, swapDir, nCtx, TwoSessions(c, first, second, third, maxTokens)).Crashed?
  {
    hide Exec, Steady, Opening, Tiers;
    Setup(env, swapDir, nCtx, c, 1, 2);
    var ops := Opening(c, 1, 2);
    var i1, i2, i3 := Inference(1, first, maxTokens), Inference(2, second, maxTokens), Inference(1, third, maxTokens);
    ExecThreeMore(env, swapDir, nCtx, ops, i1, i2, i3);
    ThreeTurns(env, Exec(env, swapDir, nCtx, ops), size, c, first, second, third, maxTokens);
  }

  lemma ThreeTurns(env: Env, r: Run, size: nat, c: nat, first: seq<Token>, second: seq<Token>, third: seq<Token>, maxTokens: nat)
    requires Steady(env, size) && size <= c < 2 * size
    requires r.Live? && Tiers(r.s, {1, 2}, c, 0) && r.s.hot == [] && r.s.cold == []
    requires r.s.sessions[1].Place() == Unlisted && r.s.sessions[2].Place() == Unlisted
    ensures Step(env, Step(env, Step(env, r, Inference(1, first, maxTokens)), Inference(2, second, maxTokens)),
                 Inference(1, third, maxTokens)).Crashed?
  {
    hide Inv, Infer, Step, Steady;
    StepInfers(env, r, 1, first, maxTokens);
    FirstInference(env, r.s, 1, first, maxTokens, {1, 2}, c, size);
    OtherStaysNew(env, r.s, 1, 2, first, maxTokens);
    var r1 := Step(env, r, Inference(1, first, maxTokens));
    StepInfers(env, r1, 2, second, maxTokens);
    SecondInference(env, r1.s, 1, 2, second, maxTokens, {1, 2}, c, size);
    var r2 := Step(env, r1, Inference(2, second, maxTokens));
    StepInfers(env, r2, 1, third, maxTokens);
    ThirdInference(env, r2.s, 1, 2, third, maxTokens, {1, 2}, c, size);
  }

  lemma ExecThreeMore(env: Env, swapDir: string, nCtx: nat, ops: seq<Op>, a: Op, b: Op, c: Op)
    ensures Exec(env, swapDir, nCtx, ops + [a, b, c]) == Step(env, Step(env, Step(env, Exec(env, swapDir, nCtx, ops), a), b), c)
  {
    hide Exec, Step;
    ExecOneMore(env, swapDir, nCtx, ops, a);
    ExecOneMore(env, swapDir, nCtx, ops + [a], b);
    ExecOneMore(env, swapDir, nCtx, ops + [a] + [b], c);
    assert ops + [a, b, c] == ops + [a] + [b] + [c];
  }

  /** A session that is never asked stays as it was created. */
  lemma OtherStaysNew(env: Env, s: State, id: int, other: int, prompt: seq<Token>, maxTokens: nat)
    requires Inv(s) && id != other && other in s.sessions && s.sessions[other].Place() == Unlisted
    requires s.hot == [] && s.hotLimit >= 1
    requires Infer(env, s, id, prompt, maxTokens).Answer?
    ensures var r := Infer(env, s, id, prompt, maxTokens).s;
      other in r.sessions && r.sessions[other].Place() == Unlisted
  {
    hide Inv, Activate, Generate;
    OtherStaysNewOnActivation(env, s, id, other);
    var a := Activate(env, s, id);
    if a.Active? {
      ActivateGivesHot(env, s, id);
      GenerateFrame(env, a.s, id, a.ctx, prompt, maxTokens);
    }
  }

  lemma OtherStaysNewOnActivation(env: Env, s: State, id: int, other: int)
    requires Inv(s) && id != other && other in s.sessions && s.sessions[other].Place() == Unlisted
    requires s.hot == [] && s.hotLimit >= 1
    ensures var r := Activate(env, s, id).s;
      other in r.sessions && r.sessions[other] == s.sessions[other]
  {
    assert !IsHot(s, id) by {
      if IsHot(s, id) {
        HotFacts(s, id);
      }
    }
    assert EvictHot(env, s, id).s == s;
    hide Inv, EvictHot, Erase, PathFor;
  }

  // ---- id -1 ----

  /** With session -1 at the front of the HOT list nobody is evicted: -1 reads as "no victim". */
  lemma SentinelBlocksEviction(env: Env, s: State, id: int, prompt: seq<Token>, maxTokens: nat, ids: set<int>, c: nat)
    requires Tiers(s, ids, c, 0) && IsHot(s, -1) && |s.hot| == 1 && env.initOk(s.w.tick)
    requires id in ids && s.sessions[id].Place() == Unlisted
    ensures var r := Infer(env, s, id, prompt, maxTokens);
      r.Answer? && |r.s.hot| == 2 && r.s.hotLimit == 1
  {
    OnlyHot(s, -1);
    hide Inv, Admit;
    assert HotVictim(s.hot, id) == -1;
    assert EvictHot(env, s, id).s == s;
    AdmitNew(env, s, id);
    InferAfterActivation(env, s, id, prompt, maxTokens);
  }

  /** The HOT bound is broken although nothing fails: session -1 stands in front of a full tier. */
  lemma SentinelBreaksHotBound(env: Env, swapDir: string, nCtx: nat, size: nat, c: nat,
                               first: seq<Token>, second: seq<Token>, maxTokens: nat)
    requires Steady(env, size)
    ensures var r := Exec(env, swapDir, nCtx,
                          Opening(c, -1, 5) + [Inference(-1, first, maxTokens), Inference(5, second, maxTokens)]);
      r.Live? && |r.s.hot| > r.s.hotLimit
  {
    hide Exec, Steady, Opening, Tiers;
    Setup(env, swapDir, nCtx, c, -1, 5);
    var ops, a, b := Opening(c, -1, 5), Inference(-1, first, maxTokens), Inference(5, second, maxTokens);
    ExecOneMore(env, swapDir, nCtx, ops, a);
    ExecOneMore(env, swapDir, nCtx, ops + [a], b);
    assert ops + [a, b] == ops + [a] + [b];
    SentinelTurns(env, Exec(env, swapDir, nCtx, ops), size, c, first, second, maxTokens);
  }

  lemma SentinelTurns(env: Env, r: Run, size: nat, c: nat, first: seq<Token>, second: seq<Token>, maxTokens: nat)
    requires Steady(env, size)
    requires r.Live? && Tiers(r.s, {-1, 5}, c, 0) && r.s.hot == [] && r.s.cold == []
    requires r.s.sessions[-1].Place() == Unlisted && r.s.sessions[5].Place() == Unlisted
    ensures var q := Step(env, Step(env, r, Inference(-1, first, maxTokens)), Inference(5, second, maxTokens));
      q.Live? && |q.s.hot| > q.s.hotLimit
  {
    assert forall t :: env.initOk(t);
    hide Inv, Infer, Step, Steady;
    StepInfers(env, r, -1, first, maxTokens);
    FirstInference(env, r.s, -1, first, maxTokens, {-1, 5}, c, size);
    OtherStaysNew(env, r.s, -1, 5, first, maxTokens);
    var r1 := Step(env, r, Inference(-1, first, maxTokens));
    StepInfers(env, r1, 5, second, maxTokens);
    SentinelBlocksEviction(env, r1.s, 5, second, maxTokens, {-1, 5}, c);
  }

  // ---- a new session's first inference, step by step ----

  /** Beside the world, only the HOT list, the handle counter and one entry differ. */
  ghost predicate OneChanged(s: State, r: State, id: int, hot: seq<Node>, nextIt: nat) {
    && id in r.sessions
    && r == s.(w := r.w, hot := hot, nextIt := nextIt, sessions := s.sessions[id := r.sessions[id]])
  }

  lemma OneChangedTwice(s: State, t: State, r: State, id: int, h0: seq<Node>, n0: nat, h1: seq<Node>, n1: nat)
    requires OneChanged(s, t, id, h0, n0) && OneChanged(t, r, id, h1, n1)
    ensures OneChanged(s, r, id, h1, n1)
  {
  }

  lemma NewcomerActivates(env: Env, s: State, id: int)
    requires Inv(s) && id in s.sessions && s.sessions[id].Place() == Unlisted
    requires |s.hot| < s.hotLimit && env.initOk(s.w.tick)
    ensures ActivationLog(env, s, id) == []
    ensures Activate(env, s, id) ==
            Promote(env, s, InitContext(env, s.w).0, id, s.w.nextCtx, s.sessions[id].tokens)
  {
    hide Inv, SwapOut, HotVictim, Promote;
    assert EvictHot(env, s, id) == HotEviction(s, 0, 0, false, []);
  }

  /** The state after a recording for the session that stands last in the HOT list, behind `before`. */
  function AtEnd(env: Env, s: State, id: int, tokens: seq<Token>, before: seq<Node>): State
    requires id in s.sessions
  {
    var m := s.sessions[id];
    s.(w := s.w.(tick := s.w.tick + 1), hot := before + [Node(s.nextIt, id)], nextIt := s.nextIt + 1,
       sessions := s.sessions[id := m.(tokens := m.tokens + tokens, lruIt := s.nextIt, lastUsedMs := env.clock(s.w.tick))])
  }

  lemma EraseLast(l: seq<Node>, before: seq<Node>, n: Node)
    requires DistinctHandles(l) && l == before + [n]
    ensures Has(l, n.it) && Erase(l, n.it) == before
  {
    assert l[|before|] == n;
    assert forall k :: 0 <= k < |before| ==> l[k].it != n.it;
  }

  lemma RecordAtEnd(env: Env, s: State, id: int, tokens: seq<Token>, before: seq<Node>)
    requires Inv(s) && IsHot(s, id) && s.hot == before + [Node(s.sessions[id].lruIt, id)]
    ensures RecordTokens(env, s, id, tokens) == AtEnd(env, s, id, tokens, before)
  {
    RecordKeepsInv(s, id, tokens);
    var m := s.sessions[id];
    var s1 := s.(sessions := s.sessions[id := m.(tokens := m.tokens + tokens)]);
    TouchAtEnd(env, s1, id, before);
    hide Inv, TouchHot;
    assert RecordTokens(env, s, id, tokens) == TouchHot(env, s1, id);
    SameUpdate(s.sessions, id, m.(tokens := m.tokens + tokens),
               m.(tokens := m.tokens + tokens, lruIt := s.nextIt, lastUsedMs := env.clock(s.w.tick)));
  }

  lemma SameUpdate(ss: Sessions, id: int, a: Meta, b: Meta)
    ensures ss[id := a][id := b] == ss[id := b]
  {
  }

  lemma TouchAtEnd(env: Env, s: State, id: int, before: seq<Node>)
    requires Inv(s) && IsHot(s, id) && s.hot == before + [Node(s.sessions[id].lruIt, id)]
    ensures TouchHot(env, s, id) ==
            s.(w := s.w.(tick := s.w.tick + 1), hot := before + [Node(s.nextIt, id)], nextIt := s.nextIt + 1,
               sessions := s.sessions[id := s.sessions[id].(lruIt := s.nextIt, lastUsedMs := env.clock(s.w.tick))])
  {
    EraseLast(s.hot, before, Node(s.sessions[id].lruIt, id));
    hide Inv, Erase, Has;
  }

  /** Prefill and recording of the prompt, for the session that stands last. */
  function Prefilled(env: Env, s: State, id: int, ctx: CtxId, prompt: seq<Token>, before: seq<Node>): State
    requires id in s.sessions && ctx in s.w.ctxs
  {
    AtEnd(env, s.(w := Decode(env, s.w, ctx, prompt).0), id, prompt, before)
  }

  lemma PrefillAtEnd(env: Env, s: State, id: int, ctx: CtxId, prompt: seq<Token>, before: seq<Node>)
    requires Inv(s) && HoldsContext(s, id, ctx) && ctx in s.w.ctxs
    requires s.hot == before + [Node(s.sessions[id].lruIt, id)]
    ensures var s1 := s.(w := Decode(env, s.w, ctx, prompt).0); var s2 := Prefilled(env, s, id, ctx, prompt, before);
      && Inv(s1) && IsHot(s1, id) && RecordTokens(env, s1, id, prompt) == s2
      && Inv(s2) && IsHot(s2, id) && ctx in s2.w.ctxs
  {
    var s1 := s.(w := Decode(env, s.w, ctx, prompt).0);
    WorldKeepsInv(s, s1.w, id);
    hide Inv, RecordTokens, AppendTokens;
    RecordAtEnd(env, s1, id, prompt, before);
    RecordedStaysHot(env, s1, id, prompt);
  }

  lemma GenerateAtEnd(env: Env, s: State, id: int, ctx: CtxId, prompt: seq<Token>, maxTokens: nat, before: seq<Node>)
    requires Inv(s) && HoldsContext(s, id, ctx) && ctx in s.w.ctxs && env.decodeOk(s.w.tick)
    requires s.hot == before + [Node(s.sessions[id].lruIt, id)]
    ensures var s2 := Prefilled(env, s, id, ctx, prompt, before);
      && Inv(s2) && ctx in s2.w.ctxs
      && var d := DecodeLoop(env, s2.w, ctx, maxTokens); var s3 := s2.(w := d.w);
      && Inv(s3) && Generate(env, s, id, ctx, prompt, maxTokens) ==
                    Answer(RecordTokens(env, s3, id, d.generated), true, prompt + d.generated, d.generated, d.lost, false)
  {
    hide Inv, RecordTokens, DecodeLoop, AppendTokens, AtEnd;
    PrefillAtEnd(env, s, id, ctx, prompt, before);
    var s2 := Prefilled(env, s, id, ctx, prompt, before);
    WorldKeepsInv(s2, DecodeLoop(env, s2.w, ctx, maxTokens).w, id);
  }

  /** A decode loop of no rounds. */
  lemma GenerateNothing(env: Env, s: State, id: int, ctx: CtxId, prompt: seq<Token>, before: seq<Node>)
    requires Inv(s) && HoldsContext(s, id, ctx) && ctx in s.w.ctxs && env.decodeOk(s.w.tick)
    requires s.hot == before + [Node(s.sessions[id].lruIt, id)]
    ensures var s2 := Prefilled(env, s, id, ctx, prompt, before);
      Generate(env, s, id, ctx, prompt, 0) == Answer(AtEnd(env, s2, id, [], before), true, prompt, [], false, false)
  {
    hide Inv, RecordTokens, DecodeLoop, Generate, Prefilled, AppendTokens;
    PrefillAtEnd(env, s, id, ctx, prompt, before);
    GenerateAtEnd(env, s, id, ctx, prompt, 0, before);
    var s2 := Prefilled(env, s, id, ctx, prompt, before);
    DecodeLoopRound(env, s2.w, ctx, 0);
    PrefilledLast(env, s, id, ctx, prompt, before);
    RecordAtEnd(env, s2, id, [], before);
    assert prompt + [] == prompt;
  }

  lemma PrefilledLast(env: Env, s: State, id: int, ctx: CtxId, prompt: seq<Token>, before: seq<Node>)
    requires id in s.sessions && ctx in s.w.ctxs
    ensures var r := Prefilled(env, s, id, ctx, prompt, before);
      r.w.tick == s.w.tick + 2 && id in r.sessions && r.hot == before + [Node(r.sessions[id].lruIt, id)]
  {
  }

  lemma PrefilledThenNothing(env: Env, s: State, id: int, ctx: CtxId, prompt: seq<Token>, before: seq<Node>)
    requires id in s.sessions && ctx in s.w.ctxs
    ensures var r := AtEnd(env, Prefilled(env, s, id, ctx, prompt, before), id, [], before);
      && r.w.tick == s.w.tick + 3 && id in r.sessions && r.sessions[id].lastUsedMs == env.clock(s.w.tick + 2)
      && r.sessions[id].tokens == s.sessions[id].tokens + prompt && r.sessions[id].tier == s.sessions[id].tier
      && OneChanged(s, r, id, before + [Node(s.nextIt + 1, id)], s.nextIt + 2)
  {
    hide AppendTokens;
    var t := s.sessions[id].tokens + prompt;
    assert t + [] == t;
  }

  /** Five ticks: init, promotion, prefill, and the two recordings. */
  lemma NewcomerInfers(env: Env, s: State, id: int, prompt: seq<Token>)
    requires Inv(s) && id in s.sessions && s.sessions[id].Place() == Unlisted
    requires |s.hot| < s.hotLimit && env.initOk(s.w.tick) && env.decodeOk(s.w.tick + 2)
    ensures ActivationLog(env, s, id) == []
    ensures var a := Infer(env, s, id, prompt, 0); var m := s.sessions[id];
      && a.Answer? && Inv(a.s) && !a.lost && !a.leftover && a.s.w.tick == s.w.tick + 5 && a.recorded == prompt
      && OneChanged(s, a.s, id, s.hot + [Node(s.nextIt + 2, id)], s.nextIt + 3)
      && IsHot(a.s, id) && a.s.sessions[id].tokens == m.tokens + prompt
      && a.s.sessions[id].lastUsedMs == env.clock(s.w.tick + 4)
  {
    NewcomerActivates(env, s, id);
    NewcomerShape(env, s, id);
    NewcomerStands(env, s, id);
    InferIsGenerate(env, s, id, prompt, 0);
    hide *;
    var a := Activate(env, s, id);
    GenerateNothing(env, a.s, id, a.ctx, prompt, s.hot);
    PrefilledThenNothing(env, a.s, id, a.ctx, prompt, s.hot);
    OneChangedTwice(s, a.s, Infer(env, s, id, prompt, 0).s, id, s.hot + [Node(s.nextIt, id)], s.nextIt + 1,
                    s.hot + [Node(s.nextIt + 2, id)], s.nextIt + 3);
  }

  lemma NewcomerStands(env: Env, s: State, id: int)
    requires id in s.sessions && env.initOk(s.w.tick)
    ensures var r := Promote(env, s, InitContext(env, s.w).0, id, s.w.nextCtx, s.sessions[id].tokens).s;
      id in r.sessions && r.hot == s.hot + [Node(r.sessions[id].lruIt, id)] && r.nextIt == s.nextIt + 1
  {
  }

  lemma InferIsGenerate(env: Env, s: State, id: int, prompt: seq<Token>, maxTokens: nat)
    requires Inv(s) && Activate(env, s, id).Active?
    ensures var a := Activate(env, s, id);
      && Inv(a.s) && HoldsContext(a.s, id, a.ctx) && a.ctx in a.s.w.ctxs
      && Infer(env, s, id, prompt, maxTokens) == Generate(env, a.s, id, a.ctx, prompt, maxTokens)
      && Infer(env, s, id, prompt, maxTokens).Answer? && Inv(Infer(env, s, id, prompt, maxTokens).s)
  {
    hide Inv, Activate, Generate;
    ActivateGivesHot(env, s, id);
  }

  lemma NewcomerShape(env: Env, s: State, id: int)
    requires Inv(s) && id in s.sessions && env.initOk(s.w.tick)
    ensures var a := Promote(env, s, InitContext(env, s.w).0, id, s.w.nextCtx, s.sessions[id].tokens); var r := a.s;
      && a.Active? && r.w.tick == s.w.tick + 2 && id in r.sessions && r.sessions[id].tokens == s.sessions[id].tokens
      && r.sessions[id].tier.HOT? && r.sessions[id].lruIt == s.nextIt
      && OneChanged(s, r, id, s.hot + [Node(s.nextIt, id)], s.nextIt + 1)
  {
    hide Inv;
  }

  lemma InferenceStep(env: Env, r: Run, id: int, prompt: seq<Token>, maxTokens: nat)
    requires r.Live? && Inv(r.s) && Infer(env, r.s, id, prompt, maxTokens).Answer?
    ensures var a := Infer(env, r.s, id, prompt, maxTokens);
      Step(env, r, Inference(id, prompt, maxTokens)) ==
        Live(a.s, r.history[id := HistoryOf(r.history, id) + a.recorded],
             if a.lost then r.lagging + {id} else r.lagging,
             if a.leftover then r.leading + {id} else r.leading,
             AddRounds(r.rounds, ActivationLog(env, r.s, id)))
  {
    hide Inv, Infer, ActivationLog, AddRounds;
  }

  lemma CreatedRun(env: Env, swapDir: string, nCtx: nat, id: int)
    ensures var r := Exec(env, swapDir, nCtx, [Create(id)]);
      && r.Live? && r.history == map[id := []] && r.lagging == {} && r.leading == {} && r.rounds == map[id := []]
      && r.s == Initial(swapDir, nCtx).(w := World(1, map[], 0, map[]),
                                        sessions := map[id := Meta(id, COLD, None, [], "", 0, env.clock(0), 0)])
  {
    ExecOneMore(env, swapDir, nCtx, [], Create(id));
    assert [] + [Create(id)] == [Create(id)];
  }

  // ---- a save that fails ----

  lemma SaveFailsAtOnce(env: Env, s: State, id: int)
    requires Inv(s) && IsHot(s, id) && !env.saveOk(s.w.tick)
    ensures SaveOf(env, s, id).bytes.None?
  {
    HotFacts(s, id);
    var m := s.sessions[id];
    hide SaveLoop, PruneCells, Inv;
    var goesOn, p := SaveLoopRound(env, s.w, m.ctx.value, PathFor(s.swapDir, id), m.tokens, s.coldUsed, s.coldLimit);
  }

  lemma OneIsHot(env: Env, swapDir: string, nCtx: nat, c: nat, first: seq<Token>)
    requires forall t :: env.initOk(t) && env.decodeOk(t)
    ensures var r := Exec(env, swapDir, nCtx, Opening(c, 1, 2) + [Inference(1, first, 0)]);
      && r.Live? && r.s.hotLimit == 1 && |r.s.hot| == 1 && r.s.hot[0].id == 1
      && 2 in r.s.sessions && r.s.sessions[2].Place() == Unlisted
  {
    hide Inv, Infer, Exec, Step, Opening, ActivationLog;
    var ops, op := Opening(c, 1, 2), Inference(1, first, 0);
    Setup(env, swapDir, nCtx, c, 1, 2);
    var r := Exec(env, swapDir, nCtx, ops);
    assert env.initOk(r.s.w.tick) && env.decodeOk(r.s.w.tick + 2);
    NewcomerInfers(env, r.s, 1, first);
    InferenceStep(env, r, 1, first, 0);
    ExecOneMore(env, swapDir, nCtx, ops, op);
  }

  /** No id -1, but no save succeeds: making room fails, and the second session becomes HOT all the same. */
  lemma FailedSaveBreaksHotBound(env: Env, swapDir: string, nCtx: nat, c: nat, first: seq<Token>, second: seq<Token>)
    requires forall t :: env.initOk(t) && env.decodeOk(t) && !env.saveOk(t)
    ensures var r := Exec(env, swapDir, nCtx, Opening(c, 1, 2) + [Inference(1, first, 0)] + [Inference(2, second, 0)]);
      r.Live? && |r.s.hot| > r.s.hotLimit
  {
    var ops, op := Opening(c, 1, 2) + [Inference(1, first, 0)], Inference(2, second, 0);
    hide Exec, Inv, Opening, SaveOf;
    OneIsHot(env, swapDir, nCtx, c, first);
    var s := Exec(env, swapDir, nCtx, ops).s;
    FrontIsHot(s);
    assert !env.saveOk(s.w.tick);
    SaveFailsAtOnce(env, s, 1);
    assert FrontStays(env, s) && env.initOk(GoesOnAt(env, s));
    SecondIsCold(s);
    assert OverfillsAfter(env, swapDir, nCtx, ops, op);
    BoundAfterOneMore(env, swapDir, nCtx, ops, op);
    LimitStaysPositive(env, swapDir, nCtx, ops, op);
  }

  lemma SecondIsCold(s: State)
    requires 2 in s.sessions && s.sessions[2].Place() == Unlisted
    ensures !IsHot(s, 2) && !IsSwapped(s, 2)
  {
  }

  lemma LimitStaysPositive(env: Env, swapDir: string, nCtx: nat, ops: seq<Op>, op: Op)
    requires Exec(env, swapDir, nCtx, ops).Live? && Exec(env, swapDir, nCtx, ops).s.hotLimit >= 1 && op.Inference?
    ensures var r := Exec(env, swapDir, nCtx, ops + [op]); r.Live? ==> r.s.hotLimit >= 1
  {
    var r := Exec(env, swapDir, nCtx, ops);
    hide Exec, Inv, Infer, Activate;
    ExecOneMore(env, swapDir, nCtx, ops, op);
    InferKeepsLimit(env, r.s, op.id, op.prompt, op.maxTokens);
  }

  lemma InferKeepsLimit(env: Env, s: State, id: int, prompt: seq<Token>, maxTokens: nat)
    requires Inv(s)
    ensures var a := Infer(env, s, id, prompt, maxTokens); a.Answer? ==> a.s.hotLimit == s.hotLimit
  {
    hide Inv, Generate, EvictHot, Admit;
    var a := Activate(env, s, id);
    if id in s.sessions && !IsHot(s, id) {
      EvictHotAddsNobody(env, s, id);
      EvictHotLeavesCold(env, s, id, id);
      AdmitPushesOne(env, EvictHot(env, s, id).s, id);
    }
    if a.Active? {
      ActivateGivesHot(env, s, id);
      GenerateFrame(env, a.s, id, a.ctx, prompt, maxTokens);
    }
  }

  // ---- a cache that lags behind ----

  /** The first token that the loop samples is recorded, and its decode fails. */
  lemma FailedDecodeLags(env: Env, swapDir: string, nCtx: nat, prompt: seq<Token>)
    requires env.initOk(1) && env.decodeOk(3) && !env.cancelled(5) && !env.isEog(env.sample(6))
    requires !env.decodeOk(7) && env.decodeKeeps(7) == 0
    ensures var r := Exec(env, swapDir, nCtx, [Create(1), Inference(1, prompt, 1)]);
      && r.Live? && 1 in r.s.sessions && 1 in r.lagging && !Aligned(ViewOf(r.s, 1))
      && r.history[1] == prompt + [env.sample(6)]
  {
    hide Exec, Inv, Infer, Aligned, ViewOf, Step;
    var ops, op := [Create(1)], Inference(1, prompt, 1);
    assert ops + [op] == [Create(1), Inference(1, prompt, 1)];
    CreatedRun(env, swapDir, nCtx, 1);
    ExecOneMore(env, swapDir, nCtx, ops, op);
    var r := Exec(env, swapDir, nCtx, ops);
    FirstDecodeFails(env, r.s, prompt);
    InferenceStep(env, r, 1, prompt, 1);
    SwappingIsTransparent(env, swapDir, nCtx, ops + [op], 1);
  }

  lemma FirstDecodeFails(env: Env, s: State, prompt: seq<Token>)
    requires Inv(s) && 1 in s.sessions && s.sessions[1].Place() == Unlisted && |s.hot| < s.hotLimit && s.w.tick == 1
    requires env.initOk(1) && env.decodeOk(3) && !env.cancelled(5) && !env.isEog(env.sample(6))
    requires !env.decodeOk(7) && env.decodeKeeps(7) == 0
    ensures var a := Infer(env, s, 1, prompt, 1);
      a.Answer? && a.lost && !a.leftover && 1 in a.s.sessions && a.recorded == prompt + [env.sample(6)]
  {
    NewcomerActivates(env, s, 1);
    NewcomerShape(env, s, 1);
    ActivateGivesHot(env, s, 1);
    hide Inv, Activate, Generate, Promote;
    var a := Activate(env, s, 1);
    GenerateReports(env, a.s, 1, a.ctx, prompt, 1);
    GenerateFailsAtOnce(env, a.s, 1, a.ctx, prompt, s.hot);
  }

  lemma GenerateFailsAtOnce(env: Env, s: State, id: int, ctx: CtxId, prompt: seq<Token>, before: seq<Node>)
    requires Inv(s) && HoldsContext(s, id, ctx) && ctx in s.w.ctxs
    requires s.hot == before + [Node(s.sessions[id].lruIt, id)]
    requires var t := s.w.tick;
      env.decodeOk(t) && !env.cancelled(t + 2) && !env.isEog(env.sample(t + 3)) && !env.decodeOk(t + 4)
      && env.decodeKeeps(t + 4) == 0
    ensures var a := Generate(env, s, id, ctx, prompt, 1);
      a.lost && !a.leftover && a.recorded == prompt + [env.sample(s.w.tick + 3)]
  {
    hide Inv, RecordTokens, DecodeLoop, Generate, Prefilled, LeftOver;
    GenerateAtEnd(env, s, id, ctx, prompt, 1, before);
    PrefilledLast(env, s, id, ctx, prompt, before);
    LoopFailsAtOnce(env, Prefilled(env, s, id, ctx, prompt, before).w, ctx);
  }

  lemma LoopFailsAtOnce(env: Env, w: World, ctx: CtxId)
    requires ctx in w.ctxs && !env.cancelled(w.tick) && !env.isEog(env.sample(w.tick + 1))
    requires !env.decodeOk(w.tick + 2) && env.decodeKeeps(w.tick + 2) == 0
    ensures var d := DecodeLoop(env, w, ctx, 1); d.lost && d.generated == [env.sample(w.tick + 1)]
  {
    hide DecodeLoop, AppendTokens, LeftOver;
    DecodeLoopRound(env, w, ctx, 1);
  }

  // ---- a cache that runs ahead ----

  /** After the session's first inference, whose prefill failed at tick 3. */
  ghost predicate Abandoned(r: Run, left: seq<Token>) {
    && r.Live? && Inv(r.s) && IsHot(r.s, 1) && r.s.w.tick == 4
    && r.s.hot == [Node(r.s.sessions[1].lruIt, 1)]
    && r.lagging == {} && (1 in r.leading <==> left != [])
    && ViewOf(r.s, 1) == View(AppendTokens([], left), [])
  }

  lemma PrefillFails(env: Env, r: Run, prompt: seq<Token>, maxTokens: nat)
    requires env.initOk(1) && !env.decodeOk(3)
    requires r.Live? && Inv(r.s) && 1 in r.s.sessions && r.s.sessions[1].Place() == Unlisted && r.s.sessions[1].tokens == []
    requires r.s.hot == [] && r.s.hotLimit > 0 && r.s.w.tick == 1 && r.lagging == {} && r.leading == {}
    ensures Abandoned(Step(env, r, Inference(1, prompt, maxTokens)), LeftOver(env, 3, prompt))
  {
    NewcomerActivates(env, r.s, 1);
    NewcomerShape(env, r.s, 1);
    NewcomerStands(env, r.s, 1);
    PromoteKeepsViews(env, r.s, InitContext(env, r.s.w).0, 1);
    var a := Activate(env, r.s, 1);
    assert ViewOf(a.s, 1) == View([], []);
    hide Inv, Activate, Generate, ViewOf, ActivationLog, Promote, AppendTokens;
    InferIsGenerate(env, r.s, 1, prompt, maxTokens);
    InferenceStep(env, r, 1, prompt, maxTokens);
    GenerateView(env, a.s, 1, a.ctx, prompt, maxTokens);
    GenerateRefused(env, a.s, 1, a.ctx, prompt, maxTokens);
  }

  /** A failed prefill leaves tokens in the cache that are never recorded. */
  lemma FailedPrefillLeads(env: Env, swapDir: string, nCtx: nat, prompt: seq<Token>, maxTokens: nat)
    requires env.initOk(1) && !env.decodeOk(3) && env.decodeKeeps(3) > 0 && prompt != []
    ensures var r := Exec(env, swapDir, nCtx, [Create(1), Inference(1, prompt, maxTokens)]);
      && r.Live? && 1 in r.s.sessions && 1 in r.leading && 1 !in r.lagging && !Aligned(ViewOf(r.s, 1))
  {
    hide Exec, Inv, Aligned, ViewOf, Step;
    var ops, op := [Create(1)], Inference(1, prompt, maxTokens);
    assert ops + [op] == [Create(1), Inference(1, prompt, maxTokens)];
    CreatedRun(env, swapDir, nCtx, 1);
    ExecOneMore(env, swapDir, nCtx, ops, op);
    PrefillFails(env, Exec(env, swapDir, nCtx, ops), prompt, maxTokens);
    SwappingIsTransparent(env, swapDir, nCtx, ops + [op], 1);
  }

  /** The abandoned session is asked again; now the prefill succeeds and the first generated token is lost. */
  lemma SecondAttempt(env: Env, r: Run, x: Token)
    requires Abandoned(r, [x])
    requires env.decodeOk(5) && !env.cancelled(7) && !env.isEog(env.sample(8)) && !env.decodeOk(9) && env.decodeKeeps(9) == 0
    ensures var q := Step(env, r, Inference(1, [x], 1));
      && q.Live? && 1 in q.s.sessions && 1 in q.lagging && 1 in q.leading
      && ViewOf(q.s, 1) == View([Cell(0, x), Cell(1, x)], [x, env.sample(8)])
  {
    var s := r.s;
    TouchKeepsViews(env, s, 1);
    ActivateGivesHot(env, s, 1);
    EraseLast(s.hot, [], Node(s.sessions[1].lruIt, 1));
    var a := Activate(env, s, 1);
    assert a == Active(TouchHot(env, s, 1), s.sessions[1].ctx.value);
    assert a.s.w.tick == 5 && a.s.hot == [] + [Node(a.s.sessions[1].lruIt, 1)];
    hide Inv, Activate, Generate, ViewOf, ActivationLog, TouchHot, AppendTokens;
    InferIsGenerate(env, s, 1, [x], 1);
    InferenceStep(env, r, 1, [x], 1);
    GenerateView(env, a.s, 1, a.ctx, [x], 1);
    GenerateFailsAtOnce(env, a.s, 1, a.ctx, [x], []);
    GenerateReports(env, a.s, 1, a.ctx, [x], 1);
    TwoOfAKind(x, env.sample(8));
  }

  lemma TwoOfAKind(x: Token, y: Token)
    ensures AppendTokens(AppendTokens(AppendTokens([], [x]), [x]), InCache([y], true)) == [Cell(0, x), Cell(1, x)]
    ensures [] + [x] + [y] == [x, y]
    ensures forall t: seq<Token> :: [x] + t == [x] + [y] ==> t == [y]
  {
    var none: seq<Cell> := [];
    assert NextPos(none) == 0 && AppendTokens(none, [x]) == [Cell(0, x)];
    assert NextPos([Cell(0, x)]) == 1;
    assert AppendTokens([Cell(0, x)], [x]) == [Cell(0, x), Cell(1, x)];
    AppendNothing([Cell(0, x), Cell(1, x)]);
    forall t: seq<Token> | [x] + t == [x] + [y]
      ensures t == [y]
    {
      assert ([x] + t)[1..] == t && ([x] + [y])[1..] == [y];
    }
  }

  /**
   A prefill that left a token behind and a generated token that was left out: whether cache and vector
   agree in the end is up to the token that was sampled.
   */
  lemma FailuresMayCancelOut(env: Env, swapDir: string, nCtx: nat, x: Token)
    requires env.initOk(1) && !env.decodeOk(3) && env.decodeKeeps(3) > 0
    requires env.decodeOk(5) && !env.cancelled(7) && !env.isEog(env.sample(8)) && !env.decodeOk(9) && env.decodeKeeps(9) == 0
    ensures var r := Exec(env, swapDir, nCtx, [Create(1), Inference(1, [x], 0), Inference(1, [x], 1)]);
      && r.Live? && 1 in r.s.sessions && 1 in r.lagging && 1 in r.leading
      && (Aligned(ViewOf(r.s, 1)) <==> env.sample(8) == x)
  {
    hide Exec, Inv, ViewOf, Step;
    var o1, o2, o3 := Create(1), Inference(1, [x], 0), Inference(1, [x], 1);
    assert [o1] + [o2] == [o1, o2] && [o1, o2] + [o3] == [o1, o2, o3];
    CreatedRun(env, swapDir, nCtx, 1);
    ExecOneMore(env, swapDir, nCtx, [o1], o2);
    ExecOneMore(env, swapDir, nCtx, [o1, o2], o3);
    PrefillFails(env, Exec(env, swapDir, nCtx, [o1]), [x], 0);
    SecondAttempt(env, Exec(env, swapDir, nCtx, [o1, o2]), x);
    assert TokensOf([Cell(0, x), Cell(1, x)]) == [x, x];
    assert [x, x][1] == x && [x, env.sample(8)][1] == env.sample(8);
  }

  // ---- a prune that the cache refuses ----

  lemma {:induction false} SaveLoopRefused(env: Env, w: World, ctx: CtxId, path: string, tokens: seq<Token>,
                                          used: int, limit: nat, depth: nat)
    requires ctx in w.ctxs && Tracked(View(w.ctxs[ctx], tokens), depth) && forall t :: !env.seqRmOk(t)
    ensures forall i :: 0 <= i < |SaveLoop(env, w, ctx, path, tokens, used, limit).rounds| ==>
              SaveLoop(env, w, ctx, path, tokens, used, limit).rounds[i].refused
              && SaveLoop(env, w, ctx, path, tokens, used, limit).rounds[i].n > 0
    decreases |tokens|
  {
    hide SaveLoop, PruneCells, Tracked, Prune;
    var goesOn, p := SaveLoopRound(env, w, ctx, path, tokens, used, limit);
    if !goesOn {
    } else {
      var n := RemoveCount(|tokens|);
      var w2 := StateSize(env, SaveFile(env, w, ctx, path, tokens).0).0;
      PruneRefused(env, w2, ctx, tokens, n, depth);
      PruneDeepens(w.ctxs[ctx], tokens, n, true, depth);
      SaveLoopRefused(env, p.w, ctx, path, p.tokens, used, limit, Deeper(depth, Round(n, true)));
    }
  }

  lemma PruneRefused(env: Env, w: World, ctx: CtxId, tokens: seq<Token>, n: nat, depth: nat)
    requires ctx in w.ctxs && Tracked(View(w.ctxs[ctx], tokens), depth) && 0 < n < |tokens| && !env.seqRmOk(w.tick)
    ensures Prune(env, w, ctx, tokens, n).refused
  {
    var cells := w.ctxs[ctx];
    var under :| Stale(View(cells, tokens), under, depth);
    assert cells[|cells| - 1].pos == |tokens| - 1;
    assert !InRange(cells[|cells| - 1].pos, 0, n);
  }

  lemma AllRefusedIsNotMadeGood(rounds: seq<Round>)
    requires rounds != [] && forall i :: 0 <= i < |rounds| ==> rounds[i].refused && rounds[i].n > 0
    ensures !MadeGood(rounds)
  {
    var i := |rounds| - 1;
    assert rounds[i].refused && rounds[i].n > Total(rounds[i + 1..]);
  }

  lemma RefusedSave(env: Env, s: State, id: int)
    requires Inv(s) && IsHot(s, id) && Tracked(ViewOf(s, id), 0) && forall t :: !env.seqRmOk(t)
    ensures forall i :: 0 <= i < |SaveOf(env, s, id).rounds| ==>
              SaveOf(env, s, id).rounds[i].refused && SaveOf(env, s, id).rounds[i].n > 0
  {
    HotFacts(s, id);
    var m := s.sessions[id];
    assert ViewOf(s, id) == View(s.w.ctxs[m.ctx.value], m.tokens);
    hide Inv, SaveLoop, Tracked;
    SaveLoopRefused(env, s.w, m.ctx.value, PathFor(s.swapDir, id), m.tokens, s.coldUsed, s.coldLimit, 0);
  }

  /** The only HOT session is swapped out into a budget of nothing. */
  lemma RefusedSwapOut(env: Env, s: State, size: nat)
    requires Steady(env, size) && size > 0 && (forall t :: !env.seqRmOk(t))
    requires Inv(s) && IsHot(s, 1) && |s.hot| == 1 == s.hotLimit && s.hot[0].id == 1
    requires s.cold == [] && s.coldUsed == 0 == s.coldLimit && |s.sessions[1].tokens| > MIN_KEEP_TOKENS
    requires Tracked(ViewOf(s, 1), 0)
    ensures var e := EvictHot(env, s, -1); 1 in e.s.sessions && !MadeGood(RoundsOf(e.log, 1))
  {
    assert env.saveOk(s.w.tick) && env.stateSize(s.w.tick + 1) == size;
    hide Inv, SwapOut, SaveOf, Steady, MadeGood, Tracked, ViewOf, KeepsThreeQuarters, EvictHot, Fits;
    RefusedSave(env, s, 1);
    PruningIsGentle(env, s, 1);
    EvictTheOnlyOne(env, s, 1, -1, size);
    KillingIsLastResort(env, s, 1);
    var rounds := SaveOf(env, s, 1).rounds;
    AllRefusedIsNotMadeGood(rounds);
    RoundsOfOne(1, rounds, 1);
  }

  /** After the session's first prompt, with a budget of nothing. */
  ghost predicate Prompted(r: Run, prompt: seq<Token>) {
    && r.Live? && Inv(r.s) && IsHot(r.s, 1) && |r.s.hot| == 1 && r.s.hot[0].id == 1
    && r.s.cold == [] && r.s.coldUsed == 0 == r.s.coldLimit
    && r.s.sessions[1].tokens == prompt && r.lagging == {} && r.leading == {} && PrunesOf(r.rounds, 1) == []
  }

  lemma PromptRun(env: Env, swapDir: string, nCtx: nat, prompt: seq<Token>)
    requires env.initOk(1) && env.decodeOk(3)
    ensures Prompted(Exec(env, swapDir, nCtx, [Create(1), Inference(1, prompt, 0), ColdLimit(0)]), prompt)
  {
    var o1, o2, o3 := Create(1), Inference(1, prompt, 0), ColdLimit(0);
    assert [o1, o2] == [o1] + [o2] && [o1, o2, o3] == [o1, o2] + [o3];
    CreatedRun(env, swapDir, nCtx, 1);
    ExecOneMore(env, swapDir, nCtx, [o1], o2);
    ExecOneMore(env, swapDir, nCtx, [o1, o2], o3);
    var r1 := Exec(env, swapDir, nCtx, [o1]);
    hide Exec, Inv, Infer, ActivationLog, Step;
    NewcomerInfers(env, r1.s, 1, prompt);
    InferenceStep(env, r1, 1, prompt, 0);
    BudgetOfNothing(env, Step(env, r1, o2));
  }

  lemma BudgetOfNothing(env: Env, r: Run)
    requires r.Live? && Inv(r.s) && r.s.coldUsed == 0
    ensures Step(env, r, ColdLimit(0)) == r.(s := Budgeted(r.s, 0))
  {
    hide Inv;
    assert EvictCold(Budgeted(r.s, 0), -1) == Budgeted(r.s, 0);
  }

  lemma HotLimitStep(env: Env, r: Run, count: nat)
    requires r.Live? && Inv(r.s)
    ensures var e := EvictHot(env, Limited(r.s, count), -1);
      Step(env, r, HotLimit(count)) == r.(s := e.s, rounds := AddRounds(r.rounds, e.log))
  {
    hide Inv, EvictHot, AddRounds;
  }

  lemma RefusedStep(env: Env, r: Run, prompt: seq<Token>, size: nat)
    requires Steady(env, size) && size > 0 && (forall t :: !env.seqRmOk(t))
    requires Prompted(r, prompt) && Consistent(r) && |prompt| > MIN_KEEP_TOKENS
    ensures var q := Step(env, r, HotLimit(1));
      q.Live? && 1 in q.s.sessions && q.lagging == {} && q.leading == {} && !MadeGood(PrunesOf(q.rounds, 1))
  {
    var s0 := Limited(r.s, 1);
    assert ViewOf(s0, 1) == ViewOf(r.s, 1) && Tracked(ViewOf(r.s, 1), 0);
    hide Inv, Steady, Tracked, Lagging, MadeGood, EvictHot, ViewOf, Step, AddRounds, RoundsOf;
    HotLimitStep(env, r, 1);
    RefusedSwapOut(env, s0, size);
    var log := EvictHot(env, s0, -1).log;
    AddedRounds(r.rounds, log, 1);
    assert [] + RoundsOf(log, 1) == RoundsOf(log, 1);
  }

  /**
   A session of more than 64 tokens is swapped out into a budget of nothing while the cache refuses
   to drop a part of its sequence: every decode succeeded, yet cache and tokens disagree.
   */
  lemma RefusedPruneMisaligns(env: Env, swapDir: string, nCtx: nat, prompt: seq<Token>, size: nat)
    requires Steady(env, size) && size > 0 && (forall t :: env.decodeOk(t) && !env.seqRmOk(t))
    requires |prompt| > MIN_KEEP_TOKENS
    ensures var r := Exec(env, swapDir, nCtx, [Create(1), Inference(1, prompt, 0), ColdLimit(0), HotLimit(1)]);
      && r.Live? && 1 in r.s.sessions && 1 !in r.lagging && 1 !in r.leading && !Aligned(ViewOf(r.s, 1))
  {
    assert env.initOk(1) && env.decodeOk(3);
    hide Exec, Inv, Steady, MadeGood, Aligned, ViewOf, Prompted, Consistent, Step;
    var ops, op := [Create(1), Inference(1, prompt, 0), ColdLimit(0)], HotLimit(1);
    assert ops + [op] == [Create(1), Inference(1, prompt, 0), ColdLimit(0), HotLimit(1)];
    PromptRun(env, swapDir, nCtx, prompt);
    var r := Exec(env, swapDir, nCtx, ops);
    PromptedIsLive(r, prompt);
    RunsAreConsistent(env, swapDir, nCtx, ops);
    ExecOneMore(env, swapDir, nCtx, ops, op);
    RefusedStep(env, r, prompt, size);
    SwappingIsTransparent(env, swapDir, nCtx, ops + [op], 1);
  }

  lemma PromptedIsLive(r: Run, prompt: seq<Token>)
    requires Prompted(r, prompt)
    ensures r.Live?
  {
  }

  // ---- a HOT limit that breaks the LRU order ----

  lemma TwoPromptsRun(env: Env, swapDir: string, nCtx: nat, first: seq<Token>, second: seq<Token>)
    requires env.initOk(2) && env.decodeOk(4) && env.initOk(7) && env.decodeOk(9)
    ensures var r := Exec(env, swapDir, nCtx, [Create(-1), Create(5), Inference(-1, first, 0), Inference(5, second, 0)]);
      && r.Live? && |r.s.hot| == 2 && r.s.hot[0].id == -1 && r.s.hot[1].id == 5
      && r.s.sessions.Keys == {-1, 5}
      && r.s.sessions[-1].lastUsedMs == env.clock(6) && r.s.sessions[5].lastUsedMs == env.clock(11)
  {
    var r0 := Exec(env, swapDir, nCtx, []);
    assert r0 == Live(Initial(swapDir, nCtx), map[], {}, {}, map[]);
    hide Exec, Inv, Infer, ActivationLog, Step;
    ExecFour(env, swapDir, nCtx, Create(-1), Create(5), Inference(-1, first, 0), Inference(5, second, 0));
    TwoCreated(env, r0);
    TwoPrompts(env, Step(env, Step(env, r0, Create(-1)), Create(5)), first, second);
  }

  lemma TwoPrompts(env: Env, r: Run, first: seq<Token>, second: seq<Token>)
    requires env.initOk(2) && env.decodeOk(4) && env.initOk(7) && env.decodeOk(9)
    requires r.Live? && Inv(r.s) && r.s.sessions.Keys == {-1, 5} && r.s.hot == [] && r.s.hotLimit == 3
    requires r.s.sessions[-1].Place() == Unlisted && r.s.sessions[5].Place() == Unlisted && r.s.w.tick == 2
    ensures var q := Step(env, Step(env, r, Inference(-1, first, 0)), Inference(5, second, 0));
      && q.Live? && |q.s.hot| == 2 && q.s.hot[0].id == -1 && q.s.hot[1].id == 5 && q.s.sessions.Keys == {-1, 5}
      && q.s.sessions[-1].lastUsedMs == env.clock(6) && q.s.sessions[5].lastUsedMs == env.clock(11)
  {
    hide Inv, Infer, ActivationLog, Step;
    NewcomerInfers(env, r.s, -1, first);
    InferenceStep(env, r, -1, first, 0);
    var q := Step(env, r, Inference(-1, first, 0));
    NewcomerInfers(env, q.s, 5, second);
    InferenceStep(env, q, 5, second, 0);
  }

  lemma TwoCreated(env: Env, r: Run)
    requires r.Live? && Inv(r.s) && r.s.sessions == map[] && r.s.w.tick == 0
    ensures var q := Step(env, Step(env, r, Create(-1)), Create(5));
      && q.Live? && Inv(q.s) && q.s.sessions.Keys == {-1, 5} && q.s.hot == r.s.hot && q.s.hotLimit == r.s.hotLimit
      && q.s.sessions[-1].Place() == Unlisted && q.s.sessions[5].Place() == Unlisted && q.s.w.tick == 2
  {
    hide Inv;
  }

  /**
   Session -1 is HOT, session 5 was used after it.  A HOT limit of one takes 5 out and keeps -1: the
   session used last now stands before one used earlier.
   */
  lemma SentinelBreaksOrder(env: Env, swapDir: string, nCtx: nat, first: seq<Token>, second: seq<Token>)
    requires SavesNeverFail(env) && env.clock(6) < env.clock(11)
    requires forall t :: env.initOk(t) && env.decodeOk(t)
    ensures var r := Exec(env, swapDir, nCtx,
                          [Create(-1), Create(5), Inference(-1, first, 0), Inference(5, second, 0), HotLimit(1)]);
      r.Live? && !SortedBy(r.s.sessions, r.s.cold + r.s.hot)
  {
    hide Exec, Inv, SavesNeverFail, SortedBy;
    var ops, op := [Create(-1), Create(5), Inference(-1, first, 0), Inference(5, second, 0)], HotLimit(1);
    assert ops + [op] == [Create(-1), Create(5), Inference(-1, first, 0), Inference(5, second, 0), HotLimit(1)];
    assert env.initOk(2) && env.decodeOk(4) && env.initOk(7) && env.decodeOk(9);
    TwoPromptsRun(env, swapDir, nCtx, first, second);
    ExecOneMore(env, swapDir, nCtx, ops, op);
    var r := Exec(env, swapDir, nCtx, ops);
    hide Step;
    HotLimitStep(env, r, 1);
    LimitOfOneDisorders(env, r.s);
  }

  lemma LimitOfOneDisorders(env: Env, s: State)
    requires Inv(s) && SavesNeverFail(env) && |s.hot| == 2 && s.hot[0].id == -1 && s.hot[1].id == 5
    requires s.sessions.Keys == {-1, 5} && s.sessions[-1].lastUsedMs < s.sessions[5].lastUsedMs
    ensures var r := EvictHot(env, Limited(s, 1), -1).s; !SortedBy(r.sessions, r.cold + r.hot)
  {
    hide Inv, EvictHot, SavesNeverFail;
    var s0 := Limited(s, 1);
    var k := ReachesPast(env, s0, 0, 1);
    var r := EvictHot(env, s0, -1).s;
    if SortedBy(r.sessions, ByAge(r)) {
      SortedAcross(r, s0.hot[0]);
    }
  }
}
