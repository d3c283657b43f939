/** The two limits: which value is in force after any calls, and that eviction takes no more than they demand. */
module Limits {
  import opened Foreign
  import opened LruList
  import opened SessionState
  import opened SessionSpec
  import opened InferSpec
  import opened Runs
  import opened EveryRun

  /** The HOT limit asked for last: at least one, and three before the first call. */
  function HotLimitAsked(ops: seq<Op>): nat {
    if ops == [] then 3
    else
      match ops[|ops| - 1]
      case HotLimit(count) => if count < 1 then 1 else count
      case _ => HotLimitAsked(ops[..|ops| - 1])
  }

  /** The budget asked for last: 512 MiB before the first call. */
  function BudgetAsked(ops: seq<Op>): nat {
    if ops == [] then 536_870_912
    else
      match ops[|ops| - 1]
      case ColdLimit(bytes) => bytes
      case _ => BudgetAsked(ops[..|ops| - 1])
  }

  ghost predicate SameLimits(s: State, r: State) {
    r.hotLimit == s.hotLimit && r.coldLimit == s.coldLimit && r.nCtx == s.nCtx && r.swapDir == s.swapDir
  }

  lemma ActivateKeepsLimits(env: Env, s: State, id: int)
    requires Inv(s)
    ensures SameLimits(s, Activate(env, s, id).s)
  {
    hide Inv, EvictHot, Admit, TouchHot;
    if IsHot(s, id) {
      TouchKeepsLimits(env, s, id);
    } else if id in s.sessions {
      EvictHotAddsNobody(env, s, id);
      EvictHotLeavesCold(env, s, id, id);
      AdmitKeepsLimits(env, EvictHot(env, s, id).s, id);
    }
  }

  lemma TouchKeepsLimits(env: Env, s: State, id: int)
    requires Inv(s) && IsHot(s, id)
    ensures SameLimits(s, TouchHot(env, s, id))
  {
    hide Inv, Erase;
  }

  lemma AdmitKeepsLimits(env: Env, s: State, id: int)
    requires Inv(s) && !IsHot(s, id)
    ensures SameLimits(s, Admit(env, s, id).s)
  {
    hide Inv, Erase, PathFor;
  }

  lemma GenerateKeepsLimits(env: Env, s: State, id: int, ctx: CtxId, prompt: seq<Token>, maxTokens: nat)
    requires Inv(s) && HoldsContext(s, id, ctx) && ctx in s.w.ctxs
    ensures SameLimits(s, Generate(env, s, id, ctx, prompt, maxTokens).s)
  {
    GenerateFrame(env, s, id, ctx, prompt, maxTokens);
    hide Inv, RecordTokens, DecodeLoop, AppendTokens, LeftOver, OnlyHotTouched;
    var r := Generate(env, s, id, ctx, prompt, maxTokens).s;
  }

  lemma InferKeepsLimits(env: Env, s: State, id: int, prompt: seq<Token>, maxTokens: nat)
    requires Inv(s)
    ensures SameLimits(s, Infer(env, s, id, prompt, maxTokens).s)
  {
    hide Inv, Activate, Generate;
    ActivateKeepsLimits(env, s, id);
    var a := Activate(env, s, id);
    if a.Active? {
      ActivateGivesHot(env, s, id);
      GenerateKeepsLimits(env, a.s, id, a.ctx, prompt, maxTokens);
    }
  }

  lemma ApplyLimits(env: Env, s: State, op: Op)
    requires Inv(s) && Apply(env, s, op).Some?
    ensures var r := Apply(env, s, op).value;
      && r.hotLimit == (if op.HotLimit? then if op.count < 1 then 1 else op.count else s.hotLimit)
      && r.coldLimit == (if op.ColdLimit? then op.bytes else s.coldLimit)
      && r.nCtx == s.nCtx && r.swapDir == s.swapDir
  {
    hide Inv, Infer, EvictHot, EvictCold, Erase, PathFor;
    match op
    case Create(id) =>
    case Kill(id) =>
    case HotLimit(count) => EvictHotAddsNobody(env, Limited(s, count), -1);
    case ColdLimit(bytes) => EvictColdLosesOnlyCold(Budgeted(s, bytes), -1);
    case Inference(id, prompt, maxTokens) => InferKeepsLimits(env, s, id, prompt, maxTokens);
  }

  /**
   After any calls the HOT limit and the budget are the ones asked for last, and the COLD tier is within that
   budget or down to one session, whatever failed.
   */
  lemma {:induction false} LimitsInEveryRun(env: Env, swapDir: string, nCtx: nat, ops: seq<Op>)
    requires Exec(env, swapDir, nCtx, ops).Live?
    ensures var s := Exec(env, swapDir, nCtx, ops).s;
      && s.hotLimit == HotLimitAsked(ops) && s.coldLimit == BudgetAsked(ops)
      && s.nCtx == nCtx && s.swapDir == swapDir
      && (s.coldUsed <= BudgetAsked(ops) || |s.cold| <= 1)
    decreases |ops|
  {
    ColdBudgetInEveryRun(env, swapDir, nCtx, ops);
    if ops == [] {
    } else {
      hide Inv, Apply, Noted;
      var r := Exec(env, swapDir, nCtx, ops[..|ops| - 1]);
      LimitsInEveryRun(env, swapDir, nCtx, ops[..|ops| - 1]);
      ApplyLimits(env, r.s, ops[|ops| - 1]);
    }
  }

  /**
   HOT eviction stops as soon as the tier is below its limit: it takes out as many sessions as it swaps out,
   and none that leaves more room than one place.
   */
  lemma {:induction false} EvictHotTakesNoMore(env: Env, s: State, excludeId: int)
    requires Inv(s)
    ensures var e := EvictHot(env, s, excludeId);
      && |e.s.hot| + e.swaps == |s.hot|
      && |e.log| == e.swaps + (if e.failed then 1 else 0)
      && (e.log != [] ==> |e.s.hot| + 1 >= s.hotLimit && |s.hot| >= s.hotLimit)
      && (e.log == [] ==> e.s == s)
    decreases |s.hot|
  {
    hide Inv, SwapOut, SaveOf, HotVictim, EvictHot;
    var victim := EvictHotRound(env, s, excludeId);
    if victim == -1 {
    } else {
      SwapOutFrame(env, s, victim);
      var o := SwapOut(env, s, victim);
      if o.ok {
        EvictHotTakesNoMore(env, o.s, excludeId);
      } else {
        FailedSwapOutKeepsHot(env, s, victim);
      }
    }
  }
}
