/** What `LLMEngine::infer` does to the session manager's state, as functions. */
module InferSpec {
  import opened Foreign
  import opened LruList
  import opened SessionState
  import opened SessionSpec

  /**
   `generated` is both what was handed to the token callback and what will be recorded; `lost` tells that
   the last decode failed and its token is not in the cache.
   */
  datatype Decoded = Decoded(w: World, generated: seq<Token>, lost: bool)

  function DecodeLoop(env: Env, w: World, ctx: CtxId, left: nat): (r: Decoded)
    requires ctx in w.ctxs
    ensures r.w.ctxs.Keys == w.ctxs.Keys && r.w.nextCtx == w.nextCtx && r.w.files == w.files
    ensures forall c :: c in w.ctxs && c != ctx ==> r.w.ctxs[c] == w.ctxs[c]
    ensures |r.generated| <= left
    decreases left
  {
    if left == 0 then Decoded(w, [], false)
    else
      var (w1, cancel) := CancelRequested(env, w);
      if cancel then Decoded(w1, [], false)
      else
        var (w2, tok) := Sample(env, w1);
        if env.isEog(tok) then Decoded(w2, [], false)
        else
          var (w3, ok) := Decode(env, w2, ctx, [tok]);
          if !ok then Decoded(w3, [tok], LeftOver(env, w2.tick, [tok]) == [])
          else
            var r := DecodeLoop(env, w3, ctx, left - 1);
            r.(generated := [tok] + r.generated)
  }

  /** One round of the loop, for use where `DecodeLoop` itself is hidden. */
  lemma DecodeLoopRound(env: Env, w: World, ctx: CtxId, left: nat)
    requires ctx in w.ctxs
    ensures DecodeLoop(env, w, ctx, 0) == Decoded(w, [], false)
    ensures left > 0 ==>
      var (w1, cancel) := CancelRequested(env, w);
      var (w2, tok) := Sample(env, w1);
      var (w3, ok) := Decode(env, w2, ctx, [tok]);
      DecodeLoop(env, w, ctx, left) ==
        if cancel then Decoded(w1, [], false)
        else if env.isEog(tok) then Decoded(w2, [], false)
        else if !ok then Decoded(w3, [tok], LeftOver(env, w2.tick, [tok]) == [])
        else
          var r := DecodeLoop(env, w3, ctx, left - 1);
          r.(generated := [tok] + r.generated)
  {
  }

  /**
   `recorded` is all that the call appended to the session's history; `lost` tells that the last token
   recorded is not in the cache, `leftover` that a failed prefill left tokens there; `Undefined` follows
   a dangling activation.
   */
  datatype Inference =
    | Undefined(s: State)
    | Answer(s: State, ok: bool, recorded: seq<Token>, emitted: seq<Token>, lost: bool, leftover: bool)

  function Infer(env: Env, s: State, id: int, prompt: seq<Token>, maxTokens: nat): Inference
    requires Inv(s)
  {
    match Activate(env, s, id)
    case Dangling(s1) => Undefined(s1)
    case Refused(s1) => Answer(s1, false, [], [], false, false)
    case Active(s1, ctx) =>
      ActivateGivesHot(env, s, id);
      Generate(env, s1, id, ctx, prompt, maxTokens)
  }

  /** The rest of an inference, once the session is HOT: prefill, decode loop, recording. */
  function Generate(env: Env, s: State, id: int, ctx: CtxId, prompt: seq<Token>, maxTokens: nat): (r: Inference)
    requires Inv(s) && HoldsContext(s, id, ctx) && ctx in s.w.ctxs
    ensures r.Answer? && Inv(r.s)
  {
    var (w1, ok) := Decode(env, s.w, ctx, prompt);
    WorldKeepsInv(s, w1, id);
    var s1 := s.(w := w1);
    if !ok then Answer(s1, false, [], [], false, LeftOver(env, s.w.tick, prompt) != [])
    else
      var s2 := RecordTokens(env, s1, id, prompt);
      RecordedStaysHot(env, s1, id, prompt);
      var d := DecodeLoop(env, s2.w, ctx, maxTokens);
      WorldKeepsInv(s2, d.w, id);
      RecordedStaysHot(env, s2.(w := d.w), id, d.generated);
      Answer(RecordTokens(env, s2.(w := d.w), id, d.generated), true,
             prompt + d.generated, d.generated, d.lost, false)
  }

  lemma RecordedStaysHot(env: Env, s: State, id: int, tokens: seq<Token>)
    requires Inv(s) && IsHot(s, id)
    ensures var r := RecordTokens(env, s, id, tokens);
      && Inv(r) && IsHot(r, id)
      && r.sessions[id].ctx == s.sessions[id].ctx
      && r.sessions[id].tokens == s.sessions[id].tokens + tokens
      && r.w.ctxs == s.w.ctxs && r.w.files == s.w.files && r.w.nextCtx == s.w.nextCtx
  {
    RecordKeepsInv(s, id, tokens);
    var s1 := s.(sessions := s.sessions[id := s.sessions[id].(tokens := s.sessions[id].tokens + tokens)]);
    TouchKeepsInv(env, s1, id);
  }

  /**
   The answer of `infer`: true exactly when the session was activated and the prefill decoded; then
   the prompt and every token handed to the callback are recorded, in that order and at most
   `maxTokens` of them. On false nothing was recorded or handed out.
   */
  lemma InferReports(env: Env, s: State, id: int, prompt: seq<Token>, maxTokens: nat)
    requires Inv(s) && Infer(env, s, id, prompt, maxTokens).Answer?
    ensures var a := Activate(env, s, id); var r := Infer(env, s, id, prompt, maxTokens);
      && (r.ok <==> a.Active? && env.decodeOk(a.s.w.tick))
      && (r.ok ==> r.recorded == prompt + r.emitted && |r.emitted| <= maxTokens && IsHot(r.s, id)
                   && r.s.sessions[id].tokens == a.s.sessions[id].tokens + r.recorded)
      && (!r.ok ==> r.recorded == [] && r.emitted == [] && r.s.sessions == a.s.sessions)
  {
    var a := Activate(env, s, id);
    if a.Active? {
      ActivateGivesHot(env, s, id);
      GenerateReports(env, a.s, id, a.ctx, prompt, maxTokens);
    }
  }

  lemma GenerateReports(env: Env, s: State, id: int, ctx: CtxId, prompt: seq<Token>, maxTokens: nat)
    requires Inv(s) && HoldsContext(s, id, ctx) && ctx in s.w.ctxs
    ensures var r := Generate(env, s, id, ctx, prompt, maxTokens);
      && (r.ok <==> env.decodeOk(s.w.tick)) && IsHot(r.s, id)
      && (r.ok ==> r.recorded == prompt + r.emitted && |r.emitted| <= maxTokens
                   && r.s.sessions[id].tokens == s.sessions[id].tokens + r.recorded)
      && (!r.ok ==> r.recorded == [] && r.emitted == [] && r.s.sessions == s.sessions)
  {
    hide Inv, Generate, AppendTokens, LeftOver;
    if env.decodeOk(s.w.tick) {
      var s1 := s.(w := Decode(env, s.w, ctx, prompt).0);
      WorldKeepsInv(s, s1.w, id);
      var d := GenerateRecords(env, s, s1, id, ctx, prompt, maxTokens);
      assert s.sessions[id].tokens + prompt + d.generated == s.sessions[id].tokens + (prompt + d.generated);
    } else {
      GenerateRefused(env, s, id, ctx, prompt, maxTokens);
    }
  }

  lemma GenerateRefused(env: Env, s: State, id: int, ctx: CtxId, prompt: seq<Token>, maxTokens: nat)
    requires Inv(s) && HoldsContext(s, id, ctx) && ctx in s.w.ctxs && !env.decodeOk(s.w.tick)
    ensures Generate(env, s, id, ctx, prompt, maxTokens) ==
            Answer(s.(w := Decode(env, s.w, ctx, prompt).0), false, [], [], false, LeftOver(env, s.w.tick, prompt) != [])
  {
    hide Inv, AppendTokens, LeftOver;
  }

  lemma GenerateRecords(env: Env, s: State, s1: State, id: int, ctx: CtxId, prompt: seq<Token>, maxTokens: nat) returns (d: Decoded)
    requires Inv(s) && HoldsContext(s, id, ctx) && ctx in s.w.ctxs && env.decodeOk(s.w.tick)
    requires Inv(s1) && s1 == s.(w := Decode(env, s.w, ctx, prompt).0)
    ensures var r := Generate(env, s, id, ctx, prompt, maxTokens);
      && r.ok && r.recorded == prompt + d.generated && r.emitted == d.generated && |d.generated| <= maxTokens
      && IsHot(r.s, id) && r.s.sessions[id].tokens == s.sessions[id].tokens + prompt + d.generated
  {
    hide Inv, RecordTokens, DecodeLoop, AppendTokens;
    var s2 := RecordTokens(env, s1, id, prompt);
    RecordedStaysHot(env, s1, id, prompt);
    d := DecodeLoop(env, s2.w, ctx, maxTokens);
    var s3 := s2.(w := d.w);
    WorldKeepsInv(s2, d.w, id);
    RecordedStaysHot(env, s3, id, d.generated);
  }

  lemma InferKeepsInv(env: Env, s: State, id: int, prompt: seq<Token>, maxTokens: nat)
    requires Inv(s)
    ensures Infer(env, s, id, prompt, maxTokens).Answer? ==> Inv(Infer(env, s, id, prompt, maxTokens).s)
  {
    ActivateKeepsInv(env, s, id);
    if Activate(env, s, id).Active? {
      ActivateGivesHot(env, s, id);
    }
  }

  // ---- the tokens of an inference, by what the world answers ----

  /**
   The tokens that a decode loop starting at tick `t` generates. A round takes three ticks: the flag
   is read, a token is sampled, the token is decoded. The loop goes on while the flag is down, the token
   is not the end of the text and the decode before it succeeded, up to `maxTokens`.
   */
  ghost predicate Generated(env: Env, t: nat, maxTokens: nat, tokens: seq<Token>) {
    var n := |tokens|;
    && n <= maxTokens
    && (forall i :: 0 <= i < n ==> GoesOn(env, t, i) && tokens[i] == env.sample(t + 3 * i + 1))
    && (n < maxTokens ==> !GoesOn(env, t, n))
  }

  /** Round `i` emits a token. */
  ghost predicate GoesOn(env: Env, t: nat, i: nat) {
    && (i > 0 ==> env.decodeOk(t + 3 * (i - 1) + 2))
    && !env.cancelled(t + 3 * i)
    && !env.isEog(env.sample(t + 3 * i + 1))
  }

  /** There is only one such sequence. */
  lemma {:induction false} GeneratedIsUnique(env: Env, t: nat, maxTokens: nat, a: seq<Token>, b: seq<Token>)
    requires Generated(env, t, maxTokens, a) && Generated(env, t, maxTokens, b)
    ensures a == b
  {
    hide GoesOn;
    forall i | 0 <= i < |a|
      ensures a[i] == b[i]
    {
      assert GoesOn(env, t, i);
    }
  }

  lemma RoundShifts(env: Env, t: nat, i: nat)
    requires i > 0
    ensures GoesOn(env, t, i) <==> GoesOn(env, t + 3, i - 1) && (i == 1 ==> env.decodeOk(t + 2))
    ensures t + 3 * i + 1 == t + 3 + 3 * (i - 1) + 1
  {
    assert t + 3 * i == t + 3 + 3 * (i - 1);
    assert i > 1 ==> t + 3 * (i - 1) + 2 == t + 3 + 3 * (i - 2) + 2;
  }

  lemma OneMoreGenerated(env: Env, t: nat, left: nat, tok: Token, rest: seq<Token>)
    requires left > 0 && GoesOn(env, t, 0) && tok == env.sample(t + 1) && env.decodeOk(t + 2)
    requires Generated(env, t + 3, left - 1, rest)
    ensures Generated(env, t, left, [tok] + rest)
  {
    hide GoesOn;
    var all := [tok] + rest;
    RoundShifts(env, t, |all|);
    forall i | 0 <= i < |all|
      ensures GoesOn(env, t, i) && all[i] == env.sample(t + 3 * i + 1)
    {
      if i > 0 {
        RoundShifts(env, t, i);
        assert GoesOn(env, t + 3, i - 1) && all[i] == rest[i - 1];
      }
    }
  }

  lemma {:induction false} DecodeLoopGenerates(env: Env, w: World, ctx: CtxId, left: nat)
    requires ctx in w.ctxs
    ensures Generated(env, w.tick, left, DecodeLoop(env, w, ctx, left).generated)
    decreases left
  {
    hide DecodeLoop, AppendTokens, LeftOver, Generated;
    DecodeLoopRound(env, w, ctx, left);
    var tok := env.sample(w.tick + 1);
    if left == 0 || !GoesOn(env, w.tick, 0) {
      NoneGenerated(env, w.tick, left);
    } else if !env.decodeOk(w.tick + 2) {
      OneGenerated(env, w.tick, left, tok);
    } else {
      var w3 := Decode(env, Sample(env, CancelRequested(env, w).0).0, ctx, [tok]).0;
      DecodeLoopGenerates(env, w3, ctx, left - 1);
      OneMoreGenerated(env, w.tick, left, tok, DecodeLoop(env, w3, ctx, left - 1).generated);
    }
  }

  lemma NoneGenerated(env: Env, t: nat, left: nat)
    requires left == 0 || !GoesOn(env, t, 0)
    ensures Generated(env, t, left, [])
  {
  }

  lemma OneGenerated(env: Env, t: nat, left: nat, tok: Token)
    requires left > 0 && GoesOn(env, t, 0) && tok == env.sample(t + 1) && !env.decodeOk(t + 2)
    ensures Generated(env, t, left, [tok])
  {
  }

  /**
   What an inference emits, by the world alone. The loop starts two ticks after the activation: the
   prefill and the recording of the prompt come between. Every token emitted was sampled in its round,
   with the flag down, and is not the end of the text; the loop ends short of the count only if the last
   decode failed, the flag is up, or the end of the text was sampled. The session's stamp is the time of
   the last thing the inference does.
   */
  lemma InferEmits(env: Env, s: State, id: int, prompt: seq<Token>, maxTokens: nat)
    requires Inv(s) && Infer(env, s, id, prompt, maxTokens).Answer? && Infer(env, s, id, prompt, maxTokens).ok
    ensures var a := Infer(env, s, id, prompt, maxTokens); var t := Activate(env, s, id).s.w.tick + 2; var n := |a.emitted|;
      && n <= maxTokens
      && (forall i :: 0 <= i < n ==>
            !env.cancelled(t + 3 * i) && a.emitted[i] == env.sample(t + 3 * i + 1) && !env.isEog(a.emitted[i]))
      && (forall i :: 0 <= i < n - 1 ==> env.decodeOk(t + 3 * i + 2))
      && (n < maxTokens ==>
            (n > 0 && !env.decodeOk(t + 3 * (n - 1) + 2)) || env.cancelled(t + 3 * n) || env.isEog(env.sample(t + 3 * n + 1)))
      && IsHot(a.s, id) && a.s.sessions[id].lastUsedMs == env.clock(a.s.w.tick - 1)
  {
    hide Inv, Activate, Generate, Generated, IsHot, Infer;
    var a := Activate(env, s, id);
    InferReports(env, s, id, prompt, maxTokens);
    ActivateGivesHot(env, s, id);
    InferGenerates(env, s, id, prompt, maxTokens);
    GenerateEmits(env, a.s, id, a.ctx, prompt, maxTokens);
    GeneratedMeans(env, a.s.w.tick + 2, maxTokens, Infer(env, s, id, prompt, maxTokens).emitted);
  }

  lemma InferGenerates(env: Env, s: State, id: int, prompt: seq<Token>, maxTokens: nat)
    requires Inv(s) && Activate(env, s, id).Active?
    ensures var a := Activate(env, s, id);
      && Inv(a.s) && HoldsContext(a.s, id, a.ctx) && a.ctx in a.s.w.ctxs
      && Infer(env, s, id, prompt, maxTokens) == Generate(env, a.s, id, a.ctx, prompt, maxTokens)
  {
    hide Inv, Activate, Generate;
    ActivateGivesHot(env, s, id);
  }

  lemma GeneratedMeans(env: Env, t: nat, maxTokens: nat, tokens: seq<Token>)
    requires Generated(env, t, maxTokens, tokens)
    ensures var n := |tokens|;
      && n <= maxTokens
      && (forall i :: 0 <= i < n ==>
            !env.cancelled(t + 3 * i) && tokens[i] == env.sample(t + 3 * i + 1) && !env.isEog(tokens[i]))
      && (forall i :: 0 <= i < n - 1 ==> env.decodeOk(t + 3 * i + 2))
      && (n < maxTokens ==>
            (n > 0 && !env.decodeOk(t + 3 * (n - 1) + 2)) || env.cancelled(t + 3 * n) || env.isEog(env.sample(t + 3 * n + 1)))
  {
    forall i | 0 <= i < |tokens|
      ensures !env.cancelled(t + 3 * i) && tokens[i] == env.sample(t + 3 * i + 1) && !env.isEog(tokens[i])
    {
      assert GoesOn(env, t, i);
    }
    forall i | 0 <= i < |tokens| - 1
      ensures env.decodeOk(t + 3 * i + 2)
    {
      assert GoesOn(env, t, i + 1);
    }
  }

  lemma RecordStamps(env: Env, s: State, id: int, tokens: seq<Token>)
    requires Inv(s) && IsHot(s, id)
    ensures var r := RecordTokens(env, s, id, tokens);
      IsHot(r, id) && r.w.tick == s.w.tick + 1 && r.sessions[id].lastUsedMs == env.clock(s.w.tick)
  {
    hide Inv, Erase;
  }

  lemma GenerateEmits(env: Env, s: State, id: int, ctx: CtxId, prompt: seq<Token>, maxTokens: nat)
    requires Inv(s) && HoldsContext(s, id, ctx) && ctx in s.w.ctxs && env.decodeOk(s.w.tick)
    ensures var a := Generate(env, s, id, ctx, prompt, maxTokens);
      && Generated(env, s.w.tick + 2, maxTokens, a.emitted)
      && IsHot(a.s, id) && a.s.w.tick > 0 && a.s.sessions[id].lastUsedMs == env.clock(a.s.w.tick - 1)
  {
    hide Inv, RecordTokens, DecodeLoop, AppendTokens, Generated;
    var s1 := s.(w := Decode(env, s.w, ctx, prompt).0);
    WorldKeepsInv(s, s1.w, id);
    var s2 := RecordTokens(env, s1, id, prompt);
    RecordedStaysHot(env, s1, id, prompt);
    RecordStamps(env, s1, id, prompt);
    var d := DecodeLoop(env, s2.w, ctx, maxTokens);
    DecodeLoopGenerates(env, s2.w, ctx, maxTokens);
    var s3 := s2.(w := d.w);
    WorldKeepsInv(s2, d.w, id);
    RecordStamps(env, s3, id, d.generated);
  }
}
