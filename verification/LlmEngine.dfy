/** `LLMEngine::infer` over the session manager, proved to do what InferSpec.dfy says. */
module LlmEngine {
  import opened Foreign
  import opened SessionState
  import Spec = SessionSpec
  import InferSpec
  import Llama
  import SessionManager

  datatype Answer = Done(ok: bool) | UseAfterErase

  class Engine {
    const llama: Llama.Runtime
    const sessions: SessionManager.Manager

    constructor (llama: Llama.Runtime, sessions: SessionManager.Manager)
      requires sessions.llama == llama
      ensures this.llama == llama && this.sessions == sessions
    {
      this.llama, this.sessions := llama, sessions;
    }

    /** `prompt` is the tokenized prompt; `emitted` lists the tokens handed to the callback. */
    method Infer(sessionId: int, prompt: seq<Token>, maxTokens: nat) returns (answer: Answer, emitted: seq<Token>)
      requires sessions.llama == llama && sessions.Valid()
      modifies sessions, llama, sessions.sessions.Values
      ensures sessions.sessions.Values <= old(sessions.sessions.Values)
      ensures var a := InferSpec.Infer(llama.env, old(sessions.View()), sessionId, prompt, maxTokens);
              match a
              case Undefined(_) => answer == UseAfterErase && emitted == []
              case Answer(s, ok, _, e, _, _) => answer == Done(ok) && emitted == e && sessions.View() == s && sessions.Valid()
    {
      emitted := [];
      var h := sessions.ActivateForInfer(sessionId);
      match h
      case UseAfterErase =>
        return UseAfterErase, [];
      case Null =>
        return Done(false), [];
      case Context(ctx) =>
        Spec.ActivateGivesHot(llama.env, old(sessions.View()), sessionId);
        var ok;
        ok, emitted := Generate(sessionId, ctx, prompt, maxTokens);
        return Done(ok), emitted;
    }

    /** Prefill, decode loop and recording. */
    method Generate(id: int, ctx: CtxId, prompt: seq<Token>, maxTokens: nat) returns (ok: bool, generated: seq<Token>)
      requires sessions.llama == llama && sessions.Valid()
      requires Spec.HoldsContext(sessions.View(), id, ctx) && ctx in llama.w.ctxs
      modifies sessions, llama, sessions.sessions.Values
      ensures sessions.Valid() && sessions.sessions == old(sessions.sessions)
      ensures var a := InferSpec.Generate(llama.env, old(sessions.View()), id, ctx, prompt, maxTokens);
              sessions.View() == a.s && ok == a.ok && generated == a.emitted
    {
      hide Inv, Spec.RecordTokens, Foreign.AppendTokens, Foreign.LeftOver, InferSpec.DecodeLoop;
      ghost var s := sessions.View();
      ok := llama.Decode(ctx, prompt);
      Spec.WorldKeepsInv(s, llama.w, id);
      sessions.NoEntryChanged();
      ghost var s1 := sessions.View();
      if !ok {
        return false, [];
      }
      InferSpec.RecordedStaysHot(llama.env, s1, id, prompt);
      sessions.RecordTokens(id, prompt);
      label Recorded:
      ghost var s2 := sessions.View();
      generated := DecodeLoop(ctx, maxTokens);
      Spec.WorldKeepsInv(s2, llama.w, id);
      sessions.NoEntryChanged@Recorded();
      InferSpec.RecordedStaysHot(llama.env, sessions.View(), id, generated);
      sessions.RecordTokens(id, generated);
      return true, generated;
    }

    method DecodeLoop(ctx: CtxId, maxTokens: nat) returns (generated: seq<Token>)
      requires ctx in llama.w.ctxs
      modifies llama
      ensures var d := InferSpec.DecodeLoop(llama.env, old(llama.w), ctx, maxTokens);
              llama.w == d.w && generated == d.generated
    {
      hide InferSpec.DecodeLoop;
      generated := [];
      ghost var d := InferSpec.DecodeLoop(llama.env, llama.w, ctx, maxTokens);
      var i := 0;
      while i < maxTokens
        invariant 0 <= i <= maxTokens && ctx in llama.w.ctxs
        invariant var r := InferSpec.DecodeLoop(llama.env, llama.w, ctx, maxTokens - i);
                  r.w == d.w && generated + r.generated == d.generated
      {
        InferSpec.DecodeLoopRound(llama.env, llama.w, ctx, maxTokens - i);
        var cancel := llama.CancelRequested();
        if cancel {
          break;
        }
        var tok := llama.Sample();
        if llama.env.isEog(tok) {
          break;
        }
        ghost var before := generated;
        generated := generated + [tok];
        var ok := llama.Decode(ctx, [tok]);
        if !ok {
          break;
        }
        i := i + 1;
        Reassociate(before, tok, InferSpec.DecodeLoop(llama.env, llama.w, ctx, maxTokens - i).generated);
      }
      if i == maxTokens {
        InferSpec.DecodeLoopRound(llama.env, llama.w, ctx, 0);
      }
    }
  }

  lemma Reassociate(before: seq<Token>, tok: Token, rest: seq<Token>)
    ensures before + ([tok] + rest) == before + [tok] + rest
  {
  }
}
