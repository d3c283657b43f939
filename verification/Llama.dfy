/** The foreign runtime as an object: each call makes the step that Foreign.dfy describes. */
module Llama {
  import opened Wrappers
  import opened Foreign

  class Runtime {
    const env: Env
    var w: World

    constructor (env: Env)
      ensures this.env == env && w == World(0, map[], 0, map[])
    {
      this.env := env;
      w := World(0, map[], 0, map[]);
    }

    method NowMs() returns (now: int)
      modifies this
      ensures (w, now) == Foreign.NowMs(env, old(w))
    {
      var (w1, t) := Foreign.NowMs(env, w);
      w, now := w1, t;
    }

    method InitContext() returns (ctx: Option<CtxId>)
      modifies this
      ensures (w, ctx) == Foreign.InitContext(env, old(w))
    {
      var (w1, c) := Foreign.InitContext(env, w);
      w, ctx := w1, c;
    }

    /** Only a live context may be freed; a freed handle is never live again. */
    method FreeContext(ctx: CtxId)
      requires ctx in w.ctxs
      modifies this
      ensures w == Foreign.FreeContext(old(w), ctx)
    {
      w := Foreign.FreeContext(w, ctx);
    }

    method SaveFile(ctx: CtxId, path: string, tokens: seq<Token>) returns (ok: bool)
      requires ctx in w.ctxs
      modifies this
      ensures (w, ok) == Foreign.SaveFile(env, old(w), ctx, path, tokens)
    {
      var (w1, b) := Foreign.SaveFile(env, w, ctx, path, tokens);
      w, ok := w1, b;
    }

    method StateSize() returns (bytes: nat)
      modifies this
      ensures (w, bytes) == Foreign.StateSize(env, old(w))
    {
      var (w1, n) := Foreign.StateSize(env, w);
      w, bytes := w1, n;
    }

    method LoadFile(ctx: CtxId, path: string, capacity: nat) returns (tokens: Option<seq<Token>>)
      requires ctx in w.ctxs
      modifies this
      ensures (w, tokens) == Foreign.LoadFile(env, old(w), ctx, path, capacity)
    {
      var (w1, t) := Foreign.LoadFile(env, w, ctx, path, capacity);
      w, tokens := w1, t;
    }

    method RemoveFile(path: string)
      modifies this
      ensures w == Foreign.RemoveFile(old(w), path)
    {
      w := Foreign.RemoveFile(w, path);
    }

    method RemoveRange(ctx: CtxId, p0: int, p1: int) returns (removed: bool)
      requires ctx in w.ctxs
      modifies this
      ensures (w, removed) == Foreign.RemoveRange(env, old(w), ctx, p0, p1)
    {
      var (w1, b) := Foreign.RemoveRange(env, w, ctx, p0, p1);
      w, removed := w1, b;
    }

    method ShiftRange(ctx: CtxId, p0: int, p1: int, delta: int)
      requires ctx in w.ctxs
      modifies this
      ensures w == Foreign.ShiftRange(old(w), ctx, p0, p1, delta)
    {
      w := Foreign.ShiftRange(w, ctx, p0, p1, delta);
    }

    method Decode(ctx: CtxId, tokens: seq<Token>) returns (ok: bool)
      requires ctx in w.ctxs
      modifies this
      ensures (w, ok) == Foreign.Decode(env, old(w), ctx, tokens)
    {
      var (w1, b) := Foreign.Decode(env, w, ctx, tokens);
      w, ok := w1, b;
    }

    method Sample() returns (tok: Token)
      modifies this
      ensures (w, tok) == Foreign.Sample(env, old(w))
    {
      var (w1, t) := Foreign.Sample(env, w);
      w, tok := w1, t;
    }

    method CancelRequested() returns (b: bool)
      modifies this
      ensures (w, b) == Foreign.CancelRequested(env, old(w))
    {
      var (w1, c) := Foreign.CancelRequested(env, w);
      w, b := w1, c;
    }
  }
}
