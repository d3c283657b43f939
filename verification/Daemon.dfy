/**
 The daemon put together: the classes under a sequence of calls, the command loop over the engine,
 and one inference from the client's command line to the client's screen.
 */
module Daemon {
  import opened Wrappers
  import opened Foreign
  import opened SessionState
  import Spec = SessionSpec
  import opened Runs
  import Llama
  import SessionManager
  import LlmEngine
  import opened Base64
  import opened Lines
  import opened Protocol
  import opened Framing

  // ---- the classes under a run ----

  /** What a call answers: success, and the tokens handed to the callback. */
  function Answered(env: Env, s: State, op: Op): (bool, seq<Token>)
    requires Inv(s)
  {
    match op
    case Create(id) => (id !in s.sessions, [])
    case Kill(id) => (id in s.sessions, [])
    case HotLimit(_) => (true, [])
    case ColdLimit(_) => (true, [])
    case Inference(id, prompt, maxTokens) =>
      match InferSpec.Infer(env, s, id, prompt, maxTokens)
      case Undefined(_) => (false, [])
      case Answer(_, ok, _, emitted, _, _) => (ok, emitted)
  }

  /** One call on the engine and its session manager; `live` is false after undefined behaviour. */
  method Call(engine: LlmEngine.Engine, op: Op) returns (live: bool, ok: bool, emitted: seq<Token>)
    requires engine.sessions.llama == engine.llama && engine.sessions.Valid()
    modifies engine.sessions, engine.llama, engine.sessions.sessions.Values
    ensures fresh(engine.sessions.sessions.Values - old(engine.sessions.sessions.Values))
    ensures var r := Apply(engine.llama.env, old(engine.sessions.View()), op);
      live == r.Some? && (live ==> engine.sessions.Valid() && engine.sessions.View() == r.value)
    ensures live ==> (ok, emitted) == Answered(engine.llama.env, old(engine.sessions.View()), op)
  {
    hide Inv, Spec.CreateSession, Spec.KillSession, Spec.SetHotLimit, Spec.SetColdLimit, InferSpec.Infer;
    live, ok, emitted := true, true, [];
    match op
    case Create(id) => ok := engine.sessions.CreateSession(id);
    case Kill(id) => ok := engine.sessions.KillSession(id);
    case HotLimit(count) => engine.sessions.SetHotLimit(count);
    case ColdLimit(bytes) => engine.sessions.SetColdLimit(bytes);
    case Inference(id, prompt, maxTokens) =>
      var answer;
      answer, emitted := engine.Infer(id, prompt, maxTokens);
      live, ok := answer.Done?, answer == LlmEngine.Done(true);
  }

  /** Any sequence of calls on a fresh engine, up to the first that is undefined behaviour. */
  method RunCalls(env: Env, swapDir: string, nCtx: nat, ops: seq<Op>) returns (engine: LlmEngine.Engine, live: bool)
    ensures var r := Exec(env, swapDir, nCtx, ops);
      live == r.Live? && (live ==> engine.sessions.Valid() && engine.sessions.View() == r.s)
  {
    hide Inv, Apply, Noted, Answered;
    var llama := new Llama.Runtime(env);
    var sessions := new SessionManager.Manager(llama, swapDir, nCtx);
    engine := new LlmEngine.Engine(llama, sessions);
    live := true;
    var i := 0;
    assert ops[..0] == [];
    while i < |ops| && live
      invariant 0 <= i <= |ops|
      invariant engine.llama == llama && engine.sessions == sessions && sessions.llama == llama && llama.env == env
      invariant fresh(engine) && fresh(sessions) && fresh(llama) && fresh(sessions.sessions.Values)
      invariant live == Exec(env, swapDir, nCtx, ops[..i]).Live?
      invariant live ==> sessions.Valid() && sessions.View() == Exec(env, swapDir, nCtx, ops[..i]).s
    {
      ExecOneMore(env, swapDir, nCtx, ops[..i], ops[i]);
      assert ops[..i] + [ops[i]] == ops[..i + 1];
      var ok, emitted;
      live, ok, emitted := Call(engine, ops[i]);
      i := i + 1;
    }
    assert ops[..|ops|] == ops;
    if !live {
      CrashedStaysCrashed(env, swapDir, nCtx, ops, i);
    }
  }

  lemma {:induction false} CrashedStaysCrashed(env: Env, swapDir: string, nCtx: nat, ops: seq<Op>, n: nat)
    requires n <= |ops| && Exec(env, swapDir, nCtx, ops[..n]).Crashed?
    ensures Exec(env, swapDir, nCtx, ops).Crashed?
    decreases |ops|
  {
    hide Apply, Noted, Inv;
    if n < |ops| {
      assert ops[..|ops| - 1][..n] == ops[..n];
      CrashedStaysCrashed(env, swapDir, nCtx, ops[..|ops| - 1], n);
    } else {
      assert ops[..n] == ops;
    }
  }

  // ---- the command loop over the engine ----

  /** What the vocabulary of the model decides: the tokens of a text, the bytes of a token. */
  datatype Vocab = Vocab(tokenize: string -> seq<Token>, piece: Token -> seq<byte>)

  function PieceOf(v: Vocab, tok: Token): seq<byte> {
    v.piece(tok)
  }

  function Pieces(v: Vocab, tokens: seq<Token>): (pieces: seq<seq<byte>>)
    ensures |pieces| == |tokens|
    ensures forall i :: 0 <= i < |tokens| ==> pieces[i] == PieceOf(v, tokens[i])
  {
    seq(|tokens|, i requires 0 <= i < |tokens| => PieceOf(v, tokens[i]))
  }

  /** The engine's buffer holds every piece. */
  ghost predicate ShortPieces(v: Vocab) {
    forall tok: Token :: |PieceOf(v, tok)| <= 256
  }

  lemma PiecesFit(v: Vocab, tokens: seq<Token>)
    requires ShortPieces(v)
    ensures forall i :: 0 <= i < |tokens| ==> |Pieces(v, tokens)[i]| <= 256
  {
  }

  function LoopBound(maxTokens: int): nat {
    if maxTokens < 0 then 0 else maxTokens
  }

  /** After a successful prefill, room is reserved for the tokens to come; a negative count throws there. */
  predicate Throws(r: Request, ok: bool) {
    r.Infer? && r.maxTokens < 0 && ok
  }

  /** The call a request leads to; the others are not the session manager's business. */
  function OpOf(v: Vocab, r: Request): Option<Op> {
    match r
    case CreateSession(id) => Some(Create(id))
    case KillSession(id) => Some(Kill(id))
    case SetHotLimit(count) => Some(HotLimit(count))
    case SetColdLimit(bytes) => Some(ColdLimit(bytes))
    case Infer(id, maxTokens, prompt) => Some(Inference(id, v.tokenize(prompt), LoopBound(maxTokens)))
    case _ => None
  }

  function ReplyOf(v: Vocab, r: Request, ok: bool, emitted: seq<Token>): Reply {
    if r.Infer? then Stream(Pieces(v, emitted), ok) else Status(ok)
  }

  /** State and output after some requests, while the daemon is up: no undefined behaviour, no uncaught exception. */
  datatype Talk = Talk(s: State, out: string) | Down

  function After(out: string, t: Talk): Talk {
    if t.Down? then t else t.(out := out + t.out)
  }

  /**
   One request: what it adds to the output, and the state it leads to.  Without a loaded engine
   `createSession` and `infer` are answered so, the other session commands go through a null pointer.
   */
  function Turn(env: Env, v: Vocab, npu: Request -> Reply, ready: bool, s: State, r: Request): (t: Talk)
    requires Inv(s)
    ensures t.Talk? ==> Inv(t.s)
  {
    match OpOf(v, r)
    case None => Talk(s, Answer(r, npu(r)))
    case Some(op) =>
      if !ready then
        if op.Create? || op.Inference? then Talk(s, Answer(r, NotReady)) else Down
      else
        match Apply(env, s, op)
        case None => Down
        case Some(s1) =>
          var (ok, emitted) := Answered(env, s, op);
          if Throws(r, ok) then Down else Talk(s1, Answer(r, ReplyOf(v, r, ok, emitted)))
  }

  function Dialogue(env: Env, v: Vocab, npu: Request -> Reply, ready: bool, s: State, rs: seq<Request>): Talk
    requires Inv(s)
    decreases |rs|
  {
    if rs == [] then Talk(s, "")
    else
      var t := Turn(env, v, npu, ready, s, rs[0]);
      if t.Down? then t else After(t.out, Dialogue(env, v, npu, ready, t.s, rs[1..]))
  }

  lemma DialogueTurn(env: Env, v: Vocab, npu: Request -> Reply, ready: bool, s: State, r: Request, rs: seq<Request>)
    requires Inv(s)
    ensures Dialogue(env, v, npu, ready, s, [r] + rs) ==
            var t := Turn(env, v, npu, ready, s, r);
            if t.Down? then t else After(t.out, Dialogue(env, v, npu, ready, t.s, rs))
  {
    hide Inv, Turn;
    assert ([r] + rs)[1..] == rs;
  }

  /** One request on the engine. */
  method Respond(engine: LlmEngine.Engine, v: Vocab, npu: Request -> Reply, ready: bool, r: Request)
    returns (out: string, live: bool)
    requires engine.sessions.llama == engine.llama && engine.sessions.Valid()
    modifies engine.sessions, engine.llama, engine.sessions.sessions.Values
    ensures fresh(engine.sessions.sessions.Values - old(engine.sessions.sessions.Values))
    ensures var t := Turn(engine.llama.env, v, npu, ready, old(engine.sessions.View()), r);
      live == t.Talk? && (live ==> engine.sessions.Valid() && engine.sessions.View() == t.s && out == t.out)
  {
    hide Inv, Apply, Answered, Answer, ReplyOf;
    live, out := true, "";
    match OpOf(v, r) {
      case None => out := Answer(r, npu(r));
      case Some(op) =>
        if ready {
          var ok, emitted;
          live, ok, emitted := Call(engine, op);
          live, out := live && !Throws(r, ok), Answer(r, ReplyOf(v, r, ok, emitted));
        } else {
          live, out := op.Create? || op.Inference?, Answer(r, NotReady);
        }
    }
  }

  /** The command loop of one connection; `npu` stands for the NPU engine. */
  method HandleClient(engine: LlmEngine.Engine, v: Vocab, npu: Request -> Reply, ready: bool, rf: Reader)
    returns (out: string, live: bool)
    requires engine.sessions.llama == engine.llama && engine.sessions.Valid()
    modifies rf, engine.sessions, engine.llama, engine.sessions.sessions.Values
    ensures var t := Dialogue(engine.llama.env, v, npu, ready, old(engine.sessions.View()), Serve(Chunks(old(rf.rest))));
      live == t.Talk? && (live ==> engine.sessions.Valid() && engine.sessions.View() == t.s && out == t.out)
  {
    hide Inv, Take, Chunks, Turn, Dialogue, Serve;
    live, out := true, "";
    ghost var env := engine.llama.env;
    ghost var whole := Dialogue(env, v, npu, ready, engine.sessions.View(), Serve(Chunks(rf.rest)));
    while live
      invariant fresh(engine.sessions.sessions.Values - old(engine.sessions.sessions.Values))
      invariant if live then
          && engine.sessions.Valid()
          && whole == After(out, Dialogue(env, v, npu, ready, engine.sessions.View(), Serve(Chunks(rf.rest))))
        else whole == Down
      decreases live, |rf.rest|
    {
      var line := rf.Fgets();
      if line.None? {
        EmptyStream();
        DialogueEnds(env, v, npu, ready, engine.sessions.View());
        break;
      }
      ghost var rest := Chunks(rf.rest);
      var r := ReadRequest(line.value, rf);
      ServeTurn(line.value, rest);
      if r.Some? {
        ghost var s, more := engine.sessions.View(), Serve(Chunks(rf.rest));
        DialogueTurn(env, v, npu, ready, s, r.value, more);
        var answer;
        answer, live := Respond(engine, v, npu, ready, r.value);
        if live {
          AfterAfter(out, answer, Dialogue(env, v, npu, ready, engine.sessions.View(), more));
        }
        out := out + answer;
      }
    }
  }

  lemma AfterAfter(a: string, b: string, t: Talk)
    ensures After(a, After(b, t)) == After(a + b, t)
  {
    if t.Talk? {
      assert a + (b + t.out) == a + b + t.out;
    }
  }

  lemma DialogueEnds(env: Env, v: Vocab, npu: Request -> Reply, ready: bool, s: State)
    requires Inv(s)
    ensures Serve([]) == [] && Dialogue(env, v, npu, ready, s, []) == Talk(s, "")
    ensures forall out :: After(out, Talk(s, "")) == Talk(s, out)
  {
    assert forall out: string :: out + "" == out;
  }

  lemma ServeTurn(line: string, rest: seq<string>)
    ensures var (r, more) := Take([line] + rest);
      Serve([line] + rest) == if r.Some? then [r.value] + Serve(more) else Serve(more)
  {
    hide Take;
    var (r, more) := Take([line] + rest);
    assert [] + Serve(more) == Serve(more);
  }

  // ---- one inference, from the command line to the screen ----

  /** What is written for an inference. */
  lemma InferTurn(env: Env, v: Vocab, npu: Request -> Reply, s: State, id: int, maxTokens: int, prompt: string)
    requires Inv(s)
    ensures var a := InferSpec.Infer(env, s, id, v.tokenize(prompt), LoopBound(maxTokens));
            var t := Turn(env, v, npu, true, s, Infer(id, maxTokens, prompt));
      && (t.Talk? <==> a.Answer? && !(a.ok && maxTokens < 0))
      && (t.Talk? ==> t.s == a.s && t.out == TokenLines(Pieces(v, a.emitted)) + Terminator(a.ok, "SESSION_NOT_FOUND"))
  {
    hide Inv, InferSpec.Infer, TokenLines, Pieces;
    assert "ERROR " + "SESSION_NOT_FOUND" + "\n" == "ERROR SESSION_NOT_FOUND\n";
  }

  /** The run goes through exactly when the inference does, and its history grows by what was recorded. */
  lemma InferStep(env: Env, r: Run, id: int, prompt: seq<Token>, maxTokens: nat)
    requires r.Live? && Inv(r.s)
    ensures var a := InferSpec.Infer(env, r.s, id, prompt, maxTokens); var q := Step(env, r, Inference(id, prompt, maxTokens));
      && (q.Live? <==> a.Answer?)
      && (q.Live? ==> q.s == a.s && q.history == r.history[id := HistoryOf(r.history, id) + a.recorded]
                      && a.recorded == (if a.ok then prompt + a.emitted else [])
                      && (!a.ok ==> a.emitted == []) && |a.emitted| <= maxTokens)
  {
    hide Inv, InferSpec.Infer, AddRounds, Evictions;
    if InferSpec.Infer(env, r.s, id, prompt, maxTokens).Answer? {
      InferSpec.InferReports(env, r.s, id, prompt, maxTokens);
    }
  }

  /**
   One `infer` command on a daemon after any run.  The client shows the pieces of exactly the tokens
   that the run records after the prompt, in order and at most as many as asked for, and learns
   whether the inference succeeded; a failed one shows and records nothing.  Only a negative count
   takes the daemon down, once the prefill has succeeded.
   */
  lemma InferenceEndToEnd(env: Env, swapDir: string, nCtx: nat, ops: seq<Op>, v: Vocab, npu: Request -> Reply,
                          id: int, maxTokens: int, prompt: string)
    requires ShortPieces(v) && Printable(Infer(id, maxTokens, prompt)) && Framed(Infer(id, maxTokens, prompt))
    requires Exec(env, swapDir, nCtx, ops).Live?
    requires Exec(env, swapDir, nCtx, ops + [Inference(id, v.tokenize(prompt), LoopBound(maxTokens))]).Live?
    ensures var r := Exec(env, swapDir, nCtx, ops);
            var q := Exec(env, swapDir, nCtx, ops + [Inference(id, v.tokenize(prompt), LoopBound(maxTokens))]);
            var a := InferSpec.Infer(env, r.s, id, v.tokenize(prompt), LoopBound(maxTokens));
            var t := Dialogue(env, v, npu, true, r.s, Serve(Chunks(Print(Infer(id, maxTokens, prompt)))));
      && a.Answer? && (t.Talk? <==> !(a.ok && maxTokens < 0))
      && (t.Talk? ==>
            && t.s == q.s
            && ReadReply(Chunks(t.out)) ==
               Shown(Pieces(v, a.emitted), if a.ok then Done else Error("SESSION_NOT_FOUND\n"))
            && id in q.history
            && q.history[id] == HistoryOf(r.history, id) + (if a.ok then v.tokenize(prompt) + a.emitted else [])
            && (!a.ok ==> a.emitted == []) && |a.emitted| <= LoopBound(maxTokens))
  {
    var req, tokens, n := Infer(id, maxTokens, prompt), v.tokenize(prompt), LoopBound(maxTokens);
    hide Inv, Exec, Step, InferSpec.Infer, Serve, Chunks, Print, Printable, Framed, Turn, Terminator, TokenLines, ReadReply,
      Pieces, ShortPieces;
    var r := Exec(env, swapDir, nCtx, ops);
    var a := InferSpec.Infer(env, r.s, id, tokens, n);
    ExecOneMore(env, swapDir, nCtx, ops, Inference(id, tokens, n));
    InferStep(env, r, id, tokens, n);
    InferTurn(env, v, npu, r.s, id, maxTokens, prompt);
    SingleRequest(req);
    OneTurn(env, v, npu, true, r.s, req);
    AnswerShown(v, a.emitted, a.ok);
  }

  /** What the client makes of the answer to an inference. */
  lemma AnswerShown(v: Vocab, emitted: seq<Token>, ok: bool)
    requires ShortPieces(v)
    ensures ReadReply(Chunks(TokenLines(Pieces(v, emitted)) + Terminator(ok, "SESSION_NOT_FOUND"))) ==
            Shown(Pieces(v, emitted), if ok then Done else Error("SESSION_NOT_FOUND\n"))
  {
    hide TokenLines, ReadReply, Chunks, Pieces, ShortPieces, Terminator;
    var out := TokenLines(Pieces(v, emitted)) + Terminator(ok, "SESSION_NOT_FOUND");
    PiecesFit(v, emitted);
    StreamRoundTrip(Pieces(v, emitted), ok, "SESSION_NOT_FOUND", "");
    assert out + "" == out && "SESSION_NOT_FOUND" + "\n" == "SESSION_NOT_FOUND\n";
  }

  lemma OneTurn(env: Env, v: Vocab, npu: Request -> Reply, ready: bool, s: State, r: Request)
    requires Inv(s)
    ensures Dialogue(env, v, npu, ready, s, [r]) == Turn(env, v, npu, ready, s, r)
  {
    hide Inv, Turn;
    DialogueTurn(env, v, npu, ready, s, r, []);
    assert [r] + [] == [r];
    var t := Turn(env, v, npu, ready, s, r);
    assert t.Talk? ==> t.out + "" == t.out;
  }
}
