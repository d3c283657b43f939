/**
 What each command line does, from the text the client sends to the state of the manager and the text
 written back.
 */
module Commands {
  import opened Wrappers
  import opened Decimal
  import opened Foreign
  import opened LruList
  import opened SessionState
  import Spec = SessionSpec
  import InferSpec
  import ColdTier
  import EveryRun
  import opened Recency
  import opened Limits
  import opened Base64
  import opened Lines
  import opened Protocol
  import opened Framing
  import opened Daemon

  /** A connection that begins with one printed request makes its turn and goes on with the rest. */
  lemma FirstTurn(env: Env, v: Vocab, npu: Request -> Reply, ready: bool, s: State, r: Request, tail: string)
    requires Inv(s) && Printable(r) && Framed(r)
    ensures Dialogue(env, v, npu, ready, s, Serve(Chunks(Print(r) + tail))) ==
            var t := Turn(env, v, npu, ready, s, r);
            if t.Down? then t else After(t.out, Dialogue(env, v, npu, ready, t.s, Serve(Chunks(tail))))
  {
    hide Inv, Turn, Take, Chunks, Print, Printable, Framed, Dialogue, Serve;
    TakePrinted(r, tail);
    var cs := Chunks(Print(r) + tail);
    assert cs == [cs[0]] + cs[1..];
    ServeTurn(cs[0], cs[1..]);
    DialogueTurn(env, v, npu, ready, s, r, Serve(Chunks(tail)));
  }

  /** What a connection writes and leaves behind. */
  function Connection(env: Env, v: Vocab, npu: Request -> Reply, ready: bool, s: State, input: string): Talk
    requires Inv(s)
  {
    Dialogue(env, v, npu, ready, s, Serve(Chunks(input)))
  }

  // ---- the session commands, on a loaded engine ----

  /**
   `CREATE_SESSION`: OK if and only if the id was unknown. Then a new entry appears: COLD, never swapped, without
   tokens, stamped with the time. Everything else stays.
   */
  lemma CreateCommand(env: Env, v: Vocab, npu: Request -> Reply, s: State, id: int, tail: string) returns (r: State)
    requires Inv(s) && IsInt32(id)
    ensures Inv(r)
    ensures Connection(env, v, npu, true, s, "CREATE_SESSION " + ToDecimal(id) + "\n" + tail) ==
            After(if id !in s.sessions then "OK\n" else "ERROR ALREADY_EXISTS\n", Connection(env, v, npu, true, r, tail))
    ensures id in s.sessions ==> r == s
    ensures id !in s.sessions ==>
      && r.sessions == s.sessions[id := Meta(id, COLD, None, [], "", 0, env.clock(s.w.tick), 0)]
      && r == s.(sessions := r.sessions, w := s.w.(tick := r.w.tick))
  {
    hide Inv, Dialogue, Serve, Chunks, ToDecimal;
    FirstTurn(env, v, npu, true, s, CreateSession(id), tail);
    Spec.CreateKeepsInv(env, s, id);
    r := Spec.CreateSession(env, s, id);
  }

  /**
   `KILL_SESSION`: OK if and only if the id was known. Then its entry goes, with its node, its context if it was
   HOT, its file and its bytes if it was swapped. Everything else stays, in its place.
   */
  lemma KillCommand(env: Env, v: Vocab, npu: Request -> Reply, s: State, id: int, tail: string) returns (r: State)
    requires Inv(s) && IsInt32(id)
    ensures Inv(r)
    ensures Connection(env, v, npu, true, s, "KILL_SESSION " + ToDecimal(id) + "\n" + tail) ==
            After(if id in s.sessions then "OK\n" else "ERROR NOT_FOUND\n", Connection(env, v, npu, true, r, tail))
    ensures id !in s.sessions ==> r == s
    ensures r.sessions == s.sessions - {id} && r.hot == Others(s.hot, id) && r.cold == Others(s.cold, id)
    ensures r.w.ctxs == if Spec.IsHot(s, id) then s.w.ctxs - {s.sessions[id].ctx.value} else s.w.ctxs
    ensures r.w.files == if Spec.IsSwapped(s, id) then s.w.files - {PathFor(s.swapDir, id)} else s.w.files
    ensures r.coldUsed == s.coldUsed - if Spec.IsSwapped(s, id) then s.sessions[id].swapFileBytes else 0
    ensures r.hotLimit == s.hotLimit && r.coldLimit == s.coldLimit
  {
    hide Inv, Dialogue, Serve, Chunks, ToDecimal, PathFor, Others;
    FirstTurn(env, v, npu, true, s, KillSession(id), tail);
    Spec.KillKeepsInv(s, id);
    r := Spec.KillSession(s, id);
    KillTakesOut(s, id);
    KilledParts(s, id);
  }

  lemma KilledParts(s: State, id: int)
    requires Inv(s)
    ensures var r := Spec.KillSession(s, id);
      && r.sessions == s.sessions - {id} && (id !in s.sessions ==> r == s)
      && (Spec.IsHot(s, id) ==> s.sessions[id].ctx.Some?)
      && r.w.ctxs == (if Spec.IsHot(s, id) then s.w.ctxs - {s.sessions[id].ctx.value} else s.w.ctxs)
      && r.w.files == (if Spec.IsSwapped(s, id) then s.w.files - {PathFor(s.swapDir, id)} else s.w.files)
      && r.coldUsed == s.coldUsed - (if Spec.IsSwapped(s, id) then s.sessions[id].swapFileBytes else 0)
      && r.hotLimit == s.hotLimit && r.coldLimit == s.coldLimit
  {
    if Spec.IsHot(s, id) {
      Spec.HotFacts(s, id);
    } else if Spec.IsSwapped(s, id) {
      Spec.SwappedFacts(s, id);
    }
    hide Inv, PathFor, Erase;
  }

  /**
   `SET_HOT_LIMIT`: the limit is the one asked for, or one. The HOT tier is cut down below it, and no further: it
   ends strictly below if no save fails and session -1 is not HOT, and stays as it is if it was below. The
   budget stays, nobody comes in, and nobody goes who was not swapped or swapped out.
   */
  lemma SetHotLimitCommand(env: Env, v: Vocab, npu: Request -> Reply, s: State, n: nat, tail: string) returns (r: State)
    requires Inv(s) && n < SIZE_LIMIT
    ensures Inv(r)
    ensures Connection(env, v, npu, true, s, "SET_HOT_LIMIT " + ToDecimal(n) + "\n" + tail) ==
            After("OK\n", Connection(env, v, npu, true, r, tail))
    ensures r.hotLimit == (if n < 1 then 1 else n) && r.coldLimit == s.coldLimit
    ensures |s.hot| < r.hotLimit ==> r == s.(hotLimit := r.hotLimit)
    ensures |s.hot| >= r.hotLimit ==> r.hotLimit <= |r.hot| + 1 && |r.hot| <= |s.hot|
    ensures SavesNeverFail(env) ==> |r.hot| <= r.hotLimit && (|r.hot| < r.hotLimit <==> !Spec.IsHot(s, -1) || r.hotLimit > 1)
    ensures forall k :: k in r.sessions ==> k in s.sessions
    ensures forall k :: k in s.sessions && !Spec.IsHot(s, k) ==>
              if k in r.sessions then r.sessions[k] == s.sessions[k] else Spec.IsSwapped(s, k)
  {
    hide Inv, Dialogue, Serve, Chunks, ToDecimal, Spec.EvictHot, Spec.IsHot, Spec.IsSwapped;
    FirstTurn(env, v, npu, true, s, SetHotLimit(n), tail);
    r := Spec.SetHotLimit(env, s, n);
    if SavesNeverFail(env) {
      EveryRun.SetHotLimitMakesRoom(env, s, n);
    }
    CutDown(env, s, n);
    forall k | k in s.sessions && !Spec.IsHot(s, k)
      ensures if k in r.sessions then r.sessions[k] == s.sessions[k] else Spec.IsSwapped(s, k)
    {
      ColdStaysUnlessKilled(env, s, n, k);
    }
  }

  lemma CutDown(env: Env, s: State, n: nat)
    requires Inv(s)
    ensures var r := Spec.SetHotLimit(env, s, n); var limit := if n < 1 then 1 else n;
      && (|s.hot| < limit ==> r == s.(hotLimit := limit))
      && (|s.hot| >= limit ==> limit <= |r.hot| + 1 && |r.hot| <= |s.hot|)
      && r.hotLimit == limit && r.coldLimit == s.coldLimit
      && (forall k :: k in r.sessions ==> k in s.sessions)
  {
    hide Inv, Spec.EvictHot;
    var s0 := Spec.Limited(s, n);
    EvictHotTakesNoMore(env, s0, -1);
    Spec.EvictHotAddsNobody(env, s0, -1);
    BelowStays(env, s0);
  }

  lemma BelowStays(env: Env, s: State)
    requires Inv(s)
    ensures |s.hot| < s.hotLimit ==> Spec.EvictHot(env, s, -1).s == s
  {
    hide Inv, Spec.SwapOut, Spec.SaveOf, Spec.HotVictim;
  }

  lemma ColdStaysUnlessKilled(env: Env, s: State, n: nat, k: int)
    requires Inv(s) && k in s.sessions && !Spec.IsHot(s, k)
    ensures var r := Spec.SetHotLimit(env, s, n);
      if k in r.sessions then r.sessions[k] == s.sessions[k] else Spec.IsSwapped(s, k)
  {
    hide Inv, Spec.EvictHot;
    Spec.EvictHotLeavesCold(env, Spec.Limited(s, n), -1, k);
  }

  /**
   `SET_COLD_LIMIT`: the budget is the one asked for. A swapped session stays if and only if it fits the budget
   together with every younger one; a swapped session -1 always stays and takes its bytes from the others. Nobody
   else goes, and whoever stays is as before.
   */
  lemma SetColdLimitCommand(env: Env, v: Vocab, npu: Request -> Reply, s: State, n: nat, tail: string) returns (r: State)
    requires Inv(s) && n < SIZE_LIMIT
    ensures Inv(r)
    ensures Connection(env, v, npu, true, s, "SET_COLD_LIMIT " + ToDecimal(n) + "\n" + tail) ==
            After("OK\n", Connection(env, v, npu, true, r, tail))
    ensures r.coldLimit == n && r.hotLimit == s.hotLimit && r.hot == s.hot && r.w.ctxs == s.w.ctxs
    ensures forall k :: k in r.sessions ==> k in s.sessions && r.sessions[k] == s.sessions[k]
    ensures forall k :: k in s.sessions && !Spec.IsSwapped(s, k) ==> k in r.sessions
    ensures forall j :: 0 <= j < |s.cold| ==>
              (s.cold[j].id in r.sessions <==>
                 s.cold[j].id == -1 ||
                 SumBytes(s.sessions, s.cold[j..]) + (if -1 in Ids(s.cold[..j]) then BytesOf(s.sessions, -1) else 0) <= n)
  {
    hide Inv, Dialogue, Serve, Chunks, ToDecimal, Spec.EvictCold, SumBytes, Ids, BytesOf;
    FirstTurn(env, v, npu, true, s, SetColdLimit(n), tail);
    r := Spec.SetColdLimit(s, n);
    ColdTier.NewBudget(s, n);
  }

  /**
   `INFER`: the pieces of the tokens that the world generates, each on a line, then DONE, if the session can be
   activated and the prompt decoded; else the error. What was generated is recorded after the prompt. A
   negative count takes the daemon down when it comes to that, and so does a dangling activation.
   */
  lemma InferCommand(env: Env, v: Vocab, npu: Request -> Reply, s: State, id: int, n: int, prompt: string, tail: string)
    returns (r: State, tokens: seq<Token>)
    requires Inv(s) && IsInt32(id) && IsInt32(n) && NulFree(prompt) && NoEndChunk(prompt)
    ensures Inv(r)
    ensures var a := Spec.Activate(env, s, id);
            var input := "INFER " + ToDecimal(id) + " " + ToDecimal(n) + "\n" + (prompt + "\n") + "END\n";
      Connection(env, v, npu, true, s, input + tail) ==
        if a.Dangling? then Down
        else if a.Active? && env.decodeOk(a.s.w.tick) then
          if n < 0 then Down
          else After(TokenLines(Pieces(v, tokens)) + "DONE\n", Connection(env, v, npu, true, r, tail))
        else After("ERROR SESSION_NOT_FOUND\n", Connection(env, v, npu, true, r, tail))
    ensures var a := Spec.Activate(env, s, id);
      && (a.Active? && env.decodeOk(a.s.w.tick) && n >= 0 ==>
            && InferSpec.Generated(env, a.s.w.tick + 2, n, tokens)
            && Spec.IsHot(r, id) && r.sessions[id].tokens == a.s.sessions[id].tokens + v.tokenize(prompt) + tokens)
      && (a.Refused? || (a.Active? && !env.decodeOk(a.s.w.tick)) ==> tokens == [] && r.sessions == a.s.sessions)
  {
    hide Inv, Dialogue, Serve, Chunks, ToDecimal, Spec.Activate, InferSpec.Infer, InferSpec.Generated;
    hide NoEndChunk, TokenLines, Pieces;
    var a := InferSpec.Infer(env, s, id, v.tokenize(prompt), LoopBound(n));
    FirstTurn(env, v, npu, true, s, Infer(id, n, prompt), tail);
    InferTurn(env, v, npu, s, id, n, prompt);
    InferAnswers(env, s, id, v.tokenize(prompt), LoopBound(n));
    r, tokens := s, [];
    if a.Answer? {
      InferSpec.InferKeepsInv(env, s, id, v.tokenize(prompt), LoopBound(n));
      r, tokens := a.s, a.emitted;
      InferSpec.InferReports(env, s, id, v.tokenize(prompt), LoopBound(n));
      EmittedOrNothing(env, v, s, id, v.tokenize(prompt), LoopBound(n));
    }
  }

  lemma EmittedOrNothing(env: Env, v: Vocab, s: State, id: int, prompt: seq<Token>, maxTokens: nat)
    requires Inv(s) && InferSpec.Infer(env, s, id, prompt, maxTokens).Answer?
    ensures var a := Spec.Activate(env, s, id); var r := InferSpec.Infer(env, s, id, prompt, maxTokens);
      && (r.ok ==> a.Active? && InferSpec.Generated(env, a.s.w.tick + 2, maxTokens, r.emitted)
                   && r.s.sessions[id].tokens == a.s.sessions[id].tokens + prompt + r.emitted)
      && (!r.ok ==> TokenLines(Pieces(v, r.emitted)) == "")
  {
    hide Inv, Spec.Activate, InferSpec.Infer, InferSpec.Generate, InferSpec.Generated;
    InferSpec.InferReports(env, s, id, prompt, maxTokens);
    var a := Spec.Activate(env, s, id);
    var r := InferSpec.Infer(env, s, id, prompt, maxTokens);
    if r.ok {
      InferSpec.InferGenerates(env, s, id, prompt, maxTokens);
      InferSpec.GenerateEmits(env, a.s, id, a.ctx, prompt, maxTokens);
      assert a.s.sessions[id].tokens + (prompt + r.emitted) == a.s.sessions[id].tokens + prompt + r.emitted;
    }
  }

  // ---- the other lines ----

  /** Without a loaded engine two commands are answered so, and change nothing; the other three take the daemon down. */
  lemma NotReadyCommands(env: Env, v: Vocab, npu: Request -> Reply, s: State, id: int, n: int, prompt: string, tail: string)
    requires Inv(s) && IsInt32(id) && IsInt32(n) && NulFree(prompt) && NoEndChunk(prompt)
    ensures var refused := After("ERROR engine not ready\n", Connection(env, v, npu, false, s, tail));
            var infer := "INFER " + ToDecimal(id) + " " + ToDecimal(n) + "\n" + (prompt + "\n") + "END\n";
      && Connection(env, v, npu, false, s, "CREATE_SESSION " + ToDecimal(id) + "\n" + tail) == refused
      && Connection(env, v, npu, false, s, infer + tail) == refused
      && Connection(env, v, npu, false, s, "KILL_SESSION " + ToDecimal(id) + "\n" + tail) == Down
      && (n >= 0 ==>
            && Connection(env, v, npu, false, s, "SET_HOT_LIMIT " + ToDecimal(n) + "\n" + tail) == Down
            && Connection(env, v, npu, false, s, "SET_COLD_LIMIT " + ToDecimal(n) + "\n" + tail) == Down)
  {
    hide Inv, Dialogue, Serve, Chunks, ToDecimal, NoEndChunk;
    FirstTurn(env, v, npu, false, s, CreateSession(id), tail);
    FirstTurn(env, v, npu, false, s, Infer(id, n, prompt), tail);
    FirstTurn(env, v, npu, false, s, KillSession(id), tail);
    if n >= 0 {
      FirstTurn(env, v, npu, false, s, SetHotLimit(n), tail);
      FirstTurn(env, v, npu, false, s, SetColdLimit(n), tail);
    }
  }

  /** The greeting and the NPU commands leave the sessions alone, loaded engine or not. */
  lemma HelloCommand(env: Env, v: Vocab, npu: Request -> Reply, ready: bool, s: State, tail: string)
    requires Inv(s)
    ensures Connection(env, v, npu, ready, s, "HELLO\n" + tail) ==
            After("HELLO from miniv_ai\n", Connection(env, v, npu, ready, s, tail))
  {
    hide Inv, Dialogue, Serve, Chunks;
    FirstTurn(env, v, npu, ready, s, Hello, tail);
    assert HELLO + "\n" == "HELLO\n";
  }

  lemma NpuLoadCommand(env: Env, v: Vocab, npu: Request -> Reply, ready: bool, s: State, model: string, backend: string,
                       nCtx: int, nThreads: int, tail: string)
    requires Inv(s) && IsWord(model) && IsWord(backend) && NulFree(model) && NulFree(backend)
    requires IsInt32(nCtx) && IsInt32(nThreads)
    ensures var reply := npu(NpuLoad(model, backend, nCtx, nThreads));
            var input := "NPU_LOAD " + model + " " + backend + " " + ToDecimal(nCtx) + " " + ToDecimal(nThreads) + "\n";
      Connection(env, v, npu, ready, s, input + tail) ==
      After(if !reply.NotReady? && reply.ok then "OK\n" else "ERROR NPU_LOAD_FAILED\n",
            Connection(env, v, npu, ready, s, tail))
  {
    hide Inv, Dialogue, Serve, Chunks, ToDecimal, IsWord;
    FirstTurn(env, v, npu, ready, s, NpuLoad(model, backend, nCtx, nThreads), tail);
  }

  lemma NpuInferCommand(env: Env, v: Vocab, npu: Request -> Reply, ready: bool, s: State, n: int, prompt: string,
                        pieces: seq<seq<byte>>, ok: bool, tail: string)
    requires Inv(s) && IsInt32(n) && NulFree(prompt) && NoEndChunk(prompt)
    requires npu(NpuInfer(n, prompt)) in {NotReady, Stream(pieces, ok)}
    ensures var input := "NPU_INFER " + ToDecimal(n) + "\n" + (prompt + "\n") + "END\n";
      Connection(env, v, npu, ready, s, input + tail) ==
      After(if npu(NpuInfer(n, prompt)).NotReady? then "ERROR NPU_NOT_READY\n"
            else TokenLines(pieces) + if ok then "DONE\n" else "ERROR NPU_INFER_FAILED\n",
            Connection(env, v, npu, ready, s, tail))
  {
    hide Inv, Dialogue, Serve, Chunks, ToDecimal, NoEndChunk, TokenLines;
    FirstTurn(env, v, npu, ready, s, NpuInfer(n, prompt), tail);
  }

  predicate IsCommand(line: string) {
    || StartsWith(line, "CREATE_SESSION ") || StartsWith(line, "KILL_SESSION ")
    || StartsWith(line, "SET_HOT_LIMIT ") || StartsWith(line, "SET_COLD_LIMIT ")
    || StartsWith(line, "INFER ") || StartsWith(line, "NPU_LOAD ") || StartsWith(line, "NPU_INFER ")
    || StartsWith(line, "HELLO")
  }

  /** A line that is no command is passed over without an answer. */
  lemma UnknownLine(line: string, rest: seq<string>)
    requires !IsCommand(CStr(line))
    ensures Serve([line] + rest) == Serve(rest)
  {
    hide CStr, StartsWith, Serve;
    ServeTurn(line, rest);
    assert ([line] + rest)[1..] == rest;
  }

  /** Numbers as `strtoul` reads them: negated modulo 2^64, and the largest value when out of range. */
  lemma LimitText(n: int)
    ensures Strtoul(ToDecimal(n) + "\n") ==
            if n <= -0x1_0000_0000_0000_0000 || n >= 0x1_0000_0000_0000_0000 then 0xFFFF_FFFF_FFFF_FFFF
            else if n < 0 then 0x1_0000_0000_0000_0000 + n else n
  {
    hide ScanInt, ToDecimal;
    ScanRendered(n, "\n");
  }

  /** Where no digit is, every number is zero. */
  lemma NoNumber(text: string)
    requires forall i :: 0 <= i < |text| ==> !IsDigit(text[i])
    ensures Atoi(text) == 0 && Strtoul(text) == 0 && ScanTwo(text) == (0, 0)
  {
  }

  /** An argument that is missing is zero, or the empty word. */
  lemma MissingArguments(a: int, w: string, u: string, text: string)
    requires forall i :: 0 <= i < |text| ==> text[i] in {' ', '\t', '\n', '\r'}
    requires IsWord(w) && IsWord(u)
    ensures ScanTwo(ToDecimal(a) + text) == (a, 0)
    ensures ScanLoad(text) == NpuLoad("", "", 0, 0)
    ensures ScanLoad(w + text) == NpuLoad(w, "", 0, 0)
    ensures ScanLoad(w + " " + u + text) == NpuLoad(w, u, 0, 0)
  {
    hide ScanInt, ScanWord, ToDecimal, IsWord;
    assert forall i :: 0 <= i < |text| ==> !IsDigit(text[i]) && IsSpace(text[i]);
    NoNumber(text);
    ScanRendered(a, text);
    ScanSkipsSpace(text, "");
    assert text + "" == text;
    NothingLeft();
    ScanWordOf(w, text);
    ScanWordOf(w, " " + (u + text));
    assert w + " " + u + text == w + (" " + (u + text));
    SkipSpaceWord(u + text);
    ScanWordOf(u, text);
  }

  lemma NothingLeft()
    ensures ScanWord("") == NoWord && ScanInt("") == NoMatch
  {
  }
}
