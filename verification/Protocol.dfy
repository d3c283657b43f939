/**
 The socket protocol: what the client prints, what `HandleClient` reads from it, what the server
 answers, and what the client reads from that.
 */
module Protocol {
  import opened Wrappers
  import opened Decimal
  import opened Lines
  import opened Base64

  datatype Request =
    | CreateSession(id: int)
    | KillSession(id: int)
    | SetHotLimit(count: nat)
    | SetColdLimit(bytes: nat)
    | Infer(id: int, maxTokens: int, prompt: string)
    | NpuLoad(modelPath: string, backendDir: string, nCtx: int, nThreads: int)
    | NpuInfer(maxTokens: int, prompt: string)
    | Hello

  const CREATE := "CREATE_SESSION "
  const KILL := "KILL_SESSION "
  const HOT := "SET_HOT_LIMIT "
  const COLD := "SET_COLD_LIMIT "
  const INFER := "INFER "
  const LOAD := "NPU_LOAD "
  const NPU := "NPU_INFER "
  const HELLO := "HELLO"

  // ---- the client's side of a request ----

  function Print(r: Request): string {
    match r
    case CreateSession(id) => CREATE + ToDecimal(id) + "\n"
    case KillSession(id) => KILL + ToDecimal(id) + "\n"
    case SetHotLimit(n) => HOT + ToDecimal(n) + "\n"
    case SetColdLimit(n) => COLD + ToDecimal(n) + "\n"
    case Infer(id, n, prompt) => INFER + ToDecimal(id) + " " + ToDecimal(n) + "\n" + (prompt + "\n") + "END\n"
    case NpuLoad(model, backend, nCtx, nThreads) =>
      LOAD + model + " " + backend + " " + ToDecimal(nCtx) + " " + ToDecimal(nThreads) + "\n"
    case NpuInfer(n, prompt) => NPU + ToDecimal(n) + "\n" + (prompt + "\n") + "END\n"
    case Hello => HELLO + "\n"
  }

  function PrintAll(rs: seq<Request>): string {
    if rs == [] then "" else Print(rs[0]) + PrintAll(rs[1..])
  }

  // ---- the server's side ----

  datatype Command = IsCreate | IsKill | IsHot | IsCold | IsInfer | IsLoad | IsNpu | IsHello | IsOther

  function PrefixOf(c: Command): string {
    match c
    case IsCreate => CREATE
    case IsKill => KILL
    case IsHot => HOT
    case IsCold => COLD
    case IsInfer => INFER
    case IsLoad => LOAD
    case IsNpu => NPU
    case IsHello => HELLO
    case IsOther => ""
  }

  /** The chain of prefix tests. */
  function CommandOf(cmd: string): (c: Command)
    ensures StartsWith(cmd, PrefixOf(c))
  {
    if StartsWith(cmd, CREATE) then IsCreate
    else if StartsWith(cmd, KILL) then IsKill
    else if StartsWith(cmd, HOT) then IsHot
    else if StartsWith(cmd, COLD) then IsCold
    else if StartsWith(cmd, INFER) then IsInfer
    else if StartsWith(cmd, LOAD) then IsLoad
    else if StartsWith(cmd, NPU) then IsNpu
    else if StartsWith(cmd, HELLO) then IsHello
    else IsOther
  }

  const SIZE_LIMIT: nat := 0x1_0000_0000_0000_0000

  /** `strtoul` into a 64-bit `size_t`: saturating, and negating modulo 2^64. */
  function Strtoul(s: string): (n: nat)
    ensures n < SIZE_LIMIT
  {
    match ScanInt(s)
    case NoMatch => 0
    case Match(v, _) =>
      if v >= SIZE_LIMIT || -v >= SIZE_LIMIT then SIZE_LIMIT - 1 else if v < 0 then SIZE_LIMIT + v else v
  }

  /** `sscanf(s, "%d %d", &a, &b)` into two zeros. */
  function ScanTwo(s: string): (int, int) {
    match ScanInt(s)
    case NoMatch => (0, 0)
    case Match(a, rest) => (a, Atoi(rest))
  }

  /** `sscanf(s, "%511s %511s %d %d", ...)` into empty strings and zeros. */
  function ScanLoad(s: string): Request {
    match ScanWord(s)
    case NoWord => NpuLoad("", "", 0, 0)
    case Word(model, r1) =>
      match ScanWord(r1)
      case NoWord => NpuLoad(model, "", 0, 0)
      case Word(backend, r2) =>
        var (nCtx, nThreads) := ScanTwo(r2);
        NpuLoad(model, backend, nCtx, nThreads)
  }

  predicate IsEnd(line: string) {
    StartsWith(line, "END")
  }

  /** The prompt lines up to the first that begins with `END`. */
  function PromptText(cs: seq<string>): string {
    if cs == [] || IsEnd(cs[0]) then "" else CStr(cs[0]) + PromptText(cs[1..])
  }

  function AfterPrompt(cs: seq<string>): (rest: seq<string>)
    ensures |rest| <= |cs|
  {
    if cs == [] then [] else if IsEnd(cs[0]) then cs[1..] else AfterPrompt(cs[1..])
  }

  /** Drop one trailing newline. */
  function Chomp(s: string): string {
    if s != "" && s[|s| - 1] == '\n' then s[..|s| - 1] else s
  }

  /** One turn of the command loop: the request understood, if any, and the lines left. */
  function Take(cs: seq<string>): (r: (Option<Request>, seq<string>))
    requires cs != []
    ensures |r.1| < |cs|
  {
    var cmd := CStr(cs[0]);
    match CommandOf(cmd)
    case IsCreate => (Some(CreateSession(Atoi(cmd[15..]))), cs[1..])
    case IsKill => (Some(KillSession(Atoi(cmd[13..]))), cs[1..])
    case IsHot => (Some(SetHotLimit(Strtoul(cmd[14..]))), cs[1..])
    case IsCold => (Some(SetColdLimit(Strtoul(cmd[15..]))), cs[1..])
    case IsInfer =>
      var (id, n) := ScanTwo(cmd[6..]);
      (Some(Infer(id, n, Chomp(PromptText(cs[1..])))), AfterPrompt(cs[1..]))
    case IsLoad => (Some(ScanLoad(cmd[9..])), cs[1..])
    case IsNpu => (Some(NpuInfer(Atoi(cmd[10..]), Chomp(PromptText(cs[1..])))), AfterPrompt(cs[1..]))
    case IsHello => (Some(Hello), cs[1..])
    case IsOther => (None, cs[1..])
  }

  /** All requests a connection makes. */
  function Serve(cs: seq<string>): seq<Request>
    decreases |cs|
  {
    if cs == [] then []
    else
      var (r, rest) := Take(cs);
      (if r.Some? then [r.value] else []) + Serve(rest)
  }

  // ---- answers ----

  /** What the engine did: not loaded, a plain success or failure, or a stream of token pieces. */
  datatype Reply = NotReady | Status(ok: bool) | Stream(pieces: seq<seq<byte>>, ok: bool)

  function TokenLine(piece: seq<byte>): string {
    "TOKEN " + Encode(Wrap32, piece) + "\n"
  }

  function TokenLines(pieces: seq<seq<byte>>): string {
    if pieces == [] then "" else TokenLine(pieces[0]) + TokenLines(pieces[1..])
  }

  function Answer(r: Request, reply: Reply): string {
    match r
    case CreateSession(_) =>
      if reply.NotReady? then "ERROR engine not ready\n" else if reply.ok then "OK\n" else "ERROR ALREADY_EXISTS\n"
    case KillSession(_) => if reply.NotReady? || !reply.ok then "ERROR NOT_FOUND\n" else "OK\n"
    case SetHotLimit(_) => "OK\n"
    case SetColdLimit(_) => "OK\n"
    case Infer(_, _, _) =>
      if reply.NotReady? then "ERROR engine not ready\n"
      else (if reply.Stream? then TokenLines(reply.pieces) else "") + if reply.ok then "DONE\n" else "ERROR SESSION_NOT_FOUND\n"
    case NpuLoad(_, _, _, _) => if reply.NotReady? || !reply.ok then "ERROR NPU_LOAD_FAILED\n" else "OK\n"
    case NpuInfer(_, _) =>
      if reply.NotReady? then "ERROR NPU_NOT_READY\n"
      else (if reply.Stream? then TokenLines(reply.pieces) else "") + if reply.ok then "DONE\n" else "ERROR NPU_INFER_FAILED\n"
    case Hello => "HELLO from miniv_ai\n"
  }

  method ReadPrompt(rf: Reader) returns (prompt: string)
    modifies rf
    ensures prompt == Chomp(PromptText(Chunks(old(rf.rest))))
    ensures Chunks(rf.rest) == AfterPrompt(Chunks(old(rf.rest)))
    ensures |rf.rest| <= |old(rf.rest)|
  {
    hide Chunks, CStr, IsEnd;
    prompt := "";
    ghost var all := Chunks(rf.rest);
    while true
      invariant prompt + PromptText(Chunks(rf.rest)) == PromptText(all)
      invariant AfterPrompt(Chunks(rf.rest)) == AfterPrompt(all)
      invariant |rf.rest| <= |old(rf.rest)|
      decreases |rf.rest|
    {
      ghost var before := Chunks(rf.rest);
      var line := rf.Fgets();
      if line.None? {
        EmptyStream();
        break;
      }
      assert before[1..] == Chunks(rf.rest) && before[0] == line.value;
      if IsEnd(line.value) {
        break;
      }
      assert prompt + (CStr(line.value) + PromptText(Chunks(rf.rest))) == prompt + CStr(line.value) + PromptText(Chunks(rf.rest));
      prompt := prompt + CStr(line.value);
    }
    if prompt != "" && prompt[|prompt| - 1] == '\n' {
      prompt := prompt[..|prompt| - 1];
    }
  }

  /** What the command loop makes of one line; the prompt of an inference is read on. */
  method ReadRequest(line: string, rf: Reader) returns (r: Option<Request>)
    modifies rf
    ensures (r, Chunks(rf.rest)) == Take([line] + Chunks(old(rf.rest)))
    ensures |rf.rest| <= |old(rf.rest)|
  {
    hide CommandOf, ScanInt, ScanLoad, CStr, Chunks, Chomp, PromptText, AfterPrompt;
    assert ([line] + Chunks(rf.rest))[1..] == Chunks(rf.rest);
    var cmd := CStr(line);
    match CommandOf(cmd) {
      case IsCreate => r := Some(CreateSession(Atoi(cmd[15..])));
      case IsKill => r := Some(KillSession(Atoi(cmd[13..])));
      case IsHot => r := Some(SetHotLimit(Strtoul(cmd[14..])));
      case IsCold => r := Some(SetColdLimit(Strtoul(cmd[15..])));
      case IsInfer =>
        var (id, n) := ScanTwo(cmd[6..]);
        var prompt := ReadPrompt(rf);
        r := Some(Infer(id, n, prompt));
      case IsLoad => r := Some(ScanLoad(cmd[9..]));
      case IsNpu =>
        var n := Atoi(cmd[10..]);
        var prompt := ReadPrompt(rf);
        r := Some(NpuInfer(n, prompt));
      case IsHello => r := Some(Hello);
      case IsOther => r := None;
    }
  }

  lemma EmptyStream()
    ensures Chunks("") == []
  {
  }
}
