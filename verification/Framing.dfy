/**
 What the server understands is what the client meant: round trips of requests and of token
 streams, and exactly when they fail.
 */
module Framing {
  import opened Wrappers
  import opened Powers
  import opened Decimal
  import opened Lines
  import opened Base64
  import opened Protocol

  // ---- command lines ----

  predicate IsInt32(n: int) {
    -0x8000_0000 <= n < 0x8000_0000
  }

  /** A request the client can print: C `int`s, 64-bit sizes, and prompts and arguments that came as C strings. */
  ghost predicate Printable(r: Request) {
    match r
    case CreateSession(id) => IsInt32(id)
    case KillSession(id) => IsInt32(id)
    case SetHotLimit(n) => n < SIZE_LIMIT
    case SetColdLimit(n) => n < SIZE_LIMIT
    case Infer(id, n, prompt) => IsInt32(id) && IsInt32(n) && NulFree(prompt)
    case NpuLoad(model, backend, nCtx, nThreads) =>
      NulFree(model) && NulFree(backend) && IsInt32(nCtx) && IsInt32(nThreads)
    case NpuInfer(n, prompt) => IsInt32(n) && NulFree(prompt)
    case Hello => true
  }

  /** No `fgets` chunk of the prompt as sent begins with `END`. */
  predicate NoEndChunk(prompt: string) {
    forall i :: 0 <= i < |Chunks(prompt + "\n")| ==> !IsEnd(Chunks(prompt + "\n")[i])
  }

  /** What the line format can carry: prompts without such chunks, paths that are words. */
  ghost predicate Framed(r: Request) {
    match r
    case Infer(_, _, prompt) => NoEndChunk(prompt)
    case NpuInfer(_, prompt) => NoEndChunk(prompt)
    case NpuLoad(model, backend, _, _) => IsWord(model) && IsWord(backend)
    case _ => true
  }

  /** The text of a number: short, and of characters that neither end a line nor a string. */
  lemma NumberText(n: int)
    requires -0x8000_0000 <= n < SIZE_LIMIT
    ensures |ToDecimal(n)| <= 20 && Plain(ToDecimal(n))
  {
    var d := Digits(if n < 0 then -n else n);
    assert Power(10, 10) == 10000000000 by {
      PowersOfTen();
    }
    assert Power(10, 20) == 100000000000000000000 by {
      PowersOfTen();
    }
    if n < 0 {
      DigitsLength(-n, 10);
    } else {
      DigitsLength(n, 20);
    }
    assert forall c :: c in d ==> IsDigit(c);
  }

  lemma PowersOfTen()
    ensures Power(10, 10) == 10000000000 && Power(10, 20) == 100000000000000000000
  {
  }

  /** Text that neither ends a line nor a string. */
  ghost predicate Plain(s: string) {
    '\n' !in s && NulFree(s)
  }

  lemma PlainConcat(a: string, b: string)
    requires Plain(a) && Plain(b)
    ensures Plain(a + b)
  {
  }

  lemma Split(a: string, b: string)
    ensures (a + b)[..|a|] == a && (a + b)[|a|..] == b
  {
  }

  /** A printable command line is one chunk and contains no NUL. */
  lemma CommandLine(body: string)
    requires Plain(body) && |body| < LINE_MAX
    ensures Chunks(body + "\n") == [body + "\n"] && CStr(body + "\n") == body + "\n"
  {
    OneLine(body);
    CStrOfNulFree(body + "\n");
  }

  lemma CommandOfPrefix(cmd: string, c: Command)
    requires c != IsOther && StartsWith(cmd, PrefixOf(c))
    ensures CommandOf(cmd) == c
  {
    var p := PrefixOf(c);
    var q := PrefixOf(CommandOf(cmd));
    assert cmd[0] == p[0] && cmd[4] == p[4] && cmd[1] == p[1];
    if q != "" {
      assert cmd[0] == q[0] && cmd[4] == q[4] && cmd[1] == q[1];
    }
  }

  // ---- one request ----

  lemma {:induction false} ReadsWholePrompt(ps: seq<string>, rest: seq<string>)
    requires forall i :: 0 <= i < |ps| ==> NulFree(ps[i]) && !IsEnd(ps[i])
    ensures PromptText(ps + ["END\n"] + rest) == Concat(ps)
    ensures AfterPrompt(ps + ["END\n"] + rest) == rest
  {
    var cs := ps + ["END\n"] + rest;
    if ps == [] {
      assert cs[0] == "END\n" && cs[1..] == rest;
      assert "END\n"[..3] == "END";
    } else {
      assert cs[1..] == ps[1..] + ["END\n"] + rest;
      CStrOfNulFree(ps[0]);
      ReadsWholePrompt(ps[1..], rest);
    }
  }

  /** A chunk that begins with `END` ends the prompt early, and what is read is shorter by that chunk at least. */
  lemma {:induction false} StopsEarly(ps: seq<string>, rest: seq<string>, k: nat)
    requires forall i :: 0 <= i < |ps| ==> NulFree(ps[i])
    requires k < |ps| && IsEnd(ps[k])
    ensures |PromptText(ps + rest)| + 3 <= |Concat(ps)|
  {
    var cs := ps + rest;
    assert cs[0] == ps[0];
    if IsEnd(ps[0]) {
    } else {
      assert cs[1..] == ps[1..] + rest;
      CStrOfNulFree(ps[0]);
      StopsEarly(ps[1..], rest, k - 1);
    }
  }

  lemma EndLine()
    ensures Chunks("END\n") == ["END\n"]
  {
    OneLine("END");
    assert "END" + "\n" == "END\n";
  }

  /** How the chunks of a request with a prompt fall. */
  lemma PromptChunks(head: string, prompt: string, tail: string)
    requires Plain(head) && |head| < LINE_MAX
    ensures Chunks(head + "\n" + (prompt + "\n") + "END\n" + tail) ==
            [head + "\n"] + (Chunks(prompt + "\n") + ["END\n"] + Chunks(tail))
  {
    hide Chunks;
    CommandLine(head);
    EndLine();
    ThreeParts(head + "\n", prompt + "\n", "END\n", tail);
  }

  lemma ThreeParts(a: string, b: string, c: string, tail: string)
    requires EndsLine(a) && EndsLine(b) && EndsLine(c)
    ensures Chunks(a + b + c + tail) == Chunks(a) + (Chunks(b) + Chunks(c) + Chunks(tail))
  {
    hide Chunks, EndsLine;
    ChunksAppend(a, b + c + tail);
    ChunksAppend(b, c + tail);
    ChunksAppend(c, tail);
    assert a + b + c + tail == a + (b + c + tail);
    assert b + c + tail == b + (c + tail);
    assert Chunks(b) + (Chunks(c) + Chunks(tail)) == Chunks(b) + Chunks(c) + Chunks(tail);
  }

  ghost predicate PromptLines(ps: seq<string>, prompt: string) {
    Concat(ps) == prompt + "\n" && forall i :: 0 <= i < |ps| ==> NulFree(ps[i])
  }

  lemma PromptAsLines(prompt: string)
    requires NulFree(prompt)
    ensures PromptLines(Chunks(prompt + "\n"), prompt)
  {
    var ps := Chunks(prompt + "\n");
    ConcatChunks(prompt + "\n");
    hide Chunks;
    forall i | 0 <= i < |ps|
      ensures NulFree(ps[i])
    {
      ChunksNulFree(prompt + "\n", ps[i]);
    }
  }

  lemma WholePromptKept(ps: seq<string>, prompt: string, tail: seq<string>)
    requires PromptLines(ps, prompt) && forall i :: 0 <= i < |ps| ==> !IsEnd(ps[i])
    ensures Chomp(PromptText(ps + ["END\n"] + tail)) == prompt && AfterPrompt(ps + ["END\n"] + tail) == tail
  {
    hide PromptText, AfterPrompt;
    ReadsWholePrompt(ps, tail);
    assert (prompt + "\n")[..|prompt|] == prompt;
  }

  lemma PartialPromptLost(ps: seq<string>, prompt: string, tail: seq<string>, k: nat)
    requires PromptLines(ps, prompt) && k < |ps| && IsEnd(ps[k])
    ensures Chomp(PromptText(ps + ["END\n"] + tail)) != prompt
  {
    hide PromptText;
    StopsEarly(ps, ["END\n"] + tail, k);
    assert ps + (["END\n"] + tail) == ps + ["END\n"] + tail;
  }

  /** The prompt the server ends up with is the one sent if and only if no chunk of it begins with `END`. */
  lemma PromptRecovered(prompt: string, tail: seq<string>)
    requires NulFree(prompt)
    ensures var cs := Chunks(prompt + "\n") + ["END\n"] + tail;
      && (Chomp(PromptText(cs)) == prompt <==> NoEndChunk(prompt))
      && (NoEndChunk(prompt) ==> AfterPrompt(cs) == tail)
  {
    hide Chunks, PromptText, AfterPrompt, Chomp, PromptLines, IsEnd;
    var ps := Chunks(prompt + "\n");
    PromptAsLines(prompt);
    if NoEndChunk(prompt) {
      WholePromptKept(ps, prompt, tail);
    } else {
      var k :| 0 <= k < |ps| && IsEnd(ps[k]);
      PartialPromptLost(ps, prompt, tail, k);
    }
  }

  /** A prompt that is not closed takes all there is. */
  lemma {:induction false} PromptWithoutEnd(ps: seq<string>)
    requires forall i :: 0 <= i < |ps| ==> NulFree(ps[i]) && !IsEnd(ps[i])
    ensures PromptText(ps) == Concat(ps) && AfterPrompt(ps) == []
  {
    hide IsEnd;
    if ps == [] {
    } else {
      CStrOfNulFree(ps[0]);
      PromptWithoutEnd(ps[1..]);
    }
  }

  lemma ScanTwoRendered(a: int, b: int)
    ensures ScanTwo(ToDecimal(a) + " " + ToDecimal(b) + "\n") == (a, b)
  {
    hide ScanInt, ToDecimal;
    var rest := " " + ToDecimal(b) + "\n";
    assert ToDecimal(a) + " " + ToDecimal(b) + "\n" == ToDecimal(a) + rest;
    ScanRendered(a, rest);
    SkipSpace(ToDecimal(b) + "\n");
    assert rest == " " + (ToDecimal(b) + "\n");
    ScanRendered(b, "\n");
  }

  lemma SkipSpace(s: string)
    ensures ScanInt(" " + s) == ScanInt(s)
  {
    assert (" " + s)[1..] == s;
    assert (" " + s)[SpaceSpan(" " + s)..] == s[SpaceSpan(s)..];
  }

  lemma TakePlain(r: Request, rest: seq<string>)
    requires Printable(r) && !r.Infer? && !r.NpuInfer? && !r.NpuLoad?
    ensures Chunks(Print(r)) == [Print(r)]
    ensures Take([Print(r)] + rest) == (Some(r), rest)
  {
    match r
    case CreateSession(id) => TakeNumber(r, IsCreate, CREATE, id, rest);
    case KillSession(id) => TakeNumber(r, IsKill, KILL, id, rest);
    case SetHotLimit(n) => TakeNumber(r, IsHot, HOT, n, rest);
    case SetColdLimit(n) => TakeNumber(r, IsCold, COLD, n, rest);
    case Hello =>
      CommandLine(HELLO);
      CommandOfPrefix(HELLO + "\n", IsHello);
      assert ([HELLO + "\n"] + rest)[1..] == rest;
  }

  lemma TakeNumber(r: Request, c: Command, p: string, n: int, rest: seq<string>)
    requires -0x8000_0000 <= n < SIZE_LIMIT && p == PrefixOf(c)
    requires (c == IsCreate && r == CreateSession(n)) || (c == IsKill && r == KillSession(n))
      || (c == IsHot && n >= 0 && r == SetHotLimit(n)) || (c == IsCold && n >= 0 && r == SetColdLimit(n))
    ensures Chunks(Print(r)) == [Print(r)]
    ensures Take([Print(r)] + rest) == (Some(r), rest)
  {
    var line := NumberLine(c, p, n);
    hide ScanInt, CommandOf, CStr, ToDecimal, Chunks, Atoi, Strtoul, StartsWith;
    assert Print(r) == line;
    assert ([line] + rest)[1..] == rest && ([line] + rest)[0] == line;
  }

  lemma NumberLine(c: Command, p: string, n: int) returns (line: string)
    requires -0x8000_0000 <= n < SIZE_LIMIT && p == PrefixOf(c) && c in {IsCreate, IsKill, IsHot, IsCold}
    ensures line == p + ToDecimal(n) + "\n" && |p| <= |line|
    ensures Chunks(line) == [line] && CStr(line) == line && CommandOf(line) == c
    ensures Atoi(line[|p|..]) == n && (n >= 0 ==> Strtoul(line[|p|..]) == n)
  {
    hide ScanInt, ToDecimal, CStr, Chunks, CommandOf, StartsWith, PrefixOf, Plain;
    NumberText(n);
    PrefixIsPlain(c);
    var d := ToDecimal(n);
    line := p + d + "\n";
    PlainConcat(p, d);
    CommandLine(p + d);
    Split(p, d + "\n");
    assert line == p + (d + "\n");
    Prefixed(p, d + "\n");
    CommandOfPrefix(line, c);
    ScanRendered(n, "\n");
  }

  lemma PrefixIsPlain(c: Command)
    ensures Plain(PrefixOf(c)) && |PrefixOf(c)| <= 15
  {
  }

  lemma Prefixed(p: string, rest: string)
    ensures StartsWith(p + rest, p)
  {
  }

  // ---- NPU_LOAD ----

  lemma {:induction false} LineLenPast(p: string, rest: string, cap: nat)
    requires '\n' !in p && |p| <= cap
    ensures LineLen(p + rest, cap) >= |p|
  {
    if p == "" {
    } else {
      assert (p + rest)[1..] == p[1..] + rest;
      LineLenPast(p[1..], rest, cap - 1);
    }
  }

  /** The first chunk of a text keeps a short prefix of it. */
  lemma FirstChunkPrefix(p: string, rest: string) returns (more: string)
    requires p != "" && Plain(p) && |p| <= LINE_MAX
    ensures Chunks(p + rest) != [] && CStr(Chunks(p + rest)[0]) == p + more
  {
    var s := p + rest;
    LineLenPast(p, rest, LINE_MAX);
    var c := s[..LineLen(s, LINE_MAX)];
    assert c == p + c[|p|..];
    CStrAppend(p, c[|p|..]);
    more := CStr(c[|p|..]);
  }

  lemma {:induction false} CStrAppend(a: string, b: string)
    requires NulFree(a)
    ensures CStr(a + b) == a + CStr(b)
  {
    if a == "" {
      assert a + b == b;
    } else {
      assert (a + b)[1..] == a[1..] + b;
      CStrAppend(a[1..], b);
      assert [a[0]] + (a[1..] + CStr(b)) == a + CStr(b);
    }
  }

  lemma LoadIsPlain()
    ensures Plain(LOAD) && |LOAD| == 9 && PrefixOf(IsLoad) == LOAD
  {
  }

  /** Whatever the arguments are, the line is taken for a load of words. */
  lemma TakesWords(text: string) returns (m: string)
    ensures var cs := Chunks(LOAD + text);
      cs != [] && Take(cs) == (Some(ScanLoad(m)), cs[1..])
  {
    LoadIsPlain();
    m := FirstChunkPrefix(LOAD, text);
    Prefixed(LOAD, m);
    Split(LOAD, m);
    var cs := Chunks(LOAD + text);
    hide Chunks, CStr, CommandOf, ScanLoad, StartsWith;
    CommandOfPrefix(CStr(cs[0]), IsLoad);
  }

  predicate NothingOrWord(s: string) {
    s == "" || IsWord(s)
  }

  lemma ScansWords(s: string)
    ensures var r := ScanLoad(s); r.NpuLoad? && NothingOrWord(r.modelPath) && NothingOrWord(r.backendDir)
  {
  }

  lemma NumberIsWord(n: int)
    requires -0x8000_0000 <= n < SIZE_LIMIT
    ensures IsWord(ToDecimal(n)) && Plain(ToDecimal(n)) && |ToDecimal(n)| <= 20
  {
    NumberText(n);
    var d := ToDecimal(n);
    forall i | 0 <= i < |d|
      ensures !IsSpace(d[i])
    {
      if n < 0 {
        assert i > 0 ==> d[i] == Digits(-n)[i - 1];
      }
    }
  }

  /** The two numbers at the end of the line. */
  function Numbers(nCtx: int, nThreads: int): string {
    ToDecimal(nCtx) + " " + ToDecimal(nThreads)
  }

  /** Two words, then the numbers. */
  lemma ScanLoadOf(model: string, backend: string, nCtx: int, nThreads: int)
    requires IsWord(model) && IsWord(backend)
    ensures ScanLoad(model + " " + backend + " " + Numbers(nCtx, nThreads) + "\n") ==
            NpuLoad(model, backend, nCtx, nThreads)
  {
    hide ScanTwo, ScanWord, IsWord, ToDecimal;
    var rest := Numbers(nCtx, nThreads) + "\n";
    var two := backend + " " + rest;
    assert model + " " + backend + " " + Numbers(nCtx, nThreads) + "\n" == model + (" " + two);
    ScanWordOf(model, " " + two);
    SkipSpaceWord(two);
    assert two == backend + (" " + rest);
    ScanWordOf(backend, " " + rest);
    ScanTwoRendered(nCtx, nThreads);
    SkipSpaceTwo(rest);
  }

  lemma SkipSpaceTwo(s: string)
    ensures ScanTwo(" " + s) == ScanTwo(s)
  {
    hide ScanInt;
    SkipSpace(s);
  }

  /** An empty argument lets the next one slip into its place. */
  lemma EmptyWordIsLost(model: string, backend: string, nCtx: int, nThreads: int)
    requires NothingOrWord(model) && NothingOrWord(backend) && (model == "" || backend == "")
    requires IsInt32(nCtx)
    ensures var r := ScanLoad(model + " " + backend + " " + Numbers(nCtx, nThreads) + "\n");
      r.NpuLoad? && (r.modelPath != model || r.backendDir != backend)
  {
    hide ScanTwo, ScanWord, IsWord, ToDecimal;
    NumberIsWord(nCtx);
    NotAWord();
    var d := ToDecimal(nCtx);
    var last := " " + ToDecimal(nThreads) + "\n";
    var rest := d + last;
    var two := backend + " " + rest;
    var s := model + " " + backend + " " + Numbers(nCtx, nThreads) + "\n";
    assert s == model + (" " + two) && two == backend + (" " + rest);
    SkipSpaceWord(two);
    SkipSpaceWord(rest);
    ScanWordOf(d, last);
    if model != "" {
      ScanWordOf(model, " " + two);
      assert two == " " + rest;
    } else {
      assert s == " " + two;
      if backend == "" {
        assert two == " " + rest;
      } else {
        ScanWordOf(backend, " " + rest);
      }
    }
  }

  lemma NotAWord()
    ensures !IsWord("")
  {
  }

  lemma WordIsPlain(w: string)
    requires NothingOrWord(w) && NulFree(w)
    ensures Plain(w) && |w| <= WORD_MAX
  {
    assert forall i :: 0 <= i < |w| ==> !IsSpace(w[i]);
  }

  /** Arguments that are words or nothing make one line. */
  lemma LoadLine(model: string, backend: string, nCtx: int, nThreads: int, tail: string)
    requires NothingOrWord(model) && NothingOrWord(backend) && Printable(NpuLoad(model, backend, nCtx, nThreads))
    ensures var args := model + " " + backend + " " + Numbers(nCtx, nThreads) + "\n";
      && Chunks(LOAD + args + tail) == [LOAD + args] + Chunks(tail)
      && Take([LOAD + args] + Chunks(tail)) == (Some(ScanLoad(args)), Chunks(tail))
  {
    WordIsPlain(model);
    WordIsPlain(backend);
    NumberIsWord(nCtx);
    NumberIsWord(nThreads);
    LoadIsPlain();
    assert Plain(" ");
    hide Plain, NothingOrWord, ToDecimal, CStr, Chunks, CommandOf, ScanLoad, IsWord, StartsWith, PrefixOf;
    PlainConcat(model, " ");
    PlainConcat(model + " ", backend);
    PlainConcat(model + " " + backend, " ");
    PlainConcat(ToDecimal(nCtx), " ");
    PlainConcat(ToDecimal(nCtx) + " ", ToDecimal(nThreads));
    var body := model + " " + backend + " " + Numbers(nCtx, nThreads);
    PlainConcat(model + " " + backend + " ", Numbers(nCtx, nThreads));
    PlainConcat(LOAD, body);
    CommandLine(LOAD + body);
    var args := body + "\n";
    assert LOAD + body + "\n" == LOAD + args;
    ChunksAppend(LOAD + args, tail);
    Split(LOAD, args);
    Prefixed(LOAD, args);
    CommandOfPrefix(LOAD + args, IsLoad);
    var cs := [LOAD + args] + Chunks(tail);
    assert cs[0] == LOAD + args && cs[1..] == Chunks(tail);
  }

  /** A load is recovered if and only if both paths are words of at most 511 characters. */
  lemma TakeLoad(model: string, backend: string, nCtx: int, nThreads: int, tail: string)
    requires Printable(NpuLoad(model, backend, nCtx, nThreads))
    ensures var r := NpuLoad(model, backend, nCtx, nThreads); var (q, rest) := Take(Chunks(Print(r) + tail));
      && q.Some? && (q.value == r <==> IsWord(model) && IsWord(backend))
      && (IsWord(model) && IsWord(backend) ==> rest == Chunks(tail))
  {
    hide Take, Chunks, ScanLoad, ToDecimal, IsWord;
    NotAWord();
    var r := NpuLoad(model, backend, nCtx, nThreads);
    var args := model + " " + backend + " " + Numbers(nCtx, nThreads) + "\n";
    assert Print(r) + tail == LOAD + args + tail == LOAD + (args + tail);
    if NothingOrWord(model) && NothingOrWord(backend) {
      LoadLine(model, backend, nCtx, nThreads, tail);
      if IsWord(model) && IsWord(backend) {
        ScanLoadOf(model, backend, nCtx, nThreads);
      } else {
        EmptyWordIsLost(model, backend, nCtx, nThreads);
      }
    } else {
      var m := TakesWords(args + tail);
      ScansWords(m);
    }
  }

  lemma TakeInferLine(line: string, id: int, n: int, more: seq<string>)
    requires CStr(line) == line && CommandOf(line) == IsInfer && |line| >= 6 && ScanTwo(line[6..]) == (id, n)
    ensures Take([line] + more) == (Some(Infer(id, n, Chomp(PromptText(more)))), AfterPrompt(more))
  {
  }

  lemma TakeNpuLine(line: string, n: int, more: seq<string>)
    requires CStr(line) == line && CommandOf(line) == IsNpu && |line| >= 10 && Atoi(line[10..]) == n
    ensures Take([line] + more) == (Some(NpuInfer(n, Chomp(PromptText(more)))), AfterPrompt(more))
  {
  }

  lemma TakeInfer(id: int, n: int, prompt: string, tail: string)
    requires Printable(Infer(id, n, prompt))
    ensures var (q, rest) := Take(Chunks(Print(Infer(id, n, prompt)) + tail));
      && q.Some? && (q.value == Infer(id, n, prompt) <==> NoEndChunk(prompt))
      && (NoEndChunk(prompt) ==> rest == Chunks(tail))
  {
    hide CommandOf, CStr, ToDecimal, Chunks, PromptText, AfterPrompt, Chomp, ScanTwo, NoEndChunk, StartsWith, Take, Plain;
    var head := InferLine(id, n);
    PromptChunks(head, prompt, tail);
    PromptRecovered(prompt, Chunks(tail));
    TakeInferLine(head + "\n", id, n, Chunks(prompt + "\n") + ["END\n"] + Chunks(tail));
    assert Print(Infer(id, n, prompt)) + tail == head + "\n" + (prompt + "\n") + "END\n" + tail;
  }

  lemma InferLine(id: int, n: int) returns (head: string)
    requires IsInt32(id) && IsInt32(n)
    ensures head == INFER + ToDecimal(id) + " " + ToDecimal(n)
    ensures Plain(head) && 6 <= |head| < LINE_MAX
    ensures CStr(head + "\n") == head + "\n" && CommandOf(head + "\n") == IsInfer
    ensures ScanTwo((head + "\n")[6..]) == (id, n)
  {
    NumberText(id);
    NumberText(n);
    assert Plain(INFER) && Plain(" ") && PrefixOf(IsInfer) == INFER;
    var a, b := ToDecimal(id), ToDecimal(n);
    hide ScanTwo, ToDecimal, CStr, Chunks, CommandOf, Plain, StartsWith, PrefixOf;
    var numbers := a + " " + b;
    PlainConcat(a, " ");
    PlainConcat(a + " ", b);
    PlainConcat(INFER, numbers);
    head := INFER + a + " " + b;
    assert head == INFER + numbers;
    CommandLine(head);
    Split(INFER, numbers + "\n");
    Prefixed(INFER, numbers + "\n");
    assert head + "\n" == INFER + (numbers + "\n");
    CommandOfPrefix(head + "\n", IsInfer);
    ScanTwoRendered(id, n);
  }

  lemma TakeNpuInfer(n: int, prompt: string, tail: string)
    requires Printable(NpuInfer(n, prompt))
    ensures var (q, rest) := Take(Chunks(Print(NpuInfer(n, prompt)) + tail));
      && q.Some? && (q.value == NpuInfer(n, prompt) <==> NoEndChunk(prompt))
      && (NoEndChunk(prompt) ==> rest == Chunks(tail))
  {
    hide CommandOf, CStr, ToDecimal, Chunks, PromptText, AfterPrompt, Chomp, Atoi, NoEndChunk, StartsWith, Take, Plain;
    var head := NpuLine(n);
    PromptChunks(head, prompt, tail);
    PromptRecovered(prompt, Chunks(tail));
    TakeNpuLine(head + "\n", n, Chunks(prompt + "\n") + ["END\n"] + Chunks(tail));
    assert Print(NpuInfer(n, prompt)) + tail == head + "\n" + (prompt + "\n") + "END\n" + tail;
  }

  lemma NpuLine(n: int) returns (head: string)
    requires IsInt32(n)
    ensures head == NPU + ToDecimal(n)
    ensures Plain(head) && 10 <= |head| < LINE_MAX
    ensures CStr(head + "\n") == head + "\n" && CommandOf(head + "\n") == IsNpu
    ensures Atoi((head + "\n")[10..]) == n
  {
    NumberText(n);
    assert Plain(NPU) && PrefixOf(IsNpu) == NPU;
    var d := ToDecimal(n);
    hide ScanInt, ToDecimal, CStr, Chunks, CommandOf, Plain, StartsWith, PrefixOf;
    head := NPU + d;
    PlainConcat(NPU, d);
    CommandLine(head);
    Split(NPU, d + "\n");
    Prefixed(NPU, d + "\n");
    assert head + "\n" == NPU + (d + "\n");
    CommandOfPrefix(head + "\n", IsNpu);
    ScanRendered(n, "\n");
  }

  /** One printed request, whatever follows it on the stream. */
  lemma TakePrinted(r: Request, tail: string)
    requires Printable(r)
    ensures Chunks(Print(r) + tail) != []
    ensures var (q, rest) := Take(Chunks(Print(r) + tail));
      && q.Some? && (q.value == r <==> Framed(r))
      && (Framed(r) ==> rest == Chunks(tail))
  {
    assert Print(r) + tail != "";
    hide Take, ToDecimal, NoEndChunk, IsWord;
    match r
    case Infer(id, n, prompt) => TakeInfer(id, n, prompt, tail);
    case NpuInfer(n, prompt) => TakeNpuInfer(n, prompt, tail);
    case NpuLoad(model, backend, nCtx, nThreads) => TakeLoad(model, backend, nCtx, nThreads, tail);
    case _ =>
      TakePlain(r, Chunks(tail));
      ChunksAppend(Print(r), tail);
  }

  // ---- whole connections ----

  /**
   The server recovers a whole list of printed requests, in order, with ids, counts, prompts and paths,
   if and only if no prompt has a chunk that begins with `END` and every path is a word of at most 511
   characters.
   */
  lemma {:induction false} RequestsRoundTrip(rs: seq<Request>)
    requires forall i :: 0 <= i < |rs| ==> Printable(rs[i])
    ensures Serve(Chunks(PrintAll(rs))) == rs <==> forall i :: 0 <= i < |rs| ==> Framed(rs[i])
  {
    hide Printable, Framed, Take, Print;
    if rs == [] {
      assert Chunks("") == [];
    } else {
      var tail := PrintAll(rs[1..]);
      var cs := Chunks(Print(rs[0]) + tail);
      TakePrinted(rs[0], tail);
      var (q, rest) := Take(cs);
      hide Chunks, PrintAll;
      assert Serve(cs) == [q.value] + Serve(rest);
      RequestsRoundTrip(rs[1..]);
      assert rs == [rs[0]] + rs[1..];
      if Framed(rs[0]) {
        assert Serve(cs)[1..] == Serve(Chunks(tail));
        assert Serve(cs) == rs <==> Serve(Chunks(tail)) == rs[1..];
        assert (forall i :: 0 <= i < |rs| ==> Framed(rs[i])) <==> (forall i :: 0 <= i < |rs[1..]| ==> Framed(rs[1..][i])) by {
          assert forall i :: 0 < i < |rs| ==> rs[i] == rs[1..][i - 1];
        }
      } else {
        assert Serve(cs)[0] != rs[0];
      }
    }
  }

  /** Text after which a new chunk begins: whole lines, or one chunk full without a newline. */
  predicate AtBoundary(a: string) {
    a == "" || a[|a| - 1] == '\n' || (|a| == LINE_MAX && '\n' !in a)
  }

  lemma {:induction false} FullLine(a: string, rest: string, cap: nat)
    requires |a| == cap && '\n' !in a
    ensures LineLen(a + rest, cap) == cap
  {
    if a == "" {
    } else {
      assert (a + rest)[1..] == a[1..] + rest;
      FullLine(a[1..], rest, cap - 1);
    }
  }

  lemma ChunksAtBoundary(a: string, rest: string)
    requires AtBoundary(a) && rest != ""
    ensures exists i :: 0 <= i < |Chunks(a + rest)| && Chunks(a + rest)[i] == Chunks(rest)[0]
  {
    if a == "" || a[|a| - 1] == '\n' {
      ChunksAppend(a, rest);
      assert Chunks(a + rest)[|Chunks(a)|] == Chunks(rest)[0];
    } else {
      FullLine(a, rest, LINE_MAX);
      assert (a + rest)[LINE_MAX..] == rest;
      assert Chunks(a + rest)[1] == Chunks(rest)[0];
    }
  }

  lemma EndBeginsChunk(b: string)
    ensures var s := "END" + b + "\n"; s != "" && IsEnd(Chunks(s)[0])
  {
    var s := "END" + b + "\n";
    assert s == "END" + (b + "\n");
    LineLenPast("END", b + "\n", LINE_MAX);
    assert s[..LineLen(s, LINE_MAX)][..3] == "END";
  }

  /**
   A prompt with `END` at a line start, or after 4095 characters without a newline, is not recovered;
   the prompt `END` is one of them.
   */
  lemma EndPromptIsLost(id: int, n: int, a: string, b: string)
    requires IsInt32(id) && IsInt32(n) && NulFree(a) && NulFree(b) && AtBoundary(a)
    ensures var prompt := a + "END" + b;
      !NoEndChunk(prompt) && Serve(Chunks(PrintAll([Infer(id, n, prompt)]))) != [Infer(id, n, prompt)]
  {
    var prompt := a + "END" + b;
    hide Chunks, Serve, PrintAll, IsEnd, AtBoundary;
    EndBeginsChunk(b);
    ChunksAtBoundary(a, "END" + b + "\n");
    assert prompt + "\n" == a + ("END" + b + "\n");
    var rs := [Infer(id, n, prompt)];
    assert !Framed(rs[0]);
    RequestsRoundTrip(rs);
  }

  // ---- token streams ----

  /** How the client's reply loop ends. */
  datatype End = Done | Error(text: string) | Closed

  datatype Shown = Shown(pieces: seq<seq<byte>>, end: End)

  /** The client's reply loop over the lines it reads. */
  function ReadReply(cs: seq<string>): Shown {
    if cs == [] then Shown([], Closed)
    else
      var line := CStr(cs[0]);
      if StartsWith(line, "TOKEN ") then
        var r := ReadReply(cs[1..]);
        r.(pieces := [Decode(Wrap32, Chomp(line[6..]))] + r.pieces)
      else if StartsWith(line, "DONE") then Shown([], Done)
      else if StartsWith(line, "ERROR") then Shown([], Error(if |line| >= 6 then line[6..] else ""))
      else ReadReply(cs[1..])
  }

  /** A line of base64 has no newline and no NUL, and its prefix names it. */
  lemma TokenLineShape(piece: seq<byte>)
    requires |piece| <= 3066
    ensures Chunks(TokenLine(piece)) == [TokenLine(piece)] && CStr(TokenLine(piece)) == TokenLine(piece)
    ensures StartsWith(TokenLine(piece), "TOKEN ")
    ensures Decode(Wrap32, Chomp(TokenLine(piece)[6..])) == piece
    ensures |TokenLine(piece)| == 7 + (|piece| + 2) / 3 * 4
  {
    var code := Encode(Wrap32, piece);
    EncodingShape(piece);
    DecodeEncode(piece);
    hide Encode, Decode;
    forall c | c in "TOKEN " + code
      ensures c != '\n' && c != '\0'
    {
    }
    CommandLine("TOKEN " + code);
    assert TokenLine(piece)[6..] == code + "\n" && (code + "\n")[..|code|] == code;
  }

  /** The line that closes a reply. */
  function Terminator(ok: bool, error: string): string {
    if ok then "DONE\n" else "ERROR " + error + "\n"
  }

  lemma TerminatorShape(ok: bool, error: string)
    requires '\n' !in error && NulFree(error) && |error| <= 100
    ensures var line := Terminator(ok, error);
      && Chunks(line) == [line] && CStr(line) == line && EndsLine(line)
      && !StartsWith(line, "TOKEN ")
      && (ok ==> StartsWith(line, "DONE"))
      && (!ok ==> !StartsWith(line, "DONE") && StartsWith(line, "ERROR") && line[6..] == error + "\n")
  {
    var line := Terminator(ok, error);
    if ok {
      CommandLine("DONE");
      assert "DONE" + "\n" == line && line[..4] == "DONE" && line[0] == 'D';
    } else {
      CommandLine("ERROR " + error);
      assert line[0] == 'E' && line[..5] == "ERROR";
    }
  }

  /** Token lines are decoded to their pieces, whatever follows them. */
  lemma {:induction false} TokensThenRest(pieces: seq<seq<byte>>, rest: string)
    requires forall i :: 0 <= i < |pieces| ==> |pieces[i]| <= 3066
    ensures var r := ReadReply(Chunks(rest));
      ReadReply(Chunks(TokenLines(pieces) + rest)) == r.(pieces := pieces + r.pieces)
    decreases |pieces|
  {
    hide Chunks, TokenLine, CStr, Decode, Chomp, StartsWith;
    var r := ReadReply(Chunks(rest));
    if pieces == [] {
      assert TokenLines(pieces) + rest == rest && pieces + r.pieces == r.pieces;
    } else {
      var line, more := TokenLine(pieces[0]), TokenLines(pieces[1..]) + rest;
      TokenLineShape(pieces[0]);
      TokenLineEnds(pieces[0]);
      ChunksAppend(line, more);
      assert TokenLines(pieces) + rest == line + more;
      TokensThenRest(pieces[1..], rest);
      assert ([line] + Chunks(more))[0] == line && ([line] + Chunks(more))[1..] == Chunks(more);
      assert [pieces[0]] + (pieces[1..] + r.pieces) == pieces + r.pieces;
    }
  }

  /**
   Token streams round-trip: for pieces that fit a line (up to 3066 bytes; the engine sends at most
   256), the client decodes exactly the pieces sent, in order, stops at the terminator, and takes no
   notice of what follows it.
   */
  lemma StreamRoundTrip(pieces: seq<seq<byte>>, ok: bool, error: string, tail: string)
    requires forall i :: 0 <= i < |pieces| ==> |pieces[i]| <= 3066
    requires '\n' !in error && NulFree(error) && |error| <= 100
    ensures ReadReply(Chunks(TokenLines(pieces) + Terminator(ok, error) + tail)) ==
            Shown(pieces, if ok then Done else Error(error + "\n"))
  {
    hide Chunks, TokenLines, CStr, Terminator, StartsWith;
    var last := Terminator(ok, error);
    TokensThenRest(pieces, last + tail);
    assert TokenLines(pieces) + last + tail == TokenLines(pieces) + (last + tail);
    TerminatorShape(ok, error);
    ChunksAppend(last, tail);
    assert ([last] + Chunks(tail))[0] == last;
  }

  /** A stream that breaks off without a terminator: the pieces so far, and the connection is closed. */
  lemma StreamCutOff(pieces: seq<seq<byte>>)
    requires forall i :: 0 <= i < |pieces| ==> |pieces[i]| <= 3066
    ensures ReadReply(Chunks(TokenLines(pieces))) == Shown(pieces, Closed)
  {
    TokensThenRest(pieces, "");
    EmptyStream();
    hide TokenLines, Chunks;
    assert TokenLines(pieces) + "" == TokenLines(pieces);
  }

  /** The client passes over lines of no meaning to it. */
  lemma OtherLinePassed(line: string, rest: seq<string>)
    requires var s := CStr(line); !StartsWith(s, "TOKEN ") && !StartsWith(s, "DONE") && !StartsWith(s, "ERROR")
    ensures ReadReply([line] + rest) == ReadReply(rest)
  {
    hide StartsWith, CStr;
    assert ([line] + rest)[1..] == rest;
  }

  lemma TokenLineEnds(piece: seq<byte>)
    ensures EndsLine(TokenLine(piece))
  {
  }

  lemma SingleRequest(r: Request)
    requires Printable(r) && Framed(r)
    ensures Serve(Chunks(Print(r))) == [r]
  {
    hide Chunks, Print, Serve, Printable, Framed;
    RequestsRoundTrip([r]);
    assert PrintAll([r][1..]) == "" && PrintAll([r]) == Print(r) + "" == Print(r);
  }

  // ---- what the client prints of it ----

  /** `printf("%s", decoded.c_str())` stops at the first NUL byte. */
  function BytesBeforeNul(p: seq<byte>): (r: seq<byte>)
    ensures |r| <= |p|
  {
    if p == [] || p[0] == 0 then [] else [p[0]] + BytesBeforeNul(p[1..])
  }

  function Printed(pieces: seq<seq<byte>>): seq<byte> {
    if pieces == [] then [] else BytesBeforeNul(pieces[0]) + Printed(pieces[1..])
  }

  function Flatten(pieces: seq<seq<byte>>): seq<byte> {
    if pieces == [] then [] else pieces[0] + Flatten(pieces[1..])
  }

  lemma {:induction false} BeforeNulIsAll(p: seq<byte>)
    ensures if 0 in p then |BytesBeforeNul(p)| < |p| else BytesBeforeNul(p) == p
  {
    if p == [] {
    } else {
      BeforeNulIsAll(p[1..]);
      assert p == [p[0]] + p[1..];
    }
  }

  lemma {:induction false} PrintedLength(pieces: seq<seq<byte>>)
    ensures |Printed(pieces)| <= |Flatten(pieces)|
  {
    if pieces == [] {
    } else {
      PrintedLength(pieces[1..]);
    }
  }

  /** The client's output is the answer itself if and only if no piece contains a NUL byte. */
  lemma {:induction false} PrintsEverythingUnlessNul(pieces: seq<seq<byte>>)
    ensures Printed(pieces) == Flatten(pieces) <==> forall i :: 0 <= i < |pieces| ==> 0 !in pieces[i]
  {
    if pieces == [] {
    } else {
      var p, rest := pieces[0], pieces[1..];
      BeforeNulIsAll(p);
      PrintedLength(rest);
      PrintsEverythingUnlessNul(rest);
      assert forall i :: 0 < i < |pieces| ==> pieces[i] == rest[i - 1];
      if 0 !in p {
        assert Printed(pieces)[|p|..] == Printed(rest) && Flatten(pieces)[|p|..] == Flatten(rest);
      }
    }
  }

  lemma {:induction false} PrintedAppend(pieces: seq<seq<byte>>, p: seq<byte>)
    ensures Printed(pieces + [p]) == Printed(pieces) + BytesBeforeNul(p)
  {
    hide BytesBeforeNul;
    if pieces == [] {
      assert pieces + [p] == [p];
    } else {
      assert (pieces + [p])[1..] == pieces[1..] + [p];
      PrintedAppend(pieces[1..], p);
    }
  }

  /** The client's reply loop as it runs. */
  method ReadAnswer(rf: Reader) returns (shown: Shown, printed: seq<byte>)
    modifies rf
    ensures shown == ReadReply(Chunks(old(rf.rest)))
    ensures printed == Printed(shown.pieces)
  {
    hide Chunks, Decode, Chomp;
    var pieces: seq<seq<byte>> := [];
    printed := [];
    ghost var all := ReadReply(Chunks(rf.rest));
    while true
      invariant all == ReadReply(Chunks(rf.rest)).(pieces := pieces + ReadReply(Chunks(rf.rest)).pieces)
      invariant printed == Printed(pieces)
      decreases |rf.rest|
    {
      ghost var before := Chunks(rf.rest);
      var chunk := rf.Fgets();
      if chunk.None? {
        EmptyStream();
        return Shown(pieces, Closed), printed;
      }
      assert before[1..] == Chunks(rf.rest) && before[0] == chunk.value;
      var line := CStr(chunk.value);
      if StartsWith(line, "TOKEN ") {
        var decoded := Decode(Wrap32, Chomp(line[6..]));
        PrintedAppend(pieces, decoded);
        ghost var rest := ReadReply(Chunks(rf.rest)).pieces;
        assert pieces + ([decoded] + rest) == pieces + [decoded] + rest;
        pieces, printed := pieces + [decoded], printed + BytesBeforeNul(decoded);
      } else if StartsWith(line, "DONE") {
        return Shown(pieces, Done), printed;
      } else if StartsWith(line, "ERROR") {
        return Shown(pieces, Error(if |line| >= 6 then line[6..] else "")), printed;
      }
    }
  }
}
