/**
 The world the daemon calls into: llama contexts, swap files and the clock.

 A context is the list of cells of its KV cache, each with the position it serves.
 Whatever the foreign code decides freely (whether a call succeeds, how large a state
 is, what time it is, which token is sampled) is read from `Env` at the current tick;
 every call takes a tick of its own, so one `Env` is one resolution of all choices and
 a statement about every `Env` is a statement about all of them.
 */
module Foreign {
  import opened Wrappers

  type Token = int
  type CtxId = nat

  datatype Cell = Cell(pos: int, tok: Token)

  /** A file that a failed save left behind is `Torn`. */
  datatype SwapFile = SwapFile(cells: seq<Cell>, tokens: seq<Token>) | Torn

  datatype Env = Env(
    initOk: nat -> bool,
    saveOk: nat -> bool,
    failedSaveWrites: nat -> bool,
    stateSize: nat -> nat,
    loadOk: nat -> bool,
    seqRmOk: nat -> bool,
    decodeOk: nat -> bool,
    decodeKeeps: nat -> nat,
    clock: nat -> int,
    sample: nat -> Token,
    isEog: Token -> bool,
    cancelled: nat -> bool)

  datatype World = World(
    tick: nat,
    ctxs: map<CtxId, seq<Cell>>,
    nextCtx: CtxId,
    files: map<string, SwapFile>)

  /** `steady_clock` never runs backwards. */
  ghost predicate MonotoneClock(env: Env) {
    forall i, j :: i <= j ==> env.clock(i) <= env.clock(j)
  }

  ghost predicate SavesNeverFail(env: Env) {
    forall t :: env.saveOk(t)
  }

  // ---- KV cache ----

  /** The tokens of a context laid out from position 0 without gaps. */
  function Layout(tokens: seq<Token>): (cells: seq<Cell>)
    ensures |cells| == |tokens|
  {
    seq(|tokens|, i requires 0 <= i < |tokens| => Cell(i, tokens[i]))
  }

  function TokensOf(cells: seq<Cell>): (tokens: seq<Token>)
    ensures |tokens| == |cells|
  {
    seq(|cells|, i requires 0 <= i < |cells| => cells[i].tok)
  }

  ghost predicate Contiguous(cells: seq<Cell>) {
    forall i :: 0 <= i < |cells| ==> cells[i].pos == i
  }

  /** A bound of -1 stands for infinity, as in `llama_kv_cache_seq_rm` and `_seq_add`. */
  predicate InRange(pos: int, p0: int, p1: int) {
    p0 <= pos && (p1 < 0 || pos < p1)
  }

  function SeqRm(cells: seq<Cell>, p0: int, p1: int): seq<Cell> {
    if cells == [] then []
    else if InRange(cells[0].pos, p0, p1) then SeqRm(cells[1..], p0, p1)
    else [cells[0]] + SeqRm(cells[1..], p0, p1)
  }

  function SeqAdd(cells: seq<Cell>, p0: int, p1: int, delta: int): (r: seq<Cell>)
    ensures |r| == |cells|
  {
    seq(|cells|, i requires 0 <= i < |cells| =>
      if InRange(cells[i].pos, p0, p1) then cells[i].(pos := cells[i].pos + delta) else cells[i])
  }

  /** `llama_decode` continues after the largest position in use. */
  function NextPos(cells: seq<Cell>): (p: int)
    ensures p >= 0
    ensures forall i :: 0 <= i < |cells| ==> cells[i].pos < p
  {
    if cells == [] then 0
    else
      var n := |cells| - 1;
      var p := NextPos(cells[..n]);
      assert forall i :: 0 <= i < n ==> cells[i] == cells[..n][i];
      if cells[n].pos < p then p else cells[n].pos + 1
  }

  function AppendTokens(cells: seq<Cell>, tokens: seq<Token>): (r: seq<Cell>)
    ensures |r| == |cells| + |tokens|
  {
    cells + seq(|tokens|, i requires 0 <= i < |tokens| => Cell(NextPos(cells) + i, tokens[i]))
  }

  // ---- calls ----

  function NowMs(env: Env, w: World): (World, int) {
    (w.(tick := w.tick + 1), env.clock(w.tick))
  }

  /** `llama_init_from_model`: null on failure, else an empty context never handed out before. */
  function InitContext(env: Env, w: World): (World, Option<CtxId>) {
    var w1 := w.(tick := w.tick + 1);
    if env.initOk(w.tick)
    then (w1.(ctxs := w.ctxs[w.nextCtx := []], nextCtx := w.nextCtx + 1), Some(w.nextCtx))
    else (w1, None)
  }

  function FreeContext(w: World, ctx: CtxId): World
    requires ctx in w.ctxs
  {
    w.(ctxs := w.ctxs - {ctx})
  }

  /** `llama_state_seq_save_file`: a failed save may or may not have ruined the file. */
  function SaveFile(env: Env, w: World, ctx: CtxId, path: string, tokens: seq<Token>): (World, bool)
    requires ctx in w.ctxs
  {
    var w1 := w.(tick := w.tick + 1);
    if env.saveOk(w.tick) then (w1.(files := w.files[path := SwapFile(w.ctxs[ctx], tokens)]), true)
    else if env.failedSaveWrites(w.tick) then (w1.(files := w.files[path := Torn]), false)
    else (w1, false)
  }

  function StateSize(env: Env, w: World): (World, nat) {
    (w.(tick := w.tick + 1), env.stateSize(w.tick))
  }

  /** `llama_state_seq_load_file`: never writes more than `capacity` tokens. */
  function LoadFile(env: Env, w: World, ctx: CtxId, path: string, capacity: nat): (World, Option<seq<Token>>)
    requires ctx in w.ctxs
  {
    var w1 := w.(tick := w.tick + 1);
    if env.loadOk(w.tick) && path in w.files && w.files[path].SwapFile? && |w.files[path].tokens| <= capacity
    then (w1.(ctxs := w.ctxs[ctx := w.files[path].cells]), Some(w.files[path].tokens))
    else (w1, None)
  }

  function RemoveFile(w: World, path: string): World {
    w.(files := w.files - {path})
  }

  /**
   `llama_memory_seq_rm`: may refuse to remove a part of the sequence, and then changes nothing;
   removing all of it never fails.
   */
  function RemoveRange(env: Env, w: World, ctx: CtxId, p0: int, p1: int): (World, bool)
    requires ctx in w.ctxs
  {
    var w1 := w.(tick := w.tick + 1);
    var cells := w.ctxs[ctx];
    if env.seqRmOk(w.tick) || (forall i :: 0 <= i < |cells| ==> InRange(cells[i].pos, p0, p1))
    then (w1.(ctxs := w.ctxs[ctx := SeqRm(cells, p0, p1)]), true)
    else (w1, false)
  }

  /** `llama_memory_seq_add` */
  function ShiftRange(w: World, ctx: CtxId, p0: int, p1: int, delta: int): World
    requires ctx in w.ctxs
  {
    w.(ctxs := w.ctxs[ctx := SeqAdd(w.ctxs[ctx], p0, p1, delta)])
  }

  /** What a decode that fails at tick `t` leaves of its tokens in the cache. */
  function LeftOver(env: Env, t: nat, tokens: seq<Token>): (left: seq<Token>)
    ensures |left| <= |tokens|
    ensures left == [] <==> tokens == [] || env.decodeKeeps(t) == 0
  {
    if env.decodeKeeps(t) < |tokens| then tokens[..env.decodeKeeps(t)] else tokens
  }

  /** `llama_decode`: a decode that fails may have taken some of its tokens into the cache. */
  function Decode(env: Env, w: World, ctx: CtxId, tokens: seq<Token>): (World, bool)
    requires ctx in w.ctxs
  {
    var w1 := w.(tick := w.tick + 1);
    if env.decodeOk(w.tick) then (w1.(ctxs := w.ctxs[ctx := AppendTokens(w.ctxs[ctx], tokens)]), true)
    else (w1.(ctxs := w.ctxs[ctx := AppendTokens(w.ctxs[ctx], LeftOver(env, w.tick, tokens))]), false)
  }

  function Sample(env: Env, w: World): (World, Token) {
    (w.(tick := w.tick + 1), env.sample(w.tick))
  }

  function CancelRequested(env: Env, w: World): (World, bool) {
    (w.(tick := w.tick + 1), env.cancelled(w.tick))
  }

  /** A failed decode may leave any prefix of its tokens, and nothing but a prefix. */
  lemma AnyPrefixMayBeLeft(tokens: seq<Token>, left: seq<Token>)
    ensures (exists env, t :: LeftOver(env, t, tokens) == left) <==> left <= tokens
  {
    if left <= tokens {
      var env := Env(_ => true, _ => true, _ => false, _ => 0, _ => true, _ => true, _ => false, _ => |left|, _ => 0, _ => 0,
                     _ => false, _ => false);
      assert LeftOver(env, 0, tokens) == left;
    }
  }

  // ---- facts about the cache ----

  lemma {:induction false} SeqRmAppend(a: seq<Cell>, b: seq<Cell>, p0: int, p1: int)
    ensures SeqRm(a + b, p0, p1) == SeqRm(a, p0, p1) + SeqRm(b, p0, p1)
  {
    if a == [] {
      assert a + b == b;
    } else {
      assert (a + b)[1..] == a[1..] + b;
      SeqRmAppend(a[1..], b, p0, p1);
    }
  }

  lemma SeqAddAppend(a: seq<Cell>, b: seq<Cell>, p0: int, p1: int, delta: int)
    ensures SeqAdd(a + b, p0, p1, delta) == SeqAdd(a, p0, p1, delta) + SeqAdd(b, p0, p1, delta)
  {
  }

  /** What a removal keeps is what lies outside its range. */
  lemma {:induction false} SeqRmKeeps(cells: seq<Cell>, p0: int, p1: int, c: Cell)
    ensures c in SeqRm(cells, p0, p1) <==> c in cells && !InRange(c.pos, p0, p1)
  {
    if cells == [] {
    } else {
      SeqRmKeeps(cells[1..], p0, p1, c);
      assert cells == [cells[0]] + cells[1..];
    }
  }

  /** Removing the leading positions of a gap-free cache keeps the others as they are. */
  lemma {:induction false} SeqRmLeading(cells: seq<Cell>, base: int, n: nat)
    requires forall i :: 0 <= i < |cells| ==> cells[i].pos == base + i
    requires base >= 0
    ensures SeqRm(cells, 0, n) ==
            if n <= base then cells else if n - base <= |cells| then cells[n - base..] else []
  {
    if cells == [] {
    } else {
      SeqRmLeading(cells[1..], base + 1, n);
      if n <= base {
        assert [cells[0]] + cells[1..] == cells;
      } else if n - base <= |cells| {
        assert cells[1..][n - base - 1..] == cells[n - base..];
      }
    }
  }

  /** One prune that is not refused: the first `n` tokens go and the rest move down to start at 0 again. */
  lemma PruneRealigns(tokens: seq<Token>, n: nat)
    requires n <= |tokens|
    ensures SeqAdd(SeqRm(Layout(tokens), 0, n), n, -1, 0 - n) == Layout(tokens[n..])
  {
    SeqRmLeading(Layout(tokens), 0, n);
  }

  /** One refused prune: the first `n` tokens stay where they are, under the rest that has moved down. */
  lemma RefusedPruneCollides(tokens: seq<Token>, n: nat)
    requires n <= |tokens|
    ensures SeqAdd(Layout(tokens), n, -1, 0 - n) == Layout(tokens[..n]) + Layout(tokens[n..])
  {
  }

  /** The least bound above all positions is the next position. */
  lemma {:induction false} NextPosBelow(cells: seq<Cell>, bound: int)
    requires bound >= 0 && forall i :: 0 <= i < |cells| ==> cells[i].pos < bound
    ensures NextPos(cells) <= bound
  {
    if cells == [] {
    } else {
      NextPosBelow(cells[..|cells| - 1], bound);
    }
  }

  /** Some cell stands right below the next position. */
  lemma {:induction false} NextPosReached(cells: seq<Cell>) returns (c: Cell)
    requires NextPos(cells) > 0
    ensures c in cells && c.pos == NextPos(cells) - 1
  {
    var n := |cells| - 1;
    c := cells[n];
    if c.pos < NextPos(cells[..n]) {
      c := NextPosReached(cells[..n]);
    }
  }

  lemma NextPosAppend(cells: seq<Cell>, tokens: seq<Token>)
    ensures NextPos(AppendTokens(cells, tokens)) == NextPos(cells) + |tokens|
  {
    var r := AppendTokens(cells, tokens);
    var p := NextPos(cells);
    forall i | 0 <= i < |r|
      ensures r[i].pos < p + |tokens|
    {
      assert i < |cells| ==> r[i] == cells[i];
    }
    NextPosBelow(r, p + |tokens|);
    if tokens == [] {
      assert r == cells;
    } else {
      assert r[|r| - 1].pos == p + |tokens| - 1;
    }
  }

  lemma LayoutAppend(a: seq<Token>, b: seq<Token>)
    ensures Layout(a + b) == Layout(a) + seq(|b|, i requires 0 <= i < |b| => Cell(|a| + i, b[i]))
  {
  }

  /** Decoding in two goes is decoding at once. */
  lemma AppendAppend(cells: seq<Cell>, a: seq<Token>, b: seq<Token>)
    ensures AppendTokens(AppendTokens(cells, a), b) == AppendTokens(cells, a + b)
  {
    NextPosAppend(cells, a);
    hide NextPos;
  }
}
