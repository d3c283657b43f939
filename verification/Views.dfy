/**
 What a session has stored, wherever it currently is: the cache cells and the token vector
 of a HOT session, the swap file of a swapped one.  No operation on the manager changes the
 stored view of a session other than by prunes, except `infer` on that session.  A prune drops
 leading tokens; one that the cache refuses leaves stale cells behind.
 */
module Views {
  import opened Foreign
  import opened SessionState
  import opened SessionSpec

  datatype View = View(cells: seq<Cell>, tokens: seq<Token>)

  ghost function ViewOf(s: State, id: int): View
    requires id in s.sessions
  {
    var m := s.sessions[id];
    match m.Place()
    case InHotList =>
      View(if m.ctx.Some? && m.ctx.value in s.w.ctxs then s.w.ctxs[m.ctx.value] else [], m.tokens)
    case InColdList =>
      if m.swapFilePath in s.w.files && s.w.files[m.swapFilePath].SwapFile?
      then View(s.w.files[m.swapFilePath].cells, s.w.files[m.swapFilePath].tokens)
      else View([], [])
    case Unlisted => View([], m.tokens)
  }

  /** `a` is what is left of `b` without its first `n` tokens. */
  predicate Left(a: seq<Token>, b: seq<Token>, n: nat) {
    n <= |b| && a == b[n..]
  }

  /** Cache and token vector hold the same tokens, at positions 0, 1, 2, ... */
  ghost predicate Aligned(v: View) {
    Contiguous(v.cells) && TokensOf(v.cells) == v.tokens
  }

  /** The cache ends before the token vector does. */
  ghost predicate Lagging(v: View) {
    NextPos(v.cells) < |v.tokens|
  }

  /** The cache goes on after the token vector has ended. */
  ghost predicate Leading(v: View) {
    NextPos(v.cells) > |v.tokens|
  }

  // ---- prunes that the cache refused ----

  /**
   Below the cells of the token vector lie `under` ones, left over from refused prunes; the uppermost
   of them serves position `depth - 1`.
   */
  ghost predicate Stale(v: View, under: seq<Cell>, depth: nat) {
    && v.cells == under + Layout(v.tokens)
    && depth <= |v.tokens|
    && (forall i :: 0 <= i < |under| ==> 0 <= under[i].pos < depth)
    && (if depth == 0 then under == [] else exists i :: 0 <= i < |under| && under[i].pos == depth - 1)
  }

  ghost predicate Tracked(v: View, depth: nat) {
    exists under :: Stale(v, under, depth)
  }

  /** A refused prune leaves its `n` positions behind; every prune, refused or not, moves the rest down by `n`. */
  function Deeper(depth: nat, r: Round): nat {
    if r.refused && depth < 2 * r.n then r.n else if depth < r.n then 0 else depth - r.n
  }

  function Depth(depth: nat, rounds: seq<Round>): nat
    decreases |rounds|
  {
    if rounds == [] then depth else Depth(Deeper(depth, rounds[0]), rounds[1..])
  }

  /** After every refused prune, later ones dropped at least as many tokens. */
  predicate MadeGood(rounds: seq<Round>) {
    forall i :: 0 <= i < |rounds| && rounds[i].refused ==> rounds[i].n <= Total(rounds[i + 1..])
  }

  lemma {:induction false} DepthConcat(depth: nat, a: seq<Round>, b: seq<Round>)
    ensures Depth(depth, a + b) == Depth(Depth(depth, a), b)
    decreases |a|
  {
    if a == [] {
      assert a + b == b;
    } else {
      assert (a + b)[1..] == a[1..] + b;
      DepthConcat(Deeper(depth, a[0]), a[1..], b);
    }
  }

  /** Nothing stale is left if and only if every refused prune was made good. */
  lemma {:induction false} NothingStaleIff(depth: nat, rounds: seq<Round>)
    ensures Depth(depth, rounds) == 0 <==> depth <= Total(rounds) && MadeGood(rounds)
    decreases |rounds|
  {
    if rounds == [] {
    } else {
      NothingStaleIff(Deeper(depth, rounds[0]), rounds[1..]);
      assert MadeGood(rounds) <==> (rounds[0].refused ==> rounds[0].n <= Total(rounds[1..])) && MadeGood(rounds[1..]) by {
        forall i | 0 <= i < |rounds| - 1
          ensures rounds[1..][i] == rounds[i + 1] && rounds[1..][i + 1..] == rounds[i + 2..]
        {
        }
      }
    }
  }

  lemma AlignedIfNothingStale(v: View, depth: nat)
    requires Tracked(v, depth)
    ensures Aligned(v) <==> depth == 0
  {
    var under :| Stale(v, under, depth);
  }

  lemma TrackedNextPos(v: View, depth: nat)
    requires Tracked(v, depth)
    ensures NextPos(v.cells) == |v.tokens|
  {
    var under :| Stale(v, under, depth);
    NextPosBelow(v.cells, |v.tokens|);
    if v.tokens != [] {
      assert v.cells[|v.cells| - 1].pos == |v.tokens| - 1;
    }
  }

  lemma DriftedIsNotAligned(v: View)
    requires Lagging(v) || Leading(v)
    ensures !Aligned(v)
  {
    if Aligned(v) {
      AlignedNextPos(v);
    }
  }

  lemma AlignedNextPos(v: View)
    requires Aligned(v)
    ensures NextPos(v.cells) == |v.tokens|
  {
    NextPosBelow(v.cells, |v.tokens|);
    assert v.tokens != [] ==> v.cells[|v.cells| - 1].pos == |v.tokens| - 1;
  }

  /** `u` is what `rounds` prunes make of `v`. */
  ghost predicate PrunedBy(v: View, u: View, rounds: seq<Round>) {
    && Left(u.tokens, v.tokens, Total(rounds))
    && (Lagging(v) ==> Lagging(u))
    && (Leading(v) ==> Leading(u))
    && (forall depth: nat :: Tracked(v, depth) ==> Tracked(u, Depth(depth, rounds)))
  }

  /** The prunes that a log of evictions lists for one session. */
  function RoundsOf(log: seq<Pruning>, id: int): seq<Round> {
    if log == [] then []
    else (if log[0].id == id then log[0].rounds else []) + RoundsOf(log[1..], id)
  }

  ghost predicate ViewsPruned(s: State, r: State, log: seq<Pruning>) {
    forall k :: k in r.sessions ==> k in s.sessions && PrunedBy(ViewOf(s, k), ViewOf(r, k), RoundsOf(log, k))
  }

  ghost predicate SameViews(s: State, r: State) {
    forall k :: k in r.sessions ==> k in s.sessions && ViewOf(s, k) == ViewOf(r, k)
  }

  lemma LeftTwice(a: seq<Token>, b: seq<Token>, c: seq<Token>, n: nat, m: nat)
    requires Left(b, a, n) && Left(c, b, m)
    ensures Left(c, a, n + m)
  {
  }

  lemma {:induction false} TotalConcat(a: seq<Round>, b: seq<Round>)
    ensures Total(a + b) == Total(a) + Total(b)
  {
    if a == [] {
      assert a + b == b;
    } else {
      assert (a + b)[1..] == a[1..] + b;
      TotalConcat(a[1..], b);
    }
  }

  lemma PrunedTransitive(v: View, u: View, t: View, a: seq<Round>, b: seq<Round>)
    requires PrunedBy(v, u, a) && PrunedBy(u, t, b)
    ensures PrunedBy(v, t, a + b)
  {
    hide Tracked, Lagging, Leading, Depth, Left, Total;
    LeftTwice(v.tokens, u.tokens, t.tokens, Total(a), Total(b));
    TotalConcat(a, b);
    forall depth: nat | Tracked(v, depth)
      ensures Tracked(t, Depth(depth, a + b))
    {
      DepthConcat(depth, a, b);
    }
  }

  lemma SameViewsPruned(s: State, r: State)
    requires SameViews(s, r)
    ensures ViewsPruned(s, r, [])
  {
    hide Tracked, Lagging, Leading, ViewOf;
  }

  lemma {:induction false} RoundsConcat(a: seq<Pruning>, b: seq<Pruning>, id: int)
    ensures RoundsOf(a + b, id) == RoundsOf(a, id) + RoundsOf(b, id)
  {
    if a == [] {
      assert a + b == b;
    } else {
      assert (a + b)[1..] == a[1..] + b;
      RoundsConcat(a[1..], b, id);
    }
  }

  lemma ViewsPrunedTransitive(s: State, t: State, r: State, a: seq<Pruning>, b: seq<Pruning>)
    requires ViewsPruned(s, t, a) && ViewsPruned(t, r, b)
    ensures ViewsPruned(s, r, a + b)
  {
    hide PrunedBy, ViewOf, RoundsOf;
    forall k | k in r.sessions
      ensures k in s.sessions && PrunedBy(ViewOf(s, k), ViewOf(r, k), RoundsOf(a + b, k))
    {
      RoundsConcat(a, b, k);
      PrunedTransitive(ViewOf(s, k), ViewOf(t, k), ViewOf(r, k), RoundsOf(a, k), RoundsOf(b, k));
    }
  }

  /** Steps that change no view, after or before pruning. */
  lemma ViewsPrunedThenSame(s: State, t: State, r: State, log: seq<Pruning>)
    requires ViewsPruned(s, t, log) && SameViews(t, r)
    ensures ViewsPruned(s, r, log)
  {
    hide PrunedBy, ViewOf, RoundsOf;
  }

  lemma SameThenViewsPruned(s: State, t: State, r: State, log: seq<Pruning>)
    requires SameViews(s, t) && ViewsPruned(t, r, log)
    ensures ViewsPruned(s, r, log)
  {
    hide PrunedBy, ViewOf, RoundsOf;
  }

  // ---- one operation at a time ----

  /** Two HOT sessions never share a context, two swapped ones never share a file. */
  lemma NoSharing(s: State, a: int, b: int)
    requires Inv(s) && a in s.sessions && b in s.sessions && a != b
    ensures IsHot(s, a) && IsHot(s, b) ==> s.sessions[a].ctx.value != s.sessions[b].ctx.value
    ensures IsSwapped(s, a) ==> s.sessions[a].swapFilePath != PathFor(s.swapDir, b)
  {
    if IsHot(s, a) && IsHot(s, b) {
      assert Owns(s.sessions, a, s.sessions[a].ctx.value);
      assert Owns(s.sessions, b, s.sessions[b].ctx.value);
    }
    if IsSwapped(s, a) && s.sessions[a].swapFilePath == PathFor(s.swapDir, b) {
      PathForInjective(s.swapDir, a, b);
    }
  }

  lemma KillKeepsViews(s: State, id: int)
    requires Inv(s)
    ensures SameViews(s, KillSession(s, id))
  {
    var r := KillSession(s, id);
    forall k | k in r.sessions
      ensures k in s.sessions && ViewOf(s, k) == ViewOf(r, k)
    {
      KillKeepsView(s, id, k);
    }
  }

  lemma KillKeepsView(s: State, id: int, k: int)
    requires Inv(s) && k in KillSession(s, id).sessions
    ensures k in s.sessions && ViewOf(s, k) == ViewOf(KillSession(s, id), k)
  {
    if id in s.sessions {
      assert k != id && k in s.sessions;
      NoSharing(s, k, id);
      if IsHot(s, id) {
        HotFacts(s, id);
        assert KillSession(s, id).w.ctxs == s.w.ctxs - {s.sessions[id].ctx.value};
        hide Inv, KillSession;
        SameViewIf(s, KillSession(s, id), k);
      } else if IsSwapped(s, id) {
        SwappedFacts(s, id);
        hide Inv;
        SameViewIf(s, KillSession(s, id), k);
      }
    }
  }

  /** A view depends on the session's entry, its context and its file only. */
  lemma SameViewIf(s: State, r: State, k: int)
    requires k in s.sessions && k in r.sessions && r.sessions[k] == s.sessions[k]
    requires IsHot(s, k) && s.sessions[k].ctx.Some? ==>
             var c := s.sessions[k].ctx.value;
             (c in s.w.ctxs <==> c in r.w.ctxs) && (c in s.w.ctxs ==> r.w.ctxs[c] == s.w.ctxs[c])
    requires IsSwapped(s, k) ==>
             var p := s.sessions[k].swapFilePath;
             (p in s.w.files <==> p in r.w.files) && (p in s.w.files ==> r.w.files[p] == s.w.files[p])
    ensures ViewOf(r, k) == ViewOf(s, k)
  {
  }

  lemma {:induction false} EvictColdKeepsViews(s: State, excludeId: int)
    requires Inv(s)
    ensures SameViews(s, EvictCold(s, excludeId))
    decreases |s.cold|
  {
    if s.coldUsed <= s.coldLimit || s.cold == [] {
    } else if s.cold[0].id == excludeId && |s.cold| == 1 {
    } else {
      var victim := if s.cold[0].id == excludeId then s.cold[1].id else s.cold[0].id;
      KillColdVictim(s, victim);
      KillKeepsViews(s, victim);
      var t := KillSession(s, victim);
      EvictColdKeepsViews(t, excludeId);
      assert EvictCold(s, excludeId) == EvictCold(t, excludeId);
    }
  }

  lemma TouchKeepsViews(env: Env, s: State, id: int)
    requires Inv(s) && IsHot(s, id)
    ensures SameViews(s, TouchHot(env, s, id))
  {
  }

  lemma PrunedOld(under: seq<Cell>, tokens: seq<Token>, n: nat, refused: bool)
    requires n <= |tokens|
    ensures PruneCells(under + Layout(tokens), n, refused) ==
            PruneCells(under, n, refused) + (if refused then Layout(tokens[..n]) else []) + Layout(tokens[n..])
  {
    hide Layout, SeqRm, SeqAdd;
    var l := Layout(tokens);
    if refused {
      SeqAddAppend(under, l, n, -1, 0 - n);
      RefusedPruneCollides(tokens, n);
      Reassociate(SeqAdd(under, n, -1, 0 - n), Layout(tokens[..n]), Layout(tokens[n..]));
    } else {
      SeqRmAppend(under, l, 0, n);
      SeqAddAppend(SeqRm(under, 0, n), SeqRm(l, 0, n), n, -1, 0 - n);
      PruneRealigns(tokens, n);
      Reassociate(SeqAdd(SeqRm(under, 0, n), n, -1, 0 - n), [], Layout(tokens[n..]));
    }
  }

  lemma Reassociate(a: seq<Cell>, b: seq<Cell>, c: seq<Cell>)
    ensures a + (b + c) == a + b + c && [] + c == c
  {
  }

  /** Where the cells of a pruned cache come from. */
  lemma PrunedCell(cells: seq<Cell>, n: nat, refused: bool, c: Cell)
    requires forall i :: 0 <= i < |cells| ==> 0 <= cells[i].pos
    ensures c in PruneCells(cells, n, refused) <==>
            (refused && c in cells && c.pos < n) || (c.pos >= 0 && Cell(c.pos + n, c.tok) in cells)
  {
    var kept := if refused then cells else SeqRm(cells, 0, n);
    var r := SeqAdd(kept, n, -1, 0 - n);
    SeqRmKeeps(cells, 0, n, c);
    SeqRmKeeps(cells, 0, n, Cell(c.pos + n, c.tok));
    if c in r {
      var i :| 0 <= i < |r| && r[i] == c;
      assert kept[i] in kept;
      SeqRmKeeps(cells, 0, n, kept[i]);
    }
    if c.pos >= 0 && Cell(c.pos + n, c.tok) in cells {
      var i :| 0 <= i < |kept| && kept[i] == Cell(c.pos + n, c.tok);
      assert r[i] == c;
    }
    if refused && c in cells && c.pos < n {
      var i :| 0 <= i < |kept| && kept[i] == c;
      assert r[i] == c;
    }
  }

  lemma PruneDeepens(cells: seq<Cell>, tokens: seq<Token>, n: nat, refused: bool, depth: nat)
    requires 0 < n && 2 * n <= |tokens|
    requires Tracked(View(cells, tokens), depth)
    ensures Tracked(View(PruneCells(cells, n, refused), tokens[n..]), Deeper(depth, Round(n, refused)))
  {
    var under :| Stale(View(cells, tokens), under, depth);
    PrunedOld(under, tokens, n, refused);
    PrunedUnder(under, n, refused, depth);
    hide PruneCells, Layout;
    StaleAfterPrune(View(PruneCells(cells, n, refused), tokens[n..]), PruneCells(under, n, refused), tokens[..n],
                    refused, depth);
  }

  lemma StaleAfterPrune(u: View, moved: seq<Cell>, gone: seq<Token>, refused: bool, depth: nat)
    requires 0 < |gone| <= |u.tokens| && depth <= |u.tokens| + |gone|
    requires u.cells == moved + (if refused then Layout(gone) else []) + Layout(u.tokens)
    requires forall i :: 0 <= i < |moved| ==>
               0 <= moved[i].pos < if refused && depth < 2 * |gone| then |gone| else depth - |gone|
    requires depth > |gone| ==> exists i :: 0 <= i < |moved| && moved[i].pos == depth - |gone| - 1
    requires depth <= |gone| && !refused ==> moved == []
    ensures Tracked(u, Deeper(depth, Round(|gone|, refused)))
  {
    var under := moved + if refused then Layout(gone) else [];
    if refused && depth < 2 * |gone| {
      assert under[|moved| + |gone| - 1].pos == |gone| - 1;
      assert Stale(u, under, |gone|);
    } else if depth <= |gone| {
      assert Stale(u, under, 0);
    } else {
      var i :| 0 <= i < |moved| && moved[i].pos == depth - |gone| - 1;
      assert under[i] == moved[i];
      assert Stale(u, under, depth - |gone|);
    }
  }

  /** What one prune does to the stale cells. */
  lemma PrunedUnder(under: seq<Cell>, n: nat, refused: bool, depth: nat)
    requires forall i :: 0 <= i < |under| ==> 0 <= under[i].pos < depth
    requires depth == 0 ==> under == []
    requires depth > 0 ==> exists i :: 0 <= i < |under| && under[i].pos == depth - 1
    ensures var r := PruneCells(under, n, refused);
      && (forall i :: 0 <= i < |r| ==> 0 <= r[i].pos < if refused && depth < 2 * n then n else depth - n)
      && (depth > n ==> exists i :: 0 <= i < |r| && r[i].pos == depth - n - 1)
      && (depth <= n && !refused ==> r == [])
  {
    var r := PruneCells(under, n, refused);
    forall i | 0 <= i < |r|
      ensures 0 <= r[i].pos < if refused && depth < 2 * n then n else depth - n
    {
      PrunedCell(under, n, refused, r[i]);
    }
    if depth > n {
      var i :| 0 <= i < |under| && under[i].pos == depth - 1;
      PrunedCell(under, n, refused, Cell(depth - 1 - n, under[i].tok));
    }
    assert r != [] ==> 0 <= r[0].pos;
  }

  lemma PruneKeepsLag(cells: seq<Cell>, tokens: seq<Token>, n: nat, refused: bool)
    requires 2 * n < |tokens| && Lagging(View(cells, tokens))
    ensures Lagging(View(PruneCells(cells, n, refused), tokens[n..]))
  {
    var r := PruneCells(cells, n, refused);
    var kept := if refused then cells else SeqRm(cells, 0, n);
    var p := NextPos(cells);
    forall i | 0 <= i < |r|
      ensures r[i].pos < if p < 2 * n then n else p - n
    {
      assert kept[i] in kept;
      SeqRmKeeps(cells, 0, n, kept[i]);
    }
    NextPosBelow(r, if p < 2 * n then n else p - n);
  }

  lemma PruneKeepsLead(cells: seq<Cell>, tokens: seq<Token>, n: nat, refused: bool)
    requires n <= |tokens| && Leading(View(cells, tokens))
    ensures Leading(View(PruneCells(cells, n, refused), tokens[n..]))
  {
    var r := PruneCells(cells, n, refused);
    var kept := if refused then cells else SeqRm(cells, 0, n);
    var c := NextPosReached(cells);
    SeqRmKeeps(cells, 0, n, c);
    var i :| 0 <= i < |kept| && kept[i] == c;
    assert r[i].pos == c.pos - n;
  }

  /** One prune of the save loop. */
  lemma PruneIsRound(cells: seq<Cell>, tokens: seq<Token>, refused: bool)
    requires |tokens| > MIN_KEEP_TOKENS
    ensures var n := RemoveCount(|tokens|);
            PrunedBy(View(cells, tokens), View(PruneCells(cells, n, refused), tokens[n..]), [Round(n, refused)])
  {
    var n := RemoveCount(|tokens|);
    var v, u := View(cells, tokens), View(PruneCells(cells, n, refused), tokens[n..]);
    assert Total([Round(n, refused)]) == n + Total([]);
    hide Tracked, Lagging, Leading, PruneCells;
    if Lagging(v) {
      PruneKeepsLag(cells, tokens, n, refused);
    }
    if Leading(v) {
      PruneKeepsLead(cells, tokens, n, refused);
    }
    forall depth: nat | Tracked(v, depth)
      ensures Tracked(u, Depth(depth, [Round(n, refused)]))
    {
      PruneDeepens(cells, tokens, n, refused, depth);
      assert Depth(depth, [Round(n, refused)]) == Depth(Deeper(depth, Round(n, refused)), []);
    }
  }

  /** A refused prune is healed by the next one that is not refused and takes at least as many tokens. */
  lemma RefusedPruneHeals(tokens: seq<Token>, n: nat, k: nat)
    requires 0 < n <= k && n + k <= |tokens|
    ensures !Aligned(View(PruneCells(Layout(tokens), n, true), tokens[n..]))
    ensures PruneCells(PruneCells(Layout(tokens), n, true), k, false) == Layout(tokens[n + k..])
  {
    var a, b := Layout(tokens[..n]), tokens[n..];
    RefusedPruneCollides(tokens, n);
    assert |PruneCells(Layout(tokens), n, true)| == |tokens|;
    PrunedOld(a, b, k, false);
    SeqRmLeading(a, 0, k);
    assert b[k..] == tokens[n + k..];
  }

  /** The save loop, however often it prunes and whichever prunes are refused. */
  lemma {:induction false} SaveLoopPrunes(env: Env, w: World, ctx: CtxId, path: string, tokens: seq<Token>,
                                         used: int, limit: nat)
    requires ctx in w.ctxs
    ensures var r := SaveLoop(env, w, ctx, path, tokens, used, limit);
            PrunedBy(View(w.ctxs[ctx], tokens), View(r.w.ctxs[ctx], r.tokens), r.rounds)
    decreases |tokens|
  {
    hide PrunedBy, PruneCells, SaveLoop;
    var goesOn, p := SaveLoopRound(env, w, ctx, path, tokens, used, limit);
    if !goesOn {
      PrunedByNothing(View(w.ctxs[ctx], tokens));
    } else {
      var n := RemoveCount(|tokens|);
      PruneIsRound(w.ctxs[ctx], tokens, p.refused);
      SaveLoopPrunes(env, p.w, ctx, path, p.tokens, used, limit);
      var r := SaveLoop(env, p.w, ctx, path, p.tokens, used, limit);
      PrunedTransitive(View(w.ctxs[ctx], tokens), View(p.w.ctxs[ctx], p.tokens), View(r.w.ctxs[ctx], r.tokens),
                       [Round(n, p.refused)], r.rounds);
    }
  }

  lemma PrunedByNothing(v: View)
    ensures PrunedBy(v, v, [])
  {
    hide Tracked, Lagging, Leading;
  }

  lemma AfterSaveKeepsOthers(env: Env, s: State, id: int, k: int)
    requires Inv(s) && IsHot(s, id) && k in s.sessions && k != id
    ensures k in AfterSave(env, s, id).sessions && ViewOf(s, k) == ViewOf(AfterSave(env, s, id), k)
  {
    HotFacts(s, id);
    NoSharing(s, k, id);
    if IsHot(s, k) {
      HotFacts(s, k);
    }
    AfterSaveShape(env, s, id);
    hide Inv, AfterSave, SaveOf, PathFor;
    SameViewIf(s, AfterSave(env, s, id), k);
  }

  lemma AfterSaveShape(env: Env, s: State, id: int)
    requires Inv(s) && IsHot(s, id)
    ensures var v := SaveOf(env, s, id); var r := AfterSave(env, s, id); var m := s.sessions[id];
      && m.ctx.Some? && m.ctx.value in s.w.ctxs && v.w.ctxs.Keys == s.w.ctxs.Keys
      && r == s.(w := v.w, sessions := s.sessions[id := m.(tokens := v.tokens)])
      && (forall c :: c in s.w.ctxs && c != m.ctx.value ==> v.w.ctxs[c] == s.w.ctxs[c])
      && (forall p :: p != PathFor(s.swapDir, id) ==>
            (p in s.w.files <==> p in v.w.files) && (p in s.w.files ==> v.w.files[p] == s.w.files[p]))
  {
    HotFacts(s, id);
    hide Inv, SaveLoop, PathFor;
  }

  lemma AfterSavePrunesVictim(env: Env, s: State, id: int)
    requires Inv(s) && IsHot(s, id)
    ensures AfterSave(env, s, id).sessions.Keys == s.sessions.Keys
    ensures PrunedBy(ViewOf(s, id), ViewOf(AfterSave(env, s, id), id), SaveOf(env, s, id).rounds)
  {
    HotFacts(s, id);
    var m := s.sessions[id];
    SaveLoopPrunes(env, s.w, m.ctx.value, PathFor(s.swapDir, id), m.tokens, s.coldUsed, s.coldLimit);
    AfterSaveView(env, s, id);
    hide *;
  }

  lemma AfterSaveView(env: Env, s: State, id: int)
    requires Inv(s) && IsHot(s, id)
    ensures var v := SaveOf(env, s, id); var r := AfterSave(env, s, id); var c := s.sessions[id].ctx.value;
      && r.sessions.Keys == s.sessions.Keys
      && c in s.w.ctxs && ViewOf(s, id) == View(s.w.ctxs[c], s.sessions[id].tokens)
      && c in v.w.ctxs && ViewOf(r, id) == View(v.w.ctxs[c], v.tokens)
  {
    AfterSaveShape(env, s, id);
    hide Inv, SaveLoop, PathFor, SaveOf, AfterSave;
  }

  /** What one swap-out writes to the log. */
  function LogOf(env: Env, s: State, id: int): seq<Pruning>
    requires Inv(s) && IsHot(s, id)
  {
    [Pruning(id, SaveOf(env, s, id).rounds)]
  }

  lemma RoundsOfOne(id: int, rounds: seq<Round>, k: int)
    ensures RoundsOf([Pruning(id, rounds)], k) == if k == id then rounds else []
  {
    assert rounds + [] == rounds;
  }

  lemma AfterSavePrunesViews(env: Env, s: State, id: int)
    requires Inv(s) && IsHot(s, id)
    ensures ViewsPruned(s, AfterSave(env, s, id), LogOf(env, s, id))
  {
    AfterSavePrunesVictim(env, s, id);
    hide Inv, AfterSave, SaveOf, ViewOf, PrunedBy, RoundsOf;
    var r := AfterSave(env, s, id);
    forall k | k in r.sessions
      ensures PrunedBy(ViewOf(s, k), ViewOf(r, k), RoundsOf(LogOf(env, s, id), k))
    {
      RoundsOfOne(id, SaveOf(env, s, id).rounds, k);
      if k != id {
        AfterSaveKeepsOthers(env, s, id, k);
        PrunedByNothing(ViewOf(s, k));
      }
    }
  }

  /** The file written last holds exactly what the session held in memory. */
  lemma DemoteKeepsViews(s: State, id: int, bytes: nat)
    requires Inv(s) && IsHot(s, id)
    requires var path := PathFor(s.swapDir, id);
             path in s.w.files &&
             s.w.files[path] == SwapFile(ViewOf(s, id).cells, ViewOf(s, id).tokens)
    ensures SameViews(s, Demote(s, id, bytes))
  {
    var r := Demote(s, id, bytes);
    forall k | k in r.sessions
      ensures ViewOf(s, k) == ViewOf(r, k)
    {
      if k != id {
        NoSharing(s, k, id);
      }
    }
  }

  lemma SavedFileHoldsView(env: Env, s: State, id: int)
    requires Inv(s) && IsHot(s, id) && SaveOf(env, s, id).bytes.Some?
    ensures var r := AfterSave(env, s, id); var path := PathFor(s.swapDir, id);
      && path in r.w.files
      && r.w.files[path] == SwapFile(ViewOf(r, id).cells, ViewOf(r, id).tokens)
  {
    HotFacts(s, id);
    HotFacts(AfterSave(env, s, id), id);
  }

  /** A swap-out changes what is stored of its victim by the rounds of the save loop, and nothing else. */
  lemma SwapOutPrunesViews(env: Env, s: State, id: int)
    requires Inv(s) && IsHot(s, id)
    ensures ViewsPruned(s, SwapOut(env, s, id).s, LogOf(env, s, id))
    ensures forall k :: k in SwapOut(env, s, id).s.sessions && k != id ==>
              k in s.sessions && ViewOf(SwapOut(env, s, id).s, k) == ViewOf(s, k)
    ensures SwapOut(env, s, id).ok && id in SwapOut(env, s, id).s.sessions ==>
              ViewOf(SwapOut(env, s, id).s, id) == ViewOf(AfterSave(env, s, id), id)
  {
    var v := SaveOf(env, s, id);
    var s1 := AfterSave(env, s, id);
    AfterSavePrunesViews(env, s, id);
    forall k | k in s1.sessions && k != id
      ensures k in s.sessions && ViewOf(s1, k) == ViewOf(s, k)
    {
      AfterSaveKeepsOthers(env, s, id, k);
    }
    if v.bytes.Some? {
      SavedFileHoldsView(env, s, id);
      DemoteKeepsInv(s1, id, v.bytes.value);
      DemoteKeepsViews(s1, id, v.bytes.value);
      hide Inv, ViewOf, AfterSave, SaveOf, Demote, EvictCold, PrunedBy;
      var s2 := Demote(s1, id, v.bytes.value);
      EvictColdKeepsViews(s2, id);
      ViewsPrunedThenSame(s, s1, s2, LogOf(env, s, id));
      ViewsPrunedThenSame(s, s2, EvictCold(s2, id), LogOf(env, s, id));
    }
  }

  /** A swap-out loses tokens if and only if it pruned. */
  lemma SwapOutKeepsAllUnlessPruned(env: Env, s: State, id: int)
    requires Inv(s) && IsHot(s, id) && SwapOut(env, s, id).ok && id in SwapOut(env, s, id).s.sessions
    ensures var u := ViewOf(SwapOut(env, s, id).s, id);
      && u.tokens == SaveOf(env, s, id).tokens
      && (u == ViewOf(s, id) <==> SaveOf(env, s, id).rounds == [])
  {
    HotFacts(s, id);
    var m := s.sessions[id];
    SaveLoopShortens(env, s.w, m.ctx.value, PathFor(s.swapDir, id), m.tokens, s.coldUsed, s.coldLimit);
    SwapOutPrunesViews(env, s, id);
    HotFacts(AfterSave(env, s, id), id);
  }

  lemma {:induction false} SaveLoopShortens(env: Env, w: World, ctx: CtxId, path: string, tokens: seq<Token>,
                                           used: int, limit: nat)
    requires ctx in w.ctxs
    ensures var r := SaveLoop(env, w, ctx, path, tokens, used, limit);
      && |r.tokens| + |r.rounds| <= |tokens|
      && (r.rounds == [] ==> r.tokens == tokens && r.w.ctxs[ctx] == w.ctxs[ctx])
    decreases |tokens|
  {
    hide SaveLoop, PruneCells;
    var goesOn, p := SaveLoopRound(env, w, ctx, path, tokens, used, limit);
    if !goesOn {
    } else {
      SaveLoopShortens(env, p.w, ctx, path, p.tokens, used, limit);
    }
  }

  lemma {:induction false} EvictHotPrunesViews(env: Env, s: State, excludeId: int)
    requires Inv(s)
    ensures ViewsPruned(s, EvictHot(env, s, excludeId).s, EvictHot(env, s, excludeId).log)
    decreases |s.hot|
  {
    hide Inv, SwapOut, SaveOf, HotVictim, ViewsPruned;
    var victim := HotVictim(s.hot, excludeId);
    if |s.hot| < s.hotLimit || s.hot == [] || victim == -1 {
      NothingPruned(s);
    } else {
      VictimIsHot(s, excludeId);
      SwapOutPrunesViews(env, s, victim);
      SwapOutShrinksHot(env, s, victim);
      var o := SwapOut(env, s, victim);
      if o.ok {
        EvictHotPrunesViews(env, o.s, excludeId);
        var r := EvictHot(env, o.s, excludeId);
        ViewsPrunedTransitive(s, o.s, r.s, LogOf(env, s, victim), r.log);
      }
    }
  }

  lemma NothingPruned(s: State)
    ensures ViewsPruned(s, s, [])
  {
    SameViewsPruned(s, s);
  }

  lemma PromoteKeepsViews(env: Env, s: State, w: World, id: int)
    requires Inv(s) && id in s.sessions && s.sessions[id].Place() == Unlisted
    requires w.ctxs == s.w.ctxs[s.w.nextCtx := []] && w.files == s.w.files
    ensures SameViews(s, Promote(env, s, w, id, s.w.nextCtx, s.sessions[id].tokens).s)
  {
    var r := Promote(env, s, w, id, s.w.nextCtx, s.sessions[id].tokens).s;
    forall k | k in r.sessions
      ensures ViewOf(s, k) == ViewOf(r, k)
    {
      if k != id && IsHot(s, k) {
        HotFacts(s, k);
      }
    }
  }

  lemma SwapInKeepsViews(env: Env, s: State, w: World, id: int)
    requires Inv(s) && IsSwapped(s, id)
    requires w.ctxs == s.w.ctxs[s.w.nextCtx := ViewOf(s, id).cells] && w.files == s.w.files
    ensures SameViews(s, SwapIn(env, s, w, id, s.w.nextCtx, ViewOf(s, id).tokens).s)
  {
    var r := SwapIn(env, s, w, id, s.w.nextCtx, ViewOf(s, id).tokens).s;
    SwappedFacts(s, id);
    assert s.w.nextCtx !in s.w.ctxs;
    SwapInShape(env, s, w, id, s.w.nextCtx, ViewOf(s, id).tokens);
    hide SwapIn, PathFor;
    forall k | k in r.sessions && k != id
      ensures ViewOf(s, k) == ViewOf(r, k)
    {
      NoSharing(s, k, id);
      if IsHot(s, k) {
        HotFacts(s, k);
      }
      hide Inv;
      SameViewIf(s, r, k);
    }
  }

  lemma SwapInShape(env: Env, s: State, w: World, id: int, ctx: CtxId, tokens: seq<Token>)
    requires Inv(s) && IsSwapped(s, id)
    ensures var r := SwapIn(env, s, w, id, ctx, tokens).s;
      && r.sessions.Keys == s.sessions.Keys && r.w.ctxs == w.ctxs
      && r.w.files == w.files - {s.sessions[id].swapFilePath}
      && r.sessions[id].tier.HOT? && r.sessions[id].ctx.Some? && r.sessions[id].ctx.value == ctx
      && r.sessions[id].tokens == tokens
      && (forall k :: k in s.sessions && k != id ==> r.sessions[k] == s.sessions[k])
  {
    hide Inv;
  }

  lemma FailedSwapInKeepsViews(s: State, w: World, id: int)
    requires Inv(s) && IsSwapped(s, id)
    requires w.ctxs == s.w.ctxs && w.files == s.w.files
    ensures SameViews(s, FailedSwapIn(s, w, id).s)
  {
  }

  lemma WorldTick(s: State, w: World)
    requires w.ctxs == s.w.ctxs && w.files == s.w.files
    ensures SameViews(s, s.(w := w))
  {
  }

  /** What a swapped session has stored is its file. */
  lemma SwappedView(s: State, id: int)
    requires Inv(s) && IsSwapped(s, id)
    ensures s.sessions[id].swapFilePath in s.w.files && s.w.files[s.sessions[id].swapFilePath].SwapFile?
    ensures var f := s.w.files[s.sessions[id].swapFilePath]; ViewOf(s, id) == View(f.cells, f.tokens)
  {
  }

  lemma AdmitKeepsViews(env: Env, s: State, id: int)
    requires Inv(s) && !IsHot(s, id) && !Admit(env, s, id).Dangling?
    ensures SameViews(s, Admit(env, s, id).s)
  {
    hide ViewOf, SwapIn, Promote, FailedSwapIn, PathFor;
    var (w1, c) := InitContext(env, s.w);
    if c.None? {
      WorldTick(s, w1);
    } else {
      assert s.w.nextCtx !in s.w.ctxs;
      if s.sessions[id].swapFilePath == "" {
        PromoteKeepsViews(env, s, w1, id);
      } else {
        var (w2, loaded) := LoadFile(env, w1, c.value, s.sessions[id].swapFilePath, s.nCtx);
        if loaded.None? {
          assert FreeContext(w2, c.value).ctxs == s.w.ctxs;
          FailedSwapInKeepsViews(s, FreeContext(w2, c.value), id);
        } else {
          SwappedView(s, id);
          assert w2.ctxs == s.w.ctxs[s.w.nextCtx := ViewOf(s, id).cells];
          SwapInKeepsViews(env, s, w2, id);
        }
      }
    }
  }

  /** The evictions that an activation makes. */
  function ActivationLog(env: Env, s: State, id: int): seq<Pruning>
    requires Inv(s)
  {
    if id in s.sessions && s.sessions[id].tier.COLD? then EvictHot(env, s, id).log else []
  }

  lemma ActivatePrunesViews(env: Env, s: State, id: int)
    requires Inv(s)
    ensures !Activate(env, s, id).Dangling? ==> ViewsPruned(s, Activate(env, s, id).s, ActivationLog(env, s, id))
  {
    hide Inv, ViewsPruned, EvictHot, Admit, TouchHot;
    if id !in s.sessions {
      NothingPruned(s);
    } else if s.sessions[id].tier.HOT? {
      TouchKeepsViews(env, s, id);
      SameViewsPruned(s, TouchHot(env, s, id));
    } else if !Activate(env, s, id).Dangling? {
      var e := EvictHot(env, s, id);
      EvictHotLeavesCold(env, s, id, id);
      EvictHotPrunesViews(env, s, id);
      AdmitKeepsViews(env, e.s, id);
      ViewsPrunedThenSame(s, e.s, Admit(env, e.s, id).s, e.log);
    }
  }

  // ---- swapping in restores what was swapped out ----

  lemma {:induction false} EvictHotKeepsColdView(env: Env, s: State, excludeId: int, id: int)
    requires Inv(s) && id in s.sessions && !IsHot(s, id) && id in EvictHot(env, s, excludeId).s.sessions
    ensures ViewOf(EvictHot(env, s, excludeId).s, id) == ViewOf(s, id)
    decreases |s.hot|
  {
    hide Inv, ViewOf, SwapOut, SaveOf, AfterSave;
    if |s.hot| < s.hotLimit || s.hot == [] {
    } else {
      var victim := HotVictim(s.hot, excludeId);
      if victim != -1 {
        VictimIsHot(s, excludeId);
        SwapOutPrunesViews(env, s, victim);
        SwapOutShrinksHot(env, s, victim);
        SwapOutFrame(env, s, victim);
        var o := SwapOut(env, s, victim);
        if o.ok {
          EvictHotAddsNobody(env, o.s, excludeId);
          assert id in o.s.sessions && id != victim && o.s.sessions[id] == s.sessions[id];
          EvictHotKeepsColdView(env, o.s, excludeId, id);
        }
      }
    }
  }

  /**
   A swapped session that its own activation does not kill comes back if and only if a context can
   be made, the load succeeds, and its saved tokens fit the context size; it then holds exactly what
   was saved. In every other case its saved view is still in place.
   */
  lemma SwapInRestores(env: Env, s: State, id: int)
    requires Inv(s) && IsSwapped(s, id) && id in EvictHot(env, s, id).s.sessions
    ensures var w := EvictHot(env, s, id).s.w; var r := Activate(env, s, id);
      && (r.Active? <==> env.initOk(w.tick) && env.loadOk(w.tick + 1) && |ViewOf(s, id).tokens| <= s.nCtx)
      && !r.Dangling? && id in r.s.sessions && ViewOf(r.s, id) == ViewOf(s, id)
      && (r.Active? <==> IsHot(r.s, id))
  {
    hide Inv, EvictHot, Admit, ViewOf;
    var e := EvictHot(env, s, id).s;
    EvictHotKeepsColdView(env, s, id, id);
    EvictHotLeavesCold(env, s, id, id);
    EvictHotAddsNobody(env, s, id);
    AdmitOutcome(env, e, id);
    AdmitKeepsViews(env, e, id);
  }

  lemma AdmitOutcome(env: Env, s: State, id: int)
    requires Inv(s) && IsSwapped(s, id)
    ensures var r := Admit(env, s, id);
      && (r.Active? <==> env.initOk(s.w.tick) && env.loadOk(s.w.tick + 1) && |ViewOf(s, id).tokens| <= s.nCtx)
      && !r.Dangling? && id in r.s.sessions
      && (r.Active? <==> IsHot(r.s, id))
  {
  }
}
