/**
 The state of `SessionManager` as a value, and the invariant of that state.
 */
module SessionState {
  import opened Wrappers
  import opened Decimal
  import opened Foreign
  import opened LruList

  const MIN_KEEP_TOKENS: nat := 64
  const DEFAULT_HOT_LIMIT: nat := 3
  const DEFAULT_COLD_LIMIT_BYTES: nat := 512 * 1024 * 1024

  datatype Tier = HOT | COLD

  /** `SessionMeta`. An empty `swapFilePath` in tier COLD marks a session that was never swapped out. */
  datatype Meta = Meta(
    id: int,
    tier: Tier,
    ctx: Option<CtxId>,
    tokens: seq<Token>,
    swapFilePath: string,
    swapFileBytes: nat,
    lastUsedMs: int,
    lruIt: nat)
  {
    function Place(): Place {
      if tier.HOT? then InHotList else if swapFilePath == "" then Unlisted else InColdList
    }
  }

  /** Which list a session has to sit in. */
  datatype Place = InHotList | InColdList | Unlisted

  type Sessions = map<int, Meta>

  datatype State = State(
    w: World,
    swapDir: string,
    nCtx: nat,
    sessions: Sessions,
    hot: seq<Node>,
    hotLimit: nat,
    cold: seq<Node>,
    coldLimit: nat,
    coldUsed: int,
    nextIt: nat)

  function PathFor(swapDir: string, id: int): (path: string)
    ensures path != ""
  {
    swapDir + "/" + ToDecimal(id) + ".state"
  }

  lemma PathForInjective(swapDir: string, a: int, b: int)
    requires PathFor(swapDir, a) == PathFor(swapDir, b)
    ensures a == b
  {
    var p, q, n := PathFor(swapDir, a), PathFor(swapDir, b), |swapDir| + 1;
    assert p[n..|p| - 6] == ToDecimal(a);
    assert q[n..|q| - 6] == ToDecimal(b);
    ToDecimalInjective(a, b);
  }

  /** The manager as its constructor leaves it. */
  function Initial(swapDir: string, nCtx: nat): State {
    State(World(0, map[], 0, map[]), swapDir, nCtx, map[],
          [], DEFAULT_HOT_LIMIT, [], DEFAULT_COLD_LIMIT_BYTES, 0, 0)
  }

  // ---- the invariant ----

  /** `l` holds exactly one node for each session placed in it, and `lruIt` is its handle. */
  ghost predicate ListOk(ss: Sessions, l: seq<Node>, p: Place) {
    && DistinctHandles(l)
    && (forall n :: n in l ==> n.id in ss && ss[n.id].Place() == p && ss[n.id].lruIt == n.it)
    && (forall id :: id in ss && ss[id].Place() == p ==> Node(ss[id].lruIt, id) in l)
  }

  ghost predicate Lists(s: State) {
    && ListOk(s.sessions, s.hot, InHotList)
    && ListOk(s.sessions, s.cold, InColdList)
    && Below(s.hot, s.nextIt)
    && Below(s.cold, s.nextIt)
  }

  ghost predicate Metas(ss: Sessions, swapDir: string) {
    forall id :: id in ss ==>
      && ss[id].id == id
      && (ss[id].tier.HOT? <==> ss[id].ctx.Some?)
      && (ss[id].swapFilePath == "" || ss[id].swapFilePath == PathFor(swapDir, id))
  }

  ghost predicate Owns(ss: Sessions, id: int, ctx: CtxId) {
    id in ss && ss[id].ctx == Some(ctx)
  }

  /** Every live context belongs to exactly one session, and every HOT session's context is live. */
  ghost predicate Contexts(ss: Sessions, w: World) {
    && (forall id, ctx :: Owns(ss, id, ctx) ==> ctx in w.ctxs)
    && (forall ctx :: ctx in w.ctxs ==> ctx < w.nextCtx && exists id :: Owns(ss, id, ctx))
    && (forall a, b, ctx :: Owns(ss, a, ctx) && Owns(ss, b, ctx) ==> a == b)
  }

  /** A COLD session that was swapped out has an intact file under its own path. */
  ghost predicate Swaps(ss: Sessions, w: World) {
    forall id :: id in ss && ss[id].Place() == InColdList ==>
      ss[id].swapFilePath in w.files && w.files[ss[id].swapFilePath].SwapFile?
  }

  function BytesOf(ss: Sessions, id: int): nat {
    if id in ss then ss[id].swapFileBytes else 0
  }

  function SumBytes(ss: Sessions, l: seq<Node>): nat {
    if l == [] then 0 else BytesOf(ss, l[0].id) + SumBytes(ss, l[1..])
  }

  ghost predicate Inv(s: State) {
    && Lists(s)
    && Metas(s.sessions, s.swapDir)
    && Contexts(s.sessions, s.w)
    && Swaps(s.sessions, s.w)
    && s.coldUsed == SumBytes(s.sessions, s.cold)
  }

  // ---- how the parts of the invariant react to one session changing ----

  ghost predicate OthersSame(ss: Sessions, tt: Sessions, id: int) {
    forall k :: k != id ==> (k in ss <==> k in tt) && (k in ss ==> tt[k] == ss[k])
  }

  lemma ListKeep(ss: Sessions, tt: Sessions, l: seq<Node>, p: Place, id: int)
    requires ListOk(ss, l, p) && OthersSame(ss, tt, id)
    requires id in ss ==> ss[id].Place() != p
    requires id in tt ==> tt[id].Place() != p
    ensures ListOk(tt, l, p)
    ensures forall n :: n in l ==> n.id != id
  {
  }

  lemma ListSame(ss: Sessions, tt: Sessions, l: seq<Node>, p: Place, id: int)
    requires ListOk(ss, l, p) && OthersSame(ss, tt, id)
    requires id in ss && id in tt && ss[id].Place() == tt[id].Place() && ss[id].lruIt == tt[id].lruIt
    ensures ListOk(tt, l, p)
  {
  }

  lemma ListRemove(ss: Sessions, tt: Sessions, l: seq<Node>, p: Place, id: int)
    requires ListOk(ss, l, p) && OthersSame(ss, tt, id)
    requires id in ss && ss[id].Place() == p
    requires id in tt ==> tt[id].Place() != p
    ensures Has(l, ss[id].lruIt)
    ensures l[IndexOf(l, ss[id].lruIt)] == Node(ss[id].lruIt, id)
    ensures ListOk(tt, Erase(l, ss[id].lruIt), p)
    ensures forall n :: n in Erase(l, ss[id].lruIt) <==> n in l && n.id != id
  {
    EraseExactly(l, Node(ss[id].lruIt, id));
  }

  lemma ListPush(ss: Sessions, tt: Sessions, l: seq<Node>, p: Place, id: int)
    requires ListOk(ss, l, p) && OthersSame(ss, tt, id)
    requires id in ss ==> ss[id].Place() != p
    requires id in tt && tt[id].Place() == p && Below(l, tt[id].lruIt)
    ensures ListOk(tt, l + [Node(tt[id].lruIt, id)], p)
  {
  }

  lemma EraseBelow(l: seq<Node>, it: nat, bound: nat)
    requires Has(l, it) && Below(l, bound)
    ensures Below(Erase(l, it), bound)
  {
  }

  lemma {:induction false} SumFrame(ss: Sessions, tt: Sessions, l: seq<Node>, id: int)
    requires OthersSame(ss, tt, id) && forall n :: n in l ==> n.id != id
    ensures SumBytes(ss, l) == SumBytes(tt, l)
  {
    if l == [] {
    } else {
      assert l[0] in l;
      SumFrame(ss, tt, l[1..], id);
    }
  }

  lemma {:induction false} SumAppend(ss: Sessions, a: seq<Node>, b: seq<Node>)
    ensures SumBytes(ss, a + b) == SumBytes(ss, a) + SumBytes(ss, b)
  {
    if a == [] {
      assert a + b == b;
    } else {
      assert (a + b)[1..] == a[1..] + b;
      SumAppend(ss, a[1..], b);
    }
  }

  lemma SumErase(ss: Sessions, l: seq<Node>, it: nat)
    requires Has(l, it)
    ensures SumBytes(ss, Erase(l, it)) == SumBytes(ss, l) - BytesOf(ss, l[IndexOf(l, it)].id)
  {
    var k := IndexOf(l, it);
    assert l == l[..k] + [l[k]] + l[k + 1..];
    SumAppend(ss, l[..k] + [l[k]], l[k + 1..]);
    SumAppend(ss, l[..k], [l[k]]);
    SumAppend(ss, l[..k], l[k + 1..]);
  }

  lemma SumPush(ss: Sessions, l: seq<Node>, n: Node)
    ensures SumBytes(ss, l + [n]) == SumBytes(ss, l) + BytesOf(ss, n.id)
  {
    SumAppend(ss, l, [n]);
  }

  /** The session leaves the world along with its context. */
  lemma ContextsDrop(ss: Sessions, tt: Sessions, w: World, id: int)
    requires Contexts(ss, w) && OthersSame(ss, tt, id)
    requires id in ss && ss[id].ctx.Some?
    requires id in tt ==> tt[id].ctx.None?
    ensures ss[id].ctx.value in w.ctxs
    ensures Contexts(tt, FreeContext(w, ss[id].ctx.value))
  {
    var c := ss[id].ctx.value;
    assert Owns(ss, id, c);
    var w1 := FreeContext(w, c);
    forall k, ctx: CtxId | Owns(tt, k, ctx)
      ensures ctx in w1.ctxs
    {
      assert Owns(ss, k, ctx);
    }
    forall ctx: CtxId | ctx in w1.ctxs
      ensures ctx < w1.nextCtx && exists k :: Owns(tt, k, ctx)
    {
      var k :| Owns(ss, k, ctx);
      assert Owns(tt, k, ctx);
    }
    forall a, b, ctx: CtxId | Owns(tt, a, ctx) && Owns(tt, b, ctx)
      ensures a == b
    {
      assert Owns(ss, a, ctx) && Owns(ss, b, ctx);
    }
  }

  /** Ownership did not change, nor did the set of live contexts. */
  lemma ContextsKeep(ss: Sessions, tt: Sessions, w: World, w1: World, id: int)
    requires Contexts(ss, w) && OthersSame(ss, tt, id)
    requires (if id in ss then ss[id].ctx else None) == (if id in tt then tt[id].ctx else None)
    requires w1.ctxs.Keys == w.ctxs.Keys && w1.nextCtx == w.nextCtx
    ensures Contexts(tt, w1)
  {
    assert forall k, ctx :: Owns(tt, k, ctx) <==> Owns(ss, k, ctx);
  }

  /** A session gets a context that no session had. */
  lemma ContextsAdopt(ss: Sessions, tt: Sessions, w: World, w1: World, id: int)
    requires Contexts(ss, w) && OthersSame(ss, tt, id)
    requires id in ss ==> ss[id].ctx.None?
    requires id in tt && tt[id].ctx == Some(w.nextCtx)
    requires w1.ctxs.Keys == w.ctxs.Keys + {w.nextCtx} && w1.nextCtx == w.nextCtx + 1
    ensures Contexts(tt, w1)
  {
    forall k, ctx: CtxId | Owns(tt, k, ctx)
      ensures ctx in w1.ctxs && (k != id ==> Owns(ss, k, ctx) && ctx < w.nextCtx)
    {
      if k != id {
        assert Owns(ss, k, ctx);
      }
    }
    forall ctx: CtxId | ctx in w1.ctxs
      ensures ctx < w1.nextCtx && exists k :: Owns(tt, k, ctx)
    {
      if ctx == w.nextCtx {
        assert Owns(tt, id, ctx);
      } else {
        var k :| Owns(ss, k, ctx);
        assert Owns(tt, k, ctx);
      }
    }
  }

  /** Writing or removing one session's own file leaves all other swap files alone. */
  lemma SwapsOther(ss: Sessions, tt: Sessions, w: World, w1: World, swapDir: string, id: int)
    requires Metas(ss, swapDir) && Swaps(ss, w) && OthersSame(ss, tt, id)
    requires id in tt && tt[id].Place() == InColdList ==>
             tt[id].swapFilePath in w1.files && w1.files[tt[id].swapFilePath].SwapFile?
    requires forall p :: p != PathFor(swapDir, id) ==>
             (p in w.files <==> p in w1.files) && (p in w.files ==> w1.files[p] == w.files[p])
    ensures Swaps(tt, w1)
  {
    forall k | k in tt && tt[k].Place() == InColdList
      ensures tt[k].swapFilePath in w1.files && w1.files[tt[k].swapFilePath].SwapFile?
    {
      if k != id {
        if tt[k].swapFilePath == PathFor(swapDir, id) {
          PathForInjective(swapDir, k, id);
        }
      }
    }
  }
}
