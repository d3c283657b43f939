/**
 Last use by the calls themselves, without a clock: an activation makes its session the youngest and
 leaves the order of the others alone, so in every run the COLD list followed by the HOT list is sorted
 by the last inference each session took part in, and the stamps are the times of those inferences.
 */
module Recency {
  import opened Wrappers
  import opened Foreign
  import opened LruList
  import opened SessionState
  import opened SessionSpec
  import opened InferSpec
  import opened ColdTier
  import opened LruOrder
  import opened Runs
  import opened EveryRun

  // ---- order in a list ----

  ghost predicate Listed(l: seq<Node>, x: int) {
    exists i :: 0 <= i < |l| && l[i].id == x
  }

  ghost predicate Precedes(l: seq<Node>, x: int, y: int) {
    exists i, j :: 0 <= i < j < |l| && l[i].id == x && l[j].id == y
  }

  /** `m` lists nobody new, and in the order of `l`. */
  ghost predicate KeepsOrder(l: seq<Node>, m: seq<Node>) {
    && (forall x :: Listed(m, x) ==> Listed(l, x))
    && (forall x, y :: Precedes(m, x, y) ==> Precedes(l, x, y))
  }

  /** The list without session `id`. */
  function Others(l: seq<Node>, id: int): seq<Node> {
    if l == [] then [] else (if l[0].id == id then [] else [l[0]]) + Others(l[1..], id)
  }

  /** `m` is `l` without `id`, or less, followed by `id`. */
  ghost predicate MovesToEnd(l: seq<Node>, m: seq<Node>, id: int) {
    && EndsWith(m, id)
    && KeepsOrder(l, m[..|m| - 1])
    && !Listed(m[..|m| - 1], id)
  }

  lemma SameIdsKeepOrder(l: seq<Node>, m: seq<Node>)
    requires |l| == |m| && forall i :: 0 <= i < |l| ==> l[i].id == m[i].id
    ensures KeepsOrder(l, m)
  {
  }

  lemma KeepsOrderTwice(l: seq<Node>, m: seq<Node>, n: seq<Node>)
    requires KeepsOrder(l, m) && KeepsOrder(m, n)
    ensures KeepsOrder(l, n)
  {
    hide Listed, Precedes;
  }

  lemma ConsKeepsOrder(n: Node, l: seq<Node>, m: seq<Node>)
    requires KeepsOrder(l, m)
    ensures KeepsOrder([n] + l, [n] + m) && KeepsOrder([n] + l, m)
  {
    var l1, m1 := [n] + l, [n] + m;
    forall x
      ensures Listed(l, x) ==> Listed(l1, x)
      ensures Listed(m1, x) ==> x == n.id || Listed(m, x)
    {
      if Listed(l, x) {
        var i :| 0 <= i < |l| && l[i].id == x;
        assert l1[i + 1].id == x;
      }
      if i :| 0 <= i < |m1| && m1[i].id == x {
        assert i > 0 ==> m[i - 1].id == x;
      }
    }
    assert l1[0].id == n.id;
    forall x, y
      ensures Precedes(l, x, y) || (x == n.id && Listed(l, y)) ==> Precedes(l1, x, y)
    {
      PrecedesCons(n, l, x, y);
    }
    forall x, y | Precedes(m1, x, y)
      ensures Precedes(m, x, y) || (x == n.id && Listed(m, y))
    {
      var i, j :| 0 <= i < j < |m1| && m1[i].id == x && m1[j].id == y;
      assert m1[j] == m[j - 1] && (i > 0 ==> m1[i] == m[i - 1]);
    }
    hide Listed, Precedes;
  }

  lemma PrecedesCons(n: Node, l: seq<Node>, x: int, y: int)
    ensures Precedes(l, x, y) || (x == n.id && Listed(l, y)) ==> Precedes([n] + l, x, y)
  {
    var l1 := [n] + l;
    if Precedes(l, x, y) {
      var i, j :| 0 <= i < j < |l| && l[i].id == x && l[j].id == y;
      assert l1[i + 1].id == x && l1[j + 1].id == y;
    } else if x == n.id && Listed(l, y) {
      var j :| 0 <= j < |l| && l[j].id == y;
      assert l1[0].id == x && l1[j + 1].id == y;
    }
  }

  lemma {:induction false} OthersKeepOrder(l: seq<Node>, id: int)
    ensures KeepsOrder(l, Others(l, id)) && !Listed(Others(l, id), id)
  {
    hide KeepsOrder;
    if l == [] {
      SameIdsKeepOrder(l, []);
    } else {
      OthersKeepOrder(l[1..], id);
      var rest := Others(l[1..], id);
      assert l == [l[0]] + l[1..] && [] + rest == rest;
      ConsKeepsOrder(l[0], l[1..], rest);
    }
  }

  lemma {:induction false} OthersOf(a: seq<Node>, b: seq<Node>, id: int)
    ensures Others(a + b, id) == Others(a, id) + Others(b, id)
  {
    if a == [] {
      assert a + b == b;
    } else {
      assert (a + b)[1..] == a[1..] + b;
      OthersOf(a[1..], b, id);
    }
  }

  lemma {:induction false} NobodyElse(l: seq<Node>, id: int)
    requires forall i :: 0 <= i < |l| ==> l[i].id != id
    ensures Others(l, id) == l
  {
    if l == [] {
    } else {
      NobodyElse(l[1..], id);
    }
  }

  /** Erasing a session's only node leaves the others. */
  lemma EraseLeavesOthers(l: seq<Node>, it: nat, id: int)
    requires Has(l, it) && l[IndexOf(l, it)].id == id
    requires forall i :: 0 <= i < |Erase(l, it)| ==> Erase(l, it)[i].id != id
    ensures Erase(l, it) == Others(l, id)
  {
    hide Others, Has, IndexOf;
    var k := IndexOf(l, it);
    var r := Erase(l, it);
    forall i | 0 <= i < |l| && i != k
      ensures l[i].id != id
    {
      assert l[i] == r[if i < k then i else i - 1];
    }
    OthersWithoutOne(l, k, id);
  }

  lemma {:induction false} OthersWithoutOne(l: seq<Node>, k: nat, id: int)
    requires k < |l| && l[k].id == id && forall i :: 0 <= i < |l| && i != k ==> l[i].id != id
    ensures Others(l, id) == l[..k] + l[k + 1..]
  {
    if k == 0 {
      NobodyElse(l[1..], id);
    } else {
      OthersWithoutOne(l[1..], k - 1, id);
    }
  }

  lemma EndsKeepOrder(l: seq<Node>, m: seq<Node>, n: Node, id: int)
    requires KeepsOrder(l, m) && !Listed(m, id) && n.id == id
    ensures MovesToEnd(l, m + [n], id)
  {
    assert (m + [n])[..|m|] == m;
    hide KeepsOrder, Listed;
  }

  lemma MovesToEndTwice(l: seq<Node>, m: seq<Node>, n: seq<Node>, id: int)
    requires MovesToEnd(l, m, id) && MovesToEnd(m, n, id)
    ensures MovesToEnd(l, n, id)
  {
    var p, q := m[..|m| - 1], n[..|n| - 1];
    assert KeepsOrder(p, q) by {
      forall x | Listed(q, x)
        ensures Listed(p, x)
      {
        assert x != id && Listed(m, x);
        ListedBeforeEnd(m, x, id);
      }
      forall x, y | Precedes(q, x, y)
        ensures Precedes(p, x, y)
      {
        PrecedesLists(q, x, y);
        assert y != id && Precedes(m, x, y);
        PrecedesBeforeEnd(m, x, y, id);
      }
    }
    KeepsOrderTwice(l, p, q);
  }

  lemma PrecedesLists(l: seq<Node>, x: int, y: int)
    requires Precedes(l, x, y)
    ensures Listed(l, x) && Listed(l, y)
  {
  }

  lemma ListedBeforeEnd(m: seq<Node>, x: int, id: int)
    requires EndsWith(m, id) && Listed(m, x) && x != id
    ensures Listed(m[..|m| - 1], x)
  {
    var i :| 0 <= i < |m| && m[i].id == x;
    assert m[..|m| - 1][i].id == x;
  }

  lemma PrecedesBeforeEnd(m: seq<Node>, x: int, y: int, id: int)
    requires EndsWith(m, id) && Precedes(m, x, y)
    ensures y == id || Precedes(m[..|m| - 1], x, y)
    ensures Listed(m[..|m| - 1], x)
  {
    var i, j :| 0 <= i < j < |m| && m[i].id == x && m[j].id == y;
    var p := m[..|m| - 1];
    assert p[i].id == x;
    if j < |p| {
      assert p[j].id == y;
    }
  }

  // ---- the operations ----

  /** A killed session leaves its list; nothing else moves. */
  lemma KillTakesOut(s: State, id: int)
    requires Inv(s)
    ensures var r := KillSession(s, id);
      && r.hot == Others(s.hot, id) && r.cold == Others(s.cold, id)
      && KeepsOrder(ByAge(s), ByAge(r)) && !Listed(ByAge(r), id)
  {
    KillTakesNode(s, id);
    hide KillSession, Inv, KeepsOrder, Listed;
    OthersOf(s.cold, s.hot, id);
    OthersKeepOrder(ByAge(s), id);
  }

  lemma KillTakesNode(s: State, id: int)
    requires Inv(s)
    ensures var r := KillSession(s, id); r.hot == Others(s.hot, id) && r.cold == Others(s.cold, id)
  {
    var r := KillSession(s, id);
    if IsHot(s, id) {
      HotFacts(s, id);
      ListRemove(s.sessions, r.sessions, s.hot, InHotList, id);
      ListKeep(s.sessions, r.sessions, s.cold, InColdList, id);
      hide Erase;
      EraseLeavesOthers(s.hot, s.sessions[id].lruIt, id);
      NotInList(s.cold, id);
    } else if IsSwapped(s, id) {
      SwappedFacts(s, id);
      ListRemove(s.sessions, r.sessions, s.cold, InColdList, id);
      ListKeep(s.sessions, r.sessions, s.hot, InHotList, id);
      hide Erase;
      EraseLeavesOthers(s.cold, s.sessions[id].lruIt, id);
      NotInList(s.hot, id);
    } else {
      assert r.hot == s.hot && r.cold == s.cold;
      NotInList(s.hot, id);
      NotInList(s.cold, id);
    }
  }

  lemma NotInList(l: seq<Node>, id: int)
    requires forall n :: n in l ==> n.id != id
    ensures Others(l, id) == l
  {
    NobodyElse(l, id);
  }

  lemma {:induction false} EvictColdKeepsOrder(s: State, excludeId: int)
    requires Inv(s)
    ensures KeepsOrder(ByAge(s), ByAge(EvictCold(s, excludeId)))
    decreases |s.cold|
  {
    hide Inv, KeepsOrder, KillSession;
    if s.coldUsed <= s.coldLimit || s.cold == [] || (s.cold[0].id == excludeId && |s.cold| == 1) {
      SameIdsKeepOrder(ByAge(s), ByAge(s));
    } else {
      var victim := if s.cold[0].id == excludeId then s.cold[1].id else s.cold[0].id;
      KillColdVictim(s, victim);
      var t := KillSession(s, victim);
      KillTakesOut(s, victim);
      EvictColdKeepsOrder(t, excludeId);
      KeepsOrderTwice(ByAge(s), ByAge(t), ByAge(EvictCold(t, excludeId)));
      assert EvictCold(s, excludeId) == EvictCold(t, excludeId);
    }
  }

  /** The front of the HOT list moves to the back of the COLD list: nobody overtakes anybody. */
  lemma SwapOutKeepsOrder(env: Env, s: State)
    requires Inv(s) && s.hot != []
    ensures IsHot(s, s.hot[0].id) && KeepsOrder(ByAge(s), ByAge(SwapOut(env, s, s.hot[0].id).s))
  {
    DemoteShape(s, 0, 0);
    var id := s.hot[0].id;
    AfterSaveKeepsStamps(env, s, id);
    var saved := SaveOf(env, s, id);
    var s1 := AfterSave(env, s, id);
    hide Inv, AfterSave, SaveOf, StampOf, KeepsOrder;
    SameIdsKeepOrder(ByAge(s), ByAge(s1));
    if saved.bytes.Some? {
      var t := Demoted(env, s, id);
      DemoteShape(s1, 0, saved.bytes.value);
      DemotedIsDemote(env, s, id);
      hide Demoted, Demote;
      FrontMoves(s.cold, s.hot, t.cold[|s.cold|]);
      EvictColdKeepsOrder(t, id);
      KeepsOrderTwice(ByAge(s), ByAge(t), ByAge(EvictCold(t, id)));
    }
  }

  lemma FrontMoves(cold: seq<Node>, hot: seq<Node>, n: Node)
    requires hot != [] && n.id == hot[0].id
    ensures KeepsOrder(cold + hot, cold + [n] + (hot[..0] + hot[1..]))
  {
    var l, m := cold + hot, cold + [n] + (hot[..0] + hot[1..]);
    hide KeepsOrder;
    SameIdsKeepOrder(l, m);
  }

  /** Eviction down to below `limit` takes out somebody behind session `id`, which it skips. */
  ghost predicate ReachesBehind(l: seq<Node>, limit: nat, id: int) {
    exists i :: 0 <= i < |l| - 1 && l[i].id == id && i + limit <= |l|
  }

  lemma {:induction false} EvictHotKeepsOrder(env: Env, s: State, excludeId: int)
    requires Inv(s) && !ReachesBehind(s.hot, s.hotLimit, excludeId)
    ensures KeepsOrder(ByAge(s), ByAge(EvictHot(env, s, excludeId).s))
    decreases |s.hot|
  {
    hide Inv, SwapOut, SaveOf, HotVictim, KeepsOrder, EvictHot, ReachesBehind;
    var v := VictimAt(s, excludeId);
    var victim := EvictHotRound(env, s, excludeId);
    if victim == -1 {
      SameIdsKeepOrder(ByAge(s), ByAge(s));
    } else {
      FrontIsTaken(s.hot, s.hotLimit, excludeId, v);
      SwapOutKeepsOrder(env, s);
      var o := SwapOut(env, s, victim);
      if o.ok {
        SwapOutHot(env, s, 0);
        SwapOutFrame(env, s, victim);
        StillNotBehind(s.hot, s.hotLimit, excludeId);
        EvictHotKeepsOrder(env, o.s, excludeId);
        KeepsOrderTwice(ByAge(s), ByAge(o.s), ByAge(EvictHot(env, o.s, excludeId).s));
      }
    }
  }

  lemma FrontIsTaken(l: seq<Node>, limit: nat, id: int, v: nat)
    requires v < |l| && |l| >= limit && !ReachesBehind(l, limit, id)
    requires v == if l[0].id == id then 1 else 0
    ensures v == 0
  {
  }

  lemma StillNotBehind(l: seq<Node>, limit: nat, id: int)
    requires l != [] && !ReachesBehind(l, limit, id)
    ensures !ReachesBehind(l[..0] + l[1..], limit, id)
  {
    var m := l[..0] + l[1..];
    assert forall i :: 0 <= i < |m| ==> m[i] == l[i + 1];
  }

  lemma NobodyBehind(s: State, id: int)
    requires Inv(s) && !IsHot(s, id)
    ensures !ReachesBehind(s.hot, s.hotLimit, id)
  {
    forall i | 0 <= i < |s.hot|
      ensures s.hot[i].id != id
    {
      assert s.hot[i] in s.hot;
    }
  }

  // ---- an activation makes its session the youngest ----

  /** The stamp is the time at some tick of a call that starts at tick `from` and ends before tick `to`. */
  ghost predicate StampedIn(env: Env, stamp: int, from: nat, to: nat) {
    exists t :: from <= t < to && stamp == env.clock(t)
  }

  /** All that using session `id` does to the order: it goes to the end, the others stay as they are. */
  ghost predicate Refreshed(s: State, r: State, id: int) {
    && EndsWith(r.hot, id) && r.hot[..|r.hot| - 1] == Others(s.hot, id) && r.cold == Others(s.cold, id)
    && r.sessions.Keys == s.sessions.Keys
    && (forall k :: k in s.sessions && k != id ==> r.sessions[k] == s.sessions[k])
  }

  /**
   Every activation that succeeds, of a HOT session too, makes its session the youngest: the HOT list ends with
   it and its entry carries a time of this call. The other nodes that the eviction left, or all of them if the
   session was HOT already, keep their order and their entries.
   */
  lemma ActivationRefreshes(env: Env, s: State, id: int)
    requires Inv(s) && Activate(env, s, id).Active?
    ensures var before := if IsHot(s, id) then s else EvictHot(env, s, id).s; var r := Activate(env, s, id).s;
      && r.hot != [] && r.hot[|r.hot| - 1].id == id
      && r.hot[..|r.hot| - 1] == Others(before.hot, id) && r.cold == Others(before.cold, id)
      && r.sessions.Keys == before.sessions.Keys
      && (forall k :: k in before.sessions && k != id ==> r.sessions[k] == before.sessions[k])
      && id in r.sessions && StampedIn(env, r.sessions[id].lastUsedMs, s.w.tick, r.w.tick)
  {
    hide Inv, EvictHot, Admit, TouchHot, StampedIn, Others;
    if IsHot(s, id) {
      TouchRefreshes(env, s, id);
    } else {
      EvictHotLeavesCold(env, s, id, id);
      var e := EvictHot(env, s, id).s;
      EvictHotTicks(env, s, id);
      AdmitRefreshes(env, e, id);
      StampedEarlier(env, Activate(env, s, id).s.sessions[id].lastUsedMs, s.w.tick, e.w.tick, Activate(env, s, id).s.w.tick);
    }
  }

  lemma StampedEarlier(env: Env, stamp: int, first: nat, from: nat, to: nat)
    requires first <= from && StampedIn(env, stamp, from, to)
    ensures StampedIn(env, stamp, first, to)
  {
  }

  lemma TouchRefreshes(env: Env, s: State, id: int)
    requires Inv(s) && IsHot(s, id)
    ensures var r := TouchHot(env, s, id);
      Refreshed(s, r, id) && id in r.sessions && StampedIn(env, r.sessions[id].lastUsedMs, s.w.tick, r.w.tick)
  {
    KillTakesOut(s, id);
    TouchShape(env, s, id);
    hide Inv, TouchHot, KillSession, Others, StampedIn;
    var n := Node(s.nextIt, id);
    var r := TouchHot(env, s, id);
    assert (Others(s.hot, id) + [n])[..|r.hot| - 1] == Others(s.hot, id);
  }

  lemma TouchShape(env: Env, s: State, id: int)
    requires Inv(s) && IsHot(s, id)
    ensures var r := TouchHot(env, s, id); var gone := KillSession(s, id);
      && r.hot == gone.hot + [Node(s.nextIt, id)] && r.cold == gone.cold
      && r.sessions.Keys == s.sessions.Keys
      && (forall k :: k in s.sessions && k != id ==> r.sessions[k] == s.sessions[k])
      && StampedIn(env, r.sessions[id].lastUsedMs, s.w.tick, r.w.tick)
  {
    HotFacts(s, id);
    hide Inv, Erase;
    assert TouchHot(env, s, id).sessions[id].lastUsedMs == env.clock(s.w.tick);
  }

  lemma AdmitRefreshes(env: Env, s: State, id: int)
    requires Inv(s) && !IsHot(s, id) && Admit(env, s, id).Active?
    ensures var r := Admit(env, s, id).s;
      Refreshed(s, r, id) && id in r.sessions && StampedIn(env, r.sessions[id].lastUsedMs, s.w.tick, r.w.tick)
  {
    hide Inv, Admit, KillSession, Others, StampedIn, OthersSame, KeepsOrder, Listed;
    AdmittedNow(env, s, id);
    AdmittedShape(env, s, id);
    KillTakesOut(s, id);
    var n := Node(s.nextIt, id);
    var r := Admit(env, s, id).s;
    assert (Others(s.hot, id) + [n])[..|r.hot| - 1] == Others(s.hot, id);
  }

  lemma AdmittedNow(env: Env, s: State, id: int)
    requires Inv(s) && !IsHot(s, id) && Admit(env, s, id).Active?
    ensures var r := Admit(env, s, id).s;
      && id in r.sessions && StampedIn(env, r.sessions[id].lastUsedMs, s.w.tick, r.w.tick)
      && r.sessions.Keys == s.sessions.Keys
      && (forall k :: k in s.sessions && k != id ==> r.sessions[k] == s.sessions[k])
  {
    hide Inv, Erase, PathFor;
    var r := Admit(env, s, id).s;
    assert r.sessions[id].lastUsedMs == env.clock(r.w.tick - 1);
  }

  lemma {:induction false} EvictHotTicks(env: Env, s: State, excludeId: int)
    requires Inv(s)
    ensures EvictHot(env, s, excludeId).s.w.tick >= s.w.tick
    decreases |s.hot|
  {
    hide Inv, SwapOut, SaveOf, HotVictim, EvictHot;
    var victim := EvictHotRound(env, s, excludeId);
    if victim == -1 {
    } else {
      SwapOutTicks(env, s, victim);
      var o := SwapOut(env, s, victim);
      if o.ok {
        EvictHotTicks(env, o.s, excludeId);
      }
    }
  }

  lemma SwapOutTicks(env: Env, s: State, id: int)
    requires Inv(s) && IsHot(s, id)
    ensures SwapOut(env, s, id).s.w.tick >= s.w.tick
  {
    AfterSaveKeepsStamps(env, s, id);
    hide Inv, AfterSave, SaveOf, StampOf;
    if SaveOf(env, s, id).bytes.Some? {
      var t := Demoted(env, s, id);
      DemotedTick(env, s, id);
      EvictColdLosesOnlyCold(t, id);
    }
  }

  lemma DemotedTick(env: Env, s: State, id: int)
    requires Inv(s) && IsHot(s, id) && SaveOf(env, s, id).bytes.Some?
    ensures Demoted(env, s, id).w.tick == AfterSave(env, s, id).w.tick
  {
    hide Inv, AfterSave, SaveOf, Erase, PathFor;
  }

  /** Recording tokens for a HOT session uses it. */
  lemma RecordRefreshes(env: Env, s: State, id: int, tokens: seq<Token>)
    requires Inv(s)
    ensures var r := RecordTokens(env, s, id, tokens);
      && (id !in s.sessions ==> r == s)
      && (id in s.sessions ==>
            && id in r.sessions && r.sessions[id].tokens == s.sessions[id].tokens + tokens
            && (if IsHot(s, id) then
                  Refreshed(s, r, id) && StampedIn(env, r.sessions[id].lastUsedMs, s.w.tick, r.w.tick)
                else r.(sessions := s.sessions) == s && OthersSame(s.sessions, r.sessions, id)
                     && r.sessions[id] == s.sessions[id].(tokens := r.sessions[id].tokens)))
  {
    hide Inv, TouchHot, Refreshed, StampedIn;
    if IsHot(s, id) {
      HotRecordRefreshes(env, s, id, tokens);
    }
  }

  lemma HotRecordRefreshes(env: Env, s: State, id: int, tokens: seq<Token>)
    requires Inv(s) && IsHot(s, id)
    ensures var r := RecordTokens(env, s, id, tokens);
      && Refreshed(s, r, id) && id in r.sessions && r.sessions[id].tokens == s.sessions[id].tokens + tokens
      && IsHot(r, id) && Inv(r) && StampedIn(env, r.sessions[id].lastUsedMs, s.w.tick, r.w.tick)
  {
    hide Inv, TouchHot, RecordTokens, Others, StampedIn;
    var s1 := s.(sessions := s.sessions[id := s.sessions[id].(tokens := s.sessions[id].tokens + tokens)]);
    RecordIsTouch(env, s, id, tokens);
    TouchRefreshes(env, s1, id);
    RecordedStaysHot(env, s, id, tokens);
  }

  lemma RecordIsTouch(env: Env, s: State, id: int, tokens: seq<Token>)
    requires Inv(s) && IsHot(s, id)
    ensures var s1 := s.(sessions := s.sessions[id := s.sessions[id].(tokens := s.sessions[id].tokens + tokens)]);
      Inv(s1) && RecordTokens(env, s, id, tokens) == TouchHot(env, s1, id)
  {
    RecordKeepsInv(s, id, tokens);
    hide Inv, TouchHot;
  }

  /**
   An activation that is refused leaves everything as its eviction left it, but for one thing: if the load of a
   swapped session failed, its token vector has been resized to the context size.
   */
  lemma RefusalLeavesAll(env: Env, s: State, id: int)
    requires Inv(s) && Activate(env, s, id).Refused?
    ensures var before := if id in s.sessions then EvictHot(env, s, id).s else s; var r := Activate(env, s, id).s;
      && r == before.(sessions := r.sessions, w := r.w)
      && r.w.ctxs == before.w.ctxs && r.w.files == before.w.files
      && OthersSame(before.sessions, r.sessions, id)
      && (id in before.sessions ==>
            && id in r.sessions && r.sessions[id] == before.sessions[id].(tokens := r.sessions[id].tokens)
            && OnlyResized(before.sessions[id].tokens, r.sessions[id].tokens,
                           if IsSwapped(before, id) && env.initOk(before.w.tick) then before.nCtx
                           else |before.sessions[id].tokens|))
  {
    hide Inv, EvictHot, Admit, TouchHot, OnlyResized;
    if id in s.sessions {
      EvictHotLeavesCold(env, s, id, id);
      RefusedAdmission(env, EvictHot(env, s, id).s, id);
    }
  }

  ghost predicate OnlyResized(a: seq<Token>, b: seq<Token>, n: nat) {
    |b| == n && forall i :: 0 <= i < n ==> b[i] == if i < |a| then a[i] else 0
  }

  lemma RefusedAdmission(env: Env, s: State, id: int)
    requires Inv(s) && !IsHot(s, id) && Admit(env, s, id).Refused?
    ensures var r := Admit(env, s, id).s;
      && r == s.(sessions := r.sessions, w := r.w) && r.w.ctxs == s.w.ctxs && r.w.files == s.w.files
      && OthersSame(s.sessions, r.sessions, id)
      && (id in s.sessions ==>
            && id in r.sessions && r.sessions[id] == s.sessions[id].(tokens := r.sessions[id].tokens)
            && OnlyResized(s.sessions[id].tokens, r.sessions[id].tokens,
                           if IsSwapped(s, id) && env.initOk(s.w.tick) then s.nCtx else |s.sessions[id].tokens|))
  {
    assert s.w.nextCtx !in s.w.ctxs;
    hide Inv;
  }

  lemma RefreshedMovesToEnd(s: State, r: State, id: int)
    requires Refreshed(s, r, id)
    ensures MovesToEnd(ByAge(s), ByAge(r), id)
  {
    hide KeepsOrder, Listed, MovesToEnd;
    OthersOf(s.cold, s.hot, id);
    OthersKeepOrder(ByAge(s), id);
    var n := r.hot[|r.hot| - 1];
    assert r.hot == Others(s.hot, id) + [n];
    assert ByAge(r) == Others(ByAge(s), id) + [n];
    EndsKeepOrder(ByAge(s), Others(ByAge(s), id), n, id);
  }

  lemma OrderThenEnd(l: seq<Node>, m: seq<Node>, n: seq<Node>, id: int)
    requires KeepsOrder(l, m) && MovesToEnd(m, n, id)
    ensures MovesToEnd(l, n, id)
  {
    hide KeepsOrder, Listed;
    KeepsOrderTwice(l, m, n[..|n| - 1]);
  }

  // ---- one call ----

  /** Nobody's stamp changes but that of session `id`, and nobody comes in. */
  ghost predicate OthersStamps(s: State, r: State, id: int) {
    forall k :: k in r.sessions ==> k in s.sessions && (k != id ==> r.sessions[k].lastUsedMs == s.sessions[k].lastUsedMs)
  }

  ghost predicate SameStamps(s: State, r: State) {
    forall k :: k in r.sessions ==> k in s.sessions && r.sessions[k].lastUsedMs == s.sessions[k].lastUsedMs
  }

  lemma SwapOutKeepsStamps(env: Env, s: State, id: int)
    requires Inv(s) && IsHot(s, id)
    ensures SameStamps(s, SwapOut(env, s, id).s)
  {
    hide Inv, SwapOut, IsSwapped;
    SwapOutFrame(env, s, id);
    if SwapOut(env, s, id).ok {
      SwapOutColdLast(env, s, id);
    } else {
      AfterSaveKeepsStamp(env, s, id);
    }
  }

  lemma AfterSaveKeepsStamp(env: Env, s: State, id: int)
    requires Inv(s) && IsHot(s, id) && !SwapOut(env, s, id).ok
    ensures SameStamps(s, SwapOut(env, s, id).s)
  {
    hide Inv, SaveOf;
  }

  lemma {:induction false} EvictHotKeepsStamps(env: Env, s: State, excludeId: int)
    requires Inv(s)
    ensures SameStamps(s, EvictHot(env, s, excludeId).s)
    decreases |s.hot|
  {
    hide Inv, SwapOut, SaveOf, HotVictim, EvictHot;
    var victim := EvictHotRound(env, s, excludeId);
    if victim == -1 {
    } else {
      SwapOutKeepsStamps(env, s, victim);
      var o := SwapOut(env, s, victim);
      if o.ok {
        EvictHotKeepsStamps(env, o.s, excludeId);
      }
    }
  }

  /** Prefill, decode loop and recording of a session that has just become the youngest. */
  lemma GenerateRefreshes(env: Env, s: State, id: int, ctx: CtxId, prompt: seq<Token>, maxTokens: nat,
                          l: seq<Node>, from: nat)
    requires Inv(s) && HoldsContext(s, id, ctx) && ctx in s.w.ctxs
    requires MovesToEnd(l, ByAge(s), id) && StampedIn(env, s.sessions[id].lastUsedMs, from, s.w.tick)
    ensures var r := Generate(env, s, id, ctx, prompt, maxTokens).s;
      && MovesToEnd(l, ByAge(r), id) && IsHot(r, id) && StampedIn(env, r.sessions[id].lastUsedMs, from, r.w.tick)
      && OthersStamps(s, r, id)
  {
    hide Inv, Generate, RecordTokens, MovesToEnd, StampedIn, ByAge, OthersStamps, OnlyHotTouched, IsSwapped;
    var r := Generate(env, s, id, ctx, prompt, maxTokens).s;
    GenerateFrame(env, s, id, ctx, prompt, maxTokens);
    FrameKeepsStamps(s, r, id);
    StampedLater(env, s.sessions[id].lastUsedMs, from, s.w.tick, s.w.tick + 1);
    if env.decodeOk(s.w.tick) {
      var s1, s3, generated := GenerateUses(env, s, id, ctx, prompt, maxTokens);
      SameLists(s, s1.w);
      OneMoreUse(env, s1, id, prompt, l, from);
      SameLists(RecordTokens(env, s1, id, prompt), s3.w);
      OneMoreUse(env, s3, id, generated, l, from);
    } else {
      GenerateRefused(env, s, id, ctx, prompt, maxTokens);
      SameLists(s, r.w);
      FailedDecodeTick(env, s.w, ctx, prompt);
    }
  }

  lemma FailedDecodeTick(env: Env, w: World, ctx: CtxId, tokens: seq<Token>)
    requires ctx in w.ctxs
    ensures Decode(env, w, ctx, tokens).0.tick == w.tick + 1
  {
  }

  /** The two recordings of an inference: of the prompt in `s1`, of the generated tokens in `s3`. */
  lemma GenerateUses(env: Env, s: State, id: int, ctx: CtxId, prompt: seq<Token>, maxTokens: nat)
    returns (s1: State, s3: State, generated: seq<Token>)
    requires Inv(s) && HoldsContext(s, id, ctx) && ctx in s.w.ctxs && env.decodeOk(s.w.tick)
    ensures s1 == s.(w := s1.w) && Inv(s1) && IsHot(s1, id) && s1.w.tick == s.w.tick + 1
    ensures var s2 := RecordTokens(env, s1, id, prompt);
      s3 == s2.(w := s3.w) && Inv(s3) && IsHot(s3, id) && s3.w.tick >= s2.w.tick
    ensures Generate(env, s, id, ctx, prompt, maxTokens).s == RecordTokens(env, s3, id, generated)
  {
    hide Inv, RecordTokens, DecodeLoop, AppendTokens, LeftOver;
    s1 := s.(w := Decode(env, s.w, ctx, prompt).0);
    WorldKeepsInv(s, s1.w, id);
    var s2 := RecordTokens(env, s1, id, prompt);
    RecordedStaysHot(env, s1, id, prompt);
    var d := DecodeLoop(env, s2.w, ctx, maxTokens);
    DecodeLoopTicks(env, s2.w, ctx, maxTokens);
    WorldKeepsInv(s2, d.w, id);
    s3, generated := s2.(w := d.w), d.generated;
  }

  lemma SameLists(s: State, w1: World)
    ensures ByAge(s.(w := w1)) == ByAge(s)
  {
  }

  lemma FrameKeepsStamps(s: State, r: State, id: int)
    requires OnlyHotTouched(s, r, id)
    ensures OthersStamps(s, r, id)
  {
  }

  lemma OneMoreUse(env: Env, s: State, id: int, tokens: seq<Token>, l: seq<Node>, from: nat)
    requires Inv(s) && IsHot(s, id) && MovesToEnd(l, ByAge(s), id) && from <= s.w.tick
    ensures var r := RecordTokens(env, s, id, tokens);
      && Inv(r) && IsHot(r, id) && r.sessions[id].ctx == s.sessions[id].ctx && r.w.ctxs == s.w.ctxs
      && MovesToEnd(l, ByAge(r), id) && StampedIn(env, r.sessions[id].lastUsedMs, from, r.w.tick) && r.w.tick >= s.w.tick
  {
    hide Inv, RecordTokens, MovesToEnd, Refreshed, StampedIn, ByAge;
    var r := RecordTokens(env, s, id, tokens);
    RecordedStaysHot(env, s, id, tokens);
    HotRecordRefreshes(env, s, id, tokens);
    RefreshedMovesToEnd(s, r, id);
    MovesToEndTwice(l, ByAge(s), ByAge(r), id);
    RecordTicks(env, s, id, tokens);
    StampedEarlier(env, r.sessions[id].lastUsedMs, from, s.w.tick, r.w.tick);
  }

  lemma RecordTicks(env: Env, s: State, id: int, tokens: seq<Token>)
    requires Inv(s)
    ensures RecordTokens(env, s, id, tokens).w.tick >= s.w.tick
  {
    hide Inv, Erase;
  }

  lemma StampedLater(env: Env, stamp: int, from: nat, to: nat, later: nat)
    requires to <= later && StampedIn(env, stamp, from, to)
    ensures StampedIn(env, stamp, from, later) && from <= to
  {
  }

  /** An inference whose activation succeeds uses its session. */
  lemma InferRefreshes(env: Env, s: State, id: int, prompt: seq<Token>, maxTokens: nat)
    requires Inv(s) && Activate(env, s, id).Active?
    ensures var a := Infer(env, s, id, prompt, maxTokens);
      && a.Answer? && MovesToEnd(ByAge(s), ByAge(a.s), id) && IsHot(a.s, id)
      && StampedIn(env, a.s.sessions[id].lastUsedMs, s.w.tick, a.s.w.tick) && OthersStamps(s, a.s, id)
  {
    hide Inv, Activate, Generate, EvictHot, Infer, MovesToEnd, KeepsOrder, StampedIn, ByAge;
    var a := Activate(env, s, id);
    var before := if IsHot(s, id) then s else EvictHot(env, s, id).s;
    ActivationRefreshes(env, s, id);
    BeforeActivation(env, s, id);
    RefreshedMovesToEnd(before, a.s, id);
    OrderThenEnd(ByAge(s), ByAge(before), ByAge(a.s), id);
    InferGenerates(env, s, id, prompt, maxTokens);
    GenerateRefreshes(env, a.s, id, a.ctx, prompt, maxTokens, ByAge(s), s.w.tick);
  }

  /** What happens before a session is used keeps the order and the stamps. */
  lemma BeforeActivation(env: Env, s: State, id: int)
    requires Inv(s)
    ensures var before := if IsHot(s, id) then s else EvictHot(env, s, id).s;
      KeepsOrder(ByAge(s), ByAge(before)) && SameStamps(s, before)
  {
    hide Inv, EvictHot, KeepsOrder;
    if IsHot(s, id) {
      SameIdsKeepOrder(ByAge(s), ByAge(s));
    } else {
      NobodyBehind(s, id);
      EvictHotKeepsOrder(env, s, id);
      EvictHotKeepsStamps(env, s, id);
    }
  }

  /** One that is refused leaves everybody's place, and the session where it is. */
  lemma InferRefused(env: Env, s: State, id: int, prompt: seq<Token>, maxTokens: nat)
    requires Inv(s) && Activate(env, s, id).Refused?
    ensures var a := Infer(env, s, id, prompt, maxTokens);
      a.Answer? && KeepsOrder(ByAge(s), ByAge(a.s)) && !IsHot(a.s, id) && SameStamps(s, a.s)
  {
    hide Inv, EvictHot, Admit, KeepsOrder, TouchHot;
    if id !in s.sessions {
      SameIdsKeepOrder(ByAge(s), ByAge(s));
    } else {
      var e := EvictHot(env, s, id).s;
      EvictHotLeavesCold(env, s, id, id);
      BeforeActivation(env, s, id);
      AdmitRefused(env, e, id);
    }
  }

  lemma AdmitRefused(env: Env, s: State, id: int)
    requires Inv(s) && !IsHot(s, id) && Admit(env, s, id).Refused?
    ensures var r := Admit(env, s, id).s; ByAge(r) == ByAge(s) && !IsHot(r, id) && SameStamps(s, r)
  {
    hide Inv;
  }

  /** A call uses its session if it is an inference and leaves the session HOT. */
  ghost predicate Uses(r: State, op: Op) {
    op.Inference? && IsHot(r, op.id)
  }

  /** A new HOT limit that takes out somebody behind a HOT session -1, which it skips. */
  ghost predicate ReachesPastSentinel(s: State, op: Op) {
    op.HotLimit? && ReachesBehind(s.hot, if op.count < 1 then 1 else op.count, -1)
  }

  lemma ApplyKeepsOrder(env: Env, s: State, op: Op)
    requires Inv(s) && Apply(env, s, op).Some? && !ReachesPastSentinel(s, op)
    ensures var r := Apply(env, s, op).value;
      if Uses(r, op) then MovesToEnd(ByAge(s), ByAge(r), op.id) else KeepsOrder(ByAge(s), ByAge(r))
  {
    hide Inv, KeepsOrder, MovesToEnd, Infer, KillSession, EvictCold, EvictHot, Activate, ByAge, ReachesBehind;
    match op
    case Create(id) => CreateKeepsOrder(env, s, id);
    case Kill(id) => KillTakesOut(s, id);
    case HotLimit(count) => HotLimitKeepsOrder(env, s, count);
    case ColdLimit(bytes) => ColdLimitKeepsOrder(s, bytes);
    case Inference(id, prompt, maxTokens) =>
      InferAnswers(env, s, id, prompt, maxTokens);
      if Activate(env, s, id).Active? {
        InferRefreshes(env, s, id, prompt, maxTokens);
      } else {
        InferRefused(env, s, id, prompt, maxTokens);
      }
  }

  lemma InferAnswers(env: Env, s: State, id: int, prompt: seq<Token>, maxTokens: nat)
    requires Inv(s)
    ensures Infer(env, s, id, prompt, maxTokens).Answer? <==> !Activate(env, s, id).Dangling?
  {
    hide Inv, Activate, Generate;
  }

  lemma CreateKeepsOrder(env: Env, s: State, id: int)
    requires Inv(s)
    ensures KeepsOrder(ByAge(s), ByAge(CreateSession(env, s, id)))
  {
    hide Inv, KeepsOrder;
    SameIdsKeepOrder(ByAge(s), ByAge(s));
  }

  lemma HotLimitKeepsOrder(env: Env, s: State, count: nat)
    requires Inv(s) && !ReachesBehind(s.hot, if count < 1 then 1 else count, -1)
    ensures KeepsOrder(ByAge(s), ByAge(SetHotLimit(env, s, count)))
  {
    hide Inv, KeepsOrder, EvictHot, ReachesBehind;
    EvictHotKeepsOrder(env, Limited(s, count), -1);
  }

  lemma ColdLimitKeepsOrder(s: State, bytes: nat)
    requires Inv(s)
    ensures KeepsOrder(ByAge(s), ByAge(SetColdLimit(s, bytes)))
  {
    hide Inv, KeepsOrder, EvictCold;
    EvictColdKeepsOrder(Budgeted(s, bytes), -1);
  }

  lemma ApplyStamps(env: Env, s: State, op: Op)
    requires Inv(s) && Apply(env, s, op).Some?
    ensures var r := Apply(env, s, op).value;
      && (forall k :: k in r.sessions && k in s.sessions && !(Uses(r, op) && k == op.id) ==>
            r.sessions[k].lastUsedMs == s.sessions[k].lastUsedMs)
      && (Uses(r, op) ==> StampedIn(env, r.sessions[op.id].lastUsedMs, s.w.tick, r.w.tick))
  {
    hide Inv, MovesToEnd, KeepsOrder, Infer, EvictCold, EvictHot, Activate, StampedIn;
    match op
    case Create(id) =>
    case Kill(id) =>
    case HotLimit(count) => EvictHotKeepsStamps(env, Limited(s, count), -1);
    case ColdLimit(bytes) => EvictColdLosesOnlyCold(Budgeted(s, bytes), -1);
    case Inference(id, prompt, maxTokens) =>
      InferAnswers(env, s, id, prompt, maxTokens);
      if Activate(env, s, id).Active? {
        InferRefreshes(env, s, id, prompt, maxTokens);
      } else {
        InferRefused(env, s, id, prompt, maxTokens);
      }
  }

  // ---- every run ----

  /** The call that used session `id` last: the last inference on it that left it HOT; -1 if there was none. */
  ghost function LastUse(env: Env, swapDir: string, nCtx: nat, ops: seq<Op>, id: int): (n: int)
    ensures -1 <= n < |ops|
  {
    if ops == [] then -1
    else if UsedLast(env, swapDir, nCtx, ops, id) then |ops| - 1
    else LastUse(env, swapDir, nCtx, ops[..|ops| - 1], id)
  }

  ghost predicate UsedLast(env: Env, swapDir: string, nCtx: nat, ops: seq<Op>, id: int)
    requires ops != []
  {
    var r, op := Exec(env, swapDir, nCtx, ops), ops[|ops| - 1];
    r.Live? && Uses(r.s, op) && op.id == id
  }

  /** The last inference on `id` among the calls, refused or not. */
  function LastInference(ops: seq<Op>, id: int): int {
    if ops == [] then -1
    else
      var op := ops[|ops| - 1];
      if op.Inference? && op.id == id then |ops| - 1 else LastInference(ops[..|ops| - 1], id)
  }

  /** No inference on `id` was refused. */
  ghost predicate NeverRefused(env: Env, swapDir: string, nCtx: nat, ops: seq<Op>, id: int) {
    forall n :: 0 <= n < |ops| && ops[n].Inference? && ops[n].id == id ==> UsedLast(env, swapDir, nCtx, ops[..n + 1], id)
  }

  lemma UsedByInference(env: Env, swapDir: string, nCtx: nat, ops: seq<Op>, id: int)
    requires ops != [] && UsedLast(env, swapDir, nCtx, ops, id)
    ensures ops[|ops| - 1].Inference? && ops[|ops| - 1].id == id
  {
    hide Exec, IsHot;
  }

  lemma NeverRefusedBefore(env: Env, swapDir: string, nCtx: nat, ops: seq<Op>, id: int)
    requires ops != [] && NeverRefused(env, swapDir, nCtx, ops, id)
    ensures NeverRefused(env, swapDir, nCtx, ops[..|ops| - 1], id)
    ensures var op := ops[|ops| - 1]; op.Inference? && op.id == id ==> UsedLast(env, swapDir, nCtx, ops, id)
  {
    hide UsedLast;
    var before := ops[..|ops| - 1];
    assert ops[..|ops| - 1 + 1] == ops;
    forall n | 0 <= n < |before| && before[n].Inference? && before[n].id == id
      ensures UsedLast(env, swapDir, nCtx, before[..n + 1], id)
    {
      assert before[..n + 1] == ops[..n + 1];
    }
  }

  /** A session whose inferences are not refused was used last by the last of them: the calls alone tell. */
  lemma {:induction false} LastUseIsLastInference(env: Env, swapDir: string, nCtx: nat, ops: seq<Op>, id: int)
    requires NeverRefused(env, swapDir, nCtx, ops, id)
    ensures LastUse(env, swapDir, nCtx, ops, id) == LastInference(ops, id)
    decreases |ops|
  {
    if ops == [] {
    } else {
      var before, op := ops[..|ops| - 1], ops[|ops| - 1];
      NeverRefusedBefore(env, swapDir, nCtx, ops, id);
      LastUseIsLastInference(env, swapDir, nCtx, before, id);
      hide NeverRefused;
      if UsedLast(env, swapDir, nCtx, ops, id) {
        UsedByInference(env, swapDir, nCtx, ops, id);
      }
      hide UsedLast;
    }
  }

  /** Whoever is listed was used, and whoever stands before another was used before it. */
  ghost predicate InUseOrder(env: Env, swapDir: string, nCtx: nat, ops: seq<Op>) {
    var r := Exec(env, swapDir, nCtx, ops);
    r.Live? ==>
      && (forall x :: Listed(ByAge(r.s), x) ==> LastUse(env, swapDir, nCtx, ops, x) >= 0)
      && (forall x, y :: Precedes(ByAge(r.s), x, y) ==>
            LastUse(env, swapDir, nCtx, ops, x) < LastUse(env, swapDir, nCtx, ops, y))
  }

  ghost predicate ReachesPastAfter(env: Env, swapDir: string, nCtx: nat, ops: seq<Op>, op: Op) {
    var r := Exec(env, swapDir, nCtx, ops); r.Live? && ReachesPastSentinel(r.s, op)
  }

  lemma OneMoreUseOf(env: Env, swapDir: string, nCtx: nat, ops: seq<Op>, op: Op, id: int)
    ensures LastUse(env, swapDir, nCtx, ops + [op], id) ==
            if UsedLast(env, swapDir, nCtx, ops + [op], id) then |ops| else LastUse(env, swapDir, nCtx, ops, id)
  {
    hide UsedLast;
    assert (ops + [op])[..|ops|] == ops;
  }

  lemma UseOrderOneMore(env: Env, swapDir: string, nCtx: nat, ops: seq<Op>, op: Op)
    requires InUseOrder(env, swapDir, nCtx, ops) && !ReachesPastAfter(env, swapDir, nCtx, ops, op)
    ensures InUseOrder(env, swapDir, nCtx, ops + [op])
  {
    hide Exec, Inv, Apply, Noted, KeepsOrder, MovesToEnd, IsHot, LastUse, Listed, Precedes, ReachesPastSentinel, ByAge;
    var r := Exec(env, swapDir, nCtx, ops);
    ExecOneMore(env, swapDir, nCtx, ops, op);
    if r.Live? && Apply(env, r.s, op).Some? {
      var q := Apply(env, r.s, op).value;
      var l, m := ByAge(r.s), ByAge(q);
      ApplyKeepsOrder(env, r.s, op);
      forall x | Listed(m, x)
        ensures LastUse(env, swapDir, nCtx, ops + [op], x) >= 0
      {
        OneMoreUseOf(env, swapDir, nCtx, ops, op, x);
        StillListed(l, m, x, Uses(q, op), op);
      }
      forall x, y | Precedes(m, x, y)
        ensures LastUse(env, swapDir, nCtx, ops + [op], x) < LastUse(env, swapDir, nCtx, ops + [op], y)
      {
        OneMoreUseOf(env, swapDir, nCtx, ops, op, x);
        OneMoreUseOf(env, swapDir, nCtx, ops, op, y);
        StillPrecedes(l, m, x, y, Uses(q, op), op);
      }
    }
  }

  lemma StillListed(l: seq<Node>, m: seq<Node>, x: int, used: bool, op: Op)
    requires used ==> op.Inference?
    requires if used then MovesToEnd(l, m, op.id) else KeepsOrder(l, m)
    requires Listed(m, x)
    ensures (used && op.id == x) || Listed(l, x)
  {
    if used && op.id != x {
      ListedBeforeEnd(m, x, op.id);
    }
    hide Listed;
  }

  lemma StillPrecedes(l: seq<Node>, m: seq<Node>, x: int, y: int, used: bool, op: Op)
    requires used ==> op.Inference?
    requires if used then MovesToEnd(l, m, op.id) else KeepsOrder(l, m)
    requires Precedes(m, x, y)
    ensures used ==> x != op.id
    ensures (used && op.id == y) || Precedes(l, x, y)
  {
    hide Listed, Precedes;
    if used {
      PrecedesBeforeEnd(m, x, y, op.id);
    }
  }

  /** While saves succeed, a new limit that reaches past session -1 puts somebody used after it into the COLD list. */
  lemma ReachingPastBreaksOrder(env: Env, swapDir: string, nCtx: nat, ops: seq<Op>, op: Op)
    requires SavesNeverFail(env) && InUseOrder(env, swapDir, nCtx, ops)
    requires ReachesPastAfter(env, swapDir, nCtx, ops, op)
    ensures !InUseOrder(env, swapDir, nCtx, ops + [op])
  {
    hide Exec, Inv, Noted, LastUse, Listed, Precedes, ByAge, SavesNeverFail, EvictHot;
    var r := Exec(env, swapDir, nCtx, ops);
    ExecOneMore(env, swapDir, nCtx, ops, op);
    var y := Overtaken(env, r.s, op.count);
    OneMoreUseOf(env, swapDir, nCtx, ops, op, y);
    OneMoreUseOf(env, swapDir, nCtx, ops, op, -1);
    assert Precedes(ByAge(r.s), -1, y) && Precedes(ByAge(SetHotLimit(env, r.s, op.count)), y, -1);
  }

  lemma Overtaken(env: Env, s: State, count: nat) returns (y: int)
    requires Inv(s) && SavesNeverFail(env) && ReachesBehind(s.hot, if count < 1 then 1 else count, -1)
    ensures Precedes(ByAge(s), -1, y) && Precedes(ByAge(SetHotLimit(env, s, count)), y, -1)
  {
    hide Inv, EvictHot, SavesNeverFail;
    var s0 := Limited(s, count);
    var i :| 0 <= i < |s.hot| - 1 && s.hot[i].id == -1 && i + s0.hotLimit <= |s.hot|;
    var k := ReachesPast(env, s0, i, i + 1);
    y := s.hot[k].id;
    var r := EvictHot(env, s0, -1).s;
    var j :| 0 <= j < |r.hot| && r.hot[j] == s.hot[i];
    var l, m := ByAge(s), ByAge(r);
    assert l[|s.cold| + i].id == -1 && l[|s.cold| + k].id == y;
    assert m[|r.cold| - 1].id == y && m[|r.cold| + j].id == -1;
  }

  /** After every prefix of the calls. */
  ghost predicate UseOrderThroughout(env: Env, swapDir: string, nCtx: nat, ops: seq<Op>) {
    forall n :: 0 <= n <= |ops| ==> InUseOrder(env, swapDir, nCtx, ops[..n])
  }

  ghost predicate NeverReachesPast(env: Env, swapDir: string, nCtx: nat, ops: seq<Op>) {
    forall n :: 0 <= n < |ops| ==> !ReachesPastAfter(env, swapDir, nCtx, ops[..n], ops[n])
  }

  lemma UseOrderAtStart(env: Env, swapDir: string, nCtx: nat)
    ensures UseOrderThroughout(env, swapDir, nCtx, []) && NeverReachesPast(env, swapDir, nCtx, [])
  {
    hide InUseOrder, ReachesPastAfter;
    UseOrderFresh(env, swapDir, nCtx);
    var none: seq<Op> := [];
    assert none[..0] == none;
  }

  lemma UseOrderFresh(env: Env, swapDir: string, nCtx: nat)
    ensures InUseOrder(env, swapDir, nCtx, [])
  {
    hide Step, Inv;
  }

  lemma UseOrderSplits(env: Env, swapDir: string, nCtx: nat, ops: seq<Op>, op: Op)
    ensures UseOrderThroughout(env, swapDir, nCtx, ops + [op]) <==>
            UseOrderThroughout(env, swapDir, nCtx, ops) && InUseOrder(env, swapDir, nCtx, ops + [op])
    ensures NeverReachesPast(env, swapDir, nCtx, ops + [op]) <==>
            NeverReachesPast(env, swapDir, nCtx, ops) && !ReachesPastAfter(env, swapDir, nCtx, ops, op)
    ensures UseOrderThroughout(env, swapDir, nCtx, ops) ==> InUseOrder(env, swapDir, nCtx, ops)
  {
    hide InUseOrder, ReachesPastAfter;
    assert ops[..|ops|] == ops;
    var all := ops + [op];
    assert all[..|all|] == all && all[..|ops|] == ops && all[|ops|] == op;
    forall n | 0 <= n <= |ops|
      ensures all[..n] == ops[..n]
    {
    }
  }

  /**
   Without any assumption on the clock, and whatever fails: throughout a run every listed session was used, and
   the COLD list followed by the HOT list is strictly sorted by the call that used each session last, if no new
   HOT limit reaches past a HOT session -1; while saves succeed, only then.
   */
  lemma {:induction false} UseOrderInEveryRun(env: Env, swapDir: string, nCtx: nat, ops: seq<Op>)
    ensures NeverReachesPast(env, swapDir, nCtx, ops) ==> UseOrderThroughout(env, swapDir, nCtx, ops)
    ensures SavesNeverFail(env) && UseOrderThroughout(env, swapDir, nCtx, ops) ==> NeverReachesPast(env, swapDir, nCtx, ops)
    decreases |ops|
  {
    hide InUseOrder, ReachesPastAfter, UseOrderThroughout, NeverReachesPast, SavesNeverFail;
    if ops == [] {
      UseOrderAtStart(env, swapDir, nCtx);
    } else {
      var before, op := ops[..|ops| - 1], ops[|ops| - 1];
      UseOrderInEveryRun(env, swapDir, nCtx, before);
      assert ops == before + [op];
      UseOrderSplits(env, swapDir, nCtx, before, op);
      if InUseOrder(env, swapDir, nCtx, before) {
        if !ReachesPastAfter(env, swapDir, nCtx, before, op) {
          UseOrderOneMore(env, swapDir, nCtx, before, op);
        } else if SavesNeverFail(env) {
          ReachingPastBreaksOrder(env, swapDir, nCtx, before, op);
        }
      }
    }
  }

  /** The HOT victim is the HOT session whose last inference lies furthest back. */
  lemma VictimWasUsedFirst(env: Env, swapDir: string, nCtx: nat, ops: seq<Op>, excludeId: int, other: int)
    requires Exec(env, swapDir, nCtx, ops).Live? && NeverReachesPast(env, swapDir, nCtx, ops)
    requires var s := Exec(env, swapDir, nCtx, ops).s; !IsHot(s, excludeId) && IsHot(s, other)
    ensures var s := Exec(env, swapDir, nCtx, ops).s; var victim := HotVictim(s.hot, excludeId);
      && IsHot(s, victim)
      && (victim != other ==> LastUse(env, swapDir, nCtx, ops, victim) < LastUse(env, swapDir, nCtx, ops, other))
  {
    hide Exec, Inv, LastUse, HotVictim, NeverReachesPast, UseOrderThroughout, Precedes, Listed;
    var s := Exec(env, swapDir, nCtx, ops).s;
    UseOrderInEveryRun(env, swapDir, nCtx, ops);
    UseOrderNow(env, swapDir, nCtx, ops);
    FrontPrecedes(s, excludeId, other);
  }

  lemma UseOrderNow(env: Env, swapDir: string, nCtx: nat, ops: seq<Op>)
    requires UseOrderThroughout(env, swapDir, nCtx, ops)
    ensures InUseOrder(env, swapDir, nCtx, ops)
  {
    hide InUseOrder;
    assert ops[..|ops|] == ops;
  }

  lemma FrontPrecedes(s: State, excludeId: int, other: int)
    requires Inv(s) && !IsHot(s, excludeId) && IsHot(s, other)
    ensures var victim := HotVictim(s.hot, excludeId);
      IsHot(s, victim) && (victim != other ==> Precedes(ByAge(s), victim, other))
  {
    hide Inv, HotVictim, IsHot, NobodySkipped, ByAge, Precedes;
    var i := HotIndex(s, other);
    NotHotNotSkipped(s, excludeId);
    FrontIsVictim(s, excludeId);
    HotInOrder(s, 0, i);
  }

  lemma NotHotNotSkipped(s: State, id: int)
    requires !IsHot(s, id)
    ensures NobodySkipped(s, id)
  {
  }

  lemma HotInOrder(s: State, i: nat, j: nat)
    requires i < |s.hot| && j < |s.hot|
    ensures i < j ==> Precedes(ByAge(s), s.hot[i].id, s.hot[j].id)
  {
    var l := ByAge(s);
    assert l[|s.cold| + i] == s.hot[i] && l[|s.cold| + j] == s.hot[j];
  }

  /** Whoever a new budget kills was used before every listed session that is kept, session -1 aside. */
  lemma KilledWereUsedFirst(env: Env, swapDir: string, nCtx: nat, ops: seq<Op>, bytes: nat, dead: int, kept: int)
    requires Exec(env, swapDir, nCtx, ops).Live? && NeverReachesPast(env, swapDir, nCtx, ops)
    requires var s := Exec(env, swapDir, nCtx, ops).s; var r := SetColdLimit(s, bytes);
      && dead in s.sessions && dead !in r.sessions && kept in r.sessions && kept != -1
      && (IsHot(s, kept) || IsSwapped(s, kept))
    ensures LastUse(env, swapDir, nCtx, ops, dead) < LastUse(env, swapDir, nCtx, ops, kept)
  {
    hide Exec, Inv, LastUse, NeverReachesPast, UseOrderThroughout, Precedes, Listed, SetColdLimit;
    var s := Exec(env, swapDir, nCtx, ops).s;
    UseOrderInEveryRun(env, swapDir, nCtx, ops);
    UseOrderNow(env, swapDir, nCtx, ops);
    DeadPrecedesKept(s, bytes, dead, kept);
  }

  lemma DeadPrecedesKept(s: State, bytes: nat, dead: int, kept: int)
    requires Inv(s)
    requires var r := SetColdLimit(s, bytes);
      && dead in s.sessions && dead !in r.sessions && kept in r.sessions && kept != -1
      && (IsHot(s, kept) || IsSwapped(s, kept))
    ensures Precedes(ByAge(s), dead, kept)
  {
    hide Inv, SetColdLimit, SumBytes, Ids, IsSwapped;
    NewBudget(s, bytes);
    var d := SwappedIndex(s, dead);
    var l := ByAge(s);
    assert l[d] == s.cold[d];
    if IsHot(s, kept) {
      var i := HotIndex(s, kept);
      assert l[|s.cold| + i] == s.hot[i];
    } else {
      var k := SwappedIndex(s, kept);
      assert l[k] == s.cold[k];
      if k < d {
        BesideShrinks(s, k, d);
      }
    }
  }

  lemma BesideShrinks(s: State, k: nat, d: nat)
    requires k <= d < |s.cold|
    ensures Beside(s, -1, d) <= Beside(s, -1, k)
  {
    var between := s.cold[k..d];
    assert s.cold[k..] == between + s.cold[d..] && s.cold[..d] == s.cold[..k] + between;
    SumAppend(s.sessions, between, s.cold[d..]);
    hide SumBytes;
    var before, ids := Ids(s.cold[..k]), Ids(s.cold[..d]);
    if -1 in ids {
      var i :| 0 <= i < d && ids[i] == -1;
      if i < k {
        assert before[i] == -1;
      } else {
        SumOfOne(s.sessions, between, i - k);
      }
    }
  }

  // ---- the stamps ----

  /** The stamp of `id` is the time of the call that used it last. */
  ghost predicate StampOfLastUse(env: Env, swapDir: string, nCtx: nat, ops: seq<Op>, id: int, stamp: int) {
    var n := LastUse(env, swapDir, nCtx, ops, id);
    n >= 0 && DuringCall(env, swapDir, nCtx, ops, n, stamp)
  }

  ghost predicate DuringCall(env: Env, swapDir: string, nCtx: nat, ops: seq<Op>, n: nat, stamp: int)
    requires n < |ops|
  {
    var s, r := Exec(env, swapDir, nCtx, ops[..n]), Exec(env, swapDir, nCtx, ops[..n + 1]);
    s.Live? && r.Live? && StampedIn(env, stamp, s.s.w.tick, r.s.w.tick)
  }

  ghost predicate StampsAreOfLastUse(env: Env, swapDir: string, nCtx: nat, ops: seq<Op>) {
    var r := Exec(env, swapDir, nCtx, ops);
    r.Live? ==> forall x :: Listed(ByAge(r.s), x) ==>
      x in r.s.sessions && StampOfLastUse(env, swapDir, nCtx, ops, x, r.s.sessions[x].lastUsedMs)
  }

  lemma StillDuring(env: Env, swapDir: string, nCtx: nat, ops: seq<Op>, op: Op, n: nat, stamp: int)
    requires n < |ops| && DuringCall(env, swapDir, nCtx, ops, n, stamp)
    ensures DuringCall(env, swapDir, nCtx, ops + [op], n, stamp)
  {
    hide Exec;
    assert (ops + [op])[..n] == ops[..n] && (ops + [op])[..n + 1] == ops[..n + 1];
  }

  lemma DuringLastCall(env: Env, swapDir: string, nCtx: nat, ops: seq<Op>, op: Op, stamp: int)
    requires var s, r := Exec(env, swapDir, nCtx, ops), Exec(env, swapDir, nCtx, ops + [op]);
      s.Live? && r.Live? && StampedIn(env, stamp, s.s.w.tick, r.s.w.tick)
    ensures DuringCall(env, swapDir, nCtx, ops + [op], |ops|, stamp)
  {
    hide Exec;
    assert (ops + [op])[..|ops|] == ops && (ops + [op])[..|ops| + 1] == ops + [op];
  }

  lemma ListedIsPlaced(s: State, x: int)
    requires Inv(s)
    ensures Listed(ByAge(s), x) <==> x in s.sessions && s.sessions[x].Place() != Unlisted
  {
    ListedInEither(s.cold, s.hot, x);
    ListedMeansPlaced(s.sessions, s.cold, InColdList, x);
    ListedMeansPlaced(s.sessions, s.hot, InHotList, x);
    hide Listed, ListOk;
  }

  lemma ListedInEither(a: seq<Node>, b: seq<Node>, x: int)
    ensures Listed(a + b, x) <==> Listed(a, x) || Listed(b, x)
  {
    var l := a + b;
    assert forall i :: 0 <= i < |a| ==> l[i] == a[i];
    assert forall i :: 0 <= i < |b| ==> l[|a| + i] == b[i];
  }

  lemma ListedMeansPlaced(ss: Sessions, l: seq<Node>, p: Place, x: int)
    requires ListOk(ss, l, p)
    ensures Listed(l, x) <==> x in ss && ss[x].Place() == p
  {
    if i :| 0 <= i < |l| && l[i].id == x {
      assert l[i] in l;
    }
  }

  lemma LimitAddsNobody(env: Env, s: State, count: nat, x: int)
    requires Inv(s) && Listed(ByAge(SetHotLimit(env, s, count)), x)
    ensures Listed(ByAge(s), x)
  {
    var s0 := Limited(s, count);
    hide Inv, EvictHot, Listed, ByAge;
    ListedIsPlaced(SetHotLimit(env, s, count), x);
    EvictHotAddsNobody(env, s0, -1);
    if !IsHot(s, x) {
      EvictHotLeavesCold(env, s0, -1, x);
    }
    ListedIsPlaced(s, x);
  }

  /** Who is listed after a call was used by it or listed before it. */
  lemma ListedBefore(env: Env, s: State, op: Op, x: int)
    requires Inv(s) && Apply(env, s, op).Some? && Listed(ByAge(Apply(env, s, op).value), x)
    ensures (Uses(Apply(env, s, op).value, op) && op.id == x) || Listed(ByAge(s), x)
  {
    hide Inv, Apply, MovesToEnd, IsHot, Listed, ByAge, KeepsOrder;
    if op.HotLimit? {
      LimitIsApplied(env, s, op.count);
      LimitAddsNobody(env, s, op.count, x);
    } else {
      ApplyKeepsOrder(env, s, op);
      StillListed(ByAge(s), ByAge(Apply(env, s, op).value), x, Uses(Apply(env, s, op).value, op), op);
    }
  }

  lemma LimitIsApplied(env: Env, s: State, count: nat)
    requires Inv(s)
    ensures Apply(env, s, HotLimit(count)) == Some(SetHotLimit(env, s, count))
  {
    hide Inv, SetHotLimit;
  }

  lemma StampsOneMore(env: Env, swapDir: string, nCtx: nat, ops: seq<Op>, op: Op)
    requires StampsAreOfLastUse(env, swapDir, nCtx, ops)
    ensures StampsAreOfLastUse(env, swapDir, nCtx, ops + [op])
  {
    hide Exec, Inv, Apply, Noted, IsHot, LastUse, Listed, ByAge, StampedIn, DuringCall;
    var r := Exec(env, swapDir, nCtx, ops);
    ExecOneMore(env, swapDir, nCtx, ops, op);
    if r.Live? && Apply(env, r.s, op).Some? {
      var q := Apply(env, r.s, op).value;
      ApplyStamps(env, r.s, op);
      forall x | Listed(ByAge(q), x)
        ensures x in q.sessions && StampOfLastUse(env, swapDir, nCtx, ops + [op], x, q.sessions[x].lastUsedMs)
      {
        ListedIsPlaced(q, x);
        ListedBefore(env, r.s, op, x);
        OneMoreUseOf(env, swapDir, nCtx, ops, op, x);
        var stamp := q.sessions[x].lastUsedMs;
        if Uses(q, op) && op.id == x {
          DuringLastCall(env, swapDir, nCtx, ops, op, stamp);
        } else {
          StillDuring(env, swapDir, nCtx, ops, op, LastUse(env, swapDir, nCtx, ops, x), stamp);
        }
      }
    }
  }

  /** In every run the stamp of a HOT or swapped session is the time at some tick of the call that used it last. */
  lemma {:induction false} StampsInEveryRun(env: Env, swapDir: string, nCtx: nat, ops: seq<Op>)
    ensures StampsAreOfLastUse(env, swapDir, nCtx, ops)
    decreases |ops|
  {
    hide StampsAreOfLastUse;
    if ops == [] {
      StampsFresh(env, swapDir, nCtx);
    } else {
      var before, op := ops[..|ops| - 1], ops[|ops| - 1];
      StampsInEveryRun(env, swapDir, nCtx, before);
      StampsOneMore(env, swapDir, nCtx, before, op);
      assert ops == before + [op];
    }
  }

  lemma StampsFresh(env: Env, swapDir: string, nCtx: nat)
    ensures StampsAreOfLastUse(env, swapDir, nCtx, [])
  {
    hide Step, Inv;
  }
}
