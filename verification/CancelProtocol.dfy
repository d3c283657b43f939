/**
 The HAL's cancel protocol: `inferStream` threads and `cancel` calls interleaving over the shared
 map of cancel flags, one step per critical section, flag load or callback.
 */
module CancelProtocol {

  /**
   Where the thread of a request stands. `Head(i)` is the test at the top of the decode loop,
   `Sampling(i)` follows a flag load that read false, `Emitted(i)` the token callback.
   */
  datatype Phase =
    | Starting
    | Head(i: nat)
    | Sampling(i: nat)
    | Emitted(i: nat)
    | Returned(ok: bool)
    | Unlisted(ok: bool)
    | Finished

  datatype Terminal = OnComplete | OnError

  /** `flag` is the request's own `atomic<bool>`; `callbacks` are the terminal callbacks made. */
  datatype Req = Req(session: int, maxTokens: nat, phase: Phase, flag: bool, tokens: nat, callbacks: seq<Terminal>)

  /** `table` maps a session to the request whose flag is stored for it. */
  datatype State = State(reqs: seq<Req>, table: map<int, nat>)

  datatype Action =
    | Register(session: int, maxTokens: nat)
    | Begin(r: nat, ready: bool)
    | Check(r: nat)
    | Token(r: nat, endOfText: bool)
    | Decode(r: nat, decoded: bool)
    | Erase(r: nat)
    | Callback(r: nat)
    | Cancel(session: int)

  const START := State([], map[])

  predicate Enabled(s: State, a: Action) {
    match a
    case Register(_, _) => true
    case Begin(r, _) => r < |s.reqs| && s.reqs[r].phase.Starting?
    case Check(r) => r < |s.reqs| && s.reqs[r].phase.Head?
    case Token(r, _) => r < |s.reqs| && s.reqs[r].phase.Sampling?
    case Decode(r, _) => r < |s.reqs| && s.reqs[r].phase.Emitted?
    case Erase(r) => r < |s.reqs| && s.reqs[r].phase.Returned?
    case Callback(r) => r < |s.reqs| && s.reqs[r].phase.Unlisted?
    case Cancel(_) => true
  }

  function SetReq(s: State, r: nat, q: Req): State
    requires r < |s.reqs|
  {
    s.(reqs := s.reqs[r := q])
  }

  function Next(s: State, a: Action): State
    requires Enabled(s, a)
  {
    match a
    case Register(session, maxTokens) =>
      State(s.reqs + [Req(session, maxTokens, Starting, false, 0, [])], s.table[session := |s.reqs|])
    case Begin(r, ready) =>
      SetReq(s, r, s.reqs[r].(phase := if ready then Head(0) else Returned(false)))
    case Check(r) =>
      var q := s.reqs[r];
      SetReq(s, r, q.(phase := if q.phase.i >= q.maxTokens || q.flag then Returned(true) else Sampling(q.phase.i)))
    case Token(r, endOfText) =>
      var q := s.reqs[r];
      SetReq(s, r, if endOfText then q.(phase := Returned(true)) else q.(phase := Emitted(q.phase.i), tokens := q.tokens + 1))
    case Decode(r, decoded) =>
      var q := s.reqs[r];
      SetReq(s, r, q.(phase := if decoded then Head(q.phase.i + 1) else Returned(true)))
    case Erase(r) =>
      var q := s.reqs[r];
      SetReq(s, r, q.(phase := Unlisted(q.phase.ok))).(table := s.table - {q.session})
    case Callback(r) =>
      var q := s.reqs[r];
      SetReq(s, r, q.(phase := Finished, callbacks := q.callbacks + [if q.phase.ok then OnComplete else OnError]))
    case Cancel(session) =>
      if session in s.table && s.table[session] < |s.reqs|
      then SetReq(s, s.table[session], s.reqs[s.table[session]].(flag := true))
      else s
  }

  /** Every action of the trace is enabled where it is taken. */
  ghost predicate Possible(s: State, trace: seq<Action>)
    decreases |trace|, 0
  {
    trace == [] || (Possible(s, Init(trace)) && Enabled(Run(s, Init(trace)), Last(trace)))
  }

  ghost function Run(s: State, trace: seq<Action>): State
    requires Possible(s, trace)
    decreases |trace|, 1
  {
    if trace == [] then s else Next(Run(s, Init(trace)), Last(trace))
  }

  function Init(trace: seq<Action>): (t: seq<Action>)
    requires trace != []
    ensures |t| < |trace|
  {
    trace[..|trace| - 1]
  }

  function Last(trace: seq<Action>): Action
    requires trace != []
  {
    trace[|trace| - 1]
  }

  // ---- the table ----

  predicate InFlight(q: Req) {
    !q.phase.Unlisted? && !q.phase.Finished?
  }

  /** What one entry promises: the youngest request of that session, not yet past its erase. */
  ghost predicate EntryOk(s: State, session: int)
    requires session in s.table
  {
    var r := s.table[session];
    && r < |s.reqs| && s.reqs[r].session == session && InFlight(s.reqs[r])
    && forall k :: r < k < |s.reqs| ==> s.reqs[k].session != session
  }

  ghost predicate TableOk(s: State) {
    forall session :: session in s.table ==> EntryOk(s, session)
  }

  lemma NextKeepsTableOk(s: State, a: Action)
    requires TableOk(s) && Enabled(s, a)
    ensures TableOk(Next(s, a))
  {
  }

  /**
   In every interleaving, the flag stored for a session belongs to the youngest request made for
   it, and that request has not erased its entry yet; so without requests in flight the table is empty.
   */
  lemma {:induction false} TableInEveryRun(trace: seq<Action>)
    requires Possible(START, trace)
    ensures var s := Run(START, trace);
      && TableOk(s)
      && ((forall r :: 0 <= r < |s.reqs| ==> !InFlight(s.reqs[r])) ==> s.table == map[])
    decreases |trace|
  {
    if trace == [] {
    } else {
      TableInEveryRun(Init(trace));
      NextKeepsTableOk(Run(START, Init(trace)), Last(trace));
    }
    var s := Run(START, trace);
    if forall r :: 0 <= r < |s.reqs| ==> !InFlight(s.reqs[r]) {
      assert forall session :: session in s.table ==> EntryOk(s, session);
      assert forall session :: session !in s.table;
    }
  }

  /** `cancel(session)` would set the flag of request `r`. */
  predicate Reaches(s: State, session: int, r: nat) {
    session in s.table && s.table[session] == r
  }

  /** Action `j` of the trace overwrites or erases the entry of `session`. */
  ghost predicate Disturbs(trace: seq<Action>, j: nat, session: int)
    requires Possible(START, trace) && j < |trace|
  {
    PrefixPossible(trace, j);
    match trace[j]
    case Register(other, _) => other == session
    case Erase(q) => q < |Run(START, trace[..j]).reqs| && Run(START, trace[..j]).reqs[q].session == session
    case _ => false
  }

  /** Action `k` of the trace is the one that made request `r`, for `session`. */
  ghost predicate Registers(trace: seq<Action>, k: nat, session: int, r: nat)
    requires Possible(START, trace) && k < |trace|
  {
    PrefixPossible(trace, k);
    trace[k].Register? && trace[k].session == session && |Run(START, trace[..k]).reqs| == r
  }

  lemma {:induction false} PrefixPossible(trace: seq<Action>, j: nat)
    requires Possible(START, trace) && j <= |trace|
    ensures Possible(START, trace[..j])
    decreases |trace|
  {
    if j < |trace| {
      assert trace[..j] == Init(trace)[..j];
      PrefixPossible(Init(trace), j);
    } else {
      assert trace[..j] == trace;
    }
  }

  lemma SamePrefix(trace: seq<Action>, j: nat, session: int, r: nat)
    requires trace != [] && Possible(START, trace) && j < |trace| - 1
    ensures Possible(START, Init(trace))
    ensures Disturbs(trace, j, session) <==> Disturbs(Init(trace), j, session)
    ensures Registers(trace, j, session, r) <==> Registers(Init(trace), j, session, r)
  {
    assert Init(trace)[..j] == trace[..j];
    PrefixPossible(trace, j);
  }

  /** `r` was registered at `k`, and nothing has disturbed its entry since. */
  ghost predicate ListedSince(trace: seq<Action>, k: nat, session: int, r: nat)
    requires Possible(START, trace) && k < |trace|
  {
    Registers(trace, k, session, r) && forall j :: k < j < |trace| ==> !Disturbs(trace, j, session)
  }

  /** What the last action does to the entry that a cancel would find. */
  lemma LastAction(trace: seq<Action>, session: int, r: nat)
    requires trace != [] && Possible(START, trace)
    ensures var n := |trace| - 1; var now, before := Run(START, trace), Run(START, Init(trace));
      && (Disturbs(trace, n, session) ==> (Reaches(now, session, r) <==> Registers(trace, n, session, r)))
      && (!Disturbs(trace, n, session) ==> (Reaches(now, session, r) <==> Reaches(before, session, r)))
      && (Registers(trace, n, session, r) ==> Disturbs(trace, n, session))
  {
    assert trace[..|trace| - 1] == Init(trace);
  }

  lemma ListedEarlier(trace: seq<Action>, k: nat, session: int, r: nat)
    requires Possible(START, trace) && k < |trace| - 1
    ensures Possible(START, Init(trace))
    ensures ListedSince(trace, k, session, r) <==>
            ListedSince(Init(trace), k, session, r) && !Disturbs(trace, |trace| - 1, session)
  {
    hide Disturbs, Registers, Run, Possible;
    SamePrefix(trace, k, session, r);
    forall j | k < j < |trace| - 1
      ensures Disturbs(trace, j, session) <==> Disturbs(Init(trace), j, session)
    {
      SamePrefix(trace, j, session, r);
    }
  }

  /**
   A cancel reaches a request if and only if, since the request was registered, no other request for
   the same session was registered and no request of that session, itself included, erased the entry.
   */
  lemma {:induction false} CancelReachesExactlyWhen(trace: seq<Action>, session: int, r: nat)
    requires Possible(START, trace)
    ensures Reaches(Run(START, trace), session, r) <==>
            exists k :: 0 <= k < |trace| && ListedSince(trace, k, session, r)
    decreases |trace|
  {
    if trace == [] {
    } else {
      hide Disturbs, Registers, Reaches, Run;
      var n := |trace| - 1;
      CancelReachesExactlyWhen(Init(trace), session, r);
      LastAction(trace, session, r);
      assert ListedSince(trace, n, session, r) <==> Registers(trace, n, session, r);
      hide ListedSince;
      forall k | 0 <= k < n
        ensures ListedSince(trace, k, session, r) <==>
                ListedSince(Init(trace), k, session, r) && !Disturbs(trace, n, session)
      {
        ListedEarlier(trace, k, session, r);
      }
    }
  }

  // ---- one request at a time ----

  ghost predicate Busy(s: State, session: int, r: int) {
    0 <= r < |s.reqs| && s.reqs[r].session == session && InFlight(s.reqs[r])
  }

  ghost predicate AtMostOne(s: State, session: int) {
    forall a, b :: Busy(s, session, a) && Busy(s, session, b) ==> a == b
  }

  /** At no point of the run has the session more than one request in flight. */
  ghost predicate OneAtATime(trace: seq<Action>, session: int)
    requires Possible(START, trace)
    decreases |trace|
  {
    AtMostOne(Run(START, trace), session) && (trace == [] || OneAtATime(Init(trace), session))
  }

  ghost predicate AllListed(s: State, session: int) {
    forall r :: Busy(s, session, r) ==> Reaches(s, session, r)
  }

  lemma {:induction false} SoleRequestIsReached(trace: seq<Action>, session: int)
    requires Possible(START, trace) && OneAtATime(trace, session)
    ensures AllListed(Run(START, trace), session)
    decreases |trace|
  {
    if trace == [] {
    } else {
      SoleRequestIsReached(Init(trace), session);
      NextKeepsListed(Run(START, Init(trace)), Last(trace), session);
    }
  }

  lemma NextKeepsListed(s: State, a: Action, session: int)
    requires Enabled(s, a) && AllListed(s, session) && AtMostOne(s, session) && AtMostOne(Next(s, a), session)
    ensures AllListed(Next(s, a), session)
  {
    var t := Next(s, a);
    forall r | Busy(t, session, r)
      ensures Reaches(t, session, r)
    {
      if a.Register? && a.session == session {
        assert Busy(t, session, |s.reqs|);
      } else {
        assert r < |s.reqs| ==> Busy(s, session, r);
        assert a.Erase? && s.reqs[a.r].session == session ==> Busy(s, session, a.r);
      }
    }
  }

  /** Two overlapping requests: the first one's erase removes the second one's entry. */
  function Overlap(): seq<Action> {
    [Register(7, 5), Register(7, 5), Begin(0, false), Erase(0)]
  }

  lemma OverlapLosesTheFlag()
    ensures Possible(START, Overlap())
    ensures var s := Run(START, Overlap());
      |s.reqs| == 2 && s.reqs[1].session == 7 && InFlight(s.reqs[1]) && 7 !in s.table && Next(s, Cancel(7)) == s
  {
    var a, b, c, d := Register(7, 5), Register(7, 5), Begin(0, false), Erase(0);
    RunSnoc([], a);
    RunSnoc([a], b);
    RunSnoc([a, b], c);
    RunSnoc([a, b, c], d);
    hide Run, Possible;
    assert [] + [a] == [a] && [a] + [b] == [a, b] && [a, b] + [c] == [a, b, c] && [a, b, c] + [d] == Overlap();
  }

  lemma RunSnoc(trace: seq<Action>, a: Action)
    ensures Possible(START, [])
    ensures Possible(START, trace) && Enabled(Run(START, trace), a) ==>
      Possible(START, trace + [a]) && Run(START, trace + [a]) == Next(Run(START, trace), a)
  {
  }

  // ---- what a request still does ----

  /** Tokens a request may still emit: at most one once its flag is set. */
  function TokensLeft(q: Req): nat {
    match q.phase
    case Starting => if q.flag then 0 else q.maxTokens
    case Head(i) => if q.flag || i >= q.maxTokens then 0 else q.maxTokens - i
    case Sampling(i) => if q.flag || i >= q.maxTokens then 1 else q.maxTokens - i
    case Emitted(i) => if q.flag || i + 1 >= q.maxTokens then 0 else q.maxTokens - i - 1
    case _ => 0
  }

  /** Steps a request's thread has left. */
  function StepsLeft(q: Req): nat {
    match q.phase
    case Starting => 4 + 3 * TokensLeft(q)
    case Head(_) => 3 + 3 * TokensLeft(q)
    case Sampling(_) => if TokensLeft(q) == 0 then 5 else 2 + 3 * TokensLeft(q)
    case Emitted(_) => 4 + 3 * TokensLeft(q)
    case Returned(_) => 2
    case Unlisted(_) => 1
    case Finished => 0
  }

  predicate IsStepOf(a: Action, r: nat) {
    match a
    case Begin(q, _) => q == r
    case Check(q) => q == r
    case Token(q, _) => q == r
    case Decode(q, _) => q == r
    case Erase(q) => q == r
    case Callback(q) => q == r
    case _ => false
  }

  function StepsOf(trace: seq<Action>, r: nat): nat {
    if trace == [] then 0 else StepsOf(Init(trace), r) + if IsStepOf(Last(trace), r) then 1 else 0
  }

  lemma NextSpends(s: State, a: Action, r: nat)
    requires Enabled(s, a) && r < |s.reqs|
    ensures var t := Next(s, a); var p, q := s.reqs[r], t.reqs[r];
      && q.tokens + TokensLeft(q) <= p.tokens + TokensLeft(p)
      && q.tokens >= p.tokens
      && (p.flag ==> q.flag)
      && StepsLeft(q) + (if IsStepOf(a, r) then 1 else 0) <= StepsLeft(p)
      && q.session == p.session && q.maxTokens == p.maxTokens
  {
  }

  /** From any state on, a request emits no more tokens and takes no more steps than it had left. */
  lemma {:induction false} RunSpends(s: State, trace: seq<Action>, r: nat)
    requires Possible(s, trace) && r < |s.reqs|
    ensures r < |Run(s, trace).reqs|
    ensures var p, q := s.reqs[r], Run(s, trace).reqs[r];
      && q.tokens + TokensLeft(q) <= p.tokens + TokensLeft(p)
      && StepsLeft(q) + StepsOf(trace, r) <= StepsLeft(p)
    decreases |trace|
  {
    if trace == [] {
    } else {
      RunSpends(s, Init(trace), r);
      NextSpends(Run(s, Init(trace)), Last(trace), r);
    }
  }

  /**
   Once a cancel has reached a request, whatever else happens the request emits at most one more
   token, none unless it had already passed the flag test, and its thread has at most five steps left.
   */
  lemma CancelStops(s: State, session: int, r: nat, trace: seq<Action>)
    requires TableOk(s) && Reaches(s, session, r) && Possible(Next(s, Cancel(session)), trace)
    ensures var t := Run(Next(s, Cancel(session)), trace);
      && r < |t.reqs|
      && t.reqs[r].tokens <= s.reqs[r].tokens + (if s.reqs[r].phase.Sampling? then 1 else 0)
      && StepsOf(trace, r) <= 5
      && (StepsOf(trace, r) == 5 ==> t.reqs[r].phase.Finished?)
  {
    assert EntryOk(s, session);
    RunSpends(Next(s, Cancel(session)), trace, r);
  }

  /** A request whose thread is scheduled often enough has finished, whatever else happens in between. */
  lemma FinishesWhenScheduled(s: State, trace: seq<Action>, r: nat)
    requires Possible(s, trace) && r < |s.reqs| && StepsOf(trace, r) >= StepsLeft(s.reqs[r])
    ensures r < |Run(s, trace).reqs| && Run(s, trace).reqs[r].phase.Finished?
  {
    hide Possible, Run, StepsOf;
    RunSpends(s, trace, r);
  }

  /** A request can be scheduled as long as it has not finished. */
  lemma UnfinishedCanStep(s: State, r: nat)
    requires r < |s.reqs|
    ensures s.reqs[r].phase.Finished? <==> forall a :: IsStepOf(a, r) ==> !Enabled(s, a)
  {
    match s.reqs[r].phase
    case Starting =>
      assert IsStepOf(Begin(r, true), r) && Enabled(s, Begin(r, true));
    case Head(_) =>
      assert IsStepOf(Check(r), r) && Enabled(s, Check(r));
    case Sampling(_) =>
      assert IsStepOf(Token(r, true), r) && Enabled(s, Token(r, true));
    case Emitted(_) =>
      assert IsStepOf(Decode(r, true), r) && Enabled(s, Decode(r, true));
    case Returned(_) =>
      assert IsStepOf(Erase(r), r) && Enabled(s, Erase(r));
    case Unlisted(_) =>
      assert IsStepOf(Callback(r), r) && Enabled(s, Callback(r));
    case Finished =>
  }

  // ---- terminal callbacks ----

  /** Token count and callback count of a request, by where it stands. */
  ghost predicate Accounted(q: Req) {
    && |q.callbacks| == (if q.phase.Finished? then 1 else 0)
    && match q.phase
       case Starting => q.tokens == 0
       case Head(i) => q.tokens == i <= q.maxTokens
       case Sampling(i) => q.tokens == i < q.maxTokens
       case Emitted(i) => q.tokens == i + 1 <= q.maxTokens
       case _ => q.tokens <= q.maxTokens
  }

  /**
   In every interleaving each request gets exactly one terminal callback, as its last step, and
   emits no more tokens than it asked for.
   */
  lemma {:induction false} OneTerminalCallback(trace: seq<Action>, r: nat)
    requires Possible(START, trace) && r < |Run(START, trace).reqs|
    ensures Accounted(Run(START, trace).reqs[r])
    decreases |trace|
  {
    hide Accounted, Next;
    if trace == [] {
    } else {
      var s := Run(START, Init(trace));
      if r < |s.reqs| {
        OneTerminalCallback(Init(trace), r);
      }
      NextAccounts(s, Last(trace), r);
    }
  }

  lemma NextAccounts(s: State, a: Action, r: nat)
    requires Enabled(s, a) && r < |Next(s, a).reqs|
    requires r < |s.reqs| ==> Accounted(s.reqs[r])
    ensures Accounted(Next(s, a).reqs[r])
  {
  }

  // ---- why a request ends ----

  /** Action `k` of the trace is a cancel that reaches request `r`. */
  ghost predicate CancelledAt(trace: seq<Action>, k: nat, r: nat)
    requires Possible(START, trace) && k < |trace|
  {
    PrefixPossible(trace, k);
    trace[k].Cancel? && Reaches(Run(START, trace[..k]), trace[k].session, r)
  }

  ghost predicate Cancelled(trace: seq<Action>, r: nat)
    requires Possible(START, trace)
  {
    exists k :: 0 <= k < |trace| && CancelledAt(trace, k, r)
  }

  /** How often request `r` emitted a token. */
  function Emissions(trace: seq<Action>, r: nat): nat {
    if trace == [] then 0
    else Emissions(Init(trace), r) + if Last(trace) == Token(r, false) then 1 else 0
  }

  /** What a trace says about one request. */
  datatype Facts = Facts(emissions: nat, cancelled: bool, ready: bool, refused: bool, endOfText: bool, decodeFailed: bool)

  ghost function FactsOf(trace: seq<Action>, r: nat): Facts
    requires Possible(START, trace)
  {
    Facts(Emissions(trace, r), Cancelled(trace, r), Begin(r, true) in trace, Begin(r, false) in trace,
          Token(r, true) in trace, Decode(r, false) in trace)
  }

  const NO_FACTS := Facts(0, false, false, false, false, false)

  ghost predicate Ended(q: Req, f: Facts) {
    if f.ready then q.tokens == q.maxTokens || f.cancelled || f.endOfText || f.decodeFailed else q.tokens == 0
  }

  /** Everything a request's state owes to the trace that led to it. */
  ghost predicate Explained(q: Req, f: Facts) {
    && q.tokens == f.emissions && q.flag == f.cancelled
    && match q.phase
       case Starting => !f.ready && !f.refused && q.callbacks == []
       case Returned(ok) => ok == f.ready != f.refused && Ended(q, f) && q.callbacks == []
       case Unlisted(ok) => ok == f.ready != f.refused && Ended(q, f) && q.callbacks == []
       case Finished => f.ready != f.refused && Ended(q, f) && q.callbacks == [if f.ready then OnComplete else OnError]
       case _ => f.ready && !f.refused && q.callbacks == []
  }

  /** The facts after one more action, `reached` if it is a cancel that reaches the request. */
  function OneMoreFact(f: Facts, a: Action, r: nat, reached: bool): Facts {
    Facts(f.emissions + if a == Token(r, false) then 1 else 0, f.cancelled || reached, f.ready || a == Begin(r, true),
          f.refused || a == Begin(r, false), f.endOfText || a == Token(r, true), f.decodeFailed || a == Decode(r, false))
  }

  lemma LastFact(trace: seq<Action>, r: nat)
    requires trace != [] && Possible(START, trace)
    ensures Possible(START, Init(trace))
    ensures var a := Last(trace);
      FactsOf(trace, r) == OneMoreFact(FactsOf(Init(trace), r), a, r,
                                       a.Cancel? && Reaches(Run(START, Init(trace)), a.session, r))
  {
    hide Run, Possible, Reaches, Cancelled, Init, Last;
    CancelledSoFar(trace, r);
    InInitOrLast(trace, Begin(r, true));
    InInitOrLast(trace, Begin(r, false));
    InInitOrLast(trace, Token(r, true));
    InInitOrLast(trace, Decode(r, false));
  }

  lemma InInitOrLast(trace: seq<Action>, a: Action)
    requires trace != []
    ensures a in trace <==> a in Init(trace) || a == Last(trace)
  {
    assert trace == Init(trace) + [Last(trace)];
  }

  lemma CancelledSoFar(trace: seq<Action>, r: nat)
    requires trace != [] && Possible(START, trace)
    ensures Possible(START, Init(trace))
    ensures Cancelled(trace, r) <==>
            Cancelled(Init(trace), r) || (Last(trace).Cancel? && Reaches(Run(START, Init(trace)), Last(trace).session, r))
  {
    hide Run, Possible, Reaches;
    var n := |trace| - 1;
    PrefixPossible(trace, n);
    assert trace[..n] == Init(trace);
    forall k | 0 <= k < n
      ensures CancelledAt(trace, k, r) <==> CancelledAt(Init(trace), k, r)
    {
      assert Init(trace)[..k] == trace[..k];
    }
    assert CancelledAt(trace, n, r) <==> Last(trace).Cancel? && Reaches(Run(START, Init(trace)), Last(trace).session, r);
  }

  lemma NextExplains(s: State, a: Action, r: nat, f: Facts)
    requires Enabled(s, a) && r < |s.reqs| && Accounted(s.reqs[r]) && Explained(s.reqs[r], f)
    ensures r < |Next(s, a).reqs|
    ensures Explained(Next(s, a).reqs[r], OneMoreFact(f, a, r, a.Cancel? && Reaches(s, a.session, r)))
  {
  }

  /** A request that has not been made yet does not occur in the trace. */
  lemma {:induction false} NotMadeYet(trace: seq<Action>, r: nat)
    requires Possible(START, trace) && r >= |Run(START, trace).reqs|
    ensures FactsOf(trace, r) == NO_FACTS
    decreases |trace|
  {
    if trace == [] {
    } else {
      var s := Run(START, Init(trace));
      NotMadeYet(Init(trace), r);
      LastFact(trace, r);
      TableInEveryRun(Init(trace));
      hide FactsOf, TableOk;
      ReachesMade(s, r);
    }
  }

  lemma ReachesMade(s: State, r: nat)
    requires TableOk(s)
    ensures forall session :: Reaches(s, session, r) ==> r < |s.reqs|
  {
    forall session | Reaches(s, session, r)
      ensures r < |s.reqs|
    {
      assert EntryOk(s, session);
    }
  }

  lemma {:induction false} EverythingIsExplained(trace: seq<Action>, r: nat)
    requires Possible(START, trace) && r < |Run(START, trace).reqs|
    ensures Explained(Run(START, trace).reqs[r], FactsOf(trace, r))
    decreases |trace|
  {
    if trace == [] {
    } else {
      hide FactsOf, Explained, Accounted, Next;
      var s, a := Run(START, Init(trace)), Last(trace);
      LastFact(trace, r);
      if r < |s.reqs| {
        EverythingIsExplained(Init(trace), r);
        OneTerminalCallback(Init(trace), r);
        NextExplains(s, a, r, FactsOf(Init(trace), r));
      } else {
        NotMadeYet(Init(trace), r);
        TableInEveryRun(Init(trace));
        ReachesMade(s, r);
        NewExplained(s, a, r);
      }
    }
  }

  lemma NewExplained(s: State, a: Action, r: nat)
    requires Enabled(s, a) && |s.reqs| <= r < |Next(s, a).reqs|
    ensures Explained(Next(s, a).reqs[r], OneMoreFact(NO_FACTS, a, r, false))
  {
  }

  /**
   In every interleaving: a request that has finished has had onError if and only if it could not begin,
   and has then emitted nothing; one that began has emitted all the tokens asked for, unless a cancel
   reached it, the text ended, or a decode failed.
   */
  lemma FinishedRequest(trace: seq<Action>, r: nat)
    requires Possible(START, trace) && r < |Run(START, trace).reqs|
    requires Run(START, trace).reqs[r].phase.Finished?
    ensures var q := Run(START, trace).reqs[r]; var cancelled := exists k :: 0 <= k < |trace| && CancelledAt(trace, k, r);
      && q.tokens == Emissions(trace, r)
      && (q.callbacks == [OnError] <==> Begin(r, false) in trace)
      && (q.callbacks == [OnComplete] <==> Begin(r, true) in trace)
      && (Begin(r, false) in trace ==> q.tokens == 0)
      && (Begin(r, true) in trace && q.tokens < q.maxTokens ==>
            cancelled || Token(r, true) in trace || Decode(r, false) in trace)
  {
    EverythingIsExplained(trace, r);
    hide CancelledAt, Possible, Run;
  }

  /** So a request that began, and met none of these, emits exactly the tokens asked for. */
  lemma UndisturbedRequest(trace: seq<Action>, r: nat)
    requires Possible(START, trace) && r < |Run(START, trace).reqs|
    requires Run(START, trace).reqs[r].phase.Finished? && Begin(r, true) in trace
    requires Token(r, true) !in trace && Decode(r, false) !in trace
    requires forall k :: 0 <= k < |trace| ==> !CancelledAt(trace, k, r)
    ensures var q := Run(START, trace).reqs[r]; q.tokens == q.maxTokens && q.callbacks == [OnComplete]
  {
    FinishedRequest(trace, r);
    OneTerminalCallback(trace, r);
    hide CancelledAt, Possible, Run;
  }

  // ---- the critical sections as they run ----

  /** The service's shared state and the three sections that hold `gCancelMapMutex`. */
  class Service {
    var reqs: seq<Req>
    var cancelFlags: map<int, nat>

    constructor ()
      ensures View() == START
    {
      reqs, cancelFlags := [], map[];
    }

    function View(): State
      reads this
    {
      State(reqs, cancelFlags)
    }

    /** `inferStream` up to the thread it starts. */
    method InferStream(sessionId: int, maxTokens: nat) returns (req: nat)
      modifies this
      ensures View() == Next(old(View()), Register(sessionId, maxTokens))
      ensures Reaches(View(), sessionId, req) && req == |old(reqs)|
    {
      req := |reqs|;
      reqs := reqs + [Req(sessionId, maxTokens, Starting, false, 0, [])];
      cancelFlags := cancelFlags[sessionId := req];
    }

    /** What the thread does with the map once `infer` has returned. */
    method EraseFlag(req: nat)
      requires Enabled(View(), Erase(req))
      modifies this
      ensures View() == Next(old(View()), Erase(req))
      ensures reqs[req].session !in cancelFlags
    {
      var q := reqs[req];
      cancelFlags := cancelFlags - {q.session};
      reqs := reqs[req := q.(phase := Unlisted(q.phase.ok))];
    }

    method CancelSession(sessionId: int)
      requires TableOk(View())
      modifies this
      ensures View() == Next(old(View()), Cancel(sessionId))
      ensures sessionId in cancelFlags ==> cancelFlags[sessionId] < |reqs| && reqs[cancelFlags[sessionId]].flag
    {
      if sessionId in cancelFlags {
        var req := cancelFlags[sessionId];
        assert EntryOk(View(), sessionId);
        reqs := reqs[req := reqs[req].(flag := true)];
      }
    }
  }
}
