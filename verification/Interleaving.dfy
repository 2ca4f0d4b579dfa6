/**
 The token books of gateway/internal/proxy/handler.go while requests run at the same
 time: charging the limiter, counting the metric and offering the audit entry are
 separate steps, and steps of different requests may come in any order.
*/
module Interleaving {
  import opened Wrappers
  import opened Handler
  import RateLimit
  import Frames
  import Policy
  import BuiltinRules
  import TeamLimits

  /** How far a request that was put to the limiter has come. */
  datatype Phase =
    | Flying(user: string)   // admitted, and neither charged nor failed
    | ToCount(e: AuditEntry) // h.audit has been called with this entry
    | ToOffer(e: AuditEntry) // the metrics have been counted
    | Finished

  /** Requests are numbered as they arrive. */
  datatype Event =
    | Ask(user: string, lim: RateLimit.Limits, now: nat, refusal: AuditEntry)
    | Charge(id: nat, e: AuditEntry, now: nat) // Limiter.AddTokens for an answer
    | Fail(id: nat, e: AuditEntry, now: nat)   // an answer without usage, which is audited
    | Leave(id: nat, now: nat)                 // one of the three answers that are not
    | Count(id: nat)
    | Offer(id: nat)

  datatype State = State(calls: seq<RateLimit.Call>, reqs: seq<Phase>, mTokens: int, audited: seq<AuditEntry>)

  const START := State([], [], 0, [])

  predicate Enabled(st: State, ev: Event) {
    match ev
    case Ask(user, _, _, refusal) => refusal.user == user && TokensIn(refusal) == 0
    case Charge(id, e, _) => id < |st.reqs| && st.reqs[id] == Flying(e.user)
    case Fail(id, e, _) => id < |st.reqs| && st.reqs[id] == Flying(e.user) && TokensIn(e) == 0
    case Leave(id, _) => id < |st.reqs| && st.reqs[id].Flying?
    case Count(id) => id < |st.reqs| && st.reqs[id].ToCount?
    case Offer(id) => id < |st.reqs| && st.reqs[id].ToOffer?
  }

  function Step(st: State, ev: Event): State
    requires Enabled(st, ev)
  {
    match ev
    case Ask(user, lim, now, refusal) =>
      var ask := RateLimit.Ask(user, lim, now);
      st.(calls := st.calls + [ask],
          reqs := st.reqs + [if LetThrough(RateLimit.After(st.calls), ask) then Flying(user) else ToCount(refusal)])
    case Charge(id, e, now) =>
      st.(calls := st.calls + [RateLimit.Charge(e.user, TokensIn(e), now)], reqs := st.reqs[id := ToCount(e)])
    case Fail(id, e, now) =>
      st.(calls := st.calls + [RateLimit.End(e.user, now)], reqs := st.reqs[id := ToCount(e)])
    case Leave(id, now) =>
      st.(calls := st.calls + [RateLimit.End(st.reqs[id].user, now)], reqs := st.reqs[id := Finished])
    case Count(id) =>
      st.(mTokens := st.mTokens + TokensIn(st.reqs[id].e), reqs := st.reqs[id := ToOffer(st.reqs[id].e)])
    case Offer(id) =>
      st.(audited := st.audited + [st.reqs[id].e], reqs := st.reqs[id := Finished])
  }

  predicate CanRun(evs: seq<Event>)
    decreases |evs|, 0
  {
    evs == [] || (CanRun(evs[..|evs|-1]) && Enabled(After(evs[..|evs|-1]), evs[|evs|-1]))
  }

  function After(evs: seq<Event>): State
    requires CanRun(evs)
    decreases |evs|, 1
  {
    if evs == [] then START else Step(After(evs[..|evs|-1]), evs[|evs|-1])
  }

  // ---------- what is under way ----------

  function Total(reqs: seq<Phase>, weight: Phase -> int): int {
    if reqs == [] then 0 else Total(reqs[..|reqs|-1], weight) + weight(reqs[|reqs|-1])
  }

  /** Tokens that were charged and are not yet in the audit log. */
  function Unlogged(who: Option<string>): Phase -> int {
    (p: Phase) => if (p.ToCount? || p.ToOffer?) && Counts(who, p.e.user) then TokensIn(p.e) else 0
  }

  /** Tokens that were charged and are not yet in the metric. */
  function Uncounted(): Phase -> int {
    (p: Phase) => if p.ToCount? then TokensIn(p.e) else 0
  }

  /** One for each request of the user that is in flight. */
  function InFlight(user: string): Phase -> int {
    (p: Phase) => if p == Flying(user) then 1 else 0
  }

  lemma TotalNext(reqs: seq<Phase>, p: Phase, weight: Phase -> int)
    ensures Total(reqs + [p], weight) == Total(reqs, weight) + weight(p)
  {
    assert (reqs + [p])[..|reqs|] == reqs;
  }

  lemma {:induction false} TotalUpdate(reqs: seq<Phase>, id: nat, p: Phase, weight: Phase -> int)
    requires id < |reqs|
    ensures Total(reqs[id := p], weight) == Total(reqs, weight) - weight(reqs[id]) + weight(p)
    decreases |reqs|
  {
    var prefix := reqs[..|reqs|-1];
    if id == |reqs| - 1 {
      assert reqs[id := p][..|reqs|-1] == prefix;
    } else {
      TotalUpdate(prefix, id, p, weight);
      assert reqs[id := p][..|reqs|-1] == prefix[id := p];
    }
  }

  // ---------- the books, at every moment ----------

  /**
   What a user was charged is what is logged or still on its way to the log, what the
   metric shows lacks only what is still to be counted, and the limiter's requests in
   flight are the requests that really are.
  */
  ghost predicate Balanced(st: State) {
    && (forall who: Option<string> ::
          Charged(st.calls, who) == Audited(st.audited, who) + Total(st.reqs, Unlogged(who)))
    && Charged(st.calls, None) == st.mTokens + Total(st.reqs, Uncounted())
    && (forall user :: RateLimit.InFlight(st.calls, user) == Total(st.reqs, InFlight(user)))
  }

  lemma BalancedCalls(st: State, c: RateLimit.Call, reqs: seq<Phase>)
    requires Balanced(st)
    requires forall who: Option<string> ::
               Total(reqs, Unlogged(who)) ==
               Total(st.reqs, Unlogged(who)) + if c.Charge? && Counts(who, c.user) then c.n else 0
    requires Total(reqs, Uncounted()) == Total(st.reqs, Uncounted()) + if c.Charge? then c.n else 0
    requires forall user ::
               Total(reqs, InFlight(user)) == Total(st.reqs, InFlight(user)) +
               if c.user != user then 0
               else if c.Ask? then (if LetThrough(RateLimit.After(st.calls), c) then 1 else 0) else -1
    ensures Balanced(st.(calls := st.calls + [c], reqs := reqs))
  {
    hide Total, Charged, Audited, RateLimit.After, RateLimit.InFlight, LetThrough;
    CallsNext(st.calls, c);
    forall user
      ensures RateLimit.InFlight(st.calls + [c], user) == Total(reqs, InFlight(user))
    {
      InFlightNext(st.calls, c, user);
    }
  }

  lemma Updates(reqs: seq<Phase>, id: nat, p: Phase)
    requires id < |reqs|
    ensures forall who: Option<string> ::
              Total(reqs[id := p], Unlogged(who)) ==
              Total(reqs, Unlogged(who)) - Unlogged(who)(reqs[id]) + Unlogged(who)(p)
    ensures Total(reqs[id := p], Uncounted()) == Total(reqs, Uncounted()) - Uncounted()(reqs[id]) + Uncounted()(p)
    ensures forall user ::
              Total(reqs[id := p], InFlight(user)) ==
              Total(reqs, InFlight(user)) - InFlight(user)(reqs[id]) + InFlight(user)(p)
  {
    hide Total, Unlogged, Uncounted, InFlight;
    forall who: Option<string>
      ensures Total(reqs[id := p], Unlogged(who)) ==
              Total(reqs, Unlogged(who)) - Unlogged(who)(reqs[id]) + Unlogged(who)(p)
    {
      TotalUpdate(reqs, id, p, Unlogged(who));
    }
    TotalUpdate(reqs, id, p, Uncounted());
    forall user
      ensures Total(reqs[id := p], InFlight(user)) ==
              Total(reqs, InFlight(user)) - InFlight(user)(reqs[id]) + InFlight(user)(p)
    {
      TotalUpdate(reqs, id, p, InFlight(user));
    }
  }

  lemma Arrivals(reqs: seq<Phase>, p: Phase)
    ensures forall who: Option<string> ::
              Total(reqs + [p], Unlogged(who)) == Total(reqs, Unlogged(who)) + Unlogged(who)(p)
    ensures Total(reqs + [p], Uncounted()) == Total(reqs, Uncounted()) + Uncounted()(p)
    ensures forall user :: Total(reqs + [p], InFlight(user)) == Total(reqs, InFlight(user)) + InFlight(user)(p)
  {
    hide Total, Unlogged, Uncounted, InFlight;
    forall who: Option<string>
      ensures Total(reqs + [p], Unlogged(who)) == Total(reqs, Unlogged(who)) + Unlogged(who)(p)
    {
      TotalNext(reqs, p, Unlogged(who));
    }
    TotalNext(reqs, p, Uncounted());
    forall user
      ensures Total(reqs + [p], InFlight(user)) == Total(reqs, InFlight(user)) + InFlight(user)(p)
    {
      TotalNext(reqs, p, InFlight(user));
    }
  }

  lemma Arrives(st: State, user: string, lim: RateLimit.Limits, now: nat, refusal: AuditEntry)
    requires Balanced(st) && Enabled(st, Ask(user, lim, now, refusal))
    ensures Balanced(Step(st, Ask(user, lim, now, refusal)))
  {
    hide Total, Charged, Audited, RateLimit.After, RateLimit.InFlight, Balanced, LetThrough;
    var ask := RateLimit.Ask(user, lim, now);
    var p := if LetThrough(RateLimit.After(st.calls), ask) then Flying(user) else ToCount(refusal);
    Arrivals(st.reqs, p);
    BalancedCalls(st, ask, st.reqs + [p]);
  }

  /** A request in flight is charged for the usage of its entry, or ends with an entry without usage. */
  lemma Settles(st: State, c: RateLimit.Call, id: nat, e: AuditEntry)
    requires Balanced(st) && id < |st.reqs| && st.reqs[id] == Flying(e.user)
    requires !c.Ask? && c.user == e.user && TokensIn(e) == if c.Charge? then c.n else 0
    ensures Balanced(st.(calls := st.calls + [c], reqs := st.reqs[id := ToCount(e)]))
  {
    hide Total, Charged, Audited, RateLimit.After, RateLimit.InFlight, Balanced, TokensIn;
    Updates(st.reqs, id, ToCount(e));
    BalancedCalls(st, c, st.reqs[id := ToCount(e)]);
  }

  lemma Leaves(st: State, id: nat, now: nat)
    requires Balanced(st) && Enabled(st, Leave(id, now))
    ensures Balanced(Step(st, Leave(id, now)))
  {
    hide Total, Charged, Audited, RateLimit.After, RateLimit.InFlight, Balanced;
    Updates(st.reqs, id, Finished);
    BalancedCalls(st, RateLimit.End(st.reqs[id].user, now), st.reqs[id := Finished]);
  }

  lemma Logs(st: State, ev: Event)
    requires Balanced(st) && Enabled(st, ev) && (ev.Count? || ev.Offer?)
    ensures Balanced(Step(st, ev))
  {
    hide Total, Charged, Audited, RateLimit.InFlight, TokensIn;
    if ev.Count? {
      Updates(st.reqs, ev.id, ToOffer(st.reqs[ev.id].e));
    } else {
      Updates(st.reqs, ev.id, Finished);
      BooksNext(st.audited, st.reqs[ev.id].e);
    }
  }

  lemma StepBalances(st: State, ev: Event)
    requires Balanced(st) && Enabled(st, ev)
    ensures Balanced(Step(st, ev))
  {
    hide Balanced, LetThrough, RateLimit.After;
    match ev
    case Ask(user, lim, now, refusal) => Arrives(st, user, lim, now, refusal);
    case Charge(id, e, now) => Settles(st, RateLimit.Charge(e.user, TokensIn(e), now), id, e);
    case Fail(id, e, now) => Settles(st, RateLimit.End(e.user, now), id, e);
    case Leave(id, now) => Leaves(st, id, now);
    case _ => Logs(st, ev);
  }

  /** In every reachable state of every interleaving. */
  lemma {:induction false} AlwaysBalanced(evs: seq<Event>)
    requires CanRun(evs)
    ensures Balanced(After(evs))
  {
    if evs != [] {
      hide Balanced, Step, Enabled;
      AlwaysBalanced(evs[..|evs|-1]);
      StepBalances(After(evs[..|evs|-1]), evs[|evs|-1]);
    }
  }

  /** Whenever no request is under way the three books agree, for every user and in total. */
  lemma BooksAgreeAtRest(evs: seq<Event>)
    requires CanRun(evs) && forall id | 0 <= id < |After(evs).reqs| :: After(evs).reqs[id] == Finished
    ensures var st := After(evs);
            && (forall who: Option<string> :: Charged(st.calls, who) == Audited(st.audited, who))
            && st.mTokens == Audited(st.audited, None)
            && forall user :: RateLimit.InFlight(st.calls, user) == 0
  {
    AlwaysBalanced(evs);
    hide CanRun, After, Charged, Audited, RateLimit.InFlight, Total;
    forall who: Option<string>
      ensures Total(After(evs).reqs, Unlogged(who)) == 0
    {
      TotalZero(After(evs).reqs, Unlogged(who));
    }
    TotalZero(After(evs).reqs, Uncounted());
    forall user
      ensures Total(After(evs).reqs, InFlight(user)) == 0
    {
      TotalZero(After(evs).reqs, InFlight(user));
    }
  }

  lemma {:induction false} TotalZero(reqs: seq<Phase>, weight: Phase -> int)
    requires forall id | 0 <= id < |reqs| :: weight(reqs[id]) == 0
    ensures Total(reqs, weight) == 0
  {
    if reqs != [] {
      TotalZero(reqs[..|reqs|-1], weight);
    }
  }

  // ---------- what the handler does to one request is such a run ----------

  /** The state after these events, if they can happen. */
  function Run(st: State, evs: seq<Event>): Option<State>
    decreases |evs|
  {
    if evs == [] then Some(st)
    else if Enabled(st, evs[0]) then Run(Step(st, evs[0]), evs[1..])
    else None
  }

  lemma {:induction false} RunContinues(evs: seq<Event>, more: seq<Event>)
    requires CanRun(evs) && Run(After(evs), more).Some?
    ensures CanRun(evs + more) && After(evs + more) == Run(After(evs), more).value
    decreases |more|
  {
    hide Step, Enabled;
    if more == [] {
      assert evs + more == evs;
    } else {
      var next := evs + [more[0]];
      assert next[..|next|-1] == evs && next[|next|-1] == more[0];
      RunContinues(next, more[1..]);
      assert next + more[1..] == evs + more;
    }
  }

  /** The events of the request with number id that the handler has served, as the books show them. */
  function EventsOf(id: nat, before: Books, after: Books, status: int): seq<Event> {
    if |after.calls| <= |before.calls| || !after.calls[|before.calls|].Ask? then []
    else if |after.audited| <= |before.audited| then
      var ask := after.calls[|before.calls|];
      [Ask(ask.user, ask.lim, ask.now, NoEntry(ask.user)), Leave(id, EndTime(before, after))]
    else
      var ask, e := after.calls[|before.calls|], after.audited[|before.audited|];
      if |after.calls| == |before.calls| + 1 then [Ask(ask.user, ask.lim, ask.now, e), Count(id), Offer(id)]
      else
        [ Ask(ask.user, ask.lim, ask.now, NoEntry(ask.user)),
          if status == 200 then Charge(id, e, EndTime(before, after)) else Fail(id, e, EndTime(before, after)),
          Count(id), Offer(id) ]
  }

  function NoEntry(user: string): AuditEntry {
    AuditEntry(user, "", 0, 0, 0, {}, "")
  }

  function EndTime(before: Books, after: Books): nat {
    if |after.calls| == |before.calls| + 2 then after.calls[|before.calls| + 1].now else 0
  }

  /** The metric and the log move by the same entry, if there is one. */
  function NewTokens(before: Books, after: Books): int {
    if |after.audited| > |before.audited| then TokensIn(after.audited[|before.audited|]) else 0
  }

  /**
   Whatever other requests are under way: what ChatCompletions does to the books in one
   go is the run Ask, then Charge, Fail or Leave, then Count and Offer of one request.
  */
  lemma ServedIsRun(codec: Frames.Codec, parse: string -> Option<Parsed>, defaults: RateLimit.Limits, t: Target,
                    snap: Snapshot, up: Upstream, askAt: nat, chargeAt: nat,
                    resp: Response, sent: Option<seq<Message>>, before: Books, after: Books, st: State)
    requires Served(codec, parse, defaults, t, snap, up, askAt, chargeAt, resp, sent, before, after)
    requires st.calls == before.calls && st.audited == before.audited
    ensures Run(st, EventsOf(|st.reqs|, before, after, resp.status)) ==
            Some(State(after.calls, st.reqs + [Finished], st.mTokens + NewTokens(before, after), after.audited))
  {
    hide *;
    ServedBooks(codec, parse, defaults, t, snap, up, askAt, chargeAt, resp, sent, before, after);
    MovedIsRun(before, after, t.user, resp.status, st);
  }

  lemma MovedIsRun(before: Books, after: Books, user: string, status: int, st: State)
    requires Moved(before, after, user, status) && st.calls == before.calls && st.audited == before.audited
    ensures Run(st, EventsOf(|st.reqs|, before, after, status)) ==
            Some(State(after.calls, st.reqs + [Finished], st.mTokens + NewTokens(before, after), after.audited))
  {
    hide RateLimit.After, LetThrough, Run, TokensIn, NoEntry;
    var n := |before.calls|;
    var ask := after.calls[n];
    if !LetThrough(RateLimit.After(before.calls), ask) {
      RefusedRun(st, ask, after.audited[|before.audited|]);
    } else if |after.audited| == |before.audited| {
      LeftRun(st, ask, after.calls[n+1].now);
    } else {
      var e, last := after.audited[|before.audited|], after.calls[n+1];
      var end := if status == 200 then Charge(|st.reqs|, e, last.now) else Fail(|st.reqs|, e, last.now);
      AnsweredRun(st, ask, e, end, last);
    }
  }

  /** The calls and entries of a served request. */
  predicate Moved(before: Books, after: Books, user: string, status: int) {
    var n, m := |before.calls|, |before.audited|;
    && n < |after.calls| && after.calls[n].Ask? && after.calls[n].user == user
    && (after.audited == before.audited ||
        (m < |after.audited| && after.audited == before.audited + [after.audited[m]] && after.audited[m].user == user))
    && if LetThrough(RateLimit.After(before.calls), after.calls[n]) then
         && |after.calls| == n + 2 && after.calls == before.calls + [after.calls[n], after.calls[n+1]]
         && after.calls[n+1] ==
            (if status == 200 then RateLimit.Charge(user, NewTokens(before, after), after.calls[n+1].now)
             else RateLimit.End(user, after.calls[n+1].now))
         && (if status == 200 then m < |after.audited| else NewTokens(before, after) == 0)
       else
         && after.calls == before.calls + [after.calls[n]]
         && m < |after.audited| && NewTokens(before, after) == 0
  }

  lemma ServedBooks(codec: Frames.Codec, parse: string -> Option<Parsed>, defaults: RateLimit.Limits, t: Target,
                    snap: Snapshot, up: Upstream, askAt: nat, chargeAt: nat,
                    resp: Response, sent: Option<seq<Message>>, before: Books, after: Books)
    requires Served(codec, parse, defaults, t, snap, up, askAt, chargeAt, resp, sent, before, after)
    ensures Moved(before, after, t.user, resp.status)
  {
    hide RateLimit.After, Alerted, LetThrough, Outcome, Appended, Unused, TokensIn;
    hide BuiltinRules.Builtins, TeamLimits.Resolves;
    var n := |before.calls|;
    if LetThrough(RateLimit.After(before.calls), after.calls[n]) {
      OutcomeBooks(codec, parse, t, BuiltinRules.Builtins() + snap.rules, snap.maskResponses, up, resp, sent,
                   before.audited, after.audited);
      assert after.calls == before.calls + [after.calls[n], after.calls[n+1]];
    } else {
      OneEntry(before.audited, after.audited, t, 429);
      assert after.calls == before.calls + [after.calls[n]];
    }
  }

  lemma OneEntry(before: seq<AuditEntry>, after: seq<AuditEntry>, t: Target, status: int)
    requires Appended(before, after, t.user, t.provider.id)
    ensures after == before + [after[|before|]] && after[|before|].user == t.user
    ensures Unused(after[|before|], status) ==> TokensIn(after[|before|]) == 0
  {
  }

  lemma OutcomeBooks(codec: Frames.Codec, parse: string -> Option<Parsed>, t: Target, rules: Policy.Rules,
                     maskResponses: bool, up: Upstream, resp: Response, sent: Option<seq<Message>>,
                     before: seq<AuditEntry>, after: seq<AuditEntry>)
    requires Outcome(codec, parse, t, rules, maskResponses, up, resp, sent, before, after)
    ensures after == before ||
            (|after| > |before| && after == before + [after[|before|]] && after[|before|].user == t.user &&
             (resp.status != 200 ==> TokensIn(after[|before|]) == 0))
    ensures resp.status == 200 ==> |after| > |before|
  {
    hide ReplyIs, PassesPolicy, RequestNames, BlocksAny, Appended, Unused, TokensIn;
    if Appended(before, after, t.user, t.provider.id) {
      OneEntry(before, after, t, resp.status);
    }
  }

  /** The steps of one request, one after the other. */
  lemma RunTwo(st: State, a: Event, b: Event)
    requires Enabled(st, a) && Enabled(Step(st, a), b)
    ensures Run(st, [a, b]) == Some(Step(Step(st, a), b))
  {
    hide Step, Enabled;
    RunMore(st, a, [b]);
    RunMore(Step(st, a), b, []);
    assert [a] + [b] == [a, b] && [b] + [] == [b];
    assert Run(Step(Step(st, a), b), []) == Some(Step(Step(st, a), b));
  }

  lemma RunMore(st: State, a: Event, evs: seq<Event>)
    requires Enabled(st, a)
    ensures Run(st, [a] + evs) == Run(Step(st, a), evs)
  {
    hide Step, Enabled;
    assert ([a] + evs)[1..] == evs;
  }

  /** An entry that h.audit is called with ends up in the metric and in the log. */
  lemma LoggedRun(st: State, id: nat, e: AuditEntry)
    requires id < |st.reqs| && st.reqs[id] == ToCount(e)
    ensures Run(st, [Count(id), Offer(id)]) ==
            Some(st.(mTokens := st.mTokens + TokensIn(e), audited := st.audited + [e], reqs := st.reqs[id := Finished]))
  {
    var counted := Step(st, Count(id));
    assert counted.reqs[id] == ToOffer(e);
    RunTwo(st, Count(id), Offer(id));
    assert st.reqs[id := ToOffer(e)][id := Finished] == st.reqs[id := Finished];
  }

  lemma RefusedRun(st: State, ask: RateLimit.Call, e: AuditEntry)
    requires ask.Ask? && !LetThrough(RateLimit.After(st.calls), ask) && e.user == ask.user && TokensIn(e) == 0
    ensures Run(st, [Ask(ask.user, ask.lim, ask.now, e), Count(|st.reqs|), Offer(|st.reqs|)]) ==
            Some(State(st.calls + [ask], st.reqs + [Finished], st.mTokens, st.audited + [e]))
  {
    hide LetThrough, RateLimit.After, Run, TokensIn;
    var id, ev := |st.reqs|, Ask(ask.user, ask.lim, ask.now, e);
    var next := Step(st, ev);
    assert next.reqs == st.reqs + [ToCount(e)];
    LoggedRun(next, id, e);
    RunMore(st, ev, [Count(id), Offer(id)]);
    assert [ev] + [Count(id), Offer(id)] == [ev, Count(id), Offer(id)];
    assert (st.reqs + [ToCount(e)])[id := Finished] == st.reqs + [Finished];
  }

  lemma LeftRun(st: State, ask: RateLimit.Call, now: nat)
    requires ask.Ask? && LetThrough(RateLimit.After(st.calls), ask)
    ensures Run(st, [Ask(ask.user, ask.lim, ask.now, NoEntry(ask.user)), Leave(|st.reqs|, now)]) ==
            Some(State(st.calls + [ask, RateLimit.End(ask.user, now)], st.reqs + [Finished], st.mTokens, st.audited))
  {
    hide LetThrough, RateLimit.After, Run;
    var id, ev := |st.reqs|, Ask(ask.user, ask.lim, ask.now, NoEntry(ask.user));
    var next := Step(st, ev);
    assert next.reqs == st.reqs + [Flying(ask.user)];
    RunTwo(st, ev, Leave(id, now));
    assert (st.reqs + [Flying(ask.user)])[id := Finished] == st.reqs + [Finished];
    assert st.calls + [ask] + [RateLimit.End(ask.user, now)] == st.calls + [ask, RateLimit.End(ask.user, now)];
  }

  lemma AnsweredRun(st: State, ask: RateLimit.Call, e: AuditEntry, end: Event, last: RateLimit.Call)
    requires ask.Ask? && LetThrough(RateLimit.After(st.calls), ask) && e.user == ask.user
    requires if end.Charge? then
               end == Charge(|st.reqs|, e, last.now) && last == RateLimit.Charge(e.user, TokensIn(e), last.now)
             else
               end == Fail(|st.reqs|, e, last.now) && last == RateLimit.End(e.user, last.now) && TokensIn(e) == 0
    ensures Run(st, [Ask(ask.user, ask.lim, ask.now, NoEntry(ask.user)), end, Count(|st.reqs|), Offer(|st.reqs|)]) ==
            Some(State(st.calls + [ask, last], st.reqs + [Finished], st.mTokens + TokensIn(e), st.audited + [e]))
  {
    hide LetThrough, RateLimit.After, Run;
    var id, ev := |st.reqs|, Ask(ask.user, ask.lim, ask.now, NoEntry(ask.user));
    var flying := Step(st, ev);
    assert flying.reqs == st.reqs + [Flying(ask.user)];
    var ended := Step(flying, end);
    assert ended.reqs == st.reqs + [ToCount(e)];
    LoggedRun(ended, id, e);
    RunMore(flying, end, [Count(id), Offer(id)]);
    RunMore(st, ev, [end] + [Count(id), Offer(id)]);
    assert [ev] + ([end] + [Count(id), Offer(id)]) == [ev, end, Count(id), Offer(id)];
    assert (st.reqs + [ToCount(e)])[id := Finished] == st.reqs + [Finished];
    assert st.calls + [ask] + [last] == st.calls + [ask, last];
  }

  // ---------- the daily quota of a server that works in parallel ----------

  /** The user's quota is fixed, no answer costs more than m, and at most k requests of the user fly at a time. */
  ghost predicate Bounded(evs: seq<Event>, user: string, quota: int, k: nat, m: nat)
    requires CanRun(evs)
  {
    evs == [] ||
    (var last := evs[|evs|-1];
     && Bounded(evs[..|evs|-1], user, quota, k, m)
     && Total(After(evs).reqs, InFlight(user)) <= k
     && (last.Ask? && last.user == user ==> last.lim.dailyTokens == quota)
     && (last.Charge? && last.e.user == user ==> TokensIn(last.e) <= m))
  }

  lemma {:induction false} TotalPositive(reqs: seq<Phase>, user: string)
    ensures Total(reqs, InFlight(user)) >= 0
  {
    if reqs != [] {
      TotalPositive(reqs[..|reqs|-1], user);
    }
  }

  lemma MeteredNext(calls: seq<RateLimit.Call>, c: RateLimit.Call, user: string, quota: int, k: nat, m: nat)
    requires RateLimit.Metered(calls, user, quota, k, m) && 0 <= RateLimit.InFlight(calls + [c], user) <= k
    requires c.user == user && c.Ask? ==> c.lim.dailyTokens == quota
    requires c.user == user && c.Charge? ==> c.n <= m
    ensures RateLimit.Metered(calls + [c], user, quota, k, m)
  {
    hide RateLimit.InFlight;
    var all := calls + [c];
    assert all[..|all|] == all;
    assert forall i | 0 <= i <= |calls| :: all[..i] == calls[..i];
  }

  lemma {:induction false} ServerIsMetered(evs: seq<Event>, user: string, quota: int, k: nat, m: nat)
    requires CanRun(evs) && Bounded(evs, user, quota, k, m)
    ensures RateLimit.Metered(After(evs).calls, user, quota, k, m)
  {
    if evs == [] {
      assert After(evs).calls[..0] == [];
    } else {
      var before, last := After(evs[..|evs|-1]), evs[|evs|-1];
      ServerIsMetered(evs[..|evs|-1], user, quota, k, m);
      AlwaysBalanced(evs);
      TotalPositive(After(evs).reqs, user);
      StepCalls(before, last);
      hide RateLimit.Metered, RateLimit.InFlight, Step, Total, Charged, Audited;
      var calls := After(evs).calls;
      if calls != before.calls {
        MeteredNext(before.calls, calls[|before.calls|], user, quota, k, m);
      }
    }
  }

  /** A step makes at most one call of the limiter, for its own user. */
  lemma StepCalls(st: State, ev: Event)
    requires Enabled(st, ev)
    ensures var calls := Step(st, ev).calls;
            calls == st.calls ||
            (|calls| == |st.calls| + 1 && calls == st.calls + [calls[|st.calls|]] &&
             match calls[|st.calls|]
             case Ask(user, lim, _) => ev.Ask? && ev.user == user && ev.lim == lim
             case Charge(user, n, _) => ev.Charge? && ev.e.user == user && TokensIn(ev.e) == n
             case End(_, _) => true)
  {
    hide LetThrough, RateLimit.After;
  }

  /** However the requests interleave, a day's usage exceeds the quota by less than what k answers cost. */
  lemma ServerOvershoot(evs: seq<Event>, user: string, day: int, quota: int, k: nat, m: nat)
    requires quota > 0 && CanRun(evs) && Bounded(evs, user, quota, k, m)
    requires RateLimit.Ordered(After(evs).calls)
    ensures RateLimit.Usage(After(evs).calls, user, day) <= quota - 1 + k * m
  {
    ServerIsMetered(evs, user, quota, k, m);
    RateLimit.QuotaOvershoot(After(evs).calls, user, day, quota, k, m);
  }
}
