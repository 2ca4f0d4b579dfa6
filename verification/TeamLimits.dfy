/** gateway/internal/state/state.go and limitsFor of gateway/internal/proxy/handler.go: a user's effective caps. */
module TeamLimits {
  import opened RateLimit

  /** A negative cap is unset and 0 is unlimited. */
  datatype UserLimit = UserLimit(rpm: int, dailyTokens: int)

  datatype Snapshot = Snapshot(
    userLimits: map<string, UserLimit>,
    teamLimits: map<string, UserLimit>,
    userTeams: map<string, seq<string>>)

  function MostRestrictive(cur: int, next: int): int {
    if next < 0 then cur
    else if cur < 0 then next
    else if cur == 0 then next
    else if next == 0 then cur
    else if next < cur then next else cur
  }

  // ---------- the answer, without an order ----------

  /** The concrete caps that the teams set in one dimension. */
  function Caps(limits: map<string, UserLimit>, teams: seq<string>, dim: UserLimit -> int): set<int> {
    set t | t in teams && t in limits && dim(limits[t]) >= 0 :: dim(limits[t])
  }

  /** The least positive cap; failing that, 0 if some team is unlimited; failing that, unset. */
  predicate IsTightest(caps: set<int>, r: int) {
    if exists v | v in caps :: v > 0 then r in caps && r > 0 && forall v | v in caps && v > 0 :: r <= v
    else if 0 in caps then r == 0
    else r == -1
  }

  lemma TightestUnique(caps: set<int>, r: int, s: int)
    requires IsTightest(caps, r) && IsTightest(caps, s)
    ensures r == s
  {
  }

  lemma TightestNext(caps: set<int>, cur: int, next: int)
    requires IsTightest(caps, cur) && forall v | v in caps :: v >= 0
    ensures IsTightest(if next >= 0 then caps + {next} else caps, MostRestrictive(cur, next))
  {
    var r := MostRestrictive(cur, next);
    if next >= 0 {
      var more := caps + {next};
      if v :| v in caps && v > 0 {
        assert v in more;
      } else if next > 0 {
        assert next in more;
      }
    }
  }

  function Rpm(l: UserLimit): int {
    l.rpm
  }

  function Tokens(l: UserLimit): int {
    l.dailyTokens
  }

  predicate AnyLimited(limits: map<string, UserLimit>, teams: seq<string>) {
    exists t | t in teams :: t in limits
  }

  function TeamsOf(snap: Snapshot, user: string): seq<string> {
    if user in snap.userTeams then snap.userTeams[user] else []
  }

  /** The most restrictive limit among the user's teams; false if none sets one. */
  method TeamLimitFor(snap: Snapshot, user: string) returns (out: UserLimit, found: bool)
    ensures found <==> AnyLimited(snap.teamLimits, TeamsOf(snap, user))
    ensures found ==> IsTightest(Caps(snap.teamLimits, TeamsOf(snap, user), Rpm), out.rpm)
    ensures found ==> IsTightest(Caps(snap.teamLimits, TeamsOf(snap, user), Tokens), out.dailyTokens)
  {
    var teams, limits := TeamsOf(snap, user), snap.teamLimits;
    if |teams| == 0 {
      return UserLimit(0, 0), false;
    }
    out, found := UserLimit(-1, -1), false;
    for i := 0 to |teams|
      invariant found <==> AnyLimited(limits, teams[..i])
      invariant IsTightest(Caps(limits, teams[..i], Rpm), out.rpm)
      invariant IsTightest(Caps(limits, teams[..i], Tokens), out.dailyTokens)
    {
      var t := teams[i];
      assert teams[..i+1] == teams[..i] + [t];
      CapsNext(limits, teams[..i], t, Rpm);
      CapsNext(limits, teams[..i], t, Tokens);
      if t !in limits {
        continue;
      }
      found := true;
      TightestNext(Caps(limits, teams[..i], Rpm), out.rpm, limits[t].rpm);
      TightestNext(Caps(limits, teams[..i], Tokens), out.dailyTokens, limits[t].dailyTokens);
      out := UserLimit(MostRestrictive(out.rpm, limits[t].rpm),
                       MostRestrictive(out.dailyTokens, limits[t].dailyTokens));
    }
    assert teams[..|teams|] == teams;
  }

  lemma CapsNext(limits: map<string, UserLimit>, teams: seq<string>, t: string, dim: UserLimit -> int)
    ensures Caps(limits, teams + [t], dim) ==
            if t in limits && dim(limits[t]) >= 0 then Caps(limits, teams, dim) + {dim(limits[t])}
            else Caps(limits, teams, dim)
  {
    var all := teams + [t];
    assert forall x :: x in all <==> x in teams || x == t;
  }

  /** The order and the repetition of the rows do not matter. */
  lemma OrderIrrelevant(limits: map<string, UserLimit>, teams: seq<string>, rows: seq<string>,
                        dim: UserLimit -> int, r: int, s: int)
    requires forall t :: t in teams <==> t in rows
    requires IsTightest(Caps(limits, teams, dim), r) && IsTightest(Caps(limits, rows, dim), s)
    ensures r == s
  {
    assert Caps(limits, teams, dim) == Caps(limits, rows, dim);
    TightestUnique(Caps(limits, teams, dim), r, s);
  }

  /** At least as strict; the limiter takes a cap that is not positive for none. */
  predicate NoLooser(a: int, b: int) {
    b <= 0 || 0 < a <= b
  }

  /** A further team never loosens a dimension that already has a team cap. */
  lemma MoreTeamsNoLooser(limits: map<string, UserLimit>, teams: seq<string>, more: seq<string>,
                          dim: UserLimit -> int, r: int, s: int)
    requires forall t | t in teams :: t in more
    requires IsTightest(Caps(limits, teams, dim), r) && IsTightest(Caps(limits, more, dim), s)
    requires r >= 0
    ensures s >= 0 && NoLooser(s, r)
  {
    assert Caps(limits, teams, dim) <= Caps(limits, more, dim);
  }

  // ---------- limitsFor ----------

  /** A personal row beats the teams, the teams beat the default; unset caps fall back to the default. */
  method LimitsFor(defaults: Limits, snap: Snapshot, user: string) returns (lim: Limits)
    ensures Resolves(defaults.rpm, snap, user, Rpm, lim.rpm)
    ensures Resolves(defaults.dailyTokens, snap, user, Tokens, lim.dailyTokens)
  {
    lim := defaults;
    if user in snap.userLimits {
      var ul := snap.userLimits[user];
      if ul.rpm >= 0 {
        lim := lim.(rpm := ul.rpm);
      }
      if ul.dailyTokens >= 0 {
        lim := lim.(dailyTokens := ul.dailyTokens);
      }
      return;
    }
    var tl, ok := TeamLimitFor(snap, user);
    if ok {
      if tl.rpm >= 0 {
        lim := lim.(rpm := tl.rpm);
      }
      if tl.dailyTokens >= 0 {
        lim := lim.(dailyTokens := tl.dailyTokens);
      }
    }
    NoTeamNoCaps(snap, user, Rpm);
    NoTeamNoCaps(snap, user, Tokens);
  }

  lemma NoTeamNoCaps(snap: Snapshot, user: string, dim: UserLimit -> int)
    ensures !AnyLimited(snap.teamLimits, TeamsOf(snap, user)) ==> Caps(snap.teamLimits, TeamsOf(snap, user), dim) == {}
  {
  }

  predicate Resolves(default: int, snap: Snapshot, user: string, dim: UserLimit -> int, cap: int) {
    if user in snap.userLimits then
      cap == if dim(snap.userLimits[user]) >= 0 then dim(snap.userLimits[user]) else default
    else
      var caps := Caps(snap.teamLimits, TeamsOf(snap, user), dim);
      if caps == {} then cap == default else IsTightest(caps, cap)
  }

  lemma ResolvesUnique(default: int, snap: Snapshot, user: string, dim: UserLimit -> int, cap: int, other: int)
    requires Resolves(default, snap, user, dim, cap) && Resolves(default, snap, user, dim, other)
    ensures cap == other
  {
  }

  /** The effective cap does not depend on the order or the repetition of the user's team rows. */
  lemma LimitOrderIrrelevant(default: int, snap: Snapshot, other: Snapshot, user: string,
                             dim: UserLimit -> int, cap: int, otherCap: int)
    requires other.userLimits == snap.userLimits && other.teamLimits == snap.teamLimits
    requires forall t :: t in TeamsOf(snap, user) <==> t in TeamsOf(other, user)
    requires Resolves(default, snap, user, dim, cap) && Resolves(default, other, user, dim, otherCap)
    ensures cap == otherCap
  {
    assert Caps(snap.teamLimits, TeamsOf(snap, user), dim) == Caps(other.teamLimits, TeamsOf(other, user), dim);
    ResolvesUnique(default, snap, user, dim, cap, otherCap);
  }

  /** Joining teams never loosens a cap that a team already sets for a user without a personal row. */
  lemma JoiningNoLooser(default: int, snap: Snapshot, joined: Snapshot, user: string,
                        dim: UserLimit -> int, cap: int, after: int)
    requires user !in snap.userLimits
    requires joined.userLimits == snap.userLimits && joined.teamLimits == snap.teamLimits
    requires forall t | t in TeamsOf(snap, user) :: t in TeamsOf(joined, user)
    requires Caps(snap.teamLimits, TeamsOf(snap, user), dim) != {}
    requires Resolves(default, snap, user, dim, cap) && Resolves(default, joined, user, dim, after)
    ensures NoLooser(after, cap)
  {
    var v :| v in Caps(snap.teamLimits, TeamsOf(snap, user), dim);
    assert v in Caps(joined.teamLimits, TeamsOf(joined, user), dim);
    MoreTeamsNoLooser(snap.teamLimits, TeamsOf(snap, user), TeamsOf(joined, user), dim, cap, after);
  }

  /** When does what is set for the user keep within the default? */
  predicate Within(default: int, snap: Snapshot, user: string, dim: UserLimit -> int) {
    if user in snap.userLimits then
      dim(snap.userLimits[user]) < 0 || 0 < dim(snap.userLimits[user]) <= default
    else
      var caps := Caps(snap.teamLimits, TeamsOf(snap, user), dim);
      caps == {} || exists v | v in caps :: 0 < v <= default
  }

  /**
   The effective cap is no looser than a limiting default if and only if nothing is
   set for the user, or a personal cap is positive and at most the default, or one of
   the teams' caps is.
  */
  lemma DefaultKeptExactly(default: int, snap: Snapshot, user: string, dim: UserLimit -> int, cap: int)
    requires Resolves(default, snap, user, dim, cap)
    ensures NoLooser(cap, default) <==> default <= 0 || Within(default, snap, user, dim)
  {
    if user !in snap.userLimits {
      var caps := Caps(snap.teamLimits, TeamsOf(snap, user), dim);
      if v :| v in caps && 0 < v <= default {
        assert IsTightest(caps, cap) && cap <= v;
      }
    }
  }

  function OneTeam(rpm: int): Snapshot {
    Snapshot(map[], map["t" := UserLimit(rpm, -1)], map["u" := ["t"]])
  }

  /** One team of unlimited members lifts the default, and so does one with a cap above it. */
  lemma TeamMayLiftDefault(default: int, rpm: int, cap: int)
    requires default > 0 && (rpm == 0 || rpm > default)
    requires Resolves(default, OneTeam(rpm), "u", Rpm, cap)
    ensures cap == rpm && !NoLooser(cap, default)
  {
    var snap := OneTeam(rpm);
    assert "t" in TeamsOf(snap, "u");
    assert Caps(snap.teamLimits, TeamsOf(snap, "u"), Rpm) == {rpm};
  }
}
