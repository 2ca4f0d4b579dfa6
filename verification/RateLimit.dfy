/** gateway/internal/ratelimit/ratelimit.go: request windows and daily token counters. */
module RateLimit {
  import opened Wrappers

  /** 0 turns a dimension off. */
  datatype Limits = Limits(rpm: int, dailyTokens: int)

  datatype Window = Window(start: nat, count: int)
  datatype DayCount = DayCount(day: int, tokens: int)
  datatype Decision = Admitted | QuotaExceeded | RateLimited

  // Times are nanoseconds since the Unix epoch.
  const MINUTE: nat := 60_000_000_000
  const DAY: nat := 1440 * MINUTE

  // ---------- the UTC day ----------

  function YearLen(year: int): nat {
    if year % 4 == 0 && (year % 100 != 0 || year % 400 == 0) then 366 else 365
  }

  /** year*1000 + yearday of the day that comes `days` days after the first of January of `year` */
  function KeyFrom(year: nat, days: nat): (key: int)
    ensures key > year * 1000
    decreases days
  {
    if days < YearLen(year) then year * 1000 + days + 1 else KeyFrom(year + 1, days - YearLen(year))
  }

  function DayKey(now: nat): int {
    KeyFrom(1970, now / DAY)
  }

  lemma {:induction false} KeyFromOrder(year: nat, d: nat, e: nat)
    requires d < e
    ensures KeyFrom(year, d) < KeyFrom(year, e)
    decreases d
  {
    if YearLen(year) <= d {
      KeyFromOrder(year + 1, d - YearLen(year), e - YearLen(year));
    }
  }

  /** The key orders days as time does, and tells any two days apart. */
  lemma DayKeyOrder(t: nat, u: nat)
    ensures DayKey(t) == DayKey(u) <==> t / 86_400_000_000_000 == u / 86_400_000_000_000
    ensures t <= u ==> DayKey(t) <= DayKey(u)
  {
    if t / DAY < u / DAY {
      KeyFromOrder(1970, t / DAY, u / DAY);
    } else if u / DAY < t / DAY {
      KeyFromOrder(1970, u / DAY, t / DAY);
    }
  }

  /** The days from the first of January 1970 to that of the year. */
  function DaysBefore(year: nat): int {
    365 * (year - 1970) + (year - 1) / 4 - (year - 1) / 100 + (year - 1) / 400 - 477
  }

  lemma Multiples(n: nat)
    ensures (n + 1) / 4 == n / 4 + if (n + 1) % 4 == 0 then 1 else 0
    ensures (n + 1) / 100 == n / 100 + if (n + 1) % 100 == 0 then 1 else 0
    ensures (n + 1) / 400 == n / 400 + if (n + 1) % 400 == 0 then 1 else 0
  {
  }

  /** A multiple of a multiple of n. */
  lemma Remainder(x: nat, n: nat, q: nat, r: nat, k: int)
    requires n > 0 && x == n * q + r && r < n && x == n * k
    ensures r == 0
  {
    if k > q {
      assert n * k >= n * (q + 1);
    } else if k < q {
      assert n * k <= n * (q - 1);
    }
  }

  lemma Centuries(year: nat)
    ensures year % 400 == 0 ==> year % 100 == 0
    ensures year % 100 == 0 ==> year % 4 == 0
  {
    var c, y, q := year / 400, year / 100, year / 4;
    if year == 400 * c {
      Remainder(year, 100, y, year - 100 * y, 4 * c);
    }
    if year == 100 * y {
      Remainder(year, 4, q, year - 4 * q, 25 * y);
    }
  }

  lemma YearAdds(year: nat)
    requires year > 0
    ensures DaysBefore(year + 1) == DaysBefore(year) + YearLen(year)
  {
    Multiples(year - 1);
    Centuries(year);
  }

  lemma {:induction false} KeyFromExactly(year: nat, days: nat) returns (y: nat, d: nat)
    requires year > 0
    ensures KeyFrom(year, days) == y * 1000 + d && y > 0
    ensures 1 <= d <= YearLen(y) && DaysBefore(year) + days == DaysBefore(y) + d - 1
    decreases days
  {
    hide DaysBefore, YearLen;
    if days < YearLen(year) {
      y, d := year, days + 1;
    } else {
      YearAdds(year);
      YearPositive(year);
      y, d := KeyFromExactly(year + 1, days - YearLen(year));
    }
  }

  lemma YearPositive(year: nat)
    ensures YearLen(year) > 0
  {
  }

  /** The key is the year and the day of the year, counted from 1. */
  lemma DayKeyExactly(now: nat) returns (year: nat, day: nat)
    ensures DayKey(now) == year * 1000 + day
    ensures 1 <= day <= DaysBefore(year + 1) - DaysBefore(year)
    ensures now / 86_400_000_000_000 == DaysBefore(year) + day - 1
  {
    hide DaysBefore, YearLen;
    year, day := KeyFromExactly(1970, now / DAY);
    YearAdds(year);
    FirstYear();
  }

  lemma FirstYear()
    ensures DaysBefore(1970) == 0
  {
  }

  // ---------- one call ----------

  datatype State = State(reqs: map<string, Window>, toks: map<string, DayCount>)

  const EMPTY := State(map[], map[])

  /** The tokens counted for a user on a day. */
  function TokensOn(st: State, user: string, day: int): int {
    if user in st.toks && st.toks[user].day == day then st.toks[user].tokens else 0
  }

  /** The window that a request at `now` falls into. */
  function WindowAt(st: State, user: string, now: nat): Window {
    if user in st.reqs && now - st.reqs[user].start < MINUTE then st.reqs[user] else Window(now, 0)
  }

  function DecisionOf(st: State, user: string, lim: Limits, now: nat): Decision {
    if lim.dailyTokens > 0 && TokensOn(st, user, DayKey(now)) >= lim.dailyTokens then QuotaExceeded
    else if lim.rpm > 0 && WindowAt(st, user, now).count >= lim.rpm then RateLimited
    else Admitted
  }

  function AfterAllow(st: State, user: string, lim: Limits, now: nat): State {
    var toks :=
      if lim.dailyTokens > 0 then st.toks[user := DayCount(DayKey(now), TokensOn(st, user, DayKey(now)))]
      else st.toks;
    var w := WindowAt(st, user, now);
    var reqs :=
      match DecisionOf(st, user, lim, now)
      case QuotaExceeded => st.reqs
      case RateLimited => st.reqs[user := w]
      case Admitted => if lim.rpm > 0 then st.reqs[user := w.(count := w.count + 1)] else st.reqs;
    State(reqs, toks)
  }

  function AfterAdd(st: State, user: string, n: int, now: nat): State {
    if n <= 0 then st
    else st.(toks := st.toks[user := DayCount(DayKey(now), TokensOn(st, user, DayKey(now)) + n)])
  }

  class Limiter {
    var reqs: map<string, Window>
    var toks: map<string, DayCount>

    ghost function Abs(): State
      reads this
    {
      State(reqs, toks)
    }

    constructor ()
      ensures Abs() == EMPTY
    {
      reqs, toks := map[], map[];
    }

    /** Checks both dimensions and, if both allow it, takes one request slot. */
    method Allow(user: string, lim: Limits, now: nat) returns (ok: bool, reason: string)
      modifies this
      ensures Abs() == AfterAllow(old(Abs()), user, lim, now)
      ensures ok <==> DecisionOf(old(Abs()), user, lim, now).Admitted?
      ensures reason == match DecisionOf(old(Abs()), user, lim, now)
                        case Admitted => ""
                        case QuotaExceeded => "quota_exceeded"
                        case RateLimited => "rate_limited"
    {
      if lim.dailyTokens > 0 {
        if user !in toks || toks[user].day != DayKey(now) {
          toks := toks[user := DayCount(DayKey(now), 0)];
        }
        assert toks == old(toks)[user := DayCount(DayKey(now), TokensOn(old(Abs()), user, DayKey(now)))];
        if toks[user].tokens >= lim.dailyTokens {
          return false, "quota_exceeded";
        }
      }
      if lim.rpm > 0 {
        if user !in reqs || now - reqs[user].start >= MINUTE {
          reqs := reqs[user := Window(now, 0)];
        }
        assert reqs == old(reqs)[user := WindowAt(old(Abs()), user, now)];
        if reqs[user].count >= lim.rpm {
          return false, "rate_limited";
        }
        reqs := reqs[user := reqs[user].(count := reqs[user].count + 1)];
      }
      return true, "";
    }

    /** Adds used tokens to the user's day. */
    method AddTokens(user: string, n: int, now: nat)
      modifies this
      ensures Abs() == AfterAdd(old(Abs()), user, n, now)
    {
      if n <= 0 {
        return;
      }
      if user !in toks || toks[user].day != DayKey(now) {
        toks := toks[user := DayCount(DayKey(now), 0)];
      }
      toks := toks[user := toks[user].(tokens := toks[user].tokens + n)];
    }
  }

  // ---------- runs ----------

  /** End marks the end of an admitted request that is never charged; the limiter does not see it. */
  datatype Call =
    | Ask(user: string, lim: Limits, now: nat)
    | Charge(user: string, n: int, now: nat)
    | End(user: string, now: nat)

  function Next(st: State, c: Call): State {
    match c
    case Ask(user, lim, now) => AfterAllow(st, user, lim, now)
    case Charge(user, n, now) => AfterAdd(st, user, n, now)
    case End(_, _) => st
  }

  function After(calls: seq<Call>): State {
    if calls == [] then EMPTY else Next(After(calls[..|calls|-1]), calls[|calls|-1])
  }

  /** The calls took the lock in the order of their timestamps. */
  predicate Ordered(calls: seq<Call>) {
    forall i, j | 0 <= i < j < |calls| :: calls[i].now <= calls[j].now
  }

  /** The last call of the run is a request of the user, and it was let through. */
  predicate AdmittedLast(calls: seq<Call>, user: string)
    requires calls != []
  {
    var c := calls[|calls|-1];
    c.Ask? && c.user == user && DecisionOf(After(calls[..|calls|-1]), user, c.lim, c.now).Admitted?
  }

  /** How many of the user's requests were admitted at time x or later. */
  function Since(calls: seq<Call>, user: string, x: int): nat {
    if calls == [] then 0
    else
      Since(calls[..|calls|-1], user, x) +
      if AdmittedLast(calls, user) && x <= calls[|calls|-1].now then 1 else 0
  }

  /** How many were admitted from x (included) to y (excluded). */
  function AdmittedIn(calls: seq<Call>, user: string, x: int, y: int): nat {
    if calls == [] then 0
    else
      AdmittedIn(calls[..|calls|-1], user, x, y) +
      if AdmittedLast(calls, user) && x <= calls[|calls|-1].now < y then 1 else 0
  }

  predicate FixedRate(calls: seq<Call>, user: string, rate: int) {
    forall k | 0 <= k < |calls| && calls[k].Ask? && calls[k].user == user :: calls[k].lim.rpm == rate
  }

  // ---------- the request rate ----------

  function WindowOf(calls: seq<Call>, user: string): Option<Window> {
    var reqs := After(calls).reqs;
    if user in reqs then Some(reqs[user]) else None
  }

  /** What the user's window says about n, the number of requests admitted since x. */
  ghost predicate Tells(win: Option<Window>, rate: int, x: int, n: nat) {
    match win
    case None => n == 0
    case Some(w) =>
      && 1 <= w.count <= rate
      && (x == w.start ==> n == w.count)
      && (x > w.start ==> n < w.count)
      && (x >= w.start + MINUTE ==> n == 0)
      && (x <= w.start ==> n <= w.count + rate * ((w.start - x) / MINUTE) + rate - 1)
  }

  lemma SameWindow(w: Window, rate: int, x: int, n: nat, now: nat)
    requires rate > 0 && Tells(Some(w), rate, x, n) && w.count < rate
    requires w.start <= now < w.start + MINUTE
    ensures Tells(Some(w.(count := w.count + 1)), rate, x, if x <= now then n + 1 else n)
  {
  }

  lemma NewWindow(win: Option<Window>, rate: int, x: int, n: nat, now: nat)
    requires rate > 0 && Tells(win, rate, x, n)
    requires win.Some? ==> win.value.start + MINUTE <= now
    ensures Tells(Some(Window(now, 1)), rate, x, if x <= now then n + 1 else n)
  {
    if x <= now {
      var q := (now - x) / MINUTE;
      assert rate * q >= 0;
      if win.Some? && x <= win.value.start {
        var p := (win.value.start - x) / MINUTE;
        assert p + 1 <= q;
        assert rate * p + rate == rate * (p + 1) <= rate * q;
      }
    }
  }

  lemma {:induction false} WindowInv(calls: seq<Call>, user: string, rate: int, x: int)
    requires rate > 0 && Ordered(calls) && FixedRate(calls, user, rate)
    ensures Tells(WindowOf(calls, user), rate, x, Since(calls, user, x))
    ensures WindowOf(calls, user).Some? ==> calls != [] && WindowOf(calls, user).value.start <= calls[|calls|-1].now
  {
    if calls != [] {
      hide Tells;
      var prefix, c := calls[..|calls|-1], calls[|calls|-1];
      WindowInv(prefix, user, rate, x);
      var win, n := WindowOf(prefix, user), Since(prefix, user, x);
      if AdmittedLast(calls, user) {
        if win.Some? && c.now - win.value.start < MINUTE {
          SameWindow(win.value, rate, x, n, c.now);
        } else {
          NewWindow(win, rate, x, n, c.now);
        }
      } else {
        RefusedKeepsWindow(calls, user, rate, x);
      }
    } else {
      assert WindowOf(calls, user).None?;
    }
  }

  /** A refusal comes from a full, current window, so it opens no new one. */
  lemma RefusedKeepsWindow(calls: seq<Call>, user: string, rate: int, x: int)
    requires rate > 0 && FixedRate(calls, user, rate) && calls != [] && !AdmittedLast(calls, user)
    ensures WindowOf(calls, user) == WindowOf(calls[..|calls|-1], user)
  {
  }

  // ---------- how many requests an interval of time can admit ----------

  function MinutesIn(length: nat): nat {
    (length + MINUTE - 1) / MINUTE
  }

  lemma WindowBound(w: Window, rate: int, x: int, n: nat, y: int)
    requires rate > 0 && Tells(Some(w), rate, x, n) && x < y && w.start < y
    ensures n <= rate * MinutesIn(y - x) + rate - 1
  {
    var m := MinutesIn(y - x);
    assert rate * m >= 0;
    if x <= w.start {
      var q := (w.start - x) / MINUTE;
      assert q + 1 <= m;
      assert rate * q + rate == rate * (q + 1) <= rate * m;
    }
  }

  /** In any interval at most rate per started minute, and rate - 1 more. */
  lemma {:induction false} IntervalBound(calls: seq<Call>, user: string, rate: int, x: int, y: int)
    requires rate > 0 && Ordered(calls) && FixedRate(calls, user, rate) && x < y
    ensures AdmittedIn(calls, user, x, y) <= rate * MinutesIn(y - x) + rate - 1
  {
    if calls == [] {
      assert rate * MinutesIn(y - x) >= 0;
    } else {
      hide Tells;
      IntervalBound(calls[..|calls|-1], user, rate, x, y);
      var now := calls[|calls|-1].now;
      if AdmittedLast(calls, user) && x <= now < y {
        SinceBoundsInterval(calls, user, x, y);
        WindowInv(calls, user, rate, x);
        WindowBound(WindowOf(calls, user).value, rate, x, Since(calls, user, x), y);
      }
    }
  }

  lemma {:induction false} SinceBoundsInterval(calls: seq<Call>, user: string, x: int, y: int)
    ensures AdmittedIn(calls, user, x, y) <= Since(calls, user, x)
  {
    if calls != [] {
      SinceBoundsInterval(calls[..|calls|-1], user, x, y);
    }
  }

  /** A rate refusal means that `rate` requests were admitted since some time less than a minute ago. */
  lemma RefusedOnlyWhenFull(calls: seq<Call>, user: string, lim: Limits, now: nat) returns (start: nat)
    requires lim.rpm > 0 && Ordered(calls + [Ask(user, lim, now)]) && FixedRate(calls, user, lim.rpm)
    requires DecisionOf(After(calls), user, lim, now) == RateLimited
    ensures start <= now < start + MINUTE && Since(calls, user, start) == lim.rpm
  {
    var all := calls + [Ask(user, lim, now)];
    assert forall i | 0 <= i < |calls| :: all[i] == calls[i] && all[i].now <= all[|calls|].now;
    start := WindowOf(calls, user).value.start;
    WindowInv(calls, user, lim.rpm, start);
  }

  /** Without a limit on requests none is refused for its rate. */
  lemma ZeroIsUnlimited(calls: seq<Call>, user: string, lim: Limits, now: nat)
    ensures lim.rpm <= 0 ==> DecisionOf(After(calls), user, lim, now) != RateLimited
    ensures lim.dailyTokens <= 0 ==> DecisionOf(After(calls), user, lim, now) != QuotaExceeded
  {
  }

  /** A request within its quota is refused exactly if the user's window is current and as many were admitted in it. */
  lemma RateExact(calls: seq<Call>, user: string, lim: Limits, now: nat)
    requires lim.rpm > 0 && Ordered(calls + [Ask(user, lim, now)]) && FixedRate(calls, user, lim.rpm)
    requires DecisionOf(After(calls), user, lim, now) != QuotaExceeded
    ensures DecisionOf(After(calls), user, lim, now) == RateLimited <==>
            var win := WindowOf(calls, user);
            win.Some? && now < win.value.start + 60_000_000_000 && Since(calls, user, win.value.start) == lim.rpm
  {
    var all := calls + [Ask(user, lim, now)];
    assert forall i | 0 <= i < |calls| :: all[i] == calls[i];
    var win := WindowOf(calls, user);
    if win.Some? {
      WindowInv(calls, user, lim.rpm, win.value.start);
    }
  }

  // ---------- the documented bound ----------

  /** No minute ever admits more than `rate` requests of a user. */
  ghost predicate RollingBound(rate: int) {
    forall calls: seq<Call>, user: string, x: int | Ordered(calls) && FixedRate(calls, user, rate) ::
      InMinute(calls, user, x) <= rate
  }

  function InMinute(calls: seq<Call>, user: string, x: int): nat {
    AdmittedIn(calls, user, x, x + 60_000_000_000)
  }

  const ANY := "u"

  /** One request at 0, rate - 1 at the end of its minute, and rate at the start of the next. */
  function StraddleTime(rate: int, k: nat): nat {
    if k == 0 then 0 else if k < rate then MINUTE - 1 else MINUTE
  }

  function Straddle(rate: int): seq<Call>
    requires rate > 0
  {
    seq(2 * rate, k requires 0 <= k => Ask(ANY, Limits(rate, 0), StraddleTime(rate, k)))
  }

  /** After n of these requests: all were admitted, and all but the first within one minute. */
  predicate Straddled(rate: int, n: nat, calls: seq<Call>) {
    && ANY !in After(calls).toks
    && WindowOf(calls, ANY) ==
       (if n == 0 then None else if n <= rate then Some(Window(0, n)) else Some(Window(MINUTE, n - rate)))
    && InMinute(calls, ANY, MINUTE - 1) == if n == 0 then 0 else n - 1
  }

  lemma StraddleNext(rate: int, n: nat, calls: seq<Call>)
    requires n < 2 * rate && calls != []
    requires calls[|calls|-1] == Ask(ANY, Limits(rate, 0), StraddleTime(rate, n))
    requires Straddled(rate, n, calls[..|calls|-1])
    ensures Straddled(rate, n + 1, calls)
  {
    var prefix := calls[..|calls|-1];
    assert After(calls) == Next(After(prefix), calls[|calls|-1]);
    hide After;
    assert AdmittedLast(calls, ANY);
  }

  lemma {:induction false} StraddleRuns(rate: int, n: nat)
    requires rate > 0 && n <= 2 * rate
    ensures Straddled(rate, n, Straddle(rate)[..n])
    decreases n
  {
    if n > 0 {
      StraddleRuns(rate, n - 1);
      hide Straddled;
      var calls := Straddle(rate)[..n];
      assert calls[..n-1] == Straddle(rate)[..n-1];
      StraddleNext(rate, n - 1, calls);
    }
  }

  /** The limit is a bound for every minute only if it is one request. */
  lemma RollingBoundExact(rate: int)
    requires rate > 0
    ensures RollingBound(rate) <==> rate == 1
  {
    if rate == 1 {
      forall calls: seq<Call>, user: string, x: int | Ordered(calls) && FixedRate(calls, user, rate)
        ensures InMinute(calls, user, x) <= rate
      {
        IntervalBound(calls, user, rate, x, x + MINUTE);
      }
    } else {
      var calls := Straddle(rate);
      StraddleRuns(rate, 2 * rate);
      assert calls[..2 * rate] == calls;
      assert Ordered(calls) && FixedRate(calls, ANY, rate);
      assert InMinute(calls, ANY, MINUTE - 1) == 2 * rate - 1;
    }
  }

  // ---------- the daily quota ----------

  /** The tokens charged to a user on a day. */
  function Usage(calls: seq<Call>, user: string, day: int): int {
    if calls == [] then 0
    else
      var c := calls[|calls|-1];
      Usage(calls[..|calls|-1], user, day) +
      if c.Charge? && c.user == user && c.n > 0 && DayKey(c.now) == day then c.n else 0
  }

  /** Does the call read or write the user's token counter? */
  predicate Touches(c: Call, user: string) {
    c.user == user &&
    match c
    case Ask(_, lim, _) => lim.dailyTokens > 0
    case Charge(_, n, _) => n > 0
    case End(_, _) => false
  }

  predicate Spends(c: Call, user: string, day: int) {
    c.Charge? && Touches(c, user) && DayKey(c.now) == day
  }

  /** After a charge of the day no call touches the user's counter under another day. */
  predicate Undisturbed(calls: seq<Call>, user: string, day: int) {
    forall i, j | 0 <= i < j < |calls| && Spends(calls[i], user, day) && Touches(calls[j], user) ::
      DayKey(calls[j].now) == day
  }

  lemma {:induction false} UsageIsSpent(calls: seq<Call>, user: string, day: int)
    ensures Usage(calls, user, day) >= 0
    ensures Usage(calls, user, day) == 0 <==> forall i | 0 <= i < |calls| :: !Spends(calls[i], user, day)
  {
    if calls != [] {
      var prefix := calls[..|calls|-1];
      hide DayKey;
      UsageIsSpent(prefix, user, day);
      assert forall i | 0 <= i < |prefix| :: prefix[i] == calls[i];
    }
  }

  lemma UndisturbedNext(calls: seq<Call>, user: string, day: int)
    requires calls != []
    ensures var prefix, c := calls[..|calls|-1], calls[|calls|-1];
            Undisturbed(calls, user, day) <==>
            Undisturbed(prefix, user, day) &&
            (Touches(c, user) && DayKey(c.now) != day ==> forall i | 0 <= i < |prefix| :: !Spends(prefix[i], user, day))
  {
    hide DayKey, Touches, Spends;
    var prefix := calls[..|calls|-1];
    assert forall i | 0 <= i < |prefix| :: prefix[i] == calls[i];
  }

  /** In any run the counter is at most the day's usage, and equal to it exactly if no other day came in between. */
  lemma {:induction false} CounterExact(calls: seq<Call>, user: string, day: int)
    ensures TokensOn(After(calls), user, day) <= Usage(calls, user, day)
    ensures TokensOn(After(calls), user, day) == Usage(calls, user, day) <==> Undisturbed(calls, user, day)
  {
    if calls != [] {
      var prefix, c := calls[..|calls|-1], calls[|calls|-1];
      CounterExact(prefix, user, day);
      UndisturbedNext(calls, user, day);
      UsageIsSpent(prefix, user, day);
      CounterNext(After(prefix), c, user, day);
      hide After, Next, DayKey, Undisturbed, TokensOn;
      AfterNext(calls);
      if Usage(prefix, user, day) == 0 {
        NoneSpent(prefix, user, day);
      }
    }
  }

  lemma AfterNext(calls: seq<Call>)
    requires calls != []
    ensures After(calls) == Next(After(calls[..|calls|-1]), calls[|calls|-1])
  {
  }

  lemma NoneSpent(calls: seq<Call>, user: string, day: int)
    requires Usage(calls, user, day) == 0
    ensures Undisturbed(calls, user, day)
  {
    UsageIsSpent(calls, user, day);
  }

  lemma CounterNext(st: State, c: Call, user: string, day: int)
    ensures TokensOn(Next(st, c), user, day) ==
            if Touches(c, user) && DayKey(c.now) != day then 0
            else TokensOn(st, user, day) + if Spends(c, user, day) then c.n else 0
  {
    hide DayKey;
  }

  /** Timestamps in lock order leave the counter of the current day alone. */
  lemma OrderedUndisturbed(calls: seq<Call>, user: string, day: int)
    requires Ordered(calls) && (calls != [] ==> DayKey(calls[|calls|-1].now) <= day)
    ensures Undisturbed(calls, user, day)
  {
    hide DayKey;
    forall i, j | 0 <= i < j < |calls| && Spends(calls[i], user, day)
      ensures DayKey(calls[j].now) == day
    {
      DayKeyOrder(calls[i].now, calls[j].now);
      DayKeyOrder(calls[j].now, calls[|calls|-1].now);
    }
  }

  /** The counter is exact for the current day. */
  lemma CounterIsUsage(calls: seq<Call>, user: string, day: int)
    requires Ordered(calls) && (calls != [] ==> DayKey(calls[|calls|-1].now) <= day)
    ensures TokensOn(After(calls), user, day) == Usage(calls, user, day)
  {
    OrderedUndisturbed(calls, user, day);
    CounterExact(calls, user, day);
  }

  /** No day later than the last call's has a counter. */
  lemma {:induction false} CounterNotAhead(calls: seq<Call>, user: string)
    requires Ordered(calls)
    ensures user in After(calls).toks ==> calls != [] && After(calls).toks[user].day <= DayKey(calls[|calls|-1].now)
  {
    if calls != [] {
      OrderedPrefix(calls);
      hide DayKey;
      CounterNotAhead(calls[..|calls|-1], user);
    }
  }

  /** A request is refused for its quota exactly when the day's charges have reached it; in any run, never earlier. */
  lemma QuotaExact(calls: seq<Call>, user: string, lim: Limits, now: nat)
    ensures DecisionOf(After(calls), user, lim, now) == QuotaExceeded ==>
              lim.dailyTokens > 0 && Usage(calls, user, DayKey(now)) >= lim.dailyTokens
    ensures Undisturbed(calls, user, DayKey(now)) ==>
              (DecisionOf(After(calls), user, lim, now) == QuotaExceeded <==>
               lim.dailyTokens > 0 && Usage(calls, user, DayKey(now)) >= lim.dailyTokens)
  {
    CounterExact(calls, user, DayKey(now));
  }

  /** Admitted requests of the user that have been neither charged nor ended; each is, once. */
  function InFlight(calls: seq<Call>, user: string): int {
    if calls == [] then 0
    else
      var c := calls[|calls|-1];
      InFlight(calls[..|calls|-1], user) +
      if AdmittedLast(calls, user) then 1 else if !c.Ask? && c.user == user then -1 else 0
  }

  /** The user has a fixed quota, at most k requests at once, and no charge above m. */
  predicate Metered(calls: seq<Call>, user: string, quota: int, k: int, m: int) {
    && (forall i | 0 <= i < |calls| && calls[i].user == user ::
          match calls[i]
          case Ask(_, lim, _) => lim.dailyTokens == quota
          case Charge(_, n, _) => n <= m
          case End(_, _) => true)
    && (forall i | 0 <= i <= |calls| :: 0 <= InFlight(calls[..i], user) <= k)
  }

  lemma MeteredPrefix(calls: seq<Call>, user: string, quota: int, k: int, m: int)
    requires calls != [] && Metered(calls, user, quota, k, m)
    ensures Metered(calls[..|calls|-1], user, quota, k, m)
    ensures 0 <= InFlight(calls, user) <= k
  {
    var prefix := calls[..|calls|-1];
    assert calls[..|calls|] == calls;
    assert forall i | 0 <= i <= |prefix| :: prefix[..i] == calls[..i];
  }

  /** However admissions and later charges interleave, the requests in flight bound the overshoot. */
  lemma {:induction false} QuotaOvershoot(calls: seq<Call>, user: string, day: int, quota: int, k: nat, m: nat)
    requires quota > 0 && Ordered(calls) && Metered(calls, user, quota, k, m)
    ensures Usage(calls, user, day) <= quota - 1 + k * m
    ensures calls == [] || DayKey(calls[|calls|-1].now) <= day ==>
              Usage(calls, user, day) + InFlight(calls, user) * m <= quota - 1 + k * m
  {
    if calls == [] {
      Room(0, 0, quota, k, m);
    } else {
      hide Metered, DecisionOf, DayKey, After, Ordered;
      var prefix, c := calls[..|calls|-1], calls[|calls|-1];
      MeteredPrefix(calls, user, quota, k, m);
      OrderedPrefix(calls);
      QuotaOvershoot(prefix, user, day, quota, k, m);
      if AdmittedLast(calls, user) && DayKey(c.now) <= day {
        AdmittedUnderQuota(calls, user, day, quota, k, m);
      } else if !c.Ask? && c.user == user {
        Settle(Usage(prefix, user, day), InFlight(prefix, user), if c.Charge? then c.n else 0, quota - 1 + k * m, m);
      }
    }
  }

  lemma OrderedPrefix(calls: seq<Call>)
    requires calls != [] && Ordered(calls)
    ensures var prefix := calls[..|calls|-1];
            && Ordered(prefix)
            && (prefix != [] ==> DayKey(prefix[|prefix|-1].now) <= DayKey(calls[|calls|-1].now))
  {
    if |calls| > 1 {
      DayKeyOrder(calls[|calls|-2].now, calls[|calls|-1].now);
    }
  }

  lemma Room(used: int, flying: int, quota: int, k: nat, m: nat)
    requires used <= quota - 1 && flying <= k
    ensures used + flying * m <= quota - 1 + k * m && used <= quota - 1 + k * m
  {
    assert flying * m <= k * m;
  }

  lemma Settle(used: int, flying: int, n: int, room: int, m: nat)
    requires flying >= 1 && n <= m
    ensures used + flying * m <= room ==> used + (if n > 0 then n else 0) + (flying - 1) * m <= room
    ensures used + flying * m <= room ==> used + (if n > 0 then n else 0) <= room
  {
    assert flying * m == (flying - 1) * m + m;
    assert (flying - 1) * m >= 0;
  }

  lemma AdmittedUnderQuota(calls: seq<Call>, user: string, day: int, quota: int, k: nat, m: nat)
    requires quota > 0 && Ordered(calls) && Metered(calls, user, quota, k, m)
    requires calls != [] && AdmittedLast(calls, user) && DayKey(calls[|calls|-1].now) <= day
    ensures Usage(calls, user, day) + InFlight(calls, user) * m <= quota - 1 + k * m
  {
    var prefix, c := calls[..|calls|-1], calls[|calls|-1];
    MeteredPrefix(calls, user, quota, k, m);
    assert prefix + [c] == calls;
    if DayKey(c.now) < day {
      OrderedPrefix(calls);
      FutureUnused(prefix, user, day);
    } else {
      OrderedPrefix(calls);
      OrderedUndisturbed(prefix, user, day);
      QuotaExact(prefix, user, c.lim, c.now);
    }
    Room(Usage(calls, user, day), InFlight(calls, user), quota, k, m);
  }

  lemma {:induction false} FutureUnused(calls: seq<Call>, user: string, day: int)
    requires Ordered(calls) && (calls != [] ==> DayKey(calls[|calls|-1].now) < day)
    ensures Usage(calls, user, day) == 0
  {
    if calls != [] {
      var prefix := calls[..|calls|-1];
      if prefix != [] {
        DayKeyOrder(prefix[|prefix|-1].now, calls[|calls|-1].now);
      }
      FutureUnused(prefix, user, day);
    }
  }

  /**
   A call that read the clock a nanosecond before midnight and took the lock after
   it resets the counter of the new day: a user whose quota is spent is let in again.
  */
  lemma StaleCallResets(quota: nat)
    requires quota > 0
    ensures var lim := Limits(0, quota);
            var calls := [Charge(ANY, quota, DAY), Ask(ANY, lim, DAY - 1)];
            && !Undisturbed(calls, ANY, DayKey(DAY)) && Usage(calls, ANY, DayKey(DAY)) == quota
            && DecisionOf(After(calls), ANY, lim, DAY) == Admitted
  {
    var lim := Limits(0, quota);
    var first, late := Charge(ANY, quota, DAY), Ask(ANY, lim, DAY - 1);
    var calls := [first, late];
    DayKeyOrder(DAY - 1, DAY);
    assert DayKey(DAY - 1) != DayKey(DAY);
    hide DayKey;
    assert calls[..1] == [first] && [first][..0] == [];
    assert Usage([first], ANY, DayKey(DAY)) == quota + Usage([], ANY, DayKey(DAY));
    assert Spends(calls[0], ANY, DayKey(DAY)) && Touches(calls[1], ANY);
    CounterNext(After([first]), late, ANY, DayKey(DAY));
    AfterNext(calls);
  }

  // ---------- users do not affect each other ----------

  function Only(calls: seq<Call>, user: string): seq<Call> {
    if calls == [] then []
    else
      Only(calls[..|calls|-1], user) + if calls[|calls|-1].user == user then [calls[|calls|-1]] else []
  }

  /** What the user is told, in order. */
  function Decisions(calls: seq<Call>, user: string): seq<Decision> {
    if calls == [] then []
    else
      var prefix, c := calls[..|calls|-1], calls[|calls|-1];
      Decisions(prefix, user) +
      if c.Ask? && c.user == user then [DecisionOf(After(prefix), user, c.lim, c.now)] else []
  }

  predicate SameFor(a: State, b: State, user: string) {
    && (user in a.reqs <==> user in b.reqs) && (user in a.reqs ==> a.reqs[user] == b.reqs[user])
    && (user in a.toks <==> user in b.toks) && (user in a.toks ==> a.toks[user] == b.toks[user])
  }

  /** A user gets the answers he would get if he were alone. */
  lemma {:induction false} Isolation(calls: seq<Call>, user: string)
    ensures SameFor(After(calls), After(Only(calls, user)), user)
    ensures Decisions(calls, user) == Decisions(Only(calls, user), user)
  {
    if calls != [] {
      var prefix, c := calls[..|calls|-1], calls[|calls|-1];
      Isolation(prefix, user);
      var st, alone := After(prefix), After(Only(prefix, user));
      SameForNext(st, alone, c, user);
      if c.user == user {
        var own := Only(calls, user);
        assert own == Only(prefix, user) + [c];
        assert own[..|own|-1] == Only(prefix, user) && own[|own|-1] == c;
      } else {
        assert Only(calls, user) == Only(prefix, user);
      }
    }
  }

  lemma SameForNext(a: State, b: State, c: Call, user: string)
    requires SameFor(a, b, user)
    ensures SameFor(Next(a, c), if c.user == user then Next(b, c) else b, user)
    ensures c.user == user && c.Ask? ==> DecisionOf(a, user, c.lim, c.now) == DecisionOf(b, user, c.lim, c.now)
  {
  }

  // ---------- a refusal leaves no trace ----------

  /** Two states no later call can tell apart, from the day of `now` on. */
  ghost predicate Alike(a: State, b: State, now: nat) {
    && a.reqs == b.reqs
    && forall user: string, day: int :: day >= DayKey(now) ==> TokensOn(a, user, day) == TokensOn(b, user, day)
  }

  function Outcomes(st: State, calls: seq<Call>): seq<Decision>
    decreases |calls|
  {
    if calls == [] then []
    else
      (if calls[0].Ask? then [DecisionOf(st, calls[0].user, calls[0].lim, calls[0].now)] else []) +
      Outcomes(Next(st, calls[0]), calls[1..])
  }

  lemma AlikeNext(a: State, b: State, now: nat, c: Call)
    requires Alike(a, b, now) && now <= c.now
    ensures Alike(Next(a, c), Next(b, c), c.now)
    ensures c.Ask? ==> DecisionOf(a, c.user, c.lim, c.now) == DecisionOf(b, c.user, c.lim, c.now)
  {
    DayKeyOrder(now, c.now);
    assert TokensOn(a, c.user, DayKey(c.now)) == TokensOn(b, c.user, DayKey(c.now));
    forall user: string, day: int | day >= DayKey(c.now)
      ensures TokensOn(Next(a, c), user, day) == TokensOn(Next(b, c), user, day)
    {
      assert TokensOn(a, user, day) == TokensOn(b, user, day);
    }
  }

  lemma {:induction false} AlikeOutcomes(a: State, b: State, now: nat, calls: seq<Call>)
    requires Alike(a, b, now) && Ordered(calls) && (calls != [] ==> now <= calls[0].now)
    ensures Outcomes(a, calls) == Outcomes(b, calls)
    decreases |calls|
  {
    if calls != [] {
      AlikeNext(a, b, now, calls[0]);
      AlikeOutcomes(Next(a, calls[0]), Next(b, calls[0]), calls[0].now, calls[1..]);
    }
  }

  /** Taking a refused request out of a run changes no later answer. */
  lemma RefusalLeavesNoTrace(before: seq<Call>, user: string, lim: Limits, now: nat, later: seq<Call>)
    requires Ordered(before + [Ask(user, lim, now)] + later)
    requires !DecisionOf(After(before), user, lim, now).Admitted?
    ensures Outcomes(After(before + [Ask(user, lim, now)]), later) == Outcomes(After(before), later)
  {
    var c := Ask(user, lim, now);
    var all := before + [c] + later;
    var st := After(before);
    assert (before + [c])[..|before|] == before;
    assert forall i | 0 <= i < |later| :: all[|before| + 1 + i] == later[i];
    assert Ordered(later);
    assert later != [] ==> all[|before|].now <= all[|before| + 1].now;
    assert forall i | 0 <= i < |before| :: all[i] == before[i] && all[i].now <= all[|before|].now;
    forall day: int | day >= DayKey(now)
      ensures TokensOn(Next(st, c), user, day) == TokensOn(st, user, day)
    {
      if before != [] {
        DayKeyOrder(before[|before|-1].now, now);
      }
      CounterNotAhead(before, user);
    }
    assert Next(st, c).reqs == st.reqs;
    AlikeOutcomes(Next(st, c), st, now, later);
  }
}
