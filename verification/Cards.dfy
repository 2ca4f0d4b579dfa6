/** gateway/internal/policy/policy.go: the card rule, which has several matches to choose from. */
module Cards {
  import opened Wrappers
  import opened Regexp
  import opened RegexpLemmas
  import opened Residual
  import opened BuiltinRules
  import opened Evaluation
  import opened Detections

  // ---------- what may match ----------

  function DigitCount(t: string): nat {
    if t == "" then 0 else (if IsDigit(t[0]) then 1 else 0) + DigitCount(t[1..])
  }

  /** Digits with at most one blank or dash behind each. */
  predicate Spaced(t: string) {
    && (t != "" ==> IsDigit(t[0]))
    && (forall k | 0 <= k < |t| :: IsDigit(t[k]) || IsSeparator(t[k]))
    && (forall k | 0 <= k < |t| - 1 :: IsSeparator(t[k]) ==> IsDigit(t[k+1]))
  }

  /** The first n characters: 13 to 16 spaced digits, which begin and end where a word does. */
  predicate CardSpan(left: bool, s: string, n: nat) {
    WholeWords(left, s, n) && Spaced(s[..n]) && 13 <= DigitCount(s[..n]) <= 16
  }

  // ---------- groups ----------

  /** g times a digit and perhaps a separator. */
  predicate Groups(t: string, g: nat)
    decreases g
  {
    if g == 0 then t == ""
    else
      && t != "" && IsDigit(t[0])
      && (Groups(t[1..], g - 1) || (|t| > 1 && IsSeparator(t[1]) && Groups(t[2..], g - 1)))
  }

  lemma SpacedTail(t: string, i: nat)
    requires Spaced(t) && 0 < i <= |t| && (i < |t| ==> IsDigit(t[i]))
    ensures Spaced(t[i..])
  {
  }

  lemma SpacedMore(t: string, i: nat)
    requires t != "" && IsDigit(t[0]) && i <= |t| && Spaced(t[i..])
    requires i == 1 || (i == 2 && IsSeparator(t[1]))
    ensures Spaced(t)
  {
    assert forall k | i <= k < |t| :: t[k] == t[i..][k-i];
    assert i < |t| ==> IsDigit(t[i..][0]);
  }

  lemma {:induction false} GroupsAreSpaced(t: string, g: nat)
    ensures Groups(t, g) <==> Spaced(t) && DigitCount(t) == g
    decreases |t|
  {
    if t != "" && IsDigit(t[0]) {
      assert |t| > 1 ==> DigitCount(t[1..]) == (if IsDigit(t[1]) then 1 else 0) + DigitCount(t[2..]) by {
        assert |t| > 1 ==> t[1..][1..] == t[2..];
      }
      if g > 0 {
        GroupsAreSpaced(t[1..], g - 1);
        if |t| > 1 && IsSeparator(t[1]) {
          GroupsAreSpaced(t[2..], g - 1);
        }
      }
      if Spaced(t) {
        if |t| > 1 && IsSeparator(t[1]) {
          SpacedTail(t, 2);
        } else {
          SpacedTail(t, 1);
        }
      }
      if g > 0 && Groups(t, g) {
        SpacedMore(t, if Groups(t[1..], g - 1) then 1 else 2);
      }
    }
  }

  /** One group, and what follows it behind one or two characters. */
  lemma GroupCan(rest: Goal, left: bool, s: string, n: nat)
    ensures Can(Then(CardGroup(), rest), left, s, n) <==>
            && s != "" && n > 0 && IsDigit(s[0])
            && (Can(rest, IsWord(s[0]), s[1..], n - 1) ||
                (|s| > 1 && n > 1 && IsSeparator(s[1]) && Can(rest, IsWord(s[1]), s[2..], n - 2)))
  {
    Classes();
    var digit, mark := Of(DIGIT), Optional(Of(SEPARATOR));
    hide InClass;
    CatWeight(digit, mark, rest);
    assert Can(Then(CardGroup(), rest), left, s, n) == Can(Then(digit, Then(mark, rest)), left, s, n);
    if s != "" && n > 0 && IsDigit(s[0]) {
      var t := s[1..];
      assert Can(Then(mark, rest), IsWord(s[0]), t, n - 1) <==>
             Can(Then(Of(SEPARATOR), rest), IsWord(s[0]), t, n - 1) || Can(rest, IsWord(s[0]), t, n - 1);
      assert |s| > 1 ==> t[0] == s[1] && t[1..] == s[2..];
    }
  }

  /** g groups in a row, and what follows them. */
  ghost predicate GroupsThen(rest: Goal, left: bool, s: string, n: nat, g: nat) {
    exists m: nat :: SplitAt(rest, left, s, n, g, m)
  }

  ghost predicate SplitAt(rest: Goal, left: bool, s: string, n: nat, g: nat, m: nat) {
    m <= n && m <= |s| && Groups(s[..m], g) && Can(rest, WordBefore(left, s, m), s[m..], n - m)
  }

  /** Splits further on, after a group of i characters. */
  lemma SplitStep(rest: Goal, left: bool, s: string, n: nat, g: nat, i: nat, m: nat)
    requires g > 0 && (i == 1 || i == 2) && i <= |s| && i <= m && i <= n
    requires IsDigit(s[0]) && (i == 2 ==> IsSeparator(s[1]))
    requires m <= n && m <= |s|
    ensures SplitAt(rest, WordBefore(left, s, i), s[i..], n - i, g - 1, m - i) ==> SplitAt(rest, left, s, n, g, m)
  {
    assert s[i..][..m-i] == s[..m][i..] && s[i..][m-i..] == s[m..];
    assert s[..m][0] == s[0] && (i == 2 ==> s[..m][1] == s[1]);
    assert m > i ==> s[i..][m-i-1] == s[m-1];
    hide Can;
  }

  lemma GroupsThenStep(rest: Goal, left: bool, s: string, n: nat, g: nat)
    requires g > 0
    ensures GroupsThen(rest, left, s, n, g) <==>
            && s != "" && n > 0 && IsDigit(s[0])
            && (GroupsThen(rest, IsWord(s[0]), s[1..], n - 1, g - 1) ||
                (|s| > 1 && n > 1 && IsSeparator(s[1]) && GroupsThen(rest, IsWord(s[1]), s[2..], n - 2, g - 1)))
  {
    hide Can;
    if m: nat :| SplitAt(rest, left, s, n, g, m) {
      var t := s[..m];
      assert t[0] == s[0];
      if Groups(t[1..], g - 1) {
        SplitBack(rest, left, s, n, g, 1, m);
      } else {
        assert t[1] == s[1];
        SplitBack(rest, left, s, n, g, 2, m);
      }
    }
    if s != "" && n > 0 && IsDigit(s[0]) {
      MoreGroups(rest, left, s, n, g, 1);
      if |s| > 1 && n > 1 && IsSeparator(s[1]) {
        MoreGroups(rest, left, s, n, g, 2);
      }
    }
  }

  lemma MoreGroups(rest: Goal, left: bool, s: string, n: nat, g: nat, i: nat)
    requires g > 0 && (i == 1 || i == 2) && i <= |s| && i <= n
    requires IsDigit(s[0]) && (i == 2 ==> IsSeparator(s[1]))
    ensures GroupsThen(rest, WordBefore(left, s, i), s[i..], n - i, g - 1) ==> GroupsThen(rest, left, s, n, g)
  {
    hide Can;
    var left', s', n', g' := WordBefore(left, s, i), s[i..], n - i, g - 1;
    if m: nat :| SplitAt(rest, left', s', n', g', m) {
      SplitStep(rest, left, s, n, g, i, m + i);
    }
  }

  lemma SplitBack(rest: Goal, left: bool, s: string, n: nat, g: nat, i: nat, m: nat)
    requires g > 0 && (i == 1 || i == 2) && i <= m && SplitAt(rest, left, s, n, g, m)
    requires Groups(s[..m][i..], g - 1)
    ensures SplitAt(rest, WordBefore(left, s, i), s[i..], n - i, g - 1, m - i)
  {
    assert s[i..][..m-i] == s[..m][i..] && s[i..][m-i..] == s[m..];
    assert m > i ==> s[i..][m-i-1] == s[m-1];
    hide Can, Groups;
  }

  lemma {:induction false} TimesCan(g: nat, rest: Goal, left: bool, s: string, n: nat)
    ensures Can(Then(Times(CardGroup(), g), rest), left, s, n) <==> GroupsThen(rest, left, s, n, g)
    decreases g
  {
    hide *;
    if g == 0 {
      NoGroups(rest, left, s, n);
    } else {
      OneMoreGroup(g, rest, left, s, n);
      var more := Then(Times(CardGroup(), g - 1), rest);
      GroupCan(more, left, s, n);
      GroupsThenStep(rest, left, s, n, g);
      if s != "" && n > 0 {
        TimesCan(g - 1, rest, IsWord(s[0]), s[1..], n - 1);
        if |s| > 1 && n > 1 {
          TimesCan(g - 1, rest, IsWord(s[1]), s[2..], n - 2);
        }
      }
    }
  }

  lemma NoGroups(rest: Goal, left: bool, s: string, n: nat)
    ensures Can(Then(Times(CardGroup(), 0), rest), left, s, n) <==> GroupsThen(rest, left, s, n, 0)
  {
    assert s[0..] == s;
    assert SplitAt(rest, left, s, n, 0, 0) <==> Can(rest, left, s, n);
    assert Can(Then(Empty, rest), left, s, n) == Can(rest, left, s, n);
    forall m: nat | SplitAt(rest, left, s, n, 0, m)
      ensures m == 0
    {
      assert |s[..m]| == m;
    }
  }

  lemma OneMoreGroup(g: nat, rest: Goal, left: bool, s: string, n: nat)
    requires g > 0
    ensures Can(Then(Times(CardGroup(), g), rest), left, s, n) ==
            Can(Then(CardGroup(), Then(Times(CardGroup(), g - 1), rest)), left, s, n)
  {
    CatWeight(CardGroup(), Times(CardGroup(), g - 1), rest);
    hide CardGroup;
  }

  /** a groups and then b groups are a + b groups. */
  lemma {:induction false} TimesTimes(a: nat, b: nat, rest: Goal, left: bool, s: string, n: nat)
    ensures Can(Then(Times(CardGroup(), a), Then(Times(CardGroup(), b), rest)), left, s, n) <==>
            Can(Then(Times(CardGroup(), a + b), rest), left, s, n)
    decreases a
  {
    hide *;
    var next := Then(Times(CardGroup(), b), rest);
    if a == 0 {
      NothingFirst(next, left, s, n);
    } else {
      OneMoreGroup(a, next, left, s, n);
      OneMoreGroup(a + b, rest, left, s, n);
      GroupCan(Then(Times(CardGroup(), a - 1), next), left, s, n);
      GroupCan(Then(Times(CardGroup(), a - 1 + b), rest), left, s, n);
      if s != "" && n > 0 {
        TimesTimes(a - 1, b, rest, IsWord(s[0]), s[1..], n - 1);
        if |s| > 1 && n > 1 {
          TimesTimes(a - 1, b, rest, IsWord(s[1]), s[2..], n - 2);
        }
      }
    }
  }

  lemma NothingFirst(rest: Goal, left: bool, s: string, n: nat)
    ensures Can(Then(Times(CardGroup(), 0), rest), left, s, n) == Can(rest, left, s, n)
  {
  }

  ghost predicate SomeTimes(h: nat, rest: Goal, left: bool, s: string, n: nat) {
    exists g: nat :: g <= h && Exactly(g, rest, left, s, n)
  }

  ghost predicate Exactly(g: nat, rest: Goal, left: bool, s: string, n: nat) {
    Can(Then(Times(CardGroup(), g), rest), left, s, n)
  }

  lemma OpenUpTo(h: nat, rest: Goal, left: bool, s: string, n: nat)
    ensures Can(Then(UpTo(CardGroup(), h), rest), left, s, n) <==>
            Can(rest, left, s, n) ||
            (h > 0 && Can(Then(CardGroup(), Then(UpTo(CardGroup(), h - 1), rest)), left, s, n))
  {
    hide CardGroup;
    if h > 0 {
      CatWeight(CardGroup(), UpTo(CardGroup(), h - 1), rest);
      var a := Both(CardGroup(), UpTo(CardGroup(), h - 1));
      assert UpTo(CardGroup(), h) == Alt(a, Empty);
      assert Can(Then(Empty, rest), left, s, n) == Can(rest, left, s, n);
    }
  }

  lemma {:induction false} UpToCan(h: nat, rest: Goal, left: bool, s: string, n: nat)
    ensures Can(Then(UpTo(CardGroup(), h), rest), left, s, n) <==> SomeTimes(h, rest, left, s, n)
    decreases h
  {
    hide *;
    OpenUpTo(h, rest, left, s, n);
    SomeTimesStep(h, rest, left, s, n);
    if h > 0 {
      GroupCan(Then(UpTo(CardGroup(), h - 1), rest), left, s, n);
      if s != "" && n > 0 {
        UpToCan(h - 1, rest, IsWord(s[0]), s[1..], n - 1);
        if |s| > 1 && n > 1 {
          UpToCan(h - 1, rest, IsWord(s[1]), s[2..], n - 2);
        }
      }
    }
  }

  lemma SomeTimesStep(h: nat, rest: Goal, left: bool, s: string, n: nat)
    ensures SomeTimes(h, rest, left, s, n) <==>
            Can(rest, left, s, n) ||
            (h > 0 && s != "" && n > 0 && IsDigit(s[0]) &&
             (SomeTimes(h - 1, rest, IsWord(s[0]), s[1..], n - 1) ||
              (|s| > 1 && n > 1 && IsSeparator(s[1]) && SomeTimes(h - 1, rest, IsWord(s[1]), s[2..], n - 2))))
  {
    hide Can;
    NothingFirst(rest, left, s, n);
    assert Exactly(0, rest, left, s, n) == Can(rest, left, s, n);
    if g: nat :| 0 < g <= h && Exactly(g, rest, left, s, n) {
      ExactlyStep(g, rest, left, s, n);
    }
    if h > 0 && s != "" && n > 0 && IsDigit(s[0]) {
      var left', s', n' := IsWord(s[0]), s[1..], n - 1;
      if g: nat :| g <= h - 1 && Exactly(g, rest, left', s', n') {
        ExactlyStep(g + 1, rest, left, s, n);
      }
      if |s| > 1 && n > 1 && IsSeparator(s[1]) {
        left', s', n' := IsWord(s[1]), s[2..], n - 2;
        if g: nat :| g <= h - 1 && Exactly(g, rest, left', s', n') {
          ExactlyStep(g + 1, rest, left, s, n);
        }
      }
    }
  }

  lemma ExactlyStep(g: nat, rest: Goal, left: bool, s: string, n: nat)
    requires g > 0
    ensures Exactly(g, rest, left, s, n) <==>
            && s != "" && n > 0 && IsDigit(s[0])
            && (Exactly(g - 1, rest, IsWord(s[0]), s[1..], n - 1) ||
                (|s| > 1 && n > 1 && IsSeparator(s[1]) && Exactly(g - 1, rest, IsWord(s[1]), s[2..], n - 2)))
  {
    hide Can;
    OneMoreGroup(g, rest, left, s, n);
    GroupCan(Then(Times(CardGroup(), g - 1), rest), left, s, n);
  }

  /** 13 groups and up to 3 more match the first n characters exactly if these are 13 to 16 spaced digits. */
  lemma GroupsCan(left: bool, s: string, n: nat)
    requires n <= |s|
    ensures Can(Then(Both(Times(CardGroup(), 13), UpTo(CardGroup(), 3)), Done), left, s, n) <==>
            Spaced(s[..n]) && 13 <= DigitCount(s[..n]) <= 16
  {
    hide *;
    var first, more := Times(CardGroup(), 13), UpTo(CardGroup(), 3);
    CatCan(first, more, left, s, n);
    TimesCan(13, Then(more, Done), left, s, n);
    forall g: nat
      ensures Exactly(g, Done, left, s, n) <==> Spaced(s[..n]) && DigitCount(s[..n]) == g
    {
      ExactlyIs(g, Done, left, s, n);
      TimesCan(g, Done, left, s, n);
      WholeSplit(left, s, n, g);
      GroupsAreSpaced(s[..n], g);
    }
    ThirteenAndMore(left, s, n);
    assert Exactly(DigitCount(s[..n]), Done, left, s, n) <==> Spaced(s[..n]);
  }

  lemma CatCan(a: Pattern, b: Pattern, left: bool, s: string, n: nat)
    ensures Can(Then(Both(a, b), Done), left, s, n) == Can(Then(a, Then(b, Done)), left, s, n)
  {
    CatWeight(a, b, Done);
  }

  lemma WholeSplit(left: bool, s: string, n: nat, g: nat)
    requires n <= |s|
    ensures GroupsThen(Done, left, s, n, g) <==> Groups(s[..n], g)
  {
    hide Groups;
    assert forall m: nat | SplitAt(Done, left, s, n, g, m) :: m == n;
    assert Groups(s[..n], g) ==> SplitAt(Done, left, s, n, g, n);
  }

  lemma ExactlyIs(g: nat, rest: Goal, left: bool, s: string, n: nat)
    ensures Exactly(g, rest, left, s, n) <==> Can(Then(Times(CardGroup(), g), rest), left, s, n)
  {
  }

  lemma ThirteenAndMore(left: bool, s: string, n: nat)
    ensures GroupsThen(Then(UpTo(CardGroup(), 3), Done), left, s, n, 13) <==>
            exists g: nat :: 13 <= g <= 16 && Exactly(g, Done, left, s, n)
  {
    hide Can, Times, UpTo, CardGroup, Groups, Exactly;
    var more := Then(UpTo(CardGroup(), 3), Done);
    if m: nat :| SplitAt(more, left, s, n, 13, m) {
      var left', s' := WordBefore(left, s, m), s[m..];
      UpToCan(3, Done, left', s', n - m);
      var g: nat :| g <= 3 && Exactly(g, Done, left', s', n - m);
      ExactlyIs(g, Done, left', s', n - m);
      assert SplitAt(Then(Times(CardGroup(), g), Done), left, s, n, 13, m);
      ThirteenAnd(g, left, s, n);
    }
    if g: nat :| 13 <= g <= 16 && Exactly(g, Done, left, s, n) {
      var some := Then(Times(CardGroup(), g - 13), Done);
      ThirteenAnd(g - 13, left, s, n);
      var m: nat :| SplitAt(some, left, s, n, 13, m);
      var left', s' := WordBefore(left, s, m), s[m..];
      ExactlyIs(g - 13, Done, left', s', n - m);
      assert SomeTimes(3, Done, left', s', n - m);
      UpToCan(3, Done, left', s', n - m);
      assert SplitAt(more, left, s, n, 13, m);
    }
  }

  lemma ThirteenAnd(g: nat, left: bool, s: string, n: nat)
    ensures GroupsThen(Then(Times(CardGroup(), g), Done), left, s, n, 13) <==> Exactly(13 + g, Done, left, s, n)
  {
    hide *;
    TimesCan(13, Then(Times(CardGroup(), g), Done), left, s, n);
    TimesTimes(13, g, Done, left, s, n);
    ExactlyIs(13 + g, Done, left, s, n);
  }

  // ---------- the longest is found ----------

  /** In front of a separator the rest can match only the empty text. */
  ghost predicate StopsAtSeparator(rest: Goal) {
    forall left, s | s != "" && IsSeparator(s[0]) && Find(rest, left, s).Some? :: Find(rest, left, s).value == 0
  }

  lemma GroupLongest(rest: Goal, left: bool, s: string)
    requires StopsAtSeparator(rest) && LongestAt(rest, left, s, 1) && LongestAt(rest, left, s, 2)
    ensures Longest(Then(CardGroup(), rest), left, s)
  {
    hide Find, Longest, WordBefore;
    var digit, mark := Of(DIGIT), Of(SEPARATOR);
    CatFirst(digit, Optional(mark), rest, left, s);
    ClassFirst(DIGIT, Then(Optional(mark), rest), left, s);
    if s != "" {
      var left', s' := WordBefore(left, s, 1), s[1..];
      EitherFirst(mark, Empty, rest, left', s');
      ClassFirst(SEPARATOR, rest, left', s');
      EmptyFirst(rest, left', s');
      Classes();
      if |s| > 1 {
        FurtherOn(rest, left, s, 1, 1);
      }
    }
  }

  lemma {:induction false} UpToStops(h: nat)
    ensures StopsAtSeparator(Then(UpTo(CardGroup(), h), AT_END))
  {
    hide CardGroup, Find;
    forall left: bool, s: string | s != "" && IsSeparator(s[0])
      ensures var found := Find(Then(UpTo(CardGroup(), h), AT_END), left, s); found.Some? ==> found.value == 0
    {
      BoundaryFirst(Done, left, s);
      EndIsEmpty(left, s);
      EmptyFirst(AT_END, left, s);
      if h > 0 {
        var groups := Both(CardGroup(), UpTo(CardGroup(), h - 1));
        EitherFirst(groups, Empty, AT_END, left, s);
        CatFirst(CardGroup(), UpTo(CardGroup(), h - 1), AT_END, left, s);
        NoGroupHere(Then(UpTo(CardGroup(), h - 1), AT_END), left, s);
      }
    }
  }

  lemma EndIsEmpty(left: bool, s: string)
    ensures Find(AT_END, left, s).Some? ==> Find(AT_END, left, s).value == 0
    ensures Longest(AT_END, left, s)
  {
    BoundaryFirst(Done, left, s);
    LongestEnd(left, s, 0);
    AtStart(Done, left, s);
  }

  lemma NoGroupHere(rest: Goal, left: bool, s: string)
    requires s != "" && IsSeparator(s[0])
    ensures Find(Then(CardGroup(), rest), left, s).None?
  {
    hide Find;
    Classes();
    CatFirst(Of(DIGIT), Optional(Of(SEPARATOR)), rest, left, s);
    ClassFirst(DIGIT, Then(Optional(Of(SEPARATOR)), rest), left, s);
  }

  lemma TimesStops(g: nat)
    ensures StopsAtSeparator(Then(Times(CardGroup(), g), Then(UpTo(CardGroup(), 3), AT_END)))
  {
    hide CardGroup, Find, UpTo;
    var more := Then(UpTo(CardGroup(), 3), AT_END);
    UpToStops(3);
    forall left: bool, s: string | s != "" && IsSeparator(s[0])
      ensures var found := Find(Then(Times(CardGroup(), g), more), left, s); found.Some? ==> found.value == 0
    {
      if g > 0 {
        CatFirst(CardGroup(), Times(CardGroup(), g - 1), more, left, s);
        NoGroupHere(Then(Times(CardGroup(), g - 1), more), left, s);
      } else {
        EmptyFirst(more, left, s);
      }
    }
  }

  lemma {:induction false} UpToLongest(h: nat, left: bool, s: string)
    ensures Longest(Then(UpTo(CardGroup(), h), AT_END), left, s)
    decreases h
  {
    hide CardGroup, Find, Longest, StopsAtSeparator, WordBefore;
    EndIsEmpty(left, s);
    EmptyFirst(AT_END, left, s);
    if h > 0 {
      var fewer := Then(UpTo(CardGroup(), h - 1), AT_END);
      UpToStops(h - 1);
      forall i | 1 <= i <= 2
        ensures LongestAt(fewer, left, s, i)
      {
        if i <= |s| {
          UpToLongest(h - 1, WordBefore(left, s, i), s[i..]);
        }
      }
      GroupLongest(fewer, left, s);
      CatFirst(CardGroup(), UpTo(CardGroup(), h - 1), AT_END, left, s);
      EitherFirst(Both(CardGroup(), UpTo(CardGroup(), h - 1)), Empty, AT_END, left, s);
    }
  }

  lemma {:induction false} TimesLongest(g: nat, left: bool, s: string)
    ensures Longest(Then(Times(CardGroup(), g), Then(UpTo(CardGroup(), 3), AT_END)), left, s)
    decreases g
  {
    hide CardGroup, Find, Longest, StopsAtSeparator, WordBefore, UpTo;
    var more := Then(UpTo(CardGroup(), 3), AT_END);
    if g == 0 {
      UpToLongest(3, left, s);
      EmptyFirst(more, left, s);
    } else {
      var fewer := Then(Times(CardGroup(), g - 1), more);
      TimesStops(g - 1);
      forall i | 1 <= i <= 2
        ensures LongestAt(fewer, left, s, i)
      {
        if i <= |s| {
          TimesLongest(g - 1, WordBefore(left, s, i), s[i..]);
        }
      }
      GroupLongest(fewer, left, s);
      CatFirst(CardGroup(), Times(CardGroup(), g - 1), more, left, s);
    }
  }

  lemma CardLongest(left: bool, s: string)
    ensures Longest(Then(CreditCard(), Done), left, s)
  {
    hide *;
    OpenNumbers();
    var first, more := Times(CardGroup(), 13), UpTo(CardGroup(), 3);
    OpenAnchored(Both(first, more), left, s);
    CatFirst(WordB, Both(Both(first, more), WordB), Done, left, s);
    BoundaryFirst(Then(Both(Both(first, more), WordB), Done), left, s);
    CatFirst(Both(first, more), WordB, Done, left, s);
    CatFirst(first, more, AT_END, left, s);
    TimesLongest(13, left, s);
  }

  /** The card rule matches exactly 13 to 16 spaced digits between two boundaries. */
  lemma CardCan(left: bool, s: string, n: nat)
    requires n <= |s|
    ensures Can(Then(CreditCard(), Done), left, s, n) <==> CardSpan(left, s, n)
  {
    hide *;
    OpenNumbers();
    GroupsCan(left, s, n);
    CardCore();
    AnchoredCan(CreditCard(), left, s, n);
    WholeWordsIs(left, s, n);
    CardSpanIs(left, s, n);
  }

  lemma CardSpanIs(left: bool, s: string, n: nat)
    ensures CardSpan(left, s, n) <==> WholeWords(left, s, n) && Spaced(s[..n]) && 13 <= DigitCount(s[..n]) <= 16
    ensures CardSpan(left, s, n) ==> n <= |s|
  {
  }

  lemma CardCore()
    ensures IsAnchored(CreditCard())
    ensures Core(CreditCard()) == Both(Times(CardGroup(), 13), UpTo(CardGroup(), 3))
  {
    hide Times, UpTo, CardGroup;
    AboutCreditCard();
  }

  /** Of all such spans the longest is found. */
  lemma CreditCardFound(left: bool, s: string, n: nat)
    ensures FindOne(CreditCard(), left, s) == Some(n) <==>
            CardSpan(left, s, n) && forall m: nat | m > n :: !CardSpan(left, s, m)
  {
    var k := Then(CreditCard(), Done);
    CardLongest(left, s);
    FindSound(k, left, s);
    forall m: nat
      ensures CardSpan(left, s, m) ==> Can(k, left, s, m) && m <= |s|
      ensures Can(k, left, s, m) ==> CardSpan(left, s, m)
    {
      CardSpanIs(left, s, m);
      if Can(k, left, s, m) {
        FindComplete(k, left, s, m);
      }
      if m <= |s| {
        CardCan(left, s, m);
      }
    }
    hide CreditCard, Can, Find, CardSpan;
  }
}
