/** What the engine finds for literals, counted classes and greedy runs, each followed by anything. */
module Evaluation {
  import opened Wrappers
  import opened Regexp
  import opened RegexpLemmas
  import opened BuiltinRules

  /** A match that begins n characters further on. */
  function Plus(n: nat, found: Option<nat>): Option<nat> {
    if found.Some? then Some(n + found.value) else None
  }

  /** What k finds at offset n. */
  function FindAt(k: Goal, left: bool, s: string, n: nat): Option<nat>
    requires n <= |s|
  {
    Plus(n, Find(k, WordBefore(left, s, n), s[n..]))
  }

  /** Of all spans that match, the engine finds the longest. */
  ghost predicate Longest(k: Goal, left: bool, s: string) {
    forall n: nat | Can(k, left, s, n) :: Find(k, left, s).Some? && n <= Find(k, left, s).value
  }

  ghost predicate LongestAt(k: Goal, left: bool, s: string, n: nat) {
    n <= |s| ==> Longest(k, WordBefore(left, s, n), s[n..])
  }

  lemma LongestEnd(left: bool, s: string, n: nat)
    ensures LongestAt(Done, left, s, n)
    ensures n <= |s| ==> FindAt(Done, left, s, n) == Some(n)
  {
  }

  lemma StepAt(k: Goal, left: bool, s: string, n: nat)
    requires n < |s|
    ensures FindAt(k, left, s, n + 1) == Plus(1, FindAt(k, IsWord(s[0]), s[1..], n))
    ensures LongestAt(k, left, s, n + 1) == LongestAt(k, IsWord(s[0]), s[1..], n)
  {
    assert s[1..][n..] == s[n+1..];
    assert n > 0 ==> s[1..][n-1] == s[n];
  }

  lemma AtStart(k: Goal, left: bool, s: string)
    ensures FindAt(k, left, s, 0) == Find(k, left, s) && LongestAt(k, left, s, 0) == Longest(k, left, s)
  {
    assert s[0..] == s;
  }

  // ---------- one class ----------

  lemma ClassFirst(ranges: seq<Range>, rest: Goal, left: bool, s: string)
    ensures var k := Then(Of(ranges), rest);
            && Find(k, left, s) ==
               (if s != "" && InClass(s[0], ranges) then FindAt(rest, left, s, 1) else None)
            && (LongestAt(rest, left, s, 1) ==> Longest(k, left, s))
  {
    if s != "" {
      StepAt(rest, left, s, 0);
      AtStart(rest, IsWord(s[0]), s[1..]);
    }
  }

  lemma CatFirst(a: Pattern, b: Pattern, rest: Goal, left: bool, s: string)
    ensures var k := Then(Both(a, b), rest);
            && Find(k, left, s) == Find(Then(a, Then(b, rest)), left, s)
            && (Longest(Then(a, Then(b, rest)), left, s) ==> Longest(k, left, s))
  {
    CatWeight(a, b, rest);
  }

  lemma EmptyFirst(rest: Goal, left: bool, s: string)
    ensures Find(Then(Empty, rest), left, s) == Find(rest, left, s)
    ensures Longest(rest, left, s) ==> Longest(Then(Empty, rest), left, s)
  {
  }

  // ---------- a row of classes: literals and counted classes ----------

  function Row(classes: seq<seq<Range>>): Pattern {
    if classes == [] then Empty else Both(Of(classes[0]), Row(classes[1..]))
  }

  /** Each character at the front of s is in the class of the same index. */
  predicate InRow(classes: seq<seq<Range>>, s: string) {
    |classes| <= |s| && forall k | 0 <= k < |classes| :: InClass(s[k], classes[k])
  }

  lemma RowStep(classes: seq<seq<Range>>, s: string)
    requires classes != [] && s != ""
    ensures InRow(classes, s) <==> InClass(s[0], classes[0]) && InRow(classes[1..], s[1..])
  {
    hide InClass;
    assert forall k | 1 <= k < |classes| :: classes[k] == classes[1..][k-1];
    assert forall k | 1 <= k < |s| :: s[k] == s[1..][k-1];
  }

  lemma {:induction false} RowFirst(classes: seq<seq<Range>>, rest: Goal, left: bool, s: string)
    ensures var k := Then(Row(classes), rest);
            && Find(k, left, s) == (if InRow(classes, s) then FindAt(rest, left, s, |classes|) else None)
            && (LongestAt(rest, left, s, |classes|) ==> Longest(k, left, s))
    decreases |classes|
  {
    hide Find, Can, Longest, InClass, WordBefore;
    if classes == [] {
      AtStart(rest, left, s);
      EmptyFirst(rest, left, s);
    } else {
      var tail := Then(Row(classes[1..]), rest);
      CatFirst(Of(classes[0]), Row(classes[1..]), rest, left, s);
      ClassFirst(classes[0], tail, left, s);
      if s != "" {
        RowStep(classes, s);
        RowFirst(classes[1..], rest, IsWord(s[0]), s[1..]);
        StepAt(tail, left, s, 0);
        AtStart(tail, IsWord(s[0]), s[1..]);
        if |classes| <= |s| {
          StepAt(rest, left, s, |classes| - 1);
        }
      }
    }
  }

  function LiteralClasses(w: string): seq<seq<Range>> {
    seq(|w|, k requires 0 <= k < |w| => [Range(w[k], w[k])])
  }

  function FoldClasses(w: string): seq<seq<Range>> {
    seq(|w|, k requires 0 <= k < |w| => Fold(w[k]))
  }

  function SameClass(ranges: seq<Range>, n: nat): seq<seq<Range>> {
    seq(n, _ => ranges)
  }

  lemma {:induction false} LiteralIsRow(w: string)
    ensures Literal(w) == Row(LiteralClasses(w))
  {
    if w != "" {
      LiteralIsRow(w[1..]);
      assert LiteralClasses(w)[1..] == LiteralClasses(w[1..]);
    }
  }

  lemma {:induction false} FoldIsRow(w: string)
    ensures FoldLiteral(w) == Row(FoldClasses(w))
  {
    if w != "" {
      hide Fold;
      FoldIsRow(w[1..]);
      assert FoldClasses(w)[1..] == FoldClasses(w[1..]);
    }
  }

  lemma {:induction false} TimesIsRow(ranges: seq<Range>, n: nat)
    ensures Times(Of(ranges), n) == Row(SameClass(ranges, n))
  {
    if n > 0 {
      TimesIsRow(ranges, n - 1);
      assert SameClass(ranges, n)[1..] == SameClass(ranges, n - 1);
    }
  }

  lemma OneOf(c: char, d: char)
    ensures InClass(c, [Range(d, d)]) <==> c == d
  {
    assert [Range(d, d)][0] == Range(d, d);
  }

  lemma LiteralInRow(w: string, s: string)
    ensures InRow(LiteralClasses(w), s) <==> w <= s
  {
    forall k | 0 <= k < |w| && |w| <= |s|
      ensures InClass(s[k], LiteralClasses(w)[k]) <==> s[k] == w[k]
    {
      OneOf(s[k], w[k]);
    }
    hide InClass;
  }

  lemma LiteralFirst(w: string, rest: Goal, left: bool, s: string)
    ensures var k := Then(Literal(w), rest);
            && Find(k, left, s) == (if w <= s then FindAt(rest, left, s, |w|) else None)
            && (LongestAt(rest, left, s, |w|) ==> Longest(k, left, s))
  {
    hide *;
    LiteralIsRow(w);
    LiteralInRow(w, s);
    RowFirst(LiteralClasses(w), rest, left, s);
    SizeOfRow(w);
  }

  lemma SizeOfRow(w: string)
    ensures |LiteralClasses(w)| == |w| == |FoldClasses(w)|
  {
  }

  // ---------- greedy runs ----------

  /** How many characters at the front of s are in the class. */
  function RunLen(ranges: seq<Range>, s: string): (n: nat)
    ensures n <= |s| && (forall k | 0 <= k < n :: InClass(s[k], ranges))
    ensures n < |s| ==> !InClass(s[n], ranges)
  {
    if s != "" && InClass(s[0], ranges) then 1 + RunLen(ranges, s[1..]) else 0
  }

  lemma ManyFirst(ranges: seq<Range>, rest: Goal, left: bool, s: string)
    ensures var k := Then(Many(Of(ranges)), rest);
            && Find(k, left, s) ==
               (if s != "" && InClass(s[0], ranges) && FindAt(k, left, s, 1).Some? then FindAt(k, left, s, 1)
                else Find(rest, left, s))
  {
    var k := Then(Many(Of(ranges)), rest);
    ClassFirst(ranges, k, left, s);
  }

  lemma ManyCan(ranges: seq<Range>, rest: Goal, left: bool, s: string, n: nat)
    ensures var k := Then(Many(Of(ranges)), rest);
            Can(k, left, s, n) <==>
            Can(rest, left, s, n) ||
            (s != "" && InClass(s[0], ranges) && n > 0 && Can(k, IsWord(s[0]), s[1..], n - 1))
  {
    var k := Then(Many(Of(ranges)), rest);
    assert Can(Then(Of(ranges), k), left, s, n) <==>
           s != "" && n > 0 && InClass(s[0], ranges) && Can(k, IsWord(s[0]), s[1..], n - 1);
  }

  /** At the end of an expression a run is taken whole. */
  lemma {:induction false} RunLast(ranges: seq<Range>, left: bool, s: string)
    ensures var k := Then(Many(Of(ranges)), Done);
            Find(k, left, s) == Some(RunLen(ranges, s)) && Longest(k, left, s)
    decreases |s|
  {
    var k := Then(Many(Of(ranges)), Done);
    forall n: nat
      ensures Can(k, left, s, n) <==>
              n == 0 || (s != "" && InClass(s[0], ranges) && Can(k, IsWord(s[0]), s[1..], n - 1))
    {
      ManyCan(ranges, Done, left, s, n);
    }
    ManyFirst(ranges, Done, left, s);
    if s != "" && InClass(s[0], ranges) {
      RunLast(ranges, IsWord(s[0]), s[1..]);
      StepAt(k, left, s, 0);
      AtStart(k, IsWord(s[0]), s[1..]);
    }
    hide Can;
  }

  /** A run is cut where what follows it can be found, if that is possible at one place only. */
  lemma {:induction false} RunThen(ranges: seq<Range>, rest: Goal, left: bool, s: string, j: nat)
    requires j <= RunLen(ranges, s)
    requires forall k | 0 <= k <= RunLen(ranges, s) && k != j :: FindAt(rest, left, s, k).None?
    ensures Find(Then(Many(Of(ranges)), rest), left, s) == FindAt(rest, left, s, j)
    ensures LongestAt(rest, left, s, j) ==> Longest(Then(Many(Of(ranges)), rest), left, s)
    decreases |s|
  {
    hide Find, Can, Longest, InClass, WordBefore, Many, FindAt, LongestAt, Plus;
    var goal := Then(Many(Of(ranges)), rest);
    AtStart(rest, left, s);
    ManyFirst(ranges, rest, left, s);
    ManyLongest(ranges, rest, left, s);
    if s != "" && InClass(s[0], ranges) {
      var i := if j > 0 then j - 1 else 0;
      forall k | 0 <= k <= RunLen(ranges, s[1..])
        ensures FindAt(rest, IsWord(s[0]), s[1..], k).None? <==> FindAt(rest, left, s, k + 1).None?
      {
        StepAt(rest, left, s, k);
        PlusNone(1, FindAt(rest, IsWord(s[0]), s[1..], k));
      }
      RunThen(ranges, rest, IsWord(s[0]), s[1..], i);
      StepAt(goal, left, s, 0);
      AtStart(goal, IsWord(s[0]), s[1..]);
      StepAt(rest, left, s, i);
      PlusNone(1, FindAt(rest, IsWord(s[0]), s[1..], i));
    }
  }

  /** One of the two ways on is closed, and the other finds the longest. */
  lemma ManyLongest(ranges: seq<Range>, rest: Goal, left: bool, s: string)
    ensures var k := Then(Many(Of(ranges)), rest);
            var more := s != "" && InClass(s[0], ranges) && FindAt(k, left, s, 1).Some?;
            && (!more && Longest(rest, left, s) ==> Longest(k, left, s))
            && (Find(rest, left, s).None? && LongestAt(k, left, s, 1) ==> Longest(k, left, s))
  {
    var k := Then(Many(Of(ranges)), rest);
    ManyFirst(ranges, rest, left, s);
    forall n: nat | Can(k, left, s, n)
      ensures Find(k, left, s).Some?
      ensures if Can(rest, left, s, n) then Find(rest, left, s).Some?
              else && s != "" && InClass(s[0], ranges) && n > 0
                   && Can(k, IsWord(s[0]), s[1..], n - 1) && Find(k, IsWord(s[0]), s[1..]).Some?
    {
      ManyCan(ranges, rest, left, s, n);
      FindComplete(k, left, s, n);
      if Can(rest, left, s, n) {
        FindComplete(rest, left, s, n);
      } else {
        FindComplete(k, IsWord(s[0]), s[1..], n - 1);
      }
    }
    if s != "" {
      StepAt(k, left, s, 0);
      AtStart(k, IsWord(s[0]), s[1..]);
    }
    hide Find, Can, Many;
  }

  // ---------- counted classes, and counted classes with a run behind them ----------

  /** The first n characters of s are in the class. */
  predicate Filled(ranges: seq<Range>, n: nat, s: string) {
    n <= |s| && forall k | 0 <= k < n :: InClass(s[k], ranges)
  }

  lemma TimesFirst(ranges: seq<Range>, n: nat, rest: Goal, left: bool, s: string)
    ensures var k := Then(Times(Of(ranges), n), rest);
            && Find(k, left, s) == (if Filled(ranges, n, s) then FindAt(rest, left, s, n) else None)
            && (LongestAt(rest, left, s, n) ==> Longest(k, left, s))
  {
    hide *;
    TimesIsRow(ranges, n);
    RowFirst(SameClass(ranges, n), rest, left, s);
    FilledRow(ranges, n, s);
  }

  lemma FilledRow(ranges: seq<Range>, n: nat, s: string)
    ensures |SameClass(ranges, n)| == n && (InRow(SameClass(ranges, n), s) <==> Filled(ranges, n, s))
  {
    hide InClass;
  }

  lemma {:induction false} RunSplit(ranges: seq<Range>, n: nat, s: string)
    ensures RunLen(ranges, s) >= n <==> Filled(ranges, n, s)
    ensures Filled(ranges, n, s) ==> n <= |s| && RunLen(ranges, s) == n + RunLen(ranges, s[n..])
    decreases n
  {
    hide InClass;
    if n == 0 {
      assert s[0..] == s;
    } else if s != "" {
      FilledStep(ranges, n, s);
      hide Filled;
      RunSplit(ranges, n - 1, s[1..]);
      assert n <= |s| ==> s[1..][n-1..] == s[n..];
    }
  }

  lemma FilledStep(ranges: seq<Range>, n: nat, s: string)
    requires n > 0 && s != ""
    ensures Filled(ranges, n, s) <==> InClass(s[0], ranges) && Filled(ranges, n - 1, s[1..])
    ensures Filled(ranges, n, s) ==> n <= |s|
  {
    hide InClass;
    assert forall k | 1 <= k < |s| :: s[1..][k-1] == s[k];
  }

  /** What follows n characters of s, seen from further on. */
  lemma FurtherOn(k: Goal, left: bool, s: string, m: nat, n: nat)
    requires m + n <= |s|
    ensures FindAt(k, left, s, m + n) == Plus(m, FindAt(k, WordBefore(left, s, m), s[m..], n))
    ensures LongestAt(k, left, s, m + n) == LongestAt(k, WordBefore(left, s, m), s[m..], n)
  {
    assert s[m..][n..] == s[m + n..];
    assert n > 0 ==> s[m..][n-1] == s[m + n - 1];
    hide Find, Longest;
  }

  /** {n,} at the end of an expression takes the longest run. */
  lemma AtLeastLast(ranges: seq<Range>, n: nat, left: bool, s: string)
    ensures var k := Then(AtLeast(Of(ranges), n), Done);
            && Find(k, left, s) == (if RunLen(ranges, s) >= n then Some(RunLen(ranges, s)) else None)
            && Longest(k, left, s)
  {
    hide Find, Longest, Filled, RunLen, WordBefore;
    var many := Then(Many(Of(ranges)), Done);
    CatFirst(Times(Of(ranges), n), Many(Of(ranges)), Done, left, s);
    TimesFirst(ranges, n, many, left, s);
    RunSplit(ranges, n, s);
    if n <= |s| {
      RunLast(ranges, WordBefore(left, s, n), s[n..]);
    }
  }

  /** {n,} before something that cannot be found inside the run. */
  lemma AtLeastThen(ranges: seq<Range>, n: nat, rest: Goal, left: bool, s: string)
    requires forall k | 0 <= k < RunLen(ranges, s) :: FindAt(rest, left, s, k).None?
    ensures var k, m := Then(AtLeast(Of(ranges), n), rest), RunLen(ranges, s);
            && Find(k, left, s) == (if m >= n then FindAt(rest, left, s, m) else None)
            && (LongestAt(rest, left, s, m) ==> Longest(k, left, s))
  {
    hide Find, Longest, Filled, RunLen, WordBefore, FindAt, LongestAt;
    var many := Then(Many(Of(ranges)), rest);
    CatFirst(Times(Of(ranges), n), Many(Of(ranges)), rest, left, s);
    TimesFirst(ranges, n, many, left, s);
    RunSplit(ranges, n, s);
    if Filled(ranges, n, s) {
      var m, left', tail := RunLen(ranges, s) - n, WordBefore(left, s, n), s[n..];
      forall k | 0 <= k <= m && k != m
        ensures FindAt(rest, left', tail, k).None?
      {
        FurtherOn(rest, left, s, n, k);
        PlusNone(n, FindAt(rest, left', tail, k));
      }
      RunThen(ranges, rest, left', tail, m);
      FurtherOn(rest, left, s, n, m);
      HereAt(many, left, s, n);
    } else {
      NotFilled(ranges, n, many, left, s);
    }
  }

  /** Two runs of different characters, the second at the end. */
  lemma RunThenRun(first: seq<Range>, m: nat, second: seq<Range>, n: nat, left: bool, s: string)
    requires n > 0 && forall c | InClass(c, first) :: !InClass(c, second)
    ensures var k, i := Then(AtLeast(Of(first), m), Then(AtLeast(Of(second), n), Done)), RunLen(first, s);
            && Find(k, left, s) ==
               (if i >= m && RunLen(second, s[i..]) >= n then Some(i + RunLen(second, s[i..])) else None)
            && Longest(k, left, s)
  {
    hide *;
    var last, i := Then(AtLeast(Of(second), n), Done), RunLen(first, s);
    forall k | 0 <= k <= i
      ensures FindAt(last, left, s, k) ==
              if RunLen(second, s[k..]) >= n then Some(k + RunLen(second, s[k..])) else None
      ensures LongestAt(last, left, s, k)
      ensures k < i ==> RunLen(second, s[k..]) == 0
    {
      AtLeastLast(second, n, WordBefore(left, s, k), s[k..]);
      HereAt(last, left, s, k);
      PlusIf(k, RunLen(second, s[k..]) >= n, RunLen(second, s[k..]));
      assert k < i ==> s[k..][0] == s[k];
    }
    AtLeastThen(first, m, last, left, s);
  }

  /** A run, a character that cannot be part of it, and more. */
  lemma RunThenChar(ranges: seq<Range>, n: nat, c: char, more: Pattern, rest: Goal, left: bool, s: string)
    requires !InClass(c, ranges)
    ensures var k, i := Then(AtLeast(Of(ranges), n), Then(Both(Literal([c]), more), rest)), RunLen(ranges, s);
            && Find(k, left, s) ==
               (if i >= n && i < |s| && s[i] == c then FindAt(Then(more, rest), left, s, i + 1) else None)
            && (LongestAt(Then(more, rest), left, s, i + 1) ==> Longest(k, left, s))
  {
    hide Find, Longest, InClass, WordBefore, AtLeast, Literal;
    var after, i := Then(more, rest), RunLen(ranges, s);
    var next := Then(Both(Literal([c]), more), rest);
    forall k | 0 <= k <= i
      ensures FindAt(next, left, s, k) == if k < |s| && s[k] == c then FindAt(after, left, s, k + 1) else None
      ensures LongestAt(after, left, s, k + 1) ==> LongestAt(next, left, s, k)
    {
      CatFirst(Literal([c]), more, rest, WordBefore(left, s, k), s[k..]);
      LiteralFirst([c], after, WordBefore(left, s, k), s[k..]);
      assert [c] <= s[k..] <==> k < |s| && s[k] == c;
      if k < |s| {
        FurtherOn(after, left, s, k, 1);
      }
    }
    AtLeastThen(ranges, n, next, left, s);
  }

  // ---------- runs with single characters between them ----------

  /** Where two runs end that the character c separates, if neither is empty. */
  function EndOfTwo(first: seq<Range>, c: char, second: seq<Range>, s: string): Option<nat> {
    var i := RunLen(first, s);
    if 0 < i < |s| && s[i] == c && RunLen(second, s[i+1..]) > 0 then Some(i + 1 + RunLen(second, s[i+1..])) else None
  }

  function TwoRuns(first: seq<Range>, c: char, second: seq<Range>): Pattern {
    Both(AtLeast(Of(first), 1), Both(Literal([c]), AtLeast(Of(second), 1)))
  }

  lemma TwoRunsFound(first: seq<Range>, c: char, second: seq<Range>, left: bool, s: string)
    requires !InClass(c, first)
    ensures var k := Then(TwoRuns(first, c, second), Done);
            Find(k, left, s) == EndOfTwo(first, c, second, s) && Longest(k, left, s)
  {
    hide Find, Longest, InClass, WordBefore, AtLeast, Literal, RunLen;
    var one, two, i := AtLeast(Of(first), 1), AtLeast(Of(second), 1), RunLen(first, s);
    CatFirst(one, Both(Literal([c]), two), Done, left, s);
    RunThenChar(first, 1, c, two, Done, left, s);
    if 0 < i < |s| && s[i] == c {
      AtLeastLast(second, 1, WordBefore(left, s, i + 1), s[i+1..]);
    } else {
      NothingLonger(Then(TwoRuns(first, c, second), Done), left, s);
    }
  }

  /** The same for two runs behind another one. */
  function EndOfThree(start: seq<Range>, d: char, first: seq<Range>, c: char, second: seq<Range>, s: string)
    : Option<nat>
  {
    var i := RunLen(start, s);
    if 0 < i < |s| && s[i] == d then Plus(i + 1, EndOfTwo(first, c, second, s[i+1..])) else None
  }

  lemma ThreeRunsFound(start: seq<Range>, d: char, first: seq<Range>, c: char, second: seq<Range>,
                       left: bool, s: string)
    requires !InClass(d, start) && !InClass(c, first)
    ensures var k := Then(Both(AtLeast(Of(start), 1), Both(Literal([d]), TwoRuns(first, c, second))), Done);
            Find(k, left, s) == EndOfThree(start, d, first, c, second, s) && Longest(k, left, s)
  {
    hide Find, Longest, InClass, WordBefore, AtLeast, Literal, RunLen, TwoRuns, EndOfTwo;
    var one, two, i := AtLeast(Of(start), 1), TwoRuns(first, c, second), RunLen(start, s);
    CatFirst(one, Both(Literal([d]), two), Done, left, s);
    RunThenChar(start, 1, d, two, Done, left, s);
    if 0 < i < |s| && s[i] == d {
      TwoRunsFound(first, c, second, WordBefore(left, s, i + 1), s[i+1..]);
    } else {
      NothingLonger(Then(Both(one, Both(Literal([d]), two)), Done), left, s);
    }
  }

  lemma PlusNone(n: nat, found: Option<nat>)
    ensures Plus(n, found).None? <==> found.None?
  {
  }

  lemma PlusIf(n: nat, found: bool, m: nat)
    ensures Plus(n, if found then Some(m) else None) == if found then Some(n + m) else None
  {
  }

  lemma HereAt(k: Goal, left: bool, s: string, n: nat)
    requires n <= |s|
    ensures FindAt(k, left, s, n) == Plus(n, Find(k, WordBefore(left, s, n), s[n..]))
    ensures LongestAt(k, left, s, n) == Longest(k, WordBefore(left, s, n), s[n..])
  {
  }

  /** What is not found has no longer match. */
  lemma NotFilled(ranges: seq<Range>, n: nat, rest: Goal, left: bool, s: string)
    requires Find(Then(Times(Of(ranges), n), rest), left, s).None?
    ensures Longest(Then(Times(Of(ranges), n), rest), left, s)
  {
    NothingLonger(Then(Times(Of(ranges), n), rest), left, s);
  }

  lemma NothingLonger(k: Goal, left: bool, s: string)
    requires Find(k, left, s).None?
    ensures Longest(k, left, s)
  {
    forall n: nat | Can(k, left, s, n)
      ensures false
    {
      FindComplete(k, left, s, n);
    }
  }

  // ---------- boundaries and alternatives ----------

  lemma BoundaryFirst(rest: Goal, left: bool, s: string)
    ensures var k := Then(WordB, rest);
            && Find(k, left, s) == (if Boundary(left, s) then Find(rest, left, s) else None)
            && (Longest(rest, left, s) ==> Longest(k, left, s))
  {
  }

  /** Of two alternatives the first that can be found; the longest if the other is never longer. */
  lemma EitherFirst(a: Pattern, b: Pattern, rest: Goal, left: bool, s: string)
    ensures var m := Find(Then(a, rest), left, s);
            Find(Then(Either(a, b), rest), left, s) == if m.Some? then m else Find(Then(b, rest), left, s)
    ensures var m, n := Find(Then(a, rest), left, s), Find(Then(b, rest), left, s);
            var longest := m.None? || n.None? || n.value <= m.value;
            longest && Longest(Then(a, rest), left, s) && Longest(Then(b, rest), left, s) ==>
              Longest(Then(Either(a, b), rest), left, s)
  {
    var k := Then(Either(a, b), rest);
    forall n: nat
      ensures Can(k, left, s, n) <==> Can(Then(a, rest), left, s, n) || Can(Then(b, rest), left, s, n)
    {
    }
  }
}
