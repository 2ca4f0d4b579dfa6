/** Why nothing is left to mask after one pass: the mask token neither contains nor completes a match. */
module Residual {
  import opened Wrappers
  import opened Text
  import opened Regexp
  import opened RegexpLemmas
  import opened Policy
  import opened Stretches

  /** \b...\b with no other word boundary */
  predicate IsAnchored(r: Regex) {
    && r.Cat? && r.first.WordB?
    && r.second.Cat? && r.second.second.WordB?
    && NoWordB(r.second.first)
  }

  function Core(r: Pattern): Pattern
    requires IsAnchored(r)
  {
    assert WellFormed(r.second);
    r.second.first
  }

  /** Matches keep off the token, and boundaries are looked at nowhere or at both ends only. */
  predicate Inert(r: Pattern) {
    TokenSafe(r) && (NoWordB(r) || IsAnchored(r))
  }

  /** May b run after a without exposing new matches of a? */
  predicate MayFollow(a: Pattern, b: Pattern) {
    NoWordB(a) || (IsAnchored(a) && IsAnchored(b))
  }

  lemma InertFind(r: Pattern, left: bool, s: string)
    requires Inert(r)
    ensures var n := FindOne(r, left, s);
            n.Some? ==> n.value > 0 && '[' !in s[..n.value] && ']' !in s[..n.value]
                        && Can(Then(r, Done), left, s, n.value)
  {
    var n := FindOne(r, left, s);
    if n.Some? {
      FindSound(Then(r, Done), left, s);
      CanAvoids(Then(r, Done), left, s, n.value, '[');
      CanAvoids(Then(r, Done), left, s, n.value, ']');
      CanMinLen(Then(r, Done), left, s, n.value);
      assert GoalMinLen(Then(r, Done)) == MinLen(r);
    }
  }

  lemma InertNotEmpty(r: Pattern)
    requires Inert(r)
    ensures MinLen(r) > 0
  {
  }

  // ---------- anchored matches ----------

  /** A match of \b core \b is a match of the core between two boundaries. */
  lemma AnchoredCan(r: Pattern, left: bool, s: string, n: nat)
    requires IsAnchored(r) && n <= |s|
    ensures Can(Then(r, Done), left, s, n) <==>
              && Boundary(left, s)
              && Can(Then(Core(r), Done), left, s, n)
              && Boundary(WordBefore(left, s, n), s[n..])
  {
    var core, end := Core(r), Then(WordB, Done);
    assert WellFormed(r.second);
    CatWeight(WordB, r.second, Done);
    CatWeight(core, WordB, Done);
    var k := Then(core, Done);
    assert Append(k, end) == Then(core, end);
    assert Can(Then(r, Done), left, s, n) == Can(Then(WordB, Then(r.second, Done)), left, s, n);
    assert Can(Then(r.second, Done), left, s, n) == Can(Append(k, end), left, s, n);
    if Can(Append(k, end), left, s, n) {
      var m := CanAppend(k, end, left, s, n);
      assert Can(Done, WordBefore(left, s, m), s[m..], n - m);
    }
    if Can(k, left, s, n) && Boundary(WordBefore(left, s, n), s[n..]) {
      assert Splits(k, end, left, s, n, n);
      CanAppendBack(k, end, left, s, n, n);
    }
  }

  // ---------- a match in a stretch is a match of the original text ----------

  /** No end of a span that r rewrites, and no place where it only inserts the token, is inside a word. */
  predicate CutsNoWord(r: Pattern, left: bool, after: bool, s: string)
    decreases |s|, 1
  {
    var n := FindOne(r, left, s);
    if n.Some? && n.value > 0 then
      && !(left && WordAt(s, 0)) && !(IsWord(s[n.value-1]) && WordAt(s, n.value))
      && CutsNoWord(r, IsWord(s[n.value-1]), true, s[n.value..])
    else
      && (n.Some? && !after ==> !(left && WordAt(s, 0)))
      && CutsNoneLater(r, s)
  }

  predicate CutsNoneLater(r: Pattern, s: string)
    decreases |s|, 0
  {
    s == "" || CutsNoWord(r, IsWord(s[0]), false, s[1..])
  }

  /** An expression with a boundary at both ends cuts no word. */
  lemma {:induction false} AnchoredCutsNoWord(r: Pattern, left: bool, after: bool, s: string)
    requires Inert(r) && IsAnchored(r)
    ensures CutsNoWord(r, left, after, s)
    decreases |s|
  {
    InertFind(r, left, s);
    var n := FindOne(r, left, s);
    if n.Some? {
      AnchoredCan(r, left, s, n.value);
      hide FindOne, Inert, IsAnchored;
      AnchoredCutsNoWord(r, IsWord(s[n.value-1]), true, s[n.value..]);
    } else if s != "" {
      hide FindOne, Inert, IsAnchored;
      AnchoredCutsNoWord(r, IsWord(s[0]), false, s[1..]);
    }
  }

  /** May r run where a is to stay quiet? */
  predicate Fits(a: Pattern, r: Pattern, left: bool, after: bool, s: string) {
    NoWordB(a) || (IsAnchored(a) && CutsNoWord(r, left, after, s))
  }

  /** The bit before a position, in the stretch and in the original text. */
  predicate SameEdge(a: Pattern, left: bool, left': bool, s: string) {
    NoWordB(a) || left == left' || (!left' && !(left && WordAt(s, 0)))
  }

  /** A stretch at the front of s ends where a word of s does, if it ends in one. */
  predicate EndsWell(left: bool, s: string, gap: string) {
    gap <= s && !(WordBefore(left, s, |gap|) && WordAt(s, |gap|))
  }

  /** The first stretch is the beginning of the text. */
  lemma {:induction false} FirstGap(r: Pattern, left: bool, after: bool, s: string)
    ensures Gaps(r, left, after, s)[0] <= s
    ensures CutsNoWord(r, left, after, s) ==> EndsWell(left, s, Gaps(r, left, after, s)[0])
    decreases |s|, 1
  {
    FirstCopied(r, left, s);
    hide FindOne;
  }

  lemma {:induction false} FirstCopied(r: Pattern, left: bool, s: string)
    ensures Copied(r, s)[0] <= s
    ensures CutsNoneLater(r, s) ==> EndsWell(left, s, Copied(r, s)[0])
    decreases |s|, 0
  {
    if s != "" {
      FirstGap(r, IsWord(s[0]), false, s[1..]);
      hide Gaps, CutsNoWord;
      OneFurther(left, s, Gaps(r, IsWord(s[0]), false, s[1..])[0]);
    }
  }

  /** Positions seen from one character further on. */
  lemma OneFurther(left: bool, s: string, gap: string)
    requires s != "" && gap <= s[1..]
    ensures [s[0]] + gap <= s
    ensures EndsWell(IsWord(s[0]), s[1..], gap) ==> EndsWell(left, s, [s[0]] + gap)
  {
    assert [s[0]] + s[1..] == s;
  }

  /** What a matches at the front of a stretch, it matches there in the original text. */
  lemma MatchTransfers(a: Pattern, left: bool, left': bool, gap: string, s: string, n: nat)
    requires Inert(a) && SameEdge(a, left, left', s) && gap <= s
    requires NoWordB(a) || EndsWell(left, s, gap)
    requires FindOne(a, left', gap) == Some(n)
    ensures n <= |s| && Can(Then(a, Done), left, s, n)
  {
    InertFind(a, left', gap);
    assert s[..n] == gap[..n] && s[0] == gap[0] && s[n-1] == gap[n-1];
    hide TokenSafe, FindOne;
    if NoWordB(a) {
      CanContext(Then(a, Done), left', gap, left, s, n);
    } else {
      AnchoredCan(a, left', gap, n);
      AnchoredCan(a, left, s, n);
      CanContext(Then(Core(a), Done), left', gap, left, s, n);
      assert n < |gap| ==> gap[n] == s[n];
    }
  }

  lemma {:induction false} NoneInsideWord(r: Pattern, s: string)
    requires Inert(r) && IsAnchored(r) && forall k | 0 <= k < |s| :: IsWord(s[k])
    ensures !HasMatch(r, true, s)
    decreases |s|
  {
    InertFind(r, true, s);
    hide Can, Inert, FindOne;
    match FindOne(r, true, s) {
      case None =>
      case Some(n) => AnchoredCan(r, true, s, n);
    }
    if s != "" {
      NoneInsideWord(r, s[1..]);
    }
  }

  /** A word is matched by an expression with boundaries at both ends only from its first character. */
  lemma NoneInWord(r: Pattern, s: string)
    requires Inert(r) && IsAnchored(r) && s != "" && Avoids(r, s[0])
    requires forall k | 0 <= k < |s| :: IsWord(s[k])
    ensures !HasMatch(r, false, s)
  {
    InertFind(r, false, s);
    var n := FindOne(r, false, s);
    if n.Some? {
      CanAvoids(Then(r, Done), false, s, n.value, s[0]);
    }
    NoneInsideWord(r, s[1..]);
  }

  /** `a` has no match at any position where r copies a character. */
  predicate Untouched(a: Pattern, r: Pattern, left: bool, s: string)
    decreases |s|
  {
    var n := FindOne(r, left, s);
    if n.Some? && n.value > 0 then Untouched(a, r, IsWord(s[n.value-1]), s[n.value..])
    else FindOne(a, left, s).None? && (s == "" || Untouched(a, r, IsWord(s[0]), s[1..]))
  }

  lemma {:induction false} UntouchedSelf(r: Pattern, left: bool, s: string)
    requires Inert(r)
    ensures Untouched(r, r, left, s)
    decreases |s|
  {
    InertFind(r, left, s);
    match FindOne(r, left, s)
    case None => if s != "" { UntouchedSelf(r, IsWord(s[0]), s[1..]); }
    case Some(n) => UntouchedSelf(r, IsWord(s[n-1]), s[n..]);
  }

  lemma {:induction false} UntouchedQuiet(a: Pattern, r: Pattern, left: bool, s: string)
    requires !HasMatch(a, left, s)
    ensures Untouched(a, r, left, s)
    decreases |s|
  {
    var n := FindOne(r, left, s);
    if n.Some? && n.value > 0 {
      if HasMatch(a, IsWord(s[n.value-1]), s[n.value..]) {
        HasMatchLater(a, left, s, n.value);
      }
      UntouchedQuiet(a, r, IsWord(s[n.value-1]), s[n.value..]);
    } else if s != "" {
      UntouchedQuiet(a, r, IsWord(s[0]), s[1..]);
    }
  }

  lemma NothingInEmpty(a: Pattern, left: bool)
    requires Inert(a)
    ensures !HasMatch(a, left, "")
  {
    InertFind(a, left, "");
  }

  /** The stretches hold no match of a. */
  lemma {:induction false} QuietGaps(a: Pattern, r: Pattern, left: bool, left': bool, after: bool, s: string)
    requires Inert(a) && Fits(a, r, left, after, s) && SameEdge(a, left, left', s)
    requires Untouched(a, r, left, s)
    ensures QuietIn(a, left', Gaps(r, left, after, s))
    decreases |s|, 1
  {
    hide *;
    NothingInEmpty(a, left');
    var n := FindOne(r, left, s);
    if n.Some? && n.value > 0 {
      AtSpan(a, r, left, after, s, n.value);
      var rest := Gaps(r, IsWord(s[n.value-1]), true, s[n.value..]);
      QuietGaps(a, r, IsWord(s[n.value-1]), false, true, s[n.value..]);
      QuietAfterToken(a, left', rest);
    } else {
      AtCopy(a, r, left, after, s);
      if n.Some? && !after {
        QuietCopied(a, r, left, false, s);
        QuietAfterToken(a, left', Copied(r, s));
      } else {
        QuietCopied(a, r, left, left', s);
      }
    }
  }

  lemma QuietAfterToken(a: Pattern, left: bool, gaps: seq<string>)
    requires |gaps| > 0 && !HasMatch(a, left, "") && QuietIn(a, false, gaps)
    ensures QuietIn(a, left, [""] + gaps)
  {
    hide HasMatch;
    TailAppend([""], gaps);
    QuietInNext(a, left, [""] + gaps);
  }

  lemma AtSpan(a: Pattern, r: Pattern, left: bool, after: bool, s: string, n: nat)
    requires FindOne(r, left, s) == Some(n) && 0 < n <= |s|
    requires Fits(a, r, left, after, s) && Untouched(a, r, left, s)
    ensures Gaps(r, left, after, s) == [""] + Gaps(r, IsWord(s[n-1]), true, s[n..])
    ensures Fits(a, r, IsWord(s[n-1]), true, s[n..]) && Untouched(a, r, IsWord(s[n-1]), s[n..])
    ensures SameEdge(a, IsWord(s[n-1]), false, s[n..])
  {
    hide FindOne;
  }

  lemma AtCopy(a: Pattern, r: Pattern, left: bool, after: bool, s: string)
    requires FindOne(r, left, s).None? || FindOne(r, left, s).value == 0
    requires Fits(a, r, left, after, s) && Untouched(a, r, left, s)
    ensures var inserts := FindOne(r, left, s).Some? && !after;
            && Gaps(r, left, after, s) == (if inserts then [""] + Copied(r, s) else Copied(r, s))
            && (inserts ==> SameEdge(a, left, false, s))
    ensures FindOne(a, left, s).None? && (NoWordB(a) || (IsAnchored(a) && CutsNoneLater(r, s)))
    ensures s != "" ==> Untouched(a, r, IsWord(s[0]), s[1..])
  {
    hide FindOne;
  }

  lemma {:induction false} QuietCopied(a: Pattern, r: Pattern, left: bool, left': bool, s: string)
    requires Inert(a) && SameEdge(a, left, left', s) && FindOne(a, left, s).None?
    requires NoWordB(a) || (IsAnchored(a) && CutsNoneLater(r, s))
    requires s != "" ==> Untouched(a, r, IsWord(s[0]), s[1..])
    ensures QuietIn(a, left', Copied(r, s))
    decreases |s|, 0
  {
    var gap := Copied(r, s)[0];
    FirstCopied(r, left, s);
    var n := FindOne(a, left', gap);
    if n.Some? {
      MatchTransfers(a, left, left', gap, s, n.value);
      FindComplete(Then(a, Done), left, s, n.value);
    }
    HasMatchHere(a, left', gap);
    hide FindOne, Inert, HasMatch, Gaps, CutsNoWord, Untouched;
    if s != "" {
      var rest := Gaps(r, IsWord(s[0]), false, s[1..]);
      QuietGaps(a, r, IsWord(s[0]), IsWord(s[0]), false, s[1..]);
      assert gap[1..] == rest[0] && Copied(r, s)[1..] == rest[1..];
    }
  }

  lemma HasMatchHere(a: Pattern, left: bool, t: string)
    ensures HasMatch(a, left, t) <==> FindOne(a, left, t).Some? || (t != "" && HasMatch(a, IsWord(t[0]), t[1..]))
  {
  }

  /** Where r cuts no word that a could then match, rewriting by r exposes no match of a. */
  lemma NoMatchAfter(a: Pattern, r: Pattern, s: string)
    requires Inert(a) && Fits(a, r, false, false, s) && Untouched(a, r, false, s)
    ensures !HasMatch(a, false, ReplaceAll(r, MASK_TOKEN, false, false, s))
  {
    QuietGaps(a, r, false, false, false, s);
    hide HasMatch, ReplaceAll, Joined, Gaps, Untouched;
    ReplaceIsJoined(r, false, false, s);
    JoinedQuiet(a, false, Gaps(r, false, false, s));
  }

  // ---------- a list of rules ----------

  /** Every rewriting rule is inert, and those without \b come before those with it. */
  predicate Layered(rules: Rules) {
    && (forall k | 0 <= k < |rules| && Masks(rules[k]) :: Inert(rules[k].value.re.value))
    && (forall j, k | 0 <= j < k < |rules| && Masks(rules[j]) && Masks(rules[k]) ::
          MayFollow(rules[j].value.re.value, rules[k].value.re.value))
  }

  predicate Quiet(r: Option<Rule>, text: string) {
    Masks(r) ==> !HasMatch(r.value.re.value, false, text)
  }

  /** A rule of the list stays quiet under the rules after it, and is quiet after itself. */
  lemma QuietAfter(a: Option<Rule>, last: Option<Rule>, text: string)
    requires Masks(a) ==> Inert(a.value.re.value)
    requires Masks(last) ==> Inert(last.value.re.value)
    requires Masks(a) && Masks(last) ==> MayFollow(a.value.re.value, last.value.re.value)
    requires a == last || Quiet(a, text)
    ensures Quiet(a, Step(last, text))
  {
    if Masks(a) && Masks(last) {
      var x, r := a.value.re.value, last.value.re.value;
      hide HasMatch, ReplaceAll, Inert, CutsNoWord;
      if IsAnchored(r) {
        AnchoredCutsNoWord(r, false, false, text);
      }
      if a == last {
        UntouchedSelf(r, false, text);
      } else {
        UntouchedQuiet(x, r, false, text);
      }
      NoMatchAfter(x, r, text);
    }
  }

  lemma InertFollowsItself(r: Pattern)
    requires Inert(r)
    ensures MayFollow(r, r)
  {
  }

  lemma QuietUnderLast(rules: Rules, text: string, k: nat)
    requires Layered(rules) && k < |rules|
    requires k < |rules| - 1 ==> Quiet(rules[k], text)
    ensures Quiet(rules[k], Step(rules[|rules|-1], text))
  {
    hide Quiet, Inert, MayFollow, Step;
    var last := rules[|rules|-1];
    if Masks(last) && rules[k] == last {
      InertFollowsItself(last.value.re.value);
    }
    QuietAfter(rules[k], last, text);
  }

  lemma LayeredPrefix(rules: Rules)
    requires Layered(rules) && rules != []
    ensures Layered(rules[..|rules|-1])
  {
    hide Inert, MayFollow;
  }

  /** After one pass no rewriting rule matches anywhere. */
  lemma {:induction false} NothingLeft(rules: Rules, text: string)
    requires Layered(rules)
    ensures forall k | 0 <= k < |rules| :: Quiet(rules[k], Masked(rules, text))
  {
    if rules != [] {
      var prefix := rules[..|rules|-1];
      LayeredPrefix(rules);
      NothingLeft(prefix, text);
      hide Quiet, Layered, Step;
      var t := Masked(prefix, text);
      forall k | 0 <= k < |rules|
        ensures Quiet(rules[k], Masked(rules, text))
      {
        assert k < |prefix| ==> prefix[k] == rules[k];
        QuietUnderLast(rules, t, k);
      }
    }
  }

  lemma {:induction false} QuietFixpoint(rules: Rules, text: string)
    requires forall k | 0 <= k < |rules| :: Quiet(rules[k], text)
    ensures Masked(rules, text) == text
  {
    if rules != [] {
      var prefix, last := rules[..|rules|-1], rules[|rules|-1];
      assert forall k | 0 <= k < |prefix| :: prefix[k] == rules[k];
      QuietFixpoint(prefix, text);
      if Masks(last) {
        ReplaceNothing(last.value.re.value, MASK_TOKEN, false, false, text);
      }
    }
  }

  /** A second pass changes nothing and blocks nothing. */
  lemma SecondPass(rules: Rules, text: string)
    requires Layered(rules)
    ensures Masked(rules, Masked(rules, text)) == Masked(rules, text)
    ensures !Blocks(rules, Masked(rules, text))
  {
    var t := Masked(rules, text);
    NothingLeft(rules, text);
    QuietFixpoint(rules, t);
    forall k: nat | k < |rules| && rules[k].Some? && rules[k].value.action == ACTION_BLOCK
      ensures !FiresAt(rules, t, k)
    {
      assert forall j | 0 <= j < k :: rules[..k][j] == rules[j];
      QuietFixpoint(rules[..k], t);
      assert Quiet(rules[k], t);
    }
  }
}
