/**
 When masking may be done piece by piece: cutting a text after a break character
 and masking the two parts separately gives the same result as masking it whole.
*/
module Masking {
  import opened Wrappers
  import opened Text
  import opened Regexp
  import opened RegexpLemmas
  import opened Policy

  // ---------- one rule ----------

  /** The rule does not match the empty text. */
  predicate Solid(r: Pattern) {
    FindOne(r, false, "").None?
  }

  /** No span that ReplaceAll rewrites is empty or contains a break character. */
  predicate Clean(r: Pattern, left: bool, s: string)
    decreases |s|
  {
    match FindOne(r, left, s)
    case None => s == "" || Clean(r, IsWord(s[0]), s[1..])
    case Some(n) => n > 0 && NoBreak(s[..n]) && Clean(r, IsWord(s[n-1]), s[n..])
  }

  lemma FindCut(r: Pattern, left: bool, a: string, b: string)
    requires EndsInBreak(a)
    ensures FindOne(r, left, a + b).None? ==> FindOne(r, left, a).None?
    ensures forall n: nat | FindOne(r, left, a + b) == Some(n) && NoBreak((a + b)[..n]) ::
              n < |a| && FindOne(r, left, a) == Some(n)
  {
    FindTruncated(Then(r, Done), left, a, b);
    var found := FindOne(r, left, a + b);
    if found.Some? && |a| <= found.value {
      assert (a + b)[..found.value][|a|-1] == a[|a|-1];
    }
  }

  lemma {:induction false} CleanCut(r: Pattern, left: bool, a: string, b: string)
    requires Solid(r) && EndsInBreak(a) && Clean(r, left, a + b)
    ensures Clean(r, left, a) && Clean(r, false, b)
    decreases |a|
  {
    FindCut(r, left, a, b);
    match FindOne(r, left, a + b)
    case None =>
      assert (a + b)[1..] == a[1..] + b;
      if |a| > 1 {
        CleanCut(r, IsWord(a[0]), a[1..], b);
      } else {
        assert a[1..] + b == b && a[1..] == "";
      }
    case Some(n) =>
      assert (a + b)[n..] == a[n..] + b && (a + b)[..n] == a[..n];
      CleanCut(r, IsWord(a[n-1]), a[n..], b);
  }

  lemma EndsAppend(a: string, b: string)
    requires EndsInBreak(b)
    ensures EndsInBreak(a + b)
  {
    assert (a + b)[|a + b| - 1] == b[|b|-1];
  }

  lemma {:induction false} ReplaceEndsInBreak(r: Pattern, token: string, left: bool, after: bool, a: string)
    requires Solid(r) && EndsInBreak(a) && Clean(r, left, a)
    ensures EndsInBreak(ReplaceAll(r, token, left, after, a))
    decreases |a|
  {
    match FindOne(r, left, a)
    case None =>
      if |a| > 1 {
        ReplaceEndsInBreak(r, token, IsWord(a[0]), false, a[1..]);
        EndsAppend([a[0]], ReplaceAll(r, token, IsWord(a[0]), false, a[1..]));
      } else {
        assert a[1..] == "";
      }
    case Some(n) =>
      assert a[..n][n-1] == a[n-1];
      ReplaceEndsInBreak(r, token, IsWord(a[n-1]), true, a[n..]);
      EndsAppend(token, ReplaceAll(r, token, IsWord(a[n-1]), true, a[n..]));
  }

  lemma {:induction false} ReplaceCut(r: Pattern, token: string, left: bool, after: bool, a: string, b: string)
    requires Solid(r) && EndsInBreak(a) && Clean(r, left, a + b)
    ensures ReplaceAll(r, token, left, after, a + b) ==
            ReplaceAll(r, token, left, after, a) + ReplaceAll(r, token, false, false, b)
    decreases |a|
  {
    hide *;
    FindCut(r, left, a, b);
    CleanHere(r, left, a + b);
    EndsNotEmpty(a);
    match FindOne(r, left, a + b)
    case None =>
      TailAppend(a, b);
      ReplaceNone(r, token, left, after, a + b);
      ReplaceNone(r, token, left, after, a);
      if |a| > 1 {
        EndsTail(a, 1);
        ReplaceCut(r, token, IsWord(a[0]), false, a[1..], b);
        Regroup([a[0]], ReplaceAll(r, token, IsWord(a[0]), false, a[1..]), ReplaceAll(r, token, false, false, b));
      } else {
        EndsAlone(a);
        SolidNothing(r, token, IsWord(a[0]));
        assert a[1..] == "" && "" + b == b && [a[0]] + "" == [a[0]];
      }
    case Some(n) =>
      CutAfter(a, b, n);
      EndsTail(a, n);
      ReplaceCut(r, token, IsWord(a[n-1]), true, a[n..], b);
      ReplaceSome(r, token, left, after, a + b, n);
      ReplaceSome(r, token, left, after, a, n);
      Regroup(token, ReplaceAll(r, token, IsWord(a[n-1]), true, a[n..]), ReplaceAll(r, token, false, false, b));
  }

  lemma EndsNotEmpty(a: string)
    requires EndsInBreak(a)
    ensures a != ""
  {
  }

  lemma EndsTail(a: string, n: nat)
    requires EndsInBreak(a) && n < |a|
    ensures EndsInBreak(a[n..])
  {
  }

  /** A break character is no word character. */
  lemma EndsAlone(a: string)
    requires EndsInBreak(a)
    ensures !IsWord(a[|a|-1])
  {
  }

  lemma SolidNothing(r: Pattern, token: string, left: bool)
    requires Solid(r)
    ensures !left ==> ReplaceAll(r, token, left, false, "") == ""
  {
  }

  lemma CutAfter(a: string, b: string, n: nat)
    requires 0 < n <= |a|
    ensures (a + b)[n..] == a[n..] + b && (a + b)[n-1] == a[n-1] && (a + b)[..n] == a[..n]
  {
  }

  lemma ReplaceSome(r: Pattern, token: string, left: bool, after: bool, s: string, n: nat)
    requires 0 < n <= |s| && FindOne(r, left, s) == Some(n)
    ensures ReplaceAll(r, token, left, after, s) == token + ReplaceAll(r, token, IsWord(s[n-1]), true, s[n..])
  {
  }

  lemma ReplaceNone(r: Pattern, token: string, left: bool, after: bool, s: string)
    requires s != "" && FindOne(r, left, s).None?
    ensures ReplaceAll(r, token, left, after, s) == [s[0]] + ReplaceAll(r, token, IsWord(s[0]), false, s[1..])
  {
  }

  /** ReplaceAll removes exactly the break characters inside the spans it rewrites. */
  lemma {:induction false} CleanByCount(r: Pattern, token: string, left: bool, after: bool, s: string)
    requires NoBreak(token)
    requires WordSafe(r)
    ensures Breaks(ReplaceAll(r, token, left, after, s)) <= Breaks(s)
    ensures Breaks(ReplaceAll(r, token, left, after, s)) == Breaks(s) <==> Clean(r, left, s)
    decreases |s|
  {
    WordSafeFind(r, left, s);
    CleanHere(r, left, s);
    BreaksZero(token);
    hide *;
    match FindOne(r, left, s)
    case None =>
      if s == "" {
        ReplaceEmpty(r, token, left, after);
      } else {
        CleanByCount(r, token, IsWord(s[0]), false, s[1..]);
        CopyCount(r, token, left, after, s);
      }
    case Some(n) =>
      CleanByCount(r, token, IsWord(s[n-1]), true, s[n..]);
      SpanCount(r, token, left, after, s, n);
  }

  lemma CopyCount(r: Pattern, token: string, left: bool, after: bool, s: string)
    requires FindOne(r, left, s).None? && s != ""
    ensures Breaks(ReplaceAll(r, token, left, after, s)) - Breaks(ReplaceAll(r, token, IsWord(s[0]), false, s[1..])) ==
            Breaks(s) - Breaks(s[1..])
  {
    hide *;
    ReplaceNone(r, token, left, after, s);
    BreaksAppend([s[0]], s[1..]);
    BreaksAppend([s[0]], ReplaceAll(r, token, IsWord(s[0]), false, s[1..]));
    assert s == [s[0]] + s[1..];
  }

  lemma SpanCount(r: Pattern, token: string, left: bool, after: bool, s: string, n: nat)
    requires FindOne(r, left, s) == Some(n) && 0 < n <= |s| && Breaks(token) == 0
    ensures Breaks(ReplaceAll(r, token, left, after, s)) == Breaks(ReplaceAll(r, token, IsWord(s[n-1]), true, s[n..]))
    ensures Breaks(s) == Breaks(s[..n]) + Breaks(s[n..]) && (Breaks(s[..n]) == 0 <==> NoBreak(s[..n]))
  {
    hide *;
    ReplaceSome(r, token, left, after, s, n);
    BreaksAppend(token, ReplaceAll(r, token, IsWord(s[n-1]), true, s[n..]));
    BreaksAppend(s[..n], s[n..]);
    BreaksZero(s[..n]);
    assert s == s[..n] + s[n..];
  }

  lemma CleanHere(r: Pattern, left: bool, s: string)
    ensures Clean(r, left, s) <==>
            match FindOne(r, left, s)
            case None => s == "" || Clean(r, IsWord(s[0]), s[1..])
            case Some(n) => n > 0 && NoBreak(s[..n]) && Clean(r, IsWord(s[n-1]), s[n..])
  {
    hide FindOne;
  }

  lemma ReplaceEmpty(r: Pattern, token: string, left: bool, after: bool)
    requires FindOne(r, left, "").None?
    ensures ReplaceAll(r, token, left, after, "") == ""
  {
  }

  /** A break-free word followed by one break character. */
  predicate IsPiece(s: string) {
    EndsInBreak(s) && NoBreak(s[..|s|-1])
  }

  /** Matches are not empty, and none swallows the break character that ends a word. */
  ghost predicate WordSafe(r: Pattern) {
    forall left: bool, s: string ::
      var n := FindOne(r, left, s);
      n.Some? ==> n.value > 0 && (IsPiece(s) ==> n.value < |s|)
  }

  /** Matches are not empty, and none swallows a break character at the end of the text. */
  ghost predicate EndSafe(r: Pattern) {
    forall left: bool, s: string ::
      var n := FindOne(r, left, s);
      n.Some? ==> n.value > 0 && (EndsInBreak(s) ==> n.value < |s|)
  }

  lemma EndSafeIsWordSafe(r: Pattern)
    requires EndSafe(r)
    ensures WordSafe(r)
  {
  }

  lemma PieceTail(s: string, n: nat)
    requires IsPiece(s) && n < |s|
    ensures IsPiece(s[n..]) && (n > 0 ==> NoBreak(s[..n]))
  {
    assert s[n..][..|s|-n-1] == s[..|s|-1][n..] && s[n..][|s|-n-1] == s[|s|-1];
    assert s[..n] == s[..|s|-1][..n];
  }

  lemma PieceAppend(a: string, s: string)
    requires NoBreak(a) && IsPiece(s)
    ensures IsPiece(a + s)
  {
    assert (a + s)[..|a + s| - 1] == a + s[..|s|-1];
  }

  lemma WordSafeFind(r: Pattern, left: bool, s: string)
    requires WordSafe(r)
    ensures var n := FindOne(r, left, s); n.Some? ==> n.value > 0 && (IsPiece(s) ==> n.value < |s|)
  {
  }

  lemma {:induction false} WordSafePiece(r: Pattern, token: string, left: bool, after: bool, s: string)
    requires NoBreak(token) && WordSafe(r) && IsPiece(s)
    ensures IsPiece(ReplaceAll(r, token, left, after, s))
    decreases |s|
  {
    WordSafeFind(r, left, s);
    PieceNotEmpty(s);
    hide *;
    match FindOne(r, left, s)
    case None =>
      ReplaceNone(r, token, left, after, s);
      if |s| > 1 {
        PieceTail(s, 1);
        WordSafePiece(r, token, IsWord(s[0]), false, s[1..]);
        assert s[..1] == [s[0]];
        PieceAppend([s[0]], ReplaceAll(r, token, IsWord(s[0]), false, s[1..]));
      } else {
        WordSafeEmpty(r, token, IsWord(s[0]), false);
        assert s[1..] == "" && [s[0]] + "" == s;
      }
    case Some(n) =>
      ReplaceSome(r, token, left, after, s, n);
      PieceTail(s, n);
      WordSafePiece(r, token, IsWord(s[n-1]), true, s[n..]);
      PieceAppend(token, ReplaceAll(r, token, IsWord(s[n-1]), true, s[n..]));
  }

  lemma WordSafeEmpty(r: Pattern, token: string, left: bool, after: bool)
    requires WordSafe(r)
    ensures ReplaceAll(r, token, left, after, "") == ""
  {
    WordSafeFind(r, left, "");
  }

  lemma PieceNotEmpty(s: string)
    requires IsPiece(s)
    ensures s != ""
  {
  }

  lemma NoBreakParts(a: string, b: string, n: nat)
    ensures NoBreak(a) && NoBreak(b) ==> NoBreak(a + b)
    ensures NoBreak(a) && n <= |a| ==> NoBreak(a[n..])
    ensures NoBreak(a) && a != "" ==> NoBreak([a[0]])
  {
  }

  lemma {:induction false} ReplaceNoBreak(r: Pattern, token: string, left: bool, after: bool, s: string)
    requires NoBreak(token) && NoBreak(s)
    ensures NoBreak(ReplaceAll(r, token, left, after, s))
    decreases |s|
  {
    hide NoBreak, FindOne;
    match FindOne(r, left, s)
    case None =>
      if s != "" {
        NoBreakParts(s, "", 1);
        ReplaceNoBreak(r, token, IsWord(s[0]), false, s[1..]);
        NoBreakParts([s[0]], ReplaceAll(r, token, IsWord(s[0]), false, s[1..]), 0);
      }
    case Some(n) =>
      if n > 0 {
        NoBreakParts(s, "", n);
        ReplaceNoBreak(r, token, IsWord(s[n-1]), true, s[n..]);
        NoBreakParts(token, ReplaceAll(r, token, IsWord(s[n-1]), true, s[n..]), 0);
      } else if s != "" {
        NoBreakParts(s, "", 1);
        ReplaceNoBreak(r, token, IsWord(s[0]), false, s[1..]);
        var rest := [s[0]] + ReplaceAll(r, token, IsWord(s[0]), false, s[1..]);
        NoBreakParts([s[0]], ReplaceAll(r, token, IsWord(s[0]), false, s[1..]), 0);
        NoBreakParts(token, rest, 0);
        assert "" + rest == rest;
      } else {
        assert token + "" == token && "" + "" == "";
      }
  }

  // ---------- a list of rules ----------

  predicate AllSolid(rules: Rules) {
    forall k | 0 <= k < |rules| && Masks(rules[k]) :: Solid(rules[k].value.re.value)
  }

  ghost predicate AllWordSafe(rules: Rules) {
    forall k | 0 <= k < |rules| && Masks(rules[k]) :: WordSafe(rules[k].value.re.value)
  }

  /** No rule of the list, applied in turn, rewrites a span with a break character in it. */
  predicate RulesClean(rules: Rules, text: string) {
    rules == [] ||
    (var (prefix, last) := (rules[..|rules|-1], rules[|rules|-1]);
     RulesClean(prefix, text) && (Masks(last) ==> Clean(last.value.re.value, false, Masked(prefix, text))))
  }

  lemma {:induction false} RulesCleanPrefix(rules: Rules, text: string, k: nat)
    requires k <= |rules| && RulesClean(rules, text)
    ensures RulesClean(rules[..k], text)
  {
    if k < |rules| {
      RulesCleanPrefix(rules[..|rules|-1], text, k);
      assert rules[..|rules|-1][..k] == rules[..k];
    } else {
      assert rules[..k] == rules;
    }
  }

  lemma RulesCleanAt(rules: Rules, text: string, k: nat)
    requires k < |rules| && Masks(rules[k]) && RulesClean(rules, text)
    ensures Clean(rules[k].value.re.value, false, Masked(rules[..k], text))
  {
    RulesCleanPrefix(rules, text, k + 1);
    hide Clean;
    assert rules[..k+1][..k] == rules[..k] && rules[..k+1][k] == rules[k];
  }

  lemma {:induction false} RulesCut(rules: Rules, a: string, b: string)
    requires AllSolid(rules) && EndsInBreak(a) && RulesClean(rules, a + b)
    ensures RulesClean(rules, a) && RulesClean(rules, b)
    ensures Masked(rules, a + b) == Masked(rules, a) + Masked(rules, b)
    ensures EndsInBreak(Masked(rules, a))
  {
    if rules != [] {
      var prefix, last := rules[..|rules|-1], rules[|rules|-1];
      RulesCut(prefix, a, b);
      if Masks(last) {
        var re, a', b' := last.value.re.value, Masked(prefix, a), Masked(prefix, b);
        CleanCut(re, false, a', b');
        ReplaceCut(re, MASK_TOKEN, false, false, a', b');
        ReplaceEndsInBreak(re, MASK_TOKEN, false, false, a');
      }
    }
  }

  lemma {:induction false} RulesCleanByCount(rules: Rules, text: string)
    requires AllWordSafe(rules)
    ensures Breaks(Masked(rules, text)) <= Breaks(text)
    ensures Breaks(Masked(rules, text)) == Breaks(text) <==> RulesClean(rules, text)
  {
    if rules != [] {
      var prefix, last := rules[..|rules|-1], rules[|rules|-1];
      RulesCleanByCount(prefix, text);
      if Masks(last) {
        CleanByCount(last.value.re.value, MASK_TOKEN, false, false, Masked(prefix, text));
      }
    }
  }

  lemma {:induction false} MaskedPiece(rules: Rules, s: string)
    requires AllWordSafe(rules)
    ensures IsPiece(s) ==> IsPiece(Masked(rules, s))
    ensures NoBreak(s) ==> NoBreak(Masked(rules, s))
  {
    if rules != [] {
      var prefix, last := rules[..|rules|-1], rules[|rules|-1];
      MaskedPiece(prefix, s);
      if Masks(last) {
        if IsPiece(s) {
          WordSafePiece(last.value.re.value, MASK_TOKEN, false, false, Masked(prefix, s));
        } else if NoBreak(s) {
          ReplaceNoBreak(last.value.re.value, MASK_TOKEN, false, false, Masked(prefix, s));
        }
      }
    }
  }

  lemma {:induction false} MaskedEmpty(rules: Rules)
    requires AllSolid(rules)
    ensures Masked(rules, "") == ""
  {
    if rules != [] {
      MaskedEmpty(rules[..|rules|-1]);
    }
  }
}
