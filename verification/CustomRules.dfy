/** Administrators' rules, which run after the built-in ones: when they keep the text free of matches, and when not. */
module CustomRules {
  import opened Wrappers
  import opened Text
  import opened Regexp
  import opened RegexpLemmas
  import opened Policy
  import opened Masking
  import opened Stretches
  import opened Residual
  import opened BuiltinRules
  import opened BuiltinStreaming
  import opened Streaming
  import opened StreamResidue

  // ---------- what a list of rules leaves ----------

  /** The stretches of the text that the last rewriting rule of the list copies, or the whole text. */
  function LeftBy(rules: Rules, text: string): seq<string> {
    if rules == [] then [text]
    else
      var prefix, last := rules[..|rules|-1], rules[|rules|-1];
      if Masks(last) then Gaps(last.value.re.value, false, false, Masked(prefix, text)) else LeftBy(prefix, text)
  }

  /** After any list of rules a pattern matches exactly if it matches in a stretch that is left. */
  lemma {:induction false} ResidueOfList(a: Pattern, rules: Rules, text: string)
    requires TokenSafe(a)
    ensures HasMatch(a, false, Masked(rules, text)) <==>
            exists gap | gap in LeftBy(rules, text) :: HasMatch(a, false, gap)
  {
    hide HasMatch, TokenSafe, ReplaceAll, Gaps;
    if rules == [] {
      assert text in [text] by { assert [text][0] == text; }
    } else {
      var prefix, last := rules[..|rules|-1], rules[|rules|-1];
      if Masks(last) {
        ResidueExactly(a, last.value.re.value, Masked(prefix, text));
      } else {
        ResidueOfList(a, prefix, text);
      }
    }
  }

  lemma {:induction false} MaskedAppend(a: Rules, b: Rules, text: string)
    ensures Masked(a + b, text) == Masked(b, Masked(a, text))
    decreases |b|
  {
    hide Step;
    if b == [] {
      assert a + b == a;
    } else {
      assert (a + b)[..|a + b|-1] == a + b[..|b|-1];
      MaskedAppend(a, b[..|b|-1], text);
    }
  }

  // ---------- the built-in rules after custom ones ----------

  /** A pattern without boundaries that matches nowhere is exposed by no rule whatsoever. */
  lemma {:induction false} BareStaysQuiet(a: Pattern, rules: Rules, text: string)
    requires Inert(a) && NoWordB(a) && !HasMatch(a, false, text)
    ensures !HasMatch(a, false, Masked(rules, text))
  {
    if rules != [] {
      var prefix, last := rules[..|rules|-1], rules[|rules|-1];
      BareStaysQuiet(a, prefix, text);
      hide HasMatch, ReplaceAll, Inert, NoWordB;
      if Masks(last) {
        UntouchedQuiet(a, last.value.re.value, false, Masked(prefix, text));
        NoMatchAfter(a, last.value.re.value, Masked(prefix, text));
      }
    }
  }

  /** What the built-in rules leave, as the custom rules find it. */
  function Before(text: string): string {
    Masked(Builtins(), text)
  }

  function After(custom: Rules, text: string): string {
    Masked(Builtins() + custom, text)
  }

  predicate BuiltinsQuiet(text: string) {
    forall k | 0 <= k < |Builtins()| :: Quiet(Builtins()[k], text)
  }

  /** Keys and tokens stay masked under every list of custom rules. */
  lemma SecretsStayMasked(custom: Rules, text: string, k: nat)
    requires k < 4
    ensures Quiet(Builtins()[k], After(custom, text))
  {
    hide Builtins, Masked, HasMatch, Inert, NoWordB, IsAnchored;
    BuiltinShape(k);
    BuiltinsLeaveNothing(text);
    MaskedAppend(Builtins(), custom, text);
    BareStaysQuiet(Builtins()[k].value.re.value, custom, Before(text));
  }

  lemma KeyStaysMasked(custom: Rules, text: string, k: nat)
    requires k < 4
    ensures !HasMatch(Rewriter(k), false, Masked(Builtins() + custom, text))
  {
    hide Builtins, Rewriter, Masked, HasMatch, Inert, NoWordB, IsAnchored;
    SecretsStayMasked(custom, text, k);
    MaskingPattern(k);
    BuiltinShape(k);
  }

  /** Nor does any stream contain a provider key, if no custom rule swallows the blank at the end of a text. */
  lemma KeysLeaveStreams(custom: Rules, k: nat, buf: string, deltas: seq<string>)
    requires k < 2 && AllEndSafe(custom)
    ensures !HasMatch(Rewriter(k), false, StreamOut(Builtins() + custom, buf, deltas))
  {
    hide Builtins, Rewriter, Masked, HasMatch, EndSafe, StreamOut, Local;
    BuiltinsEndSafe();
    LocalRewriter(k);
    forall text: string
      ensures !HasMatch(Rewriter(k), false, Masked(Builtins() + custom, text))
    {
      KeyStaysMasked(custom, text, k);
    }
    StreamLeavesNothing(Builtins() + custom, Rewriter(k), buf, deltas);
  }

  /** None of the four detectors for numbers matches the stretch by itself. */
  predicate NumbersQuiet(gap: string) {
    forall k | 4 <= k < 8 :: !HasMatch(Rewriter(k), false, gap)
  }

  lemma NumberResidue(custom: Rules, text: string, k: nat)
    requires 4 <= k < 8
    ensures |Builtins()| > 8
    ensures Quiet(Builtins()[k], After(custom, text)) <==>
            forall gap | gap in LeftBy(custom, Before(text)) :: !HasMatch(Rewriter(k), false, gap)
  {
    hide Builtins, Rewriter, Masked, HasMatch, NoWordB, IsAnchored, TokenSafe, LeftBy;
    MaskingPattern(k);
    BuiltinShape(k);
    MaskedAppend(Builtins(), custom, text);
    ResidueOfList(Rewriter(k), custom, Before(text));
  }

  /**
   Behind any custom rules the built-in rules find nothing more, and a further pass of
   them changes nothing, if and only if none of the four number detectors matches in a
   stretch that the last custom rule leaves, taken by itself.
  */
  lemma CustomResidueExactly(custom: Rules, text: string)
    ensures BuiltinsQuiet(After(custom, text)) <==>
            forall gap | gap in LeftBy(custom, Before(text)) :: NumbersQuiet(gap)
    ensures Masked(Builtins(), After(custom, text)) == After(custom, text) <==>
            forall gap | gap in LeftBy(custom, Before(text)) :: NumbersQuiet(gap)
  {
    hide Builtins, Rewriter, Masked, LeftBy, Quiet, HasMatch, After, Before;
    var gaps, t := LeftBy(custom, Before(text)), After(custom, text);
    if forall gap | gap in gaps :: NumbersQuiet(gap) {
      forall k: nat | k < |Builtins()|
        ensures Quiet(Builtins()[k], t)
      {
        QuietByResidue(custom, text, k);
      }
    }
    if BuiltinsQuiet(t) {
      forall gap, k: nat | gap in gaps && 4 <= k < 8
        ensures !HasMatch(Rewriter(k), false, gap)
      {
        NumberResidue(custom, text, k);
      }
    }
    FixpointOfBuiltins(t);
  }

  lemma QuietByResidue(custom: Rules, text: string, k: nat)
    requires k < |Builtins()| && forall gap | gap in LeftBy(custom, Before(text)) :: NumbersQuiet(gap)
    ensures Quiet(Builtins()[k], After(custom, text))
  {
    hide Builtins, Rewriter, Masked, LeftBy, Quiet, HasMatch, After, Before;
    if k < 4 {
      SecretsStayMasked(custom, text, k);
    } else if k < 8 {
      NumberResidue(custom, text, k);
    } else {
      FlagIsQuiet(k, After(custom, text));
    }
  }

  // ---------- a pass that changes nothing has nothing to do ----------

  function Brackets(s: string): nat {
    multiset(s)['[']
  }

  lemma BracketsAppend(a: string, b: string)
    ensures Brackets(a + b) == Brackets(a) + Brackets(b)
    ensures '[' !in a ==> Brackets(a) == 0
  {
  }

  lemma {:induction false} BracketsGrow(r: Pattern, left: bool, after: bool, s: string)
    requires Inert(r)
    ensures Brackets(ReplaceAll(r, MASK_TOKEN, left, after, s)) >= Brackets(s)
    ensures HasMatch(r, left, s) ==> Brackets(ReplaceAll(r, MASK_TOKEN, left, after, s)) > Brackets(s)
    decreases |s|
  {
    InertFind(r, left, s);
    HasMatchHere(r, left, s);
    hide *;
    match FindOne(r, left, s)
    case Some(n) =>
      BracketsGrow(r, IsWord(s[n-1]), true, s[n..]);
      SpanGrows(r, left, after, s, n);
    case None =>
      if s == "" {
        ReplaceNothing(r, MASK_TOKEN, left, after, s);
      } else {
        BracketsGrow(r, IsWord(s[0]), false, s[1..]);
        CopyGrows(r, left, after, s);
      }
  }

  lemma SpanGrows(r: Pattern, left: bool, after: bool, s: string, n: nat)
    requires FindOne(r, left, s) == Some(n) && 0 < n <= |s| && '[' !in s[..n]
    requires Brackets(ReplaceAll(r, MASK_TOKEN, IsWord(s[n-1]), true, s[n..])) >= Brackets(s[n..])
    ensures Brackets(ReplaceAll(r, MASK_TOKEN, left, after, s)) > Brackets(s)
  {
    hide *;
    ReplaceSome(r, MASK_TOKEN, left, after, s, n);
    BracketsAppend(s[..n], s[n..]);
    BracketsAppend(MASK_TOKEN, ReplaceAll(r, MASK_TOKEN, IsWord(s[n-1]), true, s[n..]));
    TokenHasBracket();
    assert s == s[..n] + s[n..];
  }

  lemma CopyGrows(r: Pattern, left: bool, after: bool, s: string)
    requires FindOne(r, left, s).None? && s != ""
    ensures var rest := ReplaceAll(r, MASK_TOKEN, IsWord(s[0]), false, s[1..]);
            Brackets(ReplaceAll(r, MASK_TOKEN, left, after, s)) - Brackets(s) == Brackets(rest) - Brackets(s[1..])
  {
    hide *;
    ReplaceNone(r, MASK_TOKEN, left, after, s);
    BracketsAppend([s[0]], s[1..]);
    BracketsAppend([s[0]], ReplaceAll(r, MASK_TOKEN, IsWord(s[0]), false, s[1..]));
    assert s == [s[0]] + s[1..];
  }

  lemma TokenHasBracket()
    ensures Brackets(MASK_TOKEN) > 0
  {
    assert MASK_TOKEN[0] == '[';
  }

  lemma {:induction false} PassGrows(rules: Rules, text: string)
    requires forall k | 0 <= k < |rules| && Masks(rules[k]) :: Inert(rules[k].value.re.value)
    ensures Brackets(Masked(rules, text)) >= Brackets(text)
    ensures Brackets(Masked(rules, text)) == Brackets(text) ==> forall k | 0 <= k < |rules| :: Quiet(rules[k], text)
  {
    hide Brackets, HasMatch, ReplaceAll, Inert;
    if rules != [] {
      var prefix, last := rules[..|rules|-1], rules[|rules|-1];
      PassGrows(prefix, text);
      if Masks(last) {
        BracketsGrow(last.value.re.value, false, false, Masked(prefix, text));
      }
      if Brackets(Masked(rules, text)) == Brackets(text) {
        QuietFixpoint(prefix, text);
      }
    }
  }

  lemma FixpointOfBuiltins(text: string)
    ensures Masked(Builtins(), text) == text <==> BuiltinsQuiet(text)
  {
    hide Builtins, Masked, Quiet, Inert, NoWordB, IsAnchored;
    forall k: nat | k < |Builtins()|
      ensures Shape(Builtins()[k], k)
    {
      BuiltinShape(k);
    }
    PassGrows(Builtins(), text);
    if BuiltinsQuiet(text) {
      QuietFixpoint(Builtins(), text);
    }
  }

  // ---------- conditions on the rules, or on where they match ----------

  /** No rewriting rule of the list begins or ends a span inside a word of the text it sees. */
  predicate CutNoWords(custom: Rules, text: string) {
    forall k | 0 <= k < |custom| && Masks(custom[k]) ::
      CutsNoWord(custom[k].value.re.value, false, false, Masked(custom[..k], text))
  }

  lemma CutNoWordsPrefix(custom: Rules, text: string)
    requires custom != [] && CutNoWords(custom, text)
    ensures CutNoWords(custom[..|custom|-1], text)
  {
    hide CutsNoWord;
    var prefix := custom[..|custom|-1];
    assert forall k | 0 <= k < |prefix| :: prefix[k] == custom[k] && prefix[..k] == custom[..k];
  }

  lemma {:induction false} WholeWordsQuiet(a: Option<Rule>, custom: Rules, text: string)
    requires Masks(a) ==> Inert(a.value.re.value)
    requires Quiet(a, text) && CutNoWords(custom, text)
    ensures Quiet(a, Masked(custom, text))
  {
    if custom != [] && Masks(a) {
      var prefix, last := custom[..|custom|-1], custom[|custom|-1];
      CutNoWordsPrefix(custom, text);
      WholeWordsQuiet(a, prefix, text);
      hide HasMatch, ReplaceAll, CutsNoWord;
      if Masks(last) {
        UntouchedQuiet(a.value.re.value, last.value.re.value, false, Masked(prefix, text));
        NoMatchAfter(a.value.re.value, last.value.re.value, Masked(prefix, text));
      }
    }
  }

  /** Keywords and expressions that are found as whole words leave nothing for the built-in rules. */
  lemma WholeWordsLeaveNothing(custom: Rules, text: string)
    requires CutNoWords(custom, Before(text))
    ensures BuiltinsQuiet(After(custom, text))
  {
    hide Builtins, Masked, Quiet, Inert, NoWordB, IsAnchored, CutNoWords;
    MaskedAppend(Builtins(), custom, text);
    BuiltinsLeaveNothing(text);
    forall k: nat | k < |Builtins()|
      ensures Quiet(Builtins()[k], After(custom, text))
    {
      BuiltinShape(k);
      WholeWordsQuiet(Builtins()[k], custom, Before(text));
    }
  }

  /** Every rewriting rule of the list has a boundary at both ends and keeps off the token. */
  predicate AllAnchored(custom: Rules) {
    forall k | 0 <= k < |custom| && Masks(custom[k]) ::
      Inert(custom[k].value.re.value) && IsAnchored(custom[k].value.re.value)
  }

  lemma AnchoredMayFollow(custom: Rules)
    requires AllAnchored(custom)
    ensures Layered(Builtins() + custom)
  {
    hide Builtins, Inert, NoWordB, IsAnchored;
    forall k: nat | k < |Builtins()|
      ensures Shape(Builtins()[k], k)
    {
      BuiltinShape(k);
    }
  }

  /** Behind such a list neither the built-in rules nor the custom ones find anything more. */
  lemma AnchoredLeaveNothing(custom: Rules, text: string)
    requires AllAnchored(custom)
    ensures var rules := Builtins() + custom;
            && (forall k | 0 <= k < |rules| :: Quiet(rules[k], Masked(rules, text)))
            && Masked(rules, Masked(rules, text)) == Masked(rules, text)
            && !Blocks(rules, Masked(rules, text))
  {
    hide Builtins, Masked, Blocks, Quiet, AllAnchored, Layered;
    AnchoredMayFollow(custom);
    NothingLeft(Builtins() + custom, text);
    SecondPass(Builtins() + custom, text);
  }

  // ---------- a rule that exposes a match ----------

  const NAME := "account"
  const NUMBER := "12345678901"

  /** A keyword to be masked. */
  function NameRule(): Option<Rule> {
    KeywordRule("account", "custom", ACTION_MASK, "low", NAME)
  }

  lemma TextIsWord()
    ensures forall k | 0 <= k < |NAME + NUMBER| :: IsWord((NAME + NUMBER)[k]) && Harmless((NAME + NUMBER)[k])
    ensures (NAME + NUMBER)[0] == 'a'
  {
  }

  /** No built-in rule that rewrites matches the text. */
  lemma BuiltinsMiss(k: nat)
    requires k < |Builtins()|
    ensures Quiet(Builtins()[k], NAME + NUMBER)
  {
    hide Builtins, HasMatch, Inert, NoWordB, IsAnchored, IsWord, Harmless;
    TextIsWord();
    if k < 8 {
      MaskingPattern(k);
      WordMissed(k, NAME + NUMBER);
    } else {
      FlagIsQuiet(k, NAME + NUMBER);
    }
  }

  lemma NameFound()
    ensures FindOne(FoldLiteral(NAME), false, NAME + NUMBER) == Some(7)
  {
    hide FoldLiteral, Can, Avoids;
    var r, t := FoldLiteral(NAME), NAME + NUMBER;
    CanFoldLiteral(NAME, false, t);
    FindComplete(Then(r, Done), false, t, 7);
    FindSound(Then(r, Done), false, t);
    var n := FindOne(r, false, t).value;
    LongerThan(r, false, t, n);
    CanAvoids(Then(r, Done), false, t, n, '1');
    if n > 7 {
      InPrefix(t, n, 7);
    }
  }

  lemma NumberKept(left: bool)
    ensures ReplaceAll(FoldLiteral(NAME), MASK_TOKEN, left, true, NUMBER) == NUMBER
  {
    hide FoldLiteral, ReplaceAll, HasMatch;
    forall k | 0 <= k < |NUMBER|
      ensures CannotStart(FoldLiteral(NAME), NUMBER[k])
    {
      FoldStart(NAME, NUMBER[k]);
    }
    NeverStarts(FoldLiteral(NAME), left, NUMBER);
    ReplaceNothing(FoldLiteral(NAME), MASK_TOKEN, left, true, NUMBER);
  }

  lemma NameReplaced()
    ensures Step(NameRule(), NAME + NUMBER) == MASK_TOKEN + NUMBER
  {
    NameFound();
    NameStep();
    var t := NAME + NUMBER;
    HalvesAppend(NAME, NUMBER);
    assert t[7..] == NUMBER;
    hide *;
    NumberKept(IsWord(t[6]));
    ReplaceSome(FoldLiteral(NAME), MASK_TOKEN, false, false, t, 7);
  }

  lemma NameStep()
    ensures Step(NameRule(), NAME + NUMBER) == ReplaceAll(FoldLiteral(NAME), MASK_TOKEN, false, false, NAME + NUMBER)
  {
    assert Trimmed(NAME);
    TrimTrimmed(NAME);
    hide FoldLiteral, ReplaceAll, Trim;
  }

  lemma NumberExposed()
    ensures HasMatch(Tckn(), false, MASK_TOKEN + NUMBER)
  {
    var t := MASK_TOKEN + NUMBER;
    assert t[8..] == NUMBER && !WordBefore(false, t, 8);
    forall i | 0 <= i < 11
      ensures InClass(NUMBER[i], DIGIT)
    {
      assert DIGIT[0].lo <= NUMBER[i] <= DIGIT[0].hi;
    }
    CanTimes(DIGIT, 11, false, NUMBER);
    AnchoredCan(Tckn(), false, NUMBER, 11);
    FindComplete(Then(Tckn(), Done), false, NUMBER, 11);
    HasMatchLater(Tckn(), false, t, 8);
  }

  /** The condition can fail: a masked keyword turns the digits behind it into an identity number. */
  lemma KeywordExposes()
    ensures !Quiet(Builtins()[4], After([NameRule()], NAME + NUMBER))
  {
    var rules, t := Builtins() + [NameRule()], NAME + NUMBER;
    TcknIsFifth();
    NameReplaced();
    NumberExposed();
    hide Builtins, NameRule, HasMatch, Tckn, Step;
    forall k | 0 <= k < |Builtins()|
      ensures Quiet(Builtins()[k], t)
    {
      BuiltinsMiss(k);
    }
    QuietFixpoint(Builtins(), t);
    assert rules[..|rules|-1] == Builtins() && rules[|rules|-1] == NameRule();
    assert After([NameRule()], t) == MASK_TOKEN + NUMBER;
  }

  lemma TcknIsFifth()
    ensures Masks(NameRule()) && Rewrites(Builtins()[4], Tckn())
  {
    hide FoldLiteral, Builtins, Rewriter, Inert, NoWordB, IsAnchored;
    MaskingPattern(4);
    BuiltinShape(4);
    FifthRewriter();
  }

  lemma FifthRewriter()
    ensures Rewriter(4) == Tckn()
  {
    hide OpenAIKey, AwsKey, Bearer, PrivateKey, Tckn, IbanTr, CreditCard, PhoneTr;
  }
}
