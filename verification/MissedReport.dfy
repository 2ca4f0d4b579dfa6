/** A built-in rule that a stream does not report although it fires on the reply: its keyword has two words. */
module MissedReport {
  import opened Wrappers
  import opened Text
  import opened Regexp
  import opened RegexpLemmas
  import opened Policy
  import opened Masking
  import opened Stretches
  import opened Streaming
  import opened ReportedNames
  import opened Residual
  import opened BuiltinRules
  import opened BuiltinStreaming
  import opened StreamResidue

  const TERM := "kredi kartı"

  // ---------- the names of the built-in rules ----------

  lemma LexiconName(prefix: string, category: string, severity: string, words: seq<string>, i: nat)
    requires i < |words| && Trimmed(words[i])
    ensures var r := Lexicon(prefix, category, severity, words)[i];
            Live(r) && |r.value.name| == |prefix| + |words[i]| && r.value.re.value == FoldLiteral(words[i])
  {
    hide FoldLiteral, Trim;
    TrimTrimmed(words[i]);
  }

  lemma TrimmedWords()
    ensures forall i | 0 <= i < |FINANCIAL| :: Trimmed(FINANCIAL[i]) && (|FINANCIAL[i]| == 11 <==> i == 0)
    ensures forall i | 0 <= i < |CUSTOMER| :: Trimmed(CUSTOMER[i]) && |CUSTOMER[i]| != 10
  {
  }

  predicate NameIs(r: Option<Rule>, n: nat) {
    r.Some? && |r.value.name| == n
  }

  function Detector(k: nat): Option<Rule> {
    if k < |Detectors()| then Detectors()[k] else None
  }

  function Builtin(k: nat): Option<Rule> {
    if k < |Builtins()| then Builtins()[k] else None
  }

  lemma DetectorNames(k: nat)
    ensures !NameIs(Detector(k), 15)
  {
    hide OpenAIKey, AwsKey, Bearer, PrivateKey, Tckn, IbanTr, CreditCard, PhoneTr, Email;
  }

  predicate Finds(r: Option<Rule>, re: Pattern) {
    Live(r) && r.value.re.value == re
  }

  /** The rule for the term is the tenth, and the only one whose name has fifteen characters. */
  lemma NameOfTerm(k: nat)
    ensures NameIs(Builtin(k), 15) <==> k == 9
    ensures k == 9 ==> Finds(Builtin(k), FoldLiteral(TERM))
  {
    hide Detectors, Lexicon, FoldLiteral, Trimmed;
    TrimmedWords();
    if k < 9 {
      DetectorNames(k);
    } else if k < 9 + |FINANCIAL| {
      LexiconName("fin_", "financial", "medium", FINANCIAL, k - 9);
    } else if k < 9 + |FINANCIAL| + |CUSTOMER| {
      LexiconName("cust_", "customer_data", "low", CUSTOMER, k - 9 - |FINANCIAL|);
    }
  }

  // ---------- the term in one piece and in two ----------

  predicate FewLetters(t: string) {
    |t| < 12 && forall i | 0 <= i < |t| :: NoDigit(t[i])
  }

  /** What the argument needs to know of the list: the tenth rule's name is its own, and short texts are left alone. */
  ghost predicate HasTerm(rules: Rules) {
    && |rules| > 9 && Finds(rules[9], FoldLiteral(TERM))
    && (forall k | 0 <= k < |rules| :: NameIs(rules[k], 15) <==> k == 9)
    && (forall k, t | 0 <= k < |rules| && FewLetters(t) :: Quiet(rules[k], t))
  }

  lemma BuiltinsHaveTerm()
    ensures HasTerm(Builtins())
  {
    hide Builtins, Rewriter, HasMatch, FewLetters, Finds, NameIs, Quiet, FoldLiteral;
    NameOfTerm(9);
    assert Finds(Builtin(9), FoldLiteral(TERM)) && Builtin(9) != None by { hide *; NameOfTerm(9); FoundIsRule(); }
    forall k: nat | k < |Builtins()|
      ensures NameIs(Builtins()[k], 15) <==> k == 9
    {
      NameOfTerm(k);
    }
    forall k: nat, t: string | k < |Builtins()| && FewLetters(t)
      ensures Quiet(Builtins()[k], t)
    {
      QuietOnFew(k, t);
    }
  }

  lemma FoundIsRule()
    requires Finds(Builtin(9), FoldLiteral(TERM))
    ensures Builtin(9) != None
  {
    hide Builtin, FoldLiteral;
  }

  lemma QuietOnFew(k: nat, t: string)
    requires k < |Builtins()| && FewLetters(t)
    ensures Quiet(Builtins()[k], t)
  {
    hide Builtins, Rewriter, HasMatch, Quiet, NoDigit;
    if k < 8 {
      ShortMissed(k, t);
    }
    QuietIfMissed(k, t);
  }

  /** No rule changes a short text without digits, nor finds a blank in it to rewrite. */
  lemma {:induction false} QuietAllAlong(rules: Rules, t: string)
    requires forall k | 0 <= k < |rules| :: Quiet(rules[k], t)
    ensures Masked(rules, t) == t && RulesClean(rules, t)
    ensures forall k | 0 <= k <= |rules| :: Masked(rules[..k], t) == t
  {
    hide HasMatch, Clean, Masked;
    QuietFixpoint(rules, t);
    forall k | 0 <= k <= |rules|
      ensures Masked(rules[..k], t) == t
    {
      QuietFixpoint(rules[..k], t);
    }
    if rules != [] {
      var prefix, last := rules[..|rules|-1], rules[|rules|-1];
      QuietAllAlong(prefix, t);
      if Masks(last) && !Clean(last.value.re.value, false, t) {
        UncleanMatches(last.value.re.value, false, t);
      }
    }
  }

  lemma TermFires(rules: Rules)
    requires HasTerm(rules)
    ensures FiresAt(rules, TERM, 9)
  {
    hide FoldLiteral, Masked, Can, FindOne, NameIs, Quiet, HasMatch, RulesClean;
    assert FewLetters(TERM);
    QuietAllAlong(rules, TERM);
    CanFoldLiteral(TERM, false, TERM);
    FindsWhole(FoldLiteral(TERM), TERM);
  }

  lemma FindsWhole(r: Pattern, t: string)
    requires Can(Then(r, Done), false, t, |t|)
    ensures HasMatch(r, false, t)
  {
    FindComplete(Then(r, Done), false, t, |t|);
  }

  lemma TermTooLong(rules: Rules, w: string)
    requires HasTerm(rules) && FewLetters(w) && |w| < 11
    ensures !FiresAt(rules, w, 9)
  {
    hide FoldLiteral, Masked, HasMatch, FewLetters, NameIs, Quiet, RulesClean;
    QuietAllAlong(rules, w);
    assert MinLen(FoldLiteral(TERM)) == |TERM|;
    TooShort(FoldLiteral(TERM), false, w);
  }

  /** The name is reported for a text exactly if the tenth rule fires on it. */
  lemma NameMeansTenth(rules: Rules, t: string)
    requires HasTerm(rules)
    ensures rules[9].value.name in FiredNames(rules, t) <==> FiresAt(rules, t, 9)
  {
    hide FoldLiteral, Masked, HasMatch, FewLetters, Quiet;
    var name := rules[9].value.name;
    assert NameIs(rules[9], 15);
    if name in FiredNames(rules, t) {
      var k: nat :| k < |rules| && FiresAt(rules, t, k) && rules[k].value.name == name;
      assert NameIs(rules[k], 15);
    }
  }

  /** A stream that brings the two words apart does not report the rule, though it fires on the whole reply. */
  lemma TermIsMissed(rules: Rules)
    requires HasTerm(rules)
    ensures rules[9].value.name in FiredNames(rules, TERM)
    ensures rules[9].value.name !in StreamNames(rules, "", Singles(TERM))
  {
    hide HasTerm, FiredNames, FiresAt, StreamNames, Singles, WordNames;
    var a, b := "kredi ", "kartı";
    assert TERM == a + b && a[..5] == "kredi" && b[..4] == "kart" && b + "" == b && "" + TERM == TERM;
    SinglesReportWords(rules, "", TERM);
    WordNamesNext(rules, a, b);
    WordNamesNext(rules, b, "");
    assert WordNames(rules, "") == {} by { NoWordNames(rules); }
    TermTooLong(rules, a);
    TermTooLong(rules, b);
    TermFires(rules);
    NameMeansTenth(rules, a);
    NameMeansTenth(rules, b);
    NameMeansTenth(rules, TERM);
  }

  lemma NoWordNames(rules: Rules)
    ensures WordNames(rules, "") == {}
  {
  }

  lemma StreamMayMiss(rules: Rules)
    requires HasTerm(rules)
    ensures RulesClean(rules, TERM)
    ensures exists deltas: seq<string> ::
              Concat(deltas) == TERM && StreamNames(rules, "", deltas) != FiredNames(rules, TERM)
  {
    hide Masked, StreamNames, FiredNames, RulesClean, Singles, Quiet, FewLetters, NameIs, FoldLiteral;
    TermIsMissed(rules);
    ConcatSingles(TERM);
    TermIsShort();
    QuietAllAlong(rules, TERM);
  }

  lemma TermIsShort()
    ensures FewLetters(TERM)
  {
  }

  /** So the built-in list under-reports even on a text that it does not change at all. */
  lemma BuiltinsMayMissReport()
    ensures RulesClean(Builtins(), TERM)
    ensures exists deltas: seq<string> ::
              Concat(deltas) == TERM && StreamNames(Builtins(), "", deltas) != FiredNames(Builtins(), TERM)
  {
    hide *;
    BuiltinsHaveTerm();
    StreamMayMiss(Builtins());
  }
}
