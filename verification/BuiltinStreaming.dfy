/**
 Which of the built-in detectors may be applied to a reply piece by piece. The
 comment on StreamMasker says all of them; three can match across a blank.
*/
module BuiltinStreaming {
  import opened Wrappers
  import opened Text
  import opened Regexp
  import opened RegexpLemmas
  import opened Policy
  import opened Masking
  import opened Streaming
  import opened Residual
  import opened ReportedNames
  import opened Stretches
  import opened BuiltinRules

  // ---------- no built-in swallows the blank that ends a word ----------

  lemma AvoidsBreaksSpan(r: Pattern, left: bool, s: string, n: nat)
    requires AvoidsBreaks(r) && n <= |s| && Can(Then(r, Done), left, s, n)
    ensures NoBreak(s[..n])
  {
    CanAvoids(Then(r, Done), left, s, n, ' ');
    CanAvoids(Then(r, Done), left, s, n, '\t');
    CanAvoids(Then(r, Done), left, s, n, '\n');
    CanAvoids(Then(r, Done), left, s, n, '\r');
  }

  lemma AvoidsBreaksLocal(r: Pattern)
    requires AvoidsBreaks(r) && MinLen(r) > 0
    ensures Local(r) && EndSafe(r)
  {
    forall left: bool, s: string, n: nat | n <= |s| && Can(Then(r, Done), left, s, n)
      ensures n > 0 && NoBreak(s[..n])
    {
      LongerThan(r, left, s, n);
      AvoidsBreaksSpan(r, left, s, n);
    }
    forall left: bool, s: string
      ensures var n := FindOne(r, left, s); n.Some? ==> n.value > 0 && (EndsInBreak(s) ==> n.value < |s|)
    {
      LocalFind(r, left, s);
      assert s[..|s|] == s;
    }
  }

  lemma InertLocal(r: Pattern)
    requires AvoidsBreaks(r) && Inert(r)
    ensures Local(r) && EndSafe(r)
  {
    InertNotEmpty(r);
    AvoidsBreaksLocal(r);
  }

  lemma AnchoredEndSafe(r: Pattern)
    requires IsAnchored(r) && Inert(r)
    ensures EndSafe(r)
  {
    forall left: bool, s: string
      ensures var n := FindOne(r, left, s); n.Some? ==> n.value > 0 && (EndsInBreak(s) ==> n.value < |s|)
    {
      FindSound(Then(r, Done), left, s);
      var n := FindOne(r, left, s);
      if n.Some? {
        LongerThan(r, left, s, n.value);
        AnchoredCan(r, left, s, n.value);
      }
    }
  }

  lemma TailEndSafe(x: Pattern, y: Pattern)
    requires AvoidsBreaks(y) && MinLen(y) > 0
    ensures EndSafe(Cat(x, y))
  {
    forall left: bool, s: string
      ensures var n := FindOne(Cat(x, y), left, s); n.Some? ==> n.value > 0 && (EndsInBreak(s) ==> n.value < |s|)
    {
      FindSound(Then(Cat(x, y), Done), left, s);
      var found := FindOne(Cat(x, y), left, s);
      if found.Some? {
        var n := found.value;
        CatWeight(x, y, Done);
        assert Append(Then(x, Done), Then(y, Done)) == Then(x, Then(y, Done));
        var m := CanAppend(Then(x, Done), Then(y, Done), left, s, n);
        LongerThan(y, WordBefore(left, s, m), s[m..], n - m);
        AvoidsBreaksSpan(y, WordBefore(left, s, m), s[m..], n - m);
        assert s[m..][..n-m][n-m-1] == s[n-1];
      }
    }
  }

  lemma BearerEndSafe()
    ensures EndSafe(Bearer())
  {
    hide FoldLiteral, AtLeast, Of, Avoids, MinLen, EndSafe;
    TailEndSafe(Both(FoldLiteral("bearer"), AtLeast(Of(BLANK), 1)), AtLeast(Of(BEARER_WORD), 20));
  }

  lemma PrivateKeyEndSafe()
    ensures EndSafe(PrivateKey())
  {
    hide Literal, Of, Many, Avoids, MinLen, EndSafe;
    TailEndSafe(Both(Both(Literal("-----BEGIN "), Many(Of(UPPER_SPACE))), Literal("PRIVATE ")), Literal("KEY-----"));
  }

  /** Rewrites, keeps the blanks that end words, and unless it is one of three matches only inside a word. */
  ghost predicate StreamsWell(r: Option<Rule>, k: nat) {
    && Masks(r)
    && EndSafe(r.value.re.value) && WordSafe(r.value.re.value)
    && (k != 2 && k != 3 && k != 6 ==> Local(r.value.re.value))
  }

  lemma DetectorWordSafe(k: nat)
    requires k < 8 && k < |Detectors()|
    ensures StreamsWell(Detectors()[k], k)
  {
    hide OpenAIKey, AwsKey, Bearer, PrivateKey, Tckn, IbanTr, CreditCard, PhoneTr, Email;
    hide Inert, NoWordB, IsAnchored, WordSafe, EndSafe, Local, AvoidsBreaks, MinLen;
    AboutOpenAIKey();
    InertLocal(OpenAIKey());
    AboutAwsKey();
    InertLocal(AwsKey());
    BearerEndSafe();
    PrivateKeyEndSafe();
    AboutTckn();
    InertLocal(Tckn());
    AboutIbanTr();
    InertLocal(IbanTr());
    AboutCreditCard();
    AnchoredEndSafe(CreditCard());
    AboutPhoneTr();
    InertLocal(PhoneTr());
    EndSafeIsWordSafe(Detectors()[k].value.re.value);
  }

  /** Fed with the built-in rules, the masker agrees with the batch pass exactly on the texts that keep their blanks. */
  lemma BuiltinsStreamExactly(t: string)
    ensures (forall deltas: seq<string> | Concat(deltas) == t ::
               StreamOut(Builtins(), "", deltas) == Masked(Builtins(), t))
            <==> Breaks(Masked(Builtins(), t)) == Breaks(t)
    ensures Breaks(Masked(Builtins(), t)) == Breaks(t) <==> RulesClean(Builtins(), t)
  {
    hide Detectors, WordSafe, Masked, StreamOut;
    forall k | 0 <= k < |Builtins()| && Masks(Builtins()[k])
      ensures WordSafe(Builtins()[k].value.re.value)
    {
      BuiltinShape(k);
      DetectorWordSafe(k);
    }
    StreamingExact(Builtins(), t);
    RulesCleanByCount(Builtins(), t);
  }

  /**
   The first n rules report the same under every chunking of a text exactly if each of
   them that fires does so inside a word, provided that those before the last of them
   keep its blanks. On a text that keeps all its blanks n may be the whole list.
  */
  lemma BuiltinsReportExactly(t: string, n: nat)
    requires 0 < n <= |Builtins()| && RulesClean(Builtins()[..n-1], t)
    ensures (forall deltas: seq<string> | Concat(deltas) == t ::
               StreamNames(Builtins()[..n], "", deltas) == FiredNames(Builtins()[..n], t))
            <==> WordNames(Builtins()[..n], t) == FiredNames(Builtins()[..n], t)
  {
    hide Builtins, StreamNames, WordNames, FiredNames, RulesClean, TokenSafe, NoWordB, IsAnchored;
    forall k: nat | k < |Builtins()| && Masks(Builtins()[k])
      ensures Solid(Builtins()[k].value.re.value)
    {
      BuiltinShape(k);
      InertFind(Builtins()[k].value.re.value, false, "");
    }
    assert Earlier(Builtins()[..n]) == Builtins()[..n-1];
    NamesExact(Builtins()[..n], t);
  }

  /** The address detector reports the same in a stream as in the whole reply. */
  lemma EmailReports(deltas: seq<string>)
    ensures var rules := [RegexRule("email", "customer_data", ACTION_FLAG, "low", Email())];
            StreamNames(rules, "", deltas) == FiredNames(rules, Concat(deltas))
  {
    hide Email, AvoidsBreaks, MinLen, Local, StreamNames, FiredNames, SeenClean;
    var rules := [RegexRule("email", "customer_data", ACTION_FLAG, "low", Email())];
    AboutEmail();
    AvoidsBreaksLocal(Email());
    LocalSeenClean(rules, Concat(deltas));
    assert "" + Concat(deltas) == Concat(deltas);
    StreamNamesAreBatch(rules, "", deltas);
  }

  // ---------- the three that do match across a blank ----------

  lemma CanBoth(a: Pattern, b: Pattern, left: bool, s: string, m: nat, n: nat)
    requires m <= |s| && Can(Then(a, Done), left, s, m)
    requires Can(Then(b, Done), WordBefore(left, s, m), s[m..], n)
    ensures Can(Then(Cat(a, b), Done), left, s, m + n)
  {
    CatWeight(a, b, Done);
    assert Append(Then(a, Done), Then(b, Done)) == Then(a, Then(b, Done));
    assert Splits(Then(a, Done), Then(b, Done), left, s, m + n, m);
    CanAppendBack(Then(a, Done), Then(b, Done), left, s, m + n, m);
  }

  lemma CanOf(ranges: seq<Range>, left: bool, s: string)
    requires s != "" && InClass(s[0], ranges)
    ensures Can(Then(Of(ranges), Done), left, s, 1)
  {
  }

  lemma {:induction false} CanTimes(ranges: seq<Range>, n: nat, left: bool, s: string)
    requires n <= |s| && forall i | 0 <= i < n :: InClass(s[i], ranges)
    ensures Can(Then(Times(Of(ranges), n), Done), left, s, n)
  {
    if n > 0 {
      CanOf(ranges, left, s);
      CanTimes(ranges, n - 1, IsWord(s[0]), s[1..]);
      CanBoth(Of(ranges), Times(Of(ranges), n - 1), left, s, 1, n - 1);
    }
  }

  lemma CanAtLeast(ranges: seq<Range>, n: nat, left: bool, s: string)
    requires n <= |s| && forall i | 0 <= i < n :: InClass(s[i], ranges)
    ensures Can(Then(AtLeast(Of(ranges), n), Done), left, s, n)
  {
    CanTimes(ranges, n, left, s);
    CanBoth(Times(Of(ranges), n), Many(Of(ranges)), left, s, n, 0);
  }

  lemma {:induction false} CanLiteral(w: string, left: bool, s: string)
    requires w <= s
    ensures Can(Then(Literal(w), Done), left, s, |w|)
  {
    if w != "" {
      assert InClass(s[0], [Range(w[0], w[0])]) by { assert [Range(w[0], w[0])][0].lo <= s[0]; }
      CanOf([Range(w[0], w[0])], left, s);
      CanLiteral(w[1..], IsWord(s[0]), s[1..]);
      CanBoth(Of([Range(w[0], w[0])]), Literal(w[1..]), left, s, 1, |w| - 1);
    }
  }

  lemma FoldsItself(c: char)
    ensures InClass(c, Fold(c))
  {
    var ranges := Fold(c);
    assert ranges[0].lo <= c <= ranges[0].hi || ranges[1].lo <= c <= ranges[1].hi || ranges[2].lo <= c <= ranges[2].hi;
  }

  lemma {:induction false} CanFoldLiteral(w: string, left: bool, s: string)
    requires w <= s
    ensures Can(Then(FoldLiteral(w), Done), left, s, |w|)
  {
    if w != "" {
      FoldsItself(w[0]);
      CanOf(Fold(w[0]), left, s);
      CanFoldLiteral(w[1..], IsWord(s[0]), s[1..]);
      CanBoth(Of(Fold(w[0])), FoldLiteral(w[1..]), left, s, 1, |w| - 1);
    }
  }

  /** A match at the front that every match of the rule extends over position p. */
  lemma SpansBreak(r: Pattern, text: string, n: nat, p: nat)
    requires Can(Then(r, Done), false, text, n) && p < MinLen(r) && p < |text| && IsBreak(text[p])
    ensures !Clean(r, false, text)
  {
    FindComplete(Then(r, Done), false, text, n);
    FindSound(Then(r, Done), false, text);
    var m := FindOne(r, false, text).value;
    LongerThan(r, false, text, m);
    assert text[..m][p] == text[p];
  }

  function Repeat(c: char, n: nat): (s: string)
    ensures |s| == n && forall i | 0 <= i < n :: s[i] == c
  {
    seq(n, i => c)
  }

  function BearerText(): string {
    "bearer " + Repeat('a', 20)
  }

  /** A keyword, one blank and a run of n characters match their pattern. */
  lemma BearerMatches(w: string, blank: char, tail: string, blanks: seq<Range>, words: seq<Range>, t: string)
    requires t == w + ([blank] + tail)
    requires InClass(blank, blanks) && forall i | 0 <= i < |tail| :: InClass(tail[i], words)
    ensures var r := Both(Both(FoldLiteral(w), AtLeast(Of(blanks), 1)), AtLeast(Of(words), |tail|));
            Can(Then(r, Done), false, t, |w| + 1 + |tail|)
  {
    hide *;
    BearerParts(w, blank, tail, t);
    CanFoldLiteral(w, false, t);
    CanAtLeast(blanks, 1, WordBefore(false, t, |w|), [blank] + tail);
    CanBoth(FoldLiteral(w), AtLeast(Of(blanks), 1), false, t, |w|, 1);
    CanAtLeast(words, |tail|, WordBefore(false, t, |w| + 1), tail);
    CanBoth(Both(FoldLiteral(w), AtLeast(Of(blanks), 1)), AtLeast(Of(words), |tail|), false, t, |w| + 1, |tail|);
  }

  lemma BearerParts(w: string, blank: char, tail: string, t: string)
    requires t == w + ([blank] + tail)
    ensures |t| == |w| + 1 + |tail| && w <= t && t[|w|..] == [blank] + tail && t[|w| + 1..] == tail
  {
  }

  lemma BearerSpans()
    ensures !Clean(Bearer(), false, BearerText())
  {
    hide FoldLiteral, AtLeast, Of, Many, MinLen, Clean, Both, Can;
    assert BearerText() == "bearer" + ([' '] + Repeat('a', 20));
    assert InClass(' ', BLANK) by { assert BLANK[2].lo <= ' ' <= BLANK[2].hi; }
    assert InClass('a', BEARER_WORD) by { assert BEARER_WORD[2].lo <= 'a' <= BEARER_WORD[2].hi; }
    BearerMatches("bearer", ' ', Repeat('a', 20), BLANK, BEARER_WORD, BearerText());
    SpansBreak(Bearer(), BearerText(), 27, 6);
  }

  /** The two rules before the bearer rule find nothing in the text. */
  lemma BearerUntouched()
    ensures Masked(Builtins()[..2], BearerText()) == BearerText()
  {
    hide Builtins, Rewriter, HasMatch, CannotStart, BearerText, Literal, Both;
    forall k | 0 <= k < 2
      ensures Quiet(Builtins()[k], BearerText())
    {
      MaskingPattern(k);
      FirstTwoMiss(k);
    }
    QuietFixpoint(Builtins()[..2], BearerText());
  }

  lemma FirstTwoStart(k: nat, c: char)
    requires k < 2 && c != 's' && c != 'A'
    ensures CannotStart(Rewriter(k), c) && MinLen(Rewriter(k)) > 0
  {
    hide CannotStart, Literal, AtLeast, Times, Of, Both, MinLen;
    RewriterLength(k);
    LiteralStart("sk-", c);
    LiteralStart("AKIA", c);
    BothStart(Literal("sk-"), AtLeast(Of(DASH_WORD), 16), c);
    BothStart(Literal("AKIA"), Times(Of(UPPER_DIGIT), 16), c);
  }

  lemma FirstTwoMiss(k: nat)
    requires k < 2
    ensures !HasMatch(Rewriter(k), false, BearerText())
  {
    hide *;
    var t := BearerText();
    BearerLetters();
    FirstTwoStart(k, ' ');
    forall i | 0 <= i < |t|
      ensures CannotStart(Rewriter(k), t[i])
    {
      FirstTwoStart(k, t[i]);
    }
    NeverStarts(Rewriter(k), false, t);
  }

  lemma BearerLetters()
    ensures forall i | 0 <= i < |BearerText()| :: BearerText()[i] != 's' && BearerText()[i] != 'A'
  {
  }

  /** There are texts for which the built-in list does not stream: this one it masks, but not if it comes in pieces. */
  lemma BuiltinsMayFailToStream()
    ensures !RulesClean(Builtins(), BearerText())
    ensures exists deltas: seq<string> ::
              Concat(deltas) == BearerText() && StreamOut(Builtins(), "", deltas) != Masked(Builtins(), BearerText())
  {
    hide Builtins, Bearer, Clean, Masked, BearerText, StreamOut, RulesClean;
    BearerUntouched();
    BearerSpans();
    BearerIsThird();
    if RulesClean(Builtins(), BearerText()) {
      RulesCleanAt(Builtins(), BearerText(), 2);
    }
    BuiltinsStreamExactly(BearerText());
  }

  lemma BearerIsThird()
    ensures Rewrites(Builtins()[2], Bearer())
  {
    hide Builtins, Rewriter, Inert, NoWordB, IsAnchored, Bearer;
    ThirdRewriter();
    MaskingPattern(2);
    BuiltinShape(2);
  }

  lemma ThirdRewriter()
    ensures Rewriter(2) == Bearer()
  {
    hide OpenAIKey, AwsKey, Bearer, PrivateKey, Tckn, IbanTr, CreditCard, PhoneTr;
  }

  const BEGIN := "-----BEGIN "
  const KIND := "PRIVATE "
  const KEY := "KEY-----"

  function KeyText(): string {
    BEGIN + KIND + KEY
  }

  /** Three words in a row match their literals, with a repetition in between that matches nothing. */
  lemma WordsMatch(a: string, b: string, c: string, ranges: seq<Range>, t: string)
    requires t == a + b + c
    ensures var r := Both(Both(Both(Literal(a), Many(Of(ranges))), Literal(b)), Literal(c));
            Can(Then(r, Done), false, t, |a| + |b| + |c|)
  {
    hide *;
    ThreeWords(a, b, c, t);
    CanLiteral(a, false, t);
    CanMany(ranges, WordBefore(false, t, |a|), t[|a|..]);
    CanBoth(Literal(a), Many(Of(ranges)), false, t, |a|, 0);
    CanWord(Both(Literal(a), Many(Of(ranges))), b, c, t, |a|);
    CanWord(Both(Both(Literal(a), Many(Of(ranges))), Literal(b)), c, "", t, |a| + |b|);
  }

  lemma ThreeWords(a: string, b: string, c: string, t: string)
    requires t == a + b + c
    ensures |t| == |a| + |b| + |c| && a <= t && t[|a|..] == b + c && t[|a| + |b|..] == c + ""
  {
  }

  lemma CanWord(r: Pattern, w: string, rest: string, t: string, m: nat)
    requires m <= |t| && Can(Then(r, Done), false, t, m) && t[m..] == w + rest
    ensures Can(Then(Both(r, Literal(w)), Done), false, t, m + |w|)
  {
    hide *;
    CanLiteral(w, WordBefore(false, t, m), w + rest);
    CanBoth(r, Literal(w), false, t, m, |w|);
  }

  lemma PrivateKeySpans()
    ensures !Clean(PrivateKey(), false, KeyText())
  {
    hide Literal, Of, Many, MinLen, Clean, Both, Can;
    WordsMatch(BEGIN, KIND, KEY, UPPER_SPACE, KeyText());
    SpansBreak(PrivateKey(), KeyText(), 27, 10);
  }

  lemma CanMany(ranges: seq<Range>, left: bool, s: string)
    ensures Can(Then(Many(Of(ranges)), Done), left, s, 0)
  {
  }

  lemma CanGroup(left: bool, s: string)
    requires s != "" && '0' <= s[0] <= '9'
    ensures Can(Then(CardGroup(), Done), left, s, 1)
    ensures |s| > 1 && s[1] == ' ' ==> Can(Then(CardGroup(), Done), left, s, 2)
  {
    hide Both;
    assert InClass(s[0], DIGIT) by { assert DIGIT[0].lo <= s[0] <= DIGIT[0].hi; }
    CanOf(DIGIT, left, s);
    CanBoth(Of(DIGIT), Optional(Of(SEPARATOR)), left, s, 1, 0);
    if |s| > 1 && s[1] == ' ' {
      assert InClass(s[1], SEPARATOR) by { assert SEPARATOR[0].lo <= s[1] <= SEPARATOR[0].hi; }
      CanOf(SEPARATOR, IsWord(s[0]), s[1..]);
      CanBoth(Of(DIGIT), Optional(Of(SEPARATOR)), left, s, 1, 1);
    }
  }

  /** n ones with a blank between any two. */
  function SpacedOnes(n: nat): (s: string)
    ensures |s| == if n == 0 then 0 else 2 * n - 1
    ensures n > 0 ==> s[0] == '1' && s[|s|-1] == '1'
  {
    if n == 0 then "" else if n == 1 then "1" else "1 " + SpacedOnes(n - 1)
  }

  lemma {:induction false} CanSpaced(n: nat, left: bool)
    requires n > 0
    ensures Can(Then(Times(CardGroup(), n), Done), left, SpacedOnes(n), 2 * n - 1)
  {
    hide CardGroup, Can, Times, IsWord;
    var s := SpacedOnes(n);
    TimesNext(CardGroup(), n);
    CanGroup(left, s);
    if n == 1 {
      CanNothing(WordBefore(left, s, 1), s[1..]);
      CanBoth(CardGroup(), Times(CardGroup(), 0), left, s, 1, 0);
    } else {
      assert s[1] == ' ' && s[2..] == SpacedOnes(n - 1);
      CanSpaced(n - 1, WordBefore(left, s, 2));
      CanBoth(CardGroup(), Times(CardGroup(), n - 1), left, s, 2, 2 * n - 3);
    }
  }

  lemma CanNothing(left: bool, s: string)
    ensures Can(Then(Times(CardGroup(), 0), Done), left, s, 0)
  {
  }

  function CardText(): string {
    SpacedOnes(13)
  }

  lemma CanNoMore(a: Pattern, n: nat, left: bool, s: string)
    ensures Can(Then(UpTo(a, n), Done), left, s, 0)
  {
  }

  function CardCore(): Pattern {
    Both(Times(CardGroup(), 13), UpTo(CardGroup(), 3))
  }

  lemma CardCoreSpans()
    ensures Can(Then(CardCore(), Done), false, CardText(), 25)
  {
    hide Times, UpTo, Of, CardGroup, Both, Can, SpacedOnes;
    var t := CardText();
    CanSpaced(13, false);
    CanNoMore(CardGroup(), 3, WordBefore(false, t, 25), t[25..]);
    CanBoth(Times(CardGroup(), 13), UpTo(CardGroup(), 3), false, t, 25, 0);
  }

  lemma CardTextShape()
    ensures CardText()[1] == ' '
  {
    assert SpacedOnes(13) == "1 " + SpacedOnes(12);
  }

  lemma CreditCardSpans()
    ensures !Clean(CreditCard(), false, CardText())
  {
    hide Times, UpTo, Of, CardGroup, MinLen, Clean, Avoids, SpacedOnes;
    var t := CardText();
    CardTextShape();
    CardCoreSpans();
    AboutCreditCard();
    assert Core(CreditCard()) == CardCore();
    hide CardCore, CreditCard;
    AnchoredCan(CreditCard(), false, t, 25);
    SpansBreak(CreditCard(), t, 25, 1);
  }

  lemma TimesNext(a: Pattern, n: nat)
    requires n > 0
    ensures Times(a, n) == Both(a, Times(a, n - 1))
  {
  }

  // ---------- the classification ----------

  lemma OneRule(r: Option<Rule>, t: string)
    requires Masks(r)
    ensures RulesClean([r], t) <==> Clean(r.value.re.value, false, t)
    ensures AllWordSafe([r]) <==> WordSafe(r.value.re.value)
    ensures AllLocal([r]) <==> Local(r.value.re.value)
  {
    assert [r][..0] == [];
    assert Masked([], t) == t && RulesClean([], t);
  }

  /** Taken alone, a rewriting detector can be applied to a stream exactly if it is not one of the three. */
  lemma DetectorStreams(k: nat)
    requires k < 8 && k < |Detectors()|
    ensures (forall deltas: seq<string> ::
               StreamOut([Detectors()[k]], "", deltas) == Masked([Detectors()[k]], Concat(deltas)))
            <==> k != 2 && k != 3 && k != 6
  {
    hide OpenAIKey, AwsKey, Bearer, PrivateKey, Tckn, IbanTr, CreditCard, PhoneTr, Email;
    hide WordSafe, Local, AllWordSafe, AllLocal, Clean, Masked, StreamOut, BearerText, KeyText, CardText;
    var r := Detectors()[k];
    DetectorWordSafe(k);
    if k != 2 && k != 3 && k != 6 {
      OneRule(r, "");
      forall deltas: seq<string>
        ensures StreamOut([r], "", deltas) == Masked([r], Concat(deltas))
      {
        LocalStreamIsBatch([r], deltas);
      }
    } else {
      var t := if k == 2 then BearerText() else if k == 3 then KeyText() else CardText();
      BearerSpans();
      PrivateKeySpans();
      CreditCardSpans();
      OneRule(r, t);
      StreamingExact([r], t);
      RulesCleanByCount([r], t);
    }
  }
}
