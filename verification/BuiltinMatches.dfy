/** gateway/internal/policy/policy.go: what the built-in list as a whole finds, blocks and reports. */
module BuiltinMatches {
  import opened Wrappers
  import opened Text
  import opened Regexp
  import opened RegexpLemmas
  import opened Policy
  import opened Masking
  import opened Residual
  import opened Stretches
  import opened BuiltinRules
  import opened Evaluation
  import opened Detections
  import opened Cards
  import opened CustomRules

  // ---------- every match is the longest ----------

  lemma RewriterLongest(k: nat, left: bool, s: string)
    requires k < 8
    ensures Longest(Then(Rewriter(k), Done), left, s)
  {
    hide OpenAIKey, AwsKey, Bearer, PrivateKey, Tckn, IbanTr, CreditCard, PhoneTr, Longest;
    if k == 0 {
      OpenAIKeyFound(left, s, 0);
    } else if k == 1 {
      AwsKeyFound(left, s, 0);
    } else if k == 2 {
      BearerFound(left, s, 0);
    } else if k == 3 {
      PrivateKeyFound(left, s, 0);
    } else if k == 4 {
      TcknFound(left, s, 0);
    } else if k == 5 {
      IbanTrFound(left, s, 0);
    } else if k == 6 {
      CardLongest(left, s);
    } else {
      PhoneTrFound(left, s, 0);
    }
  }

  /** The ninth rule looks for addresses. */
  lemma AddressRule()
    ensures |Builtins()| > 8 && Live(Builtins()[8]) && Builtins()[8].value.re.value == Email()
  {
    hide OpenAIKey, AwsKey, Bearer, PrivateKey, Tckn, IbanTr, CreditCard, PhoneTr, Email, Lexicon;
    assert Builtins()[8] == Detectors()[8];
  }

  /** Of the detectors only the fourth blocks. */
  lemma DetectorBlocks(k: nat)
    requires k < 9
    ensures |Builtins()| > 8 && Live(Builtins()[k])
    ensures Builtins()[k].value.action == ACTION_BLOCK <==> k == 3
  {
    hide OpenAIKey, AwsKey, Bearer, PrivateKey, Tckn, IbanTr, CreditCard, PhoneTr, Email, Lexicon;
    ActionsDiffer();
    assert Builtins()[k] == Detectors()[k];
  }

  predicate IsKeyword(r: Option<Rule>, w: string) {
    Live(r) && r.value.re.value == FoldLiteral(Trim(w)) && r.value.action == ACTION_FLAG
  }

  /** Behind the detectors come the keywords, which only flag. */
  lemma KeywordAt(k: nat)
    requires 9 <= k < |Builtins()|
    ensures IsKeyword(Builtins()[k], (FINANCIAL + CUSTOMER)[k - 9])
    ensures |Builtins()| == 9 + |FINANCIAL| + |CUSTOMER|
  {
    hide Detectors, FoldLiteral, Trim, Slug;
  }

  /** Of all spans that an expression of the list can match at a place, the engine takes the longest. */
  lemma MatchesAreLongest(k: nat, left: bool, s: string, n: nat)
    requires k < |Builtins()| && Live(Builtins()[k]) && Can(Then(Builtins()[k].value.re.value, Done), left, s, n)
    ensures var found := FindOne(Builtins()[k].value.re.value, left, s); found.Some? && n <= found.value
  {
    hide Builtins, Rewriter, Email, FoldLiteral, Trim, Find, Longest, Can;
    if k < 8 {
      MaskingPattern(k);
      RewriterLongest(k, left, s);
    } else if k == 8 {
      AddressRule();
      EmailFound(left, s, 0);
    } else {
      KeywordAt(k);
      KeywordFound(Trim((FINANCIAL + CUSTOMER)[k - 9]), left, s, 0);
    }
    FoundLongest(Builtins()[k].value.re.value, left, s, n);
  }

  lemma FoundLongest(r: Pattern, left: bool, s: string, n: nat)
    requires Longest(Then(r, Done), left, s) && Can(Then(r, Done), left, s, n)
    ensures var found := FindOne(r, left, s); found.Some? && n <= found.value
  {
    hide Find, Can;
  }

  // ---------- what blocks a request ----------

  /** A header of a private key stands at offset k. */
  predicate KeyHeaderAt(t: string, k: nat, n: nat) {
    && k + n <= |t| && n >= 27
    && t[k..k + 11] == "-----BEGIN " && t[k + n - 16..k + n] == "PRIVATE KEY-----"
    && AllIn(IsUpperOrBlank, t, k + 11, k + n - 16)
  }

  ghost predicate HasKeyHeader(t: string) {
    exists k: nat, n: nat :: KeyHeaderAt(t, k, n)
  }

  lemma HeaderFound(left: bool, t: string, k: nat, n: nat)
    requires k <= |t|
    ensures FindOne(PrivateKey(), left, t[k..]) == Some(n) <==> KeyHeaderAt(t, k, n)
  {
    hide FindOne, PrivateKey, IsUpperOrBlank;
    var s := t[k..];
    PrivateKeyFound(left, s, n);
    if 27 <= n <= |s| {
      assert s[n-16..n] == t[k + n - 16..k + n];
      assert s[..11] == t[k..k + 11];
      assert forall i | 11 <= i < n - 16 :: s[i] == t[k + i];
      if AllIn(IsUpperOrBlank, s, 11, n - 16) {
        forall i | k + 11 <= i < k + n - 16
          ensures IsUpperOrBlank(t[i])
        {
          assert IsUpperOrBlank(s[i - k]);
        }
      }
    }
  }

  lemma HeaderMatches(t: string)
    ensures HasMatch(PrivateKey(), false, t) <==> HasKeyHeader(t)
  {
    hide FindOne, HasMatch, PrivateKey, KeyHeaderAt;
    HasMatchExactly(PrivateKey(), false, t);
    forall k: nat, n: nat | k <= |t|
      ensures FindOne(PrivateKey(), WordBefore(false, t, k), t[k..]) == Some(n) <==> KeyHeaderAt(t, k, n)
    {
      HeaderFound(WordBefore(false, t, k), t, k, n);
    }
    forall k: nat, n: nat | KeyHeaderAt(t, k, n)
      ensures k <= |t|
    {
      HeaderInside(t, k, n);
    }
    if k: nat :| k <= |t| && FindOne(PrivateKey(), WordBefore(false, t, k), t[k..]).Some? {
      assert KeyHeaderAt(t, k, FindOne(PrivateKey(), WordBefore(false, t, k), t[k..]).value);
    }
  }

  lemma HeaderInside(t: string, k: nat, n: nat)
    requires KeyHeaderAt(t, k, n)
    ensures k <= |t|
  {
  }

  lemma OnlyHeadersBlock(k: nat)
    requires k < |Builtins()| && Live(Builtins()[k])
    ensures Builtins()[k].value.action == ACTION_BLOCK <==> k == 3
  {
    hide Builtins, FoldLiteral, Trim;
    ActionsDiffer();
    if k < 9 {
      DetectorBlocks(k);
    } else {
      KeywordAt(k);
    }
  }

  lemma ActionsDiffer()
    ensures ACTION_FLAG != ACTION_BLOCK && ACTION_MASK != ACTION_BLOCK
  {
    assert |ACTION_FLAG| == |ACTION_MASK| == 4 && |ACTION_BLOCK| == 5;
  }

  /** The text in which the fourth rule looks for private keys. */
  function Unsigned(text: string): string {
    Masked(Builtins()[..3], text)
  }

  /**
   The built-in list blocks a message exactly if a private key's header is left of it
   when keys and tokens are masked; no masking makes one, so it was in the message.
  */
  lemma BlocksExactly(text: string)
    ensures Blocks(Builtins(), text) <==> HasKeyHeader(Unsigned(text))
    ensures Blocks(Builtins(), text) ==> HasKeyHeader(text)
  {
    hide *;
    HeaderMatches(Unsigned(text));
    HeaderMatches(text);
    BlockedByFourth(text);
    if !HasMatch(PrivateKey(), false, text) {
      AboutPrivateKey();
      BareStaysQuiet(PrivateKey(), FirstThree(), text);
      UnsignedIs(text);
    }
  }

  function FirstThree(): Rules {
    Builtins()[..3]
  }

  lemma UnsignedIs(text: string)
    ensures Unsigned(text) == Masked(FirstThree(), text)
  {
    hide Builtins, Masked;
  }

  lemma BlockedByFourth(text: string)
    ensures Blocks(Builtins(), text) <==> HasMatch(PrivateKey(), false, Unsigned(text))
  {
    hide Builtins, Masked, HasMatch, Rewriter;
    MaskingPattern(3);
    ThirdIsHeader();
    assert FiresAt(Builtins(), text, 3) <==> HasMatch(PrivateKey(), false, Unsigned(text));
    forall k: nat | FiresAt(Builtins(), text, k)
      ensures Builtins()[k].value.action == ACTION_BLOCK <==> k == 3
    {
      OnlyHeadersBlock(k);
    }
  }

  lemma ThirdIsHeader()
    ensures Rewriter(3) == PrivateKey()
  {
  }

  /** A header directly behind a key is masked as a part of it: the message is not blocked. */
  const HIDDEN := "sk-aaaaaaaaaaaaaaaa" + "-----BEGIN " + "PRIVATE KEY-----"

  const LEFT_OVER := " PRIVATE KEY-----"

  lemma HeaderMayHide()
    ensures HasKeyHeader(HIDDEN) && !Blocks(Builtins(), HIDDEN)
  {
    hide *;
    HiddenHeader();
    HiddenMasked();
    BlocksExactly(HIDDEN);
    KeysAreLonger(LEFT_OVER);
    TooFewForHeader(MASK_TOKEN + LEFT_OVER);
  }

  lemma HiddenHeader()
    ensures HasKeyHeader(HIDDEN)
  {
    hide Builtins;
    var u, v, w := "sk-aaaaaaaaaaaaaaaa", "-----BEGIN ", "PRIVATE KEY-----";
    assert |u| == 19 && |v| == 11 && |w| == 16;
    HalvesAppend(u + v, w);
    HalvesAppend(u, v);
    assert HIDDEN[19..30] == (u + v)[19..30] == v && HIDDEN[30..46] == w;
    assert KeyHeaderAt(HIDDEN, 19, 27);
  }

  lemma TooFewForHeader(t: string)
    requires |t| < 27
    ensures !HasKeyHeader(t)
  {
  }

  /** The key rule takes the dashes and BEGIN for a part of the key. */
  lemma HiddenKey()
    ensures FindOne(OpenAIKey(), false, HIDDEN) == Some(29) && HIDDEN[29..] == LEFT_OVER && |HIDDEN| == 46
  {
    hide FindOne, OpenAIKey;
    OpenAIKeyFound(false, HIDDEN, 29);
    assert HIDDEN[29] == ' ' && HIDDEN[0] == 's' && HIDDEN[1] == 'k' && HIDDEN[2] == '-' && |"sk-"| == 3;
    assert forall k | 3 <= k < 29 :: IsKeyChar(HIDDEN[k]);
  }

  lemma HiddenMasked()
    ensures Unsigned(HIDDEN) == MASK_TOKEN + LEFT_OVER
  {
    hide *;
    HiddenKey();
    var t := MASK_TOKEN + LEFT_OVER;
    ReplaceSome(OpenAIKey(), MASK_TOKEN, false, false, HIDDEN, 29);
    KeysAreLonger(LEFT_OVER);
    TooShort(OpenAIKey(), IsWord(HIDDEN[28]), LEFT_OVER);
    ReplaceNothing(OpenAIKey(), MASK_TOKEN, IsWord(HIDDEN[28]), true, LEFT_OVER);
    AboutAwsKey();
    TokenSafeKeys();
    TokenCuts(AwsKey(), false, "", LEFT_OVER);
    TooShort(AwsKey(), false, "");
    TooShort(AwsKey(), false, LEFT_OVER);
    assert "" + MASK_TOKEN + LEFT_OVER == t;
    TooShort(Bearer(), false, t);
    ThreeSteps(HIDDEN, t);
  }

  lemma KeysAreLonger(w: string)
    requires w == LEFT_OVER
    ensures |w| == 17 && |MASK_TOKEN + w| == 25
    ensures MinLen(OpenAIKey()) > 17 && MinLen(AwsKey()) > 17 && MinLen(Bearer()) > 25
  {
    hide Literal, FoldLiteral, AtLeast, Times, Of, Both, MinLen;
  }

  lemma TokenSafeKeys()
    ensures TokenSafe(AwsKey())
  {
    hide Inert, TokenSafe;
    AboutAwsKey();
    InertIsSafe(AwsKey());
  }

  lemma InertIsSafe(r: Pattern)
    requires Inert(r)
    ensures TokenSafe(r)
  {
  }

  /** The first three rules, one after the other. */
  lemma ThreeSteps(text: string, t: string)
    requires ReplaceAll(OpenAIKey(), MASK_TOKEN, false, false, text) == t
    requires !HasMatch(AwsKey(), false, t) && !HasMatch(Bearer(), false, t)
    ensures Unsigned(text) == t
  {
    hide Builtins, HasMatch, ReplaceAll, OpenAIKey, AwsKey, Bearer;
    MaskingPattern(0);
    MaskingPattern(1);
    MaskingPattern(2);
    MasksAt(0);
    MaskedNext(Builtins(), text, 0);
    MaskedNext(Builtins(), text, 1);
    MaskedNext(Builtins(), text, 2);
    StepQuiet(Builtins()[1], t);
    StepQuiet(Builtins()[2], t);
  }

  lemma MasksAt(k: nat)
    requires k < 8
    ensures |Builtins()| > 8 && Masks(Builtins()[k])
  {
    hide Builtins, Inert, NoWordB, IsAnchored;
    BuiltinShape(k);
  }

  // ---------- keywords ----------

  /** A keyword rule fires exactly where its word stands in the text, in any letter case. */
  lemma KeywordFires(w: string, text: string)
    ensures HasMatch(FoldLiteral(w), false, text) <==> exists k: nat :: k <= |text| && Spells(text[k..], w)
  {
    hide FindOne, HasMatch, FoldLiteral, Spells;
    HasMatchExactly(FoldLiteral(w), false, text);
    forall k: nat | k <= |text|
      ensures FindOne(FoldLiteral(w), WordBefore(false, text, k), text[k..]).Some? <==> Spells(text[k..], w)
    {
      KeywordFound(w, WordBefore(false, text, k), text[k..], |w|);
      var found := FindOne(FoldLiteral(w), WordBefore(false, text, k), text[k..]);
      if found.Some? {
        KeywordFound(w, WordBefore(false, text, k), text[k..], found.value);
      }
    }
  }

  /** The names under which the keywords of two words and of one are reported. */
  lemma KeywordNames()
    ensures Slug("kredi kartı") == "kredi_kartı" && Slug("müşteri") == "müşteri"
    ensures |Builtins()| > 16 && Live(Builtins()[9]) && Live(Builtins()[16])
    ensures Builtins()[9].value.name == "fin_kredi_kartı" && Builtins()[16].value.name == "cust_müşteri"
  {
    hide Detectors, FoldLiteral, Trim;
    TrimTrimmed("kredi kartı");
    TrimTrimmed("müşteri");
    assert Slug("kredi kartı") == "kredi_kartı";
    assert Slug("müşteri") == "müşteri";
    assert "fin_" + "kredi_kartı" == "fin_kredi_kartı" && "cust_" + "müşteri" == "cust_müşteri";
  }
}
