/** gateway/internal/policy/policy.go: the always-on detectors. */
module BuiltinRules {
  import opened Wrappers
  import opened Text
  import opened Regexp
  import opened RegexpLemmas
  import opened Policy
  import opened Residual
  import opened Stretches

  // ---------- regular expression notation ----------

  function Of(ranges: seq<Range>): (r: Pattern)
    ensures MinLen(r) == 1 && NoWordB(r) && !Nullable(r)
    ensures forall c :: Avoids(r, c) <==> !InClass(c, ranges)
  {
    Class(ranges)
  }

  function Both(a: Pattern, b: Pattern): (r: Pattern)
    ensures r == Cat(a, b) && MinLen(r) == MinLen(a) + MinLen(b)
    ensures NoWordB(a) && NoWordB(b) ==> NoWordB(r)
    ensures forall c | Avoids(a, c) && Avoids(b, c) :: Avoids(r, c)
  {
    Cat(a, b)
  }

  function Either(a: Pattern, b: Pattern): (r: Pattern)
    ensures NoWordB(a) && NoWordB(b) ==> NoWordB(r)
    ensures forall c | Avoids(a, c) && Avoids(b, c) :: Avoids(r, c)
  {
    Alt(a, b)
  }

  function Optional(a: Pattern): (r: Pattern)
    ensures NoWordB(a) ==> NoWordB(r)
    ensures forall c | Avoids(a, c) :: Avoids(r, c)
  {
    Either(a, Empty)
  }

  function Many(a: Pattern): (r: Pattern)
    requires !Nullable(a)
    ensures MinLen(r) == 0 && (NoWordB(a) ==> NoWordB(r))
    ensures forall c | Avoids(a, c) :: Avoids(r, c)
  {
    Star(a)
  }

  function Times(a: Pattern, n: nat): (r: Pattern)
    ensures NoWordB(a) ==> NoWordB(r)
    ensures MinLen(a) > 0 ==> MinLen(r) >= n
    ensures forall c | Avoids(a, c) :: Avoids(r, c)
  {
    if n == 0 then Empty else Both(a, Times(a, n - 1))
  }

  function UpTo(a: Pattern, n: nat): (r: Pattern)
    ensures NoWordB(a) ==> NoWordB(r)
    ensures forall c | Avoids(a, c) :: Avoids(r, c)
  {
    if n == 0 then Empty else Optional(Both(a, UpTo(a, n - 1)))
  }

  function AtLeast(a: Pattern, n: nat): (r: Pattern)
    requires !Nullable(a)
    ensures NoWordB(a) ==> NoWordB(r)
    ensures MinLen(a) > 0 ==> MinLen(r) >= n
    ensures forall c | Avoids(a, c) :: Avoids(r, c)
  {
    Both(Times(a, n), Many(a))
  }

  function Anchored(core: Pattern): (r: Pattern)
    ensures r == Cat(WordB, Cat(core, WordB)) && MinLen(r) == MinLen(core)
    ensures NoWordB(core) ==> IsAnchored(r)
    ensures forall c | Avoids(core, c) :: Avoids(r, c)
  {
    Both(WordB, Both(core, WordB))
  }

  function Literal(s: string): (r: Pattern)
    ensures NoWordB(r) && MinLen(r) == |s|
    ensures forall c | c !in s :: Avoids(r, c)
  {
    if s == "" then Empty else Both(Of([Range(s[0], s[0])]), Literal(s[1..]))
  }

  /** The case variants of c, for the letters of the built-in keywords. */
  function Fold(c: char): (ranges: seq<Range>)
    ensures forall d | InClass(d, ranges) :: d == c || 'A' <= d <= 'Z' || 'a' <= d
  {
    var exact := Range(c, c);
    if c == 'k' || c == 'K' || c == '\U{212A}' then [Range('k', 'k'), Range('K', 'K'), Range('\U{212A}', '\U{212A}')]
    else if c == 's' || c == 'S' || c == '\U{017F}' then
      [Range('s', 's'), Range('S', 'S'), Range('\U{017F}', '\U{017F}')]
    else if 'a' <= c <= 'z' then [exact, Range((c as int - 32) as char, (c as int - 32) as char)]
    else if 'A' <= c <= 'Z' then [exact, Range((c as int + 32) as char, (c as int + 32) as char)]
    else if c == 'ü' || c == 'Ü' then [Range('ü', 'ü'), Range('Ü', 'Ü')]
    else if c == 'ş' || c == 'Ş' then [Range('ş', 'ş'), Range('Ş', 'Ş')]
    else if c == 'ğ' || c == 'Ğ' then [Range('ğ', 'ğ'), Range('Ğ', 'Ğ')]
    else [exact]
  }

  /** (?i) before a literal */
  function FoldLiteral(s: string): (r: Pattern)
    ensures NoWordB(r) && MinLen(r) == |s|
    ensures forall c | c !in s && !('A' <= c <= 'Z') && c < 'a' :: Avoids(r, c)
  {
    if s == "" then Empty else Both(Of(Fold(s[0])), FoldLiteral(s[1..]))
  }

  const DIGIT: seq<Range> := [Range('0', '9')]
  const ALNUM: seq<Range> := [Range('0', '9'), Range('A', 'Z'), Range('a', 'z')]
  const UPPER_DIGIT: seq<Range> := [Range('0', '9'), Range('A', 'Z')]
  const UPPER_SPACE: seq<Range> := [Range('A', 'Z'), Range(' ', ' ')]
  const BLANK: seq<Range> := [Range('\t', '\n'), Range('\U{000C}', '\r'), Range(' ', ' ')]
  const SEPARATOR: seq<Range> := [Range(' ', ' '), Range('-', '-')]
  const DASH_WORD: seq<Range> := ALNUM + [Range('_', '_'), Range('-', '-')]
  const DOT_DASH_WORD: seq<Range> := ALNUM + [Range('_', '_'), Range('-', '-'), Range('.', '.')]
  const MAIL_WORD: seq<Range> := ALNUM + [Range('_', '_'), Range('-', '-'), Range('.', '.'), Range('+', '+')]
  // Under (?i) a class with ASCII letters also holds the long s and the Kelvin sign.
  const BEARER_WORD: seq<Range> :=
    DOT_DASH_WORD + [Range('\U{017F}', '\U{017F}'), Range('\U{212A}', '\U{212A}')]

  // ---------- the expressions ----------

  function OpenAIKey(): Pattern {
    Both(Literal("sk-"), AtLeast(Of(DASH_WORD), 16))
  }

  function AwsKey(): Pattern {
    Both(Literal("AKIA"), Times(Of(UPPER_DIGIT), 16))
  }

  function Bearer(): Pattern {
    Both(Both(FoldLiteral("bearer"), AtLeast(Of(BLANK), 1)), AtLeast(Of(BEARER_WORD), 20))
  }

  function PrivateKey(): Pattern {
    Both(Both(Both(Literal("-----BEGIN "), Many(Of(UPPER_SPACE))), Literal("PRIVATE ")), Literal("KEY-----"))
  }

  function Tckn(): Pattern {
    Anchored(Times(Of(DIGIT), 11))
  }

  function IbanTr(): Pattern {
    Anchored(Both(Literal("TR"), Times(Of(DIGIT), 24)))
  }

  function CardGroup(): Pattern {
    Both(Of(DIGIT), Optional(Of(SEPARATOR)))
  }

  function CreditCard(): Pattern {
    Anchored(Both(Times(CardGroup(), 13), UpTo(CardGroup(), 3)))
  }

  function PhoneTr(): Pattern {
    Anchored(Both(Optional(Either(Literal("+90"), Literal("0"))), Both(Literal("5"), Times(Of(DIGIT), 9))))
  }

  function Email(): Pattern {
    Both(AtLeast(Of(MAIL_WORD), 1),
         Both(Literal("@"),
              Both(AtLeast(Of(DASH_WORD), 1), Both(Literal("."), AtLeast(Of(DOT_DASH_WORD), 1)))))
  }

  // ---------- the rules ----------

  function RegexRule(name: string, category: string, action: string, severity: string, re: Pattern): Option<Rule> {
    Some(Rule(name, category, action, severity, Some(re)))
  }

  function KeywordRule(name: string, category: string, action: string, severity: string, keyword: string)
    : Option<Rule>
  {
    RegexRule(name, category, action, severity, FoldLiteral(Trim(keyword)))
  }

  function Slug(s: string): string {
    var t := Trim(s);
    seq(|t|, i requires 0 <= i < |t| => if t[i] == ' ' then '_' else t[i])
  }

  function Lexicon(prefix: string, category: string, severity: string, words: seq<string>): (rules: Rules)
    ensures |rules| == |words|
  {
    seq(|words|, k requires 0 <= k < |words| =>
      KeywordRule(prefix + Slug(words[k]), category, ACTION_FLAG, severity, words[k]))
  }

  function Detectors(): (rules: Rules)
    ensures |rules| == 9
  {
    [ RegexRule("secret_openai_key", "secret", ACTION_MASK, "high", OpenAIKey()),
      RegexRule("secret_aws_key", "secret", ACTION_MASK, "high", AwsKey()),
      RegexRule("secret_bearer", "secret", ACTION_MASK, "high", Bearer()),
      RegexRule("secret_private_key", "secret", ACTION_BLOCK, "high", PrivateKey()),
      RegexRule("tckn", "customer_data", ACTION_MASK, "high", Tckn()),
      RegexRule("iban_tr", "financial", ACTION_MASK, "high", IbanTr()),
      RegexRule("credit_card", "financial", ACTION_MASK, "high", CreditCard()),
      RegexRule("phone_tr", "customer_data", ACTION_MASK, "medium", PhoneTr()),
      RegexRule("email", "customer_data", ACTION_FLAG, "low", Email()) ]
  }

  const FINANCIAL: seq<string> :=
    ["kredi kartı", "hesap numarası", "bakiye", "maaş", "fatura", "vergi numarası", "swift"]
  const CUSTOMER: seq<string> :=
    ["müşteri", "tc kimlik", "telefon numarası", "doğum tarihi", "ev adresi"]

  function Builtins(): (rules: Rules)
    ensures |rules| > 8
  {
    Detectors() + Lexicon("fin_", "financial", "medium", FINANCIAL)
                + Lexicon("cust_", "customer_data", "low", CUSTOMER)
  }

  // ---------- facts about the expressions ----------

  /** None of the characters that separate words for the masker. */
  predicate AvoidsBreaks(r: Regex) {
    Avoids(r, ' ') && Avoids(r, '\t') && Avoids(r, '\n') && Avoids(r, '\r')
  }

  lemma AboutOpenAIKey()
    ensures Inert(OpenAIKey()) && NoWordB(OpenAIKey()) && AvoidsBreaks(OpenAIKey())
  {
    hide Literal, AtLeast, Of, Both, Avoids, NoWordB, MinLen, HasMatch;
    LongIsTokenSafe(OpenAIKey());
  }

  lemma AboutAwsKey()
    ensures Inert(AwsKey()) && NoWordB(AwsKey()) && AvoidsBreaks(AwsKey())
  {
    hide Literal, Times, Of, Both, Avoids, NoWordB, MinLen, HasMatch;
    LongIsTokenSafe(AwsKey());
  }

  lemma AboutBearer()
    ensures Inert(Bearer()) && NoWordB(Bearer())
  {
    hide FoldLiteral, AtLeast, Of, Both, Avoids, NoWordB, MinLen, HasMatch;
    LongIsTokenSafe(Bearer());
  }

  lemma AboutPrivateKey()
    ensures Inert(PrivateKey()) && NoWordB(PrivateKey())
  {
    hide Literal, Of, Both, Many, Avoids, NoWordB, MinLen, HasMatch;
    LongIsTokenSafe(PrivateKey());
  }

  lemma AboutTckn()
    ensures Inert(Tckn()) && IsAnchored(Tckn()) && AvoidsBreaks(Tckn())
  {
    hide Times, Of, Anchored, Avoids, NoWordB, MinLen, HasMatch;
    LongIsTokenSafe(Tckn());
  }

  lemma AboutIbanTr()
    ensures Inert(IbanTr()) && IsAnchored(IbanTr()) && AvoidsBreaks(IbanTr())
  {
    hide Literal, Times, Of, Both, Anchored, Avoids, NoWordB, MinLen, HasMatch;
    LongIsTokenSafe(IbanTr());
  }

  lemma AboutCreditCard()
    ensures Inert(CreditCard()) && IsAnchored(CreditCard()) && MinLen(CreditCard()) >= 13
  {
    hide Times, UpTo, Optional, Of, Both, Anchored, Avoids, NoWordB, MinLen, HasMatch;
    LongIsTokenSafe(CreditCard());
  }

  lemma AboutPhoneTr()
    ensures Inert(PhoneTr()) && IsAnchored(PhoneTr()) && AvoidsBreaks(PhoneTr())
  {
    hide Literal, Times, Optional, Either, Of, Both, Anchored, Avoids, NoWordB, MinLen, HasMatch;
    LongIsTokenSafe(PhoneTr());
  }

  lemma AboutEmail()
    ensures MinLen(Email()) > 0 && AvoidsBreaks(Email())
  {
    hide Literal, AtLeast, Of, Both, Avoids, MinLen;
  }

  // ---------- one pass leaves nothing behind ----------

  /** The first eight rules rewrite; of these the first four have no \b, the others one at each end. */
  predicate Shape(r: Option<Rule>, k: nat) {
    && Live(r)
    && (Masks(r) <==> k < 8)
    && (k < 8 ==> Inert(r.value.re.value))
    && (k < 4 ==> NoWordB(r.value.re.value))
    && (4 <= k < 8 ==> IsAnchored(r.value.re.value))
  }

  lemma DetectorShape(k: nat)
    requires k < |Detectors()|
    ensures Shape(Detectors()[k], k)
  {
    hide OpenAIKey, AwsKey, Bearer, PrivateKey, Tckn, IbanTr, CreditCard, PhoneTr, Email;
    hide Inert, NoWordB, IsAnchored, MinLen, AvoidsBreaks;
    AboutOpenAIKey();
    AboutAwsKey();
    AboutBearer();
    AboutPrivateKey();
    AboutTckn();
    AboutIbanTr();
    AboutCreditCard();
    AboutPhoneTr();
  }

  lemma BuiltinShape(k: nat)
    requires k < |Builtins()|
    ensures Shape(Builtins()[k], k)
  {
    hide OpenAIKey, AwsKey, Bearer, PrivateKey, Tckn, IbanTr, CreditCard, PhoneTr, Email;
    hide FoldLiteral, Trim, Slug, Inert, NoWordB, IsAnchored;
    if k < |Detectors()| {
      DetectorShape(k);
    }
  }

  lemma BuiltinsLayered()
    ensures Layered(Builtins())
  {
    hide Builtins, Inert, NoWordB, IsAnchored;
    forall k: nat | k < |Builtins()|
      ensures Shape(Builtins()[k], k)
    {
      BuiltinShape(k);
    }
  }

  /** What Apply leaves has no secret or number that the built-in rules would still rewrite or block. */
  lemma BuiltinsLeaveNothing(text: string)
    ensures var t := Masked(Builtins(), text);
            && (forall k | 0 <= k < |Builtins()| :: Quiet(Builtins()[k], t))
            && Masked(Builtins(), t) == t
            && !Blocks(Builtins(), t)
  {
    hide Builtins, Masked, Blocks, Quiet;
    BuiltinsLayered();
    NothingLeft(Builtins(), text);
    SecondPass(Builtins(), text);
  }

  // ---------- what the detectors cannot match ----------

  /** None of the characters that the first four detectors begin with. */
  predicate Harmless(c: char) {
    c != 's' && c != 'A' && c != 'b' && c != 'B' && c != '-'
  }

  lemma LiteralStart(w: string, c: char)
    requires w != "" && c != w[0]
    ensures CannotStart(Literal(w), c)
  {
    assert !InClass(c, [Range(w[0], w[0])]);
  }

  lemma FoldStart(w: string, c: char)
    requires w != "" && !InClass(c, Fold(w[0]))
    ensures CannotStart(FoldLiteral(w), c)
  {
  }

  lemma BothStart(a: Pattern, b: Pattern, c: char)
    requires CannotStart(a, c)
    ensures CannotStart(Both(a, b), c)
  {
  }

  lemma OpenAIKeyStart(c: char)
    requires Harmless(c)
    ensures CannotStart(OpenAIKey(), c)
  {
    LiteralStart("sk-", c);
    hide CannotStart, Literal, AtLeast, Of, Both;
    BothStart(Literal("sk-"), AtLeast(Of(DASH_WORD), 16), c);
  }

  lemma AwsKeyStart(c: char)
    requires Harmless(c)
    ensures CannotStart(AwsKey(), c)
  {
    LiteralStart("AKIA", c);
    hide CannotStart, Literal, Times, Of, Both;
    BothStart(Literal("AKIA"), Times(Of(UPPER_DIGIT), 16), c);
  }

  lemma PrivateKeyStart(c: char)
    requires Harmless(c)
    ensures CannotStart(PrivateKey(), c)
  {
    LiteralStart("-----BEGIN ", c);
    hide CannotStart, Literal, Many, Of, Both;
    var begin := Both(Literal("-----BEGIN "), Many(Of(UPPER_SPACE)));
    BothStart(Literal("-----BEGIN "), Many(Of(UPPER_SPACE)), c);
    BothStart(begin, Literal("PRIVATE "), c);
    BothStart(Both(begin, Literal("PRIVATE ")), Literal("KEY-----"), c);
  }

  lemma BearerStart(c: char)
    requires Harmless(c)
    ensures CannotStart(Bearer(), c)
  {
    assert !InClass(c, Fold('b'));
    FoldStart("bearer", c);
    hide CannotStart, FoldLiteral, AtLeast, Of, Both;
    BothStart(FoldLiteral("bearer"), AtLeast(Of(BLANK), 1), c);
    BothStart(Both(FoldLiteral("bearer"), AtLeast(Of(BLANK), 1)), AtLeast(Of(BEARER_WORD), 20), c);
  }

  /** None of the other four matches a lower-case letter. */
  lemma TcknAvoids()
    ensures Avoids(Tckn(), 'a')
  {
    assert !InClass('a', DIGIT);
    hide Times, Of, Anchored, Avoids;
  }

  lemma IbanTrAvoids()
    ensures Avoids(IbanTr(), 'a')
  {
    assert !InClass('a', DIGIT);
    hide Literal, Times, Of, Both, Anchored, Avoids;
  }

  lemma CreditCardAvoids()
    ensures Avoids(CreditCard(), 'a')
  {
    assert !InClass('a', DIGIT) && !InClass('a', SEPARATOR);
    hide Times, UpTo, Optional, Of, Both, Anchored, Avoids;
  }

  lemma PhoneTrAvoids()
    ensures Avoids(PhoneTr(), 'a')
  {
    assert !InClass('a', DIGIT);
    hide Literal, Times, Optional, Either, Of, Both, Anchored, Avoids;
  }

  /** The expressions of the eight rules that rewrite. */
  function Rewriter(k: nat): Pattern
    requires k < 8
  {
    if k == 0 then OpenAIKey()
    else if k == 1 then AwsKey()
    else if k == 2 then Bearer()
    else if k == 3 then PrivateKey()
    else if k == 4 then Tckn()
    else if k == 5 then IbanTr()
    else if k == 6 then CreditCard()
    else PhoneTr()
  }

  /** The rule rewrites the matches of re. */
  predicate Rewrites(r: Option<Rule>, re: Pattern) {
    Masks(r) && r.value.re.value == re
  }

  lemma MaskingPattern(k: nat)
    requires k < 8
    ensures |Builtins()| > 8 && Live(Builtins()[k]) && Builtins()[k].value.re.value == Rewriter(k)
  {
    hide OpenAIKey, AwsKey, Bearer, PrivateKey, Tckn, IbanTr, CreditCard, PhoneTr, Email, Lexicon;
    assert Builtins()[k] == Detectors()[k];
  }

  lemma RewriterStart(k: nat, c: char)
    requires k < 4 && Harmless(c)
    ensures CannotStart(Rewriter(k), c)
  {
    hide OpenAIKey, AwsKey, Bearer, PrivateKey, Tckn, IbanTr, CreditCard, PhoneTr, CannotStart, Harmless;
    OpenAIKeyStart(c);
    AwsKeyStart(c);
    BearerStart(c);
    PrivateKeyStart(c);
  }

  lemma RewriterAvoids(k: nat)
    requires 4 <= k < 8
    ensures Avoids(Rewriter(k), 'a')
  {
    hide OpenAIKey, AwsKey, Bearer, PrivateKey, Tckn, IbanTr, CreditCard, PhoneTr, Avoids;
    TcknAvoids();
    IbanTrAvoids();
    CreditCardAvoids();
    PhoneTrAvoids();
  }

  /** A flag rule rewrites nothing. */
  lemma FlagIsQuiet(k: nat, text: string)
    requires 8 <= k < |Builtins()|
    ensures Quiet(Builtins()[k], text)
  {
    hide Builtins, HasMatch, Inert, NoWordB, IsAnchored;
    BuiltinShape(k);
  }

  /** A word that begins with an `a` and has no character of a secret's beginning is matched by no rewriting rule. */
  lemma WordMissed(k: nat, t: string)
    requires k < 8 && t != "" && t[0] == 'a' && forall i | 0 <= i < |t| :: IsWord(t[i]) && Harmless(t[i])
    ensures !HasMatch(Rewriter(k), false, t)
  {
    hide Builtins, Rewriter, HasMatch, Inert, NoWordB, IsAnchored, IsWord, Harmless, Avoids, CannotStart;
    BuiltinShape(k);
    MaskingPattern(k);
    var r := Rewriter(k);
    if k < 4 {
      forall i | 0 <= i < |t|
        ensures CannotStart(r, t[i])
      {
        RewriterStart(k, t[i]);
      }
      InertNotEmpty(r);
      NeverStarts(r, false, t);
    } else {
      RewriterAvoids(k);
      NoneInWord(r, t);
    }
  }

  /** What no number begins with. */
  predicate NoDigit(c: char) {
    !('0' <= c <= '9') && c != '+'
  }

  lemma TcknStart(c: char)
    requires NoDigit(c)
    ensures CannotStart(Tckn(), c)
  {
    assert !InClass(c, DIGIT);
    var core := Times(Of(DIGIT), 11);
    assert core == Both(Of(DIGIT), Times(Of(DIGIT), 10));
    hide Times, Of;
    BothStart(Of(DIGIT), Times(Of(DIGIT), 10), c) by { assert CannotStart(Class(DIGIT), c); DigitClass(); }
    hide Both, CannotStart;
    AnchoredStart(core, c);
  }

  lemma DigitClass()
    ensures Of(DIGIT) == Class(DIGIT)
  {
  }

  lemma AnchoredStart(core: Pattern, c: char)
    requires CannotStart(core, c)
    ensures CannotStart(Anchored(core), c)
  {
    BothStart(core, WordB, c);
    assert Passes(WordB, c);
  }

  lemma PhoneTrStart(c: char)
    requires NoDigit(c)
    ensures CannotStart(PhoneTr(), c)
  {
    LiteralStart("+90", c);
    LiteralStart("0", c);
    LiteralStart("5", c);
    hide Literal, Times, Of;
    var prefix, body := Optional(Either(Literal("+90"), Literal("0"))), Both(Literal("5"), Times(Of(DIGIT), 9));
    StartPasses(Literal("+90"), c);
    StartPasses(Literal("0"), c);
    BothStart(Literal("5"), Times(Of(DIGIT), 9), c);
    assert Passes(prefix, c);
    assert CannotStart(Both(prefix, body), c);
    hide Both, Optional, Either, CannotStart, Passes;
    AnchoredStart(Both(prefix, body), c);
  }

  lemma {:induction false} StartPasses(r: Pattern, c: char)
    requires CannotStart(r, c)
    ensures Passes(r, c)
  {
    match r
    case Alt(a, b) =>
      StartPasses(a, c);
      StartPasses(b, c);
    case Cat(a, b) =>
      if !CannotStart(a, c) {
        StartPasses(b, c);
      }
    case _ =>
  }

  lemma NumberStart(k: nat, c: char)
    requires (k == 4 || k == 7) && NoDigit(c)
    ensures CannotStart(Rewriter(k), c)
  {
    hide OpenAIKey, AwsKey, Bearer, PrivateKey, Tckn, IbanTr, CreditCard, PhoneTr, CannotStart, NoDigit;
    TcknStart(c);
    PhoneTrStart(c);
  }

  /** All but two of the rewriting rules ask for twelve characters, and these two for ten that begin with a number. */
  lemma RewriterLength(k: nat)
    requires k < 8
    ensures MinLen(Rewriter(k)) >= if k == 4 || k == 7 then 10 else 12
  {
    hide Literal, FoldLiteral, Times, UpTo, AtLeast, Optional, Either, Of, Both, Many, Anchored, MinLen;
  }

  /** Eleven characters without a digit are too few. */
  lemma ShortMissed(k: nat, t: string)
    requires k < 8 && |t| < 12 && forall i | 0 <= i < |t| :: NoDigit(t[i])
    ensures !HasMatch(Rewriter(k), false, t)
  {
    hide *;
    RewriterLength(k);
    if k == 4 || k == 7 {
      NumberMissed(k, t);
    } else {
      TooShort(Rewriter(k), false, t);
    }
  }

  lemma NumberMissed(k: nat, t: string)
    requires (k == 4 || k == 7) && forall i | 0 <= i < |t| :: NoDigit(t[i])
    ensures !HasMatch(Rewriter(k), false, t)
  {
    hide *;
    RewriterLength(k);
    forall i | 0 <= i < |t|
      ensures CannotStart(Rewriter(k), t[i])
    {
      NumberStart(k, t[i]);
    }
    NeverStarts(Rewriter(k), false, t);
  }

  lemma TinyMissed(k: nat, t: string)
    requires k < 8 && |t| < 10
    ensures !HasMatch(Rewriter(k), false, t)
  {
    hide *;
    RewriterLength(k);
    TooShort(Rewriter(k), false, t);
  }
}
