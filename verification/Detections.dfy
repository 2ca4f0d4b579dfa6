/**
 gateway/internal/policy/policy.go: what each built-in detector matches, character by
 character, without regular expressions.
*/
module Detections {
  import opened Wrappers
  import opened Text
  import opened Regexp
  import opened BuiltinRules
  import opened Evaluation

  // ---------- characters ----------

  predicate IsDigit(c: char) {
    '0' <= c <= '9'
  }

  predicate IsUpper(c: char) {
    'A' <= c <= 'Z'
  }

  predicate IsKeyChar(c: char) {
    IsDigit(c) || IsUpper(c) || 'a' <= c <= 'z' || c == '_' || c == '-'
  }

  predicate IsDomainChar(c: char) {
    IsWord(c) || c == '-' || c == '.'
  }

  predicate IsMailChar(c: char) {
    IsWord(c) || c == '-' || c == '.' || c == '+'
  }

  /** With letter case folded the long s and the Kelvin sign are letters. */
  predicate IsTokenChar(c: char) {
    IsKeyChar(c) || c == '.' || c == '\U{017F}' || c == '\U{212A}'
  }

  predicate IsBlank(c: char) {
    c == ' ' || c == '\t' || c == '\n' || c == '\U{000C}' || c == '\r'
  }

  predicate IsUpperOrBlank(c: char) {
    IsUpper(c) || c == ' '
  }

  predicate IsUpperOrDigit(c: char) {
    IsUpper(c) || IsDigit(c)
  }

  predicate IsSeparator(c: char) {
    c == ' ' || c == '-'
  }

  /** The letter that stands for c and its case variants. */
  function Lower(c: char): char {
    if IsUpper(c) then (c as int + 32) as char
    else if c == '\U{212A}' then 'k'
    else if c == '\U{017F}' then 's'
    else if c == 'Ü' then 'ü'
    else if c == 'Ş' then 'ş'
    else if c == 'Ğ' then 'ğ'
    else c
  }

  /** The ranges of a class hold exactly these characters. */
  ghost predicate Holds(ranges: seq<Range>, p: char -> bool) {
    forall c: char :: InClass(c, ranges) <==> p(c)
  }

  lemma InClassAppend(c: char, a: seq<Range>, b: seq<Range>)
    ensures InClass(c, a + b) <==> InClass(c, a) || InClass(c, b)
  {
    forall k | 0 <= k < |a|
      ensures (a + b)[k] == a[k]
    {
    }
    forall k | 0 <= k < |b|
      ensures (a + b)[|a| + k] == b[k]
    {
    }
  }

  lemma InOne(c: char, lo: char, hi: char)
    ensures InClass(c, [Range(lo, hi)]) <==> lo <= c <= hi
  {
    assert [Range(lo, hi)][0] == Range(lo, hi);
  }

  lemma InTwo(c: char, a: Range, b: Range)
    ensures InClass(c, [a, b]) <==> a.lo <= c <= a.hi || b.lo <= c <= b.hi
  {
    assert [a, b][0] == a && [a, b][1] == b;
  }

  lemma InThree(c: char, a: Range, b: Range, d: Range)
    ensures InClass(c, [a, b, d]) <==> a.lo <= c <= a.hi || b.lo <= c <= b.hi || d.lo <= c <= d.hi
  {
    assert [a, b, d][0] == a && [a, b, d][1] == b && [a, b, d][2] == d;
  }

  lemma Classes()
    ensures Holds(DIGIT, IsDigit) && Holds(UPPER_DIGIT, IsUpperOrDigit) && Holds(UPPER_SPACE, IsUpperOrBlank)
    ensures Holds(BLANK, IsBlank) && Holds(SEPARATOR, IsSeparator)
  {
    forall c: char
      ensures InClass(c, DIGIT) <==> IsDigit(c)
      ensures InClass(c, UPPER_DIGIT) <==> IsUpperOrDigit(c)
      ensures InClass(c, UPPER_SPACE) <==> IsUpperOrBlank(c)
      ensures InClass(c, BLANK) <==> IsBlank(c)
      ensures InClass(c, SEPARATOR) <==> IsSeparator(c)
    {
      InOne(c, '0', '9');
      InTwo(c, Range('0', '9'), Range('A', 'Z'));
      InTwo(c, Range('A', 'Z'), Range(' ', ' '));
      InThree(c, Range('\t', '\n'), Range('\U{000C}', '\r'), Range(' ', ' '));
      InTwo(c, Range(' ', ' '), Range('-', '-'));
    }
  }

  lemma WordClasses()
    ensures Holds(DASH_WORD, IsKeyChar) && Holds(DOT_DASH_WORD, IsDomainChar) && Holds(MAIL_WORD, IsMailChar)
    ensures Holds(BEARER_WORD, IsTokenChar)
  {
    forall c: char
      ensures InClass(c, DASH_WORD) <==> IsKeyChar(c)
      ensures InClass(c, DOT_DASH_WORD) <==> IsDomainChar(c)
      ensures InClass(c, MAIL_WORD) <==> IsMailChar(c)
      ensures InClass(c, BEARER_WORD) <==> IsTokenChar(c)
    {
      var score, dash, dot, plus := Range('_', '_'), Range('-', '-'), Range('.', '.'), Range('+', '+');
      var long, kelvin := Range('\U{017F}', '\U{017F}'), Range('\U{212A}', '\U{212A}');
      InThree(c, Range('0', '9'), Range('A', 'Z'), Range('a', 'z'));
      InTwo(c, score, dash);
      InThree(c, score, dash, dot);
      InTwo(c, dot, plus);
      InTwo(c, long, kelvin);
      InClassAppend(c, ALNUM, [score, dash]);
      InClassAppend(c, ALNUM, [score, dash, dot]);
      assert [score, dash, dot, plus] == [score, dash] + [dot, plus];
      InClassAppend(c, [score, dash], [dot, plus]);
      InClassAppend(c, ALNUM, [score, dash, dot, plus]);
      InClassAppend(c, DOT_DASH_WORD, [long, kelvin]);
      hide InClass;
    }
  }

  // ---------- stretches of a text ----------

  /** s[i..n] holds only these characters. */
  predicate AllIn(p: char -> bool, s: string, i: nat, n: nat) {
    i <= n <= |s| && forall k | i <= k < n :: p(s[k])
  }

  /** ... and cannot be continued. */
  predicate LongestRun(p: char -> bool, s: string, i: nat, n: nat) {
    AllIn(p, s, i, n) && (n < |s| ==> !p(s[n]))
  }

  /** The word stands at the front of s, in any letter case. */
  predicate Spells(s: string, w: string) {
    |w| <= |s| && forall k | 0 <= k < |w| :: Lower(s[k]) == Lower(w[k])
  }

  lemma RunIsLongest(ranges: seq<Range>, p: char -> bool, s: string, i: nat)
    requires Holds(ranges, p) && i <= |s|
    ensures forall n: nat :: LongestRun(p, s, i, n) <==> n == i + RunLen(ranges, s[i..])
  {
    var m := i + RunLen(ranges, s[i..]);
    assert forall k | i <= k < |s| :: s[k] == s[i..][k-i];
    assert forall k | i <= k < m :: p(s[k]);
    assert m < |s| ==> !p(s[m]);
    forall n: nat
      ensures LongestRun(p, s, i, n) <==> n == m
    {
      if i <= n < m {
        assert p(s[n]);
      } else if m < n <= |s| {
        assert !p(s[m]);
      }
    }
  }

  lemma FilledIsAll(ranges: seq<Range>, p: char -> bool, s: string, i: nat, n: nat)
    requires Holds(ranges, p) && i <= |s|
    ensures Filled(ranges, n, s[i..]) <==> AllIn(p, s, i, i + n)
  {
    hide InClass;
    assert i + n <= |s| ==> forall k | 0 <= k < n :: s[i..][k] == s[i + k];
    if Filled(ranges, n, s[i..]) {
      forall k | i <= k < i + n
        ensures p(s[k])
      {
        assert InClass(s[i..][k-i], ranges);
      }
    }
  }

  lemma FoldHolds(c: char, d: char)
    ensures InClass(c, Fold(d)) <==> Lower(c) == Lower(d)
  {
    if d == 'k' || d == 'K' || d == '\U{212A}' {
      InThree(c, Range('k', 'k'), Range('K', 'K'), Range('\U{212A}', '\U{212A}'));
    } else if d == 's' || d == 'S' || d == '\U{017F}' {
      InThree(c, Range('s', 's'), Range('S', 'S'), Range('\U{017F}', '\U{017F}'));
    } else if 'a' <= d <= 'z' || 'A' <= d <= 'Z' {
      FoldLetter(c, d);
    } else {
      FoldTurkish(c, d);
    }
    hide InClass;
  }

  lemma FoldLetter(c: char, d: char)
    requires ('a' <= d <= 'z' || 'A' <= d <= 'Z') && d != 'k' && d != 'K' && d != 's' && d != 'S'
    ensures InClass(c, Fold(d)) <==> Lower(c) == Lower(d)
  {
    if 'a' <= d <= 'z' {
      InTwo(c, Range(d, d), Range((d as int - 32) as char, (d as int - 32) as char));
    } else {
      InTwo(c, Range(d, d), Range((d as int + 32) as char, (d as int + 32) as char));
    }
    hide InClass;
  }

  lemma FoldTurkish(c: char, d: char)
    requires !('a' <= d <= 'z') && !('A' <= d <= 'Z') && d != '\U{212A}' && d != '\U{017F}'
    ensures InClass(c, Fold(d)) <==> Lower(c) == Lower(d)
  {
    InOne(c, d, d);
    InTwo(c, Range('ü', 'ü'), Range('Ü', 'Ü'));
    InTwo(c, Range('ş', 'ş'), Range('Ş', 'Ş'));
    InTwo(c, Range('ğ', 'ğ'), Range('Ğ', 'Ğ'));
    hide InClass;
  }

  lemma FoldFirst(w: string, rest: Goal, left: bool, s: string)
    ensures var k := Then(FoldLiteral(w), rest);
            && Find(k, left, s) == (if Spells(s, w) then FindAt(rest, left, s, |w|) else None)
            && (LongestAt(rest, left, s, |w|) ==> Longest(k, left, s))
  {
    hide *;
    FoldIsRow(w);
    RowFirst(FoldClasses(w), rest, left, s);
    FoldRow(w, s);
  }

  lemma FoldRow(w: string, s: string)
    ensures |FoldClasses(w)| == |w| && (InRow(FoldClasses(w), s) <==> Spells(s, w))
  {
    forall k | 0 <= k < |w| && |w| <= |s|
      ensures InClass(s[k], FoldClasses(w)[k]) <==> Lower(s[k]) == Lower(w[k])
    {
      FoldHolds(s[k], w[k]);
    }
    hide InClass, Fold;
  }

  // ---------- secrets ----------

  /** sk- and the longest run of key characters behind it, if that has at least sixteen. */
  lemma OpenAIKeyFound(left: bool, s: string, n: nat)
    ensures FindOne(OpenAIKey(), left, s) == Some(n) <==>
            "sk-" <= s && n >= 3 + 16 && LongestRun(IsKeyChar, s, 3, n)
    ensures Longest(Then(OpenAIKey(), Done), left, s)
  {
    hide *;
    OpenKeys(left, s);
    var run := AtLeast(Of(DASH_WORD), 16);
    CatFirst(Literal("sk-"), run, Done, left, s);
    LiteralFirst("sk-", Then(run, Done), left, s);
    if "sk-" <= s {
      WordClasses();
      HereAt(Then(run, Done), left, s, 3);
      AtLeastLast(DASH_WORD, 16, WordBefore(left, s, 3), s[3..]);
      RunIsLongest(DASH_WORD, IsKeyChar, s, 3);
      PlusIf(3, RunLen(DASH_WORD, s[3..]) >= 16, RunLen(DASH_WORD, s[3..]));
    } else {
      NothingLonger(Then(OpenAIKey(), Done), left, s);
    }
  }

  lemma OpenKeys(left: bool, s: string)
    ensures OpenAIKey() == Both(Literal("sk-"), AtLeast(Of(DASH_WORD), 16)) && |"sk-"| == 3
    ensures AwsKey() == Both(Literal("AKIA"), Times(Of(UPPER_DIGIT), 16)) && |"AKIA"| == 4
    ensures FindOne(OpenAIKey(), left, s) == Find(Then(OpenAIKey(), Done), left, s)
    ensures FindOne(AwsKey(), left, s) == Find(Then(AwsKey(), Done), left, s)
  {
    hide Literal, AtLeast, Times, Of, Both, Find;
  }

  /** AKIA and sixteen capitals or digits. */
  lemma AwsKeyFound(left: bool, s: string, n: nat)
    ensures FindOne(AwsKey(), left, s) == Some(n) <==>
            "AKIA" <= s && n == 4 + 16 && AllIn(IsUpperOrDigit, s, 4, n)
    ensures Longest(Then(AwsKey(), Done), left, s)
  {
    hide *;
    OpenKeys(left, s);
    var run := Times(Of(UPPER_DIGIT), 16);
    CatFirst(Literal("AKIA"), run, Done, left, s);
    LiteralFirst("AKIA", Then(run, Done), left, s);
    if "AKIA" <= s {
      Classes();
      var left', s' := WordBefore(left, s, 4), s[4..];
      HereAt(Then(run, Done), left, s, 4);
      TimesFirst(UPPER_DIGIT, 16, Done, left', s');
      LongestEnd(left', s', 16);
      FilledIsAll(UPPER_DIGIT, IsUpperOrDigit, s, 4, 16);
      AllInside(IsUpperOrDigit, s, 4, 20);
      PlusIf(4, Filled(UPPER_DIGIT, 16, s'), 16);
    } else {
      NothingLonger(Then(AwsKey(), Done), left, s);
    }
  }

  lemma AllInside(p: char -> bool, s: string, i: nat, n: nat)
    ensures AllIn(p, s, i, n) ==> i <= n <= |s|
  {
  }

  /** "bearer" in any case, the longest run of blanks, and the longest run of token characters, at least twenty. */
  lemma BearerFound(left: bool, s: string, n: nat)
    ensures FindOne(Bearer(), left, s) == Some(n) <==>
            && Spells(s, "bearer")
            && exists m: nat :: m > 6 && LongestRun(IsBlank, s, 6, m) && n >= m + 20 && LongestRun(IsTokenChar, s, m, n)
    ensures Longest(Then(Bearer(), Done), left, s)
  {
    hide *;
    BearerRuns(left, s);
    if Spells(s, "bearer") {
      SpellsLength(s, "bearer");
      Classes();
      WordClasses();
      RunIsLongest(BLANK, IsBlank, s, 6);
      RunIsLongest(BEARER_WORD, IsTokenChar, s, 6 + RunLen(BLANK, s[6..]));
      assert LongestRun(IsBlank, s, 6, 6 + RunLen(BLANK, s[6..]));
    }
  }

  lemma BearerRuns(left: bool, s: string)
    ensures Longest(Then(Bearer(), Done), left, s)
    ensures FindOne(Bearer(), left, s) ==
            if Spells(s, "bearer") && |s| >= 6 then
              var m := 6 + RunLen(BLANK, s[6..]);
              var l := RunLen(BEARER_WORD, s[m..]);
              if m > 6 && l >= 20 then Some(m + l) else None
            else None
  {
    hide *;
    BlankIsNoToken();
    OpenBearer();
    WordAndRuns("bearer", BLANK, 1, BEARER_WORD, 20, left, s);
  }

  lemma OpenBearer()
    ensures Bearer() == Both(Both(FoldLiteral("bearer"), AtLeast(Of(BLANK), 1)), AtLeast(Of(BEARER_WORD), 20))
    ensures |"bearer"| == 6
    ensures forall left, s :: FindOne(Bearer(), left, s) == Find(Then(Bearer(), Done), left, s)
  {
    hide FoldLiteral, AtLeast, Both, Find;
  }

  lemma WordAndRuns(w: string, first: seq<Range>, m: nat, second: seq<Range>, n: nat, left: bool, s: string)
    requires n > 0 && forall c | InClass(c, first) :: !InClass(c, second)
    ensures var k := Then(Both(Both(FoldLiteral(w), AtLeast(Of(first), m)), AtLeast(Of(second), n)), Done);
            && Longest(k, left, s)
            && Find(k, left, s) ==
               if Spells(s, w) && |w| <= |s| then
                 var i := |w| + RunLen(first, s[|w|..]);
                 var l := RunLen(second, s[i..]);
                 if i >= |w| + m && l >= n then Some(i + l) else None
               else None
  {
    hide *;
    var one, two := AtLeast(Of(first), m), AtLeast(Of(second), n);
    var k, tail := Then(Both(Both(FoldLiteral(w), one), two), Done), Then(one, Then(two, Done));
    CatFirst(Both(FoldLiteral(w), one), two, Done, left, s);
    CatFirst(FoldLiteral(w), one, Then(two, Done), left, s);
    FoldFirst(w, tail, left, s);
    if Spells(s, w) {
      SpellsLength(s, w);
      var left', s' := WordBefore(left, s, |w|), s[|w|..];
      HereAt(tail, left, s, |w|);
      RunThenRun(first, m, second, n, left', s');
      var i := RunLen(first, s');
      assert s'[i..] == s[|w| + i..];
      PlusIf(|w|, i >= m && RunLen(second, s'[i..]) >= n, i + RunLen(second, s'[i..]));
    } else {
      NothingLonger(k, left, s);
    }
  }

  lemma BlankIsNoToken()
    ensures forall c | InClass(c, BLANK) :: !InClass(c, BEARER_WORD)
  {
    Classes();
    WordClasses();
  }

  lemma SpellsLength(s: string, w: string)
    requires Spells(s, w)
    ensures |w| <= |s|
  {
  }

  /** The opening dashes, capitals and blanks, and behind them PRIVATE KEY with the closing dashes. */
  lemma PrivateKeyFound(left: bool, s: string, n: nat)
    ensures FindOne(PrivateKey(), left, s) == Some(n) <==>
            && "-----BEGIN " <= s && 11 + 16 <= n <= |s| && s[n-16..n] == "PRIVATE KEY-----"
            && AllIn(IsUpperOrBlank, s, 11, n - 16)
    ensures Longest(Then(PrivateKey(), Done), left, s)
  {
    hide *;
    OpenPrivateKey();
    var capitals, last := Many(Of(UPPER_SPACE)), Then(Literal("PRIVATE "), Then(Literal("KEY-----"), Done));
    var begin := Literal("-----BEGIN ");
    CatFirst(Both(Both(begin, capitals), Literal("PRIVATE ")), Literal("KEY-----"), Done, left, s);
    CatFirst(Both(begin, capitals), Literal("PRIVATE "), Then(Literal("KEY-----"), Done), left, s);
    CatFirst(begin, capitals, last, left, s);
    LiteralFirst("-----BEGIN ", Then(capitals, last), left, s);
    if "-----BEGIN " <= s {
      HereAt(Then(capitals, last), left, s, 11);
      CapitalsThenKey(WordBefore(left, s, 11), s[11..]);
      KeySpan(s, n);
      var m := RunLen(UPPER_SPACE, s[11..]);
      PlusIf(11, m >= 11 && KEY_END <= s[11..][m-11..], m + 5);
    } else {
      NothingLonger(Then(PrivateKey(), Done), left, s);
    }
  }

  const KEY_END := "PRIVATE KEY-----"

  lemma OpenPrivateKey()
    ensures PrivateKey() ==
            Both(Both(Both(Literal("-----BEGIN "), Many(Of(UPPER_SPACE))), Literal("PRIVATE ")), Literal("KEY-----"))
    ensures |"-----BEGIN "| == 11
    ensures forall left, s :: FindOne(PrivateKey(), left, s) == Find(Then(PrivateKey(), Done), left, s)
  {
    hide Literal, Many, Both, Find;
  }

  lemma TwoLiterals(u: string, v: string, left: bool, s: string)
    ensures var k := Then(Literal(u), Then(Literal(v), Done));
            && Find(k, left, s) == (if u + v <= s then Some(|u| + |v|) else None)
            && Longest(k, left, s)
  {
    hide Find, Longest, Literal;
    var k, rest := Then(Literal(u), Then(Literal(v), Done)), Then(Literal(v), Done);
    LiteralFirst(u, rest, left, s);
    assert u + v <= s <==> u <= s && v <= s[|u|..] by { HalvesAppend(u, v); }
    if u <= s {
      var left', s' := WordBefore(left, s, |u|), s[|u|..];
      LiteralFirst(v, Done, left', s');
      LongestEnd(left', s', |v|);
      if v <= s' {
        LongestEnd(left', s', |v|);
      } else {
        NothingLonger(rest, left', s');
      }
    } else {
      NothingLonger(k, left, s);
    }
  }

  /** Where the key words end, the run of capitals and blanks ends, five characters before them. */
  lemma CapitalsEnd(s: string, j: nat)
    requires j <= |s| && Filled(UPPER_SPACE, j, s) && KEY_END <= s[j..]
    ensures RunLen(UPPER_SPACE, s) == j + 11
  {
    Classes();
    hide InClass, RunLen;
    assert forall k | 0 <= k < 16 :: s[j + k] == KEY_END[k];
    assert forall k | 0 <= k < 11 :: IsUpperOrBlank(KEY_END[k]);
    assert !IsUpperOrBlank(KEY_END[11]);
  }

  lemma CapitalsThenKey(left: bool, s: string)
    ensures var k := Then(Many(Of(UPPER_SPACE)), Then(Literal("PRIVATE "), Then(Literal("KEY-----"), Done)));
            var m := RunLen(UPPER_SPACE, s);
            && Find(k, left, s) == (if m >= 11 && KEY_END <= s[m-11..] then Some(m + 5) else None)
            && Longest(k, left, s)
  {
    hide *;
    var last := Then(Literal("PRIVATE "), Then(Literal("KEY-----"), Done));
    var m := RunLen(UPPER_SPACE, s);
    var j := if m >= 11 then m - 11 else 0;
    KeyEnd();
    forall k | 0 <= k <= m
      ensures FindAt(last, left, s, k) == if KEY_END <= s[k..] then Some(k + 16) else None
      ensures LongestAt(last, left, s, k)
      ensures KEY_END <= s[k..] ==> m == k + 11
    {
      TwoLiterals("PRIVATE ", "KEY-----", WordBefore(left, s, k), s[k..]);
      HereAt(last, left, s, k);
      PlusIf(k, KEY_END <= s[k..], 16);
      if KEY_END <= s[k..] {
        RunFilled(UPPER_SPACE, k, s);
        CapitalsEnd(s, k);
      }
    }
    RunThen(UPPER_SPACE, last, left, s, j);
  }

  lemma KeyEnd()
    ensures KEY_END == "PRIVATE " + "KEY-----" == "PRIVATE KEY-----" && |KEY_END| == 16
    ensures |"PRIVATE "| + |"KEY-----"| == 16
  {
  }

  lemma RunFilled(ranges: seq<Range>, n: nat, s: string)
    requires n <= RunLen(ranges, s)
    ensures Filled(ranges, n, s)
  {
  }

  /** The span that ends in the key words, seen from its end. */
  lemma KeySpan(s: string, n: nat)
    requires "-----BEGIN " <= s && |s| >= 11
    ensures var m := RunLen(UPPER_SPACE, s[11..]);
            && 11 + 16 <= n <= |s| && s[n-16..n] == "PRIVATE KEY-----" && AllIn(IsUpperOrBlank, s, 11, n - 16)
            <==> m >= 11 && KEY_END <= s[11..][m-11..] && n == 11 + m + 5
  {
    hide *;
    var s', m := s[11..], RunLen(UPPER_SPACE, s[11..]);
    Classes();
    KeyEnd();
    if 27 <= n <= |s| {
      FilledIsAll(UPPER_SPACE, IsUpperOrBlank, s, 11, n - 27);
      assert s[n-16..n] == KEY_END <==> KEY_END <= s'[n-27..];
      if Filled(UPPER_SPACE, n - 27, s') && KEY_END <= s'[n-27..] {
        CapitalsEnd(s', n - 27);
      }
    }
    if m >= 11 {
      RunFilled(UPPER_SPACE, m - 11, s');
    }
  }

  // ---------- numbers between word boundaries ----------

  /** The n characters at the front of s begin and end where a word does. */
  predicate WholeWords(left: bool, s: string, n: nat) {
    n <= |s| && Boundary(left, s) && Boundary(WordBefore(left, s, n), s[n..])
  }

  /** What is left of an expression between two boundaries behind its core. */
  const AT_END: Goal := Then(WordB, Done)

  /** An expression whose matches have one length, between two boundaries. */
  lemma AnchoredFound(core: Pattern, left: bool, s: string, matches: bool, n: nat)
    requires matches ==> n <= |s|
    requires Find(Then(core, AT_END), left, s) == if matches then FindAt(AT_END, left, s, n) else None
    requires LongestAt(AT_END, left, s, n) ==> Longest(Then(core, AT_END), left, s)
    ensures FindOne(Anchored(core), left, s) == if matches && WholeWords(left, s, n) then Some(n) else None
    ensures Longest(Then(Anchored(core), Done), left, s)
  {
    hide *;
    OpenAnchored(core, left, s);
    CatFirst(WordB, Both(core, WordB), Done, left, s);
    BoundaryFirst(Then(Both(core, WordB), Done), left, s);
    CatFirst(core, WordB, Done, left, s);
    if n <= |s| {
      EndFound(left, s, n);
    } else {
      NothingLonger(Then(core, AT_END), left, s);
    }
    WholeWordsIs(left, s, n);
  }

  lemma OpenAnchored(core: Pattern, left: bool, s: string)
    ensures Anchored(core) == Both(WordB, Both(core, WordB)) && AT_END == Then(WordB, Done)
    ensures FindOne(Anchored(core), left, s) == Find(Then(Anchored(core), Done), left, s)
  {
    hide Find;
  }

  lemma WholeWordsIs(left: bool, s: string, n: nat)
    ensures WholeWords(left, s, n) <==>
            n <= |s| && Boundary(left, s) && Boundary(WordBefore(left, s, n), s[n..])
  {
  }

  lemma EndFound(left: bool, s: string, n: nat)
    requires n <= |s|
    ensures FindAt(AT_END, left, s, n) == if Boundary(WordBefore(left, s, n), s[n..]) then Some(n) else None
    ensures LongestAt(AT_END, left, s, n)
  {
    var left', s' := WordBefore(left, s, n), s[n..];
    BoundaryFirst(Done, left', s');
    LongestEnd(left', s', 0);
    AtStart(Done, left', s');
  }

  /** Eleven digits that are a word. */
  lemma TcknFound(left: bool, s: string, n: nat)
    ensures FindOne(Tckn(), left, s) == Some(n) <==> n == 11 && AllIn(IsDigit, s, 0, 11) && WholeWords(left, s, 11)
    ensures Longest(Then(Tckn(), Done), left, s)
  {
    hide *;
    OpenNumbers();
    var core := Times(Of(DIGIT), 11);
    TimesFirst(DIGIT, 11, AT_END, left, s);
    Classes();
    FilledIsAll(DIGIT, IsDigit, s, 0, 11);
    assert s[0..] == s;
    AllInside(IsDigit, s, 0, 11);
    AnchoredFound(core, left, s, AllIn(IsDigit, s, 0, 11), 11);
  }

  lemma OpenNumbers()
    ensures Tckn() == Anchored(Times(Of(DIGIT), 11))
    ensures IbanTr() == Anchored(Both(Literal("TR"), Times(Of(DIGIT), 24)))
    ensures PhoneTr() == Anchored(Both(Optional(Either(Literal("+90"), Literal("0"))),
                                       Both(Literal("5"), Times(Of(DIGIT), 9))))
    ensures CreditCard() == Anchored(Both(Times(CardGroup(), 13), UpTo(CardGroup(), 3)))
    ensures |"TR"| == 2 && |"+90"| == 3 && |"0"| == 1 && |"5"| == 1
  {
    hide Anchored, Times, Literal, Both, Optional, Either, UpTo, CardGroup, Of;
  }

  /** TR and 24 digits that are a word. */
  lemma IbanTrFound(left: bool, s: string, n: nat)
    ensures FindOne(IbanTr(), left, s) == Some(n) <==>
            n == 2 + 24 && "TR" <= s && AllIn(IsDigit, s, 2, 26) && WholeWords(left, s, 26)
    ensures Longest(Then(IbanTr(), Done), left, s)
  {
    hide *;
    OpenNumbers();
    WordThenDigits("TR", 24, AT_END, left, s);
    AllInside(IsDigit, s, 2, 26);
    AnchoredFound(Both(Literal("TR"), Times(Of(DIGIT), 24)), left, s, "TR" <= s && AllIn(IsDigit, s, 2, 26), 26);
  }

  /** A literal and n digits, before anything. */
  lemma WordThenDigits(w: string, n: nat, rest: Goal, left: bool, s: string)
    ensures var k := Then(Both(Literal(w), Times(Of(DIGIT), n)), rest);
            && Find(k, left, s) ==
               (if w <= s && AllIn(IsDigit, s, |w|, |w| + n) then FindAt(rest, left, s, |w| + n) else None)
            && (LongestAt(rest, left, s, |w| + n) ==> Longest(k, left, s))
  {
    hide *;
    var digits := Then(Times(Of(DIGIT), n), rest);
    CatFirst(Literal(w), Times(Of(DIGIT), n), rest, left, s);
    LiteralFirst(w, digits, left, s);
    if w <= s {
      var left', s' := WordBefore(left, s, |w|), s[|w|..];
      HereAt(digits, left, s, |w|);
      TimesFirst(DIGIT, n, rest, left', s');
      Classes();
      FilledIsAll(DIGIT, IsDigit, s, |w|, n);
      AllInside(IsDigit, s, |w|, |w| + n);
      if Filled(DIGIT, n, s') {
        FurtherOn(rest, left, s, |w|, n);
      } else {
        NothingLonger(digits, left', s');
        PlusNone(|w|, None);
      }
    } else {
      NothingLonger(Then(Both(Literal(w), Times(Of(DIGIT), n)), rest), left, s);
    }
  }

  /** A prefix, a 5 and nine digits. */
  predicate PhoneText(s: string, prefix: string, n: nat) {
    n == |prefix| + 10 && prefix + "5" <= s && AllIn(IsDigit, s, |prefix| + 1, n)
  }

  /** 5 and nine digits, with +90, 0 or nothing before it; in front of +90 there is a word. */
  lemma PhoneTrFound(left: bool, s: string, n: nat)
    ensures FindOne(PhoneTr(), left, s) == Some(n) <==>
            (PhoneText(s, "+90", n) || PhoneText(s, "0", n) || PhoneText(s, "", n)) && WholeWords(left, s, n)
    ensures Longest(Then(PhoneTr(), Done), left, s)
  {
    hide *;
    OpenNumbers();
    var prefixes, number := Optional(Either(Literal("+90"), Literal("0"))), Both(Literal("5"), Times(Of(DIGIT), 9));
    var p := PhonePrefix(s);
    PrefixFirst(left, s);
    OnePrefix(s, n);
    PhoneLength(s, p);
    CatFirst(prefixes, number, AT_END, left, s);
    AnchoredFound(Both(prefixes, number), left, s, PhoneText(s, p, |p| + 10), |p| + 10);
  }

  function PhonePrefix(s: string): string {
    if s == "" then "" else if s[0] == '+' then "+90" else if s[0] == '0' then "0" else ""
  }

  lemma OnePrefix(s: string, n: nat)
    ensures var p := PhonePrefix(s);
            PhoneText(s, "+90", n) || PhoneText(s, "0", n) || PhoneText(s, "", n) <==>
            n == |p| + 10 && PhoneText(s, p, |p| + 10)
  {
    hide AllIn;
    assert "+90" + "5" <= s ==> s[0] == '+';
    assert "0" + "5" <= s ==> s[0] == '0';
    assert "" + "5" <= s ==> s[0] == '5';
  }

  lemma PhoneLength(s: string, p: string)
    ensures PhoneText(s, p, |p| + 10) ==> |p| + 10 <= |s|
  {
    AllInside(IsDigit, s, |p| + 1, |p| + 10);
  }

  /** The number behind one of the prefixes. */
  lemma PrefixedNumber(p: string, left: bool, s: string)
    ensures var k := Then(Literal(p), Then(Both(Literal("5"), Times(Of(DIGIT), 9)), AT_END));
            && Find(k, left, s) == (if PhoneText(s, p, |p| + 10) then FindAt(AT_END, left, s, |p| + 10) else None)
            && Longest(k, left, s)
  {
    hide *;
    var number := Then(Both(Literal("5"), Times(Of(DIGIT), 9)), AT_END);
    LiteralFirst(p, number, left, s);
    if p <= s {
      var left', s' := WordBefore(left, s, |p|), s[|p|..];
      HereAt(number, left, s, |p|);
      WordThenDigits("5", 9, AT_END, left', s');
      AllInside(IsDigit, s', 1, 10);
      DigitsFurtherOn(s, p);
      PhoneLength(s, p);
      if PhoneText(s, p, |p| + 10) {
        FurtherOn(AT_END, left, s, |p|, 10);
        EndFound(left, s, |p| + 10);
      } else {
        NothingLonger(number, left', s');
        PlusNone(|p|, None);
      }
    } else {
      NotPrefixed(s, p);
      NothingLonger(Then(Literal(p), number), left, s);
    }
  }

  lemma NotPrefixed(s: string, p: string)
    requires !(p <= s)
    ensures !PhoneText(s, p, |p| + 10)
  {
    assert p + "5" <= s ==> p <= s;
  }

  lemma DigitsFurtherOn(s: string, p: string)
    requires p <= s
    ensures PhoneText(s, p, |p| + 10) <==> "5" <= s[|p|..] && AllIn(IsDigit, s[|p|..], |"5"|, |"5"| + 9)
    ensures |"5"| == 1
  {
    var t := s[|p|..];
    assert p + "5" <= s <==> "5" <= t by { HalvesAppend(p, "5"); }
    assert forall k | 0 <= k < |t| :: t[k] == s[|p| + k];
    if AllIn(IsDigit, t, 1, 10) {
      forall k | |p| + 1 <= k < |p| + 10
        ensures IsDigit(s[k])
      {
        assert IsDigit(t[k - |p|]);
      }
    }
  }

  lemma PrefixFirst(left: bool, s: string)
    ensures var k := Then(Optional(Either(Literal("+90"), Literal("0"))),
                          Then(Both(Literal("5"), Times(Of(DIGIT), 9)), AT_END));
            var p := PhonePrefix(s);
            && Find(k, left, s) == (if PhoneText(s, p, |p| + 10) then FindAt(AT_END, left, s, |p| + 10) else None)
            && Longest(k, left, s)
  {
    hide *;
    var number := Then(Both(Literal("5"), Times(Of(DIGIT), 9)), AT_END);
    PrefixedNumber("+90", left, s);
    PrefixedNumber("0", left, s);
    PrefixedNumber("", left, s);
    OpenPrefixes(s);
    EitherFirst(Literal("+90"), Literal("0"), number, left, s);
    EitherFirst(Either(Literal("+90"), Literal("0")), Literal(""), number, left, s);
  }

  lemma OpenPrefixes(s: string)
    ensures Optional(Either(Literal("+90"), Literal("0"))) == Either(Either(Literal("+90"), Literal("0")), Literal(""))
    ensures forall p | (p == "+90" || p == "0" || p == "") && PhoneText(s, p, |p| + 10) :: p == PhonePrefix(s)
    ensures PhonePrefix(s) == "+90" || PhonePrefix(s) == "0" || PhonePrefix(s) == ""
    ensures "+90" != "0" && "+90" != "" && "0" != ""
  {
    hide AllIn;
    assert "+90" + "5" <= s ==> s[0] == '+';
    assert "0" + "5" <= s ==> s[0] == '0';
    assert "" + "5" <= s ==> s[0] == '5';
  }

  // ---------- addresses and keywords ----------

  /** A name, an at sign, a host up to its first dot, and the longest run behind that; all four greedy and not empty. */
  predicate AddressText(s: string, at: nat, dot: nat, n: nat) {
    && 0 < at && LongestRun(IsMailChar, s, 0, at) && at < |s| && s[at] == '@'
    && at + 1 < dot && LongestRun(IsKeyChar, s, at + 1, dot) && dot < |s| && s[dot] == '.'
    && dot + 1 < n && LongestRun(IsDomainChar, s, dot + 1, n)
  }

  lemma EmailFound(left: bool, s: string, n: nat)
    ensures FindOne(Email(), left, s) == Some(n) <==> exists at: nat, dot: nat :: AddressText(s, at, dot, n)
    ensures Longest(Then(Email(), Done), left, s)
  {
    hide *;
    OpenEmail(left, s);
    MarksOutside();
    WordClasses();
    ThreeRunsFound(MAIL_WORD, '@', DASH_WORD, '.', DOT_DASH_WORD, left, s);
    AddressEnd(MAIL_WORD, DASH_WORD, DOT_DASH_WORD, s, n);
  }

  lemma OpenEmail(left: bool, s: string)
    ensures Email() == Both(AtLeast(Of(MAIL_WORD), 1), Both(Literal(['@']), TwoRuns(DASH_WORD, '.', DOT_DASH_WORD)))
    ensures FindOne(Email(), left, s) == Find(Then(Email(), Done), left, s)
  {
    hide Literal, AtLeast, Of, Both, Find;
    assert "@" == ['@'] && "." == ['.'];
  }

  /** The three runs of an address, for any classes that hold its characters. */
  lemma AddressEnd(name: seq<Range>, host: seq<Range>, domain: seq<Range>, s: string, n: nat)
    requires Holds(name, IsMailChar) && Holds(host, IsKeyChar) && Holds(domain, IsDomainChar)
    ensures EndOfThree(name, '@', host, '.', domain, s) == Some(n) <==>
            exists at: nat, dot: nat :: AddressText(s, at, dot, n)
  {
    hide RunLen, LongestRun, Holds;
    var at := RunLen(name, s);
    RunIsLongest(name, IsMailChar, s, 0);
    assert s[0..] == s;
    if 0 < at < |s| && s[at] == '@' {
      var t := s[at+1..];
      var dot := at + 1 + RunLen(host, t);
      RunIsLongest(host, IsKeyChar, s, at + 1);
      if at + 1 < dot < |s| && s[dot] == '.' {
        RunIsLongest(domain, IsDomainChar, s, dot + 1);
        assert t[dot-at-1] == s[dot] && t[dot-at..] == s[dot+1..];
        assert AddressText(s, at, dot, n) <==> EndOfThree(name, '@', host, '.', domain, s) == Some(n);
      }
    }
  }

  lemma MarksOutside()
    ensures !InClass('@', MAIL_WORD) && !InClass('.', DASH_WORD)
  {
    WordClasses();
    assert !IsMailChar('@') && !IsKeyChar('.');
  }

  // ---------- keywords ----------

  /** The keyword without the blanks around it, in any letter case. */
  lemma KeywordFound(w: string, left: bool, s: string, n: nat)
    ensures FindOne(FoldLiteral(w), left, s) == Some(n) <==> n == |w| && Spells(s, w)
    ensures Longest(Then(FoldLiteral(w), Done), left, s)
  {
    hide *;
    OpenFold(w, left, s);
    FoldFirst(w, Done, left, s);
    LongestEnd(left, s, |w|);
    if Spells(s, w) {
      SpellsLength(s, w);
    }
  }

  lemma OpenFold(w: string, left: bool, s: string)
    ensures FindOne(FoldLiteral(w), left, s) == Find(Then(FoldLiteral(w), Done), left, s)
  {
    hide Find;
  }
}
