/**
 What a masked stream still contains. Each released part is masked by itself, so a
 match can be left only across the end of a part.
*/
module StreamResidue {
  import opened Text
  import opened Regexp
  import opened RegexpLemmas
  import opened Policy
  import opened Masking
  import opened Streaming
  import opened ReportedNames
  import opened Residual
  import opened BuiltinRules
  import opened BuiltinStreaming

  // ---------- matches inside words are gone from every stream ----------

  ghost predicate AllEndSafe(rules: Rules) {
    forall k | 0 <= k < |rules| && Masks(rules[k]) :: EndSafe(rules[k].value.re.value)
  }

  lemma EndSafeFind(r: Pattern, left: bool, s: string)
    requires EndSafe(r)
    ensures var n := FindOne(r, left, s); n.Some? ==> n.value > 0 && (EndsInBreak(s) ==> n.value < |s|)
  {
  }

  /** The break character that ends a part is copied. */
  lemma {:induction false} ReplaceKeepsEnd(r: Pattern, left: bool, after: bool, s: string)
    requires EndSafe(r) && EndsInBreak(s)
    ensures EndsInBreak(ReplaceAll(r, MASK_TOKEN, left, after, s))
    decreases |s|
  {
    hide *;
    EndSafeFind(r, left, s);
    match FindOne(r, left, s)
    case None =>
      EndsNotEmpty(s);
      ReplaceNone(r, MASK_TOKEN, left, after, s);
      if |s| > 1 {
        EndsTail(s, 1);
        ReplaceKeepsEnd(r, IsWord(s[0]), false, s[1..]);
        EndsAppend([s[0]], ReplaceAll(r, MASK_TOKEN, IsWord(s[0]), false, s[1..]));
      } else {
        EndSafeFind(r, IsWord(s[0]), "");
        ReplaceEmpty(r, MASK_TOKEN, IsWord(s[0]), false);
        assert s[1..] == "" && [s[0]] + "" == s;
      }
    case Some(n) =>
      ReplaceSome(r, MASK_TOKEN, left, after, s, n);
      EndsTail(s, n);
      ReplaceKeepsEnd(r, IsWord(s[n-1]), true, s[n..]);
      EndsAppend(MASK_TOKEN, ReplaceAll(r, MASK_TOKEN, IsWord(s[n-1]), true, s[n..]));
  }

  lemma {:induction false} MaskedKeepsEnd(rules: Rules, s: string)
    requires AllEndSafe(rules) && EndsInBreak(s)
    ensures EndsInBreak(Masked(rules, s))
  {
    hide EndSafe, EndsInBreak, ReplaceAll;
    if rules != [] {
      var prefix, last := rules[..|rules|-1], rules[|rules|-1];
      MaskedKeepsEnd(prefix, s);
      if Masks(last) {
        ReplaceKeepsEnd(last.value.re.value, false, false, Masked(prefix, s));
      }
    }
  }

  /** If a pass leaves no match of a, and matches of a stay inside words, no stream has one. */
  lemma {:induction false} StreamLeavesNothing(rules: Rules, a: Pattern, buf: string, deltas: seq<string>)
    requires Local(a) && AllEndSafe(rules) && forall text :: !HasMatch(a, false, Masked(rules, text))
    ensures !HasMatch(a, false, StreamOut(rules, buf, deltas))
    decreases |deltas|
  {
    hide Local, AllEndSafe, HasMatch, Masked, Released, Held, EndsInBreak;
    NothingInPart(rules, a, buf);
    if deltas != [] {
      var s := buf + deltas[0];
      var part, rest := Released(s), StreamOut(rules, Held(s), deltas[1..]);
      StreamLeavesNothing(rules, a, Held(s), deltas[1..]);
      if part == "" {
        assert "" + rest == rest;
      } else {
        ReleasedEnds(s);
        MaskedKeepsEnd(rules, part);
        CutLocal(a, Masked(rules, part), rest);
      }
    }
  }

  lemma NothingInPart(rules: Rules, a: Pattern, s: string)
    requires Local(a) && forall text :: !HasMatch(a, false, Masked(rules, text))
    ensures !HasMatch(a, false, MaskPart(rules, s))
  {
    LocalFind(a, false, "");
    hide Local, Masked, Find;
  }

  lemma CutLocal(a: Pattern, x: string, y: string)
    requires Local(a) && EndsInBreak(x)
    ensures HasMatch(a, false, x + y) <==> HasMatch(a, false, x) || HasMatch(a, false, y)
  {
    LocalFind(a, false, "");
    LocalClean(a, false, x + y);
    hide Local, Clean, HasMatch, FindOne, EndsInBreak;
    HasMatchCut(a, false, x, y);
  }

  // ---------- words that masking leaves alone ----------

  /** Masked word by word, the text does not change. */
  predicate WordsKept(rules: Rules, t: string) {
    t == "" || (Masked(rules, t[..WordLen(t)]) == t[..WordLen(t)] && WordsKept(rules, t[WordLen(t)..]))
  }

  lemma WordsKeptNext(rules: Rules, w: string, rest: string)
    requires w != "" && NoBreak(w[..|w|-1]) && (rest == "" || IsBreak(w[|w|-1]))
    ensures WordsKept(rules, w + rest) <==> Masked(rules, w) == w && WordsKept(rules, rest)
  {
    hide NoBreak, WordLen, Masked;
    WordLenIs(w, rest);
    HalvesAppend(w, rest);
  }

  /** Fed one character at a time, such a text is emitted as it is. */
  lemma {:induction false} SinglesKept(rules: Rules, buf: string, t: string)
    requires NoBreak(buf) && WordsKept(rules, buf + t)
    ensures StreamOut(rules, buf, Singles(t)) == buf + t
    decreases |t|
  {
    hide Masked, WordsKept;
    if t == "" {
      assert buf + t == buf && buf + "" == buf;
      if buf != "" {
        NoBreakPart(buf);
        WordsKeptNext(rules, buf, "");
      }
    } else {
      var s := buf + [t[0]];
      SinglesNext(t);
      Regroup(buf, [t[0]], t[1..]);
      assert [t[0]] + t[1..] == t;
      if IsBreak(t[0]) {
        assert s[..|s|-1] == buf && s[|s|..] == "";
        ReleaseLenUnique(s, |s|);
        assert Released(s) == s;
        WordsKeptNext(rules, s, t[1..]);
        assert "" + t[1..] == t[1..];
        SinglesKept(rules, "", t[1..]);
      } else {
        assert s[0..] == s;
        ReleaseLenUnique(s, 0);
        assert Released(s) == "" && Held(s) == s;
        SinglesKept(rules, s, t[1..]);
        assert "" + (s + t[1..]) == s + t[1..];
      }
    }
  }

  // ---------- the built-in list ----------

  /** No rewriting rule matches, and so a pass changes nothing. */
  lemma MissedIsKept(t: string)
    requires forall k: nat | k < 8 :: !HasMatch(Rewriter(k), false, t)
    ensures Masked(Builtins(), t) == t
  {
    hide *;
    forall k: nat | k < |Builtins()|
      ensures Quiet(Builtins()[k], t)
    {
      QuietIfMissed(k, t);
    }
    QuietFixpoint(Builtins(), t);
  }

  lemma QuietIfMissed(k: nat, t: string)
    requires k < |Builtins()| && (k < 8 ==> !HasMatch(Rewriter(k), false, t))
    ensures Quiet(Builtins()[k], t)
  {
    hide Builtins, Rewriter, HasMatch;
    if k < 8 {
      MaskingPattern(k);
    } else {
      FlagIsQuiet(k, t);
    }
  }

  lemma ShortKept(t: string)
    requires |t| < 12 && forall i | 0 <= i < |t| :: NoDigit(t[i])
    ensures Masked(Builtins(), t) == t
  {
    hide *;
    forall k: nat | k < 8
      ensures !HasMatch(Rewriter(k), false, t)
    {
      ShortMissed(k, t);
    }
    MissedIsKept(t);
  }

  lemma TinyKept(t: string)
    requires |t| < 10
    ensures Masked(Builtins(), t) == t
  {
    hide *;
    forall k: nat | k < 8
      ensures !HasMatch(Rewriter(k), false, t)
    {
      TinyMissed(k, t);
    }
    MissedIsKept(t);
  }

  lemma WordKept(t: string)
    requires t != "" && t[0] == 'a' && forall i | 0 <= i < |t| :: IsWord(t[i]) && Harmless(t[i])
    ensures Masked(Builtins(), t) == t
  {
    hide *;
    forall k: nat | k < 8
      ensures !HasMatch(Rewriter(k), false, t)
    {
      WordMissed(k, t);
    }
    MissedIsKept(t);
  }

  lemma BearerKept()
    ensures WordsKept(Builtins(), BearerText())
  {
    hide Builtins, Masked, WordsKept;
    var w, tail := "bearer ", Repeat('a', 20);
    ShortKept(w);
    WordKept(tail);
    WordsKeptNext(Builtins(), tail, "");
    NothingKept();
    assert tail + "" == tail;
    WordsKeptNext(Builtins(), w, tail);
  }

  lemma NothingKept()
    ensures WordsKept(Builtins(), "")
  {
  }

  lemma KeyKept()
    ensures WordsKept(Builtins(), KeyText())
  {
    hide Builtins, Masked, WordsKept;
    ShortKept(BEGIN);
    ShortKept(KIND);
    ShortKept(KEY);
    NothingKept();
    assert KEY + "" == KEY;
    WordsKeptNext(Builtins(), KEY, "");
    WordsKeptNext(Builtins(), KIND, KEY);
    WordsKeptNext(Builtins(), BEGIN, KIND + KEY);
    assert BEGIN + (KIND + KEY) == KeyText();
  }

  lemma {:induction false} OnesKept(n: nat)
    ensures WordsKept(Builtins(), SpacedOnes(n))
  {
    hide Builtins, Masked, WordsKept;
    NothingKept();
    if n == 1 {
      TinyKept("1");
      WordsKeptNext(Builtins(), "1", "");
      assert "1" + "" == "1";
    } else if n > 1 {
      TinyKept("1 ");
      OnesKept(n - 1);
      WordsKeptNext(Builtins(), "1 ", SpacedOnes(n - 1));
    }
  }

  lemma {:induction false} UncleanMatches(r: Pattern, left: bool, s: string)
    requires !Clean(r, left, s)
    ensures HasMatch(r, left, s)
    decreases |s|
  {
    if FindOne(r, left, s).None? {
      UncleanMatches(r, IsWord(s[0]), s[1..]);
    }
  }

  /** A text that matches the rule and whose words do not change. */
  function Slips(k: nat): string {
    if k == 2 then BearerText() else if k == 3 then KeyText() else CardText()
  }

  lemma SlipsThrough(k: nat)
    requires k == 2 || k == 3 || k == 6
    ensures HasMatch(Rewriter(k), false, StreamOut(Builtins(), "", Singles(Slips(k))))
  {
    hide Builtins, Bearer, PrivateKey, CreditCard, BearerText, KeyText, SpacedOnes;
    hide Clean, HasMatch, WordsKept, StreamOut;
    BearerKept();
    KeyKept();
    OnesKept(13);
    BearerSpans();
    PrivateKeySpans();
    CreditCardSpans();
    UncleanMatches(Rewriter(k), false, Slips(k));
    assert "" + Slips(k) == Slips(k);
    SinglesKept(Builtins(), "", Slips(k));
  }

  lemma BuiltinsEndSafe()
    ensures AllEndSafe(Builtins())
  {
    hide Detectors, Lexicon, EndSafe, WordSafe, Local, Inert, NoWordB, IsAnchored;
    forall k: nat | k < |Builtins()| && Masks(Builtins()[k])
      ensures EndSafe(Builtins()[k].value.re.value)
    {
      BuiltinShape(k);
      DetectorWordSafe(k);
    }
  }

  lemma LocalRewriter(k: nat)
    requires k < 8 && k != 2 && k != 3 && k != 6
    ensures Local(Rewriter(k))
  {
    hide Detectors, Lexicon, Rewriter, EndSafe, WordSafe, Local;
    DetectorWordSafe(k);
    MaskingPattern(k);
  }

  lemma PassLeavesNone(k: nat, text: string)
    requires k < 8
    ensures !HasMatch(Rewriter(k), false, Masked(Builtins(), text))
  {
    hide Builtins, Rewriter, Masked, HasMatch, Inert, NoWordB, IsAnchored;
    BuiltinsLeaveNothing(text);
    MaskingPattern(k);
    BuiltinShape(k);
  }

  /**
   Masked by the built-in rules, no stream contains a match of a rewriting rule,
   however the reply is cut, exactly if the rule is not for bearer tokens, private
   keys or card numbers.
  */
  lemma StreamResidueExactly(k: nat)
    requires k < 8
    ensures (forall buf: string, deltas: seq<string> ::
               !HasMatch(Rewriter(k), false, StreamOut(Builtins(), buf, deltas)))
            <==> k != 2 && k != 3 && k != 6
  {
    hide *;
    if k == 2 || k == 3 || k == 6 {
      SlipsThrough(k);
    } else {
      BuiltinsEndSafe();
      LocalRewriter(k);
      forall text: string
        ensures !HasMatch(Rewriter(k), false, Masked(Builtins(), text))
      {
        PassLeavesNone(k, text);
      }
      forall buf: string, deltas: seq<string>
        ensures !HasMatch(Rewriter(k), false, StreamOut(Builtins(), buf, deltas))
      {
        StreamLeavesNothing(Builtins(), Rewriter(k), buf, deltas);
      }
    }
  }
}
