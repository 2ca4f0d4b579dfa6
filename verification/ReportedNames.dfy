/**
 Which rules a streamed reply reports. The masker looks at one released part at
 a time; a rule that fires on the whole reply may fire on none of them.
*/
module ReportedNames {
  import opened Text
  import opened Regexp
  import opened RegexpLemmas
  import opened Policy
  import opened Masking
  import opened Streaming

  // ---------- a match in a part is a match in the whole ----------

  /** What follows a non-word character can add matches but takes none away. */
  lemma {:induction false} CanExtend(k: Goal, left: bool, s: string, more: string, n: nat)
    requires n <= |s| && !WordBefore(left, s, |s|) && Can(k, left, s, n)
    ensures Can(k, left, s + more, n)
    decreases |s|, Weight(k)
  {
    match k
    case Done =>
    case Then(r, rest) =>
      match r
      case Empty => CanExtend(rest, left, s, more, n);
      case Class(_) =>
        TailAppend(s, more);
        CanExtend(rest, IsWord(s[0]), s[1..], more, n - 1);
      case WordB => CanExtend(rest, left, s, more, n);
      case Cat(a, b) =>
        CatWeight(a, b, rest);
        CanExtend(Then(a, Then(b, rest)), left, s, more, n);
      case Alt(a, b) =>
        if Can(Then(a, rest), left, s, n) {
          CanExtend(Then(a, rest), left, s, more, n);
        } else {
          CanExtend(Then(b, rest), left, s, more, n);
        }
      case Star(a) =>
        if Can(rest, left, s, n) {
          CanExtend(rest, left, s, more, n);
        } else {
          CanExtend(Then(a, Then(r, rest)), left, s, more, n);
        }
  }

  lemma {:induction false} HasMatchExtend(r: Pattern, left: bool, s: string, more: string)
    requires !WordBefore(left, s, |s|) && HasMatch(r, left, s)
    ensures HasMatch(r, left, s + more)
    decreases |s|
  {
    var n := FindOne(r, left, s);
    if n.Some? {
      FindSound(Then(r, Done), left, s);
      CanExtend(Then(r, Done), left, s, more, n.value);
      FindComplete(Then(r, Done), left, s + more, n.value);
    } else {
      TailAppend(s, more);
      HasMatchExtend(r, IsWord(s[0]), s[1..], more);
    }
  }

  /** x comes to an end where the masker may release it. */
  predicate Closed(x: string) {
    x == "" || EndsInBreak(x)
  }

  lemma HasMatchWithin(r: Pattern, x: string, s: string, y: string)
    requires Closed(x) && (y == "" || Closed(s)) && HasMatch(r, false, s)
    ensures HasMatch(r, false, x + s + y)
  {
    if y == "" {
      assert s + y == s;
    } else {
      HasMatchExtend(r, false, s, y);
    }
    Regroup(x, s, y);
    HalvesAppend(x, s + y);
    assert x != "" ==> (x + (s + y))[|x|-1] == x[|x|-1];
    HasMatchLater(r, false, x + (s + y), |x|);
  }

  /** The masks of the parts, put together, are the mask of the whole. */
  lemma MaskedAround(rules: Rules, x: string, s: string, y: string)
    requires AllSolid(rules) && RulesClean(rules, x + s + y) && Closed(x) && (y == "" || Closed(s))
    ensures Masked(rules, x + s + y) == Masked(rules, x) + Masked(rules, s) + Masked(rules, y)
    ensures Closed(Masked(rules, x)) && (Masked(rules, y) == "" || Closed(Masked(rules, s)))
    ensures RulesClean(rules, x) && RulesClean(rules, s) && RulesClean(rules, y)
  {
    MaskedEmpty(rules);
    EmptyClean(rules);
    Regroup(x, s, y);
    if x == "" {
      assert x + (s + y) == s + y;
    } else {
      RulesCut(rules, x, s + y);
    }
    if y == "" {
      assert s + y == s && Masked(rules, s) + "" == Masked(rules, s);
    } else if s == "" {
      assert s + y == y && "" + Masked(rules, y) == Masked(rules, y);
    } else {
      RulesCut(rules, s, y);
    }
    hide Masked;
    Regroup(Masked(rules, x), Masked(rules, s), Masked(rules, y));
  }

  function Earlier(rules: Rules): Rules {
    if rules == [] then [] else rules[..|rules|-1]
  }

  /** The rules before the last one rewrite no span of the text with a break in it. */
  predicate KeptBefore(rules: Rules, text: string) {
    AllSolid(Earlier(rules)) && RulesClean(Earlier(rules), text)
  }

  lemma KeptParts(rules: Rules, x: string, s: string, y: string)
    requires KeptBefore(rules, x + s + y) && Closed(x) && (y == "" || Closed(s))
    ensures KeptBefore(rules, x) && KeptBefore(rules, s) && KeptBefore(rules, y)
  {
    MaskedAround(Earlier(rules), x, s, y);
  }

  /** A rule that fires on a part fires on the whole. */
  lemma FiredWithin(rules: Rules, x: string, s: string, y: string)
    requires KeptBefore(rules, x + s + y) && Closed(x) && (y == "" || Closed(s))
    ensures FiredNames(rules, s) <= FiredNames(rules, x + s + y)
  {
    forall k: nat | k < |rules| && FiresAt(rules, s, k)
      ensures FiresAt(rules, x + s + y, k)
    {
      var before := Earlier(rules)[..k];
      RulesCleanPrefix(Earlier(rules), x + s + y, k);
      assert before == rules[..k];
      MaskedAround(before, x, s, y);
      HasMatchWithin(rules[k].value.re.value, Masked(before, x), Masked(before, s), Masked(before, y));
    }
    hide FiresAt;
  }

  // ---------- word by word ----------

  /** The length of the first word of t together with the break that ends it. */
  function WordLen(t: string): (n: nat)
    ensures n <= |t| && (t != "" ==> n > 0)
  {
    if t == "" then 0 else if IsBreak(t[0]) then 1 else 1 + WordLen(t[1..])
  }

  lemma {:induction false} WordLenIs(w: string, rest: string)
    requires w != "" && NoBreak(w[..|w|-1]) && (rest == "" || IsBreak(w[|w|-1]))
    ensures WordLen(w + rest) == |w|
  {
    TailAppend(w, rest);
    if |w| > 1 {
      assert w[1..][..|w|-2] == w[..|w|-1][1..];
      assert w[..|w|-1][0] == w[0];
      WordLenIs(w[1..], rest);
    } else if rest != "" {
      assert IsBreak(w[0]);
    } else {
      assert (w + rest)[1..] == "";
    }
  }

  lemma {:induction false} WordLenSplits(t: string)
    requires t != ""
    ensures var n := WordLen(t); NoBreak(t[..n-1]) && (n < |t| ==> IsBreak(t[n-1]))
  {
    if !IsBreak(t[0]) && |t| > 1 {
      WordLenSplits(t[1..]);
      var n := WordLen(t);
      assert t[..n-1] == [t[0]] + t[1..][..n-2];
    }
  }

  /** The names that fire inside some word. */
  function WordNames(rules: Rules, t: string): set<string> {
    if t == "" then {} else FiredNames(rules, t[..WordLen(t)]) + WordNames(rules, t[WordLen(t)..])
  }

  lemma WordNamesNext(rules: Rules, w: string, rest: string)
    requires w != "" && NoBreak(w[..|w|-1]) && (rest == "" || IsBreak(w[|w|-1]))
    ensures WordNames(rules, w + rest) == FiredNames(rules, w) + WordNames(rules, rest)
  {
    WordLenIs(w, rest);
    HalvesAppend(w, rest);
    hide FiredNames, WordLen;
  }

  lemma PartsAt(t: string, n: nat)
    requires 0 < n <= |t|
    ensures var w, rest := t[..n], t[n..];
            && t == w + rest && t == "" + w + rest && t == w + rest + ""
            && w[..n-1] == t[..n-1] && w[n-1] == t[n-1]
  {
  }

  lemma {:induction false} WordNamesAppend(rules: Rules, a: string, b: string)
    requires Closed(a)
    ensures WordNames(rules, a + b) == WordNames(rules, a) + WordNames(rules, b)
    decreases |a|
  {
    if a == "" {
      assert a + b == b;
    } else {
      var n := WordLen(a);
      var w, rest := a[..n], a[n..];
      WordLenSplits(a);
      PartsAt(a, n);
      assert rest != "" ==> rest[|rest|-1] == a[|a|-1];
      hide FiredNames, WordLen;
      WordNamesAppend(rules, rest, b);
      Regroup(w, rest, b);
      WordNamesNext(rules, w, rest + b);
      WordNamesNext(rules, w, rest);
    }
  }

  lemma {:induction false} WordNamesFire(rules: Rules, t: string)
    requires KeptBefore(rules, t)
    ensures WordNames(rules, t) <= FiredNames(rules, t)
    decreases |t|
  {
    if t != "" {
      var n := WordLen(t);
      var w, rest := t[..n], t[n..];
      WordLenSplits(t);
      PartsAt(t, n);
      hide FiredNames, WordLen, KeptBefore;
      FiredWithin(rules, "", w, rest);
      KeptParts(rules, "", w, rest);
      if rest != "" {
        FiredWithin(rules, w, rest, "");
      }
      WordNamesFire(rules, rest);
    }
  }

  lemma NoBreakWordNames(rules: Rules, s: string)
    requires NoBreak(s)
    ensures WordNames(rules, s) == PartNames(rules, s)
  {
    if s != "" {
      NoBreakPart(s);
      WordNamesNext(rules, s, "");
      assert s + "" == s;
    }
  }

  lemma NoBreakPart(s: string)
    requires NoBreak(s) && s != ""
    ensures NoBreak(s[..|s|-1])
  {
  }

  // ---------- what a stream can report ----------

  /** However a reply is cut: at least the names that fire inside a word, at most those of the batch pass. */
  lemma {:induction false} NamesBetween(rules: Rules, buf: string, deltas: seq<string>)
    requires KeptBefore(rules, buf + Concat(deltas))
    ensures WordNames(rules, buf + Concat(deltas)) <= StreamNames(rules, buf, deltas)
    ensures StreamNames(rules, buf, deltas) <= FiredNames(rules, buf + Concat(deltas))
    decreases |deltas|
  {
    hide FiredNames, KeptBefore, WordNames;
    if deltas == [] {
      assert buf + Concat(deltas) == buf;
      PartBetween(rules, buf);
    } else {
      var s, rest := buf + deltas[0], Concat(deltas[1..]);
      Regroup(buf, deltas[0], rest);
      HeldRest(s);
      ReleasedEnds(s);
      hide Released, Held;
      var a, b := Released(s), Held(s) + rest;
      Regroup(a, Held(s), rest);
      assert a + b == "" + a + b == a + b + "";
      KeptParts(rules, "", a, b);
      FiredWithin(rules, "", a, b);
      FiredWithin(rules, a, b, "");
      WordNamesAppend(rules, a, b);
      PartBetween(rules, a);
      NamesBetween(rules, Held(s), deltas[1..]);
    }
  }

  lemma PartBetween(rules: Rules, s: string)
    requires KeptBefore(rules, s)
    ensures WordNames(rules, s) <= PartNames(rules, s) <= FiredNames(rules, s)
  {
    WordNamesFire(rules, s);
  }

  lemma {:induction false} SinglesReportWords(rules: Rules, buf: string, t: string)
    requires NoBreak(buf)
    ensures StreamNames(rules, buf, Singles(t)) == WordNames(rules, buf + t)
    decreases |t|
  {
    hide FiredNames, WordNames;
    if t == "" {
      NoBreakWordNames(rules, buf);
      assert buf + t == buf;
    } else {
      var s := buf + [t[0]];
      SinglesNext(t);
      Regroup(buf, [t[0]], t[1..]);
      assert [t[0]] + t[1..] == t;
      if IsBreak(t[0]) {
        assert s[..|s|-1] == buf && s[|s|..] == "";
        ReleaseLenUnique(s, |s|);
        assert Released(s) == s;
        WordNamesNext(rules, s, t[1..]);
        SinglesReportWords(rules, "", t[1..]);
        assert "" + t[1..] == t[1..];
      } else {
        assert s[0..] == s;
        ReleaseLenUnique(s, 0);
        assert Released(s) == "" && Held(s) == s;
        SinglesReportWords(rules, s, t[1..]);
      }
    }
  }

  lemma SinglesNext(t: string)
    requires t != ""
    ensures Singles(t) != [] && Singles(t)[0] == [t[0]] && Singles(t)[1..] == Singles(t[1..])
  {
  }

  /**
   Up to the first rule that rewrites a break, a stream reports the rules of the batch
   pass under every way of cutting the text if and only if each fires inside a word.
  */
  lemma NamesExact(rules: Rules, t: string)
    requires KeptBefore(rules, t)
    ensures (forall deltas: seq<string> | Concat(deltas) == t ::
               StreamNames(rules, "", deltas) == FiredNames(rules, t))
            <==> WordNames(rules, t) == FiredNames(rules, t)
  {
    hide FiredNames, KeptBefore, WordNames, StreamNames;
    assert "" + t == t;
    SinglesReportWords(rules, "", t);
    ConcatSingles(t);
    forall deltas: seq<string> | Concat(deltas) == t
      ensures WordNames(rules, t) <= StreamNames(rules, "", deltas) <= FiredNames(rules, t)
    {
      NamesBetween(rules, "", deltas);
    }
  }
}
