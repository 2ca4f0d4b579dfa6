/**
 What a rewriting rule leaves of a text: the stretches between the spans it rewrites.
 Seen from inside a stretch, the token on either side looks like the edge of a text.
*/
module Stretches {
  import opened Wrappers
  import opened Text
  import opened Regexp
  import opened RegexpLemmas
  import opened Policy

  /** The stretches that ReplaceAll copies, with a token between any two of them. */
  function Gaps(r: Pattern, left: bool, after: bool, s: string): (gaps: seq<string>)
    ensures |gaps| > 0
    decreases |s|, 1
  {
    var n := FindOne(r, left, s);
    if n.Some? && n.value > 0 then [""] + Gaps(r, IsWord(s[n.value-1]), true, s[n.value..])
    else if n.Some? && !after then [""] + Copied(r, s)
    else Copied(r, s)
  }

  /** The same from a position whose character is copied. */
  function Copied(r: Pattern, s: string): (gaps: seq<string>)
    ensures |gaps| > 0
    decreases |s|, 0
  {
    if s == "" then [""] else Prepend(s[0], Gaps(r, IsWord(s[0]), false, s[1..]))
  }

  function Joined(gaps: seq<string>): string
    requires |gaps| > 0
  {
    if |gaps| == 1 then gaps[0] else gaps[0] + MASK_TOKEN + Joined(gaps[1..])
  }

  lemma JoinedPrepend(c: char, gaps: seq<string>)
    requires |gaps| > 0
    ensures Joined(Prepend(c, gaps)) == [c] + Joined(gaps)
  {
    assert Prepend(c, gaps)[1..] == gaps[1..];
    if |gaps| > 1 {
      Regroup([c], gaps[0], MASK_TOKEN);
      Regroup([c], gaps[0] + MASK_TOKEN, Joined(gaps[1..]));
    }
  }

  lemma JoinedSpan(gaps: seq<string>)
    requires |gaps| > 0
    ensures Joined([""] + gaps) == MASK_TOKEN + Joined(gaps)
  {
    TailAppend([""], gaps);
    assert "" + MASK_TOKEN == MASK_TOKEN;
  }

  lemma {:induction false} ReplaceIsJoined(r: Pattern, left: bool, after: bool, s: string)
    ensures ReplaceAll(r, MASK_TOKEN, left, after, s) == Joined(Gaps(r, left, after, s))
    decreases |s|
  {
    hide FindOne, Joined, Prepend;
    var n := FindOne(r, left, s);
    if n.Some? && n.value > 0 {
      ReplaceIsJoined(r, IsWord(s[n.value-1]), true, s[n.value..]);
      JoinedSpan(Gaps(r, IsWord(s[n.value-1]), true, s[n.value..]));
    } else {
      JoinedEmpty();
      if s != "" {
        ReplaceIsJoined(r, IsWord(s[0]), false, s[1..]);
        JoinedPrepend(s[0], Gaps(r, IsWord(s[0]), false, s[1..]));
      }
      JoinedSpan(Copied(r, s));
    }
  }

  lemma JoinedEmpty()
    ensures Joined([""]) == ""
  {
  }

  // ---------- exactly the matches, from left to right ----------

  /** The engine finds a match at offset k; an empty one does not count where the one before it has just ended. */
  predicate MatchAt(r: Pattern, left: bool, ended: bool, s: string, k: nat)
    requires k <= |s|
  {
    var n := FindOne(r, WordBefore(left, s, k), s[k..]);
    n.Some? && (n.value > 0 || k > 0 || !ended)
  }

  ghost predicate NoMatchBefore(r: Pattern, left: bool, ended: bool, s: string, n: nat)
    requires n <= |s| + 1
  {
    forall k | 0 <= k < n :: !MatchAt(r, left, ended, s, k)
  }

  /** s begins with the gap, and with the first match behind it. */
  ghost predicate FirstMatch(r: Pattern, left: bool, ended: bool, s: string, gap: string, span: string) {
    var p, q := |gap|, |gap| + |span|;
    && q <= |s| && gap == s[..p] && span == s[p..q]
    && NoMatchBefore(r, left, ended, s, p) && MatchAt(r, left, ended, s, p)
    && FindOne(r, WordBefore(left, s, p), s[p..]) == Some(|span|)
  }

  /** The spans are the matches of r in s, each the first behind the one before it; the gaps lie between them. */
  ghost predicate Alternate(r: Pattern, left: bool, ended: bool, s: string, gaps: seq<string>, spans: seq<string>)
    decreases |spans|
  {
    && |gaps| == |spans| + 1
    && if spans == [] then gaps[0] == s && NoMatchBefore(r, left, ended, s, |s| + 1)
       else
         var q := |gaps[0]| + |spans[0]|;
         && FirstMatch(r, left, ended, s, gaps[0], spans[0])
         && Alternate(r, WordBefore(left, s, q), true, s[q..], gaps[1..], spans[1..])
  }

  /** A character at which no match begins belongs to the gap. */
  lemma AlternateCopy(r: Pattern, left: bool, ended: bool, s: string, gaps: seq<string>, spans: seq<string>)
    requires s != "" && !MatchAt(r, left, ended, s, 0)
    requires Alternate(r, IsWord(s[0]), false, s[1..], gaps, spans)
    ensures Alternate(r, left, ended, s, Prepend(s[0], gaps), spans)
  {
    hide FindOne, MatchAt, NoMatchBefore, FirstMatch, WordBefore;
    var t, more := s[1..], Prepend(s[0], gaps);
    assert more[1..] == gaps[1..] && more[0] == [s[0]] + gaps[0];
    if spans == [] {
      assert [s[0]] + t == s;
      NoMatchShift(r, left, ended, s, |s|);
    } else {
      var q := |gaps[0]| + |spans[0]|;
      FirstMatchShift(r, left, ended, s, gaps[0], spans[0]);
      WordShift(left, s, q);
    }
  }

  lemma WordShift(left: bool, s: string, k: nat)
    requires k < |s|
    ensures WordBefore(left, s, k + 1) == WordBefore(IsWord(s[0]), s[1..], k) && s[k+1..] == s[1..][k..]
  {
  }

  lemma NoMatchShift(r: Pattern, left: bool, ended: bool, s: string, n: nat)
    requires s != "" && !MatchAt(r, left, ended, s, 0) && n <= |s|
    requires NoMatchBefore(r, IsWord(s[0]), false, s[1..], n)
    ensures NoMatchBefore(r, left, ended, s, n + 1)
  {
    hide FindOne;
    forall k | 1 <= k < n + 1
      ensures !MatchAt(r, left, ended, s, k)
    {
      WordShift(left, s, k - 1);
      assert !MatchAt(r, IsWord(s[0]), false, s[1..], k - 1);
    }
  }

  lemma FirstMatchShift(r: Pattern, left: bool, ended: bool, s: string, gap: string, span: string)
    requires s != "" && !MatchAt(r, left, ended, s, 0)
    requires FirstMatch(r, IsWord(s[0]), false, s[1..], gap, span)
    ensures FirstMatch(r, left, ended, s, [s[0]] + gap, span) && |gap| + |span| < |s|
  {
    hide FindOne, NoMatchBefore, WordBefore;
    var t, p, q := s[1..], |gap|, |gap| + |span|;
    NoMatchShift(r, left, ended, s, p);
    WordShift(left, s, p);
    assert s[..p+1] == [s[0]] + t[..p] && s[p+1..q+1] == t[p..q];
  }

  /** The same behind a match, and at the end of the text. */
  lemma AlternateSpan(r: Pattern, left: bool, ended: bool, s: string, n: nat, gaps: seq<string>, spans: seq<string>)
    requires FindOne(r, left, s) == Some(n) && n <= |s| && (n > 0 || !ended)
    requires Alternate(r, WordBefore(left, s, n), true, s[n..], gaps, spans)
    ensures Alternate(r, left, ended, s, [""] + gaps, [s[..n]] + spans)
  {
    hide FindOne;
    TailAppend([""], gaps);
    TailAppend([s[..n]], spans);
    assert s[0..] == s;
  }

  lemma AlternateEnd(r: Pattern, left: bool, ended: bool, s: string)
    requires s == "" && !MatchAt(r, left, ended, s, 0)
    ensures Alternate(r, left, ended, s, [""], [])
  {
  }

  lemma MatchAtStart(r: Pattern, left: bool, ended: bool, s: string)
    ensures var n := FindOne(r, left, s); MatchAt(r, left, ended, s, 0) <==> n.Some? && (n.value > 0 || !ended)
  {
    assert s[0..] == s;
  }

  /** ReplaceAll copies what lies between the matches, and writes the token for each match. */
  lemma {:induction false} ReplaceExactly(r: Pattern, left: bool, ended: bool, s: string)
    returns (spans: seq<string>)
    ensures Alternate(r, left, ended, s, Gaps(r, left, ended, s), spans)
    ensures ReplaceAll(r, MASK_TOKEN, left, ended, s) == Joined(Gaps(r, left, ended, s))
    decreases |s|
  {
    hide FindOne, Joined, ReplaceAll, Alternate, MatchAt;
    ReplaceIsJoined(r, left, ended, s);
    MatchAtStart(r, left, ended, s);
    MatchAtStart(r, left, true, s);
    var n := FindOne(r, left, s);
    if n.Some? && n.value > 0 {
      spans := ReplaceExactly(r, IsWord(s[n.value-1]), true, s[n.value..]);
      AlternateSpan(r, left, ended, s, n.value, Gaps(r, IsWord(s[n.value-1]), true, s[n.value..]), spans);
      spans := [s[..n.value]] + spans;
    } else {
      var inserts := n.Some? && !ended;
      if s == "" {
        spans := [];
        AlternateEnd(r, left, ended || inserts, s);
      } else {
        spans := ReplaceExactly(r, IsWord(s[0]), false, s[1..]);
        AlternateCopy(r, left, ended || inserts, s, Gaps(r, IsWord(s[0]), false, s[1..]), spans);
      }
      if inserts {
        assert s[0..] == s;
        AlternateSpan(r, left, ended, s, 0, Copied(r, s), spans);
        spans := [""] + spans;
      }
    }
  }

  // ---------- a character that no match contains ----------

  /** Such a character, if it is no word character, cuts a text in two as far as the matches go. */
  lemma {:induction false} CutAt(a: Pattern, c: char, left: bool, u: string, w: string)
    requires Avoids(a, c) && !IsWord(c) && MinLen(a) > 0
    ensures HasMatch(a, left, u + [c] + w) <==> HasMatch(a, left, u) || HasMatch(a, false, w)
    decreases |u|
  {
    var s := u + [c] + w;
    FindAtCut(a, c, left, u, w);
    if u == "" {
      assert s[0] == c && s[1..] == w;
    } else {
      assert s[0] == u[0] && s[1..] == u[1..] + [c] + w;
      CutAt(a, c, IsWord(u[0]), u[1..], w);
    }
  }

  /** A match that begins before the cut ends before it. */
  lemma FindAtCut(a: Pattern, c: char, left: bool, u: string, w: string)
    requires Avoids(a, c) && !IsWord(c) && MinLen(a) > 0
    ensures FindOne(a, left, u + [c] + w).Some? <==> FindOne(a, left, u).Some?
    ensures u == "" ==> FindOne(a, left, u).None?
  {
    var k, s := Then(a, Done), u + [c] + w;
    FindSound(k, left, s);
    FindSound(k, left, u);
    var n, m := FindOne(a, left, s), FindOne(a, left, u);
    assert GoalMinLen(k) == MinLen(a);
    if n.Some? {
      CanMinLen(k, left, s, n.value);
      if n.value > |u| {
        InPrefix(s, n.value, |u|);
      }
      CanAvoids(k, left, s, n.value, c);
      SameContext(u, c, w, n.value);
      CanContext(k, left, s, left, u, n.value);
      FindComplete(k, left, u, n.value);
    }
    if m.Some? {
      CanMinLen(k, left, u, m.value);
      SameContext(u, c, w, m.value);
      CanContext(k, left, u, left, s, m.value);
      FindComplete(k, left, s, m.value);
    }
  }

  lemma SameContext(u: string, c: char, w: string, n: nat)
    requires n <= |u| && !IsWord(c)
    ensures var s := u + [c] + w; n <= |s| && s[..n] == u[..n] && WordAt(s, n) == WordAt(u, n)
  {
  }

  // ---------- matches in the rewritten text ----------

  /** Matches of a contain no bracket, are not empty and are not found in the token. */
  predicate TokenSafe(a: Pattern) {
    && Avoids(a, '[') && Avoids(a, ']')
    && MinLen(a) > 0
    && !HasMatch(a, false, MASK_TOKEN)
  }

  lemma {:induction false} TooShort(a: Pattern, left: bool, s: string)
    requires |s| < MinLen(a)
    ensures !HasMatch(a, left, s)
    decreases |s|
  {
    FindSound(Then(a, Done), left, s);
    assert GoalMinLen(Then(a, Done)) == MinLen(a);
    var n := FindOne(a, left, s);
    if n.Some? {
      CanMinLen(Then(a, Done), left, s, n.value);
    }
    if s != "" {
      TooShort(a, IsWord(s[0]), s[1..]);
    }
  }

  /** An expression for at least seven characters does not match inside the token. */
  lemma LongIsTokenSafe(a: Pattern)
    requires Avoids(a, '[') && Avoids(a, ']') && MinLen(a) >= 7
    ensures TokenSafe(a)
  {
    assert MASK_TOKEN == "" + ['['] + "MASKED]" && "MASKED]" == "MASKED" + [']'] + "";
    CutAt(a, '[', false, "", "MASKED]");
    CutAt(a, ']', false, "MASKED", "");
    TooShort(a, false, "");
    TooShort(a, false, "MASKED");
  }

  lemma TokenCuts(a: Pattern, left: bool, u: string, w: string)
    requires TokenSafe(a)
    ensures HasMatch(a, left, u + MASK_TOKEN + w) <==> HasMatch(a, left, u) || HasMatch(a, false, w)
  {
    hide HasMatch, Avoids, MinLen;
    assert MASK_TOKEN == "" + ['['] + "MASKED]" && "MASKED]" == "MASKED" + [']'] + "";
    CutAt(a, '[', false, "", "MASKED]");
    CutAt(a, ']', false, "MASKED", "");
    assert u + MASK_TOKEN + w == u + ['['] + ("MASKED" + [']'] + w);
    CutAt(a, '[', left, u, "MASKED" + [']'] + w);
    CutAt(a, ']', false, "MASKED", w);
  }

  /** a matches in none of the stretches; the first has `left` before it. */
  predicate QuietIn(a: Pattern, left: bool, gaps: seq<string>)
    requires |gaps| > 0
  {
    !HasMatch(a, left, gaps[0]) && forall k | 1 <= k < |gaps| :: !HasMatch(a, false, gaps[k])
  }

  lemma QuietInNext(a: Pattern, left: bool, gaps: seq<string>)
    requires |gaps| > 1
    ensures QuietIn(a, left, gaps) <==> !HasMatch(a, left, gaps[0]) && QuietIn(a, false, gaps[1..])
  {
    hide HasMatch;
    assert forall k | 1 <= k < |gaps| :: gaps[k] == gaps[1..][k-1];
  }

  lemma {:induction false} JoinedQuiet(a: Pattern, left: bool, gaps: seq<string>)
    requires TokenSafe(a) && |gaps| > 0
    ensures !HasMatch(a, left, Joined(gaps)) <==> QuietIn(a, left, gaps)
    decreases |gaps|
  {
    hide HasMatch, TokenSafe;
    if |gaps| > 1 {
      QuietInNext(a, left, gaps);
      JoinedQuiet(a, false, gaps[1..]);
      TokenCuts(a, left, gaps[0], Joined(gaps[1..]));
    }
  }

  /**
   After any rewriting rule r, a pattern that keeps off the token matches if and only
   if it matches in one of the stretches r leaves, each taken as a text of its own.
  */
  lemma ResidueExactly(a: Pattern, r: Pattern, s: string)
    requires TokenSafe(a)
    ensures HasMatch(a, false, ReplaceAll(r, MASK_TOKEN, false, false, s)) <==>
            exists gap | gap in Gaps(r, false, false, s) :: HasMatch(a, false, gap)
  {
    hide HasMatch, ReplaceAll, TokenSafe, Joined;
    var gaps := Gaps(r, false, false, s);
    ReplaceIsJoined(r, false, false, s);
    JoinedQuiet(a, false, gaps);
    forall k | 0 <= k < |gaps|
      ensures gaps[k] in gaps
    {
    }
  }
}
