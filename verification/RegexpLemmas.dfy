/** What the policy proofs need to know about the matcher of module Regexp. */
module RegexpLemmas {
  import opened Regexp

  // ---------- the engine finds exactly the spans that match ----------

  lemma {:induction false} FindSound(k: Goal, left: bool, s: string)
    ensures Find(k, left, s).Some? ==> Can(k, left, s, Find(k, left, s).value)
    decreases |s|, Weight(k)
  {
    match k
    case Done =>
    case Then(r, rest) =>
      match r
      case Empty => FindSound(rest, left, s);
      case Class(ranges) => if s != "" { FindSound(rest, IsWord(s[0]), s[1..]); }
      case WordB => FindSound(rest, left, s);
      case Cat(a, b) =>
        CatWeight(a, b, rest);
        FindSound(Then(a, Then(b, rest)), left, s);
      case Alt(a, b) =>
        FindSound(Then(a, rest), left, s);
        FindSound(Then(b, rest), left, s);
      case Star(a) =>
        FindSound(Then(a, Then(r, rest)), left, s);
        FindSound(rest, left, s);
  }

  lemma {:induction false} FindComplete(k: Goal, left: bool, s: string, n: nat)
    requires Can(k, left, s, n)
    ensures n <= |s| && Find(k, left, s).Some?
    decreases |s|, Weight(k)
  {
    match k
    case Done =>
    case Then(r, rest) =>
      match r
      case Empty => FindComplete(rest, left, s, n);
      case Class(ranges) => FindComplete(rest, IsWord(s[0]), s[1..], n - 1);
      case WordB => FindComplete(rest, left, s, n);
      case Cat(a, b) =>
        CatWeight(a, b, rest);
        FindComplete(Then(a, Then(b, rest)), left, s, n);
      case Alt(a, b) =>
        if Can(Then(a, rest), left, s, n) {
          FindComplete(Then(a, rest), left, s, n);
        } else {
          FindComplete(Then(b, rest), left, s, n);
        }
      case Star(a) =>
        if Can(Then(a, Then(r, rest)), left, s, n) {
          FindComplete(Then(a, Then(r, rest)), left, s, n);
        } else {
          FindComplete(rest, left, s, n);
        }
  }

  // ---------- what a span depends on ----------

  predicate NoWordB(r: Regex) {
    match r
    case Empty => true
    case Class(_) => true
    case WordB => false
    case Cat(a, b) => NoWordB(a) && NoWordB(b)
    case Alt(a, b) => NoWordB(a) && NoWordB(b)
    case Star(a) => NoWordB(a)
  }

  ghost predicate GoalNoWordB(k: Goal) {
    k.Then? ==> NoWordB(k.head) && GoalNoWordB(k.rest)
  }

  /** A match looks at its own characters and, for \b, at its two neighbours. */
  lemma {:induction false} CanContext(k: Goal, left: bool, s: string, left': bool, s': string, n: nat)
    requires n <= |s| && n <= |s'| && s[..n] == s'[..n]
    requires GoalNoWordB(k) || (left == left' && WordAt(s, n) == WordAt(s', n))
    ensures Can(k, left, s, n) == Can(k, left', s', n)
    decreases |s|, Weight(k)
  {
    match k
    case Done =>
    case Then(r, rest) =>
      match r
      case Empty => CanContext(rest, left, s, left', s', n);
      case Class(ranges) =>
        if n > 0 {
          assert s[0] == s[..n][0] == s'[..n][0] == s'[0];
          assert s[1..][..n-1] == s[..n][1..] == s'[..n][1..] == s'[1..][..n-1];
          CanContext(rest, IsWord(s[0]), s[1..], IsWord(s'[0]), s'[1..], n - 1);
        }
      case WordB =>
        if n > 0 {
          assert s[0] == s[..n][0] == s'[..n][0] == s'[0];
        }
        CanContext(rest, left, s, left', s', n);
      case Cat(a, b) =>
        CatWeight(a, b, rest);
        CanContext(Then(a, Then(b, rest)), left, s, left', s', n);
      case Alt(a, b) =>
        CanContext(Then(a, rest), left, s, left', s', n);
        CanContext(Then(b, rest), left, s, left', s', n);
      case Star(a) =>
        CanContext(Then(a, Then(r, rest)), left, s, left', s', n);
        CanContext(rest, left, s, left', s', n);
  }

  /**
   Cutting a text after a non-word character hides the matches that run past the
   cut and changes nothing else: a preferred match that ends before the last
   character of `a` stays the preferred match, and none appears where there was none.
  */
  lemma {:induction false} FindTruncated(k: Goal, left: bool, a: string, b: string)
    requires !WordBefore(left, a, |a|)
    ensures Find(k, left, a + b).None? ==> Find(k, left, a).None?
    ensures Find(k, left, a + b).Some? && Find(k, left, a + b).value < |a| ==>
              Find(k, left, a) == Find(k, left, a + b)
    decreases |a|, Weight(k)
  {
    match k
    case Done =>
    case Then(r, rest) =>
      match r
      case Empty => FindTruncated(rest, left, a, b);
      case Class(ranges) =>
        if a != "" {
          assert (a + b)[1..] == a[1..] + b;
          FindTruncated(rest, IsWord(a[0]), a[1..], b);
        }
      case WordB => FindTruncated(rest, left, a, b);
      case Cat(x, y) =>
        CatWeight(x, y, rest);
        FindTruncated(Then(x, Then(y, rest)), left, a, b);
      case Alt(x, y) =>
        FindTruncated(Then(x, rest), left, a, b);
        FindTruncated(Then(y, rest), left, a, b);
      case Star(x) =>
        FindTruncated(Then(x, Then(r, rest)), left, a, b);
        FindTruncated(rest, left, a, b);
  }

  // ---------- sequencing ----------

  function Append(k: Goal, l: Goal): Goal {
    match k
    case Done => l
    case Then(r, rest) => Then(r, Append(rest, l))
  }

  ghost predicate Splits(k: Goal, l: Goal, left: bool, s: string, n: nat, m: nat) {
    m <= n && m <= |s| && Can(k, left, s, m) && Can(l, WordBefore(left, s, m), s[m..], n - m)
  }

  lemma {:induction false} CanAppend(k: Goal, l: Goal, left: bool, s: string, n: nat)
    returns (m: nat)
    requires Can(Append(k, l), left, s, n)
    ensures Splits(k, l, left, s, n, m)
    decreases |s|, Weight(k)
  {
    match k
    case Done =>
      m := 0;
      assert s[0..] == s;
    case Then(r, rest) =>
      match r
      case Empty => m := CanAppend(rest, l, left, s, n);
      case Class(ranges) =>
        var m' := CanAppend(rest, l, IsWord(s[0]), s[1..], n - 1);
        m := m' + 1;
        assert s[1..][m'..] == s[m..];
      case WordB => m := CanAppend(rest, l, left, s, n);
      case Cat(a, b) =>
        CatWeight(a, b, rest);
        m := CanAppend(Then(a, Then(b, rest)), l, left, s, n);
      case Alt(a, b) =>
        if Can(Append(Then(a, rest), l), left, s, n) {
          m := CanAppend(Then(a, rest), l, left, s, n);
        } else {
          m := CanAppend(Then(b, rest), l, left, s, n);
        }
      case Star(a) =>
        if Can(Append(Then(a, Then(r, rest)), l), left, s, n) {
          m := CanAppend(Then(a, Then(r, rest)), l, left, s, n);
        } else {
          m := CanAppend(rest, l, left, s, n);
        }
  }

  lemma {:induction false} CanAppendBack(k: Goal, l: Goal, left: bool, s: string, n: nat, m: nat)
    requires Splits(k, l, left, s, n, m)
    ensures Can(Append(k, l), left, s, n)
    decreases |s|, Weight(k)
  {
    match k
    case Done => assert s[0..] == s;
    case Then(r, rest) =>
      match r
      case Empty => CanAppendBack(rest, l, left, s, n, m);
      case Class(ranges) =>
        assert s[1..][m-1..] == s[m..];
        CanAppendBack(rest, l, IsWord(s[0]), s[1..], n - 1, m - 1);
      case WordB => CanAppendBack(rest, l, left, s, n, m);
      case Cat(a, b) =>
        CatWeight(a, b, rest);
        assert Append(Then(b, rest), l) == Then(b, Append(rest, l));
        CanAppendBack(Then(a, Then(b, rest)), l, left, s, n, m);
      case Alt(a, b) =>
        if Can(Then(a, rest), left, s, m) {
          CanAppendBack(Then(a, rest), l, left, s, n, m);
        } else {
          CanAppendBack(Then(b, rest), l, left, s, n, m);
        }
      case Star(a) =>
        if Can(Then(a, Then(r, rest)), left, s, m) {
          CanAppendBack(Then(a, Then(r, rest)), l, left, s, n, m);
        } else {
          CanAppendBack(rest, l, left, s, n, m);
        }
  }

  // ---------- syntactic bounds ----------

  /** No class of r contains c. */
  predicate Avoids(r: Regex, c: char) {
    match r
    case Empty => true
    case Class(ranges) => !InClass(c, ranges)
    case WordB => true
    case Cat(a, b) => Avoids(a, c) && Avoids(b, c)
    case Alt(a, b) => Avoids(a, c) && Avoids(b, c)
    case Star(a) => Avoids(a, c)
  }

  ghost predicate GoalAvoids(k: Goal, c: char) {
    k.Then? ==> Avoids(k.head, c) && GoalAvoids(k.rest, c)
  }

  lemma {:induction false} CanAvoids(k: Goal, left: bool, s: string, n: nat, c: char)
    requires n <= |s| && GoalAvoids(k, c) && Can(k, left, s, n)
    ensures c !in s[..n]
    decreases |s|, Weight(k)
  {
    match k
    case Done =>
    case Then(r, rest) =>
      match r
      case Empty => CanAvoids(rest, left, s, n, c);
      case Class(ranges) =>
        CanAvoids(rest, IsWord(s[0]), s[1..], n - 1, c);
        assert s[..n] == [s[0]] + s[1..][..n-1];
      case WordB => CanAvoids(rest, left, s, n, c);
      case Cat(a, b) =>
        CatWeight(a, b, rest);
        CanAvoids(Then(a, Then(b, rest)), left, s, n, c);
      case Alt(a, b) =>
        if Can(Then(a, rest), left, s, n) {
          CanAvoids(Then(a, rest), left, s, n, c);
        } else {
          CanAvoids(Then(b, rest), left, s, n, c);
        }
      case Star(a) =>
        if Can(Then(a, Then(r, rest)), left, s, n) {
          CanAvoids(Then(a, Then(r, rest)), left, s, n, c);
        } else {
          CanAvoids(rest, left, s, n, c);
        }
  }

  function MinLen(r: Regex): nat {
    match r
    case Empty => 0
    case Class(_) => 1
    case WordB => 0
    case Cat(a, b) => MinLen(a) + MinLen(b)
    case Alt(a, b) => if MinLen(a) <= MinLen(b) then MinLen(a) else MinLen(b)
    case Star(_) => 0
  }

  ghost function GoalMinLen(k: Goal): nat {
    if k.Done? then 0 else MinLen(k.head) + GoalMinLen(k.rest)
  }

  lemma {:induction false} CanMinLen(k: Goal, left: bool, s: string, n: nat)
    requires Can(k, left, s, n)
    ensures GoalMinLen(k) <= n
    decreases |s|, Weight(k)
  {
    match k
    case Done =>
    case Then(r, rest) =>
      match r
      case Empty => CanMinLen(rest, left, s, n);
      case Class(ranges) => CanMinLen(rest, IsWord(s[0]), s[1..], n - 1);
      case WordB => CanMinLen(rest, left, s, n);
      case Cat(a, b) =>
        CatWeight(a, b, rest);
        CanMinLen(Then(a, Then(b, rest)), left, s, n);
      case Alt(a, b) =>
        if Can(Then(a, rest), left, s, n) {
          CanMinLen(Then(a, rest), left, s, n);
        } else {
          CanMinLen(Then(b, rest), left, s, n);
        }
      case Star(a) =>
        if Can(Then(a, Then(r, rest)), left, s, n) {
          CanMinLen(Then(a, Then(r, rest)), left, s, n);
        } else {
          CanMinLen(rest, left, s, n);
        }
  }

  /** A match further on is a match. */
  lemma {:induction false} HasMatchLater(a: Pattern, left: bool, s: string, n: nat)
    requires n <= |s| && HasMatch(a, WordBefore(left, s, n), s[n..])
    ensures HasMatch(a, left, s)
    decreases n
  {
    if n == 0 {
      assert s[0..] == s;
    } else {
      assert s[1..][n-1..] == s[n..];
      HasMatchLater(a, IsWord(s[0]), s[1..], n - 1);
    }
  }

  /** There is a match exactly if there is one at some offset, the end of the text included. */
  lemma {:induction false} HasMatchExactly(r: Pattern, left: bool, s: string)
    ensures HasMatch(r, left, s) <==> exists k: nat :: k <= |s| && FindOne(r, WordBefore(left, s, k), s[k..]).Some?
    decreases |s|
  {
    hide FindOne;
    assert s[0..] == s;
    if FindOne(r, left, s).Some? {
      assert FindOne(r, WordBefore(left, s, 0), s[0..]).Some?;
    } else if s != "" {
      HasMatchExactly(r, IsWord(s[0]), s[1..]);
      forall k: nat | k < |s|
        ensures FindOne(r, WordBefore(IsWord(s[0]), s[1..], k), s[1..][k..]) ==
                FindOne(r, WordBefore(left, s, k + 1), s[k+1..])
      {
        assert s[1..][k..] == s[k+1..];
      }
      if k: nat :| k <= |s| && FindOne(r, WordBefore(left, s, k), s[k..]).Some? {
        assert FindOne(r, WordBefore(IsWord(s[0]), s[1..], k - 1), s[1..][k-1..]).Some?;
      }
    }
  }

  // ---------- texts without a match ----------

  lemma LongerThan(r: Pattern, left: bool, s: string, n: nat)
    requires Can(Then(r, Done), left, s, n)
    ensures n >= MinLen(r)
  {
    CanMinLen(Then(r, Done), left, s, n);
    assert GoalMinLen(Then(r, Done)) == MinLen(r);
  }

  /** No match of r begins with c. */
  predicate CannotStart(r: Regex, c: char) {
    match r
    case Empty => false
    case Class(ranges) => !InClass(c, ranges)
    case WordB => false
    case Cat(a, b) => CannotStart(a, c) || (Passes(a, c) && CannotStart(b, c))
    case Alt(a, b) => CannotStart(a, c) && CannotStart(b, c)
    case Star(_) => false
  }

  /** Before c, r matches at most the empty text. */
  predicate Passes(r: Regex, c: char) {
    match r
    case Empty => true
    case Class(ranges) => !InClass(c, ranges)
    case WordB => true
    case Cat(a, b) => CannotStart(a, c) || (Passes(a, c) && Passes(b, c))
    case Alt(a, b) => Passes(a, c) && Passes(b, c)
    case Star(a) => CannotStart(a, c)
  }

  lemma {:induction false} NoStart(r: Pattern, rest: Goal, left: bool, s: string, n: nat)
    requires s != "" && CannotStart(r, s[0])
    ensures !Can(Then(r, rest), left, s, n)
    decreases r, 0
  {
    match r
    case Class(_) =>
    case Cat(a, b) =>
      CatWeight(a, b, rest);
      if CannotStart(a, s[0]) {
        NoStart(a, Then(b, rest), left, s, n);
      } else {
        NoStart(b, rest, left, s, n);
        Passed(a, Then(b, rest), left, s, n);
      }
    case Alt(a, b) =>
      NoStart(a, rest, left, s, n);
      NoStart(b, rest, left, s, n);
    case _ =>
  }

  lemma {:induction false} Passed(r: Pattern, rest: Goal, left: bool, s: string, n: nat)
    requires s != "" && Passes(r, s[0])
    ensures Can(Then(r, rest), left, s, n) ==> Can(rest, left, s, n)
    decreases r, 1
  {
    match r
    case Cat(a, b) =>
      CatWeight(a, b, rest);
      if CannotStart(a, s[0]) {
        NoStart(a, Then(b, rest), left, s, n);
      } else {
        Passed(a, Then(b, rest), left, s, n);
        Passed(b, rest, left, s, n);
      }
    case Alt(a, b) =>
      Passed(a, rest, left, s, n);
      Passed(b, rest, left, s, n);
    case Star(a) => NoStart(a, Then(r, rest), left, s, n);
    case _ =>
  }

  lemma {:induction false} NeverStarts(r: Pattern, left: bool, s: string)
    requires MinLen(r) > 0 && forall k | 0 <= k < |s| :: CannotStart(r, s[k])
    ensures !HasMatch(r, left, s)
    decreases |s|
  {
    FindSound(Then(r, Done), left, s);
    var n := FindOne(r, left, s);
    if n.Some? {
      LongerThan(r, left, s, n.value);
      NoStart(r, Done, left, s, n.value);
    }
    if s != "" {
      NeverStarts(r, IsWord(s[0]), s[1..]);
    }
  }
}
