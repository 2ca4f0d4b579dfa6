/**
 The part of Go's regexp engine that the content policy uses: leftmost-first
 matching with ASCII word boundaries, and ReplaceAllString.

 A position inside a text is given by the rest of the text and by one bit saying
 whether the character before it is a word character (false at the text edge).
*/
module Regexp {
  import opened Wrappers

  datatype Range = Range(lo: char, hi: char)

  /** Star is greedy and Alt prefers its left side. */
  datatype Regex =
    | Empty
    | Class(ranges: seq<Range>)
    | WordB
    | Cat(first: Regex, second: Regex)
    | Alt(left: Regex, right: Regex)
    | Star(body: Regex)

  predicate InClass(c: char, ranges: seq<Range>) {
    exists k | 0 <= k < |ranges| :: ranges[k].lo <= c <= ranges[k].hi
  }

  predicate IsWord(c: char) {
    '0' <= c <= '9' || 'A' <= c <= 'Z' || 'a' <= c <= 'z' || c == '_'
  }

  /** Could r match without consuming anything? */
  predicate Nullable(r: Regex) {
    match r
    case Empty => true
    case Class(_) => false
    case WordB => true
    case Cat(a, b) => Nullable(a) && Nullable(b)
    case Alt(a, b) => Nullable(a) || Nullable(b)
    case Star(_) => true
  }

  /** Every repeated body consumes at least one character. */
  predicate WellFormed(r: Regex) {
    match r
    case Empty => true
    case Class(_) => true
    case WordB => true
    case Cat(a, b) => WellFormed(a) && WellFormed(b)
    case Alt(a, b) => WellFormed(a) && WellFormed(b)
    case Star(a) => WellFormed(a) && !Nullable(a)
  }

  type Pattern = r: Regex | WellFormed(r) witness Empty

  /** What is still to be matched, in order. */
  datatype Goal = Done | Then(head: Pattern, rest: Goal)

  function Size(r: Regex): nat {
    match r
    case Empty => 1
    case Class(_) => 1
    case WordB => 1
    case Cat(a, b) => 1 + Size(a) + Size(b)
    case Alt(a, b) => 1 + Size(a) + Size(b)
    case Star(a) => 1 + Size(a)
  }

  /** Bounds the steps that can be taken before a character is consumed. */
  function Weight(k: Goal): nat {
    match k
    case Done => 0
    case Then(r, rest) => Size(r) + if Nullable(r) then Weight(rest) else 0
  }

  lemma CatWeight(a: Pattern, b: Pattern, rest: Goal)
    ensures Weight(Then(a, Then(b, rest))) < Weight(Then(Cat(a, b), rest))
  {
    assert Weight(Then(b, rest)) == Size(b) + if Nullable(b) then Weight(rest) else 0;
  }

  /** Is the character at offset n a word character (false past the end)? */
  predicate WordAt(s: string, n: nat) {
    n < |s| && IsWord(s[n])
  }

  /** Is the character just before offset n a word character? */
  predicate WordBefore(left: bool, s: string, n: nat)
    requires n <= |s|
  {
    if n == 0 then left else IsWord(s[n-1])
  }

  predicate Boundary(left: bool, s: string) {
    left != WordAt(s, 0)
  }

  // ---------- the backtracking engine ----------

  /** The length of the preferred match of k at the start of s, if there is one. */
  function Find(k: Goal, left: bool, s: string): (r: Option<nat>)
    ensures r.Some? ==> r.value <= |s|
    decreases |s|, Weight(k)
  {
    match k
    case Done => Some(0)
    case Then(r, rest) =>
      match r
      case Empty => Find(rest, left, s)
      case Class(ranges) =>
        if s != "" && InClass(s[0], ranges) then
          var found := Find(rest, IsWord(s[0]), s[1..]);
          if found.Some? then Some(found.value + 1) else None
        else None
      case WordB => if Boundary(left, s) then Find(rest, left, s) else None
      case Cat(a, b) =>
        CatWeight(a, b, rest);
        Find(Then(a, Then(b, rest)), left, s)
      case Alt(a, b) =>
        var found := Find(Then(a, rest), left, s);
        if found.Some? then found else Find(Then(b, rest), left, s)
      case Star(a) =>
        var found := Find(Then(a, Then(r, rest)), left, s);
        if found.Some? then found else Find(rest, left, s)
  }

  function FindOne(r: Pattern, left: bool, s: string): (n: Option<nat>)
    ensures n.Some? ==> n.value <= |s|
  {
    Find(Then(r, Done), left, s)
  }

  /** Regexp.MatchString: is there a match anywhere? */
  predicate HasMatch(r: Pattern, left: bool, s: string)
    decreases |s|
  {
    FindOne(r, left, s).Some? || (s != "" && HasMatch(r, IsWord(s[0]), s[1..]))
  }

  /**
   Regexp.ReplaceAllString with a literal replacement. `after` says that a
   non-empty match ended exactly here: an empty match is then not replaced.
  */
  function ReplaceAll(r: Pattern, token: string, left: bool, after: bool, s: string): string
    decreases |s|
  {
    match FindOne(r, left, s)
    case None => if s == "" then "" else [s[0]] + ReplaceAll(r, token, IsWord(s[0]), false, s[1..])
    case Some(n) =>
      if n > 0 then
        token + ReplaceAll(r, token, IsWord(s[n-1]), true, s[n..])
      else
        (if after then "" else token) +
        if s == "" then "" else [s[0]] + ReplaceAll(r, token, IsWord(s[0]), false, s[1..])
  }

  // ---------- which spans match at all ----------

  /** s[..n] is a match of k, by some choice of alternatives and repetitions. */
  ghost predicate Can(k: Goal, left: bool, s: string, n: nat)
    decreases |s|, Weight(k)
  {
    match k
    case Done => n == 0
    case Then(r, rest) =>
      match r
      case Empty => Can(rest, left, s, n)
      case Class(ranges) =>
        s != "" && n > 0 && InClass(s[0], ranges) && Can(rest, IsWord(s[0]), s[1..], n - 1)
      case WordB => Boundary(left, s) && Can(rest, left, s, n)
      case Cat(a, b) =>
        CatWeight(a, b, rest);
        Can(Then(a, Then(b, rest)), left, s, n)
      case Alt(a, b) => Can(Then(a, rest), left, s, n) || Can(Then(b, rest), left, s, n)
      case Star(a) => Can(Then(a, Then(r, rest)), left, s, n) || Can(rest, left, s, n)
  }
}
