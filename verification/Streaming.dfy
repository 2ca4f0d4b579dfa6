/** gateway/internal/policy/policy.go: masking a reply while it streams. */
module Streaming {
  import opened Text
  import opened Regexp
  import opened RegexpLemmas
  import opened Policy
  import opened Masking

  // ---------- what may be released ----------

  /** strings.LastIndexAny(s, " \t\n\r") + 1 */
  function ReleaseLen(s: string): (n: nat)
    ensures n <= |s|
    ensures n > 0 ==> IsBreak(s[n-1])
    ensures NoBreak(s[n..])
  {
    if s == "" then 0
    else if IsBreak(s[|s|-1]) then |s|
    else
      var n := ReleaseLen(s[..|s|-1]);
      assert forall k | n <= k < |s| - 1 :: s[k] == s[..|s|-1][n..][k-n];
      n
  }

  /** The longest prefix that ends in a break character. */
  function Released(s: string): string {
    s[..ReleaseLen(s)]
  }

  function Held(s: string): string {
    s[ReleaseLen(s)..]
  }

  /** The released part ends behind the last blank, tab, line feed or carriage return. */
  lemma ReleasedAtBlank(s: string, k: nat)
    requires k < |s|
    ensures s[k] == ' ' || s[k] == '\t' || s[k] == '\n' || s[k] == '\r' ==> k < ReleaseLen(s)
    ensures k + 1 == ReleaseLen(s) ==> s[k] == ' ' || s[k] == '\t' || s[k] == '\n' || s[k] == '\r'
  {
    NoBreakFrom(s, ReleaseLen(s));
  }

  lemma NoBreakFrom(s: string, n: nat)
    requires n <= |s| && NoBreak(s[n..])
    ensures forall k | n <= k < |s| :: !IsBreak(s[k])
  {
    assert forall k | n <= k < |s| :: s[k] == s[n..][k-n];
  }

  lemma ReleaseLenUnique(s: string, n: nat)
    requires n <= |s| && NoBreak(s[n..]) && (n > 0 ==> IsBreak(s[n-1]))
    ensures ReleaseLen(s) == n
  {
    var m := ReleaseLen(s);
    NoBreakFrom(s, n);
    NoBreakFrom(s, m);
  }

  lemma ReleasedAppend(s: string, delta: string)
    ensures Released(s + delta) == Released(s) + Released(Held(s) + delta)
    ensures Held(s + delta) == Held(Held(s) + delta)
  {
    HeldRest(s);
    ReleasedEnds(s);
    hide Released, Held;
    Regroup(Released(s), Held(s), delta);
    ReleasedBehind(Released(s), Held(s) + delta);
  }

  lemma HeldRest(s: string)
    ensures s == Released(s) + Held(s)
  {
  }

  lemma ReleasedEnds(s: string)
    ensures Released(s) != "" ==> EndsInBreak(Released(s))
  {
  }

  /** What ends in a break character is released together with what follows it. */
  lemma ReleasedBehind(r: string, t: string)
    requires r != "" ==> EndsInBreak(r)
    ensures Released(r + t) == r + Released(t) && Held(r + t) == Held(t)
  {
    var m := ReleaseLen(t);
    BehindParts(r, t, m);
    hide ReleaseLen, IsBreak;
    ReleaseLenUnique(r + t, |r| + m);
  }

  lemma BehindParts(r: string, t: string, m: nat)
    requires m <= |t|
    ensures (r + t)[..|r| + m] == r + t[..m] && (r + t)[|r| + m..] == t[m..]
    ensures m > 0 ==> (r + t)[|r| + m - 1] == t[m-1]
    ensures m == 0 && r != "" ==> (r + t)[|r| + m - 1] == r[|r|-1]
  {
  }

  // ---------- a whole stream, as a function of its deltas ----------

  function MaskPart(rules: Rules, s: string): string {
    if s == "" then "" else Masked(rules, s)
  }

  /** What the pushes of these deltas and the final Close emit, joined. */
  function StreamOut(rules: Rules, buf: string, deltas: seq<string>): string
    decreases |deltas|
  {
    if deltas == [] then MaskPart(rules, buf)
    else
      MaskPart(rules, Released(buf + deltas[0])) + StreamOut(rules, Held(buf + deltas[0]), deltas[1..])
  }

  function PartNames(rules: Rules, s: string): set<string> {
    if s == "" then {} else FiredNames(rules, s)
  }

  /** The names recorded by the pushes of these deltas and the final Close. */
  function StreamNames(rules: Rules, buf: string, deltas: seq<string>): set<string>
    decreases |deltas|
  {
    if deltas == [] then PartNames(rules, buf)
    else
      PartNames(rules, Released(buf + deltas[0])) + StreamNames(rules, Held(buf + deltas[0]), deltas[1..])
  }

  lemma {:induction false} StreamIsBatchFrom(rules: Rules, buf: string, deltas: seq<string>)
    requires AllSolid(rules) && RulesClean(rules, buf + Concat(deltas))
    ensures StreamOut(rules, buf, deltas) == Masked(rules, buf + Concat(deltas))
    decreases |deltas|
  {
    MaskedEmpty(rules);
    if deltas == [] {
      assert buf + Concat(deltas) == buf;
    } else {
      var s, rest := buf + deltas[0], Concat(deltas[1..]);
      assert buf + Concat(deltas) == Released(s) + (Held(s) + rest);
      if ReleaseLen(s) > 0 {
        RulesCut(rules, Released(s), Held(s) + rest);
      } else {
        assert Released(s) + (Held(s) + rest) == Held(s) + rest;
      }
      StreamIsBatchFrom(rules, Held(s), deltas[1..]);
    }
  }

  /** On a text from which masking removes no break character, every chunking gives the batch result. */
  lemma StreamIsBatch(rules: Rules, deltas: seq<string>)
    requires AllSolid(rules) && RulesClean(rules, Concat(deltas))
    ensures StreamOut(rules, "", deltas) == Masked(rules, Concat(deltas))
  {
    assert "" + Concat(deltas) == Concat(deltas);
    StreamIsBatchFrom(rules, "", deltas);
  }

  // ---------- exactly when the chunking does not matter ----------

  function Singles(t: string): seq<string> {
    if t == "" then [] else [[t[0]]] + Singles(t[1..])
  }

  lemma {:induction false} ConcatSingles(t: string)
    ensures Concat(Singles(t)) == t
  {
    if t != "" {
      ConcatSingles(t[1..]);
    }
  }

  /** Fed one character at a time, the masker never loses a break character. */
  lemma {:induction false} SinglesKeepBreaks(rules: Rules, buf: string, t: string)
    requires AllWordSafe(rules) && NoBreak(buf)
    ensures Breaks(StreamOut(rules, buf, Singles(t))) == Breaks(t)
    decreases |t|
  {
    if t == "" {
      MaskedPiece(rules, buf);
      BreaksZero(Masked(rules, buf));
    } else {
      var s := buf + [t[0]];
      assert Singles(t)[0] == [t[0]] && Singles(t)[1..] == Singles(t[1..]);
      if IsBreak(t[0]) {
        assert s[..|s|-1] == buf && s[|s|..] == "";
        ReleaseLenUnique(s, |s|);
        assert Released(s) == s;
        MaskedPiece(rules, s);
        PieceBreaks(Masked(rules, s));
        SinglesKeepBreaks(rules, "", t[1..]);
        BreaksAppend(Masked(rules, s), StreamOut(rules, "", Singles(t[1..])));
      } else {
        assert s[0..] == s;
        ReleaseLenUnique(s, 0);
        assert Released(s) == "" && Held(s) == s;
        SinglesKeepBreaks(rules, s, t[1..]);
        var rest := StreamOut(rules, s, Singles(t[1..]));
        assert StreamOut(rules, buf, Singles(t)) == "" + rest == rest;
      }
    }
  }

  lemma PieceBreaks(s: string)
    requires IsPiece(s)
    ensures Breaks(s) == 1
  {
    var u := s[..|s|-1];
    assert s == u + [s[|s|-1]];
    BreaksAppend(u, [s[|s|-1]]);
    BreaksZero(u);
  }

  /**
   Streaming agrees with batch masking under every way of cutting the reply if
   and only if batch masking removes no break character from it.
  */
  lemma StreamingExact(rules: Rules, t: string)
    requires AllWordSafe(rules)
    ensures (forall deltas: seq<string> | Concat(deltas) == t ::
               StreamOut(rules, "", deltas) == Masked(rules, t))
            <==> Breaks(Masked(rules, t)) == Breaks(t)
  {
    RulesCleanByCount(rules, t);
    if RulesClean(rules, t) {
      forall deltas: seq<string> | Concat(deltas) == t
        ensures StreamOut(rules, "", deltas) == Masked(rules, t)
      {
        StreamIsBatch(rules, deltas);
      }
    } else {
      ConcatSingles(t);
      SinglesKeepBreaks(rules, "", t);
      assert StreamOut(rules, "", Singles(t)) != Masked(rules, t);
    }
  }

  // ---------- rules whose matches stay inside one word ----------

  /** Every match, preferred or not, is non-empty and contains no break character. */
  ghost predicate Local(r: Pattern) {
    forall left: bool, s: string, n: nat ::
      n <= |s| && Can(Then(r, Done), left, s, n) ==> n > 0 && NoBreak(s[..n])
  }

  ghost predicate AllLocal(rules: Rules) {
    forall k | 0 <= k < |rules| && Live(rules[k]) :: Local(rules[k].value.re.value)
  }

  lemma LocalFind(r: Pattern, left: bool, s: string)
    requires Local(r)
    ensures var n := FindOne(r, left, s); n.Some? ==> n.value > 0 && NoBreak(s[..n.value])
  {
    FindSound(Then(r, Done), left, s);
  }

  lemma {:induction false} LocalClean(r: Pattern, left: bool, s: string)
    requires Local(r)
    ensures Clean(r, left, s)
    decreases |s|
  {
    LocalFind(r, left, s);
    match FindOne(r, left, s)
    case None => if s != "" { LocalClean(r, IsWord(s[0]), s[1..]); }
    case Some(n) => LocalClean(r, IsWord(s[n-1]), s[n..]);
  }

  lemma {:induction false} LocalRulesClean(rules: Rules, text: string)
    requires AllLocal(rules)
    ensures AllSolid(rules) && RulesClean(rules, text)
  {
    forall k | 0 <= k < |rules| && Masks(rules[k])
      ensures Solid(rules[k].value.re.value)
    {
      LocalFind(rules[k].value.re.value, false, "");
    }
    if rules != [] {
      var prefix, last := rules[..|rules|-1], rules[|rules|-1];
      LocalRulesClean(prefix, text);
      if Masks(last) {
        LocalClean(last.value.re.value, false, Masked(prefix, text));
      }
    }
  }

  /** For such rules no chunking of any reply changes what the user sees. */
  lemma LocalStreamIsBatch(rules: Rules, deltas: seq<string>)
    requires AllLocal(rules)
    ensures StreamOut(rules, "", deltas) == Masked(rules, Concat(deltas))
  {
    LocalRulesClean(rules, Concat(deltas));
    StreamIsBatch(rules, deltas);
  }

  // ---------- which rules a stream reports ----------

  /** Every rule that is looked for, flag rules included, matches no empty text and, in the text it sees, no break. */
  predicate SeenClean(rules: Rules, text: string) {
    forall k | 0 <= k < |rules| && Live(rules[k]) ::
      Solid(rules[k].value.re.value) && Clean(rules[k].value.re.value, false, Masked(rules[..k], text))
  }

  lemma {:induction false} SeenIsRulesClean(rules: Rules, text: string)
    requires SeenClean(rules, text)
    ensures AllSolid(rules) && RulesClean(rules, text)
  {
    hide Solid, Clean;
    if rules != [] {
      var prefix := rules[..|rules|-1];
      assert forall k | 0 <= k < |prefix| :: prefix[k] == rules[k] && prefix[..k] == rules[..k];
      SeenIsRulesClean(prefix, text);
    }
  }

  lemma LocalSeenClean(rules: Rules, text: string)
    requires AllLocal(rules)
    ensures SeenClean(rules, text)
  {
    forall k | 0 <= k < |rules| && Live(rules[k])
      ensures Solid(rules[k].value.re.value) && Clean(rules[k].value.re.value, false, Masked(rules[..k], text))
    {
      LocalFind(rules[k].value.re.value, false, "");
      LocalClean(rules[k].value.re.value, false, Masked(rules[..k], text));
    }
  }

  lemma {:induction false} HasMatchCut(r: Pattern, left: bool, a: string, b: string)
    requires Solid(r) && EndsInBreak(a) && Clean(r, left, a + b)
    ensures HasMatch(r, left, a + b) <==> HasMatch(r, left, a) || HasMatch(r, false, b)
    decreases |a|
  {
    FindCut(r, left, a, b);
    TailAppend(a, b);
    if FindOne(r, left, a + b).None? {
      if |a| > 1 {
        HasMatchCut(r, IsWord(a[0]), a[1..], b);
      } else {
        assert a[1..] + b == b && a[1..] == "";
      }
    }
  }

  /** On such a text a name fires exactly if it fires before or after the cut. */
  lemma FiredNamesCut(rules: Rules, a: string, b: string)
    requires SeenClean(rules, a + b) && EndsInBreak(a)
    ensures SeenClean(rules, a) && SeenClean(rules, b)
    ensures FiredNames(rules, a + b) == FiredNames(rules, a) + FiredNames(rules, b)
  {
    forall k: nat | k < |rules|
      ensures FiresAt(rules, a + b, k) <==> FiresAt(rules, a, k) || FiresAt(rules, b, k)
      ensures Live(rules[k]) ==>
                && Clean(rules[k].value.re.value, false, Masked(rules[..k], a))
                && Clean(rules[k].value.re.value, false, Masked(rules[..k], b))
    {
      FiresAtCut(rules, a, b, k);
    }
    hide FiresAt, Clean;
  }

  lemma SeenCleanPrefix(rules: Rules, text: string, k: nat)
    requires k <= |rules| && SeenClean(rules, text)
    ensures SeenClean(rules[..k], text)
  {
    hide Solid, Clean;
    assert forall j | 0 <= j < k :: rules[..k][..j] == rules[..j];
  }

  lemma FiresAtCut(rules: Rules, a: string, b: string, k: nat)
    requires SeenClean(rules, a + b) && EndsInBreak(a) && k < |rules|
    ensures FiresAt(rules, a + b, k) <==> FiresAt(rules, a, k) || FiresAt(rules, b, k)
    ensures Live(rules[k]) ==>
              && Clean(rules[k].value.re.value, false, Masked(rules[..k], a))
              && Clean(rules[k].value.re.value, false, Masked(rules[..k], b))
  {
    SeenCleanPrefix(rules, a + b, k);
    SeenIsRulesClean(rules[..k], a + b);
    RulesCut(rules[..k], a, b);
    if Live(rules[k]) {
      CleanCut(rules[k].value.re.value, false, Masked(rules[..k], a), Masked(rules[..k], b));
      HasMatchCut(rules[k].value.re.value, false, Masked(rules[..k], a), Masked(rules[..k], b));
    }
  }

  lemma NothingFires(rules: Rules, text: string)
    ensures AllSolid(rules) ==> Masked(rules, "") == ""
    ensures SeenClean(rules, text) ==> SeenClean(rules, "") && FiredNames(rules, "") == {}
  {
    if AllSolid(rules) {
      MaskedEmpty(rules);
    }
    if SeenClean(rules, text) {
      forall k: nat | k < |rules|
        ensures Masked(rules[..k], "") == ""
      {
        SeenCleanPrefix(rules, text, k);
        SeenIsRulesClean(rules[..k], text);
        MaskedEmpty(rules[..k]);
      }
    }
  }

  /** What a stream has recorded in the end is what the batch pass reports, whatever the deltas. */
  lemma {:induction false} StreamNamesAreBatch(rules: Rules, buf: string, deltas: seq<string>)
    requires SeenClean(rules, buf + Concat(deltas))
    ensures StreamNames(rules, buf, deltas) == FiredNames(rules, buf + Concat(deltas))
    decreases |deltas|
  {
    NothingFires(rules, buf + Concat(deltas));
    hide FiredNames, SeenClean;
    if deltas == [] {
      assert buf + Concat(deltas) == buf;
    } else {
      var s, rest := buf + deltas[0], Concat(deltas[1..]);
      Regroup(buf, deltas[0], rest);
      HeldRest(s);
      ReleasedEnds(s);
      hide Released, Held;
      Regroup(Released(s), Held(s), rest);
      if Released(s) != "" {
        FiredNamesCut(rules, Released(s), Held(s) + rest);
      } else {
        assert "" + (Held(s) + rest) == Held(s) + rest;
      }
      StreamNamesAreBatch(rules, Held(s), deltas[1..]);
    }
  }

  // ---------- the object ----------

  /** Rule k is the first of its name to fire on the text, and f reports it. */
  ghost predicate Reports(rules: Rules, text: string, k: nat, f: Finding) {
    FiresFirst(rules, text, k) && FindingOf(rules[k].value) == f
  }

  ghost predicate DistinctNames(rules: Rules) {
    forall j, k | 0 <= j < k < |rules| && Live(rules[j]) && Live(rules[k]) ::
      rules[j].value.name != rules[k].value.name
  }

  /** f is what some rule of that name reports. */
  ghost predicate IsFindingOf(rules: Rules, name: string, f: Finding) {
    exists k :: 0 <= k < |rules| && Live(rules[k]) && rules[k].value.name == name && Carries(f, rules[k].value)
  }

  /** With distinct names, the recorded findings are those that ApplyResponse reports for the text. */
  lemma SameFindings(rules: Rules, text: string, recorded: map<string, Finding>)
    requires DistinctNames(rules) && recorded.Keys == FiredNames(rules, text)
    requires forall name | name in recorded :: IsFindingOf(rules, name, recorded[name])
    ensures recorded.Values == set f | f in Findings(rules, text, |rules|)
  {
    FindingsComplete(rules, text, |rules|);
    FindingsFromRules(rules, text, |rules|);
    var fs := Findings(rules, text, |rules|);
    forall f | f in fs
      ensures f in recorded.Values
    {
      assert f.rule in NamesOf(fs);
      assert recorded[f.rule] == f by { SameName(rules, f.rule, f, recorded[f.rule]); }
    }
    forall name | name in recorded
      ensures recorded[name] in fs
    {
      assert name in NamesOf(fs);
      var f :| f in fs && f.rule == name;
      SameName(rules, name, f, recorded[name]);
    }
  }

  lemma SameName(rules: Rules, name: string, f: Finding, g: Finding)
    requires DistinctNames(rules) && IsFindingOf(rules, name, f) && IsFindingOf(rules, name, g)
    ensures f == g
  {
  }

  lemma {:induction false} FindingsFromRules(rules: Rules, text: string, n: nat)
    requires n <= |rules|
    ensures forall f | f in Findings(rules, text, n) :: IsFindingOf(rules, f.rule, f)
  {
    if n > 0 {
      FindingsFromRules(rules, text, n - 1);
      if FiresFirst(rules, text, n - 1) {
        assert IsFindingOf(rules, rules[n-1].value.name, FindingOf(rules[n-1].value));
      }
    }
  }

  /** The first n rules have added to the findings what they report on the text, under new names only. */
  ghost predicate Recorded(rules: Rules, text: string, n: nat,
                           before: map<string, Finding>, now: map<string, Finding>) {
    && (forall name | name in before :: name in now && now[name] == before[name])
    && (forall j: nat | j < n && FiresAt(rules, text, j) :: rules[j].value.name in now)
    && (forall name | name in now && name !in before ::
          exists k: nat :: k < n && Reports(rules, text, k, now[name]) && rules[k].value.name == name)
  }

  lemma RecordedNone(rules: Rules, text: string, before: map<string, Finding>)
    ensures Masked(rules[..0], text) == text && Recorded(rules, text, 0, before, before)
  {
  }

  /** One more rule: it adds a finding if it fires and its name is new. */
  lemma RecordedNext(rules: Rules, text: string, n: nat, before: map<string, Finding>, now: map<string, Finding>)
    requires n < |rules| && Recorded(rules, text, n, before, now)
    ensures if !Fires(rules[n], Masked(rules[..n], text)) || rules[n].value.name in now
            then Recorded(rules, text, n + 1, before, now)
            else Recorded(rules, text, n + 1, before, now[rules[n].value.name := FindingOf(rules[n].value)])
  {
    hide HasMatch, Masked;
    var later := now;
    if Fires(rules[n], Masked(rules[..n], text)) && rules[n].value.name !in now {
      later := now[rules[n].value.name := FindingOf(rules[n].value)];
      assert Reports(rules, text, n, FindingOf(rules[n].value));
    }
    hide Reports;
    forall name | name in later && name !in before
      ensures exists k: nat :: k < n + 1 && Reports(rules, text, k, later[name]) && rules[k].value.name == name
    {
      if name in now {
        var k: nat :| k < n && Reports(rules, text, k, now[name]) && rules[k].value.name == name;
        assert Reports(rules, text, k, later[name]);
      }
    }
  }

  lemma RecordedAll(rules: Rules, text: string, before: map<string, Finding>, now: map<string, Finding>)
    requires Recorded(rules, text, |rules|, before, now)
    ensures now.Keys == before.Keys + FiredNames(rules, text)
    ensures forall name | name in before :: now[name] == before[name]
    ensures forall name | name in now && name !in before ::
              exists k: nat :: k < |rules| && Reports(rules, text, k, now[name]) && rules[k].value.name == name
  {
    hide FiresAt, FindingOf;
  }

  /** What a pass has added to the findings, too, is what some rule reports. */
  lemma FoundByRules(rules: Rules, part: string, before: map<string, Finding>, now: map<string, Finding>)
    requires forall name | name in before :: IsFindingOf(rules, name, before[name])
    requires forall name | name in before && name in now :: now[name] == before[name]
    requires forall name | name in now && name !in before ::
               exists k: nat :: k < |rules| && Reports(rules, part, k, now[name]) && rules[k].value.name == name
    ensures forall name | name in now :: IsFindingOf(rules, name, now[name])
  {
    forall name | name in now && name !in before
      ensures IsFindingOf(rules, name, now[name])
    {
      var k: nat :| k < |rules| && Reports(rules, part, k, now[name]) && rules[k].value.name == name;
      assert FindingOf(rules[k].value) == now[name];
    }
  }

  function RuleNames(fs: set<Finding>): set<string> {
    set f | f in fs :: f.rule
  }

  lemma {:induction false} OneEach(recorded: map<string, Finding>)
    requires forall name | name in recorded :: recorded[name].rule == name
    ensures |recorded.Values| == |recorded.Keys|
    decreases |recorded|
  {
    if name :| name in recorded {
      var fewer := map n | n in recorded && n != name :: recorded[n];
      assert recorded.Keys == fewer.Keys + {name} && recorded.Values == fewer.Values + {recorded[name]};
      assert |fewer.Keys| < |recorded.Keys|;
      OneEach(fewer);
    }
  }

  /**
   A report of these names: one finding for each, which some rule makes. If no match in
   the text contains a break, and names are distinct, it is the report of the batch pass.
  */
  ghost predicate ReportIs(rules: Rules, names: set<string>, text: string, findings: set<Finding>) {
    && RuleNames(findings) == names && |findings| == |names|
    && (forall f | f in findings :: IsFindingOf(rules, f.rule, f))
    && (SeenClean(rules, text) && DistinctNames(rules) ==> findings == set f | f in Findings(rules, text, |rules|))
  }

  lemma RecordedReport(rules: Rules, recorded: map<string, Finding>, text: string)
    requires forall name | name in recorded :: IsFindingOf(rules, name, recorded[name])
    requires SeenClean(rules, text) && DistinctNames(rules) ==>
               recorded.Values == set f | f in Findings(rules, text, |rules|)
    ensures ReportIs(rules, recorded.Keys, text, recorded.Values)
  {
    assert forall name | name in recorded :: recorded[name].rule == name;
    OneEach(recorded);
    forall name | name in recorded
      ensures recorded[name].rule == name && recorded[name] in recorded.Values
    {
    }
  }

  /** The names that fire on some of the parts, each masked by itself. */
  function UnionNames(rules: Rules, parts: seq<string>): set<string> {
    if parts == [] then {} else UnionNames(rules, parts[..|parts|-1]) + FiredNames(rules, parts[|parts|-1])
  }

  lemma UnionNext(rules: Rules, parts: seq<string>, part: string)
    ensures UnionNames(rules, parts + [part]) == UnionNames(rules, parts) + FiredNames(rules, part)
    ensures Concat(parts + [part]) == Concat(parts) + part
  {
    assert (parts + [part])[..|parts|] == parts;
    ConcatNext(parts, part);
  }

  class StreamMasker {
    const rules: Rules
    var buf: string
    var findings: map<string, Finding>
    ghost var received: string
    ghost var emitted: string
    ghost var parts: seq<string> // what was released so far, each part masked by itself

    /**
     The buffer holds the last, unfinished word. What was emitted is the batch
     mask of everything before it, where masking keeps the breaks. The recorded
     names are those that fire on the parts; where no match contains a break,
     they are those the batch pass reports.
    */
    ghost predicate Valid()
      reads this
    {
      && buf == Held(received) && Concat(parts) == Released(received)
      && findings.Keys == UnionNames(rules, parts)
      && (AllSolid(rules) && RulesClean(rules, Released(received)) ==>
            emitted == Masked(rules, Released(received)))
      && (SeenClean(rules, Released(received)) ==> findings.Keys == FiredNames(rules, Released(received)))
      && (forall name | name in findings :: IsFindingOf(rules, name, findings[name]))
    }

    constructor (rules: Rules)
      ensures Valid() && this.rules == rules
      ensures received == "" && emitted == "" && parts == [] && buf == "" && findings == map[]
    {
      this.rules := rules;
      buf, findings := "", map[];
      received, emitted, parts := "", "", [];
      new;
      assert Released("") == "";
      NothingFires(rules, "");
    }

    /** Masks one released part and records each name the first time it fires. */
    method Mask(part: string) returns (text: string)
      modifies this`findings
      ensures text == Masked(rules, part)
      ensures findings.Keys == old(findings.Keys) + FiredNames(rules, part)
      ensures forall name | name in old(findings) :: findings[name] == old(findings)[name]
      ensures forall name | name in findings && name !in old(findings) ::
                exists k: nat :: k < |rules| && Reports(rules, part, k, findings[name]) && rules[k].value.name == name
    {
      text := part;
      hide Masked, Recorded, FindingOf, HasMatch, ReplaceAll;
      RecordedNone(rules, part, findings);
      for i := 0 to |rules|
        invariant text == Masked(rules[..i], part)
        invariant Recorded(rules, part, i, old(findings), findings)
      {
        var r := rules[i];
        MaskedNext(rules, part, i);
        RecordedNext(rules, part, i, old(findings), findings);
        if !Live(r) || !HasMatch(r.value.re.value, false, text) {
          StepQuiet(r, text);
          continue;
        }
        if r.value.name !in findings {
          findings := findings[r.value.name := FindingOf(r.value)];
        }
        if r.value.action == ACTION_MASK || r.value.action == ACTION_BLOCK {
          text := ReplaceAll(r.value.re.value, MASK_TOKEN, false, false, text);
        }
      }
      assert rules[..|rules|] == rules;
      RecordedAll(rules, part, old(findings), findings);
    }

    /** Takes the next delta and emits what it completes. */
    method Push(delta: string) returns (out: string)
      requires Valid()
      modifies this
      ensures Valid()
      ensures received == old(received) + delta && emitted == old(emitted) + out
      ensures buf == Held(old(buf) + delta) && NoBreak(buf)
      ensures out == MaskPart(rules, Released(old(buf) + delta))
      ensures findings.Keys == old(findings.Keys) + PartNames(rules, Released(old(buf) + delta))
    {
      hide AllSolid, RulesClean, SeenClean, Masked, FiredNames, UnionNames, IsFindingOf, Reports, Concat;
      buf := buf + delta;
      var s := buf;
      var idx := ReleaseLen(s);
      ReleasedAppend(received, delta);
      ghost var before, part := received, Released(s);
      received := received + delta;
      if idx == 0 {
        assert Released(before) + "" == Released(before);
        out := "";
        assert emitted + out == emitted;
      } else {
        buf := s[idx..];
        out := Mask(s[..idx]);
        emitted := emitted + out;
        CutReleased(rules, before, part);
        UnionNext(rules, parts, part);
        parts := parts + [part];
        FoundByRules(rules, part, old(findings), findings);
      }
    }

    /** Emits what is left; the stream is then masked as a whole. */
    method Close() returns (out: string)
      requires Valid()
      modifies this
      ensures buf == "" && out == MaskPart(rules, old(buf))
      ensures received == old(received) && emitted == old(emitted) + out
      ensures AllSolid(rules) && RulesClean(rules, received) ==> emitted == Masked(rules, received)
      ensures findings.Keys == old(findings.Keys) + PartNames(rules, old(buf)) == UnionNames(rules, parts)
      ensures Concat(parts) == received
      ensures SeenClean(rules, received) ==> findings.Keys == FiredNames(rules, received)
      ensures SeenClean(rules, received) && DistinctNames(rules) ==>
                findings.Values == set f | f in Policy.Findings(rules, received, |rules|)
      ensures forall name | name in findings :: IsFindingOf(rules, name, findings[name])
    {
      hide AllSolid, RulesClean, SeenClean, FiredNames, UnionNames, IsFindingOf, Reports, Concat, DistinctNames;
      var s := buf;
      buf := "";
      ghost var before := received;
      assert received == Released(received) + s;
      NothingFires(rules, received);
      CutReleased(rules, before, s);
      UnionNext(rules, parts, s);
      if s == "" {
        out := "";
        assert Released(received) == received;
      } else {
        out := Mask(s);
        parts := parts + [s];
        FoundByRules(rules, s, old(findings), findings);
      }
      emitted := emitted + out;
      if SeenClean(rules, received) && DistinctNames(rules) {
        SameFindings(rules, received, findings);
      }
    }

    /** The findings recorded so far; the source returns them in no fixed order. */
    method Findings() returns (out: set<Finding>)
      ensures out == findings.Values
    {
      out := findings.Values;
    }
  }

  lemma CutReleased(rules: Rules, before: string, part: string)
    ensures AllSolid(rules) && RulesClean(rules, Released(before) + part) ==>
              RulesClean(rules, Released(before)) &&
              Masked(rules, Released(before) + part) == Masked(rules, Released(before)) + Masked(rules, part)
    ensures SeenClean(rules, Released(before) + part) ==>
              SeenClean(rules, Released(before)) &&
              FiredNames(rules, Released(before) + part) ==
              FiredNames(rules, Released(before)) + FiredNames(rules, part)
  {
    var a := Released(before);
    NothingFires(rules, a + part);
    ReleasedEnds(before);
    hide Released, FiredNames, SeenClean;
    if a == "" {
      assert "" + part == part;
      if AllSolid(rules) {
        EmptyClean(rules);
      }
    } else {
      if AllSolid(rules) && RulesClean(rules, a + part) {
        RulesCut(rules, a, part);
      }
      if SeenClean(rules, a + part) {
        FiredNamesCut(rules, a, part);
      }
    }
  }

  lemma {:induction false} EmptyClean(rules: Rules)
    requires AllSolid(rules)
    ensures RulesClean(rules, "")
  {
    if rules != [] {
      EmptyClean(rules[..|rules|-1]);
      MaskedEmpty(rules[..|rules|-1]);
    }
  }
}
