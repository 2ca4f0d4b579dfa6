/** gateway/internal/policy/policy.go: rules, Apply and ApplyResponse. */
module Policy {
  import opened Wrappers
  import opened Regexp

  const ACTION_MASK := "mask"
  const ACTION_BLOCK := "block"
  const ACTION_FLAG := "flag"
  const MASK_TOKEN := "[MASKED]"

  /** A compiled detector; `re` is None for a Rule value without an expression. */
  datatype Rule = Rule(name: string, category: string, action: string, severity: string, re: Option<Pattern>)

  datatype Finding = Finding(rule: string, category: string, action: string, severity: string)

  datatype Result = Result(text: string, findings: seq<Finding>, blocked: bool)

  /** A list of rule pointers; None is the nil pointer, which is skipped. */
  type Rules = seq<Option<Rule>>

  // ---------- what a list of rules means ----------

  predicate Live(r: Option<Rule>) {
    r.Some? && r.value.re.Some?
  }

  predicate Fires(r: Option<Rule>, text: string) {
    Live(r) && HasMatch(r.value.re.value, false, text)
  }

  /** Does the rule rewrite what it matches? */
  predicate Masks(r: Option<Rule>) {
    Live(r) && (r.value.action == ACTION_MASK || r.value.action == ACTION_BLOCK)
  }

  function Step(r: Option<Rule>, text: string): string {
    if Masks(r) then ReplaceAll(r.value.re.value, MASK_TOKEN, false, false, text) else text
  }

  /** The text after every rule, each seeing what the one before it left. */
  function Masked(rules: Rules, text: string): string {
    if rules == [] then text
    else Step(rules[|rules|-1], Masked(rules[..|rules|-1], text))
  }

  predicate FiresAt(rules: Rules, text: string, k: nat) {
    k < |rules| && Fires(rules[k], Masked(rules[..k], text))
  }

  /** Rule k is the first rule of its name to fire. */
  predicate FiresFirst(rules: Rules, text: string, k: nat) {
    && FiresAt(rules, text, k)
    && forall j: nat | j < k && FiresAt(rules, text, j) :: rules[j].value.name != rules[k].value.name
  }

  function FindingOf(r: Rule): Finding {
    Finding(r.name, r.category, r.action, r.severity)
  }

  /** One finding per fired name, in rule order, among the first n rules. */
  function Findings(rules: Rules, text: string, n: nat): seq<Finding>
    requires n <= |rules|
  {
    if n == 0 then []
    else
      Findings(rules, text, n - 1) +
      if FiresFirst(rules, text, n - 1) then [FindingOf(rules[n-1].value)] else []
  }

  predicate BlocksBefore(rules: Rules, text: string, n: nat) {
    exists k: nat | k < n && k < |rules| :: FiresAt(rules, text, k) && rules[k].value.action == ACTION_BLOCK
  }

  /** Does a block rule fire somewhere in the pass? */
  predicate Blocks(rules: Rules, text: string) {
    BlocksBefore(rules, text, |rules|)
  }

  function FiredBefore(rules: Rules, text: string, n: nat): set<string>
    requires n <= |rules|
  {
    set k: nat | k < n && FiresAt(rules, text, k) :: rules[k].value.name
  }

  /** The names of the rules that fire somewhere in the pass. */
  function FiredNames(rules: Rules, text: string): set<string> {
    FiredBefore(rules, text, |rules|)
  }

  function NamesOf(fs: seq<Finding>): set<string> {
    set f | f in fs :: f.rule
  }

  lemma FiredNext(rules: Rules, text: string, n: nat)
    requires n < |rules|
    ensures FiredBefore(rules, text, n + 1) ==
            FiredBefore(rules, text, n) + if FiresAt(rules, text, n) then {rules[n].value.name} else {}
  {
  }

  lemma NamesAppend(a: seq<Finding>, b: seq<Finding>)
    ensures NamesOf(a + b) == NamesOf(a) + NamesOf(b)
  {
  }

  lemma FindingsNext(rules: Rules, text: string, n: nat)
    requires n < |rules|
    ensures Findings(rules, text, n + 1) ==
            Findings(rules, text, n) + if FiresFirst(rules, text, n) then [FindingOf(rules[n].value)] else []
  {
  }

  lemma FirstOrRecorded(rules: Rules, text: string, n: nat)
    requires n < |rules| && FiresAt(rules, text, n)
    ensures FiresFirst(rules, text, n) <==> rules[n].value.name !in FiredBefore(rules, text, n)
  {
  }

  lemma OneName(f: Finding)
    ensures NamesOf([f]) == {f.rule} && NamesOf([]) == {}
  {
    assert [f][0] in [f];
  }

  predicate Distinct(fs: seq<Finding>) {
    forall i, j | 0 <= i < j < |fs| :: fs[i].rule != fs[j].rule
  }

  lemma DistinctAppend(fs: seq<Finding>, f: Finding)
    requires Distinct(fs) && f.rule !in NamesOf(fs)
    ensures Distinct(fs + [f])
  {
    forall i | 0 <= i < |fs|
      ensures fs[i].rule != f.rule
    {
      assert fs[i].rule in NamesOf(fs);
    }
  }

  /** The findings report every name that fired, and each only once. */
  lemma {:induction false} FindingsComplete(rules: Rules, text: string, n: nat)
    requires n <= |rules|
    ensures NamesOf(Findings(rules, text, n)) == FiredBefore(rules, text, n)
    ensures Distinct(Findings(rules, text, n))
  {
    if n > 0 {
      hide NamesOf, FiredBefore, FiresFirst, FiresAt, Distinct;
      FindingsComplete(rules, text, n - 1);
      FiredNext(rules, text, n - 1);
      FindingsNext(rules, text, n - 1);
      if FiresAt(rules, text, n - 1) {
        FirstOrRecorded(rules, text, n - 1);
        var fs, f := Findings(rules, text, n - 1), FindingOf(rules[n-1].value);
        NamesAppend(fs, [f]);
        OneName(f);
        if FiresFirst(rules, text, n - 1) {
          DistinctAppend(fs, f);
        }
      } else {
        NotFirst(rules, text, n - 1);
      }
    } else {
      OneName(Finding("", "", "", ""));
    }
  }

  lemma NotFirst(rules: Rules, text: string, n: nat)
    requires n < |rules| && !FiresAt(rules, text, n)
    ensures !FiresFirst(rules, text, n)
  {
  }

  /** The finding names the rule, with its category, its action and its severity. */
  predicate Carries(f: Finding, r: Rule) {
    f.rule == r.name && f.category == r.category && f.action == r.action && f.severity == r.severity
  }

  predicate ReportedBy(rules: Rules, text: string, k: nat, f: Finding) {
    FiresFirst(rules, text, k) && Carries(f, rules[k].value)
  }

  /** The findings are those of the rules that are the first of their name to fire, in rule order. */
  lemma {:induction false} FindingsInOrder(rules: Rules, text: string, n: nat) returns (ks: seq<nat>)
    requires n <= |rules|
    ensures forall k: nat :: k in ks <==> k < n && FiresFirst(rules, text, k)
    ensures forall i, j | 0 <= i < j < |ks| :: ks[i] < ks[j]
    ensures |ks| == |Findings(rules, text, n)|
    ensures forall i | 0 <= i < |ks| :: ReportedBy(rules, text, ks[i], Findings(rules, text, n)[i])
  {
    hide FiresAt;
    if n == 0 {
      ks := [];
    } else {
      ks := FindingsInOrder(rules, text, n - 1);
      assert forall i | 0 <= i < |ks| :: ks[i] in ks;
      if FiresFirst(rules, text, n - 1) {
        ks := ks + [n - 1];
      }
      assert forall i | 0 <= i < |ks| :: ks[i] in ks;
    }
  }

  // ---------- facts the loops need ----------

  lemma {:induction false} ReplaceNothing(r: Pattern, token: string, left: bool, after: bool, s: string)
    requires !HasMatch(r, left, s)
    ensures ReplaceAll(r, token, left, after, s) == s
    decreases |s|
  {
    if s != "" {
      ReplaceNothing(r, token, IsWord(s[0]), false, s[1..]);
    }
  }

  lemma StepQuiet(r: Option<Rule>, text: string)
    requires !Fires(r, text)
    ensures Step(r, text) == text
  {
    if Masks(r) {
      ReplaceNothing(r.value.re.value, MASK_TOKEN, false, false, text);
    }
  }

  lemma MaskedNext(rules: Rules, text: string, k: nat)
    requires k < |rules|
    ensures Masked(rules[..k+1], text) == Step(rules[k], Masked(rules[..k], text))
  {
    assert rules[..k+1][..k] == rules[..k];
  }

  /** What the loops find at rule i, when the names recorded so far are `seen`. */
  lemma Visit(rules: Rules, text: string, i: nat, seen: set<string>)
    requires i < |rules| && seen == FiredBefore(rules, text, i)
    ensures var before := Masked(rules[..i], text);
            && Masked(rules[..i+1], text) == Step(rules[i], before)
            && (!Fires(rules[i], before) ==>
                  && Step(rules[i], before) == before
                  && Findings(rules, text, i + 1) == Findings(rules, text, i)
                  && FiredBefore(rules, text, i + 1) == seen
                  && BlocksBefore(rules, text, i + 1) == BlocksBefore(rules, text, i))
            && (Fires(rules[i], before) ==>
                  && Findings(rules, text, i + 1) == Findings(rules, text, i) +
                     (if rules[i].value.name in seen then [] else [FindingOf(rules[i].value)])
                  && FiredBefore(rules, text, i + 1) == seen + {rules[i].value.name}
                  && BlocksBefore(rules, text, i + 1) ==
                     (BlocksBefore(rules, text, i) || rules[i].value.action == ACTION_BLOCK))
  {
    MaskedNext(rules, text, i);
    FiredNext(rules, text, i);
    FindingsNext(rules, text, i);
    BlocksNext(rules, text, i);
    var before := Masked(rules[..i], text);
    assert FiresAt(rules, text, i) == Fires(rules[i], before);
    if Fires(rules[i], before) {
      FirstOrRecorded(rules, text, i);
    } else {
      StepQuiet(rules[i], before);
      NotFirst(rules, text, i);
    }
  }

  lemma BlocksNext(rules: Rules, text: string, i: nat)
    requires i < |rules|
    ensures BlocksBefore(rules, text, i + 1) <==>
            BlocksBefore(rules, text, i) || (FiresAt(rules, text, i) && rules[i].value.action == ACTION_BLOCK)
  {
  }

  // ---------- the two entry points ----------

  /** Rewrites and reports a request message; a block rule also rejects it. */
  method Apply(text: string, rules: Rules) returns (res: Result)
    ensures res == Result(Masked(rules, text), Findings(rules, text, |rules|), Blocks(rules, text))
  {
    res := Result(text, [], false);
    var seen: set<string> := {};
    hide FiredBefore, BlocksBefore, Findings, Masked, HasMatch, ReplaceAll;
    StartOfPass(rules, text);
    for i := 0 to |rules|
      invariant res == Result(Masked(rules[..i], text), Findings(rules, text, i), BlocksBefore(rules, text, i))
      invariant seen == FiredBefore(rules, text, i)
    {
      var r := rules[i];
      Visit(rules, text, i, seen);
      if !Live(r) || !HasMatch(r.value.re.value, false, res.text) {
        continue;
      }
      if r.value.name !in seen {
        res := res.(findings := res.findings + [FindingOf(r.value)]);
        seen := seen + {r.value.name};
      }
      if r.value.action == ACTION_MASK {
        res := res.(text := ReplaceAll(r.value.re.value, MASK_TOKEN, false, false, res.text));
      } else if r.value.action == ACTION_BLOCK {
        res := res.(text := ReplaceAll(r.value.re.value, MASK_TOKEN, false, false, res.text), blocked := true);
      }
    }
    assert rules[..|rules|] == rules;
  }

  lemma StartOfPass(rules: Rules, text: string)
    ensures Masked(rules[..0], text) == text && Findings(rules, text, 0) == []
    ensures FiredBefore(rules, text, 0) == {} && !BlocksBefore(rules, text, 0)
  {
  }

  /** Rewrites and reports an assistant reply; it never rejects. */
  method ApplyResponse(text: string, rules: Rules) returns (res: Result)
    ensures res == Result(Masked(rules, text), Findings(rules, text, |rules|), false)
  {
    res := Result(text, [], false);
    var seen: set<string> := {};
    hide FiredBefore, BlocksBefore, Findings, Masked, HasMatch, ReplaceAll;
    StartOfPass(rules, text);
    for i := 0 to |rules|
      invariant res == Result(Masked(rules[..i], text), Findings(rules, text, i), false)
      invariant seen == FiredBefore(rules, text, i)
    {
      var r := rules[i];
      Visit(rules, text, i, seen);
      if !Live(r) || !HasMatch(r.value.re.value, false, res.text) {
        continue;
      }
      if r.value.name !in seen {
        res := res.(findings := res.findings + [FindingOf(r.value)]);
        seen := seen + {r.value.name};
      }
      if r.value.action == ACTION_MASK || r.value.action == ACTION_BLOCK {
        res := res.(text := ReplaceAll(r.value.re.value, MASK_TOKEN, false, false, res.text));
      }
    }
    assert rules[..|rules|] == rules;
  }
}
