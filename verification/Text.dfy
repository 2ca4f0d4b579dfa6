/** Strings as the pipeline cuts, trims and joins them. */
module Text {
  // ---------- sequences ----------

  lemma Regroup<T>(x: seq<T>, y: seq<T>, z: seq<T>)
    ensures x + (y + z) == (x + y) + z
  {
  }

  lemma TailAppend<T>(a: seq<T>, b: seq<T>)
    requires a != []
    ensures (a + b)[0] == a[0] && (a + b)[1..] == a[1..] + b
  {
  }

  lemma HalvesAppend<T>(a: seq<T>, b: seq<T>)
    ensures (a + b)[..|a|] == a && (a + b)[|a|..] == b
  {
  }

  lemma NextElement<T>(s: seq<T>, i: nat)
    requires i < |s|
    ensures s[..i+1] == s[..i] + [s[i]] && s[..i+1][..i] == s[..i]
    ensures s[i..] == [s[i]] + s[i+1..] && s[i..][0] == s[i] && s[i..][1..] == s[i+1..]
  {
  }

  lemma SliceOfTail<T>(s: seq<T>, i: nat, j: nat)
    requires i + j <= |s|
    ensures s[i..][..j] == s[i..i + j] && s[i..][j..] == s[i + j..]
  {
  }

  lemma InPrefix(s: string, n: nat, i: nat)
    requires i < n <= |s|
    ensures s[i] in s[..n]
  {
    assert s[..n][i] == s[i];
  }

  /** One more character at the front of the first part. */
  function Prepend(c: char, parts: seq<string>): (longer: seq<string>)
    requires |parts| > 0
    ensures |longer| == |parts|
  {
    [[c] + parts[0]] + parts[1..]
  }

  // ---------- joining ----------

  function Concat(parts: seq<string>): string {
    if parts == [] then "" else parts[0] + Concat(parts[1..])
  }

  lemma {:induction false} ConcatAppend(xs: seq<string>, ys: seq<string>)
    ensures Concat(xs + ys) == Concat(xs) + Concat(ys)
  {
    if xs == [] {
      assert xs + ys == ys;
    } else {
      assert (xs + ys)[1..] == xs[1..] + ys;
      ConcatAppend(xs[1..], ys);
    }
  }

  lemma ConcatSingle(text: string)
    ensures Concat([text]) == text
  {
    assert [text][1..] == [] && text + "" == text;
  }

  lemma ConcatNext(parts: seq<string>, part: string)
    ensures Concat(parts + [part]) == Concat(parts) + part
  {
    ConcatAppend(parts, [part]);
    ConcatSingle(part);
  }

  /** A list without the empty text. */
  function NonEmpty(text: string): seq<string> {
    if text == "" then [] else [text]
  }

  lemma ConcatNonEmpty(text: string)
    ensures Concat(NonEmpty(text)) == text
  {
    ConcatSingle(text);
  }

  // ---------- lines ----------

  /** What a line with a payload begins with. */
  const DATA := "data:"

  // ---------- trimming ----------

  /** unicode.IsSpace */
  predicate IsSpace(c: char) {
    || '\t' <= c <= '\r' || c == ' ' || c == '\U{0085}' || c == '\U{00A0}'
    || c == '\U{1680}' || '\U{2000}' <= c <= '\U{200A}' || c == '\U{2028}' || c == '\U{2029}'
    || c == '\U{202F}' || c == '\U{205F}' || c == '\U{3000}'
  }

  function TrimStart(p: char -> bool, s: string): string {
    if s != "" && p(s[0]) then TrimStart(p, s[1..]) else s
  }

  function TrimEnd(p: char -> bool, s: string): string {
    if s != "" && p(s[|s|-1]) then TrimEnd(p, s[..|s|-1]) else s
  }

  /** s without the characters of p at either end. */
  function TrimBy(p: char -> bool, s: string): string {
    TrimEnd(p, TrimStart(p, s))
  }

  predicate All(p: char -> bool, s: string) {
    forall k | 0 <= k < |s| :: p(s[k])
  }

  predicate TrimmedBy(p: char -> bool, s: string) {
    s != "" ==> !p(s[0]) && !p(s[|s|-1])
  }

  lemma {:induction false} TrimStartBehind(p: char -> bool, u: string, s: string)
    requires All(p, u)
    ensures TrimStart(p, u + s) == TrimStart(p, s)
    decreases |u|
  {
    if u == "" {
      assert u + s == s;
    } else {
      assert (u + s)[0] == u[0] && (u + s)[1..] == u[1..] + s;
      TrimStartBehind(p, u[1..], s);
    }
  }

  lemma {:induction false} TrimEndBefore(p: char -> bool, s: string, w: string)
    requires All(p, w)
    ensures TrimEnd(p, s + w) == TrimEnd(p, s)
    decreases |w|
  {
    if w == "" {
      assert s + w == s;
    } else {
      assert (s + w)[|s + w|-1] == w[|w|-1] && (s + w)[..|s + w|-1] == s + w[..|w|-1];
      TrimEndBefore(p, s, w[..|w|-1]);
    }
  }

  /** What is left at the start is either a suffix that begins otherwise, or nothing. */
  lemma {:induction false} TrimStartMore(p: char -> bool, s: string, w: string)
    requires All(p, w)
    ensures TrimStart(p, s + w) == if TrimStart(p, s) == "" then "" else TrimStart(p, s) + w
    decreases |s|
  {
    if s == "" {
      assert s + w == w == w + "";
      TrimStartBehind(p, w, "");
    } else {
      assert (s + w)[0] == s[0] && (s + w)[1..] == s[1..] + w;
      if p(s[0]) {
        TrimStartMore(p, s[1..], w);
      }
    }
  }

  /** Such characters around a text make no difference. */
  lemma TrimAround(p: char -> bool, u: string, s: string, w: string)
    requires All(p, u) && All(p, w)
    ensures TrimBy(p, u + s + w) == TrimBy(p, s)
  {
    Regroup(u, s, w);
    TrimStartBehind(p, u, s + w);
    TrimStartMore(p, s, w);
    TrimEndBefore(p, TrimStart(p, s), w);
  }

  /** And they alone are taken away. */
  lemma TrimExactly(p: char -> bool, u: string, s: string, w: string)
    requires All(p, u) && All(p, w) && TrimmedBy(p, s)
    ensures TrimBy(p, u + s + w) == s
  {
    TrimAround(p, u, s, w);
  }

  lemma {:induction false} TrimStartShorter(p: char -> bool, s: string)
    ensures |TrimStart(p, s)| <= |s| && (|TrimStart(p, s)| == |s| ==> TrimStart(p, s) == s)
  {
    if s != "" && p(s[0]) {
      TrimStartShorter(p, s[1..]);
    }
  }

  lemma {:induction false} TrimEndShorter(p: char -> bool, s: string)
    ensures |TrimEnd(p, s)| <= |s| && (|TrimEnd(p, s)| == |s| ==> TrimEnd(p, s) == s)
    decreases |s|
  {
    if s != "" && p(s[|s|-1]) {
      TrimEndShorter(p, s[..|s|-1]);
    }
  }

  lemma TrimShorter(p: char -> bool, s: string)
    ensures |TrimBy(p, s)| <= |s| && (|TrimBy(p, s)| == |s| ==> TrimBy(p, s) == s)
  {
    TrimStartShorter(p, s);
    TrimEndShorter(p, TrimStart(p, s));
  }

  /** strings.TrimSpace */
  function Trim(s: string): string {
    TrimBy(IsSpace, s)
  }

  predicate Trimmed(s: string) {
    TrimmedBy(IsSpace, s)
  }

  lemma TrimTrimmed(s: string)
    requires Trimmed(s)
    ensures Trim(s) == s && Trim(" " + s) == s
  {
    TrimExactly(IsSpace, "", s, "");
    TrimExactly(IsSpace, " ", s, "");
    assert "" + s + "" == s && " " + s + "" == " " + s;
  }

  // ---------- the masker's release points ----------

  /** One of the characters after which the masker may release text. */
  predicate IsBreak(c: char) {
    c == ' ' || c == '\t' || c == '\n' || c == '\r'
  }

  predicate NoBreak(s: string) {
    forall k | 0 <= k < |s| :: !IsBreak(s[k])
  }

  predicate EndsInBreak(s: string) {
    s != "" && IsBreak(s[|s|-1])
  }

  /** How many break characters s has. */
  function Breaks(s: string): nat {
    if s == "" then 0 else (if IsBreak(s[0]) then 1 else 0) + Breaks(s[1..])
  }

  lemma {:induction false} BreaksAppend(a: string, b: string)
    ensures Breaks(a + b) == Breaks(a) + Breaks(b)
  {
    if a == "" {
      assert a + b == b;
    } else {
      assert (a + b)[1..] == a[1..] + b;
      BreaksAppend(a[1..], b);
    }
  }

  lemma {:induction false} BreaksZero(s: string)
    ensures Breaks(s) == 0 <==> NoBreak(s)
  {
    if s != "" {
      BreaksZero(s[1..]);
      assert forall k | 1 <= k < |s| :: s[k] == s[1..][k-1];
    }
  }
}
