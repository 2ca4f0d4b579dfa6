/** The string methods that the api's Python code relies on. */
module PyText {
  import opened Text

  /** A line boundary of str.splitlines. */
  predicate IsLineBreak(c: char) {
    '\n' <= c <= '\r' || '\U{001C}' <= c <= '\U{001E}' || c == '\U{0085}' || c == '\U{2028}' || c == '\U{2029}'
  }

  function LinesFrom(cur: string, s: string): seq<string>
    decreases |s|
  {
    if s == "" then (if cur == "" then [] else [cur])
    else if "\r\n" <= s then [cur] + LinesFrom("", s[2..])
    else if IsLineBreak(s[0]) then [cur] + LinesFrom("", s[1..])
    else LinesFrom(cur + [s[0]], s[1..])
  }

  /** str.splitlines, by which httpx cuts a body into lines */
  function SplitLines(s: string): seq<string> {
    LinesFrom("", s)
  }

  predicate IsPySpace(c: char) {
    IsSpace(c) || '\U{001C}' <= c <= '\U{001F}'
  }

  function Strip(s: string): string {
    TrimBy(IsPySpace, s)
  }

  lemma {:induction false} LinesFromLine(cur: string, line: string, rest: string)
    requires forall k | 0 <= k < |line| :: !IsLineBreak(line[k])
    ensures LinesFrom(cur, line + "\n" + rest) == [cur + line] + LinesFrom("", rest)
    decreases |line|
  {
    var s := line + "\n" + rest;
    if line == "" {
      assert s[0] == '\n' && s[1..] == rest && cur + line == cur;
    } else {
      assert s[0] == line[0] && s[1..] == line[1..] + "\n" + rest;
      assert !("\r\n" <= s);
      assert cur + [line[0]] + line[1..] == cur + line;
      LinesFromLine(cur + [line[0]], line[1..], rest);
    }
  }

  /** The characters at which str.splitlines cuts. */
  lemma {:induction false} CutsAt(cur: string, line: string, c: char, rest: string)
    requires forall k | 0 <= k < |line| :: !IsLineBreak(line[k])
    requires c in {'\n', '\U{000B}', '\U{000C}', '\r', '\U{001C}', '\U{001D}', '\U{001E}',
                   '\U{0085}', '\U{2028}', '\U{2029}'}
    requires c == '\r' ==> rest == "" || rest[0] != '\n'
    ensures LinesFrom(cur, line + [c] + rest) == [cur + line] + LinesFrom("", rest)
  {
    assert IsLineBreak(c);
    hide IsLineBreak;
    assert line + [c] + rest == line + ([c] + rest);
    LinesFromPrefix(cur, line, [c] + rest);
    assert ([c] + rest)[1..] == rest && !("\r\n" <= [c] + rest);
  }

  /** A carriage return and a line feed end one line together. */
  lemma {:induction false} LinesFromCrLf(cur: string, line: string, rest: string)
    requires forall k | 0 <= k < |line| :: !IsLineBreak(line[k])
    ensures LinesFrom(cur, line + "\r\n" + rest) == [cur + line] + LinesFrom("", rest)
  {
    hide IsLineBreak;
    assert line + "\r\n" + rest == line + ("\r\n" + rest);
    LinesFromPrefix(cur, line, "\r\n" + rest);
    assert ("\r\n" + rest)[2..] == rest;
  }

  /** A line boundary inside a text cuts its first line short. */
  lemma {:induction false} FirstLineShort(cur: string, s: string, k: nat)
    requires k < |s| && IsLineBreak(s[k])
    ensures LinesFrom(cur, s) != []
    ensures |cur| <= |LinesFrom(cur, s)[0]| <= |cur| + k && LinesFrom(cur, s)[0][..|cur|] == cur
    decreases |s|
  {
    if !IsLineBreak(s[0]) {
      assert k > 0;
      FirstLineShort(cur + [s[0]], s[1..], k - 1);
      var line := LinesFrom(cur, s)[0];
      assert line[..|cur|] == line[..|cur| + 1][..|cur|];
    }
  }

  lemma {:induction false} LinesFromPrefix(cur: string, line: string, rest: string)
    requires forall k | 0 <= k < |line| :: !IsLineBreak(line[k])
    ensures LinesFrom(cur, line + rest) == LinesFrom(cur + line, rest)
    decreases |line|
  {
    if line == "" {
      assert line + rest == rest && cur + line == cur;
    } else {
      var s := line + rest;
      assert s[0] == line[0] && s[1..] == line[1..] + rest && !("\r\n" <= s);
      LinesFromPrefix(cur + [line[0]], line[1..], rest);
      assert cur + [line[0]] + line[1..] == cur + line;
    }
  }
}
