/** gateway/internal/provider/sse.go: reading Server-Sent Events. */
module Sse {
  import opened Text

  datatype Event = Event(name: string, data: string)

  // ---------- lines ----------

  /** dropCR of bufio.ScanLines */
  function DropCR(line: string): string {
    if line != "" && line[|line|-1] == '\r' then line[..|line|-1] else line
  }

  /** The tokens of bufio.ScanLines; `cur` is the line read so far. */
  function LinesFrom(cur: string, s: string): seq<string>
    decreases |s|
  {
    if s == "" then (if cur == "" then [] else [DropCR(cur)])
    else if s[0] == '\n' then [DropCR(cur)] + LinesFrom("", s[1..])
    else LinesFrom(cur + [s[0]], s[1..])
  }

  function Lines(s: string): seq<string> {
    LinesFrom("", s)
  }

  function Unlines(lines: seq<string>): string {
    if lines == [] then "" else lines[0] + "\n" + Unlines(lines[1..])
  }

  /** A line that survives being printed and read back. */
  predicate IsLine(line: string) {
    '\n' !in line && DropCR(line) == line
  }

  lemma {:induction false} LinesFromLine(cur: string, line: string, rest: string)
    requires '\n' !in line
    ensures LinesFrom(cur, line + "\n" + rest) == [DropCR(cur + line)] + LinesFrom("", rest)
    decreases |line|
  {
    var s := line + "\n" + rest;
    if line == "" {
      assert s[0] == '\n' && s[1..] == rest && cur + line == cur;
    } else {
      assert s[0] == line[0] && s[1..] == line[1..] + "\n" + rest;
      assert cur + [line[0]] + line[1..] == cur + line;
      LinesFromLine(cur + [line[0]], line[1..], rest);
    }
  }

  lemma {:induction false} LinesOfUnlines(lines: seq<string>)
    requires forall k | 0 <= k < |lines| :: IsLine(lines[k])
    ensures Lines(Unlines(lines)) == lines
  {
    if lines != [] {
      LinesFromLine("", lines[0], Unlines(lines[1..]));
      LinesOfUnlines(lines[1..]);
      assert "" + lines[0] == lines[0];
      assert lines == [lines[0]] + lines[1..];
    }
  }

  /** Each line with its own line ending. */
  function WithEnds(lines: seq<string>, ends: seq<string>): string
    requires |ends| == |lines|
  {
    if lines == [] then "" else lines[0] + ends[0] + WithEnds(lines[1..], ends[1..])
  }

  /**
   Line feeds end lines, also with a carriage return before them, and what stands
   behind the last of them is a line, too, unless it is empty.
  */
  lemma {:induction false} LinesExactly(lines: seq<string>, ends: seq<string>, last: string)
    requires |ends| == |lines| && forall k | 0 <= k < |ends| :: ends[k] == "\n" || ends[k] == "\r\n"
    requires (forall k | 0 <= k < |lines| :: NoEnd(lines[k])) && NoEnd(last)
    ensures Lines(WithEnds(lines, ends) + last) == lines + if last == "" then [] else [last]
  {
    hide LinesFrom, NoEnd;
    if lines == [] {
      assert "" + last == last;
      LastLine("", last);
    } else {
      var rest := WithEnds(lines[1..], ends[1..]);
      LinesExactly(lines[1..], ends[1..], last);
      OneLine(lines[0], ends[0], rest + last);
      Regroup(lines[0] + ends[0], rest, last);
      assert lines == [lines[0]] + lines[1..];
    }
  }

  /** No line feed, and no carriage return at the end. */
  predicate NoEnd(line: string) {
    '\n' !in line && (line != "" ==> line[|line|-1] != '\r')
  }

  lemma OneLine(line: string, end: string, rest: string)
    requires (end == "\n" || end == "\r\n") && NoEnd(line)
    ensures LinesFrom("", line + end + rest) == [line] + LinesFrom("", rest)
  {
    hide LinesFrom;
    var read := if end == "\n" then line else line + "\r";
    assert line + end + rest == read + "\n" + rest && "" + read == read;
    LinesFromLine("", read, rest);
    assert read != line ==> read[..|read|-1] == line;
  }

  lemma {:induction false} LastLine(cur: string, last: string)
    requires NoEnd(cur + last)
    ensures LinesFrom(cur, last) == if cur + last == "" then [] else [cur + last]
    decreases |last|
  {
    if last == "" {
      assert cur + last == cur;
    } else {
      assert cur + [last[0]] + last[1..] == cur + last;
      LastLine(cur + [last[0]], last[1..]);
    }
  }

  // ---------- the scan ----------

  const EVENT := "event:"

  function AddData(data: string, line: string): string {
    (if data == "" then "" else data + "\n") + Trim(line)
  }

  /**
   The events handed to the callback, in order, when the remaining lines are read
   with these fields pending. Reading stops after an event the callback refuses.
  */
  function Scan(lines: seq<string>, name: string, data: string, goOn: Event -> bool): seq<Event>
    decreases |lines|
  {
    if lines == [] then
      if data == "" && name == "" then [] else [Event(name, data)]
    else
      var (line, rest) := (lines[0], lines[1..]);
      if line == "" then
        if data == "" && name == "" then Scan(rest, name, data, goOn)
        else [Event(name, data)] + if goOn(Event(name, data)) then Scan(rest, "", "", goOn) else []
      else if ":" <= line then Scan(rest, name, data, goOn)
      else if EVENT <= line then Scan(rest, Trim(line[|EVENT|..]), data, goOn)
      else if DATA <= line then Scan(rest, name, AddData(data, line[|DATA|..]), goOn)
      else Scan(rest, name, data, goOn)
  }

  /** scanSSE; `calls` collects the arguments the callback is invoked with. */
  method ScanSSE(body: string, goOn: Event -> bool) returns (calls: seq<Event>)
    ensures calls == Scan(Lines(body), "", "", goOn)
  {
    var lines := Lines(body);
    var name, data := "", "";
    calls := [];
    for i := 0 to |lines|
      invariant calls + Scan(lines[i..], name, data, goOn) == Scan(lines, "", "", goOn)
    {
      var line := lines[i];
      ghost var before := calls;
      assert lines[i..][0] == line && lines[i..][1..] == lines[i+1..];
      if line == "" {
        if data != "" || name != "" {
          var e := Event(name, data);
          calls := calls + [e];
          if !goOn(e) {
            return;
          }
          name, data := "", "";
          assert before + ([e] + Scan(lines[i+1..], "", "", goOn)) == calls + Scan(lines[i+1..], "", "", goOn);
        }
        continue;
      }
      if ":" <= line {
        continue;
      }
      if EVENT <= line {
        name := Trim(line[|EVENT|..]);
      } else if DATA <= line {
        if data != "" {
          data := data + "\n";
        }
        data := data + Trim(line[|DATA|..]);
      }
    }
    if data != "" || name != "" {
      calls := calls + [Event(name, data)];
    }
  }

  // ---------- lines that make no difference ----------

  /** Lines that are read alike wherever a scan has got to are read alike behind any lines. */
  lemma {:induction false} ScanSame(a: seq<string>, x: seq<string>, y: seq<string>, b: seq<string>,
                                    name: string, data: string, goOn: Event -> bool)
    requires forall n: string, d: string :: Scan(x + b, n, d, goOn) == Scan(y + b, n, d, goOn)
    ensures Scan(a + x + b, name, data, goOn) == Scan(a + y + b, name, data, goOn)
    decreases |a|
  {
    if a == [] {
      assert a + x + b == x + b && a + y + b == y + b;
    } else {
      var rest := a[1..];
      forall n: string, d: string
        ensures Scan(rest + x + b, n, d, goOn) == Scan(rest + y + b, n, d, goOn)
      {
        ScanSame(rest, x, y, b, n, d, goOn);
      }
      assert a + x + b == [a[0]] + (rest + x + b) && a + y + b == [a[0]] + (rest + y + b);
      SameHead(a[0], rest + x + b, rest + y + b, name, data, goOn);
    }
  }

  lemma SameHead(line: string, u: seq<string>, v: seq<string>, name: string, data: string, goOn: Event -> bool)
    requires forall n: string, d: string :: Scan(u, n, d, goOn) == Scan(v, n, d, goOn)
    ensures Scan([line] + u, name, data, goOn) == Scan([line] + v, name, data, goOn)
  {
    TailAppend([line], u);
    TailAppend([line], v);
    hide Trim;
  }

  /** A comment, and any other line that is neither a name nor data, is skipped, whatever is pending. */
  lemma OtherLinesSkipped(a: seq<string>, line: string, b: seq<string>, name: string, data: string, goOn: Event -> bool)
    requires line != "" && !("event:" <= line) && !("data:" <= line)
    ensures Scan(a + [line] + b, name, data, goOn) == Scan(a + b, name, data, goOn)
  {
    forall n: string, d: string
      ensures Scan([line] + b, n, d, goOn) == Scan([] + b, n, d, goOn)
    {
      TailAppend([line], b);
      assert [] + b == b;
    }
    ScanSame(a, [line], [], b, name, data, goOn);
    assert a + [] == a;
  }

  /** The value of a field is read without the spaces around it; there need be none. */
  lemma SpacesAroundValues(a: seq<string>, field: string, u: string, value: string, w: string, b: seq<string>,
                           name: string, data: string, goOn: Event -> bool)
    requires (field == "event:" || field == "data:") && All(IsSpace, u) && All(IsSpace, w)
    ensures Scan(a + [field + u + value + w] + b, name, data, goOn) ==
            Scan(a + [field + value] + b, name, data, goOn)
  {
    TrimAround(IsSpace, u, value, w);
    assert field + u + value + w == field + (u + value + w);
    forall n: string, d: string
      ensures Scan([field + u + value + w] + b, n, d, goOn) == Scan([field + value] + b, n, d, goOn)
    {
      hide Scan;
      if field == "event:" {
        NameLine(u + value + w, b, n, d, goOn);
        NameLine(value, b, n, d, goOn);
      } else {
        DataLine(u + value + w, b, n, d, goOn);
        DataLine(value, b, n, d, goOn);
      }
    }
    ScanSame(a, [field + u + value + w], [field + value], b, name, data, goOn);
  }

  lemma NameLine(v: string, rest: seq<string>, name: string, data: string, goOn: Event -> bool)
    ensures Scan(["event:" + v] + rest, name, data, goOn) == Scan(rest, Trim(v), data, goOn)
  {
    var line := "event:" + v;
    TailAppend([line], rest);
    assert line[0] == 'e' && line[|EVENT|..] == v;
    hide Trim;
  }

  lemma DataLine(v: string, rest: seq<string>, name: string, data: string, goOn: Event -> bool)
    ensures Scan(["data:" + v] + rest, name, data, goOn) == Scan(rest, name, AddData(data, v), goOn)
    ensures AddData(data, v) == (if data == "" then "" else data + "\n") + Trim(v)
  {
    var line := "data:" + v;
    TailAppend([line], rest);
    assert line[0] == 'd' && line[|DATA|..] == v;
    hide Trim;
  }

  /** Of several names the last counts, and it does not matter where among the data it stands. */
  lemma LastNameCounts(a: seq<string>, u: string, v: string, b: seq<string>,
                       name: string, data: string, goOn: Event -> bool)
    ensures Scan(a + ["event:" + u, "event:" + v] + b, name, data, goOn) ==
            Scan(a + ["event:" + v] + b, name, data, goOn)
    ensures Scan(a + ["data:" + u, "event:" + v] + b, name, data, goOn) ==
            Scan(a + ["event:" + v, "data:" + u] + b, name, data, goOn)
  {
    var one, two, text := "event:" + u, "event:" + v, "data:" + u;
    hide Scan, Trim, AddData;
    forall n: string, d: string
      ensures Scan([one, two] + b, n, d, goOn) == Scan([two] + b, n, d, goOn)
      ensures Scan([text, two] + b, n, d, goOn) == Scan([two, text] + b, n, d, goOn)
    {
      assert [one, two] + b == [one] + ([two] + b) && [text, two] + b == [text] + ([two] + b);
      assert [two, text] + b == [two] + ([text] + b);
      NameLine(u, [two] + b, n, d, goOn);
      NameLine(v, b, Trim(u), d, goOn);
      NameLine(v, b, n, d, goOn);
      DataLine(u, [two] + b, n, d, goOn);
      NameLine(v, b, n, AddData(d, u), goOn);
      NameLine(v, [text] + b, n, d, goOn);
      DataLine(u, b, Trim(v), d, goOn);
    }
    ScanSame(a, [one, two], [two], b, name, data, goOn);
    ScanSame(a, [text, two], [two, text], b, name, data, goOn);
  }

  // ---------- printing, and the round trip ----------

  /** An event as its fields: a name, possibly empty, and the lines of its data. */
  datatype Fields = Fields(name: string, data: seq<string>)

  function DataLines(data: seq<string>): seq<string> {
    if data == [] then [] else [DATA + " " + data[0]] + DataLines(data[1..])
  }

  function PrintFields(f: Fields): seq<string> {
    (if f.name == "" then [] else [EVENT + " " + f.name]) + DataLines(f.data)
  }

  function PrintAll(fs: seq<Fields>): seq<string> {
    if fs == [] then [] else PrintFields(fs[0]) + [""] + PrintAll(fs[1..])
  }

  /** The data lines joined with newlines, as the standard has it. */
  function Join(data: seq<string>): string {
    if data == [] then ""
    else if |data| == 1 then data[0]
    else data[0] + "\n" + Join(data[1..])
  }

  function EventOf(f: Fields): Event {
    Event(f.name, Join(f.data))
  }

  /** What the scanner accumulates, which forgets leading empty lines. */
  function JoinData(data: string, more: seq<string>): string
    decreases |more|
  {
    if more == [] then data else JoinData((if data == "" then "" else data + "\n") + more[0], more[1..])
  }

  lemma {:induction false} JoinDataFrom(data: string, more: seq<string>)
    requires data != "" && more != []
    ensures JoinData(data, more) == data + "\n" + Join(more)
    decreases |more|
  {
    var next := data + "\n" + more[0];
    if |more| == 1 {
      assert JoinData(next, more[1..]) == next;
    } else {
      JoinDataFrom(next, more[1..]);
      assert next + "\n" + Join(more[1..]) == data + "\n" + (more[0] + "\n" + Join(more[1..]));
    }
  }

  lemma {:induction false} JoinDataShort(data: seq<string>)
    requires data != []
    ensures |JoinData("", data)| <= |Join(data)|
    decreases |data|
  {
    assert "" + data[0] == data[0];
    if |data| == 1 {
      assert JoinData(data[0], data[1..]) == data[0];
    } else if data[0] == "" {
      JoinDataShort(data[1..]);
    } else {
      JoinDataFrom(data[0], data[1..]);
    }
  }

  /** The accumulated data is the lines joined with newlines exactly if no leading newline is lost. */
  lemma JoinDataIsJoin(data: seq<string>)
    ensures JoinData("", data) == Join(data) <==> |data| <= 1 || data[0] != ""
    ensures data != [] && data[0] != "" ==> Join(data) != ""
  {
    if data != [] {
      assert "" + data[0] == data[0];
      if |data| > 1 && data[0] == "" {
        JoinDataShort(data[1..]);
      } else if |data| > 1 {
        JoinDataFrom(data[0], data[1..]);
      }
    }
  }

  /** Trimmed one-line fields; the first data line is not empty, and an event without data has a name. */
  predicate Normal(f: Fields) {
    && Trimmed(f.name) && '\n' !in f.name
    && (forall k | 0 <= k < |f.data| :: Trimmed(f.data[k]) && '\n' !in f.data[k])
    && (if f.data == [] then f.name != "" else f.data[0] != "")
  }

  /** The events up to and including the first that is refused. */
  function Until(fs: seq<Fields>, goOn: Event -> bool): seq<Event> {
    if fs == [] then []
    else [EventOf(fs[0])] + if goOn(EventOf(fs[0])) then Until(fs[1..], goOn) else []
  }

  lemma {:induction false} ScanData(more: seq<string>, rest: seq<string>, name: string, data: string,
                                    goOn: Event -> bool)
    requires forall k | 0 <= k < |more| :: Trimmed(more[k])
    ensures Scan(DataLines(more) + rest, name, data, goOn) == Scan(rest, name, JoinData(data, more), goOn)
    decreases |more|
  {
    var lines := DataLines(more) + rest;
    if more == [] {
      assert lines == rest;
    } else {
      assert lines[0] == DATA + " " + more[0] && lines[1..] == DataLines(more[1..]) + rest;
      assert lines[0][0] == 'd' && lines[0][|DATA|..] == " " + more[0];
      TrimTrimmed(more[0]);
      var next := AddData(data, " " + more[0]);
      assert next == (if data == "" then "" else data + "\n") + more[0];
      ScanData(more[1..], rest, name, next, goOn);
    }
  }

  lemma ScanName(name: string, rest: seq<string>, goOn: Event -> bool)
    requires Trimmed(name)
    ensures Scan([EVENT + " " + name] + rest, "", "", goOn) == Scan(rest, name, "", goOn)
  {
    var line := EVENT + " " + name;
    TailAppend([line], rest);
    assert line[0] == 'e' && line[|EVENT|..] == " " + name;
    TrimTrimmed(name);
  }

  lemma ScanFields(f: Fields, rest: seq<string>, goOn: Event -> bool)
    requires Normal(f)
    ensures Scan(PrintFields(f) + rest, "", "", goOn) == Scan(rest, f.name, Join(f.data), goOn)
  {
    hide Scan, Join, JoinData, DataLines, Trim;
    JoinDataIsJoin(f.data);
    ScanData(f.data, rest, f.name, "", goOn);
    if f.name == "" {
      assert PrintFields(f) == DataLines(f.data);
    } else {
      ScanName(f.name, DataLines(f.data) + rest, goOn);
      Regroup([EVENT + " " + f.name], DataLines(f.data), rest);
    }
  }

  lemma NormalNotEmpty(f: Fields)
    requires Normal(f)
    ensures EventOf(f).name != "" || EventOf(f).data != ""
  {
    JoinDataIsJoin(f.data);
  }

  lemma ScanBlank(rest: seq<string>, name: string, data: string, goOn: Event -> bool)
    requires name != "" || data != ""
    ensures Scan([""] + rest, name, data, goOn) ==
            [Event(name, data)] + if goOn(Event(name, data)) then Scan(rest, "", "", goOn) else []
    ensures Scan([], name, data, goOn) == [Event(name, data)]
  {
    TailAppend([""], rest);
  }

  /** A printed event is delivered at its blank line, or where the stream ends. */
  lemma ScanEvent(f: Fields, rest: seq<string>, goOn: Event -> bool)
    requires Normal(f)
    ensures Scan(PrintFields(f) + [""] + rest, "", "", goOn) ==
            [EventOf(f)] + if goOn(EventOf(f)) then Scan(rest, "", "", goOn) else []
    ensures Scan(PrintFields(f), "", "", goOn) == [EventOf(f)]
  {
    hide Scan, Normal, PrintFields;
    NormalNotEmpty(f);
    ScanBlank(rest, f.name, Join(f.data), goOn);
    ScanFields(f, [""] + rest, goOn);
    Regroup(PrintFields(f), [""], rest);
    ScanFields(f, [], goOn);
    assert PrintFields(f) + [] == PrintFields(f);
  }

  lemma {:induction false} ScanPrinted(fs: seq<Fields>, goOn: Event -> bool)
    requires forall k | 0 <= k < |fs| :: Normal(fs[k])
    ensures Scan(PrintAll(fs), "", "", goOn) == Until(fs, goOn)
  {
    if fs != [] {
      hide Scan, Normal, PrintFields;
      ScanEvent(fs[0], PrintAll(fs[1..]), goOn);
      ScanPrinted(fs[1..], goOn);
    }
  }

  /** The last event may also end with the stream instead of a blank line. */
  lemma {:induction false} ScanUnterminated(fs: seq<Fields>, last: Fields, goOn: Event -> bool)
    requires Normal(last) && forall k | 0 <= k < |fs| :: Normal(fs[k])
    ensures Scan(PrintAll(fs) + PrintFields(last), "", "", goOn) == Until(fs + [last], goOn)
  {
    hide Scan, Normal, PrintFields;
    if fs == [] {
      ScanEvent(last, [], goOn);
      assert PrintAll(fs) + PrintFields(last) == PrintFields(last);
      assert fs + [last] == [last];
    } else {
      var rest := PrintAll(fs[1..]);
      Regroup(PrintFields(fs[0]) + [""], rest, PrintFields(last));
      ScanEvent(fs[0], rest + PrintFields(last), goOn);
      ScanUnterminated(fs[1..], last, goOn);
      TailAppend(fs, [last]);
    }
  }

  lemma PrintedLineOk(prefix: string, value: string)
    requires Trimmed(value) && '\n' !in value && prefix != "" && '\n' !in prefix && prefix[|prefix|-1] != '\r'
    ensures IsLine(prefix + value)
  {
    var line := prefix + value;
    assert line[|line|-1] == if value == "" then prefix[|prefix|-1] else value[|value|-1];
  }

  lemma {:induction false} DataLinesOk(data: seq<string>)
    requires forall k | 0 <= k < |data| :: Trimmed(data[k]) && '\n' !in data[k]
    ensures forall k | 0 <= k < |DataLines(data)| :: IsLine(DataLines(data)[k])
  {
    if data != [] {
      PrintedLineOk(DATA + " ", data[0]);
      DataLinesOk(data[1..]);
    }
  }

  lemma PrintFieldsOk(f: Fields)
    requires Normal(f)
    ensures forall k | 0 <= k < |PrintFields(f)| :: IsLine(PrintFields(f)[k])
  {
    DataLinesOk(f.data);
    PrintedLineOk(EVENT + " ", f.name);
  }

  lemma {:induction false} PrintAllOk(fs: seq<Fields>)
    requires forall k | 0 <= k < |fs| :: Normal(fs[k])
    ensures forall k | 0 <= k < |PrintAll(fs)| :: IsLine(PrintAll(fs)[k])
  {
    if fs != [] {
      PrintFieldsOk(fs[0]);
      PrintAllOk(fs[1..]);
    }
  }

  /** Scanning a printed stream delivers exactly the printed events, and none after a refusal. */
  lemma RoundTrip(fs: seq<Fields>, goOn: Event -> bool)
    requires forall k | 0 <= k < |fs| :: Normal(fs[k])
    ensures Scan(Lines(Unlines(PrintAll(fs))), "", "", goOn) == Until(fs, goOn)
  {
    PrintAllOk(fs);
    LinesOfUnlines(PrintAll(fs));
    ScanPrinted(fs, goOn);
  }

  lemma RoundTripUnterminated(fs: seq<Fields>, last: Fields, goOn: Event -> bool)
    requires Normal(last) && forall k | 0 <= k < |fs| :: Normal(fs[k])
    ensures Scan(Lines(Unlines(PrintAll(fs) + PrintFields(last))), "", "", goOn) == Until(fs + [last], goOn)
  {
    PrintAllOk(fs);
    PrintFieldsOk(last);
    LinesOfUnlines(PrintAll(fs) + PrintFields(last));
    ScanUnterminated(fs, last, goOn);
  }
}
