/** Section 9.2.6 of the HTML Living Standard, "Interpreting an event stream", as a second reader of the same lines. */
module SseStandard {
  import opened Text
  import opened Sse

  /** The offset of the first colon, or the length of the line. */
  function Colon(line: string): (k: nat)
    ensures k <= |line| && ':' !in line[..k] && (k < |line| ==> line[k] == ':')
  {
    if line == "" || line[0] == ':' then 0
    else
      var k := Colon(line[1..]);
      assert line[..k+1] == [line[0]] + line[1..][..k];
      k + 1
  }

  function FieldOf(line: string): string {
    line[..Colon(line)]
  }

  /** What follows the colon, without one leading space. */
  function ValueOf(line: string): string {
    var rest := if Colon(line) < |line| then line[Colon(line)+1..] else "";
    if rest != "" && rest[0] == ' ' then rest[1..] else rest
  }

  /** The events dispatched; `data` is the data buffer, in which every line ends with a newline. */
  function Interpret(lines: seq<string>, name: string, data: string): seq<Event>
    decreases |lines|
  {
    if lines == [] then []
    else
      var (line, rest) := (lines[0], lines[1..]);
      if line == "" then
        (if data == "" then [] else [Event(name, data[..|data|-1])]) + Interpret(rest, "", "")
      else if line[0] == ':' then Interpret(rest, name, data)
      else if FieldOf(line) == "event" then Interpret(rest, ValueOf(line), data)
      else if FieldOf(line) == "data" then Interpret(rest, name, data + ValueOf(line) + "\n")
      else Interpret(rest, name, data)
  }

  lemma {:induction false} ColonAfter(word: string, rest: string)
    requires ':' !in word
    ensures Colon(word + ":" + rest) == |word|
  {
    var line := word + ":" + rest;
    if word != "" {
      assert line[0] == word[0] && line[1..] == word[1..] + ":" + rest;
      ColonAfter(word[1..], rest);
    }
  }

  lemma FieldPrinted(word: string, value: string)
    requires ':' !in word && word != ""
    ensures var line := word + ":" + " " + value;
            line != "" && line[0] != ':' && FieldOf(line) == word && ValueOf(line) == value
  {
    var line := word + ":" + " " + value;
    ColonAfter(word, " " + value);
    assert line == word + ":" + (" " + value);
    assert line[..|word|] == word && line[|word|+1..] == " " + value && (" " + value)[1..] == value;
  }

  function Terminated(data: seq<string>): string {
    if data == [] then "" else data[0] + "\n" + Terminated(data[1..])
  }

  lemma {:induction false} TerminatedIsJoin(data: seq<string>)
    requires data != []
    ensures Terminated(data) == Join(data) + "\n"
  {
    if |data| == 1 {
      assert Terminated(data[1..]) == "";
    } else {
      TerminatedIsJoin(data[1..]);
      assert data[0] + "\n" + (Join(data[1..]) + "\n") == (data[0] + "\n" + Join(data[1..])) + "\n";
    }
  }

  lemma InterpretLine(value: string, rest: seq<string>, name: string, data: string)
    ensures Interpret([DATA + " " + value] + rest, name, data) == Interpret(rest, name, data + value + "\n")
  {
    var lines := [DATA + " " + value] + rest;
    TailAppend([DATA + " " + value], rest);
    FieldPrinted("data", value);
    assert lines[0] == "data" + ":" + " " + value;
  }

  lemma {:induction false} InterpretData(more: seq<string>, rest: seq<string>, name: string, data: string)
    ensures Interpret(DataLines(more) + rest, name, data) == Interpret(rest, name, data + Terminated(more))
    decreases |more|
  {
    hide Interpret;
    if more == [] {
      assert DataLines(more) + rest == rest && data + "" == data;
    } else {
      Regroup([DATA + " " + more[0]], DataLines(more[1..]), rest);
      InterpretLine(more[0], DataLines(more[1..]) + rest, name, data);
      InterpretData(more[1..], rest, name, data + more[0] + "\n");
      assert data + more[0] + "\n" + Terminated(more[1..]) == data + (more[0] + "\n" + Terminated(more[1..]));
    }
  }

  lemma InterpretFields(f: Fields, rest: seq<string>)
    ensures Interpret(PrintFields(f) + rest, "", "") == Interpret(rest, f.name, Terminated(f.data))
  {
    var lines := PrintFields(f) + rest;
    if f.name == "" {
      assert lines == DataLines(f.data) + rest;
    } else {
      FieldPrinted("event", f.name);
      assert lines[0] == "event" + ":" + " " + f.name && lines[1..] == DataLines(f.data) + rest;
    }
    InterpretData(f.data, rest, f.name, "");
    assert "" + Terminated(f.data) == Terminated(f.data);
  }

  // ---------- any printed event, read by both ----------

  function TrimAll(data: seq<string>): (r: seq<string>)
    ensures |r| == |data|
  {
    if data == [] then [] else [Trim(data[0])] + TrimAll(data[1..])
  }

  /** What the gateway's reader dispatches for one terminated event. */
  function Scanned(f: Fields): seq<Event> {
    var e := Event(Trim(f.name), JoinData("", TrimAll(f.data)));
    if e.name == "" && e.data == "" then [] else [e]
  }

  /** What the standard dispatches. */
  function Dispatched(f: Fields): seq<Event> {
    if f.data == [] then [] else [Event(f.name, Join(f.data))]
  }

  predicate Always(e: Event) {
    true
  }

  lemma TrimSpace(s: string)
    ensures Trim(" " + s) == Trim(s)
  {
    assert (" " + s)[1..] == s && IsSpace(' ');
  }

  lemma {:induction false} ScanUntrimmed(more: seq<string>, rest: seq<string>, name: string, data: string)
    ensures Scan(DataLines(more) + rest, name, data, Always) ==
            Scan(rest, name, JoinData(data, TrimAll(more)), Always)
    decreases |more|
  {
    if more == [] {
      assert DataLines(more) + rest == rest;
    } else {
      var line := DATA + " " + more[0];
      var next := AddData(data, " " + more[0]);
      Regroup([line], DataLines(more[1..]), rest);
      TailAppend([line], DataLines(more[1..]) + rest);
      assert line[0] == 'd' && line[|DATA|..] == " " + more[0];
      TrimSpace(more[0]);
      ScanUntrimmed(more[1..], rest, name, next);
      hide Trim;
      assert TrimAll(more)[1..] == TrimAll(more[1..]);
    }
  }

  lemma ScanAnyName(name: string, rest: seq<string>)
    ensures Scan([EVENT + " " + name] + rest, "", "", Always) == Scan(rest, Trim(name), "", Always)
  {
    var line := EVENT + " " + name;
    TailAppend([line], rest);
    assert line[0] == 'e' && line[|EVENT|..] == " " + name;
    TrimSpace(name);
  }

  lemma ScanTerminated(f: Fields, rest: seq<string>)
    ensures Scan(PrintFields(f) + [""] + rest, "", "", Always) == Scanned(f) + Scan(rest, "", "", Always)
  {
    hide Scan, Trim, JoinData, DataLines, TrimAll;
    var name, data := Trim(f.name), JoinData("", TrimAll(f.data));
    Regroup(PrintFields(f), [""], rest);
    ScanUntrimmed(f.data, [""] + rest, name, "");
    if f.name == "" {
      assert Trim("") == "" by { TrimTrimmed(""); }
      assert PrintFields(f) == DataLines(f.data);
    } else {
      ScanAnyName(f.name, DataLines(f.data) + ([""] + rest));
      Regroup([EVENT + " " + f.name], DataLines(f.data), [""] + rest);
    }
    ScanEnd(rest, name, data);
  }

  lemma ScanEnd(rest: seq<string>, name: string, data: string)
    ensures Scan([""] + rest, name, data, Always) ==
            (if name == "" && data == "" then [] else [Event(name, data)]) + Scan(rest, "", "", Always)
  {
    TailAppend([""], rest);
  }

  lemma InterpretTerminated(f: Fields, rest: seq<string>)
    ensures Interpret(PrintFields(f) + [""] + rest, "", "") == Dispatched(f) + Interpret(rest, "", "")
  {
    hide PrintFields, FieldOf, ValueOf;
    Regroup(PrintFields(f), [""], rest);
    InterpretFields(f, [""] + rest);
    TailAppend([""], rest);
    if f.data != [] {
      TerminatedIsJoin(f.data);
      HalvesAppend(Join(f.data), "\n");
    }
  }

  function AllScanned(fs: seq<Fields>): seq<Event> {
    if fs == [] then [] else Scanned(fs[0]) + AllScanned(fs[1..])
  }

  function AllDispatched(fs: seq<Fields>): seq<Event> {
    if fs == [] then [] else Dispatched(fs[0]) + AllDispatched(fs[1..])
  }

  lemma {:induction false} BothReaders(fs: seq<Fields>)
    ensures Scan(PrintAll(fs), "", "", Always) == AllScanned(fs)
    ensures Interpret(PrintAll(fs), "", "") == AllDispatched(fs)
  {
    if fs != [] {
      hide Scan, Interpret, PrintFields, Scanned, Dispatched;
      ScanTerminated(fs[0], PrintAll(fs[1..]));
      InterpretTerminated(fs[0], PrintAll(fs[1..]));
      BothReaders(fs[1..]);
    }
  }

  // ---------- when they agree ----------

  predicate AllTrimmed(data: seq<string>) {
    forall k | 0 <= k < |data| :: Trim(data[k]) == data[k]
  }

  lemma {:induction false} JoinTrimmed(data: seq<string>)
    ensures |Join(TrimAll(data))| <= |Join(data)|
    ensures |Join(TrimAll(data))| == |Join(data)| <==> AllTrimmed(data)
    ensures AllTrimmed(data) <==> TrimAll(data) == data
  {
    if data != [] {
      TrimShorter(IsSpace, data[0]);
      JoinTrimmed(data[1..]);
      hide Trim;
      assert AllTrimmed(data) <==> Trim(data[0]) == data[0] && AllTrimmed(data[1..]) by { AllTrimmedNext(data); }
      assert data == [data[0]] + data[1..] && TrimAll(data)[1..] == TrimAll(data[1..]);
    }
  }

  lemma AllTrimmedNext(data: seq<string>)
    requires data != []
    ensures AllTrimmed(data) <==> Trim(data[0]) == data[0] && AllTrimmed(data[1..])
  {
    hide Trim;
    assert forall k | 1 <= k < |data| :: data[k] == data[1..][k-1];
  }

  /** The data that both readers see is the same. */
  lemma SameData(data: seq<string>)
    ensures JoinData("", TrimAll(data)) == Join(data) <==> AllTrimmed(data) && (|data| <= 1 || data[0] != "")
  {
    JoinTrimmed(data);
    JoinDataIsJoin(TrimAll(data));
    if data != [] {
      JoinDataShort(TrimAll(data));
    }
  }

  /**
   The events on which the gateway's reader follows the standard: with data, its
   fields carry no space around them, its first line is not a lost empty one, and
   it is not all empty; without data, it has no name either.
  */
  predicate Standard(f: Fields) {
    if f.data == [] then Trim(f.name) == ""
    else
      && Trim(f.name) == f.name && AllTrimmed(f.data)
      && (|f.data| <= 1 || f.data[0] != "")
      && (f.name != "" || f.data != [""])
  }

  lemma StandardExactly(f: Fields)
    ensures Scanned(f) == Dispatched(f) <==> Standard(f)
  {
    hide Trim, TrimAll, AllTrimmed, Join, JoinData;
    SameData(f.data);
    NoData(f.data);
  }

  lemma NoData(data: seq<string>)
    ensures data == [] ==> JoinData("", TrimAll(data)) == ""
    ensures |data| <= 1 || data[0] != "" ==> (Join(data) == "" <==> data == [] || data == [""])
  {
    JoinDataIsJoin(data);
  }

  lemma {:induction false} AgreeUpTo(fs: seq<Fields>, n: nat)
    requires n <= |fs| && forall k | 0 <= k < n :: Standard(fs[k])
    ensures AllScanned(fs[..n]) == AllDispatched(fs[..n])
    decreases n
  {
    if n > 0 {
      hide Standard, Scanned, Dispatched;
      StandardExactly(fs[0]);
      assert fs[..n][1..] == fs[1..][..n-1];
      assert forall k | 0 <= k < n - 1 :: fs[1..][k] == fs[k+1];
      AgreeUpTo(fs[1..], n - 1);
    }
  }

  lemma {:induction false} LastScanned(fs: seq<Fields>)
    requires fs != []
    ensures AllScanned(fs) == AllScanned(fs[..|fs|-1]) + Scanned(fs[|fs|-1])
    ensures AllDispatched(fs) == AllDispatched(fs[..|fs|-1]) + Dispatched(fs[|fs|-1])
  {
    hide Scanned, Dispatched;
    if |fs| == 1 {
      assert fs[1..] == [] && fs[..0] == [];
    } else {
      LastScanned(fs[1..]);
      assert fs[1..][..|fs|-2] == fs[..|fs|-1][1..];
    }
  }

  /** After each of some terminated events the reader has dispatched what the standard has, exactly on these events. */
  lemma AgreesWithStandard(fs: seq<Fields>)
    ensures (forall n: nat | n <= |fs| ::
               Scan(PrintAll(fs[..n]), "", "", Always) == Interpret(PrintAll(fs[..n]), "", ""))
            <==> forall k | 0 <= k < |fs| :: Standard(fs[k])
  {
    hide Scan, Interpret, PrintAll, Standard, Scanned, Dispatched;
    forall n: nat | n <= |fs|
      ensures Scan(PrintAll(fs[..n]), "", "", Always) == AllScanned(fs[..n])
      ensures Interpret(PrintAll(fs[..n]), "", "") == AllDispatched(fs[..n])
    {
      BothReaders(fs[..n]);
    }
    if forall k | 0 <= k < |fs| :: Standard(fs[k]) {
      forall n: nat | n <= |fs|
        ensures AllScanned(fs[..n]) == AllDispatched(fs[..n])
      {
        AgreeUpTo(fs, n);
      }
    } else {
      var k :| 0 <= k < |fs| && !Standard(fs[k]);
      LastScanned(fs[..k+1]);
      StandardExactly(fs[k]);
      assert fs[..k+1][..k] == fs[..k] && fs[..k+1][k] == fs[k];
      var before := AllScanned(fs[..k]);
      if before == AllDispatched(fs[..k]) {
        HalvesAppend(before, Scanned(fs[k]));
        HalvesAppend(before, Dispatched(fs[k]));
        assert AllScanned(fs[..k+1]) != AllDispatched(fs[..k+1]);
      }
    }
  }
}
