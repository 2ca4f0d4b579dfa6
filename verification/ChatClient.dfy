/** panel/lib/api.ts: the browser's reader of a streamed reply. */
module ChatClient {
  import opened Wrappers
  import opened Text
  import opened Frames

  // ---------- String.prototype.split ----------

  /** s.split("\n\n") */
  function Split(s: string): (parts: seq<string>)
    ensures |parts| > 0
    decreases |s|
  {
    if "\n\n" <= s then [""] + Split(s[2..])
    else if s == "" then [""]
    else Prepend(s[0], Split(s[1..]))
  }

  function Init(parts: seq<string>): seq<string>
    requires |parts| > 0
  {
    parts[..|parts|-1]
  }

  function Last(parts: seq<string>): string
    requires |parts| > 0
  {
    parts[|parts|-1]
  }

  lemma {:induction false} SplitUncut(s: string)
    requires |Split(s)| == 1
    ensures Split(s) == [s]
    decreases |s|
  {
    if s != "" && !("\n\n" <= s) {
      SplitUncut(s[1..]);
      assert [s[0]] + s[1..] == s;
    }
  }

  lemma SplitShort(s: string)
    requires |s| <= 1
    ensures |Split(s)| == 1
  {
    if |s| == 1 {
      assert s[1..] == "" && Split("") == [""];
    }
  }

  lemma PrependParts(c: char, parts: seq<string>, more: seq<string>)
    requires |parts| > 1 && |more| > 0
    ensures Init(Prepend(c, parts)) == Prepend(c, Init(parts)) && Last(Prepend(c, parts)) == Last(parts)
    ensures Prepend(c, Init(parts) + more) == Prepend(c, Init(parts)) + more
  {
  }

  lemma SplitFront(a: string, b: string)
    requires |Split(a)| > 1 && !("\n\n" <= a)
    ensures a != "" && Split(a) == Prepend(a[0], Split(a[1..])) && |Split(a[1..])| > 1
    ensures Split(a + b) == Prepend(a[0], Split(a[1..] + b))
  {
    if |a| <= 1 {
      SplitShort(a);
    }
    assert (a + b)[..2] == a[..2];
    assert (a + b)[1..] == a[1..] + b && (a + b)[0] == a[0];
  }

  lemma {:induction false} SplitTwo(a: string, b: string)
    requires "\n\n" <= a
    ensures Split(a) == [""] + Split(a[2..]) && Split(a + b) == [""] + Split(a[2..] + b)
    ensures Init(Split(a)) == [""] + Init(Split(a[2..])) && Last(Split(a)) == Last(Split(a[2..]))
  {
    assert (a + b)[..2] == a[..2] && (a + b)[2..] == a[2..] + b;
  }

  /** Text that arrives later can only extend the last, unfinished part. */
  lemma {:induction false} SplitAppend(a: string, b: string)
    ensures Split(a + b) == Init(Split(a)) + Split(Last(Split(a)) + b)
    decreases |a|
  {
    if |Split(a)| == 1 {
      SplitUncut(a);
    } else if "\n\n" <= a {
      SplitTwo(a, b);
      SplitAppend(a[2..], b);
      hide Split;
      Regroup([""], Init(Split(a[2..])), Split(Last(Split(a)) + b));
    } else {
      SplitFront(a, b);
      SplitAppend(a[1..], b);
      hide Split;
      PrependParts(a[0], Split(a[1..]), Split(Last(Split(a[1..])) + b));
    }
  }

  lemma {:induction false} LastUncut(s: string)
    ensures |Split(Last(Split(s)))| == 1
    decreases |s|
  {
    if |Split(s)| == 1 {
      SplitUncut(s);
    } else if "\n\n" <= s {
      LastUncut(s[2..]);
    } else {
      SplitFront(s, "");
      LastUncut(s[1..]);
      hide Split;
      PrependParts(s[0], Split(s[1..]), [""]);
    }
  }

  /** s.split("\n").find(l => l.startsWith("data:")), on the line that starts at the front of s */
  function FindData(s: string): (line: Option<string>)
    ensures line.Some? ==> DATA <= line.value
  {
    var line := FirstLine(s);
    if DATA <= line then Some(line)
    else if |line| == |s| then None
    else FindData(s[|line|+1..])
  }

  function FirstLine(s: string): (line: string)
    ensures line <= s && '\n' !in line && (|line| < |s| ==> s[|line|] == '\n')
  {
    if s == "" || s[0] == '\n' then "" else [s[0]] + FirstLine(s[1..])
  }

  // ---------- one event ----------

  /** String.prototype.trim: Go's spaces without U+0085, and the byte order mark. */
  predicate IsJsSpace(c: char) {
    (IsSpace(c) && c != '\U{0085}') || c == '\U{FEFF}'
  }

  function JsTrim(s: string): string {
    TrimBy(IsJsSpace, s)
  }

  lemma JsTrimWhole(p: string)
    requires Whole(p)
    ensures JsTrim(" " + p) == p
  {
    TrimExactly(IsJsSpace, " ", p, "");
    assert " " + p + "" == " " + p;
  }

  /** What the page is told. */
  datatype Message = Delta(text: string) | Error(text: string)

  function Payload(evt: string): Option<string> {
    match FindData(evt)
    case None => None
    case Some(line) => Some(JsTrim(line[|DATA|..]))
  }

  function Messages(codec: Codec, payload: string): seq<Message> {
    match codec.jsDecode(payload)
    case None => []
    case Some(chunk) =>
      if Piece(chunk) == "" then [] else if chunk.error then [Error(Piece(chunk))] else [Delta(Piece(chunk))]
  }

  /** The messages of complete events, up to the sentinel. */
  function Handle(codec: Codec, events: seq<string>): seq<Message> {
    if events == [] then []
    else
      match Payload(events[0])
      case None => Handle(codec, events[1..])
      case Some(p) => if p == DONE then [] else Messages(codec, p) + Handle(codec, events[1..])
  }

  predicate HasDone(events: seq<string>) {
    exists k | 0 <= k < |events| :: Payload(events[k]) == Some(DONE)
  }

  lemma {:induction false} HandleAppend(codec: Codec, a: seq<string>, b: seq<string>)
    ensures Handle(codec, a + b) == Handle(codec, a) + if HasDone(a) then [] else Handle(codec, b)
  {
    if a == [] {
      assert a + b == b;
    } else {
      HandleAppend(codec, a[1..], b);
      TailAppend(a, b);
      HasDoneFirst(a);
      hide Payload, Messages, HasDone;
      HandleFirst(codec, a);
      HandleFirst(codec, a + b);
      var p := Payload(a[0]);
      if p.Some? && p.value != DONE {
        hide Handle;
        Regroup(Messages(codec, p.value), Handle(codec, a[1..]), if HasDone(a) then [] else Handle(codec, b));
      }
    }
  }

  lemma HandleFirst(codec: Codec, events: seq<string>)
    requires events != []
    ensures Handle(codec, events) ==
            match Payload(events[0])
            case None => Handle(codec, events[1..])
            case Some(p) => if p == DONE then [] else Messages(codec, p) + Handle(codec, events[1..])
  {
  }

  lemma HasDoneFirst(a: seq<string>)
    requires a != []
    ensures HasDone(a) <==> Payload(a[0]) == Some(DONE) || HasDone(a[1..])
  {
    hide Payload;
    if HasDone(a) && Payload(a[0]) != Some(DONE) {
      var k :| 0 <= k < |a| && Payload(a[k]) == Some(DONE);
      assert a[1..][k-1] == a[k];
    }
    if HasDone(a[1..]) {
      var k :| 0 <= k < |a[1..]| && Payload(a[1..][k]) == Some(DONE);
      assert a[k+1] == a[1..][k];
    }
  }

  lemma {:induction false} FindDataFirst(line: string, rest: string)
    requires '\n' !in line && (rest == "" || rest[0] == '\n')
    ensures FindData(line + rest) ==
            if DATA <= line then Some(line) else if rest == "" then None else FindData(rest[1..])
  {
    LineThen(line, rest);
    hide FirstLine;
    FindDataIs(line + rest);
    if rest != "" {
      hide FindData;
      assert (line + rest)[|line|+1..] == rest[1..];
    } else {
      assert line + rest == line;
    }
  }

  lemma {:induction false} FindDataIs(s: string)
    ensures var line := FirstLine(s);
            FindData(s) ==
            if DATA <= line then Some(line) else if |line| == |s| then None else FindData(s[|line|+1..])
  {
    hide FirstLine;
  }

  lemma {:induction false} AboveSkipped(before: seq<string>, s: string)
    requires forall k | 0 <= k < |before| :: '\n' !in before[k] && !("data:" <= before[k])
    ensures FindData(Above(before) + s) == FindData(s)
  {
    hide FindData;
    if before == [] {
      assert "" + s == s;
    } else {
      var rest := "\n" + (Above(before[1..]) + s);
      assert Above(before) + s == before[0] + rest && rest[1..] == Above(before[1..]) + s;
      FindDataFirst(before[0], rest);
      AboveSkipped(before[1..], s);
    }
  }

  /** An event's payload is its first data line, trimmed, whatever lines stand before and behind it. */
  lemma FirstDataLine(before: seq<string>, value: string, more: string)
    requires forall k | 0 <= k < |before| :: '\n' !in before[k] && !("data:" <= before[k])
    requires '\n' !in value && (more == "" || more[0] == '\n')
    ensures Payload(Above(before) + ("data:" + value + more)) == Some(JsTrim(value))
  {
    hide FindData, JsTrim, Above;
    var line := "data:" + value;
    AboveSkipped(before, line + more);
    FindDataFirst(line, more);
    assert line[|DATA|..] == value;
  }

  /** An event without a data line has none. */
  lemma NoDataLine(before: seq<string>, last: string)
    requires forall k | 0 <= k < |before| :: '\n' !in before[k] && !("data:" <= before[k])
    requires '\n' !in last && !("data:" <= last)
    ensures Payload(Above(before) + last).None?
  {
    hide FindData, Above;
    AboveSkipped(before, last);
    FindDataFirst(last, "");
    assert last + "" == last;
  }

  /** Lines, each with its line feed. */
  function Above(lines: seq<string>): string {
    if lines == [] then "" else lines[0] + "\n" + Above(lines[1..])
  }

  lemma {:induction false} LineThen(line: string, rest: string)
    requires '\n' !in line && (rest == "" || rest[0] == '\n')
    ensures FirstLine(line + rest) == line
  {
    if line == "" {
      assert line + rest == rest;
    } else {
      assert (line + rest)[0] == line[0] && (line + rest)[1..] == line[1..] + rest;
      LineThen(line[1..], rest);
      assert [line[0]] + line[1..] == line;
    }
  }

  /** Nothing is shown for the payload: it cannot be read, or its chunk has no text. */
  predicate Silent(codec: Codec, payload: string) {
    && payload != DONE
    && (codec.jsDecode(payload).None? || Piece(codec.jsDecode(payload).value) == "")
  }

  /** Events without a data line, and those for which nothing is shown, make no difference. */
  lemma {:induction false} SilentEvents(codec: Codec, a: seq<string>, evt: string, b: seq<string>)
    requires Payload(evt).None? || Silent(codec, Payload(evt).value)
    ensures Handle(codec, a + [evt] + b) == Handle(codec, a + b)
    decreases |a|
  {
    hide Payload;
    if a == [] {
      TailAppend([evt], b);
      assert a + [evt] + b == [evt] + b && a + b == b && [] + Handle(codec, b) == Handle(codec, b);
    } else {
      SilentEvents(codec, a[1..], evt, b);
      assert a + [evt] + b == [a[0]] + (a[1..] + [evt] + b) && a + b == [a[0]] + (a[1..] + b);
      TailAppend([a[0]], a[1..] + [evt] + b);
      TailAppend([a[0]], a[1..] + b);
      hide Messages;
    }
  }

  // ---------- the read loop ----------

  /** streamChat: the messages do not depend on how the body is cut into reads. */
  method StreamChat(codec: Codec, chunks: seq<string>) returns (out: seq<Message>)
    ensures out == Handle(codec, Init(Split(Concat(chunks))))
  {
    var buffer := "";
    out := [];
    ghost var done: seq<string> := []; // events handled so far
    EmptyStart(codec);
    hide Split, Handle, HasDone, Payload, Messages, Concat;
    assert chunks[..0] == [] && done + [buffer] == [""];
    for i := 0 to |chunks|
      invariant Split(Concat(chunks[..i])) == done + [buffer] && |Split(buffer)| == 1
      invariant out == Handle(codec, done) && !HasDone(done)
    {
      ReadExtends(chunks, i, done, buffer);
      buffer := buffer + chunks[i];
      var events := Split(buffer);
      buffer := events[|events|-1];
      events := events[..|events|-1];
      var stopped;
      out, stopped := HandleAll(codec, events, out, done);
      if stopped {
        FinishEarly(codec, chunks, i, done + events);
        return;
      }
      done := done + events;
    }
    assert chunks[..|chunks|] == chunks;
    assert Init(done + [buffer]) == done;
  }

  lemma EmptyStart(codec: Codec)
    ensures Split(Concat([])) == [""] && |Split("")| == 1
    ensures Handle(codec, []) == [] && !HasDone([])
  {
  }

  lemma ReadExtends(chunks: seq<string>, i: nat, done: seq<string>, buffer: string)
    requires i < |chunks| && Split(Concat(chunks[..i])) == done + [buffer] && |Split(buffer)| == 1
    ensures var events := Split(buffer + chunks[i]);
            && Split(Concat(chunks[..i+1])) == done + Init(events) + [Last(events)]
            && |Split(Last(events))| == 1
  {
    hide Split;
    var before, events := Concat(chunks[..i]), Split(buffer + chunks[i]);
    assert chunks[..i+1] == chunks[..i] + [chunks[i]];
    ConcatNext(chunks[..i], chunks[i]);
    SplitAppend(before, chunks[i]);
    assert Init(done + [buffer]) == done && Last(done + [buffer]) == buffer;
    assert Split(before + chunks[i]) == done + events;
    LastUncut(buffer + chunks[i]);
    assert events == Init(events) + [Last(events)];
  }

  /** The inner loop over the events that one read completed. */
  method HandleAll(codec: Codec, events: seq<string>, before: seq<Message>, ghost done: seq<string>)
    returns (out: seq<Message>, stopped: bool)
    requires before == Handle(codec, done) && !HasDone(done)
    ensures out == Handle(codec, done + events)
    ensures stopped <==> HasDone(done + events)
  {
    out, stopped := before, false;
    hide Handle, HasDone, Payload, Messages;
    assert done + events[..0] == done;
    for j := 0 to |events|
      invariant out == Handle(codec, done + events[..j]) && !HasDone(done + events[..j])
    {
      NextElement(events, j);
      Regroup(done, events[..j], [events[j]]);
      HandleNext(codec, done + events[..j], events[j]);
      var payload := Payload(events[j]);
      if payload == Some(DONE) {
        assert events == events[..j+1] + events[j+1..];
        Regroup(done, events[..j+1], events[j+1..]);
        HandleAppend(codec, done + events[..j+1], events[j+1..]);
        HasDoneMore(done + events[..j+1], events[j+1..]);
        stopped := true;
        return;
      }
      if payload.Some? {
        out := out + Messages(codec, payload.value);
      }
    }
    assert events[..|events|] == events;
  }

  lemma HandleNext(codec: Codec, done: seq<string>, evt: string)
    requires !HasDone(done)
    ensures var p := Payload(evt);
            && (HasDone(done + [evt]) <==> p == Some(DONE))
            && Handle(codec, done + [evt]) ==
               Handle(codec, done) + if p.Some? && p.value != DONE then Messages(codec, p.value) else []
  {
    HandleAppend(codec, done, [evt]);
    assert (done + [evt])[|done|] == evt;
    assert Handle(codec, []) == [];
  }

  lemma HasDoneMore(a: seq<string>, b: seq<string>)
    requires HasDone(a)
    ensures HasDone(a + b)
  {
    var k :| 0 <= k < |a| && Payload(a[k]) == Some(DONE);
    assert (a + b)[k] == a[k];
  }

  /** What follows the sentinel is never looked at. */
  lemma FinishEarly(codec: Codec, chunks: seq<string>, i: nat, events: seq<string>)
    requires i < |chunks| && HasDone(events)
    requires Init(Split(Concat(chunks[..i+1]))) == events
    ensures Handle(codec, Init(Split(Concat(chunks)))) == Handle(codec, events)
  {
    var a, b := Concat(chunks[..i+1]), Concat(chunks[i+1..]);
    assert chunks == chunks[..i+1] + chunks[i+1..];
    ConcatAppend(chunks[..i+1], chunks[i+1..]);
    SplitAppend(a, b);
    var tail := Split(Last(Split(a)) + b);
    assert Init(Split(a + b)) == events + Init(tail);
    HandleAppend(codec, events, Init(tail));
  }

  // ---------- on frames ----------

  function Bodies(payloads: seq<string>): seq<string> {
    if payloads == [] then [] else [DATA + " " + payloads[0]] + Bodies(payloads[1..])
  }

  lemma {:induction false} SplitLine(line: string, rest: string)
    requires '\n' !in line
    ensures Split(line + "\n\n" + rest) == [line] + Split(rest)
    decreases |line|
  {
    var s := line + "\n\n" + rest;
    if line == "" {
      assert "\n\n" <= s && s[2..] == rest;
    } else {
      assert s[0] == line[0] && s[1..] == line[1..] + "\n\n" + rest;
      SplitLine(line[1..], rest);
      assert [line[0]] + line[1..] == line;
    }
  }

  lemma WholeOneLine(p: string)
    requires Whole(p)
    ensures '\n' !in DATA + " " + p
  {
  }

  lemma {:induction false} SplitFrames(payloads: seq<string>)
    requires AllWhole(payloads)
    ensures Split(FramesOf(payloads)) == Bodies(payloads) + [""]
  {
    if payloads != [] {
      WholeOneLine(payloads[0]);
      SplitLine(DATA + " " + payloads[0], FramesOf(payloads[1..]));
      SplitFrames(payloads[1..]);
      assert FramesOf(payloads) == DATA + " " + payloads[0] + "\n\n" + FramesOf(payloads[1..]);
    }
  }

  lemma PayloadOfBody(p: string)
    requires Whole(p)
    ensures Payload(DATA + " " + p) == Some(p)
  {
    var body := DATA + " " + p;
    WholeOneLine(p);
    WholeLine(body);
    assert body[|DATA|..] == " " + p;
    JsTrimWhole(p);
  }

  lemma {:induction false} WholeLine(s: string)
    requires '\n' !in s
    ensures FirstLine(s) == s
  {
    if s != "" {
      WholeLine(s[1..]);
    }
  }

  /** The messages that payloads amount to, up to the sentinel. */
  function PayloadMessages(codec: Codec, payloads: seq<string>): seq<Message> {
    if payloads == [] || payloads[0] == DONE then []
    else Messages(codec, payloads[0]) + PayloadMessages(codec, payloads[1..])
  }

  lemma {:induction false} HandleBodies(codec: Codec, payloads: seq<string>)
    requires AllWhole(payloads)
    ensures Handle(codec, Bodies(payloads)) == PayloadMessages(codec, payloads)
  {
    if payloads != [] {
      PayloadOfBody(payloads[0]);
      HandleBodies(codec, payloads[1..]);
      assert Bodies(payloads)[1..] == Bodies(payloads[1..]);
    }
  }

  /** However a stream of frames is cut into reads, exactly its payloads are handled, in order, up to the sentinel. */
  lemma ClientReadsFrames(codec: Codec, payloads: seq<string>)
    requires AllWhole(payloads)
    ensures Handle(codec, Init(Split(FramesOf(payloads)))) == PayloadMessages(codec, payloads)
  {
    SplitFrames(payloads);
    assert Init(Bodies(payloads) + [""]) == Bodies(payloads);
    HandleBodies(codec, payloads);
  }
}
