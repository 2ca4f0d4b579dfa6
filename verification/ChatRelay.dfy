/** api/app/routers/conversations.py: the api's relay of a gateway stream. */
module ChatRelay {
  import opened Wrappers
  import opened Text
  import opened PyText
  import opened Frames

  lemma StripPlain(p: string)
    requires Plain(p)
    ensures Strip(" " + p) == p
  {
    TrimExactly(IsPySpace, " ", p, "");
    assert " " + p + "" == " " + p;
  }

  // ---------- the relay ----------

  /** The payloads of the data lines, up to and including the sentinel. */
  function Relayed(lines: seq<string>): seq<string> {
    if lines == [] then []
    else if !(DATA <= lines[0]) then Relayed(lines[1..])
    else
      var p := Strip(lines[0][|DATA|..]);
      [p] + if p == DONE then [] else Relayed(lines[1..])
  }

  /** What the payloads before the sentinel add to the stored message. */
  function Collected(codec: Codec, payloads: seq<string>): string {
    if payloads == [] || payloads[0] == DONE then ""
    else
      (match codec.pyDecode(payloads[0])
       case None => ""
       case Some(chunk) => Concat(chunk.contents))
      + Collected(codec, payloads[1..])
  }

  function TokensOf(codec: Codec, payloads: seq<string>, tokens: int): int
    decreases |payloads|
  {
    if payloads == [] || payloads[0] == DONE then tokens
    else
      match codec.pyDecode(payloads[0])
      case None => TokensOf(codec, payloads[1..], tokens)
      case Some(chunk) =>
        TokensOf(codec, payloads[1..], if chunk.usage.Some? then chunk.usage.value.completionTokens else tokens)
  }

  /** The assistant message to insert, with its token count. */
  datatype Stored = Stored(content: string, tokens: int)

  function StoredMessage(content: string, hadError: bool, tokens: int): Option<Stored> {
    if content != "" && !hadError then Some(Stored(content, tokens)) else None
  }

  /** Appends the non-empty pieces of one chunk. */
  method Collect(collected: seq<string>, contents: seq<string>) returns (more: seq<string>)
    ensures Concat(more) == Concat(collected) + Concat(contents)
  {
    more := collected;
    assert Concat(collected) + Concat(contents[..0]) == Concat(collected);
    for j := 0 to |contents|
      invariant Concat(more) == Concat(collected) + Concat(contents[..j])
    {
      assert contents[..j+1] == contents[..j] + [contents[j]];
      ConcatNext(contents[..j], contents[j]);
      ConcatNext(more, contents[j]);
      if contents[j] != "" {
        more := more + [contents[j]];
      }
    }
    assert contents[..|contents|] == contents;
  }

  /** What a payload other than the sentinel adds. */
  function PieceOf(codec: Codec, payload: string): string {
    match codec.pyDecode(payload)
    case None => ""
    case Some(chunk) => Concat(chunk.contents)
  }

  function TokensAfter(codec: Codec, payload: string, tokens: int): int {
    match codec.pyDecode(payload)
    case None => tokens
    case Some(chunk) => if chunk.usage.Some? then chunk.usage.value.completionTokens else tokens
  }

  /** The loop invariant of the relay: what was done so far together with what `rest` will do. */
  ghost predicate Progress(codec: Codec, payloads: seq<string>, rest: seq<string>,
                           out: seq<string>, collected: seq<string>, tokens: int) {
    && Concat(out) + FramesOf(rest) == FramesOf(payloads)
    && Concat(collected) + Collected(codec, rest) == Collected(codec, payloads)
    && TokensOf(codec, rest, tokens) == TokensOf(codec, payloads, 0)
  }

  lemma ProgressEnds(codec: Codec, payloads: seq<string>)
    ensures Progress(codec, payloads, payloads, [], [], 0)
    ensures forall out: seq<string>, collected: seq<string>, tokens: int |
              Progress(codec, payloads, [], out, collected, tokens) ::
              Concat(out) == FramesOf(payloads) && Concat(collected) == Collected(codec, payloads)
              && tokens == TokensOf(codec, payloads, 0)
  {
  }

  lemma ProgressNext(codec: Codec, payloads: seq<string>, p: string, rest: seq<string>,
                     out: seq<string>, collected: seq<string>, more: seq<string>, tokens: int)
    requires Progress(codec, payloads, [p] + rest, out, collected, tokens)
    requires if p == DONE then rest == [] && more == collected
             else Concat(more) == Concat(collected) + PieceOf(codec, p)
    ensures Progress(codec, payloads, rest, out + [Frame(p)], more,
                     if p == DONE then tokens else TokensAfter(codec, p, tokens))
  {
    assert ([p] + rest)[1..] == rest && ([p] + rest)[0] == p;
    ConcatNext(out, Frame(p));
    Regroup(Concat(out), Frame(p), FramesOf(rest));
    if p != DONE {
      Regroup(Concat(collected), PieceOf(codec, p), Collected(codec, rest));
    }
  }

  /**
   What the api gets from the gateway: an error status or no connection, for which it
   shows this message, or lines, after which the connection may break.
  */
  datatype Answer = Refused(message: string) | Answered(lines: seq<string>, broken: Option<string>)

  function ErrorChunk(message: string): Chunk {
    Chunk([message], "", "", None, true)
  }

  /** The frames that end a reply with an error. */
  function Apology(dumps: Chunk -> string, message: string): seq<string> {
    [dumps(ErrorChunk(message)), DONE]
  }

  /** A break of the connection counts only if the sentinel has not been read. */
  predicate Failed(payloads: seq<string>, broken: Option<string>) {
    broken.Some? && DONE !in payloads
  }

  /** The payloads that the browser is sent for an answer. */
  function Yielded(dumps: Chunk -> string, answer: Answer): seq<string> {
    match answer
    case Refused(message) => Apology(dumps, message)
    case Answered(lines, broken) =>
      Relayed(lines) + if Failed(Relayed(lines), broken) then Apology(dumps, broken.value) else []
  }

  /** What is stored: the text relayed before any break, but nothing if an error was shown. */
  function Kept(codec: Codec, answer: Answer): Option<Stored> {
    match answer
    case Refused(_) => None
    case Answered(lines, broken) =>
      var payloads := Relayed(lines);
      StoredMessage(Collected(codec, payloads), Failed(payloads, broken), TokensOf(codec, payloads, 0))
  }

  /** event_stream: what it yields, and what it stores in the end. `dumps` is Python's encoder. */
  method EventStream(codec: Codec, dumps: Chunk -> string, answer: Answer)
    returns (out: seq<string>, stored: Option<Stored>)
    ensures Concat(out) == FramesOf(Yielded(dumps, answer))
    ensures stored == Kept(codec, answer)
  {
    var collected: seq<string>, tokens, hadError := [], 0, false;
    out := [];
    match answer
    case Refused(message) =>
      hadError := true;
      out := [Frame(dumps(ErrorChunk(message))), Frame(DONE)];
      YieldApology(dumps, message, [], []);
      stored := StoredMessage(Concat(collected), hadError, tokens);
    case Answered(lines, broken) =>
      var finished;
      out, collected, tokens, finished := RelayLines(codec, lines);
      if broken.Some? && !finished {
        YieldApology(dumps, broken.value, out, Relayed(lines));
        hadError := true;
        out := out + [Frame(dumps(ErrorChunk(broken.value))), Frame(DONE)];
      }
      assert Relayed(lines) + [] == Relayed(lines);
      stored := StoredMessage(Concat(collected), hadError, tokens);
  }

  lemma YieldApology(dumps: Chunk -> string, message: string, out: seq<string>, payloads: seq<string>)
    requires Concat(out) == FramesOf(payloads)
    ensures Concat(out + [Frame(dumps(ErrorChunk(message))), Frame(DONE)]) ==
            FramesOf(payloads + Apology(dumps, message))
    ensures [] + [Frame(dumps(ErrorChunk(message))), Frame(DONE)] == [Frame(dumps(ErrorChunk(message))), Frame(DONE)]
    ensures [] + Apology(dumps, message) == Apology(dumps, message)
  {
    var first, second := dumps(ErrorChunk(message)), DONE;
    hide Frame, Concat, FramesOf;
    assert out + [Frame(first), Frame(second)] == out + [Frame(first)] + [Frame(second)];
    ConcatNext(out, Frame(first));
    ConcatNext(out + [Frame(first)], Frame(second));
    assert payloads + [first, second] == payloads + [first] + [second];
    FramesAppend(payloads, [first]);
    FramesAppend(payloads + [first], [second]);
    OneFrame(first);
    OneFrame(second);
  }

  /** The loop over the lines, up to the sentinel. */
  method RelayLines(codec: Codec, lines: seq<string>)
    returns (out: seq<string>, collected: seq<string>, tokens: int, finished: bool)
    ensures var payloads := Relayed(lines);
            && Concat(out) == FramesOf(payloads) && Concat(collected) == Collected(codec, payloads)
            && tokens == TokensOf(codec, payloads, 0) && (finished <==> DONE in payloads)
  {
    out, collected, tokens, finished := [], [], 0, false;
    ghost var payloads := Relayed(lines);
    hide Progress, Strip;
    ProgressEnds(codec, payloads);
    assert lines[0..] == lines;
    for i := 0 to |lines|
      invariant Progress(codec, payloads, Relayed(lines[i..]), out, collected, tokens)
      invariant !finished && (DONE in payloads <==> DONE in Relayed(lines[i..]))
    {
      var line := lines[i];
      assert lines[i..][0] == line && lines[i..][1..] == lines[i+1..];
      if !(DATA <= line) {
        continue;
      }
      var payload := Strip(line[|DATA|..]);
      ghost var before, rest := collected, if payload == DONE then [] else Relayed(lines[i+1..]);
      assert Relayed(lines[i..]) == [payload] + rest && [payload][0] == payload;
      if payload == DONE {
        ProgressNext(codec, payloads, payload, rest, out, before, before, tokens);
        out := out + [Frame(payload)];
        finished := true;
        break;
      }
      match codec.pyDecode(payload) {
        case None =>
          assert Concat(collected) == Concat(before) + PieceOf(codec, payload);
        case Some(chunk) =>
          collected := Collect(collected, chunk.contents);
      }
      ProgressNext(codec, payloads, payload, rest, out, before, collected, tokens);
      out := out + [Frame(payload)];
      match codec.pyDecode(payload) {
        case None =>
        case Some(chunk) =>
          if chunk.usage.Some? {
            tokens := chunk.usage.value.completionTokens;
          }
      }
    }
    assert Progress(codec, payloads, [], out, collected, tokens);
  }

  // ---------- lines and payloads that make no difference ----------

  /** Lines that are not data lines are not relayed. */
  lemma {:induction false} OtherLinesDropped(a: seq<string>, line: string, b: seq<string>)
    requires !("data:" <= line)
    ensures Relayed(a + [line] + b) == Relayed(a + b)
    decreases |a|
  {
    if a == [] {
      TailAppend([line], b);
      assert a + [line] + b == [line] + b && a + b == b;
    } else {
      OtherLinesDropped(a[1..], line, b);
      assert a + [line] + b == [a[0]] + (a[1..] + [line] + b) && a + b == [a[0]] + (a[1..] + b);
      TailAppend([a[0]], a[1..] + [line] + b);
      TailAppend([a[0]], a[1..] + b);
      hide Strip;
    }
  }

  /** A payload is relayed without the spaces around it. */
  lemma SpacesAroundPayload(u: string, payload: string, w: string, rest: seq<string>)
    requires All(IsPySpace, u) && All(IsPySpace, w) && TrimmedBy(IsPySpace, payload)
    ensures Relayed(["data:" + u + payload + w] + rest) == [payload] + if payload == "[DONE]" then [] else Relayed(rest)
  {
    var line := "data:" + u + payload + w;
    TailAppend([line], rest);
    assert line == DATA + (u + payload + w) && line[|DATA|..] == u + payload + w;
    TrimExactly(IsPySpace, u, payload, w);
  }

  /** A payload that Python cannot read adds nothing to what is stored, and does not end the stream. */
  lemma {:induction false} UnreadableKept(codec: Codec, a: seq<string>, p: string, b: seq<string>, tokens: int)
    requires p != DONE && codec.pyDecode(p).None?
    ensures Collected(codec, a + [p] + b) == Collected(codec, a + b)
    ensures TokensOf(codec, a + [p] + b, tokens) == TokensOf(codec, a + b, tokens)
    decreases |a|
  {
    if a == [] {
      TailAppend([p], b);
      assert a + [p] + b == [p] + b && a + b == b && "" + Collected(codec, b) == Collected(codec, b);
    } else {
      var next := TokensAfter(codec, a[0], tokens);
      UnreadableKept(codec, a[1..], p, b, next);
      assert a + [p] + b == [a[0]] + (a[1..] + [p] + b) && a + b == [a[0]] + (a[1..] + b);
      TailAppend([a[0]], a[1..] + [p] + b);
      TailAppend([a[0]], a[1..] + b);
    }
  }

  // ---------- on frames ----------

  /** The relay passes on every payload of a stream of frames up to the sentinel. */
  lemma {:induction false} RelayFrames(payloads: seq<string>)
    requires AllPlain(payloads)
    ensures Relayed(SplitLines(FramesOf(payloads))) == UpToDone(payloads)
  {
    if payloads != [] {
      var p, tail := payloads[0], FramesOf(payloads[1..]);
      RelayFrames(payloads[1..]);
      LinesOfFrame(p, tail);
      StripPlain(p);
      hide Relayed, SplitLines, Strip, Plain, Frame;
      RelayedTwo(DATA + " " + p, SplitLines(tail));
      assert (DATA + " " + p)[|DATA|..] == " " + p;
    }
  }

  lemma LinesOfFrame(p: string, tail: string)
    requires Plain(p)
    ensures SplitLines(Frame(p) + tail) == [DATA + " " + p] + ([""] + SplitLines(tail))
  {
    var line := DATA + " " + p;
    assert forall k | 0 <= k < |line| :: !IsLineBreak(line[k]);
    hide Plain, LinesFrom, IsLineBreak;
    LinesFromLine("", line, "\n" + tail);
    LinesFromLine("", "", tail);
    assert "\n" + tail == "" + "\n" + tail && "" + line == line;
    hide SplitLines;
    Regroup(line + "\n", "\n", tail);
    assert Frame(p) == line + "\n" + "\n";
  }

  lemma RelayedTwo(line: string, rest: seq<string>)
    requires DATA <= line
    ensures var p := Strip(line[|DATA|..]);
            Relayed([line] + ([""] + rest)) == [p] + if p == DONE then [] else Relayed(rest)
  {
    var lines := [line] + ([""] + rest);
    assert lines[1..] == [""] + rest && lines[1..][1..] == rest;
    assert Relayed(lines[1..]) == Relayed(rest);
  }

  /** Python ends the line of the frame at the line boundary inside the payload. */
  lemma FirstLineCut(p: string, k: nat, tail: string)
    requires k < |p| && IsLineBreak(p[k])
    ensures var lines := SplitLines(Frame(p) + tail);
            lines != [] && DATA + " " <= lines[0] && |lines[0]| < |DATA| + 1 + |p|
  {
    var rest := p + "\n\n" + tail;
    hide LinesFrom;
    assert Frame(p) + tail == (DATA + " ") + rest;
    LinesFromPrefix("", DATA + " ", rest);
    assert "" + (DATA + " ") == DATA + " " && rest[k] == p[k];
    FirstLineShort(DATA + " ", rest, k);
  }

  lemma ShortPayload(line: string, n: nat)
    requires DATA + " " <= line && |line| < |DATA| + 1 + n
    ensures DATA <= line && |Strip(line[|DATA|..])| < n
  {
    var t := line[|DATA|..];
    assert t[0] == line[|DATA|] == (DATA + " ")[|DATA|] == ' ';
    TrimAround(IsPySpace, " ", t[1..], "");
    assert " " + t[1..] + "" == t;
    TrimShorter(IsPySpace, t[1..]);
  }

  lemma CutPayload(p: string, tail: string)
    requires Whole(p) && !Plain(p)
    ensures var relayed := Relayed(SplitLines(Frame(p) + tail)); relayed != [] && relayed[0] != p
  {
    var k :| 0 <= k < |p| && IsLineBreak(p[k]);
    FirstLineCut(p, k, tail);
    hide SplitLines, Strip;
    ShortPayload(SplitLines(Frame(p) + tail)[0], |p|);
  }

  /**
   The relay passes on a stream of frames unchanged, up to the sentinel, if and only
   if Python, too, sees one line in each of these payloads.
  */
  lemma {:induction false} RelayExactly(payloads: seq<string>)
    requires AllWhole(payloads)
    ensures Relayed(SplitLines(FramesOf(payloads))) == UpToDone(payloads) <==> AllPlain(UpToDone(payloads))
  {
    if payloads != [] {
      var p, tail := payloads[0], FramesOf(payloads[1..]);
      var rest := if p == DONE then [] else UpToDone(payloads[1..]);
      AllPlainNext(p, rest);
      RelayExactly(payloads[1..]);
      if Plain(p) {
        LinesOfFrame(p, tail);
        StripPlain(p);
        hide Relayed, SplitLines, Strip, Plain, Frame;
        RelayedTwo(DATA + " " + p, SplitLines(tail));
        assert (DATA + " " + p)[|DATA|..] == " " + p;
        HalvesAppend([p], rest);
        HalvesAppend([p], if p == DONE then [] else Relayed(SplitLines(tail)));
      } else {
        hide Relayed, SplitLines, Plain, Frame;
        CutPayload(p, tail);
      }
    }
  }

  lemma AllPlainNext(p: string, rest: seq<string>)
    ensures AllPlain([p] + rest) <==> Plain(p) && AllPlain(rest)
  {
    hide Plain;
    TailAppend([p], rest);
    assert forall k | 0 <= k < |rest| :: ([p] + rest)[k + 1] == rest[k];
  }
}
