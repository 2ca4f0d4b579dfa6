/**
 The gateway's streaming path: DecodeStream of gateway/internal/provider/openai.go
 and streamChat of gateway/internal/proxy/handler.go.
*/
module StreamProxy {
  import opened Wrappers
  import opened Text
  import opened Frames
  import opened Sse
  import opened Regexp
  import opened Policy
  import opened Masking
  import opened Streaming

  // ---------- reading the upstream ----------

  predicate NotDone(e: Event) {
    e.data != DONE
  }

  /** The chunk an upstream event carries; a keep-alive or unreadable event carries none. */
  function ChunkOf(codec: Codec, data: string): Option<Chunk> {
    if data == "" || data == DONE then None else codec.goDecode(data)
  }

  function DeltasOf(codec: Codec, datas: seq<string>): seq<string> {
    if datas == [] then []
    else
      (match ChunkOf(codec, datas[0])
       case None => []
       case Some(chunk) => NonEmpty(Piece(chunk)))
      + DeltasOf(codec, datas[1..])
  }

  /** The usage reported last. */
  function UsageOf(codec: Codec, datas: seq<string>, usage: Usage): Usage
    decreases |datas|
  {
    if datas == [] then usage
    else
      match ChunkOf(codec, datas[0])
      case None => UsageOf(codec, datas[1..], usage)
      case Some(chunk) =>
        UsageOf(codec, datas[1..], if chunk.usage.Some? then chunk.usage.value else usage)
  }

  function DatasOf(calls: seq<Event>): seq<string> {
    seq(|calls|, k requires 0 <= k < |calls| => calls[k].data)
  }

  const NO_USAGE := Usage(0, 0)

  /** openAIAdapter.DecodeStream; `deltas` collects what it emits. */
  method DecodeStream(codec: Codec, body: string) returns (deltas: seq<string>, usage: Usage)
    ensures var datas := DatasOf(Scan(Lines(body), "", "", NotDone));
            deltas == DeltasOf(codec, datas) && usage == UsageOf(codec, datas, NO_USAGE)
  {
    var calls := ScanSSE(body, NotDone);
    deltas, usage := [], NO_USAGE;
    ghost var datas := DatasOf(calls);
    hide Scan, Lines, DeltasOf, UsageOf, Piece;
    assert datas[0..] == datas && [] + DeltasOf(codec, datas) == DeltasOf(codec, datas);
    for i := 0 to |calls|
      invariant deltas + DeltasOf(codec, datas[i..]) == DeltasOf(codec, datas)
      invariant UsageOf(codec, datas[i..], usage) == UsageOf(codec, datas, NO_USAGE)
    {
      var data := calls[i].data;
      DecodeNext(codec, datas, i, deltas, usage);
      if data == "" || data == DONE {
        continue;
      }
      match codec.goDecode(data)
      case None =>
      case Some(chunk) =>
        if chunk.contents != [] && chunk.contents[0] != "" {
          deltas := deltas + [chunk.contents[0]];
        }
        if chunk.usage.Some? {
          usage := chunk.usage.value;
        }
    }
    DecodeEnd(codec, usage);
    assert datas[|calls|..] == [] && deltas + [] == deltas;
  }

  lemma DecodeNext(codec: Codec, datas: seq<string>, i: nat, deltas: seq<string>, usage: Usage)
    requires i < |datas|
    ensures var c := ChunkOf(codec, datas[i]);
            var piece := if c.Some? && c.value.contents != [] then NonEmpty(c.value.contents[0]) else [];
            && deltas + DeltasOf(codec, datas[i..]) == deltas + piece + DeltasOf(codec, datas[i+1..])
            && deltas + [] == deltas
            && UsageOf(codec, datas[i..], usage) ==
               UsageOf(codec, datas[i+1..], if c.Some? && c.value.usage.Some? then c.value.usage.value else usage)
  {
    assert datas[i..][0] == datas[i] && datas[i..][1..] == datas[i+1..];
  }

  lemma DecodeEnd(codec: Codec, usage: Usage)
    ensures DeltasOf(codec, []) == [] && UsageOf(codec, [], usage) == usage
  {
  }

  function AsFields(payloads: seq<string>): seq<Fields> {
    if payloads == [] then [] else [Fields("", [payloads[0]])] + AsFields(payloads[1..])
  }

  lemma {:induction false} FramesArePrinted(payloads: seq<string>)
    requires AllWhole(payloads)
    ensures FramesOf(payloads) == Unlines(PrintAll(AsFields(payloads)))
    ensures forall k | 0 <= k < |AsFields(payloads)| :: Normal(AsFields(payloads)[k])
    ensures DatasOf(Until(AsFields(payloads), NotDone)) == UpToDone(payloads)
  {
    if payloads != [] {
      var f, rest := Fields("", [payloads[0]]), AsFields(payloads[1..]);
      FramesArePrinted(payloads[1..]);
      OnePrinted(payloads[0], rest);
      TailAppend([f], rest);
      hide Normal, Unlines, PrintAll, EventOf, Frame, Whole;
      assert AsFields(payloads) == [f] + rest;
      UntilNext(f, rest);
    }
  }

  lemma OnePrinted(p: string, rest: seq<Fields>)
    requires Whole(p)
    ensures var f := Fields("", [p]);
            && Normal(f) && EventOf(f) == Event("", p)
            && Unlines(PrintAll([f] + rest)) == Frame(p) + Unlines(PrintAll(rest))
  {
    var f := Fields("", [p]);
    WholeTrimmed(p);
    hide Unlines;
    TailAppend([f], rest);
    assert DataLines([p]) == [DATA + " " + p] + DataLines([p][1..]);
    assert PrintFields(f) == [DATA + " " + p];
    assert PrintAll([f] + rest) == [DATA + " " + p] + [""] + PrintAll(rest);
    Regroup([DATA + " " + p], [""], PrintAll(rest));
    UnlinesTwo(DATA + " " + p, PrintAll(rest));
    assert Frame(p) == DATA + " " + p + "\n\n";
  }

  lemma UntilNext(f: Fields, rest: seq<Fields>)
    ensures DatasOf(Until([f] + rest, NotDone)) ==
            [EventOf(f).data] + if NotDone(EventOf(f)) then DatasOf(Until(rest, NotDone)) else []
  {
    hide EventOf;
    TailAppend([f], rest);
  }

  lemma UnlinesTwo(line: string, rest: seq<string>)
    ensures Unlines([line] + ([""] + rest)) == line + "\n\n" + Unlines(rest)
  {
    var lines := [line] + ([""] + rest);
    assert lines[1..] == [""] + rest && lines[1..][1..] == rest;
    assert Unlines(lines[1..]) == "" + "\n" + Unlines(rest);
  }

  /** On a stream of frames the callback sees exactly the payloads up to the sentinel. */
  lemma ScanFrames(payloads: seq<string>)
    requires AllWhole(payloads)
    ensures DatasOf(Scan(Lines(FramesOf(payloads)), "", "", NotDone)) == UpToDone(payloads)
  {
    FramesArePrinted(payloads);
    RoundTrip(AsFields(payloads), NotDone);
  }

  // ---------- writing to the client ----------

  function TextPayloads(codec: Codec, texts: seq<string>): seq<string> {
    if texts == [] then [] else [codec.encode(TextChunk(texts[0]))] + TextPayloads(codec, texts[1..])
  }

  lemma {:induction false} TextPayloadsAppend(codec: Codec, a: seq<string>, b: seq<string>)
    ensures TextPayloads(codec, a + b) == TextPayloads(codec, a) + TextPayloads(codec, b)
  {
    if a == [] {
      assert a + b == b;
    } else {
      assert (a + b)[1..] == a[1..] + b;
      TextPayloadsAppend(codec, a[1..], b);
    }
  }

  /** Everything streamChat writes: the role, the texts, the stop mark, the usage and the sentinel. */
  function GatewayPayloads(codec: Codec, texts: seq<string>, usage: Usage): seq<string> {
    [codec.encode(ROLE_CHUNK)] + TextPayloads(codec, texts)
    + [codec.encode(STOP_CHUNK), codec.encode(UsageChunk(usage)), DONE]
  }

  /** The texts emitted for these deltas when the masker holds buf. */
  function MaskedTexts(rules: Rules, buf: string, deltas: seq<string>): seq<string>
    decreases |deltas|
  {
    if deltas == [] then NonEmpty(MaskPart(rules, buf))
    else NonEmpty(MaskPart(rules, Released(buf + deltas[0]))) + MaskedTexts(rules, Held(buf + deltas[0]), deltas[1..])
  }

  function Texts(rules: Rules, maskResponses: bool, deltas: seq<string>): seq<string> {
    if maskResponses then MaskedTexts(rules, "", deltas) else deltas
  }

  lemma {:induction false} MaskedTextsJoin(rules: Rules, buf: string, deltas: seq<string>)
    ensures Concat(MaskedTexts(rules, buf, deltas)) == StreamOut(rules, buf, deltas)
    decreases |deltas|
  {
    if deltas == [] {
      ConcatNonEmpty(MaskPart(rules, buf));
    } else {
      var s := buf + deltas[0];
      ConcatNonEmpty(MaskPart(rules, Released(s)));
      ConcatAppend(NonEmpty(MaskPart(rules, Released(s))), MaskedTexts(rules, Held(s), deltas[1..]));
      MaskedTextsJoin(rules, Held(s), deltas[1..]);
    }
  }

  // ---------- masking adds no character but those of the token ----------

  lemma {:induction false} ReplaceAdds(r: Pattern, left: bool, after: bool, s: string, c: char)
    requires c !in s && c !in MASK_TOKEN
    ensures c !in ReplaceAll(r, MASK_TOKEN, left, after, s)
    decreases |s|
  {
    hide FindOne;
    match FindOne(r, left, s)
    case None =>
      if s != "" {
        ReplaceAdds(r, IsWord(s[0]), false, s[1..], c);
        hide ReplaceAll;
        ReplaceNone(r, MASK_TOKEN, left, after, s);
      }
    case Some(n) =>
      if n > 0 {
        ReplaceAdds(r, IsWord(s[n-1]), true, s[n..], c);
        hide ReplaceAll;
        ReplaceSome(r, MASK_TOKEN, left, after, s, n);
      } else if s != "" {
        ReplaceAdds(r, IsWord(s[0]), false, s[1..], c);
      }
  }

  lemma {:induction false} MaskedAdds(rules: Rules, s: string, c: char)
    requires c !in s && c !in MASK_TOKEN
    ensures c !in Masked(rules, s)
  {
    if rules != [] {
      var prefix, last := rules[..|rules|-1], rules[|rules|-1];
      MaskedAdds(prefix, s, c);
      if Masks(last) {
        ReplaceAdds(last.value.re.value, false, false, Masked(prefix, s), c);
      }
    }
  }

  lemma {:induction false} DeltasNonEmpty(codec: Codec, datas: seq<string>)
    ensures forall k | 0 <= k < |DeltasOf(codec, datas)| :: DeltasOf(codec, datas)[k] != ""
  {
    if datas != [] {
      DeltasNonEmpty(codec, datas[1..]);
    }
  }

  method Emit(codec: Codec, out: string, text: string) returns (longer: string)
    ensures longer == out + FramesOf(TextPayloads(codec, NonEmpty(text)))
  {
    if text == "" {
      assert out + "" == out;
      return out;
    }
    longer := out + Frame(codec.encode(TextChunk(text)));
    var one := [text];
    assert one[1..] == [] && TextPayloads(codec, one) == [codec.encode(TextChunk(text))];
    OneFrame(codec.encode(TextChunk(text)));
  }

  /** The deltas that an upstream body carries. */
  function DeltasIn(codec: Codec, body: string): seq<string> {
    DeltasOf(codec, DatasOf(Scan(Lines(body), "", "", NotDone)))
  }

  /** The reply that they make up. */
  function ReplyText(codec: Codec, body: string): string {
    Concat(DeltasIn(codec, body))
  }

  /** What streamChat writes for an upstream body, as its method promises. */
  function GatewayBody(codec: Codec, body: string, rules: Rules, maskResponses: bool): string {
    FramesOf(GatewayPayloads(codec, Texts(rules, maskResponses, DeltasIn(codec, body)), UsageIn(codec, body)))
  }

  /** The usage that an upstream body reports. */
  function UsageIn(codec: Codec, body: string): Usage {
    UsageOf(codec, DatasOf(Scan(Lines(body), "", "", NotDone)), NO_USAGE)
  }

  /** streamChat after the upstream has answered: decode, mask as the reply arrives, re-emit. */
  method StreamChat(codec: Codec, body: string, rules: Rules, maskResponses: bool)
    returns (out: string, usage: Usage, findings: set<Finding>)
    ensures usage == UsageIn(codec, body)
    ensures out == GatewayBody(codec, body, rules, maskResponses)
    ensures !maskResponses ==> findings == {}
    ensures maskResponses ==>
              ReportIs(rules, StreamNames(rules, "", DeltasIn(codec, body)), ReplyText(codec, body), findings)
  {
    var deltas;
    deltas, usage := DecodeStream(codec, body);
    ghost var datas := DatasOf(Scan(Lines(body), "", "", NotDone));
    out, findings := Frame(codec.encode(ROLE_CHUNK)), {};
    OneFrame(codec.encode(ROLE_CHUNK));
    if maskResponses {
      out, findings := EmitMasked(codec, out, rules, deltas);
    } else {
      DeltasNonEmpty(codec, datas);
      out := EmitPlain(codec, out, deltas);
    }
    ghost var texts := Texts(rules, maskResponses, deltas);
    out := out + Frame(codec.encode(STOP_CHUNK));
    out := out + Frame(codec.encode(UsageChunk(usage)));
    out := out + "data: [DONE]\n\n";
    Assemble(codec, texts, usage);
  }

  lemma Assemble(codec: Codec, texts: seq<string>, usage: Usage)
    ensures FramesOf(GatewayPayloads(codec, texts, usage)) ==
            FramesOf([codec.encode(ROLE_CHUNK)]) + FramesOf(TextPayloads(codec, texts))
            + Frame(codec.encode(STOP_CHUNK)) + Frame(codec.encode(UsageChunk(usage))) + "data: [DONE]\n\n"
  {
    var role, body := [codec.encode(ROLE_CHUNK)], TextPayloads(codec, texts);
    var stop, use := codec.encode(STOP_CHUNK), codec.encode(UsageChunk(usage));
    hide FramesOf, TextPayloads;
    FramesAppend(role + body, [stop, use, DONE]);
    FramesAppend(role, body);
    ThreeFrames(stop, use, DONE);
    FourParts(FramesOf(role) + FramesOf(body), Frame(stop), Frame(use), Frame(DONE));
  }

  lemma ThreeFrames(a: string, b: string, c: string)
    ensures FramesOf([a, b, c]) == Frame(a) + Frame(b) + Frame(c)
  {
    hide FramesOf;
    assert [a, b, c] == [a] + [b] + [c];
    FramesAppend([a] + [b], [c]);
    FramesAppend([a], [b]);
    OneFrame(a);
    OneFrame(b);
    OneFrame(c);
  }

  lemma FourParts(x: string, a: string, b: string, c: string)
    ensures x + (a + b + c) == x + a + b + c
  {
  }

  method EmitPlain(codec: Codec, start: string, deltas: seq<string>) returns (out: string)
    requires forall k | 0 <= k < |deltas| :: deltas[k] != ""
    ensures out == start + FramesOf(TextPayloads(codec, deltas))
  {
    out := start;
    assert start + "" == start;
    for i := 0 to |deltas|
      invariant out == start + FramesOf(TextPayloads(codec, deltas[..i]))
    {
      out := Emit(codec, out, deltas[i]);
      assert deltas[..i+1] == deltas[..i] + [deltas[i]];
      TextPayloadsAppend(codec, deltas[..i], [deltas[i]]);
      FramesAppend(TextPayloads(codec, deltas[..i]), TextPayloads(codec, [deltas[i]]));
    }
    assert deltas[..|deltas|] == deltas;
  }

  method EmitMasked(codec: Codec, start: string, rules: Rules, deltas: seq<string>)
    returns (out: string, findings: set<Finding>)
    ensures out == start + FramesOf(TextPayloads(codec, MaskedTexts(rules, "", deltas)))
    ensures ReportIs(rules, StreamNames(rules, "", deltas), Concat(deltas), findings)
  {
    out := start;
    var masker := new StreamMasker(rules);
    ghost var texts: seq<string> := [];
    hide *;
    SoFarStarts(codec, start, rules, deltas);
    assert masker.findings.Keys == {};
    for i := 0 to |deltas|
      invariant masker.Valid() && masker.rules == rules && fresh(masker)
      invariant out == start + FramesOf(TextPayloads(codec, texts))
      invariant SoFar(rules, deltas, i, masker.buf, masker.received, texts, masker.findings.Keys)
    {
      SoFarNext(rules, deltas, i, masker.buf, masker.received, texts, masker.findings.Keys);
      var text := masker.Push(deltas[i]);
      out := Emit(codec, out, text);
      MoreText(codec, start, texts, NonEmpty(text));
      texts := texts + NonEmpty(text);
    }
    SoFarEnds(rules, deltas, masker.buf, masker.received, texts, masker.findings.Keys);
    var text := masker.Close();
    out := Emit(codec, out, text);
    MoreText(codec, start, texts, NonEmpty(text));
    findings := masker.Findings();
    RecordedReport(rules, masker.findings, Concat(deltas));
  }

  /** After i deltas: what was received, and what was emitted and recorded together with what is still to come. */
  ghost predicate SoFar(rules: Rules, deltas: seq<string>, i: nat,
                        buf: string, received: string, texts: seq<string>, names: set<string>) {
    && i <= |deltas| && received == Concat(deltas[..i])
    && texts + MaskedTexts(rules, buf, deltas[i..]) == MaskedTexts(rules, "", deltas)
    && names + StreamNames(rules, buf, deltas[i..]) == StreamNames(rules, "", deltas)
  }

  lemma SoFarStarts(codec: Codec, start: string, rules: Rules, deltas: seq<string>)
    ensures start == start + FramesOf(TextPayloads(codec, []))
    ensures SoFar(rules, deltas, 0, "", "", [], {})
  {
    assert deltas[0..] == deltas && start + "" == start;
    hide MaskedTexts, StreamNames;
    assert [] + MaskedTexts(rules, "", deltas) == MaskedTexts(rules, "", deltas);
  }

  lemma SoFarNext(rules: Rules, deltas: seq<string>, i: nat,
                  buf: string, received: string, texts: seq<string>, names: set<string>)
    requires i < |deltas| && SoFar(rules, deltas, i, buf, received, texts, names)
    ensures var s := buf + deltas[i];
            SoFar(rules, deltas, i + 1, Held(s), received + deltas[i],
                  texts + NonEmpty(MaskPart(rules, Released(s))), names + PartNames(rules, Released(s)))
  {
    hide Concat, Released, Held, MaskPart, PartNames, NonEmpty;
    var s := buf + deltas[i];
    NextElement(deltas, i);
    ConcatNext(deltas[..i], deltas[i]);
    Regroup(texts, NonEmpty(MaskPart(rules, Released(s))), MaskedTexts(rules, Held(s), deltas[i+1..]));
  }

  lemma SoFarEnds(rules: Rules, deltas: seq<string>,
                  buf: string, received: string, texts: seq<string>, names: set<string>)
    requires SoFar(rules, deltas, |deltas|, buf, received, texts, names)
    ensures received == Concat(deltas)
    ensures texts + NonEmpty(MaskPart(rules, buf)) == MaskedTexts(rules, "", deltas)
    ensures names + PartNames(rules, buf) == StreamNames(rules, "", deltas)
  {
    hide Concat, MaskPart, PartNames, NonEmpty;
    assert deltas[..|deltas|] == deltas && deltas[|deltas|..] == [];
  }

  lemma MoreText(codec: Codec, start: string, a: seq<string>, b: seq<string>)
    ensures start + FramesOf(TextPayloads(codec, a)) + FramesOf(TextPayloads(codec, b)) ==
            start + FramesOf(TextPayloads(codec, a + b))
  {
    TextPayloadsAppend(codec, a, b);
    FramesAppend(TextPayloads(codec, a), TextPayloads(codec, b));
  }
}
