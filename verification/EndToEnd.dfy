/** One streamed reply, from the upstream's chunks to the browser's text and the stored message. */
module EndToEnd {
  import opened Wrappers
  import opened Text
  import opened Frames
  import opened Policy
  import opened Masking
  import opened Streaming
  import opened StreamProxy
  import Sse
  import PyText
  import ChatRelay
  import ChatClient

  /** The text the page shows, and whether it showed an error. */
  function Shown(messages: seq<ChatClient.Message>): string {
    if messages == [] then "" else messages[0].text + Shown(messages[1..])
  }

  predicate NoErrors(messages: seq<ChatClient.Message>) {
    forall k | 0 <= k < |messages| :: messages[k].Delta?
  }

  // ---------- the gateway's payloads, as each reader sees them ----------

  /** White space beyond ASCII, as Unicode has it, but for U+0085. */
  predicate IsWide(c: char) {
    c as int in {0xA0, 0x1680, 0x2028, 0x2029, 0x202F, 0x205F, 0x3000} || 0x2000 <= c as int <= 0x200A
  }

  /** All three trim white space; they differ on U+0085, the byte order mark and four control characters. */
  lemma SpacesAlike(c: char)
    ensures IsSpace(c) <==> c == ' ' || 9 <= c as int <= 13 || c as int == 0x85 || IsWide(c)
    ensures ChatClient.IsJsSpace(c) <==> c == ' ' || 9 <= c as int <= 13 || c as int == 0xFEFF || IsWide(c)
    ensures PyText.IsPySpace(c) <==> IsSpace(c) || 28 <= c as int <= 31
  {
  }

  /** What the relay and the browser make of a list of payloads. */
  datatype Reading = Reading(relayed: seq<string>, collected: string, tokens: int, messages: seq<ChatClient.Message>)

  function Read(codec: Codec, payloads: seq<string>, tokens: int): Reading {
    Reading(UpToDone(payloads), ChatRelay.Collected(codec, payloads), ChatRelay.TokensOf(codec, payloads, tokens),
            ChatClient.PayloadMessages(codec, payloads))
  }

  /** A chunk put before other payloads. */
  lemma ReadChunk(codec: Codec, c: Chunk, rest: seq<string>, tokens: int)
    requires Lawful(codec) && Escapable(c)
    ensures var r := Read(codec, rest, if c.usage.Some? then c.usage.value.completionTokens else tokens);
            Read(codec, [codec.encode(c)] + rest, tokens) ==
            Reading([codec.encode(c)] + r.relayed, Piece(c) + r.collected, r.tokens,
                    (if Piece(c) == "" then [] else [ChatClient.Delta(Piece(c))]) + r.messages)
  {
    var payloads := [codec.encode(c)] + rest;
    assert payloads[0] == codec.encode(c) && payloads[1..] == rest;
    assert Concat(c.contents) == Piece(c) by {
      if c.contents != [] {
        assert c.contents == [Piece(c)];
        ConcatSingle(Piece(c));
      }
    }
  }

  /** The text a reading shows, the text it stores, and what it relays. */
  ghost predicate Carries(r: Reading, text: string, tokens: int, relayed: seq<string>) {
    && r.relayed == relayed && r.collected == text && r.tokens == tokens
    && Shown(r.messages) == text && NoErrors(r.messages)
  }

  /** The texts streamChat writes: none empty, none with the one boundary that is not escaped. */
  predicate Writable(texts: seq<string>) {
    forall k | 0 <= k < |texts| :: texts[k] != "" && NEL !in texts[k]
  }

  lemma {:induction false} ReadTexts(codec: Codec, texts: seq<string>, tail: seq<string>, tokens: int, end: int)
    requires Lawful(codec) && Writable(texts)
    requires Carries(Read(codec, tail, tokens), "", end, tail)
    ensures var payloads := TextPayloads(codec, texts) + tail;
            Carries(Read(codec, payloads, tokens), Concat(texts), end, payloads)
  {
    hide Read, Lawful;
    if texts == [] {
      assert TextPayloads(codec, texts) + tail == tail;
    } else {
      var rest := TextPayloads(codec, texts[1..]) + tail;
      var c := TextChunk(texts[0]);
      assert TextPayloads(codec, texts) + tail == [codec.encode(c)] + rest;
      ReadTexts(codec, texts[1..], tail, tokens, end);
      ReadChunk(codec, c, rest, tokens);
      var more := Read(codec, rest, tokens).messages;
      assert ([ChatClient.Delta(texts[0])] + more)[1..] == more;
    }
  }

  /** The stop mark, the usage and the sentinel carry no text. */
  lemma ReadTail(codec: Codec, usage: Usage, tail: seq<string>)
    requires Lawful(codec)
    requires tail == [codec.encode(STOP_CHUNK), codec.encode(UsageChunk(usage)), DONE]
    ensures Carries(Read(codec, tail, 0), "", usage.completionTokens, tail)
  {
    var stop, use := codec.encode(STOP_CHUNK), codec.encode(UsageChunk(usage));
    var n := usage.completionTokens;
    assert tail == [stop] + ([use] + [DONE]);
    assert Read(codec, [DONE], n) == Reading([DONE], "", n, []);
    ReadChunk(codec, UsageChunk(usage), [DONE], 0);
    ReadChunk(codec, STOP_CHUNK, [use] + [DONE], 0);
  }

  /** All that streamChat writes. */
  lemma ReadGateway(codec: Codec, texts: seq<string>, usage: Usage)
    requires Lawful(codec) && Writable(texts)
    ensures var payloads := GatewayPayloads(codec, texts, usage);
            Carries(Read(codec, payloads, 0), Concat(texts), usage.completionTokens, payloads)
  {
    hide Read, Lawful, Shown, NoErrors, TextPayloads, Concat;
    var tail := [codec.encode(STOP_CHUNK), codec.encode(UsageChunk(usage)), DONE];
    ReadTail(codec, usage, tail);
    ReadTexts(codec, texts, tail, 0, usage.completionTokens);
    var body := TextPayloads(codec, texts) + tail;
    ReadChunk(codec, ROLE_CHUNK, body, 0);
    var r := Read(codec, body, 0);
    assert "" + r.collected == r.collected && [] + r.messages == r.messages;
    assert GatewayPayloads(codec, texts, usage) == [codec.encode(ROLE_CHUNK)] + body;
  }

  lemma {:induction false} TextPayloadsPlain(codec: Codec, texts: seq<string>)
    requires Lawful(codec) && Writable(texts)
    ensures AllPlain(TextPayloads(codec, texts))
  {
    if texts != [] {
      TextPayloadsPlain(codec, texts[1..]);
    }
  }

  lemma GatewayPlain(codec: Codec, texts: seq<string>, usage: Usage)
    requires Lawful(codec) && Writable(texts)
    ensures AllPlain(GatewayPayloads(codec, texts, usage))
  {
    TextPayloadsPlain(codec, texts);
    assert Plain(DONE) && Escapable(ROLE_CHUNK) && Escapable(STOP_CHUNK) && Escapable(UsageChunk(usage));
  }

  lemma {:induction false} MaskedTextsNonEmpty(rules: Rules, buf: string, deltas: seq<string>)
    ensures forall k | 0 <= k < |MaskedTexts(rules, buf, deltas)| :: MaskedTexts(rules, buf, deltas)[k] != ""
    decreases |deltas|
  {
    if deltas != [] {
      MaskedTextsNonEmpty(rules, Held(buf + deltas[0]), deltas[1..]);
    }
  }

  lemma {:induction false} PartsAvoid(texts: seq<string>, c: char)
    requires c !in Concat(texts)
    ensures forall k | 0 <= k < |texts| :: c !in texts[k]
  {
    if texts != [] {
      PartsAvoid(texts[1..], c);
    }
  }

  // ---------- the whole way ----------

  /** What the masker makes of the deltas as they come, or the deltas themselves if masking is off. */
  function Emitted(rules: Rules, maskResponses: bool, deltas: seq<string>): string {
    if maskResponses then StreamOut(rules, "", deltas) else Concat(deltas)
  }

  predicate NoNel(texts: seq<string>) {
    forall k | 0 <= k < |texts| :: NEL !in texts[k]
  }

  /** What the browser handles when it reads these bytes, and what the api stores when it relays this body. */
  function PageOf(codec: Codec, chunks: seq<string>): seq<ChatClient.Message> {
    ChatClient.Handle(codec, ChatClient.Init(ChatClient.Split(Concat(chunks))))
  }

  function RelayedOf(body: string): seq<string> {
    ChatRelay.Relayed(PyText.SplitLines(body))
  }

  function StoredOf(codec: Codec, body: string): Option<ChatRelay.Stored> {
    ChatRelay.StoredMessage(
      ChatRelay.Collected(codec, RelayedOf(body)), false, ChatRelay.TokensOf(codec, RelayedOf(body), 0))
  }

  /** The page shows this text and no error, and this text is stored, unless it is empty. */
  ghost predicate Arrives(codec: Codec, out: string, chunks: seq<string>, text: string, tokens: int) {
    && Shown(PageOf(codec, chunks)) == text && NoErrors(PageOf(codec, chunks))
    && StoredOf(codec, out) == if text == "" then None else Some(ChatRelay.Stored(text, tokens))
  }

  /**
   The gateway decodes an upstream body, masks and re-emits it; the api relays and
   stores; the browser reads the relayed bytes in any pieces. For all rules and all
   bodies what the masker emits is what the page shows and what is stored.
  */
  lemma StreamedReply(codec: Codec, body: string, rules: Rules, maskResponses: bool, chunks: seq<string>)
    requires Lawful(codec) && NoNel(Texts(rules, maskResponses, DeltasIn(codec, body)))
    requires Concat(chunks) == FramesOf(RelayedOf(GatewayBody(codec, body, rules, maskResponses)))
    ensures Arrives(codec, GatewayBody(codec, body, rules, maskResponses), chunks,
                    Emitted(rules, maskResponses, DeltasIn(codec, body)), UsageIn(codec, body).completionTokens)
  {
    var deltas, usage := DeltasIn(codec, body), UsageIn(codec, body);
    var texts := Texts(rules, maskResponses, deltas);
    var payloads := GatewayPayloads(codec, texts, usage);
    TextsReady(codec, body, rules, maskResponses);
    hide Texts, Emitted, Lawful, DeltasIn, UsageIn, GatewayPayloads, FramesOf, NoNel;
    GatewayPlain(codec, texts, usage);
    ReadGateway(codec, texts, usage);
    ChatRelay.RelayFrames(payloads);
    PlainIsWhole(payloads);
    ChatClient.ClientReadsFrames(codec, payloads);
  }

  /** The emitted texts make up the reply and can all be written. */
  lemma TextsReady(codec: Codec, body: string, rules: Rules, maskResponses: bool)
    requires NoNel(Texts(rules, maskResponses, DeltasIn(codec, body)))
    ensures var texts := Texts(rules, maskResponses, DeltasIn(codec, body));
            Writable(texts) && Concat(texts) == Emitted(rules, maskResponses, DeltasIn(codec, body))
  {
    var deltas := DeltasIn(codec, body);
    if maskResponses {
      MaskedTextsNonEmpty(rules, "", deltas);
      MaskedTextsJoin(rules, "", deltas);
    } else {
      DeltasNonEmpty(codec, DatasOf(Sse.Scan(Sse.Lines(body), "", "", NotDone)));
    }
  }

  /** The reply the user should get: the deltas joined, and masked as a whole if masking is on. */
  function Reply(rules: Rules, maskResponses: bool, deltas: seq<string>): string {
    if maskResponses then Masked(rules, Concat(deltas)) else Concat(deltas)
  }

  /** If the reply has no U+0085 and masking it removes no blank, what arrives is the reply masked as a whole. */
  lemma BatchReply(codec: Codec, body: string, rules: Rules, maskResponses: bool, chunks: seq<string>)
    requires Lawful(codec) && NEL !in ReplyText(codec, body)
    requires maskResponses ==> AllSolid(rules) && RulesClean(rules, ReplyText(codec, body))
    requires Concat(chunks) == FramesOf(RelayedOf(GatewayBody(codec, body, rules, maskResponses)))
    ensures Arrives(codec, GatewayBody(codec, body, rules, maskResponses), chunks,
                    Reply(rules, maskResponses, DeltasIn(codec, body)), UsageIn(codec, body).completionTokens)
  {
    var deltas := DeltasIn(codec, body);
    NelStaysOut(codec, body, rules, maskResponses);
    hide Arrives, GatewayBody, UsageIn, RulesClean, AllSolid, Lawful, RelayedOf, FramesOf;
    StreamedReply(codec, body, rules, maskResponses, chunks);
    if maskResponses {
      StreamIsBatch(rules, deltas);
    }
  }

  /** Masking adds no U+0085. */
  lemma NelStaysOut(codec: Codec, body: string, rules: Rules, maskResponses: bool)
    requires NEL !in ReplyText(codec, body)
    ensures NoNel(Texts(rules, maskResponses, DeltasIn(codec, body)))
  {
    var deltas := DeltasIn(codec, body);
    if maskResponses {
      MaskedTextsAvoid(rules, "", deltas, NEL);
    } else {
      PartsAvoid(deltas, NEL);
    }
  }

  lemma {:induction false} MaskedTextsAvoid(rules: Rules, buf: string, deltas: seq<string>, c: char)
    requires c !in buf && c !in Concat(deltas) && c !in MASK_TOKEN
    ensures forall k | 0 <= k < |MaskedTexts(rules, buf, deltas)| :: c !in MaskedTexts(rules, buf, deltas)[k]
    decreases |deltas|
  {
    hide Masked;
    if deltas == [] {
      MaskedAdds(rules, buf, c);
    } else {
      var s := buf + deltas[0];
      HeldRest(s);
      MaskedAdds(rules, Released(s), c);
      hide Released, Held;
      assert c !in Released(s) && c !in Held(s);
      MaskedTextsAvoid(rules, Held(s), deltas[1..], c);
    }
  }

  lemma PlainIsWhole(payloads: seq<string>)
    requires AllPlain(payloads)
    ensures AllWhole(payloads)
  {
  }

  /** The texts of the first choices of the readable chunks, in order. */
  function Pieces(upstream: seq<Option<Chunk>>): string {
    if upstream == [] then "" else FirstText(upstream[0]) + Pieces(upstream[1..])
  }

  function FirstText(c: Option<Chunk>): string {
    if c.Some? && c.value.contents != [] then c.value.contents[0] else ""
  }

  /** Each payload is one line, other than the sentinel, that reads as the chunk of the same index or not at all. */
  predicate Prints(codec: Codec, payloads: seq<string>, upstream: seq<Option<Chunk>>) {
    && |payloads| == |upstream|
    && forall k | 0 <= k < |payloads| ::
         Whole(payloads[k]) && payloads[k] != DONE && codec.goDecode(payloads[k]) == upstream[k]
  }

  lemma {:induction false} PrintedDeltas(codec: Codec, payloads: seq<string>, upstream: seq<Option<Chunk>>)
    requires Prints(codec, payloads, upstream)
    ensures UpToDone(payloads + [DONE]) == payloads + [DONE]
    ensures Concat(DeltasOf(codec, payloads + [DONE])) == Pieces(upstream)
  {
    if payloads == [] {
      assert payloads + [DONE] == [DONE] && [DONE][1..] == [];
    } else {
      var rest, text := payloads[1..] + [DONE], FirstText(upstream[0]);
      PrintedDeltas(codec, payloads[1..], upstream[1..]);
      Regroup([payloads[0]], payloads[1..], [DONE]);
      assert [payloads[0]] + payloads[1..] == payloads;
      DeltasNext(codec, payloads[0], upstream[0], rest);
      hide FirstText, NonEmpty, Concat;
      ConcatNonEmpty(text);
      ConcatAppend(NonEmpty(text), DeltasOf(codec, rest));
    }
  }

  lemma DeltasNext(codec: Codec, payload: string, chunk: Option<Chunk>, rest: seq<string>)
    requires Whole(payload) && payload != DONE && codec.goDecode(payload) == chunk
    ensures DeltasOf(codec, [payload] + rest) == NonEmpty(FirstText(chunk)) + DeltasOf(codec, rest)
    ensures UpToDone([payload] + rest) == [payload] + UpToDone(rest)
  {
    TailAppend([payload], rest);
  }

  /** For an upstream that frames its chunks and ends with the sentinel, the reply is the text of what can be read. */
  lemma UpstreamText(codec: Codec, payloads: seq<string>, upstream: seq<Option<Chunk>>)
    requires Prints(codec, payloads, upstream)
    ensures var body := FramesOf(payloads + [DONE]);
            ReplyText(codec, body) == Pieces(upstream)
  {
    assert Whole(DONE);
    PrintedDeltas(codec, payloads, upstream);
    ScanFrames(payloads + [DONE]);
  }

  predicate Reports(c: Option<Chunk>) {
    c.Some? && c.value.usage.Some?
  }

  /** Chunk k is the last one that reports a usage. */
  predicate LastReport(upstream: seq<Option<Chunk>>, k: nat) {
    && k < |upstream| && Reports(upstream[k])
    && forall j | k < j < |upstream| :: !Reports(upstream[j])
  }

  predicate NoReport(upstream: seq<Option<Chunk>>) {
    forall j | 0 <= j < |upstream| :: !Reports(upstream[j])
  }

  lemma {:induction false} PrintedUsage(codec: Codec, payloads: seq<string>, upstream: seq<Option<Chunk>>, usage: Usage)
    requires Prints(codec, payloads, upstream)
    ensures NoReport(upstream) ==> UsageOf(codec, payloads + [DONE], usage) == usage
    ensures forall k: nat | LastReport(upstream, k) ::
              UsageOf(codec, payloads + [DONE], usage) == upstream[k].value.usage.value
  {
    if payloads == [] {
      assert payloads + [DONE] == [DONE] && [DONE][1..] == [];
      assert UsageOf(codec, [DONE], usage) == UsageOf(codec, [], usage) == usage;
    } else {
      var rest, chunk := payloads[1..] + [DONE], upstream[0];
      var next := if Reports(chunk) then chunk.value.usage.value else usage;
      PrintedUsage(codec, payloads[1..], upstream[1..], next);
      TailAppend(payloads, [DONE]);
      assert UsageOf(codec, payloads + [DONE], usage) == UsageOf(codec, rest, next);
      hide UsageOf;
      assert NoReport(upstream) ==> NoReport(upstream[1..]) && !Reports(chunk);
      forall k: nat | LastReport(upstream, k)
        ensures if k == 0 then NoReport(upstream[1..]) else LastReport(upstream[1..], k - 1)
      {
        assert forall j | 0 < j < |upstream| :: upstream[1..][j-1] == upstream[j];
      }
    }
  }

  /** The usage is that of the last chunk that reports one, field by field, and zero if none does. */
  lemma UpstreamUsage(codec: Codec, payloads: seq<string>, upstream: seq<Option<Chunk>>)
    requires Prints(codec, payloads, upstream)
    ensures var usage := UsageIn(codec, FramesOf(payloads + [DONE]));
            && (NoReport(upstream) ==> usage.promptTokens == 0 && usage.completionTokens == 0)
            && (forall k: nat | LastReport(upstream, k) ::
                  && usage.promptTokens == upstream[k].value.usage.value.promptTokens
                  && usage.completionTokens == upstream[k].value.usage.value.completionTokens)
  {
    assert Whole(DONE);
    PrintedUsage(codec, payloads, upstream, NO_USAGE);
    PrintedDeltas(codec, payloads, upstream);
    ScanFrames(payloads + [DONE]);
    hide UsageOf;
  }

  // ---------- replies with U+0085 ----------

  lemma EncodedIs(codec: Codec, c: Chunk)
    requires Lawful(codec) && WritesNel(codec) && Written(c)
    ensures Whole(codec.encode(c)) && codec.encode(c) != DONE && (Plain(codec.encode(c)) <==> Escapable(c))
  {
    assert !Escapable(c) ==> c == TextChunk(Piece(c));
    assert !Plain(codec.encode(c)) ==> codec.encode(c) != DONE by { assert Plain(DONE); }
  }

  lemma {:induction false} TextPayloadsExactly(codec: Codec, texts: seq<string>, tail: seq<string>)
    requires Lawful(codec) && WritesNel(codec) && AllPlain(tail) && UpToDone(tail) == tail
    ensures var payloads := TextPayloads(codec, texts) + tail;
            AllWhole(payloads) && UpToDone(payloads) == payloads && (AllPlain(payloads) <==> NoNel(texts))
  {
    if texts == [] {
      assert TextPayloads(codec, texts) + tail == tail;
      hide Plain, Whole;
      PlainIsWhole(tail);
    } else {
      var c, rest := TextChunk(texts[0]), TextPayloads(codec, texts[1..]) + tail;
      TextPayloadsExactly(codec, texts[1..], tail);
      Regroup([codec.encode(c)], TextPayloads(codec, texts[1..]), tail);
      assert TextPayloads(codec, texts) == [codec.encode(c)] + TextPayloads(codec, texts[1..]);
      assert Written(c);
      hide *;
      EncodedIs(codec, c);
      OneMore(codec.encode(c), rest);
      NoNelNext(texts);
    }
  }

  lemma NoNelNext(texts: seq<string>)
    requires texts != []
    ensures NoNel(texts) <==> Escapable(TextChunk(texts[0])) && NoNel(texts[1..])
  {
    assert TextChunk(texts[0]).contents[0] == texts[0];
    assert forall k | 1 <= k < |texts| :: texts[k] == texts[1..][k-1];
  }

  lemma OneMore(p: string, rest: seq<string>)
    requires Whole(p) && p != DONE && AllWhole(rest) && UpToDone(rest) == rest
    ensures AllWhole([p] + rest) && UpToDone([p] + rest) == [p] + rest
    ensures AllPlain([p] + rest) <==> Plain(p) && AllPlain(rest)
  {
    hide Plain, Whole, AllPlain;
    ChatRelay.AllPlainNext(p, rest);
    AllWholeNext(p, rest);
    hide AllWhole;
    TailAppend([p], rest);
  }

  lemma AllWholeNext(p: string, rest: seq<string>)
    requires Whole(p) && AllWhole(rest)
    ensures AllWhole([p] + rest)
  {
    hide Whole;
    forall k | 0 <= k < |rest| + 1
      ensures Whole(([p] + rest)[k])
    {
      assert ([p] + rest)[k] == if k == 0 then p else rest[k-1];
    }
  }

  /** The relay passes on all that streamChat writes if and only if no emitted text contains U+0085. */
  lemma RelayedExactly(codec: Codec, texts: seq<string>, usage: Usage)
    requires Lawful(codec) && WritesNel(codec)
    ensures var payloads := GatewayPayloads(codec, texts, usage);
            RelayedOf(FramesOf(payloads)) == payloads <==> NoNel(texts)
  {
    var role := codec.encode(ROLE_CHUNK);
    var tail := [codec.encode(STOP_CHUNK), codec.encode(UsageChunk(usage)), DONE];
    var body := TextPayloads(codec, texts) + tail;
    EndsReady(codec, usage);
    Regroup([role], TextPayloads(codec, texts), tail);
    assert GatewayPayloads(codec, texts, usage) == [role] + body;
    hide *;
    TextPayloadsExactly(codec, texts, tail);
    OneMore(role, body);
    RelayExactlyOf([role] + body);
  }

  lemma RelayExactlyOf(payloads: seq<string>)
    requires AllWhole(payloads)
    ensures RelayedOf(FramesOf(payloads)) == UpToDone(payloads) <==> AllPlain(UpToDone(payloads))
  {
    ChatRelay.RelayExactly(payloads);
  }

  /** What comes before and after the texts is plain. */
  lemma EndsReady(codec: Codec, usage: Usage)
    requires Lawful(codec)
    ensures var role, stop, use := codec.encode(ROLE_CHUNK), codec.encode(STOP_CHUNK), codec.encode(UsageChunk(usage));
            && Plain(role) && Whole(role) && role != DONE
            && AllPlain([stop, use, DONE]) && UpToDone([stop, use, DONE]) == [stop, use, DONE]
  {
    assert Escapable(STOP_CHUNK) && Escapable(UsageChunk(usage)) && Escapable(ROLE_CHUNK);
    hide Plain, UpToDone;
    LastIsDone(codec.encode(STOP_CHUNK), codec.encode(UsageChunk(usage)));
    PlainIsWhole([codec.encode(ROLE_CHUNK)]) by { assert Plain(codec.encode(ROLE_CHUNK)); }
    assert Whole([codec.encode(ROLE_CHUNK)][0]);
  }

  lemma LastIsDone(stop: string, use: string)
    requires Plain(stop) && Plain(use) && stop != DONE && use != DONE
    ensures AllPlain([stop, use, DONE]) && UpToDone([stop, use, DONE]) == [stop, use, DONE]
  {
    assert Plain(DONE) && UpToDone([DONE]) == [DONE];
    hide Plain;
    OneMore(use, [DONE]);
    OneMore(stop, [use] + [DONE]);
    assert [stop, use, DONE] == [stop] + ([use] + [DONE]);
  }
}
