/** What the page shows, and what is stored, when the gateway refuses a request or the connection breaks. */
module ErrorReplies {
  import opened Wrappers
  import opened Text
  import opened Frames
  import opened ChatRelay
  import ChatClient
  import EndToEnd

  /** The api prints an error as one line, other than the sentinel, in which the browser finds the text and the mark. */
  ghost predicate TellsErrors(codec: Codec, dumps: Chunk -> string) {
    forall message: string ::
      var p := dumps(ErrorChunk(message));
      && Whole(p) && p != DONE && codec.jsDecode(p).Some?
      && Piece(codec.jsDecode(p).value) == message && codec.jsDecode(p).value.error
  }

  lemma {:induction false} MessagesAppend(codec: Codec, a: seq<string>, b: seq<string>)
    requires DONE !in a
    ensures ChatClient.PayloadMessages(codec, a + b) ==
            ChatClient.PayloadMessages(codec, a) + ChatClient.PayloadMessages(codec, b)
  {
    if a == [] {
      assert a + b == b;
    } else {
      assert a[0] in a;
      TailAppend(a, b);
      MessagesAppend(codec, a[1..], b);
      hide ChatClient.Messages;
    }
  }

  /** An apology is one error with its text. */
  lemma ApologyRead(codec: Codec, dumps: Chunk -> string, message: string)
    requires TellsErrors(codec, dumps) && message != ""
    ensures AllWhole(Apology(dumps, message))
    ensures ChatClient.PayloadMessages(codec, Apology(dumps, message)) == [ChatClient.Error(message)]
  {
    var p := dumps(ErrorChunk(message));
    assert Apology(dumps, message) == [p, DONE] && [p, DONE][1..] == [DONE] && Whole(DONE);
    assert ChatClient.PayloadMessages(codec, [DONE]) == [];
  }

  /** For a refused request the page shows one error, however its bytes arrive, and nothing is stored. */
  lemma RefusalShown(codec: Codec, dumps: Chunk -> string, message: string, chunks: seq<string>)
    requires TellsErrors(codec, dumps) && message != ""
    requires Concat(chunks) == FramesOf(Yielded(dumps, Refused(message)))
    ensures EndToEnd.PageOf(codec, chunks) == [ChatClient.Error(message)]
    ensures Kept(codec, Refused(message)).None?
  {
    hide FramesOf, ChatClient.Handle, ChatClient.Split, ChatClient.PayloadMessages, Apology;
    ApologyRead(codec, dumps, message);
    ChatClient.ClientReadsFrames(codec, Apology(dumps, message));
  }

  /** If the connection breaks, the page shows what came before and then the error, and nothing is stored. */
  lemma BreakShown(codec: Codec, dumps: Chunk -> string, lines: seq<string>, message: string, chunks: seq<string>)
    requires TellsErrors(codec, dumps) && message != ""
    requires AllWhole(Relayed(lines)) && DONE !in Relayed(lines)
    requires Concat(chunks) == FramesOf(Yielded(dumps, Answered(lines, Some(message))))
    ensures EndToEnd.PageOf(codec, chunks) ==
            ChatClient.PayloadMessages(codec, Relayed(lines)) + [ChatClient.Error(message)]
    ensures Kept(codec, Answered(lines, Some(message))).None?
  {
    hide FramesOf, ChatClient.Handle, ChatClient.Split, ChatClient.PayloadMessages, Apology, Relayed, Whole;
    var payloads := Relayed(lines) + Apology(dumps, message);
    ApologyRead(codec, dumps, message);
    MessagesAppend(codec, Relayed(lines), Apology(dumps, message));
    ChatClient.ClientReadsFrames(codec, payloads);
  }

  /** A break behind the sentinel makes no difference: the reply is complete. */
  lemma LateBreak(codec: Codec, dumps: Chunk -> string, lines: seq<string>, message: string)
    requires DONE in Relayed(lines)
    ensures Yielded(dumps, Answered(lines, Some(message))) == Yielded(dumps, Answered(lines, None)) == Relayed(lines)
    ensures Kept(codec, Answered(lines, Some(message))) == Kept(codec, Answered(lines, None))
  {
    hide Relayed, Collected, TokensOf;
    assert Relayed(lines) + [] == Relayed(lines);
  }
}
