/** The wire format between gateway, api and browser: `data: <payload>\n\n` frames of JSON chunks. */
module Frames {
  import opened Wrappers
  import opened Text
  import opened PyText

  datatype Usage = Usage(promptTokens: int, completionTokens: int)

  /**
   A chat.completion.chunk: the text of each choice's delta, the role and the finish
   reason of the first ("" when absent), the usage and the error mark.
  */
  datatype Chunk = Chunk(contents: seq<string>, role: string, finish: string, usage: Option<Usage>, error: bool)

  /** Each side's JSON library: Go's Marshal and Unmarshal, Python's loads, the browser's JSON.parse. */
  datatype Codec = Codec(
    encode: Chunk -> string,
    goDecode: string -> Option<Chunk>,
    pyDecode: string -> Option<Chunk>,
    jsDecode: string -> Option<Chunk>)

  const DONE := "[DONE]"

  /** One line that begins and ends with a visible ASCII character, as a JSON object does. */
  predicate Whole(p: string) {
    p != "" && '!' <= p[0] <= '~' && '!' <= p[|p|-1] <= '~' && '\n' !in p
  }

  /** ... and that Python, too, takes for one line. */
  predicate Plain(p: string) {
    Whole(p) && forall k | 0 <= k < |p| :: !IsLineBreak(p[k])
  }

  const NEL: char := '\U{0085}'

  // ---------- the chunks that streamChat writes ----------

  const ROLE_CHUNK := Chunk([""], "assistant", "", None, false)
  const STOP_CHUNK := Chunk([""], "", "stop", None, false)

  function TextChunk(text: string): Chunk {
    Chunk([text], "", "", None, false)
  }

  function UsageChunk(usage: Usage): Chunk {
    Chunk([], "", "", Some(usage), false)
  }

  /** The role, a text, the stop mark or the usage: nothing else is ever encoded. */
  predicate Written(c: Chunk) {
    || c == ROLE_CHUNK || c == STOP_CHUNK
    || c == TextChunk(Piece(c))
    || (c.usage.Some? && c == UsageChunk(c.usage.value))
  }

  /** Go's encoder escapes every other line boundary of Python's, but not U+0085. */
  predicate Escapable(c: Chunk) {
    Written(c) && NEL !in Piece(c)
  }

  /**
   Such chunks print as plain lines other than the sentinel. Python reads them back,
   and the browser reads back what the page looks at, the text and the error mark:
   its numbers are not exact.
  */
  ghost predicate Lawful(codec: Codec) {
    forall c: Chunk | Escapable(c) ::
      var p := codec.encode(c);
      && Plain(p) && p != DONE
      && codec.pyDecode(p) == Some(c)
      && codec.jsDecode(p).Some?
      && Piece(codec.jsDecode(p).value) == Piece(c) && codec.jsDecode(p).value.error == c.error
  }

  /** A codec that, like Go's, writes U+0085 as it is, inside a payload that is one line to the gateway. */
  ghost predicate WritesNel(codec: Codec) {
    forall text: string | NEL in text ::
      Whole(codec.encode(TextChunk(text))) && !Plain(codec.encode(TextChunk(text)))
  }

  function Frame(payload: string): string {
    DATA + " " + payload + "\n\n"
  }

  function FramesOf(payloads: seq<string>): string {
    if payloads == [] then "" else Frame(payloads[0]) + FramesOf(payloads[1..])
  }

  lemma {:induction false} FramesAppend(a: seq<string>, b: seq<string>)
    ensures FramesOf(a + b) == FramesOf(a) + FramesOf(b)
  {
    if a == [] {
      assert a + b == b;
    } else {
      assert (a + b)[1..] == a[1..] + b;
      FramesAppend(a[1..], b);
    }
  }

  lemma OneFrame(payload: string)
    ensures FramesOf([payload]) == Frame(payload)
  {
    assert [payload][1..] == [] && Frame(payload) + "" == Frame(payload);
  }

  predicate AllPlain(payloads: seq<string>) {
    forall k | 0 <= k < |payloads| :: Plain(payloads[k])
  }

  predicate AllWhole(payloads: seq<string>) {
    forall k | 0 <= k < |payloads| :: Whole(payloads[k])
  }

  lemma WholeTrimmed(p: string)
    requires Whole(p)
    ensures Trimmed(p) && Trim(" " + p) == p && Trim(p) == p
  {
    TrimTrimmed(p);
  }

  /** The payloads up to and including the first sentinel. */
  function UpToDone(payloads: seq<string>): seq<string> {
    if payloads == [] then []
    else [payloads[0]] + if payloads[0] == DONE then [] else UpToDone(payloads[1..])
  }

  /** The text of the first choice, when there is one. */
  function Piece(c: Chunk): string {
    if c.contents == [] then "" else c.contents[0]
  }
}
