/** A codec that meets what the theorems about streams assume of the JSON libraries: they can be met. */
module SampleCodec {
  import opened Wrappers
  import opened Text
  import opened PyText
  import opened Frames
  import ChatRelay
  import ErrorReplies

  // ---------- texts without line boundaries, but for U+0085 ----------

  /** A line boundary is written as a tilde and a letter or digit, and a tilde twice. */
  function Mark(c: char): (m: char)
    requires c == '~' || IsLineBreak(c)
    ensures !IsLineBreak(m) && m != NEL
  {
    if c == '~' then '~'
    else if c == '\U{2028}' then 'x'
    else if c == '\U{2029}' then 'y'
    else if c as int < 0x20 then (c as int + 0x28) as char
    else 'z'
  }

  predicate Marked(c: char) {
    c == '~' || (IsLineBreak(c) && c != NEL)
  }

  function EscapeChar(c: char): (s: string)
    ensures |s| > 0
  {
    if Marked(c) then ['~', Mark(c)] else [c]
  }

  function Escape(t: string): string {
    if t == "" then "" else EscapeChar(t[0]) + Escape(t[1..])
  }

  lemma MarkInjective(c: char, d: char)
    requires Marked(c) && Marked(d) && Mark(c) == Mark(d)
    ensures c == d
  {
  }

  lemma {:induction false} EscapeInjective(t: string, u: string)
    requires Escape(t) == Escape(u)
    ensures t == u
  {
    if t != "" && u != "" {
      assert Escape(t)[0] == EscapeChar(t[0])[0] && Escape(u)[0] == EscapeChar(u[0])[0];
      if Marked(t[0]) {
        assert Escape(t)[1] == Mark(t[0]) && Escape(u)[1] == Mark(u[0]);
        MarkInjective(t[0], u[0]);
      }
      HalvesAppend(EscapeChar(t[0]), Escape(t[1..]));
      HalvesAppend(EscapeChar(u[0]), Escape(u[1..]));
      EscapeInjective(t[1..], u[1..]);
      assert t == [t[0]] + t[1..] && u == [u[0]] + u[1..];
    }
  }

  predicate NoBoundary(s: string) {
    forall k | 0 <= k < |s| :: !IsLineBreak(s[k]) || s[k] == NEL
  }

  lemma {:induction false} EscapeKeeps(t: string)
    ensures NoBoundary(Escape(t)) && (NEL in Escape(t) <==> NEL in t)
  {
    if t != "" {
      EscapeKeeps(t[1..]);
      assert t == [t[0]] + t[1..];
    }
  }

  // ---------- numbers ----------

  function Ones(n: int): string {
    seq(if n >= 0 then 2 * n else -2 * n - 1, _ => '1')
  }

  lemma OnesInjective(a: int, b: int, c: int, d: int)
    requires Ones(a) + "," + Ones(b) == Ones(c) + "," + Ones(d)
    ensures a == c && b == d
  {
    var s := Ones(a) + "," + Ones(b);
    assert s[|Ones(a)|] == ',' && s[|Ones(c)|] == ',';
    assert |Ones(a)| == |Ones(c)|;
  }

  // ---------- chunks ----------

  /** What the gateway writes, and the api's own error chunk. */
  predicate Printed(c: Chunk) {
    Written(c) || c == ChatRelay.ErrorChunk(Piece(c))
  }

  function Encode(c: Chunk): string {
    if c == ROLE_CHUNK then "r!"
    else if c == STOP_CHUNK then "s!"
    else if c.usage.Some? then
      "u" + (Ones(c.usage.value.promptTokens) + "," + Ones(c.usage.value.completionTokens)) + "!"
    else (if c.error then "e" else "t") + Escape(Piece(c)) + "!"
  }

  lemma EncodeInjective(c: Chunk, d: Chunk)
    requires Printed(c) && Printed(d) && Encode(c) == Encode(d)
    ensures c == d
  {
    var p := Encode(c);
    assert p[0] == Encode(d)[0];
    if p[0] == 't' || p[0] == 'e' {
      assert p[1..|p|-1] == Escape(Piece(c)) == Escape(Piece(d));
      EscapeInjective(Piece(c), Piece(d));
    } else if p[0] == 'u' {
      var m, n := c.usage.value, d.usage.value;
      assert p[1..|p|-1] == Ones(m.promptTokens) + "," + Ones(m.completionTokens);
      assert p[1..|p|-1] == Ones(n.promptTokens) + "," + Ones(n.completionTokens);
      OnesInjective(m.promptTokens, m.completionTokens, n.promptTokens, n.completionTokens);
    }
  }

  lemma EncodeIsOneLine(c: Chunk)
    requires Printed(c)
    ensures Whole(Encode(c)) && Encode(c) != DONE && (Plain(Encode(c)) <==> NEL !in Piece(c))
  {
    EscapeKeeps(Piece(c));
    var p := Encode(c);
    assert NoBoundary(p) && (NEL in p <==> NEL in Piece(c));
  }

  ghost function Decode(p: string): Option<Chunk> {
    if c: Chunk :| Printed(c) && Encode(c) == p then Some(c) else None
  }

  ghost function Sample(): Codec {
    Codec(Encode, Decode, Decode, Decode)
  }

  lemma EncodeDecodes(c: Chunk)
    requires Printed(c)
    ensures Decode(Encode(c)) == Some(c)
    ensures Whole(Encode(c)) && Encode(c) != DONE && (Plain(Encode(c)) <==> NEL !in Piece(c))
  {
    var d: Chunk := Decode(Encode(c)).value;
    EncodeInjective(c, d);
    EncodeIsOneLine(c);
  }

  lemma SampleLawful()
    ensures Lawful(Sample())
  {
    hide Encode, Decode, Plain;
    forall c: Chunk | Escapable(c)
      ensures Decode(Encode(c)) == Some(c) && Plain(Encode(c)) && Encode(c) != DONE
    {
      EncodeDecodes(c);
    }
  }

  lemma SampleWritesNel()
    ensures WritesNel(Sample())
  {
    hide Encode, Decode, Plain, Whole;
    forall text: string | NEL in text
      ensures Whole(Encode(TextChunk(text))) && !Plain(Encode(TextChunk(text)))
    {
      EncodeDecodes(TextChunk(text));
    }
  }

  lemma SampleTellsErrors()
    ensures ErrorReplies.TellsErrors(Sample(), Encode)
  {
    hide Encode, Decode, Plain, Whole;
    forall text: string
      ensures var c := ChatRelay.ErrorChunk(text); Whole(Encode(c)) && Encode(c) != DONE && Decode(Encode(c)) == Some(c)
    {
      EncodeDecodes(ChatRelay.ErrorChunk(text));
    }
  }

  lemma LawfulCodecExists()
    ensures exists codec: Codec :: Lawful(codec) && WritesNel(codec) && ErrorReplies.TellsErrors(codec, codec.encode)
  {
    hide *;
    SampleLawful();
    SampleWritesNel();
    SampleTellsErrors();
    SampleEncodes();
  }

  lemma SampleEncodes()
    ensures Sample().encode == Encode
  {
  }
}
