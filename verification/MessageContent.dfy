/** panel/components/message-content.tsx: cutting a message into text and fenced code. */
module MessageContent {
  import opened Wrappers
  import opened ChatClient
  import T = Text

  datatype Block = Code(lang: string, content: string) | Plain(content: string)

  const FENCE := "```"

  // ---------- /```([^\n`]*)\n([\s\S]*?)```/g ----------

  /** The greedy group [^\n`]* */
  function Info(s: string): (info: string)
    ensures info <= s && '\n' !in info && '`' !in info
    ensures |info| < |s| ==> s[|info|] == '\n' || s[|info|] == '`'
  {
    if s == "" || s[0] == '\n' || s[0] == '`' then "" else [s[0]] + Info(s[1..])
  }

  predicate FenceAt(s: string, i: nat) {
    i + 3 <= |s| && s[i] == '`' && s[i+1] == '`' && s[i+2] == '`'
  }

  /** Where the first fence of s is. */
  function FirstFence(s: string): (k: Option<nat>)
    ensures k.Some? ==> FenceAt(s, k.value)
    decreases |s|
  {
    if FenceAt(s, 0) then Some(0)
    else if s == "" then None
    else
      match FirstFence(s[1..])
      case None => None
      case Some(k) => Some(k + 1)
  }

  /** A match: the two groups, and how much of the text it spans. */
  datatype Fenced = Fenced(info: string, body: string)

  function Raw(f: Fenced): string {
    FENCE + f.info + "\n" + f.body + FENCE
  }

  predicate StandsAt(w: string, s: string, k: nat) {
    k + |w| <= |s| && s[k..k + |w|] == w
  }

  lemma StandsLater(w: string, s: string, k: nat)
    requires s != "" && StandsAt(w, s[1..], k)
    ensures StandsAt(w, s, k + 1)
  {
    assert s[1..][k..k + |w|] == s[k + 1..k + 1 + |w|];
  }

  /** The match at the front of s. The info group cannot give back characters, for none of them is a newline. */
  function MatchHere(s: string): (m: Option<Fenced>)
    ensures m.Some? ==> StandsAt(Raw(m.value), s, 0)
  {
    if !FenceAt(s, 0) then None
    else
      var info := Info(s[3..]);
      var at := 3 + |info|;
      if at >= |s| || s[at] != '\n' then None
      else
        var rest := s[at+1..];
        match FirstFence(rest)
        case None => None
        case Some(k) =>
          RawPrefix(s, info, rest[..k], rest[k+3..]);
          Some(Fenced(info, rest[..k]))
  }

  lemma RawPrefix(s: string, info: string, body: string, tail: string)
    requires FenceAt(s, 0) && info <= s[3..]
    requires 3 + |info| < |s| && s[3 + |info|] == '\n' && s[4 + |info|..] == body + FENCE + tail
    ensures StandsAt(Raw(Fenced(info, body)), s, 0)
  {
    T.SliceOfTail(s, 3, |info|);
    T.NextElement(s, 3 + |info|);
    FenceFirst(s);
    InfoFirst(s[3..], info);
    Nested(FENCE, info, "\n", body, FENCE, tail);
  }

  lemma FenceFirst(s: string)
    requires FenceAt(s, 0)
    ensures s == FENCE + s[3..]
  {
  }

  lemma InfoFirst(s: string, info: string)
    requires info <= s
    ensures s == info + s[|info|..]
  {
  }

  lemma Nested(a: string, b: string, c: string, d: string, e: string, tail: string)
    ensures a + (b + (c + (d + e + tail))) == (a + b + c + d + e) + tail
  {
  }

  datatype Hit = Hit(index: nat, f: Fenced)

  /** RegExp.exec from the front of s: the offset and the groups of the leftmost match. */
  function Exec(s: string): (m: Option<Hit>)
    ensures m.Some? ==> StandsAt(Raw(m.value.f), s, m.value.index)
    decreases |s|
  {
    match MatchHere(s)
    case Some(f) => Some(Hit(0, f))
    case None =>
      if s == "" then None
      else
        match Exec(s[1..])
        case None => None
        case Some(r) => StandsLater(Raw(r.f), s, r.index); Some(Hit(r.index + 1, r.f))
  }

  // ---------- the blocks ----------

  /** content.replace(/\n$/, "") */
  function DropNewline(s: string): string {
    if s != "" && s[|s|-1] == '\n' then s[..|s|-1] else s
  }

  /** A stretch of the source: free text, or a fence with its groups. */
  datatype Span = Text(text: string) | Fence(f: Fenced)

  function SourceOf(sp: Span): string {
    match sp
    case Text(t) => t
    case Fence(f) => Raw(f)
  }

  function BlockOf(sp: Span): Block {
    match sp
    case Text(t) => Plain(t)
    case Fence(f) => Code(JsTrim(f.info), DropNewline(f.body))
  }

  function TextSpan(t: string): seq<Span> {
    if t == "" then [] else [Text(t)]
  }

  function Spans(s: string): seq<Span>
    decreases |s|
  {
    match Exec(s)
    case None => TextSpan(s)
    case Some(r) => TextSpan(s[..r.index]) + [Fence(r.f)] + Spans(s[r.index + |Raw(r.f)|..])
  }

  function BlocksOf(spans: seq<Span>): seq<Block> {
    seq(|spans|, k requires 0 <= k < |spans| => BlockOf(spans[k]))
  }

  lemma BlocksAppend(a: seq<Span>, b: seq<Span>)
    ensures BlocksOf(a + b) == BlocksOf(a) + BlocksOf(b)
  {
  }

  /** What one match of the loop adds. */
  lemma SpansNext(src: string, last: nat, index: nat, f: Fenced)
    requires last <= |src| && Exec(src[last..]) == Some(Hit(index, f))
    ensures last + index + |Raw(f)| <= |src|
    ensures Spans(src[last..]) == TextSpan(src[last..last + index]) + [Fence(f)] + Spans(src[last + index + |Raw(f)|..])
  {
    hide Exec, Raw, TextSpan, Spans;
    SpansMatch(src[last..], index, f);
    T.SliceOfTail(src, last, index);
    T.SliceOfTail(src, last, index + |Raw(f)|);
  }

  lemma SpansMatch(s: string, index: nat, f: Fenced)
    requires Exec(s) == Some(Hit(index, f))
    ensures index + |Raw(f)| <= |s|
    ensures Spans(s) == TextSpan(s[..index]) + [Fence(f)] + Spans(s[index + |Raw(f)|..])
  {
    hide Exec, Raw, TextSpan;
  }

  /** The loop has dealt with src[..last], and these are its blocks. */
  ghost predicate CutTo(src: string, last: nat, blocks: seq<Block>) {
    last <= |src| && BlocksOf(Spans(src)) == blocks + BlocksOf(Spans(src[last..]))
  }

  /** The blocks of one match and of the text before it. */
  function Found(text: string, f: Fenced): seq<Block> {
    (if text == "" then [] else [Plain(text)]) + [Code(JsTrim(f.info), DropNewline(f.body))]
  }

  /** One turn of the loop. */
  lemma Turn(src: string, last: nat, blocks: seq<Block>, index: nat, f: Fenced)
    requires CutTo(src, last, blocks) && Exec(src[last..]) == Some(Hit(index, f))
    ensures last < last + index + |Raw(f)| <= |src|
    ensures CutTo(src, last + index + |Raw(f)|, blocks + Found(src[last..last + index], f))
  {
    hide *;
    CutBounds(src, last, blocks);
    SpansNext(src, last, index, f);
    RawLength(f);
    FoundBlocks(src[last..last + index], f, Spans(src[last + index + |Raw(f)|..]));
    CutFurther(src, last, last + index + |Raw(f)|, blocks, Found(src[last..last + index], f));
  }

  lemma CutBounds(src: string, last: nat, blocks: seq<Block>)
    requires CutTo(src, last, blocks)
    ensures last <= |src|
  {
  }

  lemma CutFurther(src: string, last: nat, next: nat, blocks: seq<Block>, found: seq<Block>)
    requires CutTo(src, last, blocks) && last <= next <= |src|
    requires BlocksOf(Spans(src[last..])) == found + BlocksOf(Spans(src[next..]))
    ensures CutTo(src, next, blocks + found)
  {
    hide Spans, BlocksOf;
  }

  lemma FoundBlocks(text: string, f: Fenced, rest: seq<Span>)
    ensures BlocksOf(TextSpan(text) + [Fence(f)] + rest) == Found(text, f) + BlocksOf(rest)
  {
    OneBlock(f);
    TextBlock(text);
    BlocksAppend(TextSpan(text) + [Fence(f)], rest);
    BlocksAppend(TextSpan(text), [Fence(f)]);
  }

  lemma OneBlock(f: Fenced)
    ensures BlocksOf([Fence(f)]) == [Code(JsTrim(f.info), DropNewline(f.body))]
  {
  }

  lemma TextBlock(t: string)
    ensures BlocksOf(TextSpan(t)) == if t == "" then [] else [Plain(t)]
  {
  }

  lemma AddFound(blocks: seq<Block>, text: string, f: Fenced)
    ensures blocks + Found(text, f) ==
            (if text == "" then blocks else blocks + [Plain(text)]) + [Code(JsTrim(f.info), DropNewline(f.body))]
  {
  }

  lemma CutAll(src: string, last: nat, blocks: seq<Block>)
    requires CutTo(src, last, blocks) && Exec(src[last..]).None?
    ensures BlocksOf(Spans(src)) == if last == |src| then blocks else blocks + [Plain(src[last..])]
  {
    TextBlock(src[last..]);
  }

  lemma CutNone(src: string)
    ensures CutTo(src, 0, [])
  {
    assert src[0..] == src;
  }

  method SplitBlocks(src: string) returns (blocks: seq<Block>)
    ensures blocks == BlocksOf(Spans(src))
  {
    blocks := [];
    var last := 0;
    CutNone(src);
    hide CutTo, Exec, Raw, JsTrim, DropNewline, Found;
    while true
      invariant last <= |src| && CutTo(src, last, blocks)
      decreases |src| - last
    {
      var m := Exec(src[last..]);
      if m.None? {
        break;
      }
      var index, f := m.value.index, m.value.f;
      Turn(src, last, blocks, index, f);
      AddFound(blocks, src[last..last + index], f);
      if index > 0 {
        blocks := blocks + [Plain(src[last..last + index])];
      }
      blocks := blocks + [Code(JsTrim(f.info), DropNewline(f.body))];
      last := last + index + |Raw(f)|;
    }
    CutAll(src, last, blocks);
    if last < |src| {
      blocks := blocks + [Plain(src[last..])];
    }
  }

  lemma RawLength(f: Fenced)
    ensures |Raw(f)| >= 7
  {
  }

  // ---------- the spans are the source ----------

  function Sources(spans: seq<Span>): string {
    if spans == [] then "" else SourceOf(spans[0]) + Sources(spans[1..])
  }

  lemma {:induction false} SourcesAppend(a: seq<Span>, b: seq<Span>)
    ensures Sources(a + b) == Sources(a) + Sources(b)
  {
    if a == [] {
      assert a + b == b;
    } else {
      assert (a + b)[1..] == a[1..] + b;
      SourcesAppend(a[1..], b);
    }
  }

  /** Free text is never empty and holds no complete fence. */
  predicate IsText(sp: Span) {
    sp.Text? ==> sp.text != "" && Exec(sp.text).None?
  }

  lemma {:induction false} InfoLonger(s: string, more: string)
    requires |Info(s)| < |s|
    ensures Info(s + more) == Info(s)
  {
    if s != "" && s[0] != '\n' && s[0] != '`' {
      assert (s + more)[1..] == s[1..] + more;
      InfoLonger(s[1..], more);
    }
  }

  lemma {:induction false} FirstFenceLonger(s: string, more: string)
    requires FirstFence(s).Some?
    ensures FirstFence(s + more) == FirstFence(s)
    decreases |s|
  {
    if !FenceAt(s, 0) {
      FenceInside(s);
      assert (s + more)[1..] == s[1..] + more;
      FirstFenceLonger(s[1..], more);
    }
  }

  lemma {:induction false} FenceInside(s: string)
    ensures FirstFence(s).Some? ==> |s| >= 3
    ensures FirstFence(s).Some? && !FenceAt(s, 0) ==> |s| >= 4
    decreases |s|
  {
    if s != "" && !FenceAt(s, 0) {
      FenceInside(s[1..]);
    }
  }

  /** A complete fence stays one when more text follows it. */
  lemma MatchLonger(s: string, more: string)
    requires MatchHere(s).Some?
    ensures MatchHere(s + more) == MatchHere(s)
  {
    var all, at := s + more, 3 + |Info(s[3..])|;
    assert all[3..] == s[3..] + more && all[at+1..] == s[at+1..] + more;
    InfoLonger(s[3..], more);
    FirstFenceLonger(s[at+1..], more);
    var k := FirstFence(s[at+1..]).value;
    assert FenceAt(all, 0) && all[at] == '\n' && all[at+1..][..k] == s[at+1..][..k];
  }

  lemma {:induction false} NoneBefore(s: string, k: nat)
    requires k <= |s| && (Exec(s).None? || k <= Exec(s).value.index)
    ensures Exec(s[..k]).None?
    decreases k
  {
    var p := s[..k];
    assert s == p + s[k..];
    if MatchHere(p).Some? {
      RawLength(MatchHere(p).value);
      MatchLonger(p, s[k..]);
    } else if k > 0 {
      assert p[1..] == s[1..][..k-1];
      NoneBefore(s[1..], k - 1);
    }
  }

  predicate AllFree(spans: seq<Span>) {
    forall k | 0 <= k < |spans| :: IsText(spans[k])
  }

  lemma FreeText(t: string)
    requires Exec(t).None?
    ensures AllFree(TextSpan(t))
  {
    hide Exec;
  }

  lemma FreeAppend(a: seq<Span>, f: Fenced, b: seq<Span>)
    requires AllFree(a) && AllFree(b)
    ensures AllFree(a + [Fence(f)] + b)
  {
    hide Exec;
  }

  /** No free text is empty or contains a complete fence. */
  lemma {:induction false} TextsAreFree(s: string)
    ensures AllFree(Spans(s))
    decreases |s|
  {
    hide AllFree, Raw, TextSpan, MatchHere;
    match Exec(s)
    case None => FreeText(s);
    case Some(r) =>
      RawLength(r.f);
      NoneBefore(s, r.index);
      FreeText(s[..r.index]);
      TextsAreFree(s[r.index + |Raw(r.f)|..]);
      FreeAppend(TextSpan(s[..r.index]), r.f, Spans(s[r.index + |Raw(r.f)|..]));
  }

  lemma TextSource(t: string)
    ensures Sources(TextSpan(t)) == t
  {
    if t != "" {
      OneSource(Text(t));
    }
  }

  /** On any input the spans, put together in order, are the source. */
  lemma {:induction false} SpansPartition(s: string)
    ensures Sources(Spans(s)) == s
    decreases |s|
  {
    hide Raw, TextSpan, Sources;
    match Exec(s)
    case None => TextSource(s);
    case Some(r) =>
      RawLength(r.f);
      var head, n := TextSpan(s[..r.index]), r.index + |Raw(r.f)|;
      SpansPartition(s[n..]);
      SourcesAppend(head + [Fence(r.f)], Spans(s[n..]));
      SourcesAppend(head, [Fence(r.f)]);
      OneSource(Fence(r.f));
      TextSource(s[..r.index]);
      Pieces(s, r.index, Raw(r.f));
  }

  lemma Pieces(s: string, k: nat, w: string)
    requires StandsAt(w, s, k)
    ensures s == s[..k] + w + s[k + |w|..]
  {
  }

  lemma OneSource(sp: Span)
    ensures Sources([sp]) == SourceOf(sp)
  {
    assert [sp][1..] == [] && SourceOf(sp) + "" == SourceOf(sp);
  }

  // ---------- the round trip ----------

  /**
   A part of a message as it can be written: free text, or a fence whose info line has
   spaces around the language, and whose closing fence has a line of its own or not.
  */
  datatype Part =
    | Prose(text: string)
    | Sample(before: string, lang: string, after: string, content: string, ownLine: bool)

  function BodyOf(content: string, ownLine: bool): string {
    if ownLine then content + "\n" else content
  }

  function PrintPart(p: Part): string {
    match p
    case Prose(t) => t
    case Sample(before, lang, after, content, ownLine) =>
      "```" + (before + lang + after) + "\n" + (if ownLine then content + "\n" else content) + "```"
  }

  function Print(ps: seq<Part>): string {
    if ps == [] then "" else PrintPart(ps[0]) + Print(ps[1..])
  }

  /** What should be shown for it. */
  function Meant(p: Part): Block {
    match p
    case Prose(t) => Plain(t)
    case Sample(_, lang, _, content, _) => Code(lang, content)
  }

  function MeantAll(ps: seq<Part>): seq<Block> {
    seq(|ps|, k requires 0 <= k < |ps| => Meant(ps[k]))
  }

  predicate NoFence(s: string) {
    forall i | 0 <= i < |s| :: !FenceAt(s, i)
  }

  predicate OnInfoLine(s: string) {
    '\n' !in s && '`' !in s
  }

  /** Texts and code without a fence; code that a fence directly follows ends in neither a backtick nor a newline. */
  predicate Printable(p: Part) {
    match p
    case Prose(t) => t != "" && NoFence(t)
    case Sample(before, lang, after, content, ownLine) =>
      && OnInfoLine(before) && OnInfoLine(lang) && OnInfoLine(after)
      && T.All(IsJsSpace, before) && T.TrimmedBy(IsJsSpace, lang) && T.All(IsJsSpace, after)
      && NoFence(content)
      && (!ownLine && content != "" ==> content[|content|-1] != '`' && content[|content|-1] != '\n')
  }

  /** Printable parts, of which no two neighbours are both text. */
  predicate WellShaped(ps: seq<Part>) {
    && (forall k | 0 <= k < |ps| :: Printable(ps[k]))
    && (forall k | 0 <= k < |ps| - 1 :: Apart(ps, k))
  }

  predicate Apart(ps: seq<Part>, k: nat)
    requires k < |ps| - 1
  {
    ps[k].Sample? || ps[k+1].Sample?
  }

  lemma {:induction false} InfoOf(info: string, rest: string)
    requires OnInfoLine(info)
    requires rest != "" ==> rest[0] == '\n' || rest[0] == '`'
    ensures Info(info + rest) == info
  {
    if info != "" {
      assert (info + rest)[0] == info[0] && (info + rest)[1..] == info[1..] + rest;
      InfoOf(info[1..], rest);
    }
  }

  lemma NoFenceTail(s: string)
    requires NoFence(s) && s != ""
    ensures NoFence(s[1..])
  {
    forall i | 0 <= i < |s| - 1
      ensures !FenceAt(s[1..], i)
    {
      assert !FenceAt(s, i + 1);
    }
  }

  /** The fence that closes a printed sample is the first in what follows its info line. */
  lemma {:induction false} ClosingFence(body: string, rest: string)
    requires NoFence(body) && (body != "" ==> body[|body|-1] != '`')
    ensures FirstFence(body + FENCE + rest) == Some(|body|)
    decreases |body|
  {
    var s := body + FENCE + rest;
    if body == "" {
      assert s == FENCE + rest && FenceAt(FENCE + rest, 0);
    } else {
      assert !FenceAt(body, 0);
      NoFenceTail(body);
      assert s[1..] == body[1..] + FENCE + rest;
      ClosingFence(body[1..], rest);
    }
  }

  lemma ClosedBody(content: string, ownLine: bool)
    requires NoFence(content) && (!ownLine && content != "" ==> content[|content|-1] != '`')
    ensures var body := BodyOf(content, ownLine); NoFence(body) && (body != "" ==> body[|body|-1] != '`')
  {
    var body := BodyOf(content, ownLine);
    forall i | 0 <= i < |body|
      ensures !FenceAt(body, i)
    {
      if i < |content| {
        assert !FenceAt(content, i);
      }
    }
  }

  /** A fence with this info line and body is matched whole where it begins. */
  lemma MatchFence(info: string, body: string, rest: string)
    requires OnInfoLine(info) && NoFence(body) && (body != "" ==> body[|body|-1] != '`')
    ensures MatchHere(Raw(Fenced(info, body)) + rest) == Some(Fenced(info, body))
  {
    var tail := body + FENCE + rest;
    var s := Raw(Fenced(info, body)) + rest;
    FenceParts(info, body, rest);
    hide Raw, NoFence;
    InfoOf(info, "\n" + tail);
    ClosingFence(body, rest);
    assert tail[..|body|] == body;
  }

  lemma FenceParts(info: string, body: string, rest: string)
    ensures var s := Raw(Fenced(info, body)) + rest;
            && FenceAt(s, 0) && s[3..] == info + ("\n" + (body + FENCE + rest))
            && 3 + |info| < |s| && s[3 + |info|] == '\n' && s[4 + |info|..] == body + FENCE + rest
  {
  }

  /** Backticks at the end of a text do not open a fence together with the one that follows. */
  lemma NoMatchInText(t: string, rest: string)
    requires t != "" && NoFence(t) && (rest == "" || FenceAt(rest, 0))
    ensures MatchHere(t + rest).None?
  {
    var s := t + rest;
    assert !FenceAt(t, 0);
    if FenceAt(s, 0) {
      assert s[3..][0] == s[3] == '`';
      assert Info(s[3..]) == "";
    }
  }

  lemma {:induction false} ExecText(t: string, rest: string)
    requires NoFence(t) && (rest == "" || (FenceAt(rest, 0) && MatchHere(rest).Some?))
    ensures Exec(t + rest) == if rest == "" then None else Some(Hit(|t|, MatchHere(rest).value))
    decreases |t|
  {
    if t == "" {
      assert t + rest == rest;
    } else {
      NoMatchInText(t, rest);
      NoFenceTail(t);
      hide MatchHere, NoFence;
      assert (t + rest)[1..] == t[1..] + rest;
      ExecText(t[1..], rest);
    }
  }

  /** A printed fence, after a text that may be empty, and before more. */
  lemma SpansOfFence(t: string, f: Fenced, rest: string)
    requires NoFence(t) && OnInfoLine(f.info) && NoFence(f.body) && (f.body != "" ==> f.body[|f.body|-1] != '`')
    ensures Spans(t + (Raw(f) + rest)) == TextSpan(t) + [Fence(f)] + Spans(rest)
  {
    FenceParts(f.info, f.body, rest);
    MatchFence(f.info, f.body, rest);
    ExecText(t, Raw(f) + rest);
    hide *;
    SpansAt(t, f, rest);
  }

  lemma SpansAt(t: string, f: Fenced, rest: string)
    requires Exec(t + (Raw(f) + rest)) == Some(Hit(|t|, f))
    ensures Spans(t + (Raw(f) + rest)) == TextSpan(t) + [Fence(f)] + Spans(rest)
  {
    hide Exec, Raw, TextSpan, Spans;
    SpansMatch(t + (Raw(f) + rest), |t|, f);
    ThreeParts(t, Raw(f), rest);
  }

  lemma ThreeParts(t: string, u: string, rest: string)
    ensures (t + (u + rest))[..|t|] == t && (t + (u + rest))[|t| + |u|..] == rest
  {
  }

  /** The fence that a sample is printed as. */
  function FenceOf(p: Part): Fenced
    requires p.Sample?
  {
    Fenced(p.before + p.lang + p.after, BodyOf(p.content, p.ownLine))
  }

  lemma SampleFence(p: Part)
    requires p.Sample? && Printable(p)
    ensures var f := FenceOf(p);
            && PrintPart(p) == Raw(f) && BlockOf(Fence(f)) == Meant(p)
            && OnInfoLine(f.info) && NoFence(f.body) && (f.body != "" ==> f.body[|f.body|-1] != '`')
  {
    ClosedBody(p.content, p.ownLine);
    T.TrimExactly(IsJsSpace, p.before, p.lang, p.after);
    assert (p.content + "\n")[..|p.content|] == p.content;
    hide NoFence, IsJsSpace;
  }

  lemma SpansOfText(t: string)
    requires NoFence(t)
    ensures Spans(t) == TextSpan(t)
  {
    ExecText(t, "");
    assert t + "" == t;
  }

  lemma TextOnly(t: string)
    requires NoFence(t)
    ensures BlocksOf(Spans(t)) == if t == "" then [] else [Plain(t)]
  {
    SpansOfText(t);
    TextBlock(t);
  }

  /** Cutting a message gives back the blocks that its parts mean, however they are written. */
  lemma {:induction false} RoundTrip(ps: seq<Part>)
    requires WellShaped(ps)
    ensures BlocksOf(Spans(Print(ps))) == MeantAll(ps)
    decreases |ps|
  {
    hide *;
    NothingPrinted();
    if ps == [] {
      TextOnly("");
    } else {
      ShapedParts(ps);
      if ps[0].Sample? {
        RoundTrip(ps[1..]);
        SampleFirst("", ps);
        assert "" + Print(ps) == Print(ps) && [] + MeantAll(ps) == MeantAll(ps);
      } else if |ps| == 1 {
        assert ps[1..] == [] && ps[0].text + "" == ps[0].text;
        TextOnly(ps[0].text);
        assert [Plain(ps[0].text)] + [] == [Plain(ps[0].text)];
      } else {
        ShapedParts(ps[1..]);
        RoundTrip(ps[1..][1..]);
        SampleFirst(ps[0].text, ps[1..]);
      }
    }
  }

  lemma NothingPrinted()
    ensures Print([]) == "" && NoFence("") && MeantAll([]) == []
  {
  }

  lemma ShapedParts(ps: seq<Part>)
    requires WellShaped(ps) && ps != []
    ensures WellShaped(ps[1..]) && Printable(ps[0])
    ensures ps[0].Prose? ==> ps[0].text != "" && NoFence(ps[0].text) && (|ps| > 1 ==> ps[1].Sample?)
    ensures ps[0].Prose? ==> Print(ps) == ps[0].text + Print(ps[1..])
    ensures MeantAll(ps) == [Meant(ps[0])] + MeantAll(ps[1..])
    ensures ps[0].Prose? ==> Meant(ps[0]) == Plain(ps[0].text)
  {
    hide *;
    ShapedTail(ps);
    if ps[0].Prose? {
      PrintableProse(ps[0]);
    }
    PrintedTail(ps);
  }

  lemma ShapedTail(ps: seq<Part>)
    requires WellShaped(ps) && ps != []
    ensures WellShaped(ps[1..]) && Printable(ps[0])
    ensures |ps| > 1 ==> ps[0].Sample? || ps[1].Sample?
  {
    hide Printable;
    forall k | 0 <= k < |ps| - 2
      ensures Apart(ps[1..], k)
    {
      assert Apart(ps, k + 1);
    }
    assert |ps| > 1 ==> Apart(ps, 0);
  }

  lemma PrintedTail(ps: seq<Part>)
    requires ps != []
    ensures Print(ps) == PrintPart(ps[0]) + Print(ps[1..])
    ensures MeantAll(ps) == [Meant(ps[0])] + MeantAll(ps[1..])
  {
    hide PrintPart, Meant;
  }

  lemma PrintableProse(p: Part)
    requires p.Prose?
    ensures Printable(p) ==> p.text != "" && NoFence(p.text)
    ensures PrintPart(p) == p.text && Meant(p) == Plain(p.text)
  {
    hide NoFence;
  }

  /** A text, possibly empty, then a sample, then parts that are known to come back. */
  lemma SampleFirst(t: string, ps: seq<Part>)
    requires NoFence(t) && ps != [] && ps[0].Sample? && Printable(ps[0])
    requires BlocksOf(Spans(Print(ps[1..]))) == MeantAll(ps[1..])
    ensures BlocksOf(Spans(t + Print(ps))) == (if t == "" then [] else [Plain(t)]) + MeantAll(ps)
  {
    var rest, f := Print(ps[1..]), FenceOf(ps[0]);
    hide *;
    SampleFence(ps[0]);
    SpansOfFence(t, f, rest);
    FoundBlocks(t, f, Spans(rest));
    PrintedTail(ps);
    FoundIs(t, f);
    T.Regroup(if t == "" then [] else [Plain(t)], [BlockOf(Fence(f))], MeantAll(ps[1..]));
  }

  lemma FoundIs(t: string, f: Fenced)
    ensures Found(t, f) == (if t == "" then [] else [Plain(t)]) + [BlockOf(Fence(f))]
  {
  }
}
