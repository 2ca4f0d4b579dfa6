/**
 The URL-safe alphabet of RFC 4648, section 5, as the two languages use it: Go's
 unpadded encoder and its decoder, and Python's padded encoder.
*/
module Base64Url {
  import opened Wrappers
  import Text

  type byte = x: int | 0 <= x < 256
  type sextet = x: int | 0 <= x < 64

  // ---------- the alphabet ----------

  function Symbol(d: sextet): char {
    if d < 26 then ('A' as int + d) as char
    else if d < 52 then ('a' as int + d - 26) as char
    else if d < 62 then ('0' as int + d - 52) as char
    else if d == 62 then '-' else '_'
  }

  function Value(c: char): Option<sextet> {
    if 'A' <= c <= 'Z' then Some(c as int - 'A' as int)
    else if 'a' <= c <= 'z' then Some(c as int - 'a' as int + 26)
    else if '0' <= c <= '9' then Some(c as int - '0' as int + 52)
    else if c == '-' then Some(62)
    else if c == '_' then Some(63)
    else None
  }

  lemma ValueOfSymbol(d: sextet)
    ensures Value(Symbol(d)) == Some(d)
  {
  }

  const UPPER := "ABCDEFGHIJKLMNOPQRSTUVWXYZ"
  const LOWER := "abcdefghijklmnopqrstuvwxyz"
  const DIGITS := "0123456789"

  /** Table 2 of RFC 4648. */
  function Alphabet(): string {
    UPPER + LOWER + DIGITS + "-_"
  }

  /** The symbol of a number stands at its place in the alphabet, and no other character has that value. */
  lemma AlphabetExactly(c: char, d: sextet)
    ensures |Alphabet()| == 64 && Symbol(d) == Alphabet()[d]
    ensures Value(c) == Some(d) <==> c == Alphabet()[d]
  {
    hide UPPER, LOWER, DIGITS, Alphabet;
    AlphabetAt(d);
    if d < 26 {
      UpperAt(d);
    } else if d < 52 {
      LowerAt(d - 26);
    } else if d < 62 {
      DigitAt(d - 52);
    }
  }

  lemma AlphabetAt(d: sextet)
    ensures |UPPER| == 26 && |LOWER| == 26 && |DIGITS| == 10 && |Alphabet()| == 64
    ensures Alphabet()[d] ==
            if d < 26 then UPPER[d] else if d < 52 then LOWER[d-26] else if d < 62 then DIGITS[d-52]
            else if d == 62 then '-' else '_'
  {
    PartLengths();
    hide UPPER, LOWER, DIGITS;
  }

  lemma PartLengths()
    ensures |UPPER| == 26 && |LOWER| == 26 && |DIGITS| == 10
  {
  }

  lemma UpperAt(k: nat)
    requires k < 26
    ensures |UPPER| == 26 && UPPER[k] as int == 'A' as int + k
  {
  }

  lemma LowerAt(k: nat)
    requires k < 26
    ensures |LOWER| == 26 && LOWER[k] as int == 'a' as int + k
  {
  }

  lemma DigitAt(k: nat)
    requires k < 10
    ensures |DIGITS| == 10 && DIGITS[k] as int == '0' as int + k
  {
  }

  function Symbols(ds: seq<sextet>): string {
    if ds == [] then "" else [Symbol(ds[0])] + Symbols(ds[1..])
  }

  predicate IsSymbol(c: char) {
    Value(c).Some?
  }

  lemma {:induction false} SymbolsInAlphabet(ds: seq<sextet>)
    ensures |Symbols(ds)| == |ds| && forall k | 0 <= k < |ds| :: IsSymbol(Symbols(ds)[k])
  {
    if ds != [] {
      ValueOfSymbol(ds[0]);
      SymbolsInAlphabet(ds[1..]);
    }
  }

  /** Three bytes, or four sextets, as one 24-bit number. */
  function Join(x: int, y: int, z: int): int {
    x * 0x1_0000 + y * 0x100 + z
  }

  function Gather(a: int, b: int, c: int, d: int): int {
    a * 0x4_0000 + b * 0x1000 + c * 0x40 + d
  }

  // ---------- Go: RawURLEncoding.EncodeToString ----------

  function Sextets(b: seq<byte>): seq<sextet> {
    if b == [] then []
    else if |b| == 1 then
      var v := Join(b[0], 0, 0);
      [v / 0x4_0000 % 64, v / 0x1000 % 64]
    else if |b| == 2 then
      var v := Join(b[0], b[1], 0);
      [v / 0x4_0000 % 64, v / 0x1000 % 64, v / 0x40 % 64]
    else
      var v := Join(b[0], b[1], b[2]);
      [v / 0x4_0000 % 64, v / 0x1000 % 64, v / 0x40 % 64, v % 64] + Sextets(b[3..])
  }

  function Encode(b: seq<byte>): string {
    Symbols(Sextets(b))
  }

  // ---------- Go: RawURLEncoding.DecodeString ----------

  /** Line breaks are skipped wherever they stand; any other foreign character is an error. */
  function Values(s: string): Option<seq<sextet>> {
    if s == "" then Some([])
    else if s[0] == '\n' || s[0] == '\r' then Values(s[1..])
    else
      match (Value(s[0]), Values(s[1..]))
      case (Some(d), Some(ds)) => Some([d] + ds)
      case _ => None
  }

  /** The last group may have two or three symbols; the bits left over are ignored. */
  function Bytes(ds: seq<sextet>): Option<seq<byte>> {
    if ds == [] then Some([])
    else if |ds| == 1 then None
    else if |ds| == 2 then
      var v := Gather(ds[0], ds[1], 0, 0);
      Some([v / 0x1_0000 % 256])
    else if |ds| == 3 then
      var v := Gather(ds[0], ds[1], ds[2], 0);
      Some([v / 0x1_0000 % 256, v / 0x100 % 256])
    else
      var v := Gather(ds[0], ds[1], ds[2], ds[3]);
      match Bytes(ds[4..])
      case None => None
      case Some(rest) => Some([v / 0x1_0000 % 256, v / 0x100 % 256, v % 256] + rest)
  }

  function Decode(s: string): Option<seq<byte>> {
    match Values(s)
    case None => None
    case Some(ds) => Bytes(ds)
  }

  // ---------- the round trip ----------

  lemma Multiples(p: int, q: int, k: int)
    requires k > 0 && p < q
    ensures p * k + k <= q * k
  {
    assert (p + 1) * k <= q * k;
  }

  lemma Quotient(a: int, k: int, q: int, r: int)
    requires k > 0 && a == q * k + r && 0 <= r < k
    ensures a / k == q && a % k == r
  {
    if a / k < q {
      Multiples(a / k, q, k);
    } else if q < a / k {
      Multiples(q, a / k, k);
    }
  }

  /** The four sextets of three bytes, bit field by bit field. */
  lemma SameSextets(x: byte, y: byte, z: byte)
    ensures var v := Join(x, y, z);
            && v / 0x4_0000 % 64 == x / 4
            && v / 0x1000 % 64 == x % 4 * 16 + y / 16
            && v / 0x40 % 64 == y % 16 * 4 + z / 64
            && v % 64 == z % 64
  {
    var v := Join(x, y, z);
    var d0, d1, d2, d3 := x / 4, x % 4 * 16 + y / 16, y % 16 * 4 + z / 64, z % 64;
    assert v == Gather(d0, d1, d2, d3);
    Quotient(v, 0x4_0000, d0, d1 * 0x1000 + d2 * 0x40 + d3);
    Quotient(v, 0x1000, d0 * 64 + d1, d2 * 0x40 + d3);
    Quotient(d0 * 64 + d1, 64, d0, d1);
    Quotient(v, 0x40, (d0 * 64 + d1) * 64 + d2, d3);
    Quotient((d0 * 64 + d1) * 64 + d2, 64, d0 * 64 + d1, d2);
  }

  lemma GroupOfThree(x: byte, y: byte, z: byte)
    ensures var v := Join(x, y, z);
            var w := Gather(v / 0x4_0000 % 64, v / 0x1000 % 64, v / 0x40 % 64, v % 64);
            w / 0x1_0000 % 256 == x && w / 0x100 % 256 == y && w % 256 == z
  {
    SameSextets(x, y, z);
    var w := Join(x, y, z);
    Quotient(w, 0x1_0000, x, y * 0x100 + z);
    Quotient(w, 0x100, x * 0x100 + y, z);
    Quotient(x * 0x100 + y, 0x100, x, y);
  }

  lemma GroupOfTwo(x: byte, y: byte)
    ensures var v := Join(x, y, 0);
            var w := Gather(v / 0x4_0000 % 64, v / 0x1000 % 64, v / 0x40 % 64, 0);
            w / 0x1_0000 % 256 == x && w / 0x100 % 256 == y
  {
    GroupOfThree(x, y, 0);
    SameSextets(x, y, 0);
  }

  lemma GroupOfOne(x: byte)
    ensures var v := Join(x, 0, 0);
            var w := Gather(v / 0x4_0000 % 64, v / 0x1000 % 64, 0, 0);
            w / 0x1_0000 % 256 == x
  {
    GroupOfTwo(x, 0);
    SameSextets(x, 0, 0);
  }

  lemma {:induction false} BytesOfSextets(b: seq<byte>)
    ensures Bytes(Sextets(b)) == Some(b)
  {
    hide Join, Gather;
    if |b| == 1 {
      GroupOfOne(b[0]);
      assert b == [b[0]];
    } else if |b| == 2 {
      GroupOfTwo(b[0], b[1]);
      assert b == [b[0], b[1]];
    } else if |b| > 2 {
      GroupOfThree(b[0], b[1], b[2]);
      BytesOfSextets(b[3..]);
      var ds := Sextets(b);
      assert ds[4..] == Sextets(b[3..]);
      assert b == [b[0], b[1], b[2]] + b[3..];
    }
  }

  lemma SymbolIsNoBreak(d: sextet)
    ensures Symbol(d) != '\n' && Symbol(d) != '\r'
  {
  }

  lemma {:induction false} ValuesOfSymbols(ds: seq<sextet>)
    ensures Values(Symbols(ds)) == Some(ds)
  {
    if ds != [] {
      ValueOfSymbol(ds[0]);
      SymbolIsNoBreak(ds[0]);
      ValuesOfSymbols(ds[1..]);
      assert Symbols(ds)[1..] == Symbols(ds[1..]);
      assert [ds[0]] + ds[1..] == ds;
    }
  }

  lemma DecodeEncode(b: seq<byte>)
    ensures Decode(Encode(b)) == Some(b)
  {
    ValuesOfSymbols(Sextets(b));
    BytesOfSextets(b);
  }

  // ---------- Python: urlsafe_b64encode(raw).rstrip(b"=") ----------

  /** The standard alphabet, before urlsafe_b64encode translates its last two characters. */
  function StandardSymbol(d: sextet): char {
    if d == 62 then '+' else if d == 63 then '/' else Symbol(d)
  }

  function Translate(s: string): string {
    seq(|s|, k requires 0 <= k < |s| => if s[k] == '+' then '-' else if s[k] == '/' then '_' else s[k])
  }

  /** Four characters for three bytes, of which the last `padding` are replaced by '='. */
  function Quad(x: byte, y: byte, z: byte, padding: nat): string
    requires padding <= 2
  {
    [ StandardSymbol(x / 4),
      StandardSymbol(x % 4 * 16 + y / 16),
      if padding == 2 then '=' else StandardSymbol(y % 16 * 4 + z / 64),
      if padding >= 1 then '=' else StandardSymbol(z % 64) ]
  }

  function StandardEncode(b: seq<byte>): string {
    if b == [] then ""
    else if |b| == 1 then Quad(b[0], 0, 0, 2)
    else if |b| == 2 then Quad(b[0], b[1], 0, 1)
    else Quad(b[0], b[1], b[2], 0) + StandardEncode(b[3..])
  }

  function StripPad(s: string): string {
    if s != "" && s[|s|-1] == '=' then StripPad(s[..|s|-1]) else s
  }

  function PythonEncode(b: seq<byte>): string {
    StripPad(Translate(StandardEncode(b)))
  }

  lemma {:induction false} StripPadKeeps(u: string, s: string)
    requires forall k | 0 <= k < |u| :: u[k] != '='
    ensures StripPad(u + s) == u + StripPad(s)
    decreases |s|
  {
    if s == "" {
      assert u + s == u;
    } else if s[|s|-1] == '=' {
      assert (u + s)[..|u + s|-1] == u + s[..|s|-1];
      StripPadKeeps(u, s[..|s|-1]);
    }
  }

  lemma TranslateSymbol(d: sextet)
    ensures var c := StandardSymbol(d);
            (if c == '+' then '-' else if c == '/' then '_' else c) == Symbol(d) && Symbol(d) != '='
  {
  }

  /** A translated quad is the symbols of its bytes, then its padding. */
  lemma TranslateQuad(x: byte, y: byte, z: byte, padding: nat)
    requires padding <= 2 && (padding >= 1 ==> z == 0) && (padding == 2 ==> y == 0)
    ensures var v := Join(x, y, z);
            var t := Translate(Quad(x, y, z, padding));
            && |t| == 4
            && t[0] == Symbol(v / 0x4_0000 % 64) && t[1] == Symbol(v / 0x1000 % 64)
            && t[2] == (if padding == 2 then '=' else Symbol(v / 0x40 % 64))
            && t[3] == (if padding >= 1 then '=' else Symbol(v % 64))
  {
    hide Join;
    SameSextets(x, y, z);
    TranslateSymbol(x / 4);
    TranslateSymbol(x % 4 * 16 + y / 16);
    TranslateSymbol(y % 16 * 4 + z / 64);
    TranslateSymbol(z % 64);
    hide StandardSymbol, Symbol;
  }

  lemma TranslateAppend(s: string, t: string)
    ensures Translate(s + t) == Translate(s) + Translate(t)
  {
  }

  /** Both languages print the same text. */
  lemma {:induction false} PythonPrintsTheSame(b: seq<byte>)
    ensures PythonEncode(b) == Encode(b)
  {
    hide Join, Symbol, StandardSymbol, Quad;
    var ds := Sextets(b);
    SymbolsInAlphabet(ds);
    assert "=="[..2] == "==" && "=="[..1] == "=";
    if |b| == 1 {
      TranslateQuad(b[0], 0, 0, 2);
      Unfold2(ds);
      StripTail(Encode(b), 2);
      assert Translate(StandardEncode(b)) == Encode(b) + "==";
    } else if |b| == 2 {
      TranslateQuad(b[0], b[1], 0, 1);
      Unfold3(ds);
      StripTail(Encode(b), 1);
      assert Translate(StandardEncode(b)) == Encode(b) + "=";
    } else if |b| > 2 {
      TranslateQuad(b[0], b[1], b[2], 0);
      PythonPrintsTheSame(b[3..]);
      var head, rest := Translate(Quad(b[0], b[1], b[2], 0)), Translate(StandardEncode(b[3..]));
      TranslateAppend(Quad(b[0], b[1], b[2], 0), StandardEncode(b[3..]));
      Unfold4(ds);
      assert head == [Symbol(ds[0]), Symbol(ds[1]), Symbol(ds[2]), Symbol(ds[3])];
      assert ds[4..] == Sextets(b[3..]);
      assert forall k | 0 <= k < 4 :: head[k] == Encode(b)[k];
      StripPadKeeps(head, rest);
    }
  }

  /** Padding is stripped back to a text of the alphabet. */
  lemma StripTail(u: string, n: nat)
    requires n <= 2 && forall k | 0 <= k < |u| :: IsSymbol(u[k])
    ensures StripPad(u + "=="[..n]) == u
  {
    assert Value('=').None?;
    hide StripPad, Value;
    StripPadKeeps(u, "=="[..n]);
    PadGone(n);
    assert u + "" == u;
  }

  lemma PadGone(n: nat)
    requires n <= 2
    ensures StripPad("=="[..n]) == ""
  {
    assert "=="[..2][..1] == "=="[..1] && "=="[..1][..0] == "";
  }

  lemma Unfold2(ds: seq<sextet>)
    requires |ds| == 2
    ensures Symbols(ds) == [Symbol(ds[0]), Symbol(ds[1])]
  {
    hide Symbol;
    assert Symbols(ds[1..]) == [Symbol(ds[1])] + Symbols(ds[1..][1..]);
  }

  lemma SymbolsFrom(ds: seq<sextet>, k: nat)
    requires k < |ds|
    ensures Symbols(ds[k..]) == [Symbol(ds[k])] + Symbols(ds[k+1..])
  {
    hide Symbol;
    Text.NextElement(ds, k);
  }

  lemma Unfold3(ds: seq<sextet>)
    requires |ds| == 3
    ensures Symbols(ds) == [Symbol(ds[0]), Symbol(ds[1]), Symbol(ds[2])]
  {
    Unfold2(ds[1..]);
  }

  lemma Unfold4(ds: seq<sextet>)
    requires |ds| >= 4
    ensures Symbols(ds) == [Symbol(ds[0]), Symbol(ds[1]), Symbol(ds[2]), Symbol(ds[3])] + Symbols(ds[4..])
  {
    hide Symbols, Symbol;
    assert ds[0..] == ds;
    SymbolsFrom(ds, 0);
    SymbolsFrom(ds, 1);
    SymbolsFrom(ds, 2);
    SymbolsFrom(ds, 3);
  }

  // ---------- what the decoder forgives ----------

  /** Line breaks anywhere in the text make no difference. */
  lemma {:induction false} LineBreaksSkipped(a: string, c: char, b: string)
    requires c == '\n' || c == '\r'
    ensures Values(a + [c] + b) == Values(a + b) && Decode(a + [c] + b) == Decode(a + b)
  {
    if a == "" {
      assert a + [c] + b == [c] + b && a + b == b && ([c] + b)[1..] == b;
    } else {
      LineBreaksSkipped(a[1..], c, b);
      assert (a + [c] + b)[1..] == a[1..] + [c] + b && (a + b)[1..] == a[1..] + b;
    }
  }

  /** So do the bits of the last symbol that belong to no byte; a single last symbol is an error. */
  lemma LeftOverBits(d: sextet, e: sextet, f: sextet)
    ensures Bytes([d]).None?
    ensures Bytes([d, e]) == Some([d * 4 + e / 16])
    ensures Bytes([d, e, f]) == Some([d * 4 + e / 16, e % 16 * 16 + f / 4])
  {
    hide Gather;
    Quotient(d * 4 + e / 16, 256, 0, d * 4 + e / 16);
    TwoFields(d, e, f);
  }

  lemma TwoFields(d: sextet, e: sextet, f: sextet)
    ensures Gather(d, e, 0, 0) / 0x1_0000 % 256 == d * 4 + e / 16
    ensures Gather(d, e, f, 0) / 0x1_0000 % 256 == d * 4 + e / 16
    ensures Gather(d, e, f, 0) / 0x100 % 256 == e % 16 * 16 + f / 4
  {
    var x, y, z := d * 4 + e / 16, e % 16 * 16 + f / 4, f % 4 * 64;
    assert Gather(d, e, f, 0) == x * 0x1_0000 + y * 0x100 + z;
    Quotient(Gather(d, e, f, 0), 0x1_0000, x, y * 0x100 + z);
    Quotient(Gather(d, e, f, 0), 0x100, x * 0x100 + y, z);
    Quotient(x * 0x100 + y, 0x100, x, y);
    Quotient(Gather(d, e, 0, 0), 0x1_0000, x, e % 16 * 0x1000);
    Quotient(x, 256, 0, x);
  }
}
