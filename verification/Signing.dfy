/**
 gateway/internal/signing/signing.go and api/app/signing.py: signed gateway keys,
 `rk_<base64url(claims)>.<base64url(mac)>`. The MAC and the JSON codecs of the two
 languages are parameters.
*/
module Signing {
  import opened Wrappers
  import opened Base64Url

  type int64 = x: int | -0x8000_0000_0000_0000 <= x < 0x8000_0000_0000_0000

  datatype Claims = Claims(userID: string, keyID: string, issuedAt: int64, providerID: string)

  /**
   mac: HMAC-SHA256 of a message under the master key. marshal and unmarshal: Go's
   encoding/json. dump: Python's json.dumps of the claims dictionary.
  */
  datatype Scheme = Scheme(
    mac: (string, string) -> seq<byte>,
    marshal: Claims -> seq<byte>,
    unmarshal: seq<byte> -> Option<Claims>,
    dump: Claims -> seq<byte>)

  /** Go reads back what either language writes. */
  ghost predicate Lawful(s: Scheme) {
    && (forall c :: s.unmarshal(s.marshal(c)) == Some(c))
    && (forall c :: s.unmarshal(s.dump(c)) == Some(c))
  }

  const PREFIX := "rk_"

  function Sign(s: Scheme, masterKey: string, c: Claims): string {
    var encPayload := Encode(s.marshal(c));
    PREFIX + encPayload + "." + Encode(s.mac(masterKey, encPayload))
  }

  /** The Python twin; the provider is left out of the dictionary when it is empty. */
  function PythonSign(s: Scheme, masterKey: string, c: Claims): string {
    var encPayload := PythonEncode(s.dump(c));
    PREFIX + encPayload + "." + PythonEncode(s.mac(masterKey, encPayload))
  }

  /** strings.IndexByte(s, '.') */
  function IndexDot(s: string): (dot: Option<nat>)
    ensures dot.Some? ==> dot.value < |s| && s[dot.value] == '.' && '.' !in s[..dot.value]
    ensures dot.None? ==> '.' !in s
  {
    if s == "" then None
    else if s[0] == '.' then Some(0)
    else
      match IndexDot(s[1..])
      case None => None
      case Some(k) =>
        assert s[..k+1] == [s[0]] + s[1..][..k];
        Some(k + 1)
  }

  /** None stands for ErrInvalidKey. */
  function Verify(s: Scheme, masterKey: string, token: string): Option<Claims> {
    if !(PREFIX <= token) then None
    else
      var body := token[|PREFIX|..];
      match IndexDot(body)
      case None => None
      case Some(dot) =>
        var encPayload, encSig := body[..dot], body[dot+1..];
        if Decode(encSig) != Some(s.mac(masterKey, encPayload)) then None
        else
          match Decode(encPayload)
          case None => None
          case Some(payload) => s.unmarshal(payload)
  }

  // ---------- which tokens are valid ----------

  /** The token has these two parts, and the payload carries these claims. */
  ghost predicate Carries(s: Scheme, masterKey: string, token: string, c: Claims, encPayload: string, encSig: string) {
    && token == "rk_" + encPayload + "." + encSig
    && '.' !in encPayload
    && Decode(encSig) == Some(s.mac(masterKey, encPayload))
    && Decode(encPayload).Some?
    && s.unmarshal(Decode(encPayload).value) == Some(c)
  }

  lemma {:induction false} FirstDot(u: string, v: string)
    requires '.' !in u
    ensures IndexDot(u + "." + v) == Some(|u|)
  {
    var s := u + "." + v;
    if u != "" {
      assert s[0] == u[0] && s[1..] == u[1..] + "." + v;
      FirstDot(u[1..], v);
    }
  }

  /** A token is accepted for some claims exactly if its first dot cuts it into a payload with them and their MAC. */
  lemma VerifyExact(s: Scheme, masterKey: string, token: string, c: Claims)
    ensures Verify(s, masterKey, token) == Some(c) <==>
            exists encPayload: string, encSig: string :: Carries(s, masterKey, token, c, encPayload, encSig)
  {
    if Verify(s, masterKey, token) == Some(c) {
      var body := token[|PREFIX|..];
      var dot := IndexDot(body).value;
      assert token == PREFIX + body[..dot] + "." + body[dot+1..];
      assert Carries(s, masterKey, token, c, body[..dot], body[dot+1..]);
    }
    forall p: string, q: string | Carries(s, masterKey, token, c, p, q)
      ensures Verify(s, masterKey, token) == Some(c)
    {
      CarriesVerifies(s, masterKey, token, c, p, q);
    }
  }

  lemma TokenParts(p: string, q: string)
    requires '.' !in p
    ensures var token := PREFIX + p + "." + q;
            var body := token[|PREFIX|..];
            && PREFIX <= token && IndexDot(body) == Some(|p|)
            && |p| < |body| && body[..|p|] == p && body[|p|+1..] == q
  {
    hide IndexDot;
    FirstDot(p, q);
    assert PREFIX + p + "." + q == PREFIX + (p + "." + q);
  }

  /** What Verify makes of the two parts. */
  lemma VerifyParts(s: Scheme, masterKey: string, p: string, q: string)
    requires '.' !in p
    ensures Verify(s, masterKey, PREFIX + p + "." + q) ==
            if Decode(q) != Some(s.mac(masterKey, p)) then None
            else if Decode(p).None? then None else s.unmarshal(Decode(p).value)
  {
    hide IndexDot, Decode;
    TokenParts(p, q);
  }

  lemma CarriesVerifies(s: Scheme, masterKey: string, token: string, c: Claims, p: string, q: string)
    requires Carries(s, masterKey, token, c, p, q)
    ensures Verify(s, masterKey, token) == Some(c)
  {
    hide Verify, Decode;
    VerifyParts(s, masterKey, p, q);
  }

  lemma EncodeHasNoDot(b: seq<byte>)
    ensures '.' !in Encode(b)
  {
    SymbolsInAlphabet(Sextets(b));
    assert Value('.').None?;
  }

  /** What Go signs, Go verifies. */
  lemma SignVerifies(s: Scheme, masterKey: string, c: Claims)
    requires Lawful(s)
    ensures Verify(s, masterKey, Sign(s, masterKey, c)) == Some(c)
  {
    var encPayload := Encode(s.marshal(c));
    var sig := s.mac(masterKey, encPayload);
    EncodeHasNoDot(s.marshal(c));
    DecodeEncode(s.marshal(c));
    DecodeEncode(sig);
    CarriesVerifies(s, masterKey, Sign(s, masterKey, c), c, encPayload, Encode(sig));
  }

  /** What Python mints, Go verifies. */
  lemma PythonSignVerifies(s: Scheme, masterKey: string, c: Claims)
    requires Lawful(s)
    ensures Verify(s, masterKey, PythonSign(s, masterKey, c)) == Some(c)
  {
    var encPayload := Encode(s.dump(c));
    var sig := s.mac(masterKey, encPayload);
    PythonPrintsTheSame(s.dump(c));
    PythonPrintsTheSame(sig);
    EncodeHasNoDot(s.dump(c));
    DecodeEncode(s.dump(c));
    DecodeEncode(sig);
    CarriesVerifies(s, masterKey, PythonSign(s, masterKey, c), c, encPayload, Encode(sig));
  }

  /** A key signed under one master key passes under another exactly if both give its payload the same MAC. */
  lemma OtherMasterKey(s: Scheme, signKey: string, verifyKey: string, c: Claims)
    requires Lawful(s)
    ensures var encPayload := Encode(s.marshal(c));
            Verify(s, verifyKey, Sign(s, signKey, c)).Some? <==>
            s.mac(verifyKey, encPayload) == s.mac(signKey, encPayload)
  {
    hide Verify, Decode, Encode;
    var encPayload := Encode(s.marshal(c));
    var sig := s.mac(signKey, encPayload);
    EncodeHasNoDot(s.marshal(c));
    DecodeEncode(s.marshal(c));
    DecodeEncode(sig);
    VerifyParts(s, verifyKey, encPayload, Encode(sig));
  }

  /** Putting another payload before a signature passes only if the MACs collide. */
  lemma TamperedPayload(s: Scheme, masterKey: string, c: Claims, other: string)
    requires Lawful(s) && '.' !in other
    requires Verify(s, masterKey, PREFIX + other + "." + Encode(s.mac(masterKey, Encode(s.marshal(c))))).Some?
    ensures s.mac(masterKey, other) == s.mac(masterKey, Encode(s.marshal(c)))
  {
    hide Verify, Decode, Encode;
    var sig := s.mac(masterKey, Encode(s.marshal(c)));
    DecodeEncode(sig);
    VerifyParts(s, masterKey, other, Encode(sig));
  }
}
