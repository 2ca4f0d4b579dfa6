/** gateway/internal/proxy/handler.go: what a chat request passes through before and after the upstream. */
module Handler {
  import opened Wrappers
  import opened Policy
  import opened Streaming
  import opened BuiltinRules
  import RateLimit
  import TeamLimits
  import Signing
  import Frames
  import StreamProxy

  datatype Message = Message(role: string, content: string)
  datatype ChatRequest = ChatRequest(messages: seq<Message>, stream: bool, tools: bool)
  datatype Provider = Provider(id: string, kind: string, authMode: string, apiKey: string, active: bool)

  /** The parts of a state snapshot that the handler reads. */
  datatype Snapshot = Snapshot(
    providers: map<string, Provider>,
    userTokens: map<string, string>,
    userOwnKeys: map<string, string>,
    blocked: set<string>,
    limits: TeamLimits.Snapshot,
    rules: Rules,
    maskResponses: bool)

  datatype Parsed = Parsed(content: string, promptTokens: int, completionTokens: int)

  /** What becomes of the upstream call. */
  datatype Upstream =
    | BuildFailed
    | SendFailed(error: string)
    | Replied(status: int, body: string, readError: Option<string>)

  datatype AuditEntry = AuditEntry(
    user: string,
    provider: string,
    promptTokens: int,
    completionTokens: int,
    status: int,
    policies: set<string>,
    error: string)

  datatype Alert = Alert(user: string, rule: string, category: string, action: string, severity: string)

  datatype Response = Response(status: int, code: string, body: string)

  // ---------- admission ----------

  datatype Target = Target(user: string, req: ChatRequest, provider: Provider, credential: string)
  datatype Resolution = Reject(status: int, code: string) | Resolved(target: Target)

  predicate Revoked(snap: Snapshot, c: Signing.Claims) {
    c.keyID != "" && c.keyID in snap.blocked
  }

  /** The claim names the provider; the header is a fallback. */
  function ProviderID(c: Signing.Claims, header: string): string {
    if c.providerID == "" then header else c.providerID
  }

  /** Both tables of credentials are keyed by `user:provider`. */
  function Key(user: string, provider: string): string {
    user + ":" + provider
  }

  /** The keys of two users differ if their names have no colon. */
  lemma KeysDiffer(user: string, other: string, p: string, q: string)
    requires ':' !in user && ':' !in other
    ensures Key(user, p) == Key(other, q) <==> user == other && p == q
  {
    var k, l := Key(user, p), Key(other, q);
    assert k[..|user|] == user && k[|user|] == ':' && k[|user|+1..] == p;
    assert l[..|other|] == other && l[|other|] == ':' && l[|other|+1..] == q;
    assert forall i | 0 <= i < |user| :: k[i] == user[i];
    assert forall i | 0 <= i < |other| :: l[i] == other[i];
  }

  predicate HasOwnKey(snap: Snapshot, user: string, p: Provider) {
    Key(user, p.kind) in snap.userOwnKeys && snap.userOwnKeys[Key(user, p.kind)] != ""
  }

  predicate HasToken(snap: Snapshot, user: string, p: Provider) {
    p.authMode == "oauth2" && Key(user, p.id) in snap.userTokens && snap.userTokens[Key(user, p.id)] != ""
  }

  /** A disabled provider is open to those who bring a key, and nobody is let in without a credential. */
  predicate MayUse(snap: Snapshot, user: string, p: Provider) {
    HasOwnKey(snap, user, p) || (p.active && (HasToken(snap, user, p) || p.apiKey != ""))
  }

  /** Verified claims of a key that has not been revoked. */
  predicate Trusted(snap: Snapshot, claims: Option<Signing.Claims>) {
    claims.Some? && !Revoked(snap, claims.value)
  }

  predicate HasMessages(req: Option<ChatRequest>) {
    req.Some? && req.value.messages != []
  }

  /** The provider that a well-formed request of a trusted key asks for, if there is one. */
  function Asks(claims: Option<Signing.Claims>, snap: Snapshot, req: Option<ChatRequest>, header: string)
    : Option<Provider>
  {
    if Trusted(snap, claims) && HasMessages(req) && ProviderID(claims.value, header) in snap.providers then
      Some(snap.providers[ProviderID(claims.value, header)])
    else None
  }

  /** Lines 116 to 169: everything that is checked before the limits. */
  function Resolve(claims: Option<Signing.Claims>, snap: Snapshot, req: Option<ChatRequest>, header: string)
    : (r: Resolution)
    ensures var p := Asks(claims, snap, req, header);
            && (r.Resolved? <==> p.Some? && MayUse(snap, claims.value.userID, p.value))
            && (r.Resolved? ==>
                  && r.target.user == claims.value.userID && req == Some(r.target.req)
                  && p == Some(r.target.provider) && r.target.credential != ""
                  && (HasOwnKey(snap, r.target.user, r.target.provider) ==>
                        r.target.credential == snap.userOwnKeys[Key(r.target.user, r.target.provider.kind)]))
            && (r == Reject(403, "provider_disabled") <==>
                  p.Some? && !p.value.active && !HasOwnKey(snap, claims.value.userID, p.value))
            && (r == Reject(428, "oauth_required") <==>
                  && p.Some? && p.value.active && !MayUse(snap, claims.value.userID, p.value)
                  && p.value.authMode == "oauth2")
            && (r == Reject(424, "missing_credential") <==>
                  && p.Some? && p.value.active && !MayUse(snap, claims.value.userID, p.value)
                  && p.value.authMode != "oauth2")
    ensures r == Reject(401, "invalid_api_key") <==> claims.None?
    ensures r == Reject(403, "key_revoked") <==>
              claims.Some? && claims.value.keyID != "" && claims.value.keyID in snap.blocked
    ensures r == Reject(400, "bad_request") <==> Trusted(snap, claims) && !HasMessages(req)
    ensures r == Reject(400, "unknown_provider") <==>
              Trusted(snap, claims) && HasMessages(req) && Asks(claims, snap, req, header).None?
    ensures r.Reject? ==> r.status >= 400
  {
    if claims.None? then Reject(401, "invalid_api_key")
    else if Revoked(snap, claims.value) then Reject(403, "key_revoked")
    else if req.None? || req.value.messages == [] then Reject(400, "bad_request")
    else
      var c := claims.value;
      var id := ProviderID(c, header);
      if id !in snap.providers then Reject(400, "unknown_provider")
      else
        var p := snap.providers[id];
        var own := HasOwnKey(snap, c.userID, p);
        var credential :=
          if own then snap.userOwnKeys[Key(c.userID, p.kind)]
          else if HasToken(snap, c.userID, p) then snap.userTokens[Key(c.userID, p.id)] else p.apiKey;
        if !p.active && !own then Reject(403, "provider_disabled")
        else if credential == "" then
          if p.authMode == "oauth2" then Reject(428, "oauth_required") else Reject(424, "missing_credential")
        else Resolved(Target(c.userID, req.value, p, credential))
  }

  /** The entry of a table of credentials, if it is not empty. */
  function Entry(table: map<string, string>, key: string): Option<string> {
    if key in table && table[key] != "" then Some(table[key]) else None
  }

  /**
   Who gets through: the provider of the claim, or of the header if the claim has none, is
   asked for with the user's own key for its kind, which also opens a disabled provider;
   failing that, with the user's token if the provider takes one; failing that, with its own.
  */
  lemma ResolvedWith(claims: Option<Signing.Claims>, snap: Snapshot, req: Option<ChatRequest>, header: string)
    requires Resolve(claims, snap, req, header).Resolved?
    ensures var t := Resolve(claims, snap, req, header).target;
            var id := if claims.value.providerID != "" then claims.value.providerID else header;
            var own := Entry(snap.userOwnKeys, t.user + ":" + t.provider.kind);
            var token := Entry(snap.userTokens, t.user + ":" + t.provider.id);
            && id in snap.providers && t.provider == snap.providers[id]
            && t.user == claims.value.userID && Some(t.req) == req
            && (own.Some? ==> t.credential == own.value)
            && (own.None? ==> t.provider.active)
            && (own.None? && t.provider.authMode == "oauth2" && token.Some? ==> t.credential == token.value)
            && (own.None? && (t.provider.authMode != "oauth2" || token.None?) ==> t.credential == t.provider.apiKey)
  {
  }

  // ---------- the request policy ----------

  predicate BlocksAny(rules: Rules, messages: seq<Message>) {
    exists k | 0 <= k < |messages| :: messages[k].role != "assistant" && Blocks(rules, messages[k].content)
  }

  /** The names of the rules that fire on some message of the user. */
  function RequestNames(rules: Rules, messages: seq<Message>): set<string> {
    if messages == [] then {}
    else
      var last := messages[|messages|-1];
      RequestNames(rules, messages[..|messages|-1]) +
      if last.role == "assistant" then {} else FiredNames(rules, last.content)
  }

  function AlertOf(user: string, prefix: string, f: Finding): Alert {
    Alert(user, prefix + f.rule, f.category, f.action, f.severity)
  }

  /** The alert names the user and, field by field, what was found. */
  predicate Tells(a: Alert, user: string, prefix: string, f: Finding) {
    && a.user == user && a.rule == prefix + f.rule
    && a.category == f.category && a.action == f.action && a.severity == f.severity
  }

  function AlertsOf(user: string, prefix: string, fs: seq<Finding>): seq<Alert> {
    seq(|fs|, k requires 0 <= k < |fs| => AlertOf(user, prefix, fs[k]))
  }

  function RequestAlerts(user: string, rules: Rules, messages: seq<Message>): seq<Alert> {
    if messages == [] then []
    else
      var last := messages[|messages|-1];
      RequestAlerts(user, rules, messages[..|messages|-1]) +
      if last.role == "assistant" then [] else AlertsOf(user, "", Findings(rules, last.content, |rules|))
  }

  method MaskMessages(user: string, messages: seq<Message>, rules: Rules)
    returns (masked: seq<Message>, applied: set<string>, alerts: seq<Alert>, blocked: bool)
    ensures |masked| == |messages| && forall k | 0 <= k < |messages| ::
              && masked[k].role == messages[k].role
              && masked[k].content == if messages[k].role == "assistant" then messages[k].content
                                      else Masked(rules, messages[k].content)
    ensures blocked <==> BlocksAny(rules, messages)
    ensures applied == RequestNames(rules, messages)
    ensures alerts == RequestAlerts(user, rules, messages)
  {
    masked, applied, alerts, blocked := messages, {}, [], false;
    hide Masked, Findings, Blocks, FiredBefore, NamesOf, AlertsOf, RequestNames, RequestAlerts, BlocksAny;
    RequestNone(user, rules);
    for i := 0 to |messages|
      invariant |masked| == |messages|
      invariant forall k | 0 <= k < i ::
                  && masked[k].role == messages[k].role
                  && masked[k].content == if messages[k].role == "assistant" then messages[k].content
                                          else Masked(rules, messages[k].content)
      invariant forall k | i <= k < |messages| :: masked[k] == messages[k]
      invariant blocked <==> BlocksAny(rules, messages[..i])
      invariant applied == RequestNames(rules, messages[..i])
      invariant alerts == RequestAlerts(user, rules, messages[..i])
    {
      var m := masked[i];
      RequestNext(user, rules, messages, i);
      if m.role == "assistant" {
        continue;
      }
      var res := Apply(m.content, rules);
      masked := masked[i := m.(content := res.text)];
      FindingsComplete(rules, m.content, |rules|);
      applied := applied + NamesOf(res.findings);
      alerts := alerts + AlertsOf(user, "", res.findings);
      if res.blocked {
        blocked := true;
      }
    }
    assert messages[..|messages|] == messages;
  }

  lemma RequestNone(user: string, rules: Rules)
    ensures RequestNames(rules, []) == {} && RequestAlerts(user, rules, []) == [] && !BlocksAny(rules, [])
  {
  }

  lemma RequestNext(user: string, rules: Rules, messages: seq<Message>, i: nat)
    requires i < |messages|
    ensures var before, more, m := messages[..i], messages[..i+1], messages[i];
            if m.role == "assistant" then
              && RequestNames(rules, more) == RequestNames(rules, before)
              && RequestAlerts(user, rules, more) == RequestAlerts(user, rules, before)
              && BlocksAny(rules, more) == BlocksAny(rules, before)
            else
              && RequestNames(rules, more) == RequestNames(rules, before) + FiredNames(rules, m.content)
              && RequestAlerts(user, rules, more) ==
                 RequestAlerts(user, rules, before) + AlertsOf(user, "", Findings(rules, m.content, |rules|))
              && BlocksAny(rules, more) == (BlocksAny(rules, before) || Blocks(rules, m.content))
  {
    hide Findings, Blocks, FiredNames, AlertsOf;
    assert messages[..i+1][..i] == messages[..i];
    BlocksAnyNext(rules, messages, i);
    assert RequestAlerts(user, rules, messages[..i]) + [] == RequestAlerts(user, rules, messages[..i]);
    assert RequestNames(rules, messages[..i]) + {} == RequestNames(rules, messages[..i]);
  }

  lemma BlocksAnyNext(rules: Rules, messages: seq<Message>, i: nat)
    requires i < |messages|
    ensures BlocksAny(rules, messages[..i+1]) <==>
            BlocksAny(rules, messages[..i]) || (messages[i].role != "assistant" && Blocks(rules, messages[i].content))
  {
    hide Blocks;
    var more := messages[..i+1];
    assert more[i] == messages[i];
    assert forall k | 0 <= k < i :: more[k] == messages[..i][k];
  }

  // ---------- the books ----------

  function TokensIn(e: AuditEntry): int {
    e.promptTokens + e.completionTokens
  }

  /** One user, or everyone. */
  predicate Counts(who: Option<string>, user: string) {
    who.None? || who.value == user
  }

  /** Tokens in the audit entries. */
  function Audited(entries: seq<AuditEntry>, who: Option<string>): int {
    if entries == [] then 0
    else
      var e := entries[|entries|-1];
      Audited(entries[..|entries|-1], who) + if Counts(who, e.user) then TokensIn(e) else 0
  }

  /** Tokens ever passed to AddTokens. */
  function Charged(calls: seq<RateLimit.Call>, who: Option<string>): int {
    if calls == [] then 0
    else
      var c := calls[|calls|-1];
      Charged(calls[..|calls|-1], who) + if c.Charge? && Counts(who, c.user) then c.n else 0
  }

  function Failures(entries: seq<AuditEntry>): int {
    if entries == [] then 0
    else Failures(entries[..|entries|-1]) + if entries[|entries|-1].status >= 400 then 1 else 0
  }

  /** The codes of the answers that end an admitted request without an audit entry. */
  predicate Unaudited(code: string) {
    code == "tools_unsupported" || code == "unsupported_provider" || code == "build_failed"
  }

  const KINDS := ["openai", "anthropic", "gemini"]

  /** The limiter, in this state, admits the call. */
  predicate LetThrough(st: RateLimit.State, c: RateLimit.Call) {
    c.Ask? && RateLimit.DecisionOf(st, c.user, c.lim, c.now).Admitted?
  }

  /** No message is blocked, and each is sent as the policy leaves it. */
  predicate PassesPolicy(rules: Rules, messages: seq<Message>, sent: seq<Message>) {
    && !BlocksAny(rules, messages)
    && |sent| == |messages|
    && forall k | 0 <= k < |sent| ::
         && sent[k].role == messages[k].role
         && sent[k].content == if messages[k].role == "assistant" then messages[k].content
                               else Masked(rules, messages[k].content)
  }

  /** One more entry, for this user and provider. */
  predicate Appended(before: seq<AuditEntry>, after: seq<AuditEntry>, user: string, provider: string) {
    |after| == |before| + 1 && before <= after && after[|before|].user == user && after[|before|].provider == provider
  }

  /** An entry without usage, under the status that was answered. */
  predicate Unused(e: AuditEntry, status: int) {
    e.promptTokens == 0 && e.completionTokens == 0 && e.status == status
  }

  /** The calls of the limiter that settle an answer: one charge of the audited usage, or none. */
  predicate Charges(before: seq<RateLimit.Call>, after: seq<RateLimit.Call>, status: int, e: AuditEntry, now: nat) {
    after == before + if status == 200 then [RateLimit.Charge(e.user, TokensIn(e), now)] else []
  }

  /** How the audit entry writes the names of rules that fire on a reply. */
  function Prefixed(names: set<string>): set<string> {
    set name | name in names :: "resp:" + name
  }

  function ResponseNames(rules: Rules, text: string): set<string> {
    Prefixed(FiredNames(rules, text))
  }

  /** The names that a stream reports: those that fire on some part the masker releases. */
  function StreamedNames(codec: Frames.Codec, body: string, rules: Rules, maskResponses: bool): set<string> {
    if maskResponses then StreamNames(rules, "", StreamProxy.DeltasIn(codec, body)) else {}
  }

  /** Where no match contains a break, they are those that fire on the whole reply. */
  lemma StreamedNamesAreBatch(codec: Frames.Codec, body: string, rules: Rules)
    requires SeenClean(rules, StreamProxy.ReplyText(codec, body))
    ensures Prefixed(StreamedNames(codec, body, rules, true)) ==
            ResponseNames(rules, StreamProxy.ReplyText(codec, body))
    ensures ResponseNames(rules, StreamProxy.ReplyText(codec, body)) ==
            set name | name in FiredNames(rules, StreamProxy.ReplyText(codec, body)) :: "resp:" + name
  {
    hide StreamNames, FiredNames, SeenClean, StreamProxy.DeltasIn;
    var deltas := StreamProxy.DeltasIn(codec, body);
    StreamNamesAreBatch(rules, "", deltas) by {
      assert "" + StreamProxy.ReplyText(codec, body) == StreamProxy.ReplyText(codec, body);
    }
    assert "" + StreamProxy.ReplyText(codec, body) == StreamProxy.ReplyText(codec, body);
  }

  /** The stream written for an upstream body, and the entry that records its usage and the rules that fired. */
  ghost predicate StreamedIs(codec: Frames.Codec, rules: Rules, maskResponses: bool, applied: set<string>,
                             body: string, readError: Option<string>, text: string, e: AuditEntry) {
    && text == StreamProxy.GatewayBody(codec, body, rules, maskResponses)
    && Frames.Usage(e.promptTokens, e.completionTokens) == StreamProxy.UsageIn(codec, body)
    && e.status == (if readError.Some? then 502 else 200)
    && e.policies == applied + Prefixed(StreamedNames(codec, body, rules, maskResponses))
    && (maskResponses && SeenClean(rules, StreamProxy.ReplyText(codec, body)) ==>
          e.policies == applied + ResponseNames(rules, StreamProxy.ReplyText(codec, body)))
  }

  /** The same for a reply that comes at once. */
  ghost predicate ParsedIs(parsed: Parsed, rules: Rules, maskResponses: bool, applied: set<string>,
                           text: string, e: AuditEntry) {
    && text == (if maskResponses then Masked(rules, parsed.content) else parsed.content)
    && e.promptTokens == parsed.promptTokens && e.completionTokens == parsed.completionTokens
    && e.status == 200
    && e.policies == applied + if maskResponses then ResponseNames(rules, parsed.content) else {}
  }

  ghost predicate ReplyIs(codec: Frames.Codec, parse: string -> Option<Parsed>, rules: Rules, maskResponses: bool,
                          stream: bool, applied: set<string>, body: string, readError: Option<string>,
                          text: string, e: AuditEntry) {
    if stream then StreamedIs(codec, rules, maskResponses, applied, body, readError, text, e)
    else parse(body).Some? && ParsedIs(parse(body).value, rules, maskResponses, applied, text, e)
  }

  /** These are the alerts of the findings. */
  ghost predicate Raised(user: string, findings: set<Finding>, raised: seq<Alert>) {
    forall a: Alert :: a in raised <==> exists f :: f in findings && Tells(a, user, "response:", f)
  }

  lemma RaisedNext(user: string, findings: set<Finding>, left: set<Finding>, raised: seq<Alert>, f: Finding)
    requires f in findings && f !in left && Raised(user, findings - left - {f}, raised)
    ensures Raised(user, findings - left, raised + [AlertOf(user, "response:", f)])
  {
    var more := raised + [AlertOf(user, "response:", f)];
    forall a: Alert
      ensures a in more <==> exists g :: g in findings - left && Tells(a, user, "response:", g)
    {
      assert Tells(a, user, "response:", f) <==> a == AlertOf(user, "response:", f);
      if a in raised {
        var g :| g in findings - left - {f} && Tells(a, user, "response:", g);
      }
    }
  }

  /** The reply has raised the alerts of the rules that fire on it, if replies are masked at all. */
  ghost predicate ReplyRaised(user: string, rules: Rules, maskResponses: bool, text: string,
                              before: seq<Alert>, after: seq<Alert>) {
    if maskResponses then
      before <= after && Raised(user, (set f | f in Findings(rules, text, |rules|)), after[|before|..])
    else after == before
  }

  /** The stream has raised the alerts of a report of the streamed names. */
  ghost predicate StreamRaised(user: string, codec: Frames.Codec, body: string, rules: Rules, maskResponses: bool,
                               before: seq<Alert>, after: seq<Alert>) {
    && before <= after && |after| == |before| + |StreamedNames(codec, body, rules, maskResponses)|
    && (maskResponses ==>
          exists findings ::
            && ReportIs(rules, StreamedNames(codec, body, rules, true), StreamProxy.ReplyText(codec, body), findings)
            && Raised(user, findings, after[|before|..]))
  }

  lemma RaisedAll(user: string, fs: seq<Finding>)
    ensures Raised(user, (set f | f in fs), AlertsOf(user, "response:", fs))
  {
    var raised := AlertsOf(user, "response:", fs);
    forall a: Alert
      ensures a in raised <==> exists f :: f in fs && Tells(a, user, "response:", f)
    {
      AlertsTell(user, "response:", fs, a);
    }
  }

  /** There is one alert for each finding. */
  lemma AlertsTell(user: string, prefix: string, fs: seq<Finding>, a: Alert)
    ensures a in AlertsOf(user, prefix, fs) <==> exists f :: f in fs && Tells(a, user, prefix, f)
  {
    var raised := AlertsOf(user, prefix, fs);
    if a in raised {
      var k :| 0 <= k < |raised| && raised[k] == a;
      assert fs[k] in fs && Tells(a, user, prefix, fs[k]);
    }
    if f :| f in fs && Tells(a, user, prefix, f) {
      var k :| 0 <= k < |fs| && fs[k] == f;
      assert raised[k] == a;
    }
  }

  /** Rule k is the first of its name to fire on the text, and the alert says so, field by field. */
  predicate AlertOn(user: string, rules: Rules, text: string, a: Alert, k: nat) {
    && FiresFirst(rules, text, k)
    && a.user == user && a.rule == rules[k].value.name && a.category == rules[k].value.category
    && a.action == rules[k].value.action && a.severity == rules[k].value.severity
  }

  ghost predicate AlertsOn(user: string, rules: Rules, text: string, a: Alert) {
    exists k: nat :: AlertOn(user, rules, text, a, k)
  }

  lemma TextAlerts(user: string, rules: Rules, text: string, a: Alert)
    ensures a in AlertsOf(user, "", Findings(rules, text, |rules|)) <==> AlertsOn(user, rules, text, a)
  {
    var fs := Findings(rules, text, |rules|);
    var ks := FindingsInOrder(rules, text, |rules|);
    AlertsTell(user, "", fs, a);
    hide FiresAt, AlertsOf, Findings;
    if f :| f in fs && Tells(a, user, "", f) {
      var i :| 0 <= i < |fs| && fs[i] == f;
      assert "" + f.rule == f.rule && ReportedBy(rules, text, ks[i], f);
      assert AlertOn(user, rules, text, a, ks[i]);
    }
    if k: nat :| AlertOn(user, rules, text, a, k) {
      assert k in ks;
      var i :| 0 <= i < |ks| && ks[i] == k;
      assert "" + fs[i].rule == fs[i].rule && ReportedBy(rules, text, k, fs[i]);
      assert fs[i] in fs && Tells(a, user, "", fs[i]);
    }
  }

  /** The alerts of a request are exactly those of the rules that fire on messages of the user. */
  lemma {:induction false} RequestAlertsExactly(user: string, rules: Rules, messages: seq<Message>, a: Alert)
    ensures a in RequestAlerts(user, rules, messages) <==>
            exists i :: 0 <= i < |messages| && messages[i].role != "assistant" &&
                        AlertsOn(user, rules, messages[i].content, a)
  {
    hide *;
    if messages == [] {
      RequestNone(user, rules);
    } else {
      var n := |messages| - 1;
      var rest, text := messages[..n], messages[n].content;
      RequestAlertsExactly(user, rules, rest, a);
      TextAlerts(user, rules, text, a);
      assert messages[..n+1] == messages;
      RequestNext(user, rules, messages, n);
      assert forall i | 0 <= i < n :: rest[i] == messages[i];
    }
  }

  /** Providers with an adapter. */
  predicate Supported(kind: string) {
    kind == "openai" || kind == "anthropic" || kind == "gemini"
  }

  /** No message is blocked, tools are asked for only where they are supported, and there is an adapter. */
  predicate Forwarded(t: Target, rules: Rules) {
    && !BlocksAny(rules, t.req.messages)
    && (t.req.tools ==> t.provider.kind == "openai")
    && Supported(t.provider.kind)
  }

  /** Which answer an admitted request gets, and whether it is sent upstream. */
  ghost predicate Decided(parse: string -> Option<Parsed>, t: Target, rules: Rules, up: Upstream,
                          resp: Response, sent: Option<seq<Message>>) {
    && (sent.Some? <==> Forwarded(t, rules) && !up.BuildFailed?)
    && (BlocksAny(rules, t.req.messages) <==> resp == Response(422, "policy_blocked", ""))
    && (!BlocksAny(rules, t.req.messages) ==>
          (resp == Response(400, "tools_unsupported", "") <==> t.req.tools && t.provider.kind != "openai"))
    && (!BlocksAny(rules, t.req.messages) && (t.req.tools ==> t.provider.kind == "openai") ==>
          (resp == Response(500, "unsupported_provider", "") <==> !Supported(t.provider.kind)))
    && (Forwarded(t, rules) ==>
          && (resp == Response(500, "build_failed", "") <==> up.BuildFailed?)
          && (up.SendFailed? ==> resp == Response(502, "upstream_error", up.error))
          && (up.Replied? && up.status >= 400 ==> resp == Response(up.status, "upstream_error", up.body))
          && (up.Replied? && up.status < 400 && (t.req.stream || parse(up.body).Some?) ==>
                resp.status == 200 && resp.code == "")
          && (up.Replied? && up.status < 400 && !t.req.stream && parse(up.body).None? ==>
                resp == Response(502, "parse_error", "")))
  }

  /** What an admitted request, and one refused by the limiter, leaves behind. */
  ghost predicate Outcome(codec: Frames.Codec, parse: string -> Option<Parsed>, t: Target,
                          rules: Rules, maskResponses: bool, up: Upstream, resp: Response, sent: Option<seq<Message>>,
                          before: seq<AuditEntry>, after: seq<AuditEntry>) {
    && Decided(parse, t, rules, up, resp, sent)
    // The gate: what goes upstream passed the policy and is masked.
    && (sent.Some? ==> PassesPolicy(rules, t.req.messages, sent.value))
    // The request is audited once, but for three answers.
    && (if Unaudited(resp.code) then after == before else Appended(before, after, t.user, t.provider.id))
    && (resp.status != 200 && !Unaudited(resp.code) ==> |after| > |before| && Unused(after[|before|], resp.status))
    && (resp.code == "policy_blocked" ==>
          && BlocksAny(rules, t.req.messages) && sent.None?
          && |after| > |before| && after[|before|].policies == RequestNames(rules, t.req.messages))
    // A successful answer is the masked one.
    && (resp.status == 200 ==>
          && sent.Some? && up.Replied? && |after| > |before|
          && ReplyIs(codec, parse, rules, maskResponses, t.req.stream, RequestNames(rules, t.req.messages),
                     up.body, up.readError, resp.body, after[|before|]))
  }

  /** The calls of the limiter so far, and what was offered to the audit and alert writers. */
  datatype Books = Books(calls: seq<RateLimit.Call>, audited: seq<AuditEntry>, alerts: seq<Alert>)

  /** The limiter was asked for this user under the limits that limitsFor resolves. */
  ghost predicate Asked(defaults: RateLimit.Limits, c: RateLimit.Call, user: string, snap: Snapshot, now: nat) {
    && c.Ask? && c.user == user && c.now == now
    && TeamLimits.Resolves(defaults.rpm, snap.limits, user, TeamLimits.Rpm, c.lim.rpm)
    && TeamLimits.Resolves(defaults.dailyTokens, snap.limits, user, TeamLimits.Tokens, c.lim.dailyTokens)
  }

  /** The alerts of the request, and those of the reply if there is one. */
  ghost predicate Alerted(codec: Frames.Codec, parse: string -> Option<Parsed>, t: Target,
                          rules: Rules, maskResponses: bool, up: Upstream, resp: Response,
                          before: seq<Alert>, after: seq<Alert>) {
    var raised := before + RequestAlerts(t.user, rules, t.req.messages);
    if resp.status != 200 then after == raised
    else
      && up.Replied?
      && if t.req.stream then StreamRaised(t.user, codec, up.body, rules, maskResponses, raised, after)
         else
           && parse(up.body).Some?
           && ReplyRaised(t.user, rules, maskResponses, parse(up.body).value.content, raised, after)
  }

  /** The one call that ends an admitted request: a charge for what is audited, or none. */
  ghost predicate Ends(t: Target, resp: Response, chargeAt: nat, c: RateLimit.Call, before: Books, after: Books) {
    if resp.status == 200 then
      && |after.audited| > |before.audited|
      && c == RateLimit.Charge(t.user, TokensIn(after.audited[|before.audited|]), chargeAt)
    else c == RateLimit.End(t.user, chargeAt)
  }

  /** A request that the limiter refuses is audited without usage, and that is all. */
  ghost predicate Refused(t: Target, resp: Response, sent: Option<seq<Message>>, before: Books, after: Books) {
    && (resp.code == "quota_exceeded" || resp.code == "rate_limited")
    && resp == Response(429, resp.code, "") && sent.None?
    && Appended(before.audited, after.audited, t.user, t.provider.id)
    && Unused(after.audited[|before.audited|], 429)
    && after.alerts == before.alerts
  }

  /** A request that the limiter admits gets its answer, and its one further call of the limiter. */
  ghost predicate Granted(codec: Frames.Codec, parse: string -> Option<Parsed>, t: Target,
                          snap: Snapshot, up: Upstream, chargeAt: nat,
                          resp: Response, sent: Option<seq<Message>>, before: Books, after: Books) {
    && |after.calls| == |before.calls| + 2
    && Ends(t, resp, chargeAt, after.calls[|before.calls| + 1], before, after)
    && Outcome(codec, parse, t, Builtins() + snap.rules, snap.maskResponses, up, resp, sent,
               before.audited, after.audited)
    && Alerted(codec, parse, t, Builtins() + snap.rules, snap.maskResponses, up, resp, before.alerts, after.alerts)
  }

  /** What serving a request that got past the checks does to the books, when the limiter's clock shows these times. */
  ghost predicate Served(codec: Frames.Codec, parse: string -> Option<Parsed>, defaults: RateLimit.Limits, t: Target,
                         snap: Snapshot, up: Upstream, askAt: nat, chargeAt: nat,
                         resp: Response, sent: Option<seq<Message>>, before: Books, after: Books) {
    var n := |before.calls|;
    && n < |after.calls| && after.calls[..n] == before.calls
    && Asked(defaults, after.calls[n], t.user, snap, askAt)
    && if LetThrough(RateLimit.After(before.calls), after.calls[n]) then
         Granted(codec, parse, t, snap, up, chargeAt, resp, sent, before, after)
       else
         |after.calls| == n + 1 && Refused(t, resp, sent, before, after)
  }

  class Handler {
    const limiter: RateLimit.Limiter
    const defaults: RateLimit.Limits
    var mRequests: int
    var mErrors: int
    var mTokens: int
    var audited: seq<AuditEntry> // offered to the audit writer
    var alerts: seq<Alert>       // offered to the alert writer
    ghost var calls: seq<RateLimit.Call>

    /** The limiter has seen these calls, and three books agree for every user and in total. */
    ghost predicate Valid()
      reads this, limiter
    {
      && limiter.Abs() == RateLimit.After(calls)
      && mRequests == |audited|
      && mErrors == Failures(audited)
      && mTokens == Audited(audited, None)
      && (forall who: Option<string> :: Charged(calls, who) == Audited(audited, who))
    }

    /** Every admitted request has been charged or has ended. */
    ghost predicate Idle()
      reads this
    {
      forall user :: RateLimit.InFlight(calls, user) == 0
    }

    ghost function Log(): Books
      reads this
    {
      Books(calls, audited, alerts)
    }

    constructor (defaults: RateLimit.Limits)
      ensures Valid() && Idle() && fresh(limiter) && this.defaults == defaults
      ensures mTokens == 0 && audited == [] && alerts == [] && calls == []
    {
      this.defaults := defaults;
      limiter := new RateLimit.Limiter();
      mRequests, mErrors, mTokens := 0, 0, 0;
      audited, alerts, calls := [], [], [];
    }

    /** h.audit: counts the request and offers its entry to the audit writer. */
    method Audit(e: AuditEntry)
      modifies this`mRequests, this`mErrors, this`mTokens, this`audited
      ensures audited == old(audited) + [e]
      ensures mRequests == old(mRequests) + 1
      ensures mTokens == old(mTokens) + TokensIn(e)
      ensures mErrors == old(mErrors) + if e.status >= 400 then 1 else 0
    {
      mRequests := mRequests + 1;
      mTokens := mTokens + (e.promptTokens + e.completionTokens);
      if e.status >= 400 {
        mErrors := mErrors + 1;
      }
      audited := audited + [e];
    }

    /** An answer without usage: nothing was charged, and the entry carries no tokens. */
    method Fail(user: string, provider: string, status: int, policies: set<string>, error: string)
      requires Valid()
      modifies this`mRequests, this`mErrors, this`mTokens, this`audited
      ensures Valid() && audited == old(audited) + [AuditEntry(user, provider, 0, 0, status, policies, error)]
    {
      var e := AuditEntry(user, provider, 0, 0, status, policies, error);
      BooksNext(audited, e);
      Audit(e);
    }

    /** Charges the usage of an answer and writes its entry. */
    method Settle(user: string, provider: string, usage: Frames.Usage, status: int,
                  policies: set<string>, error: string, now: nat)
      requires Valid()
      modifies this`mRequests, this`mErrors, this`mTokens, this`audited, this`calls, limiter
      ensures Valid()
      ensures calls == old(calls) + [RateLimit.Charge(user, usage.promptTokens + usage.completionTokens, now)]
      ensures audited == old(audited) + [
                AuditEntry(user, provider, usage.promptTokens, usage.completionTokens, status, policies, error)]
    {
      hide RateLimit.After, RateLimit.AfterAdd, Charged, Audited, Failures;
      var n := usage.promptTokens + usage.completionTokens;
      var e := AuditEntry(user, provider, usage.promptTokens, usage.completionTokens, status, policies, error);
      CallsNext(calls, RateLimit.Charge(user, n, now));
      BooksNext(audited, e);
      limiter.AddTokens(user, n, now);
      calls := calls + [RateLimit.Charge(user, n, now)];
      Audit(e);
    }

    /** One alert for each finding of a streamed reply, in no fixed order. */
    method RaiseAlerts(user: string, findings: set<Finding>)
      modifies this`alerts
      ensures |alerts| == |old(alerts)| + |findings| && old(alerts) <= alerts
      ensures Raised(user, findings, alerts[|old(alerts)|..])
    {
      var left := findings;
      ghost var raised: seq<Alert> := [];
      while left != {}
        invariant left <= findings && alerts == old(alerts) + raised && |raised| + |left| == |findings|
        invariant Raised(user, findings - left, raised)
        decreases |left|
      {
        var f :| f in left;
        left := left - {f};
        alerts := alerts + [AlertOf(user, "response:", f)];
        RaisedNext(user, findings, left, raised, f);
        raised := raised + [AlertOf(user, "response:", f)];
      }
      assert findings - left == findings && alerts[|old(alerts)|..] == raised;
    }

    /** streamChat once the upstream has answered. */
    method ForwardStream(codec: Frames.Codec, user: string, provider: string, rules: Rules, maskResponses: bool,
                         applied: set<string>, body: string, readError: Option<string>, now: nat)
      returns (out: string)
      requires Valid()
      modifies this, limiter
      ensures Valid() && Appended(old(audited), audited, user, provider)
      ensures Charges(old(calls), calls, 200, audited[|old(audited)|], now)
      ensures StreamedIs(codec, rules, maskResponses, applied, body, readError, out, audited[|old(audited)|])
      ensures StreamRaised(user, codec, body, rules, maskResponses, old(alerts), alerts)
    {
      hide StreamProxy.GatewayBody, StreamProxy.UsageIn, StreamProxy.ReplyText, StreamProxy.DeltasIn;
      hide Masked, Findings, SeenClean, StreamNames, ResponseNames;
      hide RateLimit.After, Charged, Audited, Failures, Raised, Prefixed;
      var usage, findings;
      out, usage, findings := StreamProxy.StreamChat(codec, body, rules, maskResponses);
      assert maskResponses || (findings == {} && RuleNames(findings) == {});
      RaiseAlerts(user, findings);
      if maskResponses && SeenClean(rules, StreamProxy.ReplyText(codec, body)) {
        StreamedNamesAreBatch(codec, body, rules);
      }
      Settle(user, provider, usage, if readError.Some? then 502 else 200, applied + Prefixed(RuleNames(findings)),
             if readError.Some? then readError.value else "", now);
    }

    /** The same for an answer that comes at once. */
    method ForwardReply(parsed: Parsed, user: string, provider: string, rules: Rules, maskResponses: bool,
                        applied: set<string>, now: nat)
      returns (content: string)
      requires Valid()
      modifies this, limiter
      ensures Valid() && Appended(old(audited), audited, user, provider)
      ensures Charges(old(calls), calls, 200, audited[|old(audited)|], now)
      ensures ParsedIs(parsed, rules, maskResponses, applied, content, audited[|old(audited)|])
      ensures ReplyRaised(user, rules, maskResponses, parsed.content, old(alerts), alerts)
    {
      hide Masked, Findings, FiredBefore, NamesOf, Prefixed;
      hide RateLimit.After, Charged, Audited, Failures, Raised, AlertsOf;
      var policies := applied;
      content := parsed.content;
      if maskResponses {
        var res := ApplyResponse(content, rules);
        content := res.text;
        FindingsComplete(rules, parsed.content, |rules|);
        policies := policies + Prefixed(NamesOf(res.findings));
        RaisedAll(user, res.findings);
        alerts := alerts + AlertsOf(user, "response:", res.findings);
        assert alerts[|old(alerts)|..] == AlertsOf(user, "response:", res.findings);
      } else {
        assert applied + {} == applied;
      }
      Settle(user, provider, Frames.Usage(parsed.promptTokens, parsed.completionTokens), 200, policies, "", now);
    }

    /** What follows once the upstream has answered. */
    method Forward(codec: Frames.Codec, parse: string -> Option<Parsed>, user: string, provider: string,
                   rules: Rules, maskResponses: bool, stream: bool, applied: set<string>,
                   status: int, body: string, readError: Option<string>, now: nat)
      returns (resp: Response)
      requires Valid()
      modifies this, limiter
      ensures Valid() && Appended(old(audited), audited, user, provider) && old(alerts) <= alerts
      ensures Charges(old(calls), calls, resp.status, audited[|old(audited)|], now)
      ensures !Unaudited(resp.code) && resp.code != "policy_blocked"
      ensures resp.status != 200 ==> Unused(audited[|old(audited)|], resp.status) && alerts == old(alerts)
      ensures status >= 400 ==> resp == Response(status, "upstream_error", body)
      ensures status < 400 ==>
                if stream || parse(body).Some? then resp.status == 200 && resp.code == ""
                else resp == Response(502, "parse_error", "")
      ensures resp.status == 200 ==>
                && ReplyIs(codec, parse, rules, maskResponses, stream, applied, body, readError,
                           resp.body, audited[|old(audited)|])
                && (stream ==> StreamRaised(user, codec, body, rules, maskResponses, old(alerts), alerts))
                && (!stream ==>
                      && parse(body).Some?
                      && ReplyRaised(user, rules, maskResponses, parse(body).value.content, old(alerts), alerts))
    {
      hide StreamedIs, ParsedIs, Raised, Masked, Findings, StreamedNames, ReportIs;
      hide RateLimit.After, Charged, Audited, Failures;
      if status >= 400 {
        Fail(user, provider, status, applied, body);
        return Response(status, "upstream_error", body);
      }
      if stream {
        var out := ForwardStream(codec, user, provider, rules, maskResponses, applied, body, readError, now);
        return Response(200, "", out);
      }
      match parse(body)
      case None =>
        Fail(user, provider, 502, applied, "parse error");
        return Response(502, "parse_error", "");
      case Some(parsed) =>
        var content := ForwardReply(parsed, user, provider, rules, maskResponses, applied, now);
        return Response(200, "", content);
    }

    /**
     ChatCompletions. `codec` is the JSON library, `parse` the adapter's ParseResponse;
     `up` is what the upstream does once it is called, `askAt` and `chargeAt` what the
     limiter's clock shows. `sent` holds the messages of the upstream request, if one is built.
    */
    method ChatCompletions(codec: Frames.Codec, parse: string -> Option<Parsed>,
                           claims: Option<Signing.Claims>, snap: Snapshot, req: Option<ChatRequest>, header: string,
                           up: Upstream, askAt: nat, chargeAt: nat)
      returns (resp: Response, sent: Option<seq<Message>>)
      requires Valid() && Idle()
      modifies this, limiter
      ensures Valid() && Idle()
      // Nothing happens to a request that does not get past the checks.
      ensures match Resolve(claims, snap, req, header)
              case Reject(status, code) => resp == Response(status, code, "") && sent.None? && Log() == old(Log())
              case Resolved(t) =>
                Served(codec, parse, defaults, t, snap, up, askAt, chargeAt, resp, sent, old(Log()), Log())
    {
      hide Served, Resolve;
      match Resolve(claims, snap, req, header)
      case Reject(status, code) =>
        return Response(status, code, ""), None;
      case Resolved(t) =>
        resp, sent := Serve(codec, parse, t, snap, up, askAt, chargeAt);
    }

    /** The part of ChatCompletions that follows the checks. */
    method Serve(codec: Frames.Codec, parse: string -> Option<Parsed>, t: Target, snap: Snapshot,
                 up: Upstream, askAt: nat, chargeAt: nat)
      returns (resp: Response, sent: Option<seq<Message>>)
      requires Valid() && Idle()
      modifies this, limiter
      ensures Valid() && Idle()
      ensures Served(codec, parse, defaults, t, snap, up, askAt, chargeAt, resp, sent, old(Log()), Log())
    {
      hide Builtins, Outcome, Alerted, Asked, LetThrough;
      hide RateLimit.After, RateLimit.InFlight, Charged, Audited, Failures;
      ghost var before := Log();
      var ok, reason := AskLimiter(t.user, snap, askAt);
      ghost var ask := calls[|before.calls|];
      assert calls == before.calls + [ask];
      if ok {
        resp, sent := Proceed(codec, parse, t, Builtins() + snap.rules, snap.maskResponses, up, chargeAt);
        EndRequest(t.user, resp.status, chargeAt);
        assert calls == before.calls + [ask] + [calls[|before.calls| + 1]];
        IdleAgain(before.calls, ask, calls[|before.calls| + 1]);
      } else {
        Fail(t.user, t.provider.id, 429, {}, reason);
        resp, sent := Response(429, reason, ""), None;
        IdleStill(before.calls, ask);
      }
    }

    /** An answer that was not charged ends its request. */
    ghost method EndRequest(user: string, status: int, now: nat)
      requires Valid()
      modifies this`calls
      ensures Valid() && calls == old(calls) + if status == 200 then [] else [RateLimit.End(user, now)]
    {
      hide RateLimit.After, RateLimit.InFlight, Charged, Audited, Failures;
      if status != 200 {
        CallsNext(calls, RateLimit.End(user, now));
        calls := calls + [RateLimit.End(user, now)];
      }
    }

    /** The part of ChatCompletions that follows admission. */
    method Proceed(codec: Frames.Codec, parse: string -> Option<Parsed>, t: Target,
                   rules: Rules, maskResponses: bool, up: Upstream, now: nat)
      returns (resp: Response, sent: Option<seq<Message>>)
      requires Valid()
      modifies this, limiter
      ensures Valid()
      ensures resp.status == 200 ==> |audited| > |old(audited)|
      ensures calls == old(calls) +
                if resp.status == 200 then [RateLimit.Charge(t.user, TokensIn(audited[|old(audited)|]), now)] else []
      ensures Outcome(codec, parse, t, rules, maskResponses, up, resp, sent, old(audited), audited)
      ensures BlocksAny(rules, t.req.messages) ==> resp.code == "policy_blocked" && resp.status == 422
      ensures Alerted(codec, parse, t, rules, maskResponses, up, resp, old(alerts), alerts)
    {
      hide RequestNames, RequestAlerts, BlocksAny, ReplyIs, RateLimit.After, Charged, Audited, Failures;
      var req, p := t.req, t.provider;
      var masked, applied, fired, blocked := MaskMessages(t.user, req.messages, rules);
      alerts := alerts + fired;
      if blocked {
        Fail(t.user, p.id, 422, applied, "blocked_by_policy");
        return Response(422, "policy_blocked", ""), None;
      }
      if req.tools && p.kind != "openai" {
        return Response(400, "tools_unsupported", ""), None;
      }
      if p.kind !in KINDS {
        return Response(500, "unsupported_provider", ""), None;
      }
      match up
      case BuildFailed =>
        return Response(500, "build_failed", ""), None;
      case SendFailed(error) =>
        Fail(t.user, p.id, 502, applied, error);
        return Response(502, "upstream_error", error), Some(masked);
      case Replied(status, body, readError) =>
        sent := Some(masked);
        resp := Forward(codec, parse, t.user, p.id, rules, maskResponses, req.stream, applied,
                        status, body, readError, now);
    }

    /** Resolves the user's limits and takes a slot. */
    method AskLimiter(user: string, snap: Snapshot, now: nat) returns (ok: bool, reason: string)
      requires Valid()
      modifies this`calls, limiter
      ensures Valid() && |calls| == |old(calls)| + 1 && old(calls) <= calls && calls[|old(calls)|].user == user
      ensures Asked(defaults, calls[|old(calls)|], user, snap, now)
      ensures ok <==> LetThrough(old(limiter.Abs()), calls[|old(calls)|])
      ensures !ok ==> reason == "quota_exceeded" || reason == "rate_limited"
    {
      var lim := TeamLimits.LimitsFor(defaults, snap.limits, user);
      var ask := RateLimit.Ask(user, lim, now);
      CallsNext(calls, ask);
      ok, reason := limiter.Allow(user, lim, now);
      calls := calls + [ask];
    }
  }

  lemma BooksNext(entries: seq<AuditEntry>, e: AuditEntry)
    ensures Failures(entries + [e]) == Failures(entries) + if e.status >= 400 then 1 else 0
    ensures forall who: Option<string> ::
              Audited(entries + [e], who) == Audited(entries, who) + if Counts(who, e.user) then TokensIn(e) else 0
  {
    var all := entries + [e];
    assert all[..|all|-1] == entries && all[|all|-1] == e;
  }

  lemma InFlightNext(calls: seq<RateLimit.Call>, c: RateLimit.Call, user: string)
    ensures RateLimit.InFlight(calls + [c], user) ==
            RateLimit.InFlight(calls, user) +
            if c.user != user then 0
            else if c.Ask? then (if LetThrough(RateLimit.After(calls), c) then 1 else 0) else -1
  {
    var all := calls + [c];
    assert all[..|all|-1] == calls && all[|all|-1] == c;
    hide RateLimit.After;
  }

  /** A refused request is never in flight. */
  lemma IdleStill(calls: seq<RateLimit.Call>, ask: RateLimit.Call)
    requires forall user :: RateLimit.InFlight(calls, user) == 0
    requires ask.Ask? && !LetThrough(RateLimit.After(calls), ask)
    ensures forall user :: RateLimit.InFlight(calls + [ask], user) == 0
  {
    hide LetThrough, RateLimit.After;
    forall user
      ensures RateLimit.InFlight(calls + [ask], user) == 0
    {
      InFlightNext(calls, ask, user);
    }
  }

  /** An admitted request is in flight until it is charged or ends. */
  lemma IdleAgain(calls: seq<RateLimit.Call>, ask: RateLimit.Call, last: RateLimit.Call)
    requires forall user :: RateLimit.InFlight(calls, user) == 0
    requires LetThrough(RateLimit.After(calls), ask) && !last.Ask? && last.user == ask.user
    ensures forall user :: RateLimit.InFlight(calls + [ask] + [last], user) == 0
  {
    assert ask.Ask?;
    hide LetThrough, RateLimit.After;
    forall user
      ensures RateLimit.InFlight(calls + [ask] + [last], user) == 0
    {
      InFlightNext(calls, ask, user);
      InFlightNext(calls + [ask], last, user);
    }
  }

  lemma CallsNext(calls: seq<RateLimit.Call>, c: RateLimit.Call)
    ensures RateLimit.After(calls + [c]) == RateLimit.Next(RateLimit.After(calls), c)
    ensures forall who: Option<string> ::
              Charged(calls + [c], who) == Charged(calls, who) + if c.Charge? && Counts(who, c.user) then c.n else 0
  {
    var all := calls + [c];
    assert all[..|all|-1] == calls && all[|all|-1] == c;
  }
}
