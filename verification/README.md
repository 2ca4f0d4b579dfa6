# RafineAI gateway: a verified model of the request path

This project models what happens to a chat request and its reply in the self-hosted
gateway, and on the two ends it talks to, and proves properties of that model for every
input and every run.

- **Content policy** (`Regexp`, `RegexpLemmas`, `Policy`, `Masking`, `Streaming`,
  `ReportedNames`, `Stretches`, `Residual`, `BuiltinRules`, `Evaluation`, `Detections`, `Cards`,
  `BuiltinMatches`, `BuiltinStreaming`, `StreamResidue`, `MissedReport`, `CustomRules`). A
  backtracking matcher for the regular expressions the detectors use, Go's ReplaceAllString, the
  rule list with the real built-in detectors, `Apply`, `ApplyResponse` and the `StreamMasker`
  object. What every detector matches is stated character by character, and each match is the
  longest. One pass of the built-in rules leaves nothing behind, and what administrators' rules behind them can expose is characterised
  exactly. Streaming gives the batch text under every chunking exactly when masking removes
  no blank, and the batch report exactly when every rule that fires does so inside a word.
  On all other replies, too, a stream contains no API key, identity number, IBAN or phone
  number; for bearer tokens, private keys and card numbers that fails.
- **Rate limits** (`RateLimit`, `TeamLimits`). The limiter object, runs of interleaved
  calls, the bound on admitted requests, the daily quota and its overshoot, isolation
  of users, and the resolution of team limits.
- **Event streams** (`Sse`, `SseStandard`, `Frames`, `SampleCodec`, `StreamProxy`, `PyText`,
  `ChatRelay`, `ChatClient`, `EndToEnd`, `ErrorReplies`). The upstream reader, the gateway's re-emitter, the api's relay
  and the browser's reader, composed into one statement about the text that is shown and stored.
- **Background writers** (`BatchWriter`). Producers, one worker, ticks and cancellation
  around a bounded channel, as interleaved steps and as code over a reused array.
- **Signed keys** (`Base64Url`, `Signing`). Both printers, the decoder and the verifier.
- **The handler** (`Handler`, `Interleaving`). The decision order of a request, what may be
  sent upstream, and the agreement of the token books, also while requests run at the same
  time: what the handler does to one request is a run of the step machine.
- **Two loops at the ends** (`Rag`, `MessageContent`). Document chunks and code fences.

Times are nanoseconds since the Unix epoch. HMAC-SHA256, the JSON libraries and an
adapter's response parser are parameters; where a theorem needs a fact about one of them,
the fact is a named predicate (`Signing.Lawful`, `Frames.Lawful`, `Frames.WritesNel`,
`ErrorReplies.TellsErrors`). They speak of the chunks that the gateway writes and of 64-bit times only, and
`SampleCodec.LawfulCodecExists` shows that those about chunks can be met.

## Where the code and its comments differ

The model follows the code.

- `ratelimit.go:16` calls the request limit a bound for every rolling minute. The code
  admits up to 2R - 1 requests in a minute; the comment's bound holds exactly for R = 1
  (`RateLimit.RollingBoundExact`, `RateLimit.IntervalBound`).
- The comment on `StreamMasker` (`policy.go:90-94`) says that card numbers and keys contain
  no spaces, so that a match is never split. The rules for bearer tokens, private keys and
  card numbers do match across a blank, and a stream can split such a match and let it through
  (`BuiltinStreaming.DetectorStreams`, `StreamResidue.StreamResidueExactly`). A keyword of two
  words can go unreported (`MissedReport.BuiltinsMayMissReport`).
- `Limiter.Allow` reads the clock before it takes the lock. The statements about windows and
  days therefore assume that timestamps do not decrease in the order in which the lock is
  taken. `RateLimit.CounterExact` says for every run when the day counter is right, and
  `RateLimit.StaleCallResets` shows a nanosecond of delay at midnight that makes it wrong.
- `sse.go:11` says that data lines are joined with newlines. Empty lines before the first
  line that is not empty leave no newline behind (`Sse.JoinDataIsJoin`). The reader also
  trims every field, and delivers an event that has a name and no data, which the HTML Living
  Standard drops; `SseStandard.AgreesWithStandard` says on which events it follows the
  standard.
- Go's JSON encoder writes U+0085 as it is, and the api's line reader treats it as the end
  of a line, so a reply with that character does not pass the relay unchanged
  (`ChatRelay.RelayExactly`, `EndToEnd.RelayedExactly`). `EndToEnd.StreamedReply` is about
  streams in which no emitted text has it.
- `handler.go:178-180` says that a block-action match rejects the request. Keys and tokens are
  masked first, and a private key's header that directly follows a key is masked as a part of it:
  such a message is not blocked (`BuiltinMatches.HeaderMayHide`, `BuiltinMatches.BlocksExactly`).
- The same comment presents the administrators' rules as an addition to the built-in ones.
  A custom rule that masks part of a word can expose the rest to a built-in rule that has
  already run (`CustomRules.KeywordExposes`, `CustomRules.CustomResidueExactly`).

## Model

| member | source | states |
|---|---|---|
| `RegexpLemmas.FindSound` | gateway/internal/policy/policy.go:51-57 | what the engine finds is a match of the expression |
| `RegexpLemmas.FindComplete` | gateway/internal/policy/policy.go:51-57 | where the expression has a match, the engine finds one |
| `RegexpLemmas.CanContext` | gateway/internal/policy/policy.go:197-200 | a match depends on its own characters and, for word boundaries, on its two neighbours |
| `RegexpLemmas.FindTruncated` | gateway/internal/policy/policy.go:107-119 | cutting a text after a non-word character hides matches over the cut and changes no other preferred match |
| `RegexpLemmas.HasMatchExactly` | gateway/internal/policy/policy.go:73-76 | a rule fires exactly if the engine finds a match at some offset, the end of the text included |
| `Policy.Apply` | gateway/internal/policy/policy.go:158-180 | text after all rules in turn, one finding per fired name in order of first firing, blocked exactly if a block rule fired; what one rule does to a text is in `Stretches.ReplaceExactly`, what the built-in expressions match in `Detections` and `Cards` |
| `Policy.ApplyResponse` | gateway/internal/policy/policy.go:70-88 | same text and findings, never blocked |
| `Policy.FindingsComplete` | gateway/internal/policy/policy.go:74-82 | the findings name every rule that fired, each name once |
| `Policy.FindingsInOrder` | gateway/internal/policy/policy.go:160-170 | the findings are, in rule order, exactly those of the rules that are the first of their name to fire, each with the name, category, action and severity of its rule |
| `Policy.ReplaceNothing` | gateway/internal/policy/policy.go:74-76 | skipping a rule that does not match is the same as replacing with it |
| `Masking.CleanCut` | gateway/internal/policy/policy.go:90-119 | a text whose rewritten spans contain no blank can be cut after a blank: both parts have that property |
| `Masking.ReplaceCut` | gateway/internal/policy/policy.go:90-119 | and replacing in the two parts gives the replacement of the whole |
| `Masking.CleanByCount` | gateway/internal/policy/policy.go:83-85 | replacing removes blanks exactly if some rewritten span contains one |
| `Masking.RulesCut` | gateway/internal/policy/policy.go:140-155 | the cut distributes over the whole list of rules, each seeing what the one before left |
| `Masking.RulesCleanByCount` | gateway/internal/policy/policy.go:140-155 | a pass keeps the number of blanks exactly if no rule rewrote a span with one |
| `Streaming.ReleaseLen` | gateway/internal/policy/policy.go:110-115 | the released part ends in a blank and the rest has none |
| `Streaming.ReleasedAtBlank` | gateway/internal/policy/policy.go:110-115 | the released part ends behind the last blank, tab, line feed or carriage return |
| `Streaming.ReleasedAppend` | gateway/internal/policy/policy.go:107-119 | releasing delta by delta releases the longest blank-terminated prefix of what was received |
| `Streaming.StreamIsBatch` | gateway/internal/policy/policy.go:106-129 | for a text from which masking removes no blank, pushes and close give the batch mask, whatever the deltas |
| `Streaming.StreamingExact` | gateway/internal/policy/policy.go:90-129 | all chunkings of a text give the batch mask if and only if the batch mask keeps every blank |
| `Streaming.LocalStreamIsBatch` | gateway/internal/policy/policy.go:90-129 | for rules whose matches contain no blank, every chunking of every text gives the batch mask |
| `Streaming.FiredNamesCut` | gateway/internal/policy/policy.go:140-149 | on a text in which no match contains a blank, a name fires exactly if it fires on one of the two parts of a cut |
| `Streaming.StreamNamesAreBatch` | gateway/internal/policy/policy.go:107-149 | on such a text the names recorded in the end are those of the batch pass, whatever the deltas and the rules |
| `Streaming.SameFindings` | gateway/internal/policy/policy.go:131-149 | with distinct names the recorded findings are, as a set, those of the batch pass |
| `Streaming.StreamMasker.constructor` | gateway/internal/policy/policy.go:101-104 | an empty buffer, no findings, and the invariant |
| `Streaming.StreamMasker.Mask` | gateway/internal/policy/policy.go:140-155 | the batch mask of the part; names that fire are added, recorded ones keep their first finding |
| `Streaming.StreamMasker.Push` | gateway/internal/policy/policy.go:107-119 | keeps the invariant: the buffer holds the unfinished word, the text emitted is the batch mask of the rest, the recorded names are those that fire on the released parts |
| `Streaming.StreamMasker.Close` | gateway/internal/policy/policy.go:121-129 | the recorded names are those that fire on the parts of the whole text; text and findings are those of the batch pass where masking keeps the blanks, or no match has one |
| `Streaming.StreamMasker.Findings` | gateway/internal/policy/policy.go:131-138 | the recorded findings |
| `ReportedNames.CanExtend` | gateway/internal/policy/policy.go:140-149 | what is released after a non-word character matches there in the longer text, too |
| `ReportedNames.NamesBetween` | gateway/internal/policy/policy.go:107-149 | if all rules but the last keep the blanks of the text, under every chunking: at least the names that fire inside a word, at most those of the batch pass |
| `ReportedNames.NamesExact` | gateway/internal/policy/policy.go:107-149 | on such a text all chunkings report the names of the batch pass if and only if each of them fires inside a word |
| `Stretches.ReplaceIsJoined` | gateway/internal/policy/policy.go:171-177 | a rewritten text is what the rule copies, with the token in between, for every rule, empty matches included |
| `Stretches.ReplaceExactly` | gateway/internal/policy/policy.go:171-177 | what is rewritten is exactly the matches, each the first behind the one before it, and everything between them is copied; an empty match directly behind a match does not count |
| `Stretches.CutAt` | gateway/internal/policy/policy.go:23-24 | a non-word character that no match contains, like a bracket of the token, cuts a text in two for the matches |
| `Stretches.ResidueExactly` | gateway/internal/policy/policy.go:171-177 | after any rule, a pattern that keeps off the token matches if and only if it matches in a stretch that the rule copies, taken as a text of its own |
| `Residual.AnchoredCan` | gateway/internal/policy/policy.go:197-200 | an expression with a boundary at both ends matches exactly where its core does between two boundaries |
| `Residual.MatchTransfers` | gateway/internal/policy/policy.go:23-24 | a match at the front of a copied stretch is a match of the original text, unless a rewritten span cuts a word there |
| `Residual.AnchoredCutsNoWord` | gateway/internal/policy/policy.go:197-200 | an expression with a boundary at both ends cuts no word |
| `Residual.NoMatchAfter` | gateway/internal/policy/policy.go:171-177 | rewriting by any rule exposes no match of a pattern without boundaries, nor of an anchored one where it cuts no word |
| `Residual.NothingLeft` | gateway/internal/policy/policy.go:158-180 | after one pass of a well-ordered list no rewriting rule matches anywhere |
| `Residual.SecondPass` | gateway/internal/policy/policy.go:158-180 | a second pass changes nothing and blocks nothing |
| `BuiltinRules.BuiltinsLayered` | gateway/internal/policy/policy.go:184-211 | the built-in list is well ordered: expressions without boundaries first, and none matches a bracket or inside the token |
| `BuiltinRules.BuiltinsLeaveNothing` | gateway/internal/policy/policy.go:157-211 | what the built-in pass leaves is a fixpoint with no secret or number left to rewrite or block |
| `Detections.OpenAIKeyFound` | gateway/internal/policy/policy.go:191 | a key is sk- with the longest run of key characters behind it, at least sixteen |
| `Detections.AwsKeyFound` | gateway/internal/policy/policy.go:192 | AKIA and sixteen capitals or digits |
| `Detections.BearerFound` | gateway/internal/policy/policy.go:193 | bearer in any letter case, the longest run of blanks, and the longest run of token characters, at least twenty |
| `Detections.PrivateKeyFound` | gateway/internal/policy/policy.go:194 | the opening dashes, capitals and blanks, and PRIVATE KEY with the closing dashes |
| `Detections.TcknFound` | gateway/internal/policy/policy.go:197 | eleven digits that are a word |
| `Detections.IbanTrFound` | gateway/internal/policy/policy.go:198 | TR and 24 digits that are a word |
| `Detections.PhoneTrFound` | gateway/internal/policy/policy.go:200 | 5 and nine digits, with +90, 0 or nothing before it, between boundaries |
| `Detections.EmailFound` | gateway/internal/policy/policy.go:201 | a name, an at sign, a host up to its first dot, and the longest run behind it |
| `Detections.KeywordFound` | gateway/internal/policy/policy.go:59-66 | a keyword is found exactly where it is spelled, in any letter case |
| `Cards.CreditCardFound` | gateway/internal/policy/policy.go:199 | of all spans of 13 to 16 digits with at most one separator behind each, between boundaries, the longest |
| `Cards.CardCan` | gateway/internal/policy/policy.go:199 | these spans are exactly what the card expression can match |
| `BuiltinMatches.MatchesAreLongest` | gateway/internal/policy/policy.go:191-210 | of all spans that an expression of the list can match at a place, the engine takes the longest |
| `BuiltinMatches.BlocksExactly` | gateway/internal/policy/policy.go:171-177 | a message is blocked exactly if a private key header is left of it when keys and tokens are masked; a header that blocks was in the message |
| `BuiltinMatches.HeaderMayHide` | gateway/internal/policy/policy.go:191-194 | the converse fails: a header directly behind a key is masked with it and does not block |
| `BuiltinMatches.KeywordFires` | gateway/internal/policy/policy.go:59-66 | a keyword rule fires exactly if its word is spelled somewhere in the text |
| `BuiltinMatches.KeywordNames` | gateway/internal/policy/policy.go:203-218 | keywords of two words are reported with an underscore |
| `CustomRules.CustomResidueExactly` | gateway/internal/proxy/handler.go:181-192 | behind any custom rules, a further pass of the built-in rules finds and changes nothing if and only if no number detector matches in a stretch that the last custom rule copies, taken by itself |
| `CustomRules.SecretsStayMasked` | gateway/internal/policy/policy.go:190-194 | keys, tokens and private keys stay masked under every list of custom rules |
| `CustomRules.KeysLeaveStreams` | gateway/internal/policy/policy.go:106-129 | no stream contains an API key, behind any custom rules of which none rewrites the blank at the end of a text |
| `CustomRules.WholeWordsLeaveNothing` | gateway/internal/policy/policy.go:59-66 | custom keywords and expressions that rewrite no part of a word leave nothing for the built-in rules |
| `CustomRules.AnchoredLeaveNothing` | gateway/internal/proxy/handler.go:181-192 | behind custom rules with a boundary at both ends that keep off the token, a second pass of the whole list changes and blocks nothing |
| `CustomRules.KeywordExposes` | gateway/internal/policy/policy.go:59-66 | the condition can fail: a masked keyword turns the digits behind it into an identity number |
| `CustomRules.PassGrows` | gateway/internal/policy/policy.go:158-180 | a pass leaves the number of brackets only if no rewriting rule matches |
| `Residual.NoneInWord` | gateway/internal/policy/policy.go:197-200 | inside a word an expression with boundaries at both ends can match only from the first character |
| `BuiltinStreaming.BuiltinsStreamExactly` | gateway/internal/policy/policy.go:90-129 | for the built-in list, all chunkings agree with the batch mask exactly if it keeps every blank of the text, that is, if no rule rewrites a span with one |
| `BuiltinStreaming.BuiltinsMayFailToStream` | gateway/internal/policy/policy.go:90-94 | for a bearer token some chunking does not |
| `BuiltinStreaming.BuiltinsReportExactly` | gateway/internal/policy/policy.go:131-149 | the same for the first n built-in rules, on every text whose blanks the rules before the n-th keep; all of them on a text that keeps its blanks |
| `MissedReport.BuiltinsMayMissReport` | gateway/internal/policy/policy.go:107-149 | the condition can fail on a text that no rule changes: a keyword of two words fires on the reply, and some chunking does not report it |
| `BuiltinStreaming.EmailReports` | gateway/internal/policy/policy.go:201 | the address detector reports the same in a stream as in the whole reply |
| `BuiltinStreaming.DetectorStreams` | gateway/internal/policy/policy.go:90-94 | taken alone, a rewriting detector gives the batch result under every chunking exactly if it is not the bearer, private key or card rule |
| `StreamResidue.StreamLeavesNothing` | gateway/internal/policy/policy.go:107-129 | if no masked text has a match of a pattern whose matches contain no blank, no streamed reply has one, whatever the reply and the deltas; no rule may rewrite the blank at the end of a text |
| `StreamResidue.StreamResidueExactly` | gateway/internal/policy/policy.go:90-129 | all replies streamed through the built-in rules are free of what a rewriting detector matches if and only if it is not the bearer, private key or card rule |
| `RateLimit.DayKeyOrder` | gateway/internal/ratelimit/ratelimit.go:47-50 | the day key orders times by UTC day and separates any two days |
| `RateLimit.DayKeyExactly` | gateway/internal/ratelimit/ratelimit.go:47-50 | the key is the year and the day of the year in the Gregorian calendar |
| `RateLimit.Limiter.constructor` | gateway/internal/ratelimit/ratelimit.go:38-45 | no windows and no counters |
| `RateLimit.Limiter.Allow` | gateway/internal/ratelimit/ratelimit.go:52-84 | the decision, its reason and the whole new state |
| `RateLimit.Limiter.AddTokens` | gateway/internal/ratelimit/ratelimit.go:86-100 | the whole new state |
| `RateLimit.WindowInv` | gateway/internal/ratelimit/ratelimit.go:71-82 | in every run the window's count is the number admitted since its start, and bounds those since any other time |
| `RateLimit.IntervalBound` | gateway/internal/ratelimit/ratelimit.go:14-18 | any interval admits at most R per started minute plus R - 1 |
| `RateLimit.RefusedOnlyWhenFull` | gateway/internal/ratelimit/ratelimit.go:72-80 | a rate refusal means R requests were admitted since a time less than a minute ago |
| `RateLimit.RateExact` | gateway/internal/ratelimit/ratelimit.go:71-82 | a request within its quota is refused exactly if the window is current and full |
| `RateLimit.ZeroIsUnlimited` | gateway/internal/ratelimit/ratelimit.go:54-71 | a limit that is not positive refuses nobody |
| `RateLimit.RollingBoundExact` | gateway/internal/ratelimit/ratelimit.go:14-18 | no minute ever admits more than R requests if and only if R is 1 |
| `RateLimit.CounterExact` | gateway/internal/ratelimit/ratelimit.go:54-100 | in any run, ordered or not, the counter is at most the day's positive charges, and equal to them if and only if no call touched it under another day in between |
| `RateLimit.CounterIsUsage` | gateway/internal/ratelimit/ratelimit.go:86-100 | so with ordered timestamps the counter of the current day is the sum of that day's positive charges |
| `RateLimit.QuotaExact` | gateway/internal/ratelimit/ratelimit.go:59-69 | a quota refusal never comes before the day's charges have reached the quota, and where the counter is undisturbed exactly then |
| `RateLimit.QuotaOvershoot` | gateway/internal/ratelimit/ratelimit.go:54-100 | with at most K admitted requests not yet charged or ended and charges of at most M, a day's usage stays within quota - 1 + K M |
| `RateLimit.StaleCallResets` | gateway/internal/ratelimit/ratelimit.go:55-56 | a call that read the clock a nanosecond before midnight lets in a user whose new quota is spent |
| `RateLimit.Isolation` | gateway/internal/ratelimit/ratelimit.go:30-36 | the answers a user gets are those of the run without the other users' calls |
| `RateLimit.RefusalLeavesNoTrace` | gateway/internal/ratelimit/ratelimit.go:52-84 | taking a refused call out of a run changes no later answer |
| `TeamLimits.TightestNext` | gateway/internal/state/state.go:84-104 | one step of the comparison keeps the answer right for the caps seen so far |
| `TeamLimits.TeamLimitFor` | gateway/internal/state/state.go:62-82 | per dimension the least positive cap, else 0 if a team is unlimited, else unset; found exactly if a team has a row |
| `TeamLimits.TightestUnique` | gateway/internal/state/state.go:62-64 | that answer is unique |
| `TeamLimits.OrderIrrelevant` | gateway/internal/state/state.go:72-80 | order and repetition of the teams do not matter |
| `TeamLimits.LimitOrderIrrelevant` | gateway/internal/proxy/handler.go:80-103 | nor do they for the effective cap |
| `TeamLimits.MoreTeamsNoLooser` | gateway/internal/state/state.go:62-64 | more teams never loosen a dimension that has a cap |
| `TeamLimits.LimitsFor` | gateway/internal/proxy/handler.go:80-103 | personal caps, else team caps, else defaults, dimension by dimension |
| `TeamLimits.JoiningNoLooser` | gateway/internal/proxy/handler.go:80-103 | joining teams never loosens the effective cap of a user without a personal row that a team already caps |
| `TeamLimits.DefaultKeptExactly` | gateway/internal/proxy/handler.go:80-103 | the effective cap is no looser than a limiting default if and only if nothing is set, or the personal cap or one of the team caps is positive and at most the default |
| `TeamLimits.TeamMayLiftDefault` | gateway/internal/proxy/handler.go:94-101 | a team of unlimited members lifts the default, and so does a team cap above it |
| `Sse.ScanSSE` | gateway/internal/provider/sse.go:12-52 | the callback gets exactly the events of the line-by-line reading, which the following rows describe |
| `Sse.LinesExactly` | gateway/internal/provider/sse.go:13-30 | lines end in a line feed, with or without a carriage return, and the last one may be unfinished |
| `Sse.OtherLinesSkipped` | gateway/internal/provider/sse.go:37-47 | wherever it stands, a comment or any other line that is neither a name nor data makes no difference |
| `Sse.SpacesAroundValues` | gateway/internal/provider/sse.go:40-47 | a name or a value is read without the spaces around it, and there need be none behind the colon |
| `Sse.LastNameCounts` | gateway/internal/provider/sse.go:40-41 | of several names the last counts, wherever it stands among the data |
| `Sse.RoundTrip` | gateway/internal/provider/sse.go:9-52 | reading a printed list of normal events delivers exactly them, and none after one that is refused |
| `Sse.RoundTripUnterminated` | gateway/internal/provider/sse.go:49-51 | also when the stream ends without the last blank line |
| `Sse.JoinDataIsJoin` | gateway/internal/provider/sse.go:42-47 | the accumulated data is the lines joined with newlines exactly if there is at most one line or the first is not empty |
| `SseStandard.StandardExactly` | gateway/internal/provider/sse.go:19-27 | one terminated event, laid out as at most one name line and then data lines with a space after the colon, is delivered as section 9.2.6 of the HTML Living Standard has it exactly under four conditions on its name and lines |
| `SseStandard.AgreesWithStandard` | gateway/internal/provider/sse.go:9-11 | for a stream of events laid out so: after each of them the events delivered are the standard's if and only if all events meet them |
| `StreamProxy.DecodeStream` | gateway/internal/provider/openai.go:70-100 | emits the non-empty text of each readable chunk, and returns the usage reported last |
| `StreamProxy.ScanFrames` | gateway/internal/provider/openai.go:72-75 | on framed chunks the payloads up to the sentinel are read |
| `StreamProxy.StreamChat` | gateway/internal/proxy/handler.go:318-390 | writes the role, the masked texts, the stop mark, the usage and the sentinel, as frames; texts and usage are those of `EndToEnd.UpstreamText` and `EndToEnd.UpstreamUsage` |
| `StreamProxy.MaskedTextsJoin` | gateway/internal/proxy/handler.go:346-353 | the emitted texts joined are what the masker emits |
| `ChatRelay.EventStream` | api/app/routers/conversations.py:273-375 | relays every data payload up to the sentinel and stores the joined pieces with the last token count; an error status or a broken connection ends in an error frame and stores nothing |
| `ChatRelay.RelayLines` | api/app/routers/conversations.py:331-347 | the loop over the lines |
| `ChatRelay.OtherLinesDropped` | api/app/routers/conversations.py:331-333 | a line that is not a data line makes no difference |
| `ChatRelay.SpacesAroundPayload` | api/app/routers/conversations.py:334-337 | a payload is relayed without the spaces around it, and the sentinel ends the stream |
| `ChatRelay.UnreadableKept` | api/app/routers/conversations.py:338-347 | a payload that is no JSON adds nothing to what is stored and does not end the stream |
| `PyText.CutsAt` | api/app/routers/conversations.py:331 | the characters at which the relay's reader ends a line |
| `PyText.LinesFromCrLf` | api/app/routers/conversations.py:331 | a carriage return and a line feed end one line together |
| `ChatRelay.RelayFrames` | api/app/routers/conversations.py:331-337 | on frames of plain payloads nothing is lost up to the sentinel |
| `ChatRelay.RelayExactly` | api/app/routers/conversations.py:331-337 | a stream of one-line payloads passes unchanged, up to the sentinel, if and only if none of these contains a line boundary of Python's |
| `ChatClient.SplitAppend` | panel/lib/api.ts:119-120 | text that arrives later can only extend the last part of a split |
| `ChatClient.StreamChat` | panel/lib/api.ts:112-139 | for any bytes and any reads, the messages are those of the complete events of the whole body up to the sentinel |
| `ChatClient.FirstDataLine` | panel/lib/api.ts:122-124 | an event's payload is its first data line, trimmed, whatever lines stand around it |
| `ChatClient.NoDataLine` | panel/lib/api.ts:122-123 | an event without a data line has none |
| `ChatClient.SilentEvents` | panel/lib/api.ts:123-137 | events without a payload that can be read and has a text make no difference |
| `ChatClient.ClientReadsFrames` | panel/lib/api.ts:119-134 | on frames these are the payloads in order, up to the sentinel |
| `EndToEnd.ReadGateway` | gateway/internal/proxy/handler.go:335-390 | from what the gateway writes for texts without U+0085, none empty, relay and browser read the same text |
| `EndToEnd.SpacesAlike` | panel/lib/api.ts:124 | which characters the three languages trim |
| `EndToEnd.StreamedReply` | gateway/internal/proxy/handler.go:318-390 | for all rules and upstream bodies what the masker emits is what the page shows, with no error, and what is stored; conditions: no emitted text has U+0085, and no connection breaks |
| `EndToEnd.BatchReply` | gateway/internal/proxy/handler.go:318-390 | it is the batch-masked reply if masking removes no blank from it and it has no U+0085 |
| `EndToEnd.UpstreamText` | gateway/internal/provider/openai.go:90-92 | for framed chunks the reply is the text of the first choices of the readable chunks, in order |
| `EndToEnd.UpstreamUsage` | gateway/internal/provider/openai.go:93-96 | and the usage is, field by field, that of the last chunk that reports one, or zero |
| `EndToEnd.RelayedExactly` | gateway/internal/proxy/handler.go:318-390 | what the gateway writes passes the relay unchanged if and only if no emitted text contains U+0085 |
| `ErrorReplies.RefusalShown` | api/app/routers/conversations.py:294-330 | for a request that the gateway refuses the page shows exactly one error with the api's message, and nothing is stored |
| `ErrorReplies.BreakShown` | api/app/routers/conversations.py:348-371 | if the connection breaks the page shows what came before and then the error, and nothing is stored |
| `ErrorReplies.LateBreak` | api/app/routers/conversations.py:336-347 | a break behind the sentinel makes no difference |
| `SampleCodec.LawfulCodecExists` | gateway/internal/proxy/handler.go:318-334 | the assumptions about the JSON libraries can be met |
| `BatchWriter.StepKeeps` | gateway/internal/audit/audit.go:55-102 | every step keeps: accepted = delivered ++ buffer ++ channel, and the bounds on channel and batches |
| `BatchWriter.Reachable` | gateway/internal/audit/audit.go:64-102 | so in every reachable state of every schedule |
| `BatchWriter.AuditBounds` | gateway/internal/audit/audit.go:39-53 | at most 4096 entries wait, and a batch has at most the configured number, 50 by default |
| `BatchWriter.AlertBounds` | gateway/internal/alert/alert.go:37-79 | at most 2048 alerts wait, and a batch has at most 32 |
| `BatchWriter.OffersAccountedFor` | gateway/internal/audit/audit.go:55-62 | every offer is accepted or dropped, once |
| `BatchWriter.DropOnlyWhenFull` | gateway/internal/audit/audit.go:55-62 | an entry is dropped exactly if the channel is full |
| `BatchWriter.TickDelivers` | gateway/internal/audit/audit.go:98-99 | after a tick the buffer is empty: all that was accepted has been delivered, but for the channel |
| `BatchWriter.DeliveredBy` | gateway/internal/audit/audit.go:64-100 | a receive delivers exactly if it fills the buffer, and then a full batch; a tick and the end deliver what is there; nothing else delivers |
| `BatchWriter.AcceptedExactly` | gateway/internal/audit/audit.go:55-62 | a run drops nothing, and accepts all offers in order, if and only if no offer finds the channel full |
| `BatchWriter.DrainReturns` | gateway/internal/audit/audit.go:82-92 | after cancellation, with no more offers, Run returns and has delivered everything accepted |
| `BatchWriter.ShutdownDelivers` | gateway/internal/audit/audit.go:82-92 | when Run returns, what was accepted until then has been delivered, in order |
| `BatchWriter.Writer.constructor` | gateway/internal/audit/audit.go:39-53 | the starting state |
| `BatchWriter.Writer.Append` | gateway/internal/audit/audit.go:93-94 | appending to the reused array appends to its contents |
| `BatchWriter.Writer.FlushBuffer` | gateway/internal/audit/audit.go:70-78 | hands over the contents and empties the buffer; an empty buffer is not flushed |
| `BatchWriter.Writer.Enqueue` | gateway/internal/audit/audit.go:55-62 | the step of an offer |
| `BatchWriter.Writer.Turn` | gateway/internal/alert/alert.go:63-83 | each case of the two selects is its step |
| `BatchWriter.Writer.Run` | gateway/internal/alert/alert.go:49-84 | under any schedule the code reaches the state of the step machine, whose runs the rows above describe |
| `Base64Url.DecodeEncode` | gateway/internal/signing/signing.go:40-71 | decoding what was encoded gives back the bytes, for all byte strings |
| `Base64Url.PythonPrintsTheSame` | api/app/signing.py:20-21 | Python's padded encoding, stripped of its padding, is Go's unpadded one |
| `Base64Url.AlphabetExactly` | gateway/internal/signing/signing.go:40-42 | the alphabet is that of RFC 4648, table 2 |
| `Base64Url.LineBreaksSkipped` | gateway/internal/signing/signing.go:58-71 | line breaks in a token make no difference to the decoder |
| `Base64Url.LeftOverBits` | gateway/internal/signing/signing.go:58-71 | nor do the unused bits of the last symbol; a single last symbol is an error |
| `Signing.VerifyExact` | gateway/internal/signing/signing.go:45-76 | a token is accepted for some claims exactly if its first dot separates a payload that carries them from its MAC |
| `Signing.EncodeHasNoDot` | gateway/internal/signing/signing.go:53-57 | so the first dot is the separator |
| `Signing.VerifyParts` | gateway/internal/signing/signing.go:53-76 | what is decided about a token whose parts before and after its first dot are known |
| `Signing.SignVerifies` | gateway/internal/signing/signing.go:34-76 | what Go signs, Go verifies to the same claims |
| `Signing.PythonSignVerifies` | api/app/signing.py:28-46 | what Python mints, Go verifies to the same claims |
| `Signing.OtherMasterKey` | gateway/internal/signing/signing.go:63-66 | under another master key it passes exactly if the MACs of the payload agree |
| `Signing.TamperedPayload` | gateway/internal/signing/signing.go:63-66 | another payload before the same signature passes only if the MACs collide |
| `Handler.Resolve` | gateway/internal/proxy/handler.go:116-169 | who gets through, and for each of the seven rejections exactly when it is given; a user's own key comes first and opens a disabled provider |
| `Handler.ResolvedWith` | gateway/internal/proxy/handler.go:134-169 | the provider of the claim before that of the header; the user's own key before the token, and the token, for an oauth2 provider, before the shared key |
| `Handler.KeysDiffer` | gateway/internal/state/state.go:143-153 | the keys of two credentials agree exactly if user and provider do, for user names without a colon |
| `Handler.MaskMessages` | gateway/internal/proxy/handler.go:181-202 | each message of the user as the rules leave it, assistant messages unchanged, blocked exactly if one is, every finding an alert |
| `Handler.RequestAlertsExactly` | gateway/internal/proxy/handler.go:189-197 | the alerts are exactly those of the rules that fire on messages of the user, with the name, category, action and severity of the rule |
| `Handler.StreamedNamesAreBatch` | gateway/internal/proxy/handler.go:346-356 | where no match in the reply contains a blank, the audit entry of a stream names the rules that fire on the whole reply |
| `Handler.Handler.constructor` | gateway/internal/proxy/handler.go:56-67 | empty books |
| `Handler.Handler.Audit` | gateway/internal/proxy/handler.go:403-430 | one entry, and the three counters move with it |
| `Handler.Handler.Settle` | gateway/internal/proxy/handler.go:273-275 | one charge and one entry with the same usage; the books still agree |
| `Handler.Handler.ForwardStream` | gateway/internal/proxy/handler.go:309-400 | the stream is the masked reply; one charge and one entry with its usage, status and, without any condition on the rules, the names that fire on the released parts; one alert for each |
| `Handler.Handler.ForwardReply` | gateway/internal/proxy/handler.go:258-277 | the same for a reply that comes at once |
| `Handler.Handler.Forward` | gateway/internal/proxy/handler.go:243-277 | an error answer is passed on, audited under its status without usage, and not charged |
| `Handler.Handler.AskLimiter` | gateway/internal/proxy/handler.go:171-176 | the limiter is asked under the user's effective limits |
| `Handler.Handler.Proceed` | gateway/internal/proxy/handler.go:178-241 | which answer an admitted request gets, and that it is sent exactly if no message is blocked, tools are asked for of OpenAI providers only, there is an adapter and the upstream request can be built; what is sent is masked; three answers are not audited |
| `Handler.Handler.ChatCompletions` | gateway/internal/proxy/handler.go:112-278 | a request that fails a check leaves no trace; any other is served, and the books of charged, counted and audited tokens agree for every user and in total |
| `Handler.Handler.Serve` | gateway/internal/proxy/handler.go:171-278 | on every path: the limits asked for, the calls of the limiter, which answer is given, the one audit entry or none, the alerts; what is sent passed the policy, and an admitted request is charged once or ends uncharged |
| `Interleaving.AlwaysBalanced` | gateway/internal/proxy/handler.go:403-430 | at every moment of every interleaving of requests, what was charged is what is logged or on its way to the log, for every user, and the limiter's requests in flight are the real ones |
| `Interleaving.BooksAgreeAtRest` | gateway/internal/proxy/handler.go:403-430 | whenever no request is under way the three books agree |
| `Interleaving.ServedIsRun` | gateway/internal/proxy/handler.go:171-278 | whatever other requests are under way, what the handler does to the books for one request is the run of its steps: ask; charge, fail or leave; count; offer |
| `Interleaving.RunContinues` | gateway/internal/proxy/handler.go:403-430 | such a run continues the run before it, so that all of the above holds for it |
| `Interleaving.ServerOvershoot` | gateway/internal/proxy/handler.go:171-176 | in a run with at most K requests of a user at a time, however they interleave, a day's usage stays within quota - 1 + K M |
| `Rag.ChunkText` | api/app/rag.py:43-55 | the chunks rebuild the stripped text; their number, sizes and places |
| `Rag.ChunkPlaces` | api/app/rag.py:18-19 | chunks begin every 1050 characters and have 1200; their number is the least that covers the text |
| `Rag.SpanBound` | api/app/rag.py:18-19 | every span of a length lies whole in some chunk of every text exactly if it is at most 151 |
| `MessageContent.SplitBlocks` | panel/components/message-content.tsx:16-28 | the loop yields the blocks of the leftmost-match cutting |
| `MessageContent.SpansPartition` | panel/components/message-content.tsx:16-28 | on any input the spans put together are the source |
| `MessageContent.TextsAreFree` | panel/components/message-content.tsx:22-26 | no text block is empty or contains a complete fence |
| `MessageContent.RoundTrip` | panel/components/message-content.tsx:14-28 | cutting a printed message gives back its blocks, with spaces around the language or not, whether a newline precedes the closing fence or not, and also when backticks touch a fence |

## Left out

- HTTP servers and clients, databases, file storage, React pages, and the GitHub, Slack, Sentry and fine-tuning routers.
- Regular expressions beyond the constructs of the built-in rules: a repetition whose body can match the empty text is not modelled, and letter case is folded for ASCII and the Turkish letters of the built-in lexicon only.
- Invalid UTF-8: texts are sequences of Unicode characters, and word boundaries look at characters.
- `CustomRules.AnchoredLeaveNothing`: a sufficient condition on each custom rule by itself; for the built-in rules the exact one is `CustomRules.CustomResidueExactly`.
- The rule list is an immutable sequence; that `append(policy.Builtins(), ...)` may write into spare capacity shared by requests is not modelled.
- `Handler.Handler.ChatCompletions`: the method takes requests one after the other; concurrent requests are the steps of `Interleaving`, with the limiter's lock as one step and each atomic counter and channel send as another. Token counts are unbounded, where Go's have 64 bits.
- `Handler.KeysDiffer`: user names with a colon, for which two credentials can share a key.
- `Handler.Handler.Forward`: the message that is picked out of an upstream error body, which the model passes on whole; model names, smart routing, tool calls, latency, conversation ids and alert snippets are not modelled; the stream decoders of the Anthropic and Gemini adapters are not part of this model.
- `RateLimit.Limiter.Allow`: the clock is a parameter, and a run is the sequence of calls in lock order; that a run's timestamps do not decrease is an assumption of the theorems about runs.
- `Sse.ScanSSE`: lines over 1 MiB, which end the scan with an error, and read errors.
- `StreamProxy.DecodeStream`: the callback is modelled by the list of its arguments.
- `SseStandard.AgreesWithStandard`: comments, lines without a space or a colon, and other orders of fields.
- `ChatRelay.EventStream`: how the message of an error is chosen; a chunk of another shape, whose exception ends the stream like a broken connection; httpx's incremental line decoder is taken as splitlines over the whole body.
- `ChatClient.StreamChat`: decoding of UTF-8 across reads.
- `BatchWriter.Writer.FlushBuffer`: the flush function has consumed the slice when it returns; a failed flush counts as delivered, for the source logs it and goes on.
- Entries accepted after Run has returned stay in the channel, for the main program does not wait for the writer.
- `Signing.Sign`: an encoding error, which Go's encoder does not raise for these claims.
- A team limit never exceeding the default: it can, exactly when `TeamLimits.DefaultKeptExactly` says so.
- Uniqueness of a token's text: Go's decoder ignores line breaks and the unused bits of the last group, and so does `Base64Url.Decode`.
- `MessageContent.SplitBlocks`: inline formatting, headings and lists.
