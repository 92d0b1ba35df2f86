# kontxt in Dafny

kontxt issues short-lived Transaction Tokens and distributes the rules that gate
them. This project models its two protocols and the code around them, and proves
what they keep over every run.

- **Rule distribution.** A controller-side rule server broadcasts snapshots and
  deltas into bounded queues, drops what does not fit, and stream clients rebuild a
  keyed map and hand its entries to a setter. `Distribution` defines one generic
  step system (publish, subscribe, take, send, receive, close, deregister);
  `Streams` instantiates it for generation, verification and issuance rules.
  `RuleServer` and `RuleClient` are the imperative endpoints: the edits, subscribing,
  taking, deregistering and receiving are proved to be the server's and the client's
  part of those steps; sending and closing are the transport's. `KeyAgreement` says
  what a client that lost messages still knows, key by key. `EndToEnd` composes
  reconciler, server, stream, client, setter and handler for issuance rules,
  `VerificationEndToEnd` and `GenerationEndToEnd` do so for the other two kinds, and
  `Naming` says what the keys mean in terms of namespaces and names.
- **Tokens.** `TokenRuns` is the token service as a step system: requests are
  admitted and signed in separate steps, so that key rotations, rule swaps and other
  requests fall in between. `TokenService` says, field by field, when a request
  succeeds, how it is refused and how long its token is honoured. `GatewayRuns` adds a
  verifier with a key cache. `Keys`, `Jwk` and `Tokens` hold the pieces.
- **Ext-auth checks.** `CheckRuns` runs any number of `Check` calls, each of which
  loads the rule snapshot three times, against concurrent rule swaps; `Narrowing`
  covers auto-narrowing. `GatewaySystem` runs token service, rule distribution, key
  cache and checks together.
- **Parsing.** `Endpoints`, `Identity`, `Jwk`, `Scope` and `Text` give independent
  characterisations of what the parsers accept and round trips for what they encode.

A run is any finite sequence of steps; a step that is not enabled changes nothing.
History variables (published lists, setter calls, lost versions, token ancestry) are
ordinary fields, so that theorems about a final state speak about the whole run.

What the outside world does is a parameter: CEL compilation and evaluation, case
folding, the authenticators' answer, clocks, generated UUIDs and keys, whether the
key endpoint answers, and the order in which a Go map is ranged over. Signatures are
unforgeable (`TokenRuns.Genuine`), generated keys, key ids and UUIDs are fresh.

Where the code and its documentation differ the model follows the code:

- `docs/concepts.md:141` says a root token's scope is bounded by the subject token's
  scope; the handler checks no such bound, so the root of a chain carries the
  requested scope (`TokenService.ExchangeIff`).
- `pkg/extauth/server.go:204` says broader means "all scopes plus more"; the code
  compares word counts, which is right exactly for scopes that repeat no word
  (`Scope.FindsAllBroaderIff`, `Scope.FindsOnlyBroaderIff`, `Scope.RepeatsMislead`).
- `pkg/extauth/server.go:334` speaks of a trailing `/*`; the code matches the pattern's
  segments as a prefix of the path's, a star is an ordinary segment, and an empty
  pattern matches every path that starts with a slash (`ExtAuth.MatchPathIff`,
  `ExtAuth.MatchesAsDocumentedIff`, `ExtAuth.DocumentedPatternIff`,
  `ExtAuth.StarIsNoWildcard`, `ExtAuth.EmptyPatternMatchesIff`).
- `internal/controller/ruleserver/server.go:194` says a delta is broadcast to all
  connected clients; it reaches exactly those whose queue has room
  (`Divergence.BroadcastReachesIff`, `Divergence.DroppedDeltaDiverges`).
- `pkg/tts/ruleclient/handler_setter.go:48` calls a qualified rule name unique also
  with namespaces; `IssuanceHandler.QualifiedNameIff` says exactly which rules share one.
- `pkg/extauth/generate.go:176` says segments starting with `{` are wildcards; the
  code also demands a closing `}` (`Endpoints.CommentHoldsIff`).
- The defaults for nil `tctx` and `rctx` at `pkg/tts/cel.go:113-119` are never taken,
  because a nil map inside an interface is not nil; an evaluation sees the absence.
- A replacement does not evaluate issuance rules again, and `ServeHTTP` passes an
  empty workload namespace to them (`TokenService.ReplacementIff`, `TokenService.ExchangeIff`).

`dafny verify dfyconfig.toml` checks the whole project.

## Model

| member | source | states |
|---|---|---|
| RuleList.ViewLookup | pkg/extauth/ruleclient/client.go:147-163 | the map a client builds from a list holds, under every key, the last rule of the list with that key, and nothing else |
| RuleList.UpsertIsMapUpdateIff | internal/controller/ruleserver/server.go:196-208 | overwriting the first match acts on the view as an update of one key if and only if the key is held at most once or already last held by the new rule |
| RuleList.RemoveIsMapDeleteIff | internal/controller/ruleserver/server.go:230-237 | cutting out the first match deletes the key from the view if and only if it is held at most once |
| RuleList.FilterIsMapDelete | internal/controller/ruleserver/server.go:402-411 | policy removal deletes exactly the policy's keys from the view, for every list, repeated keys included |
| RuleList.EditsKeepDistinct | internal/controller/ruleserver/server.go:196-255 | upsert, single removal and policy removal keep keys distinct |
| RuleList.UpsertMembers | internal/controller/ruleserver/server.go:196-208 | with distinct keys an upsert replaces the rule under the key and adds or drops no other |
| RuleList.RemoveMembers | internal/controller/ruleserver/server.go:230-237 | with distinct keys a removal drops exactly the rule under the key |
| Naming.VerificationDistinct | pkg/extauth/ruleclient/client.go:195-212 | verification rules have distinct keys exactly when no two agree in both namespace and name |
| Naming.VerificationEditsByName | internal/controller/ruleserver/server.go:280-338 | among rules whose names differ an upsert replaces exactly the rule of that namespace and name, and a removal drops exactly the rule of the referenced namespace and name |
| Naming.GenerationDistinct | pkg/extauth/ruleclient/client.go:151-168 | generation rules have distinct keys exactly when no two agree in both namespace and name |
| Naming.GenerationEditsByName | internal/controller/ruleserver/server.go:196-255 | the same for generation rules |
| Naming.IssuanceEditsByName | internal/controller/ruleserver/server.go:364-411 | among issuance rules whose names differ an upsert replaces exactly the rule of that policy and name; a removal drops exactly the rules of the referenced policy, whatever repeats |
| RuleList.EnumerationExists | pkg/extauth/ruleclient/client.go:171-174 | every map whose entries sit under their own keys can be listed, each entry once |
| Wire.GenerationRoundTrip | pkg/extauth/ruleclient/client.go:227-262 | a generation rule survives the wire; a message survives the controller form if and only if it carries no present but empty endpoint |
| Wire.VerificationRoundTrip | pkg/extauth/ruleclient/client.go:264-293 | the verification rule conversions are mutually inverse |
| Wire.IssuanceRoundTrip | pkg/tts/ruleclient/client.go:172-181 | the issuance rule conversions are mutually inverse |
| Streams.StreamsAreFaithful | internal/controller/ruleserver/server.go:469-571 | all three kinds of rules cross the wire unchanged, so the protocol theorems hold for each stream |
| Streams.RepeatedKeysDisagree | internal/controller/ruleserver/server.go:364-396 | with two rules under one key, an upsert leaves server and client with different rules under it |
| DistributionProofs.EditAgreesIff | internal/controller/ruleserver/server.go:173-255 | a client at the server's old view that applies the update sent for an edit reaches the new view if and only if the edit is safe on that list |
| DistributionProofs.DistinctEditsAreSafe | internal/controller/ruleserver/server.go:196-255 | on lists with distinct keys every edit is safe, and upserts and removals keep keys distinct |
| DistributionProofs.DistinctRunIsSafe | internal/controller/ruleserver/server.go:173-255 | a run whose replacements have distinct keys is safe throughout, and every list the server ever held has distinct keys |
| DistributionProofs.RunKeepsInv | internal/controller/ruleserver/server.go:49-90 | over every run: pending messages carry increasing versions, every version in between is accounted for as lost, every message tells the truth about its version, queues stay within 64, and an unbroken client holds the view of its version |
| DistributionProofs.RunKeepsLog | pkg/extauth/ruleclient/client.go:137-179 | over every run each setter call is true of its version, and calls of one client advance even across reconnects |
| DistributionProofs.HistoryIsThePast | internal/controller/ruleserver/server.go:173-192 | the recorded history is what the server actually held after each prefix of the run, and versions only grow |
| DistributionProofs.AgreementOnEveryRun | pkg/extauth/ruleclient/client.go:137-179 | with any subscribers and any mix of safe snapshots, upserts and removals, a client that lost nothing since its last snapshot holds exactly the server's view at the version it applied, and what it handed over enumerates that view |
| DistributionProofs.DrainedIsCurrent | internal/controller/ruleserver/server.go:76-89 | a registered client with nothing to receive and nothing lost since its last snapshot holds the server's current view |
| DistributionProofs.RunOnlySnapshots | internal/controller/ruleserver/server.go:341-360 | in runs that only replace, everything on the way is a snapshot, every setter call is unbroken and every edit safe, whatever keys repeat |
| DistributionProofs.SnapshotRunsFollowTheServer | pkg/tts/ruleclient/client.go:107-165 | in runs that only replace, even with overflow, every set handed over is the server's at a published version, versions advance, queues stay within 64, and a drained client whose latest update was not dropped holds the current view |
| KeyAgreement.RunKeepsSent | internal/controller/ruleserver/server.go:173-255 | over every safe run each broadcast update turns the view of the version before it into the view of its own |
| KeyAgreement.AgreementPerKey | pkg/extauth/ruleclient/client.go:147-169 | whatever a connection lost, its client holds under a key what the server held at the version last applied, provided the last update since its snapshot that touches the key was received |
| Convergence.CanDrain | internal/controller/ruleserver/server.go:76-89 | from every reachable state everything pending for a live connection can be delivered by deliveries alone, losing nothing |
| Convergence.ReconnectHeals | pkg/extauth/ruleclient/client.go:84-102 | after any run, whatever was dropped, reconnecting leads to a state in which the client holds the server's current view |
| Divergence.BroadcastReachesIff | internal/controller/ruleserver/server.go:219-224 | after any run a published edit is on its way to a registered client if and only if the client's queue has room, and lost for it otherwise |
| Divergence.DroppedDeltaDiverges | internal/controller/ruleserver/server.go:219-224 | there is a run of safe edits after which a live client has received everything up to the newest version and lacks a rule the server holds |
| RuleServer.CompactInPlace | internal/controller/ruleserver/server.go:404-411 | compacting a slice in its own array leaves the kept rules in order in front and writes nothing behind them |
| RuleServer.RuleServer.Subscribe | internal/controller/ruleserver/server.go:55-63 | in every state of the system this is the server's part of a subscription, with the snapshot of the current version in hand, in one step |
| RuleServer.RuleServer.Push | internal/controller/ruleserver/server.go:185-190 | every queue with room gains the message, every full queue stays as it is |
| RuleServer.RuleServer.UpdateRules | internal/controller/ruleserver/server.go:173-192 | one protocol step: the whole list replaced, version advanced, snapshot offered; the caller's slice itself is kept |
| RuleServer.RuleServer.UpsertRule | internal/controller/ruleserver/server.go:196-226 | one protocol step: the first rule under the key overwritten in the shared array or the rule appended, delta offered |
| RuleServer.RuleServer.Append | internal/controller/ruleserver/server.go:206-208 | the rule is added behind the others, in the same array while it has room, else in a fresh one |
| RuleServer.HandedSliceIsShared | internal/controller/ruleserver/server.go:173-205 | after a caller handed a slice over, an upsert of a key it holds changes the caller's own array |
| RuleServer.RuleServer.RemoveRule | internal/controller/ruleserver/server.go:230-255 | one protocol step: the referenced rules removed, delta offered |
| RuleServer.RuleServer.CutFirst | internal/controller/ruleserver/server.go:232-237 | the first rule under the key, and only that, is removed by moving the later ones down in place |
| RuleServer.RuleServer.CutAll | internal/controller/ruleserver/server.go:404-411 | the list becomes the old list filtered by policy, in its own array, with nothing written behind it |
| RuleServer.RuleServer.TakeNext | internal/controller/ruleserver/server.go:81-85 | in every state of the system this is the server's part of a take: the oldest message moves into the handler's hand, the rest and all other queues stay |
| RuleServer.RuleServer.Unsubscribe | internal/controller/ruleserver/server.go:65-69 | in every state of the system this is the server's part of a deregistration, after which what was queued is lost for the connection |
| RuleClient.RuleClient.Store | pkg/extauth/ruleclient/client.go:156-160 | storing decoded rules one by one overlays the view of the list on the map |
| RuleClient.RuleClient.Delete | pkg/tts/ruleclient/client.go:130-136 | one reference removes its key, or every key of its policy while ranging over the map |
| RuleClient.RuleClient.DeleteAll | pkg/tts/ruleclient/client.go:130-136 | the references of a delta are removed one after the other |
| RuleClient.RuleClient.Flatten | pkg/extauth/ruleclient/client.go:171-174 | ranging over the map lists every entry once, in some order |
| RuleClient.RuleClient.Receive | pkg/extauth/ruleclient/client.go:147-177 | in every state of the system in which the message is the connection's oldest this is a receive step: the map becomes what the protocol says, the list handed over is complete, the client is ready |
| RuleClient.RuleClient.Reconnect | pkg/extauth/ruleclient/client.go:147-147 | in every state of the system the new stream starts with the map of the connection a subscription makes |
| Text.FieldsOfConcat | pkg/tts/handler.go:322-328 | words of a string with a space in it are the words before followed by the words after |
| Text.FieldsOfWord | pkg/extauth/server.go:345-349 | a string is its own only word exactly when it is non-empty and space-free |
| Text.SpacesAre | pkg/tts/handler.go:322-328 | the separating characters are the twenty-five of Unicode's White_Space property |
| Text.FieldsOfJoin | pkg/tts/handler.go:322-328 | words written with single spaces between them are read back |
| Text.SplitJoin | pkg/extauth/generate.go:177-178 | splitting undoes joining of separator-free parts |
| Text.JoinSplit | pkg/extauth/generate.go:177-178 | joining undoes splitting |
| Text.SplitConcat | pkg/extauth/generate.go:177-178 | splitting distributes over a separator |
| Text.PartsExtendIff | pkg/extauth/server.go:340-340 | a string starts with another and a separator exactly when its parts start with the other's and go on |
| Text.TrimSpec | pkg/extauth/generate.go:177-178 | trimming leaves a middle part and removes only that character around it |
| Sorting.SortIsSorted | pkg/tts/ruleclient/client.go:148-156 | sorting yields a permutation in which no later rule has a smaller key |
| Sorting.SortIsCanonical | pkg/tts/ruleclient/client.go:139-156 | whatever order a map is ranged over, any sorted permutation of its entries is one and the same strictly ordered list |
| Sorting.IssuanceKeyOrder | pkg/tts/ruleclient/client.go:148-156 | the issuance key comparison is a strict total order |
| Sorting.RuleKeyOrder | pkg/extauth/server.go:72-77 | the verification key comparison is a strict total order |
| Sorting.RuleKeyLessIff | pkg/extauth/server.go:72-77 | rules come by namespace, and within one by name |
| Sorting.IssuanceKeyLessIff | pkg/tts/ruleclient/client.go:148-156 | issuance rules come by policy namespace, policy and rule name |
| Text.StringLessIff | pkg/extauth/server.go:72-77 | a string is less when, after a common prefix, it ends first or has the smaller character |
| Issuance.CompileIssuanceRules | pkg/tts/cel.go:54-94 | all or nothing: the whole list compiled, or the error of the first rule that does not compile |
| Issuance.Compiled | pkg/tts/cel.go:54-94 | compilation succeeds exactly when every rule compiles |
| Issuance.RuleAppliesToNamespace | pkg/tts/cel.go:154-167 | cluster-wide rules always apply, targeted ones exactly to a known, listed namespace |
| Issuance.EvaluateIssuanceRules | pkg/tts/cel.go:121-145 | returns the denial of the first applicable rule that does not evaluate to true |
| Issuance.FirstDenial | pkg/tts/cel.go:121-145 | no denial exactly when every rule passes; else the denial belongs to a failing rule before which all rules pass |
| PolicyReconciler.ValidateIssuanceCel | internal/controller/policy_reconciler.go:155-183 | the batch fast path and the rule-by-rule path report the same errors |
| PolicyReconciler.NoErrorIff | internal/controller/policy_reconciler.go:155-183 | no error is reported exactly when every rule compiles on its own |
| PolicyReconciler.CleanIffNotBroken | internal/controller/policy_reconciler.go:89-99 | a name is marked broken exactly when some rule under it does not compile |
| PolicyReconciler.AppendPolicy | internal/controller/policy_reconciler.go:87-107 | the loop body appends, in order, the policy's rules whose name is not marked |
| PolicyReconciler.ResolveTargetNamespaces | internal/controller/policy_reconciler.go:130-140 | the listed names are copied; no selector and no names mean cluster-wide |
| PolicyReconciler.RebuildIssuanceRules | internal/controller/policy_reconciler.go:80-114 | the published list is that of all policies in order, each rule with its policy's name and namespaces |
| PolicyReconciler.PublishesAllCompilingIff | internal/controller/policy_reconciler.go:87-107 | a policy publishes exactly its compiling rules, in order, if and only if none of them shares its name with a broken one; distinct names suffice |
| PolicyReconciler.PublishedRulesCompile | internal/controller/policy_reconciler.go:78-79 | only compiling rules are published, whatever the policies say |
| PolicyReconciler.RebuiltIsDistinct | internal/controller/policy_reconciler.go:80-114 | with distinct names published lists have distinct keys |
| PolicyReconciler.RebuiltMembers | internal/controller/policy_reconciler.go:86-108 | with distinct names the published rules are those of all compiling rules of all policies and no others |
| IssuanceHandler.Handler.SetIssuanceRules | pkg/tts/handler.go:62-73 | the handler evaluates the given rules from arrays of its own that nobody else can reach |
| IssuanceHandler.HandOverThenMutate | pkg/tts/handler.go:58-62 | a caller that overwrites its rules and their namespaces after handing them over changes nothing |
| IssuanceHandler.SetterSetIssuanceRules | pkg/tts/ruleclient/handler_setter.go:25-46 | either the complete compilation of the list is in force, or nothing has changed; it fails exactly without a handler or when some rule does not compile |
| IssuanceHandler.QualifiedNameIff | pkg/tts/ruleclient/handler_setter.go:53-62 | with slash-free namespaces and present, slash-free policy names two rules share an identifier if and only if they have the same key or one spells out the other's namespace, policy and name |
| IssuanceHandler.QualifiedNamesCollide | pkg/tts/ruleclient/handler_setter.go:48-52 | every such rule with a namespace shares its identifier with a different rule without one |
| IssuanceHandler.TtsRuleClient.Receive | pkg/tts/ruleclient/client.go:115-164 | one message updates the map, and its sorted entries are put in force as a whole or rejected without effect; readiness is reached by acceptance only and kept |
| EndToEnd.HandlerHoldsOneWholeSet | pkg/tts/ruleclient/client.go:157-164 | after any setter calls the handler holds nothing, or the whole compilation of the last set that compiles; ready exactly when there is one |
| EndToEnd.ReadyNeverReverts | pkg/tts/ruleclient/client.go:54-57 | once ready, always ready |
| EndToEnd.AcceptedAndEvaluated | pkg/tts/ruleclient/handler_setter.go:25-46 | a list in any order is accepted exactly when all its rules compile, and then passes exactly when all its rules are satisfied |
| EndToEnd.LeastFailureIsReported | pkg/tts/ruleclient/client.go:143-156 | the reported denial is that of the least failing rule in key order, whatever the order of arrival |
| EndToEnd.HistoryIsPublished | internal/controller/policy_reconciler.go:110-112 | when the reconciler is the only publisher, every version of the server's list was built from policies |
| EndToEnd.PoliciesReachTheHandler | internal/controller/policy_reconciler.go:80-114 | in every such run no set is ever rejected, the handler evaluates the latest set received, and issuance passes exactly when the rules the server held at that version are satisfied |
| EndToEnd.PublishedRulesGateIssuance | pkg/tts/cel.go:98-146 | with distinct names, for every context the handler passes exactly when every published rule that applies evaluates to true |
| EndToEnd.DistinctNamesGateIssuance | internal/controller/policy_reconciler.go:80-140 | with distinct names, for every context the handler passes exactly when every compiling rule of every policy that has no selector, lists no names, or lists the known namespace evaluates to true |
| EndToEnd.ShadowingIsHarmlessIff | internal/controller/policy_reconciler.go:96-107 | with repeated names the decision is that of the published list, for every evaluation and context, if and only if each published rule is backed by a surviving rule with the same expression wherever it applies |
| Jwk.BytesRoundTrip | pkg/keys/manager.go:151-152 | minimal big-endian bytes give back the number |
| Jwk.Base64RoundTrip | pkg/keys/manager.go:151-165 | unpadded base64url decoding undoes encoding for every byte string |
| Jwk.JwkRoundTrip | pkg/keys/manager.go:144-174 | a key turned into a JWK and back keeps its modulus always, and its exponent if and only if that is not negative or is the least 64-bit integer |
| Jwk.PublishedForm | pkg/keys/manager.go:144-154 | a published key is an RSA signing key for RS256 under its id, and exponent 65537 is written AQAB |
| Keys.Manager.Rotate | pkg/keys/manager.go:58-69 | the current key becomes the previous one; failed generation changes nothing |
| Keys.KeyFunc | pkg/tts/local_verifier.go:55-76 | the search loop returns the first published key under the id, decoded, or the error the code gives |
| Keys.ResolveIsLookup | pkg/tts/local_verifier.go:65-75 | publishing, decoding and searching is a plain lookup among the current and the previous key |
| Keys.ResolvesForTwoGenerations | pkg/keys/manager.go:56-69 | over any rotations a key id resolves, to its own key, exactly while at most one rotation has followed |
| Keys.ForeignIdsDoNotResolve | pkg/tts/local_verifier.go:65-75 | an id that was never generated never resolves |
| KeyCache.Verifier.FetchJwks | sdk/verify/verifier.go:110-158 | a successful fetch replaces the cache by the decodable signing keys, the last one winning; a failed fetch keeps it |
| KeyCache.Verifier.KeyFunc | sdk/verify/verifier.go:76-107 | cached keys are returned without a fetch; a miss fetches once and looks again |
| KeyCache.CachedIsLive | sdk/verify/verifier.go:137-155 | a fetched key set caches exactly the live keys, each under its own id |
| KeyCache.RunCachesOnlyPublished | sdk/verify/verifier.go:76-158 | over any rotations and lookups the cache holds only keys generated under their ids |
| KeyCache.CacheAgainstLive | sdk/verify/verifier.go:76-158 | with the endpoint reachable the caching verifier yields the live key for every live id, differs from the live one exactly on cached ids that have been rotated away, and returns only keys generated under the id |
| KeyCache.NewKeysAreFound | sdk/verify/verifier.go:94-106 | after any run a fresh key is found under its id once the endpoint is reachable, and a lookup that reaches it leaves a live id cached |
| Scope.IsScopeSubset | pkg/tts/handler.go:320-331 | true exactly when every requested word is an existing word |
| Scope.ScopeContains | pkg/extauth/server.go:344-351 | true exactly when the required scope is one of the words |
| Scope.ScopeIsBroader | pkg/extauth/server.go:205-216 | true exactly when all words are covered and the count is larger |
| Scope.FindsAllBroaderIff | pkg/extauth/server.go:204-216 | every scope with all words of a given one and one more is found broader if and only if the given one repeats no word |
| Scope.FindsOnlyBroaderIff | pkg/extauth/server.go:204-216 | every scope found narrower than a given one lacks one of its words if and only if the given one repeats no word |
| Scope.BroaderIffExceeds | pkg/extauth/server.go:204-216 | between scopes without repetitions the count decides exactly whether there is an extra word |
| Scope.RepeatsMislead | pkg/extauth/server.go:215-215 | for any two words, repetition makes the count say broader where there is no extra word and deny it where there is one |
| Tokens.ClaimsRoundTrip | pkg/token/token.go:20-43 | claims written into a token are the claims read out, with times and transaction id filled in |
| Tokens.SignedTimes | pkg/token/token.go:20-30 | issue time and expiry are the signing time and the signing time plus the lifetime, rounded down to seconds: every clock up to a second before the end of the lifetime accepts, every clock from its end on rejects |
| Tokens.VerifierAcceptsIff | pkg/tts/local_verifier.go:31-52 | a verifier accepts exactly RSA-signed, unexpired tokens of its audience and type under the key their id resolves to |
| TokenRuns.VerifyIff | pkg/tts/local_verifier.go:31-52 | in every reachable state the service verifies exactly its own unexpired tokens of the last two key generations and reads back their claims |
| TokenRuns.StepKeepsInv | pkg/tts/handler.go:109-229 | rotation, rule swap, admission and signing each keep every token's place in its chain |
| TokenRuns.RunKeepsInv | pkg/tts/handler.go:109-229 | over every interleaving each token is signed as the service signs, inherits from its root, follows its parent, and no two roots share a transaction id |
| TokenRuns.AcceptedTokensDescendFromOneRoot | pkg/tts/handler.go:173-208 | after any run a token is accepted exactly when the service issued it, it is unexpired and at most one rotation followed its signing; it then has its root's txn, sub, tctx and rctx, and only words of the root's scope |
| TokenRuns.SameTransactionIff | pkg/token/token.go:20-24 | two tokens carry the same transaction id if and only if their chains have the same root |
| TokenRuns.ChainIsBounded | docs/concepts.md:141-146 | a token of depth d ends a line of d + 1 tokens from its root, each link narrowing the scope and admitted before the previous expiry |
| TokenRuns.EveryChainIsBounded | pkg/token/token.go:20-30 | after any run a chain of n tokens expires at most n lifetimes after its root was signed, rounding included, plus the time its replacements spent between admission and signing |
| TokenService.ExchangeIff | pkg/tts/handler.go:109-169 | an exchange succeeds exactly for a posted form that meets each form condition, with an authenticated subject and rules that all pass in the request's context; by field, the token carries the subject, scope, workload, parsed details and context, a fresh transaction id and the signing times |
| TokenService.ExchangeRefusals | pkg/tts/handler.go:109-156 | the first condition that fails decides the error |
| TokenService.ReplacementIff | pkg/tts/handler.go:173-229 | after any run a replacement succeeds exactly for a current token of the service and no word beyond its scope; by field, it keeps txn, sub, tctx and rctx, takes the requested scope, workload and signing times, and does not depend on issuance rules or on a rotation before signing |
| TokenService.ReplacementRefusals | pkg/tts/handler.go:173-191 | the first condition that fails decides the error |
| TokenService.EntryIsHonoured | pkg/tts/local_verifier.go:31-76 | after any run an issued token is accepted exactly before its expiry and while at most one rotation has followed |
| TokenService.ExchangeIsHonoured | pkg/tts/handler.go:109-229 | whatever happens between admission and signing and afterwards, a valid exchange whose rules pass yields a token with the request's claims that is accepted up to a second before the end of its lifetime while at most one rotation follows, and rejected after it or after two rotations |
| TokenService.ReplacementIsHonoured | pkg/tts/handler.go:173-229 | likewise a valid replacement of a current token yields a token that continues it and is accepted for a lifetime of its own, whatever happens to the presented token meanwhile |
| TokenService.OtherAudiencesReject | pkg/tts/local_verifier.go:36-36 | a token of the service is good for no other audience |
| TokenService.LastRulesStay | pkg/tts/handler.go:58-81 | the rules last set stay in force whatever else happens |
| TokenService.DeniedIsNotAdmitted | pkg/tts/handler.go:140-155 | an exchange that one of the rules last set does not let pass changes nothing |
| TokenService.Identifiers | pkg/tts/handler.go:233-251 | the grant type, token type, header type and algorithm are those of the protocol |
| TokenRuns.ReplacedFrom | pkg/tts/handler.go:180-205 | an admitted replacement continues one issued, unexpired token |
| GatewayRuns.GatewayAcceptsOnlyDescendants | sdk/verify/verifier.go:44-107 | after any interleaving of requests, rotations and key lookups, whatever a gateway accepts was issued, is unexpired and descends from one root, even under a key rotated away; a gateway that reaches the service accepts all the service accepts |
| GatewayRuns.PartsRunAlone | sdk/verify/verifier.go:76-158 | in every run the service goes through its own steps and the key cache through its own events |
| CelVerify.Compile | pkg/extauth/celverify/cel.go:62-100 | compiles all rules, or fails with the first invalid one |
| CelVerify.CompileVerificationRuleCel | pkg/extauth/server.go:93-107 | the programs of exactly the compiling expressions, in order |
| CelVerify.Evaluate | pkg/extauth/celverify/cel.go:105-139 | the denial of the first program that does not hold |
| CelVerify.ProgramsHold | pkg/extauth/celverify/cel.go:105-139 | the compiled programs hold exactly when every compiling expression holds |
| ExtAuth.Server.SetVerificationRules | pkg/extauth/server.go:70-87 | one swap to the sorted rules with their compiled programs |
| ExtAuth.StoredIsCanonical | pkg/extauth/server.go:66-77 | any two orders of arrival of the same rules store the same snapshot |
| ExtAuth.IsExcluded | pkg/extauth/server.go:309-318 | true exactly when some endpoint of some rule matches path and method |
| ExtAuth.MatchPathIff | pkg/extauth/server.go:335-341 | a pattern matches exactly the paths whose segments start with the pattern's segments |
| ExtAuth.EmptyPatternMatchesIff | pkg/extauth/server.go:335-341 | an empty pattern matches the empty path and every path that starts with a slash |
| ExtAuth.MatchesAsDocumentedIff | pkg/extauth/server.go:334-341 | code and comment agree on a request if and only if the path is not below the pattern, or for a pattern ending in a star, not below its rest or going on with a literal star |
| ExtAuth.DocumentedPatternIff | pkg/extauth/server.go:334-341 | code and comment agree on all requests if and only if the pattern contains a question mark |
| ExtAuth.StarIsNoWildcard | pkg/extauth/server.go:334-341 | base/* does not match base/x, and a pattern without a star matches below itself |
| ExtAuth.RuleExcludesIff | pkg/extauth/server.go:309-318 | a rule excludes a request exactly when one of its endpoints has the method, but for case, and a path whose segments begin the request's |
| ExtAuth.MeetsRuleIff | pkg/extauth/server.go:244-274 | a rule is met exactly when its scope is a word of the token's, its fields are in tctx, and its compiling expressions hold for the claims and the request's path, method and headers |
| ExtAuth.CheckVerificationRules | pkg/extauth/server.go:219-277 | the first failure of the first rule that is not met, checked in the order scope, fields, expressions |
| ExtAuth.CheckFields | pkg/extauth/server.go:255-262 | the first required field that is missing, with the case of no tctx at all |
| ExtAuth.StoredEnforces | pkg/extauth/server.go:219-277 | the stored snapshot lets exactly those claims pass that meet every scope, field and compiling expression of the pushed list |
| ExtAuth.StoredExcludes | pkg/extauth/server.go:309-318 | the stored snapshot excludes exactly the endpoints the pushed list excludes |
| ExtAuth.LeastFailureIsReported | pkg/extauth/server.go:66-77 | the failure reported is that of the least failing rule by namespace and name |
| Narrowing.AutoNarrow | pkg/extauth/server.go:174-202 | the loop requests the scope of the first rule that wants narrowing, and nothing without a client |
| Narrowing.LeastRuleTriggers | pkg/extauth/server.go:179-198 | narrowing is asked for exactly when some rule wants it, with the scope of the least such rule by namespace and name |
| Narrowing.NarrowingSucceeds | pkg/extauth/server.go:186-198 | after any run every auto-narrow request for a token the service still accepts succeeds, with the requested scope, strictly fewer words and the old txn, sub, tctx and rctx |
| Narrowing.NarrowingChainIsShort | pkg/extauth/server.go:204-216 | a chain of auto-narrowings loses a word per link, so it is no longer than the first scope has words, and never adds a word |
| Narrowing.NarrowedMeetsItsRuleIff | pkg/extauth/server.go:247-252 | a narrowed scope satisfies the rule that asked for it if and only if the rule's scope is a single word |
| Narrowing.NarrowedMeetsIff | pkg/extauth/server.go:219-277 | a rule that the claims meet is met by the narrowed claims if and only if its compiling expressions hold for them |
| Narrowing.NarrowingKeepsRuleIff | pkg/extauth/server.go:186-198 | whatever expressions evaluate to, narrowing keeps a token within the rule that asked for it if and only if that rule has no compiling expression, or could not be met: its scope is not one word or a field is missing |
| Narrowing.ScopeReadingRule | pkg/extauth/server.go:264-273 | expressions that accept only the old scope separate a token from its narrowed successor |
| Narrowing.NarrowedUnderOneSnapshot | pkg/extauth/server.go:158-167 | after any run, the token an auto-narrowing returns under the list its predecessor passed meets the rule that asked for it if and only if that rule's expressions hold for the new claims, and does so for every evaluation if and only if the rule has none that compiles |
| Narrowing.NarrowedScopesIff | pkg/extauth/server.go:247-252 | a narrowed token has the scopes all rules of the list require if and only if no rule requires another |
| CheckRuns.EveryAnswerIsJustified | pkg/extauth/server.go:130-170 | in every interleaving with rule swaps an allow rests on one whole list in force during the call that excludes the endpoint or is met in full by the claims the verifier returned, a denial reports the first failure under one such list, and a call is unauthenticated only without a token or a verdict |
| CheckRuns.QuietCallIsDecided | pkg/extauth/server.go:130-170 | a finished call into which no swap fell is allowed when the list excludes the endpoint, else unauthenticated exactly without token or verdict, else denied with the first failure exactly when the list is not met, else allowed, with the service's answer exactly when some rule wants narrowing |
| CheckRuns.WholeCallIsDecided | pkg/extauth/server.go:130-170 | in every state a call that takes its steps in a row finishes with that decision |
| VerificationEndToEnd.ViewIsTheList | pkg/extauth/ruleclient/client.go:195-212 | when no two rules agree in both namespace and name, the map keyed by them demands and excludes what the list does |
| VerificationEndToEnd.DistributedRulesAreEnforced | pkg/extauth/ruleclient/client.go:181-223 | in every run with safe edits a gateway enforces exactly the server's rules of the version it was handed, which for rules whose names differ is every rule of the list, and two gateways at one version store the same snapshot |
| GenerationEndToEnd.DistributedRulesAreChosen | pkg/extauth/ruleclient/client.go:137-179 | in every run with safe edits a gateway finds a rule exactly when some rule of the server's list matches, finds such a rule, and the only one if there is one |
| GatewaySystem.ListsAreHandedOver | pkg/extauth/ruleclient/client.go:215-221 | the lists ever in force at a gateway are the empty one and those its rule client was handed, in order |
| GatewaySystem.RunKeepsBacked | pkg/extauth/server.go:151-155 | over every run the claims of a call are those of its own token as the service issued it, unexpired when verified, and an answer to a narrowing request replaces that token |
| GatewaySystem.EveryAllowIsBacked | pkg/extauth/server.go:130-170 | in every interleaving of token requests, rotations, rule edits, deliveries, losses and checks, a request let through rests on one list handed over by the server that excludes the endpoint, or bears an issued, unexpired token descending from one root whose own claims meet that list; a returned token continues its transaction with no more words |
| GatewaySystem.AllowFollowsThePublishedRules | pkg/extauth/server.go:130-170 | when the server's list is only ever replaced, a request let through after rules were received is let through by the server's rules at one published version, by the list itself when its names differ, whatever was dropped |
| GatewaySystem.CallIsDecided | pkg/extauth/server.go:130-170 | in every state of the system a call that takes its steps in a row is decided by the list in force and the gateway's own verdict on the token |
| GatewaySystem.VerifyingCaches | sdk/verify/verifier.go:86-106 | after any run, verifying an RSA-signed token with the service reachable leaves the live key of its id cached |
| GatewaySystem.AnswerIsReturned | pkg/extauth/server.go:162-167 | a token the service issued for a narrowing request is returned with the allow |
| GatewaySystem.ServiceRunsAlone | pkg/tts/handler.go:109-229 | the token service takes every step it is given and is disturbed by no other |
| Endpoints.MatchEndpointPath | pkg/extauth/generate.go:169-194 | the segment loop decides the segment-wise match |
| Endpoints.MatchesIffInstance | pkg/extauth/generate.go:169-194 | a path matches exactly when, trimmed and without query, it is the trimmed pattern with each wildcard segment replaced by some slash-free string |
| Endpoints.CommentHoldsIff | pkg/extauth/generate.go:175-191 | matching as the comment says agrees with the code on all paths if and only if every opened brace of the pattern is closed or a literal segment with a question mark keeps it from matching anything |
| Endpoints.FindMatchingRule | pkg/extauth/generate.go:152-165 | the first rule whose method and path match |
| Endpoints.RuleMatchesIff | pkg/extauth/generate.go:158-163 | a rule matches exactly when the methods are equal but for case and the path is an instance of its pattern |
| Endpoints.ChoiceIgnoresOrderIff | pkg/extauth/generate.go:152-165 | the chosen rule is the same for every order of the rules if and only if at most one rule matches |
| Identity.AcceptedIffSpiffe | pkg/extauth/identity.go:44-76 | a principal yields N and S exactly when it is spiffe://td/ns/N/sa/S, possibly with further segments, all slash-free |
| Identity.RefusedIff | pkg/extauth/identity.go:45-66 | a principal is refused for the first thing missing: text, scheme, path, or the path's form |
| Identity.SubjectIsUniqueIff | pkg/extauth/identity.go:71-75 | a workload shares its subject with no other if and only if neither its namespace nor its account contains a colon |
| Identity.SubjectIsInjective | pkg/extauth/identity.go:71-75 | among colon-free namespaces the subject determines namespace and account, whatever the accounts |
| Identity.ColonCollides | pkg/extauth/identity.go:71-75 | with a colon in either part some other workload has the same subject |
| Backoff.ExtAuthWaits | pkg/extauth/ruleclient/client.go:84-102 | retry n waits min(500 * 2^n, 30000) ms, and the largest value ever computed is at most 60000 ms |
| Backoff.TtsWaits | pkg/tts/ruleclient/client.go:61-84 | the differently written loop waits the same times and its largest value is at most 60000 ms |
| Backoff.WaitGrows | pkg/extauth/ruleclient/client.go:100-100 | each wait is the doubled previous one cut at the maximum, and a doubled wait is at most 60000 ms |

## Left out

- Versions are unbounded naturals; the 64-bit counter's wrap-around is not modelled, and clients do not read versions.
- The three streams are three instances of one model; that they share a lock and a subscriber counter is not modelled.
- Receiving a message and calling the setter is one step; a setter call that outlives its connection is not modelled.
- RuleServer.RuleServer.Append: the larger copy has room for exactly one more rule; Go's growth factor is not modelled, which only decides when the next copy is made.
- Versions and their order belong to one lifetime of the server; a restart, after which versions start again, is not modelled.
- CheckRuns.EveryAnswerIsJustified: takes the verifier's verdict and the narrowing answer as given; `GatewaySystem.EveryAllowIsBacked` ties both to the token service.
- The library sorts are modelled by one sorting function; `SortIsCanonical` shows that every sort gives the same list when keys are distinct.
- The `nbf` and `iat` checks and leeway of the JWT library, RSA, SHA-256, and JWT and JSON encoding.
- Failure to create a CEL environment, and failure to convert claims for CEL.
- Lower-casing of headers for CEL; header extraction.
- Claims that are filled field by field into fresh structs are modelled as the value that results.
- `Ready` of the ext-auth client over its two streams: it would only add an easy member.
- The Go memory model for the generation server's plain rule field; a setter call is one step.
- `GenerationServer.Check`, tctx extraction from bodies and queries, enrichment.
- The pod IP cache and port stripping in pkg/extauth/identity.go.
- pkg/authn: the authenticators' answer is a parameter.
- internal/controller/rules.go and controller.go: short claims close to their branches.
- gRPC, HTTP and Kubernetes plumbing, generated code, commands, demos, charts and manifests.
