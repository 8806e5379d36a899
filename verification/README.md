# MCP gateway: a verified model

The gateway turns stored OpenAPI documents into tools, publishes the tools in a registry, and turns each tool
call into one upstream HTTP request. Around that sit an admin API over a directory of JSON files, usage statistics
that are flushed in the background, sessions over server-sent events, an OAuth2 token cache, and a browser client.
This project models these parts in Dafny and proves what they are for. `dafny verify dfyconfig.toml` checks
everything.

Code that changes state step by step is a class or a method with loops, specified by a function of the old state;
what runs concurrently is a state machine over its atomic steps, with theorems about every run; pure code is functions.

| module | part of the system |
|---|---|
| `Text`, `Percent`, `Template` | strings as Go uses them, percent-encoding, templates with placeholders |
| `PathLoop`, `Nested`, `BracedNames`, `PathStructure`, `Builder` | building the request (`proxy/builder.go`) |
| `SchemaMap`, `InputSchema`, `Extractor` | tools and schemas from a document (`spec/extractor.go`) |
| `ToolRegistry`, `Notify` | the registry, and its notifications as a protocol (`registry/registry.go`) |
| `Catalog`, `Admin` | the declarative view of the store, and the admin operations that keep it (`admin/`, `store/`) |
| `JsonFiles`, `Stats`, `Flusher` | atomic writes, the statistics cache, its flusher with crashes (`store/jsonstore.go`) |
| `Base64Url`, `Session`, `SafePath` | the admin cookie, path confinement |
| `TokenCache`, `AuthCache` | OAuth2 tokens, double-checked locking for authenticators |
| `Sse`, `InboundAuth` | sessions over server-sent events, and the credentials a message inherits |
| `McpClient`, `ToolCalls`, `ChatStorage` | the browser: pending requests, the tool-call loop, saved chats |

## What turned out

* The path of a request is the same for every iteration order of the argument map exactly when the template is flat
  (`Nested.OrderFreeIffFlat`); for `{{a}}`-like templates the order shows. Argument names come from the caller, and if
  they may contain braces themselves, the order does not matter exactly when the template has at most one '{' before a
  later '}' (`BracedNames.OrderFreeIffOnePair`).
* The built path has as many '/' as the template exactly when no bound placeholder has one in its name, and it can be
  percent-decoded whatever the arguments are exactly when the template's own escapes are complete.
* The registry's `Unsubscribe` shifts an array that a notifier may be reading. `Notify.StepKeepsIff` says exactly when
  a step loses a wakeup, and `Notify.NoWakeupIsLost` which runs never do; two runs that lose one for good are
  `Notify.ShiftLosesAWakeup` and `Notify.ReuseLosesAWakeup`.
* A failed statistics flush has already cleared the dirty flag: with nothing dirty and nothing in flight, the disk
  equals the cache exactly if the last write did not fail (`Flusher.QuietIffWritten`), and no later tick makes up for it
  (`Flusher.FailureStays`).
* `SafeJoin` with the root directory as base accepts nothing but the root itself.
* `expires_in` means what it says up to 9 223 372 036 seconds, and wraps around after that.
* A 202 from the message endpoint does not mean delivered: the response of a running handler can still be dropped
  exactly as long as the context of its session has not ended (`Sse.CanDropIff`).
* A handler can send on a closed channel and panic. No further send on a session can exactly when it has been removed
  and no handler that found it before is still running (`Sse.NoPanicAheadIff`).
* The comment on `mergeInboundAuth` promises that empty values never override; for extra headers they do
  (`InboundAuth.FallsBackIff`). The model follows the code.

## Model

| member | source | states |
|---|---|---|
| `Percent.UnescapeEscape` | proxy/builder.go:46 | percent-decoding an escaped path segment gives back its bytes (sections 2.1 and 3.3 of RFC 3986) |
| `Percent.HexValueIs` | proxy/builder.go:46 | hexadecimal digits count in either case, and nothing else does (section 2.1 of RFC 3986) |
| `Percent.EscapeOne` | proxy/builder.go:46 | letters, digits and the ten marks that may stand in a path segment escape to themselves, every other byte to '%' and its two hexadecimal digits |
| `Percent.EscapeAppend` | proxy/builder.go:46 | a value is escaped byte by byte |
| `Percent.EscapedChars` | proxy/builder.go:46 | an escaped value has no characters but letters, digits, the ten marks and '%' |
| `Text.ContainsIff` | proxy/builder.go:45 | containment is being a prefix of some suffix |
| `Text.ReplaceAllFirst` | proxy/builder.go:46 | the leftmost occurrence is replaced, and replacing goes on behind it |
| `Text.ReplaceAllAbsent` | proxy/builder.go:46 | without an occurrence nothing changes |
| `PathLoop.EscapedIsBraceFree` | proxy/builder.go:46 | an escaped value never contains a brace |
| `Template.ParsePrint` | proxy/builder.go:41-49 | a flat sequence of pieces is what its own text parses to, so a template is determined by its text |
| `Template.ReplaceAllIsSubst` | proxy/builder.go:43-46 | replacing every `{k}` as text is substitution for the placeholder `k`, and containment of `{k}` is `k` being a placeholder |
| `Template.FillTwice` | proxy/builder.go:42-49 | two substitutions in a row are one, the first binding winning |
| `PathLoop.VisitAllIsSubst` | proxy/builder.go:42-49 | after any part of any iteration order the path is the simultaneous substitution of the arguments visited, and exactly those are used up |
| `PathLoop.EveryOrderSubstitutes` | proxy/builder.go:41-49 | for a flat template and brace-free names every iteration order gives the simultaneous substitution and leaves exactly the other arguments |
| `BracedNames.OrderFreeIffOnePair` | proxy/builder.go:42-49 | over all argument maps, with braces in the names too, the path is independent of the order if and only if the template has at most one pair of a '{' and a later '}' |
| `BracedNames.BracedNamesDependOnOrder` | proxy/builder.go:42-49 | for every template with two such pairs there are arguments and two orders that build different paths |
| `BracedNames.OnePlaceholder` | proxy/builder.go:42-49 | with one pair only its own name is ever replaced, whatever the others are called |
| `Nested.OrderFreeIffFlat` | proxy/builder.go:42-49 | the path is independent of the order for all brace-free argument maps if and only if the template is flat |
| `Nested.NestedDependsOnOrder` | proxy/builder.go:42-49 | for every template that is not flat there are arguments and two orders that build different paths |
| `PathStructure.SlashCountKept` | proxy/builder.go:41-51 | the path has as many '/' as the template if and only if no placeholder that gets a value has one in its name |
| `PathStructure.SegmentsKept` | proxy/builder.go:41-51 | splitting the built path at '/' gives the template's segments, each filled in on its own |
| `PathStructure.DecodedPath` | proxy/builder.go:45-46 | percent-decoding the built path gives the decoded template with the arguments' own texts in place |
| `PathStructure.DecodedPlain` | proxy/builder.go:45-46 | a template without '%' is its own decoding, with the arguments' texts in place |
| `PathStructure.DecodableIff` | proxy/builder.go:45-46 | the built path can be percent-decoded whatever the arguments are if and only if every '%' of the template is followed by two hexadecimal digits of its own |
| `PathStructure.DecodedSegment` | proxy/builder.go:45-46 | each segment of the built path, mixed ones too, decodes to the decoded segment of the template with the arguments' own texts in place |
| `PathStructure.DecodedPlaceholder` | proxy/builder.go:45-46 | the segment that a placeholder fills decodes to exactly its argument, even with '/', '%' or braces in it |
| `Builder.SubstituteArguments` | proxy/builder.go:31-49 | the loop over the copied map computes what some order of the keys leads to |
| `Builder.Build` | proxy/builder.go:29-95 | the request is that of some iteration order, and on flat templates that of the simultaneous substitution; when each error comes, which methods have a query and which a body, and that no argument opens a query or a fragment |
| `Builder.PathChars` | proxy/builder.go:41-49 | whatever the arguments are called and in whatever order they come, the path has no characters but those of the template and those of escaped values |
| `Builder.UrlKeepsOut` | proxy/builder.go:41-51 | so no argument adds a '?', a '#' or a '/' to the URL |
| `Builder.ToUpperIs` | proxy/builder.go:53 | the method is sent with a to z as capitals and nothing else changed |
| `Builder.EndToEnd` | spec/extractor.go:81-117 | for an extracted tool whose placeholders are path parameters, and arguments that bind every name its generated input schema requires, no placeholder is left, every argument lands in exactly one of path, query and body, unchanged, and nothing else does |
| `Builder.PathParametersRequired` | spec/extractor.go:158-160 | the generated schema of a tool requires every path parameter of its operation |
| `Builder.BuiltPathDecodes` | proxy/builder.go:41-49 | whatever the order, percent-decoding the built path gives the decoded template with the arguments as they were |
| `SchemaMap.ReadWritten` | spec/extractor.go:298-419 | reading the emitted map back gives the schema with nil references pruned and empty keywords normalised, through all nesting |
| `SchemaMap.LosslessIffComplete` | spec/extractor.go:298-419 | nothing at all is lost if and only if the schema has no nil reference and no empty type list, at any depth |
| `SchemaMap.EveryKeyIsNeeded` | spec/extractor.go:298-407 | no key is written in vain: without it the map would describe another schema, but for a list of alternatives none of which has a schema |
| `InputSchema.AppendUniqueString` | spec/extractor.go:421-428 | the value is appended exactly if it is not there yet |
| `InputSchema.BuildInputSchema` | spec/extractor.go:147-199 | the loops compute the declarative schema |
| `InputSchema.LastParameterWins` | spec/extractor.go:151-157 | among parameters of one name the last one describes the property |
| `InputSchema.PropertiesAre` | spec/extractor.go:147-199 | each property comes from the body if it has one of the name, else from the last parameter of the name, and there are no others |
| `InputSchema.RequiredIsExact` | spec/extractor.go:151-186 | the required list has no repetitions and names exactly the flagged and path parameters and what the body requires, parameters first |
| `InputSchema.RequiredParametersAre` | spec/extractor.go:158-160 | a name is required by the parameters exactly if one of that name is flagged or in the path |
| `InputSchema.ParameterReads` | spec/extractor.go:278-296 | a property reads back as its parameter's schema, or as a string without one; the parameter's own description takes precedence, its own example does not |
| `InputSchema.BodyContributes` | spec/extractor.go:163-186 | a body schema with a property map contributes its properties and its required names, any other becomes the property `body`, required if the body is |
| `InputSchema.SchemaKeys` | spec/extractor.go:188-199 | the schema is of type "object", has the body's description if that is not empty, and no keys beyond these, the properties and the required names |
| `InputSchema.SchemaRequires` | spec/extractor.go:151-197 | a name is required exactly if a parameter of the name is flagged or in the path or the body requires it; the list has no repetitions and is left out if empty |
| `InputSchema.SchemaHasProperty` | spec/extractor.go:151-186 | each property of an operation: the body's, or `body` itself, or that of the last parameter of the name, and no others |
| `Extractor.ExtractPath` | spec/extractor.go:44-133 | of one path every operation gives one tool and one record, in the order GET, POST, PUT, PATCH, DELETE, HEAD |
| `Extractor.ExtractTools` | spec/extractor.go:29-136 | whatever order the paths come in, every operation of the document is visited exactly once and gives its tool and its enabled record |
| `Extractor.ToolCarries` | spec/extractor.go:65-113 | where each field of a tool comes from: the operation and the settings of the specification, the method under its own name, and the schema of path and operation parameters and the JSON body |
| `Extractor.RecordCarries` | spec/extractor.go:115-130 | and those of its record, which starts out enabled |
| `Extractor.SanitizeIs` | spec/extractor.go:138-145 | a generated name is the method and path translated character by character, less the underscores at either end |
| `Extractor.UntrimmedChar` | spec/extractor.go:138-142 | slashes and dashes become underscores, braces go, everything else stays |
| `Extractor.UntrimmedAppend` | spec/extractor.go:138-142 | so the translation of a text is that of its characters |
| `ToolRegistry.LastWinsAt` | registry/registry.go:25-29 | in the rebuilt map a name stands for the last tool of that name in the list |
| `ToolRegistry.Registry.RebuildAll` | registry/registry.go:23-34 | the map becomes that of the new tools, and every subscriber has a token |
| `ToolRegistry.Registry.List` | registry/registry.go:43-51 | every registered tool exactly once |
| `ToolRegistry.Registry.Subscribe` | registry/registry.go:53-59 | the new channel comes last, behind the others, whether the backing array grows or not |
| `ToolRegistry.Registry.Unsubscribe` | registry/registry.go:61-70 | the list loses the first occurrence of the channel and nothing else, by an in-place shift |
| `Notify.UnsubscribeLosesIffSkips` | registry/registry.go:61-79 | an in-place removal takes some other live channel out of one notifier's way if and only if that notifier has passed the removed slot and slots in use are left |
| `Notify.UninformedIffStranded` | registry/registry.go:61-79 | after an in-place removal a live channel is not informed if and only if it was stranded: behind, without a token, jumped by every notifier ahead of it and gained by none |
| `Notify.StepKeepsIff` | registry/registry.go:23-79 | a step keeps every live subscriber up to date, holding a token, or ahead of a notifier if and only if it is not an in-place removal that strands one |
| `Notify.NoWakeupIsLost` | registry/registry.go:23-79 | the runs in which no wakeup is ever lost are exactly those without such removals; in them, with no notifier in flight, every subscriber is up to date or has a token |
| `Notify.EveryoneCanCatchUp` | registry/registry.go:23-79 | from any state of such a run the notifiers in flight and the subscribers can go on until every live subscriber has read the latest version |
| `Notify.ShiftLosesAWakeup` | registry/registry.go:66 | a run in which the shift moves a live subscriber behind the notifier and its wakeup is lost |
| `Notify.ReuseLosesAWakeup` | registry/registry.go:57-66 | a run in which a new subscriber overwrites the stale slot the notifier was still to visit |
| `Notify.CodeLosesWakeups` | registry/registry.go:61-79 | a legal run from the start ends with a live subscriber that missed the last version, has no token, and no notifier left |
| `Catalog.FileLessIff` | store/jsonstore.go:126-130 | specifications come in the byte-wise order of their file names |
| `Catalog.ViewIsUnique` | admin/specs.go:243-291 | with tool names distinct within each specification the files determine the registered map |
| `Catalog.DeleteUncovers` | admin/specs.go:212-226 | once a specification is gone, a name stands for the tool of the last remaining one that offers it, and is registered exactly if there is one |
| `Catalog.CollectedIsView` | admin/specs.go:249-289 | assigning the collected tools in directory order gives the declarative view |
| `Catalog.LastOfferStands` | admin/specs.go:243-291 | with names distinct within it, what the last specification to offer a name offers under it is registered |
| `Catalog.RegisteredCarries` | admin/specs.go:262-274 | every registered tool carries the upstream and the settings that are stored for its specification |
| `Admin.Store.UpdateOperation` | store/jsonstore.go:166-178 | the first record with the id is replaced and all else stays; without one, or if the write fails, nothing changes |
| `Admin.Store.ListSpecs` | store/jsonstore.go:126-145 | exactly the stored specifications, each once, sorted by file name |
| `Admin.CollectTools` | admin/specs.go:249-287 | the loop collects exactly what the stored files offer, file by file in directory order |
| `Admin.RebuildRegistryFromStore` | admin/specs.go:243-291 | afterwards the registry is the view of the files: for each name the enabled tool of the last specification offering it |
| `Admin.Gateway.CreateFromRaw` | admin/specs.go:72-128 | the status and the files for every pattern of failing writes; on success there is one record for each operation, every tool is offered and its name registered, and the tool itself unless a later file offers the name; in every case the registry equals the view |
| `Admin.Gateway.Update` | admin/specs.go:160-210 | field by field, what the body has is stored and what it lacks stays, and nothing else changes; the registered tools of the specification carry the new settings |
| `Admin.Gateway.Delete` | admin/specs.go:212-226 | each of the two files is gone unless its deletion, whose result is ignored, fails; the registry equals the view either way |
| `Admin.Gateway.UpdateOperation` | admin/operations.go:22-61 | the first record with the id gets the flag of the body, or keeps its own if there is none; with distinct operation ids the specification then offers the tools of that operation exactly if the flag is set, and all others as before |
| `Admin.Gateway.Run` | admin/specs.go:72-226 | any finite run of create, update, delete and toggle, with any of their writes failing, keeps the registry equal to the view |
| `Admin.ToggleExactly` | admin/operations.go:36-50 | with distinct operation ids setting a flag decides about exactly one operation |
| `JsonFiles.RecordNames` | store/jsonstore.go:133-137 | names with extension ".json" are exactly those of records, and a leftover temporary file is never one |
| `JsonFiles.CrashLeavesOldOrNew` | store/jsonstore.go:92-102 | a crash at any point of a write leaves the record old or new and complete, and all others as they were |
| `JsonFiles.WriteTouches` | store/jsonstore.go:92-102 | a write touches the record and its temporary file only; after it the record has the new data and the temporary file is gone |
| `Stats.FoldCounts` | store/jsonstore.go:207-224 | an entry holds the number of calls of its operation, of failed ones, the summed latency and the time of the last |
| `Stats.OneMoreCall` | store/jsonstore.go:207-224 | what one more call adds to its operation's entry, and that the others keep theirs |
| `Stats.CountsAre` | store/jsonstore.go:207-224 | over any history the calls and errors of an operation are the numbers of its events and of those that failed |
| `Stats.ErrorsNeverExceedCalls` | store/jsonstore.go:216-219 | after any history no operation has more errors than calls |
| `Stats.StatsCache.Increment` | store/jsonstore.go:207-224 | the table becomes that of one more event, in place, and is dirty |
| `Stats.StatsCache.Copy` | store/jsonstore.go:226-236 | the copy has equal contents and shares no entry with the cache |
| `Stats.StatsCache.BeginFlush` | store/jsonstore.go:68-80 | if dirty, a deep copy is taken and the flag cleared; the cache is unchanged |
| `Stats.StatsCache.CopyThenIncrement` | store/jsonstore.go:74-80 | a copy keeps its contents while the cache moves on |
| `Flusher.CacheAndDisk` | store/jsonstore.go:53-102 | over all interleavings, failures and crashes the cache is the fold of the whole history and the disk the fold of a prefix, with errors never above calls |
| `Flusher.DiskOnlyGrows` | store/jsonstore.go:68-84 | over any continuation of any run the part of the history on disk only grows, through failures and crashes |
| `Flusher.DiskGrowsByOne` | store/jsonstore.go:82-83 | what a step puts on disk is a table the flusher copied |
| `Flusher.QuietIffWritten` | store/jsonstore.go:79-83 | with nothing dirty and no flush in flight, disk equals cache if and only if the last write did not fail |
| `Flusher.CloseIsDurable` | store/jsonstore.go:53-90 | after the flusher has exited the disk covers every event before `Close`, unless its last write failed |
| `Flusher.RestartReloadsFlushed` | store/jsonstore.go:42-50 | a crash at any moment reloads exactly the last table renamed into place |
| `Flusher.FailureStays` | store/jsonstore.go:79-83 | after a failed flush the store stays quiet with disk and cache apart through any later ticks and `Close`, until a new event comes; a crash then loses what is missing |
| `Flusher.FailureIsSilent` | store/jsonstore.go:79-83 | such a failure is reached by one event, one tick and one failing write, and the next tick does nothing |
| `Flusher.CanFinish` | store/jsonstore.go:53-90 | unless a failed write has been forgotten already, a running store can always be closed in such a way that the disk has everything |
| `Base64Url.DecodeEncode` | admin/session.go:20-47 | base64url decoding inverts encoding on all byte strings (section 5 of RFC 4648) |
| `Base64Url.AlphabetIs` | admin/session.go:20-47 | the alphabet of the URL-safe variant, in order (section 5 of RFC 4648) |
| `Base64Url.DecodesIffGrouped` | admin/session.go:47-50 | what decodes, exactly: groups of four from the alphabet, with padding in the last two places only |
| `Base64Url.EncodeDecode` | admin/session.go:47-50 | encoding what a text decodes to gives the text again, but for bits left over before the padding |
| `Session.ParseFormat` | admin/session.go:20-51 | decimal parsing inverts formatting exactly on the 64-bit numbers |
| `Session.DigitsAre` | admin/session.go:20 | numbers are written in base ten, the most significant digit first |
| `Session.ParseIntIff` | admin/session.go:51-54 | what is read as a number, exactly: an optional sign, any number of zeros and the digits of a 64-bit number |
| `Session.AcceptedIff` | admin/session.go:34-56 | which cookie values are accepted, exactly |
| `Session.CookieAcceptedIff` | admin/session.go:18-56 | a cookie made with one secret and checked with another is accepted exactly while its 64-bit expiry is ahead and both secrets hash its payload alike |
| `Session.SessionLifetime` | admin/session.go:18-56 | with one secret a session is valid exactly until its lifetime has passed |
| `SafePath.CleanTwice` | store/pathutil.go:16-20 | cleaning a clean path changes nothing, and its components are neither empty nor "." nor ".." |
| `SafePath.CleanEmpty` | store/pathutil.go:16-20 | the empty path is the root, and ".." stays there |
| `SafePath.CleanStays` | store/pathutil.go:16-20 | a last part that is empty or "." leads nowhere |
| `SafePath.CleanDown` | store/pathutil.go:16-20 | a name leads one level down |
| `SafePath.CleanUp` | store/pathutil.go:16-20 | ".." takes the name before it away, and stays at the root |
| `SafePath.AbsOfNames` | store/pathutil.go:16 | an absolute base is its own clean path, a relative one lies in the working directory |
| `SafePath.PrefixIffBelow` | store/pathutil.go:23 | the string-prefix test with its separator is the component-prefix test |
| `SafePath.SafeJoinIff` | store/pathutil.go:12-27 | what is accepted, exactly: the components of the cleaned join extend the base's (below the root: only the root), and the result is that clean path |
| `SafePath.UpAndDown` | store/pathutil.go:12-27 | an input that goes up any number of times and then down is accepted exactly if its names lead back into the base |
| `SafePath.ParentIsRefused` | store/pathutil.go:12-27 | ".." is refused for every base but the root |
| `TokenCache.LifetimeExact` | auth/oauth2.go:110-118 | positive seconds, from `expires_in` (section 5.1 of RFC 6749) or configured, are taken at their word if and only if they fit the 64-bit duration |
| `TokenCache.LifetimeWraps` | auth/oauth2.go:110-118 | in all cases the lifetime is the seconds of the reply, or the configured ones if it gives none, in nanoseconds and reduced to 64 bits |
| `TokenCache.OAuth2Auth.GetToken` | auth/oauth2.go:66-75 | the cached token while more than 30 s remain, else a fetch, under the mutex |
| `TokenCache.OAuth2Auth.FetchToken` | auth/oauth2.go:77-121 | a token that is issued is returned and cached with its lifetime; every failure leaves the cache as it was |
| `TokenCache.CachedIsLastFetched` | auth/oauth2.go:66-121 | over any run the cache holds the token of the last successful fetch |
| `TokenCache.TokenIsFresh` | auth/oauth2.go:66-121 | what a call returns after any run: the last fetched token while more than 30 s remain, else a new one, else an error |
| `TokenCache.FetchRate` | auth/oauth2.go:66-121 | if lifetimes are at least L, n successful fetches in a row take at least (n-1)(L-30 s) |
| `Sse.NextKeepsInv` | mcp/sse.go:36-150 | every step of sessions and handlers keeps the invariant of table, channels and outcomes |
| `Sse.StreamIsAcceptedInOrder` | mcp/sse.go:43-101 | until the channel is closed what is written and what waits are the accepted responses in order, at most 64 wait, and the stream always got a prefix |
| `Sse.EachResponseOnce` | mcp/sse.go:138-140 | an accepted response is there once, in the session it was addressed to, and was sent by its handler |
| `Sse.SentIffAccepted` | mcp/sse.go:138-149 | a handler ends with its response sent if and only if it is written, waiting, or thrown away at closing |
| `Sse.DeliveredIsResponse` | mcp/sse.go:112-140 | what is in a session's channel or stream is word for word the one response of a handler that looked up this session and no other |
| `Sse.CanBeWritten` | mcp/sse.go:66-101 | as long as the stream is served, everything accepted can be written to it |
| `Sse.RemovedForGood` | mcp/sse.go:53-64 | once a session is removed every later lookup of its id, in any continuation, is not found |
| `Sse.NoPanicAheadIff` | mcp/sse.go:53-64 | no further send on a session can panic, in any continuation of any run, if and only if the session has been removed and no handler holds it |
| `Sse.PanicsNeedAnEarlierLookup` | mcp/sse.go:112-140 | once a session is removed and no handler holds it, the sends on it that have panicked stay the same |
| `Sse.SendCanPanic` | mcp/sse.go:53-64 | from every reachable state in which a handler holds a session, in whatever phase and with its response ready or not, a run leads to a send on its closed channel |
| `Sse.CanDropIff` | mcp/sse.go:138-149 | the request of a running handler can still end with 202 and its response dropped if and only if the context of its session has not ended |
| `Sse.DropsNowIff` | mcp/sse.go:139-147 | the next step can drop a response if and only if its handler is sending to a session that is full, open, and whose context has not ended |
| `Sse.AcceptedButDropped` | mcp/sse.go:145-149 | then the handler has answered 202 and its response is in no session's channel or stream |
| `Sse.DroppedIsNowhere` | mcp/sse.go:145-149 | a dropped response is in no session's channel or stream in any reachable state |
| `InboundAuth.Merge` | mcp/sse.go:186-210 | the loops compute the merge, in whatever order the maps are ranged over |
| `InboundAuth.MergedAssociates` | mcp/sse.go:186-210 | merging is associative |
| `InboundAuth.FallsBackIff` | mcp/sse.go:186-210 | what the message brings wins; an empty extra header falls back to the session's exactly if that is empty or absent too; the named headers always do |
| `McpClient.Client.SendRequest` | ui/src/lib/mcp-client.ts:157-174 | a fresh id, registered in both tables under the new promise, with its timer |
| `McpClient.Client.OnMessage` | ui/src/lib/mcp-client.ts:129-148 | the state after a message is that of the specification step, whatever arrives |
| `McpClient.Client.OnTimer` | ui/src/lib/mcp-client.ts:167-173 | a timer settles its promise exactly if the id is still pending |
| `McpClient.TablesAgree` | ui/src/lib/mcp-client.ts:71-73 | over any order of events the two tables are equal, ids are taken one after the other and never reused, no promise is called twice, and one whose timer has fired has been called |
| `McpClient.SettledByTheFirst` | ui/src/lib/mcp-client.ts:129-175 | each promise is settled by the first of its answer and its timer: rejected by an error, resolved by anything else |
| `McpClient.ReadyByTheFirst` | ui/src/lib/mcp-client.ts:142-155 | the client's own promise opens with a greeting or after two seconds and breaks with a connection error, whichever comes first |
| `ToolCalls.Reassemble` | ui/src/pages/Chat.tsx:387-413 | the two loops compute the concatenated content and the fold of the fragments |
| `ToolCalls.LastFragment` | ui/src/pages/Chat.tsx:396-413 | what one more chunk adds to the content, and one more fragment to the call of its index: a new id replaces the old one, name and arguments are appended |
| `ToolCalls.EachIndexAlone` | ui/src/pages/Chat.tsx:404-411 | each index holds the last non-empty id and the concatenated names and arguments of its own fragments |
| `ToolCalls.InterleavingDoesNotMatter` | ui/src/pages/Chat.tsx:404-411 | the result depends only on the order of fragments within each index |
| `ToolCalls.FragmentsReassemble` | ui/src/pages/Chat.tsx:396-413 | any fragmentation of calls under any set of indices gives back the calls |
| `ToolCalls.CallsComeBack` | ui/src/pages/Chat.tsx:396-418 | any list of calls, fragmented and interleaved in any way, comes back in order |
| `ToolCalls.ValuesAt` | ui/src/pages/Chat.tsx:418 | each index contributes its call, at the place that the number of smaller indices gives it |
| `ToolCalls.Converse` | ui/src/pages/Chat.tsx:377-453 | the n-th request carries the history after n turns, and what is left behind is the history after all turns taken; it goes on until a turn ends it |
| `ToolCalls.TurnMessages` | ui/src/pages/Chat.tsx:418-450 | what a turn adds behind the messages that were there: what was said and called, and for each call its own answer, the text its tool returned for its name and arguments, or why it failed |
| `ToolCalls.EndsIffNoCalls` | ui/src/pages/Chat.tsx:418-424 | a turn ends the loop if and only if its stream calls no tools |
| `ToolCalls.HistoryAnswered` | ui/src/pages/Chat.tsx:418-450 | after any number of turns, tools failing or not, every tool call in the history is answered in order |
| `ToolCalls.RequestsAnswered` | ui/src/pages/Chat.tsx:389-394 | so it is in every history that is sent to the model |
| `ToolCalls.CallsAreAnswered` | ui/src/pages/Chat.tsx:424-450 | in such a history an assistant message with calls is directly followed by one tool message per id, in its order |
| `ToolCalls.ToolsWereCalled` | ui/src/pages/Chat.tsx:431-450 | and every tool message belongs to a call shortly before it |
| `AuthCache.NextKeepsInv` | mcp/handlers.go:167-194 | every step of any number of callers keeps mutual exclusion and the bookkeeping of what is made and installed |
| `AuthCache.OneAuthenticatorPerSpec` | mcp/handlers.go:167-194 | for one spec at most one authenticator is ever made, and all callers that get one get that |
| `AuthCache.InstalledForever` | mcp/handlers.go:192 | what is installed is never replaced or removed, over any continuation |
| `AuthCache.BuildDecides` | mcp/handlers.go:180-193 | a call ends without an authenticator exactly if it was the one to make it and that failed; if that succeeded it ends with one |
| `AuthCache.NoRace` | mcp/handlers.go:168-177 | while one caller writes the map no other reads or writes it |
| `AuthCache.SomebodyCanMove` | mcp/handlers.go:167-194 | no deadlock: while a call has not returned some call can take a step |
| `AuthCache.EveryCallCanReturn` | mcp/handlers.go:167-194 | in every reachable state every call can be brought to its end, whatever the others are doing |
| `AuthCache.RefinesGetOrCreate` | mcp/handlers.go:167-194 | each step is one atomic get-or-create, in which a failure changes nothing, or is invisible |
| `ChatStorage.SortStable` | ui/src/lib/chat-storage.ts:28 | sorting keeps the order of elements with equal times (section 23.1.3.30 of ECMA-262) |
| `ChatStorage.SortedIsUnique` | ui/src/lib/chat-storage.ts:28 | there is only one stable sort of a list |
| `ChatStorage.LocalStorage.SaveSession` | ui/src/lib/chat-storage.ts:34-46 | search, replace or prepend, sort, cut to fifty; a failing write changes nothing |
| `ChatStorage.LocalStorage.DeleteSession` | ui/src/lib/chat-storage.ts:48-51 | what is left is the loaded list without the id |
| `ChatStorage.StorageStaysGood` | ui/src/lib/chat-storage.ts:34-51 | over any run of saves and deletes ids are unique, the list is sorted and has at most fifty entries, and loads return it as stored |
| `ChatStorage.NothingNewerDropped` | ui/src/lib/chat-storage.ts:42-44 | a save keeps only old entries and the new one, all of them up to fifty, and drops nothing newer than what it keeps |
| `ChatStorage.DeletedIsGone` | ui/src/lib/chat-storage.ts:48-51 | a delete takes the entry with the id away and no other; a failing write changes nothing |
| `ChatStorage.SavedIsKeptIff` | ui/src/lib/chat-storage.ts:36-44 | a save is kept if and only if its id was there or fewer than fifty entries are strictly newer |
| `ChatStorage.LoadedIsLatest` | ui/src/lib/chat-storage.ts:23-51 | whatever is loaded is the latest version saved and not deleted since |

## Left out

- HTTP routing, handlers' JSON bodies, CORS, login pages, TLS, telemetry, configuration, command line: plumbing.
- Parsing and validation of OpenAPI documents: a stored record holds either a parsed document or none.
- `%v` formatting, JSON encoding of bodies, URL checks of `net/url` and `net/http`, HMAC: parameters or identity on texts.
- `Builder.Build`: a query string already in the template's URL, which `req.URL.Query` would merge, is not modelled; `strings.ToUpper` is ASCII only; headers and `ApplyChain` are left out.
- The resource half of the registry repeats the argument about tools in an easier form.
- `Extractor.ExtractTools`: output schemas of tools are not modelled.
- `Extractor.ExtractPath`: output schemas of tools are not modelled.
- `SchemaMap.ReadWritten`: schemas are finite trees, so cyclic references, on which the code does not terminate, have no counterpart; the branch for a nil schema is never reached from its callers; keywords are an enumeration.
- `Admin.Gateway.CreateFromRaw`: name and upstream are taken as given, not filled in from the document, and timestamps are left out.
- `Admin.Store.ListSpecs`: an unreadable directory (an error) or record file (skipped) is not modelled.
- `Admin.RebuildRegistryFromStore`: so the early return on a listing error is not modelled; two rebuilds at once are not either, and a slower one can install an older view; the resources are left out.
- `Admin.Gateway.Update`: the time of update and a body that is not JSON are left out.
- `Admin.Gateway.UpdateOperation`: a body that is not JSON is left out.
- `Admin.Gateway.Delete`: the authentication file is not modelled. Which writes and removals fail is a parameter of every admin operation.
- Generated tool names are not injective (`sanitizeName` merges characters); `Catalog.ViewIsUnique` and `Catalog.DeleteUncovers` therefore require names distinct within a specification.
- `Stats.StatsCache.Increment`: counters are unbounded integers, without 64-bit wrap-around.
- `Flusher.CacheAndDisk`: the bytes of the statistics file are its table; a file that another program damaged, which the code replaces by an empty table, is not modelled.
- `SafePath.SafeJoinIff`: symbolic links are not followed by the code and not modelled; the working directory is taken to be absolute.
- `TokenCache.FetchRate`: one clock that does not run backwards, and no saturation of `time.Time`.
- `Flusher`, `Notify`, `Sse`, `AuthCache`: concurrent code, modelled as state machines over atomic steps and not as methods; fairness and time are left out.
- Heartbeats and list-changed notifications on an SSE stream carry no response and are left out; `captureInboundAuth` reads one request's headers and is left out.
- `McpClient.Client.OnMessage`: what the two transports do with a result (the SSE branch passes on the whole envelope) and the promise of the client itself beyond its first outcome are left out; ids are unbounded integers.
- `ToolCalls.Converse`: a history is a list that grows at its end; indices are natural numbers below the array-index limit of ECMA-262, where `Object.values` sorts them; parsing of arguments, display and saving are left out; the model's turns are given in advance, and with each of them how a call would end, by its number, name and argument text.
- `ChatStorage.LocalStorage.SaveSession`: times are integers, and what other scripts put under the key is only told apart as missing, no list, or a list.
