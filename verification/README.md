# Verified model of the MCP SearXNG proxy

A Dafny model of the parts of the server whose behaviour is hard to see from one function: the two-tier
rate limiter with its forgetful client map and its mutex, the slog handler that flattens nested groups, the
redaction of credentials in log lines, the middleware chain with its gauge, start and shutdown, and the
upstream query.

- `Wrappers.dfy`, `Sequences.dfy`: the option type, and a law of concatenation.
- `TokenBucket.dfy`: one token bucket as an object and as a value; conservation, window bound, greedy optimality.
- `RateLimiting.dfy`: the two-tier limiter as a state machine over timed requests and evictions.
- `Decomposition.dfy`: the limiter taken apart into independent buckets.
- `EvictionTransparency.dfy`: when forgetting idle clients can be noticed, and exactly when it cannot.
- `WindowBounds.dfy`, `BoundedMemory.dfy`: bounds on admissions in any window, and on the client map.
- `RateLimiter.dfy`: the limiter object with its mutable map, proved to be that state machine.
- `MutexRefinement.dfy`: threads stepping through the critical section; every interleaving is a sequential run.
- `Server.dfy`: what follows for the rates, bursts and times the server is wired with.
- `SlogFields.dfy`, `Slices.dfy`, `SlogHandler.dfy`: the handler as a value, Go slices over shared arrays, and
  the handler object on top of them.
- `RedactUrl.dfy`, `Sanitize.dfy`, `RedactArgs.dfy`, `RedactStruct.dfy`: redaction of free text, stripping and
  UTF-8, the access-log pipeline, and redaction by struct annotation.
- `Middleware.dfy`, `Gauge.dfy`, `Lifecycle.dfy`: what reaches the MCP handler, the active-requests gauge under
  panics, and shutdown.
- `SearchQuery.dfy`: tool input to query multimap and back.

`dafny verify dfyconfig.toml` checks everything.

Time is counted in nanoseconds and tokens in billionths of a token, so a rate of `limit` tokens a second refills
`limit` units a nanosecond and all bucket arithmetic is exact. The ideal limiter, which never forgets a client, is
the same state machine with lifetime `Forever`.

The limiter reads the clock several times under its lock, and the model does too: a request carries the times at which
it paid the global tier, was noted as the client's last visit and was charged to the client's bucket, and an eviction
carries the reading it took for each entry. The clock is monotone and otherwise arbitrary. Where the time spent between
the first and the last reading of one request matters, it is bounded by a parameter, `lag`.

## Where the code differs from what is said about it

- `RedactURL` is described as making sure that a secret can never reach the logs (handlers/redact.go:26-28). One pass
  is not enough when a userinfo repeats the at-sign: `http://a@b@c` becomes `http://b@c`
  (`RedactUrl.OnePassCanLeak`). `RedactUrl.LeftoverExactly` gives the exact condition. `RedactArgs.LineShowsExactly` says
  when a log line shows any of what is left, and `RedactArgs.LineLeaksExactly` when it shows it with its at-sign; that
  these differ is `RedactArgs.CutOffCredentials`.
- `RedactStruct` is described as copying non-secret fields through unchanged (handlers/redact.go:56-57). Unexported
  fields become zero, those of nested structs too. `RedactStruct.UnchangedExactly` says which values come through, and
  `RedactStruct.AlwaysUnchangedExactly` which types always do.
- `awaitAndShutdown` is described as a graceful shutdown (cmd/server/main.go:398-400). Its context derives from the one
  the signal cancels, so a server's connections are waited for only if no signal, and no time limit, comes before its
  shutdown is called (`Lifecycle.ExpiredExactly`). After a signal they never are (`Lifecycle.SignalDoesNotDrain`), and
  after a server error they are not if a signal follows in time (`Lifecycle.ErrorThenSignal`).
- Stale clients can be evicted without anyone noticing, whatever the global tier, only if a full burst refills within the
  time to live. The server's bursts do; `EvictionTransparency.UnobservableExactly` is the exact condition, and also the
  exact one for clients keeping to their share (`WindowBounds.KeepsToShareExactly`). Because the client's bucket is
  charged after the visit is noted, the condition asks for up to one more token than the burst
  (`EvictionTransparency.RefillsInTimeExactly`). Behind a global tier that lets no more through than one client may
  have, eviction is never noticed (`EvictionTransparency.UnobservableBehindNarrowGlobal`).
- The comment on `SanitizeLog` (handlers/middleware.go:119-122) leaves the line feed out of the characters removed;
  the code removes it, and so does the model.

## Model

| member | source | states |
|---|---|---|
| TokenBucket.Limiter.Allow | handlers/ratelimit.go:100-119 | the bucket each tier asks: one token is taken if the refilled level, capped at the burst, holds one; a refusal keeps the state |
| TokenBucket.SpendingIsFunded | handlers/ratelimit.go:94-120 | over any arrivals, tokens handed out plus the level left never exceed the level at the start plus the refill |
| TokenBucket.GreedyIsOptimal | handlers/ratelimit.go:104-119 | at every prefix of every arrival sequence a bucket admits at least as many as any selection its rate and burst can pay for |
| TokenBucket.GreedyIsFeasible | handlers/ratelimit.go:104-119 | and its own choices are such a selection, so the bound is met |
| Decomposition.GlobalTierIsABucket | handlers/ratelimit.go:100-102 | in every run the global bucket is a lone bucket over all request times; clients and eviction have no say in it |
| Decomposition.ClientTierIsABucket | handlers/ratelimit.go:104-119 | without forgetting, a client's bucket and admissions depend only on the times at which it passed the global tier |
| EvictionTransparency.EvictionUnobservable | handlers/ratelimit.go:94-133 | if a burst refills within the time to live, every answer of every timed run with evictions equals that of a limiter that never forgets, whatever the clock readings of requests that take at most `lag` |
| EvictionTransparency.EvictionObservable | handlers/ratelimit.go:124-133 | otherwise some run of such requests is answered differently, behind any global tier with a token for every event of it |
| EvictionTransparency.UnobservableExactly | handlers/ratelimit.go:94-133 | for every `lag`, forgetting is unnoticeable behind every global tier if and only if what refills until the eviction, less the token taken late, covers the burst |
| EvictionTransparency.RefillsInTimeExactly | handlers/ratelimit.go:94-133 | the condition in numbers: the lifetime refills the burst and up to one token more, and a token comes in after the lag |
| EvictionTransparency.SafeBurstExactly | handlers/ratelimit.go:42-57 | with the source's half hour a burst is safe up to 1800 times the rate plus what the last nanosecond refills less the token taken late, in whole tokens; the default burst is safe whenever any is |
| EvictionTransparency.SafeBurstInSeconds | handlers/ratelimit.go:42-57 | for rates below a billion that is 1800 times the rate if requests take no time under the lock, and one less if they do |
| EvictionTransparency.ClientTierNeverRefuses | handlers/ratelimit.go:100-119 | the client tier refuses no one if its rate and burst exceed those of the global tier by what a lag can shift |
| EvictionTransparency.UnobservableBehindNarrowGlobal | handlers/ratelimit.go:94-133 | then eviction is unnoticeable for any time to live |
| WindowBounds.TokensSpent | handlers/ratelimit.go:100-119 | global tokens spent are the admissions plus the refusals of the client tier |
| WindowBounds.GlobalWindowBound | handlers/ratelimit.go:96-133 | in every window of every run at most burst + limit * window requests are admitted |
| WindowBounds.ClientIsIsolated | handlers/ratelimit.go:104-133 | whatever others do and however often it is forgotten, a client is admitted as by one bucket of its own |
| WindowBounds.ClientsDoNotInterfere | handlers/ratelimit.go:104-119 | two runs in which a client passes the global tier at the same times admit it equally often |
| WindowBounds.ClientWindowBound | handlers/ratelimit.go:104-133 | one client gets at most its burst + limit * window in any window, even if it is evicted and made anew inside it |
| WindowBounds.ClientTierIsOptimal | handlers/ratelimit.go:104-119 | no other choice among a client's passes, at its rate and burst, serves more of them |
| WindowBounds.ForgottenClientExceedsItsShare | handlers/ratelimit.go:124-133 | when the burst does not refill in time, for whatever `lag`, a forgotten client exceeds its window bound |
| WindowBounds.KeepsToShareExactly | handlers/ratelimit.go:94-133 | for every `lag`, all clients keep to burst + limit * window in all windows behind every global tier if and only if the burst refills in time |
| BoundedMemory.ClientsAreBounded | handlers/ratelimit.go:104-150 | if the map was cleaned within an interval, it holds at most burst + limit * (ttl + interval) clients of the global tier and one that had paid just before |
| BoundedMemory.FirstClientsAreBounded | handlers/ratelimit.go:104-150 | until the first eviction is due the same holds without any |
| BoundedMemory.BoundIsReached | handlers/ratelimit.go:100-117 | a run in which the map holds exactly that many, the one included |
| BoundedMemory.PromptClientsAreBounded | handlers/ratelimit.go:104-150 | without that one, if requests take at most `lag` and the period is longer by that |
| RateLimiter.RateLimiter.constructor | handlers/ratelimit.go:72-86 | a new limiter is the initial state for its configuration, default burst included |
| RateLimiter.RateLimiter.Allow | handlers/ratelimit.go:96-120 | on the object graph, one call is one step of the state machine for the three times the clock showed, and answers whether it admits |
| RateLimiter.RateLimiter.Lookup | handlers/ratelimit.go:104-117 | the client's record is found or made full, its visit noted, and no other record changes |
| RateLimiter.RateLimiter.NewClient | handlers/ratelimit.go:106-113 | a new client's bucket is full and runs at the configured rate, default burst included |
| RateLimiter.RateLimiter.EvictExpired | handlers/ratelimit.go:124-133 | the deleting loop, in any order of the map and with a clock reading for each entry, leaves exactly the records that were not older than the time to live when looked at |
| RateLimiter.Drive | handlers/ratelimit.go:72-133 | a limiter object driven through any calls, whatever the clock shows, answers as the state machine on a timed run of them, and, if bursts refill in time, as one that never forgets |
| MutexRefinement.Linearizable | handlers/ratelimit.go:96-133 | whenever the lock is free, state and answers are those of a sequential timed run of the calls, each once, in lock order, although each statement reads the clock anew |
| MutexRefinement.EveryRunHappens | handlers/ratelimit.go:96-133 | conversely every sequential timed run, as the machine would write it down, is what some interleaving does |
| MutexRefinement.RealTimeOrder | handlers/ratelimit.go:96-98 | that order puts a call that has returned before every call that begins later |
| MutexRefinement.AnswersAreIdeal | handlers/ratelimit.go:94-133 | in every interleaving each thread is told what a limiter that never forgets would have told it, if bursts refill in time |
| MutexRefinement.ThreadsKeepToBound | handlers/ratelimit.go:96-133 | in every interleaving and window at most burst + limit * window threads are let through |
| MutexRefinement.ThreadsKeepToShare | handlers/ratelimit.go:96-133 | and of those asking for one client at most its own burst + limit * window |
| MutexRefinement.ThreadsKeepMapBounded | handlers/ratelimit.go:96-150 | in every state of every interleaving, also inside a critical section, the map keeps to the sequential bound |
| MutexRefinement.HolderAdvances | handlers/ratelimit.go:97-119 | every statement under the lock brings its holder closer to the unlock, on every path, and meanwhile no other thread touches the limiter or moves the holder |
| MutexRefinement.HolderCanMove | handlers/ratelimit.go:125-133 | the holder can always take its next statement |
| MutexRefinement.EveryCallCanReturn | handlers/ratelimit.go:96-133 | nothing is ever stuck: from every reachable state every call can still run to its return |
| Server.ServerForgetsUnnoticed | cmd/server/main.go:340-345 | with bursts of twice the rates, wired or left to the default, eviction is never noticeable as long as no request holds the lock for almost half an hour |
| Server.ServerBounds | cmd/server/main.go:337-359 | in any stretch of s seconds at most (s + 2) * rate requests are admitted, and at most a hundred times as many messages pass |
| Server.ServerClientBounds | cmd/server/main.go:337-359 | the same of each client against its own rate, evicted in between or not |
| Server.ServerMapIsBounded | handlers/ratelimit.go:46-49 | with the source's times the client map holds at most 2402 times the global rate and one more; not that one if requests take less time than a token takes to come in |
| SlogFields.DerivingIsNesting | logging/slog.go:63-126 | any chain of WithAttrs and WithGroup emits, for every record, the line the base handler emits for the record with the equivalent nested groups |
| SlogFields.LineHoldsLastLeaves | logging/slog.go:63-82 | for every key the level and a set time win, otherwise the last leaf in traversal order, and there are no other keys |
| SlogFields.LineIsWritten | logging/slog.go:63-82 | the whole line, written down without paths or leaves: bound attributes under the groups they were bound in, the record's under the open groups, stamps last, with message and level by the numeric thresholds |
| SlogFields.OneAttributeOneField | logging/slog.go:109-126 | one attribute in any groups within any open groups gives one field named by all of them in order |
| SlogFields.BoundAndOwn | logging/slog.go:84-105 | a bound attribute and one of a later record stand each under the groups open where it came in, and the record's is written last |
| SlogFields.LevelRoundsDown | logging/slog.go:12-23 | a level is logged as the highest named one it reaches, and as Debug if it reaches none |
| SlogFields.SameKeyExactly | logging/slog.go:121-125 | two paths meet in one dotted key if and only if their elements fall into the same pieces at the dots |
| SlogFields.LeafShownExactly | logging/slog.go:63-126 | for any names, a leaf's key shows its payload if and only if no stamp takes the key and the last leaf with the same pieces has that payload |
| SlogFields.SplitUndoesJoin | logging/slog.go:121-125 | with dot-free parts the dotted key determines the path |
| SlogFields.NoAttributeLost | logging/slog.go:109-126 | with dot-free names a leaf is overwritten only by a later leaf at the same path or by a stamp |
| SlogFields.DotsCanLoseAttributes | logging/slog.go:121-125 | without that proviso a dotted key and a nested one meet and only the later is forwarded |
| SlogHandler.AppendAttr | logging/slog.go:109-126 | the recursive writes into the shared field map put exactly the attribute's leaves, in order, which `SlogFields.WrittenOneIsPut` says are the keys the groups spell |
| SlogHandler.LogrusHandler.WithAttrs | logging/slog.go:86-94 | the child means the parent plus the new attributes bound to the open path, and nothing that existed is written |
| SlogHandler.LogrusHandler.WithGroup | logging/slog.go:98-105 | the child's path is the parent's plus the name; an empty name gives the same handler; nothing that existed is written |
| SlogHandler.LogrusHandler.Handle | logging/slog.go:63-82 | the object emits the line its value means, which `SlogFields.LineIsWritten` spells out |
| SlogHandler.Family | logging/slog.go:84-126 | any mix of children derived from one parent, each used, disturbs neither the parent nor each other despite shared slices |
| SlogHandler.Chain | logging/slog.go:84-126 | a chain of real derivations emits what the first handler emits for the nested record |
| RedactUrl.PatternMatchesExactly | handlers/redact.go:24 | at every position the words of the pattern are one match or none, and the scan finds just that |
| RedactUrl.MatchesAreDisjoint | handlers/redact.go:24 | matches of the pattern are pairwise disjoint |
| RedactUrl.RemovesExactlyUserinfo | handlers/redact.go:29-31 | the scan removes the userinfo of every match there is and nothing else, and keeps the rest in order |
| RedactUrl.SchemesKept | handlers/redact.go:29-31 | the rewrite neither makes nor removes a scheme |
| RedactUrl.LeftoverExactly | handlers/redact.go:24-31 | the result still has a match if and only if some match was directly followed by another run that ends in an at-sign |
| RedactUrl.IdempotentExactly | handlers/redact.go:24-31 | a second pass changes something exactly then |
| RedactUrl.ShrinksOrStays | handlers/redact.go:26-31 | text without a match is unchanged, any other gets shorter |
| RedactUrl.RepetitionCleans | handlers/redact.go:29-31 | repeating the rewrite reaches a text without a match |
| RedactUrl.OnePassCanLeak | handlers/redact.go:24-31 | one pass can leave credentials behind |
| Sanitize.LogAfterOutput | handlers/tools.go:169-191 | sanitising a tool's output again for the log gives what sanitising the original gives |
| Sanitize.LogIsClean | handlers/middleware.go:123-145 | exactly the characters that are not to be stripped remain |
| Sanitize.LogKeepsExactly | handlers/middleware.go:123-145 | a log line keeps exactly the tab and the characters that are, by code point, no control or direction characters |
| Sanitize.OutputKeepsExactly | handlers/tools.go:169-191 | a tool's output keeps exactly these and the line feed and the carriage return |
| Sanitize.OneCharacter | handlers/tools.go:169-191 | each character is kept as it is or dropped, in a log line and in an output |
| Sanitize.OutputConcat | handlers/tools.go:169-191 | a text is sanitised piece by piece, so what is kept stays in order |
| Sanitize.OutputUnchanged | handlers/tools.go:169-191 | exactly the texts without such characters come through unchanged |
| RedactArgs.StrippingKeepsOrder | handlers/middleware.go:123-145 | and they remain in order |
| RedactArgs.LineIsClean | handlers/accesslog.go:24-35 | for any input the line has at most 515 bytes and no stripped character has its bytes anywhere in it, although redaction and the cut work on bytes and come later |
| RedactArgs.LineLeaksExactly | handlers/accesslog.go:29-32 | the line holds a whole match if and only if the stripped text has one that is directly followed by another run ending in an at-sign, and what is left up to there comes before the cut |
| RedactArgs.LineShowsExactly | handlers/accesslog.go:29-32 | a character of userinfo stands before the cut, with its at-sign or without, if and only if the stripped text has such a match and the scheme left of it ends before the cut |
| RedactArgs.CutOffCredentials | handlers/accesslog.go:29-34 | a userinfo of 505 characters behind another fills the line to its end although the line holds no match |
| RedactArgs.OrderMatters | handlers/accesslog.go:29 | in the other order a stripped character lets the credentials through if and only if it stands inside the scheme, or is white space right behind it; in this order it never does |
| RedactStruct.PrintUndoesParse | handlers/redact.go:43-49 | reading a URL loses nothing but the case of its scheme |
| RedactStruct.MaskIsParsed | handlers/redact.go:37-53 | a masked URL is the URL without its userinfo, and everything else becomes a marker that is no URL |
| RedactStruct.ReadsExactly | handlers/redact.go:43-49 | in plain text which strings are read as which URL: scheme in any case, userinfo up to the last at-sign, host, rest |
| RedactStruct.MaskByText | handlers/redact.go:37-53 | such a secret shows all but its userinfo, and every other one is the marker |
| RedactStruct.CredentialsAreDropped | handlers/redact.go:43-49 | credentials in front of any host disappear, at-signs of their own included, and nothing else does |
| RedactStruct.RedactStructInPlace | handlers/redact.go:63-97 | the loop over the fields never assigns a value of the wrong type and yields the redacted copy |
| RedactStruct.TypePreserved | handlers/redact.go:63-97 | the copy has the type of the original |
| RedactStruct.CopyFieldByField | handlers/redact.go:63-97 | field by field: nothing for an unexported field or a secret that can hold no text, the masked text for other secrets, the redacted copy of a struct, everything else itself |
| RedactStruct.RevealsExactlyVisible | handlers/redact.go:55-97 | two copies are equal if and only if the originals agree but for unexported fields, secrets that are no http(s) URL, and userinfo |
| RedactStruct.Idempotent | handlers/redact.go:63-97 | redacting a copy again changes nothing |
| RedactStruct.UnchangedExactly | handlers/redact.go:55-97 | the copy equals the original if and only if unexported fields and secrets of other types are zero and secret texts are the marker or a URL without userinfo, at every depth |
| RedactStruct.AlwaysUnchangedExactly | handlers/redact.go:55-97 | all values of a type come through unchanged if and only if its unexported and secret fields can hold nothing, at every depth |
| Middleware.AmplificationBound | cmd/server/main.go:346-356 | every request that reaches the handler was admitted by both tiers, arrives byte for byte, has at most a mebibyte and a hundred messages; and in every window at most 100 * (burst + limit * window) messages do, however they are batched |
| Middleware.AmplificationReached | cmd/server/main.go:346-356 | a run that meets the bound at a single instant |
| Middleware.VolleyDelivered | handlers/middleware.go:21-37 | a batch counts for its elements, an object for one message and what is no JSON for none, and all of them are delivered |
| Middleware.AnsweredExactly | handlers/middleware.go:165-207 | exactly when a request is refused by the limiter, for its size, as a batch, and when it is delivered |
| Middleware.ClientAmplificationBound | cmd/server/main.go:346-356 | the same for one client against its own rate |
| Gauge.GaugeIsExact | handlers/metrics.go:87-95 | in every interleaving, refusals and panics included, the gauge counts the requests inside the metrics layer, is back at its start when all are done, and no panic gets out |
| Gauge.RequestsEnd | handlers/middleware.go:150-160 | every request can go on without a panic, each of its moves brings it closer to its end, and others do not touch it |
| Gauge.EndingSettlesTheGauge | handlers/metrics.go:87-95 | wherever a request stands, panicking or not, it comes to its end, having taken from the gauge exactly what it put there |
| Gauge.EveryLayerIsReached | cmd/server/main.go:346-356 | a request gets to each of the seven layers, may panic in each, and may be answered early by the limiter, the logging layer and the handler only |
| Lifecycle.SendsNeverBlock | cmd/server/main.go:324-396 | a serving goroutine with an error can always send it, even if both fail and nobody receives |
| Lifecycle.WakesExactly | cmd/server/main.go:409-414 | the waiting main goroutine can be woken by the error of either server and by a signal, and by nothing else |
| Lifecycle.FailureWakes | cmd/server/main.go:391-414 | either server, failing while it serves, can report at once and bring about the shutdown |
| Lifecycle.ShutsDownOnceInOrder | cmd/server/main.go:401-433 | the stop channel is closed once, and on return exactly one stop and one shutdown of each server have happened, in order |
| Lifecycle.ExpiredExactly | cmd/server/main.go:409-429 | a server is shut down with a context already done if and only if a signal or the time limit came before that call, whatever woke the main goroutine |
| Lifecycle.BothWaitExactly | cmd/server/main.go:409-429 | both shutdowns begin to wait if and only if neither came before the second |
| Lifecycle.GivenUpOnlyWhenDone | cmd/server/main.go:416-429 | connections left on return were given up because the context was done while their server was drained |
| Lifecycle.DrainCanFinish | cmd/server/main.go:416-429 | left alone by signals and the time limit, each shutdown can wait until all connections have ended, and then returns |
| Lifecycle.EvictsUntilStopped | handlers/ratelimit.go:138-150 | until the stop channel is closed eviction can always go on, and its goroutine does not end |
| Lifecycle.SignalDoesNotDrain | cmd/server/main.go:409-429 | after a signal both shutdowns get a context that is already done |
| Lifecycle.SignalGivesUp | cmd/server/main.go:409-429 | a run for each server in which a signal leaves the connection of a request behind |
| Lifecycle.ErrorThenSignal | cmd/server/main.go:409-429 | a run for each failing server, woken by its error and followed by a signal, in which neither shutdown waits and a connection is left |
| Lifecycle.EverythingEnds | cmd/server/main.go:401-433 | once woken the main goroutine finishes in five moves, waiting for connections until the time limit at most, after which servers and the eviction goroutine can end |
| SearchQuery.BuildSearchQuery | infrastructure/searxng/client.go:226-249 | the writes into the multimap give each parameter its values under its name, and leave the others absent |
| SearchQuery.DecodeUndoesBuild | infrastructure/searxng/client.go:226-249 | the parameters are recovered, categories in order, numbers parsed back, up to non-positive numbers meaning absent |
| SearchQuery.SameQueryExactly | infrastructure/searxng/client.go:226-249 | two parameter sets give the same query if and only if they agree after that normalisation |
| SearchQuery.UpstreamSeesValidated | handlers/tools.go:244-251 | whatever the tool and input, the upstream sees a query of 1 to 512 bytes and a page from 1 to 100 |
| SearchQuery.SentExactly | handlers/tools.go:342-360 | exactly which inputs are sent, and with which error others are refused |
| SearchQuery.SentByName | handlers/tools.go:362-500 | for each tool the query name by name: its preset categories and time range, everything else the caller's |
| SearchQuery.ItoaUndoesParse | infrastructure/searxng/client.go:237-245 | every decimal numeral is the print of the number it stands for |
| SearchQuery.SameCallExactly | handlers/tools.go:342-400 | two calls look the same upstream exactly when they agree up to presets, page 0 or less meaning 1 and safe search 0 or less meaning off |

## Left out

- RateLimiter.Clock.Read: the clock is monotone, as Go's is within a process.
- WindowBounds.ClientWindowBound: assumes that no request spends more than `lag` between its clock readings; without
  any such bound a client could be forgotten right after a token is taken (`EvictionTransparency.UnobservableExactly`).
- TokenBucket.Limiter.Allow: the rate package is not part of this repository; the bucket is modelled with exact
  integers, without float rounding, infinite rates or its rounding of waits shorter than a nanosecond.
- RateLimiter.ParamsOf: rates are whole numbers of requests a second, as the configuration validates them, and
  doubling a rate does not overflow.
- BoundedMemory.ClientsAreBounded: that the ticker fires on time is an assumption of the statement.
- SlogHandler.LogrusHandler.Handle: the logger's own output, its level filter and the limit the slog package sets on
  chains of deferred values; plain payloads are opaque.
- RedactStruct.PrintUndoesParse: URLs are read as scheme, authority and rest only; escapes, ports, an empty fragment and
  the syntax errors net/url reports are not modelled.
- RedactStruct.MaskIsParsed: the same shape of URLs.
- RedactStruct.RevealsExactlyVisible: the same shape of URLs.
- RedactStruct.UnchangedExactly: the same shape of URLs.
- RedactStruct.RedactStruct: interfaces other than the empty one and all other non-struct types are one kind of
  opaque type with a zero value.
- RedactArgs.RedactArgs: JSON marshalling is a given text or a failure.
- Middleware.ClientAmplificationBound: as for the next.
- Middleware.AmplificationBound: reading the body chunk by chunk, JSON parsing (how many messages a body holds is
  given with it), leading spaces outside ASCII, and the log lines with their recorded status and size.
- Gauge: the status codes written on the way out, and panics inside deferred calls.
- Lifecycle: listeners, TLS and how a shutdown polls its connections; it returns once none serves a request or its
  context is done.
- SearchQuery.Handle: the result loops, error texts and the HTTP request itself.
- Client IP extraction, Prometheus collectors, health checks, guidance, registration and configuration loading: they
  would only add members settled by reading.
