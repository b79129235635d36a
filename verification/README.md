# Darkrouter: a verified model of the gateway's core

Darkrouter is an LLM gateway. A request names a model; the router turns the name into
an ordered list of candidates; the attempt loop tries them until one answers; the
answer is forwarded, often as a server-sent event stream, to a client that must see
one attempt's bytes or one error and never both. Around that loop stand a circuit
breaker shared by all requests, an OAuth refresh protocol shared by all requests of
one credential, and small caches and limiters in front of the admin and proxy
surfaces.

This project models the parts where that is hard to get right and proves what they are
for. Each file is one module; `Options.dfy` holds the one type they share.

| file | what it models | main results |
|---|---|---|
| `Sse.dfy` | line splitting and the event reader | reading a stream is a function of its bytes; reading across an event boundary is reading both sides |
| `Splitter.dfy` | the incremental event splitter | for every stream and every chunking, the raw events mean what the reader reads |
| `SseWriter.dfy` | the event writer | everything sent is read back; exactly which messages survive |
| `Usage.dfy` | merging usage reports | the merge is the last positive report, count by count |
| `Forward.dfy` | the stream forwarder and the commit writer | what every client gets and what is reported, as a function of bytes, chunking and ending |
| `Chunking.dfy` | the same stream in other chunks | exactly when the raw cuts agree; the client's events never depend on them; the inputs where more does |
| `OAuth.dfy` | accounts, the row, `Forget`, `renew` and its substeps | over every interleaving: newest refresh token presented, no replaced secret served or written over |
| `Health.dfy`, `HealthRuns.dfy` | the circuit breaker and its runs | one probe per half-open entry; no entry shut forever; the exact escalation ladder; frozen and live views agree |
| `Attempts.dfy`, `AttemptLoop.dfy` | one attempt, the loop, the books | one response or one error; one breaker signal per attempt; token conservation; termination |
| `Fleet.dfy` | any number of requests on one breaker | every interleaving is a run of the breaker, so no request leaves an entry shut |
| `Router.dfy` | credential order, target filter, resolution | an order independent of the input's; each credential once; every failure named for its cause |
| `RateLimit.dfy`, `Crowding.dfy` | the login limiter | burst + rate × elapsed in every window; who may be pushed out, and what that costs |
| `TokenAuth.dfy` | the proxy-token cache and the gate | nothing revoked longer ago than the TTL gets through; the latch |
| `Pricing.dfy` | request cost | distance from the exact price |

## How the model is built

- Code that updates state in place is a class whose methods are proved against
  functions on values; what the code promises is then proved of those functions,
  over whole runs.
- A mutex section is one atomic step. Where the code releases a lock midway
  (`renew`, `accept`, `configured`) or works without one (`stale`), it is several
  steps, interleaved with everybody else's in any order.
- Instants and durations are integers, Go's zero time is `None`, bucket tokens are
  reals, bytes are bytes. `cooldownFor` computes in 64-bit integers, so that its
  doubling does not overflow is proved.
- The stream format is that of sections 9.2.5 and 9.2.6 of the WHATWG HTML Living
  Standard as the code reads it: a subset of the fields, and an unterminated last
  event is dispatched at the end of the stream, which the standard would drop.
- A provider, its adapter and the surface in front of them are an adversary: a
  script of writes, usage reports and an ending (`Attempts.Script`), and an arbitrary
  recogniser of events that marks no event both content and usage
  (`Forward.Config.recognise`). The client may stop taking bytes at any write and
  stays gone. The OAuth row is a compare-and-swap register; a write that fails for
  any other reason than a changed row did not land.

## What turned out not to hold

- **An overflow hides an error event.** After commit, a provider's error event is
  remembered and reported when the stream ends. If an event longer than the line cap
  follows it, the rest is copied raw and the response is reported delivered
  (internal/exec/forward.go:162-168), so the breaker hears a success.
  `Chunking.ErrorHidden` is such a stream; `Chunking.ReportedExactly` says a committed
  response is reported failed for its error event if and only if it does not overflow,
  and `Splitter.Overflows` is a function of the chunks.
- **The chunking is visible where the carry overflows.** The cap is on the bytes held
  over between reads, so the same stream may overflow in one chunking and not in
  another; then its usage events are withheld or delivered, and its error events
  reported or hidden, by where the reads happened to end (`Chunking.UsageSlipsThrough`,
  `Chunking.ErrorHidden`). Of chunkings that do not overflow the events never differ
  (`Chunking.ChunkingIsInvisible`).
- **And where a chunk boundary falls inside a CRLF that closes an event.** The CR closes
  it before its LF is seen, and the LF opens the next raw event. The bytes delivered can
  then differ by that LF (`Chunking.LfSlipsThrough`), and so can what counts against the
  buffer's cap, and with it whether the attempt fails before commit
  (`Chunking.CapMovesWithTheCut`). Where no boundary falls so, and only there, the raw
  events are those of the stream taken whole (`Chunking.CutsAgreeExactly`).
- **The row is compared by text.** A refresh, a retried save or a disable in flight lands
  on an operator's replacement if and only if the operator wrote back the very text it
  started from (`OAuth.LandsOnlyOnSameText`). The runs admit such writes: a pair whose
  secret is the text just written counts as the new lineage's own.
- **A bucket that is pushed out comes back full.** The window bound needs "not pushed
  out", and more than that: room made for a client may evict the very network bucket
  the same call is about to use (`Crowding.PushesOwnNetwork`), and there is a run in
  which a /64 gets eleven attempts at one instant (`Crowding.LocalBoundBroken`). With
  fewer than 4096 other names about the bound holds (`RateLimit.LimitUnlessCrowded`).
  It needs no monotone clock, which matters since the clock is read before the lock is
  taken; the lower bound on tokens does (the lemma `ClockGoingBack` has the example).
- **A demoted attempt leaves its 5-minute and 1-hour cache-write counts on the record.**
  `AttemptLoop.SevenCounts` says exactly when they are not the served attempt's, and
  `AttemptLoop.LeftoverStays` is such a run. They are never priced then: the five counts
  that make a record priced are zero.
- **A round trip needs more than the writer asks.** `Send` takes any string, but only
  names without CR or LF and data without CR survive (`SseWriter.RoundTripExactly`).

## Model

| member | source | states |
|---|---|---|
| `Sse.LinesConcat` | internal/sse/reader.go:45-71 | the lines of two pieces joined are the lines of each, but for the line the cut falls in and a CRLF it falls inside |
| `Sse.FittingConcat` | internal/sse/reader.go:34-71 | what fits under the line cap of two pieces is what fits of each: a CR needs the same room with or without its LF |
| `Sse.SplitLines` | internal/sse/reader.go:45-71 | the token is the first line and the advance passes its LF, CRLF or lone CR; a CR at the end of a buffer that may grow asks for more; how many bytes it takes to know the line |
| `Sse.LineScanner.Scan` | internal/sse/reader.go:34-41 | whatever the reads deliver at a time, the scanner yields the next line of the whole input, or stops exactly at the first line that needs more room than maxLine |
| `Sse.Reader.Next` | internal/sse/reader.go:77-131 | each call returns the next event of the reading of what remains, the unterminated last one included, or stops exactly at the line or data cap |
| `Sse.ReadAcrossBlank` | internal/sse/reader.go:77-131 | a reader that has just dispatched holds nothing over: lines after a blank read as from the start |
| `Sse.ReadConcat` | internal/sse/reader.go:77-131 | a stream cut after a blank line reads as its two parts one after the other |
| `Sse.FieldMeans` | internal/sse/reader.go:93-118 | what each field line sets, less exactly one optional space; data stops at the cap; an unknown name only marks the event as begun |
| `Sse.BareName` | internal/sse/reader.go:96-100 | a name with no colon only marks the event as begun |
| `Sse.IdAndRetry` | internal/sse/reader.go:114-117 | an event of an id line and a retry line carries both |
| `Sse.ReadEnd` | internal/sse/reader.go:120-130 | at the end of the stream an event begun is dispatched, unless a line over the cap cut it |
| `Sse.ParseEvent` | internal/exec/rawstream.go:103-113 | one raw event parses to the first event the reader finds in it, or to none, either cap included |
| `Splitter.EndFromFacts` | internal/exec/rawstream.go:60-98 | the scan finds the first boundary: what it cuts is one block, and -1 leaves bytes with none |
| `Splitter.EventEnd` | internal/exec/rawstream.go:60-98 | the loop computes that scan |
| `Splitter.EventSplitter.Push` | internal/exec/rawstream.go:28-45 | carry and chunk are the raw events and the new carry, byte for byte; every raw event is one block, the carry holds no boundary; the cut is a function of the bytes; it errs exactly when the carry passes the cap |
| `Splitter.EventSplitter.Flush` | internal/exec/rawstream.go:49-53 | the tail is the carry, and nothing stays |
| `Splitter.AtMostOneEvent` | internal/exec/rawstream.go:100-113 | a raw event, or the last carry, dispatches at most one event |
| `Splitter.BlocksReadAsStream` | internal/exec/rawstream.go:28-53 | raw events read one by one give the events of the bytes they were cut from |
| `Splitter.RecognisedIsRead` | internal/exec/rawstream.go:103-113 | parsing each raw event and dropping those that do not dispatch is reading them all, until an event passes the cap |
| `Splitter.SplitAgreesWithReader` | internal/exec/rawstream.go:28-113 | blocks and a final carry mean to the splitter what their bytes mean to the reader, wherever the cuts fell |
| `Splitter.SplitStream` | internal/exec/rawstream.go:28-113 | for every stream and every chunking: push all, flush, and the events recognised are exactly the reader's; no byte lost |
| `SseWriter.SplitNlJoins` | internal/sse/writer.go:27-47 | splitting data at newlines and joining it again is the identity, and no part holds a newline |
| `SseWriter.Send` | internal/sse/writer.go:27-47 | the bytes written are the event line if the name is not empty, one data line for each line of data, and a blank one |
| `SseWriter.OneMessage` | internal/sse/writer.go:27-47 | one sent message reads as exactly that one event |
| `SseWriter.RoundTrip` | internal/sse/writer.go:27-47 | any sequence of messages without CR, and without LF in names, reads back as itself |
| `SseWriter.ReadIsClean` | internal/sse/reader.go:77-131 | nothing the reader returns has a CR in its data or a line end in its name |
| `SseWriter.RoundTripExactly` | internal/sse/writer.go:27-47 | a sequence within the data cap reads back as itself if and only if every message is free of CR and every name of LF |
| `Usage.MergeKeepsLastPositive` | internal/exec/rawstream.go:122-147 | merging reports gives, for each count on its own, the last positive one reported |
| `Forward.CommitWriter.WriteHeader` | internal/exec/commitwriter.go:74-81 | commits, sends nothing of the body |
| `Forward.CommitWriter.Write` | internal/exec/commitwriter.go:83-97 | commits exactly when there is a byte to write; the client holds a prefix of what was written, all of it until a write fails |
| `Forward.CommitWriter.Flush` | internal/exec/commitwriter.go:104-114 | commits, and may find the client gone |
| `Forward.TallyGrows` | internal/exec/forward.go:74-123 | what a client is owed, the buffered size, the usage and the error flag all advance event by event |
| `Forward.Forwarder.Commit` | internal/exec/forward.go:57-71 | the client has the buffered events, in order, and the buffer is empty |
| `Forward.Forwarder.Step` | internal/exec/forward.go:74-123 | keeps the forwarder's invariant; fails exactly on an error event or an overfull buffer before commit, and then nothing was written |
| `Forward.Forwarder.StepBuffered` | internal/exec/forward.go:84-108 | before commit: commits exactly on content; usage-only events count against the cap but are not kept |
| `Forward.Forwarder.StepCommitted` | internal/exec/forward.go:110-122 | after commit: what was written stays what is owed |
| `Forward.Forwarder.StepAll` | internal/exec/forward.go:138-146 | the events of a chunk in order, until one ends the attempt or the client fails |
| `Forward.Forwarder.CopyRaw` | internal/exec/transcription.go:161-184 | the rest of the body goes out unchanged to a client that takes it |
| `Forward.AdmitsSnoc` | internal/exec/forward.go:84-108 | whether the attempt survives to commit is decided event by event, and only before the first content |
| `Forward.Forwarder.Overflow` | internal/exec/forward.go:147-169 | before commit an overflow ends the attempt with nothing written; after it the carry and all that follows go out raw |
| `Forward.Forwarder.FinishClean` | internal/exec/forward.go:220-239 | the tail is stepped as an event; an empty stream commits; an error event is reported as the failure |
| `Forward.Forwarder.FinishBroken` | internal/exec/forward.go:171-215 | a cut before commit writes nothing; after it the carry goes out raw, then an error event exactly when neither an ending event nor an error event had gone out |
| `Forward.Forwarder.TakeNext` | internal/exec/forward.go:135-170 | one read keeps the forwarder in step with the splitter, or ends the response as it must end |
| `Forward.Forwarder.Run` | internal/exec/forward.go:28-240 | for every chunking, recogniser and client: it fails before commit if and only if an event before any content ends the attempt, or no content comes before an overlong event or a broken connection, and then nothing was written; else the client is sent a prefix of what it is owed, and one that takes everything gets exactly that and the result is the one the bytes, their chunking and the ending call for |
| `Forward.DoomedBy` | internal/exec/forward.go:84-96 | an error event or overfull buffer before content dooms every stream it is in |
| `Forward.SafeBy` | internal/exec/forward.go:110-123 | after content nothing does |
| `Forward.EveryByte` | internal/exec/forward.go:28-240 | for every chunking, the raw events stepped and the raw rest are exactly the upstream's bytes |
| `Forward.NothingStripped` | internal/exec/forward.go:103-122 | with strip off no raw event is withheld |
| `Forward.OnlyUsageWithheld` | internal/exec/forward.go:103-122 | with strip on a raw event is withheld if and only if it is usage-only |
| `Forward.StripIsByEvent` | internal/exec/forward.go:103-122 | taking the stripped raw events out of the bytes takes exactly the usage-only events out of what is read; nothing merges where one was taken out |
| `Chunking.StripOff` | internal/exec/forward.go:28-240 | with strip off, a response that ends cleanly is owed byte for byte, overflow or none |
| `Chunking.CutsAgreeExactly` | internal/exec/rawstream.go:28-98 | the raw events are those of the stream taken whole if and only if no chunk boundary falls inside a CRLF that closes an event |
| `Chunking.NoCrLfCut` | internal/exec/rawstream.go:28-98 | so no boundary inside a CRLF is enough |
| `Chunking.ChunkingIsInvisible` | internal/exec/forward.go:28-240 | of any two chunkings of one stream that do not overflow, what each client is owed reads as the upstream's events less the usage-only ones, both are reported alike, and without a cap on the buffer both fail before commit alike |
| `Chunking.TwoRuns` | internal/exec/forward.go:28-240 | two runs of the forwarder over the same bytes: the same, of the bodies and results themselves |
| `Chunking.SameCutsSameRun` | internal/exec/forward.go:28-240 | where the raw cuts agree, nothing depends on the chunking |
| `Chunking.AfterOverflow` | internal/exec/forward.go:147-169 | after an overflow the client reads the events before it less the usage-only ones, then all that the rest holds |
| `Chunking.ReportedExactly` | internal/exec/forward.go:147-239 | a committed response is reported failed for its own error event if and only if it has one and does not overflow |
| `Chunking.CutOff` | internal/exec/forward.go:171-215 | a run cut by a broken connection, from the recognised events alone: nothing sent without content; with a terminal event after content, delivered and nothing added; otherwise a failed read and the error event last |
| `Chunking.EndedCleanly` | internal/exec/forward.go:220-239 | a run that ends, likewise: the tail is an event, no content is no failure, an error event is |
| `Chunking.Overflown` | internal/exec/forward.go:147-169 | a run that overflows, likewise: without content it fails before commit, with it the rest goes out as it is |
| `Chunking.ErrorHidden` | internal/exec/forward.go:147-169 | a stream whose error event is reported as one chunk and hidden when cut where the carry overflows |
| `Chunking.UsageSlipsThrough` | internal/exec/forward.go:147-169 | a stream whose usage event is withheld as one chunk and delivered when cut where the carry overflows |
| `Chunking.LfSlipsThrough` | internal/exec/rawstream.go:60-98 | a stream whose bodies differ by one LF when cut inside the CRLF that closes a withheld event |
| `Chunking.CapMovesWithTheCut` | internal/exec/forward.go:94-107 | a stream that fails before commit as one chunk and commits when cut inside a CRLF |
| `OAuth.StepIsGood` | internal/auth/oauth.go:261-477 | every step of every thread keeps the protocol's invariant and shows nothing improper |
| `OAuth.RunIsProper` | internal/auth/oauth.go:261-477 | over every interleaving, with any operator writes: no header older than the Forget its call came after, from a dead account, without an access token or within a minute of its expiry, and at once only from an account neither stale nor unsaved; every refresh presents the newest token of its lineage; every write and disable lands on its own lineage |
| `OAuth.NewestIsLastGranted` | internal/auth/oauth.go:384-424 | without operator writes the newest token is the last one any refresh answer carried |
| `OAuth.PresentsLastGranted` | internal/auth/oauth.go:353-424 | without operator writes each refresh presents exactly the last refresh token the gateway was given: no rotation lost, none read back over |
| `OAuth.RotationKept` | internal/auth/oauth.go:353-372 | an unsaved pair stays the account's until saved, followed by the next, or overtaken by an operator |
| `OAuth.ReplacedSecretIsGone` | internal/auth/oauth.go:261-297 | after a replacement and a Forget every later call is bound to the replacement's lineage or a later one, with a renewal in flight or an unsaved pair pending |
| `OAuth.ReloadServes` | internal/auth/oauth.go:427-440 | a call that finds the account stale serves the row's current pair |
| `OAuth.RefreshesExactly` | internal/auth/oauth.go:373-387 | an account up to date and alive with a refresh token presents it if and only if the pair has no access token or less than a minute left, and serves the pair if and only if not |
| `OAuth.AtOnceExactly` | internal/auth/oauth.go:335-343 | served without renewing exactly when alive, saved, not stale and not needing a refresh |
| `OAuth.RefreshLands` | internal/auth/oauth.go:376-424 | a call that finds its pair with less than a minute left presents it, serves the new one and leaves it in the row |
| `OAuth.RetryLands` | internal/auth/oauth.go:356-367 | a call that finds a pair unsaved writes it over the secret it came from |
| `OAuth.RowChanges` | internal/auth/oauth.go:261-477 | a row changes only by an operator or a save that finds the account's text in it; a credential is disabled only by a refusal that does and enabled only by an operator |
| `OAuth.WriteOutcomes` | internal/auth/oauth.go:356-367 | a save or a retry lands, is kept for another try, or is dropped for the row to be read again |
| `OAuth.RefusalOutcomes` | internal/auth/oauth.go:467-477 | a refusal ends the account and disables its credential, or means nothing for a row that has moved on |
| `OAuth.WhereRefusalsComeFrom` | internal/auth/oauth.go:379-392 | a missing or refused refresh token goes to the refusal; a transient failure leaves all as it was |
| `OAuth.DeadIsSilent` | internal/auth/oauth.go:373-375 | a dead account serves and presents nothing, and only a reload revives it |
| `OAuth.OneHolderWhoFinishes` | internal/auth/lock.go:8-48 | one holder of the lock at a time, whom nobody else moves, and at most ten steps long |
| `OAuth.HolderIsNeverStuck` | internal/auth/lock.go:8-48 | and who can always go on |
| `OAuth.GivingUpStopsNothing` | internal/auth/lock.go:30-48 | a caller that stops waiting stops nothing |
| `OAuth.LandsOnlyOnSameText` | internal/auth/oauth.go:444-477 | a refresh, a retried save or a disable in flight lands over an operator's write if and only if the operator wrote back the text it started from |
| `OAuth.ReplacementParts` | internal/auth/oauth.go:452-477 | and exactly then does the account count as the new lineage's |
| `OAuth.StepReadRow` | internal/auth/oauth.go:427-440 | reading the row, found or not, keeps the invariant: above all a reload never replaces an unsaved pair |
| `OAuth.StepSave` | internal/auth/oauth.go:405-423 | saving a fresh pair, whether the write lands, fails or finds the row changed, keeps the invariant and shows only a write and a header of the pair's own lineage |
| `OAuth.StepRefuse` | internal/auth/oauth.go:467-477 | a refusal keeps the invariant and disables only a row of its own lineage |
| `Health.CooldownFor` | internal/health/breaker.go:61-83 | the doubling loop, in 64-bit integers, computes the ladder's cooldown without overflow |
| `Health.CooldownSteps` | internal/health/breaker.go:54-83 | 1, 2, 4, 8, 15, 30, 60, 120 seconds, then twice the last for as long as that stays under the maximum |
| `Health.CooldownIsMonotone` | internal/health/breaker.go:61-83 | a higher level never cools for less, and none above the maximum |
| `Health.CooldownReachesMax` | internal/health/breaker.go:61-83 | from some level on the cooldown is the maximum |
| `Health.LiveIsFrozenLessProbes` | internal/health/availability.go:20-31 | live availability is the frozen view's, less keys whose triple or credential has a lapsed ladder cooldown with its probe held |
| `Health.RehydratedAt` | internal/health/breaker.go:351-365 | restoring puts back each saved entry and touches no other |
| `Health.RehydrateKeepsLadders` | internal/health/breaker.go:335-365 | snapshot, then rehydrate: every entry keeps its level and failures, and what is left of its cooldown; no probe is out |
| `Health.RehydrateKeepsView` | internal/health/breaker.go:335-365 | snapshot, then rehydrate into an empty breaker: the same frozen view at every later instant |
| `Health.Breaker.AvailableLocked` | internal/health/breaker.go:171-194 | refines Look: refuse, pass, reopen or claim the probe |
| `Health.Breaker.IsAvailable` | internal/health/breaker.go:143-167 | both levels asked; a claim on the credential is given back when the triple refuses |
| `Health.Breaker.RecordSignal` | internal/health/breaker.go:203-280 | the whole effect of one signal on both entries |
| `Health.Breaker.ReleaseProbe` | internal/health/breaker.go:288-302 | gives back both probes and changes nothing else |
| `Health.Breaker.CoolLocked` | internal/health/breaker.go:324-331 | cools for the level's cooldown and climbs one level |
| `Health.Breaker.SnapshotAvailability` | internal/health/availability.go:39-54 | the keys cooling at the instant; the breaker is unchanged |
| `Health.Breaker.Snapshot` | internal/health/breaker.go:335-346 | lists every entry once with its durable part |
| `Health.Breaker.Rehydrate` | internal/health/breaker.go:351-365 | refines Rehydrated |
| `HealthRuns.OneProbe` | internal/health/breaker.go:143-194 | over any run of asks with no outcome between, at most one is granted through a half-open entry, counting every model of a half-open credential |
| `HealthRuns.FirstAskProbes` | internal/health/breaker.go:171-194 | and the first ask with nothing else in the way is granted: the bound is met |
| `HealthRuns.RefusalLeavesProbes` | internal/health/breaker.go:143-167 | a refused ask leaves every probe claim as it found it |
| `HealthRuns.Escalation` | internal/health/breaker.go:203-331 | n plain failures with any neutral traffic between: never cooled below the threshold, then cooled by failure n for level n - trip_after |
| `HealthRuns.EscalationSince` | internal/health/breaker.go:225-239 | whatever came before, the plain failures since the last success or fatal outcome are all the ladder knows |
| `HealthRuns.SuccessClears` | internal/health/breaker.go:225-230 | from any state, after a success neither the triple nor its credential has failures, level, cooldown or probe |
| `HealthRuns.FatalClearsTheTriple` | internal/health/breaker.go:232-239 | a fatal outcome clears the triple alone; the credential keeps its ladder and gives back its probe |
| `HealthRuns.OutcomeOnFields` | internal/health/breaker.go:203-280 | field by field, what every outcome that clears nothing does to triple and credential, and that it does nothing to any other |
| `HealthRuns.AskOnFields` | internal/health/breaker.go:143-194 | field by field, what asking does: a stated wait that has passed is forgotten, a ladder's has its probe taken, a refusal takes none |
| `HealthRuns.OutcomeOnView` | internal/health/breaker.go:203-280 | for every outcome, key and instant: exactly which entries it clears or cools, and until when |
| `HealthRuns.WaitSparesTheLadder` | internal/health/breaker.go:241-279 | a stated wait leaves level and failures alone; a 429 climbs without counting a failure; any other cooldown does both |
| `HealthRuns.MoveKeeps` | internal/exec/exec.go:327-344 | every move of every request keeps: a held probe has an attempt running on its triple or credential |
| `HealthRuns.ServingFreesProbes` | internal/health/breaker.go:288-302 | a response that commits gives back both probes and changes nothing else |
| `HealthRuns.FinishFrees` | internal/health/breaker.go:203-280 | whatever the outcome, recording it leaves no probe held on the attempt's triple or credential |
| `HealthRuns.NothingShutForever` | internal/exec/exec.go:484-495 | in every reachable state, once no attempt is running and cooldowns have passed, every key is available |
| `Attempts.Request.RecordHealth` | internal/exec/surface.go:146-152 | the first signal of an attempt is the only one |
| `Attempts.Request.DemoteLastAttempt` | internal/exec/exec.go:746-779 | moves the record's burn to the failed row once; a second demotion moves nothing |
| `Attempts.Request.Respond` | internal/exec/surface.go:332-344 | committed exactly when something reached the client; the record holds the last report |
| `Attempts.Request.AttemptBody` | internal/exec/exec.go:678-740 | the attempt after a 2xx: one row, one signal, usage on the failed row or on the record |
| `Attempts.Request.Attempt` | internal/exec/exec.go:479-740 | for every script: one row; the probes its surface gave back and then exactly one signal; on the record what it reported, less the five counts a failure moves to its row; the client changed if and only if it committed |
| `Attempts.ResultMeans` | internal/exec/exec.go:644-740 | what the loop is told, read from the script: success, status, commit, an error to show, and that a provider was called unless nothing was sent |
| `Attempts.SignalMeans` | internal/exec/exec.go:484-495 | what the breaker is told, read from the script, the provider's wait included |
| `Attempts.LastReportIs` | internal/exec/exec.go:1438-1452 | what counts as reported is the last report |
| `Attempts.FreesIfServing` | internal/exec/surface.go:332-344 | probes are given back by exactly the surfaces that say they serve |
| `Attempts.Request.AttributeServed` | internal/exec/exec.go:1075-1102 | the first success row with no tokens gets the record's; a failed row, or one with tokens, is left alone |
| `Attempts.FailureAfterCommitIsHeard` | internal/exec/exec.go:709-731 | a failure after commit ends the chain as a success and is signalled as the failure |
| `Attempts.FatalBeforeSendMovesNoLadder` | internal/exec/exec.go:484-495 | a fatal exit before anything was sent changes no cooldown, level or count |
| `AttemptLoop.SkipTarget` | internal/exec/advance.go:67-77 | the first later candidate with another provider or model |
| `AttemptLoop.NextIndex` | internal/exec/advance.go:29-63 | finish, return or go on; a provider failure other than 429 jumps exactly the adjacent run of the same target, anything else one step |
| `AttemptLoop.LogIsQuiet` | internal/exec/exec.go:327-344 | whatever became of the candidates, the request's breaker calls are one attempt at a time and leave none open |
| `AttemptLoop.TryOnce` | internal/exec/exec.go:344-350 | an attempt keeps the books of a failing run, or serves |
| `AttemptLoop.TryBoth` | internal/exec/exec.go:344-383 | the translated retry is made exactly for a refused forwarded body with an attempt and time left; its result is the one that counts; issued attempts stay within max_attempts |
| `AttemptLoop.PassOver` | internal/exec/exec.go:316-332 | one skip, with its reason, for a candidate passed over |
| `AttemptLoop.PassTarget` | internal/exec/advance.go:82-91 | one skip for each candidate of the target that is down, and for no other |
| `AttemptLoop.Dispatch` | internal/exec/exec.go:344-415 | a granted candidate is tried; the run ends as its result says, or goes on past exactly its target |
| `AttemptLoop.Turn` | internal/exec/exec.go:300-416 | one turn of the loop keeps the account of every candidate visited |
| `AttemptLoop.RunAttempts` | internal/exec/exec.go:281-424 | for every environment: terminates; the tries that called a provider, counted on their scripts, never exceed max_attempts; each candidate up to the stop was tried, skipped for want of an adapter, skipped as cooling or jumped with its target, exactly as the environment and its neighbour make it, and rows, scripts, skips and breaker calls are exactly those; it stops at the first result that does not advance, else only when candidates, attempts or time ran out; the client has one attempt's bytes or one error, never both, and only the last attempt commits |
| `AttemptLoop.VisitMeans` | internal/exec/exec.go:359-415 | read from the script that counted: when the loop goes on, when the target is down, when the translated script is run |
| `AttemptLoop.JumpMeans` | internal/exec/advance.go:29-77 | a candidate is jumped exactly with an adjacent one of the same provider and model that was jumped or is down |
| `AttemptLoop.SkipsAreExact` | internal/exec/exec.go:316-332 | one skip for each candidate passed over and none for one tried |
| `AttemptLoop.TriesAreExact` | internal/exec/exec.go:340-383 | a tried candidate's script and then its translated one if that was run, and nothing else of it |
| `AttemptLoop.AccountIsInOrder` | internal/exec/exec.go:300-416 | both in the candidates' order |
| `AttemptLoop.VisitLog` | internal/exec/exec.go:327-344 | the breaker calls of a visit, all on the candidate's own provider, credential and model |
| `AttemptLoop.CloseBooks` | internal/exec/exec.go:1055-1102 | each row ends with exactly the input and output tokens its own attempt reported; the record with what the attempts leave |
| `AttemptLoop.SevenCounts` | internal/exec/exec.go:746-779 | the record is the served attempt's report, or else the cleared last report of a failure: its five priced counts are always the served attempt's or zero, and all seven are the served attempt's if and only if it reported or that last report held no cache-write breakdown |
| `AttemptLoop.LeftoverStays` | internal/exec/exec.go:776-778 | two attempts after which a 5-minute count of the first stays on the record |
| `Fleet.InterleavingIsPlay` | internal/exec/exec.go:327-344 | any interleaving of requests' breaker calls on one breaker, each ask answered by it, is a run of the breaker, with an attempt open for exactly the requests that have one under way |
| `Fleet.NoRequestShutsAnEntry` | internal/exec/exec.go:281-424 | any number of requests, interleaved call by call: every held probe has an attempt running on its triple or credential, and once all are done and cooldowns have passed every key is available |
| `Router.OrderCredentials` | internal/router/order.go:19-46 | a permutation in which one never used precedes any used, an earlier use a later, and ties ascend by id, byte by byte |
| `Router.OrderIsUnique` | internal/router/order.go:10-18 | with distinct ids there is one such order, whatever the order of the input |
| `Router.FilterTarget` | internal/router/filter.go:19-111 | a faulty target gives one skip naming its first fault; any other gives candidates and cooling skips over an ordered permutation of its credentials, a keyless one a single attempt with none; both least recently used first |
| `Router.FaultIsFirst` | internal/router/filter.go:22-86 | the check named is the first that fails, in the order that puts lasting faults before passing ones |
| `Router.EachCredentialOnce` | internal/router/filter.go:78-110 | candidates and cooling skips together hold each credential exactly once, the available ones as candidates |
| `Router.InTheOrder` | internal/router/filter.go:88-110 | both lists keep the least-recently-used order |
| `Router.CandidatesInUseOrder` | internal/router/filter.go:78-110 | one target's candidates, and its cooling rows, are least recently used first |
| `Router.RowsOfTarget` | internal/router/filter.go:78-110 | which credentials come back as candidates and which as skips, from the cooling keys |
| `Router.EarlierTargetsFirst` | internal/router/router.go:47-53 | earlier targets' candidates and skips come first |
| `Router.EmptyReason` | internal/router/router.go:80-115 | the reason for an empty result, from the skips |
| `Router.Resolve` | internal/router/router.go:43-59 | target by target, the candidates are its available credentials in least-recently-used order and the skips its fault or its cooling ones; it fails if and only if no target serves; says all-cooling if and only if every target passes every check and is cooling; names the opt-in if and only if a target is held back by it; a reason is on record if and only if a target has it |
| `RateLimit.RefillFacts` | internal/admin/ratelimit.go:111-128 | map and recency list hold the same distinct names, at most 4096; the named bucket is in front and topped up, no other bucket changes |
| `RateLimit.RefillOrder` | internal/admin/ratelimit.go:111-128 | a name is evicted only when 4096 others have been seen since it was |
| `RateLimit.OneCall` | internal/admin/ratelimit.go:72-92 | an allowed call took one whole token from each of its buckets, both still in the map; a refused one took none |
| `RateLimit.AllowedExactly` | internal/admin/ratelimit.go:72-92 | a call is allowed if and only if each bucket it would pay from holds a token; a refused one is told the wait of the first that does not |
| `RateLimit.WindowBound` | internal/admin/ratelimit.go:72-128 | in any window a bucket not pushed out gives at most burst + rate × elapsed, whatever the order of the clock readings |
| `RateLimit.LocalNetworkBound` | internal/admin/ratelimit.go:63-92 | all addresses of a local /64 together: at most ten times that |
| `RateLimit.LimitUnlessCrowded` | internal/admin/ratelimit.go:23-28 | with fewer than 4096 other names seen the bound holds unconditionally |
| `Crowding.PushesOwnNetwork` | internal/admin/ratelimit.go:78-89 | with the map full, the network's bucket last and the client new, the client's refill pushes out its own network's bucket, which starts full again |
| `Crowding.LocalBoundBroken` | internal/admin/ratelimit.go:116-121 | a run of 4106 calls at one instant in which a local /64 is allowed eleven attempts where ten allowances are ten |
| `RateLimit.RunInRange` | internal/admin/ratelimit.go:111-128 | over every run whose clock does not go back tokens stay between 0 and the bucket's burst |
| `RateLimit.WaitIsTight` | internal/admin/ratelimit.go:130-132 | no token sooner than the wait, one a nanosecond after it |
| `RateLimit.LoginLimiter.RefillBucket` | internal/admin/ratelimit.go:111-128 | refines Refill |
| `RateLimit.LoginLimiter.AllowCall` | internal/admin/ratelimit.go:72-92 | refines Allow; both buckets are there when it spends from them |
| `TokenAuth.TokenCache.LookAccepted` | internal/server/tokenauth.go:55-61 | a hit is a remembered acceptance younger than the TTL |
| `TokenAuth.TokenCache.LandAccepted` | internal/server/tokenauth.go:62-73 | a valid answer is remembered under the call's own reading, any other forgotten |
| `TokenAuth.TokenCache.LookConfigured` | internal/server/tokenauth.go:84-94 | the latch first, then the remembered answer while fresh |
| `TokenAuth.TokenCache.LandConfigured` | internal/server/tokenauth.go:96-105 | the answer and its reading; only a real yes latches |
| `TokenAuth.InvKept` | internal/server/tokenauth.go:51-105 | every step of every request, issue and revocation keeps what the cache and the calls in flight know true |
| `TokenAuth.AcceptAsks` | internal/server/tokenauth.go:55-73 | a token remembered for under five seconds is accepted without asking; any other goes by what the store says or that it fails |
| `TokenAuth.RevokedIsRefused` | internal/server/tokenauth.go:51-73 | over every interleaving, no request presenting a token at least the TTL after its revocation gets through, by the token or by an open gate |
| `TokenAuth.OutcomesAreRight` | internal/server/server.go:428-441 | the gate stands open only for readings under the TTL after the first issue, and is shut only once a token was issued or the store failed to say; a token live throughout is refused only if the store failed |
| `TokenAuth.LatchHolds` | internal/server/tokenauth.go:79-105 | once latched, no stale answer unlatches it and no later call answers no |
| `TokenAuth.StaleAnswerLands` | internal/server/tokenauth.go:40-43 | without the latch a stale no would reopen the gate |
| `Pricing.Rounds` | internal/catalog/pricing.go:91-97 | half-up rounding, within half a micro-dollar |
| `Pricing.UnpricedHasNoCost` | internal/catalog/pricing.go:35-40 | no cost if and only if the model has no price |
| `Pricing.CostIsClose` | internal/catalog/pricing.go:35-47 | the cost is within 3 + cache_write_5m / 10^6 micro-dollars of the exact price |

## Left out

- HTTP, TLS, timers and deadlines: whether an attempt can start, is cut or times out is a choice of the script or the environment; how a timeout is named is not modelled.
- Adapters and dialects: `RecognizeEvent`, `Classify`, `ParseStream` and the JSON they read are arbitrary functions or part of the script.
- The translated stream path (`attemptStream`, `preCommitBuffer`) and the other surfaces: represented by the acts of `Attempts.Script`, so only what they write, report and return is seen; their own buffering is not.
- A panic inside an attempt: the loop's deferred signal for an attempt that ended with no outcome is not modelled.
- Sse.LineScanner.Scan: a connection that reports its end together with its last bytes is taken to report it in a read of its own, and a cap below one is not modelled: zero stands for the default, and a negative one panics.
- Forward.CommitWriter.Write: a client that fails a write is taken to fail every later one.
- Forward.Forwarder.FinishBroken: whether a cut after commit is blamed on the provider or on a client that hung up at the same moment is not told apart; both are failures after commit.
- OAuth.RunIsProper: a manager with no store, where `Forget` drops the account, is not modelled; nor are HTTP, PKCE, the account label and the beta header.
- The usage of a request's failed attempts beyond input and output tokens: the attempt row has no columns for it, so conservation there is of those two counts.
- Attempts.Request.AttributeServed: the cost columns it fills in are not modelled; the price of a token count is `Pricing.Cost`.
- Pricing.CostIsClose: 64-bit overflow of a rate times a count is not modelled; `GradeFor` is a table lookup.
- Router.Resolve: expanding a name into targets (aliases, `provider/model`, bare names) is a lookup in configuration and catalog; it is given the targets.
- Attempts.Request.Respond: the final provider and model, the warnings and the time to first byte that serving also records are not modelled.
- RateLimit.WindowBound: floating-point rounding is not modelled; keys are taken as `clientKeys` makes them, and no client's key begins with `net `. The concurrency cap is a semaphore and left out.
- TokenAuth.OutcomesAreRight: a gateway with a shared secret set, or with no token store, is not modelled; neither asks the cache anything new.
- SQLite, the admin and dashboard handlers, catalog synchronisation, presets, cryptography and the command line: no part of the five pieces above.
