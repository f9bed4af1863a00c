# Verification of the directory server's decision code

The directory server decides everything that matters in small packages that do no I/O: a
rendezvous store for signal blobs, a per-source rate limiter, the admission and storage of signed
records, and the arithmetic of prefix queries. This project models those packages in Dafny and
proves what they keep, over every input, every interleaving and every run. `dafny verify
dfyconfig.toml` checks all of it.

## How it is organised

**Signal rendezvous** (`internal/signal`). A `Get` is not atomic. It enters under the mutex, waits in
a select holding a channel pointer and a one-slot buffer, and takes the mutex again if the select is
lost. `SignalModel` is that store as a state machine over its critical sections, with pointers kept
abstract. Which waiter a post picks, which select arm fires and how the sections interleave are
free choices of the run. `SignalStore` is the store itself as classes `Store`, `Channel` and `Waiter`,
updated in place; each method is proved to be one step of the machine, so everything proved of the
machine's runs is proved of the objects.

- `SignalInvariant`: what every step keeps under any clock.
- `SignalLedger`: a history variable that follows each accepted blob, for conservation.
- `SignalPlain`: the store refines a map with no garbage collection and no sweeps.
- `SignalCost`: the amortised cost of sweeping. `SignalContents` and `SignalRuns` carry the steps.

**Rate limiter** (`internal/ratelimit`). `RateLimit` has the table and its decisions as functions, and
the reference that holds nothing but current windows; `RateBound` the number of admissions in any
window-long stretch; `RateLimiter` the object, proved against the functions.

**Records** (`internal/record`, `internal/accept`, `internal/store`, `internal/api`). `Records` takes
each SQL statement as its meaning on a map of rows; `RecordStore` is the store object; `RecordRuns` has
whole runs of it. `Accept` is the admission check, `Publish` the handler that reads the clock once and
combines it with the conditional upsert. `Replay` says exactly which orders of clock readings let a
record roll back or a body be taken twice, and `Served` what lookups return after a run of publishes.

**Prefix queries** (`internal/query`, `internal/store/prefix.go`, `cmd/trigcheck`, `internal/api/meta.go`).
`Bits` defines Go's bitwise operators by recursion on binary digits; `Query` masking, the column
range and the post-filter; `QueryText` the parser and the client's printer; `Sizing` the cap, the
understated count and the client's shift loop; `Lookup` the protocol end to end.

**Smaller parts**: `ClientAddr` (the X-Forwarded-For walk), `Pow` (the proof of work), `Framing` (the
signing input and the payload plaintext). `Base` has shared types.

## Conventions

- Every operation takes its clock reading as a parameter. Structural invariants hold for any
  clock. Theorems about the limiter, the signal store and raw runs of the record store that need
  readings not to decrease, in the order in which operations take effect, say so in their `requires`
  (`ClockRuns`, `RunOk`).
- Runs of publishes need no such hypothesis. A publish reads the clock before its body arrives, so
  under load readings take effect out of order although the clock never steps back. `Replay` proves
  the exact condition on the readings instead.
- Integers are unbounded except where the width matters: the admission bound on an expiry, the
  client's shift, Go's saturating `Time.Sub`, and the conversion of an expiry to unsigned.
- JSON, base64, SHA-256, Ed25519, `netip` parsing and prefix containment are parameters, and the
  results hold whatever they are.
- One `char` of a query parameter stands for one byte of it.

## Where the code and its comments differ

The model follows the code.

- `internal/signal/signal.go:313-315` says that a wait ended by shutdown returns the empty answer. The
  code returns the rate-limited one (lines 385-389), as its other comments say.
- `internal/signal/signal.go:442-443` says that a rejected waiter leaves no trace. A `Get` refused by a
  cap after it dropped an expired blob leaves its channel mapped and empty; `RefusedGetTrace` says
  exactly when, and `EmptyChannelIsReachable` how a new store gets there.
- `internal/ratelimit/ratelimit.go:417-423` says that an entry from more than a window ahead is
  discarded. At 2^63 ns or more ahead it is kept, because the saturated difference negates to itself;
  `LiveExactly` is the exact condition.
- `internal/ratelimit/ratelimit.go:62-63` says up to twice the limit may pass across a window
  boundary. The exact maximum is one less: `AdmissionBound` and `BoundIsReached`.
- `internal/accept/accept.go:79-84` says that refusing a lapsed expiry closes the replay window. It does
  not for a publish that read the clock just before the expiry and took effect after a later sweep:
  the reading is taken at `internal/api/record.go:45`, before the body is read. `NoReplay` is the
  exact condition and `SlowPublishReplays` such a run.
- The client's loop in `cmd/trigcheck/main.go:543-545` shifts an int64 and does not end for counts of
  50 * 2^57 or more; `StopsExactly` is the exact condition, and below it the loop computes the cap's formula.

## Model

| member | source | states |
|---|---|---|
| SignalModel.Configure | internal/signal/signal.go:195-225 | every limit in force, the lifetime and the poll window included, is positive and within the wire format's ceilings; an option is honoured up to its ceiling and clamped to it beyond; an unset one is 300 s, 30 s, 64 KB, 10,000 waiters, 8 a channel |
| SignalInvariant.InitInv | internal/signal/signal.go:195-218 | a new store satisfies the invariant, whatever the options |
| SignalInvariant.StepKeeps | internal/signal/signal.go:245-423 | every critical section, under any clock and interleaving, keeps: an active waiter's captured pointer is the one its key maps to and its set holds it; no two keys share a channel; a channel with waiters holds no blob; a delivered waiter is inactive; the counts and caps |
| SignalInvariant.WaitingIsSum | internal/signal/signal.go:444-471 | `waiting` is the sum of the mapped channels' waiter sets, at most maxWaiters, each set at most maxPerChan |
| SignalInvariant.ShutdownKeeps | internal/signal/signal.go:405-423 | Shutdown keeps the invariant and leaves no channels and `waiting` at zero, also with Gets still on their way out |
| SignalInvariant.NeverBlocks | internal/signal/signal.go:291-293 | no step blocks under the mutex: a send finds the waiter's buffer empty, the receive after a lost select finds it full |
| SignalRuns.RunKeeps | internal/signal/signal.go:245-423 | the invariant holds in every reachable state |
| SignalRuns.EveryGetFinishes | internal/signal/signal.go:362-390 | after Shutdown every open Get can return: with its blob if it was handed one, and rate-limited otherwise |
| SignalRuns.NoEmptyOnceClosed | internal/signal/signal.go:381-390 | once shut down, no step answers Empty or Stored, and the store stays shut |
| SignalContents.AcceptedContents | internal/signal/signal.go:267-301 | an accepted Post goes to a listening reader if there is one and otherwise to its slot with its expiry; no other slot changes except for expired ones a sweep reclaims, and the blob it displaces had expired |
| SignalContents.RefusedContents | internal/signal/signal.go:245-274 | a refused Post changes no slot that a sweep does not reclaim, and a conflict means the slot holds an unexpired blob |
| SignalContents.EnterContents | internal/signal/signal.go:330-357 | Get answers Delivered exactly when its slot holds an unexpired blob, with that blob; its slot is empty afterwards, no other changes, and what it drops had expired |
| SignalContents.FinishContents | internal/signal/signal.go:375-390 | a Get that gives up changes no slot |
| SignalContents.RefusedGetTrace | internal/signal/signal.go:340-358 | a Get refused by a cap leaves the state untouched if and only if it found no expired blob; otherwise its channel stays mapped and holds nothing |
| SignalContents.SweepKeepsInUse | internal/signal/signal.go:507-517 | a sweep runs exactly when the map reaches the threshold, keeps exactly the channels that are waited on or hold an unexpired blob, and sets the threshold to twice their number, at least 1024 |
| SignalContents.PostLeavesInUse | internal/signal/signal.go:267-301 | after an accepted Post that swept, every other mapped channel is in use, and its own is mapped unless its blob went to the only reader |
| SignalContents.DeliveryUnmaps | internal/signal/signal.go:342-347 | a Get answered at once unmaps its channel and no other |
| SignalContents.DepartureUnmaps | internal/signal/signal.go:463-471 | a Get that gives up unmaps its channel exactly when it was the last to wait on it |
| SignalRuns.EmptyChannelIsReachable | internal/signal/signal.go:340-358 | that trace is reached: three requests to a new store with room for one reader leave a mapped channel with neither blob nor waiter |
| SignalLedger.Conservation | internal/signal/signal.go:245-423 | in every reachable state each accepted blob is in exactly one place (one slot, one waiter's buffer, one return, or discarded), and slots and buffers hold nothing else |
| SignalLedger.BlobsMove | internal/signal/signal.go:267-423 | in one step a blob leaves a slot only by delivery to a Get on its key, by a step whose reading is at or past its expiry, or by Shutdown; once in a buffer only its own Get takes it; after that it never moves |
| SignalLedger.LedgerTellsOutcomes | internal/signal/signal.go:291-391 | the ledger gains an entry exactly when a Post answers Stored, and a return exactly when a Get answers Delivered, with the key asked for and the bytes returned |
| SignalLedger.RunTells | internal/signal/signal.go:245-391 | over a run the ledger's entries and returns are what callers saw, in order |
| SignalLedger.DeliveredAtMostOnce | internal/signal/signal.go:303-305 | over any run of a new store the deliveries inject into the accepted posts, each to one of the same key and bytes |
| SignalPlain.StepMatches | internal/signal/signal.go:245-423 | with a clock that does not run backwards, each step of the store is a step of a plain map of live blobs beside a table of readers, with the same answer |
| SignalPlain.RunRefinesPlain | internal/signal/signal.go:245-423 | over whole runs the store and the plain machine, which neither collects nor sweeps, give the same reasons and bytes |
| SignalPlain.InitMatches | internal/signal/signal.go:195-218 | the correspondence holds at the start |
| SignalPlain.FirstWriteWins | internal/signal/signal.go:229-235 | a well-formed Post to an open store is refused as a conflict if and only if the key holds an unexpired blob, and then blob and expiry are untouched |
| SignalCost.ChannelsGrow | internal/signal/signal.go:267-284 | a step adds at most the channel it allocates, and one that sweeps leaves the threshold at twice what remains or more |
| SignalCost.PostStaysWithin | internal/signal/signal.go:267-269 | an accepted Post leaves no more channels mapped than the threshold at which the next one sweeps |
| SignalCost.SweepsAreAmortised | internal/signal/signal.go:507-517 | over any run of a new store, sweeps visit at most twice as many channels as Post and Get created |
| SignalStore.Store.constructor | internal/signal/signal.go:195-218 | a new store is the machine's initial state |
| SignalStore.Store.Post | internal/signal/signal.go:245-301 | Post on the objects is one step of the machine, including the waiter it picks and the channel it allocates |
| SignalStore.Store.GetEnter | internal/signal/signal.go:330-360 | the first critical section of Get is one step, and captures the mapped channel and a fresh waiter |
| SignalStore.Store.Receive | internal/signal/signal.go:366-367 | taking the blob from the buffer is one step and returns what was sent |
| SignalStore.Store.Finish | internal/signal/signal.go:375-390 | the second critical section is one step: it leaves with the machine's answer or goes on to drain |
| SignalStore.Store.Drain | internal/signal/signal.go:376-379 | the receive after a lost select returns the blob that was handed over |
| SignalStore.Store.Shutdown | internal/signal/signal.go:405-423 | Shutdown's nested loops over channels and waiters are one step |
| SignalStore.Store.SweepLocked | internal/signal/signal.go:507-517 | the sweep loop keeps exactly the channels that are waited on or hold an unexpired blob |
| RateLimit.SameKey | internal/ratelimit/ratelimit.go:432-464 | two requests share a counter if and only if class and network agree, the network being the /24 of an IPv4 address, mapped or not, and the /64 of any other |
| RateLimit.KeyBytes | internal/ratelimit/ratelimit.go:442-464 | a mapped address ::ffff:b has the key of b, for every b; an IPv4 key is three bytes and an IPv6 key eight, each told apart by its family |
| RateLimit.UnmapExactly | internal/ratelimit/ratelimit.go:438-445 | the twelve-byte mapped prefix and nothing else is read as IPv4, as the last four bytes |
| RateLimit.Configure | internal/ratelimit/ratelimit.go:262-291 | a set option is honoured; an unset one is 600 requests, an hour, 500,000 keys; the sweep interval is an eighth of the window, and the whole of it only below eight nanoseconds |
| RateLimit.LiveExactly | internal/ratelimit/ratelimit.go:424-430 | a window is current if and only if it opened less than its length away, or at least 2^63 ns ahead |
| RateLimit.DecideIsIdeal | internal/ratelimit/ratelimit.go:330-369 | for any table and reading, elapsed entries change neither the answer nor the current windows afterwards |
| RateLimit.AllowKeeps | internal/ratelimit/ratelimit.go:310-369 | under any clock the table never passes maxKeys and no counter its limit |
| RateLimit.EntriesStayFresh | internal/ratelimit/ratelimit.go:371-399 | after every decided request each entry is younger than a window and a sweep interval |
| RateLimit.RunStaysFresh | internal/ratelimit/ratelimit.go:310-399 | both bounds hold in every reachable state |
| RateLimit.RunRefinesIdeal | internal/ratelimit/ratelimit.go:310-399 | over runs the limiter refuses a valid request exactly when its key is current at its limit, or is not current and maxKeys current keys exist |
| RateLimit.SweepsAreInvisible | internal/ratelimit/ratelimit.go:371-399 | sweeps inserted anywhere, any number of times, change no answer |
| RateBound.DecideTracks | internal/ratelimit/ratelimit.go:330-369 | one decision admits a key only as the next of its current window or the first of one opened after that elapsed, and leaves every other key's window alone |
| RateBound.RunIsChain | internal/ratelimit/ratelimit.go:310-399 | over rollovers, evictions and both sweeps, a key's admissions form windows that open at least a window apart with at most the limit in each |
| RateBound.AdmissionBound | internal/ratelimit/ratelimit.go:62-67 | a key is admitted at most 2 * limit - 1 times in any half-open stretch of one window's length |
| RateBound.BoundIsReached | internal/ratelimit/ratelimit.go:62-67 | that bound is the best possible: a run reaches it for every configuration with a window over a nanosecond |
| RateLimiter.Limiter.New | internal/ratelimit/ratelimit.go:262-277 | the object starts with the configured limits and an empty table |
| RateLimiter.Limiter.Allow | internal/ratelimit/ratelimit.go:310-369 | the answer and the new table are those of the functions, and the table stays within its bounds; a limiter not made by New refuses everything |
| RateLimiter.TableState.SweepLocked | internal/ratelimit/ratelimit.go:392-399 | the deleting loop, in any order of visits, keeps exactly the current entries |
| RateLimiter.Limiter.Sweep | internal/ratelimit/ratelimit.go:380-388 | an explicit sweep does the same and schedules the next |
| RateLimiter.Limiter.TrackedKeys | internal/ratelimit/ratelimit.go:401-413 | never over maxKeys, which every method keeps, nor under the number of windows current at any time, and equal to it whenever all are; zero only for an empty table |
| Query.MaskedOk | internal/query/query.go:248-268 | masking keeps the declared bits, clears every other and makes the column word the first 32 of them |
| Query.Canonical | internal/query/query.go:248-252 | queries of one width are equal if and only if their significant bits agree |
| Query.NewQuery | internal/query/query.go:253-268 | the masking in place leaves in the buffer what the query holds |
| Query.MatchesIsAgree | internal/query/query.go:318-335 | an identifier matches if and only if it has the declared bits and they agree, at any width |
| Query.RangeIsAgree | internal/query/query.go:301-308 | the column range selects exactly the identifiers sharing the first min(bits, 32) bits |
| Query.ScanIsExact | internal/query/query.go:310-335 | range, and filter where the query asks for it, select exactly the matches |
| Query.FilterIsNeeded | internal/query/query.go:314-316 | for every query wider than the column some identifier is in range and does not match |
| Query.Prefix32 | internal/store/prefix.go:35-37 | the column value fits 32 unsigned bits, so a signed 64-bit column holds it |
| QueryText.OneSpelling | internal/query/query.go:151-168 | a bits parameter is read as n if and only if it is the decimal spelling of n and n fits 32 bits |
| QueryText.NibbleIs | internal/query/query.go:270-281 | a character reads as v if and only if it is digit v in either case |
| QueryText.Parse | internal/query/query.go:141-220 | the parser, with its loop over a zeroed buffer, answers as the function the other rows speak of |
| QueryText.Fill | internal/query/query.go:204-215 | the loop accepts exactly hex text and packs two characters a byte |
| QueryText.Accepts | internal/query/query.go:141-220 | exactly which texts are accepted for a width, and that an accepted query is well formed and carries the text's significant bits |
| QueryText.AcceptsOnlyDecimal | internal/query/query.go:151-168 | no other spelling of the width gets through |
| QueryText.Refuses | internal/query/query.go:141-220 | which condition draws each refusal, for every request |
| QueryText.FromBitsIs | internal/query/query.go:222-246 | a binary prefix is refused exactly for a width over 256 or for being too short, and otherwise gives the query of its first bits |
| QueryText.SpellingsAgree | internal/query/query.go:190-219 | texts of one width give equal queries if and only if their significant bits agree, whatever their case and padding |
| QueryText.AbsentIsEmpty | internal/query/query.go:180-188 | an absent prefix and an empty one are the same query at width zero |
| QueryText.PrefixHex | cmd/trigcheck/main.go:555-575 | the printer, rewriting the last character in place, prints as the function the next rows speak of |
| QueryText.PrintedBits | cmd/trigcheck/main.go:549-575 | what is printed is ceil(bits/4) hex characters carrying the identifier's bits and zero padding |
| QueryText.ClientIsUnderstood | cmd/trigcheck/main.go:555-575 | for every identifier and width the parser accepts what the client prints, reads the query of the binary prefix, and matches exactly the identifiers sharing those bits |
| Sizing.CapIsWidest | internal/query/query.go:109-121 | the bit-length form is exactly the largest b with k * 2^b records |
| Sizing.CapIsMonotone | internal/query/query.go:91-121 | the cap never narrows as records are added and never widens as k grows |
| Sizing.CapLeavesTwenty | internal/query/query.go:52-107 | the directory's cap leaves between 20 and 40 records for each bucket on average, and is zero below 20 records |
| Sizing.CapIsBelow58 | internal/query/query.go:65-72 | no int64 count allows a width over 58, so the identifier-length guard is never what refuses |
| Sizing.PrefixBits | cmd/trigcheck/main.go:538-547 | the loop, where it ends, returns the first width whose 64-bit shift passes the count |
| Sizing.LoopIsCapBelow | cmd/trigcheck/main.go:529-547 | below 2^62, for every k, the loop ends, and exactly at the server's formula |
| Sizing.StopsExactly | cmd/trigcheck/main.go:543-545 | for the client's k the loop ends if and only if the count is below 50 * 2^57 |
| Sizing.Understate | internal/api/meta.go:88-97 | the scaling loop computes the understated count without overflow |
| Sizing.UnderstatedBounds | internal/api/meta.go:66-87 | it is two significant figures, never more than the truth, and short by less than a tenth of itself |
| Sizing.UnderstatedMonotone | internal/api/meta.go:66-97 | a directory that grows never advertises less |
| Sizing.ClientWithinCap | internal/query/query.go:96-104 | a client that sizes its prefix from the advertised count is within the cap of the true one, for every count on which its loop ends |
| Records.LessIsValue | internal/store/store.go:235-241 | the order of the scan is ascending: of two identifiers the one that spells the smaller number comes first |
| Records.SortedIs | internal/store/store.go:235-241 | the order of a scan lists its identifiers once each, in that order |
| Records.SortedAscends | internal/store/store.go:235-241 | so the identifiers of a scan, read as big-endian numbers, strictly increase |
| Records.PutAnswers | internal/store/store.go:204-228 | which condition draws each answer of a put; only an acceptance changes the table, in one row |
| Records.ScanFindsHits | internal/store/store.go:235-285 | index range, expiry test and filter select exactly the live identifiers sharing the query's bits |
| Records.ScanIsLookup | internal/store/store.go:235-293 | filtering the ordered scan gives the envelopes of exactly those identifiers, in order |
| RecordStore.Store.Put | internal/store/store.go:204-228 | the object's table and answer are those of the upsert, which keeps every row filed under its own prefix |
| RecordStore.Store.ByPrefix | internal/store/store.go:266-293 | the row loop returns the envelopes of every live identifier sharing the query's bits, in identifier order, and no others |
| RecordStore.Store.Sweep | internal/store/store.go:302-312 | deletes the lapsed rows and no others, and returns how many |
| RecordStore.Store.Count | internal/store/store.go:314-329 | the count is the same whatever has been swept up to its reading, and is how many envelopes the lookup of width zero returns |
| Records.CountIgnoresSweeps | internal/store/store.go:295-301 | no sweep at or before a reading changes the count at that reading |
| Records.CountAfterPut | internal/store/store.go:189-228 | an accepted put adds one to the count if its record is unexpired and its identifier was not counted already, and any other put changes nothing |
| Records.CountIsLookup | internal/store/store.go:314-321 | the query of width zero finds every live record |
| RecordRuns.SweepsAreInvisible | internal/store/store.go:295-312 | two runs that differ only in where Sweep is called give the same reasons, lists and counts |
| RecordRuns.LookupReturnsLastPuts | internal/store/store.go:243-293 | after any run, lookups return byte for byte the last accepted envelope of each unexpired matching identifier, in ascending order of identifier, and nothing else |
| Accept.DecodeEnvelope | internal/record/envelope.go:94-132 | the loop over the field table decodes if and only if the version is 1 and every member is base64 of its width, the ciphertext of 16 bytes or more; each field is then what its own member says; and each error has its condition |
| Accept.DecodedWidths | internal/record/envelope.go:28-36 | whatever decodes has every field at its width and a ciphertext that holds its tag |
| Accept.FieldsExactly | internal/accept/accept.go:159-178 | a body gives fields if and only if it parses and its members are well encoded, whatever its version, and each field is what its own member says |
| Accept.SignatureCoversFields | internal/record/envelope.go:134-137 | two decoded envelopes have one signing input if and only if all their signed fields are equal |
| Accept.SigningBytesExactly | internal/record/envelope.go:134-137 | the signed bytes are the one string that holds version, identifier, key, expiry, nonce and ciphertext at their offsets |
| Accept.AuthenticExactly | internal/accept/accept.go:184-209 | authenticity in terms of the body's own members: the key member hashes to the identifier member, the proof is of that identifier and expiry, and the signature verifies under that key over those members at their offsets |
| Accept.FirstViolation | internal/accept/accept.go:146-220 | the answer is r if and only if the publish violates r and no condition before it in the table; acceptance means it violates none |
| Accept.AcceptedMeans | internal/accept/accept.go:146-220 | admitted are exactly the authentic envelopes (supported version, identifier the hash of its key, proof of work, signature) within the size limit that expire after the reading and by the 64-bit deadline; only those are returned decoded |
| Accept.OrdinarilyOnTime | internal/accept/accept.go:188-191 | the 64-bit deadline never comes out above the true sum for limits that are not negative, nor for any time to live while clock and grace are not |
| Publish.PutStoresVerbatim | internal/api/record.go:44-82 | an accepted publish is authentic and stored byte for byte, in a row whose columns repeat what it says, replacing only a lapsed or earlier-expiring one; any other publish changes nothing |
| Publish.BodySays | internal/api/record.go:71-82 | identifier, key and expiry of a stored row come from the members of those names |
| Publish.PublishAnswer | internal/reject/reject.go:37-91 | across limiter, check and store, a publish draws r if and only if it violates r and nothing before it in the table, on the body as sent; acceptance means it violates nothing, the recency rule included; the one exception, an empty body that the parser passes, is a storage error |
| Publish.UnreadableIsMalformed | internal/api/record.go:59-69 | a body that does not arrive whole draws the limiter's refusal or a malformed one, and stores nothing |
| Replay.AcceptedExpiriesIncrease | internal/store/store.go:164-187 | the expiries accepted for one identifier strictly increase, whatever the bodies, limits and cryptography, if and only if no sweep that takes effect between two publishes reads later than both, with room in 64 bits for an expiry past them |
| Replay.NoReplay | internal/accept/accept.go:211-216 | no body is accepted twice, whatever else, if and only if the schedule has no such sweep, with room for one expiry past both readings |
| Replay.OrdinaryReadings | internal/api/record.go:45-71 | for readings from 0 up to 2^62 seconds there is always room, so both conditions say that no sweep overtakes two publishes |
| Replay.OrderedIsClosed | internal/store/store.go:302-312 | readings that do not decrease are safe, and so are publishes in any order with no sweep between them |
| Replay.SlowPublishReplays | main.go:357-358 | a run under a clock that never steps back: a publish that read the clock before its expiry and took effect after a sweep that read it past is accepted a second time |
| Replay.RowsStayBounded | internal/accept/accept.go:188-191 | in whatever order readings come, no row expires later than the latest of them plus the time to live and the grace, provided that the 64-bit deadline is on time at each |
| Replay.BoundedExactly | internal/accept/accept.go:188-191 | that proviso is exact: at a reading where the deadline comes out late, some body is stored to expire beyond the true sum |
| Replay.DeadlineIs | internal/accept/accept.go:188-191 | the deadline is the reading plus time to live plus grace modulo 2^64 |
| Served.RowsStayAuthentic | internal/accept/accept.go:193-209 | after any run, under any clock, every row holds an authentic envelope and columns that repeat it, under its own identifier |
| Served.LastAtIsLast | internal/store/store.go:177-187 | the acceptance that the next row speaks of is the last one for its identifier, and absent only when there is none |
| Served.LookupServesLastBodies | internal/api/record.go:44-176 | publishing and looking up joined: after any run a lookup returns, in ascending order of identifier and byte for byte, the last accepted body of each identifier sharing the query's bits that has neither expired nor been swept past its expiry, and nothing else |
| Served.SweepsBehindDoNotShow | internal/store/store.go:295-301 | to a lookup that reads no earlier than every sweep did, sweeping does not show |
| Served.ServedAreAuthentic | internal/store/store.go:243-293 | every envelope served is authentic and unexpired, and its own identifier has the query's bits |
| Lookup.WriteBody | internal/api/record.go:164-172 | the response is the listed envelopes between its fixed ends |
| Lookup.ReproducedVerbatim | internal/api/record.go:84-101 | every envelope stands in the response byte for byte |
| Lookup.BodyIs | internal/api/record.go:164-172 | around the envelopes there is only the opening text, one comma between neighbours, and the closing text |
| Lookup.AnsweredExactly | internal/api/record.go:112-155 | a lookup is answered if and only if it is allowed, gives bits once as the decimal spelling of a width within the cap of the true count, and the matching prefix once, or none at width zero |
| Lookup.AnswerIs | internal/api/record.go:115-176 | an allowed, unambiguous request within the cap is answered with the lookup of the query it asks for, an absent prefix included; the limiter comes first whatever the parameters; a repeated parameter is refused as one |
| Lookup.RefusalIs | internal/api/record.go:124-152 | every other allowed request without repeats is refused for exactly the parser's reason, against the cap of the true count |
| Lookup.AdvertisedIs | internal/api/meta.go:45-97 | what is advertised is two significant figures of the live count, within a tenth, and all of a count below 100 |
| Lookup.BucketsAreQueries | internal/query/query.go:74-89 | the masked queries of a width are in bijection with the numbers below 2^width |
| Lookup.BucketsPartition | internal/query/query.go:91-104 | on one snapshot, for every width within the cap, the buckets partition the live records: sizes add up to the count, and the mean is at least k_min |
| Lookup.ClientIsAnswered | internal/api/record.go:119-155 | a query as the client writes it is refused only for being over the cap of the true count |
| Lookup.ClientFindsRecord | cmd/trigcheck/main.go:416-429 | end to end: sized from an advertised count that the true one has not dropped below since, a client's lookup is answered with exactly the live records sharing its bits, its own among them if live |
| ClientAddr.BlankHasNoComma | internal/clientaddr/clientaddr.go:234-242 | text that trims to nothing holds no entry separator, so exhaustion is never mistaken for an entry |
| ClientAddr.TrimsExactly | internal/clientaddr/clientaddr.go:230-242 | trimming takes the spaces off both ends, all of them and nothing else |
| ClientAddr.SpacesAre | internal/clientaddr/clientaddr.go:235-241 | which characters count as spaces |
| ClientAddr.EntryForms | internal/clientaddr/clientaddr.go:290-329 | the three forms of an entry: a bare address, brackets around an address, an address with a port; no text is read two ways |
| ClientAddr.UnderstoodIs | internal/clientaddr/clientaddr.go:311-329 | a mapped address in an entry is used as the IPv4 address it maps, any other as it is |
| ClientAddr.Extractor.Walk | internal/clientaddr/clientaddr.go:205-228 | the loop ends and computes the walk over the list of entries |
| ClientAddr.Extractor.WalkedIs | internal/clientaddr/clientaddr.go:174-203 | the walk returns the rightmost entry that names an untrusted address with only trusted hops to its right, and otherwise the peer |
| ClientAddr.Extractor.SpacesDoNotMatter | internal/clientaddr/clientaddr.go:230-242 | spaces around any of the entries change no answer |
| ClientAddr.Extractor.SpacedHeader | internal/clientaddr/clientaddr.go:205-242 | a header with spaces about its last entry is read as one without |
| ClientAddr.Extractor.ClientTextIsUnreachable | internal/clientaddr/clientaddr.go:186-203 | text to the left is consulted if and only if every appended entry is a trusted hop |
| ClientAddr.Extractor.ClientAddr | internal/clientaddr/clientaddr.go:161-172 | an untrusted peer makes the result independent of the header; no result is an IPv6 address of the mapped form |
| ClientAddr.Extractor.CheckTrusts | internal/clientaddr/clientaddr.go:253-260 | the scan says whether any configured prefix holds the address |
| Pow.InputAt | internal/pow/pow.go:45-72 | the hashed input is the text trig-pow-v1, identifier, 8-byte big-endian expiry and proof at fixed offsets |
| Pow.InputInjective | internal/pow/pow.go:59-64 | a proof is bound to its identifier and its expiry, for every int64 expiry: inputs of different challenges differ |
| Pow.LeadingZeroBits | internal/pow/pow.go:75-84 | the byte loop counts the zero bits above the value's highest one |
| Pow.LeadingZerosIs | internal/pow/pow.go:74-84 | at least b leading zeros means, and is meant by, a big-endian value below 2^(8n - b) |
| Pow.VerifyIsThreshold | internal/pow/pow.go:86-97 | a proof verifies if and only if it is eight bytes and the digest's big-endian value is below 2^(256 - powBits); negative and over-wide difficulties accept nothing |
| Pow.Solve | internal/pow/pow.go:109-141 | the search over one shared buffer returns the least counter that verifies, unless a poll before it said to stop; exhaustion means every counter failed |
| Pow.OneOutcome | internal/pow/pow.go:109-141 | those outcomes exclude each other, so the answer is determined |
| Pow.ExhaustedMeansNone | internal/pow/pow.go:86-97 | after exhaustion no proof field whatever verifies |
| Framing.CanonicalEnvelope | internal/record/canonical.go:58-67 | at the decoded widths the appends put version, identifier, key, big-endian expiry and nonce at their fixed offsets and the ciphertext to the end |
| Framing.CanonicalExactly | internal/record/canonical.go:19-57 | at the decoded widths the signing input is the one byte string with the fields at their offsets |
| Framing.FieldsAt | internal/record/canonical.go:8-17 | at these widths each field lies at its fixed offset and the ciphertext is the whole tail |
| Framing.CanonicalInjective | internal/record/canonical.go:42-57 | different tuples of the decoded widths never share a signing input, for every ciphertext length and every int64 expiry |
| Framing.WidthsAreNeeded | internal/record/canonical.go:44-52 | without the widths two different tuples do |
| Framing.MarshalsExactly | internal/record/plaintext.go:127-137 | framing makes length, body and signature of every body up to 65535 bytes and refuses exactly the longer ones |
| Framing.ParsesExactly | internal/record/plaintext.go:149-164 | a plaintext parses as body and signature if and only if it is their framing with no byte to spare |
| Framing.PlaintextRoundTrip | internal/record/plaintext.go:127-164 | framing then parsing returns every body up to 65535 bytes and its signature |
| Framing.VerifiesExactly | internal/record/plaintext.go:192-201 | a body is returned if and only if the plaintext frames it with a signature that verifies over those bytes |

## Left out

- HTTP routing, CORS, timeouts, panic reporting, flags and shutdown plumbing: I/O and wiring.
- SQLite: each statement is taken as its meaning on the table, and applies whole. Driver errors, pooling and pragmas are not modelled, so no handler answers 500 for a storage fault.
- JSON decoding and the duplicate-member scan: `World.parse` stands for them. Nothing is claimed about unambiguous parsing.
- Base64, SHA-256, Ed25519, AES-GCM and HKDF: parameters, or not used.
- Real time, fairness and goroutine scheduling: a wake-up is a step that may happen; that it does happen is not claimed. `EveryGetFinishes` says that it can.
- Locks: a critical section is one atomic step. That the code holds the mutex throughout is read from the source, not proved.
- Aliasing of stored bytes: blobs and envelopes are values, so the copies that the code makes to keep callers from changing them are not modelled.
- Overflow of a time's sum with a duration, and times before year one: times are integers.
- Zones of IPv6 addresses: the limiter's key never includes them.
- `ParsePrefixes`, `New` and `normalise` of the client address package: only which prefixes are trusted matters to the walk. `rightmostEntry` has no caller.
- The status-code tables, the source scans and the vector generators: finite tables or checks on text.
- Sizing.PrefixBits: requires that the loop ends, which `StopsExactly` and `LoopIsCapBelow` characterise, since the code does not end otherwise.
- Lookup.BucketsPartition: requires a width of at most 256 beside the cap; by `CapIsBelow58` that is implied for every count that fits an int64.
