# ZoneMTA, the Node.js half, as Dafny models

The modules here model the parts of ZoneMTA that have a guarantee over every run or over every way of cutting their
input. `dafny verify dfyconfig.toml` checks all of it.

**The body stream.** `LineEnds` and `DkimRelaxedBody` are classes with the fields of the JavaScript objects. Their loops
are proved against functions of the whole input (`FixLineEnds`, `HashedBytes`), so that the bytes fed to the hash do not
depend on the cutting. `RegexRewrites.dfy` has the four regular-expression replacements, `RelaxedText.dfy` what relaxing
means byte by byte, `HashedForm.dfy` what is hashed in terms of octets, and `Rfc6376Body.dfy` section 3.4.4 of RFC 6376,
line by line and on its own. `BodyPipeline.dfy` compares code and standard: over all bodies in which CR stands only
before LF, they agree if and only if `HasPlainEnding` holds.

**The queue.** `LockTable.dfy` says what the queue locker means, `QueueLocker.dfy` has the object with its three indexes
and proves every method against it. `QueueProtocol.dfy` is a step system: any number of instances share the rows and the
stored bodies, and each has a lock table and the callbacks it still has to run. Every database query, every callback and
every timer is an event of its own, and events of all instances interleave freely. A request for a delivery goes through
its stages with the skip list that it read when it came in, and a delivery handed out is a copy in the hands of a client
until that settles it, gives it up, or is cut off by the end of its connection or of its instance. On this rest
exclusive hand-out (`QueueExclusion`), that no row is lost or stuck (`QueueProgress`), how long rows and zones rest
(`QueueTiming`), the way of a request and whose the locks are (`QueueRequests`), what comes before deletions
(`QueueDeletion`), which rows can be handed out at all (`QueueZones`), who has a claim to a row and how often it is
deferred (`QueueClaims`), when a row is in two hands (`QueueHands`), how long bodies stay (`QueueBodies`), and when the
connection limit holds (`QueueLimit`, `QueueInTurn`). `QueuePush.dfy` has the rows that a push makes.

**The transport, the caches and the arithmetic.** `FrameParser`, proved against a function of the pieces that the socket
gives (`Framing.dfy`), `TtlCache`, alone and over series of calls (`TtlRuns.dfy`), `DomainConfig`, the blacklist of a
sending zone (`Blacklist.dfy`), `divideLoad`, the sender's decision after a failed attempt (`Retry.dfy`), the lines that
DKIM signs (`SignedHeaders.dfy`) and the throttle.

Where the code does not do what its documentation, a standard or the obvious reading says, the code is modelled as it is:

- The body hash departs from RFC 6376 on a last line without CRLF, on bodies of empty lines only, and when blanks stand
  on a line between the last visible byte and the end. Three lemmas give inputs; `HashMeetsStandard` gives the exact
  condition.
- `lockExists` compares the clock with a field that locks do not have, so a lock that is past its time still counts until
  the expiry check has run (lib/queue-locker.js:20, `LockPastItsTime`).
- Locking a domain that is being skipped puts an end to the skipping (lib/queue-locker.js:105-108), so the connection
  limit holds over a run exactly if that never happens (`ConnectionLimit`). And it does happen: `shift` reads the skip
  list before it picks a row and goes on using the list it has read. Requests that are in flight together exceed
  every limit (`LimitExceeded`); the connections and the locks still to be taken say exactly when (`ClaimsDecide`); and
  with one request at a time the limit holds (`OneAtATimeIsWithin`).
- A row is handed out only if clients can ask for its zone, now or when its instance has started again
  (`ServedExactly`). `push` takes a zone for known whose name
  becomes that of a zone once trimmed and in lower case, and puts the name in the row as it came. Clients ask for
  normal names only, so that the rows stay where they are, unless the name was normal (`AskedIsHandedOut`): a message for
  `Default` is accepted and stays in the queue (`CapitalLetter`). Rows of a zone whose configured name is not normal
  stay, too.
- A row is unlocked in the collection after 61 minutes though a client that is connected may still be at work on it. Over
  every run that is exactly what makes a row insecure (`SecureExactly`): 61 minutes are the longest time for which rows
  may be held if no row is ever to be in two hands (`HoldBound`). After it the row can be handed out to any other client
  (`HandedOutTwice`) and be deferred more often than its table is long (`BoundFails`). Otherwise the table bounds the
  deferrals and their sum (`DeferralsBound`), through clients that go away (`ClosedComesBack`) and restarts
  (`RestartBringsBack`).
- The garbage collector rounds its ten minutes to the nearest second. Rows never lose their body if they are pushed
  within 599.5 seconds of it, and can if it takes longer (`RetentionBound`).
- A frame header of 0 is taken for no header, and `encode` makes frames of more than the 3 MB that the parser accepts.
  The round trip holds for all cuttings if and only if every payload has 1 byte to 3 MB (`RoundTripsExactly`).
- The sample configuration has an entry `default` for the domain settings and calls it required (config/default.js:494-501),
  but `DomainConfig` takes its defaults from an entry `defaults` and passes over `default` (lib/sending-zone.js:425-440):
  it has no effect (`DefaultEntryIsIgnored`). The entry `defaults`, in turn, becomes a domain of that name, too, and that
  domain's list of disabled addresses is the very list of the defaults: an address blacklisted for the domain `defaults`
  is disabled for every domain without a list of its own, and this domain is the only one of which that is true
  (`OthersStay`); a domain blacklisted meanwhile keeps the address for good (`AddressStays`).
- Whitespace in header values is what JavaScript takes for it, so that a bare LF, or the byte 0xa0 inside a character of
  UTF-8, is changed where section 3.4.2 of RFC 6376 keeps it; `ValueMeetsStandard` has the exact condition.
- An entry of a pool with a negative ratio counts as one with a ratio, and yet gets the share of those without
  (`ShareAt`). A pool in which every entry has a ratio of its own divides into an empty list (`EmptyIfAllOwn`). Rounding
  can add a copy to an entry's share or take one away, but equal ratios still get equal numbers (`SharesAreFair`).
- Setting a cache key again gives up the callback of the entry that was there (`TtlCache.Set`).
- A domain configured to have no disabled addresses, in place of defaults that are not empty, gets the defaults after
  the first blacklisting (`RoundTripOfBlock`).
- Two sends in a row can be closer than the throttle's minimum time: with timers that are on time, exactly if the first
  was put off and the next call comes early (`AdjacentApartInTime`; `AdjacentApart` for timers that are late). Every
  other send cannot, however late the timers are (`TwoApart`).

What the models take for granted: instances have ids of their own, though all of them default to `default`
(lib/mail-queue.js:47); one clock for all instances; message ids have no spaces and are pushed once, in one
atomic insertion; client ids do not begin with `delete:`; the ids of rows and files carry the second of their creation
and no id ends in zeros only; the release of a row, with the look-up before it, is one step; a client settles a delivery
at most once for each time that it was handed it, and ids of clients differ; what a client whose connection has closed
was about to say to the queue is lost. I/O, timers, randomness and
bounce rules are inputs or events that happen at any time.

## Model

| member | source | states |
|---|---|---|
| LineEnding.FixLineEndsConcat | lib/line-ends.js:41-74 | The output for two inputs one after the other is that of the first and then that of the second after its last byte: cutting does not matter |
| LineEnding.OutputLength | lib/line-ends.js:39-70 | The output is longer than the input by one byte for each bare LF |
| LineEnding.NoBareLfInOutput | lib/line-ends.js:41-57 | Every LF sent follows a CR, which is what the body canonicaliser relies on |
| LineEnding.FixedPoint | lib/line-ends.js:41-57 | A text without bare LF passes unchanged |
| LineEnding.Idempotent | lib/line-ends.js:41-57 | Running the stream on its own output changes nothing |
| LineEnding.DeletingGivesBack | lib/line-ends.js:41-57 | Only CRs are inserted, each right before an LF, and deleting them gives back the input |
| LineEnding.IsTheRegexRewrite | lib/line-ends.js:23-76 | The byte loop is the same whole-input replacement that the canonicaliser writes with two regular expressions |
| LineEnding.FixChunk | lib/line-ends.js:41-72 | The loop with its pieces and its two ways to push yields the whole-input function of the chunk after its predecessor's last byte, and counts its bytes |
| LineEnding.LineEnds.constructor | lib/line-ends.js:12-18 | The stream begins in its invariant, with nothing received or sent |
| LineEnding.LineEnds.Transform | lib/line-ends.js:23-76 | Over every sequence of chunks, what was sent is the whole-input function of what was received, and both byte counts are right |
| RelaxedText.RewriteIsRelax | lib/dkim-relaxed-body.js:102-110 | The four replacements amount, on text without bare LF, to keeping of every run of blanks one space before a visible byte and nothing before a line end |
| RelaxedText.UntouchedIsRelaxed | lib/dkim-relaxed-body.js:78-100 | What the scan lets pass to the hash unrewritten is relaxed already |
| RelaxedText.RelaxConcat | lib/dkim-relaxed-body.js:102-118 | Text may be relaxed in parts unless the cut leaves blanks in front of a blank or visible byte |
| RelaxedBody.ScanChunk | lib/dkim-relaxed-body.js:30-76 | The backward scan with its three states finds the longest tail of blanks and then line-end bytes, and keeps, hashes or holds back accordingly |
| RelaxedBody.ScanForTrouble | lib/dkim-relaxed-body.js:78-100 | The forward scan asks for rewriting exactly if some byte is in one of the four bad positions |
| RelaxedBody.SplitUnique | lib/dkim-relaxed-body.js:28-76 | There is one way to split a text into what is hashed, blanks, and line-end bytes |
| RelaxedBody.AbsorbTracks | lib/dkim-relaxed-body.js:22-119 | After any chunk the hash has the relaxed body without its tail, and the remainder is that tail or the tail without its blanks |
| RelaxedBody.CuttingIsIrrelevant | lib/dkim-relaxed-body.js:121-151 | However a body without bare LF is cut, the bytes hashed at the end are one function of the body |
| RelaxedBody.BareLfDependsOnCutting | lib/dkim-relaxed-body.js:81-85 | With a bare LF the cutting matters, so the stream in front is needed |
| RelaxedBody.DkimRelaxedBody.constructor | lib/dkim-relaxed-body.js:9-20 | The stream begins in its invariant |
| RelaxedBody.DkimRelaxedBody.UpdateHash | lib/dkim-relaxed-body.js:22-119 | Hash and remainder move as the cut of the chunk says |
| RelaxedBody.DkimRelaxedBody.Transform | lib/dkim-relaxed-body.js:121-136 | The invariant over every sequence of chunks; the chunk is sent on as it is |
| RelaxedBody.DkimRelaxedBody.Finish | lib/dkim-relaxed-body.js:138-151 | The bytes hashed are the whole-body function, and an empty body is sent on as CRLF |
| BodyPipeline.StandardForm | lib/dkim-relaxed-body.js:102-144 | What section 3.4.4 of RFC 6376 asks for, defined by octets and lines without the model of the code: the relaxed text up to the last visible byte and one CRLF, or nothing |
| BodyPipeline.CodeForm | lib/dkim-relaxed-body.js:138-143 | What the code hashes, in the same terms: the same text, followed by a number of CRLFs that the ending decides |
| HashedForm.HashedOctets | lib/dkim-relaxed-body.js:102-143 | Over all bodies, in octets: no 9 is hashed, and no 32 before a 32, 13 or 10; the other octets but 13 and 10 are hashed as they are and in their order |
| HashedForm.SentLineEnds | lib/line-ends.js:41-57 | In octets: every 10 that is sent follows a 13 |
| HashedForm.FixKeepsOthers | lib/line-ends.js:41-57 | The line-end stream sends all octets but line ends and blanks as they are and in their order |
| BodyPipeline.HashMeetsStandard | lib/dkim-relaxed-body.js:102-151 | For every body made of lines, the code's bytes are the standard's if and only if the body has a plain ending |
| BodyPipeline.PipeMeetsStandard | lib/mail-drop.js:138 | For every message in which CR stands before LF only, the composed pipe meets the standard if and only if the ending is plain |
| BodyPipeline.HashMessageBody | lib/mail-drop.js:125-138 | The composed objects, on every input and cutting, hash the whole-input function and pass the fixed text on; no tab and no blank that is followed by another or a line end is hashed, and everything else of the input in its order; the standard is met exactly on plain endings |
| BodyPipeline.DepartsWithoutFinalLineEnd | lib/dkim-relaxed-body.js:140-143 | A body without final CRLF is hashed without one, where the standard adds it |
| BodyPipeline.DepartsOnTwoEmptyLines | lib/dkim-relaxed-body.js:140-143 | Two empty lines are hashed as CRLF, where the standard has nothing |
| BodyPipeline.DepartsOnBlankLastLine | lib/dkim-relaxed-body.js:140-143 | An empty line before a blank one is kept, where the standard drops both |
| LockTable.ReleaseAllLocks | lib/queue-locker.js:161-168 | Releasing several keys, in any order, removes exactly their locks |
| LockTable.CountAfterAcquire | lib/queue-locker.js:46-100 | A lock taken adds one connection to its own zone and domain and to no other, and none if its key was taken |
| LockTable.CountAfterRelease | lib/queue-locker.js:114-145 | A lock released takes one connection from its own pair and from no other |
| LockTable.SkippingIsJustified | lib/queue-locker.js:102-108 | In every run with one limit, a skipped domain has at least as many locks as the limit |
| LockTable.AcquireKeepsSkips | lib/queue-locker.js:102-108 | Whatever the limits, a domain that is skipped has a lock after a lock has been taken |
| LockTable.ReleaseKeepsSkips | lib/queue-locker.js:139-148 | Whatever the limits, a domain that is skipped has a lock after one has been released |
| LockTable.StepWithinLimit | lib/queue-locker.js:95-109 | A step keeps the connections within the limit, and the skipped domains the full ones, if and only if it does not lock a skipped domain |
| LockTable.ConnectionLimit | lib/queue-locker.js:95-151 | Over every run with one limit, no domain exceeds it and exactly the full ones are skipped, if and only if no skipped domain is ever locked |
| LockTable.LockingASkippedDomain | lib/queue-locker.js:102-108 | Otherwise the domain has one connection too many and is no longer skipped |
| QueueLocking.IndexesAfterAdd | lib/queue-locker.js:72-109 | Entering a lock in all indexes keeps them in agreement, and the skip sets become those of the table |
| QueueLocking.IndexesAfterRemove | lib/queue-locker.js:123-152 | The same for taking a lock out, where sets and zones left empty go |
| QueueLocking.LinkToOwner | lib/queue-locker.js:82-86 | The owner's set gets the lock, and is made if it was not there |
| QueueLocking.UnlinkFromOwner | lib/queue-locker.js:126-131 | The owner's set loses the lock, and goes if that leaves it empty |
| QueueLocking.LinkToZone | lib/queue-locker.js:87-109 | The zone is made if it was not there, and takes the lock if that has a domain |
| QueueLocking.LinkToDomain | lib/queue-locker.js:95-109 | The zone's maps after a lock, with the turn of the skip flag and of the cached list |
| QueueLocking.UnlinkFromZone | lib/queue-locker.js:133-152 | The zone's maps after a release |
| QueueLocking.FindExpired | lib/queue-locker.js:173-183 | The loop finds exactly the keys due, and a next check that is no later than any other lock's expiry |
| QueueLocking.ArrayFrom | lib/queue-locker.js:194-196 | The cached list has exactly the members of the skip set |
| QueueLocking.QueueLocker.constructor | lib/queue-locker.js:6-15 | The object begins as the empty table |
| QueueLocking.QueueLocker.DomainIsSkipped | lib/queue-locker.js:29-44 | True exactly for the pairs that the table skips |
| QueueLocking.QueueLocker.Lock | lib/queue-locker.js:46-112 | Refines taking a lock in the table: false exactly if the key is taken; the lock expires after the time given or ten minutes; its domain is skipped afterwards exactly if it was not before and is full now, and no other pair changes; all indexes and the next check go on agreeing |
| QueueLocking.QueueLocker.Release | lib/queue-locker.js:114-159 | Refines releasing in the table, with the indexes; a domain that is left with room is no more skipped, and no other pair changes; the check timer goes with the last lock |
| QueueLocking.QueueLocker.ReleaseLockOwner | lib/queue-locker.js:161-168 | Removes exactly the locks of the owner |
| QueueLocking.QueueLocker.CheckExpired | lib/queue-locker.js:170-189 | Removes exactly the locks that expire now or before; the next check is no later than any that stays |
| QueueLocking.QueueLocker.ListSkipDomains | lib/queue-locker.js:191-203 | Cached or not, the list has exactly the domains now skipped, and nothing is returned exactly if there are none |
| QueueLocking.LockPastItsTime | lib/queue-locker.js:17-27 | For every lock and every time past its time to live: the key is refused until the expiry check has run, and taken after it |
| QueueProtocol.RowOrigin | lib/mail-queue.js:422-434 | After any event a row has the assignee it had, unless it was just picked, and is unlocked or was locked before |
| QueueExclusion.KeyInjective | lib/mail-queue.js:461 | Lock keys of different rows differ, as message ids have no spaces |
| QueueExclusion.HomedStep | lib/mail-queue.js:400-471 | Every event keeps that assigned rows, sender locks, pending hand-outs and the deliveries that clients have are all with the instance that picked the row first |
| QueueExclusion.HomedRun | lib/mail-queue.js:400-471 | Over every run that holds, and an assignment once made never changes |
| QueueExclusion.HandlingIsAtHome | lib/mail-queue.js:422-471 | A row assigned to an instance is not picked, locked or handed out by another |
| QueueExclusion.OneSenderLock | lib/queue-locker.js:46-49 | In every reachable state, at most one sender lock exists for a row in the whole system |
| QueueExclusion.OneInstanceHandsOut | lib/mail-queue.js:422-565 | In every run, all hand-outs of a row are by the same instance, through deferral, client loss, expiry, collection and restart |
| QueueProgress.RowsStay | lib/mail-queue.js:701-746 | A row is in the collection after a run if and only if no release, suppression, deletion, collection for age or missing body came for it |
| QueueProgress.RowsStayAway | lib/mail-queue.js:186-367 | A row taken out never comes back |
| QueueProgress.PushedRowsStay | lib/mail-queue.js:213-241 | Every row ever pushed is there at the end of a run if and only if no such event came after its push |
| QueueProgress.TimelyRun | lib/mail-queue.js:455-468 | In every reachable state, no lock expires and no zone is passed over later than the locks' time to live from now, and every skipped domain has a lock |
| QueueProgress.ExpiryEndsSkipping | lib/queue-locker.js:170-189 | Lock expiry puts an end to the skipping of a domain all of whose locks are due |
| QueueProgress.RowIsServed | lib/mail-queue.js:378-574 | For a row of a zone that clients of the instance can ask for: at any time by which its delay, its stored lock plus 61 minutes, the locks for it and for its zone and domain, and the pause of an empty zone are over, a request gets the row, or drops it if its body is gone |
| QueueProgress.NoRowIsStuck | lib/mail-queue.js:957-981 | In every reachable state, if rows are pushed within 599.5 seconds of their body, every row of a zone that clients can ask for can be handed out at any time after its delay that is 61 minutes ahead, without a restart, even if its domain is full now |
| QueueProgress.FreeWhenDue | lib/mail-queue.js:961-981 | When nothing holds a row back any more, lock expiry and the unlocking of old rows leave it ready to be found: free, its key not locked and its domain not skipped |
| QueueProgress.RestartFrees | lib/mail-queue.js:1331-1362 | A restart of its instance, with zones that include the row's, makes a locked row whose delay is over available at once; a request then hands it out, or drops it if its body is gone |
| QueueTiming.DeferredRests | lib/mail-queue.js:768-783 | Over every run: after a deferral, no instance picks the row before the delay is over, unless it is sent now or deferred again in between |
| QueueTiming.PushedRests | lib/mail-queue.js:309-330 | Over every run: a row pushed with a later time to be due at is not picked before it, with the same exceptions |
| QueueTiming.SentNow | lib/api-server.js:518-535 | The exception: a row that only waits for its delay can be handed out at once after it is sent now |
| QueueTiming.DeferredComesBack | lib/mail-queue.js:768-860 | A row deferred, with no other connection to its domain, can be handed out again right when the delay is over, its count one up |
| QueueTiming.ZoneRests | lib/mail-queue.js:392-455 | Over every run: a zone in which nothing was found is not asked for again within five seconds, unless the instance starts again |
| QueueTiming.LockLastsAnHour | lib/mail-queue.js:464-468 | Over every run: the lock of a row does not expire within the hour after it was taken |
| QueueRequests.HandOutPath | lib/mail-queue.js:378-574 | Over every run, before every hand-out and in this order: the request came in; the row was due then, free, of the zone and of no domain skipped then, and was picked; its lock was free and was taken; its body was found |
| QueueRequests.NothingWasThere | lib/mail-queue.js:400-456 | Over every run: a request is told that there is nothing only if no row is free, of the zone, due when it came in, for the instance to take, and of no domain skipped then |
| QueueRequests.UntilAnswered | lib/mail-queue.js:378-574 | Over every run: a request that came in is in flight, or was answered or given up for an error, or its instance has started again |
| QueueRequests.LocksAreHeld | lib/mail-queue.js:455-574 | Over every run in which no client goes away with the row, gives it up or settles it late: whenever the row is locked for a sender, a request or client of that owner has it, or the release of the lock is about to be run |
| QueueDeletion.CollectedIsOld | lib/mail-queue.js:991-1024 | Over every run: a row is collected for its age only after it was found free and to have been in the queue for the time allowed, less a second and a half |
| QueueDeletion.DeletionPath | lib/mail-queue.js:593-636 | Over every run: the API deletes a row only after its lock was found free and was taken |
| QueueDeletion.DeletionExcludes | lib/mail-queue.js:615-620 | Over every run: for a minute after that the lock stays taken at the instance, unless it is released |
| QueueDeletion.DeletionsAreHeld | lib/mail-queue.js:615-636 | Over every run: whenever a row is locked for a deletion, that or the release of the lock is about to be run |
| QueueZones.ZonedRun | lib/mail-queue.js:415-434 | Over every run, requests in flight are for zones of their instance, and a row that one has picked is of its zone |
| QueueZones.NeverHandled | lib/queue-server.js:80-125 | Over every run, a row of a zone that clients of the instance cannot ask for is never picked, locked or handed out there before the instance starts again with that zone |
| QueueZones.ServedExactly | lib/mail-queue.js:378-574 | In every reachable state, and for all zones that restarts may bring, a row that is the instance's to take can be handed out by it in some continuation if and only if clients of the instance can ask for its zone or a restart may bring it |
| QueueZones.AskedIsHandedOut | lib/mail-queue.js:197-363 | In every run from a push with a known zone that routing leaves alone: a row of it can be handed out by an instance with the configured zones if and only if the zone was asked for by its normal name |
| QueueClaims.ClaimsAt | lib/mail-queue.js:415-574 | Every event ends at most one claim to a row, by request or client, and begins at most one in its place, except that the end of a client's connection cuts off what that client has, and a restart everything (lib/queue-server.js:64-79, services/sender.js:82-94) |
| QueueClaims.SecureExactly | lib/mail-queue.js:957-981 | Over every run, no row is claimed twice and every claimed row is locked for the instance with the count its claim knows, if and only if the unlocking of old rows never hits a row that a request or a connected client still has |
| QueueClaims.DecisionFollows | lib/sender.js:746-765 | What the sender decides for a count is the deferral by its table for that count |
| QueueClaims.DeferralsBound | lib/mail-queue.js:768-783 | In every run of the queue without such an unlocking, whatever clients are lost and however often instances start again, the count in a row is at most the length of the table, the delays since its push are the table's in turn, and they add up to no more than the table |
| QueueHands.HoldBound | lib/mail-queue.js:957-981 | In no run is a row in the hands of two clients, if requests and connected clients are through with rows within a given time of picking them, if and only if that time is at most 61 minutes |
| QueueHands.HandedOutTwice | lib/mail-queue.js:957-981 | From every reachable state in which a client has a row for the current count, and for every other client, a run of 61 minutes after which both have it |
| QueueHands.BoundFails | lib/mail-queue.js:768-783 | From every reachable state in which a client has a row with one deferral left, a run in which all senders follow the table and the count exceeds its length |
| QueueHands.ClosedComesBack | lib/queue-server.js:64-79 | From every reachable state in which a client has a secure row, a run in which its connection closes and the row is handed out again 61 minutes later, the row staying secure throughout |
| QueueHands.RestartBringsBack | lib/mail-queue.js:1331-1362 | From every reachable state in which a row is assigned and due, a run in which its instance starts again and hands it out at once, and no claimed row is unlocked |
| QueueLimit.ClaimsDecide | lib/mail-queue.js:415-471 | Whatever locks the requests in flight go on to take, the connections stay within the limit if and only if those there are and those still to come do not exceed it |
| QueueLimit.LimitExceeded | lib/mail-queue.js:415-471 | For every limit, a run from the start in which all locks have the limit and all requests respect the skip list they read, and that ends with one connection too many |
| QueueInTurn.OneAtATimeIsWithin | lib/mail-queue.js:415-571 | In every run in which requests come in one at a time at an instance, no domain exceeds the limit there and exactly the full ones are skipped, through retries with an old skip list, client loss, expiry and deletions |
| QueueBodies.KeptRun | lib/mail-queue.js:1026-1063 | If rows are pushed within 599.5 seconds of their body, in every run every row has its body |
| QueueBodies.BodyLost | lib/mail-queue.js:1041-1055 | For every longer time there is a run in which the collector takes a body that a row needs |
| QueueBodies.RetentionBound | lib/mail-queue.js:1026-1063 | No interleaving of releases and collections deletes a body while a row for it exists, if and only if the time is at most 599.5 seconds |
| QueueBodies.LastReleaseChecksBody | lib/mail-queue.js:716-745 | In every reachable state, a stored body whose last row has gone is about to be looked at or deleted, unless a restart cut that off |
| QueuePush.NumberReadsBack | lib/mail-queue.js:302 | A row's number has three digits at least and can be read back |
| QueuePush.NumbersWritten | lib/mail-queue.js:302 | How 1, 10, 255 and 4096 are written |
| QueuePush.NumbersDiffer | lib/mail-queue.js:300-305 | The rows of a message have different numbers |
| QueuePush.PrepareDocuments | lib/mail-queue.js:196-363 | The zone asked for counts as known if its normal form is, and is taken as it came; then one row to be for each recipient, under the numbers from 1 up, in the zone that routing and the hook say, in the domain of the recipient, and due now or when the envelope says, if that is later; failure exactly for an empty list or a hook that fails |
| QueuePush.RouteInOrder | lib/mail-queue.js:254-288 | The zone asked for goes before that of the sender, of the recipient, of the origin, and the default |
| QueuePush.ClientsAskForServed | lib/queue-server.js:86-122 | The zones that some client can ask for are exactly the configured ones whose names are normal |
| QueuePush.AskedIsServed | lib/mail-queue.js:203-206 | A zone asked for in an envelope and found makes rows that clients can ask for if and only if its name came in normal form |
| QueuePush.RoutedIsServed | lib/sending-zone.js:500-510 | A zone found by routing makes rows that clients can ask for if and only if its normal name is configured |
| QueuePush.CapitalLetter | lib/mail-queue.js:203-206 | `Default` is found and not served |
| Strings.NormalIsNormal | lib/sending-zone.js:557-560 | A name trimmed and in lower case stays the same when this is done again |
| QueuePush.PushMakesRows | lib/mail-queue.js:213-241 | The insertion adds exactly those rows to the collection, free and not assigned, and changes no row of another message |
| Framing.FirstFrame | lib/transport/frames.js:12-18 | A frame at the start of a stream, and what follows it, is determined by the bytes |
| Framing.UniqueDecoding | lib/transport/frames.js:12-18 | A stream of frames can be read in one way only |
| Framing.LeastFirst | lib/transport/frames.js:15 | The size goes out with its least significant byte first |
| Framing.WritesBack | lib/transport/frame-parser.js:64 | Writing the size that was read gives back the four bytes |
| Framing.FrameParser.constructor | lib/transport/frame-parser.js:11-29 | The parser begins in its invariant, with nothing arrived or emitted |
| Framing.TakeAccounts | lib/transport/frame-parser.js:51-107 | For any bytes: unless the parser gives up, what it took is what it accounts for as frames, header and pile, except for a header of 0 with nothing behind it |
| Framing.ParseBound | lib/transport/frame-parser.js:31-113 | The encodings of the frames passed on are never longer than the bytes read |
| Framing.ParseFollows | lib/transport/frame-parser.js:31-113 | On a stream of sendable payloads, however cut, nothing is refused, and at every point the bytes read are the encodings of the frames passed on, the pending header and the pile |
| Framing.Arrives | lib/transport/frame-parser.js:31-113 | When the whole stream has been read, the payloads are the frames, and nothing is left over |
| Framing.BadCutting | lib/transport/frame-parser.js:64-74 | For every list with a payload that is empty or of more than 3 MB, a cutting that ends a piece behind its header, after which the frames are not the payloads |
| Framing.RoundTripsExactly | lib/transport/frame-parser.js:31-113 | Payloads come out as they went in for every cutting if and only if each has 1 byte to 3 MB |
| Framing.FrameParser.GetFrame | lib/transport/frame-parser.js:94-107 | Passes on the frame and piles up what is behind it |
| Framing.FrameParser.Process | lib/transport/frame-parser.js:51-107 | All branches behind the read take the state where the specification has it |
| Framing.FrameParser.Read | lib/transport/frame-parser.js:31-92 | Keeps the object on the way to the state that the pieces read so far lead to, where a read takes all that has arrived; makes progress |
| Framing.FrameParser.Drain | lib/transport/frame-parser.js:31-92 | The runs that are due come to an end |
| Framing.FrameParser.Readable | lib/transport/frame-parser.js:23-28 | Bytes may arrive at any time, also while a run is due or the handler is at work |
| Framing.FrameParser.StateIsParse | lib/transport/frame-parser.js:31-113 | When no run is due, or the parser has given up, its state is the function's for some cutting of the bytes that arrived |
| Framing.ReceiveAll | lib/transport/frame-parser.js:31-113 | The objects, for every way in which bytes arrive and every timing of the runs, with late runs joining what has arrived: the frames are those of some cutting, and sendable payloads come out once each and in order |
| TtlCaching.SortIn | lib/ttl-cache.js:52-65 | The one loop from the end takes out the key's old entry and puts the new one behind the last that does not expire later |
| TtlCaching.WithoutKeeps | lib/ttl-cache.js:55-56 | Taking out a key keeps order and all other entries |
| TtlCaching.WithoutIs | lib/ttl-cache.js:55-56 | Taking out a key leaves the array as it is but for the entry of the key |
| TtlCaching.SortedInKeeps | lib/ttl-cache.js:57-65 | Putting in an entry of a new key keeps the order, one entry a key, and all entries |
| TtlCaching.SortedInPlace | lib/ttl-cache.js:52-65 | A new entry stands behind all that expire no later and in front of all that expire later, which keep their order |
| TtlCaching.TakeExpired | lib/ttl-cache.js:93-105 | The loop takes exactly the entries that expire now or before, in order of expiry, and each of their callbacks once, and leaves all others as they are |
| TtlCaching.TtlCache.constructor | lib/ttl-cache.js:4-11 | An empty cache with the given or the standard time to live |
| TtlCaching.TtlCache.Get | lib/ttl-cache.js:13-24 | Never a value past its expiry, never none before it; an expired entry leaves with its callback |
| TtlCaching.TtlCache.Set | lib/ttl-cache.js:27-68 | The map gets the entry with its expiry, or loses the key; map and array go on agreeing; the callback of an entry overwritten is given up |
| TtlCaching.TtlCache.Remove | lib/ttl-cache.js:116-135 | The key goes from map and array, and its callback is scheduled once |
| TtlCaching.TtlCache.CheckExpired | lib/ttl-cache.js:89-114 | Exactly the entries that expire now or before leave map and array, their callbacks scheduled in order of expiry; the others stay as they are |
| TtlCaching.TtlCache.Flush | lib/ttl-cache.js:137-142 | Nothing is left, and no callback is scheduled |
| TtlRuns.Use | lib/ttl-cache.js:13-142 | Over every series of calls: a value stored and since neither overwritten, removed nor flushed is what is got before it expires, nothing is got after that, and at the very time it is got unless an expiry check has run at it |
| Blacklist.BlockAgrees | lib/sending-zone.js:317-339 | Blacklisting an address not yet disabled keeps every list its configured part and the addresses live or pending, each once |
| Blacklist.LeaveAllAgree | lib/ttl-cache.js:93-105 | Entries leaving the cache keep it, as their callbacks are pending |
| Blacklist.UnblockAgrees | lib/sending-zone.js:294-310 | Running a callback keeps it: the address goes, configured ones never do |
| Blacklist.RoundTripOfBlock | lib/sending-zone.js:294-343 | Blacklisting and its end give the domain back its list, if and only if the list was not configured empty over defaults that are not |
| Blacklist.OthersStay | lib/sending-zone.js:317-324 | Blacklisting leaves the lists of all other domains alone if and only if the domain is not the one whose list is that of the defaults |
| Blacklist.AddressStays | lib/sending-zone.js:294-339 | Otherwise a domain blacklisted meanwhile keeps the foreign address when both times are over |
| Blacklist.BlockIsClean | lib/sending-zone.js:317-339 | As long as the defaults' list is untouched, blacklisting for any other domain keeps it so, and every list its configured part and the addresses live or pending |
| Blacklist.UnblockIsClean | lib/sending-zone.js:294-310 | So does the end of a blacklisting |
| Blacklist.GetAddress | lib/sending-zone.js:172-200 | The address is of the pool, nothing if the pool is empty, and a disabled one exactly if every address of the pool is disabled, which is then reported; it is the usable one, or the one of the pool, at the absolute remainder of the hash |
| Blacklist.UsableInOrder | lib/sending-zone.js:183-185 | The usable entries are those of the pool, in its order and as often as there |
| Blacklist.EachIsReached | lib/sending-zone.js:196-199 | Every usable address is chosen for some hash |
| DomainSettings.DefaultEntryIsIgnored | lib/sending-zone.js:425-440 | What the entry `default` of the configuration says makes no difference |
| DomainSettings.ConfiguredIs | lib/sending-zone.js:437-445 | What is stored of the configuration, entry by entry |
| DomainSettings.CompleteHas | lib/sending-zone.js:427-435 | Completed defaults have the limit given, or 5 if there is none, 0 or an empty text; the list of disabled addresses given, one for a single address, an empty one for none; and all else as it was |
| DomainSettings.AfterPut | lib/sending-zone.js:447-452 | After a change of one setting, all others are as before, and no domain is without settings |
| DomainSettings.AfterDrop | lib/sending-zone.js:466-474 | After a removal, all other settings are as before, and a domain whose last setting went is gone |
| DomainSettings.DomainConfig.constructor | lib/sending-zone.js:422-445 | The loops over domains and keys store exactly the settings of the configuration, but for one entry, and share the defaults' list with the domain `defaults` if there is one |
| DomainSettings.DomainConfig.Set | lib/sending-zone.js:447-452 | In the two-level map, one setting has the new value and every other its old one; the defaults stay, and are no more shared with a list that was replaced by another |
| DomainSettings.DomainConfig.Get | lib/sending-zone.js:454-464 | The domain's own setting itself, or else a copy of the default, or else nothing |
| DomainSettings.DomainConfig.Remove | lib/sending-zone.js:466-474 | In the two-level map, one setting is gone and every other has its old value; no domain stays with no settings |
| DomainSettings.DomainConfig.ChangeList | lib/sending-zone.js:319-323 | A list changed in place is changed for its domain and no other, and for the defaults exactly if they share it |
| Blacklist.SendingZone.constructor | lib/sending-zone.js:422-445 | The zone begins with the configured settings, the shared list if it is configured, and nothing blacklisted |
| Blacklist.SendingZone.AddAddress | lib/sending-zone.js:317-324 | The list is changed in place or copied, as the object handed out was, and stored; nothing happens if the address is on it |
| Blacklist.SendingZone.DeferDelivery | lib/sending-zone.js:312-343 | An address not yet disabled is put on the domain's list, and on the defaults' if that is the same list, and has a cache entry for the configured time; unless it was the same list, every list goes on being its configured part and the addresses live or pending |
| Blacklist.SendingZone.RemoveFromBlacklist | lib/sending-zone.js:294-310 | The domain's list, and the defaults' if it is the same, without the address, or the defaults if that leaves none |
| Blacklist.SendingZone.RunCallback | lib/sending-zone.js:337 | A pending callback unblocks the entry's address, and keeps the agreement of lists, cache and callbacks |
| Blacklist.SendingZone.CheckExpired | lib/ttl-cache.js:89-114 | Exactly the entries that expire now or before leave the cache, and lists, cache and pending callbacks go on agreeing |
| Blacklist.SendingZone.RemoveEntry | lib/ttl-cache.js:116-135 | Keeps the agreement when an entry is removed before its time |
| LoadDivision.SharesAreFair | lib/address-tools.js:149-180 | For every rounding: if some entry has no ratio of its own, each with a positive ratio gets a copy, at least its share of the items and less than one more, up to one rounding of the share, a larger ratio never less, and entries without one the same number |
| LoadDivision.ShareAt | lib/address-tools.js:134-160 | Final ratios: an entry's own, at most 1; each entry with none gets an equal part of what is left of 1, but for two roundings, and 0 if nothing is left; an entry with a negative ratio gets as much |
| LoadDivision.TotalNear | lib/address-tools.js:163 | The sum worked out is the exact one but for one rounding for each entry |
| LoadDivision.ItemsAre | lib/address-tools.js:167 | The number of items is the sum of the final ratios over the least positive one, rounded up, but for roundings |
| LoadDivision.SharesOfTheSum | lib/address-tools.js:163-180 | For any two entries with positive final ratios, the copies of one are to its ratio at least as the sum to the other's, and less than one more than the sum over the least ratio, rounded up, calls for; but for roundings |
| LoadDivision.CopiesAre | lib/address-tools.js:174 | The number of copies is what the ratio calls for and less than one more, up to one rounding, and 0 for nothing only |
| LoadDivision.SpreadInOrder | lib/address-tools.js:169-180 | The list is made of the entries' copies, in the order of the pool |
| LoadDivision.EmptyIfAllOwn | lib/address-tools.js:149-167 | For every rounding: the list is empty if and only if every entry has a ratio of its own |
| LoadDivision.SharesInRange | lib/address-tools.js:134-165 | For every rounding: final ratios are between 0 and 1, and not all are 0 unless every entry had its own |
| LoadDivision.TakeOwnRatios | lib/address-tools.js:130-147 | The first loop clamps the given ratios, counts them and adds them up |
| LoadDivision.FillIn | lib/address-tools.js:152-165 | The second fills in the share and finds total and smallest |
| LoadDivision.SpreadOut | lib/address-tools.js:169-180 | The nested loops make the copies |
| LoadDivision.DivideLoad | lib/address-tools.js:129-183 | The whole method, with each operation rounded where floating point rounds, yields the list that the lemmas are about |
| Retry.HandleResponseError | lib/sender.js:712-870 | By kind of failure: final blacklist ones are released; a given action decides; HTTP 400 to 499 is released and other HTTP deferred; preset categories are deferred if temporary; coded ones are released exactly if the rule says reject; the rest is deferred; all while the table lasts, with its entry for the count as the delay |
| Retry.KindsDecide | lib/sender.js:712-760 | The decision that the life of a delivery is made of is that one, kind by kind |
| Retry.RetriesEnd | lib/sender.js:746-854 | Over every series of failures the count stays within the table, the delays are the table's in turn, and the delivery is released if and only if the table is used up or a failure is final |
| Retry.TwoDays | lib/sender.js:28-33 | With the standard table the delays never exceed 48 hours |
| Retry.DefaultTableSum | lib/sender.js:28-33 | The standard table has seventeen delays from five minutes to four hours, none shorter than the one before, and is 48 hours in all |
| SignedHeaders.FoldingIsIrrelevant | lib/dkim-sign.js:115-121 | Folding a value at any blanks, with any indent, does not change what is signed (section 3.4.2 of RFC 6376) |
| SignedHeaders.SelectedIs | lib/dkim-sign.js:100-107 | Exactly the names asked for that have a line are selected, each once |
| SignedHeaders.Include | lib/dkim-sign.js:85-90 | The set keeps the names in the order of their first mention |
| SignedHeaders.IncludedInOrder | lib/dkim-sign.js:85-90 | Of two names in the set, the one mentioned first comes first |
| SignedHeaders.TakeLastLines | lib/dkim-sign.js:92-98 | Each field has the canonical value of its bottom-most line (section 5.4.2 of RFC 6376) |
| SignedHeaders.ValueMeetsStandard | lib/dkim-sign.js:115-121 | A value is what section 3.4.2 of RFC 6376 asks for if and only if, its line ends taken out, it has no whitespace but spaces and tabs |
| SignedHeaders.ValueDeparts | lib/dkim-sign.js:115-121 | A value that ends in 0xa0 loses it, where the standard keeps it |
| SignedHeaders.SelectLines | lib/dkim-sign.js:85-107 | Names and values correspond one to one, without repeats and in the order of first mention, each of the bottom-most line |
| SignedHeaders.SplitJoined | lib/dkim-sign.js:85-111 | A list of names joined by colons reads back as the names |
| SignedHeaders.RelaxedHeaders | lib/dkim-sign.js:80-113 | From the text of the list, put in lower case by any such function, split and trimmed: the block that is signed has one line for each field selected, in the order of the `h=` list, which reads back as those names |
| Throttle.Speedometer.Check | lib/sending-zone.js:345-367 | The wait ends exactly when the send is due; over every series of calls, for every sender that waits for its turn and with timers that may be late, every other send is at least the minimum time apart |
| Throttle.TwoApart | lib/sending-zone.js:350-366 | However late the timers are, a sender is put off by at most the minimum time and a millisecond, and every other send is at least the minimum time apart |
| Throttle.RateBound | lib/sending-zone.js:350-366 | So the rate is at most twice the configured one |
| Throttle.AdjacentApart | lib/sending-zone.js:350-366 | For timers that may be late: a send made when it is due is the minimum time behind the one before if and only if that was not put off, or by a millisecond only, or the call came that late by itself |
| Throttle.AdjacentApartInTime | lib/sending-zone.js:350-366 | With timers on time: if and only if the first was not put off or the next call came that late by itself |
| Throttle.AdjacentCloser | lib/sending-zone.js:363-365 | Calls after which they are not, with timers on time |

## Left out

- QueueProgress.NoRowIsStuck: says that a run to the hand-out exists, not that the collection's answers and the scheduler lead to it; fairness is not modelled.
- QueueProgress.RestartFrees: errors of the database are events that end a request, or events that do not come; they are not told apart.
- QueueExclusion.OneInstanceHandsOut: for rows whose assignment no plugin overwrites through `updates`.
- QueueBodies.LastReleaseChecksBody: the check or deletion is tried, and its database errors are not modelled.
- QueuePush.PrepareDocuments: the routing tables and the `queue:route` hook are inputs; what the hook does to the recipient's address, and the events emitted, are left out.
- LockTable.ConnectionLimit: for one limit for all locks of domains; the limit of a domain can be reconfigured in the source.
- Retry.RetriesEnd: for a table that stays the same; `QueueHands` has what becomes of it when hand-outs overlap.
- Blacklist.SendingZone.DeferDelivery: the cache key is the pair of domain and address, where the source joins them with a colon; `TtlCache.Flush` and overwriting of these keys by other users of the cache are left out.
- DomainSettings.DomainConfig.constructor: disabled addresses that are not a list, other than as defaults, are left out, as the source fails on them later; a list that the configuration itself has in two places is taken for two lists.
- Strings.NormalIsNormal: letters outside ASCII in the names of zones are left as they are.
- LoadDivision.DivideLoad: overflow to Infinity, which takes a ratio of less than about 1e-308, and arrays of 2^32 entries or more, which do not exist, are left out; ratios are numbers.
- Mail queue and queue server as objects: the collection, the stored files and the instances are values of a step system, not objects, because they are shared by processes; update in place is an event.
- The removal of a body after an error while a message is taken in, which comes before its push, and an insertion that fails half-way.
- Reading a row and deleting it in the release of a delivery are one event, and so is the deferral.
- Documents and files whose id ends in zeros only, for which `$lte` on the second would include one more.
- The hash, the signature, crc32 and msgpack: the bytes hashed, an integer and opaque payloads stand for them.
- The bounce rules: the action they find is an input of the retry model.
- The `BOUNCE`, `SETCACHE` and `CLEARCACHE` commands of the queue server, the connection pool, the SMTP interfaces, plugins, the Go port, counters and size limits: plumbing or easy facts.
