# Control-plane proofs for AIStore

Dafny models of the stateful cores of AIStore's `ais` package, with proofs about every input, every
run or every interleaving. Verify everything with `dafny verify dfyconfig.toml`.

What is modelled, file by file:

- **Listing a bucket** (`Names`, `LsobjBuffer`, `ListPages`, `FailedRounds`, `CacheIntervals`,
  `CacheHits`, `LsobjCache`, `CachedRuns`, `ListObjects`). Targets return sorted pages. The proxy merges
  them, cuts the result at the smallest last name of an unfinished target, buffers the rest and pages it
  out. Beside it, a cache keeps contiguous intervals of listings. Both are proved to compute one simple
  thing: the first `n` names after a token in the sorted union of all targets (with a prefix, if asked
  for). And the cache is proved to keep what it has.
- **Transactions at a target** (`Transactions`, `TxnLocks`, `TxnRendezvous`, `TxnWait`, `TxnTable`).
  A state machine over the atomic steps of begin handlers, commit and abort messages, deliveries of
  bucket metadata (BMD), commit waits and garbage collection; the table as a class whose methods are
  its steps; and the polling loop.
- **Cluster map** (`Smap`, `SmapOwner`, `SmapMembers`, `SmapRuns`). Membership, staffing of the
  information center (IC), the hooks that change a clone of the map, publishing, and runs of a whole
  cluster.
- **Bucket metadata** (`Bmd`, `BmdOwner`, `ResolveBmd`). Bucket IDs over runs, creating a bucket at
  the primary while others work, and choosing among conflicting metadata.
- **Notification listeners** (`Notifs`, `Gossip`). The tables, merging them, and exchanging them among
  IC members.
- **Metasync and election** (`Metasync`, `Vote`). Who is recorded at which version, who is pending;
  the search for a candidate and the majority vote.
- **Keepalive** (`Keepalive`). The fixed-point timeout arithmetic, after section 2 of RFC 6298.

An operation that changes state in the source is a class method here, proved against a function or
predicate on values. The properties are lemmas about those functions. `Common` has shared definitions.

## Where the code does not do what one would expect

Each of these has a concrete counterexample or a universal lemma, and an exact condition.

- *An empty page does not move the buffer's token.* After a request past the end of a listing, an
  earlier token is answered with nothing (`JumpingAheadLosesNames`). In every run on a buffer, an
  answer is the direct listing if and only if the requests before have not made the buffer skip names
  that follow the token (`ServeRightIff`). Without the cache, a client that follows tokens, or goes
  back, is always answered right (`DisciplinedRunsAreRight`).
- *A cache hit does not move the buffer.* With the cache, the same client can be answered with
  nothing: after a hit and an empty last page, the buffer takes the old token for one that it can
  serve. The empty page is then cached for everybody (`GoingBackAfterHit`, `EmptyPageIsWrong`).
- *Pages are stored later.* A request looks into the caches and stores its page in two locked
  sections, and others can store in between. Two requests, both safe when they come, can so leave a
  wrong interval (`StoresOutOfOrder`). In every run of any clients, with looks and stores as steps of
  their own, all replies are right and all caches exact at all times if and only if every look is a
  hit or meets a buffer that has not skipped what follows, and no store joins backwards two of the
  intervals that it meets (`AllRightIff`). Sessions that never go back meet no buffer that has skipped
  (`ForwardSessionsRightIff`).
- *A failed round is kept.* What some targets returned before another one failed is merged by the
  next request as if it were all (`TruncatedListing`, `LargerPageIsCut`). The next page, for any token
  and size, is right if and only if the request goes back before what was returned last, or there was
  nothing to merge, or each name of the direct listing has arrived: it was buffered before, or is held
  by a target that had answered, follows the token that was asked for, and no such target with a full
  page ends before it (`NextAfterFailedRound`). Over all requests, failed or not, every later page is
  right if and only if the request goes back or has all names of it at hand (`AnyRequest`). A page
  that is cut short is cached so (`TruncatedPageIsCached`).
- *A page that encloses a cached interval.* No case of `merge` handles it. Intervals stay
  non-overlapping if and only if no page encloses one (`SetKeepsApartIff`). Overlapping intervals can
  be joined backwards, which is exactly when the cache becomes wrong (`SetKeepsExactIff`,
  `EnclosingPageCorruptsCache`). In debug builds, an assertion fails exactly when a short page whose
  token is in no interval ends in one (`LsobjCache.Set`).
- *A short page within a cached interval.* It is not remembered that the listing ends there, so the same
  request misses again: right after a page was cached, its request is a hit if and only if the page is
  full, or no interval contained its last name, or that interval was known to reach the end
  (`PageIsHitIff`).
- *A page put in front of an interval.* It takes over the interval with its own token. If it adds no
  name, requests with the old token miss from then on (`DisplacedToken`). No other hit is ever lost
  (`HitStaysIff`, `SetKeepsCached`).
- *Locks attached late.* A begin handler registers its transaction before it attaches the locks. A
  removal in between leaves the bucket locked (`AbortBeforeAttachLeaks`, `LeakStays`). With nothing
  registered and no handler at work, all locks are free if and only if every attachment of locks to a
  removed transaction was followed by its collection (`AllFreeIff`, `StrandedIff`).
- *Downgrade before begin.* A downgrade error counts as success, but only if the transaction is
  registered when the BMD has been applied (`WaitReturnsOutcome`).
- *Another caller.* A delivery that does not come from the caller of the begin message is never seen
  by a handler that already polls (`OtherCallerIsMissed`). Otherwise no outcome is missed
  (`NoOutcomeMissed`).
- *Aborted, yet nil.* A commit handler returns the outcome, possibly success, of a transaction that
  was aborted after the outcome was recorded (`AbortedWhilePolling`).
- *Unbounded wait.* The commit wait is bounded if and only if both timeouts are set (`BoundedIff`).
  The proxy does not send the first one for transactions that wait for metasync
  (ais/prxtxn.go:989-991), so there it is not.
- *Both running and finished.* Adding a listener looks at the running ones only, so one that has
  finished can be added again (`AddAfterDone`). Finishing a listener and merging a table take two and
  three locked sections, which other sections can come between (`MergeInsideDone`, `StartInsideMerge`,
  `SendInsideListenSmapChanged`). With all sections as steps of their own, no listener is ever both
  running and finished (apart from a half-done `ListenSmapChanged`) if and only if there is no start
  of one that has finished, no second half of `done` for one that runs, and no half of a merge that
  adds a finished one to the running ones or a running one to the finished ones (`NeverBothIff`). No
  merge repairs it (`MergeRepairsNothing`). A listener finished at a member runs there again if and
  only if it is started there again or added by a merge that had found it unknown (`RunsAgainIff`).
- *Merging is not always a join.* It is if and only if the receiver's table has no listener in both
  halves, and the sender's has none that the receiver does not know (`MergeIsJoinIff`).
- *Refused notification.* A target that first refuses and then accepts a notification is recorded as
  if it had applied the revision (`RefusedNotification`). A notification keeps the records right if and
  only if the nodes recorded for it had acknowledged the versions before (`RecordedKeepsIff`).
- *Election result naming one node as old and new primary.* It takes the primary out of the published
  map (`ImproperResult`). All maps ever published are safe if and only if there is no such result
  (`AllSafeIff`).
- *Election result without a new version.* If the old primary is no longer in the map, the primary changes
  and the version does not (`VotedSameVersion`). Otherwise a version that a node publishes names one map
  (`SameVersionSameMap`).
- *Two winners.* Two candidates can both win if and only if they choose one another and the members
  split evenly between them (`BothCanWinIff`, `ChoosingOneAnother`). A candidate found after
  unresponsive ones were dropped from a private copy of the map need not be its own choice.
- *More than four IC members.* Staffing evicts one member only, so it ends with at most three if and
  only if there were at most four, counting the primary (`StaffedSize`).
- *Maintenance and IC.* A proxy put into maintenance leaves IC, but the staffing that follows may take it in
  again, if and only if it is the primary, or electable and there are fewer than three others
  (`MaintInICIff`).
- *A newer revision in place of the one asked for.* The node that accepts it is recorded at the older
  version, and so is pending at once: it is in sync if and only if no newer revision was sent
  (`AcceptedInSyncIff`).
- *Undo that cannot be persisted.* If the commit of a create-bucket fails and the removal cannot be
  persisted, the process stops with the bucket in place (`CreateBucket`).
- *Rounding.* The smoothed round-trip time stops 4 ns above or 3 ns below a constant sample
  (`SrttErrorShrinks`, `SrttConverges`); the timeout, before it is limited, ends at most 1 ns below and
  28 ns above it (`TimeoutSettles`).

## Model

| member | source | states |
|---|---|---|
| `Names.LessTransitive` | cmn/objwalk.go:16-24 | Byte-wise order of names is transitive (with `LessTotal`, `LessAsymmetric`: a strict total order) |
| `Names.LessIff` | cmn/objwalk.go:16-24 | One name is below another if and only if, at the first position where they differ, it ends or has the smaller byte |
| `Names.PrefixRangeEnds` | ais/prxlsobj.go:308-357 | A name above a prefix without carrying it ends the range of the prefix: nothing above it carries the prefix |
| `Names.AfterSplits` | ais/prxlsobj.go:205-242 | The binary search for a token splits a sorted listing into names up to the token and names after it |
| `LsobjBuffers.SortNames` | ais/prxlsobj.go:157-203 | The sorted entries are a permutation in order |
| `LsobjBuffers.ConcatLeftovers` | ais/prxlsobj.go:166-186 | The entries of all targets, and the cut: the smallest last name of an unfinished target, for any map order |
| `LsobjBuffers.CountLeftovers` | ais/prxlsobj.go:157-166 | Whether there are entries, and whether all targets are done |
| `LsobjBuffers.CutMerges` | ais/prxlsobj.go:180-203 | Sorting and cutting gives exactly the names up to the cut, each once, in order |
| `LsobjBuffers.LsobjBuffer.MergeTargetBuffers` | ais/prxlsobj.go:157-203 | Appends exactly the merged round, empties the leftovers, or leaves all as it was if there is nothing to merge |
| `LsobjBuffers.LsobjBuffer.Get` | ais/prxlsobj.go:205-242 | The whole new state and answer: reset when going back, enough if merged or full, the rest kept |
| `LsobjBuffers.LsobjBuffer.Set` | ais/prxlsobj.go:244-253 | Stores a target's answer; a short answer marks the target as done |
| `LsobjBuffers.RoundIsContiguous` | ais/prxlsobj.go:157-203 | Whatever each target returned, the merged round is a gapless piece of the bucket's listing, reaches its end when all targets are done, and has at least a full page otherwise |
| `LsobjBuffers.RoundMember` | ais/prxlsobj.go:180-203 | A name is in the merged round if and only if it is in the bucket, after the token and up to the cut |
| `ListPages.RoundAnswer` | ais/proxy.go:2017-2043 | After a round from all targets the second look into the buffer has enough, and returns the right page |
| `ListPages.ListPage` | ais/proxy.go:2006-2044 | One request: enough if and only if there are targets; the page and the new cursor are those of the simple specification |
| `ListPages.AnswerRightIff` | ais/prxlsobj.go:205-242 | An answer equals direct listing if and only if the buffer has not skipped names that follow the token |
| `ListPages.ServeRightIff` | ais/prxlsobj.go:205-270 | In every run on one buffer, whatever is asked for: an answer is direct listing if and only if the requests before have not made the buffer skip names that follow |
| `ListPages.DisciplinedRunsAreRight` | ais/prxlsobj.go:205-270 | Without the cache, every run of a client that follows tokens or goes back, with any page sizes, gets direct listings |
| `ListPages.ServeAll` | ais/proxy.go:2006-2069 | A sequence of requests on one buffer is answered as specified |
| `ListPages.JumpingAheadLosesNames` | ais/prxlsobj.go:205-242 | Concrete run: a token past the end, then the start, gives an empty page |
| `ListPages.ListAll` | ais/proxy.go:2006-2069 | Following tokens from the start ends, and the pages together are exactly the sorted union of all targets; exact number of requests |
| `FailedRounds.SubPage` | ais/prxlsobj.go:157-242 | A page of a part of a listing is the page of the listing if and only if the part has all names of it |
| `FailedRounds.PartialPageRightIff` | ais/proxy.go:2032-2044 | For the same request again: direct listing if and only if each name was buffered or is held by a target that had answered |
| `FailedRounds.NextPageRightIff` | ais/proxy.go:2032-2044 | The page that the next request merges, for any token and size, is direct listing if and only if each name of it has arrived |
| `FailedRounds.NextAfterFailedRound` | ais/proxy.go:2006-2044 | The next request after a failed one, for any token and size: right if and only if it goes back, or there was nothing to merge, or each name of the listing has arrived; for the same request: or is buffered or held by a target that had answered |
| `FailedRounds.AnyRequest` | ais/proxy.go:2006-2044 | Any request after any others, failed or not: when it has a page, and that this is direct listing if and only if it goes back or has all names at hand |
| `FailedRounds.TruncatedListing` | ais/proxy.go:2032-2044 | Two targets with a name each, one of which fails: the retry is not the listing |
| `FailedRounds.LargerPageIsCut` | ais/proxy.go:2032-2044 | A target with both names answers a request for one, another one fails: a request for two is cut short |
| `CacheIntervals.TruePageIsExact` | ais/prxlsobj.go:443-460 | A page of direct listing makes an exact interval |
| `CacheIntervals.ContainsIff` | ais/prxlsobj.go:298-306 | Exactly which tokens an exact interval contains |
| `CacheIntervals.SetKeepsExactIff` | ais/prxlsobj.go:397-460 | Caching a true page keeps all intervals exact if and only if it does not join two intervals backwards |
| `CacheIntervals.SetKeepsApartIff` | ais/prxlsobj.go:397-460 | From exact intervals that are apart: exact in any case, and apart if and only if the page encloses none |
| `CacheIntervals.CacheStaysExact` | ais/prxlsobj.go:386-460 | Over every sequence of true pages that never enclose an interval, intervals stay exact and apart |
| `CacheIntervals.EnclosingPageCorruptsCache` | ais/prxlsobj.go:397-418 | Three true pages of a three-name bucket that leave a wrong interval |
| `CacheHits.SetKeepsCached` | ais/prxlsobj.go:397-460 | Caching a true page forgets nothing: every interval, with what it knows about the end, lies within a new one, and so does the page |
| `CacheHits.HitStaysIff` | ais/prxlsobj.go:397-460 | Caching a true page keeps a hit, for any token, prefix and size, if and only if the token is not that of an interval that the page is put in front of without adding a name |
| `CacheHits.DisplacedToken` | ais/prxlsobj.go:375-379 | A concrete hit that is lost so |
| `CacheHits.PageIsHitIff` | ais/prxlsobj.go:443-460 | Right after a page was cached, its request is a hit if and only if the page is full, or its last name was in no interval, or that interval reached the end |
| `CacheHits.HitsStay` | ais/prxlsobj.go:386-460 | Over every sequence of true pages that never enclose an interval, a hit stays a hit unless its token is displaced |
| `LsobjCaches.ListingIs` | ais/prxlsobj.go:308-357 | When a block of a listing is the answer to a request with a prefix |
| `LsobjCaches.Verdict` | ais/prxlsobj.go:308-357 | What the scans of `get` find is the direct listing, and they give up if and only if the interval does not settle the answer |
| `LsobjCaches.CacheInterval.Scan` | ais/prxlsobj.go:308-357 | Where the scans stop: before, inside and after the prefix range |
| `LsobjCaches.CacheInterval.Get` | ais/prxlsobj.go:308-357 | A hit is the direct listing with the prefix; a hit if and only if the interval settles the answer |
| `LsobjCaches.CacheInterval.Append` | ais/prxlsobj.go:368-373 | The new interval, as a value |
| `LsobjCaches.CacheInterval.Prepend` | ais/prxlsobj.go:375-379 | The new interval, as a value; whether the debug assertion holds |
| `LsobjCaches.LsobjCache.FindInterval` | ais/prxlsobj.go:386-395 | The first interval that contains the token |
| `LsobjCaches.LsobjCache.RemoveInterval` | ais/prxlsobj.go:421-432 | Removes that interval and no other |
| `LsobjCaches.LsobjCache.Merge` | ais/prxlsobj.go:397-418 | The four cases, in place, are those of the value model; when the debug assertion holds |
| `LsobjCaches.LsobjCache.Set` | ais/prxlsobj.go:443-460 | Caching a page, in place, is that of the value model; exactly when the debug assertion fails |
| `LsobjCaches.LsobjCache.Get` | ais/prxlsobj.go:434-441 | A hit is the direct listing; a hit if and only if the interval of the token settles the answer |
| `LsobjCaches.LsobjCaches.Get` | ais/prxlsobj.go:472-491 | A hit, from the cache of the prefix or of the whole bucket, is the direct listing with the prefix; a hit if and only if one of the two settles the answer |
| `LsobjCaches.LsobjCaches.Set` | ais/prxlsobj.go:493-496 | Changes the cache of one prefix and no other |
| `CacheHits.StoredIsHit` | ais/prxlsobj.go:472-496 | After a full page was stored for a prefix, the same request of anybody is a hit |
| `CacheHits.WholeBucketIsHit` | ais/prxlsobj.go:472-491 | Once the whole bucket is cached, every request is a hit, with whatever prefix and size |
| `CachedRuns.EmptyPageIsWrong` | ais/prxlsobj.go:443-460 | Caching an empty page that should not be empty never leaves the intervals exact |
| `CachedRuns.StepRightIff` | ais/proxy.go:2000-2050 | A look is right if and only if it is a hit or the buffer has not skipped what follows; a store leaves the caches exact if and only if it joins no intervals backwards |
| `CachedRuns.TruncatedPageIsCached` | ais/proxy.go:2046-2049 | A page shorter than asked for that is not the direct listing, first of its prefix, makes the cache wrong |
| `CachedRuns.AllRightIff` | ais/proxy.go:1976-2071 | In every run of overlapping requests of any clients: all right and exact at all times if and only if every look is a hit or does not lose, and no store joins backwards intervals that it meets |
| `CachedRuns.ForwardSessionsRightIff` | ais/proxy.go:1976-2071 | If sessions never go back: all right and exact at all times if and only if no store joins intervals backwards |
| `CachedRuns.WithoutCache` | ais/proxy.go:2000-2049 | Over every run of requests that do not use the cache, the caches stay as they were |
| `CachedRuns.GoingBackAfterHit` | ais/proxy.go:2000-2016 | A run of one client: hit, empty last page, back to the start, nothing; and a wrong interval is cached |
| `CachedRuns.StoresOutOfOrder` | ais/proxy.go:2000-2049 | A run of two clients: both miss, both are answered right, and the stores in the other order leave a wrong interval |
| `ListObjects.TryCache` | ais/proxy.go:2000-2004 | The lookup: a hit exactly when the specification says, with the direct listing |
| `ListObjects.GetPage` | ais/proxy.go:2006-2071 | Below the lookup: the page and the new cursor; next token if and only if the page is full |
| `ListObjects.ServedIsLook` | ais/proxy.go:2000-2044 | The two together are a look of the runs; the page is direct listing if and only if it is safe |
| `ListObjects.StorePage` | ais/proxy.go:2046-2049 | A store of the runs: new intervals of one prefix, whatever the page; the other prefixes keep theirs |
| `Transactions.StepWellFormed` | ais/txn.go:155-302 | Every step of the state machine keeps it well-formed |
| `TxnLocks.LockedOk` | cluster/namelocker.go:98-122 | Taking a lock keeps every lock entry equal to its holders |
| `TxnLocks.ReleasedOk` | cluster/namelocker.go:188-209 | Releasing all locks of one holder keeps every lock entry equal to its holders |
| `TxnLocks.StepChanges` | ais/txn.go:171-195 | Every step takes one lock, releases all locks of one holder, or changes no holder |
| `TxnLocks.StepInv` | ais/tgttxn.go:213-228 | Every step keeps: lock table = holders, history = holders, owners |
| `TxnLocks.RunInv` | ais/tgttxn.go:404-419 | The same in every state of every run |
| `TxnLocks.MutualExclusion` | ais/tgttxn.go:573-605 | In every run, two transactions hold a bucket only if both hold it shared |
| `TxnLocks.TryLockIff` | cluster/namelocker.go:98-122 | In every run, a try takes the lock if and only if nobody holds the bucket, or it is shared and there is no writer; otherwise the handler releases what it has |
| `TxnLocks.AllReleasedIff` | ais/txn.go:416-429 | With nothing registered and no handler at work: all locks free, if and only if no late locks are left, if and only if all taken were released |
| `TxnLocks.StrandedIff` | ais/tgttxn.go:213-228 | In every run, a removed transaction still has locks if and only if they were attached after its removal and it has not been collected since |
| `TxnLocks.AllFreeIff` | ais/txn.go:305-353 | With nothing registered and no handler at work: all locks free if and only if every late attachment was followed by a collection |
| `TxnLocks.ReleasedOnce` | ais/txn.go:416-421 | In every run no lock is released twice, nor without having been taken |
| `TxnLocks.AbortBeforeAttachLeaks` | ais/tgttxn.go:213-228 | Concrete run: register, abort, attach leaves the bucket locked |
| `TxnLocks.LeakStays` | ais/txn.go:305-353 | Such a lock blocks the bucket over every continuation, unless garbage collection had already listed the transaction |
| `TxnRendezvous.StepInv` | ais/txn.go:155-302 | Every step keeps records, deliveries and waiters consistent with what was recorded |
| `TxnRendezvous.DecidedOnce` | ais/txn.go:214-243 | In every run the outcome, once recorded, does not change until the transaction is removed |
| `TxnRendezvous.RecordDecides` | ais/txn.go:214-243 | Applying a BMD for a transaction not yet removed decides its outcome |
| `TxnRendezvous.WaitReturnsOutcome` | ais/txn.go:246-302 | The wait returns the error of applying the BMD wherever the delivery fell; a downgrade is success unless it came before the begin; if deliveries come from the callers that began, the first poll after it ends the wait |
| `TxnRendezvous.CommitsOnlyApplied` | ais/txn.go:262-271 | A commit handler always deregisters, and commits only what was applied with success or downgrade |
| `TxnRendezvous.CommittedIffNil` | ais/txn.go:262-271 | The wait ends with the transaction deregistered; if it was registered until then, committed if and only if the result is nil |
| `TxnRendezvous.CommittedIff` | ais/txn.go:171-195 | In every run, a transaction is committed if and only if it was removed while registered by a commit message or by a wait that ended with nil |
| `TxnRendezvous.RemovalForgets` | ais/txn.go:171-195 | Whatever removes a transaction forgets its record and its locks, and touches no other |
| `TxnRendezvous.TimedOutAborts` | ais/txn.go:289-300 | A handler that times out aborts its transaction, whatever has been recorded |
| `TxnRendezvous.RecordedOnce` | ais/txn.go:449-465 | A delivery never overwrites the outcome in a transaction object |
| `TxnRendezvous.RemovedForGood` | ais/txn.go:155-195 | A removed transaction is never registered again |
| `TxnRendezvous.NoOutcomeMissed` | ais/txn.go:246-302 | If deliveries come from the callers that began, a handler that polls after the outcome was recorded is done at once |
| `TxnRendezvous.PollEndsIff` | ais/txn.go:274-278 | In every run with such deliveries, a poll of a registered transaction ends the wait if and only if the outcome has been recorded, and with that outcome |
| `TxnRendezvous.UndisturbedWait` | ais/txn.go:246-302 | Any run after which the outcome of a registered transaction is recorded, by whomever, can go on with a handler whose first poll ends with it |
| `TxnRendezvous.UndisturbedCommit` | ais/txn.go:266-272 | That handler commits if and only if the outcome is nil |
| `TxnRendezvous.WholeRun` | ais/txn.go:155-302 | A run from the start: begin, delivery, commit; committed if and only if applied with success or downgrade |
| `TxnRendezvous.OtherCallerIsMissed` | ais/txn.go:449-465 | A polling handler sees a delivery if and only if it is from the caller that began |
| `TxnRendezvous.AbortedWhilePolling` | ais/txn.go:272-281 | After an abort, the handler returns "not found" if nothing was recorded, and the outcome otherwise |
| `TxnWait.Wait` | ais/txn.go:246-302 | The loop ends at the first poll that finds the transaction done, gone or overdue, with that result |
| `TxnWait.RoundIsSteps` | ais/txn.go:274-300 | A round of the loop is a poll, a check and an expiry of the protocol, in that order, with the same result |
| `TxnWait.WhichTimeout` | ais/txn.go:289-300 | Before a record is seen only the network timeout ends the wait, afterwards only the host timeout, at the first poll by which it has passed |
| `TxnWait.OneTimeout` | ais/txn.go:289-300 | The host timeout does not matter if no record is ever seen, nor the network timeout if one is seen at once |
| `TxnWait.BoundedIff` | ais/txn.go:246-302 | Bounded for every environment if and only if both timeouts are set; the bound |
| `TxnWait.BoundIsTight` | ais/txn.go:246-302 | Some environment reaches the bound |
| `TxnTables.NameLocker.TryLock` | cluster/namelocker.go:98-122 | Locks exactly when compatible |
| `TxnTables.NameLocker.Unlock` | cluster/namelocker.go:188-209 | Releases one holder |
| `TxnTables.CtlTxn.CommitAfter` | ais/txn.go:449-465 | Records once, for the caller that began |
| `TxnTables.CtlTxn.Cleanup` | ais/txn.go:416-421 | The loop releases every lock of the list, each once, in any order |
| `TxnTables.TableSteps` | ais/txn.go:155-353 | The table's operations are the steps of the state machine: registering, every kind of removal, and both halves of a delivery |
| `TxnTables.TxnTable.Begin` | ais/txn.go:155-169 | Registers the transaction, or fails and changes nothing if and only if its UUID is registered |
| `TxnTables.TxnTable.Find` | ais/txn.go:171-195 | Looks up; with commit or abort also removes, forgets the record and releases the locks |
| `TxnTables.TxnTable.CommitBefore` | ais/txn.go:197-212 | Makes a record unless there is one |
| `TxnTables.TxnTable.CommitAfter` | ais/txn.go:214-243 | Records the outcome in the transaction or in the record |
| `TxnTables.TxnTable.ReceiveBMD` | ais/tgtcp.go:518-548 | Before, apply, after; a second delivery is not applied |
| `TxnTables.TxnTable.Collect` | ais/txn.go:340-349 | Removes the orphans one by one, registered or not |
| `Smaps.StaffedSize` | ais/clustermap.go:154-198 | At most three IC members if and only if at most four before, counting the primary; at least three, or all electable proxies |
| `Smaps.HookKeeps` | ais/clustermap.go:548-581 | Every step that goes through keeps IDs disjoint, the primary in the map (if and only if an election result is proper) and the version; most make it grow |
| `SmapOwners.SmapX.PutNode` | ais/clustermap.go:296-318 | Replaces a node of the same kind; fails if and only if the ID is one of the other kind |
| `SmapOwners.SmapX.SetNodeFlags` | ais/clustermap.go:415-434 | New flags; maintenance takes a node out of IC |
| `SmapOwners.SmapX.FillIC` | ais/clustermap.go:154-169 | Adds electable proxies until there are three members or no more proxies, for any map order |
| `SmapOwners.SmapX.EvictIC` | ais/clustermap.go:181-192 | Takes out one member, never the primary, if there are too many |
| `SmapOwners.SmapX.StaffIC` | ais/clustermap.go:172-177 | The whole of staffing, for any map order; fails if and only if the primary is not in the map |
| `SmapOwners.SmapX.UpdPre` | ais/prxclu.go:524-537 | Join: when it goes through and what it does |
| `SmapOwners.SmapX.UnregNodePre` | ais/prxclu.go:1532-1561 | Removal: when it goes through and what it does |
| `SmapOwners.SmapX.KeepalivePre` | ais/kalive.go:305-344 | Keepalive removal of any list of IDs: when it goes through and what it does |
| `SmapOwners.SmapX.MarkMaint` | ais/prxtxn.go:815-822 | Maintenance: when it goes through and what it does |
| `SmapOwners.SmapX.BecomePre` | ais/proxy.go:2641-2659 | Becoming primary: when it goes through and what it does |
| `SmapOwners.SmapX.VotedPrimary` | ais/vote.go:524-540 | Election result: when it goes through and what it does |
| `SmapOwners.SmapOwner.Modify` | ais/clustermap.go:548-581 | A step goes through if and only if its hook accepts and the map can be persisted; otherwise the published map is unchanged |
| `SmapOwners.SmapOwner.Synchronize` | ais/clustermap.go:484-514 | Takes a valid newer map only; when it reports an error |
| `SmapMembers.JoinAdds` | ais/prxclu.go:524-537 | After a join, the nodes are those before plus the new one, with the given flags, IC apart; what the version counts |
| `SmapMembers.UnregRemoves` | ais/prxclu.go:1532-1561 | After a removal, exactly that node is gone; before the start nothing changes |
| `SmapMembers.KeepaliveRemoves` | ais/kalive.go:305-344 | After keepalive, exactly the listed nodes are gone, and the primary is not among them |
| `SmapMembers.MaintMarks` | ais/prxtxn.go:815-822 | Maintenance adds the flags to one node and changes no other, IC apart |
| `SmapMembers.BecomeTakesOver` | ais/proxy.go:2641-2659 | The new primary is the primary and in IC, the old one is gone |
| `SmapMembers.VotedTakesOver` | ais/vote.go:524-540 | An election result makes the named node primary and removes exactly the old one |
| `SmapMembers.MaintInICIff` | ais/clustermap.go:154-192 | A proxy in maintenance can be in IC right after if and only if it is the primary, or electable with fewer than three others |
| `SmapMembers.GoesThroughIff` | ais/clustermap.go:548-581 | For each kind of step, exactly when it can go through |
| `SmapMembers.MemberIff` | ais/clustermap.go:262-314 | After a step, a node is in the map if and only if the step adds it, or it was there and is not removed; its kind |
| `SmapMembers.MembersOverRuns` | ais/clustermap.go:548-581 | In every run of steps of a node: in the map if and only if joined and not removed since, or there from the start and never removed |
| `SmapRuns.PublishedMaps` | ais/clustermap.go:484-581 | In every run of the cluster: published versions never go down, no ID is both kinds, the primary is in the map |
| `SmapRuns.AllSafeIff` | ais/vote.go:524-540 | In every run, all maps ever published are safe if and only if no election result names one node as old and new primary |
| `SmapRuns.SameVersionSameMap` | ais/clustermap.go:484-514 | In every run, a version that a node publishes names one map, as long as no election result comes in between |
| `SmapRuns.VotedSameVersion` | ais/vote.go:524-540 | An election result that changes the map and not its version |
| `SmapRuns.ImproperResult` | ais/vote.go:524-540 | An election result with equal old and new primary leaves a map that nobody is primary of |
| `Bmds.MaskIsInjective` | cluster/bck.go:96-102 | Bucket IDs determine version and kind |
| `Bmds.ApplyIds` | ais/bucketmeta.go:126-173 | Every change keeps IDs unique and makes the version grow |
| `Bmds.ApplyChanges` | ais/bucketmeta.go:126-173 | What each change does to properties and IDs of its buckets, to the version, and that other buckets stay as they are |
| `Bmds.RunVersions` | ais/bucketmeta.go:126-173 | In every run the version grows with every change |
| `Bmds.SameIdSameBucket` | ais/bucketmeta.go:126-173 | In every run, equal IDs at any two times mean one bucket that existed all the time in between |
| `Bmds.LastChangeStays` | ais/bucketmeta.go:126-173 | In every run, a bucket stays as the last change of it left it |
| `Bmds.LastSetWins` | ais/bucketmeta.go:151-173 | In every run, the properties last set are those of the bucket, with its old ID |
| `BmdOwners.BucketMD.Add` | ais/bucketmeta.go:126-141 | Adds with a new ID, unless present |
| `BmdOwners.BucketMD.Del` | ais/bucketmeta.go:143-149 | Deletes, if present |
| `BmdOwners.BucketMD.Set` | ais/bucketmeta.go:151-173 | New properties, same ID |
| `BmdOwners.BucketMD.Rename` | ais/prxtxn.go:487-500 | Adds the new bucket and marks the old one |
| `BmdOwners.BmdOwner.Modify` | ais/bucketmeta.go:299-343 | Goes through if and only if it applies and can be persisted; otherwise unchanged |
| `BmdOwners.BesideOthers` | ais/prxtxn.go:182-197 | What others do meanwhile goes on as if the new bucket were not there |
| `BmdOwners.UndoIsInvisible` | ais/prxtxn.go:999-1009 | Creating and undoing leaves all buckets and properties as they would be without, two versions later |
| `BmdOwners.BmdOwner.CreateBucket` | ais/prxtxn.go:139-224 | Success if and only if new, begun, persisted and committed: exactly that bucket more, one version more; exactly when it is undone; error: as before |
| `ResolveBmd.ResolveUuidBmd` | ais/proxy.go:2966-3010 | For any map order: none, split, or metadata of the largest group and its highest version |
| `ResolveBmd.ResolvedKind` | ais/proxy.go:2966-3010 | Split if and only if the largest group is not unique; none if and only if all versions are zero |
| `ResolveBmd.ResolvedOnce` | ais/proxy.go:2966-3010 | Any two results agree on kind, UUID, version and warning |
| `Notifs.Listeners.Add` | ais/notifications.go:110-121 | Adds unless there |
| `Notifs.Listeners.Del` | ais/notifications.go:123-136 | Removes |
| `Notifs.NotifTables.Merge` | ais/notifications.go:602-674 | The five loops compute `Merged` on UUIDs, keep known listeners, take new ones from the message, and call back exactly the newly finished ones, once |
| `Notifs.MergeIsJoinIff` | ais/notifications.go:602-674 | Merging is the join if and only if the receiver has no listener both running and finished and the sender none that the receiver does not know; if and only if the result has none |
| `Notifs.MergeKeepsFinished` | ais/notifications.go:602-674 | Finished stays finished and does not become running |
| `Notifs.JoinIsSemilattice` | ais/notifications.go:602-674 | The join is commutative, associative and idempotent |
| `Notifs.ExchangeConverges` | ais/notifications.go:578-674 | Merging any sequence of tables gives the union, whatever the order and repetitions |
| `Notifs.SameTablesAgree` | ais/notifications.go:578-674 | Members that have seen the same tables agree |
| `Notifs.NotifTables.Add` | ais/notifications.go:189-202 | Refuses listeners without active notifiers; never replaces one |
| `Notifs.NotifTables.Done` | ais/notifications.go:371-403 | Moves a running listener, with one callback; otherwise nothing |
| `Notifs.NotifTables.HandleFinished` | ais/notifications.go:335-369 | A report does to its listener what `Heard` says: finished if and only if it was the last active node, or aborted, with one callback; a late report is noted without one; others stay |
| `Notifs.ReportsAddUp` | ais/notifications.go:335-369 | Over every sequence of reports: finished if and only if the reporters cover the active nodes or one aborted; called back once; failed and aborted if and only if some report says so |
| `Notifs.LastReportFinishes` | ais/notifications.go:351-369 | The report that finishes a listener is the one that completes the nodes, or the first abort |
| `Notifs.AddAfterDone` | ais/notifications.go:189-202 | Adding a listener again after it has finished leaves it both running and finished |
| `Notifs.NotifTables.ListenSmapChanged` | ais/notifications.go:514-576 | Exactly the listeners that wait for a missing node are finished, aborted and called back, for any map order |
| `Gossip.NeverBothIff` | ais/notifications.go:371-674 | In every run of locked sections: no listener is both running and finished at any time if and only if no step clashes |
| `Gossip.MoveOk` | ais/notifications.go:371-674 | No section loses a listener: each one heard of is running, finished, or on its way |
| `Gossip.TableIsRightIff` | ais/notifications.go:578-674 | In every run, where nothing is under way, a table is what the events call for if and only if nothing is both running and finished |
| `Gossip.SameEventsAgreeIff` | ais/notifications.go:578-674 | In every run, quiet members that have heard of the same starts and finishes have the same tables if and only if the same listeners are both running and finished there |
| `Gossip.SameEventsAgree` | ais/notifications.go:578-674 | As long as no step clashes, they agree |
| `Gossip.UndisturbedMerge` | ais/notifications.go:602-674 | The three sections of a merge in a row are the merge of the tables |
| `Gossip.Exchange` | ais/notifications.go:578-674 | In any state a member can send its table to one that is not merging, which then has the merge of both |
| `Gossip.StartInsideMerge` | ais/notifications.go:619-660 | A listener that starts and finishes inside a merge runs again though started once |
| `Gossip.RunsAgainIff` | ais/notifications.go:189-202 | In every run, once finished at a member, a listener stays finished there, and runs there again if and only if it is started again or added by a merge that had found it unknown |
| `Gossip.MergeInsideDone` | ais/notifications.go:371-376 | A merge between the two halves of `done` undoes the first if and only if the listener runs in the message |
| `Gossip.SendInsideListenSmapChanged` | ais/notifications.go:558-568 | A table sent between the two halves confuses exactly the receivers that did not know the listener |
| `Gossip.MergeRepairsNothing` | ais/notifications.go:602-674 | A listener both running and finished stays so over any merges |
| `Metasync.UseJIT` | ais/metasync.go:394-423 | What is sent is never older than asked for; exactly when the newer revision is sent |
| `Metasync.PayloadIsNewer` | ais/metasync.go:291-320 | The payload has the tags of the pairs, at their versions or newer |
| `Metasync.LastPairCounts` | ais/metasync.go:291-320 | The last pair with a tag decides what is sent and what is recorded |
| `Metasync.RecordKeepsIff` | ais/metasync.go:426-443 | Recording a node keeps the records right if and only if it has acknowledged the versions, or is no member |
| `Metasync.RecordAfterAck` | ais/metasync.go:426-443 | Recording the pairs of a node that accepted the payload keeps the records right, also with a newer revision sent |
| `Metasync.RecordAllIs` | ais/metasync.go:343-349 | Exactly the nodes that accept are recorded, at the versions of the pairs |
| `Metasync.LastReplyDecides` | ais/metasync.go:426-443 | The last time that a node accepts, it is recorded if and only if it is a member then |
| `Metasync.RecordAllKeepsIff` | ais/metasync.go:455-459 | Replies keep the records right if and only if every node that accepted has acknowledged |
| `Metasync.RecordedKeepsIff` | ais/metasync.go:445-459 | The same after nodes that have left were forgotten |
| `Metasync.InSyncHasAcked` | ais/metasync.go:482-519 | A node not pending has acknowledged every last-synced revision |
| `Metasync.AcceptedInSyncIff` | ais/metasync.go:394-443 | A node that accepted the pairs is in sync if and only if it was with other revisions and no newer one was sent |
| `Metasync.FailuresAreNodes` | ais/metasync.go:342-391 | The number of failures is the number of nodes that never accepted |
| `Metasync.PendingAfter` | ais/metasync.go:523-586 | After the pending nodes were sent everything, exactly those are in sync that were or have accepted |
| `Metasync.Metasyncer.SyncDone` | ais/metasync.go:426-443 | New records of one node |
| `Metasync.Metasyncer.DoSync` | ais/metasync.go:272-392 | Last-synced, records, acknowledgments, who is left and number of failures after all replies and retries; a sync keeps: recorded versions are acknowledged; a notification does if and only if they were before |
| `Metasync.Metasyncer.RetryRefused` | ais/metasync.go:363-381 | Exactly how many rounds of retries take place, who is left, and when the primary is found lost |
| `Metasync.Metasyncer.HandleRefused` | ais/metasync.go:445-478 | Records who accepts; who is left |
| `Metasync.Metasyncer.Pending` | ais/metasync.go:482-519 | Exactly the nodes not in sync, hence every node that has not acknowledged some last-synced revision |
| `Metasync.Metasyncer.HandlePending` | ais/metasync.go:523-586 | Exactly the pending nodes that accept are in sync afterwards; acknowledgments; records stay right; number of failures |
| `Metasync.RefusedNotification` | ais/metasync.go:445-459 | Concrete run: a target that has applied nothing is not pending |
| `Votes.HrwProxy` | cluster/hrw.go:88-110 | An eligible proxy with the highest digest, or none if and only if there is none, for any map order |
| `Votes.SameMapSameNext` | cluster/hrw.go:88-110 | Equal maps give equal choices, if digests differ |
| `Votes.NextIsFit` | cluster/hrw.go:88-110 | A candidate is electable and neither in maintenance nor decommissioned; none if and only if no other proxy is such |
| `Votes.OnPrimaryFail` | ais/vote.go:369-423 | The search ends, with the highest willing candidate, or with none if and only if none is willing |
| `Votes.ElectAmongProxies` | ais/vote.go:245-273 | A majority of those asked, errors counted as no, or nobody asked; the set of errors |
| `Votes.WinsIff` | ais/vote.go:245-273 | The winner has more votes than there are refusals and errors, or asked nobody |
| `Votes.AloneWins` | ais/vote.go:269-273 | The only member wins |
| `Votes.VoteOnProxy` | ais/vote.go:587-610 | Yes if and only if the primary is overdue and the candidate is the voter's choice |
| `Votes.TwoWinners` | ais/vote.go:245-310 | Two winners choose one another, and their votes split the members evenly |
| `Votes.BothCanWinIff` | ais/vote.go:245-310 | Two candidates can both win if and only if they choose one another and the members split evenly between them |
| `Votes.AtMostOneWinner` | ais/vote.go:145-152 | At most one winner if one of the two candidates is its own choice |
| `Votes.ChoosingOneAnother` | ais/vote.go:388-400 | The smallest case: two members that choose one another |
| `Keepalives.NoOverflowIff` | ais/kalive.go:552-567 | No update of values up to a bound overflows 64 bits if and only if 1000 times the bound plus 500 does not |
| `Keepalives.Keepalive.TimeoutStats` | ais/kalive.go:572-582 | Initial statistics of a node |
| `Keepalives.Keepalive.UpdateTimeoutFor` | ais/kalive.go:552-567 | Computed in 64 bits without overflow; averages stay within the bound, the timeout between half the maximum and the maximum |
| `Keepalives.Keepalive.Average` | cmn/cos/math.go:159-159 | Rounded averages, in 64 bits, within the bound |
| `Keepalives.SrttErrorShrinks` | ais/kalive.go:562-563 | The error never grows, and shrinks if and only if it is outside [-3, 4] |
| `Keepalives.SrttConverges` | ais/kalive.go:562-563 | It ends at 4, at -3, or where it was in between |
| `Keepalives.RttvarConverges` | ais/kalive.go:560-561 | The variation likewise, within [-1, 2] of the deviation |
| `Keepalives.ConstantSample` | ais/kalive.go:552-567 | The smoothed time after enough equal samples |
| `Keepalives.TimeoutSettles` | ais/kalive.go:552-567 | After enough equal samples, smoothed time plus four variations is within -1 and +28 ns of the sample |

## Left out

- Assumptions of the listing model: the bucket does not change, names are not empty, targets hold disjoint names and answer with their first names after the token, the page size is positive.
- Object properties, flags and UUIDs of listings; entries are names.
- Sharing of slices between cache and buffer in memory: pages are values.
- Time-based eviction of buffers, intervals, transactions and finished listeners; which transactions garbage collection picks is any choice.
- Transactions: UUIDs are fresh in the state machine, so the duplicate check of `begin` never fails there.
- `TxnTables.NameLocker.TryLock`: waiting for a lock and upgrading one are not modelled, so no reader is refused because of a waiting upgrade; begin handlers only try to lock.
- `TxnTables.NameLocker.Unlock`: for the same reason nobody is woken up.
- What the phases of a transaction do besides locking, registering and waiting (mirroring, erasure coding, copying, renaming, promoting).
- Directories that a target creates and destroys when it applies bucket metadata.
- `Transactions.StepWellFormed`: a runnable step is any enabled step; the order of checks within one poll is not fixed, so more runs are covered than can happen.
- `TxnTables.TxnTable.Begin`: the begin timestamp is not modelled.
- `TxnWait.Wait`: time is counted in polls, as the code does; how long a sleep takes is not modelled.
- Cluster map: digests, network addresses and UUIDs; merging of maps and forced joins; administrative change of the primary; startup, when nothing is published yet; 64-bit wrap-around of versions.
- `SmapOwners.SmapOwner.Modify`: a fatal assertion or nil dereference inside a hook counts as a failed step.
- `SmapMembers.MembersOverRuns`: the steps of one node with proper election results; maps that it takes from others in between are in the runs of `SmapRuns`.
- `Bmds.SameIdSameBucket`: for versions below 2^63, as they are signed 64-bit numbers.
- `BmdOwners.BmdOwner.CreateBucket`: messages to targets are results that may be anything; properties are taken as given.
- Undoing a change of the number of copies, and the other proxy-side transactions.
- `Notifs.NotifTables.Merge`: its locked sections run one after the other here; what can come between them is in the runs of `Gossip`.
- Statistics and progress of listeners; broadcast of aborts.
- `Metasync.Metasyncer.DoSync`: draining the work queue when the primary is lost is not modelled, nor are contents of revisions.
- `CachedRuns.AllRightIff`: each session lists one prefix and has one request at a time; failed rounds are in `FailedRounds` only.
- `Gossip.NeverBothIff`: removal of old finished listeners is not modelled.
- Pinging the old primary and confirming the victory in an election; keepalive trackers.
- Whether a rebalance must run.
- HTTP, encoding, persistence (an operation that may fail), authentication.
