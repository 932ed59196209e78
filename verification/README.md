# rec53, verified

A Dafny model of the recursive DNS resolver rec53 and proofs about it. `dafny verify dfyconfig.toml`
checks the whole project.

The parts, and what is proved of them:

- **Hot-zone controller** (`HotZone*.dfy`). Rotating five-second windows charge the lifetimes of
  requests to zones. The incremental accounting refines an integral of concurrency over request
  lifetimes, for all requests, per zone and per child. The decision to protect a zone is
  characterised over whole histories of evaluations: when it begins, how long it lasts, what its
  baseline is. The snapshot's shared maps are modelled as they are: an evaluation adds to the live
  zone maps and not to the live global occupancy. The ledger says exactly by how much.
- **Admission** (`Admission.dfy`, `HappyEyeballs.dfy`, `NsFanout.dfy`). Three concurrent protocols as
  transition systems with a program counter per thread: the expensive-request limiter with its
  rollback, the upstream gate under racing queries, and the name-server fan-out. Conservation,
  freedom from blocking and termination hold under every interleaving.
- **Resolver** (`Resolver*.dfy`, `ZoneMatch.dfy`, `CacheKeys.dfy`, `DnsModel.dfy`). Any number of
  runs of the state machine share one cache and receive any replies, step by step in any order.
  `ResolverReplies.dfy` traces every kind of reply back to what caused it. `ResolverMachine.dfy` has the
  loops and scans as imperative code that refines the step functions, and `ResolverWitnesses.dfy` the
  histories that show a bound attained or a property failing.
- **Upstream quality** (`IpQuality.dfy`, `IpPool.dfy`, `OrderStatistics.dfy`). A ring array refines
  the history of reports; health, percentiles and scores are functions of that history.
- **Message cache** (`DnsCache.dfy`). Records, slices and messages on the heap; deep copies on write
  and shallow copies on read isolate the stored entries.
- **In-kernel fast path** (`XdpKey.dfy`, `Checksum.dfy`) and **truncation** (`Truncation.dfy`).

Names are sequences of non-empty labels without escaped dots, and being inside a zone is a label
suffix test without regard to case. Times are integers in nanoseconds and the clock does not go
back. Clocks, CPU load, upstream replies, admission verdicts inside the resolver, and schedules are
arbitrary inputs.

Nine properties that the code or its comments suggest do not hold as stated. Each has a concrete
counterexample and an exact condition:

- Slot conservation fails in observing mode (`Admission.ObservingOvercommits`), and a run
  keeps it exactly when no step is an observed over-limit admission (`Admission.SlotsStep`,
  `Admission.RunsConserve`).
- "Ten samples are full confidence" fails for 26 to 35 and 52 to 61 samples
  (`IpQuality.ConfidenceIsCapped`).
- "Seven or more failures: remains SUSPECT" fails at the 256th failure (`IpQuality.SuspectIsLifted`);
  `IpQuality.HealthFollowsFailures` has the exact condition.
- Key agreement fails for names of 127 labels unless the type is zero (`XdpKey.LongestNameMisses`,
  `XdpKey.KeyAgreement`).
- A reply's CNAME chain need not be linked (`ResolverWitnesses.UnlinkedReply`): it is exactly when
  every CNAME followed was owned by the name being asked about (`ResolverRuns.FollowKeepsLinks`,
  `ResolverSystem.EveryRun`).
- The lookup for the closest cached delegation misses the root's and those spelled in other letters
  (`ResolverRuns.RootIsMissed`, `ResolverRuns.OtherCaseIsMissed`). Of all zones that enclose a name, a
  deepest one with a cached delegation is found exactly when it is spelled as in the name and is not
  the root of another name (`ResolverRuns.DeepestIsFound`, `ZoneMatch.ZoneIsVisited`).
- The addresses of a query need not have come with the servers it was delegated to
  (`ResolverWitnesses.StrayAddress`, `ResolverWitnesses.StrayServers`). They do exactly when no step
  looks a delegation up with addresses left over, and no name error brings servers without the
  addresses in hand (`ResolverRuns.StepKeepsSource`, `ResolverRuns.AddressesOfDelegation`).
- An answer may be returned under the code of a name error (`ResolverWitnesses.AnswerAsNameError`). It is
  exactly when a name error was met on the way and no second server has made up for it since
  (`ResolverReplies.CodeOfAnswer`).
- A failure can make an address score better (`IpQuality.SlowFailureImproves`): exactly at the 256th in a
  row and for medians above 15 seconds, or 13.636 after a probe (`IpQuality.FailureImprovesScore`).

Some lemmas only spell out what one handler does and are not listed below:
`ResolverRuns.ReplyBeginsWithChain`, `ResolverRuns.ReturnsWhenAnswered`, `ResolverRuns.QueryUsesReply`,
`ResolverRuns.CnameKeepsRelevantDelegation` and `DnsCache.StoresView`.

## Model

| member | source | states |
|---|---|---|
| `ZoneMatch.GetZoneList` | utils/zone.go:14-30 | The loop returns the zone list: the string and the rests reached by cutting after each first dot, until none is left; it equals the function `Tails`. |
| `ZoneMatch.ZoneListIsUnique` | utils/zone.go:14-30 | A string has only one zone list. |
| `ZoneMatch.ZoneListIsCuts` | utils/zone.go:14-30 | For every string, each zone listed is a part of it that starts at the beginning or just after a dot. |
| `ZoneMatch.ZoneListMissesNoCut` | utils/zone.go:14-30 | Every such part is listed. |
| `ZoneMatch.ZoneListIsDeepestFirst` | utils/zone.go:14-30 | Zones are listed from the longest to the shortest, without repetition. |
| `ZoneMatch.ZoneListOfName` | utils/zone.go:14-30 | For a name the list is its text, the text of each ancestor below the root, deepest first, and the empty string. |
| `ZoneMatch.SortForwardZones` | server/forward_config.go:29-42 | The sort gives a permutation in order of text length, longest first; the order of equal lengths is left open. |
| `ZoneMatch.MoreLabelsLongerText` | server/forward_config.go:29-42 | Of two zones enclosing a name, one has more labels exactly when it has the longer text; with as many labels they are the same zone up to case. |
| `ZoneMatch.FirstMatchIsMostSpecific` | server/state_forward.go:58-65 | In any list ordered longest first, the first zone enclosing a name has the most labels of all that do, and is unique up to case. |
| `ZoneMatch.ForwardLookup` | server/state_forward.go:44-126 | A miss exactly when no zone encloses the name; refused exactly when matched and not admitted; otherwise the first match's first answering upstream, or a server failure when the gate saturates or all upstreams fail. |
| `Names.SubDomainIgnoresCase` | server/state_extract_glue.go:42-46 | A name is inside a zone exactly when it ends in the labels of the zone, letter by letter the same or a capital and its small letter. |
| `HotZoneKeys.NormalizeSuffixes` | server/hot_zone_protection.go:522-551 | The built-in suffixes and the configured ones but the root, each once, longest text first and by text among equal lengths. |
| `HotZoneKeys.MatchedBaseSuffix` | server/hot_zone_protection.go:476-483 | The suffix found is the first in the list that encloses the name; none is found exactly when none does. |
| `HotZoneKeys.CoarseKeyEncloses` | server/hot_zone_protection.go:465-501 | A request is charged to a zone that encloses its name and is deeper than every matching base suffix, or is the name; without a match it has the last two labels. |
| `HotZoneKeys.CoarseKeyIsExact` | server/hot_zone_protection.go:465-501 | The key is the matched forwarding zone; else the labels of the name up to exactly one more than the first matching suffix in the list, or the suffix when there are no more; else the last two labels or fewer; and no other key is. |
| `HotZoneKeys.SiblingsShareKey` | server/hot_zone_protection.go:465-501 | Two names with the same first suffix are charged together exactly when they agree up to one label more than it. |
| `HotZoneKeys.DirectChildIsBetween` | server/hot_zone_protection.go:503-516 | The direct child exists exactly when the parent properly encloses the name, is the end of the name with one label more than the parent, and lies between the two. |
| `HotZoneKeys.Hottest` | server/hot_zone_protection.go:432-463 | The scan over a map, in any order of visiting, finds the entry with the largest occupancy and, among equals, the smallest text; it finds none exactly when no entry is eligible. |
| `HotZoneKeys.TextLessIsLexicographic` | server/hot_zone_protection.go:432-463 | Ties are broken in dictionary order: the strings agree up to a place where the first ends or has the smaller character. |
| `HotZoneKeys.HottestIsUnique` | server/hot_zone_protection.go:432-463 | There is at most one such entry. |
| `HotZoneKeys.SelectCandidate` | server/hot_zone_protection.go:432-463 | The candidate is the hottest coarse key with two labels or more, or its hottest child when that has at least 80 percent of it. |
| `HotZoneKeys.CandidateIsUnique` | server/hot_zone_protection.go:432-463 | The candidate does not depend on the order in which the maps are visited. |
| `HotZoneLedger.ShowsCharge` | server/hot_zone_protection.go:215-229 | A window whose maps show a list of charges shows one charge more after it is charged. |
| `HotZoneLedger.CoarseTotal` | server/hot_zone_protection.go:215-294 | The total of the coarse map is the time booked globally plus the time snapshots added to the shared maps. |
| `HotZoneLedger.UnbookedIsInflation` | server/hot_zone_protection.go:244-273 | The part added by snapshots is never negative, and zero exactly when no snapshot charged the window, so the coarse total is at least the global occupancy. |
| `HotZoneLedger.ChildrenWithinZone` | server/hot_zone_protection.go:215-294 | For any charges, the children of a key together have at most the occupancy of the key. |
| `HotZoneLedger.OneDominantChild` | server/hot_zone_protection.go:447-460 | At most one child of a charged key can have 80 percent of it. |
| `HotZoneLedger.CandidateFromLedger` | server/hot_zone_protection.go:432-463 | A candidate has at least two labels and requests were charged to it or to its parent for it. |
| `HotZoneLedger.CoarseShowsJoin` | server/hot_zone_protection.go:274-291 | Merging the coarse maps of two windows shows the charges of both. |
| `HotZoneLedger.ChildShowsJoin` | server/hot_zone_protection.go:274-291 | So does merging the child maps. |
| `HotZoneAccounts.OccupancyIsIntegral` | server/hot_zone_protection.go:104-229 | At any instant: every ended window is booked the integral of concurrency over its five seconds; the current window's booking plus the unaccounted time of active requests is the integral up to now; the windows together account for the whole retained span. For all requests, for those of any coarse key and for those of any child. |
| `HotZoneAccounts.IntegralIsOfConcurrency` | server/hot_zone_protection.go:206-229 | The summed overlaps of lifetimes are the number of running requests added up over every nanosecond of the span. |
| `HotZoneAccounts.LastThreeAreTheEnd` | server/hot_zone_protection.go:189-196 | What is kept of a list of windows is its last three, or all of fewer. |
| `HotZoneAccounts.FinishedPlusPending` | server/hot_zone_protection.go:206-229 | Time booked for finished requests plus time due from active ones is the summed overlap of all lifetimes with the window. |
| `HotZoneAccounts.BooksRotate` | server/hot_zone_protection.go:152-165 | Closing a window at its end and opening the next keeps the books, with windows contiguous and at most three. |
| `HotZoneAccounts.BooksEnter` | server/hot_zone_protection.go:104-132 | Admitting a request keeps the books. |
| `HotZoneAccounts.BooksRelease` | server/hot_zone_protection.go:134-150 | Ending a request keeps the books. |
| `HotZoneProtection.RunIsCoherent` | server/hot_zone_protection.go:296-372 | After any evaluations, protection implies observing, the protected zone as candidate and a streak of at least three; observing implies a positive baseline. |
| `HotZoneProtection.StreakCountsWindows` | server/hot_zone_protection.go:347-370 | The streak of a candidate is the number of distinct windows in the current unbroken stretch of evaluations under pressure with that candidate. |
| `HotZoneProtection.ProtectionBegins` | server/hot_zone_protection.go:296-372 | Protection of a zone begins at an evaluation if and only if it completes a stretch, since protection last ended, of evaluations all under pressure with that candidate, in at least three distinct windows. |
| `HotZoneProtection.ProtectionPersists` | server/hot_zone_protection.go:321-334 | Protection, zone and baseline stay through every evaluation whose average is above 1.05 times the baseline. |
| `HotZoneProtection.ProtectionEnds` | server/hot_zone_protection.go:321-334 | Protection ends exactly at an evaluation with an average of at most 1.05 times the baseline, and observing ends with it. |
| `HotZoneProtection.ObserveFollowsPressure` | server/hot_zone_protection.go:296-345 | After an evaluation the controller observes exactly when it is still protecting, or, if it was not, when that evaluation was under pressure. |
| `HotZoneProtection.BaselineIsPreTriggerAverage` | server/hot_zone_protection.go:307-319 | The baseline is the average read just before observing began, or the one at its beginning when there was none or it was not positive. |
| `HotZoneProtection.CandidateWasRead` | server/hot_zone_protection.go:296-372 | A candidate, hence a protected zone, was the candidate of some evaluation. |
| `HotZone.HotZoneController.constructor` | server/hot_zone_protection.go:92-102 | A new controller has empty books and no decisions, and its suffixes are normalised. |
| `HotZone.HotZoneController.EnsureCurrentWindow` | server/hot_zone_protection.go:178-187 | The first window contains the present; later calls change nothing. |
| `HotZone.HotZoneController.AddSampleSegment` | server/hot_zone_protection.go:215-229 | Books exactly the time a request was not accounted for, to the global occupancy, its key and its child. |
| `HotZone.HotZoneController.AdvanceWindow` | server/hot_zone_protection.go:189-196 | Appends an empty window and keeps the last three. |
| `HotZone.HotZoneController.Rotate` | server/hot_zone_protection.go:152-165 | Brings the windows up to the present, keeps the books, and reports whether a window ended. |
| `HotZone.HotZoneController.TakeSnapshot` | server/hot_zone_protection.go:231-294 | Reads the integral of concurrency over the current window and the charges of the retained windows; the live maps keep what the snapshot added, the live global occupancy does not. |
| `HotZone.HotZoneController.Decide` | server/hot_zone_protection.go:296-372 | Changes the seven control fields as one step of the decision machine. |
| `HotZone.HotZoneController.EvaluateLocked` | server/hot_zone_protection.go:296-372 | Makes one evaluation, of a reading that is the average of the integral and the candidate the charges determine. |
| `HotZone.HotZoneController.MaybeEvaluate` | server/hot_zone_protection.go:167-176 | Evaluates once if a window ended, never evaluated before, or the interval has passed, and otherwise not at all. |
| `HotZone.HotZoneController.TryEnter` | server/hot_zone_protection.go:104-132 | Refuses exactly the names inside the protected zone; an admitted request gets a fresh ticket and one lifetime starting now under exactly the key it is to be charged to; a refused one leaves no trace; the books and decisions stay valid. |
| `HotZone.HotZoneController.Release` | server/hot_zone_protection.go:134-150 | Ends the lifetime of the ticket's request now if it is running, ignores unknown tickets, does nothing for ticket 0; the books and decisions stay valid. |
| `HotZone.WindowIsConsistent` | server/hot_zone_protection.go:215-294 | In every window the children of a key have at most its occupancy together, and the coarse total is at least the global occupancy, with equality exactly when no snapshot charged the window. |
| `HotZone.SnapshotIsConsistent` | server/hot_zone_protection.go:274-291 | The same for what a snapshot aggregates, where at most one child can reach 80 percent of its key. |
| `HotZone.HotZoneController.GlobalOccupancy` | server/hot_zone_protection.go:104-229 | The live global occupancy of an ended window is the integral of concurrency over it; that of the current window plus what active requests are still to be charged is the integral up to now. |
| `HotZone.HotZoneController.ZoneOccupancy` | server/hot_zone_protection.go:152-294 | What an ended window's maps hold for a key and for a child is the integral of its concurrency over the window plus exactly what snapshots added to the shared maps. |
| `HotZone.HotZoneController.CurrentZoneOccupancy` | server/hot_zone_protection.go:104-294 | The same for the current window, with what active requests are still to be charged. |
| `HotZone.HotZoneController.ChargedKeyEncloses` | server/hot_zone_protection.go:104-132 | The key a request is charged to encloses its name when the forwarding zone it was matched with does. |
| `HotZone.HotZoneController.ProtectedZoneIsDeep` | server/hot_zone_protection.go:432-520 | In every valid state the candidate and the protected zone have at least two labels. |
| `Admission.SlotTable.TryAcquire` | server/expensive_request_limiter.go:221-250 | Admits exactly below the limit, or always when observing, and counts only below the limit. |
| `Admission.SlotTable.Release` | server/expensive_request_limiter.go:252-271 | Gives one slot back, ignores unknown clients, and deletes an entry that reaches zero. |
| `Admission.StepIsLocal` | server/expensive_request_limiter.go:161-219 | A step of a thread changes only what that thread and its holder own. |
| `Admission.SlotIsCounted` | server/expensive_request_limiter.go:252-271 | A thread about to give a slot back finds an entry of at least one: the guards never hide an unmatched release. |
| `Admission.SlotsStep` | server/expensive_request_limiter.go:161-271 | A step keeps the table equal to the slots owned, with entries in 1..limit, exactly when it is not an observed over-limit admission. |
| `Admission.TicketsStep` | server/expensive_request_limiter.go:161-219 | In either mode, whether or not slots are conserved, every step keeps the active hot-zone tickets equal to the tickets owned, one owner each. |
| `Admission.StepKeepsInv` | server/expensive_request_limiter.go:161-285 | One step keeps the whole invariant exactly when it is not an observed over-limit admission. |
| `Admission.RunsConserve` | server/expensive_request_limiter.go:161-285 | In either mode and under every interleaving of any number of threads and holders, slots and tickets are conserved all along a run exactly when no step of it is an observed over-limit admission. |
| `Admission.EnforcingNeverOvercommits` | server/expensive_request_limiter.go:221-250 | No enforcing run has such a step. |
| `Admission.RunsConserveTickets` | server/expensive_request_limiter.go:161-219 | Tickets are conserved by every run of either mode. |
| `Admission.ClientsStayWithinLimit` | server/expensive_request_limiter.go:221-250 | At every point of every enforcing run a client owns at most `limit` slots, and the table refuses it only when it owns all of them. |
| `Admission.QuietMeansEmpty` | server/expensive_request_limiter.go:198-271 | When no thread is inside the protocol and nothing is committed, the table and the active set are empty. |
| `Admission.TicketIsActive` | server/expensive_request_limiter.go:280-285 | A ticket given back is active. |
| `Admission.ObservingOvercommits` | server/expensive_request_limiter.go:235-246 | A concrete observing run after which the table counts one slot and two are owned. |
| `Admission.TurnedAwayUnchanged` | server/expensive_request_limiter.go:161-177 | An acquire that the hot zone turns away changes nothing. |
| `Admission.EnterTakesTicket` | server/expensive_request_limiter.go:161-177 | One it lets in has a new, active ticket, and nothing else is different. |
| `Admission.AcquireCommits` | server/expensive_request_limiter.go:179-196 | The holder is then committed with that ticket, with exactly one more slot of its client if one is left; an observing limiter commits without one. |
| `Admission.AcquireTakes` | server/expensive_request_limiter.go:161-196 | A whole acquire with a slot left: one new ticket, one more slot of the client, the holder committed, nothing else different. |
| `Admission.AcquireIsRefused` | server/expensive_request_limiter.go:179-183 | An enforcing one turns it away, with the ticket given back and the table as it was. |
| `Admission.LoserGivesBack` | server/expensive_request_limiter.go:185-191 | A thread whose holder was taken meanwhile gives back exactly its slot and its ticket. |
| `Admission.ReleaseGivesBack` | server/expensive_request_limiter.go:198-219 | A release clears the holder and takes exactly one from the count of its client and exactly its ticket from the active ones. |
| `Admission.ReleaseUndoesAcquire` | server/expensive_request_limiter.go:161-219 | An acquire and then a release leave holder, table, active tickets and threads as they were. |
| `Admission.NothingTwice` | server/expensive_request_limiter.go:166-171 | A release does nothing exactly when the holder is not taken, and an acquire exactly when it is. |
| `HappyEyeballs.Gate.TryAcquire` | server/upstream_concurrency_gate.go:116-138 | Grants exactly below the limit and counts what it grants. |
| `HappyEyeballs.Gate.Release` | server/upstream_concurrency_gate.go:140-157 | Takes one off the count, never below zero. |
| `HappyEyeballs.Gate.ShouldDegradeFanout` | server/upstream_concurrency_gate.go:159-169 | Advises degrading exactly when there is no room for two more permits. |
| `HappyEyeballs.RaceNeedsRoomForTwo` | server/state_query_upstream.go:131-163 | A race is attempted exactly with a second address and room for two more permits. |
| `HappyEyeballs.StepKeepsInv` | server/state_query_upstream.go:71-218 | Every step of any query keeps the count equal to the outstanding permits, at most the limit, and each query's releases equal to its acquires less what it holds. |
| `HappyEyeballs.ReleaseIsMatched` | server/upstream_concurrency_gate.go:140-157 | A release never finds the count at zero, so its guard hides nothing. |
| `HappyEyeballs.RunsKeepGate` | server/state_query_upstream.go:71-218 | That holds under every interleaving of any number of queries. |
| `HappyEyeballs.PermitsAllReturned` | server/state_query_upstream.go:71-218 | A query that is over has released each permit it acquired exactly once, on the single, raced, degraded and failed paths. |
| `HappyEyeballs.RacersNeverBlock` | server/state_query_upstream.go:165-183 | A racer can always deliver its result. |
| `HappyEyeballs.RaceResult` | server/state_query_upstream.go:185-217 | A raced query answers with an attempt that succeeded, and fails only if both failed. |
| `HappyEyeballs.OutcomeIsFaithful` | server/state_query_upstream.go:124-218 | In every run from an idle gate: alone or degraded, a query answers if its one exchange succeeded and fails if it failed; raced, it answers with an exchange that succeeded and fails only if both failed; turned away, it made none. |
| `HappyEyeballs.SecondRefusedDegrades` | server/state_query_upstream.go:158-162 | A pair refused its second permit gives the first back and goes on alone. |
| `HappyEyeballs.TurnedAwayWhenFull` | server/state_query_upstream.go:155-157 | A query is turned away exactly when it asks for its first permit of a full gate. |
| `HappyEyeballs.QueriesProgress` | server/state_query_upstream.go:124-218 | Until it is over, a query has a step it can take. |
| `HappyEyeballs.StepsDescend` | server/state_query_upstream.go:124-218 | Every step of a query lowers its rank. |
| `HappyEyeballs.QueriesEnd` | server/state_query_upstream.go:124-218 | In every run, whatever other queries do, a query takes at most its rank in steps, and is over when none of its steps is enabled. |
| `NsFanout.StepKeepsInv` | server/state_query_upstream.go:295-421 | Every step keeps the semaphore within the worker limit, the channel matched with what workers sent, and the close after the last worker. |
| `NsFanout.SendsNeverBlock` | server/state_query_upstream.go:376-394 | A worker with an address always finds room in the channel, and the channel open. |
| `NsFanout.ResultIsFaithful` | server/state_query_upstream.go:396-420 | An address returned was obtained by some worker; without outside cancellation the result is non-empty exactly when some worker obtained one. |
| `NsFanout.FanoutIsFaithful` | server/state_query_upstream.go:295-421 | Under every schedule: at most five names are resolved at a time, one when degraded, and a worker can start whenever fewer are; what is returned was resolved; without outside cancellation an address is returned exactly when a resolution succeeded, and none only after every name was resolved in vain. |
| `NsFanout.FirstResultCancels` | server/state_query_upstream.go:295-421 | A worker may give up or skip its result exactly when the caller has cancelled or a result has been taken. |
| `NsFanout.NeverStuck` | server/state_query_upstream.go:295-421 | Until the fan-out returns, some step is enabled. |
| `NsFanout.RunsEnd` | server/state_query_upstream.go:295-421 | Every schedule of any number of names is bounded by a measure, and one that cannot go on has returned. |
| `CacheKeys.DecimalInjective` | server/cache.go:22-24 | Decimal texts of numbers are distinct. |
| `CacheKeys.CacheKeyInjective` | server/cache.go:22-24 | For arbitrary strings and types, equal keys come from equal strings and equal types. |
| `CacheKeys.TypedKeyInjective` | server/cache.go:22-24 | Typed keys of names are injective. |
| `CacheKeys.TypedKeyIsNoZone` | server/cache.go:22-24 | A typed key is never the text of a zone, nor empty. |
| `DnsModel.WithoutOPTKeepsTheRest` | server/cache.go:128-144 | Stripping leaves no pseudo-record and every other record as often as it was. |
| `DnsModel.NegativeTtlFollowsSOA` | server/state_shared.go:97-123 | A negative lifetime exists exactly with an SOA, comes from the first one, and is the smaller of its TTL and MINIMUM (section 5 of RFC 2308), or a minute when that is zero. |
| `DnsModel.TypesAreNumbered` | server/state_classify_resp.go:72-79 | A section with a record of a kind has its type number: 1, 2, 5, 6 and 41. |
| `DnsModel.FirstCNAMEIsFirst` | server/state_machine.go:107-115 | The CNAME that is followed is the first in the section. |
| `ResolverRuns.StepKeepsCache` | server/state_query_upstream.go:660-680 | Every write of every state keeps the cache well formed: a bare-zone entry is a delegation whose first NS is owned by its key; a typed entry has an answer or an SOA; no entry has pseudo-records. |
| `ZoneMatch.ZoneIsVisited` | utils/zone.go:14-30 | Of the zones that enclose a name without regard to case, exactly those spelled as in the name, and the root only for the root, are in its zone list. |
| `ResolverRuns.LookupFindsDeepest` | server/state_lookup_ns_cache.go:31-58 | Of the enclosing zones that are visible from the name (spelled as in it, the root only for the root) and have a cached delegation, the lookup returns the deepest, owned by exactly that zone; it misses exactly when there is none. |
| `ResolverRuns.DeepestIsFound` | server/state_lookup_ns_cache.go:31-58 | Of all enclosing zones, in any case and the root included, a deepest one with a cached delegation is returned if and only if it is visible. |
| `ResolverRuns.RootIsMissed` | server/state_lookup_ns_cache.go:35-57 | After a referral to the root, the lookup for a name misses the root's cached delegation. |
| `ResolverRuns.OtherCaseIsMissed` | server/state_lookup_ns_cache.go:35-57 | After a referral to the zone in other letters, the lookup misses it. |
| `ResolverRuns.StepKeepsSections` | server/state_extract_glue.go:28-55 | Every step keeps that a run about to query has a delegation of a zone enclosing its current name. |
| `ResolverRuns.StepKeepsSource` | server/state_extract_glue.go:28-55 | When the servers and addresses in hand are those of one message, a step of any state keeps them so if and only if it is neither a delegation lookup with addresses left over nor a name error whose addresses differ from those in hand; runs that return are excepted. |
| `ResolverRuns.AddressesOfDelegation` | server/state_lookup_ns_cache.go:31-58 | Over any caches, inputs and replies, a run queries addresses that came with its servers all along if and only if none of its steps is one of those two. |
| `ResolverRuns.StepKeepsChain` | server/state_machine.go:107-155 | Every step keeps CNAME targets pairwise distinct and exactly the visited ones, and the question the original one asked of the end of the chain. |
| `ResolverRuns.FollowKeepsChain` | server/state_machine.go:107-155 | Following keeps that, and is an error exactly for a target already in the chain. |
| `ResolverRuns.FollowKeepsLinks` | server/state_machine.go:107-155 | Following keeps the chain linked if and only if the CNAME followed is owned by the current name. |
| `ResolverRuns.QueryFailsWithoutReply` | server/state_query_upstream.go:484-656 | A query stops the run exactly when no address was known or no reply was acceptable: the winner's, or the alternate's after a bad code, with a name error or an echo of the name. |
| `ResolverRuns.ReplyIsCached` | server/state_query_upstream.go:660-678 | A reply can be read back under its question and under its zone as written, the two writes never collide, and no other entry changes. |
| `ResolverRuns.CachedAnswerIsServed` | server/state_cache_lookup.go:30-57 | After a reply with answers, a run that looks up its question gets exactly those answers, and returns them if and only if they have a record of the type asked for. |
| `ResolverRuns.NegativeHitIsReturned` | server/state_cache_lookup.go:42-55 | A cached negative answer is recognised: the run takes its code and returns after the next step. |
| `ResolverRuns.NegativeAnswerIsServed` | server/state_classify_resp.go:42-62 | A negative answer is stored with the lifetime its SOA allows, and a later run gets its code and authority section and returns. |
| `ResolverRuns.StepKeepsPace` | server/state_machine.go:190-454 | Every step keeps lower bounds on the steps taken in terms of the queries made and the CNAMEs followed. |
| `ResolverRuns.FewQueries` | server/state_machine.go:190-454 | Fifty steps allow at most fifteen upstream queries. |
| `ResolverRuns.FewCNAMEs` | server/state_machine.go:190-454 | Fifty steps allow at most twenty-two CNAMEs in a reply. |
| `ResolverReplies.MalformedIsReplied` | server/state_init.go:30-41 | A malformed request is answered with a format error. |
| `ResolverReplies.HostsAreReplied` | server/state_hosts.go:35-72 | What the hosts file has is the whole answer, under success and the question asked. |
| `ResolverReplies.ForwardingIsReplied` | server/state_forward.go:44-126 | A forwarded reply reaches the client with its code and all sections; otherwise a server failure or a refusal; otherwise the cache is next. |
| `ResolverReplies.OnlyMissesAreRefused` | server/state_machine.go:290-307 | A run is refused exactly when it is not admitted and the cache has nothing for its question; with something there admission plays no part. |
| `ResolverReplies.ClassifiedIsReplied` | server/state_classify_resp.go:30-100 | A response with a record of the asked type, or a negative one, is returned with its code and sections behind the chain. |
| `ResolverReplies.CnameIsFollowed` | server/state_machine.go:81-155 | Otherwise the first CNAME is followed: its target is asked for, it ends the chain, a delegation stays whole exactly if its zone encloses the target; a target already on the chain is an error. |
| `ResolverReplies.UpstreamAnswerIsReplied` | server/state_query_upstream.go:536-683 | A successful upstream reply with a record of the asked type reaches the client with its sections unchanged. |
| `ResolverReplies.NameErrorIsReplied` | server/state_query_upstream.go:536-549 | A name error with its SOA reaches the client with its code and authority section, and is cached for the time the SOA allows. |
| `ResolverReplies.NoDataIsReplied` | server/state_classify_resp.go:42-62 | An empty success with its SOA reaches the client as one. |
| `ResolverReplies.ReferralIsQueried` | server/state_extract_glue.go:28-55 | A referral to an enclosing zone is followed: the same question, its servers, its addresses. |
| `ResolverReplies.UselessDelegationIsReplaced` | server/state_lookup_ns_cache.go:31-58 | A delegation of no use is replaced in two steps by that of the closest cached zone or of the roots; addresses stay in front exactly when there were no servers beside them. |
| `ResolverReplies.CachedAnswerIsReplied` | server/state_cache_lookup.go:30-57 | A cached answer with a record of the asked type reaches the client behind the chain. |
| `ResolverReplies.CachedNegativeIsReplied` | server/state_cache_lookup.go:42-55 | A negative answer that a run classified reaches any later client that asks the same, with its code and authority section. |
| `ResolverReplies.CodeOfAnswer` | server/state_query_upstream.go:536-683 | Over any caches and inputs: an answer is returned as a success if and only if no name error met on the way stands; else it is returned as a name error. |
| `ResolverSystem.EventKeepsInv` | server/state_machine.go:176-462 | A step of any run, an expiry or a background address write keeps the invariant of the shared cache and of all runs. |
| `ResolverSystem.EveryRun` | server/state_machine.go:176-462 | In every interleaved history from an empty cache, over any replies: a run about to query has an enclosing delegation; at most fifteen queries; distinct CNAME targets; a reply is a bare format error, server failure or refusal of the current question, or exactly the final response with the original question, at most twenty-two CNAMEs and the sections found; the chain links the original name to its end if and only if every CNAME followed was owned by the current name. |
| `ResolverWitnesses.UnlinkedReply` | server/state_machine.go:107-171 | A history from the empty cache whose reply begins with a CNAME of another name. |
| `ResolverWitnesses.FifteenQueries` | server/state_machine.go:190-454 | A history in which one run makes fifteen upstream queries. |
| `ResolverWitnesses.TwentyTwoCNAMEs` | server/state_machine.go:190-454 | A history in which one run replies with twenty-two CNAMEs. |
| `ResolverWitnesses.StrayAddress` | server/state_lookup_ns_cache.go:31-58 | A history in which a run is about to query the roots, with an address of an earlier reply before theirs. |
| `ResolverWitnesses.StrayServers` | server/state_query_upstream.go:536-549 | A history in which a run is about to query the servers of a name error at the addresses of the roots. |
| `ResolverWitnesses.AnswerAsNameError` | server/state_query_upstream.go:536-683 | A history from the empty cache in which a client gets the address it asked for under the code of a name error. |
| `ResolverMachine.ScanSOA` | server/state_shared.go:97-123 | The scan computes the negative lifetime. |
| `ResolverMachine.HostsAreThoseOfNS` | server/state_query_upstream.go:459-500 | The names to resolve are exactly the hosts of the NS records, in their order. |
| `ResolverMachine.Machine.LookupDelegation` | server/state_lookup_ns_cache.go:31-58 | The loop over the zone list finds the first cached delegation. |
| `ResolverMachine.Machine.HandleClassify` | server/state_classify_resp.go:30-100 | The scans and the cache write are one step of classification. |
| `ResolverMachine.Machine.FindAddress` | server/state_query_upstream.go:459-500 | An address from glue or cache is found without resolving; otherwise the result is that of resolving the server names, and inside a nested run that is none. |
| `ResolverMachine.Machine.ResolveHosts` | server/state_query_upstream.go:295-421 | The names are tried in order by full nested runs up to the first that gives an address, which decides the result and leaves the cache as those runs do; inside a nested run none is started. |
| `ResolverMachine.Machine.Change` | server/state_machine.go:176-462 | The loop, nested runs included, computes exactly the function that carries a run to its end over the tape of inputs, with its cache and the inputs read; the result satisfies everything stated of runs; it terminates by nesting depth and iterations left. |
| `ResolverMachine.FinishIsRunOn` | server/state_machine.go:176-462 | What the loop computes is a run over the moments it meets, ended where that run stops or in an error after exactly fifty steps. |
| `OrderStatistics.KthIsOrderStatistic` | server/ip_pool_quality_v2.go:93-122 | The k-th entry of the sorted copy has at most k samples below it and more than k at or below it. |
| `IpQuality.PercentilesAreOrderStatistics` | server/ip_pool_quality_v2.go:64-122 | After an answer, the three percentiles are samples among the last 64 latencies with the stated share of them below. |
| `IpQuality.CounterCountsFailures` | server/ip_pool_quality_v2.go:126-156 | The failure counter is the length of the current run of failures modulo 256. |
| `IpQuality.HealthFollowsFailures` | server/ip_pool_quality_v2.go:126-167 | After any reports: SUSPECT exactly while the run of failures modulo 256 is at least four; DEGRADED exactly in the rest of a run; RECOVERED exactly after a probe. |
| `IpQuality.SuspectIsLifted` | server/ip_pool_quality_v2.go:149-154 | The documented "remains SUSPECT" is false: 256 failures in a row leave the record DEGRADED. |
| `IpQuality.SuspectIsAtMaximum` | server/ip_pool_quality_v2.go:126-167 | After any reports: SUSPECT is a counter of four or more and implies all percentiles at the maximum; ACTIVE implies them in order. |
| `IpQuality.MedianIsBounded` | server/ip_pool_quality_v2.go:126-156 | A median is a reported latency or within the maximum; a DEGRADED one is within it. |
| `IpQuality.ConfidenceIsCapped` | server/ip_pool_quality_v2.go:75-79 | The confidence is min(100, 10n) except exactly for 26 to 35 and 52 to 61 samples; always in 0..100, and 100 with a full ring. |
| `IpQuality.RingStep` | server/ip_pool_quality_v2.go:68-73 | Writing the next slot of the ring gives the ring of the window after one more sample. |
| `IpQuality.RingHoldsWindow` | server/ip_pool_quality_v2.go:64-73 | The live slots are a permutation of the last min(n, 64) latencies. |
| `IpQuality.SuspectScoresWorst` | server/ip_pool_quality_v2.go:234-263 | Whatever was reported, a SUSPECT record scores worse than any that is not and has no latency above 463,821 ms. |
| `IpQuality.SafeLatencyIsTight` | server/ip_pool_quality_v2.go:234-263 | With 463,822 ms it can score better. |
| `IpQuality.ScoreIsDocumented` | server/ip_pool_quality_v2.go:229-263 | For any reports the score is the median times 1 + (100 - confidence)/100 times 1, 1.5, 100 or 1.1 by state. |
| `IpQuality.MedianAfterFailure` | server/ip_pool_quality_v2.go:126-156 | The percentiles after a failure in terms of those before: the median a fifth larger, rounded down and capped at ten seconds, for up to three failures; all at ten seconds for four to six; unchanged from seven. |
| `IpQuality.FailureImprovesScore` | server/ip_pool_quality_v2.go:126-263 | With no negative latency, a failure makes a record score better if and only if it is the 256th in a row, or the median was above 15 seconds, or above 13.636 after a probe. |
| `IpQuality.SlowFailureImproves` | server/ip_pool_quality_v2.go:126-263 | It does: ten answers after 20 seconds, then a failure. |
| `IpQuality.Record.constructor` | server/ip_pool_quality_v2.go:46-60 | A new record reflects no reports. |
| `IpQuality.Record.WriteSample` | server/ip_pool_quality_v2.go:64-73 | Writes one slot; the ring stays the ring of the window. |
| `IpQuality.Record.UpdatePercentiles` | server/ip_pool_quality_v2.go:93-122 | Sorting the live slots gives the order statistics of the window. |
| `IpQuality.Record.RecordLatency` | server/ip_pool_quality_v2.go:64-89 | All fields are what the reports so far, and this latency, make them. |
| `IpQuality.Record.RecordFailure` | server/ip_pool_quality_v2.go:126-156 | All fields are what the reports so far, and this failure, make them. |
| `IpQuality.Record.ResetForProbe` | server/ip_pool_quality_v2.go:160-167 | All fields are what the reports so far, and this probe, make them. |
| `IpQuality.Record.GetScore` | server/ip_pool_quality_v2.go:234-263 | The score, in thousandths, of what was reported. |
| `IpPool.Pick` | server/ip_pool.go:230-244 | The best and second are at two places of the scored list that no third place beats. |
| `IpPool.Pool.GetBestIPs` | server/ip_pool.go:186-245 | The choice among the scores of the pool's records; unseen addresses join with an empty record; nothing else changes. |
| `IpPool.SuspectIsLastResort` | server/ip_pool.go:186-245 | Whenever each address was read: with no latency above the safe one, the place chosen first was read as SUSPECT only if all places were. |
| `IpPool.SuspectIsNextToLastResort` | server/ip_pool.go:186-245 | Likewise the place chosen second, only if all places but one were. |
| `IpPool.Pool.BestIsSuspect` | server/ip_pool.go:186-245 | Of the pool's own records: the best is SUSPECT only if all candidates are. |
| `IpPool.Pool.SecondIsSuspect` | server/ip_pool.go:186-245 | Of the pool's own records: the second is SUSPECT only if all candidates are but the one at one place. |
| `DnsCache.StripOPT` | server/cache.go:128-144 | In-place compaction leaves the other records in order and clears the rest of the array. |
| `DnsCache.DeepCopy` | server/cache.go:151-152 | The copy shares no struct, array or record with its original. |
| `DnsCache.ShallowCopy` | server/cache.go:94-112 | The copy has the same header in a new struct, new arrays without spare capacity, no question, and the same records. |
| `DnsCache.Cache.SetCacheCopy` | server/cache.go:151-164 | The key now holds the message without pseudo-records, in storage that is new; all other keys are as they were. |
| `DnsCache.Cache.GetCacheCopy` | server/cache.go:64-83 | A hit exactly when the key is held, and then with what was last written; struct and arrays are new. |
| `DnsCache.Isolation` | server/cache.go:46-63 | After a write, whatever its author does to the message and to its records not shared with the cache, and a reader to struct and arrays, reads of that key return the message as written and reads of other keys what they would have. |
| `XdpKey.LabelsArePrefixCode` | server/xdp/dns_cache.c:197-259 | Of two names whose labels begin the same bytes, the one with fewer labels begins the other. |
| `XdpKey.WriteByte` | server/xdp/dns_cache.c:71-75 | At every offset written the mask is the identity. |
| `XdpKey.ReadLabel` | server/xdp/dns_cache.c:204-259 | One round reads one more label in lower case, or the root, or shows that no name is accepted. |
| `XdpKey.ExtractKey` | server/xdp/dns_cache.c:197-274 | For every packet: passed on exactly when no name is accepted, otherwise the key holds the bytes of the one accepted name with every capital replaced by its small letter, then zeros, and the two bytes that follow as the type. |
| `XdpKey.AcceptedIsUnique` | server/xdp/dns_cache.c:197-274 | A packet is accepted for at most one name. |
| `XdpKey.EncodeKey` | server/xdp_sync.go:34-60 | Encoding succeeds exactly for names of at most 255 octets. |
| `XdpKey.EncodedIsFolded` | server/xdp_sync.go:34-60 | The encoded key is the labels of the name with every capital replaced by its small letter, then zeros. |
| `XdpKey.KeyAgreement` | server/xdp/dns_cache.c:197-274 | For every name of at most 255 octets in any case, every type, class and trailing bytes: the parser accepts, and its key is the encoder's exactly when the name has at most 126 labels or the type is zero. |
| `XdpKey.KeysIdentifyQuestions` | server/xdp_sync.go:47-60 | Encoded keys are equal exactly when the names agree up to case and the types agree. |
| `XdpKey.LookupFindsItsEntry` | server/xdp/dns_cache.c:268-283 | A query finds an entry exactly when name up to case and type agree; with 127 labels it looks for the upper byte of its type. |
| `XdpKey.LongestNameMisses` | server/xdp/dns_cache.h:18-20 | A valid name of 127 labels whose address query does not find its own entry. |
| `Checksum.Ipv4Checksum` | server/xdp/dns_cache.c:80-95 | For every header the value returned makes the one's-complement sum of all ten words 0xFFFF when stored in the checksum field. |
| `Checksum.TwoFoldsFold` | server/xdp/dns_cache.c:92-94 | Two folds and the 16-bit cast compute the end-around-carry sum of ten words (section 1 of RFC 1071). |
| `Checksum.ChecksumIsUnique` | server/xdp/dns_cache.c:367-371 | No other word in the field passes, up to the two zeros. |
| `Checksum.ByteOrderDoesNotMatter` | server/xdp/dns_cache.c:80-95 | A receiver that reads the words in the other byte order finds 0xFFFF as well. |
| `Truncation.Reply.Truncate` | server/server.go:179-211 | A fitting reply is unchanged; any other is marked, loses its authority section and keeps the longest run of leading answers that fits; the additional section goes exactly when it does not fit without answers; the result fits exactly when a bare question does. |

## Left out

- Sockets, `dns.Client` exchanges, message packing and the go-cache library: a reply is any value, and an entry may expire at any moment.
- Reads within one handler: each handler reads the cache at one instant, and handlers of different runs interleave between steps.
- ResolverMachine.Machine.ResolveHosts: the nested runs are made one after another; their concurrency is the subject of `NsFanout`.
- Background address writes: they are events of `ResolverSystem` with arbitrary content rather than a traced consequence of the fan-out.
- Hosts and forwarding contents inside the resolver: they are inputs of a step; the forwarding scan itself is `ZoneMatch.ForwardLookup`.
- Lifetime of negative entries: a negative hit is stored again with the full lifetime, so no bound is claimed.
- `ServeDNS`: the restoration of the question on failures and the choice of the UDP size are not modelled.
- `followCNAME` with an empty target: names are label sequences, so the empty string is not a target.
- Escaped characters in presentation form: labels are plain in `Names` and wire bytes in `XdpKey`.
- HotZoneKeys.NormalizeSuffixes: the built-in list is an input; text trimming is not modelled.
- Shards of the limiter: merged, since the shard of a client depends only on its address.
- Requests without a valid client address, which bypass the limiter's table: not modelled.
- Runtime change of the gate's limit and `reset`: the limit is fixed.
- 64-bit wrap-around of ticket numbers: tickets are unbounded.
- Floating point: averages and thresholds are exact reals, percentile positions are 95n/100 and 99n/100, penalties 6/5 and scores are integers in thousandths.
- IpQuality.Record.RecordFailure: a median above 1,789,569,706 ms, whose penalty leaves the 32-bit range before it is capped, is not modelled, because the result of that conversion depends on the platform.
- IpPool.Pool.GetBestIPs: the lock is dropped while an unseen address joins; the scores of one call are taken at one instant here, while `IpPool.Pick` and `IpPool.SuspectIsLastResort` hold for scores read at different times.
- `PruneStaleIPs`, the probe loop and `ShouldProbe`: they would add only easy members.
- XdpKey.ReadLabel: the per-byte bounds check of the copy loop is omitted, since every byte it guards is shown to be in range.
- XDP answer contents, expiry, Ethernet and UDP rewriting, and map system calls: only the key and the checksum are modelled.
- Truncation.Reply.Truncate: the wire size is an arbitrary function that does not grow when answers are dropped from the end or a section is emptied.
- Truncation.Reply.Truncate: the answers kept are the longest prefix that fits before the authority section is cleared, as in the code; more might fit afterwards.
- DnsCache.Cache.GetCacheCopy: readers share record structs with the cache and must not change them, as the code documents; `DnsCache.Isolation` lets a reader change everything else.
- Logging, metrics, tracing, configuration, warm-up, snapshots on disk, the terminal interface and the test tools.
