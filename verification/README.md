# Verified models of the platform's geo table, auth guard, sync scheduler and client caches

A Dafny 4.11 project. `dafny verify dfyconfig.toml` checks all of it. It models the
stateful and algorithmic parts of the repository, in the form they have there (classes and
loops where the source updates things in place, functions where it computes values), and
proves what they are for.

- **Geo table, generator to reader** (`Grid`, `StepTable`, `RangesV4`, `RangesV6`,
  `GeoCompiler`, `Simplify`, `Fnv`, `GeoBlob`, `GeoReader`, `GeoEndToEnd`, `Ip6Text`). The
  script turns sorted address ranges into a compact step table, folds it within a tolerance
  and packs it; the name server validates the blob and answers by binary search. The main
  theorems run from the source lines to the served answer: `GeoEndToEnd.ServesV4`,
  `ServesV6`, `ServesLine4`, `ServesLine6` and `NoAnswerIff`.
  `GeoReader.SingleByteCorruption` says exactly which one-byte changes the validation
  catches, and `AcceptedCorruption` which answers the others move.
- **Auth guard** (`AuthSettle`, `AuthSettleRuns`, `AuthGuard`, `SlidingWindow`). A timed
  state machine over samples, timers, waits, page loads and storage failures. Bounds on
  flips and repaints hold over every run of a load; the 90-second bound holds over every
  sequence of loads.
- **Reload latch** (`ReloadLatch`): the same sliding-window argument, two reloads a minute,
  and the storage failures that undo it.
- **GitOps sync** (`GitopsSync`): no trigger is lost, no team has two runs, teams do not
  interfere, retries are bounded.
- **Even-odd containment** (`EvenOdd`): parity over closed rings in exact reals, tied to the
  triangles a ring is made of.
- **Session mint and GET cache** (`MintBudget`, `ApiCache`): a failure budget and a
  tenant-keyed cache as concurrent machines of start and completion steps.
- **Two-tier TTL cache** (`TtlCache`): memory and sessionStorage together refine one map, over
  calls, invalidations and reloads, exactly as far as storage does not fail where it counts.
- **Minimal config parser** (`MinimalYaml`, `MinimalYamlRead`, `MinimalYamlPrint`): what every
  text is read as, and parsing undoes printing in every spelling.

Where the source changes state in place, a class carries the source's fields and each method
is proved equal to a step function on values; the theorems about runs are stated on those
functions.

Where the code and its own comments differ, the model follows the code:

- The guard's comment says an abandoned sign-in marker cannot fast-path a later session; the
  marker stays in storage until consumed, so it can (`AbandonedMarkerStillCounts`, with the
  exact condition in `ImmediateFlipIff`).
- The reader's comment says every field it later trusts is checked; the grid geometry is
  outside the checksum, so a changed but plausible geometry is accepted
  (`SingleByteCorruption`, `StepByteUndetected`), and a changed cell size moves every answer
  (`AcceptedCorruption`).
- The cache's comment says a team switch can never serve another tenant's data; that holds
  exactly for sets of teams whose names cannot collide on the key `team|path`
  (`ProvenanceIff`).
- The cache shares in-flight requests so that a key is asked for once at a time; a request
  that outlives a clearing of the cache is overtaken by the next call (`SingleFlightIff`).
- A poller whose path changes may still be given an answer for the path it left
  (`PollPathIff` has the exact condition).
- The cache's comment says a write is never masked by a stale read; a request already on the
  wire stores its answer after the cache was cleared (`FreshAfterWriteIff` has the exact
  condition).
- The config parser's quoted strings are still cut at white space followed by `#`
  (`StringSurvivesIff`).

## Model

| member | source | states |
|---|---|---|
| `StepTable.EmittedMeaning` | scripts/gen-geo-table.py:132-138 | whatever branch `emit` takes, the table afterwards answers the new cell from the new start on and is unchanged before it |
| `StepTable.EmittedWellFormed` | scripts/gen-geo-table.py:132-138 | emitting above the last start keeps the starts strictly ascending and neighbouring cells different |
| `StepTable.LookupInSpan` | scripts/gen-geo-table.py:55-57 | a row decides every key from its start up to the next start |
| `StepTable.RunList.Emit` | scripts/gen-geo-table.py:132-138 | the in-place list update is the table function `Emitted` |
| `RangesV4.TableAgrees` | scripts/gen-geo-table.py:191-202 | for every sorted, disjoint IPv4 range list, lookup gives the cell of the range that holds the address and unknown in every hole, at every 32-bit address; rows ascend, never repeat a cell, fit 32 bits |
| `RangesV4.UnknownIff` | scripts/gen-geo-table.py:170-172 | the source meaning is unknown exactly in holes and in unplaceable ranges |
| `RangesV6.TableDominates` | scripts/gen-geo-table.py:140-190 | for every sorted, disjoint IPv6 range list and every /32 key, the one-pass table answers the cell to which the ranges give the most /48 blocks of the key, counted over addresses, ties to the lower id, unknown where no range has an address |
| `RangesV6.DominatesUnique` | scripts/gen-geo-table.py:144-145 | that answer is unique |
| `RangesV6.WeightCounts` | scripts/gen-geo-table.py:71-77 | the weight the code credits for a range inside a key is the number of 2^80-address blocks of the key in which the range has an address |
| `RangesV6.WeightlessIffUntouched` | scripts/gen-geo-table.py:174-190 | no cell has a share of a key exactly when no range has an address under it |
| `RangesV6.AddInv` | scripts/gen-geo-table.py:175-190 | one source range, inside one key or across many, keeps all earlier keys settled and leaves exactly the last key's weights in the accumulator |
| `GeoCompiler.PickMax` | scripts/gen-geo-table.py:145-145 | the loop over the accumulator finds the heaviest cell, lowest id on ties |
| `GeoCompiler.Compiler.Flush6` | scripts/gen-geo-table.py:140-147 | emits the winner at the current key and clears the accumulator |
| `GeoCompiler.Compiler.Take6` | scripts/gen-geo-table.py:149-158 | flushes and closes a gap when the key moves, then credits the weight |
| `GeoCompiler.Compiler.Add6` | scripts/gen-geo-table.py:174-190 | the three-way treatment of one IPv6 range, and the highest covered key |
| `GeoCompiler.Compiler.Add4` | scripts/gen-geo-table.py:192-196 | closes a hole, emits the range, advances the end |
| `GeoCompiler.Compiler.AddLine` | scripts/gen-geo-table.py:161-196 | a line touches only its own family's state; a skipped line touches nothing |
| `GeoCompiler.Compiler.Finish` | scripts/gen-geo-table.py:197-205 | final flush and the closing unknown rows |
| `GeoCompiler.Parse` | scripts/gen-geo-table.py:123-205 | over any interleaving of both families and skipped lines, the two run lists are the tables of the IPv4 ranges and of the IPv6 ranges |
| `Simplify.SimplifyRuns` | scripts/gen-geo-table.py:208-221 | the loop computes `Simplified` |
| `Simplify.WithinTolerance` | scripts/gen-geo-table.py:32-34 | for any distance function and tolerance, the kept answer at every key is the true cell or within tolerance of it, however long the chain, and unknown exactly where the input is |
| `Simplify.KeepsSubsequence` | scripts/gen-geo-table.py:208-221 | kept rows are a subsequence of the input, the first row included |
| `Simplify.KeepsOrder` | scripts/gen-geo-table.py:208-221 | kept starts still ascend strictly |
| `Simplify.SimplifiedTight` | scripts/gen-geo-table.py:214-219 | neighbouring kept rows have different cells, further apart than the tolerance unless one is unknown |
| `Simplify.Idempotent` | scripts/gen-geo-table.py:208-221 | simplifying twice is simplifying once |
| `Grid.CellOnGrid` | scripts/gen-geo-table.py:65-69 | every coordinate, in range or clamped, maps to a grid cell and never to the unknown code |
| `Grid.CenterIsSection` | scripts/gen-geo-table.py:80-92 | quantising the centre of a cell gives the cell back |
| `Grid.HalfDegree` | scripts/gen-geo-table.py:80-92 | every coordinate, moved onto the map if off it, is within half a degree of its cell's centre on each axis |
| `Fnv.Hash` | crates/hive-cloud/src/geoip.rs:208-215 | the byte loop computes the fold `Fnv1a` |
| `Fnv.RoundInjectiveInState` | scripts/gen-geo-table.py:224-228 | one round never merges two states |
| `Fnv.RoundInjectiveInByte` | scripts/gen-geo-table.py:224-228 | one round never merges two bytes |
| `Fnv.DetectsSingleByteChange` | scripts/gen-geo-table.py:224-228 | two equal-length buffers that differ in exactly one byte have different checksums |
| `Fnv.KnownAnswers` | scripts/gen-geo-table.py:224-228 | the published FNV-1a values of the empty text and of "a" |
| `Fnv.XorBits` | scripts/gen-geo-table.py:227-227 | each bit of the exclusive or is the sum of the two bits without carry |
| `GeoBlob.RowsRoundTrip` | scripts/gen-geo-table.py:244-248 | decoding the six-byte rows gives the row list back |
| `GeoBlob.Encode` | scripts/gen-geo-table.py:244-255 | succeeds exactly when starts and counts fit 32 bits and cells 16, and then writes header, rows and checksum, 32 + 6 bytes per row in all |
| `GeoBlob.HeaderBytes` | scripts/gen-geo-table.py:44-48 | the first sixteen bytes of every blob |
| `GeoBlob.CountBytes` | scripts/gen-geo-table.py:49-51 | both row counts and the checksum of everything from byte 32 on, low byte first |
| `GeoBlob.RowBytes` | scripts/gen-geo-table.py:244-248 | row i is at byte 32 + 6i, four bytes of start and two of cell, low byte first, IPv4 rows before IPv6 rows |
| `GeoReader.ReadsBack` | crates/hive-cloud/src/geoip.rs:106-141 | the reader accepts every packed blob and splits it into exactly the two row lists |
| `GeoReader.SingleByteCorruption` | crates/hive-cloud/src/geoip.rs:99-141 | changing one byte of an accepted blob makes the reader reject it, except in the geometry and reserved bytes, where it is accepted exactly when the new geometry passes the range checks |
| `GeoReader.AcceptedCorruption` | crates/hive-cloud/src/geoip.rs:113-171 | an accepted one-byte change makes no answer appear or disappear; a changed cell size moves every answer, a changed row width all but those in the first row of both grids, the other bytes none |
| `GeoReader.StepByteUndetected` | crates/hive-cloud/src/geoip.rs:113-138 | every packed blob is still accepted with any non-zero low byte in its cell size, which is then used |
| `GeoReader.PartitionPoint` | crates/hive-cloud/src/geoip.rs:190-206 | the binary search ends where any predicate turns from true to false, and at the first false index of a monotone one |
| `GeoReader.Cell` | crates/hive-cloud/src/geoip.rs:143-157 | on any rows, the cell of a row at or below the key whose successor is above it, or unknown when the first row is above it; on ascending rows, the table lookup |
| `GeoReader.Locate` | crates/hive-cloud/src/geoip.rs:173-188 | picks the family's rows and key, and the centre of the cell found; on ascending rows, of the cell the table means |
| `GeoEndToEnd.Generate` | scripts/gen-geo-table.py:231-255 | on sorted input the run fails only on a table of 2^32 rows or more, and otherwise writes the blob of the two simplified tables |
| `GeoEndToEnd.KeptFits` | scripts/gen-geo-table.py:244-251 | every start and cell the compiler produces fits its field |
| `GeoEndToEnd.ServesV4` | crates/hive-cloud/src/geoip.rs:46-54 | for every sorted source, distance, tolerance and address, the reader accepts the written blob and serves the source's IPv4 cell within tolerance |
| `GeoEndToEnd.ServesV6` | crates/hive-cloud/src/geoip.rs:46-54 | the same for IPv6, against the cell with the most /48 blocks of the address's /32 |
| `GeoEndToEnd.ServesLine4` | crates/hive-cloud/src/geoip.rs:46-54 | for every address inside an IPv4 line, the served point is the centre of a cell equal to, or within tolerance of, a cell centred within half a degree of that line's own latitude and longitude; none if the line is unplaceable |
| `GeoEndToEnd.ServesLine6` | crates/hive-cloud/src/geoip.rs:46-54 | for every IPv6 address, a served point belongs in the same sense to a placeable line with an address under the same /32 |
| `GeoEndToEnd.NoAnswerIff` | crates/hive-cloud/src/geoip.rs:261-269 | the reader has no IPv4 answer exactly when every line that holds the address is unplaceable |
| `GeoEndToEnd.LineCell` | scripts/gen-geo-table.py:170-172 | a line gets a cell centred within half a degree of its own coordinates, and no cell exactly for the ZZ country or null island |
| `Ip6Text.Ip6` | scripts/gen-geo-table.py:109-120 | the loop over the parts computes `Fold`, with an error on a part that is not hexadecimal |
| `Ip6Text.HexIff` | scripts/gen-geo-table.py:119-119 | a part is accepted exactly when it spells a number in hexadecimal digits of either case, and read as that number |
| `Ip6Text.FoldReadsIff` | scripts/gen-geo-table.py:118-119 | the text is refused exactly when one of its parts is not hexadecimal |
| `Ip6Text.PartsLaw` | scripts/gen-geo-table.py:110-114 | any text with "::", well formed or not, is cut at the first one and filled with zeros up to eight parts |
| `Ip6Text.FoldBits` | scripts/gen-geo-table.py:119-119 | a further part moves the number up by sixteen bits and sets its own bits, however long the part is |
| `Ip6Text.FullForm` | scripts/gen-geo-table.py:116-120 | colon-joined group texts, in any case and with leading zeros, evaluate to the number of the groups |
| `Ip6Text.CompressionKeepsValue` | scripts/gen-geo-table.py:110-115 | every "::" in place of a run of zero groups of an eight-group address gives the same number as the full form (section 2.2 of RFC 4291) |
| `Ip6Text.NumberBound` | scripts/gen-geo-table.py:117-120 | n groups give a number below 2^(16n), so eight give one below 2^128 |
| `Ip6Text.NumberInjective` | scripts/gen-geo-table.py:117-120 | different group lists of equal length give different numbers |
| `SlidingWindow.SpanBound` | ui/lib/auth-settle.ts:115-136 | a log that held at most max entries in the window at every append holds at most max in any span shorter than the window |
| `SlidingWindow.RecentAgain` | ui/lib/auth-settle.ts:121-121 | trimming at an earlier time loses nothing a later trim would keep |
| `SlidingWindow.RecentCounts` | ui/lib/auth-settle.ts:115-125 | trimming keeps exactly the entries younger than the window, each as often as it occurred |
| `AuthSettle.StepValid` | ui/lib/auth-settle.ts:161-225 | every event keeps: a pending value has its timer, differs from a committed view and excludes degraded; only "resolving" has a resolve timer; at most three flips unless degraded |
| `AuthSettle.Absorbing` | ui/lib/auth-settle.ts:138-146 | within a load a decision is never unmade and degraded never changes again |
| `AuthSettle.BoundedLoad` | ui/lib/auth-settle.ts:41-51 | in every run of one page load, under any storage failures, at most three flips follow the first commit and the page repaints at most five times |
| `AuthSettleRuns.FlipJustified` | ui/lib/auth-settle.ts:188-225 | every flip ends a full 1500 ms countdown with no loaded sample equal to the committed view, or consumes exactly one sign-in marker |
| `AuthSettleRuns.PendingFlipIff` | ui/lib/auth-settle.ts:220-224 | a due countdown flips the view to its target exactly when fewer than three flips of the load and, as far as the log can be read and written, fewer than five of the last 90 s are spent; otherwise it degrades; the log gets the time either way |
| `AuthSettleRuns.ImmediateFlipIff` | ui/lib/auth-settle.ts:212-224 | a contradicting sample flips at once exactly when it is a sign-in with a marker that can be read and removed and both budgets have room; without a marker it starts a 1500 ms countdown or leaves the running one alone |
| `AuthSettleRuns.AbandonedMarkerStillCounts` | ui/lib/auth-settle.ts:227-233 | a marker abandoned in an earlier load, any time ago, still skips the debounce |
| `AuthSettleRuns.FeedIdempotent` | ui/lib/auth-settle.ts:173-225 | repeating a sample, with any wait in between but no timer firing, changes nothing |
| `AuthSettleRuns.SteadySignalShows` | ui/lib/auth-settle.ts:33-39 | a constant sample is shown, or the guard degraded, once more than 1500 ms have passed and no timer is overdue; with room in both budgets it is shown |
| `AuthSettleRuns.ResolvingEnds` | ui/lib/auth-settle.ts:253-261 | "resolving" is over once more than 8000 ms have passed since init, and without a loaded sample a load within budget then shows "out" |
| `AuthSettleRuns.TryAgainRecovers` | ui/lib/auth-settle.ts:316-328 | the user's reset, with storage cleared, gives a load that is not degraded |
| `AuthSettleRuns.FlipRateAcrossLoads` | ui/lib/auth-settle.ts:127-171 | over any sequence of page loads with working storage and no user reset, any span shorter than 90 s holds at most five committed flips |
| `AuthSettleRuns.OverBudgetLoad` | ui/lib/auth-settle.ts:243-252 | a load that finds more than five flips in the window is degraded from its first step and for its whole life |
| `AuthGuard.Tab.FeedSample` | ui/lib/auth-settle.ts:174-225 | the in-place feed is the step `Feed` |
| `AuthGuard.Tab.Commit` | ui/lib/auth-settle.ts:161-171 | the in-place commit is the step `CommitFlip`, budget checks and log included |
| `AuthGuard.Tab.RecordLog` | ui/lib/auth-settle.ts:127-136 | trims, appends and counts, falling back to the per-load count when the write fails |
| `AuthGuard.Tab.ReadLog` | ui/lib/auth-settle.ts:115-125 | the entries younger than 90 s, or none when storage cannot be read |
| `AuthGuard.Tab.ConsumePendingSignIn` | ui/lib/auth-settle.ts:150-158 | true exactly when the marker is read and removed |
| `AuthGuard.Tab.OnPendingTimer` | ui/lib/auth-settle.ts:220-224 | the debounce callback is the step `FirePending` |
| `AuthGuard.Tab.OnResolveTimer` | ui/lib/auth-settle.ts:254-260 | the timeout callback is the step `FireResolve` |
| `AuthGuard.Tab.InitClient` | ui/lib/auth-settle.ts:246-262 | from any state, the first call degrades on an over-full history and otherwise starts the resolve timer only while nothing is decided; later calls change nothing |
| `AuthGuard.Tab.CurrentView` | ui/lib/auth-settle.ts:264-268 | degraded first, then the committed view, then the live sample, else resolving |
| `ReloadLatch.ReloadRate` | ui/components/pwa-register.tsx:16-38 | over any run of pages in one tab, under any storage failures, any span shorter than 60 s holds at most two reloads besides those made because storage failed |
| `ReloadLatch.TakeoverReloads` | ui/components/pwa-register.tsx:24-38 | a takeover reloads exactly on a controlled page that has not reacted yet, unless a readable log holds two reloads of the last minute |
| `ReloadLatch.LatchHoldsIff` | ui/components/pwa-register.tsx:27-37 | at most two reloads of any kind in every such span of every run, exactly when the log can be both read and written |
| `ReloadLatch.Tab.OnControllerChange` | ui/components/pwa-register.tsx:24-38 | the handler in place is the step `ControllerChange`, the unlatched reload on failing storage included |
| `GitopsSync.RunValid` | ui/components/gitops.tsx:146-168 | after any interleaving over any teams, no team has two runs, the in-flight flag is truthful and a pending flag never outlives its run |
| `GitopsSync.NoTriggerLost` | ui/components/gitops.tsx:140-168 | every trigger is covered by a run of its own team begun at or after it, or that team has a run in flight with its pending flag up |
| `GitopsSync.IdleMeansSynced` | ui/components/gitops.tsx:140-168 | an idle team has run at or after every trigger |
| `GitopsSync.ExactlyOneFurtherRun` | ui/components/gitops.tsx:140-144 | any positive number of triggers during a run cause exactly one further run, none cause none, whatever other teams do |
| `GitopsSync.TeamsIndependent` | ui/components/gitops.tsx:51-55 | a team's state is what it would be had no other team existed |
| `GitopsSync.Scheduler.TriggerSync` | ui/components/gitops.tsx:146-152 | starts a run or raises the pending flag of that team only |
| `GitopsSync.Scheduler.RunEnded` | ui/components/gitops.tsx:156-166 | clears the flag and fires the trailing run of the same team |
| `GitopsSync.RunSync` | ui/components/gitops.tsx:66-125 | one run makes at most four requests, asks again only after a network error or an unexplained 5xx, waits 2, 4 and 8 s, and records exactly one status, the one the last answer deserves: pushed, unchanged, not configured or failed |
| `GitopsSync.RequestsPerTrigger` | ui/components/gitops.tsx:59-168 | however the endpoint answers, n triggers of a team cause at most 4n requests |
| `EvenOdd.RingContains` | ui/components/world-choropleth.tsx:73-81 | the toggling loop computes the crossing parity of the closed ring |
| `EvenOdd.PolygonContains` | ui/components/world-choropleth.tsx:83-89 | inside the outer ring and no hole |
| `EvenOdd.HoleTakesOut` | ui/components/world-choropleth.tsx:83-89 | a further hole takes exactly its own inside out of a polygon |
| `EvenOdd.CountryAt` | ui/components/world-choropleth.tsx:91-98 | the first country with a polygon around the point, none exactly when there is none |
| `EvenOdd.TriangleInside` | ui/components/world-choropleth.tsx:73-81 | every mean of a triangle's corners with positive weights is inside it |
| `EvenOdd.TriangleOutside` | ui/components/world-choropleth.tsx:73-81 | a point strictly beyond any edge line of a triangle is outside it |
| `EvenOdd.TriangleIff` | ui/components/world-choropleth.tsx:73-81 | off the three lines, inside means strictly on the same side of all three edges |
| `EvenOdd.RingIff` | ui/components/world-choropleth.tsx:73-81 | for a ring of any size and shape, inside means that an odd number of the triangles from its first corner lie around the point |
| `EvenOdd.CrossesIffHit` | ui/components/world-choropleth.tsx:78-78 | the edge test is that the edge passes the point's height on the point's right, decided by the sign of an area |
| `EvenOdd.RotationInvariant` | ui/components/world-choropleth.tsx:73-81 | the answer does not depend on the starting vertex |
| `EvenOdd.OrientationInvariant` | ui/components/world-choropleth.tsx:73-81 | nor on the orientation of the ring |
| `EvenOdd.CutAdditive` | ui/components/world-choropleth.tsx:73-81 | cutting a ring along a chord or any polyline border between two vertices: a point is inside the ring exactly when it is inside one and only one part |
| `EvenOdd.OutsideBox` | ui/components/world-choropleth.tsx:73-81 | a point on any side of the ring's bounding box is never inside, since a closed ring changes side of a horizontal line an even number of times |
| `MintBudget.RunValid` | ui/lib/api.ts:298-334 | failed exactly from four failures on, backoff exactly for one to three, and never two gate mints at once |
| `MintBudget.GateBudget` | ui/lib/api.ts:371-384 | between two successes the gate starts at most four mints in every interleaving |
| `MintBudget.GrantIsKept` | ui/lib/api.ts:374-383 | a gate granted once never mints again |
| `MintBudget.GateReopens` | ui/lib/api.ts:374-383 | a failed gate mint leaves the gate open again, a granted one closes it, and no other event touches a gate in flight |
| `MintBudget.NoEarlyAutomaticMint` | ui/lib/api.ts:270-273 | no automatic path starts a mint from four failures on, or before 2, 8 or 30 s have passed since the first, second or third in a row |
| `MintBudget.AutomaticMintIff` | ui/lib/api.ts:268-384 | after any run of a fresh page, the gate and the re-mint path start a mint exactly when the budget and the 2, 8 and 30 s waits allow it and nothing of their own is under way or too recent |
| `MintBudget.AutoSpacing` | ui/lib/api.ts:268-281 | automatic re-mints start at least 30 s apart |
| `MintBudget.SessionMint.Note` | ui/lib/api.ts:312-334 | the outcome counter, state and backoff table in place |
| `MintBudget.SessionMint.EnsureSessionMinted` | ui/lib/api.ts:372-384 | the gate starts a mint exactly when it may |
| `MintBudget.SessionMint.RemintAfterRefusal` | ui/lib/api.ts:269-274 | the re-mint branch starts one exactly when it may |
| `ApiCache.CollisionIff` | ui/lib/api.ts:471-473 | two teams can collide on some cache key exactly when one, followed by the separator, is a prefix of the other |
| `ApiCache.ProvenanceIff` | ui/lib/api.ts:471-491 | over a set of teams, every caller in every interleaving of calls, replies, failures, invalidations and switches holds only answers of its own team and path, exactly when no team of the set, followed by the separator, begins another |
| `ApiCache.Provenance` | ui/lib/api.ts:471-491 | for separable teams, in addition, pollers show the selected team's data once a switch is broadcast |
| `ApiCache.CollidingTeamsMix` | ui/lib/api.ts:471-480 | for every colliding pair of teams and any limits there is a run that hands one of them the other's answer |
| `ApiCache.ServedYoung` | ui/lib/api.ts:479-491 | in every run, a caller served from the cache did not want fresh data and gets an answer to a request for its own key that came in less than the path's limit ago |
| `ApiCache.ReplyReaches` | ui/lib/api.ts:481-490 | an answer reaches exactly the callers waiting for its request and is kept under its key as of now |
| `ApiCache.RefuseReaches` | ui/lib/api.ts:481-490 | a failure reaches exactly the callers waiting for its request and frees the key |
| `ApiCache.LoadAsks` | ui/lib/api.ts:619-641 | a poller asks for its own path in the selected team's name, and for nothing while the team is pending |
| `ApiCache.DeliverShows` | ui/lib/api.ts:641-643 | a poller shows the answer unless the team has changed since it asked, and no other poller changes |
| `ApiCache.PollsKeep` | ui/lib/api.ts:681-688 | otherwise only the broadcast of a team change takes a poller's data away |
| `ApiCache.PollCommits` | ui/lib/api.ts:619-651 | a poller's data changes only to a value of the team selected at that moment |
| `ApiCache.SingleFlightIff` | ui/lib/api.ts:449-491 | from a cleared cache, no continuation without a further clearing has two requests for a key on the wire, exactly when none for it is on the wire at that moment |
| `ApiCache.SingleFlightAfterClearing` | ui/lib/api.ts:449-452 | after a write or a team broadcast, requests for a key can overlap before the next one exactly when one was on the wire |
| `ApiCache.SingleFlight` | ui/lib/api.ts:473-491 | in particular a fresh page has at most one request per key on the wire until its first invalidation |
| `ApiCache.PollPathIff` | ui/lib/api.ts:619-651 | a poller that stays on its path shows only answers for that path in every continuation, exactly when it shows no other now and no call it made for another is still out |
| `ApiCache.FreshAfterWriteIff` | ui/lib/api.ts:449-491 | after a write or a team broadcast, no continuation settles a key with an answer asked for before it, exactly when no request for that key was on the wire then |
| `ApiCache.GetCache.ApiGet` | ui/lib/api.ts:471-491 | shares an in-flight request, serves a young entry, or sends and records a new one |
| `TtlCache.GetRefinesIff` | ui/lib/cache.ts:34-74 | one two-tier call is one call on the single merged map, whatever becomes of the storage write, exactly when a failing storage read does not hide a young entry |
| `TtlCache.DropRefinesIff` | ui/lib/cache.ts:76-80 | an invalidation removes the URL from the merged map exactly when the storage removal succeeds or had nothing to remove |
| `TtlCache.ReloadRefinesIff` | ui/lib/cache.ts:3-6 | a reload leaves the merged map alone exactly when every memory entry is also the stored one |
| `TtlCache.OneMapIff` | ui/lib/cache.ts:34-80 | over any calls, invalidations, reloads, waits and storage failures, the tiers are the single map after every operation, replies included, exactly when each operation meets its condition above |
| `TtlCache.TiersBehaveAsOneMap` | ui/lib/cache.ts:34-80 | within one page load with working reads and removals, this holds under any pattern of write failures and unreadable stored text |
| `TtlCache.TiersSurviveReloads` | ui/lib/cache.ts:3-6 | with working storage it holds across any number of reloads |
| `TtlCache.GetDelivers` | ui/lib/cache.ts:40-74 | a call avoids the network exactly when memory or readable storage holds an entry younger than the caller's limit, and then gives that value; a fetched answer is remembered as of now exactly when it came and is wanted, and otherwise both tiers stay |
| `TtlCache.InvalidateThenFetch` | ui/lib/cache.ts:76-80 | the next call of an invalidated URL goes to the network, whatever other calls, invalidations, reloads and waits come between, exactly when the storage removal succeeded or had nothing to remove |
| `TtlCache.Cache.CachedJson` | ui/lib/cache.ts:34-74 | the in-place call is the step `TierGet`, failing reads and writes of storage included |
| `MinimalYaml.ParseMinimalYaml` | scripts/devhub-action/deploy.py:47-71 | the line loop over `root` and `current` computes `Parse`, errors and their line numbers included |
| `MinimalYamlRead.ReadingLaw` | scripts/devhub-action/deploy.py:31-44 | a stripped text reads as a scalar exactly when it spells it: nine words in any mix of cases, an optional minus and decimal digits with their positional value, text in quotes of either kind, and any other text as itself |
| `MinimalYamlRead.ScalarLaw` | scripts/devhub-action/deploy.py:32-32 | the same through any white space around the text |
| `MinimalYamlRead.DecimalIff` | scripts/devhub-action/deploy.py:42-43 | a character counts as a digit exactly in a decimal block of some script, with its distance from that block's zero |
| `MinimalYamlRead.BodyLaw` | scripts/devhub-action/deploy.py:52-52 | a comment line is empty, any other line is cut at the first white space that runs up to '#' |
| `MinimalYamlRead.ReadLaw` | scripts/devhub-action/deploy.py:53-60 | a line is blank, refused for a tab after its leading spaces, refused without a colon or key, or the pair around its first colon, each exactly when its characters say so |
| `MinimalYamlRead.SplitLaw` | scripts/devhub-action/deploy.py:51-51 | each of the eleven line ends ends exactly one line, a carriage return taking a line feed with it |
| `MinimalYamlRead.ApplyLaw` | scripts/devhub-action/deploy.py:61-70 | what one pair does to the document, and that nothing else changes |
| `MinimalYamlRead.ErrorLaw` | scripts/devhub-action/deploy.py:51-70 | an error names the first refused line and its problem |
| `MinimalYaml.ApplyAnchored` | scripts/devhub-action/deploy.py:61-70 | the open section is always present, so a pair is refused exactly when it is indented with no section open |
| `MinimalYaml.BlankLineIgnored` | scripts/devhub-action/deploy.py:51-54 | inserting a blank or comment line anywhere never changes the result, up to line numbers in errors |
| `MinimalYamlPrint.ScalarRoundTrip` | scripts/devhub-action/deploy.py:31-44 | every one-line text that spells a scalar, in whatever way, reads back as it |
| `MinimalYamlPrint.ShowSpells` | scripts/devhub-action/deploy.py:31-44 | every scalar has such a text, as long as a string has no line break and no white space before '#' |
| `MinimalYamlPrint.RoundTrip` | scripts/devhub-action/deploy.py:47-71 | parsing undoes printing for every list of scalars, each in any spelling, and sections, in any order, duplicate keys included |
| `MinimalYamlPrint.StringSurvivesIff` | scripts/devhub-action/deploy.py:52-52 | a one-line string in quotes of either kind survives exactly when it has no white space directly before '#' |

## Left out

- `haversine_km` and floating point: distance is an arbitrary function of two cells, coordinates and ring vertices are exact reals.
- Reading the gzip file, splitting CSV fields and converting numbers: the model starts from lines whose fields are read, with sortedness and disjointness as the stated assumption of the source.
- `ip4`: dotted-quad conversion is one expression; addresses enter as numbers.
- `Ip6Text.Ip6`: a part is hexadecimal digits only; the other spellings Python's `int(p, 16)` admits (sign, `0x`, underscores, surrounding blanks) count as errors here.
- The choice between an override table file and the embedded one, and 32-bit platforms where the reader's length arithmetic could overflow.
- The user's "try again" is an event of the auth machine; the cross-load bound is stated for runs without it and with working storage, as the source intends.
- React rendering, listeners and `notify`: views are read off the state.
- `MINT_ON`, server-side rendering guards and `mintOnce`'s request: constants or network calls; a mint is a start and an outcome.
- The rejection handler of the gate promise: the mint function catches everything, so it never rejects.
- `PATH_TTL`: the table of path patterns is an arbitrary function from path to limit.
- The gap of one microtask between a failed request and the removal of its cache entry: failure and removal are one step.
- `opsGet`/`useOpsPoll`, `apiSend` and the other request helpers: the same cache with another base path, or thin wrappers.
- `TtlCache.OneMapIff`: calls one at a time; overlapping calls of one URL, which may both fetch, are not part of this model.
- `MinimalYaml.ParseMinimalYaml`: integers of more than 4300 digits, which newer Python versions refuse, are read; decimal digits are those of Unicode 14.
- `validate` and the deploy client around the config parser.
- Projection, zooming and drawing of the map.
