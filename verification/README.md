# FerroDruid: verified models of its hard core

This project models, in Dafny, the parts of FerroDruid whose correctness is hardest to see from
reading the code, and proves what they promise for every input, every interleaving and every
history.

| file | models |
|---|---|
| `Overlord.dfy` | the overlord's reserve, dispatch, confirm or roll back protocol on a capped routing table, dropped requests and panicking drivers included, as a labelled transition system and as a class with one method per critical section |
| `CardinalityKeys.dfy`, `CardinalityEnvelope.dfy`, `CardinalityAggregator.dfy`, `ExactDistinct.dfy` | exact distinct counting: canonical keys, the capped set, the wire envelope, the broker's fail-closed merge, and the end-to-end result over any sharding and any merge tree |
| `SegmentIdentity.dfy`, `Attach.dfy`, `AttachSafety.dfy`, `AttachHistory.dfy`, `AttachReplay.dfy`, `AttachOutcomes.dfy`, `Importer.dfy`, `DeepStorage.dfy` | attaching Druid segments: identities, the persist-then-commit order, crashes at any durable write, forced replacement, dry runs and repeated runs, and the copy-and-prune upload underneath |
| `ExpressionParser.dfy`, `ExpressionGrammar.dfy`, `ExpressionTexts.dfy`, `RecursiveDescent.dfy` | the depth-guarded post-aggregation expression parser, against a grammar of concrete sentences, and what it makes of texts spelled out character by character |
| `DecimalRounding.dfy` | half-up rounding on a digit array with a carry loop, against its arithmetic meaning |
| `Scan.dfy`, `ScanSteps.dfy`, `ScanWalk.dfy` | the work-stack scan of a deep-storage tree and its limits, as loops and as a function of the tree |
| `Paths.dfy`, `DirectoryRuns.dfy`, `DownloadPlan.dfy` | the sort, group and truncate planner for object-store downloads |
| `Bloom.dfy` | the Bloom filter, its merge and its binary codec |
| `Common.dfy`, `Decimals.dfy` | options, results, facts about finite sets, and decimal digits |

`dafny verify dfyconfig.toml` verifies the whole project.

## Main results

* **Exact distinct counting.** For any rows over any shards, any merge tree and any malformed, saturated
  or bare-count leaves, an unsaturated answer is the number of distinct tuples, or the sum over the
  fields of distinct values, and every leaf was exact or zero (`ExactAnswerIsRight`,
  `ExactAnswerCounts`). Whether the answer is exact depends only on the multiset of leaves
  (`MergeIgnoresOrderAndBracketing`), and an exact condition for it is `ExactIffAllExactAndFits`.
  SHA-256 is a parameter; the only assumption is that the strings actually hashed do not collide.
* **Dispatch protocol.** In every interleaving the table holds at most `max_routes` entries plus one for
  each eviction that hit an entry which had become `Dispatching` again (`CapHoldsUpToStaleEvictions`);
  the bound is reached for every cap and every number of such evictions (`CapBoundIsTight`). Without
  them the cap is exact and reservations correspond one to one to drivers
  (`ExactWithoutStaleEvictions`). Before the first of them the cap is kept however the run goes on, and
  an admission keeps it so exactly when it does not evict a reservation whose driver is in flight or
  panicked with its request still waiting to clean up (`AdmissionKeepsCapIff`). When all has come to
  rest, a reservation has leaked exactly when its driver panicked without its request cleaning up
  (`LeakedIffAbandoned`). A confirmed route names the middleManager that was dispatched to
  (`RoutedWasConfirmed`).
* **Attach.** A run without failures over good artifacts of new segments attaches every one of them,
  with its files, its row and its hash, and touches nothing else (`NewSegmentsAreAllAttached`); what
  stops an artifact and what is reported of it is said case by case (`FilteredIff`, `StoppedEarly`,
  `StoppedLate`, `StagedIsWritten`). From a consistent store, any number of runs without `--force`, each
  ending or crashing after any durable write, leave every used row with a complete blob of the recorded
  hash (`CrashConsistency`) and only orphans behind (`OnlyOrphansAreLeft`). With `--force`, mismatches
  are among the replacements begun and not finished (`MismatchesAreBegun`), and a failure-free forced
  run over the same artifacts removes them all (`ForcedRerunConverges`). An id stays bound to one
  structured identity for the life of the store (`IdIsBoundForLife`), although every accepted identity
  leads to two others that collide (`AcceptedIdentitiesCollide`). An upload ends with exactly the staged
  files whatever an orphan left behind (`Directory.Upload`). A dry run foretells the real run
  (`DryRunForetellsRealRun`); a second run attaches nothing (`SecondRunAttachesNothing`).
* **Parser and rounding.** The parser accepts exactly the sentences of its grammar within its limits,
  each as the tree it denotes (`ParserIsExact`), printing then parsing is the identity
  (`PrintThenParse`), and unparenthesized chains of any length group by precedence and to the left
  (`PrecedenceAndAssociativity`). Functions, arities, operators, names, numbers and limits are also
  stated on the characters of the text (`RoundCalls`, `OperatorsByCharacter`, `NumbersAreLiterals`,
  `NestingLimit` and others). Rounding on digits is the multiple of 10^-digits nearest to the magnitude,
  ties away from zero, for every number and every digit count (`RoundsHalfUp`).
* **Scan and plan.** Every outcome of a scan, complete, truncated or aborted, accounts for the whole
  tree and says so exactly (the contract of `ScanTree`); one that is neither truncated nor aborted finds
  exactly what can be reached (`CompleteScanIsExact`). A truncated one that is not aborted holds the
  first artifacts of a recursive depth-first listing (`WalkIsDepthFirst`). The order in which
  directories list their entries decides nothing (`ListingOrderDoesNotMatter`) until one lists more than
  are read (`CutListingsDependOnOrder`). A download plan is the least kept keys up to a directory
  boundary (`PlanDownloads`, `OnlyLaterKeysAreLeftOut`), and which keys are kept, filtered and refused
  is spelled out on their characters (`FateSpelled`, `UnlimitedPlan`). A plan for a given limit splits a
  directory exactly when one straddles the place where that limit is met (`PlanSplitsIff`), and every
  limit keeps directories whole exactly when none is interrupted at or after an artifact
  (`DirectoriesAreWholeIff`).
* **Bloom filter.** A value sets, and is looked for at, the places that its two hash words walk to
  (`AddValue`, `Test`, `FoundIffPlacesTaken`). For equal m and k, sharded building equals a single pass
  bit for bit (`ShardedEqualsSinglePass`) and no added value is ever missed (`NoFalseNegatives`). On the
  wire, where envelopes may be malformed or of any shape, a merge tree loses no value that a reader
  finds in a filter exactly when the filters share one shape and no malformed envelope comes first in a
  part of the tree that holds a filter (`NothingIsLostIff`); `MalformedEnvelopeAbsorbs` and
  `OtherShapeIsDropped` are losing inputs. The codec is a bijection (`DecodeEncode`, `EncodeDecode`).

## Where the code and its documentation disagree

* `bins/ferrodruid-overlord/src/overlord_app.rs:35-44` says that a burst cannot exceed the cap and that
  `Dispatching` reservations are never eviction candidates. The eviction at lines 243-247 re-checks only
  that the candidate is still in the table, so a candidate that was evicted, resubmitted and is
  `Dispatching` again can be removed. `CapBoundIsTight` builds such runs, `CapHoldsUpToStaleEvictions`
  bounds the damage, and `AdmissionKeepsCapIff` gives the exact condition: however the run goes on until
  the next such eviction, the cap is kept if and only if the admission evicts no reservation, or one
  whose driver panicked and whose request is gone.
* Lines 278-281 of the same file call the clean-up after a panicked driver a clearing of the
  reservation. It removes whatever entry the id holds by then, even the reservation of another request
  (`CleanUpForeign`), and the success of that one then comes on top of a full table
  (`MiscleanedTableOvergrows`). As long as no reservation has been evicted it removes its own and no
  other (`CleanUpIsOwnWithoutStaleEvictions`).
* Lines 254-258 of the same file say that the upgrade or the rollback always runs, even when the request
  is dropped. A driver that panics runs neither, and lines 278-281 clean up only while the request still
  waits: `DropThenPanicLeaks` gives a run that leaks a reservation, `AbandonedReservationStays` shows
  that it stays, and `LeakedIffAbandoned` says exactly when reservations leak.
* `bins/ferrodruid-migrate/src/s3_source.rs:272-274` and `:291-295` say that a group is never split and
  that groups are kept whole so a smoosh directory is never half-downloaded. A run of one directory in
  the sorted listing is never split, but a directory with a subdirectory between its keys forms two
  runs, and a limit can fall between them: `DirectoriesCanBeSplit` gives listings of keys,
  `PlanSplitsIff` the exact condition for one limit, `DirectoriesAreWholeIff` that for all of them, and
  `FlatListingsKeepDirectoriesWhole` a simple sufficient one.
* `bins/ferrodruid-migrate/src/attach.rs:682-706` reports that no row was committed, or that the old row
  survives, whenever the row write reports failure. A write whose confirmation is lost has changed the
  row all the same: `UnconfirmedRowIsFound` shows what the next run then reports. The theorems over
  histories cover such writes.
* `bins/ferrodruid-migrate/src/assess.rs:455` calls the order of the scan deterministic. It is as long
  as no directory lists more entries than are read (`ListingOrderDoesNotMatter`); past that, what is
  found depends on the order in which the file system lists (`CutListingsDependOnOrder`).

## Model

| member | source | states |
|---|---|---|
| Overlord.OverlordTable.LookupRoute | bins/ferrodruid-overlord/src/overlord_app.rs:185-190 | the idempotency look-up finds an entry exactly when there is one |
| Overlord.OverlordTable.SelectIndex | bins/ferrodruid-overlord/src/overlord_app.rs:143-149 | round robin over the middleManagers by a wrapping counter, none when there are none |
| Overlord.OverlordTable.RoutedEntries | bins/ferrodruid-overlord/src/overlord_app.rs:207-214 | the snapshot of eviction candidates holds every `Routed` entry once, in any order, and no reservation |
| Overlord.OverlordTable.AdmitTask | bins/ferrodruid-overlord/src/overlord_app.rs:237-252 | the admission critical section: relay, refuse for capacity, or evict at most the candidate and reserve |
| Overlord.OverlordTable.CompleteDispatch | bins/ferrodruid-overlord/src/overlord_app.rs:262-274 | the driver's critical section: on success the entry is `Routed` at the driver's own index, on failure it is gone, and all other entries are as they were |
| Overlord.StepKeepsInv | bins/ferrodruid-overlord/src/overlord_app.rs:174-287 | every atomic step of every request and driver, panics and their clean-up included, keeps the protocol invariant |
| Overlord.RunKeepsInv | bins/ferrodruid-overlord/src/overlord_app.rs:174-287 | the invariant holds after every interleaving, dropped requests and panicking drivers included |
| Overlord.CapHoldsUpToStaleEvictions | bins/ferrodruid-overlord/src/overlord_app.rs:202-252 | on every run the table holds at most the cap plus one entry per stale eviction |
| Overlord.ExactWithoutStaleEvictions | bins/ferrodruid-overlord/src/overlord_app.rs:35-50 | without stale evictions the cap is exact, reservations and drivers match one to one, and no id has two drivers |
| Overlord.NoReservationLeak | bins/ferrodruid-overlord/src/overlord_app.rs:254-274 | every reservation has its driver, in flight or panicked, a table without drivers is all `Routed`, and stored indexes are in range |
| Overlord.RoutedWasConfirmed | bins/ferrodruid-overlord/src/overlord_app.rs:252-274 | a route that is `Routed` at an index was reserved by an admission of its task at that index, whose driver was then accepted |
| Overlord.CandidateIsFirstTerminal | bins/ferrodruid-overlord/src/overlord_app.rs:206-232 | the routed tasks are polled in the order of the snapshot and the first that is terminal becomes the candidate, none when none is |
| Overlord.DuplicateChangesNothing | bins/ferrodruid-overlord/src/overlord_app.rs:185-242 | a request for a task that has an entry ends and changes neither the table, nor the drivers, nor whose turn it is |
| Overlord.ReservationsAreSeparatedByRemoval | bins/ferrodruid-overlord/src/overlord_app.rs:237-252 | between two reservations of one id some step removes its entry |
| Overlord.AdmissionKeepsMatchingIff | bins/ferrodruid-overlord/src/overlord_app.rs:243-251 | an admission keeps drivers and reservations matched exactly when the entry it evicts, if any, is still `Routed` |
| Overlord.AdmissionKeepsCapIff | bins/ferrodruid-overlord/src/overlord_app.rs:237-285 | before the first stale eviction every continuation without one keeps the cap, and an admission keeps that so exactly when it evicts no reservation whose driver is in flight or whose request still waits to clean up |
| Overlord.AdmissionIsCapSafeIff | bins/ferrodruid-overlord/src/overlord_app.rs:237-274 | looking one success ahead, an admission keeps the table within its cap exactly when it does not evict a reservation being driven |
| Overlord.EvictingClaimedOvergrows | bins/ferrodruid-overlord/src/overlord_app.rs:243-285 | evicting a reservation whose driver is in flight, or whose clean-up is pending, lets some continuation exceed the cap without a further stale eviction |
| Overlord.CleanUpForeign | bins/ferrodruid-overlord/src/overlord_app.rs:278-281 | a clean-up removes the entry its id holds by then, even the reservation of another driver in flight |
| Overlord.CleanUpIsOwnWithoutStaleEvictions | bins/ferrodruid-overlord/src/overlord_app.rs:278-281 | without stale evictions a clean-up removes the reservation of its own driver and nobody else's |
| Overlord.PanickedUntilCleanUp | bins/ferrodruid-overlord/src/overlord_app.rs:275-285 | only its own request's clean-up ends a panicked driver, and then its entry is gone |
| Overlord.AbandonedReservationStays | bins/ferrodruid-overlord/src/overlord_app.rs:254-285 | the reservation of a panicked driver whose request is gone stays in the table through every run without stale evictions |
| Overlord.LeakedIffAbandoned | bins/ferrodruid-overlord/src/overlord_app.rs:254-285 | at rest, without stale evictions, a reservation is left exactly when its driver panicked and nobody cleaned up |
| Overlord.DropThenPanicLeaks | bins/ferrodruid-overlord/src/overlord_app.rs:254-285 | for every task some run with a dropped request and a panic leaks its reservation |
| Overlord.CapBoundIsTight | bins/ferrodruid-overlord/src/overlord_app.rs:243-251 | for every cap and every number of stale evictions some run reaches cap plus that number |
| CardinalityKeys.ValueToKeyIsClippedRawKey | crates/ferrodruid-aggregator/src/cardinality.rs:981-1053 | hashing a long string directly gives what clipping its tagged copy would give |
| CardinalityKeys.ClipInjective | crates/ferrodruid-aggregator/src/cardinality.rs:1037-1053 | clipping keeps distinct keys apart: short ones are kept, long ones differ in their digests, and neither looks like the other |
| CardinalityKeys.ValueKeyInjective | crates/ferrodruid-aggregator/src/cardinality.rs:981-998 | equal value keys come from equal values, across all type prefixes |
| CardinalityKeys.TaggedInjective | crates/ferrodruid-aggregator/src/cardinality.rs:642-676 | field-tagged keys coincide only for equal field and equal value key |
| CardinalityKeys.CompositeInjective | crates/ferrodruid-aggregator/src/cardinality.rs:696-709 | length-prefixed composite keys coincide only for the same list of parts, whatever bytes they hold |
| CardinalityKeys.KeyInjective | crates/ferrodruid-aggregator/src/cardinality.rs:642-709 | stored keys of rows or of cells coincide only for the same row or the same field and value |
| CardinalityKeys.KeyLength | crates/ferrodruid-aggregator/src/cardinality.rs:1037-1053 | every stored key respects the per-key byte bound |
| CardinalityKeys.KeysCount | crates/ferrodruid-aggregator/src/cardinality.rs:642-709 | there are as many keys as distinct items |
| CardinalityKeys.CellItemsAreSumOfDistinct | crates/ferrodruid-aggregator/src/cardinality.rs:578-593 | without byRow the items number the sum over the fields of their distinct values |
| CardinalityKeys.AbsentCountsAsNull | crates/ferrodruid-aggregator/src/cardinality.rs:981-991 | an absent column and a null count as one value, and no other two do |
| CardinalityKeys.ValueKeySpelled | crates/ferrodruid-aggregator/src/cardinality.rs:981-998 | the bytes of every value's key: the null text, or the letter of its type, a colon and its text, stored as it is or as a digest |
| CardinalityKeys.ClippedIsStoredAs | crates/ferrodruid-aggregator/src/cardinality.rs:1037-1053 | up to 4096 bytes a key is stored as it is, and beyond as its digest in lower-case hexadecimal behind the marker |
| CardinalityKeys.TagSpelled | crates/ferrodruid-aggregator/src/cardinality.rs:642-676 | a field tag is an f, the eight hexadecimal digits of the index, a colon and the key |
| CardinalityKeys.CompositeSpelled | crates/ferrodruid-aggregator/src/cardinality.rs:696-709 | a tuple key is its parts, each behind its decimal length and a colon and before a NUL |
| CardinalityEnvelope.ValidateTaggedObj | crates/ferrodruid-aggregator/src/cardinality.rs:293-354 | an envelope is accepted exactly when it meets all the rules on flag, count, entry sizes, distinctness and set size, and then yields its flag and count |
| CardinalityEnvelope.FromJsonValid | crates/ferrodruid-aggregator/src/cardinality.rs:150-167 | what is accepted satisfies the rules, and a rejection means a tagged value that breaks them |
| CardinalityEnvelope.ToJsonRoundTrip | crates/ferrodruid-aggregator/src/cardinality.rs:150-173 | serializing a rule-abiding state and reading it back gives the state |
| CardinalityEnvelope.UnionWithCap | crates/ferrodruid-aggregator/src/cardinality.rs:239-284 | the result is a capped union of the two states for some enumeration of the sets, with every special case |
| CardinalityEnvelope.UnionValid | crates/ferrodruid-aggregator/src/cardinality.rs:232-284 | every union of valid states is valid |
| CardinalityEnvelope.MergeCardinality | crates/ferrodruid-aggregator/src/lib.rs:426-524 | the broker's merge of two arbitrary JSON values is one of the results the rules allow |
| CardinalityEnvelope.MergeVerdict | crates/ferrodruid-aggregator/src/lib.rs:465-523 | what a merge claims (malformed, saturated, bare count or exact set) is determined by what its inputs claim |
| CardinalityEnvelope.MergeOutputIsNeverMalformed | crates/ferrodruid-aggregator/src/lib.rs:484-523 | a merge of anything emits a bare count or an envelope that passes validation |
| CardinalityEnvelope.WhatIsClaimed | crates/ferrodruid-aggregator/src/cardinality.rs:150-167 | what any JSON value claims, from its fields: a tagged value that breaks a rule and a value that is neither tagged nor a count are malformed, never zero |
| CardinalityEnvelope.AcceptedEnvelopes | crates/ferrodruid-aggregator/src/cardinality.rs:293-354 | which states are accepted on the wire, with the limits in numbers |
| CardinalityEnvelope.EnvelopeSpelled | crates/ferrodruid-aggregator/src/cardinality.rs:170-173 | the four fields of an envelope |
| CardinalityEnvelope.MergedCount | crates/ferrodruid-aggregator/src/lib.rs:465-523 | the count a merge states: the size of the union, one over the cap, or the sum of what the inputs state within 64 bits |
| CardinalityAggregator.Aggregator.TryInsert | crates/ferrodruid-aggregator/src/cardinality.rs:821-832 | a new key enters while there is room and saturates the aggregator otherwise |
| CardinalityAggregator.Aggregator.AggregateFieldAt | crates/ferrodruid-aggregator/src/cardinality.rs:642-676 | a field is buffered for the row, or its tagged, clipped key is offered |
| CardinalityAggregator.Aggregator.FinishRow | crates/ferrodruid-aggregator/src/cardinality.rs:696-709 | a finished row offers the clipped composite of its parts, if it has any |
| CardinalityAggregator.Aggregator.AggregateRowValues | crates/ferrodruid-aggregator/src/cardinality.rs:578-593 | a row offers exactly its keys and leaves nothing pending |
| CardinalityAggregator.Aggregator.Merge | crates/ferrodruid-aggregator/src/cardinality.rs:885-893 | merging offers the other's keys in some order and inherits its saturation |
| CardinalityAggregator.Aggregator.MergeFrom | crates/ferrodruid-aggregator/src/cardinality.rs:871-936 | filters are looked through, an aggregator of this kind is merged, and a foreign one saturates unless its count is zero, with stand-ins for its keys up to the cap |
| CardinalityAggregator.Aggregator.IntoState | crates/ferrodruid-aggregator/src/cardinality.rs:751-763 | the shipped state lists the set, or is saturated with the count |
| CardinalityAggregator.FromStateWithCap | crates/ferrodruid-aggregator/src/cardinality.rs:789-818 | hydration is unsaturated exactly for an unsaturated state whose true count fits the cap and is the one claimed, and then the set is the state's |
| CardinalityAggregator.OfferAllMeaning | crates/ferrodruid-aggregator/src/cardinality.rs:821-832 | offering keys in any order ends unsaturated exactly when it started so and all fit, and then holds the union |
| CardinalityAggregator.TypedMergeAgreesWithWireMerge | crates/ferrodruid-aggregator/src/cardinality.rs:232-284 | merging aggregators and shipping, and shipping and merging, agree on saturation and on the set |
| ExactDistinct.ShardPartial | crates/ferrodruid-aggregator/src/cardinality.rs:751-832 | a shard feeding its rows to an aggregator ships a partial of exactly those rows |
| ExactDistinct.ShardVerdict | crates/ferrodruid-aggregator/src/cardinality.rs:751-832 | a shard's partial is valid and is exact, with the keys of its rows, exactly when they fit the cap |
| ExactDistinct.YieldsVerdict | crates/ferrodruid-aggregator/src/lib.rs:426-524 | what any outcome of a merge tree claims is determined by the tree and its leaves |
| ExactDistinct.ExactAnswerIsRight | crates/ferrodruid-aggregator/src/lib.rs:426-524 | an unsaturated answer counts exactly the distinct items of all rows, and every leaf was exact or zero |
| ExactDistinct.ExactAnswerCounts | crates/ferrodruid-aggregator/src/cardinality.rs:578-709 | the same, as distinct tuples with byRow and as the sum over fields of distinct values without |
| ExactDistinct.CombineAssociates | crates/ferrodruid-aggregator/src/lib.rs:484-523 | for leaves within the cap, merging is associative in what it claims |
| ExactDistinct.TotalDependsOnMultiset | crates/ferrodruid-aggregator/src/lib.rs:484-523 | the claim over a list of leaves depends only on their multiset |
| ExactDistinct.MergeIgnoresOrderAndBracketing | crates/ferrodruid-aggregator/src/lib.rs:484-523 | two merge trees over one multiset of leaves claim the same |
| ExactDistinct.ExactIffAllExactAndFits | crates/ferrodruid-aggregator/src/lib.rs:484-523 | the root is exact exactly when all leaves are exact or zero, one is an envelope, and all keys fit the cap |
| ExactDistinct.CombineAbsorbs | crates/ferrodruid-aggregator/src/lib.rs:484-523 | saturation is absorbing |
| SegmentIdentity.NormalizedIffSameValue | bins/ferrodruid-migrate/src/attach.rs:1013-1031 | partition spellings normalize equal exactly when their values are equal, and normalizing is idempotent |
| SegmentIdentity.NoLeadingZero | bins/ferrodruid-migrate/src/attach.rs:1013-1031 | a normalized partition other than zero has no leading zero |
| SegmentIdentity.SplitIntervalReadsBothForms | bins/ferrodruid-migrate/src/attach.rs:899-941 | the slash and the underscore form of a pair of bounds are read alike, exactly when the bounds are instants in order |
| SegmentIdentity.SplitIntervalSound | bins/ferrodruid-migrate/src/attach.rs:911-941 | an accepted interval is the join of two instants in order |
| SegmentIdentity.SameIdAndColumns | bins/ferrodruid-migrate/src/attach.rs:870-881 | equal ids with four equal columns force equal identities |
| SegmentIdentity.AcceptedIdentitiesCollide | bins/ferrodruid-migrate/src/attach.rs:838-868 | from every accepted identity come two that are accepted, differ and share one id |
| SegmentIdentity.IdentifiedIffValidated | bins/ferrodruid-migrate/src/attach.rs:420-455 | exactly the validated identities can be identified, each from its written form |
| SegmentIdentity.SpellingDoesNotMatter | bins/ferrodruid-migrate/src/attach.rs:420-455 | identities that differ only in partition spelling and interval form are the same segment |
| SegmentIdentity.PartitionIsAcceptedIff | bins/ferrodruid-migrate/src/attach.rs:1013-1031 | a partition is accepted exactly when it is a non-empty string of digits whose value fits 64 bits |
| SegmentIdentity.SafeIffNamesOneEntry | crates/ferrodruid-deep-storage/src/lib.rs:215-229 | a path component is refused exactly when it is empty, one dot or two, or holds a slash, a backslash or a NUL |
| SegmentIdentity.IdentityIsAcceptedIff | bins/ferrodruid-migrate/src/attach.rs:420-465 | a complete identity is accepted exactly when its bounds are instants in order, its partition and version are good and its data source and id are safe, and then is what it says |
| SegmentIdentity.BrokenOrIncompleteIsRefused | bins/ferrodruid-migrate/src/attach.rs:387-418 | a broken descriptor and an incomplete identity are refused as such, whatever else they say |
| Attach.RunEndsWhereItsWritesLead | bins/ferrodruid-migrate/src/attach.rs:320-343 | a run ends in the world that its durable writes make in order |
| AttachSafety.PublishIsLawful | bins/ferrodruid-migrate/src/attach.rs:622-712 | the writes of one segment only ever touch what they may, and the row is committed only onto a complete blob of its hash |
| AttachSafety.RunIsLawful | bins/ferrodruid-migrate/src/attach.rs:475-497 | every write of every run is lawful: no row of another segment is touched, and no row at all without force |
| AttachSafety.CrashedRunIsLawful | bins/ferrodruid-migrate/src/attach.rs:45-59 | the same when the run crashes after any number of durable writes |
| AttachSafety.DryRunWritesNothing | bins/ferrodruid-migrate/src/attach.rs:616-620 | a dry run makes no durable write |
| AttachOutcomes.FilteredIff | bins/ferrodruid-migrate/src/attach.rs:320-331 | an artifact is left out exactly when a data source was asked for and the artifact is known to be of another |
| AttachOutcomes.StoppedEarly | bins/ferrodruid-migrate/src/attach.rs:387-497 | a bad identity, a failed look-up, an id held by another segment, and without force an id held by this one, each with its report |
| AttachOutcomes.StoppedLate | bins/ferrodruid-migrate/src/attach.rs:499-620 | what cannot be staged, read or hashed fails as such, and a dry run reports the rows it would attach |
| AttachOutcomes.StagedIsWritten | bins/ferrodruid-migrate/src/attach.rs:622-712 | what is reported and what is in the store after each way the upload and the row write can end |
| AttachOutcomes.NewSegmentIsAttached | bins/ferrodruid-migrate/src/attach.rs:622-712 | without failures an artifact of a segment whose id is free is attached: its files, its row, in use, and their hash |
| AttachOutcomes.HeldSegmentIsReplaced | bins/ferrodruid-migrate/src/attach.rs:622-712 | with force a segment that is there is attached again and reported as replaced |
| AttachOutcomes.NewSegmentsAreAllAttached | bins/ferrodruid-migrate/src/attach.rs:311-343 | a failure-free run over artifacts of distinct new segments attaches every one and leaves everything else alone |
| AttachHistory.CrashConsistency | bins/ferrodruid-migrate/src/attach.rs:45-59 | without force, after any history of runs and crashes from a consistent store, every used row's blob is complete and of the recorded hash, and what rows stood for is untouched |
| AttachHistory.OnlyOrphansAreLeft | bins/ferrodruid-migrate/src/attach.rs:45-59 | a blob that such a history changed is matching or referenced by no row |
| AttachHistory.MismatchesAreBegun | bins/ferrodruid-migrate/src/attach.rs:51-59 | with force, at any moment mismatching rows are among the replacements begun and not finished |
| AttachHistory.ForcedCrashMismatches | bins/ferrodruid-migrate/src/attach.rs:622-644 | the exception is real: a forced run that crashes after its first write of other bytes leaves a mismatch |
| AttachHistory.HistoryKeepsOrigin | bins/ferrodruid-migrate/src/attach.rs:499-511 | every replacement begun and not finished belongs to an artifact some run staged, for the segment its row stands for |
| AttachHistory.ForcedRerunConverges | bins/ferrodruid-migrate/src/attach.rs:51-59 | after any history a failure-free forced run over those artifacts leaves the store consistent |
| AttachHistory.RowsAreOnlyRewrittenForTheirSegment | bins/ferrodruid-migrate/src/attach.rs:467-497 | whatever is written under an id that a row holds is for the segment of that row |
| AttachHistory.IdIsBoundForLife | bins/ferrodruid-migrate/src/attach.rs:447-497 | after a row is committed under an id, every later write under it, in any run, is for the same structured identity |
| AttachHistory.HistoryStaysValidated | bins/ferrodruid-migrate/src/attach.rs:369-455 | under the tool's own identification no history brings a row or a blob of an unvalidated identity into the store |
| AttachReplay.DryRunForetellsRealRun | bins/ferrodruid-migrate/src/attach.rs:271-343 | without failures the dry run reports artifact by artifact what the real run does and changes nothing |
| AttachReplay.UnconfirmedRowIsFound | bins/ferrodruid-migrate/src/attach.rs:680-706 | a row that was written although its write reported failure is found by any later run, which skips the artifact |
| AttachReplay.HandledIsSettled | bins/ferrodruid-migrate/src/attach.rs:475-497 | an artifact once handled is skipped, refused again or failed again by a later run without force |
| AttachReplay.SecondRunAttachesNothing | bins/ferrodruid-migrate/src/attach.rs:475-497 | a second run without force writes nothing, skips what is attached and repeats every collision refusal |
| DeepStorage.Directory.CopyFile | crates/ferrodruid-deep-storage/src/lib.rs:627-643 | a link or directory under a file's name is replaced and never written through |
| DeepStorage.Directory.Upload | crates/ferrodruid-deep-storage/src/lib.rs:701-796 | copying file by file and then pruning ends with exactly the staged files from any prior content, and nothing old goes before every file is complete |
| DeepStorage.UploadIsPublished | crates/ferrodruid-deep-storage/src/lib.rs:701-796 | the contents a finished upload goes through are the durable writes of a successful one |
| DeepStorage.BrokenUploadIsPublished | crates/ferrodruid-deep-storage/src/lib.rs:701-796 | those of an upload that stops anywhere are the durable writes of a failed one, and begin those of a finished one |
| Importer.Importer.Upload | bins/ferrodruid-migrate/src/attach.rs:622-644 | the blob goes through the contents of the upload and, when it works, ends with the staged files |
| Importer.Importer.Persist | bins/ferrodruid-migrate/src/attach.rs:622-712 | upload first, row only after a complete upload, with the status of each failure, a lost confirmation among them |
| Importer.Importer.AttachOne | bins/ferrodruid-migrate/src/attach.rs:369-713 | one artifact: status, durable writes and new state are those of the specification |
| Importer.Importer.Run | bins/ferrodruid-migrate/src/attach.rs:311-343 | a whole run: reports, durable writes and final state are those of the specification |
| ExpressionGrammar.SentenceParses | crates/ferrodruid-aggregator/src/postagg_expr.rs:113-139 | a well-formed sentence parses to the tree it denotes, or is refused exactly for its length or its nesting |
| ExpressionGrammar.ParserIsExact | crates/ferrodruid-aggregator/src/postagg_expr.rs:197-371 | the parser accepts exactly the sentences within its limits, each as the tree it denotes |
| ExpressionGrammar.SentencesAreUnambiguous | crates/ferrodruid-aggregator/src/postagg_expr.rs:197-371 | two sentences with one spelling denote one tree |
| ExpressionGrammar.PrecedenceAndAssociativity | crates/ferrodruid-aggregator/src/postagg_expr.rs:197-233 | in a chain of any number of operands operators of one level associate to the left and `*` and `/` bind tighter, and it is refused exactly for its length or the nesting of an operand |
| ExpressionGrammar.PrintThenParse | crates/ferrodruid-aggregator/src/postagg_expr.rs:113-139 | printing a tree and parsing the text gives the tree back, unless a limit is exceeded |
| ExpressionTexts.RoundCalls | crates/ferrodruid-aggregator/src/postagg_expr.rs:345-369 | `round(` with any number of well-formed arguments is a call with one or two, and a wrong arity otherwise |
| ExpressionTexts.AbsCalls | crates/ferrodruid-aggregator/src/postagg_expr.rs:345-369 | `abs(` takes exactly one argument |
| ExpressionTexts.FloorCalls | crates/ferrodruid-aggregator/src/postagg_expr.rs:345-369 | `floor(` takes exactly one argument |
| ExpressionTexts.CeilCalls | crates/ferrodruid-aggregator/src/postagg_expr.rs:345-369 | `ceil(` takes exactly one argument |
| ExpressionTexts.OtherNamesAreNoFunctions | crates/ferrodruid-aggregator/src/postagg_expr.rs:345-351 | any other name before a parenthesis is an unsupported function |
| ExpressionTexts.OperatorsByCharacter | crates/ferrodruid-aggregator/src/postagg_expr.rs:197-233 | what `+`, `-`, `*` and `/` stand for between two operands |
| ExpressionTexts.NamesAreFields | crates/ferrodruid-aggregator/src/postagg_expr.rs:333-342 | a text is read as the field it spells exactly when it is letters, underscores, dollar signs and, but for the first, digits |
| ExpressionTexts.NumbersAreLiterals | crates/ferrodruid-aggregator/src/postagg_expr.rs:291-322 | a text is read as the literal it spells exactly when it is digits, with or without a fraction and an exponent |
| ExpressionTexts.QuotedNames | crates/ferrodruid-aggregator/src/postagg_expr.rs:276-289 | between quotes any name stands as it is, but not the empty one |
| ExpressionTexts.OpenQuotes | crates/ferrodruid-aggregator/src/postagg_expr.rs:276-289 | a quote without its partner is refused as such |
| ExpressionTexts.OneCharacter | crates/ferrodruid-aggregator/src/postagg_expr.rs:253-272 | what every single character is on its own |
| ExpressionTexts.NestingLimit | crates/ferrodruid-aggregator/src/postagg_expr.rs:113-139 | a digit may stand in 63 pairs of parentheses or behind 126 signs and in no more |
| RecursiveDescent.Parser.ParseAdditiveExpr | crates/ferrodruid-aggregator/src/postagg_expr.rs:197-202 | the guarded entry does what the grammar function says and restores the depth |
| RecursiveDescent.Parser.ParseAdditiveInner | crates/ferrodruid-aggregator/src/postagg_expr.rs:204-217 | the loop over `+` and `-` does what the grammar function says |
| RecursiveDescent.Parser.ParseMultiplicativeExpr | crates/ferrodruid-aggregator/src/postagg_expr.rs:220-233 | the loop over `*` and `/` does what the grammar function says and consumes input |
| RecursiveDescent.Parser.ParseUnaryExpr | crates/ferrodruid-aggregator/src/postagg_expr.rs:240-249 | unary minus, guarded by the depth |
| RecursiveDescent.Parser.ParsePrimaryExpr | crates/ferrodruid-aggregator/src/postagg_expr.rs:253-272 | groups, quoted names, numbers, names and calls, each by its first character |
| RecursiveDescent.Parser.ParseQuotedIdentifier | crates/ferrodruid-aggregator/src/postagg_expr.rs:276-289 | a quoted name up to its closing quote, not empty |
| RecursiveDescent.Parser.ParseNumberLiteral | crates/ferrodruid-aggregator/src/postagg_expr.rs:292-322 | a literal as its text, with its fraction and exponent rules |
| RecursiveDescent.Parser.ParseBareIdentifierOrCall | crates/ferrodruid-aggregator/src/postagg_expr.rs:333-370 | a field, or a call of a known function |
| RecursiveDescent.Parser.ParseArguments | crates/ferrodruid-aggregator/src/postagg_expr.rs:333-370 | the comma loop over arguments does what the grammar function says |
| RecursiveDescent.Parse | crates/ferrodruid-aggregator/src/postagg_expr.rs:113-139 | the imperative parser computes what the functional one does, on every input |
| DecimalRounding.RoundDigitsInPlace | crates/ferrodruid-aggregator/src/postagg_expr.rs:434-494 | the in-place cut, zeroing and carry loop computes the cut, incremented and padded digits |
| DecimalRounding.PropagateCarry | crates/ferrodruid-aggregator/src/postagg_expr.rs:434-494 | the carry loop adds one to the digits before the cut and returns the carry out of the front |
| DecimalRounding.RoundAtIsHalfUp | crates/ferrodruid-aggregator/src/postagg_expr.rs:434-494 | cutting and carrying is half-up rounding to a multiple of the cut digit's unit |
| DecimalRounding.HalfUpUnique | crates/ferrodruid-aggregator/src/postagg_expr.rs:434-494 | there is only one half-up rounding of a value |
| DecimalRounding.RoundHalfUpInPlace | crates/ferrodruid-aggregator/src/postagg_expr.rs:434-494 | the method handles a cut before, inside and behind the digits as specified |
| DecimalRounding.RoundsHalfUp | crates/ferrodruid-aggregator/src/postagg_expr.rs:434-494 | for every number and digit count the result is the multiple of 10^-digits nearest to the magnitude, ties away from zero |
| DecimalRounding.RoundingKeepsSign | crates/ferrodruid-aggregator/src/postagg_expr.rs:434-530 | the sign survives unless the result is zero |
| DecimalRounding.RoundingTwice | crates/ferrodruid-aggregator/src/postagg_expr.rs:434-530 | rounding again at the same digits changes nothing |
| DecimalRounding.ReconstructKeepsValue | crates/ferrodruid-aggregator/src/postagg_expr.rs:497-530 | spelling digits out with the point before, among or behind them keeps their value |
| Scan.Warnings.Push | bins/ferrodruid-migrate/src/assess.rs:618-624 | keeps the first hundred warnings and counts the rest |
| Scan.Warnings.IntoVec | bins/ferrodruid-migrate/src/assess.rs:626-632 | reports the kept warnings and how many were elided |
| Scan.ReadEntries | bins/ferrodruid-migrate/src/assess.rs:488-535 | keeps files and directories, warns of everything else, stops past the entry limit, and notices `meta.smoosh` |
| Scan.CountedIffReached | bins/ferrodruid-migrate/src/assess.rs:435-451 | what a walk without limits would collect is exactly what can be reached through readable directories that are not symlinks |
| Scan.DirCountsOnce | bins/ferrodruid-migrate/src/assess.rs:435-451 | no artifact is collected twice when no directory lists a name twice |
| Scan.CountOfSort | bins/ferrodruid-migrate/src/assess.rs:535-535 | the order of entries does not change what they hold |
| Scan.MetaSmooshSpelled | bins/ferrodruid-migrate/src/assess.rs:529-531 | the marker of a smoosh directory is a regular file of that very name |
| ScanWalk.VisitEntries | bins/ferrodruid-migrate/src/assess.rs:551-586 | collects zips, queues directories, gives up deep or excess ones, and stops at the segment limit, every artifact accounted for |
| ScanWalk.VisitDir | bins/ferrodruid-migrate/src/assess.rs:488-586 | reading a directory, its own artifact and its entries keep the books balanced |
| ScanWalk.VisitTop | bins/ferrodruid-migrate/src/assess.rs:456-587 | taking the top directory off the stack, readable or not, is one step of the walk as a function |
| ScanWalk.DrainStack | bins/ferrodruid-migrate/src/assess.rs:456-587 | the walk ends on every tree, and its end state accounts for the whole tree or names the limit it met |
| ScanWalk.ScanTree | bins/ferrodruid-migrate/src/assess.rs:452-597 | fails exactly when the root cannot be read, and otherwise gives a sorted, sound, accounted-for result, that of the walk as a function of the tree |
| ScanSteps.ListingOrderDoesNotMatter | bins/ferrodruid-migrate/src/assess.rs:452-597 | trees with the same files and directories, listed in any order within the entry limit, end with the same artifacts and flags, truncated or not |
| ScanSteps.CutListingsDependOnOrder | bins/ferrodruid-migrate/src/assess.rs:496-504 | one entry over the limit, an artifact is found or not depending on where it is listed |
| ScanSteps.WalkIsDepthFirst | bins/ferrodruid-migrate/src/assess.rs:455-587 | a walk that is not aborted finds what a recursive depth-first listing holds, all of it or, truncated, its first part |
| ScanWalk.CompleteScanIsExact | bins/ferrodruid-migrate/src/assess.rs:452-597 | a result neither truncated nor aborted is exactly the reachable artifacts, each once, in path order |
| ScanWalk.TruncatedScanLeavesOneOut | bins/ferrodruid-migrate/src/assess.rs:540-586 | a truncated result holds exactly the limit, all reachable, and a reachable one is missing |
| ScanWalk.FoundIsReached | bins/ferrodruid-migrate/src/assess.rs:452-597 | nothing unreachable is ever reported |
| ScanWalk.FlagsAreExact | bins/ferrodruid-migrate/src/assess.rs:416-433 | unless truncated, aborted means exactly that a limit is exceeded; within the limits, truncated means exactly that there are more artifacts than asked for |
| ScanWalk.SilentScanIsComplete | bins/ferrodruid-migrate/src/assess.rs:416-433 | a result without flags and warnings is complete, and the tree held nothing to warn of |
| Paths.PathOrder | bins/ferrodruid-migrate/src/s3_source.rs:351-354 | the component-wise order is a total order |
| Paths.PathOrderSpelled | bins/ferrodruid-migrate/src/s3_source.rs:351-354 | paths are ordered component by component, components by character code, and a prefix comes first |
| Paths.BetweenSiblings | bins/ferrodruid-migrate/src/s3_source.rs:351-354 | what sorts between two entries of a directory lies under that directory |
| Paths.SortSorts | bins/ferrodruid-migrate/src/s3_source.rs:351-354 | sorting yields the same elements in order |
| Paths.JoinSplit | bins/ferrodruid-migrate/src/s3_source.rs:338-338 | splitting and joining gives the string back, and no part holds a separator |
| DownloadPlan.PlanDownloads | bins/ferrodruid-migrate/src/s3_source.rs:296-391 | refuses exactly listings of over a million keys and those with a key outside the prefix or with a bad component, with the first bad key's error; otherwise plans the ordered wanted keys up to the first full directory boundary, all of them without a limit, and counts the others |
| DownloadPlan.CutAfterSegments | bins/ferrodruid-migrate/src/s3_source.rs:356-385 | the grouping loop stops at the first run boundary at which enough artifact runs are planned, and only there |
| DownloadPlan.EntriesMirrorTheirKeys | bins/ferrodruid-migrate/src/s3_source.rs:249-261 | every entry's source indexes the key whose path it mirrors, and no key is planned twice |
| DownloadPlan.OnlyLaterKeysAreLeftOut | bins/ferrodruid-migrate/src/s3_source.rs:266-275 | a kept key is planned, or the plan is truncated and the key sorts after all of it |
| DownloadPlan.FateSpelled | bins/ferrodruid-migrate/src/s3_source.rs:312-349 | which keys are refused, with which error, and which of the others are wanted, on the characters of the key |
| DownloadPlan.UnlimitedPlan | bins/ferrodruid-migrate/src/s3_source.rs:312-349 | without a limit the sources in a plan are exactly the keys that are too short to name a data source or name the one asked for |
| DownloadPlan.PlanIsInPathOrder | bins/ferrodruid-migrate/src/s3_source.rs:351-354 | entries come in path order, and entries of one path in the order of the listing |
| DownloadPlan.OnlyMarkersCount | bins/ferrodruid-migrate/src/s3_source.rs:356-385 | of two directories a limit of one leaves out the second exactly when the first holds an index.zip or a meta.smoosh |
| DownloadPlan.DirectoriesCanBeSplit | bins/ferrodruid-migrate/src/s3_source.rs:272-274 | a listing of keys, for any names in order, in which a limit of one splits a directory |
| DownloadPlan.PlanSplitsIff | bins/ferrodruid-migrate/src/s3_source.rs:291-295 | a plan for a given limit splits a directory exactly when one straddles the end of the run that completes that many artifact runs |
| DownloadPlan.FlatListingsKeepDirectoriesWhole | bins/ferrodruid-migrate/src/s3_source.rs:291-295 | when no key lies in a strict subdirectory of another key's directory, each directory is planned whole or not at all |
| DirectoryRuns.SegmentBound | bins/ferrodruid-migrate/src/s3_source.rs:356-385 | a plan holds at most the asked number of artifact runs, and a truncated one exactly that many |
| DirectoryRuns.StopIsUnique | bins/ferrodruid-migrate/src/s3_source.rs:356-385 | there is one place to stop |
| DirectoryRuns.LimitSplitsIff | bins/ferrodruid-migrate/src/s3_source.rs:356-385 | stopping for a given limit separates keys of one directory exactly when a directory straddles the place where the limit is met |
| DirectoryRuns.DirectoriesAreWholeIff | bins/ferrodruid-migrate/src/s3_source.rs:291-295 | every limit keeps directories whole exactly when none is interrupted at or after an artifact |
| Bloom.BloomFilter.AddValue | crates/ferrodruid-aggregator/src/bloom.rs:111-119 | sets in place exactly the places of a value: its first hash word, and from each to the next its second one, wrapping at 64 bits, modulo m |
| Bloom.BloomFilter.Test | crates/ferrodruid-aggregator/src/bloom.rs:123-137 | finds a value exactly when all its places are set, and nothing in an empty filter |
| Bloom.BloomFilter.MergeIn | crates/ferrodruid-aggregator/src/bloom.rs:144-151 | ORs a filter of the same shape in place and ignores any other |
| Bloom.AddAllOnes | crates/ferrodruid-aggregator/src/bloom.rs:111-119 | adding values sets exactly the union of their probes |
| Bloom.FoundIffPlacesTaken | crates/ferrodruid-aggregator/src/bloom.rs:111-137 | a value is found exactly when each place its hash words walk to is such a place of an added value |
| Bloom.OnesByPosition | crates/ferrodruid-aggregator/src/bloom.rs:111-137 | bit p is bit p modulo 8, from the least significant, of byte p / 8 |
| Bloom.OnesDetermineBits | crates/ferrodruid-aggregator/src/bloom.rs:111-151 | a bit array is determined by its length and its ones |
| Bloom.ShardedEqualsSinglePass | crates/ferrodruid-aggregator/src/bloom.rs:304-317 | for equal m and k any split of the values over filters merged in any tree is bit for bit the single-pass filter |
| Bloom.NoFalseNegatives | crates/ferrodruid-aggregator/src/bloom.rs:123-151 | for equal m and k no value added anywhere is missed afterwards |
| Bloom.DecodeEncode | crates/ferrodruid-aggregator/src/bloom.rs:155-227 | decoding an encoded well-formed filter gives it back |
| Bloom.EncodeDecode | crates/ferrodruid-aggregator/src/bloom.rs:172-227 | every accepted blob is the encoding of a well-formed filter whose probes stay inside the array |
| Bloom.EncodedLayout | crates/ferrodruid-aggregator/src/bloom.rs:155-166 | the blob byte by byte: the magic, version one, k and m with the least significant byte first, and the bits |
| Bloom.DecodesIff | crates/ferrodruid-aggregator/src/bloom.rs:172-227 | which blobs are accepted, in numbers |
| Bloom.FirstDecides | crates/ferrodruid-aggregator/src/bloom.rs:342-360 | for any values on the wire, the first envelope is the result if it is malformed, and otherwise gives the result its shape and its ones, with no others but those of leaves of that shape |
| Bloom.OneShapeLosesNothing | crates/ferrodruid-aggregator/src/bloom.rs:342-360 | when the filters have one shape and no malformed envelope absorbs one, the result has exactly the ones of all of them |
| Bloom.NothingIsLostIff | crates/ferrodruid-aggregator/src/bloom.rs:342-360 | whatever the filters hold, a merge tree loses no value a reader finds in one of them exactly when they have one shape and no malformed envelope comes first in a part of the tree that holds a filter |
| Bloom.MalformedEnvelopeAbsorbs | crates/ferrodruid-aggregator/src/bloom.rs:352-352 | a malformed envelope on the left absorbs a good one |
| Bloom.OtherShapeIsDropped | crates/ferrodruid-aggregator/src/bloom.rs:144-151 | a filter of another shape on the right is dropped, with the values it held |
| Bloom.WireMergeIsSinglePass | crates/ferrodruid-aggregator/src/bloom.rs:342-360 | merging the serialized partials of one query in any tree, results of other kinds among them, is the serialization of the single-pass filter |

## Left out

- HTTP handlers, role launchers, command lines, TLS and report printing: plumbing around the modelled logic.
- Overlord: request payloads and status relaying to clients; a driver panics before it takes the lock, if at all; spawning the driver is one step with the reservation before it, and polls of middleManagers return arbitrary answers.
- Exact counting: how the stand-in keys of a foreign aggregator are spelled from its memory address (any spelling does), the override of the cap that exists for unit suites, and the text of numbers, arrays and objects, which stand for their serialization.
- SHA-256, SipHash, Base64 and JSON text: hashing is a function parameter, Base64 and the JSON text layer are taken as the identity.
- `eval` (`postagg_expr.rs:374-429`) and everything else on `f64`: arithmetic post-aggregators, Bloom sizing in `for_entries`, sums and sketches; rounding works on the decimal digits that the source prints and parses.
- Attach: staging, the v9 reader, zip extraction and the rewrite of `--allow-unreadable-columns` come in as the outcome of a gate with the staged files; parsing of ISO-8601 instants and hashing of file sets are parameters; the theorems over histories hold for any way of identifying artifacts, of which `Identify` is the tool's.
- Attach: deriving an identity from `descriptor.json` or the path layout (`assess.rs:639-725`), and the metadata-database importer that reuses the tail.
- Importer.Importer.Upload: goes through any contents, where `upload_segment` only shows those of `DeepStorage.Directory.Upload`; `UploadIsPublished` and `BrokenUploadIsPublished` relate the two.
- Importer.Importer.AttachOne: staging, the v9 reader and the lenient rewrite of the cited span are one gate outcome that the caller supplies.
- DeepStorage.Directory.Upload: the symlink gates on the directories above, `fsync`, and the contents of subdirectories, which count as one entry that is no regular file.
- Scan and plan: the file system, symlink races and containment checks; a tree is a finite value whose entries come in any order, and names are compared by code point.
- DownloadPlan: the download itself, bucket and URL checks, and the retry policy.
- Error texts: errors are constructors.
- `count.rs`, `minmax.rs`, `grouping.rs`, `filtered.rs`, `first_last.rs`: would only add easy members, or have no clean specification.
