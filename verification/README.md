# Verification of the stockbot core

A Dafny model of the five parts of the repository that carry real logic, with proofs about them.
`dafny verify dfyconfig.toml` (Dafny 4.11) checks everything; every proof also stays within `--resource-limit 2000000`.

**The obligations ledger.** Rows from filings are reconciled (a fiscal-year table that breaks down a
headline amount), deduplicated, stamped in place with a lifecycle status, projected to a current
snapshot, persisted as events, and rebuilt for any as-of date; valuation spreads the snapshot over
fiscal years and turns it into EPS tiers. Files: `Ledger`, `Lifecycle`, `Snapshot`, `Reconcile`,
`Dedup`, `Persist`, `PersistHistory`, `Replay`, `RoundTrip`, `LedgerTerms`, `Valuation`, `Conservation`, `ValuationCells`,
`ValuationReplay`, `EpsTiers`.
The main results: stamping by groups and mark dates reaches a closed form that neither order nor
repetition changes; after any history of persists, replay gives the live snapshot minus two precisely
named losses, at every date, and with it the same valuation; as the date advances the picture moves one way;
fiscal years conserve what was disclosed; reported tiers are ordered.

**The partition walk.** FINRA refuses a sort unless every partition field is pinned, so "latest N" walks
published partitions in date order under a budget of 12 queries. Files: `FinraPayload`, `FinraWalk`,
`FinraLatest`, `FinraDates`, `FinraExamples`. The main results: coverage predicate and payload builder agree; the walk refines "fetch
everything, sort stably by date, take N", with the exact condition under which it succeeds, and its order is the calendar's.

**The bridge and the gateway.** One thread reads requests, four workers run calls, runs are drained under
a timeout, and calls pass gates that charge a shared budget. Files: `BridgeProtocol`, `BridgeSafety`,
`BridgeTeardown`, `Bridge`, `Budget`, `Gateway`, `GatewayVerdicts`. Events are atomic actions of one thread and traces are arbitrary
interleavings; a timeout is an event that can always happen. The main results hold for every
reachable state.

**Rendering in bytes** (`Render`, `RenderTerms`) and **dividend events** (`Dividends`, `DividendEvents`, `DividendTerms`).

`Text`, `Digits`, `Ordering`, `Rounding` and `Wrappers` hold shared definitions. The files ending in `Terms`, `FinraDates`, `ValuationCells`,
`BridgeTeardown` and `GatewayVerdicts` say in terms of inputs alone what the definitions they use mean. Objects that the code updates in
place are classes whose methods are proved against functions; the theorems are about these functions.

## Where code and documentation differ

The model follows the code. Each difference is a lemma, with the exact condition beside it where there is one.

- A missing or blank type is stored as "other", so replay can merge two snapshot keys (`RoundTrip.MergedTypeIsLost`,
  condition in `RoundTrip.ReplayOfPersisted`).
- The flag backfill runs after deduplication on replay and can flag a row that is live
  (`RoundTrip.BackfillAfterDedupIsLost`, same condition).
- The deduplication key of quantified rows has no agreement key (`Dedup.DedupForgetsAgreement`, condition in
  `Dedup.AgreementsKeptWhenKeysTell`).
- Schedule and payment horizon are stored as one; a schedule that pays nothing then hides the horizon
  (`ValuationReplay.HiddenHorizonIsLost`, condition in `ValuationReplay.ValuationKept`).
- A sort that a default filter would make valid is still walked or refused (`FinraPayload.DefaultPinIsRefused`,
  condition in `FinraPayload.SortSentOnlyWhenPinned`).
- A request with only an end date walks other dates too (`FinraExamples.EndDateWalksOthers`, condition in
  `FinraLatest.EndDateAloneIsNotPinned`), with contradicting filters (`FinraWalk.OtherDateContradicts`) that use up the
  12 queries (`FinraLatest.OtherDatesSpendBudget`); a start date is pinned (`FinraLatest.StartDateIsPinned`).
- A range walk repeats queries and rows (`FinraLatest.RangeReturnsAgain`, condition in `FinraWalk.SameQuestion`).
- A type and layer whose latest filing holds components only has no snapshot row (`Snapshot.KeyIsShown`).
- Exactly 12 partitions with too few rows are an error, not a short answer (`FinraExamples.CompleteAnswerRefused`,
  condition in `FinraLatest.FullBudgetRefusesShort`).
- A short answer may miss rows of failed queries (`FinraExamples.ShortAnswerMisses`, condition in
  `FinraLatest.ShortMissesFailedRows`).
- A queued tool.invoke gets no response at the end of input although the exit is clean
  (`BridgeSafety.QueuedInvokeIsLost`, condition in `BridgeSafety.CleanExitAnswersAll`).
- Lines after an oversized one are dropped without being counted (`Render.FitAccountsForAll`), and "as many complete
  lines as fit" is first come, first served (`Render.GreedyIsNotMost`). It is most for lines in order of size
  (`Render.GreedyIsMostWhenSorted`, one way only); `Render.BestIsSortedGreedy` says what most is for any order.
- A renderer's empty card stays empty (`Render.RenderedFits`).

## Model

| member | source | states |
|---|---|---|
| Lifecycle.MarkDates | app/obligations.py:1897-1908 | the sorted filing dates, repeats included, of the members that carry the asked kind of mark |
| Lifecycle.StampMember | app/obligations.py:1911-1939 | the row keeps every field but its status, which follows termination, missing amount, later marks in that order |
| Lifecycle.StampUnlinked | app/obligations.py:1888-1894 | rows without agreement key are decided by their own mark alone |
| Lifecycle.StampGroup | app/obligations.py:1942-1948 | members of one agreement reach the closed-form status of the group |
| Lifecycle.DatesAreMarks | app/obligations.py:1942-1948 | comparing with the collected dates is the same as asking for a strictly later mark of the agreement |
| Lifecycle.Guarantees | app/obligations.py:1865-1875 | exactly the 8-K rows that are quantified or bare marks, in order, as often as they occur |
| Lifecycle.Groups | app/obligations.py:1878-1885 | one group per agreement key, in order of first rows, each holding its rows in order |
| Lifecycle.StampGroups | app/obligations.py:1951-1957 | stamping group after group gives every row the status the whole ledger implies |
| Lifecycle.ResolveLifecycle | app/obligations.py:2110-2127 | in-place stamping of any list of (possibly shared) rows equals the closed form; only the status of eligible rows changes |
| Lifecycle.GroupDecides | app/obligations.py:1942-1957 | a group holding the eligible rows of an agreement decides as the whole ledger does |
| Lifecycle.StandingByFeatures | app/obligations.py:1911-1939 | a status depends only on the set of (key, filed, event, amount) facts of eligible rows |
| Lifecycle.StampIdempotent | app/obligations.py:2110-2127 | a second stamping changes nothing |
| Lifecycle.StampOrderIndependent | app/obligations.py:2110-2127 | rearranged rows get the same statuses, row by row |
| LedgerTerms.LayerIs | app/obligations.py:1853-1862 | the layer of a row, from its concept, type and source text |
| LedgerTerms.WhoIsStamped | app/obligations.py:1865-1875 | which rows take part: 8-K rows with a positive amount, or with a mark and no amount |
| LedgerTerms.StatusIs | app/obligations.py:1911-1957 | the status of every row from the dates, marks, amounts and agreement keys of the ledger: exactly when it is terminated, unknown, amended or none |
| Snapshot.BestFiled | app/obligations.py:2138-2151 | the latest filing date of every (type, layer) outside 8-K, components included |
| Snapshot.KeepRowDecides | app/obligations.py:2171-2180 | being at the best date is the same as no strictly later row of the type and layer |
| Snapshot.CurrentSnapshot | app/obligations.py:2183-2207 | stamps the ledger and returns references to exactly the kept rows, in order |
| Snapshot.Live8KClosedForm | app/obligations.py:2154-2158 | a quantified non-component 8-K row is current iff it is no termination and no strictly later termination or quantified amendment names its agreement |
| Snapshot.KeyIsShown | app/obligations.py:2138-2180 | a (type, layer) outside 8-K has a snapshot row iff some row filed on its best date is no component |
| Snapshot.BestMayBeComponent | app/obligations.py:2138-2151 | one ledger where it has none |
| LedgerTerms.CurrentIs | app/obligations.py:2154-2180 | which rows are current, for every layer: no later filing of the same type and layer, or a live 8-K status, and no component |
| Reconcile.SumTable | app/obligations.py:1343-1345 | the total and breakdown of the table rows |
| Reconcile.Closest | app/obligations.py:1387-1394 | the first headline of least gap within 10% of the total |
| Reconcile.Attach | app/obligations.py:1368-1384 | table rows become components of the headline, which gets the breakdown unless it has a schedule |
| Reconcile.ReconcileWindow | app/obligations.py:1387-1394 | one window edited in place to its reconciled form |
| Reconcile.ArgMinIsLeast | app/obligations.py:1387-1394 | the chosen headline is the least, the first among equals; none is chosen only if none is close |
| Reconcile.MatchIsClosest | app/obligations.py:1353-1365 | a match is a closest headline within tolerance, and there is one whenever any headline is |
| Reconcile.ReconcileNeverDoubleCounts | app/obligations.py:1397-1406 | a window is unchanged, or all table rows become components and the counted sum drops by exactly the table total |
| Reconcile.ReconcileIdempotent | app/obligations.py:1387-1394 | reconciling again changes nothing |
| LedgerTerms.FiscalTableIs | app/obligations.py:1318-1323 | what a fiscal-year table row is, by its source and year text |
| LedgerTerms.HeadlineIs | app/obligations.py:1336-1350 | what a headline is, and that close means a gap under a tenth of the total |
| LedgerTerms.BreakdownIs | app/obligations.py:1368-1384 | the breakdown lists exactly the table rows, in order, with year and amount |
| LedgerTerms.TotalIsSum | app/obligations.py:1343-1345 | the table total is the sum of the breakdown where no amount is negative |
| Reconcile.LegacyWindows | app/obligations.py:1409-1421 | unflagged note rows grouped by date and note, each once, in order |
| Reconcile.FlagWindow | app/obligations.py:1424-1434 | within one window only table rows change, and only by their flags |
| Reconcile.ApplyLegacyFlags | app/obligations.py:1437-1440 | the in-place backfill equals its row-by-row definition |
| Reconcile.LegacyAddsNothing | app/obligations.py:1437-1440 | over a window that was just reconciled the backfill adds no flag |
| LedgerTerms.WindowIs | app/obligations.py:1409-1421 | which rows a backfill window holds: unflagged, of that date, of that note |
| LedgerTerms.BackfillIs | app/obligations.py:1424-1434 | a row is flagged iff it is an unflagged table row whose window has a closest headline, and takes the type of that headline |
| Dedup.Sink.AddRow | app/obligations.py:2281-2289 | routes a row to its sink, or drops it; first of a key stays |
| Dedup.Dedup | app/obligations.py:2292-2297 | the rows whose key no earlier row has, in order |
| Dedup.DedupKeepsOnePerKey | app/obligations.py:2256-2297 | one row per key, a row for every key, only quantified rows and marks, and a second pass changes nothing |
| Dedup.AgreementsKeptWhenKeysTell | app/obligations.py:2246-2253 | every row is represented by a kept row of its own agreement iff rows that share a key share their agreement |
| Dedup.DedupForgetsAgreement | app/obligations.py:2246-2253 | a ledger where that fails: two live guarantees of different agreements become one |
| LedgerTerms.SameKeyIs | app/obligations.py:2236-2253 | which rows have a key, and exactly when two rows share one |
| Rounding.RoundIs | app/obligations.py:2246-2253 | rounding gives the nearest multiple, the even one on a tie |
| Persist.Build.AddRow | app/obligations.py:2670-2682 | one event with its evidence, or a skip counted by its reason |
| Persist.PersistRows | app/obligations.py:2700-2738 | the stored tables and skip counts after persisting a work list |
| Persist.PersistRerunWritesNothing | app/obligations.py:2685-2697 | persisting the same rows again writes nothing |
| Persist.WriteFresh | app/obligations.py:2685-2697 | new identities are all appended, in order |
| PersistHistory.PersistedTwice | app/obligations.py:2685-2697 | two persists are one persist of both work lists |
| PersistHistory.PersistsAreOne | app/obligations.py:2700-2738 | so is any sequence of persists |
| PersistHistory.WriteOneMore | app/obligations.py:2685-2697 | one more row is appended iff its identity is not stored yet; the first of an identity stays |
| PersistHistory.FirstsAreEnough | app/obligations.py:2685-2697 | only the first persistable row of each identity matters |
| PersistHistory.PartOfPersisted | app/obligations.py:2767-2776 | persisting other tickers leaves a ticker's part of the store alone |
| PersistHistory.HistoryIsKnown | app/obligations.py:2741-2776 | a replay after any history shows what persisting the known rows once would show |
| Persist.GetObligationsAsOf | app/obligations.py:2928-2950 | reading back, backfilling and stamping in place gives the replayed picture and its snapshot |
| LedgerTerms.ReplayedEvents | app/obligations.py:2767-2866 | the replayed rows are the ticker's events filed by then with an amount or a mark, rebuilt, in store order |
| LedgerTerms.ReplayedIff | app/obligations.py:2848-2866 | so a row is replayed iff it is such an event, rebuilt |
| LedgerTerms.UnquantifiedAddsNothing | app/obligations.py:2848-2866 | an event with neither amount nor mark, stored anywhere with its evidence, changes neither rows nor snapshot |
| LedgerTerms.RebuiltIs | app/obligations.py:2813-2845 | every field of a rebuilt row; the first evidence of its event says whether it came from an XBRL fact |
| LedgerTerms.RestoredIs | app/obligations.py:2532-2845 | every field of a row that was stored and rebuilt: only type, schedule, horizon, a non-numeric amount and the status can differ |
| LedgerTerms.VisibleIs | app/obligations.py:2670-2866 | which rows of a ledger a replay shows, by their own fields |
| Replay.ReplaySnapshotIsCurrent | app/obligations.py:2928-2950 | the replayed snapshot is the rows kept by stamping and not flagged by the backfill |
| Replay.ReplayIsFiledBy | app/obligations.py:2767-2776 | replaying as of a date is seeing exactly the rows filed by it |
| Replay.StandingOneWay | app/obligations.py:1911-1939 | more rows move a status only none to amended to unknown; terminated is fixed |
| Replay.WindowIsComplete | app/obligations.py:1409-1421 | a backfill window is complete once its date has come |
| Replay.OneWayReplay | app/obligations.py:2928-2950 | as the date advances rows stay in the picture, statuses move one way, and a row that is not current never is again; for any store |
| RoundTrip.LaterFilingsInvisible | app/obligations.py:2767-2776 | persisting filings after the as-of date leaves the picture as it was |
| RoundTrip.EvidenceFound | app/obligations.py:2757-2764 | each stored row finds its own evidence and no other |
| RoundTrip.ReplayedRows | app/obligations.py:2813-2866 | after any history of persists the rebuilt rows are the visible known rows, each restored, in order |
| RoundTrip.RestoredKeeps | app/obligations.py:2813-2845 | a restored row keeps layer, text, date, component flag and lifecycle facts; a blank type becomes other |
| RoundTrip.SnapshotOfRestored | app/obligations.py:2183-2207 | the snapshot of restored rows is the live one minus the lost rows, with the same statuses |
| RoundTrip.ReplayOfPersisted | app/obligations.py:2700-2950 | after any history, at any date: the replayed snapshot is the live one of the known rows visible by then minus the lost ones, and equal iff none is lost |
| RoundTrip.FullReplay | app/obligations.py:2700-2950 | for a deduplicated, fully filed ledger, stamped or not, persisted first or grown since, the live snapshot comes back iff no snapshot row is lost |
| RoundTrip.MergedTypeIsLost | app/obligations.py:2578-2618 | a missing type is stored as other, so two current rows can merge into one key |
| RoundTrip.BackfillAfterDedupIsLost | app/obligations.py:1437-1440 | a live table row can be flagged on replay, after deduplication dropped its twin |
| RoundTrip.TwinTableExists | app/obligations.py:1318-1324 | such rows exist |
| Valuation.Impact.AddFyAmount | app/valuation.py:136-144 | one cell grows by the amount; a blank label is ignored |
| Valuation.Impact.Record | app/valuation.py:207-212 | every cell and bucket total grows by what its label receives |
| Valuation.RecordRow | app/valuation.py:346-363 | a row adds exactly its share to every cell |
| Valuation.ObligationAnnualImpact | app/valuation.py:312-374 | every fiscal-year, flat and annual cell is the sum over rows that defines it, before rounding |
| ValuationCells.FrontLoadedImpact | app/valuation.py:248-294 | the impact of one front-loaded row, cell by cell: the remainder under its label, equal parts of the rest in each year that follows, nothing elsewhere |
| ValuationCells.TailYearsApart | app/valuation.py:289-294 | a label that is a year and no further digit is none of the years that follow |
| ValuationCells.ScheduledImpact | app/valuation.py:207-245 | the impact of one scheduled row: each entry under its own year, nothing elsewhere |
| ValuationCells.UndatedImpact | app/valuation.py:312-374 | the impact of one row without years: its annual amount, flat, in its bucket |
| ValuationCells.CellsAdd | app/valuation.py:312-374 | the impact of two ledgers together is the sum of both, cell by cell |
| ValuationCells.TreatmentIs | app/valuation.py:192-204 | exactly which rows are treated how, and which are not counted at all |
| ValuationCells.AnnualIs | app/valuation.py:153-189 | the annual amount times the years it is spread over is what the row discloses, rule by rule |
| Conservation.TailKept | app/valuation.py:269-294 | the years after the remainder receive exactly the tail, or nothing |
| Conservation.RowConserved | app/valuation.py:215-266 | placed plus unplaced is what a row discloses |
| Conservation.ImpactConserves | app/valuation.py:312-374 | fiscal years plus the unplaced remainder equal the disclosed amounts; with every amount labelled the years alone do |
| Conservation.CellsNonNegative | app/valuation.py:312-374 | non-negative rows give non-negative cells |
| ValuationReplay.RowRestored | app/valuation.py:153-182 | placements and annual amount survive the merged stored schedule |
| ValuationReplay.CellsRestored | app/valuation.py:312-374 | all cells of a restored ledger equal the live ones |
| ValuationReplay.ReplayedValuation | app/valuation.py:312-374 | any history, replayed at any date and valued: the same cells as the live snapshot, if no snapshot row is lost and own schedules pay |
| ValuationReplay.ValuationKept | app/obligations.py:2532-2552 | which filed non-negative rows keep their valuation when schedule and horizon are stored as one: the own schedule is empty or pays, the row is not valued, or its horizon has nothing to pay |
| ValuationReplay.HiddenHorizonIsLost | app/obligations.py:2532-2552 | a row whose valuation is lost |
| EpsTiers.FyPerShare | app/valuation.py:791-801 | rounded fiscal-year plus flat amount over billions of shares; None without shares or year |
| EpsTiers.SharesBearAll | app/valuation.py:791-801 | the drag per share times the shares is the rounded fiscal-year plus flat amount |
| EpsTiers.Line.ApplyContractualDrag | app/valuation.py:752-763 | a non-zero drag sets drag, earnings and price-earnings fields, another leaves the line alone |
| EpsTiers.Line.ApplyContingentDrag | app/valuation.py:771-782 | as above, after both drags |
| EpsTiers.EpsLine | app/valuation.py:735-749 | whichever fields are set, the line reports the estimate less both drags, rounded once, with every drag, earnings and price-earnings field as stated |
| EpsTiers.PeIs | app/valuation.py:752-782 | the price-earnings figure after drags: none without price or earnings, earnings below a cent count as one |
| EpsTiers.NetIs | app/valuation.py:829-893 | what each tier leaves of an estimate, to the cent, with missing drags as nothing |
| EpsTiers.CurrentFyEps | app/valuation.py:829-863 | what each of the five tiers reports |
| EpsTiers.NextFyEps | app/valuation.py:866-893 | what each of the four tiers reports |
| EpsTiers.TiersOrdered | app/valuation.py:829-893 | worst case <= with defaults <= scenario <= adjusted <= consensus |
| EpsTiers.DragsRaisePe | app/valuation.py:752-782 | with a price and at least a cent of estimate, drags that leave earnings only raise the price-earnings figure |
| EpsTiers.FyDrags | app/valuation.py:804-813 | the four drags are those of the ledger's sums, non-negative for non-negative rows |
| EpsTiers.CurrentTiers | app/valuation.py:829-863 | from ledger to reported values: all tiers of the current year in order for non-negative rows |
| EpsTiers.NextTiers | app/valuation.py:866-893 | the same for the next year |
| FinraPayload.PayloadFilterRows | app/finra_client.py:2812-2829 | all caller filters normalised in order, or the first error |
| FinraPayload.FilterRowsMean | app/finra_client.py:2797-2829 | all filters are accepted, with these fields, values and operators, iff each is good; otherwise the error is that of the first bad one |
| FinraPayload.FilterErrors | app/finra_client.py:2797-2829 | which error a filter gives |
| FinraPayload.BuildPayload | app/finra_client.py:2898-2923 | the payload or error, part by part |
| FinraPayload.PayloadBuiltIff | app/finra_client.py:2832-2923 | a request has a payload iff its filters are good, its ticker has a symbol field and its dates a date field |
| FinraPayload.BuildErrors | app/finra_client.py:2832-2895 | which error a request with good filters gives |
| FinraPayload.PayloadCarries | app/finra_client.py:2898-2923 | limit, range and, condition by condition, what a built payload carries |
| FinraPayload.PayloadPinsCoverage | app/finra_client.py:1339-1354 | the built payload has EQUAL on exactly what the coverage predicate says plus default filters in force |
| FinraPayload.SortSentOnlyWhenPinned | app/finra_client.py:1239-1271 | sortFields reaches a partitioned dataset only with EQUAL on every partition field; the converse fails exactly when a default filter alone pins one |
| FinraPayload.DefaultPinIsRefused | app/finra_client.py:2846-2853 | a request where it fails |
| FinraPayload.DatePartitionIs | app/finra_client.py:2392-2406 | the partition field that orders by date: the date field, or the one mapped for the weekly summaries |
| FinraPayload.WalkedIff | app/finra_client.py:1239-1271 | a sort is walked iff it is one on the date field, some partition field is not pinned, and the partitions can be narrowed |
| FinraPayload.SortRefused | app/finra_client.py:1192-1236 | when a sort is sent as it is, and when and how it is refused |
| FinraWalk.Parsed | app/finra_client.py:2366-2389 | usable tuples, each once |
| FinraWalk.ParsedAre | app/finra_client.py:2359-2389 | exactly the full lists without a blank, and single values for a single field |
| FinraWalk.FiltersPin | app/finra_client.py:1546-1553 | exactly the partition fields with an EQUAL filter are pinned, each to its last |
| FinraWalk.ParsePartitions | app/finra_client.py:2366-2389 | the loop yields exactly these |
| FinraWalk.OrderedPartitionTuples | app/finra_client.py:2409-2446 | matching tuples in stable date order |
| FinraWalk.WalkPayloadPins | app/finra_client.py:1389-1414 | walked payloads carry no sortFields and pin every partition field, but for the date field of a true range |
| FinraLatest.EndDateAloneIsNotPinned | app/finra_client.py:1556-1572 | under an end date alone, every walked tuple has that date iff every published tuple that fits the filters has it |
| FinraExamples.EndDateWalksOthers | app/finra_client.py:1556-1572 | a request where another date is walked |
| FinraWalk.OtherDateContradicts | app/finra_client.py:1389-1414 | such a tuple is asked with two contradicting EQUAL rows |
| FinraLatest.OtherDatesSpendBudget | app/finra_client.py:1435-1494 | when the first 12 tuples are of other dates the request fails, whatever its own date holds |
| FinraLatest.StartDateIsPinned | app/finra_client.py:1556-1572 | a single start date is pinned: every walked tuple has it |
| FinraWalk.SameQuestion | app/finra_client.py:1389-1414 | two valid queries are the same iff their tuples agree on every partition field but the date of a true range, and as many rows are missing |
| FinraWalk.RangeWalkRepeats | app/finra_client.py:1402-1404 | in a true range, partitions differing in date only get the same query, valid or not |
| FinraLatest.NoQueryTwice | app/finra_client.py:1435-1474 | outside true ranges no two queries of a walk have the same conditions |
| FinraLatest.RangeReturnsAgain | app/finra_client.py:1402-1404 | in a true range, partitions differing in date only return the same rows once each |
| FinraWalk.WalkPartitions | app/finra_client.py:1435-1474 | at most 12 queries, those of the first tuples in order, never past the limit, until limit, budget or end; failures noted |
| FinraWalk.OutcomeErrors | app/finra_client.py:1477-1500 | which error a walk without an answer gives |
| FinraLatest.NoTupleTwice | app/finra_client.py:1369-1386 | the walk visits distinct published tuples that fit the pins |
| FinraLatest.CollectIsTake | app/finra_client.py:1435-1474 | the gathered rows are the first N of the walked partitions |
| FinraLatest.OrderedBlocks | app/finra_client.py:2409-2446 | partitions in date order, one after another, are all rows sorted by date, stably |
| FinraLatest.DatapointsViaPartitions | app/finra_client.py:1503-1543 | a non-range answer is the first N of everything shown, sorted; it succeeds exactly when rows exist and the budget reaches; short says whether there were fewer; and for any request and service, a normal return filled the limit or asked every tuple |
| FinraLatest.NothingNewerLeft | app/finra_client.py:1503-1543 | returned rows and rows left behind are all rows shown, and none left behind precedes a returned one |
| FinraDates.LatestAreLatest | app/finra_client.py:2409-2446 | on the calendar: of a descending answer every returned day is no earlier than any day left behind, of an ascending one no later |
| FinraDates.AnswerInDayOrder | app/finra_client.py:2409-2446 | and the returned rows come in that order |
| FinraDates.DatesRead | app/finra_client.py:1641-1649 | which values are dates, and which day each of them is |
| FinraDates.IsoOrder | app/finra_client.py:2432-2446 | text order of ISO days is the order of year, month and day as numbers |
| FinraDates.RangeWalksItsDays | app/finra_client.py:1364-1386 | a true range of ISO days walks exactly the fitting tuples whose day lies in it |
| FinraLatest.FullBudgetRefusesShort | app/finra_client.py:1473-1494 | with exactly 12 tuples the request fails iff the answer would be short, though all was seen |
| FinraExamples.CompleteAnswerRefused | app/finra_client.py:1473-1494 | a request that fails so |
| FinraLatest.ShortMissesFailedRows | app/finra_client.py:1469-1471 | a short answer holds every held row iff each failed partition holds nothing |
| FinraExamples.ShortAnswerMisses | app/finra_client.py:1469-1471 | a short answer that misses a row |
| BridgeProtocol.StepKeepsInv | scripts/pi_bridge.py:127-159 | every event of the reading thread and of any worker keeps the invariant |
| BridgeProtocol.InvAlways | scripts/pi_bridge.py:1376-1391 | so it holds after every trace |
| BridgeSafety.ClosesAfterItsCalls | scripts/pi_bridge.py:501-543 | on the normal path no call of the run is queued or running when its recorder closes |
| BridgeSafety.EndedRunStaysEnded | scripts/pi_bridge.py:527-543 | after that the calls stay over and every tool_call of the run is refused until agent_start |
| BridgeTeardown.EndingForgets | scripts/pi_bridge.py:417-510 | a run being ended, by any path, goes on being ended until it has neither session nor recorder; no request is read meanwhile |
| BridgeTeardown.EndedRunIsRefused | scripts/pi_bridge.py:711-726 | after abort_run or any agent_end, over any trace without agent_start: no tool_call of the run is accepted, and once idle the run has no session |
| BridgeTeardown.DrainLeadsOn | scripts/pi_bridge.py:527-543 | what a finished wait leads to, for every kind of drain |
| BridgeTeardown.TimeoutLeadsOn | scripts/pi_bridge.py:527-543 | what a timed-out drain leads to: one more drain for a completing run, else a failed close |
| BridgeTeardown.NormalOnlyFromNormalEnd | scripts/pi_bridge.py:527-543 | only an agent_end without failure, drained without timeout, closes normally |
| BridgeTeardown.AcceptedIff | scripts/pi_bridge.py:237-255 | a tool_call is accepted iff it is well formed and its run has a session, which agent_start gives |
| BridgeTeardown.FourWorkers | scripts/pi_bridge.py:99 | never more than four calls hold a worker; one starts iff it is the oldest queued and fewer than four are busy |
| BridgeSafety.RefusedUntilRestart | scripts/pi_bridge.py:237-255 | without a session every tool_call of the run is refused, over any trace without its agent_start |
| BridgeSafety.CallsGoForward | scripts/pi_bridge.py:153-159 | calls only go forward: a refused one is never submitted, only a queued one is cancelled |
| BridgeSafety.OneResponse | scripts/pi_bridge.py:354-387 | at most one response; exactly one once finished or refused; none if cancelled |
| BridgeSafety.OnlyTimeoutsCancel | scripts/pi_bridge.py:153-159 | without a timed-out drain or shutdown no call is cancelled |
| BridgeSafety.InflightCoversUnfinished | scripts/pi_bridge.py:127-140 | every unfinished tracked call is in the map, which holds no empty set |
| BridgeSafety.QuietMapIsEmpty | scripts/pi_bridge.py:133-140 | once all callbacks have run the map is empty |
| BridgeSafety.CleanExitLosesNoToolCall | scripts/pi_bridge.py:1376-1391 | main returns true only if every tool_call was answered or cancelled by an earlier drain of its run |
| BridgeSafety.ShutdownDropsQueued | scripts/pi_bridge.py:1376-1391 | shutdown drops exactly the queued requests, and these are invokes |
| BridgeSafety.DroppedForGood | scripts/pi_bridge.py:1376-1391 | a dropped request never gets a response, over any later trace |
| BridgeSafety.CleanExitAnswersAll | scripts/pi_bridge.py:1275-1277 | a clean end of input drops nothing iff no invoke is queued then |
| BridgeSafety.QueuedInvokeIsLost | scripts/pi_bridge.py:1275-1277 | a trace where one is lost while main returns true |
| BridgeSafety.NeverStuck | scripts/pi_bridge.py:153-159 | the reading thread can always go on until it exits |
| Bridge.Bridge.HandleToolCall | scripts/pi_bridge.py:1250-1260 | validate, then submit or refuse |
| Bridge.Bridge.Track | scripts/pi_bridge.py:127-130 | the future enters the set of its run |
| Bridge.Bridge.AddDoneCallback | scripts/pi_bridge.py:127-130 | a callback on a done future is due at once |
| Bridge.Bridge.Untrack | scripts/pi_bridge.py:133-140 | the future leaves; an emptied run leaves the map |
| Bridge.Bridge.GatherFutures | scripts/pi_bridge.py:148-150 | all tracked futures |
| Bridge.Bridge.AgentStart | scripts/pi_bridge.py:665-670 | the run gets a session |
| Bridge.Bridge.AgentEnd | scripts/pi_bridge.py:527-543 | the drain waits for the run's tracked futures |
| Bridge.Bridge.AtEndOfInput | scripts/pi_bridge.py:1376-1391 | the last drain waits for all tracked futures |
| Bridge.Bridge.Waited | scripts/pi_bridge.py:153-159 | what is not done after the wait is cancelled next |
| Bridge.Bridge.CancelFuture | scripts/pi_bridge.py:157-158 | only a queued call is cancelled |
| Bridge.Bridge.CloseRecorder | scripts/pi_bridge.py:501-507 | on the normal path no call of the run is queued or running any more |
| Bridge.Bridge.EvictRun | scripts/pi_bridge.py:501-510 | session and recorder of the run go |
| Bridge.Bridge.TakeWork | scripts/pi_bridge.py:99 | a free one of four workers takes the oldest queued call; none exactly when all are busy or nothing is queued |
| Bridge.Bridge.ShutdownExecutor | scripts/pi_bridge.py:1388-1391 | queued calls are cancelled; a clean exit has answered every tool_call or drained it earlier |
| Bridge.Bridge.WriteResponse | scripts/pi_bridge.py:354-387 | the worker writes its one response |
| Bridge.Bridge.CompleteFuture | scripts/pi_bridge.py:127-130 | the future is done, and an attached callback is due |
| Bridge.Session.Stage | scripts/pi_bridge.py:307-318 | a call captures the pair that is active after its own ids |
| Bridge.PairsAreNeverMixed | scripts/pi_bridge.py:307-318 | a captured pair was given whole by one call; a call with its own session id gets its own pair |
| Budget.ExecutionBudget.ReserveToolCall | app/runtime.py:54-63 | granted iff runtime is left and a slot is free; counts exactly grants; maxima hold |
| Budget.ExecutionBudget.ReserveSearchCall | app/runtime.py:65-74 | the same for searches |
| Budget.ExecutionBudget.AddEvidenceTokens | app/runtime.py:76-82 | all tokens or none, never past the maximum |
| Gateway.UnwrapCallTool | app/pi_gateway.py:430-476 | exactly when a wrapper has a target, which is a known tool outside the forbidden set; else which errors |
| GatewayVerdicts.UnwrapGoesOn | app/pi_gateway.py:1187-1207 | a wrapper's call goes on as its target with its own arguments, or fails with the unwrap's error |
| GatewayVerdicts.RefusalFails | app/pi_gateway.py:1253-1381 | a refused verdict of any gate fails the call, with its own error |
| GatewayVerdicts.NoRoomFails | app/pi_gateway.py:725-732 | a slot is refused exactly by the clock or its own pool, a bill exactly by the evidence left |
| GatewayVerdicts.FailedForGood | app/pi_gateway.py:1253-1328 | a failed call stays exactly as it is, over any trace: it is not run, billed or returned any more |
| GatewayVerdicts.RunWasAllowed | app/pi_gateway.py:1222-1328 | a handler has run only if permission, dispatch, reservation and authorization came before, in this order, all granted |
| GatewayVerdicts.ReturnPassedEveryGate | app/pi_gateway.py:1273-1381 | a returned call passed every gate in order, and was charged exactly what was scanned |
| Gateway.StepKeepsInv | app/pi_gateway.py:1273-1381 | every gate of every call keeps the invariant |
| Gateway.InvAlways | app/pi_gateway.py:1273-1381 | over any interleaving |
| Gateway.CountersAreGrants | app/runtime.py:25-82 | counters are the granted slots, evidence what calls were billed, and no maximum is passed |
| Gateway.RunsAreCovered | app/pi_gateway.py:1222-1270 | a handler runs at most once per call, under exactly one slot of the right pool |
| Gateway.WrapperTakesNoSlot | app/pi_gateway.py:1174-1207 | call_tool takes no slot itself, and is unwrapped at most once because its target may not be call_tool |
| Gateway.EvidenceIsSuccesses | app/pi_gateway.py:1134-1157 | returned successes were billed; the counter equals them unless a call stands or raised between billing and return |
| Gateway.UnlimitedSearch | app/pi_gateway.py:304-309 | after any trace without a search maximum, a search is refused its slot by the clock only |
| Gateway.Session.ReserveRunBudget | app/pi_gateway.py:725-732 | one slot per call, of the pool of its tool, unless one was persisted |
| Gateway.Session.BillEvidence | app/pi_gateway.py:1010-1025 | labels by what Pi sees, and all-or-nothing billing |
| Render.LongestIsLongest | app/tool_render.py:1650-1656 | a prefix fits iff it is no longer than the longest |
| Render.TruncateBytes | app/tool_render.py:1643-1658 | binary search finds the longest whole-character prefix, trimmed and marked |
| Render.TruncatedFits | app/tool_render.py:1643-1658 | the result is within budget for all text and any budget; text that fits is unchanged |
| RenderTerms.CharSizeIsEncoding | app/tool_render.py:1650-1656 | the size of a character is the length of its UTF-8 encoding, which can be read back |
| RenderTerms.TruncatedIs | app/tool_render.py:1643-1658 | a text that does not fit becomes its longest fitting prefix, without trailing space, and the marker; or the marker's first characters |
| Render.FitLines | app/tool_render.py:1661-1676 | kept lines and omission count, line by line |
| Render.FitLinesFit | app/tool_render.py:1661-1676 | the joined kept lines fit every non-negative budget |
| Render.FitAccountsForAll | app/tool_render.py:1661-1676 | kept plus omitted are all lines iff no line before the last is oversized |
| RenderTerms.FitKeeps | app/tool_render.py:1661-1676 | with no oversized line, kept are exactly the lines that fit when their turn comes, in order |
| RenderTerms.OversizedEnds | app/tool_render.py:1661-1676 | the first oversized line is cut to what is left and ends the output |
| Render.KeptOrNoRoom | app/tool_render.py:1661-1676 | no omitted line would still fit in what is left at the end; unless a line is oversized, every line is kept whole or omitted |
| Render.GreedyIsMostWhenSorted | app/tool_render.py:1661-1676 | with lines of non-decreasing size, none oversized, nothing that fits has more lines |
| Render.BestIsSortedGreedy | app/tool_render.py:1661-1676 | for lines in any order, none oversized, the most that fit are as many as the loop keeps of them sorted by size |
| Render.GreedyIsNotMost | app/tool_render.py:1661-1662 | lines where fewer are kept than could be |
| Render.DatapointsBodyLines | app/tool_render.py:1754-1767 | the fitting table rows, bytes used and rows omitted |
| Render.BodyIsExact | app/tool_render.py:1754-1767 | used is exact, every row is kept or counted |
| RenderTerms.BodyKeeps | app/tool_render.py:1754-1767 | kept are exactly the rows that fit beside the reserve when their turn comes, in order |
| RenderTerms.ReservedIs | app/tool_render.py:1739-1744 | how many bytes are reserved, for any footer and banner |
| RenderTerms.TableShows | app/tool_render.py:1770-1793 | head, kept rows, notice for the others if any, footer, in this order |
| Render.DatapointsFitIff | app/tool_render.py:1770-1793 | for every head, footer and rows: fits iff the minimal card is shown, or some row fits beside the reserve, or the table without rows fits |
| Render.SecFactsAccumulator.Add | app/tool_render.py:2112-2120 | a line is added iff it fits, counted otherwise; used stays exact |
| Render.SecFactsAccumulator.Finish | app/tool_render.py:2312-2328 | the card is its lines, with the omission notice where it fits, or the minimal card; it fits its budget |
| Render.GenericAccumulator.Add | app/tool_render.py:2390-2397 | a line is added iff it fits |
| Render.GenericAccumulator.AddList | app/tool_render.py:2408-2418 | the first items that fit, in order, and the key noted once where one does not; an empty list says none |
| Render.GenericAccumulator.Finish | app/tool_render.py:2431-2446 | the card is its lines, with the omission notice where it fits, or the minimal card; it fits its budget |
| RenderTerms.NoticesAre | app/tool_render.py:2431-2446 | the wording of both omission notices |
| Render.RenderedFits | app/tool_render.py:294-310 | every result is within the byte budget, and non-empty for a positive budget unless its renderer made an empty card |
| RenderTerms.ShownWhole | app/tool_render.py:294-310 | a result that fits is shown whole, and which results are answers |
| RenderTerms.MinimalIs | app/tool_render.py:1698-1706 | the minimal card is its line, or the longest prefix of it that fits |
| Dividends.Collector.CollectEventAmounts | app/normalization.py:255-273 | the validated amount rows of the chosen unit, in order |
| Dividends.Collector.CollectEventDates | app/normalization.py:276-290 | date values join the set of their filing and role |
| Dividends.Collector.ScanEventConcept | app/normalization.py:293-314 | a concept gives amounts, dates of one role, or nothing |
| Dividends.GroupEventAmounts | app/normalization.py:317-324 | each filing's amount rows, in order |
| Dividends.DedupedAmounts | app/normalization.py:327-332 | the first unit and concept of each distinct amount |
| Dividends.EmitGroupEvents | app/normalization.py:448-490 | the events of one filing, by amount |
| Dividends.ExtractDividendEvents | app/normalization.py:493-528 | all events, filing by filing in order |
| DividendEvents.EventsAre | app/normalization.py:493-528 | an event is emitted iff it is the one of a reported (accession, filed, amount) |
| DividendEvents.OneEventEach | app/normalization.py:493-528 | no two events share (accession, filed, amount) |
| DividendEvents.DatesAreOwnAndCertain | app/normalization.py:340-358 | dates iff the filing has one distinct amount and at most one value per role; then exactly its own |
| DividendTerms.AmountReported | app/normalization.py:228-273 | an amount is reported for a filing iff a fact of it gives it, in the unit read of the amount concept |
| DividendTerms.ChosenIs | app/normalization.py:228-235 | the unit read: the preferred one with facts, else the only one with facts |
| DividendTerms.EventDates | app/normalization.py:335-358 | each date field, fact by fact: set iff the filing has one amount and at most one value per role, and then to that value |
| DividendTerms.EventsInOrder | app/normalization.py:514-528 | events come by accession and date, each filing's by rising amount |
| DividendTerms.EventLabels | app/normalization.py:327-332 | an event has the unit and concept of the first row of its filing and amount |
| DividendEvents.OrderIrrelevant | app/normalization.py:493-528 | the events in order are determined by the reported amounts and dates, up to unit and concept |
| DividendEvents.ConceptOrderIrrelevant | app/normalization.py:507-513 | concepts may come in any order |
| DividendEvents.FactOrderIrrelevant | app/normalization.py:493-528 | the facts of every unit may come in any order: the same events, up to unit and concept |

## Left out

- HTTP, SQLite, Parquet, DuckDB, files and standard streams: stores are sequences, the FINRA service is a function from payloads to replies.
- Text extraction, fact selection and Markdown wording: parsed rows, facts and rendered lines are inputs.
- JSON and content hashes: encoding is lossless and event identities tell rows apart, as `RoundTrip.IsLedger` says of each ledger.
- Stored tables are read back in the order they were written; the storage layer is not part of this model.
- Floating point: amounts are reals, rounding is to nearest with ties to even, and conservation is stated before rounding.
- Dates are days in the order of their ISO text; a blank date is None, and dates padded with spaces do not occur in the ledger.
- Letter case folds for ASCII letters only, and decimal digits are ASCII.
- int() of a remainder label reads plain digits; signs, underscores and inner spaces, which int() also accepts, count as unreadable.
- Lifecycle, snapshot and ambiguous-reconciliation warnings, per_kind details, the public renaming of lifecycle fields, and unquantified, capital and exposure rows of the ledger.
- Scenarios outside the fiscal-year tiers.
- Lifecycle.ResolveLifecycle: does not build the warnings that the original returns.
- Snapshot.CurrentSnapshot: does not build the warnings that the original returns.
- Reconcile.Attach: does not note on the headline that several headlines were close; the choice itself is modelled.
- Persist.PersistRows: does not model the capital table, whose rows take the same path.
- Persist.GetObligationsAsOf: rows and snapshot only, without unquantified, capital and coverage parts or public field names.
- Valuation.ObligationAnnualImpact: cells before rounding, which `EpsTiers.FyPerShare` applies, and no per_kind details.
- EpsTiers.EpsLine: does not carry the line's label, a fixed text per tier.
- FinraPayload.BuildPayload: does not take an offset, which neither the walk nor a sorted request sends.
- The local sort after the walk, which finds its rows sorted already when dates are in one format.
- FinraLatest.DatapointsViaPartitions: says nothing about true date ranges, where the payload drops the date partition's EQUAL and the per-partition reading of the service does not hold; `FinraLatest.RangeReturnsAgain` says what happens instead.
- FinraLatest.DatapointsViaPartitions: takes each partition either to fail or to answer for the whole walk; each is asked once.
- BridgeProtocol.StepKeepsInv: lets a done-callback run at any later moment, a superset of the executor's own order.
- Errors of writing to standard output, and recorder failures, which the bridge swallows.
- Staged-session validation, permits, intent, egress, scanning and kernel dispatch: verdicts are parameters of the gateway's events.
- Cards made by the individual renderers, except the fact table, the two accumulators and the line fitter: they are inputs of `Render.Rendered`.
- Event ids and fixed fields of dividend events, which depend on nothing but the fields modelled.
- Catalogue, configuration, prompts, redaction, log streaming and the other data adapters: no state or arithmetic to prove.
- Render.DatapointsFitIff: says nothing about tables of rows whose number has more than 38 digits.
