# OmniView: a verified model

OmniView is a self-hosted dashboard. Most of it is wiring; this project models the parts that compute
something, in Dafny, and proves what those parts are for.

- **Joins and SQL (Omni-ERD, frontend).** A selection of tables is split into the sets that can join each
  other; a planner hangs every reachable table on the first pick; a bridge table is offered when one would
  help; the plan is printed as quoted SQL and highlighted. `JoinGraph`, `JoinPlan`, `Bridges`, `SqlScan`,
  `SqlText`, `SqlReader`, `SqlPanel`, `SqlTokens`, `BuildSelect`, `PlanOrder`, `SelectMeaning`.
- **Inference, overrides and the cache (Omni-ERD, backend).** Four tiers claim pairs of tables; admin
  overrides live in an ordered row store; each worker process caches graphs for a minute. `Inference`,
  `PairOwnership`, `CatalogClaims`, `InferredEdges`, `EdgeOrder`, `Recasing`, `OverrideStore`, `StoreWrites`,
  `OverrideDraft`, `GraphCache`, `GraphService`, `ServiceEffects`, `Workers`.
- **The Golden1 ledger (pipeline).** Two CSV layouts are conformed by name, re-signed, put oldest first,
  merged stably and given the balances the export left out. `Golden1Schema`, `Golden1File`,
  `Golden1Layouts`, `CardLedger`, `DepositLedger`, `Balances`, `Calendar`, `AccountFrame`, `CardHistory`,
  `DepositHistory`.
- **Charts (frontend).** Downsampling, the pivot matrix, drilling, the waterfall and the pie. `Downsample`,
  `ChartGeometry`, `Grouping`, `Breakdown`, `Matrix`, `BreakdownMeaning`, `Drill`, `NodeIds`, `Waterfall`, `Pie`,
  `ChartMeaning`.
- **The budget map.** Its validator, its flattener, and first-match categorising. `BudgetMap`,
  `BudgetShape`, `BudgetComplaints`, `BudgetRows`, `BudgetLeaves`, `Categorise`, `BudgetPublished`.

`Prelude`, `Sorting`, `Numerals`, `Division` and `Ir` hold shared vocabulary. Code the repository writes as
loops over mutable state is a method proved against a specification function or predicate; code it writes
as expressions is functions and lemmas. What a specification function computes is then said again in terms of
its inputs' own fields, without it (`SelectMeaning`, `InferredEdges`, `StoreWrites`, `DepositHistory`,
`BudgetComplaints`, `ChartMeaning` and their like). Every lemma is marked `{:induction false}`: the proofs are all
explicit.

Money is integer cents, percentages are integer hundredths, bucket edges are exact rationals rounded down.
Dates are the calendar's own days, leap years included, within a nanosecond timestamp's range. Case folding,
trimming, upper-casing, collation, date parsing and the category hash are parameters, with whatever a theorem
needs of them stated where it is used, on the names and dates at hand (`CaseBlind`, `Separates`, `ReadsBack`).

## Where the code and its words part

- `infer_relationships` promises "no self-edges" (infer.py:141). Declared self-references pass through:
  the diagram has a self-edge exactly when the catalog declares one on an entity it shows
  (`PairOwnership.SelfEdgesIffDeclared`), as an employee table with a manager column does
  (`PairOwnership.SelfReferenceIsDrawn`).
- The list and the diagram are meant not to "drift into disagreeing about the same row"
  (services.py:323-326). They agree about a join exactly when it fits the catalog as its key's row did in
  the table the served graph was built from, under a minute ago (`GraphService.DiagramAndListAgreeIff`).
  With one worker writing that is always so (`GraphService.DiagramAndListAgree`); with two it can fail
  (`GraphService.SiblingWorkerLagsBehind`).
- Pie percentages "total 100" (breakdown.ts:276). Three equal slices show 99.99.
  `Pie.SharesNearlyTotal100` gives the bound and the exact condition.
- A matrix row below the current level can be clicked; its key then filters the wrong dimension.
  `Drill.DrillingCommutesWithPivot` covers it: a key no top row has leads to an empty matrix, as a label
  clicked under its date does (`Drill.ChildKeyShowsNothing`).
- A matrix row's id is "unique across the whole tree" (breakdown.ts:144-145). It is exactly when no two paths
  are spelled alike once joined (`NodeIds.IdsAreUniqueIff`): always where the keys above the last
  level hold no slash and those of the first are not empty (`NodeIds.IdsAreUnique`), as in the page's own
  date-and-label matrix (`NodeIds.ShownIdsAreUnique`), but a category "a/b" has the id of subcategory "b"
  under "a" (`NodeIds.SlashedKeyCollides`).
- The left merge "maps" each transaction (bank.py:125-131). A rule that fires first on a transaction and
  shares its text with another rule books it twice: `Categorise.RepeatedTextsMultiplyRows` says exactly
  when, and `Categorise.OnePurchaseBookedTwice` shows it.

## Model

| member | source | states |
|---|---|---|
| JoinGraph.JoinColumns | frontend/src/apps/omni-erd/lib/joinGraph.ts:53-71 | the early-return scan finds the first relationship with one end on each table and equally many columns, each table's own columns on its own side, and nothing exactly when there is none |
| JoinGraph.ClauseIsUsable | frontend/src/apps/omni-erd/lib/joinGraph.ts:63-68 | a join's two column lists are non-empty and equally long, so the ON clause pairs up |
| JoinGraph.JoinsBothWays | frontend/src/apps/omni-erd/lib/joinGraph.ts:58-64 | the pair is decided alike from either side, by the same relationship with the columns swapped |
| JoinGraph.JoinsAny | frontend/src/apps/omni-erd/lib/joinGraph.ts:160-169 | true exactly when some member can join the candidate |
| JoinGraph.GrowGroup | frontend/src/apps/omni-erd/lib/joinGraph.ts:92-106 | the growing loop ends with exactly the start's connected component, in pick order |
| JoinGraph.JoinGroups | frontend/src/apps/omni-erd/lib/joinGraph.ts:82-110 | the groups are the connected components of the usable-join graph on the picks, covering them, members and groups in pick order |
| JoinGraph.GroupsAreReachability | frontend/src/apps/omni-erd/lib/joinGraph.ts:73-81 | two picks share a group exactly when they reach each other by joins between picked tables |
| JoinGraph.GroupsAreDisjoint | frontend/src/apps/omni-erd/lib/joinGraph.ts:73-81 | no pick lies in two groups |
| JoinGraph.GroupsAreUnique | frontend/src/apps/omni-erd/lib/joinGraph.ts:77-81 | the description fixes the partition, the member order and the group order |
| JoinGraph.FirstGroupHoldsFirstPick | frontend/src/apps/omni-erd/lib/joinGraph.ts:78-80 | the group holding the first pick comes first |
| JoinPlan.Attach | frontend/src/apps/omni-erd/lib/buildSelect.ts:193-210 | the scan over included tables attaches a candidate to the earliest one it can join |
| JoinPlan.PlanJoins | frontend/src/apps/omni-erd/lib/buildSelect.ts:167-190 | the repeated passes terminate with the plan the specification describes |
| JoinPlan.PassesSettle | frontend/src/apps/omni-erd/lib/buildSelect.ts:172-187 | the passes stop only when no remaining pick joins an included one, and lose or repeat no pick |
| JoinPlan.PlanIsSpanningTree | frontend/src/apps/omni-erd/lib/buildSelect.ts:160-190 | the plan is a spanning tree of the first pick's component, every anchor earlier than what hangs on it and the earliest possible, the rest reported in pick order |
| JoinPlan.PlannerAgreesWithGroups | frontend/src/apps/omni-erd/lib/buildSelect.ts:75-80 | the two fixpoint algorithms agree: included is the first join group, unreached is all the others |
| JoinPlan.AllReachedIffOneGroup | frontend/src/apps/omni-erd/lib/buildSelect.ts:138-142 | nothing is left out exactly when the picks form one group |
| PlanOrder.PlanIsInPassOrder | frontend/src/apps/omni-erd/lib/buildSelect.ts:167-190 | the statement's tables follow one order: each in the earliest pass a table it can join allows, those of one pass as picked |
| PlanOrder.OrderIsOne | frontend/src/apps/omni-erd/lib/buildSelect.ts:167-190 | that order is the only one a set of tables has |
| Bridges.AnalyzeJoins | frontend/src/apps/omni-erd/lib/joinGraph.ts:114-118 | groups, ranked bridges and remedy come from one partition |
| Bridges.BridgesAreTheConnectors | frontend/src/apps/omni-erd/lib/joinGraph.ts:139-158 | the bridges are exactly the unpicked entities joining two groups or more, each with exactly the groups it joins |
| Bridges.RootBridgeMerges | frontend/src/apps/omni-erd/lib/joinGraph.ts:44-49 | a table touching the root group makes the new root component itself plus every group it joins |
| Bridges.StrangerMergesNothing | frontend/src/apps/omni-erd/lib/joinGraph.ts:44-48 | a table that misses the root group leaves the root component as it was |
| Bridges.IncludedAfterAppending | frontend/src/apps/omni-erd/lib/buildSelect.ts:85-91 | what the statement holds after adding any one table, in terms of the groups before |
| Bridges.HelpsIffRootBridge | frontend/src/apps/omni-erd/lib/buildSelect.ts:85-91 | adding one table brings an excluded pick in exactly when it joins the root group and another |
| Bridges.RemedyExistsIffSomeTableHelps | frontend/src/apps/omni-erd/lib/joinGraph.ts:44-48 | a remedy is offered exactly when some single unpicked table of the diagram would bring an excluded pick in |
| Bridges.RemedyReachesItsGroups | frontend/src/apps/omni-erd/lib/buildSelect.ts:85-91 | with the remedy added, the statement holds exactly it and the union of the groups it names |
| Bridges.RemedyIsTheBest | frontend/src/apps/omni-erd/lib/joinGraph.ts:137-157 | no candidate that touches the root group is ranked above the remedy |
| Bridges.StrangerChangesNothing | frontend/src/apps/omni-erd/lib/buildSelect.ts:86-89 | adding a table that misses the root group leaves included and steps identical |
| SelectMeaning.OffersAreRanked | frontend/src/apps/omni-erd/lib/joinGraph.ts:137-183 | every offer is an unpicked entity under its own name with exactly the groups it is related to; they rank by groups connected, then by touching the first group, then by id, and the remedy is the first that touches it |
| SqlScan.HighlightSqlLine | frontend/src/apps/omni-erd/components/SelectionFlyout.tsx:57-82 | the matching loop splits any line into the spans of a left-to-right scan |
| SqlScan.NoTokenInGap | frontend/src/apps/omni-erd/components/SelectionFlyout.tsx:63-65 | no token starts inside what the matcher skipped, unclosed quotes included |
| SqlScan.ScanKeepsEveryCharacter | frontend/src/apps/omni-erd/components/SelectionFlyout.tsx:53-56 | the spans of any line concatenate back to it |
| SqlScan.ScanOfPrinted | frontend/src/apps/omni-erd/components/SelectionFlyout.tsx:47-51 | scanning printed pieces gives those pieces back, whatever the identifiers hold |
| SqlScan.OnlyWordsAreKeywords | frontend/src/apps/omni-erd/components/SelectionFlyout.tsx:43-51 | a span is bold exactly when it was printed as one of the five words, never inside a quoted identifier |
| SqlScan.UnquoteQuote | frontend/src/apps/omni-erd/lib/dialect.ts:15-17 | either quoter is injective: every identifier is read back from its quoted form |
| SqlText.RenderSelect | frontend/src/apps/omni-erd/lib/buildSelect.ts:212-234 | the line-pushing printer produces the text of the statement the plan stands for |
| SqlText.PrintStatement | frontend/src/apps/omni-erd/lib/buildSelect.ts:219-241 | the text is the concatenation of the statement's pieces |
| SqlReader.SqlReadsBack | frontend/src/apps/omni-erd/lib/buildSelect.ts:212-242 | a reader recovers every table, anchor and column pair from the text, for either quoter and arbitrary identifiers |
| SqlPanel.SplitUndoesJoin | frontend/src/apps/omni-erd/components/SelectionFlyout.tsx:145 | splitting on newlines gives newline-free lines back |
| SqlPanel.PanelShowsThePieces | frontend/src/apps/omni-erd/components/SelectionFlyout.tsx:40-82 | with newline-free identifiers each shown line splits into the pieces it was printed from, bold on syntax alone |
| SqlTokens.MatchIsTheLongestToken | frontend/src/apps/omni-erd/components/SelectionFlyout.tsx:47-51 | a match is the longest quoted identifier or bare word that starts there, on any text, closed or not |
| SqlTokens.BoldWords | frontend/src/apps/omni-erd/components/SelectionFlyout.tsx:43-45 | exactly the five words are bold, and only as bare words |
| SqlTokens.DialectQuotes | frontend/src/apps/omni-erd/lib/dialect.ts:15-21 | Databricks quotes with backticks, everything else with double quotes |
| SelectMeaning.QuotingIsDoubling | frontend/src/apps/omni-erd/lib/dialect.ts:15-17 | an identifier is quoted as it stands, except that a quote inside it is doubled |
| SelectMeaning.TwoTableText | frontend/src/apps/omni-erd/lib/buildSelect.ts:212-234 | a statement of two tables, character for character |
| BuildSelect.EarlyWarningsAreExact | frontend/src/apps/omni-erd/lib/buildSelect.ts:113-124 | an empty selection is warned about exactly when nothing is selected, unknown ids exactly when there is one, and then all of them are listed, in order, and no others |
| BuildSelect.BuildSelect | frontend/src/apps/omni-erd/lib/buildSelect.ts:111-153 | the whole builder, early return included, gives the specified statement, exclusions, groups and offers |
| BuildSelect.NothingSilentlyAbsent | frontend/src/apps/omni-erd/lib/buildSelect.ts:70-80 | the first group is what the statement holds; a disconnected warning appears exactly when there is another group and names exactly the unreached picks |
| BuildSelect.TextSaysThePlan | frontend/src/apps/omni-erd/lib/buildSelect.ts:138-145 | the generated text reads back as the planned statement |
| BuildSelect.RemedyKeepsItsPromise | frontend/src/apps/omni-erd/lib/buildSelect.ts:85-91 | adding the offered bridge to the selection reaches exactly the groups it names and an excluded pick |
| BuildSelect.NoRemedyMeansNone | frontend/src/apps/omni-erd/lib/buildSelect.ts:85-88 | with no offer, no single table of the diagram brings an excluded pick in |
| BuildSelect.StrangerLeavesSqlAlone | frontend/src/apps/omni-erd/lib/buildSelect.ts:86-89 | adding a table that misses the root group leaves the SQL byte-identical |
| SelectMeaning.PicksAreFirstMentions | frontend/src/apps/omni-erd/lib/buildSelect.ts:112 | the picks are the known ids of the selection, once each, in the order first selected |
| SelectMeaning.ExcludedIsTheRest | frontend/src/apps/omni-erd/lib/buildSelect.ts:126-153 | what is reported excluded is every selected id the statement lacks, in order, and there is no statement exactly when no id is known |
| SelectMeaning.StatementSaysTheDiagram | frontend/src/apps/omni-erd/lib/buildSelect.ts:193-234 | each table is named as its entity is, and joined on its own and its anchor's columns of the first relationship between them, the anchor being the earliest it can join |
| SelectMeaning.TextSaysTheDiagram | frontend/src/apps/omni-erd/lib/buildSelect.ts:212-234 | so is the text, read back |
| Inference.ApplyOverrides | backend/apps/omni_erd/infer.py:155-162 | the loop claims the pair of every override that fits and draws every join among them |
| Inference.Emit | backend/apps/omni_erd/infer.py:181-205 | the closure keeps a seen pair with its first claimant and refuses self-pairs |
| Inference.EmitSurrogates | backend/apps/omni_erd/infer.py:212-232 | the surrogate-key loops offer exactly the surrogate justifications, in order |
| Inference.EmitSameNamed | backend/apps/omni_erd/infer.py:237-254 | the same-named-key loops offer theirs after, on the claims already made |
| Inference.InferRelationships | backend/apps/omni_erd/infer.py:133-256 | the whole function returns the asserted, kept and inferred tiers in that order |
| PairOwnership.TiersOwnDisjointPairs | backend/apps/omni_erd/infer.py:151-177 | override, declared and inferred edges sit on disjoint pairs |
| PairOwnership.AssertedIffFits | backend/apps/omni_erd/infer.py:155-162 | the asserted edges are exactly the joins that fit the catalog, in its spelling |
| PairOwnership.SuppressedPairIsDrawnIff | backend/apps/omni_erd/infer.py:103-104 | no other tier claims a suppressed pair: among any overrides it is drawn exactly when another that fits joins it |
| PairOwnership.DeclaredKeptIff | backend/apps/omni_erd/infer.py:164-173 | a declared edge is kept exactly when both ends are in the diagram and no fitting override names its pair |
| PairOwnership.InferredEdgesAreFirstGuesses | backend/apps/omni_erd/infer.py:181-205 | each inferred edge is the first justification of its pair, one a pair, never a self-edge |
| PairOwnership.EveryGuessIsCovered | backend/apps/omni_erd/infer.py:189-194 | every justification's pair is drawn, denied by a suppression, or not a pair |
| PairOwnership.SurrogateOrigin | backend/apps/omni_erd/infer.py:214-232 | the surrogate justifications come from columns whose stem names a dimension that has the column too |
| PairOwnership.JustificationsAreCovered | backend/apps/omni_erd/infer.py:212-254 | every surrogate-key or same-named-key match in the catalog is covered by an edge, a suppression or a self-pair |
| PairOwnership.WeakGuessYields | backend/apps/omni_erd/infer.py:234-236 | a 0.8 edge exists only where no surrogate key speaks about the pair |
| PairOwnership.EndsAreKnown | backend/apps/omni_erd/infer.py:141-143 | every edge's ends are in the diagram |
| PairOwnership.SelfEdgeIsDeclared | backend/apps/omni_erd/infer.py:167-173 | a self-edge is drawn exactly when it is declared on an entity of the diagram, whatever the overrides |
| PairOwnership.SelfEdgesIffDeclared | backend/apps/omni_erd/infer.py:141-173 | there is a self-edge exactly when the catalog declares one on an entity of the diagram |
| PairOwnership.SelfReferenceIsDrawn | backend/apps/omni_erd/infer.py:167-173 | an employee table that references itself is joined to itself |
| PairOwnership.InferDrawsExactly | backend/apps/omni_erd/infer.py:145-148 | the admin edges drawn are exactly the joins that fit |
| CatalogClaims.OverrideIsReadAsStated | backend/apps/omni_erd/infer.py:91-130 | an override fits exactly when the catalog has both its tables, which differ, and all its columns; it is then drawn as stated, in the catalog's spelling, and otherwise refused for the first thing wrong |
| InferredEdges.InferredEdgeIsFirstClaim | backend/apps/omni_erd/infer.py:181-254 | every inferred edge runs many-to-one from the claiming column: at 0.9 to the last dimension its stem names, on that entity's own spelling, the first such claim on the pair; at 0.8 from a non-key column to a same-named single primary key, on a pair no stem claims |
| InferredEdges.ClaimsAreMet | backend/apps/omni_erd/infer.py:212-254 | every such claim's pair is drawn, denied by a suppression that fits, or no pair |
| EdgeOrder.EdgesAreByAuthority | backend/apps/omni_erd/infer.py:138-143 | the answer lists what admins assert in the overrides' order, then what is declared in the catalog's, then what is inferred, stems before namesakes |
| Recasing.RecasedRebuildKeepsEdges | backend/apps/omni_erd/infer.py:97-101 | a rebuild that recases every column keeps every pair, order, tier and confidence |
| Recasing.EdgesSpeakTheCatalog | backend/apps/omni_erd/infer.py:69-88 | every edge that is not declared names its columns as the catalog spells them |
| OverrideStore.RequireValidEnds | backend/apps/omni_erd/services.py:368-411 | the checks, in order, refuse exactly the assertions that cannot mean anything |
| OverrideStore.CanonicalKeepsThePayload | backend/apps/omni_erd/services.py:239-265 | canonical storage and reading back is the identity on the assertion, and the stored pair is ordered |
| OverrideStore.RestoringIsIdentity | backend/apps/omni_erd/services.py:247-251 | re-canonicalising a stored row's own reading gives the row |
| OverrideStore.EdgeIdsDiffer | backend/apps/omni_erd/services.py:215-218 | distinct rows have distinct edge ids |
| OverrideStore.ApplyKeepsWellFormed | backend/apps/omni_erd/services.py:423-534 | every save, update and delete keeps ordered pairs, valid ends and one row a pair a diagram |
| OverrideStore.RunsKeepWellFormed | backend/apps/omni_erd/services.py:423-534 | so does every sequence of them, refused ones included |
| OverrideStore.UpdateTouchesOneRow | backend/apps/omni_erd/services.py:501-527 | an edit keeps the row count, rewrites its own row to the new assertion and touches no other |
| OverrideStore.SaveAssertsThePair | backend/apps/omni_erd/services.py:436-445 | after a save the pair holds that assertion and only it, whichever way round it was stated before |
| OverrideStore.SaveIsIdempotent | backend/apps/omni_erd/services.py:438-442 | saving twice is saving once |
| OverrideStore.OtherDiagramsUntouched | backend/apps/omni_erd/services.py:462-470 | a write to one diagram leaves every other diagram's rows alone |
| StoreWrites.OnlyAssertionsAreAccepted | backend/apps/omni_erd/services.py:368-411 | exactly the joins that pair columns of two tables once each, and the suppressions of two tables, are accepted; the rest are 422 |
| StoreWrites.RefusalsAreInOrder | backend/apps/omni_erd/services.py:368-411 | the refusal is for the first rule broken |
| StoreWrites.CanonicalStores | backend/apps/omni_erd/services.py:239-265 | the stored row orders the pair and keeps each table with its own columns |
| StoreWrites.StoredIsAsserted | backend/apps/omni_erd/services.py:209-236 | what inference is given of a row is the assertion it stores |
| StoreWrites.SaveRewritesOrAdds | backend/apps/omni_erd/services.py:447-472 | a save rewrites the row that covers the pair, or adds one under a new key, and touches no other |
| StoreWrites.EditRewritesItsRow | backend/apps/omni_erd/services.py:496-527 | an edit is 422, 404 or 409 in that order, each exactly when it should be, and otherwise rewrites its own row and no other |
| StoreWrites.DeleteRemovesItsRow | backend/apps/omni_erd/services.py:530-534 | a delete removes the row with the key and nothing else, and is a 404 exactly when the diagram has none |
| StoreWrites.RowsAreInPairOrder | backend/apps/omni_erd/models.py:125 | a diagram's rows are listed by their ordered pairs |
| StoreWrites.DiagramIsResolved | backend/apps/omni_erd/services.py:45-66 | a request is for the namespace it names or the source's first, and refused when it names nothing known |
| OverrideDraft.FormShowsWhatWasSaved | frontend/src/apps/omni-erd/lib/overrideDraft.ts:57-98 | stored, listed, opened and submitted, an assertion comes back identical exactly when its note has nothing to trim |
| OverrideDraft.ResubmittingChangesNothing | frontend/src/apps/omni-erd/lib/overrideDraft.ts:80-98 | what the form itself submitted always comes back identical |
| OverrideDraft.CleanDraftHasValidEnds | frontend/src/apps/omni-erd/lib/overrideDraft.ts:111-133 | a draft the form accepts is never refused by the service's end rules |
| OverrideDraft.CleanEditIsAccepted | frontend/src/apps/omni-erd/lib/overrideDraft.ts:111-133 | nor, against the current rows, for a clash |
| OverrideDraft.CleanSaveAddsARow | frontend/src/apps/omni-erd/lib/overrideDraft.ts:120-124 | a new draft the form accepts adds a row and replaces none |
| OverrideDraft.NoProblemIffComplete | frontend/src/apps/omni-erd/lib/overrideDraft.ts:105-133 | a draft has no problem exactly when it names two tables no other row covers and, unless it suppresses, whole column pairs, none twice |
| OverrideDraft.FormSendsWhatItShows | frontend/src/apps/omni-erd/lib/overrideDraft.ts:74-103 | the referencing side is sent as the source, each table with its own columns |
| OverrideDraft.FormOpensAsListed | frontend/src/apps/omni-erd/lib/overrideDraft.ts:57-72 | a row opens with its referencing side first and its columns paired as they are |
| GraphCache.CachesAreJustified | backend/apps/omni_erd/services.py:73-104 | in every run of N workers every cached entry is inference over some instant's catalog and overrides, with its true expiry |
| GraphCache.ServedGraphsAreRecent | backend/apps/omni_erd/services.py:69-113 | every served graph is inference over an instant under 60 s old, no earlier than the last write through that worker |
| GraphCache.SiblingServesTheOldGraph | backend/apps/omni_erd/services.py:108-112 | a write clears the writer's copy and leaves a sibling serving the graph before it |
| GraphCache.CopyLivesAMinute | backend/apps/omni_erd/services.py:69-104 | a copy is served for sixty seconds whatever happens to the table and the catalog, and not after |
| GraphService.SuppressedRowIsNotDrawn | backend/apps/omni_erd/infer.py:103-104 | a well-formed table never draws a pair that one of its rows suppresses and fits |
| GraphService.SuppressedPairsStayOff | backend/apps/omni_erd/services.py:69-113 | in every run every served graph leaves out every pair suppressed when it was built, and where one worker writes every pair suppressed now |
| GraphService.DiagramAndListAgreeIff | backend/apps/omni_erd/services.py:314-336 | in every run, whoever writes, listing and drawing agree about a join exactly when it fits now as its key's row did in the table the served graph was built from |
| GraphService.DiagramAndListAgree | backend/apps/omni_erd/services.py:314-336 | where one worker writes, a join is listed active exactly when its edge is drawn, cached or not |
| GraphService.SiblingWorkerLagsBehind | backend/apps/omni_erd/services.py:323-326 | with a second worker the list and the diagram can disagree |
| ServiceEffects.WriterServesAfresh | backend/apps/omni_erd/services.py:108-112 | the worker that wrote serves what the table says now |
| ServiceEffects.GraphCarriesItsCapture | backend/apps/omni_erd/services.py:87-102 | a graph built now is of the entities and dialect captured, dated now |
| ServiceEffects.DeletedIsGone | backend/apps/omni_erd/services.py:530-534 | a deleted override is neither listed nor drawn by the worker that deleted it |
| ServiceEffects.SavedJoinIsDrawn | backend/apps/omni_erd/services.py:423-472 | a saved join that fits is at once the one edge drawn between its tables, from source to target as stated, with its cardinality and note |
| ServiceEffects.ListSaysWhatIsWrong | backend/apps/omni_erd/services.py:298-365 | a listed override is active exactly when what it states fits, and otherwise shown with the first thing wrong |
| Workers.Worker.Introspect | backend/apps/omni_erd/services.py:87-102 | the miss reads the overrides as they are then |
| Workers.Worker.ServeDiagram | backend/apps/omni_erd/services.py:73-104 | one request serves and caches as the state machine's step says |
| Workers.Worker.BuildGraph | backend/apps/omni_erd/services.py:69-104 | the endpoint, its 404, 422 and 503 included, leaves the cache as specified |
| Workers.Worker.SaveOverride | backend/apps/omni_erd/services.py:447-472 | the table becomes what the store operation gives and this worker's copy is dropped, or nothing changes |
| Workers.Worker.UpdateOverride | backend/apps/omni_erd/services.py:496-527 | likewise for an edit |
| Workers.Worker.DeleteOverride | backend/apps/omni_erd/services.py:530-534 | likewise for a delete |
| Workers.Worker.ListOverrides | backend/apps/omni_erd/services.py:335-365 | each row of the diagram, with its status against the served graph |
| Golden1Schema.DetectedColumnIsUnique | pipelines/expense_tracker/banks/all_banks/golden1_schema.py:381-438 | a detected schema finds each column it names under exactly one header cell |
| Golden1Schema.DeclaredHeadersAreDetected | pipelines/expense_tracker/banks/all_banks/golden1_schema.py:174-228 | each declared header is recognised as its own version |
| Golden1Schema.DetectionIsByNames | pipelines/expense_tracker/banks/all_banks/golden1_schema.py:352-438 | a header is a version's exactly when it has that version's names, each once, in any order and spelling that folds alike; any other is unknown |
| Golden1File.CopyColumns | pipelines/expense_tracker/banks/all_banks/golden1.py:303-312 | the first loop copies by name and defers exactly the derived columns |
| Golden1File.AssembleColumns | pipelines/expense_tracker/banks/all_banks/golden1.py:301-323 | both loops together build the eight legacy columns, or report a two-sided row |
| Golden1File.NormalizeFile | pipelines/expense_tracker/banks/all_banks/golden1.py:276-332 | one file conforms as specified, with every refusal in the source's order |
| Golden1File.UnreadableIffSomeDateIs | pipelines/expense_tracker/banks/all_banks/golden1.py:181-203 | a file that conforms otherwise is refused as unreadable exactly when some cell under Date is not month, day and year |
| Golden1Layouts.PermutingColumnsChangesNothing | pipelines/expense_tracker/banks/all_banks/golden1.py:284-294 | permuting a file's columns with their header changes neither the frame nor the error |
| CardLedger.FirstExportIsRead | pipelines/expense_tracker/banks/all_banks/golden1.py:149-178 | a card ledger printed the first way is always read, re-signed, its zero balances dropped |
| CardLedger.SecondExportIsRead | pipelines/expense_tracker/banks/all_banks/golden1.py:220-273 | printed the second way it is read exactly when no row is two-sided and the dates never step back |
| CardLedger.BothExportsConformAlike | pipelines/expense_tracker/banks/all_banks/golden1_schema.py:286-309 | both exports of one ledger conform to the same dates, descriptions, debits and credits |
| DepositLedger.FirstLayoutIsRead | pipelines/expense_tracker/banks/all_banks/golden1_schema.py:285-311 | an account other than the card, printed in the first layout, is read with its own debits, credits and balances, signs untouched |
| DepositLedger.SecondLayoutIsRead | pipelines/expense_tracker/banks/all_banks/golden1_schema.py:285-311 | printed in the second it is too, exactly when no row is two-sided and the dates never step back |
| Balances.RunningTotals | pipelines/expense_tracker/banks/all_banks/golden1.py:397-398 | the cumulative sum of each row's money |
| Balances.Backfill | pipelines/expense_tracker/banks/all_banks/golden1.py:401 | each row gets the offset of the next stated row |
| Balances.Forwardfill | pipelines/expense_tracker/banks/all_banks/golden1.py:401 | and failing that, of the last |
| Balances.FillBalances | pipelines/expense_tracker/banks/all_banks/golden1.py:370-412 | the column passes give every row the balance the nearest stated row implies |
| Balances.TruthReconstructsExactly | pipelines/expense_tracker/banks/all_banks/golden1.py:385-394 | with some balance stated, every row gets its true balance exactly when every stated one is true; with none, the running total from zero |
| Balances.StatedRowsAreKept | pipelines/expense_tracker/banks/all_banks/golden1.py:373-376 | stated rows are never altered and filling is idempotent |
| Balances.StepsHoldAfterUnstatedRows | pipelines/expense_tracker/banks/all_banks/golden1.py:385-390 | the step equation can fail only just after a stated row |
| Balances.InconsistencyStaysLocal | pipelines/expense_tracker/banks/all_banks/golden1.py:392-396 | restating one balance moves, by the same cents, exactly that row, the empty rows back to the previous stated one and the empty tail if it is last |
| Calendar.OrdersCoincide | pipelines/expense_tracker/banks/all_banks/golden1.py:338-340 | ISO text order, key order and calendar order are one |
| Calendar.KeyHoldsTheDate | pipelines/expense_tracker/banks/all_banks/golden1.py:327-328 | a date's key is its year, month and day, the last two in two digits each |
| Calendar.TextHoldsTheDate | pipelines/expense_tracker/banks/all_banks/golden1.py:327-328 | so is its text, in four, two and two digits between hyphens |
| AccountFrame.RejectUndeclaredSchemas | pipelines/expense_tracker/banks/all_banks/golden1.py:415-423 | the header pass reports the first undeclared file before any is read |
| AccountFrame.MergeFiles | pipelines/expense_tracker/banks/all_banks/golden1.py:436-442 | the files end to end, or the first file's complaint |
| AccountFrame.FinishAccount | pipelines/expense_tracker/banks/all_banks/golden1.py:443-455 | sorting, filling and numbering give the specified frame |
| AccountFrame.ParseTransactions | pipelines/expense_tracker/banks/all_banks/golden1.py:426-456 | the account loop as a whole |
| AccountFrame.OrderIsTheStableMerge | pipelines/expense_tracker/banks/all_banks/golden1.py:342-346 | any arrangement by date, then file, then position is what the date sort leaves |
| AccountFrame.FrameIsTheStableMerge | pipelines/expense_tracker/banks/all_banks/golden1.py:426-456 | there is one such arrangement and the frame is it: every row once, numbered from zero, keys never stepping back, every balance filled |
| AccountFrame.RefusalIsTheFirst | pipelines/expense_tracker/banks/all_banks/golden1.py:415-456 | an account is refused for its first file of an undeclared layout, for having no files, or for the first file that cannot be conformed, in that order, and otherwise framed |
| CardHistory.HistoryIsByDate | pipelines/expense_tracker/banks/all_banks/golden1.py:342-346 | the history of both exports never steps back, and each day's entries stay as the two files list them |
| CardHistory.HistoryIsWhole | pipelines/expense_tracker/banks/all_banks/golden1.py:338-412 | a first export in any order and without balances, and a second whose stated debts are true of the history, publish every entry by date with its true balance |
| DepositHistory.DepositHistoryIsByDate | pipelines/expense_tracker/banks/all_banks/golden1.py:342-346 | the history of any exports never steps back, holds every entry once and keeps each day's order |
| DepositHistory.DepositsArePublishedTrue | pipelines/expense_tracker/banks/all_banks/golden1.py:370-456 | any exports of an account other than the card, in either layout, whose stated balances are true, publish every entry by date with its own debit and credit and the true balance |
| Downsample.CentreOf | frontend/src/components/charts/downsample.ts:39-53 | the accumulation loop computes the next bucket's centre of mass |
| Downsample.LargestTriangle | frontend/src/components/charts/downsample.ts:55-70 | the scan picks the earliest point of the largest triangle |
| Downsample.Downsample | frontend/src/components/charts/downsample.ts:23-78 | a copy when there is nothing to thin, otherwise a selection: both ends and one earliest maximiser a bucket |
| Downsample.BucketEdges | frontend/src/components/charts/downsample.ts:35-58 | interior buckets are non-empty, end where the next starts, and the bucket looked ahead to is non-empty and in bounds |
| Downsample.BucketsPartition | frontend/src/components/charts/downsample.ts:34-58 | every interior index lies in exactly one bucket |
| Downsample.PicksAscend | frontend/src/components/charts/downsample.ts:16-18 | picks are strictly increasing positions |
| Downsample.SelectionIsUnique | frontend/src/components/charts/downsample.ts:55-73 | the description admits one selection |
| Downsample.SpikeSurvives | frontend/src/components/charts/downsample.ts:9-14 | a single point off a flat series is always kept, wherever the buckets fall |
| ChartGeometry.TriangleIsShoelace | frontend/src/components/charts/downsample.ts:64-66 | the area compared is the triangle's by the shoelace formula, nothing exactly on a line |
| ChartGeometry.StartIsRoundedDown | frontend/src/components/charts/downsample.ts:32-37 | a bucket starts just after its whole widths rounded down |
| ChartGeometry.BucketsAreEven | frontend/src/components/charts/downsample.ts:32-58 | no bucket is more than one point wider than another |
| ChartGeometry.CentreOfOne | frontend/src/components/charts/downsample.ts:39-53 | the centre of one point is that point |
| ChartGeometry.CentresCombine | frontend/src/components/charts/downsample.ts:39-53 | a centre is the mean: two stretches' centres combine by their lengths |
| Grouping.GroupBy | frontend/src/apps/expense-tracker/lib/breakdown.ts:128-140 | the map-building loop gives each key its rows in order, keys first come first |
| Grouping.GroupsConserve | frontend/src/apps/expense-tracker/lib/breakdown.ts:128-140 | weighing rows group by group weighs them all, however the groups are ordered |
| Breakdown.NetOf | frontend/src/apps/expense-tracker/lib/breakdown.ts:124-126 | the reduction is the sum in cents |
| Breakdown.TotalColumns | frontend/src/apps/expense-tracker/lib/breakdown.ts:161-165 | one net a column key present |
| Breakdown.PivotWithin | frontend/src/apps/expense-tracker/lib/breakdown.ts:173-197 | the recursive loop and sort build the specified matrix |
| Matrix.NodesAreFilters | frontend/src/apps/expense-tracker/lib/breakdown.ts:173-206 | a node exists exactly where some row follows its path, over exactly those rows: their net, their columns and their own sub-matrix |
| Matrix.SiblingsAreDistinct | frontend/src/apps/expense-tracker/lib/breakdown.ts:183-196 | siblings have distinct keys |
| Matrix.RowsFollowOnePath | frontend/src/apps/expense-tracker/lib/breakdown.ts:173-197 | at each depth a row is counted on its own path and no other |
| Matrix.PivotConserves | frontend/src/apps/expense-tracker/lib/breakdown.ts:161-197 | at every depth totals sum to the net above and columns to the total |
| BreakdownMeaning.KeysAreFields | frontend/src/apps/expense-tracker/lib/breakdown.ts:67-90 | a calendar date is its year, month and day keys, and every other key the row's field |
| BreakdownMeaning.NetAddsAmounts | frontend/src/apps/expense-tracker/lib/breakdown.ts:124-126 | a net is the sum of the amounts, each counted once |
| BreakdownMeaning.NodeSaysItsRows | frontend/src/apps/expense-tracker/lib/breakdown.ts:173-206 | a node has its path's last key and level, the net of the rows on the path, and one cell for each column value they have, with the net of those that have it |
| BreakdownMeaning.MatrixIsOrdered | frontend/src/apps/expense-tracker/lib/breakdown.ts:167-171 | at every level dates run newest first and names A to Z |
| Drill.DrillingNarrows | frontend/src/apps/expense-tracker/lib/drill.ts:38-66 | drilling filters what was in scope by one key, skipping filters nothing, after any mix of the two |
| Drill.DrillUpUndoes | frontend/src/apps/expense-tracker/lib/drill.ts:51-71 | going up undoes either descent; both move one level down the hierarchy |
| Drill.IdsAloneDiffer | frontend/src/apps/expense-tracker/lib/breakdown.ts:184-193 | a prefix decides ids and nothing else |
| Drill.ChildKeyShowsNothing | frontend/src/apps/expense-tracker/lib/drill.ts:51-60 | a label of a child row, drilled from the top level, shows an empty matrix |
| Drill.DrillingCommutesWithPivot | frontend/src/apps/expense-tracker/lib/drill.ts:51-60 | the matrix after drilling into a key is that node's children up to ids, and empty when no node has the key |
| NodeIds.IdIsThePath | frontend/src/apps/expense-tracker/lib/breakdown.ts:183-194 | a node's id is the slash-joined keys that lead to it |
| NodeIds.IdsAreUniqueIff | frontend/src/apps/expense-tracker/lib/breakdown.ts:144-145 | ids are unique across the tree exactly when no two different paths the rows follow are spelled alike once joined by slashes |
| NodeIds.IdsAreUnique | frontend/src/apps/expense-tracker/lib/breakdown.ts:144-145 | so they are where keys above the last level hold no slash and those of the first are not empty |
| NodeIds.ShownIdsAreUnique | frontend/src/apps/expense-tracker/lib/breakdown.ts:144-145 | in the page's matrix, at any drill level, dates without slashes are enough |
| NodeIds.IdsCollideIff | frontend/src/apps/expense-tracker/lib/breakdown.ts:183-194 | a category and a subcategory share an id exactly when the one is spelled like the other's path |
| NodeIds.SlashedKeyCollides | frontend/src/apps/expense-tracker/lib/breakdown.ts:183-194 | "a/b" at the top has the id of "b" under "a" |
| Waterfall.Stack | frontend/src/apps/expense-tracker/lib/breakdown.ts:231-246 | the bars chain from zero, one a group, each its group's net |
| Waterfall.Waterfall | frontend/src/apps/expense-tracker/lib/breakdown.ts:227-258 | the bars ascend, chain and close on the net of all rows |
| Waterfall.DrilledTotalIsTheBarsDelta | frontend/src/apps/expense-tracker/lib/drill.ts:38-60 | the drilled waterfall's Total is the clicked bar's delta |
| ChartMeaning.BarsSayRows | frontend/src/apps/expense-tracker/lib/breakdown.ts:231-246 | a bar is as tall as the net of its group's rows, and a decrease exactly when that is a loss |
| ChartMeaning.WaterfallSaysTheRows | frontend/src/apps/expense-tracker/lib/breakdown.ts:227-258 | each group has one bar, the bars ascend by key, and the last is the total of all rows from zero |
| Pie.PieSlices | frontend/src/apps/expense-tracker/lib/breakdown.ts:278-295 | the loop, total and sort give the specified slices |
| Pie.SpendIsTheLosses | frontend/src/apps/expense-tracker/lib/breakdown.ts:273-276 | exactly the groups with a negative net are shown, at what they lost |
| Pie.SharesNearlyTotal100 | frontend/src/apps/expense-tracker/lib/breakdown.ts:276-292 | k rounded shares miss 100% by at most k halves of a hundredth, and make it exactly when rounding up and down cancel |
| Pie.ThreeEqualSlicesMiss100 | frontend/src/apps/expense-tracker/lib/breakdown.ts:276-292 | three equal slices total 99.99% |
| Pie.FoldingConserves | frontend/src/components/charts/CategoryPieChart.tsx:72-93 | folding keeps the slices before the limit, the money and the shares, in at most limit + 1 slices |
| Pie.FoldingKeepsTheLargest | frontend/src/components/charts/CategoryPieChart.tsx:67-71 | the slices kept are the largest |
| ChartMeaning.PieSaysTheRows | frontend/src/apps/expense-tracker/lib/breakdown.ts:278-295 | exactly the groups whose rows lost money have a slice, of what they lost and of their share to the nearest hundredth, largest first |
| ChartMeaning.EqualSlicesKeepOrder | frontend/src/apps/expense-tracker/lib/breakdown.ts:278-295 | equal slices stand in the order the rows first show their groups |
| ChartMeaning.FoldedSliceIsTheRest | frontend/src/components/charts/CategoryPieChart.tsx:72-93 | what is folded away is one last slice, under its own key, with their money and shares |
| BudgetMap.ValidateTypeNode | backend/apps/expense_tracker/budgets/yaml_repository.py:40-56 | the recursive validator appends exactly the complaints of the nested mapping, in document order |
| BudgetMap.ValidateCategory | backend/apps/expense_tracker/budgets/yaml_repository.py:65-113 | one category's complaints, in order, the budget ceiling last |
| BudgetMap.ValidateBudgetMap | backend/apps/expense_tracker/budgets/yaml_repository.py:59-115 | the whole validator's complaints |
| BudgetShape.ValidatorIsExact | backend/apps/expense_tracker/budgets/yaml_repository.py:59-115 | it is silent exactly about well-shaped maps whose subcategory budgets fit their categories |
| BudgetShape.BudgetsAddUp | backend/apps/expense_tracker/budgets/yaml_repository.py:103-109 | the sum compared with the ceiling is of every subcategory's own number |
| BudgetComplaints.ComplaintsAreExact | backend/apps/expense_tracker/budgets/yaml_repository.py:40-115 | a complaint is made exactly when something is wrong, at that place and in that way; the overspent one quotes the subcategories' sum and the category's own budget |
| BudgetRows.Recurse | pipelines/expense_tracker/banks/bank.py:56-76 | the recursion appends one row for each list item below, in document order |
| BudgetRows.ParseTransactionMap | pipelines/expense_tracker/banks/bank.py:51-111 | the flattener, refusing what it cannot walk and a map with no match string |
| BudgetLeaves.AllLeavesHold | pipelines/expense_tracker/banks/bank.py:56-92 | a leaf is flattened exactly where looking the keys up from the top finds it |
| BudgetLeaves.AllLeavesOnce | pipelines/expense_tracker/banks/bank.py:56-92 | and only once |
| BudgetLeaves.FlatteningIsLossless | pipelines/expense_tracker/banks/bank.py:51-111 | a validated map gives one row a match string with its own names and budgets, and is refused exactly when it holds none |
| BudgetLeaves.TextsAreStrings | backend/apps/expense_tracker/budgets/yaml_repository.py:46-50 | what a validated map is matched by is strings |
| Categorise.CheckMatch | pipelines/expense_tracker/banks/bank.py:117-121 | the scan returns the first rule's text that occurs, case-blind |
| Categorise.FirstMatchIsFirst | pipelines/expense_tracker/banks/bank.py:117-121 | no earlier rule fires, and none at all when nothing is returned |
| Categorise.MapCategories | pipelines/expense_tracker/banks/bank.py:123-140 | matching and left merge give the specified rows |
| Categorise.CategorisingKeepsRows | pipelines/expense_tracker/banks/bank.py:113-140 | with distinct texts every transaction is kept once, in order, labelled by the first rule that fires |
| Categorise.RepeatedTextsMultiplyRows | pipelines/expense_tracker/banks/bank.py:125-131 | no transaction is dropped, and the count is kept exactly when no rule that fires first on some transaction shares its text with another rule |
| Categorise.OnePurchaseBookedTwice | pipelines/expense_tracker/banks/bank.py:125-131 | two rules with one text book the purchase they match under both labels |
| Categorise.FirstLeafLabels | pipelines/expense_tracker/banks/bank.py:51-140 | from a validated document with distinct match strings, every transaction keeps its place and carries the label, category key and text of the first leaf in document order that occurs in it, or none |
| Categorise.AppendingNeverRecategorises | pipelines/expense_tracker/banks/bank.py:117-131 | rules added at the end never relabel a matched transaction |
| Categorise.BudgetTableIsPerSubcategory | pipelines/expense_tracker/banks/bank.py:34-36 | the deduplicated budget table holds each subcategory with a match string once, and no other |
| BudgetPublished.RowSaysItsLeaf | pipelines/expense_tracker/banks/bank.py:56-92 | each flattened row has its leaf's category, subcategory, list key and text, and the two budgets the document states for them |
| BudgetPublished.TableRowSaysItsSub | pipelines/expense_tracker/banks/bank.py:34-36 | each row of the budget table is a subcategory that has a match string, with its budgets and its key |
| BudgetPublished.ContainingIsHavingAround | pipelines/expense_tracker/banks/bank.py:117-121 | a text occurs in a description exactly when the description is it with something, or nothing, on either side |

## Left out

- Warning prose, error texts and log lines: a refusal is a constructor, a warning is its code and ids.
- Catalog queries, CSV, YAML and date parsing: parsed entities, cells, documents and dates are inputs.
- The re-check that merged dates are ISO text (golden1.py:356-366): a conformed date always is.
- Cells that are not the kind their column needs (text in a money column, a missing description): pandas would raise.
- Dialect strings are taken already trimmed and lower-cased, as `quoterFor` makes them before comparing.
- The naming patterns for surrogate keys and dimensions are two functions; recasing assumes the first case-blind on the
  catalogs' own column names (a name ending in a final sigma before its suffix is not).
- JavaScript and Python are taken to lower-case names alike, and to order them by code point.
- The override table's unique and ordering constraints are taken to agree with the code (a C-collated database), so the integrity refusal at services.py:286-295 is not modelled.
- Users, timestamps on rows, HTTP, sessions and authentication.
- Cache operations are atomic steps; a write landing between a miss's read and its store is not modelled.
- Floating point: sums and percentages are exact integers, LTTB arithmetic is over reals and `every` is an exact rational.
- A grouping key that names an object prototype, or a group really called `__total__` or `__other__`.
- Month names and day labels on axes, number and date formatting, drill titles.
- Duplicate keys in one YAML mapping, which the YAML loader has already collapsed.
- Layout, search ranking, slicers, cross-filtering, the fetch hook and deployment scripts: no algorithm of this depth.
