# Verified models of the gateway's bookkeeping

Dafny models of the parts of the Aura LLM gateway whose correctness rests on
arguments that span several functions or whole runs, with proofs of those
arguments. `dafny verify dfyconfig.toml` checks everything.

| component | modules |
|---|---|
| Least-squares kernel of the cost trainer | `LinearAlgebra`, `GaussJordan`, `LeastSquares`, `RidgeFit`, `ImpliedPrices` |
| Boundary calibration | `Sorting`, `Calibration` |
| Price book: families, votes, writer, history | `FamilyKeys`, `UnionFind`, `PriceVote`, `CurrentPrices`, `PriceBook`, `PriceWriter`, `PricePlanFacts`, `PriceSafety`, `PriceHistory`, `PriceRescrape`, `PriceOutcome`, `PriceLimits` |
| Counters, budgets and the key mint | `RateLimit`, `TokenBudget`, `MintKey` |
| Per-model circuit breaker | `Breaker` |
| Release text rewriting | `Text`, `CommitSubject`, `Changelog`, `ChangelogFacts`, `ChangelogResync`, `ChangelogLimits`, `ChangelogLoss`, `Roadmap`, `RoadmapItems`, `RoadmapResync`, `RoadmapFile`, `RoadmapLayout`, `RoadmapRecord` |
| Keyset paging over routing decisions | `DecisionPaging` |

How the code is represented:

- **Loops and in-place updates** are methods over arrays, fields and local
  variables with loop invariants; each is proved equal to, or a witness of, a
  specification on values. The laws are lemmas about those specifications.
- **Arithmetic** of the trainer is over exact reals. The two cut-offs of the
  source (1e-12 for a pivot, 1e-18 for a determinant) are the parameter `tol`.
- **Prices** are integers in units of 1e-6 and times are integers. A model id or
  name is a `Label` that carries the family key `modelFamilyKey` gives it, so
  only equality of keys matters; `id:` and `name:` keys are two constructors.
- **A run of the price writer** is the list of statements it issues from its
  snapshot. `PersistProvider` is proved to issue exactly that list, and the
  safety properties are about every prefix of it.
- **Concurrency** is a transition system: any number of callers, one step at a
  time, in any interleaving. A Lua script is one step. The mint's callers run in
  any number of processes, each with its own cached organization; the link insert
  waits for an uncommitted rival, every step of a transaction may abort, and a
  commit may take effect without its caller hearing of it.
- **Changelog text** is strings: lines, headings, decimal numbers, `#` references
  and the comparison of normalised text are computed character by character.
  **Roadmap text** is lines, one constructor for each form the script looks for.

What the code does that its documentation does not say, or says otherwise:

- `scripts/release/sync-release.ts:9` calls both rewritings idempotent. Completing
  a changelog is not always: an entry without a pull request number is searched
  for in all entry lines joined together, so it can be found across two
  neighbouring lines, and the rewriting may then move these apart.
  `ChangelogLimits.FillTwiceDiffers` is such an input. `ChangelogLimits.FillTwiceIff`
  gives the exact condition on the input: nothing is added, or every text without
  a number that is found only across lines is still found once they are regrouped.
- A second scrape of an unchanged page can insert a row: the first closes the
  alias through which the page's row was matched
  (`PriceLimits.AliasRescrapeInserts`), or moves the price of the row it was
  matched to. `PriceRescrape.RescrapeIdempotent` gives the exact condition after
  every run without collisions, `PriceRescrape.RescrapeLeavesTable` after every run.
- A price on the page can be lost: its row repeats what its model's newest row
  says, and another row of the page, matched to the same model, replaces that one.
  `PriceLimits.OverriddenPriceIsLost` is such a page, `PriceOutcome.CurrentIff` says
  that this is the only way.
- A run can leave two open rows with a common key, because the map from keys to
  families is built once, before the loop. `PriceLimits.JoinerSharesKey` does it
  with a single row. `PriceSafety.NoSharedKeysIff` gives the exact condition on the
  table and the scrape: no family is replaced by two rows, and a row that replaces
  one family under a name of another finds that other one replaced as well.
- The clock of the circuit breaker is read before its lock is taken
  (`crates/aura-proxy/src/main.rs:456-458`), so instants may be recorded out of
  order. `Breaker.PrunedIsKept` and `Breaker.OpenIffLatestTrip` say what it does
  then; that it counts a sliding window and stays open for a whole cooldown assumes
  the order (`Breaker.PrunedIsFiltered`, `Breaker.OpenIffRecentTrip`). Without it a
  cooldown can be cut short (`Breaker.LateRecordCloses`).
- Completing a changelog drops what stands above the first group heading of the
  section, whenever it adds something (`ChangelogLoss.FillDropsPreamble`).
- `crates/aura-core/src/rate_limit.rs:325` speaks of an expiry 25 hours ahead; the
  code sets it at midnight, or a minute ahead when midnight is nearer.

## Model

| member | source | states |
|---|---|---|
| GaussJordan.Solve | scripts/router/train_cost.py:78-98 | what is returned solves A x = b and nothing else does; a failure exhibits a vector with a unit entry that every row of A itself sends below the tolerance, so it does not fail when A has an inverse whose rows sum, in size, to at most 1 / tol; A and b are not written to |
| GaussJordan.Diagonalise | scripts/router/train_cost.py:82-97 | the loop over columns keeps the solution set and ends diagonal, or stops and exhibits such a vector for the matrix it was given |
| GaussJordan.PivotRow | scripts/router/train_cost.py:83 | the first of the largest entries, in size, on or below the diagonal |
| GaussJordan.SwapRows | scripts/router/train_cost.py:86 | exactly the two rows are exchanged |
| GaussJordan.EliminateColumn | scripts/router/train_cost.py:87-97 | updating from `col` rightwards and skipping zero factors equals eliminating the whole row |
| GaussJordan.SwapKeepsNullSpace | scripts/router/train_cost.py:86 | a row swap keeps the solution set |
| GaussJordan.EliminationKeepsNullSpace | scripts/router/train_cost.py:88-97 | elimination keeps the solution set, both ways |
| GaussJordan.EliminationExtendsDiagonal | scripts/router/train_cost.py:88-97 | earlier columns stay diagonal and the current one becomes so |
| GaussJordan.SmallPivotMeansNearlySingular | scripts/router/train_cost.py:84-85 | when no pivot of a column reaches the tolerance, the original rows send some vector with a unit entry below the tolerance |
| GaussJordan.SwapCarries | scripts/router/train_cost.py:86 | on vectors that the finished rows annihilate the swapped rows still take the values of the original ones |
| GaussJordan.EliminationCarries | scripts/router/train_cost.py:87-97 | and so they do after the column is eliminated, the pivot row being finished too |
| GaussJordan.SmallInverseIsRegular | scripts/router/train_cost.py:84-85 | a matrix with an inverse whose rows sum to at most 1 / tol sends no such vector below the tolerance |
| RidgeFit.AddRow | scripts/router/train_cost.py:135-145 | one data row is added to the weighted Gram sums although zero entries are skipped |
| RidgeFit.ZeroLeverage | scripts/router/train_cost.py:137-139 | a skipped feature contributes nothing to any sum |
| RidgeFit.Finish | scripts/router/train_cost.py:146-154 | mirroring, the corner, the division by n and the penalty give exactly the penalised weighted normal equations |
| RidgeFit.NormalEquations | scripts/router/train_cost.py:133-154 | the accumulated system is the weighted Gram system of the data |
| RidgeFit.Fitted | scripts/router/train_cost.py:101-156 | with the weights it is given, or one for each row when there are none: for non-negative weights and l2 the fit minimises the documented objective over all coefficients and intercepts; for l2 > 0 and positive total weight it is the only minimiser; a failure means the normal matrix itself nearly annihilates some direction, and does not happen when that matrix has a small inverse |
| LeastSquares.ObjectiveGap | scripts/router/train_cost.py:104-108 | any other point lies above a solution by a sum of two non-negative squares |
| LeastSquares.NormalEquationsMinimise | scripts/router/train_cost.py:104-108 | every solution of the normal equations is a global minimiser |
| LeastSquares.MinimiserUnique | scripts/router/train_cost.py:104-108 | with l2 > 0 and positive total weight no other point attains the minimum |
| ImpliedPrices.ImpliedPrices | scripts/router/train_cost.py:249-264 | over the rows themselves: when at least five carry a cost and some tokens and the determinant of their token sums is above the cut-off, the prices are those with the least squared error, if not negative, and exact prices are recovered exactly; otherwise there are none |
| ImpliedPrices.DeterminantNonNegative | scripts/router/train_cost.py:258 | Cauchy-Schwarz: the determinant is never negative |
| ImpliedPrices.Cramer | scripts/router/train_cost.py:261-262 | the two quotients solve the normal equations |
| ImpliedPrices.StationaryIsBest | scripts/router/train_cost.py:252-262 | a solution of the normal equations minimises the squared error |
| ImpliedPrices.BestIsUnique | scripts/router/train_cost.py:252-262 | with a positive determinant it is the only minimiser |
| ImpliedPrices.ExactCosts | scripts/router/train_cost.py:244-262 | costs that came from prices satisfy the normal equations with those prices |
| Calibration.ExpectedScoreRange | scripts/router/train.py:234-235 | the expected score of a distribution lies in [0, 1] and reaches the ends only for certainty |
| Calibration.ScoreIsMeanTail | scripts/router/train.py:234-235 | the expected score is a third of the chances of reaching tier one, two and three together; moving chance upwards raises it |
| Calibration.PickIsQuantile | scripts/router/train.py:244-247 | at least pct percent of the scores are at or above the pick and fewer are strictly above; exactly the rounded-up share when scores differ |
| Calibration.PickOutside | scripts/router/train.py:244-247 | a share of 100 or more picks the least score, none or less the greatest |
| Calibration.CalibratedSpacing | scripts/router/train.py:238-254 | without a share or scores the defaults stay; otherwise the middle boundary is the pick and the others keep the defaults' proportions to it, the upper one up to 0.99 |
| Calibration.CalibratedOrder | scripts/router/train.py:238-254 | the three boundaries are in order if and only if the pick lies between 0 and 0.99 |
| FamilyKeys.KeysOf | api/cron/_normalize.ts:111-120 | a row always has an id key, and a name key exactly when its name has a digit |
| FamilyKeys.FamiliesAreComponents | api/cron/_normalize.ts:122-159 | families partition the rows, two rows are together exactly when a chain of shared keys links them, and families and rows are in input order, leader first |
| UnionFind.Find | api/cron/_normalize.ts:132-138 | returns the root, terminates, and path halving changes no root |
| UnionFind.HalvingKeepsRoots | api/cron/_normalize.ts:134 | one halving step changes no root |
| UnionFind.UnionRoot | api/cron/_normalize.ts:147 | hanging the larger root under the smaller redirects exactly its tree |
| UnionFind.RootsAreComponents | api/cron/_normalize.ts:139-150 | once every row is in, the root is the smallest row of the component |
| UnionFind.GroupByFamily | api/cron/_normalize.ts:127-159 | the method returns exactly the families, as lists of rows |
| PriceVote.MajorityOrMedian | api/cron/_normalize.ts:167-186 | over the values as they come, missing ones left out: a strict majority if there is one, else the median by rank, the mean of the two middle values rounded to the price grid away from zero; nothing exactly when every value is missing |
| PriceVote.UsableCounts | api/cron/_normalize.ts:168-170 | each value counts as often as it was given, and missing ones do not count |
| PriceVote.VoteIgnoresOrder | api/cron/_normalize.ts:167-186 | the result is the same for every permutation of the values, missing ones included |
| PriceVote.VoteResistsOutliers | api/cron/_normalize.ts:162-186 | when more than half of the values that are there lie in an interval, so does the result |
| CurrentPrices.MajorityOrMax | api/cron/_normalize.ts:189-198 | a strict majority if there is one, else the largest value |
| CurrentPrices.GroupCurrentRows | api/cron/_normalize.ts:236-260 | one row per family: the leader, the votes of the seven price and size columns, the capabilities, the note, the ids and the size of the family |
| Sorting.SortIsStable | api/cron/_normalize.ts:240-242 | rows that the order does not tell apart keep the order they came in |
| CurrentPrices.RepresentativeIsNewest | api/cron/_normalize.ts:240-247 | the id and name shown belong to a newest row of the family |
| CurrentPrices.EveryRowIsShown | api/cron/_normalize.ts:236-260 | every open row is folded into some row shown |
| CurrentPrices.ModelsAreShownOnce | api/cron/_normalize.ts:224-235 | rows of different families have neither an id nor a versioned name in common, so no model is shown twice |
| CurrentPrices.ShownPricesResist | api/cron/_normalize.ts:248-252 | in each of the five price columns, when more than half of the family's rows that have a price have one in an interval, so has the row shown |
| CurrentPrices.ShownSizes | api/cron/_normalize.ts:253-254 | context window and longest output are values of the family: one that more than half of the rows that have any agree on, else the largest |
| CurrentPrices.ShownIdsAndTags | api/cron/_normalize.ts:245-257 | ids and capabilities shown are those of the family's rows, each once, the representative's id first; no capabilities only when no row has any |
| CurrentPrices.NoteIsFirst | api/cron/_normalize.ts:256 | the note shown is the first that is not empty, and missing only when every one is |
| PriceBook.PriceTable.CloseIds | api/cron/_db.ts:180-185 | closes exactly the rows with these ids |
| PriceBook.PriceTable.InsertRow | api/cron/_db.ts:273-302 | appends one open row under the scraped id |
| PriceBook.PriceTable.VersionRow | api/cron/_db.ts:309-353 | closes the current row and appends its successor under the same id at the same instant |
| PriceBook.ShapeOf | api/cron/_db.ts:157-268 | after any list of statements: which rows are closed, at whose time, and where each new row is; ids stay unique |
| PriceWriter.DedupeScrapedRows | api/cron/_db.ts:67-90 | kept and dropped rows are those of the specification |
| PriceWriter.BuildKeyMap | api/cron/_db.ts:149-154 | the nested loop builds the map in which the last family to set a key owns it |
| PriceWriter.PersistProvider | api/cron/_db.ts:110-271 | counters, diff and table follow from the plan; a dry run returns the same diff and leaves the table as it was |
| PricePlanFacts.OpenRowsNewestFirst | api/cron/_db.ts:139-147 | open rows are read latest start first, and latest creation first where starts agree |
| PricePlanFacts.FamilyLedByNewest | api/cron/_db.ts:139-148 | the row that leads a family, the one that is compared, versioned and kept, is its newest |
| PricePlanFacts.FamiliesOfRows | api/cron/_db.ts:139-148 | each open row is in one family and different families share no key |
| PricePlanFacts.MatchedHits | api/cron/_db.ts:173-176 | a matched family shares a key with the row; an unmatched row shares none with any |
| PricePlanFacts.KeptIsDisjoint | api/cron/_db.ts:67-90 | kept success rows share no key, and kept plus dropped is everything |
| PricePlanFacts.PlanHasShape | api/cron/_db.ts:157-268 | every statement closes extra rows of one family, versions a family's newest row, or inserts an unmatched row |
| PriceSafety.CountsAddUp | api/cron/_db.ts:120-270 | each counter is the number of diff entries of its kind; the diff consists of one entry per dropped row, each kept row's own in order, with its id, its kind and the old and scraped prices, and one per family with duplicates that no row met, naming them |
| PriceSafety.PricedModelsNeverVanish | api/cron/_db.ts:157-268 | after every prefix of a run's statements each family that had an open row has one, under the id of its newest row, the one with the latest start and creation, even when two scraped rows meet one family |
| PriceSafety.ClearIff | api/cron/_db.ts:157-268 | wherever a run stops, if it has left only newest rows open, no two open rows share a key if and only if the statements carried out replace no row twice and borrow no name of a row they leave |
| PriceSafety.NoSharedKeysIff | api/cron/_db.ts:148-268 | after a run no two open rows share a key if and only if the scrape is free of collisions with the families found at its start, whatever the table held before |
| PriceSafety.OneOpenRowPerFamily | api/cron/_db.ts:148-268 | in particular after every unambiguous run, in which each written row meets at most one family and no two meet the same |
| PriceHistory.LookupIsNewest | crates/aura-db/src/repo.rs:47-66 | in any table the lookup answers with an enabled row in force, one that began last, and finds nothing only when there is none |
| PriceHistory.LookupIsDetermined | crates/aura-db/src/repo.rs:47-66 | among the rows of one provider, when tiled, the lookup returns the only row in force, so its ordering decides nothing |
| PriceHistory.PrefixTilesIff | api/cron/_db.ts:309-353 | from a healthy table (one open row per family, tiled versions) versions tile time after the first k statements of a run if and only if these replace no row twice |
| PriceHistory.PrefixHealthyIff | api/cron/_db.ts:157-268 | a run that stops after k statements leaves a healthy table if and only if these are clear of each other |
| PriceHistory.RunTilesIff | api/cron/_db.ts:157-353 | a complete run keeps tiling if and only if no family is replaced by two rows, and leaves a healthy table if and only if the scrape is free of collisions |
| PriceHistory.RunTiles | api/cron/_db.ts:309-353 | in particular versions tile time after every prefix of a run without collisions, and the run leaves the table as the next one needs it |
| PriceHistory.CompleteIsOrderly | api/cron/_db.ts:157-268 | a run that was not cut off fits into a history if and only if its scrape is free of collisions |
| PriceHistory.HistoryTiles | api/cron/_db.ts:110-271 | versions tile time after any sequence of runs, each complete or cut off anywhere, whose statements, as far as they were carried out, are clear of each other |
| PriceHistory.HistoryLookup | crates/aura-db/src/repo.rs:42-66 | after any such sequence for one provider, at every instant from a model's first row on, the lookup finds the one row in force |
| PriceRescrape.RescrapeIdempotent | api/cron/_db.ts:157-244 | after any run free of collisions, a second run with the same rows upserts nothing if and only if each row to be written finds its prices again: by its own new row; by the id or the new name of the one that replaced the matched row; by the matched row, with its id and not replaced; or by a row not replaced that has its name and its prices; then it issues no statement |
| PriceRescrape.RescrapeLeavesTable | api/cron/_db.ts:157-268 | after any run whatsoever, a second one leaves the table exactly as it was if and only if the scrape is free of collisions and each row to be written finds its prices again |
| PriceRescrape.UnambiguousRescrape | api/cron/_db.ts:157-244 | when each written row meets at most one family and no two meet the same: if and only if each shares a key with the newest row of the matched family or with the replacement of that row |
| PriceRescrape.SharedKeysSuffice | api/cron/_db.ts:157-268 | then sharing a key with that newest row is enough for the table to be left as it was |
| PriceOutcome.CurrentIff | api/cron/_db.ts:170-243 | after any run a row that was to be written has an open row with its input, output and cached price, under the id its model already had, if and only if it is not the case that it repeated the prices of its family's newest row while another row of the page moved that one's |
| PriceOutcome.PagePricesAreCurrent | api/cron/_db.ts:170-243 | in particular every such row after a run in which each written row meets at most one family and no two meet the same |
| PriceOutcome.WrittenColumns | api/cron/_db.ts:273-353 | a row that meets no family or moves its family's price is written column by column: the model's id, its own name and prices, enabled, in force from the statement on |
| PriceOutcome.EveryModelIsKept | api/cron/_db.ts:67-90 | the first occurrence wins and no model is lost: every success row shares a key with a kept one no later than itself |
| PriceLimits.JoinerSharesKey | api/cron/_db.ts:149-176 | a row with one model's id and another's name leaves two open rows with a common key |
| PriceLimits.AliasRescrapeInserts | api/cron/_db.ts:170-208 | a page matched through an alias is inserted by the second run |
| PriceLimits.OverriddenPriceIsLost | api/cron/_db.ts:170-243 | a page free of collisions one of whose prices is lost, and which the second run therefore writes to again |
| MintKey.NextInv | api/_lib/mint-key.ts:93-211 | every step of any caller, including failures and rollbacks, keeps the invariant |
| MintKey.AlwaysInv | api/_lib/mint-key.ts:93-211 | in every interleaving, over any number of processes and with commits whose acknowledgement is lost: at most one link per user, keys and links in bijection, one organization |
| MintKey.BehaviourTakesSteps | api/_lib/mint-key.ts:93-211 | every behaviour took some steps, so what is proved about steps holds in all of them |
| MintKey.LookupIsStable | api/_lib/mint-key.ts:218-225 | once the lookup returns a key for a user it returns that key forever |
| MintKey.StoredKeyWasGiven | api/_lib/mint-key.ts:186-190 | in every behaviour the key stored for a user, id and secret, is one that a caller in that user's session inserted earlier |
| MintKey.ServedSecretWasMinted | api/_lib/mint-key.ts:218-225 | so the lookup serves only secrets minted for this user |
| MintKey.CommittedSecretIsServed | api/_lib/mint-key.ts:186-225 | once a caller that inserted a key commits, heard of or not, the lookup serves that key's secret at every later moment |
| MintKey.ReturnedMeansServed | api/_lib/mint-key.ts:136-204 | a caller that returned normally with a session has left its user with a key |
| MintKey.SecondMintCannotCommit | api/_lib/mint-key.ts:182-201 | once a user has a link, its commit heard of or not, no transaction for that user can commit |
| MintKey.MintCanSucceed | api/_lib/mint-key.ts:112-204 | from every state that satisfies the invariant, with the organization set up, a user without a link and without a rival can be given a key by a new caller's own steps, and is then served its secret |
| MintKey.FirstMint | api/_lib/mint-key.ts:93-225 | from empty tables, once the organization is set up, the first caller for a user is served the secret it minted |
| MintKey.WaitsForRivals | api/_lib/mint-key.ts:146-190 | a caller is held up only by a rival's uncommitted row, with the same key id or for the same user |
| RateLimit.RateLimiter.RunScript | crates/aura-core/src/rate_limit.rs:149-180 | new counter and reply of one script call; no other key changes |
| RateLimit.RateLimiter.Check | crates/aura-core/src/rate_limit.rs:131-210 | the result built from the reply, with the 60 second window |
| RateLimit.RateLimiter.Peek | crates/aura-core/src/rate_limit.rs:215-242 | the answer from the stored counter; nothing is written |
| RateLimit.RateLimiter.Reset | crates/aura-core/src/rate_limit.rs:247-256 | removes this counter and no other |
| RateLimit.RateLimiter.CheckDailyMessages | crates/aura-core/src/rate_limit.rs:334-407 | the same script on the key of the UTC day, expiring at midnight or after a minute |
| RateLimit.KeysAreIndependent | crates/aura-core/src/rate_limit.rs:131-210 | any interleaving of calls acts on each key as that key's own calls do |
| RateLimit.CheckSaysWindow | crates/aura-core/src/rate_limit.rs:131-210 | check answers with the window that holds the call: it resets when that window ends, what remains is the limit without the calls allowed in it, and a refusal leaves nothing |
| RateLimit.PeekSaysWindow | crates/aura-core/src/rate_limit.rs:215-242 | peek answers with the running window in the same way, or with the whole limit when there is none |
| RateLimit.RunIsWindowed | crates/aura-core/src/rate_limit.rs:156-178 | windows do not overlap, hold every allowed call and at most limit of them |
| RateLimit.CounterBounded | crates/aura-core/src/rate_limit.rs:166-173 | every counter carries an expiry and never exceeds the limit |
| RateLimit.AtMostLimitPerWindow | crates/aura-core/src/rate_limit.rs:156-178 | at most limit calls are allowed per window |
| RateLimit.AtMostTwiceLimit | crates/aura-core/src/rate_limit.rs:142-178 | in any 60 seconds whatsoever at most twice the limit |
| RateLimit.PeekPredictsCheck | crates/aura-core/src/rate_limit.rs:212-242 | peek answers what check would, apart from the one request it does not consume |
| RateLimit.DailyCapExact | crates/aura-core/src/rate_limit.rs:334-370 | exactly the first limit messages of a UTC day are allowed |
| RateLimit.DailyCounterExpires | crates/aura-core/src/rate_limit.rs:334-407 | the day's counter expires at midnight, or a minute after its first message when midnight is nearer, and the reply says how long that is |
| TokenBudget.StepKeepsInv | crates/aura-core/src/rate_limit.rs:283-298 | usage plus what is checked but not yet added stays within the bound at every step |
| TokenBudget.GrantedIff | crates/aura-core/src/rate_limit.rs:283-291 | a request is granted if and only if usage plus what it asks for is at most the limit, and asking changes nothing else |
| TokenBudget.LoneCallerPasses | crates/aura-core/src/rate_limit.rs:271-298 | a lone caller's requests all pass as long as together they fit, and are counted in full |
| TokenBudget.UsageBounded | crates/aura-core/src/rate_limit.rs:271-315 | with k callers in flight adding at most m each, usage never exceeds limit + (k - 1) min(m, limit) |
| TokenBudget.MonthBounded | crates/aura-core/src/rate_limit.rs:271-315 | so for a whole month that starts within the limit, hence never limit + (k - 1) m; a lone caller never exceeds the limit |
| TokenBudget.BoundIsReached | crates/aura-core/src/rate_limit.rs:283-298 | the bound is exact: from a usage that is not negative, k callers reach it |
| Breaker.ModelBreaker.RecordModelFailure | crates/aura-proxy/src/main.rs:454-472 | new entry and answer for one failure; other models keep theirs |
| Breaker.ModelBreaker.RecordModelSuccess | crates/aura-proxy/src/main.rs:475-479 | forgets the model and no other |
| Breaker.ModelBreaker.IsModelBreakerOpen | crates/aura-proxy/src/main.rs:482-490 | open while an instant is stored that is still ahead |
| Breaker.PrunedIsKept | crates/aura-proxy/src/main.rs:462-469 | in whatever order instants are recorded: the stored list is that of the failures since the last success or trip that every later one followed by less than a window, always shorter than the threshold, and decides as the full log does |
| Breaker.PrunedIsFiltered | crates/aura-proxy/src/main.rs:462-469 | when they are recorded in order, a failure trips the breaker exactly when enough of the failures since the last success or trip are less than a window old |
| Breaker.OpenUntilIsLatest | crates/aura-proxy/src/main.rs:464-466 | in whatever order, the stored instant is the end of the cooldown of the trip recorded last since the last success, and missing when there is none |
| Breaker.OpenIffLatestTrip | crates/aura-proxy/src/main.rs:481-490 | in whatever order, the breaker is open exactly while the trip recorded last, after the last success, is less than one cooldown old |
| Breaker.OpenIffRecentTrip | crates/aura-proxy/src/main.rs:454-490 | when instants are recorded in order, exactly while any trip after the last success is less than one cooldown old |
| Breaker.SettingsRule | crates/aura-proxy/src/main.rs:454-490 | the same in terms of the configured failures, window and cooldown, each taken as at least one |
| Breaker.LateRecordCloses | crates/aura-proxy/src/main.rs:456-466 | two failures recorded out of order after which the breaker is closed within the cooldown of the later one |
| Breaker.ModelsAreIndependent | crates/aura-proxy/src/main.rs:454-479 | each model's entry depends on its own events only |
| CommitSubject.SubjectReadsBack | scripts/release/sync-release.ts:47-62 | every subject of the form kind(scope)!: text (#n) of a known kind yields its group, capitalised text and number |
| CommitSubject.PlainSubjectReadsBack | scripts/release/sync-release.ts:47-62 | a text that does not end in a number in parentheses after a # is the entry's text as it stands, capitalised |
| CommitSubject.OnlyDocumentedMatch | scripts/release/sync-release.ts:50 | only subjects of the documented form are read, and what is read is their kind and text |
| CommitSubject.NoTextNoMatch | scripts/release/sync-release.ts:50 | a subject without a text is no entry |
| CommitSubject.KnownKinds | scripts/release/sync-release.ts:35-45 | the ten kinds and their groups, also as beginnings of longer words |
| CommitSubject.OtherKinds | scripts/release/sync-release.ts:52-53 | no other word has a group |
| CommitSubject.BookkeepingIsSkipped | scripts/release/sync-release.ts:34-49 | release bookkeeping is never an entry |
| CommitSubject.OtherChoresAreKept | scripts/release/sync-release.ts:34 | chores of any other scope are not skipped |
| CommitSubject.CapitaliseKeepsRest | scripts/release/sync-release.ts:61 | capitalising changes at most the case of the first letter |
| CommitSubject.BulletReads | scripts/release/sync-release.ts:64 | a bullet is a dash, the text, and the link of its pull request if it has one |
| CommitSubject.Examples | scripts/release/sync-release.test.ts:40-47 | the subjects that the repository's own tests name are read as these say |
| Text.NormalizeSplit | scripts/release/sync-release.ts:65 | comparing text, any character but a letter or digit separates words, and any run of them is one space |
| Text.NormalizeWord | scripts/release/sync-release.ts:65 | a word keeps its letters and digits, in lower case |
| Text.PlainCharacters | scripts/release/sync-release.ts:65 | the letters and digits that words are made of |
| Text.CasesCorrespond | scripts/release/sync-release.ts:61-65 | the two cases of the alphabet correspond letter by letter, and no other character has one |
| Text.TrimCuts | scripts/release/sync-release.ts:54 | trimming cuts white space off both ends, and all of it |
| Text.WordCharacters | scripts/release/sync-release.ts:50 | word characters are the letters, the ten digits and the underscore |
| Text.WhiteSpaceByCode | scripts/release/sync-release.ts:54 | white space and line ends are the code points that sections 12.2 and 12.3 of ECMA-262 list |
| CommitSubject.ParsedIsOneLine | scripts/release/sync-release.ts:50-61 | entries are single lines of one of the nine groups |
| Changelog.FillChangelogSection | scripts/release/sync-release.ts:71-114 | the three loops compute the specification's text |
| ChangelogFacts.ScanRebuilt | scripts/release/sync-release.ts:83-93 | a section written from groups is read back as those groups |
| ChangelogResync.CutSplits | scripts/release/sync-release.ts:72-81 | the parts of a changelog around a version's section put together are the changelog |
| ChangelogResync.DocumentedSection | scripts/release/sync-release.ts:72-80 | a documented changelog is cut below `## [version] - date`, before the next release, and around the git-cliff footer |
| ChangelogResync.FillKeepsEveryLine | scripts/release/sync-release.ts:83-113 | everything outside the section and its footer stay; each group keeps its lines in order and gains its new bullets after them; groups are in alphabetical order |
| ChangelogLoss.FillDropsPreamble | scripts/release/sync-release.ts:82-119 | when a run adds something, the section's lines of text afterwards are those it had, as a multiset, without those above its first heading and with the bullets added |
| ChangelogLoss.RewrittenLooks | scripts/release/sync-release.ts:110-113 | a rewritten section is a blank line, then each group in alphabetical order with its heading set off by blank lines, and a last blank line when no footer follows |
| ChangelogResync.FillChangesIffAdds | scripts/release/sync-release.ts:108 | the text changes exactly when something is added |
| ChangelogResync.FillTwiceWhenFound | scripts/release/sync-release.ts:95-108 | two runs equal one exactly when the first had nothing to add or the second finds every entry without a number |
| ChangelogResync.FillIdempotentWithPrs | scripts/release/sync-release.ts:68-70 | when every subject carries a number, completing is idempotent |
| ChangelogLimits.FillCovers | scripts/release/sync-release.ts:67-107 | after a run no subject is missing: its number is mentioned, or its bullet is there unless its text was found before |
| ChangelogLimits.FillAddsPrsOnce | scripts/release/sync-release.ts:96-106 | the numbers added are new to the section and all different |
| ChangelogLimits.FillTwiceIff | scripts/release/sync-release.ts:83-108 | two runs equal one if and only if nothing is added or every text without a number found only across two entry lines of the input is still found after its groups are filled and sorted |
| ChangelogLimits.FillIdempotentUnlessSpanning | scripts/release/sync-release.ts:97-103 | completing is idempotent whenever no text without a number is found only across two lines |
| ChangelogLimits.FillTwiceDiffers | scripts/release/sync-release.ts:9 | a changelog and two subjects for which a second run adds an entry |
| Roadmap.MoveItems | scripts/release/sync-release.ts:149-167 | the splicing loop keeps and moves what the specification takes out |
| Roadmap.SyncRoadmap | scripts/release/sync-release.ts:132-185 | the method computes the specification, error cases included |
| RoadmapItems.ExtractLosesNothing | scripts/release/sync-release.ts:150-167 | for any lines whatsoever, putting the removed items back where they stood gives the lines there were |
| RoadmapItems.ExtractTakesMerged | scripts/release/sync-release.ts:153-156 | only blocks with a merged status are taken, up to their first closing line |
| RoadmapItems.ExtractTwice | scripts/release/sync-release.ts:150-167 | for any lines whatsoever, no merged item is left after one pass |
| RoadmapRecord.ReleasedItemReads | scripts/release/sync-release.ts:157-164 | a released item is opened with the version and holds its lines in order without the status, each unreleased mention turned into a link to this version and date |
| RoadmapRecord.NoteIff | scripts/release/sync-release.ts:174-179 | the note is put below the merged mark exactly when nothing but blank lines and comments stands before the next released mark |
| RoadmapResync.TailTwice | scripts/release/sync-release.ts:147-180 | rewriting the roadmap list twice equals once when the marks are in order and merged items hold plain lines |
| RoadmapFile.ReleaseIsListed | scripts/release/sync-release.ts:135-145 | whatever the layout, the releases listed afterwards are those of the source, with their versions and dates, and the new one if it was missing; every listed release with a tag is marked |
| RoadmapRecord.TagsAreMarked | scripts/release/sync-release.ts:138-145 | a listed release is marked as tagged when its tag exists, otherwise only if the source said so |
| RoadmapRecord.NewReleaseIsFirst | scripts/release/sync-release.ts:135-141 | a release that was not listed goes right below the line that opens the list |
| RoadmapRecord.RefusesWithoutLists | scripts/release/sync-release.ts:135-148 | a run fails for want of a release list or of a roadmap exactly when there is none |
| RoadmapRecord.RefusesUnclosedItem | scripts/release/sync-release.ts:150-154 | it fails on an unclosed item only if some opening line has no closing line after it, and always if no end of the list stands in between |
| RoadmapFile.StampTwice | scripts/release/sync-release.ts:182-184 | stamping date and revision is idempotent |
| RoadmapRecord.StampRecords | scripts/release/sync-release.ts:182-184 | the date after the opened record and the first revision line are written, and no other line changes |
| RoadmapFile.FileTwice | scripts/release/sync-release.ts:132-185 | a second run on the whole file changes nothing |
| RoadmapLayout.ExtractChunks | scripts/release/sync-release.ts:150-167 | on well-formed pieces, splicing lines is dropping the merged items |
| RoadmapLayout.SyncMovesItems | scripts/release/sync-release.ts:147-180 | on every documented layout a run succeeds: the other pieces stay in order, the merged items follow the released mark in their order, and the note is there exactly when nothing remains between the marks |
| RoadmapLayout.SyncRoadmapTwice | scripts/release/sync-release.ts:125-185 | on every documented file a run succeeds and a second one changes nothing |
| RoadmapLayout.NoneLeft | scripts/release/sync-release.ts:128-131 | no merged item is left in the rewritten list |
| DecisionPaging.OrderedIsStrict | crates/aura-db/src/repo.rs:2382-2383 | the ordered rows are strictly newest first and hold each matching row once |
| DecisionPaging.ShownRowsMeetFilters | crates/aura-db/src/repo.rs:2278-2380 | every row shown is one of the table and meets each filter that is set |
| DecisionPaging.NothingElseFiltered | crates/aura-db/src/repo.rs:2278-2380 | a row that meets them all is not left out |
| DecisionPaging.FiltersDivide | crates/aura-db/src/repo.rs:2279-2318 | excluding synthetic rows and asking only for them divide the rows between them, and so do the two answers to whether the tier was changed |
| DecisionPaging.SpansJoin | crates/aura-db/src/repo.rs:2288-2293 | two adjacent spans of time show, one after the other, exactly what the whole span shows |
| DecisionPaging.CursorSplits | crates/aura-db/src/repo.rs:2294-2300 | on any page, the cursor of the n-th row leaves exactly the rows after it |
| DecisionPaging.WalkIsExact | crates/aura-db/src/repo.rs:2216-2389 | from any cursor on, a walk of any page size over the query, with newer rows arriving between pages, shows the rows that matched at the start, each once, newest first, and ends |
| DecisionPaging.NextCursorIffMore | crates/aura-proxy/src/routes/routing_decisions.rs:295-304 | on any page a next cursor is offered exactly when rows remain, it is the last shown row's key, and asking with it gives exactly the remaining rows |
| DecisionPaging.ClientWalkIsExact | crates/aura-proxy/src/routes/routing_decisions.rs:288-310 | a client that follows the offered cursors, with newer rows arriving between requests, is shown the rows that matched at the start, each once, newest first; no cursor is offered exactly when all were shown, and until then every page is full |

## Left out

- Floating-point rounding, the numpy branch of `ridge_fit` and the rounding of implied prices and boundaries to decimals: the models compute over exact reals, before rounding.
- Calibration.CalibratedOrder: requires increasing positive defaults and is about the boundaries before rounding to four decimals.
- RidgeFit.Fitted: requires at least one data row, as `Z[0]` does, rows of equal length and as many targets and weights as rows.
- The text of model family keys (`modelFamilyKey`, `canonicalModelId`): a label carries its key; only equality of keys is used.
- Several providers in one table and the missing-provider error: the book is one provider's rows. With two providers for one model id the lookup's ordering does decide.
- Context, batch, capability, link and reasoning columns of priced rows: the writer copies them.
- PriceHistory.HistoryTiles: starts from a table with one open row per family, tiled versions and enabled rows; clocks do not go back; one provider only, while the lookup searches all, so two providers with one model id are not covered.
- PriceRescrape.RescrapeIdempotent: requires a first run free of collisions; after any other, `PriceRescrape.RescrapeLeavesTable` says that the second run does change the table, not how many rows it counts as upserted.
- PriceWriter.PersistProvider: notes and diff entries keep kind, ids and prices; the wording of notes is not modelled.
- PriceVote.MajorityOrMedian: values are on the 1e-6 grid, so non-finite numbers are the missing values.
- Redis key strings: an RPM key, a daily key and a budget key are different constructors, so a caller-chosen key cannot collide with another kind.
- 32-bit casts of counts and limits, Redis errors and the calls' logging.
- TokenBudget.MonthBounded: one month's key; its expiry 35 days ahead and the value read when Redis fails are not modelled, and added tokens are not negative.
- RateLimit.DailyCapExact: whole seconds; the key is fixed by the day.
- RateLimit.AtMostTwiceLimit: the limit is fixed and no reset happens, as the property is about one setting.
- Reading the session, the contents of keys and the other columns of `api_keys`: a mint is its user, its fresh key and its place in the protocol.
- MintKey.AlwaysInv: a commit takes effect before its caller is told anything; one that takes effect after the failure was reported is not a step.
- A poisoned lock of the breaker map: the answers `false` of that branch are not modelled.
- Changing case of letters beyond ASCII, code-unit order of group names beyond the basic plane, and numbers beyond 2^53 in commit subjects and changelogs.
- Changelog.FillChangelogSection: entries without a number are compared with the text before the run, so two such subjects with one text are both added, as in the source.
- Roadmap.SyncRoadmap: each line is one of the forms the script looks for; recognising them by their text, a line that carries both marks, a mark on a line of code, and the line number in the error for an unclosed item are not modelled.
- RoadmapLayout.SyncRoadmapTwice: the record of the reconciliation stands before the roadmap, and the release list is an ordinary part of the file.
- `newestRelease` and `syncRoadmapPageDoc`: single pattern matches.
- DecisionPaging.WalkIsExact: the filters that compare one more column are one predicate; each decision has one request log and one outcome; the cursor's text form is exact since times are whole microseconds.
- Softmax training, crypto, caching, metrics, HTTP handling, cost tables and the web applications: other components, or easy ones.
