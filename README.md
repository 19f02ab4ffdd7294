# Exact high-utility itemset mining, modelled in Dafny

The repository mines *high-utility itemsets* from a transaction database.
Each line of the database lists its items, the total utility of the
transaction, and one utility per item. The *utility* of an itemset X is the
sum, over the transactions that contain every item of X, of the utilities
of X's items there. An itemset is high-utility when its utility reaches the
threshold `minutil`. Every engine prunes with the *transaction-weighted
utility* (TWU). The TWU of X is the sum of the totals of the transactions
containing X. It bounds the utility of every superset of X from above.

The repository implements four exact algorithms: HUI-Miner, Two-Phase,
IHUP and UP-Growth. They come in seven engine files, and this project models
all seven. For every engine each result is proved exact. Completeness is
proved for six of the seven; for UP-Growth only soundness is proved. Each
claim below holds under the conditions it names. "Well formed" means aligned lines, distinct
items in each line, nonnegative utilities, and a total no smaller than the
line's utilities.

- **hui.py**: a one-phase HUI-Miner engine over utility lists. Modules:
  `UtilityLists`, `HuiMiner`, `HuiMinerProofs`, `HuiMinerTheorems`,
  `HuiMinerExample`.
  - Proved sound on databases whose lines are aligned and repeat no item.
  - Proved complete on well-formed databases, for itemsets written in
    the engine's global order.
  - Proved free of duplicates.
  - A three-line sample is worked through the engine.
- **ihup.py**: a two-phase, Apriori-style IHUP engine with tid-sets. Modules:
  `Apriori`, `IhupApriori`.
  - Proved sound. On well-formed databases the result holds exactly the
    high-utility itemsets.
- **two-phase.py**: the naive two-phase engine over quantities and
  profits. Module: `TwoPhase`.
  - The model takes dict-shaped baskets whose items all have a profit.
  - The results come level by level, each level in tuple order, as the
    candidate list is built.
  - Proved sound and duplicate-free. With nonnegative profits and
    quantities, it holds every high-utility itemset.
- **experiments/two_phase.py**: the set-based two-phase engine with
  `combinations`. Module: `ExpTwoPhase`.
  - The candidate set is proved equal to a function of the database and
    the threshold. On well-formed databases it is exactly the set of
    itemsets whose TWU reaches the threshold.
  - An item listed without a utility makes `compute_exact_utils` raise
    `KeyError`. The model returns no result in exactly that case.
  - Otherwise every result is exact. On well-formed databases the result
    holds every high-utility itemset.
- **experiments/hui.py**: a second HUI-Miner with `construct`. Modules:
  `ExpHui`, `ExpHuiProofs`, `ExpHuiJoin`, `ExpHuiTheorems`,
  `ExpHuiFinding`.
  - Its top-level lists are sorted by TWU alone, and that loses itemsets.
    See Findings.
  - Proved sound on databases with aligned lines, distinct items and
    nonnegative utilities.
  - With the lists in (TWU, item) order, proved complete on well-formed
    databases.
- **experiments/ihup.py**: the IHUP prefix-tree engine. Modules:
  `PrefixTree`, `ExpIhupTheory`, `ExpIhup`, `ExpIhupDb`, `ExactUtils`.
  - Nodes with parent links, children dictionaries and node-link chains
    are modelled as an arena.
  - Proved: every candidate's recorded TWU is right.
  - Proved: with nonnegative totals, no node's TWU falls below the sum
    of its children's.
  - Proved: with a positive threshold on a well-formed database, every
    high-utility itemset becomes a candidate.
- **experiments/up_growth.py**: UP-Growth. Modules: `ExpUpGrowthTheory`,
  `ExpUpGrowth`.
  - It builds the UP-Tree with the DGU and DGN strategies and local trees
    with DLU and DLN.
  - Every insertion and projection is proved against a function that
    states the path and the node utilities it adds.
  - Every result is proved exact. Completeness is not proved (see Left
    out).

The shared modules are the following.

- `Db` holds the transaction, its dictionary, utility, TWU and their
  lemmas.
- `Ordering` holds the stable sort by an integer-pair key that models
  Python's `sort` and `sorted`, and the lexicographic order of item
  tuples.
- `Parse` models `parse_dataset_lines`, which hui.py and ihup.py share.

Utilities are integers.

Where a source routine updates objects in place, the model is a class.
`IhupTree` and `UpTree` hold a node arena, a header map and a ghost list of
the inserted paths. Their methods have `modifies` clauses. Each insertion
is proved against the function of the paths inserted so far: `Holds`
relates the arena to those paths. A routine that computes with a loop is a
method with loop invariants, proved equal to a specification function.
Recursion over values is a function.

## Model

Some definitions carry no contract of their own. Each one is covered by the
rows of the lemmas about it:
- `ExpHui.Construct`: `ExpHui.ConstructSpec` and `ExpHuiJoin.ConstructExact`.
- `ExpHui.TopLists`: `ExpHuiTheorems.TopNode`.
- `ExpHui.MineAsWritten`: `ExpHuiTheorems.AsWrittenSound` and
  `ExpHuiFinding.AsWrittenMissesItemset`.
- `ExpHui.MineCorrected`: `ExpHuiTheorems.CorrectedSound`,
  `ExpHuiTheorems.CorrectedComplete` and `ExpHuiFinding.CorrectedFindsItemset`.
- `ExpTwoPhase.LevelsFrom` and `ExpTwoPhase.AllCandidates`:
  `ExpTwoPhase.LevelsUnfold`, `ExpTwoPhase.GatheredStep` and
  `ExpTwoPhase.CandidatePhase`.

| member | source | states |
|---|---|---|
| Db.Zip | hui.py:37 | `dict(zip(items, utils))` of an aligned line has exactly the line's items as keys |
| Db.DictKeys | hui.py:61 | the keys of a transaction's dictionary, each once, exactly the items of the line |
| Db.UtilityAtMostTwu | hui.py:63-65 | on a well-formed database the utility of an itemset lies between 0 and its TWU, which is why TWU pruning is safe |
| Db.TwuAntiMonotone | ihup.py:99-100 | a superset's TWU never exceeds the TWU of a subset when totals are not negative |
| Db.OccurrenceTwuIsTwu | experiments/hui.py:13-14 | adding the total once per listed occurrence gives the TWU of the single item on a well-formed database |
| Db.AbsentIsZero | ihup.py:96-97 | an itemset no transaction contains has utility 0 and TWU 0 |
| Ordering.SortBy | hui.py:68 | the stable sort returns a permutation of its input, sorted by the key |
| Ordering.SortBySorted | hui.py:104 | sorting a list already ordered by the key leaves it unchanged |
| Ordering.InsertBy | hui.py:80 | inserting into a sorted list keeps it sorted and adds exactly that element |
| Ordering.LexSort | ihup.py:104 | `sorted(next_level)` is a permutation of the level in lexicographic order |
| Ordering.LexInsert | ihup.py:73 | inserting an itemset into a lexicographically sorted level keeps it sorted and adds that itemset |
| Ordering.LexTotal | ihup.py:104 | any two item tuples are comparable |
| Parse.ParseLine | hui.py:14-35 | a kept line carries as many utilities as items |
| Parse.SkipRules | hui.py:15-35 | a line is skipped exactly when it is blank, has other than three sections, or has a single total and mismatched counts |
| Parse.ParseDatasetLines | hui.py:12-39 | the loop yields the line-by-line parse of its input |
| Parse.ParseIsAccepted | hui.py:13-38 | without a malformed total the parse is the accepted lines in order |
| Parse.ParseStopsAtBadTotal | hui.py:29 | the first line whose total is not one number ends the parse, with that line's index |
| Parse.BadTotalSticks | hui.py:29 | once a total fails, later lines change nothing |
| Parse.AcceptedAligned | hui.py:33-38 | every accepted transaction has as many utilities as items |
| UtilityLists.ListFor | hui.py:86-88 | the utility list of X has at most one entry per transaction |
| UtilityLists.ListForTidsIncreasing | hui.py:103-104 | utility lists built from transactions with increasing tids are ordered by tid |
| UtilityLists.ListForEmptyIff | hui.py:126-127 | a utility list is empty exactly when no revised transaction contains the itemset |
| UtilityLists.EntryBound | hui.py:119-121 | in one transaction, the utility of X extended by later items is at most the iutil of X plus the rutil after X's last item |
| UtilityLists.ListBound | hui.py:119-121 | the sum of iutil + rutil over X's list bounds the utility of every extension of X by later items |
| UtilityLists.OccurrencesIsListFor | hui.py:99-101 | the entries appended for an item, one per transaction holding it, are that item's utility list |
| UtilityLists.ListForSub | hui.py:145-146 | a nonempty list for an itemset implies nonempty lists for its subsets |
| HuiMiner.FirstSeen | hui.py:59-62 | the items in first-seen order: each once, exactly those occurring in the database |
| HuiMiner.AddTotal | hui.py:61-62 | one transaction's total is added to each of its items, new items appended to the key order |
| HuiMiner.ComputeItemTwu | hui.py:59-62 | the TWU dictionary and its key order equal the item TWUs of the database |
| HuiMiner.TwuStep | hui.py:60-62 | after one more transaction every entry is the TWU of its item over the lines read |
| HuiMiner.Promising | hui.py:63 | exactly the seen items whose TWU reaches the threshold |
| HuiMiner.OrderIndex | hui.py:69 | `item_order_index` maps each promising item to its position |
| HuiMiner.PromisingItems | hui.py:63-68 | the promising items sorted by descending TWU, ties by item |
| HuiMiner.Filter | hui.py:76 | exactly the line's items that are promising, in line order |
| HuiMiner.UtilsOf | hui.py:82 | the utility of each kept item looked up in the line's dictionary |
| HuiMiner.ReviseOne | hui.py:74-83 | a revised transaction carries one utility per item and its line number |
| HuiMiner.ReviseTransactions | hui.py:73-83 | the loop yields the revised transactions, lines without promising items dropped |
| HuiMiner.SuffixSums | hui.py:92-97 | each position's rutil is the sum of the utilities after it |
| HuiMiner.AppendEntries | hui.py:99-101 | each item's list grows by this transaction's entry for it and no other list changes |
| HuiMiner.BuildUtilityLists | hui.py:89-104 | the utility-list dictionary is every item's entries, one per transaction, sorted by tid |
| HuiMiner.MergeJoin | hui.py:129-144 | the two-pointer merge yields the join of the two lists |
| HuiMiner.Search | hui.py:108-147 | the recursive search appends what the search specification lists for this prefix |
| HuiMiner.TopLoop | hui.py:150-157 | the top loop collects the searches of every promising item that passes the bound |
| HuiMiner.HuiMinerOnePhase | hui.py:42-158 | the engine returns the mined result of the database |
| HuiMinerProofs.SortByRank | hui.py:80 | sorting a line's items by their global index keeps its items and puts them in rank order |
| HuiMinerProofs.ReviseOneUtil | hui.py:82 | an itemset's utility in a revised transaction equals its utility in the original line |
| HuiMinerProofs.ReviseFaithful | hui.py:73-83 | over promising items, the revised lists give the itemset's exact utility, and are nonempty exactly when it occurs |
| HuiMinerProofs.ReviseTids | hui.py:74-83 | revised transactions keep increasing line numbers below the database size |
| HuiMinerProofs.ListsFaithful | hui.py:89-104 | the sorted utility-list dictionary holds, for each item, its utility list |
| HuiMinerProofs.JoinListFor | hui.py:129-144 | joining the lists of X and y gives the list of X + [y] |
| HuiMinerProofs.SearchSound | hui.py:108-147 | every itemset the search reports is in rank order, nonempty, exact and at the threshold |
| HuiMinerProofs.TopSound | hui.py:150-157 | every itemset the top loop reports is sound |
| HuiMinerTheorems.SearchKeys | hui.py:108-147 | the search reports no itemset twice, and each one extends the prefix by later items |
| HuiMinerTheorems.TopKeys | hui.py:150-157 | no itemset is reported twice across the top loop |
| HuiMinerTheorems.BoundHolds | hui.py:120-121 | the pruning sum bounds every itemset the pruned subtree could report |
| HuiMinerTheorems.SearchComplete | hui.py:108-147 | every high-utility itemset in rank order that extends the prefix is reported by the search |
| HuiMinerTheorems.TopComplete | hui.py:150-157 | every high-utility itemset in rank order is reported by the top loop |
| HuiMinerTheorems.PromisingMembers | hui.py:59-65 | the promising order holds each item once, exactly those with TWU at the threshold |
| HuiMinerTheorems.PromisingSorted | hui.py:68 | the promising order is strictly ordered by (descending TWU, item) |
| HuiMinerTheorems.RankedIsOrder | hui.py:68-69 | an itemset is in rank order exactly when it is strictly sorted by the global key |
| HuiMinerTheorems.MineSound | hui.py:42-158 | on aligned lines that repeat no item, every reported pair is a nonempty itemset in global order that occurs, with its exact utility at the threshold |
| HuiMinerTheorems.MineComplete | hui.py:42-158 | every occurring itemset in global order whose utility reaches the threshold is reported with that utility |
| HuiMinerTheorems.MineNoDup | hui.py:42-158 | no itemset is reported twice |
| HuiMinerExample.SampleMine | hui.py:42-158 | on the lines `1 2:10:4 6`, `2 3:9:5 4`, `1 2 3:12:3 5 4` at threshold 10 the engine reports exactly {2}:16, {2, 1}:18, {2, 3}:18 and {2, 1, 3}:12 |
| HuiMinerExample.SampleTwus | hui.py:59-62 | the sample's item TWUs are 22, 31 and 21, so the global order is 2, 1, 3 |
| HuiMinerExample.SampleShortfalls | hui.py:42-158 | {1}, {3} and {1, 3} have utilities 7, 8 and 7, below the threshold |
| Apriori.SortedSet | ihup.py:91 | `tuple(sorted(set(s)))` is strictly increasing with the same members |
| Apriori.Union | ihup.py:91 | the join of two itemsets is the increasing tuple of their union |
| Apriori.Tids | ihup.py:74-75 | a tidset is exactly the indices of transactions containing the itemset |
| Apriori.TidsJoin | ihup.py:95 | the tidset of a union is the intersection of the tidsets |
| Apriori.TotalOverTids | ihup.py:99 | summing totals over the tidset gives the TWU |
| Apriori.UtilOverMatches | ihup.py:110-116 | summing an itemset's utility over its tidset gives its utility |
| Apriori.Report | ihup.py:109-118 | exactly the candidates whose utility reaches the threshold, with that utility |
| Apriori.ReportNoDup | ihup.py:109-118 | a duplicate-free candidate list yields a duplicate-free report |
| Apriori.JoinSize | ihup.py:89-91 | two distinct k-1 sets agreeing on all but their last item join into a k set |
| Apriori.Generators | ihup.py:89-91 | every increasing itemset of size at least 2 is the join of two of its k-1 subsets sharing their head |
| Apriori.PromisingGenerators | ihup.py:89-100 | those two subsets are promising whenever the itemset is |
| Apriori.HighIsPromising | ihup.py:72-100 | every occurring increasing high-utility itemset on a well-formed database is promising |
| Apriori.PromisingLength | ihup.py:80 | promising itemsets are no longer than the number of items, so the level loop ends |
| IhupApriori.AddTid | ihup.py:66-67 | one transaction's index is added to the tidset of each of its items |
| IhupApriori.ItemTidsets | ihup.py:64-67 | every occurring item gets exactly the tidset of its transactions |
| IhupApriori.Singles | ihup.py:69-72 | exactly the single items whose tidset total reaches the threshold |
| IhupApriori.SinglesNoDup | ihup.py:72 | the first level lists no itemset twice |
| IhupApriori.FirstLevel | ihup.py:69-75 | the sorted first level holds exactly the promising single items with their tidsets |
| IhupApriori.JoinPair | ihup.py:86-103 | a pair adds exactly their join when it is joinable, new, occurs and reaches the TWU threshold |
| IhupApriori.JoinRow | ihup.py:85-103 | the inner loop handles every later partner of one itemset |
| IhupApriori.JoinLevel | ihup.py:80-106 | the next level is sound and holds every promising itemset both of whose generators are in the previous level |
| IhupApriori.LevelComplete | ihup.py:84-103 | having handled every pair, the level is complete |
| IhupApriori.NoneLonger | ihup.py:80 | when a level is empty, no longer itemset is promising |
| IhupApriori.ExactPhase | ihup.py:108-118 | phase 2 reports exactly the candidates at the threshold with their exact utility |
| IhupApriori.IhupTwoPhase | ihup.py:42-119 | every reported itemset is promising with its exact utility at the threshold, none twice; every high-utility itemset is reported on a well-formed database |
| TwoPhase.Values | two-phase.py:18 | each item's value is profit times quantity |
| TwoPhase.ValuedDb | two-phase.py:18-19 | each basket becomes the transaction of its values with their sum as total |
| TwoPhase.ValuedWellFormed | two-phase.py:18-19 | each total is the sum of its values; with nonnegative profits and quantities the database is well formed |
| TwoPhase.BasketUtilIsUtilIn | two-phase.py:70 | the profit-times-quantity sum of a candidate in a basket is its utility in the valued transaction |
| TwoPhase.UniqueItems | two-phase.py:25-27 | the distinct items of the whole database |
| TwoPhase.ScanTwu | two-phase.py:53-56 | the scan sums the totals of the transactions containing the itemset: its TWU |
| TwoPhase.ScanUtility | two-phase.py:66-70 | the scan is the itemset's utility |
| TwoPhase.FirstLevel | two-phase.py:28-36 | exactly the sorted single items whose TWU reaches the threshold, sorted |
| TwoPhase.JoinPair | two-phase.py:47-58 | a pair adds its join exactly when it shares the head, has length k, is new and reaches the TWU threshold |
| TwoPhase.JoinRow | two-phase.py:46-58 | the inner loop handles every later partner |
| TwoPhase.JoinLevel | two-phase.py:41-61 | the next level is duplicate-free, sound and holds every kept itemset whose generators are in the previous level |
| TwoPhase.LevelComplete | two-phase.py:45-58 | having handled every pair, the level is complete |
| TwoPhase.HighIsKept | two-phase.py:35-57 | every high-utility increasing itemset of known items on a well-formed database survives TWU pruning |
| TwoPhase.NoneLonger | two-phase.py:41 | an empty level means no longer kept itemset exists |
| TwoPhase.Candidate | two-phase.py:24-61 | phase 1 lists each kept itemset exactly once, level by level with each level in tuple order (`LevelOrdered`) |
| TwoPhase.LevelOrderedConcat | two-phase.py:59-60 | appending a sorted level of longer tuples keeps the list in level order |
| TwoPhase.ReportKeepsOrder | two-phase.py:65-72 | phase 2 keeps the order of the candidates, so the report is in level order too |
| TwoPhase.ExactPhase | two-phase.py:64-72 | phase 2 reports exactly the candidates at the threshold with their utility |
| TwoPhase.StandardTwoPhase | two-phase.py:1-74 | the result is sound, duplicate-free and in level order; with nonnegative profits and quantities it holds every high-utility itemset, so its contents and their order are fixed |
| ExpTwoPhase.AddOccurrences | experiments/two_phase.py:22-23 | the total is added to an item once per listed occurrence |
| ExpTwoPhase.OccurrenceTwus | experiments/two_phase.py:9-24 | the TWU map holds every listed item with its per-occurrence TWU |
| ExpTwoPhase.ListedTwuIsTwu | experiments/two_phase.py:36-42 | the issubset test on listed items gives the TWU, and support is occurrence |
| ExpTwoPhase.Combos | experiments/two_phase.py:30 | `combinations(sorted(all_items), k)`: increasing k-tuples of the items |
| ExpTwoPhase.CombosExact | experiments/two_phase.py:30 | every increasing k-tuple of the items is among the combinations and nothing else |
| ExpTwoPhase.GenerateCandidates | experiments/two_phase.py:27-33 | exactly the increasing k-tuples of the level's items all of whose k-1 subsets are in the level |
| ExpTwoPhase.AddTotal | experiments/two_phase.py:38-41 | one transaction adds its total to every candidate it contains |
| ExpTwoPhase.FilterByTwu | experiments/two_phase.py:36-42 | exactly the supported candidates whose TWU reaches the threshold |
| ExpTwoPhase.AddUtility | experiments/two_phase.py:47-51 | one transaction adds its utility to every candidate it contains; it raises `KeyError` exactly when it lists every item of a candidate but lacks a utility for one of them |
| ExpTwoPhase.ComputeExactUtils | experiments/two_phase.py:45-52 | raises exactly when some line lists a candidate with an unpaired item; otherwise exactly the candidates at the threshold, each with its utility |
| ExpTwoPhase.ListedNeverRaises | experiments/two_phase.py:47-51 | when every line has at least as many utilities as items, no candidate is ever unpaired, so nothing raises |
| ExpTwoPhase.FirstLevel | experiments/two_phase.py:58 | the first level is exactly the frequent single items |
| ExpTwoPhase.NextLevel | experiments/two_phase.py:62-65 | each level is exactly the frequent itemsets of its size |
| ExpTwoPhase.NoneLonger | experiments/two_phase.py:62 | an empty level means no longer frequent itemset |
| ExpTwoPhase.FilteredShaped | experiments/two_phase.py:63-64 | a level built from (k-1)-tuples of listed items holds k-tuples of listed items |
| ExpTwoPhase.LevelsUnfold | experiments/two_phase.py:62-65 | a nonempty level is followed by its filtered candidates and the levels after them |
| ExpTwoPhase.CandidatesExact | experiments/two_phase.py:58-66 | when the loop ends on a well-formed database, the candidates are exactly the nonempty increasing itemsets that occur and whose TWU reaches the threshold |
| ExpTwoPhase.GatheredStep | experiments/two_phase.py:62-66 | one more level keeps the gathered candidates plus the remaining levels equal to the whole candidate set |
| ExpTwoPhase.CandidatePhase | experiments/two_phase.py:56-66 | the loop builds exactly `AllCandidates` of the database and the threshold, which on a well-formed database is exactly the set of frequent itemsets |
| ExpTwoPhase.HighUtilityItemsets | experiments/two_phase.py:55-71 | its candidate set is `AllCandidates` of the input, the frequent itemsets on a well-formed database; it raises exactly when a line lists a candidate with an unpaired item, never when every item has a utility; otherwise every result is a nonempty increasing itemset with its exact utility at the threshold, and on a well-formed database every high-utility itemset is a result |
| ExpHui.Numbered | experiments/hui.py:7 | lines numbered from 0 |
| ExpHui.ParseTransactions | experiments/hui.py:6-14 | the lines are appended with their tids and the TWU table grows by each item's per-occurrence TWU |
| ExpHui.ZipPairs | experiments/hui.py:24 | the pairs up to the shorter list |
| ExpHui.KeepPairs | experiments/hui.py:24 | exactly the pairs whose item is kept |
| ExpHui.Revise | experiments/hui.py:17-28 | each revised transaction carries one utility per item |
| ExpHui.AppendTo | experiments/hui.py:39 | `setdefault(item, []).append(entry)`: only that item's list grows, by that entry |
| ExpHui.BuildUtilityLists | experiments/hui.py:31-40 | the table keeps a key order consistent with its lists |
| ExpHui.ItemsOf | experiments/hui.py:103 | `UL_map.items()` in key insertion order |
| ExpHui.Find | experiments/hui.py:45-48 | a found entry is in the list with that tid |
| ExpHui.ConstructStep | experiments/hui.py:46-58 | raises exactly when y has the tid but a nonempty prefix list lacks it; otherwise at most one entry, with x's tid and y's remaining utility, kept only when iutil + rutil is not negative |
| ExpHui.ConstructSpec | experiments/hui.py:43-59 | `construct` raises exactly when one of x's entries does; otherwise no more entries than x, each with a tid of x and iutil + rutil not negative |
| ExpHui.TwuOnly | experiments/hui.py:103 | items of equal TWU get equal keys, so the stable sort leaves their order to the dictionary |
| ExpHui.TwuThenItem | experiments/hui.py:22 | distinct items get distinct keys, and a smaller TWU a smaller key |
| ExpHuiTheorems.TopNode | experiments/hui.py:99-104 | the top-level lists are exact single-item lists covering every revised item, with distinct items, sorted by the key |
| ExpHui.Extensions | experiments/hui.py:72-76 | at most one extension per later list |
| ExpHui.ExtensionsFail | experiments/hui.py:72-76 | a KeyError in a prefix of the later lists ends the whole loop |
| ExpHui.HuiMiner | experiments/hui.py:62-79 | the recursive miner appends what Mine describes, or reports the KeyError |
| ExpHui.CollectExtensions | experiments/hui.py:72-76 | the loop collects the nonempty constructed lists in order |
| ExpHui.GetHighUtilityItemsetsCorrected | experiments/hui.py:82-106 | the pipeline with the top lists in (TWU, item) order equals the corrected mine |
| ExpHuiProofs.FilteredShape | experiments/hui.py:22-25 | a revised line holds exactly its kept items, ordered by (TWU, item), with their utilities |
| ExpHuiProofs.ReviseShape | experiments/hui.py:17-28 | revised transactions are ordered, nonnegative and have increasing tids |
| ExpHuiProofs.ReviseFaithful | experiments/hui.py:17-28 | over kept items the revised lists give the exact utility and are nonempty exactly when the itemset occurs |
| ExpHuiProofs.BuildSpec | experiments/hui.py:31-40 | each item's list is its entries, one per transaction |
| ExpHuiProofs.DictionaryExact | experiments/hui.py:101 | the table's items are the exact single-item lists, covering every item |
| ExpHuiProofs.SortedExact | experiments/hui.py:103 | sorting the lists keeps them exact and covering |
| ExpHuiJoin.FindListFor | experiments/hui.py:45-48 | looking up a tid in X's list finds exactly that transaction's entry |
| ExpHuiJoin.ConstructExact | experiments/hui.py:43-59 | `construct` of the lists of P + [x] and P + [y] gives the list of P + [x, y] and never raises |
| ExpHuiJoin.ExtensionsExact | experiments/hui.py:72-76 | the extensions are exact lists, one for every later item with a nonempty joint list |
| ExpHuiJoin.ExtensionsChain | experiments/hui.py:72-76 | the extensions keep the (TWU, item) order |
| ExpHuiTheorems.MineSound | experiments/hui.py:62-79 | the miner never raises and every pair it appends is exact and at the threshold |
| ExpHuiTheorems.ExtensionBound | experiments/hui.py:71 | the iutil + rutil sum bounds the utility of every extension by later items |
| ExpHuiTheorems.MineComplete | experiments/hui.py:62-79 | every high-utility extension in order of the prefix is reported |
| ExpHuiTheorems.PipelineSound | experiments/hui.py:99-104 | on aligned lines with distinct items and nonnegative utilities, for any ordering of the top lists every result is exact and at the threshold |
| ExpHuiTheorems.AsWrittenSound | experiments/hui.py:103-104 | on the same databases the pipeline as written is sound |
| ExpHuiTheorems.CorrectedSound | experiments/hui.py:103-104 | on the same databases the corrected pipeline is sound |
| ExpHuiTheorems.HighUtilityKept | experiments/hui.py:20 | every item of an occurring high-utility itemset survives the TWU filter |
| ExpHuiTheorems.CorrectedComplete | experiments/hui.py:82-106 | with (TWU, item)-ordered lists every occurring high-utility itemset in that order is reported with its utility |
| ExpHuiFinding.TieTopAsWritten | experiments/hui.py:103 | on the tie database the TWU-only sort keeps item 2 before item 1 |
| ExpHuiFinding.AsWrittenMissesItemset | experiments/hui.py:103 | the pipeline as written omits {1, 2} although its utility reaches the threshold |
| ExpHuiFinding.CorrectedFindsItemset | experiments/hui.py:103 | the corrected pipeline reports both {1} and {1, 2} |
| PrefixTree.HeaderChain | experiments/ihup.py:22-29 | each item's node-link chain lists exactly, in creation order, the nodes of that item |
| PrefixTree.PathInjective | experiments/ihup.py:34-40 | two nodes with the same root path are the same node |
| PrefixTree.CreateLinked | experiments/ihup.py:38-40 | a new child keeps all paths and its own path is its parent's plus its item |
| PrefixTree.WalkStart | experiments/ihup.py:32 | the walk starts at the root with nothing walked |
| PrefixTree.WalkIncrement | experiments/ihup.py:34-36 | following an existing child and adding the weight keeps the walk invariant |
| PrefixTree.WalkCreate | experiments/ihup.py:37-40 | creating and linking a child keeps the walk invariant |
| PrefixTree.WalkEnd | experiments/ihup.py:31-41 | at the end of the walk the tree holds the paths inserted so far plus this one |
| PrefixTree.GrownIncrement | experiments/ihup.py:34-36 | an existing node on the path gains exactly the position's weight and count |
| PrefixTree.GrownCreate | experiments/ihup.py:37-40 | a missing node is created with the position's weight and count 1 |
| PrefixTree.OnlyHit | experiments/ihup.py:33-41 | one inserted path passes through at most one child of a node |
| PrefixTree.ChildTwGrown | experiments/ihup.py:31-41 | one insertion with weight u adds at most u to the children of a node, and only when the path passes through one of them |
| PrefixTree.GrownBound | experiments/ihup.py:31-41 | an insertion with one nonnegative weight at every depth keeps every node's TWU at least its children's |
| ExactUtils.TransMaps | experiments/up_growth.py:132 | one dictionary per transaction |
| ExactUtils.SubsetContains | experiments/up_growth.py:138 | `cand_set <= map.keys()` is containment in the transaction |
| ExactUtils.CandidateUtility | experiments/up_growth.py:135-139 | the loop sums a candidate's utility over the database |
| ExactUtils.ExactHighUtils | experiments/up_growth.py:131-143 | exactly the candidates at the threshold, each with its utility (the same routine is experiments/ihup.py:78-90) |
| ExpIhupTheory.Uniform | experiments/ihup.py:113 | every position of an inserted path carries the same weight |
| ExpIhupTheory.Height | experiments/ihup.py:74-76 | the longest inserted path, a bound on every path |
| ExpIhupTheory.SortedItems | experiments/ihup.py:72 | `tuple(sorted(new_cand))` is a sorted permutation of the candidate |
| ExpIhupTheory.SortedItemsPerm | experiments/ihup.py:72 | permutations of one candidate get the same key |
| ExpIhupTheory.TwuSameItems | experiments/ihup.py:72 | the TWU of an itemset depends on its members only |
| ExpIhupTheory.ProjTw | experiments/ihup.py:51-59 | the weights of the projected paths holding Y sum to the chain's node TWUs below Y |
| ExpIhupTheory.ProjPathsOk | experiments/ihup.py:51-59 | projected paths stay increasing and below the extended prefix |
| ExpIhupTheory.ProjHeight | experiments/ihup.py:74-76 | a projected tree is lower than its source, so the recursion ends |
| ExpIhupTheory.ChainSum | experiments/ihup.py:64-69 | the chain sum of x is the TWU of Y + [x] + prefix |
| ExpIhupTheory.ProjRel | experiments/ihup.py:51-59 | the projected tree of x relates to the database under prefix + [x] |
| ExpIhupTheory.ChainTotal | experiments/ihup.py:64-69 | the chain sum of x is the TWU of [x] + prefix |
| ExpIhupTheory.Promising | experiments/ihup.py:67-71 | every wanted itemset's last item is in the header with a chain sum at the threshold |
| ExpIhupTheory.RecordGood | experiments/ihup.py:72-73 | a recorded key carries the TWU of the sorted candidate, at the threshold |
| ExpIhupTheory.RootHasChildren | experiments/ihup.py:75 | a tree with TWU for a nonempty itemset has a child at the root |
| ExpIhupTheory.Deeper | experiments/ihup.py:75-76 | when a wanted extension exists, the projected tree is not empty and the recursion happens |
| ExpIhupTheory.Covered | experiments/ihup.py:72-76 | recording x and recursing covers every wanted itemset ending in x |
| ExpIhupTheory.CoverAll | experiments/ihup.py:62-76 | covering every header item covers every wanted itemset |
| ExpIhupTheory.AllGoodUpdate | experiments/ihup.py:73 | recording a good key keeps every recorded value exact |
| ExpIhup.IhupTree.constructor | experiments/ihup.py:18-20 | an empty tree: the root alone, no header, nothing inserted |
| ExpIhup.IhupTree.IncrementVals | experiments/ihup.py:13-15 | one node gains the weight and one count; nothing else changes |
| ExpIhup.IhupTree.UpdateHeader | experiments/ihup.py:22-29 | the node is appended to its item's chain; nothing else changes |
| ExpIhup.IhupTree.InsertTransaction | experiments/ihup.py:31-41 | the tree stays valid, holds one more path with the total at every position, and the nodes on it grow by it; with a nonnegative total every node keeps at least its children's TWU |
| ExpIhup.GetPrefixPath | experiments/ihup.py:43-49 | the items from the root down to the node's parent |
| ExpIhup.AddPrefixPath | experiments/ihup.py:55-57 | the projection gains the node's nonempty prefix path with the node's TWU and keeps every node at or above its children |
| ExpIhup.GetProjectedTree | experiments/ihup.py:51-59 | a fresh valid tree holding the prefix paths of the item's chain; when the source's TWUs are nonnegative every node carries at least its children's TWU |
| ExpIhup.ChainTwu | experiments/ihup.py:64-69 | the sum of the TWUs on the item's chain |
| ExpIhup.SortedKeys | experiments/ihup.py:62 | the header's keys in increasing order |
| ExpIhup.GetCandidates | experiments/ihup.py:61-76 | keys only grow, every recorded value is exact, and every wanted itemset becomes a candidate |
| ExpIhup.MineItem | experiments/ihup.py:62-76 | one header item records and covers every wanted itemset ending in it |
| ExpIhup.Extend | experiments/ihup.py:72-76 | recording the key and recursing covers every wanted extension |
| ExpIhup.LoadTree | experiments/ihup.py:96-113 | the stored lines are the sorted lines and the tree holds exactly their insertions; with nonnegative totals every node carries at least its children's TWU |
| ExpIhup.GetHighUtilityItemsets | experiments/ihup.py:93-121 | every result is an increasing itemset with its exact utility at the threshold; with a positive threshold every high-utility itemset is a result |
| ExpIhupDb.SortedDb | experiments/ihup.py:106-111 | each line sorted by item |
| ExpIhupDb.Lines | experiments/ihup.py:113 | each line inserted with its total at every position |
| ExpIhupDb.SortedLineSame | experiments/ihup.py:106-109 | a sorted line is increasing with the same item-utility dictionary |
| ExpIhupDb.SortedDbSame | experiments/ihup.py:106-111 | sorting the lines changes no utility and no TWU |
| ExpIhupDb.LinesTw | experiments/ihup.py:113 | the inserted lines holding Y sum to Y's TWU |
| ExpIhupDb.LinesRel | experiments/ihup.py:113 | the loaded tree relates to the database under the empty prefix |
| ExpIhupDb.ResultsExact | experiments/ihup.py:120 | every exact result is a nonempty increasing itemset with its utility in the database |
| ExpIhupDb.ResultsComplete | experiments/ihup.py:115-120 | every increasing high-utility itemset is a result |
| ExpUpGrowthTheory.DgnShape | experiments/up_growth.py:37-40 | the last node of an inserted transaction gets the transaction utility, and node utilities grow along the path |
| ExpUpGrowthTheory.DgnChildHeavier | experiments/up_growth.py:35-40 | a DGN insertion can give a child more than its parent: the line 1 2 with utility 2 and minimum utilities 1 puts 1 on node 1 and 2 on its child |
| ExpUpGrowthTheory.RemMinAtMost | experiments/up_growth.py:37-39 | the minimum utilities after a position sum to at most the actual utilities there |
| ExpUpGrowthTheory.DgnCovers | experiments/up_growth.py:37-40 | each DGN node utility is at least the utility of the path up to that node |
| ExpUpGrowthTheory.LocalRemScaled | experiments/up_growth.py:56-58 | DLN subtracts count times the minimum utilities after the position |
| ExpUpGrowthTheory.MinUpdateSpec | experiments/up_growth.py:175-177 | the minimum map holds exactly the items seen, each at most any utility seen, each equal to one seen |
| ExpUpGrowthTheory.MiuFlat | experiments/up_growth.py:167-177 | the line-by-line update equals one update over all kept pairs |
| ExpUpGrowthTheory.MiuIsMinimum | experiments/up_growth.py:167-177 | after loading, each item's entry is the least of its kept utilities |
| ExpUpGrowthTheory.AddUtilAt | experiments/up_growth.py:91-94 | adding a node's TWU raises exactly the path's items by that amount |
| ExpUpGrowthTheory.ItemPathUtilSum | experiments/up_growth.py:86-95 | each item's path utility is the sum of the TWUs of the prefix paths holding it |
| ExpUpGrowthTheory.LocalKept | experiments/up_growth.py:101-103 | exactly the path's items whose path utility reaches the threshold, in path order |
| ExpUpGrowthTheory.LocalDropped | experiments/up_growth.py:104-105 | exactly the path's items below the threshold |
| ExpUpGrowthTheory.DroppedRem | experiments/up_growth.py:104-105 | the DLU deduction is count times the minimum utilities of the dropped items |
| ExpUpGrowthTheory.ChainValueIsWeights | experiments/up_growth.py:117-121 | the chain sum of an item is the sum of the weights inserted at its positions |
| ExpUpGrowthTheory.ChainEntriesShort | experiments/up_growth.py:86-95 | every collected prefix path is shorter than the tree |
| ExpUpGrowthTheory.LocalPathsShort | experiments/up_growth.py:98-109 | filtering keeps the local paths short |
| ExpUpGrowthTheory.LocalPathLength | experiments/up_growth.py:99-106 | the sorted local path has exactly the kept items |
| ExpUpGrowth.UpTree.constructor | experiments/up_growth.py:18-22 | an empty UP-Tree with no header list and no minimum table |
| ExpUpGrowth.UpTree.IncrementVals | experiments/up_growth.py:13-15 | one node gains the node utility and one count; nothing else changes |
| ExpUpGrowth.UpTree.UpdateHeader | experiments/up_growth.py:24-31 | the node is appended to its item's chain; nothing else changes |
| ExpUpGrowth.UpTree.Step | experiments/up_growth.py:43-50 | one position of the walk: follow or create the child with the node utility |
| ExpUpGrowth.UpTree.DgnStep | experiments/up_growth.py:35-50 | one position with its DGN utility |
| ExpUpGrowth.UpTree.DlnStep | experiments/up_growth.py:54-69 | one position with its DLN utility |
| ExpUpGrowth.UpTree.LowerMin | experiments/up_growth.py:175-177 | the item's minimum drops to the utility when it is smaller or new; nothing else changes |
| ExpUpGrowth.UpTree.AddLocal | experiments/up_growth.py:108-109 | the minimum table is replaced and one DLN path inserted |
| ExpUpGrowth.UpTree.InsertTransaction | experiments/up_growth.py:33-50 | the tree stays valid and holds one more path whose node utilities are the DGN utilities |
| ExpUpGrowth.UpTree.InsertLocalTransaction | experiments/up_growth.py:52-69 | the tree stays valid and holds one more path whose node utilities are the DLN utilities |
| ExpUpGrowth.SuffixMin | experiments/up_growth.py:37-39 | the sum of the minimum utilities of the items after the position |
| ExpUpGrowth.SuffixLocal | experiments/up_growth.py:56-58 | count times the minimum utilities after the position |
| ExpUpGrowth.PrefixOf | experiments/up_growth.py:72-78 | the items from the root down to the node's parent |
| ExpUpGrowth.AddPathUtil | experiments/up_growth.py:91-94 | the path utility table after adding one node's TWU to its path |
| ExpUpGrowth.CollectPaths | experiments/up_growth.py:84-95 | the prefix paths of the chain with their TWU and count, and the item path utilities |
| ExpUpGrowth.FilterPath | experiments/up_growth.py:99-105 | the kept items and the path utility less the DLU deduction |
| ExpUpGrowth.LocalFilter | experiments/up_growth.py:99-107 | the filtered path, its sorted order and adjusted utility, and what is inserted |
| ExpUpGrowth.LocalInsertKept | experiments/up_growth.py:106-109 | a path with kept items inserts its sorted kept items with the DLN utilities of the adjusted path utility |
| ExpUpGrowth.LocalInsertNone | experiments/up_growth.py:107 | a path with nothing kept inserts nothing |
| ExpUpGrowth.AddLocalPath | experiments/up_growth.py:98-109 | one prefix path adds exactly its local insertion to the projection |
| ExpUpGrowth.SortedByRank | experiments/up_growth.py:111 | the keys sorted by (descending value, item), each once |
| ExpUpGrowth.BuildLocal | experiments/up_growth.py:97-109 | the projection holds exactly the local paths |
| ExpUpGrowth.GetProjectedTree | experiments/up_growth.py:80-112 | a fresh valid tree of the local paths of the item's chain, with its header list sorted by path utility |
| ExpUpGrowth.ProjectionLower | experiments/up_growth.py:126-128 | a projected tree is lower than its source, so the recursion ends |
| ExpUpGrowth.ChainUtil | experiments/up_growth.py:117-121 | the chain sum equals the sum of the node utilities inserted at the item's positions |
| ExpUpGrowth.ChainSum | experiments/up_growth.py:117-121 | the sum of the node utilities along a chain |
| ExpUpGrowth.GetCandidates | experiments/up_growth.py:115-128 | keys only grow, new candidates extend the prefix at the threshold, each header item at the threshold is recorded with its chain sum |
| ExpUpGrowth.MineItem | experiments/up_growth.py:117-128 | an item at the threshold is recorded with its chain sum, and an item below it changes nothing |
| ExpUpGrowth.Extend | experiments/up_growth.py:126-128 | the recursion only adds candidates extending the key, at the threshold |
| ExpUpGrowth.KeepPromising | experiments/up_growth.py:168-177 | the kept pairs, their utility sum, and the updated minimum table |
| ExpUpGrowth.LoadLine | experiments/up_growth.py:167-180 | one line adds its DGU path and updates the minimum table |
| ExpUpGrowth.LoadTree | experiments/up_growth.py:166-183 | the tree holds the DGU paths of every line, the minimum table after them, and the header list sorted by TWU |
| ExpUpGrowth.GetHighUtilityItemsets | experiments/up_growth.py:146-190 | every result is a nonempty itemset with its exact utility at the threshold |

## Left out

- File reading, `print`, `run()` and the scripts under experiments/ that only
  time or plot the engines: they perform I/O. The model starts from
  transactions already read.
- Converting tokens with `int` and `float`: lines arrive as numbers. Only
  the case of a total section that is not one token is modelled, as the
  `float` error that stops the parse in hui.py and ihup.py.
- Floating point: utilities and totals are integers, so rounding in sums
  is not modelled.
- experiments/up_growth.py:152 skips comment lines: this is file handling.
  Item ids there are strings, compared through `int(x)` in the sort keys.
  The model uses integers, so two spellings of one number are not told
  apart.
- The `ValueError` of the three-way unpacking at experiments/hui.py:90:
  the model takes lines already split.
- Python's sort algorithm: every sort is modelled by a stable insertion
  sort. A stable sort by a given key has only one possible output.
- The candidates dictionary that `get_candidates` fills in place is passed
  in and returned as a map. Nothing else refers to it, so nothing aliases
  it.
- experiments/up_growth.py reads `item_path_util[p]`, `min_item_util[p]`
  and `twu[x]` at lines 102, 105, 111, 172 and 178. The model reads a
  missing key as 0. Every key those lines read is present on the trees the
  engine builds, but the model does not prove it.
- ExpUpGrowth.GetHighUtilityItemsets: only soundness is proved, not that
  every high-utility itemset is found. Completeness of UP-Growth rests on
  the DGN and DLN utilities overestimating every itemset's utility in every
  local tree, which the model does not prove.
- ExpUpGrowth.GetCandidates: states that the items of each tree that
  reach the threshold are recorded. Through the recursion it states only
  that new keys extend the prefix.
- ExpIhup.GetHighUtilityItemsets: completeness needs a positive
  threshold. With a threshold of 0 or below, an itemset of TWU 0 can be
  missing from the candidates.
- IhupApriori.IhupTwoPhase and ExpIhup.GetHighUtilityItemsets:
  completeness holds on well-formed databases. Those are databases with
  aligned lines, distinct items in each line, nonnegative utilities and a
  total no smaller than the line's utilities.
- HuiMinerTheorems.MineSound: requires aligned lines that repeat no item.
  hui.py's parser keeps a repeated item in a line. hui.py:76-82 then gives
  each copy the dictionary's one utility, and hui.py:99-101 adds both to
  the list. On the line `1 1:10:3 4` the list for {1} sums to 8, while the
  utility of {1} there is 4.
- ExpHuiTheorems.PipelineSound: requires a plain database: aligned lines,
  distinct items and nonnegative utilities. experiments/hui.py:24 pairs
  both copies of a repeated item, so `1 1:10:3 4` gives {1} the sum 3 + 4 =
  7 against a utility of 4. And experiments/hui.py:57 drops an entry whose
  `new_iu + ru_y` is negative, which can lose utility when utilities are
  negative.
- ExpHuiTheorems.AsWrittenSound: needs the same plain database, for the
  same reasons.
- ExpHuiTheorems.CorrectedSound: needs the same plain database, for the
  same reasons.
- TwoPhase.StandardTwoPhase: requires every basket item to have a profit.
  An unpriced item makes two-phase.py:18 raise `KeyError`, which the model
  does not represent. The docstring (two-phase.py:11) gives a profit for
  each item. Completeness needs nonnegative profits and quantities, stated
  as nonnegative totals.
- ExpTwoPhase.HighUtilityItemsets: completeness is proved on well-formed
  databases only.
- experiments/ihup.py:103 keeps item ids as strings. They are compared with
  `int` only in sort keys, at lines 62, 72 and 106. The model uses integer
  ids, so two spellings of one number are not told apart.
- ExpUpGrowthTheory.DgnChildHeavier: the UP-Tree has no counterpart of
  IHUP's parent-at-least-children bound. DGN weights grow with depth, as
  `DgnShape` states.
- HuiMinerTheorems.MineComplete: completeness is stated for itemsets
  written in the engine's global order, the only order in which it reports
  them.
- The `tf` counter and the shared minimum table of experiments/up_growth.py
  are modelled as the code has them:
  - `tf` counts insertions and becomes the `count` of DLN;
  - a projection reuses the global `min_item_util` (line 108).
- experiments/up_growth.py:102 compares against the constant `MIN_UTIL`
  rather than the argument `minutil`. The model keeps the constant
  (`MinUtilConst`). `run()` passes that same value.
- experiments/up_growth.py:124 records keys in the order the recursion
  built them, without sorting them. The model keeps that order.
  `ExactHighUtils` is insensitive to the order of a candidate.
- experiments/hui.py:6-14 `parse_transactions` is modelled by
  `ExpHui.ParseTransactions`. `get_high_utility_itemsets` repeats its loop
  inline and is modelled with it.

## Findings

| source | as written | input that shows it | evidently intended | confidence | as-written member | corrected member |
|---|---|---|---|---|---|---|
| experiments/hui.py:103 | the top-level utility lists are sorted by TWU alone. Items of equal TWU keep dictionary order, which can differ from the (TWU, item) order of the revised transactions. rutil then does not cover the extensions the search tries, and an itemset is missed | lines `2:5:1`, `1 2:6:5 1`, `1:5:1` with threshold 6. Items 1 and 2 both have TWU 11. {1, 2} has utility 6, but the result holds {1} alone | sort the lists by (TWU, item), the order revise puts items in | not executed | ExpHuiFinding.AsWrittenMissesItemset | ExpHuiTheorems.CorrectedComplete |
