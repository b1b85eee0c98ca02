# Lottery statistics in Dafny

A model of the statistics layer of a small lottery-pool dashboard. Three
players (Wallin, Eriksson, Hellström) enter draws of two kinds (Reducerat
and Matematiskt). Each entry is a `Game` record: player, game type, numbers
matched (`score`), stake (`invested`), prize (`win`) and date. The
dashboard folds the list of records into headline figures:

- total stake and total prize money;
- how many records matched a given score, and their prizes;
- the biggest single prize;
- the most played game type;
- the players with the best and worst net result;
- the players with the best and worst mean score;
- the player who most often matched a given score;
- the longest run of prizeless draws;
- the biggest stake by a player who never won;
- per-type counts and sums, and one type's net result and mean score.

Modules:

- `GameData` (`game_data.dfy`) holds the `Game` record. `Player` and
  `GameType` are datatypes with exactly the three and two members of the
  source enums. Dates are `(year, month, day)` values ordered
  chronologically. The nine-record store is the constant `Fixture`.
- `Folds` (`folds.dfy`) holds the building blocks every statistic shares:
  - `Total` is the `reduce` sum;
  - `Members` is a filter by key;
  - `Keys` lists keys in order of first appearance, which is the order
    `Object.entries` gives for these string keys;
  - `GroupBy` is an imperative loop that builds the `acc[key]` dictionary;
  - `PickLast` models the `reduce((a, b) => a > b ? a : b)` selections and
    their `<` mirror images, taking the comparison as a parameter (`Less`
    picks a maximum, `Greater` a minimum, over integers or exact
    quotients).
- `Statistics` (`statistics.dfy`) holds one member per statistic. Each takes
  the record list as a parameter and returns a datatype in place of the
  rendered HTML. A constructor such as `NoGames`, `NoWinner` or `Nobody`
  stands for the placeholder text ("Inga spel", "Ingen").
- `Streak` (`streak.dfy`) models the longest losing streak:
  - a stable sort by date (`SortByDate`);
  - the reset-on-prize counter loop (`LongestZeroRun`), proved equal to the
    longest prizeless run (`LongestRun`);
  - the scan over players, where the first player keeps a tie.
- `FixtureFacts` (`fixture_facts.dfy`) proves what every statistic reports
  for the shipped store. The facts are proved for every list with the
  store's players, types, scores, stakes and prizes in the same order
  (`LikeStore`). `FixtureLikeStore` shows that the shipped list is one of
  them.

Ties follow the code. The selections written as
`reduce((a, b) => a > b ? a : b)` or with `<` return the second operand
`b` when the two values are equal, so the later entry wins a tie. Only two
selections keep the first entry: the biggest win
(`g.win > max.win ? g : max`, `src/lib/functions/games.ts:56`) and the
streak scan, which replaces its holder only on a strictly larger streak
(`src/lib/functions/games.ts:261`). `StoreBestAverage` and
`StoreMostSixes` pin down a concrete tie on the shipped store: in each,
the later player is reported.

## Model

| member | source | states |
|---|---|---|
| GameData.DateLeqTotalOrder | src/lib/functions/games.ts:245-247 | the date order the sort comparator induces is reflexive, antisymmetric, transitive and total |
| GameData.FixtureShape | src/lib/data/games.ts:21-94 | the store has nine well-formed records; each has prize 0 and a positive stake; dates strictly decrease from 2025-10-25 to 2025-08-16 |
| Folds.Total | src/lib/functions/games.ts:4 | a `reduce` sum seeded with 0 is 0 on the empty list and non-negative when every summand is |
| Folds.TotalAppend | src/lib/functions/games.ts:4 | the sum over two concatenated lists is the sum of their sums |
| Folds.Members | src/lib/functions/games.ts:39 | the filtered list is no longer than the input and holds exactly the records carrying the key |
| Folds.MembersMultiset | src/lib/functions/games.ts:39 | the filter keeps every occurrence of a matching record and nothing else, as a multiset |
| Folds.MembersEmpty | src/lib/functions/games.ts:39 | the filter is empty exactly when no record carries the key |
| Folds.MembersOfUnseenKey | src/lib/functions/games.ts:431 | a key absent from the listing has no records, so its statistics are the all-zero default |
| Folds.Keys | src/lib/functions/games.ts:87 | the `Object.entries` key listing has no duplicates, lists every record's key, and lists only keys that occur |
| Folds.KeysFirstAppearance | src/lib/functions/games.ts:244 | keys are listed in order of first appearance: a key listed earlier occurs before any occurrence of a key listed later |
| Folds.GroupBy | src/lib/functions/games.ts:74-84 | the mutable `acc[key]` loop ends with exactly the listed keys, each holding the fold of `step` over that key's records in list order (`Fold`, the accumulator applied record by record); the key order is the first-appearance listing |
| Folds.GroupedKeys | src/lib/functions/games.ts:87-90 | the entries are keyed in the first-appearance listing, and a non-empty list has at least one entry |
| Folds.KeyHasMembers | src/lib/functions/games.ts:17 | a listed key has at least one record |
| Folds.PickLast | src/lib/functions/games.ts:92-94 | for any strict total order `below`, the `reduce` that keeps `a` only when `b` is strictly below it picks an entry nothing is above, and every later entry is strictly below it, so the later entry wins ties; `Less` gives the `>` selection of a maximum, `Greater` the `<` selection of a minimum (games.ts:217-219) |
| Folds.PickLastListing | src/lib/functions/games.ts:24-26 | over entries with distinct keys whose values are `F` of the key, the picked key is the last key in the listing that is best by `F` (`IsLastBest`) |
| Folds.PickGrouped | src/lib/functions/games.ts:87-94 | picking from a group-by listing (`Grouped`) of a non-empty list picks the last key in first-appearance order that is best by `F` |
| Statistics.AmountPlayedFor | src/lib/functions/games.ts:3-5 | the total stake is 0 for no records and non-negative when every stake is |
| Statistics.AmountWon | src/lib/functions/games.ts:7-9 | the total prize money is 0 for no records and non-negative when every prize is |
| Statistics.ScoreWinBound | src/lib/functions/games.ts:38-46 | with no negative prize, the prize money of one score's records lies between 0 and the total prize money |
| Statistics.MembersTotalBound | src/lib/functions/games.ts:39-40 | with no negative amounts, the total over one key's records lies between 0 and the total over all records |
| Statistics.NumberOfGamesWithScore | src/lib/functions/games.ts:38-46 | the count is the number of records with that score, at most the list length, and 0 exactly when none has it; the sum is those records' prize total, 0 when none match, and between 0 and `AmountWon` when no prize is negative |
| Statistics.MaxWinIndex | src/lib/functions/games.ts:56 | the seeded strict-`>` `reduce` settles on a record whose prize is the largest, and every earlier record's prize is strictly smaller, so the first such record wins ties |
| Statistics.BiggestWinOf | src/lib/functions/games.ts:48-70 | the placeholder appears exactly for an empty list or a largest prize of 0; otherwise the reported amount, player and date are those of the first record with the largest prize |
| Statistics.CountFold | src/lib/functions/games.ts:17 | counting with `(acc[k] \|\| 0) + 1` gives the number of records |
| Statistics.CountListed | src/lib/functions/games.ts:15-21 | each entry of the counting group-by holds its key's number of records |
| Statistics.CountPick | src/lib/functions/games.ts:24-26 | picking the largest count from a counting group-by picks the last key with the most records, and that key's count is its number of records, at least 1 |
| Statistics.MostPlayedGameType | src/lib/functions/games.ts:11-36 | "no games" exactly for an empty list; otherwise the type's count is its number of records, at least 1, at least every other type's count, and a later-listed type wins a tie |
| Statistics.NetFold | src/lib/functions/games.ts:74-84 | the `{ totalWin, totalInvested }` accumulator holds the prize and stake sums of the player's records |
| Statistics.NetListed | src/lib/functions/games.ts:87-90 | each entry's `totalWin - totalInvested` is that player's net result |
| Statistics.PlayerWithHighestTotalWins | src/lib/functions/games.ts:72-100 | on a non-empty list, the reported amount is the player's net result, which is at least every player's; the later-listed player wins a tie |
| Statistics.PlayerWithMostLosses | src/lib/functions/games.ts:197-225 | on a non-empty list, the reported amount is the player's net result, which is at most every player's; the later-listed player wins a tie |
| Statistics.ScoreFold | src/lib/functions/games.ts:104-114 | the `{ totalScore, gameCount }` accumulator holds the score sum and the number of the player's records |
| Statistics.AverageListed | src/lib/functions/games.ts:117-121 | each entry's `totalScore / gameCount` is that player's mean score |
| Statistics.PlayerWithBestScoreAverage | src/lib/functions/games.ts:102-130 | on a non-empty list, the reported mean is the player's, at least every player's; the later-listed player wins a tie |
| Statistics.PlayerWithWorstScoreAverage | src/lib/functions/games.ts:167-195 | on a non-empty list, the reported mean is the player's, at most every player's; the later-listed player wins a tie |
| Statistics.PlayerWithMostScore | src/lib/functions/games.ts:132-165 | the placeholder appears exactly when no record has the score; otherwise the player's count of such records is at least 1 and at least every player's, and among tied players the one whose first such record came later wins |
| Statistics.InvestFold | src/lib/functions/games.ts:275-287 | the `{ totalInvested, hasWon }` accumulator holds the stake sum and whether some record of the player has a positive prize |
| Statistics.InvestListed | src/lib/functions/games.ts:275-287 | the entries pair each listed player, in listing order, with their stake total and whether they ever won |
| Statistics.UnflaggedMembers | src/lib/functions/games.ts:290-291 | the filter on `!hasWon` keeps exactly the players who never won |
| Statistics.UnflaggedDistinct | src/lib/functions/games.ts:290-291 | the filtered players are distinct |
| Statistics.NeverWonPlayers | src/lib/functions/games.ts:290-292 | the candidates are exactly the listed players with no positive prize |
| Statistics.CandidatesListed | src/lib/functions/games.ts:290-292 | the `filter`/`map` over the entries (`NoWinCandidates`) keeps the listing order of the players who never won, each with their stake total |
| Statistics.NoWinChoice | src/lib/functions/games.ts:294-303 | there is no candidate exactly when every player has won; otherwise the pick is the last candidate with the largest stake |
| Statistics.PlayerWithMostInvestedNoWin | src/lib/functions/games.ts:273-309 | "nobody" exactly when every listed player has won, which includes the empty list; otherwise the player never won, the amount is their stake total, it is at least every other candidate's, and a later-listed candidate wins a tie |
| Statistics.TypeFold | src/lib/functions/games.ts:373-393 | the four-field accumulator holds the count and the stake, prize and score sums of the type's records |
| Statistics.TypePartition | src/lib/functions/games.ts:371-396 | the two types split the records: their counts add up to the number of records and their sums to the overall sum |
| Statistics.GameTypeStats | src/lib/functions/games.ts:371-396 | a type is present exactly when some record has it; a present type's entry holds its count, at least 1, and its sums; counts add to the list length; stakes add to `AmountPlayedFor` and prizes to `AmountWon` |
| Statistics.GameTypePerformance | src/lib/functions/games.ts:429-447 | reading the type's entry with the all-zero default (`StatsOf`), "no games" exactly when no record has the type; otherwise net is prizes minus stakes of that type, and the mean score is their score sum over their count |
| Streak.Insert | src/lib/functions/games.ts:245-247 | inserting adds one record and keeps the rest, as a multiset |
| Streak.SortByDate | src/lib/functions/games.ts:245-247 | the sort is a permutation of its input |
| Streak.InsertSorted | src/lib/functions/games.ts:245-247 | inserting into a list sorted oldest first keeps it sorted |
| Streak.SortByDateSorted | src/lib/functions/games.ts:245-247 | the sorted list is ordered oldest first |
| Streak.InsertStable | src/lib/functions/games.ts:245-247 | a record inserted among same-date records goes after them |
| Streak.SortByDateStable | src/lib/functions/games.ts:245-247 | the sort is stable: for every date, that date's records keep their relative order |
| Streak.RunAtEnd | src/lib/functions/games.ts:253-258 | `currentStreak` never exceeds the number of records scanned |
| Streak.RunAtEndIsRun | src/lib/functions/games.ts:253-258 | `currentStreak` counts a prizeless run ending at the last record, and no longer such run exists |
| Streak.LongestRunIsLongest | src/lib/functions/games.ts:249-259 | `LongestRun`, the value of `maxPlayerStreak` after a scan, is at most the record count, a prizeless run of that length exists, and every prizeless run is at most that long |
| Streak.LongestRunAppend | src/lib/functions/games.ts:252-259 | one more record raises the longest run by at most one and never lowers it |
| Streak.LongestRunExtremes | src/lib/functions/games.ts:252-259 | with no prize at all the longest run is the whole list; it is 0 exactly when every record has a prize |
| Streak.LongestZeroRun | src/lib/functions/games.ts:249-259 | the reset-on-prize loop returns the longest prizeless run |
| Streak.PushFold | src/lib/functions/games.ts:229-238 | collecting with `push` rebuilds a player's records in list order |
| Streak.StreakBound | src/lib/functions/games.ts:244-259 | a player's streak is at most their record count, which is at most the list length; with no prize anywhere it equals their record count |
| Streak.StreakAppend | src/lib/functions/games.ts:229-259 | adding a record dated no earlier than any of a player's records leaves every other player's streak unchanged; the player's own streak never shrinks and grows by at most one, and stays the same when the new record has a prize |
| Streak.PlayerStreak | src/lib/functions/games.ts:245-259 | one player's streak is the longest prizeless run of their records sorted oldest first |
| Streak.CollectByPlayer | src/lib/functions/games.ts:229-238 | the grouping lists the players in first-appearance order, each with their records in list order |
| Streak.FirstMaxOfScan | src/lib/functions/games.ts:261-264 | a scan that replaces the holder only on a strictly larger streak keeps the first player with the largest streak, and finds none exactly when every streak is 0 |
| Streak.ListedStreak | src/lib/functions/games.ts:244-259 | the streak computed for the i-th listed player is that player's streak |
| Streak.ScanStreaks | src/lib/functions/games.ts:240-265 | the loop's holder has a streak of at least 1, strictly beats every earlier player, and is at least every player; with no holder every streak is 0 |
| Streak.LongestLosingStreak | src/lib/functions/games.ts:227-271 | "nobody" exactly when every player's streak is 0, which includes the empty list; otherwise the amount is the player's streak, at least 1, and the player is the first listed with the largest streak |
| FixtureFacts.FixtureLikeStore | src/lib/data/games.ts:21-94 | the shipped store has the store's players, types, scores, stakes and zero prizes in order |
| FixtureFacts.PlayerListing | src/lib/data/games.ts:22-45 | the players appear first as Eriksson, Hellström, Wallin |
| FixtureFacts.TypeListing | src/lib/data/games.ts:22-45 | the types appear first as Matematiskt, Reducerat |
| FixtureFacts.PlayerGroup | src/lib/data/games.ts:21-94 | each player has three records, at positions 0/4/7, 1/3/6 and 2/5/8 |
| FixtureFacts.ReducedGroup | src/lib/data/games.ts:21-94 | Reducerat has three records, at positions 2, 7 and 8 |
| FixtureFacts.StoreTotal | src/lib/data/games.ts:21-94 | a sum over the store is the sum of its nine records' amounts |
| FixtureFacts.StoreAmounts | src/lib/data/games.ts:21-94 | the total stake is 7584 and the total prize money 0, so the biggest win is the placeholder |
| FixtureFacts.StoreMostPlayed | src/lib/data/games.ts:21-94 | Matematiskt is the most played type, with 6 records |
| FixtureFacts.StoreNets | src/lib/data/games.ts:21-94 | net results are Eriksson −2544, Hellström −2400 and Wallin −2640 |
| FixtureFacts.StoreStakes | src/lib/data/games.ts:21-94 | stake totals are Eriksson 2544, Hellström 2400 and Wallin 2640, and nobody ever won |
| FixtureFacts.StoreAverages | src/lib/data/games.ts:21-94 | mean scores are Eriksson 8, and Hellström and Wallin 25/3 each |
| FixtureFacts.StoreStreaks | src/lib/data/games.ts:21-94 | every player's losing streak is 3 |
| FixtureFacts.StoreHighestTotalWins | src/lib/data/games.ts:21-94 | the best net result is Hellström's −2400 |
| FixtureFacts.StoreMostLosses | src/lib/data/games.ts:21-94 | the worst net result is Wallin's −2640 |
| FixtureFacts.StoreBestAverage | src/lib/data/games.ts:21-94 | Hellström and Wallin tie on the best mean score; Wallin, listed later, is reported with 25/3 |
| FixtureFacts.StoreWorstAverage | src/lib/data/games.ts:21-94 | the worst mean score is Eriksson's 8 |
| FixtureFacts.StoreLongestLosingStreak | src/lib/data/games.ts:21-94 | all streaks tie at 3, and Eriksson, listed first, is reported |
| FixtureFacts.StoreMostInvestedNoWin | src/lib/data/games.ts:21-94 | every player is a candidate, and Wallin is reported with 2640 |
| FixtureFacts.StoreTypeFigures | src/lib/data/games.ts:21-94 | Matematiskt has 6 records, stake 4896 and score sum 49; Reducerat has 3, 2688 and 25; no prizes |
| FixtureFacts.StoreTypeStats | src/lib/data/games.ts:21-94 | the per-type statistics are (6, 4896, 0, 49) for Matematiskt and (3, 2688, 0, 25) for Reducerat |
| FixtureFacts.StoreSixes | src/lib/data/games.ts:54-77 | six numbers were matched by Eriksson and Hellström, once each, in that order |
| FixtureFacts.StoreMostSixes | src/lib/data/games.ts:54-77 | for score 6, Eriksson and Hellström tie at one record each, and Hellström, listed later, is reported |
| FixtureFacts.StoreNineMatches | src/lib/data/games.ts:21-94 | three records matched nine numbers, with no prize money |

## Left out

- The HTML template strings and the Swedish labels are not modelled. Each statistic returns a datatype, and a sentinel constructor stands for the placeholder text.
- The percentage shares (`Math.round(count / total * 100)`) are not modelled. They are presentation only.
- The `toFixed(1)` rendering of averages is not modelled. It is presentation only.
- `getLongestDryPeriod` is not modelled. It reads the wall clock (`new Date()`) and uses millisecond arithmetic on parsed dates.
- `getGameTypeDistribution` is not modelled. It only formats percentages of `getGameTypeStats`.
- The global `games` import becomes a parameter of every statistic. The store is the constant `GameData.Fixture`.
- Parsing of date strings by `new Date(...)` is not modelled. Dates are `(year, month, day)` values compared chronologically, and malformed date strings, which make the comparator return `NaN`, are not modelled.
- Streak.SortByDate: the in-place `Array.prototype.sort` is a pure stable insertion sort. The mutation of each player's grouped array is not modelled. The arrays are fresh ones built by `push`, so no other value observes it.
- Statistics.PlayerWithHighestTotalWins, Statistics.PlayerWithMostLosses, Statistics.PlayerWithBestScoreAverage and Statistics.PlayerWithWorstScoreAverage require a non-empty list. On an empty list the source's unseeded `reduce` throws a `TypeError`, and that exception is not modelled.
- Statistics.PlayerWithBestScoreAverage and Statistics.PlayerWithWorstScoreAverage compare exact quotients. Floating-point rounding of `totalScore / gameCount`, which could make two different quotients compare equal, is not modelled.
- Statistics.PlayerWithMostScore groups the list of records with the score. The source skips non-matching records inside its `reduce`; both give the same counts in the same first-appearance order.
- Statistics.GameTypeStats returns a map. The insertion order of the returned object's keys is not part of the result.
- JavaScript numbers are modelled as unbounded integers. All sums are exact; the store's amounts are far below 2^53.
- FixtureFacts: the store facts are proved for every list shaped like the store (`LikeStore`), dates aside, and `FixtureLikeStore` places the shipped list among them. The 2025 dates enter only through `GameData.FixtureShape`.
