# Perceptron1L and SpamChecking in Dafny

This project models the core of a small Naive Bayes text classifier written
in Java. The core has two classes.

- `Perceptron1L<T>` keeps a table from each token to a pair of counters
  (success count, fail count) and two running totals. It trains the table
  (`addProb`, `updateCounts`, the online `ratio(arr, success)`), scores
  token arrays (`ratio(arr)`, `success`), ranks tokens (`getItemRatio`,
  `topItems`), folds the table into the totals (`updateTotal`) and prints
  the table (`toString`).
- `SpamChecking` is a `Perceptron1L<String>` with the labels "spam" and
  "ham". It turns a sentence into tokens by lower-casing it and splitting it
  with `split("\\W+")`.

Layout:

- `frequency_table.dfy` (module `FrequencyTable`): the table as a
  `map<T, Counts>` value, what `addProb` does to it (`Accumulate`), one
  labelled training pass (`Credit`), and the sums `updateTotal` adds.
- `ranking.dfy` (module `Ranking`): the smoothed ratio
  (s + 1) / (f + 1), its exact comparison by cross-multiplication, and
  `topItems` as a function (`PlaceFrom`, `PlaceAll`, `TopItems`).
- `inference.dfy` (module `Inference`): the two scores over exact reals.
  `ratio(arr)` uses ((s + 1) / (st + 1)) / ((f + 1) / (ft + 1)) per token.
  `ratio(arr, success)` uses (s + 1 / (st + 1)) / (f + 1 / (ft + 1)). Each
  factor is raised to the token's number of occurrences and the factors are
  multiplied in table order.
- `decimal.dfy` (module `Decimal`): the decimal text of a counter, as used
  by `toString`.
- `perceptron.dfy` (module `Perceptrons`): the classes.
  - `CountTable<T>` is the `HashMap` object. It is a class, so the loader
    constructor can share one table between two models.
  - `Perceptron1L<T>` holds the table, the two totals and the two labels.
    Its methods carry the source's loops and are proved against the
    functions above.
- `spam_checking.dfy` (module `SpamChecking`): the three constructors and
  `newInstance`, which build a `Perceptron1L<string>`, and
  `sentenceToWords` with its lemmas.

The `HashMap`'s iteration order is not specified by Java. Every operation
that walks the table takes it as a parameter `order`, which must list each
key exactly once (`Enumerates`). `SumsIgnoreOrder` shows that the totals
do not depend on it, and `ScoreIgnoresOrder` shows the same for the
score, since exact multiplication is commutative. `topItems` does depend on
it.

Where the source's own comments and its code disagree, the model follows
the code:

- The comment on `toString` (Perceptron1L.java:176) gives the format
  `key(success_count,fail_count)`. The code puts a comma and a space
  between the counters, so the model writes `key(s, f)`.
- The comment on `topItems` (Perceptron1L.java:244) promises "the n highest
  items". The code overwrites the slot it wins and does not shift the rest.
  `TopItemsIsNotTrueTopK` shows that the result can miss a higher-ranked
  token.
- The comment on the default `SpamChecking` constructor
  (SpamChecking.java:13) names the fail label "fail". The code sets "ham".

Other behaviour of the code that the model keeps:

- `split("\\W+")` cuts at every maximal run of non-word characters and drops
  the trailing empty strings. Words followed by separators therefore give
  only the words (`SentenceToWordsOfJoin`): "Buy NOW!!" gives
  `["buy", "now"]`.
- `updateTotal` adds the fail counts to `succeedTotal` and the success
  counts to `failTotal`. This is crosswise, as written.
- `ratio(arr, success)` never skips a token. Its `entrySet().contains(item)`
  test compares an entry with a token, which is never true. Each token is
  therefore counted by `updateCounts` (on a non-empty table) and added once
  more by `addProb`.

## Model

| member | source | states |
|---|---|---|
| Perceptrons.Perceptron1L.constructor | src/main/java/perceptrons/Perceptron1L.java:41-58 | a new model has a fresh empty table, zero totals and the labels "Success" and "Fail" |
| Perceptrons.Perceptron1L.Named | src/main/java/perceptrons/Perceptron1L.java:71-76 | a fresh empty table, zero totals and the given labels |
| Perceptrons.Perceptron1L.Load | src/main/java/perceptrons/Perceptron1L.java:92-99 | the loader's own table object (shared, not copied), the loader's totals and the given labels |
| Perceptrons.AddThroughLoaded | src/main/java/perceptrons/Perceptron1L.java:92-99 | a count added through a loaded model changes the loader's table: the two models share it |
| Perceptrons.Perceptron1L.TransferFrom | src/main/java/perceptrons/Perceptron1L.java:117-126 | the model takes over the other model's labels, totals and table object |
| Perceptrons.Perceptron1L.SetSuccessAndFail | src/main/java/perceptrons/Perceptron1L.java:161-167 | the two labels are set and nothing else changes |
| Perceptrons.Perceptron1L.Size | src/main/java/perceptrons/Perceptron1L.java:170-172 | the size is zero exactly when the table is empty |
| Perceptrons.Perceptron1L.AddProb | src/main/java/perceptrons/Perceptron1L.java:351-363 | the new table is the old one with the deltas added to `name`'s pair, or with `name` inserted at the deltas |
| FrequencyTable.AccumulateEffect | src/main/java/perceptrons/Perceptron1L.java:351-363 | `addProb` adds the deltas to a present key, inserts an absent key at exactly the deltas, leaves every other key alone, and grows the table by one exactly when the key was absent |
| FrequencyTable.AccumulateTwice | src/main/java/perceptrons/Perceptron1L.java:354-359 | two `addProb` calls on one token add up to one call with the summed deltas |
| Perceptrons.Perceptron1L.UpdateCounts | src/main/java/perceptrons/Perceptron1L.java:409-431 | the loop leaves the table equal to one labelled pass over the sample |
| FrequencyTable.CreditAt | src/main/java/perceptrons/Perceptron1L.java:412-430 | after a pass, a token is in the table exactly when it was before or occurs in the sample; the selected counter rose by its number of occurrences from zero or its old value, and the other counter is unchanged |
| FrequencyTable.CreditElsewhere | src/main/java/perceptrons/Perceptron1L.java:412-430 | a token outside the sample keeps its entry, or stays absent |
| Perceptrons.OccurrencesIn | src/main/java/perceptrons/Perceptron1L.java:136-141 | the inner loop counts exactly the occurrences of the key in `arr` |
| Perceptrons.MultiplyAll | src/main/java/perceptrons/Perceptron1L.java:152-155 | the loop's result is the product of the array, taken left to right from 1 |
| Perceptrons.Perceptron1L.ContributionArray | src/main/java/perceptrons/Perceptron1L.java:132-150 | the `counts` array holds each entry's factor raised to its number of occurrences, in table order |
| Perceptrons.Perceptron1L.ScoreOf | src/main/java/perceptrons/Perceptron1L.java:129-158 | the computed ratio is the score of `arr` against the current table and totals, and it is positive |
| Perceptrons.Perceptron1L.Ratio | src/main/java/perceptrons/Perceptron1L.java:129-158 | `ratio(arr)` is the score under the first formula and is positive; the table and totals are unchanged |
| Inference.ScorePositive | src/main/java/perceptrons/Perceptron1L.java:145-148 | every score is positive, so the negative-factor warning can never be printed |
| Inference.ScoreOfUnknownTokens | src/main/java/perceptrons/Perceptron1L.java:135-157 | input whose tokens are all absent from the table (the empty input included) scores exactly 1 |
| Inference.UnknownTokenIgnored | src/main/java/perceptrons/Perceptron1L.java:135-141 | appending a token that is not in the table leaves either score unchanged |
| Inference.ScoreIgnoresOrder | src/main/java/perceptrons/Perceptron1L.java:132-155 | the score is the same for every iteration order of the table |
| Inference.KeyProdOfPermutation | src/main/java/perceptrons/Perceptron1L.java:152-155 | a product of per-key factors is the same over any two orderings of the same keys |
| Inference.BalancedFactorIsSmoothedRatio | src/main/java/perceptrons/Perceptron1L.java:142-144 | with equal totals, a token's factor in `ratio(arr)` is its smoothed ratio (s + 1) / (f + 1) |
| Inference.FormulasDiffer | src/main/java/perceptrons/Perceptron1L.java:307-309 | the bracketing of `ratio(arr, success)` differs from `ratio(arr)`: for a token seen once as a success with totals 1 and 1, the factors are 3 and 2 |
| Perceptrons.Perceptron1L.Success | src/main/java/perceptrons/Perceptron1L.java:205-208 | the verdict is true exactly when the score of `ratio(arr)` exceeds 1 |
| Perceptrons.Perceptron1L.RatioWithLabel | src/main/java/perceptrons/Perceptron1L.java:293-337 | the result is the second formula's score against the table as it was before training; the table becomes the online-training update of the old table |
| Perceptrons.OnlineTrainingAt | src/main/java/perceptrons/Perceptron1L.java:312-334 | after `ratio(arr, success)` each token of `arr` has its labelled counter raised by twice its occurrences on a non-empty table, or once on an empty one; the other counter and every other token are unchanged |
| FrequencyTable.CreditTwiceAt | src/main/java/perceptrons/Perceptron1L.java:324-334 | two passes over the same tokens count every occurrence twice |
| Perceptrons.Perceptron1L.SuccessWithLabel | src/main/java/perceptrons/Perceptron1L.java:220-223 | the verdict is true exactly when the pre-training online score exceeds 1, with the same training as `ratio(arr, success)` |
| Perceptrons.Perceptron1L.UpdateTotal | src/main/java/perceptrons/Perceptron1L.java:232-237 | `succeedTotal` grows by the sum of the fail counts and `failTotal` by the sum of the success counts, crosswise as written; the table is unchanged |
| FrequencyTable.SumsIgnoreOrder | src/main/java/perceptrons/Perceptron1L.java:233-236 | the sums do not depend on the iteration order of the table |
| FrequencyTable.EnumerationsArePermutations | src/main/java/perceptrons/Perceptron1L.java:233 | any two iteration orders of one table are permutations of each other |
| FrequencyTable.SumsOfPermutation | src/main/java/perceptrons/Perceptron1L.java:233-236 | the success and fail sums agree on any two orderings of the same tokens |
| Perceptrons.UpdateTotalTwice | src/main/java/perceptrons/Perceptron1L.java:232-237 | running `updateTotal` twice adds both sums twice, crosswise, so when some token has a fail count the second run raises `succeedTotal` beyond the first: the totals accumulate rather than being recomputed |
| FrequencyTable.FailSumPositive | src/main/java/perceptrons/Perceptron1L.java:234 | one token with a fail count makes the fail sum positive |
| FrequencyTable.SuccessSumPositive | src/main/java/perceptrons/Perceptron1L.java:235 | one token with a success count makes the success sum positive |
| Perceptrons.Perceptron1L.GetItemRatio | src/main/java/perceptrons/Perceptron1L.java:374-391 | the result is the token's smoothed ratio, or 1 for an absent token; it exceeds 1 exactly when the token is present with more successes than fails |
| Ranking.SmoothedAboveOne | src/main/java/perceptrons/Perceptron1L.java:383-390 | the ratio of an absent token's substitute is 1, and a pair's ratio exceeds 1 exactly when successes exceed fails |
| Ranking.RatioBelowIsRatioComparison | src/main/java/perceptrons/Perceptron1L.java:252-265 | comparing by cross-multiplication is the same as comparing the two smoothed ratios |
| Ranking.RatioBelowTransitive | src/main/java/perceptrons/Perceptron1L.java:265 | the strict ratio comparison is transitive |
| Ranking.BeatsEmptySlot | src/main/java/perceptrons/Perceptron1L.java:258-265 | an entry beats an empty slot, which compares as (0, 0), exactly when it has more successes than fails |
| Perceptrons.Perceptron1L.TopItems | src/main/java/perceptrons/Perceptron1L.java:246-279 | the nested loops return the ranking function's list: at most `num` distinct tokens of the table, each with more successes than fails, in non-increasing smoothed ratio; empty exactly when no token has more successes than fails |
| Ranking.TopItemsRanked | src/main/java/perceptrons/Perceptron1L.java:246-279 | the same guarantees for every iteration order of the table |
| Ranking.PlacePreservesRanked | src/main/java/perceptrons/Perceptron1L.java:256-275 | one pass of the inner loop keeps the list ranked, distinct and within `num`, and adds only the new key |
| Ranking.PlaceAllRanked | src/main/java/perceptrons/Perceptron1L.java:251-276 | the outer loop keeps the list ranked and holds only keys it was given |
| Ranking.PlaceSkipsLosers | src/main/java/perceptrons/Perceptron1L.java:256-275 | an entry with no more successes than fails never enters the list |
| Ranking.PlaceNeverShrinks | src/main/java/perceptrons/Perceptron1L.java:266-270 | one pass of the inner loop never shortens the list |
| Ranking.PlaceAllNeverShrinks | src/main/java/perceptrons/Perceptron1L.java:251-276 | the outer loop never shortens the list |
| Ranking.PlaceAllEmpty | src/main/java/perceptrons/Perceptron1L.java:249-276 | starting empty, the list stays empty exactly when no entry has more successes than fails |
| Ranking.TopItemsIsNotTrueTopK | src/main/java/perceptrons/Perceptron1L.java:265-270 | overwriting instead of shifting drops a higher-ranked token: ratios 3, 2, 4 met in that order with `num = 2` give the 4 and the 2 |
| Perceptrons.Perceptron1L.ToString | src/main/java/perceptrons/Perceptron1L.java:179-192 | the text is "{", the entries as `key(s, f)` joined by commas in table order, then "}"; it is "{}" exactly for the empty table |
| Perceptrons.CloseEntries | src/main/java/perceptrons/Perceptron1L.java:186-189 | stripping the last comma of a non-empty list and closing the brace gives the comma-separated list in braces, and "{}" only for no entries |
| Perceptrons.CommasThenStrip | src/main/java/perceptrons/Perceptron1L.java:182-187 | the loop's text, each entry followed by a comma, is the comma-separated list plus one final comma |
| Perceptrons.JoinEntriesEmpty | src/main/java/perceptrons/Perceptron1L.java:180-189 | the comma-separated list is empty exactly when there are no entries |
| Decimal.NatTextRoundTrip | src/main/java/perceptrons/Perceptron1L.java:184 | a counter's decimal text is non-empty, all digits, reads back as the counter, and has no leading zero except for 0 itself |
| SpamChecking.Create | src/main/java/perceptrons/SpamChecking.java:18-22 | a fresh empty table, zero totals and the labels "spam" and "ham" |
| SpamChecking.CreateNamed | src/main/java/perceptrons/SpamChecking.java:32-37 | a fresh empty table, zero totals and the given labels |
| SpamChecking.CreateLoaded | src/main/java/perceptrons/SpamChecking.java:49-56 | the loader's own table object (shared), the loader's totals and the given labels |
| SpamChecking.NewInstance | src/main/java/perceptrons/SpamChecking.java:59-64 | a fresh default spam checker: empty table, zero totals, "spam" and "ham" |
| SpamChecking.LowerChar | src/main/java/perceptrons/SpamChecking.java:75 | lower-casing leaves no upper-case letter, keeps word characters and separators apart, and changes nothing else |
| SpamChecking.Lower | src/main/java/perceptrons/SpamChecking.java:75 | lower-casing keeps the length, maps each character by `LowerChar`, leaves no upper-case letter, and changes nothing in a string that has none |
| SpamChecking.SentenceToWords | src/main/java/perceptrons/SpamChecking.java:73-78 | a sentence without a separator is one token, its lower-cased self; with a separator the tokens are empty or end in a non-empty token |
| SpamChecking.SentenceToWordsRuns | src/main/java/perceptrons/SpamChecking.java:73-78 | the lower-cased sentence is cut at its maximal separator runs into word pieces that, interleaved with the runs, rebuild it, and the tokens are those pieces, without the trailing empty ones when there is a separator |
| SpamChecking.SentenceToWordsOfWeave | src/main/java/perceptrons/SpamChecking.java:73-78 | any writing of the lower-cased sentence as word pieces and non-empty separator runs, with only the outer pieces empty, determines the tokens: those pieces, without the trailing empty ones when there is a run |
| SpamChecking.SentenceToWordsTokens | src/main/java/perceptrons/SpamChecking.java:73-78 | the tokens, written one after the other, are exactly the word characters of the lower-cased sentence; every token is lower case and made of word characters; no token after the first is empty |
| SpamChecking.SentenceToWordsEnds | src/main/java/perceptrons/SpamChecking.java:73-78 | the empty sentence gives one empty token; a non-empty sentence without word characters gives none; otherwise the first token is empty exactly when the sentence starts with a separator |
| SpamChecking.SentenceToWordsOfJoin | src/main/java/perceptrons/SpamChecking.java:73-78 | lower-case words joined by single spaces, followed by any run of separators, split back into exactly those words, with no trailing empty token |
| SpamChecking.JavaSplit | src/main/java/perceptrons/SpamChecking.java:77 | without a separator the input is the only token; with one, the tokens are the pieces between separator runs up to the last non-empty one, and every piece after them is empty |
| SpamChecking.JavaSplitRuns | src/main/java/perceptrons/SpamChecking.java:77 | every string is cut at its maximal separator runs: word-only pieces, only the outer ones possibly empty, and non-empty separator runs that interleaved rebuild the string; the tokens are those pieces, without the trailing empty ones when there is a separator |
| SpamChecking.JavaSplitOfWeave | src/main/java/perceptrons/SpamChecking.java:77 | a string written as word pieces and non-empty separator runs, with only the outer pieces empty, splits into exactly those pieces, without the trailing empty ones when there is a run |
| SpamChecking.WeaveFields | src/main/java/perceptrons/SpamChecking.java:77 | the cut at maximal separator runs is unique: any such writing of a string is its `Fields` and `Gaps` |
| SpamChecking.GapsWeave | src/main/java/perceptrons/SpamChecking.java:77 | the pieces and the separator runs of a string, interleaved, give the string back, and every run is non-empty |
| SpamChecking.JavaSplitFlatten | src/main/java/perceptrons/SpamChecking.java:77 | the tokens of `split("\\W+")`, written one after the other, are exactly the input's word characters |
| SpamChecking.JavaSplitTokens | src/main/java/perceptrons/SpamChecking.java:77 | every token holds word characters only, and no upper-case letter when the input has none; no token after the first is empty |
| SpamChecking.JavaSplitEnds | src/main/java/perceptrons/SpamChecking.java:77 | "" splits into one empty token, separators only into none; the first token is empty exactly when the input starts with a separator; a split at a separator never ends in an empty token |
| SpamChecking.JavaSplitOfJoin | src/main/java/perceptrons/SpamChecking.java:77 | splitting a join of words by single spaces, followed by separators, gives back the words |
| SpamChecking.DropTrailingEmpty | src/main/java/perceptrons/SpamChecking.java:77 | dropping trailing empty tokens leaves a prefix that is empty or ends in a non-empty token, and removes only empty tokens |
| SpamChecking.FieldsFlatten | src/main/java/perceptrons/SpamChecking.java:77 | the pieces between separator runs, written one after the other, are the word characters of the input |
| SpamChecking.FieldsShape | src/main/java/perceptrons/SpamChecking.java:77 | only the first and the last piece can be empty, and the first is empty exactly when the input starts with a separator |
| SpamChecking.FieldsChars | src/main/java/perceptrons/SpamChecking.java:77 | every piece holds word characters only, with no upper-case letter when the input has none |

## Left out

- The `println` warning for a negative factor in `ratio(arr)` is not modelled as output. `ScorePositive` shows it cannot happen.
- Doubles are modelled as exact reals. Rounding, `Infinity` and `NaN` from `Math.pow` and the divisions are not modelled. `topItems` compares ratios exactly by cross-multiplication, where Java compares rounded doubles. Two ratios closer than the spacing of doubles near them compare equal in Java, and this already happens within `int` range: the pairs (2^30, 2^30 - 1) and (2^30 + 1, 2^30) have the ratios 1 + 2^-30 and 1 + 1/(2^30 + 1), which round to the same double, so Java's `comparedRatio < ratio` is false where `RatioBelow` holds.
- Counters and totals are unbounded naturals. Java's 32-bit `int` wrap-around is not modelled.
- Perceptrons.Perceptron1L.AddProb: the deltas are natural numbers. Java accepts negative `int` deltas, which no caller in the repository passes; they would break the non-negative counts that the rest of the model relies on.
- The `HashMap` iteration order is a parameter `order` that lists every key once. Java's actual hash order is not modelled.
- Each `int[]` pair that `updateCounts` and `addProb` change in place is modelled as replacing the map entry. No two keys share an array, so the table's contents are the same. Aliasing of a pair handed out through `getRep()` is not modelled. The table itself is shared (`CountTable`).
- Perceptrons.Perceptron1L.GetRep: returns the live table and has no contract of its own. The sharing it enables is stated by `Load`, `CreateLoaded` and `AddThroughLoaded`.
- `T[]` arguments are sequences. Java's `assert ... != null` checks have no counterpart, because Dafny references are never null.
- Perceptrons.Perceptron1L.TopItems: requires `num > 0`, as the source's `assert` does. With Java assertions disabled, `num == 0` returns an empty list and a negative `num` makes `new ArrayList<>(num)` throw `IllegalArgumentException`; neither case is modelled.
- `toString` of a key is a parameter `keyText`, because Java's `Object.toString` of `T` is not visible.
- SpamChecking.LowerChar: models `toLowerCase` on ASCII letters only. Unicode case mapping and locale rules are not modelled.
- `SpamChecking` is a subclass that adds no state. Its constructors and `newInstance` are modelled as methods returning a `Perceptron1L<string>`. Dynamic dispatch is not modelled, and `newInstance` takes no receiver because it does not use one.
- The abstract `newInstance` of `Perceptron1L` and the `Perceptron` interface declare no behaviour of their own.
- The interactive driver (CSV and `Scanner` input, the per-label training fold and the removal of the empty token) is not part of this model.
