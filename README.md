# ARL recommender for a service marketplace: a Dafny model

The repository builds a service recommender for an online services marketplace.
It uses association rule learning over the services that customers bought.
This project models the parts of `ARMUT_ARL_PROJE.py` that the script computes itself:

- **Key composition** (`keys.dfy`, module `Keys`). A service is `str(ServiceId) + "_" + str(CategoryId)`. The same ServiceId names different services in different categories. A basket is `str(UserId) + "_" + year-month`. The model renders ids as Python's `str` does, with a `-` for negatives. It proves that splitting a key at its first `_` gives back its parts. So different services, and different baskets, never share a key.
- **Basket × service incidence** (`pivot.dfy`, module `Pivot`). The prepared (BasketID, Service) rows are grouped and counted. The counts are unstacked onto the basket × service grid, missing cells are filled with 0, and every count is binarised. Every cell is 0 or 1. A cell is 1 exactly when some input row has that pair. The table depends only on which pairs occur. From purchases to table: a cell is 1 exactly when that user bought that service of that category in that month.
- **The recommendation query `arl_recommender`** (`recommender.dfy`, module `Recommender`). It is modelled as methods with loops:
  - the rules are sorted by lift, largest first;
  - nested loops walk the sorted antecedents and append a consequent set for every match;
  - the appended sets are flattened through a set, listed in an unspecified order, and cut with Python's slice `[:rec_count]`.
  The result has no repeats. It has `PrefixLength(|pool|, rec_count)` items: at most `rec_count` when that is non-negative, and exactly `rec_count` when the pool is large enough. If `product_id` is in no antecedent, the result is empty. Every item comes from the pool, and the pool is characterised in both directions.

The query looks up the consequent with `sorted_rules.iloc[i]`, where `i` is the row's original label. That is a positional lookup in the sorted table. The model keeps this lookup exactly as written, so the pool is "the consequents of the row at position `rowLabel`", not those of the matched rule. See "## Findings".

The code sorts every rule by lift alone, deduplicates through an unordered set, and slices with any integer count, negative ones included.

## Model

| member | source | states |
|---|---|---|
| Keys.IntToString | ARMUT_ARL_PROJE.py:39 | `str()` of an id is non-empty and never contains `_` |
| Keys.NatToString | ARMUT_ARL_PROJE.py:39 | the rendering of a natural number is one or more decimal digits, with a leading `0` only for 0 itself; `Keys.NatToStringValue` pins their value to the number |
| Keys.IdRoundTrip | ARMUT_ARL_PROJE.py:39 | reading back the rendering of any integer id (negative ones too) gives the id |
| Keys.NatToStringValue | ARMUT_ARL_PROJE.py:39 | the decimal digits written for a natural number have that number as their value |
| Keys.SplitAtFirstOfJoin | ARMUT_ARL_PROJE.py:39 | joining two parts with one `_`, when the left part has none, is undone by splitting at the first `_` |
| Keys.ServiceKey | ARMUT_ARL_PROJE.py:37-39 | the service key splits back into exactly its (ServiceId, CategoryId) |
| Keys.BasketKey | ARMUT_ARL_PROJE.py:44-48 | the basket key splits back into exactly its (UserId, year-month), whatever the year-month string holds |
| Keys.ServiceKeyInjective | ARMUT_ARL_PROJE.py:18-20 | equal service keys mean equal ServiceId and equal CategoryId, so services of different categories stay apart |
| Keys.BasketKeyInjective | ARMUT_ARL_PROJE.py:41-48 | equal basket keys mean the same user and the same year-month |
| Keys.Prepare | ARMUT_ARL_PROJE.py:39-48 | one prepared row per purchase, whose two keys split back into that purchase's user, month, service and category |
| Pivot.Count | ARMUT_ARL_PROJE.py:68 | the count of a (basket, service) pair is its multiplicity in the input |
| Pivot.GroupCount | ARMUT_ARL_PROJE.py:68 | there is a group exactly for each pair that occurs, and its count is positive and equals the pair's multiplicity |
| Pivot.BasketIds | ARMUT_ARL_PROJE.py:68 | the row labels are empty iff there are no input rows |
| Pivot.BasketIdsOccur | ARMUT_ARL_PROJE.py:68 | a basket id is a row label iff some input row has it |
| Pivot.Services | ARMUT_ARL_PROJE.py:68 | the column labels are empty iff there are no input rows |
| Pivot.ServicesOccur | ARMUT_ARL_PROJE.py:68 | a service key is a column label iff some input row has it |
| Pivot.UnstackCounts | ARMUT_ARL_PROJE.py:68 | after grouping, counting, unstacking and filling with 0, every cell of the basket × service grid holds the number of input rows with that pair (0 for a combination that never occurs) |
| Pivot.Binarize | ARMUT_ARL_PROJE.py:68 | same cells as the count table; every cell is 0 or 1, and 1 iff the count was positive |
| Pivot.Incidence | ARMUT_ARL_PROJE.py:68 | the cells are all basket × service combinations present; every cell is 0 or 1; a cell is 1 iff its pair occurs in the input |
| Pivot.SameLabels | ARMUT_ARL_PROJE.py:68 | inputs with the same pairs have the same row and column labels |
| Pivot.IncidenceIgnoresOrderAndRepeats | ARMUT_ARL_PROJE.py:68 | inputs with the same pairs, in any order and repeated any number of times, give the same table |
| Pivot.OccurringPairIsOne | ARMUT_ARL_PROJE.py:68 | a pair is a cell with value 1 iff it occurs in the input |
| Pivot.PreparedEntryOf | ARMUT_ARL_PROJE.py:39-48 | the keys of (u, ym, s, c) are a prepared row iff some purchase is exactly (u, s, c, ym) |
| Pivot.PurchaseIncidence | ARMUT_ARL_PROJE.py:39-68 | the cell of basket (u, ym) and service (s, c) is 1 iff some purchase is user u buying service s of category c in month ym |
| Recommender.InsertByLift | ARMUT_ARL_PROJE.py:88 | inserting into a lift-ordered table keeps it lift-ordered and adds exactly the new row |
| Recommender.SortByLift | ARMUT_ARL_PROJE.py:88 | the result is a permutation (same multiset) of the rows with lift non-increasing |
| Recommender.SortedTable | ARMUT_ARL_PROJE.py:88 | the sorted table is a permutation of the rules with their labels 0..n-1, has lift non-increasing, and each row's label is the input position of its rule |
| Recommender.CollectConsequents | ARMUT_ARL_PROJE.py:89-93 | the nested loops append exactly the sets `Appended` describes: one for each row whose antecedent holds the product, taken from position `rowLabel` |
| Recommender.AppendedMembers | ARMUT_ARL_PROJE.py:90-93 | a set is appended iff some row whose antecedent holds the product has a label whose position in the sorted table holds that consequent |
| Recommender.AppendedLength | ARMUT_ARL_PROJE.py:90-93 | exactly one set is appended per matching row: a row contributes at most once |
| Recommender.UnionMembers | ARMUT_ARL_PROJE.py:95 | an item is in the flattened set iff it is in one of the appended sets |
| Recommender.PoolMembers | ARMUT_ARL_PROJE.py:90-95 | an item is in the pool iff it is a consequent at position `rowLabel` of some sorted row whose antecedent holds the product |
| Recommender.NoMatchEmptyPool | ARMUT_ARL_PROJE.py:90-95 | a product in no antecedent has an empty pool |
| Recommender.PrefixLength | ARMUT_ARL_PROJE.py:96 | the length of Python's `xs[:stop]` is never more than `len(xs)` |
| Recommender.FlattenAndTruncate | ARMUT_ARL_PROJE.py:95-96 | no repeated item; every item is from the union of the lists; length is that of the slice; all of the union when the slice keeps everything |
| Recommender.ArlRecommender | ARMUT_ARL_PROJE.py:78-96 | no repeats; every item is in the pool and comes from position `rowLabel` of a matching sorted row; at most `rec_count` items and exactly `rec_count` when the pool is large enough; the whole pool when `rec_count` covers it; slice length for negative counts; empty when the product is in no antecedent |
| Recommender.SortingKeepsMatchedItems | ARMUT_ARL_PROJE.py:88-93 | sorting does not change the consequent items of the rules that match |
| Recommender.CollectMatchedConsequents | ARMUT_ARL_PROJE.py:93 | with the lookup corrected, the appended sets' items are exactly the consequents of the matched rows |
| Recommender.RecommendByLabel | ARMUT_ARL_PROJE.py:78-96 | with the lookup corrected: no repeats, every item is a consequent of a rule whose antecedent holds the product, slice length, all of them when the count covers them |
| Recommender.SortByLiftOfOrdered | ARMUT_ARL_PROJE.py:88 | a table already in non-increasing lift order is left as it is |
| Recommender.AlreadyOrderedLookupIsHarmless | ARMUT_ARL_PROJE.py:88-93 | when the input is already lift-ordered, the positional lookup gives exactly the matched rules' consequents |
| Recommender.ExampleSortedTable | ARMUT_ARL_PROJE.py:88 | {a}→{b} (lift 1) and {c}→{d} (lift 2) sort to label 1, then label 0 |
| Recommender.PositionalLookupExample | ARMUT_ARL_PROJE.py:90-95 | for those two rules and product "a", the pool is {"d"} while the matched rule's consequent is {"b"} |

## Findings

| source | as written | input that shows it | evidently intended | confidence | as-written member | corrected member |
|---|---|---|---|---|---|---|
| ARMUT_ARL_PROJE.py:90-93 | `i` from `.items()` is the original row label, but `sorted_rules.iloc[i]` reads row position `i` of the sorted table, so the appended consequent belongs to another rule once sorting has moved the rows | rules {a}→{b} with lift 1 and {c}→{d} with lift 2, product "a": "d" is recommended, while the only rule with "a" in its antecedent gives "b" | append the consequents of the rule whose antecedent matched (`loc[i]`, or the same row) | high (not executed) | Recommender.PositionalLookupExample | Recommender.RecommendByLabel |

`Recommender.ArlRecommender` keeps the as-written lookup, because that is what the script computes. `Recommender.RecommendByLabel` is the corrected query, proved to recommend only consequents of matching rules. `Recommender.AlreadyOrderedLookupIsHarmless` shows that the two agree when the rule table is already in lift order.

## Left out

- Reading the CSV and the pandas display option (lines 26, 34): file I/O and configuration.
- Parsing CreateDate and formatting it with `strftime("%Y-%m")` (lines 46-47): library date handling. The year-month string is an opaque field of `Keys.Purchase`.
- `apriori` and `association_rules` (lines 27, 72-73) are library calls whose code is not part of this model. The rule table is an input sequence. Support and confidence are not modelled. Lift is a `real` used only for ordering.
- The example call and `print` (lines 99-100): presentation only.
- Recommender.SortByLift: pandas' `sort_values` uses quicksort by default and does not promise any order among equal lifts. The model uses a stable insertion sort, so equal lifts keep their input order. Because of the positional lookup, which consequents are collected can depend on that order. The contracts on length, repeats and emptiness do not depend on it.
- Recommender.FlattenAndTruncate: Python's iteration order of a set is not modelled. The order of the list is an arbitrary choice (`:|`), so contracts speak of membership and length only.
- Recommender.ArlRecommender: the default `rec_count=1` is not modelled (every call passes a count), and a count that is not an integer (such as `None`) is not modelled.
- Recommender.Rule: antecedents and consequents are sets, as mlxtend's frozensets are. The order in which `list(product)` lists them is not modelled. It cannot change which sets are appended, because at most one element equals `product_id`.
- Pivot.Incidence: pandas sorts the row and column labels and drops rows with missing keys. The model has no missing keys, and it gives the table as a map from (basket, service) to its cell, so label order is not modelled.
- Keys.IntToString: the ids are read through `df.values`, and the model assumes they arrive as Python integers. If pandas turned them into floats (`"4.0"`), that is not modelled.
