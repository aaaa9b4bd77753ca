# Mutual fund portfolio container

A Dafny model of the in-memory portfolio of the Portfolio Management System
(`src.cpp`). The model covers the `MutualFund` container, which holds an
ordered list of financial records. Each record has a name, a current value and
a kind. The kind is `Asset` or `Liability`, which are the two subclasses of
`FinancialEntity` in the source.

Four operations are modelled:

- appending a record (`addEntity`);
- summing the values (`getTotalValue`);
- sorting by value, largest first (`sortPortfolioByValue`);
- exact-name lookup returning the first match or nothing (`findEntityByName`).

Modules:

- `Wrappers` holds `Option`, which stands in for a pointer that may be null.
- `Entities` holds the tagged record `Entity(name, currentValue, kind)`. It
  replaces the abstract base class and its two subclasses. The source's
  accessors `getName` and `getCurrentValue` return the fields set by the
  constructor, so they are the datatype's fields here.
- `Totals` holds the reference sum, a right fold, and its algebra:
  concatenation, removal of one record, and invariance under permutation.
- `ValueOrder` holds the non-increasing order on values, the insertion step
  used by the sort, and the fact that all value-ordered arrangements of the
  same records have the same value sequence.
- `Search` holds the first-match scan and its characterisation.
- `MutualFunds` holds the container and its four operations, plus lemmas that
  relate them to each other.

A `double` is modelled as an exact `real`.

The repository also describes a richer ledger. That design has
merge-on-duplicate names, a sign-consistency reclassification policy, an
`Equity` kind, buy/sell with no overdraft and comma-separated file
persistence. None of that is present in `src.cpp`, and this model follows the
code. Adding an existing name appends a second record instead of merging.
There are only two kinds. Values of either sign are stored as given.

## Model

| member | source | states |
|---|---|---|
| MutualFunds.NewFund | src.cpp:49 | A new fund carries the given fund name and holds no records. |
| MutualFunds.NewFundIsEmpty | src.cpp:49 | A new fund totals zero, and lookup of any name in it finds nothing. |
| MutualFunds.AddEntity | src.cpp:51-53 | Adding a record appends it at the end. The length grows by exactly one, every earlier record keeps its position and contents, and the fund name is unchanged. |
| MutualFunds.AddEntityNoDedup | src.cpp:51-53 | Adding never de-duplicates. The number of records carrying the new record's name grows by exactly one, even when that name is already present. |
| MutualFunds.AddDuplicateFindsEarlier | src.cpp:77-82 | After a record with an already-present name is added, lookup by that name still returns the earlier record at the same position. |
| MutualFunds.AddNewFindsIt | src.cpp:77-82 | After a record with a new name is added, lookup by that name returns exactly that record, with its value and kind. |
| MutualFunds.GetTotalValue | src.cpp:63-69 | The front-to-back accumulation starting from zero equals the reference sum of all stored values. An empty portfolio totals zero. |
| MutualFunds.AddEntityTotal | src.cpp:63-69 | After a record is added, the total is the old total plus that record's stored value. The kind is ignored, so a liability is not sign-flipped. |
| Totals.SumPermutation | src.cpp:63-69 | The total depends only on which records are held, not on their order. This holds for exact reals only; see "Left out" on `double`. |
| MutualFunds.SortPortfolioByValue | src.cpp:71-75 | Sorting yields a permutation of the records in which values never increase from one position to the next. The total and the fund name are unchanged. |
| ValueOrder.Insert | src.cpp:72-74 | Inserting a record into a value-ordered list keeps it value-ordered and adds exactly that record to its contents. The comparison is the source's `a > b` on current values. |
| ValueOrder.SortedOrderIsUnique | src.cpp:71-75 | Any two value-ordered arrangements of the same records have the same value at every position. So sorting the result of a sort again gives the same sequence of values. Only the values are promised, because the order of equal-valued records is unspecified. |
| MutualFunds.FindEntityByName | src.cpp:77-82 | Lookup returns nothing exactly when no record's name equals the name sought. Otherwise it returns the record at the lowest position with that exact name. |
| Search.FindIndex | src.cpp:77-82 | The position returned is the first one holding the name, and nothing is returned exactly when the name occurs nowhere. |
| Search.FindFrom | src.cpp:78-80 | A scan from a given position stops at the first matching record at or after it. It returns nothing only when no record from that position on matches. |
| Search.FoundIffCounted | src.cpp:77-82 | A name is found exactly when at least one record carries it. |

## Left out

- `showDetails` and `showPortfolio` (src.cpp:27-30, 38-41, 55-61) only write to the console and change no state.
- The `fast` and `ll` macros and the header include (src.cpp:1-4) are build boilerplate.
- `unique_ptr` ownership and the virtual destructor (src.cpp:15, 46) are memory management. Records are values in a sequence here.
- `findEntityByName` returns a raw pointer into the vector. The model returns the record itself (`FindEntityByName`) or its position (`Search.FindIndex`). Writing through the pointer is not modelled.
- IEEE `double` rounding, NaN and infinity are not modelled, because values are exact reals. A NaN would also break `std::sort`'s strict-weak-ordering requirement.
- Totals.SumPermutation: the total is order-independent only because values are exact reals. With `double`, the front-to-back total at src.cpp:66 depends on the order: `[1e16, -1e16, 1.0]` totals 1.0, but the sorted `[1e16, 1.0, -1e16]` totals 0.0. The same applies to the unchanged-total clause of `SortPortfolioByValue`.
- MutualFunds.AddEntity: a null entity cannot be represented, because an `Entity` is a value. The source accepts an empty `unique_ptr` and stores it. `getTotalValue` (src.cpp:66), the sort comparator (src.cpp:73) and the lookup predicate (src.cpp:79) would then dereference null, which is undefined behaviour.
- The fund name (src.cpp:45, 49) is only stored and printed. The model carries it as a field that no operation changes.
- `SortPortfolioByValue` is specified only by permutation and non-increasing values, because `std::sort` is not stable. Its body is an insertion sort, one of the implementations that meet this contract; it does not model introsort's exact placement of equal-valued records.
- `SortPortfolioByValue` sorts in place in the source. The model returns the reordered fund as a new value.
- Merge-on-duplicate names, sign-consistency reclassification, the `Equity` kind, buy/sell and file save/load are not in this code, so they are not modelled.
