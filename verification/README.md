# Personal finance dashboard — a Dafny model of its core

The dashboard reads a bank statement, cleans it into a ledger and
categorizes every transaction by keywords in its description. It then
advises on discretionary spending per category. This project models that
core as pure Dafny functions and proves what the code promises about
them.

The modules follow the program's structure:

- `Amounts` (`amounts.dfy`) turns an amount cell into a number. Every
  whitespace character and comma is deleted. An empty remainder means "no
  value". Anything else must be a decimal number, or the whole load fails.
  A fixed-point formatter is the inverse used to state round trips.
- `Ledger` (`ledger.dfy`) is the load-and-munge transform. It drops rows
  without a date and fills a missing description with "Miscellaneous". It
  converts the three amount columns in order, failing at the first bad
  cell, and turns missing withdrawals and deposits into zero. Dates that do
  not parse become "no date". Rows are sorted by date, with undated rows
  last. The balance column is recomputed as the running total of deposits
  minus withdrawals.
- `DateFilter` (`datefilter.dfy`) keeps the rows dated within
  `[start, end]`.
- `Categorizer` (`categorizer.dfy`) holds the 66 keyword rules, in table
  order. A description is upper-cased and the first rule whose keyword
  occurs in it decides the category. Otherwise a 16-digit word gives
  "Card Reference", a 12-digit word gives "Account", and anything else
  gives "Others". The exact text "Miscellaneous" short-circuits to
  Miscellaneous.
- `Recommendations` (`recommendations.dfy`) builds the advice table. It
  keeps the dated, non-essential withdrawals, sums them per category, and
  gives each category its share of the total. The tier is high-burn above
  30%, above-average above the mean share (with a cap 10% below the
  total), and well-controlled otherwise. Rows are ordered by total,
  largest first.
- `Display` (`display.dfy`) pages the table. The first `max_recs` rows
  become cards and the rest go behind an expander. Each card gets an icon
  chosen by the same thresholds as the tier.
- `Dashboard` (`dashboard.dfy`) is the page's pipeline: normalise, filter
  by date, categorize, advise.
- `Sequences` (`sequences.dfy`) and `Wrappers` (`wrappers.dfy`) are
  generic helpers: insertion sort, filter, map, sums, permutations, Option
  and Result.

Where the code does something other than one might expect, the model
follows the code:

- An amount cell that is not a number after stripping stops the load with
  an error. It does not become zero.
- Negative amounts are accepted as they are.
- The sorts are not stable. Contracts state only a permutation and an
  order.
- Only a MISSING description becomes "Miscellaneous". A present but blank
  one stays blank.
- The digit fallbacks use `\b` word boundaries: a letter or underscore
  next to the digits also blocks a match.
- A DATE cell that is present but unparsable survives the drop of undated
  rows. It becomes "no date" and sorts after every dated row.

## Model

| member | source | states |
|---|---|---|
| Amounts.Strip | data_munger.py:36 | the cleaned cell holds no whitespace or comma and is no longer than the cell |
| Amounts.StripAppend | data_munger.py:36 | deleting separators works piecewise: cleaning `a + b` is cleaning `a`, then `b` |
| Amounts.StripKeepsPlainText | data_munger.py:36 | text with no separator is left unchanged, so cleaning twice is cleaning once |
| Amounts.SeparatorIgnored | data_munger.py:32-39 | inserting a space or comma anywhere in a cell never changes how it converts |
| Amounts.ParseDecimal | data_munger.py:38 | a negative number comes only from text that starts with a minus sign |
| Amounts.ParseAmount | data_munger.py:32-39 | the result is "no value" exactly when nothing is left after cleaning, and an error exactly when the cleaned text is not a number; the error carries the cleaned text |
| Amounts.UnsignedRoundTrip | data_munger.py:38 | unsigned decimal text (digits, optionally a point and more digits) converts to the value of its digits |
| Amounts.TextRoundTrip | data_munger.py:38 | signed decimal text converts back to the value it was written from, negative values included |
| Amounts.FixedRoundTrip | data_munger.py:38 | an amount written with `k` decimals converts back to that amount |
| Amounts.AmountRoundTrip | data_munger.py:32-39 | a cell holding the written form of an amount converts to that amount |
| Amounts.GroupedAmountExample | data_munger.py:32-39 | the cell " 1,234.50 " converts to 1234.5 |
| Amounts.ParsedAlphabet | data_munger.py:38 | text that converts holds only digits and points, plus a sign at the front |
| Amounts.UnsignedAccepts | data_munger.py:38 | unsigned text converts exactly when it holds only digits and points, at most one point, and at least one digit |
| Amounts.DecimalAccepts | data_munger.py:38 | text converts exactly when it is an optional sign followed by such unsigned text |
| Amounts.PointValue | data_munger.py:38 | text with a point denotes all its digits read as one whole number, with the point then moved left past the fraction digits |
| Amounts.WholeValue | data_munger.py:38 | text of digits alone denotes the whole number they spell |
| Amounts.SignValue | data_munger.py:38 | a leading plus is ignored, and a leading minus negates and converts exactly when the rest does |
| Amounts.PlusSignExample | data_munger.py:38 | "+5" converts to 5 |
| Amounts.LeadingPointExample | data_munger.py:38 | ".5" converts to 0.5 |
| Amounts.TrailingPointExample | data_munger.py:38 | "12." converts to 12 |
| Amounts.RejectedForms | data_munger.py:38 | "1.2.3", "-", "." and "" do not convert |
| Amounts.MalformedAmountExample | data_munger.py:32-39 | the cell "1,2x3" is an error carrying the cleaned text "12x3", not zero |
| Ledger.Coerce | data_munger.py:44-45 | a date cell yields a day exactly when it holds one; blank and unreadable cells yield no date |
| Ledger.DropUndatedCount | data_munger.py:25 | the rows kept and the blank-dated rows dropped account for every row, and no kept row has a blank date |
| Ledger.ParseColumn | data_munger.py:31-39 | a column converts exactly when every cell does, and then cell by cell; otherwise the error names the column and the first bad cell's cleaned text |
| Ledger.Tidy | data_munger.py:27-42 | it succeeds exactly when all three columns convert; a failure names a column that does not convert, with every earlier column converting; on success each row is its raw row with the defaults filled in |
| Ledger.DroppedRowsIrrelevant | data_munger.py:25-39 | after the drop, a column converts exactly when every dated row's cell converts |
| Ledger.Rebalance | data_munger.py:48-52 | row `i` gets balance `opening` plus the sum of deposits minus withdrawals of rows `0..i`; nothing else changes |
| Ledger.ByDateIsTotalPreorder | data_munger.py:46 | date order, with no-date last, is total and transitive |
| Ledger.RebalanceRunningTotal | data_munger.py:52 | every recomputed balance is the running total of the recomputed rows themselves |
| Ledger.RebalanceKeepsRows | data_munger.py:52 | recomputing balances changes nothing but the balances |
| Ledger.RebalanceKeepsOrder | data_munger.py:46-52 | recomputing balances keeps the date order |
| Ledger.Arrange | data_munger.py:46-52 | the result is a ledger for the rows: a permutation of them up to balances, date-ordered, each balance its running total |
| Ledger.Normalize | data_munger.py:25-52 | the load succeeds exactly when every dated row's three amount cells convert; it then yields a ledger of the converted dated rows, otherwise the conversion's first error |
| Ledger.UndatedLast | data_munger.py:44-46 | in a date-ordered ledger no dated row follows a row with no date |
| Ledger.SumOfNet | data_munger.py:48-52 | the net sum is total deposits minus total withdrawals |
| Ledger.ClosingBalance | data_munger.py:48-52 | the last balance of a ledger is total deposits minus total withdrawals, whatever order rows of equal date ended in |
| Categorizer.KeywordRules | categorizer.py:7-33 | the rule table has 66 rules, rule `i` at position `i` |
| Categorizer.UpperChar | categorizer.py:40 | a lower-case letter becomes its upper-case partner, 32 code points below; every other character is unchanged |
| Categorizer.Upper | categorizer.py:40 | each character is upper-cased in place: the length is kept and no lower-case letter is left |
| Categorizer.UpperKeepsUppercase | categorizer.py:40 | text with no lower-case letter is its own upper-case form |
| Categorizer.UpperIdempotent | categorizer.py:40 | upper-casing twice is upper-casing once |
| Categorizer.CategorizeIgnoresCase | categorizer.py:37-44 | apart from the text "Miscellaneous", a description and its upper-case form get the same category |
| Categorizer.LowerCaseIsMatched | categorizer.py:40-44 | "atm neft" is a transfer, as "ATM NEFT" is |
| Categorizer.FirstMatch | categorizer.py:42-44 | the index found is a rule whose keyword occurs, with no earlier rule's keyword occurring; none is found only when no keyword occurs |
| Categorizer.Fallback | categorizer.py:46-52 | Card Reference exactly when a 16-digit word occurs; Account exactly when only a 12-digit word does; Others exactly when neither does |
| Categorizer.Scan | categorizer.py:42-52 | the first rule, in table order, whose keyword occurs decides; the fallbacks apply only when no keyword occurs |
| Categorizer.Categorize | categorizer.py:35-52 | the text "Miscellaneous" keeps its category, and any other description is scanned upper-cased |
| Categorizer.ContainsTransitive | categorizer.py:43 | a keyword inside a piece of the text is inside the text |
| Categorizer.MissingCharacter | categorizer.py:43 | a keyword with a character the text lacks never occurs in it |
| Categorizer.Shadowed | categorizer.py:42-44 | a later rule whose keyword contains an earlier rule's keyword never decides |
| Categorizer.ShadowedRules | categorizer.py:9-24 | "SWEEP TRF TO", "CHQ DEPOSIT RETURN" and "CHEQUE DEPOSIT" never decide a category, being shadowed by "TRF TO" and "POS" |
| Categorizer.MixedCaseRuleNeverMatches | categorizer.py:24 | the mixed-case keyword "Miscellaneous" never matches upper-cased text |
| Categorizer.RuleCategoryIsLabel | categorizer.py:7-33 | every rule gives one of the known categories |
| Categorizer.ScanCases | categorizer.py:42-52 | the scan either finds a first matching rule or finds no rule |
| Categorizer.CategoryIsLabel | categorizer.py:35-52 | every description gets one of 13 known categories |
| Categorizer.MiscellaneousRules | categorizer.py:24-25 | only the "Miscellaneous" and "SBI" rules give Miscellaneous |
| Categorizer.MiscellaneousOnlyFromSbi | categorizer.py:37-44 | a description is Miscellaneous exactly when it is the text "Miscellaneous" or "SBI" is its first matching keyword |
| Categorizer.TableOrderDecides | categorizer.py:42-44 | "ATM NEFT" is a transfer although "ATM" occurs first in it: table order decides, not position in the text |
| Categorizer.ChequeReturnIsEntertainment | categorizer.py:9-20 | "CHQ DEPOSIT RETURN" comes out Entertainment, because "POS" occurs inside "DEPOSIT" |
| Categorizer.UpperCaseWordIsScanned | categorizer.py:37-38 | the short-circuit is case-sensitive: "MISCELLANEOUS" is scanned and does not come out Miscellaneous |
| Categorizer.CategorizeAll | categorizer.py:54-57 | one output row per input row, in order, carrying that row and its own description's category, which is always a known one |
| Categorizer.CategorizeAllKeepsRows | categorizer.py:54-57 | dropping the category column gives back the input rows |
| Categorizer.CategorizeAllAppend | categorizer.py:54-57 | categorizing works row by row, so it commutes with splitting the rows |
| DateFilter.FilterByDate | utils.py:14-15 | every kept row is dated within `[start, end]`, and each row is kept as often as it occurs when, and only when, it is dated in the window |
| DateFilter.FilterByDateAppend | utils.py:14-15 | filtering works piecewise, so kept rows keep their relative order |
| DateFilter.FilterByDateKeepsOrder | utils.py:14-15 | a date-ordered ledger stays date-ordered |
| DateFilter.FilterByDateNarrows | utils.py:14-15 | filtering by two windows in turn is filtering by their overlap |
| DateFilter.FilterByDateIdempotent | utils.py:14-15 | filtering twice by the same window is filtering once |
| DateFilter.FilterByDateKeepsAll | utils.py:14-15 | every row is kept exactly when every row is dated in the window |
| Recommendations.Categories | recommendations.py:30-34 | at most one category per row, each the category of some row |
| Recommendations.CategoriesCover | recommendations.py:30-34 | every row's category is listed |
| Recommendations.CategoriesDistinct | recommendations.py:30-34 | no category is listed twice |
| Recommendations.GroupTotals | recommendations.py:30-34 | one group per listed category, in order, each carrying the sum of that category's withdrawals |
| Recommendations.GroupTotalsPartition | recommendations.py:30-35 | the group totals add up to the withdrawals of all rows |
| Recommendations.CategoryTotalPositive | recommendations.py:22-32 | a category some row has totals more than zero when every withdrawal is positive |
| Recommendations.SomeDiscretionarySpending | recommendations.py:22-35 | with any discretionary row there is a group, and the discretionary total is positive |
| Recommendations.TierFor | recommendations.py:44-62 | high-burn exactly above 30%; above-average exactly at most 30% and above the mean share, with a cap of 90% of the total; well-controlled otherwise |
| Recommendations.Advise | recommendations.py:39-64 | one piece of advice per group, in group order, for that group |
| Recommendations.CategoryRecommendations | recommendations.py:18-67 | the table is empty exactly when there is no discretionary row, has one row per discretionary category, and is ordered by total, largest first |
| Recommendations.SortedFromUnsorted | recommendations.py:67 | sorting only reorders the table |
| Recommendations.RowTotal | recommendations.py:30-35 | each table row is a discretionary category with that category's withdrawals as total, above zero and at most the discretionary total |
| Recommendations.RowShare | recommendations.py:35-64 | each row's share is its total over the discretionary total, in (0, 100], and its tier is the one that share earns among the table's categories |
| Recommendations.ShareBounds | recommendations.py:36 | a positive part of a total has a share in (0, 100] |
| Recommendations.TableCategories | recommendations.py:22-34 | the table lists a category exactly when some discretionary row has it |
| Recommendations.TableDistinct | recommendations.py:30-34 | no category is listed twice in the table |
| Recommendations.AdviseShares | recommendations.py:35-36 | the groups' shares add up to the share of their total |
| Recommendations.AdviseTotals | recommendations.py:35-36 | the advice rows carry the groups' totals |
| Recommendations.SharesSumTo100 | recommendations.py:35-36 | the shares of a nonempty table add up to 100 |
| Recommendations.TableTotal | recommendations.py:30-35 | the table's totals add up to all discretionary withdrawals |
| Recommendations.ThresholdIsMeanShare | recommendations.py:51 | the above-average threshold is the mean of the table's shares |
| Recommendations.SingleCategory | recommendations.py:45 | a lone discretionary category has share 100 and is high-burn |
| Recommendations.MemberShare | recommendations.py:45 | every table row has a positive share and is high-burn exactly above 30% |
| Recommendations.AtMostThreeHighBurn | recommendations.py:35-45 | at most three categories are high-burn |
| Recommendations.NonEssentialLabel | recommendations.py:5-9 | a discretionary row with a known category is in entertainment, cash handling, card reference, account or others |
| Recommendations.DiscretionaryCategories | recommendations.py:5-22 | when rows carry the categorizer's labels, the table advises only on the five never-essential categories |
| Display.IconMatchesTier | recommendations.py:90 | fire, warning and check mark test exactly the thresholds of high-burn, above-average and well-controlled |
| Display.Cut | recommendations.py:83 | the cut point never passes the end of the table |
| Display.Head | recommendations.py:83 | `head(n)` is a prefix: the first `n` rows, or all but the last `-n` rows for negative `n` |
| Display.From | recommendations.py:106 | `iloc[n:]` is a suffix: all but the first `n` rows, or the last `-n` rows for negative `n` |
| Display.HeadThenFrom | recommendations.py:83-106 | the rows shown up front followed by the rows behind the expander are the whole table |
| Display.MoreExactlyWhenLonger | recommendations.py:103-106 | the expander has rows exactly when the table is longer than `max_recs` |
| Display.Cards | recommendations.py:83-90 | one card per row, in order, with the icon its share earns |
| Display.Layout | recommendations.py:83-109 | there is an expander exactly when the table is longer than `max_recs`, and it is never empty |
| Display.ShowRecommendations | recommendations.py:74-77 | the "no discretionary spending" notice shows exactly when there is no discretionary row |
| Display.LayoutShowsEveryRowOnce | recommendations.py:83-109 | every table row is on exactly one card, in order, with the icon its share earns |
| Display.EveryRowOnce | recommendations.py:83-109 | the cards, in order, are exactly the advice table |
| Display.IconShowsTier | recommendations.py:90-109 | every card's icon is its row's tier |
| Display.LayoutShowsLargestFirst | recommendations.py:83-106 | in a table ordered by total, no row behind the expander spent more than a row shown up front |
| Display.ShownFirstSpentMost | recommendations.py:67-106 | no category behind the expander spent more than a category shown up front |
| Display.CardsOnDiscretionaryLabels | recommendations.py:83-109 | with categorizer labels, every card advises on a never-essential category |
| Dashboard.CategorizedWindow | app.py:72-113 | the pipeline up to categorizing succeeds exactly when the load does, and every row then has a known category |
| Dashboard.Advice | app.py:72-129 | the advice section appears exactly when the load succeeds |
| Dashboard.AdviceOnDiscretionaryLabels | app.py:72-129 | whatever the sheet and the window, every card advises on entertainment, cash handling, card reference, account or others |

## Left out

- The CHQ.NO. column is not modelled: nothing downstream reads it.
- The Parquet cache is not modelled: the read of an earlier result and the write of the new one are file I/O. The load always runs the transform.
- Reading the Excel sheet is not modelled: the input is the sheet's rows, each cell as text or missing.
- The Streamlit page, the date pickers, the slider, and the stop when the start date is after the end date are not modelled. Start, end and `max_recs` are parameters. `DateFilter.EmptyWindow` states that a reversed window keeps nothing.
- Plotting, the overview metrics and the weekly spending pattern (spending_pattern.py) are not modelled: they are display-only.
- Float conversion models plain decimal text only: an optional sign, digits and one point. Exponents, "inf", "nan" and digit underscores, which Python also accepts, are treated as not a number.
- Amounts.ParseDecimal: digits are ASCII only. Python's `float()` also accepts other Unicode decimal digits ("１２３" is 123.0), which the model treats as not a number.
- A missing column is not modelled: every raw row has a DATE, TRANSACTION DETAILS, VALUE DATE and all three amount cells (each possibly blank). In the code a sheet without one of these columns stops with a KeyError (data_munger.py:25, 27, 33 and 45).
- Amounts are exact reals, not IEEE doubles: rounding is not modelled.
- Upper-casing, `\d` and `\w` are modelled for ASCII only. Python also upper-cases and matches non-ASCII letters and digits.
- The date parser is modelled by its outcome: a blank cell, an unreadable cell, or a day number. Its format heuristics are not modelled.
- Recommendation messages are modelled by their tier and numbers, not their formatted text. The HTML of the cards is not modelled either.
- Groups are listed in first-appearance order, while pandas lists groups in sorted key order. The sort by total then fixes the table's order except among equal totals, which the unstable sort does not fix either.
- Working on a copy instead of the caller's frame is not modelled: every operation here is a pure function, so no input can change. Re-coercing the date column inside the date filter is not modelled either, because dates arrive already parsed.
- The duplicated `net` computation is modelled once; both lines compute the same value.
