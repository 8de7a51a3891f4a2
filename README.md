# Smart expense tracker — verified model

This project models the core of a small expense-tracking tool server (`src/server.py`) in Dafny. The server has three tools:

- **log an expense** from a free-text sentence such as "spent $15 on lunch at McDonald's";
- **summarise spending** over a week, month or year;
- **search** the stored expenses.

The model covers four parts of that server:

- **The natural-language interpreter.** It finds the amount with the pattern `\$?(\d+(?:\.\d{2})?)`. It picks the category from a fixed priority list of keyword sets. It finds the location with the pattern `\bat\s+([^$\d]+?)(?:\s|$)`, searched case-insensitively.
- **The guarded append** that logs an expense.
- **The grouped query** behind the summary: a lookback window, grouping by category with sum and count, ordering by total, a grand total and percentages.
- **The two-mode search.** A query in which the amount pattern matches is an exact-amount search. Any other query is a case-insensitive substring search over description, category and location. Results are ordered newest first and capped by the limit.

How the model represents things:

- Amounts are integer cents. The amount pattern only admits digits with an optional fraction of exactly two digits, so cents represent every match exactly.
- Dates are integer timestamps in seconds.
- The `expenses` table is a `seq<Expense>` field of the class `Tools.ExpenseStore`.
- Both patterns are hand-written matchers that follow the regular-expression engine's own steps. The location matcher includes the backtracking of the greedy `\s+`. Each matcher is proved equal to a closed form that states which characters it takes.

Modules:

- `Text`: ASCII character classes, `lower`, `strip`, substring containment and digit strings.
- `Amount`: the amount pattern.
- `Categories`: the keyword rules, the first-match function and the category loop.
- `Location`: the location pattern.
- `Ledger` and `Interpreter`: the stored row and the interpreter.
- `Sequences`: filter, a descending sort and sums.
- `Summary`: the spending summary.
- `Search`: expense search.
- `Tools`: the store class and its three operations.

One behaviour of the location pattern is worth knowing. The group captures the token after "at" and its whitespace run only when that token holds no `$` and no digit anywhere in it. Otherwise the greedy `\s+` gives back whitespace, and the lazy group settles for a single whitespace character. It takes the run's last blank when the run reaches the end of the text and is at least two blanks long. It takes the blank before that when the run is at least three blanks long. Stripped, that blank becomes an empty location. So "coffee at   $5", "coffee at   ab5" and a text ending in "at" and two blanks all store the location `""`, not no location (`Location.EmptyLocation`, `Location.ReferenceAt`).

## Model

| member | source | states |
|---|---|---|
| Text.Lower | src/server.py:47 | `lower()` keeps the length and lowers each ASCII capital letter, leaving every other character alone |
| Text.Strip | src/server.py:74 | the stripped text is a slice of the input that neither starts nor ends with whitespace, and everything cut off on either side is whitespace |
| Text.ContainsIffOccurs | src/server.py:63 | the substring test `keyword in text` holds exactly when the keyword occurs at some index of the text |
| Text.NatToDigits | src/server.py:105 | the decimal digits of a whole number are at least one digit, have no leading zero and read back as that number |
| Amount.DigitRunEnd | src/server.py:47 | the greedy `\d+` ends at the first non-digit after the run |
| Amount.FirstDigit | src/server.py:47 | the index of the first digit of a text that has one; no earlier character is a digit |
| Amount.MatchAt | src/server.py:47 | the pattern tried at one index: an optional `$` then a digit run with an optional two-digit fraction; its meaning at the first digit is stated by `Amount.FindAmountIsFirstDigitRun` |
| Amount.FindFrom | src/server.py:47 | the leftmost match of `re.search` from an index on; `Amount.FindAmountIsFirstDigitRun` states what it finds |
| Amount.FindAmount | src/server.py:47 | `re.search` of the amount pattern: `Amount.FindAmountIsFirstDigitRun` states that it matches exactly when there is a digit and reads the first digit run with its optional `.dd` |
| Amount.ParseAmount | src/server.py:47-48 | the matched group as cents, or 0 without a match; `Amount.FindAmountIsFirstDigitRun` and `Interpreter.InterpretedAmount` state its value |
| Amount.FindAmountIsFirstDigitRun | src/server.py:47-48 | the pattern matches exactly when the text holds a digit; the match is the first maximal digit run, extended by `.dd` when a point and two digits follow it; with no digit the amount is 0 |
| Amount.AmountIgnoresCase | src/server.py:47 | the amount found in the lower-cased text equals the amount found in the original text, so the interpreter and the search read amounts alike |
| Amount.FormatCentsRoundTrip | src/server.py:105 | an amount printed with two decimals after a digit-free prefix reads back as the same cents, whatever follows it |
| Amount.WholeAmountRoundTrip | src/server.py:47-48 | a whole number that is followed by neither a digit nor `.dd` reads as that many units, so "$15" is 1500 cents |
| Amount.OneDigitFraction | src/server.py:47-48 | "1.5" reads as 100 cents, since one fractional digit is not a fraction |
| Amount.ThreeDigitFraction | src/server.py:47-48 | "12.345" reads as 1234 cents, since the third fractional digit is left out |
| Amount.DollarSignIsOptional | src/server.py:47-48 | the leading `$` is optional: a text read behind a `$` gives the same amount as the text alone |
| Amount.TwelveThirtyFour | src/server.py:105 | 1234 cents print as "12.34" |
| Categories.FirstMatchIsLabel | src/server.py:60-65 | the category is `other` or the label of one of the rules; nothing outside the seven categories comes out |
| Categories.FirstMatchIsEarliest | src/server.py:60-65 | rule k's category comes out exactly when a keyword of rule k occurs and no keyword of an earlier rule does |
| Categories.FirstMatchOther | src/server.py:60-65 | `other` comes out exactly when no rule has a keyword in the text |
| Categories.AnyKeyword | src/server.py:63 | `any(keyword in text_lower for keyword in keywords)`; `Categories.Classification` states it through substring occurrence |
| Categories.FirstMatch | src/server.py:60-65 | the first rule with a keyword in the text gives the category, else `other`; `Categories.FirstMatchIsEarliest` and `Categories.FirstMatchOther` state this in both directions |
| Categories.Categorize | src/server.py:60-65 | the loop that starts at `other` and breaks at the first rule with a keyword in the lower-cased text returns the first-match category |
| Categories.Classification | src/server.py:51-65 | for each of the seven categories, the text gets that category exactly when one of its keywords occurs and no keyword of a category earlier in the priority list does |
| Categories.RideAndMealIsFood | src/server.py:51-65 | a text containing both "uber" and "lunch" is food, whatever their positions |
| Location.MatchAtIsReference | src/server.py:68 | the backtracking match at an index captures what the closed form says: the token after the whitespace run when it holds no `$` or digit, else one whitespace character of the run, else nothing |
| Location.MatchAt | src/server.py:68 | the pattern tried at one index, with the backtracking of `\s+` and the lazy group; `Location.MatchAtIsReference` equates it with the closed form `Location.ReferenceAt` |
| Location.FindFrom | src/server.py:68 | `re.search` from an index on; `Location.FindFromIsLeftmost` states that it returns the match at the first index that admits one |
| Location.ExtractLocation | src/server.py:68-69 | the stripped group of the first match, or none; `Location.LocationAbsentIff`, `Location.LocationIsLeftmost` and `Location.LocationShape` state its meaning |
| Location.FindFromIsLeftmost | src/server.py:68 | the search returns the match at the first index where one exists |
| Location.LocationAbsentIff | src/server.py:68-69 | the location is absent exactly when no position admits a match |
| Location.LocationIsLeftmost | src/server.py:68-69 | when the first matching position is k, the location is k's capture, stripped |
| Location.LocationShape | src/server.py:68-69 | a location never holds a `$`, a digit or whitespace |
| Location.McDonaldsLocation | src/server.py:68-69 | "spent $15 on lunch at McDonald's" gives location "McDonald's" |
| Location.EmptyLocation | src/server.py:68-69 | "coffee at   $5" gives the empty location |
| Interpreter.ParseExpenseText | src/server.py:44-77 | the interpreter reads the amount and category from the lower-cased text, the location from the original text and the description as the stripped text, and stamps the given time |
| Interpreter.Interpret | src/server.py:44-77 | the interpreter as a function; `Interpreter.InterpretedAmount`, `Interpreter.InterpretedCategoryAndLocation` and `Interpreter.LunchAtMcDonalds` state what each field holds |
| Interpreter.InterpretedAmount | src/server.py:47-48 | the interpreted amount is 0 without a digit, otherwise the first digit run with its optional two-digit fraction |
| Interpreter.InterpretedCategoryAndLocation | src/server.py:60-69 | the interpreted category is `other` exactly when no rule fires, and the location holds no `$`, digit or whitespace |
| Interpreter.LunchAtMcDonalds | src/server.py:44-77 | "spent $15 on lunch at McDonald's" gives 1500 cents, food, the text itself as description and location "McDonald's" |
| Sequences.Filter | src/server.py:128-134 | each element that satisfies the condition is kept exactly as often as it occurs in the input and no other element is kept; when all elements satisfy it the input is kept whole |
| Sequences.SortDesc | src/server.py:133 | the ordered rows are a permutation of the input with non-increasing keys |
| Sequences.SortDescDistinct | src/server.py:128-134 | ordering keeps a list free of duplicates |
| Sequences.SumBySortDesc | src/server.py:143 | reordering does not change a sum |
| Summary.ResolvePeriod | src/server.py:114-126 | the case-insensitive "month" gives 30 days, "year" 365 days and anything else 7 days, each with its period name |
| Summary.PeriodFallback | src/server.py:124-126 | an unknown period such as "quarter" behaves exactly like "week" |
| Summary.PeriodIgnoresCase | src/server.py:115-126 | the period does not depend on letter case |
| Summary.Window | src/server.py:128-134 | an expense is in the window exactly when it is stored and dated at or after the start, and then exactly as often as it is stored |
| Summary.GroupsOver | src/server.py:128-132 | one group per listed category that occurs in the window; `Summary.GroupsShape` states its sums and counts |
| Summary.Groups | src/server.py:128-134 | the grouped query ordered by total; `Summary.GroupsShape` states that each group carries its category's sum and count, that every occurring category has exactly one group and that totals are non-increasing |
| Summary.Percent | src/server.py:150 | a group's share of the grand total in percent; `Summary.PercentsSumToHundred` states that the shares add up to 100 |
| Summary.Lines | src/server.py:149-151 | one line per group, carrying its total, its count and its share of the grand total |
| Summary.SpendingSummary | src/server.py:108-154 | the report carries the resolved period name, and it is "no expenses" exactly when the window is empty |
| Summary.GroupsShape | src/server.py:128-134 | each group carries its category's sum and count over the window, with count above 0; every category occurring in the window has a group; no category appears twice; totals are non-increasing |
| Summary.GroupsExist | src/server.py:136-140 | there are groups exactly when the window is not empty |
| Summary.LinesCover | src/server.py:128-151 | one report line per category occurring in the window, carrying that category's sum and count over the window |
| Summary.LinesOrdered | src/server.py:128-151 | no category has two lines, and lines are ordered by total, largest first |
| Summary.SummaryTotals | src/server.py:143-150 | the grand total is positive, equals the sum of every amount in the window and the sum of the line totals, and the percentages add up to 100 |
| Summary.BreakdownTotals | src/server.py:143-150 | for a non-empty window of positive amounts, the grand total is positive and equals the window's spending, and the percentages add up to 100 |
| Summary.GrandTotalIsSpent | src/server.py:143 | the sum of the group totals is the sum of all amounts in the window |
| Summary.SixtyForty | src/server.py:108-154 | food at $60 and transport at $40 give a $100 total, food first with 60 percent, then transport with 40 |
| Search.SelectMode | src/server.py:163-165 | the search is by amount exactly when the query holds a digit, and then for the cents the amount pattern reads in the query, the first digit run with its optional two-digit fraction; otherwise it is a text search for the query itself |
| Search.Matching | src/server.py:166-183 | an expense is selected exactly when it is stored and its amount equals the query amount, or, in text mode, its description, category or location contains the query ignoring case; each selected row comes back exactly as often as it is stored |
| Search.TextMatches | src/server.py:175-179 | `LIKE '%query%'` on description, category or location; `Search.TextSearchIgnoresCase` states that it ignores case and `Search.CoffeeIsText` gives an instance |
| Search.Selects | src/server.py:169-179 | the `WHERE` clause of each mode; `Search.TwentyIsAnAmount` and `Search.CoffeeIsText` give instances |
| Search.Capped | src/server.py:171 | `LIMIT` keeps the first `limit` rows, or all rows when there are fewer or the limit is negative |
| Search.SearchExpenses | src/server.py:157-199 | "no matches" comes out exactly when the result list is empty; otherwise the found rows are the results |
| Search.Results | src/server.py:163-184 | the selected rows, newest first, capped by the limit; `Search.ResultsSound` and `Search.ResultsComplete` state its meaning |
| Search.ResultsSound | src/server.py:163-184 | every result is a stored expense the mode selects, no row comes back more often than it is stored, results are newest first and at most `limit` of them |
| Search.ResultsComplete | src/server.py:163-184 | a selected expense missing from the results is no newer than any result, and then exactly `limit` results came back |
| Search.NoMatchesIff | src/server.py:186-188 | "no matches" comes out exactly when the limit is 0 or no stored expense is selected |
| Search.TextSearchIgnoresCase | src/server.py:173-183 | a text query and its lower-cased form select the same expenses |
| Search.TwentyIsAnAmount | src/server.py:163-172 | "20" searches for exactly the expenses of 2000 cents |
| Search.CoffeeIsText | src/server.py:173-183 | "coffee" is a text search and finds a "Coffee" description |
| Tools.ExpenseStore.constructor | src/server.py:19-29 | the table starts empty and valid |
| Tools.ExpenseStore.LogExpense | src/server.py:80-105 | with amount 0 the outcome is the rejection and the table is unchanged; otherwise exactly one row with the interpreted fields and the next identifier is appended and earlier rows are unchanged; positive amounts and identifiers equal to position plus one are kept |
| Tools.ExpenseStore.GetSpendingSummary | src/server.py:108-154 | the summary of the current table, which is left untouched |
| Tools.ExpenseStore.SearchExpenses | src/server.py:157-199 | the search over the current table, which is left untouched |
| Tools.Row | src/server.py:90-99 | the inserted row takes the interpreted fields under the next identifier; `Tools.ExpenseStore.LogExpense` states the table after the insert |
| Tools.Confirmation | src/server.py:104-105 | the confirmation message; `Tools.ConfirmationRoundTrip` states that its amount reads back as the stored cents |
| Tools.ConfirmationRoundTrip | src/server.py:104-105 | the confirmation message reads back as the stored cents through the amount pattern |
| Tools.LoggedRowIsFound | src/server.py:80-105 | after logging, searching for the logged amount finds the new row unless the limit is full of rows at least as new |

## Left out

- Connecting to the SQLite database and creating its tables are not modelled (`init_database`, each tool's connect and close). The table is a sequence. Identifiers are positions plus one, because rows are only appended and never deleted.
- The `budgets` table is not modelled: no tool reads or writes it. The `created_at` column is not modelled either, since nothing reads it.
- Tool registration, server start-up, environment variables and console output are not modelled.
- The clock is not modelled: `datetime.now()` is the parameter `now`. Dates are integer seconds rather than ISO-8601 strings, so the string comparison `date >= ?` becomes an integer comparison, and the search output's `%m/%d` date formatting is not modelled.
- Floating-point amounts are not modelled: amounts are integer cents. Digit runs too long for a double to hold exactly are not modelled.
- Percentages are exact reals. Their `.1f` rounding is not modelled.
- Presentation strings are not modelled: emoji, `.title()` and the per-line text of the summary and search output. The outcomes are values. `Tools.Confirmation` keeps only the part of the confirmation a reader can parse back.
- Only ASCII is modelled: `\d`, `\s`, `\w` (for `\b`), `lower()` and `strip()`. Non-ASCII digits, whitespace and case folding are not modelled.
- Search.TextMatches: the `%` and `_` wildcards inside a query are treated as plain characters, whereas SQL `LIKE` would treat them as wildcards.
- Search.Results: the order among rows with equal dates is whatever the insertion sort gives. SQLite leaves that order unspecified, and the lemmas only use the ordering by date. The returned rows also carry their identifier, which the query does not select.
- Summary.Groups: the order among groups with equal totals is likewise fixed by the sort. The lemmas only use the ordering by total.
- Summary.SpendingSummary: this requires all stored amounts to be positive. `ExpenseStore.Valid` keeps that invariant. Without it, a window whose amounts summed to zero would divide by zero.
