# StockPick26 in Dafny

StockPick26 is a beginner-oriented stock-market glossary website. Its logic has two small parts, and these are what the Dafny project models.

**The glossary store.** This is a fixed, ordered list of 39 term records. Each record has:
- a slug;
- a name;
- an English alternate name;
- a one-line definition;
- a category, one of six keys of a category table;
- an optional list of related slugs.

The store exports four queries over the list: look a term up by slug, resolve a list of related slugs, search, and filter by category. Only the term page (app/glossary/[slug]/page.tsx) calls any of them: it looks its term up by slug and resolves that term's related slugs. The term page itself is not part of this model. Nothing calls the search or the category query. Two other pages repeat that code inline over the list:
- the browse page filters by an optional category and then by an optional search box, and prints "N term(s) found";
- the landing page resolves eight featured slugs, and counts the terms of each category for its category cards.

The model proves each inline copy equal to the exported query: `BrowseIsSearchTerms` and `BrowseIsRestriction` for the browse page, and `FeaturedTerms` and `CategoryCount` for the landing page.

**The calculators of the tools page.** These are:
- a P/E ratio with a four-band verdict;
- dividend yield and yearly income;
- compound growth with monthly contributions;
- position sizing from a risk budget.

Every calculator reads text fields. The model takes each field as `Option<real>`: `None` when the field is empty, `Some(x)` when it holds the number `x`.

Modules:

- `Wrappers` is `Option`.
- `Text` is the ASCII lower-casing and the substring test of search. The lower-casing is the ASCII part of JavaScript's `toLowerCase`, the substring test `includes`. `Contains` is proved equivalent to "occurs at some offset".
- `Subsequences` is the "order-preserving sub-list" relation that the filters' results satisfy.
- `Glossary` covers data/glossary.ts:
  - the `Term` and `Category` records, the category table and the 39 entries;
  - `FindBySlug`, `Resolve`, `BySearch` and `ByCategory` over any list of terms;
  - the four exported queries over the list;
  - the facts about the data.
- `GlossaryPage` covers app/glossary/page.tsx. It has the `FilteredTerms` method, which reassigns a local sequence in two guarded steps as the page does. The method is proved against the one-pass specification `Browse`.
- `HomePage` covers app/page.tsx: the featured terms and the category-card counts.
- `Tools` covers app/tools/page.tsx: the four calculators and the `toFixed` rounding their results go through.

The model works on the exact values the source computes, and then on the rounded values it displays:
- `ToFixed(x, d)` is the number denoted by `x.toFixed(d)`: the nearest multiple of `10^-d`, with ties going away from zero.
- The P/E verdict is taken on the rounded ratio, exactly as the page does it. `ShownVerdictAgrees` and `RoundingCrossesThreshold` state when that differs from a verdict on the exact ratio.

## Model

| member | source | states |
|---|---|---|
| Text.Lower | data/glossary.ts:429 | lower-casing keeps the length and maps every character through `LowerChar`: ASCII capitals move to their small letters and every other character is kept |
| Text.LowerIdempotent | data/glossary.ts:429 | lower-casing an already lower-cased query changes nothing |
| Text.Contains | data/glossary.ts:431-433 | `s.includes(q)`: the empty query is in every string, and a string holds no query longer than itself (what it means in full is stated by `ContainsIff`) |
| Text.ContainsIff | data/glossary.ts:431-433 | the left-to-right `includes` search succeeds exactly when the query occurs at some offset of the text |
| Text.ContainsEmpty | data/glossary.ts:431-433 | the empty query is contained in every text |
| Subsequences.SubsequenceBounds | data/glossary.ts:430 | a filtered list is no longer than its source and has no element the source lacks |
| Glossary.Term | data/glossary.ts:1-10 | the glossary entry record: slug, name, alternate name, definition, category and optional related slugs; `description` and `example` are not modelled |
| Glossary.Categories | data/glossary.ts:12-19 | the category table: the six keys with their labels and colours, in declaration order |
| Glossary.KeysOf | data/glossary.ts:12-19 | the keys of the category table, one per entry, in declaration order |
| Glossary.FindBySlug | data/glossary.ts:416-418 | lookup finds an entry exactly when some entry has that slug; the entry found has that slug, and no earlier entry does (first match in collection order) |
| Glossary.FindUnique | data/glossary.ts:417 | with unique slugs, looking up an entry's own slug gives back that entry |
| Glossary.LookupAll | data/glossary.ts:422-423 | the `map` step: one lookup result per input slug, at the same position |
| Glossary.GlossaryTerms | data/glossary.ts:21-413 | the 39 entries in declaration order, each with the slug, name, alternate name, definition, category and related slugs of the source literal; their facts are stated by `DatasetSlugs`, `SlugsAreUnique`, `TermsDistinct` and `CategoriesAreKeys` |
| Glossary.Present | data/glossary.ts:424 | the `filter(t => t !== undefined)` step, defined directly: the found entries in order; its properties are stated by `PresentLength`, `PresentAppend` and `PresentMember` |
| Glossary.PresentLength | data/glossary.ts:424 | filtering keeps no more entries than there were lookups, and all of them when every lookup found its entry |
| Glossary.Resolve | data/glossary.ts:421-425 | `map` followed by `filter` over any list of terms, defined directly; its properties are stated by `ResolveKnown`, `ResolveAppend` and `ResolveMembership` |
| Glossary.ResolveKnown | data/glossary.ts:421-425 | resolving a slug list gives at most one entry per slug; the slugs of the result are exactly the known input slugs in input order; every entry is one of the terms and answers an input slug |
| Glossary.ResolveOne | data/glossary.ts:422-424 | a single slug resolves to its entry, or to nothing when unknown |
| Glossary.ResolveAppend | data/glossary.ts:422-424 | resolving a concatenation of slug lists is the concatenation of the resolutions |
| Glossary.ResolveDropsUnknown | data/glossary.ts:422-424 | of three slugs where the third is unknown, the two found are kept in order and the third is dropped |
| Glossary.ResolveMembership | data/glossary.ts:421-425 | with unique slugs, an entry is in the resolution exactly when it is a term and its slug is among the inputs |
| Glossary.Matches | data/glossary.ts:430-434 | the search predicate, shared with app/glossary/page.tsx:20-24: the lower-cased query occurs in the lower-cased name, alternate name or definition, so the empty query matches every entry |
| Glossary.BySearch | data/glossary.ts:430-434 | the search filter keeps an order-preserving sub-list, and keeps an entry exactly when the lower-cased query occurs in its lower-cased name, alternate name or definition |
| Glossary.ByCategory | data/glossary.ts:438-440 | the category filter keeps an order-preserving sub-list, and keeps an entry exactly when its category equals the given one |
| Glossary.BySearchCounts | data/glossary.ts:430-434 | counted with multiplicity, the search filter keeps every copy of a matching entry and none of any other, so the contract fixes the result even on a list with repeats |
| Glossary.ByCategoryCounts | data/glossary.ts:438-440 | counted with multiplicity, the category filter keeps every copy of an entry of that category and none of any other |
| Glossary.SearchEmpty | data/glossary.ts:428-435 | the empty query keeps every entry in order |
| Glossary.FiltersCommute | app/glossary/page.tsx:14-25 | filtering by category and by search commute |
| Glossary.ByCategoryAbsent | data/glossary.ts:438-440 | a category that no entry has selects nothing |
| Glossary.CountOverCons | data/glossary.ts:438-440 | one more entry adds one to the count of its own category and to no other (keys distinct) |
| Glossary.CountsPartition | data/glossary.ts:438-440 | when every entry's category is one of a list of distinct keys, the per-key counts sum to the number of entries |
| Glossary.CountNone | data/glossary.ts:438-440 | an empty list of entries counts zero for every key |
| Glossary.GetTermBySlug | data/glossary.ts:416-418 | a term is returned exactly when some term has exactly that slug (no case folding or trimming); the term returned has that slug and belongs to the list |
| Glossary.GetRelatedTerms | data/glossary.ts:421-425 | the omitted argument gives `[]`; the result is no longer than the input; its slugs are the known input slugs in input order; every result is a term |
| Glossary.SearchTerms | data/glossary.ts:428-435 | an order-preserving sub-list of the terms, holding exactly the terms whose name, alternate name or definition contains the lower-cased query, all lower-cased |
| Glossary.GetTermsByCategory | data/glossary.ts:438-440 | an order-preserving sub-list of the terms, holding exactly the terms of that category |
| Glossary.SearchTermsEmpty | data/glossary.ts:428-435 | the empty query returns every term in declaration order |
| Glossary.SearchTermsIgnoresCase | data/glossary.ts:429 | searching for a query and for its lower-cased form give the same result |
| Glossary.DatasetSlugs | data/glossary.ts:21-413 | there are 39 terms and their slugs are, position by position, the declared slugs |
| Glossary.DeclaredSlugsDistinct | data/glossary.ts:21-413 | no declared slug occurs twice |
| Glossary.SlugsAreUnique | data/glossary.ts:21-413 | no two terms share a slug |
| Glossary.TermsDistinct | data/glossary.ts:21-413 | no term occurs twice in the list, so membership and order pin down each filter's result |
| Glossary.CategoriesAreKeys | data/glossary.ts:8-19 | every term's category is a key of the category table |
| Glossary.KeysAreDistinct | data/glossary.ts:12-19 | no key appears twice in the category table |
| Glossary.UnknownCategoryEmpty | data/glossary.ts:438-440 | a category that is not a key of the table selects no term |
| Glossary.CategoryResultsPartition | app/page.tsx:123-124 | the six per-category results, one per key of the category table, together hold every term once: their lengths (the landing page's six card counts) sum to the number of terms shown in the statistics strip |
| Glossary.LookupDeclared | data/glossary.ts:416-418 | every term is found by its own slug |
| Glossary.VotingRightsMissing | data/glossary.ts:41 | 'voting-rights', listed as related to 'shareholder', has no entry |
| Glossary.StockAndDividendFound | data/glossary.ts:416-418 | 'stock' and 'dividend' resolve to their entries |
| Glossary.DanglingRelatedSlug | data/glossary.ts:33-42 | the related terms of 'shareholder' are 'stock' and 'dividend' only: the dangling third slug is dropped |
| GlossaryPage.CategorySelected | app/glossary/page.tsx:14 | the truthiness test of the selected category: neither null nor the empty string |
| GlossaryPage.Browse | app/glossary/page.tsx:11-28 | the page's result in one pass: an order-preserving sub-list holding exactly the terms that pass the category check (when a category is selected) and the search predicate |
| GlossaryPage.BrowseCounts | app/glossary/page.tsx:11-28 | counted with multiplicity, the one-pass filter keeps every copy of a passing entry and none of any other |
| GlossaryPage.BrowseWithoutCategory | app/glossary/page.tsx:18-25 | with no category selected, the page's result is the search filter alone |
| GlossaryPage.BrowseWithCategory | app/glossary/page.tsx:14-25 | with a category selected, the page's result is the category filter followed by the search filter, and equally the search filter followed by the category filter |
| GlossaryPage.FilteredTerms | app/glossary/page.tsx:11-28 | the two guarded reassignments of the local list (category if one is selected, then search if the box is not empty) yield the one-pass result |
| GlossaryPage.BrowseEverything | app/glossary/page.tsx:11-28 | no category and an empty search show every term in declaration order |
| GlossaryPage.BrowseIsSearchTerms | app/glossary/page.tsx:18-25 | without a category the page shows exactly what `searchTerms` returns |
| GlossaryPage.BrowseIsRestriction | app/glossary/page.tsx:14-25 | with a category, the page shows `searchTerms` restricted to the category, which is also `getTermsByCategory` restricted to the search; every shown term has the selected category |
| GlossaryPage.TermNoun | app/glossary/page.tsx:102 | the noun is "terms" exactly when the count is not 1 and "term" exactly when it is 1 |
| GlossaryPage.ShowsEmptyMessage | app/glossary/page.tsx:130 | the "No terms found" message shows exactly when the result list is empty |
| HomePage.FeaturedSlugs | app/page.tsx:6 | the eight featured slugs, in display order; that each has an entry is `FeaturedSlugsExist` |
| HomePage.FeaturedTerms | app/page.tsx:6-9 | the featured terms are the featured slugs resolved as `getRelatedTerms` resolves them |
| HomePage.AllKnown | app/page.tsx:7-9 | when every slug of a list has an entry, resolution keeps every slug |
| HomePage.DeclaredHasSlug | data/glossary.ts:21-413 | every declared slug has an entry |
| HomePage.FeaturedSlugsExist | app/page.tsx:6 | each of the eight featured slugs has an entry |
| HomePage.FeaturedAllFound | app/page.tsx:6-9 | eight featured terms are shown, their slugs in the order of the featured list |
| HomePage.CategoryCount | app/page.tsx:124 | a card's count is the number of terms `getTermsByCategory` gives for its key |
| Tools.RoundHalfAway | app/tools/page.tsx:12 | the nearest integer, ties going away from zero |
| Tools.ToFixed | app/tools/page.tsx:12 | `toFixed(d)` lands within half a unit of `10^-d` of the exact value |
| Tools.PriceEarnings | app/tools/page.tsx:11-13 | the ratio exists exactly when price and EPS are filled in and EPS is not 0, and then it times EPS is the price |
| Tools.PE | app/tools/page.tsx:11-13 | the displayed P/E exists under the same guard and lies within half a cent of price / EPS |
| Tools.Verdict.Message | app/tools/page.tsx:16-19 | the text of each of the four verdicts, word for word |
| Tools.Verdict.Color | app/tools/page.tsx:16-19 | the colour of each of the four verdicts |
| Tools.GetVerdict | app/tools/page.tsx:15-20 | each P/E falls in exactly one of four bands: below 10 cheap, 10 up to 20 reasonable, 20 up to 35 pricier, 35 and up expensive |
| Tools.VerdictMonotone | app/tools/page.tsx:15-20 | a larger P/E never gets a cheaper verdict |
| Tools.TwentyIsPricier | app/tools/page.tsx:18 | a P/E of exactly 20 (price 100, EPS 5) is on the pricier side |
| Tools.ShownVerdict | app/tools/page.tsx:56-57 | a verdict is shown exactly when the P/E is shown, and it is `getVerdict` of the displayed (two-decimal) P/E |
| Tools.RoundedSide | app/tools/page.tsx:12 | rounding to two decimals keeps a value at or above a whole-number threshold at or above it, and keeps a value more than half a cent below it below it |
| Tools.ShownVerdictAgrees | app/tools/page.tsx:56-57 | the verdict on the displayed P/E is the verdict on the exact ratio, unless the ratio lies within half a cent below 10, 20 or 35 |
| Tools.ShownAtThreshold | app/tools/page.tsx:12 | a ratio in the half-cent window [t − 0.005, t) below a whole-number threshold t ≥ 1 is shown as exactly t |
| Tools.ShownVerdictInWindow | app/tools/page.tsx:12-19 | inside the window below 10, 20 or 35 the verdict shown is the band starting at that threshold: reasonable, pricier, expensive; with `ShownVerdictAgrees` this fixes the shown verdict for every ratio |
| Tools.RoundingCrossesThreshold | app/tools/page.tsx:56-57 | a ratio of 9.996 is cheap when exact, but it is shown as 10.00 and judged reasonable |
| Tools.DividendYield | app/tools/page.tsx:71-73 | the yield exists exactly when price and dividend are filled in and the price is not 0, and then it times the price is 100 times the dividend |
| Tools.YieldPct | app/tools/page.tsx:71-73 | the displayed yield exists under the same guard and lies within 0.005 of dividend × 100 / price |
| Tools.AnnualIncome | app/tools/page.tsx:75-77 | the income exists exactly when dividend and shares are filled in, lies within 0.005 of dividend × shares, and takes no price |
| Tools.DividendExample | app/tools/page.tsx:71-77 | price 50, dividend 2 and 100 shares give a yield of 4.00 and an income of 200.00 |
| Tools.Compound | app/tools/page.tsx:144-158 | a result exists exactly when the amount, rate and years are filled in, with an empty monthly amount counting as 0; contributions are the amount plus monthly × years × 12; contributions plus earnings is the total; the total is the future-value formula at monthly rate rate/100/12 |
| Tools.CompoundExample | app/tools/page.tsx:147-154 | 10000 to start and 500 a month for 20 years are 240 months and 130000 paid in |
| Tools.ShownGrowth | app/tools/page.tsx:157 | the three compound figures as shown, each `toFixed(0)`: within half a unit of the exact figure |
| Tools.ShownFiguresWithinOne | app/tools/page.tsx:157 | the three figures are each rounded to whole units, so the shown contributions plus the shown earnings differ from the shown total by at most one |
| Tools.ShownFiguresMayDisagree | app/tools/page.tsx:157 | half a unit of contributions and half of earnings are shown as 1 and 1 beside a total of 1 |
| Tools.FutureValue | app/tools/page.tsx:153 | the closed future-value formula for a given growth factor; that it is the month-by-month balance is `FutureValueIsBalance` |
| Tools.BalanceTimesRate | app/tools/page.tsx:152-153 | after n months, the month-by-month balance times the rate equals the closed formula times the rate |
| Tools.FutureValueIsBalance | app/tools/page.tsx:152-153 | for a non-zero monthly rate and a whole number of months, the closed future-value formula is the balance obtained month by month: grow by the rate, then add the deposit |
| Tools.CompoundIsBalance | app/tools/page.tsx:144-158 | for a whole number of years, the calculator's total is the month-by-month balance after years × 12 months |
| Tools.RiskPerShare | app/tools/page.tsx:248 | the risk per share is non-negative, zero exactly when entry equals stop, and is one of the two differences |
| Tools.RiskPerShareSymmetric | app/tools/page.tsx:248 | entry and stop may be swapped |
| Tools.PositionSize | app/tools/page.tsx:239-253 | a result exists exactly when all four fields are filled in; the risk budget is portfolio × (risk% / 100); the share count's risk is within the budget while one more share's is not; the position value is shares × entry |
| Tools.ShownPosition | app/tools/page.tsx:252 | the share count is shown as is, and the two amounts are shown within half a unit |
| Tools.SharesIsLargestAffordable | app/tools/page.tsx:249 | no whole number of shares above the share count stays within the risk budget |
| Tools.PositionExample | app/tools/page.tsx:239-253 | portfolio 50000 at 2% risk, entry 150 and stop 140 give 100 shares, a 1000 budget and a 15000 position |

## Left out

- The `description` and `example` fields of each term are not part of the model. They are long prose that no query reads: search looks at the name, the alternate name and the definition only.
- The static article, policy and layout pages, and all rendering (JSX, Tailwind classes, colours as styling, routing, metadata):
  - `Category.color` and `Verdict.Color` are kept as data only;
  - `ShowsEmptyMessage`, `CategorySelected`, `Present`, `Resolve`, `Verdict.Message` and `Verdict.Color` are stated directly as definitions, with no contract of their own; the properties of `Present` and `Resolve` are separate lemmas.
- React state (`useState`, `useMemo`) and re-rendering: the inputs of each page are parameters.
- Parsing of the text fields. `parseFloat` of text that is not a number gives NaN in the source; the model takes the fields as already-parsed numbers.
- Lower-casing covers ASCII letters only. Full Unicode `toLowerCase` also maps letters outside ASCII; the data's own non-ASCII characters (×, ÷, —) have no lower-case forms, but a query can still differ: JavaScript lower-cases U+212A KELVIN SIGN to "k", so the source's search for it finds every term containing a "k", while the model keeps the character and finds nothing.
- Floating point: every quantity is an exact `real`. `Math.pow` is a parameter of `Compound`. `CompoundIsBalance` relates it to whole-month powers only.
- Tools.Compound: requires a non-zero rate when the amount, rate and years are all filled in. Only then does the source reach its unguarded division by the monthly rate, which gives NaN for a rate of 0; with any of the three empty it returns null first, and the model returns `None`.
- Tools.PositionSize: requires entry ≠ stop when all four fields are filled in. The source divides by zero there: it shows `Infinity` shares when the risk amount is positive, `NaN` when it is 0 (0/0, e.g. a risk of "0" percent) and `-Infinity` when it is negative. A model on exact numbers has none of these values. The code at app/tools/page.tsx:240-249 has no such guard, and the model follows the code.
- Number-to-string formatting beyond the value denoted: `parseInt` of the shown figures, `toLocaleString` grouping, and the digits of `toFixed`'s string.
- Tools.ToFixed: states the half-unit bound on the rounded value, not that it is a whole number of `10^-d` units.
