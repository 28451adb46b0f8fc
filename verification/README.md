# Karunadu Bulbs storefront — a Dafny model of its logic

The storefront is a React single-page shop for LED lighting. It shows a
catalogue, a search overlay, product dialogs and an enquiry ("quote")
basket, plus a contact form, a lighting calculator, a testimonial carousel,
an image lightbox and a canned-reply chat assistant. Under the rendering code
these pieces hold small, deterministic logic. This project models that logic
in Dafny and proves what the code promises about it.

Modules, one per source file, plus shared ones:

| file | module | models |
|---|---|---|
| `optional.dfy` | `Optional` | `Option` for `undefined`/`null` |
| `seqs.dfy` | `Seqs` | `filter`, `slice(0, n)`, subsequences, distinctness |
| `strings.dfy` | `Strings` | JavaScript `toLowerCase` (ASCII), `includes`, `startsWith`, `trim`, `split(/\s+/)`, `join`, `replace`, `length` in UTF-16 units, number formatting |
| `catalog.dfy` | `Catalog` | `Product` and `SelectedProduct` records |
| `lighting_calculator.dfy` | `LightingCalculator` | room/bulb tables, the `calculations` memo, reset, calculate, form validity |
| `smart_search.dfy` | `SmartSearch` | `fuzzySearch`, the match filter, `getRelevanceScore`, the stable descending sort, the cut to 8 |
| `products_page.dfy` | `ProductsPage` | `filteredProducts`, `clearFilters`, `hasActiveFilters` |
| `product_selection.dfy` | `ProductSelection` | the enquiry store: add, remove, update, clear, total |
| `enquiry_summary.dfy` | `EnquirySummary` | the quantity stepper of the summary page, empty state and plural counters |
| `product_detail_modal.dfy` | `ProductDetailModal` | dialog configuration, quantity stepper, the added record, the post-add reset |
| `related_products.dfy` | `RelatedProducts` | the four related products |
| `email_config.dfy` | `EmailConfig` | `formatProductsForEmail`, `generateEmailSummary` |
| `contact_page.dfy` | `ContactPage` | the form schema's rules, the error map, `handleInputChange`, `handleSubmit` |
| `testimonials.dfy` | `Testimonials` | carousel navigation and autoplay |
| `image_lightbox.dfy` | `ImageLightbox` | lightbox navigation, zoom and keys |
| `ai_chatbot.dfy` | `AIChatbot` | `getResponse` and the send guard |

Modelling choices:
- The catalogue is a parameter of type `seq<Product>`.
- Numbers in the calculator are exact `real`s: `0.0929` is `929/10000`, `Math.round(x)` is `floor(x + 1/2)` and `Math.ceil` is the least integer not below.
- Strings are `seq<char>`. Lower-casing is ASCII only.
- `split(/\s+/)` keeps the empty first and last pieces that JavaScript produces for leading and trailing whitespace.
- Clock readings (`Date.now()`) are parameters.
- The stable `Array.prototype.sort` is an insertion sort. Each entry carries its match position, so stability is a checkable property.

In three places the calculator's code does something other than what it evidently means to do; the model follows the code:
- **Ceiling height.** The ternary has a `> 12` branch with a 1.4 multiplier, so taller ceilings are evidently meant to need more light. But the code tests `> 10` first, so every ceiling above 10 ft gets 1.2 and the 1.4 branch is dead (`LightingCalculator.HeightMultiplier`, `LightingCalculator.HighCeilingExample`).
- **Savings rounding.** The yearly saving is displayed next to the monthly one, as if it were twelve of them. The code rounds the unrounded monthly saving, and separately rounds twelve times the unrounded figure for the year, so the two can disagree (`LightingCalculator.SavingsFormula`, `LightingCalculator.YearlySavingsIsNotTwelveRoundedMonths`).
- **Positive dimensions.** The button is enabled only for positive dimensions (`isFormValid`), but the `calculations` memo only needs the three fields to be non-empty. So a zero dimension yields a calculation with zero bulbs, and its energy percentage is `0/0`, i.e. NaN (`None` in `Calculation.EnergySaved`).

## Model

| member | source | states |
|---|---|---|
| LightingCalculator.Round | src/components/calculator/LightingCalculator.tsx:93-98 | `Math.round` gives the integer within half of `x`, half-way cases upwards |
| LightingCalculator.Ceil | src/components/calculator/LightingCalculator.tsx:78 | `Math.ceil` gives the least integer not below `x` |
| LightingCalculator.FindRoom | src/components/calculator/LightingCalculator.tsx:59 | a room is found iff some table entry has the id; a found room carries that id and a positive lux value |
| LightingCalculator.FindRoomIn | src/components/calculator/LightingCalculator.tsx:67 | `find` over any room list succeeds iff an entry has the id, and returns a member with that id |
| LightingCalculator.HeightMultiplier | src/components/calculator/LightingCalculator.tsx:74 | the multiplier is 1.2 iff the height exceeds 10 ft, 1.0 otherwise, and never 1.4 |
| LightingCalculator.BulbsFor | src/components/calculator/LightingCalculator.tsx:78 | the bulb count is the least n with n × lumens ≥ the target, and at least 1 for a positive target |
| LightingCalculator.EnergySavedFor | src/components/calculator/LightingCalculator.tsx:81-83 | the percentage is NaN (`None`) exactly when no bulbs are counted; otherwise it is round((60 − watts)/60 × 100) |
| LightingCalculator.UnroundedSavings | src/components/calculator/LightingCalculator.tsx:86-89 | the unrounded monthly saving is bulbs × (60 − watts) × 1.44 |
| LightingCalculator.Calculate | src/components/calculator/LightingCalculator.tsx:61-100 | a result exists iff a room id, a length and a width are entered and the room is in the table; its area is length × width, its lumens target is the lumens target of those dimensions, the found room's lux and the ceiling height, and it keeps the chosen bulb |
| LightingCalculator.BulbTableFacts | src/components/calculator/LightingCalculator.tsx:42-49 | every bulb gives 90 lumens per watt, draws under 60 W and has positive lumens |
| LightingCalculator.AdjustedLumensPositive | src/components/calculator/LightingCalculator.tsx:64-75 | positive dimensions and positive lux need a positive amount of light |
| LightingCalculator.AdjustedLumensMonotone | src/components/calculator/LightingCalculator.tsx:64-75 | the lumens target never drops when length, width or lux grows |
| LightingCalculator.BulbsNeededIsLeastCover | src/components/calculator/LightingCalculator.tsx:78 | any calculation's bulb count is the least cover of its target, and at least 1 for a positive target |
| LightingCalculator.PositiveRoomNeedsBulbs | src/components/calculator/LightingCalculator.tsx:62-78 | positive dimensions in a listed room give a calculation with a positive target and at least one bulb |
| LightingCalculator.BulbsNeededMonotone | src/components/calculator/LightingCalculator.tsx:64-78 | a longer, wider or brighter room never needs fewer bulbs, other inputs fixed |
| LightingCalculator.EnergySavedDependsOnlyOnBulb | src/components/calculator/LightingCalculator.tsx:81-83 | once bulbs are counted, the saving depends on the bulb's wattage alone |
| LightingCalculator.TwelveWattSavesEightyPercent | src/components/calculator/LightingCalculator.tsx:83 | the default 12 W bulb saves 80 per cent |
| LightingCalculator.SavingsFormula | src/components/calculator/LightingCalculator.tsx:86-98 | monthly saving, yearly saving and LED cost are rounded from the unrounded 1.44-per-watt figures; the yearly figure rounds twelve times the unrounded monthly one |
| LightingCalculator.YearlySavingsIsNotTwelveRoundedMonths | src/components/calculator/LightingCalculator.tsx:97-98 | for one 7 W bulb in a 1 ft × 1 ft bedroom the monthly saving is 76 and the yearly one 916, not 12 × 76 |
| LightingCalculator.BedroomExample | src/components/calculator/LightingCalculator.tsx:61-95 | a 10 ft × 10 ft bedroom at 9 ft with 12 W bulbs: 100 ft², 1394 lumens, 2 bulbs, 80 per cent saved |
| LightingCalculator.HighCeilingExample | src/components/calculator/LightingCalculator.tsx:74 | the same bedroom at 13 ft takes the 1.2 tier: 1672 lumens, 2 bulbs |
| LightingCalculator.Reset | src/components/calculator/LightingCalculator.tsx:108-115 | reset gives no room, blank dimensions, a 9 ft ceiling, the third bulb option (12 W, 1080 lumens), the form view and no calculation |
| LightingCalculator.HandleCalculate | src/components/calculator/LightingCalculator.tsx:102-106 | the results view opens iff a calculation exists (or it was already open); nothing else changes; if results were only ever shown over a calculation, that stays so |
| LightingCalculator.ValidFormCalculates | src/components/calculator/LightingCalculator.tsx:117 | a valid form over a listed room always calculates at least one bulb and opens the results view |
| SmartSearch.Terms | src/components/search/SmartSearch.tsx:18 | the terms are drawn in order from the pieces of the lower-cased query split at whitespace; each term is such a piece, non-empty and without whitespace, and every non-empty piece is a term |
| SmartSearch.TermsKeepText | src/components/search/SmartSearch.tsx:18 | joined together, the terms give back the lower-cased query with its whitespace removed, so dropping the empty pieces loses no text |
| Strings.Lower | src/components/search/SmartSearch.tsx:18-19 | `toLowerCase` keeps the length and lower-cases each character on its own |
| Strings.ReplaceChar | src/components/search/SmartSearch.tsx:30 | `replace(/-/g, ' ')` keeps the length and turns every hyphen, and only hyphens, into a space |
| Strings.Trim | src/components/search/SmartSearch.tsx:85 | `trim()` returns a contiguous piece of the text, cut off only whitespace at either end, that neither starts nor ends with whitespace |
| Strings.SplitWsKeepsText | src/components/search/SmartSearch.tsx:18 | joined together, the pieces of `split(/\s+/)` give back the text with its whitespace removed |
| Strings.SplitTrimmedHasNoEmptyPiece | src/components/search/SmartSearch.tsx:47-48 | a text without whitespace at either end splits into non-empty pieces only |
| Strings.SplitWsSeparators | src/components/search/SmartSearch.tsx:18 | `split(/\s+/)` cuts the text at whitespace runs: there is one separator fewer than pieces, each separator is a non-empty whitespace run, and interleaving pieces and separators gives back the text |
| Strings.SplitWsLastPiece | src/components/search/SmartSearch.tsx:47-48 | the last piece of `split(/\s+/)` is empty iff the text is empty or ends in whitespace |
| SmartSearch.AllOccur | src/components/search/SmartSearch.tsx:22 | `every` holds iff each term occurs in the text |
| SmartSearch.FuzzySearch | src/components/search/SmartSearch.tsx:17-23 | `fuzzySearch` holds iff every term of the lower-cased query occurs in the lower-cased text |
| SmartSearch.AnyFuzzy | src/components/search/SmartSearch.tsx:109 | `some` over application types or colour temperatures holds iff one of them fuzzy-matches |
| SmartSearch.RelatedToAny | src/components/search/SmartSearch.tsx:118-120 | holds iff some name word contains the query word or is contained in it |
| SmartSearch.HasWordMatch | src/components/search/SmartSearch.tsx:115-121 | holds iff some (query word, name word) pair contains one another |
| SmartSearch.FuzzySearchIgnoresCase | src/components/search/SmartSearch.tsx:18-19 | lower-casing the query or the text first does not change the answer |
| SmartSearch.RelatedCount | src/components/search/SmartSearch.tsx:50-52 | the number of related name words is positive iff some name word is related |
| SmartSearch.WordBonus | src/components/search/SmartSearch.tsx:47-53 | the word bonus is positive iff the word-match fallback holds |
| SmartSearch.CountContaining | src/components/search/SmartSearch.tsx:59-66 | at most one bonus per listed application type or colour temperature, and some bonus iff some entry, lower-cased, contains the query |
| SmartSearch.Score | src/components/search/SmartSearch.tsx:26-69 | a case-insensitive exact name match scores at least 180 |
| SmartSearch.LeadingSpaceMatchesEveryNameWord | src/components/search/SmartSearch.tsx:47-53 | an untrimmed query starting with whitespace has an empty first word, which earns 10 per name word |
| SmartSearch.TrailingSpaceMatchesEveryNameWord | src/components/search/SmartSearch.tsx:47-53 | an untrimmed query ending in whitespace has an empty last word, which likewise earns 10 per name word |
| SmartSearch.WordBonusAtLeast | src/components/search/SmartSearch.tsx:47-53 | each query word contributes 10 per related name word to the word bonus, wherever it stands in the query |
| SmartSearch.InsertIndex | src/components/search/SmartSearch.tsx:130 | the insertion point follows exactly the leading entries that outscore the new one |
| SmartSearch.SortByScore | src/components/search/SmartSearch.tsx:128-131 | the sort permutes its input, orders scores non-increasingly, and keeps equal scores in input order |
| SmartSearch.MatchingProducts | src/components/search/SmartSearch.tsx:97-125 | the matches are a subsequence of the catalogue, in catalogue order; each satisfies the match predicate, and every catalogue product that satisfies it is a match |
| SmartSearch.MatchingKeepsCounts | src/components/search/SmartSearch.tsx:97-125 | the matches add no product, and keep each matching product as many times as the catalogue lists it |
| SmartSearch.Rank | src/components/search/SmartSearch.tsx:129 | each match is paired with its score and its position |
| SmartSearch.RankedResults | src/components/search/SmartSearch.tsx:85-133 | at most 8 ranked results |
| SmartSearch.Search | src/components/search/SmartSearch.tsx:128-133 | the results are the ranked results' products, at most 8 |
| SmartSearch.RankedResultsFacts | src/components/search/SmartSearch.tsx:128-133 | the ranked results are sorted and stable, and each is a match with its true score |
| SmartSearch.SearchShortQuery | src/components/search/SmartSearch.tsx:85-88 | a query whose trimmed length is under 2 shows nothing |
| SmartSearch.SearchSound | src/components/search/SmartSearch.tsx:97-125 | every result is a catalogue product that satisfies the match predicate |
| SmartSearch.SearchComplete | src/components/search/SmartSearch.tsx:97-133 | a matching product is missing from the results only when 8 are shown |
| SmartSearch.SearchKeepsBest | src/components/search/SmartSearch.tsx:128-133 | a matching product that is cut leaves 8 results, each scoring at least as much as it |
| SmartSearch.SearchOrdered | src/components/search/SmartSearch.tsx:128-131 | results have non-increasing scores |
| SmartSearch.SearchStable | src/components/search/SmartSearch.tsx:128-131 | each result is the match at its recorded position, and results of equal score keep their catalogue order (the order of the matches) |
| SmartSearch.SearchDistinct | src/components/search/SmartSearch.tsx:97-133 | a catalogue without repeats gives results without repeats |
| ProductsPage.FilteredProducts | src/pages/ProductsPage.tsx:19-29 | the result is an order-preserving subsequence of the catalogue holding exactly the products that pass both tests: every result passes, and every passing product appears as many times as the catalogue lists it |
| ProductsPage.ClearFilters | src/pages/ProductsPage.tsx:31-34 | after clearing no filter is active |
| ProductsPage.InactiveFiltersShowAll | src/pages/ProductsPage.tsx:20-28 | with an empty query and no category the whole catalogue is shown |
| ProductsPage.ClearShowsAll | src/pages/ProductsPage.tsx:20-34 | after clearing the whole catalogue is shown |
| ProductsPage.FilteredSound | src/pages/ProductsPage.tsx:21-25 | every result literally contains the lower-cased query in its lower-cased name or description, and has the category when one is set |
| ProductsPage.CategoryNarrows | src/pages/ProductsPage.tsx:25 | choosing a category only removes results of the same query |
| ProductSelection.Add | src/context/ProductSelectionContext.tsx:18-20 | the item is appended and earlier entries are untouched |
| ProductSelection.Remove | src/context/ProductSelectionContext.tsx:22-24 | exactly the entries with the id are dropped: the rest is a subsequence without the id that keeps every other entry as many times as before, and its length plus the number of entries with the id is the old length |
| ProductSelection.WithId | src/context/ProductSelectionContext.tsx:23 | the dropped entries are, in order and with their multiplicities, exactly the entries carrying the id |
| ProductSelection.ApplyQuantityPatch | src/context/ProductSelectionContext.tsx:28 | spreading `{ quantity: q }` changes the quantity and nothing else |
| ProductSelection.ApplyIdempotent | src/context/ProductSelectionContext.tsx:28 | spreading the same patch twice equals once; the empty patch changes nothing |
| ProductSelection.Update | src/context/ProductSelectionContext.tsx:26-30 | same length; entries with the id get the patch, all others stay |
| ProductSelection.UpdateQuantity | src/context/ProductSelectionContext.tsx:26-30 | a quantity update sets the quantity of the entries with the id and nothing else |
| ProductSelection.TotalCount | src/context/ProductSelectionContext.tsx:36-38 | when every line has a quantity of at least 1, the total is at least the number of lines |
| ProductSelection.Clear | src/context/ProductSelectionContext.tsx:32-38 | clearing leaves no entries and a total of 0 |
| ProductSelection.TotalCountAppend | src/context/ProductSelectionContext.tsx:36-38 | the total of two lists joined is the sum of their totals |
| ProductSelection.AddRaisesTotal | src/context/ProductSelectionContext.tsx:18-38 | adding raises the total by the item's quantity |
| ProductSelection.RemoveLowersTotal | src/context/ProductSelectionContext.tsx:22-38 | removing lowers the total by the quantities of the removed entries |
| ProductSelection.RemoveUnknown | src/context/ProductSelectionContext.tsx:22-24 | removing an unknown id changes nothing |
| ProductSelection.UpdateUnknown | src/context/ProductSelectionContext.tsx:26-30 | updating an unknown id changes nothing |
| ProductSelection.UpdateKeepsTotal | src/context/ProductSelectionContext.tsx:26-38 | a patch without a quantity keeps the total |
| ProductSelection.RemoveAfterAdd | src/context/ProductSelectionContext.tsx:18-24 | removing the id of a freshly added, fresh-id item restores the list |
| EnquirySummary.Find | src/pages/EnquirySummaryPage.tsx:12 | `find` fails iff no entry has the id, and otherwise returns the first entry with it |
| EnquirySummary.FindFirst | src/pages/EnquirySummaryPage.tsx:12 | `find` returns the first entry carrying the id |
| EnquirySummary.HandleQuantityChange | src/pages/EnquirySummaryPage.tsx:11-17 | the length is kept, an unknown id changes nothing, and entries with other ids are untouched |
| EnquirySummary.QuantityChangeSets | src/pages/EnquirySummaryPage.tsx:14-15 | every entry with the id gets max(1, first entry's quantity + delta), at least 1, and keeps all other fields |
| EnquirySummary.StepperRoundTrip | src/pages/EnquirySummaryPage.tsx:11-17 | +1 then −1 restores a line whose quantity is at least 1 |
| EnquirySummary.Render | src/pages/EnquirySummaryPage.tsx:19-20 | the empty state is shown iff the selection is empty |
| EnquirySummary.CounterPlural | src/pages/EnquirySummaryPage.tsx:68 | a counter ends in 's' iff its count is not 1 |
| EnquirySummary.SummaryPlurals | src/pages/EnquirySummaryPage.tsx:66-72 | "Product" and "Total Item" take an 's' iff their counts are not 1 |
| ProductDetailModal.Initial | src/components/products/ProductDetailModal.tsx:25-30 | on its first mount the dialog starts on the first wattage, colour and application, quantity 1, no notes, not added |
| ProductDetailModal.SelectOptions | src/components/products/ProductDetailModal.tsx:221-256 | choosing listed options keeps the configuration valid |
| ProductDetailModal.ChangeQuantity | src/components/products/ProductDetailModal.tsx:61-63 | the quantity becomes max(1, quantity + delta), always at least 1, and nothing else changes |
| ProductDetailModal.DecrementDisabledWhenNoEffect | src/components/products/ProductDetailModal.tsx:279 | the minus button is disabled exactly when pressing it would change nothing |
| ProductDetailModal.SelectionId | src/components/products/ProductDetailModal.tsx:45 | the id is the product id, a hyphen, then only digits |
| ProductDetailModal.SelectionIdTimestamp | src/components/products/ProductDetailModal.tsx:45 | the timestamp reads back from the digits after the hyphen |
| ProductDetailModal.SelectionIdsDiffer | src/components/products/ProductDetailModal.tsx:45 | additions of one product at different times get different ids |
| ProductDetailModal.Record | src/components/products/ProductDetailModal.tsx:36-46 | the record copies the product id and name and the configuration; empty notes become absent |
| ProductDetailModal.AddToSelection | src/components/products/ProductDetailModal.tsx:36-48 | the record is appended to the store and adding is disabled |
| ProductDetailModal.AfterAddReset | src/components/products/ProductDetailModal.tsx:54-58 | after the reset the quantity is 1, notes are empty, adding is enabled and the options stay |
| ProductDetailModal.SwitchProduct | src/components/products/ProductDetailModal.tsx:366-373 | a related-product click swaps the product but keeps every option, the quantity, the notes and the added flag |
| ProductDetailModal.SwitchValidIff | src/components/products/ProductDetailModal.tsx:25-30 | after a switch the configuration is valid for the new product iff it offers all three chosen options |
| ProductDetailModal.SwitchRecordsUnofferedWattage | src/components/products/ProductDetailModal.tsx:36-45 | switching from a 9 W-only product to a 12 W-only one records the new id with 9 W |
| ProductDetailModal.SwitchProductFresh | src/components/products/ProductDetailModal.tsx:25-30 | the intended switch starts valid for the new product: quantity 1, no notes, not added |
| ProductDetailModal.FreshSwitchRecordsOffered | src/components/products/ProductDetailModal.tsx:36-45 | after the intended switch, an addition records the new id with options it offers |
| ProductDetailModal.AddThenResetKeepsValid | src/components/products/ProductDetailModal.tsx:36-58 | adding and resetting keep the configuration valid, and adding raises the store's total by the quantity |
| RelatedProducts.SameCategory | src/components/products/RelatedProducts.tsx:16 | a subsequence of the catalogue, in catalogue order, of products with the current category other than the current product; every such product is in it |
| RelatedProducts.OtherCategory | src/components/products/RelatedProducts.tsx:22 | a subsequence of the catalogue, in catalogue order, of products with another category; every such product is in it |
| RelatedProducts.GroupsKeepCounts | src/components/products/RelatedProducts.tsx:16-22 | neither filter adds a product, and each keeps every product it accepts as many times as the catalogue lists it |
| RelatedProducts.Related | src/components/products/RelatedProducts.tsx:15-25 | at most 4 catalogue products, never the current id: the first min(4, n) of the n same-category products, then the first other-category products, in catalogue order |
| RelatedProducts.GroupsPartition | src/components/products/RelatedProducts.tsx:16-22 | the two filters together hold as many products as the non-current ones |
| RelatedProducts.RelatedLength | src/components/products/RelatedProducts.tsx:15-25 | the strip has min(4, number of other products) entries |
| RelatedProducts.RelatedEmptyIff | src/components/products/RelatedProducts.tsx:15-27 | the strip is empty, and renders nothing, iff the catalogue has no other product |
| RelatedProducts.RelatedPrefersCategory | src/components/products/RelatedProducts.tsx:15-20 | with 4 or more same-category products all four shown are same-category |
| RelatedProducts.RelatedGroupsInOrder | src/components/products/RelatedProducts.tsx:15-25 | the strip is a same-category group then an other-category group, each in catalogue order |
| RelatedProducts.RelatedSplit | src/components/products/RelatedProducts.tsx:15-25 | the strip splits at k = min(4, number of same-category products): before k it is the start of the same-category filter, after k the start of the other-category filter, each group in catalogue order |
| RelatedProducts.RelatedDistinct | src/components/products/RelatedProducts.tsx:15-25 | a catalogue without repeats gives a strip without repeats |
| EmailConfig.NotesLine | src/config/emailConfig.ts:42 | the notes line is non-empty iff the item has non-empty notes |
| EmailConfig.FormatProducts | src/config/emailConfig.ts:34-43 | the listing is "No products selected" iff the list is missing or empty |
| EmailConfig.EntryMentions | src/config/emailConfig.ts:37-41 | an entry starts with its number and name and holds the wattage with "W", the colour, the application and the quantity lines |
| EmailConfig.EntryNotes | src/config/emailConfig.ts:42 | an entry ends in a "- Notes:" line iff the item has notes |
| EmailConfig.FormatInOrder | src/config/emailConfig.ts:36-43 | the entries appear in input order, numbered from 1, separated by blank lines |
| EmailConfig.ListEntry | src/config/emailConfig.ts:58 | each list entry starts with the product name, holds the quantity as " (Qty: q)" and ends with ')' |
| EmailConfig.ProductList | src/config/emailConfig.ts:58 | the product list is empty iff there are no products |
| EmailConfig.ProductListInOrder | src/config/emailConfig.ts:58 | the list holds every entry in order, separated by ", " |
| EmailConfig.GenerateSummary | src/config/emailConfig.ts:47-60 | the product count is the length and the item count equals the store's total |
| ContactPage.MatchMobile | src/pages/ContactPage.tsx:18 | the scan accepts iff the number has 10 characters, the first 6–9 and the rest digits |
| ContactPage.ErrorMap | src/pages/ContactPage.tsx:63-68 | the map has an entry for exactly the fields that some issue names |
| ContactPage.ErrorMapIgnoresLaterFields | src/pages/ContactPage.tsx:64-67 | later issues of other fields leave a field's entry alone |
| ContactPage.ErrorMapLastWins | src/pages/ContactPage.tsx:64-67 | the last issue written for a field is the one kept |
| ContactPage.IssuesMatchFailures | src/pages/ContactPage.tsx:16-26 | an issue is reported for a field iff the field breaks its rules |
| ContactPage.FailingFieldReported | src/pages/ContactPage.tsx:16-26 | a failing field is reported |
| ContactPage.ReportedFieldFails | src/pages/ContactPage.tsx:16-26 | a reported field fails |
| ContactPage.CheckFails | src/pages/ContactPage.tsx:16-26 | a failed check is a failure of its field |
| ContactPage.FailingCheck | src/pages/ContactPage.tsx:16-26 | a failing field has a failed check of its own |
| ContactPage.ErrorMapDomain | src/pages/ContactPage.tsx:60-69 | the error map's keys are exactly the failing fields, and there are no issues iff the form is valid |
| ContactPage.EmailLengthOverwrites | src/pages/ContactPage.tsx:19 | a malformed and over-long address is reported as too long, the later check overwriting |
| ContactPage.HandleInputChange | src/pages/ContactPage.tsx:46-55 | the field takes the value and loses its error; other fields and errors, the submitted flag and the selection stay |
| ContactPage.HandleSubmit | src/pages/ContactPage.tsx:57-94 | a valid form is submitted and the selection cleared; an invalid one gets a non-empty error map keyed by exactly the failing fields and nothing else changes |
| ContactPage.FixedFieldNotReported | src/pages/ContactPage.tsx:46-69 | a field edited into a valid value is not reported on the next submit |
| Testimonials.Succ | src/components/home/TestimonialsSection.tsx:72 | `(i + 1) % n` stays in range and wraps the last slide to the first |
| Testimonials.Pred | src/components/home/TestimonialsSection.tsx:80 | `(i − 1 + n) % n` stays in range and wraps the first slide to the last |
| Testimonials.GoToNext | src/components/home/TestimonialsSection.tsx:83-86 | next moves to i + 1, or from the last slide to 0, stays in range and stops autoplay |
| Testimonials.GoToPrevious | src/components/home/TestimonialsSection.tsx:78-81 | previous moves to i − 1, or from 0 to n − 1, stays in range and stops autoplay |
| Testimonials.GoToSlide | src/components/home/TestimonialsSection.tsx:88-91 | a dot sets exactly its slide and stops autoplay |
| Testimonials.Tick | src/components/home/TestimonialsSection.tsx:68-76 | the interval advances like next only while autoplaying, and otherwise changes nothing |
| Testimonials.MouseEnter | src/components/home/TestimonialsSection.tsx:125 | hovering pauses autoplay and keeps the slide |
| Testimonials.MouseLeave | src/components/home/TestimonialsSection.tsx:126 | leaving resumes autoplay and keeps the slide |
| Testimonials.PreviousUndoesNext | src/components/home/TestimonialsSection.tsx:78-86 | previous after next, and next after previous, restore the slide |
| Testimonials.Ticks | src/components/home/TestimonialsSection.tsx:71-73 | any number of ticks stays in range |
| Testimonials.TicksAdvance | src/components/home/TestimonialsSection.tsx:71-73 | k autoplay ticks move k slides on, modulo n |
| Testimonials.Nexts | src/components/home/TestimonialsSection.tsx:83-86 | any number of next clicks stays in range |
| Testimonials.NextsAdvance | src/components/home/TestimonialsSection.tsx:83-86 | k next clicks move k slides on, modulo n, and n clicks return to the start |
| Testimonials.FullCycle | src/components/home/TestimonialsSection.tsx:71-73 | n autoplay ticks return to the starting slide |
| ImageLightbox.Mount | src/components/ui/image-lightbox.tsx:20-21 | the first render starts on the initial index, not zoomed, open as the host says |
| ImageLightbox.SetOpen | src/components/products/ProductDetailModal.tsx:381-387 | the host's `isOpen` prop opens or closes the mounted lightbox and leaves its index and zoom alone |
| ImageLightbox.InitialIndexEffect | src/components/ui/image-lightbox.tsx:23-25 | the effect moves to the initial index only when that prop changes, and never touches zoom |
| ImageLightbox.OpenFromDialog | src/components/products/ProductDetailModal.tsx:65-68 | the dialog's `openLightbox(k)` opens the lightbox on k only if k differs from the last index passed, otherwise on the image shown before, with the zoom kept |
| ImageLightbox.ReopenKeepsView | src/components/products/ProductDetailModal.tsx:65-68 | reopening with the same index restores the view at closing time, zoom included |
| ImageLightbox.ReopenShowsLastImageZoomed | src/components/products/ProductDetailModal.tsx:116-124 | view image 2, zoom, Escape, click the main image: the lightbox reopens on image 2, zoomed |
| ImageLightbox.SmallerGalleryLeavesRange | src/components/ui/image-lightbox.tsx:20-25 | a kept index 2 lies outside a two-image gallery, and the right arrow then moves to 3 |
| ImageLightbox.OpenFresh | src/components/products/ProductDetailModal.tsx:65-68 | the intended opening shows image k, not zoomed |
| ImageLightbox.OpenFreshStaysInRange | src/components/ui/image-lightbox.tsx:28-68 | after the intended opening on an in-range image, every key sequence stays in range whatever the stale state |
| ImageLightbox.GoToPrevious | src/components/ui/image-lightbox.tsx:60-63 | previous maps 0 to the last index and i to i − 1, stays in range and resets zoom |
| ImageLightbox.GoToNext | src/components/ui/image-lightbox.tsx:65-68 | next maps the last index to 0 and i to i + 1, stays in range and resets zoom |
| ImageLightbox.SelectThumbnail | src/components/ui/image-lightbox.tsx:182-185 | a thumbnail sets exactly its index and resets zoom |
| ImageLightbox.ToggleZoom | src/components/ui/image-lightbox.tsx:70-72 | zoom is negated and nothing else changes |
| ImageLightbox.KeyDown | src/components/ui/image-lightbox.tsx:28-42 | keys do nothing while closed; when open Escape closes, the arrows navigate and other keys do nothing |
| ImageLightbox.PreviousUndoesNext | src/components/ui/image-lightbox.tsx:60-68 | previous after next, and next after previous, restore the index |
| ImageLightbox.AgreesWithModular | src/components/ui/image-lightbox.tsx:60-68 | the lightbox's comparisons agree with the carousel's modular arithmetic |
| ImageLightbox.Keys | src/components/ui/image-lightbox.tsx:28-46 | any key sequence leaves a closed lightbox unchanged |
| ImageLightbox.KeysStayInRange | src/components/ui/image-lightbox.tsx:28-68 | any key sequence keeps the index in range for a non-empty gallery, provided it starts in range (a product switch can break that; see Findings) |
| AIChatbot.ContainsAny | src/components/chat/AIChatbot.tsx:61 | the `||` of `includes` holds iff some keyword occurs |
| AIChatbot.Classify | src/components/chat/AIChatbot.tsx:59-71 | bedroom iff a room word occurs; energy iff no room word and an energy word; commercial iff neither and a commercial word; default iff none |
| AIChatbot.GetResponse | src/components/chat/AIChatbot.tsx:59-71 | the bedroom reply when a room word occurs, the energy reply when an energy word does and no room word, the commercial reply when only commercial words occur, the default reply otherwise |
| AIChatbot.ResponseIgnoresCase | src/components/chat/AIChatbot.tsx:60 | the reply does not depend on letter case |
| AIChatbot.RoomWordsWin | src/components/chat/AIChatbot.tsx:61-63 | any text containing "room" gets the bedroom reply, whatever else it mentions |
| AIChatbot.BedroomImpliesRoom | src/components/chat/AIChatbot.tsx:61 | "bedroom" never matches without "room" |
| AIChatbot.MessageText | src/components/chat/AIChatbot.tsx:74 | a non-empty quick question is sent as is, else the trimmed input |
| AIChatbot.Send | src/components/chat/AIChatbot.tsx:73-86 | blank text changes nothing, and non-blank text always changes the chat; the history only grows, by the user's message, with the input cleared and typing shown |
| AIChatbot.Reply | src/components/chat/AIChatbot.tsx:91-99 | the reply to the sent text is appended and typing is hidden |
| AIChatbot.BlankInputIgnored | src/components/chat/AIChatbot.tsx:74-75 | whitespace-only input with no quick question is ignored |

## Findings

| source | as written | input that shows it | evidently intended | confidence | as-written member | corrected member |
|---|---|---|---|---|---|---|
| src/components/products/ProductDetailModal.tsx:65-68 | the lightbox stays mounted and its index follows `initialIndex` only when that changes; the dialog always passes 0, so a reopened lightbox keeps its last image and zoom | open, press the right arrow, zoom, press Escape, click the main image: image 2, zoomed; after switching to a product with fewer images the kept index can lie outside the gallery | clicking the image opens on that image, not zoomed | medium, not executed | ImageLightbox.OpenFromDialog, ImageLightbox.ReopenShowsLastImageZoomed | ImageLightbox.OpenFresh, ImageLightbox.OpenFreshStaysInRange |
| src/components/products/ProductDetailModal.tsx:366-373 | a related-product click changes the `product` prop of the mounted dialog, which has no `key` and no resetting effect, so the old wattage, colour, application, quantity and notes stay | a 9 W-only product switched to a 12 W-only one: "Add to selection" records the new id with 9 W | the dialog starts over on the new product's first options | medium, not executed | ProductDetailModal.SwitchProduct, ProductDetailModal.SwitchRecordsUnofferedWattage | ProductDetailModal.SwitchProductFresh, ProductDetailModal.FreshSwitchRecordsOffered |

The rest of the model follows the code as written: the lightbox and dialog steps above are the source's, and the corrected members only show what the intended behaviour would guarantee.

## Left out

- Rendering: all JSX, CSS classes, icons, toasts and framer-motion animation. The other pages and sections are presentation only.
- Timers: the 200 ms search delay, the 1500 ms dialog reset, the 1500 ms chat delay and the 5 s carousel interval. Only the state each callback produces is modelled, not time, cancellation or interleaving with other events.
- `src/lib/emailService.ts` sends mail through a third-party library over the network. It is not part of this model.
- Floating point: `parseFloat`, IEEE-754 rounding and `toLocaleString`. Calculator inputs are taken as already parsed, exact reals.
- Definitions that transcribe one source expression have no row of their own: their contracts, where they have one, only fix a shape, and the members named after each state their properties.
- LightingCalculator.IsFormValid: `isFormValid` (see `LightingCalculator.ValidFormCalculates`). A field that `parseFloat` reads as NaN is not modelled, because dimensions are entered as already-parsed numbers.
- LightingCalculator.AdjustedLumens: the lumens target (see `LightingCalculator.Calculate`, `AdjustedLumensPositive`, `AdjustedLumensMonotone`, `BedroomExample`, `HighCeilingExample`).
- SmartSearch.Matches: the match predicate (see `SmartSearch.MatchingProducts`, `SearchSound`, `SearchComplete`).
- ProductsPage.HasActiveFilters: `hasActiveFilters` (see `ProductsPage.ClearFilters`, `InactiveFiltersShowAll`).
- ProductDetailModal.DecrementDisabled: the minus button's `disabled` (see `ProductDetailModal.DecrementDisabledWhenNoEffect`).
- ProductDetailModal.AddDisabled: the add button's `disabled` (see `ProductDetailModal.AddToSelection`, `AfterAddReset`).
- EnquirySummary.Counter: the pluralised counters (see `EnquirySummary.CounterPlural`, `SummaryPlurals`).
- EmailConfig.Entry: one product's listing (see `EmailConfig.EntryMentions`, `EntryNotes`).
- EmailConfig.Entries: the numbered listings (see `EmailConfig.FormatInOrder`).
- ContactPage.MobileValid: the mobile rule (see `ContactPage.MatchMobile`).
- ContactPage.Checks: the schema's eight checks in order (see `ContactPage.CheckFails`, `FailingCheck`).
- ContactPage.FieldFails: a field breaks its rules (see `ContactPage.IssuesMatchFailures`, `ErrorMapDomain`).
- ContactPage.Issues: the issues the schema reports (see `ContactPage.IssuesMatchFailures`, `FailingFieldReported`, `ReportedFieldFails`).
- The validation library's e-mail test and its regular-expression engine are library internals. The e-mail test is the boolean parameter `emailWellFormed`. The library's own default messages are the issue kinds `TooLong(limit)` and `InvalidEnum`, not their text.
- Unicode case folding: lower-casing maps ASCII letters only.
- `Date.now()`, `new Date()`, `console.log` and navigation. Clock readings are parameters, message timestamps are dropped, and logging and routing are left out.
- The chat assistant's greeting message, its open/closed panel, the quick-question buttons and message timestamps.
- Wishlist logic: the store behind it (`WishlistContext`) is not part of this model.
- The catalogue data (`@/data/products`) is not part of this model; it is an input sequence.
- The product `specifications` record is display-only and not modelled.
- Thin display helpers: the recommendation and featured slices, the product card's labels, the floating counter's label and the header's active-link test and keyboard shortcut.
- ContactPage.HandleInputChange: requires the value's kind (text or checkbox) to match the field. The source's untyped `value` could put a boolean into a text field; that misuse is not modelled.
- ProductDetailModal.Initial: requires non-empty wattage, colour and application lists. With an empty list the source starts from `undefined`, which the model does not represent.
- ImageLightbox.KeyDown: Escape calls the parent's `onClose`; the model takes that to close the lightbox.
- LightingCalculator.Calculate: the height slider's [8, 15] range is not enforced; any integer height is accepted.
- SmartSearch: the `isSearching` flag and the focus effect are not modelled. The exact-match priority is stated as the 180-point floor of `Score` rather than as a ranking between two products.
- The wattage of a product option and of a selection line is a natural number; the source's `number` also admits fractions.
