# Actindo Shopware 4 connector: a verified model of its translation rules

The Actindo connector is a Shopware 4 plugin. It links the shop to the Actindo ERP hub, which calls
it over XML-RPC. Under its database and ORM plumbing sits a set of deterministic rules: how hub
records become Shopware articles, categories and prices, and how Shopware articles, orders and
customers become the hub's flat records. This project models those rules in Dafny and proves
what the connector promises about them.

The shop's tables are maps and sequences. Where the connector changes them in place, they are the
fields of a class: `ArticleStore`, `VariantStore`, `StockStore`, `OrderStore`,
`CategoryRepository` and `LanguageCache`. The database, the hub's request and the clocks enter the
model as parameters. Each module follows one part of the plugin:

- `Diagnostics`: `get_time`, `get_connector_version` and `ping` of the `actindo` service.
- `Pricing`, `CustomerGroups`, `ArrayValues`, `Salutation`, `Languages`, `QueryFilters` and
  `MasterNumber`: the utility class. This covers gross and net prices, the cached group and
  language tables, list equality and replacement, salutations, the query builder for list
  filters, and the master number of variant articles.
- `Prices`, `Variants`, `ProductFields` and `ProductService`: the article service. This covers
  price tiers in both directions, variant reconciliation and export, the field rules (categories,
  group permissions, tax, shipping time), the entry points `get` and `create_update`, and the
  stock update.
- `Orders`: the order list, the payment classification with the account fields, the discount
  sum, the position lines with the shipping line, and `set_status`.
- `Customers`: the customer export, in its detailed and short forms.
- `Categories`: the action switch, both branches of the tree export, add, rename and delete, and
  the position logic of moves (`rebuildOrder`, `getNewPositionIndex`).
- `Wrappers`, `Strings` and `Sorting`: `Option`/`Result`, and stand-ins for the PHP built-ins the
  connector relies on (`strtolower`, `explode`, `empty`, `sort`, `usort`).

Loops in the source become methods. Each is proved against a specification function, and the
promised properties are lemmas about those functions.

Some behaviours of the code are easy to misread; the model takes them as written:

- `get_connector_version` takes the piece between the first and the second dot of the plugin
  version as the revision, so a version with more pieces does not contribute them.
- `rabatt_betrag` is the absolute value of the summed discount prices.
  `Orders.DiscountOfNegatives` shows that this equals the sum of their absolute values when no
  discount line is positive.
- `getDefaultLanguage` always answers the first language of the query. `getLanguages` forces the
  default flag onto the first entry, whatever the shops' own flags say.
- A batch `update_stock` stops at the first record that fails, and the updates made before it
  stay. The exception escapes the loop, so the `failed` list is never filled.
- The order list is always sorted by `id`: the only mapped sort column is `order_id`, which maps
  to `id`.
- `print_brutto` is 1 for a customer exactly when the `net` flag is set, while for an order it
  is 0 exactly for net orders. A comment in the code (Actindo/Components/Service/Customers.php:131)
  questions the customer rule. Both are modelled as written.
- In `rebuildOrder`, a moved item that comes after the reference shares the reference's new
  position. `Categories.WithReference` states this.

## Model

| member | source | states |
|---|---|---|
| Diagnostics.Split | Actindo/Components/Service/Actindo.php:74 | the hours, minutes and seconds of the `%02d:%02d:%02d` field recompose the absolute difference exactly, with minutes and seconds below 60 |
| Diagnostics.Body | Actindo/Components/Service/Actindo.php:74 | the clock text is at least eight characters and starts with a digit: every field is padded to two digits |
| Diagnostics.FormatDiff | Actindo/Components/Service/Actindo.php:71-74 | the `diff` field starts with '-' exactly when the difference is negative |
| Diagnostics.BodyRoundTrip | Actindo/Components/Service/Actindo.php:74 | reading the `HH:MM:SS` text back gives hours*3600 + minutes*60 + seconds |
| Diagnostics.DiffRoundTrip | Actindo/Components/Service/Actindo.php:71-74 | the `diff` field loses nothing: parsing it gives back the signed second count |
| Diagnostics.GetTime | Actindo/Components/Service/Actindo.php:57-77 | `diff_seconds` is local minus UTC time and the `diff` text parses back to that same number |
| Diagnostics.Revision | Actindo/Components/Service/Actindo.php:25 | there is no revision exactly when the version has no dot; otherwise it is the dot-free piece that follows the first dot |
| Diagnostics.RevisionOfTwoPart | Actindo/Components/Service/Actindo.php:25 | a "major.minor" version, such as "2.255", yields the minor part as the revision |
| Diagnostics.GetConnectorVersion | Actindo/Components/Service/Actindo.php:22-31 | the answer reports the plugin version as protocol version, the shop type "shopware4", the shop version, and the revision split from the plugin version |
| Diagnostics.Ping | Actindo/Components/Service/Actindo.php:85-90 | the answer is always ok and "pong" |
| Pricing.Round2 | Actindo/Components/Util.php:168 | the rounded amount is a whole number of cents and at most half a cent away from its input |
| Pricing.Round2Exact | Actindo/Components/Util.php:168 | an amount already in whole cents is unchanged by rounding |
| Pricing.GrossPrice | Actindo/Components/Util.php:150-155 | a gross price comes back unchanged; a net price gets the tax added, so dividing the result by 1 + rate/100 gives the net price back exactly, and a non-negative net price with a non-negative rate never decreases |
| Pricing.NetPrice | Actindo/Components/Util.php:165-171 | a net price comes back unchanged; a gross price becomes whole cents within half a cent of price / (1 + rate/100) |
| Pricing.NetOfGross | Actindo/Components/Util.php:150-171 | adding the tax to a net price in whole cents and taking it off again gives that net price back |
| Pricing.GrossOfNet | Actindo/Components/Util.php:150-171 | taking the tax off a gross price and adding it back lands within half a cent times the tax factor of the original |
| CustomerGroups.FindById | Actindo/Components/Util.php:304-310 | nothing is found exactly when no group carries the id; a found group is in the table and carries the id |
| CustomerGroups.FindByIdUnique | Actindo/Components/Util.php:304-310 | with distinct ids, the lookup of any row's id finds that row |
| CustomerGroups.TaxInputNet | Actindo/Components/Util.php:335-343 | the answer is 0 or 1; it is 1 exactly when the group exists and its tax input is 0 (prices entered net) |
| CustomerGroups.Ids | Actindo/Components/Util.php:641-652 | the ids of the cached group table, one per row and in table order |
| ArrayValues.ArrayValuesEqualIsMultisetEquality | Actindo/Components/Util.php:126-130 | comparing sorted copies holds exactly when both lists have the same multiset of values |
| ArrayValues.ReplaceAll | Actindo/Components/Util.php:132-140 | the replacement fails exactly when some value has no image; otherwise the list keeps its length and each element is mapped in place |
| ArrayValues.ArrayValuesReplace | Actindo/Components/Util.php:132-140 | the in-place loop, including its early `false` return, computes exactly `ReplaceAll` |
| Salutation.Lookup | Actindo/Components/Util.php:63-68 | the value returned is paired with the key in the salutation table |
| Salutation.GetSalutation | Actindo/Components/Util.php:829-840 | the result is always readable; a known key is translated, a readable value is kept, and anything else falls back to "Herr", the first value |
| Salutation.GetSalutationCall | Actindo/Components/Util.php:829-842 | without a key the whole salutation table is returned; with a key, its readable translation as `GetSalutation` gives it |
| Salutation.GetSalutationIdempotent | Actindo/Components/Util.php:829-840 | translating twice gives the same result as translating once |
| Languages.LanguageCode | Actindo/Components/Util.php:671 | the language code is the longest underscore-free prefix of the locale, ending where the first '_' begins |
| Languages.Get | Actindo/Components/Util.php:670 | a key is missing exactly when no entry carries it; a found value is the one stored under the key |
| Languages.Put | Actindo/Components/Util.php:670 | assigning to an array key: keys stay distinct, the key now holds the new value, every other key keeps its value, and existing entries keep their place |
| Languages.BuildEntries | Actindo/Components/Util.php:669-673 | the cache built by the query loop has distinct keys, is empty only for no rows, and starts with the first row's language id |
| Languages.BuildEntriesLastWins | Actindo/Components/Util.php:669-673 | every queried language has an entry, holding the last row with its id |
| Languages.BuildEntriesKeys | Actindo/Components/Util.php:669-673 | every key in the cache comes from a queried row |
| Languages.Languages | Actindo/Components/Util.php:659-680 | the first entry is always flagged default; with no rows, the forced flag creates an entry under the empty key |
| Languages.LanguagesKeepRest | Actindo/Components/Util.php:675-677 | only the first entry's default flag is changed; every other entry is the one the loop built |
| Languages.LanguageCache.constructor | Actindo/Components/Util.php:51 | the cache starts empty (null) |
| Languages.LanguageCache.GetLanguages | Actindo/Components/Util.php:659-680 | the first call fills the cache and every call returns the same table, `Languages(rows)` |
| Languages.LanguageCache.GetDefaultLanguage | Actindo/Components/Util.php:687-693 | the default language is the key of the cache's first entry |
| Languages.DefaultIsFirstRow | Actindo/Components/Util.php:667-693 | the default language is the first row of the query, whatever the shops' default flags say, and it has an entry |
| QueryFilters.Explode | Actindo/Components/Util.php:255 | `explode` yields at least one piece, and no piece contains the separator |
| QueryFilters.ImplodeExplode | Actindo/Components/Util.php:255 | joining the pieces with the separator gives the filter value back |
| QueryFilters.ExplodeImplode | Actindo/Components/Util.php:255 | splitting joined separator-free pieces gives the pieces back |
| QueryFilters.FilterClause | Actindo/Components/Util.php:254-257 | a `list` filter becomes one `column IN (quoted values)` clause on its mapped column; any other filter type adds nothing |
| QueryFilters.Clauses | Actindo/Components/Util.php:249-259 | a filter list adds at most one clause per filter |
| QueryFilters.Order | Actindo/Components/Util.php:231-239 | the order always starts with "1"; the mapped sort column is added exactly when a non-empty, known column is asked for, with its direction when one is given |
| QueryFilters.CreateQuery | Actindo/Components/Util.php:217-262 | an error exactly when some filter field has no column; otherwise where and order start with "1", a bare list takes no paging or sorting, and a wrapped request's start and limit become offset and limit |
| QueryFilters.FirstUnknown | Actindo/Components/Util.php:250-253 | the index of the first filter whose field has no column, with every earlier field known |
| QueryFilters.ClausesOfLists | Actindo/Components/Util.php:249-259 | each `list` filter contributes exactly one `IN` clause, in filter order, and no other filter contributes one |
| QueryFilters.ListFilters | Actindo/Components/Util.php:254 | the selected filters are all `list` filters of the request |
| QueryFilters.WhereClauses | Actindo/Components/Util.php:249-259 | the filter loop fails at the first filter whose field has no column, naming that field; otherwise it yields "1" followed by the clauses of the filters |
| QueryFilters.CreateQueryFromFilters | Actindo/Components/Util.php:217-262 | the loop that appends clauses and throws at the first unknown field computes exactly `CreateQuery` |
| QueryFilters.FirstUnknownAt | Actindo/Components/Util.php:250-253 | the loop's first unknown field is `FirstUnknown`, so the error names the same field |
| MasterNumber.Prefix2 | Actindo/Components/Util.php:1082-1090 | the result is a common prefix of both strings, and they differ (or one ends) right after it |
| MasterNumber.Prefix2Longest | Actindo/Components/Util.php:1082-1090 | every common prefix of the two strings is a prefix of `Prefix2` |
| MasterNumber.Lcp | Actindo/Components/Util.php:1074-1092 | the result is a prefix of every input |
| MasterNumber.LcpLongest | Actindo/Components/Util.php:1074-1092 | every common prefix of the inputs is a prefix of `Lcp`: nothing longer is common to all of them |
| MasterNumber.CharAt | Actindo/Components/Util.php:1083-1085 | a character exists exactly for an offset inside the string (PHP yields "" past the end) |
| MasterNumber.FindStringCongruence | Actindo/Components/Util.php:1074-1092 | the length-bound loop and the character loop return exactly the longest common prefix, including the inputs where the bound comes from an empty string |
| MasterNumber.StripTrailing | Actindo/Components/Util.php:414 | the result is a prefix of the input that is empty or ends in a letter or digit, and everything removed is neither |
| MasterNumber.FirstDetail | Actindo/Components/Util.php:420 | the single-row lookup finds nothing exactly when no variant carries the number; a found row carries it (see also line 624 of the same file) |
| MasterNumber.MaxLen | Actindo/Components/Util.php:419-426 | no variant's ordernumber is longer than the bound, which is the termination measure of the suffix loop |
| MasterNumber.Suffixed | Actindo/Components/Util.php:425 | `n` appended suffixes add `n` times the suffix's length |
| MasterNumber.Free | Actindo/Components/Util.php:419-426 | no variant carries the number the suffix loop settles on |
| MasterNumber.FreeIsLeast | Actindo/Components/Util.php:419-426 | the loop's number is the base plus the fewest suffixes that make it free: every shorter candidate is taken |
| MasterNumber.FreeEnds | Actindo/Components/Util.php:419-426 | the suffix loop keeps the base as prefix, and the number stays non-empty and ends in a letter or digit |
| MasterNumber.FindFreeNumber | Actindo/Components/Util.php:419-426 | the do-while loop computes exactly `Free` and terminates, because the existing numbers are finitely many |
| MasterNumber.MasterBase | Actindo/Components/Util.php:413-417 | the candidate is never empty in PHP's sense ("" or "0") and ends in a letter or digit |
| MasterNumber.Master | Actindo/Components/Util.php:412-426 | the derived master number is not carried by any variant, extends the candidate, is not empty and ends in a letter or digit |
| MasterNumber.NumbersOf | Actindo/Components/Util.php:400-410 | an article has no numbers exactly when no variant row belongs to it |
| MasterNumber.Stored | Actindo/Components/Util.php:384-396 | a number read back is non-empty in PHP's sense and stands in one of the article's attribute rows |
| MasterNumber.SetMaster | Actindo/Components/Util.php:905-907 | the update rewrites the master number of exactly the article's attribute rows and keeps every row's article |
| MasterNumber.SetMasterStored | Actindo/Components/Util.php:905-907 | storing a non-empty number makes it the article's stored number when it has attribute rows, and leaves every other article's stored number unchanged |
| MasterNumber.FirstMaster | Actindo/Components/Util.php:624 | finds nothing exactly when no attribute row stores the number; a found row stores it |
| MasterNumber.FindArticleId | Actindo/Components/Util.php:621-630 | a variant with the number wins; otherwise the article storing it as master number; an error exactly when neither gives a non-zero id |
| MasterNumber.StoredResolves | Actindo/Components/Util.php:384-396 | a stored master number that no variant and no other article uses resolves back to its article (see also lines 621-630 of the same file) |
| MasterNumber.ArticleStore.constructor | Actindo/Components/Util.php:384-404 | the store holds the given detail and attribute rows |
| MasterNumber.ArticleStore.FindOrdernumbers | Actindo/Components/Util.php:368-434 | ids 0 are dropped; a stored number is returned unchanged; every other article with variants gets its derived master number, stored when it has attribute rows; other articles' stored numbers do not change |
| MasterNumber.ArticleStore.DeriveAll | Actindo/Components/Util.php:412-430 | every article of the second pass gets `Master` of its numbers and has it stored; all other stored numbers are unchanged |
| MasterNumber.ArticleStore.ReadStored | Actindo/Components/Util.php:389-396 | the first pass finds exactly the wanted articles with a usable stored number, and returns that number |
| MasterNumber.ArticleStore.DeriveAndStore | Actindo/Components/Util.php:413-429 | one article: the number is `Master` of its variant numbers and becomes its stored number, and nothing else changes |
| MasterNumber.ArticleStore.NumbersOfMethod | Actindo/Components/Util.php:406-410 | the grouping loop collects the article's variant numbers in row order |
| MasterNumber.ArticleStore.FindOrdernumber | Actindo/Components/Util.php:369-433 | the single-id form returns the stored number, or else the derived one, or nothing for id 0 or an article without variants |
| MasterNumber.AskTwice | Actindo/Components/Util.php:368-434 | idempotence: for an article with attribute rows, asking twice gives the same number |
| Prices.FractionalRangeAsWritten | Actindo/Components/Service/Product.php:1191-1199 | a range of 0.5 with a positive price passes the guard as written, yet truncates to a tier starting at 0; the corrected guard refuses it |
| Prices.AcceptedStartsAtOne | Actindo/Components/Service/Product.php:1191-1199 | every tier the corrected guard accepts also passes the written guard and starts at quantity 1 or later |
| Prices.TierRangesSpec | Actindo/Components/Service/Product.php:1185-1205 | the `$ranges` map holds exactly the starts of the accepted tiers, all at least 1, each with the converted price of an accepted tier with that start |
| Prices.FirstPositive | Actindo/Components/Service/Product.php:1222 | the first position up to `i` whose previous row holds a positive pseudo price, or none when there is no such position |
| Prices.PseudoCarry | Actindo/Components/Service/Product.php:1178-1224 | a pseudo price the hub sends stays on every tier; a missing one is taken from the first previous row with a positive pseudo price and then kept for all later tiers |
| Prices.RowsAt | Actindo/Components/Service/Product.php:1221-1236 | one row per key, row `i` being the tier built from key `i` |
| Prices.GroupRows | Actindo/Components/Service/Product.php:1219-1236 | a known group writes one row per distinct start |
| Prices.KeysStartAtOne | Actindo/Components/Service/Product.php:1214-1220 | when 1 is a start and none is below it, the sorted starts begin with 1 |
| Prices.RowsChain | Actindo/Components/Service/Product.php:1232-1234 | a tier followed by a larger start ends one before that start, and never before its own start |
| Prices.RowsAtShape | Actindo/Components/Service/Product.php:1221-1236 | over strictly increasing starts the rows ascend, chain without gaps, leave the last tier open and carry their range's price |
| Prices.GroupRowsShape | Actindo/Components/Service/Product.php:1214-1236 | a group's tiers start at 1, ascend strictly, each ends one before the next begins, and the last has no `to` |
| Prices.GroupRowsCover | Actindo/Components/Service/Product.php:1219-1236 | the tiers start exactly at the keys of `$ranges`, each with that key's price |
| Prices.AllRowsKnownGroups | Actindo/Components/Service/Product.php:1171-1230 | every row written belongs to a known customer group and carries the article's base price; unknown groups write nothing |
| Prices.ImportedTiersShape | Actindo/Components/Service/Product.php:1171-1237 | for every known group the imported tiers start at 1, ascend strictly and chain without gaps |
| Prices.ImportedBasePrice | Actindo/Components/Service/Product.php:1205-1227 | for every known group the first imported tier's price is the converted base price (`grundpreis`), whatever tier the hub sent for 1 |
| Prices.BuildRanges | Actindo/Components/Service/Product.php:1185-1205 | the loop over the numbered keys computes exactly `TierRanges`, later tiers with the same start overriding earlier ones |
| Prices.EmitRows | Actindo/Components/Service/Product.php:1221-1236 | the row loop with its running pseudo price computes exactly `RowsAt` |
| Prices.UpdatePrices | Actindo/Components/Service/Product.php:1165-1238 | `_updatePrices` rebuilds the price list from scratch as the rows of every known group, in the hub's group order |
| Prices.RowsOf | Actindo/Components/Service/Product.php:464-466 | a group's rows are exactly the price rows of that customer group |
| Prices.Tiers | Actindo/Components/Service/Product.php:482-486 | the numbered tiers are exactly the rows not starting at 1, as price and start |
| Prices.LastBase | Actindo/Components/Service/Product.php:478-481 | the row that fills `grundpreis` starts at 1, and there is none exactly when no row starts at 1 |
| Prices.LastEkBase | Actindo/Components/Service/Product.php:459-462 | the row that fills the top-level `is_brutto` and `grundpreis` is an 'EK' row starting at 1, and there is none exactly when no such row exists |
| Prices.ScanRows | Actindo/Components/Service/Product.php:456-469 | the first loop sets the top-level fields from the last 'EK' base row, keeps the largest base price as `ek`, and groups the rows by customer group |
| Prices.MaxBaseBounds | Actindo/Components/Service/Product.php:468 | `ek` is at least its start value and every base price, and is one of them |
| Prices.AddToGroup | Actindo/Components/Service/Product.php:465-466 | adding a row creates or extends its own group's list and leaves every other group unchanged |
| Prices.GroupedAt | Actindo/Components/Service/Product.php:456-469 | the grouping holds, for each customer group, exactly its rows in query order |
| Prices.GroupedIsRowsOf | Actindo/Components/Service/Product.php:456-469 | the same, for all customer groups at once |
| Prices.ExportGroupEntry | Actindo/Components/Service/Product.php:472-487 | the inner loop builds the group entry: `is_brutto` from the first row, `grundpreis` from the last row starting at 1, the other rows numbered in order |
| Prices.ExportPrices | Actindo/Components/Service/Product.php:453-489 | `_exportPrices` exports one entry per customer group present, with its base price, its pseudo price when it has a base row, and numbered tiers; `ek` is the largest base price |
| Prices.ExportGroups | Actindo/Components/Service/Product.php:471-488 | the second loop exports exactly the grouped customer groups, with a pseudo price where a base row exists |
| Prices.RowsOfSnoc | Actindo/Components/Service/Product.php:464-466 | appending a row extends only its own customer group's rows |
| Prices.TiersSnoc | Actindo/Components/Service/Product.php:482-486 | appending a row adds a numbered tier exactly when it does not start at 1 |
| Prices.ExportImportStarts | Actindo/Components/Service/Product.php:471-487 | exporting a group and importing the result gives back exactly the starts 1 and every stored start above 0 that carries a positive price (see also lines 1185-1217 of the same file) |
| Variants.FirstIndexByName | Actindo/Components/Service/Product.php:1918-1923 | the search finds nothing exactly when no shop entity has the name; otherwise it finds the first one that has it |
| Variants.FirstByName | Actindo/Components/Service/Product.php:1918-1923 | the id found belongs to the first shop entity with the name, and there is none exactly when no entity has the name |
| Variants.GroupMapSpec | Actindo/Components/Service/Product.php:1917-1924 | a hub group is mapped exactly when one of its entries has a name the shop knows, and it maps to the shop id found for that name |
| Variants.OptionMaps | Actindo/Components/Service/Product.php:1925-1935 | an option gets a group entry exactly when it gets an option id |
| Variants.OptionMapSpec | Actindo/Components/Service/Product.php:1925-1935 | a hub option is mapped exactly when one of its entries has a name the shop knows, and it maps to the shop id found for that name |
| Variants.FindByName | Actindo/Components/Service/Product.php:1918-1923 | the inner search loop returns exactly `FirstByName` |
| Variants.BuildMapping | Actindo/Components/Service/Product.php:1904-1938 | `buildVariantConfiguratorMapping` computes exactly the group map and then the option maps built from it |
| Wrappers.Column | Actindo/Components/Service/Product.php:1430-1437 | one field of every row, one value per row and in order: the hub's group and option names compared here, and likewise the detail ids of the variants and `all_categories` of the export |
| Variants.OptionsOfGroup | Actindo/Components/Service/Product.php:1485-1490 | a group's option names are exactly the names of the hub options of that group |
| Variants.ConfiguratorUpdate | Actindo/Components/Service/Product.php:1422-1498 | nothing is written exactly when a configurator set exists with the same group names and the same option names, compared as sets; otherwise the set is rebuilt from the hub's groups with their options, keeping the old set's name |
| Variants.IndexOfKey | Actindo/Components/Service/Product.php:1534 | the entry of a key is found exactly when one carries that key (see also line 671 of the same file) |
| Variants.AddRow | Actindo/Components/Service/Product.php:1532-1543 | one join row opens its key's entry or appends to it; keys stay distinct and existing entries keep their place (see also lines 670-684 of the same file) |
| Variants.GroupRows | Actindo/Components/Service/Product.php:1531-1543 | the grouped entries have distinct keys |
| Variants.GroupRowsSpec | Actindo/Components/Service/Product.php:1531-1543 | each key of the rows has exactly one entry, holding that key's group ids and option ids in row order, and no other key has one (see also lines 670-684 of the same file) |
| Variants.NoRowsEmpty | Actindo/Components/Service/Product.php:1531-1543 | a key without rows has no groups and no options |
| Variants.GroupOptionRows | Actindo/Components/Service/Product.php:1531-1543 | the grouping loop computes exactly `GroupRows` (see also lines 670-684 of the same file) |
| Variants.CompareIsMatch | Actindo/Components/Service/Product.php:1552-1559 | the source's comparison (map the ids, then compare sorted copies) holds exactly when every id is mapped and the mapped ids equal the detail's as multisets, for both groups and options |
| Variants.FirstMatch | Actindo/Components/Service/Product.php:1547-1564 | the first existing detail, in detail order, that matches the combination; none exactly when no detail matches |
| Variants.MatchedId | Actindo/Components/Service/Product.php:1547-1564 | a combination is unmatched exactly when no existing detail matches it |
| Variants.MatchedIdSnoc | Actindo/Components/Service/Product.php:1549-1551 | visiting one more detail changes a combination's match only when it had none |
| Variants.MatchCombinations | Actindo/Components/Service/Product.php:1546-1564 | each combination is matched at most once, to the first detail that matches it, and only combinations of the hub are matched |
| Variants.MatchOneDetail | Actindo/Components/Service/Product.php:1548-1563 | one detail is tried against every combination not matched yet, and the match map keeps its meaning |
| Variants.CompareDetail | Actindo/Components/Service/Product.php:1552-1559 | the two comparisons of one detail with one combination decide exactly `Matches` |
| Variants.ExtendsKeeps | Actindo/Components/Service/Product.php:1567-1576 | keeping the existing rows loses no detail |
| Variants.NumberIndex | Actindo/Components/Service/Product.php:1785 | the lookup finds nothing exactly when no detail carries the number; a found row carries it |
| Variants.CreateDetail | Actindo/Components/Service/Product.php:1767-1792 | a new ordernumber gets a new detail row with the next id; a taken ordernumber makes the insert fail and the existing detail is returned, with the table unchanged; the table stays valid either way |
| Variants.CreateAll | Actindo/Components/Service/Product.php:1567-1576 | the loop over the combinations gives each one a detail id and keeps the table valid |
| Variants.CreateAllSnoc | Actindo/Components/Service/Product.php:1567-1576 | one more combination adds exactly one turn of the loop |
| Variants.PassStep | Actindo/Components/Service/Product.php:1568-1576 | one turn adds exactly one detail id and keeps the table valid |
| Variants.CreateAllKeeps | Actindo/Components/Service/Product.php:1567-1576 | the loop keeps every detail it found, where it found it |
| Variants.CreateAllIds | Actindo/Components/Service/Product.php:1567-1576 | every combination receives a detail the table holds: its matched detail, or a detail carrying its ordernumber |
| Variants.DeleteOrphans | Actindo/Components/Service/Product.php:1606-1617 | with active ids, a detail of the article survives exactly when its id is active and not 0, and other articles' details all survive; with none, nothing is deleted |
| Variants.DeleteOrphansValid | Actindo/Components/Service/Product.php:1606-1617 | deleting rows keeps ids and ordernumbers unique |
| Variants.OptionName | Actindo/Components/Service/Product.php:1579-1586 | an option's name is found exactly when the hub lists the option, and it is the name of one such entry |
| Variants.OptionNames | Actindo/Components/Service/Product.php:1578-1586 | at most one name per option id of the combination |
| Variants.EntriesFor | Actindo/Components/Service/Product.php:1567-1605 | one entry per combination, in order, with its detail id and ordernumber; only the first entry is the main detail |
| Variants.EntriesForSnoc | Actindo/Components/Service/Product.php:1567-1605 | one more combination appends exactly its own entry |
| Variants.VariantStore.constructor | Actindo/Components/Service/Product.php:1522-1543 | the store holds the given details, next id and attribute rows |
| Variants.VariantStore.FindNumber | Actindo/Components/Service/Product.php:1785 | the lookup after a failed insert finds exactly `NumberIndex` |
| Variants.VariantStore.CreateVariantDetail | Actindo/Components/Service/Product.php:1767-1807 | `_createVariantDetail` changes the table and returns the id exactly as `CreateDetail` describes |
| Variants.VariantStore.UpdateVariantDetails | Actindo/Components/Service/Product.php:1513-1621 | every combination gets exactly one entry; its detail is its matched detail or one carrying its ordernumber; all remaining details of the article are in use; with no combinations nothing is deleted; no other article loses a detail; the master number is stored |
| Variants.VariantStore.ApplyCombinations | Actindo/Components/Service/Product.php:1566-1620 | the entries, the table after the orphan deletion, and the stored master number are those of `CreateAll`, `DeleteOrphans` and `SetMaster` |
| Variants.VariantStore.EmitEntries | Actindo/Components/Service/Product.php:1566-1605 | the loop over the combinations leaves the table `CreateAll` describes and returns its ids as the active ids |
| Variants.VariantStore.Turn | Actindo/Components/Service/Product.php:1567-1604 | one turn is `PassStep`, and it writes that combination's entry |
| Variants.VariantStore.MakeEntry | Actindo/Components/Service/Product.php:1588-1600 | the entry of one combination is `EntryFor` |
| Variants.VariantStore.OptionNamesOf | Actindo/Components/Service/Product.php:1578-1586 | the name loop collects exactly `OptionNames` |
| Variants.MatchedKnown | Actindo/Components/Service/Product.php:1522-1564 | every matched detail is one the details query read |
| Variants.ReconcileOutcome | Actindo/Components/Service/Product.php:1566-1617 | the loop followed by the orphan deletion reconciles the table with the combinations, as `Reconciled` states |
| Variants.Survives | Actindo/Components/Service/Product.php:1606-1617 | a detail whose id is active survives the deletion |
| Variants.ExportCombinations | Actindo/Components/Service/Product.php:657-684 | `combination_advanced` has an entry for every ordernumber of the rows, holding its group ids and option ids in row order |
| Variants.ReimportMatches | Actindo/Components/Service/Product.php:657-684 | an exported combination comes back as a match for its own detail when every id maps to itself (see also lines 1546-1564 of the same file) |
| ProductFields.Shallowest | Actindo/Components/Service/Product.php:314-324 | nothing exactly for no categories; otherwise a category whose level is no higher than any other's and strictly lower than every earlier one's, that is, the first of the shallowest |
| ProductFields.ExportCategories | Actindo/Components/Service/Product.php:314-324 | the loop exports every category id and, as `categories_id`, the first shallowest category (0 when there is none) |
| ProductFields.Unique | Actindo/Components/Service/Product.php:993 | `array_unique` keeps every value, drops the repeats and keeps the first value first |
| ProductFields.NonZero | Actindo/Components/Service/Product.php:993 | `array_filter` keeps exactly the non-zero values |
| ProductFields.UpdateCategories | Actindo/Components/Service/Product.php:990-999 | the imported categories are exactly the non-zero ids among `swg` and `all_categories`, without repeats, with a non-zero `swg` first |
| ProductFields.NonZeroKeepsHead | Actindo/Components/Service/Product.php:993 | a non-zero first value stays first |
| ProductFields.CategoriesRoundTrip | Actindo/Components/Service/Product.php:314-324 | importing what the export wrote gives the same set of categories, with the main category first (see also lines 990-999 of the same file) |
| ProductFields.Without | Actindo/Components/Service/Product.php:414-418 | exactly the groups of the list that are not excluded (see also lines 1102-1107 of the same file) |
| ProductFields.ExportGroupPermissions | Actindo/Components/Service/Product.php:407-419 | the export loop yields exactly `ExportedPermissions`: the first append creates the `group_permission` key |
| ProductFields.ExportedPermissionsSpec | Actindo/Components/Service/Product.php:407-419 | the exported `group_permission` key is absent exactly when every known group is blacklisted; otherwise it holds exactly the known groups outside the blacklist |
| ProductFields.IntendedPermissions | Actindo/Components/Service/Product.php:405 | with the key initialised as an array, as the doc comment says, the export always holds the whitelist, empty or not |
| ProductFields.Blacklist | Actindo/Components/Service/Product.php:1092-1108 | without a permission list nothing is blacklisted; otherwise exactly the known groups outside the whitelist are |
| ProductFields.UpdateGroupPermissions | Actindo/Components/Service/Product.php:1092-1108 | the import loop computes exactly `Blacklist` |
| ProductFields.PermissionsRoundTrip | Actindo/Components/Service/Product.php:405-419 | with the key initialised as documented, exporting a blacklist as a whitelist and importing it gives back exactly the blacklisted known groups (see also lines 1092-1108 of the same file) |
| ProductFields.PermissionsRoundTripAsWritten | Actindo/Components/Service/Product.php:407-419 | as written, the same round trip holds whenever some known group stays allowed (see also lines 1092-1108 of the same file) |
| ProductFields.PermissionsLostWhenAllBlacklisted | Actindo/Components/Service/Product.php:245 | as written, an article blacklisted for every known group exports no `group_permission` key, and importing that blacklists nothing, where the documented export would blacklist every group again (see also lines 1095-1099 of the same file) |
| ProductFields.PermissionsRoundTripBack | Actindo/Components/Service/Product.php:407-419 | importing a whitelist and exporting the resulting blacklist gives back the whitelisted known groups; the key is missing exactly when no known group is whitelisted (see also lines 1092-1108 of the same file) |
| ProductFields.TaxId | Actindo/Components/Service/Product.php:1326-1336 | tax key "2" gives tax id 4; every other key gives tax id 1 |
| ProductFields.ExportShippingStatus | Actindo/Components/Service/Product.php:277 | the exported shipping status is one more than the delivery time |
| ProductFields.ShippingTime | Actindo/Components/Service/Product.php:923 | the imported delivery time is the shipping status minus one, but never negative (see also line 1597 of the same file) |
| ProductFields.ShippingRoundTrip | Actindo/Components/Service/Product.php:277 | import(export(t)) = t for every t >= 0; export(import(s)) = s for every s >= 1, and 1 for smaller s (see also lines 923, 1597 of the same file) |
| ProductService.Get | Actindo/Components/Service/Product.php:99-113 | an empty ordernumber (in PHP's sense) lists all articles; a non-empty one with the list flag lists just that product; otherwise the single article is exported, the ordernumber being passed where an article id is expected |
| ProductService.ListArticle | Actindo/Components/Service/Product.php:161-167 | the list is narrowed exactly when a non-empty ordernumber filter is given, to the article it resolves to, or to id 0 when it resolves to none |
| ProductService.GetFilter | Actindo/Components/Service/Product.php:99-113 | the plain list keeps the caller's own ordernumber filter, a narrowed list filters on the ordernumber passed in whatever the caller sent, and the single export has none |
| ProductService.ListAllUsesCallerFilter | Actindo/Components/Service/Product.php:99-167 | a plain list with the caller's ordernumber filter is narrowed to the same article as a narrowed list of that number |
| ProductService.ListOneNarrows | Actindo/Components/Service/Product.php:104-167 | a narrowed list names exactly the article its ordernumber resolves to, or no article when it resolves to none |
| ProductService.CreateUpdate | Actindo/Components/Service/Product.php:58-68 | the product is imported outright exactly when its ordernumber resolves to no article; a resolved article is updated, or, when its update throws the connector's exception, the product is imported after all |
| ProductService.ImportOrdernumber | Actindo/Components/Service/Product.php:858-863 | a plain article's main detail gets the product's own number; a variant article's gets the first variant's number, and none when there are no variants |
| ProductService.FirstDetailAppend | Actindo/Components/Service/Product.php:871-873 | a new detail with a fresh number is the one found for that number |
| ProductService.ImportThenUpdate | Actindo/Components/Service/Product.php:59-68 | once a plain article is imported under its own number, the next `create_update` of the same product updates it instead of importing it again, unless that update throws (see also lines 857-881 of the same file) |
| ProductService.UpdateDetail | Actindo/Components/Service/Product.php:823-833 | a variant record sets the stock, sets the active flag only when a status is sent, and sets the delivery time (shipping status minus one, at least 0) only when a shipping status is sent |
| ProductService.ApplyVariant | Actindo/Components/Service/Product.php:820-834 | exactly the article's details carrying the variant's ordernumber are updated; no other detail changes |
| ProductService.ApplyVariants | Actindo/Components/Service/Product.php:820-834 | a detail that no variant record names keeps its stock fields |
| ProductService.LastVariantWins | Actindo/Components/Service/Product.php:820-834 | a detail ends with the stock of the last variant record naming its ordernumber |
| ProductService.ImportStock | Actindo/Components/Service/Product.php:812-848 | an error exactly when the ordernumber is missing or resolves to no article, and then nothing changes; a variant article updates the named variants; a plain article sets its active flag and its main detail's stock and delivery time |
| ProductService.ApplyBatch | Actindo/Components/Service/Product.php:131-136 | a failing record of the batch is one of its records |
| ProductService.BatchStopsAtFirstFailure | Actindo/Components/Service/Product.php:131-136 | a failed batch stops at its first failing record: the records before it all succeeded and their updates stay, and nothing after it is applied |
| ProductService.StockStore.constructor | Actindo/Components/Service/Product.php:812-848 | the store holds the given details, attribute rows, main details, stock and active flags |
| ProductService.StockStore.ImportStockItem | Actindo/Components/Service/Product.php:812-848 | `_importStock` fails exactly as `ImportStock` does and then changes nothing; otherwise the new state is the one `ImportStock` gives |
| ProductService.StockStore.UpdateStock | Actindo/Components/Service/Product.php:123-144 | a single record is one `_importStock`; an empty list fails without change; a list is applied record by record, succeeds with every success flag set exactly when no record fails, and otherwise fails with the earlier records' writes kept |
| ProductService.FailureIsFinal | Actindo/Components/Service/Product.php:131-136 | after a record of the batch has failed, the later records change nothing of the run |
| Customers.DebKredId | Actindo/Components/Service/Customers.php:116 | the customer number is exported exactly when it is positive; otherwise 0, so the result is never negative (see also line 215 of the same file) |
| Customers.ShortName | Actindo/Components/Service/Customers.php:118 | the short name is the company when there is one (in PHP's sense of empty), otherwise "last name, first name"; it is never empty (see also line 217 of the same file) |
| Customers.AddressSpec | Actindo/Components/Service/Customers.php:122 | the address starts with the street and one space, and the rest holds exactly the characters of the street number other than spaces (see also line 221 of the same file) |
| Customers.DeliveryOf | Actindo/Components/Service/Customers.php:151-162 | a delivery address keeps its row id and is short-named by its company, or by its last name when there is no company |
| Customers.AddressesOf | Actindo/Components/Service/Customers.php:140-148 | the address query returns exactly the shipping rows of the customer, highest id first |
| Customers.OwnRows | Actindo/Components/Service/Customers.php:144 | the rows kept are exactly those whose user id is the customer's |
| Customers.Deliveries | Actindo/Components/Service/Customers.php:150-163 | one delivery address per shipping row, in row order |
| Customers.RecordWith | Actindo/Components/Service/Customers.php:115-167 | the record carries the delivery list; a non-empty list also has its last entry merged into the record; the birthday defaults to `0000-00-00`; `print_brutto` is 1 exactly when the customer's `net` flag is set (as written) |
| Customers.CustomerRecord | Actindo/Components/Service/Customers.php:113-170 | the record of one customer uses its own shipping addresses, highest id first, and has no merged address exactly when the customer has no shipping row |
| Customers.MergedIsLowestId | Actindo/Components/Service/Customers.php:145-167 | for a customer with shipping addresses, the merged address is one of them and has the lowest id of them all |
| Customers.ListEntryOf | Actindo/Components/Service/Customers.php:214-227 | a list entry has the customer's `deb_kred_id` and its user id |
| Customers.ListAgreesWithRecord | Actindo/Components/Service/Customers.php:115-132 | the short list entry and the detailed record of the same customer agree on every field they share (see also lines 214-227 of the same file) |
| Customers.CustomerQuery | Actindo/Components/Service/Customers.php:18-26 | the query fails exactly when a filter names a field outside the customer column mapping; otherwise its where clauses are those of the shared query builder, and its order starts with the builder's default and ends with `su.id DESC` (see also lines 89-90, 190-191 of the same file) |
| Customers.DeliveryList | Actindo/Components/Service/Customers.php:150-163 | the delivery loop builds the delivery addresses of the rows, in row order |
| Customers.ExportOne | Actindo/Components/Service/Customers.php:113-170 | one turn of the customer loop builds exactly the customer's record |
| Customers.ExportCustomer | Actindo/Components/Service/Customers.php:88-177 | the detailed export fails exactly when its query does, and otherwise returns the record of each customer row, in query order |
| Customers.Records | Actindo/Components/Service/Customers.php:113-170 | one record per customer row |
| Customers.RecordsAt | Actindo/Components/Service/Customers.php:113-170 | the record at each position is the record of the customer row at that position |
| Customers.ExportList | Actindo/Components/Service/Customers.php:189-235 | the short export fails exactly when its query does, and otherwise returns the entry of each customer row, in query order |
| Customers.GetList | Actindo/Components/Service/Customers.php:50-61 | the list flag selects the short list; otherwise the detailed records are returned; either fails exactly when the customer query does |
| Orders.PaymentCodeSpec | Actindo/Components/Service/Orders.php:20-42 | every payment code produced is one of the table's codes; a name outside the table gets the code of prepayment ("VK") (see also line 221 of the same file) |
| Orders.OrderListParams | Actindo/Components/Service/Orders.php:71-88 | paging defaults to start 0 and limit 50, the sort order to DESC; a known sort column is mapped through the column map, and an empty or unknown one becomes `id` |
| Orders.OrdersSortById | Actindo/Components/Service/Orders.php:71-87 | whatever sort column is requested, the orders are sorted by `id`, since the only mapped field maps to `id` |
| Orders.Abs | Actindo/Components/Service/Orders.php:300 | the absolute value is non-negative and equals the value or its negation |
| Orders.Discount | Actindo/Components/Service/Orders.php:283-300 | the discount loop yields the absolute value of the summed net discount prices, where a price with a positive tax rate is divided by 1 + rate/100 |
| Orders.DiscountOfNegatives | Actindo/Components/Service/Orders.php:290-300 | when no discount line has a positive price, the sum is not positive and its absolute value is the sum of the absolute net prices |
| Orders.Holder | Actindo/Components/Service/Orders.php:231-248 | the account holder is exported exactly when it is neither empty nor the placeholder "Inhaber", and then unchanged |
| Orders.DebitFields | Actindo/Components/Service/Orders.php:223-234 | for debit, an account that matches the IBAN pattern fills IBAN and SWIFT; any other fills the account number and the bank code with spaces, dashes and slashes removed |
| Orders.FirstMandate | Actindo/Components/Service/Orders.php:239-250 | the mandate chosen is the first with both a BIC and an IBAN, and there is none exactly when no mandate has both |
| Orders.SepaFields | Actindo/Components/Service/Orders.php:235-253 | for SEPA, the first complete mandate fills IBAN, SWIFT and the holder; without one no account field is set |
| Orders.AccountFields | Actindo/Components/Service/Orders.php:221-257 | the account fields depend on the payment code: debit and SEPA have their own rules and every other code sets none |
| Orders.CountryIso | Actindo/Components/Service/Orders.php:121-124 | a known country id gives its ISO code and an unknown one falls back to "de" |
| Orders.CustomerLangcode | Actindo/Components/Service/Orders.php:183-194 | the customer's `langcode` is set exactly when the language shop's locale is not empty and its head before `_` has two characters, and it is then that head lower-cased |
| Orders.OrderRecordOf | Actindo/Components/Service/Orders.php:114-300 | an order's record has its id and status; the payment means' name (empty when it cannot be read) and its payment code; the short name and the address built from the billing fields; the billing and delivery countries with the "de" fallback; the top-level `langcode` equal to the order's language and the customer's `langcode` as `CustomerLangcode` gives it; `print_brutto` 0 exactly for net orders; the account fields for its code; and a non-negative discount |
| Orders.AccountOnlyForDebit | Actindo/Components/Service/Orders.php:221-254 | an order exports account fields only when the table names its payment means as debit (L) or SEPA (LSCORE) |
| Orders.OrderRecords | Actindo/Components/Service/Orders.php:97-111 | the list never holds more records than the page has orders |
| Orders.ExportedOrders | Actindo/Components/Service/Orders.php:98-111 | the orders kept are orders of the page whose status is not negative and whose customer could be read |
| Orders.RecordsOfExported | Actindo/Components/Service/Orders.php:97-111 | the list holds exactly one record per exported order, in page order, and no record has a negative status |
| Orders.ExportedOrdersListed | Actindo/Components/Service/Orders.php:97-111 | every order of the page with a non-negative status and a readable customer is exported |
| Orders.ExportOrder | Actindo/Components/Service/Orders.php:114-300 | exporting one order builds exactly its record |
| Orders.ListTurn | Actindo/Components/Service/Orders.php:97-111 | one turn of the list loop extends the records of the orders seen so far to those of one more order |
| Orders.GetList | Actindo/Components/Service/Orders.php:70-315 | the order list fails exactly when the shop reports no orders at all; otherwise it holds the records of the page's exported orders |
| Orders.LineOf | Actindo/Components/Service/Orders.php:346-364 | a position is a delivery line ("Lief") exactly when its mode is 0 or 1 and a service line otherwise; it keeps article number, price, tax rate and quantity; its article name is the stored name with its named and numeric references to `&`, `"`, `<` and `>` decoded (never longer); only a premium article gets the premium long text, whose literal is kept character for character (the umlaut written as U+221A U+00A7) |
| Orders.LineNameUnescaped | Actindo/Components/Service/Orders.php:349 | an article name stored HTML-escaped is exported exactly as entered, and a name without an ampersand is exported unchanged |
| Strings.HtmlRoundTrip | Actindo/Components/Service/Orders.php:349 | `htmlspecialchars_decode` with its ENT_COMPAT default (one pass over `&amp;`, `&quot;`, `&lt;`, `&gt;` and the numeric references to those four characters) undoes `htmlspecialchars` for every string |
| Strings.HtmlDecodePlain | Actindo/Components/Service/Orders.php:349 | decoding leaves a string without an ampersand unchanged |
| Strings.HtmlDecodePlainPrefix | Actindo/Components/Service/Orders.php:349 | a head without an ampersand is copied and decoding goes on after it |
| Strings.DecodeNumeric | Actindo/Components/Service/Orders.php:349 | an `&#` reference that `NumericRef` accepts is replaced by its character and decoding goes on after its `;` |
| Strings.DecimalAmpersand | Actindo/Components/Service/Orders.php:349 | the decimal reference `&#38;` decodes to `&` |
| Strings.ZeroPaddedAmpersand | Actindo/Components/Service/Orders.php:349 | leading zeros are allowed: `&#0038;` decodes to `&` |
| Strings.HexLessThan | Actindo/Components/Service/Orders.php:349 | the hexadecimal reference `&#x3C;` decodes to `<` |
| Strings.ApostropheKept | Actindo/Components/Service/Orders.php:349 | the reference `&#039;` to the single quote is kept as it is |
| Strings.DecodeAmpersandBetween | Actindo/Components/Service/Orders.php:349 | a name such as "Rock &#38; Roll" is exported with a bare `&` between the same text |
| Orders.Lines | Actindo/Components/Service/Orders.php:340-384 | there are never more lines than positions |
| Orders.NonDiscounts | Actindo/Components/Service/Orders.php:342-344 | the positions kept are positions of the order that are not discounts |
| Orders.LinesOfNonDiscounts | Actindo/Components/Service/Orders.php:340-384 | the lines are those of the non-discount positions, one for one and in order |
| Orders.MaxTaxRate | Actindo/Components/Service/Orders.php:338-341 | the shipping tax rate is at least 0 and every position's rate, discounts included; it is 0 or the rate of some position |
| Orders.ShippingLine | Actindo/Components/Service/Orders.php:386-397 | the shipping line is one unit of `SHIPPING<dispatch id>`, a service line at the highest tax rate, priced net or gross as the order is |
| Orders.ListPositions | Actindo/Components/Service/Orders.php:324-424 | the positions reply is the lines of the non-discount positions followed by the shipping line |
| Orders.OrderStore.constructor | Actindo/Components/Service/Orders.php:436-441 | the store starts with the given order states and the given status and comment columns |
| Orders.OrderStore.SetStatus | Actindo/Components/Service/Orders.php:436-453 | an unknown status is refused and nothing is written; otherwise the order's status and comment are written (nothing for an unknown order id), and the reply fails exactly when a requested notification mail fails |
| Categories.Dispatch | Actindo/Components/Service/Category.php:55-74 | the action is matched case-insensitively; an unknown action is an error; add, delete and textchange go to their operations, and append, above and below become a move whose reference is the parent for an append and the reference otherwise |
| Categories.DispatchIgnoresCase | Actindo/Components/Service/Category.php:56 | two action names that differ only in case are routed alike; a move keeps the action as given |
| Categories.AddParent | Actindo/Components/Service/Category.php:186-188 | a parent id below 1 becomes 1, the root; any other is kept |
| Categories.RootIds | Actindo/Components/Service/Category.php:132-134 | the roots are ids of rows of the table |
| Categories.RootIdsSpec | Actindo/Components/Service/Category.php:132-134 | an id is a root exactly when some row with that id has no parent, and the roots keep table order (the roots of the first `k` rows are a prefix) |
| Categories.HostLast | Actindo/Components/Service/Category.php:132-146 | the node a row is hung under is a row of the table: its parent when already seen, otherwise the first root |
| Categories.Grow | Actindo/Components/Service/Category.php:120-147 | when the legacy walk succeeds, it has one node per row id and its top level is the rows without a parent, in table order |
| Categories.LegacyCategoryTree | Actindo/Components/Service/Category.php:117-154 | the legacy tree fails exactly when some row has an unseen parent and no root has been seen before it; otherwise each id has a node; the top level exists exactly when there is a root; with distinct ids each node's children are the rows hung under it, and the top level is the first root's children |
| Categories.GrowFails | Actindo/Components/Service/Category.php:136-143 | a row that cannot be placed is a witness of failure |
| Categories.GrowErrIff | Actindo/Components/Service/Category.php:120-147 | the legacy walk fails exactly when some row has a parent it cannot place it under |
| Categories.HostedOnlyKnown | Actindo/Components/Service/Category.php:136-145 | a category id that is not in the table hosts no children |
| Categories.GrowShape | Actindo/Components/Service/Category.php:125-146 | with distinct ids, every node's children are exactly the rows hung under it, in table order |
| Categories.ChildrenOfRows | Actindo/Components/Service/Category.php:161-177 | the children found for a parent are ids of rows of the table |
| Categories.ChildrenOfRowsSpec | Actindo/Components/Service/Category.php:161-177 | an id is a child of `x` exactly when some row with that id has parent `x`, and the children keep table order (those of the first `k` rows are a prefix) |
| Categories.RootedTree | Actindo/Components/Service/Category.php:96-116 | the newer branch succeeds exactly when there is one root; with several it fails with "Multiple Roots found! Not allowed" and with none with "No Root found!"; on success it returns the root's children |
| Categories.HostedIsChildren | Actindo/Components/Service/Category.php:136-177 | when every parent row comes before its children, the legacy branch hangs each row under its own parent |
| Categories.BranchesAgree | Actindo/Components/Service/Category.php:95-177 | on a table with distinct ids whose parents come first, the legacy walk succeeds, its children are those the newer branch finds, and with a single root both branches export the same top level |
| Categories.Under | Actindo/Components/Service/Category.php:338-392 | the ids kept are exactly the stored categories with the given parent, without repeats |
| Categories.ChildrenIn | Actindo/Components/Service/Category.php:338-393 | the children of a parent are exactly the stored categories under it, without repeats, ordered by position |
| Categories.ByLeft | Actindo/Components/Util.php:1101-1103 | sorting by left value is a permutation of the children and orders them by their nested-set left value |
| Categories.SweepsWithin | Actindo/Components/Service/Category.php:343-370 | the loop sets positions only for children of the parent |
| Categories.Resequence | Actindo/Components/Service/Category.php:343-370 | the renumbering touches only children of the parent |
| Categories.SweepBeforeReference | Actindo/Components/Service/Category.php:344-370 | until the reference is met, the loop sets nothing except the moved item, which gets the child count |
| Categories.ZeroReference | Actindo/Components/Service/Category.php:349-369 | with reference 0, every child gets a position, the moved item gets 0, and the other children get increasing positive positions in child order |
| Categories.SweepZero | Actindo/Components/Service/Category.php:347-370 | with reference 0, after each prefix of the children the counters and positions are exactly those stated in closed form |
| Categories.WithReference | Actindo/Components/Service/Category.php:354-369 | with a reference among the children: siblings before it are left alone; the reference and later siblings get their index plus one, skipping the moved item; a moved item that came earlier gets the child count, and one that came later shares the reference's position |
| Categories.ReferenceAbsent | Actindo/Components/Service/Category.php:344-370 | with a non-zero reference that is not a child, only the moved item is renumbered, to the child count |
| Categories.Repositioned | Actindo/Components/Service/Category.php:364-372 | the table keeps its ids; the categories given positions get those positions and all others are unchanged |
| Categories.LastIndexOf | Actindo/Components/Service/Category.php:402-411 | the index found holds the value and no later element does; there is none exactly when the value is absent |
| Categories.CountWithout | Actindo/Components/Service/Category.php:394-399 | the append position is the child count, one less when the moved item is already a child |
| Categories.FindLast | Actindo/Components/Service/Category.php:402-411 | the search loop finds the last index of the reference among the sorted children |
| Categories.Renumber | Actindo/Components/Service/Category.php:343-370 | the loop produces exactly the renumbering of the children around the reference |
| Categories.CategoryRepository.constructor | Actindo/Components/Service/Category.php:81-86 | the repository starts with the given table and an id counter above every stored id |
| Categories.CategoryRepository.CategoryAdd | Actindo/Components/Service/Category.php:185-202 | the new category gets a fresh id and the given name; its parent is the requested one (1 below 1) when stored, and none otherwise; nothing else changes |
| Categories.CategoryRepository.CategoryRename | Actindo/Components/Service/Category.php:211-221 | renaming succeeds exactly for a stored category and changes only its name |
| Categories.CategoryRepository.CategoryDelete | Actindo/Components/Service/Category.php:229-235 | the category is removed if it was stored; nothing else changes |
| Categories.CategoryRepository.RebuildOrder | Actindo/Components/Service/Category.php:334-373 | fails without writing when the parent (or, for an append, the item) is not stored; an append gives the item the child count; above and below apply the renumbering of the parent's children |
| Categories.CategoryRepository.GetNewPositionIndex | Actindo/Components/Service/Category.php:382-422 | fails exactly for an unknown item; counts the children of the reference's parent (or of the item when the reference is not stored); an append gets the child count less the item; otherwise the position is the reference's last index by left value, 1 when that index is 0, and 0 with no sibling when the reference is not a child |

## Left out

- Strings.HtmlDecode: models the ENT_COMPAT default of `htmlspecialchars_decode` in PHP 5.4 to 8.0: named and numeric references to `&`, `"`, `<` and `>` are decoded, and `&#39;`/`&#039;` are kept. PHP 8.1 changed the default to ENT_QUOTES, which also decodes the single quote; that default is not modelled.
- The `error_log` calls of the customer export (Customers.php:51-52, 59, 91 and 192). They write the request, the queries and the result to the PHP log and change nothing the model keeps.
- Database, ORM and API access. Every query, `persist`/`flush`, and the `resources->article/order/customer` calls become maps, sequences or class fields. Rows come back in the sequence's order, which stands in for the database's order.
- Images, downloads, translations, cross-selling, `_updateFixVariants`, `_checkActiveArticles`, `_scanForFragments` and the raw translation upserts. These are file I/O or direct SQL repair paths.
- The field-by-field body of `importProduct` and the article update. Only the choice of the main detail's ordernumber is modelled (`ProductService.ImportOrdernumber`).
- Option relations and the attribute rows of the variant details that are created or deleted. Configurator groups that are created only because an option names an unknown group are also left out.
- The DISTINCT of the attribute query in `findOrdernumberForVariantArticle`. The per-article grouping does not depend on it.
- `categoryMove`. Its 4.1 path calls the category denormalisation with an undefined `$parentId`, and its older path hands the result of `getNewPositionIndex` to the nested-set persisters (`persistAsFirstChildOf` and the like), which are not part of this model. The routing into it (`Categories.Dispatch`) and both position computations it uses are modelled.
- Categories.CategoryRepository.CategoryDelete: the ORM's cascade to subcategories is not modelled; only the category itself is removed.
- Categories.CategoryRepository.CategoryAdd: the position and nested-set left value of a new category are set to 0. The nested-set bookkeeping is not modelled.
- Categories.CategoryRepository.CategoryRename: the `html_entity_decode` of the new name is not modelled; the name is stored as given.
- Categories.LegacyCategoryTree: the error message text and the `omitRoot` flag are not modelled; the first root's children are always returned. PHP references are replaced by an arena of nodes.
- Categories.RootedTree: returns the ids of the root's children. The deeper levels that `runChildrenCategories` adds are stated only through `Categories.BranchesAgree`, and on a table with a parent cycle the PHP recursion would not terminate. The log-file write of this branch is not modelled.
- Categories.CategoryRepository.GetNewPositionIndex: for "above", the source takes the sibling row rather than its id as `previous`; the model returns the id in both cases. With equal left values, `usort` with a comparator that never answers 0 may order them differently from the stable sort used here.
- `ScanForNullAndCorrect`, `isTableExists`, and the Klarna and Payone lookups of the order list. The first two are not defined in the utility class shown; the lookups read foreign plugin tables.
- The `Enlight()->Events()->filter` hooks of the order export. They are treated as the identity.
- Floating point. Prices, tax rates and discounts are exact reals. `round($x*100)/100` is rounding half away from zero to whole cents; IEEE behaviour is not modelled.
- Dates and clocks. `get_time` takes the local-minus-UTC difference in seconds as input. Order dates, timestamps and `birthday` formatting are left out of the order record.
- PHP's loose comparisons. Names compared with `==` are compared as exact strings. `intval` of category id strings is taken as already applied.
- Mail sending in `set_status`. Whether the notification fails is the parameter `mailFails`, and the exception's message text is not kept.
- The order count, the customer count and `set_deb_kred_id`. These are single SQL statements with no rule beyond the query.
- The `FOUND_ROWS()` counts and the `LIMIT`/`OFFSET` paging of the customer and article lists. The model receives the page of rows the query returns.
- ProductFields.TaxId: the tax-key `switch` compares loosely in PHP, so a key such as "2.0" would also select tax id 4. The model matches only "2".
- `exportProduct` is called with the ordernumber where an article id is expected. The model records which path `get` takes, not the export itself.
- `checkAuth`, the XML-RPC transport, `utf8Encode`/`utf8Decode`, the Bootstrap installer, the frontend controller and `Settings`. These are authentication, framing, charset or installation code.
- ProductService.CreateUpdate: what an update that throws has already written before the product is imported is not modelled; only the route taken is.
- `_updateCrossellings`. Cross-selling is part of the article update, which is left out.
- Orders.OrderRecords: states only the length bound. The content is stated by `Orders.RecordsOfExported` and `Orders.ExportedOrdersListed`.
- Orders.Lines: states only the length bound. The content is stated by `Orders.LinesOfNonDiscounts`.
- The order record keeps the id, status, payment, short name, address, countries, both language codes, `print_brutto`, account and discount fields. The fields copied without a rule (currency, amounts, comment, names, phone numbers, dates, the delivery address block) are not part of the model.
- Customers.Records: states only the length. The content is stated by `Customers.RecordsAt`.
- Customers.ListEntryOf: states two fields. The others are related to the detailed record by `Customers.ListAgreesWithRecord`.
- Categories.SweepsWithin: states only which children get positions. The values are stated by `Categories.ZeroReference`, `Categories.WithReference` and `Categories.ReferenceAbsent`.
- Categories.Resequence: states only which children get positions. The values are stated by the same three lemmas.

## Findings

| source | as written | input that shows it | evidently intended | confidence | as-written member | corrected member |
|---|---|---|---|---|---|---|
| Actindo/Components/Service/Product.php:1191-1199 | a tier is accepted when `(float) preis_range > 0`, and its start is then `(int) preis_range` | `preis_range1 = 0.5` with `preis_gruppe1 = 10` passes the guard and yields a tier starting at quantity 0 | only tiers starting at quantity 1 or later are accepted | low, not executed | Prices.FractionalRangeAsWritten | Prices.AcceptedStartsAtOne |
| Actindo/Components/Service/Product.php:245 | the response initialises the key `group_permissions` while the export appends to `group_permission`, so that key exists only after a first append | an article whose blacklist holds every known group exports no `group_permission` key, and importing the product again blacklists no group | the key `group_permission` initialised as an empty array, as the doc comment at line 405 assumes, so that the import blacklists every group again | medium, not executed | ProductFields.PermissionsLostWhenAllBlacklisted | ProductFields.PermissionsRoundTrip |
