# Crypto and pepe chat-bot commands, modelled in Dafny

This project models the logic behind two commands of a Discord chat bot.

**`crypto`** shows a market's price with a chart. The model covers:
- the autocomplete behind it: `fuzzyMatch`, `findMatches` over the fixed table of 67 markets, and the trim-then-take-24 step;
- the projection of the last 27 hourly candles onto chart points;
- the emoji ladder and the red/green colour of the 24-hour change;
- the ticker symbol shown in the title (the first `btc` removed, then upper-cased);
- the lookup of the coin by ticker.

**`8pepe` and `pepe`** serve pepe images. The model covers:
- the Java-style string hash;
- the seeded index `abs(hash(trim(lower(phrase)))) % URIs.length`;
- the in-place Fisher–Yates `shuffle`;
- the `randomPepe` state, in which `activeList` and `URIs` can be one array;
- `camelize` and the rendering of image names (an optional `[id] ` prefix and the camelized name, at most 100 UTF-16 code units when the id has at most 97 digits);
- the search filter with its cut to 25 entries.

Modules:
- `Wrappers`: `Option`.
- `JsString`: the string built-ins the two files call, on `string` and on UTF-16 code units.
- `JsArray`: the array built-ins, plus class `JsArray`, a JavaScript array mutated in place.
- `CoinTable`: the table of markets, with a proof that its tickers are distinct.
- `Crypto`: the `crypto` command.
- `Pepe`: the two pepe commands. Their module-level state is class `PepeState`.

Imperative code is modelled as imperative Dafny:
- `fuzzyMatch` is a method with a loop that shifts and splices local copies.
- `hash` is a method with a `for` loop.
- `shuffle` is a method that swaps cells of a `JsArray` in place.
- `randomPepe`, `pepeReply` and `pepeSearch` are methods of `PepeState` that change its arrays.

Each of these methods is proved against a specification function: `FuzzyMatches`, `HashOf`, `Shuffled`, or `Pool` together with `Pool`'s head. Its properties are then proved as lemmas and as the class invariant `Valid`.

Two behaviours differ from what the function names suggest:
- `fuzzyMatch` is not an ordered-subsequence test. Each query character deletes the first remaining copy of itself from the candidate, so the test is containment of the multisets of lower-cased characters: `"abc"` matches `"acb"` (`Crypto.FuzzyMatch`, `Crypto.FuzzyMatchReordered`).
- `randomPepe` never reshuffles the full list. `shuffle` returns its argument, so `activeList = shuffle(URIs)` makes `activeList` the same array as `URIs`, and every `shift()` removes an element from `URIs` itself. The list drains. From then on every call returns `''`, and `seedPepe` takes its remainder over the shrunken list, so on an empty list it passes no image (`Pepe.PepeState.RandomPepe`, `Pepe.PepeState.ServedWithoutRepeats`, `Pepe.PepeState.SeedPepe`).

Inputs the model takes as parameters or abstracts:
- `Math.random()` is a sequence `draws` of reals in [0, 1). Draw *k* picks `floor(draws[k] * currentIndex)`.
- The initial contents of `data/pepes.json` are the constructor argument of `PepeState`.
- The regular expression `pepeNameRegex` is a function argument `exec` that returns the optional `id` and `pepe` groups.
- Prices are `real`s that are only copied or compared.

## Model

| member | source | states |
|---|---|---|
| Crypto.FuzzyMatch | crypto.ts:209-226 | the shift/splice loop returns true exactly when the multiset of the lower-cased query's characters is contained in that of the lower-cased candidate |
| Crypto.FuzzyMatchEmptyQuery | crypto.ts:215-218 | the empty query matches every candidate |
| Crypto.FuzzyMatchReflexive | crypto.ts:212-225 | every string matches itself |
| Crypto.FuzzyMatchOrderInsensitive | crypto.ts:212-225 | reordering the characters of the query or of the candidate never changes the result |
| Crypto.LowerPermutation | crypto.ts:210-213 | lower-casing two strings with equal character multisets gives strings with equal multisets |
| Crypto.FuzzyMatchReordered | crypto.ts:212-225 | `fuzzyMatch("abc", "acb")` is true: order is not checked |
| Crypto.FuzzyMatchScattered | crypto.ts:209-226 | `fuzzyMatch("BTC", "Bitcoin")` is true |
| Crypto.FuzzyMatchRepeatedLetter | crypto.ts:220-224 | `fuzzyMatch("aa", "abc")` is false: each candidate character is used once |
| Crypto.FuzzyMatchCaseInsensitive | crypto.ts:210-211 | upper-casing the whole query or the whole candidate, or lower-casing both, never changes the result |
| Crypto.FuzzyMatchLongerQuery | crypto.ts:220-224 | a query longer than the candidate never matches |
| Crypto.MatchesIn | crypto.ts:229 | filtering a table of coins by name-or-ticker match keeps the matching rows in table order, each as often as it occurs in the table, and drops every other row |
| Crypto.FindMatches | crypto.ts:228-230 | the result is a subsequence of the coin table, every entry matches by name or ticker, and every matching row is present |
| Crypto.FindMatchesEmptyQuery | crypto.ts:228-230 | the empty query returns the whole table in order |
| Crypto.FocusedQuery | crypto.ts:257 | the trimmed focused option, empty when there is none (the definition; `AutocompleteBlankQuery` uses it) |
| Crypto.Autocomplete | crypto.ts:256-260 | the reply is the first min(24, n) matches of the trimmed option, with an absent option read as empty |
| Crypto.AutocompleteSound | crypto.ts:257-258 | every suggestion is a table row that matches the trimmed query |
| Crypto.AutocompleteBlankQuery | crypto.ts:257-258 | an absent or all-white-space option suggests the first 24 rows |
| Crypto.FindCoin | crypto.ts:107 | the lookup returns a table row with that ticker, and fails exactly when no row has it |
| Crypto.FindCoinOfRow | crypto.ts:107 | every row is found by its own ticker |
| Crypto.Symbol | crypto.ts:113 | the symbol is 3 characters shorter when the ticker contains `btc`, has no lower-case ASCII letter, and is the upper-cased ticker when there is no `btc` |
| Crypto.SymbolCutsFirstBtc | crypto.ts:113 | when the ticker contains `btc`, the symbol is the upper-cased ticker with the first occurrence cut out |
| Crypto.SymbolOfBtcusd | crypto.ts:113 | `btcusd` shows as `USD` |
| Crypto.SymbolOfTbtcusd | crypto.ts:113 | `tbtcusd` shows as `TUSD` |
| Crypto.SymbolOfEthusd | crypto.ts:113 | `ethusd` shows as `ETHUSD` |
| Crypto.Glyph | crypto.ts:45-58 | the emoji string of each band, one code point each |
| Crypto.GlyphDistinct | crypto.ts:45-58 | the five bands have five different emoji, so the emoji in the title tells the band |
| Crypto.EmojiFor | crypto.ts:45-59 | the five bands: at least 10, [0, 10), [-10, 0), [-15, -10), below -15, each iff its emoji |
| Crypto.ColourFor | crypto.ts:114 | red for a negative change, green otherwise (the definition; `RedIffFalling` relates it to the emoji) |
| Crypto.RedIffFalling | crypto.ts:114 | the colour is red exactly when the emoji is one of the three falling ones |
| Crypto.HeadlineFor | crypto.ts:107-115 | an unknown ticker is the error reply; otherwise the name is that of the ticker's row, the symbol is derived from the ticker, the colour is red exactly for a falling change, and the emoji is the glyph of the change's band |
| Crypto.Project | crypto.ts:79-85 | a candle becomes a chart point with its open, high, low, close and volume (the definition; `Dataset` states it for every point) |
| Crypto.Dataset | crypto.ts:78-86 | min(27, n) points from the trailing candles in order, taking open, high, low, close and volume and dropping the close time and quote volume |
| CoinTable.CoinAt | crypto.ts:139-207 | row `i` of the table (the definition; `CoinValuesDistinct` states its distinct tickers) |
| CoinTable.Coins | crypto.ts:139-207 | the 67 rows in table order (the definition) |
| CoinTable.RowOfEveryRow | crypto.ts:139-207 | the ticker-to-row lookup inverts the table |
| CoinTable.CoinValuesDistinct | crypto.ts:139-207 | no two rows share a ticker, so the lookup by ticker is unambiguous |
| JsString.Lower | crypto.ts:210-211 | `toLowerCase` keeps the length and maps each character |
| JsString.Upper | crypto.ts:113 | `toUpperCase` keeps the length and maps each character |
| JsString.Trim | crypto.ts:257 | `trim` never lengthens the string (its shape is stated by `TrimEmpty` and `TrimShape`) |
| JsString.LowerTrimCommute | pepe.ts:70 | lower-casing and trimming commute |
| JsString.TrimEmpty | crypto.ts:257 | `trim` yields the empty string exactly for an all-white-space string |
| JsString.TrimShape | crypto.ts:257 | a non-empty trim is a contiguous slice that starts and ends with non-space, and everything cut off is white space |
| JsString.TrimIdempotent | crypto.ts:257 | trimming twice equals trimming once |
| JsString.IndexOf | crypto.ts:113 | `indexOf` returns the first occurrence of the pattern, or none when it does not occur |
| JsString.Includes | pepe.ts:100 | `includes` holds when `indexOf` finds the pattern (the definition; `IncludesMeansOccurs` states it as an occurrence) |
| JsString.IncludesMeansOccurs | pepe.ts:100 | `includes` holds exactly when the pattern occurs at some position |
| JsString.ReplaceFirst | crypto.ts:113 | `replace` with a string pattern replaces only the first occurrence and leaves the string alone when there is none |
| JsString.ReplaceFirstCount | pepe.ts:25-26 | replacing the first copy of `x` by `y` removes one copy of `x` when there is one, leaving other counts alone |
| JsString.Slice | pepe.ts:40 | `slice` with negative ends counted from the end, clamped to the string |
| JsString.Utf16 | pepe.ts:18 | code points become one or two UTF-16 code units |
| JsString.Utf16Append | pepe.ts:40 | UTF-16 encoding distributes over concatenation |
| JsString.LowerUnitsOfUtf16 | pepe.ts:100 | lower-casing the code units equals encoding the lower-cased string |
| JsArray.Filter | crypto.ts:229 | `filter` never lengthens the array |
| JsArray.FilterSpec | crypto.ts:229 | `filter` keeps exactly the elements satisfying the predicate, and everything when all do |
| JsArray.FilterSound | crypto.ts:229 | every kept element is from the array and satisfies the predicate |
| JsArray.FilterComplete | crypto.ts:229 | every element satisfying the predicate is kept |
| JsArray.FilterAllPass | crypto.ts:229 | when every element satisfies the predicate, the whole array is kept |
| JsArray.FilterDropsOne | pepe.ts:28 | one failing element between two passing runs is the only thing dropped |
| JsArray.FilterIsSubsequence | pepe.ts:45 | what a filter keeps stays in its original order |
| JsArray.FilterCount | pepe.ts:28 | a filter keeps all copies of a value that passes and none of one that fails |
| JsArray.FilterAppend | pepe.ts:45 | filtering a concatenation filters each part |
| JsArray.Find | crypto.ts:107 | `find` returns the first element satisfying the predicate, and undefined exactly when none does |
| JsArray.IndexOfElement | crypto.ts:223 | `indexOf` on an array returns the first position holding the element, or -1 exactly when it is absent |
| JsArray.JsArray.Shift | pepe.ts:79 | `shift` removes and returns the first element, and returns undefined and changes nothing on an empty array |
| Pepe.Wrap32 | pepe.ts:18 | `\| 0` maps every integer to the signed 32-bit value congruent to it |
| Pepe.HashOf | pepe.ts:15-21 | the hash always lies in [-2^31, 2^31) |
| Pepe.HashStep | pepe.ts:18 | one loop step yields a signed 32-bit value |
| Pepe.HashStepIsJavaStep | pepe.ts:18 | wrapping `Math.imul(31, h)` before the add equals wrapping `31*h + unit` once |
| Pepe.HashOfIsPolynomial | pepe.ts:15-21 | the hash is Java's `String.hashCode`: the base-31 polynomial of the code units, wrapped to 32 bits |
| Pepe.Hash | pepe.ts:15-21 | the loop computes the hash of the string's UTF-16 code units, a signed 32-bit value |
| Pepe.HashOfEmpty | pepe.ts:16 | the empty string hashes to 0 |
| Pepe.HashOfHello | pepe.ts:15-21 | `hash("hello")` is 99162322, as in Java |
| Pepe.Abs | pepe.ts:70 | `Math.abs` is non-negative and equals the argument or its negation, including for -2^31 |
| Pepe.Normalise | pepe.ts:70 | the lower-cased, trimmed phrase is no longer than the phrase and has no upper-case ASCII letter |
| Pepe.SeedIndex | pepe.ts:70-71 | the index exists exactly when there are URIs, and then it is below their count |
| Pepe.SeedIndexIgnoresCaseAndSpacing | pepe.ts:70 | upper-casing or trimming the phrase never changes the index |
| Pepe.SeedIndexOfBlankPhrase | pepe.ts:70-71 | an all-white-space phrase selects index 0 |
| Pepe.Pick | pepe.ts:54 | `floor(random * currentIndex)` is below `currentIndex` |
| Pepe.Swap | pepe.ts:58-61 | the swap keeps the length |
| Pepe.SwapPermutes | pepe.ts:58-61 | the swap keeps the multiset of elements |
| Pepe.ShuffleStep | pepe.ts:52-62 | one loop step swaps the current cell with the drawn one and continues with the remaining draws |
| Pepe.ShuffleFromPermutes | pepe.ts:52-62 | every suffix of the loop keeps the length and multiset |
| Pepe.ShuffledPermutes | pepe.ts:47-65 | a shuffle is a permutation, for any draws |
| Pepe.Shuffle | pepe.ts:47-65 | the array is shuffled in place, the same array is returned, and its contents are a permutation of the old ones |
| Pepe.Recase | pepe.ts:27 | a `\w` at index 0 is lower-cased, a word-start `\w` later is upper-cased, and every other character keeps its case |
| Pepe.RecaseSadPepe | pepe.ts:27 | `sad pepe` is re-cased to `sad Pepe` |
| Pepe.Spaced | pepe.ts:24-27 | the first `-`, then the first `_`, become spaces and the words are re-cased; the length is kept |
| Pepe.Camelize | pepe.ts:23-29 | the result is the spaced, re-cased string with every white-space character deleted: it keeps every other character, as often as it occurs and in order, and contains no white space |
| Pepe.KebabDash | pepe.ts:25 | in `a-b` with lower-case words, the first `-` is the one between them and becomes a space |
| Pepe.KebabNoUnderscore | pepe.ts:26 | with no `_` in the string, the second `replace` leaves it alone |
| Pepe.RecaseKebabLeft | pepe.ts:27 | re-casing `a b` leaves the lower-case word `a` as it is |
| Pepe.RecaseKebabRight | pepe.ts:27 | re-casing `a b` leaves every letter of `b` after the first as it is |
| Pepe.RecaseKebab | pepe.ts:27 | re-casing `a b` for lower-case words upper-cases only the first letter of `b` |
| Pepe.SpacedKebab | pepe.ts:24-27 | `a-b` with lower-case words becomes `a B...` before the squeeze |
| Pepe.CamelizeKebab | pepe.ts:23-29 | two lower-case words joined by `-` become camel case: `sad-pepe` is `sadPepe` |
| Pepe.CamelizeSeparatorCounts | pepe.ts:25-26 | only the first `-` and the first `_` disappear; later ones survive |
| Pepe.HeadThenCut | pepe.ts:40 | `head + body.slice(0, 100 - head.length)` keeps all of the head and a prefix of the body; the whole is at most 100 code units when the head fits |
| Pepe.RenderNameShape | pepe.ts:37-40 | the rendered name is the id text followed by a prefix of the camelized name, at most 100 code units whenever the id text fits |
| Pepe.IdText | pepe.ts:37-38 | `[id] ` for a non-empty id, empty otherwise (the definition; its length is stated by `IdTextUnits`) |
| Pepe.RenderName | pepe.ts:37-40 | the id text followed by the camelized name cut to the room left of 100 units (the definition; its shape is stated by `RenderNameShape`) |
| Pepe.IdTextUnits | pepe.ts:38 | the id text is `[id] `, three units longer than the digits, or empty |
| Pepe.RenderNamePrefix | pepe.ts:37-40 | a non-empty id gives a name starting with `[id] `; no id or an empty one gives the camelized name cut to 100 units |
| Pepe.RenderNameFits | pepe.ts:38-40 | with at most 97 id digits the name has at most 100 code units |
| Pepe.RenderNameWithLongId | pepe.ts:38-40 | with more than 97 id digits the prefix alone is longer than 100 units |
| Pepe.Values | pepe.ts:41-44 | the URIs of entries, in order (the definition; `RenderPepes` and `Entries` are stated with it) |
| Pepe.Matched | pepe.ts:33-36 | the URIs the regular expression matches, in order, each as often as in the list; the others are dropped |
| Pepe.Entries | pepe.ts:37-44 | one entry per matched URI, with that URI as value and the rendering of its groups as name |
| Pepe.RenderPepes | pepe.ts:32-45 | URIs failing the regular expression are dropped; the values keep their URI order and each matching URI's multiplicity, and each name is the rendering of its groups |
| Pepe.NameContains | pepe.ts:100 | true when the lower-cased name's code units include the query's (the definition; `SearchMatches` uses it) |
| Pepe.SearchMatches | pepe.ts:100 | the entries whose lower-cased name contains the query, as a subsequence of the list, each as often as it occurs there, and none missing |
| Pepe.FewCandidatesAllOffered | pepe.ts:97 | with at most 25 entries, the empty query offers all of them |
| Pepe.PepeState.constructor | pepe.ts:31-45 | the initial state: `URIs` holds the file contents, `activeList` is a separate empty array, `pepes` is their rendering |
| Pepe.PepeState.RandomPepe | pepe.ts:75-80 | an empty `activeList` is replaced by `URIs` itself, shuffled; the head of that array is removed and returned, or `''` when it is empty; the served and remaining URIs make up the original list |
| Pepe.PepeState.ServedWithoutRepeats | pepe.ts:75-80 | what has been served is contained in the original list, and equals it once the aliased list is empty |
| Pepe.PepeState.SeedPepe | pepe.ts:69-73 | the footer is the phrase, and the image is one of the current URIs, absent exactly when none are left |
| Pepe.PepeState.SeedPepeIgnoresCaseAndSpacing | pepe.ts:70 | upper-casing or trimming the phrase never changes the image |
| Pepe.PepeState.PepeReply | pepe.ts:82-92 | a non-empty phrase gets the seeded embed and changes nothing; otherwise the reply is `randomPepe`'s |
| Pepe.PepeState.PepeSearch | pepe.ts:94-102 | at most 25 entries, all from the list. An empty query shuffles the list in place and offers its first 25. Otherwise the list is unchanged and the reply is the first 25 of the shuffled matches, each containing the lower-cased query |

## Left out

- Network access (`fetch`, the response checks, `JSON.parse` of the market API) is not modelled; `Crypto.HeadlineFor` and `Crypto.Dataset` take the already-parsed values.
- `rasterize` and `uploadImage` are not modelled: they live in an imaging module that is not part of this model.
- `percentage * 100` is not modelled: `Crypto.HeadlineFor`'s `percentage` is the API's `change.percentage` already multiplied by 100. The product is left out because its floating-point rounding decides the cases that fall on the band edges of `emojiSelector` and the colour test.
- `toFixed` and the rest of the title text are not modelled: they are floating-point formatting. Prices are `real`s, so NaN and infinities are not covered.
- The Discord plumbing is not modelled: embeds, `reply`, `respond`, `followUp`, `deferReply`, the plugin descriptors and `onInit`.
- `pepeSearchReply`'s `find` by URL is not modelled, because it only feeds an embed. `JsArray.Find` models the same built-in for the coin lookup.
- `readFileSync` of `data/pepes.json` is not modelled: the list is the constructor argument.
- `Math.random` is not modelled: it is the `draws` parameter.
- The regular expression engine is not modelled: `pepeNameRegex` is the function parameter `exec`.
- Pepe.PepeState.PepeSearch: for the empty query the result is stated only up to order (the same multiset as the first 25 of the shuffled list), because the locale-dependent `localeCompare` sort is left out.
- Pepe.Recase: the replacement pattern `(?:^\w|[A-Z]|\b\w)` is modelled on ASCII word characters. `toLowerCase` and `toUpperCase` are ASCII-only throughout, so non-ASCII letters keep their case.
- JsString.Lower: `toLowerCase` and `toUpperCase` map only the ASCII letters A-Z and a-z; every other character, including non-ASCII letters, is returned unchanged.
- JsString.Utf16: strings are sequences of Unicode scalar values, so lone surrogates cannot be represented.
- Concurrency is not modelled: the handlers run on a single-threaded event loop and nothing interleaves inside them.
