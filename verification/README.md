# CMC Market Snap: a Dafny model of the capture and rendering core

CMC Market Snap is a browser extension. It reads the CoinMarketCap home page
(global statistics and the top rows of the coin table) and draws a shareable
market image on a canvas. This project models the two core scripts in Dafny
and proves properties about them.

- `content.js` holds `cleanText`, `collectCMC` and the capture message handler.
- `renderer.js` holds the value helpers (`parsePct`, `isNegative`,
  `changeColor`), the market analysis (`computeBreadth`, `topMovers`,
  `isStableLike`, `buildIgnoreSet`, `filterCoins`), the truncation of
  `drawTextEllipsis`, and the decisions `renderMarketImage` takes before
  drawing.

Modules, one concept each:

| file | module | what |
|---|---|---|
| `wrappers.dfy` | `Wrappers` | `Option` (JavaScript `null`/absent) and `Result` (a value or a thrown error) |
| `seqs.dfy` | `Seqs` | `Array.prototype.map` and `Array.prototype.filter` on sequences, and "is a subsequence of" |
| `strings.dfy` | `Strings` | whitespace, `trim`, ASCII case mapping, `startsWith`, `includes`, the `a \|\| b` fallback on strings |
| `clean.dfy` | `Clean` | `cleanText`: whitespace runs collapsed, ends trimmed, characterised as "the words of the input joined by single spaces" |
| `pct.dfy` | `Pct` | `parsePct`: the leftmost match of `-?\d+(\.\d+)?` read as an exact decimal |
| `coins.dfy` | `Coins` | the coin record, `isNegative`/`changeColor`, `computeBreadth`, `isStableLike`, `buildIgnoreSet`, `filterCoins` |
| `movers.dfy` | `Movers` | `topMovers` as a stable sort of the parseable coins, then a cut |
| `ellipsis.dfy` | `Ellipsis` | the shortening loop of `drawTextEllipsis` over an abstract text measure |
| `render.dfy` | `Render` | `renderMarketImage` up to the canvas: fallbacks, cards and their layout, table rows, movers lines, mood, watermark |
| `capture.dfy` | `Capture` | `collectCMC` over an abstract page, and the message handler |

Modelling choices:

- The page is a value. The global-stats element is `Option<GlobalStats>`, and
  each queried element is `Option<string>` holding its text content. A table
  row is its cell texts plus its name and symbol elements. Reading past the
  last cell gives no element, which cleans to `""`.
- A thrown error is a `Result.Failure`. The handler turns it into the reply
  `Err("Error: " + message)`, which is what `String(e)` gives for an `Error`.
- `parseFloat` of the matched text is the exact rational value of the
  decimal, with no IEEE rounding.
- `ctx.measureText(t).width` is a parameter `width: string -> real`.
- The clock (`new Date().toISOString()`, `toLocaleString()`) is a parameter.
- `Array.prototype.sort` is stable. It is modelled as a stable insertion sort
  on the comparator's key: `-pct` for gainers, `pct` for losers.
- The mood test `up > down * 1.3` on counts is written `10 * up > 13 * down`.

Behaviour of the code worth knowing:

- `collectCMC` throws when the global-stats element is missing; the
  handler then replies with the error text.
- Cells are read at the fixed indices 1, 3, 5 and 6, and the rows are read
  as they are when the message arrives.
- Only the first five rows by index are read. A row with no cells is skipped
  but still uses up its index, so it is not replaced by a later row.
- The gainers, the losers, the breadth card and the mood come from the
  unfiltered `payload.coins`. Stablecoins and ignored symbols are removed
  only from the table.
- The market mood is computed but not drawn: its drawing call
  (renderer.js:296-304) is commented out. The model keeps the mood in the
  plan so that its rule can be stated.
- `parsePct` ignores a leading `+` and any `%`. `"-0.00%"` parses to zero
  but is coloured red, because colour looks only at the leading `-`.

## Model

| member | source | states |
|---|---|---|
| Clean.CleanText | content.js:1-3 | the result has no whitespace at either end and no two whitespace characters in a row, and it keeps every non-whitespace character of the input in order |
| Clean.CleanTextWords | content.js:1-3 | cleaning keeps the word sequence: the words of the result are the words of the input |
| Clean.CleanTextIdempotent | content.js:1-3 | cleaning an already cleaned text changes nothing |
| Clean.CleanOpt | content.js:79 | a missing element reads as `""`; a present one reads as its cleaned text |
| Strings.ContainsIff | renderer.js:73-77 | `includes` holds exactly when the pattern occurs at some position |
| Pct.ParsePct | renderer.js:35-39 | `null` exactly for the empty string or a text without a digit; otherwise the value of the leftmost match of the number pattern |
| Pct.ParseNumeral | renderer.js:35-39 | a decimal numeral parses back to its own value when the text before it has no digit and does not end in `-`, and the text after it does not start with a digit, nor with `.` when the numeral has no fraction |
| Pct.NegativeNeedsMinus | renderer.js:35-39 | a negative result comes from a match that starts with `-` |
| Pct.ParsePlusExample | renderer.js:35-39 | `"+1.20%"` parses to 1.2: the `+` is ignored |
| Pct.ParseMinusExample | renderer.js:35-39 | `"-3.40%"` parses to -3.4 |
| Pct.ParseTwoPointsExample | renderer.js:35-39 | `"a1.2.3"` parses to 1.2: a second point after the fraction ends the match |
| Pct.ParsePlaceholderExample | renderer.js:35-39 | the placeholder `"—"` and `""` parse to `null` |
| Coins.IsNegativeIff | renderer.js:27-29 | a value is negative exactly when its first non-whitespace character is `-` |
| Coins.ChangeColor | renderer.js:30-33 | muted exactly for null or the placeholder, red exactly when the first non-whitespace character is `-`, green otherwise |
| Coins.NegativeZeroIsRed | renderer.js:27-39 | `"-0.00%"` is drawn red although it parses to zero |
| Coins.ComputeBreadth | renderer.js:41-50 | every coin is counted exactly once: up + down + flat is the number of coins |
| Coins.BreadthCounts | renderer.js:41-50 | each count is the number of coins whose parsed 24h change is positive, negative, or neither (unparseable counts as flat) |
| Coins.StablePrefixesReduce | renderer.js:70 | the fourteen-prefix test is the same as a test on nine prefixes, since every longer prefix starts with a shorter one |
| Coins.IsStableLike | renderer.js:62-80 | stable-like exactly when the upper-cased symbol is in the default list or starts with one of the nine shortest prefixes, or the lower-cased name passes the name test; the XAUT test and the five longer prefixes add nothing |
| Coins.IgnoredIsStableLike | renderer.js:63-67 | a coin whose upper-cased symbol is in the default list is stable-like |
| Coins.XautIsListed | renderer.js:77 | the symbol `XAUT` makes a coin stable-like |
| Coins.TetherIsStableLike | renderer.js:62-80 | Tether USD (`USDT`) is stable-like |
| Coins.BitcoinIsNotStableLike | renderer.js:62-80 | Bitcoin (`BTC`) is not stable-like |
| Coins.BuildIgnoreSet | renderer.js:83-87 | the set is the default symbols plus every custom symbol upper-cased and trimmed |
| Coins.FilterCoins | renderer.js:89-97 | a non-array gives `[]`; every kept coin passes the ignore-set test and, when enabled, the stable test |
| Coins.FilterIsSubseq | renderer.js:89-97 | the result is a subsequence of the input: order is kept |
| Coins.FilterCounts | renderer.js:89-97 | a coin passing the tests keeps all its occurrences; any other coin keeps none |
| Coins.FilterIdempotent | renderer.js:89-97 | filtering a filtered list changes nothing |
| Coins.FilterKeepsAllWhenOff | renderer.js:89-97 | with no ignore set and stables allowed, the list comes back unchanged |
| Coins.StableNeverRendered | renderer.js:89-97 | a stable-like coin never survives the table's filter, whatever the custom list |
| Movers.Parseable | renderer.js:53-55 | each entry is a coin of the input paired with its parsed 24h change; there are no more entries than coins |
| Movers.ParseableInOrder | renderer.js:53-55 | the entries' coins are exactly the coins whose change parses, in input order and with repetitions, as `filter` keeps them |
| Movers.ParseableComplete | renderer.js:53-55 | every coin whose 24h change parses has its entry |
| Movers.SortPerm | renderer.js:56 | sorting is a permutation |
| Movers.SortSorted | renderer.js:56 | the sorted list is ordered by the comparator's key |
| Movers.SortStable | renderer.js:56 | movers with equal keys keep their input order |
| Movers.TopMovers | renderer.js:52-58 | the length is the smaller of the limit and the number of parseable coins, and each entry is a parsed coin |
| Movers.TopMoversOrdered | renderer.js:52-58 | gainers have non-increasing change and losers non-decreasing change |
| Movers.TopMoversAreTop | renderer.js:52-58 | a parseable coin left out ranks no better than any coin shown |
| Movers.TopMoversKeepTies | renderer.js:52-58 | among equal changes, the ones shown are the first ones in input order |
| Ellipsis.Shorten | renderer.js:111-114 | the result is the longest prefix that fits with the ellipsis, or `""` if none fits |
| Ellipsis.EllipsisText | renderer.js:105-115 | a text that fits is drawn whole; otherwise the longest prefix that fits with `…` (the `Shorten` result), followed by `…` |
| Ellipsis.EllipsisFits | renderer.js:105-115 | whenever the ellipsis alone fits, the drawn text fits the column |
| Ellipsis.EllipsisShortens | renderer.js:111-114 | a text that does not fit loses at least one character, provided appending `…` never narrows a text |
| Render.HeaderFallbacks | renderer.js:123-142 | the headline and accent fall back to their defaults exactly when empty; the source line reads `Source: ` then the capture's source, or `CoinMarketCap` when it has none, then ` • ` and the capture time |
| Render.NatToString | renderer.js:154 | a count is written as a non-empty run of digits with no leading zero |
| Render.NatToStringValue | renderer.js:154 | reading the written digits back gives the count |
| Render.FindSymbol | renderer.js:147 | the first coin whose symbol is exactly `BTC`, or none when no coin has it |
| Render.StatCards | renderer.js:149-155 | there are five cards and no card value is blank |
| Render.BtcPriceCard | renderer.js:147-151 | the BTC price card shows `N/A` exactly when there is no BTC coin or the first one's price is missing or itself `N/A`, and otherwise that price |
| Render.StatCardValues | renderer.js:146-155 | the cards are titled Market Cap, BTC Price, BTC 24h, Fear & Greed, Breadth; market cap, BTC 24h change and fear & greed show `N/A` exactly when the value is missing or itself `N/A`, and otherwise the value; breadth shows the up and down counts of all the capture's coins |
| Render.CardsTile | renderer.js:157-163 | the five cards and four gaps exactly fill the width between the 70-pixel margins |
| Render.TableRow | renderer.js:216-235 | a row sits at 474 + 78·i; no cell is blank; a missing symbol shows `-`, a missing price or change shows `—`, a present one is shown as captured; a symbol too wide for 360 pixels is cut with `…`; each change is coloured by its own text |
| Render.TableRows | renderer.js:215 | the table has min(6, shown coins) rows |
| Render.TableShowsFilteredCoins | renderer.js:208-217 | the plan's row i shows the i-th coin that passes the filter, 78 pixels below the previous row; no stable-like, custom-ignored or default-listed symbol gets a row |
| Render.ChangeCell | renderer.js:229-235 | a change cell is never blank; it is muted exactly when the value is missing or the placeholder, and red exactly when it has a leading `-` |
| Render.MoverLines | renderer.js:264-287 | one line per mover, in order: its symbol, two spaces, and its captured 24h change text |
| Render.MoodRatio | renderer.js:291-292 | the integer test agrees with `up > down * 1.3` on exact numbers |
| Render.MoodOf | renderer.js:290-292 | risk-on exactly when up > 1.3·down, risk-off exactly when down > 1.3·up, neutral otherwise |
| Render.MoodCases | renderer.js:290-292 | risk-on and risk-off never hold together, so testing them in the other order gives the same mood |
| Render.Watermark | renderer.js:307-310 | a drawn watermark is the option's text with only whitespace removed from its ends, non-empty, with no whitespace at either end |
| Render.WatermarkShown | renderer.js:307-310 | a watermark is drawn exactly when the option holds a non-whitespace character |
| Render.RenderMarketImage | renderer.js:146-243 | five cards, min(6, shown coins) rows, at most three gainers and three losers with one line each, every mover a coin of the capture with its parsed change |
| Render.OnlyTableUsesIgnoreList | renderer.js:242-243 | changing the ignore list changes neither the movers, the cards nor the mood |
| Render.MoversAreTopOfAllCoins | renderer.js:242-243 | the plan shows min(3, parseable coins) gainers and as many losers, taken from all the capture's coins (stablecoins and ignored symbols included), and no parseable coin left out beats one shown |
| Render.MoversDrawnInOrder | renderer.js:242-243 | the plan's gainers have falling and its losers rising changes |
| Capture.RowCoin | content.js:98-107 | rank, price, 24h and 7d change are the cleaned texts of cells 1, 3, 5 and 6, or `""` when the row has no such cell; name and symbol are their elements' cleaned texts; there is never a 1h change |
| Capture.FirstRows | content.js:94-95 | only the first five rows are looked at |
| Capture.CollectRows | content.js:94-108 | the loop yields exactly the coins of the first five rows that have cells, in order |
| Capture.CollectCMC | content.js:72-111 | fails with the "Global stats not found" message exactly when the container is missing; otherwise returns the cleaned stats and the collected coins |
| Capture.Handle | content.js:153-163 | replies only to a `CMC_CAPTURE` message; the reply is an error exactly when the container is missing, with the text `String(e)` gives, and otherwise exactly the snapshot `collectCMC` returns: from coinmarketcap.com, with the given time and at most five coins |
| Capture.CapturedAtMostFive | content.js:94-97 | a capture never holds more than five coins |
| Capture.CapturedRows | content.js:94-108 | a row is read exactly when it is among the first five and has cells |
| Capture.SnapshotTidy | content.js:79-105 | every captured text is cleaned |
| Capture.EmptyRowUsesItsIndex | content.js:94-98 | with an empty second row and six rows, rows 0, 2, 3 and 4 are read and row 5 is not |

## Left out

- `popup.js` is not part of this model. It covers the button wiring, the
  download, and the live re-render on option input.
- Canvas drawing is left out: gradients, rounded rectangles, fonts, fixed
  labels, the footer line, and the x positions of texts. Only the card
  geometry and the row y positions are modelled.
- The clock and the locale are parameters, not modelled.
- Unicode is reduced to ASCII. Whitespace is the ASCII set, `toUpperCase`
  and `toLowerCase` map ASCII letters only, and strings are sequences of
  characters rather than UTF-16 code units.
- Floating point is left out. `parseFloat` yields exact decimals.
- Render.MoodRatio: the JavaScript test multiplies in doubles. The model uses
  exact arithmetic, so it does not claim anything about the rounding of
  `down * 1.3`.
- `pickFirstText`, `findValueNearLabel` and `parseTopCoins` (content.js:5-71)
  are not modelled. Neither is the unused `xcollectCMC` (content.js:113-150).
  The message handler calls none of them.
- `renderer.js:240` filters `payload.movers`, but its result is never used,
  so it is not modelled.
- `drawRoundedRect` and `drawText` only draw, so they are not modelled.
- The cards' top edge (175) and height (140) at renderer.js:157-160 only
  place the drawing, so they are not modelled; the horizontal layout is.
- JavaScript `undefined` and `""` are not told apart. A missing coin field is
  `""`. This is faithful for captured coins: `collectCMC` (content.js:100-107)
  writes a string into every field except `change1h`, and the only use of
  `change1h` (renderer.js:229) goes through `||`. A payload from elsewhere
  with an undefined symbol or change would print "undefined" in a movers
  line (renderer.js:267, 280); the model does not cover such payloads.
- Render.TableRows: its own contract states only the row count. What each
  row shows is stated by Render.TableRow, Render.TableShowsFilteredCoins and
  Render.ChangeCell.
- Capture.CollectRows collects the rows to read in the loop and maps them to
  coins afterwards. The code pushes each coin inside the loop; the result is
  the same.
