# Arbitrage scanner: the decision logic, in Dafny

The scanner takes the top liquidity pairs from the Uniswap V2 price index. It
keeps the pairs in which at least one token is on a fixed allow-list of
fifteen ERC-20 addresses. For each kept pair it asks Uniswap and Sushiswap
for the pair's `token0Price` and `token1Price`. It then reports a possible
arbitrage when the two exchanges' prices differ by at least 2%, measured
against the smaller price. The token0 prices and the token1 prices are
checked separately.

The model has three modules:

- `AllowList` (`allowlist.dfy`) holds the fifteen addresses and the test
  `IsAllowedPair`. That test is built on `Includes`, a model of
  `Array.prototype.includes`: a front-to-back scan using exact string
  equality.
- `Comparator` (`comparator.dfy`) holds `ComparePrices`, which computes
  `|a - b| / min(a, b) * 100 >= 2`. Prices are exact reals. A zero divisor
  gives a `Number` that is `Infinity` or `NaN`, as in JavaScript:
  - a zero price against a positive one is flagged, because `Infinity >= 2`;
  - two zero prices are not flagged, because `NaN >= 2` is false.
- `Scanner` (`scanner.dfy`) holds `Scan`, the top-level loop. It is a method
  with a `for` loop and `continue`s. For each pair it appends an outcome:
  `SkippedNotAllowed`, `SkippedInsufficientData` or `Checked(flag0, flag1)`.
  It also records every price query it sends.

`Scan` is proved equal to two pure functions:
- `Classify`, which gives the outcome of one listing;
- `Queries`, which gives the queries of a whole pass.

The network's answers are inputs. A `Listing` holds a pair together with the
`Option<Quote>` that each exchange returns for it.

The code does not guard against a zero divisor. The model keeps what
JavaScript computes in that case: the `Infinity`/`NaN` outcomes above.

## Model

| member | source | states |
|---|---|---|
| `AllowList.IncludesIsMembership` | arbitrage-scanner.js:87 | the `includes` scan is true exactly when the string occurs in the list (strict equality, no case folding) |
| `AllowList.IsAllowedPairIsMembership` | arbitrage-scanner.js:86-88 | a pair is allowed iff token0 or token1 is one of the listed addresses |
| `AllowList.IsAllowedPairSymmetric` | arbitrage-scanner.js:87 | swapping the two tokens never changes the decision |
| `AllowList.NeitherListedNotAllowed` | arbitrage-scanner.js:86-88 | a pair with neither token listed is rejected |
| `AllowList.OneListedAllowed` | arbitrage-scanner.js:87 | one listed token is enough, whatever the other token is (OR, not AND) |
| `AllowList.AllowedTokensDistinct` | arbitrage-scanner.js:8-25 | the fifteen listed addresses are pairwise different |
| `AllowList.ChecksummedDaiNotListed` | arbitrage-scanner.js:10 | the mixed-case checksummed DAI address is not on the list, although its lower-case spelling is |
| `AllowList.ChecksummedDaiPairRejected` | arbitrage-scanner.js:86-88 | so a pair of checksummed DAI with any unlisted token is skipped |
| `Comparator.ComparePricesCharacterized` | arbitrage-scanner.js:79-84 | for positive prices: flagged iff `abs(a-b) * 100 >= 2 * min(a,b)`; smaller price zero: flagged iff the prices differ; smaller price negative: never flagged |
| `Comparator.PositiveDivisorThreshold` | arbitrage-scanner.js:81-83 | for a positive divisor, `n / d * 100 >= 2` is the same as `n * 100 >= 2 * d` |
| `Comparator.NegativeDivisorBelowThreshold` | arbitrage-scanner.js:81-83 | for a negative divisor the percentage stays below the threshold |
| `Comparator.ComparePricesSymmetric` | arbitrage-scanner.js:80-81 | the decision does not depend on the order of the two prices |
| `Comparator.EqualPricesNotFlagged` | arbitrage-scanner.js:80-83 | equal prices are never flagged (0%, or NaN when both are zero) |
| `Comparator.ZeroPriceCases` | arbitrage-scanner.js:81-83 | zero against a positive price is flagged in either order; zero against zero is not |
| `Comparator.ThresholdIsInclusive` | arbitrage-scanner.js:83 | exactly 2% is flagged and 1.99% is not |
| `Comparator.ProportionalSameDecision` | arbitrage-scanner.js:81-83 | positive price pairs whose differences and minima are in one positive ratio get the same decision |
| `Comparator.ComparePricesScaleInvariant` | arbitrage-scanner.js:79-84 | scaling both prices by the same positive factor does not change the decision, for every pair of real prices |
| `Comparator.ComparePricesReciprocal` | arbitrage-scanner.js:79-84 | comparing `1/a` with `1/b` gives the same decision as comparing `a` with `b` |
| `Scanner.Scan` | arbitrage-scanner.js:93-119 | one outcome per pair, in order; outcome `i` is `Classify` of listing `i` alone; the queries sent are exactly `Queries` of the list |
| `Scanner.ClassifyCases` | arbitrage-scanner.js:94-118 | not allowed gives `SkippedNotAllowed`; allowed with a quote missing gives `SkippedInsufficientData`; allowed with both quotes gives `Checked`, whose flags are the token0 and token1 price comparisons |
| `Scanner.NotAllowedSkippedWithoutLookup` | arbitrage-scanner.js:94-97 | a pair that is not allowed is skipped, and no price query is sent for it |
| `Scanner.FlagsIndependent` | arbitrage-scanner.js:108-118 | the token0 flag depends only on the two token0 prices, and the token1 flag only on the two token1 prices |
| `Scanner.ReciprocalQuotesAgree` | arbitrage-scanner.js:108-118 | if both exchanges quote token1Price as `1 / token0Price`, the two flags agree |
| `Scanner.QueriesAppend` | arbitrage-scanner.js:93-101 | the queries of two lists joined together are the first list's queries followed by the second's |
| `Scanner.QueriesOnlyForAllowedPairs` | arbitrage-scanner.js:94-101 | every query sent is for an allowed pair that is in the list |
| `Scanner.AllowedPairsQueried` | arbitrage-scanner.js:98-101 | every allowed pair is queried on both Uniswap and Sushiswap, in its own token order |
| `Scanner.DaiUsdcAllowed` | arbitrage-scanner.js:10-11 | the DAI/USDC pair passes the filter |
| `Scanner.ScenarioEqualPrices` | arbitrage-scanner.js:108-118 | DAI/USDC with prices of 1.00 everywhere: nothing is flagged |
| `Scanner.ScenarioToken0Diverges` | arbitrage-scanner.js:108-118 | token0 at 1.00 against 1.03 (3%) is flagged; equal token1 prices are not |
| `Scanner.ScenarioMissingQuote` | arbitrage-scanner.js:100-106 | a missing Sushiswap record skips the pair as insufficient data; the pass sends exactly the Uniswap query and then the Sushiswap query for DAI/USDC |
| `Scanner.ScenarioUnlistedPair` | arbitrage-scanner.js:94-97 | a pair of two unlisted tokens is skipped, and no query is sent |

## Left out

- `fetchTopTokenPairs` and `fetchTokenPrice` (arbitrage-scanner.js:27-77) are left out. They are HTTP POSTs of GraphQL queries through axios, with their own error catching and logging. Only their results are modelled: the list of listings, and one `Option<Quote>` per exchange per pair. `None` stands for both a transport failure and a missing record, since the code treats the two the same way.
- The server-side meaning of the queries is left out: `first: limit`, the `reserveUSD` ordering and the `where` filter.
- The loop's `async`/`await` sequencing and its `console.log` lines are left out. Each pair's `Outcome` stands in for its log lines. The prices printed next to a flagged pair are not part of the outcome, but they are the listing's own quote values.
- The crash when `fetchTopTokenPairs` returns `undefined` is left out. The `for…of` at arbitrage-scanner.js:93 then throws, and this is a failure of the I/O plumbing rather than of the decision logic.
- IEEE-754 rounding is not modelled, and neither is signed zero. Prices are exact reals. So a difference that lands within one rounding step of exactly 2% may be decided differently by the JavaScript code.
- JavaScript's string-to-number coercion of `token0Price` and `token1Price` is left out. The index service returns these fields as strings, and the model takes them as numbers already.
- Each listing's answers are fixed inputs. Nothing relates the answers given for a pair that appears twice in the list, so the two copies may get different quotes.
