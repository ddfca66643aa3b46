/**
  The scanner's main loop: one pass over the top pairs, in order. A pair with
  no allowed token is skipped before any price lookup; otherwise both
  exchanges are asked for a quote, the pair is skipped when either answer is
  missing, and the token0 prices and the token1 prices are compared
  separately.

  The network is not modelled: each `Listing` carries, next to its pair, the
  answer each exchange gives to the price query for that pair (None when the
  query failed or found no record). The loop reports which queries it
  issued, so that "no lookup for a skipped pair" can be stated.
 */
module Scanner {
  import opened AllowList
  import opened Comparator

  datatype Option<T> = None | Some(value: T)

  /** A pair record of the top-pairs query: `token0.id` and `token1.id`. */
  datatype Pair = Pair(token0: Address, token1: Address)

  /** A record of the price query: price of token0 in token1 and the converse. */
  datatype Quote = Quote(token0Price: real, token1Price: real)

  /** One entry of the top-pairs list with the answers of both exchanges. */
  datatype Listing = Listing(pair: Pair, uniswap: Option<Quote>, sushiswap: Option<Quote>)

  datatype Exchange = Uniswap | Sushiswap

  /** A price query sent to one exchange for an exact (token0, token1) order. */
  datatype PriceQuery = PriceQuery(exchange: Exchange, token0: Address, token1: Address)

  /** What the loop reports for one pair; stands in for its log lines. */
  datatype Outcome =
    | SkippedNotAllowed
    | SkippedInsufficientData
    | Checked(token0Diverges: bool, token1Diverges: bool)

  /** The outcome for one listing, as a pure function of that listing alone. */
  function Classify(l: Listing): Outcome
  {
    if !IsAllowedPair(l.pair.token0, l.pair.token1) then SkippedNotAllowed
    else if l.uniswap.None? || l.sushiswap.None? then SkippedInsufficientData
    else Checked(ComparePrices(l.uniswap.value.token0Price, l.sushiswap.value.token0Price),
                 ComparePrices(l.uniswap.value.token1Price, l.sushiswap.value.token1Price))
  }

  /** The price queries issued for one pair: none when it is not allowed,
      otherwise Uniswap's and then Sushiswap's, both with the pair's own
      token order. */
  function QueriesFor(p: Pair): seq<PriceQuery>
  {
    if IsAllowedPair(p.token0, p.token1)
    then [PriceQuery(Uniswap, p.token0, p.token1), PriceQuery(Sushiswap, p.token0, p.token1)]
    else []
  }

  /** The price queries of a whole pass, in order. */
  function Queries(ls: seq<Listing>): seq<PriceQuery>
  {
    if ls == [] then [] else Queries(ls[..|ls| - 1]) + QueriesFor(ls[|ls| - 1].pair)
  }

  /** The top-level loop over the fetched pairs: one outcome per pair, in
      order, each a function of that pair's own listing, and the price
      queries in the order they are sent. */
  method Scan(listings: seq<Listing>) returns (outcomes: seq<Outcome>, queries: seq<PriceQuery>)
    ensures |outcomes| == |listings|
    ensures forall i :: 0 <= i < |listings| ==> outcomes[i] == Classify(listings[i])
    ensures queries == Queries(listings)
  {
    outcomes, queries := [], [];
    for i := 0 to |listings|
      invariant |outcomes| == i
      invariant forall k :: 0 <= k < i ==> outcomes[k] == Classify(listings[k])
      invariant queries == Queries(listings[..i])
    {
      assert listings[..i + 1][..i] == listings[..i];
      var pair := listings[i].pair;
      if !IsAllowedPair(pair.token0, pair.token1) {
        outcomes := outcomes + [SkippedNotAllowed];
        continue;
      }
      var uniswapData := listings[i].uniswap;
      queries := queries + [PriceQuery(Uniswap, pair.token0, pair.token1)];
      var sushiswapData := listings[i].sushiswap;
      queries := queries + [PriceQuery(Sushiswap, pair.token0, pair.token1)];
      if uniswapData.None? || sushiswapData.None? {
        outcomes := outcomes + [SkippedInsufficientData];
        continue;
      }
      var flag0 := ComparePrices(uniswapData.value.token0Price, sushiswapData.value.token0Price);
      var flag1 := ComparePrices(uniswapData.value.token1Price, sushiswapData.value.token1Price);
      outcomes := outcomes + [Checked(flag0, flag1)];
    }
    assert listings[..|listings|] == listings;
  }

  /** A pair with no allowed token is skipped whatever the exchanges would
      have answered, and no query is sent for it. */
  lemma NotAllowedSkippedWithoutLookup(l: Listing)
    requires !IsAllowedPair(l.pair.token0, l.pair.token1)
    ensures Classify(l) == SkippedNotAllowed
    ensures QueriesFor(l.pair) == []
  {
  }

  /** The three outcomes, each with the exact condition that produces it. */
  lemma ClassifyCases(l: Listing)
    ensures Classify(l) == SkippedNotAllowed <==> !IsAllowedPair(l.pair.token0, l.pair.token1)
    ensures Classify(l) == SkippedInsufficientData <==>
              IsAllowedPair(l.pair.token0, l.pair.token1) && (l.uniswap.None? || l.sushiswap.None?)
    ensures Classify(l).Checked? <==>
              IsAllowedPair(l.pair.token0, l.pair.token1) && l.uniswap.Some? && l.sushiswap.Some?
    ensures Classify(l).Checked? ==>
              Classify(l).token0Diverges == ComparePrices(l.uniswap.value.token0Price, l.sushiswap.value.token0Price) &&
              Classify(l).token1Diverges == ComparePrices(l.uniswap.value.token1Price, l.sushiswap.value.token1Price)
  {
  }

  /** The token0 flag depends on the token0 prices only, and the token1 flag
      on the token1 prices only. */
  lemma FlagsIndependent(p: Pair, u: Quote, s: Quote, u': Quote, s': Quote)
    requires IsAllowedPair(p.token0, p.token1)
    ensures u'.token0Price == u.token0Price && s'.token0Price == s.token0Price ==>
              Classify(Listing(p, Some(u'), Some(s'))).token0Diverges ==
              Classify(Listing(p, Some(u), Some(s))).token0Diverges
    ensures u'.token1Price == u.token1Price && s'.token1Price == s.token1Price ==>
              Classify(Listing(p, Some(u'), Some(s'))).token1Diverges ==
              Classify(Listing(p, Some(u), Some(s))).token1Diverges
  {
  }

  /** When both exchanges quote token1Price as the reciprocal of token0Price,
      the two flags of a checked pair agree. */
  lemma ReciprocalQuotesAgree(p: Pair, a: real, b: real)
    requires IsAllowedPair(p.token0, p.token1)
    requires a > 0.0 && b > 0.0
    ensures var o := Classify(Listing(p, Some(Quote(a, 1.0 / a)), Some(Quote(b, 1.0 / b))));
            o.Checked? && o.token0Diverges == o.token1Diverges
  {
    ComparePricesReciprocal(a, b);
  }

  /** Passes compose: the queries of a concatenated list are those of its
      parts, one after the other. */
  lemma {:induction false} QueriesAppend(xs: seq<Listing>, ys: seq<Listing>)
    ensures Queries(xs + ys) == Queries(xs) + Queries(ys)
    decreases |ys|
  {
    if ys == [] {
      assert xs + ys == xs;
    } else {
      var last := ys[|ys| - 1];
      var init := ys[..|ys| - 1];
      assert (xs + ys)[..|xs + ys| - 1] == xs + init;
      QueriesAppend(xs, init);
      assert Queries(xs + ys) == Queries(xs + init) + QueriesFor(last.pair);
      assert Queries(ys) == Queries(init) + QueriesFor(last.pair);
    }
  }

  /** Every query of a pass is for an allowed pair of the list. */
  lemma {:induction false} QueriesOnlyForAllowedPairs(ls: seq<Listing>, q: PriceQuery)
    requires q in Queries(ls)
    ensures IsAllowedPair(q.token0, q.token1)
    ensures exists i :: 0 <= i < |ls| && ls[i].pair == Pair(q.token0, q.token1)
  {
    var n := |ls| - 1;
    if q in Queries(ls[..n]) {
      QueriesOnlyForAllowedPairs(ls[..n], q);
      var i :| 0 <= i < n && ls[..n][i].pair == Pair(q.token0, q.token1);
      assert ls[i] == ls[..n][i];
    } else {
      assert q in QueriesFor(ls[n].pair);
    }
  }

  /** Every allowed pair of the list is queried on both exchanges, with its
      own token order. */
  lemma {:induction false} AllowedPairsQueried(ls: seq<Listing>, i: nat)
    requires i < |ls|
    requires IsAllowedPair(ls[i].pair.token0, ls[i].pair.token1)
    ensures PriceQuery(Uniswap, ls[i].pair.token0, ls[i].pair.token1) in Queries(ls)
    ensures PriceQuery(Sushiswap, ls[i].pair.token0, ls[i].pair.token1) in Queries(ls)
  {
    var n := |ls| - 1;
    if i < n {
      AllowedPairsQueried(ls[..n], i);
      assert ls[..n][i] == ls[i];
    } else {
      assert QueriesFor(ls[i].pair) == [PriceQuery(Uniswap, ls[i].pair.token0, ls[i].pair.token1),
                                        PriceQuery(Sushiswap, ls[i].pair.token0, ls[i].pair.token1)];
    }
  }

  // Scenarios for a DAI/USDC pair and a pair of unlisted tokens.

  const Dai: Address := "0x6b175474e89094c44da98b954eedeac495271d0f"
  const Usdc: Address := "0xa0b86991c6218b36c1d19d4a2e9eb0ce3606eb48"

  lemma DaiUsdcAllowed()
    ensures IsAllowedPair(Dai, Usdc)
  {
    assert AllowedTokens[0] == Dai;
    IsAllowedPairIsMembership(Dai, Usdc);
  }

  /** Equal quotes on both exchanges: nothing is reported. */
  lemma ScenarioEqualPrices()
    ensures Classify(Listing(Pair(Dai, Usdc), Some(Quote(1.0, 1.0)), Some(Quote(1.0, 1.0))))
            == Checked(false, false)
  {
    DaiUsdcAllowed();
  }

  /** 1.00 against 1.03 for token0 is a 3% divergence and is reported;
      token1's equal prices are not. */
  lemma ScenarioToken0Diverges()
    ensures Classify(Listing(Pair(Dai, Usdc), Some(Quote(1.0, 1.0)), Some(Quote(1.03, 1.0))))
            == Checked(true, false)
  {
    DaiUsdcAllowed();
    ComparePricesCharacterized(1.0, 1.03);
  }

  /** Sushiswap has no record: the pair is skipped after both lookups. */
  lemma ScenarioMissingQuote()
    ensures Classify(Listing(Pair(Dai, Usdc), Some(Quote(1.0, 1.0)), None)) == SkippedInsufficientData
    ensures Queries([Listing(Pair(Dai, Usdc), Some(Quote(1.0, 1.0)), None)])
            == [PriceQuery(Uniswap, Dai, Usdc), PriceQuery(Sushiswap, Dai, Usdc)]
  {
    DaiUsdcAllowed();
    assert [Listing(Pair(Dai, Usdc), Some(Quote(1.0, 1.0)), None)][..0] == [];
  }

  /** Two unlisted tokens: skipped, with no lookup at all. */
  lemma ScenarioUnlistedPair(a: Address, b: Address, u: Option<Quote>, s: Option<Quote>)
    requires a !in AllowedTokens && b !in AllowedTokens
    ensures Classify(Listing(Pair(a, b), u, s)) == SkippedNotAllowed
    ensures Queries([Listing(Pair(a, b), u, s)]) == []
  {
    IsAllowedPairIsMembership(a, b);
    assert [Listing(Pair(a, b), u, s)][..0] == [];
  }
}
