/**
  The allow-list filter of the arbitrage scanner: a fixed list of fifteen
  ERC-20 token addresses, and the test that a pair mentions at least one of
  them. Addresses are compared as exact strings; nothing folds letter case.
 */
module AllowList {

  /** A token contract address, as the price index reports it. */
  type Address = string

  /** The fixed allow-list, in the source's order (DAI, USDC, USDT, TUSD, sUSD,
      BUSD, AAVE, LINK, MKR, SNX, YFI, UNI, COMP, LEND, WBTC). */
  const AllowedTokens: seq<Address> := [
    "0x6b175474e89094c44da98b954eedeac495271d0f",
    "0xa0b86991c6218b36c1d19d4a2e9eb0ce3606eb48",
    "0xdac17f958d2ee523a2206206994597c13d831ec7",
    "0x0000000000085d4780b73119b644ae5ecd22b376",
    "0x57ab1ec28d129707052df4df418d58a2d46d5f51",
    "0x4fabb145d64652a948d72533023f6e7a623c7c53",
    "0x7fc66500c84a76ad7e9c93437bfc5ac33e2ddae9",
    "0x514910771af9ca656af840dff83e8264ecf986ca",
    "0x9f8f72aa9304c8b593d555f12ef6589cc3a579a2",
    "0xc011a73ee8576fb46f5e1c5751ca3b9fe0af2a6f",
    "0x0bc529c00c6401aef6d220be8c6ea1667f6ad93e",
    "0x1f9840a85d5af5bf1d1762f925bdaddc4201f984",
    "0xc00e94cb662c3520282e6f5717214004a7f26888",
    "0x80fb784b7ed66730e8b1dbd9820afd29931aab03",
    "0x2260fac5e5542a773aa44fbcfedf7c193bc2c599"
  ]

  /** `list.includes(x)` on an array of strings: a front-to-back scan with
      strict equality. */
  function Includes(list: seq<Address>, x: Address): bool
  {
    if list == [] then false
    else list[0] == x || Includes(list[1..], x)
  }

  /** The scan finds exactly the strings that occur in the list. */
  lemma {:induction false} IncludesIsMembership(list: seq<Address>, x: Address)
    ensures Includes(list, x) <==> x in list
  {
    if list != [] {
      IncludesIsMembership(list[1..], x);
      assert list == [list[0]] + list[1..];
    }
  }

  /** A pair is allowed when token0 or token1 is on the list (an OR, not an AND). */
  function IsAllowedPair(token0: Address, token1: Address): bool
  {
    Includes(AllowedTokens, token0) || Includes(AllowedTokens, token1)
  }

  /** The filter is exact membership of either token. */
  lemma IsAllowedPairIsMembership(token0: Address, token1: Address)
    ensures IsAllowedPair(token0, token1) <==> token0 in AllowedTokens || token1 in AllowedTokens
  {
    IncludesIsMembership(AllowedTokens, token0);
    IncludesIsMembership(AllowedTokens, token1);
  }

  /** Swapping the two tokens of a pair never changes whether it is allowed. */
  lemma IsAllowedPairSymmetric(token0: Address, token1: Address)
    ensures IsAllowedPair(token0, token1) == IsAllowedPair(token1, token0)
  {
  }

  /** A pair neither of whose tokens is listed is rejected. */
  lemma NeitherListedNotAllowed(token0: Address, token1: Address)
    requires token0 !in AllowedTokens && token1 !in AllowedTokens
    ensures !IsAllowedPair(token0, token1)
  {
    IsAllowedPairIsMembership(token0, token1);
  }

  /** One listed token suffices, whatever the other one is. */
  lemma OneListedAllowed(token0: Address, token1: Address)
    requires token0 in AllowedTokens || token1 in AllowedTokens
    ensures IsAllowedPair(token0, token1)
  {
    IsAllowedPairIsMembership(token0, token1);
  }

  /** The fifteen listed addresses are pairwise different. */
  lemma AllowedTokensDistinct()
    ensures forall j, k :: 0 <= j < k < |AllowedTokens| ==> AllowedTokens[j] != AllowedTokens[k]
  {
  }

  /** The EIP-55 checksummed (mixed-case) spelling of DAI's address. */
  const ChecksummedDai: Address := "0x6B175474E89094C44Da98b954EedeAC495271d0F"

  /** The comparison is case-sensitive: the checksummed spelling of DAI is
      not on the list, although its lower-case spelling is. */
  lemma ChecksummedDaiNotListed()
    ensures ChecksummedDai !in AllowedTokens
    ensures "0x6b175474e89094c44da98b954eedeac495271d0f" in AllowedTokens
  {
    forall k | 0 <= k < |AllowedTokens|
      ensures AllowedTokens[k] != ChecksummedDai
    {
      assert AllowedTokens[k][3] != ChecksummedDai[3];
    }
  }

  /** So a pair of checksummed DAI with any unlisted token is rejected. */
  lemma ChecksummedDaiPairRejected(other: Address)
    requires other !in AllowedTokens
    ensures !IsAllowedPair(ChecksummedDai, other) && !IsAllowedPair(other, ChecksummedDai)
  {
    ChecksummedDaiNotListed();
    NeitherListedNotAllowed(ChecksummedDai, other);
    NeitherListedNotAllowed(other, ChecksummedDai);
  }
}
