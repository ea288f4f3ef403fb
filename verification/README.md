# CryptoGoods sale and Ldvc reward, modelled in Dafny

This project models three parts of the CryptoGoods repository:

- **The CryptoGoods market.** This is an NFT sale with four market statuses: NONE, PRESALE, SALE and GIVEAWAY.
  - The constructor fixes a price for each status.
  - The owner sets the status and manages a whitelist. The whitelist gives each listed address a presale allowance.
  - There are two mint entry points, `mint` and `mintAtPresale`.
  - Presale minting is capped at 1250 tokens in total supply. The mint that reaches the cap switches the market to SALE.
- **The Ldvc reward token.** `claimToken` pays a monthly income for each reward-eligible CryptoGoods token the caller holds. A token is eligible when its id is in the constructor's `mintableTokenIds` list. A claim pays at most once every 30 days; a claim inside that window does nothing and does not revert.
- **The random helpers** `randomInt`, `pickRandomly` and `pickByRarity`. The random draw is an argument.

The repository's Solidity contracts are not part of this model. The market and the ledger are modelled from the behaviour their test suites (`test/index.ts`, `test/Ldvc.ts`) pin down.

Each contract call is a pure function. It returns `Success(newState)` or `Failure(reason)`, and a failure leaves the state as it was. The revert reasons are the `CryptoGoods.Revert` constructors, and `CryptoGoods.Message` maps each one to its exact revert string.

Modules:

| file | module | models |
|---|---|---|
| wrappers.dfy | `Wrappers` | `Option` and `Result` |
| tokens.dfy | `Tokens` | the ownership registry: ids 1, 2, 3, … in mint order, `balanceOf`, `mintableCountOfOwner` |
| crypto_goods.dfy | `CryptoGoods` | the market state and its calls |
| crypto_goods_properties.dfy | `CryptoGoodsProperties` | properties of the market, including sequences of mint calls |
| ldvc.dfy | `Ldvc` | the reward ledger and `claimToken` |
| random.dfy | `Random` | `randomInt`, `pickRandomly`, `pickByRarity` |

The market's test suite leaves some behaviour open. The model does not pick one answer for these. Each market is deployed with a `CryptoGoods.Choices` value, and every property is proved for all choices unless it says otherwise. The open points:

- `whiteListAdds`: whether `setWhiteList` overwrites an address's allowance or adds to it.
- `presaleMintUsesAllowance`: whether a whitelisted `mint()` during PRESALE is `mintAtPresale(1)`, which spends allowance, or only charges the presale price.
- `capCheck`: where the presale cap check sits relative to the allowance and payment checks. This decides which error wins when several checks fail.

Likewise, `Ldvc.Ledger.zeroClaimStartsCooldown` decides whether a claim that credits nothing starts the 30-day cooldown.

The check order that the tests do fix is modelled exactly:
1. the status check;
2. the whitelist check;
3. the allowance check, which comes before the payment check (test/index.ts:177-180).

Four decisions follow what the tests show:

- A claim inside the cooldown is a silent no-op, not a revert. The second `claimToken` in test/Ldvc.ts:107-113 succeeds and the balance stays at one income.
- A whitelisted `mint()` during PRESALE succeeds at the presale price (test/index.ts:150-152).
- The allowance check comes before the payment check. A zero-payment purchase over the allowance fails "Exceed max whitelist available" (test/index.ts:177-180).
- The presale cap is measured against `totalSupply`. The residual purchase is `1250 - totalSupply` (test/index.ts:207-214).

Three more decisions have no test behind them:

- A status the constructor did not price reads as 0.
- The presale cap and the automatic switch to SALE also apply to a whitelisted `mint()` during PRESALE.
- An address counts as whitelisted once `setWhiteList` has listed it, even when its allowance is 0 or used up. Such an address gets "Exceed max whitelist available" from `mintAtPresale`, not "You are not allowed".

## Model

| member | source | states |
|---|---|---|
| Tokens.Issue | test/index.ts:144-149 | minting k tokens gives the next k ids to the minter, keeps every earlier id's owner, raises the minter's balance by exactly k and leaves every other balance unchanged |
| Tokens.MintableCount | test/Ldvc.ts:67-72 | an owner's count of eligible tokens never exceeds its balance |
| Tokens.MintableCountAfterMint | test/Ldvc.ts:79-84 | one more mint raises only the minter's eligible count, by one, and only when the new id is listed |
| Tokens.MintableCountOthersUnchanged | test/Ldvc.ts:93-100 | minting to one address never changes another address's eligible count |
| CryptoGoods.PriceTable | test/index.ts:45-48 | the constructor's status and price lists become a table that prices exactly the listed statuses, each at its paired (last) price |
| CryptoGoods.Deploy | test/index.ts:56-63 | a new market has the deployer as owner, status NONE, no tokens and no whitelisted address; its price table is built from the constructor's status and price lists, and it keeps the deployment choices |
| CryptoGoods.SetCurrentMarketStatus | test/index.ts:75-90 | only the owner may set the status; any other caller gets "Ownable: caller is not the owner" and nothing changes; the owner's call changes the status and nothing else |
| CryptoGoods.SetWhiteList | test/index.ts:95-115 | only the owner may set the whitelist; listed addresses become whitelisted with n tokens when overwriting, or with n more per listing when adding; unlisted addresses and all other state are unchanged |
| CryptoGoods.GrantOverwrites | test/index.ts:106-115 | with overwriting, every listed address ends with exactly n available tokens |
| CryptoGoods.GrantAdds | test/index.ts:106-115 | with adding, every listing of an address adds n to its allowance |
| CryptoGoods.PresaleFailure | test/index.ts:154-206 | a presale purchase passes the checks exactly when it is within the allowance, paid at the presale price times the count, and within the 1250 cap; each reason it reports names a check that really failed; an over-allowance request is refused for the allowance before the payment is looked at, under every `capCheck` unless the cap check comes first and also fails; the cap check wins or loses against the other two as `capCheck` places it |
| CryptoGoods.MintAtPresale | test/index.ts:134-219 | outside PRESALE it reverts "Market is not presale", and an address that is not whitelisted gets "You are not allowed"; it succeeds exactly when allowance, payment and cap allow; success raises the caller's balance by k, keeps balance + allowance constant, never takes the supply past 1250, and switches to SALE exactly when the supply reaches 1250 |
| CryptoGoods.Mint | test/index.ts:123-256 | in NONE it reverts "Market is not opened yet", and during PRESALE a non-whitelisted caller gets "You are not allowed"; a whitelisted PRESALE caller succeeds exactly when the payment covers the presale price, the supply is below 1250 and, when the mint spends allowance, one token of allowance is left; in SALE or GIVEAWAY it succeeds exactly when the payment covers the current price, else "Ether is not enough"; success gives the caller the next id and exactly one more token; a whitelisted PRESALE mint that acts as `mintAtPresale(1)` takes exactly one token off the caller's allowance and leaves every other whitelist entry as it was; otherwise it leaves the whitelist alone |
| CryptoGoodsProperties.FreshMarketIsClosed | test/index.ts:60-73 | a new market is in NONE; there `mint` fails "Market is not opened yet" and `mintAtPresale` fails "Market is not presale" |
| CryptoGoodsProperties.StatusSelectsConstructorPrice | test/index.ts:75-84 | after the owner selects a status the constructor priced, `currentPrice` is that status's constructor price |
| CryptoGoodsProperties.WhiteListGrantsAmount | test/index.ts:106-115 | after `setWhiteList(addrs, n)`, an address listed once that was not whitelisted before reports n available tokens, under either whitelist policy |
| CryptoGoodsProperties.OutsiderCannotMint | test/index.ts:123-133 | during PRESALE a non-whitelisted caller fails both `mint` and `mintAtPresale` with "You are not allowed" |
| CryptoGoodsProperties.AllowanceCheckedBeforePayment | test/index.ts:154-180 | asking for more than the remaining allowance fails "Exceed max whitelist available" whatever the payment, even zero |
| CryptoGoodsProperties.UnderpaymentRejected | test/index.ts:134-139 | paying less than presale price times count fails "Ether is not enough" |
| CryptoGoodsProperties.PresaleCapRejectsWhole | test/index.ts:195-206 | a presale purchase that would take the supply past 1250 fails whole with "Purchase would exceed max tokens" |
| CryptoGoodsProperties.ResidualMintOpensSale | test/index.ts:207-214 | buying exactly 1250 - totalSupply succeeds and leaves the market in SALE at 1250 tokens, after which `mintAtPresale` fails "Market is not presale" |
| CryptoGoodsProperties.SaleRules | test/index.ts:227-256 | in SALE `mintAtPresale` fails "Market is not presale", `mint` below the sale price fails "Ether is not enough", and `mint` at the sale price adds exactly one token |
| CryptoGoodsProperties.RunKeepsPresaleCap | test/index.ts:183-219 | over any sequence of mint calls, a market in PRESALE never holds more than 1250 tokens, minted ids keep their owners, and the status only moves from PRESALE to SALE |
| CryptoGoodsProperties.PaidMintsNumberInOrder | test/Ldvc.ts:93-98 | in SALE or GIVEAWAY, paid mints hand out ids in call order: the registry becomes the old one followed by the callers |
| CryptoGoodsProperties.MintUpdatesMintableCount | test/Ldvc.ts:67-84 | a successful mint raises the caller's `mintableCountOfOwner` by one exactly when the new id is in the constructor's list, and nobody else's |
| CryptoGoodsProperties.LateMinterHoldsNoEligibleToken | test/Ldvc.ts:91-100 | with ids [1,2,3] eligible, after three mints by one address and one by another, the first has 3 eligible tokens and the second has a token but 0 eligible |
| Ldvc.Deploy | test/Ldvc.ts:47-66 | `name`, `symbol` and the monthly income are the constructor arguments; no address has a balance or a prior claim |
| Ldvc.ClaimToken | test/Ldvc.ts:67-130 | a claim never reverts; outside the cooldown it credits monthly income times the caller's eligible count; inside it changes nothing; a paying claim blocks the next paying claim for exactly 30 days; an open claim that credits nothing starts the cooldown exactly when the ledger's `zeroClaimStartsCooldown` is set; every other address keeps its balance and its last-claim time |
| Ldvc.FirstClaimPaysPerToken | test/Ldvc.ts:79-90 | the first claim credits monthlyIncome × mintableCountOfOwner |
| Ldvc.IneligibleHolderGetsNothing | test/Ldvc.ts:91-101 | a holder of no eligible token can claim, and its balance does not change |
| Ldvc.ClaimWithinMonthIsNoOp | test/Ldvc.ts:102-114 | a second claim less than 30 days after a paying claim leaves the ledger unchanged |
| Ldvc.ClaimAfterMonthPaysAgain | test/Ldvc.ts:116-130 | a claim 30 days or more after the first pays again, giving twice the monthly income per eligible token |
| Ldvc.EligibleMintEarnsOneIncome | test/Ldvc.ts:67-78 | minting one's first eligible token and then claiming for the first time credits exactly one monthly income |
| Ldvc.ClaimsNeverLowerBalance | test/Ldvc.ts:74-129 | no sequence of claims, by anyone at any time, lowers any address's reward balance |
| Ldvc.OneCreditPerMonth | test/Ldvc.ts:102-114 | any number of claims within 30 days of an address's last paying claim add nothing to its balance |
| Random.RandomInt | helpers/random.ts:1-3 | a draw in [0, max - min + 1) gives a value in [min, max] |
| Random.RandomIntIsOneToOne | helpers/random.ts:1-3 | each value of [min, max] comes from exactly one draw, so a uniform draw gives a uniform value |
| Random.PickRandomly | helpers/random.ts:5-7 | a value is returned exactly when the draw is a valid index (on an empty list never), and it is an element of the list |
| Random.PickRandomlyReachesEveryPosition | helpers/random.ts:5-7 | every position of a list is returned by its own draw |
| Random.PickFrom | helpers/random.ts:13-18 | the loop returns the first position whose running rarity sum is strictly greater than the draw, or runs off the end only when no running sum is |
| Random.PickIndex | helpers/random.ts:9-23 | `pickByRarity`'s choice is the first position whose running sum passes the draw; the throw happens only when none does |
| Random.PickByRarity | helpers/random.ts:9-23 | the returned item is the one at the first position whose running rarity sum passes the draw; nothing is returned (the throw) exactly when no running sum passes it |
| Random.PickByRarityNeverThrows | helpers/random.ts:19-22 | with a draw in [0, totalRarity), the throw is unreachable |
| Random.WeightlessListThrows | helpers/random.ts:10-22 | with non-negative rarities summing to 0 (including the empty list) the only draw, 0, reaches the throw |
| Random.PickedItemHasWeight | helpers/random.ts:13-17 | for a non-negative draw the picked item has positive rarity, so an item of rarity 0 is never returned |
| Random.PickIndexIsSlice | helpers/random.ts:10-18 | with non-negative rarities, draw d picks position i exactly when runningSum(i) ≤ d < runningSum(i + 1) |
| Random.DrawsPerItemEqualRarity | helpers/random.ts:10-18 | with non-negative rarities, exactly `rarity` of the draws 0 … totalRarity - 1 pick each position |

## Left out

- The Solidity contracts are not part of this model. Only behaviour that `test/index.ts` and `test/Ldvc.ts` pin down is claimed. The `Choices` fields and `zeroClaimStartsCooldown` keep the open points open.
- The 3333 total-supply cap, the 1833 sale cap and the SALE to GIVEAWAY transition are left out, because the tests have them commented out or marked TODO.
- CryptoGoods.Whitelisted: an address stays whitelisted once listed, even with allowance 0. The tests never exhaust an allowance or list with 0, so whether the contract answers "You are not allowed" there instead is not pinned.
- The cap check is assumed to come after the status and whitelist checks. No test puts a non-whitelisted caller at the cap.
- CryptoGoods.Mint: in the variant where a whitelisted PRESALE `mint()` does not spend allowance, the model checks the price before the cap. That order is a fixed pick, not a pinned behaviour.
- `mintAtPresale(0)` passes every check and mints nothing. The tests never call it, so the contract may reject it.
- CryptoGoods.PriceTable: the constructor's parallel lists are assumed to have equal lengths. The contract's handling of a length mismatch is not modelled.
- Wei amounts and token counts are unbounded naturals. uint256 overflow of `price × count` and of `monthlyIncome × count` is not modelled.
- Ldvc.ClaimToken: the block time is an integer argument. A time earlier than the last claim is treated as inside the cooldown; the uint256 underflow that Solidity would raise is not modelled, because block time never goes backwards. Exactly 30 days is treated as enough; the test only shows that 30 days plus the few seconds of intervening blocks is.
- ERC-721 and ERC-20 machinery is left out: transfers, approvals, token URIs, and the owner getter beyond the stored `owner` field. Transfers would change `mintableCountOfOwner` between claims; the ledger reads the count from the market at claim time, so such a change would be reflected, but transfers themselves are not modelled.
- The differing constructor arities across the two test files and the deploy script are merged into one constructor that takes the mintable id list.
- `Math.random()` is replaced by an integer draw. The comment at the top of random.dfy argues informally that, for integer rarities, the integer draw decides the same result; that argument is not proved. Floating-point rounding of `Math.random() * n` is not modelled.
- The upload, image-generation, attribute-generation and deployment scripts are I/O glue and are left out.
- `rarityPick` in scripts/tools/attributes/utils/random.ts has an empty body and is left out. Its `randomPick` duplicates `pickRandomly`.
- The attribute type declarations are left out; `Random.Rated` stands in for `{ value, rarity }`.
- The invariant "sum of balances equals totalSupply" is true by construction: each id's owner is one entry of the registry sequence. No separate lemma states it.
