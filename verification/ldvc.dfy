/** The Ldvc reward token: a fungible balance per address, credited by
    `claimToken` with the monthly income times the number of reward-eligible
    CryptoGoods tokens the caller holds, at most once per 30 days.

    The eligible count is read from the CryptoGoods market at claim time, so the
    market is an argument of the claim; the block time is the argument `now`. */
module Ldvc {
  import opened Tokens
  import CryptoGoods
  import CryptoGoodsProperties

  /** The cooldown between two credited claims: 30 days, in seconds. */
  const Month: nat := 30 * 24 * 60 * 60

  datatype Ledger = Ledger(
    name: string,
    symbol: string,
    monthlyIncome: nat,
    balances: map<Address, nat>,
    lastClaim: map<Address, int>,      // time of the address's last credited claim
    zeroClaimStartsCooldown: bool)     // whether a claim with nothing to credit still starts the cooldown

  function Deploy(name: string, symbol: string, monthlyIncome: nat, zeroClaimStartsCooldown: bool): (l: Ledger)
    ensures l.name == name && l.symbol == symbol && l.monthlyIncome == monthlyIncome
    ensures forall a :: BalanceOf(l, a) == 0
    ensures forall a, now :: ClaimOpen(l, a, now)
  {
    Ledger(name, symbol, monthlyIncome, map[], map[], zeroClaimStartsCooldown)
  }

  function BalanceOf(l: Ledger, a: Address): nat
  {
    if a in l.balances then l.balances[a] else 0
  }

  /** `a` has never claimed, or its last claim is at least a month before `now`. */
  predicate ClaimOpen(l: Ledger, a: Address, now: int)
  {
    a !in l.lastClaim || now - l.lastClaim[a] >= Month
  }

  /** `claimToken`: never reverts; inside the cooldown it does nothing. */
  function ClaimToken(l: Ledger, goods: CryptoGoods.Market, caller: Address, now: int): (r: Ledger)
    ensures BalanceOf(r, caller) == BalanceOf(l, caller)
              + (if ClaimOpen(l, caller, now) then l.monthlyIncome * CryptoGoods.MintableCountOfOwner(goods, caller) else 0)
    ensures !ClaimOpen(l, caller, now) ==> r == l
    ensures forall a :: a != caller ==> BalanceOf(r, a) == BalanceOf(l, a) && ClaimOpen(r, a, now) == ClaimOpen(l, a, now)
    ensures forall a :: a != caller ==>
              (a in r.lastClaim <==> a in l.lastClaim) && (a in l.lastClaim ==> r.lastClaim[a] == l.lastClaim[a])
    ensures ClaimOpen(l, caller, now) && CryptoGoods.MintableCountOfOwner(goods, caller) > 0 ==>
              forall t :: !ClaimOpen(r, caller, t) <==> t < now + Month
    ensures r.name == l.name && r.symbol == l.symbol && r.monthlyIncome == l.monthlyIncome
    ensures r.zeroClaimStartsCooldown == l.zeroClaimStartsCooldown
    // an open claim that credits nothing starts the cooldown only when the ledger says so
    ensures ClaimOpen(l, caller, now) && CryptoGoods.MintableCountOfOwner(goods, caller) == 0 ==>
              r.lastClaim == (if l.zeroClaimStartsCooldown then l.lastClaim[caller := now] else l.lastClaim)
  {
    var count := CryptoGoods.MintableCountOfOwner(goods, caller);
    if !ClaimOpen(l, caller, now) || (count == 0 && !l.zeroClaimStartsCooldown) then l
    else
      CreditFacts(l, caller, now, l.monthlyIncome * count);
      Credit(l, caller, now, l.monthlyIncome * count)
  }

  /** Credits `amount` to `caller` and records `now` as its last claim. */
  function Credit(l: Ledger, caller: Address, now: int, amount: nat): Ledger
  {
    l.(balances := l.balances[caller := BalanceOf(l, caller) + amount], lastClaim := l.lastClaim[caller := now])
  }

  /** A credit moves only the caller's balance and last-claim time, and closes the
      caller's claim for exactly a month. */
  lemma CreditFacts(l: Ledger, caller: Address, now: int, amount: nat)
    ensures var r := Credit(l, caller, now, amount);
            && BalanceOf(r, caller) == BalanceOf(l, caller) + amount
            && r.lastClaim == l.lastClaim[caller := now]
            && (forall a :: a != caller ==> BalanceOf(r, a) == BalanceOf(l, a))
            && (forall t :: !ClaimOpen(r, caller, t) <==> t < now + Month)
            && r.name == l.name && r.symbol == l.symbol && r.monthlyIncome == l.monthlyIncome
            && r.zeroClaimStartsCooldown == l.zeroClaimStartsCooldown
  {
  }

  // ---- properties the Ldvc test suite pins down ----

  /** The first claim of an address pays the monthly income once per eligible token. */
  lemma FirstClaimPaysPerToken(l: Ledger, goods: CryptoGoods.Market, caller: Address, now: int)
    requires caller !in l.lastClaim
    ensures BalanceOf(ClaimToken(l, goods, caller, now), caller)
         == BalanceOf(l, caller) + l.monthlyIncome * CryptoGoods.MintableCountOfOwner(goods, caller)
  {
  }

  /** A holder of no eligible token may claim; nothing is credited. */
  lemma IneligibleHolderGetsNothing(l: Ledger, goods: CryptoGoods.Market, caller: Address, now: int)
    requires CryptoGoods.MintableCountOfOwner(goods, caller) == 0
    ensures BalanceOf(ClaimToken(l, goods, caller, now), caller) == BalanceOf(l, caller)
  {
  }

  /** A second claim less than a month after a credited one changes nothing,
      whatever the caller holds by then. */
  lemma ClaimWithinMonthIsNoOp(l: Ledger, goods: CryptoGoods.Market, later: CryptoGoods.Market,
                               caller: Address, t0: int, t1: int)
    requires ClaimOpen(l, caller, t0) && CryptoGoods.MintableCountOfOwner(goods, caller) > 0
    requires t1 < t0 + Month
    ensures var l1 := ClaimToken(l, goods, caller, t0);
            ClaimToken(l1, later, caller, t1) == l1
  {
  }

  /** A claim a month or more after a credited one pays again: two claims a
      month apart pay twice the monthly income per eligible token. */
  lemma ClaimAfterMonthPaysAgain(l: Ledger, goods: CryptoGoods.Market, caller: Address, t0: int, t1: int)
    requires caller !in l.lastClaim
    requires t1 >= t0 + Month
    ensures var l2 := ClaimToken(ClaimToken(l, goods, caller, t0), goods, caller, t1);
            BalanceOf(l2, caller)
              == BalanceOf(l, caller) + 2 * (l.monthlyIncome * CryptoGoods.MintableCountOfOwner(goods, caller))
  {
  }

  /** Minting the first eligible token and then claiming for the first time pays
      exactly one monthly income. */
  lemma EligibleMintEarnsOneIncome(l: Ledger, m: CryptoGoods.Market, caller: Address, payment: nat, now: int)
    requires CryptoGoods.Mint(m, caller, payment).Success?
    requires CryptoGoods.MintableCountOfOwner(m, caller) == 0
    requires CryptoGoods.TotalSupply(m) + 1 in m.mintableIds
    requires caller !in l.lastClaim
    ensures BalanceOf(ClaimToken(l, CryptoGoods.Mint(m, caller, payment).value, caller, now), caller)
         == BalanceOf(l, caller) + l.monthlyIncome
  {
    var goods := CryptoGoods.Mint(m, caller, payment).value;
    assert CryptoGoods.MintableCountOfOwner(goods, caller) == 1 by {
      CryptoGoodsProperties.MintUpdatesMintableCount(m, caller, payment, caller);
    }
    FirstClaimOfOneToken(l, goods, caller, now);
  }

  lemma FirstClaimOfOneToken(l: Ledger, goods: CryptoGoods.Market, caller: Address, now: int)
    requires CryptoGoods.MintableCountOfOwner(goods, caller) == 1
    requires caller !in l.lastClaim
    ensures BalanceOf(ClaimToken(l, goods, caller, now), caller) == BalanceOf(l, caller) + l.monthlyIncome
  {
    FirstClaimPaysPerToken(l, goods, caller, now);
  }

  // ---- sequences of claims ----

  /** One `claimToken` call against the market as it stood at that moment. */
  datatype Claim = Claim(goods: CryptoGoods.Market, caller: Address, now: int)

  function Claims(l: Ledger, claims: seq<Claim>): Ledger
    decreases |claims|
  {
    if |claims| == 0 then l
    else Claims(ClaimToken(l, claims[0].goods, claims[0].caller, claims[0].now), claims[1..])
  }

  /** No sequence of claims, by anyone at any time, lowers any address's balance. */
  lemma {:induction false} ClaimsNeverLowerBalance(l: Ledger, claims: seq<Claim>, a: Address)
    ensures BalanceOf(Claims(l, claims), a) >= BalanceOf(l, a)
    decreases |claims|
  {
    if |claims| > 0 {
      var c := claims[0];
      var next := ClaimToken(l, c.goods, c.caller, c.now);
      assert BalanceOf(next, a) >= BalanceOf(l, a) by {
        if a == c.caller {
          var credit := if ClaimOpen(l, a, c.now) then l.monthlyIncome * CryptoGoods.MintableCountOfOwner(c.goods, a) else 0;
          assert BalanceOf(next, a) == BalanceOf(l, a) + credit;
        }
      }
      assert Claims(l, claims) == Claims(next, claims[1..]);
      ClaimsNeverLowerBalance(next, claims[1..], a);
    }
  }

  /** Claims by an address whose times all fall within one month of a credited
      first claim add nothing beyond that first credit. */
  lemma {:induction false} OneCreditPerMonth(l: Ledger, claims: seq<Claim>, a: Address, t0: int)
    requires a in l.lastClaim && l.lastClaim[a] == t0
    requires forall i :: 0 <= i < |claims| ==> claims[i].now < t0 + Month
    ensures BalanceOf(Claims(l, claims), a) == BalanceOf(l, a)
    ensures a in Claims(l, claims).lastClaim && Claims(l, claims).lastClaim[a] == t0
    decreases |claims|
  {
    if |claims| > 0 {
      var next := ClaimToken(l, claims[0].goods, claims[0].caller, claims[0].now);
      assert claims[0].now < t0 + Month;
      OneCreditPerMonth(next, claims[1..], a, t0);
    }
  }
}
