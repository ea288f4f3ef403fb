/** Properties of the CryptoGoods market that its test suite pins down, stated
    for every market, caller, amount and payment rather than for the test's
    particular signers and prices. */
module CryptoGoodsProperties {
  import opened Wrappers
  import opened Tokens
  import opened CryptoGoods

  /** A freshly deployed market is not open: `mint` and `mintAtPresale` both revert. */
  lemma FreshMarketIsClosed(owner: Address, statuses: seq<MarketStatus>, prices: seq<nat>, mintableIds: seq<nat>,
                            choices: Choices, caller: Address, k: nat, payment: nat)
    requires |statuses| == |prices|
    ensures Deploy(owner, statuses, prices, mintableIds, choices).status == Unopened
    ensures Mint(Deploy(owner, statuses, prices, mintableIds, choices), caller, payment) == Failure(NotOpenedYet)
    ensures MintAtPresale(Deploy(owner, statuses, prices, mintableIds, choices), caller, k, payment) == Failure(NotPresale)
    ensures Message(Mint(Deploy(owner, statuses, prices, mintableIds, choices), caller, payment).error)
         == "Market is not opened yet"
  {
  }

  /** After the owner switches to a status the constructor priced, `currentPrice`
      is that constructor price. */
  lemma StatusSelectsConstructorPrice(owner: Address, statuses: seq<MarketStatus>, prices: seq<nat>,
                                      mintableIds: seq<nat>, choices: Choices, i: nat)
    requires |statuses| == |prices| && i < |statuses|
    requires statuses[i] !in statuses[i + 1..]
    ensures var r := SetCurrentMarketStatus(Deploy(owner, statuses, prices, mintableIds, choices), owner, statuses[i]);
            r.Success? && r.value.status == statuses[i] && CurrentPrice(r.value) == prices[i]
  {
  }

  /** An address listed once and not whitelisted before reports exactly `n`
      available tokens, whether the whitelist overwrites or adds. */
  lemma WhiteListGrantsAmount(m: Market, addrs: seq<Address>, n: nat, a: Address)
    requires a in addrs && CountOf(addrs, a) == 1 && !Whitelisted(m, a)
    ensures var r := SetWhiteList(m, m.owner, addrs, n);
            r.Success? && Whitelisted(r.value, a) && Available(r.value, a) == n
  {
  }

  /** During presale an address that is not whitelisted can use neither entry point. */
  lemma OutsiderCannotMint(m: Market, caller: Address, k: nat, payment: nat)
    requires m.status == Presale && !Whitelisted(m, caller)
    ensures Mint(m, caller, payment) == Failure(NotAllowed)
    ensures MintAtPresale(m, caller, k, payment) == Failure(NotAllowed)
    ensures Message(Mint(m, caller, payment).error) == "You are not allowed"
  {
  }

  /** Asking for more than the remaining allowance reverts with ExceedWhitelist
      whatever is paid: the allowance check comes before the payment check. */
  lemma AllowanceCheckedBeforePayment(m: Market, caller: Address, k: nat, payment: nat)
    requires m.status == Presale && Whitelisted(m, caller) && k > Available(m, caller)
    requires m.choices.capCheck != CapBeforeAllowance || TotalSupply(m) + k <= MaxPresaleSupply
    ensures MintAtPresale(m, caller, k, payment) == Failure(ExceedWhitelist)
    ensures Message(MintAtPresale(m, caller, k, payment).error) == "Exceed max whitelist available"
  {
  }

  /** Paying less than `k` times the presale price reverts with EtherNotEnough. */
  lemma UnderpaymentRejected(m: Market, caller: Address, k: nat, payment: nat)
    requires m.status == Presale && Whitelisted(m, caller) && k <= Available(m, caller)
    requires payment < CurrentPrice(m) * k
    requires m.choices.capCheck == CapLast || TotalSupply(m) + k <= MaxPresaleSupply
    ensures MintAtPresale(m, caller, k, payment) == Failure(EtherNotEnough)
    ensures Message(MintAtPresale(m, caller, k, payment).error) == "Ether is not enough"
  {
  }

  /** A presale purchase that would take the supply past the cap is refused as a
      whole, even when allowance and payment would cover it. */
  lemma PresaleCapRejectsWhole(m: Market, caller: Address, k: nat, payment: nat)
    requires m.status == Presale && Whitelisted(m, caller) && k <= Available(m, caller)
    requires CurrentPrice(m) * k <= payment
    requires TotalSupply(m) + k > MaxPresaleSupply
    ensures MintAtPresale(m, caller, k, payment) == Failure(ExceedMaxTokens)
    ensures Message(MintAtPresale(m, caller, k, payment).error) == "Purchase would exceed max tokens"
  {
  }

  /** Buying exactly the residual presale supply succeeds, opens the sale in the
      same call, and from then on the presale entry point is closed while a mint
      at the sale price goes through. */
  lemma ResidualMintOpensSale(m: Market, caller: Address, payment: nat, later: Address, k: nat, salePayment: nat)
    requires m.status == Presale && Whitelisted(m, caller) && TotalSupply(m) <= MaxPresaleSupply
    requires MaxPresaleSupply - TotalSupply(m) <= Available(m, caller)
    requires CurrentPrice(m) * (MaxPresaleSupply - TotalSupply(m)) <= payment
    ensures var r := MintAtPresale(m, caller, MaxPresaleSupply - TotalSupply(m), payment);
            && r.Success? && r.value.status == Sale && TotalSupply(r.value) == MaxPresaleSupply
            && MintAtPresale(r.value, later, k, salePayment) == Failure(NotPresale)
            && (Mint(r.value, later, salePayment).Success? <==> CurrentPrice(r.value) <= salePayment)
  {
  }

  /** The SALE rules: no presale minting, a mint below the sale price reverts,
      and a mint at the sale price adds exactly one token to the caller. */
  lemma SaleRules(m: Market, caller: Address, k: nat, payment: nat)
    requires m.status == Sale
    ensures MintAtPresale(m, caller, k, payment) == Failure(NotPresale)
    ensures Message(MintAtPresale(m, caller, k, payment).error) == "Market is not presale"
    ensures payment < CurrentPrice(m) ==> Mint(m, caller, payment) == Failure(EtherNotEnough)
    ensures CurrentPrice(m) <= payment ==>
              && Mint(m, caller, payment).Success?
              && BalanceOf(Mint(m, caller, payment).value, caller) == BalanceOf(m, caller) + 1
  {
  }

  // ---- sequences of mint calls ----

  datatype MintCall =
    | PlainMint(caller: Address, payment: nat)
    | PresaleMint(caller: Address, count: nat, payment: nat)

  function Call(m: Market, c: MintCall): Result<Market, Revert>
  {
    match c
    case PlainMint(caller, payment) => Mint(m, caller, payment)
    case PresaleMint(caller, k, payment) => MintAtPresale(m, caller, k, payment)
  }

  /** A reverted call leaves the market as it was. */
  function Step(m: Market, c: MintCall): Market
  {
    match Call(m, c)
    case Success(next) => next
    case Failure(_) => m
  }

  function Run(m: Market, calls: seq<MintCall>): Market
    decreases |calls|
  {
    if |calls| == 0 then m else Run(Step(m, calls[0]), calls[1..])
  }

  /** The presale cap, as an invariant of the market. */
  ghost predicate PresaleWithinCap(m: Market)
  {
    m.status == Presale ==> TotalSupply(m) <= MaxPresaleSupply
  }

  /** No sequence of mint calls breaks the presale cap, reassigns a minted id or
      moves the market anywhere but from PRESALE to SALE. */
  lemma {:induction false} RunKeepsPresaleCap(m: Market, calls: seq<MintCall>)
    requires PresaleWithinCap(m)
    ensures PresaleWithinCap(Run(m, calls))
    ensures TotalSupply(Run(m, calls)) >= TotalSupply(m)
    ensures forall id :: 1 <= id <= TotalSupply(m) ==> OwnerOf(Run(m, calls).owners, id) == OwnerOf(m.owners, id)
    ensures m.status != Presale ==> Run(m, calls).status == m.status
    ensures m.status == Presale ==> Run(m, calls).status == Presale || Run(m, calls).status == Sale
    ensures Run(m, calls).owner == m.owner && Run(m, calls).prices == m.prices
    decreases |calls|
  {
    if |calls| > 0 {
      var next := Step(m, calls[0]);
      assert PresaleWithinCap(next);
      RunKeepsPresaleCap(next, calls[1..]);
    }
  }

  /** Mints of one token each, all paying `payment`. */
  function PaidMints(callers: seq<Address>, payment: nat): seq<MintCall>
  {
    if |callers| == 0 then [] else [PlainMint(callers[0], payment)] + PaidMints(callers[1..], payment)
  }

  /** Running a call followed by more calls is running the rest from the call's result. */
  lemma RunCons(m: Market, c: MintCall, rest: seq<MintCall>)
    ensures Run(m, [c] + rest) == Run(Step(m, c), rest)
  {
    assert ([c] + rest)[1..] == rest;
  }

  /** One paid mint during SALE or GIVEAWAY appends the caller and changes nothing else. */
  lemma PaidMintStep(m: Market, caller: Address, payment: nat)
    requires m.status == Sale || m.status == Giveaway
    requires CurrentPrice(m) <= payment
    ensures Step(m, PlainMint(caller, payment)) == m.(owners := m.owners + [caller])
  {
    assert Issue(m.owners, caller, 1) == m.owners + [caller];
  }

  /** Peeling the first caller off the list and appending it separately changes nothing. */
  lemma AppendFirst(xs: seq<Address>, ys: seq<Address>)
    requires |ys| > 0
    ensures xs + [ys[0]] + ys[1..] == xs + ys
  {
    assert [ys[0]] + ys[1..] == ys;
  }

  /** During SALE or GIVEAWAY, paid mints hand out ids in call order: the `j`-th
      caller receives the next free id plus `j`. */
  lemma {:induction false} PaidMintsNumberInOrder(m: Market, callers: seq<Address>, payment: nat)
    requires m.status == Sale || m.status == Giveaway
    requires CurrentPrice(m) <= payment
    ensures Run(m, PaidMints(callers, payment)).owners == m.owners + callers
    ensures Run(m, PaidMints(callers, payment)).status == m.status
    ensures Run(m, PaidMints(callers, payment)).mintableIds == m.mintableIds
    decreases |callers|
  {
    if |callers| > 0 {
      var next := m.(owners := m.owners + [callers[0]]);
      var after := Run(next, PaidMints(callers[1..], payment));
      assert Run(m, PaidMints(callers, payment)) == after by {
        RunCons(m, PlainMint(callers[0], payment), PaidMints(callers[1..], payment));
        PaidMintStep(m, callers[0], payment);
      }
      assert after.owners == next.owners + callers[1..] && after.status == m.status && after.mintableIds == m.mintableIds by {
        PaidMintsNumberInOrder(next, callers[1..], payment);
      }
      AppendFirst(m.owners, callers);
    } else {
      assert m.owners + callers == m.owners;
    }
  }

  // ---- reward eligibility ----

  /** A mint's effect on the registry is exactly an append of the new tokens. */
  lemma MintedAppends(before: Market, after: Market, to: Address, k: nat)
    requires Minted(before, after, to, k)
    ensures after.owners == before.owners + Batch(to, k)
  {
    var n := |before.owners|;
    forall i | 0 <= i < |after.owners|
      ensures after.owners[i] == (before.owners + Batch(to, k))[i]
    {
      assert OwnerOf(after.owners, i + 1) == Some(after.owners[i]);
      if i < n {
        assert OwnerOf(before.owners, i + 1) == Some(before.owners[i]);
      }
    }
  }

  /** A successful `mint` raises the caller's mintable count by one exactly when
      the id it hands out is in the constructor's list, and nobody else's. */
  lemma MintUpdatesMintableCount(m: Market, caller: Address, payment: nat, a: Address)
    requires Mint(m, caller, payment).Success?
    ensures MintableCountOfOwner(Mint(m, caller, payment).value, a)
         == MintableCountOfOwner(m, a) + (if a == caller && TotalSupply(m) + 1 in m.mintableIds then 1 else 0)
  {
    var r := Mint(m, caller, payment).value;
    MintedAppends(m, r, caller, 1);
    assert Batch(caller, 1) == [caller];
    MintableCountAfterMint(m.owners, m.mintableIds, caller, a);
  }

  /** With ids 1, 2 and 3 eligible, when one address mints three tokens and
      another then mints a fourth, the first holds three eligible tokens and the
      second holds a token but no eligible one. */
  lemma LateMinterHoldsNoEligibleToken(m: Market, first: Address, second: Address, payment: nat)
    requires m.status == Sale && TotalSupply(m) == 0 && m.mintableIds == [1, 2, 3]
    requires first != second && CurrentPrice(m) <= payment
    ensures var after := Run(m, PaidMints([first, first, first, second], payment));
            && BalanceOf(after, first) == 3 && MintableCountOfOwner(after, first) == 3
            && BalanceOf(after, second) == 1 && MintableCountOfOwner(after, second) == 0
  {
    var after := Run(m, PaidMints([first, first, first, second], payment));
    PaidMintsNumberInOrder(m, [first, first, first, second], payment);
    assert after.owners == [first, first, first, second];
    ThreeThenOneCounts(first, second);
  }

  /** The counts of the registry [first, first, first, second] against the id list [1, 2, 3]. */
  lemma ThreeThenOneCounts(first: Address, second: Address)
    requires first != second
    ensures CountOf([first, first, first, second], first) == 3
    ensures CountOf([first, first, first, second], second) == 1
    ensures MintableCount([first, first, first, second], [1, 2, 3], first) == 3
    ensures MintableCount([first, first, first, second], [1, 2, 3], second) == 0
  {
    var o := [first, first, first, second];
    var ids := [1, 2, 3];
    assert o[..3] == [first, first, first] && o[..3][..2] == [first, first] && o[..3][..2][..1] == [first];
    assert 1 in ids && 2 in ids && 3 in ids && 4 !in ids;
    assert CountOf([first], first) == 1 && CountOf([first], second) == 0;
    assert CountOf([first, first], first) == 2 && CountOf([first, first], second) == 0;
    assert CountOf([first, first, first], first) == 3 && CountOf([first, first, first], second) == 0;
    assert MintableCount([first], ids, first) == 1 && MintableCount([first], ids, second) == 0;
    assert MintableCount([first, first], ids, first) == 2 && MintableCount([first, first], ids, second) == 0;
    assert MintableCount([first, first, first], ids, first) == 3;
    assert MintableCount([first, first, first], ids, second) == 0;
  }
}
