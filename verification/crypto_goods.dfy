/** The CryptoGoods sale: a market status machine with a price per status, an
    owner-managed presale whitelist, a cumulative presale cap and the two mint
    entry points (`mint` and `mintAtPresale`).

    Every contract call is a pure transition: it returns the new market, or the
    reason it reverted, in which case the market is left as it was. Wei amounts
    are natural numbers. */
module CryptoGoods {
  import opened Wrappers
  import opened Tokens

  /** Presale mints stop once the total supply would pass this (MAX_PRESALE_SUPPLY). */
  const MaxPresaleSupply: nat := 1250

  /** The market status; `Unopened` is the source's NONE. */
  datatype MarketStatus = Unopened | Presale | Sale | Giveaway

  /** The revert reasons the contract reports; `Message` gives the exact strings. */
  datatype Revert =
    | NotOpenedYet
    | NotPresale
    | NotAllowed
    | EtherNotEnough
    | ExceedWhitelist
    | ExceedMaxTokens
    | NotOwner

  function Message(e: Revert): string
  {
    match e
    case NotOpenedYet => "Market is not opened yet"
    case NotPresale => "Market is not presale"
    case NotAllowed => "You are not allowed"
    case EtherNotEnough => "Ether is not enough"
    case ExceedWhitelist => "Exceed max whitelist available"
    case ExceedMaxTokens => "Purchase would exceed max tokens"
    case NotOwner => "Ownable: caller is not the owner"
  }

  /** Where the presale cap check sits among the presale checks. The cap check
      always comes after the status and whitelist checks, and the allowance check
      always precedes the payment check; the cap's own position is left open. */
  datatype CapCheck = CapBeforeAllowance | CapBeforePayment | CapLast

  /** Behaviour the contract has but its observable record leaves open; each
      market is deployed with one fixed choice of each. */
  datatype Choices = Choices(
    whiteListAdds: bool,             // setWhiteList adds to the allowance instead of overwriting it
    presaleMintUsesAllowance: bool,  // a whitelisted `mint` during PRESALE is `mintAtPresale(1)`
    capCheck: CapCheck)

  datatype Market = Market(
    owner: Address,
    status: MarketStatus,
    prices: map<MarketStatus, nat>,
    whiteList: map<Address, nat>,    // whitelisted addresses and their remaining presale allowance
    owners: seq<Address>,            // the ownership registry, in mint order
    mintableIds: seq<nat>,           // ids that earn the reward token
    choices: Choices)

  /** The constructor's parallel status and price lists, as a table; a status
      listed twice keeps its last price. */
  function PriceTable(statuses: seq<MarketStatus>, prices: seq<nat>): (t: map<MarketStatus, nat>)
    requires |statuses| == |prices|
    ensures forall s :: s in t <==> s in statuses
    ensures forall i :: 0 <= i < |statuses| && statuses[i] !in statuses[i + 1..] ==> t[statuses[i]] == prices[i]
  {
    if |statuses| == 0 then map[]
    else
      var n := |statuses| - 1;
      LastListed(statuses);
      PriceTable(statuses[..n], prices[..n])[statuses[n] := prices[n]]
  }

  /** How a list relates to the list without its last element: membership, and
      last occurrences other than the final position. */
  lemma LastListed<T>(xs: seq<T>)
    requires |xs| > 0
    ensures forall x :: x in xs <==> x in xs[..|xs| - 1] || x == xs[|xs| - 1]
    ensures forall i :: 0 <= i < |xs| - 1 && xs[i] !in xs[i + 1..] ==>
              xs[..|xs| - 1][i] == xs[i] && xs[i] != xs[|xs| - 1] && xs[i] !in xs[..|xs| - 1][i + 1..]
  {
    var n := |xs| - 1;
    assert xs == xs[..n] + [xs[n]];
    forall i | 0 <= i < n && xs[i] !in xs[i + 1..]
      ensures xs[i] != xs[n] && xs[i] !in xs[..n][i + 1..]
    {
      assert xs[n] == xs[i + 1..][n - i - 1];
      assert xs[..n][i + 1..] == xs[i + 1..n];
    }
  }

  function Deploy(owner: Address, statuses: seq<MarketStatus>, prices: seq<nat>,
                  mintableIds: seq<nat>, choices: Choices): (m: Market)
    requires |statuses| == |prices|
    ensures m.owner == owner && m.status == Unopened && m.mintableIds == mintableIds
    ensures TotalSupply(m) == 0
    ensures forall a :: !Whitelisted(m, a) && Available(m, a) == 0
    ensures m.prices == PriceTable(statuses, prices) && m.choices == choices
  {
    Market(owner, Unopened, PriceTable(statuses, prices), map[], [], mintableIds, choices)
  }

  // ---- queries ----

  function TotalSupply(m: Market): nat
  {
    |m.owners|
  }

  function BalanceOf(m: Market, a: Address): nat
  {
    CountOf(m.owners, a)
  }

  predicate Whitelisted(m: Market, a: Address)
  {
    a in m.whiteList
  }

  function Lookup(wl: map<Address, nat>, a: Address): nat
  {
    if a in wl then wl[a] else 0
  }

  /** `getOwnerPresaleAvailableToken`: the caller's remaining presale allowance. */
  function Available(m: Market, a: Address): nat
  {
    Lookup(m.whiteList, a)
  }

  /** `currentPrice`: the constructor's price for the current status; a status
      the constructor did not list reads as 0, like an unset Solidity mapping. */
  function CurrentPrice(m: Market): nat
  {
    if m.status in m.prices then m.prices[m.status] else 0
  }

  function MintableCountOfOwner(m: Market, a: Address): nat
  {
    MintableCount(m.owners, m.mintableIds, a)
  }

  // ---- owner-only calls ----

  function SetCurrentMarketStatus(m: Market, caller: Address, s: MarketStatus): (r: Result<Market, Revert>)
    ensures r.Success? <==> caller == m.owner
    ensures r.Failure? ==> r.error == NotOwner
    ensures r.Success? ==> r.value.status == s && r.value == m.(status := s)
  {
    if caller != m.owner then Failure(NotOwner) else Success(m.(status := s))
  }

  /** Gives every listed address `n` presale tokens, in list order. */
  function Grant(wl: map<Address, nat>, addrs: seq<Address>, n: nat, adds: bool): (r: map<Address, nat>)
    ensures forall a :: a in r <==> a in wl || a in addrs
  {
    if |addrs| == 0 then wl
    else
      var last := |addrs| - 1;
      assert addrs == addrs[..last] + [addrs[last]];
      var rest := Grant(wl, addrs[..last], n, adds);
      rest[addrs[last] := if adds then Lookup(rest, addrs[last]) + n else n]
  }

  lemma {:induction false} GrantKeepsUnlisted(wl: map<Address, nat>, addrs: seq<Address>, n: nat, adds: bool, a: Address)
    requires a !in addrs
    ensures Lookup(Grant(wl, addrs, n, adds), a) == Lookup(wl, a)
  {
    if |addrs| > 0 {
      var last := |addrs| - 1;
      assert addrs == addrs[..last] + [addrs[last]];
      GrantKeepsUnlisted(wl, addrs[..last], n, adds, a);
    }
  }

  /** Overwriting: a listed address ends up with exactly `n`. */
  lemma {:induction false} GrantOverwrites(wl: map<Address, nat>, addrs: seq<Address>, n: nat, a: Address)
    requires a in addrs
    ensures Lookup(Grant(wl, addrs, n, false), a) == n
  {
    var last := |addrs| - 1;
    assert addrs == addrs[..last] + [addrs[last]];
    if a != addrs[last] {
      GrantOverwrites(wl, addrs[..last], n, a);
    }
  }

  /** Distributivity for one more occurrence, kept apart so the solver sees only this product. */
  lemma MulSucc(n: nat, c: nat)
    ensures n * (c + 1) == n * c + n
  {
  }

  /** Adding: every occurrence of an address in the list adds `n` to its allowance. */
  lemma {:induction false} GrantAdds(wl: map<Address, nat>, addrs: seq<Address>, n: nat, a: Address)
    ensures Lookup(Grant(wl, addrs, n, true), a) == Lookup(wl, a) + n * CountOf(addrs, a)
  {
    if |addrs| > 0 {
      var last := |addrs| - 1;
      var c := CountOf(addrs[..last], a);
      GrantAdds(wl, addrs[..last], n, a);
      if a == addrs[last] {
        assert CountOf(addrs, a) == c + 1;
        MulSucc(n, c);
      } else {
        assert CountOf(addrs, a) == c;
      }
    }
  }

  function SetWhiteList(m: Market, caller: Address, addrs: seq<Address>, n: nat): (r: Result<Market, Revert>)
    ensures r.Success? <==> caller == m.owner
    ensures r.Failure? ==> r.error == NotOwner
    ensures r.Success? ==> r.value == m.(whiteList := r.value.whiteList)
    ensures r.Success? ==> forall a :: a in addrs ==> Whitelisted(r.value, a)
    ensures r.Success? ==> forall a :: a !in addrs ==>
              Whitelisted(r.value, a) == Whitelisted(m, a) && Available(r.value, a) == Available(m, a)
    ensures r.Success? && !m.choices.whiteListAdds ==> forall a :: a in addrs ==> Available(r.value, a) == n
    ensures r.Success? && m.choices.whiteListAdds ==>
              forall a :: a in addrs ==> Available(r.value, a) == Available(m, a) + n * CountOf(addrs, a)
  {
    if caller != m.owner then Failure(NotOwner)
    else
      var wl := Grant(m.whiteList, addrs, n, m.choices.whiteListAdds);
      var adds := m.choices.whiteListAdds;
      forall a | a !in addrs ensures Lookup(wl, a) == Lookup(m.whiteList, a) {
        GrantKeepsUnlisted(m.whiteList, addrs, n, adds, a);
      }
      forall a | a in addrs && !adds ensures Lookup(wl, a) == n {
        GrantOverwrites(m.whiteList, addrs, n, a);
      }
      forall a | adds ensures Lookup(wl, a) == Lookup(m.whiteList, a) + n * CountOf(addrs, a) {
        GrantAdds(m.whiteList, addrs, n, a);
      }
      Success(m.(whiteList := wl))
  }

  // ---- minting ----

  /** `after` is `before` with `k` more tokens, all owned by `to`; earlier tokens
      keep their owners and nothing but the registry, the whitelist and the status moved. */
  ghost predicate Minted(before: Market, after: Market, to: Address, k: nat)
  {
    && TotalSupply(after) == TotalSupply(before) + k
    && (forall id :: 1 <= id <= TotalSupply(before) ==> OwnerOf(after.owners, id) == OwnerOf(before.owners, id))
    && (forall id :: TotalSupply(before) < id <= TotalSupply(after) ==> OwnerOf(after.owners, id) == Some(to))
    && BalanceOf(after, to) == BalanceOf(before, to) + k
    && (forall b :: b != to ==> BalanceOf(after, b) == BalanceOf(before, b))
    && after.owner == before.owner && after.prices == before.prices
    && after.mintableIds == before.mintableIds && after.choices == before.choices
  }

  /** The first presale check that fails, in the order `m.choices.capCheck` fixes. */
  function PresaleFailure(m: Market, caller: Address, k: nat, payment: nat): (e: Option<Revert>)
    ensures e == None <==>
      k <= Available(m, caller) && CurrentPrice(m) * k <= payment && TotalSupply(m) + k <= MaxPresaleSupply
    ensures e.Some? ==> e.value == ExceedWhitelist || e.value == EtherNotEnough || e.value == ExceedMaxTokens
    // each reason names a check that really failed
    ensures e == Some(ExceedWhitelist) ==> k > Available(m, caller)
    ensures e == Some(EtherNotEnough) ==> payment < CurrentPrice(m) * k
    ensures e == Some(ExceedMaxTokens) ==> TotalSupply(m) + k > MaxPresaleSupply
    // the allowance wins over the payment, and the cap sits where `capCheck` puts it
    ensures (m.choices.capCheck != CapBeforeAllowance || TotalSupply(m) + k <= MaxPresaleSupply) && k > Available(m, caller) ==>
              e == Some(ExceedWhitelist)
    ensures m.choices.capCheck == CapBeforeAllowance && TotalSupply(m) + k > MaxPresaleSupply ==>
              e == Some(ExceedMaxTokens)
    ensures m.choices.capCheck != CapLast && k <= Available(m, caller) && TotalSupply(m) + k > MaxPresaleSupply ==>
              e == Some(ExceedMaxTokens)
    ensures m.choices.capCheck == CapLast && k <= Available(m, caller) && payment < CurrentPrice(m) * k ==>
              e == Some(EtherNotEnough)
  {
    var overAllowance := k > Available(m, caller);
    var underpaid := payment < CurrentPrice(m) * k;
    var overCap := TotalSupply(m) + k > MaxPresaleSupply;
    match m.choices.capCheck
    case CapBeforeAllowance =>
      if overCap then Some(ExceedMaxTokens)
      else if overAllowance then Some(ExceedWhitelist)
      else if underpaid then Some(EtherNotEnough)
      else None
    case CapBeforePayment =>
      if overAllowance then Some(ExceedWhitelist)
      else if overCap then Some(ExceedMaxTokens)
      else if underpaid then Some(EtherNotEnough)
      else None
    case CapLast =>
      if overAllowance then Some(ExceedWhitelist)
      else if underpaid then Some(EtherNotEnough)
      else if overCap then Some(ExceedMaxTokens)
      else None
  }

  /** Issues `k` tokens during PRESALE; the issue that brings the supply to the
      presale cap switches the market to SALE in the same call. */
  function IssueAtPresale(m: Market, to: Address, k: nat): Market
  {
    var owners := Issue(m.owners, to, k);
    m.(owners := owners, status := if |owners| == MaxPresaleSupply then Sale else m.status)
  }

  /** Issuing tokens, with or without the presale status switch, is a mint of
      exactly those tokens. */
  lemma IssueIsMinted(m: Market, to: Address, k: nat)
    ensures Minted(m, m.(owners := Issue(m.owners, to, k)), to, k)
    ensures Minted(m, IssueAtPresale(m, to, k), to, k)
  {
  }

  function MintAtPresale(m: Market, caller: Address, k: nat, payment: nat): (r: Result<Market, Revert>)
    ensures m.status != Presale ==> r == Failure(NotPresale)
    ensures m.status == Presale && !Whitelisted(m, caller) ==> r == Failure(NotAllowed)
    ensures r.Success? <==>
      && m.status == Presale && Whitelisted(m, caller)
      && k <= Available(m, caller) && CurrentPrice(m) * k <= payment
      && TotalSupply(m) + k <= MaxPresaleSupply
    ensures r.Success? ==> Minted(m, r.value, caller, k)
    ensures r.Success? ==> TotalSupply(r.value) <= MaxPresaleSupply
    ensures r.Success? ==> r.value.status == (if TotalSupply(r.value) == MaxPresaleSupply then Sale else Presale)
    ensures r.Success? ==> Whitelisted(r.value, caller)
    ensures r.Success? ==>
              BalanceOf(r.value, caller) + Available(r.value, caller) == BalanceOf(m, caller) + Available(m, caller)
    ensures r.Success? ==> forall a :: a != caller ==>
              Whitelisted(r.value, a) == Whitelisted(m, a) && Available(r.value, a) == Available(m, a)
  {
    if m.status != Presale then Failure(NotPresale)
    else if !Whitelisted(m, caller) then Failure(NotAllowed)
    else match PresaleFailure(m, caller, k, payment)
      case Some(e) => Failure(e)
      case None =>
        var spent := m.(whiteList := m.whiteList[caller := m.whiteList[caller] - k]);
        Success(IssueAtPresale(spent, caller, k))
  }

  function Mint(m: Market, caller: Address, payment: nat): (r: Result<Market, Revert>)
    ensures m.status == Unopened ==> r == Failure(NotOpenedYet)
    ensures m.status == Presale && !Whitelisted(m, caller) ==> r == Failure(NotAllowed)
    ensures (m.status == Sale || m.status == Giveaway) ==>
              (r.Success? <==> CurrentPrice(m) <= payment) && (r.Failure? ==> r.error == EtherNotEnough)
    ensures m.status == Presale && Whitelisted(m, caller) ==>
              (r.Success? <==>
                 CurrentPrice(m) <= payment && TotalSupply(m) + 1 <= MaxPresaleSupply
                 && (m.choices.presaleMintUsesAllowance ==> 1 <= Available(m, caller)))
    ensures r.Success? ==> Minted(m, r.value, caller, 1) && CurrentPrice(m) <= payment
    ensures r.Success? && m.status != Presale ==> r.value.status == m.status && r.value.whiteList == m.whiteList
    ensures r.Success? && m.status == Presale ==>
              Whitelisted(m, caller) && TotalSupply(r.value) <= MaxPresaleSupply
              && r.value.status == (if TotalSupply(r.value) == MaxPresaleSupply then Sale else Presale)
    ensures r.Success? && m.status == Presale && m.choices.presaleMintUsesAllowance ==>
              Available(r.value, caller) + 1 == Available(m, caller)
    ensures r.Success? && m.status == Presale && m.choices.presaleMintUsesAllowance ==>
              r.value.whiteList == m.whiteList[caller := m.whiteList[caller] - 1]
    ensures r.Success? && m.status == Presale && !m.choices.presaleMintUsesAllowance ==>
              r.value.whiteList == m.whiteList
  {
    match m.status
    case Unopened => Failure(NotOpenedYet)
    case Presale =>
      if !Whitelisted(m, caller) then Failure(NotAllowed)
      else if m.choices.presaleMintUsesAllowance then MintAtPresale(m, caller, 1, payment)
      else if payment < CurrentPrice(m) then Failure(EtherNotEnough)
      else if TotalSupply(m) + 1 > MaxPresaleSupply then Failure(ExceedMaxTokens)
      else IssueIsMinted(m, caller, 1); Success(IssueAtPresale(m, caller, 1))
    case _ =>
      if payment < CurrentPrice(m) then Failure(EtherNotEnough)
      else IssueIsMinted(m, caller, 1); Success(m.(owners := Issue(m.owners, caller, 1)))
  }
}
