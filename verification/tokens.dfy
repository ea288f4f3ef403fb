/** The ownership registry of the CryptoGoods collection.

    Token ids are handed out 1, 2, 3, ... in mint order, and a token is never
    burnt, so the whole registry is the sequence of owners in mint order:
    `owners[i]` owns the token with id `i + 1`. */
module Tokens {
  import opened Wrappers

  type Address = nat

  /** Number of tokens held by `a` (ERC-721 `balanceOf`). */
  function CountOf(owners: seq<Address>, a: Address): (n: nat)
    ensures n <= |owners|
    ensures n == 0 <==> a !in owners
  {
    if |owners| == 0 then 0
    else
      var last := |owners| - 1;
      assert owners == owners[..last] + [owners[last]];
      CountOf(owners[..last], a) + (if owners[last] == a then 1 else 0)
  }

  /** The owner of token `id`, or None when no token with that id has been minted. */
  function OwnerOf(owners: seq<Address>, id: nat): Option<Address>
  {
    if 1 <= id <= |owners| then Some(owners[id - 1]) else None
  }

  /** The tokens minted in one call: `k` fresh ids, all owned by `to`. */
  function Batch(to: Address, k: nat): seq<Address>
  {
    seq(k, _ => to)
  }

  /** Mints `k` tokens to `to`; they receive the next `k` ids. */
  function Issue(owners: seq<Address>, to: Address, k: nat): (r: seq<Address>)
    ensures |r| == |owners| + k
    ensures forall id :: 1 <= id <= |owners| ==> OwnerOf(r, id) == OwnerOf(owners, id)
    ensures forall id :: |owners| < id <= |owners| + k ==> OwnerOf(r, id) == Some(to)
    ensures CountOf(r, to) == CountOf(owners, to) + k
    ensures forall b :: b != to ==> CountOf(r, b) == CountOf(owners, b)
  {
    CountBatch(to, k);
    forall b | b != to
      ensures CountOf(owners + Batch(to, k), b) == CountOf(owners, b)
    {
      CountAppend(owners, Batch(to, k), b);
      CountBatch(to, k);
    }
    CountAppend(owners, Batch(to, k), to);
    owners + Batch(to, k)
  }

  lemma {:induction false} CountAppend(s: seq<Address>, t: seq<Address>, a: Address)
    ensures CountOf(s + t, a) == CountOf(s, a) + CountOf(t, a)
    decreases |t|
  {
    if |t| > 0 {
      var last := |t| - 1;
      assert (s + t)[..|s + t| - 1] == s + t[..last];
      CountAppend(s, t[..last], a);
    } else {
      assert s + t == s;
    }
  }

  lemma {:induction false} CountBatch(to: Address, k: nat)
    ensures CountOf(Batch(to, k), to) == k
    ensures forall b :: b != to ==> CountOf(Batch(to, k), b) == 0
  {
    if k > 0 {
      assert Batch(to, k)[..k - 1] == Batch(to, k - 1);
      CountBatch(to, k - 1);
    }
  }

  /** Number of tokens held by `a` whose id is in `mintableIds`
      (the collection's `mintableCountOfOwner`). */
  function MintableCount(owners: seq<Address>, mintableIds: seq<nat>, a: Address): (n: nat)
    ensures n <= CountOf(owners, a)
  {
    if |owners| == 0 then 0
    else
      var last := |owners| - 1;
      MintableCount(owners[..last], mintableIds, a)
        + (if owners[last] == a && |owners| in mintableIds then 1 else 0)
  }

  /** One more mint changes only the minter's count, and only when the new id is listed. */
  lemma MintableCountAfterMint(owners: seq<Address>, mintableIds: seq<nat>, to: Address, a: Address)
    ensures MintableCount(owners + [to], mintableIds, a)
         == MintableCount(owners, mintableIds, a) + (if a == to && |owners| + 1 in mintableIds then 1 else 0)
  {
    assert (owners + [to])[..|owners|] == owners;
  }

  /** A batch of `k` is a batch of `k - 1` followed by one more token. */
  lemma BatchSnoc(owners: seq<Address>, to: Address, k: nat)
    requires k > 0
    ensures owners + Batch(to, k) == owners + Batch(to, k - 1) + [to]
  {
    assert Batch(to, k) == Batch(to, k - 1) + [to];
  }

  /** Minting to someone else never changes `a`'s mintable count. */
  lemma {:induction false} MintableCountOthersUnchanged(owners: seq<Address>, mintableIds: seq<nat>, to: Address, k: nat, a: Address)
    requires a != to
    ensures MintableCount(Issue(owners, to, k), mintableIds, a) == MintableCount(owners, mintableIds, a)
  {
    assert Issue(owners, to, k) == owners + Batch(to, k);
    MintableCountBatchOthers(owners, mintableIds, to, k, a);
  }

  lemma {:induction false} MintableCountBatchOthers(owners: seq<Address>, mintableIds: seq<nat>, to: Address, k: nat, a: Address)
    requires a != to
    ensures MintableCount(owners + Batch(to, k), mintableIds, a) == MintableCount(owners, mintableIds, a)
  {
    if k > 0 {
      var shorter := owners + Batch(to, k - 1);
      BatchSnoc(owners, to, k);
      MintableCountAfterMint(shorter, mintableIds, to, a);
      MintableCountBatchOthers(owners, mintableIds, to, k - 1, a);
    } else {
      assert owners + Batch(to, k) == owners;
    }
  }
}
