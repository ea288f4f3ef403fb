/** The random helpers used to pick attribute values, with the random draw
    made an argument.

    JavaScript's `Math.random()` yields a real `u` in [0, 1). `randomInt` and
    `pickRandomly` only ever use `floor(u * span)`, which is the integer `draw`
    here. `pickByRarity` compares `u * total` with integer running sums, and for
    an integer sum `acc`, `x < acc` holds exactly when `floor(x) < acc`; so with
    integer rarities, the integer `draw` = `floor(u * total)` decides the same pick. */
module Random {
  import opened Wrappers

  /** `randomInt(min, max)` for the draw `floor(u * (max - min + 1))`. */
  function RandomInt(min: int, max: int, draw: int): (r: int)
    ensures 0 <= draw < max - min + 1 ==> min <= r <= max
  {
    draw + min
  }

  /** Each value of [min, max] comes from exactly one draw in [0, max - min + 1),
      so a uniform draw gives a uniform value. */
  lemma RandomIntIsOneToOne(min: int, max: int, v: int)
    requires min <= v <= max
    ensures 0 <= v - min < max - min + 1 && RandomInt(min, max, v - min) == v
    ensures forall d :: RandomInt(min, max, d) == v ==> d == v - min
  {
  }

  /** `pickRandomly(items)` for the draw `floor(u * |items|)`; an index outside the
      list reads as JavaScript's `undefined`, here None. */
  function PickRandomly<T>(items: seq<T>, draw: int): (r: Option<T>)
    ensures r.Some? <==> 0 <= draw < |items|
    ensures r.Some? ==> r.value in items
  {
    if 0 <= draw < |items| then Some(items[draw]) else None
  }

  /** Every position of the list is reached by its own draw. */
  lemma PickRandomlyReachesEveryPosition<T>(items: seq<T>, i: nat)
    requires i < |items|
    ensures PickRandomly(items, i) == Some(items[i])
  {
  }

  /** An attribute value and its integer rarity weight. */
  datatype Rated<T> = Rated(value: T, rarity: int)

  /** The loop's accumulator after its first `n` rounds: the sum of the first `n` rarities. */
  function RunningSum<T>(items: seq<Rated<T>>, n: nat): int
    requires n <= |items|
  {
    if n == 0 then 0 else RunningSum(items, n - 1) + items[n - 1].rarity
  }

  /** `totalRarity`, the reduce over all rarities. */
  function TotalRarity<T>(items: seq<Rated<T>>): int
  {
    RunningSum(items, |items|)
  }

  /** Position `i` is the first whose running sum passes the draw. */
  ghost predicate FirstAbove<T>(items: seq<Rated<T>>, draw: int, i: nat)
  {
    && i < |items|
    && draw < RunningSum(items, i + 1)
    && forall j :: 1 <= j <= i ==> RunningSum(items, j) <= draw
  }

  /** No running sum passes the draw. */
  ghost predicate NoneAbove<T>(items: seq<Rated<T>>, draw: int)
  {
    forall j :: 1 <= j <= |items| ==> RunningSum(items, j) <= draw
  }

  ghost predicate NonNegative<T>(items: seq<Rated<T>>)
  {
    forall i :: 0 <= i < |items| ==> items[i].rarity >= 0
  }

  /** The `for` loop of `pickByRarity` from position `i` with accumulator `acc`;
      None when the loop runs off the end (the `throw`). */
  function PickFrom<T>(items: seq<Rated<T>>, draw: int, i: nat, acc: int): (r: Option<nat>)
    requires i <= |items| && acc == RunningSum(items, i)
    requires forall j :: 1 <= j <= i ==> RunningSum(items, j) <= draw
    ensures r.Some? ==> FirstAbove(items, draw, r.value)
    ensures r.None? ==> NoneAbove(items, draw)
    decreases |items| - i
  {
    if i == |items| then None
    else if draw < acc + items[i].rarity then Some(i)
    else PickFrom(items, draw, i + 1, acc + items[i].rarity)
  }

  /** The position `pickByRarity` returns, or None where it throws. */
  function PickIndex<T>(items: seq<Rated<T>>, draw: int): (r: Option<nat>)
    ensures r.Some? ==> FirstAbove(items, draw, r.value)
    ensures r.None? ==> NoneAbove(items, draw)
  {
    PickFrom(items, draw, 0, 0)
  }

  /** `pickByRarity(items)` for the draw `floor(u * totalRarity)`; None is the `throw`. */
  function PickByRarity<T>(items: seq<Rated<T>>, draw: int): (r: Option<Rated<T>>)
    ensures r.Some? ==> r.value in items
    ensures r.Some? <==> PickIndex(items, draw).Some?
    ensures r.Some? ==> r.value == items[PickIndex(items, draw).value]
    ensures forall i: nat :: FirstAbove(items, draw, i) ==> r == Some(items[i])
    ensures r.None? ==> NoneAbove(items, draw)
  {
    match PickIndex(items, draw)
    case Some(i) => Some(items[i])
    case None => None
  }

  // ---- properties ----

  /** The `throw` is unreachable: a draw in [0, totalRarity) always picks an item. */
  lemma PickByRarityNeverThrows<T>(items: seq<Rated<T>>, draw: int)
    requires 0 <= draw < TotalRarity(items)
    ensures PickByRarity(items, draw).Some?
  {
  }

  lemma {:induction false} RunningSumMonotone<T>(items: seq<Rated<T>>, a: nat, b: nat)
    requires NonNegative(items) && a <= b <= |items|
    ensures RunningSum(items, a) <= RunningSum(items, b)
    decreases b - a
  {
    if a < b {
      RunningSumMonotone(items, a, b - 1);
    }
  }

  /** The throw is reached when the list carries no weight at all (an empty list,
      or only zero rarities): then the draw can only be 0, and no running sum passes it. */
  lemma WeightlessListThrows<T>(items: seq<Rated<T>>)
    requires NonNegative(items) && TotalRarity(items) == 0
    ensures PickByRarity(items, 0) == None
  {
    forall j | 1 <= j <= |items| ensures RunningSum(items, j) <= 0 {
      RunningSumMonotone(items, j, |items|);
    }
  }

  /** A picked item always has positive rarity, so an item of rarity 0 is never
      picked: its running sum equals the previous one, which the draw already reached. */
  lemma PickedItemHasWeight<T>(items: seq<Rated<T>>, draw: int)
    requires draw >= 0 && PickIndex(items, draw).Some?
    ensures items[PickIndex(items, draw).value].rarity > 0
    ensures PickByRarity(items, draw).value.rarity > 0
  {
    var i := PickIndex(items, draw).value;
    assert draw < RunningSum(items, i + 1) == RunningSum(items, i) + items[i].rarity;
    if i > 0 {
      assert RunningSum(items, i) <= draw;
    }
  }

  /** The pick is the unique first position whose running sum passes the draw. */
  lemma FirstAboveIsPicked<T>(items: seq<Rated<T>>, d: int, i: nat)
    requires FirstAbove(items, d, i)
    ensures PickIndex(items, d) == Some(i)
  {
  }

  /** With non-negative rarities, draw `d` picks position `i` exactly when `d` lies
      in [RunningSum(i), RunningSum(i + 1)), the slice of width `rarity` that
      item `i` owns. */
  lemma PickIndexIsSlice<T>(items: seq<Rated<T>>, d: int, i: nat)
    requires NonNegative(items) && d >= 0 && i < |items|
    ensures PickIndex(items, d) == Some(i) <==> RunningSum(items, i) <= d < RunningSum(items, i + 1)
  {
    if RunningSum(items, i) <= d < RunningSum(items, i + 1) {
      forall j | 1 <= j <= i ensures RunningSum(items, j) <= d {
        RunningSumMonotone(items, j, i);
      }
      FirstAboveIsPicked(items, d, i);
    }
    assert PickIndex(items, d) == Some(i) && i > 0 ==> RunningSum(items, i) <= d;
  }

  /** The integers lo, lo + 1, ..., hi - 1. */
  function Range(lo: int, hi: int): (r: set<int>)
    ensures forall d :: d in r <==> lo <= d < hi
    ensures lo <= hi ==> |r| == hi - lo
    decreases hi - lo
  {
    if lo >= hi then {} else Range(lo, hi - 1) + {hi - 1}
  }

  /** Fairness: among the draws 0, 1, ..., totalRarity - 1, exactly `rarity` of
      them pick a given position. */
  lemma DrawsPerItemEqualRarity<T>(items: seq<Rated<T>>, i: nat)
    requires NonNegative(items) && i < |items|
    ensures |set d | 0 <= d < TotalRarity(items) && PickIndex(items, d) == Some(i)| == items[i].rarity
  {
    var lo, hi := RunningSum(items, i), RunningSum(items, i + 1);
    RunningSumMonotone(items, 0, i);
    RunningSumMonotone(items, i + 1, |items|);
    var picks := set d | 0 <= d < TotalRarity(items) && PickIndex(items, d) == Some(i);
    forall d | 0 <= d < TotalRarity(items) ensures PickIndex(items, d) == Some(i) <==> lo <= d < hi {
      PickIndexIsSlice(items, d, i);
    }
    assert picks == Range(lo, hi);
  }
}
