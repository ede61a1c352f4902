/**
 The weighted prize draw (open_lootbox_choice).  The random draw r is a
 parameter; chances are exact reals, so float rounding is not modelled.
 */
module Selector {
  import opened Values

  /** The "chance" field of an item entry. */
  datatype Chance = Weight(value: real) | Missing | NonNumeric

  /** One entry of a lootbox's "items" list: the "item" label (None when absent) and its chance. */
  datatype PrizeEntry = PrizeEntry(item: Option<string>, chance: Chance)

  /** What the entry adds to the running total: a missing or non-numeric chance adds 0. */
  function ChanceValue(c: Chance): (v: real)
    ensures !c.Weight? ==> v == 0.0
    ensures c.Weight? ==> v == c.value
  {
    match c
    case Weight(x) => x
    case Missing => 0.0
    case NonNumeric => 0.0
  }

  /** The running total after the first n entries. */
  function PrefixSum(items: seq<PrizeEntry>, n: nat): real
    requires n <= |items|
  {
    if n == 0 then 0.0 else PrefixSum(items, n - 1) + ChanceValue(items[n - 1].chance)
  }

  /** The running total once entry j has been added. */
  function RunningTotal(items: seq<PrizeEntry>, j: nat): real
    requires j < |items|
  {
    PrefixSum(items, j + 1)
  }

  /** The first index k >= i whose running total reaches r. */
  function FirstReachingFrom(items: seq<PrizeEntry>, r: real, i: nat): Option<nat>
    requires i <= |items|
    decreases |items| - i
  {
    if i == |items| then None
    else if r <= RunningTotal(items, i) then Some(i)
    else FirstReachingFrom(items, r, i + 1)
  }

  /** The smallest index whose running total is at least r, or None when no running total reaches r. */
  function FirstReaching(items: seq<PrizeEntry>, r: real): Option<nat> {
    FirstReachingFrom(items, r, 0)
  }

  /** The index of the drawn entry: the first that reaches r, else the last; None for an empty list. */
  function SelectIndex(items: seq<PrizeEntry>, r: real): (k: Option<nat>)
    ensures k.None? <==> |items| == 0
    ensures k.Some? ==> k.value < |items|
  {
    FirstReachingWithin(items, r, 0);
    if |items| == 0 then None
    else match FirstReaching(items, r)
      case Some(k) => Some(k)
      case None => Some(|items| - 1)
  }

  /** The label the draw returns. */
  function SelectPrize(items: seq<PrizeEntry>, r: real): Option<string> {
    match SelectIndex(items, r)
    case None => None
    case Some(k) => items[k].item
  }

  lemma {:induction false} FirstReachingWithin(items: seq<PrizeEntry>, r: real, i: nat)
    requires i <= |items|
    ensures FirstReachingFrom(items, r, i).Some? ==> i <= FirstReachingFrom(items, r, i).value < |items|
    decreases |items| - i
  {
    if i < |items| && RunningTotal(items, i) < r {
      FirstReachingWithin(items, r, i + 1);
    }
  }

  /**
   FirstReachingFrom(items, r, i) is Some(k) exactly when k is the least index
   from i on whose running total reaches r, and None exactly when no index from
   i on reaches r.
   */
  lemma {:induction false} FirstReachingFromSpec(items: seq<PrizeEntry>, r: real, i: nat)
    requires i <= |items|
    ensures match FirstReachingFrom(items, r, i)
      case Some(k) =>
        i <= k < |items| && r <= RunningTotal(items, k)
        && forall j :: i <= j < k ==> RunningTotal(items, j) < r
      case None =>
        forall j :: i <= j < |items| ==> RunningTotal(items, j) < r
    decreases |items| - i
  {
    if i < |items| && RunningTotal(items, i) < r {
      FirstReachingFromSpec(items, r, i + 1);
    }
  }

  /** The draw lands on the smallest index whose running total is at least r. */
  lemma FirstReachingIsLeast(items: seq<PrizeEntry>, r: real, k: nat)
    requires k < |items|
    ensures FirstReaching(items, r) == Some(k) <==>
      r <= RunningTotal(items, k) && forall j :: 0 <= j < k ==> RunningTotal(items, j) < r
  {
    FirstReachingFromSpec(items, r, 0);
  }

  /** No running total reaches r exactly when FirstReaching is None. */
  lemma FirstReachingNone(items: seq<PrizeEntry>, r: real)
    ensures FirstReaching(items, r).None? <==> forall j :: 0 <= j < |items| ==> RunningTotal(items, j) < r
  {
    FirstReachingFromSpec(items, r, 0);
  }

  /** The draw returns None only for an empty list; otherwise it returns the label of one of the entries. */
  lemma SelectPrizeFromList(items: seq<PrizeEntry>, r: real)
    ensures |items| == 0 ==> SelectPrize(items, r) == None
    ensures |items| > 0 ==> exists k :: 0 <= k < |items| && SelectPrize(items, r) == items[k].item
  {
    if |items| > 0 {
      var k := SelectIndex(items, r).value;
      assert SelectPrize(items, r) == items[k].item;
    }
  }

  /** When no running total reaches r, the draw falls back to the last entry. */
  lemma FallbackToLast(items: seq<PrizeEntry>, r: real)
    requires |items| > 0
    requires forall j :: 0 <= j < |items| ==> RunningTotal(items, j) < r
    ensures SelectPrize(items, r) == items[|items| - 1].item
  {
    FirstReachingNone(items, r);
  }

  predicate NonNegativeChances(items: seq<PrizeEntry>) {
    forall i :: 0 <= i < |items| ==> ChanceValue(items[i].chance) >= 0.0
  }

  lemma {:induction false} PrefixSumMonotone(items: seq<PrizeEntry>, j: nat, n: nat)
    requires NonNegativeChances(items)
    requires j <= n <= |items|
    ensures PrefixSum(items, j) <= PrefixSum(items, n)
    decreases n - j
  {
    if j < n {
      PrefixSumMonotone(items, j, n - 1);
    }
  }

  /** With non-negative chances, a total chance below r makes the draw fall back to the last entry. */
  lemma TotalBelowDrawsLast(items: seq<PrizeEntry>, r: real)
    requires |items| > 0 && NonNegativeChances(items)
    requires PrefixSum(items, |items|) < r
    ensures SelectPrize(items, r) == items[|items| - 1].item
  {
    forall j | 0 <= j < |items| ensures RunningTotal(items, j) < r {
      PrefixSumMonotone(items, j + 1, |items|);
    }
    FallbackToLast(items, r);
  }

  /** Replacing a missing or non-numeric chance by an explicit 0 changes none of the running totals. */
  lemma {:induction false} UnweightedLikeZeroSums(items: seq<PrizeEntry>, i: nat, n: nat)
    requires i < |items| && !items[i].chance.Weight?
    requires n <= |items|
    ensures PrefixSum(items[i := items[i].(chance := Weight(0.0))], n) == PrefixSum(items, n)
  {
    if n > 0 {
      UnweightedLikeZeroSums(items, i, n - 1);
    }
  }

  lemma {:induction false} UnweightedLikeZeroFrom(items: seq<PrizeEntry>, r: real, i: nat, k: nat)
    requires i < |items| && !items[i].chance.Weight?
    requires k <= |items|
    ensures FirstReachingFrom(items[i := items[i].(chance := Weight(0.0))], r, k) == FirstReachingFrom(items, r, k)
    decreases |items| - k
  {
    if k < |items| {
      UnweightedLikeZeroSums(items, i, k + 1);
      UnweightedLikeZeroFrom(items, r, i, k + 1);
    }
  }

  /** An entry whose chance is missing or non-numeric draws exactly as if its chance were 0. */
  lemma UnweightedLikeZero(items: seq<PrizeEntry>, r: real, i: nat)
    requires i < |items| && !items[i].chance.Weight?
    ensures SelectPrize(items[i := items[i].(chance := Weight(0.0))], r) == SelectPrize(items, r)
  {
    UnweightedLikeZeroFrom(items, r, i, 0);
  }

  /**
   open_lootbox_choice: walk the entries adding up their chances and return
   the label of the first entry whose running total reaches r, else the last
   entry's label, else None.
   */
  method OpenLootboxChoice(items: seq<PrizeEntry>, r: real) returns (prize: Option<string>)
    requires 0.0 <= r < 1.0
    ensures prize == SelectPrize(items, r)
  {
    var cumulative := 0.0;
    var i := 0;
    while i < |items|
      invariant 0 <= i <= |items|
      invariant cumulative == PrefixSum(items, i)
      invariant forall j :: 0 <= j < i ==> RunningTotal(items, j) < r
    {
      cumulative := cumulative + ChanceValue(items[i].chance);
      if r <= cumulative {
        FirstReachingIsLeast(items, r, i);
        return items[i].item;
      }
      i := i + 1;
    }
    if |items| > 0 {
      FallbackToLast(items, r);
      return items[|items| - 1].item;
    }
    return None;
  }

  /** The chances 0.6, 0.3, 0.1 with r = 0.5 award the first item; with r = 0.95 the last. */
  lemma ExampleThreeItems()
    ensures var items := [PrizeEntry(Some("A"), Weight(0.6)), PrizeEntry(Some("B"), Weight(0.3)), PrizeEntry(Some("C"), Weight(0.1))];
      SelectPrize(items, 0.5) == Some("A") && SelectPrize(items, 0.95) == Some("C")
  {
    var items := [PrizeEntry(Some("A"), Weight(0.6)), PrizeEntry(Some("B"), Weight(0.3)), PrizeEntry(Some("C"), Weight(0.1))];
    FirstReachingIsLeast(items, 0.5, 0);
    FirstReachingIsLeast(items, 0.95, 2);
  }

  /** Chances that sum below r fall back to the last item: A 0.1, B 0.1 with r = 0.99 award B. */
  lemma ExampleDeficient()
    ensures SelectPrize([PrizeEntry(Some("A"), Weight(0.1)), PrizeEntry(Some("B"), Weight(0.1))], 0.99) == Some("B")
  {
    FirstReachingNone([PrizeEntry(Some("A"), Weight(0.1)), PrizeEntry(Some("B"), Weight(0.1))], 0.99);
  }
}
