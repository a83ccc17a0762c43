/** `replaceAsks` (src/components/Coinbase.js:18-33): one price-level update
    applied to the ask list. An existing level at the price has its amount
    overwritten where it stands; an absent price is prepended and the whole
    list re-sorted ascending. Zero amounts are written like any other. */
module Asks {
  import opened Levels
  import opened Sorting

  /** The `asks.map(...)` pass: every level at `price` becomes
      `Level(price, amount)`, every other level is kept where it is. */
  function Overwrite(asks: seq<Level>, price: real, amount: real): (r: seq<Level>)
    ensures |r| == |asks|
    ensures forall i :: 0 <= i < |asks| && asks[i].price == price ==> r[i] == Level(price, amount)
    ensures forall i :: 0 <= i < |asks| && asks[i].price != price ==> r[i] == asks[i]
  {
    if asks == [] then
      []
    else
      var head := if asks[0].price == price then Level(price, amount) else asks[0];
      [head] + Overwrite(asks[1..], price, amount)
  }

  /** The ask list after the update `(price, newAmount)`: an existing
      price keeps the length, an absent one adds a level. */
  function ReplaceAsks(asks: seq<Level>, price: real, newAmount: real): (r: seq<Level>)
    ensures |r| == if price in Prices(asks) then |asks| else |asks| + 1
  {
    if price in Prices(asks) then
      Overwrite(asks, price, newAmount)
    else
      SortByPrice([Level(price, newAmount)] + asks)
  }

  /** What an update does, stated on membership: the prices gain the
      updated one, the level `[price, newAmount]` is present, every level at
      that price carries `newAmount`, and a level at any other price is
      present exactly when it was before. */
  lemma ReplaceAsksFacts(asks: seq<Level>, price: real, newAmount: real)
    ensures Prices(ReplaceAsks(asks, price, newAmount)) == Prices(asks) + {price}
    ensures Level(price, newAmount) in ReplaceAsks(asks, price, newAmount)
    ensures forall l :: l in ReplaceAsks(asks, price, newAmount) && l.price == price ==> l.amount == newAmount
    ensures forall l: Level :: l.price != price ==> (l in ReplaceAsks(asks, price, newAmount) <==> l in asks)
  {
    if price in Prices(asks) {
      OverwriteFacts(asks, price, newAmount);
    } else {
      var added := Level(price, newAmount);
      var sorted := SortByPrice([added] + asks);
      PricesOfPermutation(sorted, [added] + asks);
      PricesAppend([added], asks);
      assert Prices([added]) == {price};
      assert added in multiset(sorted);
      assert forall l :: l in sorted <==> l in multiset([added] + asks);
    }
  }

  /** What the overwrite pass keeps and changes, stated on membership. */
  lemma OverwriteFacts(asks: seq<Level>, price: real, amount: real)
    requires price in Prices(asks)
    ensures Prices(Overwrite(asks, price, amount)) == Prices(asks)
    ensures Level(price, amount) in Overwrite(asks, price, amount)
    ensures forall l :: l in Overwrite(asks, price, amount) && l.price == price ==> l.amount == amount
    ensures forall l: Level :: l.price != price ==> (l in Overwrite(asks, price, amount) <==> l in asks)
  {
  }

  /** An existing price: same length, every level at that price now holds
      the new amount, every other level is unchanged at its index. */
  lemma ReplaceExisting(asks: seq<Level>, price: real, newAmount: real)
    requires price in Prices(asks)
    ensures |ReplaceAsks(asks, price, newAmount)| == |asks|
    ensures forall i :: 0 <= i < |asks| && asks[i].price == price ==>
      ReplaceAsks(asks, price, newAmount)[i] == Level(price, newAmount)
    ensures forall i :: 0 <= i < |asks| && asks[i].price != price ==>
      ReplaceAsks(asks, price, newAmount)[i] == asks[i]
  {
  }

  /** An absent price: the list gains exactly the one new level, and its
      prices gain exactly the new price. */
  lemma ReplaceAbsent(asks: seq<Level>, price: real, newAmount: real)
    requires price !in Prices(asks)
    ensures multiset(ReplaceAsks(asks, price, newAmount)) == multiset(asks) + multiset{Level(price, newAmount)}
    ensures |ReplaceAsks(asks, price, newAmount)| == |asks| + 1
  {
  }

  /** An absent price inserted into a list with distinct prices gives a
      strictly ascending list, whatever the order of the input. */
  lemma ReplaceAbsentSorted(asks: seq<Level>, price: real, newAmount: real)
    requires price !in Prices(asks)
    requires DistinctPrices(asks)
    ensures StrictlyAscending(ReplaceAsks(asks, price, newAmount))
    ensures DistinctPrices(ReplaceAsks(asks, price, newAmount))
  {
    var s := [Level(price, newAmount)] + asks;
    forall i, j | 0 <= i < j < |s|
      ensures s[i].price != s[j].price
    {
      if i == 0 {
        assert s[j] == asks[j - 1];
        assert asks[j - 1] in asks;
      } else {
        assert s[i] == asks[i - 1] && s[j] == asks[j - 1];
      }
    }
    SortStrictlyAscending(s);
    StrictlyAscendingIsDistinct(ReplaceAsks(asks, price, newAmount));
  }

  /** A zero amount is written like any other: an existing level is set to
      0 and kept, an absent price arrives as a new level of amount 0. */
  lemma ZeroAmountsKept(asks: seq<Level>, price: real)
    ensures Level(price, 0.0) in ReplaceAsks(asks, price, 0.0)
    ensures |ReplaceAsks(asks, price, 0.0)| >= |asks|
  {
    ReplaceAsksFacts(asks, price, 0.0);
  }

  /** Applying the same update twice is the same as applying it once. */
  lemma ReplaceIdempotent(asks: seq<Level>, price: real, newAmount: real)
    ensures ReplaceAsks(ReplaceAsks(asks, price, newAmount), price, newAmount)
      == ReplaceAsks(asks, price, newAmount)
  {
    ReplaceAsksFacts(asks, price, newAmount);
    var once := ReplaceAsks(asks, price, newAmount);
    var twice := ReplaceAsks(once, price, newAmount);
    forall i | 0 <= i < |once|
      ensures twice[i] == once[i]
    {
      assert once[i] in once;
    }
  }

  /** A strictly ascending ledger stays strictly ascending under any update. */
  lemma {:induction false} ReplaceKeepsAscending(asks: seq<Level>, price: real, newAmount: real)
    requires StrictlyAscending(asks)
    ensures StrictlyAscending(ReplaceAsks(asks, price, newAmount))
  {
    StrictlyAscendingIsDistinct(asks);
    if price !in Prices(asks) {
      ReplaceAbsentSorted(asks, price, newAmount);
    } else {
      var r := ReplaceAsks(asks, price, newAmount);
      assert forall i :: 0 <= i < |asks| ==> r[i].price == asks[i].price;
    }
  }

  /** Distinct prices stay distinct under any update. */
  lemma {:induction false} ReplaceKeepsDistinct(asks: seq<Level>, price: real, newAmount: real)
    requires DistinctPrices(asks)
    ensures DistinctPrices(ReplaceAsks(asks, price, newAmount))
  {
    if price !in Prices(asks) {
      ReplaceAbsentSorted(asks, price, newAmount);
    } else {
      var r := ReplaceAsks(asks, price, newAmount);
      assert forall i :: 0 <= i < |asks| ==> r[i].price == asks[i].price;
    }
  }
}
