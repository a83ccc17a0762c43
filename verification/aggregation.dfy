/** `sumUpToPriceLimit` (src/components/Coinbase.js:35-45): the notional
    value, price times amount, of the ask levels priced strictly below a
    limit. The specification is written as "keep the levels below the
    limit, then add up their notional values"; the method walks the list
    once as the source's `forEach` does. */
module Aggregation {
  import opened Levels
  import opened Sorting
  import opened Asks

  /** The levels priced strictly below `limit`, in their original order. */
  function Below(orders: seq<Level>, limit: real): (r: seq<Level>)
    ensures |r| <= |orders|
    ensures forall l :: l in r <==> l in orders && l.price < limit
  {
    if orders == [] then
      []
    else
      (if orders[0].price < limit then [orders[0]] else []) + Below(orders[1..], limit)
  }

  /** The sum of `price * amount` over all levels. */
  function Notional(orders: seq<Level>): real
  {
    if orders == [] then 0.0 else orders[0].price * orders[0].amount + Notional(orders[1..])
  }

  /** The volume the source displays: notional value below the limit. */
  function VolumeBelow(orders: seq<Level>, limit: real): real
  {
    Notional(Below(orders, limit))
  }

  /** What one level adds to the volume below `limit`. */
  function Contribution(l: Level, limit: real): real
  {
    if l.price < limit then l.price * l.amount else 0.0
  }

  lemma {:induction false} BelowAppend(a: seq<Level>, b: seq<Level>, limit: real)
    ensures Below(a + b, limit) == Below(a, limit) + Below(b, limit)
  {
    if a != [] {
      assert (a + b)[1..] == a[1..] + b;
      assert (a + b)[0] == a[0];
      BelowAppend(a[1..], b, limit);
    } else {
      assert a + b == b;
    }
  }

  lemma {:induction false} NotionalAppend(a: seq<Level>, b: seq<Level>)
    ensures Notional(a + b) == Notional(a) + Notional(b)
  {
    if a != [] {
      assert (a + b)[1..] == a[1..] + b;
      assert (a + b)[0] == a[0];
      NotionalAppend(a[1..], b);
    } else {
      assert a + b == b;
    }
  }

  /** The volume of a level followed by a list. */
  lemma VolumeCons(x: Level, s: seq<Level>, limit: real)
    ensures VolumeBelow([x] + s, limit) == Contribution(x, limit) + VolumeBelow(s, limit)
  {
    assert ([x] + s)[1..] == s;
    assert ([x] + s)[0] == x;
    var rest := Below(s, limit);
    if x.price < limit {
      assert Below([x] + s, limit) == [x] + rest;
      assert ([x] + rest)[1..] == rest;
    } else {
      assert Below([x] + s, limit) == [] + rest;
      assert [] + rest == rest;
    }
  }

  /** The volume of a list followed by one more level. */
  lemma VolumeSnoc(s: seq<Level>, x: Level, limit: real)
    ensures VolumeBelow(s + [x], limit) == VolumeBelow(s, limit) + Contribution(x, limit)
  {
    BelowAppend(s, [x], limit);
    NotionalAppend(Below(s, limit), Below([x], limit));
    VolumeCons(x, [], limit);
    assert [x] + [] == [x];
  }

  /** No level of `orders` is below `limit`, so none is kept. */
  lemma {:induction false} BelowNone(orders: seq<Level>, limit: real)
    requires forall l :: l in orders ==> l.price >= limit
    ensures Below(orders, limit) == []
  {
    if orders != [] {
      assert orders[0] in orders;
      assert forall l :: l in orders[1..] ==> l in orders;
      BelowNone(orders[1..], limit);
    }
  }

  /** The loop of the source: one pass, adding `price * amount` for every
      level priced below the limit. */
  method SumUpToPriceLimit(orders: seq<Level>, priceLimit: real) returns (volume: real)
    ensures volume == VolumeBelow(orders, priceLimit)
  {
    volume := 0.0;
    var i := 0;
    while i < |orders|
      invariant 0 <= i <= |orders|
      invariant volume == VolumeBelow(orders[..i], priceLimit)
    {
      var price := orders[i].price;
      var amount := orders[i].amount;
      if price < priceLimit {
        volume := volume + price * amount;
      }
      assert orders[..i + 1] == orders[..i] + [orders[i]];
      VolumeSnoc(orders[..i], orders[i], priceLimit);
      i := i + 1;
    }
    assert orders[..i] == orders;
  }

  /** Levels at or above the limit contribute nothing: appending them
      leaves the volume as it was, and an empty list has volume 0. */
  lemma VolumeIgnoresLevelsAtOrAboveLimit(orders: seq<Level>, extra: seq<Level>, limit: real)
    requires forall l :: l in extra ==> l.price >= limit
    ensures VolumeBelow(orders + extra, limit) == VolumeBelow(orders, limit)
    ensures VolumeBelow(extra, limit) == 0.0
  {
    BelowAppend(orders, extra, limit);
    BelowNone(extra, limit);
    assert Below(orders, limit) + [] == Below(orders, limit);
  }

  /** The volume of a list does not depend on where `Insert` puts a level. */
  lemma {:induction false} VolumeOfInsert(x: Level, s: seq<Level>, limit: real)
    ensures VolumeBelow(Insert(x, s), limit) == Contribution(x, limit) + VolumeBelow(s, limit)
  {
    if s == [] || x.price <= s[0].price {
      VolumeCons(x, s, limit);
    } else {
      VolumeOfInsert(x, s[1..], limit);
      VolumeCons(s[0], Insert(x, s[1..]), limit);
      VolumeCons(s[0], s[1..], limit);
      assert s == [s[0]] + s[1..];
    }
  }

  /** Sorting does not change the volume. */
  lemma {:induction false} VolumeOfSort(s: seq<Level>, limit: real)
    ensures VolumeBelow(SortByPrice(s), limit) == VolumeBelow(s, limit)
  {
    if s != [] {
      VolumeOfSort(s[1..], limit);
      VolumeOfInsert(s[0], SortByPrice(s[1..]), limit);
      VolumeCons(s[0], s[1..], limit);
      assert s == [s[0]] + s[1..];
    }
  }

  /** Inserting an absent price adds exactly its own contribution. */
  lemma VolumeAfterInsert(asks: seq<Level>, price: real, newAmount: real, limit: real)
    requires price !in Prices(asks)
    ensures VolumeBelow(ReplaceAsks(asks, price, newAmount), limit)
      == VolumeBelow(asks, limit) + Contribution(Level(price, newAmount), limit)
  {
    VolumeOfSort([Level(price, newAmount)] + asks, limit);
    VolumeCons(Level(price, newAmount), asks, limit);
  }

  /** Overwriting the level at index `k` of a list with distinct prices
      swaps its contribution for the new one. */
  lemma {:induction false} VolumeOfOverwrite(asks: seq<Level>, k: nat, newAmount: real, limit: real)
    requires DistinctPrices(asks)
    requires k < |asks|
    ensures VolumeBelow(Overwrite(asks, asks[k].price, newAmount), limit)
      == VolumeBelow(asks, limit) - Contribution(asks[k], limit)
         + Contribution(Level(asks[k].price, newAmount), limit)
  {
    var price := asks[k].price;
    var r := Overwrite(asks, price, newAmount);
    assert asks == [asks[0]] + asks[1..];
    assert r == [r[0]] + r[1..];
    VolumeCons(asks[0], asks[1..], limit);
    VolumeCons(r[0], r[1..], limit);
    assert r[1..] == Overwrite(asks[1..], price, newAmount);
    if k == 0 {
      assert Overwrite(asks[1..], price, newAmount) == asks[1..] by {
        forall i | 0 <= i < |asks[1..]|
          ensures asks[1..][i].price != price
        {
          assert asks[1..][i] == asks[i + 1];
        }
      }
    } else {
      assert DistinctPrices(asks[1..]) by {
        forall i, j | 0 <= i < j < |asks[1..]|
          ensures asks[1..][i].price != asks[1..][j].price
        {
          assert asks[1..][i] == asks[i + 1] && asks[1..][j] == asks[j + 1];
        }
      }
      assert asks[1..][k - 1] == asks[k];
      VolumeOfOverwrite(asks[1..], k - 1, newAmount, limit);
    }
  }

  /** Overwriting an existing price of a list with distinct prices changes
      the volume by the difference of the two contributions. */
  lemma VolumeAfterOverwrite(asks: seq<Level>, k: nat, newAmount: real, limit: real)
    requires DistinctPrices(asks)
    requires k < |asks|
    ensures VolumeBelow(ReplaceAsks(asks, asks[k].price, newAmount), limit)
      == VolumeBelow(asks, limit) - Contribution(asks[k], limit)
         + Contribution(Level(asks[k].price, newAmount), limit)
  {
    assert asks[k] in asks;
    VolumeOfOverwrite(asks, k, newAmount, limit);
  }
}
