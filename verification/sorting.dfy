/** The ascending sort by price that `replaceAsks` runs after prepending a
    new level. The source sorts with the comparator `a[0] > b[0] ? 1 : -1`;
    on lists whose prices are distinct that comparator is a strict total
    order, so every correct sort yields the same list. The model uses an
    insertion sort. */
module Sorting {
  import opened Levels

  /** Inserts `x` in front of the first level whose price is not below it. */
  function Insert(x: Level, s: seq<Level>): (r: seq<Level>)
    ensures |r| == |s| + 1
    ensures multiset(r) == multiset(s) + multiset{x}
  {
    if s == [] || x.price <= s[0].price then
      [x] + s
    else
      assert s == [s[0]] + s[1..];
      [s[0]] + Insert(x, s[1..])
  }

  /** Every level of `Insert(x, s)` is `x` or a level of `s`. */
  lemma InsertMembers(x: Level, s: seq<Level>, l: Level)
    requires l in Insert(x, s)
    ensures l == x || l in s
  {
  }

  /** Inserting into an ascending list keeps it ascending. */
  lemma {:induction false} InsertAscending(x: Level, s: seq<Level>)
    requires Ascending(s)
    ensures Ascending(Insert(x, s))
  {
    if s != [] && x.price > s[0].price {
      var rest := Insert(x, s[1..]);
      InsertAscending(x, s[1..]);
      var r := [s[0]] + rest;
      forall i, j | 0 <= i < j < |r|
        ensures r[i].price <= r[j].price
      {
        if i == 0 {
          assert r[j] == rest[j - 1];
          InsertMembers(x, s[1..], rest[j - 1]);
          if rest[j - 1] != x {
            var k :| 0 <= k < |s[1..]| && s[1..][k] == rest[j - 1];
            assert s[k + 1] == s[1..][k];
          }
        } else {
          assert r[i] == rest[i - 1] && r[j] == rest[j - 1];
        }
      }
    }
  }

  /** The list sorted ascending by price. */
  function SortByPrice(s: seq<Level>): (r: seq<Level>)
    ensures |r| == |s|
    ensures multiset(r) == multiset(s)
    ensures Ascending(r)
  {
    if s == [] then
      []
    else
      assert s == [s[0]] + s[1..];
      var tail := SortByPrice(s[1..]);
      InsertAscending(s[0], tail);
      Insert(s[0], tail)
  }

  /** Inserting a price that is not yet present into a strictly ascending
      list keeps it strictly ascending. */
  lemma {:induction false} InsertStrictlyAscending(x: Level, s: seq<Level>)
    requires StrictlyAscending(s)
    requires x.price !in Prices(s)
    ensures StrictlyAscending(Insert(x, s))
  {
    if s == [] || x.price <= s[0].price {
      if s != [] {
        assert s[0] in s;
      }
    } else {
      var rest := Insert(x, s[1..]);
      assert Prices(s[1..]) <= Prices(s) by {
        forall p | p in Prices(s[1..])
          ensures p in Prices(s)
        {
          var l :| l in s[1..] && l.price == p;
          assert l in s;
        }
      }
      InsertStrictlyAscending(x, s[1..]);
      forall l | l in rest
        ensures s[0].price < l.price
      {
        InsertMembers(x, s[1..], l);
        if l != x {
          assert l in s[1..];
          var k :| 0 <= k < |s[1..]| && s[1..][k] == l;
          assert s[k + 1] == l;
        }
      }
      var r := [s[0]] + rest;
      forall i, j | 0 <= i < j < |r|
        ensures r[i].price < r[j].price
      {
        if i == 0 {
          assert r[j] in rest;
        } else {
          assert r[i] == rest[i - 1] && r[j] == rest[j - 1];
        }
      }
    }
  }

  /** Sorting a list whose prices are distinct gives a strictly ascending
      list. */
  lemma {:induction false} SortStrictlyAscending(s: seq<Level>)
    requires DistinctPrices(s)
    ensures StrictlyAscending(SortByPrice(s))
  {
    if s != [] {
      var tail := SortByPrice(s[1..]);
      assert DistinctPrices(s[1..]) by {
        forall i, j | 0 <= i < j < |s[1..]|
          ensures s[1..][i].price != s[1..][j].price
        {
          assert s[1..][i] == s[i + 1] && s[1..][j] == s[j + 1];
        }
      }
      SortStrictlyAscending(s[1..]);
      PricesOfPermutation(tail, s[1..]);
      forall l | l in s[1..]
        ensures l.price != s[0].price
      {
        var k :| 0 <= k < |s[1..]| && s[1..][k] == l;
        assert s[k + 1] == l;
      }
      InsertStrictlyAscending(s[0], tail);
    }
  }
}
