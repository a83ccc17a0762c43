/** Price levels of the ask side of an order book, and the ordering
    predicates the rest of the model states its properties with. */
module Levels {

  /** One `[price, amount]` row of the ask side, as the feed sends it once
      both fields have been parsed. Prices are keys compared by exact
      equality. */
  datatype Level = Level(price: real, amount: real)

  /** The set of prices present in a list of levels. */
  function Prices(levels: seq<Level>): set<real>
  {
    set l | l in levels :: l.price
  }

  /** No two levels share a price. */
  predicate DistinctPrices(levels: seq<Level>)
  {
    forall i, j :: 0 <= i < j < |levels| ==> levels[i].price != levels[j].price
  }

  /** Non-decreasing by price. */
  predicate Ascending(levels: seq<Level>)
  {
    forall i, j :: 0 <= i < j < |levels| ==> levels[i].price <= levels[j].price
  }

  /** Strictly increasing by price: the shape of a well-formed ask ledger. */
  predicate StrictlyAscending(levels: seq<Level>)
  {
    forall i, j :: 0 <= i < j < |levels| ==> levels[i].price < levels[j].price
  }

  /** A strictly ascending ledger has one level per price. */
  lemma StrictlyAscendingIsDistinct(levels: seq<Level>)
    requires StrictlyAscending(levels)
    ensures DistinctPrices(levels)
    ensures Ascending(levels)
  {
  }

  /** Two lists with the same elements, counted with multiplicity, carry
      the same set of prices. */
  lemma PricesOfPermutation(a: seq<Level>, b: seq<Level>)
    requires multiset(a) == multiset(b)
    ensures Prices(a) == Prices(b)
  {
    forall p | p in Prices(a)
      ensures p in Prices(b)
    {
      var l :| l in a && l.price == p;
      assert l in multiset(a);
    }
    forall p | p in Prices(b)
      ensures p in Prices(a)
    {
      var l :| l in b && l.price == p;
      assert l in multiset(b);
    }
  }

  /** Prices of a concatenation. */
  lemma PricesAppend(a: seq<Level>, b: seq<Level>)
    ensures Prices(a + b) == Prices(a) + Prices(b)
  {
  }
}
