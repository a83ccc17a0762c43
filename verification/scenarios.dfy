/** Concrete message sequences, worked through the model. They pin down
    what the component does where a reader might expect an order book to
    behave otherwise: zero amounts stay in the list, an absent price with
    amount 0 is inserted, snapshots are not sorted, and the volume is a
    notional value rather than a sum of sizes. `OneChange`, `InsertSell`,
    `ReplaceSortsSnapshot`, `InsertTakesSortPath` and `SortThree` are proof
    steps of `ZeroedLevelStays` and `SnapshotKeptUnsortedUntilInsert`, with
    no source code of their own. */
module Scenarios {
  import opened Levels
  import opened Sorting
  import opened Asks
  import opened Aggregation
  import opened Coinbase

  /** A snapshot followed by an update that sets an existing level to 0:
      the level stays, with amount 0, and no longer adds to the volume. */
  lemma ZeroedLevelStays()
    ensures
      var loaded := HandleData(Initial, Snapshot([Level(0.5, 5.0), Level(1.2, 3.0)], []));
      var updated := HandleData(loaded, L2Update([Change("sell", 0.5, 0.0)]));
      && loaded.volumeUpToLimit == Some(2.5)
      && updated.asks == Some([Level(0.5, 0.0), Level(1.2, 3.0)])
      && updated.volumeUpToLimit == Some(0.0)
  {
    var asks := [Level(0.5, 5.0), Level(1.2, 3.0)];
    var zeroed := [Level(0.5, 0.0), Level(1.2, 3.0)];
    var c := Change("sell", 0.5, 0.0);
    assert Level(0.5, 5.0) in asks;
    ReplaceExisting(asks, 0.5, 0.0);
    assert ReplaceAsks(asks, 0.5, 0.0) == zeroed;
    OneChange(asks, c);
    VolumeCons(Level(1.2, 3.0), [], PriceLimit);
    VolumeCons(Level(0.5, 5.0), [Level(1.2, 3.0)], PriceLimit);
    VolumeCons(Level(0.5, 0.0), [Level(1.2, 3.0)], PriceLimit);
    var loaded := HandleData(Initial, Snapshot(asks, []));
    assert loaded == State(Some(asks), Some(2.5));
    assert HandleData(loaded, L2Update([c])) == State(Some(zeroed), Some(0.0));
  }

  /** An update holding a single change applies just that change. */
  lemma OneChange(asks: seq<Level>, c: Change)
    ensures ApplyChanges(asks, [c]) == ApplyChange(asks, c)
  {
  }

  /** An update to a price not yet present is inserted in price order. */
  lemma NewPriceInsertedInOrder()
    ensures ReplaceAsks([Level(1.0, 5.0)], 0.9, 4.0) == [Level(0.9, 4.0), Level(1.0, 5.0)]
  {
  }

  /** An absent price with amount 0 is inserted as well. */
  lemma ZeroAmountForAbsentPriceInserted()
    ensures ReplaceAsks([Level(1.0, 5.0)], 0.9, 0.0) == [Level(0.9, 0.0), Level(1.0, 5.0)]
  {
  }

  /** The volume adds `price * amount` below the limit: 0.5 * 10 + 0.9 * 20. */
  lemma NotionalVolumeBelowLimit()
    ensures VolumeBelow([Level(0.5, 10.0), Level(0.9, 20.0), Level(1.5, 30.0)], PriceLimit) == 23.0
  {
  }

  /** A snapshot is kept in the order given; the first insertion sorts the
      whole list. `buy` changes and other message types change nothing. */
  lemma SnapshotKeptUnsortedUntilInsert()
    ensures
      var loaded := HandleData(Initial, Snapshot([Level(1.2, 3.0), Level(1.0, 5.0)], [Level(0.9, 7.0)]));
      var bought := HandleData(loaded, L2Update([Change("buy", 1.1, 2.0)]));
      var other := HandleData(bought, Other("heartbeat"));
      var sold := HandleData(other, L2Update([Change("sell", 1.1, 2.0)]));
      && loaded.asks == Some([Level(1.2, 3.0), Level(1.0, 5.0)])
      && bought.asks == loaded.asks
      && other == bought
      && sold.asks == Some([Level(1.0, 5.0), Level(1.1, 2.0), Level(1.2, 3.0)])
  {
    var asks := [Level(1.2, 3.0), Level(1.0, 5.0)];
    var sorted := [Level(1.0, 5.0), Level(1.1, 2.0), Level(1.2, 3.0)];
    var buy := Change("buy", 1.1, 2.0);
    var sell := Change("sell", 1.1, 2.0);
    var loaded := HandleData(Initial, Snapshot(asks, [Level(0.9, 7.0)]));
    assert loaded.asks == Some(asks);
    OneChange(asks, buy);
    assert ApplyChanges(asks, [buy]) == asks;
    var bought := HandleData(loaded, L2Update([buy]));
    assert bought.asks == Some(asks);
    var other := HandleData(bought, Other("heartbeat"));
    assert other == bought;
    InsertSell(asks);
    assert ApplyChanges(asks, [sell]) == sorted;
  }

  /** The `sell` step of `SnapshotKeptUnsortedUntilInsert`. */
  lemma InsertSell(asks: seq<Level>)
    requires asks == [Level(1.2, 3.0), Level(1.0, 5.0)]
    ensures ApplyChanges(asks, [Change("sell", 1.1, 2.0)])
      == [Level(1.0, 5.0), Level(1.1, 2.0), Level(1.2, 3.0)]
  {
    ReplaceSortsSnapshot(asks);
    OneChange(asks, Change("sell", 1.1, 2.0));
  }

  /** The `replaceAsks` call of `InsertSell`. */
  lemma ReplaceSortsSnapshot(asks: seq<Level>)
    requires asks == [Level(1.2, 3.0), Level(1.0, 5.0)]
    ensures ReplaceAsks(asks, 1.1, 2.0) == [Level(1.0, 5.0), Level(1.1, 2.0), Level(1.2, 3.0)]
  {
    InsertTakesSortPath(asks);
    SortThree();
    assert [Level(1.1, 2.0)] + asks == [Level(1.1, 2.0), Level(1.2, 3.0), Level(1.0, 5.0)];
  }

  /** Price 1.1 is absent from the snapshot of `SnapshotKeptUnsortedUntilInsert`,
      so the update prepends and sorts. */
  lemma InsertTakesSortPath(asks: seq<Level>)
    requires asks == [Level(1.2, 3.0), Level(1.0, 5.0)]
    ensures ReplaceAsks(asks, 1.1, 2.0) == SortByPrice([Level(1.1, 2.0)] + asks)
  {
  }

  /** The sort behind the last step of `SnapshotKeptUnsortedUntilInsert`. */
  lemma SortThree()
    ensures SortByPrice([Level(1.1, 2.0), Level(1.2, 3.0), Level(1.0, 5.0)])
      == [Level(1.0, 5.0), Level(1.1, 2.0), Level(1.2, 3.0)]
  {
  }
}
