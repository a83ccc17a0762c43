/** The `Coinbase` component's state and its handling of decoded feed
    messages (src/components/Coinbase.js): a snapshot replaces the ask list
    wholesale, an `l2update` folds `replaceAsks` over its `sell` changes, and
    both recompute the volume below the price limit. The component state
    is a value here, and each message is a pure step from state to state. */
module Coinbase {
  import opened Levels
  import opened Asks
  import opened Aggregation

  datatype Option<T> = None | Some(value: T)

  /** `this.priceLimit`: the volume counts ask levels priced below 1. */
  const PriceLimit: real := 1.0

  /** One entry of an `l2update`'s `changes`: `[side, price, size]`. */
  datatype Change = Change(direction: string, price: real, amount: real)

  /** A feed message once decoded. Snapshot bids are carried so that it is
      visible that they are dropped; any other `type` is `Other`. */
  datatype Message =
    | Snapshot(asks: seq<Level>, bids: seq<Level>)
    | L2Update(changes: seq<Change>)
    | Other(kind: string)

  /** The component's `state`: both fields are undefined until the first
      snapshot. */
  datatype State = State(asks: Option<seq<Level>>, volumeUpToLimit: Option<real>)

  /** `this.state = {}` in the constructor. */
  const Initial: State := State(None, None)

  /** `hasLoaded`: the volume has been computed at least once. */
  predicate HasLoaded(s: State)
  {
    s.volumeUpToLimit.Some?
  }

  /** The states the component can reach: nothing yet, or an ask list
      together with the volume computed from it. */
  predicate Consistent(s: State)
  {
    || (s.asks.None? && s.volumeUpToLimit.None?)
    || (s.asks.Some? && s.volumeUpToLimit == Some(VolumeBelow(s.asks.value, PriceLimit)))
  }

  /** The prices named by the `sell` changes of an update. */
  function SellPrices(changes: seq<Change>): set<real>
  {
    set c | c in changes && c.direction == "sell" :: c.price
  }

  /** One change: a `sell` updates the asks, anything else is ignored. */
  function ApplyChange(asks: seq<Level>, c: Change): seq<Level>
  {
    if c.direction == "sell" then ReplaceAsks(asks, c.price, c.amount) else asks
  }

  /** The `forEach` over `changes`, left to right. */
  function ApplyChanges(asks: seq<Level>, changes: seq<Change>): seq<Level>
    decreases |changes|
  {
    if changes == [] then asks else ApplyChanges(ApplyChange(asks, changes[0]), changes[1..])
  }

  /** The prices after an update are the old prices plus the prices of its
      `sell` changes: nothing is ever removed. */
  lemma {:induction false} ApplyChangesPrices(asks: seq<Level>, changes: seq<Change>)
    ensures Prices(ApplyChanges(asks, changes)) == Prices(asks) + SellPrices(changes)
    decreases |changes|
  {
    if changes != [] {
      var c := changes[0];
      assert changes == [c] + changes[1..];
      assert SellPrices(changes) == SellPrices([c]) + SellPrices(changes[1..]);
      if c.direction == "sell" {
        ReplaceAsksFacts(asks, c.price, c.amount);
        assert SellPrices([c]) == {c.price};
      } else {
        assert SellPrices([c]) == {};
      }
      ApplyChangesPrices(ApplyChange(asks, c), changes[1..]);
    }
  }

  /** `parseSnapshot`: the asks become exactly the snapshot rows, in the
      order given, and the volume is computed from them. */
  function ParseSnapshot(asks: seq<Level>): (r: State)
    ensures r.asks == Some(asks)
    ensures HasLoaded(r) && Consistent(r)
  {
    State(Some(asks), Some(VolumeBelow(asks, PriceLimit)))
  }

  /** `reportUpdate`: the source reads `this.state.asks` without a check,
      so the asks must already be loaded. */
  function ReportUpdate(s: State, changes: seq<Change>): (r: State)
    requires s.asks.Some?
    ensures HasLoaded(r) && Consistent(r)
    ensures r.asks.Some?
    ensures (forall c :: c in changes ==> c.direction != "sell") ==> r.asks == s.asks
  {
    var newAsks := ApplyChanges(s.asks.value, changes);
    assert (forall c :: c in changes ==> c.direction != "sell") ==> newAsks == s.asks.value by {
      if forall c :: c in changes ==> c.direction != "sell" {
        ApplyChangesIgnoresOtherSides(s.asks.value, changes);
      }
    }
    State(Some(newAsks), Some(VolumeBelow(newAsks, PriceLimit)))
  }

  /** `handleData` on a decoded message. An update before any snapshot
      dereferences undefined in the source, so it is excluded. */
  function HandleData(s: State, msg: Message): (r: State)
    requires msg.L2Update? ==> s.asks.Some?
    ensures msg.Snapshot? ==> r.asks == Some(msg.asks) && HasLoaded(r)
    ensures msg.Other? ==> r == s
    ensures Consistent(s) ==> Consistent(r)
    ensures s.asks.Some? ==> r.asks.Some?
  {
    match msg
    case Snapshot(asks, _) => ParseSnapshot(asks)
    case L2Update(changes) => ReportUpdate(s, changes)
    case Other(_) => s
  }

  /** Applying a concatenation of changes is applying one part after the
      other: the fold runs strictly left to right. */
  lemma {:induction false} ApplyChangesAppend(asks: seq<Level>, a: seq<Change>, b: seq<Change>)
    ensures ApplyChanges(asks, a + b) == ApplyChanges(ApplyChanges(asks, a), b)
    decreases |a|
  {
    if a == [] {
      assert a + b == b;
    } else {
      assert (a + b)[0] == a[0];
      assert (a + b)[1..] == a[1..] + b;
      ApplyChangesAppend(ApplyChange(asks, a[0]), a[1..], b);
    }
  }

  /** Changes on any side other than `sell` leave the asks untouched. */
  lemma {:induction false} ApplyChangesIgnoresOtherSides(asks: seq<Level>, changes: seq<Change>)
    requires forall c :: c in changes ==> c.direction != "sell"
    ensures ApplyChanges(asks, changes) == asks
    decreases |changes|
  {
    if changes != [] {
      assert changes[0] in changes;
      assert forall c :: c in changes[1..] ==> c in changes;
      ApplyChangesIgnoresOtherSides(asks, changes[1..]);
    }
  }

  /** Changes that never write `price` leave the levels at `price` as they
      were. */
  lemma {:induction false} ApplyChangesKeepsOtherPrices(asks: seq<Level>, changes: seq<Change>, price: real)
    requires forall c :: c in changes && c.direction == "sell" ==> c.price != price
    ensures forall l: Level :: l.price == price ==> (l in ApplyChanges(asks, changes) <==> l in asks)
    decreases |changes|
  {
    if changes != [] {
      assert changes[0] in changes;
      assert forall c :: c in changes[1..] ==> c in changes;
      if changes[0].direction == "sell" {
        ReplaceAsksFacts(asks, changes[0].price, changes[0].amount);
      }
      ApplyChangesKeepsOtherPrices(ApplyChange(asks, changes[0]), changes[1..], price);
    }
  }

  /** Last write wins: after an update, the levels at a price carry the
      amount of the last `sell` change to that price. */
  lemma LastWriteWins(asks: seq<Level>, changes: seq<Change>, k: nat)
    requires k < |changes|
    requires changes[k].direction == "sell"
    requires forall j :: k < j < |changes| && changes[j].direction == "sell" ==> changes[j].price != changes[k].price
    ensures changes[k].price in Prices(ApplyChanges(asks, changes))
    ensures forall l :: l in ApplyChanges(asks, changes) && l.price == changes[k].price ==> l.amount == changes[k].amount
  {
    var c := changes[k];
    var before := changes[..k];
    var upTo := changes[..k + 1];
    var after := changes[k + 1..];
    assert changes == upTo + after;
    assert upTo == before + [c];
    ApplyChangesAppend(asks, upTo, after);
    ApplyChangesAppend(asks, before, [c]);
    forall d | d in after && d.direction == "sell"
      ensures d.price != c.price
    {
      var j :| 0 <= j < |after| && after[j] == d;
      assert changes[k + 1 + j] == d;
    }
    WrittenThenUntouched(ApplyChanges(asks, changes[..k]), c, after);
  }

  /** The step behind `LastWriteWins`: one write of `c`, then changes that
      never write its price. */
  lemma WrittenThenUntouched(asks: seq<Level>, c: Change, after: seq<Change>)
    requires c.direction == "sell"
    requires forall d :: d in after && d.direction == "sell" ==> d.price != c.price
    ensures c.price in Prices(ApplyChanges(ApplyChanges(asks, [c]), after))
    ensures forall l :: l in ApplyChanges(ApplyChanges(asks, [c]), after) && l.price == c.price ==> l.amount == c.amount
  {
    assert [c][0] == c && [c][1..] == [];
    var written := ApplyChanges(asks, [c]);
    assert written == ApplyChanges(ApplyChange(asks, c), []);
    assert written == ReplaceAsks(asks, c.price, c.amount);
    ReplaceAsksFacts(asks, c.price, c.amount);
    ApplyChangesKeepsOtherPrices(written, after, c.price);
    var final := ApplyChanges(written, after);
    assert Level(c.price, c.amount) in final;
  }

  /** A strictly ascending ask list stays strictly ascending under an
      update. */
  lemma {:induction false} ApplyChangesKeepsAscending(asks: seq<Level>, changes: seq<Change>)
    requires StrictlyAscending(asks)
    ensures StrictlyAscending(ApplyChanges(asks, changes))
    decreases |changes|
  {
    if changes != [] {
      if changes[0].direction == "sell" {
        ReplaceKeepsAscending(asks, changes[0].price, changes[0].amount);
      }
      ApplyChangesKeepsAscending(ApplyChange(asks, changes[0]), changes[1..]);
    }
  }

  /** An ask list with distinct prices keeps them distinct under an
      update, whatever its order. */
  lemma {:induction false} ApplyChangesKeepsDistinct(asks: seq<Level>, changes: seq<Change>)
    requires DistinctPrices(asks)
    ensures DistinctPrices(ApplyChanges(asks, changes))
    decreases |changes|
  {
    if changes != [] {
      if changes[0].direction == "sell" {
        ReplaceKeepsDistinct(asks, changes[0].price, changes[0].amount);
      }
      ApplyChangesKeepsDistinct(ApplyChange(asks, changes[0]), changes[1..]);
    }
  }

  /** In every reachable state `hasLoaded` holds exactly when the asks
      exist, so once it holds an update can be applied. */
  lemma HasLoadedIffAsks(s: State)
    requires Consistent(s)
    ensures HasLoaded(s) <==> s.asks.Some?
    ensures !HasLoaded(s) ==> s == Initial
  {
  }

  /** A stream of messages can be handled without an update arriving
      before the asks exist. */
  predicate Processable(s: State, msgs: seq<Message>)
    decreases |msgs|
  {
    || msgs == []
    || ((msgs[0].L2Update? ==> s.asks.Some?) && Processable(HandleData(s, msgs[0]), msgs[1..]))
  }

  /** Handling a stream of messages in arrival order. */
  function Process(s: State, msgs: seq<Message>): State
    requires Processable(s, msgs)
    decreases |msgs|
  {
    if msgs == [] then s else Process(HandleData(s, msgs[0]), msgs[1..])
  }

  /** Once the asks exist, every stream of messages can be handled. */
  lemma {:induction false} LoadedIsProcessable(s: State, msgs: seq<Message>)
    requires s.asks.Some?
    ensures Processable(s, msgs)
    decreases |msgs|
  {
    if msgs != [] {
      LoadedIsProcessable(HandleData(s, msgs[0]), msgs[1..]);
    }
  }

  /** A stream that opens with a snapshot can be handled from any state,
      the initial one included. */
  lemma SnapshotFirstIsProcessable(s: State, msgs: seq<Message>)
    requires msgs != [] && msgs[0].Snapshot?
    ensures Processable(s, msgs)
  {
    LoadedIsProcessable(HandleData(s, msgs[0]), msgs[1..]);
  }

  /** Every state reached from a consistent one is consistent: the shown
      volume is always the volume of the asks held. */
  lemma {:induction false} ProcessKeepsConsistent(s: State, msgs: seq<Message>)
    requires Processable(s, msgs)
    requires Consistent(s)
    ensures Consistent(Process(s, msgs))
    decreases |msgs|
  {
    if msgs != [] {
      ProcessKeepsConsistent(HandleData(s, msgs[0]), msgs[1..]);
    }
  }

  /** If every snapshot is strictly ascending, so is the ask list after any
      stream of messages. */
  lemma {:induction false} ProcessKeepsAscending(s: State, msgs: seq<Message>)
    requires Processable(s, msgs)
    requires s.asks.Some? ==> StrictlyAscending(s.asks.value)
    requires forall m :: m in msgs && m.Snapshot? ==> StrictlyAscending(m.asks)
    ensures Process(s, msgs).asks.Some? ==> StrictlyAscending(Process(s, msgs).asks.value)
    decreases |msgs|
  {
    if msgs != [] {
      var m := msgs[0];
      assert m in msgs;
      if m.L2Update? {
        ApplyChangesKeepsAscending(s.asks.value, m.changes);
      }
      assert forall x :: x in msgs[1..] ==> x in msgs;
      ProcessKeepsAscending(HandleData(s, m), msgs[1..]);
    }
  }
}
