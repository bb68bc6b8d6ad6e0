/**
  `BazaarOrderTracker` of `src/bazaar_tracker.rs` as it runs: each method proved to make the step that
  `BazaarBook` reasons about. Clock readings are parameters.
 */
module BazaarTracker {
  import opened Wrappers
  import opened BazaarOrders
  import opened BazaarBook
  import opened BazaarReconcile

  /** The first shown order of the key gives the name of what is added for it. */
  method FindDisplayName(shown: seq<Shown>, k: Key) returns (name: string)
    ensures name == DisplayName(shown, k)
  {
    var i := 0;
    while i < |shown|
      invariant 0 <= i <= |shown| && ShownOf(shown[..i], k) == []
    {
      ShownOfSnoc(shown[..i], shown[i], k);
      assert shown[..i + 1] == shown[..i] + [shown[i]];
      if ShownKey(shown[i]) == k {
        ShownOfPrefix(shown, i + 1, k);
        return shown[i].itemName;
      }
      i := i + 1;
    }
    assert shown[..i] == shown;
    name := k.name;
  }

  lemma {:induction false} ShownOfPrefix(shown: seq<Shown>, n: nat, k: Key)
    requires n <= |shown|
    ensures ShownOf(shown[..n], k) <= ShownOf(shown, k)
    decreases |shown|
  {
    if n < |shown| {
      var front := shown[..|shown| - 1];
      assert front[..n] == shown[..n];
      ShownOfPrefix(front, n, k);
    } else {
      assert shown[..n] == shown;
    }
  }

  function CountOf(counts: map<Key, int>, k: Key): int { if k in counts then counts[k] else 0 }

  function EntriesOf(data: map<Key, seq<Shown>>, k: Key): seq<Shown> { if k in data then data[k] else [] }

  /** The map counts the shown orders of every key. */
  ghost predicate CountsShown(counts: map<Key, int>, shown: seq<Shown>) {
    forall k :: CountOf(counts, k) == |ShownOf(shown, k)|
  }

  /** The map counts the tracked orders of every key. */
  ghost predicate CountsTracked(counts: map<Key, int>, orders: seq<Order>) {
    forall k :: CountOf(counts, k) == |OfKey(orders, k)|
  }

  /** The map holds the shown orders of every key. */
  ghost predicate Groups(data: map<Key, seq<Shown>>, shown: seq<Shown>) {
    forall k :: EntriesOf(data, k) == ShownOf(shown, k)
  }

  lemma CountsShownStep(counts: map<Key, int>, shown: seq<Shown>, s: Shown)
    requires CountsShown(counts, shown)
    ensures CountsShown(counts[ShownKey(s) := CountOf(counts, ShownKey(s)) + 1], shown + [s])
  {
    var after := counts[ShownKey(s) := CountOf(counts, ShownKey(s)) + 1];
    forall k ensures CountOf(after, k) == |ShownOf(shown + [s], k)| {
      ShownOfSnoc(shown, s, k);
      assert CountOf(counts, k) == |ShownOf(shown, k)|;
    }
  }

  lemma GroupsStep(data: map<Key, seq<Shown>>, shown: seq<Shown>, s: Shown)
    requires Groups(data, shown)
    ensures Groups(data[ShownKey(s) := EntriesOf(data, ShownKey(s)) + [s]], shown + [s])
  {
    var after := data[ShownKey(s) := EntriesOf(data, ShownKey(s)) + [s]];
    forall k ensures EntriesOf(after, k) == ShownOf(shown + [s], k) {
      ShownOfSnoc(shown, s, k);
      assert EntriesOf(data, k) == ShownOf(shown, k);
    }
  }

  lemma CountsTrackedStep(counts: map<Key, int>, orders: seq<Order>, o: Order)
    requires CountsTracked(counts, orders)
    ensures CountsTracked(counts[KeyOf(o) := CountOf(counts, KeyOf(o)) + 1], orders + [o])
  {
    var after := counts[KeyOf(o) := CountOf(counts, KeyOf(o)) + 1];
    forall k ensures CountOf(after, k) == |OfKey(orders + [o], k)| {
      OfKeySnoc(orders, o, k);
      assert CountOf(counts, k) == |OfKey(orders, k)|;
    }
  }

  lemma CountsTrackedZero(counts: map<Key, int>, orders: seq<Order>, key: Key)
    requires CountsTracked(counts, orders) && key !in counts
    ensures CountsTracked(counts[key := 0], orders)
  {
    forall k ensures CountOf(counts[key := 0], k) == |OfKey(orders, k)| {
      assert CountOf(counts, k) == |OfKey(orders, k)|;
    }
  }

  method CountShown(shown: seq<Shown>) returns (counts: map<Key, int>)
    ensures CountsShown(counts, shown)
  {
    counts := map[];
    for i := 0 to |shown|
      invariant CountsShown(counts, shown[..i])
    {
      var key := ShownKey(shown[i]);
      CountsShownStep(counts, shown[..i], shown[i]);
      assert shown[..i + 1] == shown[..i] + [shown[i]];
      counts := counts[key := CountOf(counts, key) + 1];
    }
    assert shown[..|shown|] == shown;
  }

  method GroupShown(shown: seq<Shown>) returns (data: map<Key, seq<Shown>>)
    ensures Groups(data, shown)
  {
    data := map[];
    for i := 0 to |shown|
      invariant Groups(data, shown[..i])
    {
      var key := ShownKey(shown[i]);
      GroupsStep(data, shown[..i], shown[i]);
      assert shown[..i + 1] == shown[..i] + [shown[i]];
      data := data[key := EntriesOf(data, key) + [shown[i]]];
    }
    assert shown[..|shown|] == shown;
  }

  lemma AddingTouchesOneKey(before: seq<Order>, own: seq<Order>, shown: seq<Shown>, k: Key, suppressed: set<Key>,
                            unix: nat)
    ensures var added := Additions(own, shown, k, suppressed, unix);
            && OfKey(before + added, k) == OfKey(before, k) + added
            && forall j :: j != k ==> OfKey(before + added, j) == OfKey(before, j)
  {
    var added := Additions(own, shown, k, suppressed, unix);
    OfKeyJoins(before, added, k);
    AdditionsOfKey(own, shown, k, suppressed, unix, k);
    forall j | j != k ensures OfKey(before + added, j) == OfKey(before, j) {
      OfKeyJoins(before, added, j);
      AdditionsOfKey(own, shown, k, suppressed, unix, j);
    }
  }

  /** The key's list is the reconciled one. */
  ghost predicate Done(own: seq<Order>, shown: seq<Shown>, k: Key, suppressed: set<Key>, unix: nat, orders: seq<Order>)
  {
    OfKey(orders, k) == ReconcileKey(OfKey(own, k), shown, k, suppressed, unix)
  }

  lemma DoneUnshown(own: seq<Order>, shown: seq<Shown>, data: map<Key, seq<Shown>>, k: Key, suppressed: set<Key>,
                    unix: nat)
    requires Groups(data, shown) && k !in data
    ensures Done(own, shown, k, suppressed, unix, Retain(own, shown))
  {
    assert EntriesOf(data, k) == ShownOf(shown, k);
    RetainOfKey(own, shown, k);
  }

  lemma RetainNext(orders: seq<Order>, i: nat, shown: seq<Shown>)
    requires i < |orders|
    ensures var retained, key := Retain(orders[..i], shown), KeyOf(orders[i]);
            Retain(orders[..i + 1], shown)
            == if |OfKey(retained, key)| < |ShownOf(shown, key)| then retained + [orders[i]] else retained
  {
    assert orders[..i + 1][..i] == orders[..i];
  }

  /** The decision about one order: it stays while fewer of its key were kept than are shown. */
  method KeepOne(o: Order, ghost retained: seq<Order>, kept: map<Key, int>, ghost shown: seq<Shown>,
                 counts: map<Key, int>)
    returns (stays: bool, kept': map<Key, int>)
    requires CountsTracked(kept, retained) && CountsShown(counts, shown)
    ensures stays <==> |OfKey(retained, KeyOf(o))| < |ShownOf(shown, KeyOf(o))|
    ensures CountsTracked(kept', if stays then retained + [o] else retained)
  {
    var key := KeyOf(o);
    kept' := kept;
    if key !in kept {
      CountsTrackedZero(kept, retained, key);
      kept' := kept[key := 0];
    }
    assert CountOf(kept', key) == |OfKey(retained, key)| && CountOf(counts, key) == |ShownOf(shown, key)|;
    stays := kept'[key] < CountOf(counts, key);
    if stays {
      CountsTrackedStep(kept', retained, o);
      kept' := kept'[key := kept'[key] + 1];
    }
  }

  /** The retain loop's next order. */
  method RetainOne(orders: seq<Order>, i: nat, shown: seq<Shown>, counts: map<Key, int>,
                   retained: seq<Order>, kept: map<Key, int>)
    returns (retained': seq<Order>, kept': map<Key, int>)
    requires i < |orders| && CountsShown(counts, shown)
    requires retained == Retain(orders[..i], shown) && CountsTracked(kept, retained)
    ensures retained' == Retain(orders[..i + 1], shown) && CountsTracked(kept', retained')
  {
    RetainNext(orders, i, shown);
    var stays;
    stays, kept' := KeepOne(orders[i], retained, kept, shown, counts);
    retained' := if stays then retained + [orders[i]] else retained;
  }

  /** Drops tracked orders beyond what is shown. */
  method RetainShown(orders: seq<Order>, shown: seq<Shown>, counts: map<Key, int>)
    returns (retained: seq<Order>, kept: map<Key, int>)
    requires CountsShown(counts, shown)
    ensures retained == Retain(orders, shown)
    ensures CountsTracked(kept, retained)
  {
    retained, kept := [], map[];
    for i := 0 to |orders|
      invariant retained == Retain(orders[..i], shown) && CountsTracked(kept, retained)
    {
      retained, kept := RetainOne(orders, i, shown, counts, retained, kept);
    }
    assert orders[..|orders|] == orders;
  }

  /** Keys outside `keys` are reconciled, those inside still hold what was retained. */
  ghost predicate Progress(own: seq<Order>, shown: seq<Shown>, suppressed: set<Key>, unix: nat, retained: seq<Order>,
                           keys: set<Key>, orders: seq<Order>)
  {
    && retained <= orders
    && (forall k :: k in keys ==> OfKey(orders, k) == OfKey(retained, k))
    && forall k :: k !in keys ==> Done(own, shown, k, suppressed, unix, orders)
  }

  lemma ProgressStep(own: seq<Order>, shown: seq<Shown>, suppressed: set<Key>, unix: nat, retained: seq<Order>,
                     keys: set<Key>, k: Key, before: seq<Order>, after: seq<Order>)
    requires Progress(own, shown, suppressed, unix, retained, keys, before)
    requires before <= after && Done(own, shown, k, suppressed, unix, after)
    requires forall j :: j != k ==> OfKey(after, j) == OfKey(before, j)
    ensures Progress(own, shown, suppressed, unix, retained, keys - {k}, after)
  {
    forall j | j !in keys - {k} ensures Done(own, shown, j, suppressed, unix, after) {
      if j != k {
        assert Done(own, shown, j, suppressed, unix, before);
      }
    }
  }

  lemma DoneSuppressed(own: seq<Order>, shown: seq<Shown>, k: Key, suppressed: set<Key>, unix: nat, orders: seq<Order>)
    requires k in suppressed && OfKey(orders, k) == OfKey(Retain(own, shown), k)
    ensures Done(own, shown, k, suppressed, unix, orders)
  {
    RetainOfKey(own, shown, k);
  }

  lemma MarkOneMore(pending: map<Key, nat>, orders: seq<Order>, o: Order, instant: nat)
    ensures MarkAll(pending, KeysOf(orders + [o]), instant)
         == MarkAll(pending, KeysOf(orders), instant)[KeyOf(o) := instant]
  {
    assert KeysOf(orders + [o]) == KeysOf(orders) + {KeyOf(o)};
  }

  class BazaarOrderTracker {
    var orders: seq<Order>
    var pendingCancels: map<Key, nat>

    ghost function S(): State
      reads this
    {
      State(orders, pendingCancels)
    }

    /** A tracker whose saved file held `loaded`. */
    constructor (loaded: seq<Order>)
      ensures S() == State(loaded, map[])
    {
      orders, pendingCancels := loaded, map[];
    }

    method MarkCancelling(item: string, isBuy: bool, t: Moment)
      modifies this
      ensures Step(old(S()), Cancel(KeyFor(item, isBuy)), t, S())
    {
      pendingCancels := pendingCancels[KeyFor(item, isBuy) := t.instant];
    }

    method AddOrder(item: string, amount: nat, price: real, isBuy: bool, t: Moment)
      modifies this
      ensures Step(old(S()), Add(item, amount, price, isBuy), t, S())
    {
      orders := orders + [Order(item, amount, price, isBuy, Open, t.unix)];
    }

    method MarkOrderFilled(item: string, isBuy: bool, t: Moment)
      modifies this
      ensures Step(old(S()), MarkFilled(KeyFor(item, isBuy)), t, S())
    {
      var i := FindNewest(KeyFor(item, isBuy), false);
      if i.Some? {
        orders := orders[..i.value] + [orders[i.value].(status := Filled)] + orders[i.value + 1..];
      }
    }

    method RemoveOrder(item: string, isBuy: bool, t: Moment) returns (removed: Option<Order>)
      modifies this
      ensures Step(old(S()), RemoveOne(KeyFor(item, isBuy)), t, S())
      ensures removed == Removed(old(orders), KeyFor(item, isBuy))
    {
      var i := FindNewest(KeyFor(item, isBuy), true);
      removed := None;
      if i.Some? {
        removed := Some(orders[i.value]);
        orders := orders[..i.value] + orders[i.value + 1..];
      }
    }

    /** The search from the back. */
    method FindNewest(k: Key, known: bool) returns (found: Option<nat>)
      ensures found == Newest(orders, k, known)
    {
      var i := |orders|;
      while i > 0
        invariant 0 <= i <= |orders|
        invariant forall j :: i <= j < |orders| ==> !Wanted(orders[j], k, known)
      {
        i := i - 1;
        if Wanted(orders[i], k, known) {
          return Some(i);
        }
      }
      found := None;
    }

    method ClearAllOrders(t: Moment) returns (removed: nat)
      modifies this
      ensures Step(old(S()), BazaarBook.Clear, t, S())
      ensures removed == |old(orders)|
    {
      removed := |orders|;
      for i := 0 to |orders|
        invariant orders == old(orders)
        invariant pendingCancels == MarkAll(old(pendingCancels), KeysOf(orders[..i]), t.instant)
      {
        assert orders[..i + 1] == orders[..i] + [orders[i]];
        MarkOneMore(old(pendingCancels), orders[..i], orders[i], t.instant);
        pendingCancels := pendingCancels[KeyOf(orders[i]) := t.instant];
      }
      assert orders[..|orders|] == orders;
      orders := [];
    }

    method RemoveStaleOrders(maxAge: nat, t: Moment) returns (removed: nat)
      modifies this
      ensures Step(old(S()), RemoveStale(maxAge), t, S())
      ensures removed == |old(orders)| - |orders|
    {
      var kept := [];
      for i := 0 to |orders|
        invariant orders == old(orders) && kept == DropStale(orders[..i], t.unix, maxAge)
      {
        assert orders[..i + 1][..i] == orders[..i];
        if YoungerThan(orders[i], t.unix, maxAge) {
          kept := kept + [orders[i]];
        }
      }
      assert orders[..|orders|] == orders;
      removed := |orders| - |kept|;
      orders := kept;
    }

    /** Adds the shown orders of one key that are not tracked yet. */
    method AddMissing(entries: seq<Shown>, tracked: nat, name: string, k: Key, unix: nat)
      modifies this`orders
      ensures orders == old(orders)
                + NewOrders(if |entries| <= tracked then [] else entries[tracked..], name, k.isBuy, unix)
    {
      ghost var missing := if |entries| <= tracked then [] else entries[tracked..];
      var i := tracked;
      while i < |entries|
        invariant tracked <= i && (i <= |entries| || missing == [])
        invariant orders == old(orders)
                    + NewOrders(missing, name, k.isBuy, unix)[..if missing == [] then 0 else i - tracked]
      {
        assert missing[i - tracked] == entries[i];
        orders := orders + [NewOrder(entries[i], name, k.isBuy, unix)];
        i := i + 1;
      }
    }

    method ReconcileWithIngame(shown: seq<Shown>, t: Moment) returns (removed: nat)
      modifies this
      ensures Step(old(S()), Reconcile(shown), t, S())
      ensures removed == Excess(old(orders), shown, KeysOf(old(orders)))
    {
      var originalLength := |orders|;
      var counts := CountShown(shown);
      var retained, kept := RetainShown(orders, shown, counts);
      orders := retained;
      removed := originalLength - |orders|;
      pendingCancels := StillPending(pendingCancels, t.instant);
      var data := GroupShown(shown);
      AddUntracked(old(orders), shown, data, kept, t.unix);
      RemovedIsExcess(old(orders), shown, KeysOf(old(orders)));
    }

    /** Adds what one key lacks. */
    method AddOneKey(ghost own: seq<Order>, shown: seq<Shown>, entries: seq<Shown>, tracked: nat, k: Key, unix: nat)
      requires k !in pendingCancels && entries == ShownOf(shown, k)
      requires tracked == Min(|OfKey(own, k)|, |ShownOf(shown, k)|) && OfKey(orders, k) == OfKey(own, k)[..tracked]
      modifies this`orders
      ensures old(orders) <= orders && Done(own, shown, k, pendingCancels.Keys, unix, orders)
      ensures forall j :: j != k ==> OfKey(orders, j) == OfKey(old(orders), j)
    {
      var name := FindDisplayName(shown, k);
      AddMissing(entries, tracked, name, k, unix);
      AddingTouchesOneKey(old(orders), OfKey(own, k), shown, k, pendingCancels.Keys, unix);
      assert orders == old(orders) + Additions(OfKey(own, k), shown, k, pendingCancels.Keys, unix);
    }

    /** Key by key, in any order, adds what is shown but not tracked and not being cancelled. */
    method AddUntracked(ghost own: seq<Order>, shown: seq<Shown>, data: map<Key, seq<Shown>>, counted: map<Key, int>,
                        unix: nat)
      requires orders == Retain(own, shown) && Groups(data, shown) && CountsTracked(counted, orders)
      modifies this`orders
      ensures Reconciled(own, shown, pendingCancels.Keys, unix, orders)
    {
      var suppressed := pendingCancels.Keys;
      var kept := counted;
      ghost var retained := orders;
      var keys := data.Keys;
      forall k | k !in keys
        ensures Done(own, shown, k, suppressed, unix, orders)
      {
        DoneUnshown(own, shown, data, k, suppressed, unix);
      }
      while keys != {}
        invariant keys <= data.Keys && Progress(own, shown, suppressed, unix, retained, keys, orders)
        invariant forall k :: k in keys ==> CountOf(kept, k) == CountOf(counted, k)
        decreases |keys|
      {
        var k :| k in keys;
        ghost var before := orders;
        if k !in suppressed {
          assert CountOf(counted, k) == |OfKey(retained, k)| && EntriesOf(data, k) == ShownOf(shown, k);
          RetainOfKey(own, shown, k);
          AddOneKey(own, shown, data[k], CountOf(kept, k), k, unix);
          kept := kept[k := |data[k]|];
        } else {
          DoneSuppressed(own, shown, k, suppressed, unix, orders);
        }
        ProgressStep(own, shown, suppressed, unix, retained, keys, k, before, orders);
        keys := keys - {k};
      }
    }
  }
}
