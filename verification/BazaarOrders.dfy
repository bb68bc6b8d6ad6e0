/**
  The order list of `BazaarOrderTracker` in `src/bazaar_tracker.rs`, seen key by key: what each operation does to
  the flat list and to the subsequence of one (normalised name, side) key.
 */
module BazaarOrders {
  import opened Wrappers
  import opened Text

  /** The status text of an order: `"open"`, `"filled"`, or whatever else a saved file held. */
  datatype Status = Open | Filled | Other(text: string)

  /** A tracked order. */
  datatype Order = Order(itemName: string, amount: nat, price: real, isBuy: bool, status: Status, placedAt: nat)

  /** An order as the in-game window shows it. */
  datatype Shown = Shown(itemName: string, isBuy: bool, amount: nat, price: real)

  datatype Key = Key(name: string, isBuy: bool)

  /** `normalize_for_match`. */
  function NormalizeForMatch(name: string): string { Trim(ToLower(name)) }

  function KeyFor(item: string, isBuy: bool): Key { Key(NormalizeForMatch(item), isBuy) }

  function KeyOf(o: Order): Key { KeyFor(o.itemName, o.isBuy) }

  function ShownKey(s: Shown): Key { KeyFor(s.itemName, s.isBuy) }

  /** Two names of one side share a key exactly when, white space around them apart, they differ in letter case only. */
  lemma SharedKey(l: string, a: string, r: string, l': string, b: string, r': string, isBuy: bool, isBuy': bool)
    requires AllSpace(l) && AllSpace(r) && AllSpace(l') && AllSpace(r') && Trimmed(a) && Trimmed(b)
    ensures KeyFor(l + (a + r), isBuy) == KeyFor(l' + (b + r'), isBuy') <==> isBuy == isBuy' && SameUpToCase(a, b)
  {
    FoldedAgree(l, a, r, l', b, r');
  }

  /** The orders of one key, in tracker order. */
  function OfKey(orders: seq<Order>, k: Key): seq<Order> {
    if orders == [] then []
    else
      var front, last := OfKey(orders[..|orders| - 1], k), orders[|orders| - 1];
      if KeyOf(last) == k then front + [last] else front
  }

  /** The shown orders of one key, in window order. */
  function ShownOf(shown: seq<Shown>, k: Key): seq<Shown> {
    if shown == [] then []
    else
      var front, last := ShownOf(shown[..|shown| - 1], k), shown[|shown| - 1];
      if ShownKey(last) == k then front + [last] else front
  }

  lemma OfKeySnoc(orders: seq<Order>, o: Order, k: Key)
    ensures OfKey(orders + [o], k) == if KeyOf(o) == k then OfKey(orders, k) + [o] else OfKey(orders, k)
  {
    assert (orders + [o])[..|orders + [o]| - 1] == orders;
  }

  lemma ShownOfSnoc(shown: seq<Shown>, s: Shown, k: Key)
    ensures ShownOf(shown + [s], k) == if ShownKey(s) == k then ShownOf(shown, k) + [s] else ShownOf(shown, k)
  {
    assert (shown + [s])[..|shown + [s]| - 1] == shown;
  }

  lemma OfKeyJoinsLast(a: seq<Order>, front: seq<Order>, last: Order, k: Key)
    requires OfKey(a + front, k) == OfKey(a, k) + OfKey(front, k)
    ensures OfKey(a + front + [last], k) == OfKey(a, k) + OfKey(front + [last], k)
  {
    OfKeySnoc(a + front, last, k);
    OfKeySnoc(front, last, k);
    PushLast(OfKey(a, k), OfKey(front, k), last);
  }

  lemma {:induction false} OfKeyJoins(a: seq<Order>, b: seq<Order>, k: Key)
    ensures OfKey(a + b, k) == OfKey(a, k) + OfKey(b, k)
    decreases |b|
  {
    if b == [] {
      assert a + b == a;
    } else {
      var front, last := b[..|b| - 1], b[|b| - 1];
      OfKeyJoins(a, front, k);
      OfKeyJoinsLast(a, front, last, k);
      PushLast(a, front, last);
      assert b == front + [last];
    }
  }

  lemma OfKeyAround(a: seq<Order>, o: Order, b: seq<Order>, k: Key)
    ensures OfKey(a + [o] + b, k) == OfKey(a, k) + (if KeyOf(o) == k then [o] else []) + OfKey(b, k)
  {
    OfKeyJoins(a + [o], b, k);
    OfKeySnoc(a, o, k);
  }

  lemma {:induction false} OfKeyMembers(orders: seq<Order>, k: Key)
    ensures forall o :: o in OfKey(orders, k) <==> o in orders && KeyOf(o) == k
  {
    if orders != [] {
      var front, last := orders[..|orders| - 1], orders[|orders| - 1];
      OfKeyMembers(front, k);
      assert orders == front + [last];
    }
  }

  lemma {:induction false} ShownOfMembers(shown: seq<Shown>, k: Key)
    ensures forall s :: s in ShownOf(shown, k) <==> s in shown && ShownKey(s) == k
  {
    if shown != [] {
      var front, last := shown[..|shown| - 1], shown[|shown| - 1];
      ShownOfMembers(front, k);
      assert shown == front + [last];
    }
  }

  // ----- Filling and removing -----

  /** `known` asks for an open or filled status, otherwise only an open one counts. */
  predicate Wanted(o: Order, k: Key, known: bool) {
    KeyOf(o) == k && (o.status.Open? || (known && o.status.Filled?))
  }

  /** `i` is the newest wanted order. */
  predicate IsNewest(orders: seq<Order>, k: Key, known: bool, i: nat) {
    i < |orders| && Wanted(orders[i], k, known) && forall j :: i < j < |orders| ==> !Wanted(orders[j], k, known)
  }

  /** The newest wanted order among the first `n`. */
  function NewestBelow(orders: seq<Order>, n: nat, k: Key, known: bool): (r: Option<nat>)
    requires n <= |orders|
    ensures r.Some? ==> r.value < n && Wanted(orders[r.value], k, known)
    ensures forall i :: (if r.Some? then r.value + 1 else 0) <= i < n ==> !Wanted(orders[i], k, known)
  {
    if n == 0 then None
    else if Wanted(orders[n - 1], k, known) then Some(n - 1)
    else NewestBelow(orders, n - 1, k, known)
  }

  function Newest(orders: seq<Order>, k: Key, known: bool): (r: Option<nat>)
    ensures r.Some? ==> IsNewest(orders, k, known, r.value)
    ensures r.None? ==> forall i :: 0 <= i < |orders| ==> !Wanted(orders[i], k, known)
  {
    NewestBelow(orders, |orders|, k, known)
  }

  function Fill(orders: seq<Order>, k: Key): seq<Order> {
    match Newest(orders, k, false)
    case None => orders
    case Some(i) => orders[..i] + [orders[i].(status := Filled)] + orders[i + 1..]
  }

  function Remove(orders: seq<Order>, k: Key): seq<Order> {
    match Newest(orders, k, true)
    case None => orders
    case Some(i) => orders[..i] + orders[i + 1..]
  }

  function Removed(orders: seq<Order>, k: Key): Option<Order> {
    match Newest(orders, k, true)
    case None => None
    case Some(i) => Some(orders[i])
  }

  /** One key's own list: its newest open order becomes filled. */
  function FillNewest(own: seq<Order>): seq<Order> {
    if own == [] then []
    else if own[|own| - 1].status.Open? then own[..|own| - 1] + [own[|own| - 1].(status := Filled)]
    else FillNewest(own[..|own| - 1]) + [own[|own| - 1]]
  }

  /** One key's own list: its newest open or filled order goes. */
  function DropNewest(own: seq<Order>): seq<Order> {
    if own == [] then []
    else if own[|own| - 1].status.Other? then DropNewest(own[..|own| - 1]) + [own[|own| - 1]]
    else own[..|own| - 1]
  }

  /** The order `DropNewest` drops. */
  function NewestKnown(own: seq<Order>): Option<Order> {
    if own == [] then None
    else if own[|own| - 1].status.Other? then NewestKnown(own[..|own| - 1])
    else Some(own[|own| - 1])
  }

  predicate NoneOpen(own: seq<Order>) { forall i :: 0 <= i < |own| ==> !own[i].status.Open? }

  predicate NoneKnown(own: seq<Order>) { forall i :: 0 <= i < |own| ==> own[i].status.Other? }

  lemma FillNewestSnoc(own: seq<Order>, o: Order)
    ensures FillNewest(own + [o])
         == if o.status.Open? then own + [o.(status := Filled)] else FillNewest(own) + [o]
  {
    assert (own + [o])[..|own|] == own;
  }

  lemma DropNewestSnoc(own: seq<Order>, o: Order)
    ensures DropNewest(own + [o]) == if o.status.Other? then DropNewest(own) + [o] else own
    ensures NewestKnown(own + [o]) == if o.status.Other? then NewestKnown(own) else Some(o)
  {
    assert (own + [o])[..|own|] == own;
  }

  lemma {:induction false} FillNewestAround(a: seq<Order>, o: Order, b: seq<Order>)
    requires o.status.Open? && NoneOpen(b)
    ensures FillNewest(a + [o] + b) == a + [o.(status := Filled)] + b
    decreases |b|
  {
    var o' := o.(status := Filled);
    if b == [] {
      FillNewestSnoc(a, o);
      assert a + [o] + b == a + [o] && a + [o'] + b == a + [o'];
    } else {
      var front, last := b[..|b| - 1], b[|b| - 1];
      FillNewestAround(a, o, front);
      FillNewestSnoc(a + [o] + front, last);
      PushLast(a + [o], front, last);
      PushLast(a + [o'], front, last);
      assert b == front + [last];
    }
  }

  lemma {:induction false} NothingToFill(own: seq<Order>)
    requires NoneOpen(own)
    ensures FillNewest(own) == own
  {
    if own != [] {
      var front, last := own[..|own| - 1], own[|own| - 1];
      NothingToFill(front);
      assert own == front + [last];
    }
  }

  lemma {:induction false} DropNewestAround(a: seq<Order>, o: Order, b: seq<Order>)
    requires !o.status.Other? && NoneKnown(b)
    ensures DropNewest(a + [o] + b) == a + b && NewestKnown(a + [o] + b) == Some(o)
    decreases |b|
  {
    if b == [] {
      DropNewestSnoc(a, o);
      assert a + [o] + b == a + [o] && a + b == a;
    } else {
      var front, last := b[..|b| - 1], b[|b| - 1];
      DropNewestAround(a, o, front);
      DropNewestSnoc(a + [o] + front, last);
      PushLast(a + [o], front, last);
      PushLast(a, front, last);
      assert b == front + [last];
    }
  }

  lemma {:induction false} NothingToDrop(own: seq<Order>)
    requires NoneKnown(own)
    ensures DropNewest(own) == own && NewestKnown(own) == None
  {
    if own != [] {
      var front, last := own[..|own| - 1], own[|own| - 1];
      NothingToDrop(front);
      assert own == front + [last];
    }
  }

  /** Without a wanted order, the key's own list has none either. */
  lemma NoneOpenOwn(orders: seq<Order>, k: Key)
    requires forall i :: 0 <= i < |orders| ==> !Wanted(orders[i], k, false)
    ensures NoneOpen(OfKey(orders, k))
  {
    OfKeyMembers(orders, k);
    forall i | 0 <= i < |OfKey(orders, k)| ensures !OfKey(orders, k)[i].status.Open? {
      assert OfKey(orders, k)[i] in OfKey(orders, k);
    }
  }

  lemma NoneKnownOwn(orders: seq<Order>, k: Key)
    requires forall i :: 0 <= i < |orders| ==> !Wanted(orders[i], k, true)
    ensures NoneKnown(OfKey(orders, k))
  {
    OfKeyMembers(orders, k);
    forall i | 0 <= i < |OfKey(orders, k)| ensures OfKey(orders, k)[i].status.Other? {
      assert OfKey(orders, k)[i] in OfKey(orders, k);
    }
  }

  /** Filling changes the newest open order of its own key and no other key. */
  lemma FillOfKey(orders: seq<Order>, k: Key, j: Key)
    ensures OfKey(Fill(orders, k), j) == if j == k then FillNewest(OfKey(orders, k)) else OfKey(orders, j)
  {
    match Newest(orders, k, false)
    case None =>
      NoneOpenOwn(orders, k);
      NothingToFill(OfKey(orders, k));
    case Some(i) =>
      var a, o, b := orders[..i], orders[i], orders[i + 1..];
      assert orders == a + [o] + b;
      OfKeyAround(a, o, b, j);
      OfKeyAround(a, o.(status := Filled), b, j);
      NoneOpenOwn(b, k);
      FillNewestAround(OfKey(a, k), o, OfKey(b, k));
  }

  lemma RemoveAt(a: seq<Order>, o: Order, b: seq<Order>, k: Key)
    requires Wanted(o, k, true) && forall i :: 0 <= i < |b| ==> !Wanted(b[i], k, true)
    ensures OfKey(a + b, k) == DropNewest(OfKey(a + [o] + b, k))
    ensures NewestKnown(OfKey(a + [o] + b, k)) == Some(o)
  {
    NoneKnownOwn(b, k);
    DropNewestAround(OfKey(a, k), o, OfKey(b, k));
    OfKeyAround(a, o, b, k);
    OfKeyJoins(a, b, k);
  }

  lemma RemoveBeside(a: seq<Order>, o: Order, b: seq<Order>, j: Key)
    requires KeyOf(o) != j
    ensures OfKey(a + b, j) == OfKey(a + [o] + b, j)
  {
    OfKeyAround(a, o, b, j);
    OfKeyJoins(a, b, j);
  }

  lemma RemoveSplit(orders: seq<Order>, k: Key, i: nat)
    returns (a: seq<Order>, o: Order, b: seq<Order>)
    requires Newest(orders, k, true) == Some(i)
    ensures orders == a + [o] + b && Remove(orders, k) == a + b && Removed(orders, k) == Some(o)
    ensures Wanted(o, k, true) && forall n :: 0 <= n < |b| ==> !Wanted(b[n], k, true)
  {
    a, o, b := orders[..i], orders[i], orders[i + 1..];
  }

  /** Removing takes the newest open or filled order of its own key, and touches no other key. */
  lemma RemoveOfKey(orders: seq<Order>, k: Key, j: Key)
    ensures OfKey(Remove(orders, k), j) == if j == k then DropNewest(OfKey(orders, k)) else OfKey(orders, j)
    ensures Removed(orders, k) == NewestKnown(OfKey(orders, k))
  {
    match Newest(orders, k, true)
    case None =>
      NoneKnownOwn(orders, k);
      NothingToDrop(OfKey(orders, k));
    case Some(i) =>
      var a, o, b := RemoveSplit(orders, k, i);
      if j == k {
        RemoveAt(a, o, b, k);
      } else {
        RemoveAt(a, o, b, k);
        RemoveBeside(a, o, b, j);
      }
  }

  // ----- Staleness -----

  predicate YoungerThan(o: Order, now: nat, maxAge: nat) { (if now < o.placedAt then 0 else now - o.placedAt) < maxAge }

  function DropStale(orders: seq<Order>, now: nat, maxAge: nat): (r: seq<Order>)
    ensures |r| <= |orders|
  {
    if orders == [] then []
    else
      var front, last := DropStale(orders[..|orders| - 1], now, maxAge), orders[|orders| - 1];
      if YoungerThan(last, now, maxAge) then front + [last] else front
  }

  lemma DropStaleSnoc(orders: seq<Order>, o: Order, now: nat, maxAge: nat)
    ensures DropStale(orders + [o], now, maxAge)
         == DropStale(orders, now, maxAge) + (if maxAge > 0 && now < o.placedAt + maxAge then [o] else [])
  {
    assert (orders + [o])[..|orders|] == orders;
  }

  lemma JoinsAgain<T>(a: seq<T>, b: seq<T>, c: seq<T>)
    ensures a + b + c == a + (b + c)
  {
  }

  lemma {:induction false} DropStaleJoins(a: seq<Order>, b: seq<Order>, now: nat, maxAge: nat)
    ensures DropStale(a + b, now, maxAge) == DropStale(a, now, maxAge) + DropStale(b, now, maxAge)
    decreases |b|
  {
    if b == [] {
      assert a + b == a;
    } else {
      var front, last := b[..|b| - 1], b[|b| - 1];
      DropStaleJoins(a, front, now, maxAge);
      assert b == front + [last];
      DropStaleSnocs(a, front, last, now, maxAge);
    }
  }

  lemma DropStaleSnocs(a: seq<Order>, front: seq<Order>, o: Order, now: nat, maxAge: nat)
    requires DropStale(a + front, now, maxAge) == DropStale(a, now, maxAge) + DropStale(front, now, maxAge)
    ensures DropStale(a + (front + [o]), now, maxAge)
         == DropStale(a, now, maxAge) + DropStale(front + [o], now, maxAge)
  {
    var x := if maxAge > 0 && now < o.placedAt + maxAge then [o] else [];
    DropStaleSnoc(a + front, o, now, maxAge);
    DropStaleSnoc(front, o, now, maxAge);
    JoinsAgain(a, front, [o]);
    JoinsAgain(DropStale(a, now, maxAge), DropStale(front, now, maxAge), x);
  }

  /** Exactly the orders placed less than the age ago remain, each in its place. */
  lemma {:induction false} DropStaleKeepsYoung(a: seq<Order>, o: Order, b: seq<Order>, now: nat, maxAge: nat)
    ensures DropStale(a + ([o] + b), now, maxAge)
         == DropStale(a, now, maxAge) + ((if maxAge > 0 && now < o.placedAt + maxAge then [o] else [])
                                         + DropStale(b, now, maxAge))
    ensures DropStale([], now, maxAge) == []
  {
    DropStaleJoins(a, [o] + b, now, maxAge);
    DropStaleJoins([o], b, now, maxAge);
    DropStaleSnoc([], o, now, maxAge);
    assert [] + [o] == [o];
  }

  lemma {:induction false} DropStaleOfKey(orders: seq<Order>, now: nat, maxAge: nat, k: Key)
    ensures OfKey(DropStale(orders, now, maxAge), k) == DropStale(OfKey(orders, k), now, maxAge)
  {
    if orders != [] {
      var front, last := orders[..|orders| - 1], orders[|orders| - 1];
      DropStaleOfKey(front, now, maxAge, k);
      OfKeySnoc(DropStale(front, now, maxAge), last, k);
      assert (OfKey(front, k) + [last])[..|OfKey(front, k)|] == OfKey(front, k);
    }
  }

  // ----- Reconciliation -----

  /** The orders that survive: an order stays while fewer of its key were kept than are shown. */
  function Retain(orders: seq<Order>, shown: seq<Shown>): (r: seq<Order>)
    ensures |r| <= |orders|
  {
    if orders == [] then []
    else
      var kept, last := Retain(orders[..|orders| - 1], shown), orders[|orders| - 1];
      if |OfKey(kept, KeyOf(last))| < |ShownOf(shown, KeyOf(last))| then kept + [last] else kept
  }

  /** Of each key the first ones survive, as many as are shown. */
  lemma {:induction false} RetainOfKey(orders: seq<Order>, shown: seq<Shown>, k: Key)
    ensures OfKey(Retain(orders, shown), k) == OfKey(orders, k)[..Min(|OfKey(orders, k)|, |ShownOf(shown, k)|)]
  {
    if orders != [] {
      var front, last := orders[..|orders| - 1], orders[|orders| - 1];
      RetainOfKey(front, shown, k);
      OfKeySnoc(Retain(front, shown), last, k);
      if KeyOf(last) == k {
        assert OfKey(orders, k) == OfKey(front, k) + [last];
      }
    }
  }

  lemma {:induction false} RetainAll(orders: seq<Order>, shown: seq<Shown>)
    requires forall k :: |OfKey(orders, k)| <= |ShownOf(shown, k)|
    ensures Retain(orders, shown) == orders
  {
    if orders != [] {
      var front, last := orders[..|orders| - 1], orders[|orders| - 1];
      assert orders == front + [last];
      forall k ensures |OfKey(front, k)| <= |ShownOf(shown, k)| {
        OfKeySnoc(front, last, k);
        assert |OfKey(orders, k)| <= |ShownOf(shown, k)|;
      }
      RetainAll(front, shown);
      OfKeySnoc(front, last, KeyOf(last));
      assert |OfKey(orders, KeyOf(last))| <= |ShownOf(shown, KeyOf(last))|;
    }
  }

  /** The name a re-added order gets: that of the first shown order of its key. */
  function DisplayName(shown: seq<Shown>, k: Key): string {
    if ShownOf(shown, k) == [] then k.name else ShownOf(shown, k)[0].itemName
  }

  /** It is the name of the first one shown, as shown. */
  lemma {:induction false} DisplayNameIsFirst(shown: seq<Shown>, k: Key, i: nat)
    requires i < |shown| && ShownKey(shown[i]) == k && forall j :: 0 <= j < i ==> ShownKey(shown[j]) != k
    ensures ShownOf(shown, k) != [] && DisplayName(shown, k) == shown[i].itemName
  {
    var n := |shown| - 1;
    assert shown[..n + 1] == shown;
    if i == n {
      NoneShown(shown[..n], k);
      assert ShownOf(shown, k) == [shown[n]];
    } else {
      DisplayNameIsFirst(shown[..n], k, i);
      assert ShownOf(shown, k)[0] == ShownOf(shown[..n], k)[0];
    }
  }

  lemma {:induction false} NoneShown(shown: seq<Shown>, k: Key)
    requires forall j :: 0 <= j < |shown| ==> ShownKey(shown[j]) != k
    ensures ShownOf(shown, k) == []
  {
    if shown != [] {
      NoneShown(shown[..|shown| - 1], k);
    }
  }

  function NewOrder(s: Shown, name: string, isBuy: bool, now: nat): Order {
    Order(name, s.amount, s.price, isBuy, Open, now)
  }

  function NewOrders(entries: seq<Shown>, name: string, isBuy: bool, now: nat): (r: seq<Order>)
    ensures |r| == |entries|
    ensures forall i :: 0 <= i < |r| ==> r[i] == NewOrder(entries[i], name, isBuy, now)
  {
    seq(|entries|, i requires 0 <= i < |entries| => NewOrder(entries[i], name, isBuy, now))
  }

  /** The shown orders of a key beyond those already tracked, unless its cancellation is pending. */
  function Missing(shown: seq<Shown>, k: Key, tracked: nat, suppressed: set<Key>): seq<Shown> {
    if k in suppressed || |ShownOf(shown, k)| <= tracked then [] else ShownOf(shown, k)[tracked..]
  }

  /** What a reconciliation adds for a key. */
  function Additions(own: seq<Order>, shown: seq<Shown>, k: Key, suppressed: set<Key>, now: nat): seq<Order> {
    NewOrders(Missing(shown, k, |own|, suppressed), DisplayName(shown, k), k.isBuy, now)
  }

  /** One key's list after a reconciliation. */
  function ReconcileKey(own: seq<Order>, shown: seq<Shown>, k: Key, suppressed: set<Key>, now: nat): seq<Order> {
    own[..Min(|own|, |ShownOf(shown, k)|)] + Additions(own, shown, k, suppressed, now)
  }

  /** A name whose key it is names the key's shown orders. */
  lemma DisplayNameOfKey(shown: seq<Shown>, k: Key)
    requires ShownOf(shown, k) != []
    ensures KeyFor(DisplayName(shown, k), k.isBuy) == k
  {
    ShownOfMembers(shown, k);
    assert ShownOf(shown, k)[0] in ShownOf(shown, k);
  }

  lemma NewOrdersSnoc(entries: seq<Shown>, name: string, isBuy: bool, now: nat)
    returns (front: seq<Shown>, last: Order)
    requires entries != []
    ensures front == entries[..|entries| - 1] && last == NewOrder(entries[|entries| - 1], name, isBuy, now)
    ensures NewOrders(entries, name, isBuy, now) == NewOrders(front, name, isBuy, now) + [last]
  {
    front, last := entries[..|entries| - 1], NewOrder(entries[|entries| - 1], name, isBuy, now);
  }

  /** Orders made under a key's name belong to the key. */
  lemma {:induction false} NewOrdersOfKey(entries: seq<Shown>, name: string, k: Key, now: nat, j: Key)
    requires KeyFor(name, k.isBuy) == k
    ensures OfKey(NewOrders(entries, name, k.isBuy, now), j)
         == if j == k then NewOrders(entries, name, k.isBuy, now) else []
    decreases |entries|
  {
    if entries != [] {
      var front, last := NewOrdersSnoc(entries, name, k.isBuy, now);
      NewOrdersOfKey(front, name, k, now, j);
      OfKeySnoc(NewOrders(front, name, k.isBuy, now), last, j);
    }
  }

  lemma AdditionsOfKey(own: seq<Order>, shown: seq<Shown>, k: Key, suppressed: set<Key>, now: nat, j: Key)
    ensures OfKey(Additions(own, shown, k, suppressed, now), j)
         == if j == k then Additions(own, shown, k, suppressed, now) else []
  {
    if ShownOf(shown, k) != [] {
      DisplayNameOfKey(shown, k);
      NewOrdersOfKey(Missing(shown, k, |own|, suppressed), DisplayName(shown, k), k, now, j);
    }
  }
}
