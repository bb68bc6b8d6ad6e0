/**
  What reconciliation with the in-game window (`reconcile_with_ingame` in `src/bazaar_tracker.rs`) guarantees, once
  and over whole runs.
 */
module BazaarReconcile {
  import opened Wrappers
  import opened BazaarOrders
  import opened BazaarBook

  // ----- One reconciliation -----

  /** A list of survivors followed by additions, as the window shows it. */
  ghost predicate FollowsWindow(own: seq<Order>, window: seq<Shown>, suppressed: bool, name: string, isBuy: bool,
                                unix: nat, left: seq<Order>)
  {
    && |left| == (if suppressed then Min(|own|, |window|) else |window|)
    && (forall i :: 0 <= i < |left| && i < |own| ==> left[i] == own[i])
    && (forall i :: |own| <= i < |left| ==>
          left[i] == Order(name, window[i].amount, window[i].price, isBuy, Open, unix))
  }

  lemma Follows(own: seq<Order>, window: seq<Shown>, suppressed: bool, name: string, isBuy: bool, unix: nat,
                added: seq<Order>, left: seq<Order>)
    requires left == own[..Min(|own|, |window|)] + added
    requires added == NewOrders(if suppressed || |window| <= |own| then [] else window[|own|..], name, isBuy, unix)
    ensures FollowsWindow(own, window, suppressed, name, isBuy, unix, left)
  {
    forall i | |own| <= i < |left|
      ensures left[i] == Order(name, window[i].amount, window[i].price, isBuy, Open, unix)
    {
      assert left[i] == added[i - |own|];
    }
  }

  /**
    An unsuppressed key ends as often tracked as shown, a suppressed one at most as often as before; the first
    entries are the old ones untouched, the rest carry the window's amounts and prices from that index on.
   */
  lemma {:induction false} ReconciledExactly(orders: seq<Order>, shown: seq<Shown>, suppressed: set<Key>, unix: nat,
                                             after: seq<Order>, k: Key)
    requires Reconciled(orders, shown, suppressed, unix, after)
    ensures FollowsWindow(OfKey(orders, k), ShownOf(shown, k), k in suppressed, DisplayName(shown, k), k.isBuy, unix,
                          OfKey(after, k))
  {
    var own := OfKey(orders, k);
    assert OfKey(after, k) == ReconcileKey(own, shown, k, suppressed, unix);
    Follows(own, ShownOf(shown, k), k in suppressed, DisplayName(shown, k), k.isBuy, unix,
            Additions(own, shown, k, suppressed, unix), OfKey(after, k));
  }

  // ----- How many entries a reconciliation removes -----

  ghost function Pick(keys: set<Key>): (k: Key)
    requires keys != {}
    ensures k in keys
  {
    var k :| k in keys; k
  }

  /** Over the keys, how many more orders are tracked than shown. */
  ghost function Excess(orders: seq<Order>, shown: seq<Shown>, keys: set<Key>): nat {
    if keys == {} then 0
    else
      var k := Pick(keys);
      var own, window := |OfKey(orders, k)|, |ShownOf(shown, k)|;
      (if own < window then 0 else own - window) + Excess(orders, shown, keys - {k})
  }

  ghost function CountIn(orders: seq<Order>, keys: set<Key>): nat {
    if keys == {} then 0 else |OfKey(orders, Pick(keys))| + CountIn(orders, keys - {Pick(keys)})
  }

  function Without(orders: seq<Order>, k: Key): seq<Order> {
    if orders == [] then []
    else
      var front, last := Without(orders[..|orders| - 1], k), orders[|orders| - 1];
      if KeyOf(last) == k then front else front + [last]
  }

  lemma {:induction false} WithoutOfKey(orders: seq<Order>, k: Key, j: Key)
    ensures OfKey(Without(orders, k), j) == if j == k then [] else OfKey(orders, j)
  {
    if orders != [] {
      var front, last := orders[..|orders| - 1], orders[|orders| - 1];
      WithoutOfKey(front, k, j);
      OfKeySnoc(Without(front, k), last, j);
    }
  }

  lemma {:induction false} WithoutCounts(orders: seq<Order>, k: Key)
    ensures |orders| == |Without(orders, k)| + |OfKey(orders, k)|
    ensures forall o :: o in Without(orders, k) ==> o in orders && KeyOf(o) != k
  {
    if orders != [] {
      var front, last := orders[..|orders| - 1], orders[|orders| - 1];
      WithoutCounts(front, k);
      assert orders == front + [last];
    }
  }

  lemma {:induction false} CountInSame(a: seq<Order>, b: seq<Order>, keys: set<Key>)
    requires forall k :: k in keys ==> OfKey(a, k) == OfKey(b, k)
    ensures CountIn(a, keys) == CountIn(b, keys)
    decreases keys
  {
    if keys != {} {
      CountInSame(a, b, keys - {Pick(keys)});
    }
  }

  predicate KeyedIn(orders: seq<Order>, keys: set<Key>) {
    forall i :: 0 <= i < |orders| ==> KeyOf(orders[i]) in keys
  }

  lemma {:induction false} CountAll(orders: seq<Order>, keys: set<Key>)
    requires KeyedIn(orders, keys)
    ensures |orders| == CountIn(orders, keys)
    decreases keys
  {
    if keys != {} {
      var k := Pick(keys);
      var rest := Without(orders, k);
      WithoutCounts(orders, k);
      assert KeyedIn(rest, keys - {k}) by {
        forall i | 0 <= i < |rest| ensures KeyOf(rest[i]) in keys - {k} {
          assert rest[i] in rest;
        }
      }
      CountAll(rest, keys - {k});
      forall j | j in keys - {k} ensures OfKey(rest, j) == OfKey(orders, j) {
        WithoutOfKey(orders, k, j);
      }
      CountInSame(rest, orders, keys - {k});
    }
  }

  lemma {:induction false} RetainedIn(orders: seq<Order>, shown: seq<Shown>, keys: set<Key>)
    ensures CountIn(Retain(orders, shown), keys) + Excess(orders, shown, keys) == CountIn(orders, keys)
    decreases keys
  {
    if keys != {} {
      RetainOfKey(orders, shown, Pick(keys));
      RetainedIn(orders, shown, keys - {Pick(keys)});
    }
  }

  lemma {:induction false} RetainKeys(orders: seq<Order>, shown: seq<Shown>, keys: set<Key>)
    requires KeyedIn(orders, keys)
    ensures KeyedIn(Retain(orders, shown), keys)
  {
    if orders != [] {
      RetainKeys(orders[..|orders| - 1], shown, keys);
    }
  }

  /** The removed entries are, summed over all keys, those tracked beyond what is shown. */
  lemma RemovedIsExcess(orders: seq<Order>, shown: seq<Shown>, keys: set<Key>)
    requires KeyedIn(orders, keys)
    ensures |orders| - |Retain(orders, shown)| == Excess(orders, shown, keys)
  {
    CountAll(orders, keys);
    RetainKeys(orders, shown, keys);
    CountAll(Retain(orders, shown), keys);
    RetainedIn(orders, shown, keys);
  }

  // ----- Reconciling again -----

  lemma NothingAdded(orders: seq<Order>, added: seq<Order>)
    ensures orders + added == orders <==> forall k :: OfKey(added, k) == []
  {
    if added == [] {
      assert orders + added == orders;
    } else {
      assert |orders + added| > |orders|;
      OfKeyMembers(added, KeyOf(added[0]));
      assert added[0] in OfKey(added, KeyOf(added[0]));
    }
  }

  lemma KeptAll(orders: seq<Order>, shown: seq<Shown>, s: set<Key>, unix: nat, after: seq<Order>)
    requires Reconciled(orders, shown, s, unix, after)
    ensures Retain(after, shown) == after
  {
    forall k ensures |OfKey(after, k)| <= |ShownOf(shown, k)| {
      ReconciledExactly(orders, shown, s, unix, after, k);
    }
    RetainAll(after, shown);
  }

  lemma TrackedAfter(orders: seq<Order>, shown: seq<Shown>, suppressed: set<Key>, unix: nat, after: seq<Order>, k: Key)
    requires Reconciled(orders, shown, suppressed, unix, after)
    ensures var own, window := |OfKey(orders, k)|, |ShownOf(shown, k)|;
            |OfKey(after, k)| == if k in suppressed then Min(own, window) else window
  {
    ReconciledExactly(orders, shown, suppressed, unix, after, k);
  }

  /** What a second reconciliation adds for a key. */
  lemma AddedAgain(orders: seq<Order>, shown: seq<Shown>, suppressed: set<Key>, unix: nat, after: seq<Order>,
                   suppressed': set<Key>, unix': nat, added: seq<Order>, k: Key)
    requires Reconciled(orders, shown, suppressed, unix, after)
    requires Reconciled(after, shown, suppressed', unix', after + added)
    ensures OfKey(added, k) != [] <==>
            k in suppressed && |OfKey(orders, k)| < |ShownOf(shown, k)| && k !in suppressed'
  {
    TrackedAfter(orders, shown, suppressed, unix, after, k);
    TrackedAfter(after, shown, suppressed', unix', after + added, k);
    OfKeyJoins(after, added, k);
  }

  /**
    Reconciling again with the same window removes nothing. It changes nothing exactly when no key that was
    suppressed the first time, and is tracked less often than shown, has since lost its suppression.
   */
  lemma {:induction false} ReconcilingAgain(s: State, shown: seq<Shown>, t: Moment, s': State, u: Moment, s'': State)
    requires Step(s, Reconcile(shown), t, s') && Step(s', Reconcile(shown), u, s'')
    ensures |s'.orders| == |Retain(s'.orders, shown)|
    ensures s''.orders == s'.orders <==>
            forall k :: k in s'.pending && |OfKey(s.orders, k)| < |ShownOf(shown, k)| ==> k in s''.pending
  {
    KeptAll(s.orders, shown, s'.pending.Keys, t.unix, s'.orders);
    var added := s''.orders[|s'.orders|..];
    assert s''.orders == s'.orders + added;
    forall k
      ensures OfKey(added, k) != [] <==>
              k in s'.pending && |OfKey(s.orders, k)| < |ShownOf(shown, k)| && k !in s''.pending
    {
      AddedAgain(s.orders, shown, s'.pending.Keys, t.unix, s'.orders, s''.pending.Keys, u.unix, added, k);
    }
    NothingAdded(s'.orders, added);
  }

  // ----- Suppression over runs -----

  ghost predicate Monotone(times: seq<Moment>) {
    forall i, j :: 0 <= i <= j < |times| ==> times[i].instant <= times[j].instant
  }

  /** The event asks for the cancellation of the key: by itself, or by clearing an order of it. */
  ghost predicate Asks(s: State, e: Event, k: Key) {
    (e.Cancel? && e.key == k) || (e.Clear? && OfKey(s.orders, k) != [])
  }

  ghost predicate AsksAt(states: seq<State>, events: seq<Event>, k: Key, i: nat)
    requires |states| == |events| + 1
  {
    i < |events| && Asks(states[i], events[i], k)
  }

  /** The table's entry is the instant of a request. */
  ghost predicate Stamped(states: seq<State>, events: seq<Event>, times: seq<Moment>, k: Key, n: nat)
    requires |states| == |events| + 1 && |times| == |events| && n <= |events|
  {
    k in states[n].pending ==>
      exists i: nat :: i < n && AsksAt(states, events, k, i) && times[i].instant == states[n].pending[k]
  }

  /** Of a request made at `i`, the table holds a stamp no older, unless 30 seconds have gone by. */
  ghost predicate Covered(states: seq<State>, times: seq<Moment>, k: Key, i: nat, n: nat)
    requires |states| == |times| + 1 && i < n <= |times|
  {
    if k in states[n].pending then times[i].instant <= states[n].pending[k]
    else times[i].instant + WINDOW <= times[n - 1].instant
  }

  lemma StillPendingExactly(pending: map<Key, nat>, instant: nat, k: Key)
    ensures k in StillPending(pending, instant) <==> k in pending && instant < pending[k] + WINDOW
  {
  }

  lemma AsksMarks(s: State, e: Event, t: Moment, s': State, k: Key)
    requires Step(s, e, t, s')
    ensures Asks(s, e, k) ==> k in s'.pending && s'.pending[k] == t.instant
    ensures !Asks(s, e, k) && !e.Reconcile? ==>
            (k in s'.pending <==> k in s.pending) && (k in s.pending ==> s'.pending[k] == s.pending[k])
  {
    if e.Clear? {
      BookOfRepresents(s.orders);
      BookKeys(s.orders, BookOf(s.orders));
      assert OfKey(s.orders, k) == Own(BookOf(s.orders), k);
    }
  }

  lemma {:induction false} StampedKept(states: seq<State>, events: seq<Event>, times: seq<Moment>, k: Key, n: nat)
    requires IsRun(states, events, times) && n <= |events|
    requires k !in states[0].pending
    ensures Stamped(states, events, times, k, n)
  {
    if n > 0 && k in states[n].pending {
      var m := n - 1;
      StampedKept(states, events, times, k, m);
      AsksMarks(states[m], events[m], times[m], states[n], k);
      if !AsksAt(states, events, k, m) {
        var i: nat :| i < m && AsksAt(states, events, k, i) && times[i].instant == states[m].pending[k];
        assert i < n;
      }
    }
  }

  /** A later request only renews the stamp, and other operations but a reconciliation leave it alone. */
  lemma CoveredByOther(s: State, e: Event, t: Moment, s': State, k: Key, asked: nat, clock: nat)
    requires Step(s, e, t, s') && !e.Reconcile? && asked <= clock <= t.instant
    requires if k in s.pending then asked <= s.pending[k] else asked + WINDOW <= clock
    ensures if k in s'.pending then asked <= s'.pending[k] else asked + WINDOW <= t.instant
  {
    AsksMarks(s, e, t, s', k);
  }

  /** A reconciliation drops a stamp only when its 30 seconds are over. */
  lemma CoveredByReconcile(s: State, e: Event, t: Moment, s': State, k: Key, asked: nat, clock: nat)
    requires Step(s, e, t, s') && e.Reconcile? && asked <= clock <= t.instant
    requires if k in s.pending then asked <= s.pending[k] else asked + WINDOW <= clock
    ensures if k in s'.pending then asked <= s'.pending[k] else asked + WINDOW <= t.instant
  {
    StillPendingExactly(s.pending, t.instant, k);
  }

  lemma {:induction false} CoveredKept(states: seq<State>, events: seq<Event>, times: seq<Moment>, k: Key, i: nat,
                                       n: nat)
    requires IsRun(states, events, times) && Monotone(times) && i < n <= |events|
    requires AsksAt(states, events, k, i)
    ensures Covered(states, times, k, i, n)
    decreases n
  {
    var m := n - 1;
    assert Step(states[m], events[m], times[m], states[n]);
    if i == m {
      AsksMarks(states[m], events[m], times[m], states[n], k);
    } else {
      CoveredKept(states, events, times, k, i, m);
      var asked, clock := times[i].instant, times[m - 1].instant;
      if events[m].Reconcile? {
        CoveredByReconcile(states[m], events[m], times[m], states[n], k, asked, clock);
      } else {
        CoveredByOther(states[m], events[m], times[m], states[n], k, asked, clock);
      }
    }
  }

  /**
    Over every run from an empty table: a reconciliation finds a key suppressed exactly when its cancellation was
    asked for less than 30 seconds before.
   */
  lemma SuppressedExactly(states: seq<State>, events: seq<Event>, times: seq<Moment>, k: Key, n: nat)
    requires IsRun(states, events, times) && Monotone(times) && k !in states[0].pending
    requires n < |events| && events[n].Reconcile?
    ensures k in states[n + 1].pending <==>
            exists i: nat ::
              i < n && AsksAt(states, events, k, i) && times[n].instant < times[i].instant + 30_000_000_000
  {
    StampedKept(states, events, times, k, n);
    StillPendingExactly(states[n].pending, times[n].instant, k);
    forall i: nat | i < n && AsksAt(states, events, k, i)
      ensures Covered(states, times, k, i, n)
    {
      CoveredKept(states, events, times, k, i, n);
    }
  }

  lemma SuppressedShrinks(s: State, shown: seq<Shown>, t: Moment, s': State, k: Key)
    requires Step(s, Reconcile(shown), t, s') && k in s'.pending
    ensures OfKey(s'.orders, k) == OfKey(s.orders, k)[..Min(|OfKey(s.orders, k)|, |ShownOf(shown, k)|)]
  {
    assert OfKey(s'.orders, k) == ReconcileKey(OfKey(s.orders, k), shown, k, s'.pending.Keys, t.unix);
  }

  /** So within 30 seconds of the request no reconciliation adds an order of the key: its list only loses its tail. */
  lemma {:induction false} CancelledStaysAway(states: seq<State>, events: seq<Event>, times: seq<Moment>, k: Key,
                                              i: nat, n: nat)
    requires IsRun(states, events, times) && Monotone(times) && k !in states[0].pending
    requires i < n < |events| && AsksAt(states, events, k, i) && times[n].instant < times[i].instant + 30_000_000_000
    requires events[n].Reconcile?
    ensures OfKey(states[n + 1].orders, k) <= OfKey(states[n].orders, k)
    ensures |OfKey(states[n + 1].orders, k)| == Min(|OfKey(states[n].orders, k)|, |ShownOf(events[n].shown, k)|)
  {
    SuppressedExactly(states, events, times, k, n);
    SuppressedShrinks(states[n], events[n].shown, times[n], states[n + 1], k);
  }

  // ----- Statuses -----

  predicate Known(own: seq<Order>) { forall o :: o in own ==> !o.status.Other? }

  lemma KnownPart(orders: seq<Order>, k: Key)
    requires Known(orders)
    ensures Known(OfKey(orders, k))
  {
    OfKeyMembers(orders, k);
  }

  lemma KnownWhole(orders: seq<Order>)
    requires forall k :: Known(OfKey(orders, k))
    ensures Known(orders)
  {
    forall o | o in orders ensures !o.status.Other? {
      OfKeyMembers(orders, KeyOf(o));
      assert Known(OfKey(orders, KeyOf(o)));
    }
  }

  lemma {:induction false} DropStaleKnown(own: seq<Order>, now: nat, maxAge: nat)
    requires Known(own)
    ensures Known(DropStale(own, now, maxAge))
  {
    if own != [] {
      DropStaleKnown(own[..|own| - 1], now, maxAge);
    }
  }

  /** No operation invents a status: orders that are open or filled stay so. */
  lemma StepKeepsKnown(s: State, e: Event, t: Moment, s': State)
    requires Step(s, e, t, s') && Known(s.orders)
    ensures Known(s'.orders)
  {
    match e
    case RemoveStale(maxAge) =>
      DropStaleKnown(s.orders, t.unix, maxAge);
    case Reconcile(shown) =>
      forall k ensures Known(OfKey(s'.orders, k)) {
        assert OfKey(s'.orders, k) == ReconcileKey(OfKey(s.orders, k), shown, k, s'.pending.Keys, t.unix);
        KnownPart(s.orders, k);
      }
      KnownWhole(s'.orders);
    case _ =>
  }

  /** And with such statuses the removed order is the newest of its key. */
  lemma KnownDropsLast(own: seq<Order>)
    requires Known(own) && own != []
    ensures DropNewest(own) == own[..|own| - 1] && NewestKnown(own) == Some(own[|own| - 1])
  {
    assert own[|own| - 1] in own;
  }

  lemma {:induction false} RunKeepsKnown(states: seq<State>, events: seq<Event>, times: seq<Moment>, n: nat)
    requires IsRun(states, events, times) && n <= |events| && Known(states[0].orders)
    ensures Known(states[n].orders)
  {
    if n > 0 {
      RunKeepsKnown(states, events, times, n - 1);
      StepKeepsKnown(states[n - 1], events[n - 1], times[n - 1], states[n]);
    }
  }

  /** The removed order was the last of its key's list, or the list was empty. */
  predicate TakesNewest(own: seq<Order>, removed: Option<Order>, left: seq<Order>) {
    if own == [] then removed == None && left == []
    else removed == Some(own[|own| - 1]) && left == own[..|own| - 1]
  }

  lemma KnownRemoval(orders: seq<Order>, k: Key)
    requires Known(orders)
    ensures TakesNewest(OfKey(orders, k), Removed(orders, k), OfKey(Remove(orders, k), k))
  {
    RemoveOfKey(orders, k, k);
    KnownPart(orders, k);
    if OfKey(orders, k) != [] {
      KnownDropsLast(OfKey(orders, k));
    }
  }

  lemma KnownRemovalStep(s: State, e: Event, t: Moment, s': State)
    requires Step(s, e, t, s') && e.RemoveOne? && Known(s.orders)
    ensures TakesNewest(OfKey(s.orders, e.key), Removed(s.orders, e.key), OfKey(s'.orders, e.key))
  {
    KnownRemoval(s.orders, e.key);
  }

  /** Over every run that starts with open and filled orders, removing takes the newest order of the key. */
  lemma RemovalTakesNewest(states: seq<State>, events: seq<Event>, times: seq<Moment>, n: nat)
    requires IsRun(states, events, times) && n < |events| && Known(states[0].orders)
    requires events[n].RemoveOne?
    ensures TakesNewest(OfKey(states[n].orders, events[n].key), Removed(states[n].orders, events[n].key),
                        OfKey(states[n + 1].orders, events[n].key))
  {
    RunKeepsKnown(states, events, times, n);
    KnownRemovalStep(states[n], events[n], times[n], states[n + 1]);
  }
}
