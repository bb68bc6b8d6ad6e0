/**
  Runs of `BazaarOrderTracker` in `src/bazaar_tracker.rs`.

  The tracker keeps one flat list of orders and a table of requested cancellations. Seen key by key the list is a
  book, a map from keys to order lists, and every operation acts on the book. The hash order in which a
  reconciliation visits its keys decides only how the additions of different keys interleave.
 */
module BazaarBook {
  import opened BazaarOrders

  const NANOS: nat := 1_000_000_000
  const CANCEL_SUPPRESS_SECS: nat := 30
  const WINDOW: nat := CANCEL_SUPPRESS_SECS * NANOS

  /** When an operation happens: the monotone clock in nanoseconds, and the Unix time in seconds. */
  datatype Moment = Moment(instant: nat, unix: nat)

  datatype State = State(orders: seq<Order>, pending: map<Key, nat>)

  datatype Event =
    | Cancel(key: Key)
    | Add(item: string, amount: nat, price: real, isBuy: bool)
    | MarkFilled(key: Key)
    | RemoveOne(key: Key)
    | RemoveStale(maxAge: nat)
    | Clear
    | Reconcile(shown: seq<Shown>)

  /** The cancellations still pending: younger than 30 whole seconds. */
  function StillPending(pending: map<Key, nat>, instant: nat): map<Key, nat> {
    map k | k in pending && (if instant < pending[k] then 0 else (instant - pending[k]) / NANOS) < CANCEL_SUPPRESS_SECS
      :: pending[k]
  }

  function KeysOf(orders: seq<Order>): set<Key> { set o | o in orders :: KeyOf(o) }

  function ShownKeys(shown: seq<Shown>): set<Key> { set s | s in shown :: ShownKey(s) }

  function MarkAll(pending: map<Key, nat>, keys: set<Key>, instant: nat): map<Key, nat> {
    map k | k in pending.Keys + keys :: if k in keys then instant else pending[k]
  }

  /** A reconciliation: the survivors come first, and every key ends with its own reconciled list. */
  ghost predicate Reconciled(orders: seq<Order>, shown: seq<Shown>, suppressed: set<Key>, unix: nat, after: seq<Order>)
  {
    && Retain(orders, shown) <= after
    && forall k :: OfKey(after, k) == ReconcileKey(OfKey(orders, k), shown, k, suppressed, unix)
  }

  ghost predicate Step(s: State, e: Event, t: Moment, s': State) {
    match e
    case Cancel(k) => s' == s.(pending := s.pending[k := t.instant])
    case Add(item, amount, price, isBuy) =>
      s' == s.(orders := s.orders + [Order(item, amount, price, isBuy, Open, t.unix)])
    case MarkFilled(k) => s' == s.(orders := Fill(s.orders, k))
    case RemoveOne(k) => s' == s.(orders := Remove(s.orders, k))
    case RemoveStale(maxAge) => s' == s.(orders := DropStale(s.orders, t.unix, maxAge))
    case Clear => s' == State([], MarkAll(s.pending, KeysOf(s.orders), t.instant))
    case Reconcile(shown) =>
      && s'.pending == StillPending(s.pending, t.instant)
      && Reconciled(s.orders, shown, s'.pending.Keys, t.unix, s'.orders)
  }

  /** `states` is a run: `events[i]` happens at `times[i]` and leads from `states[i]` to `states[i + 1]`. */
  ghost predicate IsRun(states: seq<State>, events: seq<Event>, times: seq<Moment>) {
    && |states| == |events| + 1 && |times| == |events|
    && forall i :: 0 <= i < |events| ==> Step(states[i], events[i], times[i], states[i + 1])
  }

  // ----- The book -----

  type Book = map<Key, seq<Order>>

  function Own(b: Book, k: Key): seq<Order> { if k in b then b[k] else [] }

  function Put(b: Book, k: Key, own: seq<Order>): Book { if own == [] then b - {k} else b[k := own] }

  function BookStep(b: Book, e: Event, t: Moment, suppressed: set<Key>): Book {
    match e
    case Cancel(_) => b
    case Add(item, amount, price, isBuy) =>
      var o := Order(item, amount, price, isBuy, Open, t.unix);
      Put(b, KeyOf(o), Own(b, KeyOf(o)) + [o])
    case MarkFilled(k) => Put(b, k, FillNewest(Own(b, k)))
    case RemoveOne(k) => Put(b, k, DropNewest(Own(b, k)))
    case RemoveStale(maxAge) =>
      map k | k in b && DropStale(b[k], t.unix, maxAge) != [] :: DropStale(b[k], t.unix, maxAge)
    case Clear => map[]
    case Reconcile(shown) =>
      map k | k in b.Keys + ShownKeys(shown) && ReconcileKey(Own(b, k), shown, k, suppressed, t.unix) != []
        :: ReconcileKey(Own(b, k), shown, k, suppressed, t.unix)
  }

  function PendingStep(pending: map<Key, nat>, b: Book, e: Event, t: Moment): map<Key, nat> {
    match e
    case Cancel(k) => pending[k := t.instant]
    case Clear => MarkAll(pending, b.Keys, t.instant)
    case Reconcile(_) => StillPending(pending, t.instant)
    case _ => pending
  }

  /** The book holds exactly the non-empty per-key lists. */
  ghost predicate Represents(orders: seq<Order>, b: Book) {
    && (forall k :: OfKey(orders, k) == Own(b, k))
    && forall k :: k in b ==> b[k] != []
  }

  lemma BookKeys(orders: seq<Order>, b: Book)
    requires Represents(orders, b)
    ensures KeysOf(orders) == b.Keys
  {
    forall k ensures k in KeysOf(orders) <==> k in b.Keys {
      OfKeyMembers(orders, k);
      assert OfKey(orders, k) == Own(b, k);
      if k in KeysOf(orders) {
        var o :| o in orders && KeyOf(o) == k;
        assert o in OfKey(orders, k);
      }
      if k in b {
        assert b[k][0] in OfKey(orders, k);
      }
    }
  }

  lemma ShownHasKey(shown: seq<Shown>, k: Key)
    ensures ShownOf(shown, k) != [] ==> k in ShownKeys(shown)
  {
    ShownOfMembers(shown, k);
    if ShownOf(shown, k) != [] {
      assert ShownOf(shown, k)[0] in ShownOf(shown, k);
    }
  }

  lemma ReconcileRefines(s: State, shown: seq<Shown>, t: Moment, s': State, b: Book)
    requires Represents(s.orders, b) && Step(s, Reconcile(shown), t, s')
    ensures Represents(s'.orders, BookStep(b, Reconcile(shown), t, s'.pending.Keys))
  {
    var after := BookStep(b, Reconcile(shown), t, s'.pending.Keys);
    forall k ensures OfKey(s'.orders, k) == Own(after, k) {
      assert OfKey(s.orders, k) == Own(b, k);
      ShownHasKey(shown, k);
    }
  }

  lemma PutRefines(orders: seq<Order>, b: Book, k: Key, own: seq<Order>, after: seq<Order>)
    requires Represents(orders, b)
    requires OfKey(after, k) == own && forall j :: j != k ==> OfKey(after, j) == OfKey(orders, j)
    ensures Represents(after, Put(b, k, own))
  {
  }

  /** Every operation on the flat list is the same operation on the book. */
  lemma StepRefines(s: State, e: Event, t: Moment, s': State, b: Book)
    requires Represents(s.orders, b) && Step(s, e, t, s')
    ensures s'.pending == PendingStep(s.pending, b, e, t)
    ensures Represents(s'.orders, BookStep(b, e, t, s'.pending.Keys))
  {
    match e
    case Cancel(_) =>
    case Add(item, amount, price, isBuy) =>
      var o := Order(item, amount, price, isBuy, Open, t.unix);
      forall j { OfKeySnoc(s.orders, o, j); }
      PutRefines(s.orders, b, KeyOf(o), Own(b, KeyOf(o)) + [o], s'.orders);
    case MarkFilled(k) =>
      forall j { FillOfKey(s.orders, k, j); }
      PutRefines(s.orders, b, k, FillNewest(Own(b, k)), s'.orders);
    case RemoveOne(k) =>
      forall j { RemoveOfKey(s.orders, k, j); }
      PutRefines(s.orders, b, k, DropNewest(Own(b, k)), s'.orders);
    case RemoveStale(maxAge) =>
      forall k { DropStaleOfKey(s.orders, t.unix, maxAge, k); }
    case Clear =>
      BookKeys(s.orders, b);
    case Reconcile(shown) =>
      ReconcileRefines(s, shown, t, s', b);
  }

  function PendingRun(pending: map<Key, nat>, b: Book, events: seq<Event>, times: seq<Moment>): (map<Key, nat>, Book)
    requires |times| == |events|
  {
    if events == [] then (pending, b)
    else
      var n := |events| - 1;
      var before := PendingRun(pending, b, events[..n], times[..n]);
      var pending' := PendingStep(before.0, before.1, events[n], times[n]);
      (pending', BookStep(before.1, events[n], times[n], pending'.Keys))
  }

  /** Over whole runs the flat list refines the book: whatever the hash order, the events decide every key's list. */
  lemma {:induction false} RunsRefine(states: seq<State>, events: seq<Event>, times: seq<Moment>, b: Book)
    requires IsRun(states, events, times) && Represents(states[0].orders, b)
    ensures var end := PendingRun(states[0].pending, b, events, times);
            states[|events|].pending == end.0 && Represents(states[|events|].orders, end.1)
    decreases |events|
  {
    if events != [] {
      var n := |events| - 1;
      RunsRefine(states[..|states| - 1], events[..n], times[..n], b);
      var before := PendingRun(states[0].pending, b, events[..n], times[..n]);
      StepRefines(states[n], events[n], times[n], states[n + 1], before.1);
    }
  }

  function BookOf(orders: seq<Order>): Book { map k | k in KeysOf(orders) :: OfKey(orders, k) }

  lemma BookOfRepresents(orders: seq<Order>)
    ensures Represents(orders, BookOf(orders))
  {
    forall k ensures OfKey(orders, k) == Own(BookOf(orders), k) && (k in KeysOf(orders) ==> OfKey(orders, k) != []) {
      OfKeyMembers(orders, k);
      if k in KeysOf(orders) {
        var o :| o in orders && KeyOf(o) == k;
        assert o in OfKey(orders, k);
      }
      if OfKey(orders, k) != [] {
        assert OfKey(orders, k)[0] in OfKey(orders, k);
      }
    }
  }

  /** Two runs with the same events from the same start track the same orders under every key, in the same order. */
  lemma HashOrderIsInvisible(states: seq<State>, others: seq<State>, events: seq<Event>, times: seq<Moment>, k: Key)
    requires IsRun(states, events, times) && IsRun(others, events, times) && states[0] == others[0]
    ensures OfKey(states[|events|].orders, k) == OfKey(others[|events|].orders, k)
    ensures states[|events|].pending == others[|events|].pending
  {
    var b := BookOf(states[0].orders);
    BookOfRepresents(states[0].orders);
    RunsRefine(states, events, times, b);
    RunsRefine(others, events, times, b);
    var end := PendingRun(states[0].pending, b, events, times).1;
    assert OfKey(states[|events|].orders, k) == Own(end, k) == OfKey(others[|events|].orders, k);
  }
}
