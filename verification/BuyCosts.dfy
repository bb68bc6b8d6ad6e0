/**
  The buy-cost table of `BazaarOrderTracker` in `src/bazaar_tracker.rs`: collected buy orders of an item blend into
  one weighted-average price, which the next collected sell offer of the item takes. Prices are exact reals.
 */
module BuyCosts {
  import opened Wrappers
  import opened BazaarOrders

  function Times(price: real, amount: nat): real { price * amount as real }

  function Average(total: real, amount: nat): real { if amount > 0 then total / amount as real else 0.0 }

  lemma TimesAverage(total: real, amount: nat)
    requires amount > 0
    ensures Times(Average(total, amount), amount) == total
  {
  }

  lemma TimesNothing(price: real)
    ensures Times(price, 0) == 0.0
  {
  }

  lemma TimesSum(price: real, a: nat, b: nat)
    ensures Times(price, a + b) == Times(price, a) + Times(price, b)
  {
    assert (a + b) as real == a as real + b as real;
  }

  lemma TimesMonotone(p: real, q: real, amount: nat)
    requires p <= q
    ensures Times(p, amount) <= Times(q, amount)
  {
    assert (q - p) * amount as real >= 0.0;
  }

  lemma TimesStrict(p: real, q: real, amount: nat)
    requires p < q && amount > 0
    ensures Times(p, amount) < Times(q, amount)
  {
    var n := amount as real;
    assert (q - p) * n > 0.0;
    assert q * n == p * n + (q - p) * n;
  }

  /** A stored cost, and equally one recording: so many units at a price each. */
  datatype Cost = Cost(price: real, amount: nat) {
    function Total(): real { Times(price, amount) }
  }

  function Blend(stored: Cost, bought: Cost): Cost {
    var combined := stored.amount + bought.amount;
    Cost(Average(stored.Total() + bought.Total(), combined), combined)
  }

  function StoredOr(costs: map<string, Cost>, key: string): Cost { if key in costs then costs[key] else Cost(0.0, 0) }

  class BuyCostTable {
    var costs: map<string, Cost>

    method RecordBuyCost(item: string, price: real, amount: nat)
      modifies this
      ensures costs == After(old(costs), Record(NormalizeForMatch(item), Cost(price, amount)))
    {
      var key := NormalizeForMatch(item);
      var entry := StoredOr(costs, key);
      var oldTotal := Times(entry.price, entry.amount);
      var newTotal := Times(price, amount);
      var combined := entry.amount + amount;
      costs := costs[key := Cost(Average(oldTotal + newTotal, combined), combined)];
    }

    method TakeBuyCost(item: string) returns (taken: Option<Cost>)
      modifies this
      ensures costs == After(old(costs), Take(NormalizeForMatch(item)))
      ensures taken == if NormalizeForMatch(item) in old(costs) then Some(old(costs)[NormalizeForMatch(item)]) else None
    {
      var key := NormalizeForMatch(item);
      taken := if key in costs then Some(costs[key]) else None;
      costs := costs - {key};
    }
  }

  // ----- Runs -----

  /** What happens to the table, by normalised item name. */
  datatype Event = Record(key: string, bought: Cost) | Take(key: string)

  function After(costs: map<string, Cost>, e: Event): map<string, Cost> {
    match e
    case Record(key, bought) => costs[key := Blend(StoredOr(costs, key), bought)]
    case Take(key) => costs - {key}
  }

  function Run(events: seq<Event>): map<string, Cost> {
    if events == [] then map[] else After(Run(events[..|events| - 1]), events[|events| - 1])
  }

  /** The recordings of an item since it was last taken, oldest first. */
  function Since(events: seq<Event>, key: string): seq<Cost> {
    if events == [] then []
    else
      var before, e := Since(events[..|events| - 1], key), events[|events| - 1];
      if e.key != key then before
      else if e.Take? then []
      else before + [e.bought]
  }

  function Units(bought: seq<Cost>): nat {
    if bought == [] then 0 else Units(bought[..|bought| - 1]) + bought[|bought| - 1].amount
  }

  function Spent(bought: seq<Cost>): real {
    if bought == [] then 0.0 else Spent(bought[..|bought| - 1]) + bought[|bought| - 1].Total()
  }

  lemma TotalsSnoc(bought: seq<Cost>, c: Cost)
    ensures Units(bought + [c]) == Units(bought) + c.amount && Spent(bought + [c]) == Spent(bought) + c.Total()
  {
    assert (bought + [c])[..|bought|] == bought;
  }

  /** Blending loses no unit and no coin. */
  lemma BlendConserves(stored: Cost, bought: Cost)
    ensures var c := Blend(stored, bought);
            && c.amount == stored.amount + bought.amount && c.Total() == stored.Total() + bought.Total()
            && (c.amount == 0 ==> c.price == 0.0)
  {
    if stored.amount + bought.amount > 0 {
      TimesAverage(stored.Total() + bought.Total(), stored.amount + bought.amount);
    } else {
      TimesNothing(stored.price);
      TimesNothing(bought.price);
      TimesNothing(0.0);
    }
  }

  /** What is stored for an item is what the recordings come to. */
  predicate Stores(costs: map<string, Cost>, key: string, since: seq<Cost>) {
    && (key in costs <==> since != [])
    && (key in costs ==>
          var c := costs[key];
          c.amount == Units(since) && c.Total() == Spent(since) && (c.amount == 0 ==> c.price == 0.0))
  }

  lemma RecordingStores(costs: map<string, Cost>, key: string, since: seq<Cost>, bought: Cost)
    requires Stores(costs, key, since)
    ensures Stores(After(costs, Record(key, bought)), key, since + [bought])
  {
    TimesNothing(0.0);
    BlendConserves(StoredOr(costs, key), bought);
    TotalsSnoc(since, bought);
  }

  /**
    Over every run: an item has a stored cost exactly when it was recorded since it was last taken; the stored
    amount is then the sum of the recorded amounts, and price times amount the sum of the recorded costs.
   */
  lemma {:induction false} StoredIsRecorded(events: seq<Event>, key: string)
    ensures Stores(Run(events), key, Since(events, key))
  {
    if events != [] {
      var front, e := events[..|events| - 1], events[|events| - 1];
      StoredIsRecorded(front, key);
      if e.key == key && e.Record? {
        RecordingStores(Run(front), key, Since(front, key), e.bought);
      }
    }
  }

  // ----- The order of recordings does not matter -----

  lemma WithoutSnoc(bought: seq<Cost>, i: nat)
    requires i < |bought| - 1
    ensures var front := bought[..|bought| - 1];
            bought[..i] + bought[i + 1..] == front[..i] + front[i + 1..] + [bought[|bought| - 1]]
  {
  }

  lemma {:induction false} TotalsWithout(bought: seq<Cost>, i: nat)
    requires i < |bought|
    ensures Units(bought) == Units(bought[..i] + bought[i + 1..]) + bought[i].amount
    ensures Spent(bought) == Spent(bought[..i] + bought[i + 1..]) + bought[i].Total()
    decreases |bought|
  {
    var front, last := bought[..|bought| - 1], bought[|bought| - 1];
    if i < |front| {
      TotalsWithout(front, i);
      TotalsSnoc(front[..i] + front[i + 1..], last);
      WithoutSnoc(bought, i);
    } else {
      assert bought[..i] + bought[i + 1..] == front;
    }
  }

  lemma TakeOut(b: seq<Cost>, c: Cost, bag: multiset<Cost>)
    returns (i: nat)
    requires multiset(b) == bag + multiset{c}
    ensures i < |b| && b[i] == c && multiset(b[..i] + b[i + 1..]) == bag
  {
    assert c in multiset(b);
    i :| 0 <= i < |b| && b[i] == c;
    var front, back := b[..i], b[i + 1..];
    assert b == front + [b[i]] + back;
    assert multiset(b) == multiset(front) + multiset{c} + multiset(back);
    assert multiset(front + back) == multiset(front) + multiset(back) == multiset(b) - multiset{c};
    assert bag == multiset(b) - multiset{c};
  }

  lemma {:induction false} TotalsOfPermutation(a: seq<Cost>, b: seq<Cost>)
    requires multiset(a) == multiset(b)
    ensures Units(a) == Units(b) && Spent(a) == Spent(b)
    decreases |a|
  {
    SameBag(a, b);
    if a != [] {
      var front, last := a[..|a| - 1], a[|a| - 1];
      assert a == front + [last];
      var i := TakeOut(b, last, multiset(front));
      TotalsOfPermutation(front, b[..i] + b[i + 1..]);
      TotalsWithout(b, i);
    }
  }

  lemma SameCost(c: Cost, d: Cost)
    requires c.amount == d.amount && c.Total() == d.Total()
    requires c.amount == 0 ==> c.price == d.price
    ensures c == d
  {
    if c.price < d.price {
      TimesStrict(c.price, d.price, c.amount);
    } else if d.price < c.price {
      TimesStrict(d.price, c.price, c.amount);
    }
  }

  lemma SameBag(a: seq<Cost>, b: seq<Cost>)
    requires multiset(a) == multiset(b)
    ensures |a| == |b|
  {
    assert |multiset(a)| == |a| && |multiset(b)| == |b|;
  }

  /** Two runs whose recordings since the last take are the same in some order store the same cost. */
  lemma {:induction false} OrderDoesNotMatter(events: seq<Event>, others: seq<Event>, key: string)
    requires multiset(Since(events, key)) == multiset(Since(others, key))
    ensures key in Run(events) <==> key in Run(others)
    ensures key in Run(events) ==> Run(events)[key] == Run(others)[key]
  {
    StoredIsRecorded(events, key);
    StoredIsRecorded(others, key);
    SameBag(Since(events, key), Since(others, key));
    TotalsOfPermutation(Since(events, key), Since(others, key));
    if key in Run(events) {
      SameCost(Run(events)[key], Run(others)[key]);
    }
  }

  // ----- The average is an average -----

  predicate PricedWithin(bought: seq<Cost>, low: real, high: real) {
    forall i :: 0 <= i < |bought| && bought[i].amount > 0 ==> low <= bought[i].price <= high
  }

  lemma {:induction false} SpentBounds(bought: seq<Cost>, low: real, high: real)
    requires PricedWithin(bought, low, high)
    ensures Times(low, Units(bought)) <= Spent(bought) <= Times(high, Units(bought))
  {
    if bought == [] {
      TimesNothing(low);
      TimesNothing(high);
    } else {
      var front, last := bought[..|bought| - 1], bought[|bought| - 1];
      SpentBounds(front, low, high);
      TimesSum(low, Units(front), last.amount);
      TimesSum(high, Units(front), last.amount);
      if last.amount > 0 {
        TimesMonotone(low, last.price, last.amount);
        TimesMonotone(last.price, high, last.amount);
      } else {
        TimesNothing(low);
        TimesNothing(high);
        TimesNothing(last.price);
      }
    }
  }

  lemma TotalBetween(c: Cost, low: real, high: real)
    requires c.amount > 0 && Times(low, c.amount) <= c.Total() <= Times(high, c.amount)
    ensures low <= c.price <= high
  {
    if c.price < low {
      TimesStrict(c.price, low, c.amount);
    } else if high < c.price {
      TimesStrict(high, c.price, c.amount);
    }
  }

  /** A stored price of a positive amount lies between the prices recorded with a positive amount. */
  lemma PriceIsBetween(events: seq<Event>, key: string, low: real, high: real)
    requires key in Run(events) && Run(events)[key].amount > 0
    requires PricedWithin(Since(events, key), low, high)
    ensures low <= Run(events)[key].price <= high
  {
    StoredIsRecorded(events, key);
    SpentBounds(Since(events, key), low, high);
    TotalBetween(Run(events)[key], low, high);
  }

  // ----- Nothing is lost over a whole run -----

  /** Everything recorded for an item. */
  function Recorded(events: seq<Event>, key: string): seq<Cost> {
    if events == [] then []
    else
      var before, e := Recorded(events[..|events| - 1], key), events[|events| - 1];
      if e.Record? && e.key == key then before + [e.bought] else before
  }

  /** Everything taken for an item. */
  function Taken(events: seq<Event>, key: string): seq<Cost> {
    if events == [] then []
    else
      var front, e := events[..|events| - 1], events[|events| - 1];
      if e.Take? && e.key == key && key in Run(front) then Taken(front, key) + [Run(front)[key]] else Taken(front, key)
  }

  /** Over every run, what was taken for an item plus what is still stored is what was recorded, in units and coins. */
  lemma {:induction false} TakenPlusStoredIsRecorded(events: seq<Event>, key: string)
    ensures Units(Taken(events, key)) + StoredOr(Run(events), key).amount == Units(Recorded(events, key))
    ensures Spent(Taken(events, key)) + StoredOr(Run(events), key).Total() == Spent(Recorded(events, key))
  {
    if events != [] {
      var front, e := events[..|events| - 1], events[|events| - 1];
      TakenPlusStoredIsRecorded(front, key);
      if e.key == key {
        if e.Record? {
          BlendConserves(StoredOr(Run(front), key), e.bought);
          TotalsSnoc(Recorded(front, key), e.bought);
        } else if key in Run(front) {
          TotalsSnoc(Taken(front, key), Run(front)[key]);
        }
      }
    }
  }
}
