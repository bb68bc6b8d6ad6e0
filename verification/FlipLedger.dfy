/**
  Profit attribution of `src/main.rs`: the bought-flip tracker and the purchase ledger with its two keys, and the
  critical sections in which the purchase and sale handlers change them.
 */
module FlipLedger {
  import opened Wrappers
  import opened Text

  /** A tracked flip: its auction id and its buy price, 0 until bought. */
  datatype Tracked = Tracked(uuid: Option<string>, buyPrice: nat)

  /** A ledger entry. */
  datatype Purchase = Purchase(buyPrice: nat, uuid: Option<string>)

  type TrackerMap = map<string, Tracked>
  type LedgerMap = map<string, Purchase>

  function AhFee(price: nat): nat {
    if price < 10_000_000 then price / 100
    else if price < 100_000_000 then price * 2 / 100
    else price * 25 / 1000
  }

  /** The fee is one, two or two and a half per cent of the price, rounded down. */
  lemma FeeInNumbers(price: nat)
    ensures price < 10_000_000 ==> 0 <= price - 100 * AhFee(price) < 100
    ensures 10_000_000 <= price < 100_000_000 ==> 0 <= price - 50 * AhFee(price) < 50
    ensures 100_000_000 <= price ==> 0 <= price - 40 * AhFee(price) < 40
  {
  }

  function CleanName(item: string): string { ToLower(RemoveColors(item)) }

  /** Two item names are booked under one name exactly when, colours apart, they differ in letter case only. */
  lemma SharedName(a: string, b: string)
    ensures CleanName(a) == CleanName(b) <==> SameUpToCase(RemoveColors(a), RemoveColors(b))
  {
    ToLowerAgrees(RemoveColors(a), RemoveColors(b));
  }

  function NameKey(name: string): string { "name:" + name }

  function UuidKey(uuid: string): string { "uuid:" + uuid }

  /** `ah_purchase_ledger_key`. */
  function LedgerKey(item: string, uuid: Option<string>): string {
    if uuid.Some? && uuid.value != "" then UuidKey(uuid.value) else NameKey(CleanName(item))
  }

  // ----- The critical sections -----

  function NoteFlip(tracker: TrackerMap, item: string, uuid: Option<string>): TrackerMap {
    tracker[CleanName(item) := Tracked(uuid, 0)]
  }

  function BuyTracked(tracker: TrackerMap, item: string, price: nat): TrackerMap {
    var n := CleanName(item);
    if n in tracker then tracker[n := tracker[n].(buyPrice := price)] else tracker
  }

  function BuyUuid(tracker: TrackerMap, item: string): Option<string> {
    if CleanName(item) in tracker then tracker[CleanName(item)].uuid else None
  }

  function BuyLedger(ledger: LedgerMap, item: string, price: nat, uuid: Option<string>): LedgerMap {
    ledger[LedgerKey(item, uuid) := Purchase(price, uuid)][LedgerKey(item, None) := Purchase(price, uuid)]
  }

  /** The ledger entry a sale not in the tracker finds. */
  function FoundKey(ledger: LedgerMap, item: string, saleUuid: Option<string>): Option<string> {
    if LedgerKey(item, saleUuid) in ledger then Some(LedgerKey(item, saleUuid))
    else if LedgerKey(item, None) in ledger then Some(LedgerKey(item, None))
    else None
  }

  /** What a sale's lookup leaves: the maps, and the buy price the profit is computed from. */
  datatype Lookup = Lookup(tracker: TrackerMap, ledger: LedgerMap, buyPrice: Option<nat>)

  function SellLookup(tracker: TrackerMap, ledger: LedgerMap, item: string, saleUuid: Option<string>): Lookup {
    var n := CleanName(item);
    if n in tracker then
      Lookup(tracker - {n}, ledger, if tracker[n].buyPrice > 0 then Some(tracker[n].buyPrice) else None)
    else
      match FoundKey(ledger, item, saleUuid)
      case None => Lookup(tracker, ledger, None)
      case Some(key) =>
        var original := if ledger[key].uuid.Some? then {LedgerKey(item, ledger[key].uuid)} else {};
        Lookup(tracker, ledger - {key} - original - {LedgerKey(item, None)}, Some(ledger[key].buyPrice))
  }

  /** The final removal, which stops at the first key it finds. */
  function SellCleanup(ledger: LedgerMap, item: string, saleUuid: Option<string>): LedgerMap {
    if LedgerKey(item, saleUuid) in ledger then ledger - {LedgerKey(item, saleUuid)}
    else ledger - {LedgerKey(item, None)}
  }

  /**
    A sale found in the ledger takes out its own key, the item's name key and the id key of the purchase found, and
    nothing else; any other sale takes nothing out.
   */
  lemma LookupTakesOut(tracker: TrackerMap, ledger: LedgerMap, item: string, saleUuid: Option<string>, k: string)
    ensures var l, key, name := SellLookup(tracker, ledger, item, saleUuid), LedgerKey(item, saleUuid),
                                "name:" + CleanName(item);
            var found := CleanName(item) !in tracker && (key in ledger || name in ledger);
            var purchase := if key in ledger then key else name;
            && (k in l.ledger <==> k in ledger && !(found && (k == key || k == name
                                    || (ledger[purchase].uuid.Some? && k == LedgerKey(item, ledger[purchase].uuid)))))
            && (k in l.ledger ==> l.ledger[k] == ledger[k])
            && l.tracker == tracker - {CleanName(item)}
  {
  }

  function Profit(price: nat, buyPrice: Option<nat>): Option<int> {
    if buyPrice.Some? then Some(price - buyPrice.value - AhFee(price)) else None
  }

  /** What a tracker save keeps: bought flips. */
  function BoughtOnly(tracker: TrackerMap): TrackerMap {
    map n | n in tracker && tracker[n].buyPrice > 0 :: tracker[n]
  }

  /** The ledgers handed to the debounced writer: one more when a section has changed the ledger. */
  function Scheduled(queue: seq<LedgerMap>, before: LedgerMap, after: LedgerMap): seq<LedgerMap> {
    if after == before then queue else queue + [after]
  }

  /** The two locked maps, and the ledgers scheduled for saving. */
  class FlipBook {
    var tracker: TrackerMap
    var ledger: LedgerMap
    var scheduled: seq<LedgerMap>

    constructor ()
      ensures tracker == map[] && ledger == map[] && scheduled == []
    {
      tracker, ledger, scheduled := map[], map[], [];
    }

    method FlipArrived(item: string, uuid: Option<string>)
      modifies this`tracker
      ensures tracker == NoteFlip(old(tracker), item, uuid)
    {
      tracker := tracker[CleanName(item) := Tracked(uuid, 0)];
    }

    method PurchaseTracked(item: string, price: nat) returns (uuid: Option<string>)
      modifies this`tracker
      ensures tracker == BuyTracked(old(tracker), item, price) && uuid == BuyUuid(old(tracker), item)
    {
      var key := CleanName(item);
      uuid := None;
      if key in tracker {
        uuid := tracker[key].uuid;
        tracker := tracker[key := Tracked(uuid, price)];
      }
    }

    method PurchaseRecorded(item: string, price: nat, uuid: Option<string>)
      modifies this`ledger, this`scheduled
      ensures ledger == BuyLedger(old(ledger), item, price, uuid) && scheduled == old(scheduled) + [ledger]
    {
      var entry := Purchase(price, uuid);
      ledger := ledger[LedgerKey(item, uuid) := entry];
      ledger := ledger[LedgerKey(item, None) := entry];
      scheduled := scheduled + [ledger];
    }

    method SaleLookup(item: string, price: nat, saleUuid: Option<string>) returns (profit: Option<int>)
      modifies this
      ensures var l := SellLookup(old(tracker), old(ledger), item, saleUuid);
              && tracker == l.tracker && ledger == l.ledger && profit == Profit(price, l.buyPrice)
              && scheduled == Scheduled(old(scheduled), old(ledger), ledger)
    {
      var key := CleanName(item);
      if key in tracker {
        var entry := tracker[key];
        tracker := tracker - {key};
        return if entry.buyPrice > 0 then Some(price - entry.buyPrice - AhFee(price)) else None;
      }
      var ledgerKey, fallback := LedgerKey(item, saleUuid), LedgerKey(item, None);
      var found := if ledgerKey in ledger then Some(ledgerKey)
                   else if ledgerKey != fallback && fallback in ledger then Some(fallback) else None;
      if found.None? {
        return None;
      }
      var entry := ledger[found.value];
      ledger := ledger - {found.value};
      if entry.uuid.Some? {
        var original := LedgerKey(item, entry.uuid);
        if original != ledgerKey {
          ledger := ledger - {original};
        }
      }
      ledger := ledger - {fallback};
      scheduled := scheduled + [ledger];
      return Some(price - entry.buyPrice - AhFee(price));
    }

    method SaleCleanup(item: string, saleUuid: Option<string>)
      modifies this`ledger, this`scheduled
      ensures ledger == SellCleanup(old(ledger), item, saleUuid)
      ensures scheduled == Scheduled(old(scheduled), old(ledger), ledger)
    {
      var key, fallback := LedgerKey(item, saleUuid), LedgerKey(item, None);
      var removed := key in ledger || (key != fallback && fallback in ledger);
      ledger := if key in ledger then ledger - {key} else ledger - {fallback};
      if removed {
        scheduled := scheduled + [ledger];
      }
    }
  }
}
