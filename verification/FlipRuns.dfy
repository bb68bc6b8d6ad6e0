/**
  Runs of the profit attribution of `src/main.rs`, restarts included.

  A handler locks the maps once or twice; each critical section is one step, so that flip arrivals, tracker saves,
  ledger writes and restarts, which other threads cause, can fall between the two sections of a purchase or of a
  sale. A tracker save takes its snapshot in one step and writes the file in a later one. A changed ledger is
  handed to the debounced writer, which writes some later one of the ledgers it was handed. A restart drops whatever
  is under way and loads both files; a rest break is a tracker save and then a restart.
 */
module FlipRuns {
  import opened Wrappers
  import opened Text
  import opened FlipLedger

  /** Where the event loop is inside a handler. */
  datatype Handler =
    | Idle
    | Buying(item: string, price: nat, uuid: Option<string>)
    | Selling(item: string, saleUuid: Option<string>)

  /**
    The maps and the handler; the tracker snapshots not yet written and the tracker file; the ledgers not yet
    written and the ledger file.
   */
  datatype System = System(
    tracker: TrackerMap, ledger: LedgerMap, handler: Handler,
    snapshots: map<nat, TrackerMap>, file: TrackerMap, queue: seq<LedgerMap>, ledgerFile: LedgerMap)

  datatype Event =
    | FlipSeen(item: string, uuid: Option<string>)
    | Bought(item: string, price: nat)
    | BoughtRecorded
    | Sold(item: string, price: nat, saleUuid: Option<string>)
    | SoldCleaned
    | SaveBegins(saver: nat)
    | SaveWrites(saver: nat)
    | LedgerWritten(count: nat)
    | Restart(young: set<string>)

  const EMPTY := System(map[], map[], Idle, map[], map[], [], map[])

  predicate Enabled(s: System, e: Event) {
    match e
    case FlipSeen(_, _) => true
    case SaveBegins(k) => k !in s.snapshots
    case SaveWrites(k) => k in s.snapshots
    case LedgerWritten(n) => 0 < n <= |s.queue|
    case Restart(_) => true
    case BoughtRecorded => s.handler.Buying?
    case SoldCleaned => s.handler.Selling?
    case _ => s.handler.Idle?
  }

  /** The saved entries whose age is accepted. */
  function Kept(file: TrackerMap, young: set<string>): TrackerMap {
    map n | n in file && n in young :: file[n]
  }

  function Step(s: System, e: Event): System
    requires Enabled(s, e)
  {
    match e
    case FlipSeen(item, uuid) => s.(tracker := NoteFlip(s.tracker, item, uuid))
    case Bought(item, price) =>
      s.(tracker := BuyTracked(s.tracker, item, price), handler := Buying(item, price, BuyUuid(s.tracker, item)))
    case BoughtRecorded =>
      var l := BuyLedger(s.ledger, s.handler.item, s.handler.price, s.handler.uuid);
      s.(ledger := l, queue := s.queue + [l], handler := Idle)
    case Sold(item, price, saleUuid) =>
      var l := SellLookup(s.tracker, s.ledger, item, saleUuid);
      s.(tracker := l.tracker, ledger := l.ledger, queue := Scheduled(s.queue, s.ledger, l.ledger),
         handler := Selling(item, saleUuid))
    case SoldCleaned =>
      var l := SellCleanup(s.ledger, s.handler.item, s.handler.saleUuid);
      s.(ledger := l, queue := Scheduled(s.queue, s.ledger, l), handler := Idle)
    case SaveBegins(k) => s.(snapshots := s.snapshots[k := BoughtOnly(s.tracker)])
    case SaveWrites(k) => s.(snapshots := s.snapshots - {k}, file := s.snapshots[k])
    case LedgerWritten(n) => s.(queue := s.queue[n..], ledgerFile := s.queue[n - 1])
    case Restart(young) => System(Kept(s.file, young), s.ledgerFile, Idle, map[], s.file, [], s.ledgerFile)
  }

  /** The profit a step attributes, if it is a sale that attributes one. */
  function Attributed(s: System, e: Event): Option<int> {
    if e.Sold? then Profit(e.price, SellLookup(s.tracker, s.ledger, e.item, e.saleUuid).buyPrice) else None
  }

  /** A sale announced under an auction id the ledger holds a purchase for. */
  predicate Clashes(s: System, e: Event) {
    e.Sold? && LedgerKey(e.item, e.saleUuid) != NameKey(CleanName(e.item)) && LedgerKey(e.item, e.saleUuid) in s.ledger
  }

  // ----- The reference: the items with an unsold purchase, each with the latest price paid for it -----

  type Truth = map<string, nat>

  function TruthStep(g: Truth, e: Event): Truth {
    match e
    case Bought(item, price) => g[CleanName(item) := price]
    case Sold(item, _, _) => g - {CleanName(item)}
    case _ => g
  }

  function Owed(g: Truth, n: string): Option<nat> { if n in g then Some(g[n]) else None }

  /** An attribution is right when the item has an unsold purchase and the profit is over its latest price. */
  predicate RightAttribution(s: System, g: Truth, e: Event) {
    Attributed(s, e).Some? ==>
      var n := CleanName(e.item); n in g && Attributed(s, e).value == e.price - g[n] - AhFee(e.price)
  }

  predicate BuyingName(h: Handler, n: string) { h.Buying? && CleanName(h.item) == n }

  predicate SellingName(h: Handler, n: string) { h.Selling? && CleanName(h.item) == n }

  /** The buy price the running process holds an item at: its name entry, unless a handler is about to replace it. */
  function Believed(s: System, n: string): Option<nat> {
    if BuyingName(s.handler, n) then Some(s.handler.price)
    else if SellingName(s.handler, n) || NameKey(n) !in s.ledger then None
    else Some(s.ledger[NameKey(n)].buyPrice)
  }

  /** A name as the maps are keyed by. */
  predicate IsName(n: string) { CleanName(n) == n }

  ghost predicate TrackerTrue(s: System, g: Truth) {
    forall n :: IsName(n) && n in s.tracker && s.tracker[n].buyPrice > 0 ==> Owed(g, n) == Some(s.tracker[n].buyPrice)
  }

  ghost predicate BooksTrue(s: System, g: Truth) {
    forall n :: IsName(n) && Believed(s, n).Some? ==> Owed(g, n) == Believed(s, n)
  }

  /** What the process holds is true. */
  ghost predicate Inv(s: System, g: Truth) {
    TrackerTrue(s, g) && BooksTrue(s, g) && (s.handler.Selling? ==> CleanName(s.handler.item) !in g)
  }

  /** And it knows of every unsold purchase. */
  ghost predicate Complete(s: System, g: Truth) {
    forall n :: IsName(n) && n in g ==> Believed(s, n).Some?
  }

  lemma {:induction false} NoColorsLeft(s: string)
    ensures forall i :: 0 <= i < |RemoveColors(s)| ==>
              RemoveColors(s)[i] != '\U{00A7}' && RemoveColors(s)[i] != '\U{252C}'
    decreases |s|
  {
    if s != "" {
      if s[0] == '\U{00A7}' || s[0] == '\U{252C}' {
        if |s| > 1 {
          NoColorsLeft(s[2..]);
        }
      } else {
        NoColorsLeft(s[1..]);
      }
    }
  }

  lemma CleanNameIsName(item: string)
    ensures IsName(CleanName(item))
  {
    var plain := RemoveColors(item);
    var n := ToLower(plain);
    NoColorsLeft(item);
    NoColorsToRemove(n);
    assert ToLower(n) == n;
  }

  lemma KeysDistinct(item: string, uuid: Option<string>, n: string)
    ensures LedgerKey(item, uuid) == NameKey(n) <==> (uuid.None? || uuid.value == "") && CleanName(item) == n
  {
    var a := LedgerKey(item, uuid);
    if uuid.Some? && uuid.value != "" {
      assert a[0] == 'u' && NameKey(n)[0] == 'n';
    } else {
      assert a[5..] == CleanName(item) && NameKey(n)[5..] == n;
    }
  }

  // ----- One step -----

  predicate Busy(h: Handler, n: string) { BuyingName(h, n) || SellingName(h, n) }

  /** The event buys or sells the item, or loses the process. */
  predicate Touches(e: Event, n: string) {
    e.Restart? || ((e.Bought? || e.Sold?) && CleanName(e.item) == n)
  }

  /** A lookup only ever takes the item's own name key and auction-id keys out of the ledger. */
  lemma LookupRemoves(tracker: TrackerMap, ledger: LedgerMap, item: string, saleUuid: Option<string>, n: string)
    requires n != CleanName(item)
    ensures var l := SellLookup(tracker, ledger, item, saleUuid);
            && (NameKey(n) in l.ledger <==> NameKey(n) in ledger)
            && (NameKey(n) in ledger ==> l.ledger[NameKey(n)] == ledger[NameKey(n)])
  {
    KeysDistinct(item, saleUuid, n);
    KeysDistinct(item, None, n);
    var found := FoundKey(ledger, item, saleUuid);
    if found.Some? && ledger[found.value].uuid.Some? {
      KeysDistinct(item, ledger[found.value].uuid, n);
    }
  }

  /** Only a purchase or a sale of an item, or a restart, changes what the process holds it at. */
  lemma BelievedStays(s: System, e: Event, n: string)
    requires Enabled(s, e) && !Touches(e, n) && !SellingName(s.handler, n)
    ensures Believed(Step(s, e), n) == Believed(s, n)
    ensures !Busy(s.handler, n) ==> !Busy(Step(s, e).handler, n)
  {
    match e
    case BoughtRecorded =>
      KeysDistinct(s.handler.item, s.handler.uuid, n);
      KeysDistinct(s.handler.item, None, n);
    case Sold(item, price, saleUuid) =>
      LookupRemoves(s.tracker, s.ledger, item, saleUuid, n);
    case SoldCleaned =>
      KeysDistinct(s.handler.item, s.handler.saleUuid, n);
      KeysDistinct(s.handler.item, None, n);
    case _ =>
  }

  lemma PurchaseKeepsTruth(s: System, g: Truth, e: Event)
    requires Inv(s, g) && Enabled(s, e) && e.Bought?
    ensures Inv(Step(s, e), TruthStep(g, e))
  {
    var s', g' := Step(s, e), TruthStep(g, e);
    forall n | IsName(n) && Believed(s', n).Some?
      ensures Owed(g', n) == Believed(s', n)
    {
      if n != CleanName(e.item) {
        BelievedStays(s, e, n);
      }
    }
  }

  lemma SaleKeepsTruth(s: System, g: Truth, e: Event)
    requires Inv(s, g) && Enabled(s, e) && e.Sold?
    ensures Inv(Step(s, e), TruthStep(g, e))
  {
    var s', g' := Step(s, e), TruthStep(g, e);
    forall n | IsName(n) && Believed(s', n).Some?
      ensures Owed(g', n) == Believed(s', n)
    {
      if n != CleanName(e.item) {
        BelievedStays(s, e, n);
      }
    }
  }

  /** Every step of another thread, and the second section of a purchase, leaves all beliefs as they are. */
  lemma QuietStepKeepsTruth(s: System, g: Truth, e: Event)
    requires Inv(s, g) && Enabled(s, e) && !e.Restart? && !e.Bought? && !e.Sold? && !e.SoldCleaned?
    ensures Inv(Step(s, e), g)
  {
    var s' := Step(s, e);
    forall n | IsName(n) && Believed(s', n).Some?
      ensures Owed(g, n) == Believed(s', n)
    {
      if !SellingName(s.handler, n) {
        BelievedStays(s, e, n);
      }
    }
  }

  /** The cleanup after a sale misses the name entry exactly when the sale's auction id shadows it. */
  lemma CleanupKeepsTruth(s: System, g: Truth)
    requires Inv(s, g) && s.handler.Selling?
    ensures var n, key := CleanName(s.handler.item), LedgerKey(s.handler.item, s.handler.saleUuid);
            Inv(Step(s, SoldCleaned), g) <==> key == NameKey(n) || key !in s.ledger || NameKey(n) !in s.ledger
  {
    var s' := Step(s, SoldCleaned);
    var n, key := CleanName(s.handler.item), LedgerKey(s.handler.item, s.handler.saleUuid);
    CleanNameIsName(s.handler.item);
    KeysDistinct(s.handler.item, None, n);
    forall m | IsName(m) && m != n && Believed(s', m).Some?
      ensures Owed(g, m) == Believed(s', m)
    {
      BelievedStays(s, SoldCleaned, m);
    }
    assert Believed(s', n).None? <==> key == NameKey(n) || key !in s.ledger || NameKey(n) !in s.ledger;
  }

  /**
    A sale in a true and complete state is attributed rightly unless its auction id answers for a missing or
    different name entry.
   */
  lemma {:induction false} AttributionExact(s: System, g: Truth, e: Event)
    requires Inv(s, g) && Complete(s, g) && Enabled(s, e) && e.Sold?
    ensures var n, key := CleanName(e.item), LedgerKey(e.item, e.saleUuid);
            RightAttribution(s, g, e) <==>
            (n in s.tracker || key !in s.ledger
             || (NameKey(n) in s.ledger && s.ledger[NameKey(n)].buyPrice == s.ledger[key].buyPrice))
  {
    var n := CleanName(e.item);
    CleanNameIsName(e.item);
    KeysDistinct(e.item, None, n);
    assert n in g ==> Believed(s, n).Some?;
    assert NameKey(n) in s.ledger ==> Believed(s, n) == Some(s.ledger[NameKey(n)].buyPrice);
  }

  /**
    In a true and complete state a sale is attributed a profit exactly when the tracker holds its item bought, or
    does not hold it and the item has an unsold purchase or the sale's key an entry.
   */
  lemma {:induction false} AttributedExactly(s: System, g: Truth, e: Event)
    requires Inv(s, g) && Complete(s, g) && Enabled(s, e) && e.Sold?
    ensures var n, key := CleanName(e.item), LedgerKey(e.item, e.saleUuid);
            Attributed(s, e).Some? <==> if n in s.tracker then s.tracker[n].buyPrice > 0 else n in g || key in s.ledger
  {
    var n := CleanName(e.item);
    CleanNameIsName(e.item);
    KeysDistinct(e.item, None, n);
    assert n in g ==> Believed(s, n).Some?;
    assert NameKey(n) in s.ledger ==> Believed(s, n) == Some(s.ledger[NameKey(n)].buyPrice);
  }

  /** A purchase for a positive price, once recorded, pays for the next sale of its item, whatever came before. */
  lemma {:induction false} PurchaseThenSale(s: System, item: string, paid: nat, sold: string, price: nat)
    requires s.handler.Idle? && paid > 0 && CleanName(sold) == CleanName(item)
    ensures var t := Step(Step(s, Bought(item, paid)), BoughtRecorded);
            Attributed(t, Sold(sold, price, None)) == Some(price - paid - AhFee(price))
  {
    var t := Step(Step(s, Bought(item, paid)), BoughtRecorded);
    assert NameKey(CleanName(item)) in t.ledger && t.ledger[NameKey(CleanName(item))].buyPrice == paid;
  }

  /** A flip that arrives hides its item: a sale before the next purchase is attributed nothing. */
  lemma {:induction false} ArrivalThenSale(s: System, item: string, uuid: Option<string>, e: Event)
    requires s.handler.Idle? && e.Sold? && CleanName(e.item) == CleanName(item)
    ensures Attributed(Step(s, FlipSeen(item, uuid)), e) == None
    ensures BuyUuid(Step(s, FlipSeen(item, uuid)).tracker, item) == uuid
  {
  }

  lemma CleanSaleIsRight(s: System, g: Truth, e: Event)
    requires Inv(s, g) && Enabled(s, e) && !Clashes(s, e)
    ensures RightAttribution(s, g, e)
  {
    if e.Sold? {
      var n := CleanName(e.item);
      CleanNameIsName(e.item);
      KeysDistinct(e.item, None, n);
      assert NameKey(n) in s.ledger ==> Believed(s, n) == Some(s.ledger[NameKey(n)].buyPrice);
    }
  }

  /** A step other than a restart keeps the process informed of every unsold purchase. */
  lemma StepKeepsComplete(s: System, g: Truth, e: Event)
    requires Inv(s, g) && Complete(s, g) && Enabled(s, e) && !e.Restart?
    ensures Complete(Step(s, e), TruthStep(g, e))
  {
    var s', g' := Step(s, e), TruthStep(g, e);
    forall n | IsName(n) && n in g'
      ensures Believed(s', n).Some?
    {
      if !Touches(e, n) {
        assert n in g && Believed(s, n).Some?;
        BelievedStays(s, e, n);
      }
    }
  }

  // ----- Restarts -----

  /** Every entry the tracker file will restore has the price the process holds its item at. */
  ghost predicate TrackerFileAgrees(s: System, young: set<string>) {
    forall n :: IsName(n) && n in s.file && n in young && s.file[n].buyPrice > 0 ==>
      Believed(s, n) == Some(s.file[n].buyPrice)
  }

  /** Every name entry of the ledger file has the price the process holds its item at. */
  ghost predicate LedgerFileAgrees(s: System) {
    forall n :: IsName(n) && NameKey(n) in s.ledgerFile ==> Believed(s, n) == Some(s.ledgerFile[NameKey(n)].buyPrice)
  }

  ghost predicate FilesAgree(s: System, young: set<string>) { TrackerFileAgrees(s, young) && LedgerFileAgrees(s) }

  lemma AgreeingRestartKeepsTruth(s: System, g: Truth, young: set<string>)
    requires Inv(s, g) && FilesAgree(s, young)
    ensures Inv(Step(s, Restart(young)), g)
  {
    var s' := Step(s, Restart(young));
    forall n | IsName(n) && Believed(s', n).Some?
      ensures Owed(g, n) == Believed(s', n)
    {
      assert NameKey(n) in s.ledgerFile;
    }
  }

  /** A restart, wherever it strikes, leaves true books exactly when both files agree with what the process held. */
  lemma RestartKeepsTruth(s: System, g: Truth, young: set<string>)
    requires Inv(s, g) && Complete(s, g)
    ensures Inv(Step(s, Restart(young)), g) <==> FilesAgree(s, young)
  {
    var s' := Step(s, Restart(young));
    if Inv(s', g) {
      forall n | IsName(n) && n in s.file && n in young && s.file[n].buyPrice > 0
        ensures Believed(s, n) == Some(s.file[n].buyPrice)
      {
        assert n in s'.tracker && n in g;
      }
      forall n | IsName(n) && NameKey(n) in s.ledgerFile
        ensures Believed(s, n) == Some(s.ledgerFile[NameKey(n)].buyPrice)
      {
        assert Believed(s', n).Some? && n in g;
      }
    } else if FilesAgree(s, young) {
      AgreeingRestartKeepsTruth(s, g, young);
    }
  }

  /** It keeps the process informed exactly when the ledger file has a name entry for every item it held. */
  lemma RestartKeepsComplete(s: System, g: Truth, young: set<string>)
    requires Inv(s, g) && Complete(s, g)
    ensures Complete(Step(s, Restart(young)), g) <==>
            forall n :: IsName(n) && Believed(s, n).Some? ==> NameKey(n) in s.ledgerFile
  {
    var s' := Step(s, Restart(young));
    if Complete(s', g) {
      forall n | IsName(n) && Believed(s, n).Some?
        ensures NameKey(n) in s.ledgerFile
      {
        assert n in g;
        assert Believed(s', n).Some?;
      }
    }
  }

  // ----- Whole runs -----

  ghost predicate Runs(s: System, events: seq<Event>, t: System)
    decreases |events|
  {
    if events == [] then s == t else Enabled(s, events[0]) && Runs(Step(s, events[0]), events[1..], t)
  }

  /** A sale in progress whose auction id is no key of the ledger, so that its cleanup reaches the name entry. */
  predicate CleanSale(s: System) {
    s.handler.Selling? ==>
      var key := LedgerKey(s.handler.item, s.handler.saleUuid);
      key == NameKey(CleanName(s.handler.item)) || key !in s.ledger
  }

  /** No sale comes under an auction id held for a purchase, and a restart finds files that agree with the process. */
  ghost predicate Good(s: System, e: Event) {
    Enabled(s, e) && !Clashes(s, e) && (e.Restart? ==> FilesAgree(s, e.young))
  }

  ghost predicate GoodRun(s: System, events: seq<Event>)
    decreases |events|
  {
    events != [] ==> Good(s, events[0]) && GoodRun(Step(s, events[0]), events[1..])
  }

  ghost predicate AllRight(s: System, g: Truth, events: seq<Event>)
    decreases |events|
  {
    events != [] && Enabled(s, events[0]) ==>
      RightAttribution(s, g, events[0]) && AllRight(Step(s, events[0]), TruthStep(g, events[0]), events[1..])
  }

  predicate SaleAttributed(s: System, e: Event, n: string) {
    e.Sold? && CleanName(e.item) == n && Attributed(s, e).Some?
  }

  /** Sales of an item that were attributed a profit. */
  function Attributions(s: System, events: seq<Event>, n: string): nat
    decreases |events|
  {
    if events == [] || !Enabled(s, events[0]) then 0
    else (if SaleAttributed(s, events[0], n) then 1 else 0) + Attributions(Step(s, events[0]), events[1..], n)
  }

  predicate Buys(e: Event, n: string) { e.Bought? && CleanName(e.item) == n }

  function Purchases(events: seq<Event>, n: string): nat {
    if events == [] then 0 else (if Buys(events[0], n) then 1 else 0) + Purchases(events[1..], n)
  }

  lemma StepKeepsTruth(s: System, g: Truth, e: Event)
    requires Inv(s, g) && CleanSale(s) && Good(s, e)
    ensures Inv(Step(s, e), TruthStep(g, e)) && CleanSale(Step(s, e)) && RightAttribution(s, g, e)
  {
    CleanSaleIsRight(s, g, e);
    match e
    case Bought(_, _) => PurchaseKeepsTruth(s, g, e);
    case Sold(item, _, saleUuid) =>
      SaleKeepsTruth(s, g, e);
    case SoldCleaned => CleanupKeepsTruth(s, g);
    case Restart(young) => AgreeingRestartKeepsTruth(s, g, young);
    case _ => QuietStepKeepsTruth(s, g, e);
  }

  /** Over every good run, every attribution is right. */
  lemma {:induction false} RunsAttributeRightly(s: System, g: Truth, events: seq<Event>)
    requires Inv(s, g) && CleanSale(s) && GoodRun(s, events)
    ensures AllRight(s, g, events)
    decreases |events|
  {
    if events != [] {
      StepKeepsTruth(s, g, events[0]);
      RunsAttributeRightly(Step(s, events[0]), TruthStep(g, events[0]), events[1..]);
    }
  }

  /** Each purchase pays for at most one attributed sale of its item. */
  lemma {:induction false} AttributionsArePaidFor(s: System, g: Truth, events: seq<Event>, n: string)
    requires AllRight(s, g, events)
    ensures Attributions(s, events, n) <= Purchases(events, n) + if n in g then 1 else 0
    decreases |events|
  {
    if events != [] && Enabled(s, events[0]) {
      AttributionsArePaidFor(Step(s, events[0]), TruthStep(g, events[0]), events[1..], n);
    }
  }

  lemma AttributionOverRuns(events: seq<Event>, n: string)
    requires GoodRun(EMPTY, events)
    ensures AllRight(EMPTY, map[], events)
    ensures Attributions(EMPTY, events, n) <= Purchases(events, n)
  {
    RunsAttributeRightly(EMPTY, map[], events);
    AttributionsArePaidFor(EMPTY, map[], events, n);
  }

  /** Every sale of an item with an unsold purchase is attributed, unless the tracker holds it as a flip not bought. */
  ghost predicate OwedAttributed(s: System, g: Truth, events: seq<Event>)
    decreases |events|
  {
    events != [] && Enabled(s, events[0]) ==>
      && (events[0].Sold? ==>
            var n := CleanName(events[0].item);
            n in g && !(n in s.tracker && s.tracker[n].buyPrice == 0) ==> Attributed(s, events[0]).Some?)
      && OwedAttributed(Step(s, events[0]), TruthStep(g, events[0]), events[1..])
  }

  lemma {:induction false} RunsAttributeOwed(s: System, g: Truth, events: seq<Event>)
    requires AllKept(s, g) && GoodRun(s, events) && NothingLost(s, events)
    ensures OwedAttributed(s, g, events)
    decreases |events|
  {
    if events != [] {
      if events[0].Sold? {
        AttributedExactly(s, g, events[0]);
      }
      assert NothingLost(s, [events[0]]);
      StepKeepsAll(s, g, events[0]);
      RunsAttributeOwed(Step(s, events[0]), TruthStep(g, events[0]), events[1..]);
    }
  }

  /** Over every good run that loses no purchase, no attribution is missed. */
  lemma {:induction false} NoAttributionMissed(events: seq<Event>)
    requires GoodRun(EMPTY, events) && NothingLost(EMPTY, events)
    ensures OwedAttributed(EMPTY, map[], events)
  {
    RunsAttributeOwed(EMPTY, map[], events);
  }

  /** A save written and then restored brings back exactly the bought flips whose age is accepted. */
  lemma {:induction false} SavedTrackerComesBack(s: System, saver: nat, young: set<string>)
    requires saver !in s.snapshots
    ensures var saved := Step(Step(s, SaveBegins(saver)), SaveWrites(saver));
            var t := Step(saved, Restart(young));
            forall n :: (n in t.tracker <==> n in s.tracker && s.tracker[n].buyPrice > 0 && n in young)
                        && (n in t.tracker ==> t.tracker[n] == s.tracker[n])
  {
  }

  // ----- Which restarts are harmless -----

  /** Whatever good run follows, every attribution in it is right. */
  ghost predicate RightForever(s: System, g: Truth) {
    forall events :: GoodRun(s, events) ==> AllRight(s, g, events)
  }

  predicate AllBought(t: TrackerMap) { forall n :: n in t ==> t[n].buyPrice > 0 }

  /** A wrong tracker entry shows at the next sale of its item. */
  lemma WrongTrackerShows(s: System, g: Truth, n: string)
    requires s.handler.Idle? && IsName(n) && n in s.tracker && s.tracker[n].buyPrice > 0
    requires Owed(g, n) != Some(s.tracker[n].buyPrice)
    ensures !RightForever(s, g)
  {
    var events := [Sold(n, 0, None)];
    assert events[1..] == [];
    assert GoodRun(s, events);
    assert Attributed(s, events[0]) == Profit(0, Some(s.tracker[n].buyPrice));
    assert !AllRight(s, g, events);
  }

  /** A wrong ledger entry shows at the next sale of its item, at the latest after a restart without the tracker. */
  lemma WrongLedgerShows(s: System, g: Truth, n: string)
    requires s.handler.Idle? && s.ledgerFile == s.ledger && IsName(n) && NameKey(n) in s.ledger
    requires Owed(g, n) != Some(s.ledger[NameKey(n)].buyPrice)
    ensures !RightForever(s, g)
  {
    var events := [Restart({}), Sold(n, 0, None)];
    var s' := Step(s, events[0]);
    assert events[1..] == [events[1]] && events[1..][1..] == [];
    assert FilesAgree(s, {}) && s'.tracker == map[];
    assert GoodRun(s', events[1..]);
    assert GoodRun(s, events);
    assert Attributed(s', events[1]) == Profit(0, Some(s.ledger[NameKey(n)].buyPrice));
    assert !AllRight(s', g, events[1..]);
  }

  /**
    After a restart, wherever it struck, every attribution in every good continuation is right exactly when both
    files agreed with what the process held when it went down.
   */
  lemma {:induction false} RestartIsHarmlessExactly(s: System, g: Truth, young: set<string>)
    requires Inv(s, g) && Complete(s, g) && AllBought(s.file)
    ensures RightForever(Step(s, Restart(young)), g) <==> FilesAgree(s, young)
  {
    var t := Step(s, Restart(young));
    RestartKeepsTruth(s, g, young);
    if FilesAgree(s, young) {
      forall events | GoodRun(t, events)
        ensures AllRight(t, g, events)
      {
        RunsAttributeRightly(t, g, events);
      }
    } else if !TrackerTrue(t, g) {
      var n :| IsName(n) && n in t.tracker && t.tracker[n].buyPrice > 0 && Owed(g, n) != Some(t.tracker[n].buyPrice);
      WrongTrackerShows(t, g, n);
    } else {
      var n :| IsName(n) && Believed(t, n).Some? && Owed(g, n) != Believed(t, n);
      WrongLedgerShows(t, g, n);
    }
  }

  lemma RightForeverAfter(s: System, g: Truth, e: Event)
    requires Good(s, e) && RightForever(s, g)
    ensures RightForever(Step(s, e), TruthStep(g, e))
  {
    forall events | GoodRun(Step(s, e), events)
      ensures AllRight(Step(s, e), TruthStep(g, e), events)
    {
      var run := [e] + events;
      assert run[1..] == events;
      assert GoodRun(s, run);
      assert AllRight(s, g, run);
    }
  }

  /** A wrong ledger entry shows in the end even while the ledger is still to be written. */
  lemma WrongUnwrittenLedgerShows(s: System, g: Truth, n: string)
    requires s.handler.Idle? && s.queue != [] && LedgerHandedOver(s) && IsName(n) && NameKey(n) in s.ledger
    requires Owed(g, n) != Some(s.ledger[NameKey(n)].buyPrice)
    ensures !RightForever(s, g)
  {
    var e := LedgerWritten(|s.queue|);
    var t := Step(s, e);
    WrongLedgerShows(t, g, n);
    if RightForever(s, g) {
      RightForeverAfter(s, g, e);
      assert false;
    }
  }

  /**
    The cleanup after a sale is followed by right attributions only, whatever good run comes next, exactly when the
    sale's auction id does not shadow the name entry.
   */
  lemma {:induction false} CleanupIsHarmlessExactly(s: System, g: Truth)
    requires Inv(s, g) && s.handler.Selling? && LedgerHandedOver(s)
    ensures var n, key := CleanName(s.handler.item), LedgerKey(s.handler.item, s.handler.saleUuid);
            RightForever(Step(s, SoldCleaned), g)
            <==> key == NameKey(n) || key !in s.ledger || NameKey(n) !in s.ledger
  {
    var t := Step(s, SoldCleaned);
    var n, key := CleanName(s.handler.item), LedgerKey(s.handler.item, s.handler.saleUuid);
    CleanupKeepsTruth(s, g);
    if key == NameKey(n) || key !in s.ledger || NameKey(n) !in s.ledger {
      forall events | GoodRun(t, events)
        ensures AllRight(t, g, events)
      {
        RunsAttributeRightly(t, g, events);
      }
    } else {
      CleanNameIsName(s.handler.item);
      assert t.ledger == s.ledger - {key} && t.ledger != s.ledger;
      WrongUnwrittenLedgerShows(t, g, n);
    }
  }

  // ----- When the files agree -----

  /** The last ledger handed to the writer, or else the one on file, is the current one. */
  predicate LedgerHandedOver(s: System) {
    s.ledger == if s.queue == [] then s.ledgerFile else s.queue[|s.queue| - 1]
  }

  lemma StepHandsLedgerOver(s: System, e: Event)
    requires LedgerHandedOver(s) && AllBought(s.file) && (forall k :: k in s.snapshots ==> AllBought(s.snapshots[k]))
    requires Enabled(s, e)
    ensures var t := Step(s, e);
            LedgerHandedOver(t) && AllBought(t.file) && (forall k :: k in t.snapshots ==> AllBought(t.snapshots[k]))
  {
  }

  /** With the writer idle, the ledger file agrees exactly when no handler is about to replace a name entry. */
  lemma WrittenLedgerAgrees(s: System)
    requires LedgerHandedOver(s) && s.queue == []
    ensures LedgerFileAgrees(s) <==>
            (s.handler.Idle? || NameKey(CleanName(s.handler.item)) !in s.ledger
             || (s.handler.Buying? && s.ledger[NameKey(CleanName(s.handler.item))].buyPrice == s.handler.price))
  {
    if !s.handler.Idle? {
      CleanNameIsName(s.handler.item);
    }
  }

  predicate NoneTouches(events: seq<Event>, n: string) { forall i :: 0 <= i < |events| ==> !Touches(events[i], n) }

  lemma {:induction false} BelievedStaysOverRun(s: System, events: seq<Event>, t: System, n: string)
    requires Runs(s, events, t) && NoneTouches(events, n) && !Busy(s.handler, n)
    ensures Believed(t, n) == Believed(s, n) && !Busy(t.handler, n)
    decreases |events|
  {
    if events != [] {
      assert !Touches(events[0], n);
      BelievedStays(s, events[0], n);
      assert NoneTouches(events[1..], n) by {
        forall i | 0 <= i < |events[1..]| ensures !Touches(events[1..][i], n) {
          assert events[1..][i] == events[i + 1];
        }
      }
      BelievedStaysOverRun(Step(s, events[0]), events[1..], t, n);
    }
  }

  /**
    The tracker file agrees when it holds a snapshot of a true and complete state since which, and in the middle of
    which, none of the items it restores was bought or sold.
   */
  lemma UntouchedTrackerAgrees(s: System, g: Truth, events: seq<Event>, t: System, young: set<string>)
    requires Inv(s, g) && Complete(s, g) && Runs(s, events, t) && t.file == BoughtOnly(s.tracker)
    requires forall n :: n in t.file && n in young ==> NoneTouches(events, n) && !Busy(s.handler, n)
    ensures TrackerFileAgrees(t, young)
  {
    forall n | IsName(n) && n in t.file && n in young && t.file[n].buyPrice > 0
      ensures Believed(t, n) == Some(t.file[n].buyPrice)
    {
      assert Owed(g, n) == Some(s.tracker[n].buyPrice);
      assert Believed(s, n) == Owed(g, n);
      BelievedStaysOverRun(s, events, t, n);
    }
  }

  /**
    So a restart is harmless when no handler is at work, the ledger writer is idle, and no item the tracker file
    restores was bought or sold since the snapshot in it was taken.
   */
  lemma QuietRestartIsHarmless(s: System, g: Truth, events: seq<Event>, t: System, g': Truth, young: set<string>)
    requires Inv(s, g) && Complete(s, g) && Runs(s, events, t) && t.file == BoughtOnly(s.tracker)
    requires forall n :: n in t.file && n in young ==> NoneTouches(events, n) && !Busy(s.handler, n)
    requires t.handler.Idle? && t.queue == [] && LedgerHandedOver(t)
    requires Inv(t, g')
    ensures RightForever(Step(t, Restart(young)), g')
  {
    UntouchedTrackerAgrees(s, g, events, t, young);
    WrittenLedgerAgrees(t);
    AgreeingRestartKeepsTruth(t, g', young);
    var u := Step(t, Restart(young));
    forall events | GoodRun(u, events)
      ensures AllRight(u, g', events)
    {
      RunsAttributeRightly(u, g', events);
    }
  }

  // ----- From the first start -----

  function TruthAfter(g: Truth, events: seq<Event>): Truth
    decreases |events|
  {
    if events == [] then g else TruthAfter(TruthStep(g, events[0]), events[1..])
  }

  /** No restart of the run loses a ledger entry the process held. */
  ghost predicate NothingLost(s: System, events: seq<Event>)
    decreases |events|
  {
    events != [] && Enabled(s, events[0]) ==>
      && (events[0].Restart? ==> forall n :: IsName(n) && Believed(s, n).Some? ==> NameKey(n) in s.ledgerFile)
      && NothingLost(Step(s, events[0]), events[1..])
  }

  /** Everything a run keeps. */
  ghost predicate AllKept(s: System, g: Truth) {
    Inv(s, g) && Complete(s, g) && CleanSale(s) && LedgerHandedOver(s) && AllBought(s.file)
    && forall k :: k in s.snapshots ==> AllBought(s.snapshots[k])
  }

  lemma StepKeepsAll(s: System, g: Truth, e: Event)
    requires AllKept(s, g) && Good(s, e) && NothingLost(s, [e])
    ensures AllKept(Step(s, e), TruthStep(g, e))
  {
    StepKeepsTruth(s, g, e);
    StepHandsLedgerOver(s, e);
    if e.Restart? {
      RestartKeepsComplete(s, g, e.young);
    } else {
      StepKeepsComplete(s, g, e);
    }
  }

  lemma {:induction false} RunKeepsAll(s: System, g: Truth, events: seq<Event>, t: System)
    requires AllKept(s, g) && GoodRun(s, events) && NothingLost(s, events) && Runs(s, events, t)
    ensures AllKept(t, TruthAfter(g, events))
    decreases |events|
  {
    if events != [] {
      assert NothingLost(s, [events[0]]);
      StepKeepsAll(s, g, events[0]);
      RunKeepsAll(Step(s, events[0]), TruthStep(g, events[0]), events[1..], t);
    }
  }

  /**
    After every good run that lost nothing, a restart, wherever it strikes, is followed by right attributions only
    exactly when both files agree with what the process held.
   */
  lemma RestartAfterRunExactly(events: seq<Event>, t: System, young: set<string>)
    requires GoodRun(EMPTY, events) && NothingLost(EMPTY, events) && Runs(EMPTY, events, t)
    ensures RightForever(Step(t, Restart(young)), TruthAfter(map[], events)) <==> FilesAgree(t, young)
  {
    RunKeepsAll(EMPTY, map[], events, t);
    RestartIsHarmlessExactly(t, TruthAfter(map[], events), young);
  }
}
