/**
  Runs in which one purchase is attributed a profit twice: what the conditions on the runs of `FlipRuns` keep out.
 */
module FlipFailures {
  import opened Wrappers
  import opened Text
  import opened FlipLedger
  import opened FlipRuns

  lemma CleanA()
    ensures CleanName("a") == "a"
  {
    assert RemoveColors("a") == "a" + RemoveColors("");
    assert ToLower("a") == "a";
  }

  /** A run of one item, with its counts so far. */
  ghost predicate Counted(events: seq<Event>, t: System, attributed: nat, bought: nat) {
    Runs(EMPTY, events, t)
    && (forall later :: Attributions(EMPTY, events + later, "a") == attributed + Attributions(t, later, "a"))
    && (forall later :: Purchases(events + later, "a") == bought + Purchases(later, "a"))
  }

  lemma {:induction false} RunsOn(s: System, events: seq<Event>, t: System, e: Event)
    requires Runs(s, events, t) && Enabled(t, e)
    ensures Runs(s, events + [e], Step(t, e))
    decreases |events|
  {
    if events == [] {
      assert [] + [e] == [e] && [e][1..] == [];
    } else {
      assert (events + [e])[1..] == events[1..] + [e];
      RunsOn(Step(s, events[0]), events[1..], t, e);
    }
  }

  lemma CountOne(t: System, e: Event, later: seq<Event>)
    requires Enabled(t, e)
    ensures Attributions(t, [e] + later, "a")
         == (if SaleAttributed(t, e, "a") then 1 else 0) + Attributions(Step(t, e), later, "a")
    ensures Purchases([e] + later, "a") == (if Buys(e, "a") then 1 else 0) + Purchases(later, "a")
  {
    assert ([e] + later)[1..] == later;
  }

  /** One event more. */
  lemma Count(events: seq<Event>, t: System, attributed: nat, bought: nat, e: Event, t': System)
    requires Counted(events, t, attributed, bought) && Enabled(t, e) && t' == Step(t, e)
    ensures Counted(events + [e], t', attributed + (if SaleAttributed(t, e, "a") then 1 else 0),
                    bought + (if Buys(e, "a") then 1 else 0))
  {
    RunsOn(EMPTY, events, t, e);
    forall later
      ensures Attributions(EMPTY, events + [e] + later, "a")
           == attributed + (if SaleAttributed(t, e, "a") then 1 else 0) + Attributions(t', later, "a")
      ensures Purchases(events + [e] + later, "a") == bought + (if Buys(e, "a") then 1 else 0) + Purchases(later, "a")
    {
      assert events + [e] + later == events + ([e] + later);
      CountOne(t, e, later);
    }
  }

  lemma CountedTotals(events: seq<Event>, t: System, attributed: nat, bought: nat)
    requires Counted(events, t, attributed, bought)
    ensures Attributions(EMPTY, events, "a") == attributed && Purchases(events, "a") == bought
  {
    assert events + [] == events;
    assert Attributions(t, [], "a") == 0 && Purchases([], "a") == 0;
  }

  /** The ledger after the purchase. */
  function BoughtLedger(uuid: Option<string>): LedgerMap {
    map[LedgerKey("a", uuid) := Purchase(100, uuid)][NameKey("a") := Purchase(100, uuid)]
  }

  /** One flip was seen and bought, and the ledger written. */
  function BoughtState(uuid: Option<string>): System {
    System(map["a" := Tracked(uuid, 100)], BoughtLedger(uuid), Idle, map[], map[], [], BoughtLedger(uuid))
  }

  function BuyRun(uuid: Option<string>): seq<Event> {
    [FlipSeen("a", uuid)] + [Bought("a", 100)] + [BoughtRecorded] + [LedgerWritten(1)]
  }

  lemma NothingCounted()
    ensures Counted([], EMPTY, 0, 0)
  {
    assert forall later: seq<Event> :: [] + later == later;
  }

  lemma BuySteps(uuid: Option<string>) returns (s1: System, s2: System, s3: System)
    ensures s1 == Step(EMPTY, FlipSeen("a", uuid)) && s1.handler.Idle?
    ensures s2 == Step(s1, Bought("a", 100)) && s2.handler.Buying?
    ensures s3 == Step(s2, BoughtRecorded) && |s3.queue| == 1
    ensures BoughtState(uuid) == Step(s3, LedgerWritten(1))
  {
    CleanA();
    s1 := EMPTY.(tracker := map["a" := Tracked(uuid, 0)]);
    s2 := EMPTY.(tracker := map["a" := Tracked(uuid, 100)], handler := Buying("a", 100, uuid));
    s3 := System(s2.tracker, BoughtLedger(uuid), Idle, map[], map[], [BoughtLedger(uuid)], map[]);
  }

  lemma SeeAndBuy(uuid: Option<string>)
    ensures Counted(BuyRun(uuid), BoughtState(uuid), 0, 1)
  {
    CleanA();
    var s1, s2, s3 := BuySteps(uuid);
    NothingCounted();
    Count([], EMPTY, 0, 0, FlipSeen("a", uuid), s1);
    assert [] + [FlipSeen("a", uuid)] == [FlipSeen("a", uuid)];
    Count([FlipSeen("a", uuid)], s1, 0, 0, Bought("a", 100), s2);
    Count([FlipSeen("a", uuid)] + [Bought("a", 100)], s2, 0, 1, BoughtRecorded, s3);
    Count([FlipSeen("a", uuid)] + [Bought("a", 100)] + [BoughtRecorded], s3, 0, 1, LedgerWritten(1), BoughtState(uuid));
  }

  const SALE := Sold("a", 200, None)
  const SALE_AGAIN := Sold("a", 300, None)

  /** After the sale, with its cleanup still to come. */
  const MID_SALE := BoughtState(None).(tracker := map[], handler := Selling("a", None))

  /** After the cleanup, with the emptied ledger still to be written. */
  const SALE_DONE := System(map[], map[], Idle, map[], map[], [map[]], BoughtLedger(None))

  lemma SaleSteps()
    ensures Step(BoughtState(None), SALE) == MID_SALE && Step(MID_SALE, SoldCleaned) == SALE_DONE
    ensures SaleAttributed(BoughtState(None), SALE, "a")
  {
    CleanA();
  }

  /** A sale whose item only the ledger knows is attributed. */
  lemma LedgerSale(s: System)
    requires s.handler.Idle? && s.tracker == map[] && s.ledger == BoughtLedger(None)
    ensures SaleAttributed(s, SALE_AGAIN, "a")
  {
    CleanA();
  }

  /** What is written and restored when a tracker without bought flips is saved and the process restarted. */
  lemma SaveAndRestart(s: System) returns (s1: System, s2: System, t: System)
    requires s.tracker == map[] && s.snapshots == map[]
    ensures s1 == Step(s, SaveBegins(0)) && Enabled(s1, SaveWrites(0)) && s2 == Step(s1, SaveWrites(0))
    ensures t == Step(s2, Restart({})) && t == System(map[], s.ledgerFile, Idle, map[], map[], [], s.ledgerFile)
  {
    s1 := Step(s, SaveBegins(0));
    assert BoughtOnly(s.tracker) == map[];
    s2 := Step(s1, SaveWrites(0));
    assert s2.file == map[];
    t := Step(s2, Restart({}));
  }

  /** A run, its save and restart, and a second sale. */
  lemma SoldAgainAfterRestart(events: seq<Event>, s: System)
    requires Counted(events, s, 1, 1) && s.tracker == map[] && s.snapshots == map[]
    requires s.ledgerFile == BoughtLedger(None)
    ensures var run := events + [SaveBegins(0)] + [SaveWrites(0)] + [Restart({})] + [SALE_AGAIN];
            Attributions(EMPTY, run, "a") == 2 && Purchases(run, "a") == 1
  {
    var s1, s2, t := SaveAndRestart(s);
    Count(events, s, 1, 1, SaveBegins(0), s1);
    Count(events + [SaveBegins(0)], s1, 1, 1, SaveWrites(0), s2);
    Count(events + [SaveBegins(0)] + [SaveWrites(0)], s2, 1, 1, Restart({}), t);
    LedgerSale(t);
    var run := events + [SaveBegins(0)] + [SaveWrites(0)] + [Restart({})];
    Count(run, t, 1, 1, SALE_AGAIN, Step(t, SALE_AGAIN));
    CountedTotals(run + [SALE_AGAIN], Step(t, SALE_AGAIN), 2, 1);
  }

  lemma SellOnce()
    ensures Counted(BuyRun(None) + [SALE], MID_SALE, 1, 1)
    ensures Counted(BuyRun(None) + [SALE] + [SoldCleaned], SALE_DONE, 1, 1)
  {
    SeeAndBuy(None);
    SaleSteps();
    Count(BuyRun(None), BoughtState(None), 0, 1, SALE, MID_SALE);
    Count(BuyRun(None) + [SALE], MID_SALE, 1, 1, SoldCleaned, SALE_DONE);
  }

  /** A rest break between a sale's two sections brings back the ledger entry the cleanup was to remove. */
  lemma BreakInsideSaleAttributesTwice()
    ensures var run := BuyRun(None) + [SALE] + [SaveBegins(0)] + [SaveWrites(0)] + [Restart({})] + [SALE_AGAIN];
            Attributions(EMPTY, run, "a") == 2 && Purchases(run, "a") == 1
  {
    SellOnce();
    SoldAgainAfterRestart(BuyRun(None) + [SALE], MID_SALE);
  }

  /** A rest break before the debounced ledger write brings back the entry of a sale already cleaned up. */
  lemma BreakBeforeLedgerWriteAttributesTwice()
    ensures var run := BuyRun(None) + [SALE] + [SoldCleaned]
                       + [SaveBegins(0)] + [SaveWrites(0)] + [Restart({})] + [SALE_AGAIN];
            Attributions(EMPTY, run, "a") == 2 && Purchases(run, "a") == 1
  {
    SellOnce();
    SoldAgainAfterRestart(BuyRun(None) + [SALE] + [SoldCleaned], SALE_DONE);
  }

  const SAVED: TrackerMap := map["a" := Tracked(None, 100)]

  lemma SavedSteps() returns (s1: System, s2: System)
    ensures s1 == Step(BoughtState(None), SaveBegins(0))
    ensures Enabled(s1, SaveWrites(0)) && s2 == Step(s1, SaveWrites(0)) && s2 == BoughtState(None).(file := SAVED)
  {
    var s := BoughtState(None);
    assert BoughtOnly(s.tracker) == SAVED;
    s1 := s.(snapshots := map[0 := SAVED]);
    assert s1.snapshots - {0} == map[];
    s2 := s.(file := SAVED);
  }

  lemma StaleSale(s2: System) returns (s3: System, s4: System)
    requires s2 == BoughtState(None).(file := SAVED)
    ensures s3 == Step(s2, SALE) && SaleAttributed(s2, SALE, "a") && s3.handler.Selling?
    ensures s4 == Step(s3, SoldCleaned) && s4 == SALE_DONE.(file := SAVED)
  {
    CleanA();
    s3 := MID_SALE.(file := SAVED);
    s4 := SALE_DONE.(file := SAVED);
  }

  lemma StaleRestart(s4: System) returns (s5: System, t: System)
    requires s4 == SALE_DONE.(file := SAVED)
    ensures s5 == Step(s4, LedgerWritten(1))
    ensures t == Step(s5, Restart({"a"})) && t == System(SAVED, map[], Idle, map[], SAVED, [], map[])
  {
    s5 := System(map[], map[], Idle, map[], SAVED, [], map[]);
    assert Kept(SAVED, {"a"}) == SAVED;
    t := System(SAVED, map[], Idle, map[], SAVED, [], map[]);
  }

  function StaleRun(): seq<Event> {
    BuyRun(None) + [SaveBegins(0)] + [SaveWrites(0)] + [SALE] + [SoldCleaned] + [LedgerWritten(1)] + [Restart({"a"})]
  }

  lemma CountStaleRun() returns (t: System)
    ensures t == System(SAVED, map[], Idle, map[], SAVED, [], map[])
    ensures Counted(StaleRun(), t, 1, 1)
  {
    var s1, s2 := SavedSteps();
    var s3, s4 := StaleSale(s2);
    var s5;
    s5, t := StaleRestart(s4);
    SeeAndBuy(None);
    var e := BuyRun(None);
    Count(e, BoughtState(None), 0, 1, SaveBegins(0), s1);
    Count(e + [SaveBegins(0)], s1, 0, 1, SaveWrites(0), s2);
    Count(e + [SaveBegins(0)] + [SaveWrites(0)], s2, 0, 1, SALE, s3);
    Count(e + [SaveBegins(0)] + [SaveWrites(0)] + [SALE], s3, 1, 1, SoldCleaned, s4);
    Count(e + [SaveBegins(0)] + [SaveWrites(0)] + [SALE] + [SoldCleaned], s4, 1, 1, LedgerWritten(1), s5);
    Count(e + [SaveBegins(0)] + [SaveWrites(0)] + [SALE] + [SoldCleaned] + [LedgerWritten(1)], s5, 1, 1,
          Restart({"a"}), t);
  }

  /** A restart that saves nothing brings back the tracker of the last save, and with it a flip already sold. */
  lemma RestartWithoutSaveAttributesTwice()
    ensures Attributions(EMPTY, StaleRun() + [SALE_AGAIN], "a") == 2 && Purchases(StaleRun() + [SALE_AGAIN], "a") == 1
  {
    CleanA();
    var t := CountStaleRun();
    assert SaleAttributed(t, SALE_AGAIN, "a");
    Count(StaleRun(), t, 1, 1, SALE_AGAIN, Step(t, SALE_AGAIN));
    CountedTotals(StaleRun() + [SALE_AGAIN], Step(t, SALE_AGAIN), 2, 1);
  }

  const CLASH_SALE := Sold("a", 200, Some("v"))
  const CLASH_AGAIN := Sold("a", 300, Some("u"))

  lemma ClashSteps() returns (s: System, t: System)
    ensures s == Step(BoughtState(Some("u")), CLASH_SALE) && s.handler.Selling?
    ensures t == Step(s, SoldCleaned) && t.handler.Idle?
    ensures SaleAttributed(BoughtState(Some("u")), CLASH_SALE, "a") && SaleAttributed(t, CLASH_AGAIN, "a")
  {
    CleanA();
    assert UuidKey("u")[5] == 'u' && UuidKey("v")[5] == 'v';
    KeysDistinct("a", Some("u"), "a");
    KeysDistinct("a", Some("v"), "a");
    s := Step(BoughtState(Some("u")), CLASH_SALE);
    assert s.tracker == map[] && s.ledger == BoughtLedger(Some("u"));
    t := Step(s, SoldCleaned);
    assert UuidKey("u") in t.ledger;
  }

  /**
    A sale found in the tracker leaves the purchase's own auction-id entry in the ledger, and a second sale under
    that id is attributed a profit again.
   */
  lemma ClashAttributesTwice()
    ensures var run := BuyRun(Some("u")) + [CLASH_SALE] + [SoldCleaned] + [CLASH_AGAIN];
            Attributions(EMPTY, run, "a") == 2 && Purchases(run, "a") == 1
  {
    CleanA();
    var b := BoughtState(Some("u"));
    var s, t := ClashSteps();
    SeeAndBuy(Some("u"));
    Count(BuyRun(Some("u")), b, 0, 1, CLASH_SALE, s);
    Count(BuyRun(Some("u")) + [CLASH_SALE], s, 1, 1, SoldCleaned, t);
    var run := BuyRun(Some("u")) + [CLASH_SALE] + [SoldCleaned];
    Count(run, t, 1, 1, CLASH_AGAIN, Step(t, CLASH_AGAIN));
    CountedTotals(run + [CLASH_AGAIN], Step(t, CLASH_AGAIN), 2, 1);
  }

  const OWN_SALE := Sold("a", 200, Some("u"))

  lemma ShadowSteps() returns (s: System, t: System)
    ensures s == Step(BoughtState(Some("u")), OWN_SALE) && s.handler.Selling?
    ensures t == Step(s, SoldCleaned) && t.handler.Idle?
    ensures SaleAttributed(BoughtState(Some("u")), OWN_SALE, "a") && SaleAttributed(t, SALE_AGAIN, "a")
  {
    CleanA();
    KeysDistinct("a", Some("u"), "a");
    s := Step(BoughtState(Some("u")), OWN_SALE);
    assert s.tracker == map[] && s.ledger == BoughtLedger(Some("u"));
    t := Step(s, SoldCleaned);
    assert NameKey("a") in t.ledger && t.tracker == map[];
  }

  /**
    The cleanup of a sale under the purchase's own auction id stops at the auction-id entry, and a second sale finds
    the name entry it left.
   */
  lemma ShortCleanupAttributesTwice()
    ensures var run := BuyRun(Some("u")) + [OWN_SALE] + [SoldCleaned] + [SALE_AGAIN];
            Attributions(EMPTY, run, "a") == 2 && Purchases(run, "a") == 1
  {
    CleanA();
    var b := BoughtState(Some("u"));
    var s, t := ShadowSteps();
    SeeAndBuy(Some("u"));
    Count(BuyRun(Some("u")), b, 0, 1, OWN_SALE, s);
    Count(BuyRun(Some("u")) + [OWN_SALE], s, 1, 1, SoldCleaned, t);
    var run := BuyRun(Some("u")) + [OWN_SALE] + [SoldCleaned];
    Count(run, t, 1, 1, SALE_AGAIN, Step(t, SALE_AGAIN));
    CountedTotals(run + [SALE_AGAIN], Step(t, SALE_AGAIN), 2, 1);
  }
}
