/**
  `save_flip_tracker` and `restore_flip_tracker` of `src/main.rs`: how the sell clock of a bought flip
  crosses a restart.

  Instants and the wall clock are reals on one time line, so `elapsed` is a difference; Unix stamps are its
  whole seconds. `Instant::checked_sub` is taken to succeed.
 */
module FlipClock {
  import opened Wrappers

  const MAX_TRACKED_AGE: nat := 7 * 24 * 60 * 60

  function Floor(t: real): int { t.Floor }

  function SaturatingSub(a: int, b: int): nat { if a < b then 0 else a - b }

  datatype Flip = Flip(itemName: string, startingBid: nat, target: nat, uuid: Option<string>)

  /** A tracker entry: the flip, its buy price (0 until bought), and the purchase and receive instants. */
  datatype Entry = Entry(flip: Flip, buyPrice: nat, purchased: real, received: real)

  /** What the file keeps of it. */
  datatype Saved = Saved(flip: Flip, buyPrice: nat, purchasedAt: nat, receivedAt: nat)

  type Tracker = map<string, Entry>
  type TrackerFile = map<string, map<string, Saved>>

  /** `now.saturating_sub(t.elapsed().as_secs())`. */
  function Stamp(now: real, t: real): nat { SaturatingSub(Floor(now), Floor(now - t)) }

  /** The instant a stamp is read back as. */
  function Anchor(now: real, stamp: nat): real { now - SaturatingSub(Floor(now), stamp) as real }

  function SaveEntry(now: real, e: Entry): Saved {
    Saved(e.flip, e.buyPrice, Stamp(now, e.purchased), Stamp(now, e.received))
  }

  function RestoreEntry(now: real, s: Saved): Entry {
    Entry(s.flip, s.buyPrice, Anchor(now, s.purchasedAt), Anchor(now, s.receivedAt))
  }

  function Save(file: TrackerFile, ign: string, now: real, tracker: Tracker): TrackerFile {
    var snapshot := map k | k in tracker && tracker[k].buyPrice > 0 :: SaveEntry(now, tracker[k]);
    if snapshot == map[] then file - {ign} else file[ign := snapshot]
  }

  predicate YoungEnough(now: real, s: Saved) { SaturatingSub(Floor(now), s.purchasedAt) <= MAX_TRACKED_AGE }

  function Restore(file: TrackerFile, ign: string, now: real): Tracker {
    if ign !in file then map[]
    else map k | k in file[ign] && YoungEnough(now, file[ign][k]) :: RestoreEntry(now, file[ign][k])
  }

  /** Exactly the bought flips young enough at the restore come back, under their keys, with their data. */
  lemma {:induction false} SurvivorsOfRestart(file: TrackerFile, ign: string, tracker: Tracker,
                                              saved: real, restored: real)
    ensures var after := Restore(Save(file, ign, saved, tracker), ign, restored);
            && (forall k :: k in after <==>
                  k in tracker && tracker[k].buyPrice > 0
                  && restored.Floor <= SaveEntry(saved, tracker[k]).purchasedAt + 604_800)
            && (forall k :: k in after ==> after[k] == RestoreEntry(restored, SaveEntry(saved, tracker[k])))
  {
    var snapshot := map k | k in tracker && tracker[k].buyPrice > 0 :: SaveEntry(saved, tracker[k]);
    if snapshot == map[] {
      assert forall k :: k in tracker && tracker[k].buyPrice > 0 ==> k in snapshot;
    }
  }

  /** A stamp ahead of the clock, as after it was set back, counts as now. */
  lemma ClockBehindStamp(now: real, s: Saved)
    requires now.Floor <= s.purchasedAt
    ensures YoungEnough(now, s) && RestoreEntry(now, s).purchased == now
  {
  }

  /** Saving one account leaves every other account's restore alone. */
  lemma {:induction false} OtherAccountsUntouched(file: TrackerFile, ign: string, other: string, tracker: Tracker,
                                                  saved: real, now: real)
    requires other != ign
    ensures Restore(Save(file, ign, saved, tracker), other, now) == Restore(file, other, now)
  {
  }

  // ----- Drift -----

  /** A restart: the last save before it, with the tracker saved and the file it found, and the restore after it. */
  datatype Restart = Restart(saved: real, tracker: Tracker, file: TrackerFile, restored: real)

  /** Restarts in order on the time line, the first save not before `from`. */
  ghost predicate InOrder(from: real, restarts: seq<Restart>)
    decreases |restarts|
  {
    restarts != [] ==>
      from <= restarts[0].saved <= restarts[0].restored && InOrder(restarts[0].restored, restarts[1..])
  }

  /** The instant a tracked instant has become after some restarts. */
  function Carried(t: real, restarts: seq<Restart>): real
    decreases |restarts|
  {
    if restarts == [] then t
    else Carried(Anchor(restarts[0].restored, Stamp(restarts[0].saved, t)), restarts[1..])
  }

  /** One restart moves an instant back by less than one second or forward by less than two. */
  lemma {:induction false} DriftOfRestart(t: real, r: Restart)
    requires 0.0 <= t <= r.saved <= r.restored
    ensures var t' := Anchor(r.restored, Stamp(r.saved, t)); 0.0 <= t' <= r.restored && -1.0 < t' - t < 2.0
  {
    assert Floor(r.saved - t) as real <= r.saved - t < Floor(r.saved - t) as real + 1.0;
    assert Floor(r.saved) as real <= r.saved < Floor(r.saved) as real + 1.0;
    assert Floor(r.restored) as real <= r.restored < Floor(r.restored) as real + 1.0;
    assert Floor(r.saved) <= Floor(r.restored);
    assert (Floor(r.saved) - Floor(r.saved - t)) as real > t - 1.0;
  }

  lemma {:induction false} DriftOfRestarts(t: real, from: real, restarts: seq<Restart>)
    requires 0.0 <= t <= from && InOrder(from, restarts)
    ensures restarts != [] ==> -(|restarts| as real) < Carried(t, restarts) - t < 2.0 * |restarts| as real
    ensures restarts == [] ==> Carried(t, restarts) == t
    decreases |restarts|
  {
    if restarts != [] {
      DriftOfRestart(t, restarts[0]);
      DriftOfRestarts(Anchor(restarts[0].restored, Stamp(restarts[0].saved, t)), restarts[0].restored, restarts[1..]);
    }
  }

  function RestoredBy(r: Restart, ign: string): Tracker {
    Restore(Save(r.file, ign, r.saved, r.tracker), ign, r.restored)
  }

  /** The tracker of one account as the last of the restarts leaves it. */
  function AfterRestarts(tracker: Tracker, ign: string, restarts: seq<Restart>): Tracker
    decreases |restarts|
  {
    if restarts == [] then tracker else AfterRestarts(RestoredBy(restarts[0], ign), ign, restarts[1..])
  }

  predicate SameEntry(a: Tracker, b: Tracker, key: string) {
    (key in a <==> key in b) && (key in a ==> a[key] == b[key])
  }

  /** From each restore to the next save the entry of one key stays as it is, whatever happens to other keys. */
  ghost predicate Unsold(tracker: Tracker, ign: string, restarts: seq<Restart>, key: string)
    decreases |restarts|
  {
    restarts != [] ==>
      SameEntry(tracker, restarts[0].tracker, key) && Unsold(RestoredBy(restarts[0], ign), ign, restarts[1..], key)
  }

  /**
    An unsold flip still tracked after any restarts is the one bought, its clock behind by less than a second or
    ahead by less than two for each restart, whatever else was flipped, bought and sold in between.
   */
  lemma {:induction false} TrackedAcrossRestarts(tracker: Tracker, ign: string, from: real, restarts: seq<Restart>,
                                                 key: string)
    requires InOrder(from, restarts) && restarts != [] && Unsold(tracker, ign, restarts, key)
    requires key in AfterRestarts(tracker, ign, restarts)
    requires key in tracker ==> 0.0 <= tracker[key].purchased <= from && 0.0 <= tracker[key].received <= from
    ensures key in tracker && tracker[key].buyPrice > 0
    ensures var before, after := tracker[key], AfterRestarts(tracker, ign, restarts)[key];
            && after == Entry(before.flip, before.buyPrice, Carried(before.purchased, restarts),
                              Carried(before.received, restarts))
            && -(|restarts| as real) < after.purchased - before.purchased < 2.0 * |restarts| as real
            && -(|restarts| as real) < after.received - before.received < 2.0 * |restarts| as real
    decreases |restarts|
  {
    var r := restarts[0];
    var tracker' := RestoredBy(r, ign);
    SurvivorsOfRestart(r.file, ign, r.tracker, r.saved, r.restored);
    if |restarts| > 1 {
      if key in tracker' {
        DriftOfRestart(tracker[key].purchased, r);
        DriftOfRestart(tracker[key].received, r);
      }
      TrackedAcrossRestarts(tracker', ign, r.restored, restarts[1..], key);
    }
    DriftOfRestarts(tracker[key].purchased, from, restarts);
    DriftOfRestarts(tracker[key].received, from, restarts);
  }

  /**
    In true time: a tracked flip was bought less than two seconds over a week ago, and a bought flip a second
    short of a week old is tracked.
   */
  lemma {:induction false} OnlyYoungBoughtFlipsSurvive(r: Restart, ign: string, key: string)
    requires key in r.tracker && 0.0 <= r.tracker[key].purchased <= r.saved <= r.restored
    ensures var entry := r.tracker[key];
            var age, survives := r.restored - entry.purchased, key in RestoredBy(r, ign);
            && (survives ==> entry.buyPrice > 0 && age < 604_802.0)
            && (entry.buyPrice > 0 && age <= 604_799.0 ==> survives)
  {
    SurvivorsOfRestart(r.file, ign, r.tracker, r.saved, r.restored);
    DriftOfRestart(r.tracker[key].purchased, r);
  }
}
