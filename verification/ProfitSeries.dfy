/**
  The profit series of `src/profit.rs`: bounded points, running totals and the session view.
  Time is a parameter of every operation; totals are unbounded integers.
 */
module ProfitSeries {

  /** A Unix second and the cumulative profit at it. */
  type Point = (nat, int)

  const MAX_POINTS: nat := 5000

  // ----- Bounded pushing -----

  /** Positions `i`, `i + 2`, ... short of the last one. */
  function EveryOther<T>(s: seq<T>, i: nat): seq<T>
    decreases |s| - i
  {
    if i + 1 < |s| then [s[i]] + EveryOther(s, i + 2) else []
  }

  function Decimate<T>(s: seq<T>): seq<T>
    requires s != []
  {
    [s[0]] + EveryOther(s, 1) + [s[|s| - 1]]
  }

  /** `push_point`. */
  function Push<T>(s: seq<T>, x: T): seq<T> {
    if |s| < MAX_POINTS then s + [x] else Decimate(s + [x])
  }

  method PushPoint(points: seq<Point>, point: Point) returns (r: seq<Point>)
    ensures r == Push(points, point)
  {
    r := points + [point];
    if |r| <= MAX_POINTS {
      return;
    }
    var decimated := [r[0]];
    var i := 1;
    while i + 1 < |r|
      invariant 1 <= i
      invariant decimated + EveryOther(r, i) == [r[0]] + EveryOther(r, 1)
    {
      decimated := decimated + [r[i]];
      i := i + 2;
    }
    r := decimated + [r[|r| - 1]];
  }

  lemma {:induction false} EveryOtherAt<T>(s: seq<T>, i: nat)
    requires i < |s|
    ensures |EveryOther(s, i)| == (|s| - i) / 2
    ensures forall j :: 0 <= j < |EveryOther(s, i)| ==> i + 2 * j + 1 < |s| && EveryOther(s, i)[j] == s[i + 2 * j]
    decreases |s| - i
  {
    if i + 2 < |s| {
      EveryOtherAt(s, i + 2);
    }
  }

  /** The position a decimated element had. */
  function Origin(length: nat, j: nat): nat
    requires length > 0
  {
    if j == 0 then 0 else if j < 1 + (length - 1) / 2 then 2 * j - 1 else length - 1
  }

  lemma DecimateAt<T>(s: seq<T>)
    requires |s| > 1
    ensures |Decimate(s)| == 2 + (|s| - 1) / 2
    ensures forall j :: 0 <= j < |Decimate(s)| ==> Origin(|s|, j) < |s| && Decimate(s)[j] == s[Origin(|s|, j)]
  {
    EveryOtherAt(s, 1);
  }

  function PushAll<T>(s: seq<T>, xs: seq<T>): seq<T> {
    if xs == [] then s else Push(PushAll(s, xs[..|xs| - 1]), xs[|xs| - 1])
  }

  /** The points all decimations of a run copy. */
  function Copied<T>(s: seq<T>, xs: seq<T>): nat {
    if xs == [] then 0
    else
      var before := PushAll(s, xs[..|xs| - 1]);
      Copied(s, xs[..|xs| - 1]) + if |before| < MAX_POINTS then 0 else |Push(before, xs[|xs| - 1])|
  }

  /** `picks` are the positions in `whole`, in order, whose elements make up `part`. */
  predicate PicksOut<T(==)>(part: seq<T>, whole: seq<T>, picks: seq<nat>) {
    |picks| == |part|
    && (forall j :: 0 <= j < |part| ==> picks[j] < |whole| && part[j] == whole[picks[j]])
    && (forall j, k :: 0 <= j < k < |picks| ==> picks[j] < picks[k])
  }

  lemma DecimatePicks<T>(part: seq<T>, whole: seq<T>, picks: seq<nat>)
    requires PicksOut(part, whole, picks) && |part| > 1
    ensures PicksOut(Decimate(part), whole, Decimate<nat>(picks))
  {
    var part', picks' := Decimate(part), Decimate<nat>(picks);
    DecimateAt(part);
    DecimateAt<nat>(picks);
    forall j | 0 <= j < |part'|
      ensures picks'[j] < |whole| && part'[j] == whole[picks'[j]]
    {
      assert picks'[j] == picks[Origin(|part|, j)];
    }
    forall j, k | 0 <= j < k < |picks'|
      ensures picks'[j] < picks'[k]
    {
      assert Origin(|part|, j) < Origin(|part|, k);
    }
  }

  /** One push keeps a subsequence of the history with its first and last elements one. */
  lemma PushPicks<T>(part: seq<T>, whole: seq<T>, picks: seq<nat>, x: T)
    requires PicksOut(part, whole, picks) && part != [] && picks[0] == 0
    ensures PicksOut(Push(part, x), whole + [x], Push<nat>(picks, |whole|))
    ensures Push<nat>(picks, |whole|)[0] == 0 && Push<nat>(picks, |whole|)[|Push<nat>(picks, |whole|)| - 1] == |whole|
  {
    var picks': seq<nat> := picks + [|whole|];
    assert PicksOut(part + [x], whole + [x], picks');
    if |part| >= MAX_POINTS {
      DecimatePicks(part + [x], whole + [x], picks');
    }
  }

  /**
    After any pushes onto a series within the bound: the bound holds, the series is a subsequence of everything
    ever in it that keeps the first and the latest point, and decimation has copied at most two points a push.
   */
  lemma {:induction false} SeriesAfterPushes<T>(s: seq<T>, xs: seq<T>) returns (picks: seq<nat>)
    requires 0 < |s| <= MAX_POINTS
    ensures 0 < |PushAll(s, xs)| <= MAX_POINTS
    ensures PicksOut(PushAll(s, xs), s + xs, picks) && picks[0] == 0 && picks[|picks| - 1] == |s + xs| - 1
    ensures Copied(s, xs) + 2 * |PushAll(s, xs)| <= 2 * |xs| + 2 * |s|
  {
    if xs == [] {
      assert s + xs == s;
      picks := seq(|s|, i => i);
    } else {
      var front, last := xs[..|xs| - 1], xs[|xs| - 1];
      var before := PushAll(s, front);
      picks := SeriesAfterPushes(s, front);
      PushPicks(before, s + front, picks, last);
      assert s + front + [last] == s + xs;
      picks := Push<nat>(picks, |s + front|);
      if |before| == MAX_POINTS {
        DecimateAt(before + [last]);
      }
    }
  }

  /** From a new tracker, decimation copies at most twice the number of pushes. */
  lemma {:induction false} NewTrackerCopies<T>(first: T, xs: seq<T>)
    ensures Copied([first], xs) <= 2 * |xs|
  {
    var picks := SeriesAfterPushes([first], xs);
  }

  /** A push brings a series within the bound exactly when it was at least three points short of twice the bound. */
  lemma PushBoundsExactly<T>(s: seq<T>, x: T)
    ensures |Push(s, x)| <= 5000 <==> |s| <= 9997
  {
    if |s| >= MAX_POINTS {
      DecimateAt(s + [x]);
    }
  }

  // ----- Totals -----

  /** What the mutex guards: both series and both running totals. */
  datatype Inner = Inner(ahPoints: seq<Point>, bzPoints: seq<Point>, ahTotal: int, bzTotal: int)

  datatype Op = RecordAh(profit: int) | SetAh(total: int) | RecordBz(profit: int) | SetBz(total: int)

  function Apply(i: Inner, op: Op, now: nat): Inner {
    match op
    case RecordAh(p) => i.(ahTotal := i.ahTotal + p, ahPoints := Push(i.ahPoints, (now, i.ahTotal + p)))
    case SetAh(t) => i.(ahTotal := t, ahPoints := Push(i.ahPoints, (now, t)))
    case RecordBz(p) => i.(bzTotal := i.bzTotal + p, bzPoints := Push(i.bzPoints, (now, i.bzTotal + p)))
    case SetBz(t) => i.(bzTotal := t, bzPoints := Push(i.bzPoints, (now, t)))
  }

  // ----- The session view -----

  /** `build_session_points`, from its first point on. */
  function Session(points: seq<Point>, start: nat, baseline: int): (r: seq<Point>)
    ensures r != []
  {
    if points == [] then [(start, 0)]
    else
      var so, p := Session(points[..|points| - 1], start, baseline), points[|points| - 1];
      if p.0 < start then so
      else if so[|so| - 1].0 == p.0 then so[..|so| - 1] + [(p.0, p.1 - baseline)]
      else so + [(p.0, p.1 - baseline)]
  }

  method BuildSessionPoints(points: seq<Point>, start: nat, baseline: int) returns (r: seq<Point>)
    ensures r == Session(points, start, baseline)
  {
    r := [(start, 0)];
    for k := 0 to |points|
      invariant r != [] && r == Session(points[..k], start, baseline)
    {
      assert points[..k + 1][..k] == points[..k];
      var (ts, value) := points[k];
      if ts >= start {
        var delta := value - baseline;
        if r[|r| - 1].0 == ts {
          r := r[|r| - 1 := (ts, delta)];
          continue;
        }
        r := r + [(ts, delta)];
      }
    }
    assert points[..|points|] == points;
  }

  predicate EndsAt(points: seq<Point>, total: int) { points != [] && points[|points| - 1].1 == total }

  predicate TimeOrdered(points: seq<Point>) {
    forall i, j :: 0 <= i < j < |points| ==> points[i].0 <= points[j].0
  }

  predicate TimeStrict(points: seq<Point>) {
    forall i, j :: 0 <= i < j < |points| ==> points[i].0 < points[j].0
  }

  datatype Reading = Nothing | Value(v: int)

  /** The last value a series has at a timestamp. */
  function LastAt(points: seq<Point>, ts: nat): Reading {
    if points == [] then Nothing
    else if points[|points| - 1].0 == ts then Value(points[|points| - 1].1)
    else LastAt(points[..|points| - 1], ts)
  }

  /** What the session view must show at a timestamp. */
  function SessionReading(points: seq<Point>, start: nat, baseline: int, ts: nat): Reading {
    if ts < start then Nothing
    else match LastAt(points, ts)
      case Value(v) => Value(v - baseline)
      case Nothing => if ts == start then Value(0) else Nothing
  }

  lemma {:induction false} NothingAfter(points: seq<Point>, ts: nat)
    requires forall i :: 0 <= i < |points| ==> points[i].0 < ts
    ensures LastAt(points, ts) == Nothing
  {
    if points != [] {
      NothingAfter(points[..|points| - 1], ts);
    }
  }

  /** The session view has strictly rising times from the session start, and ends at the latest point since then. */
  lemma {:induction false} SessionShape(points: seq<Point>, start: nat, baseline: int)
    requires TimeOrdered(points)
    ensures var so := Session(points, start, baseline);
            && TimeStrict(so) && so[0].0 == start
            && so[|so| - 1] == if points == [] || points[|points| - 1].0 < start then (start, 0)
                               else (points[|points| - 1].0, points[|points| - 1].1 - baseline)
  {
    if points != [] {
      SessionShape(points[..|points| - 1], start, baseline);
    }
  }

  /** At every time it shows the series' last value of that time, less the baseline. */
  lemma {:induction false} SessionReads(points: seq<Point>, start: nat, baseline: int, ts: nat)
    ensures LastAt(Session(points, start, baseline), ts) == SessionReading(points, start, baseline, ts)
  {
    var so := Session(points, start, baseline);
    if points == [] {
      assert so[..0] == [];
    } else {
      var front, p := points[..|points| - 1], points[|points| - 1];
      var so' := Session(front, start, baseline);
      SessionReads(front, start, baseline, ts);
      if p.0 >= start {
        var kept := if so'[|so'| - 1].0 == p.0 then so'[..|so'| - 1] else so';
        assert so == kept + [(p.0, p.1 - baseline)] && so[..|so| - 1] == kept;
      }
    }
  }

  // ----- The tracker -----

  /** One side of a snapshot: the series, the total, and both as seen since the session start. */
  datatype View = View(points: seq<Point>, total: int, sessionPoints: seq<Point>, sessionTotal: int)

  function ViewOf(points: seq<Point>, total: int, start: nat, baseline: int): View {
    View(points, total, Session(points, start, baseline), total - baseline)
  }

  class ProfitTracker {
    var inner: Inner
    const sessionStart: nat
    const ahBaseline: int
    const bzBaseline: int

    constructor New(now: nat)
      ensures inner == Inner([(now, 0)], [(now, 0)], 0, 0)
      ensures sessionStart == now && ahBaseline == 0 && bzBaseline == 0
    {
      inner := Inner([(now, 0)], [(now, 0)], 0, 0);
      sessionStart, ahBaseline, bzBaseline := now, 0, 0;
    }

    /** `load_or_new` on what the file held. */
    constructor Load(saved: Inner, now: nat)
      ensures inner == Loaded(saved, now)
      ensures sessionStart == now && ahBaseline == saved.ahTotal && bzBaseline == saved.bzTotal
    {
      var ah := if saved.ahPoints == [] then [(now, saved.ahTotal)] else saved.ahPoints;
      var bz := if saved.bzPoints == [] then [(now, saved.bzTotal)] else saved.bzPoints;
      inner := Inner(ah, bz, saved.ahTotal, saved.bzTotal);
      sessionStart, ahBaseline, bzBaseline := now, saved.ahTotal, saved.bzTotal;
    }

    method RecordAhProfit(profit: int, now: nat)
      modifies this`inner
      ensures inner == Apply(old(inner), RecordAh(profit), now)
    {
      var total := inner.ahTotal + profit;
      var points := PushPoint(inner.ahPoints, (now, total));
      inner := inner.(ahTotal := total, ahPoints := points);
    }

    method SetAhTotal(total: int, now: nat)
      modifies this`inner
      ensures inner == Apply(old(inner), SetAh(total), now)
    {
      var points := PushPoint(inner.ahPoints, (now, total));
      inner := inner.(ahTotal := total, ahPoints := points);
    }

    method RecordBzProfit(profit: int, now: nat)
      modifies this`inner
      ensures inner == Apply(old(inner), RecordBz(profit), now)
    {
      var total := inner.bzTotal + profit;
      var points := PushPoint(inner.bzPoints, (now, total));
      inner := inner.(bzTotal := total, bzPoints := points);
    }

    method SetBzTotal(total: int, now: nat)
      modifies this`inner
      ensures inner == Apply(old(inner), SetBz(total), now)
    {
      var points := PushPoint(inner.bzPoints, (now, total));
      inner := inner.(bzTotal := total, bzPoints := points);
    }

    /** In a consistent session the totals are the values the session series end with. */
    method SessionTotals() returns (ah: int, bz: int)
      ensures (ah, bz) == (inner.ahTotal - ahBaseline, inner.bzTotal - bzBaseline)
      ensures forall clock :: TrackerTrue(inner, clock, sessionStart, ahBaseline, bzBaseline) ==>
                EndsAt(Session(inner.ahPoints, sessionStart, ahBaseline), ah)
                && EndsAt(Session(inner.bzPoints, sessionStart, bzBaseline), bz)
    {
      ah, bz := inner.ahTotal - ahBaseline, inner.bzTotal - bzBaseline;
      forall clock | TrackerTrue(inner, clock, sessionStart, ahBaseline, bzBaseline)
        ensures EndsAt(Session(inner.ahPoints, sessionStart, ahBaseline), ah)
        ensures EndsAt(Session(inner.bzPoints, sessionStart, bzBaseline), bz)
      {
        SessionShape(inner.ahPoints, sessionStart, ahBaseline);
        SessionShape(inner.bzPoints, sessionStart, bzBaseline);
      }
    }

    method Snapshot() returns (ah: View, bz: View)
      ensures ah == ViewOf(inner.ahPoints, inner.ahTotal, sessionStart, ahBaseline)
      ensures bz == ViewOf(inner.bzPoints, inner.bzTotal, sessionStart, bzBaseline)
    {
      var ahSession := BuildSessionPoints(inner.ahPoints, sessionStart, ahBaseline);
      var bzSession := BuildSessionPoints(inner.bzPoints, sessionStart, bzBaseline);
      ah := View(inner.ahPoints, inner.ahTotal, ahSession, inner.ahTotal - ahBaseline);
      bz := View(inner.bzPoints, inner.bzTotal, bzSession, inner.bzTotal - bzBaseline);
    }
  }

  function Loaded(saved: Inner, now: nat): Inner {
    saved.(ahPoints := if saved.ahPoints == [] then [(now, saved.ahTotal)] else saved.ahPoints,
           bzPoints := if saved.bzPoints == [] then [(now, saved.bzTotal)] else saved.bzPoints)
  }

  /** A series that ends at its total, in time order, not past the clock. */
  predicate SeriesTrue(points: seq<Point>, total: int, clock: nat) {
    EndsAt(points, total) && TimeOrdered(points) && points[|points| - 1].0 <= clock
  }

  /** Nothing has changed since the session start, or the latest point is from the session. */
  predicate SessionTrue(points: seq<Point>, total: int, start: nat, baseline: int) {
    points != [] && (points[|points| - 1].0 < start ==> total == baseline)
  }

  /** The tracker's whole invariant at a time of a session. */
  predicate TrackerTrue(i: Inner, clock: nat, start: nat, ahBaseline: int, bzBaseline: int) {
    SeriesTrue(i.ahPoints, i.ahTotal, clock) && SeriesTrue(i.bzPoints, i.bzTotal, clock)
    && SessionTrue(i.ahPoints, i.ahTotal, start, ahBaseline) && SessionTrue(i.bzPoints, i.bzTotal, start, bzBaseline)
  }

  lemma PushStaysOrdered(points: seq<Point>, p: Point)
    requires points != [] && TimeOrdered(points) && points[|points| - 1].0 <= p.0
    ensures TimeOrdered(Push(points, p)) && Push(points, p) != []
    ensures Push(points, p)[|Push(points, p)| - 1] == p
  {
    var all := points + [p];
    assert TimeOrdered(all);
    if |points| >= MAX_POINTS {
      DecimateAt(all);
      forall i, j | 0 <= i < j < |Decimate(all)|
        ensures Decimate(all)[i].0 <= Decimate(all)[j].0
      {
        assert Origin(|all|, i) < Origin(|all|, j);
      }
    }
  }

  lemma ApplyKeepsTrue(i: Inner, op: Op, clock: nat, now: nat, start: nat, ahBaseline: int, bzBaseline: int)
    requires TrackerTrue(i, clock, start, ahBaseline, bzBaseline) && start <= clock <= now
    ensures TrackerTrue(Apply(i, op, now), now, start, ahBaseline, bzBaseline)
  {
    var i' := Apply(i, op, now);
    if op.RecordAh? || op.SetAh? {
      PushStaysOrdered(i.ahPoints, (now, i'.ahTotal));
    } else {
      PushStaysOrdered(i.bzPoints, (now, i'.bzTotal));
    }
  }

  /** Operations in the order they take the lock, each with the clock it read under it. */
  type History = seq<(Op, nat)>

  function ApplyAll(i: Inner, ops: History): Inner {
    if ops == [] then i else Apply(ApplyAll(i, ops[..|ops| - 1]), ops[|ops| - 1].0, ops[|ops| - 1].1)
  }

  function ClockAfter(clock: nat, ops: History): nat { if ops == [] then clock else ops[|ops| - 1].1 }

  predicate ClockRises(clock: nat, ops: History) {
    ops != [] ==> ClockAfter(clock, ops[..|ops| - 1]) <= ops[|ops| - 1].1 && ClockRises(clock, ops[..|ops| - 1])
  }

  lemma {:induction false} RunKeepsTrue(i: Inner, clock: nat, start: nat, ops: History,
                                        ahBaseline: int, bzBaseline: int)
    requires TrackerTrue(i, clock, start, ahBaseline, bzBaseline) && start <= clock && ClockRises(clock, ops)
    ensures clock <= ClockAfter(clock, ops)
    ensures TrackerTrue(ApplyAll(i, ops), ClockAfter(clock, ops), start, ahBaseline, bzBaseline)
  {
    if ops != [] {
      var front := ops[..|ops| - 1];
      RunKeepsTrue(i, clock, start, front, ahBaseline, bzBaseline);
      ApplyKeepsTrue(ApplyAll(i, front), ops[|ops| - 1].0, ClockAfter(clock, front), ops[|ops| - 1].1,
                     start, ahBaseline, bzBaseline);
    }
  }

  // What the operations themselves say a total must be.

  /** The value one side was last set to. */
  function LastSet(ops: History, ah: bool): Reading {
    if ops == [] then Nothing
    else
      match ops[|ops| - 1].0
      case SetAh(total) => if ah then Value(total) else LastSet(ops[..|ops| - 1], ah)
      case SetBz(total) => if ah then LastSet(ops[..|ops| - 1], ah) else Value(total)
      case _ => LastSet(ops[..|ops| - 1], ah)
  }

  /** The sum of the profits recorded on one side since it was last set. */
  function RecordedSince(ops: History, ah: bool): int {
    if ops == [] then 0
    else
      match ops[|ops| - 1].0
      case RecordAh(profit) => RecordedSince(ops[..|ops| - 1], ah) + if ah then profit else 0
      case RecordBz(profit) => RecordedSince(ops[..|ops| - 1], ah) + if ah then 0 else profit
      case SetAh(_) => if ah then 0 else RecordedSince(ops[..|ops| - 1], ah)
      case SetBz(_) => if ah then RecordedSince(ops[..|ops| - 1], ah) else 0
  }

  function TotalOf(initial: int, ops: History, ah: bool): int {
    (match LastSet(ops, ah) case Nothing => initial case Value(v) => v) + RecordedSince(ops, ah)
  }

  /** Each total is what its side started with, or was last set to, plus all the profits recorded on it since. */
  lemma {:induction false} TotalsAreSums(i: Inner, ops: History)
    ensures ApplyAll(i, ops).ahTotal == TotalOf(i.ahTotal, ops, true)
    ensures ApplyAll(i, ops).bzTotal == TotalOf(i.bzTotal, ops, false)
  {
    if ops != [] {
      TotalsAreSums(i, ops[..|ops| - 1]);
    }
  }

  /** The points a history pushes onto one side: at each of its operations, the time and the total by then. */
  function PushedBy(initial: int, ops: History, ah: bool): seq<Point> {
    if ops == [] then []
    else
      var (op, now), front := ops[|ops| - 1], PushedBy(initial, ops[..|ops| - 1], ah);
      if OnAhSide(op) == ah then front + [(now, TotalOf(initial, ops, ah))] else front
  }

  predicate OnAhSide(op: Op) { op.RecordAh? || op.SetAh? }

  lemma PushAllSnoc<T>(s: seq<T>, xs: seq<T>, x: T)
    ensures PushAll(s, xs + [x]) == Push(PushAll(s, xs), x)
  {
    assert (xs + [x])[..|xs|] == xs;
  }

  /** One side pushes its new point, or nothing. */
  lemma SideStep(points: seq<Point>, pushed: seq<Point>, before: seq<Point>, p: Point)
    requires before == PushAll(points, pushed)
    ensures Push(before, p) == PushAll(points, pushed + [p])
  {
    PushAllSnoc(points, pushed, p);
  }

  lemma {:induction false} SeriesIsPushed(i: Inner, ops: History)
    ensures ApplyAll(i, ops).ahPoints == PushAll(i.ahPoints, PushedBy(i.ahTotal, ops, true))
    ensures ApplyAll(i, ops).bzPoints == PushAll(i.bzPoints, PushedBy(i.bzTotal, ops, false))
  {
    if ops != [] {
      var front, op, now := ops[..|ops| - 1], ops[|ops| - 1].0, ops[|ops| - 1].1;
      var before, after := ApplyAll(i, front), ApplyAll(i, ops);
      SeriesIsPushed(i, front);
      TotalsAreSums(i, ops);
      if OnAhSide(op) {
        SideStep(i.ahPoints, PushedBy(i.ahTotal, front, true), before.ahPoints, (now, after.ahTotal));
      } else {
        SideStep(i.bzPoints, PushedBy(i.bzTotal, front, false), before.bzPoints, (now, after.bzTotal));
      }
    }
  }

  /** Over any history, both series stay bounded subsequences of everything ever pushed, endpoints included. */
  lemma TrackerSeriesBounded(i: Inner, ops: History) returns (ahPicks: seq<nat>, bzPicks: seq<nat>)
    requires 0 < |i.ahPoints| <= MAX_POINTS && 0 < |i.bzPoints| <= MAX_POINTS
    ensures var t := ApplyAll(i, ops);
            && |t.ahPoints| <= MAX_POINTS && |t.bzPoints| <= MAX_POINTS
            && PicksOut(t.ahPoints, i.ahPoints + PushedBy(i.ahTotal, ops, true), ahPicks)
            && PicksOut(t.bzPoints, i.bzPoints + PushedBy(i.bzTotal, ops, false), bzPicks)
            && t.ahPoints != [] && t.ahPoints[0] == i.ahPoints[0] && t.bzPoints != [] && t.bzPoints[0] == i.bzPoints[0]
  {
    SeriesIsPushed(i, ops);
    ahPicks := SeriesAfterPushes(i.ahPoints, PushedBy(i.ahTotal, ops, true));
    bzPicks := SeriesAfterPushes(i.bzPoints, PushedBy(i.bzTotal, ops, false));
  }

  /** A loaded tracker goes on from the file: from its total and its first point, or a point of the total now. */
  lemma {:induction false} LoadedGoesOn(saved: Inner, now: nat, ops: History)
    requires |saved.ahPoints| <= 5000 && |saved.bzPoints| <= 5000
    ensures var t := ApplyAll(Loaded(saved, now), ops);
            && t.ahPoints != [] && t.bzPoints != []
            && t.ahPoints[0] == (if saved.ahPoints == [] then (now, saved.ahTotal) else saved.ahPoints[0])
            && t.bzPoints[0] == (if saved.bzPoints == [] then (now, saved.bzTotal) else saved.bzPoints[0])
            && t.ahTotal == TotalOf(saved.ahTotal, ops, true) && t.bzTotal == TotalOf(saved.bzTotal, ops, false)
  {
    var ahPicks, bzPicks := TrackerSeriesBounded(Loaded(saved, now), ops);
    TotalsAreSums(Loaded(saved, now), ops);
  }

  /** What a snapshot's session series must be. */
  ghost predicate ViewFaithful(v: View, start: nat, baseline: int) {
    && TimeStrict(v.sessionPoints) && v.sessionPoints != [] && v.sessionPoints[0].0 == start
    && v.sessionPoints[|v.sessionPoints| - 1].1 == v.sessionTotal
    && (forall ts :: LastAt(v.sessionPoints, ts) == SessionReading(v.points, start, baseline, ts))
  }

  lemma SideFaithful(points: seq<Point>, total: int, clock: nat, start: nat, baseline: int)
    requires SeriesTrue(points, total, clock) && SessionTrue(points, total, start, baseline)
    ensures ViewFaithful(ViewOf(points, total, start, baseline), start, baseline)
  {
    SessionShape(points, start, baseline);
    forall ts ensures LastAt(Session(points, start, baseline), ts) == SessionReading(points, start, baseline, ts) {
      SessionReads(points, start, baseline, ts);
    }
  }

  /**
    With a clock that never goes back, every snapshot of a session started on a consistent file is faithful:
    its series starts at the session start, rises strictly in time, shows the last value of every time less the
    baseline, and ends with the reported session total.
   */
  lemma SnapshotsAreFaithful(saved: Inner, start: nat, ops: History)
    requires SeriesTrue(Loaded(saved, start).ahPoints, saved.ahTotal, start)
    requires SeriesTrue(Loaded(saved, start).bzPoints, saved.bzTotal, start)
    requires ClockRises(start, ops)
    ensures var i := ApplyAll(Loaded(saved, start), ops);
            && ViewFaithful(ViewOf(i.ahPoints, i.ahTotal, start, saved.ahTotal), start, saved.ahTotal)
            && ViewFaithful(ViewOf(i.bzPoints, i.bzTotal, start, saved.bzTotal), start, saved.bzTotal)
  {
    var i := ApplyAll(Loaded(saved, start), ops);
    RunKeepsTrue(Loaded(saved, start), start, start, ops, saved.ahTotal, saved.bzTotal);
    SideFaithful(i.ahPoints, i.ahTotal, ClockAfter(start, ops), start, saved.ahTotal);
    SideFaithful(i.bzPoints, i.bzTotal, ClockAfter(start, ops), start, saved.bzTotal);
  }

  lemma PushEnds(points: seq<Point>, p: Point)
    ensures EndsAt(Push(points, p), p.1)
  {
  }

  /** The latest point of each side always carries its running total, whatever the clock does. */
  lemma {:induction false} LatestPointIsTotal(saved: Inner, start: nat, ops: History)
    requires saved.ahPoints == [] || EndsAt(saved.ahPoints, saved.ahTotal)
    requires saved.bzPoints == [] || EndsAt(saved.bzPoints, saved.bzTotal)
    ensures var i := ApplyAll(Loaded(saved, start), ops);
            EndsAt(i.ahPoints, i.ahTotal) && EndsAt(i.bzPoints, i.bzTotal)
    decreases |ops|
  {
    if ops != [] {
      var front, op, now := ops[..|ops| - 1], ops[|ops| - 1].0, ops[|ops| - 1].1;
      var i := ApplyAll(Loaded(saved, start), front);
      LatestPointIsTotal(saved, start, front);
      PushEnds(i.ahPoints, (now, Apply(i, op, now).ahTotal));
      PushEnds(i.bzPoints, (now, Apply(i, op, now).bzTotal));
    }
  }
}
