/**
  The countdown pause of `src/main.rs` as interleaved atomic steps: one event task that handles countdowns,
  the resume watchers it spawns, a flag, a deadline only ever raised, and a clock in milliseconds.
 */
module BazaarPause {
  import opened Wrappers

  const PAUSE_MS: nat := 20_000

  /** Where the event task is inside a countdown: after reading the clock, after raising the deadline. */
  datatype Handler = Waiting | ReadClock(at: nat) | Raised(at: nat)

  /**
    Where a resume watcher is: about to read the clock, about to read the deadline, asleep, out of its loop, done.
    A watcher out of its loop has seen the first `seen` countdowns' deadlines.
   */
  datatype Watcher = Top | HasNow(now: nat) | Asleep(until: nat) | Leaving(now: nat, seen: nat) | Finished

  /** The shared state; `raised` is the history of the deadlines countdowns asked for. */
  datatype System = System(
    clock: nat, flag: bool, deadline: nat, handler: Handler, watchers: seq<Watcher>,
    raised: seq<nat>, pauses: nat, resumes: nat)

  const START := System(0, false, 0, Waiting, [], [], 0, 0)

  datatype Step =
    | Tick(clock: nat)
    | CountdownReads
    | CountdownRaises
    | CountdownSwaps
    | WatcherReadsClock(w: nat)
    | WatcherReadsDeadline(w: nat)
    | WatcherWakes(w: nat)
    | WatcherClears(w: nat)

  predicate Enabled(s: System, e: Step) {
    match e
    case Tick(t) => s.clock <= t
    case CountdownReads => s.handler.Waiting?
    case CountdownRaises => s.handler.ReadClock?
    case CountdownSwaps => s.handler.Raised?
    case WatcherReadsClock(w) => w < |s.watchers| && s.watchers[w].Top?
    case WatcherReadsDeadline(w) => w < |s.watchers| && s.watchers[w].HasNow?
    case WatcherWakes(w) => w < |s.watchers| && s.watchers[w].Asleep? && s.watchers[w].until <= s.clock
    case WatcherClears(w) => w < |s.watchers| && s.watchers[w].Leaving?
  }

  function Max(a: nat, b: nat): nat { if a < b then b else a }

  function Next(s: System, e: Step): System
    requires Enabled(s, e)
  {
    match e
    case Tick(t) => s.(clock := t)
    case CountdownReads => s.(handler := ReadClock(s.clock))
    case CountdownRaises =>
      var d := s.handler.at + PAUSE_MS;
      s.(handler := Raised(s.handler.at), deadline := Max(s.deadline, d), raised := s.raised + [d])
    case CountdownSwaps =>
      if s.flag then s.(handler := Waiting)
      else s.(handler := Waiting, flag := true, watchers := s.watchers + [Top], pauses := s.pauses + 1)
    case WatcherReadsClock(w) => s.(watchers := s.watchers[w := HasNow(s.clock)])
    case WatcherReadsDeadline(w) =>
      var now := s.watchers[w].now;
      if now >= s.deadline then s.(watchers := s.watchers[w := Leaving(now, |s.raised|)])
      else s.(watchers := s.watchers[w := Asleep(s.clock + Min(s.deadline - now, PAUSE_MS))])
    case WatcherWakes(w) => s.(watchers := s.watchers[w := Top])
    case WatcherClears(w) =>
      s.(watchers := s.watchers[w := Finished], flag := false, resumes := s.resumes + 1)
  }

  /** The watchers that have yet to clear the flag. */
  predicate Active(s: System, w: nat) { w < |s.watchers| && !s.watchers[w].Finished? }

  ghost predicate OneActive(s: System) {
    forall v: nat, w: nat :: Active(s, v) && Active(s, w) ==> v == w
  }

  /** The flag is set exactly while a watcher has yet to clear it, and there is never more than one. */
  ghost predicate FlagTrue(s: System) {
    OneActive(s) && (s.flag <==> exists w: nat :: Active(s, w))
  }

  /** The deadline is the latest one any countdown raised. */
  predicate DeadlineIsLatest(s: System) {
    (forall i :: 0 <= i < |s.raised| ==> s.raised[i] <= s.deadline) && (s.deadline == 0 || s.deadline in s.raised)
  }

  /** A watcher's readings lie in the past, and one out of its loop saw every window it knows of pass. */
  predicate ReadingsPast(s: System) {
    forall w :: 0 <= w < |s.watchers| ==>
      (s.watchers[w].HasNow? ==> s.watchers[w].now <= s.clock)
      && (s.watchers[w].Leaving? ==>
            s.watchers[w].now <= s.clock && WindowsPassed(s, s.watchers[w].seen, s.watchers[w].now))
  }

  predicate WindowsPassed(s: System, seen: nat, now: nat) {
    seen <= |s.raised| && forall i :: 0 <= i < seen ==> s.raised[i] <= now
  }

  ghost predicate Inv(s: System) {
    FlagTrue(s) && DeadlineIsLatest(s) && ReadingsPast(s)
    && s.pauses == s.resumes + (if s.flag then 1 else 0)
  }

  lemma ActiveAfter(s: System, w: nat, watcher: Watcher)
    requires w < |s.watchers| && FlagTrue(s) && Active(s, w) && !watcher.Finished?
    ensures FlagTrue(s.(watchers := s.watchers[w := watcher]))
  {
    var s' := s.(watchers := s.watchers[w := watcher]);
    assert Active(s', w);
    assert forall v: nat :: Active(s', v) <==> Active(s, v);
  }

  lemma ClockKeepsInv(s: System, e: Step)
    requires Inv(s) && Enabled(s, e) && (e.Tick? || e.CountdownReads? || e.CountdownRaises?)
    ensures Inv(Next(s, e))
  {
    assert forall w: nat :: Active(Next(s, e), w) <==> Active(s, w);
  }

  lemma SwapKeepsInv(s: System)
    requires Inv(s) && Enabled(s, CountdownSwaps)
    ensures Inv(Next(s, CountdownSwaps))
  {
    var s' := Next(s, CountdownSwaps);
    assert forall w: nat :: w < |s.watchers| ==> (Active(s', w) <==> Active(s, w));
    assert !s.flag ==> Active(s', |s.watchers|);
  }

  lemma WatcherKeepsInv(s: System, e: Step)
    requires Inv(s) && Enabled(s, e) && (e.WatcherReadsClock? || e.WatcherReadsDeadline? || e.WatcherWakes?)
    ensures Inv(Next(s, e))
  {
    ActiveAfter(s, e.w, Next(s, e).watchers[e.w]);
  }

  lemma ClearKeepsInv(s: System, w: nat)
    requires Inv(s) && Enabled(s, WatcherClears(w))
    ensures Inv(Next(s, WatcherClears(w)))
  {
    assert Active(s, w);
    assert forall v: nat :: Active(Next(s, WatcherClears(w)), v) <==> Active(s, v) && v != w;
  }

  lemma NextKeepsInv(s: System, e: Step)
    requires Inv(s) && Enabled(s, e)
    ensures Inv(Next(s, e))
    ensures s.deadline <= Next(s, e).deadline && s.raised <= Next(s, e).raised && s.clock <= Next(s, e).clock
  {
    match e
    case Tick(_) => ClockKeepsInv(s, e);
    case CountdownReads => ClockKeepsInv(s, e);
    case CountdownRaises => ClockKeepsInv(s, e);
    case CountdownSwaps => SwapKeepsInv(s);
    case WatcherReadsClock(_) => WatcherKeepsInv(s, e);
    case WatcherReadsDeadline(_) => WatcherKeepsInv(s, e);
    case WatcherWakes(_) => WatcherKeepsInv(s, e);
    case WatcherClears(w) => ClearKeepsInv(s, w);
  }

  ghost predicate Run(s: System, steps: seq<Step>, t: System)
    decreases |steps|
  {
    if steps == [] then s == t else Enabled(s, steps[0]) && Run(Next(s, steps[0]), steps[1..], t)
  }

  /** Over every interleaving: one watcher while paused, pauses and resumes alternate, deadline and clock only rise. */
  lemma {:induction false} RunKeepsInv(s: System, steps: seq<Step>, t: System)
    requires Inv(s) && Run(s, steps, t)
    ensures Inv(t) && s.deadline <= t.deadline && s.clock <= t.clock && s.raised <= t.raised
    decreases |steps|
  {
    if steps != [] {
      NextKeepsInv(s, steps[0]);
      RunKeepsInv(Next(s, steps[0]), steps[1..], t);
    }
  }

  lemma EveryInterleaving(steps: seq<Step>, t: System)
    requires Run(START, steps, t)
    ensures t.flag <==> exists w: nat :: Active(t, w)
    ensures forall v: nat, w: nat :: Active(t, v) && Active(t, w) ==> v == w
    ensures t.pauses - t.resumes == if t.flag then 1 else 0
    ensures forall i :: 0 <= i < |t.raised| ==> t.raised[i] <= t.deadline
  {
    RunKeepsInv(START, steps, t);
  }

  /**
    When a watcher clears the flag, every countdown raised before its final deadline read has had its full
    window; a window is cut short exactly when the deadline still lies ahead, by a countdown raised since then.
   */
  lemma {:induction false} ResumeRespectsSeenWindows(s: System, w: nat)
    requires Inv(s) && Enabled(s, WatcherClears(w))
    ensures forall i :: 0 <= i < s.watchers[w].seen ==> s.raised[i] <= s.clock
    ensures (exists i :: 0 <= i < |s.raised| && s.clock < s.raised[i]) <==> s.clock < s.deadline
    ensures forall i :: 0 <= i < |s.raised| && s.clock < s.raised[i] ==> s.watchers[w].seen <= i
  {
    assert s.watchers[w].Leaving?;
    if s.clock < s.deadline {
      var i :| 0 <= i < |s.raised| && s.raised[i] == s.deadline;
    }
  }

  // ----- How long a watcher sleeps -----

  /**
    A watcher that has read the deadline leaves its loop exactly when its clock reading has reached it; otherwise it
    sleeps as long as the deadline was ahead of that reading, and twenty seconds at most.
   */
  lemma SleepsExactly(s: System, w: nat)
    requires Enabled(s, WatcherReadsDeadline(w))
    ensures var now, after := s.watchers[w].now, Next(s, WatcherReadsDeadline(w)).watchers[w];
            && (after.Leaving? <==> s.deadline <= now)
            && (now < s.deadline ==>
                  && after.Asleep? && s.clock < after.until
                  && after.until - s.clock <= s.deadline - now && after.until - s.clock <= 20_000
                  && (after.until - s.clock == s.deadline - now || after.until - s.clock == 20_000))
  {
  }

  predicate NoOversleep(s: System) {
    forall w :: 0 <= w < |s.watchers| && s.watchers[w].Asleep? ==> s.watchers[w].until <= s.clock + 20_000
  }

  lemma {:induction false} NeverOversleeps(s: System, steps: seq<Step>, t: System)
    requires NoOversleep(s) && Run(s, steps, t)
    ensures NoOversleep(t)
    decreases |steps|
  {
    if steps != [] {
      NeverOversleeps(Next(s, steps[0]), steps[1..], t);
    }
  }

  lemma {:induction false} RunJoins(s: System, a: seq<Step>, m: System, b: seq<Step>, t: System)
    requires Run(s, a, m) && Run(m, b, t)
    ensures Run(s, a + b, t)
    decreases |a|
  {
    if a == [] {
      assert a + b == b;
    } else {
      assert (a + b)[1..] == a[1..] + b;
      RunJoins(Next(s, a[0]), a[1..], m, b, t);
    }
  }

  lemma RunOne(s: System, e: Step, steps: seq<Step>, t: System)
    requires Enabled(s, e) && Run(Next(s, e), steps, t)
    ensures Run(s, [e] + steps, t)
  {
    assert ([e] + steps)[1..] == steps;
  }

  /** The flag is cleared with no further countdown, within twenty seconds or by the deadline. */
  ghost predicate Resumes(s: System, steps: seq<Step>, t: System) {
    Run(s, steps, t) && !t.flag && t.raised == s.raised && t.clock <= Max(s.clock + 20_000, s.deadline)
  }

  lemma ResumesAfter(s: System, e: Step, steps: seq<Step>, t: System)
    requires Enabled(s, e) && Resumes(Next(s, e), steps, t) && Next(s, e).raised == s.raised
    requires Max(Next(s, e).clock + 20_000, Next(s, e).deadline) <= Max(s.clock + 20_000, s.deadline)
             || t.clock == Next(s, e).clock <= Max(s.clock + 20_000, s.deadline)
    ensures Resumes(s, [e] + steps, t)
  {
    RunOne(s, e, steps, t);
  }

  lemma LeavingEnds(s: System, w: nat) returns (steps: seq<Step>, t: System)
    requires w < |s.watchers| && s.watchers[w].Leaving?
    ensures Resumes(s, steps, t) && t.clock == s.clock
  {
    t := Next(s, WatcherClears(w));
    assert Run(t, [], t);
    ResumesAfter(s, WatcherClears(w), [], t);
    steps := [WatcherClears(w)] + [];
  }

  lemma TopEnds(s: System, w: nat) returns (steps: seq<Step>, t: System)
    requires w < |s.watchers| && s.watchers[w].Top? && s.deadline <= s.clock
    ensures Resumes(s, steps, t) && t.clock == s.clock
  {
    var m := Next(s, WatcherReadsClock(w));
    var n := Next(m, WatcherReadsDeadline(w));
    steps, t := LeavingEnds(n, w);
    ResumesAfter(m, WatcherReadsDeadline(w), steps, t);
    ResumesAfter(s, WatcherReadsClock(w), [WatcherReadsDeadline(w)] + steps, t);
    steps := [WatcherReadsClock(w)] + ([WatcherReadsDeadline(w)] + steps);
  }

  lemma AsleepEnds(s: System, w: nat) returns (steps: seq<Step>, t: System)
    requires NoOversleep(s) && w < |s.watchers| && (s.watchers[w].Asleep? || s.watchers[w].Top?)
    ensures Resumes(s, steps, t)
  {
    var late := Tick(Max(s.clock + 20_000, s.deadline));
    var m := Next(s, late);
    if s.watchers[w].Top? {
      steps, t := TopEnds(m, w);
    } else {
      steps, t := TopEnds(Next(m, WatcherWakes(w)), w);
      ResumesAfter(m, WatcherWakes(w), steps, t);
      steps := [WatcherWakes(w)] + steps;
    }
    ResumesAfter(s, late, steps, t);
    steps := [late] + steps;
  }

  /** With no further countdown the pause can end, by the deadline or within the next twenty seconds. */
  lemma PauseCanEnd(s: System) returns (steps: seq<Step>, t: System)
    requires Inv(s) && NoOversleep(s) && s.flag
    ensures Resumes(s, steps, t)
  {
    var w: nat :| Active(s, w);
    match s.watchers[w]
    case Leaving(_, _) => steps, t := LeavingEnds(s, w);
    case Top => steps, t := AsleepEnds(s, w);
    case Asleep(_) => steps, t := AsleepEnds(s, w);
    case HasNow(_) =>
      var m := Next(s, WatcherReadsDeadline(w));
      if m.watchers[w].Leaving? {
        steps, t := LeavingEnds(m, w);
      } else {
        steps, t := AsleepEnds(m, w);
      }
      ResumesAfter(s, WatcherReadsDeadline(w), steps, t);
      steps := [WatcherReadsDeadline(w)] + steps;
  }

  // ----- Which countdowns get their whole window -----

  /** A watcher that will see countdown `i` before it clears the flag, unless the window has passed. */
  predicate Waits(watcher: Watcher, i: nat) {
    !watcher.Finished? && !(watcher.Leaving? && watcher.seen <= i)
  }

  ghost predicate Protected(s: System, i: nat)
    requires i < |s.raised|
  {
    s.raised[i] <= s.clock || exists w :: 0 <= w < |s.watchers| && Waits(s.watchers[w], i)
  }

  lemma NextKeepsProtected(s: System, e: Step, i: nat)
    requires Inv(s) && Enabled(s, e) && i < |s.raised| && Protected(s, i)
    ensures i < |Next(s, e).raised| && Protected(Next(s, e), i)
  {
    var s' := Next(s, e);
    if s.clock < s.raised[i] {
      var w :| 0 <= w < |s.watchers| && Waits(s.watchers[w], i);
      assert !s.watchers[w].Leaving?;
      assert s'.clock < s.raised[i] ==> Waits(s'.watchers[w], i);
    }
  }

  lemma {:induction false} RunKeepsProtected(s: System, steps: seq<Step>, t: System, i: nat)
    requires Inv(s) && Run(s, steps, t) && i < |s.raised| && Protected(s, i)
    ensures i < |t.raised| && t.raised[i] == s.raised[i] && Protected(t, i)
    decreases |steps|
  {
    if steps != [] {
      NextKeepsInv(s, steps[0]);
      NextKeepsProtected(s, steps[0], i);
      RunKeepsProtected(Next(s, steps[0]), steps[1..], t, i);
    }
  }

  /** The bazaar stays paused until the end of countdown `i`'s window, whatever happens next. */
  ghost predicate WindowKept(s: System, i: nat)
    requires i < |s.raised|
  {
    forall steps, t :: Run(s, steps, t) ==> t.flag || s.raised[i] <= t.clock
  }

  /**
    Once a countdown has been handled, its window is kept on every continuation exactly when it has passed
    already or a watcher that has not left its loop without seeing it is still there.
   */
  lemma WindowKeptExactly(s: System, i: nat)
    requires Inv(s) && s.handler.Waiting? && i < |s.raised|
    ensures WindowKept(s, i) <==> Protected(s, i)
  {
    if Protected(s, i) {
      forall steps, t | Run(s, steps, t)
        ensures t.flag || s.raised[i] <= t.clock
      {
        RunKeepsInv(s, steps, t);
        RunKeepsProtected(s, steps, t, i);
        if t.clock < t.raised[i] {
          var w :| 0 <= w < |t.watchers| && Waits(t.watchers[w], i);
          assert Active(t, w);
        }
      }
    } else if s.flag {
      var w: nat :| Active(s, w);
      assert !Waits(s.watchers[w], i);
      var t := Next(s, WatcherClears(w));
      assert Run(t, [], t);
      assert Run(s, [WatcherClears(w)], t);
    } else {
      assert Run(s, [], s);
    }
  }

  /** The swap of a countdown gives it a watcher, unless the one still to clear the flag has left its loop. */
  lemma SwapProtects(s: System, i: nat)
    requires Inv(s) && Enabled(s, CountdownSwaps) && i < |s.raised|
    ensures Protected(Next(s, CountdownSwaps), i) <==>
            (s.raised[i] <= s.clock || !s.flag || exists w :: 0 <= w < |s.watchers| && Waits(s.watchers[w], i))
  {
    var s' := Next(s, CountdownSwaps);
    if !s.flag {
      assert Waits(s'.watchers[|s.watchers|], i);
    }
  }

  /** Three steps in a row. */
  lemma RunThree(s: System, a: Step, b: Step, c: Step)
    requires Enabled(s, a) && Enabled(Next(s, a), b) && Enabled(Next(Next(s, a), b), c)
    ensures Run(s, [a, b, c], Next(Next(Next(s, a), b), c))
  {
    var t := Next(Next(Next(s, a), b), c);
    assert Run(t, [], t);
    RunOne(Next(Next(s, a), b), c, [], t);
    RunOne(Next(s, a), b, [c], t);
    RunOne(s, a, [b, c], t);
    assert [a] + [b, c] == [a, b, c] && [b] + [c] == [b, c] && [c] + [] == [c];
  }

  /**
    A countdown between a watcher's last read and its store is lost: bazaar flips resume with its window ahead.
    The first countdown pauses, its watcher leaves the loop when the window has passed, the second countdown
    finds the flag set, and the watcher clears it.
   */
  lemma PauseCanBeLost() returns (steps: seq<Step>, t: System)
    ensures Run(START, steps, t)
    ensures t.handler.Waiting? && !t.flag && t.clock == 20_000 && t.deadline == 40_000
  {
    var paused := System(0, true, 20_000, Waiting, [Top], [20_000], 1, 0);
    var left := System(20_000, true, 20_000, Waiting, [Leaving(20_000, 1)], [20_000], 1, 0);
    var again := System(20_000, true, 40_000, Waiting, [Leaving(20_000, 1)], [20_000, 40_000], 1, 0);
    RunThree(START, CountdownReads, CountdownRaises, CountdownSwaps);
    RunThree(paused, Tick(20_000), WatcherReadsClock(0), WatcherReadsDeadline(0));
    RunThree(left, CountdownReads, CountdownRaises, CountdownSwaps);
    t := Next(again, WatcherClears(0));
    assert Run(t, [], t);
    var countdown := [CountdownReads, CountdownRaises, CountdownSwaps];
    var leave := [Tick(20_000), WatcherReadsClock(0), WatcherReadsDeadline(0)];
    RunOne(again, WatcherClears(0), [], t);
    RunJoins(left, countdown, again, [WatcherClears(0)] + [], t);
    RunJoins(paused, leave, left, countdown + ([WatcherClears(0)] + []), t);
    steps := countdown + (leave + (countdown + ([WatcherClears(0)] + [])));
    RunJoins(START, countdown, paused, leave + (countdown + ([WatcherClears(0)] + [])), t);
  }
}
