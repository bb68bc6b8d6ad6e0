/**
  The debounced JSON writer of `src/persistence.rs` under any interleaving with the recorders that feed it, for any
  kind of state.

  A recorder changes the state, takes a snapshot of it and sends the snapshot. `ProfitTracker` does all three while
  it holds its mutex; `locked` is that discipline. `BazaarOrderTracker` takes its lock for the change and again for
  the snapshot, and sends after both, so the three are separate steps.
 */
module Persistence {
  import opened Wrappers
  import opened ProfitSeries

  /** A snapshot, and how many changes had been committed when it was taken. */
  datatype Message<T> = Message(value: T, at: nat)

  /** Where a recorder is: it has changed the state, or it holds a snapshot it has not sent. */
  datatype Recorder<T> = Changed | Holding(message: Message<T>)

  /** Where the writer thread is: waiting, collecting later values, about to write (for good when `last`), gone. */
  datatype Worker<T> = Receiving | Debouncing(pending: T) | Writing(pending: T, last: bool) | Exited

  /**
    The guarded state, the recorders at work, the channel, the senders' end, the writer and the file. `committed`,
    `sent` and `writes` are history: the states committed, the messages sent, and which of them were written.
   */
  datatype System<T> = System(
    inner: T, recorders: map<nat, Recorder<T>>, channel: seq<Message<T>>, sendersGone: bool, worker: Worker<T>,
    file: Option<T>, committed: seq<T>, sent: seq<Message<T>>, writes: seq<int>)

  datatype Event<T> =
    | Commit(recorder: nat, next: T)
    | Capture(recorder: nat)
    | Send(recorder: nat)
    | DropSenders
    | Receive
    | ReceiveMore
    | Timeout
    | Disconnected
    | Write

  ghost predicate Enabled<T>(s: System<T>, e: Event<T>, locked: bool) {
    match e
    case Commit(r, _) => r !in s.recorders && !s.sendersGone && (locked ==> s.recorders == map[])
    case Capture(r) => r in s.recorders && s.recorders[r].Changed?
    case Send(r) => r in s.recorders && s.recorders[r].Holding?
    case DropSenders => s.recorders == map[] && !s.sendersGone
    case Receive => s.worker.Receiving? && s.channel != []
    case ReceiveMore => s.worker.Debouncing? && s.channel != []
    case Timeout => s.worker.Debouncing?
    case Disconnected => (s.worker.Receiving? || s.worker.Debouncing?) && s.channel == [] && s.sendersGone
    case Write => s.worker.Writing?
  }

  /** How many messages the writer has received. */
  function Taken<T>(s: System<T>): int { |s.sent| - |s.channel| }

  ghost function Next<T>(s: System<T>, e: Event<T>, locked: bool): System<T>
    requires Enabled(s, e, locked)
  {
    match e
    case Commit(r, next) =>
      var now := if locked then Holding(Message(next, |s.committed| + 1)) else Changed;
      s.(inner := next, committed := s.committed + [next], recorders := s.recorders[r := now])
    case Capture(r) => s.(recorders := s.recorders[r := Holding(Message(s.inner, |s.committed|))])
    case Send(r) =>
      var message := s.recorders[r].message;
      s.(channel := s.channel + [message], sent := s.sent + [message], recorders := s.recorders - {r})
    case DropSenders => s.(sendersGone := true)
    case Receive => s.(worker := Debouncing(s.channel[0].value), channel := s.channel[1..])
    case ReceiveMore => s.(worker := Debouncing(s.channel[0].value), channel := s.channel[1..])
    case Timeout => s.(worker := Writing(s.worker.pending, false))
    case Disconnected => s.(worker := if s.worker.Receiving? then Exited else Writing(s.worker.pending, true))
    case Write =>
      s.(file := Some(s.worker.pending), writes := s.writes + [Taken(s) - 1],
         worker := if s.worker.last then Exited else Receiving)
  }

  ghost predicate Start<T>(s: System<T>) {
    s.recorders == map[] && s.channel == [] && !s.sendersGone && s.worker == Receiving
    && s.committed == [] && s.sent == [] && s.writes == []
  }

  // ----- The writer, whatever the discipline -----

  /** The channel holds the messages not yet received, in the order sent. */
  ghost predicate ChannelTrue<T>(s: System<T>) {
    |s.channel| <= |s.sent| && s.channel == s.sent[Taken(s)..]
  }

  /** What the writer holds is the last value it received; it stops only when no recorder can send any more. */
  ghost predicate WorkerTrue<T>(s: System<T>) {
    && |s.channel| <= |s.sent|
    && (s.worker.Debouncing? || s.worker.Writing? ==> 0 < Taken(s) && s.worker.pending == s.sent[Taken(s) - 1].value)
    && (s.worker.Exited? || (s.worker.Writing? && s.worker.last) ==> s.sendersGone && s.channel == [])
    && (s.sendersGone ==> s.recorders == map[])
  }

  function LastWritten<T>(s: System<T>): int { if s.writes == [] then -1 else s.writes[|s.writes| - 1] }

  /** The writes are an in-order selection of the messages, and the last one stands in the file. */
  ghost predicate WritesTrue<T>(s: System<T>) {
    && (forall i :: 0 <= i < |s.writes| ==> 0 <= s.writes[i] < |s.sent|)
    && (forall i, j :: 0 <= i < j < |s.writes| ==> s.writes[i] < s.writes[j])
    && (s.writes != [] ==> s.file == Some(s.sent[LastWritten(s)].value))
    && (s.worker.Receiving? || s.worker.Exited? ==> LastWritten(s) == Taken(s) - 1)
    && (s.worker.Debouncing? || s.worker.Writing? ==> LastWritten(s) < Taken(s) - 1)
  }

  ghost predicate WriterInv<T>(s: System<T>) { ChannelTrue(s) && WorkerTrue(s) && WritesTrue(s) }

  lemma {:induction false} SendKeepsWriter<T>(s: System<T>, e: Event<T>, locked: bool)
    requires WriterInv(s) && Enabled(s, e, locked) && e.Send?
    ensures WriterInv(Next(s, e, locked))
  {
    var s' := Next(s, e, locked);
    assert Taken(s') == Taken(s);
    assert s'.sent[Taken(s)..] == s.sent[Taken(s)..] + [s.recorders[e.recorder].message];
  }

  lemma {:induction false} ReceiveKeepsWriter<T>(s: System<T>, e: Event<T>, locked: bool)
    requires WriterInv(s) && Enabled(s, e, locked) && (e.Receive? || e.ReceiveMore?)
    ensures WriterInv(Next(s, e, locked))
  {
    var s' := Next(s, e, locked);
    assert Taken(s') == Taken(s) + 1;
    assert s.channel[0] == s.sent[Taken(s)];
    assert s'.channel == s.sent[Taken(s)..][1..] == s.sent[Taken(s) + 1..];
  }

  lemma {:induction false} WriteKeepsWriter<T>(s: System<T>, locked: bool)
    requires WriterInv(s) && Enabled(s, Write, locked)
    ensures WriterInv(Next(s, Write, locked))
  {
    var s' := Next(s, Write, locked);
    assert Taken(s') == Taken(s) && LastWritten(s') == Taken(s) - 1;
    forall i, j | 0 <= i < j < |s'.writes|
      ensures s'.writes[i] < s'.writes[j]
    {
      assert s'.writes[i] <= LastWritten(s);
    }
  }

  lemma {:induction false} NextKeepsWriter<T>(s: System<T>, e: Event<T>, locked: bool)
    requires WriterInv(s) && Enabled(s, e, locked)
    ensures WriterInv(Next(s, e, locked))
  {
    if e.Send? {
      SendKeepsWriter(s, e, locked);
    } else if e.Receive? || e.ReceiveMore? {
      ReceiveKeepsWriter(s, e, locked);
    } else if e.Write? {
      WriteKeepsWriter(s, locked);
    }
  }

  // ----- What is sent -----

  /** A message holds the state as it was after the changes it counts. */
  ghost predicate Faithful<T>(m: Message<T>, committed: seq<T>) {
    0 < m.at <= |committed| && m.value == committed[m.at - 1]
  }

  ghost predicate MessagesTrue<T>(s: System<T>) {
    && (s.committed != [] ==> s.inner == s.committed[|s.committed| - 1])
    && (forall i :: 0 <= i < |s.sent| ==> Faithful(s.sent[i], s.committed))
    && (forall r :: r in s.recorders && s.recorders[r].Holding? ==> Faithful(s.recorders[r].message, s.committed))
    && (s.recorders != map[] ==> s.committed != [])
  }

  lemma FaithfulStays<T>(m: Message<T>, committed: seq<T>, next: T)
    requires Faithful(m, committed)
    ensures Faithful(m, committed + [next])
  {
  }

  lemma {:induction false} NextKeepsMessages<T>(s: System<T>, e: Event<T>, locked: bool)
    requires MessagesTrue(s) && Enabled(s, e, locked)
    ensures MessagesTrue(Next(s, e, locked))
  {
    var s' := Next(s, e, locked);
    if e.Commit? {
      forall i | 0 <= i < |s.sent| ensures Faithful(s.sent[i], s'.committed) {
        FaithfulStays(s.sent[i], s.committed, e.next);
      }
      forall r | r in s'.recorders && s'.recorders[r].Holding?
        ensures Faithful(s'.recorders[r].message, s'.committed)
      {
        if r != e.recorder {
          FaithfulStays(s.recorders[r].message, s.committed, e.next);
        }
      }
    }
  }

  /** The recorder still has to take a snapshot, or holds one of the latest state. */
  ghost predicate BringsLatest<T>(s: System<T>, r: nat) {
    r in s.recorders && (s.recorders[r].Holding? ==> s.recorders[r].message.at == |s.committed|)
  }

  /** The latest state has been sent, or a recorder at work will send it. */
  ghost predicate LatestOnItsWay<T>(s: System<T>) {
    s.committed == []
    || (exists i :: 0 <= i < |s.sent| && s.sent[i].at == |s.committed|)
    || exists r :: BringsLatest(s, r)
  }

  lemma {:induction false} NextKeepsLatest<T>(s: System<T>, e: Event<T>, locked: bool)
    requires LatestOnItsWay(s) && MessagesTrue(s) && Enabled(s, e, locked)
    ensures LatestOnItsWay(Next(s, e, locked))
  {
    var s' := Next(s, e, locked);
    if e.Commit? || e.Capture? {
      assert BringsLatest(s', e.recorder);
    } else if i :| 0 <= i < |s.sent| && s.sent[i].at == |s.committed| {
      assert s'.sent[i].at == |s'.committed|;
    } else if r :| BringsLatest(s, r) {
      if e.Send? && e.recorder == r {
        assert s'.sent[|s.sent|].at == |s'.committed|;
      } else {
        assert BringsLatest(s', r);
      }
    }
  }

  /** Under the mutex one recorder at most is at work, and the messages are the committed states in order. */
  ghost predicate LockTrue<T>(s: System<T>) {
    && (forall i :: 0 <= i < |s.sent| ==> s.sent[i].at == i + 1)
    && (if s.recorders == map[] then |s.sent| == |s.committed|
        else exists r :: s.recorders == map[r := Holding(Message(s.inner, |s.committed|))]
                         && |s.sent| + 1 == |s.committed|)
  }

  lemma {:induction false} NextKeepsLock<T>(s: System<T>, e: Event<T>)
    requires LockTrue(s) && Enabled(s, e, true)
    ensures LockTrue(Next(s, e, true))
  {
    var s' := Next(s, e, true);
    if e.Commit? {
      assert s'.recorders == map[e.recorder := Holding(Message(s'.inner, |s'.committed|))];
    } else if e.Send? {
      assert s'.recorders == map[];
    }
  }

  // ----- Runs -----

  ghost predicate Run<T>(s: System<T>, events: seq<Event<T>>, locked: bool, t: System<T>)
    decreases |events|
  {
    if events == [] then s == t
    else Enabled(s, events[0], locked) && Run(Next(s, events[0], locked), events[1..], locked, t)
  }

  ghost predicate Inv<T>(s: System<T>, locked: bool) {
    WriterInv(s) && MessagesTrue(s) && LatestOnItsWay(s) && (locked ==> LockTrue(s))
  }

  lemma {:induction false} NextKeepsInv<T>(s: System<T>, e: Event<T>, locked: bool)
    requires Inv(s, locked) && Enabled(s, e, locked)
    ensures Inv(Next(s, e, locked), locked)
  {
    NextKeepsWriter(s, e, locked);
    NextKeepsMessages(s, e, locked);
    NextKeepsLatest(s, e, locked);
    if locked {
      NextKeepsLock(s, e);
    }
  }

  lemma {:induction false} RunKeepsInv<T>(s: System<T>, events: seq<Event<T>>, locked: bool, t: System<T>)
    requires Inv(s, locked) && Run(s, events, locked, t)
    ensures Inv(t, locked)
    decreases |events|
  {
    if events != [] {
      NextKeepsInv(s, events[0], locked);
      RunKeepsInv(Next(s, events[0], locked), events[1..], locked, t);
    }
  }

  lemma {:induction false} ReachedInv<T>(s: System<T>, events: seq<Event<T>>, locked: bool, t: System<T>)
    requires Start(s) && Run(s, events, locked, t)
    ensures Inv(t, locked)
  {
    assert Inv(s, locked);
    RunKeepsInv(s, events, locked, t);
  }

  lemma {:induction false} LockedMessages<T>(t: System<T>)
    requires MessagesTrue(t) && LockTrue(t)
    ensures |t.sent| <= |t.committed| && forall i :: 0 <= i < |t.sent| ==> t.sent[i].value == t.committed[i]
    ensures t.recorders == map[] && t.committed != [] ==>
              |t.sent| == |t.committed| && t.inner == t.sent[|t.sent| - 1].value == t.committed[|t.committed| - 1]
  {
    forall i | 0 <= i < |t.sent| ensures t.sent[i].value == t.committed[i] {
      assert Faithful(t.sent[i], t.committed);
    }
  }

  /** No recorder is at work, nothing is left in the channel, and the writer is idle or gone. */
  ghost predicate Quiet<T>(s: System<T>) {
    s.recorders == map[] && s.channel == [] && (s.worker.Receiving? || s.worker.Exited?)
  }

  /** Whatever the discipline, the writer writes an in-order selection of the messages, and in the end the last one. */
  lemma {:induction false} WriterFollowsChannel<T>(s: System<T>, events: seq<Event<T>>, locked: bool, t: System<T>)
    requires Start(s) && Run(s, events, locked, t)
    ensures forall i :: 0 <= i < |t.writes| ==> 0 <= t.writes[i] < |t.sent|
    ensures forall i, j :: 0 <= i < j < |t.writes| ==> t.writes[i] < t.writes[j]
    ensures t.writes != [] ==> t.file == Some(t.sent[t.writes[|t.writes| - 1]].value)
    ensures Quiet(t) && t.sent != [] ==> t.file == Some(t.sent[|t.sent| - 1].value)
    ensures t.worker.Exited? ==> Quiet(t)
  {
    ReachedInv(s, events, locked, t);
  }

  lemma {:induction false} ReachedMessages<T>(s: System<T>, events: seq<Event<T>>, t: System<T>)
    requires Start(s) && Run(s, events, true, t)
    ensures |t.sent| <= |t.committed| && forall i :: 0 <= i < |t.sent| ==> t.sent[i].value == t.committed[i]
    ensures t.recorders == map[] && t.committed != [] ==>
              |t.sent| == |t.committed| && t.inner == t.sent[|t.sent| - 1].value == t.committed[|t.committed| - 1]
  {
    ReachedInv(s, events, true, t);
    LockedMessages(t);
  }

  /**
    For every interleaving of recorders under the mutex with the writer: the messages are the committed states in
    order, so that what is written is an in-order selection of those, and when all is quiet the file holds the
    latest state.
   */
  lemma {:induction false} DiskConverges<T>(s: System<T>, events: seq<Event<T>>, t: System<T>)
    requires Start(s) && Run(s, events, true, t)
    ensures |t.sent| <= |t.committed| && forall i :: 0 <= i < |t.sent| ==> t.sent[i].value == t.committed[i]
    ensures forall i :: 0 <= i < |t.writes| ==> 0 <= t.writes[i] < |t.sent|
    ensures forall i, j :: 0 <= i < j < |t.writes| ==> t.writes[i] < t.writes[j]
    ensures Quiet(t) && t.committed != [] ==> t.file == Some(t.inner)
  {
    WriterFollowsChannel(s, events, true, t);
    ReachedMessages(s, events, t);
  }

  /** A recorder that still has to send never finds the writer gone, so the inline fallback write cannot happen. */
  lemma {:induction false} SendFindsReceiver<T>(s: System<T>, events: seq<Event<T>>, locked: bool, t: System<T>, r: nat)
    requires Start(s) && Run(s, events, locked, t) && Enabled(t, Send(r), locked)
    ensures !t.worker.Exited?
  {
    ReachedInv(s, events, locked, t);
  }

  /**
    For every run with scheduling outside the lock: when all is quiet the latest state has been sent, and the file
    holds the last message, which is the state as it was when the message was taken. When the latest state is unlike
    all before it, the file holds it exactly when the last message was taken after the last change.
   */
  lemma {:induction false} UnlockedConvergesExactly<T>(s: System<T>, events: seq<Event<T>>, t: System<T>)
    requires Start(s) && Run(s, events, false, t) && Quiet(t) && t.committed != []
    ensures t.sent != [] && exists i :: 0 <= i < |t.sent| && t.sent[i].at == |t.committed|
    ensures var last := t.sent[|t.sent| - 1];
            && 0 < last.at <= |t.committed| && t.file == Some(last.value) && last.value == t.committed[last.at - 1]
            && t.inner == t.committed[|t.committed| - 1]
            && ((forall i :: 0 <= i < |t.committed| - 1 ==> t.committed[i] != t.inner) ==>
                 (t.file == Some(t.inner) <==> last.at == |t.committed|))
  {
    ReachedInv(s, events, false, t);
    assert forall r :: !BringsLatest(t, r);
    var i :| 0 <= i < |t.sent| && t.sent[i].at == |t.committed|;
    assert Faithful(t.sent[|t.sent| - 1], t.committed);
  }

  // ----- Overtaking -----

  /** A recorder changes the state only while no other one is at work. */
  ghost predicate OneAtATime<T>(s: System<T>, events: seq<Event<T>>)
    decreases |events|
  {
    events != [] && Enabled(s, events[0], false) ==>
      (events[0].Commit? ==> s.recorders == map[]) && OneAtATime(Next(s, events[0], false), events[1..])
  }

  /** The last message sent is of the latest state, or the one recorder at work brings it. */
  ghost predicate NotOvertaken<T>(s: System<T>) {
    if s.recorders == map[] then s.committed == [] || (s.sent != [] && s.sent[|s.sent| - 1].at == |s.committed|)
    else exists r :: s.recorders.Keys == {r} && BringsLatest(s, r)
  }

  lemma {:induction false} NextKeepsOrder<T>(s: System<T>, e: Event<T>)
    requires NotOvertaken(s) && Enabled(s, e, false) && (e.Commit? ==> s.recorders == map[])
    ensures NotOvertaken(Next(s, e, false))
  {
    var s' := Next(s, e, false);
    if e.Commit? || e.Capture? {
      assert s'.recorders.Keys == {e.recorder} && BringsLatest(s', e.recorder);
    } else if e.Send? {
      assert s'.recorders == map[];
    } else if s.recorders != map[] {
      var r :| s.recorders.Keys == {r} && BringsLatest(s, r);
      assert s'.recorders.Keys == {r} && BringsLatest(s', r);
    }
  }

  lemma {:induction false} RunKeepsOrder<T>(s: System<T>, events: seq<Event<T>>, t: System<T>)
    requires NotOvertaken(s) && Run(s, events, false, t) && OneAtATime(s, events)
    ensures NotOvertaken(t)
    decreases |events|
  {
    if events != [] {
      NextKeepsOrder(s, events[0]);
      RunKeepsOrder(Next(s, events[0], false), events[1..], t);
    }
  }

  /** Scheduling outside the lock still converges when no recorder starts before the one before it has sent. */
  lemma {:induction false} OneAtATimeConverges<T>(s: System<T>, events: seq<Event<T>>, t: System<T>)
    requires Start(s) && Run(s, events, false, t) && OneAtATime(s, events) && Quiet(t) && t.committed != []
    ensures t.file == Some(t.inner)
  {
    RunKeepsOrder(s, events, t);
    UnlockedConvergesExactly(s, events, t);
  }

  lemma {:induction false} RunOne<T>(s: System<T>, e: Event<T>, later: seq<Event<T>>, t: System<T>)
    requires Enabled(s, e, false) && Run(Next(s, e, false), later, false, t)
    ensures Run(s, [e] + later, false, t)
  {
    assert ([e] + later)[1..] == later;
  }

  /** For any two different states: a second recorder overtakes a first one, and the older state stays on disk. */
  lemma {:induction false} UnlockedSchedulingCanGoStale<T>(initial: T, older: T, newer: T)
    returns (s: System<T>, events: seq<Event<T>>, t: System<T>)
    requires older != newer
    ensures Start(s) && Run(s, events, false, t) && Quiet(t) && t.file == Some(older) && t.inner == newer
  {
    s := System(initial, map[], [], false, Receiving, None, [], [], []);
    var m1, m2 := Message(older, 1), Message(newer, 2);
    var late := System(newer, map[0 := Holding(m1)], [m2], false, Receiving, None, [older, newer], [m2], []);
    t := System(newer, map[], [], false, Receiving, Some(older), [older, newer], [m2, m1], [1]);
    var writing := WritingRun(late, m1, m2, t);
    events := RecordingRun(s, m1, m2, late, writing, t);
  }

  lemma {:induction false} WritingRun<T>(late: System<T>, m1: Message<T>, m2: Message<T>, t: System<T>)
    returns (events: seq<Event<T>>)
    requires late.recorders == map[0 := Holding(m1)] && late.channel == [m2] && late.worker == Receiving
    requires late.sent == [m2] && late.writes == []
    requires t == late.(recorders := map[], channel := [], file := Some(m1.value), sent := [m2, m1], writes := [1])
    ensures Run(late, events, false, t)
  {
    var s1 := late.(recorders := map[], channel := [m2, m1], sent := [m2, m1]);
    assert Next(late, Send(0), false) == s1;
    var s2 := s1.(worker := Debouncing(m2.value), channel := [m1]);
    var s3 := s2.(worker := Debouncing(m1.value), channel := []);
    assert Next(s1, Receive, false) == s2 && Next(s2, ReceiveMore, false) == s3;
    var s4 := s3.(worker := Writing(m1.value, false));
    assert Run(t, [], false, t);
    RunOne(s4, Write, [], t);
    RunOne(s3, Timeout, [Write] + [], t);
    RunOne(s2, ReceiveMore, [Timeout] + ([Write] + []), t);
    RunOne(s1, Receive, [ReceiveMore] + ([Timeout] + ([Write] + [])), t);
    RunOne(late, Send(0), [Receive] + ([ReceiveMore] + ([Timeout] + ([Write] + []))), t);
    events := [Send(0)] + ([Receive] + ([ReceiveMore] + ([Timeout] + ([Write] + []))));
  }

  lemma {:induction false} RecordingRun<T>(s: System<T>, m1: Message<T>, m2: Message<T>, late: System<T>,
                                           later: seq<Event<T>>, t: System<T>) returns (events: seq<Event<T>>)
    requires Start(s) && m1.at == 1 && m2.at == 2 && Run(late, later, false, t)
    requires late == s.(inner := m2.value, recorders := map[0 := Holding(m1)], channel := [m2],
                        committed := [m1.value, m2.value], sent := [m2])
    ensures Run(s, events, false, t)
  {
    var s1 := s.(inner := m1.value, committed := [m1.value], recorders := map[0 := Changed]);
    var s2 := s1.(recorders := map[0 := Holding(m1)]);
    assert Next(s, Commit(0, m1.value), false) == s1 && Next(s1, Capture(0), false) == s2;
    var s3 := s2.(inner := m2.value, committed := [m1.value, m2.value],
                  recorders := map[0 := Holding(m1), 1 := Changed]);
    var s4 := s3.(recorders := map[0 := Holding(m1), 1 := Holding(m2)]);
    assert Next(s2, Commit(1, m2.value), false) == s3 && Next(s3, Capture(1), false) == s4;
    assert s4.recorders - {1} == map[0 := Holding(m1)];
    assert Next(s4, Send(1), false) == late;
    RunOne(s4, Send(1), later, t);
    RunOne(s3, Capture(1), [Send(1)] + later, t);
    RunOne(s2, Commit(1, m2.value), [Capture(1)] + ([Send(1)] + later), t);
    RunOne(s1, Capture(0), [Commit(1, m2.value)] + ([Capture(1)] + ([Send(1)] + later)), t);
    events := [Capture(0)] + ([Commit(1, m2.value)] + ([Capture(1)] + ([Send(1)] + later)));
    RunOne(s, Commit(0, m1.value), events, t);
    events := [Commit(0, m1.value)] + events;
  }

  // ----- Draining -----

  /** How many steps the writer has left, at most, once nothing more is sent. */
  function StepsLeft<T>(s: System<T>): nat {
    3 * |s.channel| + match s.worker
                      case Exited => 0
                      case Receiving => 1
                      case Writing(_, _) => 2
                      case Debouncing(_) => 3
  }

  /** What the writer does next when it waits for nothing. */
  function NextOfWriter<T>(s: System<T>): Event<T>
    requires !s.worker.Exited?
  {
    if s.worker.Writing? then Write
    else if s.channel == [] then Disconnected
    else if s.worker.Receiving? then Receive
    else ReceiveMore
  }

  lemma {:induction false} WriterEnds<T>(s: System<T>, locked: bool) returns (events: seq<Event<T>>, t: System<T>)
    requires WriterInv(s) && s.sendersGone
    ensures Run(s, events, locked, t) && t.worker.Exited? && |events| <= StepsLeft(s)
    ensures t.sent == s.sent && t.channel == [] && t.inner == s.inner
    ensures s.sent != [] ==> t.file == Some(s.sent[|s.sent| - 1].value)
    decreases StepsLeft(s)
  {
    if s.worker.Exited? {
      events, t := [], s;
    } else {
      var e := NextOfWriter(s);
      var m := Next(s, e, locked);
      NextKeepsWriter(s, e, locked);
      events, t := WriterEnds(m, locked);
      RunFirst(s, e, events, locked, t);
      events := [e] + events;
    }
  }

  /**
    With no recorder at work the senders can go, and a bounded number of steps later the writer has taken in whatever
    was left, written the last message and ended.
   */
  lemma {:induction false} WriterFinishes<T>(s: System<T>, locked: bool) returns (events: seq<Event<T>>, t: System<T>)
    requires WriterInv(s) && s.recorders == map[]
    ensures Run(s, events, locked, t) && t.worker.Exited? && |events| <= StepsLeft(s) + 1
    ensures t.sent == s.sent && t.channel == [] && t.inner == s.inner
    ensures s.sent != [] ==> t.file == Some(s.sent[|s.sent| - 1].value)
  {
    if s.sendersGone {
      events, t := WriterEnds(s, locked);
    } else {
      var m := Next(s, DropSenders, locked);
      NextKeepsWriter(s, DropSenders, locked);
      events, t := WriterEnds(m, locked);
      RunFirst(s, DropSenders, events, locked, t);
      events := [DropSenders] + events;
    }
  }

  /** A writer that finds the senders gone ends at once, after writing what it had collected, if anything. */
  lemma DisconnectionEnds<T>(s: System<T>, locked: bool)
    requires Enabled(s, Disconnected, locked)
    ensures var m := Next(s, Disconnected, locked);
            if s.worker.Receiving? then m.worker.Exited?
            else Enabled(m, Write, locked)
                 && Next(m, Write, locked).worker.Exited? && Next(m, Write, locked).file == Some(s.worker.pending)
  {
  }

  lemma RunFirst<T>(s: System<T>, e: Event<T>, later: seq<Event<T>>, locked: bool, t: System<T>)
    requires Enabled(s, e, locked) && Run(Next(s, e, locked), later, locked, t)
    ensures Run(s, [e] + later, locked, t)
  {
    assert ([e] + later)[1..] == later;
  }

  // ----- The profit tracker -----

  /** The run's changes are a history of profit recordings. */
  ghost predicate Records(committed: seq<Inner>, initial: Inner, ops: History) {
    |committed| == |ops| && forall i :: 0 <= i < |ops| ==> committed[i] == ApplyAll(initial, ops[..i + 1])
  }

  /** In the end the profit file holds the totals and series of the whole history, in the order the lock was taken. */
  lemma {:induction false} ProfitFileHoldsHistory(s: System<Inner>, events: seq<Event<Inner>>, t: System<Inner>,
                                                  ops: History)
    requires Start(s) && Run(s, events, true, t) && Quiet(t) && Records(t.committed, s.inner, ops) && ops != []
    ensures t.file == Some(ApplyAll(s.inner, ops))
  {
    LastCommit(s, events, t);
    LastOfHistory(t.committed, s.inner, ops);
  }

  lemma {:induction false} LastCommit<T>(s: System<T>, events: seq<Event<T>>, t: System<T>)
    requires Start(s) && Run(s, events, true, t) && Quiet(t) && t.committed != []
    ensures t.file == Some(t.committed[|t.committed| - 1])
  {
    WriterFollowsChannel(s, events, true, t);
    ReachedMessages(s, events, t);
  }

  lemma {:induction false} LastOfHistory(committed: seq<Inner>, initial: Inner, ops: History)
    requires Records(committed, initial, ops) && ops != []
    ensures committed != [] && committed[|committed| - 1] == ApplyAll(initial, ops)
  {
    assert ops[..|ops| - 1 + 1] == ops;
  }
}
