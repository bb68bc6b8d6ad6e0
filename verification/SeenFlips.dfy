/**
  The duplicate filter all flip sockets of `src/main.rs` share, and the forwarders around it.
 */
module SeenFlips {
  import opened Wrappers

  const CAP: nat := 512

  /** The most recent accepted ids. */
  function Window(accepted: seq<string>): seq<string> {
    if |accepted| <= CAP then accepted else accepted[|accepted| - CAP..]
  }

  predicate Distinct(s: seq<string>) { forall i, j :: 0 <= i < j < |s| ==> s[i] != s[j] }

  /** Equal accepted ids are more than the cap apart. */
  predicate Spaced(accepted: seq<string>) {
    forall i, j :: 0 <= i < j < |accepted| && accepted[i] == accepted[j] ==> j - i > CAP
  }

  lemma SpacedWindowDistinct(accepted: seq<string>)
    requires Spaced(accepted)
    ensures Distinct(Window(accepted))
  {
  }

  lemma AcceptKeepsSpaced(accepted: seq<string>, uuid: string)
    requires Spaced(accepted)
    ensures Spaced(accepted + [uuid]) <==> uuid !in Window(accepted)
  {
    var a := accepted + [uuid];
    if uuid in Window(accepted) {
      var k :| 0 <= k < |Window(accepted)| && Window(accepted)[k] == uuid;
      var i := k + |accepted| - |Window(accepted)|;
      assert a[i] == a[|accepted|];
    } else {
      var first := |accepted| - |Window(accepted)|;
      forall i | first <= i < |accepted|
        ensures accepted[i] != uuid
      {
        assert Window(accepted)[i - first] == accepted[i];
      }
    }
  }

  /** The hash set and the queue behind the mutex. */
  datatype Filter = Filter(members: set<string>, order: seq<string>)

  function Elements(s: seq<string>): set<string> { set x | x in s }

  /** The filter holds exactly the window of what was accepted. */
  predicate Mirrors(f: Filter, accepted: seq<string>) {
    f.order == Window(accepted) && f.members == Elements(f.order)
  }

  class Filtering {
    var members: set<string>
    var order: seq<string>
    ghost var accepted: seq<string>

    ghost predicate Valid()
      reads this
    {
      Mirrors(Filter(members, order), accepted) && Spaced(accepted)
    }

    constructor ()
      ensures Valid() && accepted == []
    {
      members, order, accepted := {}, [], [];
    }

    /** `flip_already_seen`, under its lock. */
    method AlreadySeen(uuid: string) returns (seen: bool)
      requires Valid()
      modifies this
      ensures Valid()
      ensures seen <==> uuid in Window(old(accepted))
      ensures accepted == if seen then old(accepted) else old(accepted) + [uuid]
      ensures Filter(members, order) == Admit(old(Filter(members, order)), uuid)
    {
      if uuid in members {
        return true;
      }
      AcceptKeepsSpaced(accepted, uuid);
      AdmitMirrors(Filter(members, order), accepted, uuid);
      members := members + {uuid};
      order := order + [uuid];
      if |order| > CAP {
        var oldest := order[0];
        order := order[1..];
        members := members - {oldest};
      }
      accepted := accepted + [uuid];
      return false;
    }
  }

  /** The filter after an id: unchanged when the id is a member. */
  function Admit(f: Filter, uuid: string): Filter {
    if uuid in f.members then f
    else
      var order := f.order + [uuid];
      if |order| > CAP then Filter(f.members + {uuid} - {order[0]}, order[1..])
      else Filter(f.members + {uuid}, order)
  }

  lemma {:induction false} AdmitMirrors(f: Filter, accepted: seq<string>, uuid: string)
    requires Mirrors(f, accepted) && Spaced(accepted)
    ensures uuid in f.members <==> uuid in Window(accepted)
    ensures Mirrors(Admit(f, uuid), if uuid in f.members then accepted else accepted + [uuid])
  {
    if uuid !in f.members {
      SpacedWindowDistinct(accepted);
      var order := f.order + [uuid];
      if |order| > CAP {
        assert order[1..] == Window(accepted + [uuid]);
        assert forall x :: x in order[1..] <==> x in order && x != order[0] by {
          forall x | x in order[1..]
            ensures x != order[0]
          {
            var i :| 0 <= i < |order[1..]| && order[1..][i] == x;
            assert order[i + 1] == x;
          }
        }
      }
    }
  }

  // ----- The forwarders -----

  /** A flip on a socket; the finder's own feed also carries whether both its prices are set. */
  datatype Flip = Flip(uuid: Option<string>, priced: bool)

  /** A forwarder task: unread flips, and the flip it let through but has not sent on yet. */
  datatype Socket = Socket(finder: bool, inbox: seq<Flip>, held: Option<Flip>)

  /** The sockets, the filter and the shared channel, with the history the statements speak of. */
  datatype System = System(
    sockets: seq<Socket>, filter: Filter, channel: seq<Flip>,
    accepted: seq<string>, unpriced: seq<string>, dropped: seq<(string, nat)>)

  datatype Step = Take(socket: nat) | Send(socket: nat)

  predicate Enabled(s: System, step: Step) {
    step.socket < |s.sockets| &&
    match step
    case Take(k) => s.sockets[k].held.None? && s.sockets[k].inbox != []
    case Send(k) => s.sockets[k].held.Some?
  }

  /** Taking a flip and passing it through the filter is one step: the filter's lock makes it so. */
  function Next(s: System, step: Step): System
    requires Enabled(s, step)
  {
    var k := step.socket;
    var socket := s.sockets[k];
    match step
    case Send(_) =>
      s.(sockets := s.sockets[k := socket.(held := None)], channel := s.channel + [socket.held.value])
    case Take(_) =>
      var flip, rest := socket.inbox[0], socket.(inbox := socket.inbox[1..]);
      if flip.uuid.None? then
        s.(sockets := s.sockets[k := if socket.finder then rest else rest.(held := Some(flip))])
      else if flip.uuid.value in s.filter.members then
        s.(sockets := s.sockets[k := rest], dropped := s.dropped + [(flip.uuid.value, |s.accepted|)])
      else
        var s' := s.(filter := Admit(s.filter, flip.uuid.value), accepted := s.accepted + [flip.uuid.value]);
        if socket.finder && !flip.priced then
          s'.(sockets := s.sockets[k := rest], unpriced := s.unpriced + [flip.uuid.value])
        else s'.(sockets := s.sockets[k := rest.(held := Some(flip))])
  }

  function Count(s: seq<string>, u: string): nat {
    if s == [] then 0 else Count(s[..|s| - 1], u) + if s[|s| - 1] == u then 1 else 0
  }

  function IsUuid(flip: Flip, u: string): nat { if flip.uuid == Some(u) then 1 else 0 }

  function HeldBy(socket: Socket, u: string): nat {
    if socket.held.Some? then IsUuid(socket.held.value, u) else 0
  }

  function Held(sockets: seq<Socket>, u: string): nat {
    if sockets == [] then 0 else HeldBy(sockets[0], u) + Held(sockets[1..], u)
  }

  function Sent(channel: seq<Flip>, u: string): nat {
    if channel == [] then 0 else Sent(channel[..|channel| - 1], u) + IsUuid(channel[|channel| - 1], u)
  }

  lemma {:induction false} HeldAfter(sockets: seq<Socket>, k: nat, socket: Socket, u: string)
    requires k < |sockets|
    ensures Held(sockets[k := socket], u) + HeldBy(sockets[k], u) == Held(sockets, u) + HeldBy(socket, u)
  {
    if k == 0 {
      assert sockets[k := socket][1..] == sockets[1..];
    } else {
      assert sockets[k := socket][1..] == sockets[1..][k - 1 := socket];
      HeldAfter(sockets[1..], k - 1, socket, u);
    }
  }

  lemma CountsAppend(s: seq<string>, channel: seq<Flip>, x: string, flip: Flip, u: string)
    ensures Count(s + [x], u) == Count(s, u) + if x == u then 1 else 0
    ensures Sent(channel + [flip], u) == Sent(channel, u) + IsUuid(flip, u)
  {
    assert (s + [x])[..|s|] == s && (channel + [flip])[..|channel|] == channel;
  }

  /** A drop was right when the id was among the last ones accepted by then. */
  predicate DropsRight(dropped: seq<(string, nat)>, accepted: seq<string>) {
    forall i :: 0 <= i < |dropped| ==>
      dropped[i].1 <= |accepted| && dropped[i].0 in Window(accepted[..dropped[i].1])
  }

  /** Every accepted id is sent, held by a forwarder, or was given up for want of a price: none twice, none lost. */
  predicate Conserved(s: System, u: string) {
    Count(s.accepted, u) == Sent(s.channel, u) + Held(s.sockets, u) + Count(s.unpriced, u)
  }

  predicate Inv(s: System) {
    Mirrors(s.filter, s.accepted) && Spaced(s.accepted) && DropsRight(s.dropped, s.accepted)
  }

  predicate Start(s: System) {
    s.filter == Filter({}, []) && s.channel == [] && s.accepted == [] && s.unpriced == [] && s.dropped == []
    && forall k :: 0 <= k < |s.sockets| ==> s.sockets[k].held.None?
  }

  lemma {:induction false} NothingHeld(sockets: seq<Socket>, u: string)
    requires forall k :: 0 <= k < |sockets| ==> sockets[k].held.None?
    ensures Held(sockets, u) == 0
  {
    if sockets != [] {
      NothingHeld(sockets[1..], u);
    }
  }

  lemma SendConserves(s: System, k: nat, u: string)
    requires Conserved(s, u) && Enabled(s, Send(k))
    ensures Conserved(Next(s, Send(k)), u)
  {
    var socket := s.sockets[k];
    HeldAfter(s.sockets, k, socket.(held := None), u);
    CountsAppend([], s.channel, "", socket.held.value, u);
  }

  lemma TakeConserves(s: System, k: nat, u: string)
    requires Conserved(s, u) && Enabled(s, Take(k))
    ensures Conserved(Next(s, Take(k)), u)
  {
    var socket := s.sockets[k];
    var flip, rest := socket.inbox[0], socket.(inbox := socket.inbox[1..]);
    var held := rest.(held := Some(flip));
    if flip.uuid.None? || flip.uuid.value in s.filter.members {
      var socket' := if flip.uuid.None? && !socket.finder then held else rest;
      HeldAfter(s.sockets, k, socket', u);
    } else {
      CountsAppend(s.accepted, [], flip.uuid.value, flip, u);
      CountsAppend(s.unpriced, [], flip.uuid.value, flip, u);
      HeldAfter(s.sockets, k, if socket.finder && !flip.priced then rest else held, u);
    }
  }

  lemma DropsStayRight(dropped: seq<(string, nat)>, accepted: seq<string>, accepted': seq<string>)
    requires DropsRight(dropped, accepted) && accepted <= accepted'
    ensures DropsRight(dropped, accepted')
  {
    forall i | 0 <= i < |dropped|
      ensures dropped[i].1 <= |accepted'| && dropped[i].0 in Window(accepted'[..dropped[i].1])
    {
      assert accepted'[..dropped[i].1] == accepted[..dropped[i].1];
    }
  }

  lemma NextKeepsInv(s: System, step: Step)
    requires Inv(s) && Enabled(s, step)
    ensures Inv(Next(s, step))
  {
    if step.Take? && s.sockets[step.socket].inbox[0].uuid.Some? {
      var uuid := s.sockets[step.socket].inbox[0].uuid.value;
      AdmitMirrors(s.filter, s.accepted, uuid);
      if uuid in s.filter.members {
        assert s.accepted[..|s.accepted|] == s.accepted;
      } else {
        AcceptKeepsSpaced(s.accepted, uuid);
        DropsStayRight(s.dropped, s.accepted, s.accepted + [uuid]);
      }
    }
  }

  ghost predicate Run(s: System, steps: seq<Step>, t: System)
    decreases |steps|
  {
    if steps == [] then s == t else Enabled(s, steps[0]) && Run(Next(s, steps[0]), steps[1..], t)
  }

  lemma {:induction false} RunKeeps(s: System, steps: seq<Step>, t: System, u: string)
    requires Inv(s) && Conserved(s, u) && Run(s, steps, t)
    ensures Inv(t) && Conserved(t, u)
    decreases |steps|
  {
    if steps != [] {
      NextKeepsInv(s, steps[0]);
      match steps[0] {
        case Take(k) => TakeConserves(s, k, u);
        case Send(k) => SendConserves(s, k, u);
      }
      RunKeeps(Next(s, steps[0]), steps[1..], t, u);
    }
  }

  lemma {:induction false} CountOfDistinct(s: seq<string>, u: string)
    requires Distinct(s)
    ensures Count(s, u) == if u in s then 1 else 0
  {
    if s != [] {
      CountOfDistinct(s[..|s| - 1], u);
      assert s == s[..|s| - 1] + [s[|s| - 1]];
    }
  }

  // ----- Which flips go where -----

  /**
    What becomes of one flip read from a socket: a repeat goes no further, nor does one from the finder without an
    id or without its prices; every other flip, one without an id from COFL included, is held for the channel.
   */
  lemma {:induction false} TakeOutcome(s: System, k: nat)
    requires Inv(s) && Enabled(s, Take(k))
    ensures var socket, t := s.sockets[k], Next(s, Take(k));
            var flip := socket.inbox[0];
            var isNew := flip.uuid.None? || flip.uuid.value !in Window(s.accepted);
            var forwarded := isNew && !(socket.finder && (flip.uuid.None? || !flip.priced));
            var held := if forwarded then Some(flip) else None;
            && t.sockets == s.sockets[k := Socket(socket.finder, socket.inbox[1..], held)]
            && t.channel == s.channel
            && t.dropped == s.dropped + (if isNew then [] else [(flip.uuid.value, |s.accepted|)])
            && t.accepted == s.accepted + (if isNew && flip.uuid.Some? then [flip.uuid.value] else [])
            && t.unpriced == s.unpriced
                 + (if isNew && flip.uuid.Some? && socket.finder && !flip.priced then [flip.uuid.value] else [])
  {
    var uuid := s.sockets[k].inbox[0].uuid;
    if uuid.Some? {
      AdmitMirrors(s.filter, s.accepted, uuid.value);
    }
  }

  /** A flip that was on a socket, with what the finder's feed must have. */
  predicate CameFrom(sockets: seq<Socket>, k: nat, flip: Flip) {
    k < |sockets| && flip in sockets[k].inbox && (sockets[k].finder ==> flip.uuid.Some? && flip.priced)
  }

  /** An id the finder's feed announced without its prices. */
  ghost predicate GivenUp(sockets: seq<Socket>, u: string) {
    exists k :: 0 <= k < |sockets| && sockets[k].finder && Flip(Some(u), false) in sockets[k].inbox
  }

  /** Seen from the start: every flip let through came from a socket, and every id given up had no prices. */
  ghost predicate Origins(start: seq<Socket>, s: System) {
    && |s.sockets| == |start|
    && (forall k :: 0 <= k < |start| ==>
          && s.sockets[k].finder == start[k].finder
          && (forall f :: f in s.sockets[k].inbox ==> f in start[k].inbox)
          && (s.sockets[k].held.Some? ==> CameFrom(start, k, s.sockets[k].held.value)))
    && (forall f :: f in s.channel ==> exists k :: CameFrom(start, k, f))
    && (forall u :: u in s.unpriced ==> GivenUp(start, u))
  }

  lemma {:induction false} SendKeepsOrigins(start: seq<Socket>, s: System, k: nat)
    requires Origins(start, s) && Enabled(s, Send(k))
    ensures Origins(start, Next(s, Send(k)))
  {
    assert CameFrom(start, k, s.sockets[k].held.value);
  }

  lemma {:induction false} TakeKeepsOrigins(start: seq<Socket>, s: System, k: nat)
    requires Origins(start, s) && Inv(s) && Enabled(s, Take(k))
    ensures Origins(start, Next(s, Take(k)))
  {
    var t, flip := Next(s, Take(k)), s.sockets[k].inbox[0];
    TakeOutcome(s, k);
    assert flip in s.sockets[k].inbox;
    forall f | f in t.sockets[k].inbox ensures f in start[k].inbox {
      assert f in s.sockets[k].inbox;
    }
    forall u | u in t.unpriced ensures GivenUp(start, u) {
      if u !in s.unpriced {
        assert flip == Flip(Some(u), false) && flip in start[k].inbox;
      }
    }
  }

  lemma {:induction false} RunKeepsOrigins(start: seq<Socket>, s: System, steps: seq<Step>, t: System)
    requires Origins(start, s) && Inv(s) && Run(s, steps, t)
    ensures Origins(start, t)
    decreases |steps|
  {
    if steps != [] {
      NextKeepsInv(s, steps[0]);
      match steps[0] {
        case Take(k) => TakeKeepsOrigins(start, s, k);
        case Send(k) => SendKeepsOrigins(start, s, k);
      }
      RunKeepsOrigins(start, Next(s, steps[0]), steps[1..], t);
    }
  }

  /**
    For every interleaving: what is sent came from a socket, and from the finder's only with an id and both prices;
    an id is given up only if the finder announced it without them. With all its flips priced, none is given up.
   */
  lemma {:induction false} OnlyUnpricedGivenUp(s: System, steps: seq<Step>, t: System, u: string)
    requires Start(s) && Run(s, steps, t)
    ensures forall f :: f in t.channel ==> exists k :: CameFrom(s.sockets, k, f)
    ensures u in t.unpriced ==> GivenUp(s.sockets, u)
    ensures (forall k, f :: 0 <= k < |s.sockets| && s.sockets[k].finder && f in s.sockets[k].inbox ==> f.priced) ==>
              t.unpriced == [] && Count(t.accepted, u) == Sent(t.channel, u) + Held(t.sockets, u)
  {
    RunKeepsOrigins(s.sockets, s, steps, t);
    NothingHeld(s.sockets, u);
    RunKeeps(s, steps, t, u);
    if t.unpriced != [] {
      assert GivenUp(s.sockets, t.unpriced[0]);
    }
  }

  /**
    For every interleaving: the filter is the window of the last ids accepted, a drop is always a repeat from that
    window, equal accepted ids are more than the cap apart, and no accepted id is lost or doubled on its way.
   */
  lemma EveryInterleaving(s: System, steps: seq<Step>, t: System, u: string)
    requires Start(s) && Run(s, steps, t)
    ensures t.filter.order == Window(t.accepted) && t.filter.members == Elements(Window(t.accepted))
    ensures Spaced(t.accepted) && DropsRight(t.dropped, t.accepted)
    ensures Count(t.accepted, u) == Sent(t.channel, u) + Held(t.sockets, u) + Count(t.unpriced, u)
    ensures |t.accepted| <= CAP ==> Sent(t.channel, u) <= 1
    ensures |t.filter.order| == Min(512, |t.accepted|)
    ensures forall i, j :: 0 <= i < j < |t.accepted| && t.accepted[i] == t.accepted[j] ==> j - i > 512
  {
    NothingHeld(s.sockets, u);
    RunKeeps(s, steps, t, u);
    if |t.accepted| <= CAP {
      CountOfDistinct(t.accepted, u);
    }
  }
}
