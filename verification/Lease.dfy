/** Does a live socket keep its user online? The lease, the write throttle, the per-socket guard and
    the frames of the socket, against the clock. Instants are whole ticks of any unit. */
module Lease {
  import opened Text
  import opened Rows
  import opened Presence

  type SocketId = nat

  /** `ttl` of the lease, `throttle` of the row, `guard` of one socket, and `gap`, the longest a live
      socket stays silent. */
  datatype Params = Params(ttl: nat, throttle: nat, guard: nat, gap: nat)

  predicate Sensible(p: Params) {
    p.ttl >= 1 && p.guard >= 1 && p.gap >= 1
  }

  datatype Socket = Socket(touchedAt: Option<Time>, lastFrame: Time)

  datatype Scene = Scene(row: Option<Row>, now: Time, sockets: map<SocketId, Socket>)

  datatype Event =
    | Tick(d: nat)
    | Open(id: SocketId)
    | Inbound(id: SocketId)   // any frame, the heartbeat's answer included
    | Close(id: SocketId)
    | Crash(id: SocketId)     // gone without a disconnect

  function Next(p: Params, w: Scene, e: Event): Scene {
    match e
    case Tick(d) => w.(now := w.now + d)
    case Open(id) =>
      if id in w.sockets then w
      else Scene(Some(Connected(w.row, w.now, p.ttl)), w.now, w.sockets[id := Socket(None, w.now)])
    case Inbound(id) =>
      if id !in w.sockets then w
      else if GuardPasses(w.sockets[id].touchedAt, w.now, p.guard)
      then Scene(Touched(w.row, w.now, p.throttle, p.ttl), w.now, w.sockets[id := Socket(Some(w.now), w.now)])
      else w.(sockets := w.sockets[id := Socket(w.sockets[id].touchedAt, w.now)])
    case Close(id) =>
      if id !in w.sockets then w else Scene(Disconnected(w.row, w.now), w.now, w.sockets - {id})
    case Crash(id) => w.(sockets := w.sockets - {id})
  }

  /** Time may pass only as far as the watched socket, while open, is allowed to stay silent. */
  predicate Allowed(p: Params, w: Scene, e: Event, s: SocketId) {
    e.Tick? && s in w.sockets ==> w.now + e.d <= w.sockets[s].lastFrame + p.gap
  }

  function Play(p: Params, w: Scene, events: seq<Event>): Scene
    decreases |events|
  {
    if events == [] then w else Play(p, Next(p, w, events[0]), events[1..])
  }

  predicate Legal(p: Params, w: Scene, events: seq<Event>, s: SocketId)
    decreases |events|
  {
    events == [] || (Allowed(p, w, events[0], s) && Legal(p, Next(p, w, events[0]), events[1..], s))
  }

  const START := Scene(None, 0, map[])

  /** A sibling of the watched socket disconnects while that socket is open. */
  predicate Disturbs(w: Scene, e: Event, s: SocketId) {
    e.Close? && e.id != s && e.id in w.sockets && s in w.sockets
  }

  function StruckBy(w: Scene, e: Event, s: SocketId): nat {
    if Disturbs(w, e, s) then 1 else 0
  }

  /** How often a sibling disconnects while the watched socket is open. Earlier sessions may have come
      and gone, and the watched socket itself may close and open again. */
  function Disturbances(p: Params, w: Scene, events: seq<Event>, s: SocketId): nat
    decreases |events|
  {
    if events == [] then 0
    else StruckBy(w, events[0], s) + Disturbances(p, Next(p, w, events[0]), events[1..], s)
  }

  ghost predicate Lapsed(p: Params, s: SocketId, events: seq<Event>) {
    var w := Play(p, START, events);
    Legal(p, START, events, s) && s in w.sockets && !IsOnline(w.row, w.now)
  }

  /** The user of an open socket is never shown offline, in any run in which siblings disconnect no more
      than `n` times while it is open. */
  ghost predicate NeverLapsesWithin(p: Params, n: nat) {
    forall s, events :: Disturbances(p, START, events, s) <= n ==> !Lapsed(p, s, events)
  }

  // ── The bound ────────────────────────────────────────────────────────────

  /** The longest a socket goes between two touches: just under the guard, and then as silent as it may. */
  function Silence(p: Params): nat
    requires Sensible(p)
  {
    p.guard + p.gap - 1
  }

  /** How far a chain of throttled touches reaches: no further than the throttle, in strides of at least
      the guard and at most the silence. */
  function Reach(p: Params): nat
    requires Sensible(p)
  {
    var strides := (p.throttle / p.guard) * Silence(p);
    if strides < p.throttle then strides else p.throttle
  }

  /** What one sibling disconnect can cost: it moves `last_seen_at` without the lease, so the next chain
      of touches is throttled away too. */
  function Lost(p: Params): nat
    requires Sensible(p)
  {
    Silence(p) + Reach(p)
  }

  /** The latest touch that still was not written, `m` disconnects after the lease was renewed. */
  function Limit(p: Params, renewed: Time, m: nat): Time
    requires Sensible(p)
  {
    renewed + p.throttle + m * Lost(p)
  }

  predicate Covers(p: Params, n: nat)
    requires Sensible(p)
  {
    p.throttle + Silence(p) + n * Lost(p) < p.ttl
  }

  lemma OneMoreTimes(n: nat, x: nat)
    ensures (n + 1) * x == n * x + x
  {
  }

  lemma MoreTimes(m: nat, n: nat, x: nat)
    requires m <= n
    ensures m * x <= n * x
  {
  }

  /** `k` strides that stay within the throttle stay within the reach. */
  lemma StridesStayInReach(p: Params, k: nat, length: nat)
    requires Sensible(p) && k * p.guard <= length <= k * Silence(p) && length <= p.throttle
    ensures length <= Reach(p)
  {
    var most := p.throttle / p.guard;
    OneMoreTimes(most, p.guard);
    if k > most {
      MoreTimes(most + 1, k, p.guard);
    }
    MoreTimes(k, most, Silence(p));
  }

  // ── ... suffices ─────────────────────────────────────────────────────────

  /** Every open socket is counted in the row. */
  predicate Counted(w: Scene) {
    && (w.sockets != map[] ==> w.row.Some?)
    && (w.row.Some? ==> w.row.value.connections >= |w.sockets|)
  }

  lemma TwoSocketsCount(sockets: map<SocketId, Socket>, a: SocketId, b: SocketId)
    requires a in sockets && b in sockets && a != b
    ensures |sockets| >= 2 && |sockets - {a}| == |sockets| - 1 && sockets - {a} != map[]
  {
    assert b in sockets - {a};
    assert sockets.Keys == (sockets - {a}).Keys + {a};
    assert |sockets.Keys| == |(sockets - {a}).Keys| + 1;
  }

  lemma OneSocketLess(sockets: map<SocketId, Socket>, a: SocketId)
    ensures |sockets - {a}| == if a in sockets then |sockets| - 1 else |sockets|
  {
    if a in sockets {
      assert sockets.Keys == (sockets - {a}).Keys + {a};
    } else {
      assert sockets - {a} == sockets;
    }
  }

  lemma OneSocketMore(sockets: map<SocketId, Socket>, a: SocketId, socket: Socket)
    ensures |sockets[a := socket]| == if a in sockets then |sockets| else |sockets| + 1
  {
    assert sockets[a := socket].Keys == sockets.Keys + {a};
  }

  lemma StepKeepsCounted(p: Params, w: Scene, e: Event)
    requires Counted(w)
    ensures Counted(Next(p, w, e))
  {
    match e {
      case Tick(_) =>
      case Open(id) => OneSocketMore(w.sockets, id, Socket(None, w.now));
      case Inbound(id) =>
        if id in w.sockets {
          OneSocketMore(w.sockets, id, Next(p, w, e).sockets[id]);
        }
      case Close(id) => OneSocketLess(w.sockets, id);
      case Crash(id) => OneSocketLess(w.sockets, id);
    }
  }

  predicate NoCrashes(events: seq<Event>) {
    forall i | 0 <= i < |events| :: !events[i].Crash?
  }

  predicate CountedExactly(w: Scene) {
    if w.row.None? then w.sockets == map[] else w.row.value.connections == |w.sockets|
  }

  lemma StepCountsExactly(p: Params, w: Scene, e: Event)
    requires CountedExactly(w) && !e.Crash?
    ensures CountedExactly(Next(p, w, e))
  {
    match e {
      case Tick(_) =>
      case Open(id) => OneSocketMore(w.sockets, id, Socket(None, w.now));
      case Inbound(id) =>
        if id in w.sockets {
          OneSocketMore(w.sockets, id, Next(p, w, e).sockets[id]);
        }
      case Close(id) => OneSocketLess(w.sockets, id);
    }
  }

  lemma {:induction false} RunCountsExactly(p: Params, w: Scene, events: seq<Event>)
    requires CountedExactly(w) && NoCrashes(events)
    ensures CountedExactly(Play(p, w, events))
    decreases |events|
  {
    if events != [] {
      StepCountsExactly(p, w, events[0]);
      RunCountsExactly(p, Next(p, w, events[0]), events[1..]);
    }
  }

  /** As long as no socket goes without a disconnect, the row counts the open sockets, and with the last of
      them the user is offline at once. */
  lemma ConnectionsCountSockets(p: Params, events: seq<Event>)
    requires NoCrashes(events)
    ensures var w := Play(p, START, events);
      && (w.row.Some? ==> w.row.value.connections == |w.sockets|)
      && (w.sockets != map[] ==> w.row.Some?)
      && (w.sockets == map[] ==> !IsOnline(w.row, w.now))
  {
    assert |START.sockets| == 0;
    RunCountsExactly(p, START, events);
  }

  /** What happened to the row since its lease was last renewed: nothing; a sibling disconnected and the
      socket was not touched since; or it was touched in vain, first at that instant and then in so
      many strides. */
  datatype Trail = Renewed | Struck | Tried(first: Time, strides: nat)

  function LastTouch(socket: Socket): Time {
    if socket.touchedAt.Some? then socket.touchedAt.value else socket.lastFrame
  }

  predicate TrailHolds(p: Params, socket: Socket, seen: Time, renewed: Time, m: nat, trail: Trail)
    requires Sensible(p)
  {
    var last := LastTouch(socket);
    match trail
    case Renewed => seen == renewed && last <= seen + p.throttle
    case Struck => m >= 1 && last <= Limit(p, renewed, m - 1)
    case Tried(first, strides) =>
      && m >= 1 && socket.touchedAt.Some? && seen <= first <= Limit(p, renewed, m - 1) + Silence(p)
      && first + strides * p.guard <= last <= first + strides * Silence(p)
      && last <= seen + p.throttle
  }

  /** What the watched socket guarantees about the row after `m` disconnects of siblings. */
  predicate OnTrail(p: Params, w: Scene, s: SocketId, m: nat, trail: Trail)
    requires Sensible(p)
  {
    s in w.sockets ==>
      && w.row.Some? && w.row.value.lastSeen.Some? && w.row.value.onlineUntil.Some?
      && w.row.value.lastSeen.value <= w.now
      && w.sockets[s].lastFrame <= w.now <= w.sockets[s].lastFrame + p.gap
      && LastTouch(w.sockets[s]) <= w.sockets[s].lastFrame < LastTouch(w.sockets[s]) + p.guard
      && TrailHolds(p, w.sockets[s], w.row.value.lastSeen.value, w.row.value.onlineUntil.value - p.ttl, m, trail)
  }

  /** On any trail the last touch is within the limit. */
  lemma TrailStaysInLimit(p: Params, socket: Socket, seen: Time, renewed: Time, m: nat, trail: Trail)
    requires Sensible(p) && TrailHolds(p, socket, seen, renewed, m, trail)
    ensures LastTouch(socket) <= Limit(p, renewed, m)
  {
    if m >= 1 {
      OneMoreTimes(m - 1, Lost(p));
    }
    if trail.Tried? {
      StridesStayInReach(p, trail.strides, LastTouch(socket) - trail.first);
    }
  }

  function NextTrail(p: Params, w: Scene, e: Event, s: SocketId, trail: Trail): Trail {
    match e
    case Open(id) => if id in w.sockets then trail else Renewed
    case Inbound(id) =>
      if id !in w.sockets || !GuardPasses(w.sockets[id].touchedAt, w.now, p.guard) then trail
      else if TouchWrites(w.row, w.now, p.throttle) then Renewed
      else if id != s || trail.Renewed? then trail
      else if trail.Struck? then Tried(w.now, 0)
      else Tried(trail.first, trail.strides + 1)
    case _ => if Disturbs(w, e, s) then Struck else trail
  }

  lemma OwnTouchStaysOnTrail(p: Params, w: Scene, s: SocketId, m: nat, trail: Trail)
    requires Sensible(p) && OnTrail(p, w, s, m, trail) && s in w.sockets
    requires GuardPasses(w.sockets[s].touchedAt, w.now, p.guard)
    ensures OnTrail(p, Next(p, w, Inbound(s)), s, m, NextTrail(p, w, Inbound(s), s, trail))
  {
    if trail.Tried? {
      OneMoreTimes(trail.strides, p.guard);
      OneMoreTimes(trail.strides, Silence(p));
    }
  }

  lemma SiblingCloseStaysOnTrail(p: Params, w: Scene, id: SocketId, s: SocketId, m: nat, trail: Trail)
    requires Sensible(p) && Counted(w) && OnTrail(p, w, s, m, trail) && Disturbs(w, Close(id), s)
    ensures OnTrail(p, Next(p, w, Close(id)), s, m + 1, Struck)
  {
    TwoSocketsCount(w.sockets, id, s);
    TrailStaysInLimit(p, w.sockets[s], w.row.value.lastSeen.value, w.row.value.onlineUntil.value - p.ttl, m, trail);
  }

  lemma StepStaysOnTrail(p: Params, w: Scene, e: Event, s: SocketId, m: nat, trail: Trail)
    requires Sensible(p) && Counted(w) && OnTrail(p, w, s, m, trail) && Allowed(p, w, e, s)
    ensures OnTrail(p, Next(p, w, e), s, m + StruckBy(w, e, s), NextTrail(p, w, e, s, trail))
  {
    if e.Inbound? && e.id == s && s in w.sockets && GuardPasses(w.sockets[s].touchedAt, w.now, p.guard) {
      OwnTouchStaysOnTrail(p, w, s, m, trail);
    } else if Disturbs(w, e, s) {
      SiblingCloseStaysOnTrail(p, w, e.id, s, m, trail);
    }
  }

  lemma {:induction false} RunStaysOnTrail(p: Params, w: Scene, events: seq<Event>, s: SocketId, m: nat, trail: Trail)
    returns (trail': Trail)
    requires Sensible(p) && Counted(w) && OnTrail(p, w, s, m, trail) && Legal(p, w, events, s)
    ensures Counted(Play(p, w, events))
    ensures OnTrail(p, Play(p, w, events), s, m + Disturbances(p, w, events, s), trail')
    decreases |events|
  {
    trail' := trail;
    if events != [] {
      var e := events[0];
      StepKeepsCounted(p, w, e);
      StepStaysOnTrail(p, w, e, s, m, trail);
      trail' := RunStaysOnTrail(p, Next(p, w, e), events[1..], s, m + StruckBy(w, e, s), NextTrail(p, w, e, s, trail));
    }
  }

  lemma TrailIsOnline(p: Params, w: Scene, s: SocketId, m: nat, trail: Trail)
    requires Sensible(p) && Covers(p, m) && Counted(w) && OnTrail(p, w, s, m, trail) && s in w.sockets
    ensures IsOnline(w.row, w.now)
  {
    TrailStaysInLimit(p, w.sockets[s], w.row.value.lastSeen.value, w.row.value.onlineUntil.value - p.ttl, m, trail);
    OneSocketLess(w.sockets, s);
  }

  lemma CoversFewer(p: Params, m: nat, n: nat)
    requires Sensible(p) && m <= n && Covers(p, n)
    ensures Covers(p, m)
  {
    MoreTimes(m, n, Lost(p));
  }

  /** A lease that covers so many sibling disconnects does not lapse, in any run that has no more of them. */
  lemma LeaseSurvivesDisconnects(p: Params, n: nat, s: SocketId, events: seq<Event>)
    requires Sensible(p) && Covers(p, n) && Disturbances(p, START, events, s) <= n
    ensures !Lapsed(p, s, events)
  {
    if Legal(p, START, events, s) {
      var trail := RunStaysOnTrail(p, START, events, s, 0, Renewed);
      CoversFewer(p, Disturbances(p, START, events, s), n);
      if s in Play(p, START, events).sockets {
        TrailIsOnline(p, Play(p, START, events), s, Disturbances(p, START, events, s), trail);
      }
    }
  }

  // ── ... and is needed ────────────────────────────────────────────────────

  lemma {:induction false} PlayConcat(p: Params, w: Scene, a: seq<Event>, b: seq<Event>, s: SocketId)
    ensures Play(p, w, a + b) == Play(p, Play(p, w, a), b)
    ensures Legal(p, w, a + b, s) <==> Legal(p, w, a, s) && Legal(p, Play(p, w, a), b, s)
    ensures Disturbances(p, w, a + b, s) == Disturbances(p, w, a, s) + Disturbances(p, Play(p, w, a), b, s)
    decreases |a|
  {
    if a == [] {
      assert a + b == b;
    } else {
      assert (a + b)[1..] == a[1..] + b;
      PlayConcat(p, Next(p, w, a[0]), a[1..], b, s);
    }
  }

  lemma PlayTwo(p: Params, w: Scene, a: Event, b: Event, s: SocketId)
    ensures Play(p, w, [a, b]) == Next(p, Next(p, w, a), b)
    ensures Legal(p, w, [a, b], s) <==> Allowed(p, w, a, s) && Allowed(p, Next(p, w, a), b, s)
    ensures Disturbances(p, w, [a, b], s) == StruckBy(w, a, s) + StruckBy(Next(p, w, a), b, s)
  {
    PlayOne(p, Next(p, w, a), b, s);
    assert [a, b][1..] == [b];
  }

  lemma PlayOne(p: Params, w: Scene, a: Event, s: SocketId)
    ensures Play(p, w, [a]) == Next(p, w, a)
    ensures Legal(p, w, [a], s) <==> Allowed(p, w, a, s)
    ensures Disturbances(p, w, [a], s) == StruckBy(w, a, s)
  {
    assert [a][1..] == [];
  }

  /** A frame on every tick. */
  function Chatter(s: SocketId, n: nat): seq<Event> {
    if n == 0 then [] else [Tick(1), Inbound(s)] + Chatter(s, n - 1)
  }

  /** A socket that was just touched chatters up to, not including, its next touch. */
  lemma {:induction false} QuietChatter(p: Params, w: Scene, s: SocketId, touched: Time, n: nat)
    requires Sensible(p) && s in w.sockets && w.sockets[s] == Socket(Some(touched), w.now)
    requires w.now + n < touched + p.guard
    ensures Legal(p, w, Chatter(s, n), s) && Disturbances(p, w, Chatter(s, n), s) == 0
    ensures Play(p, w, Chatter(s, n)) == Scene(w.row, w.now + n, w.sockets[s := Socket(Some(touched), w.now + n)])
    decreases n
  {
    if n == 0 {
      assert w.sockets[s := w.sockets[s]] == w.sockets;
    } else {
      var w1 := Next(p, Next(p, w, Tick(1)), Inbound(s));
      PlayTwo(p, w, Tick(1), Inbound(s), s);
      PlayConcat(p, w, [Tick(1), Inbound(s)], Chatter(s, n - 1), s);
      QuietChatter(p, w1, s, touched, n - 1);
    }
  }

  predicate JustTouched(w: Scene, s: SocketId) {
    s in w.sockets && w.sockets[s] == Socket(Some(w.now), w.now)
  }

  predicate FreshAt(p: Params, row: Option<Row>, at: Time) {
    row.Some? && row.value.lastSeen.Some? && row.value.lastSeen.value >= at - p.throttle
  }

  /** Chatter up to the guard, and then nothing until this long after the last touch. */
  function Wait(p: Params, s: SocketId, length: nat): seq<Event>
    requires Sensible(p) && p.guard <= length
  {
    Chatter(s, p.guard - 1) + [Tick(length - p.guard + 1)]
  }

  lemma WaitRuns(p: Params, w: Scene, s: SocketId, length: nat)
    requires Sensible(p) && JustTouched(w, s) && p.guard <= length <= Silence(p)
    ensures Legal(p, w, Wait(p, s, length), s) && Disturbances(p, w, Wait(p, s, length), s) == 0
    ensures Play(p, w, Wait(p, s, length)) ==
      Scene(w.row, w.now + length, w.sockets[s := Socket(Some(w.now), w.now + p.guard - 1)])
  {
    var w1 := Scene(w.row, w.now + p.guard - 1, w.sockets[s := Socket(Some(w.now), w.now + p.guard - 1)]);
    QuietChatter(p, w, s, w.now, p.guard - 1);
    PlayOne(p, w1, Tick(length - p.guard + 1), s);
    PlayConcat(p, w, Chatter(s, p.guard - 1), [Tick(length - p.guard + 1)], s);
  }

  /** A wait that ends in a touch the throttle swallows. */
  lemma StrideRuns(p: Params, w: Scene, s: SocketId, length: nat)
    requires Sensible(p) && JustTouched(w, s) && p.guard <= length <= Silence(p)
    requires FreshAt(p, w.row, w.now + length)
    ensures var events := Wait(p, s, length) + [Inbound(s)];
      && Legal(p, w, events, s) && Disturbances(p, w, events, s) == 0
      && Play(p, w, events) == Touch(w, s, length)
  {
    WaitRuns(p, w, s, length);
    var w1 := Play(p, w, Wait(p, s, length));
    PlayOne(p, w1, Inbound(s), s);
    PlayConcat(p, w, Wait(p, s, length), [Inbound(s)], s);
    assert w1.sockets[s := Socket(Some(w1.now), w1.now)] == w.sockets[s := Socket(Some(w1.now), w1.now)];
  }

  /** The same scene so much later, with the socket just touched. */
  function Touch(w: Scene, s: SocketId, length: nat): Scene {
    Scene(w.row, w.now + length, w.sockets[s := Socket(Some(w.now + length), w.now + length)])
  }

  lemma TouchTwice(w: Scene, s: SocketId, a: nat, b: nat)
    ensures Touch(Touch(w, s, a), s, b) == Touch(w, s, a + b)
  {
  }

  /** The longest first stride that leaves the others their guard. */
  lemma FirstStride(p: Params, k: nat, length: nat) returns (one: nat)
    requires Sensible(p) && k >= 1 && k * p.guard <= length <= k * Silence(p)
    ensures p.guard <= one <= Silence(p) && one <= length
    ensures (k - 1) * p.guard <= length - one <= (k - 1) * Silence(p)
  {
    OneMoreTimes(k - 1, p.guard);
    OneMoreTimes(k - 1, Silence(p));
    TimesMore(k - 1, p.guard, Silence(p));
    var spare := length - (k - 1) * p.guard;
    one := if spare < Silence(p) then spare else Silence(p);
  }

  /** Any length that so many strides can add up to, while the row stays fresh. */
  lemma {:induction false} StridesRun(p: Params, w: Scene, s: SocketId, k: nat, length: nat)
    returns (events: seq<Event>)
    requires Sensible(p) && JustTouched(w, s) && k * p.guard <= length <= k * Silence(p)
    requires FreshAt(p, w.row, w.now + length)
    ensures Legal(p, w, events, s) && Disturbances(p, w, events, s) == 0
    ensures Play(p, w, events) == Touch(w, s, length)
    decreases k
  {
    if k == 0 {
      events := [];
      assert w.sockets[s := w.sockets[s]] == w.sockets;
    } else {
      var one := FirstStride(p, k, length);
      var stride := Wait(p, s, one) + [Inbound(s)];
      StrideRuns(p, w, s, one);
      var rest := StridesRun(p, Touch(w, s, one), s, k - 1, length - one);
      PlayConcat(p, w, stride, rest, s);
      TouchTwice(w, s, one, length - one);
      events := stride + rest;
    }
  }

  lemma TimesMore(k: nat, x: nat, y: nat)
    requires x <= y
    ensures k * x <= k * y
  {
  }

  /** The whole reach, in as many strides as it takes. */
  lemma ReachRuns(p: Params, w: Scene, s: SocketId) returns (events: seq<Event>)
    requires Sensible(p) && JustTouched(w, s) && FreshAt(p, w.row, w.now + Reach(p))
    ensures Legal(p, w, events, s) && Disturbances(p, w, events, s) == 0
    ensures Play(p, w, events) == Touch(w, s, Reach(p))
  {
    var most := p.throttle / p.guard;
    TimesMore(most, p.guard, Silence(p));
    events := StridesRun(p, w, s, most, Reach(p));
  }

  // ── Sibling tabs ─────────────────────────────────────────────────────────

  function Tabs(n: nat): seq<Event> {
    if n == 0 then [] else Tabs(n - 1) + [Open(n)]
  }

  /** `n` sibling tabs are open beside the socket, and the lease runs until `until`. */
  ghost predicate TabsBeside(w: Scene, n: nat, until: Option<Time>) {
    && (forall i: nat :: i in w.sockets <==> i <= n)
    && w.row.Some? && w.row.value.connections == n + 1
    && w.row.value.onlineUntil == until
  }

  /** ... and the socket has just spoken. */
  ghost predicate WithTabs(w: Scene, n: nat, until: Option<Time>) {
    TabsBeside(w, n, until) && 0 in w.sockets && w.sockets[0].lastFrame == w.now
  }

  lemma {:induction false} TabsOpen(p: Params, w: Scene, n: nat, until: Option<Time>)
    requires WithTabs(w, 0, until)
    ensures Legal(p, w, Tabs(n), 0) && Disturbances(p, w, Tabs(n), 0) == 0
    ensures var w' := Play(p, w, Tabs(n));
      && w'.now == w.now && 0 in w'.sockets && w'.sockets[0] == w.sockets[0]
      && WithTabs(w', n, if n == 0 then until else Some(w.now + p.ttl))
      && (n > 0 ==> w'.row.value.lastSeen == Some(w.now))
    decreases n
  {
    if n > 0 {
      TabsOpen(p, w, n - 1, until);
      var w1 := Play(p, w, Tabs(n - 1));
      PlayOne(p, w1, Open(n), 0);
      PlayConcat(p, w, Tabs(n - 1), [Open(n)], 0);
    }
  }

  /** A tab closes, and with it comes a touch that finds the row fresh again. */
  lemma StrikeRuns(p: Params, w: Scene, tabs: nat, until: Option<Time>)
    requires Sensible(p) && tabs >= 1 && TabsBeside(w, tabs, until)
    requires 0 in w.sockets && GuardPasses(w.sockets[0].touchedAt, w.now, p.guard)
    ensures var w' := Play(p, w, [Close(tabs), Inbound(0)]);
      && TabsBeside(w', tabs - 1, until) && JustTouched(w', 0) && w'.now == w.now
      && w'.row.value.lastSeen == Some(w.now)
    ensures Legal(p, w, [Close(tabs), Inbound(0)], 0) && Disturbances(p, w, [Close(tabs), Inbound(0)], 0) == 1
  {
    PlayTwo(p, w, Close(tabs), Inbound(0), 0);
  }

  /** One more round: as silent as it may be, then a tab closes, then the whole reach. */
  lemma RoundRuns(p: Params, w: Scene, tabs: nat, until: Option<Time>) returns (events: seq<Event>)
    requires Sensible(p) && tabs >= 1 && TabsBeside(w, tabs, until) && JustTouched(w, 0)
    ensures Legal(p, w, events, 0) && Disturbances(p, w, events, 0) == 1
    ensures var w' := Play(p, w, events);
      TabsBeside(w', tabs - 1, until) && JustTouched(w', 0) && w'.now == w.now + Lost(p)
  {
    var wait, strike := Wait(p, 0, Silence(p)), [Close(tabs), Inbound(0)];
    WaitRuns(p, w, 0, Silence(p));
    var w1 := Play(p, w, wait);
    StrikeRuns(p, w1, tabs, until);
    var w2 := Play(p, w1, strike);
    var rest := ReachRuns(p, w2, 0);
    PlayConcat(p, w1, strike, rest, 0);
    PlayConcat(p, w, wait, strike + rest, 0);
    events := wait + (strike + rest);
  }

  lemma {:induction false} RoundsRun(p: Params, w: Scene, tabs: nat, n: nat, until: Option<Time>)
    returns (events: seq<Event>)
    requires Sensible(p) && n <= tabs && TabsBeside(w, tabs, until) && JustTouched(w, 0)
    ensures Legal(p, w, events, 0) && Disturbances(p, w, events, 0) == n
    ensures var w' := Play(p, w, events);
      TabsBeside(w', tabs - n, until) && JustTouched(w', 0) && w'.now == w.now + n * Lost(p)
    decreases n
  {
    if n == 0 {
      events := [];
    } else {
      var one := RoundRuns(p, w, tabs, until);
      var rest := RoundsRun(p, Play(p, w, one), tabs - 1, n - 1, until);
      PlayConcat(p, w, one, rest, 0);
      OneMoreTimes(n - 1, Lost(p));
      events := one + rest;
    }
  }

  /** The socket opens and chatters; some ticks before its next touch the siblings open, the last renewal
      there is. */
  lemma TabsArrive(p: Params, tabs: nat, at: nat) returns (events: seq<Event>)
    requires Sensible(p) && tabs >= 1 && at < p.guard
    ensures Legal(p, START, events, 0) && Disturbances(p, START, events, 0) == 0
    ensures var w := Play(p, START, events);
      && TabsBeside(w, tabs, Some(at + p.ttl)) && w.now == at && w.row.value.lastSeen == Some(at)
      && 0 in w.sockets && w.sockets[0] == Socket(Some(0), at)
  {
    var begin := [Open(0), Inbound(0)];
    PlayTwo(p, START, Open(0), Inbound(0), 0);
    var w := Play(p, START, begin);
    QuietChatter(p, w, 0, 0, at);
    var w1 := Play(p, w, Chatter(0, at));
    TabsOpen(p, w1, tabs, w1.row.value.onlineUntil);
    PlayConcat(p, w, Chatter(0, at), Tabs(tabs), 0);
    PlayConcat(p, START, begin, Chatter(0, at) + Tabs(tabs), 0);
    events := begin + (Chatter(0, at) + Tabs(tabs));
  }

  /** From there the socket's touches fall on multiples of the guard, all of them throttled. */
  lemma TouchesInVain(p: Params, w: Scene, strides: nat, tabs: nat, at: nat) returns (events: seq<Event>)
    requires Sensible(p) && TabsBeside(w, tabs, Some(at + p.ttl)) && w.now == at < p.guard
    requires w.row.value.lastSeen == Some(at) && 0 in w.sockets && w.sockets[0] == Socket(Some(0), at)
    requires strides >= 1 && strides * p.guard == at + p.throttle
    ensures Legal(p, w, events, 0) && Disturbances(p, w, events, 0) == 0
    ensures var w' := Play(p, w, events);
      TabsBeside(w', tabs, Some(at + p.ttl)) && JustTouched(w', 0) && w'.now == at + p.throttle
  {
    var left := p.guard - 1 - at;
    OneMoreTimes(strides - 1, p.guard);
    QuietChatter(p, w, 0, 0, left);
    var w1 := Play(p, w, Chatter(0, left));
    PlayTwo(p, w1, Tick(1), Inbound(0), 0);
    var w2 := Play(p, w1, [Tick(1), Inbound(0)]);
    TimesMore(strides - 1, p.guard, Silence(p));
    var rest := StridesRun(p, w2, 0, strides - 1, (strides - 1) * p.guard);
    PlayConcat(p, w1, [Tick(1), Inbound(0)], rest, 0);
    PlayConcat(p, w, Chatter(0, left), [Tick(1), Inbound(0)] + rest, 0);
    events := Chatter(0, left) + ([Tick(1), Inbound(0)] + rest);
  }

  /** The first multiple of the guard that is not below the throttle. */
  lemma NextMultiple(p: Params) returns (strides: nat, over: nat)
    requires Sensible(p)
    ensures over < p.guard && strides * p.guard == over + p.throttle
  {
    strides := (p.throttle + p.guard - 1) / p.guard;
    over := p.guard - 1 - (p.throttle + p.guard - 1) % p.guard;
  }

  /** A renewal by a sibling, and a touch exactly one throttle later, which is not written. */
  lemma ThrottledTouch(p: Params, tabs: nat) returns (events: seq<Event>, renewed: nat)
    requires Sensible(p) && tabs >= 1
    ensures Legal(p, START, events, 0) && Disturbances(p, START, events, 0) == 0
    ensures var w := Play(p, START, events);
      TabsBeside(w, tabs, Some(renewed + p.ttl)) && JustTouched(w, 0) && w.now == renewed + p.throttle
  {
    var strides;
    strides, renewed := NextMultiple(p);
    events := TabsArrive(p, tabs, renewed);
    if strides > 0 {
      var w := Play(p, START, events);
      var rest := TouchesInVain(p, w, strides, tabs, renewed);
      PlayConcat(p, START, events, rest, 0);
      events := events + rest;
    }
  }

  /** The worst case: siblings open one throttle before a touch, which is therefore not written; one after
      the other they close at the end of a silence, each just before the touch it swallows; and then the
      socket stays as silent as it may. */
  lemma TightRunLapses(p: Params, n: nat) returns (events: seq<Event>)
    requires Sensible(p) && !Covers(p, n)
    ensures Disturbances(p, START, events, 0) == n && Lapsed(p, 0, events)
  {
    var first, renewed := ThrottledTouch(p, n + 1);
    var w1 := Play(p, START, first);
    var rounds := RoundsRun(p, w1, n + 1, n, Some(renewed + p.ttl));
    var w2 := Play(p, w1, rounds);
    var wait := Wait(p, 0, Silence(p));
    WaitRuns(p, w2, 0, Silence(p));
    PlayConcat(p, w1, rounds, wait, 0);
    PlayConcat(p, START, first, rounds + wait, 0);
    events := first + (rounds + wait);
  }

  /** The user of a live socket is never shown offline, in any run in which siblings disconnect at most
      `n` times while it is open, exactly when the lease covers throttle, guard and silence and, for each
      disconnect, another silence and reach. With none of them that is throttle, guard and silence
      together; the boot check (throttle below lease) is weaker. */
  lemma LeaseHoldsIffBounded(p: Params, n: nat)
    requires Sensible(p)
    ensures NeverLapsesWithin(p, n) <==> Covers(p, n)
    ensures NeverLapsesWithin(p, 0) <==> p.throttle + p.guard + p.gap <= p.ttl
  {
    CoverIsExact(p, n);
    CoverIsExact(p, 0);
  }

  lemma CoverIsExact(p: Params, n: nat)
    requires Sensible(p)
    ensures NeverLapsesWithin(p, n) <==> Covers(p, n)
  {
    if Covers(p, n) {
      forall s, events | Disturbances(p, START, events, s) <= n
        ensures !Lapsed(p, s, events)
      {
        LeaseSurvivesDisconnects(p, n, s, events);
      }
    } else {
      var events := TightRunLapses(p, n);
    }
  }

  // ── Disconnects on every tick ────────────────────────────────────────────

  /** A sibling closes just before every frame of the socket. */
  function Closing(n: nat): seq<Event> {
    if n == 0 then [] else [Tick(1), Close(n), Inbound(0)] + Closing(n - 1)
  }

  lemma {:induction false} TabsClose(p: Params, w: Scene, n: nat, until: Option<Time>)
    requires Sensible(p) && WithTabs(w, n, until)
    ensures Legal(p, w, Closing(n), 0)
    ensures var w' := Play(p, w, Closing(n)); w'.now == w.now + n && WithTabs(w', 0, until)
    decreases n
  {
    if n > 0 {
      var w1 := Next(p, w, Tick(1));
      var w2 := Next(p, w1, Close(n));
      var w3 := Next(p, w2, Inbound(0));
      PlayOne(p, w, Tick(1), 0);
      PlayTwo(p, w1, Close(n), Inbound(0), 0);
      PlayConcat(p, w, [Tick(1)], [Close(n), Inbound(0)], 0);
      assert [Tick(1)] + [Close(n), Inbound(0)] == [Tick(1), Close(n), Inbound(0)];
      PlayConcat(p, w, [Tick(1), Close(n), Inbound(0)], Closing(n - 1), 0);
      TabsClose(p, w3, n - 1, until);
    }
  }

  /** No choice of parameters survives sibling disconnects: each one refreshes `last_seen_at`
      without renewing the lease, so the socket's own touches are throttled away until it runs
      out, with the socket open and talking on every tick. */
  lemma SiblingDisconnectsDefeatEveryBound(p: Params)
    requires Sensible(p)
    ensures Lapsed(p, 0, [Open(0), Inbound(0)] + (Tabs(p.ttl) + Closing(p.ttl)))
  {
    PlayTwo(p, START, Open(0), Inbound(0), 0);
    var w := Play(p, START, [Open(0), Inbound(0)]);
    TabsOpen(p, w, p.ttl, Some(p.ttl));
    var w1 := Play(p, w, Tabs(p.ttl));
    TabsClose(p, w1, p.ttl, Some(p.ttl));
    PlayConcat(p, w, Tabs(p.ttl), Closing(p.ttl), 0);
    PlayConcat(p, START, [Open(0), Inbound(0)], Tabs(p.ttl) + Closing(p.ttl), 0);
  }
}
