/** Presence as a server-side fact: a connection counter and a lease, announced when it flips. */
module Presence {
  import opened Text
  import opened Rows

  datatype Row = Row(connections: int, onlineUntil: Option<Time>, lastSeen: Option<Time>)

  datatype Frame = Frame(online: bool, lastSeen: Time, until: Time)

  /** A connection is believed open and the lease still stands. */
  predicate IsOnline(row: Option<Row>, now: Time) {
    row.Some? && row.value.connections > 0 && row.value.onlineUntil.Some? && row.value.onlineUntil.value > now
  }

  function Connected(row: Option<Row>, now: Time, ttl: nat): Row {
    Row((if row.Some? then row.value.connections else 0) + 1, Some(now + ttl), Some(now))
  }

  function ConnectFrame(row: Option<Row>, now: Time, ttl: nat): Option<Frame> {
    if IsOnline(row, now) then None else Some(Frame(true, now, now + ttl))
  }

  function Disconnected(row: Option<Row>, now: Time): Option<Row> {
    if row.None? then None
    else
      var left := if row.value.connections - 1 > 0 then row.value.connections - 1 else 0;
      Some(Row(left, if left > 0 then row.value.onlineUntil else Some(now), Some(now)))
  }

  function DisconnectFrame(row: Option<Row>, now: Time): Option<Frame> {
    if row.Some? && row.value.connections - 1 <= 0 then Some(Frame(false, now, now)) else None
  }

  /** The conditional update filters itself out while the row is fresh. */
  predicate TouchWrites(row: Option<Row>, now: Time, throttle: nat) {
    row.Some? && (row.value.lastSeen.None? || row.value.lastSeen.value < now - throttle)
  }

  function Touched(row: Option<Row>, now: Time, throttle: nat, ttl: nat): Option<Row> {
    if TouchWrites(row, now, throttle)
    then Some(row.value.(lastSeen := Some(now), onlineUntil := Some(now + ttl)))
    else row
  }

  // ── The stored row ───────────────────────────────────────────────────────

  /** `UserPresence`, with the frames its transitions announce. */
  class UserPresence {
    var stored: bool
    var connections: int
    var onlineUntil: Option<Time>
    var lastSeen: Option<Time>
    var frames: seq<Frame>

    constructor ()
      ensures State() == None && frames == []
    {
      stored, connections, onlineUntil, lastSeen, frames := false, 0, None, None, [];
    }

    function State(): Option<Row>
      reads this
    {
      if stored then Some(Row(connections, onlineUntil, lastSeen)) else None
    }

    function Announced(before: seq<Frame>, frame: Option<Frame>): seq<Frame> {
      if frame.Some? then before + [frame.value] else before
    }

    method OnConnect(now: Time, ttl: nat) returns (becameOnline: bool)
      modifies this
      ensures State() == Some(Connected(old(State()), now, ttl))
      ensures frames == Announced(old(frames), ConnectFrame(old(State()), now, ttl))
      ensures becameOnline == !IsOnline(old(State()), now) && IsOnline(State(), now) == (connections > 0 && ttl > 0)
    {
      var created := !stored;
      if created {
        stored, connections, lastSeen, onlineUntil := true, 0, Some(now), Some(now);
      }
      var wasOnline := if created then false else IsOnline(State(), now);
      connections, onlineUntil, lastSeen := connections + 1, Some(now + ttl), Some(now);
      if !wasOnline {
        frames := frames + [Frame(true, now, now + ttl)];
        return true;
      }
      return false;
    }

    method OnDisconnect(now: Time) returns (becameOffline: bool)
      modifies this
      ensures State() == Disconnected(old(State()), now)
      ensures frames == Announced(old(frames), DisconnectFrame(old(State()), now))
      ensures becameOffline ==> !IsOnline(State(), now)
      ensures State().Some? ==> connections >= 0
    {
      if !stored {
        return false;
      }
      connections, lastSeen := if connections - 1 > 0 then connections - 1 else 0, Some(now);
      if connections > 0 {
        return false;
      }
      onlineUntil := Some(now);
      frames := frames + [Frame(false, now, now)];
      return true;
    }

    method Touch(now: Time, throttle: nat, ttl: nat) returns (wrote: bool)
      modifies this
      ensures State() == Touched(old(State()), now, throttle, ttl) && frames == old(frames)
      ensures wrote == TouchWrites(old(State()), now, throttle)
      ensures IsOnline(old(State()), now) && (wrote ==> ttl > 0) ==> IsOnline(State(), now)
    {
      if stored && (lastSeen.None? || lastSeen.value < now - throttle) {
        lastSeen, onlineUntil := Some(now), Some(now + ttl);
        return true;
      }
      return false;
    }
  }

  /** One socket's share: it is counted once and uncounted once, and asks for a touch at most every
      `guard`. */
  class PresenceSocket {
    var counted: bool
    var touchedAt: Option<Time>

    constructor ()
      ensures !counted && touchedAt == None
    {
      counted, touchedAt := false, None;
    }

    method Connect(accepted: bool) returns (increment: bool)
      modifies this
      ensures counted == accepted == increment && touchedAt == None
    {
      counted, touchedAt := accepted, None;
      return accepted;
    }

    method Disconnect() returns (decrement: bool)
      modifies this`counted
      ensures decrement == old(counted) && !counted
    {
      decrement := counted;
      counted := false;
    }

    method Evidence(now: Time, guard: nat) returns (touch: bool)
      modifies this`touchedAt
      ensures touch == (counted && GuardPasses(old(touchedAt), now, guard))
      ensures touchedAt == if touch then Some(now) else old(touchedAt)
    {
      if !counted || (touchedAt.Some? && now - touchedAt.value < guard) {
        return false;
      }
      touchedAt := Some(now);
      return true;
    }
  }

  predicate GuardPasses(touchedAt: Option<Time>, now: Time, guard: nat) {
    touchedAt.None? || now - touchedAt.value >= guard
  }

  // ── What a reader may believe ────────────────────────────────────────────

  /** The row, everything announced so far, the clock, and when the lease was last given out. */
  datatype World = World(row: Option<Row>, frames: seq<Frame>, now: Time, renewed: Option<Time>)

  datatype Event =
    | Connecting
    | Disconnecting     // a counted socket, or a phantom one
    | Touching
    | Crashing          // a worker dies with its sockets: nothing is written
    | Ticking(d: nat)

  function Next(w: World, e: Event, throttle: nat, ttl: nat): World {
    match e
    case Connecting =>
      var frame := ConnectFrame(w.row, w.now, ttl);
      World(Some(Connected(w.row, w.now, ttl)), if frame.Some? then w.frames + [frame.value] else w.frames,
        w.now, Some(w.now))
    case Disconnecting =>
      var frame := DisconnectFrame(w.row, w.now);
      World(Disconnected(w.row, w.now), if frame.Some? then w.frames + [frame.value] else w.frames, w.now, w.renewed)
    case Touching =>
      World(Touched(w.row, w.now, throttle, ttl), w.frames, w.now,
        if TouchWrites(w.row, w.now, throttle) then Some(w.now) else w.renewed)
    case Crashing => w
    case Ticking(d) => w.(now := w.now + d)
  }

  function Play(w: World, events: seq<Event>, throttle: nat, ttl: nat): World {
    if events == [] then w
    else Next(Play(w, events[..|events| - 1], throttle, ttl), events[|events| - 1], throttle, ttl)
  }

  /** A reader holds the last frame only until the deadline it carries. */
  predicate Believes(w: World) {
    w.frames != [] && w.frames[|w.frames| - 1].online && w.now < w.frames[|w.frames| - 1].until
  }

  predicate Consistent(w: World, ttl: nat) {
    && (w.row.Some? ==> w.row.value.connections >= 0)
    && (w.frames != [] && w.frames[|w.frames| - 1].online ==>
        w.row.Some? && w.row.value.connections > 0)
    && (w.row.Some? && w.row.value.connections > 0 ==>
        && w.frames != [] && w.frames[|w.frames| - 1].online
        && w.row.value.onlineUntil.Some? && w.renewed.Some?
        && w.frames[|w.frames| - 1].until <= w.row.value.onlineUntil.value <= w.renewed.value + ttl
        && w.frames[|w.frames| - 1].until <= w.now + ttl
        && w.renewed.value <= w.now)
  }

  lemma NextKeepsConsistent(w: World, e: Event, throttle: nat, ttl: nat)
    requires Consistent(w, ttl)
    ensures Consistent(Next(w, e, throttle, ttl), ttl)
  {
  }

  /** A frame goes out when the first connection of somebody who was not online arrives, and when the last
      one goes, and for nothing else; it says what the row says at that moment. */
  lemma FramesTellTheFlip(w: World, e: Event, throttle: nat, ttl: nat)
    requires Consistent(w, ttl)
    ensures var w' := Next(w, e, throttle, ttl);
      && (w'.frames != w.frames <==>
            || (e.Connecting? && !IsOnline(w.row, w.now))
            || (e.Disconnecting? && w.row.Some? && w.row.value.connections <= 1))
      && (w'.frames != w.frames ==>
            && |w'.frames| == |w.frames| + 1 && w'.frames[..|w.frames|] == w.frames && w'.row.Some?
            && (var frame := w'.frames[|w.frames|];
                && frame.lastSeen == w.now && w'.row.value.lastSeen == Some(w.now)
                && w'.row.value.onlineUntil == Some(frame.until)
                && (frame.online <==> w'.row.value.connections > 0)
                && frame.until == if frame.online then w.now + ttl else w.now))
  {
  }

  const DAWN := World(None, [], 0, None)

  lemma {:induction false} PlayKeepsConsistent(events: seq<Event>, throttle: nat, ttl: nat)
    ensures Consistent(Play(DAWN, events, throttle, ttl), ttl)
  {
    if events != [] {
      PlayKeepsConsistent(events[..|events| - 1], throttle, ttl);
      NextKeepsConsistent(Play(DAWN, events[..|events| - 1], throttle, ttl), events[|events| - 1], throttle, ttl);
    }
  }

  /** Frames are sound and self-limiting: over every run of connects, disconnects (phantom ones
      too), touches, crashes and clock ticks, a reader's belief is the server's own answer cut off
      at the deadline of the last frame, so nobody is ever believed online while they are offline;
      the counter never goes negative; and "online" never outlives the last renewal by the lease. */
  lemma FramesAreSound(events: seq<Event>, throttle: nat, ttl: nat)
    ensures var w := Play(DAWN, events, throttle, ttl);
      && (w.row.Some? ==> w.row.value.connections >= 0)
      && (Believes(w) <==>
          IsOnline(w.row, w.now) && w.frames != [] && w.now < w.frames[|w.frames| - 1].until)
      && (IsOnline(w.row, w.now) ==> w.renewed.Some? && w.now < w.renewed.value + ttl)
  {
    PlayKeepsConsistent(events, throttle, ttl);
  }

  /** The belief can only err by giving up early: a renewal is not announced, so a reader who heard
      nothing since the connect stops believing at the first deadline while the lease runs on. */
  lemma BeliefMayExpireEarly(throttle: nat, ttl: nat)
    requires throttle + 1 < ttl
    ensures var e := [Connecting, Ticking(throttle + 1), Touching, Ticking(ttl - throttle - 1)];
      var w := Play(DAWN, e, throttle, ttl);
      IsOnline(w.row, w.now) && !Believes(w)
  {
    var e: seq<Event> := [Connecting, Ticking(throttle + 1), Touching, Ticking(ttl - throttle - 1)];
    assert e[..3][..2] == e[..2] && e[..2][..1] == e[..1] && e[..1][..0] == [];
    assert Play(DAWN, e[..1], throttle, ttl) ==
      World(Some(Row(1, Some(ttl), Some(0))), [Frame(true, 0, ttl)], 0, Some(0));
    assert Play(DAWN, e[..2], throttle, ttl).now == throttle + 1;
    assert Play(DAWN, e[..3], throttle, ttl).row == Some(Row(1, Some(throttle + 1 + ttl), Some(throttle + 1)));
  }
}
