/** Concurrent sends with one idempotency key: lookup, locked insert, constraint failure, twin lookup,
    bounded retry, interleaved with each other and with every other writer of the thread. */
module SendRace {
  import opened Text
  import opened Rows
  import opened Journal
  import opened Columns

  const MAX_SEQ_RETRIES := 8
  const KEY_LENGTH := 64

  /** The key a send is deduplicated under. */
  function NormalKey(raw: string): string {
    var key := Strip(raw);
    if |key| <= KEY_LENGTH then key else key[..KEY_LENGTH]
  }

  datatype Phase = Looking | Inserting(left: nat) | Twin(left: nat) | Finished(id: MsgId) | Raised

  /** `failures` counts the integrity errors that were not this key's doing. */
  datatype Caller = Caller(draft: Draft, phase: Phase, failures: nat)

  datatype World = World(conv: Conversation, callers: seq<Caller>, events: nat, numbers: nat)

  datatype Event =
    | Move(who: nat, id: MsgId, at: Time, collides: bool)  // one step of one caller, with a fresh row id
    | Elsewhere(op: Op)                                    // any other writer of the thread

  predicate HasKey(conv: Conversation, key: string) {
    IndexOfKey(conv.messages, key) < |conv.messages|
  }

  /** The row a lookup by key returns. */
  function Keyed(conv: Conversation, key: string): MsgId
    requires HasKey(conv, key)
  {
    conv.messages[IndexOfKey(conv.messages, key)].id
  }

  /** One statement of one caller. The insert is atomic: it holds the row lock, and an integrity error
      rolls back the number it took. */
  function MoveCaller(w: World, who: nat, id: MsgId, at: Time, collides: bool): World
    requires who < |w.callers|
  {
    var c := w.callers[who];
    var key := c.draft.clientId;
    match c.phase
    case Looking =>
      var next := if HasKey(w.conv, key) then Finished(Keyed(w.conv, key)) else Inserting(MAX_SEQ_RETRIES);
      w.(callers := w.callers[who := c.(phase := next)])
    case Inserting(left) =>
      var d := c.draft.(id := id, at := at);
      if left == 0 then w
      else if collides || !Inserts(w.conv, d) then
        var failures := if HasKey(w.conv, key) then c.failures else c.failures + 1;
        w.(callers := w.callers[who := c.(phase := Twin(left - 1), failures := failures)])
      else
        var conv := PostOnce(w.conv, d);
        World(conv, w.callers[who := c.(phase := Finished(id))], w.events + 1,
          w.numbers + (conv.lastSeq - w.conv.lastSeq))
    case Twin(left) =>
      var next := if HasKey(w.conv, key) then Finished(Keyed(w.conv, key))
        else if left == 0 then Raised
        else Inserting(left);
      w.(callers := w.callers[who := c.(phase := next)])
    case _ => w
  }

  function Next(w: World, e: Event): World {
    match e
    case Move(who, id, at, collides) => if who < |w.callers| then MoveCaller(w, who, id, at, collides) else w
    case Elsewhere(op) => w.(conv := Apply(w.conv, op))
  }

  function Play(w: World, events: seq<Event>): World
    decreases |events|
  {
    if events == [] then w else Play(Next(w, events[0]), events[1..])
  }

  ghost predicate Permitted(w: World, e: Event) {
    match e
    case Move(_, _, at, _) => at > EPOCH
    case Elsewhere(op) => Admissible(w.conv, op)
  }

  ghost predicate AllPermitted(w: World, events: seq<Event>)
    decreases |events|
  {
    events == [] || (Permitted(w, events[0]) && AllPermitted(Next(w, events[0]), events[1..]))
  }

  // ── Invariant ────────────────────────────────────────────────────────────

  ghost predicate Holder(conv: Conversation, key: string, id: MsgId) {
    exists i :: 0 <= i < |conv.messages| && conv.messages[i].clientId == key && conv.messages[i].id == id
  }

  /** What a caller may claim. A key, once stored, stays; so a caller that found no twin failed for
      another reason, and one that raised did so eight times. */
  ghost predicate CallerSound(conv: Conversation, key: string, c: Caller) {
    && c.draft.clientId == key
    && (c.draft.kind.TextLine? <==> c.draft.sender.Some?)
    && (c.draft.kind.SystemLine? ==> Trimmed(c.draft.body))
    && match c.phase
       case Looking => c.failures == 0
       case Inserting(left) => left > 0 && left + c.failures == MAX_SEQ_RETRIES
       case Twin(left) => HasKey(conv, key) || left + c.failures == MAX_SEQ_RETRIES
       case Finished(id) => Holder(conv, key, id)
       case Raised => c.failures == MAX_SEQ_RETRIES
  }

  ghost predicate WorldSound(w: World, key: string) {
    && key != "" && Inv(w.conv)
    && (forall i | 0 <= i < |w.callers| :: CallerSound(w.conv, key, w.callers[i]))
    && w.events == w.numbers <= 1
    && (w.events == 1 ==> HasKey(w.conv, key))
  }

  lemma HolderHasKey(conv: Conversation, key: string, id: MsgId)
    requires Holder(conv, key, id)
    ensures HasKey(conv, key)
  {
  }

  lemma KeyedHolds(conv: Conversation, key: string)
    requires HasKey(conv, key)
    ensures Holder(conv, key, Keyed(conv, key))
  {
    assert conv.messages[IndexOfKey(conv.messages, key)].clientId == key;
  }

  /** At most one row holds the key. */
  lemma OneHolder(conv: Conversation, key: string, a: MsgId, b: MsgId)
    requires DistinctKeys(conv.messages) && key != "" && Holder(conv, key, a) && Holder(conv, key, b)
    ensures a == b
  {
  }

  lemma GrowthKeepsHolder(conv: Conversation, conv': Conversation, key: string, id: MsgId)
    requires Grows(conv, conv') && Holder(conv, key, id)
    ensures Holder(conv', key, id) && HasKey(conv', key)
  {
    var i :| 0 <= i < |conv.messages| && conv.messages[i].clientId == key && conv.messages[i].id == id;
    assert RowMoves(conv.messages[i], conv'.messages[i], conv.lastSeq);
    assert conv'.messages[i].clientId == key && conv'.messages[i].id == id;
  }

  lemma GrowthKeepsKey(conv: Conversation, conv': Conversation, key: string)
    requires Grows(conv, conv') && HasKey(conv, key)
    ensures HasKey(conv', key)
  {
    KeyedHolds(conv, key);
    GrowthKeepsHolder(conv, conv', key, Keyed(conv, key));
  }

  lemma GrowthKeepsCaller(conv: Conversation, conv': Conversation, key: string, c: Caller)
    requires Grows(conv, conv') && CallerSound(conv, key, c)
    ensures CallerSound(conv', key, c)
  {
    if c.phase.Finished? {
      GrowthKeepsHolder(conv, conv', key, c.phase.id);
    } else if c.phase.Twin? && HasKey(conv, key) {
      GrowthKeepsKey(conv, conv', key);
    }
  }

  lemma PostedKey(conv: Conversation, d: Draft)
    requires Inserts(conv, d)
    ensures Holder(PostOnce(conv, d), d.clientId, d.id) && HasKey(PostOnce(conv, d), d.clientId)
    ensures d.clientId != "" ==> !HasKey(conv, d.clientId)
    ensures PostOnce(conv, d).lastSeq == conv.lastSeq + 1
  {
    var rows := PostOnce(conv, d).messages;
    assert rows[|conv.messages|].clientId == d.clientId && rows[|conv.messages|].id == d.id;
    HolderHasKey(PostOnce(conv, d), d.clientId, d.id);
  }

  // ── Every step ───────────────────────────────────────────────────────────

  lemma InsertStep(w: World, key: string, who: nat, id: MsgId, at: Time)
    requires WorldSound(w, key) && who < |w.callers| && at > EPOCH
    requires w.callers[who].phase.Inserting? && Inserts(w.conv, w.callers[who].draft.(id := id, at := at))
    ensures WorldSound(MoveCaller(w, who, id, at, false), key)
  {
    var c := w.callers[who];
    assert CallerSound(w.conv, key, c);
    var d := c.draft.(id := id, at := at);
    var w' := MoveCaller(w, who, id, at, false);
    PostKeepsInv(w.conv, d);
    PostedKey(w.conv, d);
    forall i | 0 <= i < |w'.callers|
      ensures CallerSound(w'.conv, key, w'.callers[i])
    {
      if i != who {
        GrowthKeepsCaller(w.conv, w'.conv, key, w.callers[i]);
      }
    }
  }

  lemma QuietStep(w: World, key: string, who: nat, id: MsgId, at: Time, collides: bool)
    requires WorldSound(w, key) && who < |w.callers|
    requires w.callers[who].phase.Inserting? ==> collides || !Inserts(w.conv, w.callers[who].draft.(id := id, at := at))
    ensures WorldSound(MoveCaller(w, who, id, at, collides), key)
  {
    var c := w.callers[who];
    assert CallerSound(w.conv, key, c);
    if HasKey(w.conv, key) {
      KeyedHolds(w.conv, key);
    }
    var w' := MoveCaller(w, who, id, at, collides);
    assert CallerSound(w.conv, key, w'.callers[who]);
  }

  lemma OtherWriterStep(w: World, key: string, op: Op)
    requires WorldSound(w, key) && Admissible(w.conv, op)
    ensures WorldSound(Next(w, Elsewhere(op)), key)
  {
    var w' := Next(w, Elsewhere(op));
    StepKeepsInv(w.conv, op);
    if HasKey(w.conv, key) {
      GrowthKeepsKey(w.conv, w'.conv, key);
    }
    forall i | 0 <= i < |w'.callers|
      ensures CallerSound(w'.conv, key, w'.callers[i])
    {
      GrowthKeepsCaller(w.conv, w'.conv, key, w.callers[i]);
    }
  }

  lemma StepStaysSound(w: World, key: string, e: Event)
    requires WorldSound(w, key) && Permitted(w, e)
    ensures WorldSound(Next(w, e), key)
  {
    match e {
      case Move(who, id, at, collides) =>
        if who < |w.callers| {
          var d := w.callers[who].draft.(id := id, at := at);
          if w.callers[who].phase.Inserting? && !collides && Inserts(w.conv, d) {
            assert CallerSound(w.conv, key, w.callers[who]);
            InsertStep(w, key, who, id, at);
          } else {
            QuietStep(w, key, who, id, at, collides);
          }
        }
      case Elsewhere(op) => OtherWriterStep(w, key, op);
    }
  }

  lemma {:induction false} RunStaysSound(w: World, key: string, events: seq<Event>)
    requires WorldSound(w, key) && AllPermitted(w, events)
    ensures WorldSound(Play(w, events), key)
    decreases |events|
  {
    if events != [] {
      StepStaysSound(w, key, events[0]);
      RunStaysSound(Next(w, events[0]), key, events[1..]);
    }
  }

  /** The start of a race: everybody still has to look. */
  ghost predicate Starts(w: World, key: string) {
    && key != "" && Inv(w.conv) && w.events == w.numbers == 0
    && forall i | 0 <= i < |w.callers| :: CallerSound(w.conv, key, w.callers[i]) && w.callers[i].phase.Looking?
  }

  /** However the callers and the other writers interleave: at most one message, one number and one
      event come of it, every caller that returns gets the one row that holds the key, and a caller
      that raises met eight integrity errors that had nothing to do with the key. */
  lemma SendIsIdempotent(w: World, key: string, events: seq<Event>, i: nat, j: nat)
    requires Starts(w, key) && AllPermitted(w, events) && i < |w.callers| && j < |w.callers|
    ensures var w' := Play(w, events);
      && |w'.callers| == |w.callers|
      && w'.events == w'.numbers <= 1
      && (w'.callers[i].phase.Finished? ==> HasKey(w'.conv, key) && w'.callers[i].phase.id == Keyed(w'.conv, key))
      && (w'.callers[i].phase.Finished? && w'.callers[j].phase.Finished? ==>
            w'.callers[i].phase.id == w'.callers[j].phase.id)
      && (w'.callers[i].phase.Raised? ==> w'.callers[i].failures == MAX_SEQ_RETRIES)
  {
    var w' := Play(w, events);
    RunStaysSound(w, key, events);
    CallersStay(w, events);
    assert CallerSound(w'.conv, key, w'.callers[i]) && CallerSound(w'.conv, key, w'.callers[j]);
    if w'.callers[i].phase.Finished? {
      HolderHasKey(w'.conv, key, w'.callers[i].phase.id);
      KeyedHolds(w'.conv, key);
      OneHolder(w'.conv, key, w'.callers[i].phase.id, Keyed(w'.conv, key));
      if w'.callers[j].phase.Finished? {
        OneHolder(w'.conv, key, w'.callers[i].phase.id, w'.callers[j].phase.id);
      }
    }
  }

  lemma {:induction false} CallersStay(w: World, events: seq<Event>)
    ensures |Play(w, events).callers| == |w.callers|
    decreases |events|
  {
    if events != [] {
      CallersStay(Next(w, events[0]), events[1..]);
    }
  }

  /** The one event is the one caller's own message: whoever makes the counter of events move has just
      stored what they wanted to send, under the next number, as the last row of the thread. */
  lemma TheEventIsTheSend(w: World, e: Event)
    requires Next(w, e).events != w.events
    ensures e.Move? && e.who < |w.callers| && w.callers[e.who].phase.Inserting?
    ensures var w', d := Next(w, e), w.callers[e.who].draft.(id := e.id, at := e.at);
      && w'.events == w.events + 1 && w'.numbers == w.numbers + 1
      && w'.callers == w.callers[e.who := w.callers[e.who].(phase := Finished(e.id))]
      && |w'.conv.messages| == |w.conv.messages| + 1 && w'.conv.messages[..|w.conv.messages|] == w.conv.messages
      && SaysWhatWasSent(w'.conv.messages[|w.conv.messages|], d, w.conv.lastSeq + 1)
  {
  }

  // ── Getting through ──────────────────────────────────────────────────────

  /** A caller nobody races with and nothing stands in the way of is through after its lookup and its
      insert, with its message stored. */
  lemma UnobstructedSendLands(w: World, who: nat, id: MsgId, at: Time)
    requires who < |w.callers| && w.callers[who].phase.Looking? && !HasKey(w.conv, w.callers[who].draft.clientId)
    requires Inserts(w.conv, w.callers[who].draft.(id := id, at := at))
    ensures var look, insert := Move(who, id, at, false), Move(who, id, at, false);
      var w' := Next(Next(w, look), insert);
      && w'.callers[who].phase == Finished(id) && w'.callers[who].failures == w.callers[who].failures
      && w'.events == w.events + 1 && |w'.conv.messages| == |w.conv.messages| + 1
  {
  }

  /** A caller that finds its key stored returns that row: at once if it had yet to look, after the failed
      insert and the look for a twin if it had not. */
  lemma StoredKeyIsReturned(w: World, key: string, who: nat, id: MsgId, at: Time, collides: bool)
    requires WorldSound(w, key) && who < |w.callers| && HasKey(w.conv, key)
    requires w.callers[who].phase.Looking? || w.callers[who].phase.Inserting?
    ensures var e := Move(who, id, at, collides);
      var w' := if w.callers[who].phase.Looking? then Next(w, e) else Next(Next(w, e), e);
      w'.callers[who].phase == Finished(Keyed(w.conv, key)) && w'.conv == w.conv && w'.events == w.events
  {
    assert CallerSound(w.conv, key, w.callers[who]);
  }

  // ── A message that is already there ──────────────────────────────────────

  lemma {:induction false} RetryCostsNothing(w: World, key: string, events: seq<Event>)
    requires WorldSound(w, key) && HasKey(w.conv, key) && AllPermitted(w, events)
    ensures Play(w, events).events == w.events && Play(w, events).numbers == w.numbers
    ensures HasKey(Play(w, events).conv, key)
    decreases |events|
  {
    if events != [] {
      StepStaysSound(w, key, events[0]);
      StepKeepsKey(w, key, events[0]);
      RetryCostsNothing(Next(w, events[0]), key, events[1..]);
    }
  }

  lemma StepKeepsKey(w: World, key: string, e: Event)
    requires WorldSound(w, key) && HasKey(w.conv, key) && Permitted(w, e)
    ensures HasKey(Next(w, e).conv, key) && Next(w, e).events == w.events && Next(w, e).numbers == w.numbers
  {
    if e.Elsewhere? {
      StepKeepsInv(w.conv, e.op);
      GrowthKeepsKey(w.conv, Apply(w.conv, e.op), key);
    } else if e.who < |w.callers| {
      assert CallerSound(w.conv, key, w.callers[e.who]);
    }
  }

  // ── The key a client is shown ────────────────────────────────────────────

  lemma CutKeyIsStable(raw: string)
    ensures NormalKey(NormalKey(raw)) == NormalKey(raw) <==>
      NormalKey(raw) == "" || !IsSpace(NormalKey(raw)[|NormalKey(raw)| - 1])
  {
    var key := NormalKey(raw);
    StripTrims(raw);
    StripTrims(key);
    if key != "" && !IsSpace(key[|key| - 1]) {
      assert key[0] == Strip(raw)[0];
      assert Trimmed(key);
    } else if key != "" {
      assert Strip(key) != key;
    }
  }

  /** Sending again under the key as it was stored hits the same message exactly when the stripped key
      fits, or the character the cut ends on is not a space. */
  lemma StoredKeyIsStable(raw: string)
    ensures NormalKey(NormalKey(raw)) == NormalKey(raw) <==>
      |Strip(raw)| <= KEY_LENGTH || !IsSpace(Strip(raw)[KEY_LENGTH - 1])
  {
    CutKeyIsStable(raw);
    StripTrims(raw);
  }
}
