/** Opening a direct thread: concurrent callers who all want the thread of one key. */
module CreateRace {
  import opened Text
  import opened Rows
  import opened Journal
  import opened DirectKey
  import opened Store
  import opened Blocks

  datatype Phase = Looking | Checking | Creating | Recovering | Finished(thread: ConvId) | Rejected | Errored

  /** `calls` counts the questions put to the block store, `verdict` keeps the last answer. */
  datatype Caller = Caller(owner: UserId, other: UserId, phase: Phase, calls: nat, verdict: Option<Verdict>,
    creator: bool)

  datatype Subject = Subject(scope: string, subjectType: string, subjectKey: string)

  datatype World = World(db: Db, subject: Subject, callers: seq<Caller>, created: nat)

  datatype Event =
    | Move(who: nat, newId: ConvId, mode: Enforcement, provider: Provider, collides: bool)
    | Elsewhere(db: Db)   // anything else that happens to the store

  function WantedKey(s: Subject, c: Caller): string {
    Key(s.scope, c.owner, c.other, s.subjectType, s.subjectKey)
  }

  /** The direct threads that carry the key; a constraint keeps them to one. */
  function Carriers(db: Db, key: string): set<ConvId> {
    set k | k in db && db[k].kind.Direct? && db[k].directKey == key
  }

  ghost function TheCarrier(db: Db, key: string): (k: ConvId)
    requires Carriers(db, key) != {}
    ensures k in Carriers(db, key)
  {
    var k :| k in Carriers(db, key);
    k
  }

  const NEW_MEMBER := Participant(Member, 0, 0, None, None)

  function NewThread(s: Subject, owner: UserId, other: UserId): Conversation {
    Conversation(Direct, s.scope, Key(s.scope, owner, other, s.subjectType, s.subjectKey), s.subjectType, s.subjectKey,
      None, 0, [], map[owner := NEW_MEMBER, other := NEW_MEMBER])
  }

  function MovedTo(w: World, who: nat, c: Caller): World
    requires who < |w.callers|
  {
    w.(callers := w.callers[who := c])
  }

  /** One statement of one caller. Creation and its two membership rows are one transaction: two rows
      for one person in it are refused, and so is a second thread of the key. */
  ghost function MoveCaller(w: World, who: nat, newId: ConvId, mode: Enforcement, provider: Provider,
    collides: bool): World
    requires who < |w.callers|
  {
    var c := w.callers[who];
    var key := WantedKey(w.subject, c);
    var found := Carriers(w.db, key) != {};
    match c.phase
    case Looking => MovedTo(w, who, c.(phase := if found then Finished(TheCarrier(w.db, key)) else Checking))
    case Checking =>
      var verdict := CheckPair(mode, provider, c.owner, c.other);
      MovedTo(w, who,
        c.(calls := c.calls + Calls(mode, provider, {(c.owner, c.other)}), verdict := Some(verdict),
           phase := if verdict.Clear? then Creating else Rejected))
    case Creating =>
      if collides || found || c.owner == c.other || newId in w.db then MovedTo(w, who, c.(phase := Recovering))
      else
        World(w.db[newId := NewThread(w.subject, c.owner, c.other)], w.subject,
          w.callers[who := c.(phase := Finished(newId), creator := true)], w.created + 1)
    case Recovering => MovedTo(w, who, c.(phase := if found then Finished(TheCarrier(w.db, key)) else Errored))
    case _ => w
  }

  ghost function Next(w: World, e: Event): World {
    match e
    case Move(who, newId, mode, provider, collides) =>
      if who < |w.callers| then MoveCaller(w, who, newId, mode, provider, collides) else w
    case Elsewhere(db) => w.(db := db)
  }

  ghost function Play(w: World, events: seq<Event>): World
    decreases |events|
  {
    if events == [] then w else Play(Next(w, events[0]), events[1..])
  }

  /** Everybody else leaves the threads of this key as they are: whoever wants one is a caller. */
  ghost predicate AllPermitted(w: World, key: string, events: seq<Event>)
    decreases |events|
  {
    events == [] ||
      ((events[0].Elsewhere? ==> Carriers(events[0].db, key) == Carriers(w.db, key)) &&
       AllPermitted(Next(w, events[0]), key, events[1..]))
  }

  // ── Invariant ────────────────────────────────────────────────────────────

  ghost predicate CallerSound(w: World, key: string, c: Caller) {
    && WantedKey(w.subject, c) == key
    && (c.phase.Finished? ==> c.phase.thread in Carriers(w.db, key))
    && (c.phase.Looking? || c.phase.Checking? ==> c.calls == 0)
    && (c.phase.Creating? || c.creator ==> c.verdict == Some(Clear))
    && (c.creator ==> w.created == 1 && c.phase.Finished?)
  }

  ghost predicate WorldSound(w: World, key: string) {
    && (forall i | 0 <= i < |w.callers| :: CallerSound(w, key, w.callers[i]))
    && (forall j, k | j in Carriers(w.db, key) && k in Carriers(w.db, key) :: j == k)
    && w.created <= 1
    && (w.created == 1 ==> Carriers(w.db, key) != {})
  }

  lemma OpeningStep(w: World, key: string, who: nat, newId: ConvId, mode: Enforcement, provider: Provider)
    requires WorldSound(w, key) && who < |w.callers| && w.callers[who].phase.Creating? && newId !in w.db
    requires Carriers(w.db, key) == {} && w.callers[who].owner != w.callers[who].other
    ensures WorldSound(MoveCaller(w, who, newId, mode, provider, false), key)
  {
    var w' := MoveCaller(w, who, newId, mode, provider, false);
    assert CallerSound(w, key, w.callers[who]);
    assert Carriers(w'.db, key) == {newId};
    forall i | 0 <= i < |w'.callers|
      ensures CallerSound(w', key, w'.callers[i])
    {
      assert CallerSound(w, key, w.callers[i]);
    }
  }

  /** A step that creates nothing leaves the store alone and moves one caller. */
  lemma QuietMove(w: World, key: string, who: nat, newId: ConvId, mode: Enforcement, provider: Provider, collides: bool)
    requires who < |w.callers| && CallerSound(w, key, w.callers[who])
    requires MoveCaller(w, who, newId, mode, provider, collides).created == w.created
    ensures var w' := MoveCaller(w, who, newId, mode, provider, collides);
      && w'.db == w.db && w'.subject == w.subject && |w'.callers| == |w.callers|
      && CallerSound(w, key, w'.callers[who])
      && forall i | 0 <= i < |w.callers| && i != who :: w'.callers[i] == w.callers[i]
  {
  }

  lemma CallerStaysSound(w: World, w': World, key: string, c: Caller)
    requires CallerSound(w, key, c) && w'.subject == w.subject && w'.created == w.created
    requires Carriers(w'.db, key) == Carriers(w.db, key)
    ensures CallerSound(w', key, c)
  {
  }

  lemma QuietStep(w: World, key: string, e: Event)
    requires WorldSound(w, key)
    requires e.Elsewhere? ==> Carriers(e.db, key) == Carriers(w.db, key)
    requires Next(w, e).created == w.created
    ensures WorldSound(Next(w, e), key)
  {
    var w' := Next(w, e);
    if e.Move? && e.who < |w.callers| {
      assert CallerSound(w, key, w.callers[e.who]);
      QuietMove(w, key, e.who, e.newId, e.mode, e.provider, e.collides);
    }
    forall i | 0 <= i < |w'.callers|
      ensures CallerSound(w', key, w'.callers[i])
    {
      assert CallerSound(w, key, w.callers[i]);
      CallerStaysSound(w, w', key, w'.callers[i]);
    }
  }

  lemma StepStaysSound(w: World, key: string, e: Event)
    requires WorldSound(w, key) && (e.Elsewhere? ==> Carriers(e.db, key) == Carriers(w.db, key))
    ensures WorldSound(Next(w, e), key)
  {
    if Next(w, e).created == w.created {
      QuietStep(w, key, e);
    } else {
      assert CallerSound(w, key, w.callers[e.who]);
      OpeningStep(w, key, e.who, e.newId, e.mode, e.provider);
    }
  }

  lemma {:induction false} RunStaysSound(w: World, key: string, events: seq<Event>)
    requires WorldSound(w, key) && AllPermitted(w, key, events)
    ensures WorldSound(Play(w, events), key) && |Play(w, events).callers| == |w.callers|
    decreases |events|
  {
    if events != [] {
      StepStaysSound(w, key, events[0]);
      RunStaysSound(Next(w, events[0]), key, events[1..]);
    }
  }

  ghost predicate Starts(w: World, key: string) {
    && OneThreadPerKey(w.db) && w.created == 0
    && forall i | 0 <= i < |w.callers| ::
         WantedKey(w.subject, w.callers[i]) == key && w.callers[i].phase.Looking? && w.callers[i].calls == 0
         && !w.callers[i].creator
  }

  lemma StartIsSound(w: World, key: string)
    requires Starts(w, key)
    ensures WorldSound(w, key)
  {
    forall j, k | j in Carriers(w.db, key) && k in Carriers(w.db, key)
      ensures j == k
    {
      assert j == k || !SameKey(w.db[j], w.db[k]);
    }
  }

  /** However the callers interleave: one thread of the key and one created event at the most, the
      same thread for everybody who returns, and whoever opened it had its pair cleared first. */
  lemma CreateIsIdempotent(w: World, key: string, events: seq<Event>, i: nat, j: nat)
    requires Starts(w, key) && AllPermitted(w, key, events) && i < |w.callers| && j < |w.callers|
    ensures var w' := Play(w, events);
      && |w'.callers| == |w.callers|
      && w'.created <= 1
      && (w'.callers[i].phase.Finished? ==> Carriers(w'.db, key) == {w'.callers[i].phase.thread})
      && (w'.callers[i].phase.Finished? && w'.callers[j].phase.Finished? ==>
            w'.callers[i].phase.thread == w'.callers[j].phase.thread)
      && (w'.callers[i].creator ==> w'.callers[i].verdict == Some(Clear))
  {
    StartIsSound(w, key);
    RunStaysSound(w, key, events);
    var w' := Play(w, events);
    assert CallerSound(w', key, w'.callers[i]) && CallerSound(w', key, w'.callers[j]);
  }

  // ── While the key changes hands ──────────────────────────────────────────

  ghost predicate AtMostOne(db: Db, key: string) {
    forall j, k | j in Carriers(db, key) && k in Carriers(db, key) :: j == k
  }

  ghost predicate Lawful(key: string, e: Event) {
    e.Elsewhere? ==> AtMostOne(e.db, key)
  }

  /** Everybody else may rekey a thread onto this key, or fold or delete the one that carries it; the
      constraint is all they keep to. */
  ghost predicate AllLawful(w: World, key: string, events: seq<Event>)
    decreases |events|
  {
    events == [] || (Lawful(key, events[0]) && AllLawful(Next(w, events[0]), key, events[1..]))
  }

  ghost predicate CallerLawful(w: World, key: string, c: Caller) {
    && WantedKey(w.subject, c) == key
    && (c.phase.Creating? || c.creator ==> c.verdict == Some(Clear))
    && (c.creator ==> c.phase.Finished?)
  }

  ghost predicate WorldLawful(w: World, key: string) {
    AtMostOne(w.db, key) && forall i | 0 <= i < |w.callers| :: CallerLawful(w, key, w.callers[i])
  }

  function Freed(w: World, key: string, e: Event): nat {
    if e.Elsewhere? && Carriers(w.db, key) != {} && Carriers(e.db, key) == {} then 1 else 0
  }

  /** How often the carrier of the key was removed by somebody else. */
  ghost function TimesFreed(w: World, key: string, events: seq<Event>): nat
    decreases |events|
  {
    if events == [] then 0 else Freed(w, key, events[0]) + TimesFreed(Next(w, events[0]), key, events[1..])
  }

  function Held(w: World, key: string): nat {
    if Carriers(w.db, key) == {} then 0 else 1
  }

  ghost predicate Opens(w: World, key: string, e: Event) {
    && e.Move? && e.who < |w.callers| && w.callers[e.who].phase.Creating?
    && Next(w, e).callers[e.who] == w.callers[e.who].(phase := Finished(e.newId), creator := true)
    && Carriers(w.db, key) == {} && Carriers(Next(w, e).db, key) == {e.newId}
    && Next(w, e).created == w.created + 1
  }

  lemma LawfulMove(w: World, key: string, e: Event)
    requires WorldLawful(w, key) && e.Move? && e.who < |w.callers|
    ensures var w' := Next(w, e);
      && |w'.callers| == |w.callers| && w'.subject == w.subject
      && (forall i | 0 <= i < |w.callers| && i != e.who :: w'.callers[i] == w.callers[i])
      && CallerLawful(w', key, w'.callers[e.who])
      && (w'.created == w.created ==> w'.db == w.db)
      && (w'.created != w.created ==> Opens(w, key, e))
  {
    var w' := Next(w, e);
    assert CallerLawful(w, key, w.callers[e.who]);
    if w'.created != w.created {
      assert Carriers(w'.db, key) == {e.newId};
    }
  }

  lemma StepStaysLawful(w: World, key: string, e: Event)
    requires WorldLawful(w, key) && Lawful(key, e)
    ensures WorldLawful(Next(w, e), key) && |Next(w, e).callers| == |w.callers|
    ensures Next(w, e).created - w.created <= Freed(w, key, e) + Held(Next(w, e), key) - Held(w, key)
  {
    var w' := Next(w, e);
    if e.Move? && e.who < |w.callers| {
      LawfulMove(w, key, e);
    }
    forall i | 0 <= i < |w'.callers|
      ensures CallerLawful(w', key, w'.callers[i])
    {
      assert CallerLawful(w, key, w.callers[i]);
    }
  }

  /** Every thread that the callers open beyond the first answers a removal by somebody else. */
  lemma {:induction false} RunStaysLawful(w: World, key: string, events: seq<Event>)
    requires WorldLawful(w, key) && AllLawful(w, key, events)
    ensures var w' := Play(w, events);
      && WorldLawful(w', key) && |w'.callers| == |w.callers|
      && w'.created - w.created <= TimesFreed(w, key, events) + Held(w', key) - Held(w, key)
    decreases |events|
  {
    if events != [] {
      StepStaysLawful(w, key, events[0]);
      RunStaysLawful(Next(w, events[0]), key, events[1..]);
    }
  }

  /** The callers beside everybody else's rekeying, folding and deleting: never two threads of the key,
      a return names its carrier of that moment and stands, a thread is opened only while there is none
      and by a caller whose pair was cleared, and the callers open no more threads than one and one for
      each time the carrier was removed. */
  lemma CreateUnderChurn(w: World, key: string, before: seq<Event>, e: Event, i: nat)
    requires Starts(w, key) && AllLawful(w, key, before) && Lawful(key, e) && i < |w.callers|
    ensures var was, now := Play(w, before), Next(Play(w, before), e);
      && |was.callers| == |now.callers| == |w.callers|
      && AtMostOne(now.db, key)
      && (was.callers[i].phase.Finished? ==> now.callers[i] == was.callers[i])
      && (!was.callers[i].phase.Finished? && now.callers[i].phase.Finished? ==>
            Carriers(now.db, key) == {now.callers[i].phase.thread})
      && (now.callers[i].creator ==> now.callers[i].verdict == Some(Clear))
      && (now.created != was.created ==> Opens(was, key, e))
      && was.created <= 1 + TimesFreed(w, key, before)
  {
    StartIsSound(w, key);
    forall j | 0 <= j < |w.callers|
      ensures CallerLawful(w, key, w.callers[j])
    {
      assert WantedKey(w.subject, w.callers[j]) == key;
    }
    RunStaysLawful(w, key, before);
    var was := Play(w, before);
    StepStaysLawful(was, key, e);
    assert CallerLawful(was, key, was.callers[i]) && CallerLawful(Next(was, e), key, Next(was, e).callers[i]);
    if e.Move? && e.who < |was.callers| {
      LawfulMove(was, key, e);
    }
  }

  // ── Getting through ──────────────────────────────────────────────────────

  /** A caller nobody races with, whose pair is cleared, has a new thread of its own after its lookup, its
      check and its insert. */
  lemma UnobstructedCallerOpens(w: World, who: nat, newId: ConvId, mode: Enforcement, provider: Provider)
    requires who < |w.callers| && w.callers[who].phase.Looking? && newId !in w.db
    requires Carriers(w.db, WantedKey(w.subject, w.callers[who])) == {}
    requires w.callers[who].owner != w.callers[who].other
    requires CheckPair(mode, provider, w.callers[who].owner, w.callers[who].other).Clear?
    ensures var c, e := w.callers[who], Move(who, newId, mode, provider, false);
      var w' := Next(Next(Next(w, e), e), e);
      && w'.callers[who].phase == Finished(newId) && w'.callers[who].creator
      && w'.callers[who].calls == c.calls + Calls(mode, provider, {(c.owner, c.other)})
      && w'.created == w.created + 1 && w'.db == w.db[newId := NewThread(w.subject, c.owner, c.other)]
  {
  }

  /** A caller whose pair is not cleared is turned away with that verdict and opens nothing. */
  lemma RefusedCallerOpensNothing(w: World, who: nat, newId: ConvId, mode: Enforcement, provider: Provider)
    requires who < |w.callers| && w.callers[who].phase.Checking?
    requires !CheckPair(mode, provider, w.callers[who].owner, w.callers[who].other).Clear?
    ensures var c, e := w.callers[who], Move(who, newId, mode, provider, false);
      var w' := Next(w, e);
      && w'.callers[who].phase.Rejected? && w'.callers[who].verdict == Some(CheckPair(mode, provider, c.owner, c.other))
      && w'.db == w.db && w'.created == w.created && Next(w', e) == w'
  {
  }

  /** A caller that finds the thread there returns it: at once if it had yet to look, after the failed insert
      if it had not. */
  lemma ExistingThreadIsReturned(
    w: World, key: string, who: nat, newId: ConvId, mode: Enforcement, provider: Provider, collides: bool)
    requires WorldSound(w, key) && who < |w.callers| && Carriers(w.db, key) != {}
    requires w.callers[who].phase.Looking? || w.callers[who].phase.Creating?
    ensures var e := Move(who, newId, mode, provider, collides);
      var w' := if w.callers[who].phase.Looking? then Next(w, e) else Next(Next(w, e), e);
      && w'.callers[who].phase.Finished? && Carriers(w'.db, key) == {w'.callers[who].phase.thread}
      && w'.db == w.db && w'.created == w.created
  {
    assert CallerSound(w, key, w.callers[who]);
    assert TheCarrier(w.db, key) in Carriers(w.db, key);
  }

  // ── A thread that is already there ───────────────────────────────────────

  ghost predicate Unasked(w: World) {
    forall i | 0 <= i < |w.callers| ::
      w.callers[i].calls == 0 && (w.callers[i].phase.Looking? || w.callers[i].phase.Finished?)
  }

  /** Returning an existing thread asks the block store nothing, whatever state it is in. */
  lemma {:induction false} ExistingThreadCostsNoCall(w: World, key: string, events: seq<Event>)
    requires WorldSound(w, key) && AllPermitted(w, key, events) && Carriers(w.db, key) != {} && Unasked(w)
    ensures Unasked(Play(w, events)) && Play(w, events).created == w.created
    ensures Carriers(Play(w, events).db, key) == Carriers(w.db, key)
    decreases |events|
  {
    if events != [] {
      StepStaysSound(w, key, events[0]);
      forall i | 0 <= i < |w.callers|
        ensures WantedKey(w.subject, w.callers[i]) == key
      {
        assert CallerSound(w, key, w.callers[i]);
      }
      ExistingThreadCostsNoCall(Next(w, events[0]), key, events[1..]);
    }
  }

  // ── A thread with oneself ────────────────────────────────────────────────

  ghost predicate SelfSeeking(w: World) {
    forall i | 0 <= i < |w.callers| :: w.callers[i].owner == w.callers[i].other && !w.callers[i].phase.Finished?
  }

  lemma {:induction false} NobodyOpensAThreadWithThemselves(w: World, key: string, events: seq<Event>)
    requires WorldSound(w, key) && AllPermitted(w, key, events) && Carriers(w.db, key) == {} && SelfSeeking(w)
    ensures SelfSeeking(Play(w, events)) && Carriers(Play(w, events).db, key) == {}
    decreases |events|
  {
    if events != [] {
      StepStaysSound(w, key, events[0]);
      forall i | 0 <= i < |w.callers|
        ensures WantedKey(w.subject, w.callers[i]) == key
      {
        assert CallerSound(w, key, w.callers[i]);
      }
      NobodyOpensAThreadWithThemselves(Next(w, events[0]), key, events[1..]);
    }
  }

  /** In a sound store no thread carries the key of one person twice. */
  lemma SelfKeyIsFree(db: Db, scope: string, a: UserId, subjectType: string, subjectKey: string)
    requires GlobalInv(db) && Clean(scope) && Clean(a) && Clean(subjectType)
    ensures Carriers(db, Key(scope, a, a, subjectType, subjectKey)) == {}
  {
    var key := Key(scope, a, a, subjectType, subjectKey);
    forall k | k in Carriers(db, key)
      ensures false
    {
      var c := db[k];
      assert DirectSound(c);
      var x, y :| Between(c, x, y);
      KeyIsInjective(scope, a, a, subjectType, subjectKey, c.scope, x, y, c.subjectType, c.subjectKey);
    }
  }

  // ── The global invariant ─────────────────────────────────────────────────

  lemma NewThreadIsSound(s: Subject, a: UserId, b: UserId)
    requires a != b && Clean(a) && Clean(b) && Clean(s.scope) && Clean(s.subjectType)
    ensures Inv(NewThread(s, a, b)) && DirectSound(NewThread(s, a, b))
  {
    assert Between(NewThread(s, a, b), a, b);
  }

  /** A thread that was just opened: its two people, who have read, left and cleared nothing, its subject, and
      not a line. */
  lemma NewThreadIsEmpty(s: Subject, a: UserId, b: UserId)
    ensures var c := NewThread(s, a, b);
      && c.kind.Direct? && c.scope == s.scope && c.subjectType == s.subjectType && c.subjectKey == s.subjectKey
      && c.operator.None? && c.lastSeq == 0 && c.messages == [] && c.members.Keys == {a, b}
      && forall u | u in c.members ::
           && c.members[u].role.Member? && c.members[u].lastRead == 0 && c.members[u].lastDelivered == 0
           && c.members[u].leftAt.None? && c.members[u].clearedAt.None?
  {
  }

  lemma NewThreadIsApartFromAll(db: Db, s: Subject, a: UserId, b: UserId, newId: ConvId)
    requires AllApart(db) && OneThreadPerKey(db) && newId !in db
    requires Carriers(db, Key(s.scope, a, b, s.subjectType, s.subjectKey)) == {}
    ensures AllApart(db[newId := NewThread(s, a, b)]) && OneThreadPerKey(db[newId := NewThread(s, a, b)])
  {
    var db' := db[newId := NewThread(s, a, b)];
    forall j, k | j in db' && k in db' && j != k
      ensures Apart(db'[j], db'[k]) && !SameKey(db'[j], db'[k])
    {
      NewThreadIsApart(db, s, a, b, newId, j, k);
    }
  }

  /** Creation, recovery included, keeps the invariant every other writer relies on. */
  lemma OpeningKeepsGlobalInv(db: Db, s: Subject, a: UserId, b: UserId, newId: ConvId)
    requires GlobalInv(db) && newId !in db && Carriers(db, Key(s.scope, a, b, s.subjectType, s.subjectKey)) == {}
    requires a != b && Clean(a) && Clean(b) && Clean(s.scope) && Clean(s.subjectType)
    ensures GlobalInv(db[newId := NewThread(s, a, b)])
  {
    NewThreadIsSound(s, a, b);
    NewThreadIsApartFromAll(db, s, a, b, newId);
  }

  lemma NewThreadIsApart(db: Db, s: Subject, a: UserId, b: UserId, newId: ConvId, j: ConvId, k: ConvId)
    requires AllApart(db) && OneThreadPerKey(db) && newId !in db && j != k
    requires Carriers(db, Key(s.scope, a, b, s.subjectType, s.subjectKey)) == {}
    requires (j == newId || j in db) && (k == newId || k in db)
    ensures var db' := db[newId := NewThread(s, a, b)]; Apart(db'[j], db'[k]) && !SameKey(db'[j], db'[k])
  {
    var key := Key(s.scope, a, b, s.subjectType, s.subjectKey);
    if j in db && k in db {
      assert Apart(db[j], db[k]) && !SameKey(db[j], db[k]);
    } else if j in db {
      assert j !in Carriers(db, key);
    } else if k in db {
      assert k !in Carriers(db, key);
    }
  }
}
