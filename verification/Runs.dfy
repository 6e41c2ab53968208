/** The whole store over whole runs: threads are opened, written to, merged across accounts and
    erased, in any order, and the global invariant holds throughout. */
module Runs {
  import opened Rows
  import opened Journal
  import opened DirectKey
  import opened Store
  import opened Merge
  import opened MergeKeeps
  import Gdpr
  import CdnLedger
  import CreateRace

  datatype Step =
    | OpeningDirect(newId: ConvId, subject: CreateRace.Subject, owner: UserId, other: UserId)
    | OpeningRoom(newId: ConvId, room: Conversation)   // a group or support thread
    | OnThread(thread: ConvId, op: Op)
    | UserMerging(accounts: set<UserId>, readable: bool, from: UserId, into: UserId, order: seq<ConvId>)
    | UserDeleting(user: UserId, at: Time)

  /** A raising merge leaves the store as it was; so does an opening that finds its thread, or that
      names one person twice. */
  ghost function Next(db: Db, step: Step): Db {
    match step
    case OpeningDirect(id, s, a, b) =>
      var key := Key(s.scope, a, b, s.subjectType, s.subjectKey);
      if id in db || a == b || CreateRace.Carriers(db, key) != {} then db else db[id := CreateRace.NewThread(s, a, b)]
    case OpeningRoom(id, room) => if id in db then db else db[id := room]
    case OnThread(k, op) => if k in db then db[k := Apply(db[k], op)] else db
    case UserMerging(accounts, readable, from, into, order) =>
      (match UserMerged(db, accounts, readable, from, into, order)
       case Returned(db') => db'
       case MergeTargetNotReady => db)
    case UserDeleting(user, at) => Gdpr.DeleteUser(db, user, at)
  }

  /** Ids are new where they are drawn; scopes, user ids and subject types are free of the separator, while
      a subject key may hold anything; whole-account rewrites come through the two account events only. */
  ghost predicate Permitted(db: Db, step: Step) {
    match step
    case OpeningDirect(_, s, a, b) =>
      Clean(a) && Clean(b) && Clean(s.scope) && Clean(s.subjectType)
    case OpeningRoom(_, room) => !room.kind.Direct? && room.messages == [] && room.lastSeq == 0
    case OnThread(k, op) =>
      k in db ==> Admissible(db[k], op) && !op.Adopting? && !op.Renaming? && CdnLedger.Fresh(db, op)
    case UserMerging(_, _, from, into, order) => Clean(into) && Lists(order, Stale(db, from))
    case UserDeleting(_, _) => true
  }

  ghost function Play(db: Db, steps: seq<Step>): Db {
    if steps == [] then db else Next(Play(db, steps[..|steps| - 1]), steps[|steps| - 1])
  }

  ghost predicate AllPermitted(db: Db, steps: seq<Step>) {
    forall i | 0 <= i < |steps| :: Permitted(Play(db, steps[..i]), steps[i])
  }

  /** No writer of a thread seats or unseats anybody, or touches what the key is made of. */
  lemma SeatsStay(c: Conversation, op: Op)
    requires !op.Adopting? && !op.Renaming?
    ensures var c' := Apply(c, op);
      && c'.members.Keys == c.members.Keys && c'.kind == c.kind && c'.directKey == c.directKey
      && c'.scope == c.scope && c'.subjectType == c.subjectType && c'.subjectKey == c.subjectKey
  {
  }

  lemma SeatedAlike(c: Conversation, c': Conversation)
    requires DirectSound(c)
    requires c'.members.Keys == c.members.Keys && c'.kind == c.kind && c'.directKey == c.directKey
    requires c'.scope == c.scope && c'.subjectType == c.subjectType && c'.subjectKey == c.subjectKey
    ensures DirectSound(c')
  {
    if c.kind.Direct? {
      var a, b :| Between(c, a, b);
      assert Between(c', a, b);
    }
  }

  lemma ThreadStepKeepsPair(db: Db, k: ConvId, op: Op, i: ConvId, j: ConvId)
    requires GlobalInv(db) && k in db && Permitted(db, OnThread(k, op)) && i in db && j in db && i != j
    ensures var db' := db[k := Apply(db[k], op)]; Apart(db'[i], db'[j]) && !SameKey(db'[i], db'[j])
  {
    assert Apart(db[i], db[j]) && !SameKey(db[i], db[j]);
    assert CdnLedger.Tidy(db);
    SeatsStay(db[k], op);
    if i == k {
      CdnLedger.StepStaysApart(db, k, op, j);
    } else if j == k {
      CdnLedger.StepStaysApart(db, k, op, i);
    }
  }

  lemma ThreadStepKeepsEach(db: Db, k: ConvId, op: Op, j: ConvId)
    requires GlobalInv(db) && k in db && Permitted(db, OnThread(k, op)) && j in db
    ensures var db' := db[k := Apply(db[k], op)]; Inv(db'[j]) && DirectSound(db'[j])
  {
    if j == k {
      StepKeepsInv(db[k], op);
      SeatsStay(db[k], op);
      SeatedAlike(db[k], Apply(db[k], op));
    }
  }

  lemma ThreadStepKeepsEvery(db: Db, k: ConvId, op: Op)
    requires GlobalInv(db) && k in db && Permitted(db, OnThread(k, op))
    ensures var db' := db[k := Apply(db[k], op)]; forall j | j in db' :: Inv(db'[j]) && DirectSound(db'[j])
  {
    forall j | j in db
      ensures var db' := db[k := Apply(db[k], op)]; Inv(db'[j]) && DirectSound(db'[j])
    {
      ThreadStepKeepsEach(db, k, op, j);
    }
  }

  lemma ThreadStepKeepsPairs(db: Db, k: ConvId, op: Op)
    requires GlobalInv(db) && k in db && Permitted(db, OnThread(k, op))
    ensures var db' := db[k := Apply(db[k], op)]; AllApart(db') && OneThreadPerKey(db')
  {
    var db' := db[k := Apply(db[k], op)];
    forall i, j | i in db' && j in db' && i != j
      ensures Apart(db'[i], db'[j]) && !SameKey(db'[i], db'[j])
    {
      ThreadStepKeepsPair(db, k, op, i, j);
    }
  }

  lemma ThreadStepKeepsGlobalInv(db: Db, k: ConvId, op: Op)
    requires GlobalInv(db) && k in db && Permitted(db, OnThread(k, op))
    ensures GlobalInv(db[k := Apply(db[k], op)])
  {
    ThreadStepKeepsEvery(db, k, op);
    ThreadStepKeepsPairs(db, k, op);
  }

  lemma RoomKeepsGlobalInv(db: Db, id: ConvId, room: Conversation)
    requires GlobalInv(db) && id !in db && Permitted(db, OpeningRoom(id, room))
    ensures GlobalInv(db[id := room])
  {
    var db' := db[id := room];
    assert Inv(room) && DirectSound(room);
    forall i, j | i in db' && j in db' && i != j
      ensures Apart(db'[i], db'[j]) && !SameKey(db'[i], db'[j])
    {
      if i in db && j in db {
        assert Apart(db[i], db[j]) && !SameKey(db[i], db[j]);
      }
    }
  }

  lemma StepKeepsGlobalInv(db: Db, step: Step)
    requires GlobalInv(db) && Permitted(db, step)
    ensures GlobalInv(Next(db, step))
  {
    match step {
      case OpeningDirect(id, s, a, b) =>
        if Next(db, step) != db {
          CreateRace.OpeningKeepsGlobalInv(db, s, a, b, id);
        }
      case OpeningRoom(id, room) =>
        if id !in db {
          RoomKeepsGlobalInv(db, id, room);
        }
      case OnThread(k, op) =>
        if k in db {
          ThreadStepKeepsGlobalInv(db, k, op);
        }
      case UserMerging(accounts, readable, from, into, order) =>
        if UserMerged(db, accounts, readable, from, into, order).Returned? {
          UserMergedKeepsInv(db, accounts, readable, from, into, order);
        }
      case UserDeleting(user, at) => Gdpr.DeleteUserKeepsInv(db, user, at);
    }
  }

  lemma PrefixIsPermitted(db: Db, steps: seq<Step>)
    requires AllPermitted(db, steps) && steps != []
    ensures AllPermitted(db, steps[..|steps| - 1]) && Permitted(Play(db, steps[..|steps| - 1]), steps[|steps| - 1])
  {
    var front := steps[..|steps| - 1];
    forall i | 0 <= i < |front|
      ensures Permitted(Play(db, front[..i]), front[i])
    {
      assert front[..i] == steps[..i];
    }
  }

  /** Every reachable store: each thread's journal is sound, no message sits in two threads, every
      direct thread is between two people under their key, and no key has two threads. */
  lemma {:induction false} EveryRunKeepsGlobalInv(steps: seq<Step>)
    requires AllPermitted(map[], steps)
    ensures GlobalInv(Play(map[], steps))
  {
    if steps != [] {
      var front, last := steps[..|steps| - 1], steps[|steps| - 1];
      PrefixIsPermitted(map[], steps);
      EveryRunKeepsGlobalInv(front);
      StepKeepsGlobalInv(Play(map[], front), last);
      assert Play(map[], steps) == Next(Play(map[], front), last);
    }
  }

  // ── Reachable stores ─────────────────────────────────────────────────────

  ghost predicate Reached(db: Db) {
    exists steps :: AllPermitted(map[], steps) && Play(map[], steps) == db
  }

  lemma EmptyIsReached()
    ensures Reached(map[])
  {
    assert AllPermitted(map[], []) && Play(map[], []) == map[];
  }

  lemma OneMoreStep(db: Db, steps: seq<Step>, step: Step)
    requires AllPermitted(db, steps) && Permitted(Play(db, steps), step)
    ensures AllPermitted(db, steps + [step]) && Play(db, steps + [step]) == Next(Play(db, steps), step)
  {
    var all := steps + [step];
    assert all[..|steps|] == steps;
    forall i | 0 <= i < |all|
      ensures Permitted(Play(db, all[..i]), all[i])
    {
      if i < |steps| {
        assert all[..i] == steps[..i] && all[i] == steps[i];
        assert Permitted(Play(db, steps[..i]), steps[i]);
      } else {
        assert all[..i] == steps && all[i] == step;
      }
    }
  }

  lemma StepIsReached(db: Db, step: Step)
    requires Reached(db) && Permitted(db, step)
    ensures Reached(Next(db, step))
  {
    var steps :| AllPermitted(map[], steps) && Play(map[], steps) == db;
    OneMoreStep(map[], steps, step);
  }

  /** One more write in one thread. */
  lemma WriteIsReached(db: Db, k: ConvId, op: Op, c': Conversation)
    requires Reached(db) && k in db && Apply(db[k], op) == c' && Permitted(db, OnThread(k, op))
    ensures Reached(db[k := c'])
  {
    StepIsReached(db, OnThread(k, op));
  }

  lemma ReachedIsSound(db: Db)
    requires Reached(db)
    ensures GlobalInv(db)
  {
    var steps :| AllPermitted(map[], steps) && Play(map[], steps) == db;
    EveryRunKeepsGlobalInv(steps);
  }
}
