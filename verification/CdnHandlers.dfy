/** The two account events as runs of ledger steps, so that their media claims are covered by what
    holds of every run. */
module CdnHandlers {
  import opened Rows
  import opened Journal
  import opened Store
  import opened Merge
  import opened Gdpr
  import opened CdnLedger
  import opened CdnRuns

  /** Steps that ask nothing of the state they find. */
  predicate Unconditional(step: Step) {
    match step
    case OnThread(_, op) => op.Erasing?
    case Moving(_, _) | Requalifying(_) | Unseating(_) | Dropping(_) => true
    case _ => false
  }

  lemma UnconditionalIsPermitted(s: System, steps: seq<Step>)
    requires forall i | 0 <= i < |steps| :: Unconditional(steps[i])
    ensures AllPermitted(s, steps)
  {
    forall i | 0 <= i < |steps|
      ensures Permitted(Play(s, steps[..i]).db, steps[i])
    {
      assert Unconditional(steps[i]);
    }
  }

  // ── What a run publishes ─────────────────────────────────────────────────

  ghost function PlayDb(db: Db, steps: seq<Step>): Db {
    if steps == [] then db else NextDb(PlayDb(db, steps[..|steps| - 1]), steps[|steps| - 1])
  }

  /** Every event of the run, in order. */
  ghost function Log(db: Db, steps: seq<Step>): seq<Sync> {
    if steps == [] then []
    else Log(db, steps[..|steps| - 1]) + Events(PlayDb(db, steps[..|steps| - 1]), steps[|steps| - 1])
  }

  lemma LogOneMore(db: Db, steps: seq<Step>, step: Step)
    ensures PlayDb(db, steps + [step]) == NextDb(PlayDb(db, steps), step)
    ensures Log(db, steps + [step]) == Log(db, steps) + Events(PlayDb(db, steps), step)
  {
    assert (steps + [step])[..|steps|] == steps;
  }

  /** A run of the system is its store, and the claims its log leaves behind. */
  lemma {:induction false} PlayIsLog(s: System, steps: seq<Step>)
    ensures Play(s, steps) == System(PlayDb(s.db, steps), Publish(s.claims, Log(s.db, steps)))
  {
    if steps != [] {
      var front, last := steps[..|steps| - 1], steps[|steps| - 1];
      PlayIsLog(s, front);
      PublishConcat(s.claims, Log(s.db, front), Events(PlayDb(s.db, front), last));
    }
  }

  // ── user.merged ──────────────────────────────────────────────────────────

  function MergeSteps(from: UserId, into: UserId, order: seq<ConvId>): (steps: seq<Step>)
    ensures forall i | 0 <= i < |steps| :: Unconditional(steps[i])
  {
    if order == [] then [Moving(from, into)]
    else MergeSteps(from, into, order[..|order| - 1]) + [Requalifying(order[|order| - 1])]
  }

  lemma {:induction false} MergeStepsMerge(db: Db, from: UserId, into: UserId, order: seq<ConvId>)
    ensures PlayDb(db, MergeSteps(from, into, order)) == RequalifyAll(Moved(db, from, into), order)
  {
    if order == [] {
      LogOneMore(db, [], Moving(from, into));
      assert [] + [Moving(from, into)] == MergeSteps(from, into, order);
    } else {
      var front, last := order[..|order| - 1], order[|order| - 1];
      MergeStepsMerge(db, from, into, front);
      LogOneMore(db, MergeSteps(from, into, front), Requalifying(last));
    }
  }

  /** The merge publishes what keeps the books: releases for the threads it drops, nothing for the
      rows it moves. */
  lemma MergeKeepsBooks(s: System, from: UserId, into: UserId, order: seq<ConvId>, legacy: bool)
    requires Good(s, legacy)
    ensures Good(System(RequalifyAll(Moved(s.db, from, into), order),
      Publish(s.claims, Log(s.db, MergeSteps(from, into, order)))), legacy)
  {
    var steps := MergeSteps(from, into, order);
    MergeStepsMerge(s.db, from, into, order);
    UnconditionalIsPermitted(s, steps);
    RunKeepsBooks(s, steps, legacy);
    PlayIsLog(s, steps);
  }

  // ── user.deleted ─────────────────────────────────────────────────────────

  function EraseSteps(user: UserId, at: Time, order: seq<ConvId>): (steps: seq<Step>)
    ensures forall i | 0 <= i < |steps| :: Unconditional(steps[i])
  {
    if order == [] then []
    else EraseSteps(user, at, order[..|order| - 1]) + [OnThread(order[|order| - 1], Erasing(user, at))]
  }

  /** Erase in these threads, unseat, and drop those. */
  function DeletionSteps(user: UserId, at: Time, own: seq<ConvId>, dead: seq<ConvId>): (steps: seq<Step>)
    ensures forall i | 0 <= i < |steps| :: Unconditional(steps[i])
  {
    if dead == [] then EraseSteps(user, at, own) + [Unseating(user)]
    else DeletionSteps(user, at, own, dead[..|dead| - 1]) + [Dropping(dead[|dead| - 1])]
  }

  function ErasedIn(db: Db, done: set<ConvId>, user: UserId, at: Time): Db {
    map k | k in db :: if k in done then EraseUser(db[k], user, at) else db[k]
  }

  lemma EraseOneMore(db: Db, done: set<ConvId>, user: UserId, at: Time, k: ConvId)
    requires k in db && k !in done
    ensures k in ErasedIn(db, done, user, at) && ErasedIn(db, done, user, at)[k] == db[k]
    ensures ErasedIn(db, done + {k}, user, at) == ErasedIn(db, done, user, at)[k := EraseUser(db[k], user, at)]
    ensures ErasedIn(db, done + {k}, user, at) == NextDb(ErasedIn(db, done, user, at), OnThread(k, Erasing(user, at)))
  {
  }

  lemma {:induction false} EraseStepsErase(db: Db, user: UserId, at: Time, order: seq<ConvId>)
    requires NoRepeats(order) && Elements(order) <= db.Keys
    ensures PlayDb(db, EraseSteps(user, at, order)) == ErasedIn(db, Elements(order), user, at)
  {
    if order == [] {
      assert ErasedIn(db, {}, user, at) == db;
    } else {
      var front, k := order[..|order| - 1], order[|order| - 1];
      assert order == front + [k] && Elements(order) == Elements(front) + {k};
      EraseStepsErase(db, user, at, front);
      EraseOneMore(db, Elements(front), user, at, k);
      LogOneMore(db, EraseSteps(user, at, front), OnThread(k, Erasing(user, at)));
    }
  }

  /** The threads that hold a live message of the user, each once. */
  ghost predicate ListsOwn(order: seq<ConvId>, db: Db, user: UserId) {
    && NoRepeats(order) && Elements(order) <= db.Keys
    && forall k | k in db && k !in Elements(order) :: CountMine(db[k].messages, user) == 0
  }

  lemma OwnThreadsAreEnough(db: Db, user: UserId, at: Time, own: seq<ConvId>)
    requires ListsOwn(own, db, user)
    ensures ErasedIn(db, Elements(own), user, at) == EraseEverywhere(db, user, at)
  {
    forall k | k in db && k !in Elements(own)
      ensures EraseUser(db[k], user, at) == db[k]
    {
      UntouchedThread(db[k], user, at);
    }
  }

  /** The store between the second and the third part of a deletion. */
  function Unseated(db: Db, user: UserId, at: Time): Db {
    UnseatEverywhere(EraseEverywhere(db, user, at), user)
  }

  lemma EraseAndUnseat(db: Db, user: UserId, at: Time, own: seq<ConvId>)
    requires ListsOwn(own, db, user)
    ensures PlayDb(db, DeletionSteps(user, at, own, [])) == Unseated(db, user, at)
    ensures Log(db, DeletionSteps(user, at, own, [])) == Log(db, EraseSteps(user, at, own))
  {
    EraseStepsErase(db, user, at, own);
    OwnThreadsAreEnough(db, user, at, own);
    LogOneMore(db, EraseSteps(user, at, own), Unseating(user));
  }

  lemma DropOneMore(db: Db, user: UserId, at: Time, own: seq<ConvId>, dead: seq<ConvId>, k: ConvId)
    ensures var steps, more := DeletionSteps(user, at, own, dead), DeletionSteps(user, at, own, dead + [k]);
      && PlayDb(db, more) == PlayDb(db, steps) - {k}
      && Log(db, more) == Log(db, steps) + Events(PlayDb(db, steps), Dropping(k))
  {
    assert (dead + [k])[..|dead|] == dead;
    LogOneMore(db, DeletionSteps(user, at, own, dead), Dropping(k));
  }

  lemma {:induction false} DeletionStepsDelete(db: Db, user: UserId, at: Time, own: seq<ConvId>, dead: seq<ConvId>)
    requires ListsOwn(own, db, user)
    ensures PlayDb(db, DeletionSteps(user, at, own, dead)) == Unseated(db, user, at) - Elements(dead)
  {
    if dead == [] {
      EraseAndUnseat(db, user, at, own);
      assert Unseated(db, user, at) - {} == Unseated(db, user, at);
    } else {
      var front, k := dead[..|dead| - 1], dead[|dead| - 1];
      assert dead == front + [k] && Elements(dead) == Elements(front) + {k};
      DeletionStepsDelete(db, user, at, own, front);
      DropOneMore(db, user, at, own, front, k);
    }
  }

  /** What dropping these threads publishes. */
  function DropLog(db: Db, dead: seq<ConvId>): seq<Sync> {
    if dead == [] then []
    else
      var k := dead[|dead| - 1];
      DropLog(db, dead[..|dead| - 1]) + if k in db then EmitAll(db[k].messages, Removal) else []
  }

  lemma DropEvents(db: Db, gone: set<ConvId>, k: ConvId)
    requires k !in gone
    ensures Events(db - gone, Dropping(k)) == if k in db then EmitAll(db[k].messages, Removal) else []
  {
  }

  lemma {:induction false} DeletionLog(db: Db, user: UserId, at: Time, own: seq<ConvId>, dead: seq<ConvId>)
    requires ListsOwn(own, db, user) && NoRepeats(dead)
    ensures Log(db, DeletionSteps(user, at, own, dead)) ==
      Log(db, EraseSteps(user, at, own)) + DropLog(Unseated(db, user, at), dead)
  {
    var erased := Log(db, EraseSteps(user, at, own));
    if dead == [] {
      EraseAndUnseat(db, user, at, own);
      assert erased + [] == erased;
    } else {
      var front, k := dead[..|dead| - 1], dead[|dead| - 1];
      assert dead == front + [k];
      DeletionLog(db, user, at, own, front);
      DeletionStepsDelete(db, user, at, own, front);
      DropOneMore(db, user, at, own, front, k);
      DropEvents(Unseated(db, user, at), Elements(front), k);
      var left := Unseated(db, user, at);
      LogConcatTwice(erased, DropLog(left, front), Events(left - Elements(front), Dropping(k)));
    }
  }

  lemma LogConcatTwice(a: seq<Sync>, b: seq<Sync>, c: seq<Sync>)
    ensures a + b + c == a + (b + c)
  {
  }

  /** A deletion releases everything the user's rows claimed and everything that went with the dead
      threads, the counterparty's rows included, and nothing else. */
  lemma DeletionKeepsBooks(s: System, user: UserId, at: Time, own: seq<ConvId>, dead: seq<ConvId>, legacy: bool)
    requires Good(s, legacy) && ListsOwn(own, s.db, user)
    requires Elements(dead) == DeadThreads(s.db, Unseated(s.db, user, at), user)
    ensures Good(System(DeleteUser(s.db, user, at),
      Publish(s.claims, Log(s.db, DeletionSteps(user, at, own, dead)))), legacy)
  {
    var steps := DeletionSteps(user, at, own, dead);
    DeletionStepsDelete(s.db, user, at, own, dead);
    UnconditionalIsPermitted(s, steps);
    RunKeepsBooks(s, steps, legacy);
    PlayIsLog(s, steps);
  }
}
