/** `user.deleted`: a user's messages become anonymous tombstones, their memberships go, and a direct
    thread left with fewer than two people goes with them. */
module Gdpr {
  import opened Text
  import opened Rows
  import opened Journal
  import opened Store
  import opened Merge

  function EraseEverywhere(db: Db, user: UserId, at: Time): Db {
    map k | k in db :: EraseUser(db[k], user, at)
  }

  function Unseat(c: Conversation, user: UserId): Conversation {
    c.(members := c.members - {user})
  }

  /** One thread after the erasure. */
  function Left(c: Conversation, user: UserId, at: Time): Conversation {
    Unseat(EraseUser(c, user, at), user)
  }

  function UnseatEverywhere(db: Db, user: UserId): Db {
    map k | k in db :: Unseat(db[k], user)
  }

  /** The direct threads the user sat in that have lost their point. */
  function DeadThreads(before: Db, after: Db, user: UserId): set<ConvId> {
    set k | k in after && after[k].kind.Direct? && k in before && user in before[k].members && |after[k].members| < 2
  }

  function DeleteUser(db: Db, user: UserId, at: Time): Db {
    var left := UnseatEverywhere(EraseEverywhere(db, user, at), user);
    left - DeadThreads(db, left, user)
  }

  // ── Which threads go ─────────────────────────────────────────────────────

  lemma UnseatLeavesOne(c: Conversation, user: UserId, at: Time)
    requires DirectSound(c) && c.kind.Direct? && user in c.members
    ensures |Left(c, user, at).members| == 1
  {
    var a, b :| Between(c, a, b);
    var other := if a == user then b else a;
    var left := Left(c, user, at);
    assert left.members.Keys == {other};
    assert |left.members| == |left.members.Keys|;
  }

  /** A thread goes exactly when it is a direct thread of the user. */
  lemma DirectThreadsGo(db: Db, user: UserId, at: Time, k: ConvId)
    requires GlobalInv(db)
    ensures k in DeleteUser(db, user, at) <==> k in db && !(db[k].kind.Direct? && user in db[k].members)
    ensures k in DeleteUser(db, user, at) ==>
      DeleteUser(db, user, at)[k] == Left(db[k], user, at)
  {
    if k in db && db[k].kind.Direct? && user in db[k].members {
      UnseatLeavesOne(db[k], user, at);
    }
  }

  // ── What deletion keeps ──────────────────────────────────────────────────

  lemma ThreadStaysSound(c: Conversation, user: UserId, at: Time)
    requires Inv(c)
    ensures Inv(Left(c, user, at))
  {
    EraseKeepsInv(c, user, at);
    MembersAloneKeepInv(EraseUser(c, user, at), Left(c, user, at));
  }

  lemma BystandersStayPaired(c: Conversation, user: UserId, at: Time)
    requires DirectSound(c) && !(c.kind.Direct? && user in c.members)
    ensures DirectSound(Left(c, user, at))
  {
    var c' := Left(c, user, at);
    if c.kind.Direct? {
      var a, b :| Between(c, a, b);
      assert c'.members == c.members;
      assert Between(c', a, b);
    }
  }

  lemma ErasedIds(c: Conversation, user: UserId, at: Time, i: nat)
    requires i < |c.messages|
    ensures EraseUser(c, user, at).messages[i].id == c.messages[i].id
  {
    EraseRowsAt(c.messages, user, at, c.lastSeq, i);
  }

  lemma ThreadsStayApart(c: Conversation, d: Conversation, user: UserId, at: Time)
    requires Apart(c, d)
    ensures Apart(Left(c, user, at), Left(d, user, at))
  {
    forall i, j | 0 <= i < |c.messages| && 0 <= j < |d.messages|
      ensures EraseUser(c, user, at).messages[i].id != EraseUser(d, user, at).messages[j].id
    {
      ErasedIds(c, user, at, i);
      ErasedIds(d, user, at, j);
    }
  }

  lemma DeleteUserKeepsInv(db: Db, user: UserId, at: Time)
    requires GlobalInv(db)
    ensures GlobalInv(DeleteUser(db, user, at))
  {
    var db' := DeleteUser(db, user, at);
    forall k | k in db'
      ensures Inv(db'[k]) && DirectSound(db'[k])
    {
      DirectThreadsGo(db, user, at, k);
      ThreadStaysSound(db[k], user, at);
      BystandersStayPaired(db[k], user, at);
    }
    forall j, k | j in db' && k in db' && j != k
      ensures Apart(db'[j], db'[k]) && !SameKey(db'[j], db'[k])
    {
      DirectThreadsGo(db, user, at, j);
      DirectThreadsGo(db, user, at, k);
      assert Apart(db[j], db[k]) && !SameKey(db[j], db[k]);
      ThreadsStayApart(db[j], db[k], user, at);
    }
  }

  // ── What is left of the user ─────────────────────────────────────────────

  /** The user had already deleted this message themselves. */
  predicate OwnTombstone(m: Message, user: UserId) {
    m.sender == Some(user) && !m.Live()
  }

  /** One row: if it was the user's and live, its words, attachments and author are gone under a new
      revision and nothing else of it is; otherwise it is untouched. */
  lemma RowAfterDeletion(c: Conversation, user: UserId, at: Time, i: nat)
    requires i < |c.messages|
    ensures |Left(c, user, at).messages| == |c.messages|
    ensures var m, m' := c.messages[i], Left(c, user, at).messages[i];
      if m.deletedAt.None? && m.sender == Some(user) then
        && m'.body == "" && m'.attachments == [] && m'.sender == None && m'.deletedAt == Some(at)
        && m'.revision > c.lastSeq
        && m'.(body := m.body, attachments := m.attachments, sender := m.sender, deletedAt := m.deletedAt,
               revision := m.revision) == m
      else m' == m
  {
    EraseRowsAt(c.messages, user, at, c.lastSeq, i);
    ErasedRevision(c, user, at, i);
  }

  /** What is left of a thread's seats: the user's is gone, everybody else's is as it was, and the thread is
      about what it was about and assigned to whom it was. */
  lemma SeatsAfterDeletion(db: Db, user: UserId, at: Time, k: ConvId)
    requires GlobalInv(db) && k in DeleteUser(db, user, at)
    ensures k in db
    ensures var c, c' := db[k], DeleteUser(db, user, at)[k];
      && user !in c'.members
      && (forall other | other != user :: other in c'.members <==> other in c.members)
      && (forall other | other in c.members && other != user :: c'.members[other] == c.members[other])
      && c'.operator == c.operator && c'.kind == c.kind && c'.scope == c.scope && c'.directKey == c.directKey
      && c'.subjectType == c.subjectType && c'.subjectKey == c.subjectKey
  {
    DirectThreadsGo(db, user, at, k);
  }

  lemma AuthorsAfterDeletion(c: Conversation, user: UserId, at: Time)
    ensures Authors(Left(c, user, at), user) <==>
      exists i :: 0 <= i < |c.messages| && OwnTombstone(c.messages[i], user)
  {
    var c' := Left(c, user, at);
    forall i | 0 <= i < |c.messages|
      ensures c'.messages[i].sender == Some(user) <==> OwnTombstone(c.messages[i], user)
    {
      RowAfterDeletion(c, user, at, i);
    }
  }

  /** A departure line is nobody's message, so no erasure reaches it, and none makes a new one. */
  lemma DepartureLinesStay(c: Conversation, user: UserId, at: Time, i: nat)
    requires AllSound(c.messages) && i < |c.messages|
    ensures DepartureLine(Left(c, user, at).messages[i], user) <==> DepartureLine(c.messages[i], user)
  {
    assert Sound(c.messages[i]);
    RowAfterDeletion(c, user, at, i);
  }

  lemma MentionsStay(c: Conversation, user: UserId, at: Time)
    requires AllSound(c.messages)
    ensures Mentions(Left(c, user, at), user) <==> Mentions(c, user)
  {
    var c' := Left(c, user, at);
    forall i | 0 <= i < |c.messages|
      ensures DepartureLine(c'.messages[i], user) <==> DepartureLine(c.messages[i], user)
    {
      DepartureLinesStay(c, user, at, i);
    }
  }

  /** What deletion leaves, exactly: an assignment, the author of a message the user had deleted
      before, and the lines that say they left. */
  lemma WhatStillNamesTheUser(db: Db, user: UserId, at: Time, k: ConvId)
    requires GlobalInv(db) && k in DeleteUser(db, user, at) && k in db
    ensures var c, c' := db[k], DeleteUser(db, user, at)[k];
      && (Names(c', user) <==>
            c.operator == Some(user) || exists i :: 0 <= i < |c.messages| && OwnTombstone(c.messages[i], user))
      && (Mentions(c', user) <==> Mentions(c, user))
  {
    DirectThreadsGo(db, user, at, k);
    AuthorsAfterDeletion(db[k], user, at);
    assert Inv(db[k]);
    MentionsStay(db[k], user, at);
  }

  // ── Delivered again ──────────────────────────────────────────────────────

  lemma {:induction false} NothingToErase(rows: seq<Message>, user: UserId, at: Time, base: nat)
    requires forall i | 0 <= i < |rows| :: !Mine(rows[i], user)
    ensures CountMine(rows, user) == 0 && EraseRows(rows, user, at, base) == rows
  {
    if rows != [] {
      var n := |rows| - 1;
      NothingToErase(rows[..n], user, at, base);
      assert rows == rows[..n] + [rows[n]];
    }
  }

  lemma UntouchedThread(c: Conversation, user: UserId, at: Time)
    ensures CountMine(c.messages, user) == 0 ==> EraseUser(c, user, at) == c
  {
    if CountMine(c.messages, user) == 0 {
      forall i | 0 <= i < |c.messages|
        ensures !Mine(c.messages[i], user)
      {
        CountMineMonotone(c.messages, user, i);
      }
      NothingToErase(c.messages, user, at, c.lastSeq);
    }
  }

  lemma ThreadIsDone(c: Conversation, user: UserId, at: Time)
    requires user !in c.members && forall i | 0 <= i < |c.messages| :: !Mine(c.messages[i], user)
    ensures Left(c, user, at) == c
  {
    NothingToErase(c.messages, user, at, c.lastSeq);
    assert EraseUser(c, user, at) == c;
    assert c.members - {user} == c.members;
  }

  lemma ThreadStaysDone(c: Conversation, user: UserId, at: Time, later: Time)
    ensures Left(Left(c, user, at), user, later) == Left(c, user, at)
  {
    var c' := Left(c, user, at);
    forall i | 0 <= i < |c'.messages|
      ensures !Mine(c'.messages[i], user)
    {
      RowAfterDeletion(c, user, at, i);
    }
    ThreadIsDone(c', user, later);
  }

  lemma SecondTimeAround(db: Db, user: UserId, at: Time, later: Time, k: ConvId)
    requires GlobalInv(db) && GlobalInv(DeleteUser(db, user, at))
    ensures SameAt(DeleteUser(DeleteUser(db, user, at), user, later), DeleteUser(db, user, at), k)
  {
    var db' := DeleteUser(db, user, at);
    DirectThreadsGo(db, user, at, k);
    DirectThreadsGo(db', user, later, k);
    if k in db' {
      assert db'[k] == Left(db[k], user, at);
      ThreadStaysDone(db[k], user, at, later);
    }
  }

  /** A second delivery, whenever it comes, finds nothing to do. */
  lemma SecondDeletionChangesNothing(db: Db, user: UserId, at: Time, later: Time)
    requires GlobalInv(db)
    ensures DeleteUser(DeleteUser(db, user, at), user, later) == DeleteUser(db, user, at)
  {
    DeleteUserKeepsInv(db, user, at);
    forall k
      ensures SameAt(DeleteUser(DeleteUser(db, user, at), user, later), DeleteUser(db, user, at), k)
    {
      SecondTimeAround(db, user, at, later, k);
    }
    SameEverywhere(DeleteUser(DeleteUser(db, user, at), user, later), DeleteUser(db, user, at));
  }
}
