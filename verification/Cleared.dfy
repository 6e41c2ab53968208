/** "Clear history for me": one reader's floor under everything they pull. */
module Cleared {
  import opened Text
  import opened Rows
  import opened Journal
  import opened Readers

  ghost predicate MovesForward(a: Option<Time>, b: Option<Time>) {
    a.Some? ==> b.Some? && b.value >= a.value
  }

  /** The rows a badge counts. */
  function UnreadRows(c: Conversation, user: UserId): seq<Message>
    requires user in c.members
  {
    OthersLines(Visible(Newer(c.messages, c.members[user].lastRead), c.members[user].clearedAt), user)
  }

  /** Some pull path hands this row to this reader: history, by id, the badge, or the last line. */
  ghost predicate Served(c: Conversation, user: UserId, m: Message)
    requires user in c.members
  {
    || m in History(c, user)
    || (exists id :: ById(c, user, id) == Some(m))
    || m in UnreadRows(c, user)
    || LastMessage(c, c.members[user].clearedAt) == Some(m)
    || PageLast(c, user) == Some(m)
  }

  /** What a badge counts is in the thread and above the floor. */
  lemma {:induction false} OthersLinesFrom(rows: seq<Message>, user: UserId, m: Message)
    ensures m in OthersLines(rows, user) ==> m in rows
  {
    if rows != [] {
      OthersLinesFrom(rows[..|rows| - 1], user, m);
    }
  }

  lemma {:induction false} NewerFrom(rows: seq<Message>, read: nat, m: Message)
    ensures m in Newer(rows, read) ==> m in rows
  {
    if rows != [] {
      NewerFrom(rows[..|rows| - 1], read, m);
    }
  }

  lemma {:induction false} NewestFrom(rows: seq<Message>)
    ensures Newest(rows).Some? ==> Newest(rows).value in rows
  {
    if rows != [] {
      NewestFrom(rows[..|rows| - 1]);
    }
  }

  lemma BadgeIsAfterTheMark(c: Conversation, user: UserId, m: Message)
    requires user in c.members && m in UnreadRows(c, user)
    ensures m in c.messages && VisibleAt(m, MarkOf(c, user))
  {
    var p := c.members[user];
    var newer := Newer(c.messages, p.lastRead);
    OthersLinesFrom(Visible(newer, p.clearedAt), user, m);
    VisibleIsExact(newer, p.clearedAt, m);
    NewerFrom(c.messages, p.lastRead, m);
  }

  lemma LastLineIsAfterTheMark(c: Conversation, user: UserId, m: Message)
    requires user in c.members
    requires LastMessage(c, c.members[user].clearedAt) == Some(m) || PageLast(c, user) == Some(m)
    ensures m in c.messages && VisibleAt(m, MarkOf(c, user))
  {
    var mark := c.members[user].clearedAt;
    NewestFrom(Visible(c.messages, mark));
    VisibleIsExact(c.messages, mark, m);
    NewestAboveFrom(c.messages, Floor(mark));
  }

  /** The member cleared nothing, or this row came later. */
  predicate AfterTheMark(c: Conversation, user: UserId, m: Message)
    requires user in c.members
  {
    c.members[user].clearedAt.None? || m.createdAt > c.members[user].clearedAt.value
  }

  /** Nothing at or before the reader's current mark is served, on any path; everything after it
      is in their history, and is found by its id. */
  lemma ServedIsAfterTheMark(c: Conversation, user: UserId, m: Message)
    requires user in c.members
    ensures Served(c, user, m) ==> m in c.messages && AfterTheMark(c, user, m)
    ensures m in History(c, user) <==> m in c.messages && AfterTheMark(c, user, m)
    ensures DistinctIds(c.messages) ==>
      (ById(c, user, m.id) == Some(m) <==> m in c.messages && AfterTheMark(c, user, m))
  {
    if DistinctIds(c.messages) && m in c.messages {
      var i :| 0 <= i < |c.messages| && c.messages[i] == m;
      assert IndexOf(c.messages, m.id) == i;
    }
    VisibleIsExact(c.messages, MarkOf(c, user), m);
    if m in UnreadRows(c, user) {
      BadgeIsAfterTheMark(c, user, m);
    } else if LastMessage(c, c.members[user].clearedAt) == Some(m) || PageLast(c, user) == Some(m) {
      LastLineIsAfterTheMark(c, user, m);
    }
  }

  /** No step moves a member's mark back, and none but the merge of that very account away ends
      the membership. */
  lemma MarkNeverMovesBack(c: Conversation, op: Op, user: UserId)
    requires Admissible(c, op) && user in c.members
    requires !(op.Renaming? && op.from == user)
    ensures user in Apply(c, op).members
    ensures MovesForward(MarkOf(c, user), MarkOf(Apply(c, op), user))
  {
  }

  lemma {:induction false} MarkNeverMovesBackOnARun(c: Conversation, ops: seq<Op>, user: UserId)
    requires AllAdmissible(c, ops) && user in c.members && KeepsAccount(ops, user)
    ensures user in Run(c, ops).members
    ensures MovesForward(MarkOf(c, user), MarkOf(Run(c, ops), user))
  {
    if ops != [] {
      var n := |ops| - 1;
      RunPrefix(c, ops, n);
      MarkNeverMovesBackOnARun(c, ops[..n], user);
      MarkNeverMovesBack(Run(c, ops[..n]), ops[n], user);
    }
  }

  /** Cleared stays cleared: once a mark is set, no later run of posts, edits, deletions, erasures,
      folds, merges and clears serves that reader a row created at or before it. */
  lemma ClearedStaysCleared(c: Conversation, ops: seq<Op>, user: UserId, m: Message)
    requires AllAdmissible(c, ops) && user in c.members && KeepsAccount(ops, user)
    requires MarkOf(c, user).Some?
    ensures user in Run(c, ops).members
    ensures Served(Run(c, ops), user, m) ==> m.createdAt > MarkOf(c, user).value
  {
    MarkNeverMovesBackOnARun(c, ops, user);
    ServedIsAfterTheMark(Run(c, ops), user, m);
  }

  lemma {:induction false} VisibleTwice(rows: seq<Message>, a: Option<Time>, b: Option<Time>)
    requires MovesForward(a, b)
    ensures Visible(Visible(rows, a), b) == Visible(rows, b)
  {
    if rows != [] {
      var n := |rows| - 1;
      VisibleTwice(rows[..n], a, b);
      var front := Visible(rows[..n], a);
      assert (front + [rows[n]])[..|front|] == front && front + [] == front;
    }
  }

  /** Clearing cuts the clearer's own history at the mark, keeps the order of what is left, and
      changes nothing anybody else is served. */
  lemma ClearingCutsOneHistory(c: Conversation, user: UserId, at: Time, other: UserId)
    requires Admissible(c, Clearing(user, at)) && user in c.members && other != user
    ensures var c' := Clear(c, user, at);
      && History(c', user) == Visible(History(c, user), Some(at))
      && c'.messages == c.messages && c'.lastSeq == c.lastSeq
      && (other in c'.members <==> other in c.members)
      && (other in c.members ==> c'.members[other] == c.members[other])
      && History(c', other) == History(c, other)
  {
    VisibleTwice(c.messages, MarkOf(c, user), Some(at));
  }

  /** Row `i` of the loser is in the history this person reads once the winner has adopted it. */
  ghost predicate ShownAfterFold(winner: Conversation, loser: Conversation, user: UserId, i: nat)
    requires i < |loser.messages|
  {
    Adopt(winner, loser).messages[|winner.messages| + i] in History(Adopt(winner, loser), user)
  }

  /** What was cleared in `loser` is still hidden once `winner` has adopted its rows. */
  ghost predicate FoldKeepsCleared(winner: Conversation, loser: Conversation, user: UserId) {
    forall i: nat | i < |loser.messages| && ShownAfterFold(winner, loser, user, i) ::
      VisibleAt(loser.messages[i], MarkOf(loser, user))
  }

  lemma AdoptedRowIsServed(winner: Conversation, loser: Conversation, user: UserId, i: nat)
    requires i < |loser.messages|
    ensures ShownAfterFold(winner, loser, user, i) <==>
      VisibleAt(loser.messages[i], MarkOf(Adopt(winner, loser), user))
  {
    var c := Adopt(winner, loser);
    var row := c.messages[|winner.messages| + i];
    assert row == Adopted(loser.messages[i], winner.messages, winner.lastSeq + i + 1);
    assert row in c.messages;
    VisibleIsExact(c.messages, MarkOf(c, user), row);
  }

  /** A fold drops the loser-side mark of a person who also sits in the winner. What they cleared
      there stays cleared exactly when none of it was written after their mark in the winner. */
  lemma FoldKeepsClearedIff(winner: Conversation, loser: Conversation, user: UserId)
    requires user in winner.members && user in loser.members
    ensures FoldKeepsCleared(winner, loser, user) <==>
      forall i: nat | i < |loser.messages| && VisibleAt(loser.messages[i], winner.members[user].clearedAt) ::
        VisibleAt(loser.messages[i], loser.members[user].clearedAt)
  {
    assert MarkOf(Adopt(winner, loser), user) == winner.members[user].clearedAt;
    forall i: nat | i < |loser.messages|
      ensures ShownAfterFold(winner, loser, user, i) <==>
        VisibleAt(loser.messages[i], winner.members[user].clearedAt)
    {
      AdoptedRowIsServed(winner, loser, user, i);
    }
  }

  /** A person who sits in the loser alone carries their mark over. */
  lemma FoldCarriesTheMark(winner: Conversation, loser: Conversation, user: UserId)
    requires user !in winner.members && user in loser.members
    ensures MarkOf(Adopt(winner, loser), user) == loser.members[user].clearedAt
    ensures FoldKeepsCleared(winner, loser, user)
  {
    forall i: nat | i < |loser.messages|
      ensures ShownAfterFold(winner, loser, user, i) <==>
        VisibleAt(loser.messages[i], loser.members[user].clearedAt)
    {
      AdoptedRowIsServed(winner, loser, user, i);
    }
  }

  // ── A merge inside one thread ────────────────────────────────────────────

  /** Row `i` is in the history the survivor reads once the guest is merged into them. */
  ghost predicate ShownAfterMerge(c: Conversation, from: UserId, into: UserId, i: nat)
    requires i < |c.messages|
  {
    Rename(c, from, into).messages[i] in History(Rename(c, from, into), into)
  }

  /** What the guest had cleared stays hidden from the survivor. */
  ghost predicate MergeKeepsCleared(c: Conversation, from: UserId, into: UserId) {
    forall i: nat | i < |c.messages| && ShownAfterMerge(c, from, into, i) :: VisibleAt(c.messages[i], MarkOf(c, from))
  }

  lemma RenamedRowIsServed(c: Conversation, from: UserId, into: UserId, i: nat)
    requires i < |c.messages|
    ensures ShownAfterMerge(c, from, into, i) <==> VisibleAt(c.messages[i], MarkOf(Rename(c, from, into), into))
  {
    var c' := Rename(c, from, into);
    assert c'.messages[i] in c'.messages;
    VisibleIsExact(c'.messages, MarkOf(c', into), c'.messages[i]);
  }

  /** Where both accounts sit, the guest's mark goes with the guest's row. What they had cleared stays
      hidden exactly when the survivor's own mark hides it too. */
  lemma MergeKeepsClearedIff(c: Conversation, from: UserId, into: UserId)
    requires from != into && from in c.members && into in c.members
    ensures MarkOf(Rename(c, from, into), into) == MarkOf(c, into)
    ensures MergeKeepsCleared(c, from, into) <==>
      forall i: nat | i < |c.messages| && VisibleAt(c.messages[i], c.members[into].clearedAt) ::
        VisibleAt(c.messages[i], c.members[from].clearedAt)
  {
    forall i: nat | i < |c.messages|
      ensures ShownAfterMerge(c, from, into, i) <==> VisibleAt(c.messages[i], c.members[into].clearedAt)
    {
      RenamedRowIsServed(c, from, into, i);
    }
  }

  /** A membership that moves carries its mark: the survivor reads the very history the guest read. */
  lemma MergeCarriesTheMark(c: Conversation, from: UserId, into: UserId)
    requires from != into && from in c.members && into !in c.members
    ensures MarkOf(Rename(c, from, into), into) == MarkOf(c, from)
    ensures forall i: nat | i < |c.messages| :: ShownAfterMerge(c, from, into, i) <==> c.messages[i] in History(c, from)
    ensures MergeKeepsCleared(c, from, into)
  {
    forall i: nat | i < |c.messages|
      ensures ShownAfterMerge(c, from, into, i) <==> VisibleAt(c.messages[i], MarkOf(c, from))
      ensures c.messages[i] in History(c, from) <==> VisibleAt(c.messages[i], MarkOf(c, from))
    {
      RenamedRowIsServed(c, from, into, i);
      assert c.messages[i] in c.messages;
      VisibleIsExact(c.messages, MarkOf(c, from), c.messages[i]);
    }
  }

  /** Nobody else's floor moves. */
  lemma MergeLeavesOtherMarks(c: Conversation, from: UserId, into: UserId, other: UserId)
    requires other != from && other != into
    ensures MarkOf(Rename(c, from, into), other) == MarkOf(c, other)
  {
  }
}
