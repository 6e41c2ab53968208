/** Merging accounts and folding threads never turns what was read back into unread. */
module Unread {
  import opened Rows
  import opened Journal
  import opened Readers

  /** What the badge of a membership row counts. */
  function Badge(rows: seq<Message>, p: Participant, user: UserId): nat {
    CountUnread(rows, p.lastRead, Floor(p.clearedAt), user)
  }

  lemma BadgeIsUnreadCount(c: Conversation, user: UserId)
    requires Inv(c) && user in c.members
    ensures UnreadCount(c, user) == Badge(c.messages, c.members[user], user)
  {
    FiltersCount(c.messages, c.members[user].lastRead, c.members[user].clearedAt, user);
  }

  lemma {:induction false} FewerRowsCount(
    rows: seq<Message>, read: nat, user: UserId, rows': seq<Message>, read': nat, user': UserId, floor: Time)
    requires |rows'| == |rows|
    requires forall i | 0 <= i < |rows| ::
      UnreadRow(rows'[i], read', floor, user') ==> UnreadRow(rows[i], read, floor, user)
    ensures CountUnread(rows', read', floor, user') <= CountUnread(rows, read, floor, user)
  {
    if rows != [] {
      var n := |rows| - 1;
      FewerRowsCount(rows[..n], read, user, rows'[..n], read', user', floor);
    }
  }

  /** In a thread both accounts sat in, the survivor's badge never grows and nobody else's moves. */
  lemma MergeNeverReUnreads(c: Conversation, from: UserId, into: UserId, other: UserId)
    requires Inv(c) && from != into && from in c.members && into in c.members
    requires other in c.members && other != from && other != into
    ensures var c' := Rename(c, from, into);
      && into in c'.members && other in c'.members
      && UnreadCount(c', into) <= UnreadCount(c, into)
      && UnreadCount(c', other) == UnreadCount(c, other)
  {
    SurvivorNeverReUnreads(c, from, into);
    BystanderIsUntouched(c, from, into, other);
  }

  /** Where both sat, the survivor's row keeps everything but its two markers, and each of those is
      the further of the two. */
  lemma MergeFoldsOnlyTheMarkers(c: Conversation, from: UserId, into: UserId)
    requires from != into && from in c.members && into in c.members
    ensures var guest, survivor := c.members[from], c.members[into];
      var members := Rename(c, from, into).members;
      && members.Keys == c.members.Keys - {from}
      && members[into] == survivor.(lastRead := members[into].lastRead, lastDelivered := members[into].lastDelivered)
      && members[into].lastRead >= guest.lastRead && members[into].lastRead >= survivor.lastRead
      && (members[into].lastRead == guest.lastRead || members[into].lastRead == survivor.lastRead)
      && members[into].lastDelivered >= guest.lastDelivered && members[into].lastDelivered >= survivor.lastDelivered
      && (members[into].lastDelivered == guest.lastDelivered || members[into].lastDelivered == survivor.lastDelivered)
  {
  }

  lemma SurvivorNeverReUnreads(c: Conversation, from: UserId, into: UserId)
    requires Inv(c) && from != into && from in c.members && into in c.members
    ensures var c' := Rename(c, from, into); into in c'.members && UnreadCount(c', into) <= UnreadCount(c, into)
  {
    var c' := Rename(c, from, into);
    RenameKeepsInv(c, from, into);
    BadgeIsUnreadCount(c, into);
    BadgeIsUnreadCount(c', into);
    FewerRowsCount(c.messages, c.members[into].lastRead, into,
      c'.messages, c'.members[into].lastRead, into, Floor(c.members[into].clearedAt));
  }

  lemma BystanderIsUntouched(c: Conversation, from: UserId, into: UserId, other: UserId)
    requires Inv(c) && from != into && other in c.members && other != from && other != into
    ensures var c' := Rename(c, from, into); other in c'.members && UnreadCount(c', other) == UnreadCount(c, other)
  {
    var c' := Rename(c, from, into);
    RenameKeepsInv(c, from, into);
    assert c'.members[other] == c.members[other];
    BadgeIsUnreadCount(c, other);
    BadgeIsUnreadCount(c', other);
    var read, floor := c.members[other].lastRead, Floor(c.members[other].clearedAt);
    assert forall i | 0 <= i < |c.messages| ::
      UnreadRow(c'.messages[i], read, floor, other) == UnreadRow(c.messages[i], read, floor, other);
    FewerRowsCount(c.messages, read, other, c'.messages, read, other, floor);
    FewerRowsCount(c'.messages, read, other, c.messages, read, other, floor);
  }

  /** A member whose account is merged away and whose survivor did not sit here keeps the badge,
      less the lines the survivor itself wrote. */
  lemma MovedMemberNeverReUnreads(c: Conversation, from: UserId, into: UserId)
    requires Inv(c) && from != into && from in c.members && into !in c.members
    ensures var c' := Rename(c, from, into); into in c'.members && UnreadCount(c', into) <= UnreadCount(c, from)
  {
    var c' := Rename(c, from, into);
    RenameKeepsInv(c, from, into);
    assert c'.members[into] == c.members[from];
    BadgeIsUnreadCount(c, from);
    BadgeIsUnreadCount(c', into);
    FewerRowsCount(c.messages, c.members[from].lastRead, from,
      c'.messages, c.members[from].lastRead, into, Floor(c.members[from].clearedAt));
  }

  // ── Folding two threads ──────────────────────────────────────────────────

  lemma {:induction false} CountAddsUp(a: seq<Message>, b: seq<Message>, read: nat, floor: Time, user: UserId)
    ensures CountUnread(a + b, read, floor, user) ==
      CountUnread(a, read, floor, user) + CountUnread(b, read, floor, user)
  {
    if b == [] {
      assert a + b == a;
    } else {
      var n := |b| - 1;
      CountAddsUp(a, b[..n], read, floor, user);
      assert (a + b)[..|a| + n] == a + b[..n];
    }
  }

  /** Live lines of others above a member's floor, wherever they sit. */
  function CountOthers(rows: seq<Message>, floor: Time, user: UserId): nat {
    if rows == [] then 0
    else
      var n := |rows| - 1;
      CountOthers(rows[..n], floor, user) + if rows[n].createdAt > floor && FromOthers(rows[n], user) then 1 else 0
  }

  /** The member's marker has not run past the place an adopted row of interest lands on. */
  ghost predicate MarkerBehind(loser: seq<Message>, base: nat, read: nat, floor: Time, user: UserId) {
    forall i | 0 <= i < |loser| && loser[i].createdAt > floor && FromOthers(loser[i], user) :: base + i + 1 > read
  }

  lemma AdoptedFront(loser: seq<Message>, taken: seq<Message>, base: nat)
    requires loser != []
    ensures AdoptRows(loser, taken, base)[..|loser| - 1] == AdoptRows(loser[..|loser| - 1], taken, base)
  {
  }

  lemma MarkerBehindStep(loser: seq<Message>, base: nat, read: nat, floor: Time, user: UserId)
    requires loser != []
    ensures var n := |loser| - 1;
      MarkerBehind(loser, base, read, floor, user) <==>
        MarkerBehind(loser[..n], base, read, floor, user) &&
        (loser[n].createdAt > floor && FromOthers(loser[n], user) ==> base + n + 1 > read)
  {
  }

  lemma {:induction false} AdoptedCount(
    loser: seq<Message>, taken: seq<Message>, base: nat, read: nat, floor: Time, user: UserId)
    ensures CountUnread(AdoptRows(loser, taken, base), read, floor, user) <= CountOthers(loser, floor, user)
    ensures CountUnread(AdoptRows(loser, taken, base), read, floor, user) == CountOthers(loser, floor, user) <==>
      MarkerBehind(loser, base, read, floor, user)
  {
    if loser != [] {
      var n := |loser| - 1;
      var rows := AdoptRows(loser, taken, base);
      AdoptedCount(loser[..n], taken, base, read, floor, user);
      assert rows[..n] == AdoptRows(loser[..n], taken, base) by {
        AdoptedFront(loser, taken, base);
      }
      assert UnreadRow(rows[n], read, floor, user) <==>
        loser[n].createdAt > floor && FromOthers(loser[n], user) && base + n + 1 > read;
      MarkerBehindStep(loser, base, read, floor, user);
    }
  }

  /** Folded lines arrive unread: a member's badge grows by at most the live lines others wrote in
      the loser after the member's own mark, and by exactly those precisely when the member's read
      marker has not run past their new places. */
  lemma FoldGrowsTheBadge(winner: Conversation, loser: Conversation, user: UserId)
    requires Inv(winner) && Admissible(winner, Adopting(loser)) && user in winner.members
    ensures var c', p := Adopt(winner, loser), winner.members[user];
      var others := CountOthers(loser.messages, Floor(p.clearedAt), user);
      && user in c'.members
      && UnreadCount(winner, user) <= UnreadCount(c', user) <= UnreadCount(winner, user) + others
      && (UnreadCount(c', user) == UnreadCount(winner, user) + others <==>
          MarkerBehind(loser.messages, winner.lastSeq, p.lastRead, Floor(p.clearedAt), user))
  {
    var c', p := Adopt(winner, loser), winner.members[user];
    AdoptKeepsInv(winner, loser);
    assert c'.members[user] == p;
    BadgeIsUnreadCount(winner, user);
    BadgeIsUnreadCount(c', user);
    var more := AdoptRows(loser.messages, winner.messages, winner.lastSeq);
    CountAddsUp(winner.messages, more, p.lastRead, Floor(p.clearedAt), user);
    AdoptedCount(loser.messages, winner.messages, winner.lastSeq, p.lastRead, Floor(p.clearedAt), user);
  }

  /** A marker at or below the old counter is enough. */
  lemma ClampedMarkerGrowsExactly(winner: Conversation, loser: Conversation, user: UserId)
    requires Inv(winner) && Admissible(winner, Adopting(loser)) && user in winner.members
    requires winner.members[user].lastRead <= winner.lastSeq
    ensures UnreadCount(Adopt(winner, loser), user) == UnreadCount(winner, user)
      + CountOthers(loser.messages, Floor(winner.members[user].clearedAt), user)
  {
    FoldGrowsTheBadge(winner, loser, user);
  }
}
