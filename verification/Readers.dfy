/** What one reader is served: history, one message by id, the badge, and the line under the title.
    The inbox computes the last two for a whole page; the page form and the per-row form agree. */
module Readers {
  import opened Text
  import opened Rows
  import opened Journal
  import Search

  /** The reader's own mark, as the socket and the single-row reads look it up. */
  function MarkOf(c: Conversation, user: UserId): Option<Time> {
    if user in c.members then c.members[user].clearedAt else None
  }

  function History(c: Conversation, user: UserId): seq<Message> {
    Visible(c.messages, MarkOf(c, user))
  }

  function ById(c: Conversation, user: UserId, id: MsgId): Option<Message> {
    var i := IndexOf(c.messages, id);
    if i < |c.messages| && VisibleAt(c.messages[i], MarkOf(c, user)) then Some(c.messages[i]) else None
  }

  // ── The badge, per row ───────────────────────────────────────────────────

  function Newer(rows: seq<Message>, read: nat): (r: seq<Message>) {
    if rows == [] then []
    else
      var n := |rows| - 1;
      Newer(rows[..n], read) + if rows[n].number > read then [rows[n]] else []
  }

  /** Live rows somebody else wrote. */
  predicate FromOthers(m: Message, user: UserId) {
    m.sender.Some? && m.Live() && m.sender != Some(user)
  }

  function OthersLines(rows: seq<Message>, user: UserId): (r: seq<Message>) {
    if rows == [] then []
    else
      var n := |rows| - 1;
      OthersLines(rows[..n], user) + if FromOthers(rows[n], user) then [rows[n]] else []
  }

  /** `unread_count`: three filters over a concrete participant row. */
  function UnreadCount(c: Conversation, user: UserId): nat
    requires user in c.members
  {
    var p := c.members[user];
    |OthersLines(Visible(Newer(c.messages, p.lastRead), p.clearedAt), user)|
  }

  // ── The badge, per page ──────────────────────────────────────────────────

  predicate UnreadRow(m: Message, read: nat, floor: Time, viewer: UserId) {
    m.number > read && m.createdAt > floor && FromOthers(m, viewer)
  }

  function CountUnread(rows: seq<Message>, read: nat, floor: Time, viewer: UserId): nat {
    if rows == [] then 0
    else
      var n := |rows| - 1;
      CountUnread(rows[..n], read, floor, viewer) + if UnreadRow(rows[n], read, floor, viewer) then 1 else 0
  }

  /** `viewer_last_read_seq`, coalesced. */
  function PageRead(c: Conversation, viewer: UserId): nat {
    if viewer in c.members then c.members[viewer].lastRead else 0
  }

  /** A mark, coalesced to the floor below every message. */
  function Floor(mark: Option<Time>): Time {
    if mark.Some? then mark.value else EPOCH
  }

  /** `viewer_cleared_at`. */
  function PageFloor(c: Conversation, viewer: UserId): Time {
    Floor(MarkOf(c, viewer))
  }

  /** The annotated `viewer_unread`. */
  function PageUnread(c: Conversation, viewer: UserId): nat {
    CountUnread(c.messages, PageRead(c, viewer), PageFloor(c, viewer), viewer)
  }

  lemma {:induction false} FiltersCount(rows: seq<Message>, read: nat, mark: Option<Time>, viewer: UserId)
    requires AllSound(rows)
    ensures |OthersLines(Visible(Newer(rows, read), mark), viewer)| == CountUnread(rows, read, Floor(mark), viewer)
  {
    if rows != [] {
      var n := |rows| - 1;
      FiltersCount(rows[..n], read, mark, viewer);
      assert Sound(rows[n]);
      var newer := Newer(rows[..n], read);
      if rows[n].number > read {
        assert (newer + [rows[n]])[..|newer|] == newer;
        var visible := Visible(newer, mark);
        if VisibleAt(rows[n], mark) {
          assert (visible + [rows[n]])[..|visible|] == visible;
        } else {
          assert visible + [] == visible;
        }
      } else {
        assert newer + [] == newer;
      }
    }
  }

  /** Position `i` is unread to somebody who read up to `read` and cleared up to `mark`: a live line after
      both, with an author, who is somebody else. */
  predicate UnreadAt(rows: seq<Message>, i: int, read: nat, mark: Option<Time>, viewer: UserId) {
    && 0 <= i < |rows| && rows[i].number > read && (mark.None? || rows[i].createdAt > mark.value)
    && rows[i].deletedAt.None? && rows[i].sender.Some? && rows[i].sender.value != viewer
  }

  function UnreadPlaces(rows: seq<Message>, read: nat, mark: Option<Time>, viewer: UserId): set<int> {
    set i | 0 <= i < |rows| && UnreadAt(rows, i, read, mark, viewer)
  }

  lemma OneMorePlace(rows: seq<Message>, read: nat, mark: Option<Time>, viewer: UserId)
    requires rows != []
    ensures var n := |rows| - 1;
      var front := UnreadPlaces(rows[..n], read, mark, viewer);
      && n !in front
      && UnreadPlaces(rows, read, mark, viewer) == front + if UnreadAt(rows, n, read, mark, viewer) then {n} else {}
  {
    var n := |rows| - 1;
    forall i | 0 <= i < n
      ensures UnreadAt(rows[..n], i, read, mark, viewer) <==> UnreadAt(rows, i, read, mark, viewer)
    {
    }
  }

  lemma {:induction false} FiltersCountPlaces(rows: seq<Message>, read: nat, mark: Option<Time>, viewer: UserId)
    requires AllSound(rows)
    ensures CountUnread(rows, read, Floor(mark), viewer) == |UnreadPlaces(rows, read, mark, viewer)|
  {
    if rows != [] {
      var n := |rows| - 1;
      FiltersCountPlaces(rows[..n], read, mark, viewer);
      OneMorePlace(rows, read, mark, viewer);
      assert Sound(rows[n]);
    }
  }

  /** What the badge of a member counts. */
  function Unread(c: Conversation, user: UserId): set<int>
    requires user in c.members
  {
    UnreadPlaces(c.messages, c.members[user].lastRead, c.members[user].clearedAt, user)
  }

  // ── The line under the title ─────────────────────────────────────────────

  /** `order_by("-seq").first()`. */
  function Newest(rows: seq<Message>): Option<Message> {
    if rows == [] then None
    else
      var n := |rows| - 1;
      var before := Newest(rows[..n]);
      if before.None? || rows[n].number > before.value.number then Some(rows[n]) else before
  }

  /** The per-row read, with its shortcut for a thread nobody has written in. */
  function LastMessage(c: Conversation, mark: Option<Time>): Option<Message> {
    if c.lastSeq == 0 then None else Newest(Visible(c.messages, mark))
  }

  /** The page's annotation: the newest row above the viewer's floor. */
  function NewestAbove(rows: seq<Message>, floor: Time): Option<Message> {
    if rows == [] then None
    else
      var n := |rows| - 1;
      var before := NewestAbove(rows[..n], floor);
      if rows[n].createdAt > floor && (before.None? || rows[n].number > before.value.number)
      then Some(rows[n]) else before
  }

  function PageLast(c: Conversation, viewer: UserId): Option<Message> {
    NewestAbove(c.messages, PageFloor(c, viewer))
  }

  lemma {:induction false} NewestVisible(rows: seq<Message>, mark: Option<Time>)
    requires AllSound(rows)
    ensures Newest(Visible(rows, mark)) == NewestAbove(rows, Floor(mark))
  {
    if rows != [] {
      var n := |rows| - 1;
      NewestVisible(rows[..n], mark);
      assert Sound(rows[n]);
      var visible := Visible(rows[..n], mark);
      assert (visible + [rows[n]])[..|visible|] == visible && visible + [] == visible;
    }
  }

  /** In thread order the newest row is the last one. */
  lemma {:induction false} NewestIsLast(rows: seq<Message>, last: nat)
    requires Numbered(rows, last)
    ensures Newest(rows) == if rows == [] then None else Some(rows[|rows| - 1])
  {
    if |rows| > 1 {
      NewestOfFront(rows, |rows| - 1);
    }
  }

  lemma {:induction false} NewestOfFront(rows: seq<Message>, k: nat)
    requires 1 <= k <= |rows| && forall i, j | 0 <= i < j < |rows| :: rows[i].number < rows[j].number
    ensures Newest(rows[..k]) == Some(rows[k - 1])
  {
    assert rows[..k][..k - 1] == rows[..k - 1];
    if k > 1 {
      NewestOfFront(rows, k - 1);
    }
  }

  /** The last line a member is shown: the row at the highest place among those after their mark, or none
      where there is none. */
  ghost predicate IsLastLine(c: Conversation, mark: Option<Time>, last: Option<Message>) {
    match last
    case None => forall i | 0 <= i < |c.messages| :: mark.Some? && c.messages[i].createdAt <= mark.value
    case Some(m) =>
      && m in c.messages && (mark.None? || m.createdAt > mark.value)
      && forall i | 0 <= i < |c.messages| && (mark.None? || c.messages[i].createdAt > mark.value) ::
           c.messages[i].number <= m.number
  }

  lemma {:induction false} NewestAboveIsLast(rows: seq<Message>, floor: Time)
    ensures match NewestAbove(rows, floor)
      case None => forall i | 0 <= i < |rows| :: rows[i].createdAt <= floor
      case Some(m) =>
        && m in rows && m.createdAt > floor
        && forall i | 0 <= i < |rows| && rows[i].createdAt > floor :: rows[i].number <= m.number
  {
    if rows != [] {
      var n := |rows| - 1;
      NewestAboveIsLast(rows[..n], floor);
      assert forall i | 0 <= i < n :: rows[..n][i] == rows[i];
    }
  }

  /** On every thread that keeps the journal invariant, the page and the row show one badge and one last
      line to each of its members: the badge counts the live lines after their marker and their mark that
      somebody else wrote, and the last line is the newest row after their mark. */
  lemma PageAgreesWithRow(c: Conversation, viewer: UserId)
    requires Inv(c) && viewer in c.members
    ensures PageUnread(c, viewer) == UnreadCount(c, viewer) == |Unread(c, viewer)|
    ensures PageLast(c, viewer) == LastMessage(c, c.members[viewer].clearedAt)
    ensures IsLastLine(c, c.members[viewer].clearedAt, PageLast(c, viewer))
  {
    FiltersCount(c.messages, c.members[viewer].lastRead, c.members[viewer].clearedAt, viewer);
    FiltersCountPlaces(c.messages, c.members[viewer].lastRead, c.members[viewer].clearedAt, viewer);
    NewestVisible(c.messages, c.members[viewer].clearedAt);
    NewestAboveIsLast(c.messages, PageFloor(c, viewer));
    assert AllSound(c.messages);
    assert forall i | 0 <= i < |c.messages| :: Sound(c.messages[i]);
  }

  /** A send moves the badge of a member by one exactly when it is a line of somebody else that the member
      has not read past or cleared, and otherwise not at all: never its author's, and never for a system
      line. */
  lemma SendMovesTheBadge(c: Conversation, d: Draft, user: UserId)
    requires Inv(c) && Admissible(c, Posting(d)) && Inserts(c, d) && user in c.members
    ensures user in PostOnce(c, d).members
    ensures UnreadCount(PostOnce(c, d), user) == UnreadCount(c, user) +
      if d.sender.Some? && d.sender.value != user && c.members[user].lastRead <= c.lastSeq
         && (c.members[user].clearedAt.None? || d.at > c.members[user].clearedAt.value)
      then 1 else 0
  {
    var p, m := c.members[user], NewRow(d, c.lastSeq + 1);
    BadgeCountsPlaces(c, user);
    SendLeavesMarkers(c, d, user);
    PostKeepsInv(c, d);
    BadgeCountsPlaces(PostOnce(c, d), user);
    OneMoreLine(c.messages, m, p.lastRead, p.clearedAt, user);
  }

  lemma SendLeavesMarkers(c: Conversation, d: Draft, user: UserId)
    requires Inserts(c, d) && user in c.members
    ensures var c' := PostOnce(c, d);
      && c'.messages == c.messages + [NewRow(d, c.lastSeq + 1)] && user in c'.members
      && c'.members[user].lastRead == c.members[user].lastRead
      && c'.members[user].clearedAt == c.members[user].clearedAt
  {
  }

  lemma BadgeCountsPlaces(c: Conversation, user: UserId)
    requires Inv(c) && user in c.members
    ensures UnreadCount(c, user) ==
      |UnreadPlaces(c.messages, c.members[user].lastRead, c.members[user].clearedAt, user)|
  {
    PageAgreesWithRow(c, user);
  }

  lemma OneMoreLine(rows: seq<Message>, m: Message, read: nat, mark: Option<Time>, viewer: UserId)
    ensures |UnreadPlaces(rows + [m], read, mark, viewer)| == |UnreadPlaces(rows, read, mark, viewer)| +
      if m.number > read && (mark.None? || m.createdAt > mark.value)
         && m.deletedAt.None? && m.sender.Some? && m.sender.value != viewer
      then 1 else 0
  {
    assert (rows + [m])[..|rows|] == rows;
    OneMorePlace(rows + [m], read, mark, viewer);
  }

  /** ... on every state any run reaches. */
  lemma PageAgreesOnEveryRun(c: Conversation, ops: seq<Op>, viewer: UserId)
    requires Inv(c) && AllAdmissible(c, ops) && viewer in Run(c, ops).members
    ensures PageUnread(Run(c, ops), viewer) == UnreadCount(Run(c, ops), viewer) == |Unread(Run(c, ops), viewer)|
    ensures PageLast(Run(c, ops), viewer) == LastMessage(Run(c, ops), Run(c, ops).members[viewer].clearedAt)
    ensures IsLastLine(Run(c, ops), Run(c, ops).members[viewer].clearedAt, PageLast(Run(c, ops), viewer))
  {
    RunKeepsInv(c, ops);
    PageAgreesWithRow(Run(c, ops), viewer);
  }

  lemma {:induction false} NewestAboveFrom(rows: seq<Message>, floor: Time)
    ensures NewestAbove(rows, floor).Some? ==>
      NewestAbove(rows, floor).value in rows && NewestAbove(rows, floor).value.createdAt > floor
  {
    if rows != [] {
      NewestAboveFrom(rows[..|rows| - 1], floor);
    }
  }

  /** In every reachable thread the inbox search finds the row by exactly the words its last line
      draws, given a coherent label registry. */
  lemma InboxFindsWhatItDraws(
    c: Conversation, ops: seq<Op>, viewer: UserId, labels: Search.Labels, fold: char -> char, needle: string)
    requires Inv(c) && AllAdmissible(c, ops) && PageLast(Run(c, ops), viewer).Some?
    requires Search.Coherent(labels, fold) && KeepsSpaces(fold) && Search.Needle(needle)
    ensures var m := PageLast(Run(c, ops), viewer).value;
      Search.QueryMatches(labels, fold, needle, m) <==> Search.DrawnMatches(labels, fold, needle, m)
  {
    RunKeepsInv(c, ops);
    var now := Run(c, ops);
    NewestAboveFrom(now.messages, PageFloor(now, viewer));
    var m := PageLast(now, viewer).value;
    assert AllSound(now.messages);
    assert Sound(m);
    Search.RowIsFoundByWhatItDraws(labels, fold, m, needle);
  }

  // ── The lists ────────────────────────────────────────────────────────────

  predicate InInbox(c: Conversation, user: UserId) {
    user in c.members && c.members[user].leftAt.None?
  }

  predicate InLeft(c: Conversation, user: UserId) {
    user in c.members && c.members[user].leftAt.Some?
  }

  function InboxOf(page: seq<Conversation>, viewer: UserId): seq<Conversation> {
    if page == [] then [] else (if InInbox(page[0], viewer) then [page[0]] else []) + InboxOf(page[1..], viewer)
  }

  function LeftOf(page: seq<Conversation>, viewer: UserId): seq<Conversation> {
    if page == [] then [] else (if InLeft(page[0], viewer) then [page[0]] else []) + LeftOf(page[1..], viewer)
  }

  /** The `unread=true` chip filters on the annotation. */
  function UnreadOnly(page: seq<Conversation>, viewer: UserId): seq<Conversation> {
    if page == [] then []
    else (if PageUnread(page[0], viewer) > 0 then [page[0]] else []) + UnreadOnly(page[1..], viewer)
  }

  /** The chip keeps exactly the rows that show a badge, those with something unread in them. */
  lemma {:induction false} UnreadChipIsTheBadge(page: seq<Conversation>, viewer: UserId, c: Conversation)
    requires forall r | r in page :: Inv(r) && viewer in r.members
    ensures c in UnreadOnly(page, viewer) <==> c in page && UnreadCount(c, viewer) > 0
    ensures c in UnreadOnly(page, viewer) <==> c in page && Unread(c, viewer) != {}
  {
    if page != [] {
      assert page[0] in page;
      PageAgreesWithRow(page[0], viewer);
      UnreadChipIsTheBadge(page[1..], viewer, c);
      assert page == [page[0]] + page[1..];
    }
  }

  lemma {:induction false} ListsAreExact(page: seq<Conversation>, viewer: UserId, c: Conversation)
    ensures c in InboxOf(page, viewer) <==> c in page && InInbox(c, viewer)
    ensures c in LeftOf(page, viewer) <==> c in page && InLeft(c, viewer)
  {
    if page != [] {
      ListsAreExact(page[1..], viewer, c);
      assert page == [page[0]] + page[1..];
    }
  }

  /** Every thread of a person is on exactly one of their two lists, and only their threads are. */
  lemma ListsPartitionTheThreads(page: seq<Conversation>, viewer: UserId, c: Conversation)
    ensures c in page && viewer in c.members <==> c in InboxOf(page, viewer) || c in LeftOf(page, viewer)
    ensures !(c in InboxOf(page, viewer) && c in LeftOf(page, viewer))
  {
    ListsAreExact(page, viewer, c);
  }
}
